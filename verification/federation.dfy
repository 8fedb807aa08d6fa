/** One pull of lxmf_hub/federation.py: compare epoch roots, walk the trees that
    differ, fetch what is missing in batches, and ingest it. The peer answers every
    request from an unchanging table `theirs`. */
module Federation {
  import opened Sorting
  import opened Wrappers
  import opened ByteStrings
  import opened Merkle
  import opened Walk
  import opened Tables
  import opened Stores
  import opened Epochs
  import opened Hub

  const MAX_EPOCHS_PER_RESPONSE := 512

  /** The settings both hubs must share. */
  datatype SyncSettings = SyncSettings(length: int, depth: nat, retention: int, batch: nat) {
    predicate Valid() {
      length > 0 && 1 <= depth <= 24 && batch > 0
    }
  }

  ghost predicate Lists(s: seq<Bytes>, t: set<Bytes>) {
    Distinct(s) && forall x :: x in s <==> x in t
  }

  method EpochHashes(messages: Messages, group: string, epoch: int, length: int) returns (r: seq<Bytes>)
    ensures Lists(r, EpochSet(messages, group, epoch, length)) && Ordered(Leq, r)
  {
    var unordered: seq<Bytes> := [];
    var rest := EpochSet(messages, group, epoch, length);
    while rest != {}
      invariant rest <= EpochSet(messages, group, epoch, length)
      invariant Lists(unordered, EpochSet(messages, group, epoch, length) - rest)
    {
      var h := PickOne(rest);
      DistinctAppend(unordered, [h]);
      unordered := unordered + [h];
      rest := rest - {h};
    }
    LeqIsTotalOrder();
    SortMembers(Leq, unordered);
    SortOrdered(Leq, unordered);
    r := Sort(Leq, unordered);
  }

  lemma ListsSameBag(a: seq<Bytes>, b: seq<Bytes>, t: set<Bytes>)
    requires Lists(a, t) && Lists(b, t)
    ensures multiset(a) == multiset(b)
  {
    forall x
      ensures multiset(a)[x] == multiset(b)[x]
    {
      DistinctCount(a, x);
      DistinctCount(b, x);
    }
  }

  // -- roots -----------------------------------------------------------------------

  /** The root of the tree over a set of hashes, whichever way they are listed. */
  ghost predicate IsRoot(root: Digest, sha: Hasher, t: set<Bytes>, depth: nat)
    requires depth <= 32
  {
    forall l | Lists(l, t) :: root == NodeDigest(sha, l, depth, 0, 0)
  }

  /** Each root is that of its epoch's hashes. */
  ghost predicate RootsMatch(roots: map<int, Digest>, sha: Hasher, messages: Messages, group: string, s: SyncSettings)
    requires s.Valid()
  {
    forall e | e in roots :: IsRoot(roots[e], sha, EpochSet(messages, group, e, s.length), s.depth)
  }

  method EpochRoot(sha: Hasher, messages: Messages, group: string, epoch: int, s: SyncSettings) returns (root: Digest)
    requires s.Valid()
    ensures IsRoot(root, sha, EpochSet(messages, group, epoch, s.length), s.depth)
  {
    var hashes := EpochHashes(messages, group, epoch, s.length);
    var tree := new PrefixMerkleTree(sha, hashes, s.depth);
    root := tree.Root();
    forall l | Lists(l, EpochSet(messages, group, epoch, s.length))
      ensures root == NodeDigest(sha, l, s.depth, 0, 0)
    {
      ListsSameBag(l, hashes, EpochSet(messages, group, epoch, s.length));
      UnderRoot(l);
      UnderRoot(hashes);
      SameItemsSameDigest(sha, l, hashes, s.depth, 0, 0);
    }
  }

  /** The newest populated epochs, as many as one response carries. */
  ghost function Offered(epochs: set<int>): set<int> {
    set e | e in epochs && |Above(epochs, e)| < MAX_EPOCHS_PER_RESPONSE
  }

  ghost function Above(epochs: set<int>, e: int): set<int> {
    set f | f in epochs && f > e
  }

  lemma FewEpochsAllOffered(epochs: set<int>)
    requires |epochs| <= MAX_EPOCHS_PER_RESPONSE
    ensures Offered(epochs) == epochs
  {
    forall e | e in epochs
      ensures |Above(epochs, e)| < MAX_EPOCHS_PER_RESPONSE
    {
      SubsetSize(Above(epochs, e), epochs - {e});
    }
  }

  method SortedEpochs(epochs: set<int>) returns (r: seq<int>)
    ensures Distinct(r) && Ordered(IntLeq, r) && ToEpochs(r) == epochs
    ensures forall e :: e in r <==> e in epochs
  {
    var unordered: seq<int> := [];
    var rest := epochs;
    while rest != {}
      invariant rest <= epochs
      invariant Distinct(unordered) && forall e :: e in unordered <==> e in epochs - rest
    {
      var e := PickOne(rest);
      DistinctAppend(unordered, [e]);
      unordered := unordered + [e];
      rest := rest - {e};
    }
    SortMembers(IntLeq, unordered);
    SortOrdered(IntLeq, unordered);
    r := Sort(IntLeq, unordered);
    assert forall e :: e in r <==> e in epochs;
  }

  ghost function ToEpochs(s: seq<int>): set<int> {
    set e | e in s
  }

  lemma InOrder(sorted: seq<int>, i: nat, j: nat)
    requires Ordered(IntLeq, sorted) && i < |sorted| && j < |sorted|
    ensures sorted[j] > sorted[i] ==> j > i
  {
    if j < i {
      assert IntLeq(sorted[j], sorted[i]);
    }
  }

  lemma LastAreOffered(sorted: seq<int>, epochs: set<int>, i: nat)
    requires Distinct(sorted) && Ordered(IntLeq, sorted) && forall e :: e in sorted <==> e in epochs
    requires i < |sorted|
    ensures sorted[i] in Offered(epochs) <==> i >= |sorted| - MAX_EPOCHS_PER_RESPONSE
  {
    var later := sorted[i + 1..];
    assert Above(epochs, sorted[i]) == set f | f in later by {
      forall f
        ensures f in epochs && f > sorted[i] <==> f in later
      {
        if f in epochs && f > sorted[i] {
          var j :| 0 <= j < |sorted| && sorted[j] == f;
          InOrder(sorted, i, j);
          assert later[j - i - 1] == f;
        }
        if f in later {
          var j :| 0 <= j < |later| && later[j] == f;
          assert sorted[j + i + 1] == f && IntLeq(sorted[i], sorted[j + i + 1]) && sorted[i] != sorted[j + i + 1];
        }
      }
    }
    DistinctSize(later);
  }

  function Cutoff(s: SyncSettings, now: real): real
    requires s.length > 0
  {
    (OldestEpoch(now, s.length, s.retention) * s.length) as real
  }

  /** The server's answer to a roots request for one group. */
  method EpochRoots(sha: Hasher, messages: Messages, group: string, s: SyncSettings, now: real)
    returns (roots: map<int, Digest>)
    requires s.Valid()
    ensures roots.Keys == Offered(Populated(messages, group, s.length, Cutoff(s, now)))
    ensures RootsMatch(roots, sha, messages, group, s)
  {
    var epochs := SortedEpochs(Populated(messages, group, s.length, Cutoff(s, now)));
    var first := if |epochs| <= MAX_EPOCHS_PER_RESPONSE then 0 else |epochs| - MAX_EPOCHS_PER_RESPONSE;
    roots := map[];
    for i := first to |epochs|
      invariant roots.Keys == ToEpochs(epochs[first..i])
      invariant RootsMatch(roots, sha, messages, group, s)
    {
      var root := EpochRoot(sha, messages, group, epochs[i], s);
      assert epochs[first..i + 1] == epochs[first..i] + [epochs[i]];
      roots := roots[epochs[i] := root];
    }
    TailIsOffered(epochs, Populated(messages, group, s.length, Cutoff(s, now)), first);
  }

  lemma TailIsOffered(sorted: seq<int>, epochs: set<int>, first: nat)
    requires Distinct(sorted) && Ordered(IntLeq, sorted) && forall e :: e in sorted <==> e in epochs
    requires first == if |sorted| <= MAX_EPOCHS_PER_RESPONSE then 0 else |sorted| - MAX_EPOCHS_PER_RESPONSE
    ensures ToEpochs(sorted[first..|sorted|]) == Offered(epochs)
  {
    forall e
      ensures e in sorted[first..] <==> e in Offered(epochs)
    {
      if e in sorted {
        var i :| 0 <= i < |sorted| && sorted[i] == e;
        LastAreOffered(sorted, epochs, i);
        assert i >= first ==> sorted[first..][i - first] == e;
        if e in sorted[first..] {
          var j :| 0 <= j < |sorted| - first && sorted[first..][j] == e;
          assert sorted[first + j] == sorted[i];
        }
      }
    }
    assert sorted[first..|sorted|] == sorted[first..];
  }

  // -- fetching ----------------------------------------------------------------------

  function ToWire(r: Record): Wire {
    Wire(r.group, r.sender, r.timestamp, r.payload)
  }

  /** The server's answer to a fetch: what it holds of the wanted, in this group. */
  function ServeFetch(theirs: Messages, group: string, wanted: seq<Bytes>): seq<Wire> {
    if wanted == [] then []
    else
      var h := wanted[|wanted| - 1];
      ServeFetch(theirs, group, wanted[..|wanted| - 1])
      + if h in theirs && theirs[h].group == group then [ToWire(theirs[h])] else []
  }

  /** Only what was wanted is served, and nothing of another group. */
  lemma {:induction false} ServedAreOfTheGroup(theirs: Messages, group: string, wanted: seq<Bytes>)
    ensures forall w :: w in ServeFetch(theirs, group, wanted) <==>
      exists x :: x in wanted && x in theirs && theirs[x].group == group && w == ToWire(theirs[x])
    ensures forall w | w in ServeFetch(theirs, group, wanted) :: w.group == group
  {
    if wanted != [] {
      var init, last := wanted[..|wanted| - 1], wanted[|wanted| - 1];
      ServedAreOfTheGroup(theirs, group, init);
      forall w
        ensures w in ServeFetch(theirs, group, wanted) <==>
          exists x :: x in wanted && x in theirs && theirs[x].group == group && w == ToWire(theirs[x])
      {
        if x :| x in wanted && x in theirs && theirs[x].group == group && w == ToWire(theirs[x]) {
          assert x in init || x == last;
        }
        if x :| x in init && x in theirs && theirs[x].group == group && w == ToWire(theirs[x]) {
          assert x in wanted;
        }
      }
    }
  }

  /** `mine` with the wanted messages of `theirs` added where it had none. */
  function Gained(mine: Messages, theirs: Messages, wanted: set<Bytes>): Messages {
    map k | k in mine.Keys + (wanted * theirs.Keys) :: if k in mine then mine[k] else theirs[k].(origin := Federated)
  }

  /** The same, as a relation between the two tables and the outcome. */
  ghost predicate Gains(mine: Messages, theirs: Messages, wanted: set<Bytes>, after: Messages) {
    && (forall k :: k in after <==> k in mine || (k in wanted && k in theirs))
    && (forall k | k in after :: after[k] == if k in mine then mine[k] else theirs[k].(origin := Federated))
  }

  lemma GainsIsGained(mine: Messages, theirs: Messages, wanted: set<Bytes>, after: Messages)
    ensures Gains(mine, theirs, wanted, after) <==> after == Gained(mine, theirs, wanted)
  {
    var g := Gained(mine, theirs, wanted);
    if Gains(mine, theirs, wanted, after) {
      assert forall k :: k in after <==> k in g;
    }
  }

  lemma IngestAppends(h: Hashing, groups: set<string>, mine: Messages, records: seq<Wire>, w: Wire)
    ensures Ingested(h, groups, mine, records + [w]) == Ingested(h, groups, Ingested(h, groups, mine, records), [w])
  {
    IngestStep(h, groups, mine, records + [w], |records|);
    assert (records + [w])[..|records|] == records && (records + [w])[..|records| + 1] == records + [w];
  }

  lemma IngestOneGains(h: Hashing, groups: set<string>, m: Messages, theirs: Messages, x: Bytes)
    requires HashesMatch(h, theirs) && x in theirs && theirs[x].group in groups
    ensures Ingested(h, groups, m, [ToWire(theirs[x])]) == if x in m then m else m[x := theirs[x].(origin := Federated)]
  {
    var w := ToWire(theirs[x]);
    assert FromWire(w) == theirs[x].(origin := Federated);
    assert MessageHash(h, FromWire(w)) == MessageHash(h, theirs[x]) == x;
    assert [w][..0] == [];
  }

  lemma GainOne(mine: Messages, theirs: Messages, wanted: set<Bytes>, x: Bytes)
    requires x in theirs
    ensures var m := Gained(mine, theirs, wanted);
      Gained(mine, theirs, wanted + {x}) == if x in m then m else m[x := theirs[x].(origin := Federated)]
  {
  }

  ghost function ToSet(s: seq<Bytes>): set<Bytes> {
    set x | x in s
  }

  lemma ServeFetchLast(theirs: Messages, group: string, init: seq<Bytes>, x: Bytes)
    requires x in theirs && theirs[x].group == group
    ensures ServeFetch(theirs, group, init + [x]) == ServeFetch(theirs, group, init) + [ToWire(theirs[x])]
  {
    assert (init + [x])[..|init|] == init;
  }

  lemma IngestOneMore(
    h: Hashing, groups: set<string>, mine: Messages, theirs: Messages, group: string, init: seq<Bytes>, x: Bytes)
    requires HashesMatch(h, theirs) && group in groups && x in theirs && theirs[x].group == group
    requires Ingested(h, groups, mine, ServeFetch(theirs, group, init)) == Gained(mine, theirs, ToSet(init))
    ensures Ingested(h, groups, mine, ServeFetch(theirs, group, init + [x])) == Gained(mine, theirs, ToSet(init + [x]))
  {
    ServeFetchLast(theirs, group, init, x);
    IngestAppends(h, groups, mine, ServeFetch(theirs, group, init), ToWire(theirs[x]));
    IngestOneGains(h, groups, Gained(mine, theirs, ToSet(init)), theirs, x);
    GainOne(mine, theirs, ToSet(init), x);
    assert ToSet(init + [x]) == ToSet(init) + {x};
  }

  /** Ingesting what a peer served stores each wanted message under the peer's hash. */
  lemma {:induction false} IngestGains(
    h: Hashing, groups: set<string>, mine: Messages, theirs: Messages, group: string, wanted: seq<Bytes>)
    requires HashesMatch(h, theirs) && group in groups
    requires forall x | x in wanted :: x in theirs && theirs[x].group == group
    ensures Ingested(h, groups, mine, ServeFetch(theirs, group, wanted)) == Gained(mine, theirs, ToSet(wanted))
  {
    if wanted == [] {
      assert Gained(mine, theirs, ToSet(wanted)) == mine;
    } else {
      var init, x := wanted[..|wanted| - 1], wanted[|wanted| - 1];
      assert x in wanted && wanted == init + [x];
      IngestGains(h, groups, mine, theirs, group, init);
      IngestOneMore(h, groups, mine, theirs, group, init, x);
    }
  }

  lemma GainsTwice(
    mine: Messages, theirs: Messages, first: set<Bytes>, second: set<Bytes>, mid: Messages, after: Messages)
    requires Gains(mine, theirs, first, mid) && Gains(mid, theirs, second, after)
    ensures Gains(mine, theirs, first + second, after)
  {
  }

  /** One batch: served, arrived, ingested. */
  method FetchBatch(hub: GroupHub, theirs: Messages, group: string, wanted: seq<Bytes>, now: real)
    returns (ingested: nat)
    requires hub.store.Valid() && group in hub.store.groups
    requires HashesMatch(hub.store.hashing, theirs)
    requires forall x | x in wanted :: x in theirs && theirs[x].group == group
    modifies hub.store`messages, hub.store`queue, hub.store`nextId, hub.store`history
    ensures hub.store.Valid()
    ensures Gains(old(hub.store.messages), theirs, ToSet(wanted), hub.store.messages)
    ensures ingested == |hub.store.messages| - |old(hub.store.messages)|
  {
    IngestGains(hub.store.hashing, hub.store.groups.Keys, hub.store.messages, theirs, group, wanted);
    GainsIsGained(hub.store.messages, theirs, ToSet(wanted), Gained(hub.store.messages, theirs, ToSet(wanted)));
    var raised;
    ingested, raised := hub.IngestFederated(ServeFetch(theirs, group, wanted), now, None);
  }

  lemma BatchJoins(
    mine: Messages, theirs: Messages, missing: seq<Bytes>, start: nat, end: nat, mid: Messages, after: Messages)
    requires start <= end <= |missing|
    requires Gains(mine, theirs, ToSet(missing[..start]), mid) && Gains(mid, theirs, ToSet(missing[start..end]), after)
    ensures Gains(mine, theirs, ToSet(missing[..end]), after)
  {
    assert missing[..end] == missing[..start] + missing[start..end];
    assert ToSet(missing[..end]) == ToSet(missing[..start]) + ToSet(missing[start..end]);
    GainsTwice(mine, theirs, ToSet(missing[..start]), ToSet(missing[start..end]), mid, after);
  }

  /** Fetch the missing messages a batch at a time. */
  method Fetch(hub: GroupHub, theirs: Messages, group: string, missing: seq<Bytes>, s: SyncSettings, now: real)
    returns (ingested: nat)
    requires s.Valid() && hub.store.Valid() && group in hub.store.groups
    requires HashesMatch(hub.store.hashing, theirs)
    requires forall x | x in missing :: x in theirs && theirs[x].group == group
    modifies hub.store`messages, hub.store`queue, hub.store`nextId, hub.store`history
    ensures hub.store.Valid()
    ensures Gains(old(hub.store.messages), theirs, ToSet(missing), hub.store.messages)
    ensures ingested == |hub.store.messages| - |old(hub.store.messages)|
  {
    ghost var before := hub.store.messages;
    ingested := 0;
    var start := 0;
    while start < |missing|
      invariant 0 <= start <= |missing| && hub.store.Valid()
      invariant Gains(before, theirs, ToSet(missing[..start]), hub.store.messages)
      invariant ingested == |hub.store.messages| - |before|
    {
      var end := if start + s.batch <= |missing| then start + s.batch else |missing|;
      var batch := missing[start..end];
      assert forall x | x in batch :: x in missing;
      ghost var mid := hub.store.messages;
      var count := FetchBatch(hub, theirs, group, batch, now);
      BatchJoins(before, theirs, missing, start, end, mid, hub.store.messages);
      ingested := ingested + count;
      start := end;
    }
    assert missing[..start] == missing;
  }

  // -- one epoch -----------------------------------------------------------------------

  ghost predicate ComparableEpoch(
    sha: Hasher, mine: Messages, theirs: Messages, group: string, epoch: int, s: SyncSettings)
    requires s.Valid()
  {
    forall l, r | Lists(l, EpochSet(mine, group, epoch, s.length))
        && Lists(r, EpochSet(theirs, group, epoch, s.length)) ::
      Comparable(sha, l, r, s.depth)
  }

  lemma EqualRootsEqualSets(sha: Hasher, l: seq<Bytes>, r: seq<Bytes>, depth: nat)
    requires 1 <= depth <= 32 && Comparable(sha, l, r, depth)
    requires NodeDigest(sha, l, depth, 0, 0) == NodeDigest(sha, r, depth, 0, 0)
    ensures forall x | x in r :: x in l
  {
    NodesAgreeIffSameItems(sha, l, r, depth, 0, 0);
    UnderRoot(l);
    UnderRoot(r);
    forall x | x in r
      ensures x in l
    {
      assert x in multiset(r);
    }
  }

  lemma NothingNew(mine: Messages, theirs: Messages, group: string, epoch: int, s: SyncSettings)
    requires s.Valid()
    requires EpochSet(theirs, group, epoch, s.length) <= EpochSet(mine, group, epoch, s.length)
    ensures Gains(mine, theirs, EpochSet(theirs, group, epoch, s.length), mine)
  {
  }

  lemma OnlyNewMatter(mine: Messages, theirs: Messages, wanted: set<Bytes>, missing: set<Bytes>, after: Messages)
    requires missing <= wanted && forall x | x in wanted && x !in missing :: x in mine
    requires Gains(mine, theirs, missing, after)
    ensures Gains(mine, theirs, wanted, after)
  {
  }

  /** Reconcile one epoch: nothing to do when the roots agree, and otherwise exactly
      the peer's messages of the epoch are added. What is asked for is exactly what the
      epoch lacks, so nothing when it lacks nothing. */
  method ReconcileEpoch(
    hub: GroupHub, theirs: Messages, group: string, epoch: int, remoteRoot: Digest, s: SyncSettings, now: real)
    returns (ingested: nat, ghost fetched: seq<Bytes>)
    requires s.Valid() && s.depth <= 10
    requires hub.store.Valid() && group in hub.store.groups
    requires HashesMatch(hub.store.hashing, theirs)
    requires IsRoot(remoteRoot, hub.store.hashing.sha, EpochSet(theirs, group, epoch, s.length), s.depth)
    requires ComparableEpoch(hub.store.hashing.sha, hub.store.messages, theirs, group, epoch, s)
    modifies hub.store`messages, hub.store`queue, hub.store`nextId, hub.store`history
    ensures hub.store.Valid()
    ensures Gains(old(hub.store.messages), theirs, EpochSet(theirs, group, epoch, s.length), hub.store.messages)
    ensures ingested == |hub.store.messages| - |old(hub.store.messages)|
    ensures ToSet(fetched) == EpochSet(theirs, group, epoch, s.length) - EpochSet(old(hub.store.messages), group,
        epoch, s.length)
  {
    var sha := hub.store.hashing.sha;
    var mine := EpochHashes(hub.store.messages, group, epoch, s.length);
    var tree := new PrefixMerkleTree(sha, mine, s.depth);
    var answers := EpochHashes(theirs, group, epoch, s.length);
    assert Comparable(sha, mine, answers, s.depth);
    ghost var before := hub.store.messages;
    if tree.Root() == remoteRoot {
      EqualRootsEqualSets(sha, mine, answers, s.depth);
      NothingNew(before, theirs, group, epoch, s);
      return 0, [];
    }
    var peer: Peers := (n: nat) => Serving(answers);
    var missing, _, _ := MissingInEpoch(sha, peer, tree);
    assert Steady(peer, answers);
    assert CanComplete(sha, peer, mine, s.depth);
    fetched := missing.value;
    AllMissing(before, theirs, group, epoch, s, mine, answers, fetched);
    ingested := Fetch(hub, theirs, group, missing.value, s, now);
    OnlyNewMatter(before, theirs, EpochSet(theirs, group, epoch, s.length), ToSet(fetched), hub.store.messages);
  }

  lemma AllMissing(
    mine: Messages, theirs: Messages, group: string, epoch: int, s: SyncSettings,
    ours: seq<Bytes>, answers: seq<Bytes>, missing: seq<Bytes>)
    requires s.Valid()
    requires Lists(ours, EpochSet(mine, group, epoch, s.length))
        && Lists(answers, EpochSet(theirs, group, epoch, s.length))
    requires forall h | h in missing :: Lacks(ours, answers, h)
    requires forall h | Lacks(ours, answers, h) :: h in missing
    ensures forall x | x in missing :: x in theirs && theirs[x].group == group
    ensures ToSet(missing) == EpochSet(theirs, group, epoch, s.length) - EpochSet(mine, group, epoch, s.length)
    ensures forall x | x in EpochSet(theirs, group, epoch, s.length) && x !in ToSet(missing) :: x in mine
  {
    forall x | x in EpochSet(theirs, group, epoch, s.length) && x !in missing
      ensures x in mine
    {
      assert x in answers;
      assert !Lacks(ours, answers, x);
    }
  }

  // -- one pull ---------------------------------------------------------------------------

  /** The premise of a clean pull: the peer's records match their hashes, and the two
      hubs' trees can be compared, epoch by epoch. */
  ghost predicate Reconcilable(h: Hashing, mine: Messages, theirs: Messages, group: string, s: SyncSettings)
    requires s.Valid()
  {
    && HashesMatch(h, theirs)
    && forall e :: ComparableEpoch(h.sha, mine, theirs, group, e, s)
  }

  /** A peer's messages of the given epochs. */
  ghost function OfEpochs(theirs: Messages, group: string, epochs: set<int>, length: int): set<Bytes> {
    set h, e | e in epochs && h in EpochSet(theirs, group, e, length) :: h
  }

  lemma OneMoreEpoch(theirs: Messages, group: string, epochs: set<int>, e: int, length: int)
    ensures OfEpochs(theirs, group, epochs + {e}, length)
        == OfEpochs(theirs, group, epochs, length) + EpochSet(theirs, group, e, length)
  {
  }

  /** Pulling other epochs leaves an epoch's own hashes as they were. */
  lemma OtherEpochsUntouched(
    mine: Messages, theirs: Messages, group: string, epochs: set<int>, e: int, length: int, gained: Messages)
    requires length > 0 && e !in epochs
    requires Gains(mine, theirs, OfEpochs(theirs, group, epochs, length), gained)
    ensures EpochSet(gained, group, e, length) == EpochSet(mine, group, e, length)
  {
    forall h | h in EpochSet(gained, group, e, length)
      ensures h in mine
    {
      if h !in mine {
        var f :| f in epochs && h in EpochSet(theirs, group, f, length);
        EpochsDisjoint(e, f, length, gained[h].timestamp);
      }
    }
  }

  /** The epochs one pull reconciles: the ones offered, from our oldest on. */
  ghost function PulledEpochs(offered: set<int>, oldest: int): set<int> {
    set e | e in offered && e >= oldest
  }

  /** None of these epochs of the peer's holds anything ours lacks. */
  ghost predicate NothingMissing(mine: Messages, theirs: Messages, group: string, epochs: set<int>, length: int) {
    forall e | e in epochs :: EpochSet(theirs, group, e, length) <= EpochSet(mine, group, e, length)
  }

  /** Reconcile one group against the roots a peer offered. */
  method ReconcileGroup(
    hub: GroupHub, theirs: Messages, group: string, roots: map<int, Digest>, s: SyncSettings, now: real)
    returns (ingested: nat, ghost fetched: seq<Bytes>)
    requires s.Valid() && s.depth <= 10
    requires hub.store.Valid() && group in hub.store.groups
    requires Reconcilable(hub.store.hashing, hub.store.messages, theirs, group, s)
    requires RootsMatch(roots, hub.store.hashing.sha, theirs, group, s)
    modifies hub.store`messages, hub.store`queue, hub.store`nextId, hub.store`history
    ensures hub.store.Valid()
    ensures
      EpochsGained(old(hub.store.messages), theirs, group,
                   PulledEpochs(roots.Keys, OldestEpoch(now, s.length, s.retention)), s, hub.store.messages, fetched)
    ensures ingested == |hub.store.messages| - |old(hub.store.messages)|
  {
    ghost var before := hub.store.messages;
    var oldest := OldestEpoch(now, s.length, s.retention);
    var epochs := SortedEpochs(roots.Keys);
    ingested, fetched := 0, [];
    DoneAtEnds(epochs, oldest);
    NothingYet(before, theirs, group, s);
    for i := 0 to |epochs|
      invariant hub.store.Valid()
      invariant EpochsGained(before, theirs, group, Done(epochs, i, oldest), s, hub.store.messages, fetched)
      invariant ingested == |hub.store.messages| - |before|
    {
      NextEpoch(epochs, i, oldest);
      if epochs[i] >= oldest {
        var count;
        ghost var done := Done(epochs, i, oldest);
        var e := epochs[i];
        count, fetched := ReconcileNext(hub, theirs, group, e, roots[e], s, now, before, done, fetched);
        ingested := ingested + count;
      }
    }
  }

  lemma DoneAtEnds(epochs: seq<int>, oldest: int)
    ensures Done(epochs, 0, oldest) == {} && Done(epochs, |epochs|, oldest) == PulledEpochs(ToEpochs(epochs), oldest)
  {
    assert epochs[..|epochs|] == epochs;
  }

  lemma NothingYet(before: Messages, theirs: Messages, group: string, s: SyncSettings)
    requires s.Valid()
    ensures EpochsGained(before, theirs, group, {}, s, before, [])
  {
  }

  /** These epochs have been gained, and nothing fetched if nothing was missing. */
  ghost predicate EpochsGained(
    before: Messages, theirs: Messages, group: string, done: set<int>, s: SyncSettings, now: Messages,
    fetched: seq<Bytes>)
    requires s.Valid()
  {
    && Gains(before, theirs, OfEpochs(theirs, group, done, s.length), now)
    && (NothingMissing(before, theirs, group, done, s.length) ==> fetched == [])
  }

  method ReconcileNext(
    hub: GroupHub, theirs: Messages, group: string, e: int, root: Digest, s: SyncSettings, now: real,
    ghost before: Messages, ghost done: set<int>, ghost sofar: seq<Bytes>)
    returns (ingested: nat, ghost fetched: seq<Bytes>)
    requires s.Valid() && s.depth <= 10
    requires hub.store.Valid() && group in hub.store.groups
    requires Reconcilable(hub.store.hashing, before, theirs, group, s) && e !in done
    requires IsRoot(root, hub.store.hashing.sha, EpochSet(theirs, group, e, s.length), s.depth)
    requires EpochsGained(before, theirs, group, done, s, hub.store.messages, sofar)
    modifies hub.store`messages, hub.store`queue, hub.store`nextId, hub.store`history
    ensures hub.store.Valid()
    ensures EpochsGained(before, theirs, group, done + {e}, s, hub.store.messages, fetched)
    ensures ingested == |hub.store.messages| - |old(hub.store.messages)|
  {
    ghost var mid := hub.store.messages;
    EpochReady(hub.store.hashing, before, theirs, group, done, e, s, mid);
    ghost var more;
    ingested, more := ReconcileEpoch(hub, theirs, group, e, root, s, now);
    fetched := sofar + more;
    EpochDone(before, theirs, group, done, e, s, mid, hub.store.messages, sofar, more);
  }

  /** The epochs dealt with once the first i have been looked at. */
  ghost function Done(epochs: seq<int>, i: nat, oldest: int): set<int>
    requires i <= |epochs|
  {
    PulledEpochs(ToEpochs(epochs[..i]), oldest)
  }

  lemma NextEpoch(epochs: seq<int>, i: nat, oldest: int)
    requires i < |epochs| && Distinct(epochs)
    ensures Done(epochs, i + 1, oldest) == Done(epochs, i, oldest) + if epochs[i] >= oldest then {epochs[i]} else {}
    ensures epochs[i] !in Done(epochs, i, oldest) && epochs[i] in epochs
  {
    assert epochs[..i + 1] == epochs[..i] + [epochs[i]];
  }

  /** One more epoch gained, and nothing fetched if nothing was missing. */
  lemma EpochDone(
    before: Messages, theirs: Messages, group: string, done: set<int>, e: int, s: SyncSettings,
    mid: Messages, after: Messages, fetched: seq<Bytes>, more: seq<Bytes>)
    requires s.Valid() && EpochsGained(before, theirs, group, done, s, mid, fetched)
    requires Gains(mid, theirs, EpochSet(theirs, group, e, s.length), after)
    requires ToSet(more) == EpochSet(theirs, group, e, s.length) - EpochSet(before, group, e, s.length)
    ensures EpochsGained(before, theirs, group, done + {e}, s, after, fetched + more)
  {
    OneMoreEpoch(theirs, group, done, e, s.length);
    GainsTwice(before, theirs, OfEpochs(theirs, group, done, s.length), EpochSet(theirs, group, e, s.length), mid,
        after);
    NoElements(more);
    assert e in done + {e};
  }

  lemma NoElements(s: seq<Bytes>)
    ensures ToSet(s) == {} <==> s == []
  {
    assert s != [] ==> s[0] in ToSet(s);
  }

  lemma EpochReady(
    h: Hashing, before: Messages, theirs: Messages, group: string, done: set<int>, e: int, s: SyncSettings,
    now: Messages)
    requires s.Valid() && e !in done
    requires Reconcilable(h, before, theirs, group, s)
    requires Gains(before, theirs, OfEpochs(theirs, group, done, s.length), now)
    ensures ComparableEpoch(h.sha, now, theirs, group, e, s)
    ensures EpochSet(now, group, e, s.length) == EpochSet(before, group, e, s.length)
  {
    OtherEpochsUntouched(before, theirs, group, done, e, s.length, now);
    assert ComparableEpoch(h.sha, before, theirs, group, e, s);
  }

  /** The epochs one clean pull reconciles. */
  ghost function Reconciled(theirs: Messages, group: string, s: SyncSettings, now: real, peerNow: real): set<int>
    requires s.Valid()
  {
    var since := Cutoff(s, peerNow);
    PulledEpochs(Offered(Populated(theirs, group, s.length, since)), OldestEpoch(now, s.length, s.retention))
  }

  /** What one clean pull leaves: our messages and every message of the group the peer
      holds since its cutoff, in an epoch it offers and we still reconcile. */
  ghost function AfterPull(
    mine: Messages, theirs: Messages, group: string, s: SyncSettings, now: real, peerNow: real): Messages
    requires s.Valid()
  {
    Gained(mine, theirs, OfEpochs(theirs, group, Reconciled(theirs, group, s, now, peerNow), s.length))
  }

  /** One clean pull of one group, from the roots request to the last batch. Nothing is
      fetched when no reconciled epoch lacks anything. */
  method Pull(hub: GroupHub, theirs: Messages, group: string, s: SyncSettings, now: real, peerNow: real)
    returns (ingested: nat, ghost fetched: seq<Bytes>)
    requires s.Valid() && s.depth <= 10
    requires hub.store.Valid() && group in hub.store.groups
    requires Reconcilable(hub.store.hashing, hub.store.messages, theirs, group, s)
    modifies hub.store`messages, hub.store`queue, hub.store`nextId, hub.store`history
    ensures hub.store.Valid()
    ensures hub.store.messages == AfterPull(old(hub.store.messages), theirs, group, s, now, peerNow)
    ensures ingested == |hub.store.messages| - |old(hub.store.messages)|
    ensures
      NothingMissing(old(hub.store.messages), theirs, group, Reconciled(theirs, group, s, now, peerNow), s.length)
      ==> fetched == []
  {
    var roots := EpochRoots(hub.store.hashing.sha, theirs, group, s, peerNow);
    ghost var mine := hub.store.messages;
    ghost var pulled := Reconciled(theirs, group, s, now, peerNow);
    ingested, fetched := ReconcileGroup(hub, theirs, group, roots, s, now);
    GainsIsGained(mine, theirs, OfEpochs(theirs, group, pulled, s.length), hub.store.messages);
  }

  // -- what pulls achieve ------------------------------------------------------------------

  /** The oldest epoch a pull can deliver: both sides cut off at their own. */
  function PullWindow(s: SyncSettings, now: real, peerNow: real): int
    requires s.Valid()
  {
    var mine, theirs := OldestEpoch(now, s.length, s.retention), OldestEpoch(peerNow, s.length, s.retention);
    if mine >= theirs then mine else theirs
  }

  /** The group's messages from epoch w on. */
  ghost function Since(messages: Messages, group: string, w: int, s: SyncSettings): set<Bytes>
    requires s.Valid()
  {
    set h | h in messages && messages[h].group == group && EpochOf(messages[h].timestamp, s.length) >= w
  }

  /** Few enough epochs to fit one response, at the server's cutoff. */
  ghost predicate FitsResponse(messages: Messages, group: string, s: SyncSettings, serverNow: real)
    requires s.Valid()
  {
    var since := Cutoff(s, serverNow);
    NonNegative(messages, group) && |Populated(messages, group, s.length, since)| <= MAX_EPOCHS_PER_RESPONSE
  }

  lemma PulledIsSince(theirs: Messages, group: string, s: SyncSettings, now: real, peerNow: real)
    requires s.Valid() && FitsResponse(theirs, group, s, peerNow)
    ensures OfEpochs(theirs, group, Reconciled(theirs, group, s, now, peerNow), s.length)
            == Since(theirs, group, PullWindow(s, now, peerNow), s)
    ensures forall e | e in Reconciled(theirs, group, s, now, peerNow) :: e >= PullWindow(s, now, peerNow)
  {
    var oldest := OldestEpoch(peerNow, s.length, s.retention);
    var since := (oldest * s.length) as real;
    var populated := Populated(theirs, group, s.length, since);
    var pulled := Reconciled(theirs, group, s, now, peerNow);
    PopulatedPartition(theirs, group, s.length, oldest);
    FewEpochsAllOffered(populated);
    forall h | h in Since(theirs, group, PullWindow(s, now, peerNow), s)
      ensures h in OfEpochs(theirs, group, pulled, s.length)
    {
      var e := EpochOf(theirs[h].timestamp, s.length);
      InItsEpoch(theirs[h], group, s.length);
      AlignedCutoff(e, oldest, s.length, theirs[h].timestamp);
      assert e in pulled && h in EpochSet(theirs, group, e, s.length);
    }
  }

  // -- equal hashes, equal contents ----------------------------------------------------------

  /** The premise under which two hubs' tables can be told apart by their hashes. */
  ghost predicate HashesTellApart(h: Hashing, mine: Messages, theirs: Messages) {
    && HashesMatch(h, mine) && HashesMatch(h, theirs)
    && forall k | k in mine && k in theirs :: FieldsReadable(h, mine[k], theirs[k])
        && NoCollision(h, mine[k], theirs[k])
  }

  /** The same hash names the same contents on both hubs. */
  ghost predicate Agree(mine: Messages, theirs: Messages) {
    forall k | k in mine && k in theirs :: mine[k] == theirs[k].(origin := mine[k].origin)
  }

  lemma HashesMakeAgree(h: Hashing, mine: Messages, theirs: Messages)
    requires HashesTellApart(h, mine, theirs)
    ensures Agree(mine, theirs)
  {
    forall k | k in mine && k in theirs
      ensures mine[k] == theirs[k].(origin := mine[k].origin)
    {
      assert MessageHash(h, mine[k]) == k == MessageHash(h, theirs[k]);
      SameHashSameContents(h, mine[k], theirs[k]);
    }
  }

  /** After one clean pull we hold everything the peer holds in every epoch of the
      window, under the epoch it belongs to. */
  lemma PullHoldsEverything(
    hashing: Hashing, mine: Messages, theirs: Messages, group: string, s: SyncSettings, now: real, peerNow: real,
    e: int)
    requires s.Valid() && FitsResponse(theirs, group, s, peerNow) && HashesTellApart(hashing, mine, theirs)
    requires e >= PullWindow(s, now, peerNow)
    ensures EpochSet(theirs, group, e, s.length)
            <= EpochSet(AfterPull(mine, theirs, group, s, now, peerNow), group, e, s.length)
  {
    HashesMakeAgree(hashing, mine, theirs);
    PulledIsSince(theirs, group, s, now, peerNow);
    forall h | h in EpochSet(theirs, group, e, s.length)
      ensures h in EpochSet(AfterPull(mine, theirs, group, s, now, peerNow), group, e, s.length)
    {
      InItsEpoch(theirs[h], group, s.length);
      EpochsDisjoint(e, EpochOf(theirs[h].timestamp, s.length), s.length, theirs[h].timestamp);
      assert h in Since(theirs, group, PullWindow(s, now, peerNow), s);
    }
  }

  /** A pull from a table that holds nothing new since the window adds nothing. */
  lemma PullOfKnownIsIdle(mine: Messages, theirs: Messages, group: string, s: SyncSettings, now: real, peerNow: real)
    requires s.Valid() && FitsResponse(theirs, group, s, peerNow)
    requires Since(theirs, group, PullWindow(s, now, peerNow), s) <= mine.Keys
    ensures AfterPull(mine, theirs, group, s, now, peerNow) == mine
  {
    PulledIsSince(theirs, group, s, now, peerNow);
  }

  /** Time only takes epochs out of the window. */
  lemma LaterOldest(s: SyncSettings, now: real, later: real)
    requires s.Valid() && 0.0 <= now <= later
    ensures OldestEpoch(now, s.length, s.retention) <= OldestEpoch(later, s.length, s.retention)
  {
    RealQuotient(now, later, s.length);
  }

  lemma LaterSince(s: SyncSettings, now: real, later: real)
    requires s.Valid() && 0.0 <= now <= later
    ensures (OldestEpoch(now, s.length, s.retention) * s.length) as real
            <= (OldestEpoch(later, s.length, s.retention) * s.length) as real
  {
    LaterOldest(s, now, later);
    var e, f := OldestEpoch(now, s.length, s.retention), OldestEpoch(later, s.length, s.retention);
    Scaled(e, s.length);
    Scaled(f, s.length);
    RealProduct(e as real, f as real, s.length as real);
  }

  lemma PopulatedShrinks(messages: Messages, group: string, length: int, since: real, later: real)
    requires length > 0 && since <= later
    ensures |Populated(messages, group, length, later)| <= |Populated(messages, group, length, since)|
  {
    SubsetSize(Populated(messages, group, length, later), Populated(messages, group, length, since));
  }

  lemma LaterFits(messages: Messages, group: string, s: SyncSettings, now: real, later: real)
    requires s.Valid() && 0.0 <= now <= later && FitsResponse(messages, group, s, now)
    ensures FitsResponse(messages, group, s, later)
  {
    LaterSince(s, now, later);
    PopulatedShrinks(
      messages, group, s.length, (OldestEpoch(now, s.length, s.retention) * s.length) as real,
      (OldestEpoch(later, s.length, s.retention) * s.length) as real);
  }

  /** Nothing is left to transfer from `theirs`, at these readings or any later ones: the
      table stays as it is, and no hash is even asked for. */
  ghost predicate Idle(mine: Messages, theirs: Messages, group: string, s: SyncSettings, now: real, peerNow: real)
    requires s.Valid()
  {
    forall t, u | t >= now && u >= peerNow ::
      && AfterPull(mine, theirs, group, s, t, u) == mine
      && NothingMissing(mine, theirs, group, Reconciled(theirs, group, s, t, u), s.length)
  }

  lemma IdleFromNowOn(mine: Messages, theirs: Messages, group: string, s: SyncSettings, now: real, peerNow: real)
    requires s.Valid() && 0.0 <= now && 0.0 <= peerNow && FitsResponse(theirs, group, s, peerNow)
    requires forall e | e >= PullWindow(s, now, peerNow) ::
      EpochSet(theirs, group, e, s.length) <= EpochSet(mine, group, e, s.length)
    requires Since(theirs, group, PullWindow(s, now, peerNow), s) <= mine.Keys
    ensures Idle(mine, theirs, group, s, now, peerNow)
  {
    forall t, u | t >= now && u >= peerNow
      ensures AfterPull(mine, theirs, group, s, t, u) == mine
      ensures NothingMissing(mine, theirs, group, Reconciled(theirs, group, s, t, u), s.length)
    {
      LaterOldest(s, now, t);
      LaterOldest(s, peerNow, u);
      LaterFits(theirs, group, s, peerNow, u);
      PullOfKnownIsIdle(mine, theirs, group, s, t, u);
      PulledIsSince(theirs, group, s, t, u);
    }
  }

  /** A pull each way: both hubs then hold the same hashes in every epoch of the
      window, and no later round transfers anything in either direction. */
  lemma PullsEachWayAgree(
    hashing: Hashing, a: Messages, b: Messages, group: string, s: SyncSettings, atA: real, atB: real)
    requires s.Valid() && HashesTellApart(hashing, a, b) && 0.0 <= atA && 0.0 <= atB
    requires FitsResponse(b, group, s, atB)
    requires FitsResponse(AfterPull(a, b, group, s, atA, atB), group, s, atA)
    requires FitsResponse(AfterPull(b, AfterPull(a, b, group, s, atA, atB), group, s, atB, atA), group, s, atB)
    ensures
      var a1 := AfterPull(a, b, group, s, atA, atB);
      var b1 := AfterPull(b, a1, group, s, atB, atA);
      && (forall e | e >= PullWindow(s, atA, atB) ::
            EpochSet(a1, group, e, s.length) == EpochSet(b1, group, e, s.length))
      && Idle(a1, b1, group, s, atA, atB)
      && Idle(b1, a1, group, s, atB, atA)
  {
    var a1 := AfterPull(a, b, group, s, atA, atB);
    var b1 := AfterPull(b, a1, group, s, atB, atA);
    HashesMakeAgree(hashing, a, b);
    PulledIsSince(b, group, s, atA, atB);
    PulledIsSince(a1, group, s, atB, atA);
    SameSince(a, b, a1, b1, group, s, PullWindow(s, atA, atB));
    IdleFromNowOn(a1, b1, group, s, atA, atB);
    IdleFromNowOn(b1, a1, group, s, atB, atA);
  }

  /** Each table with what it lacked of the other's window: the windows are the same. */
  lemma SameSince(
    a: Messages, b: Messages, a1: Messages, b1: Messages, group: string, s: SyncSettings, w: int)
    requires s.Valid() && Agree(a, b) && NonNegative(a1, group) && NonNegative(b1, group)
    requires a1 == Gained(a, b, Since(b, group, w, s)) && b1 == Gained(b, a1, Since(a1, group, w, s))
    ensures Since(b1, group, w, s) <= a1.Keys && Since(a1, group, w, s) <= b1.Keys
    ensures forall e | e >= w :: EpochSet(a1, group, e, s.length) == EpochSet(b1, group, e, s.length)
  {
    assert Agree(b, a1) && Agree(a1, b1) && Agree(b1, a1);
    assert Since(b1, group, w, s) <= a1.Keys;
    forall e | e >= w
      ensures EpochSet(a1, group, e, s.length) == EpochSet(b1, group, e, s.length)
    {
      SameSinceSameEpochs(a1, b1, group, s, w, e);
      SameSinceSameEpochs(b1, a1, group, s, w, e);
    }
  }

  lemma SameSinceSameEpochs(a: Messages, b: Messages, group: string, s: SyncSettings, w: int, e: int)
    requires s.Valid() && e >= w && NonNegative(a, group)
    requires Agree(a, b) && Since(a, group, w, s) <= b.Keys
    ensures EpochSet(a, group, e, s.length) <= EpochSet(b, group, e, s.length)
  {
    forall h | h in EpochSet(a, group, e, s.length)
      ensures h in EpochSet(b, group, e, s.length)
    {
      InItsEpoch(a[h], group, s.length);
      EpochsDisjoint(e, EpochOf(a[h].timestamp, s.length), s.length, a[h].timestamp);
      assert h in Since(a, group, w, s);
    }
  }

  // -- retention against pulls ---------------------------------------------------------------

  /** Exactly when a pull brings back a message that retention removed: it belongs to the
      boundary epoch, the same one when it was pruned and now, and the peer has not moved
      past that epoch. */
  lemma RefetchedIff(
    mine: Messages, theirs: Messages, group: string, s: SyncSettings, h: Bytes, pruned: real, synced: real,
    peerNow: real)
    requires s.Valid() && FitsResponse(theirs, group, s, peerNow) && 0.0 <= pruned <= synced
    requires h in mine && h in theirs && theirs[h].group == group && mine[h].timestamp == theirs[h].timestamp
    requires mine[h].timestamp < Horizon(pruned, s.length, s.retention)
    ensures
      var kept := KeptMessages(mine, Horizon(pruned, s.length, s.retention));
      var boundary := OldestEpoch(pruned, s.length, s.retention);
      && h !in kept
      && (h in AfterPull(kept, theirs, group, s, synced, peerNow) <==>
            && EpochOf(theirs[h].timestamp, s.length) == boundary == OldestEpoch(synced, s.length, s.retention)
            && OldestEpoch(peerNow, s.length, s.retention) <= boundary)
  {
    var e := EpochOf(theirs[h].timestamp, s.length);
    PulledIsSince(theirs, group, s, synced, peerNow);
    InItsEpoch(theirs[h], group, s.length);
    if e >= OldestEpoch(synced, s.length, s.retention) {
      RefetchOnlyInBoundary(e, s.length, s.retention, theirs[h].timestamp, pruned, synced);
    }
  }

  /** Hourly epochs kept for one epoch, half past one: a message of 00:16:40 is pruned,
      and the next pull from a peer that still has it brings it back. */
  lemma PrunedMessageIsRefetched(r: Record, h: Bytes)
    requires r.timestamp == 1000.0
    ensures
      var s := SyncSettings(3600, 8, 1, 256);
      var kept := KeptMessages(map[h := r], Horizon(5400.0, 3600, 1));
      kept == map[] && h in AfterPull(kept, map[h := r], r.group, s, 5400.0, 5400.0)
  {
    var s := SyncSettings(3600, 8, 1, 256);
    var theirs: Messages := map[h := r];
    assert 1000.0 / 3600.0 < 1.0 && 5400.0 / 3600.0 == 1.5;
    assert EpochOf(1000.0, 3600) == 0 && OldestEpoch(5400.0, 3600, 1) == 0;
    var since := (OldestEpoch(5400.0, 3600, 1) * 3600) as real;
    assert Populated(theirs, r.group, 3600, since) <= {0};
    SubsetSize(Populated(theirs, r.group, 3600, since), {0});
    assert theirs[h] == r;
    RefetchedIff(theirs, theirs, r.group, s, h, 5400.0, 5400.0, 5400.0);
  }
}
