/** The level-by-level walk of lxmf_hub/federation.py that finds which hashes of one
    epoch only the peer holds.

    The peer rebuilds its tree for every request, so its hashes may differ from one
    request to the next: `peer(n)` is what it holds when request n reaches it. */
module Walk {
  import opened Sorting
  import opened Wrappers
  import opened ByteStrings
  import opened Merkle

  const MAX_NODES_PER_REQUEST := 1024
  const MAX_BUCKETS_PER_REQUEST := 64

  /** A peer at the moment of one request: it answers from its current table, turns
      the caller away (an empty response), or the request fails. */
  datatype Peer = Serving(items: seq<Bytes>) | Refusing | Unreachable

  datatype Reply<+T> = Answered(value: T) | Empty | Failed

  type Peers = nat -> Peer

  /** Hashes are the primary key of the peer's table, and 32 bytes long. */
  ghost predicate HashTable(items: seq<Bytes>) {
    All32(items) && Distinct(items)
  }

  ghost predicate Holds(p: Peer, h: Bytes) {
    p.Serving? && h in p.items
  }

  ghost predicate HeldThroughout(peer: Peers, requests: nat, h: Bytes) {
    forall n | 0 <= n < requests :: Holds(peer(n), h)
  }

  function Take<T>(s: seq<T>, n: nat): seq<T> {
    if |s| <= n then s else s[..n]
  }

  // -- server side -----------------------------------------------------------

  function LevelAnswer(sha: Hasher, items: seq<Bytes>, depth: nat, level: nat, indices: seq<int>): map<int, Digest>
    requires level <= depth <= 32
  {
    map i | i in Take(indices, MAX_NODES_PER_REQUEST) && 0 <= i < Pow2(level) :: NodeDigest(sha, items, depth, level, i)
  }

  method ServeTree(sha: Hasher, p: Peer, depth: nat, level: int, indices: seq<int>)
    returns (r: Reply<map<int, Digest>>)
    requires 1 <= depth <= 24
    ensures p.Serving? && 0 <= level <= depth ==> r == Answered(LevelAnswer(sha, p.items, depth, level, indices))
    ensures p.Serving? && !(0 <= level <= depth) ==> r.Failed?
    ensures p.Refusing? ==> r.Empty?
    ensures p.Unreachable? ==> r.Failed?
  {
    match p
    case Refusing => r := Empty;
    case Unreachable => r := Failed;
    case Serving(items) =>
      var tree := new PrefixMerkleTree(sha, items, depth);
      var nodes := tree.NodeHashes(level, Take(indices, MAX_NODES_PER_REQUEST));
      match nodes {
        case None => r := Failed;
        case Some(value) =>
          assert value == LevelAnswer(sha, items, depth, level, indices);
          r := Answered(value);
      }
  }

  function BucketAnswer(items: seq<Bytes>, depth: nat, indices: seq<int>): map<int, seq<Bytes>>
    requires depth <= 32
  {
    map i | i in Take(indices, MAX_BUCKETS_PER_REQUEST) :: Sort(Leq, Under(items, depth, i))
  }

  method ServeBucket(sha: Hasher, p: Peer, depth: nat, indices: seq<int>)
    returns (r: Reply<map<int, seq<Bytes>>>)
    requires 1 <= depth <= 24
    ensures p.Serving? ==> r == Answered(BucketAnswer(p.items, depth, indices))
    ensures p.Refusing? ==> r.Empty?
    ensures p.Unreachable? ==> r.Failed?
  {
    match p
    case Refusing => r := Empty;
    case Unreachable => r := Failed;
    case Serving(items) =>
      var tree := new PrefixMerkleTree(sha, items, depth);
      var members := map i | i in Take(indices, MAX_BUCKETS_PER_REQUEST) :: tree.BucketMembers(i);
      assert members == BucketAnswer(items, depth, indices);
      r := Answered(members);
  }

  // -- client side -----------------------------------------------------------

  method ChildrenOf(indices: seq<int>) returns (children: seq<int>)
    ensures AreChildren(indices, children)
    ensures forall c :: c in children <==> c / 2 in indices
    ensures Distinct(indices) ==> Distinct(children)
  {
    children := [];
    for n := 0 to |indices|
      invariant |children| == 2 * n
      invariant forall m | 0 <= m < 2 * n :: children[m] == indices[m / 2] * 2 + m % 2
    {
      children := children + [indices[n] * 2];
      children := children + [indices[n] * 2 + 1];
    }
    ChildrenMembers(indices, children);
    if Distinct(indices) {
      ChildrenDistinct(indices, children);
    }
  }

  ghost predicate AreChildren(indices: seq<int>, children: seq<int>) {
    && |children| == 2 * |indices|
    && forall m | 0 <= m < 2 * |indices| :: children[m] == indices[m / 2] * 2 + m % 2
  }

  lemma ChildrenMembers(indices: seq<int>, children: seq<int>)
    requires AreChildren(indices, children)
    ensures forall c :: c in children <==> c / 2 in indices
  {
    forall c | c in children
      ensures c / 2 in indices
    {
      var m :| 0 <= m < |children| && children[m] == c;
      assert c / 2 == indices[m / 2];
    }
    forall c | c / 2 in indices
      ensures c in children
    {
      var j :| 0 <= j < |indices| && indices[j] == c / 2;
      var m := 2 * j + c % 2;
      assert m / 2 == j && children[m] == c;
    }
  }

  lemma ChildrenDistinct(indices: seq<int>, children: seq<int>)
    requires AreChildren(indices, children) && Distinct(indices)
    ensures Distinct(children)
  {
    forall a, b | 0 <= a < b < |children|
      ensures children[a] != children[b]
    {
      assert a / 2 < b / 2 ==> indices[a / 2] != indices[b / 2];
      assert children[a] == indices[a / 2] * 2 + a % 2;
      assert children[b] == indices[b / 2] * 2 + b % 2;
    }
  }

  predicate IntLeq(a: int, b: int) { a <= b }

  /** What makes a node worth descending into: the peer has something there, and it
      is not what we have. */
  predicate Diverges(local: map<int, Digest>, remote: map<int, Digest>, i: int) {
    && i in remote
    && remote[i] != EMPTY_NODE
    && (if i in local then local[i] else EMPTY_NODE) != remote[i]
  }

  method DivergingNodes(local: map<int, Digest>, remote: map<int, Digest>) returns (r: seq<int>)
    ensures forall i :: i in r <==> Diverges(local, remote, i)
    ensures Distinct(r) && Ordered(IntLeq, r)
  {
    var diverging: seq<int> := [];
    var rest := remote.Keys;
    while rest != {}
      invariant rest <= remote.Keys
      invariant forall i :: i in diverging <==> i !in rest && Diverges(local, remote, i)
      invariant Distinct(diverging)
    {
      var index := PickOne(rest);
      rest := rest - {index};
      if remote[index] != EMPTY_NODE {
        if (if index in local then local[index] else EMPTY_NODE) != remote[index] {
          diverging := diverging + [index];
        }
      }
    }
    SortMembers(IntLeq, diverging);
    SortOrdered(IntLeq, diverging);
    r := Sort(IntLeq, diverging);
  }

  ghost predicate Lacks(local: seq<Bytes>, items: seq<Bytes>, h: Bytes) {
    h in items && h !in local
  }

  method LackingInBucket(local: PrefixMerkleTree, index: int, theirs: seq<Bytes>, ghost items: seq<Bytes>)
    returns (lacking: seq<Bytes>)
    requires local.Valid() && HashTable(items)
    requires theirs == Sort(Leq, Under(items, local.depth, index))
    ensures Distinct(lacking)
    ensures forall h :: h in lacking <==> Lacks(local.items, items, h) && BucketIndex(h, local.depth) == index
  {
    var ours := local.BucketMembers(index);
    BucketContents(local.items, local.depth, index);
    BucketContents(items, local.depth, index);
    WithoutMembers(theirs, ours);
    lacking := Without(theirs, ours);
  }

  /** From one bucket response, what our own buckets lack. */
  method CollectBuckets(local: PrefixMerkleTree, remote: map<int, seq<Bytes>>, ghost items: seq<Bytes>)
    returns (extra: seq<Bytes>)
    requires local.Valid() && HashTable(items)
    requires forall i | i in remote :: remote[i] == Sort(Leq, Under(items, local.depth, i))
    ensures Distinct(extra)
    ensures forall h :: h in extra <==> Lacks(local.items, items, h) && BucketIndex(h, local.depth) in remote.Keys
  {
    extra := [];
    var rest := remote.Keys;
    while rest != {}
      invariant rest <= remote.Keys
      invariant Distinct(extra)
      invariant forall h :: h in extra <==>
        Lacks(local.items, items, h) && BucketIndex(h, local.depth) in remote.Keys - rest
    {
      var index := PickOne(rest);
      var lacking := LackingInBucket(local, index, remote[index], items);
      DistinctAppend(extra, lacking);
      extra := extra + lacking;
      rest := rest - {index};
    }
  }

  lemma BucketContents(items: seq<Bytes>, depth: nat, i: int)
    requires depth <= 32
    ensures forall h :: h in Sort(Leq, Under(items, depth, i)) <==> h in items && BucketIndex(h, depth) == i
    ensures Distinct(items) ==> Distinct(Sort(Leq, Under(items, depth, i)))
  {
    LeqIsTotalOrder();
    UnderMembers(items, depth, i);
    SortMembers(Leq, Under(items, depth, i));
  }

  // -- the walk --------------------------------------------------------------

  /** The premise of completeness: the candidate list is never truncated, and no
      collision occurs among the hashes of our tree and of each tree answering. */
  ghost predicate CanComplete(sha: Hasher, peer: Peers, local: seq<Bytes>, depth: nat)
    requires depth <= 32
  {
    && depth <= 10
    && forall n | peer(n).Serving? :: Comparable(sha, local, peer(n).items, depth)
  }

  /** Whatever the peer held all along and we lack is under one of these nodes. */
  ghost predicate Tracked(peer: Peers, requests: nat, local: seq<Bytes>, level: nat, nodes: seq<int>)
    requires level <= 32
  {
    forall h | HeldThroughout(peer, requests, h) && h !in local :: BucketIndex(h, level) in nodes
  }

  /** A hash only the peer holds makes every node above it diverge. */
  lemma MissingHashDiverges(sha: Hasher, local: seq<Bytes>, remote: seq<Bytes>, depth: nat, level: nat, h: Bytes)
    requires level <= depth <= 32
    requires Comparable(sha, local, remote, depth)
    requires h in remote && h !in local
    ensures var i := BucketIndex(h, level);
            && i < Pow2(level)
            && NodeDigest(sha, remote, depth, level, i) != EMPTY_NODE
            && NodeDigest(sha, local, depth, level, i) != NodeDigest(sha, remote, depth, level, i)
  {
    var i := BucketIndex(h, level);
    BucketInRange(h, level);
    UnderCount(remote, level, i, h);
    UnderCount(local, level, i, h);
    assert multiset(remote)[h] > 0 && multiset(local)[h] == 0;
    EmptyNodeMeansEmpty(sha, remote, depth, level, i);
    NodesAgreeIffSameItems(sha, local, remote, depth, level, i);
  }

  lemma DescentKeepsTrack(
    sha: Hasher, peer: Peers, n: nat, local: seq<Bytes>, depth: nat, level: nat,
    nodes: seq<int>, candidates: seq<int>, ours: map<int, Digest>, diverging: seq<int>)
    requires 1 <= level <= depth <= 32
    requires CanComplete(sha, peer, local, depth) && peer(n).Serving?
    requires Tracked(peer, n, local, level - 1, nodes)
    requires forall c :: c in candidates <==> c / 2 in nodes
    requires |candidates| <= MAX_NODES_PER_REQUEST
    requires forall i :: i in ours <==> i in candidates && 0 <= i < Pow2(level)
    requires forall i | i in ours :: ours[i] == NodeDigest(sha, local, depth, level, i)
    requires forall i ::
      i in diverging <==> Diverges(ours, LevelAnswer(sha, peer(n).items, depth, level, candidates), i)
    ensures Tracked(peer, n + 1, local, level, diverging)
  {
    forall h | HeldThroughout(peer, n + 1, h) && h !in local
      ensures BucketIndex(h, level) in diverging
    {
      assert Holds(peer(n), h) && HeldThroughout(peer, n, h);
      MissingHashDiverges(sha, local, peer(n).items, depth, level, h);
      BucketParent(h, level - 1);
    }
  }

  lemma CandidatesFit(level: nat, nodes: seq<int>, candidates: seq<int>)
    requires 1 <= level <= 10
    requires Distinct(nodes) && forall i | i in nodes :: 0 <= i < Pow2(level - 1)
    requires |candidates| == 2 * |nodes|
    ensures |candidates| <= MAX_NODES_PER_REQUEST
  {
    DistinctBelow(nodes, Pow2(level - 1));
    Pow2Sum(level - 1, 10 - level);
    assert Pow2(9) == 512;
    assert Pow2(level - 1) * Pow2(10 - level) >= Pow2(level - 1);
  }

  // -- what the walk costs -----------------------------------------------------

  /** The nodes of one level at which two trees differ. */
  ghost function DifferingNodes(sha: Hasher, a: seq<Bytes>, b: seq<Bytes>, depth: nat, k: nat): set<int>
    requires k <= depth <= 32
  {
    set i | 0 <= i < Pow2(k) && NodeDigest(sha, a, depth, k, i) != NodeDigest(sha, b, depth, k, i)
  }

  lemma ChildDiffers(sha: Hasher, a: seq<Bytes>, b: seq<Bytes>, depth: nat, k: nat, i: nat)
    requires k < depth <= 32 && i in DifferingNodes(sha, a, b, depth, k)
    ensures 2 * i in DifferingNodes(sha, a, b, depth, k + 1) || 2 * i + 1 in DifferingNodes(sha, a, b, depth, k + 1)
  {
    assert Pow2(k + 1) == 2 * Pow2(k);
  }

  lemma ParentsAreHalves(sha: Hasher, a: seq<Bytes>, b: seq<Bytes>, depth: nat, k: nat)
    requires k < depth <= 32
    ensures DifferingNodes(sha, a, b, depth, k) <= Halves(DifferingNodes(sha, a, b, depth, k + 1))
  {
    forall i | i in DifferingNodes(sha, a, b, depth, k)
      ensures i in Halves(DifferingNodes(sha, a, b, depth, k + 1))
    {
      ChildDiffers(sha, a, b, depth, k, i);
      assert 2 * i / 2 == i && (2 * i + 1) / 2 == i;
    }
  }

  /** No level has more differing nodes than there are differing leaf buckets. */
  lemma {:induction false} DifferingNodesBounded(sha: Hasher, a: seq<Bytes>, b: seq<Bytes>, depth: nat, k: nat)
    requires k <= depth <= 32
    ensures |DifferingNodes(sha, a, b, depth, k)| <= |DifferingNodes(sha, a, b, depth, depth)|
    decreases depth - k
  {
    if k < depth {
      ParentsAreHalves(sha, a, b, depth, k);
      SubsetSize(DifferingNodes(sha, a, b, depth, k), Halves(DifferingNodes(sha, a, b, depth, k + 1)));
      HalvesSize(DifferingNodes(sha, a, b, depth, k + 1));
      DifferingNodesBounded(sha, a, b, depth, k + 1);
    }
  }

  ghost function Halves(s: set<int>): set<int> {
    set i | i in s :: i / 2
  }

  lemma {:induction false} HalvesSize(s: set<int>)
    ensures |Halves(s)| <= |s|
  {
    if s != {} {
      var x := Element(s);
      HalvesSize(s - {x});
      HalvesWithout(s, x);
      SubsetSize(Halves(s), Halves(s - {x}) + {x / 2});
    }
  }

  lemma HalvesWithout(s: set<int>, x: int)
    ensures Halves(s) <= Halves(s - {x}) + {x / 2}
  {
    forall i | i in Halves(s)
      ensures i in Halves(s - {x}) + {x / 2}
    {
      var y :| y in s && y / 2 == i;
      assert y != x ==> y in s - {x};
    }
  }

  // -- the walk itself -------------------------------------------------------

  /** Every candidate list stays within twice the number of differing buckets. */
  ghost predicate Cheap(asked: seq<nat>, buckets: nat) {
    forall n | n in asked :: n <= 2 * buckets
  }

  function Sum(s: seq<nat>): nat {
    if s == [] then 0 else s[0] + Sum(s[1..])
  }

  /** The whole descent asks for at most 2 * d * depth nodes. */
  lemma {:induction false} CheapTotal(asked: seq<nat>, buckets: nat, depth: nat)
    requires Cheap(asked, buckets) && |asked| <= depth
    ensures Sum(asked) <= 2 * buckets * depth
  {
    if asked != [] {
      assert forall n | n in asked[1..] :: n in asked;
      assert asked[0] in asked;
      CheapTotal(asked[1..], buckets, depth - 1);
      OneMoreTimes(2 * buckets, depth - 1);
    }
  }

  lemma OneMoreTimes(m: nat, n: nat)
    ensures m * (n + 1) == m * n + m
  {
  }

  ghost predicate Steady(peer: Peers, items: seq<Bytes>) {
    forall n :: peer(n) == Serving(items)
  }

  ghost predicate RootsDiffer(sha: Hasher, a: seq<Bytes>, b: seq<Bytes>, depth: nat)
    requires depth <= 32
  {
    NodeDigest(sha, a, depth, 0, 0) != NodeDigest(sha, b, depth, 0, 0)
  }

  ghost predicate WithinDiffering(sha: Hasher, peer: Peers, local: seq<Bytes>, depth: nat, level: nat, nodes: seq<int>)
    requires level <= depth <= 32
  {
    forall r | Steady(peer, r) && RootsDiffer(sha, local, r, depth) ::
      forall i | i in nodes :: i in DifferingNodes(sha, local, r, depth, level)
  }

  ghost predicate CheapAgainst(sha: Hasher, peer: Peers, local: seq<Bytes>, depth: nat, asked: seq<nat>)
    requires depth <= 32
  {
    forall r | Steady(peer, r) && RootsDiffer(sha, local, r, depth) ::
      Cheap(asked, |DifferingNodes(sha, local, r, depth, depth)|)
  }

  lemma FewCandidates(
    sha: Hasher, peer: Peers, local: seq<Bytes>, depth: nat, level: nat, nodes: seq<int>, asked: seq<nat>, n: nat)
    requires level <= depth <= 32 && NodesOf(level, nodes) && n <= 2 * |nodes|
    requires WithinDiffering(sha, peer, local, depth, level, nodes)
    requires CheapAgainst(sha, peer, local, depth, asked)
    ensures CheapAgainst(sha, peer, local, depth, asked + [n])
  {
    forall r | Steady(peer, r) && RootsDiffer(sha, local, r, depth)
      ensures Cheap(asked + [n], |DifferingNodes(sha, local, r, depth, depth)|)
    {
      DistinctSize(nodes);
      SubsetSize((set i | i in nodes), DifferingNodes(sha, local, r, depth, level));
      DifferingNodesBounded(sha, local, r, depth, level);
    }
  }

  /** At each of these nodes the peer, as it is now, has something and not what we have. */
  ghost predicate TrulyDiffer(sha: Hasher, p: Peer, local: seq<Bytes>, depth: nat, level: nat, nodes: seq<int>)
    requires level <= depth <= 32
  {
    forall i | i in nodes :: p.Serving? && 0 <= i < Pow2(level)
      && NodeDigest(sha, p.items, depth, level, i) != EMPTY_NODE
      && NodeDigest(sha, p.items, depth, level, i) != NodeDigest(sha, local, depth, level, i)
  }

  /** What one level of the walk establishes, whatever the peer answered. */
  lemma OneLevel(
    sha: Hasher, peer: Peers, n: nat, local: seq<Bytes>, depth: nat, level: nat,
    nodes: seq<int>, children: seq<int>, ours: map<int, Digest>, answer: map<int, Digest>, diverging: seq<int>)
    requires 1 <= level <= depth <= 32
    requires Distinct(nodes) && forall i | i in nodes :: 0 <= i < Pow2(level - 1)
    requires |children| == 2 * |nodes| && forall c :: c in children <==> c / 2 in nodes
    requires
      var candidates := Take(children, MAX_NODES_PER_REQUEST);
      && (forall i :: i in ours <==> i in candidates && 0 <= i < Pow2(level))
      && (forall i | i in ours :: ours[i] == NodeDigest(sha, local, depth, level, i))
      && (peer(n).Serving? ==> answer == LevelAnswer(sha, peer(n).items, depth, level, candidates))
      && (!peer(n).Serving? ==> answer == map[])
    requires forall i :: i in diverging <==> Diverges(ours, answer, i)
    ensures forall i | i in diverging :: 0 <= i < Pow2(level)
    ensures CanComplete(sha, peer, local, depth) && Tracked(peer, n, local, level - 1, nodes) ==>
      Tracked(peer, n + 1, local, level, diverging)
    ensures WithinDiffering(sha, peer, local, depth, level, diverging)
    ensures TrulyDiffer(sha, peer(n), local, depth, level, diverging)
  {
    var candidates := Take(children, MAX_NODES_PER_REQUEST);
    forall i | i in diverging
      ensures peer(n).Serving? && 0 <= i < Pow2(level) && i in ours
    {
      assert Diverges(ours, answer, i);
    }
    if CanComplete(sha, peer, local, depth) && Tracked(peer, n, local, level - 1, nodes) {
      CandidatesFit(level, nodes, children);
      if peer(n).Serving? {
        DescentKeepsTrack(sha, peer, n, local, depth, level, nodes, candidates, ours, diverging);
      } else {
        assert forall h :: HeldThroughout(peer, n + 1, h) ==> Holds(peer(n), h);
      }
    }
    forall r, i | Steady(peer, r) && i in diverging
      ensures i in DifferingNodes(sha, local, r, depth, level)
    {
      assert peer(n) == Serving(r) && Diverges(ours, answer, i);
    }
  }

  /** One turn of the loop over levels: ask for the children of the diverging nodes
      and keep those that diverge. None is a request that raised. */
  method DescendLevel(
    sha: Hasher, ghost peer: Peers, ghost n: nat, p: Peer, local: PrefixMerkleTree, level: nat, nodes: seq<int>)
    returns (diverging: Option<seq<int>>, asked: nat)
    requires local.Valid() && local.sha == sha && p == peer(n)
    requires 1 <= level <= local.depth
    requires OnCourse(sha, peer, n, local.items, local.depth, level - 1, nodes)
    ensures asked <= 2 * |nodes|
    ensures diverging.None? <==> p.Unreachable?
    ensures diverging.Some? ==>
      && OnCourse(sha, peer, n + 1, local.items, local.depth, level, diverging.value)
      && TrulyDiffer(sha, p, local.items, local.depth, level, diverging.value)
  {
    var children := ChildrenOf(nodes);
    var candidates := Take(children, MAX_NODES_PER_REQUEST);
    asked := |candidates|;
    var reply := ServeTree(sha, p, local.depth, level, candidates);
    if reply.Failed? {
      return None, asked;
    }
    var ours := local.NodeHashes(level, candidates).value;
    var answer := if reply.Empty? then map[] else reply.value;
    var found := DivergingNodes(ours, answer);
    OneLevel(sha, peer, n, local.items, local.depth, level, nodes, children, ours, answer, found);
    diverging := Some(found);
  }

  /** One turn of the loop, with its cost on record. */
  method NextLevel(
    sha: Hasher, peer: Peers, local: PrefixMerkleTree, level: nat, nodes: seq<int>, ghost asked: seq<nat>)
    returns (diverging: Option<seq<int>>, ghost costs: seq<nat>)
    requires local.Valid() && local.sha == sha && 1 <= level <= local.depth
    requires OnCourse(sha, peer, level - 1, local.items, local.depth, level - 1, nodes)
    requires CheapAgainst(sha, peer, local.items, local.depth, asked)
    ensures diverging.None? <==> peer(level - 1).Unreachable?
    ensures |costs| == |asked| + 1 && CheapAgainst(sha, peer, local.items, local.depth, costs)
    ensures diverging.Some? ==> OnCourse(sha, peer, level, local.items, local.depth, level, diverging.value)
  {
    var count;
    diverging, count := DescendLevel(sha, peer, level - 1, peer(level - 1), local, level, nodes);
    FewCandidates(sha, peer, local.items, local.depth, level - 1, nodes, asked, count);
    costs := asked + [count];
  }

  /** The walk over the levels, down to the leaf buckets to ask for; empty as soon as
      nothing diverges. None is a request that raised. */
  method DivergingLeaves(sha: Hasher, peer: Peers, local: PrefixMerkleTree)
    returns (leaves: Option<seq<int>>, requests: nat, ghost asked: seq<nat>)
    requires local.Valid() && local.sha == sha
    ensures requests <= local.depth && |asked| == requests
    ensures leaves.None? ==> requests > 0 && peer(requests - 1).Unreachable?
    ensures leaves.Some? ==> requests > 0 && forall n | 0 <= n < requests :: !peer(n).Unreachable?
    ensures leaves.Some? ==> OnCourse(sha, peer, requests, local.items, local.depth, local.depth, leaves.value)
    ensures CheapAgainst(sha, peer, local.items, local.depth, asked)
  {
    var diverging := [0];
    requests := 0;
    asked := [];
    StartsOnCourse(sha, peer, local.items, local.depth);
    for level := 1 to local.depth + 1
      invariant requests == |asked| == level - 1
      invariant forall n | 0 <= n < requests :: !peer(n).Unreachable?
      invariant OnCourse(sha, peer, requests, local.items, local.depth, level - 1, diverging)
      invariant CheapAgainst(sha, peer, local.items, local.depth, asked)
    {
      var next;
      next, asked := NextLevel(sha, peer, local, level, diverging, asked);
      requests := requests + 1;
      if next.None? {
        return None, requests, asked;
      }
      diverging := next.value;
      if diverging == [] {
        NothingOnCourse(sha, peer, requests, local.items, local.depth, level);
        return Some([]), requests, asked;
      }
    }
    leaves := Some(diverging);
  }

  /** Node numbers of one level, each once. */
  ghost predicate NodesOf(level: nat, nodes: seq<int>) {
    Distinct(nodes) && forall i | i in nodes :: 0 <= i < Pow2(level)
  }

  /** What the walk keeps from level to level. */
  ghost predicate OnCourse(
    sha: Hasher, peer: Peers, requests: nat, local: seq<Bytes>, depth: nat, level: nat, nodes: seq<int>)
    requires level <= depth <= 32
  {
    && NodesOf(level, nodes)
    && (CanComplete(sha, peer, local, depth) ==> Tracked(peer, requests, local, level, nodes))
    && WithinDiffering(sha, peer, local, depth, level, nodes)
  }

  lemma StartsOnCourse(sha: Hasher, peer: Peers, local: seq<Bytes>, depth: nat)
    requires depth <= 32
    ensures OnCourse(sha, peer, 0, local, depth, 0, [0]) && CheapAgainst(sha, peer, local, depth, [])
  {
  }

  lemma NothingOnCourse(sha: Hasher, peer: Peers, requests: nat, local: seq<Bytes>, depth: nat, level: nat)
    requires level <= depth <= 32 && OnCourse(sha, peer, requests, local, depth, level, [])
    ensures OnCourse(sha, peer, requests, local, depth, depth, [])
  {
    NothingTracked(peer, requests, local, level, depth);
  }

  lemma NothingTracked(peer: Peers, requests: nat, local: seq<Bytes>, level: nat, depth: nat)
    requires level <= depth <= 32
    ensures Tracked(peer, requests, local, level, []) ==> Tracked(peer, requests, local, depth, [])
  {
    assert Tracked(peer, requests, local, level, []) ==>
      forall h :: !HeldThroughout(peer, requests, h) || h in local;
  }

  /** The second stage: ask for the diverging buckets, a chunk at a time, and keep the
      hashes we lack. An empty response skips its chunk. */
  method FetchBuckets(sha: Hasher, peer: Peers, before: nat, local: PrefixMerkleTree, leaves: seq<int>)
    returns (missing: Option<seq<Bytes>>, requests: nat)
    requires local.Valid() && Distinct(leaves)
    requires forall n | peer(n).Serving? :: HashTable(peer(n).items)
    requires forall n | 0 <= n < before :: !peer(n).Unreachable?
    ensures requests >= before
    ensures missing.None? ==> requests > before && peer(requests - 1).Unreachable?
    ensures missing.Some? ==>
      && (forall n | 0 <= n < requests :: !peer(n).Unreachable?)
      && Distinct(missing.value)
      && (forall h | h in missing.value :: Shown(peer, requests, local.items, h))
      && (forall h | HeldThroughout(peer, requests, h) && h !in local.items && BucketIndex(h, local.depth) in leaves ::
            h in missing.value)
  {
    var found: seq<Bytes> := [];
    requests := before;
    var start := 0;
    while start < |leaves|
      invariant 0 <= start <= |leaves| && requests >= before
      invariant forall n | 0 <= n < requests :: !peer(n).Unreachable?
      invariant Distinct(found)
      invariant forall h | h in found ::
        Shown(peer, requests, local.items, h) && BucketIndex(h, local.depth) in leaves[..start]
      invariant forall h | HeldThroughout(peer, requests, h) && h !in local.items
          && BucketIndex(h, local.depth) in leaves[..start] ::
        h in found
    {
      var end := if start + MAX_BUCKETS_PER_REQUEST <= |leaves| then start + MAX_BUCKETS_PER_REQUEST else |leaves|;
      var chunk := leaves[start..end];
      assert leaves[..end] == leaves[..start] + chunk;
      var reply := ServeBucket(sha, peer(requests), local.depth, chunk);
      requests := requests + 1;
      if reply.Failed? {
        return None, requests;
      }
      var extra: seq<Bytes> := [];
      if reply.Answered? {
        extra := CollectBuckets(local, reply.value, peer(requests - 1).items);
        ChunkSeparate(leaves, start, end, found, extra, local.depth);
        DistinctAppend(found, extra);
      }
      OneChunk(peer, requests - 1, local.items, local.depth, leaves[..start], chunk, found, extra);
      found := found + extra;
      start := end;
    }
    assert leaves[..start] == leaves;
    missing := Some(found);
  }

  ghost predicate Shown(peer: Peers, requests: nat, local: seq<Bytes>, h: Bytes) {
    h !in local && exists n :: 0 <= n < requests && Holds(peer(n), h)
  }

  /** Hashes of different chunks fall in different buckets. */
  lemma ChunkSeparate(leaves: seq<int>, start: nat, end: nat, found: seq<Bytes>, extra: seq<Bytes>, depth: nat)
    requires depth <= 32 && Distinct(leaves) && start <= end <= |leaves|
    requires forall h | h in found :: BucketIndex(h, depth) in leaves[..start]
    requires forall h | h in extra :: BucketIndex(h, depth) in leaves[start..end]
    ensures forall h :: h in found ==> h !in extra
  {
    forall b | b in leaves[..start]
      ensures b !in leaves[start..end]
    {
      var i :| 0 <= i < start && leaves[i] == b;
      assert forall j | start <= j < end :: leaves[j] != leaves[i];
    }
  }

  lemma OneChunk(
    peer: Peers, n: nat, local: seq<Bytes>, depth: nat, done: seq<int>, chunk: seq<int>, found: seq<Bytes>,
    extra: seq<Bytes>)
    requires depth <= 32
    requires forall h | h in found :: Shown(peer, n, local, h) && BucketIndex(h, depth) in done
    requires forall h | HeldThroughout(peer, n, h) && h !in local && BucketIndex(h, depth) in done :: h in found
    requires peer(n).Serving? ==>
      forall h :: h in extra <==> Lacks(local, peer(n).items, h) && BucketIndex(h, depth) in chunk
    requires !peer(n).Serving? ==> extra == []
    ensures forall h | h in found + extra :: Shown(peer, n + 1, local, h) && BucketIndex(h, depth) in done + chunk
    ensures forall h | HeldThroughout(peer, n + 1, h) && h !in local
        && BucketIndex(h, depth) in done + chunk :: h in found + extra
  {
    forall h | h in found + extra
      ensures Shown(peer, n + 1, local, h) && BucketIndex(h, depth) in done + chunk
    {
      if h in extra {
        assert Holds(peer(n), h);
      }
    }
    forall h | HeldThroughout(peer, n + 1, h) && h !in local && BucketIndex(h, depth) in done + chunk
      ensures h in found + extra
    {
      assert Holds(peer(n), h) && HeldThroughout(peer, n, h);
    }
  }

  /** Against a peer that does not change, the result is the set difference. */
  lemma SteadyMissing(
    sha: Hasher, peer: Peers, requests: nat, local: seq<Bytes>, depth: nat, missing: Option<seq<Bytes>>)
    requires depth <= 32
    requires missing.None? ==> requests > 0 && peer(requests - 1).Unreachable?
    requires missing.Some? ==> forall h | h in missing.value :: Shown(peer, requests, local, h)
    requires missing.Some? && CanComplete(sha, peer, local, depth) ==>
      forall h | HeldThroughout(peer, requests, h) && h !in local :: h in missing.value
    ensures forall r | Steady(peer, r) ::
      && missing.Some?
      && (forall h | h in missing.value :: Lacks(local, r, h))
      && (CanComplete(sha, peer, local, depth) ==> forall h | Lacks(local, r, h) :: h in missing.value)
  {
    forall r | Steady(peer, r)
      ensures missing.Some?
      ensures forall h | h in missing.value :: Lacks(local, r, h)
      ensures CanComplete(sha, peer, local, depth) ==> forall h | Lacks(local, r, h) :: h in missing.value
    {
      assert requests > 0 ==> peer(requests - 1) == Serving(r);
      forall h | h in missing.value
        ensures Lacks(local, r, h)
      {
        var n :| 0 <= n < requests && Holds(peer(n), h);
        assert peer(n) == Serving(r);
      }
      forall h | Lacks(local, r, h)
        ensures HeldThroughout(peer, requests, h)
      {
        assert forall n | 0 <= n < requests :: peer(n) == Serving(r);
      }
    }
  }

  /** The whole walk. The missing hashes are ones the peer showed us and we lack, each
      once; under the premise of completeness nothing the peer held all along is left
      out, so against a steady peer the result is exactly the set difference. */
  method MissingInEpoch(sha: Hasher, peer: Peers, local: PrefixMerkleTree)
    returns (missing: Option<seq<Bytes>>, ghost requests: nat, ghost asked: seq<nat>)
    requires local.Valid() && local.sha == sha
    requires forall n | peer(n).Serving? :: HashTable(peer(n).items)
    ensures missing.None? ==> requests > 0 && peer(requests - 1).Unreachable?
    ensures missing.Some? ==> forall n | 0 <= n < requests :: !peer(n).Unreachable?
    ensures missing.Some? ==> Distinct(missing.value)
    ensures missing.Some? ==> forall h | h in missing.value ::
      h !in local.items && exists n :: 0 <= n < requests && Holds(peer(n), h)
    ensures missing.Some? && CanComplete(sha, peer, local.items, local.depth) ==>
      forall h | HeldThroughout(peer, requests, h) && h !in local.items :: h in missing.value
    ensures forall r | Steady(peer, r) ::
      && missing.Some?
      && (forall h | h in missing.value :: Lacks(local.items, r, h))
      && (CanComplete(sha, peer, local.items, local.depth) ==>
          forall h | Lacks(local.items, r, h) :: h in missing.value)
    ensures |asked| <= local.depth && CheapAgainst(sha, peer, local.items, local.depth, asked)
  {
    var leaves, levels, nodesAsked := DivergingLeaves(sha, peer, local);
    asked := nodesAsked;
    requests := levels;
    if leaves.None? {
      missing := None;
    } else {
      missing, requests := FetchBuckets(sha, peer, levels, local, leaves.value);
    }
    SteadyMissing(sha, peer, requests, local.items, local.depth, missing);
  }
}
