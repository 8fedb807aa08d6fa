/** The hub of lxmf_hub/hub.py: who gets a message, and the two ways one comes in. */
module Hub {
  import opened Sorting
  import opened Wrappers
  import opened ByteStrings
  import opened Tables
  import opened Stores

  /** A message record as it crosses from a peer; its hash is not sent. */
  datatype Wire = Wire(group: string, sender: Bytes, timestamp: real, payload: Bytes)

  function FromWire(w: Wire): Record {
    Record(w.group, w.sender, w.timestamp, w.payload, Federated)
  }

  /** The messages after ingesting these records: unknown groups are skipped and known
      hashes ignored, and every hash is computed here. */
  function Ingested(h: Hashing, groups: set<string>, messages: Messages, records: seq<Wire>): Messages {
    if records == [] then messages
    else
      var before := Ingested(h, groups, messages, records[..|records| - 1]);
      var r := FromWire(records[|records| - 1]);
      if r.group !in groups || MessageHash(h, r) in before then before
      else before[MessageHash(h, r) := r]
  }

  predicate IsPeerMember(theirs: PeerMembers, group: string, sender: Bytes) {
    exists p :: p in theirs && p.1 == group && p.2 == sender
  }

  /** A role here decides, a ban before all; then membership on a peer; then the ACL. */
  predicate MayPost(members: Members, theirs: PeerMembers, acl: Acl, group: string, sender: Bytes) {
    if (group, sender) in members then members[(group, sender)] != Banned
    else IsPeerMember(theirs, group, sender) || acl == Public
  }

  /** Only an unknown sender of a public group becomes a member by posting. */
  function EnrolledBy(members: Members, theirs: PeerMembers, acl: Acl, group: string, sender: Bytes): Members {
    if (group, sender) !in members && !IsPeerMember(theirs, group, sender) && acl == Public
    then members[(group, sender) := Member]
    else members
  }

  ghost predicate PostAccepted(
    groups: map<string, Acl>, members: Members, theirs: PeerMembers, messages: Messages, hashing: Hashing,
    group: string, sender: Bytes, timestamp: real, payload: Bytes)
  {
    && group in groups && MayPost(members, theirs, groups[group], group, sender)
    && MessageHash(hashing, Record(group, sender, timestamp, payload, Local)) !in messages
  }

  /** Every message stored in between has exactly one row for each of its recipients but
      the author; no other row was added, and none was changed. */
  ghost predicate Relayed(
    messages: Messages, messages': Messages, q: Queue, q': Queue, members: Members, adoptions: Adoptions)
  {
    && (forall m | m in messages :: m in messages' && messages'[m] == messages[m])
    && (forall k | k in q :: k in q' && q'[k] == q[k])
    && (forall m | m in messages' && m !in messages :: Delivers(q', m, messages'[m], members, adoptions))
    && (forall k | k in q' && k !in q :: AddedFor(q'[k], messages, messages', members))
  }

  /** A row about a message stored in between, for neither its author nor anybody banned
      from its group, adopted or not. */
  ghost predicate AddedFor(row: Row, messages: Messages, messages': Messages, members: Members) {
    && row.about.Reflection? && row.about.msgHash in messages' && row.about.msgHash !in messages
    && var record := messages'[row.about.msgHash];
       && row.recipient != record.sender
       && ((record.group, row.recipient) in members ==> members[(record.group, row.recipient)] != Banned)
  }

  /** Somebody is served a group's messages: with a role here that is not a ban, or with no
      role here but adopted from a peer. */
  ghost predicate Entitled(members: Members, adoptions: Adoptions, group: string, u: Bytes) {
    if (group, u) in members then members[(group, u)] != Banned
    else exists a :: a in adoptions && a.1 == group && a.2 == u
  }

  /** Exactly one row for everyone served but the author, and none for anybody else. */
  ghost predicate Delivers(q: Queue, m: Bytes, record: Record, members: Members, adoptions: Adoptions) {
    && OneRowEach(q, m)
    && forall u :: HasReflection(q, u, m) <==> Entitled(members, adoptions, record.group, u) && u != record.sender
  }

  lemma ServedAreRecipients(members: Members, adoptions: Adoptions, group: string, u: Bytes)
    ensures u in RecipientSet(members, adoptions, group) <==> Entitled(members, adoptions, group, u)
  {
    if Entitled(members, adoptions, group, u) && (group, u) !in members {
      var a :| a in adoptions && a.1 == group && a.2 == u;
      assert (group, a.2) !in members;
    }
  }

  /** Who is sent a message, told in roles and adoptions. After anything that relays, a hash
      banned from a message's group has no row added for it, even if adopted; a member with
      another role, and an adopted client without a role here, has exactly one for each
      message stored, unless it is the author; and nobody else has any. */
  lemma BannedAreNeverServed(
    messages: Messages, messages': Messages, q: Queue, q': Queue, members: Members, adoptions: Adoptions,
    m: Bytes, u: Bytes)
    requires Relayed(messages, messages', q, q', members, adoptions) && m in messages' && m !in messages
    ensures
      var record := messages'[m];
      var adopted := exists a :: a in adoptions && a.1 == record.group && a.2 == u;
      var has := exists k :: k in q' && k.kind.Egress? && q'[k].recipient == u && q'[k].about == Reflection(m);
      && ((record.group, u) in members && members[(record.group, u)] == Banned ==> !has)
      && ((record.group, u) in members && members[(record.group, u)] != Banned ==> (has <==> u != record.sender))
      && ((record.group, u) !in members ==> (has <==> adopted && u != record.sender))
      && (forall k, l | k in q' && l in q' && k.kind.Egress? && l.kind.Egress?
          && q'[k].recipient == q'[l].recipient == u
            && q'[k].about == q'[l].about == Reflection(m) :: k == l)
    ensures forall k | k in q' && k !in q && q'[k].about == Reflection(m) && q'[k].recipient == u ::
      u != messages'[m].sender
      && ((messages'[m].group, u) in members ==> members[(messages'[m].group, u)] != Banned)
  {
    var record := messages'[m];
    assert Delivers(q', m, record, members, adoptions);
    assert (exists k :: k in q' && k.kind.Egress? && q'[k].recipient == u && q'[k].about == Reflection(m))
      <==> HasReflection(q', u, m) by {
      if k :| k in q' && k.kind.Egress? && q'[k].recipient == u && q'[k].about == Reflection(m) {
        assert IsReflection(q', k, u, m);
      }
    }
    forall k, l | k in q' && l in q' && k.kind.Egress? && l.kind.Egress? && q'[k].recipient == q'[l].recipient == u
      && q'[k].about == q'[l].about == Reflection(m)
      ensures k == l
    {
      assert IsReflection(q', k, u, m) && IsReflection(q', l, u, m);
    }
  }

  /** Some record of a hosted group hashes to k. */
  ghost predicate Arrives(h: Hashing, groups: set<string>, records: seq<Wire>, k: Bytes) {
    exists w :: w in records && w.group in groups && k == MessageHash(h, FromWire(w))
  }

  lemma ArrivesWithLast(h: Hashing, groups: set<string>, init: seq<Wire>, last: Wire, k: Bytes)
    ensures Arrives(h, groups, init + [last], k) <==>
      Arrives(h, groups, init, k) || (last.group in groups && k == MessageHash(h, FromWire(last)))
  {
    if w :| w in init && w.group in groups && k == MessageHash(h, FromWire(w)) {
      assert w in init + [last];
    }
    assert last in init + [last];
  }

  /** What ingesting leaves, told in records: exactly those of hosted groups are added,
      under the hashes computed here, and none is changed. */
  lemma {:induction false} IngestedAreHosted(h: Hashing, groups: set<string>, messages: Messages, records: seq<Wire>)
    ensures forall k :: k in Ingested(h, groups, messages, records) <==> k in messages || Arrives(h, groups, records, k)
    ensures forall k | k in messages :: Ingested(h, groups, messages, records)[k] == messages[k]
    ensures forall k | k in Ingested(h, groups, messages, records) && k !in messages ::
      var r := Ingested(h, groups, messages, records)[k];
      r.group in groups && r.origin.Federated?
  {
    if records != [] {
      var init, last := records[..|records| - 1], records[|records| - 1];
      IngestedAreHosted(h, groups, messages, init);
      assert records == init + [last];
      forall k
        ensures Arrives(h, groups, records, k) <==>
          Arrives(h, groups, init, k) || (last.group in groups && k == MessageHash(h, FromWire(last)))
      {
        ArrivesWithLast(h, groups, init, last, k);
      }
    }
  }

  /** Storing a new message and fanning it out. */
  lemma FanOutRelays(
    messages: Messages, q: Queue, nextId: nat, msgHash: Bytes, record: Record, others: seq<Bytes>, now: real,
    members: Members, adoptions: Adoptions)
    requires FreshIds(q, nextId) && RowsReferToMessages(q, messages) && msgHash !in messages
    requires forall u :: u in others <==> u in RecipientSet(members, adoptions, record.group) && u != record.sender
    ensures var q' := FanOut(q, nextId, record.group, msgHash, others, now).queue;
            Relayed(messages, messages[msgHash := record], q, q', members, adoptions)
  {
    forall u
      ensures u in others <==> Entitled(members, adoptions, record.group, u) && u != record.sender
    {
      ServedAreRecipients(members, adoptions, record.group, u);
    }
    NoReflectionsIfNew(q, messages, msgHash);
    FanOutFrame(q, nextId, record.group, msgHash, others, now);
    FanOutCovers(q, nextId, record.group, msgHash, others, now);
    var q' := FanOut(q, nextId, record.group, msgHash, others, now).queue;
    assert Delivers(q', msgHash, record, members, adoptions);
    forall k | k in q' && k !in q
      ensures AddedFor(q'[k], messages, messages[msgHash := record], members)
    {
      assert AddedRow(q'[k], record.group, msgHash, others, now);
    }
  }

  lemma RelayedTwice(
    m0: Messages, m1: Messages, m2: Messages, q0: Queue, q1: Queue, q2: Queue, members: Members, adoptions: Adoptions)
    requires Relayed(m0, m1, q0, q1, members, adoptions) && Relayed(m1, m2, q1, q2, members, adoptions)
    ensures Relayed(m0, m2, q0, q2, members, adoptions)
  {
    forall m | m in m1 && m !in m0
      ensures Delivers(q2, m, m2[m], members, adoptions)
    {
      SameRowsFor(q1, q2, m);
    }
  }

  /** Rows about other messages do not matter. */
  lemma SameRowsFor(q: Queue, q': Queue, m: Bytes)
    requires forall k | k in q :: k in q' && q'[k] == q[k]
    requires forall k | k in q' && k !in q :: q'[k].about != Reflection(m)
    ensures forall u :: HasReflection(q', u, m) <==> HasReflection(q, u, m)
    ensures OneRowEach(q, m) ==> OneRowEach(q', m)
  {
    assert forall k, u :: IsReflection(q', k, u, m) <==> IsReflection(q, k, u, m);
    forall u
      ensures HasReflection(q', u, m) <==> HasReflection(q, u, m)
    {
      if HasReflection(q, u, m) {
        var k :| IsReflection(q, k, u, m);
        assert IsReflection(q', k, u, m);
      }
    }
  }

  class GroupHub {
    const store: Store
    const epochSeconds: int
    const retentionEpochs: int

    constructor (store: Store, epochSeconds: int, retentionEpochs: int)
      ensures this.store == store && this.epochSeconds == epochSeconds && this.retentionEpochs == retentionEpochs
    {
      this.store, this.epochSeconds, this.retentionEpochs := store, epochSeconds, retentionEpochs;
    }

    /** Local members and adopted ones; a ban here wins over an adoption. */
    method Recipients(group: string) returns (r: seq<Bytes>)
      ensures Distinct(r)
      ensures forall u :: u in r <==> u in RecipientSet(store.members, store.adoptions, group)
      ensures forall u :: u in r <==>
        if (group, u) in store.members then store.members[(group, u)] != Banned
        else exists a :: a in store.adoptions && a.1 == group && a.2 == u
    {
      var local := set m | m in store.members && m.0 == group && store.members[m] != Banned :: m.1;
      var adopted := set a | a in store.adoptions && a.1 == group && (group, a.2) !in store.members :: a.2;
      assert local + adopted == RecipientSet(store.members, store.adoptions, group);
      r := [];
      var rest := local + adopted;
      while rest != {}
        invariant rest <= local + adopted
        invariant Distinct(r)
        invariant forall u :: u in r <==> u in local + adopted - rest
      {
        var u := PickOne(rest);
        DistinctAppend(r, [u]);
        r := r + [u];
        rest := rest - {u};
      }
    }

    method RecipientsBut(group: string, sender: Bytes) returns (r: seq<Bytes>)
      ensures forall u :: u in r <==> u in RecipientSet(store.members, store.adoptions, group) && u != sender
    {
      var everyone := Recipients(group);
      WithoutMembers(everyone, [sender]);
      r := Without(everyone, [sender]);
    }

    /** Persist a message and queue it for everyone but its author, atomically. A new
        message gets exactly one row per recipient; a known one gets none. */
    method StoreAndFanOut(msgHash: Bytes, record: Record, now: real, fault: Option<nat>) returns (outcome: Stored)
      requires store.Valid() && msgHash == MessageHash(store.hashing, record)
      modifies store`messages, store`queue, store`nextId, store`history
      ensures store.Valid()
      ensures outcome.Known? <==> msgHash in old(store.messages)
      ensures !outcome.New? ==>
        store.messages == old(store.messages) && store.queue == old(store.queue) && store.history == old(store.history)
      ensures outcome.New? ==> store.messages == old(store.messages)[msgHash := record]
      ensures Relayed(old(store.messages), store.messages, old(store.queue), store.queue, store.members,
          store.adoptions)
      ensures msgHash !in old(store.messages) && fault.None? ==> outcome.New?
    {
      var others := RecipientsBut(record.group, record.sender);
      ghost var messages, q, id := store.messages, store.queue, store.nextId;
      outcome := store.StoreAndEnqueue(msgHash, record, others, now, fault);
      if outcome.New? {
        FanOutRelays(messages, q, id, msgHash, record, others, now, store.members, store.adoptions);
      }
    }

    /** Whether a sender may post. Only an unknown sender of a public group is enrolled. */
    method Authorise(group: string, sender: Bytes) returns (ok: bool)
      requires group in store.groups
      modifies store`members
      ensures ok <==> MayPost(old(store.members), store.peerMembers, store.groups[group], group, sender)
      ensures ok <==>
        if (group, sender) in old(store.members) then old(store.members)[(group, sender)] != Banned
        else store.groups[group] == Public || exists p :: p in store.peerMembers && p.1 == group && p.2 == sender
      ensures store.members == EnrolledBy(old(store.members), store.peerMembers, store.groups[group], group, sender)
      ensures store.members == old(store.members) || store.members == old(store.members)[(group, sender) := Member]
      ensures store.members != old(store.members) <==>
        (group, sender) !in old(store.members) && store.groups[group] == Public
        && !exists p :: p in store.peerMembers && p.1 == group && p.2 == sender
    {
      if (group, sender) in store.members {
        return store.members[(group, sender)] != Banned;
      }
      if IsPeerMember(store.peerMembers, group, sender) {
        return true;
      }
      if store.groups[group] == Public {
        store.members := store.members[(group, sender) := Member];
        return true;
      }
      ok := false;
    }

    /** A verified post that is not a command. It is stored exactly when its group is
        hosted, the sender may post and the message is not known; then every recipient
        but the sender has one row for it. Otherwise the message and queue tables stay as
        they were. */
    method Post(group: string, sender: Bytes, timestamp: real, payload: Bytes, now: real, fault: Option<nat>)
      returns (stored: bool)
      requires store.Valid()
      modifies store
      ensures store.Valid() && store.groups == old(store.groups) && store.peerMembers == old(store.peerMembers)
      ensures stored ==> PostAccepted(
        old(store.groups), old(store.members), old(store.peerMembers), old(store.messages), store.hashing, group,
            sender, timestamp, payload)
      ensures fault.None? && PostAccepted(
        old(store.groups), old(store.members), old(store.peerMembers), old(store.messages), store.hashing, group,
            sender, timestamp, payload)
        ==> stored
      ensures fault.None? && group in old(store.groups)
        && MayPost(old(store.members), old(store.peerMembers), old(store.groups)[group], group, sender)
        && UnlikeAnyStored(store.hashing, old(store.messages), Record(group, sender, timestamp, payload, Local))
        ==> stored
      ensures store.members == if group in old(store.groups)
        then EnrolledBy(old(store.members), old(store.peerMembers), old(store.groups)[group], group, sender)
            else old(store.members)
      ensures !stored ==> store.messages == old(store.messages) && store.queue == old(store.queue)
      ensures stored ==>
        var record := Record(group, sender, timestamp, payload, Local);
        var msgHash := MessageHash(store.hashing, record);
        && store.messages == old(store.messages)[msgHash := record]
        && Relayed(old(store.messages), store.messages, old(store.queue), store.queue, store.members,
            old(store.adoptions))
    {
      if group !in store.groups {
        return false;
      }
      var allowed := Authorise(group, sender);
      if !allowed {
        return false;
      }
      var record := Record(group, sender, timestamp, payload, Local);
      if UnlikeAnyStored(store.hashing, store.messages, record) {
        UnlikeAnyStoredIsUnknown(store.hashing, store.messages, record);
      }
      var outcome := StoreAndFanOut(MessageHash(store.hashing, record), record, now, fault);
      stored := outcome.New?;
    }

    method IngestOne(w: Wire, now: real, fault: Option<nat>) returns (outcome: Stored)
      requires store.Valid() && w.group in store.groups
      modifies store`messages, store`queue, store`nextId, store`history
      ensures store.Valid()
      ensures outcome.RolledBack? ==> fault.Some? && store.messages == old(store.messages)
      ensures !outcome.RolledBack? ==>
        store.messages == Ingested(store.hashing, store.groups.Keys, old(store.messages), [w])
      ensures |store.messages| == |old(store.messages)| + if outcome.New? then 1 else 0
      ensures Relayed(old(store.messages), store.messages, old(store.queue), store.queue, store.members,
          store.adoptions)
    {
      var record := FromWire(w);
      assert [w][..0] == [];
      outcome := StoreAndFanOut(MessageHash(store.hashing, record), record, now, fault);
    }

    /** Ingest what a peer sent, in order. `fault` is the record whose fan-out raises, if
        any: that record is rolled back and the rest abandoned. Each message stored has
        exactly one row for everyone entitled to it here but its author. */
    method IngestFederated(records: seq<Wire>, now: real, fault: Option<nat>) returns (count: nat, raised: bool)
      requires store.Valid()
      modifies store`messages, store`queue, store`nextId, store`history
      ensures store.Valid()
      ensures raised ==> fault.Some? && fault.value < |records|
      ensures store.messages == Ingested(store.hashing, store.groups.Keys, old(store.messages),
                                         if raised then records[..fault.value] else records)
      ensures count == |store.messages| - |old(store.messages)|
      ensures Relayed(old(store.messages), store.messages, old(store.queue), store.queue, store.members,
          store.adoptions)
    {
      count := 0;
      ghost var before, q := store.messages, store.queue;
      for i := 0 to |records|
        invariant store.Valid()
        invariant store.messages == Ingested(store.hashing, store.groups.Keys, before, records[..i])
        invariant count == |store.messages| - |before|
        invariant Relayed(before, store.messages, q, store.queue, store.members, store.adoptions)
      {
        IngestStep(store.hashing, store.groups.Keys, before, records, i);
        if records[i].group in store.groups {
          ghost var mid, q' := store.messages, store.queue;
          var outcome := IngestOne(records[i], now, if fault == Some(i) then Some(0) else None);
          RelayedTwice(before, mid, store.messages, q, q', store.queue, store.members, store.adoptions);
          if outcome.RolledBack? {
            return count, true;
          }
          if outcome.New? {
            count := count + 1;
          }
        }
      }
      assert records[..|records|] == records;
      raised := false;
    }

    /** Retention: everything older than the window goes. */
    method Prune(now: real) returns (dropped: nat)
      requires store.Valid()
      modifies store`messages, store`queue, store`history
      ensures store.Valid()
      ensures store.messages == if retentionEpochs * epochSeconds <= 0 then old(store.messages)
        else KeptMessages(old(store.messages), now - (retentionEpochs * epochSeconds) as real)
      ensures store.queue == if retentionEpochs * epochSeconds <= 0 then old(store.queue)
        else KeptRows(old(store.queue), store.messages)
      ensures dropped == |old(store.messages)| - |store.messages|
    {
      var retention := retentionEpochs * epochSeconds;
      if retention <= 0 {
        return 0;
      }
      dropped := store.PruneMessages(now - retention as real);
    }
  }

  lemma NoReflectionsIfNew(q: Queue, messages: Messages, msgHash: Bytes)
    requires RowsReferToMessages(q, messages)
    ensures msgHash !in messages ==> forall u :: !HasReflection(q, u, msgHash)
  {
  }

  lemma IngestStep(h: Hashing, groups: set<string>, messages: Messages, records: seq<Wire>, i: nat)
    requires i < |records|
    ensures Ingested(h, groups, messages, records[..i + 1])
            == Ingested(h, groups, Ingested(h, groups, messages, records[..i]), [records[i]])
    ensures records[i].group !in groups ==>
      Ingested(h, groups, messages, records[..i + 1]) == Ingested(h, groups, messages, records[..i])
  {
    assert records[..i + 1][..i] == records[..i];
    assert [records[i]][..0] == [];
  }
}
