/** The message and queue tables of lxmf_hub/store.py and the fan-out of
    lxmf_hub/hub.py that fills them. */
module Stores {
  import opened Sorting
  import opened Wrappers
  import opened ByteStrings
  import opened Tables

  datatype Role = Member | Admin | Banned

  datatype Acl = Public | Invite

  type Members = map<(string, Bytes), Role>

  /** (peer, group, user) */
  type Adoptions = set<(Bytes, string, Bytes)>

  /** (peer, group, user) */
  type PeerMembers = set<(Bytes, string, Bytes)>

  /** What `store_and_enqueue` came to; an exception rolls the transaction back. */
  datatype Stored = New(queued: nat) | Known | RolledBack

  // -- fan-out as a function ---------------------------------------------------

  /** Who this hub delivers a group's messages to: its own members, and adopted ones
      that are no member here, banned or not. */
  ghost function RecipientSet(members: Members, adoptions: Adoptions, group: string): set<Bytes> {
    (set m | m in members && m.0 == group && members[m] != Banned :: m.1)
    + (set a | a in adoptions && a.1 == group && (group, a.2) !in members :: a.2)
  }

  ghost predicate HasReflection(q: Queue, recipient: Bytes, msgHash: Bytes) {
    exists k :: IsReflection(q, k, recipient, msgHash)
  }

  datatype Filled = Filled(queue: Queue, nextId: nat)

  /** INSERT OR IGNORE of one row per recipient, in order. */
  ghost function FanOut(
    q: Queue, nextId: nat, group: string, msgHash: Bytes, recipients: seq<Bytes>, now: real): Filled {
    if recipients == [] then Filled(q, nextId)
    else
      var last := |recipients| - 1;
      var f := FanOut(q, nextId, group, msgHash, recipients[..last], now);
      if HasReflection(f.queue, recipients[last], msgHash) then f
      else Filled(f.queue[Key(Egress, f.nextId) := Row(group, recipients[last], Reflection(msgHash), 0, 0, now)],
          f.nextId + 1)
  }

  /** A row that `FanOut` adds. */
  ghost predicate AddedRow(row: Row, group: string, msgHash: Bytes, recipients: seq<Bytes>, now: real) {
    row.recipient in recipients && row == Row(group, row.recipient, Reflection(msgHash), 0, 0, now)
  }

  ghost predicate FreshIds(q: Queue, nextId: nat) {
    forall k | k in q :: k.id < nextId
  }

  ghost predicate OneRowEach(q: Queue, msgHash: Bytes) {
    forall k, l, u | IsReflection(q, k, u, msgHash) && IsReflection(q, l, u, msgHash) :: k == l
  }

  /** Old rows are untouched, and the new ones carry fresh ids. */
  ghost predicate AddedTo(
    q: Queue, nextId: nat, f: Filled, group: string, msgHash: Bytes, recipients: seq<Bytes>, now: real) {
    && FreshIds(f.queue, f.nextId) && f.nextId >= nextId
    && (forall k | k in q :: k in f.queue && f.queue[k] == q[k])
    && (forall k | k in f.queue && k !in q ::
          k.kind.Egress? && nextId <= k.id && AddedRow(f.queue[k], group, msgHash, recipients, now))
  }

  lemma {:induction false} FanOutFrame(
    q: Queue, nextId: nat, group: string, msgHash: Bytes, recipients: seq<Bytes>, now: real)
    requires FreshIds(q, nextId)
    ensures AddedTo(q, nextId, FanOut(q, nextId, group, msgHash, recipients, now), group, msgHash, recipients, now)
  {
    if recipients != [] {
      var last := |recipients| - 1;
      FanOutFrame(q, nextId, group, msgHash, recipients[..last], now);
      assert forall u | u in recipients[..last] :: u in recipients;
      assert recipients[last] in recipients;
    }
  }

  ghost predicate OneRowPerRecipient(q: Queue, msgHash: Bytes, recipients: seq<Bytes>) {
    (forall u :: HasReflection(q, u, msgHash) <==> u in recipients) && OneRowEach(q, msgHash)
  }

  lemma OneMoreRow(q: Queue, id: nat, group: string, msgHash: Bytes, done: seq<Bytes>, r: Bytes, now: real)
    requires FreshIds(q, id) && OneRowPerRecipient(q, msgHash, done) && !HasReflection(q, r, msgHash)
    ensures OneRowPerRecipient(q[Key(Egress, id) := Row(group, r, Reflection(msgHash), 0, 0, now)], msgHash, done + [r])
  {
    var k' := Key(Egress, id);
    var q' := q[k' := Row(group, r, Reflection(msgHash), 0, 0, now)];
    assert k' !in q;
    forall k, u
      ensures IsReflection(q', k, u, msgHash) <==> IsReflection(q, k, u, msgHash) || (k == k' && u == r)
      ensures IsReflection(q, k, u, msgHash) ==> u != r
    {
      assert IsReflection(q, k, u, msgHash) ==> HasReflection(q, u, msgHash);
    }
    assert IsReflection(q', k', r, msgHash);
    forall u
      ensures HasReflection(q', u, msgHash) <==> u in done + [r]
    {
      if HasReflection(q, u, msgHash) {
        var k :| IsReflection(q, k, u, msgHash);
        assert IsReflection(q', k, u, msgHash);
      }
    }
  }

  /** Fanning out a message no row refers to yet leaves exactly one row per recipient. */
  lemma {:induction false} FanOutCovers(
    q: Queue, nextId: nat, group: string, msgHash: Bytes, recipients: seq<Bytes>, now: real)
    requires FreshIds(q, nextId)
    requires forall u :: !HasReflection(q, u, msgHash)
    ensures OneRowPerRecipient(FanOut(q, nextId, group, msgHash, recipients, now).queue, msgHash, recipients)
  {
    if recipients == [] {
      assert forall k, u :: IsReflection(q, k, u, msgHash) ==> HasReflection(q, u, msgHash);
    } else {
      var init, r := recipients[..|recipients| - 1], recipients[|recipients| - 1];
      FanOutCovers(q, nextId, group, msgHash, init, now);
      FanOutFrame(q, nextId, group, msgHash, init, now);
      var f := FanOut(q, nextId, group, msgHash, init, now);
      assert init + [r] == recipients;
      if !HasReflection(f.queue, r, msgHash) {
        OneMoreRow(f.queue, f.nextId, group, msgHash, init, r, now);
      }
    }
  }

  // -- pruning as a function -----------------------------------------------------

  function KeptMessages(messages: Messages, olderThan: real): Messages {
    map h | h in messages && messages[h].timestamp >= olderThan :: messages[h]
  }

  predicate Orphan(row: Row, k: Key, messages: Messages) {
    k.kind.Egress? && row.about.Reflection? && row.about.msgHash !in messages
  }

  function KeptRows(q: Queue, messages: Messages): Queue {
    map k | k in q && !Orphan(q[k], k, messages) :: q[k]
  }

  /** The unique index on (recipient, body) of the notice queue. */
  predicate NoticePending(q: Queue, recipient: Bytes, about: About)
    requires !about.Reflection?
  {
    exists k :: k in q.Keys && IsNotice(q, k, recipient, about)
  }

  predicate IsNotice(q: Queue, k: Key, recipient: Bytes, about: About)
    requires !about.Reflection?
  {
    && k in q && k.kind.Notice? && q[k].recipient == recipient
    && !q[k].about.Reflection? && q[k].about.body == about.body
  }

  ghost function AfterPrune(h: History, messages: Messages, messages': Messages, q: Queue, q': Queue): History {
    h.(fate := map k | k in h.fate.Keys + (q.Keys - q'.Keys) :: if k in h.fate then h.fate[k] else Pruned,
       pruned := map m | m in h.pruned.Keys + (messages.Keys - messages'.Keys) ::
         if m in messages && m !in messages' then Times(h.pruned, m) + 1 else h.pruned[m])
  }

  lemma KeptAreFewer(messages: Messages, olderThan: real)
    ensures |KeptMessages(messages, olderThan)| <= |messages|
  {
    SubsetSize(KeptMessages(messages, olderThan).Keys, messages.Keys);
  }

  lemma PruneKeepsTables(hashing: Hashing, messages: Messages, q: Queue, nextId: nat, h: History, olderThan: real)
    requires TablesValid(hashing, messages, q, nextId, h)
    ensures var messages' := KeptMessages(messages, olderThan);
            var q' := KeptRows(q, messages');
            TablesValid(hashing, messages', q', nextId, AfterPrune(h, messages, messages', q, q'))
  {
    PruneAccounted(messages, q, h, olderThan);
    PruneNotYetBorn(messages, q, h, olderThan);
  }

  lemma PruneAccounted(messages: Messages, q: Queue, h: History, olderThan: real)
    requires RowsReferToMessages(q, messages) && BornAccounted(q, h)
    ensures var messages' := KeptMessages(messages, olderThan);
            var q' := KeptRows(q, messages');
            BornAccounted(q', AfterPrune(h, messages, messages', q, q')) && RowsReferToMessages(q', messages')
  {
    var messages' := KeptMessages(messages, olderThan);
    var q' := KeptRows(q, messages');
    var h' := AfterPrune(h, messages, messages', q, q');
    forall m | m in messages'
      ensures Times(h'.pruned, m) == Times(h.pruned, m)
    {
    }
  }

  lemma PruneNotYetBorn(messages: Messages, q: Queue, h: History, olderThan: real)
    requires NotYetBorn(h, messages)
    ensures var messages' := KeptMessages(messages, olderThan);
            NotYetBorn(AfterPrune(h, messages, messages', q, KeptRows(q, messages')), messages')
  {
    var messages' := KeptMessages(messages, olderThan);
    var h' := AfterPrune(h, messages, messages', q, KeptRows(q, messages'));
    forall m
      ensures Times(h'.pruned, m) == Times(h.pruned, m) + if m in messages && m !in messages' then 1 else 0
    {
    }
  }

  predicate IsDue(q: Queue, k: Key, kind: Kind, now: real) {
    k in q && k.kind == kind && q[k].nextAttemptAt <= now
  }

  /** ORDER BY next_attempt_at, id */
  predicate DueBefore(q: Queue, j: Key, k: Key) {
    && j in q && k in q
    && (q[j].nextAttemptAt < q[k].nextAttemptAt || (q[j].nextAttemptAt == q[k].nextAttemptAt && j.id <= k.id))
  }

  // -- one row at a time -----------------------------------------------------------

  lemma DeferKeepsTables(
    hashing: Hashing, messages: Messages, q: Queue, nextId: nat, h: History, k: Key, counted: bool, at: real)
    requires TablesValid(hashing, messages, q, nextId, h)
    ensures TablesValid(hashing, messages, RowDeferred(q, k, counted, at), nextId, h)
  {
  }

  lemma CompleteKeepsTables(
    hashing: Hashing, messages: Messages, q: Queue, nextId: nat, h: History, k: Key, reason: Fate)
    requires TablesValid(hashing, messages, q, nextId, h) && k in q
    ensures TablesValid(hashing, messages, q - {k}, nextId, Ended(h, k, reason))
  {
  }

  lemma CountKeepsTables(hashing: Hashing, messages: Messages, q: Queue, nextId: nat, h: History, k: Key)
    requires TablesValid(hashing, messages, q, nextId, h)
    ensures TablesValid(hashing, messages, q, nextId, Counted(h, k))
  {
  }

  // -- the store -----------------------------------------------------------------

  class Store {
    const hashing: Hashing
    var groups: map<string, Acl>
    var members: Members
    var peerMembers: PeerMembers
    var adoptions: Adoptions
    var peerSuccess: map<Bytes, real>
    var isolated: bool
    var messages: Messages
    var queue: Queue
    var nextId: nat
    ghost var history: History

    ghost predicate Tables()
      reads this
    {
      TablesValid(hashing, messages, queue, nextId, history)
    }

    ghost predicate Valid()
      reads this
    {
      Tables() && NoEcho(queue, messages)
    }

    constructor (hashing: Hashing)
      ensures Valid() && this.hashing == hashing
      ensures messages == map[] && queue == map[] && members == map[] && adoptions == {} && groups == map[]
    {
      this.hashing := hashing;
      groups, members, peerMembers, adoptions := map[], map[], {}, {};
      peerSuccess, isolated := map[], false;
      messages, queue, nextId := map[], map[], 0;
      history := History(map[], map[], map[], map[]);
    }

    /** Persist a message and queue it for its recipients in one transaction. `fault`
        is the insert at which the database raises, if there is one. Leaving the author
        out of the recipients is up to the caller. */
    method StoreAndEnqueue(msgHash: Bytes, record: Record, recipients: seq<Bytes>, now: real, fault: Option<nat>)
      returns (outcome: Stored)
      requires Valid() && msgHash == MessageHash(hashing, record)
      modifies this`messages, this`queue, this`nextId, this`history
      ensures Tables()
      ensures record.sender !in recipients || !outcome.New? ==> Valid()
      ensures outcome.Known? <==> msgHash in old(messages)
      ensures !outcome.New? ==>
        messages == old(messages) && queue == old(queue) && nextId == old(nextId) && history == old(history)
      ensures outcome.New? ==>
        && messages == old(messages)[msgHash := record]
        && Filled(queue, nextId) == FanOut(old(queue), old(nextId), record.group, msgHash, recipients, now)
        && outcome.queued == |queue| - |old(queue)|
        && history == AfterFanOut(old(history), old(queue), queue, msgHash)
      ensures msgHash !in old(messages) && fault.None? ==> outcome.New?
    {
      if msgHash in messages {
        return Known;
      }
      var f, queued, done := InsertRows(msgHash, record.group, recipients, now, fault);
      if !done {
        return RolledBack;
      }
      FanOutKeepsTables(hashing, messages, queue, nextId, history, msgHash, record, recipients, now);
      if record.sender !in recipients {
        NoReflections(queue, messages, msgHash);
        FanOutNoEcho(messages, queue, nextId, msgHash, record, recipients, now);
      }
      history := AfterFanOut(history, queue, f.queue, msgHash);
      messages := messages[msgHash := record];
      queue, nextId := f.queue, f.nextId;
      outcome := New(queued);
    }

    /** Drop aged-out messages and every row whose message is gone, in one transaction. */
    method PruneMessages(olderThan: real) returns (dropped: nat)
      requires Valid()
      modifies this`messages, this`queue, this`history
      ensures Valid()
      ensures messages == KeptMessages(old(messages), olderThan)
      ensures queue == KeptRows(old(queue), messages)
      ensures history == AfterPrune(old(history), old(messages), messages, old(queue), queue)
      ensures dropped == |old(messages)| - |messages|
      ensures forall m :: m in messages <==> m in old(messages) && old(messages)[m].timestamp >= olderThan
      ensures forall k :: k in queue <==>
        k in old(queue) && !(k.kind.Egress? && old(queue)[k].about.Reflection?
            && old(queue)[k].about.msgHash !in messages)
    {
      PruneKeepsTables(hashing, messages, queue, nextId, history, olderThan);
      PruneKeepsNoEcho(messages, queue, olderThan);
      dropped := DeletePruned(olderThan);
    }

    method DeletePruned(olderThan: real) returns (dropped: nat)
      modifies this`messages, this`queue, this`history
      ensures messages == KeptMessages(old(messages), olderThan)
      ensures queue == KeptRows(old(queue), messages)
      ensures history == AfterPrune(old(history), old(messages), messages, old(queue), queue)
      ensures dropped == |old(messages)| - |messages|
    {
      var kept := KeptMessages(messages, olderThan);
      var rows := KeptRows(queue, kept);
      KeptAreFewer(messages, olderThan);
      dropped := |messages| - |kept|;
      history := AfterPrune(history, messages, kept, queue, rows);
      messages, queue := kept, rows;
    }

    /** Re-arm a row; nothing happens to a row that is gone. */
    method Defer(k: Key, counted: bool, at: real)
      modifies this`queue
      ensures queue == RowDeferred(old(queue), k, counted, at)
      ensures k in old(queue) ==>
        && k in queue
        && queue[k].nextAttemptAt == at
        && queue[k].attempts == (if counted then old(queue)[k].attempts + 1 else old(queue)[k].attempts)
        && queue[k].graces == (if counted then 0 else old(queue)[k].graces + 1)
        && queue[k].group == old(queue)[k].group && queue[k].recipient == old(queue)[k].recipient
        && queue[k].about == old(queue)[k].about
      ensures k !in old(queue) ==> queue == old(queue)
      ensures forall j | j != k :: (j in queue <==> j in old(queue)) && (j in queue ==> queue[j] == old(queue)[j])
    {
      if k in queue {
        queue := queue[k := Deferred(queue[k], counted, at)];
      }
    }

    /** Delete a row, for the reason given; nothing happens to a row that is gone. */
    method Complete(k: Key, ghost reason: Fate)
      modifies this`queue, this`history
      ensures queue == old(queue) - {k}
      ensures history == if k in old(queue) then Ended(old(history), k, reason) else old(history)
    {
      if k in queue {
        history := Ended(history, k, reason);
      }
      queue := queue - {k};
    }

    /** The rows of one queue that are due, earliest first, up to a limit. */
    method DueRows(kind: Kind, limit: nat, now: real) returns (batch: seq<Key>)
      ensures Distinct(batch) && |batch| <= limit
      ensures forall k | k in batch :: k in queue && k.kind == kind && queue[k].nextAttemptAt <= now
      ensures forall i, j | 0 <= i < j < |batch| ::
        var a, b := queue[batch[i]].nextAttemptAt, queue[batch[j]].nextAttemptAt;
        a < b || (a == b && batch[i].id <= batch[j].id)
      ensures forall k | k in queue && k.kind == kind && queue[k].nextAttemptAt <= now && k !in batch ::
        |batch| == limit && forall j | j in batch :: DueBefore(queue, j, k)
    {
      batch := [];
      var rest := set k | k in queue.Keys && IsDue(queue, k, kind, now);
      while rest != {} && |batch| < limit
        invariant rest <= queue.Keys
        invariant Distinct(batch) && |batch| <= limit
        invariant forall k :: IsDue(queue, k, kind, now) <==> k in rest || k in batch
        invariant forall k | k in batch :: k !in rest
        invariant forall i, j | 0 <= i < j < |batch| :: DueBefore(queue, batch[i], batch[j])
        invariant forall k, j | k in rest && j in batch :: DueBefore(queue, j, k)
        decreases rest
      {
        var first := Earliest(rest);
        batch := batch + [first];
        rest := rest - {first};
      }
    }

    method Earliest(keys: set<Key>) returns (first: Key)
      requires keys != {} && keys <= queue.Keys
      ensures first in keys && forall k | k in keys :: DueBefore(queue, first, k)
    {
      first := PickOne(keys);
      var rest := keys - {first};
      while rest != {}
        invariant rest <= keys && first in keys
        invariant forall k | k in keys && k !in rest :: DueBefore(queue, first, k)
      {
        var k := PickOne(rest);
        rest := rest - {k};
        if DueBefore(queue, k, first) {
          first := k;
        }
      }
    }

    /** Note that the router was given a message for this row. */
    ghost method CountHandoff(k: Key)
      modifies this`history
      ensures history == Counted(old(history), k)
    {
      history := Counted(history, k);
    }

    /** Queue hub-written text. Only notices are deduplicated, on (recipient, body). */
    method Enqueue(kind: Kind, group: string, recipient: Bytes, about: About, now: real) returns (queued: bool)
      requires Valid() && !kind.Egress? && !about.Reflection?
      modifies this`queue, this`nextId, this`history
      ensures Valid()
      ensures queued <==> !(kind.Notice? && exists k ::
          k in old(queue) && k.kind.Notice? && old(queue)[k].recipient == recipient
          && !old(queue)[k].about.Reflection? && old(queue)[k].about.body == about.body)
      ensures !queued ==> queue == old(queue) && nextId == old(nextId) && history == old(history)
      ensures queued ==>
        && nextId == old(nextId) + 1 && Key(kind, old(nextId)) !in old(queue)
        && queue == old(queue)[Key(kind, old(nextId)) := Row(group, recipient, about, 0, 0, now)]
        && history == old(history).(born := old(history).born[Key(kind, old(nextId)) := Written])
    {
      queued := !(kind.Notice? && NoticePending(queue, recipient, about));
      if queued {
        var k := Key(kind, nextId);
        queue := queue[k := Row(group, recipient, about, 0, 0, now)];
        nextId := nextId + 1;
        history := history.(born := history.born[k := Written]);
      }
    }

    /** The insert loop of the open transaction: nothing is visible until it commits. */
    method InsertRows(msgHash: Bytes, group: string, recipients: seq<Bytes>, now: real, fault: Option<nat>)
      returns (f: Filled, queued: nat, done: bool)
      requires FreshIds(queue, nextId)
      ensures fault.None? ==> done
      ensures done ==> f == FanOut(queue, nextId, group, msgHash, recipients, now)
      ensures done ==> queued == |f.queue| - |queue|
    {
      f := Filled(queue, nextId);
      queued := 0;
      for i := 0 to |recipients|
        invariant f == FanOut(queue, nextId, group, msgHash, recipients[..i], now)
        invariant queued == |f.queue| - |queue|
        invariant FreshIds(f.queue, f.nextId)
      {
        if fault == Some(i) {
          return f, queued, false;
        }
        assert recipients[..i + 1][..i] == recipients[..i];
        var present := RowExists(f.queue, recipients[i], msgHash);
        if !present {
          f := Filled(f.queue[Key(Egress, f.nextId) := Row(group, recipients[i], Reflection(msgHash), 0, 0, now)],
              f.nextId + 1);
          queued := queued + 1;
        }
      }
      assert recipients[..|recipients|] == recipients;
      done := true;
    }
  }

  /** The unique index on (recipient, message). */
  predicate RowExists(q: Queue, recipient: Bytes, msgHash: Bytes)
    ensures RowExists(q, recipient, msgHash) <==> HasReflection(q, recipient, msgHash)
  {
    var found := exists k ::
      k in q.Keys && k.kind.Egress? && q[k].recipient == recipient && q[k].about == Reflection(msgHash);
    assert found <==> HasReflection(q, recipient, msgHash) by {
      if found {
        var k :| k in q.Keys && k.kind.Egress? && q[k].recipient == recipient && q[k].about == Reflection(msgHash);
        assert IsReflection(q, k, recipient, msgHash);
      }
    }
    found
  }

  ghost predicate RowsReferToMessages(q: Queue, messages: Messages) {
    forall k | k in q && k.kind.Egress? :: q[k].about.Reflection? && q[k].about.msgHash in messages
  }

  /** Every row ever created is queued or has met a recorded fate, never both. */
  ghost predicate BornAccounted(q: Queue, h: History) {
    && (forall k :: k in h.born <==> k in q || k in h.fate)
    && (forall k :: !(k in q && k in h.fate))
    && (forall k | k in q && k.kind.Egress? && q[k].about.Reflection? ::
          h.born[k] == FannedOut(q[k].recipient, q[k].about.msgHash, Times(h.pruned, q[k].about.msgHash)))
  }

  /** At most one row for each recipient and incarnation of a message. */
  ghost predicate BornOnce(h: History) {
    forall k, l | k in h.born && l in h.born && h.born[k].FannedOut? && h.born[k] == h.born[l] :: k == l
  }

  /** Rows were only ever made while their message was stored. */
  ghost predicate NotYetBorn(h: History, messages: Messages) {
    forall k | k in h.born && h.born[k].FannedOut? ::
      && h.born[k].incarnation <= Times(h.pruned, h.born[k].msgHash)
      && (h.born[k].incarnation == Times(h.pruned, h.born[k].msgHash) ==> h.born[k].msgHash in messages)
  }

  /** The tables as a whole: rows refer to stored messages, a (recipient, message)
      pair has had at most one row in all the time the message has been stored, and no
      row was ever lost. */
  ghost predicate TablesValid(hashing: Hashing, messages: Messages, q: Queue, nextId: nat, h: History) {
    && HashesMatch(hashing, messages)
    && FreshIds(q, nextId)
    && (forall k | k in h.born :: k.id < nextId)
    && RowsReferToMessages(q, messages)
    && BornAccounted(q, h)
    && BornOnce(h)
    && NotYetBorn(h, messages)
  }

  /** No queued reflection is addressed to the author of its message. */
  ghost predicate NoEcho(q: Queue, messages: Messages) {
    forall k | k in q && k.kind.Egress? && q[k].about.Reflection? && q[k].about.msgHash in messages ::
      q[k].recipient != messages[q[k].about.msgHash].sender
  }

  lemma PruneKeepsNoEcho(messages: Messages, q: Queue, olderThan: real)
    requires NoEcho(q, messages)
    ensures var kept := KeptMessages(messages, olderThan);
            NoEcho(KeptRows(q, kept), kept)
  {
  }

  lemma FanOutNoEcho(
    messages: Messages, q: Queue, nextId: nat, msgHash: Bytes, record: Record, recipients: seq<Bytes>, now: real)
    requires NoEcho(q, messages) && FreshIds(q, nextId) && msgHash !in messages && record.sender !in recipients
    requires forall u :: !HasReflection(q, u, msgHash)
    ensures NoEcho(FanOut(q, nextId, record.group, msgHash, recipients, now).queue, messages[msgHash := record])
  {
    var q' := FanOut(q, nextId, record.group, msgHash, recipients, now).queue;
    FanOutFrame(q, nextId, record.group, msgHash, recipients, now);
    forall k | k in q' && k.kind.Egress? && q'[k].about.Reflection?
        && q'[k].about.msgHash in messages[msgHash := record]
      ensures q'[k].recipient != messages[msgHash := record][q'[k].about.msgHash].sender
    {
      if k in q {
        assert q[k].about == Reflection(msgHash) ==> IsReflection(q, k, q[k].recipient, msgHash);
        assert q[k].about == Reflection(msgHash) ==> HasReflection(q, q[k].recipient, msgHash);
      } else {
        assert AddedRow(q'[k], record.group, msgHash, recipients, now);
      }
    }
  }

  lemma NoReflections(q: Queue, messages: Messages, msgHash: Bytes)
    requires RowsReferToMessages(q, messages) && msgHash !in messages
    ensures forall u :: !HasReflection(q, u, msgHash)
  {
  }

  ghost function AfterFanOut(h: History, q: Queue, q': Queue, msgHash: Bytes): History {
    h.(born := map k | k in h.born.Keys + q'.Keys ::
      if k in h.born then h.born[k] else FannedOut(q'[k].recipient, msgHash, Times(h.pruned, msgHash)))
  }

  lemma FanOutKeepsTables(
    hashing: Hashing, messages: Messages, q: Queue, nextId: nat, h: History,
    msgHash: Bytes, record: Record, recipients: seq<Bytes>, now: real)
    requires TablesValid(hashing, messages, q, nextId, h)
    requires msgHash !in messages && msgHash == MessageHash(hashing, record)
    ensures var f := FanOut(q, nextId, record.group, msgHash, recipients, now);
      TablesValid(hashing, messages[msgHash := record], f.queue, f.nextId, AfterFanOut(h, q, f.queue, msgHash))
  {
    var f := FanOut(q, nextId, record.group, msgHash, recipients, now);
    NoReflections(q, messages, msgHash);
    FanOutFrame(q, nextId, record.group, msgHash, recipients, now);
    FanOutCovers(q, nextId, record.group, msgHash, recipients, now);
    FanOutNew(q, nextId, f, h, record.group, msgHash, recipients, now);
    FanOutAccounted(h, q, f.queue, msgHash);
    FanOutBornOnce(h, q, f.queue, messages, msgHash);
    FanOutRefers(h, q, f.queue, messages, msgHash, record);
  }

  lemma FanOutNew(
    q: Queue, nextId: nat, f: Filled, h: History, group: string, msgHash: Bytes, recipients: seq<Bytes>, now: real)
    requires forall k | k in h.born :: k.id < nextId
    requires AddedTo(q, nextId, f, group, msgHash, recipients, now)
    ensures NewReflections(q, f.queue, h, msgHash)
    ensures BornAccounted(q, h) ==> forall k | k in AfterFanOut(h, q, f.queue, msgHash).born :: k.id < f.nextId
  {
    forall k | k in f.queue && k !in q
      ensures IsReflection(f.queue, k, f.queue[k].recipient, msgHash) && k !in h.born
    {
      assert AddedRow(f.queue[k], group, msgHash, recipients, now);
    }
  }

  lemma FanOutRefers(h: History, q: Queue, q': Queue, messages: Messages, msgHash: Bytes, record: Record)
    requires RowsReferToMessages(q, messages) && NotYetBorn(h, messages) && NewReflections(q, q', h, msgHash)
    ensures RowsReferToMessages(q', messages[msgHash := record])
    ensures NotYetBorn(AfterFanOut(h, q, q', msgHash), messages[msgHash := record])
  {
    var h' := AfterFanOut(h, q, q', msgHash);
    forall k | k in q' && k.kind.Egress?
      ensures q'[k].about.Reflection? && q'[k].about.msgHash in messages[msgHash := record]
    {
      assert k !in q ==> IsReflection(q', k, q'[k].recipient, msgHash);
    }
  }

  /** The rows a fan-out adds reflect its message under ids no row ever had. */
  ghost predicate NewReflections(q: Queue, q': Queue, h: History, msgHash: Bytes) {
    && (forall k | k in q :: k in q' && q'[k] == q[k])
    && (forall k | k in q' && k !in q :: IsReflection(q', k, q'[k].recipient, msgHash) && k !in h.born)
  }

  lemma FanOutAccounted(h: History, q: Queue, q': Queue, msgHash: Bytes)
    requires BornAccounted(q, h) && NewReflections(q, q', h, msgHash)
    ensures BornAccounted(q', AfterFanOut(h, q, q', msgHash))
  {
  }

  lemma FanOutBornOnce(h: History, q: Queue, q': Queue, messages: Messages, msgHash: Bytes)
    requires BornAccounted(q, h) && BornOnce(h) && NotYetBorn(h, messages) && msgHash !in messages
    requires NewReflections(q, q', h, msgHash) && OneRowEach(q', msgHash)
    ensures BornOnce(AfterFanOut(h, q, q', msgHash))
  {
    var h' := AfterFanOut(h, q, q', msgHash);
    forall k, l | k in h'.born && l in h'.born && h'.born[k].FannedOut? && h'.born[k] == h'.born[l]
      ensures k == l
    {
      if k !in h.born && l !in h.born {
        assert IsReflection(q', k, q'[k].recipient, msgHash) && IsReflection(q', l, q'[k].recipient, msgHash);
      }
    }
  }
}
