/** Queue rows and message records: the tables lxmf_hub/store.py shares between the
    hub, the scheduler and federation. */
module Tables {
  import opened ByteStrings
  import opened Merkle

  /** SHA-256 and the two encodings that feed it; nothing is assumed of them. */
  datatype Hashing = Hashing(sha: Hasher, utf8: string -> Bytes, packDouble: real -> Bytes)

  datatype Origin = Local | Federated

  datatype Record = Record(group: string, sender: Bytes, timestamp: real, payload: Bytes, origin: Origin)

  function MessageHash(h: Hashing, r: Record): Digest {
    h.sha(h.sha(h.utf8(r.group)) + r.sender + h.packDouble(r.timestamp) + r.payload)
  }

  type Messages = map<Bytes, Record>

  /** Every record is stored under the hash of its own contents. */
  ghost predicate HashesMatch(h: Hashing, messages: Messages) {
    forall k {:trigger MessageHash(h, messages[k])} | k in messages :: k == MessageHash(h, messages[k])
  }

  /** The four queue tables, one shape. */
  datatype Kind = Egress | Notice | Control | User

  datatype Key = Key(kind: Kind, id: nat)

  datatype About = Reflection(msgHash: Bytes) | GroupText(body: string) | DirectoryText(body: string)

  datatype Row = Row(
    group: string, recipient: Bytes, about: About,
    attempts: nat, graces: nat, nextAttemptAt: real)

  type Queue = map<Key, Row>

  /** `_defer`: a counted deferral is an attempt and forgets the graces, an uncounted
      one is a grace. */
  function Deferred(row: Row, counted: bool, at: real): Row {
    if counted then row.(attempts := row.attempts + 1, graces := 0, nextAttemptAt := at)
    else row.(graces := row.graces + 1, nextAttemptAt := at)
  }

  /** Re-arming a row; one that is gone stays gone. */
  function RowDeferred(q: Queue, k: Key, counted: bool, at: real): Queue {
    if k in q then q[k := Deferred(q[k], counted, at)] else q
  }

  ghost predicate IsReflection(q: Queue, k: Key, recipient: Bytes, msgHash: Bytes) {
    k in q && k.kind.Egress? && q[k].recipient == recipient && q[k].about == Reflection(msgHash)
  }

  // -- what the tables have been through ----------------------------------------

  /** How a row came about. A message pruned and stored again is a new incarnation. */
  datatype Birth = FannedOut(recipient: Bytes, msgHash: Bytes, incarnation: nat) | Written

  /** Why a row left its table. */
  datatype Fate = Delivered | Abandoned(attempts: nat) | Pruned | Obsolete

  datatype History = History(
    born: map<Key, Birth>, fate: map<Key, Fate>, handoffs: map<Key, nat>, pruned: map<Bytes, nat>)

  function Times<T>(m: map<T, nat>, k: T): nat {
    if k in m then m[k] else 0
  }

  /** A row's recorded end. */
  function Ended(h: History, k: Key, reason: Fate): History {
    h.(fate := h.fate[k := reason])
  }

  /** One more message handed to the router for a row. */
  function Counted(h: History, k: Key): History {
    h.(handoffs := h.handoffs[k := Times(h.handoffs, k) + 1])
  }

  // -- what a message hash depends on ---------------------------------------------

  /** The encodings of two records' fields do not confuse them: senders and packed
      timestamps have fixed lengths, and different values different encodings. */
  ghost predicate FieldsReadable(h: Hashing, r: Record, t: Record) {
    && |r.sender| == |t.sender|
    && |h.packDouble(r.timestamp)| == |h.packDouble(t.timestamp)|
    && (h.packDouble(r.timestamp) == h.packDouble(t.timestamp) ==> r.timestamp == t.timestamp)
    && (h.utf8(r.group) == h.utf8(t.group) ==> r.group == t.group)
  }

  /** SHA-256 collides neither on the group ids of two records nor on their concatenated
      fields. */
  ghost predicate NoCollision(h: Hashing, r: Record, t: Record) {
    var x := h.sha(h.utf8(r.group)) + r.sender + h.packDouble(r.timestamp) + r.payload;
    var y := h.sha(h.utf8(t.group)) + t.sender + h.packDouble(t.timestamp) + t.payload;
    && (h.sha(x) == h.sha(y) ==> x == y)
    && (h.sha(h.utf8(r.group)) == h.sha(h.utf8(t.group)) ==> h.utf8(r.group) == h.utf8(t.group))
  }

  lemma SplitEqual(a: Bytes, b: Bytes, a': Bytes, b': Bytes)
    requires |a| == |a'| && a + b == a' + b'
    ensures a == a' && b == b'
  {
    assert a == (a + b)[..|a|] && b == (a + b)[|a|..];
    assert a' == (a' + b')[..|a'|] && b' == (a' + b')[|a'|..];
  }

  /** Equal hashes come from records that agree on group, sender, timestamp and payload. */
  lemma SameHashSameContents(h: Hashing, r: Record, t: Record)
    requires FieldsReadable(h, r, t) && NoCollision(h, r, t) && MessageHash(h, r) == MessageHash(h, t)
    ensures r.group == t.group && r.sender == t.sender && r.timestamp == t.timestamp && r.payload == t.payload
  {
    var g, g' := h.sha(h.utf8(r.group)), h.sha(h.utf8(t.group));
    var d, d' := h.packDouble(r.timestamp), h.packDouble(t.timestamp);
    SplitEqual(g + r.sender + d, r.payload, g' + t.sender + d', t.payload);
    SplitEqual(g + r.sender, d, g' + t.sender, d');
    SplitEqual(g, r.sender, g', t.sender);
  }

  /** A record that differs in any of these from every stored one is not known. */
  ghost predicate UnlikeAnyStored(h: Hashing, messages: Messages, r: Record) {
    forall k | k in messages ::
      && FieldsReadable(h, r, messages[k]) && NoCollision(h, r, messages[k])
      && (messages[k].group != r.group || messages[k].sender != r.sender
          || messages[k].timestamp != r.timestamp || messages[k].payload != r.payload)
  }

  lemma UnlikeAnyStoredIsUnknown(h: Hashing, messages: Messages, r: Record)
    requires HashesMatch(h, messages) && UnlikeAnyStored(h, messages, r)
    ensures MessageHash(h, r) !in messages
  {
    var k := MessageHash(h, r);
    if k in messages {
      assert MessageHash(h, messages[k]) == k;
      SameHashSameContents(h, r, messages[k]);
      assert false;
    }
  }

  // -- what a deferral leaves -----------------------------------------------------

  /** Until the time it was put off to, a row is not due. */
  lemma DeferredIsNotDue(q: Queue, k: Key, counted: bool, at: real, t: real)
    requires k in q && t < at
    ensures k in RowDeferred(q, k, counted, at) && RowDeferred(q, k, counted, at)[k].nextAttemptAt > t
  {
  }
}
