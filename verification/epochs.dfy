/** The time buckets of lxmf_hub/store.py and lxmf_hub/federation.py, and how the
    retention of lxmf_hub/hub.py lines up with them. */
module Epochs {
  import opened ByteStrings
  import opened Tables
  import opened Stores

  /** Both Python's int() and SQLite's CAST AS INTEGER drop the fraction. */
  function Trunc(x: real): int {
    if x >= 0.0 then x.Floor else -((-x).Floor)
  }

  function EpochOf(timestamp: real, length: int): int
    requires length > 0
  {
    Trunc(timestamp / length as real)
  }

  /** The half-open interval `epoch_hashes` selects. */
  predicate Covers(epoch: int, length: int, timestamp: real) {
    (epoch * length) as real <= timestamp < (epoch * length + length) as real
  }

  predicate InEpoch(r: Record, group: string, epoch: int, length: int) {
    r.group == group && Covers(epoch, length, r.timestamp)
  }

  function EpochSet(messages: Messages, group: string, epoch: int, length: int): set<Bytes> {
    set h | h in messages && InEpoch(messages[h], group, epoch, length)
  }

  predicate InWindow(r: Record, group: string, since: real) {
    r.group == group && r.timestamp >= since
  }

  /** The distinct epochs of a group's messages since a cutoff. */
  function Populated(messages: Messages, group: string, length: int, since: real): set<int>
    requires length > 0
  {
    set h | h in messages && InWindow(messages[h], group, since) :: EpochOf(messages[h].timestamp, length)
  }

  function OldestEpoch(now: real, length: int, retention: int): int
    requires length > 0
  {
    Trunc(now / length as real) - retention
  }

  // -- where a timestamp falls -------------------------------------------------

  lemma RealProduct(x: real, y: real, z: real)
    requires z > 0.0
    ensures x <= y ==> x * z <= y * z
    ensures x < y ==> x * z < y * z
  {
    Distributes(x, y, z);
    if x <= y {
      Positive(y - x, z);
    }
  }

  lemma Distributes(x: real, y: real, z: real)
    ensures y * z == x * z + (y - x) * z
  {
  }

  lemma Positive(x: real, z: real)
    requires x >= 0.0 && z > 0.0
    ensures x * z >= 0.0 && (x > 0.0 ==> x * z > 0.0)
  {
  }

  /** A product bound is a bound on the quotient. */
  lemma BoundIff(bound: real, timestamp: real, l: real)
    requires l > 0.0
    ensures bound * l <= timestamp <==> bound <= timestamp / l
  {
    var q := timestamp / l;
    Quotient(timestamp, l);
    RealProduct(bound, q, l);
    RealProduct(q, bound, l);
  }

  lemma FloorIs(q: real, epoch: int)
    ensures epoch as real <= q < epoch as real + 1.0 <==> q.Floor == epoch
  {
  }

  lemma CoversIff(epoch: int, length: int, timestamp: real)
    requires length > 0
    ensures Covers(epoch, length, timestamp) <==> (timestamp / length as real).Floor == epoch
  {
    Scaled(epoch, length);
    BoundIff(epoch as real, timestamp, length as real);
    BoundIff(epoch as real + 1.0, timestamp, length as real);
    FloorIs(timestamp / length as real, epoch);
  }

  lemma Quotient(x: real, z: real)
    requires z > 0.0
    ensures x / z * z == x
  {
  }

  lemma Scaled(epoch: int, length: int)
    ensures (epoch * length) as real == epoch as real * length as real
    ensures (epoch * length + length) as real == (epoch as real + 1.0) * length as real
  {
  }

  /** No timestamp falls in two epochs. */
  lemma EpochsDisjoint(e: int, f: int, length: int, timestamp: real)
    requires length > 0 && Covers(e, length, timestamp) && Covers(f, length, timestamp)
    ensures e == f
  {
    CoversIff(e, length, timestamp);
    CoversIff(f, length, timestamp);
  }

  /** The epoch a message is listed under is the one whose hashes include it exactly
      when its timestamp is not negative, or sits on an epoch boundary. */
  lemma ListedWhereHashed(timestamp: real, length: int)
    requires length > 0
    ensures Covers(EpochOf(timestamp, length), length, timestamp) <==>
      timestamp >= 0.0 || timestamp / length as real == (timestamp / length as real).Floor as real
  {
    var q := timestamp / length as real;
    assert q * length as real == timestamp;
    RealProduct(0.0, q, length as real);
    RealProduct(q, 0.0, length as real);
    CoversIff(EpochOf(timestamp, length), length, timestamp);
  }

  /** Half an epoch before zero: listed under epoch 0, hashed under epoch -1. */
  lemma NegativeTimestampMislaid()
    ensures EpochOf(-1800.0, 3600) == 0
    ensures !Covers(0, 3600, -1800.0) && Covers(-1, 3600, -1800.0)
  {
    assert -1800.0 / 3600.0 == -0.5;
    assert (0.5).Floor == 0;
  }

  // -- the populated epochs partition the window ---------------------------------

  ghost predicate NonNegative(messages: Messages, group: string) {
    forall h | h in messages && messages[h].group == group :: messages[h].timestamp >= 0.0
  }

  lemma InItsEpoch(r: Record, group: string, length: int)
    requires length > 0 && r.group == group && r.timestamp >= 0.0
    ensures InEpoch(r, group, EpochOf(r.timestamp, length), length)
  {
    ListedWhereHashed(r.timestamp, length);
  }

  /** An epoch at or after an aligned cutoff lies wholly in the window, and an earlier
      one wholly outside. */
  lemma AlignedCutoff(epoch: int, oldest: int, length: int, timestamp: real)
    requires length > 0 && Covers(epoch, length, timestamp)
    ensures epoch >= oldest <==> timestamp >= (oldest * length) as real
  {
    Scaled(epoch, length);
    Scaled(oldest, length);
    RealProduct(oldest as real, epoch as real, length as real);
    RealProduct(epoch as real + 1.0, oldest as real, length as real);
  }

  /** Every message since the aligned cutoff is hashed in exactly one populated epoch,
      and a populated epoch holds at least one message and none from before the cutoff. */
  lemma PopulatedPartition(messages: Messages, group: string, length: int, oldest: int)
    requires length > 0 && NonNegative(messages, group)
    ensures var since := (oldest * length) as real;
            var epochs := Populated(messages, group, length, since);
      && (forall h | h in messages && InWindow(messages[h], group, since) ::
            && EpochOf(messages[h].timestamp, length) in epochs
            && h in EpochSet(messages, group, EpochOf(messages[h].timestamp, length), length))
      && (forall h, e | h in EpochSet(messages, group, e, length) :: e == EpochOf(messages[h].timestamp, length))
      && (forall e | e in epochs :: e >= oldest && EpochSet(messages, group, e, length) != {})
      && (forall e, h | e in epochs && h in EpochSet(messages, group, e, length) :: InWindow(messages[h], group, since))
  {
    var since := (oldest * length) as real;
    var epochs := Populated(messages, group, length, since);
    forall h | h in messages && messages[h].group == group
      ensures InEpoch(messages[h], group, EpochOf(messages[h].timestamp, length), length)
      ensures InWindow(messages[h], group, since) <==> EpochOf(messages[h].timestamp, length) >= oldest
    {
      InItsEpoch(messages[h], group, length);
      AlignedCutoff(EpochOf(messages[h].timestamp, length), oldest, length, messages[h].timestamp);
    }
    forall h, e | h in EpochSet(messages, group, e, length)
      ensures e == EpochOf(messages[h].timestamp, length)
    {
      EpochsDisjoint(e, EpochOf(messages[h].timestamp, length), length, messages[h].timestamp);
    }
    forall e | e in epochs
      ensures e >= oldest && EpochSet(messages, group, e, length) != {}
    {
      var h :| h in messages && InWindow(messages[h], group, since) && EpochOf(messages[h].timestamp, length) == e;
      assert h in EpochSet(messages, group, e, length);
    }
  }

  // -- retention -----------------------------------------------------------------

  function Horizon(now: real, length: int, retention: int): real {
    now - (retention * length) as real
  }

  lemma HorizonInBoundary(now: real, length: int, retention: int)
    requires length > 0 && now >= 0.0
    ensures Covers(OldestEpoch(now, length, retention), length, Horizon(now, length, retention))
  {
    var current := EpochOf(now, length);
    ListedWhereHashed(now, length);
    assert (current - retention) * length == current * length - retention * length;
  }

  /** Pruning spares every epoch newer than the oldest one reconciled. */
  lemma PruneSparesNewerEpochs(messages: Messages, group: string, epoch: int, length: int, retention: int, now: real)
    requires length > 0 && now >= 0.0 && epoch > OldestEpoch(now, length, retention)
    ensures EpochSet(KeptMessages(messages, Horizon(now, length, retention)), group, epoch, length)
            == EpochSet(messages, group, epoch, length)
  {
    var oldest := OldestEpoch(now, length, retention);
    HorizonInBoundary(now, length, retention);
    forall h | h in EpochSet(messages, group, epoch, length)
      ensures messages[h].timestamp >= Horizon(now, length, retention)
    {
      AlignedCutoff(epoch, oldest + 1, length, messages[h].timestamp);
      assert (oldest + 1) * length == oldest * length + length;
    }
  }

  /** Every epoch reconciliation skips is wholly past retention. */
  lemma SkippedEpochsArePruned(messages: Messages, group: string, epoch: int, length: int, retention: int, now: real)
    requires length > 0 && now >= 0.0 && epoch < OldestEpoch(now, length, retention)
    ensures EpochSet(KeptMessages(messages, Horizon(now, length, retention)), group, epoch, length) == {}
  {
    var oldest := OldestEpoch(now, length, retention);
    HorizonInBoundary(now, length, retention);
    forall h | h in EpochSet(messages, group, epoch, length)
      ensures messages[h].timestamp < Horizon(now, length, retention)
    {
      AlignedCutoff(epoch, oldest, length, messages[h].timestamp);
    }
  }

  /** A message pruned at one time and still asked for at a later one can only be in
      the boundary epoch, which is then the same at both times. */
  lemma RefetchOnlyInBoundary(epoch: int, length: int, retention: int, timestamp: real, pruned: real, synced: real)
    requires length > 0 && 0.0 <= pruned <= synced
    requires Covers(epoch, length, timestamp)
    requires timestamp < Horizon(pruned, length, retention)
    requires epoch >= OldestEpoch(synced, length, retention)
    ensures epoch == OldestEpoch(pruned, length, retention) == OldestEpoch(synced, length, retention)
  {
    HorizonInBoundary(pruned, length, retention);
    var boundary := OldestEpoch(pruned, length, retention);
    assert (boundary + 1) * length == boundary * length + length;
    AlignedCutoff(epoch, boundary + 1, length, timestamp);
    assert epoch <= boundary;
    RealQuotient(pruned, synced, length);
  }

  lemma RealQuotient(x: real, y: real, length: int)
    requires length > 0 && 0.0 <= x <= y
    ensures Trunc(x / length as real) <= Trunc(y / length as real)
  {
    var l := length as real;
    var p, q := x / l, y / l;
    assert p * l == x && q * l == y;
    RealProduct(q, p, l);
    RealProduct(p, 0.0, l);
    RealProduct(q, 0.0, l);
  }
}
