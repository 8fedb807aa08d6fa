/** The egress scheduler of lxmf_hub/egress.py over the shared store: sends, callbacks
    and the tick that paces them. */
module Scheduler {
  import opened Sorting
  import opened Wrappers
  import opened ByteStrings
  import opened Tables
  import opened Stores
  import opened Delivery
  import opened Sending
  import opened TokenBuckets

  /** A queue row as the due query returned it. */
  datatype DueRow = DueRow(key: Key, row: Row)

  ghost predicate DistinctKeys(rows: seq<DueRow>) {
    forall i, j | 0 <= i < j < |rows| :: rows[i].key != rows[j].key
  }

  ghost function KeysOf(rows: seq<DueRow>): set<Key> {
    set r | r in rows :: r.key
  }

  ghost predicate Loaded(due: map<Key, Row>, rows: seq<DueRow>) {
    forall r | r in rows :: r.key in due && due[r.key] == r.row
  }

  ghost predicate NeverBack(time: nat -> real) {
    forall m: nat, n: nat | m <= n :: time(m) <= time(n)
  }

  /** How a pass over a client queue ended. */
  datatype Stop = Finished | NoToken | Failed

  /** How a tick ended: nothing was due, everything was sent, the bucket ran dry, or an
      exception stopped it. */
  datatype TickEnd = Nothing | Done | OutOfTokens | Stopped

  ghost predicate KindsApart(a: set<Key>, b: set<Key>, c: set<Key>) {
    a !! b && a !! c && b !! c
  }

  lemma BatchesApart(answers: seq<DueRow>, notices: seq<DueRow>, items: seq<DueRow>)
    requires DistinctKeys(answers) && DistinctKeys(notices) && DistinctKeys(items)
    requires forall r | r in answers :: r.key.kind.User?
    requires forall r | r in notices :: r.key.kind.Notice?
    requires forall r | r in items :: r.key.kind.Egress?
    ensures KindsApart(KeysOf(answers), KeysOf(notices), KeysOf(items))
    ensures DistinctKeys(answers + notices + items)
    ensures KeysOf(answers + notices + items) == KeysOf(answers) + (KeysOf(notices) + KeysOf(items))
    ensures forall r :: r in answers + notices + items <==> r in answers || r in notices || r in items
  {
  }

  function ForClient(k: Key): nat {
    if k.kind.Control? then 0 else 1
  }

  lemma NextRow(rows: seq<DueRow>, i: nat)
    requires DistinctKeys(rows) && i < |rows|
    ensures rows[i] in rows[i..]
    ensures forall r | r in rows[i + 1..] :: r in rows[i..] && r.key != rows[i].key
    ensures KeysOf(rows[i..]) == {rows[i].key} + KeysOf(rows[i + 1..])
    ensures KeysOf(rows[..i + 1]) == KeysOf(rows[..i]) + {rows[i].key}
    ensures rows[i].key !in KeysOf(rows[i + 1..])
  {
    assert rows[i..] == [rows[i]] + rows[i + 1..];
    assert rows[..i + 1] == rows[..i] + [rows[i]];
    forall r | r in rows[i + 1..]
      ensures r.key != rows[i].key
    {
      var j :| 0 <= j < |rows| - i - 1 && rows[i + 1..][j] == r;
      assert rows[i + 1 + j] == r;
    }
  }

  /** One daemon lifetime's scheduler. A restart makes a new one over the same store. */
  class EgressScheduler {
    const store: Store
    const bucket: TokenBucket
    const settings: EgressSettings
    const channels: Channels
    var inflight: map<Key, Flight>
    var pending: set<nat>
    var nextMessage: nat
    ghost var clock: real
    ghost var due: map<Key, Row>
    ghost var copies: map<nat, Copy>
    ghost var paced: seq<Attempt>
    ghost var given: nat
    ghost const firstBucket: Bucket

    ghost function Abs(): World
      reads this, store
    {
      World(clock, channels, store.queue, store.messages.Keys, store.history, due, inflight, pending, Idle, copies)
    }

    /** No message object is used twice. */
    ghost predicate Fresh()
      reads this
    {
      && (forall m | m in copies || m in pending :: m < nextMessage)
      && (forall k | k in inflight :: inflight[k].message < nextMessage)
    }

    /** The bucket stands where the paced sends of this lifetime have left it, and they
        account for every message given to the router for a client. */
    ghost predicate Pacing()
      reads this, bucket
    {
      && bucket.Valid() && firstBucket.Valid() && given == Handed(paced)
      && (paced != [] ==> paced[|paced| - 1].out <= clock)
      && Paced(AtRate(bucket.rate), firstBucket, paced)
      && bucket.State() == Replay(AtRate(bucket.rate), firstBucket, paced)
    }

    constructor (store: Store, bucket: TokenBucket, settings: EgressSettings, channels: Channels, now: real)
      requires bucket.Valid()
      ensures Fresh() && Pacing() && this.store == store && this.bucket == bucket && this.settings == settings
          && this.channels == channels
      ensures paced == [] && firstBucket == bucket.State()
      ensures Abs() == World(now, channels, store.queue, store.messages.Keys, store.history, map[], map[], {}, Idle,
          map[])
    {
      this.store, this.bucket, this.settings, this.channels := store, bucket, settings, channels;
      inflight, pending, nextMessage := map[], {}, 0;
      clock, due, copies, paced, given := now, map[], map[], [], 0;
      firstBucket := bucket.State();
    }

    /** The in-flight check, with its renewal and its release of lost entries. */
    method InFlight(k: Key, now: real) returns (busy: bool)
      requires Fresh() && clock == now
      modifies this`inflight, this`copies
      ensures Fresh()
      ensures busy == Busy(old(Abs()), k)
      ensures Abs() == Checked(settings.Limits(), old(Abs()), k)
    {
      if k !in inflight {
        return false;
      }
      var flight := inflight[k];
      if flight.deadline > now {
        return true;
      }
      if flight.message in pending {
        inflight := inflight[k := Flight(now + settings.timeout, flight.message)];
        if flight.message in copies {
          copies := copies[flight.message := copies[flight.message].(deadline := now + settings.timeout)];
        }
        return true;
      }
      inflight := inflight - {k};
      return false;
    }

    /** Whether this row is to be ended rather than sent. */
    method FindEnding(k: Key, item: Row) returns (ending: Option<Fate>)
      ensures ending == Ending(settings, Abs(), k, item)
    {
      if k.kind.Egress? && item.about.Reflection? && item.about.msgHash !in store.messages {
        return Some(Pruned);
      }
      if k.kind.Control? && !channels.control {
        return Some(Obsolete);
      }
      if item.attempts >= settings.maxAttempts {
        return Some(Abandoned(item.attempts));
      }
      if k.kind.Notice? && item.about.DirectoryText? && !channels.directory {
        return Some(Obsolete);
      }
      return None;
    }

    /** Deliver one due row. Returns whether anything went on air, and whether an
        exception left the send. */
    method Send(k: Key, item: Row, env: Surroundings, now: real) returns (onAir: bool, raised: bool, ghost handed: bool)
      requires Fresh() && clock == now && k in due && due[k] == item
      modifies this`inflight, this`pending, this`nextMessage, this`due, this`copies, this`given, store`queue,
          store`history
      ensures Fresh() && nextMessage >= old(nextMessage)
      ensures Sent(Abs(), onAir, raised, handed) == SendResult(settings, old(Abs()), k, item, env, old(nextMessage))
      ensures old(store.Valid()) ==> store.Valid()
      ensures given == old(given) + if handed then ForClient(k) else 0
    {
      SendKeepsStore(store, settings, Abs(), k, item, env, nextMessage);
      onAir, raised, handed := SendRow(k, item, env, now);
    }

    method SendRow(k: Key, item: Row, env: Surroundings, now: real)
      returns (onAir: bool, raised: bool, ghost handed: bool)
      requires Fresh() && clock == now && k in due && due[k] == item
      modifies this`inflight, this`pending, this`nextMessage, this`due, this`copies, this`given, store`queue,
          store`history
      ensures Fresh() && nextMessage >= old(nextMessage)
      ensures Sent(Abs(), onAir, raised, handed) == SendResult(settings, old(Abs()), k, item, env, old(nextMessage))
      ensures given == old(given) + if handed then ForClient(k) else 0
    {
      var busy := InFlight(k, now);
      if busy {
        due := due - {k};
        return false, false, false;
      }
      onAir, raised, handed := Proceed(k, item, env, now);
    }

    method Proceed(k: Key, item: Row, env: Surroundings, now: real)
      returns (onAir: bool, raised: bool, ghost handed: bool)
      requires Fresh() && clock == now && k in due && due[k] == item
      modifies this`inflight, this`pending, this`nextMessage, this`due, this`copies, this`given, store`queue,
          store`history
      ensures Fresh() && nextMessage >= old(nextMessage)
      ensures Sent(Abs(), onAir, raised, handed) == Proceeded(settings, old(Abs()), k, item, env, old(nextMessage))
      ensures given == old(given) + if handed then ForClient(k) else 0
    {
      ghost var w := Abs();
      var ending := FindEnding(k, item);
      if ending.Some? {
        due := due - {k};
        store.Complete(k, ending.value);
        assert Abs() == Taken(Complete(w, k, ending.value), k);
        return false, false, false;
      }
      if (NeedsGroup(k, item) && !env.attached) || !env.identity || !env.built {
        onAir := Postpone(k, item, env, now);
        assert Abs() == Taken(w.(queue := store.queue), k);
        return onAir, false, false;
      }
      onAir, raised, handed := HandOver(k, item, env, now);
    }

    /** Nothing can be built for the row now: a grace while the group or the path is
        missing, an attempt when the message itself is. */
    method Postpone(k: Key, item: Row, env: Surroundings, now: real) returns (onAir: bool)
      requires Fresh() && clock == now
      requires (NeedsGroup(k, item) && !env.attached) || !env.identity || !env.built
      modifies this`due, store`queue
      ensures Fresh()
      ensures due == old(due) - {k}
      ensures onAir <==> !(NeedsGroup(k, item) && !env.attached) && !env.identity
      ensures store.queue ==
        if NeedsGroup(k, item) && !env.attached
            then RowDeferred(old(store.queue), k, false, now + settings.retryBackoff)
        else if !env.identity then RowDeferred(old(store.queue), k, false, now + settings.GraceWait(item.graces))
        else RowDeferred(old(store.queue), k, true, now + settings.Backoff(item.attempts))
    {
      due := due - {k};
      if NeedsGroup(k, item) && !env.attached {
        store.Defer(k, false, now + settings.retryBackoff);
        return false;
      }
      if !env.identity {
        store.Defer(k, false, now + settings.GraceWait(item.graces));
        return true;
      }
      store.Defer(k, true, now + settings.Backoff(item.attempts));
      return false;
    }

    /** Re-arm, mark in flight, hand over. */
    method HandOver(k: Key, item: Row, env: Surroundings, now: real)
      returns (onAir: bool, raised: bool, ghost handed: bool)
      requires Fresh() && clock == now && k in due && due[k] == item
      modifies this`inflight, this`pending, this`nextMessage, this`due, this`copies, this`given, store`queue,
          store`history
      ensures Fresh() && nextMessage >= old(nextMessage)
      ensures Sent(Abs(), onAir, raised, handed) == HandOverResult(settings, old(Abs()), k, item, env, old(nextMessage))
      ensures given == old(given) + if handed then ForClient(k) else 0
    {
      ghost var w := Abs();
      var backoff := now + settings.Backoff(item.attempts);
      var m := ArmAndMark(k, now, backoff);
      assert Abs() == MarkedFor(w, k, m, backoff, now + settings.timeout);
      onAir, raised, handed := FinishSend(k, m, env, backoff, now + settings.timeout);
    }

    method FinishSend(k: Key, m: nat, env: Surroundings, backoff: real, ghost deadline: real)
      returns (onAir: bool, raised: bool, ghost handed: bool)
      requires Fresh() && k in inflight && inflight[k] == Flight(deadline, m) && m < nextMessage
      modifies this`inflight, this`pending, this`copies, this`given, store`queue, store`history
      ensures Fresh()
      ensures Sent(Abs(), onAir, raised, handed) == AfterMark(old(Abs()), k, env, m, backoff, deadline)
      ensures given == old(given) + if handed then ForClient(k) else 0
    {
      if env.seeded {
        Offer(k, m, env.router);
        onAir, raised, handed := true, false, true;
      } else {
        raised := SeedingFailed(k, backoff);
        onAir, handed := false, false;
      }
    }

    /** The counted deferral commits first; only then is the row marked. */
    method ArmAndMark(k: Key, now: real, backoff: real) returns (m: nat)
      requires Fresh() && clock == now
      modifies this`inflight, this`nextMessage, this`due, store`queue
      ensures Fresh() && m == old(nextMessage) && nextMessage == m + 1
      ensures due == old(due) - {k}
      ensures store.queue == RowDeferred(old(store.queue), k, true, backoff)
      ensures inflight == old(inflight)[k := Flight(now + settings.timeout, m)]
    {
      m := nextMessage;
      nextMessage := nextMessage + 1;
      due := due - {k};
      store.Defer(k, true, backoff);
      inflight := inflight[k := Flight(now + settings.timeout, m)];
    }

    /** An exception before the handoff. The control loop catches it, releases the row
        and defers it again; elsewhere it leaves the send. */
    method SeedingFailed(k: Key, backoff: real) returns (raised: bool)
      requires Fresh()
      modifies this`inflight, store`queue
      ensures Fresh()
      ensures raised <==> !k.kind.Control?
      ensures raised ==> inflight == old(inflight) && store.queue == old(store.queue)
      ensures !raised ==>
        inflight == old(inflight) - {k} && store.queue == RowDeferred(old(store.queue), k, true, backoff)
    {
      raised := !k.kind.Control?;
      if !raised {
        inflight := inflight - {k};
        store.Defer(k, true, backoff);
      }
    }

    /** Give the router the message. */
    method Offer(k: Key, m: nat, router: Router)
      requires Fresh() && k in inflight && m < nextMessage
      modifies this`inflight, this`pending, this`copies, this`given, store`history
      ensures Fresh() && given == old(given) + ForClient(k)
      ensures store.history == Counted(old(store.history), k)
      ensures copies == old(copies)[m := Copy(k, old(inflight)[k].deadline, router.Raises?)]
      ensures inflight == if router.Raises? then old(inflight) - {k} else old(inflight)
      ensures pending == if router.Holds? then old(pending) + {m} else old(pending)
    {
      store.CountHandoff(k);
      given := given + ForClient(k);
      copies := copies[m := Copy(k, inflight[k].deadline, router.Raises?)];
      match router
      case Raises => inflight := inflight - {k};
      case Holds => pending := pending + {m};
      case Drops =>
    }

    // -- the tick ------------------------------------------------------------------------

    /** One send at time `now`, unpaced. */
    method SendAt(item: DueRow, env: Surroundings, now: real)
      returns (onAir: bool, raised: bool, ghost handed: bool, ghost path: seq<World>)
      requires Fresh() && clock <= now && item.key in due && due[item.key] == item.row
      modifies this`clock, this`inflight, this`pending, this`nextMessage, this`due, this`copies, this`given,
          store`queue, store`history
      ensures Fresh() && clock == now
      ensures old(store.Valid()) ==> store.Valid()
      ensures Sent(Abs(), onAir, raised, handed)
              == SendResult(settings, old(Abs()).(now := now), item.key, item.row, env, old(nextMessage))
      ensures due == old(due) - {item.key}
      ensures Path(settings.Limits(), path, old(Abs()), Abs())
      ensures handed ==> onAir && !raised
      ensures given == old(given) + if handed then ForClient(item.key) else 0
    {
      ghost var w := Abs();
      clock := now;
      ghost var w0 := Abs();
      assert TimePasses(w, w0, now);
      path := Extended(settings.Limits(), [w], w, w, w0);
      ghost var q := SendPath(settings, w0, item.key, item.row, env, nextMessage);
      SendTakesRow(settings, w0, item.key, item.row, env, nextMessage);
      onAir, raised, handed := Send(item.key, item.row, env, now);
      path := Joined(settings.Limits(), path, q, w, w0, Abs());
    }

    /** A send to a client spends a token at `now`, and is done with the row at `out`; a
        row that put nothing on air gets the token back. */
    method SendPaced(item: DueRow, env: Surroundings, now: real, out: real)
      returns (token: bool, raised: bool, ghost path: seq<World>, ghost attempt: Attempt)
      requires !item.key.kind.Control?
      requires Fresh() && Pacing() && clock <= now <= out && bucket.updated <= now
      requires item.key in due && due[item.key] == item.row
      modifies this`clock, this`inflight, this`pending, this`nextMessage, this`due, this`copies, this`given, this`paced,
               store`queue, store`history, bucket
      ensures Fresh() && Pacing() && now <= clock <= out && bucket.updated == now
      ensures old(store.Valid()) ==> store.Valid()
      ensures Path(settings.Limits(), path, old(Abs()), Abs())
      ensures paced == old(paced) + [attempt] && attempt.at == now
      ensures token <==> old(bucket.State()).Level(AtRate(bucket.rate), now) >= 1.0
      ensures !token ==> due == old(due) && !raised && bucket.tokens < 1.0 && clock == now
      ensures token ==> due == old(due) - {item.key} && clock == out
      ensures bucket.tokens == old(bucket.State()).Level(AtRate(bucket.rate), now) - (if token && attempt.kept then 1.0
          else 0.0)
      ensures token ==>
        var r := SendResult(settings, old(Abs()).(now := out), item.key, item.row, env, old(nextMessage));
        Abs() == r.world && raised == r.raised && attempt == Attempt(now, out, r.onAir || r.raised, r.handed)
    {
      ghost var b := bucket.State();
      token := bucket.Consume(now);
      if !token {
        ghost var w := Abs();
        clock := now;
        assert TimePasses(w, Abs(), now);
        path := Extended(settings.Limits(), [w], w, w, Abs());
        raised := false;
        attempt := Attempt(now, now, false, false);
        Record(b, attempt);
        return;
      }
      var onAir;
      ghost var handed;
      onAir, raised, handed, path := SendAt(item, env, out);
      if !onAir && !raised {
        bucket.Refund();
      }
      attempt := Attempt(now, out, onAir || raised, handed);
      Record(b, attempt);
    }

    ghost method Record(before: Bucket, a: Attempt)
      requires bucket.Valid() && firstBucket.Valid()
      requires Paced(AtRate(bucket.rate), firstBucket, paced) && given == Handed(paced) + Count(a)
      requires before == Replay(AtRate(bucket.rate), firstBucket, paced) && before.updated <= a.at <= a.out == clock
      requires paced != [] ==> paced[|paced| - 1].out <= a.at
      requires a.handed ==> a.kept && before.Level(AtRate(bucket.rate), a.at) >= 1.0
      requires bucket.State() == Try(AtRate(bucket.rate), before, a)
      modifies this`paced
      ensures paced == old(paced) + [a] && Pacing()
    {
      PacedGrows(AtRate(bucket.rate), firstBucket, paced, a);
      assert (paced + [a])[..|paced|] == paced;
      paced := paced + [a];
    }

    method ReadDue(kind: Kind, limit: nat, now: real) returns (rows: seq<DueRow>)
      ensures DistinctKeys(rows) && |rows| <= limit
      ensures forall r | r in rows ::
        && r.key in store.queue && r.key.kind == kind && r.row == store.queue[r.key]
        && store.queue[r.key].nextAttemptAt <= now
      ensures |rows| < limit ==>
        forall k | k in store.queue && k.kind == kind && store.queue[k].nextAttemptAt <= now ::
          exists r :: r in rows && r.key == k
    {
      var keys := store.DueRows(kind, limit, now);
      var q := store.queue;
      assert forall i | 0 <= i < |keys| :: keys[i] in keys && IsDue(q, keys[i], kind, now);
      rows := seq(|keys|, i requires 0 <= i < |keys| && keys[i] in q => DueRow(keys[i], q[keys[i]]));
      forall k | IsDue(store.queue, k, kind, now) && |rows| < limit
        ensures exists r :: r in rows && r.key == k
      {
        var i :| 0 <= i < |keys| && keys[i] == k;
        assert rows[i] in rows && rows[i].key == k;
      }
    }

    /** The due query, as the machine's step. */
    ghost method Load(rows: seq<DueRow>) returns (path: seq<World>)
      requires Fresh()
      requires DistinctKeys(rows) && forall r | r in rows :: r.key in store.queue && r.row == store.queue[r.key]
      modifies this`due
      ensures Fresh() && Loaded(due, rows) && due.Keys == KeysOf(rows)
      ensures Path(settings.Limits(), path, old(Abs()), Abs())
    {
      var w := Abs();
      due := map k | k in KeysOf(rows) :: store.queue[k];
      assert Query(w, Abs(), due);
      path := Extended(settings.Limits(), [w], w, w, Abs());
    }

    /** Operator answers: every one is sent, none is paced. */
    method SendControls(
      rows: seq<DueRow>, env: Key -> Surroundings, time: nat -> real, ghost from: World, ghost sofar: seq<World>)
      returns (ghost path: seq<World>)
      requires Fresh() && clock <= time(0) && NeverBack(time)
      requires DistinctKeys(rows) && Loaded(due, rows) && due.Keys == KeysOf(rows)
      requires forall r | r in rows :: r.key.kind.Control?
      requires Path(settings.Limits(), sofar, from, Abs())
      modifies this`clock, this`inflight, this`pending, this`nextMessage, this`due, this`copies, this`given,
          store`queue, store`history
      ensures Fresh() && old(clock) <= clock <= time(|rows|)
      ensures old(store.Valid()) ==> store.Valid()
      ensures due == map[]
      ensures Path(settings.Limits(), path, from, Abs())
      ensures given == old(given)
      ensures ClientRowsKept(old(store.queue), store.queue)
    {
      path := sofar;
      for i := 0 to |rows|
        invariant given == old(given)
        invariant ClientRowsKept(old(store.queue), store.queue)
        invariant Fresh() && old(clock) <= clock <= time(i)
        invariant old(store.Valid()) ==> store.Valid()
        invariant Loaded(due, rows[i..]) && due.Keys == KeysOf(rows[i..])
        invariant Path(settings.Limits(), path, from, Abs())
      {
        path := SendNextControl(rows, i, env(rows[i].key), time(i), from, path);
        assert time(i) <= time(i + 1);
      }
      assert due.Keys == {};
    }

    method SendNextControl(
      rows: seq<DueRow>, i: nat, env: Surroundings, now: real, ghost from: World, ghost sofar: seq<World>)
      returns (ghost path: seq<World>)
      requires Fresh() && clock <= now && i < |rows| && rows[i].key.kind.Control?
      requires DistinctKeys(rows) && Loaded(due, rows[i..]) && due.Keys == KeysOf(rows[i..])
      requires Path(settings.Limits(), sofar, from, Abs())
      modifies this`clock, this`inflight, this`pending, this`nextMessage, this`due, this`copies, this`given,
          store`queue, store`history
      ensures Fresh() && clock == now && given == old(given)
      ensures old(store.Valid()) ==> store.Valid()
      ensures ClientRowsKept(old(store.queue), store.queue)
      ensures Loaded(due, rows[i + 1..]) && due.Keys == KeysOf(rows[i + 1..])
      ensures Path(settings.Limits(), path, from, Abs())
    {
      NextRow(rows, i);
      ghost var w := Abs();
      OtherRowsStay(settings, w.(now := now), rows[i].key, rows[i].row, env, nextMessage);
      var onAir, raised;
      ghost var handed, more;
      onAir, raised, handed, more := SendAt(rows[i], env, now);
      path := Joined(settings.Limits(), sofar, more, from, w, Abs());
    }

    method SendNext(
      rows: seq<DueRow>, i: nat, env: Surroundings, now: real, out: real, ghost from: World, ghost sofar: seq<World>)
      returns (stop: Stop, ghost path: seq<World>, ghost attempt: Attempt)
      requires i < |rows| && !rows[i].key.kind.Control? && DistinctKeys(rows)
      requires Underway(rows[i..], now) && now <= out
      requires Path(settings.Limits(), sofar, from, Abs())
      modifies this`clock, this`inflight, this`pending, this`nextMessage, this`due, this`copies, this`given, this`paced,
               store`queue, store`history, bucket
      ensures Fresh() && Pacing()
      ensures old(store.Valid()) ==> store.Valid()
      ensures stop.Finished? ==> Underway(rows[i + 1..], out)
      ensures stop.NoToken? ==> bucket.tokens < 1.0
      ensures paced == old(paced) + [attempt]
      ensures Path(settings.Limits(), path, from, Abs())
    {
      NextRow(rows, i);
      ghost var w := Abs();
      var token, raised;
      ghost var more;
      token, raised, more, attempt := SendPaced(rows[i], env, now, out);
      path := Joined(settings.Limits(), sofar, more, from, w, Abs());
      stop := if !token then NoToken else if raised then Failed else Finished;
    }

    /** Part-way through a batch: these rows are still to be sent, and nothing has
        happened after t. */
    ghost predicate Underway(rows: seq<DueRow>, t: real)
      reads this, bucket
    {
      && Fresh() && Pacing() && clock <= t && bucket.updated <= t
      && Loaded(due, rows) && due.Keys == KeysOf(rows)
    }

    /** The client queues in turn. Stops at the first row without a token, or at an
        exception; otherwise every row has been sent. */
    method SendClients(
      rows: seq<DueRow>, env: Key -> Surroundings, time: nat -> real, start: nat, ghost from: World,
      ghost sofar: seq<World>)
      returns (stop: Stop, ghost path: seq<World>)
      requires DistinctKeys(rows) && forall r | r in rows :: !r.key.kind.Control?
      requires NeverBack(time) && Underway(rows, time(start))
      requires Path(settings.Limits(), sofar, from, Abs())
      modifies this`clock, this`inflight, this`pending, this`nextMessage, this`due, this`copies, this`given, this`paced,
               store`queue, store`history, bucket
      ensures Fresh() && Pacing()
      ensures old(store.Valid()) ==> store.Valid()
      ensures stop.Finished? ==> due == map[] && |paced| == |old(paced)| + |rows|
      ensures stop.NoToken? ==> bucket.tokens < 1.0
      ensures old(paced) <= paced
      ensures Path(settings.Limits(), path, from, Abs())
    {
      path := sofar;
      assert rows[0..] == rows;
      for i := 0 to |rows|
        invariant Underway(rows[i..], time(start + 2 * i))
        invariant old(store.Valid()) ==> store.Valid()
        invariant old(paced) <= paced && |paced| == |old(paced)| + i
        invariant Path(settings.Limits(), path, from, Abs())
      {
        ghost var attempt;
        assert rows[i] in rows;
        stop, path, attempt := SendPair(rows, i, env, time, start + 2 * i, from, path);
        if !stop.Finished? {
          return;
        }
      }
      assert due.Keys == {};
      stop := Finished;
    }

    /** One row: the token at one reading of the clock, the send at the next. */
    method SendPair(
      rows: seq<DueRow>, i: nat, env: Key -> Surroundings, time: nat -> real, n: nat, ghost from: World,
      ghost sofar: seq<World>)
      returns (stop: Stop, ghost path: seq<World>, ghost attempt: Attempt)
      requires i < |rows| && !rows[i].key.kind.Control? && DistinctKeys(rows)
      requires NeverBack(time) && Underway(rows[i..], time(n))
      requires Path(settings.Limits(), sofar, from, Abs())
      modifies this`clock, this`inflight, this`pending, this`nextMessage, this`due, this`copies, this`given, this`paced,
               store`queue, store`history, bucket
      ensures Fresh() && Pacing()
      ensures old(store.Valid()) ==> store.Valid()
      ensures stop.Finished? ==> Underway(rows[i + 1..], time(n + 2))
      ensures stop.NoToken? ==> bucket.tokens < 1.0
      ensures paced == old(paced) + [attempt]
      ensures Path(settings.Limits(), path, from, Abs())
    {
      assert time(n) <= time(n + 1) <= time(n + 2);
      stop, path, attempt := SendNext(rows, i, env(rows[i].key), time(n), time(n + 1), from, sofar);
    }

    /** Send what is due and allowed: operator answers unpaced, then the client queues
        as the bucket allows. Returns how long to sleep. Every change is a path of the
        delivery machine, and every handoff to a client is on the record of the bucket. A
        tick that ends of itself has tried every row of its batch, and a batch below the
        limit leaves out no client row that was due when the tick began. */
    method Tick(limit: nat, env: Key -> Surroundings, time: nat -> real)
      returns (idle: real, end: TickEnd, ghost path: seq<World>, ghost batch: seq<DueRow>)
      requires Fresh() && Pacing() && NeverBack(time) && clock <= time(0) && bucket.updated <= time(0)
      modifies this`clock, this`inflight, this`pending, this`nextMessage, this`due, this`copies, this`given, this`paced,
               store`queue, store`history, bucket
      ensures Fresh() && Pacing()
      ensures old(store.Valid()) ==> store.Valid()
      ensures Path(settings.Limits(), path, old(Abs()), Abs())
      ensures old(paced) <= paced
      ensures |batch| < limit ==>
        forall k | k in old(store.queue) && !k.kind.Control? && old(store.queue)[k].nextAttemptAt <= time(0) ::
          exists r :: r in batch && r.key == k
      ensures end == Nothing ==> batch == [] && paced == old(paced) && due == map[] && (idle == 0.5 || idle == 2.0)
      ensures end == Done ==> idle == 0.5 && due == map[] && |paced| == |old(paced)| + |batch|
      ensures end == OutOfTokens ==> Dry(idle)
    {
      ghost var w := Abs();
      var n;
      n, path := AnswerOperators(limit, env, time);
      assert time(0) <= time(n);
      var rows := ReadClients(limit, time(n));
      batch := rows;
      if rows == [] {
        return if n > 0 then 0.5 else 2.0, Nothing, path, batch;
      }
      idle, end, path := SendBatch(rows, env, time, n, w, path);
    }

    /** The operator answers that are due, up to the limit; all are sent. */
    method AnswerOperators(limit: nat, env: Key -> Surroundings, time: nat -> real)
      returns (n: nat, ghost path: seq<World>)
      requires Fresh() && NeverBack(time) && clock <= time(0)
      modifies this`clock, this`inflight, this`pending, this`nextMessage, this`due, this`copies, this`given,
          store`queue, store`history
      ensures Fresh() && old(clock) <= clock <= time(n) && due == map[] && given == old(given)
      ensures old(store.Valid()) ==> store.Valid()
      ensures Path(settings.Limits(), path, old(Abs()), Abs())
      ensures ClientRowsKept(old(store.queue), store.queue)
      ensures n <= limit
    {
      ghost var w := Abs();
      var replies := ReadDue(Control, limit, time(0));
      path := Load(replies);
      path := SendControls(replies, env, time, w, path);
      n := |replies|;
    }

    /** What is due for clients: answers, then notices, then reflections. */
    method ReadClients(limit: nat, now: real) returns (rows: seq<DueRow>)
      ensures DistinctKeys(rows)
      ensures forall r | r in rows ::
        !r.key.kind.Control? && IsDue(store.queue, r.key, r.key.kind, now) && r.row == store.queue[r.key]
      ensures |rows| < limit ==>
        forall k | k in store.queue && !k.kind.Control? && store.queue[k].nextAttemptAt <= now ::
          exists r :: r in rows && r.key == k
    {
      var answers := ReadDue(User, limit, now);
      var notices := ReadDue(Notice, limit, now);
      var items := ReadDue(Egress, limit, now);
      BatchesApart(answers, notices, items);
      rows := answers + notices + items;
      forall k | |rows| < limit && k in store.queue && !k.kind.Control? && store.queue[k].nextAttemptAt <= now
        ensures exists r :: r in rows && r.key == k
      {
        assert IsDue(store.queue, k, k.kind, now);
        var part := if k.kind.User? then answers else if k.kind.Notice? then notices else items;
        var r: DueRow :| r in part && r.key == k;
        assert r in rows;
      }
    }

    method SendBatch(
      rows: seq<DueRow>, env: Key -> Surroundings, time: nat -> real, start: nat, ghost from: World,
      ghost sofar: seq<World>)
      returns (idle: real, end: TickEnd, ghost path: seq<World>)
      requires forall r | r in rows :: !r.key.kind.Control?
      requires Fresh() && Pacing() && NeverBack(time) && clock <= time(start) && bucket.updated <= time(start)
      requires DistinctKeys(rows) && forall r | r in rows :: r.key in store.queue && r.row == store.queue[r.key]
      requires Path(settings.Limits(), sofar, from, Abs())
      modifies this`clock, this`inflight, this`pending, this`nextMessage, this`due, this`copies, this`given, this`paced,
               store`queue, store`history, bucket
      ensures Fresh() && Pacing()
      ensures old(store.Valid()) ==> store.Valid()
      ensures Path(settings.Limits(), path, from, Abs())
      ensures old(paced) <= paced
      ensures end != Nothing
      ensures end == Done ==> idle == 0.5 && due == map[] && |paced| == |old(paced)| + |rows|
      ensures end == OutOfTokens ==> Dry(idle)
    {
      ghost var w := Abs();
      ghost var more := Load(rows);
      path := Joined(settings.Limits(), sofar, more, from, w, Abs());
      var stop;
      stop, path := SendClients(rows, env, time, start, from, path);
      match stop
      case Failed => idle, end := 5.0, Stopped;
      case Finished => idle, end := 0.5, Done;
      case NoToken =>
        var wait := bucket.TimeUntil();
        idle, end := Max(0.5, wait), OutOfTokens;
    }

    /** No token is left, and after sleeping this long there will be one. */
    ghost predicate Dry(idle: real)
      reads this, bucket
    {
      && bucket.tokens < 1.0 && idle >= 0.5
      && (bucket.rate > 0.0 ==> bucket.State().Level(AtRate(bucket.rate), bucket.updated + idle) >= 1.0)
    }

    // -- callbacks -----------------------------------------------------------------------

    /** The callback of a message the router holds: the row is released and, when the
        message was delivered, completed. */
    method OnCallback(k: Key, m: nat, delivered: bool)
      requires Fresh() && m in pending && m in copies && copies[m].owner == k
      modifies this`inflight, this`pending, this`copies, store`queue, store`history
      ensures Fresh()
      ensures Callback(old(Abs()), Abs(), m, delivered)
      ensures old(store.Valid()) ==> store.Valid()
    {
      CompletionKeepsStore(store, k);
      Resolve(k, m, delivered);
    }

    method Resolve(k: Key, m: nat, delivered: bool)
      requires Fresh() && m in pending && m in copies && copies[m].owner == k
      modifies this`inflight, this`pending, this`copies, store`queue, store`history
      ensures Fresh()
      ensures Callback(old(Abs()), Abs(), m, delivered)
      ensures store.queue == if delivered then old(store.queue) - {k} else old(store.queue)
      ensures store.history == if delivered && k in old(store.queue) then Ended(old(store.history), k, Delivered)
                               else old(store.history)
    {
      inflight := inflight - {k};
      pending, copies := pending - {m}, copies[m := copies[m].(resolved := true)];
      if delivered {
        store.Complete(k, Delivered);
      }
    }
  }

  /** Every message given to the router for a client since attempt number `from`, all
      of them inside [t0, t1], is covered by the burst and what time added, but for one
      whose token was taken before. */
  lemma ClientsPaced(s: EgressScheduler, rate: real, first: Bucket, from: nat, t0: real, t1: real)
    requires s.Pacing() && rate == s.bucket.rate && first == s.firstBucket
    requires from <= |s.paced| && first.updated <= t0 <= t1
    requires from > 0 ==> s.paced[from - 1].out <= t0
    requires OutWithin(s.paced[from..], t0, t1)
    ensures (s.given - Handed(s.paced[..from])) as real
            <= first.burst + rate * (t1 - t0) + if Straddles(s.paced[from..], t0) then 1.0 else 0.0
  {
    assert Paced(AtRate(rate), first, s.paced);
    HandedSince(rate, first, s.paced, from, t0, t1);
  }

  ghost predicate TakesRow(w: World, k: Key, r: Sent) {
    r.world.due == w.due - {k} && r.world.now == w.now && (r.handed ==> r.onAir && !r.raised)
  }

  lemma SendTakesRow(s: EgressSettings, w: World, k: Key, item: Row, env: Surroundings, m: nat)
    ensures TakesRow(w, k, SendResult(s, w, k, item, env, m))
  {
    var w1 := Checked(s.Limits(), w, k);
    assert w1.due == w.due && w1.now == w.now;
    if !Busy(w, k) {
      ProceedingTakesRow(s, w1, k, item, env, m);
    }
  }

  lemma ProceedingTakesRow(s: EgressSettings, w: World, k: Key, item: Row, env: Surroundings, m: nat)
    ensures TakesRow(w, k, Proceeded(s, w, k, item, env, m))
  {
    HandOverTakesRow(s, w, k, item, env, m);
  }

  lemma HandOverTakesRow(s: EgressSettings, w: World, k: Key, item: Row, env: Surroundings, m: nat)
    ensures TakesRow(w, k, HandOverResult(s, w, k, item, env, m))
  {
  }

  /** What a send can do to the tables: nothing, end the row, defer it once or twice,
      or defer it and count a handoff. */
  ghost predicate TableChange(q: Queue, h: History, q': Queue, h': History, k: Key) {
    || (q' == q && h' == h)
    || (exists reason :: k in q && q' == q - {k} && h' == Ended(h, k, reason))
    || (exists counted, at :: q' == RowDeferred(q, k, counted, at) && h' == h)
    || (exists at :: q' == RowDeferred(RowDeferred(q, k, true, at), k, true, at) && h' == h)
    || (exists at :: q' == RowDeferred(q, k, true, at) && h' == Counted(h, k))
  }

  lemma SendChanges(s: EgressSettings, w: World, k: Key, item: Row, env: Surroundings, m: nat)
    ensures var w' := SendResult(s, w, k, item, env, m).world;
            TableChange(w.queue, w.history, w'.queue, w'.history, k)
  {
    var w1 := Checked(s.Limits(), w, k);
    assert w1.queue == w.queue && w1.history == w.history;
    if !Busy(w, k) {
      ProceedingChanges(s, w1, k, item, env, m);
    }
  }

  lemma ProceedingChanges(s: EgressSettings, w: World, k: Key, item: Row, env: Surroundings, m: nat)
    ensures var w' := Proceeded(s, w, k, item, env, m).world;
            TableChange(w.queue, w.history, w'.queue, w'.history, k)
  {
    var ending := Ending(s, w, k, item);
    if ending.Some? {
      EndingChanges(w, k, ending.value);
    } else if NeedsGroup(k, item) && !env.attached {
      DeferringChanges(w, k, false, w.now + s.retryBackoff);
    } else if !env.identity {
      DeferringChanges(w, k, false, w.now + s.GraceWait(item.graces));
    } else if !env.built {
      DeferringChanges(w, k, true, w.now + s.Backoff(item.attempts));
    } else {
      HandOverChanges(s, w, k, item, env, m);
    }
  }

  lemma EndingChanges(w: World, k: Key, reason: Fate)
    ensures var w' := Taken(Complete(w, k, reason), k);
            TableChange(w.queue, w.history, w'.queue, w'.history, k)
  {
  }

  lemma DeferringChanges(w: World, k: Key, counted: bool, at: real)
    ensures var w' := Taken(Defer(w, k, counted, at), k);
            TableChange(w.queue, w.history, w'.queue, w'.history, k)
  {
  }

  lemma HandOverChanges(s: EgressSettings, w: World, k: Key, item: Row, env: Surroundings, m: nat)
    ensures var w' := HandOverResult(s, w, k, item, env, m).world;
            TableChange(w.queue, w.history, w'.queue, w'.history, k)
  {
    var at := w.now + s.Backoff(item.attempts);
    assert RowDeferred(w.queue, k, true, at) == RowDeferred(w.queue, k, true, at);
  }

  lemma TableChangeKeeps(
    hashing: Hashing, messages: Messages, nextId: nat, q: Queue, h: History, q': Queue, h': History, k: Key)
    requires TablesValid(hashing, messages, q, nextId, h) && TableChange(q, h, q', h', k)
    ensures TablesValid(hashing, messages, q', nextId, h')
  {
    if reason :| k in q && q' == q - {k} && h' == Ended(h, k, reason) {
      CompleteKeepsTables(hashing, messages, q, nextId, h, k, reason);
    } else if counted, at :| q' == RowDeferred(q, k, counted, at) && h' == h {
      DeferKeepsTables(hashing, messages, q, nextId, h, k, counted, at);
    } else if at :| q' == RowDeferred(RowDeferred(q, k, true, at), k, true, at) && h' == h {
      DeferKeepsTables(hashing, messages, q, nextId, h, k, true, at);
      DeferKeepsTables(hashing, messages, RowDeferred(q, k, true, at), nextId, h, k, true, at);
    } else if at :| q' == RowDeferred(q, k, true, at) && h' == Counted(h, k) {
      DeferKeepsTables(hashing, messages, q, nextId, h, k, true, at);
      CountKeepsTables(hashing, messages, q', nextId, h, k);
    }
  }

  /** A send leaves the tables sound. */
  lemma SendKeepsTables(
    hashing: Hashing, messages: Messages, nextId: nat, s: EgressSettings, w: World, k: Key, item: Row,
    env: Surroundings, m: nat)
    requires TablesValid(hashing, messages, w.queue, nextId, w.history)
    ensures var w' := SendResult(s, w, k, item, env, m).world;
            TablesValid(hashing, messages, w'.queue, nextId, w'.history)
  {
    var w' := SendResult(s, w, k, item, env, m).world;
    SendChanges(s, w, k, item, env, m);
    TableChangeKeeps(hashing, messages, nextId, w.queue, w.history, w'.queue, w'.history, k);
  }

  lemma SendKeepsNoEcho(
    messages: Messages, s: EgressSettings, w: World, k: Key, item: Row, env: Surroundings, m: nat)
    requires NoEcho(w.queue, messages)
    ensures NoEcho(SendResult(s, w, k, item, env, m).world.queue, messages)
  {
    var w' := SendResult(s, w, k, item, env, m).world;
    SendChanges(s, w, k, item, env, m);
    ChangeKeepsAddressees(w.queue, w.history, w'.queue, w'.history, k);
  }

  /** A send touches no row but its own. */
  lemma OtherRowsStay(s: EgressSettings, w: World, k: Key, item: Row, env: Surroundings, m: nat)
    ensures var q' := SendResult(s, w, k, item, env, m).world.queue;
      forall j | j != k :: (j in q' <==> j in w.queue) && (j in q' ==> q'[j] == w.queue[j])
  {
    SendChanges(s, w, k, item, env, m);
  }

  /** The client queues are as they were. */
  ghost predicate ClientRowsKept(q: Queue, q': Queue) {
    forall k: Key | !k.kind.Control? :: (k in q' <==> k in q) && (k in q' ==> q'[k] == q[k])
  }

  lemma SendKeepsStore(store: Store, s: EgressSettings, w: World, k: Key, item: Row, env: Surroundings, m: nat)
    requires w.queue == store.queue && w.history == store.history
    ensures var w' := SendResult(s, w, k, item, env, m).world;
      store.Valid() ==>
        && TablesValid(store.hashing, store.messages, w'.queue, store.nextId, w'.history)
        && NoEcho(w'.queue, store.messages)
  {
    if store.Valid() {
      SendKeepsTables(store.hashing, store.messages, store.nextId, s, w, k, item, env, m);
      SendKeepsNoEcho(store.messages, s, w, k, item, env, m);
    }
  }

  lemma CompletionKeepsStore(store: Store, k: Key)
    ensures store.Valid() && k in store.queue ==>
      && TablesValid(store.hashing, store.messages, store.queue - {k}, store.nextId, Ended(store.history, k, Delivered))
      && NoEcho(store.queue - {k}, store.messages)
    ensures k !in store.queue ==> store.queue - {k} == store.queue
  {
    if store.Valid() && k in store.queue {
      CompleteKeepsTables(store.hashing, store.messages, store.queue, store.nextId, store.history, k, Delivered);
    }
  }

  ghost predicate SameAddressees(q: Queue, q': Queue) {
    forall k | k in q' :: k in q && q'[k].recipient == q[k].recipient && q'[k].about == q[k].about
  }

  lemma ChangeKeepsAddressees(q: Queue, h: History, q': Queue, h': History, k: Key)
    requires TableChange(q, h, q', h', k)
    ensures SameAddressees(q, q')
  {
  }

  // -- the store's own transactions as steps of the machine --------------------------------

  /** Storing a message and fanning it out is one enqueue step. */
  lemma FanOutIsEnqueue(
    w: World, w': World, messages: Messages, nextId: nat, msgHash: Bytes, record: Record, recipients: seq<Bytes>,
    now: real)
    requires TablesFresh(w, nextId) && w.stored == messages.Keys && msgHash !in messages
    requires var f := FanOut(w.queue, nextId, record.group, msgHash, recipients, now);
      w' == w.(queue := f.queue, stored := messages[msgHash := record].Keys,
          history := AfterFanOut(w.history, w.queue, f.queue, msgHash))
    ensures OtherStep(w, w')
  {
    var f := FanOut(w.queue, nextId, record.group, msgHash, recipients, now);
    FanOutFrame(w.queue, nextId, record.group, msgHash, recipients, now);
    RowsAddedIsEnqueue(w, w', nextId, f, msgHash, record.group, recipients, now);
  }

  lemma RowsAddedIsEnqueue(
    w: World, w': World, nextId: nat, f: Filled, msgHash: Bytes, group: string, recipients: seq<Bytes>, now: real)
    requires TablesFresh(w, nextId) && AddedTo(w.queue, nextId, f, group, msgHash, recipients, now)
    requires w' == w.(queue := f.queue, stored := w.stored + {msgHash},
        history := AfterFanOut(w.history, w.queue, f.queue, msgHash))
    ensures OtherStep(w, w')
  {
    var added := map k | k in f.queue && k !in w.queue :: f.queue[k];
    var births := map k | k in added :: FannedOut(added[k].recipient, msgHash, Times(w.history.pruned, msgHash));
    forall k | k in added
      ensures k !in w.history.born && added[k].attempts == 0
    {
      assert AddedRow(f.queue[k], group, msgHash, recipients, now);
    }
    QueueSplits(w.queue, f.queue, added);
    BirthsSplit(w.history, w.queue, f.queue, msgHash, added, births);
    EnqueueIsStep(w, w', added, births, {msgHash});
  }

  lemma QueueSplits(q: Queue, q': Queue, added: Queue)
    requires forall k | k in q :: k in q' && q'[k] == q[k]
    requires added == map k | k in q' && k !in q :: q'[k]
    ensures q' == q + added
  {
  }

  lemma BirthsSplit(h: History, q: Queue, q': Queue, msgHash: Bytes, added: Queue, births: map<Key, Birth>)
    requires forall k | k in q :: k in h.born
    requires added == map k | k in q' && k !in q :: q'[k]
    requires births == map k | k in added :: FannedOut(added[k].recipient, msgHash, Times(h.pruned, msgHash))
    requires forall k | k in added :: k !in h.born
    ensures AfterFanOut(h, q, q', msgHash) == h.(born := h.born + births)
  {
  }

  /** Queueing hub-written text is one enqueue step. */
  lemma WritingIsEnqueue(w: World, w': World, nextId: nat, kind: Kind, row: Row)
    requires TablesFresh(w, nextId) && row.attempts == 0
    requires var k := Key(kind, nextId);
      w' == w.(queue := w.queue[k := row], history := w.history.(born := w.history.born[k := Written]))
    ensures OtherStep(w, w')
  {
    var k := Key(kind, nextId);
    AddedOne(w.queue, k, row);
    AddedOne(w.history.born, k, Written);
    var added, births := map[k := row], map[k := Written];
    assert w.stored + {} == w.stored;
    EnqueueIsStep(w, w', added, births, {});
  }

  lemma EnqueueIsStep(w: World, w': World, added: map<Key, Row>, births: map<Key, Birth>, stored: set<Bytes>)
    requires Enqueue(w, w', added, births, stored)
    ensures OtherStep(w, w')
  {
  }

  lemma AddedOne<T>(m: map<Key, T>, k: Key, v: T)
    ensures m[k := v] == m + map[k := v]
  {
  }

  ghost predicate TablesFresh(w: World, nextId: nat) {
    && FreshIds(w.queue, nextId)
    && (forall k | k in w.history.born :: k.id < nextId)
    && (forall k | k in w.queue :: k in w.history.born)
  }

  /** Pruning is one prune step. */
  lemma PruneIsStep(w: World, w': World, messages: Messages, olderThan: real)
    requires w.stored == messages.Keys && BornAccounted(w.queue, w.history)
    requires var kept := KeptMessages(messages, olderThan);
      w' == w.(queue := KeptRows(w.queue, kept), stored := kept.Keys,
               history := AfterPrune(w.history, messages, kept, w.queue, KeptRows(w.queue, kept)))
    ensures OtherStep(w, w')
  {
    var gone := w.stored - w'.stored;
    var rows := w.queue.Keys - w'.queue.Keys;
    KeptSplits(w.queue, KeptMessages(messages, olderThan));
    assert w'.stored == w.stored - gone;
    PruneFates(w.history, messages, KeptMessages(messages, olderThan), w.queue, w'.queue);
    assert Delivery.Prune(w, w', gone, rows, w'.history.pruned);
  }

  lemma KeptSplits(q: Queue, kept: Messages)
    ensures KeptRows(q, kept) == q - (q.Keys - KeptRows(q, kept).Keys)
    ensures forall k | k in q && k !in KeptRows(q, kept) :: q[k].about.Reflection? && q[k].about.msgHash !in kept
  {
  }

  lemma PruneFates(h: History, messages: Messages, messages': Messages, q: Queue, q': Queue)
    requires forall k | k in q :: k !in h.fate
    ensures AfterPrune(h, messages, messages', q, q').fate == h.fate + (map k | k in q.Keys - q'.Keys :: Pruned)
  {
  }
}
