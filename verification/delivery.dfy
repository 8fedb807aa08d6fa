/** Durable egress as a state machine: the queue tables on disk, what the scheduler and
    the router keep in memory, and every commit point a crash can fall between. The
    machine follows lxmf_hub/egress.py for all four queues; only their kind differs. */
module Delivery {
  import opened ByteStrings
  import opened Tables

  datatype Config = Config(maxAttempts: int, timeout: real)

  /** A row handed to the router: when to stop waiting, and which message it became. */
  datatype Flight = Flight(deadline: real, message: nat)

  /** Where the sending thread is, between the commits of one send: the row re-armed
      and counted, then marked in flight, then handed over. */
  datatype Stage = Idle | Armed(key: Key) | Marked(key: Key, message: nat)

  /** A message the router was given in this daemon's lifetime. `resolved` once a
      callback fired or the router raised. */
  datatype Copy = Copy(owner: Key, deadline: real, resolved: bool)

  /** Whether the control and directory channels run; fixed for a daemon's lifetime. */
  datatype Channels = Channels(control: bool, directory: bool)

  predicate ChannelOff(ch: Channels, k: Key, row: Row) {
    (k.kind.Control? && !ch.control) || (k.kind.Notice? && row.about.DirectoryText? && !ch.directory)
  }

  datatype World = World(
    now: real,
    channels: Channels,
    queue: Queue,
    stored: set<Bytes>,
    history: History,
    due: map<Key, Row>,
    inflight: map<Key, Flight>,
    pending: set<nat>,
    stage: Stage,
    copies: map<nat, Copy>)

  // -- single effects ------------------------------------------------------------

  function Defer(w: World, k: Key, counted: bool, at: real): World {
    w.(queue := RowDeferred(w.queue, k, counted, at))
  }

  function Complete(w: World, k: Key, reason: Fate): World {
    if k in w.queue then
      w.(queue := w.queue - {k}, history := Ended(w.history, k, reason))
    else w
  }

  function Release(w: World, k: Key): World {
    w.(inflight := w.inflight - {k})
  }

  function Taken(w: World, k: Key): World {
    w.(due := w.due - {k})
  }

  // -- steps of the scheduler thread -----------------------------------------------

  /** A batch of due rows is read. */
  ghost predicate Query(w: World, w': World, batch: map<Key, Row>) {
    && w.stage.Idle?
    && (forall k | k in batch :: k in w.queue && batch[k] == w.queue[k])
    && w' == w.(due := batch)
  }

  /** The row's earlier copy is still inside its timeout: leave it. */
  ghost predicate SkipInFlight(w: World, w': World, k: Key) {
    w.stage.Idle? && k in w.due && k in w.inflight && w' == Taken(w, k)
  }

  /** Past the timeout, but the router still carries the message: wait again. */
  ghost predicate Extend(c: Config, w: World, w': World, k: Key) {
    && w.stage.Idle? && k in w.inflight
    && w.inflight[k].deadline <= w.now && w.inflight[k].message in w.pending
    && var m := w.inflight[k].message;
       var deadline := w.now + c.timeout;
       w' == w.(inflight := w.inflight[k := Flight(deadline, m)],
                copies := if m in w.copies then w.copies[m := w.copies[m].(deadline := deadline)] else w.copies)
  }

  /** Past the timeout and no longer with the router: taken for lost. */
  ghost predicate Expire(w: World, w': World, k: Key) {
    && w.stage.Idle? && k in w.inflight
    && w.inflight[k].deadline <= w.now && w.inflight[k].message !in w.pending
    && w' == Release(w, k)
  }

  /** The send finds nothing left to deliver: the message was pruned, the attempts are
      spent, or the channel the row belongs to is switched off. */
  ghost predicate GiveUp(c: Config, w: World, w': World, k: Key, reason: Fate) {
    && w.stage.Idle? && k in w.due && k !in w.inflight
    && ((reason == Pruned && w.due[k].about.Reflection? && w.due[k].about.msgHash !in w.stored)
        || (reason == Abandoned(w.due[k].attempts) && w.due[k].attempts >= c.maxAttempts)
        || (reason == Obsolete && ChannelOff(w.channels, k, w.due[k])))
    && w' == Taken(Complete(w, k, reason), k)
  }

  /** No path or no attached group yet: a grace, which is not an attempt. */
  ghost predicate Grace(w: World, w': World, k: Key, at: real) {
    w.stage.Idle? && k in w.due && k !in w.inflight && w' == Taken(Defer(w, k, false, at), k)
  }

  /** The message could not be built: an attempt spent without a handoff. */
  ghost predicate FailBuild(w: World, w': World, k: Key, at: real) {
    w.stage.Idle? && k in w.due && k !in w.inflight && w' == Taken(Defer(w, k, true, at), k)
  }

  /** The counted deferral that commits before the handoff. */
  ghost predicate Arm(c: Config, w: World, w': World, k: Key, at: real) {
    && w.stage.Idle? && k in w.due && k !in w.inflight
    && w.due[k].attempts < c.maxAttempts
    && w' == Taken(Defer(w, k, true, at), k).(stage := Armed(k))
  }

  ghost predicate FreshMessage(w: World, m: nat) {
    m !in w.copies && m !in w.pending && forall k | k in w.inflight :: w.inflight[k].message != m
  }

  ghost predicate Mark(c: Config, w: World, w': World, m: nat) {
    && w.stage.Armed? && FreshMessage(w, m)
    && w' == w.(inflight := w.inflight[w.stage.key := Flight(w.now + c.timeout, m)], stage := Marked(w.stage.key, m))
  }

  /** The router takes the message, and holds it or drops it. */
  ghost predicate HandOff(w: World, w': World, held: bool) {
    && w.stage.Marked? && w.stage.key in w.inflight
    && var k, m := w.stage.key, w.stage.message;
       w' == w.(stage := Idle, history := Counted(w.history, k),
                copies := w.copies[m := Copy(k, w.inflight[k].deadline, false)],
                pending := if held then w.pending + {m} else w.pending)
  }

  /** The router raises: neither callback will come, so the row is released at once. */
  ghost predicate RouterRaises(w: World, w': World) {
    && w.stage.Marked? && w.stage.key in w.inflight
    && var k, m := w.stage.key, w.stage.message;
       w' == Release(w, k).(stage := Idle, history := Counted(w.history, k),
                            copies := w.copies[m := Copy(k, w.inflight[k].deadline, true)])
  }

  /** Something between marking and handing over raises. The client queues leave the
      row in flight; the control loop releases and defers it once more. */
  ghost predicate SeedRaises(w: World, w': World, at: real) {
    && w.stage.Marked?
    && var k := w.stage.key;
       w' == if k.kind.Control? then Defer(Release(w, k), k, true, at).(stage := Idle) else w.(stage := Idle)
  }

  // -- everybody else ----------------------------------------------------------------

  ghost predicate TimePasses(w: World, w': World, t: real) {
    t >= w.now && w' == w.(now := t)
  }

  /** A new row, or several, under ids never used before. */
  ghost predicate Enqueue(w: World, w': World, added: map<Key, Row>, births: map<Key, Birth>, stored: set<Bytes>) {
    && added.Keys == births.Keys
    && (forall k | k in added :: k !in w.history.born && added[k].attempts == 0)
    && w' == w.(queue := w.queue + added, stored := w.stored + stored,
                history := w.history.(born := w.history.born + births))
  }

  /** Messages age out, and the rows that referred to them go in the same commit. */
  ghost predicate Prune(w: World, w': World, gone: set<Bytes>, rows: set<Key>, counts: map<Bytes, nat>) {
    && (forall k | k in rows ::
          k in w.queue && w.queue[k].about.Reflection? && w.queue[k].about.msgHash !in w.stored - gone)
    && w' == w.(stored := w.stored - gone, queue := w.queue - rows,
                history := w.history.(fate := w.history.fate + (map k | k in rows :: Pruned), pruned := counts))
  }

  /** A callback, which comes at most once and only for a message the router holds. */
  ghost predicate Callback(w: World, w': World, m: nat, delivered: bool) {
    && m in w.pending && m in w.copies
    && var k := w.copies[m].owner;
       var released := Release(w, k).(pending := w.pending - {m},
           copies := w.copies[m := w.copies[m].(resolved := true)]);
       w' == if delivered then Complete(released, k, Delivered) else released
  }

  /** The router lets go of a message without calling back. */
  ghost predicate RouterDrops(w: World, w': World, m: nat) {
    m in w.pending && w' == w.(pending := w.pending - {m})
  }

  /** The daemon dies, at any point, and restarts with what was committed, perhaps under
      another configuration of its channels. */
  ghost predicate Crash(w: World, w': World, t: real, channels: Channels) {
    t >= w.now &&
    w' == w.(now := t, channels := channels, due := map[], inflight := map[], pending := {}, stage := Idle,
        copies := map[])
  }

  ghost predicate SchedulerStep(c: Config, w: World, w': World) {
    || (exists batch :: Query(w, w', batch))
    || (exists k :: SkipInFlight(w, w', k))
    || (exists k :: Extend(c, w, w', k))
    || (exists k :: Expire(w, w', k))
    || (exists k, reason :: GiveUp(c, w, w', k, reason))
    || (exists k, at :: Grace(w, w', k, at))
    || (exists k, at :: FailBuild(w, w', k, at))
    || (exists k, at :: Arm(c, w, w', k, at))
    || (exists m :: Mark(c, w, w', m))
    || (exists held :: HandOff(w, w', held))
    || RouterRaises(w, w')
    || (exists at :: SeedRaises(w, w', at))
    || (exists t :: TimePasses(w, w', t))
  }

  ghost predicate OtherStep(w: World, w': World) {
    || (exists added, births, stored :: Enqueue(w, w', added, births, stored))
    || (exists gone, rows, counts :: Prune(w, w', gone, rows, counts))
    || (exists m, delivered :: Callback(w, w', m, delivered))
    || (exists m :: RouterDrops(w, w', m))
    || (exists t, channels :: Crash(w, w', t, channels))
  }

  ghost predicate Step(c: Config, w: World, w': World) {
    SchedulerStep(c, w, w') || OtherStep(w, w')
  }

  ghost predicate Initial(w: World) {
    && w.queue == map[] && w.stored == {} && w.history == History(map[], map[], map[], map[])
    && w.due == map[] && w.inflight == map[] && w.pending == {} && w.stage == Idle && w.copies == map[]
  }

  ghost predicate StepAt(c: Config, run: seq<World>, n: nat)
    requires n < |run| - 1
  {
    Step(c, run[n], run[n + 1])
  }

  ghost predicate Run(c: Config, run: seq<World>) {
    && |run| > 0 && Initial(run[0])
    && forall n: nat | n < |run| - 1 :: StepAt(c, run, n)
  }

  // -- invariants -----------------------------------------------------------------------

  /** Every row ever created is queued or has met its fate, never both. */
  ghost predicate Accounted(w: World) {
    && (forall k :: k in w.history.born <==> k in w.queue || k in w.history.fate)
    && (forall k :: !(k in w.queue && k in w.history.fate))
    && (forall k | k in w.due :: k in w.history.born)
  }

  /** Handoffs never outrun the attempts committed to disk, nor the maximum; a send in
      progress has already paid for the handoff to come. */
  ghost predicate Budgeted(c: Config, w: World) {
    && (forall k | k in w.history.handoffs :: w.history.handoffs[k] <= c.maxAttempts)
    && (forall k | k in w.queue :: Times(w.history.handoffs, k) <= w.queue[k].attempts)
    && (forall k | k in w.due :: Times(w.history.handoffs, k) <= w.due[k].attempts)
    && (forall k | k in w.due && k in w.queue :: w.due[k] == w.queue[k])
    && (forall k | k in w.history.handoffs :: k in w.history.born)
    && (!w.stage.Idle? ==>
          var k := w.stage.key;
          && k in w.history.born && k !in w.due
          && Times(w.history.handoffs, k) + 1 <= c.maxAttempts
          && (k in w.queue ==> Times(w.history.handoffs, k) + 1 <= w.queue[k].attempts))
  }

  /** An unresolved copy inside its timeout or with the router is the one on record
      for its row. */
  ghost predicate Alive(w: World, m: nat) {
    m in w.copies && !w.copies[m].resolved && (m in w.pending || w.copies[m].deadline > w.now)
  }

  ghost predicate FlightsTracked(w: World) {
    && (forall m | Alive(w, m) ::
          var k := w.copies[m].owner; k in w.inflight && w.inflight[k] == Flight(w.copies[m].deadline, m))
    && (forall m | m in w.pending :: m in w.copies && !w.copies[m].resolved)
    && (forall k | k in w.inflight && w.inflight[k].message in w.copies :: w.copies[w.inflight[k].message].owner == k)
    && (w.stage.Armed? ==> w.stage.key !in w.inflight)
    && (w.stage.Marked? ==>
          && w.stage.message !in w.copies
          && (forall k | k in w.inflight :: w.inflight[k].message == w.stage.message <==> k == w.stage.key)
          && w.stage.key in w.inflight)
  }

  ghost predicate Inv(c: Config, w: World) {
    Accounted(w) && Budgeted(c, w) && FlightsTracked(w)
  }

  lemma SchedulerKeepsInv(c: Config, w: World, w': World)
    requires Inv(c, w) && SchedulerStep(c, w, w')
    ensures Inv(c, w')
  {
    if batch :| Query(w, w', batch) {
      QueryKeeps(c, w, w', batch);
    } else if k :| SkipInFlight(w, w', k) {
      SkipKeeps(c, w, w', k);
    } else if k :| Extend(c, w, w', k) {
      ExtendKeeps(c, w, w', k);
    } else if k :| Expire(w, w', k) {
      ReleaseKeeps(c, w, w', k);
    } else if k, reason :| GiveUp(c, w, w', k, reason) {
      GiveUpKeeps(c, w, w', k, reason);
    } else if k, at :| Grace(w, w', k, at) {
      DeferKeeps(c, w, w', k, false, at);
    } else if k, at :| FailBuild(w, w', k, at) {
      DeferKeeps(c, w, w', k, true, at);
    } else if k, at :| Arm(c, w, w', k, at) {
      ArmKeeps(c, w, w', k, at);
    } else if m :| Mark(c, w, w', m) {
      MarkKeeps(c, w, w', m);
    } else if held :| HandOff(w, w', held) {
      HandOffKeeps(c, w, w', held);
    } else if RouterRaises(w, w') {
      RaiseKeeps(c, w, w');
    } else if at :| SeedRaises(w, w', at) {
      SeedKeeps(c, w, w', at);
    } else {
      var t :| TimePasses(w, w', t);
      TimeKeeps(c, w, w', t);
    }
  }

  /** Nothing about copies, flights or the clock has moved. */
  ghost predicate SameFlights(w: World, w': World) {
    w'.copies == w.copies && w'.inflight == w.inflight && w'.pending == w.pending && w'.now == w.now
  }

  lemma FlightsKeep(w: World, w': World)
    requires FlightsTracked(w) && SameFlights(w, w')
    requires w'.stage == w.stage || w'.stage.Idle? || (w'.stage.Armed? && w'.stage.key !in w.inflight)
    ensures FlightsTracked(w')
  {
    forall m | Alive(w', m)
      ensures Alive(w, m)
    {
    }
  }

  lemma QueryKeeps(c: Config, w: World, w': World, batch: map<Key, Row>)
    requires Inv(c, w) && Query(w, w', batch)
    ensures Inv(c, w')
  {
    FlightsKeep(w, w');
  }

  lemma SkipKeeps(c: Config, w: World, w': World, k: Key)
    requires Inv(c, w) && SkipInFlight(w, w', k)
    ensures Inv(c, w')
  {
    FlightsKeep(w, w');
  }

  lemma GiveUpKeeps(c: Config, w: World, w': World, k: Key, reason: Fate)
    requires Inv(c, w) && GiveUp(c, w, w', k, reason)
    ensures Inv(c, w')
  {
    GiveUpBudget(c, w, w', k, reason);
    FlightsKeep(w, w');
  }

  lemma GiveUpBudget(c: Config, w: World, w': World, k: Key, reason: Fate)
    requires Accounted(w) && Budgeted(c, w) && w.stage.Idle? && k in w.due
    requires w' == Taken(Complete(w, k, reason), k)
    ensures Accounted(w') && Budgeted(c, w')
  {
    CompleteBudget(c, w, k, reason);
    TakenBudget(c, Complete(w, k, reason), k);
  }

  lemma CompleteBudget(c: Config, w: World, k: Key, reason: Fate)
    requires Accounted(w) && Budgeted(c, w)
    ensures Accounted(Complete(w, k, reason)) && Budgeted(c, Complete(w, k, reason))
  {
  }

  lemma TakenBudget(c: Config, w: World, k: Key)
    requires Accounted(w) && Budgeted(c, w)
    ensures Accounted(Taken(w, k)) && Budgeted(c, Taken(w, k))
  {
  }

  lemma DeferKeeps(c: Config, w: World, w': World, k: Key, counted: bool, at: real)
    requires Inv(c, w) && w.stage.Idle? && w' == Taken(Defer(w, k, counted, at), k)
    ensures Inv(c, w')
  {
    FlightsKeep(w, w');
  }

  lemma ArmKeeps(c: Config, w: World, w': World, k: Key, at: real)
    requires Inv(c, w) && Arm(c, w, w', k, at)
    ensures Inv(c, w')
  {
    FlightsKeep(w, w');
    assert k in w.history.born;
  }

  lemma TimeKeeps(c: Config, w: World, w': World, t: real)
    requires Inv(c, w) && TimePasses(w, w', t)
    ensures Inv(c, w')
  {
    forall m | Alive(w', m)
      ensures Alive(w, m)
    {
    }
  }

  lemma ExtendKeeps(c: Config, w: World, w': World, k: Key)
    requires Inv(c, w) && Extend(c, w, w', k)
    ensures Inv(c, w')
  {
    forall m | Alive(w', m)
      ensures w'.copies[m].owner in w'.inflight && w'.inflight[w'.copies[m].owner] == Flight(w'.copies[m].deadline, m)
    {
      assert m != w.inflight[k].message ==> Alive(w, m);
      assert Alive(w, w.inflight[k].message);
    }
  }

  lemma ReleaseKeeps(c: Config, w: World, w': World, k: Key)
    requires Inv(c, w) && Expire(w, w', k)
    ensures Inv(c, w')
  {
    forall m | Alive(w', m)
      ensures w'.copies[m].owner in w'.inflight && w'.inflight[w'.copies[m].owner] == Flight(w'.copies[m].deadline, m)
    {
      assert Alive(w, m);
    }
  }

  lemma MarkKeeps(c: Config, w: World, w': World, m: nat)
    requires Inv(c, w) && Mark(c, w, w', m)
    ensures Inv(c, w')
  {
    forall n | Alive(w', n)
      ensures w'.copies[n].owner in w'.inflight && w'.inflight[w'.copies[n].owner] == Flight(w'.copies[n].deadline, n)
    {
      assert Alive(w, n);
    }
  }

  lemma HandOffKeeps(c: Config, w: World, w': World, held: bool)
    requires Inv(c, w) && HandOff(w, w', held)
    ensures Inv(c, w')
  {
    HandedBudget(c, w, w', held);
    forall n | Alive(w', n)
      ensures w'.copies[n].owner in w'.inflight && w'.inflight[w'.copies[n].owner] == Flight(w'.copies[n].deadline, n)
    {
      assert n != w.stage.message ==> Alive(w, n);
    }
  }

  lemma HandedBudget(c: Config, w: World, w': World, held: bool)
    requires Accounted(w) && Budgeted(c, w) && HandOff(w, w', held)
    ensures Accounted(w') && Budgeted(c, w')
  {
  }

  lemma RaiseKeeps(c: Config, w: World, w': World)
    requires Inv(c, w) && RouterRaises(w, w')
    ensures Inv(c, w')
  {
    RaiseBudget(c, w, w');
    forall n | Alive(w', n)
      ensures w'.copies[n].owner in w'.inflight && w'.inflight[w'.copies[n].owner] == Flight(w'.copies[n].deadline, n)
    {
      assert Alive(w, n);
    }
  }

  lemma RaiseBudget(c: Config, w: World, w': World)
    requires Accounted(w) && Budgeted(c, w) && RouterRaises(w, w')
    ensures Accounted(w') && Budgeted(c, w')
  {
  }

  lemma SeedKeeps(c: Config, w: World, w': World, at: real)
    requires Inv(c, w) && SeedRaises(w, w', at)
    ensures Inv(c, w')
  {
    SeedBudget(c, w, w', at);
    if w.stage.key.kind.Control? {
      SeedReleases(w, w');
    } else {
      FlightsKeep(w, w');
    }
  }

  lemma SeedBudget(c: Config, w: World, w': World, at: real)
    requires Accounted(w) && Budgeted(c, w) && SeedRaises(w, w', at)
    ensures Accounted(w') && Budgeted(c, w')
  {
  }

  lemma SeedReleases(w: World, w': World)
    requires FlightsTracked(w) && w.stage.Marked?
    requires w'.copies == w.copies && w'.pending == w.pending && w'.now == w.now && w'.stage.Idle?
    requires w'.inflight == w.inflight - {w.stage.key}
    ensures FlightsTracked(w')
  {
    forall n | Alive(w', n)
      ensures w'.copies[n].owner in w'.inflight && w'.inflight[w'.copies[n].owner] == Flight(w'.copies[n].deadline, n)
    {
      assert Alive(w, n);
    }
  }

  lemma OthersKeepInv(c: Config, w: World, w': World)
    requires Inv(c, w) && OtherStep(w, w')
    ensures Inv(c, w')
  {
    if added, births, stored :| Enqueue(w, w', added, births, stored) {
      EnqueueKeeps(c, w, w', added, births, stored);
    } else if gone, rows, counts :| Prune(w, w', gone, rows, counts) {
      PruneKeeps(c, w, w', gone, rows, counts);
    } else if m, delivered :| Callback(w, w', m, delivered) {
      CallbackKeeps(c, w, w', m, delivered);
    } else if m :| RouterDrops(w, w', m) {
      DropKeeps(c, w, w', m);
    } else {
      var t, channels :| Crash(w, w', t, channels);
      CrashKeeps(c, w, w', t, channels);
    }
  }

  lemma EnqueueKeeps(c: Config, w: World, w': World, added: map<Key, Row>, births: map<Key, Birth>, stored: set<Bytes>)
    requires Inv(c, w) && Enqueue(w, w', added, births, stored)
    ensures Inv(c, w')
  {
    EnqueueBudget(c, w, w', added, births, stored);
    FlightsKeep(w, w');
  }

  lemma EnqueueBudget(c: Config, w: World, w': World, added: map<Key, Row>, births: map<Key, Birth>, stored: set<Bytes>)
    requires Accounted(w) && Budgeted(c, w) && Enqueue(w, w', added, births, stored)
    ensures Accounted(w') && Budgeted(c, w')
  {
  }

  lemma PruneKeeps(c: Config, w: World, w': World, gone: set<Bytes>, rows: set<Key>, counts: map<Bytes, nat>)
    requires Inv(c, w) && Prune(w, w', gone, rows, counts)
    ensures Inv(c, w')
  {
    FlightsKeep(w, w');
  }

  lemma DropKeeps(c: Config, w: World, w': World, m: nat)
    requires Inv(c, w) && RouterDrops(w, w', m)
    ensures Inv(c, w')
  {
    forall n | Alive(w', n)
      ensures Alive(w, n)
    {
    }
  }

  lemma CrashKeeps(c: Config, w: World, w': World, t: real, channels: Channels)
    requires Inv(c, w) && Crash(w, w', t, channels)
    ensures Inv(c, w')
  {
  }

  lemma CallbackKeeps(c: Config, w: World, w': World, m: nat, delivered: bool)
    requires Inv(c, w) && Callback(w, w', m, delivered)
    ensures Inv(c, w')
  {
    CallbackBudget(c, w, w', m, delivered);
    assert Alive(w, m);
    forall n | Alive(w', n)
      ensures w'.copies[n].owner in w'.inflight && w'.inflight[w'.copies[n].owner] == Flight(w'.copies[n].deadline, n)
    {
      assert Alive(w, n);
    }
  }

  lemma CallbackBudget(c: Config, w: World, w': World, m: nat, delivered: bool)
    requires Accounted(w) && Budgeted(c, w) && Callback(w, w', m, delivered)
    ensures Accounted(w') && Budgeted(c, w')
  {
  }

  lemma StepKeepsInv(c: Config, w: World, w': World)
    requires Inv(c, w) && Step(c, w, w')
    ensures Inv(c, w')
  {
    if SchedulerStep(c, w, w') {
      SchedulerKeepsInv(c, w, w');
    } else {
      OthersKeepInv(c, w, w');
    }
  }

  lemma {:induction false} RunKeepsInv(c: Config, run: seq<World>, n: nat)
    requires Run(c, run) && n < |run|
    ensures Inv(c, run[n])
  {
    if n > 0 {
      RunKeepsInv(c, run, n - 1);
      assert StepAt(c, run, n - 1);
      StepKeepsInv(c, run[n - 1], run[n]);
    }
  }

  // -- conservation -----------------------------------------------------------------

  /** Why a row was taken off its table in one step. */
  ghost predicate LeftBecause(c: Config, w: World, w': World, k: Key, reason: Fate) {
    && k in w.queue && k !in w'.queue
    && match reason
       case Delivered => exists m :: m in w.pending && m in w.copies && w.copies[m].owner == k && !w.copies[m].resolved
       case Abandoned(n) => n == w.queue[k].attempts && n >= c.maxAttempts
       case Pruned => w.queue[k].about.Reflection? && w.queue[k].about.msgHash !in w'.stored
       case Obsolete => ChannelOff(w.channels, k, w.queue[k])
  }

  /** Of the scheduler's own steps only giving up touches a row's record. */
  lemma OnlyGivingUpEndsRows(c: Config, w: World, w': World)
    requires SchedulerStep(c, w, w')
    requires forall k, reason :: !GiveUp(c, w, w', k, reason)
    ensures w'.history.born == w.history.born && w'.history.fate == w.history.fate
  {
    if batch :| Query(w, w', batch) {
    } else if k :| SkipInFlight(w, w', k) {
    } else if k :| Extend(c, w, w', k) {
    } else if k :| Expire(w, w', k) {
    } else if k, at :| Grace(w, w', k, at) {
    } else if k, at :| FailBuild(w, w', k, at) {
    } else if k, at :| Arm(c, w, w', k, at) {
    } else if m :| Mark(c, w, w', m) {
    } else if held :| HandOff(w, w', held) {
    } else if RouterRaises(w, w') {
    } else if at :| SeedRaises(w, w', at) {
    } else {
      var t :| TimePasses(w, w', t);
    }
  }

  lemma SchedulerStepConserves(c: Config, w: World, w': World, k: Key)
    requires Inv(c, w) && SchedulerStep(c, w, w')
    ensures k in w.history.fate ==> k in w'.history.fate && w'.history.fate[k] == w.history.fate[k]
    ensures k in w'.history.fate && k !in w.history.fate ==> LeftBecause(c, w, w', k, w'.history.fate[k])
    ensures w'.history.born == w.history.born
  {
    if j, reason :| GiveUp(c, w, w', j, reason) {
      GivingUpConserves(c, w, w', k, j, reason);
    } else {
      OnlyGivingUpEndsRows(c, w, w');
    }
  }

  lemma GivingUpConserves(c: Config, w: World, w': World, k: Key, j: Key, reason: Fate)
    requires Inv(c, w) && GiveUp(c, w, w', j, reason)
    ensures k in w.history.fate ==> k in w'.history.fate && w'.history.fate[k] == w.history.fate[k]
    ensures k in w'.history.fate && k !in w.history.fate ==> LeftBecause(c, w, w', k, w'.history.fate[k])
    ensures w'.history.born == w.history.born
  {
    assert j in w.queue ==> w.due[j] == w.queue[j];
  }

  lemma OtherStepConserves(c: Config, w: World, w': World, k: Key)
    requires Inv(c, w) && OtherStep(w, w')
    ensures k in w.history.born ==> k in w'.history.born
    ensures k in w.history.fate ==> k in w'.history.fate && w'.history.fate[k] == w.history.fate[k]
    ensures k in w'.history.fate && k !in w.history.fate ==> LeftBecause(c, w, w', k, w'.history.fate[k])
  {
    if m, delivered :| Callback(w, w', m, delivered) {
      CallbackConserves(c, w, w', k, m, delivered);
    } else if gone, rows, counts :| Prune(w, w', gone, rows, counts) {
      PruneConserves(c, w, w', k, gone, rows, counts);
    } else if added, births, stored :| Enqueue(w, w', added, births, stored) {
      EnqueueConserves(w, w', k, added, births, stored);
    }
  }

  lemma EnqueueConserves(
    w: World, w': World, k: Key, added: map<Key, Row>, births: map<Key, Birth>, stored: set<Bytes>)
    requires Enqueue(w, w', added, births, stored)
    ensures w'.history.fate == w.history.fate && (k in w.history.born ==> k in w'.history.born)
  {
  }

  lemma CallbackConserves(c: Config, w: World, w': World, k: Key, m: nat, delivered: bool)
    requires Inv(c, w) && Callback(w, w', m, delivered)
    ensures w'.history.born == w.history.born
    ensures k in w.history.fate ==> k in w'.history.fate && w'.history.fate[k] == w.history.fate[k]
    ensures k in w'.history.fate && k !in w.history.fate ==> LeftBecause(c, w, w', k, w'.history.fate[k])
  {
    assert k in w'.history.fate && k !in w.history.fate ==> k == w.copies[m].owner;
  }

  lemma PruneConserves(
    c: Config, w: World, w': World, k: Key, gone: set<Bytes>, rows: set<Key>, counts: map<Bytes, nat>)
    requires Accounted(w) && Prune(w, w', gone, rows, counts)
    ensures w'.history.born == w.history.born
    ensures k in w.history.fate ==> k in w'.history.fate && w'.history.fate[k] == w.history.fate[k]
    ensures k in w'.history.fate && k !in w.history.fate ==> LeftBecause(c, w, w', k, w'.history.fate[k])
  {
    assert k in rows ==> k in w.queue && k !in w.history.fate;
  }

  lemma StepConserves(c: Config, w: World, w': World, k: Key)
    requires Inv(c, w) && Step(c, w, w')
    ensures k in w.history.born ==> k in w'.history.born
    ensures k in w.history.fate ==> k in w'.history.fate
    ensures FateKept(c, w, w', k)
  {
    if SchedulerStep(c, w, w') {
      SchedulerStepConserves(c, w, w', k);
    } else {
      OtherStepConserves(c, w, w', k);
    }
  }

  ghost predicate LeftAt(c: Config, run: seq<World>, i: nat, k: Key, reason: Fate)
    requires i < |run| - 1
  {
    LeftBecause(c, run[i], run[i + 1], k, reason)
  }

  ghost predicate LeftBefore(c: Config, run: seq<World>, n: nat, k: Key, reason: Fate)
    requires n < |run|
  {
    exists i: nat :: i < n && LeftAt(c, run, i, k, reason)
  }

  ghost predicate FateKept(c: Config, w: World, w': World, k: Key) {
    k in w'.history.fate ==>
      || (k in w.history.fate && w.history.fate[k] == w'.history.fate[k])
      || LeftBecause(c, w, w', k, w'.history.fate[k])
  }

  lemma RunStep(c: Config, run: seq<World>, n: nat)
    requires Run(c, run) && n < |run| - 1
    ensures Inv(c, run[n]) && Step(c, run[n], run[n + 1])
  {
    RunKeepsInv(c, run, n);
    assert StepAt(c, run, n);
  }

  lemma FateStep(c: Config, run: seq<World>, n: nat, k: Key)
    requires Run(c, run) && n < |run| - 1
    ensures FateKept(c, run[n], run[n + 1], k)
    ensures k in run[n].history.born ==> k in run[n + 1].history.born
  {
    RunStep(c, run, n);
    StepConserves(c, run[n], run[n + 1], k);
  }

  lemma {:induction false} FateExplained(c: Config, run: seq<World>, n: nat, k: Key)
    requires Run(c, run) && n < |run|
    requires k in run[n].history.fate
    ensures LeftBefore(c, run, n, k, run[n].history.fate[k])
  {
    if n > 0 {
      FateStep(c, run, n - 1, k);
      if !LeftAt(c, run, n - 1, k, run[n].history.fate[k]) {
        FateExplained(c, run, n - 1, k);
        var i: nat :| i < n - 1 && LeftAt(c, run, i, k, run[n - 1].history.fate[k]);
        assert LeftAt(c, run, i, k, run[n].history.fate[k]);
      }
    }
  }

  /** Row conservation over any run, crashes at any point included: a row once created
      is either still queued, or left its table in some step for the reason recorded:
      its delivery callback, its attempts spent, its message pruned, or its channel
      switched off. */
  lemma RowsConserved(c: Config, run: seq<World>, i: nat, n: nat, k: Key)
    requires Run(c, run) && i <= n < |run|
    requires k in run[i].history.born
    ensures k in run[n].queue <==> k !in run[n].history.fate
    ensures k in run[n].history.fate ==> LeftBefore(c, run, n, k, run[n].history.fate[k])
  {
    RunKeepsInv(c, run, n);
    BornStays(c, run, i, n, k);
    if k in run[n].history.fate {
      FateExplained(c, run, n, k);
    }
  }

  /** A row whose channel runs in every state of a run never ends as obsolete. */
  lemma RunningChannelKeepsRows(c: Config, run: seq<World>, i: nat, n: nat, k: Key)
    requires Run(c, run) && i <= n < |run| && k in run[i].history.born
    requires forall j, row: Row | 0 <= j < |run| :: !ChannelOff(run[j].channels, k, row)
    ensures k in run[n].history.fate ==> run[n].history.fate[k] != Obsolete
  {
    RowsConserved(c, run, i, n, k);
    forall j: nat | j < n
      ensures !LeftAt(c, run, j, k, Obsolete)
    {
    }
  }

  lemma {:induction false} BornStays(c: Config, run: seq<World>, i: nat, n: nat, k: Key)
    requires Run(c, run) && i <= n < |run|
    requires k in run[i].history.born
    ensures k in run[n].history.born
    decreases n
  {
    if i < n {
      BornStays(c, run, i, n - 1, k);
      FateStep(c, run, n - 1, k);
    }
  }

  // -- one copy at a time --------------------------------------------------------------

  /** The router is given the message in hand, whatever it makes of it. */
  ghost predicate HandedOver(w: World, w': World) {
    RouterRaises(w, w') || HandOff(w, w', true) || HandOff(w, w', false)
  }

  lemma MarkedMeansClear(w: World, m: nat)
    requires FlightsTracked(w) && w.stage.Marked?
    ensures !(Alive(w, m) && w.copies[m].owner == w.stage.key)
  {
  }

  /** Whenever the router is given a message for a row, no earlier copy of that row from
      this daemon's lifetime is unresolved and inside its timeout or with the router. */
  lemma NoSecondCopy(c: Config, run: seq<World>, n: nat, m: nat)
    requires Run(c, run) && n < |run| - 1
    requires HandedOver(run[n], run[n + 1])
    requires m in run[n].copies && run[n].copies[m].owner == run[n].stage.key && !run[n].copies[m].resolved
    ensures m !in run[n].pending && run[n].copies[m].deadline <= run[n].now
  {
    RunKeepsInv(c, run, n);
    MarkedMeansClear(run[n], m);
  }

  // -- the attempt budget ----------------------------------------------------------------

  /** Across any number of crashes a row is handed to the router at most max_attempts
      times, and never more often than the attempts committed for it. */
  lemma HandoffBudget(c: Config, run: seq<World>, n: nat, k: Key)
    requires Run(c, run) && n < |run|
    ensures Times(run[n].history.handoffs, k) <= (if c.maxAttempts >= 0 then c.maxAttempts else 0)
    ensures k in run[n].queue ==> Times(run[n].history.handoffs, k) <= run[n].queue[k].attempts
  {
    RunKeepsInv(c, run, n);
  }
}
