/** What one send of lxmf_hub/egress.py does, branch by branch, as a function, and that
    it is a path of steps of the delivery machine. A crash can fall after any step of
    the path, so whatever the machine keeps, an interrupted send keeps too. */
module Sending {
  import opened Wrappers
  import opened ByteStrings
  import opened Merkle
  import opened Tables
  import opened Delivery
  import opened TokenBuckets

  datatype EgressSettings = EgressSettings(
    maxAttempts: int, timeout: real, retryBackoff: real, retryMax: real, pathGrace: real)
  {
    function Limits(): Config {
      Config(maxAttempts, timeout)
    }

    function Backoff(attempts: nat): real {
      Doubling(retryBackoff, attempts, retryMax)
    }

    function GraceWait(graces: nat): real {
      Doubling(pathGrace, if graces <= 16 then graces else 16, retryMax)
    }
  }

  /** A wait doubled so many times, under the retry ceiling. */
  function Doubling(base: real, times: nat, ceiling: real): real {
    Min(base * Pow2(times) as real, ceiling)
  }

  datatype Router = Holds | Drops | Raises

  /** What a send finds around it: the group attached, the recipient's identity known,
      the message buildable, the ticket seeding and the router's reaction. */
  datatype Surroundings = Surroundings(attached: bool, identity: bool, built: bool, seeded: bool, router: Router)

  /** `onAir` is what the send returns, `raised` an exception that leaves it, `handed`
      whether the router was given a message. */
  datatype Sent = Sent(world: World, onAir: bool, raised: bool, handed: bool)

  // -- the in-flight check -----------------------------------------------------------

  predicate Busy(w: World, k: Key) {
    k in w.inflight && (w.inflight[k].deadline > w.now || w.inflight[k].message in w.pending)
  }

  /** `_in_flight` also renews a timeout the router outlived and drops a lost entry. */
  function Checked(c: Config, w: World, k: Key): World {
    if k !in w.inflight || w.inflight[k].deadline > w.now then w
    else
      var m := w.inflight[k].message;
      var deadline := w.now + c.timeout;
      if m in w.pending then
        w.(inflight := w.inflight[k := Flight(deadline, m)],
           copies := if m in w.copies then w.copies[m := w.copies[m].(deadline := deadline)] else w.copies)
      else Release(w, k)
  }

  // -- the send ----------------------------------------------------------------------

  predicate NeedsGroup(k: Key, item: Row) {
    k.kind.Egress? || k.kind.User? || (k.kind.Notice? && !item.about.DirectoryText?)
  }

  predicate MessageGone(w: World, k: Key, item: Row) {
    k.kind.Egress? && item.about.Reflection? && item.about.msgHash !in w.stored
  }

  /** Why a send ends the row instead of sending it, in the order the source looks: the
      control channel and a reflection's message before the attempts, the directory
      after them. */
  function Ending(s: EgressSettings, w: World, k: Key, item: Row): Option<Fate> {
    if MessageGone(w, k, item) then Some(Pruned)
    else if k.kind.Control? && !w.channels.control then Some(Obsolete)
    else if item.attempts >= s.maxAttempts then Some(Abandoned(item.attempts))
    else if ChannelOff(w.channels, k, item) then Some(Obsolete)
    else None
  }

  /** Re-armed for `at`, counted, and marked in flight as message m until the deadline. */
  function MarkedFor(w: World, k: Key, m: nat, at: real, deadline: real): World {
    Taken(Defer(w, k, true, at), k).(inflight := w.inflight[k := Flight(deadline, m)], stage := Idle)
  }

  /** What becomes of a marked row: the seeding fails, the router raises, or it takes the
      message. */
  function AfterMark(w: World, k: Key, env: Surroundings, m: nat, at: real, deadline: real): Sent {
    var counted := w.(history := Counted(w.history, k), copies := w.copies[m := Copy(k, deadline, env.router.Raises?)]);
    if !env.seeded then
      if k.kind.Control? then Sent(Defer(Release(w, k), k, true, at), false, false, false)
      else Sent(w, false, true, false)
    else if env.router.Raises? then Sent(Release(counted, k), true, false, true)
    else if env.router.Holds? then Sent(counted.(pending := w.pending + {m}), true, false, true)
    else Sent(counted, true, false, true)
  }

  function HandOverAt(w: World, k: Key, env: Surroundings, m: nat, at: real, deadline: real): Sent {
    AfterMark(MarkedFor(w, k, m, at, deadline), k, env, m, at, deadline)
  }

  function HandOverResult(s: EgressSettings, w: World, k: Key, item: Row, env: Surroundings, m: nat): Sent {
    HandOverAt(w, k, env, m, w.now + s.Backoff(item.attempts), w.now + s.timeout)
  }

  /** The send past the in-flight check. */
  function Proceeded(s: EgressSettings, w: World, k: Key, item: Row, env: Surroundings, m: nat): Sent {
    var ending := Ending(s, w, k, item);
    if ending.Some? then Sent(Taken(Complete(w, k, ending.value), k), false, false, false)
    else if NeedsGroup(k, item) && !env.attached then
      Sent(Taken(Defer(w, k, false, w.now + s.retryBackoff), k), false, false, false)
    else if !env.identity then
      Sent(Taken(Defer(w, k, false, w.now + s.GraceWait(item.graces)), k), true, false, false)
    else if !env.built then
      Sent(Taken(Defer(w, k, true, w.now + s.Backoff(item.attempts)), k), false, false, false)
    else HandOverResult(s, w, k, item, env, m)
  }

  /** The outcome of sending one due row; `m` names the message object built for it. */
  function SendResult(s: EgressSettings, w: World, k: Key, item: Row, env: Surroundings, m: nat): Sent {
    var w1 := Checked(s.Limits(), w, k);
    if Busy(w, k) then Sent(Taken(w1, k), false, false, false) else Proceeded(s, w1, k, item, env, m)
  }

  // -- as a path of the machine ----------------------------------------------------------

  ghost predicate Stepped(c: Config, path: seq<World>, n: nat)
    requires n < |path| - 1
  {
    SchedulerStep(c, path[n], path[n + 1])
  }

  ghost predicate Path(c: Config, path: seq<World>, from: World, to: World) {
    && |path| > 0 && path[0] == from && path[|path| - 1] == to
    && forall n: nat | n < |path| - 1 :: Stepped(c, path, n)
  }

  lemma Extended(c: Config, path: seq<World>, from: World, to: World, next: World) returns (longer: seq<World>)
    requires Path(c, path, from, to) && SchedulerStep(c, to, next)
    ensures Path(c, longer, from, next)
  {
    longer := path + [next];
    forall n: nat | n < |longer| - 1
      ensures Stepped(c, longer, n)
    {
      if n < |path| - 1 {
        assert Stepped(c, path, n);
      }
    }
  }

  lemma Joined(c: Config, p: seq<World>, q: seq<World>, from: World, mid: World, to: World) returns (path: seq<World>)
    requires Path(c, p, from, mid) && Path(c, q, mid, to)
    ensures Path(c, path, from, to)
  {
    path := p + q[1..];
    forall n: nat | n < |path| - 1
      ensures Stepped(c, path, n)
    {
      if n < |p| - 1 {
        assert Stepped(c, p, n);
      } else {
        assert Stepped(c, q, n - (|p| - 1));
      }
    }
  }

  lemma CheckPath(c: Config, w: World, k: Key) returns (path: seq<World>)
    requires w.stage.Idle?
    ensures Path(c, path, w, Checked(c, w, k))
    ensures !Busy(w, k) ==> k !in Checked(c, w, k).inflight
    ensures Busy(w, k) ==> k in Checked(c, w, k).inflight
  {
    path := [w];
    var w1 := Checked(c, w, k);
    if k in w.inflight && w.inflight[k].deadline <= w.now {
      if w.inflight[k].message in w.pending {
        assert Extend(c, w, w1, k);
      } else {
        assert Expire(w, w1, k);
      }
      path := Extended(c, path, w, w, w1);
    }
  }

  /** What becomes of a marked row is one step. */
  lemma MarkEnds(c: Config, w: World, marked: World, k: Key, env: Surroundings, m: nat, at: real)
    requires w.stage.Idle? && k in w.inflight && marked == w.(stage := Marked(k, m))
    ensures SchedulerStep(c, marked, AfterMark(w, k, env, m, at, w.inflight[k].deadline).world)
  {
    var end := AfterMark(w, k, env, m, at, w.inflight[k].deadline).world;
    if !env.seeded {
      assert SeedRaises(marked, end, at);
    } else if env.router.Raises? {
      assert RouterRaises(marked, end);
    } else {
      assert HandOff(marked, end, env.router.Holds?);
    }
  }

  lemma ArmIsStep(c: Config, w: World, w': World, k: Key, at: real)
    requires Arm(c, w, w', k, at)
    ensures SchedulerStep(c, w, w')
  {
  }

  lemma MarkIsStep(c: Config, w: World, w': World, m: nat)
    requires Mark(c, w, w', m)
    ensures SchedulerStep(c, w, w')
  {
  }

  lemma HandOverPath(c: Config, w: World, k: Key, env: Surroundings, m: nat, at: real) returns (path: seq<World>)
    requires w.stage.Idle? && k in w.due && k !in w.inflight
    requires w.due[k].attempts < c.maxAttempts && FreshMessage(w, m)
    ensures Path(c, path, w, HandOverAt(w, k, env, m, at, w.now + c.timeout).world)
  {
    var armed := Taken(Defer(w, k, true, at), k).(stage := Armed(k));
    ArmIsStep(c, w, armed, k, at);
    path := Extended(c, [w], w, w, armed);
    var done := MarkedFor(w, k, m, at, w.now + c.timeout);
    var marked := done.(stage := Marked(k, m));
    MarkIsStep(c, armed, marked, m);
    path := Extended(c, path, w, armed, marked);
    MarkEnds(c, done, marked, k, env, m, at);
    path := Extended(c, path, w, marked, HandOverAt(w, k, env, m, at, w.now + c.timeout).world);
  }

  /** The send hands over: nothing ends the row, and its message can be built. */
  predicate HandsOver(s: EgressSettings, w: World, k: Key, item: Row, env: Surroundings) {
    Ending(s, w, k, item).None? && (!NeedsGroup(k, item) || env.attached) && env.identity && env.built
  }

  /** Short of that, what a send does past the in-flight check is one step. */
  lemma ProceedingIsStep(s: EgressSettings, w: World, k: Key, item: Row, env: Surroundings, m: nat)
    requires w.stage.Idle? && k in w.due && w.due[k] == item && k !in w.inflight && !HandsOver(s, w, k, item, env)
    ensures SchedulerStep(s.Limits(), w, Proceeded(s, w, k, item, env, m).world)
  {
    var c := s.Limits();
    var end := Proceeded(s, w, k, item, env, m).world;
    if Ending(s, w, k, item).Some? {
      assert GiveUp(c, w, end, k, Ending(s, w, k, item).value);
    } else if NeedsGroup(k, item) && !env.attached {
      assert Grace(w, end, k, w.now + s.retryBackoff);
    } else if !env.identity {
      assert Grace(w, end, k, w.now + s.GraceWait(item.graces));
    } else {
      assert FailBuild(w, end, k, w.now + s.Backoff(item.attempts));
    }
  }

  lemma SkipIsStep(c: Config, w: World, k: Key)
    requires w.stage.Idle? && k in w.due && k in w.inflight
    ensures SchedulerStep(c, w, Taken(w, k))
  {
    assert SkipInFlight(w, Taken(w, k), k);
  }

  /** Every send is a path of the machine's own steps. */
  lemma SendPath(s: EgressSettings, w: World, k: Key, item: Row, env: Surroundings, m: nat) returns (path: seq<World>)
    requires w.stage.Idle? && k in w.due && w.due[k] == item && FreshMessage(w, m)
    ensures Path(s.Limits(), path, w, SendResult(s, w, k, item, env, m).world)
  {
    var c := s.Limits();
    var w1 := Checked(c, w, k);
    var end := SendResult(s, w, k, item, env, m).world;
    path := CheckPath(c, w, k);
    if Busy(w, k) {
      SkipIsStep(c, w1, k);
      path := Extended(c, path, w, w1, end);
    } else if HandsOver(s, w1, k, item, env) {
      var q := HandOverPath(c, w1, k, env, m, w1.now + s.Backoff(item.attempts));
      path := Joined(c, path, q, w, w1, end);
    } else {
      ProceedingIsStep(s, w1, k, item, env, m);
      path := Extended(c, path, w, w1, end);
    }
  }

  /** A run that dies part-way through a path, at whichever step, is a run. */
  lemma InterruptedPathIsRun(
    c: Config, run: seq<World>, path: seq<World>, to: World, n: nat, w': World, t: real, channels: Channels)
    requires Run(c, run) && Path(c, path, run[|run| - 1], to)
    requires n < |path| && Crash(path[n], w', t, channels)
    ensures Run(c, run + path[1..n + 1] + [w'])
  {
    var whole := run + path[1..n + 1];
    forall i: nat | i < |whole|
      ensures i >= |run| - 1 ==> whole[i] == path[i - (|run| - 1)]
      ensures i < |run| ==> whole[i] == run[i]
    {
    }
    forall i: nat | i < |whole + [w']| - 1
      ensures StepAt(c, whole + [w'], i)
    {
      if i < |run| - 1 {
        assert StepAt(c, run, i);
      } else if i < |whole| - 1 {
        assert Stepped(c, path, i - (|run| - 1));
      }
    }
  }

  // -- what a send comes to, told in rows, times and switches -------------------------------

  /** The waits after failed attempts double from the configured one up to the ceiling. */
  lemma BackoffDoubles(s: EgressSettings, n: nat)
    requires s.retryBackoff >= 0.0 && s.retryMax >= 0.0
    ensures s.Backoff(0) == Min(s.retryBackoff, s.retryMax)
    ensures s.Backoff(n + 1) == Min(2.0 * s.Backoff(n), s.retryMax)
    ensures 0.0 <= s.Backoff(n) <= s.retryMax
  {
    OnceMoreDoubles(s.retryBackoff, n, s.retryMax);
  }

  /** So do the waits for a path, which stop doubling at the sixteenth. */
  lemma GraceDoubles(s: EgressSettings, n: nat)
    requires s.pathGrace >= 0.0 && s.retryMax >= 0.0
    ensures s.GraceWait(0) == Min(s.pathGrace, s.retryMax)
    ensures s.GraceWait(n + 1) == if n < 16 then Min(2.0 * s.GraceWait(n), s.retryMax) else s.GraceWait(n)
    ensures 0.0 <= s.GraceWait(n) <= s.retryMax
  {
    OnceMoreDoubles(s.pathGrace, if n <= 16 then n else 16, s.retryMax);
  }

  lemma OnceMoreDoubles(base: real, n: nat, ceiling: real)
    requires base >= 0.0 && ceiling >= 0.0
    ensures Doubling(base, 0, ceiling) == Min(base, ceiling)
    ensures Doubling(base, n + 1, ceiling) == Min(2.0 * Doubling(base, n, ceiling), ceiling)
    ensures 0.0 <= Doubling(base, n, ceiling) <= ceiling
  {
    var x, p := base * Pow2(n) as real, Pow2(n) as real;
    ProductNonNegative(base, p);
    TwiceTimes(base, p);
    TimesOne(base);
    assert Pow2(n + 1) as real == 2.0 * p;
    MinDoubles(x, ceiling);
  }

  lemma TimesOne(x: real)
    ensures x * Pow2(0) as real == x
  {
  }

  lemma MinDoubles(x: real, ceiling: real)
    requires x >= 0.0 && ceiling >= 0.0
    ensures Min(2.0 * x, ceiling) == Min(2.0 * Min(x, ceiling), ceiling) && 0.0 <= Min(x, ceiling) <= ceiling
  {
  }

  lemma TwiceTimes(x: real, y: real)
    ensures x * (2.0 * y) == 2.0 * (x * y)
  {
  }

  /** The row was handed over earlier, and is inside its timeout or still with the router. */
  ghost predicate StillOut(w: World, k: Key) {
    k in w.inflight && (w.now < w.inflight[k].deadline || w.inflight[k].message in w.pending)
  }

  /** Nothing is left to deliver: the message is gone, the channel is off, or the attempts
      are spent. */
  ghost predicate Over(s: EgressSettings, w: World, k: Key, item: Row) {
    || (k.kind.Egress? && item.about.Reflection? && item.about.msgHash !in w.stored)
    || (k.kind.Control? && !w.channels.control)
    || (k.kind.Notice? && item.about.DirectoryText? && !w.channels.directory)
    || item.attempts >= s.maxAttempts
  }

  /** The row goes out from a group's destination, which is not attached. */
  ghost predicate Detached(k: Key, item: Row, env: Surroundings) {
    !env.attached && (k.kind.Egress? || k.kind.User? || (k.kind.Notice? && !item.about.DirectoryText?))
  }

  /** When the router is given a message: exactly when the row is not underway and not over,
      its group is attached, its recipient known, and the message built and seeded. */
  lemma HandedIff(s: EgressSettings, w: World, k: Key, item: Row, env: Surroundings, m: nat)
    ensures SendResult(s, w, k, item, env, m).handed <==>
      !StillOut(w, k) && !Over(s, w, k, item) && !Detached(k, item, env) && env.identity && env.built && env.seeded
    ensures SendResult(s, w, k, item, env, m).onAir <==>
      !StillOut(w, k) && !Over(s, w, k, item) && !Detached(k, item, env) && (env.identity ==> env.built && env.seeded)
    ensures SendResult(s, w, k, item, env, m).raised <==>
      !StillOut(w, k) && !Over(s, w, k, item) && !Detached(k, item, env) && env.identity && env.built && !env.seeded
      && !k.kind.Control?
  {
  }

  /** What is left of the row, past the in-flight check. */
  ghost predicate PutOffBy(
    s: EgressSettings, now: real, k: Key, item: Row, env: Surroundings, row: Row)
  {
    && row.recipient == item.recipient && row.about == item.about && row.group == item.group
    && if Detached(k, item, env) then
         row.attempts == item.attempts && row.graces == item.graces + 1 && row.nextAttemptAt == now + s.retryBackoff
       else if !env.identity then
         && row.attempts == item.attempts && row.graces == item.graces + 1
         && row.nextAttemptAt == now + s.GraceWait(item.graces)
       else
         && row.attempts == item.attempts + (if env.built && !env.seeded && k.kind.Control? then 2 else 1)
         && row.graces == 0 && row.nextAttemptAt == now + s.Backoff(item.attempts)
  }

  lemma ProceedingPutsOff(s: EgressSettings, w: World, k: Key, item: Row, env: Surroundings, m: nat)
    requires k in w.queue && w.queue[k] == item
    ensures var q' := Proceeded(s, w, k, item, env, m).world.queue;
      if Over(s, w, k, item) then k !in q' else k in q' && PutOffBy(s, w.now, k, item, env, q'[k])
  {
    OverIsEnding(s, w, k, item);
    if Over(s, w, k, item) {
      EndingDrops(w, k, Ending(s, w, k, item).value);
    } else if HandsOver(s, w, k, item, env) {
      HandingOverPutsOff(w, k, env, m, w.now + s.Backoff(item.attempts), w.now + s.timeout);
    } else if Detached(k, item, env) {
      DeferringPutsOff(w, k, false, w.now + s.retryBackoff);
    } else if !env.identity {
      DeferringPutsOff(w, k, false, w.now + s.GraceWait(item.graces));
    } else {
      DeferringPutsOff(w, k, true, w.now + s.Backoff(item.attempts));
    }
  }

  lemma OverIsEnding(s: EgressSettings, w: World, k: Key, item: Row)
    ensures Over(s, w, k, item) <==> Ending(s, w, k, item).Some?
  {
  }

  lemma EndingDrops(w: World, k: Key, reason: Fate)
    ensures k !in Taken(Complete(w, k, reason), k).queue
  {
  }

  lemma DeferringPutsOff(w: World, k: Key, counted: bool, at: real)
    requires k in w.queue
    ensures var q' := Taken(Defer(w, k, counted, at), k).queue;
      && k in q' && q'[k].nextAttemptAt == at
      && q'[k].attempts == (if counted then w.queue[k].attempts + 1 else w.queue[k].attempts)
      && q'[k].graces == (if counted then 0 else w.queue[k].graces + 1)
      && q'[k].recipient == w.queue[k].recipient && q'[k].about == w.queue[k].about && q'[k].group == w.queue[k].group
  {
  }

  lemma HandingOverPutsOff(w: World, k: Key, env: Surroundings, m: nat, at: real, deadline: real)
    requires k in w.queue
    ensures var q' := HandOverAt(w, k, env, m, at, deadline).world.queue;
      && k in q' && q'[k].nextAttemptAt == at && q'[k].graces == 0
      && q'[k].attempts == w.queue[k].attempts + (if !env.seeded && k.kind.Control? then 2 else 1)
      && q'[k].recipient == w.queue[k].recipient && q'[k].about == w.queue[k].about && q'[k].group == w.queue[k].group
  {
  }

  /** What a send leaves of its row. While underway it stays as it is. Otherwise it leaves
      its table exactly when it is over; and if not it is put off, without a group or a path
      to the recipient by a grace, which spends no attempt, and else by an attempt, two of
      them when a control answer cannot be seeded. */
  lemma RowAfterSend(s: EgressSettings, w: World, k: Key, item: Row, env: Surroundings, m: nat)
    requires k in w.queue && w.queue[k] == item
    ensures var q' := SendResult(s, w, k, item, env, m).world.queue;
      if StillOut(w, k) then k in q' && q'[k] == item
      else if Over(s, w, k, item) then k !in q'
      else k in q' && PutOffBy(s, w.now, k, item, env, q'[k])
  {
    var w1 := Checked(s.Limits(), w, k);
    assert w1.queue == w.queue && w1.now == w.now && w1.stored == w.stored && w1.channels == w.channels;
    if !StillOut(w, k) {
      ProceedingPutsOff(s, w1, k, item, env, m);
    }
  }

  /** A row put off by a send is not among those due before the time it was put off to. */
  lemma PutOffIsNotDue(s: EgressSettings, w: World, k: Key, item: Row, env: Surroundings, m: nat, t: real)
    requires k in w.queue && w.queue[k] == item && !StillOut(w, k) && !Over(s, w, k, item)
    requires t < w.now + if Detached(k, item, env) then s.retryBackoff
                         else if !env.identity then s.GraceWait(item.graces) else s.Backoff(item.attempts)
    ensures var q' := SendResult(s, w, k, item, env, m).world.queue;
      k in q' && q'[k].nextAttemptAt > t
  {
    RowAfterSend(s, w, k, item, env, m);
  }
}
