/** Device rows of any number of hubs, at the grain of the store calls. Merging a device
    row looks up its persona, then its local row, then writes; an unlink looks up the
    caller's persona, then the target, then counts, then updates. The store is locked for
    one of these calls at a time, so links, unlinks and any number of merges of the same hub
    may fall between them. */
module Linking {
  import opened Wrappers
  import opened ByteStrings
  import opened Personas
  import opened Devices

  /** `tested` is the table the row's version was compared with. */
  datatype MergeStage = Known | Tested(tested: DeviceTable)

  /** `row` is the target as it was checked, `counted` the devices there were. */
  datatype UnlinkStage = Asked | Checked(row: Device) | Counted(row: Device, counted: set<Bytes>)

  datatype Task =
    | Merging(hub: nat, row: Device, merge: MergeStage)
    | Unlinking(hub: nat, target: Bytes, persona: Bytes, unlink: UnlinkStage)

  /** `seen` holds every device row any hub has ever stored. */
  datatype Net = Net(
    hubs: map<nat, DeviceTable>, personas: map<nat, Table>, seen: set<Device>, tasks: map<nat, Task>)

  ghost function Rows(t: DeviceTable): set<Device> {
    set k | k in t :: t[k]
  }

  ghost function Write(net: Net, h: nat, t: DeviceTable): Net {
    net.(hubs := net.hubs[h := t], seen := net.seen + Rows(t))
  }

  ghost function WithTask(net: Net, n: nat, task: Task): Net {
    net.(tasks := net.tasks[n := task])
  }

  ghost function Ended(net: Net, n: nat): Net {
    net.(tasks := net.tasks - {n})
  }

  ghost predicate Hosted(net: Net, h: nat) {
    h in net.hubs && h in net.personas
  }

  // -- commits of a hub's own members ----------------------------------------------

  /** Hub h comes to know a persona, by a claim or a merge. */
  ghost predicate Learn(net: Net, net': Net, h: nat, p: Persona) {
    Hosted(net, h) && net' == net.(personas := net.personas[h := net.personas[h][p.id := p]])
  }

  /** A device is attached to a persona, moving it off any previous one. */
  ghost predicate Link(net: Net, net': Net, h: nat, user: Bytes, persona: Bytes, now: real) {
    && Hosted(net, h) && persona in net.personas[h]
    && net' == Write(net, h, net.hubs[h][user := Device(user, persona, now, None)])
  }

  // -- the store calls of a merge -----------------------------------------------------

  /** The persona of an arriving row is known here. */
  ghost predicate Meet(net: Net, net': Net, n: nat, h: nat, row: Device) {
    && Hosted(net, h) && n !in net.tasks && row in net.seen
    && row.personaId in net.personas[h]
    && net' == WithTask(net, n, Merging(h, row, Known))
  }

  ghost predicate AtMerge(net: Net, n: nat) {
    n in net.tasks && net.tasks[n].Merging? && Hosted(net, net.tasks[n].hub)
  }

  ghost predicate Keeps(t: DeviceTable, row: Device) {
    row.userHash in t && t[row.userHash].Version() >= row.Version()
  }

  /** The version test against the local row. */
  ghost predicate Test(net: Net, net': Net, n: nat) {
    && AtMerge(net, n) && net.tasks[n].merge.Known?
    && var task := net.tasks[n];
       var t := net.hubs[task.hub];
       net' == if Keeps(t, task.row) then Ended(net, n) else WithTask(net, n, task.(merge := Tested(t)))
  }

  ghost predicate AboutToWrite(net: Net, n: nat) {
    AtMerge(net, n) && net.tasks[n].merge.Tested?
  }

  ghost predicate WriteBack(net: Net, net': Net, n: nat) {
    && AboutToWrite(net, n)
    && var task := net.tasks[n];
       net' == Ended(Write(net, task.hub, net.hubs[task.hub][task.row.userHash := task.row]), n)
  }

  // -- the store calls of an unlink ----------------------------------------------------

  ghost predicate Ask(net: Net, net': Net, n: nat, h: nat, user: Bytes, target: Bytes) {
    && Hosted(net, h) && n !in net.tasks
    && PersonaOf(net.personas[h], net.hubs[h], user).Some?
    && net' == WithTask(net, n, Unlinking(h, target, PersonaOf(net.personas[h], net.hubs[h], user).value, Asked))
  }

  ghost predicate AtUnlink(net: Net, n: nat) {
    n in net.tasks && net.tasks[n].Unlinking? && Hosted(net, net.tasks[n].hub)
  }

  ghost predicate Owned(t: DeviceTable, target: Bytes, persona: Bytes) {
    target in t && t[target].Active() && t[target].personaId == persona
  }

  ghost predicate Check(net: Net, net': Net, n: nat) {
    && AtUnlink(net, n) && net.tasks[n].unlink.Asked?
    && var task := net.tasks[n];
       var t := net.hubs[task.hub];
       net' == if Owned(t, task.target, task.persona) then WithTask(net, n, task.(unlink := Checked(t[task.target])))
               else Ended(net, n)
  }

  /** Refused only when there is exactly one device. */
  ghost predicate Count(net: Net, net': Net, n: nat) {
    && AtUnlink(net, n) && net.tasks[n].unlink.Checked?
    && var task := net.tasks[n];
       var devices := DevicesOf(net.hubs[task.hub], task.persona);
       net' == if |devices| == 1 then Ended(net, n)
               else WithTask(net, n, task.(unlink := Counted(task.unlink.row, devices)))
  }

  ghost predicate AboutToRemove(net: Net, n: nat) {
    AtUnlink(net, n) && net.tasks[n].unlink.Counted?
  }

  ghost predicate Remove(net: Net, net': Net, n: nat, now: real) {
    && AboutToRemove(net, n)
    && var task := net.tasks[n];
       net' == Ended(Write(net, task.hub, Removed(net.hubs[task.hub], task.target, now)), n)
  }

  /** The daemon dies, or an exception ends the merge or the unlink. */
  ghost predicate Abandon(net: Net, net': Net, n: nat) {
    n in net.tasks && net' == Ended(net, n)
  }

  ghost predicate MergeStep(net: Net, net': Net) {
    || (exists n, h, row :: Meet(net, net', n, h, row))
    || (exists n :: Test(net, net', n))
    || (exists n :: WriteBack(net, net', n))
  }

  ghost predicate UnlinkStep(net: Net, net': Net) {
    || (exists n, h, user, target :: Ask(net, net', n, h, user, target))
    || (exists n :: Check(net, net', n))
    || (exists n :: Count(net, net', n))
    || (exists n, now :: Remove(net, net', n, now))
  }

  ghost predicate Step(net: Net, net': Net) {
    || (exists h, p :: Learn(net, net', h, p))
    || (exists h, user, persona, now :: Link(net, net', h, user, persona, now))
    || MergeStep(net, net')
    || UnlinkStep(net, net')
    || (exists n :: Abandon(net, net', n))
  }

  ghost predicate Initial(net: Net) {
    && (forall h | h in net.hubs :: net.hubs[h] == map[])
    && (forall h | h in net.personas :: net.personas[h] == map[])
    && net.seen == {} && net.tasks == map[]
  }

  ghost predicate StepAt(run: seq<Net>, n: nat)
    requires n < |run| - 1
  {
    Step(run[n], run[n + 1])
  }

  ghost predicate Run(run: seq<Net>) {
    |run| > 0 && Initial(run[0]) && forall n: nat | n < |run| - 1 :: StepAt(run, n)
  }

  // -- what every run keeps --------------------------------------------------------------

  ghost predicate TaskSound(task: Task) {
    match task
    case Merging(_, row, merge) => merge.Tested? ==> !Keeps(merge.tested, row)
    case Unlinking(_, target, persona, unlink) =>
      && (!unlink.Asked? ==>
            unlink.row.userHash == target && unlink.row.Active() && unlink.row.personaId == persona)
      && (unlink.Counted? ==> |unlink.counted| != 1)
  }

  ghost predicate TablesSound(net: Net) {
    && (forall h | h in net.hubs :: KeyedByUser(net.hubs[h]))
    && (forall h, k | h in net.hubs && k in net.hubs[h] :: net.hubs[h][k] in net.seen)
  }

  ghost predicate Sound(net: Net) {
    TablesSound(net) && forall n | n in net.tasks :: TaskSound(net.tasks[n])
  }

  lemma WriteKeeps(net: Net, h: nat, t: DeviceTable)
    requires TablesSound(net) && KeyedByUser(t)
    ensures TablesSound(Write(net, h, t))
  {
  }

  lemma MergeStepKeeps(net: Net, net': Net)
    requires Sound(net) && MergeStep(net, net')
    ensures Sound(net')
  {
    if n :| WriteBack(net, net', n) {
      var task := net.tasks[n];
      WriteKeeps(net, task.hub, net.hubs[task.hub][task.row.userHash := task.row]);
    }
  }

  lemma UnlinkStepKeeps(net: Net, net': Net)
    requires Sound(net) && UnlinkStep(net, net')
    ensures Sound(net')
  {
    if n :| Check(net, net', n) {
      assert TablesSound(net');
    } else if n, now :| Remove(net, net', n, now) {
      var task := net.tasks[n];
      WriteKeeps(net, task.hub, Removed(net.hubs[task.hub], task.target, now));
    }
  }

  lemma StepKeeps(net: Net, net': Net)
    requires Sound(net) && Step(net, net')
    ensures Sound(net')
  {
    if h, user, persona, now :| Link(net, net', h, user, persona, now) {
      WriteKeeps(net, h, net.hubs[h][user := Device(user, persona, now, None)]);
    } else if MergeStep(net, net') {
      MergeStepKeeps(net, net');
    } else if UnlinkStep(net, net') {
      UnlinkStepKeeps(net, net');
    }
  }

  lemma {:induction false} RunIsSound(run: seq<Net>, n: nat)
    requires Run(run) && n < |run|
    ensures Sound(run[n])
  {
    if n > 0 {
      RunIsSound(run, n - 1);
      assert StepAt(run, n - 1);
      StepKeeps(run[n - 1], run[n]);
    }
  }

  // -- with nothing in between -------------------------------------------------------------

  /** Merging a row, its calls one after the other: what merges are reasoned about with. */
  lemma UninterruptedIsMergeDevice(net: Net, met: Net, tested: Net, end: Net, n: nat, h: nat, row: Device)
    requires Meet(net, met, n, h, row) && Test(met, tested, n)
    requires if n in tested.tasks then WriteBack(tested, end, n) else end == tested
    ensures end.hubs == net.hubs[h := MergeDevice(net.personas[h], net.hubs[h], row)]
    ensures end.tasks == net.tasks
  {
  }

  /** A row of an unknown persona gets no further than the first call. */
  lemma UnknownPersonaIsDropped(net: Net, met: Net, n: nat, h: nat, row: Device)
    requires Hosted(net, h) && row.personaId !in net.personas[h]
    ensures !Meet(net, met, n, h, row) && MergeDevice(net.personas[h], net.hubs[h], row) == net.hubs[h]
  {
  }

  /** An unlink, its calls one after the other: it goes through exactly when it may, and
      then leaves another device. */
  lemma UninterruptedIsUnlink(
    net: Net, asked: Net, checked: Net, counted: Net, end: Net, n: nat, h: nat, user: Bytes, target: Bytes, now: real)
    requires Ask(net, asked, n, h, user, target) && Check(asked, checked, n)
    requires if n in checked.tasks then Count(checked, counted, n) else counted == checked
    requires if n in counted.tasks then Remove(counted, end, n, now) else end == counted
    ensures n in counted.tasks <==> MayUnlink(net.personas[h], net.hubs[h], user, target)
    ensures end.hubs == if n in counted.tasks then net.hubs[h := Removed(net.hubs[h], target, now)] else net.hubs
    ensures n in counted.tasks ==> DevicesOf(end.hubs[h], PersonaOf(net.personas[h], net.hubs[h], user).value) != {}
  {
    var p := PersonaOf(net.personas[h], net.hubs[h], user).value;
    if n in counted.tasks {
      RemovedLeaves(net.hubs[h], target, p, now);
      SomeLeft(DevicesOf(net.hubs[h], p), target);
    }
  }

  lemma RemovedLeaves(t: DeviceTable, target: Bytes, persona: Bytes, now: real)
    ensures DevicesOf(Removed(t, target, now), persona) == DevicesOf(t, persona) - {target}
  {
  }

  lemma SomeLeft(s: set<Bytes>, x: Bytes)
    requires x in s && |s| != 1
    ensures s - {x} != {}
  {
    assert s == (s - {x}) + {x};
  }

  // -- devices taken back --------------------------------------------------------------------

  /** A device's row is replaced by another one no more recent. */
  ghost predicate Recedes(t: DeviceTable, t': DeviceTable, u: Bytes) {
    u in t && u in t' && t'[u] != t[u] && t'[u].Version() <= t[u].Version()
  }

  ghost predicate OverwrittenBy(net: Net, net': Net, h: nat, u: Bytes, n: nat) {
    && AboutToWrite(net, n) && WriteBack(net, net', n)
    && var task := net.tasks[n];
       task.hub == h && task.row.userHash == u && Keeps(net.hubs[h], task.row) && net.hubs[h][u] != task.row
  }

  /** A merge writes over a row it would not have touched had it tested it now. */
  ghost predicate Overwritten(net: Net, net': Net, h: nat, u: Bytes) {
    exists n :: OverwrittenBy(net, net', h, u, n)
  }

  ghost predicate LinkedBehindBy(net: Net, net': Net, h: nat, u: Bytes, persona: Bytes, now: real) {
    && Link(net, net', h, u, persona, now) && u in net.hubs[h]
    && var row := Device(u, persona, now, None);
       row != net.hubs[h][u] && row.Version() <= net.hubs[h][u].Version()
  }

  /** A member links a device at a reading of the clock not past the row there. */
  ghost predicate LinkedBehind(net: Net, net': Net, h: nat, u: Bytes) {
    exists persona, now :: LinkedBehindBy(net, net', h, u, persona, now)
  }

  ghost predicate RemovedBehindBy(net: Net, net': Net, h: nat, u: Bytes, n: nat, now: real) {
    && Remove(net, net', n, now) && net.tasks[n].hub == h && net.tasks[n].target == u
    && u in net.hubs[h] && net.hubs[h][u].Active() && now <= net.hubs[h][u].Version()
  }

  /** A member unlinks a device at such a reading. */
  ghost predicate RemovedBehind(net: Net, net': Net, h: nat, u: Bytes) {
    exists n, now :: RemovedBehindBy(net, net', h, u, n, now)
  }

  lemma CausesRecede(net: Net, net': Net, h: nat, u: Bytes)
    requires h in net.hubs
    requires Overwritten(net, net', h, u) || LinkedBehind(net, net', h, u) || RemovedBehind(net, net', h, u)
    ensures h in net'.hubs && Recedes(net.hubs[h], net'.hubs[h], u)
  {
    if n :| OverwrittenBy(net, net', h, u, n) {
    } else if persona, now :| LinkedBehindBy(net, net', h, u, persona, now) {
    } else {
      var n, now :| RemovedBehindBy(net, net', h, u, n, now);
    }
  }

  lemma WriteRecedes(net: Net, net': Net, n: nat, h: nat, u: Bytes)
    requires WriteBack(net, net', n) && h in net.hubs && Recedes(net.hubs[h], net'.hubs[h], u)
    ensures Overwritten(net, net', h, u)
  {
    assert OverwrittenBy(net, net', h, u, n);
  }

  lemma RemoveRecedes(net: Net, net': Net, n: nat, now: real, h: nat, u: Bytes)
    requires Remove(net, net', n, now) && h in net.hubs && Recedes(net.hubs[h], net'.hubs[h], u)
    ensures RemovedBehind(net, net', h, u)
  {
    assert RemovedBehindBy(net, net', h, u, n, now);
  }

  lemma LinkRecedes(net: Net, net': Net, k: nat, user: Bytes, persona: Bytes, now: real, h: nat, u: Bytes)
    requires Link(net, net', k, user, persona, now) && h in net.hubs && Recedes(net.hubs[h], net'.hubs[h], u)
    ensures LinkedBehind(net, net', h, u)
  {
    assert LinkedBehindBy(net, net', h, u, persona, now);
  }

  lemma RecedingHasCause(net: Net, net': Net, h: nat, u: Bytes)
    requires Step(net, net') && h in net.hubs && h in net'.hubs && Recedes(net.hubs[h], net'.hubs[h], u)
    ensures Overwritten(net, net', h, u) || LinkedBehind(net, net', h, u) || RemovedBehind(net, net', h, u)
  {
    if k, user, persona, now :| Link(net, net', k, user, persona, now) {
      LinkRecedes(net, net', k, user, persona, now, h, u);
    } else if n :| WriteBack(net, net', n) {
      WriteRecedes(net, net', n, h, u);
    } else if n, now :| Remove(net, net', n, now) {
      RemoveRecedes(net, net', n, now, h, u);
    } else {
      OthersWriteNothing(net, net');
    }
  }

  lemma OthersWriteNothing(net: Net, net': Net)
    requires Step(net, net')
    requires forall k, user, persona, now :: !Link(net, net', k, user, persona, now)
    requires forall n :: !WriteBack(net, net', n)
    requires forall n, now :: !Remove(net, net', n, now)
    ensures net'.hubs == net.hubs
  {
  }

  /** In any run a device's row gives way to one no more recent exactly when a merge
      overwrites a row at least as recent as its own, or a member links or unlinks the
      device at a reading of the clock not past the row there. */
  lemma RecedesIff(run: seq<Net>, i: nat, h: nat, u: Bytes)
    requires Run(run) && i < |run| - 1 && h in run[i].hubs
    ensures h in run[i + 1].hubs
    ensures Recedes(run[i].hubs[h], run[i + 1].hubs[h], u) <==>
      || Overwritten(run[i], run[i + 1], h, u)
      || LinkedBehind(run[i], run[i + 1], h, u)
      || RemovedBehind(run[i], run[i + 1], h, u)
  {
    assert StepAt(run, i);
    HubsStay(run[i], run[i + 1]);
    if Recedes(run[i].hubs[h], run[i + 1].hubs[h], u) {
      RecedingHasCause(run[i], run[i + 1], h, u);
    } else if Overwritten(run[i], run[i + 1], h, u) || LinkedBehind(run[i], run[i + 1], h, u)
      || RemovedBehind(run[i], run[i + 1], h, u) {
      CausesRecede(run[i], run[i + 1], h, u);
    }
  }

  lemma HubsStay(net: Net, net': Net)
    requires Step(net, net')
    ensures net.hubs.Keys <= net'.hubs.Keys
  {
  }

  /** A merge overwrites only a device written since it tested it: one that is new, or
      whose row is not the one it compared with. */
  lemma OverwrittenMeansWrittenSince(run: seq<Net>, i: nat, h: nat, u: Bytes, n: nat)
    requires Run(run) && i < |run| - 1 && OverwrittenBy(run[i], run[i + 1], h, u, n)
    ensures var tested := run[i].tasks[n].merge.tested;
      !(u in tested && tested[u] == run[i].hubs[h][u])
  {
    RunIsSound(run, i);
    assert TaskSound(run[i].tasks[n]);
  }

  // -- personas left empty ---------------------------------------------------------------------

  ghost predicate Emptied(t: DeviceTable, t': DeviceTable, persona: Bytes) {
    DevicesOf(t, persona) != {} && DevicesOf(t', persona) == {}
  }

  /** Since the count every other device has gone, and no new one has come. */
  ghost predicate OthersGone(t: DeviceTable, persona: Bytes, target: Bytes, counted: set<Bytes>) {
    && (forall d | d in counted && d != target :: d !in DevicesOf(t, persona))
    && (forall d | d in DevicesOf(t, persona) && d != target :: d in counted)
  }

  /** In any run an unlink leaves its persona without a device exactly when the target is
      still there and the other devices have gone between the count and the update. Then
      either there were others, or the target itself was away when they were counted. */
  lemma EmptiesIffOthersGone(run: seq<Net>, i: nat, n: nat, now: real)
    requires Run(run) && i < |run| - 1 && Remove(run[i], run[i + 1], n, now)
    ensures
      var task := run[i].tasks[n];
      var t, counted := run[i].hubs[task.hub], task.unlink.counted;
      && (Emptied(t, run[i + 1].hubs[task.hub], task.persona) <==>
            task.target in DevicesOf(t, task.persona) && OthersGone(t, task.persona, task.target, counted))
      && (task.target !in counted || exists d :: d in counted && d != task.target)
  {
    RunIsSound(run, i);
    var task := run[i].tasks[n];
    assert TaskSound(task);
    var t, counted := run[i].hubs[task.hub], task.unlink.counted;
    RemovedLeaves(t, task.target, task.persona, now);
    OnlyTargetLeft(t, task.persona, task.target, counted);
    if task.target in counted {
      SomeLeft(counted, task.target);
      var d :| d in counted - {task.target};
      assert d in counted && d != task.target;
    }
  }

  lemma OnlyTargetLeft(t: DeviceTable, persona: Bytes, target: Bytes, counted: set<Bytes>)
    ensures var devices := DevicesOf(t, persona);
      devices != {} && devices - {target} == {} <==> target in devices && OthersGone(t, persona, target, counted)
  {
    var devices := DevicesOf(t, persona);
    if devices != {} && devices - {target} == {} {
      var d :| d in devices;
      assert d !in devices - {target};
      assert forall e | e in devices :: e == target || e in devices - {target};
    }
  }

  /** It leaves another persona empty exactly when the target has moved to it, as its only
      device, since it was checked. */
  lemma EmptiesOtherIffMoved(run: seq<Net>, i: nat, n: nat, now: real, persona: Bytes)
    requires Run(run) && i < |run| - 1 && Remove(run[i], run[i + 1], n, now) && persona != run[i].tasks[n].persona
    ensures
      var task := run[i].tasks[n];
      var t := run[i].hubs[task.hub];
      && (Emptied(t, run[i + 1].hubs[task.hub], persona) <==> DevicesOf(t, persona) == {task.target})
      && (DevicesOf(t, persona) == {task.target} ==> t[task.target] != task.unlink.row)
  {
    RunIsSound(run, i);
    var task := run[i].tasks[n];
    var t := run[i].hubs[task.hub];
    assert TaskSound(task);
    RemovedLeaves(t, task.target, persona, now);
    assert DevicesOf(t, persona) == {task.target} ==> task.target in DevicesOf(t, persona);
  }

  // -- two runs ------------------------------------------------------------------------------------

  const P: Bytes := [9]
  const U: Bytes := [1]
  const V: Bytes := [2]

  ghost function Last(run: seq<Net>): Net
    requires run != []
  {
    run[|run| - 1]
  }

  lemma RunGrows(run: seq<Net>, net: Net)
    requires Run(run) && Step(Last(run), net)
    ensures Run(run + [net])
  {
    forall n: nat | n < |run|
      ensures StepAt(run + [net], n)
    {
      if n < |run| - 1 {
        assert StepAt(run, n);
      }
    }
  }

  function Active(user: Bytes, at: real): Device {
    Device(user, P, at, None)
  }

  lemma Linked(run: seq<Net>, h: nat, user: Bytes, at: real) returns (longer: seq<Net>)
    requires Run(run) && Hosted(Last(run), h) && P in Last(run).personas[h]
    ensures Run(longer) && Last(longer) == Write(Last(run), h, Last(run).hubs[h][user := Active(user, at)])
    ensures Active(user, at) in Last(longer).seen
  {
    var net := Last(run);
    var t := net.hubs[h][user := Active(user, at)];
    assert Link(net, Write(net, h, t), h, user, P, at);
    RunGrows(run, Write(net, h, t));
    longer := run + [Write(net, h, t)];
    assert t[user] == Active(user, at);
  }

  lemma Learned(run: seq<Net>, h: nat, p: Persona) returns (longer: seq<Net>)
    requires Run(run) && Hosted(Last(run), h)
    ensures Run(longer)
    ensures Last(longer) == Last(run).(personas := Last(run).personas[h := Last(run).personas[h][p.id := p]])
  {
    var net := Last(run);
    var net' := net.(personas := net.personas[h := net.personas[h][p.id := p]]);
    assert Learn(net, net', h, p);
    RunGrows(run, net');
    longer := run + [net'];
  }

  /** Both devices linked to one persona on two hubs, earlier on the first. */
  ghost predicate BothLinked(net: Net) {
    && net.hubs == map[0 := map[U := Active(U, 5.0), V := Active(V, 5.0)],
                       1 := map[U := Active(U, 7.0), V := Active(V, 7.0)]]
    && net.personas.Keys == {0, 1} && P in net.personas[0] && P in net.personas[1]
    && net.tasks == map[] && Active(U, 7.0) in net.seen
  }

  lemma BothAreLinked() returns (run: seq<Net>)
    ensures Run(run) && BothLinked(Last(run))
  {
    run := [Net(map[0 := map[], 1 := map[]], map[0 := map[], 1 := map[]], {}, map[])];
    run := Learned(run, 0, Persona(P, None, 1.0, 1, 1.0));
    run := Learned(run, 1, Persona(P, None, 1.0, 1, 1.0));
    run := Linked(run, 1, U, 7.0);
    run := Linked(run, 1, V, 7.0);
    run := Linked(run, 0, U, 5.0);
    run := Linked(run, 0, V, 5.0);
    var t0, t1 := Last(run).hubs[0], Last(run).hubs[1];
    assert t0 == map[U := Active(U, 5.0), V := Active(V, 5.0)];
    assert t1 == map[U := Active(U, 7.0), V := Active(V, 7.0)];
  }

  /** A merge goes as far as its write. */
  lemma MergeTested(run: seq<Net>, n: nat, h: nat, row: Device) returns (longer: seq<Net>)
    requires Run(run) && Hosted(Last(run), h) && n !in Last(run).tasks && row in Last(run).seen
    requires row.personaId in Last(run).personas[h] && !Keeps(Last(run).hubs[h], row)
    ensures Run(longer) && Last(longer) == WithTask(Last(run), n, Merging(h, row, Tested(Last(run).hubs[h])))
  {
    var net := Last(run);
    var met := WithTask(net, n, Merging(h, row, Known));
    assert Meet(net, met, n, h, row);
    RunGrows(run, met);
    var tested := WithTask(net, n, Merging(h, row, Tested(net.hubs[h])));
    assert tested == WithTask(met, n, Merging(h, row, Tested(net.hubs[h])));
    assert Test(met, tested, n);
    RunGrows(run + [met], tested);
    longer := run + [met] + [tested];
  }

  lemma Written(run: seq<Net>, n: nat) returns (longer: seq<Net>)
    requires Run(run) && AboutToWrite(Last(run), n)
    ensures Run(longer) && |longer| == |run| + 1 && longer[|run| - 1] == Last(run)
    ensures WriteBack(Last(run), Last(longer), n)
  {
    var task := Last(run).tasks[n];
    var net' := Ended(Write(Last(run), task.hub, Last(run).hubs[task.hub][task.row.userHash := task.row]), n);
    assert WriteBack(Last(run), net', n);
    RunGrows(run, net');
    longer := run + [net'];
  }

  /** A member's unlink of one of two devices goes as far as its update. */
  lemma UnlinkCounted(run: seq<Net>, n: nat, h: nat, target: Bytes, a: Device, b: Device) returns (longer: seq<Net>)
    requires Run(run) && Hosted(Last(run), h) && n !in Last(run).tasks && P in Last(run).personas[h]
    requires Last(run).hubs[h] == map[U := a, V := b] && (target == U || target == V)
    requires a.Active() && b.Active() && a.personaId == b.personaId == P
    ensures Run(longer)
    ensures Last(longer)
         == WithTask(Last(run), n, Unlinking(h, target, P, Counted(if target == U then a else b, {U, V})))
  {
    var net := Last(run);
    var row := if target == U then a else b;
    var asked := WithTask(net, n, Unlinking(h, target, P, Asked));
    assert net.hubs[h][U] == a && net.hubs[h][target] == row;
    assert Ask(net, asked, n, h, U, target);
    RunGrows(run, asked);
    var checked := WithTask(net, n, Unlinking(h, target, P, Checked(row)));
    assert checked == WithTask(asked, n, Unlinking(h, target, P, Checked(row)));
    assert Check(asked, checked, n);
    RunGrows(run + [asked], checked);
    var counted := WithTask(net, n, Unlinking(h, target, P, Counted(row, {U, V})));
    assert counted == WithTask(checked, n, Unlinking(h, target, P, Counted(row, {U, V})));
    assert DevicesOf(net.hubs[h], P) == {U, V};
    assert Count(checked, counted, n);
    RunGrows(run + [asked] + [checked], counted);
    longer := run + [asked] + [checked] + [counted];
  }

  lemma Unlinked(run: seq<Net>, n: nat, now: real) returns (longer: seq<Net>)
    requires Run(run) && AboutToRemove(Last(run), n)
    ensures Run(longer) && |longer| == |run| + 1 && longer[|run| - 1] == Last(run)
    ensures Remove(Last(run), Last(longer), n, now)
  {
    var task := Last(run).tasks[n];
    var net' := Ended(Write(Last(run), task.hub, Removed(Last(run).hubs[task.hub], task.target, now)), n);
    assert Remove(Last(run), net', n, now);
    RunGrows(run, net');
    longer := run + [net'];
  }

  /** An unlink between a merge's test and its write: the tombstone of version 10 gives
      way to an active row of version 7. */
  lemma UnlinkInBetweenIsUndone() returns (run: seq<Net>)
    ensures Run(run) && |run| > 1 && var net, net' := run[|run| - 2], run[|run| - 1];
      && 0 in net.hubs && 0 in net'.hubs && Overwritten(net, net', 0, U)
      && U in net.hubs[0] && net.hubs[0][U] == Device(U, P, 5.0, Some(10.0))
      && U in net'.hubs[0] && net'.hubs[0][U] == Device(U, P, 7.0, None)
  {
    run := BothAreLinked();
    run := MergeTested(run, 0, 0, Active(U, 7.0));
    run := UnlinkCounted(run, 1, 0, U, Active(U, 5.0), Active(V, 5.0));
    run := Unlinked(run, 1, 10.0);
    run := Written(run, 0);
    assert OverwrittenBy(run[|run| - 2], run[|run| - 1], 0, U, 0);
  }

  /** A peer's tombstone for the other device between the count and the update: the
      persona is left without a device. */
  lemma TombstoneInBetweenEmpties() returns (run: seq<Net>)
    ensures Run(run) && |run| > 1 && var net, net' := run[|run| - 2], run[|run| - 1];
      && Remove(net, net', 0, 11.0) && net.tasks[0].persona == P && net.tasks[0].hub == 0
      && DevicesOf(net.hubs[0], P) == {U} && DevicesOf(net'.hubs[0], P) == {}
  {
    run := BothAreLinked();
    run := UnlinkCounted(run, 0, 1, V, Active(U, 7.0), Active(V, 7.0));
    run := Unlinked(run, 0, 10.0);
    var tombstone := Device(V, P, 7.0, Some(10.0));
    assert Last(run).hubs[1][V] == tombstone && tombstone in Last(run).seen;
    run := UnlinkCounted(run, 0, 0, U, Active(U, 5.0), Active(V, 5.0));
    run := MergeTested(run, 1, 0, tombstone);
    run := Written(run, 1);
    assert Last(run).hubs[0][V] == tombstone;
    var before := Last(run);
    run := Unlinked(run, 0, 11.0);
    assert DevicesOf(before.hubs[0], P) == {U};
    RemovedLeaves(before.hubs[0], U, P, 11.0);
  }
}
