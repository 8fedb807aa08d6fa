/** Any number of hubs exchanging persona rows, in any interleaving. A merge may be
    fed rows from snapshots of any age, so every row ever stored anywhere stays
    deliverable. Merging one row is several store calls, and the store is locked for
    one call at a time: the test of the version, the lookup of the name, the clearing of
    its holder and the write are steps of their own, and claims, renames and other
    merges of the same hub may fall between them. */
module Mesh {
  import opened Wrappers
  import opened ByteStrings
  import opened Personas

  /** How far the merging of one row has got; the holder is the row the lookup read. */
  datatype Stage = Looking | Clearing(holder: Persona) | Writing

  /** One row on its way into a hub's table. `tested` is the table its version was
      compared with, `asOf` the one its name was looked up in, without the holder that
      has been cleared since. */
  datatype Task = Task(hub: nat, row: Persona, tested: Table, asOf: Table, stage: Stage)

  /** `seen` holds every row any hub has ever stored; `minted` each persona's first row. */
  datatype Net = Net(hubs: map<nat, Table>, seen: set<Persona>, minted: map<Bytes, Persona>, tasks: map<nat, Task>)

  ghost function Rows(t: Table): set<Persona> {
    set id | id in t :: t[id]
  }

  ghost function Write(net: Net, h: nat, t: Table): Net {
    net.(hubs := net.hubs[h := t], seen := net.seen + Rows(t))
  }

  ghost function WithTask(net: Net, n: nat, task: Task): Net {
    net.(tasks := net.tasks[n := task])
  }

  ghost function Ended(net: Net, n: nat): Net {
    net.(tasks := net.tasks - {n})
  }

  ghost predicate NameFree(fold: Folding, t: Table, name: string, id: Bytes) {
    forall other | other in t && NamedAs(fold, t[other], fold(name)) :: other == id
  }

  // -- the commits of a member's own hub ---------------------------------------

  ghost predicate Minting(fold: Folding, net: Net, h: nat, p: Persona) {
    && h in net.hubs && p.id !in net.minted
    && p.name != Some("") && p.revision == 1
    && (p.name.Some? ==> NameFree(fold, net.hubs[h], p.name.value, p.id))
  }

  ghost function Minted(net: Net, h: nat, p: Persona): Net
    requires h in net.hubs
  {
    Write(net, h, net.hubs[h][p.id := p]).(minted := net.minted[p.id := p])
  }

  /** A member of hub h gets a new persona, by claiming a free name or, nameless, by
      minting a link code first. */
  ghost predicate Mint(fold: Folding, net: Net, net': Net, h: nat, p: Persona) {
    Minting(fold, net, h, p) && net' == Minted(net, h, p)
  }

  function RenamedRow(p: Persona, name: string, now: real): Persona {
    p.(name := Some(name), revision := p.revision + 1, updatedAt := now)
  }

  /** A member changes the name of a persona hub h knows. */
  ghost predicate Rename(fold: Folding, net: Net, net': Net, h: nat, id: Bytes, name: string, now: real) {
    && h in net.hubs && id in net.hubs[h] && name != ""
    && NameFree(fold, net.hubs[h], name, id)
    && net' == Write(net, h, net.hubs[h][id := RenamedRow(net.hubs[h][id], name, now)])
  }

  // -- the store calls of a merge ------------------------------------------------

  /** `merge` reads the local row and goes on with a newer one. */
  ghost predicate Test(net: Net, net': Net, n: nat, h: nat, row: Persona) {
    && h in net.hubs && n !in net.tasks && row in net.seen
    && (row.id in net.hubs[h] ==> Newer(row, net.hubs[h][row.id]))
    && net' == WithTask(net, n, Task(h, row, net.hubs[h], net.hubs[h], Looking))
  }

  /** What `_adopt` decides on the holder its lookup finds. */
  ghost function Routed(fold: Folding, t: Table, task: Task): Task {
    var row := task.row;
    var holder := if row.name.Some? && row.name.value != "" then Holder(fold, t, fold(row.name.value)) else None;
    if holder.None? || holder.value == row.id then task.(asOf := t, stage := Writing)
    else if Wins(t[holder.value], row) then task.(row := Nameless(row), asOf := t, stage := Writing)
    else task.(asOf := t, stage := Clearing(t[holder.value]))
  }

  ghost predicate Active(net: Net, n: nat) {
    n in net.tasks && net.tasks[n].hub in net.hubs
  }

  ghost predicate LookUp(fold: Folding, net: Net, net': Net, n: nat) {
    && Active(net, n) && net.tasks[n].stage.Looking?
    && net' == WithTask(net, n, Routed(fold, net.hubs[net.tasks[n].hub], net.tasks[n]))
  }

  ghost function ClearedIn(t: Table, id: Bytes, now: real): Table {
    if id in t then t[id := Cleared(t[id], now)] else t
  }

  /** Takes whatever name the holder's row has by now. */
  ghost predicate Clear(net: Net, net': Net, n: nat, now: real) {
    && Active(net, n) && net.tasks[n].stage.Clearing?
    && var task := net.tasks[n];
       var id := task.stage.holder.id;
       net' == WithTask(Write(net, task.hub, ClearedIn(net.hubs[task.hub], id, now)), n,
                        task.(asOf := ClearedIn(task.asOf, id, now), stage := Writing))
  }

  ghost predicate AboutToWrite(net: Net, n: nat) {
    Active(net, n) && net.tasks[n].stage.Writing?
  }

  /** The unique index would refuse the write. */
  ghost predicate Refused(fold: Folding, net: Net, n: nat)
    requires AboutToWrite(net, n)
  {
    Clashes(fold, net.hubs[net.tasks[n].hub], net.tasks[n].row)
  }

  /** The row goes in as it is, or the index refuses it and the merge ends. */
  ghost predicate WriteBack(fold: Folding, net: Net, net': Net, n: nat) {
    && AboutToWrite(net, n)
    && var task := net.tasks[n];
       net' == if Refused(fold, net, n) then Ended(net, n)
               else Ended(Write(net, task.hub, net.hubs[task.hub][task.row.id := task.row]), n)
  }

  /** The daemon dies, or an exception ends the merge. */
  ghost predicate Abandon(net: Net, net': Net, n: nat) {
    n in net.tasks && net' == Ended(net, n)
  }

  ghost predicate StepWithoutRename(fold: Folding, net: Net, net': Net) {
    || (exists h, p :: Mint(fold, net, net', h, p))
    || (exists n, h, row :: Test(net, net', n, h, row))
    || (exists n :: LookUp(fold, net, net', n))
    || (exists n, now :: Clear(net, net', n, now))
    || (exists n :: WriteBack(fold, net, net', n))
    || (exists n :: Abandon(net, net', n))
  }

  ghost predicate Step(fold: Folding, net: Net, net': Net) {
    || StepWithoutRename(fold, net, net')
    || (exists h, id, name, now :: Rename(fold, net, net', h, id, name, now))
  }

  ghost predicate Initial(net: Net) {
    && (forall h | h in net.hubs :: net.hubs[h] == map[])
    && net.seen == {} && net.minted == map[] && net.tasks == map[]
  }

  ghost predicate StepAt(fold: Folding, run: seq<Net>, n: nat)
    requires n < |run| - 1
  {
    Step(fold, run[n], run[n + 1])
  }

  ghost predicate RenamelessAt(fold: Folding, run: seq<Net>, n: nat)
    requires n < |run| - 1
  {
    StepWithoutRename(fold, run[n], run[n + 1])
  }

  ghost predicate Run(fold: Folding, run: seq<Net>) {
    && |run| > 0 && Initial(run[0])
    && forall n: nat | n < |run| - 1 :: StepAt(fold, run, n)
  }

  ghost predicate RunWithoutRename(fold: Folding, run: seq<Net>) {
    && |run| > 0 && Initial(run[0])
    && forall n: nat | n < |run| - 1 :: RenamelessAt(fold, run, n)
  }

  // -- what every run keeps ----------------------------------------------------

  /** A row carries the claim time its persona was minted with. */
  ghost predicate Genuine(net: Net, row: Persona) {
    row.id in net.minted && row.claimedAt == net.minted[row.id].claimedAt && row.name != Some("")
  }

  /** A holder to be cleared was the only one in the way, and lost. */
  ghost predicate Contested(fold: Folding, asOf: Table, row: Persona, holder: Persona) {
    && holder.id != row.id && SameName(fold, row, holder) && Wins(row, holder)
    && holder.id in asOf
    && forall id | id in asOf && SameName(fold, asOf[id], row) :: id == row.id || id == holder.id
  }

  ghost predicate TaskSound(fold: Folding, net: Net, task: Task) {
    && Genuine(net, task.row)
    && (task.row.id in task.tested ==> Newer(task.row, task.tested[task.row.id]))
    && match task.stage
       case Looking => true
       case Clearing(holder) => holder in net.seen && Contested(fold, task.asOf, task.row, holder)
       case Writing => !Clashes(fold, task.asOf, task.row)
  }

  ghost predicate TablesSound(fold: Folding, net: Net) {
    && (forall h | h in net.hubs :: Valid(fold, net.hubs[h]))
    && (forall h, id | h in net.hubs && id in net.hubs[h] :: net.hubs[h][id] in net.seen)
    && (forall row | row in net.seen :: Genuine(net, row))
    && (forall id | id in net.minted :: net.minted[id].id == id)
  }

  ghost predicate Consistent(fold: Folding, net: Net) {
    TablesSound(fold, net) && forall n | n in net.tasks :: TaskSound(fold, net, net.tasks[n])
  }

  ghost predicate MintedGrows(net: Net, net': Net) {
    && net.seen <= net'.seen
    && forall id | id in net.minted :: id in net'.minted && net'.minted[id] == net.minted[id]
  }

  lemma TaskStaysSound(fold: Folding, net: Net, net': Net, task: Task)
    requires TaskSound(fold, net, task) && MintedGrows(net, net')
    ensures TaskSound(fold, net', task)
  {
  }

  /** Replacing one row of one table by a genuine row that takes nobody's name. */
  lemma RowKeepsTables(fold: Folding, net: Net, h: nat, p: Persona)
    requires TablesSound(fold, net) && h in net.hubs && Genuine(net, p)
    requires !Clashes(fold, net.hubs[h], p)
    ensures TablesSound(fold, Write(net, h, net.hubs[h][p.id := p]))
  {
    var t := net.hubs[h];
    var t' := t[p.id := p];
    assert forall id | id in t && id != p.id :: !SameName(fold, t[id], p);
    assert UniqueNames(fold, t');
    forall row | row in net.seen + Rows(t')
      ensures Genuine(net, row)
    {
      assert row in net.seen || row == p || row in Rows(t);
    }
  }

  lemma MintKeeps(fold: Folding, net: Net, net': Net, h: nat, p: Persona)
    requires Consistent(fold, net) && Mint(fold, net, net', h, p)
    ensures Consistent(fold, net') && MintedGrows(net, net')
  {
    var mid := net.(minted := net.minted[p.id := p]);
    assert TablesSound(fold, mid);
    forall id | id in net.hubs[h] && SameName(fold, net.hubs[h][id], p)
      ensures id == p.id
    {
      assert NamedAs(fold, net.hubs[h][id], fold(p.name.value));
    }
    RowKeepsTables(fold, mid, h, p);
    assert Write(mid, h, mid.hubs[h][p.id := p]) == net';
    TasksStaySound(fold, net, net');
  }

  lemma TasksStaySound(fold: Folding, net: Net, net': Net)
    requires Consistent(fold, net) && MintedGrows(net, net') && net'.tasks.Keys <= net.tasks.Keys
    requires forall n | n in net'.tasks :: net'.tasks[n] == net.tasks[n]
    ensures forall n | n in net'.tasks :: TaskSound(fold, net', net'.tasks[n])
  {
    forall n | n in net'.tasks
      ensures TaskSound(fold, net', net'.tasks[n])
    {
      TaskStaysSound(fold, net, net', net.tasks[n]);
    }
  }

  lemma RenameKeeps(fold: Folding, net: Net, net': Net, h: nat, id: Bytes, name: string, now: real)
    requires Consistent(fold, net) && Rename(fold, net, net', h, id, name, now)
    ensures Consistent(fold, net') && MintedGrows(net, net')
  {
    var p := RenamedRow(net.hubs[h][id], name, now);
    assert Genuine(net, net.hubs[h][id]);
    forall other | other in net.hubs[h] && SameName(fold, net.hubs[h][other], p)
      ensures other == p.id
    {
      assert NamedAs(fold, net.hubs[h][other], fold(name));
    }
    RowKeepsTables(fold, net, h, p);
    TasksStaySound(fold, net, net');
  }

  /** The decision after a lookup leaves a task whose write is clear of the table it
      looked at, once a beaten holder is cleared. */
  lemma RoutedIsSound(fold: Folding, net: Net, task: Task)
    requires TablesSound(fold, net) && TaskSound(fold, net, task) && task.stage.Looking? && task.hub in net.hubs
    ensures TaskSound(fold, net, Routed(fold, net.hubs[task.hub], task))
  {
    var t, row := net.hubs[task.hub], task.row;
    if row.name.Some? {
      forall id | id in t && SameName(fold, t[id], row)
        ensures Holder(fold, t, fold(row.name.value)) == Some(id)
      {
        HolderIsUnique(fold, t, fold(row.name.value), id);
      }
      var holder := Holder(fold, t, fold(row.name.value));
      if holder.Some? && holder.value != row.id {
        WinsIsStrictOrder(t[holder.value], row, row);
      }
    }
  }

  lemma LookUpKeeps(fold: Folding, net: Net, net': Net, n: nat)
    requires Consistent(fold, net) && LookUp(fold, net, net', n)
    ensures Consistent(fold, net') && MintedGrows(net, net')
  {
    RoutedIsSound(fold, net, net.tasks[n]);
    forall m | m in net'.tasks
      ensures TaskSound(fold, net', net'.tasks[m])
    {
      TaskStaysSound(fold, net, net', if m == n then net'.tasks[n] else net.tasks[m]);
    }
  }

  lemma TestKeeps(fold: Folding, net: Net, net': Net, n: nat, h: nat, row: Persona)
    requires Consistent(fold, net) && Test(net, net', n, h, row)
    ensures Consistent(fold, net') && MintedGrows(net, net')
  {
    forall m | m in net'.tasks && m != n
      ensures TaskSound(fold, net', net'.tasks[m])
    {
      TaskStaysSound(fold, net, net', net.tasks[m]);
    }
  }

  lemma ClearKeeps(fold: Folding, net: Net, net': Net, n: nat, now: real)
    requires Consistent(fold, net) && Clear(net, net', n, now)
    ensures Consistent(fold, net') && MintedGrows(net, net')
  {
    var task := net.tasks[n];
    var t, id := net.hubs[task.hub], task.stage.holder.id;
    if id in t {
      RowKeepsTables(fold, net, task.hub, Cleared(t[id], now));
    }
    ClearingIsSound(fold, net, task, now);
    forall m | m in net'.tasks
      ensures TaskSound(fold, net', net'.tasks[m])
    {
      TaskStaysSound(fold, net, net', if m == n then net'.tasks[n] else net.tasks[m]);
    }
  }

  lemma ClearingIsSound(fold: Folding, net: Net, task: Task, now: real)
    requires TaskSound(fold, net, task) && task.stage.Clearing?
    ensures TaskSound(fold, net, task.(asOf := ClearedIn(task.asOf, task.stage.holder.id, now), stage := Writing))
  {
  }

  lemma WriteBackKeeps(fold: Folding, net: Net, net': Net, n: nat)
    requires Consistent(fold, net) && WriteBack(fold, net, net', n)
    ensures Consistent(fold, net') && MintedGrows(net, net')
  {
    if !Refused(fold, net, n) {
      RowKeepsTables(fold, net, net.tasks[n].hub, net.tasks[n].row);
    }
    TasksStaySound(fold, net, net');
  }

  lemma StepKeepsConsistent(fold: Folding, net: Net, net': Net)
    requires Consistent(fold, net) && Step(fold, net, net')
    ensures Consistent(fold, net') && MintedGrows(net, net')
  {
    if h, p :| Mint(fold, net, net', h, p) {
      MintKeeps(fold, net, net', h, p);
    } else if n, h, row :| Test(net, net', n, h, row) {
      TestKeeps(fold, net, net', n, h, row);
    } else if n :| LookUp(fold, net, net', n) {
      LookUpKeeps(fold, net, net', n);
    } else if n, now :| Clear(net, net', n, now) {
      ClearKeeps(fold, net, net', n, now);
    } else if n :| WriteBack(fold, net, net', n) {
      WriteBackKeeps(fold, net, net', n);
    } else if n :| Abandon(net, net', n) {
      TasksStaySound(fold, net, net');
    } else {
      var h, id, name, now :| Rename(fold, net, net', h, id, name, now);
      RenameKeeps(fold, net, net', h, id, name, now);
    }
  }

  lemma InitialIsConsistent(fold: Folding, net: Net)
    requires Initial(net)
    ensures Consistent(fold, net)
  {
  }

  lemma {:induction false} RunIsConsistent(fold: Folding, run: seq<Net>, n: nat)
    requires Run(fold, run) && n < |run|
    ensures Consistent(fold, run[n])
  {
    if n == 0 {
      InitialIsConsistent(fold, run[0]);
    } else {
      RunIsConsistent(fold, run, n - 1);
      assert StepAt(fold, run, n - 1);
      StepKeepsConsistent(fold, run[n - 1], run[n]);
    }
  }

  lemma {:induction false} MintedPersists(fold: Folding, run: seq<Net>, m: nat, n: nat)
    requires Run(fold, run) && m <= n < |run|
    ensures MintedGrows(run[m], run[n])
    decreases n - m
  {
    if m < n {
      RunIsConsistent(fold, run, m);
      assert StepAt(fold, run, m);
      StepKeepsConsistent(fold, run[m], run[m + 1]);
      MintedPersists(fold, run, m + 1, n);
    }
  }

  /** After any run no two personas of a hub share a folded name, and a persona's
      claim time is the same on every hub at every time. */
  lemma NamesUniqueAndClaimsFixed(fold: Folding, run: seq<Net>, m: nat, n: nat, h: nat, k: nat, id: Bytes)
    requires Run(fold, run) && m <= n < |run|
    requires h in run[m].hubs && id in run[m].hubs[h]
    requires k in run[n].hubs && id in run[n].hubs[k]
    ensures UniqueNames(fold, run[n].hubs[k])
    ensures run[m].hubs[h][id].claimedAt == run[n].hubs[k][id].claimedAt
  {
    RunIsConsistent(fold, run, m);
    RunIsConsistent(fold, run, n);
    MintedPersists(fold, run, m, n);
    assert Genuine(run[m], run[m].hubs[h][id]);
    assert Genuine(run[n], run[n].hubs[k][id]);
  }

  // -- a merge nobody interrupts -----------------------------------------------

  /** The store calls of one row, one after the other with nothing in between. */
  ghost function Uninterrupted(fold: Folding, t: Table, row: Persona, now: real): Effect {
    var task := Routed(fold, t, Task(0, row, t, t, Looking));
    var lost := if task.stage.Clearing?
      then [Loser(Cleared(task.stage.holder, now), task.stage.holder.name.value)] else [];
    var t1 := if task.stage.Clearing? then ClearedIn(t, task.stage.holder.id, now) else t;
    if Clashes(fold, t1, task.row) then Effect(t1, lost, true) else Effect(t1[row.id := task.row], lost, false)
  }

  lemma UninterruptedEffect(fold: Folding, t: Table, row: Persona, now: real)
    requires Valid(fold, t) && (row.id in t ==> Newer(row, t[row.id]))
    ensures Uninterrupted(fold, t, row, now) == MergeRow(fold, t, row, now)
  {
    if row.name.Some? && row.name.value != "" {
      forall id | IsHolder(fold, t, fold(row.name.value), id)
        ensures Holder(fold, t, fold(row.name.value)) == Some(id)
      {
        HolderIsUnique(fold, t, fold(row.name.value), id);
      }
    }
  }

  /** The steps of merging one row, taken with no other in between, leave the table and
      the refusal that whole merges are reasoned about with. */
  lemma UninterruptedIsMergeRow(
    fold: Folding, net: Net, tested: Net, looked: Net, cleared: Net, end: Net, n: nat, h: nat, row: Persona, now: real)
    requires Test(net, tested, n, h, row) && Valid(fold, net.hubs[h])
    requires LookUp(fold, tested, looked, n)
    requires if looked.tasks[n].stage.Clearing? then Clear(looked, cleared, n, now) else cleared == looked
    requires WriteBack(fold, cleared, end, n)
    ensures end.hubs == net.hubs[h := MergeRow(fold, net.hubs[h], row, now).table]
    ensures Refused(fold, cleared, n) <==> MergeRow(fold, net.hubs[h], row, now).raised
    ensures end.tasks == net.tasks
  {
    UninterruptedEffect(fold, net.hubs[h], row, now);
    var routed := Routed(fold, net.hubs[h], Task(0, row, net.hubs[h], net.hubs[h], Looking));
    assert looked.tasks[n] == routed.(hub := h);
  }

  // -- what a merge can suffer from others of its hub -----------------------------

  /** Somebody holds the row's name who did not when the name was looked up. */
  ghost predicate NameTakenSince(fold: Folding, net: Net, n: nat)
    requires AboutToWrite(net, n)
  {
    var task := net.tasks[n];
    exists id :: id in net.hubs[task.hub] && id != task.row.id && SameName(fold, net.hubs[task.hub][id], task.row)
      && !(id in task.asOf && SameName(fold, task.asOf[id], task.row))
  }

  /** In any run the index refuses a merged row exactly when its name has been taken,
      on its own hub, between the lookup and the write. */
  lemma RefusedIffNameTakenSince(fold: Folding, run: seq<Net>, i: nat, n: nat)
    requires Run(fold, run) && i < |run| && AboutToWrite(run[i], n)
    ensures Refused(fold, run[i], n) <==> NameTakenSince(fold, run[i], n)
  {
    RunIsConsistent(fold, run, i);
    var net, task := run[i], run[i].tasks[n];
    assert TaskSound(fold, net, task);
    if Refused(fold, net, n) {
      var id :| id in net.hubs[task.hub] && id != task.row.id && SameName(fold, net.hubs[task.hub][id], task.row);
      assert id in task.asOf ==> id in task.asOf.Keys;
      assert !(id in task.asOf && SameName(fold, task.asOf[id], task.row));
    }
  }

  /** A claim that found its name free is refused at its commit exactly when another
      persona of the hub has taken the name since. */
  lemma ClaimRefusedIffNameTakenSince(fold: Folding, run: seq<Net>, i: nat, j: nat, h: nat, name: string, id: Bytes)
    requires Run(fold, run) && i <= j < |run| && h in run[i].hubs && h in run[j].hubs
    requires NameFree(fold, run[i].hubs[h], name, id)
    ensures !NameFree(fold, run[j].hubs[h], name, id) <==>
      exists other :: other != id && IsHolder(fold, run[j].hubs[h], fold(name), other)
        && !IsHolder(fold, run[i].hubs[h], fold(name), other)
  {
    if other :| other in run[j].hubs[h] && NamedAs(fold, run[j].hubs[h][other], fold(name)) && other != id {
      assert IsHolder(fold, run[j].hubs[h], fold(name), other);
    }
  }

  /** The row about to be written is older than the one it replaces. */
  ghost predicate Outdated(net: Net, n: nat)
    requires AboutToWrite(net, n)
  {
    var task := net.tasks[n];
    task.row.id in net.hubs[task.hub] && Newer(net.hubs[task.hub][task.row.id], task.row)
  }

  ghost predicate RevertedBy(fold: Folding, net: Net, net': Net, h: nat, n: nat) {
    && AboutToWrite(net, n) && WriteBack(fold, net, net', n) && net.tasks[n].hub == h
    && !Refused(fold, net, n) && Outdated(net, n)
  }

  /** This step writes back an outdated row on hub h. */
  ghost predicate Reverts(fold: Folding, net: Net, net': Net, h: nat) {
    exists n :: RevertedBy(fold, net, net', h, n)
  }

  /** A row is only outdated when it was written since its version was tested. */
  lemma OutdatedMeansWrittenSince(fold: Folding, run: seq<Net>, i: nat, n: nat)
    requires Run(fold, run) && i < |run| && AboutToWrite(run[i], n) && Outdated(run[i], n)
    ensures var task := run[i].tasks[n];
      !(task.row.id in task.tested && task.tested[task.row.id] == run[i].hubs[task.hub][task.row.id])
  {
    RunIsConsistent(fold, run, i);
    assert TaskSound(fold, run[i], run[i].tasks[n]);
  }

  /** In any run a step takes some persona of a hub to an older version exactly when it
      writes back an outdated row there. */
  lemma VersionDropsIffReverts(fold: Folding, run: seq<Net>, i: nat, h: nat)
    requires Run(fold, run) && i < |run| - 1 && h in run[i].hubs
    ensures h in run[i + 1].hubs
    ensures !Advanced(run[i].hubs[h], run[i + 1].hubs[h]) <==> Reverts(fold, run[i], run[i + 1], h)
  {
    RunIsConsistent(fold, run, i);
    assert StepAt(fold, run, i);
    var net, net' := run[i], run[i + 1];
    if n :| RevertedBy(fold, net, net', h, n) {
      RevertingDrops(fold, net, net', h, n);
    } else {
      OthersAdvance(fold, net, net', h);
    }
  }

  lemma RevertingDrops(fold: Folding, net: Net, net': Net, h: nat, n: nat)
    requires RevertedBy(fold, net, net', h, n)
    ensures h in net'.hubs && !Advanced(net.hubs[h], net'.hubs[h])
  {
    assert net.tasks[n].row.id in net.hubs[h];
  }

  lemma OthersAdvance(fold: Folding, net: Net, net': Net, h: nat)
    requires Consistent(fold, net) && Step(fold, net, net') && h in net.hubs && !Reverts(fold, net, net', h)
    ensures h in net'.hubs && Advanced(net.hubs[h], net'.hubs[h])
  {
    if k, p :| Mint(fold, net, net', k, p) {
      MintAdvances(fold, net, net', k, p, h);
    } else if n, k, row :| Test(net, net', n, k, row) {
    } else if n :| LookUp(fold, net, net', n) {
    } else if n, now :| Clear(net, net', n, now) {
      ClearAdvances(net, net', n, now, h);
    } else if n :| WriteBack(fold, net, net', n) {
      WriteBackAdvances(fold, net, net', n, h);
    } else if n :| Abandon(net, net', n) {
    } else {
      var k, id, name, now :| Rename(fold, net, net', k, id, name, now);
      RenameAdvances(fold, net, net', k, id, name, now, h);
    }
  }

  lemma MintAdvances(fold: Folding, net: Net, net': Net, k: nat, p: Persona, h: nat)
    requires Consistent(fold, net) && Mint(fold, net, net', k, p) && h in net.hubs
    ensures h in net'.hubs && Advanced(net.hubs[h], net'.hubs[h])
  {
    assert p.id in net.hubs[k] ==> Genuine(net, net.hubs[k][p.id]);
  }

  lemma ClearAdvances(net: Net, net': Net, n: nat, now: real, h: nat)
    requires Clear(net, net', n, now) && h in net.hubs
    ensures h in net'.hubs && Advanced(net.hubs[h], net'.hubs[h])
  {
  }

  lemma RenameAdvances(fold: Folding, net: Net, net': Net, k: nat, id: Bytes, name: string, now: real, h: nat)
    requires Rename(fold, net, net', k, id, name, now) && h in net.hubs
    ensures h in net'.hubs && Advanced(net.hubs[h], net'.hubs[h])
  {
  }

  lemma WriteBackAdvances(fold: Folding, net: Net, net': Net, n: nat, h: nat)
    requires WriteBack(fold, net, net', n) && h in net.hubs && !Reverts(fold, net, net', h)
    ensures h in net'.hubs && Advanced(net.hubs[h], net'.hubs[h])
  {
    assert !RevertedBy(fold, net, net', h, n);
  }

  // -- the earliest claim ------------------------------------------------------

  /** Some persona minted for the same name has an earlier claim. */
  ghost predicate Outclaimed(fold: Folding, net: Net, id: Bytes)
    requires id in net.minted
  {
    exists v :: OutclaimedBy(fold, net, id, v)
  }

  ghost predicate OutclaimedBy(fold: Folding, net: Net, id: Bytes, v: Bytes)
    requires id in net.minted
  {
    v in net.minted && SameName(fold, net.minted[v], net.minted[id]) && Wins(net.minted[v], net.minted[id])
  }

  /** Without renames a row has the name it was minted with, or has lost it to an
      earlier claim. */
  ghost predicate Justified(fold: Folding, net: Net, row: Persona) {
    && Genuine(net, row)
    && (row.name == net.minted[row.id].name || (row.name == None && Outclaimed(fold, net, row.id)))
  }

  /** So are the rows on their way into a table. */
  ghost predicate AllJustified(fold: Folding, net: Net) {
    && Consistent(fold, net)
    && (forall row | row in net.seen :: Justified(fold, net, row))
    && (forall n | n in net.tasks :: Justified(fold, net, net.tasks[n].row))
  }

  lemma JustifiedGrows(fold: Folding, net: Net, net': Net, row: Persona)
    requires Justified(fold, net, row) && MintedGrows(net, net')
    ensures Justified(fold, net', row)
  {
    if row.name != net.minted[row.id].name {
      var v :| OutclaimedBy(fold, net, row.id, v);
      assert OutclaimedBy(fold, net', row.id, v);
    }
  }

  /** A named row that loses to another named row of the same name is outclaimed. */
  lemma LoserIsOutclaimed(fold: Folding, net: Net, winner: Persona, loser: Persona)
    requires TablesSound(fold, net) && Justified(fold, net, winner) && Justified(fold, net, loser)
    requires SameName(fold, winner, loser) && Wins(winner, loser)
    ensures Outclaimed(fold, net, loser.id)
  {
    assert OutclaimedBy(fold, net, loser.id, winner.id);
  }

  lemma RoutedIsJustified(fold: Folding, net: Net, task: Task)
    requires AllJustified(fold, net) && Justified(fold, net, task.row) && task.hub in net.hubs
    ensures Justified(fold, net, Routed(fold, net.hubs[task.hub], task).row)
  {
    var t, row := net.hubs[task.hub], task.row;
    if row.name.Some? {
      var holder := Holder(fold, t, fold(row.name.value));
      if holder.Some? && holder.value != row.id && Wins(t[holder.value], row) {
        assert Justified(fold, net, t[holder.value]);
        LoserIsOutclaimed(fold, net, t[holder.value], row);
      }
    }
  }

  lemma ClearedIsJustified(fold: Folding, net: Net, n: nat, now: real)
    requires AllJustified(fold, net) && Active(net, n) && net.tasks[n].stage.Clearing?
    ensures var task := net.tasks[n];
      var t, id := net.hubs[task.hub], task.stage.holder.id;
      id in t ==> Justified(fold, net, Cleared(t[id], now))
  {
    var task := net.tasks[n];
    assert TaskSound(fold, net, task) && Justified(fold, net, task.row) && Justified(fold, net, task.stage.holder);
    LoserIsOutclaimed(fold, net, task.row, task.stage.holder);
    if task.stage.holder.id in net.hubs[task.hub] {
      assert Genuine(net, net.hubs[task.hub][task.stage.holder.id]);
    }
  }

  /** One justified row written into one table: everything stays justified. */
  lemma RowKeepsJustified(fold: Folding, net: Net, net': Net, h: nat, p: Persona)
    requires AllJustified(fold, net) && h in net.hubs && Justified(fold, net', p) && MintedGrows(net, net')
    requires net'.seen == net.seen + Rows(net.hubs[h][p.id := p])
    ensures forall row | row in net'.seen :: Justified(fold, net', row)
  {
    forall row | row in net'.seen
      ensures Justified(fold, net', row)
    {
      if row in net.seen {
        JustifiedGrows(fold, net, net', row);
      } else {
        assert row == p;
      }
    }
  }

  lemma TasksStayJustified(fold: Folding, net: Net, net': Net, n: nat)
    requires AllJustified(fold, net) && MintedGrows(net, net')
    requires forall m | m in net'.tasks && m != n :: m in net.tasks && net'.tasks[m].row == net.tasks[m].row
    requires n in net'.tasks ==> Justified(fold, net, net'.tasks[n].row)
    ensures forall m | m in net'.tasks :: Justified(fold, net', net'.tasks[m].row)
  {
    forall m | m in net'.tasks
      ensures Justified(fold, net', net'.tasks[m].row)
    {
      JustifiedGrows(fold, net, net', net'.tasks[m].row);
    }
  }

  lemma SeenStaysJustified(fold: Folding, net: Net, net': Net)
    requires AllJustified(fold, net) && MintedGrows(net, net') && net'.seen == net.seen
    ensures forall row | row in net'.seen :: Justified(fold, net', row)
  {
    forall row | row in net'.seen
      ensures Justified(fold, net', row)
    {
      JustifiedGrows(fold, net, net', row);
    }
  }

  lemma StepKeepsJustified(fold: Folding, net: Net, net': Net)
    requires AllJustified(fold, net) && StepWithoutRename(fold, net, net')
    ensures AllJustified(fold, net')
  {
    StepKeepsConsistent(fold, net, net');
    if h, p :| Mint(fold, net, net', h, p) {
      MintKeepsJustified(fold, net, net', h, p);
    } else if n, h, row :| Test(net, net', n, h, row) {
      TestKeepsJustified(fold, net, net', n, h, row);
    } else if n :| LookUp(fold, net, net', n) {
      LookUpKeepsJustified(fold, net, net', n);
    } else if n, now :| Clear(net, net', n, now) {
      ClearKeepsJustified(fold, net, net', n, now);
    } else if n :| WriteBack(fold, net, net', n) {
      WriteBackKeepsJustified(fold, net, net', n);
    } else {
      var n :| Abandon(net, net', n);
      SeenStaysJustified(fold, net, net');
      OtherTasksStayJustified(fold, net, net');
    }
  }

  lemma MintKeepsJustified(fold: Folding, net: Net, net': Net, h: nat, p: Persona)
    requires AllJustified(fold, net) && Mint(fold, net, net', h, p) && Consistent(fold, net') && MintedGrows(net, net')
    ensures AllJustified(fold, net')
  {
    RowKeepsJustified(fold, net, net', h, p);
    OtherTasksStayJustified(fold, net, net');
  }

  lemma TestKeepsJustified(fold: Folding, net: Net, net': Net, n: nat, h: nat, row: Persona)
    requires AllJustified(fold, net) && Test(net, net', n, h, row) && Consistent(fold, net') && MintedGrows(net, net')
    ensures AllJustified(fold, net')
  {
    SeenStaysJustified(fold, net, net');
    TasksStayJustified(fold, net, net', n);
  }

  lemma LookUpKeepsJustified(fold: Folding, net: Net, net': Net, n: nat)
    requires AllJustified(fold, net) && LookUp(fold, net, net', n) && Consistent(fold, net') && MintedGrows(net, net')
    ensures AllJustified(fold, net')
  {
    SeenStaysJustified(fold, net, net');
    RoutedIsJustified(fold, net, net.tasks[n]);
    TasksStayJustified(fold, net, net', n);
  }

  lemma OtherTasksStayJustified(fold: Folding, net: Net, net': Net)
    requires AllJustified(fold, net) && MintedGrows(net, net')
    requires forall m | m in net'.tasks :: m in net.tasks && net'.tasks[m] == net.tasks[m]
    ensures forall m | m in net'.tasks :: Justified(fold, net', net'.tasks[m].row)
  {
    forall m | m in net'.tasks
      ensures Justified(fold, net', net'.tasks[m].row)
    {
      JustifiedGrows(fold, net, net', net.tasks[m].row);
    }
  }

  lemma ClearKeepsJustified(fold: Folding, net: Net, net': Net, n: nat, now: real)
    requires AllJustified(fold, net) && Clear(net, net', n, now) && Consistent(fold, net') && MintedGrows(net, net')
    ensures AllJustified(fold, net')
  {
    var task := net.tasks[n];
    var t, id := net.hubs[task.hub], task.stage.holder.id;
    ClearedIsJustified(fold, net, n, now);
    if id in t {
      JustifiedGrows(fold, net, net', Cleared(t[id], now));
      RowKeepsJustified(fold, net, net', task.hub, Cleared(t[id], now));
    } else {
      assert net'.seen == net.seen;
      SeenStaysJustified(fold, net, net');
    }
    TasksStayJustified(fold, net, net', n);
  }

  lemma WriteBackKeepsJustified(fold: Folding, net: Net, net': Net, n: nat)
    requires AllJustified(fold, net) && WriteBack(fold, net, net', n) && Consistent(fold, net')
        && MintedGrows(net, net')
    ensures AllJustified(fold, net')
  {
    if Refused(fold, net, n) {
      SeenStaysJustified(fold, net, net');
    } else {
      JustifiedGrows(fold, net, net', net.tasks[n].row);
      RowKeepsJustified(fold, net, net', net.tasks[n].hub, net.tasks[n].row);
    }
    OtherTasksStayJustified(fold, net, net');
  }

  lemma {:induction false} RunIsJustified(fold: Folding, run: seq<Net>, n: nat)
    requires RunWithoutRename(fold, run) && n < |run|
    ensures AllJustified(fold, run[n])
  {
    if n == 0 {
      InitialIsConsistent(fold, run[0]);
    } else {
      RunIsJustified(fold, run, n - 1);
      assert RenamelessAt(fold, run, n - 1);
      StepKeepsJustified(fold, run[n - 1], run[n]);
    }
  }

  /** `w` has the earliest claim among all personas ever minted for its name; at equal
      times, the id that comes first. */
  ghost predicate Earliest(fold: Folding, net: Net, w: Bytes) {
    && w in net.minted
    && forall v | v in net.minted && v != w && SameName(fold, net.minted[v], net.minted[w]) ::
         || net.minted[w].claimedAt < net.minted[v].claimedAt
         || (net.minted[w].claimedAt == net.minted[v].claimedAt && ComesFirst(w, v))
  }

  /** Without renames, the earliest claim to a name is never cleared or stored
      nameless on any hub, at any time and in any row still in transit, however the
      store calls of merges and claims interleave; and every hub that has received it
      resolves the name to it and to nobody else. */
  lemma EarliestClaimPrevails(fold: Folding, run: seq<Net>, n: nat, w: Bytes)
    requires RunWithoutRename(fold, run) && n < |run|
    requires Earliest(fold, run[n], w)
    ensures forall row | row in run[n].seen && row.id == w :: row.name == run[n].minted[w].name
    ensures forall m | m in run[n].tasks && run[n].tasks[m].row.id == w ::
      run[n].tasks[m].row.name == run[n].minted[w].name
    ensures forall h | h in run[n].hubs && w in run[n].hubs[h] && run[n].minted[w].name.Some? ::
      Holder(fold, run[n].hubs[h], fold(run[n].minted[w].name.value)) == Some(w)
  {
    var net := run[n];
    RunIsJustified(fold, run, n);
    forall row | Justified(fold, net, row) && row.id == w
      ensures row.name == net.minted[w].name
    {
      NobodyOutclaimsTheEarliest(fold, net, w);
    }
    forall h | h in net.hubs && w in net.hubs[h] && net.minted[w].name.Some?
      ensures Holder(fold, net.hubs[h], fold(net.minted[w].name.value)) == Some(w)
    {
      var t := net.hubs[h];
      assert t[w] in net.seen && t[w].id == w;
      HolderIsUnique(fold, t, fold(net.minted[w].name.value), w);
    }
  }

  lemma NobodyOutclaimsTheEarliest(fold: Folding, net: Net, w: Bytes)
    requires TablesSound(fold, net) && Earliest(fold, net, w)
    ensures !Outclaimed(fold, net, w)
  {
    forall v | v in net.minted
      ensures !OutclaimedBy(fold, net, w, v)
    {
      WinsIsStrictOrder(net.minted[v], net.minted[w], net.minted[w]);
      WinsMeansEarlier(net.minted[w], net.minted[v]);
    }
  }

  // -- what else a clearing can take ----------------------------------------------

  ghost predicate AboutToClear(net: Net, n: nat) {
    Active(net, n) && net.tasks[n].stage.Clearing?
  }

  /** The clearing would take a name that is not the arriving row's. */
  ghost predicate TakesOther(fold: Folding, net: Net, n: nat)
    requires AboutToClear(net, n)
  {
    var task := net.tasks[n];
    var t, id := net.hubs[task.hub], task.stage.holder.id;
    id in t && t[id].name.Some? && !SameName(fold, t[id], task.row)
  }

  /** The holder goes by another name than the one the lookup found. */
  ghost predicate HolderRenamed(fold: Folding, net: Net, n: nat)
    requires AboutToClear(net, n) && net.tasks[n].stage.holder.name.Some?
  {
    var task := net.tasks[n];
    var t, holder := net.hubs[task.hub], task.stage.holder;
    holder.id in t && t[holder.id].name.Some? && fold(t[holder.id].name.value) != fold(holder.name.value)
  }

  /** In any run a clearing takes a name other than the arriving row's exactly when the
      holder was renamed since the lookup. */
  lemma TakesOtherIffHolderRenamed(fold: Folding, run: seq<Net>, i: nat, n: nat)
    requires Run(fold, run) && i < |run| && AboutToClear(run[i], n)
    ensures run[i].tasks[n].stage.holder.name.Some?
    ensures TakesOther(fold, run[i], n) <==> HolderRenamed(fold, run[i], n)
  {
    RunIsConsistent(fold, run, i);
    assert TaskSound(fold, run[i], run[i].tasks[n]);
  }

  /** Where nobody is renamed, only contested names are taken. */
  lemma WithoutRenameOnlyContestedAreTaken(fold: Folding, run: seq<Net>, i: nat, n: nat)
    requires RunWithoutRename(fold, run) && i < |run| && AboutToClear(run[i], n)
    ensures !TakesOther(fold, run[i], n)
  {
    RunIsJustified(fold, run, i);
    var net, task := run[i], run[i].tasks[n];
    assert TaskSound(fold, net, task) && Justified(fold, net, task.stage.holder);
    if task.stage.holder.id in net.hubs[task.hub] {
      assert Justified(fold, net, net.hubs[task.hub][task.stage.holder.id]);
    }
  }

  // -- runs in which a merge suffers ----------------------------------------------

  function Ab(): Persona {
    Persona([1], Some("ab"), 1.0, 1, 1.0)
  }

  /** Two hubs; a member of the second has claimed "ab". */
  ghost function Start(): Net {
    Net(map[0 := map[], 1 := map[]], {}, map[], map[])
  }

  ghost function Claimed(): Net {
    Minted(Start(), 1, Ab())
  }

  lemma RunGrows(fold: Folding, run: seq<Net>, net: Net)
    requires Run(fold, run) && Step(fold, run[|run| - 1], net)
    ensures Run(fold, run + [net])
  {
    forall n: nat | n < |run|
      ensures StepAt(fold, run + [net], n)
    {
      if n < |run| - 1 {
        assert StepAt(fold, run, n);
      }
    }
  }

  lemma ClaimedIsReached(fold: Folding)
    ensures Run(fold, [Start(), Claimed()]) && Ab() in Claimed().seen
    ensures Claimed().hubs == map[0 := map[], 1 := map[[1] := Ab()]]
  {
    assert Run(fold, [Start()]);
    assert Mint(fold, Start(), Claimed(), 1, Ab());
    RunGrows(fold, [Start()], Claimed());
    assert [Start()] + [Claimed()] == [Start(), Claimed()];
    assert Claimed().hubs[1][[1]] == Ab() && Ab() in Rows(Claimed().hubs[1]);
  }

  /** The first hub starts merging a row it can take: version tested, name looked up. */
  lemma MergeStarts(fold: Folding, run: seq<Net>, row: Persona) returns (longer: seq<Net>)
    requires Run(fold, run) && var net := run[|run| - 1];
      && 0 in net.hubs && 0 !in net.tasks && row in net.seen && row.name.Some?
      && (row.id in net.hubs[0] ==> Newer(row, net.hubs[0][row.id]))
      && (forall id | id in net.hubs[0] :: SameName(fold, net.hubs[0][id], row) ==> id == row.id)
    ensures Run(fold, longer) && var net, net' := run[|run| - 1], longer[|longer| - 1];
      net' == WithTask(net, 0, Task(0, row, net.hubs[0], net.hubs[0], Writing))
  {
    var net := run[|run| - 1];
    var t := net.hubs[0];
    var tested := Task(0, row, t, t, Looking);
    var net1 := WithTask(net, 0, tested);
    assert Test(net, net1, 0, 0, row);
    RunGrows(fold, run, net1);
    forall id | IsHolder(fold, t, fold(row.name.value), id)
      ensures id == row.id
    {
      assert SameName(fold, t[id], row);
    }
    assert Routed(fold, t, tested) == tested.(stage := Writing);
    var net2 := WithTask(net1, 0, tested.(stage := Writing));
    assert LookUp(fold, net1, net2, 0);
    RunGrows(fold, run + [net1], net2);
    longer := run + [net1] + [net2];
    assert net2 == WithTask(net, 0, Task(0, row, t, t, Writing));
  }

  /** A local claim between the lookup and the write: the earlier claim to "ab" is
      refused on the first hub. */
  lemma ClaimInBetweenRefuses(fold: Folding) returns (run: seq<Net>)
    ensures Run(fold, run) && var net := run[|run| - 1];
      AboutToWrite(net, 0) && net.tasks[0].row == Ab() && Refused(fold, net, 0)
  {
    ClaimedIsReached(fold);
    run := MergeStarts(fold, [Start(), Claimed()], Ab());
    var net := run[|run| - 1];
    var late := Persona([2], Some("ab"), 5.0, 1, 5.0);
    var net' := Minted(net, 0, late);
    assert Mint(fold, net, net', 0, late);
    RunGrows(fold, run, net');
    run := run + [net'];
    assert [2] in net'.hubs[0] && SameName(fold, net'.hubs[0][[2]], Ab());
  }

  /** The first hub has merged the claim. */
  lemma MergeEnds(fold: Folding) returns (run: seq<Net>)
    ensures Run(fold, run) && var net := run[|run| - 1];
      net.hubs == map[0 := map[[1] := Ab()], 1 := map[[1] := Ab()]] && net.tasks == map[]
  {
    ClaimedIsReached(fold);
    run := MergeStarts(fold, [Start(), Claimed()], Ab());
    var net := run[|run| - 1];
    assert !Refused(fold, net, 0);
    var net' := Ended(Write(net, 0, map[[1] := Ab()]), 0);
    assert net.hubs[0][[1] := Ab()] == map[[1] := Ab()];
    assert WriteBack(fold, net, net', 0);
    RunGrows(fold, run, net');
    run := run + [net'];
  }

  lemma RenamedOn(fold: Folding, run: seq<Net>, h: nat, name: string, now: real) returns (longer: seq<Net>)
    requires Run(fold, run) && name != "" && var net := run[|run| - 1];
      h in net.hubs && net.hubs[h].Keys == {[1]}
    ensures Run(fold, longer) && |longer| == |run| + 1 && var net, net' := run[|run| - 1], longer[|run|];
      && net'.hubs == net.hubs[h := map[[1] := RenamedRow(net.hubs[h][[1]], name, now)]]
      && net'.tasks == net.tasks && RenamedRow(net.hubs[h][[1]], name, now) in net'.seen
  {
    var net := run[|run| - 1];
    var p := RenamedRow(net.hubs[h][[1]], name, now);
    var net' := Write(net, h, net.hubs[h][[1] := p]);
    assert Rename(fold, net, net', h, [1], name, now);
    RunGrows(fold, run, net');
    longer := run + [net'];
    assert net.hubs[h][[1] := p] == map[[1] := p];
    assert net'.hubs[h][[1]] == p && p in Rows(net'.hubs[h]);
  }

  /** A local rename between the test and the write: the write takes the persona back
      to the older version, and the rename is lost. */
  lemma RenameInBetweenIsLost(fold: Folding) returns (run: seq<Net>)
    ensures Run(fold, run) && |run| > 1 && var net, net' := run[|run| - 2], run[|run| - 1];
      && Reverts(fold, net, net', 0)
      && net.hubs[0] == map[[1] := Persona([1], Some("ef"), 1.0, 2, 20.0)]
      && net'.hubs[0] == map[[1] := Persona([1], Some("cd"), 1.0, 2, 10.0)]
  {
    var merged := MergeEnds(fold);
    var renamed := RenamedOn(fold, merged, 1, "cd", 10.0);
    var row := RenamedRow(Ab(), "cd", 10.0);
    var started := MergeStarts(fold, renamed, row);
    var before := RenamedOn(fold, started, 0, "ef", 20.0);
    var net := before[|before| - 1];
    assert net.hubs[0] == map[[1] := RenamedRow(Ab(), "ef", 20.0)];
    var net' := Ended(Write(net, 0, map[[1] := row]), 0);
    assert net.hubs[0][[1] := row] == map[[1] := row];
    assert !Refused(fold, net, 0);
    assert WriteBack(fold, net, net', 0);
    assert RevertedBy(fold, net, net', 0, 0);
    RunGrows(fold, before, net');
    run := before + [net'];
  }

  function LateAb(): Persona {
    Persona([2], Some("ab"), 5.0, 1, 5.0)
  }

  /** A later claim to "ab" on the first hub, found by the lookup and about to be cleared. */
  lemma LateHolderIsFound(fold: Folding) returns (run: seq<Net>)
    ensures Run(fold, run) && var net := run[|run| - 1];
      && 0 in net.hubs && net.hubs[0] == map[[2] := LateAb()]
      && net.tasks == map[0 := Task(0, Ab(), net.hubs[0], net.hubs[0], Clearing(LateAb()))]
  {
    ClaimedIsReached(fold);
    var both := Minted(Claimed(), 0, LateAb());
    assert Mint(fold, Claimed(), both, 0, LateAb());
    run := [Start(), Claimed()];
    RunGrows(fold, run, both);
    run := run + [both];
    var t := both.hubs[0];
    assert t == map[[2] := LateAb()];
    var tested := WithTask(both, 0, Task(0, Ab(), t, t, Looking));
    assert Test(both, tested, 0, 0, Ab());
    RunGrows(fold, run, tested);
    run := run + [tested];
    LateHolderIsRouted(fold, t, LateAb());
    var looked := WithTask(tested, 0, Task(0, Ab(), t, t, Clearing(LateAb())));
    assert LookUp(fold, tested, looked, 0);
    RunGrows(fold, run, looked);
    run := run + [looked];
  }

  /** A local rename between the lookup and the clearing: the holder has given up the
      contested name and loses the new one, which nobody else claims. */
  lemma RenamedHolderIsCleared(fold: Folding) returns (run: seq<Net>)
    requires fold("ab") != fold("cd")
    ensures Run(fold, run) && |run| > 1 && var net, net' := run[|run| - 2], run[|run| - 1];
      && AboutToClear(net, 0) && Clear(net, net', 0, 30.0) && TakesOther(fold, net, 0)
      && 0 in net.hubs && net.hubs[0] == map[[2] := Persona([2], Some("cd"), 5.0, 2, 20.0)]
      && 0 in net'.hubs && net'.hubs[0] == map[[2] := Persona([2], None, 5.0, 3, 30.0)]
  {
    var found := LateHolderIsFound(fold);
    var renamed := LateHolderRenames(fold, found);
    var net := renamed[|renamed| - 1];
    var gone := Persona([2], None, 5.0, 3, 30.0);
    var task := net.tasks[0];
    assert ClearedIn(net.hubs[0], [2], 30.0) == map[[2] := gone];
    var done := task.(asOf := ClearedIn(task.asOf, [2], 30.0), stage := Writing);
    var net' := WithTask(Write(net, 0, map[[2] := gone]), 0, done);
    assert Clear(net, net', 0, 30.0);
    RunGrows(fold, renamed, net');
    run := renamed + [net'];
  }

  lemma LateHolderRenames(fold: Folding, run: seq<Net>) returns (longer: seq<Net>)
    requires Run(fold, run) && var net := run[|run| - 1];
      0 in net.hubs && net.hubs[0] == map[[2] := LateAb()]
    ensures Run(fold, longer) && |longer| == |run| + 1 && var net, net' := run[|run| - 1], longer[|run|];
      && net'.hubs == net.hubs[0 := map[[2] := Persona([2], Some("cd"), 5.0, 2, 20.0)]] && net'.tasks == net.tasks
  {
    var net := run[|run| - 1];
    var p := Persona([2], Some("cd"), 5.0, 2, 20.0);
    var net' := Write(net, 0, map[[2] := p]);
    assert net.hubs[0][[2] := p] == map[[2] := p];
    assert Rename(fold, net, net', 0, [2], "cd", 20.0);
    RunGrows(fold, run, net');
    longer := run + [net'];
  }

  lemma LateHolderIsRouted(fold: Folding, t: Table, late: Persona)
    requires late == Persona([2], Some("ab"), 5.0, 1, 5.0) && t == map[[2] := late]
    ensures Routed(fold, t, Task(0, Ab(), t, t, Looking)) == Task(0, Ab(), t, t, Clearing(late))
  {
    assert IsHolder(fold, t, fold("ab"), [2]);
    HolderIsUnique(fold, t, fold("ab"), [2]);
  }
}
