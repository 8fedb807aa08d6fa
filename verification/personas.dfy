/** Persona rows and the rule that merges them, from lxmf_hub/personas.py and the
    persona tables of lxmf_hub/store.py.

    A row is merged here in one go; what may fall between the store calls that merging it
    takes is the subject of Mesh. `fold` stands for `str.casefold`; nothing is assumed about
    it. */
module Personas {
  import opened Wrappers
  import opened ByteStrings

  type Folding = string -> string

  datatype Persona = Persona(
    id: Bytes,
    name: Option<string>,
    claimedAt: real,
    revision: int,
    updatedAt: real)

  /** The personas table, by primary key. */
  type Table = map<Bytes, Persona>

  ghost predicate WellKeyed(t: Table) {
    forall id | id in t :: t[id].id == id
  }

  predicate NamedAs(fold: Folding, p: Persona, folded: string) {
    p.name.Some? && fold(p.name.value) == folded
  }

  predicate SameName(fold: Folding, p: Persona, q: Persona) {
    p.name.Some? && q.name.Some? && fold(p.name.value) == fold(q.name.value)
  }

  /** The unique index on name_folded; NULLs never clash. */
  ghost predicate UniqueNames(fold: Folding, t: Table) {
    forall i, j | i in t && j in t && SameName(fold, t[i], t[j]) :: i == j
  }

  ghost predicate Valid(fold: Folding, t: Table) {
    WellKeyed(t) && UniqueNames(fold, t)
  }

  // -- the two orders --------------------------------------------------------

  predicate IdLess(a: Bytes, b: Bytes) {
    a != b && Leq(a, b)
  }

  /** Whether `first` keeps a name both claim: the earlier claim, then the lower id. */
  predicate Wins(first: Persona, second: Persona) {
    first.claimedAt < second.claimedAt || (first.claimedAt == second.claimedAt && IdLess(first.id, second.id))
  }

  /** Of two different personas exactly one wins, and winning is transitive. */
  lemma WinsIsStrictOrder(p: Persona, q: Persona, r: Persona)
    ensures !Wins(p, p)
    ensures p.id != q.id ==> (Wins(p, q) <==> !Wins(q, p))
    ensures Wins(p, q) && Wins(q, r) ==> Wins(p, r)
  {
    LeqTotal(p.id, q.id);
    LeqTotal(q.id, r.id);
    LeqTotal(p.id, r.id);
    if Leq(p.id, q.id) && Leq(q.id, r.id) {
      LeqTransitive(p.id, q.id, r.id);
    }
  }

  /** Version order of one persona's rows. */
  predicate Newer(remote: Persona, local: Persona) {
    remote.revision > local.revision || (remote.revision == local.revision && remote.updatedAt > local.updatedAt)
  }

  /** Winning, told in claim times and ids. */
  lemma WinsMeansEarlier(p: Persona, q: Persona)
    ensures p.claimedAt < q.claimedAt ==> Wins(p, q) && !Wins(q, p)
    ensures p.claimedAt == q.claimedAt ==> (Wins(p, q) <==> ComesFirst(p.id, q.id))
  {
    LeqMeansComesFirst(p.id, q.id);
    if n :| ComesFirstAt(p.id, p.id, n) {
      assert false;
    }
  }

  // -- merging one row -------------------------------------------------------

  /** The row a name resolves to, if any; unique when the index holds. */
  ghost predicate IsHolder(fold: Folding, t: Table, folded: string, id: Bytes) {
    id in t && NamedAs(fold, t[id], folded)
  }

  ghost function Holder(fold: Folding, t: Table, folded: string): Option<Bytes> {
    if exists id :: IsHolder(fold, t, folded, id) then
      var id :| IsHolder(fold, t, folded, id); Some(id)
    else None
  }

  lemma HolderIsUnique(fold: Folding, t: Table, folded: string, id: Bytes)
    requires UniqueNames(fold, t) && IsHolder(fold, t, folded, id)
    ensures Holder(fold, t, folded) == Some(id)
  {
  }

  function Nameless(p: Persona): Persona {
    p.(name := None)
  }

  /** What `set_persona_name(id, None)` leaves of a row. */
  function Cleared(p: Persona, now: real): Persona {
    p.(name := None, revision := p.revision + 1, updatedAt := now)
  }

  datatype Loser = Loser(persona: Persona, lost: string)

  /** The effect of one row of a merge: the table, whoever lost a name, and whether
      the unique index refused the write. */
  datatype Effect = Effect(table: Table, losers: seq<Loser>, raised: bool)

  /** The name other rows must not hold for the write to be accepted. */
  predicate Clashes(fold: Folding, t: Table, remote: Persona) {
    exists id :: id in t.Keys && id != remote.id && SameName(fold, t[id], remote)
  }

  /** Write one remote row, resolving a name collision if there is one. A row whose
      name is the empty string skips the lookup, as the source's truth test does. */
  ghost function Adopt(fold: Folding, t: Table, remote: Persona, now: real): Effect {
    var holder := if remote.name.Some? && remote.name.value != "" then Holder(fold, t, fold(remote.name.value))
        else None;
    if holder.Some? && holder.value != remote.id then
      var other := t[holder.value];
      if Wins(other, remote) then
        Effect(t[remote.id := Nameless(remote)], [], false)
      else
        Effect(t[holder.value := Cleared(other, now)][remote.id := remote],
               [Loser(Cleared(other, now), other.name.value)], false)
    else if Clashes(fold, t, remote) then Effect(t, [], true)
    else Effect(t[remote.id := remote], [], false)
  }

  /** One turn of the merge loop. */
  ghost function MergeRow(fold: Folding, t: Table, remote: Persona, now: real): Effect {
    if remote.id in t && !Newer(remote, t[remote.id]) then Effect(t, [], false)
    else Adopt(fold, t, remote, now)
  }

  /** The loop over a peer's rows; an exception ends it. `clock(i)` is the time read
      while row i is handled. */
  ghost function MergeRows(fold: Folding, t: Table, rows: seq<Persona>, clock: nat -> real): Effect {
    if rows == [] then Effect(t, [], false)
    else
      var last := |rows| - 1;
      var before := MergeRows(fold, t, rows[..last], clock);
      if before.raised then before
      else
        var here := MergeRow(fold, before.table, rows[last], clock(last));
        Effect(here.table, before.losers + here.losers, here.raised)
  }

  lemma MergeOneMore(fold: Folding, t: Table, rows: seq<Persona>, row: Persona, clock: nat -> real)
    ensures var before := MergeRows(fold, t, rows, clock);
            var here := MergeRow(fold, before.table, row, clock(|rows|));
            MergeRows(fold, t, rows + [row], clock)
            == if before.raised then before else Effect(here.table, before.losers + here.losers, here.raised)
  {
    assert (rows + [row])[..|rows|] == rows;
  }

  // -- what one row does ------------------------------------------------------

  /** Name uniqueness survives every merged row. */
  lemma MergeRowKeepsValid(fold: Folding, t: Table, remote: Persona, now: real)
    requires Valid(fold, t)
    ensures Valid(fold, MergeRow(fold, t, remote, now).table)
  {
    var t' := MergeRow(fold, t, remote, now).table;
    if remote.name.Some? {
      forall id | IsHolder(fold, t, fold(remote.name.value), id)
        ensures Holder(fold, t, fold(remote.name.value)) == Some(id)
      {
        HolderIsUnique(fold, t, fold(remote.name.value), id);
      }
    }
  }

  /** The unique index refuses a merged row exactly when that row is to be written,
      carries the empty string as its name, and some other row already holds it. */
  lemma RaisesIffEmptyNameTaken(fold: Folding, t: Table, remote: Persona, now: real)
    requires Valid(fold, t)
    ensures MergeRow(fold, t, remote, now).raised <==>
      && (remote.id in t ==> Newer(remote, t[remote.id]))
      && remote.name == Some("")
      && exists id :: id in t && id != remote.id && NamedAs(fold, t[id], fold(""))
  {
    if remote.name.Some? && remote.name.value != "" {
      var folded := fold(remote.name.value);
      if Clashes(fold, t, remote) {
        var id :| id in t && id != remote.id && SameName(fold, t[id], remote);
        HolderIsUnique(fold, t, folded, id);
      }
    }
    if remote.name == Some("") && Clashes(fold, t, remote) {
      var id :| id in t && id != remote.id && SameName(fold, t[id], remote);
      assert NamedAs(fold, t[id], fold(""));
    }
    if id :| id in t && id != remote.id && NamedAs(fold, t[id], fold("")) && remote.name == Some("") {
      assert SameName(fold, t[id], remote);
    }
  }

  /** A contest for a name, told in the rows' fields. A newer row arrives under a name that
      another row h holds: the earlier claim keeps it, and at equal times the id that comes
      first. If that is h, the arriving row is stored without its name; if not, h's name is
      cleared at a new revision and h is reported as having lost it. */
  lemma EarlierClaimKeepsName(fold: Folding, t: Table, row: Persona, now: real, h: Bytes)
    requires Valid(fold, t)
    requires row.id in t ==>
      var local := t[row.id];
      row.revision > local.revision || (row.revision == local.revision && row.updatedAt > local.updatedAt)
    requires h in t && h != row.id && t[h].name.Some? && row.name.Some? && row.name.value != ""
    requires fold(t[h].name.value) == fold(row.name.value)
    ensures
      var kept := t[row.id := Persona(row.id, None, row.claimedAt, row.revision, row.updatedAt)];
      var cleared := Persona(h, None, t[h].claimedAt, t[h].revision + 1, now);
      var taken := t[h := cleared][row.id := row];
      var earlier := t[h].claimedAt < row.claimedAt || (t[h].claimedAt == row.claimedAt && ComesFirst(h, row.id));
      var later := row.claimedAt < t[h].claimedAt || (t[h].claimedAt == row.claimedAt && ComesFirst(row.id, h));
      && (earlier || later)
      && (earlier ==> MergeRow(fold, t, row, now) == Effect(kept, [], false))
      && (later ==> MergeRow(fold, t, row, now) == Effect(taken, [Loser(cleared, t[h].name.value)], false))
  {
    var folded := fold(row.name.value);
    assert IsHolder(fold, t, folded, h);
    HolderIsUnique(fold, t, folded, h);
    WinsMeansEarlier(t[h], row);
    WinsMeansEarlier(row, t[h]);
    WinsIsStrictOrder(t[h], row, row);
    if t[h].claimedAt == row.claimedAt {
      LeqTotal(h, row.id);
      LeqMeansComesFirst(h, row.id);
      LeqMeansComesFirst(row.id, h);
    }
    NoClash(fold, t, row, h);
  }

  /** The holder out of the way, nothing stands in the row's. */
  lemma NoClash(fold: Folding, t: Table, row: Persona, h: Bytes)
    requires Valid(fold, t) && h in t && h != row.id && SameName(fold, t[h], row)
    ensures forall id | id in t && SameName(fold, t[id], row) :: id == h
  {
    assert forall id | id in t && SameName(fold, t[id], row) :: SameName(fold, t[id], t[h]);
  }

  /** Without a contest: a row no newer than the local one changes nothing, and any other
      is written as it is. */
  lemma UncontestedRowIsWritten(fold: Folding, t: Table, row: Persona, now: real)
    requires Valid(fold, t)
    requires forall id | id in t && id != row.id && t[id].name.Some? && row.name.Some? ::
      fold(t[id].name.value) != fold(row.name.value)
    ensures
      var stale := row.id in t && (row.revision < t[row.id].revision
        || (row.revision == t[row.id].revision && row.updatedAt <= t[row.id].updatedAt));
      MergeRow(fold, t, row, now) == Effect(if stale then t else t[row.id := row], [], false)
  {
    if row.name.Some? {
      forall id | IsHolder(fold, t, fold(row.name.value), id)
        ensures id == row.id && Holder(fold, t, fold(row.name.value)) == Some(id)
      {
        HolderIsUnique(fold, t, fold(row.name.value), id);
      }
    }
  }

  /** Two personas named by the empty string on two hubs: the merge raises. */
  lemma EmptyNameRaises(fold: Folding)
    ensures
      var ours := Persona([1], Some(""), 1.0, 1, 1.0);
      var theirs := Persona([2], Some(""), 2.0, 1, 2.0);
      Valid(fold, map[[1] := ours]) && MergeRow(fold, map[[1] := ours], theirs, 3.0).raised
  {
    var ours := Persona([1], Some(""), 1.0, 1, 1.0);
    var theirs := Persona([2], Some(""), 2.0, 1, 2.0);
    var t: Table := map[[1] := ours];
    assert [1] in t && t[[1]] == ours;
    assert SameName(fold, t[[1]], theirs);
    assert Clashes(fold, t, theirs);
  }

  /** No row's version ever goes down, and no row disappears. */
  ghost predicate Advanced(t: Table, t': Table) {
    forall id | id in t :: id in t' && !Newer(t[id], t'[id])
  }

  /** The table is at least as recent as this row. */
  ghost predicate UpToDate(t: Table, row: Persona) {
    row.id in t && !Newer(row, t[row.id])
  }

  lemma MergeRowAdvances(fold: Folding, t: Table, remote: Persona, now: real)
    requires WellKeyed(t)
    ensures Advanced(t, MergeRow(fold, t, remote, now).table)
    ensures !MergeRow(fold, t, remote, now).raised ==> UpToDate(MergeRow(fold, t, remote, now).table, remote)
  {
  }

  lemma UpToDateStays(t: Table, t': Table, row: Persona)
    requires UpToDate(t, row) && Advanced(t, t')
    ensures UpToDate(t', row)
  {
  }

  lemma AdvancedTransitive(t: Table, t': Table, t'': Table)
    requires Advanced(t, t') && Advanced(t', t'')
    ensures Advanced(t, t'')
  {
  }

  // -- whole merges ------------------------------------------------------------

  lemma {:induction false} MergeKeepsValid(fold: Folding, t: Table, rows: seq<Persona>, clock: nat -> real)
    requires Valid(fold, t)
    ensures Valid(fold, MergeRows(fold, t, rows, clock).table)
  {
    if rows != [] {
      var last := |rows| - 1;
      MergeKeepsValid(fold, t, rows[..last], clock);
      MergeRowKeepsValid(fold, MergeRows(fold, t, rows[..last], clock).table, rows[last], clock(last));
    }
  }

  lemma {:induction false} MergeAdvances(fold: Folding, t: Table, rows: seq<Persona>, clock: nat -> real)
    requires Valid(fold, t)
    ensures Advanced(t, MergeRows(fold, t, rows, clock).table)
    ensures !MergeRows(fold, t, rows, clock).raised ==>
      forall row | row in rows :: UpToDate(MergeRows(fold, t, rows, clock).table, row)
  {
    if rows != [] {
      var last := |rows| - 1;
      var before := MergeRows(fold, t, rows[..last], clock);
      MergeAdvances(fold, t, rows[..last], clock);
      MergeKeepsValid(fold, t, rows[..last], clock);
      if !before.raised {
        var here := MergeRow(fold, before.table, rows[last], clock(last));
        MergeRowAdvances(fold, before.table, rows[last], clock(last));
        AdvancedTransitive(t, before.table, here.table);
        if !here.raised {
          forall row | row in rows
            ensures UpToDate(here.table, row)
          {
            if row in rows[..last] {
              UpToDateStays(before.table, here.table, row);
            }
          }
        }
      }
    }
  }

  /** Merging rows the table is already up to date with does nothing. */
  lemma {:induction false} StaleRowsIgnored(fold: Folding, t: Table, rows: seq<Persona>, clock: nat -> real)
    requires forall row | row in rows :: UpToDate(t, row)
    ensures MergeRows(fold, t, rows, clock) == Effect(t, [], false)
  {
    if rows != [] {
      var last := |rows| - 1;
      assert rows[last] in rows;
      StaleRowsIgnored(fold, t, rows[..last], clock);
    }
  }

  /** Merging the same list again, at any later times, changes no row and reports no
      loser; the list may repeat and reorder personas. */
  lemma MergeIdempotent(fold: Folding, t: Table, rows: seq<Persona>, clock: nat -> real, later: nat -> real)
    requires Valid(fold, t)
    requires !MergeRows(fold, t, rows, clock).raised
    ensures var once := MergeRows(fold, t, rows, clock).table;
            MergeRows(fold, once, rows, later) == Effect(once, [], false)
  {
    MergeAdvances(fold, t, rows, clock);
    StaleRowsIgnored(fold, MergeRows(fold, t, rows, clock).table, rows, later);
  }

  /** A merge the index stopped stops at the same row again, with the same table. */
  lemma {:induction false} MergeStopsAgain(
    fold: Folding, t: Table, rows: seq<Persona>, clock: nat -> real, later: nat -> real)
    requires Valid(fold, t) && MergeRows(fold, t, rows, clock).raised
    ensures var once := MergeRows(fold, t, rows, clock).table;
            MergeRows(fold, once, rows, later) == Effect(once, [], true)
  {
    var init, last := rows[..|rows| - 1], rows[|rows| - 1];
    var before := MergeRows(fold, t, init, clock);
    assert rows == init + [last];
    MergeOneMore(fold, t, init, last, clock);
    if before.raised {
      MergeStopsAgain(fold, t, init, clock, later);
    } else {
      MergeIdempotent(fold, t, init, clock, later);
    }
    MergeOneMore(fold, before.table, init, last, later);
  }

  ghost predicate ProperNames(rows: seq<Persona>) {
    forall row | row in rows :: row.name != Some("")
  }

  /** Rows whose names are not empty never reach the index with a conflict. */
  lemma {:induction false} ProperNamesNeverRaise(fold: Folding, t: Table, rows: seq<Persona>, clock: nat -> real)
    requires Valid(fold, t) && ProperNames(rows)
    ensures !MergeRows(fold, t, rows, clock).raised
  {
    if rows != [] {
      var last := |rows| - 1;
      ProperNamesNeverRaise(fold, t, rows[..last], clock);
      MergeKeepsValid(fold, t, rows[..last], clock);
      assert rows[last] in rows;
      RaisesIffEmptyNameTaken(fold, MergeRows(fold, t, rows[..last], clock).table, rows[last], clock(last));
    }
  }
}
