/** Two hubs that minted personas independently agree after three merges. */
module Convergence {
  import opened Wrappers
  import opened ByteStrings
  import opened Personas

  /** A hub's whole table on the wire, in any order and possibly with repeats. */
  ghost predicate Snapshot(rows: seq<Persona>, t: Table) {
    && (forall row | row in rows :: row.id in t && t[row.id] == row)
    && (forall id | id in t :: t[id] in rows)
  }

  ghost predicate Proper(t: Table) {
    forall id | id in t :: t[id].name != Some("")
  }

  /** Somebody in `t` has an earlier claim to p's name. */
  ghost predicate Beaten(fold: Folding, p: Persona, t: Table) {
    exists id :: BeatenBy(fold, p, t, id)
  }

  ghost predicate BeatenBy(fold: Folding, p: Persona, t: Table, id: Bytes) {
    id in t && SameName(fold, t[id], p) && Wins(t[id], p)
  }

  ghost predicate IsCleared(p: Persona, was: Persona) {
    exists now :: p == Cleared(was, now)
  }

  /** Which rows of a snapshot a merge has handled so far. */
  ghost predicate Handled(rows: seq<Persona>, id: Bytes) {
    exists row :: row in rows && row.id == id
  }

  ghost predicate BeatenByHandled(fold: Folding, p: Persona, t: Table, rows: seq<Persona>) {
    exists id :: Handled(rows, id) && BeatenBy(fold, p, t, id)
  }

  ghost predicate Apart(fold: Folding, a: Table, b: Table) {
    && Valid(fold, a) && Valid(fold, b)
    && Proper(a) && Proper(b)
    && a.Keys !! b.Keys
  }

  // -- first merge: b receives a's rows ---------------------------------------

  /** Midway through b merging a's snapshot: arrivals that are beaten stand without
      their name at their old version, and local rows they beat have been cleared. */
  ghost predicate FirstMerge(fold: Folding, a: Table, b: Table, rows: seq<Persona>, t: Table) {
    && (forall id :: id in t <==> id in b || (id in a && Handled(rows, id)))
    && (forall id | id in a && id in t :: t[id] == if Beaten(fold, a[id], b) then Nameless(a[id]) else a[id])
    && (forall id | id in b :: if BeatenByHandled(fold, b[id], a, rows) then IsCleared(t[id], b[id])
        else t[id] == b[id])
  }

  lemma HandledGrows(rows: seq<Persona>, row: Persona, id: Bytes)
    ensures Handled(rows + [row], id) <==> Handled(rows, id) || id == row.id
  {
    assert row in rows + [row];
    if Handled(rows, id) {
      var r :| r in rows && r.id == id;
      assert r in rows + [row];
    }
    if Handled(rows + [row], id) {
      var r :| r in rows + [row] && r.id == id;
      assert r in rows || r == row;
    }
  }

  lemma BeatenGrows(fold: Folding, p: Persona, t: Table, rows: seq<Persona>, row: Persona)
    ensures BeatenByHandled(fold, p, t, rows + [row]) <==>
            BeatenByHandled(fold, p, t, rows) || BeatenBy(fold, p, t, row.id)
  {
    HandledGrows(rows, row, row.id);
    if BeatenByHandled(fold, p, t, rows) {
      var id :| Handled(rows, id) && BeatenBy(fold, p, t, id);
      HandledGrows(rows, row, id);
    }
    if BeatenByHandled(fold, p, t, rows + [row]) {
      var id :| Handled(rows + [row], id) && BeatenBy(fold, p, t, id);
      HandledGrows(rows, row, id);
    }
  }

  /** Until a row arrives, its name is held by nobody but the local claimant, and by
      the local claimant untouched. */
  lemma NameBeforeArrival(fold: Folding, a: Table, b: Table, rows: seq<Persona>, t: Table, row: Persona, id: Bytes)
    requires Apart(fold, a, b)
    requires FirstMerge(fold, a, b, rows, t)
    requires row.id in a && a[row.id] == row && row.id !in t
    requires row.name.Some?
    ensures IsHolder(fold, t, fold(row.name.value), id) <==> id in b && SameName(fold, b[id], row)
    ensures IsHolder(fold, t, fold(row.name.value), id) ==> t[id] == b[id]
  {
    if id in b {
      if SameName(fold, b[id], row) && BeatenByHandled(fold, b[id], a, rows) {
        assert false;
      }
    } else if id in a && id in t {
      assert SameName(fold, a[id], row) ==> id == row.id;
    }
  }

  /** A new row whose name a local row claims clears that claimant or comes in
      without its name, whichever has the later claim. */
  lemma ContestedArrival(
    fold: Folding, a: Table, b: Table, rows: seq<Persona>, t: Table, row: Persona, now: real, j: Bytes)
    requires Apart(fold, a, b) && Valid(fold, t)
    requires FirstMerge(fold, a, b, rows, t)
    requires row.id in a && a[row.id] == row && row.id !in t
    requires j in b && SameName(fold, b[j], row)
    ensures MergeRow(fold, t, row, now).table ==
      if Wins(b[j], row) then t[row.id := Nameless(row)] else t[j := Cleared(b[j], now)][row.id := row]
  {
    NameBeforeArrival(fold, a, b, rows, t, row, j);
    HolderIsUnique(fold, t, fold(row.name.value), j);
    assert a[row.id].name != Some("");
  }

  lemma UncontestedArrival(fold: Folding, a: Table, b: Table, rows: seq<Persona>, t: Table, row: Persona, now: real)
    requires Apart(fold, a, b) && Valid(fold, t)
    requires FirstMerge(fold, a, b, rows, t)
    requires row.id in a && a[row.id] == row && row.id !in t
    requires forall j | j in b :: !SameName(fold, b[j], row)
    ensures MergeRow(fold, t, row, now).table == t[row.id := row]
  {
    if row.name.Some? {
      forall id
        ensures !IsHolder(fold, t, fold(row.name.value), id)
      {
        NameBeforeArrival(fold, a, b, rows, t, row, id);
      }
      forall id | id in t
        ensures !SameName(fold, t[id], row)
      {
        assert !IsHolder(fold, t, fold(row.name.value), id);
      }
    }
  }

  /** What the arrival of a new row does to the table, claimant by claimant. */
  lemma Arrival(fold: Folding, a: Table, b: Table, rows: seq<Persona>, t: Table, row: Persona, now: real)
    requires Apart(fold, a, b) && Valid(fold, t)
    requires FirstMerge(fold, a, b, rows, t)
    requires row.id in a && a[row.id] == row && row.id !in t
    ensures Arrived(fold, a, b, t, row, now, MergeRow(fold, t, row, now).table)
  {
    if j :| j in b && SameName(fold, b[j], row) {
      ContestedArrival(fold, a, b, rows, t, row, now, j);
      ContestDecided(fold, a, b, row, j);
      ContestedArrived(fold, a, b, t, row, now, j);
    } else {
      UncontestedArrival(fold, a, b, rows, t, row, now);
      UncontestedArrived(fold, a, b, t, row, now);
    }
  }

  /** A new row stands, without its name if it is beaten; whoever it beats is cleared. */
  ghost predicate Arrived(fold: Folding, a: Table, b: Table, t: Table, row: Persona, now: real, t': Table)
    requires row.id in a
  {
    && t'.Keys == t.Keys + {row.id}
    && (t'[row.id] == if Beaten(fold, row, b) then Nameless(row) else row)
    && (forall id | id in t :: t'[id] == if id in b && BeatenBy(fold, b[id], a, row.id) then Cleared(b[id], now)
        else t[id])
  }

  lemma ContestedArrived(
    fold: Folding, a: Table, b: Table, t: Table, row: Persona, now: real, j: Bytes)
    requires row.id in a && a[row.id] == row && row.id !in t && j in b && j in t && SameName(fold, b[j], row)
    requires Beaten(fold, row, b) <==> Wins(b[j], row)
    requires Wins(row, b[j]) <==> !Wins(b[j], row)
    requires forall id | id in b && SameName(fold, b[id], row) :: id == j
    ensures
      Arrived(fold, a, b, t, row, now,
              if Wins(b[j], row) then t[row.id := Nameless(row)] else t[j := Cleared(b[j], now)][row.id := row])
  {
  }

  lemma UncontestedArrived(fold: Folding, a: Table, b: Table, t: Table, row: Persona, now: real)
    requires row.id in a && a[row.id] == row && row.id !in t
    requires forall j | j in b :: !SameName(fold, b[j], row)
    ensures Arrived(fold, a, b, t, row, now, t[row.id := row])
  {
  }

  /** There is one holder of the name, and the row is beaten exactly if it wins. */
  lemma ContestDecided(fold: Folding, a: Table, b: Table, row: Persona, j: Bytes)
    requires Apart(fold, a, b) && row.id in a && a[row.id] == row && j in b && SameName(fold, b[j], row)
    ensures Beaten(fold, row, b) <==> Wins(b[j], row)
    ensures Wins(row, b[j]) <==> !Wins(b[j], row)
    ensures forall id | id in b && SameName(fold, b[id], row) :: id == j
  {
    WinsIsStrictOrder(b[j], row, row);
    assert forall id | id in b && SameName(fold, b[id], row) :: SameName(fold, b[id], b[j]);
    assert Wins(b[j], row) ==> BeatenBy(fold, row, b, j);
  }

  lemma FirstMergeStep(fold: Folding, a: Table, b: Table, rows: seq<Persona>, t: Table, row: Persona, now: real)
    requires Apart(fold, a, b) && Valid(fold, t)
    requires FirstMerge(fold, a, b, rows, t)
    requires row.id in a && a[row.id] == row
    ensures FirstMerge(fold, a, b, rows + [row], MergeRow(fold, t, row, now).table)
  {
    var t' := MergeRow(fold, t, row, now).table;
    forall id
      ensures Handled(rows + [row], id) <==> Handled(rows, id) || id == row.id
    {
      HandledGrows(rows, row, id);
    }
    if row.id in t {
      assert t' == t;
    } else {
      Arrival(fold, a, b, rows, t, row, now);
    }
    forall id | id in b
      ensures if BeatenByHandled(fold, b[id], a, rows + [row]) then IsCleared(t'[id], b[id]) else t'[id] == b[id]
    {
      BeatenGrows(fold, b[id], a, rows, row);
    }
  }

  lemma {:induction false} FirstMergeResult(fold: Folding, a: Table, b: Table, rows: seq<Persona>, clock: nat -> real)
    requires Apart(fold, a, b)
    requires forall row | row in rows :: row.id in a && a[row.id] == row
    ensures FirstMerge(fold, a, b, rows, MergeRows(fold, b, rows, clock).table)
    ensures !MergeRows(fold, b, rows, clock).raised
  {
    ProperNamesNeverRaise(fold, b, rows, clock);
    if rows != [] {
      var init, row := rows[..|rows| - 1], rows[|rows| - 1];
      assert rows == init + [row];
      FirstMergeResult(fold, a, b, init, clock);
      FirstMergeOneMore(fold, a, b, init, row, clock);
    }
  }

  lemma FirstMergeOneMore(fold: Folding, a: Table, b: Table, init: seq<Persona>, row: Persona, clock: nat -> real)
    requires Apart(fold, a, b) && row.id in a && a[row.id] == row
    requires FirstMerge(fold, a, b, init, MergeRows(fold, b, init, clock).table)
    requires !MergeRows(fold, b, init, clock).raised
    ensures FirstMerge(fold, a, b, init + [row], MergeRows(fold, b, init + [row], clock).table)
  {
    MergeKeepsValid(fold, b, init, clock);
    MergeOneMore(fold, b, init, row, clock);
    FirstMergeStep(fold, a, b, init, MergeRows(fold, b, init, clock).table, row, clock(|init|));
  }

  // -- second merge: a receives b's rows ---------------------------------------

  /** What b holds once it has merged all of a's snapshot. */
  ghost predicate AfterFirst(fold: Folding, a: Table, b: Table, b1: Table) {
    && b1.Keys == a.Keys + b.Keys
    && (forall id | id in a :: b1[id] == if Beaten(fold, a[id], b) then Nameless(a[id]) else a[id])
    && (forall id | id in b :: if Beaten(fold, b[id], a) then IsCleared(b1[id], b[id]) else b1[id] == b[id])
  }

  /** Midway through a merging what b now holds. */
  ghost predicate SecondMerge(fold: Folding, a: Table, b: Table, b1: Table, rows: seq<Persona>, t: Table)
    requires AfterFirst(fold, a, b, b1)
  {
    && (forall id :: id in t <==> id in a || (id in b && Handled(rows, id)))
    && (forall id | id in b && id in t :: t[id] == b1[id])
    && (forall id | id in a :: if BeatenByHandled(fold, a[id], b, rows) then IsCleared(t[id], a[id])
        else t[id] == a[id])
  }

  /** What a holds once it has merged what b holds. */
  ghost predicate AfterSecond(fold: Folding, a: Table, b: Table, b1: Table, a2: Table)
    requires AfterFirst(fold, a, b, b1)
  {
    && a2.Keys == a.Keys + b.Keys
    && (forall id | id in b :: a2[id] == b1[id])
    && (forall id | id in a :: if Beaten(fold, a[id], b) then IsCleared(a2[id], a[id]) else a2[id] == a[id])
  }

  /** Beating a local claim and being beaten by one exclude each other. */
  lemma BeatersAreUnbeaten(fold: Folding, a: Table, b: Table, i: Bytes, j: Bytes)
    requires Apart(fold, a, b)
    requires i in a && BeatenBy(fold, a[i], b, j)
    ensures !Beaten(fold, b[j], a)
  {
    if k :| BeatenBy(fold, b[j], a, k) {
      assert SameName(fold, a[k], a[i]);
      WinsIsStrictOrder(a[i], b[j], a[i]);
    }
  }

  lemma NameBeforeReturn(
    fold: Folding, a: Table, b: Table, b1: Table, rows: seq<Persona>, t: Table, row: Persona, id: Bytes)
    requires Apart(fold, a, b) && AfterFirst(fold, a, b, b1)
    requires SecondMerge(fold, a, b, b1, rows, t)
    requires row.id in b && b1[row.id] == row && row.id !in t
    requires row.name.Some?
    ensures IsHolder(fold, t, fold(row.name.value), id) <==> id in a && BeatenBy(fold, a[id], b, row.id)
    ensures IsHolder(fold, t, fold(row.name.value), id) ==> t[id] == a[id]
  {
    assert b1[row.id] == b[row.id] && !Beaten(fold, b[row.id], a);
    if id in a {
      if SameName(fold, a[id], row) {
        WinsIsStrictOrder(a[id], row, row);
        assert !BeatenBy(fold, b[row.id], a, id);
        assert !BeatenByHandled(fold, a[id], b, rows);
      }
    } else if id in b && id in t {
      assert SameName(fold, b[id], b[row.id]) ==> id == row.id;
    }
  }

  /** A row of b that a has not seen arrives as b holds it, clearing the claim of a's
      it beats. */
  lemma Return(fold: Folding, a: Table, b: Table, b1: Table, rows: seq<Persona>, t: Table, row: Persona, now: real)
    requires Apart(fold, a, b) && AfterFirst(fold, a, b, b1) && Valid(fold, t)
    requires SecondMerge(fold, a, b, b1, rows, t)
    requires row.id in b && b1[row.id] == row && row.id !in t
    ensures var t' := MergeRow(fold, t, row, now).table;
      && t'.Keys == t.Keys + {row.id}
      && t'[row.id] == row
      && (forall id | id in t :: t'[id] == if id in a && BeatenBy(fold, a[id], b, row.id) then Cleared(a[id], now)
          else t[id])
  {
    if i :| i in a && BeatenBy(fold, a[i], b, row.id) {
      BeatersAreUnbeaten(fold, a, b, i, row.id);
      ContestedReturn(fold, a, b, b1, rows, t, row, now, i);
      OnlyOneBeaten(fold, a, b, row.id, i);
    } else {
      UncontestedReturn(fold, a, b, b1, rows, t, row, now);
    }
  }

  lemma OnlyOneBeaten(fold: Folding, a: Table, b: Table, winner: Bytes, i: Bytes)
    requires Valid(fold, a) && i in a && BeatenBy(fold, a[i], b, winner)
    ensures forall id | id in a && BeatenBy(fold, a[id], b, winner) :: id == i
  {
    assert forall id | id in a && BeatenBy(fold, a[id], b, winner) :: SameName(fold, a[id], a[i]);
  }

  lemma ContestedReturn(
    fold: Folding, a: Table, b: Table, b1: Table, rows: seq<Persona>, t: Table, row: Persona, now: real, i: Bytes)
    requires Apart(fold, a, b) && AfterFirst(fold, a, b, b1) && Valid(fold, t)
    requires SecondMerge(fold, a, b, b1, rows, t)
    requires row.id in b && b1[row.id] == row && row.id !in t && !Beaten(fold, b[row.id], a)
    requires i in a && BeatenBy(fold, a[i], b, row.id)
    ensures MergeRow(fold, t, row, now).table == t[i := Cleared(a[i], now)][row.id := row]
  {
    assert row == b[row.id] && row.name != Some("");
    NameBeforeReturn(fold, a, b, b1, rows, t, row, i);
    HolderIsUnique(fold, t, fold(row.name.value), i);
    WinsIsStrictOrder(a[i], row, row);
  }

  lemma UncontestedReturn(
    fold: Folding, a: Table, b: Table, b1: Table, rows: seq<Persona>, t: Table, row: Persona, now: real)
    requires Apart(fold, a, b) && AfterFirst(fold, a, b, b1) && Valid(fold, t)
    requires SecondMerge(fold, a, b, b1, rows, t)
    requires row.id in b && b1[row.id] == row && row.id !in t
    requires forall i | i in a :: !BeatenBy(fold, a[i], b, row.id)
    ensures MergeRow(fold, t, row, now).table == t[row.id := row]
  {
    if row.name.Some? {
      forall id
        ensures !IsHolder(fold, t, fold(row.name.value), id)
      {
        NameBeforeReturn(fold, a, b, b1, rows, t, row, id);
      }
      forall id | id in t
        ensures !SameName(fold, t[id], row)
      {
        assert !IsHolder(fold, t, fold(row.name.value), id);
      }
    }
  }

  lemma SecondMergeStep(
    fold: Folding, a: Table, b: Table, b1: Table, rows: seq<Persona>, t: Table, row: Persona, now: real)
    requires Apart(fold, a, b) && AfterFirst(fold, a, b, b1) && Valid(fold, t)
    requires SecondMerge(fold, a, b, b1, rows, t)
    requires row.id in b1 && b1[row.id] == row
    ensures SecondMerge(fold, a, b, b1, rows + [row], MergeRow(fold, t, row, now).table)
  {
    if row.id in t {
      Repeated(fold, a, b, b1, rows, t, row, now);
      SecondMergeStands(fold, a, b, b1, rows, t, row);
    } else {
      Return(fold, a, b, b1, rows, t, row, now);
      SecondMergeGrows(fold, a, b, b1, rows, t, row, MergeRow(fold, t, row, now).table, now);
    }
  }

  lemma SecondMergeStands(fold: Folding, a: Table, b: Table, b1: Table, rows: seq<Persona>, t: Table, row: Persona)
    requires AfterFirst(fold, a, b, b1) && SecondMerge(fold, a, b, b1, rows, t) && row.id in t
    requires forall id | id in a && BeatenBy(fold, a[id], b, row.id) :: BeatenByHandled(fold, a[id], b, rows)
    ensures SecondMerge(fold, a, b, b1, rows + [row], t)
  {
    forall id
      ensures Handled(rows + [row], id) <==> Handled(rows, id) || id == row.id
    {
      HandledGrows(rows, row, id);
    }
    forall id | id in a
      ensures BeatenByHandled(fold, a[id], b, rows + [row]) <==> BeatenByHandled(fold, a[id], b, rows)
    {
      BeatenGrows(fold, a[id], b, rows, row);
    }
  }

  lemma SecondMergeGrows(
    fold: Folding, a: Table, b: Table, b1: Table, rows: seq<Persona>, t: Table, row: Persona, t': Table, now: real)
    requires AfterFirst(fold, a, b, b1) && SecondMerge(fold, a, b, b1, rows, t)
    requires a.Keys !! b.Keys && row.id in b && row.id in b1 && b1[row.id] == row
    requires t'.Keys == t.Keys + {row.id} && t'[row.id] == row
    requires forall id | id in t ::
      t'[id] == if id in a && BeatenBy(fold, a[id], b, row.id) then Cleared(a[id], now) else t[id]
    ensures SecondMerge(fold, a, b, b1, rows + [row], t')
  {
    forall id
      ensures Handled(rows + [row], id) <==> Handled(rows, id) || id == row.id
    {
      HandledGrows(rows, row, id);
    }
    forall id | id in a
      ensures if BeatenByHandled(fold, a[id], b, rows + [row]) then IsCleared(t'[id], a[id]) else t'[id] == a[id]
    {
      BeatenGrows(fold, a[id], b, rows, row);
    }
  }

  /** A row a already holds changes nothing, and beats nothing it has not beaten. */
  lemma Repeated(fold: Folding, a: Table, b: Table, b1: Table, rows: seq<Persona>, t: Table, row: Persona, now: real)
    requires Apart(fold, a, b) && AfterFirst(fold, a, b, b1) && Valid(fold, t)
    requires SecondMerge(fold, a, b, b1, rows, t)
    requires row.id in b1 && b1[row.id] == row && row.id in t
    ensures MergeRow(fold, t, row, now).table == t
    ensures forall id | id in a && BeatenBy(fold, a[id], b, row.id) :: BeatenByHandled(fold, a[id], b, rows)
  {
  }

  lemma {:induction false} SecondMergeResult(
    fold: Folding, a: Table, b: Table, b1: Table, rows: seq<Persona>, clock: nat -> real)
    requires Apart(fold, a, b) && AfterFirst(fold, a, b, b1)
    requires forall row | row in rows :: row.id in b1 && b1[row.id] == row
    ensures SecondMerge(fold, a, b, b1, rows, MergeRows(fold, a, rows, clock).table)
  {
    if rows != [] {
      var init, row := rows[..|rows| - 1], rows[|rows| - 1];
      assert rows == init + [row];
      SecondMergeResult(fold, a, b, b1, init, clock);
      SentBackIsProper(fold, a, b, b1, init);
      SecondMergeOneMore(fold, a, b, b1, init, row, clock);
    }
  }

  lemma SecondMergeOneMore(
    fold: Folding, a: Table, b: Table, b1: Table, init: seq<Persona>, row: Persona, clock: nat -> real)
    requires Apart(fold, a, b) && AfterFirst(fold, a, b, b1) && ProperNames(init)
    requires row.id in b1 && b1[row.id] == row
    requires SecondMerge(fold, a, b, b1, init, MergeRows(fold, a, init, clock).table)
    ensures SecondMerge(fold, a, b, b1, init + [row], MergeRows(fold, a, init + [row], clock).table)
  {
    MergeKeepsValid(fold, a, init, clock);
    ProperNamesNeverRaise(fold, a, init, clock);
    MergeOneMore(fold, a, init, row, clock);
    SecondMergeStep(fold, a, b, b1, init, MergeRows(fold, a, init, clock).table, row, clock(|init|));
  }

  lemma SentBackIsProper(fold: Folding, a: Table, b: Table, b1: Table, rows: seq<Persona>)
    requires Apart(fold, a, b) && AfterFirst(fold, a, b, b1)
    requires forall row | row in rows :: row.id in b1 && b1[row.id] == row
    ensures ProperNames(rows)
  {
    forall row | row in rows
      ensures row.name != Some("")
    {
      ProperAfterFirst(fold, a, b, b1, row.id);
    }
  }

  lemma ProperAfterFirst(fold: Folding, a: Table, b: Table, b1: Table, id: Bytes)
    requires Apart(fold, a, b) && AfterFirst(fold, a, b, b1) && id in b1
    ensures b1[id].name != Some("")
  {
  }

  // -- third merge: b receives a's table again ---------------------------------

  ghost predicate ThirdMerge(b1: Table, a2: Table, rows: seq<Persona>, t: Table) {
    && t.Keys == b1.Keys == a2.Keys
    && forall id | id in t :: t[id] == if Handled(rows, id) then a2[id] else b1[id]
  }

  lemma ThirdMergeStep(
    fold: Folding, a: Table, b: Table, b1: Table, a2: Table, rows: seq<Persona>, t: Table, row: Persona, now: real)
    requires Apart(fold, a, b) && AfterFirst(fold, a, b, b1) && AfterSecond(fold, a, b, b1, a2)
    requires ThirdMerge(b1, a2, rows, t)
    requires row.id in a2 && a2[row.id] == row
    ensures ThirdMerge(b1, a2, rows + [row], MergeRow(fold, t, row, now).table)
    ensures !MergeRow(fold, t, row, now).raised
  {
    ReturnedRow(fold, a, b, b1, a2, t[row.id], row);
    RowSettles(fold, t, row, now);
    ThirdMergeGrows(b1, a2, rows, t, row);
  }

  lemma RowSettles(fold: Folding, t: Table, row: Persona, now: real)
    requires row.id in t && (t[row.id] == row || (row.name == None && Newer(row, t[row.id])))
    ensures MergeRow(fold, t, row, now).table == t[row.id := row] && !MergeRow(fold, t, row, now).raised
  {
  }

  lemma ThirdMergeGrows(b1: Table, a2: Table, rows: seq<Persona>, t: Table, row: Persona)
    requires ThirdMerge(b1, a2, rows, t) && row.id in a2 && a2[row.id] == row
    ensures ThirdMerge(b1, a2, rows + [row], t[row.id := row])
  {
    forall id
      ensures Handled(rows + [row], id) <==> Handled(rows, id) || id == row.id
    {
      HandledGrows(rows, row, id);
    }
  }

  /** A row coming back is the one b holds, or a newer one that has lost its name. */
  lemma ReturnedRow(fold: Folding, a: Table, b: Table, b1: Table, a2: Table, held: Persona, row: Persona)
    requires Apart(fold, a, b) && AfterFirst(fold, a, b, b1) && AfterSecond(fold, a, b, b1, a2)
    requires row.id in a2 && a2[row.id] == row && (held == row || held == b1[row.id])
    ensures held == row || (row.name == None && Newer(row, held))
  {
  }

  /** The third merge so far, none of it refused. */
  ghost predicate ThirdMerged(fold: Folding, b1: Table, a2: Table, rows: seq<Persona>, clock: nat -> real) {
    ThirdMerge(b1, a2, rows, MergeRows(fold, b1, rows, clock).table) && !MergeRows(fold, b1, rows, clock).raised
  }

  lemma {:induction false} ThirdMergeResult(
    fold: Folding, a: Table, b: Table, b1: Table, a2: Table, rows: seq<Persona>, clock: nat -> real)
    requires Apart(fold, a, b) && AfterFirst(fold, a, b, b1) && AfterSecond(fold, a, b, b1, a2)
    requires forall row | row in rows :: row.id in a2 && a2[row.id] == row
    ensures ThirdMerged(fold, b1, a2, rows, clock)
  {
    if rows != [] {
      var init, row := rows[..|rows| - 1], rows[|rows| - 1];
      assert rows == init + [row];
      ThirdMergeResult(fold, a, b, b1, a2, init, clock);
      ThirdMergeOneMore(fold, a, b, b1, a2, init, row, clock);
    }
  }

  lemma ThirdMergeOneMore(
    fold: Folding, a: Table, b: Table, b1: Table, a2: Table, init: seq<Persona>, row: Persona, clock: nat -> real)
    requires Apart(fold, a, b) && AfterFirst(fold, a, b, b1) && AfterSecond(fold, a, b, b1, a2)
    requires row.id in a2 && a2[row.id] == row
    ensures ThirdMerged(fold, b1, a2, init, clock) ==> ThirdMerged(fold, b1, a2, init + [row], clock)
  {
    if ThirdMerged(fold, b1, a2, init, clock) {
      MergeOneMore(fold, b1, init, row, clock);
      ThirdMergeStep(fold, a, b, b1, a2, init, MergeRows(fold, b1, init, clock).table, row, clock(|init|));
    }
  }

  // -- the three merges together -------------------------------------------------

  lemma SnapshotHandled(rows: seq<Persona>, t: Table)
    requires Snapshot(rows, t) && WellKeyed(t)
    ensures forall id | id in t :: Handled(rows, id)
  {
    forall id | id in t
      ensures Handled(rows, id)
    {
      assert t[id] in rows && t[id].id == id;
    }
  }

  lemma BeatenIsHandled(fold: Folding, p: Persona, t: Table, rows: seq<Persona>)
    requires forall id | id in t :: Handled(rows, id)
    ensures BeatenByHandled(fold, p, t, rows) <==> Beaten(fold, p, t)
  {
    if Beaten(fold, p, t) {
      var id :| BeatenBy(fold, p, t, id);
      assert Handled(rows, id);
    }
  }

  lemma FirstMergeComplete(fold: Folding, a: Table, b: Table, rows: seq<Persona>, clock: nat -> real)
    requires Apart(fold, a, b) && Snapshot(rows, a)
    ensures AfterFirst(fold, a, b, MergeRows(fold, b, rows, clock).table)
  {
    FirstMergeResult(fold, a, b, rows, clock);
    SnapshotHandled(rows, a);
    forall id | id in b
      ensures BeatenByHandled(fold, b[id], a, rows) <==> Beaten(fold, b[id], a)
    {
      BeatenIsHandled(fold, b[id], a, rows);
    }
  }

  lemma SecondMergeComplete(fold: Folding, a: Table, b: Table, b1: Table, rows: seq<Persona>, clock: nat -> real)
    requires Apart(fold, a, b) && AfterFirst(fold, a, b, b1) && WellKeyed(b1) && Snapshot(rows, b1)
    ensures AfterSecond(fold, a, b, b1, MergeRows(fold, a, rows, clock).table)
  {
    SecondMergeResult(fold, a, b, b1, rows, clock);
    SnapshotHandled(rows, b1);
    forall id | id in a
      ensures BeatenByHandled(fold, a[id], b, rows) <==> Beaten(fold, a[id], b)
    {
      assert forall j | j in b :: Handled(rows, j);
      BeatenIsHandled(fold, a[id], b, rows);
    }
  }

  lemma ThirdMergeComplete(
    fold: Folding, a: Table, b: Table, b1: Table, a2: Table, rows: seq<Persona>, clock: nat -> real)
    requires Apart(fold, a, b) && AfterFirst(fold, a, b, b1) && AfterSecond(fold, a, b, b1, a2)
    requires WellKeyed(a2) && Snapshot(rows, a2)
    ensures MergeRows(fold, b1, rows, clock).table == a2
  {
    ThirdMergeResult(fold, a, b, b1, a2, rows, clock);
    SnapshotHandled(rows, a2);
  }

  /** Two hubs with disjoint personas and unique names each, no edits in between: after
      b merges a, a merges b and b merges a again, both hold the same table, and every
      contested name is with the earlier claim, the later one having lost it. */
  lemma ThreeMergesConverge(
    fold: Folding, a: Table, b: Table,
    rowsA: seq<Persona>, rowsB1: seq<Persona>, rowsA2: seq<Persona>,
    clock1: nat -> real, clock2: nat -> real, clock3: nat -> real)
    requires Apart(fold, a, b)
    requires Snapshot(rowsA, a)
    requires Snapshot(rowsB1, MergeRows(fold, b, rowsA, clock1).table)
    requires Snapshot(rowsA2, MergeRows(fold, a, rowsB1, clock2).table)
    ensures
      var b1 := MergeRows(fold, b, rowsA, clock1).table;
      var a2 := MergeRows(fold, a, rowsB1, clock2).table;
      var b3 := MergeRows(fold, b1, rowsA2, clock3).table;
      && a2 == b3
      && a2.Keys == a.Keys + b.Keys
      && (forall i, j | i in a && j in b && SameName(fold, a[i], b[j]) ::
            if a[i].claimedAt < b[j].claimedAt || (a[i].claimedAt == b[j].claimedAt && ComesFirst(i, j))
            then a2[i] == a[i] && a2[j].name == None
            else a2[j] == b[j] && a2[i].name == None)
      && (forall i | i in a && (forall j | j in b :: !SameName(fold, a[i], b[j])) :: a2[i] == a[i])
      && (forall j | j in b && (forall i | i in a :: !SameName(fold, a[i], b[j])) :: a2[j] == b[j])
  {
    var b1 := MergeRows(fold, b, rowsA, clock1).table;
    var a2 := MergeRows(fold, a, rowsB1, clock2).table;
    FirstMergeComplete(fold, a, b, rowsA, clock1);
    MergeKeepsValid(fold, b, rowsA, clock1);
    SecondMergeComplete(fold, a, b, b1, rowsB1, clock2);
    MergeKeepsValid(fold, a, rowsB1, clock2);
    ThirdMergeComplete(fold, a, b, b1, a2, rowsA2, clock3);
    Verdicts(fold, a, b, b1, a2);
    forall i, j | i in a && j in b && SameName(fold, a[i], b[j])
      ensures Wins(a[i], b[j]) <==>
        a[i].claimedAt < b[j].claimedAt || (a[i].claimedAt == b[j].claimedAt && ComesFirst(i, j))
    {
      WinsMeansEarlier(a[i], b[j]);
      WinsMeansEarlier(b[j], a[i]);
    }
  }

  lemma Verdicts(fold: Folding, a: Table, b: Table, b1: Table, a2: Table)
    requires Apart(fold, a, b) && AfterFirst(fold, a, b, b1) && AfterSecond(fold, a, b, b1, a2)
    ensures forall i, j | i in a && j in b && SameName(fold, a[i], b[j]) ::
      if Wins(a[i], b[j]) then a2[i] == a[i] && a2[j].name == None
      else a2[j] == b[j] && a2[i].name == None
    ensures forall i | i in a && (forall j | j in b :: !SameName(fold, a[i], b[j])) :: a2[i] == a[i]
    ensures forall j | j in b && (forall i | i in a :: !SameName(fold, a[i], b[j])) :: a2[j] == b[j]
  {
    forall i, j | i in a && j in b && SameName(fold, a[i], b[j])
      ensures if Wins(a[i], b[j]) then a2[i] == a[i] && a2[j].name == None
              else a2[j] == b[j] && a2[i].name == None
    {
      WinsIsStrictOrder(a[i], b[j], a[i]);
      if Wins(a[i], b[j]) {
        assert BeatenBy(fold, b[j], a, i);
        assert !Beaten(fold, a[i], b) by {
          if k :| BeatenBy(fold, a[i], b, k) {
            assert SameName(fold, b[k], b[j]);
          }
        }
      } else {
        assert BeatenBy(fold, a[i], b, j);
        BeatersAreUnbeaten(fold, a, b, i, j);
      }
    }
  }
}
