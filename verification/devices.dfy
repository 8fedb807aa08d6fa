/** Device rows of lxmf_hub/personas.py and their tombstones. */
module Devices {
  import opened Wrappers
  import opened ByteStrings
  import opened Personas

  datatype Device = Device(userHash: Bytes, personaId: Bytes, addedAt: real, removedAt: Option<real>) {
    predicate Active() {
      removedAt.None?
    }

    /** How recent the row is; a device that was never removed counts as removed at 0. */
    function Version(): real {
      var removed := if removedAt.Some? then removedAt.value else 0.0;
      if addedAt >= removed then addedAt else removed
    }
  }

  /** The persona_identities table, by primary key. */
  type DeviceTable = map<Bytes, Device>

  ghost predicate KeyedByUser(t: DeviceTable) {
    forall k | k in t :: t[k].userHash == k
  }

  /** The active devices of a persona. */
  function DevicesOf(t: DeviceTable, persona: Bytes): set<Bytes> {
    set k | k in t && t[k].personaId == persona && t[k].Active()
  }

  /** The persona an active device belongs to. */
  function PersonaOf(personas: Table, t: DeviceTable, user: Bytes): Option<Bytes> {
    if user in t && t[user].Active() && t[user].personaId in personas then Some(t[user].personaId) else None
  }

  /** Whether a member may detach a device: one of their own persona's, not its only one. */
  predicate MayUnlink(personas: Table, t: DeviceTable, user: Bytes, target: Bytes) {
    && PersonaOf(personas, t, user).Some?
    && PersonaOf(personas, t, target) == PersonaOf(personas, t, user)
    && |DevicesOf(t, PersonaOf(personas, t, user).value)| != 1
  }

  /** `unlink_identity`: an active row becomes a tombstone, any other stays. */
  function Removed(t: DeviceTable, target: Bytes, now: real): DeviceTable {
    if target in t && t[target].Active() then t[target := t[target].(removedAt := Some(now))] else t
  }

  /** One device row of a merge: dropped while its persona is unknown, and kept out by
      a local row at least as recent. */
  function MergeDevice(personas: Table, t: DeviceTable, row: Device): DeviceTable {
    if row.personaId !in personas then t
    else if row.userHash in t && t[row.userHash].Version() >= row.Version() then t
    else t[row.userHash := row]
  }

  function MergeDevices(personas: Table, t: DeviceTable, rows: seq<Device>): DeviceTable {
    if rows == [] then t
    else MergeDevice(personas, MergeDevices(personas, t, rows[..|rows| - 1]), rows[|rows| - 1])
  }

  /** A local row, tombstone or not, stands against any number of rows no more recent. */
  lemma {:induction false} TombstoneStands(personas: Table, t: DeviceTable, rows: seq<Device>, k: Bytes)
    requires k in t
    requires forall row | row in rows && row.userHash == k :: row.Version() <= t[k].Version()
    ensures k in MergeDevices(personas, t, rows) && MergeDevices(personas, t, rows)[k] == t[k]
  {
    if rows != [] {
      assert rows[|rows| - 1] in rows;
      TombstoneStands(personas, t, rows[..|rows| - 1], k);
    }
  }

  /** A row is met: its persona is unknown, or a local row is at least as recent. */
  ghost predicate Met(personas: Table, t: DeviceTable, row: Device) {
    row.personaId in personas ==> row.userHash in t && t[row.userHash].Version() >= row.Version()
  }

  /** Once merged, every row of the list is met, in whatever order and however often. */
  lemma {:induction false} MergedRowsAreMet(personas: Table, t: DeviceTable, rows: seq<Device>)
    ensures forall row | row in rows :: Met(personas, MergeDevices(personas, t, rows), row)
  {
    if rows != [] {
      var init, last := rows[..|rows| - 1], rows[|rows| - 1];
      MergedRowsAreMet(personas, t, init);
      assert forall row | row in rows :: row in init || row == last;
    }
  }

  lemma {:induction false} MetRowsChangeNothing(personas: Table, t: DeviceTable, rows: seq<Device>)
    requires forall row | row in rows :: Met(personas, t, row)
    ensures MergeDevices(personas, t, rows) == t
  {
    if rows != [] {
      assert rows[|rows| - 1] in rows;
      MetRowsChangeNothing(personas, t, rows[..|rows| - 1]);
    }
  }

  /** Merging the same device list again changes no row. */
  lemma DevicesIdempotent(personas: Table, t: DeviceTable, rows: seq<Device>)
    ensures var once := MergeDevices(personas, t, rows);
            MergeDevices(personas, once, rows) == once
  {
    MergedRowsAreMet(personas, t, rows);
    MetRowsChangeNothing(personas, MergeDevices(personas, t, rows), rows);
  }

  /** The join by version, the first table winning ties. */
  ghost function Join(t: DeviceTable, u: DeviceTable): DeviceTable {
    map k | k in t.Keys + u.Keys ::
      if k in t && (k !in u || t[k].Version() >= u[k].Version()) then t[k] else u[k]
  }

  ghost predicate DeviceSnapshot(rows: seq<Device>, t: DeviceTable) {
    && (forall row | row in rows :: row.userHash in t && t[row.userHash] == row)
    && (forall k | k in t :: t[k] in rows)
  }

  ghost predicate KnowsAll(personas: Table, t: DeviceTable) {
    forall k | k in t :: t[k].personaId in personas
  }

  ghost predicate Listed(rows: seq<Device>, k: Bytes) {
    exists row :: row in rows && row.userHash == k
  }

  lemma ListedGrows(rows: seq<Device>, row: Device, k: Bytes)
    ensures Listed(rows + [row], k) <==> Listed(rows, k) || k == row.userHash
  {
    assert row in rows + [row];
    if Listed(rows, k) {
      var r :| r in rows && r.userHash == k;
      assert r in rows + [row];
    }
    if Listed(rows + [row], k) {
      var r :| r in rows + [row] && r.userHash == k;
      assert r in rows || r == row;
    }
  }

  lemma {:induction false} MergePart(personas: Table, t: DeviceTable, u: DeviceTable, rows: seq<Device>)
    requires KnowsAll(personas, u) && KeyedByUser(u)
    requires forall row | row in rows :: row.userHash in u && u[row.userHash] == row
    ensures var m := MergeDevices(personas, t, rows);
      && (forall k :: k in m <==> k in t || (k in u && Listed(rows, k)))
      && (forall k | k in m :: m[k] == if Listed(rows, k) && k in u then Join(t, u)[k] else t[k])
  {
    if rows != [] {
      var init, row := rows[..|rows| - 1], rows[|rows| - 1];
      assert rows == init + [row] && row in rows;
      MergePart(personas, t, u, init);
      forall k
        ensures Listed(rows, k) <==> Listed(init, k) || k == row.userHash
      {
        ListedGrows(init, row, k);
      }
    }
  }

  /** Merging a whole snapshot computes the join, in whatever order the rows come. */
  lemma MergeIsJoin(personas: Table, t: DeviceTable, u: DeviceTable, rows: seq<Device>)
    requires DeviceSnapshot(rows, u) && KeyedByUser(u) && KnowsAll(personas, u)
    ensures MergeDevices(personas, t, rows) == Join(t, u)
  {
    MergePart(personas, t, u, rows);
    forall k | k in u
      ensures Listed(rows, k)
    {
      assert t == t && u[k] in rows;
    }
  }

  /** Two hubs that know every persona involved hold the same device rows after one
      merge each way exactly when equal versions of a device were equal rows. */
  lemma DevicesConverge(
    personasA: Table, personasB: Table, a: DeviceTable, b: DeviceTable, rowsB: seq<Device>, rowsA1: seq<Device>)
    requires KeyedByUser(a) && KeyedByUser(b)
    requires KnowsAll(personasA, a) && KnowsAll(personasA, b) && KnowsAll(personasB, a) && KnowsAll(personasB, b)
    requires DeviceSnapshot(rowsB, b) && DeviceSnapshot(rowsA1, MergeDevices(personasA, a, rowsB))
    ensures
      MergeDevices(personasA, a, rowsB) == MergeDevices(personasB, b, rowsA1)
      <==> forall k | k in a && k in b && a[k].Version() == b[k].Version() :: a[k] == b[k]
  {
    MergeIsJoin(personasA, a, b, rowsB);
    MergeIsJoin(personasB, b, Join(a, b), rowsA1);
    JoinBothWays(a, b);
  }

  lemma JoinBothWays(a: DeviceTable, b: DeviceTable)
    ensures Join(a, b) == Join(b, Join(a, b))
      <==> forall k | k in a && k in b && a[k].Version() == b[k].Version() :: a[k] == b[k]
  {
    var x, y := Join(a, b), Join(b, Join(a, b));
    if x == y {
      forall k | k in a && k in b && a[k].Version() == b[k].Version()
        ensures a[k] == b[k]
      {
        assert x[k] == a[k] && y[k] == b[k];
      }
    } else if forall k | k in a && k in b && a[k].Version() == b[k].Version() :: a[k] == b[k] {
      assert x.Keys == y.Keys;
      forall k | k in x
        ensures x[k] == y[k]
      {
      }
    }
  }

  /** An unlink on a hub whose clock is behind does not raise the version: after one
      merge each way one hub still has the device and the other has its tombstone. */
  lemma UnlinkBehindTheClockDiverges(personas: Table, u: Bytes, p: Bytes)
    requires p in personas
    ensures
      var active, gone := Device(u, p, 10.0, None), Device(u, p, 10.0, Some(8.0));
      && MergeDevices(personas, map[u := active], [gone]) == map[u := active]
      && MergeDevices(personas, map[u := gone], [active]) == map[u := gone]
  {
    var active, gone := Device(u, p, 10.0, None), Device(u, p, 10.0, Some(8.0));
    assert [gone][..0] == [] && [active][..0] == [];
    assert active.Version() == gone.Version() == 10.0;
  }

  /** The tombstone an unlink at `now` leaves replaces the active row on another hub that
      knows the persona exactly when `now` is past both the linking and zero. */
  lemma UnlinkReplicatesIff(personas: Table, t: DeviceTable, device: Device, now: real)
    requires device.userHash in t && t[device.userHash] == device && device.Active() && device.personaId in personas
    ensures
      var tombstone := device.(removedAt := Some(now));
      MergeDevice(personas, t, tombstone)[device.userHash] == tombstone <==> now > device.addedAt && now > 0.0
  {
  }
}
