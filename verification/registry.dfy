/** The persona registry of lxmf_hub/personas.py over the two persona tables of
    lxmf_hub/store.py. Every method leaves the tables as the functions of Personas and
    Devices say, so what is proved of those holds of the tables. */
module Registry {
  import opened Wrappers
  import opened ByteStrings
  import opened Personas
  import opened Devices

  /** The persona part of the SQLite store. A write the unique index refuses changes
      nothing and reports false, for the IntegrityError. */
  class PersonaStore {
    const fold: Folding
    var personas: Table
    var devices: DeviceTable

    constructor (fold: Folding)
      ensures this.fold == fold && personas == map[] && devices == map[]
    {
      this.fold := fold;
      personas, devices := map[], map[];
    }

    ghost predicate Valid()
      reads this
    {
      Personas.Valid(fold, personas) && KeyedByUser(devices)
    }

    method PersonaByName(name: string) returns (r: Option<Bytes>)
      requires Valid()
      ensures r == Holder(fold, personas, fold(name))
    {
      var folded := fold(name);
      if exists id :: id in personas.Keys && NamedAs(fold, personas[id], folded) {
        var id :| id in personas.Keys && NamedAs(fold, personas[id], folded);
        HolderIsUnique(fold, personas, folded, id);
        r := Some(id);
      } else {
        assert !exists id :: IsHolder(fold, personas, folded, id);
        r := None;
      }
    }

    /** The persona an active device belongs to. */
    function PersonaForIdentity(userHash: Bytes): Option<Bytes>
      reads this
    {
      PersonaOf(personas, devices, userHash)
    }

    method SetPersonaName(id: Bytes, name: Option<string>, now: real) returns (ok: bool)
      requires Valid()
      modifies this`personas
      ensures Valid()
      ensures ok <==> (id in old(personas) && name.Some? ==>
        forall other | other in old(personas) && NamedAs(fold, old(personas)[other], fold(name.value)) :: other == id)
      ensures !ok || id !in old(personas) ==> personas == old(personas)
      ensures ok && id in old(personas) ==>
        var p := old(personas)[id];
        personas == old(personas)[id := p.(name := name, revision := p.revision + 1, updatedAt := now)]
    {
      if id !in personas {
        return true;
      }
      var p := personas[id].(name := name, revision := personas[id].revision + 1, updatedAt := now);
      if Clashes(fold, personas, p) {
        return false;
      }
      personas := personas[id := p];
      ok := true;
    }

    method UpsertPersona(record: Persona) returns (ok: bool)
      requires Valid()
      modifies this`personas
      ensures Valid()
      ensures ok <==> !Clashes(fold, old(personas), record)
      ensures personas == if ok then old(personas)[record.id := record] else old(personas)
    {
      ok := !Clashes(fold, personas, record);
      if ok {
        personas := personas[record.id := record];
      }
    }

    /** Mint a persona with its first device, both or neither. */
    method CreatePersona(id: Bytes, name: Option<string>, userHash: Bytes, now: real) returns (ok: bool)
      requires Valid()
      modifies this
      ensures Valid()
      ensures ok <==> id !in old(personas) && !Clashes(fold, old(personas), Persona(id, name, now, 1, now))
      ensures !ok ==> personas == old(personas) && devices == old(devices)
      ensures ok ==>
        && personas == old(personas)[id := Persona(id, name, now, 1, now)]
        && devices == old(devices)[userHash := Device(userHash, id, now, None)]
    {
      var record := Persona(id, name, now, 1, now);
      ok := id !in personas && !Clashes(fold, personas, record);
      if ok {
        personas := personas[id := record];
        devices := devices[userHash := Device(userHash, id, now, None)];
      }
    }
  }

  datatype ClaimResult = Claimed(id: Bytes) | InvalidName | AlreadyTaken

  const NAME_MIN_LENGTH := 2
  const NAME_MAX_LENGTH := 32

  predicate IsAlphanumeric(c: char) {
    'A' <= c <= 'Z' || 'a' <= c <= 'z' || '0' <= c <= '9'
  }

  /** The usernames `validate_name` accepts, once stripped of surrounding blanks. */
  predicate ValidName(name: string) {
    && NAME_MIN_LENGTH <= |name| <= NAME_MAX_LENGTH
    && IsAlphanumeric(name[0])
    && forall c | c in name :: IsAlphanumeric(c) || c in "._-"
  }

  predicate LetterOrDigit(code: int) {
    48 <= code <= 57 || 65 <= code <= 90 || 97 <= code <= 122
  }

  /** The same, told in ASCII codes: dash is 45, dot 46 and underscore 95. */
  lemma ValidNameInAscii(name: string)
    ensures ValidName(name) <==>
      && 2 <= |name| <= 32 && LetterOrDigit(name[0] as int)
      && forall i | 0 <= i < |name| ::
           LetterOrDigit(name[i] as int) || name[i] as int == 45 || name[i] as int == 46 || name[i] as int == 95
  {
    forall c: char
      ensures IsAlphanumeric(c) <==> LetterOrDigit(c as int)
      ensures c in "._-" <==> c as int == 45 || c as int == 46 || c as int == 95
    {
      InAscii(c);
    }
    assert forall i | 0 <= i < |name| :: name[i] in name;
  }

  lemma InAscii(c: char)
    ensures IsAlphanumeric(c) <==> LetterOrDigit(c as int)
    ensures c in "._-" <==> c as int == 45 || c as int == 46 || c as int == 95
  {
    assert "._-"[0] == '.' && "._-"[1] == '_' && "._-"[2] == '-';
    assert c == '.' ==> c in "._-";
    assert c == '_' ==> c in "._-";
    assert c == '-' ==> c in "._-";
    assert c as int == 45 ==> c == '-';
    assert c as int == 46 ==> c == '.';
    assert c as int == 95 ==> c == '_';
  }

  class PersonaRegistry {
    const store: PersonaStore

    constructor (store: PersonaStore)
      ensures this.store == store
    {
      this.store := store;
    }

    /** Claim or change the username of the persona a device belongs to. A refusal
        changes nothing; a claim touches no other persona, and afterwards the device
        and the name resolve to one and the same persona. */
    method Claim(userHash: Bytes, wanted: string, newId: Bytes, now: real) returns (r: ClaimResult)
      requires store.Valid()
      modifies store
      ensures store.Valid()
      ensures r.InvalidName? <==> !ValidName(wanted)
      ensures !r.Claimed? ==> store.personas == old(store.personas) && store.devices == old(store.devices)
      ensures r.Claimed? ==>
        && store.PersonaForIdentity(userHash) == Some(r.id)
        && Holder(store.fold, store.personas, store.fold(wanted)) == Some(r.id)
        && store.personas[r.id].name == Some(wanted)
        && (forall id | id in old(store.personas) && id != r.id ::
              id in store.personas && store.personas[id] == old(store.personas)[id])
        && (forall id | id in store.personas :: id in old(store.personas) || id == r.id)
        && (r.id in old(store.personas) ==> store.personas[r.id].claimedAt == old(store.personas)[r.id].claimedAt)
        && Advanced(old(store.personas), store.personas)
      ensures r.AlreadyTaken? && newId !in old(store.personas) ==>
        exists id :: IsHolder(store.fold, old(store.personas), store.fold(wanted), id)
          && Some(id) != old(store.PersonaForIdentity(userHash))
    {
      if !ValidName(wanted) {
        return InvalidName;
      }
      var mine := store.PersonaForIdentity(userHash);
      var holder := store.PersonaByName(wanted);
      if holder.Some? && holder != mine {
        assert IsHolder(store.fold, store.personas, store.fold(wanted), holder.value);
        return AlreadyTaken;
      }
      if mine.Some? && store.personas[mine.value].name == Some(wanted) {
        HolderIsUnique(store.fold, store.personas, store.fold(wanted), mine.value);
        return Claimed(mine.value);
      }
      forall id | IsHolder(store.fold, store.personas, store.fold(wanted), id)
        ensures Some(id) == mine
      {
        HolderIsUnique(store.fold, store.personas, store.fold(wanted), id);
      }
      var id := if mine.Some? then mine.value else newId;
      var ok;
      if mine.None? {
        forall other | other in store.personas
          ensures !SameName(store.fold, store.personas[other], Persona(newId, Some(wanted), now, 1, now))
        {
          assert !IsHolder(store.fold, store.personas, store.fold(wanted), other);
        }
        ok := store.CreatePersona(newId, Some(wanted), userHash, now);
      } else {
        forall other | other in store.personas && NamedAs(store.fold, store.personas[other], store.fold(wanted))
          ensures other == id
        {
          assert IsHolder(store.fold, store.personas, store.fold(wanted), other);
        }
        ok := store.SetPersonaName(id, Some(wanted), now);
      }
      if !ok {
        return AlreadyTaken;
      }
      HolderIsUnique(store.fold, store.personas, store.fold(wanted), id);
      r := Claimed(id);
    }

    /** The in-place counterpart of `Adopt`, one store call after the other. */
    method AdoptRow(remote: Persona, now: real) returns (losers: seq<Loser>, raised: bool)
      requires store.Valid()
      modifies store`personas
      ensures store.Valid()
      ensures Effect(store.personas, losers, raised) == Adopt(store.fold, old(store.personas), remote, now)
    {
      losers := [];
      var incoming := remote;
      var holder := None;
      if remote.name.Some? && remote.name.value != "" {
        holder := store.PersonaByName(remote.name.value);
      }
      if holder.Some? && holder.value != remote.id {
        var other := store.personas[holder.value];
        if Wins(other, remote) {
          incoming := Nameless(remote);
        } else {
          var cleared := store.SetPersonaName(holder.value, None, now);
          losers := [Loser(store.personas[holder.value], other.name.value)];
        }
      }
      if remote.name.Some? && remote.name.value != "" {
        NoClashAfterClearing(store.fold, old(store.personas), remote, now);
      }
      var ok := store.UpsertPersona(incoming);
      raised := !ok;
    }

    /** Merge a peer's rows, with nobody else at the store. None stands for the exception
        that abandons the merge where it stands, before any device row. */
    method Merge(personas: seq<Persona>, identities: seq<Device>, clock: nat -> real)
      returns (losers: Option<seq<Loser>>)
      requires store.Valid()
      modifies store
      ensures store.Valid()
      ensures var m := MergeBoth(store.fold, old(store.personas), old(store.devices), personas, identities, clock);
        && store.personas == m.personas && store.devices == m.devices
        && losers == (if m.raised then None else Some(m.losers))
    {
      var lost := [];
      ghost var before := store.personas;
      for i := 0 to |personas|
        invariant store.Valid() && store.devices == old(store.devices)
        invariant MergeRows(store.fold, before, personas[..i], clock) == Effect(store.personas, lost, false)
      {
        var remote := personas[i];
        assert personas[..i + 1][..i] == personas[..i];
        if remote.id in store.personas && !Newer(remote, store.personas[remote.id]) {
          assert MergeRow(store.fold, store.personas, remote, clock(i)) == Effect(store.personas, [], false);
          assert lost + [] == lost;
        } else {
          var more, raised := AdoptRow(remote, clock(i));
          lost := lost + more;
          if raised {
            MergeStopsAtRaise(store.fold, before, personas, i + 1, clock);
            return None;
          }
        }
      }
      assert personas[..|personas|] == personas;
      for i := 0 to |identities|
        invariant store.Valid() && store.personas == MergeRows(store.fold, before, personas, clock).table
        invariant store.devices == MergeDevices(store.personas, old(store.devices), identities[..i])
      {
        assert identities[..i + 1][..i] == identities[..i];
        AdoptIdentity(identities[i]);
      }
      assert identities[..|identities|] == identities;
      losers := Some(lost);
    }

    method AdoptIdentity(remote: Device)
      requires store.Valid()
      modifies store`devices
      ensures store.Valid()
      ensures store.devices == MergeDevice(store.personas, old(store.devices), remote)
    {
      if remote.personaId !in store.personas {
        return;
      }
      if remote.userHash in store.devices && store.devices[remote.userHash].Version() >= remote.Version() {
        return;
      }
      store.devices := store.devices[remote.userHash := remote];
    }

    /** Detach one of the caller's own devices, with nobody else at the store: never the
        last one. */
    method Unlink(userHash: Bytes, target: Bytes, now: real) returns (ok: bool)
      requires store.Valid()
      modifies store`devices
      ensures store.Valid()
      ensures ok <==> MayUnlink(store.personas, old(store.devices), userHash, target)
      ensures ok ==>
        && userHash in old(store.devices) && old(store.devices)[userHash].Active()
        && target in old(store.devices) && old(store.devices)[target].Active()
        && old(store.devices)[target].personaId == old(store.devices)[userHash].personaId
        && (exists d :: d != target && d in old(store.devices) && old(store.devices)[d].Active()
              && old(store.devices)[d].personaId == old(store.devices)[target].personaId)
        && store.devices == old(store.devices)[target := Device(
             old(store.devices)[target].userHash, old(store.devices)[target].personaId,
             old(store.devices)[target].addedAt, Some(now))]
      ensures store.devices == if ok then Removed(old(store.devices), target, now) else old(store.devices)
      ensures ok ==> DevicesOf(store.devices, old(store.PersonaForIdentity(userHash)).value) != {}
    {
      var mine := store.PersonaForIdentity(userHash);
      if mine.None? {
        return false;
      }
      if target !in store.devices || !store.devices[target].Active() || store.devices[target].personaId != mine.value {
        return false;
      }
      ghost var owned := DevicesOf(store.devices, mine.value);
      if |DevicesOf(store.devices, mine.value)| == 1 {
        return false;
      }
      store.devices := Removed(store.devices, target, now);
      assert DevicesOf(store.devices, mine.value) == owned - {target};
      assert target in owned && |owned| != 1;
      assert |owned - {target}| == |owned| - 1;
      ghost var d :| d in owned - {target};
      ok := true;
    }
  }

  lemma NoClashAfterClearing(fold: Folding, t: Table, remote: Persona, now: real)
    requires Personas.Valid(fold, t)
    requires remote.name.Some? && remote.name.value != ""
    ensures var h := Holder(fold, t, fold(remote.name.value));
      && (h.Some? && h.value != remote.id ==> !Clashes(fold, t[h.value := Cleared(t[h.value], now)], remote))
      && !Clashes(fold, t, Nameless(remote))
  {
  }

  lemma {:induction false} MergeStopsAtRaise(fold: Folding, t: Table, rows: seq<Persona>, n: nat, clock: nat -> real)
    requires n <= |rows| && MergeRows(fold, t, rows[..n], clock).raised
    ensures MergeRows(fold, t, rows, clock) == MergeRows(fold, t, rows[..n], clock)
    decreases |rows|
  {
    if n < |rows| {
      assert rows[..|rows| - 1][..n] == rows[..n];
      MergeStopsAtRaise(fold, t, rows[..|rows| - 1], n, clock);
    } else {
      assert rows[..n] == rows;
    }
  }

  /** The tables after a merge, and whether the index stopped it. */
  datatype Merged = Merged(personas: Table, devices: DeviceTable, losers: seq<Loser>, raised: bool)

  /** What `Merge` leaves of both tables. */
  ghost function MergeBoth(
    fold: Folding, personas: Table, devices: DeviceTable, rows: seq<Persona>, identities: seq<Device>,
    clock: nat -> real): Merged
  {
    var m := MergeRows(fold, personas, rows, clock);
    Merged(m.table, if m.raised then devices else MergeDevices(m.table, devices, identities), m.losers, m.raised)
  }

  /** Merging the same two lists again, at any later times, changes no row of either
      table and reports no loser; one that the index stopped is stopped again. */
  lemma MergeAgainChangesNothing(
    fold: Folding, personas: Table, devices: DeviceTable, rows: seq<Persona>, identities: seq<Device>,
    clock: nat -> real, later: nat -> real)
    requires Personas.Valid(fold, personas)
    ensures var once := MergeBoth(fold, personas, devices, rows, identities, clock);
            MergeBoth(fold, once.personas, once.devices, rows, identities, later) == once.(losers := [])
  {
    var m := MergeRows(fold, personas, rows, clock);
    if m.raised {
      MergeStopsAgain(fold, personas, rows, clock, later);
    } else {
      MergeIdempotent(fold, personas, rows, clock, later);
      DevicesIdempotent(m.table, devices, identities);
    }
  }
}
