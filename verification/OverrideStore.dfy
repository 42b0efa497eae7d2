/**
  The persisted override file (`mapping/overrides.py`): saves and removals update it in place, a
  profile is exported from it and imported into it.  A write may fail; a broken file is never overwritten.
 */
module OverrideStore {
  import opened Prelude
  import opened Decimal
  import opened Overrides

  const SCHEMA_VERSION: int := 2

  datatype File = File(version: int, overrides: Section, equipment: Section)

  /** `Broken`: unreadable, malformed, or of an unsupported version. */
  datatype Disk = Absent | Readable(file: File) | Broken

  const EMPTY := File(SCHEMA_VERSION, map[], map[])

  /** `_load_raw`. */
  function LoadRaw(disk: Disk): Option<File> {
    match disk
    case Absent => Some(EMPTY)
    case Readable(file) => Some(file)
    case Broken => None
  }

  datatype Error = BadProfile | BadVersion | BadEntry(key: string) | BadKey(key: string) | BrokenFile | NotPersisted

  // ---------------------------------------------------------------------------------------
  // Saves and removals, on sections
  // ---------------------------------------------------------------------------------------

  function SaveAt(section: Section, key: string, override: Entry): Section {
    section[key := SavedEntry(Get(section, key), override)]
  }

  /** Fields whose loss empties an entry. */
  predicate Meaningful(entry: Entry) { EntityType in entry || Publication in entry }

  function RemoveFields(section: Section, key: string, fields: set<Field>): Section {
    var entry := Get(section, key);
    if entry.Keys * fields == {} then section
    else if Meaningful(entry - fields) then section[key := entry - fields]
    else section - {key}
  }

  /** What a removal leaves: the entry without the fields, or nothing when no type and no publication is left. */
  lemma RemoveMeaning(section: Section, key: string, fields: set<Field>, k: string)
    ensures var r, e := RemoveFields(section, key, fields), Get(section, key);
      var touched := exists f :: f in fields && f in e;
      && (k != key || !touched ==> (k in r <==> k in section) && (k in section ==> r[k] == section[k]))
      && (k == key && touched ==>
         && (k in r <==> exists f :: f in e && f !in fields && (f == EntityType || f == Publication))
         && (k in r ==> r[k].Keys == e.Keys - fields && forall f :: f in r[k] ==> r[k][f] == e[f]))
  {
    var e := Get(section, key);
    if f :| f in fields && f in e {
      assert f in e.Keys * fields;
    } else {
      assert e.Keys * fields == {};
    }
  }

  /** Saves in sequence, one per item. */
  function SaveAll(section: Section, items: seq<(string, Entry)>): Section {
    if items == [] then section
    else
      var (key, override) := items[|items|-1];
      SaveAt(SaveAll(section, items[..|items|-1]), key, override)
  }

  function AsMap(items: seq<(string, Entry)>): Section
    requires DistinctKeys(items)
  {
    if items == [] then map[] else AsMap(items[..|items|-1])[items[|items|-1].0 := items[|items|-1].1]
  }

  lemma {:induction false} AsMapKeys(items: seq<(string, Entry)>, k: string)
    requires DistinctKeys(items)
    ensures k in AsMap(items) <==> exists i :: 0 <= i < |items| && items[i].0 == k
  {
    if items != [] {
      var front := items[..|items|-1];
      AsMapKeys(front, k);
      if i :| 0 <= i < |items| && items[i].0 == k && i < |front| {
        assert front[i].0 == k;
      }
    }
  }

  lemma {:induction false} AsMapEntry(items: seq<(string, Entry)>, i: nat)
    requires DistinctKeys(items) && i < |items|
    ensures items[i].0 in AsMap(items) && AsMap(items)[items[i].0] == items[i].1
  {
    if i < |items| - 1 {
      AsMapEntry(items[..|items|-1], i);
    }
  }

  lemma SaveOnSavedLayer(section: Section, saved: Section, key: string, override: Entry)
    requires key !in saved
    ensures SaveAt(SavedLayer(section, saved), key, override) == SavedLayer(section, saved[key := override])
  {
    var a, b := SaveAt(SavedLayer(section, saved), key, override), SavedLayer(section, saved[key := override]);
    assert a.Keys == b.Keys;
    assert Get(SavedLayer(section, saved), key) == Get(section, key);
    forall k | k in a ensures a[k] == b[k] {
    }
  }

  /** Saving proposals one by one, in any order, gives the saved layer the previews are compared with. */
  lemma {:induction false} SavesMakeTheSavedLayer(section: Section, items: seq<(string, Entry)>)
    requires DistinctKeys(items)
    ensures SaveAll(section, items) == SavedLayer(section, AsMap(items))
  {
    hide SaveAt, SavedLayer;
    if items == [] {
      assert SavedLayer(section, map[]) == section by { EmptyProposal(section); }
    } else {
      var front, last := items[..|items|-1], items[|items|-1];
      SavesMakeTheSavedLayer(section, front);
      AsMapKeys(front, last.0);
      SaveOnSavedLayer(section, AsMap(front), last.0, last.1);
    }
  }

  lemma EmptyProposal(section: Section)
    ensures SavedLayer(section, map[]) == section
  {
  }

  /** Removing a field just saved where it was not set: the pipeline reads again what it read before. */
  lemma RemovalUndoesSave(section: Section, key: string, field: Field, value: Value, k: string)
    requires field == EntityType || field == Publication
    requires field !in Get(section, key)
    ensures var after := RemoveFields(SaveAt(section, key, map[field := value]), key, {field});
      && UsableType(Get(after, k)) == UsableType(Get(section, k))
      && PublicationOf(Get(after, k)) == PublicationOf(Get(section, k))
      && (k != key ==> Get(after, k) == Get(section, k))
  {
    var saved := SaveAt(section, key, map[field := value]);
    assert field in Get(saved, key).Keys * {field};
  }

  // ---------------------------------------------------------------------------------------
  // Profiles
  // ---------------------------------------------------------------------------------------

  const ALLOWED_TYPES: set<string> :=
    {"light", "cover", "switch", "sensor", "binary_sensor", "button", "number", "select", "climate",
      "alarm_control_panel"}

  predicate AllowedValue(f: Field, v: Value) {
    match f
    case Source => v == USER
    case Publication => v == EXCLUDE || v == FORCE
    case EntityType => v.Str? && v.text in ALLOWED_TYPES
    case Extra(_) => false
  }

  /** `_sanitize_profile_entry`: field names and values outside the closed sets are dropped. */
  function Sanitize(entry: Entry, allowed: set<Field>): Entry {
    map f | f in entry && f in allowed && AllowedValue(f, entry[f]) :: entry[f]
  }

  const COMMAND_FIELDS: set<Field> := {Source, EntityType, Publication}
  const EQUIPMENT_FIELDS: set<Field> := {Source, Publication}

  function SanitizeSection(section: Section, allowed: set<Field>): Section {
    map k | k in section :: Sanitize(section[k], allowed)
  }

  /** `export_profile`. */
  function Export(disk: Disk): File {
    var raw := LoadRaw(disk);
    if raw.None? then EMPTY
    else File(raw.value.version, SanitizeSection(raw.value.overrides, COMMAND_FIELDS),
      SanitizeSection(raw.value.equipment, EQUIPMENT_FIELDS))
  }

  /** `parse_override_key`: the text is cut at the first colon. */
  function ParseKey(key: string): Option<(int, int)> {
    var cut := CutAtColon(key);
    if cut.None? then None
    else
      var (eqId, cmdId) := (ParseInt(cut.value.0), ParseInt(cut.value.1));
      if eqId.Some? && cmdId.Some? then Some((eqId.value, cmdId.value)) else None
  }

  function CutAtColon(s: string): (r: Option<(string, string)>)
    ensures r.Some? ==> s == r.value.0 + ":" + r.value.1 && ':' !in r.value.0
    ensures r.None? <==> ':' !in s
  {
    if s == "" then None
    else if s[0] == ':' then Some(("", s[1..]))
    else
      var rest := CutAtColon(s[1..]);
      assert s == [s[0]] + s[1..];
      if rest.None? then None else Some(([s[0]] + rest.value.0, rest.value.1))
  }

  lemma ParseOverrideKey(eqId: int, cmdId: int)
    ensures ParseKey(OverrideKey(eqId, cmdId)) == Some((eqId, cmdId))
  {
    var key := OverrideKey(eqId, cmdId);
    assert key[|IntText(eqId)|] == ':';
    var cut := CutAtColon(key);
    NoColon(eqId);
    SplitAtColon(IntText(eqId), IntText(cmdId), cut.value.0, cut.value.1);
    ParseIntText(eqId);
    ParseIntText(cmdId);
  }

  /** The key under which an imported command entry is written; None is the ValueError. */
  function CommandKey(key: string): (r: Option<string>)
    ensures r.Some? ==> exists e, c :: r.value == OverrideKey(e, c)
  {
    var p := ParseKey(key);
    if p.None? then None else Some(OverrideKey(p.value.0, p.value.1))
  }

  /** The key under which an imported equipment entry is written. */
  function EquipmentKey(key: string): (r: Option<string>)
    ensures r.Some? ==> exists e :: r.value == IntText(e)
  {
    var p := ParseInt(key);
    if p.None? then None else Some(IntText(p.value))
  }

  /** Whatever key is accepted, it is written under a key that reads back as itself. */
  ghost predicate Stable(canon: string -> Option<string>) {
    forall k :: canon(k).Some? ==> canon(canon(k).value) == canon(k)
  }

  lemma KeysAreStable()
    ensures Stable(CommandKey) && Stable(EquipmentKey)
  {
    forall k | CommandKey(k).Some? ensures CommandKey(CommandKey(k).value) == CommandKey(k) {
      var p := ParseKey(k);
      ParseOverrideKey(p.value.0, p.value.1);
    }
    forall k | EquipmentKey(k).Some? ensures EquipmentKey(EquipmentKey(k).value) == EquipmentKey(k) {
      ParseIntText(ParseInt(k).value);
    }
  }

  /** Every key the store writes is accepted as it stands. */
  lemma OwnKeysAreAccepted(eqId: int, cmdId: int)
    ensures CommandKey(OverrideKey(eqId, cmdId)) == Some(OverrideKey(eqId, cmdId))
    ensures EquipmentKey(IntText(eqId)) == Some(IntText(eqId))
  {
    ParseOverrideKey(eqId, cmdId);
    ParseIntText(eqId);
  }

  predicate IsCut(k: string, i: int) { 0 <= i < |k| && k[i] == ':' && ':' !in k[..i] }

  /** The text is cut at its first colon. */
  lemma CutMeaning(k: string)
    ensures CutAtColon(k).Some? <==> ':' in k
    ensures forall i :: IsCut(k, i) ==> CutAtColon(k) == Some((k[..i], k[i+1..]))
    ensures ':' in k ==> exists i :: IsCut(k, i)
  {
    var cut := CutAtColon(k);
    if cut.Some? {
      var n := |cut.value.0|;
      assert k[n] == ':' && k[..n] == cut.value.0 && k[n+1..] == cut.value.1;
      assert IsCut(k, n);
      forall i | IsCut(k, i) ensures i == n {
        OneCut(k, i, n);
      }
    }
  }

  lemma OneCut(k: string, i: nat, j: nat)
    requires IsCut(k, i) && IsCut(k, j)
    ensures i == j
  {
    assert forall x :: 0 <= x < j ==> k[x] in k[..j];
    assert forall x :: 0 <= x < i ==> k[x] in k[..i];
  }

  /** A command key is accepted when two integers stand around its first colon, an equipment key when it is one. */
  lemma AcceptedKeys(k: string)
    ensures CommandKey(k).Some? <==> exists i :: IsCut(k, i) && ParseInt(k[..i]).Some? && ParseInt(k[i+1..]).Some?
    ensures EquipmentKey(k).Some? <==> ParseInt(k).Some?
  {
    CutMeaning(k);
    hide ParseInt, CutAtColon;
  }

  datatype ProfileEntry = NotAnObject | Object(entry: Entry)

  /** `version` is None when it is absent or not an integer; sections are in file order. */
  datatype Profile = Malformed
    | Profile(version: Option<int>, overrides: seq<(string, ProfileEntry)>, equipment: seq<(string, ProfileEntry)>)

  /** First pass over a section: what will be written, or the first error. */
  function PlanSection(items: seq<(string, ProfileEntry)>, canon: string -> Option<string>,
      allowed: set<Field>): Result<seq<(string, Entry)>, Error>
  {
    if items == [] then Ok([])
    else
      var front := PlanSection(items[..|items|-1], canon, allowed);
      var (key, e) := items[|items|-1];
      if front.Err? then front
      else if e.NotAnObject? then Err(BadEntry(key))
      else if canon(key).None? then Err(BadKey(key))
      else Ok(front.value + [(canon(key).value, Sanitize(e.entry, allowed))])
  }

  predicate IsSound(item: (string, ProfileEntry), canon: string -> Option<string>) {
    item.1.Object? && canon(item.0).Some?
  }

  predicate IsFirstUnsound(items: seq<(string, ProfileEntry)>, canon: string -> Option<string>, i: int) {
    0 <= i < |items| && !IsSound(items[i], canon) && forall j :: 0 <= j < i ==> IsSound(items[j], canon)
  }

  function Unsoundness(item: (string, ProfileEntry)): Error {
    if item.1.NotAnObject? then BadEntry(item.0) else BadKey(item.0)
  }

  /** Every entry of a section is planned under its key, unless one is unsound: the first such names the error. */
  lemma {:induction false} PlanSectionMeaning(items: seq<(string, ProfileEntry)>, canon: string -> Option<string>,
      allowed: set<Field>)
    ensures var r := PlanSection(items, canon, allowed);
      && (r.Ok? <==> forall i :: 0 <= i < |items| ==> IsSound(items[i], canon))
      && (r.Ok? ==> |r.value| == |items| && forall i :: 0 <= i < |items| ==>
           r.value[i] == (canon(items[i].0).value, Sanitize(items[i].1.entry, allowed)))
      && (r.Err? ==> exists i :: IsFirstUnsound(items, canon, i) && r.error == Unsoundness(items[i]))
  {
    hide Sanitize;
    if items != [] {
      var n := |items| - 1;
      var front := items[..n];
      PlanSectionMeaning(front, canon, allowed);
      var r := PlanSection(front, canon, allowed);
      assert PlanSection(items, canon, allowed) ==
        if r.Err? then r
        else if !IsSound(items[n], canon) then Err(Unsoundness(items[n]))
        else Ok(r.value + [(canon(items[n].0).value, Sanitize(items[n].1.entry, allowed))]);
      assert forall i :: 0 <= i < n ==> front[i] == items[i];
      hide PlanSection, IsSound, Unsoundness;
      if r.Err? {
        var i :| IsFirstUnsound(front, canon, i) && r.error == Unsoundness(front[i]);
        assert IsFirstUnsound(items, canon, i);
      } else if !IsSound(items[n], canon) {
        assert IsFirstUnsound(items, canon, n);
      }
    }
  }

  /** What an import refuses: what is no profile, another version, then the first unsound command, then equipment. */
  lemma PlanMeaning(p: Profile)
    ensures Plan(p) == Err(BadProfile) <==> p.Malformed?
    ensures Plan(p) == Err(BadVersion) <==> p.Profile? && p.version != Some(1) && p.version != Some(2)
    ensures p.Profile? && (p.version == Some(1) || p.version == Some(2)) ==>
      var commands, equipment :=
        PlanSection(p.overrides, CommandKey, COMMAND_FIELDS), PlanSection(p.equipment, EquipmentKey, EQUIPMENT_FIELDS);
      && (commands.Err? ==> Plan(p) == Err(commands.error))
      && (commands.Ok? && equipment.Err? ==> Plan(p) == Err(equipment.error))
      && (commands.Ok? && equipment.Ok? ==> Plan(p) == Ok((commands.value, equipment.value)))
  {
    if p.Profile? {
      PlanSectionMeaning(p.overrides, CommandKey, COMMAND_FIELDS);
      PlanSectionMeaning(p.equipment, EquipmentKey, EQUIPMENT_FIELDS);
    }
    hide PlanSection;
  }

  /** Every check made before the first write. */
  function Plan(p: Profile): Result<(seq<(string, Entry)>, seq<(string, Entry)>), Error> {
    if p.Malformed? then Err(BadProfile)
    else if p.version != Some(1) && p.version != Some(2) then Err(BadVersion)
    else
      var commands := PlanSection(p.overrides, CommandKey, COMMAND_FIELDS);
      if commands.Err? then Err(commands.error)
      else
        var equipment := PlanSection(p.equipment, EquipmentKey, EQUIPMENT_FIELDS);
        if equipment.Err? then Err(equipment.error) else Ok((commands.value, equipment.value))
  }

  /** Number of writes of an import that passes the checks. */
  function Writes(p: Profile): nat { if Plan(p).Ok? then |Plan(p).value.0| + |Plan(p).value.1| else 0 }

  /** How many of `n` writes are made, the first being write number `from`: a failing one is the last that is tried. */
  function Done(written: nat -> bool, from: nat, n: nat): nat
    decreases n
  {
    if n == 0 || !written(from) then 0 else 1 + Done(written, from + 1, n - 1)
  }

  lemma {:induction false} DoneMeaning(written: nat -> bool, from: nat, n: nat)
    ensures Done(written, from, n) <= n
    ensures forall i: nat :: from <= i < from + Done(written, from, n) ==> written(i)
    ensures Done(written, from, n) < n ==> !written(from + Done(written, from, n))
    decreases n
  {
    if n > 0 && written(from) {
      DoneMeaning(written, from + 1, n - 1);
    }
  }

  /** The file after these saves: none leaves it as it was, one is enough to bring it to the current version. */
  function AfterSaves(disk: Disk, commands: seq<(string, Entry)>, equipment: seq<(string, Entry)>): Disk
    requires !disk.Broken?
  {
    if commands == [] && equipment == [] then disk
    else
      var file := LoadRaw(disk).value;
      Readable(File(SCHEMA_VERSION, SaveAll(file.overrides, commands), SaveAll(file.equipment, equipment)))
  }

  lemma NextSave(disk: Disk, commands: seq<(string, Entry)>, equipment: seq<(string, Entry)>, key: string,
      override: Entry)
    requires !disk.Broken?
    ensures var before := LoadRaw(AfterSaves(disk, commands, equipment)).value;
      && AfterSaves(disk, commands + [(key, override)], equipment)
         == Readable(File(SCHEMA_VERSION, SaveAt(before.overrides, key, override), before.equipment))
      && AfterSaves(disk, commands, equipment + [(key, override)])
         == Readable(File(SCHEMA_VERSION, before.overrides, SaveAt(before.equipment, key, override)))
  {
    hide SaveAt;
    assert (commands + [(key, override)])[..|commands|] == commands;
    assert (equipment + [(key, override)])[..|equipment|] == equipment;
  }

  // ---------------------------------------------------------------------------------------
  // The store
  // ---------------------------------------------------------------------------------------

  class Store {
    var disk: Disk

    constructor (disk: Disk)
      ensures this.disk == disk
    {
      this.disk := disk;
    }

    /** `written` is false when the directory is missing or the write fails. */
    method SaveOverride(key: string, override: Entry, written: bool) returns (r: Result<bool, Error>)
      modifies this
      ensures old(disk).Broken? ==> r == Err(BrokenFile) && disk == old(disk)
      ensures !old(disk).Broken? ==> r == Ok(written)
      ensures !old(disk).Broken? ==> disk == if !written then old(disk) else
        var file := LoadRaw(old(disk)).value;
        Readable(File(SCHEMA_VERSION, SaveAt(file.overrides, key, override), file.equipment))
    {
      var raw := LoadRaw(disk);
      if raw.None? {
        return Err(BrokenFile);
      }
      var entry := Get(raw.value.overrides, key);
      entry := entry + override;
      if Source !in entry {
        entry := entry[Source := USER];
      }
      if !written {
        return Ok(false);
      }
      disk := Readable(File(SCHEMA_VERSION, raw.value.overrides[key := entry], raw.value.equipment));
      r := Ok(true);
    }

    method SaveEquipmentOverride(key: string, override: Entry, written: bool) returns (r: Result<bool, Error>)
      modifies this
      ensures old(disk).Broken? ==> r == Err(BrokenFile) && disk == old(disk)
      ensures !old(disk).Broken? ==> r == Ok(written)
      ensures !old(disk).Broken? ==> disk == if !written then old(disk) else
        var file := LoadRaw(old(disk)).value;
        Readable(File(SCHEMA_VERSION, file.overrides, SaveAt(file.equipment, key, override)))
    {
      var raw := LoadRaw(disk);
      if raw.None? {
        return Err(BrokenFile);
      }
      var entry := Get(raw.value.equipment, key);
      entry := entry + override;
      if Source !in entry {
        entry := entry[Source := USER];
      }
      if !written {
        return Ok(false);
      }
      disk := Readable(File(SCHEMA_VERSION, raw.value.overrides, raw.value.equipment[key := entry]));
      r := Ok(true);
    }

    /** `remove_override_fields`: true when a field was there to remove, even if the write then failed. */
    method RemoveOverrideFields(key: string, fields: set<Field>, written: bool) returns (changed: bool)
      modifies this
      ensures changed <==> !old(disk).Broken? && Get(LoadRaw(old(disk)).value.overrides, key).Keys * fields != {}
      ensures !changed || !written ==> disk == old(disk)
      ensures changed && written ==>
        var file := LoadRaw(old(disk)).value;
        disk == Readable(File(SCHEMA_VERSION, RemoveFields(file.overrides, key, fields), file.equipment))
    {
      var raw := LoadRaw(disk);
      if raw.None? {
        return false;
      }
      var entry := Get(raw.value.overrides, key);
      if entry.Keys * fields == {} {
        return false;
      }
      changed := true;
      entry := entry - fields;
      if written {
        var section := if Meaningful(entry) then raw.value.overrides[key := entry] else raw.value.overrides - {key};
        disk := Readable(File(SCHEMA_VERSION, section, raw.value.equipment));
      }
    }

    /**
      `import_profile`: every entry is checked before the first write; writes then go one by one and
      the first failing one stops the import.  `written` tells, write by write, whether it succeeds.
     */
    method ImportProfile(p: Profile, written: nat -> bool) returns (r: Result<(), Error>)
      modifies this
      ensures Plan(p).Err? ==> r == Err(Plan(p).error) && disk == old(disk)
      ensures Plan(p).Ok? && old(disk).Broken? ==>
        disk == old(disk) && (r == if Writes(p) == 0 then Ok(()) else Err(BrokenFile))
      ensures Plan(p).Ok? && !old(disk).Broken? ==>
        var (commands, equipment) := Plan(p).value;
        var k := Done(written, 0, |commands|);
        var l := if k < |commands| then 0 else Done(written, |commands|, |equipment|);
        && k <= |commands| && l <= |equipment|
        && disk == AfterSaves(old(disk), commands[..k], equipment[..l])
        && (r == if k + l == Writes(p) then Ok(()) else Err(NotPersisted))
    {
      hide Plan, AfterSaves, Done;
      var plan := Plan(p);
      if plan.Err? {
        return Err(plan.error);
      }
      var (commands, equipment) := plan.value;
      DoneMeaning(written, 0, |commands|);
      DoneMeaning(written, |commands|, |equipment|);
      r := WriteCommands(commands, written);
      if r.Ok? {
        assert commands[..|commands|] == commands;
        r := WriteEquipment(equipment, written, commands, old(disk));
      }
    }

    /** Second pass, commands. */
    method WriteCommands(items: seq<(string, Entry)>, written: nat -> bool) returns (r: Result<(), Error>)
      modifies this
      ensures old(disk).Broken? ==> disk == old(disk) && (r == if items == [] then Ok(()) else Err(BrokenFile))
      ensures !old(disk).Broken? ==>
        var k := Done(written, 0, |items|);
        && k <= |items| && disk == AfterSaves(old(disk), items[..k], [])
        && (r == if k == |items| then Ok(()) else Err(NotPersisted))
    {
      hide SaveAt, SaveAll;
      for i := 0 to |items|
        invariant old(disk).Broken? ==> disk == old(disk) && i == 0
        invariant !old(disk).Broken? ==> disk == AfterSaves(old(disk), items[..i], [])
        invariant Done(written, 0, |items|) == i + Done(written, i, |items| - i)
      {
        assert items[..i+1] == items[..i] + [items[i]];
        if !old(disk).Broken? {
          NextSave(old(disk), items[..i], [], items[i].0, items[i].1);
        }
        var saved := SaveOverride(items[i].0, items[i].1, written(i));
        if saved.Err? {
          return Err(saved.error);
        }
        if !saved.value {
          return Err(NotPersisted);
        }
      }
      assert items[..|items|] == items;
      r := Ok(());
    }

    /** Second pass, equipments, once these commands have been written to the file that was there at the start. */
    method WriteEquipment(items: seq<(string, Entry)>, written: nat -> bool, commands: seq<(string, Entry)>,
        ghost start: Disk)
      returns (r: Result<(), Error>)
      requires start.Broken? ==> commands == [] && disk == start
      requires !start.Broken? ==> disk == AfterSaves(start, commands, [])
      modifies this
      ensures start.Broken? ==> disk == start && (r == if items == [] then Ok(()) else Err(BrokenFile))
      ensures !start.Broken? ==>
        var l := Done(written, |commands|, |items|);
        && l <= |items| && disk == AfterSaves(start, commands, items[..l])
        && (r == if l == |items| then Ok(()) else Err(NotPersisted))
    {
      hide SaveAt, SaveAll;
      var done := |commands|;
      for i := 0 to |items|
        invariant start.Broken? ==> disk == start && i == 0
        invariant !start.Broken? ==> disk == AfterSaves(start, commands, items[..i])
        invariant Done(written, done, |items|) == i + Done(written, done + i, |items| - i)
      {
        assert items[..i+1] == items[..i] + [items[i]];
        if !start.Broken? {
          NextSave(start, commands, items[..i], items[i].0, items[i].1);
        }
        var saved := SaveEquipmentOverride(items[i].0, items[i].1, written(done + i));
        if saved.Err? {
          return Err(saved.error);
        }
        if !saved.value {
          return Err(NotPersisted);
        }
      }
      assert items[..|items|] == items;
      r := Ok(());
    }
  }

  // ---------------------------------------------------------------------------------------
  // Export, import, export
  // ---------------------------------------------------------------------------------------

  /** The profile lists a section's entries, in any order. */
  ghost predicate Lists(items: seq<(string, ProfileEntry)>, section: Section) {
    && DistinctKeys(items)
    && (forall i :: 0 <= i < |items| ==> items[i].0 in section && items[i].1 == Object(section[items[i].0]))
    && (forall k :: k in section ==> exists i :: 0 <= i < |items| && items[i].0 == k)
  }

  function WithSource(section: Section): Section {
    map k | k in section :: if Source in section[k] then section[k] else section[k][Source := USER]
  }

  /** A section read back from a profile, starting from an empty file. */
  function Reimported(items: seq<(string, ProfileEntry)>, canon: string -> Option<string>,
      allowed: set<Field>): Option<Section>
  {
    var plan := PlanSection(items, canon, allowed);
    if plan.Err? then None else Some(SanitizeSection(SaveAll(map[], plan.value), allowed))
  }

  lemma SanitizeSaved(entry: Entry, allowed: set<Field>)
    requires Source in allowed
    ensures var e := Sanitize(entry, allowed);
      Sanitize(SavedEntry(map[], Sanitize(e, allowed)), allowed) == if Source in e then e else e[Source := USER]
  {
  }

  function Planned(items: seq<(string, ProfileEntry)>, allowed: set<Field>): (r: seq<(string, Entry)>)
    requires forall i :: 0 <= i < |items| ==> items[i].1.Object?
    ensures |r| == |items| && forall i :: 0 <= i < |items| ==> r[i] == (items[i].0, Sanitize(items[i].1.entry, allowed))
  {
    seq(|items|, i requires 0 <= i < |items| => (items[i].0, Sanitize(items[i].1.entry, allowed)))
  }

  /** Keys that read back as themselves are planned as they stand. */
  lemma {:induction false} PlanKeepsStableKeys(items: seq<(string, ProfileEntry)>, canon: string -> Option<string>,
      allowed: set<Field>)
    requires forall i :: 0 <= i < |items| ==> items[i].1.Object? && canon(items[i].0) == Some(items[i].0)
    ensures PlanSection(items, canon, allowed) == Ok(Planned(items, allowed))
  {
    hide Sanitize;
    if items != [] {
      var front := items[..|items|-1];
      PlanKeepsStableKeys(front, canon, allowed);
      assert Planned(items, allowed) == Planned(front, allowed) + [Planned(items, allowed)[|items|-1]];
    }
  }

  /** Every key planned reads back as itself. */
  lemma {:induction false} PlannedKeysAreStable(items: seq<(string, ProfileEntry)>, canon: string -> Option<string>,
      allowed: set<Field>)
    requires Stable(canon) && PlanSection(items, canon, allowed).Ok?
    ensures forall i :: 0 <= i < |PlanSection(items, canon, allowed).value| ==>
              var key := PlanSection(items, canon, allowed).value[i].0; canon(key) == Some(key)
  {
    hide Sanitize;
    if items != [] {
      PlannedKeysAreStable(items[..|items|-1], canon, allowed);
      var key := items[|items|-1].0;
      assert canon(canon(key).value) == canon(key);
    }
  }

  lemma {:induction false} SavedKeys(section: Section, items: seq<(string, Entry)>)
    ensures forall k :: k in SaveAll(section, items) ==> k in section || exists i :: 0 <= i < |items| && items[i].0 == k
  {
    hide SavedEntry;
    if items != [] {
      SavedKeys(section, items[..|items|-1]);
    }
  }

  /** The entry read back under a key is the exported one, with its source. */
  lemma EntryRoundTrip(section: Section, items: seq<(string, ProfileEntry)>, allowed: set<Field>, i: nat)
    requires Source in allowed && Lists(items, SanitizeSection(section, allowed)) && i < |items|
    ensures var k := items[i].0;
      k in section && k in AsMap(Planned(items, allowed))
      && Sanitize(SavedEntry(map[], AsMap(Planned(items, allowed))[k]), allowed)
         == WithSource(SanitizeSection(section, allowed))[k]
  {
    hide SavedEntry;
    var k, plan := items[i].0, Planned(items, allowed);
    assert k in SanitizeSection(section, allowed);
    AsMapEntry(plan, i);
    SanitizeSaved(section[k], allowed);
  }

  lemma PlannedKeys(section: Section, items: seq<(string, ProfileEntry)>, allowed: set<Field>)
    requires Lists(items, SanitizeSection(section, allowed))
    ensures AsMap(Planned(items, allowed)).Keys == section.Keys
  {
    hide Sanitize;
    var plan := Planned(items, allowed);
    forall k ensures k in AsMap(plan) <==> k in section {
      AsMapKeys(plan, k);
      assert k in section <==> k in SanitizeSection(section, allowed);
      if k in section {
        var i :| 0 <= i < |items| && items[i].0 == k;
        assert plan[i].0 == k;
      }
    }
  }

  lemma SavedFromNothing(proposed: Section, allowed: set<Field>)
    ensures var back := SanitizeSection(SavedLayer(map[], proposed), allowed);
      && back.Keys == SavedLayer(map[], proposed).Keys == proposed.Keys
      && (forall k :: k in proposed ==> SavedLayer(map[], proposed)[k] == SavedEntry(map[], proposed[k]))
      && forall k :: k in proposed ==> back[k] == Sanitize(SavedEntry(map[], proposed[k]), allowed)
  {
  }

  lemma StableSectionRoundTrip(section: Section, items: seq<(string, ProfileEntry)>, canon: string -> Option<string>,
      allowed: set<Field>)
    requires Source in allowed && Lists(items, SanitizeSection(section, allowed))
    requires forall k :: k in section ==> canon(k) == Some(k)
    ensures Reimported(items, canon, allowed) == Some(WithSource(SanitizeSection(section, allowed)))
  {
    hide Sanitize, SavedEntry, SavedLayer, SaveAll, PlanSection, AsMap, Planned;
    PlanKeepsStableKeys(items, canon, allowed);
    var plan := Planned(items, allowed);
    SavesMakeTheSavedLayer(map[], plan);
    PlannedKeys(section, items, allowed);
    SavedFromNothing(AsMap(plan), allowed);
    var back, target :=
      SanitizeSection(SavedLayer(map[], AsMap(plan)), allowed), WithSource(SanitizeSection(section, allowed));
    forall k | k in section ensures back[k] == target[k] {
      assert k in SanitizeSection(section, allowed);
      var i :| 0 <= i < |items| && items[i].0 == k;
      EntryRoundTrip(section, items, allowed, i);
    }
    SameSection(back, target);
  }

  lemma SameSection(a: Section, b: Section)
    requires a.Keys == b.Keys && forall k :: k in a ==> a[k] == b[k]
    ensures a == b
  {
  }

  /** What the imports of a section leave, when its keys are spelt as this module spells them. */
  lemma StableSectionSaved(section: Section, items: seq<(string, ProfileEntry)>, canon: string -> Option<string>,
      allowed: set<Field>)
    requires Source in allowed && Lists(items, SanitizeSection(section, allowed))
    requires forall k :: k in section ==> canon(k) == Some(k)
    ensures var plan := PlanSection(items, canon, allowed);
      plan.Ok? && SaveAll(map[], plan.value) == WithSource(SanitizeSection(section, allowed))
  {
    hide Sanitize, SavedLayer, SaveAll, PlanSection, AsMap, Planned;
    PlanKeepsStableKeys(items, canon, allowed);
    var plan := Planned(items, allowed);
    SavesMakeTheSavedLayer(map[], plan);
    PlannedKeys(section, items, allowed);
    SavedFromNothing(AsMap(plan), allowed);
    var back, target := SavedLayer(map[], AsMap(plan)), WithSource(SanitizeSection(section, allowed));
    forall k | k in section ensures back[k] == target[k] {
      assert k in SanitizeSection(section, allowed);
      var i :| 0 <= i < |items| && items[i].0 == k;
      EntrySaved(section, items, allowed, i);
    }
    SameSection(back, target);
  }

  lemma EntrySaved(section: Section, items: seq<(string, ProfileEntry)>, allowed: set<Field>, i: nat)
    requires Source in allowed && Lists(items, SanitizeSection(section, allowed)) && i < |items|
    ensures var k := items[i].0;
      k in section && k in AsMap(Planned(items, allowed))
      && SavedEntry(map[], AsMap(Planned(items, allowed))[k]) == WithSource(SanitizeSection(section, allowed))[k]
  {
    hide SavedEntry;
    var k, plan := items[i].0, Planned(items, allowed);
    assert k in SanitizeSection(section, allowed);
    AsMapEntry(plan, i);
    SanitizedTwice(section[k], allowed);
  }

  lemma SanitizedTwice(entry: Entry, allowed: set<Field>)
    ensures var e := Sanitize(entry, allowed);
      SavedEntry(map[], Sanitize(e, allowed)) == if Source in e then e else e[Source := USER]
  {
    var e := Sanitize(entry, allowed);
    assert Sanitize(e, allowed) == e;
    assert map[] + e == e;
  }

  /** One section: exported, imported into an empty file and exported again, it is the same up to the default source,
      exactly when every key is spelt as this module spells it. */
  lemma SectionRoundTrip(section: Section, items: seq<(string, ProfileEntry)>, canon: string -> Option<string>,
      allowed: set<Field>)
    requires Stable(canon) && Source in allowed
    requires Lists(items, SanitizeSection(section, allowed))
    ensures Reimported(items, canon, allowed) == Some(WithSource(SanitizeSection(section, allowed)))
       <==> forall k :: k in section ==> canon(k) == Some(k)
  {
    hide Sanitize, SaveAll, PlanSection, Lists;
    if forall k :: k in section ==> canon(k) == Some(k) {
      StableSectionRoundTrip(section, items, canon, allowed);
    }
    if Reimported(items, canon, allowed) == Some(WithSource(SanitizeSection(section, allowed))) {
      PlannedKeysAreStable(items, canon, allowed);
      SavedKeys(map[], PlanSection(items, canon, allowed).value);
      forall k | k in section ensures canon(k) == Some(k) {
        assert k in WithSource(SanitizeSection(section, allowed));
      }
    }
  }

  /** The whole profile, for every readable file and whatever order its entries are listed in. */
  lemma ExportImportExport(file: File, items: seq<(string, ProfileEntry)>, eqItems: seq<(string, ProfileEntry)>)
    requires Lists(items, Export(Readable(file)).overrides) && Lists(eqItems, Export(Readable(file)).equipment)
    ensures && Reimported(items, CommandKey, COMMAND_FIELDS) == Some(WithSource(Export(Readable(file)).overrides))
            && Reimported(eqItems, EquipmentKey, EQUIPMENT_FIELDS) == Some(WithSource(Export(Readable(file)).equipment))
       <==> && (forall k :: k in file.overrides ==> CommandKey(k) == Some(k))
            && (forall k :: k in file.equipment ==> EquipmentKey(k) == Some(k))
  {
    hide Reimported, SanitizeSection, Lists;
    KeysAreStable();
    SectionRoundTrip(file.overrides, items, CommandKey, COMMAND_FIELDS);
    SectionRoundTrip(file.equipment, eqItems, EquipmentKey, EQUIPMENT_FIELDS);
  }

  /** What leaves in a profile: three fields of a command, two of an equipment, each with a value of its closed set. */
  predicate Leaves(f: Field, v: Value, onCommand: bool) {
    || (f == Source && v == Str("user"))
    || (f == Publication && (v == Str("exclude") || v == Str("force_publish")))
    || (f == EntityType && onCommand && v.Str? && IsProfileType(v.text))
  }

  predicate IsProfileType(haType: string) {
    haType in {"light", "cover", "switch", "sensor", "binary_sensor", "button", "number", "select", "climate",
               "alarm_control_panel"}
  }

  lemma SanitizeMeaning(entry: Entry, onCommand: bool)
    ensures var e := Sanitize(entry, if onCommand then COMMAND_FIELDS else EQUIPMENT_FIELDS);
      && (forall f :: f in e <==> f in entry && Leaves(f, entry[f], onCommand))
      && (forall f :: f in e ==> e[f] == entry[f])
  {
  }

  /** An export keeps every key and, of each entry, the fields that leave and no other. */
  lemma ExportMeaning(file: File, k: string)
    ensures var out := Export(Readable(file));
      && out.version == file.version
      && (k in out.overrides <==> k in file.overrides) && (k in out.equipment <==> k in file.equipment)
      && (k in file.overrides ==>
         && (forall f :: f in out.overrides[k] <==> f in file.overrides[k] && Leaves(f, file.overrides[k][f], true))
         && (forall f :: f in out.overrides[k] ==> out.overrides[k][f] == file.overrides[k][f]))
      && (k in file.equipment ==>
         && (forall f :: f in out.equipment[k] <==> f in file.equipment[k] && Leaves(f, file.equipment[k][f], false))
         && (forall f :: f in out.equipment[k] ==> out.equipment[k][f] == file.equipment[k][f]))
  {
    hide Sanitize, Leaves;
    if k in file.overrides {
      SanitizeMeaning(file.overrides[k], true);
    }
    if k in file.equipment {
      SanitizeMeaning(file.equipment[k], false);
    }
  }

  /** What a file says of the mappings, once it has been exchanged. */
  ghost predicate Exchanged(from: File, to: File) { forall k :: ExchangedAt(from, to, k) }

  ghost predicate ExchangedAt(from: File, to: File, k: string) {
    && (k in to.overrides <==> k in from.overrides) && (k in to.equipment <==> k in from.equipment)
    && (forall haType :: Types(to.overrides, k, haType) <==> Types(from.overrides, k, haType) && IsProfileType(haType))
    && (forall v :: Sets(to.overrides, k, v) <==>
       Sets(from.overrides, k, v) && (v == "exclude" || v == "force_publish"))
    && (forall v :: Sets(to.equipment, k, v) <==>
       Sets(from.equipment, k, v) && (v == "exclude" || v == "force_publish"))
  }

  lemma SentIsExchanged(file: File, k: string)
    ensures var sent := Export(Readable(file));
      ExchangedAt(file, File(SCHEMA_VERSION, WithSource(sent.overrides), WithSource(sent.equipment)), k)
  {
    ExportMeaning(file, k);
    hide Export, Sanitize;
  }

  predicate Supported(version: int) { version == 1 || version == 2 }

  /** What an import whose writes all succeed makes of an empty store. */
  lemma ImportFromNothing(p: Profile)
    requires !p.Malformed? && p.version.Some? && Supported(p.version.value)
    ensures var commands, equipment :=
        Reimported(p.overrides, CommandKey, COMMAND_FIELDS), Reimported(p.equipment, EquipmentKey, EQUIPMENT_FIELDS);
      && (Plan(p).Ok? <==> commands.Some? && equipment.Some?)
      && (Plan(p).Ok? ==> Export(AfterSaves(Absent, Plan(p).value.0, Plan(p).value.1))
                          == File(SCHEMA_VERSION, commands.value, equipment.value))
  {
    hide PlanSection, Sanitize;
    assert SanitizeSection(map[], COMMAND_FIELDS) == map[] && SanitizeSection(map[], EQUIPMENT_FIELDS) == map[];
  }

  lemma {:induction false} AllDone(from: nat, n: nat)
    ensures Done(i => true, from, n) == n
    decreases n
  {
    if n > 0 {
      AllDone(from + 1, n - 1);
    }
  }

  /**
    A profile exported by one store, imported by an empty one and exported again is what was exported, with the default
    source, exactly when every key of the first file is spelt as this module spells it.
  */
  method ExportThenImport(from: Store, to: Store, items: seq<(string, ProfileEntry)>,
      eqItems: seq<(string, ProfileEntry)>)
    returns (r: Result<(), Error>)
    requires from.disk.Readable? && (from.disk.file.version == 1 || from.disk.file.version == 2)
    requires to.disk.Absent? && from != to
    requires Lists(items, Export(from.disk).overrides) && Lists(eqItems, Export(from.disk).equipment)
    modifies to
    ensures var file, sent := from.disk.file, Export(from.disk);
      (Export(to.disk) == File(SCHEMA_VERSION, WithSource(sent.overrides), WithSource(sent.equipment)))
      <==> ((forall k :: k in file.overrides ==> CommandKey(k) == Some(k)) &&
            (forall k :: k in file.equipment ==> EquipmentKey(k) == Some(k)))
    ensures var file := from.disk.file;
      (forall k :: k in file.overrides ==> CommandKey(k) == Some(k)) &&
      (forall k :: k in file.equipment ==> EquipmentKey(k) == Some(k)) ==>
        LoadRaw(to.disk).Some? && Exchanged(file, LoadRaw(to.disk).value)
  {
    hide Plan, Reimported, SanitizeSection, Done, AfterSaves, CommandKey, EquipmentKey, SaveAll;
    var sent := Export(from.disk);
    var p := Profile(Some(sent.version), items, eqItems);
    r := to.ImportProfile(p, i => true);
    ExportImportExport(from.disk.file, items, eqItems);
    ImportFromNothing(p);
    if Plan(p).Ok? {
      var (commands, equipment) := Plan(p).value;
      AllDone(0, |commands|);
      AllDone(|commands|, |equipment|);
      assert commands[..|commands|] == commands && equipment[..|equipment|] == equipment;
    } else {
      NothingImported(sent, items, eqItems);
    }
    ghost var file := from.disk.file;
    if (forall k :: k in file.overrides ==> CommandKey(k) == Some(k)) &&
       (forall k :: k in file.equipment ==> EquipmentKey(k) == Some(k))
    {
      StoredAsSent(file, p);
      forall k ensures ExchangedAt(file, LoadRaw(to.disk).value, k) {
        SentIsExchanged(file, k);
      }
    }
  }

  /** The file that an import of stable keys leaves is what was sent. */
  lemma StoredAsSent(file: File, p: Profile)
    requires p.Profile? && p.version.Some? && Supported(p.version.value)
    requires Lists(p.overrides, Export(Readable(file)).overrides)
      && Lists(p.equipment, Export(Readable(file)).equipment)
    requires (forall k :: k in file.overrides ==> CommandKey(k) == Some(k)) &&
             (forall k :: k in file.equipment ==> EquipmentKey(k) == Some(k))
    ensures Plan(p).Ok?
    ensures var sent := Export(Readable(file));
      LoadRaw(AfterSaves(Absent, Plan(p).value.0, Plan(p).value.1))
      == Some(File(SCHEMA_VERSION, WithSource(sent.overrides), WithSource(sent.equipment)))
  {
    StableSectionSaved(file.overrides, p.overrides, CommandKey, COMMAND_FIELDS);
    StableSectionSaved(file.equipment, p.equipment, EquipmentKey, EQUIPMENT_FIELDS);
    hide PlanSection, SanitizeSection, WithSource, CommandKey, EquipmentKey, Lists;
  }

  /** A refused profile is not that of an empty file. */
  lemma NothingImported(sent: File, items: seq<(string, ProfileEntry)>, eqItems: seq<(string, ProfileEntry)>)
    requires Supported(sent.version) && Plan(Profile(Some(sent.version), items, eqItems)).Err?
    requires Lists(items, sent.overrides) && Lists(eqItems, sent.equipment)
    ensures Export(Absent) != File(SCHEMA_VERSION, WithSource(sent.overrides), WithSource(sent.equipment))
  {
    if items != [] {
      assert items[0].0 in WithSource(sent.overrides);
    } else {
      assert eqItems != [];
      assert eqItems[0].0 in WithSource(sent.equipment);
    }
  }

  /** A hand-edited key with a leading zero is accepted, and comes back under another spelling. */
  lemma PaddedKeyComesBackChanged()
    ensures CommandKey("01" + ":" + "2") == Some(OverrideKey(1, 2)) && "01" + ":" + "2" != OverrideKey(1, 2)
  {
    var key := "01" + ":" + "2";
    assert key[2] == ':';
    var cut := CutAtColon(key);
    SplitAtColon("01", "2", cut.value.0, cut.value.1);
    ParseDigits("01");
    ParseDigits("2");
    assert "01"[..1] == "0" && "0"[..0] == "" && "2"[..0] == "";
    assert DigitsValue("0") == 0 && DigitsValue("01") == 1 && DigitsValue("2") == 2;
    assert OverrideKey(1, 2)[0] != '0';
  }
}
