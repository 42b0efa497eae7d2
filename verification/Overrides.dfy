/**
  Override layers (`mapping/overrides.py`, and the layer functions of `models/evaluate_equipment.py`):
  entries under composite keys, the merge of a persisted and a proposed layer, and the two
  resolutions the pipeline makes from them, the publication policy and the imposed entity type.
 */
module Overrides {
  import opened Prelude
  import opened Decimal

  datatype Field = Source | EntityType | Publication | Extra(name: string)

  /** A JSON scalar of an entry; `Other` is any value that is neither a string nor null. */
  datatype Value = Str(text: string) | Null | Other(tag: int)

  type Entry = map<Field, Value>
  type Section = map<string, Entry>

  const EXCLUDE := Str("exclude")
  const FORCE := Str("force_publish")
  const USER := Str("user")

  function OverrideKey(eqId: int, cmdId: int): string { IntText(eqId) + ":" + IntText(cmdId) }

  function Get(section: Section, key: string): Entry { if key in section then section[key] else map[] }

  function FieldOr(entry: Entry, f: Field, default: Value): Value { if f in entry then entry[f] else default }

  // ---------------------------------------------------------------------------------------
  // Layers
  // ---------------------------------------------------------------------------------------

  /** `merge_override_layer`: the proposed layer wins field by field. */
  function MergeLayer(persisted: Section, proposed: Section): Section {
    map k | k in persisted.Keys + proposed.Keys :: Get(persisted, k) + Get(proposed, k)
  }

  /** What `save_override` leaves under a key: the fields merged, the source defaulted. */
  function SavedEntry(existing: Entry, override: Entry): Entry {
    var entry := existing + override;
    if Source in entry then entry else entry[Source := USER]
  }

  /** The persisted layer once every proposed entry has been saved. */
  function SavedLayer(persisted: Section, proposed: Section): Section {
    map k | k in persisted.Keys + proposed.Keys ::
      if k in proposed then SavedEntry(Get(persisted, k), proposed[k]) else persisted[k]
  }

  /** What a save leaves: the fields given, else those that were there; the source is the user's when none is given. */
  lemma SavedEntryMeaning(existing: Entry, override: Entry, f: Field)
    ensures var e := SavedEntry(existing, override);
      && (f in e <==> f in existing || f in override || f == Source)
      && (f in override ==> e[f] == override[f])
      && (f in existing && f !in override ==> e[f] == existing[f])
      && (f == Source && f !in existing && f !in override ==> e[f] == Str("user"))
  {
  }

  /** The merge of two layers, field by field: the proposal where it speaks, else what was there. */
  lemma MergeMeaning(persisted: Section, proposed: Section, key: string, f: Field)
    ensures var m, e, p := MergeLayer(persisted, proposed), Get(persisted, key), Get(proposed, key);
      && (key in m <==> key in persisted || key in proposed)
      && (key in m ==> (f in m[key] <==> f in e || f in p))
      && (key in m && f in p ==> m[key][f] == p[f])
      && (key in m && f in e && f !in p ==> m[key][f] == e[f])
  {
  }

  // ---------------------------------------------------------------------------------------
  // Publication policy
  // ---------------------------------------------------------------------------------------

  datatype Resolution = ExcludeEqLogic | ExcludeCommand | ForcePublish

  function PublicationOf(entry: Entry): Value { FieldOr(entry, Publication, Null) }

  function EquipmentEntry(eqId: int, equipment: Section): Entry { Get(equipment, IntText(eqId)) }

  /** `resolve_publication_override` for one command. */
  function ResolveCommand(eqId: int, cmdId: int, overrides: Section, equipment: Section): Option<Resolution> {
    var eqEntry := EquipmentEntry(eqId, equipment);
    var cmdEntry := Get(overrides, OverrideKey(eqId, cmdId));
    if PublicationOf(eqEntry) == EXCLUDE then Some(ExcludeEqLogic)
    else if PublicationOf(cmdEntry) == EXCLUDE then Some(ExcludeCommand)
    else if PublicationOf(cmdEntry) == FORCE then Some(ForcePublish)
    else if PublicationOf(eqEntry) == FORCE then Some(ForcePublish)
    else None
  }

  /** The commands looked at for a mapping: -1 stands for "no command". */
  function Looked(ids: seq<int>): (r: seq<int>)
    ensures r != []
  {
    if ids == [] then [-1] else ids
  }

  /** An exclusion wins, then a force. */
  function Strongest(rs: set<Option<Resolution>>): Option<Resolution> {
    if Some(ExcludeEqLogic) in rs then Some(ExcludeEqLogic)
    else if Some(ExcludeCommand) in rs then Some(ExcludeCommand)
    else if Some(ForcePublish) in rs then Some(ForcePublish)
    else None
  }

  function Resolutions(eqId: int, ids: seq<int>, overrides: Section, equipment: Section): set<Option<Resolution>> {
    set c | c in Looked(ids) :: ResolveCommand(eqId, c, overrides, equipment)
  }

  /** The policy of a mapping depends on the set of its commands' resolutions only. */
  function ResolveMapping(eqId: int, ids: seq<int>, overrides: Section, equipment: Section): Option<Resolution> {
    Strongest(Resolutions(eqId, ids, overrides, equipment))
  }

  /** The entry under this key sets the publication to this value. */
  predicate Sets(section: Section, key: string, value: string) {
    key in section && Publication in section[key] && section[key][Publication] == Str(value)
  }

  /** A command of the mapping, or -1 for a mapping without command, has an entry that sets the publication so. */
  predicate CommandSets(eqId: int, ids: seq<int>, overrides: Section, value: string) {
    (exists i :: 0 <= i < |ids| && Sets(overrides, OverrideKey(eqId, ids[i]), value))
    || (ids == [] && Sets(overrides, OverrideKey(eqId, -1), value))
  }

  predicate EquipmentSets(eqId: int, equipment: Section, value: string) { Sets(equipment, IntText(eqId), value) }

  predicate EntriesExclude(eqId: int, ids: seq<int>, overrides: Section, equipment: Section) {
    EquipmentSets(eqId, equipment, "exclude") || CommandSets(eqId, ids, overrides, "exclude")
  }

  predicate EntriesForce(eqId: int, ids: seq<int>, overrides: Section, equipment: Section) {
    && !EntriesExclude(eqId, ids, overrides, equipment)
    && (EquipmentSets(eqId, equipment, "force_publish") || CommandSets(eqId, ids, overrides, "force_publish"))
  }

  /** The policy, read on the entries: a veto of the equipment, else of a command, else a force of either. */
  predicate IsPolicy(r: Option<Resolution>, eqId: int, ids: seq<int>, overrides: Section, equipment: Section) {
    && (r == Some(ExcludeEqLogic) <==> EquipmentSets(eqId, equipment, "exclude"))
    && (r == Some(ExcludeCommand) <==>
       !EquipmentSets(eqId, equipment, "exclude") && CommandSets(eqId, ids, overrides, "exclude"))
    && (r == Some(ForcePublish) <==> EntriesForce(eqId, ids, overrides, equipment))
  }

  lemma CommandPolicy(eqId: int, c: int, overrides: Section, equipment: Section)
    ensures var key := OverrideKey(eqId, c);
      ResolveCommand(eqId, c, overrides, equipment)
      == if EquipmentSets(eqId, equipment, "exclude") then Some(ExcludeEqLogic)
         else if Sets(overrides, key, "exclude") then Some(ExcludeCommand)
         else if Sets(overrides, key, "force_publish") || EquipmentSets(eqId, equipment, "force_publish")
         then Some(ForcePublish) else None
  {
  }

  lemma LookedSets(eqId: int, ids: seq<int>, overrides: Section, value: string)
    ensures CommandSets(eqId, ids, overrides, value) <==>
      exists c :: c in Looked(ids) && Sets(overrides, OverrideKey(eqId, c), value)
  {
    hide Sets, OverrideKey;
    if i :| 0 <= i < |ids| && Sets(overrides, OverrideKey(eqId, ids[i]), value) {
      assert ids[i] in Looked(ids);
    }
    if ids == [] && Sets(overrides, OverrideKey(eqId, -1), value) {
      assert -1 in Looked(ids);
    }
  }

  /** The policy of a mapping is that of the entries of its commands and equipment. */
  lemma PolicyMeaning(eqId: int, ids: seq<int>, overrides: Section, equipment: Section)
    ensures IsPolicy(ResolveMapping(eqId, ids, overrides, equipment), eqId, ids, overrides, equipment)
  {
    LookedSets(eqId, ids, overrides, "exclude");
    LookedSets(eqId, ids, overrides, "force_publish");
    hide ResolveCommand, Sets, EquipmentSets, OverrideKey, CommandSets, Looked;
    var looked, rs := Looked(ids), Resolutions(eqId, ids, overrides, equipment);
    var eqExcludes, eqForces :=
      EquipmentSets(eqId, equipment, "exclude"), EquipmentSets(eqId, equipment, "force_publish");
    forall c ensures var key := OverrideKey(eqId, c);
      ResolveCommand(eqId, c, overrides, equipment)
      == if eqExcludes then Some(ExcludeEqLogic) else if Sets(overrides, key, "exclude") then Some(ExcludeCommand)
         else if Sets(overrides, key, "force_publish") || eqForces then Some(ForcePublish) else None
    {
      CommandPolicy(eqId, c, overrides, equipment);
    }
    assert looked[0] in looked;
    assert ResolveCommand(eqId, looked[0], overrides, equipment) in rs;
    assert Some(ExcludeEqLogic) in rs <==> EquipmentSets(eqId, equipment, "exclude");
  }

  lemma EquipmentExclusionIsUniform(eqId: int, c: int, d: int, overrides: Section, equipment: Section)
    ensures ResolveCommand(eqId, c, overrides, equipment) == Some(ExcludeEqLogic)
       <==> ResolveCommand(eqId, d, overrides, equipment) == Some(ExcludeEqLogic)
  {
  }

  /** The scan, which stops at the first exclusion, finds the strongest resolution when exclusions agree. */
  method ScanResolutions(rs: seq<Option<Resolution>>) returns (r: Option<Resolution>)
    requires forall i, j :: 0 <= i < |rs| && 0 <= j < |rs| && rs[i] == Some(ExcludeEqLogic) ==>
      rs[j] == Some(ExcludeEqLogic)
    ensures r == Strongest(set x | x in rs)
  {
    r := None;
    for i := 0 to |rs|
      invariant forall k :: 0 <= k < i ==> rs[k] == None || rs[k] == Some(ForcePublish)
      invariant r == if Some(ForcePublish) in rs[..i] then Some(ForcePublish) else None
    {
      var candidate := rs[i];
      if candidate == Some(ExcludeEqLogic) || candidate == Some(ExcludeCommand) {
        return candidate;
      }
      if candidate == Some(ForcePublish) {
        r := candidate;
      }
      assert candidate.None? || candidate.value.ForcePublish?;
    }
  }

  /** `_resolve_publication_override_for_mapping`. */
  method ResolveForMapping(eqId: int, ids: seq<int>, overrides: Section, equipment: Section)
    returns (r: Option<Resolution>)
    ensures r == ResolveMapping(eqId, ids, overrides, equipment) && IsPolicy(r, eqId, ids, overrides, equipment)
  {
    PolicyMeaning(eqId, ids, overrides, equipment);
    hide ResolveCommand, Strongest, IsPolicy;
    var looked := Looked(ids);
    var rs := seq(|looked|, i requires 0 <= i < |looked| => ResolveCommand(eqId, looked[i], overrides, equipment));
    forall i, j | 0 <= i < |rs| && 0 <= j < |rs| && rs[i] == Some(ExcludeEqLogic) ensures rs[j] == Some(ExcludeEqLogic)
    {
      EquipmentExclusionIsUniform(eqId, looked[i], looked[j], overrides, equipment);
    }
    r := ScanResolutions(rs);
    assert forall c :: c in looked ==>
      exists i :: 0 <= i < |looked| && looked[i] == c && rs[i] == ResolveCommand(eqId, c, overrides, equipment);
    assert (set x | x in rs) == Resolutions(eqId, ids, overrides, equipment);
  }

  /** The policy does not depend on the order, nor on the repetition, of the mapping's commands. */
  lemma PolicyIgnoresOrder(eqId: int, a: seq<int>, b: seq<int>, overrides: Section, equipment: Section)
    requires (set c | c in a) == (set c | c in b)
    ensures ResolveMapping(eqId, a, overrides, equipment) == ResolveMapping(eqId, b, overrides, equipment)
  {
    var inA, inB := set c | c in a, set c | c in b;
    assert a != [] ==> a[0] in inB;
    assert b != [] ==> b[0] in inA;
    assert a == [] <==> b == [];
    assert forall c :: c in a <==> c in inA;
    assert forall c :: c in b <==> c in inB;
    assert Resolutions(eqId, a, overrides, equipment) == Resolutions(eqId, b, overrides, equipment);
  }

  lemma SavedFields(persisted: Section, proposed: Section, key: string)
    ensures PublicationOf(Get(MergeLayer(persisted, proposed), key))
      == PublicationOf(Get(SavedLayer(persisted, proposed), key))
    ensures UsableType(Get(MergeLayer(persisted, proposed), key))
      == UsableType(Get(SavedLayer(persisted, proposed), key))
  {
  }

  lemma SavingKeepsCommandPolicy(eqId: int, c: int, persisted: Section, proposed: Section, eqPersisted: Section,
      eqProposed: Section)
    ensures ResolveCommand(eqId, c, MergeLayer(persisted, proposed), MergeLayer(eqPersisted, eqProposed))
         == ResolveCommand(eqId, c, SavedLayer(persisted, proposed), SavedLayer(eqPersisted, eqProposed))
  {
    hide MergeLayer, SavedLayer, Get, PublicationOf, UsableType, OverrideKey, IntText;
    SavedFields(persisted, proposed, OverrideKey(eqId, c));
    SavedFields(eqPersisted, eqProposed, IntText(eqId));
  }

  /** On the publication fields, previewing a proposal and saving it come to the same policy. */
  lemma SavingKeepsPolicy(eqId: int, ids: seq<int>, persisted: Section, proposed: Section, eqPersisted: Section,
      eqProposed: Section)
    ensures ResolveMapping(eqId, ids, MergeLayer(persisted, proposed), MergeLayer(eqPersisted, eqProposed))
         == ResolveMapping(eqId, ids, SavedLayer(persisted, proposed), SavedLayer(eqPersisted, eqProposed))
  {
    forall c ensures ResolveCommand(eqId, c, MergeLayer(persisted, proposed), MergeLayer(eqPersisted, eqProposed))
                  == ResolveCommand(eqId, c, SavedLayer(persisted, proposed), SavedLayer(eqPersisted, eqProposed)) {
      SavingKeepsCommandPolicy(eqId, c, persisted, proposed, eqPersisted, eqProposed);
    }
    assert Resolutions(eqId, ids, MergeLayer(persisted, proposed), MergeLayer(eqPersisted, eqProposed))
        == Resolutions(eqId, ids, SavedLayer(persisted, proposed), SavedLayer(eqPersisted, eqProposed));
  }

  // ---------------------------------------------------------------------------------------
  // Imposed type
  // ---------------------------------------------------------------------------------------

  /** The imposed type and its source; the source may hold any JSON value. */
  datatype Imposed = Imposed(haType: string, source: Value)

  /** An entry is usable when it carries a non-empty string type. */
  function UsableType(entry: Entry): Option<Imposed> {
    match FieldOr(entry, EntityType, Null)
    case Str(text) => if text != "" then Some(Imposed(text, FieldOr(entry, Source, USER))) else None
    case _ => None
  }

  /** The first command, in the mapping's order, with a usable type. */
  function FirstImposed(eqId: int, ids: seq<int>, overrides: Section): Option<Imposed> {
    if ids == [] then None
    else
      var t := UsableType(Get(overrides, OverrideKey(eqId, ids[0])));
      if t.Some? then t else FirstImposed(eqId, ids[1..], overrides)
  }

  /** The part of the merged layer under proposed keys. */
  function Priority(merged: Section, proposed: Section): Section {
    map k | k in merged && k in proposed :: merged[k]
  }

  /** `_apply_type_override_with_proposed_priority`: proposed keys first, then the whole merged layer. */
  function ImposedType(eqId: int, ids: seq<int>, merged: Section, proposed: Section): Option<Imposed> {
    var first := if proposed == map[] then None else FirstImposed(eqId, ids, Priority(merged, proposed));
    if first.Some? then first else FirstImposed(eqId, ids, merged)
  }

  predicate UsableAt(eqId: int, ids: seq<int>, layer: Section, i: nat)
    requires i < |ids|
  {
    UsableType(Get(layer, OverrideKey(eqId, ids[i]))).Some?
  }

  predicate FirstUsableAt(eqId: int, ids: seq<int>, layer: Section, i: nat)
    requires i < |ids|
  {
    UsableAt(eqId, ids, layer, i) && forall k :: 0 <= k < i ==> !UsableAt(eqId, ids, layer, k)
  }

  lemma {:induction false} FirstImposedAt(eqId: int, ids: seq<int>, layer: Section)
    ensures FirstImposed(eqId, ids, layer).None? <==> forall i :: 0 <= i < |ids| ==> !UsableAt(eqId, ids, layer, i)
    ensures forall i :: 0 <= i < |ids| && FirstUsableAt(eqId, ids, layer, i) ==>
              FirstImposed(eqId, ids, layer) == UsableType(Get(layer, OverrideKey(eqId, ids[i])))
  {
    if ids != [] {
      var rest := ids[1..];
      hide UsableType, OverrideKey, Get;
      FirstImposedAt(eqId, rest, layer);
      forall i | 0 <= i < |rest| ensures UsableAt(eqId, rest, layer, i) == UsableAt(eqId, ids, layer, i + 1) {
        assert rest[i] == ids[i + 1];
      }
      if UsableAt(eqId, ids, layer, 0) {
        assert forall i :: 0 <= i < |ids| && FirstUsableAt(eqId, ids, layer, i) ==> i == 0;
      } else {
        assert FirstImposed(eqId, ids, layer) == FirstImposed(eqId, rest, layer);
        if forall i :: 0 <= i < |rest| ==> !UsableAt(eqId, rest, layer, i) {
          forall i | 0 <= i < |ids| ensures !UsableAt(eqId, ids, layer, i) {
            assert i > 0 ==> UsableAt(eqId, rest, layer, i - 1) == UsableAt(eqId, ids, layer, i);
          }
        }
        forall i | 0 <= i < |ids| && FirstUsableAt(eqId, ids, layer, i)
          ensures FirstImposed(eqId, ids, layer) == UsableType(Get(layer, OverrideKey(eqId, ids[i])))
        {
          assert FirstUsableAt(eqId, rest, layer, i - 1);
          assert rest[i - 1] == ids[i];
        }
      }
    }
  }

  // What is imposed, read on the entries.

  /** The entry under this key imposes this type: a text that is not empty. */
  predicate Types(section: Section, key: string, haType: string) {
    key in section && EntityType in section[key] && section[key][EntityType] == Str(haType) && haType != ""
  }

  predicate IsTyped(section: Section, key: string) {
    key in section && EntityType in section[key] && section[key][EntityType].Str? && section[key][EntityType].text != ""
  }

  lemma UsableMeaning(section: Section, key: string)
    ensures UsableType(Get(section, key)).Some? <==> IsTyped(section, key)
    ensures IsTyped(section, key) ==>
      var t := UsableType(Get(section, key)).value;
      && Types(section, key, t.haType)
      && t.source == if Source in section[key] then section[key][Source] else Str("user")
  {
  }

  /** The first of the mapping's commands, among those kept, whose entry imposes a type. */
  predicate IsFirstTyped(eqId: int, ids: seq<int>, merged: Section, keep: string -> bool, i: int) {
    && 0 <= i < |ids| && keep(OverrideKey(eqId, ids[i])) && IsTyped(merged, OverrideKey(eqId, ids[i]))
    && forall k :: 0 <= k < i ==> !(keep(OverrideKey(eqId, ids[k])) && IsTyped(merged, OverrideKey(eqId, ids[k])))
  }

  /** The type is that of the first edited command that is typed, else of the first command that is. */
  ghost predicate IsImposed(r: Option<Imposed>, eqId: int, ids: seq<int>, merged: Section, proposed: Section) {
    var edited, any := (key: string) => key in proposed, (key: string) => true;
    var someEdited := exists i ::
      0 <= i < |ids| && edited(OverrideKey(eqId, ids[i])) && IsTyped(merged, OverrideKey(eqId, ids[i]));
    && (r.Some? <==> exists i :: 0 <= i < |ids| && IsTyped(merged, OverrideKey(eqId, ids[i])))
    && forall i :: IsFirstTyped(eqId, ids, merged, if someEdited then edited else any, i) ==>
         var entry := merged[OverrideKey(eqId, ids[i])];
         r == Some(Imposed(entry[EntityType].text, if Source in entry then entry[Source] else Str("user")))
  }

  lemma FirstTyped(eqId: int, ids: seq<int>, merged: Section, layer: Section, keep: string -> bool)
    requires forall key :: key in layer <==> key in merged && keep(key)
    requires forall key :: key in layer ==> layer[key] == merged[key]
    ensures FirstImposed(eqId, ids, layer).Some? <==>
      exists i :: 0 <= i < |ids| && keep(OverrideKey(eqId, ids[i])) && IsTyped(merged, OverrideKey(eqId, ids[i]))
    ensures forall i :: IsFirstTyped(eqId, ids, merged, keep, i) ==>
      var entry := merged[OverrideKey(eqId, ids[i])];
      FirstImposed(eqId, ids, layer)
      == Some(Imposed(entry[EntityType].text, if Source in entry then entry[Source] else Str("user")))
  {
    FirstImposedAt(eqId, ids, layer);
    hide UsableType, Get, OverrideKey;
    forall i | 0 <= i < |ids|
      ensures UsableAt(eqId, ids, layer, i) <==>
        keep(OverrideKey(eqId, ids[i])) && IsTyped(merged, OverrideKey(eqId, ids[i]))
    {
      UsableMeaning(layer, OverrideKey(eqId, ids[i]));
    }
    forall i | IsFirstTyped(eqId, ids, merged, keep, i)
      ensures var entry := merged[OverrideKey(eqId, ids[i])];
        FirstImposed(eqId, ids, layer)
        == Some(Imposed(entry[EntityType].text, if Source in entry then entry[Source] else Str("user")))
    {
      UsableMeaning(layer, OverrideKey(eqId, ids[i]));
      assert FirstUsableAt(eqId, ids, layer, i);
    }
  }

  /** The imposed type is the one the entries say. */
  lemma ImposedMeaning(eqId: int, ids: seq<int>, merged: Section, proposed: Section)
    ensures IsImposed(ImposedType(eqId, ids, merged, proposed), eqId, ids, merged, proposed)
  {
    hide FirstImposed, OverrideKey, IsTyped, IsFirstTyped;
    FirstTyped(eqId, ids, merged, Priority(merged, proposed), (key: string) => key in proposed);
    FirstTyped(eqId, ids, merged, merged, (key: string) => true);
  }

  /**
    A command the user is not editing shadows the edited one: it comes first in the mapping with a
    usable persisted type, and imposes another type or source than the first edited command.
   */
  predicate Shadowed(eqId: int, ids: seq<int>, merged: Section, proposed: Section) {
    exists i, j :: 0 <= i < |ids| && 0 <= j < |ids|
      && FirstUsableAt(eqId, ids, merged, i) && OverrideKey(eqId, ids[i]) !in proposed
      && FirstUsableAt(eqId, ids, Priority(merged, proposed), j)
      && UsableType(Get(merged, OverrideKey(eqId, ids[i]))) != UsableType(Get(merged, OverrideKey(eqId, ids[j])))
  }

  lemma {:induction false} LeastUsable(eqId: int, ids: seq<int>, layer: Section, i: nat) returns (k: nat)
    requires i < |ids| && UsableAt(eqId, ids, layer, i)
    ensures k <= i && FirstUsableAt(eqId, ids, layer, k)
  {
    if j :| 0 <= j < i && UsableAt(eqId, ids, layer, j) {
      k := LeastUsable(eqId, ids, layer, j);
    } else {
      k := i;
    }
  }

  /** The imposed type previewed is the one a save would impose, exactly when no command shadows the edited one. */
  lemma PreviewTypeIsSavedType(eqId: int, ids: seq<int>, persisted: Section, proposed: Section)
    ensures ImposedType(eqId, ids, MergeLayer(persisted, proposed), proposed)
            == ImposedType(eqId, ids, SavedLayer(persisted, proposed), map[])
       <==> !Shadowed(eqId, ids, MergeLayer(persisted, proposed), proposed)
  {
    var merged, saved := MergeLayer(persisted, proposed), SavedLayer(persisted, proposed);
    forall key ensures UsableType(Get(merged, key)) == UsableType(Get(saved, key)) {
      SavedFields(persisted, proposed, key);
    }
    SameUsable(eqId, ids, merged, saved);
    assert ImposedType(eqId, ids, saved, map[]) == FirstImposed(eqId, ids, saved);
    hide MergeLayer, SavedLayer, ImposedType, FirstImposed, Shadowed, UsableType;
    PriorityShows(eqId, ids, merged, proposed);
  }

  /** The proposed keys change nothing exactly when no other command comes first with another type. */
  lemma PriorityShows(eqId: int, ids: seq<int>, merged: Section, proposed: Section)
    ensures ImposedType(eqId, ids, merged, proposed) == FirstImposed(eqId, ids, merged)
       <==> !Shadowed(eqId, ids, merged, proposed)
  {
    var priority := Priority(merged, proposed);
    FirstImposedAt(eqId, ids, merged);
    FirstImposedAt(eqId, ids, priority);
    if FirstImposed(eqId, ids, priority).Some? {
      var j0 :| 0 <= j0 < |ids| && UsableAt(eqId, ids, priority, j0);
      var j := LeastUsable(eqId, ids, priority, j0);
      assert UsableAt(eqId, ids, merged, j);
      var i := LeastUsable(eqId, ids, merged, j);
      ShadowedAt(eqId, ids, merged, proposed, i, j);
      hide Shadowed;
    } else {
      assert forall j :: 0 <= j < |ids| ==> !UsableAt(eqId, ids, priority, j);
    }
  }

  /** There is one first usable command of each kind to compare. */
  lemma ShadowedAt(eqId: int, ids: seq<int>, merged: Section, proposed: Section, i: nat, j: nat)
    requires i < |ids| && j < |ids|
    requires FirstUsableAt(eqId, ids, merged, i) && FirstUsableAt(eqId, ids, Priority(merged, proposed), j)
    ensures Shadowed(eqId, ids, merged, proposed) <==>
      UsableType(Get(merged, OverrideKey(eqId, ids[i]))) != UsableType(Get(merged, OverrideKey(eqId, ids[j])))
  {
    var priority := Priority(merged, proposed);
    assert forall k :: 0 <= k < |ids| && UsableAt(eqId, ids, priority, k) ==> UsableAt(eqId, ids, merged, k);
    assert OverrideKey(eqId, ids[i]) in proposed ==> UsableAt(eqId, ids, priority, i) && i == j;
    hide UsableType, OverrideKey, Get, UsableAt;
    forall i', j' | 0 <= i' < |ids| && 0 <= j' < |ids| && FirstUsableAt(eqId, ids, merged, i')
      && FirstUsableAt(eqId, ids, priority, j')
      ensures i' == i && j' == j
    {
      assert !(i < i') && !(i' < i) && !(j < j') && !(j' < j);
    }
  }

  /** Under a shadow, both the preview and the save impose a type. */
  lemma ShadowedTypes(eqId: int, ids: seq<int>, persisted: Section, proposed: Section)
    requires Shadowed(eqId, ids, MergeLayer(persisted, proposed), proposed)
    ensures ImposedType(eqId, ids, MergeLayer(persisted, proposed), proposed).Some?
    ensures ImposedType(eqId, ids, SavedLayer(persisted, proposed), map[]).Some?
  {
    var merged, saved := MergeLayer(persisted, proposed), SavedLayer(persisted, proposed);
    forall key ensures UsableType(Get(merged, key)) == UsableType(Get(saved, key)) {
      SavedFields(persisted, proposed, key);
    }
    SameUsable(eqId, ids, merged, saved);
    FirstImposedAt(eqId, ids, merged);
  }

  lemma {:induction false} SameUsable(eqId: int, ids: seq<int>, a: Section, b: Section)
    requires forall key :: UsableType(Get(a, key)) == UsableType(Get(b, key))
    ensures FirstImposed(eqId, ids, a) == FirstImposed(eqId, ids, b)
  {
    if ids != [] {
      SameUsable(eqId, ids[1..], a, b);
    }
  }

  /** With at most one usable command in the merged layer, nothing is shadowed. */
  lemma OneTypeIsNotShadowed(eqId: int, ids: seq<int>, merged: Section, proposed: Section)
    requires forall i, j :: 0 <= i < |ids| && 0 <= j < |ids| ==>
      UsableAt(eqId, ids, merged, i) && UsableAt(eqId, ids, merged, j) ==> ids[i] == ids[j]
    ensures !Shadowed(eqId, ids, merged, proposed)
  {
  }

  /** Two typed commands are enough for the preview and the save to part ways. */
  lemma ShadowingHappens()
    ensures var persisted: Section := map[OverrideKey(7, 1) := map[EntityType := Str("light")]];
      var proposed: Section := map[OverrideKey(7, 2) := map[EntityType := Str("switch")]];
      ImposedType(7, [1, 2], MergeLayer(persisted, proposed), proposed) != ImposedType(7, [1, 2],
        SavedLayer(persisted, proposed), map[])
  {
    var persisted: Section := map[OverrideKey(7, 1) := map[EntityType := Str("light")]];
    var proposed: Section := map[OverrideKey(7, 2) := map[EntityType := Str("switch")]];
    var merged := MergeLayer(persisted, proposed);
    OverrideKeyInjective(7, 1, 7, 2);
    assert "light"[0] != "switch"[0];
    assert UsableType(Get(merged, OverrideKey(7, 1))) == Some(Imposed("light", USER));
    assert UsableType(Get(merged, OverrideKey(7, 2))) == Some(Imposed("switch", USER));
    var ids := [1, 2];
    assert FirstUsableAt(7, ids, merged, 0) && FirstUsableAt(7, ids, Priority(merged, proposed), 1);
    assert Shadowed(7, ids, merged, proposed);
    PreviewTypeIsSavedType(7, ids, persisted, proposed);
  }

  // ---------------------------------------------------------------------------------------
  // Keys
  // ---------------------------------------------------------------------------------------

  lemma NoColon(n: int)
    ensures ':' !in IntText(n)
  {
  }

  lemma {:induction false} SplitAtColon(a: string, b: string, c: string, d: string)
    requires a + ":" + b == c + ":" + d && ':' !in a && ':' !in c
    ensures a == c && b == d
  {
    assert (a + ":" + b)[0] == (c + ":" + d)[0];
    if a == "" || c == "" {
      assert (a + ":" + b)[1..] == (c + ":" + d)[1..];
      assert ("" + ":" + b)[1..] == b && ("" + ":" + d)[1..] == d;
    } else {
      assert (a + ":" + b)[1..] == a[1..] + ":" + b && (c + ":" + d)[1..] == c[1..] + ":" + d;
      SplitAtColon(a[1..], b, c[1..], d);
      assert a == [a[0]] + a[1..] && c == [c[0]] + c[1..];
    }
  }

  lemma OverrideKeyInjective(eqA: int, cmdA: int, eqB: int, cmdB: int)
    ensures OverrideKey(eqA, cmdA) == OverrideKey(eqB, cmdB) <==> eqA == eqB && cmdA == cmdB
  {
    if OverrideKey(eqA, cmdA) == OverrideKey(eqB, cmdB) {
      NoColon(eqA);
      NoColon(eqB);
      SplitAtColon(IntText(eqA), IntText(cmdA), IntText(eqB), IntText(cmdB));
      IntTextInjective(eqA, eqB);
      IntTextInjective(cmdA, cmdB);
    }
  }
}
