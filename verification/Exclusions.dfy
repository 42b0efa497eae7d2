/**
  Why an equipment is excluded, and the count of the excluded equipments of a room by cause (`exclusionCauseOf` and
  `exclusionBreakdown` of `jeedom2ha_mapping_override.js`).
 */
module Exclusions {
  import opened Prelude
  import opened Text
  import opened EquipmentState

  datatype Kind = ByPlugin | ByRoom | Alone

  /** `EXCLUSION_KIND_OF`: its codes are those of `EXCLUDED_REASONS`. */
  function KindOf(code: string): Option<Kind> {
    if code == "excluded_plugin" then Some(ByPlugin)
    else if code == "excluded_object" then Some(ByRoom)
    else if code in EXCLUDED_REASONS then Some(Alone)
    else None
  }

  /** The kinds of exclusion, code by code. */
  lemma KindMeaning(code: string)
    ensures KindOf(code) == Some(ByPlugin) <==> code == "excluded_plugin"
    ensures KindOf(code) == Some(ByRoom) <==> code == "excluded_object"
    ensures KindOf(code) == Some(Alone) <==>
      code in {"excluded_eqlogic", "publication_excluded_eqlogic", "publication_excluded_command"}
  {
  }

  // ---------------------------------------------------------------------------------------
  // The cause of one equipment
  // ---------------------------------------------------------------------------------------

  predicate Says(r: Row, code: string) {
    IsExcluded(r.diagnostic) && r.diagnostic.value.publicationReason == Some(code)
  }

  predicate HasReason(rows: seq<Row>, code: string) { exists i :: 0 <= i < |rows| && Says(rows[i], code) }

  /** The reason of the equipment, else the one reason its excluded commands share. */
  ghost predicate IsCause(cause: Option<string>, t: Tree) {
    if IsExcluded(t.decision) then cause == t.decision.value.publicationReason
    else if cause.Some? then forall code :: HasReason(t.commands, code) <==> code == cause.value
    else forall code :: HasReason(t.commands, code) ==> exists other :: other != code && HasReason(t.commands, other)
  }

  ghost predicate IsExclusionCause(cause: Option<string>, t: Tree, enabled: Option<bool>, labels: Labels) {
    if StateOf(t, enabled, labels) == Excluded then IsCause(cause, t) else cause.None?
  }

  /** `exclusionCauseOf`. */
  method ExclusionCause(t: Tree, enabled: Option<bool>, labels: Labels) returns (cause: Option<string>)
    ensures IsExclusionCause(cause, t, enabled, labels)
  {
    var resolved := ResolveState(t, enabled, labels);
    if resolved.state != Excluded {
      return None;
    }
    hide StateOf, IsExcluded, HasReason;
    if IsExcluded(t.decision) {
      return t.decision.value.publicationReason;
    }
    var reasons: seq<string> := [];
    NoReason();
    for i := 0 to |t.commands|
      invariant Distinct(reasons) && forall code :: code in reasons <==> HasReason(t.commands[..i], code)
    {
      var row := t.commands[i];
      assert t.commands[..i+1] == t.commands[..i] + [row];
      ReasonsStep(t.commands[..i], row);
      if IsExcluded(row.diagnostic) {
        var code := ReasonOf(row);
        if code !in reasons {
          reasons := reasons + [code];
        }
      }
    }
    assert t.commands[..|t.commands|] == t.commands;
    cause := if |reasons| == 1 then Some(reasons[0]) else None;
    if |reasons| > 1 {
      forall code | code in reasons ensures exists other :: other != code && HasReason(t.commands, other) {
        assert reasons[0] in reasons && reasons[1] in reasons;
      }
    }
  }

  function ReasonOf(r: Row): (code: string)
    requires IsExcluded(r.diagnostic)
    ensures Says(r, code)
  {
    r.diagnostic.value.publicationReason.value
  }

  lemma NoReason()
    ensures forall code :: !HasReason([], code)
  {
  }

  lemma ReasonsStep(rows: seq<Row>, row: Row)
    ensures forall code :: HasReason(rows + [row], code) <==> HasReason(rows, code) || Says(row, code)
  {
    var all := rows + [row];
    assert all[|rows|] == row;
    forall code ensures HasReason(all, code) <==> HasReason(rows, code) || Says(row, code) {
      if HasReason(rows, code) {
        var i :| 0 <= i < |rows| && Says(rows[i], code);
        assert Says(all[i], code);
      }
    }
  }

  // ---------------------------------------------------------------------------------------
  // The excluded equipments of a room
  // ---------------------------------------------------------------------------------------

  datatype Item = Item(cause: Option<string>, eqType: string)

  datatype PluginCount = PluginCount(eqType: string, count: nat)

  datatype Breakdown = Breakdown(excluded: nat, plugins: seq<PluginCount>, room: nat, alone: nat, other: nat)

  function KindOfItem(x: Item): Option<Kind> { if x.cause.Some? then KindOf(x.cause.value) else None }

  function KindTally(items: seq<Item>, kind: Option<Kind>): nat { Count(items, (x: Item) => KindOfItem(x) == kind) }

  function PluginTally(items: seq<Item>, eqType: string): nat {
    Count(items, (x: Item) => KindOfItem(x) == Some(ByPlugin) && x.eqType == eqType)
  }

  /** The tallies, on the codes. */
  lemma TallyMeaning(items: seq<Item>, eqType: string)
    ensures KindTally(items, Some(ByRoom)) == Count(items, (x: Item) => x.cause == Some("excluded_object"))
    ensures KindTally(items, Some(ByPlugin)) == Count(items, (x: Item) => x.cause == Some("excluded_plugin"))
    ensures KindTally(items, Some(Alone)) == Count(items, (x: Item) => x.cause in ALONE_CAUSES)
    ensures PluginTally(items, eqType)
         == Count(items, (x: Item) => x.cause == Some("excluded_plugin") && x.eqType == eqType)
  {
    CountAgrees(items, (x: Item) => KindOfItem(x) == Some(ByRoom),
      items, (x: Item) => x.cause == Some("excluded_object"));
    CountAgrees(items, (x: Item) => KindOfItem(x) == Some(ByPlugin),
      items, (x: Item) => x.cause == Some("excluded_plugin"));
    CountAgrees(items, (x: Item) => KindOfItem(x) == Some(Alone), items, (x: Item) => x.cause in ALONE_CAUSES);
    CountAgrees(items, (x: Item) => KindOfItem(x) == Some(ByPlugin) && x.eqType == eqType,
      items, (x: Item) => x.cause == Some("excluded_plugin") && x.eqType == eqType);
  }

  const ALONE_CAUSES :=
    {Some("excluded_eqlogic"), Some("publication_excluded_eqlogic"), Some("publication_excluded_command")}

  predicate HasType(plugins: seq<PluginCount>, eqType: string) {
    exists i :: 0 <= i < |plugins| && plugins[i].eqType == eqType
  }

  /** One count per plugin that excludes an equipment. */
  ghost predicate CountsPlugins(plugins: seq<PluginCount>, items: seq<Item>) {
    && (forall i, j :: 0 <= i < j < |plugins| ==> plugins[i].eqType != plugins[j].eqType)
    && (forall i :: 0 <= i < |plugins| ==> plugins[i].count == PluginTally(items, plugins[i].eqType) > 0)
    && (forall eqType :: PluginTally(items, eqType) > 0 ==> HasType(plugins, eqType))
    && Sum(plugins, (p: PluginCount) => p.count) == KindTally(items, Some(ByPlugin))
  }

  /** The order of the types. */
  ghost predicate IsTypeSort(sort: seq<PluginCount> -> seq<PluginCount>) {
    forall s :: multiset(sort(s)) == multiset(s) && InTypeOrder(sort(s))
  }

  predicate InTypeOrder(plugins: seq<PluginCount>) {
    forall i, j :: 0 <= i < j < |plugins| ==> !Less(plugins[j].eqType, plugins[i].eqType)
  }

  ghost predicate IsBreakdown(b: Breakdown, items: seq<Item>) {
    && b.excluded == |items| && CountsPlugins(b.plugins, items) && InTypeOrder(b.plugins)
    && b.room == KindTally(items, Some(ByRoom)) && b.alone == KindTally(items, Some(Alone))
       && b.other == KindTally(items, None)
  }

  /** The parts of the breakdown add up to the excluded equipments. */
  lemma BreakdownPartition(b: Breakdown, items: seq<Item>)
    requires IsBreakdown(b, items)
    ensures Sum(b.plugins, (p: PluginCount) => p.count) + b.room + b.alone + b.other == b.excluded
  {
    KindsPartition(items);
  }

  lemma {:induction false} KindsPartition(items: seq<Item>)
    ensures KindTally(items, Some(ByPlugin)) + KindTally(items, Some(ByRoom)) + KindTally(items, Some(Alone))
      + KindTally(items, None) == |items|
  {
    if items != [] {
      var front, last := items[..|items|-1], items[|items|-1];
      KindsPartition(front);
      assert items == front + [last];
      TalliesStep(front, last);
    }
  }

  lemma TalliesStep(items: seq<Item>, x: Item)
    ensures forall kind :: KindTally(items + [x], kind) == KindTally(items, kind) + if KindOfItem(x) == kind then 1
      else 0
    ensures forall eqType :: PluginTally(items + [x], eqType)
                          == PluginTally(items, eqType) + if KindOfItem(x) == Some(ByPlugin) && x.eqType == eqType then
                              1
                            else 0
  {
    hide KindOf;
  }

  lemma NoTallies()
    ensures (forall kind :: KindTally([], kind) == 0) && (forall eqType :: PluginTally([], eqType) == 0)
      && CountsPlugins([], [])
  {
  }

  ghost predicate Indexed(byType: map<string, nat>, plugins: seq<PluginCount>) {
    && (forall eqType :: eqType in byType ==> byType[eqType] < |plugins| && plugins[byType[eqType]].eqType == eqType)
    && (forall i :: 0 <= i < |plugins| ==> plugins[i].eqType in byType && byType[plugins[i].eqType] == i)
  }

  /** `exclusionBreakdown`. */
  method ExclusionBreakdown(items: seq<Item>, sort: seq<PluginCount> -> seq<PluginCount>) returns (b: Breakdown)
    requires IsTypeSort(sort)
    ensures IsBreakdown(b, items)
  {
    hide KindOf, CountsPlugins, KindTally, Less;
    var plugins: seq<PluginCount> := [];
    var byType: map<string, nat> := map[];
    var room, alone, other := 0, 0, 0;
    NoTallies();
    assert items[..0] == [];
    for i := 0 to |items|
      invariant CountsPlugins(plugins, items[..i]) && Indexed(byType, plugins)
      invariant room == KindTally(items[..i], Some(ByRoom)) && alone == KindTally(items[..i], Some(Alone))
      invariant other == KindTally(items[..i], None)
    {
      var x := items[i];
      assert items[..i+1] == items[..i] + [x];
      TalliesStep(items[..i], x);
      CountOneMore(plugins, items[..i], x);
      match KindOfItem(x)
      case Some(ByPlugin) =>
        if x.eqType in byType {
          var k := byType[x.eqType];
          plugins := plugins[k := PluginCount(x.eqType, plugins[k].count + 1)];
        } else {
          byType := byType[x.eqType := |plugins|];
          plugins := plugins + [PluginCount(x.eqType, 1)];
        }
      case Some(ByRoom) => room := room + 1;
      case Some(Alone) => alone := alone + 1;
      case None => other := other + 1;
    }
    assert items[..|items|] == items;
    SortKeepsCounts(plugins, items, sort);
    b := Breakdown(|items|, sort(plugins), room, alone, other);
  }

  /** What the counts become with one more item. */
  lemma CountOneMore(plugins: seq<PluginCount>, items: seq<Item>, x: Item)
    requires CountsPlugins(plugins, items)
    ensures KindOfItem(x) != Some(ByPlugin) ==> CountsPlugins(plugins, items + [x])
    ensures KindOfItem(x) == Some(ByPlugin) ==> forall k :: 0 <= k < |plugins| && plugins[k].eqType == x.eqType ==>
      CountsPlugins(plugins[k := PluginCount(x.eqType, plugins[k].count + 1)], items + [x])
    ensures KindOfItem(x) == Some(ByPlugin) && (forall k :: 0 <= k < |plugins| ==> plugins[k].eqType != x.eqType) ==>
      CountsPlugins(plugins + [PluginCount(x.eqType, 1)], items + [x])
  {
    hide KindOf, KindTally, PluginTally, Sum;
    TalliesStep(items, x);
    if KindOfItem(x) == Some(ByPlugin) {
      forall k | 0 <= k < |plugins| && plugins[k].eqType == x.eqType
        ensures CountsPlugins(plugins[k := PluginCount(x.eqType, plugins[k].count + 1)], items + [x])
      {
        GrowCount(plugins, items, x, k);
      }
      if forall k :: 0 <= k < |plugins| ==> plugins[k].eqType != x.eqType {
        OpenCount(plugins, items, x);
      }
    }
  }

  lemma GrowCount(plugins: seq<PluginCount>, items: seq<Item>, x: Item, k: nat)
    requires CountsPlugins(plugins, items) && KindOfItem(x) == Some(ByPlugin) && k < |plugins|
      && plugins[k].eqType == x.eqType
    ensures CountsPlugins(plugins[k := PluginCount(x.eqType, plugins[k].count + 1)], items + [x])
  {
    hide KindOf, KindTally, PluginTally, Sum;
    TalliesStep(items, x);
    var grown := plugins[k := PluginCount(x.eqType, plugins[k].count + 1)];
    SumWithout(plugins, k, (p: PluginCount) => p.count);
    SumWithout(grown, k, (p: PluginCount) => p.count);
    assert grown[..k] + grown[k+1..] == plugins[..k] + plugins[k+1..];
    forall eqType | PluginTally(items + [x], eqType) > 0 ensures HasType(grown, eqType) {
      assert eqType == x.eqType || HasType(plugins, eqType);
      if eqType == x.eqType {
        assert grown[k].eqType == eqType;
      } else {
        var i :| 0 <= i < |plugins| && plugins[i].eqType == eqType;
        assert grown[i].eqType == eqType;
      }
    }
  }

  lemma OpenCount(plugins: seq<PluginCount>, items: seq<Item>, x: Item)
    requires CountsPlugins(plugins, items) && KindOfItem(x) == Some(ByPlugin)
    requires forall k :: 0 <= k < |plugins| ==> plugins[k].eqType != x.eqType
    ensures CountsPlugins(plugins + [PluginCount(x.eqType, 1)], items + [x])
  {
    hide KindOf, KindTally, PluginTally, Sum;
    TalliesStep(items, x);
    var wider := plugins + [PluginCount(x.eqType, 1)];
    SumAppend(plugins, PluginCount(x.eqType, 1), (p: PluginCount) => p.count);
    assert PluginTally(items, x.eqType) == 0;
    forall eqType | PluginTally(items + [x], eqType) > 0 ensures HasType(wider, eqType) {
      if eqType == x.eqType {
        assert wider[|plugins|].eqType == eqType;
      } else {
        var i :| 0 <= i < |plugins| && plugins[i].eqType == eqType;
        assert wider[i].eqType == eqType;
      }
    }
  }

  lemma SortKeepsCounts(plugins: seq<PluginCount>, items: seq<Item>, sort: seq<PluginCount> -> seq<PluginCount>)
    requires IsTypeSort(sort) && CountsPlugins(plugins, items)
    ensures CountsPlugins(sort(plugins), items) && InTypeOrder(sort(plugins))
  {
    hide KindTally, PluginTally, Sum, InTypeOrder;
    var sorted := sort(plugins);
    SameMembers(plugins, sorted);
    DistinctMembers(plugins, sorted);
    SumOfSame(sorted, plugins, (p: PluginCount) => p.count);
    forall i, j | 0 <= i < j < |sorted| ensures sorted[i].eqType != sorted[j].eqType {
      assert sorted[i] in plugins && sorted[j] in plugins;
    }
    forall i | 0 <= i < |sorted| ensures sorted[i].count == PluginTally(items, sorted[i].eqType) > 0 {
      assert sorted[i] in plugins;
    }
    forall eqType | PluginTally(items, eqType) > 0 ensures HasType(sorted, eqType) {
      var i :| 0 <= i < |plugins| && plugins[i].eqType == eqType;
      assert plugins[i] in sorted;
    }
  }
}
