/**
  The counts of the main page (`jeedom2ha_overview.js`, `summarizeRoom` and `summarizeHouse` of
  `jeedom2ha_mapping_override.js`).  One equipment is counted by two paths: by group, with its own
  `enabled` flag, and by state, with the flag last listed for its id.
 */
module Overview {
  import opened Prelude
  import opened EquipmentState
  import opened Exclusions

  datatype Equipment = Equipment(id: int, name: string, enabled: Option<bool>, eqType: string)

  /** `excluded` is the flag of a room excluded by hand. */
  datatype Room = Room(id: int, name: string, excluded: bool, equipments: seq<Equipment>)

  /** The trees that were read, by equipment id. */
  type Entries = map<int, Tree>

  datatype GroupKey = PublishedGroup | ToApplyGroup | BlockedGroup | OtherGroup | UnreadGroup

  function GroupOfState(s: State): GroupKey {
    match s
    case Published => PublishedGroup
    case ToApply => ToApplyGroup
    case Blocked => BlockedGroup
    case Excluded => OtherGroup
    case Disabled => OtherGroup
    case NothingToPublish => OtherGroup
  }

  datatype OverviewRow = OverviewRow(eqId: int, roomId: int, state: Option<State>, mention: nat, group: GroupKey,
                                     cause: Option<string>, eqType: string)

  datatype Summary = Summary(total: nat, read: nat, presenceUnknown: nat, defects: nat, byState: map<State, nat>)

  datatype RoomOverview = RoomOverview(id: int, excluded: bool, summary: Summary, counts: map<GroupKey, nat>,
                                       exclusion: Breakdown, rows: seq<OverviewRow>)

  datatype Overview = Overview(total: nat, roomsCount: nat, rooms: seq<RoomOverview>, counts: map<GroupKey, nat>,
    house: Summary)

  // ---------------------------------------------------------------------------------------
  // What is counted
  // ---------------------------------------------------------------------------------------

  function RowState(e: Equipment, entries: Entries, labels: Labels): Option<State> {
    if e.id in entries then Some(StateOf(entries[e.id], e.enabled, labels)) else None
  }

  function GroupOf(e: Equipment, entries: Entries, labels: Labels): GroupKey {
    match RowState(e, entries, labels)
    case None => UnreadGroup
    case Some(s) => GroupOfState(s)
  }

  /** Equipments of the room in the group, each with its own flag. */
  function GroupTally(es: seq<Equipment>, entries: Entries, labels: Labels, g: GroupKey): nat {
    Count(es, (e: Equipment) => GroupOf(e, entries, labels) == g)
  }

  /** The flag of the last equipment listed under the id. */
  function LastEnabled(es: seq<Equipment>, id: int): Option<bool> {
    if es == [] then None else if es[|es|-1].id == id then es[|es|-1].enabled else LastEnabled(es[..|es|-1], id)
  }

  predicate HasSummaryState(e: Equipment, all: seq<Equipment>, entries: Entries, labels: Labels, s: State) {
    e.id in entries && StateOf(entries[e.id], LastEnabled(all, e.id), labels) == s
  }

  /** Equipments of the room in the state, each with the flag last listed for its id. */
  function StateTally(es: seq<Equipment>, entries: Entries, labels: Labels, s: State): nat {
    Count(es, (e: Equipment) => HasSummaryState(e, es, entries, labels, s))
  }

  function ReadTally(es: seq<Equipment>, entries: Entries): nat { Count(es, (e: Equipment) => e.id in entries) }

  function UnknownTally(es: seq<Equipment>, entries: Entries): nat {
    Count(es, (e: Equipment) => e.id in entries && entries[e.id].sync.publishedInHa == None)
  }

  function BlockedCommands(t: Tree, labels: Labels): nat { Tally(t.commands, labels, BlockedRow) }

  /** A defect: a command neither present, off nor uncovered, refused, for a cause that is not ignored. */
  predicate IsDefect(r: Row, labels: Labels) {
    !Present(r) && !Off(r) && !Uncovered(r) && r.diagnostic.Some? && !Ready(r) && !HasIgnoredCause(r, labels)
  }

  lemma BlockedCommandsMeaning(t: Tree, labels: Labels)
    ensures BlockedCommands(t, labels) == Count(t.commands, (r: Row) => IsDefect(r, labels))
  {
    hide Classify;
    forall i | 0 <= i < |t.commands|
      ensures Classify(t.commands[i], labels) == BlockedRow <==> IsDefect(t.commands[i], labels)
    {
      CategoryMeaning(t.commands[i], labels);
    }
    CountAgrees(t.commands, (r: Row) => Classify(r, labels) == BlockedRow,
      t.commands, (r: Row) => IsDefect(r, labels));
  }

  function Defects(es: seq<Equipment>, entries: Entries, labels: Labels): int {
    Sum(es, (e: Equipment) => if e.id in entries then BlockedCommands(entries[e.id], labels) else 0)
  }

  // ---------------------------------------------------------------------------------------
  // The two paths agree
  // ---------------------------------------------------------------------------------------

  /** The group counts are the state counts plus the unread. */
  predicate PathsAgree(es: seq<Equipment>, entries: Entries, labels: Labels) {
    && GroupTally(es, entries, labels, PublishedGroup) == StateTally(es, entries, labels, Published)
    && GroupTally(es, entries, labels, ToApplyGroup) == StateTally(es, entries, labels, ToApply)
    && GroupTally(es, entries, labels, BlockedGroup) == StateTally(es, entries, labels, Blocked)
    && GroupTally(es, entries, labels, OtherGroup)
       == StateTally(es, entries, labels, Excluded) + StateTally(es, entries, labels, Disabled)
         + StateTally(es, entries, labels, NothingToPublish)
    && GroupTally(es, entries, labels, UnreadGroup) == |es| - ReadTally(es, entries)
  }

  /** No id is listed in the room both as disabled and as not disabled. */
  predicate FlagsAgree(es: seq<Equipment>) {
    forall i, j :: 0 <= i < |es| && 0 <= j < |es| && es[i].id == es[j].id ==>
      (es[i].enabled == Some(false)) == (es[j].enabled == Some(false))
  }

  /** Each equipment is in one group: the five counts add up to the equipments of the room. */
  lemma {:induction false} GroupsPartition(es: seq<Equipment>, entries: Entries, labels: Labels)
    ensures var n := (g: GroupKey) => GroupTally(es, entries, labels, g);
      n(PublishedGroup) + n(ToApplyGroup) + n(BlockedGroup) + n(OtherGroup) + n(UnreadGroup) == |es|
  {
    hide GroupOf;
    if es != [] {
      GroupsPartition(es[..|es|-1], entries, labels);
    }
  }

  /** The two paths agree on every reading of the room exactly when its flags do. */
  lemma PathsAgreeExactlyWhen(es: seq<Equipment>, labels: Labels)
    ensures (forall entries :: PathsAgree(es, entries, labels)) <==> FlagsAgree(es)
  {
    hide PathsAgree, FlagsAgree;
    if FlagsAgree(es) {
      forall entries ensures PathsAgree(es, entries, labels) {
        AgreeingFlags(es, entries, labels);
      }
    } else {
      DisagreeingFlags(es, labels);
    }
  }

  lemma {:induction false} LastEnabledOccurs(es: seq<Equipment>, id: int)
    requires exists i :: 0 <= i < |es| && es[i].id == id
    ensures exists i :: 0 <= i < |es| && es[i].id == id && es[i].enabled == LastEnabled(es, id)
  {
    if es[|es|-1].id == id {
    } else {
      var front := es[..|es|-1];
      var i :| 0 <= i < |es| && es[i].id == id;
      assert front[i].id == id;
      LastEnabledOccurs(front, id);
      var k :| 0 <= k < |front| && front[k].id == id && front[k].enabled == LastEnabled(front, id);
      assert es[k].id == id;
    }
  }

  lemma SameState(es: seq<Equipment>, entries: Entries, labels: Labels, i: nat)
    requires FlagsAgree(es) && i < |es| && es[i].id in entries
    ensures StateOf(entries[es[i].id], LastEnabled(es, es[i].id), labels)
      == StateOf(entries[es[i].id], es[i].enabled, labels)
  {
    hide StateOf, LastEnabled;
    LastEnabledOccurs(es, es[i].id);
    OnlyDisabledCounts(entries[es[i].id], LastEnabled(es, es[i].id), es[i].enabled, labels);
  }

  lemma OnlyDisabledCounts(t: Tree, enabled: Option<bool>, other: Option<bool>, labels: Labels)
    requires (enabled == Some(false)) == (other == Some(false))
    ensures StateOf(t, enabled, labels) == StateOf(t, other, labels)
  {
  }

  lemma AgreeingFlags(es: seq<Equipment>, entries: Entries, labels: Labels)
    requires FlagsAgree(es)
    ensures PathsAgree(es, entries, labels)
  {
    hide StateOf, LastEnabled, Count;
    forall i | 0 <= i < |es| && es[i].id in entries
      ensures StateOf(entries[es[i].id], LastEnabled(es, es[i].id), labels)
      == StateOf(entries[es[i].id], es[i].enabled, labels)
    {
      SameState(es, entries, labels, i);
    }
    var group := (g: GroupKey) => (e: Equipment) => GroupOf(e, entries, labels) == g;
    var state := (s: State) => (e: Equipment) => HasSummaryState(e, es, entries, labels, s);
    CountAgrees(es, group(PublishedGroup), es, state(Published));
    CountAgrees(es, group(ToApplyGroup), es, state(ToApply));
    CountAgrees(es, group(BlockedGroup), es, state(Blocked));
    var off := (e: Equipment) => HasSummaryState(e, es, entries, labels, Disabled)
      || HasSummaryState(e, es, entries, labels, NothingToPublish);
    CountSplit(es, state(Disabled), state(NothingToPublish), off);
    CountSplit(es, state(Excluded), off, group(OtherGroup));
    UnreadIsTheRest(es, entries, labels);
  }

  lemma UnreadIsTheRest(es: seq<Equipment>, entries: Entries, labels: Labels)
    ensures GroupTally(es, entries, labels, UnreadGroup) == |es| - ReadTally(es, entries)
  {
    hide StateOf, Count;
    CountSplit(es, (e: Equipment) => e.id in entries, (e: Equipment) => GroupOf(e, entries, labels) == UnreadGroup,
      (e: Equipment) => true);
    CountAll(es, (e: Equipment) => true);
  }

  /** One blocked command, and nothing that says more. */
  const BLOCKED_TREE :=
    Tree([Row(1, None, None, Some(Diagnostic(None, false, None, [], [], false, None)))], None, [],
         Sync(None, None, false, None))

  lemma BlockedTreeIsBlocked(enabled: Option<bool>, labels: Labels)
    ensures StateOf(BLOCKED_TREE, enabled, labels) == if enabled == Some(false) then Disabled else Blocked
  {
    assert Classify(BLOCKED_TREE.commands[0], labels) == BlockedRow;
  }

  lemma DisagreeingFlags(es: seq<Equipment>, labels: Labels)
    requires !FlagsAgree(es)
    ensures exists entries :: !PathsAgree(es, entries, labels)
  {
    var i, j :| 0 <= i < |es| && 0 <= j < |es| && es[i].id == es[j].id && es[i].enabled == Some(false)
      && es[j].enabled != Some(false);
    var id := es[i].id;
    var entries: Entries := map[id := BLOCKED_TREE];
    hide StateOf, LastEnabled, Count;
    forall enabled ensures StateOf(BLOCKED_TREE, enabled, labels) == if enabled == Some(false) then Disabled
      else Blocked
    {
      BlockedTreeIsBlocked(enabled, labels);
    }
    var byGroup := (e: Equipment) => GroupOf(e, entries, labels) == BlockedGroup;
    var byState := (e: Equipment) => HasSummaryState(e, es, entries, labels, Blocked);
    assert byGroup(es[j]) && !byGroup(es[i]);
    if LastEnabled(es, id) == Some(false) {
      assert !byState(es[j]);
      CountImplied(es, byState, byGroup);
    } else {
      assert byState(es[i]);
      CountImplied(es, byGroup, byState);
    }
    assert !PathsAgree(es, entries, labels);
  }

  // ---------------------------------------------------------------------------------------
  // The loops compute these counts
  // ---------------------------------------------------------------------------------------

  datatype Read = Read(id: int, tree: Tree)

  function Reads(es: seq<Equipment>, entries: Entries): seq<Read> {
    if es == [] then []
    else
      var last := es[|es|-1];
      Reads(es[..|es|-1], entries) + if last.id in entries then [Read(last.id, entries[last.id])] else []
  }

  function Lookup(enabledById: map<int, Option<bool>>, id: int): Option<bool> {
    if id in enabledById then enabledById[id] else None
  }

  /** Counting the trees that were read is counting their equipments. */
  lemma {:induction false} CountReads(es: seq<Equipment>, entries: Entries, p: Read -> bool)
    ensures Count(Reads(es, entries), p) == Count(es, (e: Equipment) => e.id in entries && p(Read(e.id, entries[e.id])))
  {
    if es != [] {
      var last := es[|es|-1];
      CountReads(es[..|es|-1], entries, p);
      if last.id in entries {
        CountAppend(Reads(es[..|es|-1], entries), Read(last.id, entries[last.id]), p);
      } else {
        assert Reads(es, entries) == Reads(es[..|es|-1], entries);
      }
    }
  }

  lemma {:induction false} SumReads(es: seq<Equipment>, entries: Entries, f: Read -> int)
    ensures Sum(Reads(es, entries), f)
      == Sum(es, (e: Equipment) => if e.id in entries then f(Read(e.id, entries[e.id])) else 0)
  {
    if es != [] {
      var last := es[|es|-1];
      SumReads(es[..|es|-1], entries, f);
      if last.id in entries {
        SumAppend(Reads(es[..|es|-1], entries), Read(last.id, entries[last.id]), f);
      } else {
        assert Reads(es, entries) == Reads(es[..|es|-1], entries);
      }
    }
  }

  function StatesOfReads(trees: seq<Read>, flags: map<int, Option<bool>>, labels: Labels, s: State): nat {
    Count(trees, (r: Read) => StateOf(r.tree, Lookup(flags, r.id), labels) == s)
  }

  lemma StatesStep(trees: seq<Read>, r: Read, flags: map<int, Option<bool>>, labels: Labels)
    ensures forall s :: StatesOfReads(trees + [r], flags, labels, s)
                     == StatesOfReads(trees, flags, labels, s) + if StateOf(r.tree, Lookup(flags, r.id), labels)
                       == s then 1 else 0
  {
  }

  lemma StatesOfNothing(flags: map<int, Option<bool>>, labels: Labels)
    ensures forall s :: StatesOfReads([], flags, labels, s) == 0
  {
  }

  const NO_STATES: map<State, nat> :=
    map[Published := 0, ToApply := 0, Blocked := 0, Excluded := 0, Disabled := 0, NothingToPublish := 0]

  lemma AllStatesAtZero()
    ensures forall s :: s in NO_STATES && NO_STATES[s] == 0
  {
    forall s: State ensures s in NO_STATES && NO_STATES[s] == 0 {
      match s
      case Published => case ToApply => case Blocked =>
      case Excluded => case Disabled => case NothingToPublish =>
    }
  }

  /** `summarizeRoom`. */
  method SummarizeRoom(trees: seq<Read>, total: nat, flags: map<int, Option<bool>>, labels: Labels) returns (r: Summary)
    ensures r.total == total && r.read == |trees|
    ensures forall s :: s in r.byState && r.byState[s] == StatesOfReads(trees, flags, labels, s)
    ensures r.presenceUnknown == Count(trees, (r: Read) => r.tree.sync.publishedInHa == None)
    ensures r.defects == Sum(trees, (r: Read) => BlockedCommands(r.tree, labels))
  {
    hide StateOf, Count, Sum, StatesOfReads, TreeDisabled, TreeExcluded;
    ghost var unknown, blocked :=
      (r: Read) => r.tree.sync.publishedInHa == None, (r: Read) => BlockedCommands(r.tree, labels);
    AllStatesAtZero();
    var byState := NO_STATES;
    var presenceUnknown, defects := 0, 0;
    assert trees[..0] == [];
    StatesOfNothing(flags, labels);
    CountAll([], unknown);
    assert Sum([], blocked) == 0 by { SumOfNothing(blocked); }
    for i := 0 to |trees|
      invariant forall s :: s in byState && byState[s] == StatesOfReads(trees[..i], flags, labels, s)
      invariant presenceUnknown == Count(trees[..i], unknown)
      invariant defects == Sum(trees[..i], blocked)
    {
      assert trees[..i+1] == trees[..i] + [trees[i]];
      StatesStep(trees[..i], trees[i], flags, labels);
      CountAppend(trees[..i], trees[i], unknown);
      SumAppend(trees[..i], trees[i], blocked);
      var resolved := ResolveState(trees[i].tree, Lookup(flags, trees[i].id), labels);
      var analysis := Analyze(trees[i].tree, labels);
      byState := byState[resolved.state := byState[resolved.state] + 1];
      defects := defects + analysis.counts[BlockedRow];
      if trees[i].tree.sync.publishedInHa == None {
        presenceUnknown := presenceUnknown + 1;
      }
    }
    assert trees[..|trees|] == trees;
    r := Summary(total, |trees|, presenceUnknown, defects, byState);
  }

  lemma SumOfNothing<T>(f: T -> int)
    ensures Sum([], f) == 0
  {
  }

  /** The summary of a room counts its equipments. */
  ghost predicate IsSummary(r: Summary, es: seq<Equipment>, entries: Entries, labels: Labels) {
    && r.total == |es| && r.read == ReadTally(es, entries)
    && (forall s :: s in r.byState && r.byState[s] == StateTally(es, entries, labels, s))
    && r.presenceUnknown == UnknownTally(es, entries) && r.defects == Defects(es, entries, labels)
  }

  ghost predicate IsRoomOverview(o: RoomOverview, room: Room, entries: Entries, labels: Labels) {
    && o.id == room.id && IsSummary(o.summary, room.equipments, entries, labels)
    && (forall g :: g in o.counts && o.counts[g] == GroupTally(room.equipments, entries, labels, g))
    && o.excluded == (room.excluded && room.id > 0)
    && IsBreakdown(o.exclusion, ExcludedItems(o.rows))
    && |o.rows| == |room.equipments|
    && forall i :: 0 <= i < |o.rows| ==> IsRow(o.rows[i], room.equipments[i], room.id, entries, labels)
  }

  /** The rows that are excluded, as the breakdown sees them. */
  function ExcludedItems(rows: seq<OverviewRow>): seq<Item> {
    if rows == [] then []
    else
      var last := rows[|rows|-1];
      ExcludedItems(rows[..|rows|-1]) + if last.state == Some(Excluded) then [Item(last.cause, last.eqType)] else []
  }

  ghost predicate IsRow(r: OverviewRow, e: Equipment, roomId: int, entries: Entries, labels: Labels) {
    && r.eqId == e.id && r.roomId == roomId && r.state == RowState(e, entries, labels)
       && r.group == GroupOf(e, entries, labels)
    && r.mention == (if (r.state == Some(Published) || r.state == Some(ToApply)) && e.id in entries then
        BlockedCommands(entries[e.id], labels)
      else 0)
    && r.eqType == e.eqType
    && if e.id in entries then IsExclusionCause(r.cause, entries[e.id], e.enabled, labels) else r.cause.None?
  }

  method BreakDown(rows: seq<OverviewRow>, sort: seq<PluginCount> -> seq<PluginCount>) returns (b: Breakdown)
    requires IsTypeSort(sort)
    ensures IsBreakdown(b, ExcludedItems(rows))
  {
    hide IsTypeSort, IsBreakdown;
    var items: seq<Item> := [];
    for i := 0 to |rows|
      invariant items == ExcludedItems(rows[..i])
    {
      assert rows[..i+1][..i] == rows[..i];
      if rows[i].state == Some(Excluded) {
        items := items + [Item(rows[i].cause, rows[i].eqType)];
      }
    }
    assert rows[..|rows|] == rows;
    b := ExclusionBreakdown(items, sort);
  }

  lemma {:induction false} ExcludedRows(rows: seq<OverviewRow>, es: seq<Equipment>, roomId: int, entries: Entries,
      labels: Labels)
    requires |rows| == |es| && forall i :: 0 <= i < |rows| ==> IsRow(rows[i], es[i], roomId, entries, labels)
    ensures |ExcludedItems(rows)| == Count(es, (e: Equipment) => RowState(e, entries, labels) == Some(Excluded))
  {
    hide RowState, BlockedCommands, IsExclusionCause, GroupOf;
    if rows != [] {
      ExcludedRows(rows[..|rows|-1], es[..|es|-1], roomId, entries, labels);
    }
  }

  /** When flags agree, the causes of exclusion add up to the excluded equipments of the summary. */
  lemma CausesAddUp(o: RoomOverview, room: Room, entries: Entries, labels: Labels)
    requires IsRoomOverview(o, room, entries, labels) && FlagsAgree(room.equipments)
    ensures var b := o.exclusion;
      Sum(b.plugins, (p: PluginCount) => p.count) + b.room + b.alone + b.other == b.excluded
        == o.summary.byState[Excluded]
  {
    var es := room.equipments;
    ExcludedRows(o.rows, es, room.id, entries, labels);
    BreakdownPartition(o.exclusion, ExcludedItems(o.rows));
    hide StateOf, Count, LastEnabled, IsRow, IsBreakdown;
    forall i | 0 <= i < |es| && es[i].id in entries
      ensures StateOf(entries[es[i].id], LastEnabled(es, es[i].id), labels)
        == StateOf(entries[es[i].id], es[i].enabled, labels)
    {
      SameState(es, entries, labels, i);
    }
    CountAgrees(es, (e: Equipment) => RowState(e, entries, labels) == Some(Excluded),
                es, (e: Equipment) => HasSummaryState(e, es, entries, labels, Excluded));
  }

  lemma GroupsStep(es: seq<Equipment>, e: Equipment, entries: Entries, labels: Labels)
    ensures forall g :: GroupTally([], entries, labels, g) == 0
    ensures forall g ::
      GroupTally(es + [e], entries, labels, g) == GroupTally(es, entries, labels, g) + if GroupOf(e, entries, labels)
      == g then 1 else 0
  {
  }

  const NO_GROUPS: map<GroupKey, nat> :=
    map[PublishedGroup := 0, ToApplyGroup := 0, BlockedGroup := 0, OtherGroup := 0, UnreadGroup := 0]

  lemma AllGroupsAtZero()
    ensures forall g :: g in NO_GROUPS && NO_GROUPS[g] == 0
  {
    forall g: GroupKey ensures g in NO_GROUPS && NO_GROUPS[g] == 0 {
      match g
      case PublishedGroup => case ToApplyGroup => case BlockedGroup =>
      case OtherGroup => case UnreadGroup =>
    }
  }

  lemma NothingCounted(entries: Entries, labels: Labels)
    ensures (forall g :: GroupTally([], entries, labels, g) == 0) && Reads([], entries) == []
    ensures forall id :: LastEnabled([], id) == None
  {
  }

  lemma ReadsStep(es: seq<Equipment>, e: Equipment, entries: Entries)
    ensures Reads(es + [e], entries) == Reads(es, entries) + if e.id in entries then [Read(e.id, entries[e.id])] else []
    ensures forall id :: LastEnabled(es + [e], id) == if e.id == id then e.enabled else LastEnabled(es, id)
  {
  }

  /** One room of `computeOverview`. */
  method ComputeRoom(room: Room, entries: Entries, labels: Labels, sort: seq<PluginCount> -> seq<PluginCount>)
    returns (o: RoomOverview)
    requires IsTypeSort(sort)
    ensures IsRoomOverview(o, room, entries, labels)
  {
    hide StateOf, GroupTally, Reads, LastEnabled, IsSummary, StatesOfReads, Count, IsTypeSort, IsExclusionCause,
      IsBreakdown;
    var es := room.equipments;
    var trees: seq<Read> := [];
    var flags: map<int, Option<bool>> := map[];
    AllGroupsAtZero();
    var counts := NO_GROUPS;
    var rows: seq<OverviewRow> := [];
    assert es[..0] == [];
    NothingCounted(entries, labels);
    for i := 0 to |es|
      invariant trees == Reads(es[..i], entries)
      invariant forall id :: Lookup(flags, id) == LastEnabled(es[..i], id)
      invariant forall g :: g in counts && counts[g] == GroupTally(es[..i], entries, labels, g)
      invariant |rows| == i && forall k :: 0 <= k < i ==> IsRow(rows[k], es[k], room.id, entries, labels)
    {
      var eq := es[i];
      assert es[..i+1] == es[..i] + [eq];
      ReadsStep(es[..i], eq, entries);
      GroupsStep(es[..i], eq, entries, labels);
      flags := flags[eq.id := eq.enabled];
      var row := OverviewRow(eq.id, room.id, None, 0, UnreadGroup, None, eq.eqType);
      if eq.id in entries {
        trees := trees + [Read(eq.id, entries[eq.id])];
        var resolved := ResolveState(entries[eq.id], eq.enabled, labels);
        var cause := ExclusionCause(entries[eq.id], eq.enabled, labels);
        row := OverviewRow(eq.id, room.id, Some(resolved.state), resolved.blockedMention, GroupOfState(resolved.state),
          cause, eq.eqType);
      }
      counts := counts[row.group := counts[row.group] + 1];
      rows := rows + [row];
    }
    assert es[..|es|] == es;
    var summary := SummarizeRoom(trees, |es|, flags, labels);
    SummaryOfReads(summary, es, entries, flags, labels);
    var exclusion := BreakDown(rows, sort);
    o := RoomOverview(room.id, room.excluded && room.id > 0, summary, counts, exclusion, rows);
  }

  lemma SummaryOfReads(r: Summary, es: seq<Equipment>, entries: Entries, flags: map<int, Option<bool>>, labels: Labels)
    requires forall id :: Lookup(flags, id) == LastEnabled(es, id)
    requires r.total == |es| && r.read == |Reads(es, entries)|
    requires forall s :: s in r.byState && r.byState[s] == StatesOfReads(Reads(es, entries), flags, labels, s)
    requires r.presenceUnknown == Count(Reads(es, entries), (r: Read) => r.tree.sync.publishedInHa == None)
    requires r.defects == Sum(Reads(es, entries), (r: Read) => BlockedCommands(r.tree, labels))
    ensures IsSummary(r, es, entries, labels)
  {
    hide StateOf, Count, Sum, Reads, LastEnabled, BlockedCommands;
    ReadsCounted(es, entries);
    forall s ensures StatesOfReads(Reads(es, entries), flags, labels, s) == StateTally(es, entries, labels, s) {
      var p := (r: Read) => StateOf(r.tree, Lookup(flags, r.id), labels) == s;
      CountReads(es, entries, p);
      CountAgrees(es, (e: Equipment) => e.id in entries && p(Read(e.id, entries[e.id])), es,
        (e: Equipment) => HasSummaryState(e, es, entries, labels, s));
    }
    UnknownCounted(es, entries);
    DefectsCounted(es, entries, labels);
  }

  lemma ReadsCounted(es: seq<Equipment>, entries: Entries)
    ensures |Reads(es, entries)| == ReadTally(es, entries)
  {
  }

  lemma UnknownCounted(es: seq<Equipment>, entries: Entries)
    ensures Count(Reads(es, entries), (r: Read) => r.tree.sync.publishedInHa == None) == UnknownTally(es, entries)
  {
    hide Count, Reads;
    var unknown := (r: Read) => r.tree.sync.publishedInHa == None;
    CountReads(es, entries, unknown);
    CountAgrees(es, (e: Equipment) => e.id in entries && unknown(Read(e.id, entries[e.id])),
                es, (e: Equipment) => e.id in entries && entries[e.id].sync.publishedInHa == None);
  }

  lemma DefectsCounted(es: seq<Equipment>, entries: Entries, labels: Labels)
    ensures Sum(Reads(es, entries), (r: Read) => BlockedCommands(r.tree, labels)) == Defects(es, entries, labels)
  {
    hide Sum, Reads, BlockedCommands;
    var blocked: Read -> int := (r: Read) => BlockedCommands(r.tree, labels);
    SumReads(es, entries, blocked);
    SumAgrees(es, (e: Equipment) => if e.id in entries then blocked(Read(e.id, entries[e.id])) else 0,
              es, (e: Equipment) => if e.id in entries then BlockedCommands(entries[e.id], labels) else 0);
  }
}
