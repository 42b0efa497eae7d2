/**
  The house: totals over the rooms, the list behind a filter, the filter chips and the gauge
  (`computeOverview`, `filterRows`, `chipsFor`, `gaugeSegments` of `jeedom2ha_overview.js`).
 */
module House {
  import opened Prelude
  import opened EquipmentState
  import opened Exclusions
  import opened Overview

  // ---------------------------------------------------------------------------------------
  // Totals
  // ---------------------------------------------------------------------------------------

  function HouseGroup(rooms: seq<Room>, entries: Entries, labels: Labels, g: GroupKey): int {
    Sum(rooms, (r: Room) => GroupTally(r.equipments, entries, labels, g))
  }

  function HouseState(rooms: seq<Room>, entries: Entries, labels: Labels, s: State): int {
    Sum(rooms, (r: Room) => StateTally(r.equipments, entries, labels, s))
  }

  function HouseRead(rooms: seq<Room>, entries: Entries): int {
    Sum(rooms, (r: Room) => ReadTally(r.equipments, entries))
  }

  function HouseTotal(rooms: seq<Room>): int { Sum(rooms, (r: Room) => |r.equipments|) }

  /** The five counts of the house add up to its equipments. */
  lemma {:induction false} HousePartition(rooms: seq<Room>, entries: Entries, labels: Labels)
    ensures var n := (g: GroupKey) => HouseGroup(rooms, entries, labels, g);
      n(PublishedGroup) + n(ToApplyGroup) + n(BlockedGroup) + n(OtherGroup) + n(UnreadGroup) == HouseTotal(rooms)
  {
    hide GroupTally;
    if rooms != [] {
      HousePartition(rooms[..|rooms|-1], entries, labels);
      GroupsPartition(rooms[|rooms|-1].equipments, entries, labels);
    }
  }

  /** The overview counts the equipments of its rooms. */
  ghost predicate IsOverview(o: Overview, rooms: seq<Room>, entries: Entries, labels: Labels) {
    && o.total == HouseTotal(rooms) && o.roomsCount == Count(rooms, (r: Room) => r.id > 0)
    && |o.rooms| == |rooms| && (forall i :: 0 <= i < |rooms| ==> IsRoomOverview(o.rooms[i], rooms[i], entries, labels))
    && (forall g :: g in o.counts && o.counts[g] == HouseGroup(rooms, entries, labels, g))
    && o.house.total == HouseTotal(rooms) && o.house.read == HouseRead(rooms, entries)
    && (forall s :: s in o.house.byState && o.house.byState[s] == HouseState(rooms, entries, labels, s))
    && o.house.presenceUnknown == Sum(rooms, (r: Room) => UnknownTally(r.equipments, entries))
    && o.house.defects == Sum(rooms, (r: Room) => Defects(r.equipments, entries, labels))
  }

  /** `summarizeHouse`. */
  method SummarizeHouse(rooms: seq<Summary>) returns (r: Summary)
    requires forall i :: 0 <= i < |rooms| ==> forall s: State :: s in rooms[i].byState
    ensures r.total == Sum(rooms, (x: Summary) => x.total) && r.read == Sum(rooms, (x: Summary) => x.read)
    ensures r.presenceUnknown == Sum(rooms, (x: Summary) => x.presenceUnknown)
      && r.defects == Sum(rooms, (x: Summary) => x.defects)
    ensures forall s :: s in r.byState && r.byState[s] == InState(rooms, s)
  {
    hide Sum, InState;
    r := Summary(0, 0, 0, 0, NO_STATES);
    AllStatesAtZero();
    assert rooms[..0] == [];
    NothingSummed();
    for i := 0 to |rooms|
      invariant r.total == Sum(rooms[..i], (x: Summary) => x.total) && r.read == Sum(rooms[..i], (x: Summary) => x.read)
      invariant r.presenceUnknown == Sum(rooms[..i], (x: Summary) => x.presenceUnknown)
        && r.defects == Sum(rooms[..i], (x: Summary) => x.defects)
      invariant forall s :: s in r.byState && r.byState[s] == InState(rooms[..i], s)
    {
      var room := rooms[i];
      assert rooms[..i+1] == rooms[..i] + [room];
      SummedStep(rooms[..i], room);
      var byState := r.byState;
      byState := map[Published := byState[Published] + room.byState[Published],
                     ToApply := byState[ToApply] + room.byState[ToApply],
                     Blocked := byState[Blocked] + room.byState[Blocked],
                     Excluded := byState[Excluded] + room.byState[Excluded],
                     Disabled := byState[Disabled] + room.byState[Disabled],
                     NothingToPublish := byState[NothingToPublish] + room.byState[NothingToPublish]];
      forall s: State ensures s in byState && byState[s] == r.byState[s] + room.byState[s] {
        match s
        case Published => case ToApply => case Blocked =>
        case Excluded => case Disabled => case NothingToPublish =>
      }
      r := Summary(r.total + room.total, r.read + room.read, r.presenceUnknown + room.presenceUnknown,
        r.defects + room.defects, byState);
    }
    assert rooms[..|rooms|] == rooms;
  }

  function InState(rooms: seq<Summary>, s: State): int {
    Sum(rooms, (x: Summary) => if s in x.byState then x.byState[s] else 0)
  }

  lemma NothingSummed()
    ensures Sum([], (x: Summary) => x.total) == 0 && Sum([], (x: Summary) => x.read) == 0
    ensures Sum([], (x: Summary) => x.presenceUnknown) == 0 && Sum([], (x: Summary) => x.defects) == 0
    ensures forall s :: InState([], s) == 0
  {
  }

  lemma SummedStep(rooms: seq<Summary>, room: Summary)
    requires forall s: State :: s in room.byState
    ensures Sum(rooms + [room], (x: Summary) => x.total) == Sum(rooms, (x: Summary) => x.total) + room.total
    ensures Sum(rooms + [room], (x: Summary) => x.read) == Sum(rooms, (x: Summary) => x.read) + room.read
    ensures Sum(rooms + [room], (x: Summary) => x.presenceUnknown)
      == Sum(rooms, (x: Summary) => x.presenceUnknown) + room.presenceUnknown
    ensures Sum(rooms + [room], (x: Summary) => x.defects) == Sum(rooms, (x: Summary) => x.defects) + room.defects
    ensures forall s: State :: InState(rooms + [room], s) == InState(rooms, s) + room.byState[s]
  {
  }

  lemma NothingInHouse(entries: Entries, labels: Labels)
    ensures (forall g :: HouseGroup([], entries, labels, g) == 0) && HouseTotal([]) == 0
  {
  }

  lemma GroupsOfHouse(rooms: seq<Room>, room: Room, entries: Entries, labels: Labels)
    ensures forall g ::
      HouseGroup(rooms + [room], entries, labels, g)
      == HouseGroup(rooms, entries, labels, g) + GroupTally(room.equipments, entries, labels, g)
    ensures HouseTotal(rooms + [room]) == HouseTotal(rooms) + |room.equipments|
  {
  }

  /** `computeOverview`. */
  method ComputeOverview(rooms: seq<Room>, entries: Entries, labels: Labels, sort: seq<PluginCount> -> seq<PluginCount>)
    returns (o: Overview)
    requires IsTypeSort(sort)
    ensures IsOverview(o, rooms, entries, labels)
  {
    hide IsRoomOverview, HouseGroup, HouseTotal, GroupTally, Count, IsSummary, IsTypeSort;
    ghost var isReal := (r: Room) => r.id > 0;
    var out: seq<RoomOverview> := [];
    var summaries: seq<Summary> := [];
    var total, roomsCount := 0, 0;
    var counts := NO_GROUPS;
    AllGroupsAtZero();
    assert rooms[..0] == [];
    CountAll([], isReal);
    NothingInHouse(entries, labels);
    for i := 0 to |rooms|
      invariant |out| == |summaries| == i
      invariant forall k :: 0 <= k < i ==>
        IsRoomOverview(out[k], rooms[k], entries, labels) && summaries[k] == out[k].summary
      invariant total == HouseTotal(rooms[..i])
      invariant roomsCount == Count(rooms[..i], isReal)
      invariant forall g :: g in counts && counts[g] == HouseGroup(rooms[..i], entries, labels, g)
    {
      var room := rooms[i];
      assert rooms[..i+1] == rooms[..i] + [room];
      GroupsOfHouse(rooms[..i], room, entries, labels);
      CountAppend(rooms[..i], room, isReal);
      var one := ComputeRoom(room, entries, labels, sort);
      RoomCounts(one, room, entries, labels);
      summaries := summaries + [one.summary];
      out := out + [one];
      total := total + |room.equipments|;
      if room.id > 0 {
        roomsCount := roomsCount + 1;
      }
      ghost var before := counts;
      counts := map[PublishedGroup := counts[PublishedGroup] + one.counts[PublishedGroup],
                    ToApplyGroup := counts[ToApplyGroup] + one.counts[ToApplyGroup],
                    BlockedGroup := counts[BlockedGroup] + one.counts[BlockedGroup],
                    OtherGroup := counts[OtherGroup] + one.counts[OtherGroup],
                    UnreadGroup := counts[UnreadGroup] + one.counts[UnreadGroup]];
      forall g: GroupKey ensures g in counts && counts[g] == before[g] + one.counts[g] {
        match g
        case PublishedGroup => case ToApplyGroup => case BlockedGroup =>
        case OtherGroup => case UnreadGroup =>
      }
    }
    assert rooms[..|rooms|] == rooms;
    RoomSummaries(out, rooms, entries, labels);
    var house := SummarizeHouse(summaries);
    HouseSummary(house, summaries, rooms, entries, labels);
    o := Overview(total, roomsCount, out, counts, house);
  }

  lemma RoomCounts(o: RoomOverview, room: Room, entries: Entries, labels: Labels)
    requires IsRoomOverview(o, room, entries, labels)
    ensures forall g :: g in o.counts && o.counts[g] == GroupTally(room.equipments, entries, labels, g)
  {
  }

  lemma RoomSummaries(out: seq<RoomOverview>, rooms: seq<Room>, entries: Entries, labels: Labels)
    requires |out| == |rooms| && forall i :: 0 <= i < |rooms| ==> IsRoomOverview(out[i], rooms[i], entries, labels)
    ensures forall i :: 0 <= i < |rooms| ==>
      IsSummary(out[i].summary, rooms[i].equipments, entries, labels) && forall s: State :: s in out[i].summary.byState
  {
  }

  lemma HouseSummary(house: Summary, summaries: seq<Summary>, rooms: seq<Room>, entries: Entries, labels: Labels)
    requires |summaries| == |rooms| && forall i :: 0 <= i < |rooms| ==>
      IsSummary(summaries[i], rooms[i].equipments, entries, labels)
    requires house.total == Sum(summaries, (x: Summary) => x.total)
      && house.read == Sum(summaries, (x: Summary) => x.read)
    requires house.presenceUnknown == Sum(summaries, (x: Summary) => x.presenceUnknown)
      && house.defects == Sum(summaries, (x: Summary) => x.defects)
    requires forall s :: s in house.byState && house.byState[s] == InState(summaries, s)
    ensures house.total == HouseTotal(rooms) && house.read == HouseRead(rooms, entries)
    ensures forall s :: s in house.byState && house.byState[s] == HouseState(rooms, entries, labels, s)
    ensures house.presenceUnknown == Sum(rooms, (r: Room) => UnknownTally(r.equipments, entries))
    ensures house.defects == Sum(rooms, (r: Room) => Defects(r.equipments, entries, labels))
  {
    hide Sum, StateTally, ReadTally, UnknownTally, Defects;
    SumAgrees(summaries, (x: Summary) => x.total, rooms, (r: Room) => |r.equipments|);
    SumAgrees(summaries, (x: Summary) => x.read, rooms, (r: Room) => ReadTally(r.equipments, entries));
    SumAgrees(summaries, (x: Summary) => x.presenceUnknown, rooms, (r: Room) => UnknownTally(r.equipments, entries));
    SumAgrees(summaries, (x: Summary) => x.defects, rooms, (r: Room) => Defects(r.equipments, entries, labels));
    forall s ensures InState(summaries, s) == HouseState(rooms, entries, labels, s) {
      SumAgrees(summaries, (x: Summary) => if s in x.byState then x.byState[s] else 0, rooms,
        (r: Room) => StateTally(r.equipments, entries, labels, s));
    }
  }

  // ---------------------------------------------------------------------------------------
  // The list behind a filter
  // ---------------------------------------------------------------------------------------

  function InGroup(rows: seq<OverviewRow>, key: GroupKey): seq<OverviewRow> {
    Filter(rows, (r: OverviewRow) => r.group == key)
  }

  function Filtered(rooms: seq<RoomOverview>, key: GroupKey): seq<OverviewRow> {
    if rooms == [] then [] else Filtered(rooms[..|rooms|-1], key) + InGroup(rooms[|rooms|-1].rows, key)
  }

  /** `filterRows`. */
  method FilterRows(o: Overview, key: GroupKey) returns (rows: seq<OverviewRow>)
    ensures rows == Filtered(o.rooms, key)
  {
    rows := [];
    for i := 0 to |o.rooms|
      invariant rows == Filtered(o.rooms[..i], key)
    {
      var room := o.rooms[i];
      ghost var before := rows;
      for j := 0 to |room.rows|
        invariant rows == before + InGroup(room.rows[..j], key)
      {
        assert room.rows[..j+1][..j] == room.rows[..j];
        if room.rows[j].group == key {
          rows := rows + [room.rows[j]];
        }
      }
      assert room.rows[..|room.rows|] == room.rows;
      assert o.rooms[..i+1][..i] == o.rooms[..i];
    }
    assert o.rooms[..|o.rooms|] == o.rooms;
  }

  lemma {:induction false} InGroupCounts(rows: seq<OverviewRow>, es: seq<Equipment>, roomId: int, entries: Entries,
      labels: Labels, key: GroupKey)
    requires |rows| == |es| && forall i :: 0 <= i < |rows| ==> IsRow(rows[i], es[i], roomId, entries, labels)
    ensures |InGroup(rows, key)| == GroupTally(es, entries, labels, key)
    ensures forall r :: r in InGroup(rows, key) ==> r.group == key
  {
    hide GroupOf, RowState, BlockedCommands;
    if rows != [] {
      InGroupCounts(rows[..|rows|-1], es[..|es|-1], roomId, entries, labels, key);
    }
  }

  /** A filter lists as many equipments as its count says, all of its group. */
  lemma FilterMatchesCount(o: Overview, rooms: seq<Room>, entries: Entries, labels: Labels, key: GroupKey)
    requires IsOverview(o, rooms, entries, labels)
    ensures |Filtered(o.rooms, key)| == o.counts[key]
    ensures forall r :: r in Filtered(o.rooms, key) ==> r.group == key
  {
    FilteredCounts(o.rooms, rooms, entries, labels, key);
  }

  lemma {:induction false} FilteredCounts(out: seq<RoomOverview>, rooms: seq<Room>, entries: Entries, labels: Labels,
      key: GroupKey)
    requires |out| == |rooms| && forall i :: 0 <= i < |rooms| ==> IsRoomOverview(out[i], rooms[i], entries, labels)
    ensures |Filtered(out, key)| == HouseGroup(rooms, entries, labels, key)
    ensures forall r :: r in Filtered(out, key) ==> r.group == key
  {
    hide GroupTally, IsRow, InGroup, IsSummary;
    if rooms != [] {
      var n := |rooms| - 1;
      FilteredCounts(out[..n], rooms[..n], entries, labels, key);
      InGroupCounts(out[n].rows, rooms[n].equipments, rooms[n].id, entries, labels, key);
    }
  }

  // ---------------------------------------------------------------------------------------
  // Chips and gauge
  // ---------------------------------------------------------------------------------------

  type Counts = m: map<GroupKey, nat> | forall g: GroupKey :: g in m
    ghost witness SomeCounts()

  ghost function SomeCounts(): (m: map<GroupKey, nat>)
    ensures forall g: GroupKey :: g in m
  {
    AllGroupsAtZero();
    NO_GROUPS
  }

  function Total(c: Counts): nat {
    c[PublishedGroup] + c[ToApplyGroup] + c[BlockedGroup] + c[OtherGroup] + c[UnreadGroup]
  }

  datatype Chip = Chip(key: GroupKey, count: nat, disabled: bool)

  const FILTERS := [PublishedGroup, BlockedGroup, ToApplyGroup, OtherGroup, UnreadGroup]

  /** Place of a group in the legend, and in the gauge. */
  function LegendRank(g: GroupKey): nat {
    match g
    case PublishedGroup => 0 case BlockedGroup => 1 case ToApplyGroup => 2 case OtherGroup => 3 case UnreadGroup => 4
  }

  function GaugeRank(g: GroupKey): nat {
    match g
    case PublishedGroup => 0 case ToApplyGroup => 1 case BlockedGroup => 2 case OtherGroup => 3 case UnreadGroup => 4
  }

  /** The counts of the groups in the list. */
  function CountOf(c: Counts, keys: seq<GroupKey>): int { Sum(keys, (g: GroupKey) => c[g]) }

  lemma CountOfStep(c: Counts, keys: seq<GroupKey>, key: GroupKey)
    ensures CountOf(c, []) == 0 && CountOf(c, keys + [key]) == CountOf(c, keys) + c[key]
  {
  }

  lemma AllGroupsCounted(c: Counts)
    ensures CountOf(c, FILTERS) == Total(c) && CountOf(c, GAUGE_ORDER) == Total(c)
  {
    hide CountOf;
    FiveCounted(c, FILTERS);
    FiveCounted(c, GAUGE_ORDER);
  }

  lemma FiveCounted(c: Counts, k: seq<GroupKey>)
    requires |k| == 5
    ensures CountOf(c, k) == c[k[0]] + c[k[1]] + c[k[2]] + c[k[3]] + c[k[4]]
  {
    hide CountOf;
    CountOfStep(c, [], k[0]);
    assert k[..0] == [];
    for i := 0 to 5
      invariant CountOf(c, k[..i])
        == (if i > 0 then c[k[0]] else 0) + (if i > 1 then c[k[1]] else 0) + (if i > 2 then c[k[2]] else 0)
                                    + (if i > 3 then c[k[3]] else 0) + (if i > 4 then c[k[4]] else 0)
    {
      CountOfStep(c, k[..i], k[i]);
      assert k[..i+1] == k[..i] + [k[i]];
    }
    assert k[..5] == k;
  }

  /** Every group is in both orders. */
  lemma OrdersAreComplete(g: GroupKey)
    ensures g in FILTERS && g in GAUGE_ORDER
  {
  }

  predicate IsChip(x: Chip, c: Counts, active: Option<GroupKey>) {
    x.count == c[x.key] && x.disabled == (c[x.key] == 0 && active != Some(x.key))
  }

  function Counted(chips: seq<Chip>): int { Sum(chips, (x: Chip) => x.count) }

  lemma CountedStep(chips: seq<Chip>, x: Chip)
    ensures Counted([]) == 0 && Counted(chips + [x]) == Counted(chips) + x.count
  {
  }

  ghost predicate HasChip(chips: seq<Chip>, g: GroupKey) { exists i :: 0 <= i < |chips| && chips[i].key == g }

  /** An empty group of unread equipments has no chip, but for the active one. */
  predicate IsOffered(c: Counts, active: Option<GroupKey>, g: GroupKey) {
    g != UnreadGroup || c[g] > 0 || active == Some(g)
  }

  /** The chips of the first `n` filters. */
  ghost predicate AreChips(chips: seq<Chip>, c: Counts, active: Option<GroupKey>, n: nat)
    requires n <= |FILTERS|
  {
    && (forall k :: 0 <= k < |chips| ==> IsChip(chips[k], c, active) && LegendRank(chips[k].key) < n)
    && (forall g :: HasChip(chips, g) <==> g in FILTERS[..n] && IsOffered(c, active, g))
    && (forall j, k :: 0 <= j < k < |chips| ==> LegendRank(chips[j].key) < LegendRank(chips[k].key))
    && Counted(chips) == CountOf(c, FILTERS[..n])
  }

  lemma NextChip(chips: seq<Chip>, c: Counts, active: Option<GroupKey>, n: nat)
    requires n < |FILTERS| && AreChips(chips, c, active, n)
    ensures var key := FILTERS[n];
      AreChips(if IsOffered(c, active, key) then chips + [Chip(key, c[key], c[key] == 0 && active != Some(key))]
        else chips, c, active, n + 1)
  {
    hide CountOf, Counted, HasChip;
    var key := FILTERS[n];
    assert FILTERS[..n+1] == FILTERS[..n] + [key] && LegendRank(key) == n;
    CountOfStep(c, FILTERS[..n], key);
    var chip := Chip(key, c[key], c[key] == 0 && active != Some(key));
    CountedStep(chips, chip);
    ChipAdded(chips, chip);
  }

  /**
    `chipsFor`: no equipment is left out of the chips, every group but an empty unread one has its chip, and a
    chip is disabled exactly when its filter lists nothing and is not the active one.
  */
  method ChipsFor(c: Counts, active: Option<GroupKey>) returns (chips: seq<Chip>)
    ensures forall i :: 0 <= i < |chips| ==> IsChip(chips[i], c, active)
    ensures forall g :: HasChip(chips, g) <==> IsOffered(c, active, g)
    ensures forall i, j :: 0 <= i < j < |chips| ==> LegendRank(chips[i].key) < LegendRank(chips[j].key)
    ensures Counted(chips) == Total(c)
  {
    hide CountOf, Counted, HasChip;
    chips := [];
    CountOfStep(c, [], UnreadGroup);
    CountedStep([], Chip(UnreadGroup, 0, false));
    NoChips();
    for i := 0 to |FILTERS|
      invariant AreChips(chips, c, active, i)
    {
      hide AreChips;
      var key := FILTERS[i];
      var count := c[key];
      var isActive := active == Some(key);
      NextChip(chips, c, active, i);
      if key == UnreadGroup && count == 0 && !isActive {
        continue;
      }
      chips := chips + [Chip(key, count, count == 0 && !isActive)];
    }
    assert FILTERS[..|FILTERS|] == FILTERS;
    AllGroupsCounted(c);
    forall g ensures HasChip(chips, g) <==> IsOffered(c, active, g) {
      OrdersAreComplete(g);
    }
  }

  lemma NoChips()
    ensures forall g :: !HasChip([], g)
  {
  }

  lemma ChipAdded(chips: seq<Chip>, x: Chip)
    ensures forall g :: HasChip(chips + [x], g) <==> HasChip(chips, g) || g == x.key
  {
    assert (chips + [x])[|chips|].key == x.key;
    forall g ensures HasChip(chips + [x], g) <==> HasChip(chips, g) || g == x.key {
      if HasChip(chips, g) {
        var i :| 0 <= i < |chips| && chips[i].key == g;
        assert (chips + [x])[i].key == g;
      }
    }
  }

  datatype Segment = Segment(key: GroupKey, count: nat, pct: real)

  const GAUGE_ORDER := [PublishedGroup, ToApplyGroup, BlockedGroup, OtherGroup, UnreadGroup]

  function Width(segments: seq<Segment>): real {
    if segments == [] then 0.0 else Width(segments[..|segments|-1]) + segments[|segments|-1].pct
  }

  ghost predicate HasSegment(segments: seq<Segment>, g: GroupKey) {
    exists i :: 0 <= i < |segments| && segments[i].key == g
  }

  lemma SegmentAdded(segments: seq<Segment>, x: Segment)
    ensures forall g :: HasSegment(segments + [x], g) <==> HasSegment(segments, g) || g == x.key
    ensures Width(segments + [x]) == Width(segments) + x.pct
  {
    assert (segments + [x])[..|segments|] == segments;
    assert (segments + [x])[|segments|].key == x.key;
    forall g ensures HasSegment(segments + [x], g) <==> HasSegment(segments, g) || g == x.key {
      if HasSegment(segments, g) {
        var i :| 0 <= i < |segments| && segments[i].key == g;
        assert (segments + [x])[i].key == g;
      }
    }
  }

  lemma NoSegments()
    ensures Width([]) == 0.0 && forall g :: !HasSegment([], g)
  {
  }

  /** Wide exactly as the counts it shows. */
  ghost predicate WideAs(width: real, count: int, total: nat) { width * total as real == 100.0 * count as real }

  lemma Widen(width: real, count: int, more: nat, total: nat)
    requires total > 0 && WideAs(width, count, total)
    ensures WideAs(width + more as real / total as real * 100.0, count + more, total)
  {
  }

  lemma Full(width: real, total: nat)
    requires total > 0 && WideAs(width, total, total)
    ensures width == 100.0
  {
  }

  /**
    `gaugeSegments`: the segments shown are those of the groups that are not empty, and together they fill the gauge.
  */
  method GaugeSegments(c: Counts, total: nat) returns (segments: seq<Segment>)
    ensures total == 0 ==> segments == []
    ensures forall i :: 0 <= i < |segments| ==>
      segments[i].count == c[segments[i].key] && WideAs(segments[i].pct, segments[i].count, total)
    ensures total > 0 ==> forall g :: HasSegment(segments, g) <==> c[g] > 0
    ensures forall i, j :: 0 <= i < j < |segments| ==> GaugeRank(segments[i].key) < GaugeRank(segments[j].key)
    ensures total > 0 && total == Total(c) ==> Width(segments) == 100.0
  {
    hide CountOf, HasSegment, Width, WideAs;
    segments := [];
    CountOfStep(c, [], UnreadGroup);
    NoSegments();
    assert WideAs(0.0, 0, total) by { NothingWide(total); }
    for i := 0 to |GAUGE_ORDER|
      invariant total == 0 ==> segments == []
      invariant forall k :: 0 <= k < |segments| ==>
        segments[k].count == c[segments[k].key] && WideAs(segments[k].pct, segments[k].count, total)
      invariant total > 0 ==> forall g :: HasSegment(segments, g) <==> g in GAUGE_ORDER[..i] && c[g] > 0
      invariant forall k :: 0 <= k < |segments| ==> GaugeRank(segments[k].key) < i
      invariant forall j, k :: 0 <= j < k < |segments| ==> GaugeRank(segments[j].key) < GaugeRank(segments[k].key)
      invariant total > 0 ==> WideAs(Width(segments), CountOf(c, GAUGE_ORDER[..i]), total)
    {
      var key := GAUGE_ORDER[i];
      var count := c[key];
      assert GAUGE_ORDER[..i+1] == GAUGE_ORDER[..i] + [key];
      CountOfStep(c, GAUGE_ORDER[..i], key);
      if count > 0 && total > 0 {
        var segment := Segment(key, count, count as real / total as real * 100.0);
        Widen(0.0, 0, count, total);
        Widen(Width(segments), CountOf(c, GAUGE_ORDER[..i]), count, total);
        SegmentAdded(segments, segment);
        segments := segments + [segment];
      }
    }
    assert GAUGE_ORDER[..|GAUGE_ORDER|] == GAUGE_ORDER;
    AllGroupsCounted(c);
    forall g: GroupKey | total > 0 ensures HasSegment(segments, g) <==> c[g] > 0 {
      OrdersAreComplete(g);
    }
    if total > 0 && total == Total(c) {
      Full(Width(segments), total);
    }
  }

  lemma NothingWide(total: nat)
    ensures WideAs(0.0, 0, total)
  {
  }
}
