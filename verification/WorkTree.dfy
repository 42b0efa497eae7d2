/**
  The tree of rooms and equipments of the work view (`buildTreeModel` of `jeedom2ha_workview.js`).
  A row is found again by the id of its equipment, so the row last listed under an id stands for all.
 */
module WorkTree {
  import opened Prelude
  import opened EquipmentState
  import opened Overview
  import opened House

  datatype RoomGroup = RoomGroup(title: Option<string>, ids: seq<int>)

  /** `search` tells which names match, when the search is not empty. */
  datatype View = View(rooms: seq<Room>, groups: seq<RoomGroup>, overview: Option<Overview>, wanted: Option<GroupKey>,
                       search: Option<string -> bool>, expanded: set<int>, selectedRoom: Option<int>,
                         selectedEq: Option<int>, roomOnly: bool)
  {
    /** Without states there is nothing to filter on. */
    function Filter(): Option<GroupKey> { if overview.Some? then wanted else None }

    predicate Active() { Filter().Some? || search.Some? }
  }

  datatype TreeRow = TreeRow(eqId: int, name: string, enabled: Option<bool>, state: Option<State>, mention: nat,
                             group: Option<GroupKey>, cause: Option<string>, eqType: string, unread: bool,
                               selected: bool)

  /** `counts` are those of the room's overview, from which its three figures are taken; None without states. */
  datatype TreeRoom =
    TreeRoom(id: int, total: nat, excluded: bool, counts: Option<map<GroupKey, nat>>, expanded: bool, selected: bool,
      rows: seq<TreeRow>)

  datatype TreeGroup = TreeGroup(title: Option<string>, rooms: seq<TreeRoom>)

  datatype TreeModel = TreeModel(groups: seq<TreeGroup>, rowCount: nat, roomCount: nat)

  // ---------------------------------------------------------------------------------------
  // What the tree shows
  // ---------------------------------------------------------------------------------------

  function LastRow(rows: seq<OverviewRow>, eqId: int): Option<OverviewRow> {
    if rows == [] then None else if rows[|rows|-1].eqId == eqId then Some(rows[|rows|-1])
    else LastRow(rows[..|rows|-1], eqId)
  }

  function LastRoom(rooms: seq<Room>, id: int): Option<Room> {
    if rooms == [] then None else if rooms[|rooms|-1].id == id then Some(rooms[|rooms|-1])
    else LastRoom(rooms[..|rooms|-1], id)
  }

  function LastOverview(rooms: seq<RoomOverview>, id: int): Option<RoomOverview> {
    if rooms == [] then None else if rooms[|rooms|-1].id == id then Some(rooms[|rooms|-1])
    else LastOverview(rooms[..|rooms|-1], id)
  }

  function OverviewOf(v: View, id: int): Option<RoomOverview> {
    if v.overview.Some? then LastOverview(v.overview.value.rooms, id) else None
  }

  function RowFor(v: View, e: Equipment, found: Option<OverviewRow>): TreeRow {
    var selected := v.selectedEq == Some(e.id);
    match found
    case None => TreeRow(e.id, e.name, e.enabled, None, 0, None, None, e.eqType, false, selected)
    case Some(r) => TreeRow(e.id, e.name, e.enabled, r.state, r.mention, Some(r.group), r.cause, e.eqType,
      r.state.None?, selected)
  }

  predicate Keeps(v: View, roomName: string, row: TreeRow) {
    && (v.Filter().Some? ==> row.group == v.Filter())
    && (v.search.Some? ==> v.search.value(roomName) || v.search.value(row.name))
  }

  function RowsOf(v: View, roomName: string, es: seq<Equipment>, known: seq<OverviewRow>): seq<TreeRow> {
    if es == [] then []
    else
      var row := RowFor(v, es[|es|-1], LastRow(known, es[|es|-1].id));
      RowsOf(v, roomName, es[..|es|-1], known) + if Keeps(v, roomName, row) then [row] else []
  }

  /** What a row shows of its equipment. */
  predicate IsTreeRow(row: TreeRow, v: View, e: Equipment, found: Option<OverviewRow>) {
    && row.eqId == e.id && row.name == e.name && row.enabled == e.enabled && row.eqType == e.eqType
    && (row.selected <==> v.selectedEq == Some(e.id))
    && (found.None? ==> row.state.None? && row.mention == 0 && row.group.None? && row.cause.None? && !row.unread)
    && (found.Some? ==>
       var r := found.value;
       && row.state == r.state && row.mention == r.mention && row.group == Some(r.group) && row.cause == r.cause
       && (row.unread <==> r.state.None?))
  }

  /** A row is kept when it is of the group wanted, and its name or its room's is searched for. */
  predicate IsKept(v: View, roomName: string, row: TreeRow) {
    && (v.overview.Some? && v.wanted.Some? ==> row.group == v.wanted)
    && (v.search.Some? ==> v.search.value(roomName) || v.search.value(row.name))
  }

  /** The rows of a room are those of its equipments that are kept, each once, in order. */
  lemma {:induction false} RowsMeaning(v: View, roomName: string, es: seq<Equipment>, known: seq<OverviewRow>)
    ensures forall row :: row in RowsOf(v, roomName, es, known) <==>
      exists i :: 0 <= i < |es| && IsTreeRow(row, v, es[i], LastRow(known, es[i].id)) && IsKept(v, roomName, row)
  {
    hide LastRow;
    if es != [] {
      var front, last := es[..|es|-1], es[|es|-1];
      RowsMeaning(v, roomName, front, known);
      var row := RowFor(v, last, LastRow(known, last.id));
      assert forall x :: IsTreeRow(x, v, last, LastRow(known, last.id)) <==> x == row;
      assert Keeps(v, roomName, row) == IsKept(v, roomName, row);
      hide RowFor, IsTreeRow, IsKept, Keeps;
      forall x ensures x in RowsOf(v, roomName, es, known) <==>
        exists i :: 0 <= i < |es| && IsTreeRow(x, v, es[i], LastRow(known, es[i].id)) && IsKept(v, roomName, x)
      {
        assert forall i :: 0 <= i < |front| ==> front[i] == es[i];
      }
    }
  }

  function KnownRows(v: View, id: int): seq<OverviewRow> {
    if OverviewOf(v, id).Some? then OverviewOf(v, id).value.rows else []
  }

  function CountsOf(v: View, id: int): Option<map<GroupKey, nat>> {
    if OverviewOf(v, id).Some? then Some(OverviewOf(v, id).value.counts) else None
  }

  /** A room is marked only when none of its equipments is. */
  predicate IsSelected(v: View, id: int) { v.selectedRoom == Some(id) && v.selectedEq.None? }

  /** The node of a room, when it is shown. */
  function Node(v: View, id: int): Option<TreeRoom> {
    match LastRoom(v.rooms, id)
    case None => None
    case Some(room) =>
      var rows := RowsOf(v, room.name, room.equipments, KnownRows(v, id));
      var expanded := v.Active() || id in v.expanded;
      if v.Active() && rows == [] then None
      else Some(TreeRoom(id, |room.equipments|, room.excluded && room.id > 0, CountsOf(v, id), expanded,
        IsSelected(v, id), if expanded then rows else []))
  }

  /** A filter, which needs states, or a search. */
  predicate Narrowed(v: View) { (v.overview.Some? && v.wanted.Some?) || v.search.Some? }

  /** A room that is known is shown, but for one that a filter or a search leaves empty; they open every room. */
  lemma NodeMeaning(v: View, id: int)
    ensures LastRoom(v.rooms, id).None? ==> Node(v, id).None?
    ensures LastRoom(v.rooms, id).Some? ==>
      var room := LastRoom(v.rooms, id).value;
      var rows := RowsOf(v, room.name, room.equipments, KnownRows(v, id));
      && (Node(v, id).None? <==> Narrowed(v) && rows == [])
      && (Node(v, id).Some? ==>
         var n := Node(v, id).value;
         && n.id == id && n.total == |room.equipments| && (n.excluded <==> room.excluded && room.id > 0)
         && (n.counts.Some? <==> OverviewOf(v, id).Some?)
         && (n.counts.Some? ==> n.counts.value == OverviewOf(v, id).value.counts)
         && (n.expanded <==> Narrowed(v) || id in v.expanded) && n.rows == (if n.expanded then rows else [])
         && (n.selected <==> v.selectedRoom == Some(id) && v.selectedEq.None?))
  {
  }

  function Nodes(v: View, ids: seq<int>): seq<TreeRoom> {
    if ids == [] then []
    else
      var node := Node(v, ids[|ids|-1]);
      Nodes(v, ids[..|ids|-1]) + if node.Some? then [node.value] else []
  }

  function GroupNodes(v: View, groups: seq<RoomGroup>): seq<TreeGroup> {
    if groups == [] then []
    else
      var nodes := Nodes(v, groups[|groups|-1].ids);
      GroupNodes(v, groups[..|groups|-1]) + if nodes != [] then [TreeGroup(groups[|groups|-1].title, nodes)] else []
  }

  function RoomIds(rooms: seq<Room>): (r: seq<int>)
    ensures |r| == |rooms| && forall i :: 0 <= i < |r| ==> r[i] == rooms[i].id
  {
    seq(|rooms|, i requires 0 <= i < |rooms| => rooms[i].id)
  }

  function AllIds(groups: seq<RoomGroup>): seq<int> {
    if groups == [] then [] else AllIds(groups[..|groups|-1]) + groups[|groups|-1].ids
  }

  function Unplaced(rooms: seq<Room>, placed: seq<int>): seq<int> {
    if rooms == [] then []
    else Unplaced(rooms[..|rooms|-1], placed) + if rooms[|rooms|-1].id in placed then [] else [rooms[|rooms|-1].id]
  }

  /** The room alone in its scope, else the groups of the grid and then the rooms they leave out. */
  function ShownGroups(v: View): seq<RoomGroup> {
    if v.roomOnly && v.selectedRoom.Some? && LastRoom(v.rooms, v.selectedRoom.value).Some? then
      [RoomGroup(None, [v.selectedRoom.value])]
    else
      var groups := if v.groups != [] then v.groups else [RoomGroup(None, RoomIds(v.rooms))];
      var rest := Unplaced(v.rooms, AllIds(groups));
      if rest != [] then groups + [RoomGroup(None, rest)] else groups
  }

  function RoomRows(rooms: seq<TreeRoom>): int { Sum(rooms, (r: TreeRoom) => |r.rows|) }

  function RowTotal(groups: seq<TreeGroup>): int { Sum(groups, (g: TreeGroup) => RoomRows(g.rooms)) }

  function RoomTotal(groups: seq<TreeGroup>): int { Sum(groups, (g: TreeGroup) => |g.rooms|) }

  // ---------------------------------------------------------------------------------------
  // The loops build it
  // ---------------------------------------------------------------------------------------

  function Get<V>(m: map<int, V>, id: int): Option<V> { if id in m then Some(m[id]) else None }

  method IndexRooms(rooms: seq<Room>) returns (byId: map<int, Room>)
    ensures forall id :: Get(byId, id) == LastRoom(rooms, id)
  {
    byId := map[];
    for i := 0 to |rooms|
      invariant forall id :: Get(byId, id) == LastRoom(rooms[..i], id)
    {
      assert rooms[..i+1][..i] == rooms[..i];
      byId := byId[rooms[i].id := rooms[i]];
    }
    assert rooms[..|rooms|] == rooms;
  }

  method IndexOverview(rooms: seq<RoomOverview>) returns (byId: map<int, RoomOverview>)
    ensures forall id :: Get(byId, id) == LastOverview(rooms, id)
  {
    byId := map[];
    for i := 0 to |rooms|
      invariant forall id :: Get(byId, id) == LastOverview(rooms[..i], id)
    {
      assert rooms[..i+1][..i] == rooms[..i];
      byId := byId[rooms[i].id := rooms[i]];
    }
    assert rooms[..|rooms|] == rooms;
  }

  method IndexRows(rows: seq<OverviewRow>) returns (byId: map<int, OverviewRow>)
    ensures forall id :: Get(byId, id) == LastRow(rows, id)
  {
    byId := map[];
    for i := 0 to |rows|
      invariant forall id :: Get(byId, id) == LastRow(rows[..i], id)
    {
      assert rows[..i+1][..i] == rows[..i];
      byId := byId[rows[i].eqId := rows[i]];
    }
    assert rows[..|rows|] == rows;
  }

  method BuildRows(v: View, roomName: string, es: seq<Equipment>, known: seq<OverviewRow>) returns (rows: seq<TreeRow>)
    ensures rows == RowsOf(v, roomName, es, known)
  {
    hide Keeps, LastRow;
    var byId := IndexRows(known);
    rows := [];
    for i := 0 to |es|
      invariant rows == RowsOf(v, roomName, es[..i], known)
    {
      assert es[..i+1][..i] == es[..i];
      var row := RowFor(v, es[i], Get(byId, es[i].id));
      if Keeps(v, roomName, row) {
        rows := rows + [row];
      }
    }
    assert es[..|es|] == es;
  }

  /** The groups that are listed, with the rooms no group lists at the end. */
  method PlaceRooms(v: View, byId: map<int, Room>) returns (groups: seq<RoomGroup>)
    requires forall id :: Get(byId, id) == LastRoom(v.rooms, id)
    ensures groups == ShownGroups(v)
  {
    hide LastRoom;
    if v.roomOnly && v.selectedRoom.Some? && v.selectedRoom.value in byId {
      return [RoomGroup(None, [v.selectedRoom.value])];
    }
    groups := if v.groups != [] then v.groups else [RoomGroup(None, RoomIds(v.rooms))];
    var placed: set<int> := {};
    for i := 0 to |groups|
      invariant forall id :: id in placed <==> id in AllIds(groups[..i])
    {
      assert groups[..i+1][..i] == groups[..i];
      placed := placed + set id | id in groups[i].ids;
    }
    assert groups[..|groups|] == groups;
    var rest: seq<int> := [];
    for i := 0 to |v.rooms|
      invariant rest == Unplaced(v.rooms[..i], AllIds(groups))
    {
      assert v.rooms[..i+1][..i] == v.rooms[..i];
      if v.rooms[i].id !in placed {
        rest := rest + [v.rooms[i].id];
      }
    }
    assert v.rooms[..|v.rooms|] == v.rooms;
    if rest != [] {
      groups := groups + [RoomGroup(None, rest)];
    }
  }

  lemma TotalsStep(groups: seq<TreeGroup>, g: TreeGroup)
    ensures RowTotal([]) == 0 && RowTotal(groups + [g]) == RowTotal(groups) + RoomRows(g.rooms)
    ensures RoomTotal([]) == 0 && RoomTotal(groups + [g]) == RoomTotal(groups) + |g.rooms|
  {
  }

  lemma RoomRowsStep(rooms: seq<TreeRoom>, r: TreeRoom)
    ensures RoomRows([]) == 0 && RoomRows(rooms + [r]) == RoomRows(rooms) + |r.rows|
  {
  }

  method BuildNode(v: View, byRoom: map<int, RoomOverview>, roomsById: map<int, Room>, id: int)
    returns (node: Option<TreeRoom>)
    requires (forall k :: Get(roomsById, k) == LastRoom(v.rooms, k)) && forall k :: Get(byRoom, k) == OverviewOf(v, k)
    ensures node == Node(v, id)
  {
    hide LastRoom, OverviewOf, RowsOf;
    assert Get(roomsById, id) == LastRoom(v.rooms, id) && Get(byRoom, id) == OverviewOf(v, id);
    if id !in roomsById {
      return None;
    }
    var room := roomsById[id];
    var rows := BuildRows(v, room.name, room.equipments, if id in byRoom then byRoom[id].rows else []);
    if v.Active() && rows == [] {
      return None;
    }
    var expanded := v.Active() || id in v.expanded;
    var counts := if id in byRoom then Some(byRoom[id].counts) else None;
    var selected := v.selectedRoom == Some(id) && v.selectedEq.None?;
    node := Some(TreeRoom(id, |room.equipments|, room.excluded && room.id > 0, counts, expanded, selected,
      if expanded then rows else []));
  }

  method BuildGroup(v: View, byRoom: map<int, RoomOverview>, roomsById: map<int, Room>, ids: seq<int>)
    returns (list: seq<TreeRoom>, rowCount: nat)
    requires (forall k :: Get(roomsById, k) == LastRoom(v.rooms, k)) && forall k :: Get(byRoom, k) == OverviewOf(v, k)
    ensures list == Nodes(v, ids) && rowCount == RoomRows(list)
  {
    hide Node, LastRoom, OverviewOf, RoomRows;
    list, rowCount := [], 0;
    RoomRowsStep([], TreeRoom(0, 0, false, None, false, false, []));
    for j := 0 to |ids|
      invariant list == Nodes(v, ids[..j]) && rowCount == RoomRows(list)
    {
      assert ids[..j+1][..j] == ids[..j];
      var node := BuildNode(v, byRoom, roomsById, ids[j]);
      if node.Some? {
        RoomRowsStep(list, node.value);
        list := list + [node.value];
        rowCount := rowCount + |node.value.rows|;
      }
    }
    assert ids[..|ids|] == ids;
  }

  method BuildTree(v: View) returns (m: TreeModel)
    ensures m.groups == GroupNodes(v, ShownGroups(v))
    ensures m.rowCount == RowTotal(m.groups) && m.roomCount == RoomTotal(m.groups)
  {
    hide ShownGroups, RowTotal, RoomTotal, RoomRows, Nodes, LastRoom;
    var byRoom: map<int, RoomOverview> := map[];
    if v.overview.Some? {
      byRoom := IndexOverview(v.overview.value.rooms);
    }
    var roomsById := IndexRooms(v.rooms);
    var groups := PlaceRooms(v, roomsById);
    var out: seq<TreeGroup> := [];
    var rowCount: nat, roomCount: nat := 0, 0;
    TotalsStep([], TreeGroup(None, []));
    RoomRowsStep([], TreeRoom(0, 0, false, None, false, false, []));
    for i := 0 to |groups|
      invariant out == GroupNodes(v, groups[..i])
      invariant rowCount == RowTotal(out) && roomCount == RoomTotal(out)
    {
      assert groups[..i+1][..i] == groups[..i];
      var list, rows := BuildGroup(v, byRoom, roomsById, groups[i].ids);
      rowCount, roomCount := rowCount + rows, roomCount + |list|;
      if list != [] {
        TotalsStep(out, TreeGroup(groups[i].title, list));
        out := out + [TreeGroup(groups[i].title, list)];
      }
    }
    assert groups[..|groups|] == groups;
    m := TreeModel(out, rowCount, roomCount);
  }

  // ---------------------------------------------------------------------------------------
  // One room: the rows under a filter and its count
  // ---------------------------------------------------------------------------------------

  /** Group of the row last listed under the id of the equipment. */
  function TreeGroupOf(e: Equipment, all: seq<Equipment>, entries: Entries, labels: Labels): GroupKey {
    if e.id in entries then GroupOfState(StateOf(entries[e.id], LastEnabled(all, e.id), labels)) else UnreadGroup
  }

  /** How many rows of the room the filter keeps. */
  function TreeTally(es: seq<Equipment>, entries: Entries, labels: Labels, g: GroupKey): nat {
    Count(es, (e: Equipment) => TreeGroupOf(e, es, entries, labels) == g)
  }

  ghost predicate TreeAgrees(es: seq<Equipment>, entries: Entries, labels: Labels) {
    forall g :: TreeTally(es, entries, labels, g) == GroupTally(es, entries, labels, g)
  }

  /** The tree counts by the path of the states. */
  lemma TreeCountsStates(es: seq<Equipment>, entries: Entries, labels: Labels)
    ensures TreeTally(es, entries, labels, PublishedGroup) == StateTally(es, entries, labels, Published)
    ensures TreeTally(es, entries, labels, ToApplyGroup) == StateTally(es, entries, labels, ToApply)
    ensures TreeTally(es, entries, labels, BlockedGroup) == StateTally(es, entries, labels, Blocked)
    ensures TreeTally(es, entries, labels, OtherGroup)
         == StateTally(es, entries, labels, Excluded) + StateTally(es, entries, labels, Disabled)
           + StateTally(es, entries, labels, NothingToPublish)
    ensures TreeTally(es, entries, labels, UnreadGroup) == |es| - ReadTally(es, entries)
  {
    hide StateOf, LastEnabled, Count;
    var group := (g: GroupKey) => (e: Equipment) => TreeGroupOf(e, es, entries, labels) == g;
    var state := (s: State) => (e: Equipment) => HasSummaryState(e, es, entries, labels, s);
    CountAgrees(es, group(PublishedGroup), es, state(Published));
    CountAgrees(es, group(ToApplyGroup), es, state(ToApply));
    CountAgrees(es, group(BlockedGroup), es, state(Blocked));
    var off := (e: Equipment) => HasSummaryState(e, es, entries, labels, Disabled)
      || HasSummaryState(e, es, entries, labels, NothingToPublish);
    CountSplit(es, state(Disabled), state(NothingToPublish), off);
    CountSplit(es, state(Excluded), off, group(OtherGroup));
    CountSplit(es, (e: Equipment) => e.id in entries, group(UnreadGroup), (e: Equipment) => true);
    CountAll(es, (e: Equipment) => true);
  }

  /**
    Under every filter and every reading the room shows as many rows as its chip says, exactly when its flags agree.
  */
  lemma TreeAgreesExactlyWhen(es: seq<Equipment>, labels: Labels)
    ensures (forall entries :: TreeAgrees(es, entries, labels)) <==> FlagsAgree(es)
  {
    hide FlagsAgree, GroupTally, TreeTally, StateTally;
    forall entries ensures TreeAgrees(es, entries, labels) <==> PathsAgree(es, entries, labels) {
      TreeCountsStates(es, entries, labels);
      if PathsAgree(es, entries, labels) {
        forall g ensures TreeTally(es, entries, labels, g) == GroupTally(es, entries, labels, g) {
          match g
          case PublishedGroup => case ToApplyGroup => case BlockedGroup =>
          case OtherGroup => case UnreadGroup =>
        }
      }
    }
    hide PathsAgree, TreeAgrees;
    PathsAgreeExactlyWhen(es, labels);
  }

  /** The rows found by id are those of the last flag listed. */
  lemma {:induction false} LastRowIsLast(rows: seq<OverviewRow>, es: seq<Equipment>, roomId: int, entries: Entries,
      labels: Labels, e: Equipment)
    requires |rows| == |es| && forall i :: 0 <= i < |rows| ==> IsRow(rows[i], es[i], roomId, entries, labels)
    requires exists i :: 0 <= i < |es| && es[i].id == e.id
    ensures LastRow(rows, e.id).Some? && LastRow(rows, e.id).value.group == TreeGroupOf(e, es, entries, labels)
  {
    hide StateOf;
    var n := |es| - 1;
    assert IsRow(rows[n], es[n], roomId, entries, labels);
    if es[n].id != e.id {
      var i :| 0 <= i < |es| && es[i].id == e.id;
      assert es[..n][i].id == e.id;
      LastRowIsLast(rows[..n], es[..n], roomId, entries, labels, e);
    }
  }

  /** The rows kept by a filter alone are those the tally counts. */
  lemma {:induction false} RowsCounted(v: View, name: string, es: seq<Equipment>, known: seq<OverviewRow>,
      all: seq<Equipment>, entries: Entries, labels: Labels)
    requires v.search.None? && v.Filter().Some?
    requires forall i :: 0 <= i < |es| ==>
      LastRow(known, es[i].id).Some? && LastRow(known, es[i].id).value.group == TreeGroupOf(es[i], all, entries, labels)
    ensures |RowsOf(v, name, es, known)|
      == Count(es, (e: Equipment) => TreeGroupOf(e, all, entries, labels) == v.Filter().value)
  {
    hide LastRow, TreeGroupOf;
    if es != [] {
      RowsCounted(v, name, es[..|es|-1], known, all, entries, labels);
    }
  }

  // ---------------------------------------------------------------------------------------
  // The whole tree
  // ---------------------------------------------------------------------------------------

  /** Rows under the node of a room. */
  function Weight(v: View, id: int): int { if Node(v, id).Some? then |Node(v, id).value.rows| else 0 }

  lemma {:induction false} NodesWeigh(v: View, ids: seq<int>)
    ensures RoomRows(Nodes(v, ids)) == Sum(ids, (id: int) => Weight(v, id))
  {
    hide Node;
    if ids != [] {
      var n := |ids| - 1;
      NodesWeigh(v, ids[..n]);
      assert Sum(ids, (id: int) => Weight(v, id)) == Sum(ids[..n], (id: int) => Weight(v, id)) + Weight(v, ids[n]);
      if Node(v, ids[n]).Some? {
        RoomRowsStep(Nodes(v, ids[..n]), Node(v, ids[n]).value);
      } else {
        assert Nodes(v, ids) == Nodes(v, ids[..n]);
      }
    }
  }

  lemma {:induction false} GroupsWeigh(v: View, groups: seq<RoomGroup>)
    ensures RowTotal(GroupNodes(v, groups)) == Sum(AllIds(groups), (id: int) => Weight(v, id))
  {
    if groups != [] {
      var n := |groups| - 1;
      var before, nodes := GroupNodes(v, groups[..n]), Nodes(v, groups[n].ids);
      GroupsWeigh(v, groups[..n]);
      NodesWeigh(v, groups[n].ids);
      assert AllIds(groups) == AllIds(groups[..n]) + groups[n].ids;
      assert GroupNodes(v, groups) == before + if nodes != [] then [TreeGroup(groups[n].title, nodes)] else [];
      hide Nodes, RoomRows, Weight, Sum, RowTotal, GroupNodes, AllIds;
      SumConcat(AllIds(groups[..n]), groups[n].ids, (id: int) => Weight(v, id));
      RoomRowsStep([], TreeRoom(0, 0, false, None, false, false, []));
      if nodes != [] {
        TotalsStep(before, TreeGroup(groups[n].title, nodes));
      } else {
        assert GroupNodes(v, groups) == before + [] == before;
      }
    }
  }

  lemma {:induction false} UnplacedRooms(rooms: seq<Room>, placed: seq<int>)
    requires Distinct(RoomIds(rooms))
    ensures Distinct(Unplaced(rooms, placed))
    ensures forall id :: id in Unplaced(rooms, placed) <==> id in RoomIds(rooms) && id !in placed
  {
    if rooms != [] {
      var n := |rooms| - 1;
      assert RoomIds(rooms[..n]) == RoomIds(rooms)[..n];
      UnplacedRooms(rooms[..n], placed);
      assert RoomIds(rooms) == RoomIds(rooms[..n]) + [rooms[n].id];
    }
  }

  lemma {:induction false} LastRoomUnknown(rooms: seq<Room>, id: int)
    ensures LastRoom(rooms, id).Some? <==> id in RoomIds(rooms)
  {
    if rooms != [] {
      LastRoomUnknown(rooms[..|rooms|-1], id);
      assert RoomIds(rooms) == RoomIds(rooms[..|rooms|-1]) + [rooms[|rooms|-1].id];
    }
  }

  /** The groups shown list every room once. */
  lemma EveryRoomOnce(v: View)
    requires Distinct(RoomIds(v.rooms)) && Distinct(AllIds(v.groups)) && !v.roomOnly
    ensures Distinct(AllIds(ShownGroups(v))) && forall id :: id in RoomIds(v.rooms) ==> id in AllIds(ShownGroups(v))
  {
    hide Unplaced, RoomIds, LastRoom, AllIds;
    AllIdsStep([], RoomGroup(None, []));
    var groups := if v.groups != [] then v.groups else [RoomGroup(None, RoomIds(v.rooms))];
    if v.groups == [] {
      AllIdsStep([], groups[0]);
      assert groups == [] + [groups[0]];
    }
    var rest := Unplaced(v.rooms, AllIds(groups));
    UnplacedRooms(v.rooms, AllIds(groups));
    AllIdsStep(groups, RoomGroup(None, rest));
    assert AllIds(ShownGroups(v)) == AllIds(groups) + rest;
    forall i | 0 <= i < |rest| ensures rest[i] !in AllIds(groups) {
      assert rest[i] in rest;
    }
    DistinctConcat(AllIds(groups), rest);
  }

  lemma AllIdsStep(groups: seq<RoomGroup>, g: RoomGroup)
    ensures AllIds(groups + [g]) == AllIds(groups) + g.ids
    ensures AllIds([]) == []
  {
  }

  /** The node of a room under a filter alone. */
  lemma WeightOfRoom(v: View, entries: Entries, labels: Labels, i: nat)
    requires Distinct(RoomIds(v.rooms)) && i < |v.rooms|
    requires v.overview.Some? && IsOverview(v.overview.value, v.rooms, entries, labels) && v.wanted.Some?
      && v.search.None?
    ensures Weight(v, v.rooms[i].id) == TreeTally(v.rooms[i].equipments, entries, labels, v.wanted.value)
  {
    hide HouseGroup, HouseState, HouseTotal, HouseRead, IsSummary, StateOf, LastRow, RowsOf, TreeGroupOf;
    var room, o := v.rooms[i], v.overview.value;
    FoundRoom(v.rooms, i);
    FoundOverview(o.rooms, v.rooms, i);
    assert IsRoomOverview(o.rooms[i], room, entries, labels);
    forall k | 0 <= k < |room.equipments|
      ensures var found := LastRow(o.rooms[i].rows, room.equipments[k].id);
        found.Some? && found.value.group == TreeGroupOf(room.equipments[k], room.equipments, entries, labels)
    {
      LastRowIsLast(o.rooms[i].rows, room.equipments, room.id, entries, labels, room.equipments[k]);
    }
    RowsCounted(v, room.name, room.equipments, o.rooms[i].rows, room.equipments, entries, labels);
  }

  lemma {:induction false} FoundRoom(rooms: seq<Room>, i: nat)
    requires Distinct(RoomIds(rooms)) && i < |rooms|
    ensures LastRoom(rooms, rooms[i].id) == Some(rooms[i])
  {
    var n := |rooms| - 1;
    if i < n {
      assert RoomIds(rooms)[i] != RoomIds(rooms)[n];
      assert RoomIds(rooms[..n]) == RoomIds(rooms)[..n];
      FoundRoom(rooms[..n], i);
    }
  }

  lemma {:induction false} FoundOverview(out: seq<RoomOverview>, rooms: seq<Room>, i: nat)
    requires Distinct(RoomIds(rooms)) && i < |rooms| == |out| && forall k :: 0 <= k < |rooms| ==>
      out[k].id == rooms[k].id
    ensures LastOverview(out, rooms[i].id) == Some(out[i])
  {
    var n := |rooms| - 1;
    if i < n {
      assert RoomIds(rooms)[i] != RoomIds(rooms)[n];
      assert RoomIds(rooms[..n]) == RoomIds(rooms)[..n];
      FoundOverview(out[..n], rooms[..n], i);
    }
  }

  function HouseTree(rooms: seq<Room>, entries: Entries, labels: Labels, g: GroupKey): int {
    Sum(rooms, (r: Room) => TreeTally(r.equipments, entries, labels, g))
  }

  /** Under a filter alone, every room is listed once, whatever rooms the grid lists, forgets, or does not know. */
  lemma TreeRowsAreCounted(v: View, entries: Entries, labels: Labels)
    requires Distinct(RoomIds(v.rooms)) && Distinct(AllIds(v.groups)) && !v.roomOnly
    requires v.overview.Some? && IsOverview(v.overview.value, v.rooms, entries, labels)
    requires v.wanted.Some? && v.search.None?
    ensures RowTotal(GroupNodes(v, ShownGroups(v))) == HouseTree(v.rooms, entries, labels, v.wanted.value)
  {
    hide Weight, ShownGroups, RowTotal, GroupNodes, AllIds, LastRoom, TreeTally;
    var weight: int -> int := (id: int) => Weight(v, id);
    GroupsWeigh(v, ShownGroups(v));
    EveryRoomOnce(v);
    forall id | id in AllIds(ShownGroups(v)) && id !in RoomIds(v.rooms) ensures weight(id) == 0 {
      LastRoomUnknown(v.rooms, id);
      UnknownWeighsNothing(v, id);
    }
    SumOverKeys(AllIds(ShownGroups(v)), RoomIds(v.rooms), weight);
    var tally := (r: Room) => TreeTally(r.equipments, entries, labels, v.wanted.value);
    forall i | 0 <= i < |v.rooms| ensures weight(RoomIds(v.rooms)[i]) == tally(v.rooms[i]) {
      WeightOfRoom(v, entries, labels, i);
    }
    SumAgrees(RoomIds(v.rooms), weight, v.rooms, tally);
  }

  /** The whole tree has as many rows as the filter's chip says. */
  lemma TreeMatchesHouseChip(v: View, entries: Entries, labels: Labels)
    requires Distinct(RoomIds(v.rooms)) && Distinct(AllIds(v.groups)) && !v.roomOnly
    requires v.overview.Some? && IsOverview(v.overview.value, v.rooms, entries, labels)
    requires v.wanted.Some? && v.search.None?
    requires multiset(HouseOwnOff(v.rooms)) == multiset(HouseTreeOff(v.rooms))
    ensures RowTotal(GroupNodes(v, ShownGroups(v))) == v.overview.value.counts[v.wanted.value]
  {
    hide RowTotal, GroupNodes, ShownGroups, HouseOwnOff, HouseTreeOff, HouseTree, HouseGroup;
    TreeRowsAreCounted(v, entries, labels);
    HouseAgreesExactlyWhen(v.rooms, labels);
    assert HouseAgrees(v.rooms, entries, labels);
  }

  // ---------------------------------------------------------------------------------------
  // The house: rooms whose flags disagree may make up for each other
  // ---------------------------------------------------------------------------------------

  /** The ids listed with a disabled flag of their own. */
  function OwnOff(es: seq<Equipment>): seq<int> { OffIds(es, (e: Equipment) => e.enabled == Some(false)) }

  /** The ids listed that the tree takes as disabled: the flag last listed for them in the room is. */
  function TreeOff(es: seq<Equipment>): seq<int> { OffIds(es, (e: Equipment) => LastEnabled(es, e.id) == Some(false)) }

  function HouseOwnOff(rooms: seq<Room>): seq<int> {
    if rooms == [] then [] else HouseOwnOff(rooms[..|rooms|-1]) + OwnOff(rooms[|rooms|-1].equipments)
  }

  function HouseTreeOff(rooms: seq<Room>): seq<int> {
    if rooms == [] then []
    else
      var es := rooms[|rooms|-1].equipments;
      HouseTreeOff(rooms[..|rooms|-1]) + TreeOff(es)
  }

  ghost predicate HouseAgrees(rooms: seq<Room>, entries: Entries, labels: Labels) {
    forall g :: HouseTree(rooms, entries, labels, g) == HouseGroup(rooms, entries, labels, g)
  }

  function GroupIf(id: int, off: bool, entries: Entries, labels: Labels): GroupKey {
    if id in entries then GroupOfState(StateOf(entries[id], if off then Some(false) else None, labels)) else UnreadGroup
  }

  function Bit(b: bool): int { if b then 1 else 0 }

  /** What a disabled flag changes to the count of a group. */
  function Shift(id: int, entries: Entries, labels: Labels, g: GroupKey): int {
    Bit(GroupIf(id, true, entries, labels) == g) - Bit(GroupIf(id, false, entries, labels) == g)
  }

  /** The count of a group if no flag were disabled. */
  function Enabled(es: seq<Equipment>, entries: Entries, labels: Labels, g: GroupKey): nat {
    Count(es, (e: Equipment) => GroupIf(e.id, false, entries, labels) == g)
  }

  function HouseEnabled(rooms: seq<Room>, entries: Entries, labels: Labels, g: GroupKey): int {
    Sum(rooms, (r: Room) => Enabled(r.equipments, entries, labels, g))
  }

  lemma OnlyOffMatters(e: Equipment, all: seq<Equipment>, entries: Entries, labels: Labels)
    ensures GroupOf(e, entries, labels) == GroupIf(e.id, e.enabled == Some(false), entries, labels)
    ensures TreeGroupOf(e, all, entries, labels)
      == GroupIf(e.id, LastEnabled(all, e.id) == Some(false), entries, labels)
  {
    hide StateOf, LastEnabled;
    if e.id in entries {
      var off := if e.enabled == Some(false) then Some(false) else None;
      OnlyDisabledCounts(entries[e.id], e.enabled, off, labels);
      var treeOff := if LastEnabled(all, e.id) == Some(false) then Some(false) else None;
      OnlyDisabledCounts(entries[e.id], LastEnabled(all, e.id), treeOff, labels);
    }
  }

  /** How many are in the group when the flag of each is the one given. */
  function GroupWith(es: seq<Equipment>, off: Equipment -> bool, entries: Entries, labels: Labels, g: GroupKey): nat {
    Count(es, (e: Equipment) => GroupIf(e.id, off(e), entries, labels) == g)
  }

  function OffIds(es: seq<Equipment>, off: Equipment -> bool): seq<int> {
    if es == [] then []
    else
      var last := es[|es|-1];
      OffIds(es[..|es|-1], off) + if off(last) then [last.id] else []
  }

  lemma {:induction false} GroupShifts(es: seq<Equipment>, off: Equipment -> bool, entries: Entries, labels: Labels,
      g: GroupKey)
    ensures GroupWith(es, off, entries, labels, g)
      == Enabled(es, entries, labels, g) + Sum(OffIds(es, off), (id: int) => Shift(id, entries, labels, g))
  {
    hide GroupIf;
    if es != [] {
      var shift := (id: int) => Shift(id, entries, labels, g);
      var front, last := es[..|es|-1], es[|es|-1];
      GroupShifts(front, off, entries, labels, g);
      SumAppend(OffIds(front, off), last.id, shift);
      assert OffIds(front, off) + [] == OffIds(front, off);
    }
  }

  lemma RoomShifts(es: seq<Equipment>, entries: Entries, labels: Labels, g: GroupKey)
    ensures var shift := (id: int) => Shift(id, entries, labels, g); var base := Enabled(es, entries, labels, g);
      && GroupTally(es, entries, labels, g) == base + Sum(OwnOff(es), shift)
      && TreeTally(es, entries, labels, g) == base + Sum(TreeOff(es), shift)
  {
    hide GroupIf, GroupOf, TreeGroupOf, LastEnabled, Count, Shift, OffIds;
    var own, tree := (e: Equipment) => e.enabled == Some(false), (e: Equipment) => LastEnabled(es, e.id) == Some(false);
    GroupShifts(es, own, entries, labels, g);
    GroupShifts(es, tree, entries, labels, g);
    forall e ensures GroupOf(e, entries, labels) == GroupIf(e.id, own(e), entries, labels)
      && TreeGroupOf(e, es, entries, labels) == GroupIf(e.id, tree(e), entries, labels)
    {
      OnlyOffMatters(e, es, entries, labels);
    }
    CountAgrees(es, (e: Equipment) => GroupOf(e, entries, labels) == g,
                es, (e: Equipment) => GroupIf(e.id, own(e), entries, labels) == g);
    CountAgrees(es, (e: Equipment) => TreeGroupOf(e, es, entries, labels) == g,
                es, (e: Equipment) => GroupIf(e.id, tree(e), entries, labels) == g);
  }

  lemma {:induction false} HouseShifts(rooms: seq<Room>, entries: Entries, labels: Labels, g: GroupKey)
    ensures var shift := (id: int) => Shift(id, entries, labels, g);
      var base := HouseEnabled(rooms, entries, labels, g);
      && HouseGroup(rooms, entries, labels, g) == base + Sum(HouseOwnOff(rooms), shift)
      && HouseTree(rooms, entries, labels, g) == base + Sum(HouseTreeOff(rooms), shift)
  {
    hide Shift, GroupTally, Enabled, OwnOff, TreeOff, TreeGroupOf;
    if rooms != [] {
      var shift := (id: int) => Shift(id, entries, labels, g);
      var front, es := rooms[..|rooms|-1], rooms[|rooms|-1].equipments;
      HouseShifts(front, entries, labels, g);
      RoomShifts(es, entries, labels, g);
      SumConcat(HouseOwnOff(front), OwnOff(es), shift);
      SumConcat(HouseTreeOff(front), TreeOff(es), shift);
    }
  }

  lemma {:induction false} CountedDown(ids: seq<int>, id: int, f: int -> int)
    requires forall k :: f(k) == if k == id then -1 else 0
    ensures Sum(ids, f) == -(multiset(ids)[id] as int)
  {
    if ids != [] {
      var n := |ids| - 1;
      CountedDown(ids[..n], id, f);
      assert ids == ids[..n] + [ids[n]];
    }
  }

  lemma SameCounts(a: seq<int>, b: seq<int>)
    ensures (forall id :: multiset(a)[id] == multiset(b)[id]) ==> multiset(a) == multiset(b)
  {
    if forall id :: multiset(a)[id] == multiset(b)[id] {
      assert multiset(a) == multiset(b);
    }
  }

  /** The reading that tells the two lists apart: one blocked equipment. */
  lemma BlockedShift(id: int, labels: Labels)
    ensures forall k :: Shift(k, map[id := BLOCKED_TREE], labels, BlockedGroup) == if k == id then -1 else 0
  {
    hide StateOf;
    BlockedTreeIsBlocked(Some(false), labels);
    BlockedTreeIsBlocked(None, labels);
  }

  /**
    Over the house, the rows of the tree are those of the chips under every filter and every reading, exactly when the
    ids that are listed as disabled are, as many times each, those that the tree takes as disabled.
  */
  lemma HouseAgreesExactlyWhen(rooms: seq<Room>, labels: Labels)
    ensures (forall entries :: HouseAgrees(rooms, entries, labels))
      <==> multiset(HouseOwnOff(rooms)) == multiset(HouseTreeOff(rooms))
  {
    hide HouseOwnOff, HouseTreeOff, HouseGroup, HouseTree, Shift, Sum;
    var own, tree := HouseOwnOff(rooms), HouseTreeOff(rooms);
    SameCounts(own, tree);
    if multiset(own) == multiset(tree) {
      forall entries, g ensures HouseTree(rooms, entries, labels, g) == HouseGroup(rooms, entries, labels, g) {
        HouseShifts(rooms, entries, labels, g);
        SumOfSame(own, tree, (id: int) => Shift(id, entries, labels, g));
      }
    } else {
      var id :| multiset(own)[id] != multiset(tree)[id];
      var entries: Entries := map[id := BLOCKED_TREE];
      BlockedShift(id, labels);
      HouseShifts(rooms, entries, labels, BlockedGroup);
      CountedDown(own, id, (k: int) => Shift(k, entries, labels, BlockedGroup));
      CountedDown(tree, id, (k: int) => Shift(k, entries, labels, BlockedGroup));
      assert !HouseAgrees(rooms, entries, labels);
    }
  }

  /** The house counts by group are its counts by state plus the unread. */
  ghost predicate HousePaths(rooms: seq<Room>, entries: Entries, labels: Labels) {
    var n := (g: GroupKey) => HouseGroup(rooms, entries, labels, g);
    var s := (s: State) => HouseState(rooms, entries, labels, s);
    && n(PublishedGroup) == s(Published) && n(ToApplyGroup) == s(ToApply) && n(BlockedGroup) == s(Blocked)
    && n(OtherGroup) == s(Excluded) + s(Disabled) + s(NothingToPublish)
    && n(UnreadGroup) == HouseTotal(rooms) - HouseRead(rooms, entries)
  }

  /** The tree of the house counts by the path of the states. */
  lemma {:induction false} HouseTreeCountsStates(rooms: seq<Room>, entries: Entries, labels: Labels)
    ensures var n := (g: GroupKey) => HouseTree(rooms, entries, labels, g);
      var s := (s: State) => HouseState(rooms, entries, labels, s);
      && n(PublishedGroup) == s(Published) && n(ToApplyGroup) == s(ToApply) && n(BlockedGroup) == s(Blocked)
      && n(OtherGroup) == s(Excluded) + s(Disabled) + s(NothingToPublish)
      && n(UnreadGroup) == HouseTotal(rooms) - HouseRead(rooms, entries)
  {
    hide TreeTally, StateTally, ReadTally;
    if rooms != [] {
      HouseTreeCountsStates(rooms[..|rooms|-1], entries, labels);
      TreeCountsStates(rooms[|rooms|-1].equipments, entries, labels);
    }
  }

  /** The two paths of the house agree on every reading exactly under the same condition. */
  lemma HousePathsAgreeExactlyWhen(rooms: seq<Room>, labels: Labels)
    ensures (forall entries :: HousePaths(rooms, entries, labels))
      <==> multiset(HouseOwnOff(rooms)) == multiset(HouseTreeOff(rooms))
  {
    hide HouseOwnOff, HouseTreeOff, HouseGroup, HouseTree, HouseState, HouseTotal, HouseRead;
    forall entries ensures HousePaths(rooms, entries, labels) <==> HouseAgrees(rooms, entries, labels) {
      HouseTreeCountsStates(rooms, entries, labels);
      if HousePaths(rooms, entries, labels) {
        forall g ensures HouseTree(rooms, entries, labels, g) == HouseGroup(rooms, entries, labels, g) {
          match g
          case PublishedGroup => case ToApplyGroup => case BlockedGroup =>
          case OtherGroup => case UnreadGroup =>
        }
      }
    }
    hide HousePaths, HouseAgrees;
    HouseAgreesExactlyWhen(rooms, labels);
  }

  lemma {:induction false} OffIdsAgree(es: seq<Equipment>, off: Equipment -> bool, off': Equipment -> bool)
    requires forall i :: 0 <= i < |es| ==> off(es[i]) == off'(es[i])
    ensures OffIds(es, off) == OffIds(es, off')
  {
    if es != [] {
      OffIdsAgree(es[..|es|-1], off, off');
    }
  }

  /** Rooms whose flags all agree meet the condition. */
  lemma {:induction false} AgreeingRooms(rooms: seq<Room>)
    requires forall i :: 0 <= i < |rooms| ==> FlagsAgree(rooms[i].equipments)
    ensures HouseOwnOff(rooms) == HouseTreeOff(rooms)
  {
    if rooms != [] {
      var es := rooms[|rooms|-1].equipments;
      AgreeingRooms(rooms[..|rooms|-1]);
      hide LastEnabled, OffIds;
      forall i | 0 <= i < |es| ensures (es[i].enabled == Some(false)) == (LastEnabled(es, es[i].id) == Some(false)) {
        LastEnabledOccurs(es, es[i].id);
      }
      OffIdsAgree(es, (e: Equipment) => e.enabled == Some(false),
                  (e: Equipment) => LastEnabled(es, e.id) == Some(false));
    }
  }

  lemma FlagsMakeTreeAgree(es: seq<Equipment>, entries: Entries, labels: Labels, g: GroupKey)
    requires FlagsAgree(es)
    ensures TreeTally(es, entries, labels, g) == GroupTally(es, entries, labels, g)
  {
    hide FlagsAgree, GroupTally, TreeTally;
    TreeAgreesExactlyWhen(es, labels);
    assert TreeAgrees(es, entries, labels);
  }

  lemma UnknownWeighsNothing(v: View, id: int)
    requires LastRoom(v.rooms, id).None?
    ensures Weight(v, id) == 0
  {
  }

  /** In the scope of one room, the tree has as many rows as that room's chip says. */
  lemma TreeMatchesRoomChip(v: View, entries: Entries, labels: Labels, i: nat)
    requires Distinct(RoomIds(v.rooms)) && i < |v.rooms| && v.roomOnly && v.selectedRoom == Some(v.rooms[i].id)
    requires v.overview.Some? && IsOverview(v.overview.value, v.rooms, entries, labels) && v.wanted.Some?
      && v.search.None?
    requires FlagsAgree(v.rooms[i].equipments)
    ensures RowTotal(GroupNodes(v, ShownGroups(v))) == v.overview.value.rooms[i].counts[v.wanted.value]
  {
    hide Weight, RowTotal, GroupNodes, AllIds, GroupTally, TreeTally, FlagsAgree, LastRoom, IsSummary;
    var id := v.rooms[i].id;
    FoundRoom(v.rooms, i);
    assert ShownGroups(v) == [] + [RoomGroup(None, [id])];
    GroupsWeigh(v, ShownGroups(v));
    AllIdsStep([], RoomGroup(None, [id]));
    assert AllIds(ShownGroups(v)) == [] + [id];
    SumAppend([], id, (k: int) => Weight(v, k));
    WeightOfRoom(v, entries, labels, i);
    FlagsMakeTreeAgree(v.rooms[i].equipments, entries, labels, v.wanted.value);
    assert IsRoomOverview(v.overview.value.rooms[i], v.rooms[i], entries, labels);
  }
}
