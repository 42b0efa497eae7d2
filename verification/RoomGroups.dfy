/**
  The grouping of the rooms by their direct parent (`j2ha_group_rooms` of `jeedom2ha_overview_helpers.php`).
  Nothing is assumed of the parent relation: unknown parents, several parents of one id and cycles included.
 */
module RoomGroups {
  import opened Prelude
  import opened Text

  /** A room, or an object without equipment of its own. */
  datatype Room = Room(id: int, name: string, father: Option<int>)

  datatype Group = Group(title: Option<string>, rooms: seq<Room>)

  // ---------------------------------------------------------------------------------------
  // Parents
  // ---------------------------------------------------------------------------------------

  function Names(known: map<int, string>, rooms: seq<Room>, realOnly: bool): map<int, string> {
    if rooms == [] then known
    else
      var last := rooms[|rooms|-1];
      var before := Names(known, rooms[..|rooms|-1], realOnly);
      if realOnly && last.id <= 0 then before else before[last.id := last.name]
  }

  function Fathers(known: map<int, int>, rooms: seq<Room>, realOnly: bool): map<int, int> {
    if rooms == [] then known
    else
      var last := rooms[|rooms|-1];
      var before := Fathers(known, rooms[..|rooms|-1], realOnly);
      if realOnly && last.id <= 0 then before else before[last.id := last.father.GetOr(0)]
  }

  datatype Family = Family(names: map<int, string>, fathers: map<int, int>)
  {
    /** The parent that is known under a name, zero without one. */
    function KnownFather(id: int): (f: int)
      ensures f == 0 || (f > 0 && f != id && f in names)
    {
      var f := if id in fathers then fathers[id] else 0;
      if f > 0 && f != id && f in names then f else 0
    }
  }

  /** The known parent is the parent that is listed, another than the room and known under a name. */
  lemma KnownFatherMeaning(family: Family, id: int, f: int)
    ensures f > 0 ==> (family.KnownFather(id) == f <==>
      id in family.fathers && family.fathers[id] == f && f != id && f in family.names)
  {
  }

  function FamilyOf(rooms: seq<Room>, ancestors: seq<Room>): Family {
    Family(Names(Names(map[], ancestors, false), rooms, true), Fathers(Fathers(map[], ancestors, false), rooms, true))
  }

  /** The position of the last of the rooms with this id. */
  predicate IsLastWith(rooms: seq<Room>, id: int, i: int) {
    0 <= i < |rooms| && rooms[i].id == id && forall j :: i < j < |rooms| ==> rooms[j].id != id
  }

  predicate HasId(rooms: seq<Room>, id: int) { exists i :: 0 <= i < |rooms| && rooms[i].id == id }

  /** The family knows this id with the name and the parent of this room. */
  predicate KnownAs(family: Family, id: int, r: Room) {
    id in family.names && id in family.fathers && family.names[id] == r.name && family.fathers[id] == r.father.GetOr(0)
  }

  /** What is known of an id: the last real room with it speaks for it, else the last ancestor with it, else nobody. */
  ghost predicate SpokenFor(family: Family, rooms: seq<Room>, ancestors: seq<Room>, id: int) {
    var own := id > 0 && HasId(rooms, id);
    && (forall i :: own && IsLastWith(rooms, id, i) ==> KnownAs(family, id, rooms[i]))
    && (forall i :: !own && IsLastWith(ancestors, id, i) ==> KnownAs(family, id, ancestors[i]))
    && (id in family.names <==> id in family.fathers)
    && (id in family.names <==> own || HasId(ancestors, id))
  }

  /** A room added at the end with another id changes nothing for this one. */
  lemma AnotherIdIsAdded(rooms: seq<Room>, last: Room, id: int)
    requires last.id != id
    ensures HasId(rooms + [last], id) == HasId(rooms, id)
    ensures forall i :: IsLastWith(rooms + [last], id, i) ==> IsLastWith(rooms, id, i)
  {
    var all := rooms + [last];
    assert forall i :: 0 <= i < |rooms| ==> all[i] == rooms[i];
  }

  lemma {:induction false} LastSpeaks(names: map<int, string>, fathers: map<int, int>, rooms: seq<Room>, realOnly: bool,
      id: int)
    ensures var family := Family(Names(names, rooms, realOnly), Fathers(fathers, rooms, realOnly));
      var own := HasId(rooms, id) && (realOnly ==> id > 0);
      && (forall i :: own && IsLastWith(rooms, id, i) ==> KnownAs(family, id, rooms[i]))
      && (own ==> id in family.names && id in family.fathers)
      && (!own ==> (id in family.names <==> id in names) && (id in family.fathers <==> id in fathers))
      && (!own && id in names && id in fathers ==> family.names[id] == names[id] && family.fathers[id] == fathers[id])
  {
    if rooms != [] {
      var front, last := rooms[..|rooms|-1], rooms[|rooms|-1];
      assert rooms == front + [last];
      LastSpeaks(names, fathers, front, realOnly, id);
      if last.id == id {
        assert HasId(rooms, id) && forall i :: IsLastWith(rooms, id, i) ==> i == |rooms| - 1;
        hide HasId, IsLastWith;
      } else {
        AnotherIdIsAdded(front, last, id);
        Within(front, id);
        hide HasId, IsLastWith;
      }
    }
  }

  lemma Within(rooms: seq<Room>, id: int)
    ensures forall i :: IsLastWith(rooms, id, i) ==> 0 <= i < |rooms|
  {
  }

  lemma FamilyMeaning(rooms: seq<Room>, ancestors: seq<Room>, id: int)
    ensures SpokenFor(FamilyOf(rooms, ancestors), rooms, ancestors, id)
  {
    LastSpeaks(map[], map[], ancestors, false, id);
    LastSpeaks(Names(map[], ancestors, false), Fathers(map[], ancestors, false), rooms, true, id);
  }

  /** The rooms that are the known parent of a room. */
  function Heads(family: Family, rooms: seq<Room>): set<int> {
    set i | 0 <= i < |rooms| && rooms[i].id > 0 && family.KnownFather(rooms[i].id) > 0 ::
      family.KnownFather(rooms[i].id)
  }

  method IndexFamily(rooms: seq<Room>, ancestors: seq<Room>) returns (family: Family)
    ensures family == FamilyOf(rooms, ancestors)
    ensures forall id :: SpokenFor(family, rooms, ancestors, id)
  {
    var names: map<int, string> := map[];
    var fathers: map<int, int> := map[];
    for i := 0 to |ancestors|
      invariant names == Names(map[], ancestors[..i], false) && fathers == Fathers(map[], ancestors[..i], false)
    {
      assert ancestors[..i+1][..i] == ancestors[..i];
      names := names[ancestors[i].id := ancestors[i].name];
      fathers := fathers[ancestors[i].id := ancestors[i].father.GetOr(0)];
    }
    assert ancestors[..|ancestors|] == ancestors;
    ghost var names0, fathers0 := names, fathers;
    for i := 0 to |rooms|
      invariant names == Names(names0, rooms[..i], true) && fathers == Fathers(fathers0, rooms[..i], true)
    {
      assert rooms[..i+1][..i] == rooms[..i];
      if rooms[i].id <= 0 {
        continue;
      }
      names := names[rooms[i].id := rooms[i].name];
      fathers := fathers[rooms[i].id := rooms[i].father.GetOr(0)];
    }
    assert rooms[..|rooms|] == rooms;
    family := Family(names, fathers);
    forall id ensures SpokenFor(family, rooms, ancestors, id) {
      FamilyMeaning(rooms, ancestors, id);
    }
  }

  // ---------------------------------------------------------------------------------------
  // Titles
  // ---------------------------------------------------------------------------------------

  /** The ids from the eldest ancestor not met before down to the given one. */
  function Chain(family: Family, id: int, seen: set<int>): seq<int>
    decreases family.names.Keys - seen
  {
    if id > 0 && id in family.names && id !in seen then Chain(family, family.KnownFather(id), seen + {id}) + [id]
    else []
  }

  const ARROW := " › "

  function ChainNames(family: Family, id: int, seen: set<int>): seq<string>
    decreases family.names.Keys - seen
  {
    if id > 0 && id in family.names && id !in seen then
      ChainNames(family, family.KnownFather(id), seen + {id}) + [family.names[id]]
    else []
  }

  /** The chain follows the known parents, never twice through one id, and stops only at its end or at a cycle. */
  lemma {:induction false} ChainIsLineage(family: Family, id: int, seen: set<int>)
    ensures var c := Chain(family, id, seen);
      && (forall i :: 0 <= i < |c| ==> c[i] in family.names && c[i] > 0 && c[i] !in seen)
      && (forall i, j :: 0 <= i < j < |c| ==> c[i] != c[j])
      && (forall i :: 0 <= i < |c| - 1 ==> c[i] == family.KnownFather(c[i+1]))
      && (c != [] ==>
         && c[|c|-1] == id
         && (family.KnownFather(c[0]) == 0 || family.KnownFather(c[0]) in c || family.KnownFather(c[0]) in seen))
    decreases family.names.Keys - seen
  {
    if id > 0 && id in family.names && id !in seen {
      ChainIsLineage(family, family.KnownFather(id), seen + {id});
      var up := Chain(family, family.KnownFather(id), seen + {id});
      assert Chain(family, id, seen) == up + [id];
      assert forall k :: k in up ==> k in up + [id];
      assert (up + [id])[|up|] == id;
    }
  }

  /** The names are those of the chain. */
  lemma {:induction false} ChainIsNamed(family: Family, id: int, seen: set<int>)
    ensures |ChainNames(family, id, seen)| == |Chain(family, id, seen)|
    ensures forall i :: 0 <= i < |Chain(family, id, seen)| ==>
      Chain(family, id, seen)[i] in family.names
        && ChainNames(family, id, seen)[i] == family.names[Chain(family, id, seen)[i]]
    decreases family.names.Keys - seen
  {
    if id > 0 && id in family.names && id !in seen {
      ChainIsNamed(family, family.KnownFather(id), seen + {id});
    }
  }

  function Title(family: Family, id: int): string { Join(ChainNames(family, id, {}), ARROW) }

  /** A title is the names of the lineage, the eldest first. */
  lemma TitleIsLineage(family: Family, id: int)
    ensures exists names ::
      && Title(family, id) == Join(names, " › ") && |names| == |Chain(family, id, {})|
      && forall i :: 0 <= i < |names| ==>
           Chain(family, id, {})[i] in family.names && names[i] == family.names[Chain(family, id, {})[i]]
  {
    ChainIsNamed(family, id, {});
    var names := ChainNames(family, id, {});
    assert Title(family, id) == Join(names, " › ");
  }

  /** The walk up the parents: it ends because each turn meets a name not met before. */
  method ComputeTitle(family: Family, id: int) returns (title: string)
    ensures title == Title(family, id)
  {
    var names: seq<string> := [];
    var seen: set<int> := {};
    var cur := id;
    while cur > 0 && cur in family.names && cur !in seen
      invariant ChainNames(family, id, {}) == ChainNames(family, cur, seen) + names
      decreases family.names.Keys - seen
    {
      ghost var up := ChainNames(family, family.KnownFather(cur), seen + {cur});
      assert up + [family.names[cur]] + names == up + ([family.names[cur]] + names);
      names := [family.names[cur]] + names;
      seen := seen + {cur};
      cur := family.KnownFather(cur);
    }
    assert [] + names == names;
    title := Join(names, ARROW);
  }

  // ---------------------------------------------------------------------------------------
  // Groups
  // ---------------------------------------------------------------------------------------

  /** The parent a room is placed under: itself when it is a parent, zero when it is alone. */
  function Key(family: Family, heads: set<int>, id: int): int { if id in heads then id else family.KnownFather(id) }

  function Under(rooms: seq<Room>, family: Family, heads: set<int>, k: int): seq<Room> {
    Filter(rooms, (r: Room) => r.id > 0 && Key(family, heads, r.id) == k)
  }

  function Pseudo(rooms: seq<Room>): seq<Room> { Filter(rooms, (r: Room) => r.id <= 0) }

  /** The parents in the order their first room appears. */
  function Order(rooms: seq<Room>, family: Family, heads: set<int>): seq<int> {
    if rooms == [] then []
    else
      var before := Order(rooms[..|rooms|-1], family, heads);
      var last := rooms[|rooms|-1];
      var k := Key(family, heads, last.id);
      if last.id > 0 && k != 0 && k !in before then before + [k] else before
  }

  /** The stable sort of one group: the parent's own card first. */
  function ParentFirst(rooms: seq<Room>, k: int): seq<Room> {
    Filter(rooms, (r: Room) => r.id == k) + Filter(rooms, (r: Room) => r.id != k)
  }

  function ParentGroup(rooms: seq<Room>, family: Family, heads: set<int>, k: int): Group {
    Group(Some(Title(family, k)), ParentFirst(Under(rooms, family, heads, k), k))
  }

  function ParentGroups(rooms: seq<Room>, family: Family, heads: set<int>, order: seq<int>): (r: seq<Group>)
    ensures |r| == |order| && forall i :: 0 <= i < |order| ==> r[i] == ParentGroup(rooms, family, heads, order[i])
  {
    seq(|order|, i requires 0 <= i < |order| => ParentGroup(rooms, family, heads, order[i]))
  }

  function Untitled(rooms: seq<Room>): seq<Group> { if rooms == [] then [] else [Group(None, rooms)] }

  /** The rooms alone, then the parents, then the rooms that are none. */
  function Grouped(rooms: seq<Room>, family: Family, heads: set<int>): seq<Group> {
    Untitled(Under(rooms, family, heads, 0)) + ParentGroups(rooms, family, heads, Order(rooms, family, heads))
      + Untitled(Pseudo(rooms))
  }

  ghost predicate IsFiled(byParent: map<int, seq<Room>>, order: seq<int>, rooms: seq<Room>, family: Family,
      heads: set<int>)
  {
    && (forall k :: k in byParent <==> k in order)
    && forall k :: k in byParent ==> byParent[k] == Under(rooms, family, heads, k)
  }

  /** One pass: the rooms alone, those of each parent with the parents in order, and those that are none. */
  method FileRooms(rooms: seq<Room>, family: Family, heads: set<int>)
    returns (isolated: seq<Room>, byParent: map<int, seq<Room>>, order: seq<int>, pseudo: seq<Room>)
    ensures isolated == Under(rooms, family, heads, 0) && pseudo == Pseudo(rooms)
      && order == Order(rooms, family, heads)
    ensures IsFiled(byParent, order, rooms, family, heads)
  {
    hide Key, Under, Pseudo, Order;
    isolated, pseudo, order, byParent := [], [], [], map[];
    assert rooms[..0] == [];
    NothingUnder(family, heads);
    for i := 0 to |rooms|
      invariant isolated == Under(rooms[..i], family, heads, 0) && pseudo == Pseudo(rooms[..i])
      invariant order == Order(rooms[..i], family, heads) && 0 !in order
      invariant IsFiled(byParent, order, rooms[..i], family, heads)
      invariant forall k :: k != 0 && k !in order ==> Under(rooms[..i], family, heads, k) == []
    {
      var r := rooms[i];
      assert rooms[..i+1] == rooms[..i] + [r];
      FilingStep(rooms[..i], r, family, heads);
      if r.id <= 0 {
        pseudo := pseudo + [r];
        continue;
      }
      var key := Key(family, heads, r.id);
      if key == 0 {
        isolated := isolated + [r];
        continue;
      }
      if key !in byParent {
        byParent := byParent[key := []];
        order := order + [key];
      }
      byParent := byParent[key := byParent[key] + [r]];
    }
    assert rooms[..|rooms|] == rooms;
  }

  /** `j2ha_group_rooms`. */
  method GroupRooms(rooms: seq<Room>, ancestors: seq<Room>) returns (groups: seq<Group>)
    ensures var family := FamilyOf(rooms, ancestors); groups == Grouped(rooms, family, Heads(family, rooms))
  {
    hide FamilyOf, Heads, Title, Under, Pseudo, Order, ParentFirst;
    var family := IndexFamily(rooms, ancestors);
    var heads := FindHeads(family, rooms);
    var isolated, byParent, order, pseudo := FileRooms(rooms, family, heads);
    groups := if isolated != [] then [Group(None, isolated)] else [];
    ghost var first := groups;
    for i := 0 to |order|
      invariant groups == first + ParentGroups(rooms, family, heads, order[..i])
    {
      assert order[..i+1] == order[..i] + [order[i]];
      var title := ComputeTitle(family, order[i]);
      ParentGroupsStep(rooms, family, heads, order[..i], order[i]);
      groups := groups + [Group(Some(title), ParentFirst(byParent[order[i]], order[i]))];
    }
    assert order[..|order|] == order;
    if pseudo != [] {
      groups := groups + [Group(None, pseudo)];
    }
  }

  lemma ParentGroupsStep(rooms: seq<Room>, family: Family, heads: set<int>, order: seq<int>, k: int)
    ensures ParentGroups(rooms, family, heads, order + [k])
      == ParentGroups(rooms, family, heads, order) + [ParentGroup(rooms, family, heads, k)]
  {
  }

  method FindHeads(family: Family, rooms: seq<Room>) returns (heads: set<int>)
    ensures heads == Heads(family, rooms)
  {
    heads := {};
    for i := 0 to |rooms|
      invariant heads == Heads(family, rooms[..i])
    {
      assert rooms[..i+1] == rooms[..i] + [rooms[i]];
      HeadsStep(family, rooms[..i], rooms[i]);
      if rooms[i].id > 0 && family.KnownFather(rooms[i].id) > 0 {
        heads := heads + {family.KnownFather(rooms[i].id)};
      }
    }
    assert rooms[..|rooms|] == rooms;
  }

  lemma HeadsStep(family: Family, rooms: seq<Room>, r: Room)
    ensures Heads(family, rooms + [r]) == Heads(family, rooms) + if r.id > 0 && family.KnownFather(r.id) > 0 then
        {family.KnownFather(r.id)}
      else {}
  {
    var more := rooms + [r];
    forall k | k in Heads(family, rooms) ensures k in Heads(family, more) {
      var i :| 0 <= i < |rooms| && rooms[i].id > 0 && family.KnownFather(rooms[i].id) > 0
        && k == family.KnownFather(rooms[i].id);
      assert more[i] == rooms[i];
    }
    assert more[|rooms|] == r;
  }

  lemma NothingUnder(family: Family, heads: set<int>)
    ensures (forall k :: Under([], family, heads, k) == []) && Pseudo([]) == [] && Order([], family, heads) == []
  {
  }

  lemma FilingStep(rooms: seq<Room>, r: Room, family: Family, heads: set<int>)
    ensures forall k :: Under(rooms + [r], family, heads, k)
                     == Under(rooms, family, heads, k) + if r.id > 0 && Key(family, heads, r.id) == k then [r] else []
    ensures Pseudo(rooms + [r]) == Pseudo(rooms) + if r.id <= 0 then [r] else []
    ensures Order(rooms + [r], family, heads)
         == var k := Key(family, heads, r.id);
            if r.id > 0 && k != 0 && k !in Order(rooms, family, heads) then Order(rooms, family, heads) + [k]
            else Order(rooms, family, heads)
  {
  }

  // ---------------------------------------------------------------------------------------
  // What the grouping promises
  // ---------------------------------------------------------------------------------------

  function Flatten(groups: seq<Group>): seq<Room> {
    if groups == [] then [] else Flatten(groups[..|groups|-1]) + groups[|groups|-1].rooms
  }

  lemma FlattenStep(groups: seq<Group>, g: Group)
    ensures Flatten([]) == [] && Flatten(groups + [g]) == Flatten(groups) + g.rooms
  {
  }

  lemma {:induction false} FlattenConcat(a: seq<Group>, b: seq<Group>)
    ensures Flatten(a + b) == Flatten(a) + Flatten(b)
  {
    hide Flatten;
    if b == [] {
      FlattenStep([], Group(None, []));
      assert a + b == a;
    } else {
      var front, last := b[..|b|-1], b[|b|-1];
      FlattenConcat(a, front);
      FlattenStep(front, last);
      FlattenStep(a + front, last);
      assert b == front + [last] && a + b == (a + front) + [last];
    }
  }

  lemma {:induction false} ParentFirstKeepsAll(rooms: seq<Room>, k: int)
    ensures multiset(ParentFirst(rooms, k)) == multiset(rooms)
  {
    hide Filter;
    FilterStep([], Room(0, "", None), (r: Room) => r.id == k);
    FilterStep([], Room(0, "", None), (r: Room) => r.id != k);
    if rooms != [] {
      var n := |rooms| - 1;
      ParentFirstKeepsAll(rooms[..n], k);
      assert rooms == rooms[..n] + [rooms[n]];
      FilterStep(rooms[..n], rooms[n], (r: Room) => r.id == k);
      FilterStep(rooms[..n], rooms[n], (r: Room) => r.id != k);
    }
  }

  /** All rooms of the listed parents. */
  function UnderAll(rooms: seq<Room>, family: Family, heads: set<int>, order: seq<int>): multiset<Room> {
    if order == [] then multiset{}
    else UnderAll(rooms, family, heads, order[..|order|-1]) + multiset(Under(rooms, family, heads, order[|order|-1]))
  }

  lemma {:induction false} FlattenedParents(rooms: seq<Room>, family: Family, heads: set<int>, order: seq<int>)
    ensures multiset(Flatten(ParentGroups(rooms, family, heads, order))) == UnderAll(rooms, family, heads, order)
  {
    hide Under, Title, ParentFirst;
    if order != [] {
      var n := |order| - 1;
      FlattenedParents(rooms, family, heads, order[..n]);
      var groups := ParentGroups(rooms, family, heads, order);
      assert groups[..n] == ParentGroups(rooms, family, heads, order[..n]);
      ParentFirstKeepsAll(Under(rooms, family, heads, order[n]), order[n]);
    }
  }

  lemma {:induction false} OneMore(rooms: seq<Room>, r: Room, family: Family, heads: set<int>, order: seq<int>)
    requires Distinct(order)
    ensures UnderAll(rooms + [r], family, heads, order)
         == UnderAll(rooms, family, heads, order) + if r.id > 0 && Key(family, heads, r.id) in order then multiset{r}
           else multiset{}
  {
    hide Under, Key, Pseudo, Order;
    if order != [] {
      var n := |order| - 1;
      var k := order[n];
      OneMore(rooms, r, family, heads, order[..n]);
      UnderStep(rooms, r, family, heads, k);
      assert order == order[..n] + [k];
      assert k !in order[..n];
    }
  }

  lemma UnderStep(rooms: seq<Room>, r: Room, family: Family, heads: set<int>, k: int)
    ensures multiset(Under(rooms + [r], family, heads, k))
         == multiset(Under(rooms, family, heads, k)) + if r.id > 0 && Key(family, heads, r.id) == k then multiset{r}
           else multiset{}
  {
  }

  lemma {:induction false} EveryKeyIsListed(rooms: seq<Room>, family: Family, heads: set<int>)
    ensures Distinct(Order(rooms, family, heads)) && 0 !in Order(rooms, family, heads)
    ensures forall k :: k != 0 && k !in Order(rooms, family, heads) ==> Under(rooms, family, heads, k) == []
  {
    hide Key, Under, Pseudo, Order;
    NothingUnder(family, heads);
    if rooms != [] {
      var front, last := rooms[..|rooms|-1], rooms[|rooms|-1];
      EveryKeyIsListed(front, family, heads);
      FilingStep(front, last, family, heads);
      assert rooms == front + [last];
    }
  }

  /** A room with a parent joins the group of that parent, listed before or not. */
  lemma JoinsItsParent(front: seq<Room>, r: Room, family: Family, heads: set<int>)
    ensures UnderAll(front + [r], family, heads, Order(front + [r], family, heads))
         == UnderAll(front, family, heads, Order(front, family, heads)) + if r.id > 0
           && Key(family, heads, r.id) != 0 then multiset{r} else multiset{}
  {
    hide Key, Under, Pseudo, Order, UnderAll;
    var before, k := Order(front, family, heads), Key(family, heads, r.id);
    EveryKeyIsListed(front, family, heads);
    FilingStep(front, r, family, heads);
    OneMore(front, r, family, heads, before);
    if r.id > 0 && k != 0 && k !in before {
      UnderAllStep(front + [r], family, heads, before, k);
      assert Under(front, family, heads, k) == [];
      UnderStep(front, r, family, heads, k);
    }
  }

  lemma UnderAllStep(rooms: seq<Room>, family: Family, heads: set<int>, order: seq<int>, k: int)
    ensures UnderAll(rooms, family, heads, order + [k])
      == UnderAll(rooms, family, heads, order) + multiset(Under(rooms, family, heads, k))
  {
  }

  lemma {:induction false} EveryRoomIsFiled(rooms: seq<Room>, family: Family, heads: set<int>)
    ensures multiset(Under(rooms, family, heads, 0)) + UnderAll(rooms, family, heads, Order(rooms, family, heads))
      + multiset(Pseudo(rooms)) == multiset(rooms)
  {
    hide Key, Under, Pseudo, Order;
    NothingUnder(family, heads);
    if rooms != [] {
      var front, r := rooms[..|rooms|-1], rooms[|rooms|-1];
      EveryRoomIsFiled(front, family, heads);
      hide UnderAll;
      assert rooms == front + [r];
      JoinsItsParent(front, r, family, heads);
      UnderStep(front, r, family, heads, 0);
      FilingStep(front, r, family, heads);
    }
  }

  /** Every room is in exactly one group, once, whatever the parents. */
  lemma EveryRoomInOneGroup(rooms: seq<Room>, ancestors: seq<Room>)
    ensures var family :=
      FamilyOf(rooms, ancestors); multiset(Flatten(Grouped(rooms, family, Heads(family, rooms)))) == multiset(rooms)
  {
    var family := FamilyOf(rooms, ancestors);
    var heads := Heads(family, rooms);
    hide FamilyOf, Heads, Under, Pseudo, Order, Flatten;
    var order := Order(rooms, family, heads);
    var a, b, c := Untitled(Under(rooms, family, heads, 0)), ParentGroups(rooms, family, heads, order),
      Untitled(Pseudo(rooms));
    FlattenConcat(a + b, c);
    FlattenConcat(a, b);
    FlattenUntitled(Under(rooms, family, heads, 0));
    FlattenUntitled(Pseudo(rooms));
    FlattenedParents(rooms, family, heads, order);
    EveryRoomIsFiled(rooms, family, heads);
  }

  lemma FlattenUntitled(rooms: seq<Room>)
    ensures Flatten(Untitled(rooms)) == rooms
  {
  }

  /** The group of a parent: its own card first, then its direct children that are not parents themselves. */
  ghost predicate IsHousehold(g: Group, k: int, rooms: seq<Room>, family: Family, heads: set<int>) {
    && k in heads && g.title == Some(Title(family, k)) && g.rooms != []
    && (forall r :: r in g.rooms <==>
       r in rooms && r.id > 0 && (r.id == k || (r.id !in heads && family.KnownFather(r.id) == k)))
    && (forall i, j :: 0 <= i < j < |g.rooms| && g.rooms[j].id == k ==> g.rooms[i].id == k)
  }

  /** A group without title: rooms that are neither a parent nor a child. */
  ghost predicate IsAlone(g: Group, rooms: seq<Room>, family: Family, heads: set<int>) {
    g.title.None? && g.rooms != [] && forall r :: r in g.rooms <==>
      r in rooms && r.id > 0 && r.id !in heads && family.KnownFather(r.id) == 0
  }

  ghost predicate IsPseudo(g: Group, rooms: seq<Room>) {
    g.title.None? && g.rooms != [] && forall r :: r in g.rooms <==> r in rooms && r.id <= 0
  }

  lemma KeyMeaning(family: Family, rooms: seq<Room>, id: int, k: int)
    requires id > 0
    ensures Key(family, Heads(family, rooms), id) == k <==>
      if id in Heads(family, rooms) then id == k else family.KnownFather(id) == k
    ensures forall h :: h in Heads(family, rooms) ==> h > 0
  {
  }

  lemma HeadsHaveChildren(family: Family, rooms: seq<Room>, i: nat)
    requires i < |rooms| && rooms[i].id > 0 && family.KnownFather(rooms[i].id) > 0
    ensures family.KnownFather(rooms[i].id) in Heads(family, rooms)
  {
  }

  lemma {:induction false} OrderedKeysOccur(rooms: seq<Room>, family: Family, heads: set<int>, k: int)
    requires k in Order(rooms, family, heads)
    ensures exists i :: 0 <= i < |rooms| && rooms[i].id > 0 && Key(family, heads, rooms[i].id) == k
  {
    hide Key;
    var n := |rooms| - 1;
    var last := rooms[n];
    if k in Order(rooms[..n], family, heads) {
      OrderedKeysOccur(rooms[..n], family, heads, k);
      var i :| 0 <= i < n && rooms[..n][i].id > 0 && Key(family, heads, rooms[..n][i].id) == k;
      assert rooms[i].id > 0;
    } else {
      assert last.id > 0 && Key(family, heads, last.id) == k;
    }
  }

  /** A listed parent has a room under it, and is the known parent of a room. */
  lemma ListedIsParent(rooms: seq<Room>, family: Family, k: int)
    requires k in Order(rooms, family, Heads(family, rooms))
    ensures k in Heads(family, rooms)
    ensures exists i :: 0 <= i < |rooms| && rooms[i].id > 0 && Key(family, Heads(family, rooms), rooms[i].id) == k
  {
    var heads := Heads(family, rooms);
    OrderedKeysOccur(rooms, family, heads, k);
    EveryKeyIsListed(rooms, family, heads);
    hide Order, Under, Pseudo;
    var i :| 0 <= i < |rooms| && rooms[i].id > 0 && Key(family, heads, rooms[i].id) == k;
    if rooms[i].id !in heads {
      HeadsHaveChildren(family, rooms, i);
    }
  }

  lemma HouseholdOf(rooms: seq<Room>, family: Family, k: int)
    requires k in Order(rooms, family, Heads(family, rooms))
    ensures IsHousehold(ParentGroup(rooms, family, Heads(family, rooms), k), k, rooms, family, Heads(family, rooms))
  {
    hide Heads, Order, Title, Key, Under, ParentFirst, Distinct;
    var heads := Heads(family, rooms);
    ListedIsParent(rooms, family, k);
    var i :| 0 <= i < |rooms| && rooms[i].id > 0 && Key(family, heads, rooms[i].id) == k;
    var g := ParentGroup(rooms, family, heads, k);
    MembersOfGroup(rooms, family, heads, k);
    assert rooms[i] in g.rooms;
    forall r | r in rooms && r.id > 0 ensures Key(family, heads, r.id) == k <==>
      r.id == k || (r.id !in heads && family.KnownFather(r.id) == k)
    {
      KeyMeaning(family, rooms, r.id, k);
    }
  }

  /** The rooms of a group are those of its key, the parent's own card first. */
  lemma MembersOfGroup(rooms: seq<Room>, family: Family, heads: set<int>, k: int)
    ensures var g := ParentFirst(Under(rooms, family, heads, k), k);
      && (forall r :: r in g <==> r in rooms && r.id > 0 && Key(family, heads, r.id) == k)
      && (forall i, j :: 0 <= i < j < |g| && g[j].id == k ==> g[i].id == k)
  {
    hide Filter, Key;
    var under := Under(rooms, family, heads, k);
    var own, others := Filter(under, (r: Room) => r.id == k), Filter(under, (r: Room) => r.id != k);
    forall r ensures (r in own <==> r in under && r.id == k) && (r in others <==> r in under && r.id != k)
      && (r in under <==> r in rooms && r.id > 0 && Key(family, heads, r.id) == k)
    {
      FilterMembers(under, (r: Room) => r.id == k, r);
      FilterMembers(under, (r: Room) => r.id != k, r);
      FilterMembers(rooms, (r: Room) => r.id > 0 && Key(family, heads, r.id) == k, r);
    }
    OwnCardFirst(own, others, k);
  }

  lemma OwnCardFirst(own: seq<Room>, others: seq<Room>, k: int)
    requires (forall x :: x in own ==> x.id == k) && forall x :: x in others ==> x.id != k
    ensures forall i, j :: 0 <= i < j < |own + others| && (own + others)[j].id == k ==> (own + others)[i].id == k
  {
  }

  lemma AloneRooms(rooms: seq<Room>, family: Family, heads: set<int>, g: Group)
    requires g in Untitled(Under(rooms, family, heads, 0))
    ensures IsAlone(g, rooms, family, heads)
  {
    forall r ensures r in Under(rooms, family, heads, 0) <==> r in rooms && r.id > 0 && Key(family, heads, r.id) == 0 {
      FilterMembers(rooms, (r: Room) => r.id > 0 && Key(family, heads, r.id) == 0, r);
    }
  }

  lemma PseudoRooms(rooms: seq<Room>, g: Group)
    requires g in Untitled(Pseudo(rooms))
    ensures IsPseudo(g, rooms)
  {
    forall r ensures r in Pseudo(rooms) <==> r in rooms && r.id <= 0 {
      FilterMembers(rooms, (r: Room) => r.id <= 0, r);
    }
  }

  /** Each group is the rooms alone, one household, or the rooms that are none. */
  lemma GroupsAreHouseholds(rooms: seq<Room>, ancestors: seq<Room>, g: Group)
    requires var family := FamilyOf(rooms, ancestors); g in Grouped(rooms, family, Heads(family, rooms))
    ensures var family := FamilyOf(rooms, ancestors); var heads := Heads(family, rooms);
      IsAlone(g, rooms, family, heads) || IsPseudo(g, rooms) || exists k :: IsHousehold(g, k, rooms, family, heads)
  {
    var family := FamilyOf(rooms, ancestors);
    var heads := Heads(family, rooms);
    hide FamilyOf, Heads, Order, Title, Untitled, Pseudo, Under, IsAlone, IsPseudo, IsHousehold;
    if g in Untitled(Under(rooms, family, heads, 0)) {
      AloneRooms(rooms, family, heads, g);
    } else if g in Untitled(Pseudo(rooms)) {
      PseudoRooms(rooms, g);
    } else {
      var order := Order(rooms, family, heads);
      var i :| 0 <= i < |order| && g == ParentGroups(rooms, family, heads, order)[i];
      HouseholdOf(rooms, family, order[i]);
    }
  }
}
