/**
  On/off/state trios.  `SwitchMapper._group_switch_cmds` builds them to publish switches, and
  `_switch_readback_cmd_ids` finds their state commands again so that the binary sensors leave them
  alone.  The two algorithms are separate; both are proved against one definition of a trio.
 */
module SwitchGroups {
  import opened Prelude

  datatype Family = SwitchFamily | FanFamily | EnergyFamily

  datatype Role = StateRole | OnRole | OffRole

  /** A generic type is one of the nine on/off/state types, or another text. */
  datatype GenericType = Actuator(family: Family, role: Role) | Other(code: string)

  /** The fields of a command the mappers read. `numeric` and `binary` tell what its sub-type contains. */
  datatype Cmd = Cmd(id: int, name: string, generic: Option<GenericType>, info: bool, numeric: bool, binary: bool,
    unit: Option<string>)

  predicate DistinctIds(cmds: seq<Cmd>) { forall i, j :: 0 <= i < j < |cmds| ==> cmds[i].id != cmds[j].id }

  /** The families grouped by name; the ENERGY family is handled apart. */
  predicate Grouped(f: Family) { f == SwitchFamily || f == FanFamily }

  predicate Is(c: Cmd, f: Family, r: Role) { c.generic == Some(Actuator(f, r)) }

  predicate IsGrouped(c: Cmd) { c.generic.Some? && c.generic.value.Actuator? && Grouped(c.generic.value.family) }

  // ---------------------------------------------------------------------------------------
  // What a trio is
  // ---------------------------------------------------------------------------------------

  /** The last command of a family and role under a name key. */
  function LastNamed(cmds: seq<Cmd>, key: string -> string, f: Family, k: string, r: Role): Option<Cmd> {
    if cmds == [] then None
    else
      var last := cmds[|cmds|-1];
      if Is(last, f, r) && key(last.name) == k then Some(last) else LastNamed(cmds[..|cmds|-1], key, f, k, r)
  }

  /** The three roles are present under one name key. */
  predicate NamedTrio(cmds: seq<Cmd>, key: string -> string, f: Family, k: string) {
    LastNamed(cmds, key, f, k, StateRole).Some? && LastNamed(cmds, key, f, k, OnRole).Some?
      && LastNamed(cmds, key, f, k, OffRole).Some?
  }

  /** Some name key of the family has its trio. */
  ghost predicate HasNamedTrio(cmds: seq<Cmd>, key: string -> string, f: Family) {
    exists k :: NamedTrio(cmds, key, f, k)
  }

  function OfRole(cmds: seq<Cmd>, f: Family, r: Role): seq<Cmd> {
    if cmds == [] then []
    else
      var last := cmds[|cmds|-1];
      OfRole(cmds[..|cmds|-1], f, r) + if Is(last, f, r) then [last] else []
  }

  lemma {:induction false} LastNamedIsNamed(cmds: seq<Cmd>, key: string -> string, f: Family, k: string, r: Role)
    ensures var o := LastNamed(cmds, key, f, k, r);
      o.Some? ==> o.value in cmds && Is(o.value, f, r) && key(o.value.name) == k
  {
    if cmds != [] {
      LastNamedIsNamed(cmds[..|cmds|-1], key, f, k, r);
    }
  }

  lemma {:induction false} OfRoleMembers(cmds: seq<Cmd>, f: Family, r: Role, c: Cmd)
    ensures c in OfRole(cmds, f, r) <==> c in cmds && Is(c, f, r)
  {
    if cmds != [] {
      OfRoleMembers(cmds[..|cmds|-1], f, r, c);
      assert cmds == cmds[..|cmds|-1] + [cmds[|cmds|-1]];
    }
  }

  /** One command of each role, whatever their names. */
  predicate LoneTrio(cmds: seq<Cmd>, f: Family) {
    |OfRole(cmds, f, StateRole)| == 1 && |OfRole(cmds, f, OnRole)| == 1 && |OfRole(cmds, f, OffRole)| == 1
  }

  datatype Group = Group(family: Family, key: string, state: Cmd, on: Cmd, off: Cmd)

  /** The group is a trio of the equipment: named, or the lone one of a family without named trio. */
  ghost predicate IsTrio(cmds: seq<Cmd>, key: string -> string, g: Group) {
    && Grouped(g.family)
    && g.key == key(g.state.name)
    && if HasNamedTrio(cmds, key, g.family)
       then
         && Some(g.state) == LastNamed(cmds, key, g.family, g.key, StateRole)
         && Some(g.on) == LastNamed(cmds, key, g.family, g.key, OnRole)
         && Some(g.off) == LastNamed(cmds, key, g.family, g.key, OffRole)
       else
         && OfRole(cmds, g.family, StateRole) == [g.state] && OfRole(cmds, g.family, OnRole) == [g.on]
         && OfRole(cmds, g.family, OffRole) == [g.off]
  }

  predicate IsNamed(c: Cmd, key: string -> string, f: Family, k: string, r: Role) {
    c.generic == Some(Actuator(f, r)) && key(c.name) == k
  }

  ghost predicate IsLastNamed(cmds: seq<Cmd>, key: string -> string, f: Family, k: string, r: Role, i: int) {
    && 0 <= i < |cmds| && IsNamed(cmds[i], key, f, k, r)
    && forall j :: i < j < |cmds| ==> !IsNamed(cmds[j], key, f, k, r)
  }

  /** The command of a family, role and name key that stands for the others is the last listed. */
  lemma {:induction false} LastNamedIsLast(cmds: seq<Cmd>, key: string -> string, f: Family, k: string, r: Role)
    ensures LastNamed(cmds, key, f, k, r).None? <==> forall i :: 0 <= i < |cmds| ==> !IsNamed(cmds[i], key, f, k, r)
    ensures LastNamed(cmds, key, f, k, r).Some? ==>
      exists i :: IsLastNamed(cmds, key, f, k, r, i) && cmds[i] == LastNamed(cmds, key, f, k, r).value
  {
    if cmds != [] {
      var n := |cmds| - 1;
      var front := cmds[..n];
      LastNamedIsLast(front, key, f, k, r);
      assert LastNamed(cmds, key, f, k, r)
          == if IsNamed(cmds[n], key, f, k, r) then Some(cmds[n]) else LastNamed(front, key, f, k, r);
      hide LastNamed, IsNamed;
      if IsNamed(cmds[n], key, f, k, r) {
        assert IsLastNamed(cmds, key, f, k, r, n);
      } else if LastNamed(front, key, f, k, r).Some? {
        var i :| IsLastNamed(front, key, f, k, r, i) && front[i] == LastNamed(front, key, f, k, r).value;
        StillLastNamed(cmds, key, f, k, r, i);
      } else {
        assert forall i :: 0 <= i < n ==> cmds[i] == front[i];
      }
    }
  }

  lemma StillLastNamed(cmds: seq<Cmd>, key: string -> string, f: Family, k: string, r: Role, i: int)
    requires cmds != [] && !IsNamed(cmds[|cmds|-1], key, f, k, r)
    requires IsLastNamed(cmds[..|cmds|-1], key, f, k, r, i)
    ensures IsLastNamed(cmds, key, f, k, r, i) && cmds[..|cmds|-1][i] == cmds[i]
  {
    hide IsNamed;
    assert forall j :: 0 <= j < |cmds| - 1 ==> cmds[j] == cmds[..|cmds|-1][j];
  }

  /** A trio is of the SWITCH or FAN family. */
  lemma TrioFamilies(cmds: seq<Cmd>, key: string -> string, g: Group)
    requires IsTrio(cmds, key, g)
    ensures g.family == SwitchFamily || g.family == FanFamily
  {
  }

  /** Three commands of one of these families under one name key make a trio of that name. */
  lemma NamedCommandsMakeTrio(cmds: seq<Cmd>, key: string -> string, f: Family, s: Cmd, on: Cmd, off: Cmd)
    requires f == SwitchFamily || f == FanFamily
    requires s in cmds && on in cmds && off in cmds
    requires IsNamed(s, key, f, key(s.name), StateRole) && IsNamed(on, key, f, key(s.name), OnRole)
      && IsNamed(off, key, f, key(s.name), OffRole)
    ensures exists g :: IsTrio(cmds, key, g) && g.family == f && g.key == key(s.name)
  {
    var k := key(s.name);
    LastNamedIsLast(cmds, key, f, k, StateRole);
    LastNamedIsLast(cmds, key, f, k, OnRole);
    LastNamedIsLast(cmds, key, f, k, OffRole);
    LastNamedIsNamed(cmds, key, f, k, StateRole);
    hide LastNamed;
    assert NamedTrio(cmds, key, f, k);
    var g := Group(f, k, LastNamed(cmds, key, f, k, StateRole).value, LastNamed(cmds, key, f, k, OnRole).value,
                   LastNamed(cmds, key, f, k, OffRole).value);
    assert IsTrio(cmds, key, g);
  }

  /** Without a named trio of its family, the only command of each role makes one, whatever the names. */
  lemma LoneCommandsMakeTrio(cmds: seq<Cmd>, key: string -> string, f: Family, g: Group)
    requires (f == SwitchFamily || f == FanFamily) && !HasNamedTrio(cmds, key, f) && g.family == f
    ensures IsTrio(cmds, key, g) <==>
      && g.key == key(g.state.name)
      && OfRole(cmds, f, StateRole) == [g.state] && OfRole(cmds, f, OnRole) == [g.on]
      && OfRole(cmds, f, OffRole) == [g.off]
  {
  }

  /** The state commands owned by the trios of an equipment. */
  ghost predicate OwnsState(cmds: seq<Cmd>, key: string -> string, c: Cmd) {
    exists g: Group :: IsTrio(cmds, key, g) && g.state == c
  }

  // ---------------------------------------------------------------------------------------
  // The dictionaries both algorithms build
  // ---------------------------------------------------------------------------------------

  /** `(family, name key) -> {generic type -> command}`, later commands replacing earlier ones. */
  type ByKey = map<(Family, string), map<Role, Cmd>>

  /** `family -> {generic type -> [commands]}`. */
  type ByFamily = map<Family, map<Role, seq<Cmd>>>

  function Named(m: ByKey, f: Family, k: string, r: Role): Option<Cmd> {
    if (f, k) in m && r in m[(f, k)] then Some(m[(f, k)][r]) else None
  }

  function Listed(m: ByFamily, f: Family, r: Role): seq<Cmd> { if f in m && r in m[f] then m[f][r] else [] }

  function PutNamed(m: ByKey, f: Family, k: string, r: Role, c: Cmd): ByKey {
    m[(f, k) := (if (f, k) in m then m[(f, k)] else map[])[r := c]]
  }

  function PutListed(m: ByFamily, f: Family, r: Role, c: Cmd): ByFamily {
    m[f := (if f in m then m[f] else map[])[r := Listed(m, f, r) + [c]]]
  }

  ghost predicate IndexesKeys(m: ByKey, cmds: seq<Cmd>, key: string -> string) {
    && (forall f, k, r :: Named(m, f, k, r) == if Grouped(f) then LastNamed(cmds, key, f, k, r) else None)
    && (forall fk :: fk in m ==> Grouped(fk.0))
  }

  ghost predicate IndexesFamilies(m: ByFamily, cmds: seq<Cmd>) {
    && (forall f, r :: Listed(m, f, r) == if Grouped(f) then OfRole(cmds, f, r) else [])
    && (forall f :: f in m ==> Grouped(f))
  }

  lemma LastNamedAppend(cmds: seq<Cmd>, c: Cmd, key: string -> string, f: Family, k: string, r: Role)
    ensures LastNamed(cmds + [c], key, f, k, r) == if Is(c, f, r) && key(c.name) == k then Some(c)
      else LastNamed(cmds, key, f, k, r)
  {
  }

  lemma OfRoleAppend(cmds: seq<Cmd>, c: Cmd, f: Family, r: Role)
    ensures OfRole(cmds + [c], f, r) == OfRole(cmds, f, r) + if Is(c, f, r) then [c] else []
  {
  }

  lemma IndexKeysStep(m: ByKey, cmds: seq<Cmd>, key: string -> string, c: Cmd)
    requires IndexesKeys(m, cmds, key)
    ensures IsGrouped(c) ==>
      IndexesKeys(PutNamed(m, c.generic.value.family, key(c.name), c.generic.value.role, c), cmds + [c], key)
    ensures !IsGrouped(c) ==> IndexesKeys(m, cmds + [c], key)
  {
  }

  lemma IndexFamiliesStep(m: ByFamily, cmds: seq<Cmd>, c: Cmd)
    requires IndexesFamilies(m, cmds)
    ensures IsGrouped(c) ==> IndexesFamilies(PutListed(m, c.generic.value.family, c.generic.value.role, c), cmds + [c])
    ensures !IsGrouped(c) ==> IndexesFamilies(m, cmds + [c])
  {
    hide OfRole;
    forall f, r ensures OfRole(cmds + [c], f, r) == OfRole(cmds, f, r) + if Is(c, f, r) then [c] else [] {
      OfRoleAppend(cmds, c, f, r);
    }
    if IsGrouped(c) {
      var f', r' := c.generic.value.family, c.generic.value.role;
      var m' := PutListed(m, f', r', c);
      forall f, r ensures Listed(m', f, r) == if Grouped(f) then OfRole(cmds + [c], f, r) else [] {
        assert Listed(m', f, r) == if f == f' && r == r' then Listed(m, f, r) + [c] else Listed(m, f, r);
      }
    }
  }

  predicate Complete(group: map<Role, Cmd>) { StateRole in group && OnRole in group && OffRole in group }

  function MakeGroup(f: Family, k: string, group: map<Role, Cmd>): Group
    requires Complete(group)
  {
    Group(f, k, group[StateRole], group[OnRole], group[OffRole])
  }

  function GroupIds(g: Group): set<int> { {g.state.id, g.on.id, g.off.id} }

  /** The ids of the commands of the groups. */
  ghost predicate IdsOf(ids: set<int>, groups: seq<Group>) {
    forall id :: id in ids <==> exists g :: g in groups && id in GroupIds(g)
  }

  // ---------------------------------------------------------------------------------------
  // `SwitchMapper._group_switch_cmds`
  // ---------------------------------------------------------------------------------------

  /** Insertion order of a dictionary, kept beside it. */
  ghost predicate Orders<T(!new)>(order: seq<T>, keys: set<T>) {
    (forall x :: x in order <==> x in keys) && (forall i, j :: 0 <= i < j < |order| ==> order[i] != order[j])
  }

  function Remember<T(==)>(order: seq<T>, x: T): seq<T> { if x in order then order else order + [x] }

  lemma RememberOrders<T(!new)>(order: seq<T>, keys: set<T>, x: T)
    requires Orders(order, keys)
    ensures Orders(Remember(order, x), keys + {x})
  {
  }

  /** The families and name keys, in the order the commands first show them. */
  function KeyOrder(cmds: seq<Cmd>, key: string -> string): seq<(Family, string)> {
    if cmds == [] then []
    else
      var before, last := KeyOrder(cmds[..|cmds|-1], key), cmds[|cmds|-1];
      if IsGrouped(last) then Remember(before, (last.generic.value.family, key(last.name))) else before
  }

  /** The families, in the order the commands first show them. */
  function FamilyOrder(cmds: seq<Cmd>): seq<Family> {
    if cmds == [] then []
    else
      var before, last := FamilyOrder(cmds[..|cmds|-1]), cmds[|cmds|-1];
      if IsGrouped(last) then Remember(before, last.generic.value.family) else before
  }

  lemma OrdersStep(cmds: seq<Cmd>, c: Cmd, key: string -> string)
    ensures KeyOrder([], key) == [] && FamilyOrder([]) == []
    ensures KeyOrder(cmds + [c], key)
         == if IsGrouped(c) then Remember(KeyOrder(cmds, key), (c.generic.value.family, key(c.name)))
           else KeyOrder(cmds, key)
    ensures FamilyOrder(cmds + [c]) == if IsGrouped(c) then Remember(FamilyOrder(cmds), c.generic.value.family)
      else FamilyOrder(cmds)
  {
    assert (cmds + [c])[..|cmds|] == cmds;
  }

  method IndexCommands(cmds: seq<Cmd>, key: string -> string)
    returns (byKey: ByKey, byFamily: ByFamily, keys: seq<(Family, string)>, families: seq<Family>)
    ensures IndexesKeys(byKey, cmds, key) && IndexesFamilies(byFamily, cmds)
    ensures Orders(keys, byKey.Keys) && Orders(families, byFamily.Keys)
    ensures keys == KeyOrder(cmds, key) && families == FamilyOrder(cmds)
  {
    byKey, byFamily, keys, families := map[], map[], [], [];
    for i := 0 to |cmds|
      invariant IndexesKeys(byKey, cmds[..i], key) && IndexesFamilies(byFamily, cmds[..i])
      invariant Orders(keys, byKey.Keys) && Orders(families, byFamily.Keys)
      invariant keys == KeyOrder(cmds[..i], key) && families == FamilyOrder(cmds[..i])
    {
      OrdersStep(cmds[..i], cmds[i], key);
      byKey, byFamily, keys, families := IndexOne(byKey, byFamily, keys, families, cmds[..i], key, cmds[i]);
      assert cmds[..i+1] == cmds[..i] + [cmds[i]];
    }
    assert cmds[..|cmds|] == cmds;
  }

  method IndexOne(byKey: ByKey, byFamily: ByFamily, keys: seq<(Family, string)>, families: seq<Family>,
      ghost seen: seq<Cmd>, key: string -> string, c: Cmd)
    returns (byKey': ByKey, byFamily': ByFamily, keys': seq<(Family, string)>, families': seq<Family>)
    requires IndexesKeys(byKey, seen, key) && IndexesFamilies(byFamily, seen)
    requires Orders(keys, byKey.Keys) && Orders(families, byFamily.Keys)
    ensures IndexesKeys(byKey', seen + [c], key) && IndexesFamilies(byFamily', seen + [c])
    ensures Orders(keys', byKey'.Keys) && Orders(families', byFamily'.Keys)
    ensures keys' == if IsGrouped(c) then Remember(keys, (c.generic.value.family, key(c.name))) else keys
    ensures families' == if IsGrouped(c) then Remember(families, c.generic.value.family) else families
  {
    hide Orders, Remember, IndexesKeys, IndexesFamilies;
    byKey', byFamily', keys', families' := byKey, byFamily, keys, families;
    IndexKeysStep(byKey, seen, key, c);
    IndexFamiliesStep(byFamily, seen, c);
    if IsGrouped(c) {
      var f, r, k := c.generic.value.family, c.generic.value.role, key(c.name);
      RememberOrders(keys, byKey.Keys, (f, k));
      RememberOrders(families, byFamily.Keys, f);
      byKey', keys' := PutNamed(byKey, f, k, r, c), Remember(keys, (f, k));
      byFamily', families' := PutListed(byFamily, f, r, c), Remember(families, f);
      assert byKey'.Keys == byKey.Keys + {(f, k)} && byFamily'.Keys == byFamily.Keys + {f};
    }
  }

  /** One element stands before the other in the list. */
  ghost predicate Before<T>(order: seq<T>, x: T, y: T) {
    exists a, b :: 0 <= a < b < |order| && order[a] == x && order[b] == y
  }

  predicate FromEntry(byKey: ByKey, g: Group) {
    var fk := (g.family, g.key);
    fk in byKey && Complete(byKey[fk]) && g == MakeGroup(fk.0, fk.1, byKey[fk])
  }

  /** The groups of the complete keys among the first `n`, in their order. */
  ghost predicate NamedSoFar(groups: seq<Group>, byKey: ByKey, keys: seq<(Family, string)>, n: nat)
    requires n <= |keys| && forall i :: 0 <= i < |keys| ==> keys[i] in byKey
  {
    && (forall k :: 0 <= k < |groups| ==> FromEntry(byKey, groups[k]) && (groups[k].family, groups[k].key) in keys[..n])
    && (forall k :: 0 <= k < n && Complete(byKey[keys[k]]) ==>
       MakeGroup(keys[k].0, keys[k].1, byKey[keys[k]]) in groups)
    && (forall i, j :: 0 <= i < j < |groups| ==>
       Before(keys, (groups[i].family, groups[i].key), (groups[j].family, groups[j].key)))
  }

  lemma NamedStep(groups: seq<Group>, byKey: ByKey, keys: seq<(Family, string)>, n: nat)
    requires n < |keys| && forall i :: 0 <= i < |keys| ==> keys[i] in byKey
    requires NamedSoFar(groups, byKey, keys, n)
    ensures if Complete(byKey[keys[n]])
            then NamedSoFar(groups + [MakeGroup(keys[n].0, keys[n].1, byKey[keys[n]])], byKey, keys, n + 1)
            else NamedSoFar(groups, byKey, keys, n + 1)
  {
    assert forall fk :: fk in keys[..n] ==> Before(keys, fk, keys[n]);
    assert keys[..n+1] == keys[..n] + [keys[n]];
  }

  lemma IdsOfStep(ids: set<int>, groups: seq<Group>, g: Group)
    requires IdsOf(ids, groups)
    ensures IdsOf(ids + GroupIds(g), groups + [g])
  {
  }

  lemma NoIds()
    ensures IdsOf({}, [])
  {
  }

  /** The first pass: one group per complete name key. */
  method GroupByName(cmds: seq<Cmd>, key: string -> string, byKey: ByKey, keys: seq<(Family, string)>)
    returns (groups: seq<Group>, groupedIds: set<int>)
    requires IndexesKeys(byKey, cmds, key)
    requires Orders(keys, byKey.Keys)
    ensures forall g :: g in groups <==> IsTrio(cmds, key, g) && HasNamedTrio(cmds, key, g.family)
    ensures forall i, j :: 0 <= i < j < |groups| ==>
      Before(keys, (groups[i].family, groups[i].key), (groups[j].family, groups[j].key))
    ensures IdsOf(groupedIds, groups)
  {
    hide Before, IsTrio, HasNamedTrio, IdsOf;
    groups, groupedIds := [], {};
    assert forall i :: 0 <= i < |keys| ==> keys[i] in keys;
    assert IdsOf({}, []) by { NoIds(); }
    for i := 0 to |keys|
      invariant NamedSoFar(groups, byKey, keys, i)
      invariant IdsOf(groupedIds, groups)
    {
      hide NamedSoFar;
      NamedStep(groups, byKey, keys, i);
      if Complete(byKey[keys[i]]) {
        var g := MakeGroup(keys[i].0, keys[i].1, byKey[keys[i]]);
        IdsOfStep(groupedIds, groups, g);
        groups, groupedIds := groups + [g], groupedIds + GroupIds(g);
      }
    }
    forall g ensures g in groups <==> IsTrio(cmds, key, g) && HasNamedTrio(cmds, key, g.family) {
      NamedGroupIsTrio(cmds, key, byKey, keys, groups, g);
    }
  }

  lemma NamedGroupIsTrio(cmds: seq<Cmd>, key: string -> string, byKey: ByKey, keys: seq<(Family, string)>,
      groups: seq<Group>, g: Group)
    requires IndexesKeys(byKey, cmds, key) && forall fk :: fk in keys <==> fk in byKey
    requires forall g :: g in groups ==> FromEntry(byKey, g)
    requires forall k :: 0 <= k < |keys| && Complete(byKey[keys[k]]) ==>
      MakeGroup(keys[k].0, keys[k].1, byKey[keys[k]]) in groups
    ensures g in groups <==> IsTrio(cmds, key, g) && HasNamedTrio(cmds, key, g.family)
  {
    var f, k := g.family, g.key;
    assert Named(byKey, f, k, StateRole) == if Grouped(f) then LastNamed(cmds, key, f, k, StateRole) else None;
    assert Named(byKey, f, k, OnRole) == if Grouped(f) then LastNamed(cmds, key, f, k, OnRole) else None;
    assert Named(byKey, f, k, OffRole) == if Grouped(f) then LastNamed(cmds, key, f, k, OffRole) else None;
    LastNamedIsNamed(cmds, key, f, k, StateRole);
    if g in groups {
      assert NamedTrio(cmds, key, f, k);
    }
    if IsTrio(cmds, key, g) && HasNamedTrio(cmds, key, f) {
      assert (f, k) in byKey && Complete(byKey[(f, k)]);
      var i :| 0 <= i < |keys| && keys[i] == (f, k);
    }
  }

  /** A trio's commands belong to its family. */
  lemma TrioCommands(cmds: seq<Cmd>, key: string -> string, g: Group)
    requires IsTrio(cmds, key, g)
    ensures g.state in cmds && g.on in cmds && g.off in cmds
    ensures Is(g.state, g.family, StateRole) && Is(g.on, g.family, OnRole) && Is(g.off, g.family, OffRole)
  {
    if HasNamedTrio(cmds, key, g.family) {
      LastNamedIsNamed(cmds, key, g.family, g.key, StateRole);
      LastNamedIsNamed(cmds, key, g.family, g.key, OnRole);
      LastNamedIsNamed(cmds, key, g.family, g.key, OffRole);
    } else {
      OfRoleMembers(cmds, g.family, StateRole, g.state);
      OfRoleMembers(cmds, g.family, OnRole, g.on);
      OfRoleMembers(cmds, g.family, OffRole, g.off);
    }
  }

  lemma SameId(cmds: seq<Cmd>, a: Cmd, b: Cmd)
    requires DistinctIds(cmds) && a in cmds && b in cmds && a.id == b.id
    ensures a == b
  {
  }

  /** No command of a family without group carries the id of a grouped command. */
  lemma UngroupedFamily(cmds: seq<Cmd>, key: string -> string, groups: seq<Group>, groupedIds: set<int>, f: Family,
      r: Role, c: Cmd)
    requires DistinctIds(cmds) && c in cmds && Is(c, f, r)
    requires forall g :: g in groups ==> IsTrio(cmds, key, g) && g.family != f
    requires IdsOf(groupedIds, groups)
    ensures c.id !in groupedIds
  {
    if g :| g in groups && c.id in GroupIds(g) {
      TrioCommands(cmds, key, g);
      var d := if c.id == g.state.id then g.state else if c.id == g.on.id then g.on else g.off;
      SameId(cmds, c, d);
      assert false;
    }
  }

  /** `[c for c in list if int(c.id) not in ids]`. */
  function Ungrouped(list: seq<Cmd>, ids: set<int>): seq<Cmd> { Filter(list, (c: Cmd) => c.id !in ids) }

  lemma NothingFiltered(list: seq<Cmd>, ids: set<int>)
    requires forall c :: c in list ==> c.id !in ids
    ensures Ungrouped(list, ids) == list
  {
    FilterAll(list, (c: Cmd) => c.id !in ids);
  }

  ghost predicate IsLoneTrio(cmds: seq<Cmd>, key: string -> string, g: Group) {
    IsTrio(cmds, key, g) && !HasNamedTrio(cmds, key, g.family)
  }

  /**
    Named trios come first, in the order their keys first appear; then the lone ones, in the order of their families.
  */
  ghost predicate Precedes(g: Group, h: Group, cmds: seq<Cmd>, key: string -> string) {
    if HasNamedTrio(cmds, key, g.family) then
      HasNamedTrio(cmds, key, h.family) ==> Before(KeyOrder(cmds, key), (g.family, g.key), (h.family, h.key))
    else
      !HasNamedTrio(cmds, key, h.family) && Before(FamilyOrder(cmds), g.family, h.family)
  }

  /** All the trios of an equipment, in order. */
  ghost predicate IsTrioList(groups: seq<Group>, cmds: seq<Cmd>, key: string -> string) {
    && (forall g :: g in groups <==> IsTrio(cmds, key, g))
    && (forall i, j :: 0 <= i < j < |groups| ==> groups[i] != groups[j] && Precedes(groups[i], groups[j], cmds, key))
  }

  /** The trios of an equipment, named ones first, then the lone ones of the families left without group. */
  method GroupSwitchCmds(cmds: seq<Cmd>, key: string -> string) returns (groups: seq<Group>)
    requires DistinctIds(cmds)
    ensures IsTrioList(groups, cmds, key)
  {
    var byKey, byFamily, keys, families := IndexCommands(cmds, key);
    var named, groupedIds := GroupByName(cmds, key, byKey, keys);
    forall g | IsLoneTrio(cmds, key, g) ensures g.family in families {
      assert Listed(byFamily, g.family, StateRole) == [g.state];
    }
    hide IsTrio, HasNamedTrio, IdsOf;
    var lones := LoneGroups(cmds, key, byFamily, named, groupedIds, families);
    groups := named + lones;
    Ordered(cmds, key, keys, families, named, lones);
  }

  lemma Ordered(cmds: seq<Cmd>, key: string -> string, keys: seq<(Family, string)>, families: seq<Family>,
      named: seq<Group>, lones: seq<Group>)
    requires keys == KeyOrder(cmds, key) && families == FamilyOrder(cmds) && Distinct(keys) && Distinct(families)
    requires forall i :: 0 <= i < |named| ==> HasNamedTrio(cmds, key, named[i].family)
    requires forall i :: 0 <= i < |lones| ==> !HasNamedTrio(cmds, key, lones[i].family)
    requires forall i, j :: 0 <= i < j < |named| ==>
      Before(keys, (named[i].family, named[i].key), (named[j].family, named[j].key))
    requires forall i, j :: 0 <= i < j < |lones| ==> Before(families, lones[i].family, lones[j].family)
    ensures forall i, j :: 0 <= i < j < |named + lones| ==>
      (named + lones)[i] != (named + lones)[j] && Precedes((named + lones)[i], (named + lones)[j], cmds, key)
  {
    hide HasNamedTrio, KeyOrder, FamilyOrder;
  }

  /** The fallback pass. */
  method LoneGroups(cmds: seq<Cmd>, key: string -> string, byFamily: ByFamily, named: seq<Group>, groupedIds: set<int>,
      families: seq<Family>)
    returns (lones: seq<Group>)
    requires DistinctIds(cmds) && IndexesFamilies(byFamily, cmds) && Orders(families, byFamily.Keys)
    requires forall g :: g in named <==> IsTrio(cmds, key, g) && HasNamedTrio(cmds, key, g.family)
    requires IdsOf(groupedIds, named)
    ensures forall g :: g in lones <==> IsLoneTrio(cmds, key, g) && g.family in families
    ensures forall i, j :: 0 <= i < j < |lones| ==> Before(families, lones[i].family, lones[j].family)
  {
    hide IsLoneTrio, IsTrio, HasNamedTrio, IndexesFamilies, IdsOf;
    lones := [];
    for i := 0 to |families|
      invariant forall g :: g in lones ==> IsLoneTrio(cmds, key, g) && g.family in families[..i]
      invariant forall g :: IsLoneTrio(cmds, key, g) && g.family in families[..i] ==> g in lones
      invariant forall k :: 0 <= k < |lones| ==> lones[k] in lones && lones[k].family in families[..i]
      invariant forall i, j :: 0 <= i < j < |lones| ==> Before(families, lones[i].family, lones[j].family)
    {
      var f := families[i];
      assert forall f' :: f' in families[..i] ==> Before(families, f', f);
      assert families[..i+1] == families[..i] + [f];
      assert f !in families[..i];
      var lone := LoneGroup(cmds, key, byFamily, named, lones, groupedIds, f);
      if lone.Some? {
        lones := lones + [lone.value];
      }
    }
    assert families[..|families|] == families;
  }

  /** Without a named group the family has no named trio. */
  lemma NoGroupNoNamedTrio(cmds: seq<Cmd>, key: string -> string, named: seq<Group>, f: Family)
    requires Grouped(f)
    requires forall g :: IsTrio(cmds, key, g) && HasNamedTrio(cmds, key, g.family) ==> g in named
    requires forall g :: g in named ==> g.family != f
    ensures !HasNamedTrio(cmds, key, f)
  {
    if k :| NamedTrio(cmds, key, f, k) {
      var g := Group(f, k, LastNamed(cmds, key, f, k, StateRole).value, LastNamed(cmds, key, f, k, OnRole).value,
        LastNamed(cmds, key, f, k, OffRole).value);
      LastNamedIsNamed(cmds, key, f, k, StateRole);
      assert IsTrio(cmds, key, g);
    }
  }

  predicate AnyOfFamily(groups: seq<Group>, f: Family) { exists g :: g in groups && g.family == f }

  lemma FamilyIsResolved(cmds: seq<Cmd>, key: string -> string, named: seq<Group>, lones: seq<Group>, f: Family)
    requires Grouped(f)
    requires forall g :: g in named <==> IsTrio(cmds, key, g) && HasNamedTrio(cmds, key, g.family)
    requires forall g :: g in lones ==> g.family != f
    ensures AnyOfFamily(named + lones, f) <==> HasNamedTrio(cmds, key, f)
    ensures !AnyOfFamily(named + lones, f) ==> forall g :: g in named ==> g.family != f
  {
    if !AnyOfFamily(named + lones, f) {
      assert forall g :: g in named ==> g in named + lones;
      NoGroupNoNamedTrio(cmds, key, named, f);
    }
  }

  lemma UngroupedRole(cmds: seq<Cmd>, key: string -> string, named: seq<Group>, groupedIds: set<int>, f: Family,
      r: Role)
    requires DistinctIds(cmds)
    requires forall g :: g in named ==> IsTrio(cmds, key, g) && g.family != f
    requires IdsOf(groupedIds, named)
    ensures Ungrouped(OfRole(cmds, f, r), groupedIds) == OfRole(cmds, f, r)
  {
    hide IsTrio;
    forall c | c in OfRole(cmds, f, r) ensures c.id !in groupedIds {
      OfRoleMembers(cmds, f, r, c);
      UngroupedFamily(cmds, key, named, groupedIds, f, r, c);
    }
    NothingFiltered(OfRole(cmds, f, r), groupedIds);
  }

  /** The fallback pass for one family: nothing if the family has a group already. */
  method LoneGroup(cmds: seq<Cmd>, key: string -> string, byFamily: ByFamily, named: seq<Group>, lones: seq<Group>,
      groupedIds: set<int>, f: Family)
    returns (lone: Option<Group>)
    requires DistinctIds(cmds) && IndexesFamilies(byFamily, cmds) && f in byFamily
    requires forall g :: g in named <==> IsTrio(cmds, key, g) && HasNamedTrio(cmds, key, g.family)
    requires forall g :: g in lones ==> g.family != f
    requires IdsOf(groupedIds, named)
    ensures lone.Some? ==> IsLoneTrio(cmds, key, lone.value) && lone.value.family == f
    ensures forall g :: IsLoneTrio(cmds, key, g) && g.family == f ==> lone == Some(g)
  {
    hide IsTrio, HasNamedTrio, AnyOfFamily, IdsOf;
    FamilyIsResolved(cmds, key, named, lones, f);
    if AnyOfFamily(named + lones, f) {
      lone := None;
    } else {
      lone := UngroupedTrio(cmds, key, byFamily, named, groupedIds, f);
    }
  }

  method UngroupedTrio(cmds: seq<Cmd>, key: string -> string, byFamily: ByFamily, ghost named: seq<Group>,
      groupedIds: set<int>, f: Family)
    returns (lone: Option<Group>)
    requires DistinctIds(cmds) && IndexesFamilies(byFamily, cmds) && f in byFamily && !HasNamedTrio(cmds, key, f)
    requires forall g :: g in named ==> IsTrio(cmds, key, g) && g.family != f
    requires IdsOf(groupedIds, named)
    ensures lone.Some? ==> IsLoneTrio(cmds, key, lone.value) && lone.value.family == f
    ensures forall g :: IsLoneTrio(cmds, key, g) && g.family == f ==> lone == Some(g)
  {
    hide IsTrio, HasNamedTrio, OfRole, IdsOf, Ungrouped;
    UngroupedRole(cmds, key, named, groupedIds, f, StateRole);
    UngroupedRole(cmds, key, named, groupedIds, f, OnRole);
    UngroupedRole(cmds, key, named, groupedIds, f, OffRole);
    var states := Ungrouped(Listed(byFamily, f, StateRole), groupedIds);
    var ons := Ungrouped(Listed(byFamily, f, OnRole), groupedIds);
    var offs := Ungrouped(Listed(byFamily, f, OffRole), groupedIds);
    assert states == OfRole(cmds, f, StateRole) && ons == OfRole(cmds, f, OnRole) && offs == OfRole(cmds, f, OffRole);
    LoneTrioIsTrio(cmds, key, f);
    if |states| == 1 && |ons| == 1 && |offs| == 1 {
      lone := Some(Group(f, key(states[0].name), states[0], ons[0], offs[0]));
    } else {
      lone := None;
    }
  }

  /** In a family without named trio, the trio is the lone one if there is one. */
  lemma LoneTrioIsTrio(cmds: seq<Cmd>, key: string -> string, f: Family)
    requires Grouped(f) && !HasNamedTrio(cmds, key, f)
    ensures forall g: Group :: g.family == f ==>
      (IsTrio(cmds, key, g) <==> LoneTrio(cmds, f) && g == Group(f, key(OfRole(cmds, f, StateRole)[0].name),
                                   OfRole(cmds, f, StateRole)[0], OfRole(cmds, f, OnRole)[0],
                                     OfRole(cmds, f, OffRole)[0]))
  {
  }

  // ---------------------------------------------------------------------------------------
  // `_switch_readback_cmd_ids`
  // ---------------------------------------------------------------------------------------

  /** The last ENERGY state of an equipment that has ENERGY orders both ways. */
  predicate OwnsEnergyState(cmds: seq<Cmd>, c: Cmd) {
    var states := OfRole(cmds, EnergyFamily, StateRole);
    states != [] && states[|states|-1] == c && OfRole(cmds, EnergyFamily, OnRole) != []
      && OfRole(cmds, EnergyFamily, OffRole) != []
  }

  function EnergyIds(cmds: seq<Cmd>): set<int> {
    var states := OfRole(cmds, EnergyFamily, StateRole);
    if states != [] && OfRole(cmds, EnergyFamily, OnRole) != [] && OfRole(cmds, EnergyFamily, OffRole) != [] then
      {states[|states|-1].id}
    else {}
  }

  ghost function StateIds(groups: seq<Group>): set<int> { set g | g in groups :: g.state.id }

  /** What the first loop keeps of the ENERGY commands. */
  datatype EnergySeen = EnergySeen(state: Option<Cmd>, hasOn: bool, hasOff: bool)

  function SeeEnergy(e: EnergySeen, c: Cmd): EnergySeen {
    if Is(c, EnergyFamily, StateRole) then e.(state := Some(c))
    else if Is(c, EnergyFamily, OnRole) then e.(hasOn := true)
    else if Is(c, EnergyFamily, OffRole) then e.(hasOff := true)
    else e
  }

  ghost predicate Saw(e: EnergySeen, cmds: seq<Cmd>) {
    var states := OfRole(cmds, EnergyFamily, StateRole);
    && e.state == (if states == [] then None else Some(states[|states|-1]))
    && e.hasOn == (OfRole(cmds, EnergyFamily, OnRole) != []) && e.hasOff == (OfRole(cmds, EnergyFamily, OffRole) != [])
  }

  lemma SawStep(e: EnergySeen, cmds: seq<Cmd>, c: Cmd)
    requires Saw(e, cmds)
    ensures Saw(SeeEnergy(e, c), cmds + [c])
  {
    OfRoleAppend(cmds, c, EnergyFamily, StateRole);
    OfRoleAppend(cmds, c, EnergyFamily, OnRole);
    OfRoleAppend(cmds, c, EnergyFamily, OffRole);
  }

  /** The first loop: the dictionaries again, and what is needed of the ENERGY commands. */
  method IndexReadback(cmds: seq<Cmd>, key: string -> string)
    returns (byKey: ByKey, byFamily: ByFamily, keys: seq<(Family, string)>, families: seq<Family>, energy: set<int>)
    ensures IndexesKeys(byKey, cmds, key) && IndexesFamilies(byFamily, cmds)
    ensures Orders(keys, byKey.Keys) && Orders(families, byFamily.Keys)
    ensures energy == EnergyIds(cmds)
  {
    hide IndexesKeys, IndexesFamilies, Orders, Saw, EnergyIds, SeeEnergy;
    byKey, byFamily, keys, families := map[], map[], [], [];
    var seen := EnergySeen(None, false, false);
    assert cmds[..0] == [] && byKey.Keys == {} && byFamily.Keys == {};
    NothingSeen(key);
    for i := 0 to |cmds|
      invariant IndexesKeys(byKey, cmds[..i], key) && IndexesFamilies(byFamily, cmds[..i])
      invariant Orders(keys, byKey.Keys) && Orders(families, byFamily.Keys)
      invariant Saw(seen, cmds[..i])
    {
      var c := cmds[i];
      assert cmds[..i+1] == cmds[..i] + [c];
      SawStep(seen, cmds[..i], c);
      seen := SeeEnergy(seen, c);
      byKey, byFamily, keys, families := IndexOne(byKey, byFamily, keys, families, cmds[..i], key, c);
    }
    assert cmds[..|cmds|] == cmds;
    energy := if seen.state.Some? && seen.hasOn && seen.hasOff then {seen.state.value.id} else {};
    SeenEnergy(seen, cmds);
  }

  lemma NothingSeen(key: string -> string)
    ensures IndexesKeys(map[], [], key) && IndexesFamilies(map[], [])
    ensures Orders<(Family, string)>([], {}) && Orders<Family>([], {}) && Saw(EnergySeen(None, false, false), [])
  {
  }

  lemma SeenEnergy(seen: EnergySeen, cmds: seq<Cmd>)
    requires Saw(seen, cmds)
    ensures EnergyIds(cmds) == if seen.state.Some? && seen.hasOn && seen.hasOff then {seen.state.value.id} else {}
  {
    hide OfRole;
  }

  /** Second loop: the state of every complete name key. `owned` collects the trios it stands for. */
  method ConsumeNamed(cmds: seq<Cmd>, key: string -> string, byKey: ByKey, keys: seq<(Family, string)>, start: set<int>)
    returns (consumed: set<int>, withGroup: set<Family>, ghost owned: seq<Group>)
    requires IndexesKeys(byKey, cmds, key) && Orders(keys, byKey.Keys)
    ensures forall g :: g in owned <==> IsTrio(cmds, key, g) && HasNamedTrio(cmds, key, g.family)
    ensures consumed == start + StateIds(owned)
    ensures forall f :: f in withGroup <==> exists g :: g in owned && g.family == f
  {
    consumed, withGroup, owned := start, {}, [];
    for i := 0 to |keys|
      invariant forall g :: g in owned ==> FromEntry(byKey, g)
      invariant forall k :: 0 <= k < i && Complete(byKey[keys[k]]) ==>
        MakeGroup(keys[k].0, keys[k].1, byKey[keys[k]]) in owned
      invariant consumed == start + StateIds(owned)
      invariant forall f :: f in withGroup <==> exists g :: g in owned && g.family == f
    {
      if Complete(byKey[keys[i]]) {
        consumed, withGroup := consumed + {byKey[keys[i]][StateRole].id}, withGroup + {keys[i].0};
        owned := owned + [MakeGroup(keys[i].0, keys[i].1, byKey[keys[i]])];
      }
    }
    forall g ensures g in owned <==> IsTrio(cmds, key, g) && HasNamedTrio(cmds, key, g.family) {
      NamedGroupIsTrio(cmds, key, byKey, keys, owned, g);
    }
  }

  /** The trio of a family, if the family has no named trio and one command of each role. */
  method ConsumeLone(cmds: seq<Cmd>, key: string -> string, byFamily: ByFamily, consumed: set<int>, f: Family,
      ghost owned: seq<Group>)
    returns (id: Option<int>, ghost lone: Option<Group>)
    requires DistinctIds(cmds) && IndexesFamilies(byFamily, cmds) && f in byFamily && !HasNamedTrio(cmds, key, f)
    requires forall g :: g in owned ==> IsTrio(cmds, key, g) && g.family != f
    requires consumed == EnergyIds(cmds) + StateIds(owned)
    ensures lone.Some? ==> IsLoneTrio(cmds, key, lone.value) && lone.value.family == f
    ensures forall g :: IsLoneTrio(cmds, key, g) && g.family == f ==> lone == Some(g)
    ensures id == if lone.Some? then Some(lone.value.state.id) else None
  {
    hide IsTrio, HasNamedTrio, OfRole, Ungrouped;
    forall c | c in OfRole(cmds, f, StateRole) ensures c.id !in consumed {
      UnconsumedState(cmds, key, consumed, f, owned, c);
    }
    NothingFiltered(OfRole(cmds, f, StateRole), consumed);
    var states := Ungrouped(Listed(byFamily, f, StateRole), consumed);
    var ons, offs := Listed(byFamily, f, OnRole), Listed(byFamily, f, OffRole);
    assert states == OfRole(cmds, f, StateRole) && ons == OfRole(cmds, f, OnRole) && offs == OfRole(cmds, f, OffRole);
    LoneTrioIsTrio(cmds, key, f);
    if |states| == 1 && |ons| == 1 && |offs| == 1 {
      id, lone := Some(states[0].id), Some(Group(f, key(states[0].name), states[0], ons[0], offs[0]));
    } else {
      id, lone := None, None;
    }
  }

  lemma UnconsumedState(cmds: seq<Cmd>, key: string -> string, consumed: set<int>, f: Family, owned: seq<Group>, c: Cmd)
    requires DistinctIds(cmds) && Grouped(f) && c in OfRole(cmds, f, StateRole)
    requires forall g :: g in owned ==> IsTrio(cmds, key, g) && g.family != f
    requires consumed == EnergyIds(cmds) + StateIds(owned)
    ensures c.id !in consumed
  {
    OfRoleMembers(cmds, f, StateRole, c);
    if c.id in EnergyIds(cmds) {
      var states := OfRole(cmds, EnergyFamily, StateRole);
      OfRoleMembers(cmds, EnergyFamily, StateRole, states[|states|-1]);
      SameId(cmds, c, states[|states|-1]);
    }
    forall g | g in owned ensures g.state.id != c.id {
      TrioCommands(cmds, key, g);
      if g.state.id == c.id { SameId(cmds, c, g.state); }
    }
  }

  /**
    The mirror: the ids left to the switches are the ENERGY state of a complete ENERGY trio and the
    states of exactly the groups that `GroupSwitchCmds` builds.
   */
  method SwitchReadbackCmdIds(cmds: seq<Cmd>, key: string -> string) returns (consumed: set<int>)
    requires DistinctIds(cmds)
    ensures forall id :: id in consumed <==>
      id in EnergyIds(cmds) || exists g :: IsTrio(cmds, key, g) && g.state.id == id
  {
    var byKey, byFamily, keys, families, energy := IndexReadback(cmds, key);
    var withGroup: set<Family>;
    ghost var named: seq<Group>;
    consumed, withGroup, named := ConsumeNamed(cmds, key, byKey, keys, energy);
    forall g | IsLoneTrio(cmds, key, g) ensures g.family in families {
      assert Listed(byFamily, g.family, StateRole) == [g.state];
    }
    ghost var lones;
    consumed, lones := ConsumeLones(cmds, key, byFamily, families, withGroup, consumed, named);
    assert forall g :: IsTrio(cmds, key, g) <==> g in named || g in lones;
  }

  /** Third loop: the families without group. */
  method ConsumeLones(cmds: seq<Cmd>, key: string -> string, byFamily: ByFamily, families: seq<Family>,
      withGroup: set<Family>,
                      start: set<int>, ghost named: seq<Group>)
    returns (consumed: set<int>, ghost lones: seq<Group>)
    requires DistinctIds(cmds) && IndexesFamilies(byFamily, cmds) && Orders(families, byFamily.Keys)
    requires forall g :: g in named <==> IsTrio(cmds, key, g) && HasNamedTrio(cmds, key, g.family)
    requires forall f :: f in withGroup <==> exists g :: g in named && g.family == f
    requires start == EnergyIds(cmds) + StateIds(named)
    ensures forall g :: g in lones <==> IsLoneTrio(cmds, key, g) && g.family in families
    ensures consumed == start + StateIds(lones)
  {
    hide IsTrio, HasNamedTrio, EnergyIds;
    consumed, lones := start, [];
    for i := 0 to |families|
      invariant forall g :: g in lones ==> IsLoneTrio(cmds, key, g) && g.family in families[..i]
      invariant forall g :: IsLoneTrio(cmds, key, g) && g.family in families[..i] ==> g in lones
      invariant consumed == start + StateIds(lones)
    {
      var f := families[i];
      assert families[..i+1] == families[..i] + [f];
      assert f !in families[..i];
      if f in withGroup {
        continue;
      }
      NoGroupNoNamedTrio(cmds, key, named, f);
      ghost var owned := named + lones;
      assert StateIds(owned) == StateIds(named) + StateIds(lones);
      var id;
      ghost var lone;
      id, lone := ConsumeLone(cmds, key, byFamily, consumed, f, owned);
      if id.Some? {
        consumed := consumed + {id.value};
        lones := lones + [lone.value];
        assert StateIds(lones) == StateIds(lones[..|lones|-1]) + {id.value};
      }
    }
    assert families[..|families|] == families;
  }

  /** A command whose id is left to the switches is the state of a trio, and conversely. */
  lemma ReadbackIsOwnedState(cmds: seq<Cmd>, key: string -> string, consumed: set<int>, c: Cmd)
    requires DistinctIds(cmds) && c in cmds
    requires forall id :: id in consumed <==>
      id in EnergyIds(cmds) || exists g :: IsTrio(cmds, key, g) && g.state.id == id
    ensures c.id in consumed <==> OwnsEnergyState(cmds, c) || OwnsState(cmds, key, c)
  {
    if c.id in EnergyIds(cmds) {
      var states := OfRole(cmds, EnergyFamily, StateRole);
      OfRoleMembers(cmds, EnergyFamily, StateRole, states[|states|-1]);
      SameId(cmds, c, states[|states|-1]);
    }
    if g :| IsTrio(cmds, key, g) && g.state.id == c.id {
      TrioCommands(cmds, key, g);
      SameId(cmds, c, g.state);
      assert OwnsState(cmds, key, c);
    }
  }
}
