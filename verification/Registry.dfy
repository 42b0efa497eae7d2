/**
  The mappers that may return several entities and the registry that orders them (`mapping/switch.py`,
  `mapping/sensor.py`, `mapping/binary_sensor.py`, `mapping/registry.py`).  The detection tables and the
  mappers that return at most one entity for the whole equipment are parameters.
 */
module Registry {
  import opened Prelude
  import opened Decision
  import opened SwitchGroups
  import opened DiscoveryTopics

  /**
    One entity. `cmdId` is set when its identity is that of a command, and its node is then the command's.
    `stateCmd` is the command its state is read from, when these mappers choose it.
  */
  datatype Mapped = Mapped(haType: string, eqId: int, cmdId: Option<int>, stateCmd: Option<int>, haName: string,
                           confidence: Confidence, deviceClass: Option<string>)

  datatype Equipment = Equipment(id: int, name: string, cmds: seq<Cmd>, multiSensorType: bool, lightAllowed: bool)

  datatype Tables = Tables(
    key: string -> string,                               // name key of switch.py and binary_sensor.py
    sensorKey: string -> string,                         // name key of sensor.py
    sensorClass: GenericType -> Option<Option<string>>,  // listed sensor types and their device class
    unitClass: string -> Option<string>,
    reliableUnit: Cmd -> bool,
    binaryClass: GenericType -> Option<Option<string>>,
    lightAction: GenericType -> bool,
    energySwitch: Equipment -> Option<Confidence>,       // `_map_energy_switch`
    light: Equipment -> Option<Mapped>, cover: Equipment -> Option<Mapped>, climate: Equipment -> Option<Mapped>,
    alarm: Equipment -> Option<Mapped>, presence: Equipment -> Option<Mapped>, button: Equipment -> Option<Mapped>,
    fallback: Equipment -> Option<Mapped>)

  /**
    A mapper that returns at most one entity returns it for the whole equipment; none of them returns a binary sensor.
  */
  predicate EquipmentScoped(o: Option<Mapped>, eq: Equipment) {
    o.Some? ==>
      o.value.eqId == eq.id && o.value.cmdId.None? && o.value.haType != "" && NoSlash(o.value.haType)
        && o.value.haType != BINARY
  }

  predicate Sound(t: Tables, eq: Equipment) {
    && EquipmentScoped(t.light(eq), eq) && (t.light(eq).Some? ==> t.light(eq).value.haType == LIGHT)
    && EquipmentScoped(t.cover(eq), eq) && EquipmentScoped(t.climate(eq), eq) && EquipmentScoped(t.alarm(eq), eq)
    && EquipmentScoped(t.presence(eq), eq) && EquipmentScoped(t.button(eq), eq) && EquipmentScoped(t.fallback(eq), eq)
  }

  const SWITCH := "switch"
  const SENSOR := "sensor"
  const BINARY := "binary_sensor"
  const LIGHT := "light"

  function Pub(m: Mapped): Published {
    Published(m.haType, m.eqId, if m.cmdId.Some? then Some(CmdNode(m.eqId, m.cmdId.value)) else None)
  }

  function Pubs(ms: seq<Mapped>): (r: seq<Published>)
    ensures |r| == |ms| && forall i :: 0 <= i < |ms| ==> r[i] == Pub(ms[i])
  {
    seq(|ms|, i requires 0 <= i < |ms| => Pub(ms[i]))
  }

  // ---------------------------------------------------------------------------------------
  // Shapes of results
  // ---------------------------------------------------------------------------------------

  /** Entities of one type: each of its own command, or a single one. */
  predicate OneType(r: seq<Mapped>, eq: Equipment, haType: string) {
    && (forall i :: 0 <= i < |r| ==> r[i].haType == haType && r[i].eqId == eq.id)
    && (|r| > 1 ==> forall i :: 0 <= i < |r| ==> r[i].cmdId.Some?)
    && (forall i, j :: 0 <= i < j < |r| ==> r[i].cmdId != r[j].cmdId)
  }

  // ---------------------------------------------------------------------------------------
  // Switch
  // ---------------------------------------------------------------------------------------

  function TrioEntity(eq: Equipment, g: Group): Mapped {
    Mapped(SWITCH, eq.id, Some(g.state.id), Some(g.state.id), g.state.name, Probable, None)
  }

  /** The entities of the groups, in their order: the first one is the primary. */
  ghost predicate ShowsGroups(r: seq<Mapped>, eq: Equipment, groups: seq<Group>) {
    |r| == |groups| && forall i :: 0 <= i < |r| ==> r[i] == TrioEntity(eq, groups[i])
  }

  /** What `SwitchMapper.map_all` returns: one entity per trio, in order, else at most one for the ENERGY commands. */
  ghost predicate IsSwitchList(r: seq<Mapped>, eq: Equipment, t: Tables) {
    && OneType(r, eq, SWITCH)
    && if (exists g :: IsTrio(eq.cmds, t.key, g))
       then exists groups :: IsTrioList(groups, eq.cmds, t.key) && ShowsGroups(r, eq, groups)
       else r == EnergySwitch(eq, t)
  }

  function EnergySwitch(eq: Equipment, t: Tables): seq<Mapped> {
    if t.energySwitch(eq).Some? then [Mapped(SWITCH, eq.id, None, None, eq.name, t.energySwitch(eq).value, None)]
    else []
  }

  /** Without a trio, one switch for the whole equipment when the ENERGY commands give one. */
  lemma EnergySwitchMeaning(eq: Equipment, t: Tables, r: seq<Mapped>)
    requires IsSwitchList(r, eq, t) && !exists g :: IsTrio(eq.cmds, t.key, g)
    ensures |r| <= 1 && (r != [] <==> t.energySwitch(eq).Some?)
    ensures r != [] ==> r[0].haType == "switch" && r[0].eqId == eq.id && r[0].cmdId.None? && r[0].haName == eq.name
                        && Some(r[0].confidence) == t.energySwitch(eq)
  {
  }

  method MapSwitches(eq: Equipment, t: Tables) returns (r: seq<Mapped>)
    requires DistinctIds(eq.cmds)
    ensures IsSwitchList(r, eq, t)
  {
    hide IsTrio, Precedes;
    var groups := GroupSwitchCmds(eq.cmds, t.key);
    r := [];
    if groups != [] {
      assert groups[0] in groups;
      for i := 0 to |groups|
        invariant |r| == i
        invariant forall k :: 0 <= k < i ==> r[k] == TrioEntity(eq, groups[k])
      {
        r := r + [TrioEntity(eq, groups[i])];
      }
      forall i, j | 0 <= i < j < |r| ensures r[i].cmdId != r[j].cmdId {
        assert groups[i] in groups && groups[j] in groups;
        StatesDiffer(eq.cmds, t.key, groups[i], groups[j]);
      }
      assert ShowsGroups(r, eq, groups);
    } else if t.energySwitch(eq).Some? {
      r := [Mapped(SWITCH, eq.id, None, None, eq.name, t.energySwitch(eq).value, None)];
    }
  }

  /** Two trios never share their state command. */
  lemma StatesDiffer(cmds: seq<Cmd>, key: string -> string, g: Group, h: Group)
    requires DistinctIds(cmds) && IsTrio(cmds, key, g) && IsTrio(cmds, key, h) && g != h
    ensures g.state.id != h.state.id
  {
    if g.state.id == h.state.id {
      TrioCommands(cmds, key, g);
      TrioCommands(cmds, key, h);
      SameId(cmds, g.state, h.state);
    }
  }

  // ---------------------------------------------------------------------------------------
  // Binary sensor
  // ---------------------------------------------------------------------------------------

  predicate IsBinaryInfo(c: Cmd) { c.info && !c.numeric && c.binary }

  predicate IsNumericInfo(c: Cmd) { c.info && !c.binary && c.numeric }

  predicate SwitchOwned(c: Cmd) { c.generic.Some? && c.generic.value.Actuator? }

  predicate AnyState(c: Cmd) { c.generic.Some? && c.generic.value.Actuator? && c.generic.value.role == StateRole }

  /** `_is_multi_domain_eq`. */
  predicate IsMultiDomain(eq: Equipment) {
    && Count(eq.cmds, SwitchOwned) > 0
    && (Count(eq.cmds, (c: Cmd) => IsBinaryInfo(c) && !SwitchOwned(c)) > 0 || Count(eq.cmds, IsNumericInfo) >= 2
       || Count(eq.cmds, AnyState) >= 2)
  }

  ghost predicate SomeCmd(eq: Equipment, p: Cmd -> bool) { exists i :: 0 <= i < |eq.cmds| && p(eq.cmds[i]) }

  ghost predicate TwoCmds(eq: Equipment, p: Cmd -> bool) {
    exists i, j :: 0 <= i < j < |eq.cmds| && p(eq.cmds[i]) && p(eq.cmds[j])
  }

  predicate InFamilies(c: Cmd, families: set<Family>) {
    c.generic.Some? && c.generic.value.Actuator? && c.generic.value.family in families
  }

  /** A switch with a binary command of another kind, two measures, or two states. */
  lemma MultiDomainMeaning(eq: Equipment)
    ensures IsMultiDomain(eq) <==>
      && SomeCmd(eq, (c: Cmd) => c.generic.Some? && c.generic.value.Actuator?)
      && (|| SomeCmd(eq,
         (c: Cmd) => c.info && c.binary && !c.numeric && !(c.generic.Some? && c.generic.value.Actuator?))
          || TwoCmds(eq, (c: Cmd) => c.info && c.numeric && !c.binary)
          || TwoCmds(eq, (c: Cmd) =>
               c.generic == Some(Actuator(EnergyFamily, StateRole))
                 || c.generic == Some(Actuator(SwitchFamily, StateRole))
               || c.generic == Some(Actuator(FanFamily, StateRole))))
  {
    var other := (c: Cmd) => IsBinaryInfo(c) && !SwitchOwned(c);
    SomeCounted(eq, SwitchOwned, (c: Cmd) => c.generic.Some? && c.generic.value.Actuator?);
    SomeCounted(eq, other,
      (c: Cmd) => c.info && c.binary && !c.numeric && !(c.generic.Some? && c.generic.value.Actuator?));
    TwoCounted(eq, IsNumericInfo, (c: Cmd) => c.info && c.numeric && !c.binary);
    forall c: Cmd ensures AnyState(c) <==>
      c.generic == Some(Actuator(EnergyFamily, StateRole)) || c.generic == Some(Actuator(SwitchFamily, StateRole))
      || c.generic == Some(Actuator(FanFamily, StateRole))
    {
      if AnyState(c) {
        match c.generic.value.family case EnergyFamily => case SwitchFamily => case FanFamily =>
      }
    }
    TwoCounted(eq, AnyState, (c: Cmd) =>
      c.generic == Some(Actuator(EnergyFamily, StateRole)) || c.generic == Some(Actuator(SwitchFamily, StateRole))
      || c.generic == Some(Actuator(FanFamily, StateRole)));
  }

  lemma SomeCounted(eq: Equipment, p: Cmd -> bool, q: Cmd -> bool)
    requires forall c :: p(c) == q(c)
    ensures Count(eq.cmds, p) > 0 <==> SomeCmd(eq, q)
  {
    CountAll(eq.cmds, p);
  }

  lemma TwoCounted(eq: Equipment, p: Cmd -> bool, q: Cmd -> bool)
    requires forall c :: p(c) == q(c)
    ensures Count(eq.cmds, p) >= 2 <==> TwoCmds(eq, q)
  {
    CountedTwice(eq.cmds, p);
    if i, j :| 0 <= i < j < |eq.cmds| && p(eq.cmds[i]) && p(eq.cmds[j]) {
      CountTwo(eq.cmds, p, i, j);
    }
  }

  lemma {:induction false} CountedTwice(cmds: seq<Cmd>, p: Cmd -> bool)
    ensures Count(cmds, p) >= 2 ==> exists i, j :: 0 <= i < j < |cmds| && p(cmds[i]) && p(cmds[j])
  {
    if cmds != [] {
      var n := |cmds| - 1;
      var front := cmds[..n];
      CountedTwice(front, p);
      CountAll(front, p);
      if Count(front, p) >= 2 {
        var i, j :| 0 <= i < j < |front| && p(front[i]) && p(front[j]);
        assert p(cmds[i]) && p(cmds[j]);
      } else if Count(cmds, p) >= 2 {
        var i :| 0 <= i < |front| && p(front[i]);
        assert p(cmds[i]) && p(cmds[n]);
      }
    }
  }

  /** The binary commands left to the binary sensors: every one but the states the switches own. */
  ghost predicate LeftToBinary(eq: Equipment, t: Tables, c: Cmd) {
    IsBinaryInfo(c) && !OwnsEnergyState(eq.cmds, c) && !OwnsState(eq.cmds, t.key, c)
  }

  /** The commands that are kept, in order, each as an entity. */
  function Select(cmds: seq<Cmd>, keep: Cmd -> bool, make: Cmd -> Mapped): seq<Mapped> {
    if cmds == [] then []
    else
      var last := cmds[|cmds|-1];
      Select(cmds[..|cmds|-1], keep, make) + if keep(last) then [make(last)] else []
  }

  lemma SelectAppend(cmds: seq<Cmd>, c: Cmd, keep: Cmd -> bool, make: Cmd -> Mapped)
    ensures Select(cmds + [c], keep, make) == Select(cmds, keep, make) + if keep(c) then [make(c)] else []
  {
  }

  lemma {:induction false} SelectAgrees(cmds: seq<Cmd>, keep: Cmd -> bool, keep': Cmd -> bool, make: Cmd -> Mapped)
    requires forall c :: c in cmds ==> keep(c) == keep'(c)
    ensures Select(cmds, keep, make) == Select(cmds, keep', make)
  {
    if cmds != [] {
      SelectAgrees(cmds[..|cmds|-1], keep, keep', make);
      assert cmds[|cmds|-1] in cmds;
    }
  }

  lemma {:induction false} SelectNone(cmds: seq<Cmd>, keep: Cmd -> bool, make: Cmd -> Mapped)
    requires forall c :: c in cmds ==> !keep(c)
    ensures Select(cmds, keep, make) == []
  {
    if cmds != [] {
      SelectNone(cmds[..|cmds|-1], keep, make);
      assert cmds[|cmds|-1] in cmds;
    }
  }

  lemma {:induction false} SelectMembers(cmds: seq<Cmd>, keep: Cmd -> bool, make: Cmd -> Mapped)
    ensures forall m :: m in Select(cmds, keep, make) ==>
      exists k :: 0 <= k < |cmds| && keep(cmds[k]) && m == make(cmds[k])
    ensures forall k :: 0 <= k < |cmds| && keep(cmds[k]) ==> make(cmds[k]) in Select(cmds, keep, make)
  {
    if cmds != [] {
      var n := |cmds| - 1;
      var front := cmds[..n];
      SelectMembers(front, keep, make);
      forall m | m in Select(cmds, keep, make)
        ensures exists k :: 0 <= k < |cmds| && keep(cmds[k]) && m == make(cmds[k])
      {
        if m in Select(front, keep, make) {
          var k :| 0 <= k < |front| && keep(front[k]) && m == make(front[k]);
          assert cmds[k] == front[k];
        } else {
          assert keep(cmds[n]) && m == make(cmds[n]);
        }
      }
      forall k | 0 <= k < |cmds| && keep(cmds[k]) ensures make(cmds[k]) in Select(cmds, keep, make) {
        if k < n {
          assert cmds[k] == front[k];
        }
      }
    }
  }

  lemma {:induction false} SelectIsOneType(eq: Equipment, cmds: seq<Cmd>, keep: Cmd -> bool, make: Cmd -> Mapped,
      haType: string)
    requires DistinctIds(cmds)
    requires forall c :: make(c).haType == haType && make(c).eqId == eq.id && make(c).cmdId == Some(c.id)
    ensures OneType(Select(cmds, keep, make), eq, haType)
  {
    if cmds != [] {
      var front, last := cmds[..|cmds|-1], cmds[|cmds|-1];
      SelectIsOneType(eq, front, keep, make, haType);
      SelectMembers(front, keep, make);
      forall i | 0 <= i < |Select(front, keep, make)|
        ensures Select(front, keep, make)[i].cmdId != Some(last.id) && Select(front, keep, make)[i].cmdId.Some?
      {
        assert Select(front, keep, make)[i] in Select(front, keep, make);
        var k :| 0 <= k < |front| && Select(front, keep, make)[i] == make(front[k]);
      }
    }
  }

  /** A binary command of a listed type. */
  predicate ListedBinary(c: Cmd, t: Tables) {
    c.generic.Some? && t.binaryClass(c.generic.value).Some? && IsBinaryInfo(c)
  }

  function First(cmds: seq<Cmd>, p: Cmd -> bool): (r: Option<Cmd>)
    ensures r.Some? ==> r.value in cmds && p(r.value)
  {
    if cmds == [] then None else if p(cmds[0]) then Some(cmds[0]) else First(cmds[1..], p)
  }

  lemma FirstStep(cmds: seq<Cmd>, p: Cmd -> bool, i: nat)
    requires i < |cmds|
    ensures First(cmds[i..], p) == if p(cmds[i]) then Some(cmds[i]) else First(cmds[i+1..], p)
  {
  }

  lemma NoFirst(p: Cmd -> bool)
    ensures First([], p) == None
  {
  }

  function FirstListed(eq: Equipment, t: Tables): Option<Cmd> { First(eq.cmds, (c: Cmd) => ListedBinary(c, t)) }

  function SingleBinary(eq: Equipment, t: Tables): seq<Mapped> {
    match FirstListed(eq, t)
    case None => []
    case Some(c) => [Mapped(BINARY, eq.id, None, Some(c.id), eq.name, Sure, t.binaryClass(c.generic.value).value)]
  }

  function BinaryEntity(eq: Equipment, t: Tables, c: Cmd): Mapped {
    Entity(BINARY, eq, c, if c.generic.Some? then t.binaryClass(c.generic.value).GetOr(None) else None)
  }

  /**
    What `BinarySensorMapper.map_all` returns: every command left in the multi-domain case, else the first listed one.
  */
  ghost predicate IsBinaryList(r: seq<Mapped>, eq: Equipment, t: Tables) {
    r == if IsMultiDomain(eq) then
        Select(eq.cmds, (c: Cmd) => LeftToBinary(eq, t, c), (c: Cmd) => BinaryEntity(eq, t, c))
      else SingleBinary(eq, t)
  }

  /** Multi-domain: one binary sensor per binary command that is no state of a switch. */
  lemma BinaryListMeaning(eq: Equipment, t: Tables, r: seq<Mapped>, m: Mapped)
    requires IsMultiDomain(eq) && IsBinaryList(r, eq, t)
    ensures m in r <==>
      exists i :: 0 <= i < |eq.cmds| && IsBinary(eq.cmds[i])
                  && !OwnsState(eq.cmds, t.key, eq.cmds[i]) && !OwnsEnergyState(eq.cmds, eq.cmds[i])
                  && IsEntityOf(m, "binary_sensor", eq, eq.cmds[i], BinaryClass(eq.cmds[i], t))
  {
    hide IsMultiDomain, OwnsState, OwnsEnergyState;
    SelectMembers(eq.cmds, (c: Cmd) => LeftToBinary(eq, t, c), (c: Cmd) => BinaryEntity(eq, t, c));
  }

  predicate IsBinary(c: Cmd) { c.info && c.binary && !c.numeric }

  /** The class of a listed type. */
  function BinaryClass(c: Cmd, t: Tables): (r: Option<string>)
    ensures c.generic.None? ==> r.None?
    ensures c.generic.Some? && t.binaryClass(c.generic.value).Some? ==> Some(r) == t.binaryClass(c.generic.value)
    ensures c.generic.Some? && t.binaryClass(c.generic.value).None? ==> r.None?
  {
    match c.generic
    case None => None
    case Some(generic) => match t.binaryClass(generic) case None => None case Some(class') => class'
  }

  /** Otherwise one binary sensor at most, for the whole equipment: the first binary command of a listed type. */
  lemma SingleBinaryMeaning(eq: Equipment, t: Tables, r: seq<Mapped>)
    requires !IsMultiDomain(eq) && IsBinaryList(r, eq, t)
    ensures var listed := (c: Cmd) => IsBinary(c) && c.generic.Some? && t.binaryClass(c.generic.value).Some?;
      && |r| <= 1 && (r != [] <==> SomeCmd(eq, listed))
      && (r != [] ==>
         && r[0].haType == "binary_sensor" && r[0].eqId == eq.id && r[0].cmdId.None? && r[0].haName == eq.name
         && r[0].confidence == Sure
         && exists c :: IsFirstThat(c, eq, listed)
              && r[0].stateCmd == Some(c.id) && Some(r[0].deviceClass) == t.binaryClass(c.generic.value))
  {
    hide IsMultiDomain, First;
    var given := (c: Cmd) => ListedBinary(c, t);
    var listed := (c: Cmd) => IsBinary(c) && c.generic.Some? && t.binaryClass(c.generic.value).Some?;
    assert forall c :: given(c) == listed(c);
    FirstMeaning(eq.cmds, given);
    if SomeCmd(eq, listed) {
      assert IsFirstThat(First(eq.cmds, given).value, eq, listed);
    }
  }

  method MapBinarySensors(eq: Equipment, t: Tables) returns (r: seq<Mapped>)
    requires DistinctIds(eq.cmds)
    ensures IsBinaryList(r, eq, t) && OneType(r, eq, BINARY)
  {
    hide IsMultiDomain, ListedBinary, First;
    r := [];
    if IsMultiDomain(eq) {
      r := MapMultiDomain(eq, t);
    } else {
      ghost var p := (c: Cmd) => ListedBinary(c, t);
      for i := 0 to |eq.cmds|
        invariant First(eq.cmds, p) == First(eq.cmds[i..], p)
      {
        FirstStep(eq.cmds, p, i);
        var c := eq.cmds[i];
        if ListedBinary(c, t) {
          assert FirstListed(eq, t) == Some(c);
          return SingleBinary(eq, t);
        }
      }
      NoFirst(p);
    }
  }

  /** A binary sensor shows the state of a switch trio. */
  ghost predicate Reemits(r: seq<Mapped>, eq: Equipment, t: Tables) {
    exists i, g :: 0 <= i < |r| && IsTrio(eq.cmds, t.key, g) && r[i].stateCmd == Some(g.state.id)
  }

  /**
    Multi-domain mapping never shows a trio's state twice.  Outside it the state is shown again exactly
    when it is the first listed binary command.
  */
  lemma ReemitsExactlyWhen(eq: Equipment, t: Tables, r: seq<Mapped>)
    requires DistinctIds(eq.cmds) && IsBinaryList(r, eq, t)
    ensures Reemits(r, eq, t) <==>
      !IsMultiDomain(eq) && FirstListed(eq, t).Some? && OwnsState(eq.cmds, t.key, FirstListed(eq, t).value)
  {
    hide IsTrio, IsMultiDomain, ListedBinary, Select;
    if Reemits(r, eq, t) {
      var i, g :| 0 <= i < |r| && IsTrio(eq.cmds, t.key, g) && r[i].stateCmd == Some(g.state.id);
      TrioCommands(eq.cmds, t.key, g);
      if IsMultiDomain(eq) {
        var keep, make := (c: Cmd) => LeftToBinary(eq, t, c), (c: Cmd) => BinaryEntity(eq, t, c);
        SelectMembers(eq.cmds, keep, make);
        assert r[i] in Select(eq.cmds, keep, make);
        var k :| 0 <= k < |eq.cmds| && keep(eq.cmds[k]) && r[i] == make(eq.cmds[k]);
        SameId(eq.cmds, g.state, eq.cmds[k]);
      } else {
        SameId(eq.cmds, g.state, FirstListed(eq, t).value);
      }
      assert OwnsState(eq.cmds, t.key, g.state);
    }
    if !IsMultiDomain(eq) && FirstListed(eq, t).Some? && OwnsState(eq.cmds, t.key, FirstListed(eq, t).value) {
      var g :| IsTrio(eq.cmds, t.key, g) && g.state == FirstListed(eq, t).value;
      assert r[0].stateCmd == Some(g.state.id);
    }
  }

  function Entity(haType: string, eq: Equipment, c: Cmd, deviceClass: Option<string>): Mapped {
    Mapped(haType, eq.id, Some(c.id), Some(c.id), c.name, Sure, deviceClass)
  }

  /** `_map_multi_domain`: the exclusion set is the other algorithm's, its meaning is the trios'. */
  method MapMultiDomain(eq: Equipment, t: Tables) returns (r: seq<Mapped>)
    requires DistinctIds(eq.cmds)
    ensures OneType(r, eq, BINARY)
    ensures r == Select(eq.cmds, (c: Cmd) => LeftToBinary(eq, t, c), (c: Cmd) => BinaryEntity(eq, t, c))
  {
    var consumed := SwitchReadbackCmdIds(eq.cmds, t.key);
    hide IsTrio, EnergyIds, OwnsState, OwnsEnergyState, Select;
    ghost var make := (c: Cmd) => BinaryEntity(eq, t, c);
    ghost var keep := (c: Cmd) => IsBinaryInfo(c) && c.id !in consumed;
    r := [];
    assert Select(eq.cmds[..0], keep, make) == [] by { NothingSelected(keep, make); }
    for i := 0 to |eq.cmds|
      invariant r == Select(eq.cmds[..i], keep, make)
    {
      var c := eq.cmds[i];
      assert eq.cmds[..i+1] == eq.cmds[..i] + [c];
      SelectAppend(eq.cmds[..i], c, keep, make);
      if IsBinaryInfo(c) && c.id !in consumed {
        r := r + [BinaryEntity(eq, t, c)];
      }
    }
    assert eq.cmds[..|eq.cmds|] == eq.cmds;
    SelectIsOneType(eq, eq.cmds, keep, make, BINARY);
    ghost var left := (c: Cmd) => LeftToBinary(eq, t, c);
    forall c | c in eq.cmds ensures keep(c) == left(c) {
      ReadbackIsOwnedState(eq.cmds, t.key, consumed, c);
    }
    SelectAgrees(eq.cmds, keep, left, make);
  }

  lemma NothingSelected(keep: Cmd -> bool, make: Cmd -> Mapped)
    ensures Select([], keep, make) == []
  {
  }

  // ---------------------------------------------------------------------------------------
  // Sensor
  // ---------------------------------------------------------------------------------------

  predicate OfFamily(c: Cmd, f: Family) { c.generic.Some? && c.generic.value.Actuator? && c.generic.value.family == f }

  /** `_derive_sensor_metadata`, the device class only. */
  function DerivedClass(c: Cmd, t: Tables): Option<string> {
    if c.generic.Some? && t.sensorClass(c.generic.value).Some? then t.sensorClass(c.generic.value).value
    else if c.unit.Some? && c.unit.value != "" && t.reliableUnit(c) then t.unitClass(c.unit.value)
    else None
  }

  predicate PowerOrEnergy(deviceClass: Option<string>) { deviceClass == Some("power") || deviceClass == Some("energy") }

  /** `_has_structural_multi_entity_sensor_shape`: the FAN family is no switch shape here. */
  predicate StructuralShape(eq: Equipment, t: Tables) {
    var switchShape := Count(eq.cmds, (c: Cmd) => OfFamily(c, EnergyFamily) || OfFamily(c, SwitchFamily)) > 0;
    || (switchShape && Count(eq.cmds, IsNumericInfo) >= 2)
    || (!switchShape && Count(eq.cmds, (c: Cmd) => c.generic.Some? && t.lightAction(c.generic.value)) > 0
        && Count(eq.cmds, (c: Cmd) => IsNumericInfo(c) && PowerOrEnergy(DerivedClass(c, t))) > 0 && eq.lightAllowed)
  }

  /** `_is_actionable_readback_consumed_by_switch`. */
  predicate ConsumedBySwitch(c: Cmd, eq: Equipment, t: Tables) {
    if Is(c, EnergyFamily, StateRole) then
      var states := OfRole(eq.cmds, EnergyFamily, StateRole);
      Count(eq.cmds, (o: Cmd) => Is(o, EnergyFamily, OnRole) || Is(o, EnergyFamily, OffRole)) > 0 && states != []
        && states[|states|-1].id == c.id
    else if Is(c, SwitchFamily, StateRole) then
      var k := t.sensorKey(c.name);
      LastNamed(eq.cmds, t.sensorKey, SwitchFamily, k, OnRole).Some?
        && LastNamed(eq.cmds, t.sensorKey, SwitchFamily, k, OffRole).Some?
    else false
  }

  /** A SWITCH command of this role has the name key of the command. */
  predicate HasNamesake(eq: Equipment, t: Tables, c: Cmd, role: Role) {
    exists o :: o in eq.cmds && Is(o, SwitchFamily, role) && t.sensorKey(o.name) == t.sensorKey(c.name)
  }

  predicate IsLastEnergyState(eq: Equipment, c: Cmd, i: int) {
    && 0 <= i < |eq.cmds| && eq.cmds[i] == c
    && forall k :: i < k < |eq.cmds| ==> eq.cmds[k].generic != Some(Actuator(EnergyFamily, StateRole))
  }

  /**
    A state is left to the switches when the last ENERGY state has an action, or a SWITCH state both, under its name.
  */
  lemma ConsumedMeaning(c: Cmd, eq: Equipment, t: Tables)
    requires DistinctIds(eq.cmds) && c in eq.cmds
    ensures ConsumedBySwitch(c, eq, t) <==>
      || (&& c.generic == Some(Actuator(EnergyFamily, StateRole))
          && SomeCmd(eq, (o: Cmd) => Is(o, EnergyFamily, OnRole) || Is(o, EnergyFamily, OffRole))
          && exists i :: IsLastEnergyState(eq, c, i))
      || (&& c.generic == Some(Actuator(SwitchFamily, StateRole))
          && HasNamesake(eq, t, c, OnRole) && HasNamesake(eq, t, c, OffRole))
  {
    hide LastNamed, OfRole, IsLastEnergyState;
    var k := t.sensorKey(c.name);
    LastNamedIsLast(eq.cmds, t.sensorKey, SwitchFamily, k, OnRole);
    LastNamedIsLast(eq.cmds, t.sensorKey, SwitchFamily, k, OffRole);
    SomeCounted(eq, (o: Cmd) => Is(o, EnergyFamily, OnRole) || Is(o, EnergyFamily, OffRole),
                (o: Cmd) => Is(o, EnergyFamily, OnRole) || Is(o, EnergyFamily, OffRole));
    if Is(c, EnergyFamily, StateRole) {
      LastEnergyState(c, eq);
    }
  }

  lemma LastEnergyState(c: Cmd, eq: Equipment)
    requires DistinctIds(eq.cmds) && c in eq.cmds && Is(c, EnergyFamily, StateRole)
    ensures var states := OfRole(eq.cmds, EnergyFamily, StateRole);
      states != [] && (states[|states|-1].id == c.id <==> exists i :: IsLastEnergyState(eq, c, i))
  {
    var states := OfRole(eq.cmds, EnergyFamily, StateRole);
    OfRoleMembers(eq.cmds, EnergyFamily, StateRole, c);
    LastOfRole(eq.cmds, EnergyFamily, StateRole);
    hide OfRole;
    var last := states[|states|-1];
    var i :| IsLastOfRole(eq.cmds, EnergyFamily, StateRole, i) && eq.cmds[i] == last;
    assert IsLastEnergyState(eq, last, i);
    assert forall j :: IsLastEnergyState(eq, c, j) ==> j == i;
    if last.id == c.id {
      SameId(eq.cmds, last, c);
    }
  }

  ghost predicate IsLastOfRole(cmds: seq<Cmd>, f: Family, r: Role, i: int) {
    0 <= i < |cmds| && Is(cmds[i], f, r) && forall k :: i < k < |cmds| ==> !Is(cmds[k], f, r)
  }

  /** The last of the commands of a role is the last one listed. */
  lemma {:induction false} LastOfRole(cmds: seq<Cmd>, f: Family, r: Role)
    requires OfRole(cmds, f, r) != []
    ensures exists i :: IsLastOfRole(cmds, f, r, i) && cmds[i] == OfRole(cmds, f, r)[|OfRole(cmds, f, r)|-1]
  {
    var n := |cmds| - 1;
    if Is(cmds[n], f, r) {
      assert IsLastOfRole(cmds, f, r, n);
    } else {
      LastOfRole(cmds[..n], f, r);
      hide OfRole, Is, IsLastOfRole;
      var i :| IsLastOfRole(cmds[..n], f, r, i) && cmds[..n][i] == OfRole(cmds[..n], f, r)[|OfRole(cmds[..n], f, r)|-1];
      StillLastOfRole(cmds, f, r, i);
    }
  }

  lemma StillLastOfRole(cmds: seq<Cmd>, f: Family, r: Role, i: int)
    requires cmds != [] && !Is(cmds[|cmds|-1], f, r) && IsLastOfRole(cmds[..|cmds|-1], f, r, i)
    ensures IsLastOfRole(cmds, f, r, i) && cmds[..|cmds|-1][i] == cmds[i]
  {
    hide Is;
    assert forall j :: 0 <= j < |cmds| - 1 ==> cmds[j] == cmds[..|cmds|-1][j];
  }

  /** The class of a listed type, else that of a reliable unit, else none. */
  lemma DerivedClassMeaning(c: Cmd, t: Tables)
    ensures var listed := c.generic.Some? && t.sensorClass(c.generic.value).Some?;
      var byUnit := c.unit.Some? && c.unit.value != "" && t.reliableUnit(c);
      && (listed ==> Some(DerivedClass(c, t)) == t.sensorClass(c.generic.value))
      && (!listed && byUnit ==> DerivedClass(c, t) == t.unitClass(c.unit.value))
      && (!listed && !byUnit ==> DerivedClass(c, t) == None)
  {
  }

  /** One sensor per measure: a switch shape and two measures, or an allowed light with a measure of power or energy. */
  lemma StructuralMeaning(eq: Equipment, t: Tables)
    ensures var switchShape := SomeCmd(eq, (c: Cmd) => InFamilies(c, {EnergyFamily, SwitchFamily}));
      var powerMeasure := SomeCmd(eq, (c: Cmd) => c.info && c.numeric && !c.binary
        && (DerivedClass(c, t) == Some("power") || DerivedClass(c, t) == Some("energy")));
      var lightAction := SomeCmd(eq, (c: Cmd) => c.generic.Some? && t.lightAction(c.generic.value));
      var lightAction := SomeCmd(eq, (c: Cmd) => c.generic.Some? && t.lightAction(c.generic.value));
      StructuralShape(eq, t) <==>
        if switchShape then TwoCmds(eq, (c: Cmd) => c.info && c.numeric && !c.binary)
        else powerMeasure && eq.lightAllowed && lightAction
  {
    hide DerivedClass;
    SomeCounted(eq, (c: Cmd) => OfFamily(c, EnergyFamily) || OfFamily(c, SwitchFamily),
                (c: Cmd) => InFamilies(c, {EnergyFamily, SwitchFamily}));
    TwoCounted(eq, IsNumericInfo, (c: Cmd) => c.info && c.numeric && !c.binary);
    SomeCounted(eq, (c: Cmd) => c.generic.Some? && t.lightAction(c.generic.value),
                (c: Cmd) => c.generic.Some? && t.lightAction(c.generic.value));
    SomeCounted(eq, (c: Cmd) => IsNumericInfo(c) && PowerOrEnergy(DerivedClass(c, t)),
                (c: Cmd) => c.info && c.numeric && !c.binary
                  && (DerivedClass(c, t) == Some("power") || DerivedClass(c, t) == Some("energy")));
  }

  predicate LeftToSensors(eq: Equipment, t: Tables, c: Cmd) { IsNumericInfo(c) && !ConsumedBySwitch(c, eq, t) }

  function SensorEntity(eq: Equipment, t: Tables, c: Cmd): Mapped { Entity(SENSOR, eq, c, DerivedClass(c, t)) }

  predicate ListedSensor(c: Cmd, t: Tables) {
    c.generic.Some? && t.sensorClass(c.generic.value).Some? && IsNumericInfo(c)
  }

  /** A command without type whose unit alone says power or energy. */
  predicate UnitSensor(c: Cmd, t: Tables) {
    c.generic.None? && IsNumericInfo(c) && t.reliableUnit(c) && PowerOrEnergy(DerivedClass(c, t))
  }

  /** A listed type for the whole equipment, else a power or energy unit for its command. */
  function SingleSensor(eq: Equipment, t: Tables): seq<Mapped> {
    var listed := First(eq.cmds, (c: Cmd) => ListedSensor(c, t));
    var byUnit := First(eq.cmds, (c: Cmd) => UnitSensor(c, t));
    if listed.Some? then
      [Mapped(SENSOR, eq.id, None, Some(listed.value.id), eq.name, Sure,
      t.sensorClass(listed.value.generic.value).value)]
    else if byUnit.Some? then [SensorEntity(eq, t, byUnit.value).(haName := eq.name)]
    else []
  }

  predicate IsMeasure(c: Cmd) { c.info && c.numeric && !c.binary }

  /** An entity of its own command. */
  predicate IsEntityOf(m: Mapped, haType: string, eq: Equipment, c: Cmd, deviceClass: Option<string>) {
    && m.haType == haType && m.eqId == eq.id && m.cmdId == Some(c.id) && m.stateCmd == Some(c.id) && m.haName == c.name
    && m.confidence == Sure && m.deviceClass == deviceClass
  }

  /** One sensor per measure that no switch consumes, under the name and class of its command. */
  lemma SensorListMeaning(eq: Equipment, t: Tables, m: Mapped)
    requires StructuralShape(eq, t) || eq.multiSensorType
    ensures m in SensorList(eq, t) <==>
      exists i :: 0 <= i < |eq.cmds| && IsMeasure(eq.cmds[i]) && !ConsumedBySwitch(eq.cmds[i], eq, t)
                  && IsEntityOf(m, "sensor", eq, eq.cmds[i], DerivedClass(eq.cmds[i], t))
  {
    hide StructuralShape, ConsumedBySwitch, DerivedClass;
    SelectMembers(eq.cmds, (c: Cmd) => LeftToSensors(eq, t, c), (c: Cmd) => SensorEntity(eq, t, c));
  }

  /** A command that gives the sensor of the whole equipment: of a listed type; or without type, of a power unit. */
  predicate GivesSensor(c: Cmd, t: Tables, listed: bool) {
    && IsMeasure(c)
    && if listed then c.generic.Some? && t.sensorClass(c.generic.value).Some?
       else
         && c.generic.None? && t.reliableUnit(c)
         && (DerivedClass(c, t) == Some("power") || DerivedClass(c, t) == Some("energy"))
  }

  ghost predicate IsFirstThat(c: Cmd, eq: Equipment, p: Cmd -> bool) {
    exists i :: IsFirstIn(eq.cmds, p, i) && eq.cmds[i] == c
  }

  ghost predicate IsFirstIn(cmds: seq<Cmd>, p: Cmd -> bool, i: int) {
    0 <= i < |cmds| && p(cmds[i]) && forall k :: 0 <= k < i ==> !p(cmds[k])
  }

  lemma {:induction false} FirstMeaning(cmds: seq<Cmd>, p: Cmd -> bool)
    ensures First(cmds, p).None? <==> forall i :: 0 <= i < |cmds| ==> !p(cmds[i])
    ensures First(cmds, p).Some? ==> exists i :: IsFirstIn(cmds, p, i) && cmds[i] == First(cmds, p).value
  {
    if cmds != [] {
      var rest := cmds[1..];
      if p(cmds[0]) {
        assert IsFirstIn(cmds, p, 0);
      } else {
        FirstMeaning(rest, p);
        assert First(cmds, p) == First(rest, p);
        hide First;
        assert forall i :: 0 <= i < |rest| ==> rest[i] == cmds[i + 1];
        if First(rest, p).Some? {
          var i :| IsFirstIn(rest, p, i) && rest[i] == First(rest, p).value;
          assert forall k :: 1 <= k <= i ==> cmds[k] == rest[k - 1];
          assert IsFirstIn(cmds, p, i + 1);
        } else {
          assert forall i :: 1 <= i < |cmds| ==> cmds[i] == rest[i - 1];
        }
      }
    }
  }

  /**
    Otherwise one sensor at most, under the name of the equipment: that of the first command of a listed type, for the
    whole equipment; else that of the first whose unit says power or energy, for its command.
  */
  lemma SingleSensorMeaning(eq: Equipment, t: Tables)
    requires !StructuralShape(eq, t) && !eq.multiSensorType
    ensures var r := SensorList(eq, t);
      var byType, byUnit := (c: Cmd) => GivesSensor(c, t, true), (c: Cmd) => GivesSensor(c, t, false);
      && |r| <= 1 && (r != [] <==> SomeCmd(eq, byType) || SomeCmd(eq, byUnit))
      && (r != [] ==>
         && r[0].haType == "sensor" && r[0].eqId == eq.id && r[0].haName == eq.name && r[0].confidence == Sure
         && exists c :: IsFirstThat(c, eq, if SomeCmd(eq, byType) then byType else byUnit)
              && r[0].stateCmd == Some(c.id) && r[0].deviceClass == DerivedClass(c, t)
              && r[0].cmdId == if SomeCmd(eq, byType) then None else Some(c.id))
  {
    hide StructuralShape, DerivedClass, First;
    var listed, unit := (c: Cmd) => ListedSensor(c, t), (c: Cmd) => UnitSensor(c, t);
    var byType, byUnit := (c: Cmd) => GivesSensor(c, t, true), (c: Cmd) => GivesSensor(c, t, false);
    assert forall c :: listed(c) == byType(c) && unit(c) == byUnit(c);
    FirstMeaning(eq.cmds, listed);
    FirstMeaning(eq.cmds, unit);
    if SomeCmd(eq, byType) {
      var c := First(eq.cmds, listed).value;
      ListedClass(c, t);
      assert IsFirstThat(c, eq, byType);
    } else if SomeCmd(eq, byUnit) {
      var c := First(eq.cmds, unit).value;
      assert IsFirstThat(c, eq, byUnit);
    }
  }

  lemma ListedClass(c: Cmd, t: Tables)
    requires c.generic.Some? && t.sensorClass(c.generic.value).Some?
    ensures DerivedClass(c, t) == t.sensorClass(c.generic.value).value
  {
  }

  /** What `SensorMapper.map_all` returns. */
  function SensorList(eq: Equipment, t: Tables): seq<Mapped> {
    if StructuralShape(eq, t) || eq.multiSensorType
    then Select(eq.cmds, (c: Cmd) => LeftToSensors(eq, t, c), (c: Cmd) => SensorEntity(eq, t, c))
    else SingleSensor(eq, t)
  }

  predicate IsSensorList(r: seq<Mapped>, eq: Equipment, t: Tables) { r == SensorList(eq, t) }

  method MapSensors(eq: Equipment, t: Tables) returns (r: seq<Mapped>)
    requires DistinctIds(eq.cmds)
    ensures IsSensorList(r, eq, t) && OneType(r, eq, SENSOR)
  {
    hide StructuralShape, LeftToSensors, SingleSensor;
    if StructuralShape(eq, t) || eq.multiSensorType {
      r := MapMultiSensor(eq, t);
    } else {
      r := MapSingleSensor(eq, t);
    }
  }

  /** `_map_multi_sensor`. */
  method MapMultiSensor(eq: Equipment, t: Tables) returns (r: seq<Mapped>)
    requires DistinctIds(eq.cmds)
    ensures OneType(r, eq, SENSOR)
    ensures r == Select(eq.cmds, (c: Cmd) => LeftToSensors(eq, t, c), (c: Cmd) => SensorEntity(eq, t, c))
  {
    hide Select, LeftToSensors;
    ghost var keep, make := (c: Cmd) => LeftToSensors(eq, t, c), (c: Cmd) => SensorEntity(eq, t, c);
    r := [];
    assert Select(eq.cmds[..0], keep, make) == [] by { NothingSelected(keep, make); }
    for i := 0 to |eq.cmds|
      invariant r == Select(eq.cmds[..i], keep, make)
    {
      assert eq.cmds[..i+1] == eq.cmds[..i] + [eq.cmds[i]];
      SelectAppend(eq.cmds[..i], eq.cmds[i], keep, make);
      if LeftToSensors(eq, t, eq.cmds[i]) {
        r := r + [SensorEntity(eq, t, eq.cmds[i])];
      }
    }
    assert eq.cmds[..|eq.cmds|] == eq.cmds;
    SelectIsOneType(eq, eq.cmds, keep, make, SENSOR);
  }

  /** `_map_single`. */
  method MapSingleSensor(eq: Equipment, t: Tables) returns (r: seq<Mapped>)
    ensures r == SingleSensor(eq, t) && OneType(r, eq, SENSOR)
  {
    hide UnitSensor, DerivedClass, First;
    ghost var listed, byUnit := (c: Cmd) => ListedSensor(c, t), (c: Cmd) => UnitSensor(c, t);
    for i := 0 to |eq.cmds|
      invariant First(eq.cmds, listed) == First(eq.cmds[i..], listed)
    {
      FirstStep(eq.cmds, listed, i);
      var c := eq.cmds[i];
      if ListedSensor(c, t) {
        return [Mapped(SENSOR, eq.id, None, Some(c.id), eq.name, Sure, t.sensorClass(c.generic.value).value)];
      }
    }
    NoFirst(listed);
    for i := 0 to |eq.cmds|
      invariant First(eq.cmds, byUnit) == First(eq.cmds[i..], byUnit)
    {
      FirstStep(eq.cmds, byUnit, i);
      if UnitSensor(eq.cmds[i], t) {
        return [SensorEntity(eq, t, eq.cmds[i]).(haName := eq.name)];
      }
    }
    NoFirst(byUnit);
    r := [];
  }

  // ---------------------------------------------------------------------------------------
  // The registry
  // ---------------------------------------------------------------------------------------

  function AsList(o: Option<Mapped>): seq<Mapped> { if o.Some? then [o.value] else [] }

  predicate HasPowerOrEnergy(r: seq<Mapped>) { exists i :: 0 <= i < |r| && PowerOrEnergy(r[i].deviceClass) }

  /** What every list of entities of the registry satisfies. */
  predicate WellMapped(r: seq<Mapped>, eq: Equipment) {
    && (forall i :: 0 <= i < |r| ==> r[i].eqId == eq.id && r[i].haType != "" && NoSlash(r[i].haType))
    && (forall i :: 0 <= i < |r| && r[i].cmdId.Some? ==>
       r[i].haType == SWITCH || r[i].haType == SENSOR || r[i].haType == BINARY)
    && (forall i, j :: 0 <= i < j < |r| && r[i].haType == r[j].haType ==>
       r[i].cmdId.Some? && r[j].cmdId.Some? && r[i].cmdId != r[j].cmdId)
  }

  lemma TypesAreDistinct()
    ensures SWITCH != SENSOR && SWITCH != BINARY && SENSOR != BINARY && LIGHT != SWITCH && LIGHT != SENSOR
      && LIGHT != BINARY
    ensures NoSlash(SWITCH) && NoSlash(SENSOR) && NoSlash(BINARY) && NoSlash(LIGHT)
  {
  }

  lemma OneTypeIsWellMapped(r: seq<Mapped>, eq: Equipment, haType: string)
    requires OneType(r, eq, haType) && (haType == SWITCH || haType == SENSOR || haType == BINARY)
    ensures WellMapped(r, eq)
  {
  }

  lemma ConcatIsWellMapped(a: seq<Mapped>, b: seq<Mapped>, eq: Equipment)
    requires WellMapped(a, eq) && WellMapped(b, eq)
    requires forall i, j :: 0 <= i < |a| && 0 <= j < |b| ==> a[i].haType != b[j].haType
    ensures WellMapped(a + b, eq)
  {
  }

  /** `_map_structural_multi_entity`, from the three lists and the light. */
  function Aggregate(switches: seq<Mapped>, light: Option<Mapped>, sensors: seq<Mapped>,
      binaries: seq<Mapped>): seq<Mapped>
  {
    var publishable := light.Some? && (light.value.confidence == Sure || light.value.confidence == Probable);
    var primary := if switches != [] then switches else if HasPowerOrEnergy(sensors) && publishable then [light.value]
      else [];
    if primary != [] && (|primary| > 1 || |sensors| + |binaries| > 1 || HasPowerOrEnergy(sensors)) then
      primary + sensors + binaries
    else []
  }

  predicate MeasuresPower(r: seq<Mapped>) {
    exists i :: 0 <= i < |r| && (r[i].deviceClass == Some("power") || r[i].deviceClass == Some("energy"))
  }

  /**
    Switches lead, else a sure or probable light with a measure of power;
    the sensors and then the binary sensors follow,
    when that makes several entities.
  */
  lemma AggregateMeaning(switches: seq<Mapped>, light: Option<Mapped>, sensors: seq<Mapped>, binaries: seq<Mapped>)
    ensures var r := Aggregate(switches, light, sensors, binaries);
      var lightLeads := switches == [] && MeasuresPower(sensors) && light.Some?
        && (light.value.confidence == Sure || light.value.confidence == Probable);
      var switchLeads := switches != []
        && (|switches| > 1 || |sensors| + |binaries| >= 2 || MeasuresPower(sensors));
      && (lightLeads ==> r == [light.value] + sensors + binaries)
      && (switchLeads ==> r == switches + sensors + binaries)
      && (!lightLeads && !switchLeads ==> r == [])
  {
    assert HasPowerOrEnergy(sensors) == MeasuresPower(sensors);
  }

  ghost predicate IsStructural(r: seq<Mapped>, eq: Equipment, t: Tables) {
    exists switches, sensors, binaries ::
      IsSwitchList(switches, eq, t) && IsSensorList(sensors, eq, t) && IsBinaryList(binaries, eq, t)
      && r == Aggregate(switches, t.light(eq), sensors, binaries)
  }

  method MapStructural(eq: Equipment, t: Tables) returns (r: seq<Mapped>)
    requires DistinctIds(eq.cmds) && Sound(t, eq)
    ensures WellMapped(r, eq) && IsStructural(r, eq, t)
  {
    hide IsSwitchList, IsSensorList, IsBinaryList;
    var switches := MapSwitches(eq, t);
    var sensors := MapSensors(eq, t);
    var binaries := MapBinarySensors(eq, t);
    assert OneType(switches, eq, SWITCH) by { SwitchesAreOneType(switches, eq, t); }
    var primary: seq<Mapped> := [];
    if switches != [] {
      primary := switches;
    } else if HasPowerOrEnergy(sensors) {
      var light := t.light(eq);
      if light.Some? && (light.value.confidence == Sure || light.value.confidence == Probable) {
        primary := [light.value];
      }
    }
    r := [];
    if primary != [] && (|primary| > 1 || |sensors| + |binaries| > 1 || HasPowerOrEnergy(sensors)) {
      TypesAreDistinct();
      OneTypeIsWellMapped(switches, eq, SWITCH);
      OneTypeIsWellMapped(sensors, eq, SENSOR);
      OneTypeIsWellMapped(binaries, eq, BINARY);
      ConcatIsWellMapped(primary, sensors, eq);
      ConcatIsWellMapped(primary + sensors, binaries, eq);
      r := primary + sensors + binaries;
    }
    assert r == Aggregate(switches, t.light(eq), sensors, binaries);
  }

  lemma SwitchesAreOneType(r: seq<Mapped>, eq: Equipment, t: Tables)
    requires IsSwitchList(r, eq, t)
    ensures OneType(r, eq, SWITCH)
  {
  }

  /** The mappers in the registry's order. */
  function InOrder(eq: Equipment, t: Tables, lists: Lists): seq<seq<Mapped>> {
    [AsList(t.light(eq)), AsList(t.cover(eq)), lists.switches, AsList(t.climate(eq)), AsList(t.alarm(eq)),
     AsList(t.presence(eq)), lists.binaries, lists.sensors, AsList(t.button(eq)), AsList(t.fallback(eq))]
  }

  /** What the mappers that may return several entities return. */
  datatype Lists = Lists(switches: seq<Mapped>, binaries: seq<Mapped>, sensors: seq<Mapped>)

  ghost predicate AreLists(lists: Lists, eq: Equipment, t: Tables) {
    IsSwitchList(lists.switches, eq, t) && IsBinaryList(lists.binaries, eq, t) && IsSensorList(lists.sensors, eq, t)
  }

  datatype Mapper =
    | LightMapper | CoverMapper | SwitchMapper | ClimateMapper | AlarmMapper
    | PresenceMapper | BinaryMapper | SensorMapper | ButtonMapper | FallbackMapper

  /** Place of a mapper in the registry. */
  function Rank(m: Mapper): nat {
    match m
    case LightMapper => 0 case CoverMapper => 1 case SwitchMapper => 2 case ClimateMapper => 3 case AlarmMapper => 4
    case PresenceMapper => 5 case BinaryMapper => 6 case SensorMapper => 7 case ButtonMapper => 8
    case FallbackMapper => 9
  }

  function ListOf(m: Mapper, eq: Equipment, t: Tables, lists: Lists): seq<Mapped> {
    match m
    case LightMapper => AsList(t.light(eq))
    case CoverMapper => AsList(t.cover(eq))
    case SwitchMapper => lists.switches
    case ClimateMapper => AsList(t.climate(eq))
    case AlarmMapper => AsList(t.alarm(eq))
    case PresenceMapper => AsList(t.presence(eq))
    case BinaryMapper => lists.binaries
    case SensorMapper => lists.sensors
    case ButtonMapper => AsList(t.button(eq))
    case FallbackMapper => AsList(t.fallback(eq))
  }

  /** The result of a mapper before which no mapper has a result; nothing when none has. */
  ghost predicate IsFirstResult(r: seq<Mapped>, eq: Equipment, t: Tables, lists: Lists) {
    if r == [] then forall m :: ListOf(m, eq, t, lists) == []
    else exists m :: ListOf(m, eq, t, lists) == r && forall n :: Rank(n) < Rank(m) ==> ListOf(n, eq, t, lists) == []
  }

  ghost predicate IsFirst(r: seq<Mapped>, eq: Equipment, t: Tables) {
    exists lists :: AreLists(lists, eq, t) && IsFirstResult(r, eq, t, lists)
  }

  /** Going through the mappers finds the first result. */
  lemma InOrderIsByRank(eq: Equipment, t: Tables, lists: Lists)
    ensures |InOrder(eq, t, lists)| == 10
    ensures forall m :: Rank(m) < 10 && InOrder(eq, t, lists)[Rank(m)] == ListOf(m, eq, t, lists)
  {
    forall m: Mapper ensures Rank(m) < 10 && InOrder(eq, t, lists)[Rank(m)] == ListOf(m, eq, t, lists) {
      match m
      case LightMapper => case CoverMapper => case SwitchMapper => case ClimateMapper => case AlarmMapper =>
      case PresenceMapper => case BinaryMapper => case SensorMapper => case ButtonMapper => case FallbackMapper =>
    }
  }

  lemma MapperAt(i: nat) returns (m: Mapper)
    requires i < 10
    ensures Rank(m) == i
  {
    m := if i == 0 then LightMapper else if i == 1 then CoverMapper else if i == 2 then SwitchMapper
         else if i == 3 then ClimateMapper else if i == 4 then AlarmMapper else if i == 5 then PresenceMapper
         else if i == 6 then BinaryMapper else if i == 7 then SensorMapper else if i == 8 then ButtonMapper
         else FallbackMapper;
  }

  /** The first mapper that recognises the equipment. */
  method MapFirst(eq: Equipment, t: Tables) returns (r: seq<Mapped>)
    requires DistinctIds(eq.cmds) && Sound(t, eq)
    ensures WellMapped(r, eq) && IsFirst(r, eq, t)
  {
    hide IsSwitchList, IsSensorList, IsBinaryList, OneType, WellMapped, InOrder, ListOf, Rank;
    var switches := MapSwitches(eq, t);
    var binaries := MapBinarySensors(eq, t);
    var sensors := MapSensors(eq, t);
    assert OneType(switches, eq, SWITCH) by { SwitchesAreOneType(switches, eq, t); }
    var lists := Lists(switches, binaries, sensors);
    var results := InOrder(eq, t, lists);
    EveryListIsWellMapped(eq, t, lists);
    InOrderIsByRank(eq, t, lists);
    for i := 0 to |results|
      invariant forall k :: 0 <= k < i ==> results[k] == []
    {
      if results[i] != [] {
        FoundAt(eq, t, lists, i);
        assert AreLists(lists, eq, t);
        return results[i];
      }
    }
    forall m ensures ListOf(m, eq, t, lists) == [] {
      assert results[Rank(m)] == [];
    }
    assert AreLists(lists, eq, t) && IsFirstResult([], eq, t, lists);
    r := [];
  }

  lemma FoundAt(eq: Equipment, t: Tables, lists: Lists, i: nat)
    requires var results := InOrder(eq, t, lists);
      i < |results| && results[i] != [] && forall k :: 0 <= k < i ==> results[k] == []
    ensures IsFirstResult(InOrder(eq, t, lists)[i], eq, t, lists)
  {
    InOrderIsByRank(eq, t, lists);
    var m := MapperAt(i);
    hide Rank, ListOf, InOrder;
    assert ListOf(m, eq, t, lists) == InOrder(eq, t, lists)[i];
  }

  lemma EveryListIsWellMapped(eq: Equipment, t: Tables, lists: Lists)
    requires Sound(t, eq) && OneType(lists.switches, eq, SWITCH) && OneType(lists.binaries, eq, BINARY)
      && OneType(lists.sensors, eq, SENSOR)
    ensures forall i :: 0 <= i < |InOrder(eq, t, lists)| ==> WellMapped(InOrder(eq, t, lists)[i], eq)
    ensures WellMapped([], eq)
  {
    OneTypeIsWellMapped(lists.switches, eq, SWITCH);
    OneTypeIsWellMapped(lists.binaries, eq, BINARY);
    OneTypeIsWellMapped(lists.sensors, eq, SENSOR);
    AloneIsWellMapped(eq);
    hide WellMapped, OneType, NoSlash;
  }

  lemma AloneIsWellMapped(eq: Equipment)
    ensures forall o :: EquipmentScoped(o, eq) ==> WellMapped(AsList(o), eq)
    ensures WellMapped([], eq)
  {
  }

  /** A mapper that has a result is passed over only for one that comes before it. */
  lemma NoLaterThan(eq: Equipment, t: Tables, r: seq<Mapped>, lists: Lists, m: Mapper)
    requires IsFirstResult(r, eq, t, lists) && ListOf(m, eq, t, lists) != []
    ensures r != []
    ensures exists n :: Rank(n) <= Rank(m) && r == ListOf(n, eq, t, lists)
                        && forall k :: Rank(k) < Rank(n) ==> ListOf(k, eq, t, lists) == []
  {
    hide ListOf, Rank;
  }

  /** Nothing shows the equipment before its binary sensors. */
  predicate BinaryLeads(eq: Equipment, t: Tables) {
    && t.light(eq).None? && t.cover(eq).None? && t.climate(eq).None? && t.alarm(eq).None? && t.presence(eq).None?
    && t.energySwitch(eq).None?
  }

  /** A binary sensor comes before the sensors, whatever they are: a door contact with a thermometer is a door. */
  lemma BinaryBeforeSensors(eq: Equipment, t: Tables, r: seq<Mapped>, binaries: seq<Mapped>)
    requires IsFirst(r, eq, t) && BinaryLeads(eq, t) && !exists g :: IsTrio(eq.cmds, t.key, g)
    requires IsBinaryList(binaries, eq, t) && binaries != []
    ensures r == binaries
  {
    var lists :| AreLists(lists, eq, t) && IsFirstResult(r, eq, t, lists);
    assert lists.switches == [] && lists.binaries == binaries;
    NoLaterThan(eq, t, r, lists, BinaryMapper);
    hide IsSwitchList, IsBinaryList, IsSensorList;
    var n :| Rank(n) <= Rank(BinaryMapper) && r == ListOf(n, eq, t, lists);
    match n
    case LightMapper => case CoverMapper => case SwitchMapper => case ClimateMapper => case AlarmMapper =>
    case PresenceMapper => case BinaryMapper =>
  }

  /** Sensors come next, then the buttons, and the fallback is for what nothing else recognises. */
  lemma SensorsBeforeTheRest(eq: Equipment, t: Tables, r: seq<Mapped>)
    requires IsFirst(r, eq, t) && BinaryLeads(eq, t) && !exists g :: IsTrio(eq.cmds, t.key, g)
    requires IsBinaryList([], eq, t)
    ensures r == if SensorList(eq, t) != [] then SensorList(eq, t)
                 else if t.button(eq).Some? then [t.button(eq).value] else AsList(t.fallback(eq))
  {
    LeadersAreEmpty(eq, t, r);
    hide IsSwitchList, IsBinaryList, IsSensorList, SensorList, AreLists, IsFirst, IsTrio, IsFirstResult, ListOf, AsList,
         Rank;
    var lists :| IsFirstResult(r, eq, t, lists) && lists.switches == [] && lists.binaries == []
      && lists.sensors == SensorList(eq, t);
    NothingLeads(eq, t, lists);
    FirstOfTheRest(eq, t, r, lists);
  }

  lemma FirstOfTheRest(eq: Equipment, t: Tables, r: seq<Mapped>, lists: Lists)
    requires IsFirstResult(r, eq, t, lists) && forall m :: Rank(m) < 7 ==> ListOf(m, eq, t, lists) == []
    ensures r == if ListOf(SensorMapper, eq, t, lists) != [] then ListOf(SensorMapper, eq, t, lists)
                 else if ListOf(ButtonMapper, eq, t, lists) != [] then ListOf(ButtonMapper, eq, t, lists)
                 else ListOf(FallbackMapper, eq, t, lists)
  {
    hide ListOf;
  }

  lemma LeadersAreEmpty(eq: Equipment, t: Tables, r: seq<Mapped>)
    requires IsFirst(r, eq, t) && BinaryLeads(eq, t) && !exists g :: IsTrio(eq.cmds, t.key, g)
    requires IsBinaryList([], eq, t)
    ensures exists lists :: IsFirstResult(r, eq, t, lists) && lists.switches == [] && lists.binaries == []
                            && lists.sensors == SensorList(eq, t)
  {
    hide IsFirstResult, SensorList;
    var lists :| AreLists(lists, eq, t) && IsFirstResult(r, eq, t, lists);
    assert lists.switches == [] && lists.binaries == [] && lists.sensors == SensorList(eq, t);
  }

  lemma NothingLeads(eq: Equipment, t: Tables, lists: Lists)
    requires BinaryLeads(eq, t) && lists.switches == [] && lists.binaries == []
    ensures forall m :: Rank(m) < 7 ==> ListOf(m, eq, t, lists) == []
    ensures ListOf(SensorMapper, eq, t, lists) == lists.sensors
    ensures ListOf(ButtonMapper, eq, t, lists) == if t.button(eq).Some? then [t.button(eq).value] else []
    ensures ListOf(FallbackMapper, eq, t, lists) == AsList(t.fallback(eq))
  {
  }

  function NameRule(eq: Equipment, r: seq<Mapped>): seq<Mapped> {
    if |r| == 1 && eq.name != "" then [r[0].(haName := eq.name)] else r
  }

  /** A single entity takes the name of its equipment, if it has one; nothing else is renamed. */
  lemma NameRuleMeaning(eq: Equipment, r: seq<Mapped>, i: nat)
    requires i < |r|
    ensures |NameRule(eq, r)| == |r| && NameRule(eq, r)[i].(haName := r[i].haName) == r[i]
    ensures NameRule(eq, r)[i].haName == if |r| == 1 && eq.name != "" then eq.name else r[i].haName
  {
  }

  ghost predicate IsRegistryResult(r: seq<Mapped>, eq: Equipment, t: Tables) {
    exists structural, first ::
      IsStructural(structural, eq, t) && IsFirst(first, eq, t)
        && r == NameRule(eq, if |structural| > 1 then structural else first)
  }

  /** `map_all`: the structural result when it has several entities, else the first mapper's; then the name rule. */
  method MapAll(eq: Equipment, t: Tables) returns (r: seq<Mapped>)
    requires DistinctIds(eq.cmds) && Sound(t, eq)
    ensures WellMapped(r, eq) && IsRegistryResult(r, eq, t)
  {
    hide IsStructural, IsFirst;
    var structural := MapStructural(eq, t);
    var first := MapFirst(eq, t);
    r := if |structural| > 1 then structural else first;
    ghost var raw := r;
    if |r| == 1 && eq.name != "" {
      r := [r[0].(haName := eq.name)];
    }
    assert r == NameRule(eq, raw);
  }

  // ---------------------------------------------------------------------------------------
  // States shown twice
  // ---------------------------------------------------------------------------------------

  /** A binary sensor of the equipment shows the state of one of its switches. */
  ghost predicate ShowsStateTwice(r: seq<Mapped>, eq: Equipment, t: Tables) {
    exists i, g :: 0 <= i < |r| && r[i].haType == BINARY && IsTrio(eq.cmds, t.key, g)
      && r[i].stateCmd == Some(g.state.id)
  }

  /** Outside the multi-domain case, the first listed binary command is the state of a trio, and there is a sensor. */
  ghost predicate StateIsUnguarded(eq: Equipment, t: Tables) {
    && !IsMultiDomain(eq) && FirstListed(eq, t).Some? && OwnsState(eq.cmds, t.key, FirstListed(eq, t).value)
    && SensorList(eq, t) != []
  }

  lemma {:induction false} CountTwo(cmds: seq<Cmd>, p: Cmd -> bool, i: nat, j: nat)
    requires i < j < |cmds| && p(cmds[i]) && p(cmds[j])
    ensures Count(cmds, p) >= 2
  {
    var n := |cmds| - 1;
    var front := cmds[..n];
    if j < n {
      CountTwo(front, p, i, j);
    } else {
      assert p(front[i]);
      CountAll(front, p);
    }
  }

  lemma SwitchesLead(eq: Equipment, t: Tables, switches: seq<Mapped>)
    requires IsSwitchList(switches, eq, t) && exists g :: IsTrio(eq.cmds, t.key, g)
    ensures switches != []
  {
    hide IsTrio, Precedes;
    var groups: seq<Group> :| IsTrioList(groups, eq.cmds, t.key) && ShowsGroups(switches, eq, groups);
    var some :| IsTrio(eq.cmds, t.key, some);
    assert some in groups;
  }

  /** An equipment with two trios is multi-domain. */
  lemma TwoTriosAreMultiDomain(eq: Equipment, t: Tables, g: Group, h: Group)
    requires DistinctIds(eq.cmds) && IsTrio(eq.cmds, t.key, g) && IsTrio(eq.cmds, t.key, h) && g != h
    ensures IsMultiDomain(eq)
  {
    StatesDiffer(eq.cmds, t.key, g, h);
    TrioCommands(eq.cmds, t.key, g);
    TrioCommands(eq.cmds, t.key, h);
    hide IsTrio, Count;
    var i :| 0 <= i < |eq.cmds| && eq.cmds[i] == g.state;
    var j :| 0 <= j < |eq.cmds| && eq.cmds[j] == h.state;
    CountTwo(eq.cmds, AnyState, if i < j then i else j, if i < j then j else i);
    CountAll(eq.cmds, SwitchOwned);
  }

  lemma OneSwitch(eq: Equipment, t: Tables, switches: seq<Mapped>)
    requires DistinctIds(eq.cmds) && !IsMultiDomain(eq) && IsSwitchList(switches, eq, t) && exists g ::
      IsTrio(eq.cmds, t.key, g)
    ensures |switches| == 1
  {
    hide IsTrio, IsMultiDomain, Precedes;
    SwitchesLead(eq, t, switches);
    var groups: seq<Group> :| IsTrioList(groups, eq.cmds, t.key) && ShowsGroups(switches, eq, groups);
    if |groups| > 1 {
      assert groups[0] in groups && groups[1] in groups;
      TwoTriosAreMultiDomain(eq, t, groups[0], groups[1]);
    }
  }

  /** Once the switches lead, the binary sensors of the aggregate are those of the binary list. */
  lemma AggregateShows(eq: Equipment, t: Tables, switches: seq<Mapped>, sensors: seq<Mapped>, binaries: seq<Mapped>)
    requires switches != [] && OneType(switches, eq, SWITCH) && OneType(sensors, eq, SENSOR)
      && OneType(binaries, eq, BINARY)
    ensures var all := Aggregate(switches, t.light(eq), sensors, binaries);
      ShowsStateTwice(all, eq, t) <==> all != [] && Reemits(binaries, eq, t)
  {
    hide IsTrio, HasPowerOrEnergy;
    TypesAreDistinct();
    var all := Aggregate(switches, t.light(eq), sensors, binaries);
    var before := switches + sensors;
    if all != [] {
      assert all == before + binaries;
      if Reemits(binaries, eq, t) {
        var i, g :| 0 <= i < |binaries| && IsTrio(eq.cmds, t.key, g) && binaries[i].stateCmd == Some(g.state.id);
        assert all[|before| + i] == binaries[i];
      }
      if ShowsStateTwice(all, eq, t) {
        var i, g :| 0 <= i < |all| && all[i].haType == BINARY && IsTrio(eq.cmds, t.key, g)
          && all[i].stateCmd == Some(g.state.id);
        assert i >= |before|;
        assert binaries[i - |before|] == all[i];
      }
    }
  }

  /** The aggregate shows a state twice under the guard, and then it is what the registry keeps. */
  lemma AggregateOfSwitches(eq: Equipment, t: Tables, switches: seq<Mapped>, sensors: seq<Mapped>,
      binaries: seq<Mapped>)
    requires DistinctIds(eq.cmds) && exists g :: IsTrio(eq.cmds, t.key, g)
    requires IsSwitchList(switches, eq, t) && IsSensorList(sensors, eq, t) && IsBinaryList(binaries, eq, t)
    ensures var all := Aggregate(switches, t.light(eq), sensors, binaries);
      && (ShowsStateTwice(all, eq, t) <==> StateIsUnguarded(eq, t))
      && (StateIsUnguarded(eq, t) ==> |all| > 1)
  {
    hide IsTrio, IsMultiDomain, SensorList, FirstListed, IsSwitchList, ShowsStateTwice, OneType, HasPowerOrEnergy;
    SwitchesLead(eq, t, switches);
    SwitchesAreOneType(switches, eq, t);
    SensorsAreOneType(eq, t);
    BinariesAreOneType(eq, t, binaries);
    ReemitsExactlyWhen(eq, t, binaries);
    AggregateShows(eq, t, switches, sensors, binaries);
    if Reemits(binaries, eq, t) {
      OneSwitch(eq, t, switches);
      assert binaries == SingleBinary(eq, t) && |binaries| == 1;
      if sensors == [] {
        NoMeasure();
      }
    }
  }

  lemma NoMeasure()
    ensures !HasPowerOrEnergy([])
  {
  }

  lemma BinariesAreOneType(eq: Equipment, t: Tables, binaries: seq<Mapped>)
    requires DistinctIds(eq.cmds) && IsBinaryList(binaries, eq, t)
    ensures OneType(binaries, eq, BINARY)
  {
    hide Select, IsMultiDomain, LeftToBinary, FirstListed;
    SelectIsOneType(eq, eq.cmds, (c: Cmd) => LeftToBinary(eq, t, c), (c: Cmd) => BinaryEntity(eq, t, c), BINARY);
  }

  lemma FirstIsNoBinary(eq: Equipment, t: Tables, r: seq<Mapped>)
    requires DistinctIds(eq.cmds) && Sound(t, eq) && IsFirst(r, eq, t) && exists g :: IsTrio(eq.cmds, t.key, g)
    ensures forall i :: 0 <= i < |r| ==> r[i].haType != BINARY
  {
    hide IsTrio, IsSwitchList, IsSensorList, IsBinaryList;
    var lists :| AreLists(lists, eq, t) && IsFirstResult(r, eq, t, lists);
    SwitchesLead(eq, t, lists.switches);
    SwitchesAreOneType(lists.switches, eq, t);
    TypesAreDistinct();
    NoLaterThan(eq, t, r, lists, SwitchMapper);
    var n :| Rank(n) <= Rank(SwitchMapper) && r == ListOf(n, eq, t, lists);
    match n
    case LightMapper => case CoverMapper => case SwitchMapper =>
  }

  /** Exactly when what the registry returns shows the state of a switch a second time. */
  lemma StateShownTwiceExactlyWhen(eq: Equipment, t: Tables, r: seq<Mapped>)
    requires DistinctIds(eq.cmds) && Sound(t, eq) && IsRegistryResult(r, eq, t)
    ensures ShowsStateTwice(r, eq, t) <==> StateIsUnguarded(eq, t)
  {
    hide IsTrio, IsMultiDomain, SensorList, FirstListed, IsSwitchList, IsBinaryList, Aggregate, IsFirst;
    if exists g :: IsTrio(eq.cmds, t.key, g) {
      var structural: seq<Mapped>, first: seq<Mapped> :|
        IsStructural(structural, eq, t) && IsFirst(first, eq, t)
          && r == NameRule(eq, if |structural| > 1 then structural else first);
      var switches: seq<Mapped>, sensors: seq<Mapped>, binaries: seq<Mapped> :|
      IsSwitchList(switches, eq, t) && IsSensorList(sensors, eq, t) && IsBinaryList(binaries, eq, t)
        && structural == Aggregate(switches, t.light(eq), sensors, binaries);
      AggregateOfSwitches(eq, t, switches, sensors, binaries);
      FirstIsNoBinary(eq, t, first);
      assert forall i :: 0 <= i < |r| ==> var raw := if |structural| > 1 then structural else first;
        |r| == |raw| && r[i].haType == raw[i].haType && r[i].stateCmd == raw[i].stateCmd;
      if |structural| > 1 {
        SameStates(structural, r, eq, t);
      }
    }
  }

  lemma SameStates(a: seq<Mapped>, b: seq<Mapped>, eq: Equipment, t: Tables)
    requires |a| == |b| && forall i :: 0 <= i < |b| ==> b[i].haType == a[i].haType && b[i].stateCmd == a[i].stateCmd
    ensures ShowsStateTwice(a, eq, t) <==> ShowsStateTwice(b, eq, t)
  {
    hide IsTrio;
    if i, g :| 0 <= i < |a| && a[i].haType == BINARY && IsTrio(eq.cmds, t.key, g) && a[i].stateCmd == Some(g.state.id) {
      assert b[i].haType == BINARY;
    }
    if i, g :| 0 <= i < |b| && b[i].haType == BINARY && IsTrio(eq.cmds, t.key, g) && b[i].stateCmd == Some(g.state.id) {
      assert a[i].haType == BINARY;
    }
  }

  lemma SensorsAreOneType(eq: Equipment, t: Tables)
    requires DistinctIds(eq.cmds)
    ensures OneType(SensorList(eq, t), eq, SENSOR)
  {
    hide Select, StructuralShape, LeftToSensors, DerivedClass;
    var keep, make := (c: Cmd) => LeftToSensors(eq, t, c), (c: Cmd) => SensorEntity(eq, t, c);
    SelectIsOneType(eq, eq.cmds, keep, make, SENSOR);
  }

  const PLUG_STATE := Cmd(1, "", Some(Actuator(SwitchFamily, StateRole)), true, false, true, None)
  const PLUG_ON := Cmd(2, "", Some(Actuator(SwitchFamily, OnRole)), false, false, false, None)
  const PLUG_OFF := Cmd(3, "", Some(Actuator(SwitchFamily, OffRole)), false, false, false, None)
  const PLUG_POWER := Cmd(4, "", Some(Other("POWER")), true, true, false, None)

  /** A switch and nothing else; and the same with a power measure. */
  const PLAIN_SWITCH := Equipment(1, "", [PLUG_STATE, PLUG_ON, PLUG_OFF], false, true)
  const MEASURED_PLUG := Equipment(1, "", [PLUG_STATE, PLUG_ON, PLUG_OFF, PLUG_POWER], false, true)

  lemma CountOfFour(a: Cmd, b: Cmd, c: Cmd, d: Cmd, p: Cmd -> bool)
    ensures Count([a, b, c], p) == (if p(a) then 1 else 0) + (if p(b) then 1 else 0) + (if p(c) then 1 else 0)
    ensures Count([a, b, c, d], p) == Count([a, b, c], p) + if p(d) then 1 else 0
  {
    assert [] + [a] == [a] && [a] + [b] == [a, b] && [a, b] + [c] == [a, b, c] && [a, b, c] + [d] == [a, b, c, d];
    CountAppend([], a, p);
    CountAppend([a], b, p);
    CountAppend([a, b], c, p);
    CountAppend([a, b, c], d, p);
  }

  lemma CountOfThree(p: Cmd -> bool)
    ensures Count(PLAIN_SWITCH.cmds, p)
      == (if p(PLUG_STATE) then 1 else 0) + (if p(PLUG_ON) then 1 else 0) + (if p(PLUG_OFF) then 1 else 0)
    ensures Count(MEASURED_PLUG.cmds, p) == Count(PLAIN_SWITCH.cmds, p) + if p(PLUG_POWER) then 1 else 0
  {
    CountOfFour(PLUG_STATE, PLUG_ON, PLUG_OFF, PLUG_POWER, p);
  }

  /** The three commands of either equipment are a trio. */
  lemma PlugIsTrio(key: string -> string)
    ensures IsTrio(PLAIN_SWITCH.cmds, key, Group(SwitchFamily, key(""), PLUG_STATE, PLUG_ON, PLUG_OFF))
    ensures IsTrio(MEASURED_PLUG.cmds, key, Group(SwitchFamily, key(""), PLUG_STATE, PLUG_ON, PLUG_OFF))
  {
    var cmds, k := PLAIN_SWITCH.cmds, key("");
    assert cmds == [PLUG_STATE, PLUG_ON] + [PLUG_OFF] && [PLUG_STATE, PLUG_ON] == [PLUG_STATE] + [PLUG_ON]
      && [PLUG_STATE] == [] + [PLUG_STATE];
    assert MEASURED_PLUG.cmds == cmds + [PLUG_POWER];
    forall role: Role ensures LastNamed(cmds, key, SwitchFamily, k, role)
      == LastNamed(MEASURED_PLUG.cmds, key, SwitchFamily, k, role)
      == Some(match role case StateRole => PLUG_STATE case OnRole => PLUG_ON case OffRole => PLUG_OFF)
    {
      LastNamedAppend([], PLUG_STATE, key, SwitchFamily, k, role);
      LastNamedAppend([PLUG_STATE], PLUG_ON, key, SwitchFamily, k, role);
      LastNamedAppend([PLUG_STATE, PLUG_ON], PLUG_OFF, key, SwitchFamily, k, role);
      LastNamedAppend(cmds, PLUG_POWER, key, SwitchFamily, k, role);
    }
    assert NamedTrio(cmds, key, SwitchFamily, k) && NamedTrio(MEASURED_PLUG.cmds, key, SwitchFamily, k);
  }

  /** A plain switch is safe, whatever the tables. */
  lemma PlainSwitchIsShownOnce(t: Tables, r: seq<Mapped>)
    requires Sound(t, PLAIN_SWITCH) && IsRegistryResult(r, PLAIN_SWITCH, t)
    ensures !ShowsStateTwice(r, PLAIN_SWITCH, t)
  {
    hide IsRegistryResult;
    StateShownTwiceExactlyWhen(PLAIN_SWITCH, t, r);
    assert forall c :: c in PLAIN_SWITCH.cmds ==> !IsNumericInfo(c);
    NoNumericNoSensor(PLAIN_SWITCH, t);
  }

  lemma NoNumericNoSensor(eq: Equipment, t: Tables)
    requires forall c :: c in eq.cmds ==> !IsNumericInfo(c)
    ensures SensorList(eq, t) == []
  {
    hide StructuralShape, ConsumedBySwitch, DerivedClass;
    SelectNone(eq.cmds, (c: Cmd) => LeftToSensors(eq, t, c), (c: Cmd) => SensorEntity(eq, t, c));
  }

  /** A plug that measures its power is not: its state is both a switch and a binary sensor. */
  lemma MeasuredPlugIsShownTwice(t: Tables, r: seq<Mapped>)
    requires Sound(t, MEASURED_PLUG) && IsRegistryResult(r, MEASURED_PLUG, t)
    requires t.binaryClass(Actuator(SwitchFamily, StateRole)).Some? && t.sensorClass(Other("POWER")).Some?
    ensures ShowsStateTwice(r, MEASURED_PLUG, t)
  {
    hide IsRegistryResult, IsTrio;
    CountOfThree(SwitchOwned);
    CountOfThree((c: Cmd) => IsBinaryInfo(c) && !SwitchOwned(c));
    CountOfThree(IsNumericInfo);
    CountOfThree(AnyState);
    PlugIsTrio(t.key);
    assert OwnsState(MEASURED_PLUG.cmds, t.key, PLUG_STATE);
    assert FirstListed(MEASURED_PLUG, t) == Some(PLUG_STATE);
    PlugHasSensor(t);
    StateShownTwiceExactlyWhen(MEASURED_PLUG, t, r);
  }

  lemma PlugHasSensor(t: Tables)
    requires t.sensorClass(Other("POWER")).Some?
    ensures SensorList(MEASURED_PLUG, t) != []
  {
    var eq := MEASURED_PLUG;
    CountOfThree((c: Cmd) => OfFamily(c, EnergyFamily) || OfFamily(c, SwitchFamily));
    CountOfThree(IsNumericInfo);
    assert !StructuralShape(eq, t);
    var listed := (c: Cmd) => ListedSensor(c, t);
    FirstStep(eq.cmds, listed, 0);
    FirstStep(eq.cmds, listed, 1);
    FirstStep(eq.cmds, listed, 2);
    FirstStep(eq.cmds, listed, 3);
    assert eq.cmds[0..] == eq.cmds;
  }

  // ---------------------------------------------------------------------------------------
  // Topics of what the registry returns
  // ---------------------------------------------------------------------------------------

  /** Nodes of the entities are usable, and fit the cache. */
  lemma MappedNodesFit(r: seq<Mapped>, eq: Equipment)
    requires WellMapped(r, eq)
    ensures OfEquipment(Pubs(r), eq.id) && NodesFit(Pubs(r))
  {
    hide CmdNode, EqNode;
    TypesAreDistinct();
    forall i | 0 <= i < |r| && NodeOf(Pubs(r)[i]).Some?
      ensures NoSlash(NodeOf(Pubs(r)[i]).value) && NodeOf(Pubs(r)[i]).value != EqNode(eq.id) && NodeAware(r[i].haType)
    {
      NodesHaveNoSlash(eq.id, r[i].cmdId.value);
      NodesAreInjective(eq.id, 0, eq.id, r[i].cmdId.value);
    }
    forall i, j | 0 <= i < |r| && 0 <= j < |r| && !Heterogeneous(Pubs(r)) && NodeOf(Pubs(r)[i]).Some?
      ensures NodeOf(Pubs(r)[j]).Some?
    {
      assert Pubs(r)[i].haType == Pubs(r)[j].haType;
      if i != j {
        CmdNodeIsNotEmpty(eq.id, r[j].cmdId.value);
      }
    }
  }

  lemma CmdNodeIsNotEmpty(eqId: int, cmdId: int)
    ensures CmdNode(eqId, cmdId) != ""
  {
  }

  lemma PathOfMapped(m: Mapped)
    requires m.cmdId.Some? ==> NodeAware(m.haType)
    ensures PathOf(Pub(m)) == if m.cmdId.Some? then CmdNode(m.eqId, m.cmdId.value) else EqNode(m.eqId)
    ensures NoSlash(PathOf(Pub(m)))
  {
  }

  /** Two entities of one equipment, or of two, never share a topic. */
  lemma TopicsAreDistinct(prefix: string, r: seq<Mapped>, eq: Equipment, i: nat, r': seq<Mapped>, eq': Equipment,
      j: nat)
    requires WellMapped(r, eq) && WellMapped(r', eq') && i < |r| && j < |r'|
    requires eq.id != eq'.id || (r == r' && i != j)
    ensures PublishTopic(prefix, Pub(r[i])) != PublishTopic(prefix, Pub(r'[j]))
  {
    hide CmdNode, EqNode, Topic, PublishTopic;
    PathOfMapped(r[i]);
    PathOfMapped(r'[j]);
    PublishPath(prefix, Pub(r[i]));
    PublishPath(prefix, Pub(r'[j]));
    NodesAreInjective(eq.id, r[i].cmdId.GetOr(0), eq'.id, r'[j].cmdId.GetOr(0));
    NodesAreInjective(eq'.id, r'[j].cmdId.GetOr(0), eq.id, r[i].cmdId.GetOr(0));
    if PublishTopic(prefix, Pub(r[i])) == PublishTopic(prefix, Pub(r'[j])) {
      TopicIsInjective(prefix, r[i].haType, PathOf(Pub(r[i])), r'[j].haType, PathOf(Pub(r'[j])));
    }
  }

  /** What the cache empties at boot for an equipment is what was published for it, and nothing of another equipment. */
  lemma BootEmptiesTheRegistrysTopics(prefix: string, r: seq<Mapped>, eq: Equipment, r': seq<Mapped>, eq': Equipment)
    requires WellMapped(r, eq) && r != [] && WellMapped(r', eq') && eq.id != eq'.id
    ensures BootTopics(prefix, Pubs(r)) == PublishTopics(prefix, Pubs(r))
    ensures BootTopics(prefix, Pubs(r)) !! PublishTopics(prefix, Pubs(r'))
  {
    hide BootTopics, PublishTopic, WellMapped;
    MappedNodesFit(r, eq);
    BootEmptiesWhatWasPublished(prefix, Pubs(r), eq.id);
    forall i, j | 0 <= i < |r| && 0 <= j < |r'|
      ensures PublishTopic(prefix, Pubs(r)[i]) != PublishTopic(prefix, Pubs(r')[j])
    {
      TopicsAreDistinct(prefix, r, eq, i, r', eq', j);
    }
  }

  /** A secondary retyped to a light is emptied under a topic it was not published under: its own topic stays. */
  lemma RetypedSecondaryStays(prefix: string, eqId: int)
    ensures var es := [Published(SWITCH, eqId, Some(CmdNode(eqId, 1))), Published(LIGHT, eqId, Some(CmdNode(eqId, 2)))];
      BootTopics(prefix, es) != PublishTopics(prefix, es)
  {
    hide CmdNode, EqNode;
    TypesAreDistinct();
    var es := [Published(SWITCH, eqId, Some(CmdNode(eqId, 1))), Published(LIGHT, eqId, Some(CmdNode(eqId, 2)))];
    NodesHaveNoSlash(eqId, 1);
    NodesHaveNoSlash(eqId, 2);
    NodesAreInjective(eqId, 1, eqId, 1);
    NodesAreInjective(eqId, 2, eqId, 2);
    CmdNodeIsNotEmpty(eqId, 2);
    assert NodeOf(es[1]).Some?
      && !NodeAware(es[1].haType) by { assert "light" != "button" by { assert |"light"| != |"button"|; } }
    BootEmptiesWhatWasPublished(prefix, es, eqId);
  }
}
