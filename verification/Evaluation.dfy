/**
  The evaluation of one equipment (`models/evaluate_equipment.py`), on values: one decision per
  entity, one per command, from a persisted and a proposed override layer.
 */
module Evaluation {
  import opened Prelude
  import opened Overrides
  import opened Decision
  import opened Decimal

  datatype Eligibility = Eligibility(eligible: bool, reason: Reason)

  datatype CommandDecision = CommandDecision(cmdId: int, shouldPublish: bool, reason: Reason, step: Step,
    details: DecisionDetails)

  /** The two layers, commands and equipments. */
  datatype Layers = Layers(persisted: Section, eqPersisted: Section, proposed: Section, eqProposed: Section) {
    function Merged(): Section { MergeLayer(persisted, proposed) }

    function EqMerged(): Section { MergeLayer(eqPersisted, eqProposed) }

    /** The layers found after the proposals have been saved. */
    function Saved(): Layers {
      Layers(SavedLayer(persisted, proposed), SavedLayer(eqPersisted, eqProposed), map[], map[])
    }
  }

  /** What the caller fixes: confidence policy, product scope and projection validator. */
  datatype Setup = Setup(policy: Policy, scope: set<string>, validate: (string, Capabilities) -> Validity)

  datatype Entity = Entity(mapping: MappingValue, decision: DecisionValue)

  // ---------------------------------------------------------------------------------------
  // Commands of a mapping
  // ---------------------------------------------------------------------------------------

  /** Elements of `more` not yet in `acc`, appended in order. */
  function AppendNew(acc: seq<int>, more: seq<int>): (r: seq<int>)
    ensures acc <= r
    ensures forall c :: c in r <==> c in acc || c in more
    ensures Distinct(acc) ==> Distinct(r)
    decreases |more|
  {
    if more == [] then acc
    else AppendNew(if more[0] in acc then acc else acc + [more[0]], more[1..])
  }

  /** `mapping_cmd_ids`: the identity command first, then the commands of the mapping. */
  function CmdIds(m: MappingValue): (r: seq<int>)
    ensures Distinct(r)
    ensures forall c :: c in r <==> m.details.cmdId == Some(c) || c in m.commands
  {
    AppendNew(if m.details.cmdId.Some? then [m.details.cmdId.value] else [], m.commands)
  }

  /** `list(dict.fromkeys(...))`. */
  function KnownIds(cmds: seq<int>): (r: seq<int>)
    ensures Distinct(r)
    ensures forall c :: c in r <==> c in cmds
  {
    AppendNew([], cmds)
  }

  /** The elements of `s` once each, in the order they first come. */
  ghost predicate InFirstOrder(r: seq<int>, s: seq<int>) {
    && Distinct(r) && (forall c :: c in r <==> c in s)
    && forall i, j, k :: 0 <= i < j < |r| && 0 <= k < |s| && s[k] == r[j] ==> r[i] in s[..k]
  }

  lemma {:induction false} AppendNewLast(acc: seq<int>, more: seq<int>, x: int)
    ensures var r := AppendNew(acc, more); AppendNew(acc, more + [x]) == if x in r then r else r + [x]
    decreases |more|
  {
    if more == [] {
      assert [] + [x] == [x];
    } else {
      assert (more + [x])[1..] == more[1..] + [x];
      AppendNewLast(if more[0] in acc then acc else acc + [more[0]], more[1..], x);
    }
  }

  lemma AlreadyInOrder(s: seq<int>)
    requires Distinct(s)
    ensures InFirstOrder(s, s)
  {
    forall i, j, k | 0 <= i < j < |s| && 0 <= k < |s| && s[k] == s[j] ensures s[i] in s[..k] {
      assert k == j;
      assert s[..k][i] == s[i];
    }
  }

  lemma {:induction false} FirstOrder(acc: seq<int>, more: seq<int>, n: nat)
    requires Distinct(acc) && n <= |more|
    ensures InFirstOrder(AppendNew(acc, more[..n]), acc + more[..n])
  {
    hide InFirstOrder, AppendNew, Distinct;
    if n == 0 {
      AppendNothing(acc);
      AlreadyInOrder(acc);
      assert more[..0] == [] && acc + [] == acc;
    } else {
      FirstOrder(acc, more, n - 1);
      OrderStep(acc, more[..n-1], more[n-1]);
      assert more[..n] == more[..n-1] + [more[n-1]];
    }
  }

  lemma AppendNothing(acc: seq<int>)
    ensures AppendNew(acc, []) == acc
  {
  }

  lemma OrderStep(acc: seq<int>, front: seq<int>, x: int)
    requires InFirstOrder(AppendNew(acc, front), acc + front)
    ensures InFirstOrder(AppendNew(acc, front + [x]), acc + (front + [x]))
  {
    hide InFirstOrder, AppendNew;
    AppendNewLast(acc, front, x);
    OneMoreInOrder(AppendNew(acc, front), acc + front, x);
    assert acc + (front + [x]) == (acc + front) + [x];
  }

  lemma OneMoreInOrder(r: seq<int>, s: seq<int>, x: int)
    requires InFirstOrder(r, s)
    ensures InFirstOrder(if x in r then r else r + [x], s + [x])
  {
    var r', s' := if x in r then r else r + [x], s + [x];
    assert s'[..|s|] == s;
    assert forall c :: c in r' <==> c in s';
    forall i, j, k | 0 <= i < j < |r'| && 0 <= k < |s'| && s'[k] == r'[j] ensures r'[i] in s'[..k] {
      assert i < |r| && r'[i] == r[i] && r[i] in r;
      if k < |s| {
        assert s[k] in s && s'[..k] == s[..k];
        assert r'[j] in r;
        assert j < |r|;
      } else if x in r {
        var l :| 0 <= l < |s| && s[l] == x;
        assert r[i] in s[..l];
        assert forall c :: c in s[..l] ==> c in s;
      }
    }
  }

  /** The identity command comes first, then the commands of the mapping in their order. */
  lemma CommandsInOrder(m: MappingValue)
    ensures InFirstOrder(CmdIds(m), (if m.details.cmdId.Some? then [m.details.cmdId.value] else []) + m.commands)
  {
    FirstOrder(if m.details.cmdId.Some? then [m.details.cmdId.value] else [], m.commands, |m.commands|);
    assert m.commands[..|m.commands|] == m.commands;
  }

  lemma KnownInOrder(cmds: seq<int>)
    ensures InFirstOrder(KnownIds(cmds), cmds)
  {
    FirstOrder([], cmds, |cmds|);
    assert cmds[..|cmds|] == cmds && [] + cmds == cmds;
  }

  // ---------------------------------------------------------------------------------------
  // Entities
  // ---------------------------------------------------------------------------------------

  function Impose(m: MappingValue, t: Option<Imposed>): MappingValue {
    match t
    case None => m
    case Some(i) => m.(haType := i.haType, details := m.details.(overrideSource := Some(i.source)))
  }

  function PatchType(raw: MappingValue, layers: Layers): MappingValue {
    Impose(raw, ImposedType(raw.eqId, CmdIds(raw), layers.Merged(), layers.proposed))
  }

  function PolicyOf(m: MappingValue, layers: Layers): Option<Resolution> {
    ResolveMapping(m.eqId, CmdIds(m), layers.Merged(), layers.EqMerged())
  }

  /** `_decide_for_mapping` and its finalisation: projection check, then decision, then step 4. */
  function Judge(patched: MappingValue, layers: Layers, setup: Setup): Entity {
    var working := patched.(validity := Some(setup.validate(patched.haType, patched.capabilities)), step := Some(3));
    Entity(working.(step := Some(4)), DecidePublication(working, setup.policy, setup.scope, PolicyOf(working, layers)))
  }

  /** Type override, projection check and decision of one mapping, primary or secondary. */
  function EvaluateEntity(raw: MappingValue, layers: Layers, setup: Setup): Entity {
    Judge(PatchType(raw, layers), layers, setup)
  }

  function EvaluateEntities(raws: seq<MappingValue>, layers: Layers, setup: Setup): (r: seq<Entity>)
    ensures |r| == |raws|
  {
    seq(|raws|, i requires 0 <= i < |raws| => EvaluateEntity(raws[i], layers, setup))
  }

  // ---------------------------------------------------------------------------------------
  // Commands
  // ---------------------------------------------------------------------------------------

  /** Entities that carry the command, primary first. */
  function Carriers(entities: seq<Entity>, cmdId: int): (r: seq<Entity>)
    ensures forall e :: e in r <==> e in entities && cmdId in CmdIds(e.mapping)
  {
    if entities == [] then []
    else
      var last := entities[|entities|-1];
      Carriers(entities[..|entities|-1], cmdId) + if cmdId in CmdIds(last.mapping) then [last] else []
  }

  /** `select_covering_decision`: the first published carrier, else the first one. */
  function SelectCovering(entities: seq<Entity>): (r: Entity)
    requires entities != []
    ensures r in entities
  {
    if FirstPublished(entities).Some? then FirstPublished(entities).value else entities[0]
  }

  function FirstPublished(entities: seq<Entity>): (r: Option<Entity>)
    ensures r.Some? ==> r.value in entities && r.value.decision.shouldPublish
    ensures r.Some? <==> exists e :: e in entities && e.decision.shouldPublish
  {
    if entities == [] then None
    else if entities[0].decision.shouldPublish then Some(entities[0])
    else
      assert forall e :: e in entities <==> e == entities[0] || e in entities[1..];
      FirstPublished(entities[1..])
  }

  predicate Carries(e: Entity, c: int) { c in CmdIds(e.mapping) }

  /** The entity at `k` covers the command: the first published one that carries it, else the first that does. */
  ghost predicate IsCovering(entities: seq<Entity>, c: int, k: nat) {
    && k < |entities| && Carries(entities[k], c)
    && (forall j :: 0 <= j < k && Carries(entities[j], c) ==>
       entities[k].decision.shouldPublish && !entities[j].decision.shouldPublish)
    && (forall j :: 0 <= j < |entities| && Carries(entities[j], c) && entities[j].decision.shouldPublish ==>
       entities[k].decision.shouldPublish)
  }

  lemma {:induction false} FirstPublishedAppend(entities: seq<Entity>, e: Entity)
    ensures FirstPublished(entities + [e])
         == if FirstPublished(entities).Some? then FirstPublished(entities)
           else if e.decision.shouldPublish then Some(e) else None
  {
    if entities != [] {
      FirstPublishedAppend(entities[1..], e);
      assert (entities + [e])[1..] == entities[1..] + [e];
    }
  }

  lemma SelectCoveringStep(entities: seq<Entity>, e: Entity)
    requires entities != []
    ensures SelectCovering(entities + [e])
         == if e.decision.shouldPublish && !SelectCovering(entities).decision.shouldPublish then e
           else SelectCovering(entities)
  {
    hide FirstPublished;
    FirstPublishedAppend(entities, e);
    assert entities[0] in entities;
  }

  lemma CoveringStep(entities: seq<Entity>, e: Entity, c: int, k: nat)
    requires IsCovering(entities, c, k)
    ensures IsCovering(entities + [e], c,
      if Carries(e, c) && e.decision.shouldPublish && !entities[k].decision.shouldPublish then |entities| else k)
  {
  }

  /** The decision a command carries is that of the entity that covers it. */
  lemma {:induction false} CoveringIsFirst(entities: seq<Entity>, c: int)
    requires Carriers(entities, c) != []
    ensures exists k: nat ::
      k < |entities| && IsCovering(entities, c, k) && SelectCovering(Carriers(entities, c)) == entities[k]
  {
    hide CmdIds, SelectCovering, IsCovering;
    var n := |entities| - 1;
    var front, last := entities[..n], entities[n];
    var before := Carriers(front, c);
    assert entities == front + [last];
    if before == [] {
      NoCarrier(front, c);
      FirstCarrier(entities, c);
    } else {
      CoveringIsFirst(front, c);
      var k: nat :| k < |front| && IsCovering(front, c, k) && SelectCovering(before) == front[k];
      CoveringStep(front, last, c, k);
      SelectCoveringStep(before, last);
      if !Carries(last, c) {
        assert Carriers(entities, c) == before;
      }
      assert front[k] == entities[k];
      assert IsCovering(entities, c,
        if Carries(last, c) && last.decision.shouldPublish && !front[k].decision.shouldPublish then n else k);
    }
  }

  lemma FirstCarrier(entities: seq<Entity>, c: int)
    requires entities != [] && Carriers(entities[..|entities|-1], c) == [] && Carriers(entities, c) != []
    ensures IsCovering(entities, c, |entities| - 1) && SelectCovering(Carriers(entities, c)) == entities[|entities|-1]
  {
  }

  lemma NoCarrier(entities: seq<Entity>, c: int)
    requires Carriers(entities, c) == []
    ensures forall j :: 0 <= j < |entities| ==> !Carries(entities[j], c)
  {
  }

  function DecideCommand(entities: seq<Entity>, cmdId: int): CommandDecision {
    var carriers := Carriers(entities, cmdId);
    if carriers == [] then CommandDecision(cmdId, false, CommandNotCovered, Step2, NotCovered)
    else
      var d := SelectCovering(carriers).decision;
      CommandDecision(cmdId, d.shouldPublish, d.reason, StepForDecision(d), d.details)
  }

  function DecideCommands(entities: seq<Entity>, ids: seq<int>): (r: seq<CommandDecision>)
    ensures |r| == |ids|
    ensures forall i :: 0 <= i < |ids| ==> r[i] == DecideCommand(entities, ids[i])
  {
    Apply((id: int) => DecideCommand(entities, id), ids)
  }

  // ---------------------------------------------------------------------------------------
  // The equipment
  // ---------------------------------------------------------------------------------------

  /** `entities` is empty when there is no mapping; otherwise its first element is the primary. */
  datatype Outcome = Outcome(decision: DecisionValue, entities: seq<Entity>, commands: seq<CommandDecision>)

  function Alias(r: Reason): Reason { if r == NoSupportedGenericType then NoGenericTypeConfigured else r }

  function RefusedCommands(ids: seq<int>, reason: Reason, step: Step,
      details: DecisionDetails): (r: seq<CommandDecision>)
    ensures |r| == |ids| && forall i :: 0 <= i < |ids| ==> r[i] == CommandDecision(ids[i], false, reason, step, details)
  {
    seq(|ids|, i requires 0 <= i < |ids| => CommandDecision(ids[i], false, reason, step, details))
  }

  /** `raws` is what the registry returns: nothing, or the primary followed by its secondaries. */
  function Evaluate(cmds: seq<int>, eligibility: Eligibility, raws: seq<MappingValue>, layers: Layers,
      setup: Setup): Outcome
  {
    var ids := KnownIds(cmds);
    if !eligibility.eligible then
      var reason := Alias(eligibility.reason);
      Outcome(DecisionValue(false, reason, IneligibleFor(eligibility.reason)), [],
              RefusedCommands(ids, reason, Step1, IneligibleFor(eligibility.reason)))
    else if raws == [] then
      Outcome(DecisionValue(false, NoMapping, NoDetails), [],
        RefusedCommands(ids, CommandNotCovered, Step2, NotCovered))
    else
      var entities := EvaluateEntities(raws, layers, setup);
      Outcome(entities[0].decision, entities, DecideCommands(entities, ids))
  }

  // ---------------------------------------------------------------------------------------
  // What the outcome promises
  // ---------------------------------------------------------------------------------------

  /** Published exactly when an entity that carries the command is, and uncovered exactly when none carries it. */
  ghost predicate FollowsEntities(d: CommandDecision, entities: seq<Entity>, eligible: bool) {
    && (d.shouldPublish <==> exists e :: e in entities && d.cmdId in CmdIds(e.mapping) && e.decision.shouldPublish)
    && (eligible ==> (d.details == NotCovered <==> !exists e :: e in entities && d.cmdId in CmdIds(e.mapping)))
    && (d.details == NotCovered ==> d.reason == CommandNotCovered && d.step == Step2)
  }

  /** One decision per distinct command, in the equipment's order, each following the entities. */
  lemma CommandsFollowEntities(cmds: seq<int>, eligibility: Eligibility, raws: seq<MappingValue>, layers: Layers,
      setup: Setup)
    ensures var o := Evaluate(cmds, eligibility, raws, layers, setup);
      && |o.commands| == |KnownIds(cmds)|
      && (forall i :: 0 <= i < |o.commands| ==> o.commands[i].cmdId == KnownIds(cmds)[i])
      && (forall i, j :: 0 <= i < j < |o.commands| ==> o.commands[i].cmdId != o.commands[j].cmdId)
      && (forall c :: c in cmds ==> exists i :: 0 <= i < |o.commands| && o.commands[i].cmdId == c)
      && (forall d :: d in o.commands ==> FollowsEntities(d, o.entities, eligibility.eligible))
  {
    var o := Evaluate(cmds, eligibility, raws, layers, setup);
    forall c | c in cmds ensures exists i :: 0 <= i < |o.commands| && o.commands[i].cmdId == c {
      var i :| 0 <= i < |KnownIds(cmds)| && KnownIds(cmds)[i] == c;
      assert o.commands[i].cmdId == c;
    }
    if eligibility.eligible && raws != [] {
      hide FollowsEntities, EvaluateEntities, DecideCommand, CmdIds;
      forall d | d in o.commands ensures FollowsEntities(d, o.entities, true) {
        var i :| 0 <= i < |o.commands| && o.commands[i] == d;
        DecidedCommand(raws, layers, setup, KnownIds(cmds)[i]);
      }
    }
  }

  lemma DecidedCommand(raws: seq<MappingValue>, layers: Layers, setup: Setup, c: int)
    ensures var entities := EvaluateEntities(raws, layers, setup);
      FollowsEntities(DecideCommand(entities, c), entities, true)
  {
    CommandFollowsCarriers(EvaluateEntities(raws, layers, setup), c);
    UncoveredCommand(raws, layers, setup, c);
    hide EvaluateEntity, CmdIds;
  }

  lemma UncoveredCommand(raws: seq<MappingValue>, layers: Layers, setup: Setup, c: int)
    ensures var entities := EvaluateEntities(raws, layers, setup); var d := DecideCommand(entities, c);
      && (d.details == NotCovered <==> !exists e :: e in entities && c in CmdIds(e.mapping))
      && (d.details == NotCovered ==> d.reason == CommandNotCovered && d.step == Step2)
  {
    hide EvaluateEntity, CmdIds;
    var entities := EvaluateEntities(raws, layers, setup);
    forall e | e in entities ensures e.decision.details != NotCovered {
      var i :| 0 <= i < |raws| && e == EvaluateEntity(raws[i], layers, setup);
      EntityIsNotUncovered(raws[i], layers, setup);
    }
    var carriers := Carriers(entities, c);
    if carriers != [] {
      assert SelectCovering(carriers) in entities;
      assert carriers[0] in carriers;
    } else {
      NoCarrier(entities, c);
    }
  }

  lemma EntityIsNotUncovered(raw: MappingValue, layers: Layers, setup: Setup)
    ensures EvaluateEntity(raw, layers, setup).decision.details != NotCovered
  {
  }

  lemma CommandFollowsCarriers(entities: seq<Entity>, c: int)
    ensures DecideCommand(entities, c).shouldPublish <==>
      exists e :: e in entities && c in CmdIds(e.mapping) && e.decision.shouldPublish
  {
  }

  /** What must hold of a mapping, and of the entries of its commands and equipment, for its entity to be published. */
  predicate Publishes(raw: MappingValue, haType: string, layers: Layers, setup: Setup) {
    var ids, commands, equipment := CmdIds(raw), layers.Merged(), layers.EqMerged();
    && setup.validate(haType, raw.capabilities).isValid == Some(true) && haType in setup.scope
    && !EntriesExclude(raw.eqId, ids, commands, equipment)
    && (raw.confidence == Ambiguous ==> EntriesForce(raw.eqId, ids, commands, equipment))
    && (raw.confidence == Probable ==> setup.policy == SureProbable || EntriesForce(raw.eqId, ids, commands, equipment))
    && !raw.confidence.OtherConfidence?
  }

  lemma EntityPublishedExactlyWhen(raw: MappingValue, layers: Layers, setup: Setup)
    ensures var e := EvaluateEntity(raw, layers, setup);
      e.decision.shouldPublish <==> Publishes(raw, e.mapping.haType, layers, setup)
  {
    hide ImposedType, ResolveMapping, EntriesExclude, EntriesForce, CmdIds, DecidePublication;
    var patched := PatchType(raw, layers);
    var working := patched.(validity := Some(setup.validate(patched.haType, patched.capabilities)), step := Some(3));
    SameCommands(raw, layers, working);
    ExclusionIsPolicy(raw.eqId, CmdIds(raw), layers.Merged(), layers.EqMerged());
    PublishedExactlyWhen(working, setup.policy, setup.scope, PolicyOf(raw, layers));
    var p := PolicyOf(raw, layers);
    assert p.Some? ==> p.value.ExcludeEqLogic? || p.value.ExcludeCommand? || p.value.ForcePublish?;
  }

  /** A type override leaves the commands of a mapping as they are. */
  lemma SameCommands(raw: MappingValue, layers: Layers, working: MappingValue)
    requires var patched := PatchType(raw, layers);
      working.details == patched.details && working.commands == patched.commands
    ensures CmdIds(working) == CmdIds(raw)
  {
  }

  lemma ExclusionIsPolicy(eqId: int, ids: seq<int>, overrides: Section, equipment: Section)
    ensures var r := ResolveMapping(eqId, ids, overrides, equipment);
      && (Excludes(r) <==> EntriesExclude(eqId, ids, overrides, equipment))
      && (r == Some(ForcePublish) <==> EntriesForce(eqId, ids, overrides, equipment))
  {
    PolicyMeaning(eqId, ids, overrides, equipment);
    hide ResolveMapping;
  }

  /**
    An entity is published exactly when its projection is valid, its type in scope, and policy and confidence allow
    it.
  */
  lemma EntitiesPublishedExactlyWhen(cmds: seq<int>, eligibility: Eligibility, raws: seq<MappingValue>, layers: Layers,
      setup: Setup)
    ensures var o := Evaluate(cmds, eligibility, raws, layers, setup);
      && |o.entities| == (if eligibility.eligible then |raws| else 0)
      && (o.entities == [] ==> !o.decision.shouldPublish && forall d :: d in o.commands ==> !d.shouldPublish)
      && (forall i :: 0 <= i < |o.entities| ==>
            (o.entities[i].decision.shouldPublish <==> Publishes(raws[i], o.entities[i].mapping.haType, layers, setup)))
  {
    hide EvaluateEntity, Publishes, DecideCommand;
    var o := Evaluate(cmds, eligibility, raws, layers, setup);
    forall i | 0 <= i < |o.entities|
      ensures o.entities[i].decision.shouldPublish <==> Publishes(raws[i], o.entities[i].mapping.haType, layers, setup)
    {
      EntityPublishedExactlyWhen(raws[i], layers, setup);
    }
  }

  /**
    Each entity is its mapping under the type the entries impose, if any, validated under that type and decided:
    the type, its source, the validation and the step are all that changes.
  */
  lemma EntitiesShowTheirType(cmds: seq<int>, eligibility: Eligibility, raws: seq<MappingValue>, layers: Layers,
      setup: Setup, i: nat)
    requires eligibility.eligible && i < |raws|
    ensures var o := Evaluate(cmds, eligibility, raws, layers, setup);
      && i < |o.entities|
      && exists t :: IsImposed(t, raws[i].eqId, CmdIds(raws[i]), layers.Merged(), layers.proposed)
                     && IsTypedCopy(o.entities[i].mapping, raws[i], t, setup)
  {
    hide CmdIds, IsImposed, ImposedType, DecidePublication;
    var o := Evaluate(cmds, eligibility, raws, layers, setup);
    var t := ImposedType(raws[i].eqId, CmdIds(raws[i]), layers.Merged(), layers.proposed);
    ImposedMeaning(raws[i].eqId, CmdIds(raws[i]), layers.Merged(), layers.proposed);
    assert IsTypedCopy(o.entities[i].mapping, raws[i], t, setup);
  }

  predicate IsTypedCopy(m: MappingValue, raw: MappingValue, t: Option<Imposed>, setup: Setup) {
    && m.haType == (if t.Some? then t.value.haType else raw.haType)
    && m.details.overrideSource == (if t.Some? then Some(t.value.source) else raw.details.overrideSource)
    && m.validity == Some(setup.validate(m.haType, raw.capabilities)) && m.step == Some(4)
    && m.confidence == raw.confidence && m.eqId == raw.eqId && m.uniqueId == raw.uniqueId
    && m.commands == raw.commands && m.capabilities == raw.capabilities
    && m.details.cmdId == raw.details.cmdId && m.details.nodeId == raw.details.nodeId
  }

  /** An equipment-level exclusion vetoes every entity of the equipment and every command. */
  lemma EquipmentExclusionVetoes(cmds: seq<int>, eligibility: Eligibility, raws: seq<MappingValue>, layers: Layers,
      setup: Setup, eqId: int)
    requires forall i :: 0 <= i < |raws| ==> raws[i].eqId == eqId
    requires EquipmentSets(eqId, layers.EqMerged(), "exclude")
    ensures var o := Evaluate(cmds, eligibility, raws, layers, setup);
      && !o.decision.shouldPublish
      && (forall e :: e in o.entities ==> !e.decision.shouldPublish)
      && (forall d :: d in o.commands ==> !d.shouldPublish)
  {
    hide EvaluateEntity, DecideCommand;
    var o := Evaluate(cmds, eligibility, raws, layers, setup);
    forall i | 0 <= i < |o.entities| ensures !o.entities[i].decision.shouldPublish {
      EntityPublishedExactlyWhen(raws[i], layers, setup);
    }
    CommandsFollowEntities(cmds, eligibility, raws, layers, setup);
  }

  /** An equipment that is not eligible, and one that nothing maps: every command is refused for the same reason. */
  lemma NothingToEvaluate(cmds: seq<int>, eligibility: Eligibility, raws: seq<MappingValue>, layers: Layers,
      setup: Setup)
    requires !eligibility.eligible || raws == []
    ensures var o := Evaluate(cmds, eligibility, raws, layers, setup);
      var reason :=
        if eligibility.reason == NoSupportedGenericType then NoGenericTypeConfigured else eligibility.reason;
      && o.entities == [] && !o.decision.shouldPublish
      && (!eligibility.eligible ==>
         && o.decision.reason == reason && o.decision.details == IneligibleFor(eligibility.reason)
         && forall d :: d in o.commands ==> d.reason == reason && d.step == Step1 && !d.shouldPublish)
      && (eligibility.eligible ==>
         && o.decision.reason == NoMapping
         && forall d :: d in o.commands ==> d.reason == CommandNotCovered && d.step == Step2 && !d.shouldPublish)
  {
  }

  // ---------------------------------------------------------------------------------------
  // Monotonicity of the publication policies
  // ---------------------------------------------------------------------------------------

  /** `save_override` with a publication policy only. */
  function SavePolicy(section: Section, key: string, policy: Value): Section {
    section[key := SavedEntry(Get(section, key), map[Publication := policy])]
  }

  lemma SavePolicyMeaning(section: Section, key: string, policy: Value, k: string)
    ensures var after := SavePolicy(section, key, policy);
      && key in after && PublicationOf(after[key]) == policy
      && (k != key ==> Get(after, k) == Get(section, k))
      && (forall f :: f in Get(section, key) && f != Publication ==>
         f in after[key] && after[key][f] == Get(section, key)[f])
  {
  }

  /** The layers a synchronisation reads: nothing is proposed. */
  function Persisted(overrides: Section, equipment: Section): Layers { Layers(overrides, equipment, map[], map[]) }

  lemma PersistedIsMerged(overrides: Section)
    ensures MergeLayer(overrides, map[]) == overrides
  {
    assert forall k :: k in overrides ==> Get(overrides, k) + Get(map[], k) == overrides[k];
  }

  /** Setting a policy never touches the imposed types. */
  lemma {:induction false} PolicyKeepsTypes(eqId: int, ids: seq<int>, section: Section, key: string, policy: Value)
    ensures FirstImposed(eqId, ids, SavePolicy(section, key, policy)) == FirstImposed(eqId, ids, section)
  {
    if ids != [] {
      PolicyKeepsTypes(eqId, ids[1..], section, key, policy);
      var k := OverrideKey(eqId, ids[0]);
      assert UsableType(Get(SavePolicy(section, key, policy), k)) == UsableType(Get(section, k));
    }
  }

  predicate Forced(before: Option<Resolution>, after: Option<Resolution>) {
    after == before || (before == None && after == Some(ForcePublish))
  }

  lemma StrongestForced(before: set<Option<Resolution>>, after: set<Option<Resolution>>)
    requires forall b :: b in before ==> exists a :: a in after && Forced(b, a)
    requires forall a :: a in after ==> exists b :: b in before && Forced(b, a)
    ensures Forced(Strongest(before), Strongest(after))
  {
  }

  lemma StrongestExcluded(before: set<Option<Resolution>>, after: set<Option<Resolution>>)
    requires forall b :: b in before ==> exists a :: a in after && (a == b || Excludes(a))
    requires forall a :: a in after ==> a in before || Excludes(a)
    ensures Strongest(after) == Strongest(before) || Excludes(Strongest(after))
  {
  }

  /** The two sections after a policy has been saved, for one command or for one equipment. */
  function SavedAt(overrides: Section, equipment: Section, onEquipment: bool, key: string, policy: Value): (Section,
      Section)
  {
    if onEquipment then (overrides, SavePolicy(equipment, key, policy))
    else (SavePolicy(overrides, key, policy), equipment)
  }

  function EntryAt(overrides: Section, equipment: Section, onEquipment: bool, key: string): Entry {
    Get(if onEquipment then equipment else overrides, key)
  }

  lemma ForceOneCommand(eqId: int, c: int, overrides: Section, equipment: Section, onEquipment: bool, key: string)
    requires PublicationOf(EntryAt(overrides, equipment, onEquipment, key)) !in {EXCLUDE, FORCE}
    ensures var (o', e') := SavedAt(overrides, equipment, onEquipment, key, FORCE);
      Forced(ResolveCommand(eqId, c, overrides, equipment), ResolveCommand(eqId, c, o', e'))
  {
  }

  lemma ExcludeOneCommand(eqId: int, c: int, overrides: Section, equipment: Section, onEquipment: bool, key: string)
    ensures var (o', e') := SavedAt(overrides, equipment, onEquipment, key, EXCLUDE);
      var after := ResolveCommand(eqId, c, o', e');
      after == ResolveCommand(eqId, c, overrides, equipment) || Excludes(after)
  {
  }

  lemma ForceOneMapping(eqId: int, ids: seq<int>, overrides: Section, equipment: Section, onEquipment: bool,
      key: string)
    requires PublicationOf(EntryAt(overrides, equipment, onEquipment, key)) !in {EXCLUDE, FORCE}
    ensures var (o', e') := SavedAt(overrides, equipment, onEquipment, key, FORCE);
      Forced(ResolveMapping(eqId, ids, overrides, equipment), ResolveMapping(eqId, ids, o', e'))
  {
    var (o', e') := SavedAt(overrides, equipment, onEquipment, key, FORCE);
    var before, after := Resolutions(eqId, ids, overrides, equipment), Resolutions(eqId, ids, o', e');
    forall c ensures Forced(ResolveCommand(eqId, c, overrides, equipment), ResolveCommand(eqId, c, o', e')) {
      ForceOneCommand(eqId, c, overrides, equipment, onEquipment, key);
    }
    forall b | b in before ensures exists a :: a in after && Forced(b, a) {
      var c :| c in Looked(ids) && b == ResolveCommand(eqId, c, overrides, equipment);
      assert ResolveCommand(eqId, c, o', e') in after;
    }
    forall a | a in after ensures exists b :: b in before && Forced(b, a) {
      var c :| c in Looked(ids) && a == ResolveCommand(eqId, c, o', e');
      assert ResolveCommand(eqId, c, overrides, equipment) in before;
    }
    StrongestForced(before, after);
  }

  lemma ExcludeOneMapping(eqId: int, ids: seq<int>, overrides: Section, equipment: Section, onEquipment: bool,
      key: string)
    ensures var (o', e') := SavedAt(overrides, equipment, onEquipment, key, EXCLUDE);
      var after := ResolveMapping(eqId, ids, o', e');
      after == ResolveMapping(eqId, ids, overrides, equipment) || Excludes(after)
  {
    var (o', e') := SavedAt(overrides, equipment, onEquipment, key, EXCLUDE);
    var before, after := Resolutions(eqId, ids, overrides, equipment), Resolutions(eqId, ids, o', e');
    forall c ensures var r :=
      ResolveCommand(eqId, c, o', e'); r == ResolveCommand(eqId, c, overrides, equipment) || Excludes(r)
    {
      ExcludeOneCommand(eqId, c, overrides, equipment, onEquipment, key);
    }
    forall b | b in before ensures exists a :: a in after && (a == b || Excludes(a)) {
      var c :| c in Looked(ids) && b == ResolveCommand(eqId, c, overrides, equipment);
      assert ResolveCommand(eqId, c, o', e') in after;
    }
    StrongestExcluded(before, after);
  }

  lemma PolicyKeepsMapping(raw: MappingValue, overrides: Section, equipment: Section, onEquipment: bool, key: string,
      policy: Value)
    ensures var (o', e') := SavedAt(overrides, equipment, onEquipment, key, policy);
      PatchType(raw, Persisted(o', e')) == PatchType(raw, Persisted(overrides, equipment))
  {
    PersistedIsMerged(overrides);
    PersistedIsMerged(SavePolicy(overrides, key, policy));
    PolicyKeepsTypes(raw.eqId, CmdIds(raw), overrides, key, policy);
  }

  /** Entity for entity, `more` describes the same mapping as `less` and publishes it at least as much. */
  predicate AtLeast(more: Entity, less: Entity) {
    more.mapping == less.mapping && (less.decision.shouldPublish ==> more.decision.shouldPublish)
  }

  lemma ForceOneEntity(raw: MappingValue, overrides: Section, equipment: Section, onEquipment: bool, key: string,
      setup: Setup)
    requires PublicationOf(EntryAt(overrides, equipment, onEquipment, key)) !in {EXCLUDE, FORCE}
    ensures var (o', e') := SavedAt(overrides, equipment, onEquipment, key, FORCE);
      AtLeast(EvaluateEntity(raw, Persisted(o', e'), setup),
        EvaluateEntity(raw, Persisted(overrides, equipment), setup))
  {
    var (o', e') := SavedAt(overrides, equipment, onEquipment, key, FORCE);
    PersistedIsMerged(overrides);
    PersistedIsMerged(equipment);
    PersistedIsMerged(o');
    PersistedIsMerged(e');
    PolicyKeepsMapping(raw, overrides, equipment, onEquipment, key, FORCE);
    ForceOneMapping(raw.eqId, CmdIds(raw), overrides, equipment, onEquipment, key);
  }

  lemma ExcludeOneEntity(raw: MappingValue, overrides: Section, equipment: Section, onEquipment: bool, key: string,
      setup: Setup)
    ensures var (o', e') := SavedAt(overrides, equipment, onEquipment, key, EXCLUDE);
      AtLeast(EvaluateEntity(raw, Persisted(overrides, equipment), setup),
        EvaluateEntity(raw, Persisted(o', e'), setup))
  {
    var (o', e') := SavedAt(overrides, equipment, onEquipment, key, EXCLUDE);
    PersistedIsMerged(overrides);
    PersistedIsMerged(equipment);
    PersistedIsMerged(o');
    PersistedIsMerged(e');
    PolicyKeepsMapping(raw, overrides, equipment, onEquipment, key, EXCLUDE);
    ExcludeOneMapping(raw.eqId, CmdIds(raw), overrides, equipment, onEquipment, key);
  }

  /** `more` publishes every entity and every command that `less` publishes. */
  ghost predicate PublishesAtLeast(more: Outcome, less: Outcome) {
    && |more.entities| == |less.entities|
    && (forall i :: 0 <= i < |less.entities| ==> AtLeast(more.entities[i], less.entities[i]))
    && |more.commands| == |less.commands|
    && (forall i :: 0 <= i < |less.commands| ==> less.commands[i].cmdId == more.commands[i].cmdId)
    && (forall i :: 0 <= i < |less.commands| && less.commands[i].shouldPublish ==> more.commands[i].shouldPublish)
  }

  lemma CommandsFollowPublication(cmds: seq<int>, less: Outcome, more: Outcome)
    requires |less.entities| == |more.entities|
    requires forall i :: 0 <= i < |less.entities| ==> AtLeast(more.entities[i], less.entities[i])
    requires less.entities == [] ==> less.commands == more.commands
    requires less.entities != [] ==>
      less.commands == DecideCommands(less.entities, KnownIds(cmds))
      && more.commands == DecideCommands(more.entities, KnownIds(cmds))
    ensures PublishesAtLeast(more, less)
  {
    if less.entities != [] {
      forall i | 0 <= i < |less.commands| && less.commands[i].shouldPublish ensures more.commands[i].shouldPublish {
        var c := KnownIds(cmds)[i];
        CommandFollowsCarriers(less.entities, c);
        CommandFollowsCarriers(more.entities, c);
        var k :| 0 <= k < |less.entities| && c in CmdIds(less.entities[k].mapping)
          && less.entities[k].decision.shouldPublish;
        assert AtLeast(more.entities[k], less.entities[k]);
        assert more.entities[k] in more.entities;
      }
    }
  }

  /** Saving a force where no policy was set never unpublishes an entity nor a command. */
  lemma ForceNeverUnpublishes(cmds: seq<int>, eligibility: Eligibility, raws: seq<MappingValue>, overrides: Section,
      equipment: Section,
                              onEquipment: bool, key: string, setup: Setup)
    requires PublicationOf(EntryAt(overrides, equipment, onEquipment, key)) !in {EXCLUDE, FORCE}
    ensures var (o', e') := SavedAt(overrides, equipment, onEquipment, key, FORCE);
      PublishesAtLeast(Evaluate(cmds, eligibility, raws, Persisted(o', e'), setup),
        Evaluate(cmds, eligibility, raws, Persisted(overrides, equipment), setup))
  {
    var (o', e') := SavedAt(overrides, equipment, onEquipment, key, FORCE);
    var before := Evaluate(cmds, eligibility, raws, Persisted(overrides, equipment), setup);
    var after := Evaluate(cmds, eligibility, raws, Persisted(o', e'), setup);
    forall i | 0 <= i < |before.entities| ensures AtLeast(after.entities[i], before.entities[i]) {
      ForceOneEntity(raws[i], overrides, equipment, onEquipment, key, setup);
    }
    CommandsFollowPublication(cmds, before, after);
  }

  /** Saving an exclusion never publishes an entity nor a command. */
  lemma ExclusionNeverPublishes(cmds: seq<int>, eligibility: Eligibility, raws: seq<MappingValue>, overrides: Section,
      equipment: Section,
                                onEquipment: bool, key: string, setup: Setup)
    ensures var (o', e') := SavedAt(overrides, equipment, onEquipment, key, EXCLUDE);
      PublishesAtLeast(Evaluate(cmds, eligibility, raws, Persisted(overrides, equipment), setup),
        Evaluate(cmds, eligibility, raws, Persisted(o', e'), setup))
  {
    var (o', e') := SavedAt(overrides, equipment, onEquipment, key, EXCLUDE);
    var before := Evaluate(cmds, eligibility, raws, Persisted(overrides, equipment), setup);
    var after := Evaluate(cmds, eligibility, raws, Persisted(o', e'), setup);
    forall i | 0 <= i < |before.entities| ensures AtLeast(before.entities[i], after.entities[i]) {
      ExcludeOneEntity(raws[i], overrides, equipment, onEquipment, key, setup);
    }
    CommandsFollowPublication(cmds, after, before);
  }

  // ---------------------------------------------------------------------------------------
  // Preview and save
  // ---------------------------------------------------------------------------------------

  predicate ShadowedIn(raw: MappingValue, layers: Layers) {
    Shadowed(raw.eqId, CmdIds(raw), layers.Merged(), layers.proposed)
  }

  lemma SavedIsMerged(layers: Layers)
    ensures layers.Saved().Merged() == SavedLayer(layers.persisted, layers.proposed)
    ensures layers.Saved().EqMerged() == SavedLayer(layers.eqPersisted, layers.eqProposed)
  {
    PersistedIsMerged(SavedLayer(layers.persisted, layers.proposed));
    PersistedIsMerged(SavedLayer(layers.eqPersisted, layers.eqProposed));
  }

  lemma PreviewType(raw: MappingValue, layers: Layers)
    ensures PatchType(raw, layers) == PatchType(raw, layers.Saved()) <==> !ShadowedIn(raw, layers)
  {
    SavedIsMerged(layers);
    PreviewTypeIsSavedType(raw.eqId, CmdIds(raw), layers.persisted, layers.proposed);
    FirstImposedAt(raw.eqId, CmdIds(raw), layers.Merged());
    FirstImposedAt(raw.eqId, CmdIds(raw), layers.Saved().Merged());
    if ShadowedIn(raw, layers) {
      ShadowedTypes(raw.eqId, CmdIds(raw), layers.persisted, layers.proposed);
    }
  }

  lemma PreviewPolicy(m: MappingValue, layers: Layers)
    ensures PolicyOf(m, layers) == PolicyOf(m, layers.Saved())
  {
    SavedIsMerged(layers);
    SavingKeepsPolicy(m.eqId, CmdIds(m), layers.persisted, layers.proposed, layers.eqPersisted, layers.eqProposed);
  }

  /** One entity: the preview is the state after the save exactly when no command shadows the edited one. */
  lemma PreviewEntity(raw: MappingValue, layers: Layers, setup: Setup)
    ensures EvaluateEntity(raw, layers, setup) == EvaluateEntity(raw, layers.Saved(), setup) <==>
      !ShadowedIn(raw, layers)
  {
    PreviewType(raw, layers);
    var patched := PatchType(raw, layers);
    var working := patched.(validity := Some(setup.validate(patched.haType, patched.capabilities)), step := Some(3));
    PreviewPolicy(working, layers);
    if ShadowedIn(raw, layers) {
      var saved := PatchType(raw, layers.Saved());
      assert patched.haType != saved.haType || patched.details != saved.details;
    }
  }

  /**
    The whole evaluation: previewing a proposal is saving it and evaluating again, exactly when nothing is shadowed.
  */
  lemma PreviewIsSaveThenSync(cmds: seq<int>, eligibility: Eligibility, raws: seq<MappingValue>, layers: Layers,
      setup: Setup)
    ensures Evaluate(cmds, eligibility, raws, layers, setup) == Evaluate(cmds, eligibility, raws, layers.Saved(), setup)
       <==> !eligibility.eligible || forall i :: 0 <= i < |raws| ==> !ShadowedIn(raws[i], layers)
  {
    if eligibility.eligible && raws != [] {
      var preview, saved := EvaluateEntities(raws, layers, setup), EvaluateEntities(raws, layers.Saved(), setup);
      forall i | 0 <= i < |raws| ensures preview[i] == saved[i] <==> !ShadowedIn(raws[i], layers) {
        PreviewEntity(raws[i], layers, setup);
      }
      if forall i :: 0 <= i < |raws| ==> !ShadowedIn(raws[i], layers) {
        assert preview == saved;
      }
    }
  }

  /** The documented case: at most one command of each mapping carries a usable type. */
  lemma OneTypePreviewIsSaveThenSync(cmds: seq<int>, eligibility: Eligibility, raws: seq<MappingValue>, layers: Layers,
      setup: Setup)
    requires forall i, j, k :: 0 <= i < |raws| && 0 <= j < k < |CmdIds(raws[i])| ==>
      !(UsableAt(raws[i].eqId, CmdIds(raws[i]), layers.Merged(), j)
        && UsableAt(raws[i].eqId, CmdIds(raws[i]), layers.Merged(), k))
    ensures Evaluate(cmds, eligibility, raws, layers, setup) == Evaluate(cmds, eligibility, raws, layers.Saved(), setup)
  {
    hide Evaluate, UsableAt, Shadowed;
    forall i | 0 <= i < |raws| ensures !ShadowedIn(raws[i], layers) {
      OneTypeIsNotShadowed(raws[i].eqId, CmdIds(raws[i]), layers.Merged(), layers.proposed);
    }
    PreviewIsSaveThenSync(cmds, eligibility, raws, layers, setup);
  }
}
