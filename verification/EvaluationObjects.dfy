/**
  `evaluate_equipment` on its objects.  Mappings and decisions are heap objects: the evaluation
  works on copies it owns, links each decision and its mapping both ways, and leaves every object
  it was given as it was (no method that reads the inputs may modify anything).
 */
module EvaluationObjects {
  import opened Prelude
  import opened Overrides
  import opened Decision
  import opened Evaluation

  class Mapping {
    var haType: string
    var confidence: Confidence
    var eqId: int
    var uniqueId: string
    var commands: seq<int>
    var capabilities: Capabilities
    var details: Details
    var validity: Option<Validity>
    var step: Option<nat>
    var decisionRef: PublicationDecision?
    var additional: seq<Mapping>

    function Value(): MappingValue
      reads this
    {
      MappingValue(haType, confidence, eqId, uniqueId, commands, capabilities, details, validity, step)
    }

    /** `dataclasses.replace`: a new object with the fields of `v`, sharing the list of secondaries. */
    constructor Replace(v: MappingValue, decisionRef: PublicationDecision?, additional: seq<Mapping>)
      ensures Value() == v && this.decisionRef == decisionRef && this.additional == additional
    {
      haType, confidence, eqId, uniqueId, commands := v.haType, v.confidence, v.eqId, v.uniqueId, v.commands;
      capabilities, details, validity, step := v.capabilities, v.details, v.validity, v.step;
      this.decisionRef, this.additional := decisionRef, additional;
    }
  }

  class PublicationDecision {
    var shouldPublish: bool
    var reason: Reason
    var details: DecisionDetails
    var mapping: Mapping?

    function Value(): DecisionValue
      reads this
    {
      DecisionValue(shouldPublish, reason, details)
    }

    constructor (v: DecisionValue)
      ensures Value() == v && mapping == null
    {
      shouldPublish, reason, details, mapping := v.shouldPublish, v.reason, v.details, null;
    }
  }

  /** `apply_type_override`: the same object when nothing matches, a patched copy otherwise. */
  method ApplyTypeOverride(m: Mapping, overrides: Section) returns (r: Mapping)
    ensures r == m || fresh(r)
    ensures r == m <==> FirstImposed(m.eqId, CmdIds(m.Value()), overrides).None?
    ensures r.Value() == Impose(m.Value(), FirstImposed(m.eqId, CmdIds(m.Value()), overrides))
    ensures r.additional == m.additional
  {
    var ids := CmdIds(m.Value());
    for i := 0 to |ids|
      invariant FirstImposed(m.eqId, ids, overrides) == FirstImposed(m.eqId, ids[i..], overrides)
    {
      var t := UsableType(Get(overrides, OverrideKey(m.eqId, ids[i])));
      if t.Some? {
        r := new Mapping.Replace(Impose(m.Value(), t), m.decisionRef, m.additional);
        return;
      }
    }
    r := m;
  }

  /** `_apply_type_override_with_proposed_priority`. */
  method ApplyWithProposedPriority(m: Mapping, layers: Layers) returns (r: Mapping)
    ensures r == m || fresh(r)
    ensures r.Value() == PatchType(m.Value(), layers)
    ensures r.additional == m.additional
  {
    if layers.proposed != map[] {
      r := ApplyTypeOverride(m, Priority(layers.Merged(), layers.proposed));
      if r != m {
        return;
      }
    }
    r := ApplyTypeOverride(m, layers.Merged());
  }

  /** `_decide_for_mapping`: a working copy and its decision, both new. */
  method DecideForMapping(m: Mapping, layers: Layers, setup: Setup) returns (w: Mapping, d: PublicationDecision)
    ensures fresh(w) && fresh(d) && w.additional == m.additional
    ensures Entity(w.Value().(step := Some(4)), d.Value()) == Judge(m.Value(), layers, setup)
  {
    var validity := setup.validate(m.haType, m.capabilities);
    w := new Mapping.Replace(m.Value().(validity := Some(validity), step := Some(3)), m.decisionRef, m.additional);
    var policy := ResolveForMapping(w.eqId, CmdIds(w.Value()), layers.Merged(), layers.EqMerged());
    d := new PublicationDecision(DecidePublication(w.Value(), setup.policy, setup.scope, policy));
  }

  /** `_finalize_cross_reference`. */
  method FinalizeCrossReference(w: Mapping, d: PublicationDecision, additional: seq<Mapping>)
    modifies w, d
    ensures Linked(w, d) && w.additional == additional
    ensures w.Value() == old(w.Value()).(step := Some(4)) && d.Value() == old(d.Value())
  {
    w.additional := additional;
    w.step := Some(4);
    d.mapping := w;
    w.decisionRef := d;
  }

  ghost predicate Linked(w: Mapping, d: PublicationDecision)
    reads w, d
  {
    d.mapping == w && w.decisionRef == d
  }

  datatype Evaluated = Evaluated(
    equipmentDecision: PublicationDecision, secondaryDecisions: seq<PublicationDecision>,
    commandDecisions: seq<CommandDecision>, mapping: Mapping?)

  ghost function Values(ms: seq<Mapping>): (r: seq<MappingValue>)
    reads ms
    ensures |r| == |ms| && forall i :: 0 <= i < |ms| ==> r[i] == ms[i].Value()
  {
    seq(|ms|, i requires 0 <= i < |ms| reads ms => ms[i].Value())
  }

  /** The primary and its secondaries, as the registry returns them. */
  ghost function Raws(raw: Mapping?): seq<MappingValue>
    reads raw, if raw == null then [] else raw.additional
  {
    if raw == null then [] else [raw.Value()] + Values(raw.additional)
  }

  // ---------------------------------------------------------------------------------------
  // Commands
  // ---------------------------------------------------------------------------------------

  function At(candidates: map<int, seq<Entity>>, c: int): seq<Entity> { if c in candidates then candidates[c] else [] }

  /** `candidates.setdefault(cmd_id, []).append(...)` over the commands of one entity. */
  method AddCandidates(candidates: map<int, seq<Entity>>, ids: seq<int>, e: Entity) returns (r: map<int, seq<Entity>>)
    requires Distinct(ids)
    ensures forall c :: At(r, c) == At(candidates, c) + if c in ids then [e] else []
  {
    r := candidates;
    for i := 0 to |ids|
      invariant forall c :: At(r, c) == At(candidates, c) + if c in ids[..i] then [e] else []
    {
      r := r[ids[i] := At(r, ids[i]) + [e]];
    }
    assert ids[..|ids|] == ids;
  }

  /** `candidates`, over the primary then the secondaries: the carriers of every command, in order. */
  method CollectCandidates(entities: seq<Entity>) returns (candidates: map<int, seq<Entity>>)
    ensures forall c :: At(candidates, c) == Carriers(entities, c)
  {
    candidates := map[];
    for i := 0 to |entities|
      invariant forall c :: At(candidates, c) == Carriers(entities[..i], c)
    {
      candidates := AddCandidates(candidates, CmdIds(entities[i].mapping), entities[i]);
      assert entities[..i+1][..i] == entities[..i];
    }
    assert entities[..|entities|] == entities;
  }

  /** The loop of `select_covering_decision`. */
  method SelectCoveringDecision(candidates: seq<Entity>) returns (e: Entity)
    requires candidates != []
    ensures e == SelectCovering(candidates)
  {
    for i := 0 to |candidates|
      invariant FirstPublished(candidates) == FirstPublished(candidates[i..])
    {
      if candidates[i].decision.shouldPublish {
        return candidates[i];
      }
    }
    e := candidates[0];
  }

  method DecideOneCommand(c: int, carriers: seq<Entity>) returns (r: CommandDecision)
    ensures forall entities: seq<Entity> :: carriers == Carriers(entities, c) ==> r == DecideCommand(entities, c)
  {
    if carriers != [] {
      var e := SelectCoveringDecision(carriers);
      r := CommandDecision(c, e.decision.shouldPublish, e.decision.reason, StepForDecision(e.decision),
        e.decision.details);
    } else {
      r := CommandDecision(c, false, CommandNotCovered, Step2, NotCovered);
    }
  }

  /** One decision per known command. */
  method DecideCommandsFrom(entities: seq<Entity>, known: seq<int>) returns (r: seq<CommandDecision>)
    ensures r == DecideCommands(entities, known)
  {
    hide DecideCommand, Carriers;
    var candidates := CollectCandidates(entities);
    r := [];
    for i := 0 to |known|
      invariant |r| == i && forall k :: 0 <= k < i ==> r[k] == DecideCommand(entities, known[k])
    {
      assert At(candidates, known[i]) == Carriers(entities, known[i]);
      var d := DecideOneCommand(known[i], At(candidates, known[i]));
      r := r + [d];
    }
  }

  // ---------------------------------------------------------------------------------------
  // The equipment
  // ---------------------------------------------------------------------------------------

  /** `m` and `d` are linked and show the entity `e`. */
  ghost predicate ShowsEntity(m: Mapping, d: PublicationDecision, e: Entity)
    reads m, d
  {
    Linked(m, d) && m.Value() == e.mapping && d.Value() == e.decision
  }

  /** The objects of `ev` are linked two by two and show the entities of `o`, the primary carrying the secondaries. */
  ghost predicate Shows(ev: Evaluated, o: Outcome)
    reads ev.equipmentDecision, ev.secondaryDecisions, ev.mapping, if ev.mapping == null then []
      else ev.mapping.additional
  {
    && ev.equipmentDecision.Value() == o.decision
    && ev.commandDecisions == o.commands
    && if o.entities == [] then ev.mapping == null && ev.secondaryDecisions == []
       && ev.equipmentDecision.mapping == null
       else
         && ev.mapping != null
         && ShowsEntity(ev.mapping, ev.equipmentDecision, o.entities[0])
         && |ev.mapping.additional| == |ev.secondaryDecisions| == |o.entities| - 1
         && forall i :: 0 <= i < |ev.secondaryDecisions| ==>
            ShowsEntity(ev.mapping.additional[i], ev.secondaryDecisions[i], o.entities[i + 1])
  }

  /** One mapping is patched and decided on its own copy, not yet finalised. */
  method DecideRaw(raw: Mapping, layers: Layers, setup: Setup) returns (w: Mapping, d: PublicationDecision)
    ensures fresh(w) && fresh(d) && w.additional == raw.additional
    ensures Entity(w.Value().(step := Some(4)), d.Value()) == EvaluateEntity(raw.Value(), layers, setup)
  {
    var patched := ApplyWithProposedPriority(raw, layers);
    w, d := DecideForMapping(patched, layers, setup);
  }

  /** A secondary is patched, decided and finalised on its own copy. */
  method EvaluateSecondary(raw: Mapping, layers: Layers, setup: Setup) returns (w: Mapping, d: PublicationDecision)
    ensures fresh(w) && fresh(d) && Linked(w, d) && w.additional == raw.additional
    ensures w.Value() == EvaluateEntity(raw.Value(), layers, setup).mapping
    ensures d.Value() == EvaluateEntity(raw.Value(), layers, setup).decision
  {
    hide EvaluateEntity;
    w, d := DecideRaw(raw, layers, setup);
    FinalizeCrossReference(w, d, w.additional);
  }

  method EvaluateSecondaries(raws: seq<Mapping>, layers: Layers, setup: Setup, ghost expected: seq<Entity>)
    returns (ms: seq<Mapping>, ds: seq<PublicationDecision>)
    requires |expected| == |raws|
    requires forall i :: 0 <= i < |raws| ==> expected[i] == EvaluateEntity(raws[i].Value(), layers, setup)
    ensures |ms| == |ds| == |raws| && fresh(ms) && fresh(ds)
    ensures forall i :: 0 <= i < |raws| ==>
      ShowsEntity(ms[i], ds[i], expected[i]) && ms[i].additional == raws[i].additional
  {
    hide EvaluateEntity;
    ms, ds := [], [];
    for i := 0 to |raws|
      invariant |ms| == |ds| == i && fresh(ms) && fresh(ds)
      invariant forall k :: 0 <= k < i ==>
        ShowsEntity(ms[k], ds[k], expected[k]) && ms[k].additional == raws[k].additional
    {
      var w, d := EvaluateSecondary(raws[i], layers, setup);
      ms, ds := ms + [w], ds + [d];
    }
  }

  method EvaluateEquipment(cmds: seq<int>, eligibility: Eligibility, raw: Mapping?, layers: Layers, setup: Setup)
    returns (ev: Evaluated)
    ensures Shows(ev, Evaluate(cmds, eligibility, old(Raws(raw)), layers, setup))
    ensures fresh(ev.equipmentDecision) && fresh(ev.secondaryDecisions)
    ensures ev.mapping != null ==> fresh(ev.mapping) && fresh(ev.mapping.additional)
  {
    hide EvaluateEntity, DecideCommand;
    var known := KnownIds(cmds);
    if !eligibility.eligible {
      var refused := new PublicationDecision(DecisionValue(false, Alias(eligibility.reason),
        IneligibleFor(eligibility.reason)));
      return Evaluated(refused, [],
        RefusedCommands(known, Alias(eligibility.reason), Step1, IneligibleFor(eligibility.reason)), null);
    }
    if raw == null {
      var unmapped := new PublicationDecision(DecisionValue(false, NoMapping, NoDetails));
      return Evaluated(unmapped, [], RefusedCommands(known, CommandNotCovered, Step2, NotCovered), null);
    }
    ghost var entities := EvaluateEntities(Raws(raw), layers, setup);
    var primary, decision, secondaries, decisions, commands := EvaluateMapped(known, raw, layers, setup, entities);
    ev := Evaluated(decision, decisions, commands, primary);
  }

  /** The values of the entities, read back from their objects. */
  method Shown(ms: seq<Mapping>, ds: seq<PublicationDecision>, ghost expected: seq<Entity>) returns (r: seq<Entity>)
    requires |ms| == |ds| == |expected|
    requires forall i :: 0 <= i < |ms| ==> ShowsEntity(ms[i], ds[i], expected[i])
    ensures r == expected
  {
    r := [];
    for i := 0 to |ms|
      invariant r == expected[..i]
    {
      r := r + [Entity(ms[i].Value(), ds[i].Value())];
    }
  }

  /** Primary and secondaries are evaluated, then the primary is finalised with its secondaries. */
  method EvaluateMapped(known: seq<int>, raw: Mapping, layers: Layers, setup: Setup, ghost entities: seq<Entity>)
    returns (primary: Mapping, decision: PublicationDecision, secondaries: seq<Mapping>,
      decisions: seq<PublicationDecision>,
             commands: seq<CommandDecision>)
    requires entities == EvaluateEntities(Raws(raw), layers, setup)
    ensures fresh(primary) && fresh(decision) && fresh(secondaries) && fresh(decisions)
    ensures primary.additional == secondaries && |secondaries| == |decisions| == |entities| - 1
    ensures ShowsEntity(primary, decision, entities[0])
    ensures forall i :: 0 <= i < |decisions| ==> ShowsEntity(secondaries[i], decisions[i], entities[i + 1])
    ensures commands == DecideCommands(entities, known)
  {
    hide EvaluateEntity, DecideCommand, DecideCommands;
    primary, decision := DecideRaw(raw, layers, setup);
    secondaries, decisions := EvaluateSecondaries(raw.additional, layers, setup, entities[1..]);
    FinalizeCrossReference(primary, decision, secondaries);
    var ms, ds := [primary] + secondaries, [decision] + decisions;
    forall i | 0 <= i < |ms| ensures ShowsEntity(ms[i], ds[i], entities[i]) {
      if i > 0 {
        assert ShowsEntity(secondaries[i - 1], decisions[i - 1], entities[1..][i - 1]);
      }
    }
    forall i | 0 <= i < |decisions| ensures ShowsEntity(secondaries[i], decisions[i], entities[i + 1]) {
      assert ShowsEntity(ms[i + 1], ds[i + 1], entities[i + 1]);
    }
    var shown := Shown(ms, ds, entities);
    commands := DecideCommandsFrom(shown, known);
  }
}
