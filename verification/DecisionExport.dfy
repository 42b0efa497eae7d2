/**
  The exported record of one equipment (`export/decision_export.py`): the verdict memorised after an
  evaluation, where the entity that covers a command is looked up again.
 */
module DecisionExport {
  import opened Prelude
  import opened Decision
  import opened Evaluation
  import opened EvaluationObjects

  datatype Verdict = Published | Partial | NotPublished

  datatype CommandRow = CommandRow(covered: bool, verdict: Verdict, reason: Reason, step: Step,
    uniqueId: Option<string>, haType: Option<string>)

  datatype Record = Record(verdict: Verdict, reason: Reason, step: Step, commands: map<int, CommandRow>)

  function VerdictOf(entities: seq<Entity>, primary: DecisionValue): Verdict {
    if primary.shouldPublish then Published
    else if exists i :: 1 <= i < |entities| && entities[i].decision.shouldPublish then Partial
    else NotPublished
  }

  function RowOf(entities: seq<Entity>, cd: CommandDecision, scopeExcluded: bool): CommandRow {
    var carriers := Carriers(entities, cd.cmdId);
    var covering := if carriers == [] then None else Some(SelectCovering(carriers).mapping);
    CommandRow(covering.Some?,
               if scopeExcluded || !cd.shouldPublish then NotPublished else Published,
               if scopeExcluded then ScopeExcluded else cd.reason,
               if scopeExcluded then StepScope else cd.step,
               if covering.Some? then Some(covering.value.uniqueId) else None,
               if covering.Some? then Some(covering.value.haType) else None)
  }

  /** `make_equipment_record`, from the outcome of the evaluation. */
  ghost predicate IsRecord(r: Record, o: Outcome, eligible: bool, scopeExcluded: bool) {
    && r.verdict == (if scopeExcluded then NotPublished else VerdictOf(o.entities, o.decision))
    && r.reason == (if scopeExcluded then ScopeExcluded else o.decision.reason)
    && r.step == (if scopeExcluded then StepScope else if eligible then StepForDecision(o.decision) else Step1)
    && IsRows(r.commands, o.commands, o.entities, scopeExcluded)
  }

  /** One row per decided command. */
  ghost predicate IsRows(rows: map<int, CommandRow>, decisions: seq<CommandDecision>, entities: seq<Entity>,
      scopeExcluded: bool)
  {
    && (forall c :: c in rows <==> exists i :: 0 <= i < |decisions| && decisions[i].cmdId == c)
    && (forall i :: 0 <= i < |decisions| ==>
       decisions[i].cmdId in rows && rows[decisions[i].cmdId] == RowOf(entities, decisions[i], scopeExcluded))
  }

  /** `_candidate_pairs`: the primary, then the secondaries zipped with their decisions. */
  method CandidatePairs(ev: Evaluated, ghost o: Outcome) returns (pairs: seq<Entity>)
    requires Shows(ev, o)
    ensures pairs == o.entities
  {
    if ev.mapping == null {
      return [];
    }
    pairs := [Entity(ev.mapping.Value(), ev.equipmentDecision.Value())];
    var secondaries := ev.mapping.additional;
    for i := 0 to if |secondaries| < |ev.secondaryDecisions| then |secondaries| else |ev.secondaryDecisions|
      invariant pairs == o.entities[..i + 1]
    {
      assert ShowsEntity(secondaries[i], ev.secondaryDecisions[i], o.entities[i + 1]);
      pairs := pairs + [Entity(secondaries[i].Value(), ev.secondaryDecisions[i].Value())];
    }
  }

  method VerdictFrom(pairs: seq<Entity>, primary: DecisionValue) returns (v: Verdict)
    ensures v == VerdictOf(pairs, primary)
  {
    if primary.shouldPublish {
      return Published;
    }
    var secondaries := if pairs == [] then [] else pairs[1..];
    for i := 0 to |secondaries|
      invariant forall k :: 0 <= k < i ==> !secondaries[k].decision.shouldPublish
    {
      if secondaries[i].decision.shouldPublish {
        assert pairs[i + 1].decision.shouldPublish;
        return Partial;
      }
    }
    assert forall k :: 1 <= k < |pairs| ==> pairs[k] == secondaries[k - 1];
    v := NotPublished;
  }

  lemma NextRow(rows: map<int, CommandRow>, decisions: seq<CommandDecision>, entities: seq<Entity>, scopeExcluded: bool,
      cd: CommandDecision)
    requires IsRows(rows, decisions, entities, scopeExcluded)
    requires forall k :: 0 <= k < |decisions| ==> decisions[k].cmdId != cd.cmdId
    ensures IsRows(rows[cd.cmdId := RowOf(entities, cd, scopeExcluded)], decisions + [cd], entities, scopeExcluded)
  {
    hide RowOf;
    var all := decisions + [cd];
    assert all[|decisions|] == cd;
    assert forall k :: 0 <= k < |decisions| ==> all[k] == decisions[k];
  }

  method MakeRows(ev: Evaluated, pairs: seq<Entity>, scopeExcluded: bool) returns (rows: map<int, CommandRow>)
    requires forall i, j :: 0 <= i < j < |ev.commandDecisions| ==>
      ev.commandDecisions[i].cmdId != ev.commandDecisions[j].cmdId
    ensures IsRows(rows, ev.commandDecisions, pairs, scopeExcluded)
  {
    hide RowOf, Carriers;
    var decisions := ev.commandDecisions;
    var candidates := CollectCandidates(pairs);
    rows := map[];
    for i := 0 to |decisions|
      invariant IsRows(rows, decisions[..i], pairs, scopeExcluded)
    {
      hide IsRows;
      var cd := decisions[i];
      var row := MakeRow(cd, At(candidates, cd.cmdId), scopeExcluded, pairs);
      NextRow(rows, decisions[..i], pairs, scopeExcluded, cd);
      assert decisions[..i+1] == decisions[..i] + [cd];
      rows := rows[cd.cmdId := row];
    }
    assert decisions[..|decisions|] == decisions;
  }

  method MakeEquipmentRecord(ev: Evaluated, eligible: bool, scopeExcluded: bool, ghost o: Outcome) returns (r: Record)
    requires Shows(ev, o)
    requires forall i, j :: 0 <= i < j < |o.commands| ==> o.commands[i].cmdId != o.commands[j].cmdId
    ensures IsRecord(r, o, eligible, scopeExcluded)
  {
    ShownDecisions(ev, o);
    hide Shows, RowOf, VerdictOf, Carriers;
    var pairs := CandidatePairs(ev, o);
    var primary := ev.equipmentDecision.Value();
    var verdict := VerdictFrom(pairs, primary);
    var commands := MakeRows(ev, pairs, scopeExcluded);
    r := Record(if scopeExcluded then NotPublished else verdict,
                if scopeExcluded then ScopeExcluded else primary.reason,
                if scopeExcluded then StepScope else if eligible then StepForDecision(primary) else Step1,
                commands);
  }

  lemma ShownDecisions(ev: Evaluated, o: Outcome)
    requires Shows(ev, o)
    ensures ev.equipmentDecision.Value() == o.decision && ev.commandDecisions == o.commands
  {
  }

  method MakeRow(cd: CommandDecision, carriers: seq<Entity>, scopeExcluded: bool, ghost entities: seq<Entity>)
    returns (row: CommandRow)
    requires carriers == Carriers(entities, cd.cmdId)
    ensures row == RowOf(entities, cd, scopeExcluded)
  {
    var covering := None;
    if carriers != [] {
      var e := SelectCoveringDecision(carriers);
      covering := Some(e.mapping);
    }
    row := CommandRow(covering.Some?,
                      if scopeExcluded || !cd.shouldPublish then NotPublished else Published,
                      if scopeExcluded then ScopeExcluded else cd.reason,
                      if scopeExcluded then StepScope else cd.step,
                      if covering.Some? then Some(covering.value.uniqueId) else None,
                      if covering.Some? then Some(covering.value.haType) else None);
  }

  // ---------------------------------------------------------------------------------------
  // The record refines the evaluation
  // ---------------------------------------------------------------------------------------

  /** The exported line names an entity of the evaluation, and the decision it carries is that entity's own. */
  ghost predicate NamesItsEntity(row: CommandRow, c: int, entities: seq<Entity>) {
    exists e :: e in entities && c in CmdIds(e.mapping)
      && row.uniqueId == Some(e.mapping.uniqueId) && row.haType == Some(e.mapping.haType)
      && row.reason == e.decision.reason && row.step == StepForDecision(e.decision)
      && (row.verdict == Published <==> e.decision.shouldPublish)
  }

  /** The commands of an evaluation follow its entities. */
  ghost predicate Evaluates(o: Outcome, cmds: seq<int>) {
    && |o.commands| == |KnownIds(cmds)|
    && (forall i :: 0 <= i < |o.commands| ==> o.commands[i].cmdId == KnownIds(cmds)[i])
    && if o.entities == [] then !o.decision.shouldPublish && forall i :: 0 <= i < |o.commands| ==>
       !o.commands[i].shouldPublish
       else
         && o.decision == o.entities[0].decision
         && forall i :: 0 <= i < |o.commands| ==> o.commands[i] == DecideCommand(o.entities, KnownIds(cmds)[i])
  }

  lemma EvaluationEvaluates(cmds: seq<int>, eligibility: Eligibility, raws: seq<MappingValue>, layers: Layers,
      setup: Setup)
    ensures Evaluates(Evaluate(cmds, eligibility, raws, layers, setup), cmds)
  {
  }

  /** A line exists per command of the equipment; a covered one names the entity whose decision it carries. */
  lemma LinesNameTheirEntity(cmds: seq<int>, o: Outcome, eligible: bool, r: Record, c: int)
    requires Evaluates(o, cmds) && IsRecord(r, o, eligible, false)
    ensures c in r.commands <==> c in cmds
    ensures c in r.commands ==>
      && (r.commands[c].covered <==> exists e :: e in o.entities && c in CmdIds(e.mapping))
      && (r.commands[c].covered ==> NamesItsEntity(r.commands[c], c, o.entities))
      && (!r.commands[c].covered ==> r.commands[c].verdict == NotPublished && r.commands[c].uniqueId == None)
  {
    var ids := KnownIds(cmds);
    if c in r.commands {
      var i :| 0 <= i < |o.commands| && o.commands[i].cmdId == c;
      var carriers := Carriers(o.entities, c);
      assert r.commands[c] == RowOf(o.entities, o.commands[i], false);
      if carriers != [] {
        var e := SelectCovering(carriers);
        assert e in o.entities && c in CmdIds(e.mapping);
      }
    }
    if c in cmds {
      var i :| 0 <= i < |ids| && ids[i] == c;
      assert o.commands[i].cmdId == c;
    }
  }

  lemma PublishedLine(cmds: seq<int>, o: Outcome, eligible: bool, r: Record, c: int)
    requires Evaluates(o, cmds) && IsRecord(r, o, eligible, false)
    requires c in r.commands && r.commands[c].verdict == Published
    ensures exists e :: e in o.entities && e.decision.shouldPublish
  {
    LinesNameTheirEntity(cmds, o, eligible, r, c);
  }

  lemma VerdictExactlyWhen(cmds: seq<int>, o: Outcome, eligible: bool, r: Record)
    requires Evaluates(o, cmds) && IsRecord(r, o, eligible, false)
    ensures r.verdict != NotPublished <==> exists e :: e in o.entities && e.decision.shouldPublish
    ensures r.verdict == Published <==> o.decision.shouldPublish
  {
  }

  /** A published line makes the equipment published or partial, and conversely some entity publishes. */
  lemma EquipmentSumsUpItsLines(cmds: seq<int>, o: Outcome, eligible: bool, r: Record)
    requires Evaluates(o, cmds) && IsRecord(r, o, eligible, false)
    ensures forall c :: c in r.commands && r.commands[c].verdict == Published ==> r.verdict != NotPublished
    ensures r.verdict != NotPublished <==> exists e :: e in o.entities && e.decision.shouldPublish
    ensures r.verdict == Published <==> o.decision.shouldPublish
  {
    hide Evaluates, IsRecord, NamesItsEntity;
    VerdictExactlyWhen(cmds, o, eligible, r);
    forall c | c in r.commands && r.commands[c].verdict == Published ensures r.verdict != NotPublished {
      PublishedLine(cmds, o, eligible, r, c);
    }
  }

  /** The verdict, the reason and the step of an equipment whose scope is not excluded. */
  lemma RecordMeaning(o: Outcome, eligible: bool, r: Record)
    requires IsRecord(r, o, eligible, false)
    ensures r.reason == o.decision.reason
    ensures r.step == if eligible then StepForDecision(o.decision) else Step1
    ensures r.verdict == Partial <==>
      !o.decision.shouldPublish && exists i :: 1 <= i < |o.entities| && o.entities[i].decision.shouldPublish
  {
  }

  /** A scope exclusion makes the equipment and every line not published, whatever was decided. */
  lemma ScopeExclusionWins(o: Outcome, eligible: bool, r: Record)
    requires IsRecord(r, o, eligible, true)
    ensures r.verdict == NotPublished && r.reason == ScopeExcluded && r.step == StepScope
    ensures forall c :: c in r.commands ==>
      r.commands[c].verdict == NotPublished && r.commands[c].reason == ScopeExcluded && r.commands[c].step == StepScope
  {
  }
}
