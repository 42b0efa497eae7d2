/**
  Step 4 of the pipeline (`models/decide_publication.py`) and the step a decision is blamed on
  (`_step_for_decision`).  The projection validator and the product scope are parameters.
 */
module Decision {
  import opened Prelude
  import Overrides

  /** Reason codes; `OtherReason` is any code the pipeline has no name for. */
  datatype Reason =
    | NoMapping | AmbiguousSkipped | ExcludedEqLogicReason | ExcludedCommandReason
    | NotInProductScope | ProbableSkipped | PublicationForced
    | SureReason | ProbableReason | SureMappingReason
    | SkippedNoCandidate | CommandNotCovered | ScopeExcluded | NoSupportedGenericType | NoGenericTypeConfigured
    | OtherReason(code: string)

  datatype Confidence = Sure | Probable | SureMapping | Ambiguous | OtherConfidence(name: string)

  datatype Capabilities = Capabilities(flags: set<string>)

  /** `isValid` is None when the step was skipped. */
  datatype Validity = Validity(isValid: Option<bool>, reason: Option<Reason>)

  datatype Policy = SureOnly | SureProbable

  /** The part of `reason_details` the pipeline reads or writes. */
  datatype Details = Details(cmdId: Option<int>, nodeId: Option<string>, overrideSource: Option<Overrides.Value>)

  datatype DecisionDetails = NoDetails | PolicyApplied(underlying: Option<Confidence>) | IneligibleFor(reason: Reason)
    | NotCovered

  datatype MappingValue = MappingValue(
    haType: string, confidence: Confidence, eqId: int, uniqueId: string, commands: seq<int>,
    capabilities: Capabilities, details: Details, validity: Option<Validity>, step: Option<nat>)

  datatype DecisionValue = DecisionValue(shouldPublish: bool, reason: Reason, details: DecisionDetails)

  predicate Publishable(c: Confidence) { c == Sure || c == Probable || c == SureMapping }

  predicate Excludes(o: Option<Overrides.Resolution>) {
    o == Some(Overrides.ExcludeEqLogic) || o == Some(Overrides.ExcludeCommand)
  }

  predicate Valid(m: MappingValue) { m.validity.Some? && m.validity.value.isValid == Some(true) }

  function ConfidenceReason(c: Confidence): Reason {
    match c
    case Sure => SureReason
    case Probable => ProbableReason
    case SureMapping => SureMappingReason
    case Ambiguous => OtherReason("ambiguous")
    case OtherConfidence(name) => OtherReason(name)
  }

  function DecidePublication(m: MappingValue, policy: Policy, scope: set<string>,
      override: Option<Overrides.Resolution>): DecisionValue
  {
    if Excludes(override) then
      DecisionValue(false, if override.value.ExcludeEqLogic? then ExcludedEqLogicReason else ExcludedCommandReason,
        PolicyApplied(None))
    else if !Publishable(m.confidence) && !(override == Some(Overrides.ForcePublish) && m.confidence == Ambiguous) then
      DecisionValue(false, if m.confidence == Ambiguous then AmbiguousSkipped else NoMapping, NoDetails)
    else if !Valid(m) then
      DecisionValue(false,
        if m.validity.Some? && m.validity.value.reason.Some? then m.validity.value.reason.value
        else SkippedNoCandidate, NoDetails)
    else if m.haType !in scope then
      DecisionValue(false, NotInProductScope, NoDetails)
    else if override == Some(Overrides.ForcePublish) then
      DecisionValue(true, PublicationForced, PolicyApplied(Some(m.confidence)))
    else if policy == SureOnly && m.confidence == Probable then
      DecisionValue(false, ProbableSkipped, NoDetails)
    else
      DecisionValue(true, ConfidenceReason(m.confidence), NoDetails)
  }

  /** Exactly what is published, whatever the order in which the cascade looks at it. */
  lemma PublishedExactlyWhen(m: MappingValue, policy: Policy, scope: set<string>,
      override: Option<Overrides.Resolution>)
    ensures DecidePublication(m, policy, scope, override).shouldPublish
       <==> && !Excludes(override) && Valid(m) && m.haType in scope
            && if override.Some? then Publishable(m.confidence) || m.confidence == Ambiguous
               else
                 || m.confidence == Sure || m.confidence == SureMapping
                 || (m.confidence == Probable && policy == SureProbable)
  {
    if override.Some? {
      match override.value
      case ExcludeEqLogic =>
      case ExcludeCommand =>
      case ForcePublish =>
    }
  }

  /** The reason of a publication: the force when there is one, else the confidence. */
  lemma PublishedReason(m: MappingValue, policy: Policy, scope: set<string>, override: Option<Overrides.Resolution>)
    requires DecidePublication(m, policy, scope, override).shouldPublish
    ensures var d := DecidePublication(m, policy, scope, override);
      && (override.Some? ==> d.reason == PublicationForced && d.details == PolicyApplied(Some(m.confidence)))
      && (override.None? ==> d.details == NoDetails)
      && (override.None? && m.confidence == Sure ==> d.reason == SureReason)
      && (override.None? && m.confidence == Probable ==> d.reason == ProbableReason)
      && (override.None? && m.confidence == SureMapping ==> d.reason == SureMappingReason)
      && (override.None? ==> m.confidence != Ambiguous && !m.confidence.OtherConfidence?)
  {
  }

  /** The reason of a refusal is that of the first gate that is closed, each with its own code. */
  lemma RefusalReason(m: MappingValue, policy: Policy, scope: set<string>, override: Option<Overrides.Resolution>)
    requires !DecidePublication(m, policy, scope, override).shouldPublish
    ensures var d := DecidePublication(m, policy, scope, override);
      var unsure := (m.confidence == Ambiguous && override.None?) || m.confidence.OtherConfidence?;
      var invalid := !(m.validity.Some? && m.validity.value.isValid == Some(true));
      && (override == Some(Overrides.ExcludeEqLogic) ==>
         d.reason == ExcludedEqLogicReason && d.details == PolicyApplied(None))
      && (override == Some(Overrides.ExcludeCommand) ==>
         d.reason == ExcludedCommandReason && d.details == PolicyApplied(None))
      && (!Excludes(override) ==> d.details == NoDetails)
      && (!Excludes(override) && unsure ==>
         d.reason == if m.confidence == Ambiguous then AmbiguousSkipped else NoMapping)
      && (!Excludes(override) && !unsure && invalid ==>
         d.reason == if m.validity.Some? && m.validity.value.reason.Some? then m.validity.value.reason.value
           else SkippedNoCandidate)
      && (!Excludes(override) && !unsure && !invalid && m.haType !in scope ==> d.reason == NotInProductScope)
      && (!Excludes(override) && !unsure && !invalid && m.haType in scope ==>
         d.reason == ProbableSkipped && m.confidence == Probable && policy == SureOnly && override.None?)
  {
    assert override.Some? ==>
      override.value.ExcludeEqLogic? || override.value.ExcludeCommand? || override.value.ForcePublish?;
  }

  // ---------------------------------------------------------------------------------------
  // The step a decision is blamed on
  // ---------------------------------------------------------------------------------------

  datatype Step = Step1 | Step2 | Step2b | Step3 | Step4 | StepScope

  predicate Step2Reason(r: Reason) { r == NoMapping || r == AmbiguousSkipped }

  predicate Step2bReason(r: Reason) { r == ExcludedEqLogicReason || r == ExcludedCommandReason }

  predicate Step4Reason(r: Reason) {
    r == NotInProductScope || r == ProbableSkipped || r == PublicationForced || r == SureReason || r == ProbableReason
      || r == SureMappingReason
  }

  function StepForDecision(d: DecisionValue): Step {
    if Step2Reason(d.reason) then Step2
    else if Step2bReason(d.reason) then Step2b
    else if Step4Reason(d.reason) then Step4
    else Step3
  }

  /** The first gate that stops the mapping, the veto being looked at before the confidence. */
  function FirstFailure(m: MappingValue, override: Option<Overrides.Resolution>): Step {
    if Excludes(override) then Step2b
    else if !Publishable(m.confidence) && !(override == Some(Overrides.ForcePublish) && m.confidence == Ambiguous) then
      Step2
    else if !Valid(m) then Step3
    else Step4
  }

  /** The step read back from the reason names the first failure, unless the validator reuses a reserved code. */
  lemma StepNamesFirstFailure(m: MappingValue, policy: Policy, scope: set<string>,
      override: Option<Overrides.Resolution>)
    ensures StepForDecision(DecidePublication(m, policy, scope, override)) == FirstFailure(m, override)
       <==> !(FirstFailure(m, override) == Step3 && m.validity.Some? && m.validity.value.reason.Some?
              && var r := m.validity.value.reason.value; Step2Reason(r) || Step2bReason(r) || Step4Reason(r))
  {
  }

  /** The shipped validator answers codes of its own: with such codes the step is always that of the first failure. */
  lemma ShippedStepIsFirstFailure(m: MappingValue, policy: Policy, scope: set<string>,
      override: Option<Overrides.Resolution>)
    requires m.validity.Some? && m.validity.value.reason.Some? ==> m.validity.value.reason.value.OtherReason?
    ensures StepForDecision(DecidePublication(m, policy, scope, override)) == FirstFailure(m, override)
  {
    StepNamesFirstFailure(m, policy, scope, override);
  }

  /**
    A validator that answers a reserved code is blamed on another step: here an invalid projection reads as a missing
    mapping.
  */
  const MISBLAMED := MappingValue("light", Sure, 1, "", [], Capabilities({}), Details(None, None, None),
                                  Some(Validity(Some(false), Some(NoMapping))), None)

  lemma ReservedCodeMisleads(policy: Policy, scope: set<string>)
    ensures FirstFailure(MISBLAMED, None) == Step3
    ensures StepForDecision(DecidePublication(MISBLAMED, policy, scope, None)) == Step2
  {
  }
}
