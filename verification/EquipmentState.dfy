/**
  The state of one equipment, read from its tree of commands (`jeedom2ha_mapping_override.js`).
  The texts of the causes are a parameter.
 */
module EquipmentState {
  import opened Prelude
  import opened Text

  datatype Diagnostic = Diagnostic(reasonCode: Option<string>, isValid: bool, validityReason: Option<string>,
                                   missingCapabilities: seq<string>, missingFields: seq<string>,
                                   shouldPublish: bool, publicationReason: Option<string>)

  datatype Row = Row(id: int, publishedInHa: Option<bool>, covered: Option<bool>, diagnostic: Option<Diagnostic>)

  datatype Sync = Sync(syncedShouldPublish: Option<bool>, currentShouldPublish: Option<bool>, overridePending: bool,
                       publishedInHa: Option<bool>)

  /** `pendingEntities` holds the `override_pending` flag of each entity. */
  datatype Tree = Tree(commands: seq<Row>, decision: Option<Diagnostic>, pendingEntities: seq<bool>, sync: Sync)

  datatype Category = PublishedRow | ToApplyRow | BlockedRow | IgnoredRow | ExcludedRow | DisabledRow | UnknownRow

  datatype State = Published | ToApply | Blocked | Excluded | Disabled | NothingToPublish

  /** The text of a cause code, when it has one. */
  type Labels = string -> Option<string>

  const EXCLUDED_REASONS :=
    ["excluded_eqlogic", "excluded_plugin", "excluded_object", "publication_excluded_eqlogic",
    "publication_excluded_command"]
  const IGNORED_CAUSES := ["command_not_covered", "no_supported_generic_type", "ha_component_not_in_product_scope"]
  const PRECISE_AMBIGUITIES := ["name_heuristic_rejection", "duplicate_generic_types", "switch_state_orphan"]
  const DISABLED_REASON := "disabled_eqlogic"
  const NOT_COVERED := "command_not_covered"
  const AMBIGUOUS := "ambiguous_skipped"
  const NO_CAUSE := "cause non précisée"
  const MISSING := " manquant"

  // ---------------------------------------------------------------------------------------
  // Category and cause of a command
  // ---------------------------------------------------------------------------------------

  predicate IsReady(view: Option<Diagnostic>) { view.Some? && view.value.isValid && view.value.shouldPublish }

  predicate IsExcluded(view: Option<Diagnostic>) {
    view.Some? && view.value.publicationReason.Some? && view.value.publicationReason.value in EXCLUDED_REASONS
  }

  predicate IsDisabled(view: Option<Diagnostic>) { view.Some? && view.value.publicationReason == Some(DISABLED_REASON) }

  predicate Known(labels: Labels, code: Option<string>) {
    code.Some? && code.value != "" && labels(code.value).Some? && labels(code.value).value != ""
  }

  function Candidates(d: Diagnostic): seq<Option<string>> {
    if d.publicationReason == Some(AMBIGUOUS) && d.reasonCode.Some? && d.reasonCode.value in PRECISE_AMBIGUITIES
    then [d.reasonCode, d.publicationReason, d.validityReason]
    else [d.publicationReason, d.reasonCode, d.validityReason]
  }

  function FirstKnown(cs: seq<Option<string>>, labels: Labels): Option<string> {
    if cs == [] then None else if Known(labels, cs[0]) then cs[0] else FirstKnown(cs[1..], labels)
  }

  function FirstGiven(cs: seq<Option<string>>): Option<string> {
    if cs == [] then None else if cs[0].Some? && cs[0].value != "" then cs[0] else FirstGiven(cs[1..])
  }

  /** `resolveCauseCode`. */
  function CauseCode(view: Option<Diagnostic>, labels: Labels): Option<string> {
    if view.None? then None
    else
      var cs := Candidates(view.value);
      if FirstKnown(cs, labels).Some? then FirstKnown(cs, labels) else FirstGiven(cs)
  }

  /** `collectRefusalReasons` of a view that is not ready. */
  function RefusalReasons(d: Diagnostic): seq<string> {
    var first := if !d.isValid && d.validityReason.GetOr("") != "" then [d.validityReason.GetOr("")] else [];
    var second := d.publicationReason.GetOr("");
    if !d.shouldPublish && second != "" && second !in first then first + [second] else first
  }

  /** `buildBlockingReason` of a view that is not ready. */
  function BlockingReason(d: Diagnostic, labels: Labels): string {
    var known := FirstKnown(Candidates(d), labels);
    if Known(labels, known) then labels(known.value).value
    else if d.missingFields != [] then Join(d.missingFields, ", ") + MISSING
    else if d.missingCapabilities != [] then Join(d.missingCapabilities, ", ") + MISSING
    else Join(RefusalReasons(d), ", ")
  }

  /** `classifyCommandCategory`. */
  function Classify(r: Row, labels: Labels): Category {
    var view := r.diagnostic;
    if r.publishedInHa == Some(true) then PublishedRow
    else if IsExcluded(view) then ExcludedRow
    else if IsDisabled(view) then DisabledRow
    else if r.covered == Some(false) && (view.None? || view.value.publicationReason == Some(NOT_COVERED)) then
      IgnoredRow
    else if view.None? then UnknownRow
    else if IsReady(view) then ToApplyRow
    else
      var code := CauseCode(view, labels);
      if code.Some? && code.value in IGNORED_CAUSES then IgnoredRow else BlockedRow
  }

  // ---------------------------------------------------------------------------------------
  // What a category and a cause mean, in the fields of the row
  // ---------------------------------------------------------------------------------------

  predicate HasPublicationReason(r: Row, codes: set<string>) {
    r.diagnostic.Some? && r.diagnostic.value.publicationReason.Some?
      && r.diagnostic.value.publicationReason.value in codes
  }

  predicate Present(r: Row) { r.publishedInHa == Some(true) }

  /** An exclusion or a disabled equipment: a state, and no cause. */
  predicate Off(r: Row) {
    HasPublicationReason(r, {"excluded_eqlogic", "excluded_plugin", "excluded_object", "publication_excluded_eqlogic",
      "publication_excluded_command", "disabled_eqlogic"})
  }

  /** Shown as not covered: no diagnostic, or one that says so. */
  predicate Uncovered(r: Row) {
    r.covered == Some(false) && (r.diagnostic.None? || HasPublicationReason(r, {"command_not_covered"}))
  }

  /** The projection is valid and the publication decided. */
  predicate Ready(r: Row) { r.diagnostic.Some? && r.diagnostic.value.isValid && r.diagnostic.value.shouldPublish }

  /** The cause says that nothing can be done. */
  predicate HasIgnoredCause(r: Row, labels: Labels) {
    && CauseCode(r.diagnostic, labels).Some?
    && CauseCode(r.diagnostic, labels).value
       in {"command_not_covered", "no_supported_generic_type", "ha_component_not_in_product_scope"}
  }

  /** Each category in the fields of the row. */
  lemma CategoryMeaning(r: Row, labels: Labels)
    ensures var c := Classify(r, labels);
      && (c == PublishedRow <==> Present(r))
      && (c == DisabledRow <==> !Present(r) && HasPublicationReason(r, {"disabled_eqlogic"}))
      && (c == ExcludedRow <==> !Present(r) && Off(r) && !HasPublicationReason(r, {"disabled_eqlogic"}))
      && (c == ToApplyRow <==> !Present(r) && !Off(r) && !Uncovered(r) && Ready(r))
      && (c == IgnoredRow <==>
         && !Present(r) && !Off(r)
         && (Uncovered(r) || (r.diagnostic.Some? && !Ready(r) && HasIgnoredCause(r, labels))))
      && (c == BlockedRow <==>
         && !Present(r) && !Off(r) && !Uncovered(r)
         && r.diagnostic.Some? && !Ready(r) && !HasIgnoredCause(r, labels))
      && (c == UnknownRow <==> !Present(r) && r.diagnostic.None? && r.covered != Some(false))
  {
    hide CauseCode;
    ReasonsAreDistinct();
  }

  lemma ReasonsAreDistinct()
    ensures "disabled_eqlogic" !in EXCLUDED_REASONS && "command_not_covered" !in EXCLUDED_REASONS
    ensures "disabled_eqlogic" != "command_not_covered"
  {
  }

  /** The first of the codes that is given and meets `p`. */
  ghost predicate IsFirstCode(code: Option<string>, cs: seq<Option<string>>, p: string -> bool) {
    && (code.None? <==> forall i :: 0 <= i < |cs| && cs[i].Some? && cs[i].value != "" ==> !p(cs[i].value))
    && (code.Some? ==> exists i :: IsFirstCodeAt(code.value, cs, p, i))
  }

  predicate IsFirstCodeAt(code: string, cs: seq<Option<string>>, p: string -> bool, i: int) {
    && 0 <= i < |cs| && cs[i] == Some(code) && code != "" && p(code)
    && forall k :: 0 <= k < i && cs[k].Some? && cs[k].value != "" ==> !p(cs[k].value)
  }

  predicate HasLabel(labels: Labels, code: string) { labels(code).Some? && labels(code).value != "" }

  /** The codes of a diagnostic, the decision's before the mapping's but for a precise ambiguity. */
  ghost predicate IsCauseOrder(cs: seq<Option<string>>, d: Diagnostic) {
    var precise := d.publicationReason == Some("ambiguous_skipped") && d.reasonCode.Some?
      && d.reasonCode.value in {"name_heuristic_rejection", "duplicate_generic_types", "switch_state_orphan"};
    && |cs| == 3 && cs[2] == d.validityReason
    && cs[if precise then 0 else 1] == d.reasonCode && cs[if precise then 1 else 0] == d.publicationReason
  }

  lemma {:induction false} FirstKnownMeaning(cs: seq<Option<string>>, labels: Labels)
    ensures IsFirstCode(FirstKnown(cs, labels), cs, (code: string) => HasLabel(labels, code))
  {
    if cs != [] {
      var rest := cs[1..];
      FirstKnownMeaning(rest, labels);
      assert forall i :: 0 <= i < |rest| ==> rest[i] == cs[i + 1];
      if !Known(labels, cs[0]) && FirstKnown(cs, labels).Some? {
        var code := FirstKnown(cs, labels).value;
        var i :| IsFirstCodeAt(code, rest, (code: string) => HasLabel(labels, code), i);
        assert forall k :: 0 <= k < i + 1 ==> cs[k] == if k == 0 then cs[0] else rest[k - 1];
        assert IsFirstCodeAt(code, cs, (code: string) => HasLabel(labels, code), i + 1);
      } else if Known(labels, cs[0]) {
        assert IsFirstCodeAt(cs[0].value, cs, (code: string) => HasLabel(labels, code), 0);
      }
    }
  }

  lemma {:induction false} FirstGivenMeaning(cs: seq<Option<string>>)
    ensures IsFirstCode(FirstGiven(cs), cs, (code: string) => true)
  {
    if cs != [] {
      var rest := cs[1..];
      FirstGivenMeaning(rest);
      assert forall i :: 0 <= i < |rest| ==> rest[i] == cs[i + 1];
      if !(cs[0].Some? && cs[0].value != "") && FirstGiven(cs).Some? {
        var code := FirstGiven(cs).value;
        var i :| IsFirstCodeAt(code, rest, (code: string) => true, i);
        assert forall k :: 0 <= k < i + 1 ==> cs[k] == if k == 0 then cs[0] else rest[k - 1];
        assert IsFirstCodeAt(code, cs, (code: string) => true, i + 1);
      } else if cs[0].Some? && cs[0].value != "" {
        assert IsFirstCodeAt(cs[0].value, cs, (code: string) => true, 0);
      }
    }
  }

  /** The first code that has a text, else the first code. */
  ghost predicate IsCauseOf(code: Option<string>, cs: seq<Option<string>>, labels: Labels) {
    var labelled := (code: string) => HasLabel(labels, code);
    var some := exists i :: 0 <= i < |cs| && cs[i].Some? && cs[i].value != "" && labelled(cs[i].value);
    IsFirstCode(code, cs, if some then labelled else (code: string) => true)
  }

  lemma CauseMeaning(d: Diagnostic, labels: Labels)
    ensures CauseCode(None, labels) == None
    ensures exists cs :: IsCauseOrder(cs, d) && IsCauseOf(CauseCode(Some(d), labels), cs, labels)
  {
    hide FirstKnown, FirstGiven;
    var cs := Candidates(d);
    assert IsCauseOrder(cs, d);
    FirstKnownMeaning(cs, labels);
    FirstGivenMeaning(cs);
    assert IsCauseOf(CauseCode(Some(d), labels), cs, labels);
  }

  /** Codes that speak against the publication: the projection's when it is invalid, the decision's when it refuses. */
  lemma RefusalMeaning(d: Diagnostic)
    ensures var codes := RefusalReasons(d);
      && (forall code :: code in codes <==>
         && code != ""
         && ((!d.isValid && d.validityReason == Some(code)) || (!d.shouldPublish && d.publicationReason == Some(code))))
      && Distinct(codes) && |codes| <= 2 && (|codes| == 2 ==> d.validityReason == Some(codes[0]))
  {
  }

  /** The text of a blocked command: its cause's when it has one, else what is missing, else the codes themselves. */
  lemma BlockingReasonMeaning(d: Diagnostic, labels: Labels)
    ensures var code, text := CauseCode(Some(d), labels), BlockingReason(d, labels);
      if code.Some? && HasLabel(labels, code.value) then Some(text) == labels(code.value)
      else if d.missingFields != [] then text == Join(d.missingFields, ", ") + " manquant"
      else if d.missingCapabilities != [] then text == Join(d.missingCapabilities, ", ") + " manquant"
      else text == Join(RefusalReasons(d), ", ")
  {
    hide Candidates, RefusalReasons, Join;
    var cs := Candidates(d);
    FirstKnownMeaning(cs, labels);
    FirstGivenMeaning(cs);
    var code := FirstGiven(cs);
    if FirstKnown(cs, labels).None? && code.Some? {
      var i :| IsFirstCodeAt(code.value, cs, (code: string) => true, i);
      assert !HasLabel(labels, cs[i].value);
    }
  }

  // ---------------------------------------------------------------------------------------
  // State of the equipment
  // ---------------------------------------------------------------------------------------

  predicate HasRow(t: Tree, labels: Labels, c: Category) {
    exists i :: 0 <= i < |t.commands| && Classify(t.commands[i], labels) == c
  }

  predicate HasReady(t: Tree) { exists i :: 0 <= i < |t.commands| && IsReady(t.commands[i].diagnostic) }

  /** There are commands, and each is excluded or disabled. */
  predicate AllOff(t: Tree, labels: Labels) {
    && t.commands != []
    && forall i :: 0 <= i < |t.commands| ==>
       Classify(t.commands[i], labels) == ExcludedRow || Classify(t.commands[i], labels) == DisabledRow
  }

  predicate TreeDisabled(t: Tree, labels: Labels) {
    IsDisabled(t.decision) || (AllOff(t, labels) && HasRow(t, labels, DisabledRow))
  }

  predicate TreeExcluded(t: Tree, labels: Labels) {
    IsExcluded(t.decision) || (AllOff(t, labels) && HasRow(t, labels, ExcludedRow))
  }

  /** A setting waits to be applied; before the first synchronisation the flag means nothing. */
  predicate Pending(t: Tree) {
    t.sync.syncedShouldPublish.Some? && (t.sync.overridePending || true in t.pendingEntities)
  }

  /** The one state of an equipment; `enabled` is known to be false only when it is `Some(false)`. */
  function StateOf(t: Tree, enabled: Option<bool>, labels: Labels): State {
    if Pending(t) then ToApply
    else if t.sync.publishedInHa == Some(true) then Published
    else if TreeDisabled(t, labels) || enabled == Some(false) then Disabled
    else if TreeExcluded(t, labels) then Excluded
    else if HasReady(t) && ((t.sync.publishedInHa == Some(false) && t.sync.currentShouldPublish == Some(true))
                            || (t.sync.publishedInHa == None && t.sync.currentShouldPublish != Some(false))) then
                               ToApply
    else if HasRow(t, labels, BlockedRow) then Blocked
    else NothingToPublish
  }

  predicate Waits(t: Tree) {
    && t.sync.syncedShouldPublish.Some?
    && (t.sync.overridePending || exists i :: 0 <= i < |t.pendingEntities| && t.pendingEntities[i])
  }

  /** Every command is off, and there is one. */
  predicate IsOff(t: Tree) {
    t.commands != [] && forall i :: 0 <= i < |t.commands| ==> !Present(t.commands[i]) && Off(t.commands[i])
  }

  predicate IsDisabledTree(t: Tree) {
    || (t.decision.Some? && t.decision.value.publicationReason == Some("disabled_eqlogic"))
    || (IsOff(t) && exists i :: 0 <= i < |t.commands| && HasPublicationReason(t.commands[i], {"disabled_eqlogic"}))
  }

  predicate IsExcludedTree(t: Tree) {
    || (t.decision.Some? && t.decision.value.publicationReason.Some?
        && t.decision.value.publicationReason.value in {"excluded_eqlogic", "excluded_plugin", "excluded_object",
             "publication_excluded_eqlogic", "publication_excluded_command"})
    || (IsOff(t) && exists i :: 0 <= i < |t.commands| && !HasPublicationReason(t.commands[i], {"disabled_eqlogic"}))
  }

  /** A command is ready, and what is known of the equipment does not speak against it. */
  predicate IsToApply(t: Tree) {
    && (exists i :: 0 <= i < |t.commands| && Ready(t.commands[i]))
    && if t.sync.publishedInHa == Some(false) then t.sync.currentShouldPublish == Some(true)
       else t.sync.currentShouldPublish != Some(false)
  }

  predicate HasBlocked(t: Tree, labels: Labels) {
    exists i :: 0 <= i < |t.commands| && var r := t.commands[i];
      && !Present(r) && !Off(r) && !Uncovered(r) && r.diagnostic.Some? && !Ready(r) && !HasIgnoredCause(r, labels)
  }

  /**
    Each state in the fields of the tree: a setting that waits comes before the presence, which comes before the rest.
  */
  lemma StateMeaning(t: Tree, enabled: Option<bool>, labels: Labels)
    ensures var s, present := StateOf(t, enabled, labels), t.sync.publishedInHa == Some(true);
      var disabled := IsDisabledTree(t) || enabled == Some(false);
      && (s == Published <==> !Waits(t) && present)
      && (s == Disabled <==> !Waits(t) && !present && disabled)
      && (s == Excluded <==> !Waits(t) && !present && !disabled && IsExcludedTree(t))
      && (s == ToApply <==> Waits(t) || (!present && !disabled && !IsExcludedTree(t) && IsToApply(t)))
      && (s == Blocked <==>
         !Waits(t) && !present && !disabled && !IsExcludedTree(t) && !IsToApply(t) && HasBlocked(t, labels))
      && (s == NothingToPublish <==>
         !Waits(t) && !present && !disabled && !IsExcludedTree(t) && !IsToApply(t) && !HasBlocked(t, labels))
  {
    ReasonsAreDistinct();
    TreeFlagsMeaning(t, labels);
    hide TreeDisabled, TreeExcluded, HasRow, HasReady, IsDisabledTree, IsExcludedTree, HasBlocked, Ready;
    var presence := t.sync.publishedInHa;
    assert presence.None? || presence == Some(true) || presence == Some(false) by {
      assert presence.Some? ==> presence.value == true || presence.value == false;
    }
    assert Waits(t) == Pending(t);
  }

  lemma TreeFlagsMeaning(t: Tree, labels: Labels)
    ensures TreeDisabled(t, labels) <==> IsDisabledTree(t)
    ensures TreeExcluded(t, labels) <==> IsExcludedTree(t)
    ensures HasReady(t) <==> exists i :: 0 <= i < |t.commands| && Ready(t.commands[i])
    ensures HasRow(t, labels, BlockedRow) <==> HasBlocked(t, labels)
  {
    forall i | 0 <= i < |t.commands| {
      CategoryMeaning(t.commands[i], labels);
    }
    hide Classify, CauseCode;
  }

  /** The flag decides exactly for a tree that is neither waiting, nor present, nor disabled by itself. */
  lemma EnabledDecidesWhen(t: Tree, labels: Labels, enabled: Option<bool>)
    requires enabled != Some(false)
    ensures StateOf(t, enabled, labels) != StateOf(t, Some(false), labels)
            <==> !Pending(t) && t.sync.publishedInHa != Some(true) && !TreeDisabled(t, labels)
  {
  }

  /** A present entity is never reported as disabled, excluded or blocked. */
  lemma PresentIsShown(t: Tree, labels: Labels, enabled: Option<bool>)
    requires t.sync.publishedInHa == Some(true)
    ensures StateOf(t, enabled, labels) == Published || (StateOf(t, enabled, labels) == ToApply && Pending(t))
  {
  }

  datatype Analysis = Analysis(counts: map<Category, nat>, ready: nat, presenceUnknown: nat, firstBlocked: Option<int>,
                               disabled: bool, excluded: bool)

  function FirstBlocked(rows: seq<Row>, labels: Labels): Option<int> {
    if rows == [] then None
    else
      var before := FirstBlocked(rows[..|rows|-1], labels);
      if before.Some? then before else if Classify(rows[|rows|-1], labels) == BlockedRow then Some(rows[|rows|-1].id)
      else None
  }

  /** How many commands are of the category. */
  function Tally(rows: seq<Row>, labels: Labels, c: Category): nat { Count(rows, (r: Row) => Classify(r, labels) == c) }

  /** `analyzeEquipment`. */
  method Analyze(t: Tree, labels: Labels) returns (a: Analysis)
    ensures forall c :: c in a.counts && a.counts[c] == Tally(t.commands, labels, c)
    ensures a.ready > 0 <==> HasReady(t)
    ensures a.presenceUnknown == Count(t.commands, (r: Row) => r.publishedInHa.None?)
    ensures a.firstBlocked == FirstBlocked(t.commands, labels)
    ensures a.disabled == TreeDisabled(t, labels) && a.excluded == TreeExcluded(t, labels)
  {
    hide Classify, Count, Tally, IsReady, IsDisabled, IsExcluded, AllOff, HasRow, FirstBlocked;
    var counts: map<Category, nat> :=
      map[PublishedRow := 0, ToApplyRow := 0, BlockedRow := 0, IgnoredRow := 0, ExcludedRow := 0, DisabledRow := 0,
      UnknownRow := 0];
    var ready, presenceUnknown := 0, 0;
    var firstBlocked: Option<int> := None;
    ghost var isReady, unknown := (r: Row) => IsReady(r.diagnostic), (r: Row) => r.publishedInHa.None?;
    assert t.commands[..0] == [];
    CountsOfNothing(labels);
    forall c: Category ensures c in counts && counts[c] == 0 {
      match c
      case PublishedRow => case ToApplyRow => case BlockedRow => case IgnoredRow =>
      case ExcludedRow => case DisabledRow => case UnknownRow =>
    }
    CountAll([], isReady);
    CountAll([], unknown);
    for i := 0 to |t.commands|
      invariant forall c :: c in counts && counts[c] == Tally(t.commands[..i], labels, c)
      invariant ready == Count(t.commands[..i], isReady)
      invariant presenceUnknown == Count(t.commands[..i], unknown)
      invariant firstBlocked == FirstBlocked(t.commands[..i], labels)
    {
      var row := t.commands[i];
      var category := Classify(row, labels);
      assert t.commands[..i+1] == t.commands[..i] + [row];
      FirstBlockedStep(t.commands[..i], row, labels);
      CountsStep(t.commands[..i], row, labels);
      CountAppend(t.commands[..i], row, isReady);
      CountAppend(t.commands[..i], row, unknown);
      counts := counts[category := counts[category] + 1];
      if IsReady(row.diagnostic) {
        ready := ready + 1;
      }
      if row.publishedInHa.None? {
        presenceUnknown := presenceUnknown + 1;
      }
      if category == BlockedRow && firstBlocked.None? {
        firstBlocked := Some(row.id);
      }
    }
    assert t.commands[..|t.commands|] == t.commands;
    CountAll(t.commands, isReady);
    OffByCounting(t, labels);
    var allOff := t.commands != [] && counts[ExcludedRow] + counts[DisabledRow] == |t.commands|;
    var disabled := IsDisabled(t.decision) || (allOff && counts[DisabledRow] > 0);
    var excluded := IsExcluded(t.decision) || (allOff && counts[ExcludedRow] > 0);
    a := Analysis(counts, ready, presenceUnknown, firstBlocked, disabled, excluded);
  }

  lemma FirstBlockedStep(rows: seq<Row>, row: Row, labels: Labels)
    ensures FirstBlocked(rows + [row], labels)
         == if FirstBlocked(rows, labels).Some? then FirstBlocked(rows, labels)
           else if Classify(row, labels) == BlockedRow then Some(row.id) else None
  {
  }

  lemma CountsOfNothing(labels: Labels)
    ensures (forall c :: Tally([], labels, c) == 0) && FirstBlocked([], labels) == None
  {
  }

  lemma CountsStep(rows: seq<Row>, row: Row, labels: Labels)
    ensures forall c :: Tally(rows + [row], labels, c) == Tally(rows, labels, c) + if Classify(row, labels) == c then 1
      else 0
  {
  }

  /** The two counters tell what the commands say. */
  lemma OffByCounting(t: Tree, labels: Labels)
    ensures AllOff(t, labels) <==>
      t.commands != [] && Tally(t.commands, labels, ExcludedRow) + Tally(t.commands, labels, DisabledRow)
      == |t.commands|
    ensures forall c :: HasRow(t, labels, c) <==> Tally(t.commands, labels, c) > 0
  {
    hide Classify, Count;
    var off := (r: Row) => Classify(r, labels) == ExcludedRow || Classify(r, labels) == DisabledRow;
    CountSplit(t.commands, (r: Row) => Classify(r, labels) == ExcludedRow,
      (r: Row) => Classify(r, labels) == DisabledRow, off);
    CountAll(t.commands, off);
    forall c ensures HasRow(t, labels, c) <==> Tally(t.commands, labels, c) > 0 {
      CountAll(t.commands, (r: Row) => Classify(r, labels) == c);
    }
  }

  /** Every command is in one category. */
  lemma CategoriesPartition(t: Tree, labels: Labels)
    ensures var n := (c: Category) => Tally(t.commands, labels, c);
      n(PublishedRow) + n(ToApplyRow) + n(BlockedRow) + n(IgnoredRow) + n(ExcludedRow) + n(DisabledRow) + n(UnknownRow)
      == |t.commands|
  {
    PartitionOf(t.commands, labels);
  }

  lemma {:induction false} PartitionOf(rows: seq<Row>, labels: Labels)
    ensures var n := (c: Category) => Tally(rows, labels, c);
      n(PublishedRow) + n(ToApplyRow) + n(BlockedRow) + n(IgnoredRow) + n(ExcludedRow) + n(DisabledRow) + n(UnknownRow)
        == |rows|
  {
    hide Classify, Count;
    if rows == [] {
      CountsOfNothing(labels);
    } else {
      PartitionOf(rows[..|rows|-1], labels);
      assert rows == rows[..|rows|-1] + [rows[|rows|-1]];
      CountsStep(rows[..|rows|-1], rows[|rows|-1], labels);
    }
  }

  datatype Resolved = Resolved(state: State, blockedMention: nat)

  /** `resolveEquipmentState`: the counters decide as the commands do. */
  method ResolveState(t: Tree, enabled: Option<bool>, labels: Labels) returns (r: Resolved)
    ensures r.state == StateOf(t, enabled, labels)
    ensures r.blockedMention == if r.state == Published || r.state == ToApply then Tally(t.commands, labels, BlockedRow)
      else 0
  {
    hide TreeDisabled, TreeExcluded, HasReady, HasRow, Tally;
    var a := Analyze(t, labels);
    OffByCounting(t, labels);
    var presence := t.sync.publishedInHa;
    var neverSynced := t.sync.syncedShouldPublish.None?;
    var pending := !neverSynced && (t.sync.overridePending || true in t.pendingEntities);
    var state: State;
    if pending {
      state := ToApply;
    } else if presence == Some(true) {
      state := Published;
    } else if a.disabled || enabled == Some(false) {
      state := Disabled;
    } else if a.excluded {
      state := Excluded;
    } else if presence == Some(false) && a.ready > 0 && t.sync.currentShouldPublish == Some(true) {
      state := ToApply;
    } else if presence == None && a.ready > 0 && t.sync.currentShouldPublish != Some(false) {
      state := ToApply;
    } else if a.counts[BlockedRow] > 0 {
      state := Blocked;
    } else {
      state := NothingToPublish;
    }
    r := Resolved(state, if state == Published || state == ToApply then a.counts[BlockedRow] else 0);
  }

  // ---------------------------------------------------------------------------------------
  // Causes of the blocked commands
  // ---------------------------------------------------------------------------------------

  datatype CauseGroup = CauseGroup(code: Option<string>, text: string, count: nat, ids: seq<int>)

  /** The text a blocked command is grouped under. */
  function CauseText(r: Row, labels: Labels): string {
    var reason := if r.diagnostic.Some? then BlockingReason(r.diagnostic.value, labels) else "";
    if reason != "" then reason else CauseCode(r.diagnostic, labels).GetOr(NO_CAUSE)
  }

  /** The text is the reason of the block, else the code of the cause, else says that there is none. */
  lemma CauseTextMeaning(r: Row, labels: Labels)
    ensures var d := r.diagnostic;
      && (d.Some? && BlockingReason(d.value, labels) != "" ==> CauseText(r, labels) == BlockingReason(d.value, labels))
      && (d.Some? && BlockingReason(d.value, labels) == "" && CauseCode(d, labels).Some? ==>
         Some(CauseText(r, labels)) == CauseCode(d, labels))
      && (d.Some? && BlockingReason(d.value, labels) == "" && CauseCode(d, labels).None? ==>
         CauseText(r, labels) == "cause non précisée")
      && (d.None? ==> CauseText(r, labels) == "cause non précisée")
  {
  }

  /** Ids of the blocked commands of one cause, in order. */
  function BlockedIds(rows: seq<Row>, labels: Labels, text: string): seq<int> {
    if rows == [] then []
    else
      var last := rows[|rows|-1];
      BlockedIds(rows[..|rows|-1], labels, text) + if Classify(last, labels) == BlockedRow
        && CauseText(last, labels) == text then [last.id] else []
  }

  /** Code of the first blocked command of the cause. */
  function FirstCode(rows: seq<Row>, labels: Labels, text: string): Option<Option<string>> {
    if rows == [] then None
    else
      var last := rows[|rows|-1];
      var before := FirstCode(rows[..|rows|-1], labels, text);
      if before.Some? then before
      else if Classify(last, labels) == BlockedRow && CauseText(last, labels) == text then
        Some(CauseCode(last.diagnostic, labels))
      else None
  }

  ghost predicate HasText(groups: seq<CauseGroup>, text: string) {
    exists i :: 0 <= i < |groups| && groups[i].text == text
  }

  /** The group holds the blocked commands of its cause, with the code of the first. */
  predicate IsGroup(g: CauseGroup, rows: seq<Row>, labels: Labels) {
    && g.count == |g.ids| > 0 && g.ids == BlockedIds(rows, labels, g.text)
    && FirstCode(rows, labels, g.text) == Some(g.code)
  }

  predicate DistinctTexts(groups: seq<CauseGroup>) {
    forall i, j :: 0 <= i < j < |groups| ==> groups[i].text != groups[j].text
  }

  /** Every cause of a blocked command has its group. */
  ghost predicate AllListed(groups: seq<CauseGroup>, rows: seq<Row>, labels: Labels) {
    && (forall text :: BlockedIds(rows, labels, text) == [] ==> FirstCode(rows, labels, text) == None)
    && (forall text :: BlockedIds(rows, labels, text) != [] ==> HasText(groups, text))
  }

  /** One group per cause, holding exactly the blocked commands of that cause. */
  ghost predicate GroupsOf(groups: seq<CauseGroup>, rows: seq<Row>, labels: Labels) {
    && DistinctTexts(groups)
    && (forall i :: 0 <= i < |groups| ==> IsGroup(groups[i], rows, labels))
    && AllListed(groups, rows, labels)
    && Sum(groups, (g: CauseGroup) => g.count) == Tally(rows, labels, BlockedRow)
  }

  ghost predicate Indexed(byText: map<string, nat>, groups: seq<CauseGroup>) {
    && (forall text :: text in byText ==> byText[text] < |groups| && groups[byText[text]].text == text)
    && (forall i :: 0 <= i < |groups| ==> groups[i].text in byText && byText[groups[i].text] == i)
  }

  /** `groupBlockedCauses`. */
  method GroupBlockedCauses(t: Tree, labels: Labels) returns (groups: seq<CauseGroup>)
    ensures GroupsOf(groups, t.commands, labels)
  {
    hide Classify, CauseText, GroupsOf, CauseCode;
    groups := [];
    var byText: map<string, nat> := map[];
    NoGroups(labels);
    for i := 0 to |t.commands|
      invariant GroupsOf(groups, t.commands[..i], labels)
      invariant Indexed(byText, groups)
    {
      var row := t.commands[i];
      assert t.commands[..i+1] == t.commands[..i] + [row];
      if Classify(row, labels) != BlockedRow {
        SkipRow(groups, t.commands[..i], row, labels);
        continue;
      }
      var text := CauseText(row, labels);
      if text in byText {
        var k := byText[text];
        GrowGroup(groups, t.commands[..i], row, labels, k);
        groups := groups[k := groups[k].(count := groups[k].count + 1, ids := groups[k].ids + [row.id])];
      } else {
        OpenGroup(groups, t.commands[..i], row, labels);
        byText := byText[text := |groups|];
        groups := groups + [CauseGroup(CauseCode(row.diagnostic, labels), text, 1, [row.id])];
      }
    }
    assert t.commands[..|t.commands|] == t.commands;
  }

  lemma {:induction false} BlockedIdsMeaning(rows: seq<Row>, labels: Labels, text: string, id: int)
    ensures id in BlockedIds(rows, labels, text) <==>
      exists i :: 0 <= i < |rows| && rows[i].id == id && Classify(rows[i], labels) == BlockedRow
        && CauseText(rows[i], labels) == text
  {
    hide Classify, CauseText;
    if rows != [] {
      BlockedIdsMeaning(rows[..|rows|-1], labels, text, id);
    }
  }

  /**
    What is listed under a cause is a command that is neither present, off nor uncovered, and whose diagnostic
    refuses.
  */
  lemma ListedAreRefused(groups: seq<CauseGroup>, t: Tree, labels: Labels, g: CauseGroup, id: int)
    requires GroupsOf(groups, t.commands, labels) && g in groups
    ensures id in g.ids <==> exists i :: 0 <= i < |t.commands| && IsListed(t.commands[i], labels, g.text, id)
  {
    hide Classify, CauseText, CauseCode;
    BlockedIdsMeaning(t.commands, labels, g.text, id);
    forall i | 0 <= i < |t.commands|
      ensures IsListed(t.commands[i], labels, g.text, id) <==>
        && t.commands[i].id == id && Classify(t.commands[i], labels) == BlockedRow
        && CauseText(t.commands[i], labels) == g.text
    {
      CategoryMeaning(t.commands[i], labels);
    }
  }

  predicate IsListed(r: Row, labels: Labels, text: string, id: int) {
    && r.id == id && CauseText(r, labels) == text
    && !Present(r) && !Off(r) && !Uncovered(r) && r.diagnostic.Some? && !Ready(r) && !HasIgnoredCause(r, labels)
  }

  lemma NoGroups(labels: Labels)
    ensures GroupsOf([], [], labels)
  {
  }

  lemma BlockedIdsStep(rows: seq<Row>, row: Row, labels: Labels)
    ensures forall text :: FirstCode(rows + [row], labels, text)
                        == if FirstCode(rows, labels, text).Some? then FirstCode(rows, labels, text)
                           else if Classify(row, labels) == BlockedRow && CauseText(row, labels) == text then
                             Some(CauseCode(row.diagnostic, labels))
                           else None
    ensures forall text :: BlockedIds(rows + [row], labels, text)
                        == BlockedIds(rows, labels, text) + if Classify(row, labels) == BlockedRow
                          && CauseText(row, labels) == text then [row.id] else []
  {
  }

  lemma SkipRow(groups: seq<CauseGroup>, rows: seq<Row>, row: Row, labels: Labels)
    requires GroupsOf(groups, rows, labels) && Classify(row, labels) != BlockedRow
    ensures GroupsOf(groups, rows + [row], labels)
  {
    hide Classify, CauseText, CauseCode, Tally, Sum, BlockedIds, FirstCode;
    BlockedIdsStep(rows, row, labels);
    CountsStep(rows, row, labels);
  }

  lemma GrowGroup(groups: seq<CauseGroup>, rows: seq<Row>, row: Row, labels: Labels, k: nat)
    requires GroupsOf(groups, rows, labels) && Classify(row, labels) == BlockedRow
    requires k < |groups| && groups[k].text == CauseText(row, labels)
    ensures GroupsOf(groups[k := groups[k].(count := groups[k].count + 1, ids := groups[k].ids + [row.id])],
      rows + [row], labels)
  {
    hide Classify, CauseText, CauseCode, Tally, Sum, BlockedIds, FirstCode;
    BlockedIdsStep(rows, row, labels);
    CountsStep(rows, row, labels);
    SumUpdate(groups, k, groups[k].(count := groups[k].count + 1, ids := groups[k].ids + [row.id]));
    var grown := groups[k := groups[k].(count := groups[k].count + 1, ids := groups[k].ids + [row.id])];
    TextsStay(groups, grown);
    assert grown[k].text == CauseText(row, labels);
  }

  lemma TextsStay(groups: seq<CauseGroup>, after: seq<CauseGroup>)
    requires |groups| <= |after| && forall i :: 0 <= i < |groups| ==> after[i].text == groups[i].text
    ensures forall text :: HasText(groups, text) ==> HasText(after, text)
  {
  }

  lemma {:induction false} SumUpdate(groups: seq<CauseGroup>, k: nat, g: CauseGroup)
    requires k < |groups|
    ensures Sum(groups[k := g], (x: CauseGroup) => x.count)
      == Sum(groups, (x: CauseGroup) => x.count) - groups[k].count + g.count
  {
    var n := |groups| - 1;
    if k < n {
      SumUpdate(groups[..n], k, g);
      assert groups[k := g][..n] == groups[..n][k := g];
    } else {
      assert groups[k := g][..n] == groups[..n];
    }
  }

  lemma OpenGroup(groups: seq<CauseGroup>, rows: seq<Row>, row: Row, labels: Labels)
    requires GroupsOf(groups, rows, labels) && Classify(row, labels) == BlockedRow
    requires forall i :: 0 <= i < |groups| ==> groups[i].text != CauseText(row, labels)
    ensures GroupsOf(groups + [CauseGroup(CauseCode(row.diagnostic, labels), CauseText(row, labels), 1, [row.id])],
      rows + [row], labels)
  {
    hide Classify, CauseText, CauseCode, Tally, Sum, BlockedIds, FirstCode, HasText, IsGroup, DistinctTexts;
    var added := CauseGroup(CauseCode(row.diagnostic, labels), CauseText(row, labels), 1, [row.id]);
    NewText(groups, added);
    ListedStay(groups, added, rows, row, labels);
    GroupOpened(rows, row, labels);
    hide AllListed;
    GroupsStay(groups, rows, row, labels);
    CountsStep(rows, row, labels);
    SumAppend(groups, added, (g: CauseGroup) => g.count);
  }

  lemma NewText(groups: seq<CauseGroup>, added: CauseGroup)
    requires forall i :: 0 <= i < |groups| ==> groups[i].text != added.text
    ensures !HasText(groups, added.text)
    ensures DistinctTexts(groups) ==> DistinctTexts(groups + [added])
  {
  }

  lemma ListedStay(groups: seq<CauseGroup>, added: CauseGroup, rows: seq<Row>, row: Row, labels: Labels)
    requires AllListed(groups, rows, labels) && added.text == CauseText(row, labels)
    ensures AllListed(groups + [added], rows + [row], labels)
  {
    hide Classify, CauseText, CauseCode, BlockedIds, FirstCode, HasText;
    BlockedIdsStep(rows, row, labels);
    TextsStay(groups, groups + [added]);
    TextAdded(groups, added);
  }

  lemma GroupsStay(groups: seq<CauseGroup>, rows: seq<Row>, row: Row, labels: Labels)
    requires forall i :: 0 <= i < |groups| ==> groups[i].text != CauseText(row, labels)
    requires forall i :: 0 <= i < |groups| ==> IsGroup(groups[i], rows, labels)
    ensures forall i :: 0 <= i < |groups| ==> IsGroup(groups[i], rows + [row], labels)
  {
    hide Classify, CauseText, CauseCode, BlockedIds, FirstCode;
    BlockedIdsStep(rows, row, labels);
  }

  lemma GroupOpened(rows: seq<Row>, row: Row, labels: Labels)
    requires Classify(row, labels) == BlockedRow && BlockedIds(rows, labels, CauseText(row, labels)) == []
      && FirstCode(rows, labels, CauseText(row, labels)) == None
    ensures IsGroup(CauseGroup(CauseCode(row.diagnostic, labels), CauseText(row, labels), 1, [row.id]), rows + [row],
              labels)
  {
    hide Classify, CauseText, CauseCode, BlockedIds, FirstCode;
    BlockedIdsStep(rows, row, labels);
  }

  lemma TextAdded(groups: seq<CauseGroup>, added: CauseGroup)
    ensures HasText(groups + [added], added.text)
  {
    assert (groups + [added])[|groups|] == added;
  }
}
