/**
  The pauses that smooth an action (`action_pacing.py`) and the loop of a removal that makes them
  (`http_server.py`).  Durations are real numbers of seconds.
 */
module ActionPacing {
  import opened Prelude

  const MAX_PAUSES := 15.0
  const WAKE_MARGIN := 1.0

  /** `plafond_pauses`. */
  function PauseCeiling(deadline: real): real { Min(MAX_PAUSES, deadline / 2.0) }

  /** `budget_travail`. */
  function WorkBudget(deadline: real): real { deadline - PauseCeiling(deadline) - WAKE_MARGIN }

  /** Half of the deadline, and fifteen seconds from a deadline of thirty on. */
  lemma PauseCeilingMeaning(deadline: real)
    ensures deadline < 30.0 ==> PauseCeiling(deadline) == deadline / 2.0 < 15.0
    ensures deadline >= 30.0 ==> PauseCeiling(deadline) == 15.0
    ensures WorkBudget(deadline) + WAKE_MARGIN >= deadline / 2.0
  {
  }

  datatype PacingError = NoPauseLeft

  /** `prochaine_pause`. */
  function NextPause(delay: real, ceiling: real, spent: real, left: int): Result<real, PacingError> {
    if left < 1 then Err(NoPauseLeft) else Ok(Min(delay, Max(0.0, (ceiling - spent) / left as real)))
  }

  // ---------------------------------------------------------------------------------------
  // A run of pauses
  // ---------------------------------------------------------------------------------------

  /** What was asked for, and what the clock measured; `late` is the wake-up delay of a pause that took place. */
  datatype Spent = Spent(requested: seq<real>, measured: real)

  function Total(s: seq<real>): real { if s == [] then 0.0 else Total(s[..|s|-1]) + s[|s|-1] }

  lemma TotalStep(s: seq<real>, x: real)
    ensures Total(s + [x]) == Total(s) + x
  {
  }

  predicate Countable(lefts: seq<int>) { forall i :: 0 <= i < |lefts| ==> lefts[i] >= 1 }

  /** The pauses of a run: `lefts` is the number of pauses believed left at each. */
  function Run(delay: real, ceiling: real, lefts: seq<int>, late: seq<real>): (r: Spent)
    requires Countable(lefts) && |late| == |lefts|
    ensures |r.requested| == |lefts|
  {
    if lefts == [] then Spent([], 0.0)
    else
      var n := |lefts| - 1;
      var before := Run(delay, ceiling, lefts[..n], late[..n]);
      var pause := NextPause(delay, ceiling, before.measured, lefts[n]).value;
      Spent(before.requested + [pause], before.measured + if pause > 0.0 then pause + late[n] else 0.0)
  }

  lemma ShareFits(ceiling: real, spent: real, left: int)
    requires left >= 1
    ensures spent <= ceiling ==> 0.0 <= (ceiling - spent) / left as real <= ceiling - spent
    ensures spent >= ceiling ==> (ceiling - spent) / left as real <= 0.0
  {
  }

  /**
    However many pauses are believed left, and however late each wake-up, the pauses asked for never exceed the
    ceiling, and the time measured exceeds them by the delays alone.
  */
  lemma {:induction false} PausesStayBelowCeiling(delay: real, ceiling: real, lefts: seq<int>, late: seq<real>)
    requires delay >= 0.0 && ceiling >= 0.0 && Countable(lefts) && |late| == |lefts|
    requires forall i :: 0 <= i < |late| ==> late[i] >= 0.0
    ensures var r := Run(delay, ceiling, lefts, late);
      && 0.0 <= Total(r.requested) <= ceiling
      && Total(r.requested) <= r.measured <= Total(r.requested) + Total(late)
  {
    if lefts != [] {
      var n := |lefts| - 1;
      PausesStayBelowCeiling(delay, ceiling, lefts[..n], late[..n]);
      var before := Run(delay, ceiling, lefts[..n], late[..n]);
      var pause := NextPause(delay, ceiling, before.measured, lefts[n]).value;
      ShareFits(ceiling, before.measured, lefts[n]);
      TotalStep(before.requested, pause);
    }
  }

  /** The counts n, n - 1, …, 1. */
  function CountDown(n: nat): (r: seq<int>)
    ensures |r| == n && forall i :: 0 <= i < n ==> r[i] == n - i
  {
    seq(n, i requires 0 <= i < n => n - i)
  }

  function Lateness(sleeps: nat -> real, n: nat): (r: seq<real>)
    ensures |r| == n && forall i :: 0 <= i < n ==> r[i] == sleeps(i)
  {
    seq(n, i requires 0 <= i < n => sleeps(i))
  }

  /** No wake-up is late. */
  function OnTime(i: nat): real { 0.0 }

  lemma RunStep(delay: real, ceiling: real, n: nat, sleeps: nat -> real, i: nat)
    requires i < n
    ensures Run(delay, ceiling, CountDown(n)[..0], Lateness(sleeps, 0)) == Spent([], 0.0)
    ensures var before := Run(delay, ceiling, CountDown(n)[..i], Lateness(sleeps, i));
      NextPause(delay, ceiling, before.measured, n - i).Ok?
      && var pause := NextPause(delay, ceiling, before.measured, n - i).value;
        Run(delay, ceiling, CountDown(n)[..i+1], Lateness(sleeps, i + 1))
        == Spent(before.requested + [pause], before.measured + if pause > 0.0 then pause + sleeps(i) else 0.0)
  {
    assert CountDown(n)[..i+1][..i] == CountDown(n)[..i];
    assert Lateness(sleeps, i + 1)[..i] == Lateness(sleeps, i);
  }

  lemma NothingRun(delay: real, ceiling: real)
    ensures Run(delay, ceiling, [], []) == Spent([], 0.0)
  {
  }

  /** When the count is exact and no wake-up is late, every pause is the same. */
  function EvenPause(delay: real, ceiling: real, n: nat): real
    requires n > 0
  {
    Min(delay, ceiling / n as real)
  }

  lemma EvenShare(delay: real, ceiling: real, n: nat, i: nat, spent: real)
    requires delay >= 0.0 && ceiling >= 0.0 && i < n && spent == i as real * EvenPause(delay, ceiling, n)
    ensures NextPause(delay, ceiling, spent, n - i) == Ok(EvenPause(delay, ceiling, n))
    ensures EvenPause(delay, ceiling, n) >= 0.0
  {
  }

  /**
    With an exact count and exact sleeps, the pauses are equal and add up to the delays asked for, or to the ceiling
    if less.
  */
  lemma {:induction false} EvenRun(delay: real, ceiling: real, n: nat, i: nat)
    requires delay >= 0.0 && ceiling >= 0.0 && 0 < n && i <= n
    ensures var r := Run(delay, ceiling, CountDown(n)[..i], Lateness(OnTime, i));
      && |r.requested| == i && (forall k :: 0 <= k < i ==> r.requested[k] == EvenPause(delay, ceiling, n))
      && Total(r.requested) == r.measured == i as real * EvenPause(delay, ceiling, n)
  {
    hide Run, NextPause, EvenPause;
    if i == 0 {
      NothingRun(delay, ceiling);
      assert CountDown(n)[..0] == [] && Lateness(OnTime, 0) == [];
    } else {
      hide Total, CountDown, Lateness;
      EvenRun(delay, ceiling, n, i - 1);
      RunStep(delay, ceiling, n, OnTime, i - 1);
      var q := EvenPause(delay, ceiling, n);
      var before := Run(delay, ceiling, CountDown(n)[..i-1], Lateness(OnTime, i - 1));
      EvenShare(delay, ceiling, n, i - 1, before.measured);
      OneMore(before, q, i);
    }
  }

  lemma OneMore(before: Spent, q: real, i: nat)
    requires i > 0 && q >= 0.0 && |before.requested| == i - 1
    requires (forall k :: 0 <= k < i - 1 ==> before.requested[k] == q)
      && Total(before.requested) == before.measured == (i - 1) as real * q
    ensures var after := Spent(before.requested + [q], before.measured + q);
      && |after.requested| == i && (forall k :: 0 <= k < i ==> after.requested[k] == q)
      && Total(after.requested) == after.measured == i as real * q
  {
    TotalStep(before.requested, q);
    assert i as real * q == (i - 1) as real * q + q;
  }

  lemma EvenTotal(delay: real, ceiling: real, n: nat)
    requires delay >= 0.0 && ceiling >= 0.0 && n > 0
    ensures var r := Run(delay, ceiling, CountDown(n), Lateness(OnTime, n));
      && |r.requested| == n && (forall k :: 0 <= k < n ==> r.requested[k] == EvenPause(delay, ceiling, n))
      && Total(r.requested) == Min(n as real * delay, ceiling)
  {
    hide Run, EvenPause;
    EvenRun(delay, ceiling, n, n);
    assert CountDown(n)[..n] == CountDown(n);
    EvenProduct(delay, ceiling, n);
  }

  lemma EvenProduct(delay: real, ceiling: real, n: nat)
    requires delay >= 0.0 && ceiling >= 0.0 && n > 0
    ensures n as real * EvenPause(delay, ceiling, n) == Min(n as real * delay, ceiling)
  {
  }

  /** Work within its budget and wake-ups late by no more than the margin keep the action within its deadline. */
  lemma ActionMeetsDeadline(delay: real, deadline: real, lefts: seq<int>, late: seq<real>, work: real)
    requires delay >= 0.0 && deadline >= 0.0 && Countable(lefts) && |late| == |lefts|
    requires forall i :: 0 <= i < |late| ==> late[i] >= 0.0
    requires work <= WorkBudget(deadline) && Total(late) <= WAKE_MARGIN
    ensures Run(delay, PauseCeiling(deadline), lefts, late).measured + work <= deadline
  {
    PausesStayBelowCeiling(delay, PauseCeiling(deadline), lefts, late);
  }

  // ---------------------------------------------------------------------------------------
  // The loop of a removal
  // ---------------------------------------------------------------------------------------

  /** Delay between two equipments when nothing bounds it. */
  function ActionDelay(n: nat): real { Max(0.1, 10.0 / (if n >= 1 then n else 1) as real) }

  /** Ten seconds over the equipments, a tenth of a second each at least. */
  lemma ActionDelayMeaning(n: nat)
    ensures n <= 1 ==> ActionDelay(n) == 10.0
    ensures 1 <= n <= 100 ==> ActionDelay(n) * n as real == 10.0
    ensures n >= 100 ==> ActionDelay(n) == 0.1
  {
  }

  lemma DelayIsPositive(n: nat)
    ensures ActionDelay(n) >= 0.1
  {
  }

  /** How many equipments are published, and so removed. */
  function Removals(published: seq<bool>): nat { Count(published, (p: bool) => p) }

  lemma {:induction false} RemovalsSoFar(published: seq<bool>, i: nat)
    requires i < |published|
    ensures Removals(published[..i+1]) == Removals(published[..i]) + if published[i] then 1 else 0
    ensures Removals(published[..i+1]) <= Removals(published)
  {
    assert published[..i+1] == published[..i] + [published[i]];
    CountAppend(published[..i], published[i], (p: bool) => p);
    PrefixCounts(published, i + 1);
  }

  lemma {:induction false} PrefixCounts(published: seq<bool>, i: nat)
    requires i <= |published|
    ensures Removals(published[..i]) <= Removals(published)
  {
    if i == |published| {
      assert published[..i] == published;
    } else {
      assert published[..|published|-1][..i] == published[..i];
      PrefixCounts(published[..|published|-1], i);
    }
  }

  /**
    The removal of the equipments published in Home Assistant: one pause after each but the last, with the exact
    count of those left.  `sleeps` says how late each wake-up is.
  */
  method PaceRemovals(published: seq<bool>, deadline: real, sleeps: nat -> real) returns (spent: Spent)
    ensures var pauses := if Removals(published) > 0 then Removals(published) - 1 else 0;
      spent == Run(ActionDelay(|published|), PauseCeiling(deadline), CountDown(pauses), Lateness(sleeps, pauses))
  {
    hide Removals, Run, NextPause, ActionDelay, PauseCeiling;
    var delay, ceiling := ActionDelay(|published|), PauseCeiling(deadline);
    var total := Removals(published);
    ghost var pauses := if total > 0 then total - 1 else 0;
    var index := 0;
    spent := Spent([], 0.0);
    NothingRun(delay, ceiling);
    assert published[..0] == [];
    assert Removals([]) == 0 by { NothingRemoved(); }
    assert CountDown(pauses)[..0] == [] && Lateness(sleeps, 0) == [];
    for i := 0 to |published|
      invariant index == Removals(published[..i]) <= total
      invariant spent == Run(delay, ceiling, CountDown(pauses)[..if index < total then index else pauses],
        Lateness(sleeps, if index < total then index else pauses))
    {
      RemovalsSoFar(published, i);
      if !published[i] {
        continue;
      }
      index := index + 1;
      var left := total - index;
      if left > 0 {
        RunStep(delay, ceiling, pauses, sleeps, index - 1);
        var pause := NextPause(delay, ceiling, spent.measured, left).value;
        spent := Spent(spent.requested + [pause],
          spent.measured + if pause > 0.0 then pause + sleeps(index - 1) else 0.0);
      }
    }
    assert published[..|published|] == published;
    assert CountDown(pauses)[..pauses] == CountDown(pauses);
  }

  lemma NothingRemoved()
    ensures Removals([]) == 0
  {
  }

  /** The pauses of a removal and its work keep to the deadline it is given. */
  lemma RemovalMeetsDeadline(published: seq<bool>, deadline: real, sleeps: nat -> real, work: real)
    requires deadline >= 0.0 && forall i :: sleeps(i) >= 0.0
    requires work <= WorkBudget(deadline)
    ensures var pauses := if Removals(published) > 0 then Removals(published) - 1 else 0;
      Total(Lateness(sleeps, pauses)) <= WAKE_MARGIN ==>
        Run(ActionDelay(|published|), PauseCeiling(deadline), CountDown(pauses), Lateness(sleeps, pauses)).measured
          + work <= deadline
  {
    hide Removals, Run, Total;
    var pauses := if Removals(published) > 0 then Removals(published) - 1 else 0;
    if Total(Lateness(sleeps, pauses)) <= WAKE_MARGIN {
      DelayIsPositive(|published|);
      ActionMeetsDeadline(ActionDelay(|published|), deadline, CountDown(pauses), Lateness(sleeps, pauses), work);
    }
  }
}
