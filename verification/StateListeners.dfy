/**
  The realignment of the state listeners (`jeedom2ha_state_listeners.php`): fetch, validate, create, purge.
  Any call may fail, before or after its effect; the numeric tests of PHP are already applied to the answer.
 */
module StateListeners {
  import opened Prelude

  datatype Target = Target(eqId: int, cmdId: int)

  // ---------------------------------------------------------------------------------------
  // The daemon's answer
  // ---------------------------------------------------------------------------------------

  /** A field of the answer: absent or null, not numeric, or numeric with its `intval`. */
  datatype Field = Unset | NotNumeric | Numeric(n: int)

  datatype RawTarget = NotAnArray | RawTarget(cmdId: Field, eqId: Field)

  datatype Response = Unusable | Response(statusOk: bool, listeners: Option<seq<RawTarget>>)

  predicate IsTarget(r: RawTarget) {
    r.RawTarget? && r.cmdId.Numeric? && r.cmdId.n > 0 && (r.eqId == Unset || (r.eqId.Numeric? && r.eqId.n >= 0))
  }

  function TargetOf(r: RawTarget): Target
    requires IsTarget(r)
  {
    Target(if r.eqId == Unset then 0 else r.eqId.n, r.cmdId.n)
  }

  ghost predicate IsUsable(response: Response) {
    response.Response? && response.statusOk && response.listeners.Some? && forall i ::
      0 <= i < |response.listeners.value| ==> IsTarget(response.listeners.value[i])
  }

  function TargetsIn(response: Response): (r: seq<Target>)
    requires IsUsable(response)
  {
    var raw := response.listeners.value;
    seq(|raw|, i requires 0 <= i < |raw| => TargetOf(raw[i]))
  }

  /** A sound entry names a command by a positive number, and an equipment by one that is not negative, or by none. */
  lemma TargetMeaning(r: RawTarget, t: Target)
    ensures IsTarget(r) && TargetOf(r) == t <==>
      && t.cmdId >= 1 && t.eqId >= 0
      && (r == RawTarget(Numeric(t.cmdId), Numeric(t.eqId)) || (t.eqId == 0 && r == RawTarget(Numeric(t.cmdId), Unset)))
  {
  }

  /** `jeedom2ha_normalize_state_listener_targets`: all or nothing, in the answer's order. */
  method NormalizeTargets(response: Response) returns (targets: Option<seq<Target>>)
    ensures targets.Some? <==> IsUsable(response)
    ensures targets.Some? ==> targets.value == TargetsIn(response)
  {
    if response.Unusable? || !response.statusOk || response.listeners.None? {
      return None;
    }
    var raw := response.listeners.value;
    var out: seq<Target> := [];
    for i := 0 to |raw|
      invariant |out| == i
      invariant forall k :: 0 <= k < i ==> IsTarget(raw[k]) && out[k] == TargetOf(raw[k])
    {
      if raw[i].NotAnArray? || !raw[i].cmdId.Numeric? {
        return None;
      }
      if raw[i].cmdId.n <= 0 {
        return None;
      }
      var eqId := if raw[i].eqId == Unset then Numeric(0) else raw[i].eqId;
      if !eqId.Numeric? || eqId.n < 0 {
        return None;
      }
      out := out + [Target(eqId.n, raw[i].cmdId.n)];
    }
    targets := Some(out);
  }

  // ---------------------------------------------------------------------------------------
  // The listeners of Jeedom
  // ---------------------------------------------------------------------------------------

  datatype Listener = Listener(id: nat, target: Target)

  type Listeners = seq<Listener>

  /** How a call ends: normally, or by an exception raised before or after its effect. */
  datatype Outcome = Done | FailsBefore | FailsAfter

  function Without(s: Listeners, id: nat): Listeners {
    if s == [] then [] else (if s[0].id == id then [] else [s[0]]) + Without(s[1..], id)
  }

  predicate DistinctListeners(s: Listeners) { forall i, j :: 0 <= i < j < |s| ==> s[i].id != s[j].id }

  lemma {:induction false} WithoutStranger(s: Listeners, id: nat)
    requires forall i :: 0 <= i < |s| ==> s[i].id != id
    ensures Without(s, id) == s
  {
    if s != [] {
      WithoutStranger(s[1..], id);
    }
  }

  function TargetsOf(s: Listeners): seq<Target> { seq(|s|, i requires 0 <= i < |s| => s[i].target) }

  /** What the answer asks for, nothing when it is not usable. */
  ghost function TargetsOrNone(response: Response): seq<Target> {
    if IsUsable(response) then TargetsIn(response) else []
  }

  /** Every listener is still there. */
  ghost predicate Keeps(before: Listeners, now: Listeners) { forall i :: 0 <= i < |before| ==> before[i] in now }

  /** Every target has its listener. */
  ghost predicate Covers(targets: seq<Target>, now: Listeners) {
    forall i :: 0 <= i < |targets| ==> HasListener(now, targets[i])
  }

  ghost predicate HasListener(now: Listeners, t: Target) { exists k :: 0 <= k < |now| && now[k].target == t }

  /** First every old listener is kept, then every target is covered. */
  ghost predicate NeverDeaf(history: seq<Listeners>, turn: nat, before: Listeners, targets: seq<Target>) {
    && turn <= |history|
    && (forall i :: 0 <= i < turn ==> Keeps(before, history[i]))
    && forall i :: turn <= i < |history| ==> Covers(targets, history[i])
  }

  class Jeedom {
    var live: Listeners
    var nextId: nat
    var calls: nat
    const outcome: nat -> Outcome
    /** What was live after each call since the object was made. */
    ghost var history: seq<Listeners>

    constructor (listeners: Listeners, next: nat, how: nat -> Outcome)
      requires DistinctListeners(listeners) && forall i :: 0 <= i < |listeners| ==> listeners[i].id < next
      ensures Valid() && live == listeners && outcome == how && history == [] && calls == 0
    {
      live, nextId, calls, outcome, history := listeners, next, 0, how, [];
    }

    ghost predicate Valid()
      reads this
    {
      DistinctListeners(live) && forall i :: 0 <= i < |live| ==> live[i].id < nextId
    }

    /** A call that only reads; it may fail. */
    method Call() returns (ok: bool)
      requires Valid()
      modifies this`calls, this`history
      ensures Valid() && calls == old(calls) + 1 && history == old(history) + [live]
      ensures ok == (outcome(old(calls)) == Done)
    {
      ok := outcome(calls) == Done;
      calls := calls + 1;
      history := history + [live];
    }

    method Create(t: Target) returns (ok: bool)
      requires Valid()
      modifies this
      ensures Valid() && calls == old(calls) + 1 && history == old(history) + [live]
      ensures ok == (outcome(old(calls)) == Done)
      ensures live == if outcome(old(calls)) == FailsBefore then old(live) else old(live) + [Listener(old(nextId), t)]
      ensures nextId > old(nextId)
    {
      if outcome(calls) != FailsBefore {
        live := live + [Listener(nextId, t)];
      }
      nextId := nextId + 1;
      ok := outcome(calls) == Done;
      calls := calls + 1;
      history := history + [live];
    }

    method Remove(l: Listener) returns (ok: bool)
      requires Valid()
      modifies this
      ensures calls == old(calls) + 1 && history == old(history) + [live] && nextId == old(nextId)
      ensures ok == (outcome(old(calls)) == Done)
      ensures live == if outcome(old(calls)) == FailsBefore then old(live) else Without(old(live), l.id)
      ensures Valid()
    {
      if outcome(calls) != FailsBefore {
        RemovalKeepsOthers(live, l.id);
        live := Without(live, l.id);
      }
      ok := outcome(calls) == Done;
      calls := calls + 1;
      history := history + [live];
    }

    /** Creates the new listeners, until one call fails. */
    method CreateAll(targets: seq<Target>) returns (done: bool, count: nat)
      requires Valid()
      modifies this
      ensures Valid() && calls >= old(calls) && |history| - |old(history)| == calls - old(calls)
        && old(history) <= history
      ensures old(live) <= live && TargetsOf(live[|old(live)|..]) <= targets
        && (forall k :: |old(live)| <= k < |live| ==> live[k].id >= old(nextId))
      ensures done ==> TargetsOf(live[|old(live)|..]) == targets && count == |targets|
      ensures (forall k :: old(calls) <= k < calls ==> outcome(k) == Done) ==> done
      ensures forall k :: |old(history)| <= k < |history| ==> Keeps(old(live), history[k])
    {
      hide Keeps, TargetsOf, DistinctListeners;
      count := 0;
      assert live[|live|..] == [] && targets[..0] == [];
      NoTargets();
      for i := 0 to |targets|
        invariant Valid() && calls == old(calls) + i && |history| == |old(history)| + i && old(history) <= history
        invariant count == i && old(live) <= live && TargetsOf(live[|old(live)|..]) == targets[..i]
        invariant nextId >= old(nextId) && forall k :: |old(live)| <= k < |live| ==> live[k].id >= old(nextId)
        invariant forall k :: |old(history)| <= k < |history| ==> Keeps(old(live), history[k])
      {
        assert targets[..i+1] == targets[..i] + [targets[i]];
        AddedStep(live, |old(live)|, Listener(nextId, targets[i]));
        done := Create(targets[i]);
        Grown(old(live), live);
        if !done {
          return false, count;
        }
        count := count + 1;
      }
      assert targets[..|targets|] == targets;
      done := true;
    }

    /** Removes the old listeners, until one call fails; the others stay. */
    method Purge(existing: Listeners, ghost added: Listeners)
      requires Valid() && live == existing + added
      modifies this
      ensures Valid() && calls >= old(calls) && |history| - |old(history)| == calls - old(calls)
        && old(history) <= history
      ensures exists j :: 0 <= j <= |existing| && live == existing[j..] + added
      ensures (forall k :: old(calls) <= k < calls ==> outcome(k) == Done) ==> live == added
      ensures forall k :: |old(history)| <= k < |history| ==> Covers(TargetsOf(added), history[k])
    {
      hide Covers, Without, TargetsOf, DistinctListeners;
      assert existing[0..] == existing;
      for j := 0 to |existing|
        invariant Valid() && calls == old(calls) + j && |history| == |old(history)| + j && old(history) <= history
        invariant live == existing[j..] + added
        invariant forall k :: |old(history)| <= k < |history| ==> Covers(TargetsOf(added), history[k])
      {
        PurgeStep(existing, added, j);
        var removed := Remove(existing[j]);
        if !removed {
          return;
        }
      }
      assert existing[|existing|..] + added == added;
    }

    /** The listeners found are replaced by one per target. */
    method Replace(targets: seq<Target>) returns (count: Option<nat>, ghost turn: nat)
      requires Valid()
      modifies this
      ensures Valid() && calls >= old(calls) && |history| - |old(history)| == calls - old(calls)
        && old(history) <= history
      ensures NeverDeaf(history[|old(history)|..], turn, old(live), targets)
      ensures count.None? ==> old(live) <= live && TargetsOf(live[|old(live)|..]) <= targets
      ensures count.Some? ==> count.value == |targets| && Covers(targets, live)
      ensures (forall k :: old(calls) <= k < calls ==> outcome(k) == Done) ==> count.Some? && TargetsOf(live) == targets
    {
      hide Covers, Keeps, TargetsOf, DistinctListeners;
      Grown(live, live);
      assert live[|live|..] == [];
      NoTargets();
      var listed := Call();
      turn := 1;
      if !listed {
        return None, turn;
      }
      var existing := live;
      var done, created := CreateAll(targets);
      turn := calls - old(calls);
      if !done {
        return None, turn;
      }
      ghost var added := live[|existing|..];
      assert live == existing + added;
      Purge(existing, added);
      ghost var j :| 0 <= j <= |existing| && live == existing[j..] + added;
      AddedCover(existing[j..], added);
      count := Some(created);
    }

    /**
      `jeedom2ha_realign_state_listeners`.  Whatever fails, a command that had a listener and is still a target
      has one after every call; without failure exactly the targets are left, duplicates included.
    */
    method Realign(answer: Response) returns (count: Option<nat>, ghost turn: nat)
      requires Valid()
      modifies this
      ensures Valid() && calls >= old(calls) && |history| - |old(history)| == calls - old(calls)
        && old(history) <= history
      ensures NeverDeaf(history[|old(history)|..], turn, old(live), TargetsOrNone(answer))
      ensures count.None? ==> old(live) <= live && TargetsOf(live[|old(live)|..]) <= TargetsOrNone(answer)
      ensures count.Some? ==> IsUsable(answer) && count.value == |TargetsIn(answer)| && Covers(TargetsIn(answer), live)
      ensures !IsUsable(answer) ==> count.None? && live == old(live)
      ensures IsUsable(answer) && (forall k :: old(calls) <= k < calls ==> outcome(k) == Done) ==>
        count.Some? && TargetsOf(live) == TargetsIn(answer)
    {
      hide IsUsable, TargetsIn, Covers, Keeps, TargetsOf, NeverDeaf;
      ghost var before, first := live, |history|;
      assert live[|live|..] == [];
      NoTargets();
      var fetched := Call();
      StillThere(before, TargetsOrNone(answer));
      assert history[first..] == [before];
      if !fetched {
        return None, 1;
      }
      var normalized := NormalizeTargets(answer);
      if normalized.None? {
        return None, 1;
      }
      count, turn := Replace(normalized.value);
      AfterOneCall(history[first+1..], turn, before, normalized.value);
      assert history[first..] == [before] + history[first+1..];
      turn := turn + 1;
    }
  }

  /** A first call that changes nothing. */
  lemma StillThere(before: Listeners, targets: seq<Target>)
    ensures NeverDeaf([before], 1, before, targets)
  {
    Grown(before, before);
  }

  lemma AfterOneCall(history: seq<Listeners>, turn: nat, before: Listeners, targets: seq<Target>)
    requires NeverDeaf(history, turn, before, targets)
    ensures NeverDeaf([before] + history, turn + 1, before, targets)
  {
    hide Covers;
    Grown(before, before);
  }

  lemma Grown(before: Listeners, now: Listeners)
    requires before <= now
    ensures Keeps(before, now)
  {
  }

  /** Removing the first of the old listeners, or failing to, keeps every new one. */
  lemma PurgeStep(existing: Listeners, added: Listeners, j: nat)
    requires j < |existing| && DistinctListeners(existing[j..] + added)
    ensures Without(existing[j..] + added, existing[j].id) == existing[j+1..] + added
    ensures Covers(TargetsOf(added), existing[j..] + added) && Covers(TargetsOf(added), existing[j+1..] + added)
  {
    WithoutHead(existing[j..] + added);
    assert (existing[j..] + added)[1..] == existing[j+1..] + added;
    AddedCover(existing[j..], added);
    AddedCover(existing[j+1..], added);
  }

  lemma NoTargets()
    ensures TargetsOf([]) == []
  {
  }

  lemma AddedStep(now: Listeners, from: nat, l: Listener)
    requires from <= |now|
    ensures TargetsOf((now + [l])[from..]) == TargetsOf(now[from..]) + [l.target]
  {
    assert (now + [l])[from..] == now[from..] + [l];
  }

  lemma WithoutHead(s: Listeners)
    requires s != [] && DistinctListeners(s)
    ensures Without(s, s[0].id) == s[1..]
  {
    WithoutStranger(s[1..], s[0].id);
  }

  lemma AddedCover(kept: Listeners, added: Listeners)
    ensures Covers(TargetsOf(added), kept + added)
  {
    var targets := TargetsOf(added);
    forall i | 0 <= i < |targets| ensures HasListener(kept + added, targets[i]) {
      assert |TargetsOf(added)| == |added| && (kept + added)[|kept| + i].target == TargetsOf(added)[i];
    }
  }

  lemma {:induction false} RemovalKeepsOthers(s: Listeners, id: nat)
    ensures forall i :: 0 <= i < |Without(s, id)| ==> Without(s, id)[i] in s
    ensures DistinctListeners(s) ==> DistinctListeners(Without(s, id))
  {
    if s != [] {
      var rest := Without(s[1..], id);
      RemovalKeepsOthers(s[1..], id);
      forall i | 0 <= i < |rest| ensures rest[i] in s && (DistinctListeners(s) ==> rest[i].id != s[0].id) {
        var k :| 0 <= k < |s[1..]| && s[1..][k] == rest[i];
        assert s[k+1] == rest[i];
      }
      assert DistinctListeners(s) ==> DistinctListeners(s[1..]);
      if DistinctListeners(s) { Consed(s[0], rest); }
    }
  }

  lemma Consed(l: Listener, rest: Listeners)
    requires DistinctListeners(rest) && forall i :: 0 <= i < |rest| ==> rest[i].id != l.id
    ensures DistinctListeners([l] + rest)
  {
  }

  predicate Listens(now: Listeners, cmdId: int) { exists k :: 0 <= k < |now| && now[k].target.cmdId == cmdId }

  /** A command that had a listener and is asked for again is listened to after every call. */
  lemma NoCommandGoesDeaf(history: seq<Listeners>, turn: nat, before: Listeners, targets: seq<Target>, i: nat,
      t: Target)
    requires NeverDeaf(history, turn, before, targets) && i < |history|
    requires t in targets && Listens(before, t.cmdId)
    ensures Listens(history[i], t.cmdId)
  {
  }
}
