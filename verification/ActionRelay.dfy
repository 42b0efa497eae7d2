/**
  The relay of an action to the daemon (`jeedom2ha_action_budget.php`, `jeedom2ha_realign_after_action`), with the
  reading of the values it makes for a publication, and the time its client waits (`jeedom2ha_action_budget.js`).
  The injected calls answer and last as their environment says; durations are in seconds.
 */
module ActionRelay {
  import opened Prelude
  import ClickValues

  const R := 60.0
  const RESERVE := 5.0
  const STATUS_TIMEOUT := 3.0
  const CLICK_READ_DEADLINE := 10.0
  const REALIGN_TIMEOUT := 3.0
  const CLIENT_TIMEOUT := 90.0
  const ACTION_IN_PROGRESS := "action_in_progress"

  datatype Intention = Publish | Remove

  type Values = map<int, string>

  datatype Reply = Reply(code: Option<string>, message: Option<string>)

  datatype Event = ProbeStatus | ReadValues | CallAction(values: Option<Values>, deadline: real) | Realign

  datatype RelayError = Unreachable | DaemonError | TimedOut | Conflict(message: Option<string>)

  /** How each call behaves: the status answers or not, the daemon replies or not, the realignment raises or not. */
  datatype Outside =
    Outside(probes: nat -> bool, reply: Option<Reply>, realignRaises: bool, time: (Event, nat) -> real)

  /** What the reading of the values gave, and the time it took. */
  datatype Reading = Reading(values: Option<Values>, lasted: real)

  class Daemon {
    const outside: Outside
    const reader: ClickValues.Reader
    var clock: real
    var trace: seq<Event>

    constructor (with: Outside, values: ClickValues.Reader, now: real)
      ensures outside == with && reader == values && clock == now && trace == []
    {
      outside, reader, clock, trace := with, values, now, [];
    }

    method Do(e: Event)
      modifies this
      ensures trace == old(trace) + [e] && clock == old(clock) + outside.time(e, |old(trace)|)
    {
      clock := clock + outside.time(e, |trace|);
      trace := trace + [e];
    }

    method Probe() returns (ok: bool)
      modifies this
      ensures trace == old(trace) + [ProbeStatus]
      ensures clock == old(clock) + outside.time(ProbeStatus, |old(trace)|)
      ensures ok == outside.probes(|old(trace)|)
    {
      ok := outside.probes(|trace|);
      Do(ProbeStatus);
    }

    /** The values of the scope are read, which takes as long as it takes. */
    method Read(scope: ClickValues.Scope, ghost limit: real) returns (reading: Reading, ghost expansion: real)
      requires CallsLast(reader.site, limit)
      modifies this, reader
      ensures trace == old(trace) + [ReadValues] && clock == old(clock) + reading.lasted
      ensures IsReading(reading, scope, reader.site)
      ensures reading.values.Some? <==> reader.NoFailure(old(reader.calls))
      ensures 0.0 <= reading.lasted <= Max(expansion, CLICK_READ_DEADLINE + limit)
    {
      var start := reader.clock;
      var values;
      ghost var count;
      values, expansion, count := reader.CollectClickValues(scope, CLICK_READ_DEADLINE, limit);
      reading := Reading(values, reader.clock - start);
      clock := clock + reading.lasted;
      trace := trace + [ReadValues];
    }

    /**
      `jeedom2ha_realign_after_action`: for a publication that was answered only.  A realignment that raises is a
      warning and nothing more: it counts as tried.
    */
    method RealignAfterAction(intention: Intention, reply: Option<Reply>) returns (tried: bool, warned: bool)
      modifies this
      ensures tried <==> intention == Publish && reply.Some?
      ensures warned <==> tried && outside.realignRaises
      ensures trace == if tried then old(trace) + [Realign] else old(trace)
      ensures clock == old(clock) + if tried then outside.time(Realign, |old(trace)|) else 0.0
    {
      if intention != Publish || reply.None? {
        return false, false;
      }
      Do(Realign);
      return true, outside.realignRaises;
    }

    /** What follows the action: the diagnosis of a missing answer, the refusal of a conflict, or the realignment. */
    method Conclude(intention: Intention, duration: real) returns (r: Result<Reply, RelayError>)
      modifies this
      ensures trace == old(trace) + After(intention, outside.reply, duration)
      ensures r == Verdict(outside.reply, duration, outside.probes(|old(trace)|))
      ensures forall lasted ::
        clock == old(clock) + Elapsed(After(intention, outside.reply, duration), outside, lasted, |old(trace)|)
    {
      if outside.reply.None? {
        if duration < R - 1.0 {
          return Err(DaemonError);
        }
        var still := Probe();
        return Err(if still then TimedOut else Unreachable);
      }
      var reply := outside.reply.value;
      if reply.code == Some(ACTION_IN_PROGRESS) {
        return Err(Conflict(reply.message));
      }
      var tried, warned := RealignAfterAction(intention, outside.reply);
      r := Ok(reply);
    }

    /** The probe, then the reading of the values for a publication. */
    method Prepare(intention: Intention, scope: Option<ClickValues.Scope>, ghost limit: real)
      returns (reading: Result<Reading, RelayError>, ghost expansion: real)
      requires CallsLast(reader.site, limit)
      modifies this, reader
      ensures reading.Ok? <==> outside.probes(|old(trace)|)
      ensures reading.Err? ==> reading.error == Unreachable && trace == old(trace) + [ProbeStatus]
      ensures reading.Err? ==> clock == old(clock) + outside.time(ProbeStatus, |old(trace)|)
      ensures reading.Ok? ==> trace == old(trace) + Before(intention, scope.Some?)
      ensures reading.Ok? ==>
        clock == old(clock) + Elapsed(Before(intention, scope.Some?), outside, reading.value.lasted, |old(trace)|)
      ensures reading.Ok? && Reads(intention, scope.Some?) ==>
        && IsReading(reading.value, scope.value, reader.site)
        && (reading.value.values.Some? <==> reader.NoFailure(old(reader.calls)))
        && reading.value.lasted <= Max(expansion, CLICK_READ_DEADLINE + limit)
      ensures reading.Ok? ==> reading.value.lasted >= 0.0
      ensures reading.Ok? && !Reads(intention, scope.Some?) ==> reading.value == Reading(None, 0.0)
    {
      hide Elapsed;
      ghost var n := |trace|;
      expansion := 0.0;
      var up := Probe();
      if !up {
        return Err(Unreachable), expansion;
      }
      var read := Reading(None, 0.0);
      if intention == Publish && scope.Some? {
        read, expansion := Read(scope.value, limit);
      }
      ElapsedOfOne(ProbeStatus, outside, read.lasted, n);
      ElapsedStep([ProbeStatus], ReadValues, outside, read.lasted, n);
      assert [ProbeStatus] + [ReadValues] == [ProbeStatus, ReadValues];
      reading := Ok(read);
    }

    /**
      `jeedom2ha_dispatch_action_relay`.  The calls, the outcome and the time are those specified below, with what was
      really read; and the client is still waiting at the end, whatever the path, when every call keeps to its
      timeout, the scope was expanded within the reading deadline and no call of the reading lasts fourteen seconds.
    */
    method Dispatch(intention: Intention, scope: Option<ClickValues.Scope>, ghost limit: real)
      returns (r: Result<Reply, RelayError>, ghost read: Reading, ghost expansion: real)
      requires CallsLast(reader.site, limit)
      modifies this, reader
      ensures var n, collects := |old(trace)|, scope.Some?;
        && trace == old(trace) + Calls(intention, collects, outside, read, n)
        && r == Outcome(intention, collects, outside, read, n)
        && clock == old(clock) + Elapsed(Calls(intention, collects, outside, read, n), outside, read.lasted, n)
      ensures outside.probes(|old(trace)|) && Reads(intention, scope.Some?) ==>
        IsReading(read, scope.value, reader.site) && (read.values.Some? <==> reader.NoFailure(old(reader.calls)))
      ensures KeepsTimeouts(outside) && expansion <= CLICK_READ_DEADLINE && limit < 14.0 ==>
        0.0 <= clock - old(clock) < CLIENT_TIMEOUT
    {
      hide Elapsed, After, Verdict, Before, IsReading, KeepsTimeouts;
      ghost var n, collects := |trace|, scope.Some?;
      var prepared;
      prepared, expansion := Prepare(intention, scope, limit);
      if prepared.Err? {
        read := Reading(None, 0.0);
        ElapsedOfOne(ProbeStatus, outside, read.lasted, n);
        if KeepsTimeouts(outside) {
          RelayTime(intention, collects, outside, n, read);
        }
        return Err(prepared.error), read, expansion;
      }
      read := prepared.value;
      var start := clock;
      var action := CallAction(prepared.value.values, R - RESERVE);
      Do(action);
      ghost var before := Before(intention, collects);
      ElapsedStep(before, action, outside, read.lasted, n);
      ElapsedConcat(before + [action], After(intention, outside.reply, clock - start), outside, read.lasted, n);
      r := Conclude(intention, clock - start);
      if KeepsTimeouts(outside) {
        RelayTime(intention, collects, outside, n, read);
      }
    }
  }

  /** The calls of a reading take their time, and one that runs past the deadline takes `limit` at most. */
  ghost predicate CallsLast(site: ClickValues.Site, limit: real) {
    && (forall k :: 0.0 <= site.time(ClickValues.ExpandCall, k))
    && (forall k :: 0.0 <= site.time(ClickValues.ListCall, k) <= limit)
    && (forall k :: 0.0 <= site.time(ClickValues.ReadCall, k) <= limit)
  }

  /** Values that were read are those of the first commands of the scope, of all of them when time was left. */
  ghost predicate IsReading(reading: Reading, scope: ClickValues.Scope, site: ClickValues.Site) {
    var cmds := ClickValues.AllCmds(ClickValues.EqIds(scope, site), site);
    reading.values.Some? ==>
      exists count: nat :: count <= |cmds| && reading.values.value == ClickValues.ValuesOf(cmds[..count], site)
                           && (reading.lasted < CLICK_READ_DEADLINE ==> count == |cmds|)
  }

  // ---------------------------------------------------------------------------------------
  // The calls of a relay
  // ---------------------------------------------------------------------------------------

  /** Before the action: the probe, and the reading of the values for a publication. */
  function Before(intention: Intention, collects: bool): seq<Event> {
    if intention == Publish && collects then [ProbeStatus, ReadValues] else [ProbeStatus]
  }

  function Action(read: Reading): Event { CallAction(read.values, R - RESERVE) }

  function ActionTime(intention: Intention, collects: bool, outside: Outside, read: Reading, from: nat): real {
    outside.time(Action(read), from + |Before(intention, collects)|)
  }

  /**
    After the action: a second probe when the daemon gave no answer in all its time, the realignment after a
    publication that is no conflict.
  */
  function After(intention: Intention, reply: Option<Reply>, duration: real): seq<Event> {
    match reply
    case None => if duration < R - 1.0 then [] else [ProbeStatus]
    case Some(reply) => if reply.code != Some(ACTION_IN_PROGRESS) && intention == Publish then [Realign] else []
  }

  function Verdict(reply: Option<Reply>, duration: real, answersAgain: bool): Result<Reply, RelayError> {
    match reply
    case None => Err(if duration < R - 1.0 then DaemonError else if answersAgain then TimedOut else Unreachable)
    case Some(reply) => if reply.code == Some(ACTION_IN_PROGRESS) then Err(Conflict(reply.message)) else Ok(reply)
  }

  /** The calls of a relay, the first being call number `from`. */
  function Calls(intention: Intention, collects: bool, outside: Outside, read: Reading, from: nat): seq<Event> {
    if !outside.probes(from) then [ProbeStatus]
    else
      var duration := ActionTime(intention, collects, outside, read, from);
      Before(intention, collects) + [Action(read)] + After(intention, outside.reply, duration)
  }

  function Outcome(intention: Intention, collects: bool, outside: Outside, read: Reading, from: nat)
    : Result<Reply, RelayError>
  {
    if !outside.probes(from) then Err(Unreachable)
    else
      var duration := ActionTime(intention, collects, outside, read, from);
      Verdict(outside.reply, duration, outside.probes(from + |Before(intention, collects)| + 1))
  }

  predicate Reads(intention: Intention, collects: bool) { intention == Publish && collects }

  /**
    Order of the calls: the probe is first and alone when it is not answered; one action exactly otherwise, the reading
    just before it; the realignment is last and means a publication that succeeded; a second probe means an action that
    took all its time without an answer.
  */
  lemma OrderOfCalls(intention: Intention, collects: bool, outside: Outside, read: Reading, from: nat, i: nat)
    requires i < |Calls(intention, collects, outside, read, from)|
    ensures var calls, r :=
      Calls(intention, collects, outside, read, from), Outcome(intention, collects, outside, read, from);
      var k := |Before(intention, collects)|;
      && calls[0] == ProbeStatus
      && (calls[i].CallAction? <==> i == k)
      && (calls[i] == ReadValues <==> Reads(intention, collects) && i == 1 && k == 2)
      && (calls[i] == Realign ==> i == k + 1 == |calls| - 1 && intention == Publish && r.Ok?)
      && (calls[i] == ProbeStatus && i > 0 ==> i == k + 1 && outside.reply.None? && r.Err?)
      && (r.Ok? ==> |calls| == if intention == Publish then k + 2 else k + 1)
  {
  }

  /** Which calls are made, in the answers and the times. */
  lemma CallsMeaning(intention: Intention, collects: bool, outside: Outside, read: Reading, from: nat)
    ensures var calls := Calls(intention, collects, outside, read, from);
      var k := if intention == Publish && collects then 2 else 1;
      var action := CallAction(read.values, 55.0);
      var waited := outside.time(action, from + k) >= 59.0;
      && (!outside.probes(from) ==> calls == [ProbeStatus])
      && (outside.probes(from) ==>
         && |calls| > k && calls[0] == ProbeStatus && (k == 2 ==> calls[1] == ReadValues) && calls[k] == action
         && (outside.reply.None? && waited ==> calls[k+1..] == [ProbeStatus])
         && (outside.reply.None? && !waited ==> calls[k+1..] == [])
         && (outside.reply.Some? ==>
            calls[k+1..] == if intention == Publish && outside.reply.value.code != Some("action_in_progress")
                            then [Realign] else []))
  {
  }

  /** The outcome in the answers: what each error means. */
  lemma OutcomeMeaning(intention: Intention, collects: bool, outside: Outside, read: Reading, from: nat)
    ensures var r := Outcome(intention, collects, outside, read, from);
      var k := if intention == Publish && collects then 2 else 1;
      var answered, again := outside.probes(from), outside.probes(from + k + 1);
      var waited := outside.time(CallAction(read.values, 55.0), from + k) >= 59.0;
      var silent := outside.reply.None?;
      && (r == Err(Unreachable) <==> !answered || (silent && waited && !again))
      && (r == Err(TimedOut) <==> answered && silent && waited && again)
      && (r == Err(DaemonError) <==> answered && silent && !waited)
      && (r.Err? && r.error.Conflict? <==>
         answered && !silent && outside.reply.value.code == Some("action_in_progress"))
      && (r.Err? && r.error.Conflict? ==> r.error.message == outside.reply.value.message)
      && (r.Ok? <==> answered && !silent && outside.reply.value.code != Some("action_in_progress"))
      && (r.Ok? ==> outside.reply == Some(r.value))
  {
  }

  // ---------------------------------------------------------------------------------------
  // Time
  // ---------------------------------------------------------------------------------------

  function TimeOf(e: Event, outside: Outside, reading: real, k: nat): real {
    if e == ReadValues then reading else outside.time(e, k)
  }

  /** Time of consecutive calls, the first being call number `from`. */
  function Elapsed(steps: seq<Event>, outside: Outside, reading: real, from: nat): real {
    if steps == [] then 0.0
    else
      var n := |steps| - 1;
      Elapsed(steps[..n], outside, reading, from) + TimeOf(steps[n], outside, reading, from + n)
  }

  lemma ElapsedStep(steps: seq<Event>, e: Event, outside: Outside, reading: real, from: nat)
    ensures Elapsed(steps + [e], outside, reading, from)
         == Elapsed(steps, outside, reading, from) + TimeOf(e, outside, reading, from + |steps|)
  {
  }

  lemma ElapsedOfOne(e: Event, outside: Outside, reading: real, from: nat)
    ensures Elapsed([e], outside, reading, from) == TimeOf(e, outside, reading, from)
  {
  }

  lemma {:induction false} ElapsedConcat(a: seq<Event>, b: seq<Event>, outside: Outside, reading: real, from: nat)
    ensures Elapsed(a + b, outside, reading, from)
         == Elapsed(a, outside, reading, from) + Elapsed(b, outside, reading, from + |a|)
  {
    if b == [] {
      assert a + b == a;
    } else {
      var n := |b| - 1;
      ElapsedConcat(a, b[..n], outside, reading, from);
      assert (a + b)[..|a + b|-1] == a + b[..n];
    }
  }

  /** `worstPathMs`, in seconds. */
  function WorstPath(): real {
    Max(STATUS_TIMEOUT + CLICK_READ_DEADLINE + R + REALIGN_TIMEOUT,
        STATUS_TIMEOUT + CLICK_READ_DEADLINE + R + STATUS_TIMEOUT)
  }

  /** Each call keeps to its timeout. */
  ghost predicate KeepsTimeouts(outside: Outside) {
    forall e: Event, k: nat :: 0.0 <= outside.time(e, k) <= Timeout(e)
  }

  function Timeout(e: Event): real {
    match e
    case ProbeStatus => STATUS_TIMEOUT
    case ReadValues => CLICK_READ_DEADLINE
    case CallAction(_, _) => R
    case Realign => REALIGN_TIMEOUT
  }

  lemma TimeoutsMeaning(outside: Outside, k: nat)
    requires KeepsTimeouts(outside)
    ensures 0.0 <= outside.time(ProbeStatus, k) <= 3.0 && 0.0 <= outside.time(Realign, k) <= 3.0
    ensures forall values, deadline :: 0.0 <= outside.time(CallAction(values, deadline), k) <= 60.0
  {
  }

  /** The relay lasts no longer than the worst path, but for what the reading takes beyond its deadline. */
  lemma RelayTime(intention: Intention, collects: bool, outside: Outside, from: nat, read: Reading)
    requires KeepsTimeouts(outside) && read.lasted >= 0.0
    ensures 0.0 <= Elapsed(Calls(intention, collects, outside, read, from), outside, read.lasted, from)
                <= WorstPath() - CLICK_READ_DEADLINE + if Reads(intention, collects) then read.lasted else 0.0
    ensures WorstPath() == 76.0 && CLICK_READ_DEADLINE == 10.0
  {
    hide Elapsed;
    var before, action, lasted := Before(intention, collects), Action(read), read.lasted;
    var after := After(intention, outside.reply, ActionTime(intention, collects, outside, read, from));
    ElapsedOfOne(ProbeStatus, outside, lasted, from);
    ElapsedStep([ProbeStatus], ReadValues, outside, lasted, from);
    assert [ProbeStatus] + [ReadValues] == [ProbeStatus, ReadValues];
    ElapsedStep(before, action, outside, lasted, from);
    if after == [] {
      assert before + [action] + after == before + [action];
    } else {
      ElapsedStep(before + [action], after[0], outside, lasted, from);
      assert after == [after[0]];
    }
  }

  /** Calls that take all of their timeouts, and a reply that makes the longest path. */
  const SLOWEST := Outside(k => true, Some(Reply(None, None)), false, (e, k) => Timeout(e))

  /**
    The client waits for every publication whose calls keep to their timeouts exactly when the reading is bounded
    below twenty-four seconds.
  */
  lemma ClientWaitsExactlyWhen(bound: real)
    requires bound >= 0.0
    ensures bound < 24.0 <==>
      forall outside: Outside, read: Reading, from: nat :: KeepsTimeouts(outside) && 0.0 <= read.lasted <= bound ==>
        Elapsed(Calls(Publish, true, outside, read, from), outside, read.lasted, from) < CLIENT_TIMEOUT
  {
    hide Elapsed, Calls;
    forall outside: Outside, read: Reading, from: nat | KeepsTimeouts(outside) && 0.0 <= read.lasted <= bound < 24.0
      ensures Elapsed(Calls(Publish, true, outside, read, from), outside, read.lasted, from) < CLIENT_TIMEOUT
    {
      RelayTime(Publish, true, outside, from, read);
    }
    SlowestRelay(Reading(None, bound));
  }

  lemma SlowestRelay(read: Reading)
    requires read.lasted >= 0.0
    ensures KeepsTimeouts(SLOWEST)
    ensures Elapsed(Calls(Publish, true, SLOWEST, read, 0), SLOWEST, read.lasted, 0) == 66.0 + read.lasted
  {
    hide Elapsed;
    var action, lasted := Action(read), read.lasted;
    ElapsedOfOne(ProbeStatus, SLOWEST, lasted, 0);
    ElapsedStep([ProbeStatus], ReadValues, SLOWEST, lasted, 0);
    ElapsedStep([ProbeStatus] + [ReadValues], action, SLOWEST, lasted, 0);
    ElapsedStep([ProbeStatus] + [ReadValues] + [action], Realign, SLOWEST, lasted, 0);
    assert [ProbeStatus] + [ReadValues] == Before(Publish, true);
  }
}
