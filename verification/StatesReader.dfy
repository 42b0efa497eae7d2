/**
  The coalescing reader of the overview page (`createReader`).

  The reader owns one outstanding read at most, a dirty flag, a queued refresh, a coalescing
  timer and a bounded retry timer.  `Step` is one event of the protocol, and the theorems are about
  every run of it; `ReaderObjects` holds the object with its mutable fields, which takes these steps.
 */
module StatesReader {
  import opened Prelude

  /** Number of entries of the retry delay table. */
  const MAX_RETRIES: nat := 3
  const RETRY_DELAYS_MS: seq<nat> := [2000, 5000, 10000]
  const COALESCE_MS: nat := 500
  const VISIBLE_MIN_AGE_MS: int := 60000

  // ---------------------------------------------------------------------------------------
  // Answers of the states route
  // ---------------------------------------------------------------------------------------

  /** The equipments of an answer; the reader only stores and forwards them. */
  type Equipments = map<string, string>

  /** The object found under `result.payload`. */
  datatype Payload = Payload(available: bool, actionInProgress: bool, reasonInProgress: bool, equipments: Equipments)

  /** What the request callback receives: `payload` is None when it is absent or not an object. */
  datatype Answer = Answer(stateOk: bool, statusOk: bool, payload: Option<Payload>)

  datatype Kind = Unavailable | Available | InProgress | NeverSynced

  datatype Response = Response(kind: Kind, payload: Option<Payload>, retry: bool)

  /** The answer carries an object. */
  predicate Usable(data: Answer) { data.stateOk && data.statusOk && data.payload.Some? }

  function ClassifyResponse(data: Answer): (r: Response)
    ensures r.kind == Unavailable <==> !Usable(data)
    ensures r.kind == Available <==> Usable(data) && data.payload.value.available
    ensures r.kind == InProgress ==> data.payload.value.reasonInProgress
    ensures r.kind == NeverSynced ==> !data.payload.value.reasonInProgress
    ensures r.payload == if r.kind == Available then data.payload else None
    ensures r.retry <==> r.kind == InProgress || (r.kind == Available && r.payload.value.actionInProgress)
  {
    if !data.stateOk || !data.statusOk || data.payload.None? then Response(Unavailable, None, false)
    else
      var p := data.payload.value;
      if p.available then Response(Available, Some(p), p.actionInProgress)
      else if p.reasonInProgress then Response(InProgress, None, true)
      else Response(NeverSynced, None, false)
  }

  // ---------------------------------------------------------------------------------------
  // Abstract state and transition
  // ---------------------------------------------------------------------------------------

  /** The two closures handed to `setTimeout`. */
  datatype Alarm = CoalesceAlarm | RetryAlarm

  /** One call of `readStates`. */
  datatype Read = Read(refresh: bool, fromRetry: bool)

  /** What the page environment holds: armed timers, and the reads it was asked for. */
  datatype World = World(pending: map<nat, Alarm>, delays: map<nat, nat>, nextId: nat, issued: seq<Read>,
    outstanding: nat)

  datatype State = State(
    kind: Option<Kind>, valid: Option<Payload>, lastOkAt: Option<int>, refreshing: bool, loading: bool,
    inflight: bool, dirty: bool, queuedRefresh: bool,
    coalesceTimer: Option<nat>, retryTimer: Option<nat>, retryIndex: nat,
    world: World)

  const INITIAL := State(None, None, None, false, false, false, false, false, None, None, 0,
                         World(map[], map[], 0, [], 0))

  function SetTimeout(w: World, a: Alarm, delay: nat): (World, nat) {
    (w.(pending := w.pending[w.nextId := a], delays := w.delays[w.nextId := delay], nextId := w.nextId + 1), w.nextId)
  }

  /** `clearTimer`: nothing for a null handle. */
  function ClearTimer(w: World, handle: Option<nat>): World {
    match handle
    case None => w
    case Some(id) => w.(pending := w.pending - {id}, delays := w.delays - {id})
  }

  /** Both timers are cancelled; a run that is no retry starts the delay table again. */
  function Cancelled(s: State, fromRetry: bool): State {
    s.(world := ClearTimer(ClearTimer(s.world, s.coalesceTimer), s.retryTimer),
       coalesceTimer := None, retryTimer := None,
       retryIndex := if fromRetry then s.retryIndex else 0)
  }

  function Run(s: State, refresh: bool, fromRetry: bool): State {
    var s1 := Cancelled(s, fromRetry);
    if s1.inflight then
      if refresh then s1.(queuedRefresh := true) else s1.(dirty := true)
    else
      s1.(inflight := true, loading := true, refreshing := s1.refreshing || refresh,
          world := s1.world.(issued := s1.world.issued + [Read(refresh, fromRetry)], outstanding :=
            s1.world.outstanding + 1))
  }

  function Trigger(s: State): State {
    if s.coalesceTimer.Some? then s
    else
      var (w, id) := SetTimeout(s.world, CoalesceAlarm, COALESCE_MS);
      s.(world := w, coalesceTimer := Some(id))
  }

  function Refresh(s: State): State {
    if s.refreshing then s else Run(s.(refreshing := true), true, false)
  }

  function Visible(s: State, now: int): State {
    if s.lastOkAt.None? || now - s.lastOkAt.value > VISIBLE_MIN_AGE_MS then Trigger(s) else s
  }

  /** The assignments of the callback before the retry timer is armed. */
  function Received(s: State, res: Response, now: int): State {
    s.(inflight := false, loading := false, kind := Some(res.kind),
       valid := if res.kind == Available then res.payload else if res.kind == NeverSynced then None else s.valid,
       lastOkAt := if res.kind == Available then Some(now) else s.lastOkAt,
       refreshing := s.refreshing && s.queuedRefresh)
  }

  function ArmRetry(s: State, retry: bool): State {
    if retry && s.retryIndex < MAX_RETRIES then
      var (w, id) := SetTimeout(s.world, RetryAlarm, RETRY_DELAYS_MS[s.retryIndex]);
      s.(world := w, retryTimer := Some(id), retryIndex := s.retryIndex + 1)
    else s
  }

  function Complete(s: State, data: Answer, now: int): State
    requires s.world.outstanding > 0
  {
    var res := ClassifyResponse(data);
    var s1 := ArmRetry(Received(s.(world := s.world.(outstanding := s.world.outstanding - 1)), res, now), res.retry);
    if s1.queuedRefresh then Run(s1.(queuedRefresh := false), true, false)
    else if s1.dirty then Trigger(s1.(dirty := false))
    else s1
  }

  /** A timer fires: it leaves the environment and its closure runs. */
  function Fire(s: State, id: nat): State
    requires id in s.world.pending
  {
    var w := s.world.(pending := s.world.pending - {id}, delays := s.world.delays - {id});
    match s.world.pending[id]
    case CoalesceAlarm => Run(s.(world := w, coalesceTimer := None), false, false)
    case RetryAlarm => Run(s.(world := w, retryTimer := None), false, true)
  }

  datatype Event =
    | LoadEvent | TriggerEvent | RefreshEvent | VisibleEvent(now: int)
    | DoneEvent(data: Answer, at: int) | TimerEvent(id: nat)

  predicate External(e: Event) { e.LoadEvent? || e.TriggerEvent? || e.RefreshEvent? || e.VisibleEvent? }

  predicate Enabled(s: State, e: Event) {
    match e
    case DoneEvent(_, _) => s.world.outstanding > 0
    case TimerEvent(id) => id in s.world.pending
    case _ => true
  }

  function Step(s: State, e: Event): State
    requires Enabled(s, e)
  {
    match e
    case LoadEvent => Run(s, false, false)
    case TriggerEvent => Trigger(s)
    case RefreshEvent => Refresh(s)
    case VisibleEvent(now) => Visible(s, now)
    case DoneEvent(data, at) => Complete(s, data, at)
    case TimerEvent(id) => Fire(s, id)
  }

  /** The events can happen one after the other from `s`. */
  ghost predicate Possible(s: State, es: seq<Event>)
    decreases |es|, 0
  {
    es == [] || (Possible(s, es[..|es|-1]) && Enabled(After(s, es[..|es|-1]), es[|es|-1]))
  }

  ghost function After(s: State, es: seq<Event>): State
    requires Possible(s, es)
    decreases |es|, 1
  {
    if es == [] then s else Step(After(s, es[..|es|-1]), es[|es|-1])
  }

  // ---------------------------------------------------------------------------------------
  // What every reachable state satisfies
  // ---------------------------------------------------------------------------------------

  /** The environment holds exactly the timers the reader still has a handle on. */
  ghost predicate TimersOwned(s: State) {
    && (forall id :: id in s.world.pending <==> s.coalesceTimer == Some(id) || s.retryTimer == Some(id))
    && (s.coalesceTimer.Some? ==> s.world.pending[s.coalesceTimer.value] == CoalesceAlarm)
    && (s.retryTimer.Some? ==> s.world.pending[s.retryTimer.value] == RetryAlarm)
    && (forall id :: id in s.world.pending ==> id < s.world.nextId)
    && (s.world.delays.Keys == s.world.pending.Keys)
    && (s.coalesceTimer.Some? ==> s.world.delays[s.coalesceTimer.value] == COALESCE_MS)
    && (s.retryTimer.Some? ==>
       0 < s.retryIndex <= MAX_RETRIES && s.world.delays[s.retryTimer.value] == RETRY_DELAYS_MS[s.retryIndex - 1])
  }

  /** The read in flight is the last one asked for. */
  predicate RefreshInFlight(s: State) {
    s.inflight && s.world.issued != [] && s.world.issued[|s.world.issued| - 1].refresh
  }

  /** `wanted`: a refresh has been announced (`refreshing` set) and its read is about to be asked for. */
  ghost predicate InvBefore(s: State, wanted: bool) {
    && TimersOwned(s)
    && s.world.outstanding == (if s.inflight then 1 else 0)
    && s.loading == s.inflight
    && (s.inflight ==> s.world.issued != [] && s.retryTimer.None?)
    && (s.queuedRefresh ==> s.inflight)
    && (s.dirty ==> s.inflight || wanted)
    && (s.refreshing <==> RefreshInFlight(s) || s.queuedRefresh || wanted)
    && !(RefreshInFlight(s) && (s.queuedRefresh || wanted))
    && !(s.queuedRefresh && wanted)
    && s.retryIndex <= MAX_RETRIES
  }

  ghost predicate Inv(s: State) { InvBefore(s, false) }

  lemma RunKeepsInv(s: State, refresh: bool, fromRetry: bool)
    requires InvBefore(s, refresh)
    ensures Inv(Run(s, refresh, fromRetry))
  {
    var w := ClearTimer(ClearTimer(s.world, s.coalesceTimer), s.retryTimer);
    assert w.pending == map[];
    assert w.delays.Keys == w.pending.Keys;
  }

  lemma TriggerKeepsInv(s: State)
    requires Inv(s)
    ensures Inv(Trigger(s))
  {
  }

  lemma ArmRetryKeeps(s: State, retry: bool, wanted: bool)
    requires s.retryTimer.None? && InvBefore(s, wanted) && !s.inflight
    ensures InvBefore(ArmRetry(s, retry), wanted)
  {
  }

  lemma CompleteKeepsInv(s: State, data: Answer, now: int)
    requires Inv(s) && s.world.outstanding > 0
    ensures Inv(Complete(s, data, now))
  {
    var res := ClassifyResponse(data);
    var received := Received(s.(world := s.world.(outstanding := s.world.outstanding - 1)), res, now);
    if s.queuedRefresh {
      var s1 := received.(queuedRefresh := false);
      ArmRetryKeeps(s1, res.retry, true);
      RunKeepsInv(ArmRetry(s1, res.retry), true, false);
    } else {
      var s1 := received.(dirty := false);
      ArmRetryKeeps(s1, res.retry, false);
      TriggerKeepsInv(ArmRetry(s1, res.retry));
    }
  }

  lemma FireKeepsInv(s: State, id: nat)
    requires Inv(s) && id in s.world.pending
    ensures Inv(Fire(s, id))
  {
  }

  lemma StepKeepsInv(s: State, e: Event)
    requires Inv(s) && Enabled(s, e)
    ensures Inv(Step(s, e))
  {
    match e
    case LoadEvent => RunKeepsInv(s, false, false);
    case TriggerEvent => TriggerKeepsInv(s);
    case RefreshEvent => if !s.refreshing { RunKeepsInv(s.(refreshing := true), true, false); }
    case VisibleEvent(now) => TriggerKeepsInv(s);
    case DoneEvent(data, at) => CompleteKeepsInv(s, data, at);
    case TimerEvent(id) => FireKeepsInv(s, id);
  }

  /** Safety of every run: one read at most is outstanding, no timer outlives its handle, `refreshing` is exact. */
  lemma {:induction false} EveryRunKeepsInv(es: seq<Event>)
    requires Possible(INITIAL, es)
    ensures Inv(After(INITIAL, es))
    decreases |es|
  {
    if es != [] {
      EveryRunKeepsInv(es[..|es|-1]);
      StepKeepsInv(After(INITIAL, es[..|es|-1]), es[|es|-1]);
    }
  }

  // ---------------------------------------------------------------------------------------
  // Nothing is lost
  // ---------------------------------------------------------------------------------------

  /** The event asks for a fresh reading of the states. */
  predicate Notifies(s: State, e: Event) {
    match e
    case LoadEvent => true
    case TriggerEvent => true
    case RefreshEvent => !s.refreshing
    case VisibleEvent(now) => s.lastOkAt.None? || now - s.lastOkAt.value > VISIBLE_MIN_AGE_MS
    case _ => false
  }

  /** A new read is still owed. */
  predicate Owed(s: State) { s.coalesceTimer.Some? || s.dirty || s.queuedRefresh }

  /** A run starts a read, or leaves one owed behind the read in flight. */
  lemma RunOwes(s: State, refresh: bool, fromRetry: bool)
    ensures var t := Run(s, refresh, fromRetry);
      s.world.issued <= t.world.issued && (|s.world.issued| < |t.world.issued| || Owed(t))
  {
  }

  lemma StepOwes(s: State, e: Event)
    requires Inv(s) && Enabled(s, e)
    ensures s.world.issued <= Step(s, e).world.issued
    ensures Owed(s) || Notifies(s, e) ==> |s.world.issued| < |Step(s, e).world.issued| || Owed(Step(s, e))
  {
    hide Run;
    match e
    case LoadEvent => RunOwes(s, false, false);
    case TriggerEvent =>
    case RefreshEvent => RunOwes(s.(refreshing := true), true, false);
    case VisibleEvent(now) =>
    case DoneEvent(data, at) =>
      var res := ClassifyResponse(data);
      var received := Received(s.(world := s.world.(outstanding := s.world.outstanding - 1)), res, at);
      RunOwes(ArmRetry(received, res.retry).(queuedRefresh := false), true, false);
    case TimerEvent(id) =>
      var w := s.world.(pending := s.world.pending - {id}, delays := s.world.delays - {id});
      RunOwes(s.(world := w, coalesceTimer := None), false, false);
      RunOwes(s.(world := w, retryTimer := None), false, true);
  }

  /** Whatever happens after a notification, a read has been started since, or one is still owed. */
  lemma {:induction false} NoNotificationIsLost(es: seq<Event>, i: nat)
    requires Possible(INITIAL, es) && i < |es|
    requires Possible(INITIAL, es[..i]) && Notifies(After(INITIAL, es[..i]), es[i])
    ensures |After(INITIAL, es[..i]).world.issued| <= |After(INITIAL, es).world.issued|
    ensures |After(INITIAL, es[..i]).world.issued| < |After(INITIAL, es).world.issued| || Owed(After(INITIAL, es))
    decreases |es|
  {
    var front := es[..|es|-1];
    EveryRunKeepsInv(front);
    var s := After(INITIAL, front);
    StepOwes(s, es[|es|-1]);
    assert After(INITIAL, es) == Step(s, es[|es|-1]);
    assert |s.world.issued| <= |After(INITIAL, es).world.issued|;
    if i < |es| - 1 {
      assert front[..i] == es[..i] && front[i] == es[i];
      NoNotificationIsLost(front, i);
    } else {
      assert front == es[..i];
    }
  }

  /** Neither a timer nor an answer can happen any more. */
  predicate Quiet(s: State) { s.world.outstanding == 0 && s.world.pending == map[] }

  /** Once the page is quiet again, a read was started after every notification. */
  lemma QuietMeansDelivered(es: seq<Event>, i: nat)
    requires Possible(INITIAL, es) && i < |es| && Quiet(After(INITIAL, es))
    requires Possible(INITIAL, es[..i]) && Notifies(After(INITIAL, es[..i]), es[i])
    ensures |After(INITIAL, es[..i]).world.issued| < |After(INITIAL, es).world.issued|
  {
    NoNotificationIsLost(es, i);
    EveryRunKeepsInv(es);
  }

  // ---------------------------------------------------------------------------------------
  // Refresh requests are conserved
  // ---------------------------------------------------------------------------------------

  function Bit(b: bool): nat { if b then 1 else 0 }

  function RefreshReads(issued: seq<Read>): nat {
    if issued == [] then 0
    else RefreshReads(issued[..|issued|-1]) + Bit(issued[|issued|-1].refresh)
  }

  /** Calls of `refresh()` that were not ignored. */
  ghost function AcceptedRefreshes(es: seq<Event>): nat
    requires Possible(INITIAL, es)
  {
    if es == [] then 0
    else
      var front := es[..|es|-1];
      AcceptedRefreshes(front) + Bit(es[|es|-1].RefreshEvent? && !After(INITIAL, front).refreshing)
  }

  function RefreshBalance(s: State): nat { RefreshReads(s.world.issued) + Bit(s.queuedRefresh) }

  lemma RunBalance(s: State, refresh: bool, fromRetry: bool)
    requires refresh ==> !s.queuedRefresh
    ensures RefreshBalance(Run(s, refresh, fromRetry)) == RefreshBalance(s) + Bit(refresh)
  {
  }

  lemma StepBalance(s: State, e: Event)
    requires Inv(s) && Enabled(s, e)
    ensures RefreshBalance(Step(s, e)) == RefreshBalance(s) + Bit(e.RefreshEvent? && !s.refreshing)
  {
    hide RefreshReads, Run;
    match e
    case LoadEvent => RunBalance(s, false, false);
    case TriggerEvent =>
    case RefreshEvent => if !s.refreshing { RunBalance(s.(refreshing := true), true, false); }
    case VisibleEvent(now) =>
    case DoneEvent(data, at) =>
      var res := ClassifyResponse(data);
      var received := Received(s.(world := s.world.(outstanding := s.world.outstanding - 1)), res, at);
      var s1 := ArmRetry(received, res.retry);
      if s1.queuedRefresh { RunBalance(s1.(queuedRefresh := false), true, false); }
    case TimerEvent(id) =>
      var w := s.world.(pending := s.world.pending - {id}, delays := s.world.delays - {id});
      RunBalance(s.(world := w, coalesceTimer := None), false, false);
      RunBalance(s.(world := w, retryTimer := None), false, true);
  }

  /** The route is asked to refresh exactly once per accepted request, the queued one included. */
  lemma {:induction false} RefreshesAreConserved(es: seq<Event>)
    requires Possible(INITIAL, es)
    ensures RefreshReads(After(INITIAL, es).world.issued) + Bit(After(INITIAL, es).queuedRefresh)
      == AcceptedRefreshes(es)
    decreases |es|
  {
    if es != [] {
      var front := es[..|es|-1];
      RefreshesAreConserved(front);
      EveryRunKeepsInv(front);
      StepBalance(After(INITIAL, front), es[|es|-1]);
    }
  }

  // ---------------------------------------------------------------------------------------
  // Work is bounded
  // ---------------------------------------------------------------------------------------

  /** Decreases with every timer and every answer: owed reads first, then retries left, then what is running. */
  function Weight(s: State): int {
    16 * (Bit(s.coalesceTimer.Some?) * (if s.inflight then 3 else 1) + 2 * Bit(s.dirty) + 4 * Bit(s.queuedRefresh))
    + 4 * (MAX_RETRIES - s.retryIndex) + 2 * Bit(s.retryTimer.Some?) + Bit(s.inflight)
  }

  lemma InternalStepDecreases(s: State, e: Event)
    requires Inv(s) && Enabled(s, e) && !External(e)
    ensures 0 <= Weight(Step(s, e)) < Weight(s)
  {
    StepKeepsInv(s, e);
  }

  /** When external events stop, timers and answers stop too, within a bound known beforehand. */
  lemma {:induction false} InternalRunsAreBounded(s: State, es: seq<Event>)
    requires Inv(s) && Possible(s, es) && forall e :: e in es ==> !External(e)
    ensures Inv(After(s, es)) && |es| + Weight(After(s, es)) <= Weight(s) <= 157
    ensures |es| <= Weight(s)
    decreases |es|
  {
    if es != [] {
      var front := es[..|es|-1];
      InternalRunsAreBounded(s, front);
      InternalStepDecreases(After(s, front), es[|es|-1]);
      StepKeepsInv(After(s, front), es[|es|-1]);
    }
  }

  /** The event makes a run that does not come from the retry timer. */
  predicate NonRetryRun(s: State, e: Event)
    requires Enabled(s, e)
  {
    match e
    case LoadEvent => true
    case RefreshEvent => !s.refreshing
    case DoneEvent(_, _) => s.queuedRefresh
    case TimerEvent(id) => s.world.pending[id] == CoalesceAlarm
    case _ => false
  }

  /** Reads started by the retry timer since the last run that did not come from it. */
  ghost function RetriesSinceRun(es: seq<Event>): nat
    requires Possible(INITIAL, es)
  {
    if es == [] then 0
    else
      var front := es[..|es|-1];
      var s, e := After(INITIAL, front), es[|es|-1];
      if NonRetryRun(s, e) then 0
      else RetriesSinceRun(front) + |Step(s, e).world.issued| - |s.world.issued|
  }

  lemma RetryStep(s: State, e: Event)
    requires Inv(s) && Enabled(s, e)
    ensures var t := Step(s, e);
      if NonRetryRun(s, e) then t.retryIndex == Bit(t.retryTimer.Some?)
      else
        t.retryIndex - Bit(t.retryTimer.Some?)
        == s.retryIndex - Bit(s.retryTimer.Some?) + |t.world.issued| - |s.world.issued|
  {
  }

  /** Between two runs of another origin the retry timer starts three reads at most, whatever the answers. */
  lemma {:induction false} RetriesAreBounded(es: seq<Event>)
    requires Possible(INITIAL, es)
    ensures var s := After(INITIAL, es); RetriesSinceRun(es) + Bit(s.retryTimer.Some?) == s.retryIndex <= MAX_RETRIES
    decreases |es|
  {
    EveryRunKeepsInv(es);
    if es != [] {
      var front := es[..|es|-1];
      RetriesAreBounded(front);
      EveryRunKeepsInv(front);
      RetryStep(After(INITIAL, front), es[|es|-1]);
    }
  }

  // ---------------------------------------------------------------------------------------
  // Notifications are coalesced
  // ---------------------------------------------------------------------------------------

  ghost predicate CoalesceWaits(s: State) {
    exists id :: IsCoalesceTimer(s.world, id)
  }

  predicate IsCoalesceTimer(w: World, id: nat) {
    id in w.pending && id in w.delays && w.pending[id] == CoalesceAlarm && w.delays[id] == 500
  }

  /** A notification waits half a second; a return to the page does when the last good answer is older than a minute. */
  lemma NotificationsAreCoalesced(es: seq<Event>)
    requires Possible(INITIAL, es) && es != []
    ensures var s, t, e := After(INITIAL, es[..|es|-1]), After(INITIAL, es), es[|es|-1];
      && (e == TriggerEvent ==> CoalesceWaits(t) && t.world.issued == s.world.issued)
      && (e.VisibleEvent? ==>
         var okAt := LastStates(es[..|es|-1]).okAt;
         && (CoalesceWaits(t) <==> CoalesceWaits(s) || okAt.None? || e.now - okAt.value > 60000)
         && t.world.issued == s.world.issued)
  {
    var s, t := After(INITIAL, es[..|es|-1]), After(INITIAL, es);
    EveryRunKeepsInv(es[..|es|-1]);
    EveryRunKeepsInv(es);
    CopyIsLastStates(es[..|es|-1]);
    WaitingTimer(s);
    WaitingTimer(t);
  }

  lemma WaitingTimer(s: State)
    requires Inv(s)
    ensures CoalesceWaits(s) <==> s.coalesceTimer.Some?
  {
    if s.coalesceTimer.Some? {
      assert IsCoalesceTimer(s.world, s.coalesceTimer.value);
    }
  }

  // ---------------------------------------------------------------------------------------
  // Retries are made
  // ---------------------------------------------------------------------------------------

  /** An operation is running: the answer says so, or carries states that may change. */
  predicate SaysInProgress(data: Answer) {
    && data.stateOk && data.statusOk && data.payload.Some?
    && if data.payload.value.available then data.payload.value.actionInProgress else data.payload.value.reasonInProgress
  }

  /** A retry waits for this delay. */
  ghost predicate RetryWaits(s: State, delay: nat) {
    exists id :: id in s.world.pending && id in s.world.delays && s.world.pending[id] == RetryAlarm
      && s.world.delays[id] == delay
  }

  /**
    After an answer, unless a refresh was queued,
      a retry waits exactly when an operation is running and fewer than three
    retries were made since the last run of another origin; its delay is the next of the table.
  */
  lemma RetryIsArmed(es: seq<Event>)
    requires Possible(INITIAL, es) && es != [] && es[|es|-1].DoneEvent?
    requires !After(INITIAL, es[..|es|-1]).queuedRefresh
    ensures var s, done := After(INITIAL, es), RetriesSinceRun(es);
      && done <= 3
      && (SaysInProgress(es[|es|-1].data) && done < 3 ==> RetryWaits(s, [2000, 5000, 10000][done]))
      && (!(SaysInProgress(es[|es|-1].data) && done < 3) ==> forall delay :: !RetryWaits(s, delay))
  {
    var front, e := es[..|es|-1], es[|es|-1];
    var s, t := After(INITIAL, front), After(INITIAL, es);
    EveryRunKeepsInv(front);
    EveryRunKeepsInv(es);
    RetriesAreBounded(front);
    RetriesAreBounded(es);
    RetryStep(s, e);
    assert t == Complete(s, e.data, e.at);
    assert SaysInProgress(e.data) <==> ClassifyResponse(e.data).retry;
    assert t.retryTimer.Some? <==> SaysInProgress(e.data) && s.retryIndex < 3;
    hide Step, After, Complete;
    if t.retryTimer.Some? {
      assert t.retryTimer.value in t.world.pending && t.retryTimer.value in t.world.delays;
    }
  }

  /** When its delay is over, a waiting retry reads the states again, without a refresh. */
  lemma RetryReads(es: seq<Event>, id: nat)
    requires Possible(INITIAL, es) && id in After(INITIAL, es).world.pending
    requires After(INITIAL, es).world.pending[id] == RetryAlarm
    ensures var s := After(INITIAL, es); var t := Step(s, TimerEvent(id));
      t.world.issued == s.world.issued + [Read(false, true)] && t.world.outstanding == 1 && t.world.pending == map[]
  {
    EveryRunKeepsInv(es);
  }

  // ---------------------------------------------------------------------------------------
  // The kept copy
  // ---------------------------------------------------------------------------------------

  /** The kind of the last answer, and the copy of the states that is shown, with its time. */
  datatype Copy = Copy(kind: Option<Kind>, states: Option<Payload>, okAt: Option<int>)

  function CopyOf(s: State): Copy { Copy(s.kind, s.valid, s.lastOkAt) }

  function UpdateCopy(c: Copy, e: Event): Copy {
    match e
    case DoneEvent(data, at) =>
      var res := ClassifyResponse(data);
      if res.kind == Available then Copy(Some(Available), data.payload, Some(at))
      else if res.kind == NeverSynced then c.(kind := Some(NeverSynced), states := None)
      else c.(kind := Some(res.kind))
    case _ => c
  }

  /** The last answer that carried states, with its time, unless the house was said never synchronised since. */
  function LastStates(es: seq<Event>): Copy {
    if es == [] then Copy(None, None, None) else UpdateCopy(LastStates(es[..|es|-1]), es[|es|-1])
  }

  lemma RunKeepsCopy(s: State, refresh: bool, fromRetry: bool)
    ensures CopyOf(Run(s, refresh, fromRetry)) == CopyOf(s)
  {
  }

  lemma StepCopy(s: State, e: Event)
    requires Enabled(s, e)
    ensures CopyOf(Step(s, e)) == UpdateCopy(CopyOf(s), e)
  {
    hide Run;
    match e
    case LoadEvent => RunKeepsCopy(s, false, false);
    case TriggerEvent =>
    case RefreshEvent => RunKeepsCopy(s.(refreshing := true), true, false);
    case VisibleEvent(now) =>
    case DoneEvent(data, at) =>
      var res := ClassifyResponse(data);
      var received := Received(s.(world := s.world.(outstanding := s.world.outstanding - 1)), res, at);
      RunKeepsCopy(ArmRetry(received, res.retry).(queuedRefresh := false), true, false);
    case TimerEvent(id) =>
      var w := s.world.(pending := s.world.pending - {id}, delays := s.world.delays - {id});
      RunKeepsCopy(s.(world := w, coalesceTimer := None), false, false);
      RunKeepsCopy(s.(world := w, retryTimer := None), false, true);
  }

  /** Timers, triggers and failed readings never alter the copy of the states that is shown as stale. */
  lemma {:induction false} CopyIsLastStates(es: seq<Event>)
    requires Possible(INITIAL, es)
    ensures CopyOf(After(INITIAL, es)) == LastStates(es)
    decreases |es|
  {
    hide Step;
    if es != [] {
      CopyIsLastStates(es[..|es|-1]);
      StepCopy(After(INITIAL, es[..|es|-1]), es[|es|-1]);
    }
  }
}
