/** The object behind the reader: each method is one event of the protocol. */
module ReaderObjects {
  import opened Prelude
  import opened Protocol = StatesReader

  /** The page environment: `setTimeout`, `clearTimeout` and `readStates`. */
  class Environment {
    var pending: map<nat, Alarm>
    var delays: map<nat, nat>
    var nextId: nat
    var issued: seq<Read>
    var outstanding: nat

    constructor ()
      ensures Value() == INITIAL.world
    {
      pending, delays, nextId, issued, outstanding := map[], map[], 0, [], 0;
    }

    function Value(): World
      reads this
    {
      World(pending, delays, nextId, issued, outstanding)
    }

    method SetTimeout(a: Alarm, delay: nat) returns (id: nat)
      modifies this
      ensures (Value(), id) == Protocol.SetTimeout(old(Value()), a, delay)
    {
      id := nextId;
      pending, delays, nextId := pending[id := a], delays[id := delay], nextId + 1;
    }

    method ClearTimeout(id: nat)
      modifies this
      ensures Value() == ClearTimer(old(Value()), Some(id))
    {
      pending, delays := pending - {id}, delays - {id};
    }

    method ReadStates(r: Read)
      modifies this
      ensures Value() == old(Value()).(issued := old(issued) + [r], outstanding := old(outstanding) + 1)
    {
      issued, outstanding := issued + [r], outstanding + 1;
    }
  }

  class Reader {
    const env: Environment
    var kind: Option<Kind>
    var valid: Option<Payload>
    var lastOkAt: Option<int>
    var refreshing: bool
    var loading: bool
    var inflight: bool
    var dirty: bool
    var queuedRefresh: bool
    var coalesceTimer: Option<nat>
    var retryTimer: Option<nat>
    var retryIndex: nat

    function Value(): State
      reads this, env
    {
      State(kind, valid, lastOkAt, refreshing, loading, inflight, dirty, queuedRefresh,
            coalesceTimer, retryTimer, retryIndex, env.Value())
    }

    constructor (env: Environment)
      requires env.Value() == INITIAL.world
      ensures this.env == env && Value() == INITIAL
    {
      this.env := env;
      kind, valid, lastOkAt := None, None, None;
      refreshing, loading, inflight, dirty, queuedRefresh := false, false, false, false, false;
      coalesceTimer, retryTimer, retryIndex := None, None, 0;
    }

    method ClearHandle(handle: Option<nat>)
      modifies env
      ensures env.Value() == ClearTimer(old(env.Value()), handle)
    {
      if handle.Some? {
        env.ClearTimeout(handle.value);
      }
    }

    method CancelTimers(fromRetry: bool)
      modifies this, env
      ensures Value() == Cancelled(old(Value()), fromRetry)
    {
      ClearHandle(coalesceTimer);
      coalesceTimer := None;
      ClearHandle(retryTimer);
      retryTimer := None;
      if !fromRetry {
        retryIndex := 0;
      }
    }

    method Run(refresh: bool, fromRetry: bool)
      modifies this, env
      ensures Value() == Protocol.Run(old(Value()), refresh, fromRetry)
    {
      hide Cancelled;
      CancelTimers(fromRetry);
      if inflight {
        if refresh {
          queuedRefresh := true;
        } else {
          dirty := true;
        }
        return;
      }
      inflight := true;
      loading := true;
      if refresh {
        refreshing := true;
      }
      env.ReadStates(Read(refresh, fromRetry));
    }

    method Load()
      modifies this, env
      ensures Value() == Step(old(Value()), LoadEvent)
    {
      Run(false, false);
    }

    method Trigger()
      modifies this, env
      ensures Value() == Step(old(Value()), TriggerEvent)
    {
      if coalesceTimer.Some? {
        return;
      }
      var id := env.SetTimeout(CoalesceAlarm, COALESCE_MS);
      coalesceTimer := Some(id);
    }

    method Refresh()
      modifies this, env
      ensures Value() == Step(old(Value()), RefreshEvent)
    {
      if refreshing {
        return;
      }
      refreshing := true;
      Run(true, false);
    }

    method OnVisible(now: int)
      modifies this, env
      ensures Value() == Step(old(Value()), VisibleEvent(now))
    {
      if lastOkAt.None? || now - lastOkAt.value > VISIBLE_MIN_AGE_MS {
        Trigger();
      }
    }

    /** The callback's first half: the answer is classified and stored. */
    method Store(res: Response, now: int)
      requires env.outstanding > 0
      modifies this, env
      ensures var s := old(Value());
      Value() == Received(s.(world := s.world.(outstanding := s.world.outstanding - 1)), res, now)
    {
      env.outstanding := env.outstanding - 1;
      inflight := false;
      loading := false;
      kind := Some(res.kind);
      if res.kind == Available {
        valid := res.payload;
        lastOkAt := Some(now);
      } else if res.kind == NeverSynced {
        valid := None;
      }
      if !queuedRefresh {
        refreshing := false;
      }
    }

    method ScheduleRetry(retry: bool)
      modifies this, env
      ensures Value() == ArmRetry(old(Value()), retry)
    {
      if retry && retryIndex < |RETRY_DELAYS_MS| {
        var id := env.SetTimeout(RetryAlarm, RETRY_DELAYS_MS[retryIndex]);
        retryTimer := Some(id);
        retryIndex := retryIndex + 1;
      }
    }

    /** The callback of `readStates`. */
    method Answered(data: Answer, now: int)
      requires env.outstanding > 0
      modifies this, env
      ensures Value() == Step(old(Value()), DoneEvent(data, now))
    {
      var res := ClassifyResponse(data);
      Store(res, now);
      ScheduleRetry(res.retry);
      if queuedRefresh {
        queuedRefresh := false;
        Run(true, false);
      } else if dirty {
        dirty := false;
        Trigger();
      }
    }

    /** The environment runs the closure of an armed timer. */
    method TimerFires(id: nat)
      requires id in env.pending
      modifies this, env
      ensures Value() == Step(old(Value()), TimerEvent(id))
    {
      var alarm := env.pending[id];
      env.pending, env.delays := env.pending - {id}, env.delays - {id};
      match alarm
      case CoalesceAlarm =>
        coalesceTimer := None;
        Run(false, false);
      case RetryAlarm =>
        retryTimer := None;
        Run(false, true);
    }
  }

  lemma {:induction false} PossiblePrefix(s: State, es: seq<Event>, i: nat)
    requires Possible(s, es) && i <= |es|
    ensures Possible(s, es[..i]) && (i < |es| ==> Enabled(After(s, es[..i]), es[i]))
  {
    if i < |es| {
      var front := es[..|es|-1];
      if i < |front| {
        PossiblePrefix(s, front, i);
        assert front[..i] == es[..i];
      } else {
        assert front == es[..i];
      }
    } else {
      assert es[..i] == es;
    }
  }

  /** One event is one call of the object, or of a closure it gave to the page. */
  method Handle(r: Reader, e: Event)
    requires Enabled(r.Value(), e)
    modifies r, r.env
    ensures r.Value() == Step(old(r.Value()), e)
  {
    match e
    case LoadEvent => r.Load();
    case TriggerEvent => r.Trigger();
    case RefreshEvent => r.Refresh();
    case VisibleEvent(now) => r.OnVisible(now);
    case DoneEvent(data, at) => r.Answered(data, at);
    case TimerEvent(id) => r.TimerFires(id);
  }

  /** A new object taken through any possible run of events goes through the states of the protocol. */
  method Play(r: Reader, es: seq<Event>)
    requires r.Value() == INITIAL && Possible(INITIAL, es)
    modifies r, r.env
    ensures r.Value() == After(INITIAL, es) && Inv(r.Value())
  {
    hide Step, Inv, Enabled;
    for i := 0 to |es|
      invariant Possible(INITIAL, es[..i]) && r.Value() == After(INITIAL, es[..i])
    {
      PossiblePrefix(INITIAL, es, i);
      PossiblePrefix(INITIAL, es, i + 1);
      Handle(r, es[i]);
      assert es[..i+1][..i] == es[..i];
    }
    assert es[..|es|] == es;
    EveryRunKeepsInv(es);
  }
}
