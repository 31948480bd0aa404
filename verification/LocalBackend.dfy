/** `LocalBackend` (and `CecAdapter`, which lacks only the close) as the object
    it is in the source: a stored driver and a guard, updated in place.  Each
    method body is what one task does between taking and releasing the lock. */
module LocalBackends {
  import opened Prelude
  import opened OpenGuards
  import opened Bindings
  import opened AdapterProtocol
  import opened Sequential

  class LocalBackend {
    const setup: Setup
    const guard: OpenGuard
    var driver: Option<nat>
    ghost var trace: seq<Event>

    function Stored(): Store
      reads this, guard
    {
      Store(driver, guard.State())
    }

    ghost predicate Valid()
      reads this, guard
    {
      guard.Valid() && guard.cooldown == OPEN_COOLDOWN_SECONDS
    }

    /** The clock the guard reads has not been turned back. */
    ghost predicate ClockAt(now: real)
      reads this, guard
    {
      NotBefore(guard.history, now)
    }

    constructor (setup: Setup)
      ensures Valid() && fresh(guard) && Stored() == EMPTY_STORE && trace == [] && this.setup == setup
      ensures guard.history == []
    {
      this.setup := setup;
      guard := new OpenGuard(OPEN_COOLDOWN_SECONDS);
      driver := None;
      trace := [];
    }

    /** `_async_driver`: the stored driver, or one bounded attempt to open it. */
    method AsyncDriver(task: nat, env: Env) returns (r: Result<nat, Outcome>)
      requires Valid() && ClockAt(env.asked) && env.asked <= env.ended
      requires env.wait.Opens? ==> env.asked <= env.wait.at <= env.ended
      modifies this, guard
      ensures Valid() && ClockAt(env.ended)
      ensures r.Ok? ==> driver == Some(r.value)
      ensures old(driver.Some?) ==>
                r == Ok(old(driver).value) && Stored() == old(Stored()) && trace == old(trace)
      ensures old(driver.None?) ==>
                var refused := Answer(old(guard.history), OPEN_COOLDOWN_SECONDS, env.asked);
                var asked := AfterAsking(old(guard.State()), OPEN_COOLDOWN_SECONDS, env.asked);
                && refused == Verdict(old(guard.State()), OPEN_COOLDOWN_SECONDS, env.asked)
                && trace == old(trace) + (if refused != "" then [] else [OpenStarted(task)])
                && if refused != "" then r == Err(Refused(refused)) && Stored() == Store(None, asked)
                   else match env.wait
                        case Opens(_) => r == Ok(task) && Stored() == Store(Some(task), FRESH_GUARD)
                        case _ =>
                          if env.wait.Fails? && !env.wait.error.TimeoutError? then
                            r == Err(OpenFailed(env.wait.error)) && Stored() == Store(None, asked)
                          else
                            r == Err(Refused(setup.busy)) &&
                            Stored() == Store(None, GuardState(Some(env.ended), setup.busy))
    {
      if driver.Some? {
        return Ok(driver.value);
      }
      StillNotBefore(guard.history, Asked(env.asked), env.ended);
      var blocked := guard.Blocked(env.asked);
      if blocked != "" {
        return Err(Refused(blocked));
      }
      trace := trace + [OpenStarted(task)];
      if env.wait.Expires? || (env.wait.Fails? && env.wait.error.TimeoutError?) {
        StillNotBefore(guard.history, Failed(env.ended, setup.busy), env.ended);
        guard.RecordFailure(env.ended, setup.busy);
        return Err(Refused(setup.busy));
      }
      if env.wait.Fails? {
        return Err(OpenFailed(env.wait.error));
      }
      driver := Some(task);
      StillNotBefore(guard.history, Succeeded(env.wait.at), env.ended);
      guard.RecordSuccess(env.wait.at);
      return Ok(driver.value);
    }

    /** `_call`: exactly the reference execution. */
    method Call(task: nat, action: Method, env: Env) returns (outcome: Outcome)
      requires Valid() && ClockAt(env.asked) && LegalEnv(setup, AdapterProtocol.Call(action), env)
      modifies this, guard
      ensures Valid() && ClockAt(env.ended)
      ensures old(trace) <= trace
      ensures Execute(setup, old(Stored()), task, AdapterProtocol.Call(action), env)
           == Ran(Stored(), outcome, trace[|old(trace)|..])
    {
      var ready := AsyncDriver(task, env);
      if ready.Err? {
        return ready.error;
      }
      trace := trace + CallEvents(setup, task, ready.value, action, env.acks, Some(env.end));
      return OutcomeOf(env.end);
    }

    /** `async_close`: forget the driver, then close it. */
    method AsyncClose(task: nat, env: Env)
      requires Valid() && ClockAt(env.asked) && env.asked <= env.ended && LegalEnv(setup, Close, env)
      modifies this
      ensures Valid() && ClockAt(env.ended) && driver == None
      ensures old(trace) <= trace
      ensures Execute(setup, old(Stored()), task, Close, env) == Ran(Stored(), Released, trace[|old(trace)|..])
    {
      var open := driver;
      driver := None;
      if open.Some? {
        trace := trace + [CloseStarted(task, open.value), CloseEnded(task, open.value)];
      }
    }
  }
}
