/** One call of `_run`/`_call` or `async_close`, executed alone from beginning
    to end: the reference the concurrent machine is measured against. */
module Sequential {
  import opened Prelude
  import opened OpenGuards
  import opened Bindings
  import opened AdapterProtocol

  /** What outlives a call: the fields `_driver` and `_guard`. */
  datatype Store = Store(driver: Option<nat>, guard: GuardState)

  const EMPTY_STORE := Store(None, FRESH_GUARD)

  datatype OpenWait = Opens(at: real) | Fails(error: Thrown) | Expires

  /** What the outside world does during one call: when the call asks the guard
      and when it is over, how an open ends, and how the driver method goes. */
  datatype Env = Env(asked: real, ended: real, wait: OpenWait, acks: seq<bool>, end: CallEnd)

  datatype Ran = Ran(store: Store, outcome: Outcome, events: seq<Event>)

  ghost predicate LegalEnv(setup: Setup, request: Request, env: Env) {
    && env.asked <= env.ended
    && (env.wait.Opens? ==> env.asked <= env.wait.at <= env.ended)
    && (env.wait.Expires? ==> env.ended >= env.asked + OPEN_WAIT_SECONDS)
    && (request.Call? ==> LegalEnd(Program(setup.binding, request.action), env.acks, env.end))
  }

  function SendEvents(task: nat, driver: nat, ops: seq<BusOp>, acks: seq<bool>): (events: seq<Event>)
    requires |acks| <= |ops|
    ensures |events| == |acks|
    ensures forall i :: 0 <= i < |acks| ==> events[i] == BusSent(task, driver, ops[i], acks[i])
  {
    seq(|acks|, i requires 0 <= i < |acks| => BusSent(task, driver, ops[i], acks[i]))
  }

  function CallEvents(setup: Setup, task: nat, driver: nat, m: Method, acks: seq<bool>, end: Option<CallEnd>)
    : seq<Event>
    requires |acks| <= |Program(setup.binding, m)|
  {
    [CallStarted(task, driver, m)]
    + SendEvents(task, driver, Program(setup.binding, m), acks)
    + (if end.Some? then [CallEnded(task, driver, end.value)] else [])
  }

  function OutcomeOf(end: CallEnd): Outcome {
    if end.Returned? then Answered(end.ok) else CallRaised(end.error)
  }

  /** The wait expired, or the open raised a TimeoutError. */
  function TimedOut(setup: Setup, task: nat, env: Env): Ran {
    Ran(Store(None, GuardState(Some(env.ended), setup.busy)), Refused(setup.busy), [OpenStarted(task)])
  }

  function Execute(setup: Setup, store: Store, task: nat, request: Request, env: Env): Ran
    requires LegalEnv(setup, request, env)
  {
    match request
    case Close =>
      if store.driver.None? then Ran(store, Released, [])
      else Ran(store.(driver := None), Released,
               [CloseStarted(task, store.driver.value), CloseEnded(task, store.driver.value)])
    case Call(m) =>
      if store.driver.Some? then
        Ran(store, OutcomeOf(env.end),
            CallEvents(setup, task, store.driver.value, m, env.acks, Some(env.end)))
      else
        var blocked := Verdict(store.guard, OPEN_COOLDOWN_SECONDS, env.asked);
        var guard := AfterAsking(store.guard, OPEN_COOLDOWN_SECONDS, env.asked);
        if blocked != "" then Ran(Store(None, guard), Refused(blocked), [])
        else
          match env.wait
          case Expires => TimedOut(setup, task, env)
          case Fails(error) =>
            if error.TimeoutError? then TimedOut(setup, task, env)
            else Ran(Store(None, guard), OpenFailed(error), [OpenStarted(task)])
          case Opens(_) =>
            Ran(Store(Some(task), FRESH_GUARD), OutcomeOf(env.end),
                [OpenStarted(task)] + CallEvents(setup, task, task, m, env.acks, Some(env.end)))
  }

  datatype Past = Past(store: Store, outcomes: seq<Outcome>, events: seq<Event>)

  ghost predicate LegalEnvs(setup: Setup, requests: seq<Request>, envs: seq<Env>) {
    && |requests| == |envs|
    && (forall i :: 0 <= i < |envs| ==> LegalEnv(setup, requests[i], envs[i]))
    && (forall i, j :: 0 <= i < j < |envs| ==> envs[i].ended <= envs[j].asked)
  }

  /** The requests, one after another, each begun after the one before it ended. */
  function ExecuteAll(setup: Setup, requests: seq<Request>, envs: seq<Env>): (past: Past)
    requires LegalEnvs(setup, requests, envs)
    ensures |past.outcomes| == |requests|
  {
    if requests == [] then Past(EMPTY_STORE, [], [])
    else
      var n := |requests| - 1;
      var past := ExecuteAll(setup, requests[..n], envs[..n]);
      var last := Execute(setup, past.store, n, requests[n], envs[n]);
      Past(last.store, past.outcomes + [last.outcome], past.events + last.events)
  }

  /** One more request than the environments so far account for. */
  lemma ExecuteOneMore(setup: Setup, requests: seq<Request>, envs: seq<Env>, env: Env)
    requires |envs| < |requests| && LegalEnvs(setup, requests[..|envs|], envs)
    requires LegalEnv(setup, requests[|envs|], env)
    requires forall i :: 0 <= i < |envs| ==> envs[i].ended <= env.asked
    ensures LegalEnvs(setup, requests[..|envs| + 1], envs + [env])
    ensures var past := ExecuteAll(setup, requests[..|envs|], envs);
            var last := Execute(setup, past.store, |envs|, requests[|envs|], env);
            ExecuteAll(setup, requests[..|envs| + 1], envs + [env]) ==
              Past(last.store, past.outcomes + [last.outcome], past.events + last.events)
  {
    var n := |envs|;
    assert requests[..n + 1][..n] == requests[..n] && (envs + [env])[..n] == envs;
  }
}
