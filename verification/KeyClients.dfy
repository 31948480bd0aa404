/** Keys sent through the daemon: two HTTP requests with a pause in between
    (backend.py, CecBackend.async_send_key over DaemonBackend), beside whatever
    else the daemon's callers do. */
module KeyClients {
  import opened Prelude
  import opened OpenGuards
  import opened Bindings
  import opened AdapterProtocol
  import opened AdapterSafety
  import opened Sequential
  import opened Serialisation
  import opened KeyPresses

  const KEY_HOLD_SECONDS: real := 0.2

  /** The messages these tasks have put on the bus. */
  function Sent(trace: seq<Event>, tasks: set<nat>): seq<Event> {
    if trace == [] then [] else
    var last := trace[|trace| - 1];
    Sent(trace[..|trace| - 1], tasks) + (if last.BusSent? && last.task in tasks then [last] else [])
  }

  lemma {:induction false} SentConcat(a: seq<Event>, b: seq<Event>, tasks: set<nat>)
    ensures Sent(a + b, tasks) == Sent(a, tasks) + Sent(b, tasks)
  {
    if b == [] {
      assert a + b == a;
    } else {
      var n := |b| - 1;
      SentConcat(a, b[..n], tasks);
      assert (a + b)[..|a| + n] == a + b[..n];
    }
  }

  lemma {:induction false} SentNone(trace: seq<Event>, tasks: set<nat>)
    requires forall e :: e in trace ==> e.BusSent? ==> e.task !in tasks
    ensures Sent(trace, tasks) == []
  {
    if trace != [] {
      SentNone(trace[..|trace| - 1], tasks);
    }
  }

  lemma {:induction false} SentAll(trace: seq<Event>, tasks: set<nat>)
    requires forall e :: e in trace ==> e.BusSent? && e.task in tasks
    ensures Sent(trace, tasks) == trace
  {
    if trace != [] {
      SentAll(trace[..|trace| - 1], tasks);
    }
  }

  function OpsOf(setup: Setup, request: Request): seq<BusOp> {
    if request.Call? then Program(setup.binding, request.action) else []
  }

  /** `events` are these messages of task t, in program order. */
  ghost predicate SendsProgram(setup: Setup, t: nat, request: Request, events: seq<Event>, d: nat, acks: seq<bool>) {
    |acks| <= |OpsOf(setup, request)| && events == SendEvents(t, d, OpsOf(setup, request), acks)
  }

  lemma CallSends(setup: Setup, t: nat, d: nat, m: Method, acks: seq<bool>, end: Option<CallEnd>)
    requires |acks| <= |Program(setup.binding, m)|
    ensures Sent(CallEvents(setup, t, d, m, acks, end), {t}) == SendEvents(t, d, Program(setup.binding, m), acks)
  {
    var sends := SendEvents(t, d, Program(setup.binding, m), acks);
    var first: seq<Event> := [CallStarted(t, d, m)];
    var last: seq<Event> := if end.Some? then [CallEnded(t, d, end.value)] else [];
    assert CallEvents(setup, t, d, m, acks, end) == first + sends + last;
    SentAll(sends, {t});
    SentNone(last, {t});
    SentNone(first, {t});
    SentConcat(first, sends, {t});
    SentConcat(first + sends, last, {t});
  }

  /** Only an execution that calls a driver method sends anything. */
  lemma ReachesTheBus(setup: Setup, store: Store, t: nat, request: Request, env: Env)
    requires LegalEnv(setup, request, env)
    ensures var ran := Execute(setup, store, t, request, env);
            if ran.outcome.Answered? || ran.outcome.CallRaised? then
              && request.Call? && ran.outcome == OutcomeOf(env.end)
              && ran.events ==
                   if store.driver.Some? then
                     CallEvents(setup, t, store.driver.value, request.action, env.acks, Some(env.end))
                   else [OpenStarted(t)] + CallEvents(setup, t, t, request.action, env.acks, Some(env.end))
            else forall e :: e in ran.events ==> !e.BusSent?
  {
  }

  /** One execution sends a prefix of its program, all of it if it is answered. */
  lemma ExecutionSends(setup: Setup, store: Store, t: nat, request: Request, env: Env)
    returns (d: nat, acks: seq<bool>)
    requires LegalEnv(setup, request, env)
    ensures var ran := Execute(setup, store, t, request, env);
            SendsProgram(setup, t, request, Sent(ran.events, {t}), d, acks) &&
            (ran.outcome.Answered? ==> |acks| == |OpsOf(setup, request)| && ran.outcome.ok == AllTrue(acks))
  {
    var ran := Execute(setup, store, t, request, env);
    ReachesTheBus(setup, store, t, request, env);
    d, acks := if store.driver.Some? then store.driver.value else t, [];
    if ran.outcome.Answered? || ran.outcome.CallRaised? {
      acks := env.acks;
      CallSends(setup, t, d, request.action, env.acks, Some(env.end));
      var calls := CallEvents(setup, t, d, request.action, env.acks, Some(env.end));
      SentNone([OpenStarted(t)], {t});
      SentConcat([OpenStarted(t)], calls, {t});
    } else {
      SentNone(ran.events, {t});
    }
  }

  lemma ExecutionIsOwn(setup: Setup, store: Store, t: nat, request: Request, env: Env, tasks: set<nat>)
    requires LegalEnv(setup, request, env) && t !in tasks
    ensures Sent(Execute(setup, store, t, request, env).events, tasks) == []
  {
    SentNone(Execute(setup, store, t, request, env).events, tasks);
  }

  ghost predicate SentInPast(setup: Setup, requests: seq<Request>, past: Past, t: nat, d: nat, acks: seq<bool>) {
    && |past.outcomes| == |requests|
    && if t < |requests| then
         SendsProgram(setup, t, requests[t], Sent(past.events, {t}), d, acks) &&
         (past.outcomes[t].Answered? ==>
            |acks| == |OpsOf(setup, requests[t])| && past.outcomes[t].ok == AllTrue(acks))
       else Sent(past.events, {t}) == []
  }

  lemma {:induction false} ExecutionsSend(setup: Setup, requests: seq<Request>, envs: seq<Env>, t: nat)
    returns (d: nat, acks: seq<bool>)
    requires LegalEnvs(setup, requests, envs)
    ensures SentInPast(setup, requests, ExecuteAll(setup, requests, envs), t, d, acks)
  {
    d, acks := 0, [];
    if requests != [] {
      var n := |requests| - 1;
      var past := ExecuteAll(setup, requests[..n], envs[..n]);
      var ran := Execute(setup, past.store, n, requests[n], envs[n]);
      d, acks := ExecutionsSend(setup, requests[..n], envs[..n], t);
      SentConcat(past.events, ran.events, {t});
      assert ExecuteAll(setup, requests, envs) ==
        Past(ran.store, past.outcomes + [ran.outcome], past.events + ran.events);
      if t == n {
        d, acks := ExecutionSends(setup, past.store, n, requests[n], envs[n]);
      } else {
        ExecutionIsOwn(setup, past.store, n, requests[n], envs[n], {t});
      }
    }
  }

  /** What is left of the trace beyond the finished executions is the holder's. */
  lemma TailIsHolders(s: State, store: Store, asked: real, tail: seq<Event>, t: nat)
    requires AwaitInv(s) && InFlight(s, store, asked, tail) && s.holder != Some(t)
    ensures Sent(tail, {t}) == []
  {
    SentNone(tail, {t});
  }

  /** A task that does not hold the lock is done exactly if it was served. */
  lemma DoneIffServed(setup: Setup, start: real, steps: seq<Step>, s: State, t: nat)
    requires Reaches(setup, start, steps, s) && s.holder != Some(t)
    ensures |s.phases| == |s.requests| && s.setup == setup
    ensures t < Served(s) <==> t < |s.phases| && s.phases[t].Done?
  {
    InvHolds(setup, start, steps, s);
  }

  /** What a finished task has sent, and that a task nobody has served has sent
      nothing. */
  lemma TaskSends(setup: Setup, start: real, steps: seq<Step>, s: State, t: nat)
    returns (d: nat, acks: seq<bool>)
    requires Reaches(setup, start, steps, s) && s.holder != Some(t)
    ensures |s.phases| == |s.requests|
    ensures t < |s.phases| && s.phases[t].Done? ==>
              SendsProgram(setup, t, s.requests[t], Sent(s.trace, {t}), d, acks) &&
              (s.phases[t].outcome.Answered? ==>
                 |acks| == |OpsOf(setup, s.requests[t])| && s.phases[t].outcome.ok == AllTrue(acks))
    ensures t >= |s.phases| || !s.phases[t].Done? ==> Sent(s.trace, {t}) == []
  {
    DoneIffServed(setup, start, steps, s, t);
    var envs, asked := RunIsSerialisable(setup, start, steps, s);
    var requests := s.requests[..|envs|];
    var past := ExecuteAll(setup, requests, envs);
    var tail := s.trace[|past.events|..];
    d, acks := ExecutionsSend(setup, requests, envs, t);
    assert s.trace == past.events + tail;
    SentConcat(past.events, tail, {t});
    TailIsHolders(s, past.store, asked, tail, t);
  }

  function OpsSent(events: seq<Event>): (ops: seq<BusOp>)
    requires forall e :: e in events ==> e.BusSent?
    ensures |ops| == |events| && forall i :: 0 <= i < |ops| ==> ops[i] == events[i].op
  {
    seq(|events|, i requires 0 <= i < |events| => events[i].op)
  }

  lemma {:induction false} SentIsSent(trace: seq<Event>, tasks: set<nat>)
    ensures forall e :: e in Sent(trace, tasks) ==> e.BusSent?
  {
    if trace != [] {
      SentIsSent(trace[..|trace| - 1], tasks);
    }
  }

  lemma AnsweredSendsAll(setup: Setup, start: real, steps: seq<Step>, s: State, t: nat)
    requires Reaches(setup, start, steps, s)
    requires t < |s.requests| == |s.phases| && s.phases[t].Done? && s.phases[t].outcome.Answered?
    requires forall e :: e in Sent(s.trace, {t}) ==> e.BusSent?
    ensures s.requests[t].Call? && OpsSent(Sent(s.trace, {t})) == Program(setup.binding, s.requests[t].action)
  {
    InvHolds(setup, start, steps, s);
    var d, acks := TaskSends(setup, start, steps, s, t);
  }

  /** Whatever else goes on: what an answered task put on the bus tells what it
      was asked to do, up to the two ways of putting a device in standby with
      python-cec. */
  lemma TrafficTellsRequest(setup: Setup, start: real, steps: seq<Step>, s: State, t: nat, t': nat)
    requires Reaches(setup, start, steps, s)
    requires t < |s.requests| == |s.phases| && s.phases[t].Done? && s.phases[t].outcome.Answered?
    requires t' < |s.requests| && s.phases[t'].Done? && s.phases[t'].outcome.Answered?
    ensures forall e :: e in Sent(s.trace, {t}) + Sent(s.trace, {t'}) ==> e.BusSent?
    ensures s.requests[t].Call? && s.requests[t'].Call?
    ensures var m, m' := s.requests[t].action, s.requests[t'].action;
            OpsSent(Sent(s.trace, {t})) == OpsSent(Sent(s.trace, {t'})) <==>
              m == m' || (setup.binding.PythonCec? && (SameStandby(m, m') || SameStandby(m', m)))
  {
    SentIsSent(s.trace, {t});
    SentIsSent(s.trace, {t'});
    AnsweredSendsAll(setup, start, steps, s, t);
    AnsweredSendsAll(setup, start, steps, s, t');
    MessagesTellMethod(setup.binding, s.requests[t].action, s.requests[t'].action);
  }

  // ------------------------------------------------------------------ clients

  /** Where one `async_send_key` stands: its press is under way, was accepted
      and is held, its release is under way, or it is over. */
  datatype Stage =
    | Pressing(press: nat)
    | Held(press: nat, since: real)
    | Releasing(press: nat, release: nat)
    | Over(press: nat, lastly: Option<nat>)

  /** `held`: how long the key was held before its release was requested. */
  datatype KeyClient = KeyClient(destination: int, key: byte, stage: Stage, held: real)

  datatype World = World(core: State, clients: seq<KeyClient>)

  datatype WorldStep =
    | Core(step: Step)
    | StartKey(destination: int, key: byte)
    | PressAnswered(client: nat)
    | HoldOver(client: nat)
    | ReleaseOver(client: nat)
    | GiveUp(client: nat)             // the press failed, or the request timed out

  function PressRequest(c: KeyClient): Request {
    Call(Transmit(c.destination, OPCODE_USER_CONTROL_PRESSED, [c.key]))
  }

  function ReleaseRequest(c: KeyClient): Request {
    Call(Transmit(c.destination, OPCODE_USER_CONTROL_RELEASE, []))
  }

  predicate WorldEnabled(w: World, step: WorldStep) {
    match step
    case Core(step) => Enabled(w.core, step)
    case StartKey(_, _) => Shaped(w.core)
    case PressAnswered(c) =>
      c < |w.clients| && w.clients[c].stage.Pressing? &&
      w.clients[c].stage.press < |w.core.phases| &&
      w.core.phases[w.clients[c].stage.press] == Done(Answered(true))
    case HoldOver(c) =>
      Shaped(w.core) && c < |w.clients| && w.clients[c].stage.Held? &&
      w.core.now >= w.clients[c].stage.since + KEY_HOLD_SECONDS
    case ReleaseOver(c) => c < |w.clients| && w.clients[c].stage.Releasing?
    case GiveUp(c) => c < |w.clients| && w.clients[c].stage.Pressing?
  }

  function WithStage(w: World, c: nat, stage: Stage): World
    requires c < |w.clients|
  {
    w.(clients := w.clients[c := w.clients[c].(stage := stage)])
  }

  function WorldApply(w: World, step: WorldStep): World
    requires WorldEnabled(w, step)
  {
    match step
    case Core(step) => w.(core := Apply(w.core, step))
    case StartKey(destination, key) =>
      var c := KeyClient(destination, key, Pressing(|w.core.requests|), 0.0);
      World(Apply(w.core, Arrive(PressRequest(c))), w.clients + [c])
    case PressAnswered(c) =>
      WithStage(w, c, Held(w.clients[c].stage.press, w.core.now))
    case HoldOver(c) =>
      var stage := Releasing(w.clients[c].stage.press, |w.core.requests|);
      var held := w.core.now - w.clients[c].stage.since;
      World(Apply(w.core, Arrive(ReleaseRequest(w.clients[c]))),
            w.clients[c := w.clients[c].(stage := stage, held := held)])
    case ReleaseOver(c) =>
      WithStage(w, c, Over(w.clients[c].stage.press, Some(w.clients[c].stage.release)))
    case GiveUp(c) =>
      WithStage(w, c, Over(w.clients[c].stage.press, None))
  }

  function WorldRun(w: World, steps: seq<WorldStep>): Option<World> {
    if steps == [] then Some(w) else
    var before := WorldRun(w, steps[..|steps| - 1]);
    var step := steps[|steps| - 1];
    if before.Some? && WorldEnabled(before.value, step) then Some(WorldApply(before.value, step)) else None
  }

  function ReleaseOf(stage: Stage): Option<nat> {
    match stage
    case Releasing(_, r) => Some(r)
    case Over(_, r) => r
    case _ => None
  }

  /** The client's tasks are its own two requests, the release after the press
      and only once the press was accepted. */
  ghost predicate ClientInv(s: State, c: KeyClient) {
    && |s.requests| == |s.phases|
    && c.stage.press < |s.requests| && s.requests[c.stage.press] == PressRequest(c)
    && (c.stage.Held? || ReleaseOf(c.stage).Some? ==> s.phases[c.stage.press] == Done(Answered(true)))
    && (ReleaseOf(c.stage).Some? ==>
          var r := ReleaseOf(c.stage).value;
          c.held >= KEY_HOLD_SECONDS && c.stage.press < r < |s.requests| && s.requests[r] == ReleaseRequest(c) &&
          Sent(s.trace, {c.stage.press, r}) == Sent(s.trace, {c.stage.press}) + Sent(s.trace, {r}))
  }

  /** What is done stays done, and only a task that is not done sends. */
  ghost predicate SendsForOthers(s: State, s': State) {
    && s.requests <= s'.requests && |s'.requests| == |s'.phases|
    && (forall t :: 0 <= t < |s.phases| && s.phases[t].Done? ==> t < |s'.phases| && s'.phases[t] == s.phases[t])
    && s.trace <= s'.trace && |s'.trace| <= |s.trace| + 1
    && (|s'.trace| > |s.trace| && s'.trace[|s.trace|].BusSent? ==>
          s'.trace[|s.trace|].task < |s.phases| && !s.phases[s'.trace[|s.trace|].task].Done?)
  }

  lemma {:induction false} CoreStepSends(s: State, step: Step)
    requires Inv(s) && Enabled(s, step)
    ensures SendsForOthers(s, Apply(s, step))
  {
    assert (step.Send? || step.EndCall? || step.EndClose?) ==> RunningMethod(s.jobs[step.job]);
  }

  lemma {:induction false} ClientStep(s: State, s': State, c: KeyClient)
    requires ClientInv(s, c) && SendsForOthers(s, s')
    ensures ClientInv(s', c)
  {
    if ReleaseOf(c.stage).Some? && s'.trace != s.trace {
      var p, r := c.stage.press, ReleaseOf(c.stage).value;
      var e := [s'.trace[|s.trace|]];
      assert s'.trace == s.trace + e;
      SentConcat(s.trace, e, {p, r});
      SentConcat(s.trace, e, {p});
      SentConcat(s.trace, e, {r});
      SentNone(e, {p});
      assert Sent(e, {p, r}) == Sent(e, {r});
    }
  }

  ghost predicate WorldInv(setup: Setup, start: real, w: World) {
    && (exists steps :: Reaches(setup, start, steps, w.core))
    && forall c :: 0 <= c < |w.clients| ==> ClientInv(w.core, w.clients[c])
  }

  lemma {:induction false} ReachesOn(setup: Setup, start: real, s: State, step: Step)
    requires (exists steps :: Reaches(setup, start, steps, s)) && Enabled(s, step)
    ensures exists steps :: Reaches(setup, start, steps, Apply(s, step))
    ensures Inv(s)
  {
    var steps :| Reaches(setup, start, steps, s);
    InvHolds(setup, start, steps, s);
    assert (steps + [step])[..|steps|] == steps;
    assert Reaches(setup, start, steps + [step], Apply(s, step));
  }

  /** A step of the core, as all clients see it. */
  lemma {:induction false} WorldCore(setup: Setup, start: real, w: World, step: Step)
    requires WorldInv(setup, start, w) && Enabled(w.core, step)
    ensures WorldInv(setup, start, w.(core := Apply(w.core, step)))
  {
    ReachesOn(setup, start, w.core, step);
    CoreStepSends(w.core, step);
    forall c | 0 <= c < |w.clients| ensures ClientInv(Apply(w.core, step), w.clients[c]) {
      ClientStep(w.core, Apply(w.core, step), w.clients[c]);
    }
  }

  lemma {:induction false} PairIsPress(trace: seq<Event>, p: nat, r: nat)
    requires Sent(trace, {r}) == []
    ensures Sent(trace, {p, r}) == Sent(trace, {p})
  {
    if trace != [] {
      PairIsPress(trace[..|trace| - 1], p, r);
    }
  }

  lemma {:induction false} WorldHoldOver(setup: Setup, start: real, w: World, c: nat)
    requires WorldInv(setup, start, w) && WorldEnabled(w, HoldOver(c))
    ensures WorldInv(setup, start, WorldApply(w, HoldOver(c)))
  {
    var client := w.clients[c];
    var p, r := client.stage.press, |w.core.requests|;
    WorldCore(setup, start, w, Arrive(ReleaseRequest(client)));
    var steps :| Reaches(setup, start, steps, w.core);
    InvHolds(setup, start, steps, w.core);
    var d, acks := TaskSends(setup, start, steps, w.core, r);
    assert Sent(w.core.trace, {r}) == [];
    PairIsPress(w.core.trace, p, r);
  }

  lemma {:induction false} WorldStepKeeps(setup: Setup, start: real, w: World, step: WorldStep)
    requires WorldInv(setup, start, w) && WorldEnabled(w, step)
    ensures WorldInv(setup, start, WorldApply(w, step))
  {
    match step {
      case Core(step) => WorldCore(setup, start, w, step);
      case StartKey(destination, key) =>
        WorldCore(setup, start, w, Arrive(PressRequest(KeyClient(destination, key, Pressing(0), 0.0))));
      case HoldOver(c) => WorldHoldOver(setup, start, w, c);
      case _ =>
    }
  }

  lemma {:induction false} WorldHolds(setup: Setup, start: real, steps: seq<WorldStep>, w: World)
    requires WorldRun(World(Init(setup, start), []), steps) == Some(w)
    ensures WorldInv(setup, start, w)
  {
    if steps == [] {
      assert Reaches(setup, start, [], w.core);
    } else {
      var n := |steps| - 1;
      var before := WorldRun(World(Init(setup, start), []), steps[..n]).value;
      WorldHolds(setup, start, steps[..n], before);
      WorldStepKeeps(setup, start, before, steps[n]);
    }
  }

  /** The press of a key and then its release, as far as there are answers. */
  function KeyTraffic(c: KeyClient, drivers: seq<nat>, acks: seq<bool>): seq<Event>
    requires |acks| == |drivers| <= if ReleaseOf(c.stage).Some? then 2 else 1
  {
    (if |acks| < 1 then [] else
       [BusSent(c.stage.press, drivers[0], Frame(c.destination, 0x44, [c.key]), acks[0])]) +
    (if |acks| < 2 then [] else
       [BusSent(ReleaseOf(c.stage).value, drivers[1], Frame(c.destination, 0x45, []), acks[1])])
  }

  /** The daemon has answered the release with success. */
  predicate KeySucceeded(s: State, c: KeyClient) {
    ReleaseOf(c.stage).Some? && ReleaseOf(c.stage).value < |s.phases| &&
    s.phases[ReleaseOf(c.stage).value] == Done(Answered(true))
  }

  function OwnTasks(c: KeyClient): set<nat> {
    if ReleaseOf(c.stage).Some? then {c.stage.press, ReleaseOf(c.stage).value} else {c.stage.press}
  }

  lemma TailSends(s: State, store: Store, asked: real, tail: seq<Event>) returns (d: nat, acks: seq<bool>)
    requires AwaitInv(s) && InFlight(s, store, asked, tail) && s.holder.Some?
    ensures var h := s.holder.value; SendsProgram(s.setup, h, s.requests[h], Sent(tail, {h}), d, acks)
  {
    var h := s.holder.value;
    if s.phases[h].AwaitCall? {
      var job := s.jobs[s.phases[h].job];
      d, acks := job.driver, job.acks;
      CallSends(s.setup, h, d, job.action, acks, job.end);
      var calls := CallEvents(s.setup, h, d, job.action, acks, job.end);
      SentNone([OpenStarted(h)], {h});
      SentConcat([OpenStarted(h)], calls, {h});
    } else {
      d, acks := 0, [];
      SentNone(tail, {h});
    }
  }

  lemma HolderSends(setup: Setup, start: real, steps: seq<Step>, s: State)
    returns (d: nat, acks: seq<bool>)
    requires Reaches(setup, start, steps, s) && s.holder.Some?
    ensures var h := s.holder.value;
            h < |s.requests| == |s.phases| && !s.phases[h].Done? &&
            SendsProgram(setup, h, s.requests[h], Sent(s.trace, {h}), d, acks)
  {
    InvHolds(setup, start, steps, s);
    var h := s.holder.value;
    var envs, asked := RunIsSerialisable(setup, start, steps, s);
    var past := ExecuteAll(setup, s.requests[..|envs|], envs);
    var tail := s.trace[|past.events|..];
    d, acks := ExecutionsSend(setup, s.requests[..|envs|], envs, h);
    assert s.trace == past.events + tail;
    SentConcat(past.events, tail, {h});
    d, acks := TailSends(s, past.store, asked, tail);
  }

  /** A one-frame request has sent its frame at most once; exactly once, and with
      success, if it was answered with true. */
  lemma SentFrame(setup: Setup, start: real, steps: seq<Step>, s: State, t: nat, request: Request)
    returns (d: nat, acks: seq<bool>)
    requires Reaches(setup, start, steps, s) && t < |s.requests| && s.requests[t] == request
    requires request.Call? && request.action.Transmit?
    ensures |acks| <= 1 && |s.phases| == |s.requests|
    ensures var m := request.action;
            Sent(s.trace, {t}) ==
              if acks == [] then [] else [BusSent(t, d, Frame(m.destination, m.opcode, m.params), acks[0])]
    ensures s.phases[t] == Done(Answered(true)) ==> acks == [true]
  {
    if s.holder == Some(t) {
      d, acks := HolderSends(setup, start, steps, s);
    } else {
      DoneIffServed(setup, start, steps, s, t);
      d, acks := TaskSends(setup, start, steps, s, t);
      if !s.phases[t].Done? { acks := []; }
    }
  }

  lemma TrafficOfBoth(c: KeyClient, d: nat, d': nat, releaseAcks: seq<bool>)
    requires ReleaseOf(c.stage).Some? && |releaseAcks| <= 1
    ensures var press, release := PressRequest(c).action, ReleaseRequest(c).action;
            KeyTraffic(c, [d] + (if releaseAcks == [] then [] else [d']), [true] + releaseAcks) ==
              [BusSent(c.stage.press, d, Frame(press.destination, press.opcode, press.params), true)] +
              if releaseAcks == [] then [] else
              [BusSent(ReleaseOf(c.stage).value, d',
                       Frame(release.destination, release.opcode, release.params), releaseAcks[0])]
  {
  }

  lemma ClientTraffic(setup: Setup, start: real, steps: seq<Step>, s: State, c: KeyClient)
    returns (drivers: seq<nat>, acks: seq<bool>)
    requires Reaches(setup, start, steps, s) && ClientInv(s, c)
    ensures |acks| == |drivers| <= (if ReleaseOf(c.stage).Some? then 2 else 1)
    ensures Sent(s.trace, OwnTasks(c)) == KeyTraffic(c, drivers, acks)
    ensures ReleaseOf(c.stage).Some? ==> c.stage.press < ReleaseOf(c.stage).value && acks != [] && acks[0]
    ensures KeySucceeded(s, c) ==> acks == [true, true]
  {
    var d, pressAcks := SentFrame(setup, start, steps, s, c.stage.press, PressRequest(c));
    drivers, acks := if pressAcks == [] then [] else [d], pressAcks;
    if ReleaseOf(c.stage).Some? {
      assert pressAcks == [true];
      var d', releaseAcks := SentFrame(setup, start, steps, s, ReleaseOf(c.stage).value, ReleaseRequest(c));
      drivers, acks := [d] + (if releaseAcks == [] then [] else [d']), [true] + releaseAcks;
      TrafficOfBoth(c, d, d', releaseAcks);
    }
  }

  /** Whatever else the daemon's callers do in between, the key's own part of
      the bus traffic is nothing, a press, or a press followed by its release;
      a release is sent only for a press that was accepted and 0.2 seconds after
      it, and a key that succeeded has sent both. */
  lemma DaemonKeyIsPressThenRelease(setup: Setup, start: real, steps: seq<WorldStep>, w: World, i: nat)
    returns (drivers: seq<nat>, acks: seq<bool>)
    requires WorldRun(World(Init(setup, start), []), steps) == Some(w) && i < |w.clients|
    ensures var c := w.clients[i];
            && |acks| == |drivers| <= (if ReleaseOf(c.stage).Some? then 2 else 1)
            && Sent(w.core.trace, OwnTasks(c)) == KeyTraffic(c, drivers, acks)
            && (ReleaseOf(c.stage).Some? ==> c.stage.press < ReleaseOf(c.stage).value && acks != [] && acks[0])
            && (KeySucceeded(w.core, c) ==> acks == [true, true])
            && (ReleaseOf(c.stage).Some? ==> c.held >= 0.2)
  {
    WorldHolds(setup, start, steps, w);
    assert ClientInv(w.core, w.clients[i]);
    var coreSteps :| Reaches(setup, start, coreSteps, w.core);
    drivers, acks := ClientTraffic(setup, start, coreSteps, w.core, w.clients[i]);
  }
  /** And after 0.2 seconds the release can be requested. */
  lemma HeldKeyCanBeReleased(w: World, c: nat)
    requires Shaped(w.core) && c < |w.clients| && w.clients[c].stage.Held?
    requires w.core.now == w.clients[c].stage.since + 0.2
    ensures WorldEnabled(w, HoldOver(c))
    ensures var w' := WorldApply(w, HoldOver(c));
            && w'.clients[c].held == 0.2
            && ReleaseOf(w'.clients[c].stage) == Some(|w.core.requests|)
            && w'.core.requests == w.core.requests + [Call(Transmit(w.clients[c].destination, 0x45, []))]
  {
  }
}
