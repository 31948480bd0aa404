/** One key is a press and a release.  The local transport sends both inside one
    driver call, so nothing can come between them on the bus. */
module KeyPresses {
  import opened Prelude
  import opened OpenGuards
  import opened Bindings
  import opened AdapterProtocol
  import opened AdapterSafety
  import opened Sequential
  import opened Serialisation

  /** The holder's call, as far as it has come, is the end of the trace. */
  ghost predicate CallIsLast(s: State)
    requires AwaitInv(s)
  {
    s.holder.Some? && s.phases[s.holder.value].AwaitCall? ==>
      var h := s.holder.value;
      var job := s.jobs[s.phases[h].job];
      var events := CallEvents(s.setup, h, job.driver, job.action, job.acks, job.end);
      |events| <= |s.trace| && s.trace[|s.trace| - |events|..] == events
  }

  /** If the last event is a message on the bus, its call is still running. */
  ghost predicate LastIsRunning(s: State)
    requires AwaitInv(s)
  {
    s.trace != [] && s.trace[|s.trace| - 1].BusSent? ==>
      s.holder == Some(s.trace[|s.trace| - 1].task) && s.phases[s.holder.value].AwaitCall? &&
      s.jobs[s.phases[s.holder.value].job].end.None?
  }

  /** The event at k presses a key on behalf of a `send_key` call. */
  ghost predicate Presses(s: State, k: int) {
    0 <= k < |s.trace| && s.trace[k].BusSent? && s.trace[k].task < |s.requests| &&
    var request := s.requests[s.trace[k].task];
    request.Call? && request.action.SendKey? &&
    s.trace[k].op == PressOp(s.setup.binding, request.action.destination, request.action.key)
  }

  /** What may come right behind the press at k: the release of the same key, or
      the exception that prevented it. */
  ghost predicate Releases(s: State, k: int)
    requires Presses(s, k) && k + 1 < |s.trace|
  {
    var press, next := s.trace[k], s.trace[k + 1];
    || (next.BusSent? && next.task == press.task && next.driver == press.driver &&
        next.op == ReleaseOp(s.setup.binding, s.requests[press.task].action.destination))
    || (next.CallEnded? && next.task == press.task && next.driver == press.driver && next.end.Threw?)
  }

  ghost predicate KeysAdjacent(s: State) {
    forall k :: Presses(s, k) && k + 1 < |s.trace| ==> Releases(s, k)
  }

  ghost predicate KeyInv(s: State) {
    && AwaitInv(s) && CallIsLast(s) && LastIsRunning(s) && KeysAdjacent(s)
    && forall e :: e in s.trace ==> e.task < |s.requests|
  }

  /** A step that leaves the trace alone. */
  lemma {:induction false} SameTrace(s: State, s': State)
    requires KeyInv(s) && AwaitInv(s') && s'.trace == s.trace && s'.setup == s.setup
    requires s.requests <= s'.requests
    requires CallIsLast(s') && LastIsRunning(s')
    ensures KeyInv(s')
  {
    forall k | Presses(s', k) && k + 1 < |s'.trace| ensures Releases(s', k) {
      assert s.trace[k] in s.trace;
      assert Presses(s, k);
    }
  }

  /** A step that appends one event which is allowed behind a press. */
  lemma {:induction false} OneMore(s: State, s': State, e: Event)
    requires KeyInv(s) && AwaitInv(s') && s'.trace == s.trace + [e] && s'.setup == s.setup
    requires s'.requests == s.requests && e.task < |s.requests|
    requires CallIsLast(s') && LastIsRunning(s')
    requires s.trace != [] && Presses(s', |s.trace| - 1) ==> Releases(s', |s.trace| - 1)
    ensures KeyInv(s')
  {
    forall k | Presses(s', k) && k + 1 < |s'.trace| ensures Releases(s', k) {
      if k + 1 < |s.trace| {
        assert Presses(s, k);
      }
    }
  }

  lemma {:induction false} ResumeKeys(s: State)
    requires KeyInv(s) && Enabled(s, Resume) && AwaitInv(ResumeHolder(s))
    ensures KeyInv(ResumeHolder(s))
  {
    var s' := ResumeHolder(s);
    if s'.trace == s.trace {
      SameTrace(s, s');
    } else {
      OneMore(s, s', s'.trace[|s.trace|]);
    }
  }

  lemma {:induction false} WakeKeys(s: State)
    requires KeyInv(s) && Enabled(s, Wake) && AwaitInv(WakeHolder(s))
    ensures KeyInv(WakeHolder(s))
  {
    var s' := WakeHolder(s);
    if s'.trace == s.trace {
      SameTrace(s, s');
    } else {
      OneMore(s, s', s'.trace[|s.trace|]);
    }
  }

  /** `e` is what the running call `job` does next, and leaves it as `job'`. */
  ghost predicate GoesOn(ops: seq<BusOp>, job: Job, job': Job, e: Event)
    requires job.CallJob?
  {
    || (|job.acks| < |ops| && exists ack ::
          job' == job.(acks := job.acks + [ack]) && e == BusSent(job.owner, job.driver, ops[|job.acks|], ack))
    || (exists end :: job' == job.(end := Some(end)) && LegalEnd(ops, job.acks, end) &&
          e == CallEnded(job.owner, job.driver, end))
  }

  /** If the last event pressed a key, the running call releases it next, or raises. */
  lemma {:induction false} PressIsFollowed(s: State, s': State, j: nat, e: Event)
    requires KeyInv(s) && j < |s.jobs| && Awaited(s) == Some(j) && s.jobs[j].CallJob? && s.jobs[j].end.None?
    requires s.trace != [] && s'.trace == s.trace + [e] && s'.setup == s.setup && s'.requests == s.requests
    requires j < |s'.jobs| && GoesOn(JobOps(s, s.jobs[j]), s.jobs[j], s'.jobs[j], e)
    requires Presses(s', |s.trace| - 1)
    ensures Releases(s', |s.trace| - 1)
  {
    var h, job := s.holder.value, s.jobs[j];
    var ops := JobOps(s, job);
    var events := CallEvents(s.setup, h, job.driver, job.action, job.acks, job.end);
    assert s.trace[|s.trace| - 1] == events[|events| - 1] == SendEvents(h, job.driver, ops, job.acks)[|job.acks| - 1];
    assert |job.acks| == 1;
  }

  lemma {:induction false} CallStaysLast(s: State, s': State, j: nat, e: Event)
    requires AwaitInv(s) && CallIsLast(s) && AwaitInv(s') && j < |s.jobs| == |s'.jobs|
    requires s.jobs[j].CallJob? && s'.jobs[j].CallJob?
    requires Awaited(s) == Some(j) && s' == s.(jobs := s'.jobs, trace := s.trace + [e])
    requires var job, job' := s.jobs[j], s'.jobs[j];
             job'.driver == job.driver && job'.action == job.action &&
             CallEvents(s.setup, s.holder.value, job.driver, job.action, job'.acks, job'.end)
             == CallEvents(s.setup, s.holder.value, job.driver, job.action, job.acks, job.end) + [e]
    ensures CallIsLast(s')
  {
    var job := s.jobs[j];
    var events := CallEvents(s.setup, s.holder.value, job.driver, job.action, job.acks, job.end);
    assert s'.trace[|s'.trace| - |events| - 1..] == s.trace[|s.trace| - |events|..] + [e];
  }

  /** The holder's call goes on by one event. */
  lemma {:induction false} CallGoesOn(s: State, s': State, j: nat, e: Event)
    requires KeyInv(s) && AwaitInv(s') && j < |s.jobs| == |s'.jobs| && s.jobs[j].CallJob? && s'.jobs[j].CallJob?
    requires s.jobs[j].end.None? && Awaited(s) == Some(j) && s' == s.(jobs := s'.jobs, trace := s.trace + [e])
    requires GoesOn(JobOps(s, s.jobs[j]), s.jobs[j], s'.jobs[j], e)
    ensures KeyInv(s')
  {
    var h, job, job' := s.holder.value, s.jobs[j], s'.jobs[j];
    CallEventsGrow(s.setup, h, job, job', e);
    CallStaysLast(s, s', j, e);
    if s.trace != [] && Presses(s', |s.trace| - 1) {
      PressIsFollowed(s, s', j, e);
    }
    OneMore(s, s', e);
  }

  lemma {:induction false} JobKeys(s: State, step: Step)
    requires KeyInv(s) && Enabled(s, step) && AwaitInv(Apply(s, step))
    requires (step.Send? || step.EndCall? || step.EndClose?) && Awaited(s) == Some(step.job)
    ensures KeyInv(Apply(s, step))
  {
    var s' := Apply(s, step);
    var e := s'.trace[|s.trace|];
    if step.EndClose? {
      OneMore(s, s', e);
    } else {
      CallGoesOn(s, s', step.job, e);
    }
  }

  /** The holder's call, if it is in one, is as it was. */
  ghost predicate SameCall(s: State, s': State)
    requires AwaitInv(s) && AwaitInv(s')
  {
    s'.holder.Some? && s'.phases[s'.holder.value].AwaitCall? ==>
      && s'.holder == s.holder && s'.phases[s.holder.value] == s.phases[s.holder.value]
      && s'.jobs[s'.phases[s'.holder.value].job] == s.jobs[s.phases[s.holder.value].job]
  }

  lemma SameCallIsLast(s: State, s': State)
    requires AwaitInv(s) && AwaitInv(s') && SameCall(s, s') && CallIsLast(s)
    requires s'.trace == s.trace && s'.setup == s.setup
    ensures CallIsLast(s')
  {
  }

  lemma {:induction false} QuietCallStays(s: State, step: Step)
    requires AwaitInv(s) && LastIsRunning(s) && Enabled(s, step) && AwaitInv(Apply(s, step))
    requires step.Tick? || step.Arrive? || step.Acquire? || step.TimeOut? || step.EndOpen?
    ensures var s' := Apply(s, step);
            && s'.trace == s.trace && s'.setup == s.setup && s.requests <= s'.requests
            && SameCall(s, s') && LastIsRunning(s')
  {
  }

  lemma {:induction false} QuietKeys(s: State, step: Step)
    requires KeyInv(s) && Enabled(s, step) && AwaitInv(Apply(s, step))
    requires step.Tick? || step.Arrive? || step.Acquire? || step.TimeOut? || step.EndOpen?
    ensures KeyInv(Apply(s, step))
  {
    QuietCallStays(s, step);
    SameCallIsLast(s, Apply(s, step));
    SameTrace(s, Apply(s, step));
  }

  lemma {:induction false} KeyStep(s: State, step: Step)
    requires Inv(s) && KeyInv(s) && Enabled(s, step)
    ensures KeyInv(Apply(s, step))
  {
    AwaitStep(s, step);
    assert (step.Send? || step.EndCall? || step.EndClose?) ==> RunningMethod(s.jobs[step.job]);
    match step {
      case Resume => ResumeKeys(s);
      case Wake => WakeKeys(s);
      case Send(_, _) => JobKeys(s, step);
      case EndCall(_, _) => JobKeys(s, step);
      case EndClose(_) => JobKeys(s, step);
      case _ => QuietKeys(s, step);
    }
  }

  lemma {:induction false} KeyInvHolds(setup: Setup, start: real, steps: seq<Step>, s: State)
    requires Reaches(setup, start, steps, s)
    ensures KeyInv(s)
  {
    if steps != [] {
      var n := |steps| - 1;
      var before := Run(Init(setup, start), steps[..n]).value;
      InvHolds(setup, start, steps[..n], before);
      KeyInvHolds(setup, start, steps[..n], before);
      KeyStep(before, steps[n]);
    }
  }

  /** Press and release of one key are adjacent on the bus, whatever other tasks
      do, unless the binding raised in between. */
  lemma PressAndReleaseAreAdjacent(setup: Setup, start: real, steps: seq<Step>, s: State)
    requires Reaches(setup, start, steps, s)
    ensures KeysAdjacent(s)
  {
    KeyInvHolds(setup, start, steps, s);
  }

  /** Where the events of the t-th execution lie. */
  lemma {:induction false} EventsOf(setup: Setup, requests: seq<Request>, envs: seq<Env>, t: nat)
    returns (store: Store, from: nat)
    requires LegalEnvs(setup, requests, envs) && t < |requests|
    ensures var past := ExecuteAll(setup, requests, envs);
            var ran := Execute(setup, store, t, requests[t], envs[t]);
            past.outcomes[t] == ran.outcome &&
            from + |ran.events| <= |past.events| && past.events[from..from + |ran.events|] == ran.events
  {
    var n := |requests| - 1;
    var before := ExecuteAll(setup, requests[..n], envs[..n]);
    if t == n {
      store, from := before.store, |before.events|;
    } else {
      store, from := EventsOf(setup, requests[..n], envs[..n], t);
      var ran := Execute(setup, store, t, requests[t], envs[t]);
      var past := ExecuteAll(setup, requests, envs);
      assert past.events[from..from + |ran.events|] == before.events[from..from + |ran.events|];
    }
  }

  lemma SliceOfPrefix(prefix: seq<Event>, trace: seq<Event>, from: nat, to: nat)
    requires prefix <= trace && from <= to <= |prefix|
    ensures trace[from..to] == prefix[from..to]
  {
  }

  lemma DoneIsServed(setup: Setup, start: real, steps: seq<Step>, s: State, t: nat)
    requires Reaches(setup, start, steps, s) && t < |s.phases| && s.phases[t].Done?
    ensures t < Served(s) && s.setup == setup && |s.phases| == |s.requests|
  {
    InvHolds(setup, start, steps, s);
  }

  /** A task that is done was executed as one uninterrupted block of the trace. */
  lemma ExecutionOf(setup: Setup, start: real, steps: seq<Step>, s: State, t: nat)
    returns (store: Store, env: Env, from: nat)
    requires Reaches(setup, start, steps, s)
    requires t < |s.phases| && t < |s.requests| && s.phases[t].Done?
    ensures LegalEnv(setup, s.requests[t], env)
    ensures var ran := Execute(setup, store, t, s.requests[t], env);
            s.phases[t] == Done(ran.outcome) && from + |ran.events| <= |s.trace| &&
            s.trace[from..from + |ran.events|] == ran.events
    ensures s.setup == setup && |s.phases| == |s.requests|
  {
    var envs, asked := RunIsSerialisable(setup, start, steps, s);
    DoneIsServed(setup, start, steps, s, t);
    var requests := s.requests[..|envs|];
    store, from := EventsOf(setup, requests, envs, t);
    env := envs[t];
    var past, ran := ExecuteAll(setup, requests, envs), Execute(setup, store, t, requests[t], env);
    SliceOfPrefix(past.events, s.trace, from, from + |ran.events|);
  }

  /** The key of a `send_key` call that was answered: pressed at k, released
      right behind, and the answer says whether both were accepted. */
  ghost predicate KeySent(s: State, t: nat, k: nat, ok: bool)
    requires t < |s.requests| && s.requests[t].Call? && s.requests[t].action.SendKey?
  {
    var key := s.requests[t].action;
    k + 1 < |s.trace| &&
    exists d, pressed, released ::
      s.trace[k] == BusSent(t, d, PressOp(s.setup.binding, key.destination, key.key), pressed) &&
      s.trace[k + 1] == BusSent(t, d, ReleaseOp(s.setup.binding, key.destination), released) &&
      ok == (pressed && released)
  }

  /** In an answered `send_key` execution the two messages come third and fourth
      if the driver had to be opened, second and third otherwise. */
  lemma KeyEvents(setup: Setup, store: Store, t: nat, request: Request, env: Env, ok: bool) returns (opening: nat)
    requires LegalEnv(setup, request, env) && request.Call? && request.action.SendKey?
    requires Execute(setup, store, t, request, env).outcome == Answered(ok)
    ensures var events := Execute(setup, store, t, request, env).events;
            var key := request.action;
            |env.acks| == 2 && ok == (env.acks[0] && env.acks[1]) && opening + 2 < |events| &&
            exists d ::
              events[opening + 1] == BusSent(t, d, PressOp(setup.binding, key.destination, key.key), env.acks[0]) &&
              events[opening + 2] == BusSent(t, d, ReleaseOp(setup.binding, key.destination), env.acks[1])
  {
    var key := request.action;
    var d;
    d, opening := if store.driver.Some? then store.driver.value else t, if store.driver.Some? then 0 else 1;
    var events := Execute(setup, store, t, request, env).events;
    assert events[opening + 1] == BusSent(t, d, PressOp(setup.binding, key.destination, key.key), env.acks[0]);
    assert events[opening + 2] == BusSent(t, d, ReleaseOp(setup.binding, key.destination), env.acks[1]);
  }

  /** The release is sent even when the press was refused: every answered
      `send_key` sent both. */
  lemma AnsweredKeyWasReleased(setup: Setup, start: real, steps: seq<Step>, s: State, t: nat, ok: bool)
    returns (k: nat)
    requires Reaches(setup, start, steps, s)
    requires t < |s.phases| && t < |s.requests| && s.phases[t] == Done(Answered(ok))
    requires s.requests[t].Call? && s.requests[t].action.SendKey?
    ensures KeySent(s, t, k, ok)
  {
    var store, env, from := ExecutionOf(setup, start, steps, s, t);
    var ran := Execute(setup, store, t, s.requests[t], env);
    var opening := KeyEvents(setup, store, t, s.requests[t], env, ok);
    k := from + opening + 1;
    assert s.trace[k] == ran.events[opening + 1] && s.trace[k + 1] == ran.events[opening + 2];
  }
}
