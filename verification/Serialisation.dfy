/** Every interleaving has the effect of executing the calls one at a time, in
    the order in which they took the lock. */
module Serialisation {
  import opened Prelude
  import opened OpenGuards
  import opened Bindings
  import opened AdapterProtocol
  import opened AdapterSafety
  import opened Sequential

  /** How far the holder has come, given the store it started from and the time
      at which it began to run. */
  ghost predicate InFlight(s: State, store: Store, asked: real, tail: seq<Event>)
    requires AwaitInv(s)
  {
    var here := Store(s.driver, s.guard);
    if s.holder.None? then tail == [] && here == store else
    var h := s.holder.value;
    match s.phases[h]
    case AwaitOpen(_, since) =>
      && tail == [OpenStarted(h)]
      && asked == since
      && Verdict(store.guard, OPEN_COOLDOWN_SECONDS, asked) == ""
      && store.driver.None? && s.guard == AfterAsking(store.guard, OPEN_COOLDOWN_SECONDS, asked)
    case AwaitCall(j) =>
      var job := s.jobs[j];
      var calls := CallEvents(s.setup, h, job.driver, job.action, job.acks, job.end);
      if store.driver.Some? then tail == calls && here == store
      else
        && tail == [OpenStarted(h)] + calls
        && Verdict(store.guard, OPEN_COOLDOWN_SECONDS, asked) == ""
        && here == Store(Some(h), FRESH_GUARD)
    case AwaitClose(j) =>
      var job := s.jobs[j];
      && tail == [CloseStarted(h, job.driver)] + (if job.closed then [CloseEnded(h, job.driver)] else [])
      && store == Store(Some(job.driver), s.guard)
    case _ => tail == [] && here == store
  }

  ghost predicate OnTime(s: State, envs: seq<Env>, asked: real) {
    && s.start <= asked <= s.now
    && (forall i :: 0 <= i < |envs| ==> s.start <= envs[i].asked && envs[i].ended <= asked)
  }

  ghost predicate Matches(s: State, envs: seq<Env>, asked: real) {
    && AwaitInv(s)
    && |envs| == Served(s) <= |s.requests|
    && (s.holder.Some? ==> s.holder.value == |envs|)
    && LegalEnvs(s.setup, s.requests[..|envs|], envs)
    && OnTime(s, envs, asked)
    && var past := ExecuteAll(s.setup, s.requests[..|envs|], envs);
       && past.events <= s.trace
       && (forall t :: 0 <= t < |envs| ==> s.phases[t] == Done(past.outcomes[t]))
       && InFlight(s, past.store, asked, s.trace[|past.events|..])
  }

  /** The holder is done, and `env` accounts for everything it did. */
  lemma {:induction false} Settle(s: State, s': State, envs: seq<Env>, asked: real, env: Env)
    requires Matches(s, envs, asked) && s.holder.Some? && s'.holder.None?
    requires s'.setup == s.setup && s'.start == s.start && s'.now == s.now
    requires s'.requests == s.requests && s'.acquired == s.acquired
    requires LegalEnv(s.setup, s.requests[s.holder.value], env) && asked <= env.asked && env.ended <= s.now
    requires var past := ExecuteAll(s.setup, s.requests[..|envs|], envs);
             var last := Execute(s.setup, past.store, s.holder.value, s.requests[s.holder.value], env);
             last.store == Store(s'.driver, s'.guard) &&
             s'.phases == s.phases[s.holder.value := Done(last.outcome)] &&
             s'.trace == s.trace[..|past.events|] + last.events
    ensures Matches(s', envs + [env], env.ended)
  {
    var h := s.holder.value;
    ExecuteOneMore(s.setup, s.requests, envs, env);
    var past := ExecuteAll(s.setup, s.requests[..h], envs);
    var past' := ExecuteAll(s.setup, s.requests[..h + 1], envs + [env]);
    assert past.events == s.trace[..|past.events|];
    assert s'.trace == past'.events;
    assert s'.trace[|past'.events|..] == [];
  }

  /** The holder goes on: nothing that was settled changes. */
  lemma {:induction false} GoOn(s: State, s': State, envs: seq<Env>, asked: real, asked': real)
    requires Matches(s, envs, asked) && AwaitInv(s')
    requires s'.setup == s.setup && s'.start == s.start && s'.now >= s.now && Served(s') == Served(s)
    requires s'.holder.Some? ==> s'.holder.value == |envs|
    requires s.requests <= s'.requests
    requires forall t :: 0 <= t < |envs| ==> s'.phases[t] == s.phases[t]
    requires asked <= asked' <= s'.now
    requires s.trace <= s'.trace
    requires var past := ExecuteAll(s.setup, s.requests[..|envs|], envs);
             InFlight(s', past.store, asked', s'.trace[|past.events|..])
    ensures Matches(s', envs, asked')
  {
    assert s'.requests[..|envs|] == s.requests[..|envs|];
  }

  const IDLE_END := Returned(true)

  lemma {:induction false} ResumeEndMatches(s: State, envs: seq<Env>, asked: real)
    returns (envs': seq<Env>, asked': real)
    requires Matches(s, envs, asked) && Enabled(s, Resume) && AwaitInv(ResumeHolder(s))
    requires ResumeHolder(s).holder.None?
    ensures Matches(ResumeHolder(s), envs', asked')
  {
    var h := s.holder.value;
    var past := ExecuteAll(s.setup, s.requests[..|envs|], envs);
    assert s.trace == past.events by { assert s.trace == past.events + s.trace[|past.events|..]; }
    var acks := if s.requests[h].Call?
      then seq(|Program(s.setup.binding, s.requests[h].action)|, _ => true) else [];
    var env := Env(s.now, s.now, Opens(s.now), acks, IDLE_END);
    assert s.trace == s.trace[..|past.events|] + [];
    envs', asked' := envs + [env], s.now;
    Settle(s, ResumeHolder(s), envs, asked, env);
  }

  lemma {:induction false} ResumeStartMatches(s: State, envs: seq<Env>, asked: real)
    requires Matches(s, envs, asked) && Enabled(s, Resume) && AwaitInv(ResumeHolder(s))
    requires ResumeHolder(s).holder.Some?
    ensures Matches(ResumeHolder(s), envs, s.now)
  {
    var past := ExecuteAll(s.setup, s.requests[..|envs|], envs);
    assert s.trace == past.events by { assert s.trace == past.events + s.trace[|past.events|..]; }
    GoOn(s, ResumeHolder(s), envs, asked, s.now);
  }

  lemma {:induction false} OpenEndMatches(s: State, envs: seq<Env>, asked: real)
    returns (envs': seq<Env>, asked': real)
    requires Matches(s, envs, asked) && Enabled(s, Wake) && AwaitInv(WakeHolder(s))
    requires s.phases[s.holder.value].AwaitOpen?
    ensures Matches(WakeHolder(s), envs', asked')
  {
    var s', h := WakeHolder(s), s.holder.value;
    var past := ExecuteAll(s.setup, s.requests[..|envs|], envs);
    var tail := s.trace[|past.events|..];
    assert s.trace == past.events + tail;
    var settled := s.jobs[Awaited(s).value].settled.value;
    if settled.Opened? {
      envs', asked' := envs, asked;
      assert s'.trace[|past.events|..] == tail + [CallStarted(h, h, s.requests[h].action)];
      GoOn(s, s', envs, asked, asked');
    } else {
      var acks := seq(|Program(s.setup.binding, s.requests[h].action)|, _ => true);
      var env := Env(asked, s.now, Fails(settled.error), acks, IDLE_END);
      envs', asked' := envs + [env], s.now;
      Settle(s, s', envs, asked, env);
    }
  }

  lemma {:induction false} MethodEndMatches(s: State, envs: seq<Env>, asked: real)
    returns (envs': seq<Env>, asked': real)
    requires Matches(s, envs, asked) && Enabled(s, Wake) && AwaitInv(WakeHolder(s))
    requires !s.phases[s.holder.value].AwaitOpen?
    ensures Matches(WakeHolder(s), envs', asked')
  {
    var past := ExecuteAll(s.setup, s.requests[..|envs|], envs);
    assert s.trace == past.events + s.trace[|past.events|..];
    var job := s.jobs[Awaited(s).value];
    var env := if job.CallJob? then Env(asked, s.now, Opens(asked), job.acks, job.end.value)
               else Env(asked, s.now, Opens(asked), [], IDLE_END);
    envs', asked' := envs + [env], s.now;
    Settle(s, WakeHolder(s), envs, asked, env);
  }

  lemma {:induction false} TimeOutMatches(s: State, envs: seq<Env>, asked: real)
    returns (envs': seq<Env>, asked': real)
    requires Matches(s, envs, asked) && Enabled(s, TimeOut) && AwaitInv(TimeOutHolder(s))
    ensures Matches(TimeOutHolder(s), envs', asked')
  {
    var h := s.holder.value;
    var past := ExecuteAll(s.setup, s.requests[..|envs|], envs);
    assert s.trace == past.events + s.trace[|past.events|..];
    var acks := seq(|Program(s.setup.binding, s.requests[h].action)|, _ => true);
    var env := Env(asked, s.now, Expires, acks, IDLE_END);
    envs', asked' := envs + [env], s.now;
    Settle(s, TimeOutHolder(s), envs, asked, env);
  }

  /** A job that is still running is the holder's, so what it does extends the
      holder's part of the trace. */
  lemma {:induction false} CallJobMatches(s: State, s': State, j: nat, e: Event, envs: seq<Env>, asked: real)
    requires Matches(s, envs, asked) && AwaitInv(s')
    requires j < |s.jobs| == |s'.jobs| && Awaited(s) == Some(j) && s.jobs[j].CallJob? && s'.jobs[j].CallJob?
    requires s' == s.(jobs := s'.jobs, trace := s.trace + [e])
    requires var job, job' := s.jobs[j], s'.jobs[j];
             job'.driver == job.driver && job'.action == job.action &&
             |job.acks| <= |JobOps(s, job)| && |job'.acks| <= |JobOps(s, job)| &&
             CallEvents(s.setup, job.owner, job.driver, job.action, job'.acks, job'.end)
             == CallEvents(s.setup, job.owner, job.driver, job.action, job.acks, job.end) + [e]
    ensures Matches(s', envs, asked)
  {
    var past := ExecuteAll(s.setup, s.requests[..|envs|], envs);
    assert s'.trace[|past.events|..] == s.trace[|past.events|..] + [e];
    GoOn(s, s', envs, asked, asked);
  }

  lemma CallEventsGrow(setup: Setup, h: nat, job: Job, job': Job, e: Event)
    requires job.CallJob? && job'.CallJob? && job.end.None? && job.owner == h
    requires |job.acks| <= |Program(setup.binding, job.action)|
    requires
      || (exists end :: job' == job.(end := Some(end)) && e == CallEnded(h, job.driver, end))
      || (exists ack :: job' == job.(acks := job.acks + [ack]) && |job.acks| < |Program(setup.binding, job.action)| &&
                        e == BusSent(h, job.driver, Program(setup.binding, job.action)[|job.acks|], ack))
    ensures CallEvents(setup, h, job.driver, job.action, job'.acks, job'.end)
         == CallEvents(setup, h, job.driver, job.action, job.acks, job.end) + [e]
  {
  }

  lemma {:induction false} SendMatches(s: State, step: Step, envs: seq<Env>, asked: real)
    requires Matches(s, envs, asked) && Enabled(s, step) && AwaitInv(Apply(s, step)) && step.Send?
    requires Awaited(s) == Some(step.job)
    ensures Matches(Apply(s, step), envs, asked)
  {
    var s' := Apply(s, step);
    var job, e := s.jobs[step.job], s'.trace[|s.trace|];
    CallEventsGrow(s.setup, job.owner, job, s'.jobs[step.job], e);
    CallJobMatches(s, s', step.job, e, envs, asked);
  }

  lemma {:induction false} EndCallMatches(s: State, step: Step, envs: seq<Env>, asked: real)
    requires Matches(s, envs, asked) && Enabled(s, step) && AwaitInv(Apply(s, step)) && step.EndCall?
    requires Awaited(s) == Some(step.job)
    ensures Matches(Apply(s, step), envs, asked)
  {
    var s' := Apply(s, step);
    var job, e := s.jobs[step.job], s'.trace[|s.trace|];
    CallEventsGrow(s.setup, job.owner, job, s'.jobs[step.job], e);
    CallJobMatches(s, s', step.job, e, envs, asked);
  }

  lemma {:induction false} CloseJobMatches(s: State, step: Step, envs: seq<Env>, asked: real)
    requires Matches(s, envs, asked) && Enabled(s, step) && AwaitInv(Apply(s, step)) && step.EndClose?
    requires Awaited(s) == Some(step.job)
    ensures Matches(Apply(s, step), envs, asked)
  {
    var s' := Apply(s, step);
    var past := ExecuteAll(s.setup, s.requests[..|envs|], envs);
    assert s'.trace[|past.events|..] == s.trace[|past.events|..] + [s'.trace[|s.trace|]];
    GoOn(s, s', envs, asked, asked);
  }

  lemma {:induction false} QuietMatches(s: State, step: Step, envs: seq<Env>, asked: real)
    requires Matches(s, envs, asked) && Enabled(s, step) && AwaitInv(Apply(s, step))
    requires s.waiters != [] ==> s.waiters[0] == |s.acquired|
    requires step.Tick? || step.Arrive? || step.Acquire? || step.EndOpen?
    ensures Matches(Apply(s, step), envs, asked)
  {
    var s' := Apply(s, step);
    assert s'.trace == s.trace;
    GoOn(s, s', envs, asked, asked);
  }

  lemma {:induction false} StepMatches(s: State, step: Step, envs: seq<Env>, asked: real)
    returns (envs': seq<Env>, asked': real)
    requires Inv(s) && Matches(s, envs, asked) && Enabled(s, step)
    ensures Matches(Apply(s, step), envs', asked')
  {
    AwaitStep(s, step);
    envs', asked' := envs, asked;
    assert (step.Send? || step.EndCall? || step.EndClose?) ==> RunningMethod(s.jobs[step.job]);
    match step {
      case Resume =>
        if ResumeHolder(s).holder.None? {
          envs', asked' := ResumeEndMatches(s, envs, asked);
        } else {
          ResumeStartMatches(s, envs, asked);
          asked' := s.now;
        }
      case Wake =>
        if s.phases[s.holder.value].AwaitOpen? {
          envs', asked' := OpenEndMatches(s, envs, asked);
        } else {
          envs', asked' := MethodEndMatches(s, envs, asked);
        }
      case TimeOut => envs', asked' := TimeOutMatches(s, envs, asked);
      case Send(_, _) => SendMatches(s, step, envs, asked);
      case EndCall(_, _) => EndCallMatches(s, step, envs, asked);
      case EndClose(_) => CloseJobMatches(s, step, envs, asked);
      case _ => QuietMatches(s, step, envs, asked);
    }
  }

  /** Every run is explained by a sequential execution of the requests in the
      order in which the lock was taken: same outcomes, same trace of driver
      calls, same stored driver and guard.  What is left over of the trace is
      the holder's own unfinished execution. */
  lemma {:induction false} RunIsSerialisable(setup: Setup, start: real, steps: seq<Step>, s: State)
    returns (envs: seq<Env>, asked: real)
    requires Reaches(setup, start, steps, s)
    ensures Matches(s, envs, asked)
  {
    if steps == [] {
      envs, asked := [], start;
    } else {
      var n := |steps| - 1;
      var before := Run(Init(setup, start), steps[..n]).value;
      InvHolds(setup, start, steps[..n], before);
      envs, asked := RunIsSerialisable(setup, start, steps[..n], before);
      envs, asked := StepMatches(before, steps[n], envs, asked);
    }
  }

  /** In particular, when nobody holds the lock nothing is left over. */
  lemma IdleRunIsSequential(setup: Setup, start: real, steps: seq<Step>, s: State)
    returns (envs: seq<Env>)
    requires Reaches(setup, start, steps, s) && s.holder.None?
    ensures |envs| == |s.acquired| <= |s.requests|
    ensures LegalEnvs(setup, s.requests[..|envs|], envs)
    ensures forall i :: 0 <= i < |envs| ==> start <= envs[i].asked && envs[i].ended <= s.now
    ensures var past := ExecuteAll(setup, s.requests[..|envs|], envs);
            s.trace == past.events && Store(s.driver, s.guard) == past.store &&
            forall t :: 0 <= t < |envs| ==> s.phases[t] == Done(past.outcomes[t])
  {
    var asked;
    envs, asked := RunIsSerialisable(setup, start, steps, s);
    InvHolds(setup, start, steps, s);
    var past := ExecuteAll(setup, s.requests[..|envs|], envs);
    assert s.trace == past.events + s.trace[|past.events|..];
  }
}
