/** Nobody waits forever.  As long as no time passes and nobody new arrives, the
    steps run out, and they run out only when every task is done; and if the
    event loop is prompt and driver calls are bounded, each task is done within
    a time that depends on its place in the queue alone. */
module AdapterProgress {
  import opened Prelude
  import opened OpenGuards
  import opened Bindings
  import opened AdapterProtocol
  import opened AdapterSafety

  // ------------------------------------------------------------ no deadlock

  /** The opens that have not ended yet, abandoned ones included. */
  function OpensLeft(jobs: seq<Job>): nat {
    if jobs == [] then 0
    else OpensLeft(jobs[..|jobs| - 1]) + if RunningOpen(jobs[|jobs| - 1]) then 1 else 0
  }

  lemma {:induction false} OpensLeftUpdate(jobs: seq<Job>, j: nat, job: Job)
    requires j < |jobs|
    ensures OpensLeft(jobs[j := job]) ==
              OpensLeft(jobs) - (if RunningOpen(jobs[j]) then 1 else 0) + (if RunningOpen(job) then 1 else 0)
  {
    var n := |jobs| - 1;
    if j < n {
      OpensLeftUpdate(jobs[..n], j, job);
      assert jobs[j := job][..n] == jobs[..n][j := job];
    } else {
      assert jobs[j := job][..n] == jobs[..n];
    }
  }

  lemma OpensLeftAppend(jobs: seq<Job>, job: Job)
    ensures OpensLeft(jobs + [job]) == OpensLeft(jobs) + if RunningOpen(job) then 1 else 0
  {
    assert (jobs + [job])[..|jobs|] == jobs;
  }

  /** How many steps the holder's own part can still take, at most. */
  function HolderPending(s: State): nat
    requires AwaitInv(s)
  {
    if s.holder.None? then 0 else
    match s.phases[s.holder.value]
    case Holding => 7
    case AwaitOpen(_, _) => 5
    case AwaitCall(j) =>
      if s.jobs[j].end.Some? then 1 else |JobOps(s, s.jobs[j])| - |s.jobs[j].acks| + 2
    case AwaitClose(j) => if s.jobs[j].closed then 1 else 2
    case _ => 0
  }

  /** How many steps there can still be before time must pass or a task arrive. */
  ghost function Pending(s: State): nat
    requires AwaitInv(s)
  {
    8 * |s.waiters| + HolderPending(s) + OpensLeft(s.jobs)
  }

  ghost predicate AllDone(s: State) {
    forall t :: 0 <= t < |s.phases| ==> s.phases[t].Done?
  }

  lemma {:induction false} ResumeIsProgress(s: State)
    requires AwaitInv(s) && Enabled(s, Resume) && AwaitInv(ResumeHolder(s))
    ensures Pending(ResumeHolder(s)) < Pending(s)
  {
    var s' := ResumeHolder(s);
    if s'.jobs != s.jobs {
      OpensLeftAppend(s.jobs, s'.jobs[|s.jobs|]);
    }
  }

  lemma {:induction false} WakeIsProgress(s: State)
    requires AwaitInv(s) && Enabled(s, Wake) && AwaitInv(WakeHolder(s))
    ensures Pending(WakeHolder(s)) < Pending(s)
  {
    var s' := WakeHolder(s);
    if s'.jobs != s.jobs {
      OpensLeftAppend(s.jobs, s'.jobs[|s.jobs|]);
    }
  }

  lemma {:induction false} JobStepIsProgress(s: State, step: Step)
    requires Inv(s) && Enabled(s, step) && AwaitInv(Apply(s, step))
    requires step.Send? || step.EndOpen? || step.EndCall? || step.EndClose?
    ensures Pending(Apply(s, step)) < Pending(s)
  {
    var s' := Apply(s, step);
    OpensLeftUpdate(s.jobs, step.job, s'.jobs[step.job]);
    assert RunningMethod(s.jobs[step.job]) ==> Awaited(s) == Some(step.job);
  }

  lemma {:induction false} StepIsProgress(s: State, step: Step)
    requires Inv(s) && Enabled(s, step) && Internal(step)
    ensures Inv(Apply(s, step)) && Pending(Apply(s, step)) < Pending(s)
  {
    InvStep(s, step);
    match step {
      case Acquire =>
      case Resume => ResumeIsProgress(s);
      case Wake => WakeIsProgress(s);
      case TimeOut =>
      case _ => JobStepIsProgress(s, step);
    }
  }

  /** What can happen next if opens succeed and the bus accepts everything. */
  function NextStep(s: State): Step
    requires AwaitInv(s)
  {
    if s.holder.None? then Acquire
    else
      match s.phases[s.holder.value]
      case AwaitOpen(j, _) => if s.jobs[j].settled.None? then EndOpen(j, Opened) else Wake
      case AwaitCall(j) =>
        if s.jobs[j].end.Some? then Wake
        else if |s.jobs[j].acks| < |JobOps(s, s.jobs[j])| then Send(j, true)
        else EndCall(j, Returned(AllTrue(s.jobs[j].acks)))
      case AwaitClose(j) => if s.jobs[j].closed then Wake else EndClose(j)
      case _ => Resume
  }

  /** As long as some task is not done, the machine is not stuck. */
  lemma NeverStuck(s: State)
    requires Inv(s) && !AllDone(s)
    ensures Enabled(s, NextStep(s)) && Internal(NextStep(s))
  {
  }

  lemma InternalStepIsLocal(s: State, step: Step)
    requires Enabled(s, step) && Internal(step)
    ensures Apply(s, step).requests == s.requests && Apply(s, step).now == s.now
  {
  }

  /** From every reachable state, whatever the jobs do: so many internal steps
      at most can follow, and they can go on until every task is done. */
  lemma {:induction false} StepsRunOut(
    setup: Setup, start: real, before: seq<Step>, s0: State, after: seq<Step>, s: State)
    requires Reaches(setup, start, before, s0) && Run(s0, after) == Some(s)
    requires forall i :: 0 <= i < |after| ==> Internal(after[i])
    ensures Inv(s0) && Inv(s)
    ensures |after| + Pending(s) <= Pending(s0)
    ensures !AllDone(s) ==> exists step :: Internal(step) && Enabled(s, step)
  {
    InvHolds(setup, start, before, s0);
    if after != [] {
      var n := |after| - 1;
      var s' := Run(s0, after[..n]).value;
      StepsRunOut(setup, start, before, s0, after[..n], s');
      StepIsProgress(s', after[n]);
    }
    if !AllDone(s) {
      NeverStuck(s);
    }
  }

  /** In particular everybody can be done without any more time passing. */
  lemma {:induction false} EverybodyCanFinish(setup: Setup, start: real, before: seq<Step>, s0: State)
    returns (after: seq<Step>, s: State)
    requires Reaches(setup, start, before, s0)
    ensures forall i :: 0 <= i < |after| ==> Internal(after[i])
    ensures Run(s0, after) == Some(s) && AllDone(s) && s.requests == s0.requests && s.now == s0.now
  {
    InvHolds(setup, start, before, s0);
    after, s := [], s0;
    while !AllDone(s)
      invariant forall i :: 0 <= i < |after| ==> Internal(after[i])
      invariant Run(s0, after) == Some(s) && Inv(s) && s.requests == s0.requests && s.now == s0.now
      decreases if Inv(s) then Pending(s) else 0
    {
      var step := NextStep(s);
      NeverStuck(s);
      StepIsProgress(s, step);
      InternalStepIsLocal(s, step);
      var next := after + [step];
      assert next[..|next| - 1] == after;
      after, s := next, Apply(s, step);
    }
  }

  // --------------------------------------------------------- bounded waiting

  /** The machine, and when its holder last took the lock, began to wait, or let
      go. */
  datatype Watch = Watch(core: State, began: real)

  /** How long the holder's present wait may take. */
  function Allowance(s: State, limit: real): real
    requires Shaped(s) && s.holder.Some?
  {
    if s.phases[s.holder.value].AwaitOpen? then OPEN_WAIT_SECONDS else limit
  }

  /** The event loop leaves no step of its own lying while time passes, and every
      driver call and every close ends within `limit` seconds.  An open may take
      any time. */
  predicate Prompt(w: Watch, step: Step, limit: real) {
    && Enabled(w.core, step)
    && (step.Tick? && step.elapsed > 0.0 ==>
          && !Enabled(w.core, Acquire) && !Enabled(w.core, Resume) && !Enabled(w.core, Wake)
          && (w.core.holder.Some? ==> w.core.now + step.elapsed <= w.began + Allowance(w.core, limit)))
  }

  function Watched(w: Watch, step: Step): Watch
    requires Enabled(w.core, step)
  {
    Watch(Apply(w.core, step),
          if step.Acquire? || step.Resume? || step.Wake? || step.TimeOut? then w.core.now else w.began)
  }

  function PromptRun(w: Watch, steps: seq<Step>, limit: real): Option<Watch> {
    if steps == [] then Some(w) else
    var before := PromptRun(w, steps[..|steps| - 1], limit);
    var step := steps[|steps| - 1];
    if before.Some? && Prompt(before.value, step, limit) then Some(Watched(before.value, step)) else None
  }

  /** Promptness never stops the machine: every internal run is prompt. */
  lemma {:induction false} InternalRunIsPrompt(w: Watch, steps: seq<Step>, limit: real)
    requires Run(w.core, steps).Some? && forall i :: 0 <= i < |steps| ==> Internal(steps[i])
    ensures PromptRun(w, steps, limit).Some?
    ensures PromptRun(w, steps, limit).value.core == Run(w.core, steps).value
  {
    if steps != [] {
      InternalRunIsPrompt(w, steps[..|steps| - 1], limit);
    }
  }

  /** Nothing the holder does is overdue. */
  ghost predicate Punctual(w: Watch, limit: real) {
    && Inv(w.core) && w.began <= w.core.now
    && (w.core.holder.Some? ==>
          w.core.now <= w.began +
            if w.core.phases[w.core.holder.value].Holding? then 0.0 else Allowance(w.core, limit))
  }

  lemma {:induction false} StaysPunctual(w: Watch, step: Step, limit: real)
    requires Punctual(w, limit) && Prompt(w, step, limit) && limit >= 0.0
    ensures Punctual(Watched(w, step), limit)
  {
    InvStep(w.core, step);
  }

  /** How long k turns at the lock may take. */
  function Turns(k: nat, limit: real): real {
    if k == 0 then 0.0 else Turns(k - 1, limit) + OPEN_WAIT_SECONDS + limit
  }

  /** 20 seconds and the bound on driver calls, k times. */
  lemma {:induction false} TurnsAreProduct(k: nat, limit: real)
    ensures Turns(k, limit) == k as real * (20.0 + limit)
  {
    if k > 0 {
      TurnsAreProduct(k - 1, limit);
      var unit := OPEN_WAIT_SECONDS + limit;
      assert k as real * unit == (k - 1) as real * unit + unit;
    }
  }

  lemma {:induction false} TurnsGrow(k: nat, k': nat, limit: real)
    requires k <= k' && limit >= 0.0
    ensures Turns(k, limit) <= Turns(k', limit)
  {
    if k < k' {
      TurnsGrow(k, k' - 1, limit);
    }
  }

  /** Each of the first n tasks begins its turn when the one before is due, and
      begins its driver call at most one open later. */
  ghost predicate OnSchedule(w: Watch, t0: real, first: int, n: nat, limit: real) {
    var s := w.core;
    && Shaped(s) && first <= Served(s) && n <= |s.phases|
    && (Served(s) < n ==>
          var turn := t0 + Turns(Served(s) - first, limit);
          if s.holder.None? then s.now <= turn
          else if s.phases[s.holder.value].Holding? then s.now <= turn
          else if s.phases[s.holder.value].AwaitOpen? then w.began <= turn
          else w.began <= turn + OPEN_WAIT_SECONDS)
  }

  lemma {:induction false} StaysOnSchedule(w: Watch, step: Step, t0: real, first: int, n: nat, limit: real)
    requires Punctual(w, limit) && Prompt(w, step, limit) && limit >= 0.0
    requires OnSchedule(w, t0, first, n, limit)
    ensures OnSchedule(Watched(w, step), t0, first, n, limit)
  {
  }

  lemma {:induction false} PromptRunIsPunctual(w0: Watch, steps: seq<Step>, w: Watch, limit: real, n: nat)
    requires Punctual(w0, limit) && limit >= 0.0 && n <= |w0.core.phases|
    requires PromptRun(w0, steps, limit) == Some(w)
    ensures Punctual(w, limit) && OnSchedule(w, w0.core.now, Served(w0.core), n, limit)
    ensures Run(w0.core, steps) == Some(w.core)
  {
    if steps == [] {
    } else {
      var i := |steps| - 1;
      var before := PromptRun(w0, steps[..i], limit).value;
      PromptRunIsPunctual(w0, steps[..i], before, limit, n);
      StaysPunctual(before, steps[i], limit);
      StaysOnSchedule(before, steps[i], w0.core.now, Served(w0.core), n, limit);
    }
  }

  lemma PromptFromStart(setup: Setup, start: real, steps: seq<Step>, w: Watch, limit: real)
    requires limit >= 0.0 && PromptRun(Watch(Init(setup, start), start), steps, limit) == Some(w)
    ensures Punctual(w, limit) && Reaches(setup, start, steps, w.core)
  {
    var first := Watch(Init(setup, start), start);
    assert Reaches(setup, start, [], first.core);
    InvHolds(setup, start, [], first.core);
    PromptRunIsPunctual(first, steps, w, limit, 0);
  }

  lemma BusyIsNotDone(s: State)
    requires Inv(s) && (s.holder.Some? || s.waiters != [])
    ensures !AllDone(s)
  {
    var t := if s.holder.Some? then s.holder.value else s.waiters[0];
    assert !s.phases[t].Done?;
  }

  /** So the clock is never stopped for good: from everywhere a prompt run leads,
      it can go on at the same instant until every task is done, and time may
      pass. */
  lemma PromptRunsCanFinish(setup: Setup, start: real, before: seq<Step>, w0: Watch, limit: real)
    returns (after: seq<Step>, w: Watch)
    requires limit >= 0.0 && PromptRun(Watch(Init(setup, start), start), before, limit) == Some(w0)
    ensures PromptRun(w0, after, limit) == Some(w)
    ensures AllDone(w.core) && w.core.requests == w0.core.requests && w.core.now == w0.core.now
    ensures forall elapsed: real :: elapsed >= 0.0 ==> Prompt(w, Tick(elapsed), limit)
  {
    var s;
    PromptFromStart(setup, start, before, w0, limit);
    after, s := EverybodyCanFinish(setup, start, before, w0.core);
    InternalRunIsPrompt(w0, after, limit);
    w := PromptRun(w0, after, limit).value;
    PromptRunIsPunctual(w0, after, w, limit, 0);
    if w.core.holder.Some? || w.core.waiters != [] {
      BusyIsNotDone(w.core);
    }
  }

  lemma LateIsDone(w: Watch, t0: real, first: int, n: nat, limit: real, t: nat)
    requires Punctual(w, limit) && OnSchedule(w, t0, first, n, limit) && limit >= 0.0 && t < n
    ensures t < |w.core.phases|
    ensures w.core.phases[t].Done? || (t >= first && w.core.now <= t0 + Turns(t + 1 - first, limit))
  {
    var served := Served(w.core);
    if !w.core.phases[t].Done? {
      TurnsGrow(served + 1 - first, t + 1 - first, limit);
    }
  }

  lemma WaitFromHere(w0: Watch, after: seq<Step>, w: Watch, limit: real, t: nat)
    requires Punctual(w0, limit) && limit >= 0.0 && PromptRun(w0, after, limit) == Some(w)
    requires t < |w0.core.phases|
    ensures t < |w.core.phases|
    ensures var first := Served(w0.core);
            w.core.phases[t].Done? || (t >= first && w.core.now <= w0.core.now + Turns(t + 1 - first, limit))
  {
    PromptRunIsPunctual(w0, after, w, limit, |w0.core.phases|);
    LateIsDone(w, w0.core.now, Served(w0.core), |w0.core.phases|, limit, t);
  }

  /** In every prompt run, whatever opens do and whoever arrives later: a task is
      done, or not yet 20 seconds and the bound on driver calls have passed for
      each task that was ahead and for itself. */
  lemma NobodyWaitsLong(
    setup: Setup, start: real, before: seq<Step>, w0: Watch, after: seq<Step>, w: Watch, limit: real, t: nat)
    requires limit >= 0.0
    requires PromptRun(Watch(Init(setup, start), start), before, limit) == Some(w0)
    requires PromptRun(w0, after, limit) == Some(w)
    requires t < |w0.core.phases|
    ensures Reaches(setup, start, before, w0.core) && t < |w.core.phases|
    ensures var first := Served(w0.core);
            w.core.phases[t].Done? || (t >= first && w.core.now <= w0.core.now + Turns(t + 1 - first, limit))
  {
    PromptFromStart(setup, start, before, w0, limit);
    WaitFromHere(w0, after, w, limit, t);
  }
}
