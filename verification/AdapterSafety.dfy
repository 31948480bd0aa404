/** What every step of the adapter protocol keeps: the lock is fair, and one
    driver-method job at most is running, on behalf of the lock's holder. */
module AdapterSafety {
  import opened Prelude
  import opened OpenGuards
  import opened Bindings
  import opened AdapterProtocol

  /** How many tasks have come through the lock. */
  function Served(s: State): int {
    |s.acquired| - (if s.holder.Some? then 1 else 0)
  }

  ghost predicate LockInv(s: State) {
    && Shaped(s)
    && |s.acquired| <= |s.phases|
    && (forall i :: 0 <= i < |s.acquired| ==> s.acquired[i] == i)
    && |s.waiters| == |s.phases| - |s.acquired|
    && (forall i :: 0 <= i < |s.waiters| ==> s.waiters[i] == |s.acquired| + i)
    && (forall t :: 0 <= t < |s.phases| ==> (s.phases[t].Waiting? <==> t >= |s.acquired|))
    && (forall t :: 0 <= t < |s.acquired| ==> s.phases[t].Done? || s.holder == Some(t))
    && (s.holder.Some? ==> s.holder.value == |s.acquired| - 1 && !s.phases[s.holder.value].Done?)
  }

  predicate Settles(request: Request, outcome: Outcome) {
    request.Close? <==> outcome.Released?
  }

  ghost predicate OutcomeInv(s: State) {
    Shaped(s) &&
    forall t :: 0 <= t < |s.phases| && s.phases[t].Done? ==> Settles(s.requests[t], s.phases[t].outcome)
  }

  predicate RunningMethod(job: Job) {
    (job.CallJob? && job.end.None?) || (job.CloseJob? && !job.closed)
  }

  predicate RunningOpen(job: Job) {
    job.OpenJob? && job.settled.None?
  }

  ghost predicate TimedOut(s: State, j: int) {
    exists k :: 0 <= k < |s.timeouts| && s.timeouts[k].job == j
  }

  ghost predicate JobInv(s: State) {
    && Shaped(s)
    && (forall j :: 0 <= j < |s.jobs| ==> s.jobs[j].owner < |s.acquired|)
    && (forall j :: 0 <= j < |s.jobs| && RunningMethod(s.jobs[j]) ==> Awaited(s) == Some(j))
    && (forall j :: 0 <= j < |s.jobs| && RunningOpen(s.jobs[j]) ==> Awaited(s) == Some(j) || TimedOut(s, j))
  }

  /** The job the holder awaits is its own, does what it asked for, and agrees
      with the stored driver. */
  ghost predicate AwaitInv(s: State) {
    Shaped(s) && s.start <= s.now &&
    (s.holder.Some? ==>
       var h := s.holder.value;
       match s.phases[h]
       case AwaitOpen(j, since) =>
         j < |s.jobs| && s.jobs[j].OpenJob? && s.jobs[j].owner == h &&
         s.requests[h].Call? && s.driver.None? && s.start <= since <= s.now
       case AwaitCall(j) =>
         j < |s.jobs| && s.jobs[j].CallJob? && s.jobs[j].owner == h &&
         s.requests[h] == Call(s.jobs[j].action) && s.driver == Some(s.jobs[j].driver) &&
         |s.jobs[j].acks| <= |JobOps(s, s.jobs[j])| &&
         (s.jobs[j].end.Some? ==> LegalEnd(JobOps(s, s.jobs[j]), s.jobs[j].acks, s.jobs[j].end.value))
       case AwaitClose(j) =>
         j < |s.jobs| && s.jobs[j].CloseJob? && s.jobs[j].owner == h &&
         s.requests[h].Close? && s.driver.None?
       case _ => true)
  }

  ghost predicate Inv(s: State) {
    LockInv(s) && OutcomeInv(s) && JobInv(s) && AwaitInv(s)
  }

  /** A step in which only the holder's own phase changes, and the lock is kept
      exactly until the phase is done. */
  ghost predicate HolderMoves(s: State, s': State, p: Phase) {
    && Shaped(s) && s.holder.Some?
    && s'.phases == s.phases[s.holder.value := p]
    && s'.requests == s.requests && s'.waiters == s.waiters && s'.acquired == s.acquired
    && !p.Waiting? && !p.Holding?
    && s'.holder == (if p.Done? then None else s.holder)
    && (p.Done? ==> Settles(s.requests[s.holder.value], p.outcome))
  }

  lemma ResumeMoves(s: State) returns (p: Phase)
    requires Enabled(s, Resume)
    ensures HolderMoves(s, ResumeHolder(s), p)
  {
    p := ResumeHolder(s).phases[s.holder.value];
  }

  lemma WakeMoves(s: State) returns (p: Phase)
    requires AwaitInv(s) && Enabled(s, Wake)
    ensures HolderMoves(s, WakeHolder(s), p)
  {
    p := WakeHolder(s).phases[s.holder.value];
  }

  lemma TimeOutMoves(s: State) returns (p: Phase)
    requires AwaitInv(s) && Enabled(s, TimeOut)
    ensures HolderMoves(s, TimeOutHolder(s), p)
  {
    p := TimeOutHolder(s).phases[s.holder.value];
  }

  lemma {:induction false} LockStep(s: State, step: Step)
    requires Inv(s) && Enabled(s, step)
    ensures LockInv(Apply(s, step)) && OutcomeInv(Apply(s, step))
  {
    var s' := Apply(s, step);
    match step {
      case Tick(_) =>
      case Arrive(_) =>
      case Acquire =>
        assert s.phases[s.waiters[0]].Waiting?;
      case Resume => var p := ResumeMoves(s);
      case Wake => var p := WakeMoves(s);
      case TimeOut => var p := TimeOutMoves(s);
      case Send(_, _) =>
      case EndOpen(_, _) =>
      case EndCall(_, _) =>
      case EndClose(_) =>
    }
  }

  lemma {:induction false} AwaitStep(s: State, step: Step)
    requires Inv(s) && Enabled(s, step)
    ensures AwaitInv(Apply(s, step))
  {
    match step {
      case Send(j, _) => assert Awaited(s) == Some(j);
      case EndCall(j, _) => assert Awaited(s) == Some(j);
      case _ =>
    }
  }

  lemma {:induction false} JobResume(s: State)
    requires Inv(s) && Enabled(s, Resume)
    ensures JobInv(ResumeHolder(s))
  {
    var s' := ResumeHolder(s);
    assert Awaited(s).None?;
    assert s'.timeouts == s.timeouts;
  }

  lemma {:induction false} JobWake(s: State)
    requires Inv(s) && Enabled(s, Wake)
    ensures JobInv(WakeHolder(s))
  {
    var s' := WakeHolder(s);
    assert !RunningMethod(s.jobs[Awaited(s).value]) && !RunningOpen(s.jobs[Awaited(s).value]);
    assert s'.timeouts == s.timeouts;
  }

  lemma {:induction false} JobTimeOut(s: State)
    requires Inv(s) && Enabled(s, TimeOut)
    ensures JobInv(TimeOutHolder(s))
  {
    var s' := TimeOutHolder(s);
    assert !RunningMethod(s.jobs[Awaited(s).value]);
    assert s'.timeouts[|s.timeouts|].job == Awaited(s).value;
    assert forall k :: 0 <= k < |s.timeouts| ==> s'.timeouts[k] == s.timeouts[k];
  }

  /** A step that starts no job and leaves the holder where it is. */
  lemma {:induction false} JobFrame(s: State, s': State)
    requires JobInv(s) && Shaped(s') && Awaited(s') == Awaited(s)
    requires s'.timeouts == s.timeouts && |s.acquired| <= |s'.acquired| && |s'.jobs| == |s.jobs|
    requires forall j :: 0 <= j < |s.jobs| ==>
               s'.jobs[j].owner == s.jobs[j].owner &&
               (RunningMethod(s'.jobs[j]) ==> RunningMethod(s.jobs[j])) &&
               (RunningOpen(s'.jobs[j]) ==> RunningOpen(s.jobs[j]))
    ensures JobInv(s')
  {
    assert forall j :: TimedOut(s', j) <==> TimedOut(s, j);
  }

  lemma {:induction false} JobStep(s: State, step: Step)
    requires Inv(s) && Enabled(s, step)
    ensures JobInv(Apply(s, step))
  {
    match step {
      case Resume => JobResume(s);
      case Wake => JobWake(s);
      case TimeOut => JobTimeOut(s);
      case _ => JobFrame(s, Apply(s, step));
    }
  }

  lemma {:induction false} InvStep(s: State, step: Step)
    requires Inv(s) && Enabled(s, step)
    ensures Inv(Apply(s, step))
  {
    LockStep(s, step);
    JobStep(s, step);
    AwaitStep(s, step);
  }

  ghost predicate Reaches(setup: Setup, start: real, steps: seq<Step>, s: State) {
    Run(Init(setup, start), steps) == Some(s)
  }

  lemma {:induction false} InvHolds(setup: Setup, start: real, steps: seq<Step>, s: State)
    requires Reaches(setup, start, steps, s)
    ensures Inv(s) && s.setup == setup && s.start == start
  {
    if steps != [] {
      var n := |steps| - 1;
      var before := Run(Init(setup, start), steps[..n]).value;
      InvHolds(setup, start, steps[..n], before);
      InvStep(before, steps[n]);
    }
  }

  /** Serialisation: whatever the interleaving, driver-method jobs never
      overlap, the running one belongs to the lock's holder, no method runs
      while an open that still matters is running, and the lock is taken in
      the order of arrival. */
  lemma DriverJobsNeverOverlap(setup: Setup, start: real, steps: seq<Step>, s: State)
    requires Reaches(setup, start, steps, s)
    ensures forall j, k :: 0 <= j < |s.jobs| && 0 <= k < |s.jobs| ==>
              RunningMethod(s.jobs[j]) && RunningMethod(s.jobs[k]) ==> j == k
    ensures forall j :: 0 <= j < |s.jobs| && RunningMethod(s.jobs[j]) ==>
                          s.holder == Some(s.jobs[j].owner)
    ensures forall j, k :: 0 <= j < |s.jobs| && 0 <= k < |s.jobs| ==>
              RunningMethod(s.jobs[j]) && RunningOpen(s.jobs[k]) ==> TimedOut(s, k)
    ensures forall i :: 0 <= i < |s.acquired| ==> s.acquired[i] == i
  {
    InvHolds(setup, start, steps, s);
  }
}
