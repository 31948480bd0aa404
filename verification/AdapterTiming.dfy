/** The clock's part of the adapter protocol: how seldom an open can time out,
    how many threads that leaves behind, and how fast everybody else fails. */
module AdapterTiming {
  import opened Prelude
  import opened OpenGuards
  import opened Bindings
  import opened AdapterProtocol
  import opened AdapterSafety

  const OPEN_CYCLE_SECONDS: real := OPEN_WAIT_SECONDS + OPEN_COOLDOWN_SECONDS

  /** When the latest open timed out. */
  function LastTimeout(s: State): real
    requires s.timeouts != []
  {
    s.timeouts[|s.timeouts| - 1].at
  }

  ghost predicate Spaced(s: State) {
    && (s.timeouts != [] ==> s.timeouts[0].at >= s.start + OPEN_WAIT_SECONDS)
    && (forall k :: 0 < k < |s.timeouts| ==> s.timeouts[k].at >= s.timeouts[k - 1].at + OPEN_CYCLE_SECONDS)
  }

  /** While the guard remembers a failure there is no driver, and nothing has
      been started since; and until the cooldown after the latest abandoned open
      is over, that open is what the guard remembers. */
  ghost predicate GuardInv(s: State)
    requires Shaped(s)
  {
    && (s.guard.failedAt.Some? ==>
          && s.guard.reason == s.setup.busy && s.guard.failedAt.value <= s.now
          && s.driver.None? && (s.holder.Some? ==> s.phases[s.holder.value].Holding?))
    && (s.timeouts != [] ==>
          && LastTimeout(s) <= s.now
          && (s.now < LastTimeout(s) + OPEN_COOLDOWN_SECONDS ==> s.guard.failedAt == Some(LastTimeout(s)))
          && (s.holder.Some? && s.phases[s.holder.value].AwaitOpen? ==>
                s.phases[s.holder.value].since >= LastTimeout(s) + OPEN_COOLDOWN_SECONDS))
  }

  ghost predicate TimingInv(s: State) {
    Inv(s) && Spaced(s) && GuardInv(s)
  }

  lemma {:induction false} GuardResume(s: State)
    requires TimingInv(s) && Enabled(s, Resume)
    ensures Shaped(ResumeHolder(s)) && GuardInv(ResumeHolder(s))
  {
    assert ResumeHolder(s).timeouts == s.timeouts;
  }

  lemma {:induction false} GuardWake(s: State)
    requires TimingInv(s) && Enabled(s, Wake)
    ensures Shaped(WakeHolder(s)) && GuardInv(WakeHolder(s))
  {
    assert WakeHolder(s).timeouts == s.timeouts;
  }

  lemma {:induction false} GuardStep(s: State, step: Step)
    requires TimingInv(s) && Enabled(s, step)
    ensures Shaped(Apply(s, step)) && GuardInv(Apply(s, step))
  {
    match step {
      case Resume => GuardResume(s);
      case Wake => GuardWake(s);
      case TimeOut =>
      case _ => assert Apply(s, step).timeouts == s.timeouts;
    }
  }

  lemma {:induction false} SpacedStep(s: State, step: Step)
    requires TimingInv(s) && Enabled(s, step)
    ensures Spaced(Apply(s, step))
  {
    if !step.TimeOut? {
      assert Apply(s, step).timeouts == s.timeouts;
    }
  }

  lemma {:induction false} TimingHolds(setup: Setup, start: real, steps: seq<Step>, s: State)
    requires Reaches(setup, start, steps, s)
    ensures TimingInv(s) && s.setup == setup && s.start == start
  {
    InvHolds(setup, start, steps, s);
    if steps != [] {
      var n := |steps| - 1;
      var before := Run(Init(setup, start), steps[..n]).value;
      TimingHolds(setup, start, steps[..n], before);
      GuardStep(before, steps[n]);
      SpacedStep(before, steps[n]);
    }
  }

  /** The executor threads still inside an open that nobody awaits any more. */
  ghost function Abandoned(s: State): set<int>
    requires Shaped(s)
  {
    set j | 0 <= j < |s.jobs| && RunningOpen(s.jobs[j]) && Awaited(s) != Some(j)
  }

  /** The earliest time of the n-th timeout. */
  function TimeOfLeak(n: nat): real
    requires n > 0
  {
    OPEN_WAIT_SECONDS + (n - 1) as real * OPEN_CYCLE_SECONDS
  }

  lemma TimeOfNextLeak(n: nat)
    requires n > 0
    ensures TimeOfLeak(n + 1) == TimeOfLeak(n) + OPEN_CYCLE_SECONDS
  {
    var cycle := OPEN_CYCLE_SECONDS;
    assert n as real * cycle == (n - 1) as real * cycle + cycle;
  }

  lemma {:induction false} SpacedSum(s: State, k: nat)
    requires Spaced(s) && k < |s.timeouts|
    ensures s.timeouts[k].at >= s.start + TimeOfLeak(k + 1)
  {
    if k > 0 {
      SpacedSum(s, k - 1);
      TimeOfNextLeak(k);
    }
  }

  /** Whatever the timeouts are counted by: jobs, or tasks. */
  lemma OneEach<T>(timeouts: seq<Timeout>, name: Timeout -> T, chosen: set<T>)
    requires forall x :: x in chosen ==> exists k :: 0 <= k < |timeouts| && name(timeouts[k]) == x
    ensures |chosen| <= |timeouts|
  {
    var names := seq(|timeouts|, k requires 0 <= k < |timeouts| => name(timeouts[k]));
    forall x | x in chosen ensures x in names {
      var k :| 0 <= k < |timeouts| && name(timeouts[k]) == x;
      assert names[k] == x;
    }
    FewValues(names, chosen);
  }

  lemma LeaksTakeTime(m: nat, n: nat)
    requires 0 < m <= n
    ensures TimeOfLeak(m) <= TimeOfLeak(n)
  {
    var cycle := OPEN_CYCLE_SECONDS;
    assert (m - 1) as real * cycle <= (n - 1) as real * cycle;
  }

  /** n opens that timed out take 20 + 80(n - 1) seconds at least, whatever
      failures, successes and closes happen in between; and every abandoned
      thread is one of them. */
  lemma AbandonedThreadsAreRare(setup: Setup, start: real, steps: seq<Step>, s: State)
    requires Reaches(setup, start, steps, s)
    ensures Shaped(s) && |Abandoned(s)| <= |s.timeouts|
    ensures s.timeouts != [] ==>
              start + TimeOfLeak(|s.timeouts|) <= s.now
    ensures Abandoned(s) != {} ==>
              start + TimeOfLeak(|Abandoned(s)|) <= s.now
    ensures forall n: nat :: n > 0 ==> TimeOfLeak(n) == 20.0 + 80.0 * (n - 1) as real
  {
    TimingHolds(setup, start, steps, s);
    OneEach(s.timeouts, (t: Timeout) => t.job as int, Abandoned(s));
    if s.timeouts != [] {
      SpacedSum(s, |s.timeouts| - 1);
      if Abandoned(s) != {} {
        LeaksTakeTime(|Abandoned(s)|, |s.timeouts|);
      }
    }
  }

  predicate Running(job: Job) {
    RunningMethod(job) || RunningOpen(job)
  }

  ghost function RunningJobs(s: State): set<int>
    requires Shaped(s)
  {
    set j | 0 <= j < |s.jobs| && Running(s.jobs[j])
  }

  lemma AtMostOne(s: set<int>)
    requires forall j, k :: j in s && k in s ==> j == k
    ensures |s| <= 1
  {
    if |s| > 0 {
      assert (forall j :: j !in s) ==> s == {};
      var j :| j in s;
      assert forall k :: k in s <==> k == j;
      assert s == {j};
    }
  }

  /** libcec is in the hands of the threads that are stuck in an open, and of one
      thread beside them at most: the one the lock's holder awaits. */
  lemma OneThreadButForAbandoned(setup: Setup, start: real, steps: seq<Step>, s: State)
    requires Reaches(setup, start, steps, s)
    ensures Shaped(s) && Abandoned(s) <= RunningJobs(s)
    ensures forall j :: j in RunningJobs(s) - Abandoned(s) ==> Awaited(s) == Some(j)
    ensures |RunningJobs(s)| <= |Abandoned(s)| + 1
    ensures |RunningJobs(s)| > 1 ==> Abandoned(s) != {}
  {
    InvHolds(setup, start, steps, s);
    var rest := RunningJobs(s) - Abandoned(s);
    assert RunningJobs(s) == Abandoned(s) + rest;
    assert forall j, k :: j in rest && k in rest ==> j == k;
    AtMostOne(rest);
  }

  /** Nobody is at the lock, and n threads are stuck in an open. */
  ghost predicate IdleWithLeaks(s: State, n: nat) {
    && |s.jobs| == n && |s.timeouts| == n
    && (forall j :: 0 <= j < n ==> RunningOpen(s.jobs[j]))
    && s.holder.None? && s.waiters == [] && s.driver.None? && |s.requests| == |s.phases|
  }

  /** One more step of a run. */
  lemma Extend(s0: State, steps: seq<Step>, s: State, step: Step) returns (steps': seq<Step>, s': State)
    requires Run(s0, steps) == Some(s) && Enabled(s, step)
    ensures steps' == steps + [step] && s' == Apply(s, step) && Run(s0, steps') == Some(s')
  {
    steps', s' := steps + [step], Apply(s, step);
    assert steps'[..|steps|] == steps;
  }

  lemma LeakCycle(s0: State, steps: seq<Step>, s: State, n: nat) returns (steps': seq<Step>, s': State)
    requires Run(s0, steps) == Some(s) && IdleWithLeaks(s, n)
    requires Verdict(s.guard, OPEN_COOLDOWN_SECONDS, s.now) == ""
    ensures Run(s0, steps') == Some(s') && IdleWithLeaks(s', n + 1)
    ensures s'.now == s.now + OPEN_WAIT_SECONDS && s'.guard.failedAt == Some(s'.now)
  {
    steps', s' := Extend(s0, steps, s, Arrive(Call(Bindings.Scan)));
    steps', s' := Extend(s0, steps', s', Acquire);
    steps', s' := Extend(s0, steps', s', Resume);
    steps', s' := Extend(s0, steps', s', Tick(OPEN_WAIT_SECONDS));
    steps', s' := Extend(s0, steps', s', TimeOut);
  }

  function Below(n: nat): (ns: set<int>)
    ensures |ns| == n && forall j :: j in ns <==> 0 <= j < n
  {
    if n == 0 then {} else Below(n - 1) + {n - 1}
  }

  lemma AllJobsAbandoned(s: State, n: nat)
    requires IdleWithLeaks(s, n)
    ensures |Abandoned(s)| == n
  {
    assert Abandoned(s) == Below(n);
  }

  /** The bound cannot be improved: for every n there is a run that reaches it. */
  lemma {:induction false} RateIsReached(setup: Setup, start: real, n: nat) returns (steps: seq<Step>, s: State)
    requires n > 0
    ensures Reaches(setup, start, steps, s) && IdleWithLeaks(s, n)
    ensures s.guard.failedAt == Some(s.now)
    ensures s.now == start + TimeOfLeak(n) == start + 20.0 + 80.0 * (n - 1) as real
    ensures |Abandoned(s)| == n
  {
    var first := Init(setup, start);
    if n == 1 {
      steps, s := [], first;
      assert 0 as real * OPEN_CYCLE_SECONDS == 0.0;
    } else {
      steps, s := RateIsReached(setup, start, n - 1);
      steps, s := Extend(first, steps, s, Tick(OPEN_COOLDOWN_SECONDS));
      TimeOfNextLeak(n - 1);
    }
    steps, s := LeakCycle(first, steps, s, n - 1);
    AllJobsAbandoned(s, n);
  }

  /** Then two threads do use libcec at once: a driver method beside an open that
      is stuck. */
  lemma MethodBesideStuckOpen(setup: Setup, start: real) returns (steps: seq<Step>, s: State)
    ensures Reaches(setup, start, steps, s) && |s.jobs| == 3
    ensures RunningOpen(s.jobs[0]) && RunningMethod(s.jobs[2]) && s.jobs[2].CallJob?
  {
    var first := Init(setup, start);
    steps, s := RateIsReached(setup, start, 1);
    steps, s := Extend(first, steps, s, Tick(OPEN_COOLDOWN_SECONDS));
    steps, s := Extend(first, steps, s, Arrive(Call(Bindings.Scan)));
    steps, s := Extend(first, steps, s, Acquire);
    steps, s := Extend(first, steps, s, Resume);
    steps, s := Extend(first, steps, s, EndOpen(1, Opened));
    steps, s := Extend(first, steps, s, Wake);
  }

  /** The cooldown after a recorded failure is running. */
  ghost predicate Cooling(s: State) {
    TimingInv(s) && s.guard.failedAt.Some? && s.now < s.guard.failedAt.value + OPEN_COOLDOWN_SECONDS
  }

  /** Since the trace and the jobs were these, nothing has been started, and
      every task from `first` on waits, is about to be refused, or has failed. */
  ghost predicate FailedFast(s: State, trace: seq<Event>, jobs: nat, first: int) {
    && Shaped(s) && s.trace == trace && s.driver.None? && |s.jobs| == jobs && 0 <= first
    && forall t :: first <= t < |s.phases| ==>
         s.phases[t].Waiting? || s.phases[t].Holding? ||
         s.phases[t] == Done(if s.requests[t].Close? then Released else Refused(s.setup.busy))
  }

  lemma {:induction false} CoolingStep(s: State, step: Step, trace: seq<Event>, jobs: nat, first: int)
    requires Cooling(s) && Enabled(s, step) && FailedFast(s, trace, jobs, first)
    requires Apply(s, step).now < s.guard.failedAt.value + OPEN_COOLDOWN_SECONDS
    ensures Cooling(Apply(s, step)) && FailedFast(Apply(s, step), trace, jobs, first)
    ensures Apply(s, step).guard == s.guard
    ensures !step.Send? && !step.EndCall? && !step.EndClose? && !step.Wake? && !step.TimeOut?
  {
    InvStep(s, step);
    GuardStep(s, step);
    SpacedStep(s, step);
    assert forall j :: 0 <= j < |s.jobs| ==> !RunningMethod(s.jobs[j]);
  }

  lemma {:induction false} ClockIsMonotone(s: State, steps: seq<Step>)
    requires Run(s, steps).Some?
    ensures s.now <= Run(s, steps).value.now
  {
    if steps != [] {
      ClockIsMonotone(s, steps[..|steps| - 1]);
    }
  }

  /** The wait for an open expires, or the open itself raises a TimeoutError. */
  predicate RecordsFailure(s: State, step: Step)
    requires Enabled(s, step)
  {
    step.TimeOut? ||
    (step.Wake? &&
     var job := s.jobs[Awaited(s).value];
     job.OpenJob? && job.settled.value.OpenRaised? && job.settled.value.error.TimeoutError?)
  }

  /** Exactly then a cooldown begins: nothing else makes the guard remember a
      failure, and the task that awaited the open is refused. */
  lemma CooldownBegins(setup: Setup, start: real, steps: seq<Step>, s: State, step: Step)
    requires Reaches(setup, start, steps, s) && Enabled(s, step)
    ensures var s' := Apply(s, step);
            if RecordsFailure(s, step) then
              && Cooling(s') && s'.guard == GuardState(Some(s.now), setup.busy)
              && Served(s') == |s'.acquired|
              && s.holder.Some? && s.holder.value < |s'.phases|
              && s.phases[s.holder.value].AwaitOpen?
              && s'.phases[s.holder.value] == Done(Refused(setup.busy))
            else
              s'.guard.failedAt.Some? ==> s'.guard == s.guard
  {
    TimingHolds(setup, start, steps, s);
    assert (steps + [step])[..|steps|] == steps;
    TimingHolds(setup, start, steps + [step], Apply(s, step));
  }

  /** From any point of the cooldown until its end, no open and no driver call
      starts, and every task that gets the lock fails with the recorded message
      (a close, having nothing to close, succeeds). */
  lemma {:induction false} CooldownFailsFast(
    setup: Setup, start: real, before: seq<Step>, s0: State, after: seq<Step>, s: State)
    requires Reaches(setup, start, before, s0) && s0.guard.failedAt.Some?
    requires Run(s0, after) == Some(s) && s.now < s0.guard.failedAt.value + 60.0
    ensures FailedFast(s, s0.trace, |s0.jobs|, Served(s0)) && Cooling(s)
    ensures s.guard == s0.guard && s.setup == setup
  {
    if after == [] {
      TimingHolds(setup, start, before, s0);
    } else {
      var n := |after| - 1;
      var s' := Run(s0, after[..n]).value;
      ClockIsMonotone(s', [after[n]]);
      assert Apply(s', after[n]) == s;
      CooldownFailsFast(setup, start, before, s0, after[..n], s');
      CoolingStep(s', after[n], s0.trace, |s0.jobs|, Served(s0));
    }
  }

  /** How many lock steps the tasks behind the lock still need. */
  function Backlog(s: State): nat {
    2 * |s.waiters| + (if s.holder.Some? then 1 else 0)
  }

  function LockSteps(steps: seq<Step>): nat {
    if steps == [] then 0 else
    LockSteps(steps[..|steps| - 1]) +
    (var last := steps[|steps| - 1]; if last.Acquire? || last.Resume? then 1 else 0)
  }

  lemma BacklogIsLive(s: State)
    requires Cooling(s)
    ensures Backlog(s) > 0 ==> Enabled(s, Acquire) || Enabled(s, Resume)
    ensures Backlog(s) == 0 ==> forall t :: 0 <= t < |s.phases| ==> s.phases[t].Done?
  {
  }

  lemma {:induction false} BacklogStep(s: State, step: Step, trace: seq<Event>, jobs: nat, first: int)
    requires Cooling(s) && Enabled(s, step) && Internal(step) && FailedFast(s, trace, jobs, first)
    ensures var s' := Apply(s, step);
            Cooling(s') && FailedFast(s', trace, jobs, first) &&
            s'.now == s.now && s'.requests == s.requests &&
            Backlog(s') == Backlog(s) - (if step.Acquire? || step.Resume? then 1 else 0)
  {
    CoolingStep(s, step, trace, jobs, first);
  }

  /** From any state in the cooldown, whichever internal steps are taken, each
      turn of the lock uses up a unit of the backlog, no time passes, and the
      run can go on until the backlog is gone.  When it is gone, every task has
      failed fast. */
  lemma {:induction false} BacklogDrains(s0: State, steps: seq<Step>, s: State)
    requires Cooling(s0) && Run(s0, steps) == Some(s)
    requires forall i :: 0 <= i < |steps| ==> Internal(steps[i])
    ensures Cooling(s) && FailedFast(s, s0.trace, |s0.jobs|, Served(s0))
    ensures s.now == s0.now && s.requests == s0.requests
    ensures Backlog(s) + LockSteps(steps) == Backlog(s0)
    ensures Backlog(s) > 0 ==> Enabled(s, Acquire) || Enabled(s, Resume)
    ensures Backlog(s) == 0 ==> forall t :: 0 <= t < |s.phases| ==> s.phases[t].Done?
  {
    BacklogIsLive(s0);
    if steps != [] {
      var n := |steps| - 1;
      var s' := Run(s0, steps[..n]).value;
      BacklogDrains(s0, steps[..n], s');
      BacklogStep(s', steps[n], s0.trace, |s0.jobs|, Served(s0));
      BacklogIsLive(s);
    }
  }

  /** So the whole queue can be gone at the very instant of the timeout. */
  lemma {:induction false} QueueCanDrainAtOnce(s: State) returns (steps: seq<Step>, s': State)
    requires Cooling(s)
    ensures forall i :: 0 <= i < |steps| ==> steps[i].Acquire? || steps[i].Resume?
    ensures |steps| == Backlog(s)
    ensures Run(s, steps) == Some(s') && s'.now == s.now && s'.requests == s.requests
    ensures forall t :: 0 <= t < |s'.phases| ==> s'.phases[t].Done?
  {
    steps, s' := [], s;
    while Backlog(s') > 0
      invariant forall i :: 0 <= i < |steps| ==> steps[i].Acquire? || steps[i].Resume?
      invariant Run(s, steps) == Some(s') && Cooling(s') && s'.now == s.now && s'.requests == s.requests
      invariant |steps| + Backlog(s') == Backlog(s)
    {
      var step := if s'.holder.None? then Acquire else Resume;
      var next := steps + [step];
      assert next[..|next| - 1] == steps;
      BacklogStep(s', step, s'.trace, |s'.jobs|, |s'.phases|);
      steps, s' := next, Apply(s', step);
    }
  }
}
