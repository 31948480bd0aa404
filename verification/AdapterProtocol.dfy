/** The protocol that `CecAdapter` (daemon) and `LocalBackend` (integration)
    share, as a machine over its atomic steps.

    A task is one call of `_run`/`_call` or of `async_close`; it is numbered by
    its arrival.  Executor jobs run beside the event loop, so a job ends in one
    step and the task that awaits it wakes up in a later one.  A driver is named
    after the task whose open created it.  The daemon never closes, so its runs
    are the runs without a `Close` request. */
module AdapterProtocol {
  import opened Prelude
  import opened OpenGuards
  import opened Bindings

  const OPEN_WAIT_SECONDS: real := 20.0

  /** An error text; Python reads an empty one as "not blocked". */
  type Message = m: string | m != "" witness "?"

  /** What never changes during a run: the installed binding, and the message of
      an adapter that never opened (`adapter_busy_message`, never empty). */
  datatype Setup = Setup(binding: Binding, busy: Message)

  datatype Request = Call(action: Method) | Close

  /** An exception out of the driver, as its callers tell them apart:
      DriverUnavailable or another DriverError, which the driver never raises
      without a text, a TimeoutError, or anything else. */
  datatype Thrown =
    | DriverError(unavailable: bool, text: Message)
    | TimeoutError(detail: string)
    | OtherError(name: string, detail: string)

  datatype OpenEnd = Opened | OpenRaised(error: Thrown)
  datatype CallEnd = Returned(ok: bool) | Threw(error: Thrown)

  datatype Outcome =
    | Answered(ok: bool)              // the driver method returned
    | CallRaised(error: Thrown)
    | OpenFailed(error: Thrown)       // opening raised, and not a TimeoutError
    | Refused(message: Message)       // the guard refused, or the open timed out
    | Released                        // a close finished

  datatype Phase =
    | Waiting
    | Holding                         // has the lock, about to run
    | AwaitOpen(job: nat, since: real)
    | AwaitCall(job: nat)
    | AwaitClose(job: nat)
    | Done(outcome: Outcome)

  datatype Job =
    | OpenJob(owner: nat, settled: Option<OpenEnd>)
    | CallJob(owner: nat, driver: nat, action: Method, acks: seq<bool>, end: Option<CallEnd>)
    | CloseJob(owner: nat, driver: nat, closed: bool)

  datatype Event =
    | OpenStarted(task: nat)
    | CallStarted(task: nat, driver: nat, action: Method)
    | BusSent(task: nat, driver: nat, op: BusOp, ack: bool)
    | CallEnded(task: nat, driver: nat, end: CallEnd)
    | CloseStarted(task: nat, driver: nat)
    | CloseEnded(task: nat, driver: nat)

  /** An open whose wait expired, and the executor job it left behind. */
  datatype Timeout = Timeout(job: nat, at: real)

  datatype State = State(
    setup: Setup,
    start: real,
    now: real,
    requests: seq<Request>,
    phases: seq<Phase>,
    waiters: seq<nat>,                // the lock's queue, head first
    holder: Option<nat>,
    driver: Option<nat>,
    guard: GuardState,
    jobs: seq<Job>,
    acquired: seq<nat>,               // history: who took the lock, in order
    timeouts: seq<Timeout>,           // history: opens whose wait expired
    trace: seq<Event>)                // history: what was asked of the drivers

  function Init(setup: Setup, start: real): State {
    State(setup, start, start, [], [], [], None, None, FRESH_GUARD, [], [], [], [])
  }

  datatype Step =
    | Tick(elapsed: real)
    | Arrive(request: Request)
    | Acquire
    | Resume                          // the holder runs until its first await
    | Wake                            // the awaited job ended
    | TimeOut                         // the bounded wait for an open expired
    | Send(job: nat, ack: bool)       // a running method reaches the bus
    | EndOpen(job: nat, result: OpenEnd)
    | EndCall(job: nat, end: CallEnd)
    | EndClose(job: nat)

  /** A step that takes no time and brings no new task. */
  predicate Internal(step: Step) {
    !step.Tick? && !step.Arrive?
  }

  predicate Shaped(s: State) {
    |s.requests| == |s.phases| && (s.holder.Some? ==> s.holder.value < |s.phases|)
  }

  /** The job the holder awaits. */
  function Awaited(s: State): Option<nat>
    requires Shaped(s)
  {
    if s.holder.None? then None else
    match s.phases[s.holder.value]
    case AwaitOpen(j, _) => Some(j)
    case AwaitCall(j) => Some(j)
    case AwaitClose(j) => Some(j)
    case _ => None
  }

  function JobOps(s: State, job: Job): seq<BusOp>
    requires job.CallJob?
  {
    Program(s.setup.binding, job.action)
  }

  /** A method that returns has gone through its whole program and answers
      whether all of it was accepted; it may raise at any point. */
  predicate LegalEnd(ops: seq<BusOp>, acks: seq<bool>, end: CallEnd) {
    |acks| <= |ops| && (end.Returned? ==> |acks| == |ops| && end.ok == AllTrue(acks))
  }

  predicate Enabled(s: State, step: Step) {
    Shaped(s) &&
    match step
    case Tick(elapsed) => elapsed >= 0.0
    case Arrive(_) => true
    case Acquire =>
      s.holder.None? && s.waiters != [] && s.waiters[0] < |s.phases|
    case Resume =>
      s.holder.Some? && s.phases[s.holder.value].Holding?
    case Wake =>
      var job := Awaited(s);
      job.Some? && job.value < |s.jobs| &&
      (match s.jobs[job.value]
       case OpenJob(_, settled) => settled.Some?
       case CallJob(_, _, _, _, end) => end.Some?
       case CloseJob(_, _, closed) => closed) &&
      (s.phases[s.holder.value].AwaitOpen? ==>
         s.jobs[job.value].OpenJob? && s.requests[s.holder.value].Call?) &&
      (s.phases[s.holder.value].AwaitCall? ==> s.jobs[job.value].CallJob?) &&
      (s.phases[s.holder.value].AwaitClose? ==> s.jobs[job.value].CloseJob?)
    case TimeOut =>
      s.holder.Some? && s.phases[s.holder.value].AwaitOpen? &&
      s.now >= s.phases[s.holder.value].since + OPEN_WAIT_SECONDS
    case Send(j, _) =>
      j < |s.jobs| && s.jobs[j].CallJob? && s.jobs[j].end.None? &&
      |s.jobs[j].acks| < |JobOps(s, s.jobs[j])|
    case EndOpen(j, _) =>
      j < |s.jobs| && s.jobs[j].OpenJob? && s.jobs[j].settled.None?
    case EndCall(j, end) =>
      j < |s.jobs| && s.jobs[j].CallJob? && s.jobs[j].end.None? &&
      LegalEnd(JobOps(s, s.jobs[j]), s.jobs[j].acks, end)
    case EndClose(j) =>
      j < |s.jobs| && s.jobs[j].CloseJob? && !s.jobs[j].closed
  }

  /** The holder leaves the `async with` block. */
  function Finish(s: State, outcome: Outcome): State
    requires Shaped(s) && s.holder.Some?
  {
    s.(phases := s.phases[s.holder.value := Done(outcome)], holder := None)
  }

  function StartCall(s: State, d: nat, m: Method): State
    requires Shaped(s) && s.holder.Some?
  {
    var h := s.holder.value;
    s.(jobs := s.jobs + [CallJob(h, d, m, [], None)],
       phases := s.phases[h := AwaitCall(|s.jobs|)],
       trace := s.trace + [CallStarted(h, d, m)])
  }

  function StartClose(s: State, d: nat): State
    requires Shaped(s) && s.holder.Some?
  {
    var h := s.holder.value;
    s.(driver := None,
       jobs := s.jobs + [CloseJob(h, d, false)],
       phases := s.phases[h := AwaitClose(|s.jobs|)],
       trace := s.trace + [CloseStarted(h, d)])
  }

  function StartOpen(s: State): State
    requires Shaped(s) && s.holder.Some?
  {
    var h := s.holder.value;
    s.(jobs := s.jobs + [OpenJob(h, None)],
       phases := s.phases[h := AwaitOpen(|s.jobs|, s.now)],
       trace := s.trace + [OpenStarted(h)])
  }

  function ResumeHolder(s: State): State
    requires Enabled(s, Resume)
  {
    match s.requests[s.holder.value]
    case Close =>
      if s.driver.None? then Finish(s, Released) else StartClose(s, s.driver.value)
    case Call(m) =>
      if s.driver.Some? then StartCall(s, s.driver.value, m)
      else
        var blocked := Verdict(s.guard, OPEN_COOLDOWN_SECONDS, s.now);
        var asked := s.(guard := AfterAsking(s.guard, OPEN_COOLDOWN_SECONDS, s.now));
        if blocked != "" then Finish(asked, Refused(blocked)) else StartOpen(asked)
  }

  /** `except TimeoutError`, which also catches one that the open itself raised. */
  function RecordFailure(s: State): State
    requires Shaped(s) && s.holder.Some?
  {
    Finish(s.(guard := GuardState(Some(s.now), s.setup.busy)), Refused(s.setup.busy))
  }

  function WakeHolder(s: State): State
    requires Enabled(s, Wake)
  {
    var h := s.holder.value;
    match s.jobs[Awaited(s).value]
    case OpenJob(_, settled) =>
      (match settled.value
       case OpenRaised(error) =>
         if error.TimeoutError? then RecordFailure(s) else Finish(s, OpenFailed(error))
       case Opened => StartCall(s.(driver := Some(h), guard := FRESH_GUARD), h, s.requests[h].action))
    case CallJob(_, _, _, _, end) =>
      Finish(s, if end.value.Returned? then Answered(end.value.ok) else CallRaised(end.value.error))
    case CloseJob(_, _, _) =>
      Finish(s, Released)
  }

  function TimeOutHolder(s: State): State
    requires Enabled(s, TimeOut)
  {
    RecordFailure(s.(timeouts := s.timeouts + [Timeout(s.phases[s.holder.value].job, s.now)]))
  }

  function Apply(s: State, step: Step): State
    requires Enabled(s, step)
  {
    match step
    case Tick(elapsed) => s.(now := s.now + elapsed)
    case Arrive(request) =>
      s.(requests := s.requests + [request], phases := s.phases + [Waiting],
         waiters := s.waiters + [|s.phases|])
    case Acquire =>
      s.(waiters := s.waiters[1..], holder := Some(s.waiters[0]),
         acquired := s.acquired + [s.waiters[0]], phases := s.phases[s.waiters[0] := Holding])
    case Resume => ResumeHolder(s)
    case Wake => WakeHolder(s)
    case TimeOut => TimeOutHolder(s)
    case Send(j, ack) =>
      var job := s.jobs[j];
      s.(jobs := s.jobs[j := job.(acks := job.acks + [ack])],
         trace := s.trace + [BusSent(job.owner, job.driver, JobOps(s, job)[|job.acks|], ack)])
    case EndOpen(j, result) =>
      s.(jobs := s.jobs[j := s.jobs[j].(settled := Some(result))])
    case EndCall(j, end) =>
      s.(jobs := s.jobs[j := s.jobs[j].(end := Some(end))],
         trace := s.trace + [CallEnded(s.jobs[j].owner, s.jobs[j].driver, end)])
    case EndClose(j) =>
      s.(jobs := s.jobs[j := s.jobs[j].(closed := true)],
         trace := s.trace + [CloseEnded(s.jobs[j].owner, s.jobs[j].driver)])
  }

  /** The state a run ends in; None if some step of it is not enabled. */
  function Run(s: State, steps: seq<Step>): Option<State> {
    if steps == [] then Some(s) else
    var before := Run(s, steps[..|steps| - 1]);
    var step := steps[|steps| - 1];
    if before.Some? && Enabled(before.value, step) then Some(Apply(before.value, step)) else None
  }
}
