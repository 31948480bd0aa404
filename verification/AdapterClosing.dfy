/** Closing: a driver is closed once, is not used from then on, and whoever
    calls later works on a driver that was opened later. */
module AdapterClosing {
  import opened Prelude
  import opened OpenGuards
  import opened Bindings
  import opened AdapterProtocol
  import opened AdapterSafety

  /** The driver an event concerns. */
  function Touches(e: Event): Option<nat> {
    match e
    case OpenStarted(_) => None
    case CallStarted(_, d, _) => Some(d)
    case BusSent(_, d, _, _) => Some(d)
    case CallEnded(_, d, _) => Some(d)
    case CloseStarted(_, d) => Some(d)
    case CloseEnded(_, d) => Some(d)
  }

  ghost predicate ClosedBefore(trace: seq<Event>, n: int, d: nat) {
    exists i :: 0 <= i < n <= |trace| && trace[i].CloseStarted? && trace[i].driver == d
  }

  ghost predicate OpenedBefore(trace: seq<Event>, n: int, d: nat) {
    exists i :: 0 <= i < n <= |trace| && trace[i] == OpenStarted(d)
  }

  /** After a driver's close began, the only event that still concerns it is the
      end of that close, right behind its beginning. */
  ghost predicate NoUseAfterClose(trace: seq<Event>) {
    forall i, j :: 0 <= i < j < |trace| && trace[i].CloseStarted? && Touches(trace[j]) == Some(trace[i].driver) ==>
      j == i + 1 && trace[j] == CloseEnded(trace[i].task, trace[i].driver)
  }

  /** Every driver in use was opened, by the task it is named after, and the
      open lies behind every close that came earlier. */
  ghost predicate FreshlyOpened(trace: seq<Event>) {
    && (forall j :: 0 <= j < |trace| && Touches(trace[j]).Some? ==> OpenedBefore(trace, j, Touches(trace[j]).value))
    && (forall i, j :: 0 <= i < j < |trace| && trace[i].CloseStarted? && trace[j].CallStarted? ==>
          exists k :: i < k < j && trace[k] == OpenStarted(trace[j].driver))
  }

  /** A driver that was opened behind every close so far. */
  ghost predicate Ready(trace: seq<Event>, d: nat) {
    && !ClosedBefore(trace, |trace|, d)
    && exists k :: 0 <= k < |trace| && trace[k] == OpenStarted(d) &&
         forall i :: k < i < |trace| ==> !trace[i].CloseStarted?
  }

  /** What the machine still has to do to the trace agrees with that. */
  ghost predicate CloseInv(s: State) {
    && Inv(s)
    && NoUseAfterClose(s.trace) && FreshlyOpened(s.trace)
    && (s.driver.Some? ==> Ready(s.trace, s.driver.value))
    && (s.holder.Some? && s.phases[s.holder.value].AwaitOpen? ==> Ready(s.trace, s.holder.value))
    && (forall e :: e in s.trace && e.OpenStarted? ==> e.task < |s.acquired|)
    && (s.holder.Some? && s.phases[s.holder.value].Holding? ==> OpenStarted(s.holder.value) !in s.trace)
    && (forall j :: 0 <= j < |s.jobs| && s.jobs[j].CloseJob? && !s.jobs[j].closed ==>
          s.trace != [] && s.trace[|s.trace| - 1] == CloseStarted(s.jobs[j].owner, s.jobs[j].driver))
  }

  lemma {:induction false} ReadyStays(trace: seq<Event>, e: Event, d: nat)
    requires Ready(trace, d) && !e.CloseStarted?
    ensures Ready(trace + [e], d)
  {
    var k :| 0 <= k < |trace| && trace[k] == OpenStarted(d) &&
             forall i :: k < i < |trace| ==> !trace[i].CloseStarted?;
    assert (trace + [e])[k] == OpenStarted(d);
  }

  lemma {:induction false} AppendFresh(trace: seq<Event>, e: Event)
    requires FreshlyOpened(trace) && (Touches(e).Some? ==> Ready(trace, Touches(e).value))
    ensures FreshlyOpened(trace + [e])
  {
    var trace', n := trace + [e], |trace|;
    forall j | 0 <= j < n + 1 && Touches(trace'[j]).Some?
      ensures OpenedBefore(trace', j, Touches(trace'[j]).value)
    {
      var d := Touches(trace'[j]).value;
      assert OpenedBefore(trace, j, d);
      var i :| 0 <= i < j && trace[i] == OpenStarted(d);
      assert trace'[i] == OpenStarted(d);
    }
    forall i, j | 0 <= i < j < n + 1 && trace'[i].CloseStarted? && trace'[j].CallStarted?
      ensures exists k :: i < k < j && trace'[k] == OpenStarted(trace'[j].driver)
    {
      var d := trace'[j].driver;
      if j < n {
        var k :| i < k < j && trace[k] == OpenStarted(d);
        assert trace'[k] == OpenStarted(d);
      } else {
        var k :| 0 <= k < n && trace[k] == OpenStarted(d) && forall i :: k < i < n ==> !trace[i].CloseStarted?;
        assert trace'[k] == OpenStarted(d);
        assert trace'[i] == trace[i];
      }
    }
  }

  /** An event on a driver that is ready, or one that concerns no driver. */
  lemma {:induction false} Append(trace: seq<Event>, e: Event)
    requires NoUseAfterClose(trace) && FreshlyOpened(trace)
    requires Touches(e).Some? ==> Ready(trace, Touches(e).value)
    ensures NoUseAfterClose(trace + [e]) && FreshlyOpened(trace + [e])
  {
    AppendFresh(trace, e);
  }

  lemma {:induction false} AppendCloseEndFresh(trace: seq<Event>, t: nat, d: nat)
    requires FreshlyOpened(trace) && trace != [] && trace[|trace| - 1] == CloseStarted(t, d)
    ensures FreshlyOpened(trace + [CloseEnded(t, d)])
  {
    var n, trace' := |trace|, trace + [CloseEnded(t, d)];
    forall j | 0 <= j < n + 1 && Touches(trace'[j]).Some?
      ensures OpenedBefore(trace', j, Touches(trace'[j]).value)
    {
      var j' := if j == n then n - 1 else j;
      assert OpenedBefore(trace, j', Touches(trace[j']).value);
      var i :| 0 <= i < j' && trace[i] == OpenStarted(Touches(trace[j']).value);
      assert trace'[i] == trace[i];
    }
    forall i, j | 0 <= i < j < n + 1 && trace'[i].CloseStarted? && trace'[j].CallStarted?
      ensures exists k :: i < k < j && trace'[k] == OpenStarted(trace'[j].driver)
    {
      assert trace'[i] == trace[i] && trace'[j] == trace[j];
      var k :| i < k < j && trace[k] == OpenStarted(trace[j].driver);
      assert trace'[k] == trace[k];
    }
  }

  /** The end of the close that has just begun. */
  lemma {:induction false} AppendCloseEnd(trace: seq<Event>, t: nat, d: nat)
    requires NoUseAfterClose(trace) && FreshlyOpened(trace)
    requires trace != [] && trace[|trace| - 1] == CloseStarted(t, d)
    ensures NoUseAfterClose(trace + [CloseEnded(t, d)]) && FreshlyOpened(trace + [CloseEnded(t, d)])
  {
    AppendCloseEndFresh(trace, t, d);
    var n, trace' := |trace|, trace + [CloseEnded(t, d)];
    forall i, j | 0 <= i < j < n + 1 && trace'[i].CloseStarted? && Touches(trace'[j]) == Some(trace'[i].driver)
      ensures j == i + 1 && trace'[j] == CloseEnded(trace'[i].task, trace'[i].driver)
    {
      if j == n {
        assert Touches(trace[n - 1]) == Some(trace[i].driver);
      }
    }
  }

  /** An open that has just started leads to a driver nobody has used. */
  lemma {:induction false} ReadyAfterOpening(trace: seq<Event>, t: nat)
    requires FreshlyOpened(trace) && OpenStarted(t) !in trace
    ensures Ready(trace + [OpenStarted(t)], t)
  {
    var trace' := trace + [OpenStarted(t)];
    forall i | 0 <= i < |trace| && trace[i].CloseStarted? ensures trace[i].driver != t {
      assert OpenedBefore(trace, i, trace[i].driver);
    }
    assert trace'[|trace|] == OpenStarted(t);
  }

  lemma {:induction false} ResumeCloses(s: State)
    requires CloseInv(s) && Enabled(s, Resume) && Inv(ResumeHolder(s))
    ensures CloseInv(ResumeHolder(s))
  {
    var s' := ResumeHolder(s);
    if s'.trace != s.trace {
      var e := s'.trace[|s.trace|];
      assert s'.trace == s.trace + [e];
      Append(s.trace, e);
      match e {
        case OpenStarted(t) => ReadyAfterOpening(s.trace, t);
        case CallStarted(_, d, _) => ReadyStays(s.trace, e, d);
        case _ =>
      }
    }
  }

  /** The holder's open has succeeded, and its call starts. */
  lemma {:induction false} WakeStartsCall(s: State)
    requires CloseInv(s) && Enabled(s, Wake) && Inv(WakeHolder(s)) && WakeHolder(s).trace != s.trace
    ensures CloseInv(WakeHolder(s))
  {
    var e := WakeHolder(s).trace[|s.trace|];
    assert forall j :: 0 <= j < |s.jobs| ==> !RunningMethod(s.jobs[j]);
    Append(s.trace, e);
    ReadyStays(s.trace, e, s.holder.value);
  }

  lemma {:induction false} WakeCloses(s: State)
    requires CloseInv(s) && Enabled(s, Wake) && Inv(WakeHolder(s))
    ensures CloseInv(WakeHolder(s))
  {
    var s' := WakeHolder(s);
    assert forall j :: 0 <= j < |s.jobs| ==> !RunningMethod(s.jobs[j]);
    if s'.trace != s.trace {
      WakeStartsCall(s);
    }
  }

  lemma {:induction false} CallJobCloses(s: State, step: Step)
    requires CloseInv(s) && Enabled(s, step) && Inv(Apply(s, step)) && (step.Send? || step.EndCall?)
    ensures CloseInv(Apply(s, step))
  {
    var s' := Apply(s, step);
    assert Awaited(s) == Some(step.job) by { assert RunningMethod(s.jobs[step.job]); }
    var e := s'.trace[|s.trace|];
    Append(s.trace, e);
    ReadyStays(s.trace, e, s.driver.value);
    assert forall j :: 0 <= j < |s'.jobs| && s'.jobs[j].CloseJob? ==> s'.jobs[j].closed by {
      assert forall j :: 0 <= j < |s.jobs| && j != step.job ==> !RunningMethod(s.jobs[j]);
    }
  }

  lemma {:induction false} CloseJobCloses(s: State, j: nat)
    requires CloseInv(s) && Enabled(s, EndClose(j)) && Inv(Apply(s, EndClose(j)))
    ensures CloseInv(Apply(s, EndClose(j)))
  {
    assert Awaited(s) == Some(j) by { assert RunningMethod(s.jobs[j]); }
    AppendCloseEnd(s.trace, s.jobs[j].owner, s.jobs[j].driver);
    assert forall k :: 0 <= k < |s.jobs| && k != j ==> !RunningMethod(s.jobs[k]);
  }

  /** Every other step leaves the trace alone. */
  lemma {:induction false} SilentStepCloses(s: State, step: Step)
    requires CloseInv(s) && Enabled(s, step) && Inv(Apply(s, step))
    requires step.Tick? || step.Arrive? || step.Acquire? || step.TimeOut? || step.EndOpen?
    ensures CloseInv(Apply(s, step))
  {
    assert Apply(s, step).trace == s.trace;
  }

  lemma {:induction false} CloseStep(s: State, step: Step)
    requires CloseInv(s) && Enabled(s, step)
    ensures CloseInv(Apply(s, step))
  {
    InvStep(s, step);
    match step {
      case Resume => ResumeCloses(s);
      case Wake => WakeCloses(s);
      case Send(_, _) => CallJobCloses(s, step);
      case EndCall(_, _) => CallJobCloses(s, step);
      case EndClose(j) => CloseJobCloses(s, j);
      case _ => SilentStepCloses(s, step);
    }
  }

  lemma {:induction false} CloseHolds(setup: Setup, start: real, steps: seq<Step>, s: State)
    requires Reaches(setup, start, steps, s)
    ensures CloseInv(s)
  {
    if steps != [] {
      var n := |steps| - 1;
      var before := Run(Init(setup, start), steps[..n]).value;
      CloseHolds(setup, start, steps[..n], before);
      CloseStep(before, steps[n]);
    }
  }

  /** Under any interleaving of calls and closes: no driver is closed twice,
      nothing is asked of a driver once its close has begun, a call that starts
      after a close acts on a driver opened after it, and a method that is still
      running runs on a driver whose close has not begun. */
  lemma ClosedDriversRest(setup: Setup, start: real, steps: seq<Step>, s: State)
    requires Reaches(setup, start, steps, s)
    ensures NoUseAfterClose(s.trace) && FreshlyOpened(s.trace)
    ensures forall i, j :: 0 <= i < j < |s.trace| && s.trace[i].CloseStarted? && s.trace[j].CloseStarted? ==>
              s.trace[i].driver != s.trace[j].driver
    ensures forall j :: 0 <= j < |s.jobs| && s.jobs[j].CallJob? && s.jobs[j].end.None? ==>
              !ClosedBefore(s.trace, |s.trace|, s.jobs[j].driver)
  {
    CloseHolds(setup, start, steps, s);
    forall j | 0 <= j < |s.jobs| && s.jobs[j].CallJob? && s.jobs[j].end.None?
      ensures !ClosedBefore(s.trace, |s.trace|, s.jobs[j].driver)
    {
      assert Awaited(s) == Some(j);
    }
  }
}
