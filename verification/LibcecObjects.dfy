/** What becomes of libcec's objects when SWIG drivers are opened and closed
    through the protocol.  Every open works on a driver of its own, so an object
    is named after the task that opened it; and every object that exists and was
    not closed is accounted for: it is the stored driver's or in the hands of the
    lock's holder, or its open was given up, or a raising binding lost it. */
module LibcecObjects {
  import opened Prelude
  import opened AdapterProtocol
  import opened AdapterSafety
  import opened AdapterTiming
  import S = SwigDrivers

  // ------------------------------------------------- whose driver is whose

  ghost predicate OpenOf(s: State, j: int, t: nat) {
    0 <= j < |s.jobs| && s.jobs[j].OpenJob? && s.jobs[j].owner == t
  }

  /** The driver that is being closed. */
  function Closing(s: State): Option<nat>
    requires Shaped(s)
  {
    var j := Awaited(s);
    if j.Some? && j.value < |s.jobs| && s.jobs[j.value].CloseJob? && !s.jobs[j.value].closed
    then Some(s.jobs[j.value].driver) else None
  }

  ghost predicate OpenedBy(s: State, d: nat) {
    exists j :: OpenOf(s, j, d) && s.jobs[j].settled == Some(Opened)
  }

  /** No task opens twice. */
  ghost predicate OwnersInv(s: State)
    requires Shaped(s)
  {
    && (forall j, k, t :: OpenOf(s, j, t) && OpenOf(s, k, t) ==> j == k)
    && (s.holder.Some? && s.phases[s.holder.value].Holding? ==>
          forall j :: 0 <= j < |s.jobs| ==> s.jobs[j].owner != s.holder.value)
  }

  /** The stored driver, or the one being closed, was opened; and it is not one
      whose open was given up. */
  ghost predicate PlaceInv(s: State)
    requires Shaped(s)
  {
    && (s.driver.Some? ==> OpenedBy(s, s.driver.value))
    && (Closing(s).Some? ==> OpenedBy(s, Closing(s).value))
    && (forall j :: TimedOut(s, j) ==>
          && 0 <= j < |s.jobs| && s.jobs[j].OpenJob? && Awaited(s) != Some(j)
          && s.driver != Some(s.jobs[j].owner) && Closing(s) != Some(s.jobs[j].owner))
  }

  ghost predicate DriverInv(s: State) {
    Inv(s) && OwnersInv(s) && PlaceInv(s)
  }

  /** A step that starts no open, and after which nobody is about to run. */
  lemma {:induction false} SameOwners(s: State, s': State)
    requires Shaped(s) && OwnersInv(s) && Shaped(s')
    requires forall j, t :: OpenOf(s', j, t) ==> OpenOf(s, j, t)
    requires s'.holder.Some? && s'.phases[s'.holder.value].Holding? ==>
               forall j :: 0 <= j < |s'.jobs| ==> s'.jobs[j].owner != s'.holder.value
    ensures OwnersInv(s')
  {
  }

  lemma {:induction false} ResumeOwners(s: State)
    requires Shaped(s) && OwnersInv(s) && Enabled(s, Resume) && Shaped(ResumeHolder(s))
    ensures OwnersInv(ResumeHolder(s))
  {
    var s' := ResumeHolder(s);
    assert |s'.jobs| > |s.jobs| ==> s'.jobs[|s.jobs|].owner == s.holder.value;
    assert forall j, t :: j < |s.jobs| ==> (OpenOf(s', j, t) <==> OpenOf(s, j, t));
  }

  lemma {:induction false} OwnersStep(s: State, step: Step)
    requires JobInv(s) && LockInv(s) && OwnersInv(s) && Enabled(s, step) && Shaped(Apply(s, step))
    ensures OwnersInv(Apply(s, step))
  {
    if step.Resume? {
      ResumeOwners(s);
    } else {
      SameOwners(s, Apply(s, step));
    }
  }

  /** The open job j succeeded and its driver is not closed yet: somebody stores
      it, closes it or waits for it, or nobody will ever ask for it. */
  ghost predicate Held(s: State, j: int)
    requires Shaped(s) && 0 <= j < |s.jobs|
  {
    || Awaited(s) == Some(j)
    || s.driver == Some(s.jobs[j].owner)
    || Closing(s) == Some(s.jobs[j].owner)
    || TimedOut(s, j)
  }

  /** From one state to the next, drivers change hands but are neither lost nor
      gained. */
  ghost predicate HandsOver(s: State, s': State)
    requires Shaped(s) && Shaped(s')
  {
    && |s.jobs| <= |s'.jobs|
    && (forall j :: 0 <= j < |s.jobs| && s.jobs[j].OpenJob? ==>
          s'.jobs[j] == s.jobs[j] && (s.jobs[j].settled == Some(Opened) ==> (Held(s', j) <==> Held(s, j))))
    && (forall j :: |s.jobs| <= j < |s'.jobs| && s'.jobs[j].OpenJob? ==> s'.jobs[j].settled.None?)
  }

  lemma {:induction false} SameTimeouts(s: State, s': State)
    requires s'.timeouts == s.timeouts
    ensures forall j :: TimedOut(s', j) <==> TimedOut(s, j)
  {
  }

  lemma {:induction false} ResumePlaces(s: State)
    requires DriverInv(s) && Enabled(s, Resume) && Shaped(ResumeHolder(s))
    ensures PlaceInv(ResumeHolder(s)) && HandsOver(s, ResumeHolder(s))
  {
    var s' := ResumeHolder(s);
    SameTimeouts(s, s');
    assert Awaited(s).None? && Closing(s).None?;
    if s.driver.Some? {
      var j :| OpenOf(s, j, s.driver.value) && s.jobs[j].settled == Some(Opened);
      assert OpenOf(s', j, s.driver.value) && s'.jobs[j].settled == Some(Opened);
    }
  }

  /** The holder's open has succeeded, and its driver is stored. */
  lemma {:induction false} WakeStores(s: State)
    requires DriverInv(s) && Enabled(s, Wake) && Shaped(WakeHolder(s)) && WakeHolder(s).jobs != s.jobs
    ensures PlaceInv(WakeHolder(s)) && HandsOver(s, WakeHolder(s))
  {
    var s', k, h := WakeHolder(s), Awaited(s).value, s.holder.value;
    SameTimeouts(s, s');
    assert OpenOf(s, k, h) && OpenOf(s', k, h) && s'.jobs[k].settled == Some(Opened);
    assert s.driver.None? && s'.driver == Some(h) && Closing(s).None? && Closing(s').None?;
    forall j | 0 <= j < |s.jobs| && s.jobs[j].OpenJob? ensures s.jobs[j].owner == h ==> j == k {
      assert OpenOf(s, j, s.jobs[j].owner);
    }
    assert Awaited(s') == Some(|s.jobs|);
  }

  lemma {:induction false} WakeLetsGo(s: State)
    requires DriverInv(s) && Enabled(s, Wake) && Shaped(WakeHolder(s)) && WakeHolder(s).jobs == s.jobs
    ensures PlaceInv(WakeHolder(s)) && HandsOver(s, WakeHolder(s))
  {
    var s' := WakeHolder(s);
    SameTimeouts(s, s');
    assert s'.driver == s.driver && Awaited(s').None? && Closing(s).None? && Closing(s').None?;
    assert forall j, t :: OpenOf(s, j, t) ==> OpenOf(s', j, t);
    assert forall d :: OpenedBy(s, d) ==> OpenedBy(s', d);
  }

  lemma {:induction false} WakePlaces(s: State)
    requires DriverInv(s) && Enabled(s, Wake) && Shaped(WakeHolder(s))
    ensures PlaceInv(WakeHolder(s)) && HandsOver(s, WakeHolder(s))
  {
    if WakeHolder(s).jobs == s.jobs {
      WakeLetsGo(s);
    } else {
      WakeStores(s);
    }
  }

  lemma {:induction false} TimeOutPlaces(s: State)
    requires DriverInv(s) && Enabled(s, TimeOut) && Shaped(TimeOutHolder(s))
    ensures PlaceInv(TimeOutHolder(s)) && HandsOver(s, TimeOutHolder(s))
  {
    var s', k := TimeOutHolder(s), Awaited(s).value;
    assert s'.timeouts[|s.timeouts|].job == k;
    assert forall i :: 0 <= i < |s.timeouts| ==> s'.timeouts[i] == s.timeouts[i];
    assert forall j :: TimedOut(s', j) <==> TimedOut(s, j) || j == k;
    assert Closing(s).None? && Closing(s').None?;
  }

  /** A step after which the same job is awaited, and no open has ended. */
  lemma {:induction false} QuietPlaces(s: State, s': State)
    requires Shaped(s) && PlaceInv(s) && Shaped(s') && s'.timeouts == s.timeouts
    requires s'.driver == s.driver && Awaited(s') == Awaited(s) && |s'.jobs| == |s.jobs|
    requires forall j :: 0 <= j < |s.jobs| ==>
               s'.jobs[j] == s.jobs[j] || (s.jobs[j].CallJob? && s'.jobs[j].CallJob?)
    ensures PlaceInv(s') && HandsOver(s, s')
  {
    SameTimeouts(s, s');
    assert Closing(s') == Closing(s);
    assert forall j, t :: OpenOf(s, j, t) ==> OpenOf(s', j, t) && s'.jobs[j] == s.jobs[j];
    assert forall d :: OpenedBy(s, d) ==> OpenedBy(s', d);
  }

  /** Every step but the end of an open or of a close. */
  lemma {:induction false} OtherPlaces(s: State, step: Step)
    requires DriverInv(s) && Enabled(s, step) && Inv(Apply(s, step)) && !step.EndOpen? && !step.EndClose?
    ensures PlaceInv(Apply(s, step)) && HandsOver(s, Apply(s, step))
  {
    match step {
      case Resume => ResumePlaces(s);
      case Wake => WakePlaces(s);
      case TimeOut => TimeOutPlaces(s);
      case Tick(_) => QuietPlaces(s, Apply(s, step));
      case Arrive(_) => QuietPlaces(s, Apply(s, step));
      case Acquire => QuietPlaces(s, Apply(s, step));
      case Send(_, _) => QuietPlaces(s, Apply(s, step));
      case EndCall(_, _) => QuietPlaces(s, Apply(s, step));
    }
  }

  lemma {:induction false} EndOpenPlaces(s: State, j: nat, result: OpenEnd)
    requires DriverInv(s) && Enabled(s, EndOpen(j, result)) && Inv(Apply(s, EndOpen(j, result)))
    ensures var s' := Apply(s, EndOpen(j, result));
            && PlaceInv(s') && Held(s', j)
            && forall k :: 0 <= k < |s.jobs| && k != j && s.jobs[k].OpenJob? ==>
                 s'.jobs[k] == s.jobs[k] && (Held(s', k) <==> Held(s, k))
  {
    var s' := Apply(s, EndOpen(j, result));
    SameTimeouts(s, s');
    assert RunningOpen(s.jobs[j]);
    assert Closing(s') == Closing(s) && Awaited(s') == Awaited(s);
    assert forall k, t :: OpenOf(s, k, t) && s.jobs[k].settled == Some(Opened) ==>
      OpenOf(s', k, t) && s'.jobs[k].settled == Some(Opened);
    assert forall d :: OpenedBy(s, d) ==> OpenedBy(s', d);
  }

  lemma {:induction false} EndClosePlaces(s: State, j: nat)
    requires DriverInv(s) && Enabled(s, EndClose(j)) && Inv(Apply(s, EndClose(j)))
    ensures var s' := Apply(s, EndClose(j));
            && PlaceInv(s') && Closing(s) == Some(s.jobs[j].driver)
            && forall k :: 0 <= k < |s.jobs| && s.jobs[k].OpenJob? ==>
                 s'.jobs[k] == s.jobs[k] &&
                 (Held(s', k) <==> Held(s, k) && s.jobs[k].owner != s.jobs[j].driver)
  {
    var s' := Apply(s, EndClose(j));
    SameTimeouts(s, s');
    assert RunningMethod(s.jobs[j]);
    assert Awaited(s) == Some(j) && s.driver.None? && Closing(s').None?;
  }

  // ------------------------------------------------------------- the objects

  /** What became of an object: its open is still under way, it is open, it was
      closed, or the binding raised and nothing will close it. */
  datatype Fate = Made | Kept | Closed | Lost

  /** The machine, and the objects there have been, by the task whose open made
      them. */
  datatype Ledger = Ledger(core: State, fates: map<nat, Fate>)

  datatype LedgerStep =
    | Other(step: Step)
    | Make(job: nat)                  // an open that is under way gets its object
    | OpenEnds(job: nat, held: bool, session: S.Session, error: Thrown)  // error: what it raises, if it fails
    | CloseEnds(job: nat)

  /** `SwigDriver.open` on a new driver gets as far as creating an object. */
  predicate Makes(adapter: string, held: bool, session: S.Session) {
    !(adapter != "" && held) && S.Creates(session.creation)
  }

  function FateOf(adapter: string, held: bool, session: S.Session): Fate {
    var books := S.AfterOpen(adapter, S.NEW_BOOKS, held, session);
    if books.lib.Some? then Kept else if books.closed != [] then Closed else Lost
  }

  function ResultOf(adapter: string, held: bool, session: S.Session, error: Thrown): OpenEnd {
    if S.AfterOpen(adapter, S.NEW_BOOKS, held, session).lib.Some? then Opened else OpenRaised(error)
  }

  /** These are the books of the driver itself: one object if it got so far, open
      exactly if the driver stores it, and lost exactly if the call abandons it. */
  lemma FatesAreBooks(adapter: string, held: bool, session: S.Session)
    ensures var books := S.AfterOpen(adapter, S.NEW_BOOKS, held, session);
            var fate := FateOf(adapter, held, session);
            && books.created == (if Makes(adapter, held, session) then 1 else 0)
            && (Makes(adapter, held, session) ==>
                  && (fate.Kept? <==> books.lib == Some(0))
                  && (fate.Closed? <==> books.closed == [0])
                  && (fate.Lost? <==> S.Abandons(adapter, S.NEW_BOOKS, S.OpOpen(held, session)))
                  && (fate.Kept? ==> S.AfterClose(books).closed == [0]))
            && (fate.Kept? ==> Makes(adapter, held, session))
  {
  }

  predicate LedgerEnabled(adapter: string, l: Ledger, step: LedgerStep) {
    match step
    case Other(step) => Enabled(l.core, step) && !step.EndOpen? && !step.EndClose?
    case Make(j) =>
      j < |l.core.jobs| && RunningOpen(l.core.jobs[j]) && l.core.jobs[j].owner !in l.fates
    case OpenEnds(j, held, session, error) =>
      Enabled(l.core, EndOpen(j, ResultOf(adapter, held, session, error))) &&
      (l.core.jobs[j].owner in l.fates <==> Makes(adapter, held, session))
    case CloseEnds(j) => Enabled(l.core, EndClose(j))
  }

  function LedgerApply(adapter: string, l: Ledger, step: LedgerStep): Ledger
    requires LedgerEnabled(adapter, l, step)
  {
    match step
    case Other(step) => l.(core := Apply(l.core, step))
    case Make(j) => l.(fates := l.fates[l.core.jobs[j].owner := Made])
    case OpenEnds(j, held, session, error) =>
      Ledger(Apply(l.core, EndOpen(j, ResultOf(adapter, held, session, error))),
             if Makes(adapter, held, session)
             then l.fates[l.core.jobs[j].owner := FateOf(adapter, held, session)] else l.fates)
    case CloseEnds(j) =>
      Ledger(Apply(l.core, EndClose(j)), l.fates[l.core.jobs[j].driver := Closed])
  }

  function LedgerRun(adapter: string, l: Ledger, steps: seq<LedgerStep>): Option<Ledger> {
    if steps == [] then Some(l) else
    var before := LedgerRun(adapter, l, steps[..|steps| - 1]);
    var step := steps[|steps| - 1];
    if before.Some? && LedgerEnabled(adapter, before.value, step)
    then Some(LedgerApply(adapter, before.value, step)) else None
  }

  /** The fate of what an open made agrees with how it ended and who holds it. */
  ghost predicate Right(l: Ledger, j: int)
    requires Shaped(l.core) && 0 <= j < |l.core.jobs| && l.core.jobs[j].OpenJob?
  {
    var t, settled := l.core.jobs[j].owner, l.core.jobs[j].settled;
    if settled.None? then t in l.fates ==> l.fates[t].Made?
    else if settled.value.Opened? then t in l.fates && l.fates[t] == if Held(l.core, j) then Kept else Closed
    else t in l.fates ==> l.fates[t].Closed? || l.fates[t].Lost?
  }

  ghost predicate FatesInv(l: Ledger)
    requires Shaped(l.core)
  {
    && (forall j :: 0 <= j < |l.core.jobs| && l.core.jobs[j].OpenJob? ==> Right(l, j))
    && (forall t :: t in l.fates ==> exists j :: OpenOf(l.core, j, t))
  }

  ghost predicate LedgerInv(l: Ledger) {
    DriverInv(l.core) && FatesInv(l)
  }

  /** Drivers change hands, and an open that starts is the first of its task. */
  lemma {:induction false} FatesFollow(l: Ledger, s': State)
    requires Shaped(l.core) && FatesInv(l) && Shaped(s') && HandsOver(l.core, s')
    requires forall j :: 0 <= j < |l.core.jobs| ==> (s'.jobs[j].OpenJob? <==> l.core.jobs[j].OpenJob?)
    requires forall j, k :: |l.core.jobs| <= j < |s'.jobs| && s'.jobs[j].OpenJob? ==>
               !OpenOf(l.core, k, s'.jobs[j].owner)
    ensures FatesInv(l.(core := s'))
  {
    var l' := l.(core := s');
    forall t | t in l.fates ensures exists j :: OpenOf(s', j, t) {
      var j :| OpenOf(l.core, j, t);
      assert OpenOf(s', j, t);
    }
    forall j | 0 <= j < |s'.jobs| && s'.jobs[j].OpenJob? ensures Right(l', j) {
      if j < |l.core.jobs| {
        assert Right(l, j);
      }
    }
  }

  lemma {:induction false} OpensAreKept(s: State, step: Step)
    requires AwaitInv(s) && OwnersInv(s) && Enabled(s, step)
    ensures var s' := Apply(s, step);
            && |s.jobs| <= |s'.jobs|
            && (forall j :: 0 <= j < |s.jobs| ==> (s'.jobs[j].OpenJob? <==> s.jobs[j].OpenJob?))
            && (forall j, k :: |s.jobs| <= j < |s'.jobs| && s'.jobs[j].OpenJob? ==>
                  !OpenOf(s, k, s'.jobs[j].owner))
  {
  }

  lemma {:induction false} OtherKeeps(l: Ledger, step: Step)
    requires LedgerInv(l) && Enabled(l.core, step) && !step.EndOpen? && !step.EndClose?
    ensures LedgerInv(l.(core := Apply(l.core, step)))
  {
    InvStep(l.core, step);
    OwnersStep(l.core, step);
    OtherPlaces(l.core, step);
    OpensAreKept(l.core, step);
    FatesFollow(l, Apply(l.core, step));
  }

  /** The open job j has ended, and what it made has its fate. */
  lemma {:induction false} FatesAfterOpen(l: Ledger, l': Ledger, j: nat)
    requires Shaped(l.core) && OwnersInv(l.core) && FatesInv(l) && Shaped(l'.core) && j < |l.core.jobs|
    requires |l'.core.jobs| == |l.core.jobs| && l.core.jobs[j].OpenJob? && l'.core.jobs[j].OpenJob?
    requires l'.core.jobs[j].owner == l.core.jobs[j].owner
    requires forall k :: 0 <= k < |l.core.jobs| && k != j ==>
               && (l'.core.jobs[k].OpenJob? <==> l.core.jobs[k].OpenJob?)
               && (l.core.jobs[k].OpenJob? ==>
                     l'.core.jobs[k] == l.core.jobs[k] && (Held(l'.core, k) <==> Held(l.core, k)))
    requires var t := l.core.jobs[j].owner;
             l'.fates == l.fates || (t in l'.fates && l'.fates == l.fates[t := l'.fates[t]])
    requires Right(l', j)
    ensures FatesInv(l')
  {
    forall t | t in l'.fates ensures exists k :: OpenOf(l'.core, k, t) {
      if t == l.core.jobs[j].owner {
        assert OpenOf(l'.core, j, t);
      } else {
        var k :| OpenOf(l.core, k, t);
        assert OpenOf(l'.core, k, t);
      }
    }
    forall k | 0 <= k < |l'.core.jobs| && l'.core.jobs[k].OpenJob? ensures Right(l', k) {
      if k != j {
        assert Right(l, k);
        assert OpenOf(l.core, j, l.core.jobs[j].owner) && OpenOf(l.core, k, l.core.jobs[k].owner);
      }
    }
  }

  lemma {:induction false} OpenEndsKeeps(
    adapter: string, l: Ledger, j: nat, held: bool, session: S.Session, error: Thrown)
    requires LedgerInv(l) && LedgerEnabled(adapter, l, OpenEnds(j, held, session, error))
    ensures LedgerInv(LedgerApply(adapter, l, OpenEnds(j, held, session, error)))
  {
    var s, result := l.core, ResultOf(adapter, held, session, error);
    FatesAreBooks(adapter, held, session);
    InvStep(s, EndOpen(j, result));
    OwnersStep(s, EndOpen(j, result));
    EndOpenPlaces(s, j, result);
    FatesAfterOpen(l, LedgerApply(adapter, l, OpenEnds(j, held, session, error)), j);
  }

  /** The driver d, which the open job made opened, has been closed. */
  lemma {:induction false} FatesAfterClose(l: Ledger, s': State, made: nat)
    requires Shaped(l.core) && OwnersInv(l.core) && FatesInv(l) && Shaped(s') && made < |l.core.jobs|
    requires |s'.jobs| == |l.core.jobs|
    requires l.core.jobs[made].OpenJob? && l.core.jobs[made].settled == Some(Opened)
    requires forall k :: 0 <= k < |l.core.jobs| ==>
               && (s'.jobs[k].OpenJob? <==> l.core.jobs[k].OpenJob?)
               && (l.core.jobs[k].OpenJob? ==>
                     && s'.jobs[k] == l.core.jobs[k]
                     && (Held(s', k) <==> Held(l.core, k) && l.core.jobs[k].owner != l.core.jobs[made].owner))
    ensures FatesInv(Ledger(s', l.fates[l.core.jobs[made].owner := Closed]))
  {
    var d := l.core.jobs[made].owner;
    var l' := Ledger(s', l.fates[d := Closed]);
    assert Right(l, made) && OpenOf(l.core, made, d);
    forall t | t in l'.fates ensures exists k :: OpenOf(s', k, t) {
      var k :| OpenOf(l.core, k, t);
      assert OpenOf(s', k, t);
    }
    forall k | 0 <= k < |s'.jobs| && s'.jobs[k].OpenJob? ensures Right(l', k) {
      assert Right(l, k) && OpenOf(l.core, k, l.core.jobs[k].owner);
    }
  }

  lemma {:induction false} CloseEndsKeeps(adapter: string, l: Ledger, j: nat)
    requires LedgerInv(l) && LedgerEnabled(adapter, l, CloseEnds(j))
    ensures LedgerInv(LedgerApply(adapter, l, CloseEnds(j)))
  {
    var s := l.core;
    InvStep(s, EndClose(j));
    OwnersStep(s, EndClose(j));
    EndClosePlaces(s, j);
    var made: nat :| OpenOf(s, made, s.jobs[j].driver) && s.jobs[made].settled == Some(Opened);
    FatesAfterClose(l, Apply(s, EndClose(j)), made);
  }

  lemma {:induction false} MakeKeeps(adapter: string, l: Ledger, j: nat)
    requires LedgerInv(l) && LedgerEnabled(adapter, l, Make(j))
    ensures LedgerInv(LedgerApply(adapter, l, Make(j)))
  {
    FatesAfterOpen(l, LedgerApply(adapter, l, Make(j)), j);
  }

  lemma {:induction false} LedgerStepKeeps(adapter: string, l: Ledger, step: LedgerStep)
    requires LedgerInv(l) && LedgerEnabled(adapter, l, step)
    ensures LedgerInv(LedgerApply(adapter, l, step))
  {
    match step {
      case Other(step) => OtherKeeps(l, step);
      case Make(j) => MakeKeeps(adapter, l, j);
      case OpenEnds(j, held, session, error) => OpenEndsKeeps(adapter, l, j, held, session, error);
      case CloseEnds(j) => CloseEndsKeeps(adapter, l, j);
    }
  }

  // ---------------------------------------------------------- what is open

  ghost predicate LedgerReaches(
    adapter: string, setup: Setup, start: real, steps: seq<LedgerStep>, l: Ledger)
  {
    LedgerRun(adapter, Ledger(Init(setup, start), map[]), steps) == Some(l)
  }

  /** What the protocol sees of it. */
  function CoreStep(adapter: string, l: Ledger, step: LedgerStep): Step
    requires LedgerEnabled(adapter, l, step) && !step.Make?
  {
    match step
    case Other(step) => step
    case OpenEnds(j, held, session, error) => EndOpen(j, ResultOf(adapter, held, session, error))
    case CloseEnds(j) => EndClose(j)
  }

  /** The core of a run with objects is a run of the protocol. */
  lemma {:induction false} LedgerHolds(adapter: string, setup: Setup, start: real, steps: seq<LedgerStep>, l: Ledger)
    requires LedgerReaches(adapter, setup, start, steps, l)
    ensures LedgerInv(l) && exists core :: Reaches(setup, start, core, l.core)
  {
    if steps == [] {
      assert Reaches(setup, start, [], l.core);
      InvHolds(setup, start, [], l.core);
    } else {
      var n := |steps| - 1;
      var before := LedgerRun(adapter, Ledger(Init(setup, start), map[]), steps[..n]).value;
      LedgerHolds(adapter, setup, start, steps[..n], before);
      LedgerStepKeeps(adapter, before, steps[n]);
      var core :| Reaches(setup, start, core, before.core);
      if !steps[n].Make? {
        var step := CoreStep(adapter, before, steps[n]);
        assert (core + [step])[..|core|] == core;
        assert Reaches(setup, start, core + [step], l.core);
      }
    }
  }

  /** The objects that were made and not closed. */
  ghost function Unclosed(l: Ledger): set<nat> {
    set t | t in l.fates && !l.fates[t].Closed?
  }

  /** Those a raising binding abandoned. */
  ghost function LostObjects(l: Ledger): set<nat> {
    set t | t in l.fates && l.fates[t].Lost?
  }

  ghost function StoredObject(s: State): set<nat> {
    if s.driver.Some? then {s.driver.value} else {}
  }

  predicate HasRaised(job: Job) {
    job.OpenJob? && job.settled.Some? && job.settled.value.OpenRaised?
  }

  /** The object the lock's holder is opening or closing. */
  ghost function ObjectInHand(l: Ledger): set<nat>
    requires Shaped(l.core)
  {
    set t | t in l.fates && (Closing(l.core) == Some(t) ||
              (Awaited(l.core).Some? && OpenOf(l.core, Awaited(l.core).value, t) &&
               !HasRaised(l.core.jobs[Awaited(l.core).value])))
  }

  ghost predicate GivenUp(s: State, t: nat) {
    exists j :: OpenOf(s, j, t) && TimedOut(s, j) && !HasRaised(s.jobs[j])
  }

  /** Those whose open was given up and has not failed, and perhaps succeeded
      later. */
  ghost function Strays(l: Ledger): set<nat> {
    set t | t in l.fates && GivenUp(l.core, t)
  }

  lemma {:induction false} UsedIsKept(l: Ledger, t: nat)
    requires LedgerInv(l) && (l.core.driver == Some(t) || Closing(l.core) == Some(t))
    ensures t in l.fates && l.fates[t].Kept?
    ensures forall j :: OpenOf(l.core, j, t) ==> Awaited(l.core) != Some(j) && !TimedOut(l.core, j)
  {
    var j :| OpenOf(l.core, j, t) && l.core.jobs[j].settled == Some(Opened);
    assert Right(l, j);
    assert forall k :: OpenOf(l.core, k, t) ==> k == j;
  }

  /** The object of the open job j, which neither is stored nor being closed. */
  lemma {:induction false} UnusedIsSomewhere(l: Ledger, t: nat, j: int)
    requires LedgerInv(l) && l.core.driver != Some(t) && Closing(l.core) != Some(t)
    requires t in l.fates && OpenOf(l.core, j, t)
    ensures t in ObjectInHand(l) <==> Awaited(l.core) == Some(j) && !HasRaised(l.core.jobs[j])
    ensures t in Strays(l) <==> TimedOut(l.core, j) && !HasRaised(l.core.jobs[j])
    ensures t in Unclosed(l) <==> t in ObjectInHand(l) || t in Strays(l) || t in LostObjects(l)
    ensures t in LostObjects(l) ==> HasRaised(l.core.jobs[j])
    ensures TimedOut(l.core, j) ==> Awaited(l.core) != Some(j)
  {
    assert Right(l, j);
    assert RunningOpen(l.core.jobs[j]) ==> Awaited(l.core) == Some(j) || TimedOut(l.core, j);
    assert forall k :: OpenOf(l.core, k, t) ==> k == j;
  }

  lemma {:induction false} ObjectIsSomewhere(l: Ledger, t: nat)
    requires LedgerInv(l)
    ensures t in Unclosed(l) <==>
              t in StoredObject(l.core) || t in ObjectInHand(l) || t in Strays(l) || t in LostObjects(l)
    ensures t in StoredObject(l.core) ==> t !in ObjectInHand(l) + Strays(l) + LostObjects(l)
    ensures t in ObjectInHand(l) ==> t !in Strays(l) + LostObjects(l)
    ensures t in Strays(l) ==> t !in LostObjects(l)
  {
    if l.core.driver == Some(t) || Closing(l.core) == Some(t) {
      UsedIsKept(l, t);
      assert l.core.driver == Some(t) ==> Closing(l.core) != Some(t);
    } else if t in l.fates {
      var j :| OpenOf(l.core, j, t);
      UnusedIsSomewhere(l, t, j);
    }
  }

  lemma {:induction false} OneObjectInUse(l: Ledger)
    requires LedgerInv(l)
    ensures |StoredObject(l.core) + ObjectInHand(l)| <= 1
  {
    var s := l.core;
    assert forall t, u :: t in ObjectInHand(l) && u in ObjectInHand(l) ==> t == u;
    assert ObjectInHand(l) != {} ==> s.driver.None?;
    AtMostOne(ObjectInHand(l));
    if s.driver.Some? {
      assert StoredObject(s) + ObjectInHand(l) == {s.driver.value};
    } else {
      assert StoredObject(s) + ObjectInHand(l) == ObjectInHand(l);
    }
  }

  lemma {:induction false} ObjectsArePartitioned(l: Ledger)
    requires LedgerInv(l)
    ensures Unclosed(l) == StoredObject(l.core) + ObjectInHand(l) + Strays(l) + LostObjects(l)
    ensures StoredObject(l.core) !! ObjectInHand(l) !! Strays(l) !! LostObjects(l)
  {
    var stored, inHand, strays, lost := StoredObject(l.core), ObjectInHand(l), Strays(l), LostObjects(l);
    forall t
      ensures t in Unclosed(l) <==> t in stored || t in inHand || t in strays || t in lost
      ensures t in stored ==> t !in inHand + strays + lost
      ensures t in inHand ==> t !in strays + lost
      ensures t in strays ==> t !in lost
    {
      ObjectIsSomewhere(l, t);
    }
  }

  lemma {:induction false} StraysAreFew(l: Ledger)
    requires LedgerInv(l)
    ensures |Strays(l)| <= |l.core.timeouts|
  {
    var s := l.core;
    var owner := (t: Timeout) => if t.job < |s.jobs| then s.jobs[t.job].owner else 0;
    forall t | t in Strays(l) ensures exists k :: 0 <= k < |s.timeouts| && owner(s.timeouts[k]) == t {
      var j :| OpenOf(s, j, t) && TimedOut(s, j) && !HasRaised(s.jobs[j]);
      var k :| 0 <= k < |s.timeouts| && s.timeouts[k].job == j;
      assert owner(s.timeouts[k]) == t;
    }
    OneEach(s.timeouts, owner, Strays(l));
  }

  lemma StraysTakeTime(setup: Setup, start: real, steps: seq<Step>, l: Ledger)
    requires LedgerInv(l) && Reaches(setup, start, steps, l.core)
    ensures Strays(l) != {} ==> start + TimeOfLeak(|Strays(l)|) <= l.core.now
  {
    StraysAreFew(l);
    AbandonedThreadsAreRare(setup, start, steps, l.core);
    if Strays(l) != {} {
      LeaksTakeTime(|Strays(l)|, |l.core.timeouts|);
    }
  }

  /** In every run of the protocol over SWIG drivers: the objects made and not
      closed are the stored driver's, the one the lock's holder has in hand, those
      of opens that were given up and have not failed, and those a raising binding
      lost, and no object is two of these.  Of the first two there is one at most,
      and n of the third kind take 20 + 80(n - 1) seconds. */
  lemma ObjectsAreAccountedFor(
    adapter: string, setup: Setup, start: real, steps: seq<LedgerStep>, l: Ledger)
    requires LedgerReaches(adapter, setup, start, steps, l)
    ensures Shaped(l.core)
    ensures Unclosed(l) == StoredObject(l.core) + ObjectInHand(l) + Strays(l) + LostObjects(l)
    ensures StoredObject(l.core) !! ObjectInHand(l) !! Strays(l) !! LostObjects(l)
    ensures |StoredObject(l.core) + ObjectInHand(l)| <= 1
    ensures l.core.holder.None? ==> ObjectInHand(l) == {}
    ensures Strays(l) != {} ==> start + TimeOfLeak(|Strays(l)|) <= l.core.now
  {
    LedgerHolds(adapter, setup, start, steps, l);
    ObjectsArePartitioned(l);
    OneObjectInUse(l);
    var core :| Reaches(setup, start, core, l.core);
    StraysTakeTime(setup, start, core, l);
  }

  lemma SettledStays(s: State, step: Step, j: nat)
    requires AwaitInv(s) && Enabled(s, step) && j < |s.jobs| && s.jobs[j].OpenJob? && s.jobs[j].settled.Some?
    ensures j < |Apply(s, step).jobs| && Apply(s, step).jobs[j] == s.jobs[j]
    ensures s.timeouts <= Apply(s, step).timeouts
  {
  }

  /** Once an open that was given up has succeeded, nothing ever closes its
      object. */
  lemma {:induction false} StraysStay(adapter: string, l: Ledger, step: LedgerStep, t: nat)
    requires LedgerInv(l) && LedgerEnabled(adapter, l, step)
    requires t in Strays(l) && l.fates[t].Kept?
    ensures var l' := LedgerApply(adapter, l, step);
            t in Strays(l') && l'.fates[t].Kept?
  {
    var s, l' := l.core, LedgerApply(adapter, l, step);
    var j :| OpenOf(s, j, t) && TimedOut(s, j) && !HasRaised(s.jobs[j]);
    var k :| 0 <= k < |s.timeouts| && s.timeouts[k].job == j;
    assert Right(l, j);
    if !step.Make? {
      SettledStays(s, CoreStep(adapter, l, step), j);
    }
    assert l'.core.timeouts[k].job == j;
    assert OpenOf(l'.core, j, t) && TimedOut(l'.core, j);
    LedgerStepKeeps(adapter, l, step);
    assert Right(l', j);
  }

  // --------------------------------------------------- every run has objects

  /** An open of a new driver that ends with this result. */
  function SessionFor(makes: bool, result: OpenEnd): S.Session {
    var answers := (k: nat) => S.Returned(true);
    S.Session(if !makes then S.CreateRaises else if result.Opened? then S.Ready else S.VideoRaises,
              S.Returned([""]), answers, answers)
  }

  lemma SessionFits(adapter: string, makes: bool, result: OpenEnd, error: Thrown)
    requires result.Opened? ==> makes
    requires result.OpenRaised? ==> result.error == error
    ensures Makes(adapter, false, SessionFor(makes, result)) == makes
    ensures ResultOf(adapter, false, SessionFor(makes, result), error) == result
  {
  }

  lemma ExtendLedger(adapter: string, l0: Ledger, steps: seq<LedgerStep>, l: Ledger, step: LedgerStep)
    returns (steps': seq<LedgerStep>, l': Ledger)
    requires LedgerRun(adapter, l0, steps) == Some(l) && LedgerEnabled(adapter, l, step)
    ensures l' == LedgerApply(adapter, l, step) && LedgerRun(adapter, l0, steps') == Some(l')
  {
    steps', l' := steps + [step], LedgerApply(adapter, l, step);
    assert steps'[..|steps|] == steps;
  }

  /** Nothing is left out: every run of the protocol is the core of such a run. */
  lemma {:induction false} EveryRunHasObjects(
    adapter: string, setup: Setup, start: real, core: seq<Step>, s: State)
    returns (steps: seq<LedgerStep>, l: Ledger)
    requires Reaches(setup, start, core, s)
    ensures LedgerReaches(adapter, setup, start, steps, l) && l.core == s
  {
    var first := Ledger(Init(setup, start), map[]);
    if core == [] {
      steps, l := [], first;
    } else {
      var n := |core| - 1;
      var step := core[n];
      steps, l := EveryRunHasObjects(adapter, setup, start, core[..n], Run(Init(setup, start), core[..n]).value);
      if step.EndOpen? {
        var t := l.core.jobs[step.job].owner;
        if step.result.Opened? && t !in l.fates {
          steps, l := ExtendLedger(adapter, first, steps, l, Make(step.job));
        }
        var error := if step.result.Opened? then OtherError("", "") else step.result.error;
        var makes := t in l.fates;
        SessionFits(adapter, makes, step.result, error);
        steps, l := ExtendLedger(adapter, first, steps, l,
                                 OpenEnds(step.job, false, SessionFor(makes, step.result), error));
      } else if step.EndClose? {
        steps, l := ExtendLedger(adapter, first, steps, l, CloseEnds(step.job));
      } else {
        steps, l := ExtendLedger(adapter, first, steps, l, Other(step));
      }
    }
  }
}
