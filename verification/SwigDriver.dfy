/** Opening and closing libcec through its SWIG binding (libcec_driver.py,
    SwigDriver).  Every object `ICECAdapter.Create` hands out is numbered, so
    that what becomes of each can be followed. */
module SwigDrivers {
  import opened Prelude

  const OPEN_ATTEMPTS := 3

  /** A call of the binding returns or raises. */
  datatype Answer<+T> = Returned(value: T) | Raised

  datatype Creation = CreateRaises | CreatesNothing | VideoRaises | Ready

  /** How the binding answers during one call: `opens(k)` and `pings(k)` belong
      to the k-th attempt at the port. */
  datatype Session = Session(
    creation: Creation, detected: Answer<seq<string>>, opens: nat -> Answer<bool>, pings: nat -> Answer<bool>)

  datatype Reason = HeldByAnother | NotInitialised | NoAdapter | CouldNotOpen(port: string) | NotOpen

  /** DriverUnavailable, or whatever the binding raised. */
  datatype Failure = Unavailable(reason: Reason) | BindingError

  datatype PortCall = Opening(port: string) | Pinging | Sleeping

  // ------------------------------------------------------------ attempts

  /** A ping that is answered overrides an `Open` that reports failure. */
  function Attempt(s: Session, k: nat): Answer<bool> {
    if s.opens(k) == Returned(false) then s.pings(k) else s.opens(k)
  }

  /** The first so many attempts are made: all but the last report failure, and
      the last one decides, or no attempt is left. */
  ghost predicate Tried(s: Session, tries: nat, result: Answer<bool>) {
    && 0 < tries <= OPEN_ATTEMPTS
    && (forall k: nat :: k < tries - 1 ==> Attempt(s, k) == Returned(false))
    && Attempt(s, tries - 1) == result
    && (result == Returned(false) ==> tries == OPEN_ATTEMPTS)
  }

  /** What attempts from the k-th on come to. */
  function Trying(s: Session, k: nat): Answer<bool>
    decreases OPEN_ATTEMPTS - k
  {
    if k >= OPEN_ATTEMPTS then Returned(false)
    else if Attempt(s, k) == Returned(false) then Trying(s, k + 1)
    else Attempt(s, k)
  }

  /** How it ends, and after how many attempts, is determined by the answers. */
  lemma TriedIsDetermined(s: Session, tries: nat, result: Answer<bool>, tries': nat, result': Answer<bool>)
    requires Tried(s, tries, result) && Tried(s, tries', result')
    ensures tries == tries' && result == result'
  {
  }

  /** The calls of one attempt. */
  function CallsOfAttempt(s: Session, port: string, k: nat): seq<PortCall> {
    [Opening(port)] + if s.opens(k) == Returned(false) then [Pinging] else []
  }

  /** So many attempts, with a sleep between any two. */
  function PortCalls(s: Session, port: string, tries: nat): seq<PortCall> {
    if tries == 0 then []
    else PortCalls(s, port, tries - 1) + (if tries == 1 then [] else [Sleeping]) + CallsOfAttempt(s, port, tries - 1)
  }

  lemma {:induction false} PortCallsAreFew(s: Session, port: string, tries: nat)
    requires tries > 0
    ensures |PortCalls(s, port, tries)| <= 3 * tries - 1
  {
    if tries > 1 {
      PortCallsAreFew(s, port, tries - 1);
    } else {
      assert PortCalls(s, port, 0) == [];
    }
  }

  /** So is what is asked of the port. */
  lemma PortCallsAreDetermined(s: Session, port: string, calls: seq<PortCall>, calls': seq<PortCall>)
    requires exists tries: nat, result :: Tried(s, tries, result) && calls == PortCalls(s, port, tries)
    requires exists tries: nat, result :: Tried(s, tries, result) && calls' == PortCalls(s, port, tries)
    ensures calls == calls' && |calls| <= 8
  {
    var tries: nat, result :| Tried(s, tries, result) && calls == PortCalls(s, port, tries);
    var tries': nat, result' :| Tried(s, tries', result') && calls' == PortCalls(s, port, tries');
    TriedIsDetermined(s, tries, result, tries', result');
    PortCallsAreFew(s, port, tries);
  }

  lemma TryingIsTried(s: Session, tries: nat, result: Answer<bool>)
    requires Tried(s, tries, result)
    ensures Trying(s, 0) == result
  {
    assert forall k: nat :: k < tries - 1 ==> Attempt(s, k) == Returned(false);
    assert Attempt(s, tries - 1) == result;
    assert Trying(s, 3) == Returned(false);
    assert Trying(s, 2) == Attempt(s, 2);
  }

  /** Every attempt before the k-th was refused by `Open` and by the ping. */
  ghost predicate RefusedBefore(s: Session, k: nat) {
    forall j: nat :: j < k ==> s.opens(j) == Returned(false) && s.pings(j) == Returned(false)
  }

  /** `Open` reports success, or reports failure and the ping is answered. */
  ghost predicate OpensAt(s: Session, k: nat) {
    RefusedBefore(s, k) &&
    (s.opens(k) == Returned(true) || (s.opens(k) == Returned(false) && s.pings(k) == Returned(true)))
  }

  /** `Open` raises, or reports failure and the ping raises. */
  ghost predicate RaisesAt(s: Session, k: nat) {
    RefusedBefore(s, k) &&
    (s.opens(k) == Raised || (s.opens(k) == Returned(false) && s.pings(k) == Raised))
  }

  lemma YesOrNo(answer: Answer<bool>)
    ensures answer == Raised || answer == Returned(true) || answer == Returned(false)
  {
    if answer.Returned? {
      var ok: bool := answer.value;
    }
  }

  /** What the two calls of one attempt can answer. */
  ghost predicate AnswerAt(s: Session, k: nat) {
    && s.opens(k) in {Raised, Returned(true), Returned(false)}
    && s.pings(k) in {Raised, Returned(true), Returned(false)}
  }

  /** The port opens exactly if one of three attempts succeeds, at `Open` or at the
      ping that makes up for it, with nothing raised before; an exception comes
      through exactly if one of them raises with no success before. */
  lemma OpensWhenSomeAttemptSucceeds(s: Session)
    ensures Trying(s, 0) == Returned(true) <==> exists k: nat :: k < 3 && OpensAt(s, k)
    ensures Trying(s, 0) == Raised <==> exists k: nat :: k < 3 && RaisesAt(s, k)
  {
    assert Trying(s, 3) == Returned(false);
    assert Trying(s, 2) == Attempt(s, 2);
    assert Trying(s, 1) == if Attempt(s, 1) == Returned(false) then Attempt(s, 2) else Attempt(s, 1);
    forall k: nat ensures AnswerAt(s, k) {
      YesOrNo(s.opens(k));
      YesOrNo(s.pings(k));
    }
    assert AnswerAt(s, 0) && AnswerAt(s, 1) && AnswerAt(s, 2);
    if Trying(s, 0) != Returned(false) {
      var k: nat := if Attempt(s, 0) != Returned(false) then 0 else if Attempt(s, 1) != Returned(false) then 1 else 2;
      assert Trying(s, 0) == Attempt(s, k) && RefusedBefore(s, k);
      assert Trying(s, 0) == Returned(true) ==> OpensAt(s, k);
      assert Trying(s, 0) == Raised ==> RaisesAt(s, k);
    }
  }

  function Count(calls: seq<PortCall>, call: PortCall): nat {
    if calls == [] then 0
    else Count(calls[..|calls| - 1], call) + if calls[|calls| - 1] == call then 1 else 0
  }

  lemma {:induction false} CountAppends(a: seq<PortCall>, b: seq<PortCall>, call: PortCall)
    ensures Count(a + b, call) == Count(a, call) + Count(b, call)
  {
    if b == [] {
      assert a + b == a;
    } else {
      CountAppends(a, b[..|b| - 1], call);
      assert (a + b)[..|a + b| - 1] == a + b[..|b| - 1];
    }
  }

  lemma CountsOfAttempt(s: Session, port: string, k: nat)
    ensures var calls := CallsOfAttempt(s, port, k);
            && Count(calls, Opening(port)) == 1 && Count(calls, Sleeping) == 0
            && Count(calls, Pinging) == if s.opens(k) == Returned(false) then 1 else 0
  {
    CountAppends([Opening(port)], [Pinging], Opening(port));
    CountAppends([Opening(port)], [Pinging], Sleeping);
    CountAppends([Opening(port)], [Pinging], Pinging);
  }

  /** How many of the first attempts `Open` reported as failed. */
  function FailedOpens(s: Session, tries: nat): nat {
    if tries == 0 then 0 else FailedOpens(s, tries - 1) + if s.opens(tries - 1) == Returned(false) then 1 else 0
  }

  lemma CountOneMoreAttempt(s: Session, port: string, tries: nat, call: PortCall)
    requires tries > 0
    ensures Count(PortCalls(s, port, tries), call) ==
              Count(PortCalls(s, port, tries - 1), call) +
              (if tries > 1 && call == Sleeping then 1 else 0) +
              Count(CallsOfAttempt(s, port, tries - 1), call)
  {
    var front, pause := PortCalls(s, port, tries - 1), if tries == 1 then [] else [Sleeping];
    CountAppends(front, pause, call);
    CountAppends(front + pause, CallsOfAttempt(s, port, tries - 1), call);
    assert Count([Sleeping], call) == if call == Sleeping then 1 else 0;
  }

  /** One sleep fewer than attempts, and one ping for every `Open` that failed. */
  lemma {:induction false} CountsOfPortCalls(s: Session, port: string, tries: nat)
    ensures Count(PortCalls(s, port, tries), Opening(port)) == tries
    ensures Count(PortCalls(s, port, tries), Sleeping) == if tries == 0 then 0 else tries - 1
    ensures Count(PortCalls(s, port, tries), Pinging) == FailedOpens(s, tries) <= tries
  {
    if tries > 0 {
      CountsOfPortCalls(s, port, tries - 1);
      CountsOfAttempt(s, port, tries - 1);
      CountOneMoreAttempt(s, port, tries, Opening(port));
      CountOneMoreAttempt(s, port, tries, Sleeping);
      CountOneMoreAttempt(s, port, tries, Pinging);
    }
  }

  // --------------------------------------------------------------- books

  /** The stored libcec object, how many there have been, and which were closed. */
  datatype Books = Books(lib: Option<nat>, created: nat, closed: seq<nat>)

  const NEW_BOOKS := Books(None, 0, [])

  ghost predicate Distinct(ids: seq<nat>) {
    forall i, j :: 0 <= i < j < |ids| ==> ids[i] != ids[j]
  }

  /** Nothing is closed twice or before it exists, and what is stored is open. */
  ghost predicate Proper(b: Books) {
    && Distinct(b.closed)
    && (forall i :: 0 <= i < |b.closed| ==> b.closed[i] < b.created)
    && (b.lib.Some? ==> b.lib.value < b.created && b.lib.value !in b.closed)
  }

  /** Created and not closed. */
  ghost function Outstanding(b: Books): set<nat> {
    set id | 0 <= id < b.created && id !in b.closed
  }

  ghost function Stored(b: Books): set<nat> {
    if b.lib.Some? then {b.lib.value} else {}
  }

  function Creates(creation: Creation): bool {
    creation.VideoRaises? || creation.Ready?
  }

  function AfterOpen(adapter: string, b: Books, held: bool, s: Session): Books {
    if b.lib.Some? || (adapter != "" && held) || !Creates(s.creation) then b
    else
      var left := b.(created := b.created + 1);
      var released := left.(closed := b.closed + [b.created]);
      if s.creation.VideoRaises? then left
      else if adapter == "" && s.detected.Raised? then left
      else if adapter == "" && s.detected.value == [] then released
      else if Trying(s, 0).Raised? then left
      else if Trying(s, 0).value then left.(lib := Some(b.created))
      else released
  }

  function AfterClose(b: Books): Books {
    if b.lib.None? then b else Books(None, b.created, b.closed + [b.lib.value])
  }

  function AfterDetect(b: Books, s: Session): Books {
    if !Creates(s.creation) then b
    else
      var left := b.(created := b.created + 1);
      if s.creation.VideoRaises? then left else left.(closed := b.closed + [b.created])
  }

  // ----------------------------------------------------------------- class

  /** The loop of `open`: up to three attempts, with a sleep between two. */
  method TryPort(port: string, s: Session) returns (answer: Answer<bool>, calls: seq<PortCall>)
    ensures exists tries: nat :: Tried(s, tries, answer) && calls == PortCalls(s, port, tries)
    ensures answer == Trying(s, 0)
    ensures answer == Returned(true) <==> exists k: nat :: k < 3 && OpensAt(s, k)
    ensures answer == Raised <==> exists k: nat :: k < 3 && RaisesAt(s, k)
  {
    OpensWhenSomeAttemptSucceeds(s);
    calls := [];
    var attempt: nat := 0;
    while attempt < OPEN_ATTEMPTS
      invariant attempt <= OPEN_ATTEMPTS
      invariant forall k: nat :: k < attempt ==> Attempt(s, k) == Returned(false)
      invariant attempt == OPEN_ATTEMPTS ==> Tried(s, attempt, Returned(false))
      invariant calls == PortCalls(s, port, attempt) + (if 0 < attempt < OPEN_ATTEMPTS then [Sleeping] else [])
    {
      ghost var before := calls;
      calls := calls + [Opening(port)];
      answer := s.opens(attempt);
      if answer == Returned(false) {
        calls := calls + [Pinging];
        answer := s.pings(attempt);
      }
      assert calls == before + CallsOfAttempt(s, port, attempt);
      if answer != Returned(false) {
        assert Tried(s, attempt + 1, answer);
        TryingIsTried(s, attempt + 1, answer);
        return;
      }
      if attempt < OPEN_ATTEMPTS - 1 {
        calls := calls + [Sleeping];
      }
      attempt := attempt + 1;
    }
    answer := Returned(false);
    TryingIsTried(s, OPEN_ATTEMPTS, answer);
  }

  class SwigDriver {
    /** Empty if the adapter is to be found. */
    const adapter: string
    var lib: Option<nat>

    // What the binding handed out, and what was given back to it.
    var created: nat
    var closed: seq<nat>

    function State(): Books
      reads this
    {
      Books(lib, created, closed)
    }

    ghost predicate Valid()
      reads this
    {
      Proper(State())
    }

    constructor (adapter: string)
      ensures Valid() && State() == NEW_BOOKS && this.adapter == adapter
    {
      this.adapter := adapter;
      lib, created, closed := None, 0, [];
    }

    /** `_configure`. */
    method Configure(creation: Creation) returns (r: Result<nat, Failure>)
      modifies this`created
      ensures created == old(created) + (if Creates(creation) then 1 else 0)
      ensures creation.Ready? ==> r == Ok(old(created))
      ensures creation.CreatesNothing? ==> r == Err(Unavailable(NotInitialised))
      ensures creation.CreateRaises? || creation.VideoRaises? ==> r == Err(BindingError)
    {
      if creation.CreateRaises? {
        return Err(BindingError);
      }
      if creation.CreatesNothing? {
        return Err(Unavailable(NotInitialised));
      }
      created := created + 1;
      if creation.VideoRaises? {
        return Err(BindingError);
      }
      return Ok(created - 1);
    }

    /** `detect_adapters`, whose object is closed whatever `DetectAdapters` does. */
    method DetectAdapters(s: Session) returns (r: Result<seq<string>, Failure>)
      requires Valid()
      modifies this
      ensures Valid() && State() == AfterDetect(old(State()), s)
      ensures lib == old(lib)
      ensures r.Ok? <==> s.creation.Ready? && s.detected.Returned?
      ensures r.Ok? ==> r.value == s.detected.value
      ensures r == Err(Unavailable(NotInitialised)) <==> s.creation.CreatesNothing?
    {
      var configured := Configure(s.creation);
      if configured.Err? {
        return Err(configured.error);
      }
      closed := closed + [configured.value];
      if s.detected.Raised? {
        return Err(BindingError);
      }
      return Ok(s.detected.value);
    }

    /** `open`; `held` is what the probe of a named adapter finds. */
    method Open(held: bool, s: Session) returns (r: Result<(), Failure>, calls: seq<PortCall>)
      requires Valid()
      modifies this
      ensures Valid() && State() == AfterOpen(adapter, old(State()), held, s)
      ensures r.Ok? <==> lib.Some?
      ensures old(lib).Some? ==> calls == [] && State() == old(State())
      ensures r == Err(Unavailable(HeldByAnother)) <==> old(lib).None? && adapter != "" && held
      ensures r == Err(Unavailable(NotInitialised)) <==>
                old(lib).None? && !(adapter != "" && held) && s.creation.CreatesNothing?
      ensures r == Err(Unavailable(NoAdapter)) <==>
                old(lib).None? && adapter == "" && s.creation.Ready? && s.detected == Returned([])
      ensures r == Err(BindingError) ==> lib.None? && closed == old(closed)
      ensures var port := if adapter != "" then Some(adapter)
                          else if s.detected.Returned? && s.detected.value != [] then Some(s.detected.value[0])
                          else None;
              if old(lib).Some? || (adapter != "" && held) || !s.creation.Ready? || port.None? then calls == []
              else
                && (exists tries: nat :: Tried(s, tries, Trying(s, 0)) && calls == PortCalls(s, port.value, tries))
                && r == (match Trying(s, 0)
                         case Raised => Err(BindingError)
                         case Returned(ok) => if ok then Ok(()) else Err(Unavailable(CouldNotOpen(port.value))))
                && (r.Ok? <==> exists k: nat :: k < 3 && OpensAt(s, k))
                && (r == Err(BindingError) <==> exists k: nat :: k < 3 && RaisesAt(s, k))
    {
      calls := [];
      if lib.Some? {
        return Ok(()), [];
      }
      if adapter != "" && held {
        return Err(Unavailable(HeldByAnother)), [];
      }
      var configured := Configure(s.creation);
      if configured.Err? {
        return Err(configured.error), [];
      }
      var handle := configured.value;
      var port := adapter;
      if port == "" {
        if s.detected.Raised? {
          return Err(BindingError), [];
        }
        if s.detected.value == [] {
          closed := closed + [handle];
          return Err(Unavailable(NoAdapter)), [];
        }
        port := s.detected.value[0];
      }
      var answer;
      answer, calls := TryPort(port, s);
      if answer.Raised? {
        return Err(BindingError), calls;
      }
      if answer.value {
        lib := Some(handle);
        return Ok(()), calls;
      }
      closed := closed + [handle];
      return Err(Unavailable(CouldNotOpen(port))), calls;
    }

    /** `close`. */
    method Close()
      requires Valid()
      modifies this
      ensures Valid() && State() == AfterClose(old(State())) && lib.None?
    {
      if lib.None? {
        return;
      }
      var handle := lib.value;
      lib := None;
      closed := closed + [handle];
    }
  }

  // ------------------------------------------------------------------ runs

  datatype Op = OpOpen(held: bool, session: Session) | OpClose | OpDetect(session: Session)

  function After(adapter: string, b: Books, op: Op): Books {
    match op
    case OpOpen(held, s) => AfterOpen(adapter, b, held, s)
    case OpClose => AfterClose(b)
    case OpDetect(s) => AfterDetect(b, s)
  }

  function Run(adapter: string, ops: seq<Op>): Books {
    if ops == [] then NEW_BOOKS else After(adapter, Run(adapter, ops[..|ops| - 1]), ops[|ops| - 1])
  }

  /** The binding raises while an object exists that nothing will close:
      `InitVideoStandalone`, or, on the way to an open port, `DetectAdapters`,
      `Open` or `PingAdapter`. */
  predicate Abandons(adapter: string, b: Books, op: Op) {
    match op
    case OpClose => false
    case OpDetect(s) => s.creation.VideoRaises?
    case OpOpen(held, s) =>
      && b.lib.None?
      && !(adapter != "" && held)
      && (|| s.creation.VideoRaises?
          || (s.creation.Ready? && adapter == "" && s.detected.Raised?)
          || (s.creation.Ready? && (adapter != "" || s.detected != Returned([])) && Trying(s, 0).Raised?))
  }

  function Abandoned(adapter: string, ops: seq<Op>): nat {
    if ops == [] then 0
    else
      var n := |ops| - 1;
      Abandoned(adapter, ops[..n]) + if Abandons(adapter, Run(adapter, ops[..n]), ops[n]) then 1 else 0
  }

  /** What a call abandons. */
  ghost function Lost(adapter: string, b: Books, op: Op): set<nat> {
    if Abandons(adapter, b, op) then {b.created} else {}
  }

  lemma StepIsProper(adapter: string, b: Books, op: Op)
    requires Proper(b)
    ensures Proper(After(adapter, b, op))
  {
  }

  /** One call: beside the stored object, what exists unclosed grows by what the
      call abandons. */
  lemma StepBalances(adapter: string, b: Books, op: Op)
    requires Proper(b)
    ensures var b' := After(adapter, b, op);
            && Proper(b')
            && Outstanding(b') - Stored(b') == Outstanding(b) - Stored(b) + Lost(adapter, b, op)
  {
    StepIsProper(adapter, b, op);
  }

  lemma StoredIsOutstanding(b: Books)
    requires Proper(b)
    ensures Stored(b) <= Outstanding(b)
    ensures |Outstanding(b)| == |Outstanding(b) - Stored(b)| + if b.lib.Some? then 1 else 0
  {
    assert Outstanding(b) == (Outstanding(b) - Stored(b)) + Stored(b);
  }

  lemma OneMore(s: set<nat>, x: nat)
    requires x !in s
    ensures |s + {x}| == |s| + 1 && s + {} == s
  {
  }

  /** After any sequence of calls: every object was closed at most once, the
      stored one is open, and beside it exactly the abandoned ones are. */
  lemma {:induction false} RunBalances(adapter: string, ops: seq<Op>)
    ensures var b := Run(adapter, ops);
            && Proper(b)
            && Stored(b) <= Outstanding(b)
            && |Outstanding(b) - Stored(b)| == Abandoned(adapter, ops)
            && |Outstanding(b)| == Abandoned(adapter, ops) + if b.lib.Some? then 1 else 0
  {
    if ops != [] {
      var n := |ops| - 1;
      var b := Run(adapter, ops[..n]);
      RunBalances(adapter, ops[..n]);
      StepBalances(adapter, b, ops[n]);
      OneMore(Outstanding(b) - Stored(b), b.created);
    }
    StoredIsOutstanding(Run(adapter, ops));
  }

  /** The binding only ever returns. */
  ghost predicate Returns(s: Session) {
    && !s.creation.CreateRaises? && !s.creation.VideoRaises?
    && s.detected.Returned?
    && forall k: nat :: k < OPEN_ATTEMPTS ==> s.opens(k).Returned? && s.pings(k).Returned?
  }

  ghost predicate AllReturn(ops: seq<Op>) {
    forall i :: 0 <= i < |ops| ==> !ops[i].OpClose? ==> Returns(ops[i].session)
  }

  lemma {:induction false} AbandonedNothing(adapter: string, ops: seq<Op>)
    requires AllReturn(ops)
    ensures Abandoned(adapter, ops) == 0
  {
    if ops != [] {
      AbandonedNothing(adapter, ops[..|ops| - 1]);
    }
  }

  /** With a binding that returns, exactly the stored object is ever open. */
  lemma {:induction false} NothingIsAbandoned(adapter: string, ops: seq<Op>)
    requires AllReturn(ops)
    ensures Abandoned(adapter, ops) == 0
    ensures Outstanding(Run(adapter, ops)) == Stored(Run(adapter, ops))
  {
    AbandonedNothing(adapter, ops);
    RunBalances(adapter, ops);
    var b := Run(adapter, ops);
    assert Outstanding(b) - Stored(b) == {};
  }

  /** A raising binding does make `open` leave an object behind: the second
      `open` below has its own, and the first one is never closed. */
  lemma RaisingOpenAbandons(adapter: string)
    requires adapter != ""
    ensures var raising := Session(Ready, Returned([]), _ => Raised, _ => Raised);
            var working := Session(Ready, Returned([]), _ => Returned(true), _ => Returned(true));
            var b := Run(adapter, [OpOpen(false, raising), OpOpen(false, working), OpClose]);
            b == Books(None, 2, [1]) && Outstanding(b) == {0}
  {
    var raising := Session(Ready, Returned([]), _ => Raised, _ => Raised);
    var working := Session(Ready, Returned([]), _ => Returned(true), _ => Returned(true));
    var ops := [OpOpen(false, raising), OpOpen(false, working), OpClose];
    assert ops[..2][..1][..0] == [] && ops[..2][..1][0] == ops[0] && ops[..2][1] == ops[1];
    assert Trying(raising, 0) == Raised && Trying(working, 0) == Returned(true);
    assert Run(adapter, ops[..2][..1][..0]) == NEW_BOOKS;
    assert Run(adapter, ops[..2][..1]) == Books(None, 1, []);
    assert Run(adapter, ops[..2]) == Books(Some(1), 2, []);
  }
}
