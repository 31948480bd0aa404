/** The cooldown after an open that timed out (libcec_driver.py, OpenGuard).

    `blocked` forgets an expired failure while it answers.  The reference
    `Answer` never forgets anything: it looks at the whole history, ignores the
    questions in it, and decides from the latest failure or success alone. */
module OpenGuards {
  import opened Prelude

  const OPEN_COOLDOWN_SECONDS: real := 60.0

  /** The two mutable fields of one guard. */
  datatype GuardState = GuardState(failedAt: Option<real>, reason: string)

  const FRESH_GUARD := GuardState(None, "")

  datatype GuardEvent =
    | Failed(at: real, reason: string)
    | Succeeded(at: real)
    | Asked(at: real)

  function Verdict(g: GuardState, cooldown: real, now: real): string {
    if g.failedAt.None? || now - g.failedAt.value >= cooldown then "" else g.reason
  }

  /** The fields `blocked` leaves behind. */
  function AfterAsking(g: GuardState, cooldown: real, now: real): GuardState {
    if g.failedAt.Some? && now - g.failedAt.value >= cooldown then g.(failedAt := None) else g
  }

  function Update(g: GuardState, cooldown: real, e: GuardEvent): GuardState {
    match e
    case Failed(at, reason) => GuardState(Some(at), reason)
    case Succeeded(_) => FRESH_GUARD
    case Asked(at) => AfterAsking(g, cooldown, at)
  }

  function Replay(history: seq<GuardEvent>, cooldown: real): GuardState {
    if history == [] then FRESH_GUARD
    else Update(Replay(history[..|history| - 1], cooldown), cooldown, history[|history| - 1])
  }

  ghost predicate Chronological(history: seq<GuardEvent>) {
    forall i, j :: 0 <= i < j < |history| ==> history[i].at <= history[j].at
  }

  ghost predicate NotBefore(history: seq<GuardEvent>, now: real) {
    forall i :: 0 <= i < |history| ==> history[i].at <= now
  }

  ghost predicate DecidingFailure(history: seq<GuardEvent>, i: int) {
    0 <= i < |history| && history[i].Failed? &&
    forall j :: i < j < |history| ==> history[j].Asked?
  }

  /** The latest failure's reason if no success followed it and less than the
      cooldown has passed; empty otherwise. */
  ghost function Answer(history: seq<GuardEvent>, cooldown: real, now: real): string {
    if exists i :: DecidingFailure(history, i) && now - history[i].at < cooldown then
      var i :| DecidingFailure(history, i) && now - history[i].at < cooldown;
      history[i].reason
    else ""
  }

  /** There is at most one such failure, so `Answer` does not depend on a choice. */
  lemma DecidingFailureIsUnique(history: seq<GuardEvent>, i: int, j: int)
    requires DecidingFailure(history, i) && DecidingFailure(history, j)
    ensures i == j
  {
  }

  /** What the fields remember of a history: exactly the deciding failure,
      unless some question already found it expired. */
  lemma {:induction false} FieldsRemember(history: seq<GuardEvent>, cooldown: real)
    requires Chronological(history)
    ensures var g := Replay(history, cooldown);
            match g.failedAt
            case Some(at) => exists i :: DecidingFailure(history, i) && history[i] == Failed(at, g.reason)
            case None => forall i :: DecidingFailure(history, i) ==>
                           exists j :: i < j < |history| && history[j].at - history[i].at >= cooldown
  {
    if history != [] {
      var n := |history| - 1;
      var front, last := history[..n], history[n];
      FieldsRemember(front, cooldown);
      var g, g' := Replay(front, cooldown), Replay(history, cooldown);
      assert history == front + [last];
      match last {
        case Failed(at, reason) =>
          assert DecidingFailure(history, n);
        case Succeeded(_) =>
          assert history[n].Succeeded?;
        case Asked(at) =>
          assert forall i :: DecidingFailure(history, i) <==> DecidingFailure(front, i);
          if g.failedAt.Some? {
            var i :| DecidingFailure(front, i) && front[i] == Failed(g.failedAt.value, g.reason);
            assert DecidingFailure(history, i);
            if g'.failedAt.None? {
              forall k | DecidingFailure(history, k)
                ensures exists j :: k < j < |history| && history[j].at - history[k].at >= cooldown
              {
                DecidingFailureIsUnique(history, i, k);
                assert history[n].at - history[k].at >= cooldown;
              }
            }
          }
      }
    }
  }

  /** The lazy clearing can never be observed while the clock is monotone. */
  lemma {:induction false} VerdictIsHistory(history: seq<GuardEvent>, cooldown: real, now: real)
    requires Chronological(history) && NotBefore(history, now)
    ensures Verdict(Replay(history, cooldown), cooldown, now) == Answer(history, cooldown, now)
  {
    FieldsRemember(history, cooldown);
    var g := Replay(history, cooldown);
    if g.failedAt.Some? {
      var i :| DecidingFailure(history, i) && history[i] == Failed(g.failedAt.value, g.reason);
      if j :| DecidingFailure(history, j) && now - history[j].at < cooldown {
        DecidingFailureIsUnique(history, i, j);
      }
    }
  }

  lemma StillNotBefore(history: seq<GuardEvent>, e: GuardEvent, now: real)
    requires NotBefore(history, e.at) && e.at <= now
    ensures NotBefore(history + [e], now)
  {
  }

  class OpenGuard {
    const cooldown: real
    var failedAt: Option<real>
    var reason: string
    ghost var history: seq<GuardEvent>

    function State(): GuardState
      reads this
    {
      GuardState(failedAt, reason)
    }

    ghost predicate Valid()
      reads this
    {
      Chronological(history) && State() == Replay(history, cooldown)
    }

    constructor (cooldown: real)
      ensures Valid() && history == [] && State() == FRESH_GUARD && this.cooldown == cooldown
    {
      this.cooldown := cooldown;
      failedAt, reason := None, "";
      history := [];
    }

    method Blocked(now: real) returns (why: string)
      requires Valid() && NotBefore(history, now)
      modifies this`failedAt, this`history
      ensures Valid() && history == old(history) + [Asked(now)]
      ensures why == Answer(old(history), cooldown, now)
      ensures why == Verdict(old(State()), cooldown, now)
      ensures State() == AfterAsking(old(State()), cooldown, now)
    {
      VerdictIsHistory(history, cooldown, now);
      history := history + [Asked(now)];
      assert history[..|history| - 1] == old(history);
      if failedAt.None? {
        return "";
      }
      if now - failedAt.value >= cooldown {
        failedAt := None;
        return "";
      }
      return reason;
    }

    method RecordFailure(now: real, why: string)
      requires Valid() && NotBefore(history, now)
      modifies this
      ensures Valid() && history == old(history) + [Failed(now, why)]
      ensures State() == GuardState(Some(now), why)
    {
      failedAt := Some(now);
      reason := why;
      history := history + [Failed(now, why)];
      assert history[..|history| - 1] == old(history);
    }

    method RecordSuccess(ghost now: real)
      requires Valid() && NotBefore(history, now)
      modifies this
      ensures Valid() && history == old(history) + [Succeeded(now)]
      ensures State() == FRESH_GUARD
    {
      failedAt := None;
      reason := "";
      history := history + [Succeeded(now)];
      assert history[..|history| - 1] == old(history);
    }
  }
}
