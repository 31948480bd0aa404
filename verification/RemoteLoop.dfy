/** Sending a list of commands, repeatedly, with a pause between any two
    (remote.py, async_send_command, and keymap.py, resolve_key). */
module RemoteLoop {
  import opened Prelude
  import opened Text
  import opened HexCodec
  import opened RawCommand

  datatype Action = Raw(opcode: byte, params: seq<byte>) | Key(code: byte)

  datatype Sent = Act(action: Action) | Pause

  /** ServiceValidationError, or an exception that is none. */
  datatype CommandError = Rejected | Broken

  datatype Outcome = Completed | NotUnderstood(error: CommandError) | BackendFailed

  type KeyTable = map<string, byte>

  /** `resolve_key` up to the table lookup. */
  function Candidate(name: string): string {
    ReplaceChar(ReplaceChar(Lower(Strip(name)), '-', '_'), ' ', '_')
  }

  /** What one command asks for. */
  function Resolve(table: KeyTable, command: string): Result<Action, CommandError> {
    var text := Strip(command);
    if StartsWith(Lower(text), RAW_PREFIX) then
      match ParseRaw(Lower(text))
      case Parsed(opcode, params) => Ok(Raw(opcode, params))
      case Invalid => Err(Rejected)
      case Crashed => Err(Broken)
    else if Candidate(text) in table then Ok(Key(table[Candidate(text)]))
    else Err(Rejected)
  }

  /** What each command of a list asks for. */
  type Plan = seq<Result<Action, CommandError>>

  function PlanOf(understand: string -> Result<Action, CommandError>, commands: seq<string>): (plan: Plan)
    ensures |plan| == |commands| && forall i :: 0 <= i < |plan| ==> plan[i] == understand(commands[i])
  {
    seq(|commands|, i requires 0 <= i < |commands| => understand(commands[i]))
  }

  /** A list, r times over. */
  function Repeated(plan: Plan, r: nat): Plan {
    if r == 0 then [] else Repeated(plan, r - 1) + plan
  }

  lemma {:induction false} RepeatedLength(plan: Plan, r: nat)
    ensures |Repeated(plan, r)| == r * |plan|
  {
    if r > 0 {
      RepeatedLength(plan, r - 1);
      assert (r - 1) * |plan| + |plan| == r * |plan|;
    }
  }

  lemma {:induction false} RepeatedAt(plan: Plan, r: nat, repeat: nat, index: nat)
    requires repeat < r && index < |plan|
    ensures |Repeated(plan, r)| == r * |plan|
    ensures repeat * |plan| + index < r * |plan|
    ensures Repeated(plan, r)[repeat * |plan| + index] == plan[index]
  {
    RepeatedLength(plan, r);
    RepeatedLength(plan, r - 1);
    if repeat < r - 1 {
      RepeatedAt(plan, r - 1, repeat, index);
      assert (r - 1) * |plan| + |plan| == r * |plan|;
    }
  }

  /** The actions in order, with a pause between any two of them, and one behind
      the last if more is to come. */
  function Interleave(actions: seq<Action>, more: bool): seq<Sent> {
    if actions == [] then [] else
    var n := |actions| - 1;
    Interleave(actions[..n], true) + [Act(actions[n])] + (if more then [Pause] else [])
  }

  /** Actions stand at the even places, pauses at the odd ones. */
  lemma {:induction false} InterleaveShape(actions: seq<Action>, more: bool)
    ensures var trace := Interleave(actions, more);
            && |trace| == (if more || actions == [] then 2 * |actions| else 2 * |actions| - 1)
            && (forall k :: 0 <= k < |actions| ==> trace[2 * k] == Act(actions[k]))
            && (forall k :: 0 <= 2 * k + 1 < |trace| ==> trace[2 * k + 1] == Pause)
  {
    if actions != [] {
      InterleaveShape(actions[..|actions| - 1], true);
    }
  }

  lemma InterleaveOneMore(actions: seq<Action>, action: Action, more: bool)
    ensures Interleave(actions + [action], more) ==
              Interleave(actions, true) + [Act(action)] + (if more then [Pause] else [])
  {
    assert (actions + [action])[..|actions|] == actions;
  }

  ghost predicate AllSucceed(plan: Plan, accepts: nat -> bool, actions: seq<Action>) {
    |actions| <= |plan| && forall k :: 0 <= k < |actions| ==> plan[k] == Ok(actions[k]) && accepts(k)
  }

  /** These actions have been carried out, and this is what was sent. */
  ghost predicate Progress(plan: Plan, accepts: nat -> bool, trace: seq<Sent>, actions: seq<Action>) {
    AllSucceed(plan, accepts, actions) && trace == Interleave(actions, |actions| < |plan|)
  }

  lemma Advance(plan: Plan, accepts: nat -> bool, trace: seq<Sent>, actions: seq<Action>, action: Action)
    requires Progress(plan, accepts, trace, actions) && |actions| < |plan|
    requires plan[|actions|] == Ok(action) && accepts(|actions|)
    ensures Progress(plan, accepts, trace + [Act(action)] + (if |actions| + 1 < |plan| then [Pause] else []),
                     actions + [action])
  {
    InterleaveOneMore(actions, action, |actions| + 1 < |plan|);
  }

  /** The whole run: these actions succeed, in order; the run ends with the plan
      or with the first command that does not succeed, and nothing is sent for
      any later one. */
  ghost predicate RunsThrough(
    plan: Plan, accepts: nat -> bool, trace: seq<Sent>, actions: seq<Action>, outcome: Outcome)
  {
    var done := |actions|;
    && Progress(plan, accepts, trace, actions)
    && (outcome.Completed? <==> done == |plan|)
    && (outcome.BackendFailed? ==> plan[done].Ok? && !accepts(done))
    && (outcome.NotUnderstood? ==> plan[done] == Err(outcome.error))
  }

  ghost predicate IsRun(plan: Plan, accepts: nat -> bool, trace: seq<Sent>, outcome: Outcome) {
    exists actions :: RunsThrough(plan, accepts, trace, actions, outcome)
  }

  /** `int(kwargs.get(ATTR_NUM_REPEATS) or 1)`; a negative number repeats nothing. */
  function Repeats(numRepeats: Option<int>): int {
    if numRepeats.None? || numRepeats.value == 0 then 1 else numRepeats.value
  }

  function FullPlan(
    understand: string -> Result<Action, CommandError>, commands: seq<string>, numRepeats: Option<int>): Plan
  {
    Repeated(PlanOf(understand, commands), if Repeats(numRepeats) > 0 then Repeats(numRepeats) else 0)
  }

  function Understanding(table: KeyTable): string -> Result<Action, CommandError> {
    command => Resolve(table, command)
  }

  /** The inner loop: one repetition of the commands. */
  method SendRound(
    understand: string -> Result<Action, CommandError>, commands: seq<string>, lastRound: bool,
    accepts: nat -> bool, attempted: nat, ghost plan: Plan, ghost before: seq<Sent>, ghost earlier: seq<Action>)
    returns (trace: seq<Sent>, ghost actions: seq<Action>, outcome: Outcome)
    requires |earlier| == attempted && Progress(plan, accepts, before, earlier)
    requires attempted + |commands| <= |plan|
    requires plan[attempted..attempted + |commands|] == PlanOf(understand, commands)
    requires commands != [] ==> (lastRound <==> attempted + |commands| == |plan|)
    ensures Progress(plan, accepts, before + trace, actions)
    ensures outcome.Completed? ==> |actions| == attempted + |commands|
    ensures !outcome.Completed? ==> |actions| < |plan| && RunsThrough(plan, accepts, before + trace, actions, outcome)
  {
    trace, actions := [], earlier;
    assert before + trace == before;
    for index := 0 to |commands|
      invariant |actions| == attempted + index && Progress(plan, accepts, before + trace, actions)
    {
      var action := understand(commands[index]);
      assert plan[attempted + index] == plan[attempted..attempted + |commands|][index] == action;
      if action.Err? {
        return trace, actions, NotUnderstood(action.error);
      }
      if !accepts(attempted + index) {
        return trace, actions, BackendFailed;
      }
      Advance(plan, accepts, before + trace, actions, action.value);
      var isLast := lastRound && index == |commands| - 1;
      var sent := [Act(action.value)] + (if isLast then [] else [Pause]);
      assert before + (trace + sent) == before + trace + [Act(action.value)] + (if isLast then [] else [Pause]);
      trace := trace + sent;
      actions := actions + [action.value];
    }
    outcome := Completed;
  }

  /** Where a repetition begins in the full plan. */
  ghost function Base(repeat: nat, n: nat): nat {
    if repeat == 0 then 0 else Base(repeat - 1, n) + n
  }

  lemma {:induction false} BaseIsProduct(repeat: nat, n: nat)
    ensures Base(repeat, n) == repeat * n
  {
    if repeat > 0 { BaseIsProduct(repeat - 1, n); }
  }

  /** The two counters stand at their ends exactly at the last command of all. */
  lemma LastOfAll(r: nat, n: nat, repeat: nat, index: nat)
    requires repeat < r && index < n
    ensures repeat == r - 1 && index == n - 1 <==> repeat * n + index == r * n - 1
  {
    assert repeat * n + n == (repeat + 1) * n;
    if repeat < r - 1 {
      assert (repeat + 1) * n <= (r - 1) * n;
      assert (r - 1) * n + n == r * n;
    }
  }

  lemma PositionIn(once: Plan, r: nat, repeat: nat)
    requires repeat < r
    ensures Base(repeat, |once|) + |once| <= |Repeated(once, r)|
    ensures Repeated(once, r)[Base(repeat, |once|)..Base(repeat, |once|) + |once|] == once
    ensures Base(repeat, |once|) + |once| == |Repeated(once, r)| <==> once == [] || repeat == r - 1
  {
    var base, n := Base(repeat, |once|), |once|;
    BaseIsProduct(repeat, n);
    RepeatedLength(once, r);
    assert repeat * n + n == (repeat + 1) * n <= r * n;
    forall index: nat | index < n ensures Repeated(once, r)[base + index] == once[index] {
      RepeatedAt(once, r, repeat, index);
    }
    if n > 0 { LastOfAll(r, n, repeat, n - 1); }
  }

  /** What one repetition finds in the full plan; its last command is the last of
      all exactly in the last repetition. */
  lemma Position(
    understand: string -> Result<Action, CommandError>, commands: seq<string>, numRepeats: Option<int>, repeat: nat)
    requires repeat < Repeats(numRepeats)
    ensures var plan, base, n := FullPlan(understand, commands, numRepeats), Base(repeat, |commands|), |commands|;
            && Base(repeat + 1, n) == base + n <= |plan|
            && plan[base..base + n] == PlanOf(understand, commands)
            && (base + n == |plan| <==> n == 0 || repeat == Repeats(numRepeats) - 1)
  {
    PositionIn(PlanOf(understand, commands), Repeats(numRepeats), repeat);
  }

  lemma LastBase(understand: string -> Result<Action, CommandError>, commands: seq<string>, numRepeats: Option<int>)
    ensures var r := Repeats(numRepeats);
            |FullPlan(understand, commands, numRepeats)| == Base(if r > 0 then r else 0, |commands|)
  {
    var r := if Repeats(numRepeats) > 0 then Repeats(numRepeats) else 0;
    BaseIsProduct(r, |commands|);
    RepeatedLength(PlanOf(understand, commands), r);
  }

  /** The outer loop; `accepts(k)` says whether the backend carries out the k-th
      action of the run. */
  method SendUnderstood(
    understand: string -> Result<Action, CommandError>, commands: seq<string>, numRepeats: Option<int>,
    accepts: nat -> bool)
    returns (trace: seq<Sent>, outcome: Outcome)
    ensures IsRun(FullPlan(understand, commands, numRepeats), accepts, trace, outcome)
  {
    var repeats := Repeats(numRepeats);
    ghost var plan := FullPlan(understand, commands, numRepeats);
    ghost var actions: seq<Action> := [];
    trace, outcome := [], Completed;
    var attempts: nat := 0;
    var repeat := 0;
    while repeat < repeats
      invariant 0 <= repeat && (repeat > 0 ==> repeat <= repeats)
      invariant |actions| == attempts == Base(repeat, |commands|) && Progress(plan, accepts, trace, actions)
    {
      Position(understand, commands, numRepeats, repeat);
      var round;
      round, actions, outcome :=
        SendRound(understand, commands, repeat == repeats - 1, accepts, attempts, plan, trace, actions);
      trace := trace + round;
      if !outcome.Completed? {
        return;
      }
      attempts := attempts + |commands|;
      repeat := repeat + 1;
    }
    outcome := Completed;
    LastBase(understand, commands, numRepeats);
    assert RunsThrough(plan, accepts, trace, actions, Completed);
  }

  /** `async_send_command` with the key table of the integration. */
  method SendCommands(table: KeyTable, commands: seq<string>, numRepeats: Option<int>, accepts: nat -> bool)
    returns (trace: seq<Sent>, outcome: Outcome)
    ensures IsRun(FullPlan(Understanding(table), commands, numRepeats), accepts, trace, outcome)
  {
    trace, outcome := SendUnderstood(Understanding(table), commands, numRepeats, accepts);
  }

  /** A run has only one way to go: how far it comes, what it sends and how it
      ends are determined by the plan and the backend. */
  lemma RunIsDetermined(
    plan: Plan, accepts: nat -> bool, trace: seq<Sent>, outcome: Outcome, trace': seq<Sent>, outcome': Outcome)
    requires IsRun(plan, accepts, trace, outcome) && IsRun(plan, accepts, trace', outcome')
    ensures trace == trace' && outcome == outcome'
  {
    var actions :| RunsThrough(plan, accepts, trace, actions, outcome);
    var actions' :| RunsThrough(plan, accepts, trace', actions', outcome');
    assert forall k :: 0 <= k < |actions| ==> plan[k].Ok? && accepts(k);
    assert forall k :: 0 <= k < |actions'| ==> plan[k].Ok? && accepts(k);
    assert actions == actions';
  }

  function Pauses(trace: seq<Sent>): nat {
    if trace == [] then 0 else Pauses(trace[..|trace| - 1]) + (if trace[|trace| - 1].Pause? then 1 else 0)
  }

  /** The number of pauses: one less than the actions if nothing is to follow,
      one per action otherwise. */
  lemma {:induction false} PausesOfInterleave(actions: seq<Action>, more: bool)
    ensures Pauses(Interleave(actions, more)) == if more || actions == [] then |actions| else |actions| - 1
  {
    if actions != [] {
      var n := |actions| - 1;
      var front, act := Interleave(actions[..n], true), [Act(actions[n])];
      PausesOfInterleave(actions[..n], true);
      assert (front + act)[..|front|] == front;
      assert (front + act + [Pause])[..|front| + 1] == front + act;
      assert !more ==> Interleave(actions, more) == front + act;
    }
  }

  /** All of r repeats of n commands succeed: r * n actions, r * n - 1 pauses.
      The k-th fails: k actions and k pauses. */
  lemma CountsOfRun(plan: Plan, accepts: nat -> bool, trace: seq<Sent>, actions: seq<Action>, outcome: Outcome)
    requires RunsThrough(plan, accepts, trace, actions, outcome)
    ensures outcome.Completed? && plan != [] ==> |actions| == |plan| && Pauses(trace) == |plan| - 1
    ensures !outcome.Completed? ==> |actions| < |plan| && Pauses(trace) == |actions|
    ensures |trace| == |actions| + Pauses(trace)
    ensures forall k :: 0 <= k < |actions| ==>
              2 * k < |trace| && trace[2 * k] == Act(actions[k]) && plan[k] == Ok(actions[k])
    ensures forall k :: 0 <= 2 * k + 1 < |trace| ==> trace[2 * k + 1] == Pause
  {
    InterleaveShape(actions, |actions| < |plan|);
    PausesOfInterleave(actions, |actions| < |plan|);
  }

  lemma PlanAt(
    understand: string -> Result<Action, CommandError>, commands: seq<string>, numRepeats: Option<int>,
    repeat: nat, index: nat, n: int, k: int)
    requires repeat < Repeats(numRepeats) && index < |commands|
    requires n == Repeats(numRepeats) * |commands| && k == repeat * |commands| + index
    ensures var plan := FullPlan(understand, commands, numRepeats);
            0 <= k < n == |plan| && plan[k] == understand(commands[index])
  {
    RepeatedAt(PlanOf(understand, commands), Repeats(numRepeats), repeat, index);
  }

  lemma CompletedAt(plan: Plan, accepts: nat -> bool, trace: seq<Sent>, k: nat)
    requires IsRun(plan, accepts, trace, Completed) && k < |plan|
    ensures Pauses(trace) == |plan| - 1 && |trace| == 2 * |plan| - 1
    ensures plan[k].Ok? && accepts(k) && trace[2 * k] == Act(plan[k].value)
    ensures k < |plan| - 1 ==> trace[2 * k + 1] == Pause
  {
    var actions :| RunsThrough(plan, accepts, trace, actions, Completed);
    CountsOfRun(plan, accepts, trace, actions, Completed);
  }

  /** Sending the commands r times over to the end, n actions in all: the
      commands' own actions, over and over, and one pause between any two. */
  lemma CompletedRun(
    understand: string -> Result<Action, CommandError>, commands: seq<string>, numRepeats: Option<int>,
    accepts: nat -> bool, trace: seq<Sent>, repeat: nat, index: nat, n: int, k: int)
    requires IsRun(FullPlan(understand, commands, numRepeats), accepts, trace, Completed)
    requires repeat < Repeats(numRepeats) && index < |commands|
    requires n == Repeats(numRepeats) * |commands| && k == repeat * |commands| + index
    ensures Pauses(trace) == n - 1 && |trace| == 2 * n - 1 && 0 <= k < n
    ensures understand(commands[index]).Ok? && accepts(k)
    ensures trace[2 * k] == Act(understand(commands[index]).value)
    ensures k < n - 1 ==> trace[2 * k + 1] == Pause
  {
    PlanAt(understand, commands, numRepeats, repeat, index, n, k);
    CompletedAt(FullPlan(understand, commands, numRepeats), accepts, trace, k);
  }

  predicate IsJoint(c: char) {
    c == '-' || c == '_' || c == ' '
  }

  function CandidateChar(c: char): char {
    if IsJoint(c) then '_' else LowerChar(c)
  }

  predicate SameLetter(c: char, d: char) {
    LowerChar(c) == LowerChar(d) || (IsJoint(c) && IsJoint(d))
  }

  /** `resolve_key` takes two names for the same exactly if, without the blanks
      around them, they agree letter by letter, in capitals or not, with hyphens
      or blanks for underscores or not. */
  lemma SpellingDoesNotMatter(a: string, b: string)
    ensures Candidate(a) == Candidate(b) <==>
              |Strip(a)| == |Strip(b)| &&
              forall i :: 0 <= i < |Strip(a)| ==> SameLetter(Strip(a)[i], Strip(b)[i])
  {
    var x, y := Strip(a), Strip(b);
    assert |Candidate(a)| == |x| && |Candidate(b)| == |y|;
    forall i | 0 <= i < |x| && i < |y|
      ensures Candidate(a)[i] == Candidate(b)[i] <==> SameLetter(x[i], y[i])
    {
      assert Candidate(a)[i] == CandidateChar(x[i]) && Candidate(b)[i] == CandidateChar(y[i]);
    }
    if Candidate(a) == Candidate(b) {
      assert forall i :: 0 <= i < |x| ==> Candidate(a)[i] == Candidate(b)[i];
    }
  }
}
