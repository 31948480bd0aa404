/** What the commands of a remote ask for, and that this is what is sent
    (remote.py, async_send_command and parse_raw, and keymap.py, resolve_key). */
module RemoteCommands {
  import opened Prelude
  import opened Text
  import opened PythonInt
  import opened HexCodec
  import opened RawCommand
  import opened RemoteLoop

  // ----------------------------------------------------------- raw commands

  /** `raw:`, in capitals or not. */
  predicate IsRawPrefix(s: string) {
    && |s| == 4 && (s[0] == 'r' || s[0] == 'R') && (s[1] == 'a' || s[1] == 'A') && (s[2] == 'w' || s[2] == 'W')
    && s[3] == ':'
  }

  predicate IsRaw(command: string) {
    |Strip(command)| >= 4 && IsRawPrefix(Strip(command)[..4])
  }

  lemma LowerConcat(a: string, b: string)
    ensures Lower(a + b) == Lower(a) + Lower(b)
  {
  }

  lemma LowerPrefix(s: string)
    ensures RAW_PREFIX <= Lower(s) <==> |s| >= 4 && IsRawPrefix(s[..4])
  {
    if |s| >= 4 {
      assert Lower(s)[..4] == [LowerChar(s[0]), LowerChar(s[1]), LowerChar(s[2]), LowerChar(s[3])];
      assert s[..4] == [s[0], s[1], s[2], s[3]];
      assert RAW_PREFIX == ['r', 'a', 'w', ':'];
    }
  }

  lemma LowerKeepsDigit(c: char)
    ensures DigitOf(LowerChar(c)) == DigitOf(c)
  {
  }

  lemma LowerGap(gap: string)
    requires AreSeparators(gap)
    ensures Lower(gap) == gap
  {
    assert forall i :: 0 <= i < |gap| ==> gap[i] in gap;
  }

  function LowerAll(tokens: seq<string>): (lowered: seq<string>)
    ensures |lowered| == |tokens| && forall i :: 0 <= i < |tokens| ==> lowered[i] == Lower(tokens[i])
  {
    seq(|tokens|, i requires 0 <= i < |tokens| => Lower(tokens[i]))
  }

  lemma {:induction false} LowerJoin(tokens: seq<string>, gaps: seq<string>)
    requires tokens != [] && |gaps| == |tokens| - 1
    requires forall i :: 0 <= i < |gaps| ==> AreSeparators(gaps[i])
    ensures Lower(Join(tokens, gaps)) == Join(LowerAll(tokens), gaps)
  {
    if |tokens| > 1 {
      var rest := Join(tokens[1..], gaps[1..]);
      LowerJoin(tokens[1..], gaps[1..]);
      LowerGap(gaps[0]);
      LowerConcat(tokens[0] + gaps[0], rest);
      LowerConcat(tokens[0], gaps[0]);
      assert LowerAll(tokens)[1..] == LowerAll(tokens[1..]);
    }
  }

  lemma LowerTokensWrite(tokens: seq<string>, bytes: seq<byte>)
    requires |tokens| == |bytes| && forall i :: 0 <= i < |tokens| ==> Writes(tokens[i], bytes[i])
    ensures forall i :: 0 <= i < |tokens| ==> Writes(LowerAll(tokens)[i], bytes[i])
  {
    forall i | 0 <= i < |tokens| ensures Writes(LowerAll(tokens)[i], bytes[i]) {
      LowerKeepsDigit(tokens[i][0]);
      LowerKeepsDigit(tokens[i][1]);
    }
  }

  lemma RawTextIs(left: string, prefix: string, body: string, right: string)
    requires AllSpace(left) && AllSpace(right) && IsRawPrefix(prefix)
    requires body != "" && !IsSpace(body[|body| - 1])
    ensures Lower(Strip(left + (prefix + body) + right)) == RAW_PREFIX + Lower(body)
  {
    var text := prefix + body;
    assert text[0] == prefix[0] && text[|text| - 1] == body[|body| - 1];
    StripIs(left, text, right);
    LowerPrefix(prefix);
    LowerConcat(prefix, body);
    assert prefix[..4] == prefix && Lower(prefix) == RAW_PREFIX;
  }

  /** Bytes in hexadecimal behind `raw:`, with any colons and blanks between them
      and any blanks around the whole, ask for just that message: the first byte
      is the opcode, all the others are its parameters. */
  lemma RawCommandAsks(
    table: KeyTable, left: string, prefix: string, tokens: seq<string>, gaps: seq<string>, right: string,
    bytes: seq<byte>)
    requires AllSpace(left) && AllSpace(right) && IsRawPrefix(prefix)
    requires tokens != [] && |gaps| == |tokens| - 1 && |bytes| == |tokens|
    requires forall i :: 0 <= i < |tokens| ==> Writes(tokens[i], bytes[i])
    requires forall i :: 0 <= i < |gaps| ==> AreSeparators(gaps[i])
    ensures Resolve(table, left + (prefix + Join(tokens, gaps)) + right) == Ok(Raw(bytes[0], bytes[1..]))
  {
    JoinEnds(tokens, gaps);
    assert Writes(tokens[0], bytes[0]) && Writes(tokens[|tokens| - 1], bytes[|tokens| - 1]);
    RawTextIs(left, prefix, Join(tokens, gaps), right);
    LowerJoin(tokens, gaps);
    LowerTokensWrite(tokens, bytes);
    RawUnderstandsBytes(LowerAll(tokens), gaps, bytes);
  }

  /** Any raw command: turned down exactly if there is nothing behind `raw:` or some
      token is no byte, and broken by an exception exactly if there are separators
      only; otherwise the tokens are what is asked for, in order. */
  lemma RawCommandResolves(table: KeyTable, command: string)
    requires IsRaw(command)
    ensures var body := Body(Lower(Strip(command)));
            var tokens, asked := Tokens(body), Resolve(table, command);
            && (asked == Err(Rejected) <==> body == "" || exists i :: 0 <= i < |tokens| && !SaysByte(tokens[i]))
            && (asked == Err(Broken) <==> body != "" && forall c :: c in body ==> IsSeparator(c))
            && (asked.Ok? ==>
                  && asked.value.Raw? && |tokens| == 1 + |asked.value.params|
                  && ParseInt(tokens[0], 16) == Some(asked.value.opcode)
                  && forall i :: 0 < i < |tokens| ==> ParseInt(tokens[i], 16) == Some(asked.value.params[i - 1]))
  {
    LowerPrefix(Strip(command));
    RawIsTokenByToken(Lower(Strip(command)));
    CrashesOnSeparatorsOnly(Lower(Strip(command)));
  }

  // ------------------------------------------------------------------- keys

  /** A letter of a key's name, as it stands in the table. */
  function TableChar(c: char): char {
    if c == '-' || c == ' ' || c == '_' then '_'
    else if 'A' <= c <= 'Z' then 'a' + (c - 'A')
    else c
  }

  /** The command is this key's name: without the blanks around it, letter by
      letter, in capitals or not, with hyphens or blanks for underscores. */
  predicate Spells(command: string, key: string) {
    var name := Strip(command);
    |key| == |name| && forall i :: 0 <= i < |name| ==> key[i] == TableChar(name[i])
  }

  /** A command that is not raw asks for the key it spells, and is turned down if
      the table has no such key. */
  lemma KeyCommandAsks(table: KeyTable, command: string)
    requires !IsRaw(command)
    ensures forall key :: key in table && Spells(command, key) ==> Resolve(table, command) == Ok(Key(table[key]))
    ensures (forall key :: key in table ==> !Spells(command, key)) ==> Resolve(table, command) == Err(Rejected)
  {
    var name := Strip(command);
    LowerPrefix(name);
    StripTwice(command);
    var candidate := Candidate(name);
    assert |candidate| == |name|;
    assert forall i :: 0 <= i < |name| ==> candidate[i] == TableChar(name[i]);
    assert Spells(command, candidate);
    forall key | Spells(command, key) ensures key == candidate {
    }
  }

  // -------------------------------------------------------------- the trace

  /** Where in a list of n the k-th of all stands: k modulo n. */
  function Place(k: nat, n: nat): (place: nat)
    requires n > 0
    ensures place < n
  {
    if k < n then k else Place(k - n, n)
  }

  lemma {:induction false} PlaceIsRemainder(k: nat, n: nat) returns (q: nat)
    requires n > 0
    ensures k == q * n + Place(k, n)
  {
    if k < n {
      q := 0;
    } else {
      q := PlaceIsRemainder(k - n, n);
      q := q + 1;
    }
  }

  lemma {:induction false} RepeatedFront(once: Plan, r: nat)
    requires r > 0
    ensures Repeated(once, r) == once + Repeated(once, r - 1)
  {
    if r > 1 {
      RepeatedFront(once, r - 1);
      assert once + Repeated(once, r - 2) + once == once + (Repeated(once, r - 2) + once);
    } else {
      assert Repeated(once, 0) + once == once + Repeated(once, 0);
    }
  }

  lemma {:induction false} RepeatedCycles(once: Plan, r: nat, k: nat)
    requires k < |Repeated(once, r)|
    ensures once != [] && Repeated(once, r)[k] == once[Place(k, |once|)]
  {
    RepeatedFront(once, r);
    if k >= |once| {
      RepeatedCycles(once, r - 1, k - |once|);
    }
  }

  /** The k-th place of the full list. */
  lemma PlanIsRepeated(
    understand: string -> Result<Action, CommandError>, commands: seq<string>, numRepeats: Option<int>, k: nat)
    requires k < |FullPlan(understand, commands, numRepeats)|
    ensures commands != []
    ensures FullPlan(understand, commands, numRepeats)[k] == understand(commands[Place(k, |commands|)])
  {
    RepeatedCycles(PlanOf(understand, commands), if Repeats(numRepeats) > 0 then Repeats(numRepeats) else 0, k);
  }

  lemma ActionAt(plan: Plan, accepts: nat -> bool, trace: seq<Sent>, outcome: Outcome, k: nat)
    requires IsRun(plan, accepts, trace, outcome) && 2 * k < |trace|
    ensures k < |plan| && accepts(k) && plan[k].Ok? && trace[2 * k] == Act(plan[k].value)
  {
    var actions :| RunsThrough(plan, accepts, trace, actions, outcome);
    CountsOfRun(plan, accepts, trace, actions, outcome);
  }

  /** Every action of a run, whether it comes to its end or not, is what the
      command at its place asks for, and was carried out. */
  lemma SentIsAsked(
    table: KeyTable, commands: seq<string>, numRepeats: Option<int>, accepts: nat -> bool, trace: seq<Sent>,
    outcome: Outcome, k: nat)
    requires IsRun(FullPlan(Understanding(table), commands, numRepeats), accepts, trace, outcome)
    requires 2 * k < |trace|
    ensures commands != [] && trace[2 * k].Act? && accepts(k)
    ensures Resolve(table, commands[Place(k, |commands|)]) == Ok(trace[2 * k].action)
  {
    ActionAt(FullPlan(Understanding(table), commands, numRepeats), accepts, trace, outcome, k);
    PlanIsRepeated(Understanding(table), commands, numRepeats, k);
  }

  /** No number of repeats, or none, is one; any other is that many, and none if it
      is negative. */
  lemma OnceByDefault(understand: string -> Result<Action, CommandError>, commands: seq<string>, n: nat)
    ensures FullPlan(understand, commands, None) == PlanOf(understand, commands)
    ensures FullPlan(understand, commands, Some(0)) == PlanOf(understand, commands)
    ensures n > 0 ==> |FullPlan(understand, commands, Some(n))| == n * |commands|
    ensures n > 0 ==> FullPlan(understand, commands, Some(-(n as int))) == []
  {
    RepeatedLength(PlanOf(understand, commands), n);
    assert Repeated(PlanOf(understand, commands), 0) + PlanOf(understand, commands) == PlanOf(understand, commands);
  }

  lemma CommandIsSent(
    table: KeyTable, commands: seq<string>, numRepeats: Option<int>, accepts: nat -> bool, trace: seq<Sent>,
    outcome: Outcome, k: nat, command: string, action: Action)
    requires IsRun(FullPlan(Understanding(table), commands, numRepeats), accepts, trace, outcome)
    requires 2 * k < |trace| && commands != []
    requires commands[Place(k, |commands|)] == command && Resolve(table, command) == Ok(action)
    ensures trace[2 * k] == Act(action)
  {
    SentIsAsked(table, commands, numRepeats, accepts, trace, outcome, k);
  }

  /** So a raw command goes out with all its parameters. */
  lemma RawIsSent(
    table: KeyTable, commands: seq<string>, numRepeats: Option<int>, accepts: nat -> bool, trace: seq<Sent>,
    outcome: Outcome, k: nat, left: string, prefix: string, tokens: seq<string>, gaps: seq<string>, right: string,
    bytes: seq<byte>)
    requires IsRun(FullPlan(Understanding(table), commands, numRepeats), accepts, trace, outcome)
    requires 2 * k < |trace| && commands != []
    requires AllSpace(left) && AllSpace(right) && IsRawPrefix(prefix)
    requires tokens != [] && |gaps| == |tokens| - 1 && |bytes| == |tokens|
    requires forall i :: 0 <= i < |tokens| ==> Writes(tokens[i], bytes[i])
    requires forall i :: 0 <= i < |gaps| ==> AreSeparators(gaps[i])
    requires commands[Place(k, |commands|)] == left + (prefix + Join(tokens, gaps)) + right
    ensures trace[2 * k] == Act(Raw(bytes[0], bytes[1..]))
  {
    var command := left + (prefix + Join(tokens, gaps)) + right;
    RawCommandAsks(table, left, prefix, tokens, gaps, right, bytes);
    CommandIsSent(table, commands, numRepeats, accepts, trace, outcome, k, command, Raw(bytes[0], bytes[1..]));
  }

  /** And a key with its code. */
  lemma KeyIsSent(
    table: KeyTable, commands: seq<string>, numRepeats: Option<int>, accepts: nat -> bool, trace: seq<Sent>,
    outcome: Outcome, k: nat, command: string, key: string)
    requires IsRun(FullPlan(Understanding(table), commands, numRepeats), accepts, trace, outcome)
    requires 2 * k < |trace| && commands != [] && commands[Place(k, |commands|)] == command
    requires !IsRaw(command) && key in table && Spells(command, key)
    ensures trace[2 * k] == Act(Key(table[key]))
  {
    KeyCommandAsks(table, command);
    CommandIsSent(table, commands, numRepeats, accepts, trace, outcome, k, command, Key(table[key]));
  }
}
