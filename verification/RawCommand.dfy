/** The `raw:` escape hatch of the remote (remote.py, parse_raw) and the frame
    text the SWIG driver sends (libcec_driver.py, SwigDriver.transmit). */
module RawCommand {
  import opened Prelude
  import opened Text
  import opened PythonInt
  import opened HexCodec

  const RAW_PREFIX := "raw:"

  /** `Invalid` is ServiceValidationError; `Crashed` is the IndexError of
      `numbers[0]` on an empty list. */
  datatype RawResult = Parsed(opcode: byte, params: seq<byte>) | Invalid | Crashed

  function Body(command: string): string {
    Strip(if |command| < |RAW_PREFIX| then "" else command[|RAW_PREFIX|..])
  }

  function Tokens(body: string): seq<string> {
    NonEmpty(Split(ReplaceChar(body, ' ', ':'), ':'))
  }

  /** `[int(part, 16) for part in parts]`; None is ValueError. */
  function Numbers(parts: seq<string>): Option<seq<int>> {
    if parts == [] then Some([]) else
    var first, rest := ParseInt(parts[0], 16), Numbers(parts[1..]);
    if first.None? || rest.None? then None else Some([first.value] + rest.value)
  }

  predicate IsByte(n: int) {
    0 <= n < 256
  }

  function ParseRaw(command: string): RawResult {
    var body := Body(command);
    if body == "" then Invalid else
    var numbers := Numbers(Tokens(body));
    if numbers.None? || exists i :: 0 <= i < |numbers.value| && !IsByte(numbers.value[i]) then Invalid
    else if numbers.value == [] then Crashed
    else Parsed(numbers.value[0], numbers.value[1..])
  }

  // ------------------------------------------------------ when it goes wrong

  predicate AllColons(s: string) {
    forall c :: c in s ==> c == ':'
  }

  lemma {:induction false} SkipColons(colons: string, s: string)
    requires forall c :: c in colons ==> c == ':'
    ensures NonEmpty(Split(colons + s, ':')) == NonEmpty(Split(s, ':'))
  {
    if colons == "" {
      assert colons + s == s;
    } else {
      var t := colons + s;
      assert colons[0] in colons && forall c :: c in colons[1..] ==> c in colons;
      assert t == "" + [':'] + (colons[1..] + s);
      SplitOff("", colons[1..] + s, ':');
      SkipColons(colons[1..], s);
    }
  }

  lemma {:induction false} NoTokens(s: string)
    ensures NonEmpty(Split(s, ':')) == [] <==> AllColons(s)
    decreases |s|
  {
    if s == "" {
      assert NonEmpty([s]) == [];
    } else if s[0] == ':' {
      NoTokens(s[1..]);
      SkipColons(":", s[1..]);
      assert s == ":" + s[1..];
      assert forall c :: c in s <==> c == ':' || c in s[1..];
    } else {
      assert s[0] in s;
      assert Split(s, ':')[0] != "";
    }
  }

  lemma {:induction false} NumbersPerPart(parts: seq<string>)
    ensures Numbers(parts).Some? ==> |Numbers(parts).value| == |parts|
  {
    if parts != [] { NumbersPerPart(parts[1..]); }
  }

  /** A command whose body holds nothing but separators is not reported as an
      invalid command: `parse_raw` raises IndexError on it, and on no other. */
  lemma CrashesOnSeparatorsOnly(command: string)
    ensures ParseRaw(command).Crashed? <==>
              Body(command) != "" && forall c :: c in Body(command) ==> IsSeparator(c)
  {
    var body := Body(command);
    var s := ReplaceChar(body, ' ', ':');
    NoTokens(s);
    NumbersPerPart(Tokens(body));
    assert (forall c :: c in body ==> IsSeparator(c)) <==> AllColons(s) by {
      assert forall i :: 0 <= i < |s| ==> s[i] in s && body[i] in body;
    }
  }

  lemma {:induction false} NumbersAt(parts: seq<string>, i: nat)
    requires Numbers(parts).Some? && i < |parts|
    ensures |Numbers(parts).value| == |parts| && ParseInt(parts[i], 16) == Some(Numbers(parts).value[i])
  {
    NumbersPerPart(parts);
    if i > 0 {
      NumbersAt(parts[1..], i - 1);
    }
  }

  lemma {:induction false} NumbersExist(parts: seq<string>)
    ensures Numbers(parts).Some? <==> forall i :: 0 <= i < |parts| ==> ParseInt(parts[i], 16).Some?
  {
    if parts != [] {
      NumbersExist(parts[1..]);
      assert forall i :: 0 < i < |parts| ==> parts[i] == parts[1..][i - 1];
      assert (forall i :: 0 <= i < |parts[1..]| ==> ParseInt(parts[1..][i], 16).Some?) <==>
        (forall i :: 1 <= i < |parts| ==> ParseInt(parts[i], 16).Some?) by {
        assert forall i :: 0 <= i < |parts[1..]| ==> parts[1..][i] == parts[i + 1];
      }
    }
  }

  /** The token is the hexadecimal text of a byte. */
  predicate SaysByte(token: string) {
    ParseInt(token, 16).Some? && 0 <= ParseInt(token, 16).value <= 0xFF
  }

  /** A command is turned down exactly if there is nothing behind `raw:`, or some
      token is no number or no byte; otherwise the tokens are opcode and parameters. */
  lemma RawIsTokenByToken(command: string)
    ensures var body, tokens := Body(command), Tokens(Body(command));
            && (ParseRaw(command).Invalid? <==>
                  body == "" || exists i :: 0 <= i < |tokens| && !SaysByte(tokens[i]))
            && (ParseRaw(command).Parsed? ==>
                  && |tokens| == 1 + |ParseRaw(command).params|
                  && ParseInt(tokens[0], 16) == Some(ParseRaw(command).opcode)
                  && forall i :: 0 < i < |tokens| ==>
                       ParseInt(tokens[i], 16) == Some(ParseRaw(command).params[i - 1]))
  {
    var tokens := Tokens(Body(command));
    NumbersExist(tokens);
    NumbersPerPart(tokens);
    if Numbers(tokens).Some? {
      forall i | 0 <= i < |tokens| ensures ParseInt(tokens[i], 16) == Some(Numbers(tokens).value[i]) {
        NumbersAt(tokens, i);
      }
    } else {
      var i :| 0 <= i < |tokens| && ParseInt(tokens[i], 16).None?;
      assert !SaysByte(tokens[i]);
    }
  }

  /** Without a minus sign, a command of readable numbers can be out of range in
      one direction only. */
  lemma UnsignedIsNeverTooSmall(command: string)
    requires '-' !in Body(command) && Body(command) != ""
    requires Numbers(Tokens(Body(command))).Some?
    ensures var numbers := Numbers(Tokens(Body(command))).value;
            ParseRaw(command).Invalid? <==> exists i :: 0 <= i < |numbers| && numbers[i] > 0xFF
  {
    var text := ReplaceChar(Body(command), ' ', ':');
    var tokens := Tokens(Body(command));
    var numbers := Numbers(tokens).value;
    NumbersPerPart(tokens);
    NonEmptyKeeps(Split(text, ':'));
    SplitKeepsChars(text, ':');
    assert '-' !in text by { assert forall i :: 0 <= i < |text| ==> Body(command)[i] in Body(command); }
    forall i | 0 <= i < |numbers| ensures numbers[i] >= 0 {
      NumbersAt(tokens, i);
      assert tokens[i] in tokens;
      if numbers[i] < 0 { OnlySignedIsNegative(tokens[i], 16); }
    }
  }

  /** For instance. */
  lemma SeparatorsOnlyExample()
    ensures ParseRaw("raw:::") == Crashed
  {
    var text := "raw:::";
    assert text[|RAW_PREFIX|..] == "::";
    StripKeeps("::", IsSpace);
    CrashesOnSeparatorsOnly(text);
  }

  // ---------------------------------------------------- what it understands

  /** Two hexadecimal digits, in either case, that stand for b. */
  predicate Writes(token: string, b: byte) {
    |token| == 2 && DigitOf(token[0]) == Some(b / 16) && DigitOf(token[1]) == Some(b % 16)
  }

  predicate AreSeparators(s: string) {
    s != "" && forall c :: c in s ==> IsSeparator(c)
  }

  predicate IsToken(s: string) {
    s != "" && forall c :: c in s ==> !IsSeparator(c)
  }

  lemma WrittenIsToken(token: string, b: byte)
    requires Writes(token, b)
    ensures IsToken(token)
  {
    assert token == [token[0], token[1]];
  }

  /** Tokens with a text between any two of them. */
  function Join(tokens: seq<string>, gaps: seq<string>): string
    requires tokens != [] && |gaps| == |tokens| - 1
  {
    if |tokens| == 1 then tokens[0] else tokens[0] + gaps[0] + Join(tokens[1..], gaps[1..])
  }

  lemma {:induction false} TakeToken(token: string, s: string)
    requires token != "" && ':' !in token && (s != "" ==> s[0] == ':')
    ensures NonEmpty(Split(token + s, ':')) == [token] + NonEmpty(Split(s, ':'))
  {
    var t := token + s;
    if s == "" {
      assert t == token;
    } else {
      SplitOff(token, s[1..], ':');
      SplitOff("", s[1..], ':');
      assert t == token + [':'] + s[1..] && s == "" + [':'] + s[1..];
      assert Split(s, ':')[1..] == Split(t, ':')[1..] == Split(s[1..], ':');
    }
  }

  lemma {:induction false} TokensOfJoin(tokens: seq<string>, gaps: seq<string>)
    requires tokens != [] && |gaps| == |tokens| - 1
    requires forall i :: 0 <= i < |tokens| ==> IsToken(tokens[i])
    requires forall i :: 0 <= i < |gaps| ==> AreSeparators(gaps[i])
    ensures Tokens(Join(tokens, gaps)) == tokens
  {
    var token := tokens[0];
    assert ReplaceChar(token, ' ', ':') == token by { assert forall i :: 0 <= i < |token| ==> token[i] in token; }
    if |tokens| == 1 {
      assert token + "" == token;
      TakeToken(token, "");
    } else {
      var rest := Join(tokens[1..], gaps[1..]);
      TokensOfJoin(tokens[1..], gaps[1..]);
      var colons := ReplaceChar(gaps[0], ' ', ':');
      assert forall i :: 0 <= i < |colons| ==> gaps[0][i] in gaps[0];
      assert ReplaceChar(Join(tokens, gaps), ' ', ':') == token + (colons + ReplaceChar(rest, ' ', ':'));
      TakeToken(token, colons + ReplaceChar(rest, ' ', ':'));
      SkipColons(colons, ReplaceChar(rest, ' ', ':'));
    }
  }

  lemma ReadToken(token: string, b: byte)
    requires Writes(token, b)
    ensures ParseInt(token, 16) == Some(b)
  {
    PlainDigits(token, 16);
    assert token[..1] == [token[0]];
    assert DigitsValue(token[..1], 16) == b / 16;
  }

  lemma {:induction false} ReadTokens(tokens: seq<string>, bytes: seq<byte>)
    requires |tokens| == |bytes| && forall i :: 0 <= i < |tokens| ==> Writes(tokens[i], bytes[i])
    ensures Numbers(tokens) == Some(bytes)
  {
    if tokens != [] {
      ReadToken(tokens[0], bytes[0]);
      ReadTokens(tokens[1..], bytes[1..]);
      assert bytes == [bytes[0]] + bytes[1..];
    }
  }

  lemma {:induction false} JoinEnds(tokens: seq<string>, gaps: seq<string>)
    requires tokens != [] && |gaps| == |tokens| - 1
    requires forall i :: 0 <= i < |tokens| ==> |tokens[i]| == 2
    ensures var s := Join(tokens, gaps);
            |s| >= 2 && s[0] == tokens[0][0] && s[|s| - 1] == tokens[|tokens| - 1][1]
  {
    if |tokens| > 1 { JoinEnds(tokens[1..], gaps[1..]); }
  }

  lemma BodyOfJoin(tokens: seq<string>, gaps: seq<string>, bytes: seq<byte>)
    requires tokens != [] && |gaps| == |tokens| - 1 && |bytes| == |tokens|
    requires forall i :: 0 <= i < |tokens| ==> Writes(tokens[i], bytes[i])
    ensures Body(RAW_PREFIX + Join(tokens, gaps)) == Join(tokens, gaps) != ""
  {
    var text := Join(tokens, gaps);
    var command := RAW_PREFIX + text;
    JoinEnds(tokens, gaps);
    StripKeeps(text, IsSpace);
    assert command[|RAW_PREFIX|..] == text;
  }

  lemma TokensOfWritten(tokens: seq<string>, gaps: seq<string>, bytes: seq<byte>)
    requires tokens != [] && |gaps| == |tokens| - 1 && |bytes| == |tokens|
    requires forall i :: 0 <= i < |tokens| ==> Writes(tokens[i], bytes[i])
    requires forall i :: 0 <= i < |gaps| ==> AreSeparators(gaps[i])
    ensures Tokens(Join(tokens, gaps)) == tokens
  {
    forall i | 0 <= i < |tokens| ensures IsToken(tokens[i]) {
      WrittenIsToken(tokens[i], bytes[i]);
    }
    TokensOfJoin(tokens, gaps);
  }

  /** Bytes written as two hexadecimal digits each, with any non-empty run of
      colons and blanks between them, are understood as opcode and parameters. */
  lemma RawUnderstandsBytes(tokens: seq<string>, gaps: seq<string>, bytes: seq<byte>)
    requires tokens != [] && |gaps| == |tokens| - 1 && |bytes| == |tokens|
    requires forall i :: 0 <= i < |tokens| ==> Writes(tokens[i], bytes[i])
    requires forall i :: 0 <= i < |gaps| ==> AreSeparators(gaps[i])
    ensures ParseRaw(RAW_PREFIX + Join(tokens, gaps)) == Parsed(bytes[0], bytes[1..])
  {
    BodyOfJoin(tokens, gaps, bytes);
    TokensOfWritten(tokens, gaps, bytes);
    ReadTokens(tokens, bytes);
  }

  // ------------------------------------------------------------- frame text

  /** `f"{b:02X}"` */
  function TwoDigits(b: byte): (token: string)
    ensures Writes(token, b)
  {
    TwoDigitsOfByte(b);
    TwoDigitHex(b)
  }

  /** `":".join(f"{byte:02X}" for byte in params)` */
  function JoinedBytes(bytes: seq<byte>): string
    requires bytes != []
  {
    if |bytes| == 1 then TwoDigits(bytes[0])
    else TwoDigits(bytes[0]) + ":" + JoinedBytes(bytes[1..])
  }

  function FrameText(initiator: nibble, destination: nibble, opcode: byte, params: seq<byte>): string {
    var frame := [UpperHexChar(initiator), UpperHexChar(destination)] + ":" + TwoDigits(opcode);
    if params == [] then frame else frame + ":" + JoinedBytes(params)
  }

  lemma {:induction false} JoinedBytesIsJoin(bytes: seq<byte>) returns (tokens: seq<string>, gaps: seq<string>)
    requires bytes != []
    ensures |tokens| == |bytes| && |gaps| == |bytes| - 1
    ensures forall i :: 0 <= i < |tokens| ==> Writes(tokens[i], bytes[i])
    ensures forall i :: 0 <= i < |gaps| ==> AreSeparators(gaps[i])
    ensures Join(tokens, gaps) == JoinedBytes(bytes)
  {
    if |bytes| == 1 {
      tokens, gaps := [TwoDigits(bytes[0])], [];
    } else {
      tokens, gaps := JoinedBytesIsJoin(bytes[1..]);
      assert ([TwoDigits(bytes[0])] + tokens)[1..] == tokens && ([":"] + gaps)[1..] == gaps;
      tokens, gaps := [TwoDigits(bytes[0])] + tokens, [":"] + gaps;
    }
  }

  /** The text of a frame behind its header is what `raw:` takes: parsing it
      gives back the opcode and the parameters. */
  lemma RawReadsFrame(initiator: nibble, destination: nibble, opcode: byte, params: seq<byte>)
    ensures var text := FrameText(initiator, destination, opcode, params);
            |text| > 3 && ParseRaw(RAW_PREFIX + text[3..]) == Parsed(opcode, params)
  {
    var text := FrameText(initiator, destination, opcode, params);
    var bytes := [opcode] + params;
    var tokens, gaps := JoinedBytesIsJoin(bytes);
    assert text[3..] == JoinedBytes(bytes) by { assert bytes[1..] == params; }
    RawUnderstandsBytes(tokens, gaps, bytes);
  }

  /** Its header is the two addresses, from and to. */
  lemma FrameHeader(initiator: nibble, destination: nibble, opcode: byte, params: seq<byte>)
    ensures var text := FrameText(initiator, destination, opcode, params);
            && |text| > 3
            && DigitOf(text[0]) == Some(initiator) && DigitOf(text[1]) == Some(destination) && text[2] == ':'
  {
  }

  /** The frame text determines the frame. */
  lemma FrameTextIsUnique(i: nibble, d: nibble, o: byte, p: seq<byte>, i': nibble, d': nibble, o': byte, p': seq<byte>)
    requires FrameText(i, d, o, p) == FrameText(i', d', o', p')
    ensures i == i' && d == d' && o == o' && p == p'
  {
    var text := FrameText(i, d, o, p);
    assert DigitOf(text[0]) == Some(i) == Some(i') && DigitOf(text[1]) == Some(d) == Some(d');
    RawReadsFrame(i, d, o, p);
    RawReadsFrame(i', d', o', p');
  }
}
