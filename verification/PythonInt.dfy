/** Python's `int(text, base)` on ASCII text: surrounding blanks, a sign, a 0x
    prefix in base 16, and single underscores between digits are accepted. */
module PythonInt {
  import opened Prelude
  import opened Text

  function DigitOf(c: char): Option<nat> {
    if '0' <= c <= '9' then Some((c - '0') as nat)
    else if 'a' <= c <= 'z' then Some((c - 'a') as nat + 10)
    else if 'A' <= c <= 'Z' then Some((c - 'A') as nat + 10)
    else None
  }

  predicate IsDigit(c: char, base: nat) {
    DigitOf(c).Some? && DigitOf(c).value < base
  }

  /** Digits with single underscores between them. */
  predicate WellFormedDigits(s: string, base: nat) {
    && s != ""
    && (forall i :: 0 <= i < |s| ==> s[i] == '_' || IsDigit(s[i], base))
    && s[0] != '_' && s[|s| - 1] != '_'
    && (forall i :: 0 < i < |s| ==> s[i] != '_' || s[i - 1] != '_')
  }

  function DigitsValue(s: string, base: nat): nat {
    if s == "" then 0 else
    var last := s[|s| - 1];
    var high := DigitsValue(s[..|s| - 1], base);
    if IsDigit(last, base) then high * base + DigitOf(last).value else high
  }

  function Unsigned(s: string, base: nat): Option<nat> {
    var digits :=
      if base == 16 && |s| >= 2 && s[0] == '0' && (s[1] == 'x' || s[1] == 'X')
      then (if |s| >= 3 && s[2] == '_' then s[3..] else s[2..])
      else s;
    if WellFormedDigits(digits, base) then Some(DigitsValue(digits, base)) else None
  }

  function ParseInt(text: string, base: nat): Option<int> {
    var s := StripRight(StripLeft(text, IsCSpace), IsCSpace);
    if s != "" && (s[0] == '+' || s[0] == '-') then
      var n := Unsigned(s[1..], base);
      if n.None? then None else
        var magnitude: int := n.value;
        Some(if s[0] == '-' then -magnitude else magnitude)
    else
      var n := Unsigned(s, base);
      if n.None? then None else Some(n.value)
  }

  /** Digits without a prefix, and nothing but digits. */
  predicate ArePlainDigits(s: string, base: nat) {
    && s != "" && (forall c :: c in s ==> IsDigit(c, base))
    && base <= 16 && (base == 16 && |s| >= 2 ==> s[1] != 'x' && s[1] != 'X')
  }

  lemma UnsignedDigits(s: string, base: nat)
    requires ArePlainDigits(s, base)
    ensures Unsigned(s, base) == Some(DigitsValue(s, base))
    ensures !IsCSpace(s[0]) && !IsCSpace(s[|s| - 1]) && s[0] != '-' && s[0] != '+'
  {
    assert forall i :: 0 <= i < |s| ==> s[i] in s;
    assert IsDigit(s[0], base) && IsDigit(s[|s| - 1], base);
  }

  /** Plain digits mean what they say. */
  lemma PlainDigits(s: string, base: nat)
    requires ArePlainDigits(s, base)
    ensures ParseInt(s, base) == Some(DigitsValue(s, base))
  {
    UnsignedDigits(s, base);
    StripKeeps(s, IsCSpace);
  }

  /** So do digits behind a sign. */
  lemma SignedDigits(sign: char, s: string, base: nat)
    requires ArePlainDigits(s, base) && (sign == '-' || sign == '+')
    ensures ParseInt([sign] + s, base) ==
              if sign == '-' then Some(-(DigitsValue(s, base) as int)) else Some(DigitsValue(s, base))
  {
    UnsignedDigits(s, base);
    var signed := [sign] + s;
    assert signed[|signed| - 1] == s[|s| - 1] && signed[1..] == s;
    StripKeeps(signed, IsCSpace);
  }

  /** Without blanks around it and without a sign. */
  lemma ParseUnsigned(text: string, base: nat)
    requires text != "" && !IsCSpace(text[0]) && !IsCSpace(text[|text| - 1]) && text[0] != '-' && text[0] != '+'
    ensures ParseInt(text, base) == if Unsigned(text, base).None? then None else Some(Unsigned(text, base).value)
  {
    StripKeeps(text, IsCSpace);
  }

  lemma PlainIsWellFormed(s: string, base: nat)
    requires s != "" && forall c :: c in s ==> IsDigit(c, base)
    ensures WellFormedDigits(s, base) && !IsCSpace(s[|s| - 1]) && s[0] != '_'
  {
    assert forall i :: 0 <= i < |s| ==> s[i] in s;
    assert IsDigit(s[0], base) && IsDigit(s[|s| - 1], base);
  }

  /** In base 16 a prefix changes nothing. */
  lemma PrefixedDigits(x: char, gap: string, s: string)
    requires s != "" && forall c :: c in s ==> IsDigit(c, 16)
    requires (x == 'x' || x == 'X') && (gap == "" || gap == "_")
    ensures ParseInt(['0', x] + gap + s, 16) == Some(DigitsValue(s, 16))
  {
    var text := ['0', x] + gap + s;
    PlainIsWellFormed(s, 16);
    assert text[0] == '0' && text[1] == x && text[|text| - 1] == s[|s| - 1];
    assert gap == "" ==> text[2] == s[0] && text[2..] == s;
    assert gap == "_" ==> text[2] == '_' && text[3..] == s;
    ParseUnsigned(text, 16);
  }

  lemma {:induction false} UnderscoreCountsNothing(a: string, b: string, base: nat)
    requires base <= 16
    ensures DigitsValue(a + "_" + b, base) == DigitsValue(a + b, base)
  {
    if b == "" {
      assert a + "_" + b == a + "_" && a + b == a && (a + "_")[..|a|] == a;
    } else {
      var n := |b| - 1;
      UnderscoreCountsNothing(a, b[..n], base);
      assert (a + "_" + b)[..|a| + 1 + n] == a + "_" + b[..n];
      assert (a + b)[..|a| + n] == a + b[..n];
    }
  }

  lemma UnderscoredIsWellFormed(a: string, b: string, base: nat)
    requires a != "" && forall c :: c in a ==> IsDigit(c, base)
    requires b != "" && forall c :: c in b ==> IsDigit(c, base)
    ensures WellFormedDigits(a + "_" + b, base)
  {
    var text := a + "_" + b;
    forall i | 0 <= i < |text|
      ensures text[i] == '_' <==> i == |a|
      ensures i != |a| ==> IsDigit(text[i], base)
    {
      if i < |a| {
        assert text[i] == a[i] && a[i] in a;
      } else if i > |a| {
        assert text[i] == b[i - |a| - 1] && b[i - |a| - 1] in b;
      }
    }
  }

  /** Nor does an underscore between two digits. */
  lemma UnderscoredDigits(a: string, b: string, base: nat)
    requires ArePlainDigits(a, base) && b != "" && forall c :: c in b ==> IsDigit(c, base)
    ensures ParseInt(a + "_" + b, base) == Some(DigitsValue(a + b, base))
  {
    var text := a + "_" + b;
    UnsignedDigits(a, base);
    PlainIsWellFormed(b, base);
    UnderscoredIsWellFormed(a, b, base);
    UnderscoreCountsNothing(a, b, base);
    assert text[0] == a[0] && text[|text| - 1] == b[|b| - 1];
    assert text[1] == if |a| > 1 then a[1] else '_';
    ParseUnsigned(text, base);
  }

  /** The number is not negative unless it is written with a minus sign. */
  lemma OnlySignedIsNegative(text: string, base: nat)
    requires ParseInt(text, base).Some? && ParseInt(text, base).value < 0
    ensures '-' in text
  {
    var s := StripRight(StripLeft(text, IsCSpace), IsCSpace);
    assert s[0] == '-';
    StrippedWasThere(text, IsCSpace, '-');
  }
}
