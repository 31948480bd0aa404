/** The payload of a message on the wire between the integration and the daemon:
    `bytes.hex()` on one side, `_require_hex` on the other. */
module HexCodec {
  import opened Prelude
  import opened Text
  import opened PythonInt

  type nibble = x: int | 0 <= x < 16

  function HexChar(n: nibble): (c: char)
    ensures DigitOf(c) == Some(n) && LowerChar(c) == c && !IsCSpace(c) && c != ':'
  {
    if n < 10 then '0' + n as char else 'a' + (n - 10) as char
  }

  function UpperHexChar(n: nibble): (c: char)
    ensures DigitOf(c) == Some(n)
  {
    if n < 10 then '0' + n as char else 'A' + (n - 10) as char
  }

  function UpperHexDigits(n: nat): string {
    (if n < 16 then "" else UpperHexDigits(n / 16)) + [UpperHexChar(n % 16)]
  }

  /** `f"{n:02X}"` */
  function TwoDigitHex(n: int): string {
    var text := if n < 0 then "-" + UpperHexDigits(-n) else UpperHexDigits(n);
    if |text| < 2 then "0" + text else text
  }

  lemma TwoDigitsOfByte(b: byte)
    ensures TwoDigitHex(b) == [UpperHexChar(b / 16), UpperHexChar(b % 16)]
  {
    if b < 16 {
      assert UpperHexDigits(b) == [UpperHexChar(b)];
    } else {
      assert UpperHexDigits(b / 16) == [UpperHexChar(b / 16)];
    }
  }

  /** `p.hex()` */
  function Hex(p: seq<byte>): (s: string)
    ensures |s| == 2 * |p|
  {
    if p == [] then "" else [HexChar(p[0] / 16), HexChar(p[0] % 16)] + Hex(p[1..])
  }

  /** `bytes.fromhex(s)`: blanks are skipped between bytes, not inside one. */
  function FromHex(s: string): Option<seq<byte>> {
    if s == "" then Some([])
    else if IsCSpace(s[0]) then FromHex(s[1..])
    else if |s| >= 2 && IsDigit(s[0], 16) && IsDigit(s[1], 16) then
      var rest := FromHex(s[2..]);
      if rest.None? then None
      else Some([DigitOf(s[0]).value * 16 + DigitOf(s[1]).value] + rest.value)
    else None
  }

  lemma FromHexCons(s: string, p: seq<byte>)
    requires |s| >= 2 && !IsCSpace(s[0]) && p != []
    ensures FromHex(s) == Some(p) <==>
              DigitOf(s[0]) == Some(p[0] / 16) && DigitOf(s[1]) == Some(p[0] % 16) &&
              FromHex(s[2..]) == Some(p[1..])
  {
    assert p == [p[0]] + p[1..];
    if FromHex(s).Some? {
      var a, b, rest := DigitOf(s[0]).value, DigitOf(s[1]).value, FromHex(s[2..]).value;
      assert FromHex(s).value == [a * 16 + b] + rest;
      assert (a * 16 + b) / 16 == a && (a * 16 + b) % 16 == b;
    }
  }

  lemma {:induction false} HexRoundTrip(p: seq<byte>)
    ensures FromHex(Hex(p)) == Some(p)
  {
    if p != [] {
      HexRoundTrip(p[1..]);
      FromHexCons(Hex(p), p);
    }
  }

  predicate IsSeparator(c: char) {
    c == ':' || c == ' '
  }

  lemma {:induction false} HexIsClean(p: seq<byte>)
    ensures forall c :: c in Hex(p) ==> !IsSeparator(c) && !IsCSpace(c) && LowerChar(c) == c
  {
    if p != [] { HexIsClean(p[1..]); }
  }

  /** One JSON value. */
  datatype Json =
    | JNull
    | JBool(flag: bool)
    | JInt(number: int)
    | JFloat(float: real)
    | JString(text: string)
    | JOther

  /** `_require_hex` on a field that may be missing; None is HTTP 400. */
  function RequireHex(field: Option<Json>): Option<seq<byte>> {
    if field.None? || field.value.JNull? || field.value == JString("") then Some([])
    else if !field.value.JString? then None
    else FromHex(Remove(field.value.text, IsSeparator))
  }

  /** A text with separators put before, after and anywhere between its characters. */
  function Decorate(clean: string, gaps: seq<string>): string
    requires |gaps| == |clean| + 1
  {
    if clean == "" then gaps[0] else gaps[0] + [clean[0]] + Decorate(clean[1..], gaps[1..])
  }

  lemma {:induction false} RemoveDecoration(clean: string, gaps: seq<string>)
    requires |gaps| == |clean| + 1
    requires forall g :: g in gaps ==> forall c :: c in g ==> IsSeparator(c)
    requires forall c :: c in clean ==> !IsSeparator(c)
    ensures Remove(Decorate(clean, gaps), IsSeparator) == clean
  {
    assert gaps[0] in gaps;
    RemoveAll(gaps[0], IsSeparator);
    if clean != "" {
      assert forall g :: g in gaps[1..] ==> g in gaps;
      assert forall c :: c in clean[1..] ==> c in clean;
      var rest := Decorate(clean[1..], gaps[1..]);
      RemoveDecoration(clean[1..], gaps[1..]);
      RemoveConcat(gaps[0] + [clean[0]], rest, IsSeparator);
      RemoveConcat(gaps[0], [clean[0]], IsSeparator);
      assert Remove([clean[0]], IsSeparator) == [clean[0]];
    }
  }

  /** Every payload survives the wire, however it is written with colons and
      blanks: between bytes, and even between the digits of one byte. */
  lemma DecoratedHexDecodes(p: seq<byte>, gaps: seq<string>)
    requires |gaps| == |Hex(p)| + 1
    requires forall g :: g in gaps ==> forall c :: c in g ==> IsSeparator(c)
    ensures RequireHex(Some(JString(Decorate(Hex(p), gaps)))) == Some(p)
  {
    HexIsClean(p);
    RemoveDecoration(Hex(p), gaps);
    HexRoundTrip(p);
  }

  lemma {:induction false} RemoveKeeps(s: string, drop: char -> bool)
    ensures forall c :: c in Remove(s, drop) <==> c in s && !drop(c)
  {
    if s != "" {
      RemoveKeeps(s[1..], drop);
      assert forall c :: c in s <==> c == s[0] || c in s[1..];
    }
  }

  lemma LowerDigit(c: char, n: nibble)
    ensures LowerChar(c) == HexChar(n) <==> DigitOf(c) == Some(n)
  {
  }

  lemma LowerCons(s: string, p: seq<byte>)
    requires |s| >= 2 && p != []
    ensures Lower(s) == Hex(p) <==>
              DigitOf(s[0]) == Some(p[0] / 16) && DigitOf(s[1]) == Some(p[0] % 16) &&
              Lower(s[2..]) == Hex(p[1..])
  {
    LowerDigit(s[0], p[0] / 16);
    LowerDigit(s[1], p[0] % 16);
    var a, b := [LowerChar(s[0]), LowerChar(s[1])], [HexChar(p[0] / 16), HexChar(p[0] % 16)];
    assert Lower(s) == a + Lower(s[2..]);
    assert Hex(p) == b + Hex(p[1..]);
    assert Lower(s)[..2] == a && Lower(s)[2..] == Lower(s[2..]);
    assert Hex(p)[..2] == b && Hex(p)[2..] == Hex(p[1..]);
  }

  lemma {:induction false} FromHexIsInverse(s: string, p: seq<byte>)
    requires forall c :: c in s ==> !IsCSpace(c)
    ensures FromHex(s) == Some(p) <==> Lower(s) == Hex(p)
  {
    if |s| >= 2 && p != [] {
      assert forall c :: c in s[2..] ==> c in s;
      assert s[0] in s;
      FromHexIsInverse(s[2..], p[1..]);
      FromHexCons(s, p);
      LowerCons(s, p);
    }
  }

  /** What `hex` prints, with a gap before each byte and one at the end. */
  function Weave(p: seq<byte>, gaps: seq<string>): string
    requires |gaps| == |p| + 1
  {
    if p == [] then gaps[0] else gaps[0] + Hex(p[..1]) + Weave(p[1..], gaps[1..])
  }

  ghost predicate AreGaps(p: seq<byte>, gaps: seq<string>) {
    |gaps| == |p| + 1 && forall i, c :: 0 <= i < |gaps| && c in gaps[i] ==> IsCSpace(c)
  }

  ghost predicate IsWoven(s: string, p: seq<byte>) {
    exists gaps :: AreGaps(p, gaps) && Lower(s) == Weave(p, gaps)
  }

  /** The first byte of a text. */
  lemma LowerPair(s: string, p: seq<byte>)
    requires |s| >= 2 && p != []
    ensures Lower(s) == Hex(p[..1]) + Lower(s[2..]) <==>
              DigitOf(s[0]) == Some(p[0] / 16) && DigitOf(s[1]) == Some(p[0] % 16)
  {
    LowerDigit(s[0], p[0] / 16);
    LowerDigit(s[1], p[0] % 16);
    var pair := [LowerChar(s[0]), LowerChar(s[1])];
    assert Lower(s) == pair + Lower(s[2..]) && Lower(s)[..2] == pair;
    assert Hex(p[..1]) == [HexChar(p[0] / 16), HexChar(p[0] % 16)];
    assert (Hex(p[..1]) + Lower(s[2..]))[..2] == Hex(p[..1]);
  }

  /** One more blank at the beginning. */
  lemma WeaveWiden(p: seq<byte>, gaps: seq<string>, c: char)
    requires AreGaps(p, gaps) && IsCSpace(c)
    ensures var gaps' := [[c] + gaps[0]] + gaps[1..];
            AreGaps(p, gaps') && Weave(p, gaps') == [c] + Weave(p, gaps)
  {
    var gaps' := [[c] + gaps[0]] + gaps[1..];
    assert gaps'[1..] == gaps[1..] && gaps'[0] == [c] + gaps[0];
    if p != [] {
      var rest := Weave(p[1..], gaps[1..]);
      assert gaps'[0] + Hex(p[..1]) + rest == [c] + (gaps[0] + Hex(p[..1]) + rest);
    }
  }

  /** One more byte at the beginning. */
  lemma WeavePair(s: string, p: seq<byte>)
    requires |s| >= 2 && p != [] && Lower(s) == Hex(p[..1]) + Lower(s[2..]) && IsWoven(s[2..], p[1..])
    ensures IsWoven(s, p)
  {
    var gaps :| AreGaps(p[1..], gaps) && Lower(s[2..]) == Weave(p[1..], gaps);
    var gaps' := [""] + gaps;
    assert gaps'[1..] == gaps;
    assert "" + Hex(p[..1]) == Hex(p[..1]);
    assert AreGaps(p, gaps') && Lower(s) == Weave(p, gaps');
  }

  lemma {:induction false} WeaveWhatIsRead(s: string, p: seq<byte>)
    requires FromHex(s) == Some(p)
    ensures IsWoven(s, p)
    decreases |s|
  {
    if s == "" {
      assert AreGaps(p, [""]) && Lower(s) == Weave(p, [""]);
    } else if IsCSpace(s[0]) {
      WeaveWhatIsRead(s[1..], p);
      var gaps :| AreGaps(p, gaps) && Lower(s[1..]) == Weave(p, gaps);
      WeaveWiden(p, gaps, s[0]);
      assert Lower(s) == [s[0]] + Lower(s[1..]);
    } else {
      FromHexCons(s, p);
      WeaveWhatIsRead(s[2..], p[1..]);
      LowerPair(s, p);
      WeavePair(s, p);
    }
  }

  lemma LowerSpace(c: char)
    requires IsCSpace(LowerChar(c))
    ensures LowerChar(c) == c
  {
  }

  lemma {:induction false} ReadWhatIsWoven(s: string, p: seq<byte>, gaps: seq<string>)
    requires AreGaps(p, gaps) && Lower(s) == Weave(p, gaps)
    ensures FromHex(s) == Some(p)
    decreases |s|
  {
    if gaps[0] != "" {
      var gaps' := [gaps[0][1..]] + gaps[1..];
      assert gaps[0][0] in gaps[0] && gaps'[1..] == gaps[1..];
      assert Weave(p, gaps) == [gaps[0][0]] + Weave(p, gaps');
      assert Lower(s) == [LowerChar(s[0])] + Lower(s[1..]);
      assert Lower(s)[1..] == Lower(s[1..]) && Weave(p, gaps)[1..] == Weave(p, gaps');
      assert Lower(s)[0] == Weave(p, gaps)[0];
      LowerSpace(s[0]);
      assert forall c :: c in gaps'[0] ==> c in gaps[0];
      ReadWhatIsWoven(s[1..], p, gaps');
    } else if p != [] {
      var woven := Weave(p[1..], gaps[1..]);
      assert Weave(p, gaps) == Hex(p[..1]) + woven;
      assert |Hex(p[..1])| == 2 && Lower(s)[2..] == Lower(s[2..]);
      assert (Hex(p[..1]) + woven)[2..] == woven;
      LowerPair(s, p);
      ReadWhatIsWoven(s[2..], p[1..], gaps[1..]);
      FromHexCons(s, p);
    }
  }

  /** `fromhex` reads a text as p exactly if it is p's print in either case, with
      white space before, behind and between the bytes. */
  lemma {:induction false} FromHexIsWoven(s: string, p: seq<byte>)
    ensures FromHex(s) == Some(p) <==> IsWoven(s, p)
  {
    if FromHex(s) == Some(p) { WeaveWhatIsRead(s, p); }
    if gaps :| AreGaps(p, gaps) && Lower(s) == Weave(p, gaps) { ReadWhatIsWoven(s, p, gaps); }
  }

  /** A text is accepted as p exactly if, without the separators and with the
      letters in lower case, it is what `hex` prints for p, with nothing but tabs
      and line breaks between the bytes; without any of those, exactly if it is
      what `hex` prints. */
  lemma RequireHexIsInverse(s: string, p: seq<byte>)
    ensures RequireHex(Some(JString(s))) == Some(p) <==> IsWoven(Remove(s, IsSeparator), p)
    ensures (forall c :: c in s ==> IsCSpace(c) ==> c == ' ') ==>
              (RequireHex(Some(JString(s))) == Some(p) <==> Lower(Remove(s, IsSeparator)) == Hex(p))
  {
    var clean := Remove(s, IsSeparator);
    RemoveKeeps(s, IsSeparator);
    FromHexIsWoven(clean, p);
    if s == "" { assert clean == ""; }
    if forall c :: c in s ==> IsCSpace(c) ==> c == ' ' {
      FromHexIsInverse(clean, p);
    }
  }
}
