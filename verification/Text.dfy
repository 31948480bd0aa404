/** The Python string operations the sources use, on ASCII text. */
module Text {
  import opened Prelude

  /** What `str.strip` removes. */
  predicate IsSpace(c: char) {
    '\t' <= c <= '\r' || '\U{1c}' <= c <= ' '
  }

  /** What C's `isspace` accepts; `int` and `bytes.fromhex` skip these. */
  predicate IsCSpace(c: char) {
    '\t' <= c <= '\r' || c == ' '
  }

  function StripLeft(s: string, drop: char -> bool): string {
    if s != "" && drop(s[0]) then StripLeft(s[1..], drop) else s
  }

  function StripRight(s: string, drop: char -> bool): string {
    if s != "" && drop(s[|s| - 1]) then StripRight(s[..|s| - 1], drop) else s
  }

  function Strip(s: string): string {
    StripRight(StripLeft(s, IsSpace), IsSpace)
  }

  lemma {:induction false} StripLeftIsSuffix(s: string, drop: char -> bool)
    ensures |StripLeft(s, drop)| <= |s| && s[|s| - |StripLeft(s, drop)|..] == StripLeft(s, drop)
  {
    if s != "" && drop(s[0]) { StripLeftIsSuffix(s[1..], drop); }
  }

  lemma {:induction false} StripRightIsPrefix(s: string, drop: char -> bool)
    ensures StripRight(s, drop) <= s
  {
    if s != "" && drop(s[|s| - 1]) { StripRightIsPrefix(s[..|s| - 1], drop); }
  }

  lemma StrippedWasThere(s: string, drop: char -> bool, c: char)
    requires c in StripRight(StripLeft(s, drop), drop)
    ensures c in s
  {
    var left := StripLeft(s, drop);
    StripLeftIsSuffix(s, drop);
    StripRightIsPrefix(left, drop);
    assert c in left;
  }

  lemma StripKeeps(s: string, drop: char -> bool)
    requires s != "" ==> !drop(s[0]) && !drop(s[|s| - 1])
    ensures StripRight(StripLeft(s, drop), drop) == s
  {
  }

  lemma {:induction false} StripLeftEnds(s: string, drop: char -> bool)
    ensures StripLeft(s, drop) != "" ==> !drop(StripLeft(s, drop)[0])
  {
    if s != "" && drop(s[0]) { StripLeftEnds(s[1..], drop); }
  }

  lemma {:induction false} StripRightEnds(s: string, drop: char -> bool)
    ensures var t := StripRight(s, drop); t != "" ==> !drop(t[|t| - 1])
  {
    if s != "" && drop(s[|s| - 1]) { StripRightEnds(s[..|s| - 1], drop); }
  }

  lemma StripTwice(s: string)
    ensures Strip(Strip(s)) == Strip(s)
  {
    var left := StripLeft(s, IsSpace);
    StripLeftEnds(s, IsSpace);
    StripRightEnds(left, IsSpace);
    StripRightIsPrefix(left, IsSpace);
    StripKeeps(Strip(s), IsSpace);
  }

  predicate AllSpace(s: string) {
    forall c :: c in s ==> IsSpace(c)
  }

  lemma {:induction false} StripLeftDrops(left: string, s: string)
    requires AllSpace(left) && (s != "" ==> !IsSpace(s[0]))
    ensures StripLeft(left + s, IsSpace) == s
  {
    if left == "" {
      assert left + s == s;
    } else {
      assert left[0] in left && forall c :: c in left[1..] ==> c in left;
      assert (left + s)[1..] == left[1..] + s;
      StripLeftDrops(left[1..], s);
    }
  }

  lemma {:induction false} StripRightDrops(s: string, right: string)
    requires AllSpace(right) && (s != "" ==> !IsSpace(s[|s| - 1]))
    ensures StripRight(s + right, IsSpace) == s
  {
    if right == "" {
      assert s + right == s;
    } else {
      var n := |right| - 1;
      assert right[n] in right && forall c :: c in right[..n] ==> c in right;
      assert (s + right)[..|s + right| - 1] == s + right[..n];
      StripRightDrops(s, right[..n]);
    }
  }

  /** `strip` takes the blanks away on both sides, and nothing else. */
  lemma StripIs(left: string, s: string, right: string)
    requires AllSpace(left) && AllSpace(right)
    requires s != "" && !IsSpace(s[0]) && !IsSpace(s[|s| - 1])
    ensures Strip(left + s + right) == s
  {
    assert left + s + right == left + (s + right);
    StripLeftDrops(left, s + right);
    StripRightDrops(s, right);
  }

  function LowerChar(c: char): char {
    if 'A' <= c <= 'Z' then (c as int + 32) as char else c
  }

  function Lower(s: string): (r: string)
    ensures |r| == |s| && forall i :: 0 <= i < |s| ==> r[i] == LowerChar(s[i])
  {
    seq(|s|, i requires 0 <= i < |s| => LowerChar(s[i]))
  }

  /** `s.replace(a, "").replace(b, "")` and the like. */
  function Remove(s: string, drop: char -> bool): string {
    if s == "" then "" else (if drop(s[0]) then "" else [s[0]]) + Remove(s[1..], drop)
  }

  lemma {:induction false} RemoveConcat(a: string, b: string, drop: char -> bool)
    ensures Remove(a + b, drop) == Remove(a, drop) + Remove(b, drop)
  {
    if a == "" {
      assert a + b == b;
    } else {
      assert (a + b)[1..] == a[1..] + b;
      RemoveConcat(a[1..], b, drop);
    }
  }

  lemma {:induction false} RemoveAll(s: string, drop: char -> bool)
    requires forall c :: c in s ==> drop(c)
    ensures Remove(s, drop) == ""
  {
    if s != "" { RemoveAll(s[1..], drop); }
  }

  lemma {:induction false} RemoveNothing(s: string, drop: char -> bool)
    requires forall c :: c in s ==> !drop(c)
    ensures Remove(s, drop) == s
  {
    if s != "" { RemoveNothing(s[1..], drop); }
  }

  function ReplaceChar(s: string, from: char, to: char): (r: string)
    ensures |r| == |s| && forall i :: 0 <= i < |s| ==> r[i] == if s[i] == from then to else s[i]
  {
    seq(|s|, i requires 0 <= i < |s| => if s[i] == from then to else s[i])
  }

  function Find(s: string, c: char): (i: nat)
    requires c in s
    ensures i < |s| && s[i] == c && c !in s[..i]
  {
    if s[0] == c then 0 else
      assert s == [s[0]] + s[1..];
      var j := Find(s[1..], c);
      assert s[..j + 1] == [s[0]] + s[1..][..j];
      j + 1
  }

  /** `s.split(sep)` for a one-character separator. */
  function Split(s: string, sep: char): (parts: seq<string>)
    ensures parts != []
    decreases |s|
  {
    if sep !in s then [s]
    else
      var i := Find(s, sep);
      [s[..i]] + Split(s[i + 1..], sep)
  }

  lemma FindIsFirst(s: string, c: char, k: nat)
    requires k < |s| && s[k] == c && c !in s[..k]
    ensures Find(s, c) == k
  {
    var i := Find(s, c);
    assert forall j :: 0 <= j < k ==> s[..k][j] == s[j];
    assert forall j :: 0 <= j < i ==> s[..i][j] == s[j];
  }

  lemma SplitOff(part: string, rest: string, sep: char)
    requires sep !in part
    ensures Split(part + [sep] + rest, sep) == [part] + Split(rest, sep)
  {
    var s := part + [sep] + rest;
    assert s[..|part|] == part && s[|part|] == sep && s[|part| + 1..] == rest;
    FindIsFirst(s, sep, |part|);
  }

  lemma {:induction false} SplitKeepsChars(s: string, sep: char)
    ensures forall part, c :: part in Split(s, sep) && c in part ==> c in s
    decreases |s|
  {
    if sep in s {
      var i := Find(s, sep);
      var head, rest := s[..i], Split(s[i + 1..], sep);
      SplitKeepsChars(s[i + 1..], sep);
      assert Split(s, sep) == [head] + rest;
      forall part, c | part in Split(s, sep) && c in part ensures c in s {
        assert part == head || part in rest;
        assert c in s[..i] || c in s[i + 1..];
      }
    }
  }

  function NonEmpty(parts: seq<string>): seq<string> {
    if parts == [] then [] else
    (if parts[0] == "" then [] else [parts[0]]) + NonEmpty(parts[1..])
  }

  lemma {:induction false} NonEmptyKeeps(parts: seq<string>)
    ensures forall part :: part in NonEmpty(parts) ==> part in parts
  {
    if parts != [] {
      NonEmptyKeeps(parts[1..]);
    }
  }

  predicate StartsWith(s: string, prefix: string) {
    prefix <= s
  }
}
