/** The two multi-line regular expressions of scripts/version.py: a literal
    prefix at the start of a line, a non-empty capture without one particular
    character, and a literal suffix at the end of a line.  The capture may span
    lines. */
module VersionPattern {
  import opened Prelude
  import opened PythonInt

  /** `^prefix([^stop]+)suffix$` with re.MULTILINE */
  datatype Pattern = Pattern(prefix: string, stop: char, suffix: string)

  /** s[start..from] is the prefix, s[from..to] the capture, s[to..end] the suffix. */
  datatype Match = Match(start: nat, from: nat, to: nat, end: nat)

  predicate LineStart(s: string, i: int) {
    i == 0 || (0 < i <= |s| && s[i - 1] == '\n')
  }

  predicate LineEnd(s: string, i: int) {
    i == |s| || (0 <= i < |s| && s[i] == '\n')
  }

  predicate At(s: string, i: int, word: string) {
    0 <= i <= i + |word| <= |s| && s[i..i + |word|] == word
  }

  /** What the regular expression says. */
  ghost predicate IsMatch(p: Pattern, s: string, m: Match) {
    && LineStart(s, m.start)
    && At(s, m.start, p.prefix) && m.from == m.start + |p.prefix|
    && m.from < m.to <= |s| && (forall k :: m.from <= k < m.to ==> s[k] != p.stop)
    && At(s, m.to, p.suffix) && m.end == m.to + |p.suffix|
    && LineEnd(s, m.end)
  }

  /** Where the run of other characters that begins at i ends. */
  function RunEnd(s: string, i: nat, stop: char): (k: nat)
    requires i <= |s|
    ensures i <= k <= |s| && (forall j :: i <= j < k ==> s[j] != stop) && (k < |s| ==> s[k] == stop)
    decreases |s| - i
  {
    if i < |s| && s[i] != stop then RunEnd(s, i + 1, stop) else i
  }

  /** One attempt at position i; the greedy run never has to give anything back. */
  function MatchAt(p: Pattern, s: string, i: nat): (m: Option<Match>)
    ensures m.Some? ==> m.value.start == i <= m.value.from <= m.value.to <= m.value.end <= |s|
  {
    if LineStart(s, i) && At(s, i, p.prefix) then
      var from := i + |p.prefix|;
      var to := RunEnd(s, from, p.stop);
      if from < to && At(s, to, p.suffix) && LineEnd(s, to + |p.suffix|)
      then Some(Match(i, from, to, to + |p.suffix|)) else None
    else None
  }

  /** `pattern.finditer`, from a position on. */
  function FindAll(p: Pattern, s: string, from: nat): (ms: seq<Match>)
    ensures forall m :: m in ms ==> m.start <= m.from <= m.to <= m.end <= |s|
    decreases |s| - from
  {
    if from > |s| then [] else
    var m := MatchAt(p, s, from);
    if m.Some? then [m.value] + FindAll(p, s, m.value.end) else FindAll(p, s, from + 1)
  }

  predicate IsVersionChar(c: char) {
    IsDigit(c, 10) || c == '.'
  }

  /** What is needed of a pattern for rewriting its capture to be safe. */
  predicate Proper(p: Pattern) {
    && p.prefix != "" && p.prefix[|p.prefix| - 1] == p.stop
    && p.suffix != "" && p.suffix[0] == p.stop
    && '\n' !in p.prefix && '\n' !in p.suffix
    && (forall c :: c in p.suffix ==> !IsDigit(c, 10))
    && !IsVersionChar(p.stop)
  }

  /** A text that may be written into the capture. */
  predicate VersionLike(v: string) {
    v != "" && IsDigit(v[0], 10) && forall c :: c in v ==> IsVersionChar(c)
  }

  /** The attempt finds the match the expression describes, if there is one. */
  lemma MatchAtIsMatch(p: Pattern, s: string, m: Match)
    requires Proper(p)
    ensures MatchAt(p, s, m.start) == Some(m) <==> IsMatch(p, s, m)
  {
    if IsMatch(p, s, m) {
      var to := RunEnd(s, m.from, p.stop);
      assert s[m.to] == s[m.to..m.to + |p.suffix|][0] == p.stop;
      assert to == m.to;
    }
  }

  predicate NoMatch(p: Pattern, s: string, low: int, high: int) {
    forall i: nat :: low <= i < high ==> MatchAt(p, s, i).None?
  }

  lemma {:induction false} FindNone(p: Pattern, s: string, from: nat)
    requires Proper(p)
    ensures FindAll(p, s, from) == [] <==> NoMatch(p, s, from, |s| + 1)
    decreases |s| - from
  {
    if from <= |s| && MatchAt(p, s, from).None? {
      FindNone(p, s, from + 1);
    }
  }

  /** m is the only match that finditer yields from a position on. */
  predicate OnlyMatch(p: Pattern, s: string, from: nat, m: Match) {
    && from <= m.start && MatchAt(p, s, m.start) == Some(m)
    && NoMatch(p, s, from, m.start) && NoMatch(p, s, m.end, |s| + 1)
  }

  lemma {:induction false} FindOne(p: Pattern, s: string, from: nat, m: Match)
    requires Proper(p)
    ensures FindAll(p, s, from) == [m] <==> OnlyMatch(p, s, from, m)
    decreases |s| - from
  {
    if from <= |s| {
      var first := MatchAt(p, s, from);
      if first.None? {
        FindOne(p, s, from + 1, m);
        assert OnlyMatch(p, s, from, m) <==> OnlyMatch(p, s, from + 1, m);
      } else {
        FindNone(p, s, first.value.end);
        var rest := FindAll(p, s, first.value.end);
        assert ([first.value] + rest)[0] == first.value && |[first.value] + rest| == 1 + |rest|;
        assert OnlyMatch(p, s, from, m) ==> m.start == from;
      }
    }
  }

  /** `pattern.sub(prefix + v + suffix, s, count=1)` for the match m. */
  function Rewrite(p: Pattern, s: string, m: Match, v: string): string
    requires m.start <= m.end <= |s|
  {
    s[..m.start] + p.prefix + v + p.suffix + s[m.end..]
  }

  /** Only the capture changes. */
  lemma RewriteCapture(p: Pattern, s: string, m: Match, v: string)
    requires IsMatch(p, s, m)
    ensures m.start <= m.from <= m.to <= m.end <= |s|
    ensures Rewrite(p, s, m, v) == s[..m.from] + v + s[m.to..]
  {
    assert s[..m.from] == s[..m.start] + s[m.start..m.from];
    assert s[m.to..] == s[m.to..m.end] + s[m.end..];
  }

  /** The match at the place of the old one. */
  function Moved(m: Match, v: string): Match {
    Match(m.start, m.from, m.from + |v|, m.from + |v| + (if m.end >= m.to then m.end - m.to else 0))
  }

  lemma RewrittenMatches(p: Pattern, s: string, m: Match, v: string)
    requires Proper(p) && IsMatch(p, s, m) && VersionLike(v)
    ensures var s' := s[..m.from] + v + s[m.to..]; IsMatch(p, s', Moved(m, v)) && s'[m.from..m.from + |v|] == v
  {
    var s', m' := s[..m.from] + v + s[m.to..], Moved(m, v);
    assert s'[m.start..m.from] == s[m.start..m.from];
    assert s'[m'.to..m'.end] == s[m.to..m.end];
    assert forall k :: m'.from <= k < m'.to ==> s'[k] == v[k - m'.from] && v[k - m'.from] in v;
    assert |s'| - m'.end == |s| - m.end && (m'.end < |s'| ==> s'[m'.end] == s[m.end]);
    assert m.start > 0 ==> s'[m.start - 1] == s[m.start - 1];
  }

  /** A suffix holds no digit, and is followed by the end of a line. */
  lemma SuffixEndsBeforeDigit(p: Pattern, s: string, n: nat, m: Match)
    requires Proper(p) && n < |s| && IsDigit(s[n], 10)
    requires IsMatch(p, s, m) && m.to < n
    ensures m.end < n
  {
    assert forall k :: m.to <= k < m.end ==> s[k] == s[m.to..m.end][k - m.to] && s[k] in p.suffix;
  }

  lemma SameSlice(s: string, s': string, d: int, i: nat, j: nat)
    requires i <= j <= |s'| && 0 <= i + d && j + d <= |s|
    requires forall k :: i <= k < j ==> s'[k] == s[k + d]
    ensures s'[i..j] == s[i + d..j + d]
  {
  }

  /** A match in the common head of two texts is not affected by what is behind it. */
  lemma SameHead(p: Pattern, s: string, s': string, n: nat, m: Match)
    requires n <= |s| && n <= |s'| && forall k :: 0 <= k < n ==> s'[k] == s[k]
    requires IsMatch(p, s', m) && m.end < n
    ensures IsMatch(p, s, m)
  {
    SameSlice(s, s', 0, m.start, m.from);
    SameSlice(s, s', 0, m.to, m.end);
  }

  /** No match can begin before a prefix that is followed by a version: one that
      did would have been a match of the shared part, or would have to put a
      digit into the suffix or at the end of a line. */
  lemma NothingBefore(p: Pattern, shared: string, rest: string, rest': string, m: Match)
    requires Proper(p) && rest' != "" && IsDigit(rest'[0], 10)
    requires IsMatch(p, shared + rest', m) && m.to < |shared|
    ensures IsMatch(p, shared + rest, m)
  {
    SuffixEndsBeforeDigit(p, shared + rest', |shared|, m);
    SameHead(p, shared + rest, shared + rest', |shared|, m);
  }

  function Shift(m: Match, d: int): Match
    requires m.start + d >= 0 && m.start <= m.from <= m.to <= m.end
  {
    Match(m.start + d, m.from + d, m.to + d, m.end + d)
  }

  lemma SameRun(s: string, s': string, d: int, i: nat, j: nat, stop: char)
    requires i <= j <= |s'| && 0 <= i + d && j + d <= |s|
    requires forall k :: i <= k < j ==> s'[k] == s[k + d]
    requires forall k :: i <= k < j ==> s'[k] != stop
    ensures forall k :: i + d <= k < j + d ==> s[k] != stop
  {
    forall k | i + d <= k < j + d ensures s[k] != stop {
      assert s'[k - d] == s[k - d + d];
    }
  }

  lemma ShiftedMatch(p: Pattern, s: string, s': string, d: int, m: Match)
    requires IsMatch(p, s', m) && m.start > 0 && m.start + d > 0 && |s| == |s'| + d
    requires forall k :: m.start - 1 <= k < |s'| ==> s'[k] == s[k + d]
    ensures IsMatch(p, s, Shift(m, d))
  {
    SameRun(s, s', d, m.from, m.to, p.stop);
    SameSlice(s, s', d, m.start, m.from);
    SameSlice(s, s', d, m.to, m.end);
  }

  /** A match in the common tail of two texts is not affected by what is before
      it, as long as the characters right before the tail are the same. */
  lemma SameTail(p: Pattern, a: string, b: string, tail: string, m: Match)
    requires a != "" && b != "" && a[|a| - 1] == b[|b| - 1]
    requires IsMatch(p, b + tail, m) && m.start >= |b|
    ensures IsMatch(p, a + tail, Shift(m, |a| - |b|))
  {
    var s, s', d := a + tail, b + tail, |a| - |b|;
    assert forall k :: |b| - 1 <= k < |s'| ==> s'[k] == s[k + d];
    ShiftedMatch(p, s, s', d, m);
  }

  /** An earlier match would have to end before the prefix does, whose last
      character is the one no capture may contain. */
  lemma BeforeRewritten(p: Pattern, s: string, m: Match, v: string, n: Match)
    requires Proper(p) && VersionLike(v) && IsMatch(p, s, m)
    requires NoMatch(p, s, 0, m.start) && n.start < m.start
    ensures !IsMatch(p, s[..m.from] + v + s[m.to..], n)
  {
    var s' := s[..m.from] + v + s[m.to..];
    if IsMatch(p, s', n) {
      assert s'[m.from - 1] == s[m.start..m.from][|p.prefix| - 1] == p.stop;
      assert s' == s[..m.from] + (v + s[m.to..]) && s == s[..m.from] + s[m.from..];
      NothingBefore(p, s[..m.from], s[m.from..], v + s[m.to..], n);
      MatchAtIsMatch(p, s, n);
    }
  }

  lemma BehindRewritten(p: Pattern, s: string, m: Match, v: string, n: Match)
    requires Proper(p) && VersionLike(v) && IsMatch(p, s, m)
    requires NoMatch(p, s, m.end, |s| + 1) && n.start >= Moved(m, v).end
    ensures m.start <= m.end <= |s| && !IsMatch(p, Rewrite(p, s, m, v), n)
  {
    var a, b, tail := s[..m.end], s[..m.start] + p.prefix + v + p.suffix, s[m.end..];
    assert s == a + tail;
    assert a[|a| - 1] == s[m.to..m.end][|p.suffix| - 1];
    assert |b| == Moved(m, v).end;
    if IsMatch(p, b + tail, n) {
      SameTail(p, a, b, tail, n);
      MatchAtIsMatch(p, s, Shift(n, |a| - |b|));
    }
  }

  lemma NoOtherMatch(p: Pattern, s: string, m: Match, v: string)
    requires Proper(p) && VersionLike(v) && IsMatch(p, s, m)
    requires NoMatch(p, s, 0, m.start) && NoMatch(p, s, m.end, |s| + 1)
    ensures m.start <= m.end <= |s|
    ensures var s' := Rewrite(p, s, m, v);
            NoMatch(p, s', 0, m.start) && NoMatch(p, s', Moved(m, v).end, |s'| + 1)
  {
    RewriteCapture(p, s, m, v);
    var s' := Rewrite(p, s, m, v);
    forall i: nat | i < m.start || Moved(m, v).end <= i < |s'| + 1
      ensures MatchAt(p, s', i).None?
    {
      if MatchAt(p, s', i).Some? {
        var n := MatchAt(p, s', i).value;
        MatchAtIsMatch(p, s', n);
        if i < m.start {
          BeforeRewritten(p, s, m, v, n);
        } else {
          BehindRewritten(p, s, m, v, n);
        }
      }
    }
  }

  /** Rewriting the only match leaves exactly one match, which captures the new
      version. */
  lemma RewriteKeepsOneMatch(p: Pattern, s: string, m: Match, v: string)
    requires Proper(p) && VersionLike(v) && FindAll(p, s, 0) == [m]
    ensures m.start <= m.end <= |s|
    ensures var s' := Rewrite(p, s, m, v);
            FindAll(p, s', 0) == [Moved(m, v)] && m.from + |v| <= |s'| && s'[m.from..m.from + |v|] == v
  {
    FindOne(p, s, 0, m);
    MatchAtIsMatch(p, s, m);
    RewriteCapture(p, s, m, v);
    var s', m' := Rewrite(p, s, m, v), Moved(m, v);
    RewrittenMatches(p, s, m, v);
    MatchAtIsMatch(p, s', m');
    NoOtherMatch(p, s, m, v);
    FindOne(p, s', 0, m');
  }
}
