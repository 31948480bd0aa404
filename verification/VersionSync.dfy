/** Writing one version into every file that carries it, and checking that they
    agree (scripts/version.py, sync_version and check_versions). */
module VersionSync {
  import opened Prelude
  import opened Text
  import opened HexCodec
  import opened VersionPattern
  import opened StableVersion

  /** What the two texts look like: the README's current-version line, the
      daemon's VERSION line, and the README sentence that stands in for the
      former before the first release. */
  datatype Format = Format(readme: Pattern, daemon: Pattern, sentence: string)

  /** What makes a format safe to rewrite. */
  predicate Suits(f: Format) {
    && Proper(f.readme) && Proper(f.daemon)
    && f.sentence != "" && !IsVersionChar(f.sentence[0])
    && f.sentence[0] !in f.readme.prefix && f.sentence[0] !in f.readme.suffix
    && f.readme.stop !in f.sentence && f.readme.prefix[0] !in f.sentence
  }

  const README_PATTERN := Pattern("Current version: **", '*', "**.")
  const DAEMON_PATTERN := Pattern("VERSION = \"", '"', "\"")
  const UNRELEASED_1 := "This repository is "
  const UNRELEASED_2 := "under active develop"
  const UNRELEASED_3 := "ment and has no relea"
  const UNRELEASED_4 := "sed version yet."
  const README_UNRELEASED := UNRELEASED_1 + UNRELEASED_2 + UNRELEASED_3 + UNRELEASED_4
  const REPOSITORY_FORMAT := Format(README_PATTERN, DAEMON_PATTERN, README_UNRELEASED)

  predicate Lacks(s: string, a: char, b: char) {
    forall c :: c in s ==> c != a && c != b
  }

  lemma LacksBoth(s: string, t: string, a: char, b: char)
    requires Lacks(s, a, b) && Lacks(t, a, b)
    ensures Lacks(s + t, a, b)
  {
  }

  lemma SentenceLacksPattern()
    ensures Lacks(README_UNRELEASED, '*', 'C') && README_UNRELEASED[0] == 'T'
  {
    assert Lacks(UNRELEASED_1, '*', 'C');
    assert Lacks(UNRELEASED_2, '*', 'C');
    assert Lacks(UNRELEASED_3, '*', 'C');
    assert Lacks(UNRELEASED_4, '*', 'C');
    LacksBoth(UNRELEASED_1, UNRELEASED_2, '*', 'C');
    LacksBoth(UNRELEASED_1 + UNRELEASED_2, UNRELEASED_3, '*', 'C');
    LacksBoth(UNRELEASED_1 + UNRELEASED_2 + UNRELEASED_3, UNRELEASED_4, '*', 'C');
  }

  lemma ReadmePatternIsProper()
    ensures Proper(README_PATTERN)
    ensures Lacks(README_PATTERN.prefix, 'T', 'T') && Lacks(README_PATTERN.suffix, 'T', 'T')
  {
  }

  lemma DaemonPatternIsProper()
    ensures Proper(DAEMON_PATTERN)
  {
  }

  lemma RepositoryFormatSuits()
    ensures Suits(REPOSITORY_FORMAT)
  {
    SentenceLacksPattern();
    ReadmePatternIsProper();
    DaemonPatternIsProper();
  }

  // ------------------------------------------------------- the one version

  /** `_single`; None is VersionError. */
  function Single(p: Pattern, s: string): Option<string> {
    var ms := FindAll(p, s, 0);
    if |ms| == 1 then
      assert ms[0] in ms;
      Some(s[ms[0].from..ms[0].to])
    else None
  }

  /** `pattern.sub(…, count=1)` on a text with one match. */
  function SyncPattern(p: Pattern, s: string, v: string): Option<string> {
    var ms := FindAll(p, s, 0);
    if |ms| == 1 then
      assert ms[0] in ms;
      Some(Rewrite(p, s, ms[0], v))
    else None
  }

  lemma SyncPatternWrites(p: Pattern, s: string, v: string)
    requires Proper(p) && VersionLike(v) && SyncPattern(p, s, v).Some?
    ensures Single(p, SyncPattern(p, s, v).value) == Some(v)
  {
    RewriteKeepsOneMatch(p, s, FindAll(p, s, 0)[0], v);
  }

  /** The text outside of the match is kept; what is replaced is the old version. */
  lemma SyncPatternKeepsRest(p: Pattern, s: string, v: string) returns (a: string, before: string, b: string)
    requires Proper(p) && SyncPattern(p, s, v).Some?
    ensures s == a + before + b && SyncPattern(p, s, v) == Some(a + v + b) && Single(p, s) == Some(before)
    ensures a != "" && a[|a| - 1] == p.stop
  {
    var m := FindAll(p, s, 0)[0];
    FindOne(p, s, 0, m);
    MatchAtIsMatch(p, s, m);
    RewriteCapture(p, s, m, v);
    a, before, b := s[..m.from], s[m.from..m.to], s[m.to..];
    assert s[m.from - 1] == s[m.start..m.from][|p.prefix| - 1];
  }

  lemma SyncPatternTwice(p: Pattern, s: string, v: string, w: string)
    requires Proper(p) && VersionLike(v) && VersionLike(w) && SyncPattern(p, s, v).Some?
    ensures SyncPattern(p, SyncPattern(p, s, v).value, w) == SyncPattern(p, s, w)
  {
    var m := FindAll(p, s, 0)[0];
    FindOne(p, s, 0, m);
    MatchAtIsMatch(p, s, m);
    RewriteKeepsOneMatch(p, s, m, v);
    RewrittenMatches(p, s, m, v);
    RewriteCapture(p, s, m, v);
    RewriteCapture(p, s, m, w);
    var s', m' := Rewrite(p, s, m, v), Moved(m, v);
    RewriteCapture(p, s', m', w);
    assert s'[..m'.from] == s[..m.from] && s'[m'.to..] == s[m.to..];
  }

  // ---------------------------------------------------- the bootstrap sentence

  /** `s.count(u)`, from a position on. */
  function Count(s: string, u: string, from: nat): nat
    requires u != ""
    decreases |s| - from
  {
    if from + |u| > |s| then 0
    else if At(s, from, u) then 1 + Count(s, u, from + |u|)
    else Count(s, u, from + 1)
  }

  lemma {:induction false} CountNone(s: string, u: string, from: nat)
    requires u != ""
    ensures Count(s, u, from) == 0 <==> forall q :: q >= from ==> !At(s, q, u)
    decreases |s| - from
  {
    if from + |u| <= |s| && !At(s, from, u) {
      CountNone(s, u, from + 1);
    }
  }

  /** Where `s.replace(u, …, 1)` strikes. */
  function First(s: string, u: string, from: nat): (i: nat)
    requires u != "" && Count(s, u, from) > 0
    ensures from <= i && At(s, i, u) && forall q :: from <= q < i ==> !At(s, q, u)
    decreases |s| - from
  {
    if At(s, from, u) then from else First(s, u, from + 1)
  }

  lemma {:induction false} CountOne(s: string, u: string, from: nat)
    requires u != "" && Count(s, u, from) == 1
    ensures var i := First(s, u, from); forall q :: q >= i + |u| ==> !At(s, q, u)
    decreases |s| - from
  {
    if At(s, from, u) {
      CountNone(s, u, from + |u|);
    } else {
      CountOne(s, u, from + 1);
    }
  }

  function Line(p: Pattern, v: string): string {
    p.prefix + v + p.suffix
  }

  /** The match that the release line makes, if it stands alone on its line. */
  function LineMatch(p: Pattern, i: nat, v: string): Match {
    Match(i, i + |p.prefix|, i + |p.prefix| + |v|, i + |Line(p, v)|)
  }

  lemma LineMatches(p: Pattern, x: string, y: string, v: string)
    requires Proper(p) && VersionLike(v)
    ensures IsMatch(p, x + Line(p, v) + y, LineMatch(p, |x|, v)) <==>
              LineStart(x + Line(p, v) + y, |x|) && LineEnd(x + Line(p, v) + y, |x| + |Line(p, v)|)
  {
    var s, m := x + Line(p, v) + y, LineMatch(p, |x|, v);
    assert s[m.start..m.from] == p.prefix && s[m.to..m.end] == p.suffix;
    assert forall k :: m.from <= k < m.to ==> s[k] == v[k - m.from] && v[k - m.from] in v;
  }

  lemma MatchAtLine(p: Pattern, x: string, y: string, v: string, n: Match)
    requires Proper(p) && VersionLike(v) && n.start == |x|
    requires IsMatch(p, x + Line(p, v) + y, n)
    ensures n == LineMatch(p, |x|, v)
  {
    var s, m := x + Line(p, v) + y, LineMatch(p, |x|, v);
    assert forall k :: m.from <= k < m.to ==> s[k] == v[k - m.from] && v[k - m.from] in v;
    assert s[m.to] == p.suffix[0];
    assert s[n.to] == s[n.to..n.end][0];
  }

  lemma MatchBeforeLine(p: Pattern, x: string, u: string, y: string, v: string, n: Match)
    requires Proper(p) && VersionLike(v) && NoMatch(p, x + u + y, 0, |x + u + y| + 1)
    requires IsMatch(p, x + Line(p, v) + y, n)
    ensures n.start >= |x|
  {
    var s, from := x + Line(p, v) + y, |x| + |p.prefix|;
    assert forall k :: |x| <= k < from ==> s[k] == p.prefix[k - |x|] && s[k] in p.prefix;
    assert s[from] == v[0];
    if n.start < |x| {
      assert s[from - 1] == p.stop;
      SuffixEndsBeforeDigit(p, s, from, n);
      SameHead(p, x + u + y, s, |x|, n);
      MatchAtIsMatch(p, x + u + y, n);
    }
  }

  lemma NoNewline(p: Pattern, v: string)
    requires Proper(p) && VersionLike(v)
    ensures forall k :: 0 <= k < |Line(p, v)| ==> Line(p, v)[k] != '\n'
  {
    var line := Line(p, v);
    forall k | 0 <= k < |line| ensures line[k] != '\n' {
      assert line[k] in p.prefix || line[k] in v || line[k] in p.suffix;
    }
  }

  lemma MatchBehindLine(p: Pattern, x: string, u: string, y: string, v: string, n: Match)
    requires Proper(p) && VersionLike(v) && u != "" && NoMatch(p, x + u + y, 0, |x + u + y| + 1)
    requires IsMatch(p, x + Line(p, v) + y, n)
    ensures n.start <= |x|
  {
    var s, line := x + Line(p, v) + y, Line(p, v);
    if n.start > |x| {
      assert n.start > |x| + |line| by {
        assert forall k :: |x| <= k < |x| + |line| ==> s[k] == line[k - |x|];
        NoNewline(p, v);
      }
      var a, b, tail := x + u + y[..1], x + line + y[..1], y[1..];
      assert x + u + y == a + tail && s == b + tail;
      SameTail(p, a, b, tail, n);
      MatchAtIsMatch(p, x + u + y, Shift(n, |a| - |b|));
    }
  }

  /** In a text without a match, a release line put in for something else can
      make no match but itself. */
  lemma LineMakesNothingElse(p: Pattern, x: string, u: string, y: string, v: string, n: Match)
    requires Proper(p) && VersionLike(v) && u != "" && FindAll(p, x + u + y, 0) == []
    requires IsMatch(p, x + Line(p, v) + y, n)
    ensures n == LineMatch(p, |x|, v)
  {
    FindNone(p, x + u + y, 0);
    if n.start < |x| {
      MatchBeforeLine(p, x, u, y, v, n);
      assert false;
    } else if n.start == |x| {
      MatchAtLine(p, x, y, v, n);
    } else {
      MatchBehindLine(p, x, u, y, v, n);
      assert false;
    }
  }

  // ----------------------------------------------------------------- README

  /** What `sync_version` makes of the README; None is VersionError. */
  function SyncReadme(f: Format, s: string, v: string): Option<string>
    requires f.sentence != ""
  {
    var ms := FindAll(f.readme, s, 0);
    var count := Count(s, f.sentence, 0);
    if |ms| == 1 && count == 0 then SyncPattern(f.readme, s, v)
    else if ms == [] && count == 1 then
      var i := First(s, f.sentence, 0);
      Some(s[..i] + Line(f.readme, v) + s[i + |f.sentence|..])
    else None
  }

  /** A README that `sync_version` accepts and that will be found in order
      afterwards: one with a current-version line, or with the bootstrap sentence
      alone on its own line. */
  ghost predicate Orderly(f: Format, s: string) {
    f.sentence != "" &&
    (FindAll(f.readme, s, 0) != [] ||
     (Count(s, f.sentence, 0) > 0 &&
      var i := First(s, f.sentence, 0); LineStart(s, i) && LineEnd(s, i + |f.sentence|)))
  }

  lemma SameBorders(s: string, s': string, x: string, y: string, n: nat, n': nat)
    requires n > 0 && n' > 0 && |s| == |x| + n + |y| && |s'| == |x| + n' + |y|
    requires s[..|x|] == s'[..|x|] == x && s[|x| + n..] == s'[|x| + n'..] == y
    ensures LineStart(s, |x|) <==> LineStart(s', |x|)
    ensures LineEnd(s, |x| + n) <==> LineEnd(s', |x| + n')
  {
    if x != "" { assert s[|x| - 1] == x[|x| - 1] == s'[|x| - 1]; }
    if y != "" { assert s[|x| + n] == y[0] == s'[|x| + n']; }
  }

  lemma LineIsOnlyMatch(p: Pattern, x: string, u: string, y: string, v: string)
    requires Proper(p) && VersionLike(v) && u != "" && FindAll(p, x + u + y, 0) == []
    ensures var s' := x + Line(p, v) + y;
            && (forall k: nat :: k != |x| ==> MatchAt(p, s', k).None?)
            && MatchAt(p, s', |x|) ==
                 if LineStart(x + u + y, |x|) && LineEnd(x + u + y, |x| + |u|) then Some(LineMatch(p, |x|, v)) else None
  {
    var s', m := x + Line(p, v) + y, LineMatch(p, |x|, v);
    forall k: nat | MatchAt(p, s', k).Some? ensures MatchAt(p, s', k) == Some(m) {
      MatchAtIsMatch(p, s', MatchAt(p, s', k).value);
      LineMakesNothingElse(p, x, u, y, v, MatchAt(p, s', k).value);
    }
    LineMatches(p, x, y, v);
    SameBorders(x + u + y, s', x, y, |u|, |Line(p, v)|);
    MatchAtIsMatch(p, s', m);
  }

  /** Replacing the bootstrap sentence makes exactly one match if it stood alone
      on its line, and none otherwise. */
  lemma BootstrapFindsLine(p: Pattern, x: string, u: string, y: string, v: string)
    requires Proper(p) && VersionLike(v) && u != "" && FindAll(p, x + u + y, 0) == []
    ensures FindAll(p, x + Line(p, v) + y, 0) ==
              if LineStart(x + u + y, |x|) && LineEnd(x + u + y, |x| + |u|) then [LineMatch(p, |x|, v)] else []
  {
    var s' := x + Line(p, v) + y;
    LineIsOnlyMatch(p, x, u, y, v);
    if LineStart(x + u + y, |x|) && LineEnd(x + u + y, |x| + |u|) {
      FindOne(p, s', 0, LineMatch(p, |x|, v));
    } else {
      FindNone(p, s', 0);
    }
  }

  lemma LineCapture(p: Pattern, x: string, y: string, v: string)
    ensures var s, m := x + Line(p, v) + y, LineMatch(p, |x|, v);
            m.from <= m.to <= |s| && s[m.from..m.to] == v
  {
  }

  lemma BootstrapWrites(f: Format, s: string, v: string)
    requires Suits(f) && VersionLike(v) && SyncReadme(f, s, v).Some? && FindAll(f.readme, s, 0) == []
    ensures Single(f.readme, SyncReadme(f, s, v).value) == if Orderly(f, s) then Some(v) else None
  {
    var i, s' := First(s, f.sentence, 0), SyncReadme(f, s, v).value;
    var a, b := s[..i], s[i + |f.sentence|..];
    assert s == a + f.sentence + b;
    BootstrapFindsLine(f.readme, a, f.sentence, b, v);
    LineCapture(f.readme, a, b, v);
    assert s' == a + Line(f.readme, v) + b;
  }

  /** After a sync the README holds exactly the new version if it was orderly
      before, and no version at all otherwise. */
  lemma SyncReadmeWrites(f: Format, s: string, v: string)
    requires Suits(f) && VersionLike(v) && SyncReadme(f, s, v).Some?
    ensures Single(f.readme, SyncReadme(f, s, v).value) == if Orderly(f, s) then Some(v) else None
  {
    if FindAll(f.readme, s, 0) != [] {
      SyncPatternWrites(f.readme, s, v);
    } else {
      BootstrapWrites(f, s, v);
    }
  }

  lemma AtHead(a: string, b: string, u: string, q: nat)
    requires q + |u| <= |a|
    ensures At(a + b, q, u) <==> At(a, q, u)
  {
    assert (a + b)[q..q + |u|] == a[q..q + |u|];
  }

  lemma AtTail(a: string, b: string, u: string, q: nat)
    requires q >= |a|
    ensures At(a + b, q, u) <==> At(b, q - |a|, u)
  {
    if q + |u| <= |a + b| {
      assert (a + b)[q..q + |u|] == b[q - |a|..q - |a| + |u|];
    }
  }

  lemma AtHolds(s: string, u: string, q: nat, k: nat)
    requires At(s, q, u) && q <= k < q + |u|
    ensures s[k] in u && (k == q ==> s[k] == u[0])
  {
    assert s[k] == s[q..q + |u|][k - q];
  }

  lemma AtEnds(s: string, u: string, q: nat)
    requires At(s, q, u) && u != ""
    ensures q + |u| <= |s| && s[q + |u| - 1] == u[|u| - 1]
  {
    assert s[q + |u| - 1] == s[q..q + |u|][|u| - 1];
  }

  /** An occurrence in a text whose middle part was exchanged was there before,
      or touches the new middle. */
  lemma OldOrTouching(a: string, o: string, n: string, b: string, u: string, q: nat)
    requires At(a + n + b, q, u)
    ensures q + |u| <= |a| ==> At(a + o + b, q, u)
    ensures q >= |a| + |n| ==> At(a + o + b, q - |n| + |o|, u)
  {
    if q + |u| <= |a| {
      AtHead(a, n + b, u, q);
      AtHead(a, o + b, u, q);
      assert a + n + b == a + (n + b) && a + o + b == a + (o + b);
    }
    if q >= |a| + |n| {
      AtTail(a + n, b, u, q);
      AtTail(a + o, b, u, q - |n| + |o|);
    }
  }

  lemma RewriteMakesNoSentenceAt(f: Format, a: string, o: string, b: string, v: string, q: nat)
    requires Suits(f) && VersionLike(v) && a != "" && a[|a| - 1] == f.readme.stop
    requires forall q: nat :: !At(a + o + b, q, f.sentence)
    ensures !At(a + v + b, q, f.sentence)
  {
    var u, s' := f.sentence, a + v + b;
    assert forall k :: |a| <= k < |a| + |v| ==> s'[k] == v[k - |a|] && v[k - |a|] in v;
    if At(s', q, u) {
      OldOrTouching(a, o, v, b, u, q);
      AtHolds(s', u, q, q);
      if q < |a| < q + |u| { AtHolds(s', u, q, |a| - 1); }
    }
  }

  /** No bootstrap sentence can appear around a version written into a capture. */
  lemma RewriteMakesNoSentence(f: Format, a: string, o: string, b: string, v: string)
    requires Suits(f) && VersionLike(v) && a != "" && a[|a| - 1] == f.readme.stop
    requires Count(a + o + b, f.sentence, 0) == 0
    ensures Count(a + v + b, f.sentence, 0) == 0
  {
    var u, s' := f.sentence, a + v + b;
    CountNone(a + o + b, u, 0);
    CountNone(s', u, 0);
    forall q: nat ensures !At(s', q, u) {
      RewriteMakesNoSentenceAt(f, a, o, b, v, q);
    }
  }

  lemma SentenceStartsOutside(f: Format, v: string)
    requires Suits(f) && VersionLike(v)
    ensures forall k :: 0 <= k < |Line(f.readme, v)| ==> Line(f.readme, v)[k] != f.sentence[0]
  {
    var line := Line(f.readme, v);
    forall k | 0 <= k < |line| ensures line[k] != f.sentence[0] {
      assert line[k] in f.readme.prefix || line[k] in v || line[k] in f.readme.suffix;
    }
  }

  lemma LineMakesNoSentence(f: Format, x: string, y: string, v: string)
    requires Suits(f) && VersionLike(v)
    requires var s := x + f.sentence + y;
             Count(s, f.sentence, 0) == 1 && First(s, f.sentence, 0) == |x|
    ensures Count(x + Line(f.readme, v) + y, f.sentence, 0) == 0
  {
    var u, line := f.sentence, Line(f.readme, v);
    var s' := x + line + y;
    CountOne(x + u + y, u, 0);
    CountNone(s', u, 0);
    SentenceStartsOutside(f, v);
    assert forall k :: |x| <= k < |x| + |line| ==> s'[k] == line[k - |x|];
    forall q: nat ensures !At(s', q, u) {
      if At(s', q, u) {
        OldOrTouching(x, u, line, y, u, q);
        AtHolds(s', u, q, q);
        if q <= |x| < q + |u| { AtHolds(s', u, q, |x|); }
      }
    }
  }

  lemma RewriteLine(p: Pattern, x: string, y: string, v: string, w: string)
    ensures Rewrite(p, x + Line(p, v) + y, LineMatch(p, |x|, v), w) == x + Line(p, w) + y
  {
    var s, m := x + Line(p, v) + y, LineMatch(p, |x|, v);
    assert s[..m.start] == x && s[m.end..] == y;
  }

  /** A second sync does what it would have done alone, if the README was orderly
      to begin with; otherwise it fails, because the first one left a release
      line that is not one. */
  lemma SyncReadmeTwice(f: Format, s: string, v: string, w: string)
    requires Suits(f) && VersionLike(v) && VersionLike(w) && SyncReadme(f, s, v).Some?
    ensures SyncReadme(f, SyncReadme(f, s, v).value, w) == if Orderly(f, s) then SyncReadme(f, s, w) else None
  {
    var p, s' := f.readme, SyncReadme(f, s, v).value;
    if FindAll(p, s, 0) != [] {
      var a, before, b := SyncPatternKeepsRest(p, s, v);
      RewriteMakesNoSentence(f, a, before, b, v);
      SyncPatternWrites(p, s, v);
      SyncPatternTwice(p, s, v, w);
    } else {
      var i := First(s, f.sentence, 0);
      var x, y := s[..i], s[i + |f.sentence|..];
      assert s == x + f.sentence + y;
      BootstrapFindsLine(p, x, f.sentence, y, v);
      LineMakesNoSentence(f, x, y, v);
      if Orderly(f, s) {
        RewriteLine(p, x, y, v, w);
      }
    }
  }

  // -------------------------------------------------------------- the files

  /** The four files; None where one cannot be read.  The manifest is the JSON
      object it holds. */
  datatype Tree = Tree(
    version: Option<string>, manifest: Option<map<string, Json>>, readme: Option<string>, daemon: Option<string>)

  datatype VersionError = Invalid | NoManifestVersion | Unreadable | BadReadme | BadDaemon | Mismatch

  predicate HasVersion(manifest: Option<map<string, Json>>) {
    manifest.Some? && "version" in manifest.value && manifest.value["version"].JString?
  }

  /** What `sync_version` leaves behind, or the error it raises. */
  function Sync(f: Format, t: Tree, v: string): Result<Tree, VersionError>
    requires f.sentence != ""
  {
    if ParseVersion(v).None? then Err(Invalid)
    else if !HasVersion(t.manifest) then Err(NoManifestVersion)
    else if t.readme.None? || t.daemon.None? then Err(Unreadable)
    else
      var readme := SyncReadme(f, t.readme.value, v);
      var daemon := SyncPattern(f.daemon, t.daemon.value, v);
      if readme.None? then Err(BadReadme)
      else if daemon.None? then Err(BadDaemon)
      else Ok(Tree(Some(v + "\n"), Some(t.manifest.value["version" := JString(v)]), readme, daemon))
  }

  /** `check_versions` */
  function Check(f: Format, t: Tree): Result<string, VersionError> {
    if t.version.None? then Err(Unreadable) else
    var version := Strip(t.version.value);
    if ParseVersion(version).None? then Err(Invalid)
    else if !HasVersion(t.manifest) then Err(NoManifestVersion)
    else if t.readme.None? then Err(Unreadable)
    else if Single(f.readme, t.readme.value).None? then Err(BadReadme)
    else if t.daemon.None? then Err(Unreadable)
    else if Single(f.daemon, t.daemon.value).None? then Err(BadDaemon)
    else if t.manifest.value["version"] != JString(version) || Single(f.readme, t.readme.value) != Some(version) ||
            Single(f.daemon, t.daemon.value) != Some(version)
      then Err(Mismatch)
    else Ok(version)
  }

  lemma StripLine(v: string)
    requires ParseVersion(v).Some?
    ensures Strip(v + "\n") == v
  {
    VersionsAreVersionLike(v);
    assert v[|v| - 1] in v && v[0] in v;
    assert !IsSpace(v[0]) && !IsSpace(v[|v| - 1]);
    var line := v + "\n";
    assert line[0] == v[0] && line[|line| - 1] == '\n' && line[..|line| - 1] == v;
    assert StripRight(line, IsSpace) == StripRight(v, IsSpace) == v;
  }

  /** After a sync that succeeded the check succeeds with the new version exactly
      if the README was orderly before, and reports the README otherwise. */
  lemma SyncThenCheck(f: Format, t: Tree, v: string)
    requires Suits(f) && Sync(f, t, v).Ok?
    ensures Check(f, Sync(f, t, v).value) == if Orderly(f, t.readme.value) then Ok(v) else Err(BadReadme)
  {
    VersionsAreVersionLike(v);
    StripLine(v);
    var t' := Sync(f, t, v).value;
    assert t'.version == Some(v + "\n") && HasVersion(t'.manifest) && t'.manifest.value["version"] == JString(v);
    assert t'.readme == SyncReadme(f, t.readme.value, v) && t'.daemon == SyncPattern(f.daemon, t.daemon.value, v);
    SyncReadmeWrites(f, t.readme.value, v);
    SyncPatternWrites(f.daemon, t.daemon.value, v);
  }

  /** A sentence with another character before it on its line. */
  lemma SentenceBehindCharacter(f: Format, c: char)
    requires Suits(f) && c != '\n' && c != f.sentence[0] && c != f.readme.stop
    ensures var s := [c] + f.sentence;
            && FindAll(f.readme, s, 0) == [] && Count(s, f.sentence, 0) == 1 && !Orderly(f, s)
  {
    var u, s := f.sentence, [c] + f.sentence;
    assert s[1..1 + |u|] == u && s[0] == c;
    assert forall k :: 1 <= k < |s| ==> s[k] == u[k - 1] && u[k - 1] in u;
    forall i: nat ensures !At(s, i, f.readme.prefix) {
      if At(s, i, f.readme.prefix) {
        AtEnds(s, f.readme.prefix, i);
      }
    }
    assert NoMatch(f.readme, s, 0, |s| + 1);
    FindNone(f.readme, s, 0);
    assert !At(s, 0, u) by {
      if At(s, 0, u) { AtHolds(s, u, 0, 0); }
    }
    assert At(s, 1, u) && Count(s, u, 1 + |u|) == 0;
    assert First(s, u, 0) == First(s, u, 1) == 1;
  }

  lemma LineAloneIsOneVersion(p: Pattern, v: string)
    requires Proper(p) && ParseVersion(v).Some?
    ensures Single(p, Line(p, v)) == Some(v)
  {
    VersionsAreVersionLike(v);
    var other := ['\n'];
    assert NoMatch(p, "" + other + "", 0, |"" + other + ""| + 1);
    FindNone(p, "" + other + "", 0);
    BootstrapFindsLine(p, "", other, "", v);
    assert "" + Line(p, v) + "" == Line(p, v);
  }

  /** For instance: syncing this tree succeeds, and the check then turns the
      README down. */
  lemma SentenceNotAloneFailsCheck(t: Triple)
    ensures var readme, daemon := "x" + README_UNRELEASED, Line(DAEMON_PATTERN, Print(Triple(0, 1, 0)));
            var tree := Tree(None, Some(map["version" := JString("0.1.0")]), Some(readme), Some(daemon));
            var synced := Sync(REPOSITORY_FORMAT, tree, Print(t));
            && synced.Ok? && Check(REPOSITORY_FORMAT, synced.value) == Err(BadReadme)
  {
    var f, before, v := REPOSITORY_FORMAT, Print(Triple(0, 1, 0)), Print(t);
    RepositoryFormatSuits();
    SentenceLacksPattern();
    SentenceBehindCharacter(f, 'x');
    PrintParses(t);
    PrintParses(Triple(0, 1, 0));
    LineAloneIsOneVersion(f.daemon, before);
    var manifest := Some(map["version" := JString("0.1.0")]);
    var tree := Tree(None, manifest, Some("x" + f.sentence), Some(Line(f.daemon, before)));
    assert HasVersion(tree.manifest);
    SyncThenCheck(f, tree, v);
  }

  lemma ManifestTwice(m: map<string, Json>, v: string, w: string)
    ensures m["version" := JString(v)]["version" := JString(w)] == m["version" := JString(w)]
  {
  }

  /** Syncing v and then w is the same as syncing w. */
  lemma SyncTwice(f: Format, t: Tree, v: string, w: string)
    requires Suits(f) && Sync(f, t, v).Ok? && ParseVersion(w).Some?
    ensures Sync(f, t, w).Ok?
    ensures Sync(f, Sync(f, t, v).value, w) ==
              if Orderly(f, t.readme.value) then Sync(f, t, w) else Err(BadReadme)
  {
    VersionsAreVersionLike(v);
    VersionsAreVersionLike(w);
    var s, d := t.readme.value, t.daemon.value;
    assert SyncReadme(f, s, w).Some? && SyncPattern(f.daemon, d, w).Some?;
    SyncReadmeTwice(f, s, v, w);
    SyncPatternTwice(f.daemon, d, v, w);
    ManifestTwice(t.manifest.value, v, w);
    var t' := Sync(f, t, v).value;
    assert HasVersion(t'.manifest) && t'.readme == SyncReadme(f, s, v) && t'.daemon == SyncPattern(f.daemon, d, v);
  }

  /** What lies outside of the version is kept: in both texts a sync exchanges one
      piece only, the captured version or the bootstrap sentence, and in the
      manifest one key. */
  lemma SyncKeepsTheRest(f: Format, t: Tree, v: string)
    returns (a: string, readme: string, b: string, c: string, daemon: string, d: string)
    requires Suits(f) && Sync(f, t, v).Ok?
    ensures var t' := Sync(f, t, v).value;
            && t.readme == Some(a + readme + b) && t.daemon == Some(c + daemon + d)
            && Single(f.daemon, t.daemon.value) == Some(daemon) && t'.daemon == Some(c + v + d)
            && (if FindAll(f.readme, t.readme.value, 0) != []
                then Single(f.readme, t.readme.value) == Some(readme) && t'.readme == Some(a + v + b)
                else readme == f.sentence && t'.readme == Some(a + Line(f.readme, v) + b))
            && t'.version == Some(v + "\n") && t'.manifest.value["version"] == JString(v)
            && t'.manifest.value.Keys == t.manifest.value.Keys
            && forall key :: key in t.manifest.value && key != "version" ==>
                 t'.manifest.value[key] == t.manifest.value[key]
  {
    c, daemon, d := SyncPatternKeepsRest(f.daemon, t.daemon.value, v);
    var s := t.readme.value;
    if FindAll(f.readme, s, 0) != [] {
      a, readme, b := SyncPatternKeepsRest(f.readme, s, v);
    } else {
      var i := First(s, f.sentence, 0);
      a, readme, b := s[..i], f.sentence, s[i + |f.sentence|..];
      assert s == a + readme + b;
    }
  }

  /** The checkout that scripts/version.py works on. */
  class Repository {
    const format: Format
    var version: Option<string>
    var manifest: Option<map<string, Json>>
    var readme: Option<string>
    var daemon: Option<string>

    function Files(): Tree
      reads this
    {
      Tree(version, manifest, readme, daemon)
    }

    constructor (format: Format, files: Tree)
      ensures this.format == format && Files() == files
    {
      this.format := format;
      version, manifest, readme, daemon := files.version, files.manifest, files.readme, files.daemon;
    }

    /** `sync_version`: everything is read and computed before anything is written,
        so an error leaves every file as it was, and success leaves a checkout
        whose check tells the new version if its README was orderly. */
    method SyncVersion(v: string) returns (error: Option<VersionError>)
      requires Suits(format)
      modifies this
      ensures error.Some? ==> Files() == old(Files()) && Sync(format, old(Files()), v) == Err(error.value)
      ensures error.None? ==> Sync(format, old(Files()), v) == Ok(Files())
      ensures error.None? && old(readme.Some?) && Orderly(format, old(readme).value) ==> Check(format, Files()) == Ok(v)
    {
      if ParseVersion(v).None? {
        return Some(Invalid);
      }
      if !HasVersion(manifest) {
        return Some(NoManifestVersion);
      }
      var entries := manifest.value;
      if readme.None? || daemon.None? {
        return Some(Unreadable);
      }
      var releaseLine := Line(format.readme, v);
      var matches := FindAll(format.readme, readme.value, 0);
      var unreleased := Count(readme.value, format.sentence, 0);
      var updatedReadme;
      if |matches| == 1 && unreleased == 0 {
        updatedReadme := SyncPattern(format.readme, readme.value, v).value;
      } else if matches == [] && unreleased == 1 {
        var i := First(readme.value, format.sentence, 0);
        updatedReadme := readme.value[..i] + releaseLine + readme.value[i + |format.sentence|..];
      } else {
        return Some(BadReadme);
      }
      var updatedDaemon := SyncPattern(format.daemon, daemon.value, v);
      if updatedDaemon.None? {
        return Some(BadDaemon);
      }
      ghost var before := Files();
      entries := entries["version" := JString(v)];
      version := Some(v + "\n");
      manifest := Some(entries);
      readme := Some(updatedReadme);
      daemon := updatedDaemon;
      SyncThenCheck(format, before, v);
      return None;
    }
  }
}
