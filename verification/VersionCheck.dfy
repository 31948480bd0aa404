/** When `sync_version` and `check_versions` succeed, said about the files alone
    (scripts/version.py). */
module VersionCheck {
  import opened Prelude
  import opened Text
  import opened HexCodec
  import opened VersionPattern
  import opened StableVersion
  import opened VersionSync

  ghost predicate IsVersion(v: string) {
    exists t: Triple :: v == Print(t)
  }

  lemma ParsedIsVersion(v: string)
    ensures ParseVersion(v).Some? <==> IsVersion(v)
  {
    if ParseVersion(v).Some? {
      ParseIsInverseOfPrint(v, ParseVersion(v).value);
    }
    if t: Triple :| v == Print(t) {
      ParseIsInverseOfPrint(v, t);
    }
  }

  // --------------------------------------------------------------- matches

  /** A match with none before it and none behind it. */
  ghost predicate SoleMatch(p: Pattern, s: string, m: Match) {
    IsMatch(p, s, m) && forall n :: IsMatch(p, s, n) ==> m.start <= n.start < m.end
  }

  lemma SoleMatchIsFound(p: Pattern, s: string, m: Match)
    requires Proper(p)
    ensures FindAll(p, s, 0) == [m] <==> SoleMatch(p, s, m)
  {
    FindOne(p, s, 0, m);
    MatchAtIsMatch(p, s, m);
    forall n: Match ensures MatchAt(p, s, n.start) == Some(n) <==> IsMatch(p, s, n) {
      MatchAtIsMatch(p, s, n);
    }
    assert forall i: nat :: MatchAt(p, s, i).Some? ==> IsMatch(p, s, MatchAt(p, s, i).value);
    if FindAll(p, s, 0) == [m] {
      forall n | IsMatch(p, s, n) ensures m.start <= n.start < m.end {
        assert MatchAt(p, s, n.start).Some? && n.start <= |s|;
      }
    }
  }

  /** The text has exactly one match, and it captures v. */
  ghost predicate HasOne(p: Pattern, s: string, v: string) {
    exists m :: IsMatch(p, s, m) && s[m.from..m.to] == v && forall n :: IsMatch(p, s, n) ==> n == m
  }

  lemma MatchIsOnOneLine(p: Pattern, s: string, m: Match)
    requires Proper(p) && IsMatch(p, s, m) && VersionLike(s[m.from..m.to])
    ensures forall k :: m.start <= k < m.end ==> s[k] != '\n'
  {
    forall k | m.start <= k < m.end ensures s[k] != '\n' {
      if k < m.from {
        assert s[k] == s[m.start..m.from][k - m.start] && s[k] in p.prefix;
      } else if k < m.to {
        assert s[k] == s[m.from..m.to][k - m.from] && s[k] in s[m.from..m.to];
      } else {
        assert s[k] == s[m.to..m.end][k - m.to] && s[k] in p.suffix;
      }
    }
  }

  /** A match that captures a version lies on one line, so no other can begin in it. */
  lemma NoneInside(p: Pattern, s: string, m: Match, n: Match)
    requires Proper(p) && IsMatch(p, s, m) && VersionLike(s[m.from..m.to])
    requires IsMatch(p, s, n) && m.start <= n.start < m.end
    ensures n == m
  {
    if n.start == m.start {
      MatchAtIsMatch(p, s, m);
      MatchAtIsMatch(p, s, n);
    } else {
      MatchIsOnOneLine(p, s, m);
    }
  }

  lemma SingleHasOne(p: Pattern, s: string, v: string)
    requires Proper(p) && VersionLike(v) && Single(p, s) == Some(v)
    ensures HasOne(p, s, v)
  {
    var m := FindAll(p, s, 0)[0];
    SoleMatchIsFound(p, s, m);
    forall n | IsMatch(p, s, n) ensures n == m {
      NoneInside(p, s, m, n);
    }
  }

  lemma SingleIsHasOne(p: Pattern, s: string, v: string)
    requires Proper(p) && VersionLike(v)
    ensures Single(p, s) == Some(v) <==> HasOne(p, s, v)
  {
    if Single(p, s) == Some(v) { SingleHasOne(p, s, v); }
    if m :| IsMatch(p, s, m) && s[m.from..m.to] == v && forall n :: IsMatch(p, s, n) ==> n == m {
      SoleMatchIsFound(p, s, m);
    }
  }

  // ----------------------------------------------------------------- check

  lemma CheckBySingle(f: Format, t: Tree, v: string)
    ensures Check(f, t) == Ok(v) <==>
              && ParseVersion(v).Some?
              && t.version.Some? && Strip(t.version.value) == v
              && t.manifest.Some? && "version" in t.manifest.value && t.manifest.value["version"] == JString(v)
              && t.readme.Some? && Single(f.readme, t.readme.value) == Some(v)
              && t.daemon.Some? && Single(f.daemon, t.daemon.value) == Some(v)
  {
  }

  /** `check_versions` returns v exactly if v is a version X.Y.Z and all four files
      say v: VERSION up to blanks around it, the manifest's version field, and
      README and daemon with exactly one match each. */
  lemma CheckExactly(f: Format, t: Tree, v: string)
    requires Proper(f.readme) && Proper(f.daemon)
    ensures Check(f, t) == Ok(v) <==>
              && IsVersion(v)
              && t.version.Some? && Strip(t.version.value) == v
              && t.manifest.Some? && "version" in t.manifest.value && t.manifest.value["version"] == JString(v)
              && t.readme.Some? && HasOne(f.readme, t.readme.value, v)
              && t.daemon.Some? && HasOne(f.daemon, t.daemon.value, v)
  {
    CheckBySingle(f, t, v);
    ParsedIsVersion(v);
    if IsVersion(v) {
      VersionsAreVersionLike(v);
      if t.readme.Some? { SingleIsHasOne(f.readme, t.readme.value, v); }
      if t.daemon.Some? { SingleIsHasOne(f.daemon, t.daemon.value, v); }
    }
  }

  /** One of the four files says w: VERSION, the manifest, the README or the daemon. */
  ghost predicate OneFileSays(f: Format, t: Tree, t': Tree, w: string) {
    || (t' == t.(version := t'.version) && t'.version.Some? && Strip(t'.version.value) == w)
    || (t' == t.(manifest := t'.manifest) && t'.manifest.Some? && "version" in t'.manifest.value &&
        t'.manifest.value["version"] == JString(w))
    || (t' == t.(readme := t'.readme) && t'.readme.Some? && HasOne(f.readme, t'.readme.value, w))
    || (t' == t.(daemon := t'.daemon) && t'.daemon.Some? && HasOne(f.daemon, t'.daemon.value, w))
  }

  /** So a checkout is found out as soon as one of its four files is out of step. */
  lemma OutOfStepFails(f: Format, t: Tree, t': Tree, v: string, w: string)
    requires Proper(f.readme) && Proper(f.daemon) && Check(f, t) == Ok(v)
    requires v != w && OneFileSays(f, t, t', w)
    ensures Check(f, t').Err?
  {
    CheckExactly(f, t, v);
    if Check(f, t').Ok? {
      CheckExactly(f, t', Check(f, t').value);
    }
  }

  /** In the repository's own format. */
  lemma CheckoutChecks(t: Triple)
    ensures var v := Print(t);
            var tree := Tree(Some(v + "\n"), Some(map["version" := JString(v)]),
                             Some("Current version: **" + v + "**."), Some("VERSION = \"" + v + "\""));
            Check(REPOSITORY_FORMAT, tree) == Ok(v)
  {
    var v := Print(t);
    RepositoryFormatSuits();
    PrintParses(t);
    StripLine(v);
    LineAloneIsOneVersion(README_PATTERN, v);
    LineAloneIsOneVersion(DAEMON_PATTERN, v);
    assert Line(README_PATTERN, v) == "Current version: **" + v + "**.";
    assert Line(DAEMON_PATTERN, v) == "VERSION = \"" + v + "\"";
  }

  // ------------------------------------------------------------------ sync

  ghost predicate OccursOnlyAt(s: string, u: string, i: nat) {
    At(s, i, u) && forall q: nat :: q < i || q >= i + |u| ==> !At(s, q, u)
  }

  /** The text has an occurrence of u, and no other before it or behind it. */
  ghost predicate OccursOnce(s: string, u: string) {
    exists i: nat :: OccursOnlyAt(s, u, i)
  }

  lemma {:induction false} CountOneFrom(s: string, u: string, from: nat, i: nat)
    requires u != "" && from <= i && At(s, i, u)
    requires forall q: nat :: from <= q < i || q >= i + |u| ==> !At(s, q, u)
    ensures Count(s, u, from) == 1
    decreases i - from
  {
    if from == i {
      CountNone(s, u, from + |u|);
    } else {
      CountOneFrom(s, u, from + 1, i);
    }
  }

  lemma CountedOccursOnce(s: string, u: string)
    requires u != "" && Count(s, u, 0) == 1
    ensures OccursOnce(s, u)
  {
    CountOne(s, u, 0);
    var i := First(s, u, 0);
    assert OccursOnlyAt(s, u, i);
  }

  lemma OccursOnceIsCounted(s: string, u: string)
    requires u != "" && OccursOnce(s, u)
    ensures Count(s, u, 0) == 1
  {
    var i: nat :| OccursOnlyAt(s, u, i);
    CountOneFrom(s, u, 0, i);
  }

  lemma CountIsOne(s: string, u: string)
    requires u != ""
    ensures Count(s, u, 0) == 1 <==> OccursOnce(s, u)
  {
    if Count(s, u, 0) == 1 { CountedOccursOnce(s, u); }
    if OccursOnce(s, u) { OccursOnceIsCounted(s, u); }
  }

  /** One release line and no bootstrap sentence, or the other way round. */
  ghost predicate IsSyncable(f: Format, readme: string) {
    || ((exists m :: SoleMatch(f.readme, readme, m)) && forall q: nat :: !At(readme, q, f.sentence))
    || ((forall m :: !IsMatch(f.readme, readme, m)) && OccursOnce(readme, f.sentence))
  }

  lemma FoundOne(p: Pattern, s: string)
    requires Proper(p)
    ensures |FindAll(p, s, 0)| == 1 <==> exists m :: SoleMatch(p, s, m)
  {
    if |FindAll(p, s, 0)| == 1 {
      SoleMatchIsFound(p, s, FindAll(p, s, 0)[0]);
    }
    if m :| SoleMatch(p, s, m) {
      SoleMatchIsFound(p, s, m);
    }
  }

  lemma FoundNone(p: Pattern, s: string)
    requires Proper(p)
    ensures FindAll(p, s, 0) == [] <==> forall m :: !IsMatch(p, s, m)
  {
    FindNone(p, s, 0);
    forall m: Match ensures MatchAt(p, s, m.start) == Some(m) <==> IsMatch(p, s, m) {
      MatchAtIsMatch(p, s, m);
    }
    if FindAll(p, s, 0) == [] {
      assert forall m: Match :: m.start <= |s| ==> MatchAt(p, s, m.start).None?;
    } else {
      var i: nat :| i <= |s| && MatchAt(p, s, i).Some?;
      assert IsMatch(p, s, MatchAt(p, s, i).value);
    }
  }

  lemma SyncReadmeExactly(f: Format, s: string, v: string)
    requires Suits(f)
    ensures SyncReadme(f, s, v).Some? <==> IsSyncable(f, s)
  {
    FoundOne(f.readme, s);
    FoundNone(f.readme, s);
    CountNone(s, f.sentence, 0);
    CountIsOne(s, f.sentence);
    assert (forall q: nat :: !At(s, q, f.sentence)) <==> (forall q :: q >= 0 ==> !At(s, q, f.sentence));
  }

  lemma SentenceAlone(f: Format, v: string)
    requires Suits(f)
    ensures Orderly(f, f.sentence) && SyncReadme(f, f.sentence, v) == Some(Line(f.readme, v))
  {
    var u := f.sentence;
    forall i: nat ensures !At(u, i, f.readme.prefix) {
      if At(u, i, f.readme.prefix) {
        AtEnds(u, f.readme.prefix, i);
      }
    }
    assert NoMatch(f.readme, u, 0, |u| + 1);
    FindNone(f.readme, u, 0);
    assert u[0..|u|] == u && At(u, 0, u) && Count(u, u, |u|) == 0;
    assert u[..0] + Line(f.readme, v) + u[|u|..] == Line(f.readme, v);
  }

  /** `sync_version` succeeds exactly if the version is X.Y.Z, the manifest has a
      version, the README has one release line and no bootstrap sentence or one
      sentence and no release line, and the daemon has one VERSION line. */
  lemma SyncExactly(f: Format, t: Tree, v: string)
    requires Suits(f)
    ensures Sync(f, t, v).Ok? <==>
              && IsVersion(v)
              && t.manifest.Some? && "version" in t.manifest.value && t.manifest.value["version"].JString?
              && t.readme.Some? && t.daemon.Some?
              && (exists m :: SoleMatch(f.daemon, t.daemon.value, m))
              && IsSyncable(f, t.readme.value)
  {
    ParsedIsVersion(v);
    if t.readme.Some? && t.daemon.Some? {
      SyncReadmeExactly(f, t.readme.value, v);
      FoundOne(f.daemon, t.daemon.value);
    }
  }
  /** The first release: a README that holds the bootstrap sentence alone becomes the
      release line, and the checkout then checks. */
  lemma FirstReleaseSyncs(t: Triple)
    ensures var v := Print(t);
            var readme :=
              "This repository is " + "under active develop" + "ment and has no relea" + "sed version yet.";
            var tree := Tree(None, Some(map["version" := JString(v)]), Some(readme), Some("VERSION = \"" + v + "\""));
            var synced := Sync(REPOSITORY_FORMAT, tree, v);
            && synced.Ok? && synced.value.readme == Some("Current version: **" + v + "**.")
            && Check(REPOSITORY_FORMAT, synced.value) == Ok(v)
  {
    var v, f := Print(t), REPOSITORY_FORMAT;
    var tree := Tree(None, Some(map["version" := JString(v)]), Some(README_UNRELEASED), Some(Line(DAEMON_PATTERN, v)));
    RepositoryFormatSuits();
    PrintParses(t);
    LineAloneIsOneVersion(DAEMON_PATTERN, v);
    SentenceAlone(f, v);
    assert HasVersion(tree.manifest);
    SyncThenCheck(f, tree, v);
    assert Line(README_PATTERN, v) == "Current version: **" + v + "**.";
    assert Line(DAEMON_PATTERN, v) == "VERSION = \"" + v + "\"";
  }
}
