/** Stable release versions X.Y.Z (sections 2 and 11 of SemVer 2.0.0), as
    scripts/version.py reads and compares them. */
module StableVersion {
  import opened Prelude
  import opened Text
  import opened PythonInt
  import opened Numerals
  import opened VersionPattern

  datatype Triple = Triple(major: nat, minor: nat, patch: nat)

  /** `parse_version`; None is VersionError. */
  function ParseVersion(s: string): Option<Triple> {
    var parts := Split(s, '.');
    if |parts| == 3 && IsNumeral(parts[0]) && IsNumeral(parts[1]) && IsNumeral(parts[2])
    then Some(Triple(DigitsValue(parts[0], 10), DigitsValue(parts[1], 10), DigitsValue(parts[2], 10)))
    else None
  }

  function Print(t: Triple): string {
    Dec(t.major) + "." + Dec(t.minor) + "." + Dec(t.patch)
  }

  lemma {:induction false} SplitJoins(s: string, sep: char)
    ensures var parts := Split(s, sep);
            if |parts| == 1 then s == parts[0]
            else s == parts[0] + [sep] + s[|parts[0]| + 1..] && |parts[0]| < |s| &&
                 parts[1..] == Split(s[|parts[0]| + 1..], sep)
  {
    if sep in s {
      var i := Find(s, sep);
      assert s == s[..i] + [sep] + s[i + 1..];
    }
  }

  lemma ThreePartsSplit(x: string, y: string, z: string)
    requires '.' !in x && '.' !in y && '.' !in z
    ensures Split(x + "." + y + "." + z, '.') == [x, y, z]
  {
    var rest := y + ['.'] + z;
    assert x + "." + y + "." + z == x + ['.'] + rest;
    SplitOff(x, rest, '.');
    SplitOff(y, z, '.');
    assert Split(z, '.') == [z];
  }

  lemma JoinThree(x: string, y: string, z: string)
    ensures x + "." + (y + "." + z) == x + "." + y + "." + z
  {
  }

  lemma SplitThreeParts(s: string)
    requires |Split(s, '.')| == 3
    ensures var parts := Split(s, '.'); s == parts[0] + "." + parts[1] + "." + parts[2]
  {
    var parts := Split(s, '.');
    SplitJoins(s, '.');
    var rest := s[|parts[0]| + 1..];
    assert Split(rest, '.') == parts[1..];
    SplitJoins(rest, '.');
    var last := rest[|parts[1]| + 1..];
    assert Split(last, '.') == parts[2..];
    SplitJoins(last, '.');
    assert |Split(last, '.')| == 1 && last == parts[2];
    assert rest == parts[1] + "." + parts[2];
    JoinThree(parts[0], parts[1], parts[2]);
  }

  lemma NoDotInDec(n: nat)
    ensures '.' !in Dec(n)
  {
  }

  lemma PrintParses(t: Triple)
    ensures ParseVersion(Print(t)) == Some(t)
  {
    var x, y, z := Dec(t.major), Dec(t.minor), Dec(t.patch);
    NoDotInDec(t.major);
    NoDotInDec(t.minor);
    NoDotInDec(t.patch);
    ThreePartsSplit(x, y, z);
    DecIsNumeral(t.major);
    DecIsNumeral(t.minor);
    DecIsNumeral(t.patch);
  }

  /** Parsing and printing are inverse: the accepted texts are exactly the
      printed triples, each of one triple. */
  lemma ParseIsInverseOfPrint(s: string, t: Triple)
    ensures ParseVersion(s) == Some(t) <==> s == Print(t)
  {
    if s == Print(t) {
      PrintParses(t);
    }
    if ParseVersion(s) == Some(t) {
      var parts := Split(s, '.');
      SplitThreeParts(s);
      NumeralIsDec(parts[0]);
      NumeralIsDec(parts[1]);
      NumeralIsDec(parts[2]);
    }
  }

  /** An accepted version may be written into a file. */
  lemma VersionsAreVersionLike(s: string)
    requires ParseVersion(s).Some?
    ensures VersionLike(s) && s[|s| - 1] != '.'
  {
    var t := ParseVersion(s).value;
    ParseIsInverseOfPrint(s, t);
    assert s[0] == Dec(t.major)[0] && s[0] in Dec(t.major);
    assert s[|s| - 1] == Dec(t.patch)[|Dec(t.patch)| - 1] && s[|s| - 1] in Dec(t.patch);
  }

  // ----------------------------------------------------------------- order

  predicate Less(a: Triple, b: Triple) {
    a.major < b.major || (a.major == b.major && (a.minor < b.minor || (a.minor == b.minor && a.patch < b.patch)))
  }

  /** `require_newer` returns without an error. */
  predicate Newer(candidate: string, current: string) {
    var a, b := ParseVersion(candidate), ParseVersion(current);
    a.Some? && b.Some? && !(Less(a.value, b.value) || a.value == b.value)
  }

  /** Between printed versions `require_newer` accepts exactly the strict
      lexicographic order on the numbers. */
  lemma NewerComparesNumbers(a: Triple, b: Triple)
    ensures Newer(Print(a), Print(b)) <==>
              || b.major < a.major
              || (b.major == a.major && b.minor < a.minor)
              || (b.major == a.major && b.minor == a.minor && b.patch < a.patch)
  {
    PrintParses(a);
    PrintParses(b);
  }

  /** Hence it is a strict total order on valid versions. */
  lemma NewerIsStrictTotalOrder(a: string, b: string, c: string)
    ensures !Newer(a, a)
    ensures Newer(a, b) && Newer(b, c) ==> Newer(a, c)
    ensures ParseVersion(a).Some? && ParseVersion(b).Some? && a != b ==> (Newer(a, b) <==> !Newer(b, a))
  {
    if ParseVersion(a).Some? && ParseVersion(a) == ParseVersion(b) {
      ParseIsInverseOfPrint(a, ParseVersion(a).value);
      ParseIsInverseOfPrint(b, ParseVersion(a).value);
    }
  }
}
