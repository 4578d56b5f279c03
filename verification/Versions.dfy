/** The update check of CliApplication: the running version stripped of its build and
    pre-release suffixes, dotted versions compared part by part, and the notice shown when the
    published version is newer. */
module Versions {
  import opened Common

  const Int32Max: nat := 2147483647

  /** `version.Split('+')[0].Split('-')[0]`. */
  function CleanVersion(v: string): (r: string)
    ensures '+' !in r && '-' !in r
    ensures |r| <= |v| && r == v[..|r|]
    ensures |r| < |v| ==> v[|r|] == '+' || v[|r|] == '-'
  {
    BeforeFirst(BeforeFirst(v, '+'), '-')
  }

  lemma CleanVersionIdempotent(v: string)
    ensures CleanVersion(CleanVersion(v)) == CleanVersion(v)
  {
    var c := CleanVersion(v);
    NoSeparatorBeforeFirst(c, '+');
    NoSeparatorBeforeFirst(c, '-');
  }

  lemma {:induction false} NoSeparatorBeforeFirst(s: string, sep: char)
    requires sep !in s
    ensures BeforeFirst(s, sep) == s
  {
    if s != [] {
      NoSeparatorBeforeFirst(s[1..], sep);
    }
  }

  /** `int.Parse` of one part: decimal digits whose value fits an `int`; anything else throws. */
  function ParsePart(s: string): (r: Option<nat>)
    ensures r.Some? ==> r.value <= Int32Max
  {
    match ParseNat(s)
    case Some(n) => if n <= Int32Max then Some(n) else None
    case None => None
  }

  function ParseParts(parts: seq<string>): (r: Option<seq<nat>>)
    ensures r.Some? ==> |r.value| == |parts|
    ensures r.Some? <==> forall i :: 0 <= i < |parts| ==> ParsePart(parts[i]).Some?
    ensures r.Some? ==> forall i :: 0 <= i < |parts| ==> r.value[i] == ParsePart(parts[i]).value
  {
    if parts == [] then Some([])
    else
      var head, tail := ParsePart(parts[0]), ParseParts(parts[1..]);
      if head.None? then None
      else if tail.None? then
        assert !(forall i :: 0 <= i < |parts| ==> ParsePart(parts[i]).Some?) by {
          var i :| 0 <= i < |parts| - 1 && ParsePart(parts[1..][i]).None?;
          assert ParsePart(parts[i + 1]).None?;
        }
        None
      else Some([head.value] + tail.value)
  }

  /** `version.Split('.').Select(int.Parse)`; `None` where that throws. */
  function ParseVersion(v: string): Option<seq<nat>>
  {
    ParseParts(Split(v, '.'))
  }

  /** A part of a version, 0 past its end. */
  function Part(p: seq<nat>, i: nat): nat
  {
    if i < |p| then p[i] else 0
  }

  /** Reference order: `a` is older than `b` when at the first part where they differ, `a`'s
      is smaller. */
  ghost predicate OlderAt(a: seq<nat>, b: seq<nat>, k: nat)
  {
    (forall j: nat :: j < k ==> Part(a, j) == Part(b, j)) && Part(a, k) < Part(b, k)
  }

  ghost predicate Older(a: seq<nat>, b: seq<nat>)
  {
    exists k: nat :: OlderAt(a, b, k)
  }

  ghost predicate SameVersion(a: seq<nat>, b: seq<nat>)
  {
    forall j: nat :: Part(a, j) == Part(b, j)
  }

  function Longer(a: seq<nat>, b: seq<nat>): nat
  {
    if |a| >= |b| then |a| else |b|
  }

  /** The loop of `CompareVersions` from part `i` on. */
  function CompareFrom(a: seq<nat>, b: seq<nat>, i: nat): (r: int)
    ensures -1 <= r <= 1
    decreases Longer(a, b) - i
  {
    if i >= Longer(a, b) then 0
    else if Part(a, i) < Part(b, i) then -1
    else if Part(a, i) > Part(b, i) then 1
    else CompareFrom(a, b, i + 1)
  }

  function Compare(a: seq<nat>, b: seq<nat>): int
  {
    CompareFrom(a, b, 0)
  }

  lemma {:induction false} CompareFromMeaning(a: seq<nat>, b: seq<nat>, i: nat)
    requires forall j: nat :: j < i ==> Part(a, j) == Part(b, j)
    ensures CompareFrom(a, b, i) == -1 <==> Older(a, b)
    ensures CompareFrom(a, b, i) == 1 <==> Older(b, a)
    ensures CompareFrom(a, b, i) == 0 <==> SameVersion(a, b)
    decreases Longer(a, b) - i
  {
    if i >= Longer(a, b) {
      assert SameVersion(a, b);
      forall k: nat
        ensures !OlderAt(a, b, k) && !OlderAt(b, a, k)
      {
        assert Part(a, k) == Part(b, k);
      }
    } else if Part(a, i) < Part(b, i) {
      assert OlderAt(a, b, i);
      NotOlderBothWays(a, b, i);
    } else if Part(a, i) > Part(b, i) {
      assert OlderAt(b, a, i);
      NotOlderBothWays(b, a, i);
    } else {
      CompareFromMeaning(a, b, i + 1);
    }
  }

  /** Differing first at `i` with `a` smaller: `a` is older, `b` is not, and they differ. */
  lemma NotOlderBothWays(a: seq<nat>, b: seq<nat>, i: nat)
    requires OlderAt(a, b, i)
    ensures !Older(b, a) && !SameVersion(a, b)
  {
    forall k: nat
      ensures !OlderAt(b, a, k)
    {
      if k < i {
        assert Part(a, k) == Part(b, k);
      } else if k > i {
        assert !(Part(b, i) == Part(a, i));
      }
    }
  }

  /** `Compare` decides the reference order: -1 older, 1 newer, 0 the same once missing parts
      count as 0. */
  lemma CompareMeaning(a: seq<nat>, b: seq<nat>)
    ensures Compare(a, b) == -1 <==> Older(a, b)
    ensures Compare(a, b) == 1 <==> Older(b, a)
    ensures Compare(a, b) == 0 <==> SameVersion(a, b)
  {
    CompareFromMeaning(a, b, 0);
  }

  /** Swapping the versions negates the result. */
  lemma CompareAntisymmetric(a: seq<nat>, b: seq<nat>)
    ensures Compare(b, a) == -Compare(a, b)
  {
    CompareMeaning(a, b);
    CompareMeaning(b, a);
  }

  lemma CompareReflexive(a: seq<nat>)
    ensures Compare(a, a) == 0
  {
    CompareMeaning(a, a);
  }

  /** Trailing zero parts do not matter: "1.2" and "1.2.0" compare equal to everything alike. */
  lemma CompareTrailingZero(a: seq<nat>, b: seq<nat>)
    ensures Compare(a + [0], b) == Compare(a, b)
  {
    var a' := a + [0];
    assert forall j: nat :: Part(a', j) == Part(a, j);
    CompareMeaning(a, b);
    CompareMeaning(a', b);
    if Older(a, b) {
      var k: nat :| OlderAt(a, b, k);
      assert OlderAt(a', b, k);
    }
    if Older(b, a) {
      var k: nat :| OlderAt(b, a, k);
      assert OlderAt(b, a', k);
    }
    if Older(a', b) {
      var k: nat :| OlderAt(a', b, k);
      assert OlderAt(a, b, k);
    }
    if Older(b, a') {
      var k: nat :| OlderAt(b, a', k);
      assert OlderAt(b, a, k);
    }
  }

  /** `CompareVersions`: parses both versions, then compares their parts. `None` where
      `int.Parse` throws. */
  method CompareVersions(v1: string, v2: string) returns (r: Option<int>)
    ensures r.Some? <==> ParseVersion(v1).Some? && ParseVersion(v2).Some?
    ensures r.Some? ==> r.value == Compare(ParseVersion(v1).value, ParseVersion(v2).value)
  {
    var p1, p2 := ParseVersion(v1), ParseVersion(v2);
    if p1.None? || p2.None? {
      return None;
    }
    var c := CompareParts(p1.value, p2.value);
    return Some(c);
  }

  /** The loop of `CompareVersions`: walks the parts up to the longer length, missing parts
      as 0, returning at the first difference. */
  method CompareParts(a: seq<nat>, b: seq<nat>) returns (r: int)
    ensures r == Compare(a, b)
  {
    var maxLength := Longer(a, b);
    var i := 0;
    while i < maxLength
      invariant 0 <= i <= maxLength
      invariant Compare(a, b) == CompareFrom(a, b, i)
    {
      var x := if i < |a| then a[i] else 0;
      var y := if i < |b| then b[i] else 0;
      if x < y {
        return -1;
      }
      if x > y {
        return 1;
      }
      i := i + 1;
    }
    return 0;
  }

  /** The notice "A new version is available" is shown exactly when the cleaned running version
      is older than the published one; a version `int.Parse` rejects shows nothing. */
  predicate ShowsUpdateNotice(current: string, latest: string)
  {
    var c, l := ParseVersion(CleanVersion(current)), ParseVersion(latest);
    c.Some? && l.Some? && Compare(c.value, l.value) == -1
  }

  lemma UpdateNoticeMeaning(current: string, latest: string)
    ensures ShowsUpdateNotice(current, latest) <==>
              && ParseVersion(CleanVersion(current)).Some? && ParseVersion(latest).Some?
              && Older(ParseVersion(CleanVersion(current)).value, ParseVersion(latest).value)
  {
    var c, l := ParseVersion(CleanVersion(current)), ParseVersion(latest);
    if c.Some? && l.Some? {
      CompareMeaning(c.value, l.value);
    }
  }

  /** The same version never prompts an update, whatever build suffix it carries. */
  lemma NoNoticeForSameVersion(v: string, suffix: string)
    requires '+' !in v && '-' !in v
    ensures !ShowsUpdateNotice(v + "+" + suffix, v)
  {
    var s := v + "+" + suffix;
    assert s == v + ['+'] + suffix;
    BeforeFirstPrefix(v, '+', suffix);
    NoSeparatorBeforeFirst(v, '-');
    if ParseVersion(v).Some? {
      CompareReflexive(ParseVersion(v).value);
    }
  }

  lemma SplitSingle(s: string)
    requires '.' !in s
    ensures Split(s, '.') == [s]
  {
  }

  lemma {:induction false} SplitCons(p: string, t: string)
    requires '.' !in p
    ensures Split(p + ['.'] + t, '.') == [p] + Split(t, '.')
  {
    SplitOnceAt(p, '.', t);
  }

  /** Two parts around one separator split into those two parts. */
  lemma SplitPair(a: string, b: string)
    requires '.' !in a && '.' !in b
    ensures Split(a + ['.'] + b, '.') == [a, b]
  {
    SplitCons(a, b);
    SplitSingle(b);
  }

  /** Three parts around two separators split into those three parts. */
  lemma SplitTriple(a: string, b: string, c: string)
    requires '.' !in a && '.' !in b && '.' !in c
    ensures Split(a + ['.'] + b + ['.'] + c, '.') == [a, b, c]
  {
    assert a + ['.'] + b + ['.'] + c == a + ['.'] + (b + ['.'] + c);
    SplitCons(a, b + ['.'] + c);
    SplitPair(b, c);
  }

  lemma SplitThreeParts()
    ensures Split("1.2.0", '.') == ["1", "2", "0"]
  {
    assert "1.2.0" == "1" + ['.'] + "2" + ['.'] + "0";
    SplitTriple("1", "2", "0");
  }

  lemma DigitParts()
    ensures ParsePart("0") == Some(0) && ParsePart("1") == Some(1) && ParsePart("2") == Some(2)
  {
    assert ParseNat("1") == Some(1) && ParseNat("2") == Some(2) && ParseNat("0") == Some(0);
  }

  /** "1.2" parses to the parts written. */
  lemma ParseTwoPartVersion()
    ensures ParseVersion("1.2") == Some([1, 2])
  {
    assert "1.2" == "1" + ['.'] + "2";
    SplitPair("1", "2");
    DigitParts();
    var parts := ["1", "2"];
    assert ParsePart(parts[0]).Some? && ParsePart(parts[1]).Some?;
    var r := ParseParts(parts);
    assert r.value[0] == 1 && r.value[1] == 2;
    assert r.value == [1, 2];
  }

  /** "1.2.0" parses to the parts written. */
  lemma ParseThreePartVersion()
    ensures ParseVersion("1.2.0") == Some([1, 2, 0])
  {
    SplitThreeParts();
    DigitParts();
    var parts := ["1", "2", "0"];
    assert ParsePart(parts[0]).Some? && ParsePart(parts[1]).Some? && ParsePart(parts[2]).Some?;
    var r := ParseParts(parts);
    assert r.value[0] == 1 && r.value[1] == 2 && r.value[2] == 0;
    assert r.value == [1, 2, 0];
  }

  /** "1.2" equals "1.2.0"; "1.2.3" is older than "1.10". */
  lemma CompareExamples()
    ensures Compare([1, 2], [1, 2, 0]) == 0
    ensures Compare([1, 2, 3], [1, 10]) == -1
  {
    assert CompareFrom([1, 2], [1, 2, 0], 2) == 0;
    assert CompareFrom([1, 2, 3], [1, 10], 1) == -1;
  }

  /** A build and pre-release suffix is dropped before comparing. */
  lemma CleanVersionExample()
    ensures CleanVersion("1.4.2+abc-def") == "1.4.2"
  {
    assert "1.4.2+abc-def" == "1.4.2" + ['+'] + "abc-def";
    BeforeFirstPrefix("1.4.2", '+', "abc-def");
    NoSeparatorBeforeFirst("1.4.2", '-');
  }
}
