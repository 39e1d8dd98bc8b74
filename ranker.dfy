/** The version rank of `loadPackages` and the packages built from the records of a
    `packages.config` file. Reading that file is outside the model: the records arrive as
    the four groups the record pattern captures. */
module Ranker {
  import opened Wrappers
  import opened GoStrings
  import opened Data

  // ---------------------------------------------------------------------------
  // Specification of the rank
  // ---------------------------------------------------------------------------

  /** The dot-separated segments the rank looks at: the first three at most. */
  function KeptSegments(version: string): seq<string>
  {
    var pts := Split(version, '.');
    if |pts| > 3 then pts[..3] else pts
  }

  /** The part of a segment handed to `ParseInt`: at most its first two characters. */
  function Truncated(pt: string): string
  {
    if |pt| > 2 then pt[..2] else pt
  }

  /** The numeric value of one segment; an unparsable segment counts as 0. */
  function SegmentValue(pt: string): (v: int)
    ensures -9 <= v <= 99
  {
    var s := Truncated(pt);
    ShortDigitsBound(s);
    if |s| > 0 then ShortDigitsBound(s[1..]); ParseInt64(s).GetOr(0)
    else ParseInt64(s).GetOr(0)
  }

  lemma ShortDigitsBound(s: string)
    requires |s| <= 2
    ensures AllDigits(s) ==> DigitsValue(s) <= (if |s| <= 1 then 9 else 99)
  {
    if |s| == 2 && AllDigits(s) {
      assert s[..1][..0] == [];
    } else if |s| == 1 && AllDigits(s) {
      assert s[..0] == [];
    }
  }

  function SegmentValues(version: string): (vals: seq<int>)
    ensures 1 <= |vals| <= 3
    ensures forall k :: 0 <= k < |vals| ==> -9 <= vals[k] <= 99
  {
    var pts := KeptSegments(version);
    seq(|pts|, k requires 0 <= k < |pts| => SegmentValue(pts[k]))
  }

  function Pow100(k: nat): (p: nat)
    ensures p >= 1
  {
    if k == 0 then 1 else 100 * Pow100(k - 1)
  }

  /** The sum of `vals[j] * 100^(|vals| - 1 - j)` over `i <= j < |vals|`: positions are
      weighted from the right. */
  function WeightedFrom(vals: seq<int>, i: nat): int
    decreases |vals| - i
  {
    if i >= |vals| then 0
    else vals[i] * Pow100(|vals| - 1 - i) + WeightedFrom(vals, i + 1)
  }

  /** The rank of a version string: its kept segments, each cut to two characters and
      parsed, weighted by powers of 100 counted from the rightmost kept segment. */
  function Rank(version: string): int
  {
    WeightedFrom(SegmentValues(version), 0)
  }

  // ---------------------------------------------------------------------------
  // The loop of loadPackages
  // ---------------------------------------------------------------------------

  /** The accumulation loop of `loadPackages`, right to left with a running weight `m`. */
  method VersionRank(version: string) returns (cv: int)
    ensures cv == Rank(version)
  {
    var pts := Split(version, '.');
    if |pts| > 3 {
      pts := pts[..3];
    }
    ghost var vals := SegmentValues(version);
    assert pts == KeptSegments(version);
    var m := 1;
    cv := 0;
    var i := |pts| - 1;
    while i >= 0
      invariant -1 <= i < |pts| && |vals| == |pts|
      invariant m == Pow100(|pts| - 1 - i)
      invariant cv == WeightedFrom(vals, i + 1)
    {
      var pt := pts[i];
      if |pt| > 2 {
        pt := pt[..2];
      }
      var parsed := ParseInt64(pt).GetOr(0);
      assert parsed == vals[i] by {
        assert pt == Truncated(pts[i]);
      }
      cv := cv + parsed * m;
      m := m * 100;
      i := i - 1;
    }
  }

  // ---------------------------------------------------------------------------
  // Properties of the rank
  // ---------------------------------------------------------------------------

  /** The rank written out for one, two and three kept segments. */
  lemma WeightedExpanded(vals: seq<int>)
    requires 1 <= |vals| <= 3
    ensures |vals| == 1 ==> WeightedFrom(vals, 0) == vals[0]
    ensures |vals| == 2 ==> WeightedFrom(vals, 0) == vals[0] * 100 + vals[1]
    ensures |vals| == 3 ==> WeightedFrom(vals, 0) == vals[0] * 10000 + vals[1] * 100 + vals[2]
  {
    assert Pow100(1) == 100;
    assert Pow100(2) == 10000;
    if |vals| == 3 {
      assert WeightedFrom(vals, 2) == vals[2];
      assert WeightedFrom(vals, 1) == vals[1] * 100 + vals[2];
    } else if |vals| == 2 {
      assert WeightedFrom(vals, 1) == vals[1];
    }
  }

  /** The rank fits easily in an int64, so the Go accumulators never overflow. */
  lemma RankRange(version: string)
    ensures -90909 <= Rank(version) <= 999999
  {
    WeightedExpanded(SegmentValues(version));
  }

  /** Every partial sum of the loop stays strictly between -100^d and 100^d, where d is
      the number of segments summed so far. */
  lemma {:induction false} PartialSumBound(vals: seq<int>, i: nat)
    requires i <= |vals|
    requires forall k :: 0 <= k < |vals| ==> -9 <= vals[k] <= 99
    ensures -(Pow100(|vals| - i) as int) < WeightedFrom(vals, i) < Pow100(|vals| - i)
    decreases |vals| - i
  {
    if i < |vals| {
      var w := Pow100(|vals| - 1 - i);
      var rest := WeightedFrom(vals, i + 1);
      assert WeightedFrom(vals, i) == vals[i] * w + rest;
      assert Pow100(|vals| - i) == 100 * w;
      PartialSumBound(vals, i + 1);
      ScaledSegment(vals[i], w);
    }
  }

  /** A segment value times a positive weight stays within the scaled bounds. */
  lemma ScaledSegment(v: int, w: nat)
    requires -9 <= v <= 99 && w >= 1
    ensures -9 * w <= v * w <= 99 * w
  {
    assert v * w - 99 * w == (v - 99) * w;
    assert v * w + 9 * w == (v + 9) * w;
  }

  lemma {:induction false} Pow100Mono(k: nat, l: nat)
    requires k <= l
    ensures 1 <= Pow100(k) <= Pow100(l)
    decreases l
  {
    if k < l {
      Pow100Mono(k, l - 1);
    }
  }

  /** Neither accumulator of the loop can overflow an int64: the running weight `m` is at
      most 100^3 and every partial sum `cv` lies strictly between -100^3 and 100^3. */
  lemma AccumulatorsFit(version: string)
    ensures forall k :: 0 <= k <= |SegmentValues(version)| ==> Pow100(k) <= 1000000
    ensures forall i :: 0 <= i <= |SegmentValues(version)| ==>
              -1000000 < WeightedFrom(SegmentValues(version), i) < 1000000
  {
    var vals := SegmentValues(version);
    assert Pow100(3) == 1000000;
    forall k | 0 <= k <= |vals| ensures Pow100(k) <= 1000000 {
      Pow100Mono(k, 3);
    }
    forall i | 0 <= i <= |vals| ensures -1000000 < WeightedFrom(vals, i) < 1000000 {
      PartialSumBound(vals, i);
      Pow100Mono(|vals| - i, 3);
    }
  }

  /** Lexicographic order on equally long sequences of segment values. */
  predicate LexLess(a: seq<int>, b: seq<int>)
    requires |a| == |b|
  {
    |a| > 0 && (a[0] < b[0] || (a[0] == b[0] && LexLess(a[1..], b[1..])))
  }

  /** With the same number of kept segments, each worth 0..99, a higher rank means a later
      version in the lexicographic order of the segment values, and conversely. */
  lemma RankOrderIsLexicographic(v1: string, v2: string)
    requires |SegmentValues(v1)| == |SegmentValues(v2)|
    requires forall k :: 0 <= k < |SegmentValues(v1)| ==> 0 <= SegmentValues(v1)[k] && 0 <= SegmentValues(v2)[k]
    ensures Rank(v1) < Rank(v2) <==> LexLess(SegmentValues(v1), SegmentValues(v2))
  {
    var a, b := SegmentValues(v1), SegmentValues(v2);
    WeightedExpanded(a);
    WeightedExpanded(b);
    LexLessExpanded(a, b);
  }

  /** Lexicographic order written out for one, two and three values. */
  lemma LexLessExpanded(a: seq<int>, b: seq<int>)
    requires |a| == |b| && 1 <= |a| <= 3
    ensures |a| == 1 ==> (LexLess(a, b) <==> a[0] < b[0])
    ensures |a| == 2 ==> (LexLess(a, b) <==> a[0] < b[0] || (a[0] == b[0] && a[1] < b[1]))
    ensures |a| == 3 ==> (LexLess(a, b) <==>
              a[0] < b[0] || (a[0] == b[0] && (a[1] < b[1] || (a[1] == b[1] && a[2] < b[2]))))
  {
    var a1, b1 := a[1..], b[1..];
    assert !LexLess(a[|a|..], b[|b|..]);
    if |a| == 3 {
      assert a1[1..] == a[2..] && b1[1..] == b[2..];
      assert LexLess(a[2..], b[2..]) <==> a[2] < b[2];
      assert LexLess(a1, b1) <==> a1[0] < b1[0] || (a1[0] == b1[0] && LexLess(a1[1..], b1[1..]));
    } else if |a| == 2 {
      assert a1[1..] == a[2..] && b1[1..] == b[2..];
      assert LexLess(a1, b1) <==> a[1] < b[1];
    }
  }

  /** Everything after the third segment is ignored. */
  lemma {:induction false} RankIgnoresLaterSegments(version: string, more: string)
    requires |Split(version, '.')| == 3
    ensures Rank(version + "." + more) == Rank(version)
  {
    SplitConcat(version, more, '.');
    var all := Split(version, '.') + Split(more, '.');
    assert all[..3] == Split(version, '.');
    assert KeptSegments(version + "." + more) == KeptSegments(version);
  }

  /** Only the first two characters of a kept segment count: lengthening any of the first
      three segments beyond two characters leaves the rank unchanged. */
  lemma {:induction false} RankIgnoresLaterCharacters(parts: seq<string>, k: nat, extra: string)
    requires k < |parts| && k < 3
    requires forall i :: 0 <= i < |parts| ==> '.' !in parts[i]
    requires '.' !in extra
    requires |parts[k]| >= 2
    ensures Rank(Join(parts[k := parts[k] + extra], '.')) == Rank(Join(parts, '.'))
  {
    var longer := parts[k := parts[k] + extra];
    assert forall i :: 0 <= i < |longer| ==> '.' !in longer[i];
    SegmentsOfJoin(parts);
    SegmentsOfJoin(longer);
    assert Truncated(parts[k] + extra) == Truncated(parts[k]) by {
      assert (parts[k] + extra)[..2] == parts[k][..2];
    }
    var a, b := SegmentValues(Join(longer, '.')), SegmentValues(Join(parts, '.'));
    assert a == b by {
      assert |a| == |b|;
      forall i | 0 <= i < |a| ensures a[i] == b[i] {
      }
    }
  }

  /** A single digit is worth its value. */
  lemma DigitSegment(c: char)
    requires IsDigit(c)
    ensures SegmentValue([c]) == c as int - '0' as int
  {
    var s := [c];
    assert Truncated(s) == s;
    assert s[..0] == "";
    assert AllDigits(s);
    assert DigitsValue(s) == c as int - '0' as int;
    assert DecimalValue(s) == Some(c as int - '0' as int);
  }

  /** The kept segments of a joined version are the joined pieces, up to three. */
  lemma {:induction false} SegmentsOfJoin(parts: seq<string>)
    requires 1 <= |parts|
    requires forall k :: 0 <= k < |parts| ==> '.' !in parts[k]
    ensures KeptSegments(Join(parts, '.')) == if |parts| > 3 then parts[..3] else parts
  {
    SplitJoin(parts, '.');
  }

  /** Two single-digit segments rank as a two-digit base-100 number. */
  lemma TwoDigitRank(a: char, b: char)
    requires IsDigit(a) && IsDigit(b)
    ensures Rank(Join([[a], [b]], '.')) == (a as int - '0' as int) * 100 + (b as int - '0' as int)
  {
    var vals := SegmentValues(Join([[a], [b]], '.'));
    assert vals == [a as int - '0' as int, b as int - '0' as int] by {
      SegmentsOfJoin([[a], [b]]);
      DigitSegment(a);
      DigitSegment(b);
    }
    WeightedExpanded(vals);
  }

  /** Three single-digit segments rank as a three-digit base-100 number. */
  lemma ThreeDigitRank(a: char, b: char, c: char)
    requires IsDigit(a) && IsDigit(b) && IsDigit(c)
    ensures Rank(Join([[a], [b], [c]], '.')) ==
              (a as int - '0' as int) * 10000 + (b as int - '0' as int) * 100 + (c as int - '0' as int)
  {
    var vals := SegmentValues(Join([[a], [b], [c]], '.'));
    assert vals == [a as int - '0' as int, b as int - '0' as int, c as int - '0' as int] by {
      SegmentsOfJoin([[a], [b], [c]]);
      DigitSegment(a);
      DigitSegment(b);
      DigitSegment(c);
    }
    WeightedExpanded(vals);
  }

  /** The rank depends on how many segments there are: "1.2" and "0.1.2" rank alike. */
  lemma RankDependsOnSegmentCount()
    ensures Rank(Join(["1", "2"], '.')) == Rank(Join(["0", "1", "2"], '.')) == 102
  {
    TwoDigitRank('1', '2');
    ThreeDigitRank('0', '1', '2');
  }

  /** Worked value: "1.2.3.4" and "1.2.3" both rank 10203. */
  lemma RankExampleFourSegments()
    ensures Rank(Join(["1", "2", "3", "4"], '.')) == Rank(Join(["1", "2", "3"], '.')) == 10203
  {
    assert KeptSegments(Join(["1", "2", "3", "4"], '.')) == KeptSegments(Join(["1", "2", "3"], '.')) by {
      SegmentsOfJoin(["1", "2", "3", "4"]);
      SegmentsOfJoin(["1", "2", "3"]);
      assert ["1", "2", "3", "4"][..3] == ["1", "2", "3"];
    }
    ThreeDigitRank('1', '2', '3');
  }

  /** Worked value: "2.1.0" outranks "1.9.9". */
  lemma RankExampleLater()
    ensures Rank(Join(["2", "1", "0"], '.')) > Rank(Join(["1", "9", "9"], '.'))
  {
    ThreeDigitRank('2', '1', '0');
    ThreeDigitRank('1', '9', '9');
  }

  // ---------------------------------------------------------------------------
  // Packages from packages.config records
  // ---------------------------------------------------------------------------

  /** The groups one match of the record pattern captures: `id`, `version`,
      `targetFramework` and the optional `developmentDependency` value ("" when absent). */
  datatype PackageMatch = PackageMatch(id: string, version: string, targetFramework: string, developmentDependency: string)

  /** The package built from one record: the development flag is set only by the exact,
      case-sensitive text "true". */
  function PackageOf(m: PackageMatch): Package
  {
    Package(m.id, m.version, m.targetFramework, m.developmentDependency == "true", Rank(m.version))
  }

  function PackagesOf(matches: seq<PackageMatch>): seq<Package>
  {
    seq(|matches|, k requires 0 <= k < |matches| => PackageOf(matches[k]))
  }

  /** `loadPackages` from the captured records onward: one package per record, in order. */
  method LoadPackages(matches: seq<PackageMatch>) returns (packages: seq<Package>)
    ensures |packages| == |matches|
    ensures forall k :: 0 <= k < |matches| ==>
              && packages[k].id == matches[k].id
              && packages[k].version == matches[k].version
              && packages[k].targetFramework == matches[k].targetFramework
              && (packages[k].developmentDependency <==> matches[k].developmentDependency == "true")
              && packages[k].versionVal == Rank(matches[k].version)
    ensures packages == PackagesOf(matches)
  {
    packages := [];
    var i := 0;
    while i < |matches|
      invariant 0 <= i <= |matches|
      invariant packages == PackagesOf(matches[..i])
    {
      var m := matches[i];
      var versionVal := VersionRank(m.version);
      var pkg := Package(m.id, m.version, m.targetFramework, m.developmentDependency == "true", versionVal);
      packages := packages + [pkg];
      i := i + 1;
    }
    assert matches[..i] == matches;
  }
}
