/**
  The release order the update check of app/views/utils/utils.js is meant to
  decide, and a comparator that decides it. `compareVersion` deletes the dots
  before it reads the number, so `1.2.10` becomes 1210 and `1.3.0` becomes
  130; the segments are compared as one run of digits. The comparator here
  reads each dot-separated segment as a number and compares the segments in
  order, keeping the source's beta rule for equal numbers.
 */
module ReleaseOrder {
  import opened Wrappers
  import opened Js
  import Version

  /** A published version: three numbers and whether it is a beta. */
  datatype Release = Release(major: nat, minor: nat, patch: nat, beta: bool)

  const BetaMarker := "-beta"

  /** The segments joined with dots. */
  function Join(parts: seq<string>): string
    requires |parts| >= 1
  {
    if |parts| == 1 then parts[0] else parts[0] + "." + Join(parts[1..])
  }

  /** The text a release is tagged with, such as `1.2.10` or `1.3.0-beta`. */
  function Show(v: Release): string {
    Join([NatToDecimal(v.major), NatToDecimal(v.minor),
          NatToDecimal(v.patch) + (if v.beta then BetaMarker else "")])
  }

  /** `x` is an older release than `y`: a smaller number in the first segment
      that differs, or the same numbers with `x` a beta and `y` not. */
  predicate Older(x: Release, y: Release) {
    || x.major < y.major
    || (x.major == y.major && x.minor < y.minor)
    || (x.major == y.major && x.minor == y.minor && x.patch < y.patch)
    || (x.major == y.major && x.minor == y.minor && x.patch == y.patch && x.beta && !y.beta)
  }

  /** `s.split('.')`. */
  function SplitDots(s: string): (r: seq<string>)
    ensures |r| >= 1
    ensures forall i | 0 <= i < |r| :: '.' !in r[i]
  {
    if |s| == 0 then [""]
    else
      var rest := SplitDots(s[1..]);
      if s[0] == '.' then [""] + rest
      else [[s[0]] + rest[0]] + rest[1..]
  }

  /** Splitting and joining again gives the text back. */
  lemma {:induction false} JoinSplit(s: string)
    ensures Join(SplitDots(s)) == s
  {
    if |s| > 0 {
      JoinSplit(s[1..]);
      if s[0] == '.' {
        JoinDot(SplitDots(s[1..]));
      } else {
        JoinChar(s[0], SplitDots(s[1..]));
      }
      assert s == [s[0]] + s[1..];
    }
  }

  /** An empty first segment joins as a leading dot. */
  lemma JoinDot(rest: seq<string>)
    requires |rest| >= 1
    ensures Join([""] + rest) == "." + Join(rest)
  {
    var r := [""] + rest;
    assert r[0] == "" && r[1..] == rest;
    assert Join(r) == "" + "." + Join(rest);
    assert "" + "." + Join(rest) == "." + Join(rest);
  }

  /** A character put in front of the first segment comes first in the join. */
  lemma JoinChar(c: char, rest: seq<string>)
    requires |rest| >= 1
    ensures Join([[c] + rest[0]] + rest[1..]) == [c] + Join(rest)
  {
    var r := [[c] + rest[0]] + rest[1..];
    if |rest| == 1 {
      assert r == [[c] + rest[0]];
    } else {
      assert r[1..] == rest[1..];
      var tail := "." + Join(rest[1..]);
      assert Join(r) == ([c] + rest[0]) + tail;
      assert Join(rest) == rest[0] + tail;
      AppendAssoc([c], rest[0], tail);
    }
  }

  /** Joining segments without dots and splitting again gives the segments. */
  lemma {:induction false} SplitJoin(parts: seq<string>)
    requires |parts| >= 1
    requires forall i | 0 <= i < |parts| :: '.' !in parts[i]
    ensures SplitDots(Join(parts)) == parts
  {
    if |parts| == 1 {
      SplitDotFree(parts[0]);
    } else {
      SplitJoin(parts[1..]);
      SplitAfter(parts[0], Join(parts[1..]));
      assert parts == [parts[0]] + parts[1..];
    }
  }

  lemma {:induction false} SplitDotFree(a: string)
    requires '.' !in a
    ensures SplitDots(a) == [a]
  {
    if |a| > 0 {
      assert a[0] in a;
      assert forall c | c in a[1..] :: c in a;
      SplitDotFree(a[1..]);
      assert a == [a[0]] + a[1..];
    }
  }

  lemma {:induction false} SplitAfter(a: string, b: string)
    requires '.' !in a
    ensures SplitDots(a + "." + b) == [a] + SplitDots(b)
  {
    var s := a + "." + b;
    if |a| == 0 {
      assert s[1..] == b;
    } else {
      assert a[0] in a;
      assert forall c | c in a[1..] :: c in a;
      assert s[1..] == a[1..] + "." + b;
      SplitAfter(a[1..], b);
      assert a == [a[0]] + a[1..];
    }
  }

  /** A leading `v` or `V` of a tag such as `v1.2.0` is dropped. */
  function StripLeadingV(s: string): (r: string)
    ensures r == s || (|s| > 0 && (s[0] == 'v' || s[0] == 'V') && r == s[1..])
  {
    if |s| > 0 && (s[0] == 'v' || s[0] == 'V') then s[1..] else s
  }

  /** `f` applied to every element. */
  function Map<T, U>(f: T -> U, s: seq<T>): (r: seq<U>)
    ensures |r| == |s| && forall i | 0 <= i < |s| :: r[i] == f(s[i])
  {
    seq(|s|, i requires 0 <= i < |s| => f(s[i]))
  }

  lemma MapThree<T, U>(f: T -> U, a: T, b: T, c: T)
    ensures Map(f, [a, b, c]) == [f(a), f(b), f(c)]
  {
  }

  /** Every segment read with `parseInt`. */
  function Readings(parts: seq<string>): seq<IntOrNaN> {
    Map(ParseInt, parts)
  }

  /** The numbers read; `None` when one of them is `NaN`. */
  function Numbers(vals: seq<IntOrNaN>): (r: Option<seq<int>>)
    ensures r.Some? ==> |r.value| == |vals|
    ensures r.Some? ==> forall i | 0 <= i < |vals| :: vals[i] == Int(r.value[i])
    ensures r.None? ==> exists i | 0 <= i < |vals| :: vals[i].NaN?
  {
    if |vals| == 0 then Some([])
    else
      var rest := Numbers(vals[1..]);
      match vals[0]
      case NaN => None
      case Int(v) => if rest.None? then None else Some([v] + rest.value)
  }

  /** Lexicographic order on sequences of numbers; a proper prefix comes first. */
  predicate LexLess(a: seq<int>, b: seq<int>) {
    if |a| == 0 then |b| > 0
    else if |b| == 0 then false
    else a[0] < b[0] || (a[0] == b[0] && LexLess(a[1..], b[1..]))
  }

  /** The segments of a version, as numbers. */
  function Segments(s: string): Option<seq<int>> {
    Numbers(Readings(SplitDots(StripLeadingV(s))))
  }

  /** The update check, segment by segment: identical strings and unreadable
      segments need no update; equal numbers decide by the beta flags as in
      the source; otherwise the first differing segment decides. */
  function CompareSegments(local: string, latest: string): (r: bool)
    ensures local == latest ==> !r
    ensures Segments(local).None? || Segments(latest).None? ==> !r
    ensures r ==> local != latest && Segments(local).Some? && Segments(latest).Some?
  {
    if local == latest then false
    else
      match (Segments(local), Segments(latest))
      case (Some(a), Some(b)) =>
        if a == b then Version.IsBeta(local) && !Version.IsBeta(latest) else LexLess(a, b)
      case _ => false
  }

  /** A character other than the dot that no segment holds is not in the
      joined text. */
  lemma {:induction false} JoinWithout(parts: seq<string>, c: char)
    requires |parts| >= 1 && c != '.'
    requires forall i | 0 <= i < |parts| :: c !in parts[i]
    ensures c !in Join(parts)
  {
    if |parts| > 1 {
      assert parts[0] == parts[0];
      JoinWithout(parts[1..], c);
    }
  }

  lemma DigitsWithout(d: string)
    requires AllDigits(d)
    ensures '.' !in d && '-' !in d
  {
  }

  /** The three segments of a shown release. */
  function ShownParts(v: Release): (r: seq<string>)
    ensures |r| == 3 && Join(r) == Show(v)
  {
    [NatToDecimal(v.major), NatToDecimal(v.minor),
     NatToDecimal(v.patch) + (if v.beta then BetaMarker else "")]
  }

  lemma JoinThree(a: string, b: string, c: string)
    ensures Join([a, b, c]) == a + "." + (b + "." + c)
  {
    assert [a, b, c][1..] == [b, c];
    assert [b, c][1..] == [c];
    assert Join([c]) == c;
    assert Join([b, c]) == b + "." + Join([c]);
  }

  /** A shown release reads back as its three numbers. */
  lemma ShowSegments(v: Release)
    ensures Segments(Show(v)) == Some([v.major as int, v.minor as int, v.patch as int])
  {
    ShowSplit(v);
    ShownNumbers(v);
  }

  lemma ShowSplit(v: Release)
    ensures SplitDots(StripLeadingV(Show(v))) == ShownParts(v)
  {
    var parts := ShownParts(v);
    DigitsWithout(parts[0]);
    DigitsWithout(parts[1]);
    DigitsWithout(NatToDecimal(v.patch));
    assert '.' !in parts[2];
    SplitJoin(parts);
    JoinThree(parts[0], parts[1], parts[2]);
    assert Show(v)[0] == parts[0][0];
  }

  lemma ShownNumbers(v: Release)
    ensures Numbers(Readings(ShownParts(v))) == Some([v.major as int, v.minor as int, v.patch as int])
  {
    var parts := ShownParts(v);
    ShownReadings(v);
    NumbersThree(v.major, v.minor, v.patch);
  }

  lemma ShownReadings(v: Release)
    ensures Readings(ShownParts(v)) == [Int(v.major), Int(v.minor), Int(v.patch)]
  {
    var parts := ShownParts(v);
    MapThree(ParseInt, parts[0], parts[1], parts[2]);
    assert parts == [parts[0], parts[1], parts[2]];
    ParseNatRoundTrip(v.major);
    ParseNatRoundTrip(v.minor);
    PatchReadBack(v);
  }

  lemma ParseNatRoundTrip(n: nat)
    ensures ParseInt(NatToDecimal(n)) == Int(n)
  {
    ParseIntRoundTrip(n);
  }

  /** `parseInt` stops at the beta marker of the last segment. */
  lemma PatchReadBack(v: Release)
    ensures ParseInt(ShownParts(v)[2]) == Int(v.patch)
  {
    var d3 := NatToDecimal(v.patch);
    var suffix := if v.beta then BetaMarker else "";
    assert "" + d3 + suffix == ShownParts(v)[2];
    ParseIntOfDecimal("", v.patch, suffix);
  }

  lemma NumbersThree(x: int, y: int, z: int)
    ensures Numbers([Int(x), Int(y), Int(z)]) == Some([x, y, z])
  {
    var r := Numbers([Int(x), Int(y), Int(z)]);
    assert r.value == [x, y, z];
  }

  lemma AppendAssoc(x: string, y: string, z: string)
    ensures x + (y + z) == (x + y) + z
  {
  }

  /** A shown release carries the beta marker exactly when it is a beta. */
  lemma ShowBeta(v: Release)
    ensures Version.IsBeta(Show(v)) <==> v.beta
  {
    var parts := ShownParts(v);
    var d3 := NatToDecimal(v.patch);
    DigitsWithout(parts[0]);
    DigitsWithout(parts[1]);
    DigitsWithout(d3);
    JoinThree(parts[0], parts[1], parts[2]);
    if v.beta {
      var s := Show(v);
      var tail := parts[1] + "." + d3;
      AppendAssoc(parts[1] + ".", d3, BetaMarker);
      var head := parts[0] + "." + tail;
      AppendAssoc(parts[0] + ".", tail, BetaMarker);
      assert s == head + BetaMarker;
      assert s[|head|..] == BetaMarker;
      assert StartsWithIgnoringCase(BetaMarker, "-beta");
    } else {
      assert parts[2] == d3;
      JoinWithout(parts, '-');
      Version.NoDashNoBeta(Show(v));
    }
  }

  /** The digits of a release run together, as `formatVersion` leaves them. */
  function RunTogether(v: Release): (r: string)
    ensures |r| >= 3 && AllDigits(r)
  {
    NatToDecimal(v.major) + NatToDecimal(v.minor) + NatToDecimal(v.patch)
  }

  /** Deleting the dots and the beta marker of a shown release leaves its
      three numbers' digits side by side. */
  lemma ShownStrip(v: Release)
    ensures Version.StripMarkers(Show(v)) == RunTogether(v)
  {
    var d1, d2, d3 := NatToDecimal(v.major), NatToDecimal(v.minor), NatToDecimal(v.patch);
    var suffix := if v.beta then BetaMarker else "";
    JoinThree(d1, d2, d3 + suffix);
    assert Show(v) == (d1 + ".") + ((d2 + ".") + (d3 + suffix));
    DigitsWithout(d1);
    DigitsWithout(d2);
    DigitsWithout(d3);
    Version.StripConcat(d1 + ".", (d2 + ".") + (d3 + suffix));
    Version.StripConcat(d2 + ".", d3 + suffix);
    Version.StripConcat(d3, suffix);
    Version.DigitsThenDot(d1);
    Version.DigitsThenDot(d2);
    Version.DigitsUnchanged(d3);
    if v.beta {
      Version.BetaMarkerStripped();
    }
    assert Version.StripMarkers(suffix) == "";
    assert d3 + "" == d3;
    AppendAssoc(d1, d2, d3);
  }

  /** What `formatVersion` makes of a shown release: its digits read as
      one number, so `1.2.10` is 1210 whatever its segments mean. */
  lemma FormatVersionOfShown(v: Release)
    ensures Version.FormatVersion(Show(v)) == Int(DigitsValue(RunTogether(v)))
  {
    ShownStrip(v);
    ParseDigitRun(RunTogether(v));
  }

  /** The lexicographic order on three numbers. */
  lemma LexLessThree(a: int, b: int, c: int, d: int, e: int, f: int)
    ensures LexLess([a, b, c], [d, e, f]) <==> a < d || (a == d && (b < e || (b == e && c < f)))
  {
    assert [a, b, c][1..] == [b, c];
    assert [d, e, f][1..] == [e, f];
    assert [b, c][1..] == [c];
    assert [e, f][1..] == [f];
    assert [c][1..] == [];
    assert [f][1..] == [];
    assert LexLess([a, b, c], [d, e, f]) == (a < d || (a == d && LexLess([b, c], [e, f])));
    assert LexLess([b, c], [e, f]) == (b < e || (b == e && LexLess([c], [f])));
    assert LexLess([c], [f]) == (c < f || (c == f && LexLess([], [])));
  }

  /** The segment comparator decides the release order: on shown releases
      it asks for an update exactly when the local release is the older. */
  lemma SegmentsOrderReleases(x: Release, y: Release)
    ensures CompareSegments(Show(x), Show(y)) <==> Older(x, y)
  {
    ShowSegments(x);
    ShowSegments(y);
    ShowBeta(x);
    ShowBeta(y);
    LexLessThree(x.major, x.minor, x.patch, y.major, y.minor, y.patch);
    var a: seq<int> := [x.major, x.minor, x.patch];
    var b: seq<int> := [y.major, y.minor, y.patch];
    assert a == b <==> x.major == y.major && x.minor == y.minor && x.patch == y.patch by {
      if a == b {
        assert a[0] == b[0] && a[1] == b[1] && a[2] == b[2];
      }
    }
  }

  /** `1.2.10` and `1.3.0` lose their dots as 1210 and 130. */
  lemma StripTenExample()
    ensures Version.StripMarkers("1.2.10") == "1210"
  {
    assert Version.StripMarkers("") == "";
    assert Version.StripMarkers("0") == "0";
    assert Version.StripMarkers("10") == "10" by { assert "10"[1..] == "0"; }
    assert Version.StripMarkers(".10") == "10" by { assert ".10"[1..] == "10"; }
    assert Version.StripMarkers("2.10") == "210" by { assert "2.10"[1..] == ".10"; }
    assert Version.StripMarkers(".2.10") == "210" by { assert ".2.10"[1..] == "2.10"; }
    assert "1.2.10"[1..] == ".2.10";
  }

  lemma StripThreeExample()
    ensures Version.StripMarkers("1.3.0") == "130"
  {
    assert Version.StripMarkers("") == "";
    assert Version.StripMarkers("0") == "0";
    assert Version.StripMarkers(".0") == "0" by { assert ".0"[1..] == "0"; }
    assert Version.StripMarkers("3.0") == "30" by { assert "3.0"[1..] == ".0"; }
    assert Version.StripMarkers(".3.0") == "30" by { assert ".3.0"[1..] == "3.0"; }
    assert "1.3.0"[1..] == ".3.0";
  }

  lemma DecimalTenExample()
    ensures NatToDecimal(1210) == "1210"
    ensures NatToDecimal(10) == "10"
  {
    assert NatToDecimal(1) == "1";
    assert NatToDecimal(12) == "12" by { assert DigitChar(2) == '2'; }
    assert NatToDecimal(121) == "121" by { assert DigitChar(1) == '1'; }
    assert DigitChar(0) == '0';
  }

  lemma DecimalThreeExample()
    ensures NatToDecimal(130) == "130"
    ensures NatToDecimal(3) == "3"
    ensures NatToDecimal(2) == "2"
    ensures NatToDecimal(0) == "0"
  {
    assert NatToDecimal(1) == "1";
    assert NatToDecimal(13) == "13" by { assert DigitChar(3) == '3'; }
    assert DigitChar(0) == '0';
  }

  /** What the dot-free reading makes of the two versions. */
  lemma FormatVersionExamples()
    ensures Version.FormatVersion("1.2.10") == Int(1210)
    ensures Version.FormatVersion("1.3.0") == Int(130)
  {
    StripTenExample();
    StripThreeExample();
    DecimalTenExample();
    DecimalThreeExample();
    ParseIntRoundTrip(1210);
    ParseIntRoundTrip(130);
  }

  /** The source compares `1.2.10` and `1.3.0` the wrong way round: it offers
      no update from the older to the newer, and offers one from the newer to
      the older. */
  lemma DotStrippingMisorders()
    ensures Older(Release(1, 2, 10, false), Release(1, 3, 0, false))
    ensures !Version.CompareVersion("1.2.10", "1.3.0")
    ensures Version.CompareVersion("1.3.0", "1.2.10")
  {
    ReleaseFacts();
    ReleasesByNumber("1.2.10", "1.3.0", 1210, 130);
    ReleasesByNumber("1.3.0", "1.2.10", 130, 1210);
  }

  lemma ReleaseFacts()
    ensures Version.FormatVersion("1.2.10") == Int(1210) && !Version.IsBeta("1.2.10")
    ensures Version.FormatVersion("1.3.0") == Int(130) && !Version.IsBeta("1.3.0")
  {
    FormatVersionExamples();
    NotBetaExamples();
  }

  lemma NotBetaExamples()
    ensures !Version.IsBeta("1.2.10") && !Version.IsBeta("1.3.0")
  {
    Version.NoDashNoBeta("1.2.10");
    Version.NoDashNoBeta("1.3.0");
  }

  /** Between two releases the source compares the dot-free numbers alone. */
  lemma ReleasesByNumber(local: string, latest: string, m: int, n: int)
    requires Version.FormatVersion(local) == Int(m) && Version.FormatVersion(latest) == Int(n)
    requires !Version.IsBeta(local) && !Version.IsBeta(latest)
    ensures Version.CompareVersion(local, latest) <==> m < n
  {
  }

  lemma ShowTenExample()
    ensures Show(Release(1, 2, 10, false)) == "1.2.10"
  {
    DecimalTenExample();
    DecimalThreeExample();
    JoinThree("1", "2", "10");
    assert "10" + "" == "10";
  }

  lemma ShowThreeExample()
    ensures Show(Release(1, 3, 0, false)) == "1.3.0"
  {
    DecimalThreeExample();
    assert NatToDecimal(1) == "1";
    JoinThree("1", "3", "0");
    assert "0" + "" == "0";
  }

  /** The segment comparator gets the same pair right. */
  lemma SegmentsOrderExample()
    ensures CompareSegments("1.2.10", "1.3.0")
    ensures !CompareSegments("1.3.0", "1.2.10")
  {
    ShowTenExample();
    ShowThreeExample();
    SegmentsOrderReleases(Release(1, 2, 10, false), Release(1, 3, 0, false));
    SegmentsOrderReleases(Release(1, 3, 0, false), Release(1, 2, 10, false));
  }
}
