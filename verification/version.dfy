/**
  The update check of app/views/utils/utils.js: `formatVersion` turns a
  version string into a number by deleting every `.`, `v` and `-beta`
  (ignoring case) and reading the rest with `parseInt`; `compareVersion`
  decides from those numbers and from the two beta flags whether the local
  version is older than the latest one.
 */
module Version {
  import opened Js

  /** `/-beta/i.test(s)`: the marker occurs somewhere, in any case. */
  predicate IsBeta(s: string) {
    exists i | 0 <= i <= |s| :: StartsWithIgnoringCase(s[i..], "-beta")
  }

  /** `s.replace(/\.|v|-beta/ig, '')`: a left-to-right scan that drops each
      match and never looks at the text again once it has passed it. */
  function StripMarkers(s: string): (r: string)
    ensures |r| <= |s|
    ensures forall i | 0 <= i < |r| :: r[i] != '.' && r[i] != 'v' && r[i] != 'V'
  {
    if |s| == 0 then ""
    else if s[0] == '.' || s[0] == 'v' || s[0] == 'V' then StripMarkers(s[1..])
    else if StartsWithIgnoringCase(s, "-beta") then StripMarkers(s[5..])
    else [s[0]] + StripMarkers(s[1..])
  }

  /** The characters the expression deletes one at a time. */
  predicate IsMark(c: char) {
    c == '.' || c == 'v' || c == 'V'
  }

  /** The string with every `.`, `v` and `V` taken out and the rest kept in
      order. */
  function WithoutMarks(s: string): (r: string)
    ensures |r| <= |s|
  {
    if |s| == 0 then "" else (if IsMark(s[0]) then "" else [s[0]]) + WithoutMarks(s[1..])
  }

  /** Without a `-` there is no `-beta` to delete: the replace keeps every
      character other than `.`, `v` and `V`, in order. */
  lemma {:induction false} StripWithoutDash(s: string)
    requires '-' !in s
    ensures StripMarkers(s) == WithoutMarks(s)
  {
    if |s| > 0 {
      assert s[0] in s;
      assert forall c | c in s[1..] :: c in s;
      StripWithoutDash(s[1..]);
    }
  }

  /** Text without a `-` in front of the rest is stripped on its own: no
      match crosses the boundary. */
  lemma {:induction false} StripConcat(a: string, b: string)
    requires '-' !in a
    ensures StripMarkers(a + b) == StripMarkers(a) + StripMarkers(b)
  {
    if |a| > 0 {
      assert a[0] in a;
      assert forall c | c in a[1..] :: c in a;
      assert (a + b)[0] == a[0];
      assert (a + b)[1..] == a[1..] + b;
      StripConcat(a[1..], b);
      if !IsMark(a[0]) {
        assert [a[0]] + (StripMarkers(a[1..]) + StripMarkers(b)) == ([a[0]] + StripMarkers(a[1..])) + StripMarkers(b);
      }
    } else {
      assert a + b == b;
    }
  }

  /** Digits pass through untouched. */
  lemma {:induction false} DigitsUnchanged(d: string)
    requires AllDigits(d)
    ensures StripMarkers(d) == d
  {
    if |d| > 0 {
      assert IsDigit(d[0]);
      DigitsUnchanged(d[1..]);
      assert d == [d[0]] + d[1..];
    }
  }

  /** The dot after a run of digits goes. */
  lemma DigitsThenDot(d: string)
    requires AllDigits(d)
    ensures StripMarkers(d + ".") == d
  {
    assert '-' !in d;
    StripConcat(d, ".");
    DigitsUnchanged(d);
    assert StripMarkers(".") == "" by { assert "."[1..] == ""; }
    assert d + "" == d;
  }

  /** The beta marker goes as a whole. */
  lemma BetaMarkerStripped()
    ensures StripMarkers("-beta") == ""
  {
    assert StartsWithIgnoringCase("-beta", "-beta");
    assert "-beta"[5..] == "";
  }

  /** `formatVersion`. */
  function FormatVersion(s: string): IntOrNaN {
    ParseInt(StripMarkers(s))
  }

  /** `compareVersion(localVersion, latestVersion)`: true when an update is
      needed. The decision chain of the source is kept branch for branch; the
      postconditions say what it amounts to. */
  function CompareVersion(local: string, latest: string): (r: bool)
    ensures local == latest ==> !r
    ensures FormatVersion(local).NaN? || FormatVersion(latest).NaN? ==> !r
    ensures r <==>
      && FormatVersion(local).Int? && FormatVersion(latest).Int?
      && (|| FormatVersion(local).v < FormatVersion(latest).v
          || (FormatVersion(local).v == FormatVersion(latest).v && IsBeta(local) && !IsBeta(latest)))
  {
    if local == latest then false
    else
      var localBeta := IsBeta(local);
      var latestBeta := IsBeta(latest);
      var localNumber := FormatVersion(local);
      var latestNumber := FormatVersion(latest);
      if StrictEquals(localNumber, latestNumber) && localBeta && !latestBeta then true
      else if StrictEquals(localNumber, latestNumber) && !localBeta && latestBeta then false
      else if AtLeast(localNumber, latestNumber) then false
      else if LessThan(localNumber, latestNumber) then true
      else false
  }

  /** The same number, a beta installed and a release published: update. */
  lemma BetaToRelease(local: string, latest: string)
    requires StrictEquals(FormatVersion(local), FormatVersion(latest))
    requires IsBeta(local) && !IsBeta(latest)
    ensures CompareVersion(local, latest)
  {
  }

  /** The same number, a release installed and a beta published: no update. */
  lemma ReleaseToBeta(local: string, latest: string)
    requires StrictEquals(FormatVersion(local), FormatVersion(latest))
    requires !IsBeta(local) && IsBeta(latest)
    ensures !CompareVersion(local, latest)
  {
  }

  /** A string without a `-` carries no beta marker. */
  lemma NoDashNoBeta(s: string)
    requires '-' !in s
    ensures !IsBeta(s)
  {
  }

  lemma StripExamples()
    ensures StripMarkers("1.2.0-beta") == "120"
    ensures StripMarkers("1.2.0") == "120"
    ensures StripMarkers("1.1.0") == "110"
  {
    StripBetaExample();
    StripReleaseExamples();
  }

  lemma StripLastDigit()
    ensures StripMarkers(".0") == "0"
    ensures StripMarkers(".0-beta") == "0"
  {
    assert StripMarkers("") == "";
    assert StripMarkers("-beta") == "" by {
      assert StartsWithIgnoringCase("-beta", "-beta");
      assert "-beta"[5..] == "";
    }
    assert StripMarkers("0-beta") == "0" by {
      assert "0-beta"[1..] == "-beta";
    }
    assert StripMarkers("0") == "0";
    assert StripMarkers(".0") == "0" by { assert ".0"[1..] == "0"; }
    assert StripMarkers(".0-beta") == "0" by { assert ".0-beta"[1..] == "0-beta"; }
  }

  lemma StripBetaExample()
    ensures StripMarkers("1.2.0-beta") == "120"
  {
    StripBetaTail();
    assert !StartsWithIgnoringCase("1.2.0-beta", "-beta");
    assert "1.2.0-beta"[1..] == ".2.0-beta";
  }

  lemma StripBetaTail()
    ensures StripMarkers(".2.0-beta") == "20"
  {
    StripLastDigit();
    assert StripMarkers("2.0-beta") == "20" by {
      assert !StartsWithIgnoringCase("2.0-beta", "-beta");
      assert "2.0-beta"[1..] == ".0-beta";
    }
    assert ".2.0-beta"[1..] == "2.0-beta";
  }

  lemma StripReleaseExamples()
    ensures StripMarkers("1.2.0") == "120"
    ensures StripMarkers("1.1.0") == "110"
  {
    StripReleaseTails();
    assert "1.2.0"[1..] == ".2.0";
    assert "1.1.0"[1..] == ".1.0";
  }

  lemma StripReleaseTails()
    ensures StripMarkers(".2.0") == "20"
    ensures StripMarkers(".1.0") == "10"
  {
    StripLastDigit();
    assert StripMarkers("2.0") == "20" by { assert "2.0"[1..] == ".0"; }
    assert StripMarkers("1.0") == "10" by { assert "1.0"[1..] == ".0"; }
    assert ".2.0"[1..] == "2.0";
    assert ".1.0"[1..] == "1.0";
  }

  lemma DecimalExamples()
    ensures NatToDecimal(120) == "120"
    ensures NatToDecimal(110) == "110"
  {
    assert NatToDecimal(1) == "1";
    assert NatToDecimal(12) == "12" by { assert DigitChar(2) == '2'; }
    assert NatToDecimal(11) == "11" by { assert DigitChar(1) == '1'; }
    assert DigitChar(0) == '0';
  }

  lemma ParseExamples()
    ensures ParseInt("120") == Int(120)
    ensures ParseInt("110") == Int(110)
  {
    DecimalExamples();
    ParseIntRoundTrip(120);
    ParseIntRoundTrip(110);
  }

  /** The decision table, on concrete versions. */
  lemma Examples()
    ensures !CompareVersion("1.2.0", "1.2.0")
    ensures CompareVersion("1.2.0-beta", "1.2.0")
    ensures !CompareVersion("1.2.0", "1.2.0-beta")
    ensures CompareVersion("1.1.0", "1.2.0")
  {
    assert StartsWithIgnoringCase("1.2.0-beta"[5..], "-beta");
    NoDashNoBeta("1.2.0");
    NoDashNoBeta("1.1.0");
    StripExamples();
    ParseExamples();
  }
}
