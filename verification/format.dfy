/**
  `formatNumber` of app/views/utils/utils.js, which pads the components of a
  date to two digits: a number below 10 gets a `0` in front of its decimal
  form. `formatDate`, its only caller, reads the clock and the time zone and
  is not part of this model.
 */
module Format {
  import opened Js

  /** `formatNumber(number)` for an integer argument. */
  function FormatNumber(n: int): (r: string)
    ensures n >= 0 ==> 2 <= |r| && AllDigits(r) && ParseInt(r) == Int(n)
    ensures 0 <= n < 100 ==> |r| == 2
    ensures n >= 10 ==> r == IntToDecimal(n)
  {
    if n < 10 then
      PaddedFacts(n);
      "0" + IntToDecimal(n)
    else
      DecimalFacts(n);
      IntToDecimal(n)
  }

  /** A single digit with its `0` in front. */
  lemma PaddedFacts(n: int)
    ensures 0 <= n < 10 ==>
      var r := "0" + IntToDecimal(n);
      |r| == 2 && AllDigits(r) && ParseInt(r) == Int(n)
  {
    PaddedReadBack(n);
  }

  /** Numbers from 10 on print as they are. */
  lemma DecimalFacts(n: int)
    requires n >= 10
    ensures var r := IntToDecimal(n);
      2 <= |r| && AllDigits(r) && ParseInt(r) == Int(n) && (n < 100 ==> |r| == 2)
  {
    ParseIntRoundTrip(n);
    DecimalLength(n);
  }

  /** Numbers from 10 print with two digits at least, and below 100 with
      exactly two. */
  lemma DecimalLength(n: nat)
    requires n >= 10
    ensures |NatToDecimal(n)| >= 2
    ensures n < 100 ==> |NatToDecimal(n)| == 2
  {
    assert NatToDecimal(n) == NatToDecimal(n / 10) + [DigitChar(n % 10)];
  }

  lemma PaddedReadBack(n: int)
    ensures 0 <= n < 10 ==> ParseInt("0" + IntToDecimal(n)) == Int(n)
  {
    if 0 <= n < 10 {
      var r := "0" + IntToDecimal(n);
      assert r == "0" + [DigitChar(n)];
      assert r[..1] == "0";
      LeadingDigitsOf(r, "");
      assert r + "" == r;
      assert TrimStart(r) == r;
      assert r[..|r| - 1] == "0";
      assert DigitsValue("0") == 0 by { assert "0"[..0] == ""; }
      assert DigitsValue(r) == n;
      assert ParseSigned(r) == ParseDigits(r);
    }
  }

  /** Negative numbers are padded too, and the `0` in front hides them from
      `parseInt`: `formatNumber(-5)` is `"0-5"`, which reads back as 0. */
  lemma NegativeReadsAsZero(n: int)
    requires n < 0
    ensures ParseInt(FormatNumber(n)) == Int(0)
  {
    var d := NatToDecimal(-n);
    assert FormatNumber(n) == "0" + ("-" + d);
    ZeroThenRest("-" + d);
  }

  /** A `0` followed by anything but a digit reads as 0. */
  lemma ZeroThenRest(rest: string)
    requires |rest| > 0 ==> !IsDigit(rest[0])
    ensures ParseInt("0" + rest) == Int(0)
  {
    assert IntToDecimal(0) == "0" by { assert DigitChar(0) == '0'; }
    assert "" + IntToDecimal(0) + rest == "0" + rest;
    ParseIntOfDecimal("", 0, rest);
  }
}
