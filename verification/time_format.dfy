/** The tray tooltip's clock: `EyeRestApp._format_time` (main.py:226-229) turns a number of
    seconds into `MM:SS` by truncating it to an integer, splitting it with Python's floor
    `divmod` by 60 and printing both fields with the `02d` format. */
module TimeFormat {
  import opened Wrappers

  /** Python's `int(x)` on a float: truncation toward zero. */
  function Truncate(x: real): (n: int)
    ensures 0.0 <= x ==> 0 <= n && n as real <= x < n as real + 1.0
    ensures x < 0.0 ==> n <= 0 && n as real - 1.0 < x <= n as real
  {
    if 0.0 <= x then x.Floor else -((-x).Floor)
  }

  predicate IsDigit(c: char) {
    '0' <= c <= '9'
  }

  predicate AllDigits(s: string) {
    forall i :: 0 <= i < |s| ==> IsDigit(s[i])
  }

  function DigitValue(c: char): (d: nat)
    requires IsDigit(c)
    ensures d < 10
  {
    c as int - '0' as int
  }

  function DigitChar(d: nat): (c: char)
    requires d < 10
    ensures IsDigit(c) && DigitValue(c) == d
  {
    ('0' as int + d) as char
  }

  /** Decimal digits of `n`, most significant first, without leading zeros. */
  function Digits(n: nat): (s: string)
    ensures 1 <= |s| && AllDigits(s)
    ensures n < 10 ==> |s| == 1
    ensures 10 <= n < 100 ==> |s| == 2
    ensures 0 < n ==> s[0] != '0'
    decreases n
  {
    if n < 10 then [DigitChar(n)] else Digits(n / 10) + [DigitChar(n % 10)]
  }

  /** Reads a string of decimal digits back as a number (leading zeros allowed). */
  function ParseDigits(s: string): (n: nat)
    requires AllDigits(s)
    decreases |s|
  {
    if |s| == 0 then 0 else ParseDigits(s[..|s| - 1]) * 10 + DigitValue(s[|s| - 1])
  }

  lemma {:induction false} ParseDigitsOfDigits(n: nat)
    ensures ParseDigits(Digits(n)) == n
    decreases n
  {
    var s := Digits(n);
    if n < 10 {
      assert s[..|s| - 1] == [];
    } else {
      assert s[..|s| - 1] == Digits(n / 10);
      ParseDigitsOfDigits(n / 10);
    }
  }

  lemma {:induction false} ParseDigitsZeroPrefix(s: string)
    requires AllDigits(s)
    ensures AllDigits("0" + s) && ParseDigits("0" + s) == ParseDigits(s)
    decreases |s|
  {
    var t := "0" + s;
    if |s| == 0 {
      assert t[..|t| - 1] == [];
    } else {
      assert t[..|t| - 1] == "0" + s[..|s| - 1];
      ParseDigitsZeroPrefix(s[..|s| - 1]);
    }
  }

  /** Python's `format(n, "02d")`: at least two characters, zero-padded after the sign;
      a negative number already has two characters once its sign is written, so it is
      never padded. */
  function Pad2(n: int): (s: string)
    ensures 2 <= |s|
    ensures 0 <= n ==> AllDigits(s) && ParseDigits(s) == n
    ensures 0 <= n < 100 ==> |s| == 2
    ensures n < 0 ==> s[0] == '-' && AllDigits(s[1..]) && ParseDigits(s[1..]) == -n
    ensures 10 <= n ==> s[0] != '0'
    ensures n < 0 ==> s[1] != '0'
  {
    if n < 0 then
      ParseDigitsOfDigits(-n);
      assert ("-" + Digits(-n))[1..] == Digits(-n);
      "-" + Digits(-n)
    else if n < 10 then
      ParseDigitsOfDigits(n);
      ParseDigitsZeroPrefix(Digits(n));
      "0" + Digits(n)
    else
      ParseDigitsOfDigits(n);
      Digits(n)
  }

  /** `f"{minutes:02d}:{seconds:02d}"` after `divmod(n, 60)`. Dafny's `/` and `%` with the
      positive divisor 60 round toward negative infinity, as Python's `divmod` does. */
  function FormatClock(n: int): (t: string)
    ensures 5 <= |t| && t[|t| - 3] == ':'
    ensures 0 <= n < 6000 ==> |t| == 5
  {
    Pad2(n / 60) + ":" + Pad2(n % 60)
  }

  /** `_format_time(seconds)` for the float `seconds`. */
  function FormatTime(seconds: real): (t: string)
    ensures ParseClock(t) == Some(Truncate(seconds))
  {
    ParseClockOfFormatClock(Truncate(seconds));
    FormatClock(Truncate(seconds))
  }

  /** Reads a clock written by `FormatClock` back: an optionally negative minute field of
      digits, a colon, and exactly two digits of seconds. */
  function ParseClock(t: string): Option<int> {
    if |t| < 5 || t[|t| - 3] != ':' || !AllDigits(t[|t| - 2..]) then None
    else
      var mm := t[..|t| - 3];
      var ss := ParseDigits(t[|t| - 2..]);
      if AllDigits(mm) then Some(ParseDigits(mm) * 60 + ss)
      else if mm[0] == '-' && AllDigits(mm[1..]) then Some(ss - ParseDigits(mm[1..]) * 60)
      else None
  }

  /** The two fields of a clock, cut at its colon. */
  lemma ClockParts(p: string, q: string)
    requires 2 <= |p| && |q| == 2
    ensures var t := p + ":" + q;
      5 <= |t| && t[|t| - 3] == ':' && t[..|t| - 3] == p && t[|t| - 2..] == q
  {
    var t := p + ":" + q;
    assert t[..|t| - 3] == p;
    assert t[|t| - 2..] == q;
  }

  /** The clock loses nothing: every integer, negative ones included, is read back. */
  lemma ParseClockOfFormatClock(n: int)
    ensures ParseClock(FormatClock(n)) == Some(n)
  {
    var m, s := n / 60, n % 60;
    var p, q := Pad2(m), Pad2(s);
    ClockParts(p, q);
    assert AllDigits(q) && ParseDigits(q) == s;
    if m < 0 {
      assert !IsDigit(p[0]);
      assert ParseDigits(p[1..]) == -m;
      assert ParseClock(p + ":" + q) == Some(s - (-m) * 60);
    } else {
      assert AllDigits(p) && ParseDigits(p) == m;
      assert ParseClock(p + ":" + q) == Some(m * 60 + s);
    }
  }

  /** Distinct second counts are shown as distinct clocks. */
  lemma FormatClockInjective(m: int, n: int)
    requires FormatClock(m) == FormatClock(n)
    ensures m == n
  {
    ParseClockOfFormatClock(m);
    ParseClockOfFormatClock(n);
  }

  /** For a non-negative count the clock reads `M:S` with two or more digits of minutes and
      exactly two of seconds, `M*60 + S` is the count and `S` is below 60. */
  lemma FormatClockFields(n: int)
    requires 0 <= n
    ensures var t := FormatClock(n);
      var mm, ss := t[..|t| - 3], t[|t| - 2..];
      && 2 <= |mm| && AllDigits(mm)
      && |ss| == 2 && AllDigits(ss)
      && ParseDigits(mm) * 60 + ParseDigits(ss) == n
      && ParseDigits(ss) < 60
  {
    ClockParts(Pad2(n / 60), Pad2(n % 60));
  }

  /** The clock starts with a minus sign exactly when the count is negative. */
  lemma FormatClockSign(n: int)
    ensures FormatClock(n)[0] == '-' <==> n < 0
  {
    var p := Pad2(n / 60);
    assert FormatClock(n)[0] == p[0];
    if 0 <= n {
      assert IsDigit(p[0]);
    }
  }

  /** A count three seconds below zero splits into minute -1 and second 57, and the
      unpadded negative minute field makes the clock `-1:57`. */
  lemma FormatClockNegativeExample()
    ensures FormatClock(-3) == "-1:57"
  {
  }

  /** A fraction of a second either side of zero shows as `00:00`. */
  lemma FormatTimeNearZero(x: real)
    requires -1.0 < x < 1.0
    ensures FormatTime(x) == "00:00"
  {
    assert Truncate(x) == 0;
    assert Digits(0) == "0";
  }
}
