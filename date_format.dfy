/** chrono's `%Y-%m-%d` rendering of a date, restricted to years 0..9999 where
    every field has a fixed width, and the parser that undoes it. */
module DateFormat {
  import opened Optional
  import opened Calendar

  predicate IsDigit(c: char) {
    '0' <= c <= '9'
  }

  predicate AllDigits(s: string) {
    forall i :: 0 <= i < |s| ==> IsDigit(s[i])
  }

  function DigitChar(n: nat): (c: char)
    requires n < 10
    ensures IsDigit(c)
  {
    (n + '0' as int) as char
  }

  function DigitValue(c: char): (n: nat)
    requires IsDigit(c)
    ensures n < 10 && DigitChar(n) == c
  {
    c as int - '0' as int
  }

  function Pow10(k: nat): (p: nat)
    ensures p >= 1
  {
    if k == 0 then 1 else 10 * Pow10(k - 1)
  }

  /** The last `width` decimal digits of `n`, padded on the left with zeros. */
  function Pad(n: nat, width: nat): (s: string)
    ensures |s| == width && AllDigits(s)
  {
    if width == 0 then "" else Pad(n / 10, width - 1) + [DigitChar(n % 10)]
  }

  /** The number a string of decimal digits denotes. */
  function DigitsValue(s: string): nat
    requires AllDigits(s)
  {
    if s == [] then 0 else 10 * DigitsValue(s[..|s| - 1]) + DigitValue(s[|s| - 1])
  }

  /** Padding loses nothing when the number fits the width. */
  lemma {:induction false} DigitsValueOfPad(n: nat, width: nat)
    requires n < Pow10(width)
    ensures DigitsValue(Pad(n, width)) == n
  {
    if width > 0 {
      var init := Pad(n / 10, width - 1);
      var s := Pad(n, width);
      assert s == init + [DigitChar(n % 10)];
      assert s[..|s| - 1] == init && s[|s| - 1] == DigitChar(n % 10);
      assert n / 10 < Pow10(width - 1);
      DigitsValueOfPad(n / 10, width - 1);
      assert DigitsValue(s) == 10 * (n / 10) + n % 10;
    }
  }

  /** Every digit string is the padded rendering of its own value. */
  lemma {:induction false} PadOfDigitsValue(s: string)
    requires AllDigits(s)
    ensures DigitsValue(s) < Pow10(|s|)
    ensures Pad(DigitsValue(s), |s|) == s
  {
    if s != [] {
      var init := s[..|s| - 1];
      assert AllDigits(init);
      PadOfDigitsValue(init);
      var v := DigitsValue(s);
      assert v / 10 == DigitsValue(init) && v % 10 == DigitValue(s[|s| - 1]);
      assert s == init + [s[|s| - 1]];
    }
  }

  /** chrono's `date.format("%Y-%m-%d")` for a year in 0..9999. */
  function FormatDate(d: Date): string
    requires Valid(d)
  {
    Pad(d.year, 4) + "-" + Pad(d.month, 2) + "-" + Pad(d.day, 2)
  }

  /** Reads back a `YYYY-MM-DD` string; None unless it names a valid date. */
  function ParseDate(s: string): Option<Date> {
    if |s| == 10 && s[4] == '-' && s[7] == '-'
       && AllDigits(s[..4]) && AllDigits(s[5..7]) && AllDigits(s[8..])
    then
      var d := Date(DigitsValue(s[..4]), DigitsValue(s[5..7]), DigitsValue(s[8..]));
      if Valid(d) then Some(d) else None
    else
      None
  }

  /** Formatting is zero-padded to fields of 4, 2 and 2 digits and can be undone. */
  lemma FormatDateRoundTrip(d: Date)
    requires Valid(d)
    ensures |FormatDate(d)| == 10
    ensures ParseDate(FormatDate(d)) == Some(d)
  {
    var s := FormatDate(d);
    assert s[..4] == Pad(d.year, 4);
    assert s[5..7] == Pad(d.month, 2);
    assert s[8..] == Pad(d.day, 2);
    DigitsValueOfPad(d.year, 4);
    DigitsValueOfPad(d.month, 2);
    DigitsValueOfPad(d.day, 2);
  }

  /** Conversely, the only string that parses to `d` is its rendering. */
  lemma ParseDateCanonical(s: string, d: Date)
    requires ParseDate(s) == Some(d)
    ensures Valid(d) && FormatDate(d) == s
  {
    PadOfDigitsValue(s[..4]);
    PadOfDigitsValue(s[5..7]);
    PadOfDigitsValue(s[8..]);
    assert s == s[..4] + "-" + s[5..7] + "-" + s[8..];
  }

  lemma FormatDateExamples()
    ensures FormatDate(Date(2024, 3, 15)) == "2024-03-15"
    ensures FormatDate(Date(7, 12, 1)) == "0007-12-01"
  {
    PadYearExamples();
    PadFieldExamples();
    FormatDateExample(2024, 3, 15, "2024", "03", "15");
    FormatDateExample(7, 12, 1, "0007", "12", "01");
    DateTextExamples();
  }

  lemma DateTextExamples()
    ensures "2024" + "-" + "03" + "-" + "15" == "2024-03-15"
    ensures "0007" + "-" + "12" + "-" + "01" == "0007-12-01"
  {
  }

  lemma PadYearExamples()
    ensures Pad(2024, 4) == "2024" && Pad(7, 4) == "0007"
  {
    assert Pad(202, 3) == "202";
    assert Pad(0, 3) == "000";
  }

  lemma PadFieldExamples()
    ensures Pad(3, 2) == "03" && Pad(15, 2) == "15" && Pad(12, 2) == "12" && Pad(1, 2) == "01"
  {
  }

  /** Renders one concrete date field by field. */
  lemma FormatDateExample(y: nat, m: nat, d: nat, ys: string, ms: string, ds: string)
    requires Valid(Date(y, m, d))
    requires Pad(y, 4) == ys && Pad(m, 2) == ms && Pad(d, 2) == ds
    ensures FormatDate(Date(y, m, d)) == ys + "-" + ms + "-" + ds
  {
  }

}
