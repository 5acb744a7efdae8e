/**
 * The `modified` timestamps of a dataset, as the publisher uses them once
 * `toPython()` has turned the literal into a `datetime`: compared with `>`
 * (ipfs_lod.py:44) and formatted with `strftime("%Y_%m_%d_%H:%M:%S")`
 * (ipfs_lod.py:64). Time zones are not modelled.
 */
module Timestamps {

  /** A naive date-time, field by field. */
  datatype Timestamp = Timestamp(year: int, month: int, day: int,
                                 hour: int, minute: int, second: int,
                                 microsecond: int)

  /** The ranges a `datetime` keeps its fields in (month lengths are not checked). */
  predicate Valid(t: Timestamp) {
    1 <= t.year <= 9999 && 1 <= t.month <= 12 && 1 <= t.day <= 31 &&
    0 <= t.hour < 24 && 0 <= t.minute < 60 && 0 <= t.second < 60 &&
    0 <= t.microsecond < 1000000
  }

  /** A timestamp whose year `%Y` prints with exactly four digits. */
  predicate FourDigitYear(t: Timestamp) {
    Valid(t) && 1000 <= t.year
  }

  /** All fields, most significant first: the order `datetime` compares them in. */
  function Fields(t: Timestamp): (f: seq<int>)
    ensures |f| == 7
  {
    [t.year, t.month, t.day, t.hour, t.minute, t.second, t.microsecond]
  }

  /** The fields the folder-name format shows (no microseconds). */
  function DateFields(t: Timestamp): (f: seq<int>)
    ensures |f| == 6 && f == Fields(t)[..6]
  {
    [t.year, t.month, t.day, t.hour, t.minute, t.second]
  }

  /** `a < b` on datetimes: the first field, most significant first, where they differ decides. */
  predicate Before(a: Timestamp, b: Timestamp) {
    a.year < b.year || (a.year == b.year &&
    (a.month < b.month || (a.month == b.month &&
    (a.day < b.day || (a.day == b.day &&
    (a.hour < b.hour || (a.hour == b.hour &&
    (a.minute < b.minute || (a.minute == b.minute &&
    (a.second < b.second || (a.second == b.second &&
    a.microsecond < b.microsecond)))))))))))
  }

  /** Lexicographic "strictly less" on equally long sequences of integers. */
  function LexLess(x: seq<int>, y: seq<int>): bool
    requires |x| == |y|
  {
    |x| > 0 && (x[0] < y[0] || (x[0] == y[0] && LexLess(x[1..], y[1..])))
  }

  lemma LexLessCons(h: int, k: int, x: seq<int>, y: seq<int>)
    requires |x| == |y|
    ensures LexLess([h] + x, [k] + y) == (h < k || (h == k && LexLess(x, y)))
  {
    assert ([h] + x)[1..] == x && ([k] + y)[1..] == y;
  }

  /** `Before` is the lexicographic order of the fields, as `datetime` compares them. */
  lemma BeforeLexicographic(a: Timestamp, b: Timestamp)
    ensures Before(a, b) <==> LexLess(Fields(a), Fields(b))
  {
    var x6, y6 := [a.microsecond], [b.microsecond];
    LexLessCons(a.microsecond, b.microsecond, [], []);
    var x5, y5 := [a.second] + x6, [b.second] + y6;
    LexLessCons(a.second, b.second, x6, y6);
    var x4, y4 := [a.minute] + x5, [b.minute] + y5;
    LexLessCons(a.minute, b.minute, x5, y5);
    var x3, y3 := [a.hour] + x4, [b.hour] + y4;
    LexLessCons(a.hour, b.hour, x4, y4);
    var x2, y2 := [a.day] + x3, [b.day] + y3;
    LexLessCons(a.day, b.day, x3, y3);
    var x1, y1 := [a.month] + x2, [b.month] + y2;
    LexLessCons(a.month, b.month, x2, y2);
    LexLessCons(a.year, b.year, x1, y1);
    assert [a.year] + x1 == Fields(a) && [b.year] + y1 == Fields(b);
  }

  /** `Before` is a strict total order, so "strictly newer" is well defined. */
  lemma BeforeStrictTotalOrder(a: Timestamp, b: Timestamp, c: Timestamp)
    ensures !Before(a, a)
    ensures Before(a, b) ==> !Before(b, a)
    ensures Before(a, b) && Before(b, c) ==> Before(a, c)
    ensures a == b || Before(a, b) || Before(b, a)
  {
  }

  function Pow10(w: nat): (p: nat)
    ensures p >= 1
  {
    if w == 0 then 1 else 10 * Pow10(w - 1)
  }

  predicate IsDigit(c: char) {
    '0' <= c <= '9'
  }

  function DigitChar(d: nat): (c: char)
    requires d < 10
    ensures IsDigit(c) && (c as int) - ('0' as int) == d
  {
    ('0' as int + d) as char
  }

  /** `n` zero-padded to `width` decimal digits, as `%m`, `%d`, `%H`, ... print it. */
  function Digits(n: nat, width: nat): (s: string)
    requires n < Pow10(width)
    ensures |s| == width
    ensures forall k :: 0 <= k < |s| ==> IsDigit(s[k])
  {
    if width == 0 then "" else Digits(n / 10, width - 1) + [DigitChar(n % 10)]
  }

  /** The number a string of decimal digits denotes. */
  function DecimalValue(s: string): int {
    if s == [] then 0
    else 10 * DecimalValue(s[..|s| - 1]) + ((s[|s| - 1] as int) - ('0' as int))
  }

  /** Zero-padding loses nothing: the digits read back as the number. */
  lemma {:induction false} DigitsRoundTrip(n: nat, width: nat)
    requires n < Pow10(width)
    ensures DecimalValue(Digits(n, width)) == n
  {
    if width > 0 {
      var s := Digits(n, width);
      assert s[..|s| - 1] == Digits(n / 10, width - 1);
      DigitsRoundTrip(n / 10, width - 1);
    }
  }

  /** `strftime("%Y_%m_%d_%H:%M:%S")` for a four-digit year. */
  function Format(t: Timestamp): (s: string)
    requires FourDigitYear(t)
    ensures |s| == 19
    ensures s[4] == '_' && s[7] == '_' && s[10] == '_' && s[13] == ':' && s[16] == ':'
  {
    Digits(t.year, 4) + "_" + Digits(t.month, 2) + "_" + Digits(t.day, 2) + "_" +
    Digits(t.hour, 2) + ":" + Digits(t.minute, 2) + ":" + Digits(t.second, 2)
  }

  /** At midnight the time part prints as zeros. */
  lemma FormatMidnight(t: Timestamp)
    requires FourDigitYear(t) && t.hour == 0 && t.minute == 0 && t.second == 0
    ensures Format(t)[10..] == "_00:00:00"
  {
    assert Digits(0, 2) == "00";
    var date := Digits(t.year, 4) + "_" + Digits(t.month, 2) + "_" + Digits(t.day, 2);
    assert Format(t) == date + "_00:00:00";
  }

  /** Reads the six numbers back out of a formatted timestamp. */
  function ReadStamp(s: string): seq<int>
    requires |s| >= 19
  {
    [DecimalValue(s[0..4]), DecimalValue(s[5..7]), DecimalValue(s[8..10]),
     DecimalValue(s[11..13]), DecimalValue(s[14..16]), DecimalValue(s[17..19])]
  }

  /** The formatted stamp: digits at fixed positions, `_` and `:` between them. */
  lemma FormatLayout(t: Timestamp)
    requires FourDigitYear(t)
    ensures var s := Format(t);
      s[0..4] == Digits(t.year, 4) && s[4] == '_' &&
      s[5..7] == Digits(t.month, 2) && s[7] == '_' &&
      s[8..10] == Digits(t.day, 2) && s[10] == '_' &&
      s[11..13] == Digits(t.hour, 2) && s[13] == ':' &&
      s[14..16] == Digits(t.minute, 2) && s[16] == ':' &&
      s[17..19] == Digits(t.second, 2)
  {
  }

  /** Formatting then reading back gives the date and time down to the second. */
  lemma FormatRoundTrip(t: Timestamp)
    requires FourDigitYear(t)
    ensures ReadStamp(Format(t)) == DateFields(t)
  {
    FormatLayout(t);
    DigitsRoundTrip(t.year, 4);
    DigitsRoundTrip(t.month, 2);
    DigitsRoundTrip(t.day, 2);
    DigitsRoundTrip(t.hour, 2);
    DigitsRoundTrip(t.minute, 2);
    DigitsRoundTrip(t.second, 2);
  }

  /** Equal formatted stamps mean equal timestamps up to microseconds. */
  lemma FormatInjective(a: Timestamp, b: Timestamp)
    requires FourDigitYear(a) && FourDigitYear(b)
    requires Format(a) == Format(b)
    ensures DateFields(a) == DateFields(b)
  {
    FormatRoundTrip(a);
    FormatRoundTrip(b);
  }

  /** The formatted stamp has only digits, `_` and `:`; in particular no `/`. */
  lemma FormatCharacters(t: Timestamp)
    requires FourDigitYear(t)
    ensures forall k :: 0 <= k < |Format(t)| ==> IsDigit(Format(t)[k]) || Format(t)[k] in "_:"
  {
    FormatLayout(t);
    var s := Format(t);
    forall k | 0 <= k < |s|
      ensures IsDigit(s[k]) || s[k] in "_:"
    {
      if k < 4 { assert s[k] == s[0..4][k]; }
      else if 5 <= k < 7 { assert s[k] == s[5..7][k - 5]; }
      else if 8 <= k < 10 { assert s[k] == s[8..10][k - 8]; }
      else if 11 <= k < 13 { assert s[k] == s[11..13][k - 11]; }
      else if 14 <= k < 16 { assert s[k] == s[14..16][k - 14]; }
      else if 17 <= k < 19 { assert s[k] == s[17..19][k - 17]; }
    }
  }
}
