/**
 * The `formatTimestamp` helper shared by both JavaScript renderers: epoch seconds become a
 * `Date`, whose `toISOString` (section 21.4.4.36 of ECMA-262) has its `T` replaced by a space
 * and its `Z` by ` UTC`; anything that is not a valid date becomes `unknown`.
 */
module Timestamp {
  import opened Wrappers
  import opened Text
  import opened Js
  import opened Calendar

  const MsPerDay := 86400000
  /** The largest magnitude a time value may have (section 21.4.1.1 of ECMA-262). */
  const MaxTimeValue := 8640000000000000
  const Unknown := "unknown"

  /** `n` written in exactly `w` decimal digits, with leading zeros. */
  function Digits(n: int, w: nat): (s: string)
    requires 0 <= n < Pow10(w)
    ensures |s| == w && forall i :: 0 <= i < w ==> IsAsciiDigit(s[i])
  {
    if w == 0 then "" else Digits(n / 10, w - 1) + [DigitChar(n % 10)]
  }

  /** The number a string of decimal digits denotes. */
  function DigitsValue(s: string): int
    requires forall i :: 0 <= i < |s| ==> IsAsciiDigit(s[i])
  {
    if s == [] then 0 else DigitsValue(s[..|s| - 1]) * 10 + (s[|s| - 1] as int - '0' as int)
  }

  lemma {:induction false} DigitsRoundTrip(n: int, w: nat)
    requires 0 <= n < Pow10(w)
    ensures DigitsValue(Digits(n, w)) == n
  {
    if w > 0 {
      DigitsRoundTrip(n / 10, w - 1);
      var s := Digits(n, w);
      assert s[..|s| - 1] == Digits(n / 10, w - 1);
    }
  }

  /** Fixed-width digits compare as strings the way their numbers compare. */
  lemma {:induction false} DigitsOrder(a: int, b: int, w: nat)
    requires 0 <= a < b < Pow10(w)
    ensures StrLess(Digits(a, w), Digits(b, w))
  {
    assert w > 0;
    var da, db := Digits(a / 10, w - 1), Digits(b / 10, w - 1);
    if a / 10 < b / 10 {
      DigitsOrder(a / 10, b / 10, w - 1);
      StrLessEqualLength(da, db, [DigitChar(a % 10)], [DigitChar(b % 10)]);
    } else {
      StrLessCommonPrefix(da, [DigitChar(a % 10)], [DigitChar(b % 10)]);
    }
  }

  /** One zero-padded numeric field of the ISO format and the separator written before it. */
  datatype FieldSpec = FieldSpec(prefix: string, value: int, width: nat)

  predicate Fits(fs: seq<FieldSpec>) {
    forall i :: 0 <= i < |fs| ==> 0 <= fs[i].value < Pow10(fs[i].width)
  }

  /** The fields written one after another, each after its separator. */
  function Layout(fs: seq<FieldSpec>): string
    requires Fits(fs)
  {
    if fs == [] then "" else fs[0].prefix + Digits(fs[0].value, fs[0].width) + Layout(fs[1..])
  }

  /** Same separators and widths, possibly different values. */
  predicate SameShape(f: seq<FieldSpec>, g: seq<FieldSpec>) {
    |f| == |g| && forall i :: 0 <= i < |f| ==> f[i].prefix == g[i].prefix && f[i].width == g[i].width
  }

  /** The values of `f` and `g` agree before position `k` and `f`'s is smaller at `k`. */
  predicate LessAt(f: seq<FieldSpec>, g: seq<FieldSpec>, k: int) {
    0 <= k < |f| && k < |g| && f[k].value < g[k].value
    && forall j :: 0 <= j < k ==> f[j].value == g[j].value
  }

  lemma {:induction false} LayoutLength(f: seq<FieldSpec>, g: seq<FieldSpec>)
    requires Fits(f) && Fits(g) && SameShape(f, g)
    ensures |Layout(f)| == |Layout(g)|
  {
    if f != [] {
      LayoutLength(f[1..], g[1..]);
    }
  }

  /** Layouts of the same shape compare as strings the way their values compare
    * lexicographically. */
  lemma {:induction false} LayoutOrder(f: seq<FieldSpec>, g: seq<FieldSpec>, k: int)
    requires Fits(f) && Fits(g) && SameShape(f, g) && LessAt(f, g, k)
    ensures StrLess(Layout(f), Layout(g))
  {
    var p := f[0].prefix;
    var df, dg := Digits(f[0].value, f[0].width), Digits(g[0].value, g[0].width);
    var rf, rg := Layout(f[1..]), Layout(g[1..]);
    assert Layout(f) == p + (df + rf);
    assert Layout(g) == p + (dg + rg);
    StrLessCommonPrefix(p, df + rf, dg + rg);
    if k == 0 {
      DigitsOrder(f[0].value, g[0].value, f[0].width);
      StrLessEqualLength(df, dg, rf, rg);
    } else {
      assert LessAt(f[1..], g[1..], k - 1);
      LayoutOrder(f[1..], g[1..], k - 1);
      StrLessCommonPrefix(df, rf, rg);
    }
  }

  /** Layouts of the same shape are equal only when their values are. */
  lemma {:induction false} LayoutInjective(f: seq<FieldSpec>, g: seq<FieldSpec>)
    requires Fits(f) && Fits(g) && SameShape(f, g) && Layout(f) == Layout(g)
    ensures forall i :: 0 <= i < |f| ==> f[i].value == g[i].value
  {
    if f != [] {
      var p := f[0].prefix;
      var df, dg := Digits(f[0].value, f[0].width), Digits(g[0].value, g[0].width);
      var rf, rg := Layout(f[1..]), Layout(g[1..]);
      assert Layout(f) == p + df + rf;
      assert Layout(g) == p + dg + rg;
      LayoutLength(f[1..], g[1..]);
      assert df == Layout(f)[|p|..|p| + |df|] == Layout(g)[|p|..|p| + |dg|] == dg;
      assert rf == Layout(f)[|p| + |df|..] == Layout(g)[|p| + |dg|..] == rg;
      DigitsRoundTrip(f[0].value, f[0].width);
      DigitsRoundTrip(g[0].value, g[0].width);
      LayoutInjective(f[1..], g[1..]);
      forall i | 1 <= i < |f| ensures f[i].value == g[i].value {
        assert f[1..][i - 1] == f[i] && g[1..][i - 1] == g[i];
      }
    }
  }

  /** A character that is neither a digit nor in any separator does not occur in the layout. */
  lemma {:induction false} LayoutAvoids(fs: seq<FieldSpec>, c: char)
    requires Fits(fs) && !IsAsciiDigit(c)
    requires forall i :: 0 <= i < |fs| ==> c !in fs[i].prefix
    ensures c !in Layout(fs)
  {
    if fs != [] {
      LayoutAvoids(fs[1..], c);
      var d := Digits(fs[0].value, fs[0].width);
      assert c !in d;
      assert Layout(fs) == fs[0].prefix + d + Layout(fs[1..]);
    }
  }

  /** A time value split into the components `toISOString` prints. */
  datatype Instant = Instant(date: Date, hour: int, minute: int, second: int, millisecond: int)

  /** ECMA-262 MakeDate(MakeDay(...), MakeTime(...)) for in-range components. */
  function InstantMillis(i: Instant): int
    requires 1 <= i.date.month <= 12
  {
    DaysFromCivil(i.date) * MsPerDay + i.hour * 3600000 + i.minute * 60000 + i.second * 1000 + i.millisecond
  }

  predicate ValidInstant(i: Instant) {
    ValidDate(i.date) && 0 <= i.hour < 24 && 0 <= i.minute < 60 && 0 <= i.second < 60
    && 0 <= i.millisecond < 1000
  }

  /** ECMA-262 YearFromTime, MonthFromTime, DateFromTime, HourFromTime, MinFromTime,
    * SecFromTime and msFromTime of a time value: valid components that denote it. */
  function InstantOf(ms: int): (i: Instant)
    ensures ValidInstant(i) && InstantMillis(i) == ms
    ensures -MaxTimeValue <= ms <= MaxTimeValue ==> -1000000 < i.date.year < 1000000
  {
    var t := ms % MsPerDay;
    var secs := t / 1000;
    var mins := secs / 60;
    TimeOfDaySplit(t);
    DayBound(ms);
    Instant(CivilFromDays(ms / MsPerDay), mins / 60, mins % 60, secs % 60, t % 1000)
  }

  /** A time within the day in hours, minutes, seconds and milliseconds. */
  lemma TimeOfDaySplit(t: int)
    requires 0 <= t < MsPerDay
    ensures var secs := t / 1000; var mins := secs / 60;
      0 <= mins / 60 < 24
      && t == mins / 60 * 3600000 + mins % 60 * 60000 + secs % 60 * 1000 + t % 1000
  {
    var secs := t / 1000;
    var mins := secs / 60;
    assert t == 1000 * secs + t % 1000;
    assert secs == 60 * mins + secs % 60;
    assert mins == 60 * (mins / 60) + mins % 60;
    assert secs < 86400;
  }

  /** Time values in range lie in years of at most six digits. */
  lemma DayBound(ms: int)
    ensures ms == ms / MsPerDay * MsPerDay + ms % MsPerDay
    ensures -MaxTimeValue <= ms <= MaxTimeValue ==>
      var n := ms / MsPerDay + 719162;
      -2500 < n / 146097 && 400 * (n / 146097) + 400 < 1000000
  {
  }

  /** Valid components are recovered from the time value they denote. */
  lemma InstantRoundTrip(i: Instant)
    requires ValidInstant(i)
    ensures InstantOf(InstantMillis(i)) == i
  {
    var ms := InstantMillis(i);
    var t := i.hour * 3600000 + i.minute * 60000 + i.second * 1000 + i.millisecond;
    assert ms / MsPerDay == DaysFromCivil(i.date);
    CivilRoundTrip(i.date);
  }

  /** The year a time value falls in. */
  function YearOf(ms: int): int {
    InstantOf(ms).date.year
  }

  /** The year as `toISOString` writes it: four digits for 0..9999, otherwise a sign and six
    * digits. */
  function YearText(y: int): (s: string)
    requires -1000000 < y < 1000000
    ensures 0 <= y <= 9999 ==> |s| == 4 && s == Digits(y, 4)
    ensures !(0 <= y <= 9999) ==> |s| == 7 && s[0] == (if y < 0 then '-' else '+')
    ensures forall k :: 0 <= k < |s| ==> IsAsciiDigit(s[k]) || s[k] == '-' || s[k] == '+'
  {
    if 0 <= y <= 9999 then Digits(y, 4)
    else (if y < 0 then "-" else "+") + Digits(if y < 0 then -y else y, 6)
  }

  lemma YearTextInjective(y1: int, y2: int)
    requires -1000000 < y1 < 1000000 && -1000000 < y2 < 1000000
    requires YearText(y1) == YearText(y2)
    ensures y1 == y2
  {
    var s := YearText(y1);
    if 0 <= y1 <= 9999 {
      DigitsRoundTrip(y1, 4);
      DigitsRoundTrip(y2, 4);
    } else {
      var a1 := if y1 < 0 then -y1 else y1;
      var a2 := if y2 < 0 then -y2 else y2;
      assert s[1..] == Digits(a1, 6) == Digits(a2, 6);
      DigitsRoundTrip(a1, 6);
      DigitsRoundTrip(a2, 6);
    }
  }

  /** Month and day, each after a `-`. */
  function DateFields(i: Instant): (fs: seq<FieldSpec>)
    requires ValidInstant(i)
    ensures Fits(fs)
  {
    [FieldSpec("-", i.date.month, 2), FieldSpec("-", i.date.day, 2)]
  }

  /** Hours, minutes, seconds and milliseconds, the hours after `lead`. */
  function TimeFields(i: Instant, lead: string): (fs: seq<FieldSpec>)
    requires ValidInstant(i)
    ensures Fits(fs)
  {
    [FieldSpec(lead, i.hour, 2), FieldSpec(":", i.minute, 2), FieldSpec(":", i.second, 2),
     FieldSpec(".", i.millisecond, 3)]
  }

  /** The date fields read `-MM-DD`. */
  lemma DateLayout(i: Instant)
    requires ValidInstant(i)
    ensures Layout(DateFields(i)) == "-" + Digits(i.date.month, 2) + "-" + Digits(i.date.day, 2)
  {
    var fs := DateFields(i);
    assert Layout(fs[1..][1..]) == "";
    assert Layout(fs[1..]) == "-" + Digits(i.date.day, 2) + "";
  }

  /** The time fields read `HH:mm:ss.sss` after `lead`. */
  lemma TimeLayout(i: Instant, lead: string)
    requires ValidInstant(i)
    ensures Layout(TimeFields(i, lead))
      == lead + Digits(i.hour, 2) + ":" + Digits(i.minute, 2) + ":" + Digits(i.second, 2)
         + "." + Digits(i.millisecond, 3)
  {
    var fs := TimeFields(i, lead);
    var r := fs[1..];
    assert Layout(r[1..][1..][1..]) == "";
    assert Layout(r[1..][1..]) == "." + Digits(i.millisecond, 3) + "";
    assert Layout(r[1..]) == ":" + Digits(i.second, 2) + ("." + Digits(i.millisecond, 3));
    assert Layout(r) == ":" + Digits(i.minute, 2) + (":" + Digits(i.second, 2) + "." + Digits(i.millisecond, 3));
  }

  /** Components `toISOString` can print: valid, with a year of at most six digits. */
  predicate Printable(i: Instant) {
    ValidInstant(i) && -1000000 < i.date.year < 1000000
  }

  /** `Date.prototype.toISOString`: `YYYY-MM-DDTHH:mm:ss.sssZ`. */
  function IsoString(i: Instant): string
    requires Printable(i)
  {
    YearText(i.date.year) + Layout(DateFields(i)) + "T" + Layout(TimeFields(i, "")) + "Z"
  }

  /** `toISOString().replace('T', ' ').replace('Z', ' UTC')`. */
  function FormatInstant(i: Instant): string
    requires Printable(i)
  {
    ReplaceFirst(ReplaceFirst(IsoString(i), 'T', " "), 'Z', " UTC")
  }

  /** The formatted text of a valid time value. */
  function FormatMillis(ms: int): string
    requires -MaxTimeValue <= ms <= MaxTimeValue
  {
    FormatInstant(InstantOf(ms))
  }

  /** What the two replacements leave: the date, a space, the time and ` UTC`. */
  lemma FormatInstantShape(i: Instant)
    requires Printable(i)
    ensures FormatInstant(i)
      == YearText(i.date.year) + (Layout(DateFields(i)) + (" " + (Layout(TimeFields(i, "")) + " UTC")))
  {
    var y, d, t := YearText(i.date.year), Layout(DateFields(i)), Layout(TimeFields(i, ""));
    LayoutAvoids(DateFields(i), 'T');
    LayoutAvoids(DateFields(i), 'Z');
    LayoutAvoids(TimeFields(i, ""), 'Z');
    ReplaceTwice(y, d, t, 'T', 'Z', " ", " UTC");
  }

  /** Every formatted time is 27 characters long for years 0..9999 and 30 otherwise. */
  lemma FormatMillisLength(ms: int)
    requires -MaxTimeValue <= ms <= MaxTimeValue
    ensures |FormatMillis(ms)| == if 0 <= YearOf(ms) <= 9999 then 27 else 30
  {
    var i := InstantOf(ms);
    FormatInstantShape(i);
    DateLayout(i);
    TimeLayout(i, "");
  }

  /** Lexicographic order on (date, hour, minute, second, millisecond). */
  predicate InstantLess(i1: Instant, i2: Instant) {
    DateLess(i1.date, i2.date)
    || (i1.date == i2.date && ClockLess(i1, i2))
  }

  predicate ClockLess(i1: Instant, i2: Instant) {
    i1.hour < i2.hour
    || (i1.hour == i2.hour && i1.minute < i2.minute)
    || (i1.hour == i2.hour && i1.minute == i2.minute && i1.second < i2.second)
    || (i1.hour == i2.hour && i1.minute == i2.minute && i1.second == i2.second
        && i1.millisecond < i2.millisecond)
  }

  lemma ClockOrder(i1: Instant, i2: Instant)
    requires ValidInstant(i1) && ValidInstant(i2)
    requires i1.hour * 3600000 + i1.minute * 60000 + i1.second * 1000 + i1.millisecond
           < i2.hour * 3600000 + i2.minute * 60000 + i2.second * 1000 + i2.millisecond
    ensures ClockLess(i1, i2)
  {
  }

  lemma SameDayOrder(ms1: int, ms2: int)
    requires ms1 < ms2 && ms1 / MsPerDay == ms2 / MsPerDay
    ensures ClockLess(InstantOf(ms1), InstantOf(ms2))
  {
    DayBound(ms1);
    DayBound(ms2);
    ClockOrder(InstantOf(ms1), InstantOf(ms2));
  }

  /** The components of an earlier time value come first lexicographically. */
  lemma InstantOrder(ms1: int, ms2: int)
    requires ms1 < ms2
    ensures InstantLess(InstantOf(ms1), InstantOf(ms2))
    ensures YearOf(ms1) <= YearOf(ms2)
  {
    var z1, z2 := ms1 / MsPerDay, ms2 / MsPerDay;
    DayBound(ms1);
    DayBound(ms2);
    assert z1 <= z2;
    if z1 < z2 {
      CivilFromDaysMonotone(z1, z2);
    } else {
      SameDayOrder(ms1, ms2);
    }
  }

  /** Instants in years 0..9999 format in their lexicographic order. */
  lemma FormatInstantOrder(i1: Instant, i2: Instant)
    requires ValidInstant(i1) && 0 <= i1.date.year <= 9999
    requires ValidInstant(i2) && 0 <= i2.date.year <= 9999
    requires InstantLess(i1, i2)
    ensures StrLess(FormatInstant(i1), FormatInstant(i2))
  {
    FormatInstantShape(i1);
    FormatInstantShape(i2);
    var y1, y2 := YearText(i1.date.year), YearText(i2.date.year);
    var df1, df2 := DateFields(i1), DateFields(i2);
    var tf1, tf2 := TimeFields(i1, ""), TimeFields(i2, "");
    var d1, d2, t1, t2 := Layout(df1), Layout(df2), Layout(tf1), Layout(tf2);
    LayoutLength(df1, df2);
    LayoutLength(tf1, tf2);
    if i1.date.year < i2.date.year {
      DigitsOrder(i1.date.year, i2.date.year, 4);
    } else if i1.date != i2.date {
      LayoutOrder(df1, df2, if i1.date.month < i2.date.month then 0 else 1);
    } else {
      var k := if i1.hour != i2.hour then 0
        else if i1.minute != i2.minute then 1
        else if i1.second != i2.second then 2
        else 3;
      LayoutOrder(tf1, tf2, k);
    }
    PiecesOrder(y1, d1, t1, y2, d2, t2, " ", " UTC");
  }

  /** Formatted texts with pieces of equal lengths compare by year, then date, then time. */
  lemma PiecesOrder(y1: string, d1: string, t1: string, y2: string, d2: string, t2: string,
                    sep: string, suffix: string)
    requires |y1| == |y2| && |d1| == |d2| && |t1| == |t2|
    requires StrLess(y1, y2) || (y1 == y2 && (StrLess(d1, d2) || (d1 == d2 && StrLess(t1, t2))))
    ensures StrLess(y1 + (d1 + (sep + (t1 + suffix))), y2 + (d2 + (sep + (t2 + suffix))))
  {
    var r1, r2 := d1 + (sep + (t1 + suffix)), d2 + (sep + (t2 + suffix));
    if StrLess(y1, y2) {
      StrLessEqualLength(y1, y2, r1, r2);
    } else {
      StrLessCommonPrefix(y1, r1, r2);
      if StrLess(d1, d2) {
        StrLessEqualLength(d1, d2, sep + (t1 + suffix), sep + (t2 + suffix));
      } else {
        StrLessCommonPrefix(d1, sep + (t1 + suffix), sep + (t2 + suffix));
        StrLessCommonPrefix(sep, t1 + suffix, t2 + suffix);
        StrLessEqualLength(t1, t2, suffix, suffix);
      }
    }
  }

  /** For years 0..9999 the formatted strings sort exactly like the time values: this is what
    * makes the renderers' string comparison of times chronological. */
  lemma FormatMillisOrder(ms1: int, ms2: int)
    requires -MaxTimeValue <= ms1 < ms2 <= MaxTimeValue
    requires 0 <= YearOf(ms1) <= 9999 && 0 <= YearOf(ms2) <= 9999
    ensures StrLess(FormatMillis(ms1), FormatMillis(ms2))
  {
    InstantOrder(ms1, ms2);
    FormatInstantOrder(InstantOf(ms1), InstantOf(ms2));
  }

  /** The pieces of two equal formatted texts are equal. */
  lemma PiecesCancel(y1: string, d1: string, t1: string, y2: string, d2: string, t2: string,
                     sep: string, suffix: string)
    requires y1 + (d1 + (sep + (t1 + suffix))) == y2 + (d2 + (sep + (t2 + suffix)))
    requires |d1| == |d2| && |t1| == |t2|
    ensures y1 == y2 && d1 == d2 && t1 == t2
  {
    ConcatCancel(y1, d1 + (sep + (t1 + suffix)), y2, d2 + (sep + (t2 + suffix)));
    ConcatCancel(d1, sep + (t1 + suffix), d2, sep + (t2 + suffix));
    ConcatCancel(sep, t1 + suffix, sep, t2 + suffix);
    ConcatCancel(t1, suffix, t2, suffix);
  }

  /** Distinct printable instants are formatted differently, extended years included. */
  lemma FormatInstantInjective(i1: Instant, i2: Instant)
    requires Printable(i1) && Printable(i2) && FormatInstant(i1) == FormatInstant(i2)
    ensures i1 == i2
  {
    FormatInstantShape(i1);
    FormatInstantShape(i2);
    var df1, df2 := DateFields(i1), DateFields(i2);
    var tf1, tf2 := TimeFields(i1, ""), TimeFields(i2, "");
    LayoutLength(df1, df2);
    LayoutLength(tf1, tf2);
    PiecesCancel(YearText(i1.date.year), Layout(df1), Layout(tf1),
                 YearText(i2.date.year), Layout(df2), Layout(tf2), " ", " UTC");
    YearTextInjective(i1.date.year, i2.date.year);
    LayoutInjective(df1, df2);
    LayoutInjective(tf1, tf2);
    assert df1[0].value == df2[0].value && df1[1].value == df2[1].value;
    assert tf1[0].value == tf2[0].value && tf1[1].value == tf2[1].value;
    assert tf1[2].value == tf2[2].value && tf1[3].value == tf2[3].value;
  }

  /** Distinct time values are formatted differently. */
  lemma FormatMillisInjective(ms1: int, ms2: int)
    requires -MaxTimeValue <= ms1 <= MaxTimeValue && -MaxTimeValue <= ms2 <= MaxTimeValue
    requires FormatMillis(ms1) == FormatMillis(ms2)
    ensures ms1 == ms2
  {
    FormatInstantInjective(InstantOf(ms1), InstantOf(ms2));
  }

  /** A four-digit year of at least 1000 does not start with `0`. */
  lemma YearTextFirst(y: int)
    requires 1000 <= y <= 9999
    ensures YearText(y)[0] != '0'
  {
    if YearText(y)[0] == '0' {
      DigitsLeadingZero(y, 4);
    }
  }

  /** The formatted text starts with the first character of the year. */
  lemma FormatInstantFirst(i: Instant)
    requires Printable(i)
    ensures FormatInstant(i)[0] == YearText(i.date.year)[0]
  {
    FormatInstantShape(i);
    var y := YearText(i.date.year);
  }

  /** A time value of year 10000 or later sorts before one of years 1000..9999: `+` precedes
    * every digit. Comparing formatted strings is chronological only inside years 0..9999. */
  lemma ExtendedYearSortsFirst(ms1: int, ms2: int)
    requires -MaxTimeValue <= ms1 <= MaxTimeValue && -MaxTimeValue <= ms2 <= MaxTimeValue
    requires 1000 <= YearOf(ms1) <= 9999 && YearOf(ms2) >= 10000
    ensures ms1 < ms2 && StrLess(FormatMillis(ms2), FormatMillis(ms1))
  {
    var i1, i2 := InstantOf(ms1), InstantOf(ms2);
    FormatInstantFirst(i1);
    FormatInstantFirst(i2);
    YearTextFirst(i1.date.year);
    YearOrder(ms1, ms2);
  }

  /** A later year means a later time value. */
  lemma YearOrder(ms1: int, ms2: int)
    requires YearOf(ms1) < YearOf(ms2)
    ensures ms1 < ms2
  {
    if ms2 < ms1 {
      InstantOrder(ms2, ms1);
      assert false;
    } else if ms2 == ms1 {
      assert false;
    }
  }

  /** A number of `w` digits whose first digit is 0 is below 10^(w-1). */
  lemma {:induction false} DigitsLeadingZero(n: int, w: nat)
    requires 0 < w && 0 <= n < Pow10(w)
    ensures Digits(n, w)[0] == '0' ==> n < Pow10(w - 1)
  {
    if w > 1 {
      DigitsLeadingZero(n / 10, w - 1);
      assert Digits(n, w)[0] == Digits(n / 10, w - 1)[0];
    }
  }

  /** ECMA-262 TimeClip of `x` milliseconds: no time value when `x` is not finite or exceeds
    * 8.64e15 in magnitude; otherwise `x` truncated toward zero. */
  function TimeClip(x: Number): (r: Option<int>)
    ensures r.Some? <==> x.Finite? && -MaxTimeValue as real <= x.r <= MaxTimeValue as real
    ensures r.Some? ==> -MaxTimeValue <= r.value <= MaxTimeValue
    ensures r.Some? && x.r >= 0.0 ==> r.value as real <= x.r < r.value as real + 1.0
    ensures r.Some? && x.r < 0.0 ==> r.value as real - 1.0 < x.r <= r.value as real
  {
    if !x.Finite? || x.r < -MaxTimeValue as real || x.r > MaxTimeValue as real then None
    else if x.r >= 0.0 then Some(x.r.Floor)
    else Some(-((-x.r).Floor))
  }

  /** `epochSeconds * 1000`, exactly. */
  function Times1000(x: Number): Number {
    match x
    case Finite(r) => Finite(r * 1000.0)
    case _ => x
  }

  /** The time value `new Date(epochSeconds * 1000)` holds, if it is a valid date. */
  function EpochMillis(epochSeconds: Value): (r: Option<int>)
    ensures r.Some? ==> -MaxTimeValue <= r.value <= MaxTimeValue
    ensures r.Some? <==> (epochSeconds.Num? && epochSeconds.n.Finite?
                          && -MaxTimeValue as real <= epochSeconds.n.r * 1000.0 <= MaxTimeValue as real)
  {
    if !epochSeconds.Num? || epochSeconds.n.NaN? then None else TimeClip(Times1000(epochSeconds.n))
  }

  /** `formatTimestamp`: `unknown` exactly when there is no valid date, otherwise the formatted
    * time value. */
  function FormatTimestamp(epochSeconds: Value): (r: string)
    ensures r == Unknown <==> EpochMillis(epochSeconds).None?
    ensures EpochMillis(epochSeconds).Some? ==> r == FormatMillis(EpochMillis(epochSeconds).value)
  {
    match EpochMillis(epochSeconds)
    case None => Unknown
    case Some(ms) =>
      FormatMillisLength(ms);
      FormatMillis(ms)
  }

  /** A known time is written with 27 characters for years 0 to 9999 and 30 otherwise. */
  lemma FormatTimestampLength(epochSeconds: Value)
    ensures var r := FormatTimestamp(epochSeconds);
            r == Unknown || (|r| == 27 && 0 <= YearOf(EpochMillis(epochSeconds).value) <= 9999)
            || (|r| == 30 && !(0 <= YearOf(EpochMillis(epochSeconds).value) <= 9999))
  {
    var ms := EpochMillis(epochSeconds);
    if ms.Some? {
      FormatMillisLength(ms.value);
    }
  }

  /** Times of valid dates in years 0..9999 sort, as formatted strings, in the order of the
    * epoch values they were made from. */
  lemma KnownTimesSortChronologically(a: Value, b: Value)
    requires EpochMillis(a).Some? && EpochMillis(b).Some?
    requires EpochMillis(a).value < EpochMillis(b).value
    requires 0 <= YearOf(EpochMillis(a).value) <= 9999 && 0 <= YearOf(EpochMillis(b).value) <= 9999
    ensures StrLess(FormatTimestamp(a), FormatTimestamp(b))
  {
    FormatMillisOrder(EpochMillis(a).value, EpochMillis(b).value);
  }

  /** 1700000000 epoch seconds is 14 November 2023, 22:13:20 UTC. */
  lemma FormatTimestampExample()
    ensures FormatTimestamp(Num(Finite(1700000000.0))) == "2023-11-14 22:13:20.000 UTC"
  {
    var i := Instant(Date(2023, 11, 14), 22, 13, 20, 0);
    assert EpochMillis(Num(Finite(1700000000.0))) == Some(1700000000000);
    ExampleInstant(i);
    ExampleText(i);
  }

  /** The product is exact here, not rounded to binary64. The double nearest 1700000000.123 is
    * 7130316800515899 / 4194304, whose exact product with 1000 truncates to ...122 ms, while
    * the binary64 product rounds to exactly 1700000000123. */
  lemma ExactProductExample()
    ensures EpochMillis(Num(Finite(7130316800515899.0 / 4194304.0))) == Some(1700000000122)
  {
    var x := 7130316800515899.0 / 4194304.0;
    assert x * 1000.0 == 891289600064487375.0 / 524288.0;
    assert 1700000000122.0 <= x * 1000.0 < 1700000000123.0;
  }

  lemma ExampleInstant(i: Instant)
    requires i == Instant(Date(2023, 11, 14), 22, 13, 20, 0)
    ensures InstantOf(1700000000000) == i
  {
    assert InstantMillis(i) == 1700000000000;
    InstantRoundTrip(i);
  }

  lemma ExampleText(i: Instant)
    requires i == Instant(Date(2023, 11, 14), 22, 13, 20, 0)
    ensures FormatInstant(i) == "2023-11-14 22:13:20.000 UTC"
  {
    var y, d, t := YearText(2023), Layout(DateFields(i)), Layout(TimeFields(i, ""));
    ExampleDigits();
    DateLayout(i);
    TimeLayout(i, "");
    ExampleLayouts(d, t, Digits(11, 2), Digits(14, 2), Digits(22, 2), Digits(13, 2), Digits(20, 2), Digits(0, 3));
    FormatInstantShape(i);
    ExamplePieces(FormatInstant(i), y, d, t);
  }

  lemma ExampleDigits()
    ensures YearText(2023) == "2023"
    ensures Digits(11, 2) == "11" && Digits(14, 2) == "14" && Digits(22, 2) == "22"
    ensures Digits(13, 2) == "13" && Digits(20, 2) == "20" && Digits(0, 3) == "000"
  {
    assert Digits(2023, 4) == "2023" by {
      assert Digits(2, 1) == "2";
      assert Digits(20, 2) == "20";
      assert Digits(202, 3) == "202";
    }
  }

  lemma ExampleLayouts(d: string, t: string, mo: string, da: string, h: string, mi: string, se: string, ms: string)
    requires d == "-" + mo + "-" + da && t == "" + h + ":" + mi + ":" + se + "." + ms
    requires mo == "11" && da == "14" && h == "22" && mi == "13" && se == "20" && ms == "000"
    ensures d == "-11-14" && t == "22:13:20.000"
  {
  }

  lemma ExamplePieces(f: string, y: string, d: string, t: string)
    requires f == y + (d + (" " + (t + " UTC")))
    requires y == "2023" && d == "-11-14" && t == "22:13:20.000"
    ensures f == "2023-11-14 22:13:20.000 UTC"
  {
  }
}
