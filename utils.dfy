/**
 * greater_than_days_cutoff of scripts/utils.py: parse the first 22
 * characters of a timestamp as `%Y-%m-%dT%H:%M:%S.%f`, take the whole days
 * elapsed from it to `now`, and compare them with the cutoff. The clock is a
 * parameter: `now` is the value `datetime.now()` returned.
 */
module Utils {
  import opened Results
  import opened Calendar

  /** Why the timestamp is refused; both are a ValueError in Python. */
  datatype ParseError =
    | FormatMismatch   // the text does not match the format ("does not match format")
    | OutOfRange       // it matches, but the date-time does not exist ("out of range")

  // ---------------------------------------------------------------------------
  // Decimal fields
  // ---------------------------------------------------------------------------

  predicate IsDigit(c: char) {
    '0' <= c <= '9'
  }

  predicate AllDigits(s: string) {
    forall i :: 0 <= i < |s| ==> IsDigit(s[i])
  }

  /** The number a string of decimal digits spells. */
  function DigitsValue(s: string): (n: nat)
    requires AllDigits(s)
  {
    if s == [] then 0 else DigitsValue(s[..|s| - 1]) * 10 + (s[|s| - 1] as int - '0' as int)
  }

  function Pow10(w: nat): (p: nat)
    ensures p >= 1
  {
    if w == 0 then 1 else 10 * Pow10(w - 1)
  }

  /** `n` written with exactly `w` digits, zero-padded on the left. */
  function FixedWidth(n: nat, w: nat): (s: string)
    ensures |s| == w && AllDigits(s)
  {
    if w == 0 then [] else FixedWidth(n / 10, w - 1) + [('0' as int + n % 10) as char]
  }

  lemma {:induction false} DigitsValueBound(s: string)
    requires AllDigits(s)
    ensures DigitsValue(s) < Pow10(|s|)
  {
    if s != [] {
      DigitsValueBound(s[..|s| - 1]);
    }
  }

  lemma Pow10Values()
    ensures Pow10(2) == 100 && Pow10(4) == 10000
  {
    assert Pow10(2) == 100;
  }

  /** Reading back a zero-padded number gives the number. */
  lemma {:induction false} DigitsValueOfFixedWidth(n: nat, w: nat)
    requires n < Pow10(w)
    ensures DigitsValue(FixedWidth(n, w)) == n
  {
    if w > 0 {
      var s := FixedWidth(n, w);
      assert s[..|s| - 1] == FixedWidth(n / 10, w - 1);
      DigitsValueOfFixedWidth(n / 10, w - 1);
    }
  }

  /** Writing back the value of a digit string gives the string. */
  lemma {:induction false} FixedWidthOfDigitsValue(s: string)
    requires AllDigits(s)
    ensures FixedWidth(DigitsValue(s), |s|) == s
  {
    if s != [] {
      var init := s[..|s| - 1];
      var d := s[|s| - 1] as int - '0' as int;
      assert DigitsValue(s) / 10 == DigitsValue(init) && DigitsValue(s) % 10 == d;
      FixedWidthOfDigitsValue(init);
      assert s == init + [s[|s| - 1]];
    }
  }

  // ---------------------------------------------------------------------------
  // datetime.strptime(text, '%Y-%m-%dT%H:%M:%S.%f') on the 22-character form
  // ---------------------------------------------------------------------------

  /** timestamp[0:22]: the whole string when it is shorter. */
  function Head(timestamp: string): (h: string)
    ensures |timestamp| >= 22 ==> h == timestamp[..22]
    ensures |timestamp| < 22 ==> h == timestamp
  {
    if |timestamp| >= 22 then timestamp[..22] else timestamp
  }

  /**
   * The fixed-width layout `YYYY-MM-DDTHH:MM:SS.ff`. The format is matched
   * ignoring case, so the separator `T` may also be written `t`.
   */
  predicate MatchesLayout(p: string) {
    && |p| == 22
    && AllDigits(p[0..4]) && p[4] == '-' && AllDigits(p[5..7]) && p[7] == '-'
    && AllDigits(p[8..10]) && (p[10] == 'T' || p[10] == 't')
    && AllDigits(p[11..13]) && p[13] == ':' && AllDigits(p[14..16]) && p[16] == ':'
    && AllDigits(p[17..19]) && p[19] == '.' && AllDigits(p[20..22])
  }

  /** The seven numbers of a well-laid-out timestamp, before any range check. */
  datatype Fields = Fields(year: nat, month: nat, day: nat, hour: nat, minute: nat, second: nat,
                           hundredths: nat)

  function ReadFields(p: string): (f: Fields)
    requires MatchesLayout(p)
    ensures f.year < 10000 && f.hundredths < 100
  {
    DigitsValueBound(p[0..4]);
    DigitsValueBound(p[20..22]);
    Fields(DigitsValue(p[0..4]), DigitsValue(p[5..7]), DigitsValue(p[8..10]),
           DigitsValue(p[11..13]), DigitsValue(p[14..16]), DigitsValue(p[17..19]),
           DigitsValue(p[20..22]))
  }

  /** The ranges the format's patterns accept, before the date is checked. */
  predicate InPattern(f: Fields) {
    1 <= f.month <= 12 && 1 <= f.day <= 31 && f.hour <= 23 && f.minute <= 59 && f.second <= 61
  }

  /**
   * From fields to a datetime: a pattern mismatch, a date-time that does not
   * exist (year 0, a day past the end of its month, second 60 or 61), or the
   * date-time, the two fraction digits being hundredths of a second.
   */
  function Convert(f: Fields): (r: Result<DateTime, ParseError>)
    requires f.year < 10000 && f.hundredths < 100
    ensures r.Ok? ==> Valid(r.value) && r.value.microsecond % 10000 == 0
    ensures r.Ok? <==> InPattern(f) && ValidDate(f.year, f.month, f.day) && f.second <= 59
    ensures r.Err? && !InPattern(f) ==> r.error == FormatMismatch
    ensures r.Err? && InPattern(f) ==> r.error == OutOfRange
  {
    if !InPattern(f) then Err(FormatMismatch)
    else if f.year < 1 || f.day > DaysInMonth(f.year, f.month) || f.second > 59 then Err(OutOfRange)
    else Ok(DateTime(f.year, f.month, f.day, f.hour, f.minute, f.second, f.hundredths * 10000))
  }

  /** strptime on the 22-character form. */
  function Strptime(p: string): (r: Result<DateTime, ParseError>)
    ensures !MatchesLayout(p) ==> r == Err(FormatMismatch)
    ensures r.Ok? ==> Valid(r.value) && r.value.microsecond % 10000 == 0
  {
    if !MatchesLayout(p) then Err(FormatMismatch) else Convert(ReadFields(p))
  }

  /** `YYYY-MM-DD`. */
  function DateText(y: nat, mo: nat, d: nat): (q: string)
    ensures |q| == 10
  {
    FixedWidth(y, 4) + "-" + FixedWidth(mo, 2) + "-" + FixedWidth(d, 2)
  }

  /** `HH:MM:SS.ff`. */
  function ClockText(h: nat, mi: nat, s: nat, f: nat): (q: string)
    ensures |q| == 11
  {
    FixedWidth(h, 2) + ":" + FixedWidth(mi, 2) + ":" + FixedWidth(s, 2) + "." + FixedWidth(f, 2)
  }

  /** The timestamp text of a date-time whose microseconds are whole hundredths. */
  function Format(t: DateTime): (p: string)
    requires Valid(t) && t.microsecond % 10000 == 0
    ensures |p| == 22
  {
    DateText(t.year, t.month, t.day) + "T"
    + ClockText(t.hour, t.minute, t.second, t.microsecond / 10000)
  }

  lemma {:induction false} DateTextFields(y: nat, mo: nat, d: nat)
    ensures var q := DateText(y, mo, d);
      q[0..4] == FixedWidth(y, 4) && q[4] == '-' && q[5..7] == FixedWidth(mo, 2) && q[7] == '-'
      && q[8..10] == FixedWidth(d, 2)
  {
    var ym := FixedWidth(y, 4) + "-" + FixedWidth(mo, 2);
    assert DateText(y, mo, d) == ym + ("-" + FixedWidth(d, 2));
  }

  lemma {:induction false} ClockTextFields(h: nat, mi: nat, s: nat, f: nat)
    ensures var q := ClockText(h, mi, s, f);
      q[0..2] == FixedWidth(h, 2) && q[2] == ':' && q[3..5] == FixedWidth(mi, 2) && q[5] == ':'
      && q[6..8] == FixedWidth(s, 2) && q[8] == '.' && q[9..11] == FixedWidth(f, 2)
  {
    var hm := FixedWidth(h, 2) + ":" + FixedWidth(mi, 2);
    var sf := ":" + FixedWidth(s, 2) + "." + FixedWidth(f, 2);
    assert ClockText(h, mi, s, f) == hm + sf;
    assert sf[1..3] == FixedWidth(s, 2) && sf[4..6] == FixedWidth(f, 2);
  }

  lemma {:induction false} FormatFields(t: DateTime)
    requires Valid(t) && t.microsecond % 10000 == 0
    ensures var p := Format(t);
      && p[0..4] == FixedWidth(t.year, 4) && p[4] == '-' && p[5..7] == FixedWidth(t.month, 2)
      && p[7] == '-' && p[8..10] == FixedWidth(t.day, 2) && p[10] == 'T'
      && p[11..13] == FixedWidth(t.hour, 2) && p[13] == ':' && p[14..16] == FixedWidth(t.minute, 2)
      && p[16] == ':' && p[17..19] == FixedWidth(t.second, 2) && p[19] == '.'
      && p[20..22] == FixedWidth(t.microsecond / 10000, 2)
  {
    var p := Format(t);
    var date := DateText(t.year, t.month, t.day);
    var clock := ClockText(t.hour, t.minute, t.second, t.microsecond / 10000);
    DateTextFields(t.year, t.month, t.day);
    ClockTextFields(t.hour, t.minute, t.second, t.microsecond / 10000);
    assert p[..10] == date && p[11..] == clock;
    assert p[0..4] == date[0..4] && p[5..7] == date[5..7] && p[8..10] == date[8..10];
    assert p[11..13] == clock[0..2] && p[14..16] == clock[3..5] && p[17..19] == clock[6..8]
      && p[20..22] == clock[9..11];
  }

  /** The fields of a valid date-time with whole hundredths, as the parser reads them. */
  function FieldsOf(t: DateTime): (f: Fields)
    requires Valid(t)
  {
    Fields(t.year, t.month, t.day, t.hour, t.minute, t.second, t.microsecond / 10000)
  }

  lemma {:induction false} ReadFieldsOfFormat(t: DateTime)
    requires Valid(t) && t.microsecond % 10000 == 0
    ensures MatchesLayout(Format(t)) && ReadFields(Format(t)) == FieldsOf(t)
  {
    FormatFields(t);
    Pow10Values();
    DigitsValueOfFixedWidth(t.year, 4);
    DigitsValueOfFixedWidth(t.month, 2);
    DigitsValueOfFixedWidth(t.day, 2);
    DigitsValueOfFixedWidth(t.hour, 2);
    DigitsValueOfFixedWidth(t.minute, 2);
    DigitsValueOfFixedWidth(t.second, 2);
    DigitsValueOfFixedWidth(t.microsecond / 10000, 2);
  }

  /** Every date-time the format can express parses back from its text. */
  lemma {:induction false} StrptimeFormat(t: DateTime)
    requires Valid(t) && t.microsecond % 10000 == 0
    ensures Strptime(Format(t)) == Ok(t)
  {
    ReadFieldsOfFormat(t);
    assert Convert(FieldsOf(t)) == Ok(t);
  }

  /** A well-laid-out text is its fields and separators, with `T` in either case. */
  lemma {:induction false} Reassemble(p: string)
    requires MatchesLayout(p)
    ensures p[..10] + "T" + p[11..] == p[0..4] + "-" + p[5..7] + "-" + p[8..10] + "T" + p[11..13] + ":"
                                      + p[14..16] + ":" + p[17..19] + "." + p[20..22]
  {
    assert p[..10] == p[0..4] + [p[4]] + p[5..7] + [p[7]] + p[8..10];
    assert p[11..] == p[11..13] + [p[13]] + p[14..16] + [p[16]] + p[17..19] + [p[19]] + p[20..22];
  }

  /** Whatever parses is the text of its date-time, up to the case of the `T`. */
  lemma {:induction false} FormatStrptime(p: string)
    requires Strptime(p).Ok?
    ensures Format(Strptime(p).value) == p[..10] + "T" + p[11..]
  {
    var t := Strptime(p).value;
    assert MatchesLayout(p);
    assert FieldsOf(t) == ReadFields(p);
    FixedWidthOfDigitsValue(p[0..4]);
    FixedWidthOfDigitsValue(p[5..7]);
    FixedWidthOfDigitsValue(p[8..10]);
    FixedWidthOfDigitsValue(p[11..13]);
    FixedWidthOfDigitsValue(p[14..16]);
    FixedWidthOfDigitsValue(p[17..19]);
    FixedWidthOfDigitsValue(p[20..22]);
    Reassemble(p);
  }

  /** February 29 converts exactly in leap years. */
  lemma LeapDayConverts(year: nat, hour: nat, minute: nat, second: nat, hundredths: nat)
    requires 1 <= year < 10000 && hour <= 23 && minute <= 59 && second <= 59 && hundredths < 100
    ensures Convert(Fields(year, 2, 29, hour, minute, second, hundredths)).Ok? <==> IsLeapYear(year)
  {
  }

  lemma {:induction false} TwoDigits(s: string)
    requires |s| == 2 && AllDigits(s)
    ensures DigitsValue(s) == 10 * (s[0] as int - '0' as int) + (s[1] as int - '0' as int)
  {
    var init := s[..1];
    assert init[..0] == [] && init[0] == s[0];
    assert DigitsValue(init) == s[0] as int - '0' as int;
  }

  lemma {:induction false} FourDigits(s: string)
    requires |s| == 4 && AllDigits(s)
    ensures DigitsValue(s) == 1000 * (s[0] as int - '0' as int) + 100 * (s[1] as int - '0' as int)
                              + 10 * (s[2] as int - '0' as int) + (s[3] as int - '0' as int)
  {
    assert s[..3][..2] == s[..2];
    TwoDigits(s[..2]);
  }

  /** The value of one decimal digit. */
  function Digit(c: char): (n: int) {
    c as int - '0' as int
  }

  /** The layout, character by character. */
  lemma {:induction false} LayoutByChar(p: string)
    requires |p| == 22
    requires forall i :: i in {0, 1, 2, 3, 5, 6, 8, 9, 11, 12, 14, 15, 17, 18, 20, 21} ==> IsDigit(p[i])
    requires p[4] == '-' && p[7] == '-' && (p[10] == 'T' || p[10] == 't')
    requires p[13] == ':' && p[16] == ':' && p[19] == '.'
    ensures MatchesLayout(p)
  {
    assert forall i :: 0 <= i < 4 ==> p[0..4][i] == p[i];
    assert forall i :: 0 <= i < 2 ==>
      (p[5..7][i] == p[5 + i] && p[8..10][i] == p[8 + i] && p[11..13][i] == p[11 + i]
       && p[14..16][i] == p[14 + i] && p[17..19][i] == p[17 + i] && p[20..22][i] == p[20 + i]);
  }

  /** The fields, character by character. */
  lemma {:induction false} FieldsByChar(p: string)
    requires MatchesLayout(p)
    ensures ReadFields(p) == Fields(
      1000 * Digit(p[0]) + 100 * Digit(p[1]) + 10 * Digit(p[2]) + Digit(p[3]),
      10 * Digit(p[5]) + Digit(p[6]), 10 * Digit(p[8]) + Digit(p[9]),
      10 * Digit(p[11]) + Digit(p[12]), 10 * Digit(p[14]) + Digit(p[15]),
      10 * Digit(p[17]) + Digit(p[18]), 10 * Digit(p[20]) + Digit(p[21]))
  {
    FourDigits(p[0..4]);
    TwoDigits(p[5..7]);
    TwoDigits(p[8..10]);
    TwoDigits(p[11..13]);
    TwoDigits(p[14..16]);
    TwoDigits(p[17..19]);
    TwoDigits(p[20..22]);
  }

  /** 2023 is not a leap year: its February 29 is refused as out of range. */
  lemma {:induction false} NoLeapDay2023()
    ensures Strptime("2023-02-29T10:00:00.00") == Err(OutOfRange)
  {
    var p := "2023-02-29T10:00:00.00";
    LayoutByChar(p);
    FieldsByChar(p);
    assert ReadFields(p) == Fields(2023, 2, 29, 10, 0, 0, 0);
  }

  // ---------------------------------------------------------------------------
  // (now - last_update).days and the comparison
  // ---------------------------------------------------------------------------

  /** The `days` of `now - last`: the whole days elapsed, rounded down. */
  function ElapsedDays(now: DateTime, last: DateTime): (d: int)
    requires Valid(now) && Valid(last)
    ensures d * MicrosPerDay <= Micros(now) - Micros(last) < (d + 1) * MicrosPerDay
  {
    (Micros(now) - Micros(last)) / MicrosPerDay
  }

  /** greater_than_days_cutoff with the clock reading `now` passed in. */
  function GreaterThanDaysCutoff(timestamp: string, cutoff: int, now: DateTime): (r: Result<bool, ParseError>)
    requires Valid(now)
    ensures r.Err? <==> Strptime(Head(timestamp)).Err?
    ensures r.Err? ==> r.error == Strptime(Head(timestamp)).error
    ensures r.Ok? ==> r.value == (ElapsedDays(now, Strptime(Head(timestamp)).value) > cutoff)
  {
    match Strptime(Head(timestamp))
    case Err(e) => Err(e)
    case Ok(lastUpdate) => Ok(ElapsedDays(now, lastUpdate) > cutoff)
  }

  /** The floor is the only whole number of days that brackets the difference. */
  lemma {:induction false} ElapsedDaysUnique(now: DateTime, last: DateTime, k: int)
    requires Valid(now) && Valid(last)
    requires k * MicrosPerDay <= Micros(now) - Micros(last) < (k + 1) * MicrosPerDay
    ensures ElapsedDays(now, last) == k
  {
    var d := ElapsedDays(now, last);
    if d < k {
      MulMonotoneLe(d + 1, k);
    } else if d > k {
      MulMonotoneLe(k + 1, d);
    }
  }

  lemma MulMonotoneLe(a: int, b: int)
    requires a <= b
    ensures a * MicrosPerDay <= b * MicrosPerDay
  {
  }

  /** A timestamp later than `now` has a negative elapsed-day count. */
  lemma FutureIsNegative(now: DateTime, last: DateTime)
    requires Valid(now) && Valid(last) && Micros(now) < Micros(last)
    ensures ElapsedDays(now, last) < 0
  {
  }

  /** Less than one whole day before `now` counts as zero days. */
  lemma {:induction false} WithinADayIsZero(now: DateTime, last: DateTime)
    requires Valid(now) && Valid(last)
    requires 0 <= Micros(now) - Micros(last) < MicrosPerDay
    ensures ElapsedDays(now, last) == 0
  {
    ElapsedDaysUnique(now, last, 0);
  }

  /** A later `now` never has fewer elapsed days. */
  lemma {:induction false} ElapsedDaysMonotone(now1: DateTime, now2: DateTime, last: DateTime)
    requires Valid(now1) && Valid(now2) && Valid(last) && Micros(now1) <= Micros(now2)
    ensures ElapsedDays(now1, last) <= ElapsedDays(now2, last)
  {
    var d1, d2 := ElapsedDays(now1, last), ElapsedDays(now2, last);
    if d1 > d2 {
      MulMonotoneLe(d2 + 1, d1);
    }
  }

  /** Only the first 22 characters of the timestamp decide the result. */
  lemma OnlyHeadMatters(a: string, b: string, cutoff: int, now: DateTime)
    requires Valid(now) && Head(a) == Head(b)
    ensures GreaterThanDaysCutoff(a, cutoff, now) == GreaterThanDaysCutoff(b, cutoff, now)
  {
  }

  /** Whether the timestamp is refused does not depend on `now` or the cutoff. */
  lemma ParseFailureIgnoresClock(timestamp: string, c1: int, c2: int, now1: DateTime, now2: DateTime)
    requires Valid(now1) && Valid(now2)
    ensures GreaterThanDaysCutoff(timestamp, c1, now1).Err? <==> GreaterThanDaysCutoff(timestamp, c2, now2).Err?
  {
  }

  /** Elapsed days equal to the cutoff are not past it: the comparison is strict. */
  lemma AtCutoffIsNotPast(timestamp: string, cutoff: int, now: DateTime)
    requires Valid(now) && Strptime(Head(timestamp)).Ok?
    requires ElapsedDays(now, Strptime(Head(timestamp)).value) == cutoff
    ensures GreaterThanDaysCutoff(timestamp, cutoff, now) == Ok(false)
  {
  }

  /** Raising the cutoff can only turn true into false. */
  lemma CutoffMonotone(timestamp: string, c1: int, c2: int, now: DateTime)
    requires Valid(now) && c1 <= c2
    requires GreaterThanDaysCutoff(timestamp, c2, now) == Ok(true)
    ensures GreaterThanDaysCutoff(timestamp, c1, now) == Ok(true)
  {
  }

  /** Moving `now` later can only turn false into true. */
  lemma {:induction false} NowMonotone(timestamp: string, cutoff: int, now1: DateTime, now2: DateTime)
    requires Valid(now1) && Valid(now2) && Micros(now1) <= Micros(now2)
    requires GreaterThanDaysCutoff(timestamp, cutoff, now1) == Ok(true)
    ensures GreaterThanDaysCutoff(timestamp, cutoff, now2) == Ok(true)
  {
    ElapsedDaysMonotone(now1, now2, Strptime(Head(timestamp)).value);
  }

  /** The same, with `now` moved later in calendar terms. */
  lemma {:induction false} LaterNowMonotone(timestamp: string, cutoff: int, now1: DateTime, now2: DateTime)
    requires Valid(now1) && Valid(now2) && Before(now1, now2)
    requires GreaterThanDaysCutoff(timestamp, cutoff, now1) == Ok(true)
    ensures GreaterThanDaysCutoff(timestamp, cutoff, now2) == Ok(true)
  {
    BeforeIsEarlier(now1, now2);
    NowMonotone(timestamp, cutoff, now1, now2);
  }

  /** A timestamp less than a day old is never past a non-negative cutoff. */
  lemma {:induction false} RecentIsNeverPast(timestamp: string, cutoff: int, now: DateTime)
    requires Valid(now) && cutoff >= 0 && Strptime(Head(timestamp)).Ok?
    requires 0 <= Micros(now) - Micros(Strptime(Head(timestamp)).value) < MicrosPerDay
    ensures GreaterThanDaysCutoff(timestamp, cutoff, now) == Ok(false)
  {
    WithinADayIsZero(now, Strptime(Head(timestamp)).value);
  }

  lemma {:induction false} NewYear2023Parses()
    ensures Strptime("2023-01-01T00:00:00.00") == Ok(DateTime(2023, 1, 1, 0, 0, 0, 0))
  {
    var p := "2023-01-01T00:00:00.00";
    LayoutByChar(p);
    FieldsByChar(p);
    assert ReadFields(p) == Fields(2023, 1, 1, 0, 0, 0, 0);
  }

  /**
   * A timestamp with six fraction digits from New Year's Day 2023, checked
   * two days later against cutoff 0, is past the cutoff; checked exactly one
   * day later against cutoff 1 it is not.
   */
  lemma {:induction false} NewYear2023Example()
    ensures Strptime(Head("2023-01-01T00:00:00.00" + "0000")) == Ok(DateTime(2023, 1, 1, 0, 0, 0, 0))
    ensures GreaterThanDaysCutoff("2023-01-01T00:00:00.00" + "0000", 0, DateTime(2023, 1, 3, 0, 0, 0, 0)) == Ok(true)
    ensures GreaterThanDaysCutoff("2023-01-01T00:00:00.00" + "0000", 1, DateTime(2023, 1, 2, 0, 0, 0, 0)) == Ok(false)
  {
    assert Head("2023-01-01T00:00:00.00" + "0000") == "2023-01-01T00:00:00.00";
    NewYear2023Parses();
    OneAndTwoDaysLater();
  }

  lemma {:induction false} OneAndTwoDaysLater()
    ensures ElapsedDays(DateTime(2023, 1, 3, 0, 0, 0, 0), DateTime(2023, 1, 1, 0, 0, 0, 0)) == 2
    ensures ElapsedDays(DateTime(2023, 1, 2, 0, 0, 0, 0), DateTime(2023, 1, 1, 0, 0, 0, 0)) == 1
  {
    var t := DateTime(2023, 1, 1, 0, 0, 0, 0);
    var n2 := DateTime(2023, 1, 3, 0, 0, 0, 0);
    var n1 := DateTime(2023, 1, 2, 0, 0, 0, 0);
    assert Ordinal(2023, 1, 3) == Ordinal(2023, 1, 1) + 2;
    assert Ordinal(2023, 1, 2) == Ordinal(2023, 1, 1) + 1;
    ElapsedDaysUnique(n2, t, 2);
    ElapsedDaysUnique(n1, t, 1);
  }
}
