/**
  A fixed-width abstraction of chrono's `Utc.datetime_from_str` parse of the
  civil datetime format `%Y-%m-%dT%H:%M:%S`, accepting a subset of what chrono
  accepts: a fixed-width shape check followed by a calendar range check, and
  the UTC instant (seconds since the Unix epoch) the accepted text denotes.
 */
module Civil {
  import opened Results

  /** Seconds since 1970-01-01T00:00:00 UTC. */
  type Instant = int

  datatype DateTime = DateTime(year: int, month: int, day: int, hour: int, minute: int, second: int)

  predicate IsLeapYear(y: int)
  {
    y % 4 == 0 && (y % 100 != 0 || y % 400 == 0)
  }

  function DaysInMonth(y: int, m: int): int
    requires 1 <= m <= 12
  {
    if m == 2 then (if IsLeapYear(y) then 29 else 28)
    else if m == 4 || m == 6 || m == 9 || m == 11 then 30
    else 31
  }

  function YearLength(y: int): int
  {
    if IsLeapYear(y) then 366 else 365
  }

  /** A real calendar date and time of day, with a four-digit year. */
  predicate Valid(dt: DateTime)
  {
    && 0 <= dt.year <= 9999
    && 1 <= dt.month <= 12
    && 1 <= dt.day <= DaysInMonth(dt.year, dt.month)
    && 0 <= dt.hour <= 23
    && 0 <= dt.minute <= 59
    && 0 <= dt.second <= 59
  }

  // ---------------------------------------------------------------------------
  // Digits

  predicate IsDigit(c: char)
  {
    '0' <= c <= '9'
  }

  predicate AllDigits(s: string)
  {
    forall i | 0 <= i < |s| :: IsDigit(s[i])
  }

  function DigitValue(c: char): int
    requires IsDigit(c)
  {
    c as int - '0' as int
  }

  function DigitChar(d: int): (c: char)
    requires 0 <= d < 10
    ensures IsDigit(c) && DigitValue(c) == d
  {
    ('0' as int + d) as char
  }

  /** The decimal value of a digit string. */
  function Number(s: string): nat
    requires AllDigits(s)
  {
    if |s| == 0 then 0 else Number(s[..|s| - 1]) * 10 + DigitValue(s[|s| - 1])
  }

  function Pow10(n: nat): nat
  {
    if n == 0 then 1 else 10 * Pow10(n - 1)
  }

  /** `n` written with exactly `width` digits, zero-padded on the left. */
  function Pad(n: nat, width: nat): (s: string)
    ensures |s| == width && AllDigits(s)
  {
    if width == 0 then "" else Pad(n / 10, width - 1) + [DigitChar(n % 10)]
  }

  lemma {:induction false} NumberOfPad(n: nat, width: nat)
    requires n < Pow10(width)
    ensures Number(Pad(n, width)) == n
  {
    if width > 0 {
      var s := Pad(n, width);
      assert s[..|s| - 1] == Pad(n / 10, width - 1);
      NumberOfPad(n / 10, width - 1);
    }
  }

  lemma {:induction false} PadOfNumber(s: string)
    requires AllDigits(s)
    ensures Pad(Number(s), |s|) == s
  {
    if |s| > 0 {
      var t := s[..|s| - 1];
      var d := DigitValue(s[|s| - 1]);
      assert AllDigits(t);
      var n := Number(s);
      assert n == Number(t) * 10 + d;
      assert n / 10 == Number(t) && n % 10 == d;
      PadOfNumber(t);
      assert s == t + [s[|s| - 1]];
    }
  }

  // ---------------------------------------------------------------------------
  // The textual shape `YYYY-MM-DDTHH:MM:SS`

  predicate Shaped(s: string)
  {
    && |s| == 19
    && AllDigits(s[0..4]) && s[4] == '-'
    && AllDigits(s[5..7]) && s[7] == '-'
    && AllDigits(s[8..10]) && s[10] == 'T'
    && AllDigits(s[11..13]) && s[13] == ':'
    && AllDigits(s[14..16]) && s[16] == ':'
    && AllDigits(s[17..19])
  }

  /** The six numbers written in a shaped string. */
  function Fields(s: string): DateTime
    requires Shaped(s)
  {
    DateTime(Number(s[0..4]), Number(s[5..7]), Number(s[8..10]),
             Number(s[11..13]), Number(s[14..16]), Number(s[17..19]))
  }

  /** The strings the format parse accepts. */
  predicate Matches(s: string)
  {
    Shaped(s) && Valid(Fields(s))
  }

  /** The canonical text of a datetime's date, `YYYY-MM-DD`. */
  function DateText(dt: DateTime): (s: string)
    requires Valid(dt)
    ensures |s| == 10
  {
    Pad(dt.year, 4) + ("-" + (Pad(dt.month, 2) + ("-" + Pad(dt.day, 2))))
  }

  /** The canonical text of a datetime's time of day, `HH:MM:SS`. */
  function TimeText(dt: DateTime): (s: string)
    requires Valid(dt)
    ensures |s| == 8
  {
    Pad(dt.hour, 2) + (":" + (Pad(dt.minute, 2) + (":" + Pad(dt.second, 2))))
  }

  /** The canonical text of a datetime in the format. */
  function Format(dt: DateTime): (s: string)
    requires Valid(dt)
    ensures |s| == 19
  {
    DateText(dt) + ("T" + TimeText(dt))
  }

  /** `a`, `b` and `c` joined by two one-character separators, split again. */
  lemma Join3(a: string, x: char, b: string, y: char, c: string)
    ensures var s := a + ([x] + (b + ([y] + c)));
            && s[..|a|] == a && s[|a|] == x
            && s[|a| + 1..|a| + 1 + |b|] == b && s[|a| + 1 + |b|] == y
            && s[|a| + 2 + |b|..] == c
  {
    var s := a + ([x] + (b + ([y] + c)));
    var t := [x] + (b + ([y] + c));
    assert s[|a|..] == t;
    assert t[1..] == b + ([y] + c);
    assert s[|a| + 1..] == b + ([y] + c);
    assert s[|a| + 1 + |b|..] == [y] + c;
  }

  /** A 19-character string with the format's separators is its pieces joined back. */
  lemma Pieces(s: string)
    requires |s| == 19 && s[4] == '-' && s[7] == '-' && s[10] == 'T' && s[13] == ':' && s[16] == ':'
    ensures s == (s[0..4] + ("-" + (s[5..7] + ("-" + s[8..10]))))
                 + ("T" + (s[11..13] + (":" + (s[14..16] + (":" + s[17..19])))))
  {
    var d, t := s[..10], s[11..];
    assert d == d[0..4] + ([d[4]] + (d[5..7] + ([d[7]] + d[8..10])));
    assert t == t[0..2] + ([t[2]] + (t[3..5] + ([t[5]] + t[6..8])));
    assert s == d + ([s[10]] + t);
  }

  /** Splitting a shaped string at its separators and re-joining the pieces gives it back. */
  lemma FormatOfFields(s: string)
    requires Matches(s)
    ensures Format(Fields(s)) == s
  {
    PadOfNumber(s[0..4]);
    PadOfNumber(s[5..7]);
    PadOfNumber(s[8..10]);
    PadOfNumber(s[11..13]);
    PadOfNumber(s[14..16]);
    PadOfNumber(s[17..19]);
    Pieces(s);
  }

  /**
    chrono's `%Y-%m-%dT%H:%M:%S` parse of a whole string: the fields, or an
    error when the text does not have the shape or names no real date and time.
   */
  function ParseFields(s: string): (r: Result<DateTime, string>)
    ensures r.Ok? <==> Matches(s)
    ensures r.Ok? ==> Valid(r.value) && Format(r.value) == s
  {
    if Matches(s) then
      FormatOfFields(s);
      Ok(Fields(s))
    else if !Shaped(s) then Err("input does not match format %Y-%m-%dT%H:%M:%S")
    else Err("input is out of range")
  }

  /** The canonical text holds each field's digits at the field's place. */
  lemma FormatSlices(dt: DateTime)
    requires Valid(dt)
    ensures var s := Format(dt);
            && s[0..4] == Pad(dt.year, 4) && s[4] == '-'
            && s[5..7] == Pad(dt.month, 2) && s[7] == '-'
            && s[8..10] == Pad(dt.day, 2) && s[10] == 'T'
            && s[11..13] == Pad(dt.hour, 2) && s[13] == ':'
            && s[14..16] == Pad(dt.minute, 2) && s[16] == ':'
            && s[17..19] == Pad(dt.second, 2)
  {
    var s, d, t := Format(dt), DateText(dt), TimeText(dt);
    Join3(Pad(dt.year, 4), '-', Pad(dt.month, 2), '-', Pad(dt.day, 2));
    Join3(Pad(dt.hour, 2), ':', Pad(dt.minute, 2), ':', Pad(dt.second, 2));
    assert s[0..10] == d && s[10] == 'T' && s[11..19] == t;
    SubSlice(s, d, 0, 0, 4);
    SubSlice(s, d, 0, 5, 7);
    SubSlice(s, d, 0, 8, 10);
    SubSlice(s, t, 11, 0, 2);
    SubSlice(s, t, 11, 3, 5);
    SubSlice(s, t, 11, 6, 8);
    assert s[4] == d[4] && s[7] == d[7];
    assert s[13] == t[2] && s[16] == t[5];
  }

  /** A slice of a piece placed at `off` is the same slice of the whole, shifted. */
  lemma SubSlice(s: string, d: string, off: nat, i: nat, j: nat)
    requires off + |d| <= |s| && s[off..off + |d|] == d && i <= j <= |d|
    ensures s[off + i..off + j] == d[i..j]
  {
    assert forall k | i <= k < j :: d[k] == s[off + k];
  }

  /** A slice holding a padded number is all digits and reads back as that number. */
  lemma PaddedSlice(s: string, i: nat, w: nat, n: nat)
    requires i + w <= |s| && s[i..i + w] == Pad(n, w) && n < Pow10(w)
    ensures AllDigits(s[i..i + w]) && Number(s[i..i + w]) == n
  {
    NumberOfPad(n, w);
  }

  /** A string holding a datetime's padded fields at the format's places reads back as them. */
  lemma ReadPadded(s: string, dt: DateTime)
    requires Valid(dt) && |s| == 19
    requires s[0..4] == Pad(dt.year, 4) && s[5..7] == Pad(dt.month, 2) && s[8..10] == Pad(dt.day, 2)
    requires s[11..13] == Pad(dt.hour, 2) && s[14..16] == Pad(dt.minute, 2) && s[17..19] == Pad(dt.second, 2)
    ensures && AllDigits(s[0..4]) && Number(s[0..4]) == dt.year
            && AllDigits(s[5..7]) && Number(s[5..7]) == dt.month
            && AllDigits(s[8..10]) && Number(s[8..10]) == dt.day
            && AllDigits(s[11..13]) && Number(s[11..13]) == dt.hour
            && AllDigits(s[14..16]) && Number(s[14..16]) == dt.minute
            && AllDigits(s[17..19]) && Number(s[17..19]) == dt.second
  {
    assert Pow10(2) == 100 && Pow10(4) == 10000;
    PaddedSlice(s, 0, 4, dt.year);
    PaddedSlice(s, 5, 2, dt.month);
    PaddedSlice(s, 8, 2, dt.day);
    PaddedSlice(s, 11, 2, dt.hour);
    PaddedSlice(s, 14, 2, dt.minute);
    PaddedSlice(s, 17, 2, dt.second);
  }

  /** The canonical text has the format's shape and holds the datetime's own fields. */
  lemma FormatFields(dt: DateTime)
    requires Valid(dt)
    ensures Shaped(Format(dt)) && Fields(Format(dt)) == dt
  {
    FormatSlices(dt);
    ReadPadded(Format(dt), dt);
  }

  /** Every valid datetime's canonical text parses back to it. */
  lemma ParseFormat(dt: DateTime)
    requires Valid(dt)
    ensures ParseFields(Format(dt)) == Ok(dt)
  {
    FormatFields(dt);
  }

  // ---------------------------------------------------------------------------
  // Instants

  /** Days from 0000-01-01 to the first day of year `y` (proleptic Gregorian). */
  function DaysBeforeYear(y: nat): nat
  {
    if y == 0 then 0 else DaysBeforeYear(y - 1) + YearLength(y - 1)
  }

  /** Days from the first of January to the first day of month `m` of year `y`. */
  function DaysBeforeMonth(y: int, m: int): nat
    requires 1 <= m <= 13
  {
    if m == 1 then 0 else DaysBeforeMonth(y, m - 1) + DaysInMonth(y, m - 1)
  }

  /** Days from 0000-01-01 to the datetime's date. */
  function DayNumber(dt: DateTime): int
    requires Valid(dt)
  {
    DaysBeforeYear(dt.year) + DaysBeforeMonth(dt.year, dt.month) + dt.day - 1
  }

  function SecondOfDay(dt: DateTime): int
  {
    dt.hour * 3600 + dt.minute * 60 + dt.second
  }

  /** The instant a valid civil datetime names when read as UTC. */
  function ToInstant(dt: DateTime): Instant
    requires Valid(dt)
  {
    (DayNumber(dt) - DaysBeforeYear(1970)) * 86400 + SecondOfDay(dt)
  }

  /** `Utc.datetime_from_str(s, "%Y-%m-%dT%H:%M:%S")`: the text read as a UTC instant. */
  function ParseUtc(s: string): (r: Result<Instant, string>)
    ensures r.Ok? <==> Matches(s)
    ensures r.Ok? ==> r.value == ToInstant(Fields(s))
  {
    var dt :- ParseFields(s);
    Ok(ToInstant(dt))
  }

  /** The canonical text of a valid datetime is read back as that datetime's instant. */
  lemma ParseUtcFormat(dt: DateTime)
    requires Valid(dt)
    ensures ParseUtc(Format(dt)) == Ok(ToInstant(dt))
  {
    ParseFormat(dt);
  }

  /** A string in the format holds no '.': every character is a digit or a separator. */
  lemma MatchedHasNoDot(s: string)
    requires Matches(s)
    ensures '.' !in s
  {
    forall k | 0 <= k < 19
      ensures s[k] != '.'
    {
      if k < 4 { assert s[0..4][k] == s[k]; }
      else if 4 < k < 7 { assert s[5..7][k - 5] == s[k]; }
      else if 7 < k < 10 { assert s[8..10][k - 8] == s[k]; }
      else if 10 < k < 13 { assert s[11..13][k - 11] == s[k]; }
      else if 13 < k < 16 { assert s[14..16][k - 14] == s[k]; }
      else if 16 < k { assert s[17..19][k - 17] == s[k]; }
    }
  }

  /** Strict lexicographic order on (year, month, day, hour, minute, second). */
  predicate Before(a: DateTime, b: DateTime)
  {
    || a.year < b.year
    || (a.year == b.year && a.month < b.month)
    || (a.year == b.year && a.month == b.month && a.day < b.day)
    || (a.year == b.year && a.month == b.month && a.day == b.day && SecondOfDay(a) < SecondOfDay(b))
  }

  lemma {:induction false} DaysBeforeMonthGrows(y: int, m1: int, m2: int)
    requires 1 <= m1 < m2 <= 13
    ensures DaysBeforeMonth(y, m1) + DaysInMonth(y, m1) <= DaysBeforeMonth(y, m2)
  {
    if m2 > m1 + 1 {
      DaysBeforeMonthGrows(y, m1, m2 - 1);
    }
  }

  lemma DaysBeforeMonthWholeYear(y: int)
    ensures DaysBeforeMonth(y, 13) == YearLength(y)
  {
    var feb := DaysInMonth(y, 2);
    assert DaysBeforeMonth(y, 2) == 31;
    assert DaysBeforeMonth(y, 3) == 31 + feb;
    assert DaysBeforeMonth(y, 4) == 62 + feb;
    assert DaysBeforeMonth(y, 5) == 92 + feb;
    assert DaysBeforeMonth(y, 6) == 123 + feb;
    assert DaysBeforeMonth(y, 7) == 153 + feb;
    assert DaysBeforeMonth(y, 8) == 184 + feb;
    assert DaysBeforeMonth(y, 9) == 215 + feb;
    assert DaysBeforeMonth(y, 10) == 245 + feb;
    assert DaysBeforeMonth(y, 11) == 276 + feb;
    assert DaysBeforeMonth(y, 12) == 306 + feb;
    assert DaysBeforeMonth(y, 13) == 337 + feb;
  }

  lemma {:induction false} DaysBeforeYearGrows(y1: nat, y2: nat)
    requires y1 < y2
    ensures DaysBeforeYear(y1) + YearLength(y1) <= DaysBeforeYear(y2)
  {
    if y2 > y1 + 1 {
      DaysBeforeYearGrows(y1, y2 - 1);
    }
  }

  /** A valid date's day of the year lies within its year. */
  lemma DayWithinYear(dt: DateTime)
    requires Valid(dt)
    ensures DaysBeforeMonth(dt.year, dt.month) + dt.day - 1 < YearLength(dt.year)
  {
    if dt.month < 12 {
      DaysBeforeMonthGrows(dt.year, dt.month, 13);
    }
    DaysBeforeMonthWholeYear(dt.year);
  }

  /** Later civil datetimes are later instants. */
  lemma InstantMonotonic(a: DateTime, b: DateTime)
    requires Valid(a) && Valid(b) && Before(a, b)
    ensures ToInstant(a) < ToInstant(b)
  {
    assert SecondOfDay(a) < 86400 && SecondOfDay(b) < 86400;
    if a.year < b.year {
      DayWithinYear(a);
      DaysBeforeYearGrows(a.year, b.year);
    } else if a.month < b.month {
      DaysBeforeMonthGrows(a.year, a.month, b.month);
    }
    assert DayNumber(a) < DayNumber(b) || (DayNumber(a) == DayNumber(b) && SecondOfDay(a) < SecondOfDay(b));
  }

  /** Two valid civil datetimes name the same instant exactly when they are the same. */
  lemma InstantInjective(a: DateTime, b: DateTime)
    requires Valid(a) && Valid(b)
    ensures ToInstant(a) == ToInstant(b) <==> a == b
  {
    if a != b {
      if SecondOfDay(a) == SecondOfDay(b) && a.year == b.year && a.month == b.month && a.day == b.day {
        SecondOfDayInjective(a, b);
      }
      if Before(a, b) {
        InstantMonotonic(a, b);
      } else {
        InstantMonotonic(b, a);
      }
    }
  }

  lemma SecondOfDayInjective(a: DateTime, b: DateTime)
    requires Valid(a) && Valid(b) && SecondOfDay(a) == SecondOfDay(b)
    ensures a.hour == b.hour && a.minute == b.minute && a.second == b.second
  {
  }

  /** Two accepted strings denote the same instant exactly when they are the same string. */
  lemma ParseUtcInjective(s1: string, s2: string)
    requires ParseUtc(s1).Ok? && ParseUtc(s2).Ok?
    ensures ParseUtc(s1) == ParseUtc(s2) <==> s1 == s2
  {
    FormatOfFields(s1);
    FormatOfFields(s2);
    InstantInjective(Fields(s1), Fields(s2));
  }
}
