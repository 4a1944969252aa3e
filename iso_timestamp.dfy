/**
 * The debug annotation of MessageCorrector: the ECMAScript `Date.prototype.toISOString`
 * rendering of a time value, and the regular expression that recognises an annotation
 * already present in a message's content.
 */
module IsoTimestamp {

  /** Milliseconds in a day, hour, minute and second (ECMAScript msPerDay and friends). */
  const MsPerDay: int := 86400000
  const MsPerHour: int := 3600000
  const MsPerMinute: int := 60000
  const MsPerSecond: int := 1000

  /** An ECMAScript time value: milliseconds since 1970-01-01T00:00:00Z, at most 8.64e15 away from it. */
  type TimeValue = t: int | -8_640_000_000_000_000 <= t <= 8_640_000_000_000_000

  /** A date of the proleptic Gregorian calendar; `month` runs from 1 to 12. */
  datatype CivilDate = CivilDate(year: int, month: nat, day: nat)

  /** A time value broken down into its UTC calendar fields. */
  datatype DateTime = DateTime(date: CivilDate, hour: nat, minute: nat, second: nat, millisecond: nat)

  // ---------------------------------------------------------------------------
  // Calendar arithmetic
  // ---------------------------------------------------------------------------

  /** A leap year of the proleptic Gregorian calendar (ECMAScript DaysInYear is 366). */
  predicate IsLeapYear(year: int)
  {
    year % 4 == 0 && (year % 100 != 0 || year % 400 == 0)
  }

  /** The length of a month from 1 to 12; February has a leap day when `leap` holds. */
  function MonthLength(month: int, leap: bool): int
  {
    if month == 2 then (if leap then 29 else 28)
    else if month == 4 || month == 6 || month == 9 || month == 11 then 30
    else 31
  }

  function DaysInMonth(year: int, month: int): int
  {
    MonthLength(month, IsLeapYear(year))
  }

  /**
   * Splits a day of a 400-year era, counted from March 1 of its first year, into the year of
   * the era and the day of that year: centuries of 36524 days (the last century of an era is a
   * day longer), four-year spans of 1461 days, years of 365 days (the last year of a span is a
   * day longer, its leap day falling at the end).
   */
  function YearOfEra(doe: int): (yd: (int, int))
    requires 0 <= doe < 146097
    ensures 0 <= yd.0 <= 399 && 0 <= yd.1 <= 365
    ensures doe == 365 * yd.0 + yd.0 / 4 - yd.0 / 100 + yd.1
    ensures yd.1 <= 364 || (yd.0 % 4 == 3 && (yd.0 % 100 != 99 || yd.0 == 399))
  {
    var century := if doe / 36524 < 3 then doe / 36524 else 3;
    var doc := doe - century * 36524;
    var quad := doc / 1461;
    var doq := doc % 1461;
    var yoq := if doq / 365 < 3 then doq / 365 else 3;
    var yoe := century * 100 + quad * 4 + yoq;
    assert 0 <= quad <= 24 && 0 <= yoq <= 3;
    assert yoe / 4 == century * 25 + quad;
    assert yoe / 100 == century;
    (yoe, doq - yoq * 365)
  }

  /** The days before the first of month `mp` of a year that starts on March 1 (`mp` = 0 is March). */
  function DaysBeforeMonth(mp: int): int
  {
    (153 * mp + 2) / 5
  }

  /** Splits a day of a year that starts on March 1 into a month from 1 to 12 and a day of the month. */
  function MonthOfYear(doy: int): (md: (nat, nat))
    requires 0 <= doy <= 365
    ensures 1 <= md.0 <= 12 && 1 <= md.1 <= 31
    ensures DaysBeforeMonth((md.0 + 9) % 12) + md.1 - 1 == doy
    ensures md.1 <= MonthLength(md.0, doy == 365)
  {
    var mp := (5 * doy + 2) / 153;
    assert 0 <= mp <= 11;
    assert 153 * mp <= 5 * doy + 2 < 153 * mp + 153;
    var month := if mp < 10 then mp + 3 else mp - 9;
    assert (month + 9) % 12 == mp;
    (month, doy - DaysBeforeMonth(mp) + 1)
  }

  /** The calendar date `days` days after 1970-01-01 (ECMAScript YearFromTime, MonthFromTime, DateFromTime). */
  function CivilFromDays(days: int): (date: CivilDate)
    ensures 1 <= date.month <= 12 && 1 <= date.day <= DaysInMonth(date.year, date.month)
    ensures -100_000_000 <= days <= 100_000_000 ==> -300_000 <= date.year <= 300_000
  {
    var z := days + 719468;
    var era := z / 146097;
    var yd := YearOfEra(z % 146097);
    var md := MonthOfYear(yd.1);
    var year := era * 400 + yd.0 + (if md.0 <= 2 then 1 else 0);
    assert md.1 <= DaysInMonth(year, md.0) by {
      if yd.1 == 365 {
        LeapDayInLeapYear(era, yd.0);
      }
    }
    CivilDate(year, md.0, md.1)
  }

  /**
   * The year of era `yoe` ends with a leap day only when the calendar year it runs into, the
   * year after `yoe`, is a leap year.
   */
  lemma LeapDayInLeapYear(era: int, yoe: int)
    requires 0 <= yoe <= 399
    requires yoe % 4 == 3 && (yoe % 100 != 99 || yoe == 399)
    ensures IsLeapYear(era * 400 + yoe + 1)
  {
    EraShift(era, yoe + 1);
  }

  /** Whole eras of 400 years do not change a year's remainders modulo 4, 100 and 400. */
  lemma EraShift(era: int, a: int)
    ensures (era * 400 + a) % 4 == a % 4
    ensures (era * 400 + a) % 100 == a % 100
    ensures (era * 400 + a) % 400 == a % 400
  {
    var x := era * 400 + a;
    var z4 := x / 4 - era * 100 - a / 4;
    assert 4 * z4 == a % 4 - x % 4;
    assert z4 == 0;
    var z100 := x / 100 - era * 4 - a / 100;
    assert 100 * z100 == a % 100 - x % 100;
    assert z100 == 0;
    var z400 := x / 400 - era - a / 400;
    assert 400 * z400 == a % 400 - x % 400;
    assert z400 == 0;
  }

  /** The number of days from 1970-01-01 to `date` (ECMAScript MakeDay). */
  function DaysFromCivil(date: CivilDate): int
  {
    var y := date.year - (if date.month <= 2 then 1 else 0);
    var era := y / 400;
    var yoe := y - era * 400;
    var doy := DaysBeforeMonth((date.month + 9) % 12) + date.day - 1;
    era * 146097 + 365 * yoe + yoe / 4 - yoe / 100 + doy - 719468
  }

  /** DaysFromCivil undoes CivilFromDays: every day number names exactly one calendar date. */
  lemma CivilRoundTrip(days: int)
    ensures DaysFromCivil(CivilFromDays(days)) == days
  {
    var era, yoe, doy, doe, month, day := CivilParts(days);
    DaysFromCivilParts(CivilFromDays(days), era, yoe, doy, doe);
  }

  /** The era, year of era, day of year, day of era, month and day that CivilFromDays computes. */
  lemma CivilParts(days: int) returns (era: int, yoe: int, doy: int, doe: int, month: nat, day: nat)
    ensures CivilFromDays(days) == CivilDate(era * 400 + yoe + (if month <= 2 then 1 else 0), month, day)
    ensures 0 <= yoe < 400
    ensures DaysBeforeMonth((month + 9) % 12) + day - 1 == doy
    ensures doe == 365 * yoe + yoe / 4 - yoe / 100 + doy
    ensures era * 146097 + doe == days + 719468
  {
    var z := days + 719468;
    era, doe := z / 146097, z % 146097;
    var yd := YearOfEra(doe);
    yoe, doy := yd.0, yd.1;
    var md := MonthOfYear(doy);
    month, day := md.0, md.1;
  }

  /** DaysFromCivil of a date given by its era, year of era and day of year (from March 1). */
  lemma DaysFromCivilParts(date: CivilDate, era: int, yoe: int, doy: int, doe: int)
    requires date.year - (if date.month <= 2 then 1 else 0) == era * 400 + yoe && 0 <= yoe < 400
    requires DaysBeforeMonth((date.month + 9) % 12) + date.day - 1 == doy
    requires doe == 365 * yoe + yoe / 4 - yoe / 100 + doy
    ensures DaysFromCivil(date) == era * 146097 + doe - 719468
  {
    DivideBy400(era, yoe);
  }

  /** Dividing q * 400 + r by 400 gives back q when r is a remainder. */
  lemma DivideBy400(q: int, r: int)
    requires 0 <= r < 400
    ensures (q * 400 + r) / 400 == q
  {
  }

  /**
   * The UTC calendar fields of time value `t` (ECMAScript Day, TimeWithinDay, HourFromTime,
   * MinFromTime, SecFromTime, msFromTime). The time of day is split hour, minute, second in turn,
   * which gives the same fields as ECMAScript's "floor(t / msPerMinute) modulo 60" and the like.
   */
  function ToDateTime(t: int): (dt: DateTime)
    ensures 0 <= dt.hour < 24 && 0 <= dt.minute < 60 && 0 <= dt.second < 60 && 0 <= dt.millisecond < 1000
    ensures 1 <= dt.date.month <= 12 && 1 <= dt.date.day <= 31
    ensures -8_640_000_000_000_000 <= t <= 8_640_000_000_000_000 ==> -300_000 <= dt.date.year <= 300_000
  {
    var msInDay := t % MsPerDay;
    var msInHour := msInDay % MsPerHour;
    var msInMinute := msInHour % MsPerMinute;
    DateTime(CivilFromDays(t / MsPerDay), msInDay / MsPerHour, msInHour / MsPerMinute,
             msInMinute / MsPerSecond, msInMinute % MsPerSecond)
  }

  /** The time value of calendar fields (ECMAScript MakeDate of MakeDay and MakeTime). */
  function FromDateTime(dt: DateTime): int
  {
    DaysFromCivil(dt.date) * MsPerDay
      + dt.hour * MsPerHour + dt.minute * MsPerMinute + dt.second * MsPerSecond + dt.millisecond
  }

  /** Breaking a time value down into fields loses nothing. */
  lemma DateTimeRoundTrip(t: int)
    ensures FromDateTime(ToDateTime(t)) == t
  {
    CivilRoundTrip(t / MsPerDay);
  }

  // ---------------------------------------------------------------------------
  // Rendering
  // ---------------------------------------------------------------------------

  function Pow10(n: nat): (p: nat)
    ensures p >= 1
  {
    if n == 0 then 1 else 10 * Pow10(n - 1)
  }

  predicate IsDigit(c: char) { '0' <= c <= '9' }

  predicate AllDigits(s: string) { forall i :: 0 <= i < |s| ==> IsDigit(s[i]) }

  /** The number a string of decimal digits denotes. */
  function DigitsValue(s: string): int
  {
    if s == [] then 0 else 10 * DigitsValue(s[..|s| - 1]) + (s[|s| - 1] as int - '0' as int)
  }

  function DigitChar(d: int): (c: char)
    requires 0 <= d < 10
    ensures IsDigit(c) && c as int - '0' as int == d
  {
    ('0' as int + d) as char
  }

  /** The decimal digits of `n`, left-padded with zeros to at least `width` digits. */
  function PadDigits(n: nat, width: nat): (s: string)
    ensures |s| >= 1 && AllDigits(s)
    ensures DigitsValue(s) == n
    ensures 1 <= width && n < Pow10(width) ==> |s| == width
    decreases n, width
  {
    if n >= 10 || width > 1 then
      var rest := PadDigits(n / 10, if width > 0 then width - 1 else 0);
      var s := rest + [DigitChar(n % 10)];
      assert s[..|s| - 1] == rest;
      assert 1 <= width && n < Pow10(width) ==> n / 10 < Pow10(width - 1);
      s
    else
      [DigitChar(n)]
  }

  /** The year field: four digits for years 0 to 9999, otherwise a sign and six digits. */
  function YearString(year: int): string
  {
    if 0 <= year <= 9999 then PadDigits(year, 4)
    else (if year < 0 then "-" else "+") + PadDigits(if year < 0 then -year else year, 6)
  }

  /** Everything after the year: "-MM-DDTHH:mm:ss.sssZ". */
  function DateTailString(dt: DateTime): string
  {
    "-" + PadDigits(dt.date.month, 2) + "-" + PadDigits(dt.date.day, 2)
      + "T" + PadDigits(dt.hour, 2) + ":" + PadDigits(dt.minute, 2) + ":" + PadDigits(dt.second, 2)
      + "." + PadDigits(dt.millisecond, 3) + "Z"
  }

  /** `new Date(t).toISOString()`. */
  function ToIsoString(t: TimeValue): string
  {
    var dt := ToDateTime(t);
    YearString(dt.date.year) + DateTailString(dt)
  }

  /** The text the debug pass appends to a message: a line "-# " followed by the ISO timestamp. */
  function AnnotationLine(t: TimeValue): string
  {
    "\n" + ("-# " + ToIsoString(t))
  }

  // ---------------------------------------------------------------------------
  // Recognising an annotation
  // ---------------------------------------------------------------------------

  /** One position of a regular expression made only of literals and character classes. */
  datatype Atom = Char(c: char) | Digit | Sign

  predicate AtomMatches(a: Atom, c: char)
  {
    match a
    case Char(x) => c == x
    case Digit => IsDigit(c)
    case Sign => c == '+' || c == '-'
  }

  /** `w` matches `p` position by position. */
  predicate MatchesWhole(w: string, p: seq<Atom>)
  {
    |w| == |p| && forall i :: 0 <= i < |w| ==> AtomMatches(p[i], w[i])
  }

  /** `p` matches `s` starting at position `i`. */
  predicate MatchesAt(s: string, p: seq<Atom>, i: int)
  {
    0 <= i <= |s| - |p| && MatchesWhole(s[i..i + |p|], p)
  }

  /** An unanchored search, as `RegExp.prototype.test` does for a pattern without flags. */
  predicate Contains(s: string, p: seq<Atom>)
  {
    exists i | 0 <= i <= |s| - |p| :: MatchesAt(s, p, i)
  }

  function Literal(s: string): (p: seq<Atom>)
    ensures MatchesWhole(s, p)
  {
    seq(|s|, i requires 0 <= i < |s| => Char(s[i]))
  }

  function Digits(n: nat): (p: seq<Atom>)
    ensures |p| == n && forall i :: 0 <= i < n ==> p[i] == Digit
  {
    seq(n, _ => Digit)
  }

  /** The pattern after the year: "-\d{2}-\d{2}T\d{2}:\d{2}:\d{2}\.\d{3}Z". */
  function DateTail(): seq<Atom>
  {
    Literal("-") + Digits(2) + Literal("-") + Digits(2)
      + Literal("T") + Digits(2) + Literal(":") + Digits(2) + Literal(":") + Digits(2)
      + Literal(".") + Digits(3) + Literal("Z")
  }

  /** The pattern of messageCorrector's `hasTimestampRegex`: "-# " and a four-digit year. */
  function AsWrittenPattern(): seq<Atom>
  {
    Literal("-# ") + (Digits(4) + DateTail())
  }

  /** The same pattern for the expanded years that toISOString writes with a sign and six digits. */
  function ExpandedYearPattern(): seq<Atom>
  {
    Literal("-# ") + ([Sign] + Digits(6) + DateTail())
  }

  /** The timestamp test as the source writes it. */
  predicate HasTimestampAsWritten(s: string)
  {
    Contains(s, AsWrittenPattern())
  }

  /** The timestamp test that recognises every annotation toISOString can produce. */
  predicate HasTimestamp(s: string)
  {
    Contains(s, AsWrittenPattern()) || Contains(s, ExpandedYearPattern())
  }

  /** Which timestamp test a debug pass runs: the source's pattern, or the corrected one. */
  datatype TimestampTest = AsWritten | Corrected

  predicate ShowsTimestamp(test: TimestampTest, s: string)
  {
    match test
    case AsWritten => HasTimestampAsWritten(s)
    case Corrected => HasTimestamp(s)
  }

  // ---------------------------------------------------------------------------
  // Lemmas
  // ---------------------------------------------------------------------------

  lemma MatchesConcat(w1: string, p1: seq<Atom>, w2: string, p2: seq<Atom>)
    requires MatchesWhole(w1, p1) && MatchesWhole(w2, p2)
    ensures MatchesWhole(w1 + w2, p1 + p2)
  {
    forall i | 0 <= i < |w1 + w2|
      ensures AtomMatches((p1 + p2)[i], (w1 + w2)[i])
    {
      if i >= |w1| {
        assert (p1 + p2)[i] == p2[i - |w1|];
        assert (w1 + w2)[i] == w2[i - |w1|];
      }
    }
  }

  lemma DigitsMatch(s: string)
    requires AllDigits(s)
    ensures MatchesWhole(s, Digits(|s|))
  {
  }

  /** The part after the year has the shape the pattern expects. */
  lemma DateTailMatches(dt: DateTime)
    requires 0 <= dt.hour < 24 && 0 <= dt.minute < 60 && 0 <= dt.second < 60 && 0 <= dt.millisecond < 1000
    requires 1 <= dt.date.month <= 12 && 1 <= dt.date.day <= 31
    ensures MatchesWhole(DateTailString(dt), DateTail())
  {
    var month, day := PadDigits(dt.date.month, 2), PadDigits(dt.date.day, 2);
    var hour, minute := PadDigits(dt.hour, 2), PadDigits(dt.minute, 2);
    var second, ms := PadDigits(dt.second, 2), PadDigits(dt.millisecond, 3);
    assert Pow10(2) == 100 && Pow10(3) == 1000;
    DigitsMatch(month); DigitsMatch(day); DigitsMatch(hour);
    DigitsMatch(minute); DigitsMatch(second); DigitsMatch(ms);
    MatchesConcat("-", Literal("-"), month, Digits(2));
    var w, p := "-" + month, Literal("-") + Digits(2);
    MatchesConcat(w, p, "-", Literal("-"));
    w, p := w + "-", p + Literal("-");
    MatchesConcat(w, p, day, Digits(2));
    w, p := w + day, p + Digits(2);
    MatchesConcat(w, p, "T", Literal("T"));
    w, p := w + "T", p + Literal("T");
    MatchesConcat(w, p, hour, Digits(2));
    w, p := w + hour, p + Digits(2);
    MatchesConcat(w, p, ":", Literal(":"));
    w, p := w + ":", p + Literal(":");
    MatchesConcat(w, p, minute, Digits(2));
    w, p := w + minute, p + Digits(2);
    MatchesConcat(w, p, ":", Literal(":"));
    w, p := w + ":", p + Literal(":");
    MatchesConcat(w, p, second, Digits(2));
    w, p := w + second, p + Digits(2);
    MatchesConcat(w, p, ".", Literal("."));
    w, p := w + ".", p + Literal(".");
    MatchesConcat(w, p, ms, Digits(3));
    w, p := w + ms, p + Digits(3);
    MatchesConcat(w, p, "Z", Literal("Z"));
  }

  /**
   * The shape of toISOString's output: a four-digit year for years 0 to 9999, and a sign with
   * six digits for every other year a time value can reach.
   */
  lemma IsoStringShape(t: TimeValue)
    ensures var year := ToDateTime(t).date.year;
      if 0 <= year <= 9999 then MatchesWhole(ToIsoString(t), Digits(4) + DateTail())
      else MatchesWhole(ToIsoString(t), [Sign] + Digits(6) + DateTail())
  {
    var dt := ToDateTime(t);
    var year := dt.date.year;
    DateTailMatches(dt);
    assert Pow10(4) == 10000 && Pow10(6) == 1000000;
    if 0 <= year <= 9999 {
      DigitsMatch(YearString(year));
      MatchesConcat(YearString(year), Digits(4), DateTailString(dt), DateTail());
    } else {
      var sign := if year < 0 then "-" else "+";
      var digits := PadDigits(if year < 0 then -year else year, 6);
      DigitsMatch(digits);
      assert MatchesWhole(sign, [Sign]);
      MatchesConcat(sign, [Sign], digits, Digits(6));
      MatchesConcat(sign + digits, [Sign] + Digits(6), DateTailString(dt), DateTail());
    }
  }

  /** A match of `p` at offset |prefix| + 1 of prefix + "\n" + w. */
  lemma ContainsAfterNewline(prefix: string, w: string, p: seq<Atom>)
    requires MatchesWhole(w, p)
    ensures Contains(prefix + ("\n" + w), p)
  {
    var s := prefix + ("\n" + w);
    var i := |prefix| + 1;
    assert s[i..i + |p|] == w;
    assert MatchesAt(s, p, i);
  }

  /** Whatever a message held before, the appended annotation is recognised afterwards. */
  lemma AnnotationRecognized(content: string, t: TimeValue)
    ensures HasTimestamp(content + AnnotationLine(t))
  {
    IsoStringShape(t);
    var year := ToDateTime(t).date.year;
    if 0 <= year <= 9999 {
      MatchesConcat("-# ", Literal("-# "), ToIsoString(t), Digits(4) + DateTail());
      ContainsAfterNewline(content, "-# " + ToIsoString(t), AsWrittenPattern());
    } else {
      MatchesConcat("-# ", Literal("-# "), ToIsoString(t), [Sign] + Digits(6) + DateTail());
      ContainsAfterNewline(content, "-# " + ToIsoString(t), ExpandedYearPattern());
    }
  }

  /** For years 0 to 9999 the source's own pattern recognises the annotation. */
  lemma AsWrittenRecognizesFourDigitYears(content: string, t: TimeValue)
    requires 0 <= ToDateTime(t).date.year <= 9999
    ensures HasTimestampAsWritten(content + AnnotationLine(t))
  {
    IsoStringShape(t);
    MatchesConcat("-# ", Literal("-# "), ToIsoString(t), Digits(4) + DateTail());
    ContainsAfterNewline(content, "-# " + ToIsoString(t), AsWrittenPattern());
  }

  /** For any other year the source's pattern does not recognise an annotation standing alone. */
  lemma AsWrittenMissesExpandedYears(t: TimeValue)
    requires !(0 <= ToDateTime(t).date.year <= 9999)
    ensures !HasTimestampAsWritten(AnnotationLine(t))
  {
    var s := AnnotationLine(t);
    var iso := ToIsoString(t);
    var q := [Sign] + Digits(6) + DateTail();
    IsoStringShape(t);
    assert |DateTail()| == 20;
    assert q[0] == Sign && q[1] == Digit;
    assert AtomMatches(q[0], iso[0]) && AtomMatches(q[1], iso[1]);
    assert s[4] == iso[0] && s[5] == iso[1];
    AsWrittenRejectsSignedYear(s);
  }

  /** After "\n-# ", a sign where the pattern wants a digit leaves no place for a match. */
  lemma AsWrittenRejectsSignedYear(s: string)
    requires |s| == 31
    requires s[0] == '\n' && s[2] == '#' && s[3] == ' '
    requires (s[4] == '+' || s[4] == '-') && IsDigit(s[5])
    ensures !Contains(s, AsWrittenPattern())
  {
    var p := AsWrittenPattern();
    assert |DateTail()| == 20;
    assert |p| == 27;
    assert p[0] == Char('-') && p[1] == Char('#') && p[3] == Digit;
    forall i | 0 <= i <= |s| - |p|
      ensures !MatchesAt(s, p, i)
    {
      var w := s[i..i + |p|];
      assert w[0] == s[i] && w[1] == s[i + 1] && w[3] == s[i + 3];
    }
  }

  /** 253402300800000 ms after the epoch is 10000-01-01T00:00:00.000Z. */
  lemma YearTenThousand()
    ensures ToDateTime(253402300800000) == DateTime(CivilDate(10000, 1, 1), 0, 0, 0, 0)
  {
    assert 253402300800000 / MsPerDay == 2932897 && 253402300800000 % MsPerDay == 0;
    assert (2932897 + 719468) / 146097 == 24 && (2932897 + 719468) % 146097 == 146037;
    assert YearOfEra(146037) == (399, 306);
    assert MonthOfYear(306) == (1, 1);
  }
}
