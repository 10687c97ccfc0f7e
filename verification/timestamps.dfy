/** The `createdDateTime` strings of the message listings, read the way
    `datetime.strptime` reads them with the two formats the script tries,
    and the naive datetimes they denote. */
module Timestamps {
  import opened Results
  import opened Digits

  /** A naive `datetime`: its seven fields, implicitly UTC. */
  datatype DateTime = DateTime(year: int, month: int, day: int,
                               hour: int, minute: int, second: int, micro: int)

  predicate IsLeap(y: int) {
    y % 4 == 0 && (y % 100 != 0 || y % 400 == 0)
  }

  function DaysInYear(y: int): int {
    if IsLeap(y) then 366 else 365
  }

  function DaysInMonth(y: int, m: int): int
    requires 1 <= m <= 12
  {
    if m == 2 then (if IsLeap(y) then 29 else 28)
    else if m == 4 || m == 6 || m == 9 || m == 11 then 30
    else 31
  }

  /** The values the `datetime` constructor accepts. */
  predicate Valid(t: DateTime) {
    && 1 <= t.year <= 9999
    && 1 <= t.month <= 12
    && 1 <= t.day <= DaysInMonth(t.year, t.month)
    && 0 <= t.hour < 24
    && 0 <= t.minute < 60
    && 0 <= t.second < 60
    && 0 <= t.micro < 1_000_000
  }

  /** Comparison of two naive datetimes: lexicographic over the fields. */
  predicate Before(a: DateTime, b: DateTime) {
    if a.year != b.year then a.year < b.year
    else if a.month != b.month then a.month < b.month
    else if a.day != b.day then a.day < b.day
    else if a.hour != b.hour then a.hour < b.hour
    else if a.minute != b.minute then a.minute < b.minute
    else if a.second != b.second then a.second < b.second
    else a.micro < b.micro
  }

  // ----- proleptic Gregorian day numbers, as the `datetime` module counts them

  function DaysBeforeYear(y: int): int {
    var y1 := y - 1;
    y1 * 365 + y1 / 4 - y1 / 100 + y1 / 400
  }

  function DaysBeforeMonth(y: int, m: int): int
    requires 1 <= m <= 12
  {
    var table := [0, 31, 59, 90, 120, 151, 181, 212, 243, 273, 304, 334];
    table[m - 1] + (if m > 2 && IsLeap(y) then 1 else 0)
  }

  /** Day number of a date; 0001-01-01 is day 1. */
  function Ordinal(t: DateTime): int
    requires Valid(t)
  {
    DaysBeforeYear(t.year) + DaysBeforeMonth(t.year, t.month) + t.day
  }

  const DayMicros: int := 86_400_000_000

  function TimeOfDay(t: DateTime): int {
    ((t.hour * 60 + t.minute) * 60 + t.second) * 1_000_000 + t.micro
  }

  /** Microseconds since 0001-01-01T00:00:00, the integer the model compares. */
  function Instant(t: DateTime): int
    requires Valid(t)
  {
    (Ordinal(t) - 1) * DayMicros + TimeOfDay(t)
  }

  // ----- the two formats

  datatype Num = Num(value: nat, rest: string)

  /** The digit run at the front of `t`, when its length is allowed. A field
      is always followed by a non-digit literal, so the regular expression can
      only succeed by consuming the whole run. */
  function Number(t: string, minLen: nat, maxLen: nat): Option<Num> {
    var n := Run(t);
    if minLen <= n <= maxLen then Some(Num(ValueOf(t[..n]), t[n..])) else None
  }

  /** A digit field whose value must lie in `lo..hi`. */
  function Field(t: string, minLen: nat, maxLen: nat, lo: nat, hi: nat): Option<Num> {
    var x :- Number(t, minLen, maxLen);
    if lo <= x.value <= hi then Some(x) else None
  }

  /** `%d`: one or two digits, or a space and one digit. */
  function DayField(t: string): Option<Num> {
    if t != [] && t[0] == ' ' then Field(t[1..], 1, 1, 1, 9)
    else Field(t, 1, 2, 1, 31)
  }

  /** `%f`: one to six digits, padded on the right to microseconds. */
  function Fraction(t: string): Option<Num> {
    var n := Run(t);
    if 1 <= n <= 6 then Some(Num(ValueOf(t[..n]) * Pow10(6 - n), t[n..])) else None
  }

  function LowerCase(c: char): char {
    if 'A' <= c <= 'Z' then (c as int + 32) as char else c
  }

  /** A literal character of the format; the match ignores case. */
  function Lit(t: string, c: char): Option<string> {
    if t != [] && (t[0] == c || t[0] == LowerCase(c)) then Some(t[1..]) else None
  }

  /** The seconds' tail: `.%fZ` when `fractional`, otherwise `Z`. */
  function Tail(t: string, fractional: bool): Option<Num> {
    if fractional then
      var t1 :- Lit(t, '.');
      Fraction(t1)
    else Some(Num(0, t))
  }

  datatype Triple = Triple(a: nat, b: nat, c: nat, rest: string)

  /** `%Y-%m-%dT`: year, month and day. */
  function ReadDate(t: string): Option<Triple> {
    var y :- Number(t, 4, 4);
    var t1 :- Lit(y.rest, '-');
    var mo :- Field(t1, 1, 2, 1, 12);
    var t2 :- Lit(mo.rest, '-');
    var d :- DayField(t2);
    var t3 :- Lit(d.rest, 'T');
    Some(Triple(y.value, mo.value, d.value, t3))
  }

  /** `%H:%M:%S`: hour, minute and second (the pattern admits 60 and 61). */
  function ReadClock(t: string): Option<Triple> {
    var h :- Field(t, 1, 2, 0, 23);
    var t1 :- Lit(h.rest, ':');
    var mi :- Field(t1, 1, 2, 0, 59);
    var t2 :- Lit(mi.rest, ':');
    var s :- Field(t2, 1, 2, 0, 61);
    Some(Triple(h.value, mi.value, s.value, s.rest))
  }

  /** `datetime.strptime(t, '%Y-%m-%dT%H:%M:%S.%fZ')` when `fractional`,
      otherwise with `'%Y-%m-%dT%H:%M:%SZ'`; `None` stands for the ValueError,
      raised for a pattern mismatch, for text left over, and for field values
      the `datetime` constructor rejects. */
  function Strptime(t: string, fractional: bool): (r: Option<DateTime>)
    ensures r.Some? ==> Valid(r.value)
  {
    var date :- ReadDate(t);
    var clock :- ReadClock(date.rest);
    var f :- Tail(clock.rest, fractional);
    var t6 :- Lit(f.rest, 'Z');
    var dt := DateTime(date.a, date.b, date.c, clock.a, clock.b, clock.c, f.value);
    if t6 == [] && Valid(dt) then Some(dt) else None
  }

  /** The timestamp of a message: the fractional format first, the whole-second
      format as the fallback; a missing field is the TypeError of strptime(None). */
  function ParseCreated(created: Option<string>): (r: Result<DateTime>)
    ensures created.None? <==> r == Err(MissingTimestamp)
    ensures r.Err? ==> r.error == MissingTimestamp || r.error == BadTimestamp
    ensures r.Ok? ==> Valid(r.value)
  {
    match created
    case None => Err(MissingTimestamp)
    case Some(s) =>
      match Strptime(s, true)
      case Some(dt) => Ok(dt)
      case None =>
        match Strptime(s, false)
        case Some(dt) => Ok(dt)
        case None => Err(BadTimestamp)
  }

  // ----- writing timestamps back, for the round trips

  /** `YYYY-MM-DDT` followed by `rest`. */
  function DateText(t: DateTime, rest: string): string
    requires Valid(t)
  {
    Pad(t.year, 4) + ("-" + (Pad(t.month, 2) + ("-" + (Pad(t.day, 2) + ("T" + rest)))))
  }

  /** `HH:MM:SS` followed by `tail`. */
  function ClockText(t: DateTime, tail: string): string
    requires Valid(t)
  {
    Pad(t.hour, 2) + (":" + (Pad(t.minute, 2) + (":" + (Pad(t.second, 2) + tail))))
  }

  /** `YYYY-MM-DDTHH:MM:SS` followed by `tail`. */
  function Stamp(t: DateTime, tail: string): string
    requires Valid(t)
  {
    DateText(t, ClockText(t, tail))
  }

  /** The whole-second form `YYYY-MM-DDTHH:MM:SSZ`. */
  function FormatWhole(t: DateTime): string
    requires Valid(t)
  {
    Stamp(t, "Z")
  }

  /** The first `k` of the six digits of a microsecond count. */
  function Leading(micro: nat, k: nat): nat
    requires 1 <= k <= 6
  {
    if k == 6 then micro
    else if k == 5 then micro / 10
    else if k == 4 then micro / 100
    else if k == 3 then micro / 1000
    else if k == 2 then micro / 10000
    else micro / 100000
  }

  /** The fractional form with `k` fraction digits, as the listing API writes it. */
  function FormatFraction(t: DateTime, k: nat): string
    requires Valid(t) && 1 <= k <= 6
  {
    var digits := Pad(Leading(t.micro, k), k);
    Stamp(t, "." + (digits + "Z"))
  }

  // ----- lemmas

  /** A zero-padded field followed by a non-digit is read back as its value. */
  lemma NumberOfPad(v: nat, w: nat, rest: string, minLen: nat, maxLen: nat)
    requires minLen <= w <= maxLen && v < Pow10(w)
    requires rest == [] || !IsDigit(rest[0])
    ensures Number(Pad(v, w) + rest, minLen, maxLen) == Some(Num(v, rest))
  {
    RunOfDigits(Pad(v, w), rest);
    ValueOfPad(v, w);
  }

  lemma FractionOfPad(v: nat, k: nat, rest: string)
    requires 1 <= k <= 6 && v < Pow10(k)
    requires rest == [] || !IsDigit(rest[0])
    ensures Fraction(Pad(v, k) + rest) == Some(Num(v * Pow10(6 - k), rest))
  {
    RunOfDigits(Pad(v, k), rest);
    ValueOfPad(v, k);
  }

  lemma LitFront(c: char, rest: string)
    ensures Lit([c] + rest, c) == Some(rest)
  {
    assert ([c] + rest)[1..] == rest;
  }

  /** A padded field in `lo..hi` followed by a non-digit is read back. */
  lemma FieldOfPad(v: nat, rest: string, lo: nat, hi: nat)
    requires lo <= v <= hi && v < 100
    requires rest == [] || !IsDigit(rest[0])
    ensures Field(Pad(v, 2) + rest, 1, 2, lo, hi) == Some(Num(v, rest))
  {
    assert Pow10(2) == 100;
    NumberOfPad(v, 2, rest, 1, 2);
  }

  lemma ReadDateText(t: DateTime, rest: string)
    requires Valid(t)
    ensures ReadDate(DateText(t, rest)) == Some(Triple(t.year, t.month, t.day, rest))
  {
    var s2 := Pad(t.day, 2) + ("T" + rest);
    var s1 := Pad(t.month, 2) + ("-" + s2);
    var s0 := Pad(t.year, 4) + ("-" + s1);
    assert Number(s0, 4, 4) == Some(Num(t.year, "-" + s1)) by {
      assert Pow10(4) == 10000 by { assert Pow10(2) == 100; }
      NumberOfPad(t.year, 4, "-" + s1, 4, 4);
    }
    LitFront('-', s1);
    FieldOfPad(t.month, "-" + s2, 1, 12);
    LitFront('-', s2);
    assert DayField(s2) == Some(Num(t.day, "T" + rest)) by {
      assert IsDigit(Pad(t.day, 2)[0]);
      FieldOfPad(t.day, "T" + rest, 1, 31);
    }
    LitFront('T', rest);
  }

  lemma ReadClockText(t: DateTime, tail: string)
    requires Valid(t)
    requires tail == [] || !IsDigit(tail[0])
    ensures ReadClock(ClockText(t, tail)) == Some(Triple(t.hour, t.minute, t.second, tail))
  {
    var s2 := Pad(t.second, 2) + tail;
    var s1 := Pad(t.minute, 2) + (":" + s2);
    FieldOfPad(t.hour, ":" + s1, 0, 23);
    LitFront(':', s1);
    FieldOfPad(t.minute, ":" + s2, 0, 59);
    LitFront(':', s2);
    FieldOfPad(t.second, tail, 0, 61);
  }

  lemma ReadStamp(t: DateTime, tail: string)
    requires Valid(t)
    requires tail == [] || !IsDigit(tail[0])
    ensures ReadDate(Stamp(t, tail)) == Some(Triple(t.year, t.month, t.day, ClockText(t, tail)))
    ensures ReadClock(ClockText(t, tail)) == Some(Triple(t.hour, t.minute, t.second, tail))
  {
    assert Pad(t.hour, 2)[0] != ' ' && IsDigit(Pad(t.hour, 2)[0]);
    ReadDateText(t, ClockText(t, tail));
    ReadClockText(t, tail);
  }

  /** A written stamp whose tail reads back as `f` parses to `t` with `f`'s
      microseconds. */
  lemma ReadBack(t: DateTime, tail: string, fractional: bool, f: Num)
    requires Valid(t) && 0 <= f.value < 1_000_000
    requires tail == [] || !IsDigit(tail[0])
    requires Tail(tail, fractional) == Some(f) && Lit(f.rest, 'Z') == Some([])
    ensures Strptime(Stamp(t, tail), fractional) == Some(t.(micro := f.value))
  {
    ReadStamp(t, tail);
  }

  /** A written stamp whose tail does not match the format is rejected. */
  lemma TailMismatch(t: DateTime, tail: string, fractional: bool)
    requires Valid(t)
    requires tail == [] || !IsDigit(tail[0])
    requires Tail(tail, fractional) == None
    ensures Strptime(Stamp(t, tail), fractional) == None
  {
    ReadStamp(t, tail);
  }

  /** A timestamp written with `k` fraction digits reads back as the same
      datetime with its microseconds cut to those `k` digits. */
  lemma FractionRoundTrip(t: DateTime, k: nat)
    requires Valid(t) && 1 <= k <= 6
    ensures ParseCreated(Some(FormatFraction(t, k)))
         == Ok(t.(micro := Leading(t.micro, k) * Pow10(6 - k)))
  {
    var v := Leading(t.micro, k);
    CutDigits(t.micro, k);
    var tail := "." + (Pad(v, k) + "Z");
    FractionOfPad(v, k, "Z");
    LitFront('.', Pad(v, k) + "Z");
    assert Lit("Z", 'Z') == Some([]) by {
      assert ['Z'] + [] == "Z";
      LitFront('Z', []);
    }
    assert Tail(tail, true) == Some(Num(v * Pow10(6 - k), "Z"));
    ReadBack(t, tail, true, Num(v * Pow10(6 - k), "Z"));
  }

  lemma PowTable()
    ensures Pow10(0) == 1 && Pow10(1) == 10 && Pow10(2) == 100 && Pow10(3) == 1000
    ensures Pow10(4) == 10_000 && Pow10(5) == 100_000 && Pow10(6) == 1_000_000
  {
  }

  /** Keeping the first `k` of six fraction digits truncates the count to a
      multiple of `10^(6-k)`. */
  lemma CutDigits(micro: nat, k: nat)
    requires micro < 1_000_000 && 1 <= k <= 6
    ensures Leading(micro, k) < Pow10(k)
    ensures Leading(micro, k) * Pow10(6 - k) <= micro < (Leading(micro, k) + 1) * Pow10(6 - k)
  {
    PowTable();
  }

  /** The whole-second form fails the fractional format and reads back through
      the fallback with zero microseconds. */
  lemma WholeRoundTrip(t: DateTime)
    requires Valid(t)
    ensures ParseCreated(Some(FormatWhole(t))) == Ok(t.(micro := 0))
  {
    assert Lit("Z", '.') == None;
    TailMismatch(t, "Z", true);
    assert Lit("Z", 'Z') == Some([]) by {
      assert ['Z'] + [] == "Z";
      LitFront('Z', []);
    }
    ReadBack(t, "Z", false, Num(0, "Z"));
  }

  /** `2024-01-15T10:30:00.000000Z` and `2024-01-15T10:30:00Z` are one instant. */
  lemma FormatsAgree(t: DateTime)
    requires Valid(t) && t.micro == 0
    ensures ParseCreated(Some(FormatFraction(t, 6))) == ParseCreated(Some(FormatWhole(t)))
  {
    FractionRoundTrip(t, 6);
    WholeRoundTrip(t);
  }

  lemma DaysBeforeYearStep(y: int)
    requires y >= 1
    ensures DaysBeforeYear(y + 1) == DaysBeforeYear(y) + DaysInYear(y)
  {
    QuarterStep(y);
    CenturyStep(y);
    QuadCenturyStep(y);
    Divisors(y);
    var y1 := y - 1;
    assert DaysBeforeYear(y + 1) - DaysBeforeYear(y)
        == 365 + (y / 4 - y1 / 4) - (y / 100 - y1 / 100) + (y / 400 - y1 / 400);
  }

  lemma Divisors(y: int)
    ensures y % 400 == 0 ==> y % 100 == 0
    ensures y % 100 == 0 ==> y % 4 == 0
  {
  }

  lemma QuarterStep(y: int)
    ensures y / 4 - (y - 1) / 4 == (if y % 4 == 0 then 1 else 0)
  {
  }

  lemma CenturyStep(y: int)
    ensures y / 100 - (y - 1) / 100 == (if y % 100 == 0 then 1 else 0)
  {
  }

  lemma QuadCenturyStep(y: int)
    ensures y / 400 - (y - 1) / 400 == (if y % 400 == 0 then 1 else 0)
  {
  }

  /** Every day of year `a` comes before the first day of a later year `b`. */
  lemma {:induction false} YearsAscend(a: int, b: int)
    requires 1 <= a < b
    ensures DaysBeforeYear(a) + DaysInYear(a) <= DaysBeforeYear(b)
    decreases b - a
  {
    DaysBeforeYearStep(a);
    if a + 1 < b {
      YearsAscend(a + 1, b);
    }
  }

  /** Every day of month `a` comes before the first day of a later month `b`. */
  lemma MonthsAscend(y: int, a: int, b: int)
    requires 1 <= a < b <= 12
    ensures DaysBeforeMonth(y, a) + DaysInMonth(y, a) <= DaysBeforeMonth(y, b)
  {
  }

  lemma MonthFits(y: int, m: int)
    requires 1 <= m <= 12
    ensures DaysBeforeMonth(y, m) + DaysInMonth(y, m) <= DaysInYear(y)
  {
  }

  lemma BeforeMeansEarlier(a: DateTime, b: DateTime)
    requires Valid(a) && Valid(b) && Before(a, b)
    ensures Instant(a) < Instant(b)
  {
    assert 0 <= TimeOfDay(a) < DayMicros && 0 <= TimeOfDay(b) < DayMicros;
    if a.year != b.year {
      YearsAscend(a.year, b.year);
      MonthFits(a.year, a.month);
      assert Ordinal(a) < Ordinal(b);
    } else if a.month != b.month {
      MonthsAscend(a.year, a.month, b.month);
      assert Ordinal(a) < Ordinal(b);
    }
  }

  /** Python's field-by-field comparison of naive datetimes is exactly the
      comparison of their instants, so the model compares integers. */
  lemma InstantOrder(a: DateTime, b: DateTime)
    requires Valid(a) && Valid(b)
    ensures Before(a, b) <==> Instant(a) < Instant(b)
    ensures a == b <==> Instant(a) == Instant(b)
  {
    if Before(a, b) {
      BeforeMeansEarlier(a, b);
    } else if a != b {
      assert Before(b, a);
      BeforeMeansEarlier(b, a);
    }
  }
}
