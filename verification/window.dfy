/** The reporting window: last week's Monday 00:00:00.000000 through Sunday
    23:59:59.999999, computed from the current time. Instants are counted in
    microseconds from 0001-01-01T00:00:00, so day 0 is a Monday and a day's
    weekday is its number modulo 7 (`date.weekday()`, Monday = 0). */
module Window {
  import opened Results
  import opened Timestamps

  function Day(t: int): int {
    t / DayMicros
  }

  function Weekday(t: int): int {
    Day(t) % 7
  }

  /** Midnight of the day holding `t`. */
  function Midnight(t: int): int {
    Day(t) * DayMicros
  }

  datatype Span = Span(start: int, end: int)

  /** Subtracting `days` whole days, failing below 0001-01-01 as the
      `datetime` arithmetic does. */
  function MinusDays(t: int, days: int): Result<int> {
    if t - days * DayMicros < 0 then Err(DateOutOfRange) else Ok(t - days * DayMicros)
  }

  /** `q` days and `r` microseconds in is day `q`. */
  lemma DayOf(q: int, r: int)
    requires 0 <= r < DayMicros
    ensures Day(q * DayMicros + r) == q
  {
  }

  lemma DayMonotone(a: int, b: int)
    requires a <= b
    ensures Day(a) <= Day(b)
  {
  }

  /** Day `7 * q + r` of the calendar has weekday `r`. */
  lemma WeekdayOf(q: int, r: int)
    requires 0 <= r < 7
    ensures (7 * q + r) % 7 == r
  {
  }

  /** `last_sunday = now - (weekday + 1) days`, its end of day; then
      `last_monday = last_sunday - 6 days`, its start of day. */
  function ReportingWindow(now: nat): (r: Result<Span>)
    ensures r.Err? <==> Day(now) < 7
    ensures r.Ok? ==> var w := r.value;
      && Weekday(w.start) == 0 && w.start == Midnight(w.start)
      && Weekday(w.end) == 6 && w.end == Midnight(w.end) + DayMicros - 1
      && w.end - w.start == 7 * DayMicros - 1
      && w.end < Midnight(now) - Weekday(now) * DayMicros <= now
  {
    WindowDays(now);
    var sunday :- MinusDays(now, Weekday(now) + 1);
    var monday :- MinusDays(sunday, 6);
    Ok(Span(Midnight(monday), Midnight(sunday) + DayMicros - 1))
  }

  /** The day arithmetic behind the window: with `now` on day `7 * q + w`,
      last Sunday is day `7 * q - 1` and last Monday day `7 * q - 7`. */
  lemma WindowDays(now: nat)
    ensures var q, w := Day(now) / 7, Weekday(now);
      var sunday := now - (w + 1) * DayMicros;
      var monday := sunday - 6 * DayMicros;
      && Day(now) == 7 * q + w && 0 <= w < 7
      && (sunday < 0 || monday < 0 <==> Day(now) < 7)
      && Day(sunday) == 7 * q - 1 && Day(monday) == 7 * q - 7
      && Midnight(now) <= now
      && Midnight(now) - w * DayMicros == 7 * q * DayMicros
      && Weekday(7 * q * DayMicros - 7 * DayMicros) == 0
      && Day(7 * q * DayMicros - 7 * DayMicros) == 7 * q - 7
      && Weekday(7 * q * DayMicros - 1) == 6
      && Day(7 * q * DayMicros - 1) == 7 * q - 1
  {
    var d, q, w := Day(now), Day(now) / 7, Weekday(now);
    var r := now - d * DayMicros;
    assert 0 <= r < DayMicros;
    assert sunday_is: now - (w + 1) * DayMicros == (7 * q - 1) * DayMicros + r;
    DayOf(7 * q - 1, r);
    assert now - (w + 1) * DayMicros - 6 * DayMicros == (7 * q - 7) * DayMicros + r;
    DayOf(7 * q - 7, r);
    assert 7 * q * DayMicros - 7 * DayMicros == (7 * q - 7) * DayMicros + 0;
    DayOf(7 * q - 7, 0);
    WeekdayOf(q - 1, 0);
    assert 7 * q * DayMicros - 1 == (7 * q - 1) * DayMicros + (DayMicros - 1);
    DayOf(7 * q - 1, DayMicros - 1);
    WeekdayOf(q - 1, 6);
  }

  /** The window starts at the Monday that opens the week before the current
      one: the current week's Monday midnight lies exactly seven days later. */
  lemma WindowIsLastWeek(now: nat)
    requires Day(now) >= 7
    ensures ReportingWindow(now).Ok?
    ensures ReportingWindow(now).value.start + 7 * DayMicros
         == Midnight(now) - Weekday(now) * DayMicros
  {
    WindowDays(now);
  }

  /** The window's start is the only Monday midnight `m` with
      `m <= now - 7 days < m + 7 days`. */
  lemma WindowStartUnique(now: nat, m: int)
    requires Day(now) >= 7
    requires m >= 0 && m % (7 * DayMicros) == 0
    requires m <= now - 7 * DayMicros < m + 7 * DayMicros
    ensures ReportingWindow(now) == Ok(Span(m, m + 7 * DayMicros - 1))
  {
    WindowDays(now);
    var q := Day(now) / 7;
    var j := m / (7 * DayMicros);
    assert m == j * 7 * DayMicros;
    var r := now - Day(now) * DayMicros;
    assert now == Day(now) * DayMicros + r && 0 <= r < DayMicros;
    // 7 (j + 1) days <= now < 7 (j + 2) days, so now's day lies in week j + 1
    assert (j + 1) * 7 * DayMicros <= now < (j + 2) * 7 * DayMicros;
    DayOf(7 * (j + 1), 0);
    DayMonotone((j + 1) * 7 * DayMicros, now);
    DayOf(7 * (j + 2) - 1, DayMicros - 1);
    DayMonotone(now, (j + 2) * 7 * DayMicros - 1);
    assert 7 * (j + 1) <= Day(now) < 7 * (j + 2);
    assert q == j + 1;
  }

  /** The other derivation of the same start, `now - (weekday + 7)` days at
      midnight, gives the same Monday. */
  lemma WindowAlternative(now: nat)
    requires Day(now) >= 7
    ensures ReportingWindow(now).Ok?
    ensures ReportingWindow(now).value.start
         == Midnight(now - (Weekday(now) + 7) * DayMicros)
    ensures ReportingWindow(now).value.end
         == Midnight(now - (Weekday(now) + 7) * DayMicros + 6 * DayMicros) + DayMicros - 1
  {
    WindowDays(now);
    var w := Weekday(now);
    assert now - (w + 7) * DayMicros == now - (w + 1) * DayMicros - 6 * DayMicros;
    assert now - (w + 7) * DayMicros + 6 * DayMicros == now - (w + 1) * DayMicros;
  }
}
