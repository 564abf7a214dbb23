/**
 Points of time as Python's timezone-aware `datetime` holds them, counted in
 whole microseconds since 1970-01-01T00:00:00 UTC, together with the proleptic
 Gregorian calendar and `datetime.isoformat()` for a UTC value.
 */
module Instants {
  import opened PyStrings

  const MicrosPerSecond: int := 1_000_000
  const MicrosPerMinute: int := 60 * MicrosPerSecond
  const MicrosPerHour: int := 3600 * MicrosPerSecond
  const MicrosPerDay: int := 86400 * MicrosPerSecond
  const MicrosPerWeek: int := 7 * MicrosPerDay

  /** Day numbers (days since 1970-01-01) of 0001-01-01 and 9999-12-31, the
      first and last days `datetime` can represent. */
  const MinDay: int := -719162
  const MaxDay: int := 2932896

  /** 0001-01-01T00:00:00 and 9999-12-31T23:59:59.999999. */
  const MinInstant: int := MinDay * MicrosPerDay
  const MaxInstant: int := (MaxDay + 1) * MicrosPerDay - 1

  /** A value a `datetime` can hold; arithmetic that leaves this range raises
      `OverflowError` in Python. */
  type Instant = t: int | MinInstant <= t <= MaxInstant

  predicate InRange(t: int) {
    MinInstant <= t <= MaxInstant
  }

  /** What a date parser returns: a naive wall-clock reading, or a reading
      with its UTC offset (both in microseconds). */
  datatype ParsedTime = Naive(wall: Instant) | Aware(wall: Instant, offset: int)

  /** `dt.replace(microsecond=0)`: the start of the second `t` falls in. */
  function TruncateToSecond(t: Instant): (r: Instant)
    ensures r % MicrosPerSecond == 0
    ensures r <= t < r + MicrosPerSecond
  {
    t - t % MicrosPerSecond
  }

  /** A calendar date of the proleptic Gregorian calendar. */
  datatype Civil = Civil(year: int, month: int, day: int)

  /** A day of a 400-year era that starts on 0000-03-01: the year of the era
      (years start on the 1st of March, so a leap day is a year's last day)
      and the day of that year. */
  datatype EraDay = EraDay(yoe: int, doy: int)

  /** Splits the days of an era into centuries (the last one a day longer),
      four-year groups (the last one of a short century a day shorter) and
      years (the last one of a group a day longer). */
  function SplitEra(doe: int): (r: EraDay)
    requires 0 <= doe < 146097
    ensures 0 <= r.yoe <= 399 && 0 <= r.doy <= 365
    ensures 365 * r.yoe + r.yoe / 4 - r.yoe / 100 + r.doy == doe
  {
    var n100 := if doe / 36524 < 3 then doe / 36524 else 3;
    var r100 := doe - n100 * 36524;
    assert 0 <= r100 <= 36524;
    var n4 := r100 / 1461;
    var r4 := r100 % 1461;
    assert n4 <= 24;
    var n1 := if r4 / 365 < 3 then r4 / 365 else 3;
    var yoe := 100 * n100 + 4 * n4 + n1;
    assert yoe / 4 == 25 * n100 + n4;
    assert yoe / 100 == n100;
    EraDay(yoe, r4 - 365 * n1)
  }

  /** Month (March = 0) of a day of a March-based year, and the days before it. */
  lemma MonthOfYearDay(doy: int)
    requires 0 <= doy <= 365
    ensures 0 <= (5 * doy + 2) / 153 <= 11
    ensures 1 <= doy - (153 * ((5 * doy + 2) / 153) + 2) / 5 + 1 <= 31
  {
  }

  /** The calendar date of day number `z` (days since 1970-01-01). */
  function CivilFromDays(z: int): (c: Civil)
    ensures 1 <= c.month <= 12 && 1 <= c.day <= 31
    ensures MinDay <= z <= MaxDay ==> 1 <= c.year <= 9999
  {
    var z' := z + 719468;
    var era := z' / 146097;
    var ed := SplitEra(z' % 146097);
    var mp := (5 * ed.doy + 2) / 153;
    MonthOfYearDay(ed.doy);
    var d := ed.doy - (153 * mp + 2) / 5 + 1;
    var m := if mp < 10 then mp + 3 else mp - 9;
    var y := ed.yoe + era * 400;
    Civil(if m <= 2 then y + 1 else y, m, d)
  }

  /** The day number of a calendar date; the inverse of `CivilFromDays`. */
  function DaysFromCivil(c: Civil): int {
    var y := if c.month <= 2 then c.year - 1 else c.year;
    var era := y / 400;
    var yoe := y % 400;
    var mp := if c.month > 2 then c.month - 3 else c.month + 9;
    var doy := (153 * mp + 2) / 5 + c.day - 1;
    var doe := yoe * 365 + yoe / 4 - yoe / 100 + doy;
    era * 146097 + doe - 719468
  }

  /** Every day number is recovered from its calendar date. */
  lemma DaysFromCivilInverts(z: int)
    ensures DaysFromCivil(CivilFromDays(z)) == z
  {
    var z' := z + 719468;
    var era := z' / 146097;
    var ed := SplitEra(z' % 146097);
    MonthOfYearDay(ed.doy);
    var mp := (5 * ed.doy + 2) / 153;
    var m := if mp < 10 then mp + 3 else mp - 9;
    var y := ed.yoe + era * 400;
    ModUnique(y, era, ed.yoe, 400);
    var c := CivilFromDays(z);
    assert c.month == m;
    assert (if c.month <= 2 then c.year - 1 else c.year) == y;
    assert (if c.month > 2 then c.month - 3 else c.month + 9) == mp;
    assert (153 * mp + 2) / 5 + c.day - 1 == ed.doy;
    assert z' == era * 146097 + z' % 146097;
  }

  /** The hour, minute, second and microsecond fields of a time of day. */
  datatype Clock = Clock(hour: int, minute: int, second: int, micro: int)

  /** The clock fields of `t`; they add back up to the time since midnight. */
  function ClockOf(t: int): (k: Clock)
    ensures 0 <= k.hour < 24 && 0 <= k.minute < 60 && 0 <= k.second < 60
    ensures 0 <= k.micro < MicrosPerSecond
    ensures t % MicrosPerDay
            == (3600 * k.hour + 60 * k.minute + k.second) * MicrosPerSecond + k.micro
  {
    var us := t % MicrosPerDay;
    var secs := us / MicrosPerSecond;
    assert secs == 3600 * (secs / 3600) + 60 * (secs / 60 % 60) + secs % 60;
    Clock(secs / 3600, secs / 60 % 60, secs % 60, us % MicrosPerSecond)
  }

  /** `YYYY-MM-DD`, each field zero-padded. */
  function DatePart(c: Civil): (r: string)
    requires 1 <= c.year <= 9999 && 1 <= c.month <= 12 && 1 <= c.day <= 31
    ensures |r| == 10
    ensures r[..4] == PadDigits(c.year, 4) && r[4] == '-'
    ensures r[5..7] == PadDigits(c.month, 2) && r[7] == '-'
    ensures r[8..] == PadDigits(c.day, 2)
  {
    PadDigits(c.year, 4) + "-" + PadDigits(c.month, 2) + "-" + PadDigits(c.day, 2)
  }

  /** `HH:MM:SS`, each field zero-padded. */
  function TimePart(k: Clock): (r: string)
    requires 0 <= k.hour < 24 && 0 <= k.minute < 60 && 0 <= k.second < 60
    ensures |r| == 8
    ensures r[..2] == PadDigits(k.hour, 2) && r[2] == ':'
    ensures r[3..5] == PadDigits(k.minute, 2) && r[5] == ':'
    ensures r[6..] == PadDigits(k.second, 2)
  {
    PadDigits(k.hour, 2) + ":" + PadDigits(k.minute, 2) + ":" + PadDigits(k.second, 2)
  }

  /** `.ffffff` for a non-zero microsecond field, nothing for zero. */
  function FractionPart(micro: int): (r: string)
    requires 0 <= micro < MicrosPerSecond
    ensures micro == 0 ==> r == ""
    ensures micro != 0 ==> |r| == 7 && r[0] == '.' && r[1..] == PadDigits(micro, 6)
  {
    if micro == 0 then "" else "." + PadDigits(micro, 6)
  }

  /** `datetime.isoformat()` of a UTC value: `YYYY-MM-DDTHH:MM:SS`, then
      `.ffffff` when the microsecond field is non-zero, then `+00:00`. */
  function IsoFormat(t: Instant): (r: string)
    ensures var c, k := CivilFromDays(t / MicrosPerDay), ClockOf(t);
      && |r| == 25 + |FractionPart(k.micro)|
      && r[..10] == DatePart(c) && r[10] == 'T' && r[11..19] == TimePart(k)
      && r[19..|r| - 6] == FractionPart(k.micro) && r[|r| - 6..] == "+00:00"
  {
    var c := CivilFromDays(t / MicrosPerDay);
    var k := ClockOf(t);
    DatePart(c) + "T" + TimePart(k) + FractionPart(k.micro) + "+00:00"
  }

  /** The rendering of a whole-second UTC value is the 25 characters
      `YYYY-MM-DDTHH:MM:SS+00:00`: no fractional part, a `+00:00` offset. */
  lemma IsoFormatWholeSecond(t: Instant)
    requires t % MicrosPerSecond == 0
    ensures |IsoFormat(t)| == 25
    ensures IsoFormat(t)[19..] == "+00:00"
  {
    MicroOfDay(t);
    assert ClockOf(t).micro == 0;
  }

  /** The microsecond field of the time of day is that of the instant. */
  lemma MicroOfDay(t: int)
    ensures (t % MicrosPerDay) % MicrosPerSecond == t % MicrosPerSecond
  {
    var q, r := t / MicrosPerDay, t % MicrosPerDay;
    var q2, r2 := r / MicrosPerSecond, r % MicrosPerSecond;
    ModUnique(t, q * 86400 + q2, r2, MicrosPerSecond);
  }

  /** The day number of an instant lies between those of 0001-01-01 and
      9999-12-31. */
  lemma DayNumberInRange(t: Instant)
    ensures MinDay <= t / MicrosPerDay <= MaxDay
  {
    var q := t / MicrosPerDay;
    assert q < MinDay ==> q * MicrosPerDay <= (MinDay - 1) * MicrosPerDay;
    assert q > MaxDay ==> q * MicrosPerDay >= (MaxDay + 1) * MicrosPerDay;
  }

  /** Euclidean division has one quotient and one remainder. */
  lemma ModUnique(t: int, x: int, r: int, m: int)
    requires m > 0 && t == x * m + r && 0 <= r < m
    ensures t % m == r && t / m == x
  {
    var q, rr := t / m, t % m;
    var d := x - q;
    assert d * m == rr - r;
    assert d > 0 ==> d * m >= m;
    assert d < 0 ==> d * m <= -m;
  }

  /** An instant is its day number's midnight plus its clock fields. */
  lemma Reassemble(t: int)
    ensures var k := ClockOf(t);
      t == (t / MicrosPerDay) * MicrosPerDay
           + (3600 * k.hour + 60 * k.minute + k.second) * MicrosPerSecond + k.micro
  {
  }

  /** Distinct instants have distinct renderings, so the string keeps the
      whole value. */
  lemma IsoFormatInjective(a: Instant, b: Instant)
    requires IsoFormat(a) == IsoFormat(b)
    ensures a == b
  {
    var ca, cb := CivilFromDays(a / MicrosPerDay), CivilFromDays(b / MicrosPerDay);
    var ka, kb := ClockOf(a), ClockOf(b);
    var s := IsoFormat(a);
    DayNumberInRange(a);
    DayNumberInRange(b);
    DatePartInjective(ca, cb, s[..10]);
    TimePartInjective(ka, kb, s[11..19]);
    assert |FractionPart(ka.micro)| == |FractionPart(kb.micro)|;
    FractionPartInjective(ka.micro, kb.micro, s[19..|s| - 6]);
    assert ka == kb;
    DaysFromCivilInverts(a / MicrosPerDay);
    DaysFromCivilInverts(b / MicrosPerDay);
    assert a / MicrosPerDay == b / MicrosPerDay;
    Reassemble(a);
    Reassemble(b);
  }

  lemma DatePartInjective(x: Civil, y: Civil, s: string)
    requires 1 <= x.year <= 9999 && 1 <= x.month <= 12 && 1 <= x.day <= 31
    requires 1 <= y.year <= 9999 && 1 <= y.month <= 12 && 1 <= y.day <= 31
    requires DatePart(x) == s && DatePart(y) == s
    ensures x == y
  {
    assert DigitsValue(s[..4]) == x.year == y.year;
    assert DigitsValue(s[5..7]) == x.month == y.month;
    assert DigitsValue(s[8..]) == x.day == y.day;
  }

  lemma TimePartInjective(x: Clock, y: Clock, s: string)
    requires 0 <= x.hour < 24 && 0 <= x.minute < 60 && 0 <= x.second < 60
    requires 0 <= y.hour < 24 && 0 <= y.minute < 60 && 0 <= y.second < 60
    requires TimePart(x) == s && TimePart(y) == s
    ensures x.hour == y.hour && x.minute == y.minute && x.second == y.second
  {
    assert DigitsValue(s[..2]) == x.hour == y.hour;
    assert DigitsValue(s[3..5]) == x.minute == y.minute;
    assert DigitsValue(s[6..]) == x.second == y.second;
  }

  lemma FractionPartInjective(x: int, y: int, s: string)
    requires 0 <= x < MicrosPerSecond && 0 <= y < MicrosPerSecond
    requires FractionPart(x) == s && FractionPart(y) == s
    ensures x == y
  {
    if x != 0 {
      assert DigitsValue(s[1..]) == x == y;
    }
  }
}
