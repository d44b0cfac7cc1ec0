/**
 * The local-day keyer: instants, the Asia/Manila wall clock and the
 * JavaScript comparisons on Date values.
 *
 * An instant is a JavaScript time value, milliseconds since the epoch, or NaN
 * for an Invalid Date. Asia/Manila is UTC+8 with no daylight saving, so the
 * local wall clock is the instant shifted by eight hours.
 */
module Manila {
  import opened Wrappers

  const MS_PER_SECOND: int := 1000
  const MS_PER_MINUTE: int := 60 * MS_PER_SECOND
  const MS_PER_HOUR: int := 60 * MS_PER_MINUTE
  const MS_PER_DAY: int := 24 * MS_PER_HOUR
  const SECONDS_PER_DAY: int := 86400
  /** UTC offset of Asia/Manila. */
  const OFFSET_MS: int := 8 * MS_PER_HOUR

  /** A JavaScript Date's time value. */
  datatype Stamp = Ms(ms: int) | NaN

  /** The relational operators on Date values: every comparison with NaN is false. */
  predicate Lt(a: Stamp, b: Stamp) { a.Ms? && b.Ms? && a.ms < b.ms }
  predicate Gt(a: Stamp, b: Stamp) { a.Ms? && b.Ms? && a.ms > b.ms }
  predicate Le(a: Stamp, b: Stamp) { a.Ms? && b.Ms? && a.ms <= b.ms }
  predicate Ge(a: Stamp, b: Stamp) { a.Ms? && b.Ms? && a.ms >= b.ms }

  /** A time of day "HH:MM:SS", as the second of the local day. */
  type SecondOfDay = s: int | 0 <= s < SECONDS_PER_DAY

  /** A time of day given by hours, minutes and seconds. */
  function Hms(h: int, m: int, s: int): int { h * 3600 + m * 60 + s }

  function LocalMs(t: int): int { t + OFFSET_MS }

  /** The Manila calendar day of an instant, as a day number (day 0 is 1970-01-01). */
  function DayKey(t: int): int { LocalMs(t) / MS_PER_DAY }

  /** Milliseconds since Manila midnight. */
  function MsOfDay(t: int): (m: int)
    ensures 0 <= m < MS_PER_DAY
  {
    LocalMs(t) % MS_PER_DAY
  }

  /** The "HH:MM:SS" time of day of an instant; the milliseconds are dropped. */
  function TimeOfDay(t: int): SecondOfDay { MsOfDay(t) / MS_PER_SECOND }

  /** The hour field of an "HH:MM:SS" time. */
  function Hour(s: SecondOfDay): (h: int)
    ensures 0 <= h < 24
    ensures h * 3600 <= s < (h + 1) * 3600
  {
    s / 3600
  }

  /** The instant at `msOfDay` milliseconds after Manila midnight of day `day`. */
  function AtLocal(day: int, msOfDay: int): int { day * MS_PER_DAY + msOfDay - OFFSET_MS }

  /** The local day and time of day of `AtLocal(day, m)` are `day` and `m`. */
  lemma {:induction false} AtLocalKey(day: int, m: int)
    requires 0 <= m < MS_PER_DAY
    ensures DayKey(AtLocal(day, m)) == day
    ensures MsOfDay(AtLocal(day, m)) == m
  {
    assert LocalMs(AtLocal(day, m)) == day * MS_PER_DAY + m;
    DivModUnique(day * MS_PER_DAY + m, MS_PER_DAY, day, m);
  }

  /** Every instant lies in the local day its key names: the boundary is Manila midnight, not UTC midnight. */
  lemma {:induction false} DayKeyBounds(t: int)
    ensures AtLocal(DayKey(t), 0) <= t < AtLocal(DayKey(t) + 1, 0)
    ensures t == AtLocal(DayKey(t), MsOfDay(t))
  {
    var x := LocalMs(t);
    assert x == (x / MS_PER_DAY) * MS_PER_DAY + x % MS_PER_DAY;
  }

  lemma {:induction false} DivModUnique(x: int, d: int, q: int, r: int)
    requires 0 < d && 0 <= r < d && x == q * d + r
    ensures x / d == q && x % d == r
  {
    var q', r' := x / d, x % d;
    assert x == q' * d + r';
    if q' > q {
      MulAtLeast(q' - q, d);
    } else if q' < q {
      MulAtLeast(q - q', d);
    }
  }

  lemma {:induction false} MulAtLeast(a: int, d: int)
    requires a >= 1 && d > 0
    ensures a * d >= d
    decreases a
  {
    if a > 1 {
      MulAtLeast(a - 1, d);
      assert a * d == (a - 1) * d + d;
    }
  }

  /**
   * The instant of a local date and time of day written with a fixed +08:00
   * offset; an invalid date string gives an Invalid Date.
   */
  function FormatDateTime(date: Option<int>, time: SecondOfDay): Stamp
  {
    match date
    case Some(day) => Ms(AtLocal(day, time * MS_PER_SECOND))
    case None => NaN
  }

  /** The date key and time of day of a valid instant give that instant back, its milliseconds dropped. */
  lemma {:induction false} FormatDateTimeInverse(t: int)
    ensures FormatDateTime(Some(DayKey(t)), TimeOfDay(t)) == Ms(t - t % MS_PER_SECOND)
  {
    DayKeyBounds(t);
    var m := MsOfDay(t);
    assert m == (m / MS_PER_SECOND) * MS_PER_SECOND + m % MS_PER_SECOND;
    var x := LocalMs(t);
    assert x % MS_PER_SECOND == m % MS_PER_SECOND by {
      assert x == DayKey(t) * MS_PER_DAY + m;
      assert DayKey(t) * MS_PER_DAY == (DayKey(t) * 86400) * MS_PER_SECOND;
      DivModUnique(x, MS_PER_SECOND, DayKey(t) * 86400 + m / MS_PER_SECOND, m % MS_PER_SECOND);
    }
    assert t % MS_PER_SECOND == x % MS_PER_SECOND by {
      DivModUnique(t, MS_PER_SECOND, x / MS_PER_SECOND - 28800, x % MS_PER_SECOND);
    }
  }

  /** Comparing two times of the same valid date compares the times of day. */
  lemma {:induction false} FormatDateTimeMonotone(day: int, a: SecondOfDay, b: SecondOfDay)
    ensures Lt(FormatDateTime(Some(day), a), FormatDateTime(Some(day), b)) <==> a < b
    ensures Gt(FormatDateTime(Some(day), a), FormatDateTime(Some(day), b)) <==> a > b
    ensures FormatDateTime(Some(day), b).ms - FormatDateTime(Some(day), a).ms == (b - a) * MS_PER_SECOND
  {
  }

  /**
   * Setting the local clock of `d` to 23:59:59.999, with the host in
   * Asia/Manila: the last millisecond of the instant's local day. An Invalid Date stays invalid.
   */
  function EndOfDay(d: Stamp): (e: Stamp)
    ensures d.NaN? <==> e.NaN?
    ensures d.Ms? ==> DayKey(e.ms) == DayKey(d.ms) && MsOfDay(e.ms) == MS_PER_DAY - 1
  {
    match d
    case NaN => NaN
    case Ms(t) =>
      AtLocalKey(DayKey(t), MS_PER_DAY - 1);
      Ms(AtLocal(DayKey(t), MS_PER_DAY - 1))
  }

  /** An instant is at or before the end of a day's last millisecond exactly when its local day is not later. */
  lemma {:induction false} EndOfDayBound(d: int, t: int)
    ensures Le(Ms(t), EndOfDay(Ms(d))) <==> DayKey(t) <= DayKey(d)
  {
    DayKeyBounds(t);
    DayKeyBounds(d);
  }

  /**
   * The opaque display string of the Philippine English locale in the
   * Asia/Manila zone: the local date and time to the second, or "Invalid Date".
   */
  datatype Display = Shown(day: int, time: SecondOfDay) | InvalidDate

  function ToManilaString(d: Stamp): Display
  {
    match d
    case Ms(t) => Shown(DayKey(t), TimeOfDay(t))
    case NaN => InvalidDate
  }

  /** Two valid instants display the same exactly when they fall in the same second: only the milliseconds are lost. */
  lemma ToManilaStringSameSecond(a: int, b: int)
    ensures ToManilaString(Ms(a)) == ToManilaString(Ms(b)) <==> a - a % MS_PER_SECOND == b - b % MS_PER_SECOND
  {
    FormatDateTimeInverse(a);
    FormatDateTimeInverse(b);
    if a - a % MS_PER_SECOND == b - b % MS_PER_SECOND {
      AtLocalKey(DayKey(a), TimeOfDay(a) * MS_PER_SECOND);
      AtLocalKey(DayKey(b), TimeOfDay(b) * MS_PER_SECOND);
    }
  }
}
