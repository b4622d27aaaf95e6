/** Calendar dates and times of day, and the weekend rules of
    quickfund/utils/datetime.py.

    A date is a proleptic Gregorian ordinal as returned by Python's
    `date.toordinal()` (1 January of year 1 is day 1, a Monday), so adding a
    `timedelta(days=n)` is adding `n`. A time of day is a count of
    microseconds since midnight. */
module Dates {

  type Date = int

  const MicrosPerDay: nat := 86_400_000_000

  type TimeOfDay = t: nat | t < MicrosPerDay

  /** `datetime.time(h, m)`. */
  function Clock(h: nat, m: nat): TimeOfDay
    requires h < 24 && m < 60
  {
    (h * 3600 + m * 60) * 1_000_000
  }

  /** A naive `datetime`: a date and a time of day. */
  datatype DateTime = DateTime(date: Date, time: TimeOfDay)

  /** Python's ordering of naive datetimes: by date, then by time of day. */
  predicate AtOrBefore(a: DateTime, b: DateTime) {
    a.date < b.date || (a.date == b.date && a.time <= b.time)
  }

  /** `date.weekday()`: Monday is 0 and Sunday is 6. */
  function Weekday(d: Date): (w: nat)
    ensures w < 7
  {
    (d + 6) % 7
  }

  /** `WEEKENDS`: Saturday and Sunday. */
  const Weekends: set<nat> := {5, 6}

  /** `is_weekend(d)`. */
  predicate IsWeekend(d: Date) {
    Weekday(d) in Weekends
  }

  /** `last_friday(d)`. The offset `-(d.weekday() + 3) % 7` is evaluated by
      Python as `(-(w + 3)) % 7`, whose value lies in 0..6, so the date it
      returns is the Friday on or after `d`, not the one before it. */
  function LastFriday(d: Date): Date
  {
    d + FridayOffset(d)
  }

  /** The day offset `-(d.weekday() + 3) % 7`. Python's `%` with a positive
      modulus is never negative, as is Dafny's. */
  function FridayOffset(d: Date): int
  {
    (-(Weekday(d) + 3)) % 7
  }

  lemma IsWeekendMeaning(d: Date)
    ensures IsWeekend(d) <==> Weekday(d) == 5 || Weekday(d) == 6
  {
  }

  /** Adding days shifts the weekday by the same amount, modulo 7. */
  lemma {:induction false} WeekdayShift(d: Date, n: int)
    ensures Weekday(d + n) == (Weekday(d) + n) % 7
  {
    var w := Weekday(d) + n;
    // (d + n + 6) and (Weekday(d) + n) differ by a multiple of 7
    assert d + 6 == ((d + 6) / 7) * 7 + Weekday(d);
    ModShift(w, (d + 6) / 7);
  }

  lemma ModShift(a: int, q: int)
    ensures (a + 7 * q) % 7 == a % 7
  {
  }

  /** The offset is 0 on a Friday and otherwise the number of days to the
      next Friday; it is always in 0..6. */
  lemma FridayOffsetRange(d: Date)
    ensures 0 <= FridayOffset(d) < 7
    ensures (FridayOffset(d) == 0) <==> Weekday(d) == 4
    ensures (Weekday(d) + FridayOffset(d)) % 7 == 4
  {
    var w := Weekday(d);
    assert w == 0 || w == 1 || w == 2 || w == 3 || w == 4 || w == 5 || w == 6;
  }

  /** `last_friday` returns a Friday. */
  lemma LastFridayIsFriday(d: Date)
    ensures Weekday(LastFriday(d)) == 4
  {
    FridayOffsetRange(d);
    WeekdayShift(d, FridayOffset(d));
  }

  /** `last_friday(d)` is `d` itself on a Friday and otherwise the first
      Friday after `d`: never earlier than `d`, less than a week later, and
      no Friday lies in between. */
  lemma LastFridayIsNextFriday(d: Date)
    ensures d <= LastFriday(d) < d + 7
    ensures Weekday(d) == 4 ==> LastFriday(d) == d
    ensures forall e :: d <= e < LastFriday(d) ==> Weekday(e) != 4
  {
    FridayOffsetRange(d);
    LastFridayIsFriday(d);
    forall e | d <= e < LastFriday(d) ensures Weekday(e) != 4 {
      WeekdayShift(d, e - d);
      var w := Weekday(d);
      assert w == 0 || w == 1 || w == 2 || w == 3 || w == 4 || w == 5 || w == 6;
    }
  }

  /** `last_friday` is idempotent. */
  lemma LastFridayIdempotent(d: Date)
    ensures LastFriday(LastFriday(d)) == LastFriday(d)
  {
    LastFridayIsFriday(d);
    FridayOffsetRange(LastFriday(d));
  }

  /** On a weekend `last_friday` looks forward: Saturday gives the Friday six
      days later and Sunday the Friday five days later. */
  lemma LastFridayOnWeekend(d: Date)
    requires IsWeekend(d)
    ensures LastFriday(d) == d + (if Weekday(d) == 5 then 6 else 5)
  {
  }
  /** The Friday on or before `d`, which the name `last_friday` and its
      use on weekends evidently mean: the offset `-((d.weekday() + 3) % 7)`. */
  function PreviousFriday(d: Date): Date
  {
    d - (Weekday(d) + 3) % 7
  }

  /** The previous Friday is a Friday, at most six days back, and no
      Friday lies after it up to `d`. */
  lemma PreviousFridayIsLatestFriday(d: Date)
    ensures Weekday(PreviousFriday(d)) == 4
    ensures d - 7 < PreviousFriday(d) <= d
    ensures Weekday(d) == 4 ==> PreviousFriday(d) == d
    ensures forall e :: PreviousFriday(d) < e <= d ==> Weekday(e) != 4
  {
    var w: int := Weekday(d);
    WeekdayShift(d, -((w + 3) % 7));
    assert w == 0 || w == 1 || w == 2 || w == 3 || w == 4 || w == 5 || w == 6;
    forall e | PreviousFriday(d) < e <= d ensures Weekday(e) != 4 {
      WeekdayShift(d, e - d);
    }
  }

  /** Away from Fridays the code as written lands a week after the
      intended Friday; on a weekend that is a Friday still to come. */
  lemma LastFridayMissesPreviousFriday(d: Date)
    ensures Weekday(d) != 4 ==> LastFriday(d) == PreviousFriday(d) + 7
    ensures Weekday(d) == 4 ==> LastFriday(d) == PreviousFriday(d)
    ensures IsWeekend(d) ==> PreviousFriday(d) < d < LastFriday(d)
  {
    var w := Weekday(d);
    assert w == 0 || w == 1 || w == 2 || w == 3 || w == 4 || w == 5 || w == 6;
  }

  /** On a weekend every day after the previous Friday, up to `d`, is a
      weekend day too. */
  lemma WeekendSincePreviousFriday(d: Date, e: Date)
    requires IsWeekend(d) && PreviousFriday(d) < e <= d
    ensures IsWeekend(e)
  {
    WeekdayShift(d, e - d);
  }
}
