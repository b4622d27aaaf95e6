/** The freshness rules of quickfund/models.py (repeated verbatim in
    quickfund/getter.py): when a stored net value, estimate or ranking is
    still the latest one the data source would return.

    Every rule reads the clock once; the clock reading is the parameter
    `now`, a naive China-time datetime. */
module Freshness {
  import opened Dates
  import opened Models

  /** Net values of a trading day are published at 20:00. */
  const NetValueCutoff: TimeOfDay := Clock(20, 0)

  /** The two trading sessions, 09:30-11:30 and 13:00-15:00. */
  const MorningOpen: TimeOfDay := Clock(9, 30)
  const MorningClose: TimeOfDay := Clock(11, 30)
  const AfternoonOpen: TimeOfDay := Clock(13, 0)
  const AfternoonClose: TimeOfDay := Clock(15, 0)

  /** `net_value_date_is_latest` / `FundNetValueInfo.is_latest`. The test
      `time.min <= now_time` always holds and is dropped. */
  predicate NetValueDateIsLatest(d: Date, now: DateTime) {
    var today := now.date;
    if IsWeekend(today) then d == LastFriday(today)
    else if now.time < NetValueCutoff then d == today - 1
    else d == today
  }

  /** `FundNetValueInfo.is_latest()`. */
  predicate IsLatest(info: NetValueInfo, now: DateTime) {
    NetValueDateIsLatest(info.netValueDate, now)
  }

  /** `is_market_opening(t)`: inside a session, both ends included. */
  predicate IsMarketOpening(t: TimeOfDay) {
    (MorningOpen <= t <= MorningClose) || (AfternoonOpen <= t <= AfternoonClose)
  }

  /** `last_market_close_datetime(now)`. */
  function LastMarketClose(now: DateTime): (r: DateTime)
    ensures IsClosePoint(r)
  {
    if IsWeekend(now.date) then DateTime(LastFriday(now.date), AfternoonClose)
    else if now.time < MorningClose then DateTime(now.date - 1, AfternoonClose)
    else if now.time < AfternoonClose then DateTime(now.date, MorningClose)
    else DateTime(now.date, AfternoonClose)
  }

  /** `estimate_datetime_is_latest(est)`. */
  predicate EstimateDateTimeIsLatest(est: DateTime, now: DateTime) {
    !IsMarketOpening(now.time) && est == LastMarketClose(now)
  }

  /** `IARBC_date_is_latest(d)`. */
  predicate IARBCDateIsLatest(d: Date, now: DateTime) {
    d == now.date
  }

  /** The end of a session on some calendar day. */
  predicate IsClosePoint(c: DateTime) {
    c.time == MorningClose || c.time == AfternoonClose
  }

  // ---------------------------------------------------------------------
  // Net value

  /** On a weekday the fresh net value is yesterday's until 20:00 and
      today's from then on; exactly one date is fresh. */
  lemma NetValueOnWeekday(d: Date, now: DateTime)
    requires !IsWeekend(now.date)
    ensures NetValueDateIsLatest(d, now) <==> d == (if now.time < NetValueCutoff then now.date - 1 else now.date)
    ensures NetValueDateIsLatest(d, now) ==> now.date - 1 <= d <= now.date
  {
  }

  /** Because `last_friday` looks forward, on a Saturday or Sunday the only
      date `is_latest` accepts is a Friday after today, a date no published
      net value can carry yet. */
  lemma NetValueOnWeekendAhead(d: Date, now: DateTime)
    requires IsWeekend(now.date)
    ensures NetValueDateIsLatest(d, now) ==> now.date < d && Weekday(d) == 4
  {
    LastFridayIsFriday(now.date);
    LastFridayOnWeekend(now.date);
  }

  /** At most one net-value date is fresh at any moment. */
  lemma NetValueFreshUnique(d1: Date, d2: Date, now: DateTime)
    requires NetValueDateIsLatest(d1, now) && NetValueDateIsLatest(d2, now)
    ensures d1 == d2
  {
  }

  /** On a weekday, a date fresh before 20:00 is stale from 20:00 on and
      the date fresh from 20:00 on was stale before. */
  lemma NetValueCutoffFlips(d: Date, day: Date, t1: TimeOfDay, t2: TimeOfDay)
    requires !IsWeekend(day) && t1 < NetValueCutoff <= t2
    ensures NetValueDateIsLatest(d, DateTime(day, t1)) ==> !NetValueDateIsLatest(d, DateTime(day, t2))
    ensures NetValueDateIsLatest(d, DateTime(day, t2)) ==> !NetValueDateIsLatest(d, DateTime(day, t1))
  {
  }

  // ---------------------------------------------------------------------
  // Trading sessions and estimates

  /** The sessions include all four bounds and nothing one microsecond
      outside them. */
  lemma MarketOpeningBounds()
    ensures IsMarketOpening(MorningOpen) && IsMarketOpening(MorningClose)
    ensures IsMarketOpening(AfternoonOpen) && IsMarketOpening(AfternoonClose)
    ensures !IsMarketOpening(MorningOpen - 1) && !IsMarketOpening(MorningClose + 1)
    ensures !IsMarketOpening(AfternoonOpen - 1) && !IsMarketOpening(AfternoonClose + 1)
  {
  }

  /** The market is closed over the midday break and after 15:00. */
  lemma MarketClosedOutsideSessions(t: TimeOfDay)
    ensures IsMarketOpening(t) <==> !(t < MorningOpen || (MorningClose < t < AfternoonOpen) || AfternoonClose < t)
  {
  }

  /** On a weekday, `last_market_close_datetime(now)` is the latest session
      end at or before `now`, counting every calendar day. */
  lemma {:induction false} LastMarketCloseIsLatestClose(now: DateTime, c: DateTime)
    requires !IsWeekend(now.date)
    ensures AtOrBefore(LastMarketClose(now), now)
    ensures IsClosePoint(c) && AtOrBefore(c, now) ==> AtOrBefore(c, LastMarketClose(now))
  {
  }

  /** Before 11:30 on a Monday the rule gives Sunday 15:00, a session end
      on a day without trading. */
  lemma LastMarketCloseMondayMorning(now: DateTime)
    requires Weekday(now.date) == 0 && now.time < MorningClose
    ensures LastMarketClose(now) == DateTime(now.date - 1, AfternoonClose)
    ensures IsWeekend(LastMarketClose(now).date)
  {
    WeekdayShift(now.date, -1);
  }

  /** On a weekend the rule gives 15:00 on a Friday after today: a moment
      later than `now`. */
  lemma LastMarketCloseWeekendAhead(now: DateTime)
    requires IsWeekend(now.date)
    ensures !AtOrBefore(LastMarketClose(now), now)
    ensures Weekday(LastMarketClose(now).date) == 4
  {
    LastFridayIsFriday(now.date);
    LastFridayOnWeekend(now.date);
  }

  /** While a session is open, including at its exact bounds, no stored
      estimate is fresh. */
  lemma EstimateStaleWhileOpen(est: DateTime, now: DateTime)
    requires IsMarketOpening(now.time)
    ensures !EstimateDateTimeIsLatest(est, now)
  {
  }

  /** On a weekday outside the sessions an estimate is fresh exactly when
      it is stamped with the latest session end at or before `now`. */
  lemma EstimateFreshOnWeekday(est: DateTime, now: DateTime)
    requires !IsWeekend(now.date) && !IsMarketOpening(now.time)
    ensures EstimateDateTimeIsLatest(est, now) <==>
      (IsClosePoint(est) && AtOrBefore(est, now)
       && forall c :: IsClosePoint(c) && AtOrBefore(c, now) ==> AtOrBefore(c, est))
  {
    var r := LastMarketClose(now);
    LastMarketCloseIsLatestClose(now, est);
    if IsClosePoint(est) && AtOrBefore(est, now) && forall c :: IsClosePoint(c) && AtOrBefore(c, now) ==> AtOrBefore(c, est) {
      LastMarketCloseIsLatestClose(now, r);
      assert AtOrBefore(r, est) && AtOrBefore(est, r);
    }
    if EstimateDateTimeIsLatest(est, now) {
      forall c | IsClosePoint(c) && AtOrBefore(c, now) ensures AtOrBefore(c, est) {
        LastMarketCloseIsLatestClose(now, c);
      }
    }
  }

  /** Over the midday break of a weekday the estimate stamped 11:30 today
      is the fresh one, so the refresh is not skipped in that window. */
  lemma EstimateOverMiddayBreak(est: DateTime, now: DateTime)
    requires !IsWeekend(now.date) && MorningClose < now.time < AfternoonOpen
    ensures EstimateDateTimeIsLatest(est, now) <==> est == DateTime(now.date, MorningClose)
  {
  }

  /** From 15:00 until midnight, and before 09:30, the fresh estimate is the
      one stamped at the last afternoon close. */
  lemma EstimateOvernight(est: DateTime, now: DateTime)
    requires !IsWeekend(now.date) && (now.time < MorningOpen || AfternoonClose < now.time)
    ensures EstimateDateTimeIsLatest(est, now) <==>
      est == DateTime(if now.time < MorningOpen then now.date - 1 else now.date, AfternoonClose)
  {
  }

  // ---------------------------------------------------------------------
  // Ranking

  /** A ranking is fresh exactly on its cutoff date, at any time of day. */
  lemma IARBCFreshAllDay(d: Date, day: Date, t1: TimeOfDay, t2: TimeOfDay)
    ensures IARBCDateIsLatest(d, DateTime(day, t1)) <==> IARBCDateIsLatest(d, DateTime(day, t2))
    ensures IARBCDateIsLatest(d, DateTime(day, t1)) <==> d == day
  {
  }
  // ---------------------------------------------------------------------
  // The rules as evidently intended

  /** The last trading day before `d`. */
  function PreviousTradingDay(d: Date): (r: Date)
    ensures r < d && !IsWeekend(r)
    ensures forall e :: r < e < d ==> IsWeekend(e)
  {
    PreviousFridayIsLatestFriday(d - 1);
    if IsWeekend(d - 1) then
      assert Weekday(PreviousFriday(d - 1)) == 4;
      assert forall e :: PreviousFriday(d - 1) < e < d ==> IsWeekend(e) by {
        forall e | PreviousFriday(d - 1) < e < d ensures IsWeekend(e) {
          WeekendSincePreviousFriday(d - 1, e);
        }
      }
      PreviousFriday(d - 1)
    else d - 1
  }

  /** A session end on a trading day. */
  predicate IsTradingClose(c: DateTime) {
    IsClosePoint(c) && !IsWeekend(c.date)
  }

  /** `last_market_close_datetime` with the previous Friday on weekends
      and the previous trading day before 11:30. */
  function IntendedLastMarketClose(now: DateTime): DateTime
  {
    if IsWeekend(now.date) then DateTime(PreviousFriday(now.date), AfternoonClose)
    else if now.time < MorningClose then DateTime(PreviousTradingDay(now.date), AfternoonClose)
    else if now.time < AfternoonClose then DateTime(now.date, MorningClose)
    else DateTime(now.date, AfternoonClose)
  }

  /** The intended rule gives the latest session end of a trading day at
      or before `now`, on every day of the week. */
  lemma IntendedLastMarketCloseIsLatest(now: DateTime, c: DateTime)
    ensures IsTradingClose(IntendedLastMarketClose(now))
    ensures AtOrBefore(IntendedLastMarketClose(now), now)
    ensures IsTradingClose(c) && AtOrBefore(c, now) ==> AtOrBefore(c, IntendedLastMarketClose(now))
  {
    var d := now.date;
    PreviousFridayIsLatestFriday(d);
    if IsWeekend(d) && IsTradingClose(c) && AtOrBefore(c, now) && PreviousFriday(d) < c.date {
      WeekendSincePreviousFriday(d, c.date);
    }
  }

  /** As written the rule misses on weekends, where it gives a Friday to
      come, and on Monday mornings, where it gives Sunday. */
  lemma LastMarketCloseAsWrittenDiffers(now: DateTime)
    requires IsWeekend(now.date) || (Weekday(now.date) == 0 && now.time < MorningClose)
    ensures LastMarketClose(now) != IntendedLastMarketClose(now)
    ensures !(IsTradingClose(LastMarketClose(now)) && AtOrBefore(LastMarketClose(now), now))
  {
    IntendedLastMarketCloseIsLatest(now, now);
    if IsWeekend(now.date) {
      LastMarketCloseWeekendAhead(now);
    } else {
      LastMarketCloseMondayMorning(now);
    }
  }

  /** The date of the latest published net value, as evidently intended:
      the previous Friday on weekends, and before 20:00 the previous
      trading day. */
  function IntendedNetValueDate(now: DateTime): Date
  {
    if IsWeekend(now.date) then PreviousFriday(now.date)
    else if now.time < NetValueCutoff then PreviousTradingDay(now.date)
    else now.date
  }

  /** It is the last trading day whose 20:00 publication is at or before
      `now`. */
  lemma IntendedNetValueDateIsLatest(now: DateTime, e: Date)
    ensures !IsWeekend(IntendedNetValueDate(now))
    ensures AtOrBefore(DateTime(IntendedNetValueDate(now), NetValueCutoff), now)
    ensures !IsWeekend(e) && AtOrBefore(DateTime(e, NetValueCutoff), now) ==> e <= IntendedNetValueDate(now)
  {
    var d := now.date;
    PreviousFridayIsLatestFriday(d);
    if IsWeekend(d) && !IsWeekend(e) && e <= d && PreviousFriday(d) < e {
      WeekendSincePreviousFriday(d, e);
    }
  }

  /** As written, on a weekend the one date accepted is not the intended
      one, and on a Monday before 20:00 it is Sunday. */
  lemma NetValueAsWrittenDiffers(now: DateTime)
    requires IsWeekend(now.date) || (Weekday(now.date) == 0 && now.time < NetValueCutoff)
    ensures !NetValueDateIsLatest(IntendedNetValueDate(now), now)
  {
    LastFridayMissesPreviousFriday(now.date);
    if !IsWeekend(now.date) {
      WeekdayShift(now.date, -1);
    }
  }
}
