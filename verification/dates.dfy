/**
 * Calendar arithmetic the booking flow takes from `moment`: instants are integer
 * milliseconds since 1970-01-01T00:00:00 UTC, days and ISO weeks are computed in UTC.
 */
module Dates {

  const MsPerDay: int := 86_400_000
  const MsPerWeek: int := 7 * MsPerDay

  /** Days since the epoch, rounded down (instants before the epoch give negative days). */
  function DayNumber(t: int): int {
    t / MsPerDay
  }

  lemma DayNumberBounds(t: int, d: int)
    ensures DayNumber(t) == d <==> d * MsPerDay <= t < d * MsPerDay + MsPerDay
  {
  }

  /** `moment(t).startOf('day')`: midnight of `t`'s day. */
  function StartOfDay(t: int): (r: int)
    ensures r <= t < r + MsPerDay
    ensures r % MsPerDay == 0
  {
    DayNumber(t) * MsPerDay
  }

  /** ISO weekday index: Monday is 0 and Sunday is 6 (1970-01-01 was a Thursday). */
  function IsoWeekday(t: int): (r: int)
    ensures 0 <= r < 7
  {
    (DayNumber(t) + 3) % 7
  }

  /** `moment(t).startOf('isoWeek')`: midnight of the Monday of `t`'s ISO week. */
  function StartOfIsoWeek(t: int): (r: int)
    ensures r <= t < r + MsPerWeek
    ensures r % MsPerDay == 0
    ensures IsoWeekday(r) == 0
  {
    var d := DayNumber(t) - IsoWeekday(t);
    DayNumberBounds(d * MsPerDay, d);
    d * MsPerDay
  }

  /** Instants in the same ISO week have the same week start. */
  lemma SameIsoWeek(t: int, u: int)
    requires StartOfIsoWeek(t) <= u < StartOfIsoWeek(t) + MsPerWeek
    ensures StartOfIsoWeek(u) == StartOfIsoWeek(t)
  {
    var m := StartOfIsoWeek(t);
    var dm := m / MsPerDay;
    DayNumberBounds(m, dm);
    var du := DayNumber(u);
    assert dm <= du < dm + 7;
    assert (dm + 3) % 7 == 0;
    assert IsoWeekday(u) == du - dm;
  }

  /** `moment(t).endOf('isoWeek')`: the last millisecond of the Sunday of `t`'s ISO week. */
  function EndOfIsoWeek(t: int): (r: int)
    ensures t <= r
    ensures StartOfIsoWeek(r) == StartOfIsoWeek(t)
    ensures IsoWeekday(r) == 6
    ensures IsoWeekday(r + 1) == 0 && (r + 1) % MsPerDay == 0
  {
    var m := StartOfIsoWeek(t);
    var r := m + MsPerWeek - 1;
    SameIsoWeek(t, r);
    OneWeekLater(m);
    // The last millisecond of the week falls on the sixth day after the Monday.
    DayNumberBounds(r, DayNumber(m) + 6);
    r
  }

  /** `moment(now).add(1, 'week').startOf('isoWeek')`: the first Monday strictly after
      `now`'s ISO week. */
  function NextIsoMonday(now: int): (r: int)
    ensures now < r <= now + MsPerWeek
    ensures r % MsPerDay == 0
    ensures IsoWeekday(r) == 0
    ensures r == StartOfIsoWeek(now) + MsPerWeek
  {
    var m := StartOfIsoWeek(now);
    OneWeekLater(m);
    MondayMidnight(m + MsPerWeek);
    SameIsoWeek(m + MsPerWeek, now + MsPerWeek);
    StartOfIsoWeek(now + MsPerWeek)
  }

  /** A Monday midnight is its own day start and its own ISO week start. */
  lemma MondayMidnight(m: int)
    requires m % MsPerDay == 0 && IsoWeekday(m) == 0
    ensures StartOfDay(m) == m && StartOfIsoWeek(m) == m
  {
  }

  /** A Monday midnight one week on is again a Monday midnight. */
  lemma OneWeekLater(m: int)
    requires m % MsPerDay == 0 && IsoWeekday(m) == 0
    ensures (m + MsPerWeek) % MsPerDay == 0 && IsoWeekday(m + MsPerWeek) == 0
  {
    assert DayNumber(m + MsPerWeek) == DayNumber(m) + 7;
  }

  /** Whole weeks after a Monday midnight lie further Monday midnights. */
  lemma {:induction false} WeeksLater(m: int, k: nat)
    requires m % MsPerDay == 0 && IsoWeekday(m) == 0
    ensures (m + k * MsPerWeek) % MsPerDay == 0 && IsoWeekday(m + k * MsPerWeek) == 0
  {
    if k > 0 {
      WeeksLater(m, k - 1);
      assert m + k * MsPerWeek == (m + (k - 1) * MsPerWeek) + MsPerWeek;
      OneWeekLater(m + (k - 1) * MsPerWeek);
    }
  }
}
