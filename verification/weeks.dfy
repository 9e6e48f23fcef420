/**
 * The two read-side schedule handlers: `weeks` lists the four bookable weeks starting with next
 * week's ISO Monday, creating a missing week on the way, and `debug` summarises every stored
 * schedule in week order.
 */
module Weeks {
  import opened Common
  import opened Dates
  import opened Sorting
  import opened Schedules
  import opened Posts
  import opened Store
  import opened Api

  /** Number of weeks the listing returns. */
  const WeeksShown: nat := 4

  /** One entry of the week listing. `totalSlots` is a fixed 10, not the length of `slots`.
      `slots` are the populated slots: a post id naming no stored post reads back as null. */
  datatype WeekSummary = WeekSummary(
    weekStart: int,
    weekEnd: int,
    availableSlots: nat,
    totalSlots: int,
    scheduleId: ScheduleId,
    slots: seq<Slot>)

  /** The summary names a stored schedule on the summary's day, with its slots as population
      reads them back. */
  ghost predicate Lists(schedules: seq<Schedule>, posts: seq<Post>, w: WeekSummary) {
    exists m :: 0 <= m < |schedules| && schedules[m].id == w.scheduleId
                && Populate(schedules[m].slots, posts) == w.slots
                && OnDayOf(schedules[m].weekStartDate, w.weekStart)
  }

  /** `w` is the listing entry for the week starting at `start`. */
  ghost predicate Entry(schedules: seq<Schedule>, posts: seq<Post>, w: WeekSummary, start: int) {
    && w.weekStart == start
    && w.weekEnd == EndOfIsoWeek(start)
    && w.availableSlots == CountAvailable(w.slots) <= |w.slots|
    && w.totalSlots == SlotsPerWeek
    && Lists(schedules, posts, w)
  }

  /** The weeks of `ws` start at `start` and follow one another a week apart. */
  ghost predicate WeekChain(ws: seq<WeekSummary>, start: int) {
    && (ws != [] ==> ws[0].weekStart == start)
    && (forall k :: 0 < k < |ws| ==> ws[k].weekStart == ws[k - 1].weekStart + MsPerWeek)
  }

  /** `ws` lists consecutive weeks, the first starting at `start`: each entry is listed for its
      own week start, and each week starts one week after the one before. */
  ghost predicate Listing(schedules: seq<Schedule>, posts: seq<Post>, ws: seq<WeekSummary>, start: int) {
    && (forall k :: 0 <= k < |ws| ==> Entry(schedules, posts, ws[k], ws[k].weekStart))
    && WeekChain(ws, start)
  }

  lemma ConsListing(schedules: seq<Schedule>, posts: seq<Post>, w: WeekSummary, ws: seq<WeekSummary>, start: int)
    requires Entry(schedules, posts, w, start) && Listing(schedules, posts, ws, start + MsPerWeek)
    ensures Listing(schedules, posts, [w] + ws, start)
  {
    var l := [w] + ws;
    assert l[0] == w;
    assert forall k :: 0 < k < |l| ==> l[k] == ws[k - 1];
  }

  /** The listing entry for schedule `s`, found or created for the week starting at `start`.
      A created week is not populated, but its slots name no post, so population is the
      identity on them. */
  function SummaryOf(s: Schedule, posts: seq<Post>, start: int): WeekSummary {
    var slots := Populate(s.slots, posts);
    WeekSummary(start, EndOfIsoWeek(start), CountAvailable(slots), SlotsPerWeek, s.id, slots)
  }

  /** A schedule settled on by find-or-create stays listed while later weeks are appended. */
  lemma FoundEntry(found: Found, later: seq<Schedule>, start: int)
    requires found.index < |found.db.schedules| <= |later|
    requires found.db.schedules <= later
    requires OnDayOf(found.db.schedules[found.index].weekStartDate, start)
    ensures Entry(later, found.db.posts, SummaryOf(found.db.schedules[found.index], found.db.posts, start), start)
  {
    assert later[found.index] == found.db.schedules[found.index];
  }

  /** The store after weeks `i` to 3 have been found or created, week `i` starting at `start`,
      up to the first failed insert. */
  function WeeksDb(db: Db, start: int, i: nat, newId: nat -> ScheduleId): (r: Db)
    requires i <= WeeksShown
    decreases WeeksShown - i
    ensures r.users == db.users && r.posts == db.posts
    // Existing schedules are never changed; new weeks are only appended.
    ensures db.schedules <= r.schedules
  {
    if i == WeeksShown then db
    else match FindOrCreateWeek(db, start, newId(i))
      case None => db
      case Some(found) => WeeksDb(found.db, start + MsPerWeek, i + 1, newId)
  }

  lemma WeeksDbUnfold(db: Db, start: int, i: nat, newId: nat -> ScheduleId)
    requires i < WeeksShown && FindOrCreateWeek(db, start, newId(i)).Some?
    ensures WeeksDb(db, start, i, newId)
         == WeeksDb(FindOrCreateWeek(db, start, newId(i)).value.db, start + MsPerWeek, i + 1, newId)
  {
  }

  /** Weeks `i` to 3 of the listing, week `i` starting at `start`. `newId(i)` is the id a
      schedule created for week `i` would get. The first failed insert ends the listing with a
      server error, keeping the weeks created before it. */
  function WeeksFrom(db: Db, start: int, i: nat, newId: nat -> ScheduleId): (r: Outcome<seq<WeekSummary>>)
    requires i <= WeeksShown
    decreases WeeksShown - i
    ensures r.db == WeeksDb(db, start, i, newId)
    ensures r.result.Err? ==> r.result.failure == ServerError
    ensures r.result.Ok? ==> |r.result.value| == WeeksShown - i
    ensures r.result.Ok? ==> Listing(r.db.schedules, r.db.posts, r.result.value, start)
  {
    if i == WeeksShown then Outcome(db, Ok([]))
    else
      match FindOrCreateWeek(db, start, newId(i))
      case None => Outcome(db, Err(ServerError))
      case Some(found) =>
        var w := SummaryOf(found.db.schedules[found.index], found.db.posts, start);
        var rest := WeeksFrom(found.db, start + MsPerWeek, i + 1, newId);
        if rest.result.Err? then Outcome(rest.db, Err(rest.result.failure))
        else
          FoundEntry(found, rest.db.schedules, start);
          ConsListing(rest.db.schedules, rest.db.posts, w, rest.result.value, start);
          Outcome(rest.db, Ok([w] + rest.result.value))
  }

  /** `GET /api/schedule/weeks` at time `now`. */
  function ListWeeks(db: Db, verb: HttpMethod, uid: Uid, now: int, newId: nat -> ScheduleId)
    : (r: Outcome<seq<WeekSummary>>)
    ensures r.db.users == db.users && r.db.posts == db.posts && db.schedules <= r.db.schedules
    ensures verb != GET ==> r == Outcome(db, Err(MethodNotAllowed))
    ensures verb == GET && uid !in db.users ==> r == Outcome(db, Err(Unauthorized))
    ensures verb == GET && uid in db.users ==> r.result.Ok? || r.result == Err(ServerError)
    // Four weeks, a week apart, the first being the Monday after the current ISO week.
    ensures r.result.Ok? ==> |r.result.value| == WeeksShown
    ensures r.result.Ok? ==> r.result.value[0].weekStart == NextIsoMonday(now)
    ensures r.result.Ok? ==> forall k :: 0 < k < |r.result.value| ==>
              r.result.value[k].weekStart == r.result.value[k - 1].weekStart + MsPerWeek
    ensures r.result.Ok? ==> forall k :: 0 <= k < |r.result.value| ==>
              r.result.value[k].weekStart % MsPerDay == 0 && IsoWeekday(r.result.value[k].weekStart) == 0
    ensures r.result.Ok? ==> forall k :: 0 <= k < |r.result.value| ==>
              r.result.value[k].weekEnd == r.result.value[k].weekStart + MsPerWeek - 1
    ensures r.result.Ok? ==> forall k :: 0 <= k < |r.result.value| ==>
              Entry(r.db.schedules, r.db.posts, r.result.value[k], r.result.value[k].weekStart)
  {
    if verb != GET then Outcome(db, Err(MethodNotAllowed))
    else if uid !in db.users then Outcome(db, Err(Unauthorized))
    else
      var first := NextIsoMonday(now);
      var r := WeeksFrom(db, first, 0, newId);
      if r.result.Err? then r
      else
        ListedWeeksAreMondays(r.db.schedules, r.db.posts, first, r.result.value);
        r
  }

  /** Weeks laid out a week apart from a Monday midnight all start on Monday midnights and end
      one millisecond before the next one. */
  lemma ListedWeeksAreMondays(schedules: seq<Schedule>, posts: seq<Post>, first: int, ws: seq<WeekSummary>)
    requires first % MsPerDay == 0 && IsoWeekday(first) == 0
    requires Listing(schedules, posts, ws, first)
    ensures forall k :: 0 < k < |ws| ==> ws[k].weekStart == ws[k - 1].weekStart + MsPerWeek
    ensures forall k :: 0 <= k < |ws| ==> ws[k].weekStart % MsPerDay == 0 && IsoWeekday(ws[k].weekStart) == 0
    ensures forall k :: 0 <= k < |ws| ==> ws[k].weekEnd == ws[k].weekStart + MsPerWeek - 1
    ensures forall k :: 0 <= k < |ws| ==> Entry(schedules, posts, ws[k], ws[k].weekStart)
  {
    forall k | 0 <= k < |ws|
      ensures ws[k].weekStart % MsPerDay == 0 && IsoWeekday(ws[k].weekStart) == 0
      ensures ws[k].weekEnd == ws[k].weekStart + MsPerWeek - 1
    {
      ListedMonday(first, ws, k);
      MondayMidnight(ws[k].weekStart);
    }
  }

  /** Each week of a chain that opens on a Monday midnight starts on a Monday midnight. */
  lemma {:induction false} ListedMonday(first: int, ws: seq<WeekSummary>, k: nat)
    requires first % MsPerDay == 0 && IsoWeekday(first) == 0
    requires WeekChain(ws, first) && k < |ws|
    decreases k
    ensures ws[k].weekStart % MsPerDay == 0 && IsoWeekday(ws[k].weekStart) == 0
  {
    if k > 0 {
      ListedMonday(first, ws, k - 1);
      OneWeekLater(ws[k - 1].weekStart);
    }
  }

  /** One entry of the debug listing: here a slot counts as available when its post is null,
      and `totalSlots` is the actual number of slots. */
  datatype ScheduleSummary = ScheduleSummary(
    id: ScheduleId,
    weekStart: int,
    weekEnd: int,
    availableSlots: nat,
    totalSlots: nat)

  datatype DebugReport = DebugReport(count: nat, schedules: seq<ScheduleSummary>)

  function Summarize(s: Schedule): (w: ScheduleSummary)
    ensures w.id == s.id && w.weekStart == s.weekStartDate && w.weekEnd == s.weekEndDate
    ensures w.availableSlots == CountFree(s.slots) && w.totalSlots == |s.slots|
    ensures w.availableSlots <= w.totalSlots
  {
    ScheduleSummary(s.id, s.weekStartDate, s.weekEndDate, CountFree(s.slots), |s.slots|)
  }

  function WeekOrder(w: ScheduleSummary): Key {
    Key(w.weekStart, 0, 0)
  }

  /** `GET /api/schedule/debug`. */
  function Debug(db: Db, verb: HttpMethod, uid: Uid): (r: Result<DebugReport>)
    ensures verb != GET ==> r == Err(MethodNotAllowed)
    ensures verb == GET && uid !in db.users ==> r == Err(Unauthorized)
    ensures verb == GET && uid in db.users ==> r.Ok?
    // One summary per stored schedule, in ascending week order.
    ensures r.Ok? ==> r.value.count == |db.schedules| == |r.value.schedules|
    ensures r.Ok? ==> SortedBy(r.value.schedules, WeekOrder)
    ensures r.Ok? ==> multiset(r.value.schedules) == multiset(seq(|db.schedules|, k requires 0 <= k < |db.schedules| => Summarize(db.schedules[k])))
  {
    if verb != GET then Err(MethodNotAllowed)
    else if uid !in db.users then Err(Unauthorized)
    else
      var all := seq(|db.schedules|, k requires 0 <= k < |db.schedules| => Summarize(db.schedules[k]));
      var sorted := SortBy(all, WeekOrder);
      assert |sorted| == |multiset(sorted)| == |multiset(all)| == |all|;
      Ok(DebugReport(|db.schedules|, sorted))
  }
}
