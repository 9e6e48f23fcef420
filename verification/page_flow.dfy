/**
 * How the booking page and the schedule handlers fit together: what the page shows for a
 * listing the week handler produced, and what the booking handler does with the request the
 * page builds from that listing.
 */
module PageFlow {
  import opened Common
  import opened Dates
  import opened Schedules
  import opened Store
  import opened Api
  import opened Booking
  import opened Weeks
  import opened Lifecycle
  import opened Shape
  import opened BookingPage

  /** Weeks laid out a week apart start at strictly increasing instants. */
  lemma {:induction false} IncreasingStarts(ws: seq<WeekSummary>)
    requires forall k :: 0 < k < |ws| ==> ws[k].weekStart == ws[k - 1].weekStart + MsPerWeek
    ensures forall a, b :: 0 <= a < b < |ws| ==> ws[a].weekStart < ws[b].weekStart
  {
    if |ws| > 1 {
      var init := ws[..|ws| - 1];
      IncreasingStarts(init);
      forall a, b | 0 <= a < b < |ws| ensures ws[a].weekStart < ws[b].weekStart {
        if b < |ws| - 1 {
          assert init[a] == ws[a] && init[b] == ws[b];
        } else if a < b - 1 {
          assert init[a] == ws[a] && init[b - 1] == ws[b - 1];
        }
      }
    }
  }

  /** A listed week's available count is its number of listed slots without a post: a slot
      population empties is both. */
  lemma ListedCountIsFree(db: Db, w: WeekSummary)
    requires Inv(db) && Entry(db.schedules, db.posts, w, w.weekStart)
    ensures w.availableSlots == CountFree(w.slots)
  {
    var m :| 0 <= m < |db.schedules| && db.schedules[m].id == w.scheduleId
             && Populate(db.schedules[m].slots, db.posts) == w.slots
             && OnDayOf(db.schedules[m].weekStartDate, w.weekStart);
    var stored := db.schedules[m].slots;
    forall j | 0 <= j < |w.slots| && w.slots[j].post.Some? ensures w.slots[j].paid || w.slots[j].paymentPending {
      assert SlotInv(stored[j]);
    }
    FreeVersusAvailable(w.slots);
  }

  /** For a listing the week handler answered, the page's "all full" notice shows exactly when
      every slot of each of the four listed weeks already holds a post. */
  lemma NoticeIffListedWeeksFull(db: Db, uid: Uid, now: int, newId: nat -> ScheduleId)
    requires Inv(db)
    requires ListWeeks(db, GET, uid, now, newId).result.Ok?
    ensures var ws := ListWeeks(db, GET, uid, now, newId).result.value;
            AllFull(ws) <==> forall k :: 0 <= k < |ws| ==>
                               forall j :: 0 <= j < |ws[k].slots| ==> ws[k].slots[j].post.Some?
  {
    var l := ListWeeks(db, GET, uid, now, newId);
    ListWeeksKeepsInv(db, GET, uid, now, newId);
    NoticeIffFull(l.db, l.result.value);
  }

  lemma NoticeIffFull(db: Db, ws: seq<WeekSummary>)
    requires Inv(db) && |ws| == WeeksOnPage
    requires forall k :: 0 <= k < |ws| ==> Entry(db.schedules, db.posts, ws[k], ws[k].weekStart)
    ensures AllFull(ws) <==> forall k :: 0 <= k < |ws| ==>
                               forall j :: 0 <= j < |ws[k].slots| ==> ws[k].slots[j].post.Some?
  {
    assert Shown(ws) == ws;
    forall k | 0 <= k < |ws|
      ensures ws[k].availableSlots == 0 <==> forall j :: 0 <= j < |ws[k].slots| ==> ws[k].slots[j].post.Some?
    {
      ListedCountIsFree(db, ws[k]);
      CountFreeZero(ws[k].slots);
    }
  }

  /** Picking a listed week the page lets the caller select, together with one of the caller's
      drafts, makes the pay button send a booking request; if the store is as the listing left
      it, the booking handler accepts that request: it finds the very week and slot the page
      chose, reserves the slot and asks the gateway for a checkout session. So a request built
      from a fresh listing is never refused as an invalid or taken slot, provided every post the
      stored slots name is stored (see `DanglingSlotRefused` for a slot whose post is not). */
  lemma ChosenWeekIsBooked(db: Db, uid: Uid, now: int, newId: nat -> ScheduleId, k: nat, post: PostId,
                           t: int, freshId: ScheduleId, checkout: CheckoutRequest -> CheckoutReply)
    requires Inv(db) && Tidy(db) && RefsIntact(db)
    requires ListWeeks(db, GET, uid, now, newId).result.Ok?
    requires k < |ListWeeks(db, GET, uid, now, newId).result.value|
    requires Selectable(ListWeeks(db, GET, uid, now, newId).result.value[k])
    requires post != "" && uid in db.users && FindOwnDraft(db.posts, post, db.users[uid].id).Some?
    ensures var l := ListWeeks(db, GET, uid, now, newId);
            var a := PayAndSchedule(Some(post), Some(l.result.value[k].weekStart), l.result.value);
            && a.Send?
            && var b := Book(l.db, POST, uid, a.request, t, freshId, checkout);
               && b.sent.Some? && b.sent.value.metadata.postId == post
               && (b.result.Ok? || b.result == Err(GatewayError))
  {
    var l := ListWeeks(db, GET, uid, now, newId);
    ListWeeksKeepsInv(db, GET, uid, now, newId);
    ListWeeksTidy(db, GET, uid, now, newId);
    ListWeeksKeepsRefs(db, GET, uid, now, newId);
    ListedEntries(db, uid, now, newId);
    ListedWeekApart(db, uid, now, newId);
    ListedRequestIsBooked(l.db, l.result.value, uid, k, post, t, freshId, checkout);
  }

  lemma ListedEntries(db: Db, uid: Uid, now: int, newId: nat -> ScheduleId)
    requires ListWeeks(db, GET, uid, now, newId).result.Ok?
    ensures var l := ListWeeks(db, GET, uid, now, newId);
            var ws := l.result.value;
            forall i :: 0 <= i < |ws| ==> Entry(l.db.schedules, l.db.posts, ws[i], ws[i].weekStart)
  {
  }

  lemma ListedWeekApart(db: Db, uid: Uid, now: int, newId: nat -> ScheduleId)
    requires ListWeeks(db, GET, uid, now, newId).result.Ok?
    ensures var ws := ListWeeks(db, GET, uid, now, newId).result.value;
            forall i :: 0 < i < |ws| ==> ws[i].weekStart == ws[i - 1].weekStart + MsPerWeek
  {
  }

  /** The same, for any store whose slots name stored posts and any listing of weeks a week
      apart, each listed as the store holds it. */
  lemma ListedRequestIsBooked(db: Db, ws: seq<WeekSummary>, uid: Uid, k: nat, post: PostId,
                              t: int, freshId: ScheduleId, checkout: CheckoutRequest -> CheckoutReply)
    requires Inv(db) && Tidy(db) && RefsIntact(db)
    requires forall i :: 0 <= i < |ws| ==> Entry(db.schedules, db.posts, ws[i], ws[i].weekStart)
    requires forall i :: 0 < i < |ws| ==> ws[i].weekStart == ws[i - 1].weekStart + MsPerWeek
    requires k < |ws| && Selectable(ws[k])
    requires post != "" && uid in db.users && FindOwnDraft(db.posts, post, db.users[uid].id).Some?
    ensures var a := PayAndSchedule(Some(post), Some(ws[k].weekStart), ws);
            && a.Send?
            && var b := Book(db, POST, uid, a.request, t, freshId, checkout);
               && b.sent.Some? && b.sent.value.metadata.postId == post
               && (b.result.Ok? || b.result == Err(GatewayError))
  {
    var start := ws[k].weekStart;
    // The page finds week k and a free slot in it.
    ListedCountIsFree(db, ws[k]);
    CountFreeZero(ws[k].slots);
    PageSendsFreeSlot(ws, k, post);
    var j := FirstFree(ws[k].slots).value;
    var a := PayAndSchedule(Some(post), Some(start), ws);
    // The handler lands on the same week and slot.
    assert Entry(db.schedules, db.posts, ws[k], start);
    var m :| 0 <= m < |db.schedules| && db.schedules[m].id == ws[k].scheduleId
             && Populate(db.schedules[m].slots, db.posts) == ws[k].slots && OnDayOf(db.schedules[m].weekStartDate, start);
    PopulateGrounded(db.schedules[m].slots, db.posts);
    HandlerTakesSlot(db, uid, a.request, m, j, t, freshId, checkout);
  }

  /** For weeks laid out a week apart, choosing week `k` with a free slot makes the pay button
      send a request for that week and its first free slot. */
  lemma PageSendsFreeSlot(ws: seq<WeekSummary>, k: nat, post: PostId)
    requires forall i :: 0 < i < |ws| ==> ws[i].weekStart == ws[i - 1].weekStart + MsPerWeek
    requires k < |ws| && FirstFree(ws[k].slots).Some? && post != ""
    ensures var j := FirstFree(ws[k].slots).value;
            PayAndSchedule(Some(post), Some(ws[k].weekStart), ws)
            == Send(BookRequest(post, ws[k].weekStart, ws[k].slots[j].slotNumber))
  {
    IncreasingStarts(ws);
    assert FindListed(ws, ws[k].weekStart) == Some(k);
  }

  /** The booking handler, given a request for a free slot of a stored week, reserves it and
      calls the gateway. */
  lemma HandlerTakesSlot(db: Db, uid: Uid, req: BookRequest, m: nat, j: nat, t: int, freshId: ScheduleId,
                         checkout: CheckoutRequest -> CheckoutReply)
    requires Tidy(db) && uid in db.users && FindOwnDraft(db.posts, req.postId, db.users[uid].id).Some?
    requires m < |db.schedules| && OnDayOf(db.schedules[m].weekStartDate, req.weekStartDate)
    requires j < |db.schedules[m].slots| && db.schedules[m].slots[j].slotNumber == req.slotNumber
    requires db.schedules[m].slots[j].post.None?
    ensures var b := Book(db, POST, uid, req, t, freshId, checkout);
            && b.sent.Some? && b.sent.value.metadata.postId == req.postId
            && (b.result.Ok? || b.result == Err(GatewayError))
  {
    FindWeekIsTheOne(db.schedules, m, req.weekStartDate);
    FindSlotIsTheOne(db.schedules[m].slots, j);
    assert FindOrCreateWeek(db, req.weekStartDate, freshId) == Some(Found(db, m));
  }

  /** A stored slot naming a post that is not stored is listed with no post, so the page may
      pick it; the booking handler reads the slot unpopulated and refuses it as taken. */
  lemma DanglingSlotRefused(db: Db, uid: Uid, req: BookRequest, m: nat, j: nat, t: int, freshId: ScheduleId,
                            checkout: CheckoutRequest -> CheckoutReply)
    requires Tidy(db) && uid in db.users && FindOwnDraft(db.posts, req.postId, db.users[uid].id).Some?
    requires m < |db.schedules| && OnDayOf(db.schedules[m].weekStartDate, req.weekStartDate)
    requires j < |db.schedules[m].slots| && db.schedules[m].slots[j].slotNumber == req.slotNumber
    requires DanglingSlot(db.schedules[m].slots[j], db.posts)
    ensures Populate(db.schedules[m].slots, db.posts)[j].post.None?
    ensures Book(db, POST, uid, req, t, freshId, checkout) == BookOutcome(db, Err(SlotTaken), None)
  {
    FindWeekIsTheOne(db.schedules, m, req.weekStartDate);
    FindSlotIsTheOne(db.schedules[m].slots, j);
    assert FindOrCreateWeek(db, req.weekStartDate, freshId) == Some(Found(db, m));
  }
}
