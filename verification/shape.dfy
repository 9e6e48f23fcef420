/**
 * Two structural facts about the stored schedules that the unique index alone does not give
 * but the handlers keep: no two schedules lie on the same calendar day (a week is only created
 * when its day has none), and no two slots of a schedule share a number (slots are created
 * numbered 1 to 10 and no writer renumbers them). Together they make the day and slot-number
 * lookups of the booking handler land on the entries the week listing showed.
 */
module Shape {
  import opened Common
  import opened Dates
  import opened Schedules
  import opened Store
  import opened Booking
  import opened Weeks
  import opened Lifecycle

  predicate OneWeekPerDay(schedules: seq<Schedule>) {
    forall i, j :: 0 <= i < j < |schedules| ==>
      StartOfDay(schedules[i].weekStartDate) != StartOfDay(schedules[j].weekStartDate)
  }

  predicate DistinctSlotNumbers(slots: seq<Slot>) {
    forall a, b :: 0 <= a < b < |slots| ==> slots[a].slotNumber != slots[b].slotNumber
  }

  predicate Tidy(db: Db) {
    && OneWeekPerDay(db.schedules)
    && forall i :: 0 <= i < |db.schedules| ==> DistinctSlotNumbers(db.schedules[i].slots)
  }

  /** The day-range query matches exactly the instants of the same calendar day. */
  lemma SameDay(t: int, day: int)
    ensures OnDayOf(t, day) <==> StartOfDay(t) == StartOfDay(day)
  {
    var d := DayNumber(day);
    DayNumberBounds(t, d);
  }

  /** One schedule per day implies the unique index on the exact week start. */
  lemma OneWeekPerDayUnique(schedules: seq<Schedule>)
    requires OneWeekPerDay(schedules)
    ensures UniqueWeekStarts(schedules)
  {
  }

  /** Under one schedule per day, the day lookup finds the only schedule of that day. */
  lemma FindWeekIsTheOne(schedules: seq<Schedule>, m: nat, day: int)
    requires OneWeekPerDay(schedules) && m < |schedules|
    requires OnDayOf(schedules[m].weekStartDate, day)
    ensures FindWeek(schedules, day) == Some(m)
  {
    var f := FindWeek(schedules, day);
    SameDay(schedules[m].weekStartDate, day);
    SameDay(schedules[f.value].weekStartDate, day);
  }

  /** With distinct numbers, the number lookup finds the slot carrying that number. */
  lemma FindSlotIsTheOne(slots: seq<Slot>, j: nat)
    requires DistinctSlotNumbers(slots) && j < |slots|
    ensures FindSlot(slots, slots[j].slotNumber) == Some(j)
  {
  }

  lemma EmptySlotsDistinct()
    ensures DistinctSlotNumbers(EmptySlots())
  {
  }

  lemma FindOrCreateTidy(db: Db, weekStart: int, id: ScheduleId)
    requires Tidy(db) && FindOrCreateWeek(db, weekStart, id).Some?
    ensures Tidy(FindOrCreateWeek(db, weekStart, id).value.db)
  {
    if FindWeek(db.schedules, weekStart).None? {
      var r := FindOrCreateWeek(db, weekStart, id).value.db.schedules;
      forall i | 0 <= i < |db.schedules|
        ensures StartOfDay(r[i].weekStartDate) != StartOfDay(r[|db.schedules|].weekStartDate)
      {
        assert !OnDayOf(db.schedules[i].weekStartDate, weekStart);
        SameDay(db.schedules[i].weekStartDate, weekStart);
      }
      EmptySlotsDistinct();
    }
  }

  /** Rewriting one slot without renumbering it keeps the shape. */
  lemma WriteSlotTidy(db: Db, i: nat, j: nat, s: Slot)
    requires Tidy(db) && i < |db.schedules| && j < |db.schedules[i].slots|
    requires s.slotNumber == db.schedules[i].slots[j].slotNumber
    ensures Tidy(WriteSlot(db, i, j, s))
  {
    var r := WriteSlot(db, i, j, s);
    assert forall b :: 0 <= b < |r.schedules[i].slots| ==>
      r.schedules[i].slots[b].slotNumber == db.schedules[i].slots[b].slotNumber;
    assert forall k :: 0 <= k < |r.schedules| ==> r.schedules[k].weekStartDate == db.schedules[k].weekStartDate;
  }

  lemma BookTidy(db: Db, verb: HttpMethod, uid: Uid, req: BookRequest, now: int, freshId: ScheduleId,
                 checkout: CheckoutRequest -> CheckoutReply)
    requires Tidy(db)
    ensures Tidy(Book(db, verb, uid, req, now, freshId, checkout).db)
  {
    if verb == POST && uid in db.users && FindOwnDraft(db.posts, req.postId, db.users[uid].id).Some? {
      var f := FindOrCreateWeek(db, req.weekStartDate, freshId);
      if f.Some? {
        FindOrCreateTidy(db, req.weekStartDate, freshId);
        var sched := f.value.db.schedules[f.value.index];
        var j := FindSlot(sched.slots, req.slotNumber);
        if j.Some? && sched.slots[j.value].post.None? {
          WriteSlotTidy(f.value.db, f.value.index, j.value, Reserved(sched.slots[j.value], req.postId, db.users[uid].id, now));
        }
      }
    }
  }

  lemma RecordPaymentTidy(db: Db, req: VerifyRequest, user: UserId, now: int, week: int)
    requires Tidy(db)
    ensures Tidy(RecordPayment(db, req, user, now, week).db)
  {
    var i := FindSchedule(db.schedules, req.scheduleId);
    if i.Some? {
      var j := FindSlot(db.schedules[i.value].slots, req.slotNumber);
      if j.Some? {
        WriteSlotTidy(db, i.value, j.value, MarkedPaid(db.schedules[i.value].slots[j.value], req.postId, user, now, req.sessionId));
      }
    }
  }

  lemma VerifyTidy(db: Db, verb: HttpMethod, uid: Uid, req: VerifyRequest, now: int,
                   sessions: string -> SessionReply)
    requires Tidy(db)
    ensures Tidy(Verify(db, verb, uid, req, now, sessions).db)
  {
    if verb == POST && uid in db.users {
      var s := sessions(req.sessionId);
      if s.Session? && s.paid && MetadataMatches(s.metadata, req, db.users[uid].id) {
        RecordPaymentTidy(db, req, db.users[uid].id, now, s.metadata.weekStartDate);
      }
    }
  }

  lemma CancelTidy(db: Db, verb: HttpMethod, uid: Uid, req: CancelRequest)
    requires Tidy(db)
    ensures Tidy(Cancel(db, verb, uid, req).db)
  {
    if verb == POST && uid in db.users {
      var i := FindSchedule(db.schedules, req.scheduleId);
      if i.Some? {
        var j := FindSlot(db.schedules[i.value].slots, req.slotNumber);
        if j.Some? {
          WriteSlotTidy(db, i.value, j.value, Released(db.schedules[i.value].slots[j.value]));
        }
      }
    }
  }

  lemma {:induction false} WeeksDbTidy(db: Db, start: int, i: nat, newId: nat -> ScheduleId)
    requires Tidy(db) && i <= WeeksShown
    decreases WeeksShown - i, 1
    ensures Tidy(WeeksDb(db, start, i, newId))
  {
    if i < WeeksShown && FindOrCreateWeek(db, start, newId(i)).Some? {
      WeeksDbStepTidy(db, start, i, newId);
    }
  }

  /** One find-or-create step of the listing followed by the remaining weeks. */
  lemma {:induction false} WeeksDbStepTidy(db: Db, start: int, i: nat, newId: nat -> ScheduleId)
    requires Tidy(db) && i < WeeksShown && FindOrCreateWeek(db, start, newId(i)).Some?
    decreases WeeksShown - i, 0
    ensures Tidy(WeeksDb(db, start, i, newId))
  {
    var next := FindOrCreateWeek(db, start, newId(i)).value.db;
    FindOrCreateTidy(db, start, newId(i));
    WeeksDbTidy(next, start + MsPerWeek, i + 1, newId);
    WeeksDbUnfold(db, start, i, newId);
  }

  lemma ListWeeksTidy(db: Db, verb: HttpMethod, uid: Uid, now: int, newId: nat -> ScheduleId)
    requires Tidy(db)
    ensures Tidy(ListWeeks(db, verb, uid, now, newId).db)
  {
    if verb == GET && uid in db.users {
      WeeksDbTidy(db, NextIsoMonday(now), 0, newId);
    }
  }

  lemma ApplyTidy(db: Db, q: Request)
    requires Tidy(db)
    ensures Tidy(Apply(db, q))
  {
    match q
    case BookCall(verb, uid, req, now, freshId, checkout) => BookTidy(db, verb, uid, req, now, freshId, checkout);
    case VerifyCall(verb, uid, req, now, sessions) => VerifyTidy(db, verb, uid, req, now, sessions);
    case CancelCall(verb, uid, req) => CancelTidy(db, verb, uid, req);
    case WeeksCall(verb, uid, now, newId) => ListWeeksTidy(db, verb, uid, now, newId);
  }

  /** Starting from a store without schedules, every sequence of requests leaves at most one
      schedule per calendar day, each with distinctly numbered slots. */
  lemma {:induction false} RunTidy(db: Db, qs: seq<Request>)
    requires db.schedules == []
    ensures Tidy(Run(db, qs))
    ensures UniqueWeekStarts(Run(db, qs).schedules)
  {
    RunFromTidy(db, qs);
    OneWeekPerDayUnique(Run(db, qs).schedules);
  }

  lemma {:induction false} RunFromTidy(db: Db, qs: seq<Request>)
    requires Tidy(db)
    decreases |qs|
    ensures Tidy(Run(db, qs))
  {
    if qs != [] {
      ApplyTidy(db, qs[0]);
      RunFromTidy(Apply(db, qs[0]), qs[1..]);
    }
  }
}
