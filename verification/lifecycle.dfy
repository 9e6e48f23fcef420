/**
 * The booking life cycle as a whole: the invariant every handler keeps on the store, its
 * preservation along any sequence of requests, and how the handlers compose (booking then
 * cancelling, repeating a payment check or a cancellation).
 */
module Lifecycle {
  import opened Common
  import opened Dates
  import opened Schedules
  import opened Posts
  import opened Store
  import opened Api
  import opened Booking
  import opened Weeks

  /** A slot holds a post exactly when it is paid or awaiting payment, and a slot without a
      post has nobody recorded on it. */
  predicate SlotInv(s: Slot) {
    Consistent(s) && (s.post.None? ==> s.user.None? && s.bookedAt.None?)
  }

  predicate UniquePostIds(posts: seq<Post>) {
    forall i, j :: 0 <= i < j < |posts| ==> posts[i].id != posts[j].id
  }

  /** What every stored post satisfies: it passed validation when saved, it is never
      `scheduled`, and a draft carries neither a scheduled week nor a publication time. */
  predicate PostInv(p: Post) {
    && SchemaValid(p)
    && p.status != Scheduled
    && (p.status == Draft ==> p.scheduledWeek.None? && p.publishedAt.None?)
  }

  /** The store invariant. */
  predicate Inv(db: Db) {
    && (forall i, j :: 0 <= i < |db.schedules| && 0 <= j < |db.schedules[i].slots| ==>
          SlotInv(db.schedules[i].slots[j]))
    && UniqueScheduleIds(db.schedules) && UniqueWeekStarts(db.schedules)
    && UniquePostIds(db.posts)
    && (forall k :: 0 <= k < |db.posts| ==> PostInv(db.posts[k]))
  }

  /** A store with no schedules and only valid drafts (of distinct ids) satisfies the invariant. */
  lemma InitialInv(users: map<Uid, User>, posts: seq<Post>)
    requires UniquePostIds(posts)
    requires forall k :: 0 <= k < |posts| ==> SchemaValid(posts[k]) && posts[k].status == Draft
    requires forall k :: 0 <= k < |posts| ==> posts[k].scheduledWeek.None? && posts[k].publishedAt.None?
    ensures Inv(Db(users, posts, []))
  {
  }

  /** Under the invariant, the week listing's count of a stored week, read through population,
      is the debug listing's count plus the slots naming a post that is not stored; the two
      agree exactly when every post the week names is stored. */
  lemma CountsAgree(db: Db, i: nat)
    requires Inv(db) && i < |db.schedules|
    ensures var slots := db.schedules[i].slots;
            CountAvailable(Populate(slots, db.posts)) == CountFree(slots) + Dangling(slots, db.posts)
    ensures var slots := db.schedules[i].slots;
            CountAvailable(Populate(slots, db.posts)) == CountFree(slots) <==> Grounded(slots, db.posts)
  {
    assert AllConsistent(db.schedules[i].slots) by {
      forall j | 0 <= j < |db.schedules[i].slots| ensures Consistent(db.schedules[i].slots[j]) {
        assert SlotInv(db.schedules[i].slots[j]);
      }
    }
    PopulatedCount(db.schedules[i].slots, db.posts);
  }

  /** Over consistent slots, population turns exactly the slots naming a missing post from
      taken into available. */
  lemma {:induction false} PopulatedCount(slots: seq<Slot>, posts: seq<Post>)
    requires AllConsistent(slots)
    decreases |slots|
    ensures CountAvailable(Populate(slots, posts)) == CountFree(slots) + Dangling(slots, posts)
  {
    if slots != [] {
      assert AllConsistent(slots[1..]) by {
        forall k | 0 <= k < |slots[1..]| ensures Consistent(slots[1..][k]) {
          assert slots[1..][k] == slots[k + 1];
        }
      }
      PopulatedCount(slots[1..], posts);
      var r := Populate(slots, posts);
      assert r[1..] == Populate(slots[1..], posts);
      assert Consistent(slots[0]);
    }
  }

  lemma WriteSlotInv(db: Db, i: nat, j: nat, s: Slot)
    requires Inv(db) && i < |db.schedules| && j < |db.schedules[i].slots|
    requires SlotInv(s)
    ensures Inv(WriteSlot(db, i, j, s))
  {
    var r := WriteSlot(db, i, j, s);
    forall a, b | 0 <= a < |r.schedules| && 0 <= b < |r.schedules[a].slots|
      ensures SlotInv(r.schedules[a].slots[b])
    {
      if a != i || b != j {
        assert r.schedules[a].slots[b] == db.schedules[a].slots[b];
      }
    }
  }

  lemma SavePostInv(db: Db, k: nat, p: Post)
    requires Inv(db) && k < |db.posts| && p.id == db.posts[k].id && PostInv(p)
    ensures SavePost(db, k, p).Some? && Inv(SavePost(db, k, p).value)
  {
  }

  lemma FindOrCreateInv(db: Db, weekStart: int, id: ScheduleId)
    requires Inv(db) && FindOrCreateWeek(db, weekStart, id).Some?
    ensures Inv(FindOrCreateWeek(db, weekStart, id).value.db)
  {
    FindOrCreateKeepsUnique(db, weekStart, id);
    var r := FindOrCreateWeek(db, weekStart, id).value.db;
    forall a, b | 0 <= a < |r.schedules| && 0 <= b < |r.schedules[a].slots|
      ensures SlotInv(r.schedules[a].slots[b])
    {
      if a >= |db.schedules| {
        assert Vacant(r.schedules[a].slots[b]);
      }
    }
  }

  /** The slot writers of the three booking handlers all produce invariant slots. */
  lemma WritersKeepSlotInv(s: Slot, post: PostId, user: UserId, now: int, sessionId: string)
    ensures SlotInv(Reserved(s, post, user, now))
    ensures SlotInv(MarkedPaid(s, post, user, now, sessionId))
    ensures SlotInv(Released(s)) && Vacant(Released(s))
  {
  }

  lemma BookKeepsInv(db: Db, verb: HttpMethod, uid: Uid, req: BookRequest, now: int, freshId: ScheduleId,
                     checkout: CheckoutRequest -> CheckoutReply)
    requires Inv(db)
    ensures Inv(Book(db, verb, uid, req, now, freshId, checkout).db)
  {
    if verb == POST && uid in db.users && FindOwnDraft(db.posts, req.postId, db.users[uid].id).Some? {
      var f := FindOrCreateWeek(db, req.weekStartDate, freshId);
      if f.Some? {
        FindOrCreateInv(db, req.weekStartDate, freshId);
        var sched := f.value.db.schedules[f.value.index];
        var j := FindSlot(sched.slots, req.slotNumber);
        if j.Some? && sched.slots[j.value].post.None? {
          WriteSlotInv(f.value.db, f.value.index, j.value, Reserved(sched.slots[j.value], req.postId, db.users[uid].id, now));
        }
      }
    }
  }

  lemma RecordPaymentKeepsInv(db: Db, req: VerifyRequest, user: UserId, now: int, week: int)
    requires Inv(db)
    ensures Inv(RecordPayment(db, req, user, now, week).db)
  {
    var i := FindSchedule(db.schedules, req.scheduleId);
    if i.Some? {
      var sched := db.schedules[i.value];
      var j := FindSlot(sched.slots, req.slotNumber);
      if j.Some? {
        var slot := MarkedPaid(sched.slots[j.value], req.postId, user, now, req.sessionId);
        WriteSlotInv(db, i.value, j.value, slot);
        var db1 := WriteSlot(db, i.value, j.value, slot);
        var k := FindPost(db.posts, req.postId);
        if k.Some? {
          var p := db.posts[k.value].(status := Status.Published, scheduledWeek := Some(week), publishedAt := Some(now));
          if SchemaValid(p) {
            SavePostInv(db1, k.value, p);
          }
        }
      }
    }
  }

  lemma VerifyKeepsInv(db: Db, verb: HttpMethod, uid: Uid, req: VerifyRequest, now: int,
                       sessions: string -> SessionReply)
    requires Inv(db)
    ensures Inv(Verify(db, verb, uid, req, now, sessions).db)
  {
    if verb == POST && uid in db.users {
      var s := sessions(req.sessionId);
      if s.Session? && s.paid && MetadataMatches(s.metadata, req, db.users[uid].id) {
        RecordPaymentKeepsInv(db, req, db.users[uid].id, now, s.metadata.weekStartDate);
      }
    }
  }

  lemma CancelKeepsInv(db: Db, verb: HttpMethod, uid: Uid, req: CancelRequest)
    requires Inv(db)
    ensures Inv(Cancel(db, verb, uid, req).db)
  {
    if verb == POST && uid in db.users {
      var i := FindSchedule(db.schedules, req.scheduleId);
      if i.Some? {
        var sched := db.schedules[i.value];
        var j := FindSlot(sched.slots, req.slotNumber);
        if j.Some? && HeldBy(sched.slots[j.value], db.users[uid].id, req.postId) {
          WriteSlotInv(db, i.value, j.value, Released(sched.slots[j.value]));
          var db1 := WriteSlot(db, i.value, j.value, Released(sched.slots[j.value]));
          var k := FindPost(db.posts, req.postId);
          if k.Some? {
            var p := db.posts[k.value].(status := Draft, scheduledWeek := None, publishedAt := None);
            if SchemaValid(p) {
              SavePostInv(db1, k.value, p);
            }
          }
        }
      }
    }
  }

  lemma {:induction false} WeeksFromKeepsInv(db: Db, start: int, i: nat, newId: nat -> ScheduleId)
    requires Inv(db) && i <= WeeksShown
    decreases WeeksShown - i, 1
    ensures Inv(WeeksDb(db, start, i, newId))
  {
    if i < WeeksShown && FindOrCreateWeek(db, start, newId(i)).Some? {
      WeeksStepKeepsInv(db, start, i, newId);
    }
  }

  /** One find-or-create step of the listing followed by the remaining weeks. */
  lemma {:induction false} WeeksStepKeepsInv(db: Db, start: int, i: nat, newId: nat -> ScheduleId)
    requires Inv(db) && i < WeeksShown && FindOrCreateWeek(db, start, newId(i)).Some?
    decreases WeeksShown - i, 0
    ensures Inv(WeeksDb(db, start, i, newId))
  {
    var next := FindOrCreateWeek(db, start, newId(i)).value.db;
    FindOrCreateInv(db, start, newId(i));
    WeeksFromKeepsInv(next, start + MsPerWeek, i + 1, newId);
    WeeksDbUnfold(db, start, i, newId);
  }

  lemma ListWeeksKeepsInv(db: Db, verb: HttpMethod, uid: Uid, now: int, newId: nat -> ScheduleId)
    requires Inv(db)
    ensures Inv(ListWeeks(db, verb, uid, now, newId).db)
  {
    if verb == GET && uid in db.users {
      WeeksFromKeepsInv(db, NextIsoMonday(now), 0, newId);
      assert ListWeeks(db, verb, uid, now, newId).db == WeeksFrom(db, NextIsoMonday(now), 0, newId).db;
    }
  }

  /** One request to a state-changing schedule handler, with everything it depends on. */
  datatype Request =
    | BookCall(verb: HttpMethod, uid: Uid, book: BookRequest, now: int, freshId: ScheduleId,
               checkout: CheckoutRequest -> CheckoutReply)
    | VerifyCall(verb: HttpMethod, uid: Uid, verify: VerifyRequest, now: int, sessions: string -> SessionReply)
    | CancelCall(verb: HttpMethod, uid: Uid, cancel: CancelRequest)
    | WeeksCall(verb: HttpMethod, uid: Uid, now: int, newId: nat -> ScheduleId)

  /** The store after one request. */
  function Apply(db: Db, q: Request): Db {
    match q
    case BookCall(verb, uid, req, now, freshId, checkout) => Book(db, verb, uid, req, now, freshId, checkout).db
    case VerifyCall(verb, uid, req, now, sessions) => Verify(db, verb, uid, req, now, sessions).db
    case CancelCall(verb, uid, req) => Cancel(db, verb, uid, req).db
    case WeeksCall(verb, uid, now, newId) => ListWeeks(db, verb, uid, now, newId).db
  }

  /** The store after a sequence of requests, handled one at a time in order. */
  function Run(db: Db, qs: seq<Request>): Db
    decreases |qs|
  {
    if qs == [] then db else Run(Apply(db, qs[0]), qs[1..])
  }

  /** Every handler keeps the invariant. */
  lemma ApplyKeepsInv(db: Db, q: Request)
    requires Inv(db)
    ensures Inv(Apply(db, q))
  {
    match q
    case BookCall(verb, uid, req, now, freshId, checkout) => BookKeepsInv(db, verb, uid, req, now, freshId, checkout);
    case VerifyCall(verb, uid, req, now, sessions) => VerifyKeepsInv(db, verb, uid, req, now, sessions);
    case CancelCall(verb, uid, req) => CancelKeepsInv(db, verb, uid, req);
    case WeeksCall(verb, uid, now, newId) => ListWeeksKeepsInv(db, verb, uid, now, newId);
  }

  /** Any sequence of requests keeps the invariant, so in every reachable store each slot holds
      a post exactly when it is paid or pending, no post is ever `scheduled`, and the week
      listing's available count equals the number of slots without a post. */
  lemma {:induction false} RunKeepsInv(db: Db, qs: seq<Request>)
    requires Inv(db)
    decreases |qs|
    ensures Inv(Run(db, qs))
    ensures forall i, j :: 0 <= i < |Run(db, qs).schedules| && 0 <= j < |Run(db, qs).schedules[i].slots| ==>
              Consistent(Run(db, qs).schedules[i].slots[j])
    ensures forall k :: 0 <= k < |Run(db, qs).posts| ==> Run(db, qs).posts[k].status != Scheduled
  {
    if qs != [] {
      ApplyKeepsInv(db, qs[0]);
      RunKeepsInv(Apply(db, qs[0]), qs[1..]);
    }
    var r := Run(db, qs);
    forall i, j | 0 <= i < |r.schedules| && 0 <= j < |r.schedules[i].slots|
      ensures Consistent(r.schedules[i].slots[j])
    {
      assert SlotInv(r.schedules[i].slots[j]);
    }
    forall k | 0 <= k < |r.posts| ensures r.posts[k].status != Scheduled {
      assert PostInv(r.posts[k]);
    }
  }

  // ---- References from slots to posts ----

  /** Every post a stored slot names is stored too, so population hides no booking. */
  predicate RefsIntact(db: Db) {
    forall i :: 0 <= i < |db.schedules| ==> Grounded(db.schedules[i].slots, db.posts)
  }

  /** The same post ids at the same positions: what every handler leaves of the posts. */
  predicate SameIds(a: seq<Post>, b: seq<Post>) {
    |a| == |b| && forall k :: 0 <= k < |a| ==> a[k].id == b[k].id
  }

  /** A request that names only stored posts: a payment check names a stored post. Booking
      checks its post itself, and cancellation and listing name none. */
  predicate NamesStoredPost(posts: seq<Post>, q: Request) {
    q.VerifyCall? ==> FindPost(posts, q.verify.postId).Some?
  }

  lemma GroundedSameIds(slots: seq<Slot>, a: seq<Post>, b: seq<Post>)
    requires SameIds(a, b) && Grounded(slots, a)
    ensures Grounded(slots, b)
  {
    forall k | 0 <= k < |slots| && slots[k].post.Some? ensures FindPost(b, slots[k].post.value).Some? {
      FindPostSameIds(a, b, slots[k].post.value);
    }
  }

  lemma WriteSlotRefs(db: Db, i: nat, j: nat, s: Slot)
    requires RefsIntact(db) && i < |db.schedules| && j < |db.schedules[i].slots|
    requires s.post.Some? ==> FindPost(db.posts, s.post.value).Some?
    ensures RefsIntact(WriteSlot(db, i, j, s))
  {
    var r := WriteSlot(db, i, j, s);
    forall a | 0 <= a < |r.schedules| ensures Grounded(r.schedules[a].slots, r.posts) {
      if a != i {
        assert r.schedules[a] == db.schedules[a];
      } else {
        forall b | 0 <= b < |r.schedules[a].slots| && r.schedules[a].slots[b].post.Some?
          ensures FindPost(r.posts, r.schedules[a].slots[b].post.value).Some?
        {
          if b != j {
            assert r.schedules[a].slots[b] == db.schedules[a].slots[b];
          }
        }
      }
    }
  }

  lemma SavePostRefs(db: Db, k: nat, p: Post)
    requires RefsIntact(db) && k < |db.posts| && p.id == db.posts[k].id
    ensures RefsIntact(db.(posts := db.posts[k := p])) && SameIds(db.posts, db.posts[k := p])
  {
    forall a | 0 <= a < |db.schedules| ensures Grounded(db.schedules[a].slots, db.posts[k := p]) {
      GroundedSameIds(db.schedules[a].slots, db.posts, db.posts[k := p]);
    }
  }

  lemma FindOrCreateRefs(db: Db, weekStart: int, id: ScheduleId)
    requires RefsIntact(db) && FindOrCreateWeek(db, weekStart, id).Some?
    ensures RefsIntact(FindOrCreateWeek(db, weekStart, id).value.db)
  {
    var r := FindOrCreateWeek(db, weekStart, id).value.db;
    forall a | 0 <= a < |r.schedules| ensures Grounded(r.schedules[a].slots, r.posts) {
      if a < |db.schedules| {
        assert r.schedules[a] == db.schedules[a];
      } else {
        assert forall b :: 0 <= b < |r.schedules[a].slots| ==> Vacant(r.schedules[a].slots[b]);
      }
    }
  }

  /** Booking names the caller's stored draft, so it keeps every reference resolvable. */
  lemma BookKeepsRefs(db: Db, verb: HttpMethod, uid: Uid, req: BookRequest, now: int, freshId: ScheduleId,
                      checkout: CheckoutRequest -> CheckoutReply)
    requires RefsIntact(db)
    ensures RefsIntact(Book(db, verb, uid, req, now, freshId, checkout).db)
  {
    if verb == POST && uid in db.users && FindOwnDraft(db.posts, req.postId, db.users[uid].id).Some? {
      var f := FindOrCreateWeek(db, req.weekStartDate, freshId);
      if f.Some? {
        FindOrCreateRefs(db, req.weekStartDate, freshId);
        var sched := f.value.db.schedules[f.value.index];
        var j := FindSlot(sched.slots, req.slotNumber);
        if j.Some? && sched.slots[j.value].post.None? {
          var k := FindOwnDraft(db.posts, req.postId, db.users[uid].id).value;
          assert f.value.db.posts[k].id == req.postId;
          WriteSlotRefs(f.value.db, f.value.index, j.value, Reserved(sched.slots[j.value], req.postId, db.users[uid].id, now));
        }
      }
    }
  }

  lemma RecordPaymentKeepsRefs(db: Db, req: VerifyRequest, user: UserId, now: int, week: int)
    requires RefsIntact(db) && FindPost(db.posts, req.postId).Some?
    ensures RefsIntact(RecordPayment(db, req, user, now, week).db)
    ensures SameIds(db.posts, RecordPayment(db, req, user, now, week).db.posts)
  {
    var i := FindSchedule(db.schedules, req.scheduleId);
    if i.Some? {
      var j := FindSlot(db.schedules[i.value].slots, req.slotNumber);
      if j.Some? {
        var slot := MarkedPaid(db.schedules[i.value].slots[j.value], req.postId, user, now, req.sessionId);
        WriteSlotRefs(db, i.value, j.value, slot);
        var db1 := WriteSlot(db, i.value, j.value, slot);
        var k := FindPost(db.posts, req.postId).value;
        var p := db.posts[k].(status := Status.Published, scheduledWeek := Some(week), publishedAt := Some(now));
        if SchemaValid(p) {
          SavePostRefs(db1, k, p);
        }
      }
    }
  }

  /** A payment check naming a stored post keeps every reference resolvable. */
  lemma VerifyKeepsRefs(db: Db, verb: HttpMethod, uid: Uid, req: VerifyRequest, now: int,
                        sessions: string -> SessionReply)
    requires RefsIntact(db) && FindPost(db.posts, req.postId).Some?
    ensures RefsIntact(Verify(db, verb, uid, req, now, sessions).db)
    ensures SameIds(db.posts, Verify(db, verb, uid, req, now, sessions).db.posts)
  {
    if verb == POST && uid in db.users {
      var s := sessions(req.sessionId);
      if s.Session? && s.paid && MetadataMatches(s.metadata, req, db.users[uid].id) {
        RecordPaymentKeepsRefs(db, req, db.users[uid].id, now, s.metadata.weekStartDate);
      }
    }
  }

  lemma CancelKeepsRefs(db: Db, verb: HttpMethod, uid: Uid, req: CancelRequest)
    requires RefsIntact(db)
    ensures RefsIntact(Cancel(db, verb, uid, req).db)
    ensures SameIds(db.posts, Cancel(db, verb, uid, req).db.posts)
  {
    if verb == POST && uid in db.users {
      var i := FindSchedule(db.schedules, req.scheduleId);
      if i.Some? {
        var sched := db.schedules[i.value];
        var j := FindSlot(sched.slots, req.slotNumber);
        if j.Some? && HeldBy(sched.slots[j.value], db.users[uid].id, req.postId) {
          WriteSlotRefs(db, i.value, j.value, Released(sched.slots[j.value]));
          var db1 := WriteSlot(db, i.value, j.value, Released(sched.slots[j.value]));
          var k := FindPost(db.posts, req.postId);
          if k.Some? {
            var p := db.posts[k.value].(status := Draft, scheduledWeek := None, publishedAt := None);
            if SchemaValid(p) {
              SavePostRefs(db1, k.value, p);
            }
          }
        }
      }
    }
  }

  lemma {:induction false} WeeksFromKeepsRefs(db: Db, start: int, i: nat, newId: nat -> ScheduleId)
    requires RefsIntact(db) && i <= WeeksShown
    decreases WeeksShown - i, 1
    ensures RefsIntact(WeeksDb(db, start, i, newId))
  {
    if i < WeeksShown && FindOrCreateWeek(db, start, newId(i)).Some? {
      WeeksStepKeepsRefs(db, start, i, newId);
    }
  }

  lemma {:induction false} WeeksStepKeepsRefs(db: Db, start: int, i: nat, newId: nat -> ScheduleId)
    requires RefsIntact(db) && i < WeeksShown && FindOrCreateWeek(db, start, newId(i)).Some?
    decreases WeeksShown - i, 0
    ensures RefsIntact(WeeksDb(db, start, i, newId))
  {
    var next := FindOrCreateWeek(db, start, newId(i)).value.db;
    FindOrCreateRefs(db, start, newId(i));
    WeeksFromKeepsRefs(next, start + MsPerWeek, i + 1, newId);
    WeeksDbUnfold(db, start, i, newId);
  }

  lemma ListWeeksKeepsRefs(db: Db, verb: HttpMethod, uid: Uid, now: int, newId: nat -> ScheduleId)
    requires RefsIntact(db)
    ensures RefsIntact(ListWeeks(db, verb, uid, now, newId).db)
  {
    if verb == GET && uid in db.users {
      WeeksFromKeepsRefs(db, NextIsoMonday(now), 0, newId);
      assert ListWeeks(db, verb, uid, now, newId).db == WeeksFrom(db, NextIsoMonday(now), 0, newId).db;
    }
  }

  /** Every handler keeps the post ids, and keeps every reference resolvable unless it is a
      payment check naming a post that is not stored. */
  lemma ApplyKeepsRefs(db: Db, q: Request)
    requires RefsIntact(db) && NamesStoredPost(db.posts, q)
    ensures RefsIntact(Apply(db, q)) && SameIds(db.posts, Apply(db, q).posts)
  {
    match q
    case BookCall(verb, uid, req, now, freshId, checkout) => BookKeepsRefs(db, verb, uid, req, now, freshId, checkout);
    case VerifyCall(verb, uid, req, now, sessions) => VerifyKeepsRefs(db, verb, uid, req, now, sessions);
    case CancelCall(verb, uid, req) => CancelKeepsRefs(db, verb, uid, req);
    case WeeksCall(verb, uid, now, newId) => ListWeeksKeepsRefs(db, verb, uid, now, newId);
  }

  /** Requests that name only stored posts keep every reference resolvable; the post ids never
      change, so a post stored at the start is stored at every step. */
  lemma {:induction false} RunKeepsRefs(db: Db, qs: seq<Request>)
    requires RefsIntact(db)
    requires forall k :: 0 <= k < |qs| ==> NamesStoredPost(db.posts, qs[k])
    decreases |qs|
    ensures RefsIntact(Run(db, qs)) && SameIds(db.posts, Run(db, qs).posts)
  {
    if qs != [] {
      var d1 := Apply(db, qs[0]);
      ApplyKeepsRefs(db, qs[0]);
      forall k | 0 <= k < |qs[1..]| ensures NamesStoredPost(d1.posts, qs[1..][k]) {
        assert qs[1..][k] == qs[k + 1];
        if qs[k + 1].VerifyCall? {
          FindPostSameIds(db.posts, d1.posts, qs[k + 1].verify.postId);
        }
      }
      RunKeepsRefs(d1, qs[1..]);
    }
  }

  /** In every store reached from an invariant one whose slots name stored posts, by requests
      naming stored posts, population hides nothing and the week listing's available count
      equals the debug listing's. */
  lemma RunCountsAgree(db: Db, qs: seq<Request>, i: nat)
    requires Inv(db) && RefsIntact(db)
    requires forall k :: 0 <= k < |qs| ==> NamesStoredPost(db.posts, qs[k])
    requires i < |Run(db, qs).schedules|
    ensures var r := Run(db, qs);
            && Populate(r.schedules[i].slots, r.posts) == r.schedules[i].slots
            && CountAvailable(Populate(r.schedules[i].slots, r.posts)) == CountFree(r.schedules[i].slots)
  {
    RunKeepsInv(db, qs);
    RunKeepsRefs(db, qs);
    var r := Run(db, qs);
    PopulateGrounded(r.schedules[i].slots, r.posts);
    CountsAgree(r, i);
  }

  /** A matching payment check for a post that is not stored still marks the slot paid, after
      which the week listing, reading the slot back as free, counts more available slots in
      that week than the debug listing does. */
  lemma PaymentForMissingPost(db: Db, req: VerifyRequest, user: UserId, now: int, week: int, i: nat, j: nat)
    requires Inv(db)
    requires FindSchedule(db.schedules, req.scheduleId) == Some(i)
    requires FindSlot(db.schedules[i].slots, req.slotNumber) == Some(j)
    requires FindPost(db.posts, req.postId).None?
    ensures var r := RecordPayment(db, req, user, now, week);
            && r.result == Err(NotFound) && i < |r.db.schedules|
            && CountAvailable(Populate(r.db.schedules[i].slots, r.db.posts)) > CountFree(r.db.schedules[i].slots)
  {
    var r := RecordPayment(db, req, user, now, week);
    RecordPaymentKeepsInv(db, req, user, now, week);
    CountsAgree(r.db, i);
    assert DanglingSlot(r.db.schedules[i].slots[j], r.db.posts);
  }

  // ---- Lookups are unaffected by writes that keep the looked-up key ----

  lemma {:induction false} FindScheduleSameIds(a: seq<Schedule>, b: seq<Schedule>, id: ScheduleId)
    requires |a| == |b| && forall k :: 0 <= k < |a| ==> a[k].id == b[k].id
    ensures FindSchedule(a, id) == FindSchedule(b, id)
  {
    if a != [] {
      FindScheduleSameIds(a[1..], b[1..], id);
    }
  }

  lemma {:induction false} FindSlotSameNumbers(a: seq<Slot>, b: seq<Slot>, n: int)
    requires |a| == |b| && forall k :: 0 <= k < |a| ==> a[k].slotNumber == b[k].slotNumber
    ensures FindSlot(a, n) == FindSlot(b, n)
  {
    if a != [] {
      FindSlotSameNumbers(a[1..], b[1..], n);
    }
  }

  lemma {:induction false} FindPostSameIds(a: seq<Post>, b: seq<Post>, id: PostId)
    requires |a| == |b| && forall k :: 0 <= k < |a| ==> a[k].id == b[k].id
    ensures FindPost(a, id) == FindPost(b, id)
  {
    if a != [] {
      FindPostSameIds(a[1..], b[1..], id);
    }
  }

  /** A second write to the same slot replaces the first, whatever happened to the posts in
      between. */
  lemma RewriteSlot(db: Db, i: nat, j: nat, s1: Slot, s2: Slot, posts: seq<Post>)
    requires i < |db.schedules| && j < |db.schedules[i].slots|
    ensures WriteSlot(WriteSlot(db, i, j, s1).(posts := posts), i, j, s2) == WriteSlot(db, i, j, s2).(posts := posts)
  {
    var a := WriteSlot(WriteSlot(db, i, j, s1).(posts := posts), i, j, s2);
    var b := WriteSlot(db, i, j, s2).(posts := posts);
    assert a.schedules[i] == b.schedules[i];
  }

  /** A second write at the same position replaces the first. */
  lemma UpdateTwice<T>(s: seq<T>, k: nat, a: T, b: T)
    requires k < |s|
    ensures s[k := a][k := b] == s[k := b]
  {
  }

  /** Writing a slot with the same number leaves every schedule and slot lookup as it was. */
  lemma WriteSlotKeepsLookups(db: Db, i: nat, j: nat, s: Slot, id: ScheduleId, n: int)
    requires i < |db.schedules| && j < |db.schedules[i].slots|
    requires s.slotNumber == db.schedules[i].slots[j].slotNumber
    ensures FindSchedule(WriteSlot(db, i, j, s).schedules, id) == FindSchedule(db.schedules, id)
    ensures FindSlot(WriteSlot(db, i, j, s).schedules[i].slots, n) == FindSlot(db.schedules[i].slots, n)
  {
    var r := WriteSlot(db, i, j, s);
    FindScheduleSameIds(r.schedules, db.schedules, id);
    FindSlotSameNumbers(r.schedules[i].slots, db.schedules[i].slots, n);
  }

  /** Recording the same payment twice ends as recording it once at the later time. */
  lemma RecordPaymentTwice(db: Db, req: VerifyRequest, user: UserId, t1: int, t2: int, week: int)
    ensures RecordPayment(RecordPayment(db, req, user, t1, week).db, req, user, t2, week)
         == RecordPayment(db, req, user, t2, week)
  {
    var i := FindSchedule(db.schedules, req.scheduleId);
    if i.Some? {
      var j := FindSlot(db.schedules[i.value].slots, req.slotNumber);
      if j.Some? {
        PaidTwiceAt(db, req, user, t1, t2, week, i.value, j.value);
      }
    }
  }

  /** `RecordPaymentTwice` once the schedule and the slot have been found. */
  lemma PaidTwiceAt(db: Db, req: VerifyRequest, user: UserId, t1: int, t2: int, week: int, i: nat, j: nat)
    requires FindSchedule(db.schedules, req.scheduleId) == Some(i)
    requires FindSlot(db.schedules[i].slots, req.slotNumber) == Some(j)
    ensures RecordPayment(RecordPayment(db, req, user, t1, week).db, req, user, t2, week)
         == RecordPayment(db, req, user, t2, week)
  {
    var slot := db.schedules[i].slots[j];
    var s1 := MarkedPaid(slot, req.postId, user, t1, req.sessionId);
    var s2 := MarkedPaid(slot, req.postId, user, t2, req.sessionId);
    var db1 := WriteSlot(db, i, j, s1);
    WriteSlotKeepsLookups(db, i, j, s1, req.scheduleId, req.slotNumber);
    assert MarkedPaid(db1.schedules[i].slots[j], req.postId, user, t2, req.sessionId) == s2;
    RewriteSlot(db, i, j, s1, s2, db.posts);
    var k := FindPost(db.posts, req.postId);
    if k.Some? {
      PublishedTwiceAt(db, req, user, t1, t2, week, i, j, k.value);
    }
  }

  /** `PaidTwiceAt` once the post has been found too. */
  lemma PublishedTwiceAt(db: Db, req: VerifyRequest, user: UserId, t1: int, t2: int, week: int,
                         i: nat, j: nat, k: nat)
    requires FindSchedule(db.schedules, req.scheduleId) == Some(i)
    requires FindSlot(db.schedules[i].slots, req.slotNumber) == Some(j)
    requires FindPost(db.posts, req.postId) == Some(k)
    ensures RecordPayment(RecordPayment(db, req, user, t1, week).db, req, user, t2, week)
         == RecordPayment(db, req, user, t2, week)
  {
    var p1 := db.posts[k].(status := Status.Published, scheduledWeek := Some(week), publishedAt := Some(t1));
    if SchemaValid(p1) {
      PublishedTwiceValid(db, req, user, t1, t2, week, i, j, k);
    } else {
      PublishedTwiceInvalid(db, req, user, t1, t2, week, i, j, k);
    }
  }

  /** `PublishedTwiceAt` when the first run's post passes the schema and is saved. */
  lemma PublishedTwiceValid(db: Db, req: VerifyRequest, user: UserId, t1: int, t2: int, week: int,
                            i: nat, j: nat, k: nat)
    requires FindSchedule(db.schedules, req.scheduleId) == Some(i)
    requires FindSlot(db.schedules[i].slots, req.slotNumber) == Some(j)
    requires FindPost(db.posts, req.postId) == Some(k)
    requires SchemaValid(db.posts[k].(status := Status.Published, scheduledWeek := Some(week), publishedAt := Some(t1)))
    ensures RecordPayment(RecordPayment(db, req, user, t1, week).db, req, user, t2, week)
         == RecordPayment(db, req, user, t2, week)
  {
    var slot := db.schedules[i].slots[j];
    var s1 := MarkedPaid(slot, req.postId, user, t1, req.sessionId);
    var s2 := MarkedPaid(slot, req.postId, user, t2, req.sessionId);
    var db1 := WriteSlot(db, i, j, s1);
    WriteSlotKeepsLookups(db, i, j, s1, req.scheduleId, req.slotNumber);
    assert MarkedPaid(s1, req.postId, user, t2, req.sessionId) == s2;
    var p1 := db.posts[k].(status := Status.Published, scheduledWeek := Some(week), publishedAt := Some(t1));
    var p2 := db.posts[k].(status := Status.Published, scheduledWeek := Some(week), publishedAt := Some(t2));
    assert p1.(status := Status.Published, scheduledWeek := Some(week), publishedAt := Some(t2)) == p2;
    var d := db1.(posts := db.posts[k := p1]);
    PaidStore(db, req, user, t1, week, i, j, k);
    assert RecordPayment(db, req, user, t1, week).db == d;
    // The second run finds the same schedule, slot and post in `d`.
    FindPostSameIds(d.posts, db.posts, req.postId);
    assert d.schedules[i].slots[j] == s1 && d.posts[k] == p1;
    PaidStore(d, req, user, t2, week, i, j, k);
    PaidStore(db, req, user, t2, week, i, j, k);
    UpdateTwice(db.posts, k, p1, p2);
    RewriteSlot(db, i, j, s1, s2, d.posts);
  }

  /** `PublishedTwiceAt` when the first run's post fails the schema and only the slot is
      written. */
  lemma PublishedTwiceInvalid(db: Db, req: VerifyRequest, user: UserId, t1: int, t2: int, week: int,
                              i: nat, j: nat, k: nat)
    requires FindSchedule(db.schedules, req.scheduleId) == Some(i)
    requires FindSlot(db.schedules[i].slots, req.slotNumber) == Some(j)
    requires FindPost(db.posts, req.postId) == Some(k)
    requires !SchemaValid(db.posts[k].(status := Status.Published, scheduledWeek := Some(week), publishedAt := Some(t1)))
    ensures RecordPayment(RecordPayment(db, req, user, t1, week).db, req, user, t2, week)
         == RecordPayment(db, req, user, t2, week)
  {
    var slot := db.schedules[i].slots[j];
    var s1 := MarkedPaid(slot, req.postId, user, t1, req.sessionId);
    var s2 := MarkedPaid(slot, req.postId, user, t2, req.sessionId);
    var db1 := WriteSlot(db, i, j, s1);
    WriteSlotKeepsLookups(db, i, j, s1, req.scheduleId, req.slotNumber);
    assert MarkedPaid(s1, req.postId, user, t2, req.sessionId) == s2;
    PaidStore(db, req, user, t1, week, i, j, k);
    RewriteSlot(db, i, j, s1, s2, db.posts);
  }

  /** The store a payment record leaves once the schedule, the slot and the post are found:
      the slot marked paid, and the post published when the result passes the schema. */
  lemma PaidStore(db: Db, req: VerifyRequest, user: UserId, t: int, week: int, i: nat, j: nat, k: nat)
    requires FindSchedule(db.schedules, req.scheduleId) == Some(i)
    requires FindSlot(db.schedules[i].slots, req.slotNumber) == Some(j)
    requires FindPost(db.posts, req.postId) == Some(k)
    ensures var db1 := WriteSlot(db, i, j, MarkedPaid(db.schedules[i].slots[j], req.postId, user, t, req.sessionId));
            var p := db.posts[k].(status := Status.Published, scheduledWeek := Some(week), publishedAt := Some(t));
            RecordPayment(db, req, user, t, week)
            == if SchemaValid(p) then Outcome(db1.(posts := db.posts[k := p]), Ok(Receipt(req.postId, t)))
               else Outcome(db1, Err(ServerError))
  {
  }

  /** Running `verify-payment` again with the same arguments, at any later time, ends exactly as
      a single run at that later time would: the slot and post fields it writes are rewritten,
      and only `bookedAt` and `publishedAt` move to the new time. This holds whatever the first
      run answered, including its partial writes. */
  lemma VerifyTwice(db: Db, verb: HttpMethod, uid: Uid, req: VerifyRequest, t1: int, t2: int,
                    sessions: string -> SessionReply)
    ensures Verify(Verify(db, verb, uid, req, t1, sessions).db, verb, uid, req, t2, sessions)
         == Verify(db, verb, uid, req, t2, sessions)
  {
    if verb == POST && uid in db.users {
      var s := sessions(req.sessionId);
      if s.Session? && s.paid && MetadataMatches(s.metadata, req, db.users[uid].id) {
        RecordPaymentTwice(db, req, db.users[uid].id, t1, t2, s.metadata.weekStartDate);
      }
    }
  }

  /** Once a cancellation has succeeded, repeating it is refused as Forbidden and changes
      nothing: the released slot no longer names the caller. */
  lemma CancelTwice(db: Db, verb: HttpMethod, uid: Uid, req: CancelRequest)
    requires Cancel(db, verb, uid, req).result.Ok?
    ensures Cancel(Cancel(db, verb, uid, req).db, verb, uid, req)
         == Outcome(Cancel(db, verb, uid, req).db, Err(Forbidden))
  {
    var user := db.users[uid];
    var i := FindSchedule(db.schedules, req.scheduleId).value;
    var j := FindSlot(db.schedules[i].slots, req.slotNumber).value;
    var slot := db.schedules[i].slots[j];
    var db1 := WriteSlot(db, i, j, Released(slot));
    WriteSlotKeepsLookups(db, i, j, Released(slot), req.scheduleId, req.slotNumber);
    var r := Cancel(db, verb, uid, req).db;
    assert r.schedules == db1.schedules;
  }

  /** Booking a slot and then cancelling that reservation gives back the store as it was
      before the booking, except for the week the booking may have created. This holds however
      the gateway answered, since the reservation is saved before the gateway is called. */
  lemma BookThenCancel(db: Db, uid: Uid, req: BookRequest, now: int, freshId: ScheduleId,
                       checkout: CheckoutRequest -> CheckoutReply)
    requires Inv(db)
    requires Book(db, POST, uid, req, now, freshId, checkout).sent.Some?
    ensures var b := Book(db, POST, uid, req, now, freshId, checkout);
            var c := Cancel(b.db, POST, uid, CancelRequest(b.sent.value.metadata.scheduleId, req.slotNumber, req.postId));
            && FindOrCreateWeek(db, req.weekStartDate, freshId).Some?
            && c == Outcome(FindOrCreateWeek(db, req.weekStartDate, freshId).value.db, Ok(()))
  {
    var user := db.users[uid];
    var f := FindOrCreateWeek(db, req.weekStartDate, freshId).value;
    FindOrCreateInv(db, req.weekStartDate, freshId);
    var db0, i := f.db, f.index;
    var sched := db0.schedules[i];
    var j := FindSlot(sched.slots, req.slotNumber).value;
    var db1 := WriteSlot(db0, i, j, Reserved(sched.slots[j], req.postId, user.id, now));
    assert Book(db, POST, uid, req, now, freshId, checkout).db == db1;
    CancelUndoesReserve(db0, uid, i, j, req.slotNumber, req.postId, now);
  }

  /** Cancelling a reservation just made on a free slot gives back the store as it was. */
  lemma CancelUndoesReserve(db: Db, uid: Uid, i: nat, j: nat, slotNumber: int, postId: PostId, now: int)
    requires Inv(db) && uid in db.users
    requires i < |db.schedules| && FindSlot(db.schedules[i].slots, slotNumber) == Some(j)
    requires db.schedules[i].slots[j].post.None?
    requires FindOwnDraft(db.posts, postId, db.users[uid].id).Some?
    ensures var slot := db.schedules[i].slots[j];
            var db1 := WriteSlot(db, i, j, Reserved(slot, postId, db.users[uid].id, now));
            Cancel(db1, POST, uid, CancelRequest(db.schedules[i].id, slotNumber, postId)) == Outcome(db, Ok(()))
  {
    var user := db.users[uid];
    var sched := db.schedules[i];
    var slot := sched.slots[j];
    assert SlotInv(slot);
    var db1 := WriteSlot(db, i, j, Reserved(slot, postId, user.id, now));
    WriteSlotKeepsLookups(db, i, j, Reserved(slot, postId, user.id, now), sched.id, slotNumber);
    // The schedule ids are unique, so the cancellation finds the booked week.
    assert FindSchedule(db.schedules, sched.id) == Some(i);
    ReleaseAfterReserve(db, i, j, postId, user.id, now);
    DraftKeptByCancel(db, postId, user.id);
  }

  lemma ReleaseAfterReserve(db: Db, i: nat, j: nat, postId: PostId, user: UserId, now: int)
    requires i < |db.schedules| && j < |db.schedules[i].slots|
    requires db.schedules[i].slots[j].post.None? && SlotInv(db.schedules[i].slots[j])
    ensures var db1 := WriteSlot(db, i, j, Reserved(db.schedules[i].slots[j], postId, user, now));
            WriteSlot(db1, i, j, Released(db1.schedules[i].slots[j])) == db
  {
    var slot := db.schedules[i].slots[j];
    var db1 := WriteSlot(db, i, j, Reserved(slot, postId, user, now));
    assert Released(Reserved(slot, postId, user, now)) == slot;
    assert WriteSlot(db1, i, j, slot).schedules[i] == db.schedules[i];
  }

  /** Post ids are unique, so the post a cancellation finds is the caller's draft, which going
      back to draft leaves as it is. */
  lemma DraftKeptByCancel(db: Db, postId: PostId, user: UserId)
    requires Inv(db) && FindOwnDraft(db.posts, postId, user).Some?
    ensures var k := FindOwnDraft(db.posts, postId, user).value;
            && FindPost(db.posts, postId) == Some(k)
            && db.posts[k].(status := Draft, scheduledWeek := None, publishedAt := None) == db.posts[k]
            && SchemaValid(db.posts[k]) && db.posts[k := db.posts[k]] == db.posts
  {
    var k := FindOwnDraft(db.posts, postId, user).value;
    assert PostInv(db.posts[k]);
    FindStoredPost(db.posts, k);
  }

  /** With distinct ids, looking up a stored post's id finds that post. */
  lemma FindStoredPost(posts: seq<Post>, k: nat)
    requires UniquePostIds(posts) && k < |posts|
    ensures FindPost(posts, posts[k].id) == Some(k)
  {
    var f := FindPost(posts, posts[k].id);
    assert f.Some?;
    assert posts[f.value].id == posts[k].id;
  }

  /** Under the invariant a successful reservation takes exactly one slot out of its week's
      available count. */
  lemma BookTakesOneSlot(db: Db, uid: Uid, req: BookRequest, now: int, freshId: ScheduleId,
                         checkout: CheckoutRequest -> CheckoutReply)
    requires Inv(db)
    requires Book(db, POST, uid, req, now, freshId, checkout).sent.Some?
    ensures var f := FindOrCreateWeek(db, req.weekStartDate, freshId);
            var b := Book(db, POST, uid, req, now, freshId, checkout);
            && f.Some? && f.value.index < |b.db.schedules|
            && CountAvailable(b.db.schedules[f.value.index].slots)
               == CountAvailable(f.value.db.schedules[f.value.index].slots) - 1
  {
    var user := db.users[uid];
    var f := FindOrCreateWeek(db, req.weekStartDate, freshId).value;
    FindOrCreateInv(db, req.weekStartDate, freshId);
    var sched := f.db.schedules[f.index];
    var j := FindSlot(sched.slots, req.slotNumber).value;
    assert SlotInv(sched.slots[j]);
    var s := Reserved(sched.slots[j], req.postId, user.id, now);
    CountAvailableUpdate(sched.slots, j, s);
    assert WriteSlot(f.db, f.index, j, s).schedules[f.index].slots == sched.slots[j := s];
  }
}
