/**
 * The featured-slot booking handlers: `book` reserves a slot and opens a checkout session,
 * `verify-payment` marks the slot paid and publishes the post, `cancel-payment` releases the
 * slot and returns the post to draft. Each is a pure transition of the store; the payment
 * gateway, the clock and the id generator are parameters.
 */
module Booking {
  import opened Common
  import opened Strings
  import opened Schedules
  import opened Posts
  import opened Store
  import opened Api

  /** Price of one slot in cents, as sent to the gateway. */
  const UnitAmountCents: int := 2900

  /** The correlation data attached to a checkout session; the slot number travels as text. */
  datatype Metadata = Metadata(
    scheduleId: ScheduleId,
    slotNumber: string,
    postId: PostId,
    userId: UserId,
    weekStartDate: int)

  /** What `book` asks the gateway for: one item at `unitAmount` cents. */
  datatype CheckoutRequest = CheckoutRequest(
    unitAmount: int,
    quantity: int,
    customerEmail: string,
    metadata: Metadata)

  /** The gateway's answer to a checkout request: it may throw. */
  datatype CheckoutReply = CheckoutFailed | CheckoutCreated(sessionId: string, url: string)

  /** The gateway's answer to a session lookup: it may throw. */
  datatype SessionReply = RetrieveFailed | Session(paid: bool, metadata: Metadata)

  datatype BookRequest = BookRequest(postId: PostId, weekStartDate: int, slotNumber: int)
  datatype VerifyRequest = VerifyRequest(sessionId: string, scheduleId: ScheduleId, slotNumber: int, postId: PostId)
  datatype CancelRequest = CancelRequest(scheduleId: ScheduleId, slotNumber: int, postId: PostId)

  /** `book`'s successful answer. */
  datatype Checkout = Checkout(sessionId: string, checkoutUrl: string)

  /** `verify-payment`'s successful answer. */
  datatype Receipt = Receipt(postId: PostId, publishedAt: int)

  /** `book`'s outcome, with the checkout request it sent to the gateway, if it got that far. */
  datatype BookOutcome = BookOutcome(db: Db, result: Result<Checkout>, sent: Option<CheckoutRequest>)

  /** The slot as `book` leaves it: held for `post` by `user`, unpaid, awaiting payment. */
  function Reserved(s: Slot, post: PostId, user: UserId, now: int): Slot {
    s.(post := Some(post), user := Some(user), bookedAt := Some(now), paid := false, paymentPending := true)
  }

  /** The slot as `verify-payment` leaves it. `paymentPending` keeps its previous value. */
  function MarkedPaid(s: Slot, post: PostId, user: UserId, now: int, sessionId: string): Slot {
    s.(post := Some(post), user := Some(user), bookedAt := Some(now), paid := true,
       stripePaymentId := Some(sessionId))
  }

  /** The slot as `cancel-payment` leaves it; number, price and payment id are kept. */
  function Released(s: Slot): Slot {
    s.(post := None, user := None, bookedAt := None, paid := false, paymentPending := false)
  }

  /** The checkout request `book` sends for a reservation. */
  function CheckoutRequestFor(scheduleId: ScheduleId, req: BookRequest, user: User): (c: CheckoutRequest)
    ensures c.unitAmount == 100 * SlotPrice && c.quantity == 1
    ensures c.customerEmail == user.email
    ensures c.metadata.scheduleId == scheduleId && c.metadata.postId == req.postId
    ensures c.metadata.userId == user.id && c.metadata.weekStartDate == req.weekStartDate
    ensures 1 <= |c.metadata.slotNumber| && ParseInt(c.metadata.slotNumber) == req.slotNumber
  {
    ParseIntString(req.slotNumber);
    CheckoutRequest(UnitAmountCents, 1, user.email,
      Metadata(scheduleId, IntString(req.slotNumber), req.postId, user.id, req.weekStartDate))
  }

  /** `POST /api/schedule/book`. */
  function Book(db: Db, verb: HttpMethod, uid: Uid, req: BookRequest, now: int, freshId: ScheduleId,
                checkout: CheckoutRequest -> CheckoutReply): (r: BookOutcome)
    // Booking never touches a post: its status stays `draft` until payment is confirmed.
    ensures r.db.users == db.users && r.db.posts == db.posts
    // Wrong verb, unknown caller, or a post that is not the caller's draft: nothing is read or written.
    ensures verb != POST ==> r == BookOutcome(db, Err(MethodNotAllowed), None)
    ensures verb == POST && uid !in db.users ==> r == BookOutcome(db, Err(Unauthorized), None)
    ensures verb == POST && uid in db.users && FindOwnDraft(db.posts, req.postId, db.users[uid].id).None? ==>
              r == BookOutcome(db, Err(NotFound), None)
    // Past the post check, the week is found or created; a failed creation is a server error.
    ensures verb == POST && uid in db.users && FindOwnDraft(db.posts, req.postId, db.users[uid].id).Some? ==>
              (var f := FindOrCreateWeek(db, req.weekStartDate, freshId);
               && (f.None? ==> r == BookOutcome(db, Err(ServerError), None))
               && (f.Some? ==> SlotStep(f.value, req, db.users[uid], now, checkout, r)))
  {
    if verb != POST then BookOutcome(db, Err(MethodNotAllowed), None)
    else if uid !in db.users then BookOutcome(db, Err(Unauthorized), None)
    else
      var user := db.users[uid];
      if FindOwnDraft(db.posts, req.postId, user.id).None? then BookOutcome(db, Err(NotFound), None)
      else match FindOrCreateWeek(db, req.weekStartDate, freshId)
        case None => BookOutcome(db, Err(ServerError), None)
        case Some(found) =>
          var sched := found.db.schedules[found.index];
          match FindSlot(sched.slots, req.slotNumber)
          case None => BookOutcome(found.db, Err(InvalidSlot), None)
          case Some(j) =>
            if sched.slots[j].post.Some? then BookOutcome(found.db, Err(SlotTaken), None)
            else
              var db1 := WriteSlot(found.db, found.index, j, Reserved(sched.slots[j], req.postId, user.id, now));
              var request := CheckoutRequestFor(sched.id, req, user);
              match checkout(request)
              case CheckoutFailed => BookOutcome(db1, Err(GatewayError), Some(request))
              case CheckoutCreated(sid, url) => BookOutcome(db1, Ok(Checkout(sid, url)), Some(request))
  }

  /** What `book` does once its week is settled: look the slot up by number, refuse it when it
      is missing or holds a post (whatever its payment flags), otherwise save the reservation
      and only then call the gateway, so a gateway failure leaves the slot pending. */
  ghost predicate SlotStep(found: Found, req: BookRequest, user: User, now: int,
                           checkout: CheckoutRequest -> CheckoutReply, r: BookOutcome)
    requires found.index < |found.db.schedules|
  {
    var sched := found.db.schedules[found.index];
    var j := FindSlot(sched.slots, req.slotNumber);
    && (j.None? ==> r == BookOutcome(found.db, Err(InvalidSlot), None))
    && (j.Some? && sched.slots[j.value].post.Some? ==> r == BookOutcome(found.db, Err(SlotTaken), None))
    && (j.Some? && sched.slots[j.value].post.None? ==>
          && r.db == WriteSlot(found.db, found.index, j.value, Reserved(sched.slots[j.value], req.postId, user.id, now))
          && r.sent == Some(CheckoutRequestFor(sched.id, req, user))
          && (checkout(r.sent.value).CheckoutFailed? ==> r.result == Err(GatewayError))
          && (checkout(r.sent.value).CheckoutCreated? ==>
                r.result == Ok(Checkout(checkout(r.sent.value).sessionId, checkout(r.sent.value).url))))
  }

  /** The session's correlation data names this reservation: schedule, slot number (as text),
      post, and the calling user. */
  predicate MetadataMatches(m: Metadata, req: VerifyRequest, user: UserId) {
    m.scheduleId == req.scheduleId && m.slotNumber == IntString(req.slotNumber)
    && m.postId == req.postId && m.userId == user
  }

  /** `POST /api/schedule/verify-payment`. */
  function Verify(db: Db, verb: HttpMethod, uid: Uid, req: VerifyRequest, now: int,
                  sessions: string -> SessionReply): (r: Outcome<Receipt>)
    ensures r.db.users == db.users
    ensures verb != POST ==> r == Outcome(db, Err(MethodNotAllowed))
    // The caller is resolved before the gateway is consulted.
    ensures verb == POST && uid !in db.users ==> r == Outcome(db, Err(Unauthorized))
    ensures verb == POST && uid in db.users ==>
              (var s := sessions(req.sessionId);
               && (s.RetrieveFailed? ==> r == Outcome(db, Err(GatewayError)))
               && (s.Session? && !s.paid ==> r == Outcome(db, Err(PaymentIncomplete)))
               && (s.Session? && s.paid && !MetadataMatches(s.metadata, req, db.users[uid].id) ==>
                     r == Outcome(db, Err(MetadataMismatch)))
               && (s.Session? && s.paid && MetadataMatches(s.metadata, req, db.users[uid].id) ==>
                     r == RecordPayment(db, req, db.users[uid].id, now, s.metadata.weekStartDate)))
  {
    if verb != POST then Outcome(db, Err(MethodNotAllowed))
    else if uid !in db.users then Outcome(db, Err(Unauthorized))
    else
      var user := db.users[uid];
      match sessions(req.sessionId)
      case RetrieveFailed => Outcome(db, Err(GatewayError))
      case Session(paid, meta) =>
        if !paid then Outcome(db, Err(PaymentIncomplete))
        else if !MetadataMatches(meta, req, user.id) then Outcome(db, Err(MetadataMismatch))
        else RecordPayment(db, req, user.id, now, meta.weekStartDate)
  }

  /** What `verify-payment` does once the session is paid and matches: a missing schedule or
      slot writes nothing; otherwise the slot is marked paid and saved whoever held it before,
      and only then is the post looked up, so a missing post leaves the slot paid. The post is
      published for the week recorded in the session. */
  function RecordPayment(db: Db, req: VerifyRequest, user: UserId, now: int, week: int): (r: Outcome<Receipt>)
    ensures r.db.users == db.users
    ensures FindSchedule(db.schedules, req.scheduleId).None? ==> r == Outcome(db, Err(NotFound))
    ensures FindSchedule(db.schedules, req.scheduleId).Some? ==>
              PaidStep(db, FindSchedule(db.schedules, req.scheduleId).value, req, user, now, week, r)
  {
    match FindSchedule(db.schedules, req.scheduleId)
    case None => Outcome(db, Err(NotFound))
    case Some(i) =>
      match FindSlot(db.schedules[i].slots, req.slotNumber)
      case None => Outcome(db, Err(NotFound))
      case Some(j) =>
        var db1 := WriteSlot(db, i, j, MarkedPaid(db.schedules[i].slots[j], req.postId, user, now, req.sessionId));
        match FindPost(db1.posts, req.postId)
        case None => Outcome(db1, Err(NotFound))
        case Some(k) =>
          var p := db1.posts[k].(status := Status.Published, scheduledWeek := Some(week), publishedAt := Some(now));
          match SavePost(db1, k, p)
          case None => Outcome(db1, Err(ServerError))
          case Some(db2) => Outcome(db2, Ok(Receipt(req.postId, now)))
  }

  /** `RecordPayment` past the schedule lookup, which found schedule `i`. */
  ghost predicate PaidStep(db: Db, i: nat, req: VerifyRequest, user: UserId, now: int, week: int, r: Outcome<Receipt>)
    requires i < |db.schedules|
  {
    var sched := db.schedules[i];
    var j := FindSlot(sched.slots, req.slotNumber);
    && (j.None? ==> r == Outcome(db, Err(NotFound)))
    && (j.Some? ==>
          var db1 := WriteSlot(db, i, j.value, MarkedPaid(sched.slots[j.value], req.postId, user, now, req.sessionId));
          var k := FindPost(db.posts, req.postId);
          && (k.None? ==> r == Outcome(db1, Err(NotFound)))
          && (k.Some? ==>
                var p := db.posts[k.value].(status := Status.Published, scheduledWeek := Some(week),
                                            publishedAt := Some(now));
                && (!SchemaValid(p) ==> r == Outcome(db1, Err(ServerError)))
                && (SchemaValid(p) ==>
                      r == Outcome(db1.(posts := db.posts[k.value := p]), Ok(Receipt(req.postId, now))))))
  }

  /** The caller holds the slot: both the slot's user and its post are set and match. */
  predicate HeldBy(s: Slot, user: UserId, post: PostId) {
    s.user == Some(user) && s.post == Some(post)
  }

  /** `POST /api/schedule/cancel-payment`. */
  function Cancel(db: Db, verb: HttpMethod, uid: Uid, req: CancelRequest): (r: Outcome<()>)
    ensures r.db.users == db.users
    ensures verb != POST ==> r == Outcome(db, Err(MethodNotAllowed))
    ensures verb == POST && uid !in db.users ==> r == Outcome(db, Err(Unauthorized))
    ensures verb == POST && uid in db.users ==> ReleaseStep(db, req, db.users[uid], r)
  {
    if verb != POST then Outcome(db, Err(MethodNotAllowed))
    else if uid !in db.users then Outcome(db, Err(Unauthorized))
    else
      var user := db.users[uid];
      match FindSchedule(db.schedules, req.scheduleId)
      case None => Outcome(db, Err(NotFound))
      case Some(i) =>
        match FindSlot(db.schedules[i].slots, req.slotNumber)
        case None => Outcome(db, Err(NotFound))
        case Some(j) =>
          var slot := db.schedules[i].slots[j];
          if !HeldBy(slot, user.id, req.postId) then Outcome(db, Err(Forbidden))
          else
            var db1 := WriteSlot(db, i, j, Released(slot));
            match FindPost(db1.posts, req.postId)
            case None => Outcome(db1, Ok(()))
            case Some(k) =>
              var p := db1.posts[k].(status := Draft, scheduledWeek := None, publishedAt := None);
              match SavePost(db1, k, p)
              case None => Outcome(db1, Err(ServerError))
              case Some(db2) => Outcome(db2, Ok(()))
  }

  /** What `cancel-payment` does for a known caller: a missing schedule or slot is NotFound and
      a slot the caller does not hold is Forbidden, both writing nothing; payment state is not
      looked at. Otherwise the slot is released and saved, and the post, if it exists, goes
      back to draft; a missing post still succeeds. */
  ghost predicate ReleaseStep(db: Db, req: CancelRequest, user: User, r: Outcome<()>) {
    var i := FindSchedule(db.schedules, req.scheduleId);
    && (i.None? ==> r == Outcome(db, Err(NotFound)))
    && (i.Some? ==>
          var sched := db.schedules[i.value];
          var j := FindSlot(sched.slots, req.slotNumber);
          && (j.None? ==> r == Outcome(db, Err(NotFound)))
          && (j.Some? && !HeldBy(sched.slots[j.value], user.id, req.postId) ==> r == Outcome(db, Err(Forbidden)))
          && (j.Some? && HeldBy(sched.slots[j.value], user.id, req.postId) ==>
                var db1 := WriteSlot(db, i.value, j.value, Released(sched.slots[j.value]));
                var k := FindPost(db.posts, req.postId);
                && (k.None? ==> r == Outcome(db1, Ok(())))
                && (k.Some? ==>
                      var p := db.posts[k.value].(status := Draft, scheduledWeek := None, publishedAt := None);
                      && (!SchemaValid(p) ==> r == Outcome(db1, Err(ServerError)))
                      && (SchemaValid(p) ==> r == Outcome(db1.(posts := db.posts[k.value := p]), Ok(()))))))
  }
}
