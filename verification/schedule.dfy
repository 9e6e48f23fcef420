/**
 * The `Schedule` document: one per week, holding the featured-listing slots of that week.
 * Each slot records who holds it and the state of its payment.
 */
module Schedules {
  import opened Common

  /** Number of slots a week is created with. */
  const SlotsPerWeek: int := 10
  /** The default price of a slot, in dollars. */
  const SlotPrice: int := 29

  datatype Slot = Slot(
    slotNumber: int,
    post: Option<PostId>,
    user: Option<UserId>,
    bookedAt: Option<int>,
    paid: bool,
    paymentPending: bool,
    paymentAmount: int,
    stripePaymentId: Option<string>)

  datatype Schedule = Schedule(
    id: ScheduleId,
    weekStartDate: int,
    weekEndDate: int,
    slots: seq<Slot>,
    isActive: bool)

  /** A slot nobody holds: no post, no user, no booking time, neither paid nor pending. */
  predicate Vacant(s: Slot) {
    s.post.None? && s.user.None? && s.bookedAt.None? && !s.paid && !s.paymentPending
  }

  /** The slot sub-document as created with only its number given: every other field
      takes the schema default. */
  function NewSlot(n: int): (s: Slot)
    ensures s.slotNumber == n && Vacant(s)
    ensures s.paymentAmount == SlotPrice && s.stripePaymentId.None?
  {
    Slot(n, None, None, None, false, false, SlotPrice, None)
  }

  /** The schema bound on a slot number. */
  predicate ValidSlotNumber(n: int) {
    1 <= n <= SlotsPerWeek
  }

  /** The ten slots a new week is created with, numbered 1 to 10 in order. */
  function EmptySlots(): (r: seq<Slot>)
    ensures |r| == SlotsPerWeek
    ensures forall i :: 0 <= i < |r| ==> r[i].slotNumber == i + 1 && ValidSlotNumber(r[i].slotNumber)
    ensures forall i :: 0 <= i < |r| ==> Vacant(r[i]) && r[i].paymentAmount == SlotPrice
  {
    seq(SlotsPerWeek, i requires 0 <= i => NewSlot(i + 1))
  }

  /** A new schedule document; `isActive` takes its default. */
  function NewSchedule(id: ScheduleId, weekStart: int, weekEnd: int): (s: Schedule)
    ensures s.id == id && s.weekStartDate == weekStart && s.weekEndDate == weekEnd
    ensures s.isActive && s.slots == EmptySlots()
  {
    Schedule(id, weekStart, weekEnd, EmptySlots(), true)
  }

  /** `slots.find(s => s.slotNumber === n)`: the index of the first slot numbered `n`. */
  function FindSlot(slots: seq<Slot>, n: int): (r: Option<nat>)
    ensures r.Some? ==> r.value < |slots| && slots[r.value].slotNumber == n
    ensures r.Some? ==> forall k :: 0 <= k < r.value ==> slots[k].slotNumber != n
    ensures r.None? <==> forall k :: 0 <= k < |slots| ==> slots[k].slotNumber != n
  {
    if slots == [] then None
    else if slots[0].slotNumber == n then Some(0)
    else match FindSlot(slots[1..], n)
      case None => None
      case Some(k) => Some(k + 1)
  }

  /** In a freshly created week, slot number `n` is found exactly when it lies in 1..10,
      at position `n - 1`. */
  lemma FindSlotInEmptySlots(n: int)
    ensures FindSlot(EmptySlots(), n).Some? <==> ValidSlotNumber(n)
    ensures ValidSlotNumber(n) ==> FindSlot(EmptySlots(), n) == Some(n - 1)
  {
    var r := FindSlot(EmptySlots(), n);
    if ValidSlotNumber(n) {
      assert EmptySlots()[n - 1].slotNumber == n;
    }
  }

  /** The availability test of the week listing:
      `!slot.post || (!slot.paid && !slot.paymentPending)`. */
  predicate Available(s: Slot) {
    s.post.None? || (!s.paid && !s.paymentPending)
  }

  /** Number of available slots: the week listing's `availableSlots`. */
  function CountAvailable(slots: seq<Slot>): (r: nat)
    decreases |slots|
    ensures r <= |slots|
    ensures r == 0 <==> forall k :: 0 <= k < |slots| ==> !Available(slots[k])
    ensures r == |slots| <==> forall k :: 0 <= k < |slots| ==> Available(slots[k])
  {
    if slots == [] then 0
    else
      var rest := CountAvailable(slots[1..]);
      assert forall k :: 0 < k < |slots| ==> slots[k] == slots[1..][k - 1];
      (if Available(slots[0]) then 1 else 0) + rest
  }

  /** Number of slots whose `post` is null: the availability test of the debug listing
      and of the booking page. */
  function CountFree(slots: seq<Slot>): (r: nat)
    decreases |slots|
    ensures r <= |slots|
    ensures r == |slots| <==> forall k :: 0 <= k < |slots| ==> slots[k].post.None?
  {
    if slots == [] then 0
    else
      var rest := CountFree(slots[1..]);
      assert forall k :: 0 < k < |slots| ==> slots[k] == slots[1..][k - 1];
      (if slots[0].post.None? then 1 else 0) + rest
  }

  /** The per-slot invariant every writer keeps: a slot holds a post exactly when it is
      paid or awaiting payment. */
  predicate Consistent(s: Slot) {
    s.post.Some? <==> (s.paid || s.paymentPending)
  }

  predicate AllConsistent(slots: seq<Slot>) {
    forall i :: 0 <= i < |slots| ==> Consistent(slots[i])
  }

  /** Every slot holding a post is paid or awaiting payment. */
  predicate HeldAreBooked(slots: seq<Slot>) {
    forall i :: 0 <= i < |slots| && slots[i].post.Some? ==> slots[i].paid || slots[i].paymentPending
  }

  /** Every null-post slot is available, so the debug count never exceeds the week-listing
      count; the two counts agree exactly when no slot holds a post while neither paid nor
      pending, in particular when all slots are consistent. */
  lemma {:induction false} FreeVersusAvailable(slots: seq<Slot>)
    ensures CountFree(slots) <= CountAvailable(slots)
    ensures CountFree(slots) == CountAvailable(slots) <==> HeldAreBooked(slots)
    ensures AllConsistent(slots) ==> CountFree(slots) == CountAvailable(slots)
  {
    if slots != [] {
      FreeVersusAvailable(slots[1..]);
      assert HeldAreBooked(slots) <==> (slots[0].post.Some? ==> slots[0].paid || slots[0].paymentPending)
                                       && HeldAreBooked(slots[1..]) by {
        assert forall i :: 0 < i < |slots| ==> slots[1..][i - 1] == slots[i];
      }
    }
  }

  /** Replacing one slot changes the available count by that slot's contribution only. */
  lemma {:induction false} CountAvailableUpdate(slots: seq<Slot>, j: nat, s: Slot)
    requires j < |slots|
    ensures CountAvailable(slots[j := s])
         == CountAvailable(slots) - (if Available(slots[j]) then 1 else 0) + (if Available(s) then 1 else 0)
  {
    if j > 0 {
      assert slots[j := s][1..] == slots[1..][j - 1 := s];
      CountAvailableUpdate(slots[1..], j - 1, s);
    } else {
      assert slots[j := s][1..] == slots[1..];
    }
  }

  /** All ten slots of a new week are available. */
  lemma EmptySlotsAllAvailable()
    ensures CountAvailable(EmptySlots()) == SlotsPerWeek
    ensures CountFree(EmptySlots()) == SlotsPerWeek
    ensures AllConsistent(EmptySlots())
  {
    AllVacantCounts(EmptySlots());
  }

  lemma {:induction false} AllVacantCounts(slots: seq<Slot>)
    requires forall i :: 0 <= i < |slots| ==> Vacant(slots[i])
    ensures CountAvailable(slots) == |slots| && CountFree(slots) == |slots|
  {
    if slots != [] {
      assert forall i :: 0 <= i < |slots[1..]| ==> slots[1..][i] == slots[i + 1];
      AllVacantCounts(slots[1..]);
    }
  }

  /** No slot is free exactly when every slot holds a post. */
  lemma {:induction false} CountFreeZero(slots: seq<Slot>)
    ensures CountFree(slots) == 0 <==> forall k :: 0 <= k < |slots| ==> slots[k].post.Some?
  {
    if slots != [] {
      CountFreeZero(slots[1..]);
      assert forall k :: 0 < k < |slots| ==> slots[k] == slots[1..][k - 1];
    }
  }
}
