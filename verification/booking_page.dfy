/**
 * The booking page (`/schedule`): it shows the caller's drafts and the week listing, lets the
 * caller pick a post and a week with room, and on "pay" sends a booking request for the first
 * slot of that week that holds no post, then follows the checkout link of the answer.
 */
module BookingPage {
  import opened Common
  import opened Schedules
  import opened Api
  import opened Booking
  import opened Weeks

  /** How many weeks of the listing the page shows. */
  const WeeksOnPage: nat := 4

  /** The alerts the pay action can raise instead of sending a request. */
  datatype Alert =
    | SelectBoth      // "Please select a product and week"
    | WeekNotFound    // "Selected week not found"
    | NoFreeSlot      // "No slots available in this week"

  datatype PayAction = Warn(alert: Alert) | Send(request: BookRequest)

  /** After the drafts arrive, the first one is selected; with none the selection is kept. */
  function AutoSelect(drafts: seq<PostId>, selected: Option<PostId>): (r: Option<PostId>)
    ensures r.Some? ==> r.value in drafts || r == selected
    ensures drafts != [] ==> r == Some(drafts[0])
    ensures drafts == [] ==> r == selected
  {
    if |drafts| > 0 then Some(drafts[0]) else selected
  }

  /** A post selection counts only when it is a non-empty id (`!selectedPost` is false). */
  predicate Chosen(post: Option<PostId>) {
    post.Some? && post.value != ""
  }

  /** `weeks.find(w => w.weekStart === start)`: the position of the first listed week
      starting at `start`. */
  function FindListed(weeks: seq<WeekSummary>, start: int): (r: Option<nat>)
    ensures r.Some? ==> r.value < |weeks| && weeks[r.value].weekStart == start
    ensures r.Some? ==> forall k :: 0 <= k < r.value ==> weeks[k].weekStart != start
    ensures r.None? <==> forall k :: 0 <= k < |weeks| ==> weeks[k].weekStart != start
  {
    if weeks == [] then None
    else if weeks[0].weekStart == start then Some(0)
    else match FindListed(weeks[1..], start)
      case None => None
      case Some(k) => Some(k + 1)
  }

  /** `slots.find(slot => !slot.post)`: the position of the first slot without a post. */
  function FirstFree(slots: seq<Slot>): (r: Option<nat>)
    ensures r.Some? ==> r.value < |slots| && slots[r.value].post.None?
    ensures r.Some? ==> forall k :: 0 <= k < r.value ==> slots[k].post.Some?
    ensures r.None? <==> forall k :: 0 <= k < |slots| ==> slots[k].post.Some?
  {
    if slots == [] then None
    else if slots[0].post.None? then Some(0)
    else match FirstFree(slots[1..])
      case None => None
      case Some(k) => Some(k + 1)
  }

  /** The pay button: both a post and a week must be selected, the week must be listed, and
      the request names the first free slot of the first listed week with that start. */
  function PayAndSchedule(post: Option<PostId>, week: Option<int>, weeks: seq<WeekSummary>): (r: PayAction)
    ensures r == Warn(SelectBoth) <==> !Chosen(post) || week.None?
    ensures r == Warn(WeekNotFound) <==>
              Chosen(post) && week.Some? && forall k :: 0 <= k < |weeks| ==> weeks[k].weekStart != week.value
    ensures r == Warn(NoFreeSlot) <==>
              Chosen(post) && week.Some? && FindListed(weeks, week.value).Some? &&
              forall j :: 0 <= j < |weeks[FindListed(weeks, week.value).value].slots| ==>
                weeks[FindListed(weeks, week.value).value].slots[j].post.Some?
    ensures r.Send? ==>
              && r.request.postId == post.value && r.request.weekStartDate == week.value
              && exists k :: 0 <= k < |weeks| && weeks[k].weekStart == week.value
                   && (forall k' :: 0 <= k' < k ==> weeks[k'].weekStart != week.value)
                   && exists j :: 0 <= j < |weeks[k].slots| && weeks[k].slots[j].post.None?
                        && (forall j' :: 0 <= j' < j ==> weeks[k].slots[j'].post.Some?)
                        && r.request.slotNumber == weeks[k].slots[j].slotNumber
  {
    if !Chosen(post) || week.None? then Warn(SelectBoth)
    else match FindListed(weeks, week.value)
      case None => Warn(WeekNotFound)
      case Some(k) =>
        match FirstFree(weeks[k].slots)
        case None => Warn(NoFreeSlot)
        case Some(j) => Send(BookRequest(post.value, week.value, weeks[k].slots[j].slotNumber))
  }

  /** The page leaves for the checkout page only when the answer is a success carrying a
      non-empty checkout link; every other answer raises an alert. */
  function Redirect(answer: Result<Checkout>): (r: Option<string>)
    ensures r.Some? <==> answer.Ok? && answer.value.checkoutUrl != ""
    ensures r.Some? ==> r.value == answer.value.checkoutUrl
  {
    if answer.Ok? && answer.value.checkoutUrl != "" then Some(answer.value.checkoutUrl) else None
  }

  /** `weeks.slice(0, 4)`. */
  function Shown(weeks: seq<WeekSummary>): (r: seq<WeekSummary>)
    ensures |r| <= WeeksOnPage && r <= weeks
    ensures |weeks| >= WeeksOnPage ==> |r| == WeeksOnPage
    ensures |weeks| < WeeksOnPage ==> r == weeks
  {
    if |weeks| <= WeeksOnPage then weeks else weeks[..WeeksOnPage]
  }

  /** A week block reacts to a click only when its week has an available slot. */
  predicate Selectable(w: WeekSummary) {
    w.availableSlots > 0
  }

  /** Clicking a week block selects it only when it has room. */
  function Click(w: WeekSummary, selected: Option<int>): (r: Option<int>)
    ensures Selectable(w) ==> r == Some(w.weekStart)
    ensures !Selectable(w) ==> r == selected
  {
    if w.availableSlots > 0 then Some(w.weekStart) else selected
  }

  /** The "all slots are full" notice: every shown week has no available slot (so it also
      shows when the listing is empty). It shows exactly when none of the first four weeks
      can be selected. */
  predicate AllFull(weeks: seq<WeekSummary>)
    ensures AllFull(weeks) <==> forall k :: 0 <= k < |weeks| && k < WeeksOnPage ==> !Selectable(weeks[k])
  {
    assert forall k :: 0 <= k < |Shown(weeks)| ==> Shown(weeks)[k] == weeks[k];
    assert |Shown(weeks)| == if |weeks| < WeeksOnPage then |weeks| else WeeksOnPage;
    forall k :: 0 <= k < |Shown(weeks)| ==> Shown(weeks)[k].availableSlots == 0
  }
}
