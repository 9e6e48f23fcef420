/**
 * The persisted state: the users, posts and schedules collections. Collections are sequences
 * in MongoDB's natural (insertion) order, so a `findOne` without a sort returns the first
 * match. The unique indexes on `_id` and on `weekStartDate` are enforced on insert.
 */
module Store {
  import opened Common
  import opened Dates
  import opened Schedules
  import opened Posts

  /** The fields of a user document the booking flow reads. */
  datatype User = User(id: UserId, email: string)

  datatype Db = Db(users: map<Uid, User>, posts: seq<Post>, schedules: seq<Schedule>)

  /** `Schedule.findById(id)`: index of the first schedule with that id. */
  function FindSchedule(schedules: seq<Schedule>, id: ScheduleId): (r: Option<nat>)
    ensures r.Some? ==> r.value < |schedules| && schedules[r.value].id == id
    ensures r.Some? ==> forall k :: 0 <= k < r.value ==> schedules[k].id != id
    ensures r.None? <==> forall k :: 0 <= k < |schedules| ==> schedules[k].id != id
  {
    if schedules == [] then None
    else if schedules[0].id == id then Some(0)
    else match FindSchedule(schedules[1..], id)
      case None => None
      case Some(k) => Some(k + 1)
  }

  /** `Post.findById(id)`: index of the first post with that id. */
  function FindPost(posts: seq<Post>, id: PostId): (r: Option<nat>)
    ensures r.Some? ==> r.value < |posts| && posts[r.value].id == id
    ensures r.Some? ==> forall k :: 0 <= k < r.value ==> posts[k].id != id
    ensures r.None? <==> forall k :: 0 <= k < |posts| ==> posts[k].id != id
  {
    if posts == [] then None
    else if posts[0].id == id then Some(0)
    else match FindPost(posts[1..], id)
      case None => None
      case Some(k) => Some(k + 1)
  }

  predicate IsOwnDraft(p: Post, id: PostId, author: UserId) {
    p.id == id && p.author == author && p.status == Draft
  }

  /** `Post.findOne({ _id: id, author: author, status: 'draft' })`. */
  function FindOwnDraft(posts: seq<Post>, id: PostId, author: UserId): (r: Option<nat>)
    ensures r.Some? ==> r.value < |posts| && IsOwnDraft(posts[r.value], id, author)
    ensures r.None? <==> forall k :: 0 <= k < |posts| ==> !IsOwnDraft(posts[k], id, author)
  {
    if posts == [] then None
    else if IsOwnDraft(posts[0], id, author) then Some(0)
    else match FindOwnDraft(posts[1..], id, author)
      case None => None
      case Some(k) => Some(k + 1)
  }

  /** The `findOne` range query of the booking and week-listing handlers: `weekStartDate` lies
      on the same calendar day as `day`. */
  predicate OnDayOf(weekStartDate: int, day: int) {
    StartOfDay(day) <= weekStartDate < StartOfDay(day) + MsPerDay
  }

  /** Index of the first schedule whose `weekStartDate` falls on the day of `day`. */
  function FindWeek(schedules: seq<Schedule>, day: int): (r: Option<nat>)
    ensures r.Some? ==> r.value < |schedules| && OnDayOf(schedules[r.value].weekStartDate, day)
    ensures r.Some? ==> forall k :: 0 <= k < r.value ==> !OnDayOf(schedules[k].weekStartDate, day)
    ensures r.None? <==> forall k :: 0 <= k < |schedules| ==> !OnDayOf(schedules[k].weekStartDate, day)
  {
    if schedules == [] then None
    else if OnDayOf(schedules[0].weekStartDate, day) then Some(0)
    else match FindWeek(schedules[1..], day)
      case None => None
      case Some(k) => Some(k + 1)
  }

  /** The unique index on `weekStartDate`: no two schedules share the exact same instant
      (two schedules on the same calendar day at different instants are allowed). */
  predicate UniqueWeekStarts(schedules: seq<Schedule>) {
    forall i, j :: 0 <= i < j < |schedules| ==> schedules[i].weekStartDate != schedules[j].weekStartDate
  }

  predicate UniqueScheduleIds(schedules: seq<Schedule>) {
    forall i, j :: 0 <= i < j < |schedules| ==> schedules[i].id != schedules[j].id
  }

  /** `new Schedule(...).save()`: fails, as a duplicate-key error, when the id or the exact
      week start is already stored. */
  function InsertSchedule(db: Db, s: Schedule): (r: Option<Db>)
    ensures r.Some? <==> forall k :: 0 <= k < |db.schedules| ==>
                           db.schedules[k].id != s.id && db.schedules[k].weekStartDate != s.weekStartDate
    ensures r.Some? ==> r.value == db.(schedules := db.schedules + [s])
  {
    if exists k :: 0 <= k < |db.schedules| &&
         (db.schedules[k].id == s.id || db.schedules[k].weekStartDate == s.weekStartDate)
    then None
    else Some(db.(schedules := db.schedules + [s]))
  }

  /** The schedule a find-or-create settled on, and the state after it. */
  datatype Found = Found(db: Db, index: nat)

  /** The find-or-create step shared by booking and week listing: the first schedule on the
      day of `weekStart`, or else a new one starting at `weekStart` and ending with its ISO week,
      holding ten vacant slots. `None` is a failed insert. */
  function FindOrCreateWeek(db: Db, weekStart: int, freshId: ScheduleId): (r: Option<Found>)
    ensures r.Some? ==> r.value.index < |r.value.db.schedules|
    ensures r.Some? ==> OnDayOf(r.value.db.schedules[r.value.index].weekStartDate, weekStart)
    ensures r.Some? ==> r.value.db.users == db.users && r.value.db.posts == db.posts
    ensures FindWeek(db.schedules, weekStart).Some? ==>
              r == Some(Found(db, FindWeek(db.schedules, weekStart).value))
    ensures FindWeek(db.schedules, weekStart).None? ==>
              (r.Some? <==> forall k :: 0 <= k < |db.schedules| ==> db.schedules[k].id != freshId)
    ensures FindWeek(db.schedules, weekStart).None? && r.Some? ==>
              && r.value.index == |db.schedules|
              && r.value.db.schedules
                 == db.schedules + [NewSchedule(freshId, weekStart, EndOfIsoWeek(weekStart))]
  {
    match FindWeek(db.schedules, weekStart)
    case Some(i) => Some(Found(db, i))
    case None =>
      assert OnDayOf(weekStart, weekStart);
      match InsertSchedule(db, NewSchedule(freshId, weekStart, EndOfIsoWeek(weekStart)))
      case None => None
      case Some(db') => Some(Found(db', |db.schedules|))
  }

  /** Find-or-create never breaks the unique indexes: a week is only created when no stored
      schedule lies on its day, so its exact start cannot be taken. */
  lemma FindOrCreateKeepsUnique(db: Db, weekStart: int, freshId: ScheduleId)
    requires UniqueWeekStarts(db.schedules) && UniqueScheduleIds(db.schedules)
    requires FindOrCreateWeek(db, weekStart, freshId).Some?
    ensures UniqueWeekStarts(FindOrCreateWeek(db, weekStart, freshId).value.db.schedules)
    ensures UniqueScheduleIds(FindOrCreateWeek(db, weekStart, freshId).value.db.schedules)
  {
    if FindWeek(db.schedules, weekStart).None? {
      assert forall k :: 0 <= k < |db.schedules| ==> !OnDayOf(db.schedules[k].weekStartDate, weekStart);
      assert OnDayOf(weekStart, weekStart);
    }
  }

  /** The state with slot `j` of schedule `i` replaced by `s` and nothing else changed. */
  function WriteSlot(db: Db, i: nat, j: nat, s: Slot): (r: Db)
    requires i < |db.schedules| && j < |db.schedules[i].slots|
    ensures r.users == db.users && r.posts == db.posts
    ensures |r.schedules| == |db.schedules|
    ensures forall k :: 0 <= k < |db.schedules| && k != i ==> r.schedules[k] == db.schedules[k]
    ensures |r.schedules[i].slots| == |db.schedules[i].slots| && r.schedules[i].slots[j] == s
    ensures forall m :: 0 <= m < |db.schedules[i].slots| && m != j ==>
              r.schedules[i].slots[m] == db.schedules[i].slots[m]
    ensures r.schedules[i].id == db.schedules[i].id
    ensures r.schedules[i].weekStartDate == db.schedules[i].weekStartDate
  {
    var sched := db.schedules[i];
    db.(schedules := db.schedules[i := sched.(slots := sched.slots[j := s])])
  }

  /** `post.save()`: the whole document is validated first and nothing is written when it fails. */
  function SavePost(db: Db, k: nat, p: Post): (r: Option<Db>)
    requires k < |db.posts|
    ensures r.Some? <==> SchemaValid(p)
    ensures r.Some? ==> r.value == db.(posts := db.posts[k := p])
  {
    if SchemaValid(p) then Some(db.(posts := db.posts[k := p])) else None
  }

  /** A slot naming a post that is not stored. */
  predicate DanglingSlot(s: Slot, posts: seq<Post>) {
    s.post.Some? && FindPost(posts, s.post.value).None?
  }

  /** The week listing's `populate('slots.post')`: a slot whose post id names no stored post
      reads back with a null post; every other field, and every post id that resolves, is
      read back as stored. */
  function Populate(slots: seq<Slot>, posts: seq<Post>): (r: seq<Slot>)
    decreases |slots|
    ensures |r| == |slots|
    ensures forall k :: 0 <= k < |r| ==> r[k] == slots[k].(post := r[k].post)
    ensures forall k :: 0 <= k < |r| ==>
              (r[k].post.Some? <==> slots[k].post.Some? && FindPost(posts, slots[k].post.value).Some?)
    ensures forall k :: 0 <= k < |r| && r[k].post.Some? ==> r[k].post == slots[k].post
  {
    if slots == [] then []
    else
      var s := slots[0];
      var head := if DanglingSlot(s, posts) then s.(post := None) else s;
      var rest := Populate(slots[1..], posts);
      assert forall k :: 0 < k < |slots| ==> ([head] + rest)[k] == rest[k - 1] && slots[k] == slots[1..][k - 1];
      [head] + rest
  }

  /** Every post the slots name is stored. */
  predicate Grounded(slots: seq<Slot>, posts: seq<Post>) {
    forall k :: 0 <= k < |slots| && slots[k].post.Some? ==> FindPost(posts, slots[k].post.value).Some?
  }

  /** Number of slots naming a post that is not stored. */
  function Dangling(slots: seq<Slot>, posts: seq<Post>): (r: nat)
    decreases |slots|
    ensures r <= |slots|
    ensures r == 0 <==> Grounded(slots, posts)
  {
    if slots == [] then 0
    else
      var rest := Dangling(slots[1..], posts);
      assert Grounded(slots, posts) <==> !DanglingSlot(slots[0], posts) && Grounded(slots[1..], posts) by {
        assert forall k :: 0 < k < |slots| ==> slots[k] == slots[1..][k - 1];
      }
      (if DanglingSlot(slots[0], posts) then 1 else 0) + rest
  }

  /** Population changes nothing exactly when every named post is stored. */
  lemma PopulateGrounded(slots: seq<Slot>, posts: seq<Post>)
    ensures Populate(slots, posts) == slots <==> Grounded(slots, posts)
  {
    var r := Populate(slots, posts);
    if Grounded(slots, posts) {
      forall k | 0 <= k < |r| ensures r[k] == slots[k] {
        assert r[k].post == slots[k].post;
      }
    } else {
      var k :| 0 <= k < |slots| && slots[k].post.Some? && FindPost(posts, slots[k].post.value).None?;
      assert r[k].post.None?;
    }
  }
}
