/**
 * The posts endpoints: `GET /api/posts` lists every post newest first, `POST /api/posts` checks
 * a submission and tries to save it, and `GET /api/posts/public` serves the published feed with
 * an optional category filter and pagination.
 */
module PostsApi {
  import opened Common
  import opened Strings
  import opened Sorting
  import opened Posts
  import opened Store
  import opened Api

  /** Most words a description may have. */
  const MaxWords: nat := 100

  /** The submitted body; each field may be missing. */
  datatype PostBody = PostBody(
    productTitle: Option<string>,
    productDescription: Option<string>,
    productImage: Option<string>,
    featuredImages: Option<seq<ImageEntry>>)

  /** Why a submission is refused with 400, in the order the checks run. */
  datatype Rejection =
    | MissingTitle
    | MissingDescription
    | MissingLogo
    | NoFeaturedImages
    | TooManyFeaturedImages
    | TooManyWords

  /** `!x || !x.trim()` is false: the field is given and not blank. */
  predicate Filled(s: Option<string>) {
    s.Some? && !IsBlank(s.value)
  }

  /** A submission passing every check. The word limit applies to the untrimmed description. */
  predicate Acceptable(b: PostBody) {
    && Filled(b.productTitle)
    && Filled(b.productDescription)
    && b.productImage.Some? && b.productImage.value != ""
    && b.featuredImages.Some? && 1 <= |b.featuredImages.value| <= MaxFeaturedImages
    && WordCount(b.productDescription.value) <= MaxWords
  }

  /** The handler's checks, in order; the first that fails is reported. */
  function Validate(b: PostBody): (r: Option<Rejection>)
    ensures r.None? <==> Acceptable(b)
    ensures r == Some(MissingTitle) <==> !Filled(b.productTitle)
    ensures r == Some(MissingDescription) <==> Filled(b.productTitle) && !Filled(b.productDescription)
    ensures r == Some(MissingLogo) ==> b.productImage.None? || b.productImage.value == ""
    ensures r == Some(NoFeaturedImages) ==> b.featuredImages.None? || b.featuredImages.value == []
    ensures r == Some(TooManyFeaturedImages) ==> b.featuredImages.Some? && |b.featuredImages.value| > MaxFeaturedImages
    ensures r == Some(TooManyWords) ==> b.productDescription.Some? && WordCount(b.productDescription.value) > MaxWords
  {
    if !Filled(b.productTitle) then Some(MissingTitle)
    else if !Filled(b.productDescription) then Some(MissingDescription)
    else if b.productImage.None? || b.productImage.value == "" then Some(MissingLogo)
    else if b.featuredImages.None? || |b.featuredImages.value| == 0 then Some(NoFeaturedImages)
    else if |b.featuredImages.value| > MaxFeaturedImages then Some(TooManyFeaturedImages)
    else if WordCount(b.productDescription.value) > MaxWords then Some(TooManyWords)
    else None
  }

  /** The document the handler builds from an acceptable submission: trimmed title and
      description, `type` product, marked completed. Category and product URL are not taken
      from the body, so they keep their (absent) defaults. */
  function Record(b: PostBody, id: PostId, author: UserId, now: int): (p: Post)
    requires Acceptable(b)
    ensures p.id == id && p.author == author && p.createdAt == now
    ensures p.kind == "product" && p.completed && p.status == Draft
    ensures p.productTitle == Trim(b.productTitle.value) && p.productTitle != ""
    ensures p.productDescription == Trim(b.productDescription.value) && p.productDescription != ""
    ensures p.productImage == b.productImage.value && p.featuredImages == b.featuredImages.value
    ensures p.category.None? && p.productUrl.None?
  {
    NewPost(id, author, Trim(b.productTitle.value), Trim(b.productDescription.value), b.productImage.value,
            b.featuredImages.value, None, None, now).(completed := true)
  }

  /** `new Post(data).save()` for a new document: it fails when the schema rejects the document
      or the id is taken. */
  function InsertPost(db: Db, p: Post): (r: Option<Db>)
    ensures r.Some? <==> SchemaValid(p) && forall k :: 0 <= k < |db.posts| ==> db.posts[k].id != p.id
    ensures r.Some? ==> r.value == db.(posts := db.posts + [p])
  {
    if SchemaValid(p) && forall k :: 0 <= k < |db.posts| ==> db.posts[k].id != p.id
    then Some(db.(posts := db.posts + [p]))
    else None
  }

  /** `POST /api/posts` by the caller `uid`, at time `now`, the new document getting `id`.
      A failed save is answered with 400 as well. */
  function CreatePost(db: Db, uid: Uid, b: PostBody, id: PostId, now: int): (r: Outcome<Post>)
    ensures uid !in db.users ==> r == Outcome(db, Err(Unauthorized))
    ensures uid in db.users && !Acceptable(b) ==> r == Outcome(db, Err(BadRequest))
    ensures uid in db.users && Acceptable(b) ==>
              var p := Record(b, id, db.users[uid].id, now);
              match InsertPost(db, p)
              case None => r == Outcome(db, Err(BadRequest))
              case Some(db') => r == Outcome(db', Ok(p))
  {
    if uid !in db.users then Outcome(db, Err(Unauthorized))
    else if Validate(b).Some? then Outcome(db, Err(BadRequest))
    else
      var p := Record(b, id, db.users[uid].id, now);
      match InsertPost(db, p)
      case None => Outcome(db, Err(BadRequest))
      case Some(db') => Outcome(db', Ok(p))
  }

  /** The submission endpoint can never store a post: the record it builds lacks the category
      and product URL the schema requires, so every call ends in an error and leaves the store
      as it was; a caller-side check that passes ends in 400 from the failed save. */
  lemma CreatePostNeverSaves(db: Db, uid: Uid, b: PostBody, id: PostId, now: int)
    ensures CreatePost(db, uid, b, id, now).db == db
    ensures CreatePost(db, uid, b, id, now).result.Err?
    ensures uid in db.users ==> CreatePost(db, uid, b, id, now).result == Err(BadRequest)
  {
    if uid in db.users && Acceptable(b) {
      assert !SchemaValid(Record(b, id, db.users[uid].id, now));
    }
  }

  /** `createdAt` descending. */
  function NewestFirst(p: Post): Key {
    Key(-p.createdAt, 0, 0)
  }

  /** `GET /api/posts`: every post of every author and status, newest first. */
  function ListPosts(db: Db, uid: Uid): (r: Result<seq<Post>>)
    ensures uid !in db.users ==> r == Err(Unauthorized)
    ensures uid in db.users ==> r.Ok? && multiset(r.value) == multiset(db.posts)
    ensures r.Ok? ==> forall i, j :: 0 <= i < j < |r.value| ==> r.value[i].createdAt >= r.value[j].createdAt
  {
    if uid !in db.users then Err(Unauthorized)
    else
      var s := SortBy(db.posts, NewestFirst);
      assert forall i, j :: 0 <= i < j < |s| ==> KeyLe(NewestFirst(s[i]), NewestFirst(s[j]));
      Ok(s)
  }

  // ---- The public feed ----

  /** The query string of the public feed, with `limit` and `page` already read as integers. */
  datatype FeedQuery = FeedQuery(category: Option<string>, limit: Option<int>, page: Option<int>)

  const DefaultLimit: int := 50
  const DefaultPage: int := 1

  /** The category filter applies unless the parameter is missing, empty or `all`. */
  predicate FiltersCategory(category: Option<string>) {
    category.Some? && category.value != "" && category.value != "all"
  }

  /** A post the feed query selects: published, and in the requested category if any. */
  predicate InFeed(p: Post, category: Option<string>) {
    p.status == Published && (FiltersCategory(category) ==> p.category == category)
  }

  /** The posts `InFeed` selects, in their stored order. */
  function FeedFilter(posts: seq<Post>, category: Option<string>): (r: seq<Post>)
    ensures forall i :: 0 <= i < |r| ==> InFeed(r[i], category)
    ensures forall p :: multiset(r)[p] == if InFeed(p, category) then multiset(posts)[p] else 0
  {
    if posts == [] then []
    else
      assert posts == [posts[0]] + posts[1..];
      var rest := FeedFilter(posts[1..], category);
      if InFeed(posts[0], category) then [posts[0]] + rest else rest
  }

  /** `publishedAt` descending, then `createdAt` descending; a missing `publishedAt` sorts last,
      as null is the least value in a descending MongoDB sort. */
  function FeedOrder(p: Post): Key {
    if p.publishedAt.Some? then Key(0, -p.publishedAt.value, -p.createdAt) else Key(1, 0, -p.createdAt)
  }

  /** Number of results `.limit(n)` allows: no bound for 0, and `|n|` otherwise. */
  function LimitBound(limit: int, available: nat): (r: nat)
    ensures r <= available
    ensures limit != 0 ==> r <= if limit < 0 then -limit else limit
    ensures limit == 0 ==> r == available
  {
    var n := if limit < 0 then -limit else limit;
    if limit == 0 || n > available then available else n
  }

  /** The results `.skip(skip).limit(limit)` leaves of `s`. */
  function Window<T>(s: seq<T>, skip: nat, limit: int): (r: seq<T>)
    ensures skip >= |s| ==> r == []
    ensures skip < |s| ==> |r| == LimitBound(limit, |s| - skip)
    ensures forall k :: 0 <= k < |r| ==> skip + k < |s| && r[k] == s[skip + k]
  {
    if skip >= |s| then [] else s[skip..skip + LimitBound(limit, |s| - skip)]
  }

  /** `m` holds the selected posts in feed order. Posts with equal keys may come in any order,
      as MongoDB promises none among them. */
  ghost predicate FeedRanking(m: seq<Post>, posts: seq<Post>, category: Option<string>) {
    && SortedBy(m, FeedOrder)
    && multiset(m) == multiset(FeedFilter(posts, category))
    && |m| == |FeedFilter(posts, category)|
  }

  /** `page` is the window at `skip` and `limit` of some ranking of the selected posts. */
  ghost predicate RankedPage(page: seq<Post>, posts: seq<Post>, category: Option<string>, skip: nat, limit: int) {
    exists m :: FeedRanking(m, posts, category) && page == Window(m, skip, limit)
  }

  /** The page size the query asks for. */
  function FeedLimit(q: FeedQuery): int {
    q.limit.GetOr(DefaultLimit)
  }

  /** The number of posts skipped before the requested page. */
  function FeedSkip(q: FeedQuery): int {
    (q.page.GetOr(DefaultPage) - 1) * FeedLimit(q)
  }

  /** `GET /api/posts/public`. A negative skip makes the query fail. */
  function PublicFeed(posts: seq<Post>, verb: HttpMethod, q: FeedQuery): (r: Result<seq<Post>>)
    ensures verb != GET ==> r == Err(MethodNotAllowed)
    ensures verb == GET ==> r.Ok? || r == Err(ServerError)
    ensures r == Err(ServerError) <==> verb == GET && FeedSkip(q) < 0
    ensures r.Ok? ==> forall i :: 0 <= i < |r.value| ==> InFeed(r.value[i], q.category)
    ensures r.Ok? ==> SortedBy(r.value, FeedOrder)
    ensures r.Ok? && FeedLimit(q) != 0 ==> |r.value| <= Abs(FeedLimit(q))
    ensures r.Ok? ==> multiset(r.value) <= multiset(posts)
    // The page is the window at (page - 1) * limit of the selected posts in feed order.
    ensures r.Ok? ==> FeedSkip(q) >= 0 && RankedPage(r.value, posts, q.category, FeedSkip(q), FeedLimit(q))
  {
    if verb != GET then Err(MethodNotAllowed)
    else if FeedSkip(q) < 0 then Err(ServerError)
    else
      Ok(FeedPage(posts, q.category, FeedSkip(q), FeedLimit(q)))
  }

  /** The selected posts in feed order, past `skip` and up to `limit`. What the page holds does
      not depend on how posts with equal keys were ranked. */
  function FeedPage(posts: seq<Post>, category: Option<string>, skip: nat, limit: int): (r: seq<Post>)
    ensures RankedPage(r, posts, category, skip, limit)
    ensures forall i :: 0 <= i < |r| ==> InFeed(r[i], category)
    ensures SortedBy(r, FeedOrder)
    ensures limit != 0 ==> |r| <= Abs(limit)
    ensures multiset(r) <= multiset(posts)
    ensures skip >= |FeedFilter(posts, category)| ==> r == []
    ensures skip < |FeedFilter(posts, category)| ==> |r| == LimitBound(limit, |FeedFilter(posts, category)| - skip)
  {
    var m := SortBy(FeedFilter(posts, category), FeedOrder);
    assert FeedRanking(m, posts, category);
    RankedWindowOrder(m, posts, category, skip, limit);
    RankedWindowSize(m, posts, category, skip, limit);
    Window(m, skip, limit)
  }

  lemma RankedWindowOrder(m: seq<Post>, posts: seq<Post>, category: Option<string>, skip: nat, limit: int)
    requires FeedRanking(m, posts, category)
    ensures var w := Window(m, skip, limit);
            && (forall i :: 0 <= i < |w| ==> InFeed(w[i], category))
            && SortedBy(w, FeedOrder)
            && multiset(w) <= multiset(posts)
  {
    var w := Window(m, skip, limit);
    WindowOfSorted(m, skip, limit, FeedOrder);
    WindowSubMultiset(m, skip, limit);
    assert multiset(m) <= multiset(posts) by {
      forall p ensures multiset(m)[p] <= multiset(posts)[p] {}
    }
    forall i | 0 <= i < |w| ensures InFeed(w[i], category) {
      assert w[i] in multiset(m);
    }
  }

  lemma RankedWindowSize(m: seq<Post>, posts: seq<Post>, category: Option<string>, skip: nat, limit: int)
    requires FeedRanking(m, posts, category)
    ensures var w := Window(m, skip, limit);
            && (limit != 0 ==> |w| <= Abs(limit))
            && (skip >= |FeedFilter(posts, category)| ==> w == [])
            && (skip < |FeedFilter(posts, category)| ==> |w| == LimitBound(limit, |FeedFilter(posts, category)| - skip))
  {
    assert |m| == |multiset(m)| == |FeedFilter(posts, category)|;
    WindowLength(m, |FeedFilter(posts, category)|, skip, limit);
  }

  lemma WindowLength<T>(s: seq<T>, n: nat, skip: nat, limit: int)
    requires |s| == n
    ensures skip < n ==> |Window(s, skip, limit)| == LimitBound(limit, n - skip)
  {
  }

  function Abs(n: int): nat {
    if n < 0 then -n else n
  }

  lemma WindowOfSorted<T>(s: seq<T>, skip: nat, limit: int, key: T -> Key)
    requires SortedBy(s, key)
    ensures SortedBy(Window(s, skip, limit), key)
  {
  }

  lemma WindowSubMultiset<T>(s: seq<T>, skip: nat, limit: int)
    ensures multiset(Window(s, skip, limit)) <= multiset(s)
  {
    if skip < |s| {
      var n := LimitBound(limit, |s| - skip);
      assert s == s[..skip] + s[skip..skip + n] + s[skip + n..];
    }
  }

  /** With the first page and no limit, the feed is every selected post, each as often as it is
      stored. */
  lemma FeedIsEveryMatch(posts: seq<Post>, category: Option<string>)
    ensures var r := PublicFeed(posts, GET, FeedQuery(category, Some(0), Some(1)));
            && r.Ok?
            && forall p :: multiset(r.value)[p] == if InFeed(p, category) then multiset(posts)[p] else 0
  {
    var matching := SortBy(FeedFilter(posts, category), FeedOrder);
    assert Window(matching, 0, 0) == matching;
  }

  /** Consecutive pages of the same size tile the ordered feed: page `n + 1` starts where page
      `n` ends, so no post is shown twice or skipped between them. */
  lemma ConsecutivePages<T>(s: seq<T>, page: nat, limit: nat)
    requires 1 <= page && 0 < limit
    ensures Window(s, (page - 1) * limit, limit) + Window(s, page * limit, limit)
         == Window(s, (page - 1) * limit, 2 * limit)
  {
    var p: nat := page - 1;
    assert (p + 1) * limit == p * limit + limit;
    AdjacentWindows(s, p * limit, limit);
  }

  /** Any two pages of the feed for one category are windows of one and the same ranking of
      the selected posts, so by `ConsecutivePages` consecutive pages of one size show no post
      twice and skip none. */
  lemma FeedPagesShareRanking(posts: seq<Post>, q1: FeedQuery, q2: FeedQuery)
    requires q1.category == q2.category
    requires PublicFeed(posts, GET, q1).Ok? && PublicFeed(posts, GET, q2).Ok?
    ensures FeedSkip(q1) >= 0 && FeedSkip(q2) >= 0
    ensures exists m :: && FeedRanking(m, posts, q1.category)
                        && PublicFeed(posts, GET, q1).value == Window(m, FeedSkip(q1), FeedLimit(q1))
                        && PublicFeed(posts, GET, q2).value == Window(m, FeedSkip(q2), FeedLimit(q2))
  {
    var m := SortBy(FeedFilter(posts, q1.category), FeedOrder);
    assert FeedRanking(m, posts, q1.category);
    FeedPageIsWindow(posts, q1.category, FeedSkip(q1), FeedLimit(q1));
    FeedPageIsWindow(posts, q1.category, FeedSkip(q2), FeedLimit(q2));
  }

  lemma FeedPageIsWindow(posts: seq<Post>, category: Option<string>, skip: nat, limit: int)
    ensures FeedPage(posts, category, skip, limit) == Window(SortBy(FeedFilter(posts, category), FeedOrder), skip, limit)
  {
  }

  /** Two windows of `limit` side by side make one window of twice the width. */
  lemma AdjacentWindows<T>(s: seq<T>, a: nat, limit: nat)
    requires 0 < limit
    ensures Window(s, a, limit) + Window(s, a + limit, limit) == Window(s, a, 2 * limit)
  {
    if a < |s| {
      var w := Window(s, a, 2 * limit);
      if a + limit < |s| {
        assert Window(s, a, limit) == w[..limit];
        assert Window(s, a + limit, limit) == w[limit..];
      } else {
        assert Window(s, a, limit) == w;
      }
    }
  }
}
