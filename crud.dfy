/**
 * The post/incident store of the backend (backend/crud.py): a table of user posts,
 * real or simulated, and a table of confirmed incidents, with the inserts, the
 * "mark processed" update and the filter/sort/limit queries the workers use.
 *
 * `created_at` is a server-side timestamp (`now()` at insert, to the second). It is
 * modelled by a logical clock the store advances on every insert, so rows are created
 * in strictly increasing time; timestamp ties, and the order the database picks among
 * tied rows, are abstracted away.
 */
module Crud {
  import opened Wrappers

  /** A row of `user_posts`, with the columns `create_post` writes. */
  datatype Post = Post(
    id: int,
    text: string,
    createdAt: int,
    processed: bool,
    isSimulated: bool,
    persona: Option<string>,
    seedPostId: Option<int>,
    lang: Option<string>,
    hashtags: Option<string>)

  /** The `PostCreate` payload; `isSimulated` is whatever the caller passed (absent is `None`). */
  datatype PostCreate = PostCreate(
    text: string,
    isSimulated: Option<bool>,
    persona: Option<string>,
    seedPostId: Option<int>,
    lang: Option<string>,
    hashtags: Option<string>)

  /** The `ConfirmedIncidentCreate` payload. */
  datatype IncidentCreate = IncidentCreate(
    sourcePostId: int,
    incidentType: Option<string>,
    summary: Option<string>,
    confidence: int,
    country: Option<string>,
    area: Option<string>)

  /** A row of `confirmed_incidents`. */
  datatype Incident = Incident(
    id: int,
    sourcePostId: int,
    incidentType: Option<string>,
    summary: Option<string>,
    confidence: int,
    country: Option<string>,
    area: Option<string>,
    createdAt: int)

  /** The whole database: both tables in insertion order, the next primary keys and the clock. */
  datatype Db = Db(posts: seq<Post>, incidents: seq<Incident>, nextPostId: int, nextIncidentId: int, clock: int)

  const EmptyDb := Db([], [], 1, 1, 0)

  /** Keys and timestamps increase with insertion order and lie below the next key and the clock. */
  predicate WellFormed(db: Db) {
    && (forall i, j :: 0 <= i < j < |db.posts| ==>
          db.posts[i].id < db.posts[j].id && db.posts[i].createdAt < db.posts[j].createdAt)
    && (forall i :: 0 <= i < |db.posts| ==> db.posts[i].id < db.nextPostId && db.posts[i].createdAt < db.clock)
    && (forall i, j :: 0 <= i < j < |db.incidents| ==>
          db.incidents[i].id < db.incidents[j].id && db.incidents[i].createdAt < db.incidents[j].createdAt)
    && (forall i :: 0 <= i < |db.incidents| ==>
          db.incidents[i].id < db.nextIncidentId && db.incidents[i].createdAt < db.clock)
  }

  /** Python's `bool(x)` for the optional flag: a missing value is false. */
  function Truthy(b: Option<bool>): bool {
    b == Some(true)
  }

  // ---------------------------------------------------------------------------
  // Updates, as functions of the database value
  // ---------------------------------------------------------------------------

  /** The row `create_post` writes for a payload, given its key and timestamp. */
  function NewRow(id: int, createdAt: int, p: PostCreate): Post {
    Post(id, p.text, createdAt, false, Truthy(p.isSimulated), p.persona, p.seedPostId, p.lang, p.hashtags)
  }

  /** `create_post`: append one unprocessed row with the payload's fields. */
  function InsertPost(db: Db, p: PostCreate): Db
  {
    var row := NewRow(db.nextPostId, db.clock, p);
    db.(posts := db.posts + [row], nextPostId := db.nextPostId + 1, clock := db.clock + 1)
  }

  /** Inserting a post keeps every earlier post and the incidents, and the one new row is
      unprocessed and carries the payload's fields. */
  lemma InsertPostAppends(db: Db, p: PostCreate)
    ensures var r := InsertPost(db, p);
      && |r.posts| == |db.posts| + 1 && r.posts[..|db.posts|] == db.posts
      && r.incidents == db.incidents
    ensures var row := InsertPost(db, p).posts[|db.posts|];
      && row.text == p.text && row.isSimulated == Truthy(p.isSimulated) && !row.processed
      && row.persona == p.persona && row.seedPostId == p.seedPostId
      && row.lang == p.lang && row.hashtags == p.hashtags
  {
    assert InsertPost(db, p).posts == db.posts + [NewRow(db.nextPostId, db.clock, p)];
  }

  /** `create_confirmed_incident`: append one row whose six fields are the payload's. */
  function InsertIncident(db: Db, inc: IncidentCreate): (r: Db)
    ensures |r.incidents| == |db.incidents| + 1 && r.incidents[..|db.incidents|] == db.incidents
    ensures r.posts == db.posts
    ensures IncidentFields(r.incidents[|db.incidents|]) == inc
  {
    var row := Incident(db.nextIncidentId, inc.sourcePostId, inc.incidentType, inc.summary,
                        inc.confidence, inc.country, inc.area, db.clock);
    db.(incidents := db.incidents + [row], nextIncidentId := db.nextIncidentId + 1, clock := db.clock + 1)
  }

  /** The six client-supplied fields of an incident row. */
  function IncidentFields(row: Incident): IncidentCreate {
    IncidentCreate(row.sourcePostId, row.incidentType, row.summary, row.confidence, row.country, row.area)
  }

  /** Position of the first post with the given id (`filter(id == post_id).first()`). */
  function PostIndex(posts: seq<Post>, id: int): (k: Option<nat>)
    ensures k.None? <==> forall i :: 0 <= i < |posts| ==> posts[i].id != id
    ensures k.Some? ==>
      && k.value < |posts| && posts[k.value].id == id
      && forall i :: 0 <= i < k.value ==> posts[i].id != id
  {
    if |posts| == 0 then None
    else if posts[0].id == id then Some(0)
    else match PostIndex(posts[1..], id)
      case None => None
      case Some(k) => Some(k + 1)
  }

  /** The post with the given id, if any (`get post by id`). */
  function FindPost(posts: seq<Post>, id: int): (r: Option<Post>)
    ensures r.None? <==> forall p :: p in posts ==> p.id != id
    ensures r.Some? ==> r.value in posts && r.value.id == id
  {
    match PostIndex(posts, id)
    case None => None
    case Some(k) => Some(posts[k])
  }

  /** `mark_post_processed`: set `processed` on the post with that id; no such post, no change. */
  function MarkProcessed(posts: seq<Post>, id: int): (r: seq<Post>)
    ensures |r| == |posts|
  {
    match PostIndex(posts, id)
    case None => posts
    case Some(k) => posts[k := posts[k].(processed := true)]
  }

  // ---------------------------------------------------------------------------
  // Queries
  // ---------------------------------------------------------------------------

  /** The filter of `get_unprocessed_posts`. */
  predicate Eligible(p: Post, includeSimulated: bool) {
    !p.processed && (includeSimulated || !p.isSimulated)
  }

  /** Every eligible post, in table order. */
  function EligiblePosts(posts: seq<Post>, includeSimulated: bool): (r: seq<Post>)
    ensures |r| <= |posts|
    ensures forall p :: p in r <==> p in posts && Eligible(p, includeSimulated)
  {
    if |posts| == 0 then []
    else
      var rest := EligiblePosts(posts[1..], includeSimulated);
      assert forall p :: p in posts <==> p == posts[0] || p in posts[1..];
      if Eligible(posts[0], includeSimulated) then [posts[0]] + rest else rest
  }

  function Min(a: int, b: int): int {
    if a <= b then a else b
  }

  /** SQL `LIMIT n`: the first `n` rows. */
  function Take<T>(s: seq<T>, limit: nat): (r: seq<T>)
    ensures |r| == Min(limit, |s|) && r == s[..|r|]
  {
    if |s| <= limit then s else s[..limit]
  }

  /** `get_unprocessed_posts(limit, include_simulated)`. */
  function UnprocessedPosts(posts: seq<Post>, limit: nat, includeSimulated: bool): (r: seq<Post>)
    ensures |r| <= limit
    ensures forall p :: p in r ==> p in posts && !p.processed
    ensures !includeSimulated ==> forall p :: p in r ==> !p.isSimulated
    ensures |r| < limit ==> forall p :: p in posts && Eligible(p, includeSimulated) ==> p in r
  {
    var all := EligiblePosts(posts, includeSimulated);
    assert forall p :: p in Take(all, limit) ==> p in all;
    Take(all, limit)
  }

  /** The rows in reverse table order. */
  function Reverse<T>(s: seq<T>): (r: seq<T>)
    ensures |r| == |s| && forall i :: 0 <= i < |s| ==> r[i] == s[|s| - 1 - i]
  {
    if |s| == 0 then [] else [s[|s| - 1]] + Reverse(s[..|s| - 1])
  }

  /** `get_recent_posts(limit)`: newest first. */
  function RecentPosts(posts: seq<Post>, limit: nat): seq<Post> {
    Take(Reverse(posts), limit)
  }

  /** `get_recent_incidents(limit)`: newest first. */
  function RecentIncidents(incidents: seq<Incident>, limit: nat): seq<Incident> {
    Take(Reverse(incidents), limit)
  }

  /** `get_latest_real_post`: the last non-simulated row, if any. */
  function LatestRealPost(posts: seq<Post>): (r: Option<Post>)
    ensures r.None? <==> forall p :: p in posts ==> p.isSimulated
    ensures r.Some? ==> r.value in posts && !r.value.isSimulated
  {
    if |posts| == 0 then None
    else if !posts[|posts| - 1].isSimulated then Some(posts[|posts| - 1])
    else
      assert forall p :: p in posts <==> p == posts[|posts| - 1] || p in posts[..|posts| - 1];
      LatestRealPost(posts[..|posts| - 1])
  }

  // ---------------------------------------------------------------------------
  // What the store promises
  // ---------------------------------------------------------------------------

  /** Posts in strictly increasing `created_at` order. */
  predicate Ascending(posts: seq<Post>) {
    forall i, j :: 0 <= i < j < |posts| ==> posts[i].createdAt < posts[j].createdAt
  }

  /** Inserting a post keeps the table well formed and the new row's id is fresh. */
  lemma InsertPostWellFormed(db: Db, p: PostCreate)
    requires WellFormed(db)
    ensures WellFormed(InsertPost(db, p))
    ensures forall q :: q in db.posts ==> q.id != InsertPost(db, p).posts[|db.posts|].id
  {
  }

  /** Inserting an incident keeps the table well formed. */
  lemma InsertIncidentWellFormed(db: Db, inc: IncidentCreate)
    requires WellFormed(db)
    ensures WellFormed(InsertIncident(db, inc))
  {
  }

  /** Marking a post processed changes that one post's flag and nothing else: ids, texts,
      every other column and every other post stay as they were. */
  lemma MarkProcessedOnlyThatPost(posts: seq<Post>, id: int)
    ensures forall i :: 0 <= i < |posts| ==>
      MarkProcessed(posts, id)[i] == if posts[i].id == id && PostIndex(posts, id) == Some(i)
                                     then posts[i].(processed := true) else posts[i]
    ensures FindPost(posts, id).None? ==> MarkProcessed(posts, id) == posts
  {
  }

  /** After marking, the first post with that id is processed, and no flag goes back to false. */
  lemma MarkProcessedSetsFlag(posts: seq<Post>, id: int)
    requires FindPost(posts, id).Some?
    ensures FindPost(MarkProcessed(posts, id), id).Some?
    ensures FindPost(MarkProcessed(posts, id), id).value.processed
    ensures forall i :: 0 <= i < |posts| && posts[i].processed ==> MarkProcessed(posts, id)[i].processed
  {
    var k := PostIndex(posts, id).value;
    var r := MarkProcessed(posts, id);
    PostIndexOnlyReadsIds(posts, r, id);
  }

  /** `PostIndex` looks at ids only. */
  lemma {:induction false} PostIndexOnlyReadsIds(a: seq<Post>, b: seq<Post>, id: int)
    requires |a| == |b| && forall i :: 0 <= i < |a| ==> a[i].id == b[i].id
    ensures PostIndex(a, id) == PostIndex(b, id)
  {
    if |a| > 0 {
      PostIndexOnlyReadsIds(a[1..], b[1..], id);
    }
  }

  /** Marking the same post twice is the same as marking it once. */
  lemma MarkProcessedIdempotent(posts: seq<Post>, id: int)
    ensures MarkProcessed(MarkProcessed(posts, id), id) == MarkProcessed(posts, id)
  {
    PostIndexOnlyReadsIds(posts, MarkProcessed(posts, id), id);
  }

  /** In a well-formed table, marking an id sets the flag of the one post with that id: every
      post ends up as it was, processed if it already was or if it carries the id. */
  lemma MarkProcessedById(db: Db, id: int)
    requires WellFormed(db)
    ensures |MarkProcessed(db.posts, id)| == |db.posts|
    ensures forall k :: 0 <= k < |db.posts| ==>
      MarkProcessed(db.posts, id)[k] == db.posts[k].(processed := db.posts[k].processed || db.posts[k].id == id)
  {
    MarkProcessedOnlyThatPost(db.posts, id);
    FindPostUnique(db, id);
    forall k | 0 <= k < |db.posts| && db.posts[k].id == id
      ensures PostIndex(db.posts, id) == Some(k)
    {
      assert FindPost(db.posts, id) == Some(db.posts[k]);
      var j := PostIndex(db.posts, id).value;
      assert db.posts[j] == db.posts[k];
    }
  }

  /** Marking keeps the table well formed (it touches no id and no timestamp). */
  lemma MarkProcessedWellFormed(db: Db, id: int)
    requires WellFormed(db)
    ensures WellFormed(db.(posts := MarkProcessed(db.posts, id)))
  {
  }

  /** In a well-formed table ids are unique, so the post found is the only one with that id. */
  lemma FindPostUnique(db: Db, id: int)
    requires WellFormed(db)
    ensures forall i :: 0 <= i < |db.posts| && db.posts[i].id == id ==> FindPost(db.posts, id) == Some(db.posts[i])
  {
    forall i | 0 <= i < |db.posts| && db.posts[i].id == id
      ensures FindPost(db.posts, id) == Some(db.posts[i])
    {
      var k := PostIndex(db.posts, id).value;
      assert k == i;
    }
  }

  /** The eligible posts of an ascending table are ascending. */
  lemma {:induction false} EligibleAscending(posts: seq<Post>, includeSimulated: bool)
    requires Ascending(posts)
    ensures Ascending(EligiblePosts(posts, includeSimulated))
  {
    if |posts| > 0 {
      var rest := EligiblePosts(posts[1..], includeSimulated);
      EligibleAscending(posts[1..], includeSimulated);
      if Eligible(posts[0], includeSimulated) {
        var r := [posts[0]] + rest;
        forall i, j | 0 <= i < j < |r| ensures r[i].createdAt < r[j].createdAt {
          if i == 0 {
            assert r[j] in rest;
            assert r[j] in posts[1..];
          } else {
            assert r[i] == rest[i - 1] && r[j] == rest[j - 1];
          }
        }
      }
    }
  }

  /** `get_unprocessed_posts` returns the oldest eligible posts, oldest first: its result
      is ascending in `created_at`, and every eligible post it leaves out is newer than
      every post it returns. */
  lemma UnprocessedOldestFirst(db: Db, limit: nat, includeSimulated: bool)
    requires WellFormed(db)
    ensures Ascending(UnprocessedPosts(db.posts, limit, includeSimulated))
    ensures var r := UnprocessedPosts(db.posts, limit, includeSimulated);
      forall p, q :: p in db.posts && Eligible(p, includeSimulated) && p !in r && q in r ==> q.createdAt < p.createdAt
  {
    var all := EligiblePosts(db.posts, includeSimulated);
    assert Ascending(db.posts);
    EligibleAscending(db.posts, includeSimulated);
    var r := Take(all, limit);
    forall p, q | p in db.posts && Eligible(p, includeSimulated) && p !in r && q in r
      ensures q.createdAt < p.createdAt
    {
      TakeOldest(all, limit, p, q);
    }
  }

  /** Of an ascending sequence, `Take` keeps posts older than every post it drops. */
  lemma TakeOldest(all: seq<Post>, limit: nat, p: Post, q: Post)
    requires Ascending(all) && p in all && p !in Take(all, limit) && q in Take(all, limit)
    ensures q.createdAt < p.createdAt
  {
    var r := Take(all, limit);
    var k :| 0 <= k < |all| && all[k] == p;
    var m :| 0 <= m < |r| && r[m] == q;
    assert k >= |r|;
    assert all[m] == q;
  }

  /** Newest-first queries over an ascending sequence: the result is descending and holds
      the newest rows; a row left out is older than every row returned. */
  lemma {:induction false} ReverseTakeNewest<T>(s: seq<T>, key: T -> int, limit: nat)
    requires forall i, j :: 0 <= i < j < |s| ==> key(s[i]) < key(s[j])
    ensures var r := Take(Reverse(s), limit);
      && |r| == Min(limit, |s|)
      && (forall i, j :: 0 <= i < j < |r| ==> key(r[i]) > key(r[j]))
      && (forall x, y :: x in s && x !in r && y in r ==> key(x) < key(y))
  {
    var r := Take(Reverse(s), limit);
    forall x, y | x in s && y in r && key(x) >= key(y) ensures x in r {
      var a :| 0 <= a < |s| && s[a] == x;
      var m :| 0 <= m < |r| && r[m] == y;
      assert r[m] == s[|s| - 1 - m];
      assert r[|s| - 1 - a] == x;
    }
  }

  /** `get_recent_posts` is newest first, at most `limit` long, and holds the newest posts. */
  lemma RecentPostsNewestFirst(db: Db, limit: nat)
    requires WellFormed(db)
    ensures var r := RecentPosts(db.posts, limit);
      && |r| == Min(limit, |db.posts|)
      && (forall i, j :: 0 <= i < j < |r| ==> r[i].createdAt > r[j].createdAt)
      && (forall p, q :: p in db.posts && p !in r && q in r ==> p.createdAt < q.createdAt)
  {
    ReverseTakeNewest(db.posts, (p: Post) => p.createdAt, limit);
  }

  /** `get_recent_incidents` is newest first, at most `limit` long, and holds the newest incidents. */
  lemma RecentIncidentsNewestFirst(db: Db, limit: nat)
    requires WellFormed(db)
    ensures var r := RecentIncidents(db.incidents, limit);
      && |r| == Min(limit, |db.incidents|)
      && (forall i, j :: 0 <= i < j < |r| ==> r[i].createdAt > r[j].createdAt)
      && (forall a, b :: a in db.incidents && a !in r && b in r ==> a.createdAt < b.createdAt)
  {
    ReverseTakeNewest(db.incidents, (x: Incident) => x.createdAt, limit);
  }

  /** `get_latest_real_post` returns a real post no other real post is newer than. */
  lemma {:induction false} LatestRealPostIsNewest(posts: seq<Post>)
    requires Ascending(posts)
    ensures var r := LatestRealPost(posts);
      r.Some? ==> forall p :: p in posts && !p.isSimulated ==> p.createdAt <= r.value.createdAt
  {
    if |posts| > 0 {
      var last := posts[|posts| - 1];
      var init := posts[..|posts| - 1];
      if last.isSimulated {
        LatestRealPostIsNewest(init);
        assert forall p :: p in posts <==> p == last || p in init;
      } else {
        forall p | p in posts ensures p.createdAt <= last.createdAt {
          var i :| 0 <= i < |posts| && posts[i] == p;
        }
      }
    }
  }

  // ---------------------------------------------------------------------------
  // The store object
  // ---------------------------------------------------------------------------

  /** The database session: both tables, the key counters and the clock, updated in place. */
  class Store {
    var posts: seq<Post>
    var incidents: seq<Incident>
    var nextPostId: int
    var nextIncidentId: int
    var clock: int

    function State(): Db
      reads this
    {
      Db(posts, incidents, nextPostId, nextIncidentId, clock)
    }

    predicate Valid()
      reads this
    {
      WellFormed(State())
    }

    constructor ()
      ensures Valid() && State() == EmptyDb
    {
      posts, incidents := [], [];
      nextPostId, nextIncidentId, clock := 1, 1, 0;
    }

    /** `create_post`: one new unprocessed row, returned after the commit. */
    method CreatePost(p: PostCreate) returns (row: Post)
      requires Valid()
      modifies this
      ensures Valid()
      ensures State() == InsertPost(old(State()), p)
      ensures posts == old(posts) + [row] && row.id !in set q | q in old(posts) :: q.id
    {
      InsertPostWellFormed(State(), p);
      row := NewRow(nextPostId, clock, p);
      posts := posts + [row];
      nextPostId := nextPostId + 1;
      clock := clock + 1;
    }

    /** `mark_post_processed`: `None` and no change when the id is absent; otherwise that
        post's flag is set and the refreshed row is returned. */
    method MarkPostProcessed(id: int) returns (r: Option<Post>)
      requires Valid()
      modifies this
      ensures Valid()
      ensures State() == old(State()).(posts := MarkProcessed(old(posts), id))
      ensures r.None? <==> old(FindPost(posts, id)).None?
      ensures r.None? ==> posts == old(posts)
      ensures r.Some? ==> r.value == old(FindPost(posts, id)).value.(processed := true)
    {
      MarkProcessedWellFormed(State(), id);
      match PostIndex(posts, id)
      case None =>
        r := None;
      case Some(k) =>
        posts := posts[k := posts[k].(processed := true)];
        r := Some(posts[k]);
    }

    /** `create_confirmed_incident`: one new row holding the payload's six fields. */
    method CreateConfirmedIncident(inc: IncidentCreate) returns (row: Incident)
      requires Valid()
      modifies this
      ensures Valid()
      ensures State() == InsertIncident(old(State()), inc)
      ensures incidents == old(incidents) + [row] && IncidentFields(row) == inc
    {
      InsertIncidentWellFormed(State(), inc);
      row := Incident(nextIncidentId, inc.sourcePostId, inc.incidentType, inc.summary,
                      inc.confidence, inc.country, inc.area, clock);
      incidents := incidents + [row];
      nextIncidentId := nextIncidentId + 1;
      clock := clock + 1;
    }
  }
}
