/** The write handlers of the backend (POST /api/users, POST /api/swipe,
    DELETE and PUT /api/watchlist/:movieId) and the watchlist read, first
    as transitions between table snapshots, then as the methods of a
    `Store` whose tables they update in place.

    Request fields that the handlers test for truthiness are strings whose
    empty value stands for a missing or falsy field, and `Option` movie
    ids whose `None` stands for one. */
module Handlers {
  import opened Common
  import opened Recommender

  datatype Status = Ok | Created | BadRequest | NotFound

  /** The status of a write handler and the tables after it. */
  datatype Reply = Reply(status: Status, db: Db)

  /** `getUserId`: the internal id for a firebase uid, or null. */
  function LookupUser(db: Db, uid: string): Option<UserId> {
    if uid in db.users then Some(db.users[uid].id) else None
  }

  /** `if (!userId)`: the lookup found nothing, or found the falsy id 0. */
  predicate UnknownUser(db: Db, uid: string) {
    var id := LookupUser(db, uid);
    id.None? || id.value == 0
  }

  /** `m2` agrees with `m1` on every key other than `key`. */
  ghost predicate SameExcept<V>(m1: map<(UserId, MovieId), V>, m2: map<(UserId, MovieId), V>,
                                key: (UserId, MovieId)) {
    forall k :: k != key ==> (k in m1 <==> k in m2) && (k in m1 ==> m1[k] == m2[k])
  }

  // ----- POST /api/users -----

  /** Creates the users row for a firebase uid, with `newId` as the id the
      database assigns; an existing uid is left as it is. */
  function AddUser(db: Db, newId: UserId, uid: string, email: string, name: string): (r: Reply)
    ensures r.status == Status.BadRequest <==> uid == "" || email == ""
    ensures r.status == Created <==> uid != "" && email != "" && uid !in db.users
    ensures r.status == Ok <==> uid != "" && email != "" && uid in db.users
    ensures r.status != Created ==> r.db == db
    ensures r.status == Created ==>
      && r.db.users.Keys == db.users.Keys + {uid}
      && r.db.users[uid] == UserRow(newId, email, if name == "" then None else Some(name))
    ensures forall u :: u in db.users ==> u in r.db.users && r.db.users[u] == db.users[u]
    ensures r.db == db.(users := r.db.users)
  {
    if uid == "" || email == "" then Reply(Status.BadRequest, db)
    else if uid in db.users then Reply(Ok, db)
    else
      var row := UserRow(newId, email, if name == "" then None else Some(name));
      Reply(Created, db.(users := db.users[uid := row]))
  }

  // ----- POST /api/swipe -----

  /** like/dislike upserts user_likes keyed by (user, movie); watchlist
      inserts into watchlist unless the row exists (INSERT IGNORE). */
  function SwipeOn(db: Db, uid: string, movieId: Option<MovieId>, action: string): (r: Reply)
    ensures r.status == Status.BadRequest <==>
      uid == "" || movieId.None? || action == ""
      || (!UnknownUser(db, uid) && action !in {"like", "dislike", "watchlist"})
    ensures r.status == Status.NotFound <==>
      uid != "" && movieId.Some? && action != "" && UnknownUser(db, uid)
    ensures r.status != Created
    ensures r.status != Ok ==> r.db == db
    ensures r.db == db.(likes := r.db.likes, watchlist := r.db.watchlist)
    ensures r.status == Ok ==>
      var key := (db.users[uid].id, movieId.value);
      && SameExcept(db.likes, r.db.likes, key)
      && SameExcept(db.watchlist, r.db.watchlist, key)
      && (action == "like" || action == "dislike" ==>
            key in r.db.likes && r.db.likes[key] == (action == "like")
            && r.db.watchlist == db.watchlist)
      && (action == "watchlist" ==>
            key in r.db.watchlist && r.db.likes == db.likes
            && (key in db.watchlist ==> r.db.watchlist[key] == db.watchlist[key])
            && (key !in db.watchlist ==> r.db.watchlist[key] == false))
  {
    if uid == "" || movieId.None? || action == "" then Reply(Status.BadRequest, db)
    else if UnknownUser(db, uid) then Reply(Status.NotFound, db)
    else
      var key := (db.users[uid].id, movieId.value);
      if action == "like" || action == "dislike" then
        Reply(Ok, db.(likes := db.likes[key := action == "like"]))
      else if action == "watchlist" then
        Reply(Ok, db.(watchlist := if key in db.watchlist then db.watchlist
                                   else db.watchlist[key := false]))
      else Reply(Status.BadRequest, db)
  }

  // ----- DELETE /api/watchlist/:movieId -----

  function RemoveFromWatchlist(db: Db, uid: string, movieId: Option<MovieId>): (r: Reply)
    ensures r.status == Status.BadRequest <==> uid == "" || movieId.None?
    ensures r.status == Status.NotFound <==> uid != "" && movieId.Some? && UnknownUser(db, uid)
    ensures r.status != Created
    ensures r.status != Ok ==> r.db == db
    ensures r.db == db.(watchlist := r.db.watchlist)
    ensures r.status == Ok ==>
      var key := (db.users[uid].id, movieId.value);
      key !in r.db.watchlist && SameExcept(db.watchlist, r.db.watchlist, key)
  {
    if uid == "" || movieId.None? then Reply(Status.BadRequest, db)
    else if UnknownUser(db, uid) then Reply(Status.NotFound, db)
    else
      var key := (db.users[uid].id, movieId.value);
      Reply(Ok, db.(watchlist := db.watchlist - {key}))
  }

  // ----- PUT /api/watchlist/:movieId -----

  /** `UPDATE watchlist SET watched = ? WHERE …`: the uid comes from the
      body or else the query string; an absent row stays absent. */
  function SetWatched(db: Db, bodyUid: string, queryUid: string, movieId: Option<MovieId>,
                      watched: bool): (r: Reply)
    ensures var uid := if bodyUid != "" then bodyUid else queryUid;
      && (r.status == Status.BadRequest <==> uid == "" || movieId.None?)
      && (r.status == Status.NotFound <==> uid != "" && movieId.Some? && UnknownUser(db, uid))
      && (r.status == Ok ==>
            var key := (db.users[uid].id, movieId.value);
            SameExcept(db.watchlist, r.db.watchlist, key)
            && (key in db.watchlist ==> key in r.db.watchlist && r.db.watchlist[key] == watched))
    ensures r.status != Created
    ensures r.status != Ok ==> r.db == db
    ensures r.db == db.(watchlist := r.db.watchlist)
    ensures r.db.watchlist.Keys == db.watchlist.Keys
  {
    var uid := if bodyUid != "" then bodyUid else queryUid;
    if uid == "" || movieId.None? then Reply(Status.BadRequest, db)
    else if UnknownUser(db, uid) then Reply(Status.NotFound, db)
    else
      var key := (db.users[uid].id, movieId.value);
      Reply(Ok, db.(watchlist := if key in db.watchlist then db.watchlist[key := watched]
                                 else db.watchlist))
  }

  // ----- GET /api/watchlist -----

  datatype ListReply = ListReply(status: Status, items: map<MovieId, bool>)

  /** The user's watchlist rows joined with movies: movie id -> watched. */
  function WatchlistOf(db: Db, uid: string): (r: ListReply)
    ensures r.status == Status.BadRequest <==> uid == ""
    ensures r.status == Status.NotFound <==> uid != "" && UnknownUser(db, uid)
    ensures r.status == Ok <==> uid != "" && !UnknownUser(db, uid)
    ensures r.status != Ok ==> r.items == map[]
    ensures r.status == Ok ==>
      var u := db.users[uid].id;
      && r.items.Keys == Watchlisted(db, u) * db.movies
      && forall m :: m in r.items ==> r.items[m] == db.watchlist[(u, m)]
  {
    if uid == "" then ListReply(Status.BadRequest, map[])
    else if UnknownUser(db, uid) then ListReply(Status.NotFound, map[])
    else
      var u := db.users[uid].id;
      var items := map m | m in db.movies && (u, m) in db.watchlist :: db.watchlist[(u, m)];
      assert items.Keys == Watchlisted(db, u) * db.movies by {
        forall m | m in Watchlisted(db, u) ensures (u, m) in db.watchlist {
          var k :| k in db.watchlist && k.0 == u && k.1 == m;
          assert k == (u, m);
        }
      }
      ListReply(Ok, items)
  }

  // ----- properties of the transitions -----

  /** Replaying a swipe changes nothing: liking twice leaves one user_likes
      row with liked = 1, a second watchlist swipe leaves the row alone. */
  lemma SwipeIdempotent(db: Db, uid: string, movieId: Option<MovieId>, action: string)
    ensures SwipeOn(SwipeOn(db, uid, movieId, action).db, uid, movieId, action)
         == SwipeOn(db, uid, movieId, action)
  {
  }

  /** Between like and dislike, the last swipe decides the stored flag. */
  lemma LastSwipeWins(db: Db, uid: string, m: MovieId, first: string, second: string)
    requires first in {"like", "dislike"} && second in {"like", "dislike"}
    ensures SwipeOn(SwipeOn(db, uid, Some(m), first).db, uid, Some(m), second).db
         == SwipeOn(db, uid, Some(m), second).db
  {
    if uid != "" && !UnknownUser(db, uid) {
      var key := (db.users[uid].id, m);
      assert db.likes[key := first == "like"][key := second == "like"]
          == db.likes[key := second == "like"];
    }
  }

  /** A watchlist swipe on a movie already on the watchlist keeps its
      watched flag. */
  lemma WatchlistSwipeKeepsWatched(db: Db, uid: string, m: MovieId)
    requires uid != "" && uid in db.users && (db.users[uid].id, m) in db.watchlist
    ensures SwipeOn(db, uid, Some(m), "watchlist").db == db
  {
  }

  /** After an accepted swipe the movie is in the user's exclusion set, so
      it is never recommended to that user again; a like or a watchlist
      swipe also makes it a positive signal. */
  lemma SwipedMovieExcluded(db: Db, uid: string, m: MovieId, action: string)
    requires SwipeOn(db, uid, Some(m), action).status == Ok
    ensures var r := SwipeOn(db, uid, Some(m), action);
      var u := db.users[uid].id;
      && m in Exclusion(r.db, u)
      && (action != "dislike" ==> m in Positive(r.db, u))
      && (action == "dislike" ==> m !in Liked(r.db, u))
  {
    var r := SwipeOn(db, uid, Some(m), action);
    var u := db.users[uid].id;
    ActivitySets(r.db, u);
    if action == "dislike" {
      assert r.db.likes[(u, m)] == false;
    }
  }

  /** Removing a watchlist entry twice is the same as removing it once. */
  lemma RemoveIdempotent(db: Db, uid: string, movieId: Option<MovieId>)
    ensures RemoveFromWatchlist(RemoveFromWatchlist(db, uid, movieId).db, uid, movieId)
         == RemoveFromWatchlist(db, uid, movieId)
  {
  }

  /** Once removed from the watchlist, a movie the user never swiped on
      leaves the exclusion set and can be recommended again. */
  lemma RemovedMovieEligibleAgain(db: Db, uid: string, m: MovieId)
    requires RemoveFromWatchlist(db, uid, Some(m)).status == Ok
    requires (db.users[uid].id, m) !in db.likes
    ensures m !in Exclusion(RemoveFromWatchlist(db, uid, Some(m)).db, db.users[uid].id)
  {
    var r := RemoveFromWatchlist(db, uid, Some(m));
    ActivitySets(r.db, db.users[uid].id);
  }

  /** Marking a movie watched or unwatched never changes which movies are
      excluded or positive for anyone. */
  lemma SetWatchedKeepsActivity(db: Db, bodyUid: string, queryUid: string,
                                movieId: Option<MovieId>, watched: bool, u: UserId)
    ensures var r := SetWatched(db, bodyUid, queryUid, movieId, watched);
      Exclusion(r.db, u) == Exclusion(db, u) && Positive(r.db, u) == Positive(db, u)
  {
    var r := SetWatched(db, bodyUid, queryUid, movieId, watched);
    ActivitySets(r.db, u);
    ActivitySets(db, u);
  }

  /** Adding a movie to the watchlist, marking it watched, then unwatched,
      leaves one watchlist row for it, with watched = 0. */
  lemma WatchlistToggleScenario(db: Db, uid: string, m: MovieId)
    requires uid != "" && !UnknownUser(db, uid)
    ensures var key := (db.users[uid].id, m);
      var d1 := SwipeOn(db, uid, Some(m), "watchlist").db;
      var d2 := SetWatched(d1, uid, "", Some(m), true).db;
      var d3 := SetWatched(d2, uid, "", Some(m), false).db;
      && key in d1.watchlist && d2.watchlist[key] && key in d3.watchlist && !d3.watchlist[key]
      && d3.watchlist.Keys == d1.watchlist.Keys
  {
  }

  // ----- the store -----

  /** The FilmSwipe tables the backend reads and writes. */
  class Store {
    var users: map<string, UserRow>
    var nextUserId: UserId                  // next AUTO_INCREMENT value of users.id
    var likes: map<(UserId, MovieId), bool>
    var watchlist: map<(UserId, MovieId), bool>
    var movies: set<MovieId>
    var movieGenres: seq<Link>
    var movieActors: seq<Link>
    var movieDirectors: seq<Link>

    /** Users have distinct ids below the next auto-increment value. */
    ghost predicate Valid()
      reads this
    {
      && (forall uid :: uid in users ==> users[uid].id < nextUserId)
      && (forall a, b :: a in users && b in users && a != b ==> users[a].id != users[b].id)
    }

    /** The tables as one snapshot, the value GET /api/movies reads. */
    function Snapshot(): Db
      reads this
    {
      Db(users, likes, watchlist, movies, movieGenres, movieActors, movieDirectors)
    }

    constructor ()
      ensures Valid()
      ensures Snapshot() == Db(map[], map[], map[], {}, [], [], [])
      ensures nextUserId == 1
    {
      users, nextUserId := map[], 1;
      likes, watchlist := map[], map[];
      movies := {};
      movieGenres, movieActors, movieDirectors := [], [], [];
    }

    /** POST /api/users */
    method CreateUser(uid: string, email: string, name: string) returns (s: Status)
      requires Valid()
      modifies this`users, this`nextUserId
      ensures Valid()
      ensures Reply(s, Snapshot()) == AddUser(old(Snapshot()), old(nextUserId), uid, email, name)
      ensures s == Created ==> forall u :: u in old(users) ==> old(users)[u].id != users[uid].id
      ensures nextUserId == if s == Created then old(nextUserId) + 1 else old(nextUserId)
    {
      if uid == "" || email == "" {
        return Status.BadRequest;
      }
      if uid in users {
        return Ok;
      }
      users := users[uid := UserRow(nextUserId, email, if name == "" then None else Some(name))];
      nextUserId := nextUserId + 1;
      s := Created;
    }

    /** POST /api/swipe */
    method Swipe(uid: string, movieId: Option<MovieId>, action: string) returns (s: Status)
      modifies this`likes, this`watchlist
      ensures Reply(s, Snapshot()) == SwipeOn(old(Snapshot()), uid, movieId, action)
    {
      if uid == "" || movieId.None? || action == "" {
        return Status.BadRequest;
      }
      var id := LookupUser(Snapshot(), uid);
      if id.None? || id.value == 0 {
        return Status.NotFound;
      }
      var key := (id.value, movieId.value);
      if action == "like" || action == "dislike" {
        likes := likes[key := action == "like"];
        s := Ok;
      } else if action == "watchlist" {
        if key !in watchlist {
          watchlist := watchlist[key := false];
        }
        s := Ok;
      } else {
        s := Status.BadRequest;
      }
    }

    /** DELETE /api/watchlist/:movieId */
    method Unwatchlist(uid: string, movieId: Option<MovieId>) returns (s: Status)
      modifies this`watchlist
      ensures Reply(s, Snapshot()) == RemoveFromWatchlist(old(Snapshot()), uid, movieId)
    {
      if uid == "" || movieId.None? {
        return Status.BadRequest;
      }
      var id := LookupUser(Snapshot(), uid);
      if id.None? || id.value == 0 {
        return Status.NotFound;
      }
      watchlist := watchlist - {(id.value, movieId.value)};
      s := Ok;
    }

    /** PUT /api/watchlist/:movieId */
    method MarkWatched(bodyUid: string, queryUid: string, movieId: Option<MovieId>, watched: bool)
      returns (s: Status)
      modifies this`watchlist
      ensures Reply(s, Snapshot()) == SetWatched(old(Snapshot()), bodyUid, queryUid, movieId, watched)
    {
      var uid := if bodyUid != "" then bodyUid else queryUid;
      if uid == "" || movieId.None? {
        return Status.BadRequest;
      }
      var id := LookupUser(Snapshot(), uid);
      if id.None? || id.value == 0 {
        return Status.NotFound;
      }
      var key := (id.value, movieId.value);
      if key in watchlist {
        watchlist := watchlist[key := watched];
      }
      s := Ok;
    }
  }
}
