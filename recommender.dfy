/** GET /api/movies: the recommendation pipeline of the backend, over a
    snapshot of the tables it reads. The handler is stateless: it derives
    the user's exclusion and positive sets, expands the positive set into
    preferred genre, actor and director ids, scores every movie outside the
    exclusion set by counting matching link rows (UNION ALL, GROUP BY,
    COUNT), and answers with a top-scoring movie, or with a random movie
    outside the exclusion set, or with `{}`. */
module Recommender {
  import opened Common

  datatype UserRow = UserRow(id: UserId, email: string, name: Option<string>)

  /** The tables of the FilmSwipe database, as the backend sees them. */
  datatype Db = Db(
    users: map<string, UserRow>,               // users, keyed by firebase_uid
    likes: map<(UserId, MovieId), bool>,       // user_likes: (user_id, movie_id) -> liked
    watchlist: map<(UserId, MovieId), bool>,   // watchlist: (user_id, movie_id) -> watched
    movies: set<MovieId>,                      // ids of the movies table
    movieGenres: seq<Link>,
    movieActors: seq<Link>,
    movieDirectors: seq<Link>)

  /** What the handler sends back: a movie row, `{}`, or an error status. */
  datatype Response = Movie(id: MovieId) | NoMovie | BadRequest | NotFound | ServerError

  // ----- 1. user activity -----

  function Liked(db: Db, u: UserId): set<MovieId> {
    set k | k in db.likes && k.0 == u && db.likes[k] :: k.1
  }

  function Disliked(db: Db, u: UserId): set<MovieId> {
    set k | k in db.likes && k.0 == u && !db.likes[k] :: k.1
  }

  function Watchlisted(db: Db, u: UserId): set<MovieId> {
    set k | k in db.watchlist && k.0 == u :: k.1
  }

  /** `excludeIds`: liked, watchlisted and disliked movies, without duplicates. */
  function Exclusion(db: Db, u: UserId): set<MovieId> {
    Liked(db, u) + Watchlisted(db, u) + Disliked(db, u)
  }

  /** `positiveIds`: liked and watchlisted movies, without duplicates. */
  function Positive(db: Db, u: UserId): set<MovieId> {
    Liked(db, u) + Watchlisted(db, u)
  }

  /** The exclusion set is every movie the user swiped on or watchlisted;
      the positive set is every watchlisted or liked one, and lies inside
      the exclusion set. A disliked movie that is also on the watchlist is
      positive. */
  lemma ActivitySets(db: Db, u: UserId)
    ensures forall m :: m in Exclusion(db, u) <==> (u, m) in db.likes || (u, m) in db.watchlist
    ensures forall m :: m in Positive(db, u) <==>
      (u, m) in db.watchlist || ((u, m) in db.likes && db.likes[(u, m)])
    ensures Positive(db, u) <= Exclusion(db, u)
  {
    forall m | (u, m) in db.likes || (u, m) in db.watchlist
      ensures m in Exclusion(db, u)
      ensures m in Positive(db, u) <==> (u, m) in db.watchlist || db.likes[(u, m)]
    {
      var k := (u, m);
      assert k.1 == m;
    }
  }

  // ----- 2. preferred attributes -----

  /** `SELECT DISTINCT attr_id FROM <links> WHERE movie_id IN (ms)` */
  function LinkedAttrs(links: seq<Link>, ms: set<MovieId>): set<AttrId> {
    if links == [] then {}
    else (if links[0].movie in ms then {links[0].attr} else {}) + LinkedAttrs(links[1..], ms)
  }

  /** The attribute ids linked to at least one of the given movies. */
  lemma {:induction false} LinkedAttrsExactly(links: seq<Link>, ms: set<MovieId>)
    ensures LinkedAttrs(links, ms) == set l | l in links && l.movie in ms :: l.attr
  {
    if links != [] {
      LinkedAttrsExactly(links[1..], ms);
      assert links == [links[0]] + links[1..];
      forall a | a in set l | l in links && l.movie in ms :: l.attr
        ensures a in LinkedAttrs(links, ms)
      {
        var l :| l in links && l.movie in ms && l.attr == a;
        if l != links[0] { assert l in links[1..]; }
      }
    }
  }

  /** The three preferred attribute sets. */
  datatype Profile = Profile(genres: set<AttrId>, actors: set<AttrId>, directors: set<AttrId>)

  function Preferences(db: Db, pos: set<MovieId>): Profile {
    Profile(LinkedAttrs(db.movieGenres, pos), LinkedAttrs(db.movieActors, pos),
            LinkedAttrs(db.movieDirectors, pos))
  }

  /** Some preferred list is empty, so the scoring query contains `IN ()`. */
  predicate HasEmptyList(p: Profile) {
    p.genres == {} || p.actors == {} || p.directors == {}
  }

  // ----- 3. scoring -----

  /** The rows of one link table that belong to movie `m` and whose
      attribute is preferred; every row counts, duplicates included. */
  function MatchCount(links: seq<Link>, pref: set<AttrId>, m: MovieId): nat {
    if links == [] then 0
    else (if links[0].movie == m && links[0].attr in pref then 1 else 0)
         + MatchCount(links[1..], pref, m)
  }

  /** `COUNT(*)` over the UNION ALL of the three link tables. */
  function Score(db: Db, p: Profile, m: MovieId): nat {
    MatchCount(db.movieGenres, p.genres, m) + MatchCount(db.movieActors, p.actors, m)
    + MatchCount(db.movieDirectors, p.directors, m)
  }

  /** Counting is additive over concatenated rows: UNION ALL does not
      remove a row that repeats an earlier one. */
  lemma {:induction false} MatchCountAppend(a: seq<Link>, b: seq<Link>, pref: set<AttrId>, m: MovieId)
    ensures MatchCount(a + b, pref, m) == MatchCount(a, pref, m) + MatchCount(b, pref, m)
  {
    if a == [] {
      assert a + b == b;
    } else {
      assert (a + b)[0] == a[0];
      assert (a + b)[1..] == a[1..] + b;
      MatchCountAppend(a[1..], b, pref, m);
    }
  }

  /** A movie scores in one table exactly when one of its rows there has a preferred attribute. */
  lemma {:induction false} MatchCountPositive(links: seq<Link>, pref: set<AttrId>, m: MovieId)
    ensures MatchCount(links, pref, m) > 0 <==> exists l :: l in links && l.movie == m && l.attr in pref
  {
    if links != [] {
      MatchCountPositive(links[1..], pref, m);
      assert links == [links[0]] + links[1..];
      if l :| l in links && l.movie == m && l.attr in pref {
        if l != links[0] { assert l in links[1..]; }
      }
    }
  }

  /** Movies that appear in at least one preferred row of a link table. */
  function Matched(links: seq<Link>, pref: set<AttrId>): set<MovieId> {
    set l | l in links && l.attr in pref :: l.movie
  }

  /** The movies of the grouped result, after `NOT IN (excludeIds)`. */
  function Candidates(db: Db, p: Profile, excl: set<MovieId>): set<MovieId> {
    (Matched(db.movieGenres, p.genres) + Matched(db.movieActors, p.actors)
     + Matched(db.movieDirectors, p.directors)) - excl
  }

  lemma MatchedIffCount(links: seq<Link>, pref: set<AttrId>, m: MovieId)
    ensures m in Matched(links, pref) <==> MatchCount(links, pref, m) > 0
  {
    MatchCountPositive(links, pref, m);
    if MatchCount(links, pref, m) > 0 {
      var l :| l in links && l.movie == m && l.attr in pref;
      assert l.movie in Matched(links, pref);
    }
  }

  /** The candidates are exactly the movies outside the exclusion set
      with a score of at least one. */
  lemma CandidatesScored(db: Db, p: Profile, excl: set<MovieId>)
    ensures forall m :: m in Candidates(db, p, excl) <==> m !in excl && Score(db, p, m) >= 1
  {
    forall m ensures m in Candidates(db, p, excl) <==> m !in excl && Score(db, p, m) >= 1 {
      MatchedIffCount(db.movieGenres, p.genres, m);
      MatchedIffCount(db.movieActors, p.actors, m);
      MatchedIffCount(db.movieDirectors, p.directors, m);
    }
  }

  /** With nothing preferred in any table, no movie is a candidate. */
  lemma EmptyProfileNoCandidates(db: Db, excl: set<MovieId>)
    ensures Candidates(db, Profile({}, {}, {}), excl) == {}
  {
  }

  // ----- 4. selection -----

  /** `c` has the highest score among the candidates (`ORDER BY score DESC LIMIT 1`). */
  predicate IsTop(db: Db, p: Profile, cands: set<MovieId>, c: MovieId) {
    c in cands && forall c' :: c' in cands ==> Score(db, p, c') <= Score(db, p, c)
  }

  /** Every non-empty candidate set has a top-scoring member. */
  lemma {:induction false} TopExists(db: Db, p: Profile, cands: set<MovieId>)
    requires cands != {}
    ensures exists c :: IsTop(db, p, cands, c)
    decreases cands
  {
    var x :| x in cands;
    var rest := cands - {x};
    if rest == {} {
      assert cands == {x};
      assert IsTop(db, p, cands, x);
    } else {
      TopExists(db, p, rest);
      var y :| IsTop(db, p, rest, y);
      if Score(db, p, x) <= Score(db, p, y) {
        assert IsTop(db, p, cands, y);
      } else {
        assert IsTop(db, p, cands, x);
      }
    }
  }

  /** A random answer: a movie outside the exclusion set, or `{}` when there is none. */
  ghost predicate IsFallback(db: Db, excl: set<MovieId>, r: Response) {
    || (r.Movie? && r.id in db.movies && r.id !in excl)
    || (r == NoMovie && db.movies <= excl)
  }

  /** A scored answer: the row of a top candidate, or `{}` when the top
      candidate picked has no row in the movies table. */
  ghost predicate IsTopAnswer(db: Db, p: Profile, cands: set<MovieId>, r: Response) {
    || (r.Movie? && r.id in db.movies && IsTop(db, p, cands, r.id))
    || (r == NoMovie && exists c :: IsTop(db, p, cands, c) && c !in db.movies)
  }

  // ----- 5. orchestration -----

  /** What is left to do once the deterministic part of the handler has run. */
  datatype Step =
    | Respond(r: Response)                          // answer fixed
    | PickTop(cands: set<MovieId>, profile: Profile) // ORDER BY score DESC LIMIT 1
    | PickAny(excl: set<MovieId>)                   // ORDER BY RAND() LIMIT 1

  /** The deterministic part of GET /api/movies. With `emptyListFails`
      it is the handler as written: an empty preferred list produces
      `IN ()`, a MySQL syntax error, and the request fails with 500. Without
      it, an empty list matches no row, the evident intent. */
  function Plan(db: Db, uid: string, emptyListFails: bool): (s: Step)
    ensures s.PickTop? ==> s.cands != {}
  {
    if uid == "" then Respond(BadRequest)
    else if uid !in db.users then Respond(NotFound)
    else
      var u := db.users[uid].id;
      var excl := Exclusion(db, u);
      var pos := Positive(db, u);
      if pos == {} then PickAny(excl)
      else
        var p := Preferences(db, pos);
        if emptyListFails && HasEmptyList(p) then Respond(ServerError)
        else
          var cands := Candidates(db, p, excl);
          if cands != {} then PickTop(cands, p) else PickAny(excl)
  }

  /** Runs the queries whose answer is not determined: the random pick and
      the tie-break among equal scores are nondeterministic choices. */
  method Execute(db: Db, s: Step) returns (r: Response)
    requires s.PickTop? ==> s.cands != {}
    ensures s.Respond? ==> r == s.r
    ensures s.PickAny? ==> IsFallback(db, s.excl, r)
    ensures s.PickTop? ==> IsTopAnswer(db, s.profile, s.cands, r)
  {
    match s
    case Respond(answer) =>
      r := answer;
    case PickAny(excl) =>
      if db.movies - excl != {} {
        var m :| m in db.movies - excl;
        r := Movie(m);
      } else {
        r := NoMovie;
        assert db.movies <= excl by {
          forall m | m in db.movies ensures m in excl {
            assert m !in db.movies - excl;
          }
        }
      }
    case PickTop(cands, p) =>
      TopExists(db, p, cands);
      var c :| c in cands && IsTop(db, p, cands, c);
      if c in db.movies {
        r := Movie(c);
      } else {
        r := NoMovie;
        assert IsTop(db, p, cands, c) && c !in db.movies;
      }
  }

  /** GET /api/movies?uid=… as written. */
  method Recommend(db: Db, uid: string) returns (r: Response)
    ensures r == BadRequest <==> uid == ""
    ensures r == NotFound <==> uid != "" && uid !in db.users
    ensures r.Movie? ==>
      (r.id in db.movies && uid in db.users && r.id !in Exclusion(db, db.users[uid].id))
    ensures uid != "" && uid in db.users ==>
      var u := db.users[uid].id;
      var excl := Exclusion(db, u);
      var pos := Positive(db, u);
      var p := Preferences(db, pos);
      && (pos == {} ==> IsFallback(db, excl, r))
      && (r == ServerError <==> pos != {} && HasEmptyList(p))
      && (pos != {} && !HasEmptyList(p) && Candidates(db, p, excl) != {} ==>
            IsTopAnswer(db, p, Candidates(db, p, excl), r))
      && (pos != {} && !HasEmptyList(p) && Candidates(db, p, excl) == {} ==>
            IsFallback(db, excl, r))
  {
    r := Execute(db, Plan(db, uid, true));
  }

  /** GET /api/movies?uid=… with an empty preferred list matching nothing:
      it never fails, and a user with positive history gets a top-scoring
      candidate whenever there is one. */
  method RecommendGuarded(db: Db, uid: string) returns (r: Response)
    ensures r != ServerError
    ensures r == BadRequest <==> uid == ""
    ensures r == NotFound <==> uid != "" && uid !in db.users
    ensures r.Movie? ==>
      (r.id in db.movies && uid in db.users && r.id !in Exclusion(db, db.users[uid].id))
    ensures uid != "" && uid in db.users ==>
      var u := db.users[uid].id;
      var excl := Exclusion(db, u);
      var pos := Positive(db, u);
      var p := Preferences(db, pos);
      && (pos == {} ==> IsFallback(db, excl, r))
      && (pos != {} && Candidates(db, p, excl) != {} ==>
            IsTopAnswer(db, p, Candidates(db, p, excl), r))
      && (pos != {} && Candidates(db, p, excl) == {} ==> IsFallback(db, excl, r))
  {
    r := Execute(db, Plan(db, uid, false));
  }

  // ----- the `IN ()` failure on a concrete database -----

  /** The user liked movies 1 and 2 and disliked 3; movies 1, 3 and 4 are
      dramas (genre 1), 2 a comedy (2), 5 science fiction (3); movie 1 has
      director 1 and movie 4 director 3; no movie has actors. */
  function DramaFan(): Db {
    Db(map["fan" := UserRow(1, "fan@example.com", None)],
       map[(1, 1) := true, (1, 2) := true, (1, 3) := false],
       map[],
       {1, 2, 3, 4, 5},
       [Link(1, 1), Link(2, 2), Link(3, 1), Link(4, 1), Link(5, 3)],
       [],
       [Link(1, 1), Link(4, 3)])
  }

  lemma DramaFanActivity()
    ensures Exclusion(DramaFan(), 1) == {1, 2, 3}
    ensures Positive(DramaFan(), 1) == {1, 2}
  {
    var db := DramaFan();
    assert Liked(db, 1) == {1, 2} by {
      assert (1, 1) in db.likes && (1, 2) in db.likes;
    }
    assert Disliked(db, 1) == {3} by {
      assert (1, 3) in db.likes;
    }
    assert Watchlisted(db, 1) == {};
  }

  lemma DramaFanProfile()
    ensures Preferences(DramaFan(), {1, 2}) == Profile({1, 2}, {}, {1})
  {
    var db := DramaFan();
    LinkedAttrsExactly(db.movieGenres, {1, 2});
    LinkedAttrsExactly(db.movieActors, {1, 2});
    LinkedAttrsExactly(db.movieDirectors, {1, 2});
    assert Link(1, 1) in db.movieGenres && Link(2, 2) in db.movieGenres;
    assert Link(1, 1) in db.movieDirectors;
  }

  lemma DramaFanCandidates()
    ensures Candidates(DramaFan(), Profile({1, 2}, {}, {1}), {1, 2, 3}) == {4}
  {
    var db := DramaFan();
    var p := Profile({1, 2}, {}, {1});
    var g := Matched(db.movieGenres, p.genres);
    assert 4 in g by {
      assert Link(4, 1) in db.movieGenres;
    }
    assert g <= {1, 2, 3, 4} by {
      forall m | m in g ensures m in {1, 2, 3, 4} {
        var l :| l in db.movieGenres && l.attr in p.genres && l.movie == m;
      }
    }
    var d := Matched(db.movieDirectors, p.directors);
    assert d <= {1} by {
      forall m | m in d ensures m == 1 {
        var l :| l in db.movieDirectors && l.attr in p.directors && l.movie == m;
      }
    }
    assert Matched(db.movieActors, p.actors) == {};
  }

  /** As written, the request fails although movie 4 shares a genre with
      a liked movie: the empty actor list makes the query `IN ()`. The
      intended plan scores movie 4 as the only candidate. */
  lemma EmptyActorListFails()
    ensures Plan(DramaFan(), "fan", true) == Respond(ServerError)
    ensures Plan(DramaFan(), "fan", false) == PickTop({4}, Profile({1, 2}, {}, {1}))
  {
    assert DramaFan().users["fan"].id == 1;
    DramaFanActivity();
    DramaFanProfile();
    DramaFanCandidates();
  }
}
