/** The one-off catalog import: a first pass over the CSV rows collects the
    distinct genre, director and actor names; `upsertAndMap` interns them
    into the lookup tables; a second pass inserts one movie per row and its
    link rows with INSERT IGNORE. The database is a `CatalogDb` object
    whose tables the import updates in place. */
module Importer {
  import opened Common
  import opened Tokenizer

  /** One CSV line; a missing column reads as the empty string. */
  datatype Row = Row(
    seriesTitle: string, releasedYear: string, genre: string, imdbRating: string,
    posterLink: string, director: string,
    star1: string, star2: string, star3: string, star4: string)

  /** `['Star1','Star2','Star3','Star4']` looked up in the row. */
  function Stars(r: Row): seq<string> {
    [r.star1, r.star2, r.star3, r.star4]
  }

  /** The three lookup domains: the genres, directors and actors tables
      with their link tables movie_genres, movie_directors, movie_actors. */
  datatype Domain = Genres | Directors | Actors

  /** The movies row inserted for a CSV row; year and rating are kept as
      the raw column text. */
  datatype MovieRow = MovieRow(title: string, year: string, genre: string, rating: string,
                               poster: string)

  function MovieOf(r: Row): MovieRow {
    MovieRow(Trim(r.seriesTitle), r.releasedYear, Trim(r.genre), r.imdbRating, Trim(r.posterLink))
  }

  // ----- what each pass reads from a row -----

  /** The names the first pass adds to a domain's set for one row. */
  function RowNames(r: Row, d: Domain): set<string> {
    match d
    case Genres => Names(Tokens(r.genre))
    case Directors => if r.director != "" then {Trim(r.director)} else {}
    case Actors => Names(NonEmpty(TrimAll(Stars(r))))
  }

  /** The elements of a list, as a set. */
  function Names(s: seq<string>): (r: set<string>)
    ensures forall n :: n in r <==> n in s
  {
    set n | n in s
  }

  lemma NamesAppend(a: seq<string>, b: seq<string>)
    ensures Names(a + b) == Names(a) + Names(b)
  {
  }

  /** The names the second pass looks up, in order, to link one row. */
  function LinkNames(r: Row, d: Domain): seq<string> {
    match d
    case Genres => Tokens(Trim(r.genre))
    case Directors => if r.director != "" then [Trim(r.director)] else []
    case Actors => NonEmpty(TrimAll(Stars(r)))
  }

  /** Both passes read the same names from a row, although the second
      tokenizes the trimmed Genre field. */
  lemma LinkNamesCollected(r: Row, d: Domain)
    ensures forall n :: n in LinkNames(r, d) <==> n in RowNames(r, d)
  {
    if d == Genres {
      TokensOfTrim(r.genre);
    }
  }

  /** Genres and actors are collected as non-empty trimmed names; genres
      are moreover comma-free. */
  lemma RowNamesShape(r: Row)
    ensures forall g :: g in RowNames(r, Genres) ==> IsToken(g)
    ensures forall a :: a in RowNames(r, Actors) ==> a != "" && a == Trim(a)
  {
    TokensWellFormed(r.genre);
    NonEmptyMembers(TrimAll(Stars(r)));
    forall a | a in RowNames(r, Actors) ensures a != "" && a == Trim(a) {
      var k :| 0 <= k < 4 && TrimAll(Stars(r))[k] == a;
      TrimIdempotent(Stars(r)[k]);
    }
  }

  /** `if (row.Director)` tests the raw field: a director made of
      whitespace only is collected (and later linked) as the empty name. */
  lemma BlankDirectorCollected()
    ensures RowNames(Row("T", "1999", "Drama", "8.0", "p", " ", "", "", "", ""), Directors) == {""}
  {
    assert Trim(" ") == "" by {
      assert TrimStart(" ") == TrimStart(" "[1..]);
      assert " "[1..] == "";
    }
  }

  // ----- first pass -----

  /** The names the first pass collects for a domain from the given rows. */
  function Collected(rows: seq<Row>, d: Domain): set<string> {
    if rows == [] then {}
    else Collected(rows[..|rows| - 1], d) + RowNames(rows[|rows| - 1], d)
  }

  /** A name is collected exactly when some row yields it. */
  lemma {:induction false} CollectedExactly(rows: seq<Row>, d: Domain)
    ensures forall n :: n in Collected(rows, d) <==>
      exists i :: 0 <= i < |rows| && n in RowNames(rows[i], d)
  {
    if rows != [] {
      var init := rows[..|rows| - 1];
      CollectedExactly(init, d);
      forall n | exists i :: 0 <= i < |rows| && n in RowNames(rows[i], d)
        ensures n in Collected(rows, d)
      {
        var i :| 0 <= i < |rows| && n in RowNames(rows[i], d);
        if i < |rows| - 1 { assert rows[i] == init[i]; }
      }
    }
  }

  /** `firstPassCollect`: the three name sets. */
  method FirstPassCollect(rows: seq<Row>) returns (genres: set<string>, directors: set<string>,
                                                   actors: set<string>)
    ensures genres == Collected(rows, Genres)
    ensures directors == Collected(rows, Directors)
    ensures actors == Collected(rows, Actors)
  {
    genres, directors, actors := {}, {}, {};
    var i := 0;
    while i < |rows|
      invariant 0 <= i <= |rows|
      invariant genres == Collected(rows[..i], Genres)
      invariant directors == Collected(rows[..i], Directors)
      invariant actors == Collected(rows[..i], Actors)
    {
      var row := rows[i];
      assert rows[..i + 1][..i] == rows[..i];
      genres := AddGenres(genres, Tokens(row.genre));
      if row.director != "" {
        directors := directors + {Trim(row.director)};
      }
      actors := AddStars(actors, Stars(row));
      i := i + 1;
    }
    assert rows[..i] == rows;
  }

  /** The `forEach(g => genres.add(g))` of the first pass. */
  method AddGenres(genres: set<string>, toks: seq<string>) returns (r: set<string>)
    ensures r == genres + Names(toks)
  {
    r := genres;
    var j := 0;
    while j < |toks|
      invariant 0 <= j <= |toks|
      invariant r == genres + Names(toks[..j])
    {
      assert toks[..j + 1] == toks[..j] + [toks[j]];
      NamesAppend(toks[..j], [toks[j]]);
      r := r + {toks[j]};
      j := j + 1;
    }
    assert toks[..j] == toks;
  }

  /** The `Star1`..`Star4` loop of the first pass. */
  method AddStars(actors: set<string>, stars: seq<string>) returns (r: set<string>)
    ensures r == actors + Names(NonEmpty(TrimAll(stars)))
  {
    r := actors;
    var k := 0;
    while k < |stars|
      invariant 0 <= k <= |stars|
      invariant r == actors + Names(NonEmpty(TrimAll(stars[..k])))
    {
      NonEmptyTrimAllStep(stars, k);
      var a := Trim(stars[k]);
      NamesAppend(NonEmpty(TrimAll(stars[..k])), if a == "" then [] else [a]);
      if a != "" {
        r := r + {a};
      }
      k := k + 1;
    }
    assert stars[..k] == stars;
  }

  /** One more element of `map(trim).filter(Boolean)`. */
  lemma NonEmptyTrimAllStep(xs: seq<string>, k: nat)
    requires k < |xs|
    ensures NonEmpty(TrimAll(xs[..k + 1]))
         == NonEmpty(TrimAll(xs[..k])) + (if Trim(xs[k]) == "" then [] else [Trim(xs[k])])
  {
    assert TrimAll(xs[..k + 1]) == TrimAll(xs[..k]) + [Trim(xs[k])];
    NonEmptyAppend(TrimAll(xs[..k]), [Trim(xs[k])]);
    assert NonEmpty([Trim(xs[k])]) == (if Trim(xs[k]) == "" then [] else [Trim(xs[k])]) by {
      assert [Trim(xs[k])][..0] == [];
    }
  }

  // ----- link tables with INSERT IGNORE -----

  /** `INSERT IGNORE`: a row equal to an existing one is dropped. */
  function InsertIgnore(t: seq<Link>, l: Link): seq<Link> {
    if l in t then t else t + [l]
  }

  /** A sequence of INSERT IGNORE statements, in order. */
  function InsertAll(t: seq<Link>, ls: seq<Link>): seq<Link> {
    if ls == [] then t else InsertIgnore(InsertAll(t, ls[..|ls| - 1]), ls[|ls| - 1])
  }

  /** Link tables behave as sets keyed by (movie_id, attr_id): inserting
      keeps them duplicate-free and adds exactly the inserted rows. */
  lemma {:induction false} InsertAllSemantics(t: seq<Link>, ls: seq<Link>)
    requires NoDup(t)
    ensures NoDup(InsertAll(t, ls))
    ensures forall l :: l in InsertAll(t, ls) <==> l in t || l in ls
  {
    if ls != [] {
      var init := ls[..|ls| - 1];
      InsertAllSemantics(t, init);
      assert ls == init + [ls[|ls| - 1]];
    }
  }

  /** Re-inserting rows that are all present already is a no-op. */
  lemma {:induction false} InsertAllPresent(t: seq<Link>, ls: seq<Link>)
    requires forall l :: l in ls ==> l in t
    ensures InsertAll(t, ls) == t
  {
    if ls != [] {
      InsertAllPresent(t, ls[..|ls| - 1]);
    }
  }

  lemma {:induction false} InsertAllAppend(t: seq<Link>, a: seq<Link>, b: seq<Link>)
    ensures InsertAll(t, a + b) == InsertAll(InsertAll(t, a), b)
    decreases |b|
  {
    if b == [] {
      assert a + b == a;
    } else {
      var b' := b[..|b| - 1];
      assert (a + b)[..|a + b| - 1] == a + b';
      InsertAllAppend(t, a, b');
    }
  }

  /** The link rows for one movie and a list of names: `[movieId, maps.X.get(name)]`. */
  function LinksFor(movieId: MovieId, names: seq<string>, m: map<string, AttrId>): (r: seq<Link>)
    requires forall n :: n in names ==> n in m
    ensures |r| == |names|
    ensures forall k {:trigger r[k]} :: 0 <= k < |names| ==> r[k] == Link(movieId, m[names[k]])
  {
    seq(|names|, k requires 0 <= k < |names| => Link(movieId, m[names[k]]))
  }

  lemma InsertAllSnoc(t: seq<Link>, ls: seq<Link>, l: Link)
    ensures InsertAll(t, ls + [l]) == InsertIgnore(InsertAll(t, ls), l)
  {
    assert (ls + [l])[..|ls|] == ls;
  }

  lemma LinksForSnoc(movieId: MovieId, names: seq<string>, k: nat, m: map<string, AttrId>)
    requires k < |names| && forall n :: n in names ==> n in m
    ensures forall n :: n in names[..k] ==> n in m
    ensures forall n :: n in names[..k + 1] ==> n in m
    ensures LinksFor(movieId, names[..k + 1], m) == LinksFor(movieId, names[..k], m) + [Link(movieId, m[names[k]])]
  {
    assert forall n :: n in names[..k + 1] ==> n in names;
  }

  /** A genre repeated within one Genre field yields one link row. */
  lemma RepeatedGenreOneLink(m: map<string, AttrId>)
    requires "Drama" in m
    ensures InsertAll([], LinksFor(7, ["Drama", "Drama"], m)) == [Link(7, m["Drama"])]
  {
    var ls := LinksFor(7, ["Drama", "Drama"], m);
    assert ls[..1][..0] == [];
    assert InsertAll([], ls[..1]) == [Link(7, m["Drama"])];
    assert ls[1] == Link(7, m["Drama"]);
    assert ls[..1] == [Link(7, m["Drama"])];
  }

  // ----- the database -----

  /** A lookup table: ids are distinct and below the next auto-increment value. */
  predicate LookupValid(ids: map<string, AttrId>, next: AttrId) {
    && (forall n :: n in ids ==> ids[n] < next)
    && (forall a, b :: a in ids && b in ids && a != b ==> ids[a] != ids[b])
  }

  /** A link table: no duplicate row, no movie id not handed out yet. */
  predicate LinksValid(t: seq<Link>, nextMovie: MovieId) {
    NoDup(t) && forall l :: l in t ==> l.movie < nextMovie
  }

  /** A lookup table (genres, directors or actors): name -> id, unique on
      name, with its auto-increment counter. */
  class LookupTable {
    var ids: map<string, AttrId>
    var next: AttrId

    ghost predicate Valid()
      reads this
    {
      LookupValid(ids, next)
    }

    constructor ()
      ensures Valid() && ids == map[] && next == 1
    {
      ids, next := map[], 1;
    }

    /** `INSERT … ON DUPLICATE KEY UPDATE id = LAST_INSERT_ID(id)`: the id
        of an existing name, or a fresh id for a new one. */
    method Upsert(name: string) returns (id: AttrId)
      requires Valid()
      modifies this
      ensures Valid()
      ensures name in old(ids) ==> id == old(ids[name]) && ids == old(ids)
      ensures name !in old(ids) ==> ids == old(ids)[name := id] && id !in old(ids).Values
    {
      if name in ids {
        id := ids[name];
      } else {
        id := next;
        ids := ids[name := id];
        next := next + 1;
      }
    }
  }

  /** The movies table with its auto-increment counter. */
  class MovieTable {
    var rows: map<MovieId, MovieRow>
    var next: MovieId

    ghost predicate Valid()
      reads this
    {
      forall m :: m in rows ==> m < next
    }

    constructor ()
      ensures Valid() && rows == map[] && next == 1
    {
      rows, next := map[], 1;
    }

    /** `INSERT INTO movies …`: a new row under the next auto-increment id. */
    method Insert(row: MovieRow) returns (id: MovieId)
      requires Valid()
      modifies this
      ensures Valid()
      ensures id == old(next) && next == id + 1
      ensures id !in old(rows) && rows == old(rows)[id := row]
    {
      id := next;
      rows := rows[id := row];
      next := next + 1;
    }
  }

  /** A link table (movie_genres, movie_directors or movie_actors) with its
      primary key on (movie_id, attr_id). */
  class LinkTable {
    var rows: seq<Link>

    constructor ()
      ensures rows == []
    {
      rows := [];
    }

    /** `INSERT IGNORE INTO movie_<domain> …` */
    method Insert(l: Link)
      modifies this
      ensures rows == InsertIgnore(old(rows), l)
    {
      if l !in rows {
        rows := rows + [l];
      }
    }
  }

  /** The catalog the import writes to: one lookup table and one link
      table per domain, and the movies table. */
  class CatalogDb {
    const genres: LookupTable
    const directors: LookupTable
    const actors: LookupTable
    const movies: MovieTable
    const movieGenres: LinkTable
    const movieDirectors: LinkTable
    const movieActors: LinkTable

    function Lookup(d: Domain): LookupTable {
      match d
      case Genres => genres
      case Directors => directors
      case Actors => actors
    }

    function Links(d: Domain): LinkTable {
      match d
      case Genres => movieGenres
      case Directors => movieDirectors
      case Actors => movieActors
    }

    ghost function Repr(): set<object> {
      {genres, directors, actors, movies, movieGenres, movieDirectors, movieActors}
    }

    ghost predicate Valid()
      reads Repr()
    {
      && genres != directors && genres != actors && directors != actors
      && movieGenres != movieDirectors && movieGenres != movieActors
      && movieDirectors != movieActors
      && genres.Valid() && directors.Valid() && actors.Valid() && movies.Valid()
      && LinksValid(movieGenres.rows, movies.next)
      && LinksValid(movieDirectors.rows, movies.next)
      && LinksValid(movieActors.rows, movies.next)
    }

    constructor ()
      ensures Valid() && fresh(Repr())
      ensures forall d :: Lookup(d).ids == map[] && Links(d).rows == []
      ensures movies.rows == map[] && movies.next == 1
    {
      genres := new LookupTable();
      directors := new LookupTable();
      actors := new LookupTable();
      movies := new MovieTable();
      movieGenres := new LinkTable();
      movieDirectors := new LinkTable();
      movieActors := new LinkTable();
    }
  }

  /** Valid, read through the domain-indexed accessors. */
  lemma DomainTables(conn: CatalogDb)
    requires conn.Valid()
    ensures forall d :: conn.Lookup(d).Valid() && LinksValid(conn.Links(d).rows, conn.movies.next)
    ensures forall d, e :: d != e ==> conn.Lookup(d) != conn.Lookup(e) && conn.Links(d) != conn.Links(e)
  {
  }

  // ----- upsertAndMap -----

  /** `upsertAndMap`: interns every item and returns its id. Names already
      in the table keep their ids; new names get fresh ones. */
  method UpsertAndMap(conn: CatalogDb, table: Domain, items: set<string>)
    returns (m: map<string, AttrId>)
    requires conn.Valid()
    modifies conn.Lookup(table)
    ensures conn.Valid()
    ensures m.Keys == items
    ensures forall v :: v in items ==> v in conn.Lookup(table).ids && m[v] == conn.Lookup(table).ids[v]
    ensures conn.Lookup(table).ids.Keys == old(conn.Lookup(table).ids).Keys + items
    ensures forall v :: v in old(conn.Lookup(table).ids) ==>
      conn.Lookup(table).ids[v] == old(conn.Lookup(table).ids[v])
  {
    var t := conn.Lookup(table);
    m := map[];
    var rest := items;
    while rest != {}
      invariant t.Valid()
      invariant rest <= items
      invariant m.Keys == items - rest
      invariant forall v :: v in m ==> v in t.ids && m[v] == t.ids[v]
      invariant t.ids.Keys == old(t.ids).Keys + (items - rest)
      invariant forall v :: v in old(t.ids) ==> t.ids[v] == old(t.ids[v])
      decreases rest
    {
      var v :| v in rest;
      var id := t.Upsert(v);
      m := m[v := id];
      rest := rest - {v};
    }
  }

  // ----- second pass -----

  /** Every name a row looks up in a domain is a key of the map given for it. */
  predicate RowResolves(r: Row, d: Domain, m: map<string, AttrId>) {
    forall n :: n in LinkNames(r, d) ==> n in m
  }

  predicate Resolves(rows: seq<Row>, d: Domain, m: map<string, AttrId>) {
    forall i :: 0 <= i < |rows| ==> RowResolves(rows[i], d, m)
  }

  /** Every `maps.X.get(name)` of the second pass finds a key when the
      maps hold the names the first pass collected from the same rows. */
  lemma CollectedResolves(rows: seq<Row>, d: Domain, m: map<string, AttrId>)
    requires Collected(rows, d) <= m.Keys
    ensures Resolves(rows, d, m)
  {
    CollectedExactly(rows, d);
    forall i | 0 <= i < |rows| ensures RowResolves(rows[i], d, m) {
      LinkNamesCollected(rows[i], d);
    }
  }

  /** The link rows the second pass inserts for one row under `movieId`. */
  function RowLinks(r: Row, movieId: MovieId, d: Domain, m: map<string, AttrId>): seq<Link>
    requires RowResolves(r, d, m)
  {
    LinksFor(movieId, LinkNames(r, d), m)
  }

  /** The movies table went from `before` to `after` by inserting one row
      per CSV row under consecutive ids from `start`: row `k` is stored
      under `start + k`, the movies present before are untouched, nothing
      else is added. */
  ghost predicate MoviesAdded(before: map<MovieId, MovieRow>, after: map<MovieId, MovieRow>,
                              rows: seq<Row>, start: MovieId) {
    && (forall id :: id in after <==> id in before || start <= id < start + |rows|)
    && (forall id :: id in before ==> after[id] == before[id])
    && (forall k :: 0 <= k < |rows| ==> after[start + k] == MovieOf(rows[k]))
  }

  /** One more `INSERT INTO movies` of the second pass. */
  lemma MoviesAddedStep(before: map<MovieId, MovieRow>, mid: map<MovieId, MovieRow>,
                        after: map<MovieId, MovieRow>, rows: seq<Row>, i: nat, start: MovieId,
                        movieId: MovieId)
    requires i < |rows| && forall id :: id in before ==> id < start
    requires MoviesAdded(before, mid, rows[..i], start)
    requires movieId == start + i && after == mid[movieId := MovieOf(rows[i])]
    ensures MoviesAdded(before, after, rows[..i + 1], start)
  {
    var prefix := rows[..i + 1];
    forall k | 0 <= k < i + 1 ensures after[start + k] == MovieOf(prefix[k]) {
      if k < i {
        assert rows[..i][k] == rows[k];
      }
    }
  }

  /** The names each row looks up in one domain, row by row. */
  function NameLists(rows: seq<Row>, d: Domain): (r: seq<seq<string>>)
    ensures |r| == |rows|
    ensures forall i {:trigger r[i]} :: 0 <= i < |rows| ==> r[i] == LinkNames(rows[i], d)
  {
    seq(|rows|, i requires 0 <= i < |rows| => LinkNames(rows[i], d))
  }

  /** Every name of every list is a key of `m`. */
  predicate ListsResolve(ls: seq<seq<string>>, m: map<string, AttrId>) {
    forall i, n :: 0 <= i < |ls| && n in ls[i] ==> n in m
  }

  lemma ResolvesLists(rows: seq<Row>, d: Domain, m: map<string, AttrId>)
    requires Resolves(rows, d, m)
    ensures ListsResolve(NameLists(rows, d), m)
  {
    forall i, n | 0 <= i < |rows| && n in NameLists(rows, d)[i] ensures n in m {
      assert RowResolves(rows[i], d, m);
    }
  }

  /** The link rows for movies numbered consecutively from `start`, the
      k-th one linked to the names `ls[k]`, in order. */
  function LinksOfLists(ls: seq<seq<string>>, start: MovieId, m: map<string, AttrId>): seq<Link>
    requires ListsResolve(ls, m)
  {
    if ls == [] then []
    else
      var n := |ls| - 1;
      assert ListsResolve(ls[..n], m) by {
        forall i, x | 0 <= i < n && x in ls[..n][i] ensures x in m { assert ls[..n][i] == ls[i]; }
      }
      LinksOfLists(ls[..n], start, m) + LinksFor(start + n, ls[n], m)
  }

  /** Every link of the run carries one of its movie ids. */
  lemma {:induction false} LinksOfListsRange(ls: seq<seq<string>>, start: MovieId, m: map<string, AttrId>)
    requires ListsResolve(ls, m)
    ensures forall l :: l in LinksOfLists(ls, start, m) ==> start <= l.movie < start + |ls|
  {
    if ls != [] {
      var n := |ls| - 1;
      LinksOfListsRange(ls[..n], start, m);
    }
  }

  /** The links of the run under the id of list `i` are that list's own. */
  lemma {:induction false} LinksOfListsMovie(ls: seq<seq<string>>, start: MovieId,
                                             m: map<string, AttrId>, i: nat)
    requires ListsResolve(ls, m) && i < |ls|
    ensures forall n :: n in ls[i] ==> n in m
    ensures forall l ::
      (l in LinksOfLists(ls, start, m) && l.movie == start + i) <==> l in LinksFor(start + i, ls[i], m)
  {
    var n := |ls| - 1;
    var last := LinksFor(start + n, ls[n], m);
    assert forall l :: l in last ==> l.movie == start + n;
    if i < n {
      LinksOfListsMovie(ls[..n], start, m, i);
      assert ls[..n][i] == ls[i];
    } else {
      LinksOfListsRange(ls[..n], start, m);
    }
  }

  /** Resolving through a map that extends `m1` gives the same links. */
  lemma {:induction false} LinksOfListsSameIds(ls: seq<seq<string>>, start: MovieId,
                                               m1: map<string, AttrId>, m2: map<string, AttrId>)
    requires ListsResolve(ls, m1)
    requires forall n :: n in m1 ==> n in m2 && m2[n] == m1[n]
    ensures ListsResolve(ls, m2)
    ensures LinksOfLists(ls, start, m1) == LinksOfLists(ls, start, m2)
  {
    if ls != [] {
      var n := |ls| - 1;
      LinksOfListsSameIds(ls[..n], start, m1, m2);
    }
  }

  /** The link rows the second pass inserts into one domain, in order. */
  function PassLinks(rows: seq<Row>, start: MovieId, d: Domain, m: map<string, AttrId>): seq<Link>
    requires Resolves(rows, d, m)
  {
    ResolvesLists(rows, d, m);
    LinksOfLists(NameLists(rows, d), start, m)
  }

  /** The links inserted for the row with movie id `start + i` are exactly
      its own, and no other row's links use that id; with a table that
      held no link for the new ids before, the same holds of the table. */
  lemma PassLinksOfRow(t: seq<Link>, rows: seq<Row>, start: MovieId, d: Domain,
                       m: map<string, AttrId>, i: nat)
    requires Resolves(rows, d, m) && i < |rows|
    requires NoDup(t) && forall l :: l in t ==> l.movie < start
    ensures RowResolves(rows[i], d, m)
    ensures forall l ::
      (l in InsertAll(t, PassLinks(rows, start, d, m)) && l.movie == start + i) <==>
      l in RowLinks(rows[i], start + i, d, m)
  {
    ResolvesLists(rows, d, m);
    LinksOfListsMovie(NameLists(rows, d), start, m, i);
    InsertAllSemantics(t, PassLinks(rows, start, d, m));
  }

  /** The second pass resolves names through a map that extends `m1` to
      the same links. */
  lemma PassLinksSameIds(rows: seq<Row>, start: MovieId, d: Domain,
                         m1: map<string, AttrId>, m2: map<string, AttrId>)
    requires Resolves(rows, d, m1)
    requires forall n :: n in m1 ==> n in m2 && m2[n] == m1[n]
    ensures Resolves(rows, d, m2)
    ensures PassLinks(rows, start, d, m1) == PassLinks(rows, start, d, m2)
  {
    ResolvesLists(rows, d, m1);
    LinksOfListsSameIds(NameLists(rows, d), start, m1, m2);
    forall i | 0 <= i < |rows| ensures RowResolves(rows[i], d, m2) {
      assert NameLists(rows, d)[i] == LinkNames(rows[i], d);
    }
  }

  /** A prefix of resolving rows resolves. */
  lemma ResolvesPrefix(rows: seq<Row>, k: nat, d: Domain, m: map<string, AttrId>)
    requires Resolves(rows, d, m) && k <= |rows|
    ensures Resolves(rows[..k], d, m)
    ensures k < |rows| ==> RowResolves(rows[k], d, m)
  {
    forall j | 0 <= j < k ensures RowResolves(rows[..k][j], d, m) {
      assert rows[..k][j] == rows[j];
    }
  }

  /** The inner `for … of` loop: INSERT IGNORE one link per name. */
  method LinkAll(conn: CatalogDb, d: Domain, movieId: MovieId, names: seq<string>,
                 m: map<string, AttrId>)
    requires conn.Valid() && movieId < conn.movies.next
    requires forall n :: n in names ==> n in m
    modifies conn.Links(d)
    ensures conn.Valid()
    ensures conn.Links(d).rows == InsertAll(old(conn.Links(d).rows), LinksFor(movieId, names, m))
  {
    var t := conn.Links(d);
    DomainTables(conn);
    var j := 0;
    while j < |names|
      invariant 0 <= j <= |names|
      invariant LinksValid(t.rows, conn.movies.next)
      invariant t.rows == InsertAll(old(t.rows), LinksFor(movieId, names[..j], m))
    {
      LinksForSnoc(movieId, names, j, m);
      InsertAllSnoc(old(t.rows), LinksFor(movieId, names[..j], m), Link(movieId, m[names[j]]));
      t.Insert(Link(movieId, m[names[j]]));
      j := j + 1;
    }
    assert names[..j] == names;
  }

  /** The body of the second pass for one row: the movie, then its genre,
      director and actor links, all under the new movie's id. */
  method InsertRow(conn: CatalogDb, row: Row, maps: map<Domain, map<string, AttrId>>)
    returns (movieId: MovieId)
    requires conn.Valid()
    requires forall d: Domain :: d in maps
    requires forall d: Domain :: RowResolves(row, d, maps[d])
    modifies conn.movies, conn.movieGenres, conn.movieDirectors, conn.movieActors
    ensures conn.Valid()
    ensures movieId == old(conn.movies.next) && conn.movies.next == movieId + 1
    ensures conn.movies.rows == old(conn.movies.rows)[movieId := MovieOf(row)]
    ensures conn.movieGenres.rows
         == InsertAll(old(conn.movieGenres.rows), RowLinks(row, movieId, Genres, maps[Genres]))
    ensures conn.movieDirectors.rows
         == InsertAll(old(conn.movieDirectors.rows), RowLinks(row, movieId, Directors, maps[Directors]))
    ensures conn.movieActors.rows
         == InsertAll(old(conn.movieActors.rows), RowLinks(row, movieId, Actors, maps[Actors]))
  {
    movieId := conn.movies.Insert(MovieOf(row));
    assert conn.Valid() by {
      DomainTables(conn);
      forall d ensures LinksValid(conn.Links(d).rows, conn.movies.next) {
        assert LinksValid(conn.Links(d).rows, movieId);
      }
    }
    assert RowResolves(row, Genres, maps[Genres]);
    LinkAll(conn, Genres, movieId, Tokens(Trim(row.genre)), maps[Genres]);
    assert RowResolves(row, Directors, maps[Directors]);
    LinkDirector(conn, row, movieId, maps[Directors]);
    assert RowResolves(row, Actors, maps[Actors]);
    LinkActors(conn, Stars(row), movieId, maps[Actors]);
  }

  /** `if (row.Director)`: at most one director link. */
  method LinkDirector(conn: CatalogDb, row: Row, movieId: MovieId, m: map<string, AttrId>)
    requires conn.Valid() && movieId < conn.movies.next
    requires RowResolves(row, Directors, m)
    modifies conn.movieDirectors
    ensures conn.Valid()
    ensures conn.movieDirectors.rows
         == InsertAll(old(conn.movieDirectors.rows), RowLinks(row, movieId, Directors, m))
  {
    if row.director != "" {
      assert Trim(row.director) in LinkNames(row, Directors);
      var l := Link(movieId, m[Trim(row.director)]);
      conn.movieDirectors.Insert(l);
      assert RowLinks(row, movieId, Directors, m) == [l];
      assert [l][..0] == [];
    }
  }

  /** The `Star1`..`Star4` loop: trim, skip the empty ones, link the rest. */
  method LinkActors(conn: CatalogDb, stars: seq<string>, movieId: MovieId, m: map<string, AttrId>)
    requires conn.Valid() && movieId < conn.movies.next
    requires forall n :: n in NonEmpty(TrimAll(stars)) ==> n in m
    modifies conn.movieActors
    ensures conn.Valid()
    ensures conn.movieActors.rows
         == InsertAll(old(conn.movieActors.rows), LinksFor(movieId, NonEmpty(TrimAll(stars)), m))
  {
    var t := conn.movieActors;
    var k := 0;
    while k < |stars|
      invariant 0 <= k <= |stars|
      invariant forall n :: n in NonEmpty(TrimAll(stars[..k])) ==> n in m
      invariant LinksValid(t.rows, conn.movies.next)
      invariant t.rows == InsertAll(old(t.rows), LinksFor(movieId, NonEmpty(TrimAll(stars[..k])), m))
    {
      ActorStep(stars, k, movieId, m);
      var a := Trim(stars[k]);
      if a != "" {
        var l := Link(movieId, m[a]);
        InsertAllSnoc(old(t.rows), LinksFor(movieId, NonEmpty(TrimAll(stars[..k])), m), l);
        t.Insert(l);
      }
      k := k + 1;
    }
    assert stars[..k] == stars;
  }

  /** One star of the `Star1`..`Star4` loop, in terms of the whole list. */
  lemma ActorStep(stars: seq<string>, k: nat, movieId: MovieId, m: map<string, AttrId>)
    requires k < |stars|
    requires forall n :: n in NonEmpty(TrimAll(stars)) ==> n in m
    ensures forall n :: n in NonEmpty(TrimAll(stars[..k])) ==> n in m
    ensures forall n :: n in NonEmpty(TrimAll(stars[..k + 1])) ==> n in m
    ensures Trim(stars[k]) != "" ==> Trim(stars[k]) in m
    ensures Trim(stars[k]) != "" ==>
      LinksFor(movieId, NonEmpty(TrimAll(stars[..k + 1])), m)
      == LinksFor(movieId, NonEmpty(TrimAll(stars[..k])), m) + [Link(movieId, m[Trim(stars[k])])]
    ensures Trim(stars[k]) == "" ==>
      NonEmpty(TrimAll(stars[..k + 1])) == NonEmpty(TrimAll(stars[..k]))
  {
    NonEmptyMembers(TrimAll(stars));
    NonEmptyMembers(TrimAll(stars[..k + 1]));
    NonEmptyMembers(TrimAll(stars[..k]));
    NonEmptyTrimAllStep(stars, k);
    assert forall j :: 0 <= j <= k ==> TrimAll(stars[..k + 1])[j] == TrimAll(stars)[j];
    assert forall j :: 0 <= j < k ==> TrimAll(stars[..k])[j] == TrimAll(stars)[j];
    if Trim(stars[k]) != "" {
      assert TrimAll(stars)[k] == Trim(stars[k]);
    }
  }

  /** `secondPassInsert`: row by row, one movie under the next id and its
      link rows, with every name resolved through `maps`. */
  method SecondPassInsert(rows: seq<Row>, maps: map<Domain, map<string, AttrId>>, conn: CatalogDb)
    requires conn.Valid()
    requires forall d: Domain :: d in maps
    requires forall d: Domain :: Resolves(rows, d, maps[d])
    modifies conn.movies, conn.movieGenres, conn.movieDirectors, conn.movieActors
    ensures conn.Valid()
    ensures conn.movies.next == old(conn.movies.next) + |rows|
    ensures MoviesAdded(old(conn.movies.rows), conn.movies.rows, rows, old(conn.movies.next))
    ensures forall d: Domain ::
      conn.Links(d).rows == InsertAll(old(conn.Links(d).rows), PassLinks(rows, old(conn.movies.next), d, maps[d]))
    ensures unchanged(conn.genres, conn.directors, conn.actors)
  {
    ghost var start, movies0 := conn.movies.next, conn.movies.rows;
    ghost var genres0, directors0, actors0 := conn.movieGenres.rows, conn.movieDirectors.rows,
                                              conn.movieActors.rows;
    var i := 0;
    while i < |rows|
      invariant 0 <= i <= |rows|
      invariant conn.Valid()
      invariant conn.movies.next == start + i
      invariant MoviesAdded(movies0, conn.movies.rows, rows[..i], start)
      invariant forall d: Domain :: Resolves(rows[..i], d, maps[d])
      invariant conn.movieGenres.rows == InsertAll(genres0, PassLinks(rows[..i], start, Genres, maps[Genres]))
      invariant conn.movieDirectors.rows
             == InsertAll(directors0, PassLinks(rows[..i], start, Directors, maps[Directors]))
      invariant conn.movieActors.rows == InsertAll(actors0, PassLinks(rows[..i], start, Actors, maps[Actors]))
    {
      PassStep(rows, i, maps);
      label BeforeRow:
      var movieId := InsertRow(conn, rows[i], maps);
      MoviesAddedStep(movies0, old@BeforeRow(conn.movies.rows), conn.movies.rows, rows, i, start, movieId);
      PassLinksSnoc(rows, i, start, movieId, Genres, maps[Genres]);
      LinksStep(genres0, old@BeforeRow(conn.movieGenres.rows), conn.movieGenres.rows,
                PassLinks(rows[..i], start, Genres, maps[Genres]), RowLinks(rows[i], movieId, Genres, maps[Genres]),
                PassLinks(rows[..i + 1], start, Genres, maps[Genres]));
      PassLinksSnoc(rows, i, start, movieId, Directors, maps[Directors]);
      LinksStep(directors0, old@BeforeRow(conn.movieDirectors.rows), conn.movieDirectors.rows,
                PassLinks(rows[..i], start, Directors, maps[Directors]), RowLinks(rows[i], movieId, Directors, maps[Directors]),
                PassLinks(rows[..i + 1], start, Directors, maps[Directors]));
      PassLinksSnoc(rows, i, start, movieId, Actors, maps[Actors]);
      LinksStep(actors0, old@BeforeRow(conn.movieActors.rows), conn.movieActors.rows,
                PassLinks(rows[..i], start, Actors, maps[Actors]), RowLinks(rows[i], movieId, Actors, maps[Actors]),
                PassLinks(rows[..i + 1], start, Actors, maps[Actors]));
      i := i + 1;
    }
    assert rows[..i] == rows;
    forall d: Domain
      ensures conn.Links(d).rows == InsertAll(old(conn.Links(d).rows), PassLinks(rows, start, d, maps[d]))
    {
      match d
      case Genres =>
      case Directors =>
      case Actors =>
    }
  }

  /** The link table after one more row, in terms of the pass so far. */
  lemma LinksStep(t0: seq<Link>, t1: seq<Link>, t2: seq<Link>, p0: seq<Link>, r: seq<Link>, p1: seq<Link>)
    requires t1 == InsertAll(t0, p0) && t2 == InsertAll(t1, r) && p1 == p0 + r
    ensures t2 == InsertAll(t0, p1)
  {
    InsertAllAppend(t0, p0, r);
  }

  /** One more row of the second pass, in terms of the pass functions. */
  lemma PassStep(rows: seq<Row>, i: nat, maps: map<Domain, map<string, AttrId>>)
    requires i < |rows|
    requires forall d: Domain :: d in maps
    requires forall d: Domain :: Resolves(rows, d, maps[d])
    ensures forall d: Domain :: Resolves(rows[..i + 1], d, maps[d]) && RowResolves(rows[i], d, maps[d])
    ensures forall d: Domain :: Resolves(rows[..i], d, maps[d])
  {
    var prefix := rows[..i + 1];
    assert prefix[..i] == rows[..i];
    forall d: Domain ensures Resolves(prefix, d, maps[d]) && Resolves(rows[..i], d, maps[d]) {
      forall j | 0 <= j < i + 1 ensures RowResolves(prefix[j], d, maps[d]) {
        assert prefix[j] == rows[j];
      }
      forall j | 0 <= j < i ensures RowResolves(rows[..i][j], d, maps[d]) {
        assert rows[..i][j] == rows[j];
      }
    }
  }

  lemma PassLinksSnoc(rows: seq<Row>, i: nat, start: MovieId, movieId: MovieId, d: Domain,
                      m: map<string, AttrId>)
    requires i < |rows| && Resolves(rows[..i + 1], d, m) && Resolves(rows[..i], d, m)
    requires RowResolves(rows[i], d, m) && movieId == start + i
    ensures PassLinks(rows[..i + 1], start, d, m)
         == PassLinks(rows[..i], start, d, m) + RowLinks(rows[i], movieId, d, m)
  {
    var ls := NameLists(rows[..i + 1], d);
    assert ls[..i] == NameLists(rows[..i], d);
    assert ls[i] == LinkNames(rows[i], d);
    ResolvesLists(rows[..i + 1], d, m);
    ResolvesLists(rows[..i], d, m);
    LinksOfListsSnoc(ls, NameLists(rows[..i], d), LinkNames(rows[i], d), i, start, movieId, m);
  }

  lemma LinksOfListsSnoc(ls: seq<seq<string>>, init: seq<seq<string>>, last: seq<string>, k: nat,
                         start: MovieId, movieId: MovieId, m: map<string, AttrId>)
    requires |ls| == k + 1 && init == ls[..k] && last == ls[k] && movieId == start + k
    requires ListsResolve(ls, m) && ListsResolve(init, m) && forall n :: n in last ==> n in m
    ensures LinksOfLists(ls, start, m) == LinksOfLists(init, start, m) + LinksFor(movieId, last, m)
  {
  }

  // ----- the import -----

  /** What interning `names` did to a lookup table: the names are added,
      the names present before keep their ids. */
  predicate Interned(before: map<string, AttrId>, after: map<string, AttrId>, names: set<string>) {
    && after.Keys == before.Keys + names
    && forall n :: n in before ==> after[n] == before[n]
  }

  /** `ids` gives every name of `m` the same id as `m`. */
  predicate Agrees(m: map<string, AttrId>, ids: map<string, AttrId>) {
    forall n :: n in m ==> n in ids && ids[n] == m[n]
  }

  /** `main` without its I/O: collect, intern, insert. Afterwards each
      lookup table holds every collected name, names present before keep
      their ids, each row has its movie under a fresh consecutive id, and
      each link table received exactly the rows' links, resolved through
      the lookup tables. */
  method ImportMovies(rows: seq<Row>, conn: CatalogDb)
    requires conn.Valid()
    modifies conn.Repr()
    ensures conn.Valid()
    ensures forall d: Domain :: Interned(old(conn.Lookup(d).ids), conn.Lookup(d).ids, Collected(rows, d))
    ensures conn.movies.next == old(conn.movies.next) + |rows|
    ensures MoviesAdded(old(conn.movies.rows), conn.movies.rows, rows, old(conn.movies.next))
    ensures forall d: Domain :: Resolves(rows, d, conn.Lookup(d).ids)
    ensures forall d: Domain ::
      conn.Links(d).rows
      == InsertAll(old(conn.Links(d).rows), PassLinks(rows, old(conn.movies.next), d, conn.Lookup(d).ids))
  {
    ghost var start := conn.movies.next;
    var genres, directors, actors := FirstPassCollect(rows);
    var maps := SeedLookups(conn, genres, directors, actors);
    forall d: Domain ensures Resolves(rows, d, maps[d]) {
      match d
      case Genres => CollectedResolves(rows, Genres, maps[Genres]);
      case Directors => CollectedResolves(rows, Directors, maps[Directors]);
      case Actors => CollectedResolves(rows, Actors, maps[Actors]);
    }
    label Seeded:
    SecondPassInsert(rows, maps, conn);
    forall d: Domain
      ensures Interned(old(conn.Lookup(d).ids), conn.Lookup(d).ids, Collected(rows, d))
      ensures Resolves(rows, d, conn.Lookup(d).ids)
      ensures conn.Links(d).rows
           == InsertAll(old(conn.Links(d).rows), PassLinks(rows, start, d, conn.Lookup(d).ids))
    {
      match d
      case Genres =>
        ImportedLinks(rows, start, d, maps[d], conn.genres.ids, old(conn.movieGenres.rows),
                      conn.movieGenres.rows);
      case Directors =>
        ImportedLinks(rows, start, d, maps[d], conn.directors.ids, old(conn.movieDirectors.rows),
                      conn.movieDirectors.rows);
      case Actors =>
        ImportedLinks(rows, start, d, maps[d], conn.actors.ids, old(conn.movieActors.rows),
                      conn.movieActors.rows);
    }
  }

  /** The links inserted through the seeding maps are the links resolved
      through the lookup tables those maps agree with. */
  lemma ImportedLinks(rows: seq<Row>, start: MovieId, d: Domain, m: map<string, AttrId>,
                      ids: map<string, AttrId>, t0: seq<Link>, t1: seq<Link>)
    requires Resolves(rows, d, m) && Agrees(m, ids)
    requires t1 == InsertAll(t0, PassLinks(rows, start, d, m))
    ensures Resolves(rows, d, ids)
    ensures t1 == InsertAll(t0, PassLinks(rows, start, d, ids))
  {
    PassLinksSameIds(rows, start, d, m, ids);
  }

  /** The `maps` object of `main`: each lookup table interns its set of
      names, and the returned maps agree with the tables. */
  method SeedLookups(conn: CatalogDb, genres: set<string>, directors: set<string>, actors: set<string>)
    returns (maps: map<Domain, map<string, AttrId>>)
    requires conn.Valid()
    modifies conn.genres, conn.directors, conn.actors
    ensures conn.Valid()
    ensures forall d: Domain :: d in maps
    ensures maps[Genres].Keys == genres && Agrees(maps[Genres], conn.genres.ids)
    ensures maps[Directors].Keys == directors && Agrees(maps[Directors], conn.directors.ids)
    ensures maps[Actors].Keys == actors && Agrees(maps[Actors], conn.actors.ids)
    ensures Interned(old(conn.genres.ids), conn.genres.ids, genres)
    ensures Interned(old(conn.directors.ids), conn.directors.ids, directors)
    ensures Interned(old(conn.actors.ids), conn.actors.ids, actors)
    ensures unchanged(conn.movies, conn.movieGenres, conn.movieDirectors, conn.movieActors)
  {
    var genreIds := UpsertAndMap(conn, Genres, genres);
    var directorIds := UpsertAndMap(conn, Directors, directors);
    var actorIds := UpsertAndMap(conn, Actors, actors);
    maps := map[Genres := genreIds, Directors := directorIds, Actors := actorIds];
    forall d: Domain ensures d in maps {
      match d
      case Genres =>
      case Directors =>
      case Actors =>
    }
  }
}
