# FilmSwipe core in Dafny

FilmSwipe is a movie-swiping app. Users like, dislike or watchlist one movie at
a time, and the backend recommends the next movie. This project models three
parts of it:

- **The recommendation endpoint.** GET /api/movies in `backend/server.js`
  (module `Recommender`, `recommender.dfy`):
  - It derives the user's exclusion set (liked, disliked, watchlisted) and
    positive set (liked, watchlisted).
  - It expands the positive movies into preferred genre, actor and director ids.
  - It scores every movie outside the exclusion set by counting matching link
    rows over a UNION ALL of the three link tables.
  - It answers with a top-scoring candidate, or with a random movie outside the
    exclusion set, or with `{}`.
  - The deterministic part is the function `Plan`. The two queries whose answer
    the database chooses (`ORDER BY RAND()` and the tie-break among equal
    scores) are nondeterministic choices in the method `Execute`.
- **The write handlers and the watchlist read.** POST /api/users, POST
  /api/swipe, GET, DELETE and PUT /api/watchlist (module `Handlers`,
  `handlers.dfy`):
  - Each is first a pure function over a snapshot of the tables: a transition
    for the four write handlers, and a query (`WatchlistOf`) for the read.
  - Each write handler is then a method of the class `Store`, whose table
    fields it updates in place. Each method is proved equal to its transition.
    The read changes nothing and is the query on `Store.Snapshot()`.
- **The catalog importer.** `data/import_movies.js` (modules `Tokenizer` and
  `Importer`, `tokenizer.dfy` and `importer.dfy`):
  - The genre tokenizer (`split(',')`, `trim`, `filter(Boolean)`) is written
    with JavaScript's whitespace set.
  - The first pass collects names into three sets.
  - `upsertAndMap` interns them into the lookup tables.
  - The second pass inserts one movie per CSV row and its link rows with
    `INSERT IGNORE`.
  - The database the import writes to is a `CatalogDb` object. Its seven tables
    are objects the methods modify.

`common.dfy` holds the shared id types, `Option`, the link row
`Link(movie, attr)` and `NoDup`.

## Where the code differs from its evident intent

The model follows the code as written, and states the evident intent beside it:

- The handler builds `IN ()` for any empty preferred list. The evidently
  intended behaviour is that an empty list matches no row. `Recommend` models
  the code and `RecommendGuarded` the intent; see Findings.
- The handlers test `!userId`, so a user whose id is 0 is answered with 404.
  `UnknownUser` models that.

## Model

| member | source | states |
|---|---|---|
| Recommender.ActivitySets | backend/server.js:77-96 | A movie is excluded iff the user has a user_likes or watchlist row for it. It is positive iff it is watchlisted or liked = 1. Positive ⊆ excluded, so a disliked movie that is also watchlisted stays positive. |
| Recommender.LinkedAttrsExactly | backend/server.js:113-119 | `SELECT DISTINCT attr FROM links WHERE movie_id IN (pos)` is exactly the set of attributes linked to some positive movie. |
| Recommender.MatchCountAppend | backend/server.js:129-135 | UNION ALL keeps duplicates: the row count over concatenated rows is the sum of the counts. |
| Recommender.MatchCountPositive | backend/server.js:128-137 | A movie has a positive count in a link table iff one of its rows there has a preferred attribute. |
| Recommender.MatchedIffCount | backend/server.js:128-137 | A movie appears in the grouped rows of a table iff its count there is at least one. |
| Recommender.CandidatesScored | backend/server.js:125-139 | The grouped result after `NOT IN (excludeIds)` holds exactly the non-excluded movies with a score of at least 1. |
| Recommender.EmptyProfileNoCandidates | backend/server.js:130-134 | With every preferred set empty, no movie is a candidate (the intended reading of an empty list). |
| Recommender.TopExists | backend/server.js:138-139 | Every non-empty candidate set has a member of maximal score, so `ORDER BY score DESC LIMIT 1` is defined. |
| Recommender.Plan | backend/server.js:59-140 | The deterministic part of the handler. A top pick is requested only on a non-empty candidate set. |
| Recommender.Execute | backend/server.js:99-109 | A fixed answer is returned as is. A random pick is a movie outside the exclusion set, or `{}` when none is left. A top pick is a maximal-score candidate, or `{}` when its movies row is missing (lines 141-167). |
| Recommender.Recommend | backend/server.js:59-172 | 400 iff no uid; 404 iff the uid is unknown. A returned movie exists and is never excluded. No positive history gives a random fallback. 500 iff the history is positive and some preferred list is empty. Otherwise the answer is a top candidate, or the random fallback when there is none. |
| Recommender.RecommendGuarded | backend/server.js:122-167 | The corrected handler never answers 500. With positive history it returns a top-scoring candidate whenever one exists, else the random fallback. Its 400/404 cases and the exclusion guarantee are those of `Recommend`. |
| Recommender.DramaFanActivity | backend/server.js:77-96 | On the example database the user's exclusion set is {1,2,3} and the positive set is {1,2}. |
| Recommender.DramaFanProfile | backend/server.js:113-119 | On the example database the preferred genres are {1,2}, the actors {} and the directors {1}. |
| Recommender.DramaFanCandidates | backend/server.js:127-139 | On the example database the only candidate is movie 4. |
| Recommender.EmptyActorListFails | backend/server.js:130-134 | As written, the example request fails with 500 because the actor list is empty. The intended plan scores movie 4. |
| Handlers.AddUser | backend/server.js:35-56 | 400 iff uid or email is missing. Created iff the uid is new, with the new row `(newId, email, name or null)`. An existing uid answers 200 and changes nothing. Other users and tables are untouched. |
| Handlers.SwipeOn | backend/server.js:175-211 | 400 iff a field is missing, or the action is not like/dislike/watchlist for a known user. 404 iff the user is unknown or has the falsy id 0. like/dislike upserts liked = 1/0. watchlist inserts a new row with watched = 0, or keeps an existing row and its watched flag. Nothing else changes. |
| Handlers.RemoveFromWatchlist | backend/server.js:238-255 | 400 iff uid or movieId is missing; 404 iff the user is unknown. On success the (user, movie) row is gone and nothing else changes. |
| Handlers.SetWatched | backend/server.js:259-281 | The uid comes from the body, else the query. 400/404 as for the other handlers. On success an existing row gets the new flag, an absent row stays absent, and the watchlist keys are unchanged. |
| Handlers.WatchlistOf | backend/server.js:214-235 | 400 iff no uid; 404 iff the user is unknown. Otherwise the items are exactly the user's watchlisted movies that have a movies row (the join), each with its watched flag. |
| Handlers.SwipeIdempotent | backend/server.js:186-204 | Replaying any swipe request changes neither the status nor the tables. |
| Handlers.LastSwipeWins | backend/server.js:186-195 | Of two like/dislike swipes on a movie, the second decides the stored flag. |
| Handlers.WatchlistSwipeKeepsWatched | backend/server.js:197-204 | A watchlist swipe on a movie already on the watchlist leaves every table as it was. |
| Handlers.SwipedMovieExcluded | backend/server.js:95-96 | After an accepted swipe the movie is in the user's exclusion set (lines 186-204). A like or watchlist swipe makes it positive; a dislike makes it not liked. |
| Handlers.RemoveIdempotent | backend/server.js:238-255 | Removing a watchlist entry twice is the same as removing it once. |
| Handlers.RemovedMovieEligibleAgain | backend/server.js:249 | A removed watchlist movie that the user never swiped on leaves the exclusion set (lines 95-96). |
| Handlers.SetWatchedKeepsActivity | backend/server.js:272-275 | Toggling watched changes no user's exclusion or positive set. |
| Handlers.WatchlistToggleScenario | backend/server.js:259-281 | Adding to the watchlist, marking watched, then unwatched leaves one row with watched = 0 and the same watchlist keys. |
| Handlers.Store.constructor | backend/server.js:12-20 | Model scaffolding (the pool opens an existing database): the store starts with empty tables and the users counter at 1. |
| Handlers.Store.CreateUser | backend/server.js:35-56 | Status and new tables are those of `AddUser`, with the id from the auto-increment counter, which advances by one exactly when a user is created. Users keep distinct ids, and a created user's id is fresh. |
| Handlers.Store.Swipe | backend/server.js:175-211 | Status and new tables are those of `SwipeOn` on the old tables. |
| Handlers.Store.Unwatchlist | backend/server.js:238-255 | Status and new tables are those of `RemoveFromWatchlist` on the old tables. |
| Handlers.Store.MarkWatched | backend/server.js:259-281 | Status and new tables are those of `SetWatched` on the old tables. |
| Tokenizer.Split | data/import_movies.js:33 | `split(',')` always yields at least one piece. |
| Tokenizer.SplitJoin | data/import_movies.js:33 | Joining the pieces of `split(',')` with ',' gives back the input; with `SplitPiecesNoComma` this pins the pieces down. |
| Tokenizer.TrimStartShape | data/import_movies.js:33 | The trimmed start is a suffix of the input after a whitespace-only prefix, and does not start with whitespace. |
| Tokenizer.TrimEndShape | data/import_movies.js:33 | The trimmed end is a prefix of the input before a whitespace-only suffix, and does not end with whitespace. |
| Tokenizer.TrimShape | data/import_movies.js:33 | `s.trim()` is `s` without a whitespace-only prefix and suffix, and has no surrounding whitespace. |
| Tokenizer.TrimSpacePrefix | data/import_movies.js:52 | Leading whitespace does not change the trimmed value. |
| Tokenizer.TrimSpaceSuffix | data/import_movies.js:52 | Trailing whitespace does not change the trimmed value. |
| Tokenizer.SplitNoComma | data/import_movies.js:33 | A comma-free string splits into itself alone. |
| Tokenizer.SplitPrefix | data/import_movies.js:33 | A comma-free prefix is glued to the first piece. |
| Tokenizer.SplitSuffix | data/import_movies.js:33 | A comma-free suffix is glued to the last piece. |
| Tokenizer.SplitPiecesNoComma | data/import_movies.js:33 | No piece of `split(',')` contains a comma. |
| Tokenizer.NonEmptyAppend | data/import_movies.js:33 | `filter(Boolean)` distributes over concatenation and keeps the order. |
| Tokenizer.NonEmptyMembers | data/import_movies.js:33 | `filter(Boolean)` keeps exactly the non-empty elements. |
| Tokenizer.TokensWellFormed | data/import_movies.js:33 | Every genre token is non-empty, comma-free and has no surrounding whitespace. |
| Tokenizer.TokensMembers | data/import_movies.js:33 | The tokens are exactly the non-empty trimmed pieces between commas. |
| Tokenizer.TokensOfTrim | data/import_movies.js:65 | Tokenizing the trimmed Genre field (second pass) gives the same tokens as the raw field (first pass, line 33). |
| Importer.NamesAppend | data/import_movies.js:33 | The names of a concatenation are the union of the names. |
| Importer.LinkNamesCollected | data/import_movies.js:33-37 | For every domain, the names the second pass looks up for a row are exactly those the first pass collected from it (lines 64-86). |
| Importer.RowNamesShape | data/import_movies.js:33-37 | Collected genres are well-formed tokens. Collected actors are non-empty and already trimmed. |
| Tokenizer.TrimIdempotent | data/import_movies.js:36 | Trimming twice is trimming once. |
| Importer.BlankDirectorCollected | data/import_movies.js:34 | A whitespace-only Director is truthy, so it is collected as the empty name (and linked at line 73). |
| Importer.CollectedExactly | data/import_movies.js:23-43 | A name is collected for a domain iff some row yields it. |
| Importer.FirstPassCollect | data/import_movies.js:23-43 | The three sets are exactly the names collected from all rows. |
| Importer.AddGenres | data/import_movies.js:33 | Adds exactly the row's genre tokens to the set. |
| Importer.AddStars | data/import_movies.js:35-38 | Adds exactly the row's non-empty trimmed Star1..Star4 to the set. |
| Importer.NonEmptyTrimAllStep | data/import_movies.js:35-38 | One more star adds its trimmed value to the list iff it is non-empty. |
| Importer.InsertAllSemantics | data/import_movies.js:67 | A link table stays duplicate-free under INSERT IGNORE and afterwards holds exactly the old rows plus the inserted ones. |
| Importer.InsertAllPresent | data/import_movies.js:67 | Re-inserting rows that are all present is a no-op. |
| Importer.InsertAllAppend | data/import_movies.js:64-88 | Inserting two batches in order equals inserting their concatenation. |
| Importer.LinksForSnoc | data/import_movies.js:65-69 | One more name adds its link row at the end. |
| Importer.InsertAllSnoc | data/import_movies.js:66-69 | One more INSERT IGNORE after a batch. |
| Importer.RepeatedGenreOneLink | data/import_movies.js:65-69 | A genre repeated in one Genre field yields a single link row. |
| Importer.LookupTable.constructor | data/import_movies.js:9-21 | Model scaffolding (the script writes to existing tables): an empty lookup table with its counter at 1. |
| Importer.LookupTable.Upsert | data/import_movies.js:11-18 | An existing name returns its id and leaves the table alone. A new name gets an id used by no other name and is added. The table stays injective. |
| Importer.MovieTable.constructor | data/import_movies.js:57-62 | Model scaffolding: an empty movies table with its counter at 1. |
| Importer.MovieTable.Insert | data/import_movies.js:57-62 | The row is stored under the next auto-increment id, which was unused, and the counter advances. |
| Importer.LinkTable.constructor | data/import_movies.js:67 | Model scaffolding: an empty link table. |
| Importer.LinkTable.Insert | data/import_movies.js:67 | INSERT IGNORE of one link row. |
| Importer.CatalogDb.constructor | data/import_movies.js:96-101 | Model scaffolding for the connection: a fresh, valid, empty catalog. |
| Importer.DomainTables | data/import_movies.js:107-111 | The catalog's tables are distinct per domain and each is valid. |
| Importer.UpsertAndMap | data/import_movies.js:9-21 | The returned map has exactly the items as keys, each mapped to its id in the table. The table gains exactly the items, and existing names keep their ids. |
| Importer.CollectedResolves | data/import_movies.js:64-88 | Every `maps.X.get(name)` of the second pass finds a key when the maps cover the first pass's sets, so no insert is given an undefined id. |
| Importer.MoviesAddedStep | data/import_movies.js:57-62 | One more movie insert keeps "row k is stored under start + k, old rows untouched". |
| Importer.ResolvesLists | data/import_movies.js:64-88 | Resolving rows give resolving name lists. |
| Importer.LinksOfListsRange | data/import_movies.js:62-88 | Every link of the second pass carries one of the new movie ids. |
| Importer.LinksOfListsMovie | data/import_movies.js:62-88 | The links under the i-th new id are exactly that row's links. |
| Importer.LinksOfListsSameIds | data/import_movies.js:68 | Resolving through an extension of the map gives the same links. |
| Importer.PassLinksOfRow | data/import_movies.js:62-88 | With a table holding no link for the new ids, the table after the pass holds under id start + i exactly row i's links. |
| Importer.PassLinksSameIds | data/import_movies.js:107-114 | The pass resolved through the seeding maps inserts the same links as through any table agreeing with them. |
| Importer.ResolvesPrefix | data/import_movies.js:49 | A prefix of resolving rows resolves. |
| Importer.LinkAll | data/import_movies.js:65-70 | The genre loop inserts exactly the row's links, in order, with INSERT IGNORE. |
| Importer.InsertRow | data/import_movies.js:50-88 | One row: the movie under the next id, then its genre, director and actor links under that id. |
| Importer.LinkDirector | data/import_movies.js:73-78 | At most one director link, present iff the Director field is non-empty. |
| Importer.LinkActors | data/import_movies.js:80-88 | The star loop inserts exactly the links of the non-empty trimmed stars, in order. |
| Importer.ActorStep | data/import_movies.js:81-87 | One star adds its link iff its trimmed value is non-empty. |
| Importer.SecondPassInsert | data/import_movies.js:45-92 | Row k is stored under start + k and old movies are untouched. Each link table receives exactly the rows' links in order. The lookup tables are unchanged. |
| Importer.LinksStep | data/import_movies.js:49-88 | A link table after one more row, in terms of the pass so far. |
| Importer.PassStep | data/import_movies.js:49 | Resolving carries over to the row prefixes. |
| Importer.PassLinksSnoc | data/import_movies.js:49-88 | The links of one more row are appended to the pass's links. |
| Importer.LinksOfListsSnoc | data/import_movies.js:62-88 | One more list contributes its links under the next id. |
| Importer.ImportedLinks | data/import_movies.js:107-114 | Links inserted through the seeding maps are the links resolved through the lookup tables. |
| Importer.SeedLookups | data/import_movies.js:106-111 | Each lookup table interns its name set, and the returned maps agree with the tables. Movies and link tables are unchanged. |
| Importer.ImportMovies | data/import_movies.js:94-118 | Each lookup table gains exactly the collected names, and old names keep their ids. Row k becomes movie start + k. Every name of every row resolves in its lookup table. Each link table receives exactly the rows' links, resolved through the tables. |

## Left out

- HTTP and Express wiring (routing, CORS, JSON bodies, `app.listen`) are not modelled. The handlers take the parsed request fields as parameters.
- The MySQL pool and connection, and the SQL text itself, are not modelled. The tables are values (`Db`) or object fields (`Store`, `CatalogDb`).
- The `IN ()` syntax error is the one SQL failure modelled; see Findings. Other query failures that answer 500 in the `catch` blocks are not modelled.
- Whether `ORDER BY RAND()` is uniform is not modelled. The random pick and the tie-break among equal scores are nondeterministic choices.
- Movie details in responses (title, genre, rating, poster) are not modelled. Responses carry the movie id, and GET /api/watchlist carries movie id → watched.
- `parseInt`/`parseFloat` of the year and rating are not modelled, so year and rating are kept as the raw column text.
- CSV parsing and streaming, file paths, console logging, `conn.end()` and the `main().catch` exit are not modelled. The CSV is a sequence of `Row` values whose fields are all present.
- A short CSV row is not modelled. csv-parser omits the keys of missing columns. Director and Star1..Star4 then read as falsy and are skipped (data/import_movies.js:34, 36, 73, 82), which the model gets by treating them as "". A missing Genre, Series_Title or Poster_Link makes `.split`/`.trim` throw on `undefined` (lines 33, 50, 52, 54), which aborts the import; the model has no such failure.
- String comparison under MySQL collations is not modelled. Firebase uids (`Handlers.LookupUser`, backend/server.js:25) and lookup names (`Importer.LookupTable`, data/import_movies.js:12-14) are compared as exact strings. Under MySQL's default case- and accent-insensitive collation, "Drama" and "drama" share one row and one id.
- Importer.LookupTable.Upsert: "a new name gets an id used by no other name" holds only under a binary collation. Under the default collation a name differing from a stored one only in case or accents returns the stored id.
- Concurrency between requests is not modelled, nor between the import's awaits. Each operation runs alone.
- Foreign keys and the schema's other constraints are not modelled. The schema is not part of this model.
- Auto-increment ids are contiguous counters. Gaps after failed inserts are not modelled.
- The email and name of a user are stored only. Nothing reads them.
- Importer.SecondPassInsert: requires that every name a row looks up is a key of `maps`. With a missing key `maps.X.get` gives `undefined`, and the insert would fail. `CollectedResolves` proves that `main` always meets this.
- Importer.InsertRow: requires the same of one row, for the same reason.
- Importer.UpsertAndMap: iterates the set in an unspecified order. The ids handed to new names therefore depend on that order, and the contract states only that they are fresh and distinct.

## Findings

| source | as written | input that shows it | evidently intended | confidence | as-written member | corrected member |
|---|---|---|---|---|---|---|
| backend/server.js:130-134 | The recommend query joins each preferred id list into `IN (…)`. An empty list (line 113-115 found no genre, actor or director for the positive movies) makes `IN ()`, a MySQL syntax error, so the request answers 500. | The user liked movies 1 and 2, and no movie has actor links (`Recommender.DramaFan`). The actor list is empty, so GET /api/movies fails, although movie 4 shares genre 1 with liked movie 1. | An empty preferred list matches no row. Movie 4 is recommended with score 1. | not executed | Recommender.EmptyActorListFails | Recommender.RecommendGuarded |
