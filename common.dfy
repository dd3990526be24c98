/** Shared vocabulary of the FilmSwipe model: optional values, the integer
    ids MySQL hands out, and the rows of the three movie/attribute link
    tables (movie_genres, movie_actors, movie_directors). */
module Common {

  datatype Option<T> = None | Some(value: T)

  type UserId = nat
  type MovieId = nat
  type AttrId = nat

  /** One row of a link table: (movie_id, genre_id | actor_id | director_id). */
  datatype Link = Link(movie: MovieId, attr: AttrId)

  /** No element occurs twice (a table with a unique key on the whole row). */
  predicate NoDup<T(==)>(s: seq<T>) {
    forall i, j :: 0 <= i < j < |s| ==> s[i] != s[j]
  }
}
