/** The four read-only tables of the movie-ratings dataset, one record type per
    table. Rows are held in the order the loader produced them. */
module Tables {
  import opened Wrappers

  /** A decimal cell such as a rating score, kept as `digits * 10^-scale`.
      The model never computes with it; it is passed through to responses. */
  datatype Decimal = Decimal(digits: int, scale: nat)

  /** A row of movies.csv; a missing title or genre list is `None`. */
  datatype Movie = Movie(movieId: int, title: Option<string>, genres: Option<string>)

  /** A row of ratings.csv. */
  datatype Rating = Rating(userId: int, movieId: int, rating: Decimal, timestamp: int)

  /** A row of tags.csv; a missing tag text is `None`. */
  datatype Tag = Tag(userId: int, movieId: int, tag: Option<string>, timestamp: int)

  /** A row of links.csv; a missing TMDB id is `None`. */
  datatype Link = Link(movieId: int, imdbId: int, tmdbId: Option<int>)

  /** The whole dataset, loaded once and never changed afterwards. */
  datatype Dataset = Dataset(movies: seq<Movie>, ratings: seq<Rating>, tags: seq<Tag>, links: seq<Link>)

  function MovieKey(m: Movie): int { m.movieId }
  function RatingKey(r: Rating): int { r.movieId }
  function TagKey(t: Tag): int { t.movieId }
  function LinkKey(l: Link): int { l.movieId }
}
