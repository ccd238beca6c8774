/** The eight GET endpoints, as functions from the dataset and the request's
    arguments to the response: a list envelope, a row, a list of rows, or an
    error with its status and `error` message. */
module Endpoints {
  import opened Wrappers
  import opened Tables
  import opened Query
  import opened Pagination
  import opened Search
  import opened Params

  /** The `error` text of every 404 response, whatever the caller asked for. */
  const NotFoundMessage := "Resource not found"

  datatype Status = BadRequest | NotFound

  /** A response: a JSON body with status 200, or `{"error": error}` with an error status. */
  datatype Response<B> = Success(body: B) | Failure(status: Status, error: string)

  /** The body of a list endpoint. */
  datatype Envelope<T> = Envelope(page: int, perPage: int, totalPages: nat, totalItems: nat, items: seq<T>)

  /** `r` is a correct list response for `rows`: a 400 carrying the
      validation description when the pagination arguments are refused;
      otherwise the requested page with `page` and `per_page` echoed and the
      counts of the whole of `rows`. */
  ghost predicate IsListResponse<T>(r: Response<Envelope<T>>, rows: seq<T>,
                                    pageArg: Option<string>, perPageArg: Option<string>)
  {
    var parsed := ParsePaginationArgs(pageArg, perPageArg);
    && (r.Failure? <==> parsed.Err?)
    && (r.Failure? ==> r.status == BadRequest && r.error == parsed.error && ErrorPrefix <= r.error)
    && (r.Success? ==>
          && r.body.page == parsed.value.page && r.body.perPage == parsed.value.perPage
          && r.body.totalItems == |rows|
          && r.body.totalPages == TotalPages(|rows|, parsed.value.perPage)
          && r.body.items == Paginate(rows, parsed.value.page, parsed.value.perPage).items
          && (r.body.items == [] <==> r.body.page > r.body.totalPages))
  }

  /** The shared shape of the list endpoints: validate the pagination
      arguments, then serve one page of `rows` with the counts of the whole. */
  function ListPage<T>(rows: seq<T>, pageArg: Option<string>, perPageArg: Option<string>): (r: Response<Envelope<T>>)
    ensures IsListResponse(r, rows, pageArg, perPageArg)
  {
    match ParsePaginationArgs(pageArg, perPageArg)
    case Err(description) => Failure(BadRequest, description)
    case Ok(spec) =>
      PageEmptyIff(rows, spec.page, spec.perPage);
      var slice := Paginate(rows, spec.page, spec.perPage);
      Success(Envelope(spec.page, spec.perPage, slice.pages, |rows|, slice.items))
  }

  /** The shared shape of the movie and link lookups: the first match, or a 404. */
  function FirstOrNotFound<T>(matches: seq<T>): Response<T>
  {
    if matches == [] then Failure(NotFound, NotFoundMessage) else Success(matches[0])
  }

  /** The shared shape of the rating and tag lookups: every match, or a 404. */
  function AllOrNotFound<T>(matches: seq<T>): Response<seq<T>>
  {
    if matches == [] then Failure(NotFound, NotFoundMessage) else Success(matches)
  }

  /** GET /movies: the search result, paginated. */
  function GetMovies(db: Dataset, title: Option<string>, genre: Option<string>,
                     pageArg: Option<string>, perPageArg: Option<string>): (r: Response<Envelope<Movie>>)
    ensures IsListResponse(r, SearchMovies(db.movies, title, genre), pageArg, perPageArg)
    ensures r.Success? ==>
              && r.body.totalItems == |SearchMovies(db.movies, title, genre)|
              && r.body.totalItems <= |db.movies|
              && forall i :: 0 <= i < |r.body.items| ==> Selected(r.body.items[i], title, genre)
  {
    var found := SearchMovies(db.movies, title, genre);
    SubsequenceShorter(found, db.movies);
    match ParsePaginationArgs(pageArg, perPageArg)
    case Ok(spec) =>
      EveryListedMovieSelected(found, Paginate(found, spec.page, spec.perPage).items, title, genre);
      ListPage(found, pageArg, perPageArg)
    case Err(_) =>
      ListPage(found, pageArg, perPageArg)
  }

  /** Rows drawn from a search result pass the search. */
  lemma EveryListedMovieSelected(found: seq<Movie>, items: seq<Movie>, title: Option<string>, genre: Option<string>)
    requires forall i :: 0 <= i < |found| ==> Selected(found[i], title, genre)
    requires forall x :: x in items ==> x in found
    ensures forall i :: 0 <= i < |items| ==> Selected(items[i], title, genre)
  {
    forall i | 0 <= i < |items| ensures Selected(items[i], title, genre) {
      assert items[i] in found;
      var j :| 0 <= j < |found| && found[j] == items[i];
    }
  }

  /** GET /movies/<id>: the first movie with that id, or a 404. */
  function GetMovieById(db: Dataset, movieId: nat): (r: Response<Movie>)
    ensures r.Failure? <==> forall i :: 0 <= i < |db.movies| ==> db.movies[i].movieId != movieId
    ensures r.Failure? ==> r.status == NotFound && r.error == NotFoundMessage
    ensures r.Success? ==>
              exists k :: 0 <= k < |db.movies| && r.body == db.movies[k] && db.movies[k].movieId == movieId
                          && forall j :: 0 <= j < k ==> db.movies[j].movieId != movieId
  {
    FirstOrNotFound(FilterByKey(db.movies, MovieKey, movieId))
  }

  /** GET /ratings: one page of the ratings table. */
  function GetRatings(db: Dataset, pageArg: Option<string>, perPageArg: Option<string>): (r: Response<Envelope<Rating>>)
    ensures IsListResponse(r, db.ratings, pageArg, perPageArg)
  {
    ListPage(db.ratings, pageArg, perPageArg)
  }

  /** GET /ratings/<id>: every rating of that movie, in table order, or a 404. */
  function GetRatingsByMovie(db: Dataset, movieId: nat): (r: Response<seq<Rating>>)
    ensures r.Failure? <==> forall i :: 0 <= i < |db.ratings| ==> db.ratings[i].movieId != movieId
    ensures r.Failure? ==> r.status == NotFound && r.error == NotFoundMessage
    ensures r.Success? ==>
              && r.body != []
              && IsSubsequence(r.body, db.ratings)
              && (forall i :: 0 <= i < |r.body| ==> r.body[i].movieId == movieId)
              && forall x :: multiset(r.body)[x] == if x.movieId == movieId then multiset(db.ratings)[x] else 0
  {
    AllOrNotFound(FilterByKey(db.ratings, RatingKey, movieId))
  }

  /** GET /tags: one page of the tags table. */
  function GetTags(db: Dataset, pageArg: Option<string>, perPageArg: Option<string>): (r: Response<Envelope<Tag>>)
    ensures IsListResponse(r, db.tags, pageArg, perPageArg)
  {
    ListPage(db.tags, pageArg, perPageArg)
  }

  /** GET /tags/<id>: every tag of that movie, in table order, or a 404. */
  function GetTagsByMovie(db: Dataset, movieId: nat): (r: Response<seq<Tag>>)
    ensures r.Failure? <==> forall i :: 0 <= i < |db.tags| ==> db.tags[i].movieId != movieId
    ensures r.Failure? ==> r.status == NotFound && r.error == NotFoundMessage
    ensures r.Success? ==>
              && r.body != []
              && IsSubsequence(r.body, db.tags)
              && (forall i :: 0 <= i < |r.body| ==> r.body[i].movieId == movieId)
              && forall x :: multiset(r.body)[x] == if x.movieId == movieId then multiset(db.tags)[x] else 0
  {
    AllOrNotFound(FilterByKey(db.tags, TagKey, movieId))
  }

  /** GET /links: one page of the links table. */
  function GetLinks(db: Dataset, pageArg: Option<string>, perPageArg: Option<string>): (r: Response<Envelope<Link>>)
    ensures IsListResponse(r, db.links, pageArg, perPageArg)
  {
    ListPage(db.links, pageArg, perPageArg)
  }

  /** GET /links/<id>: the first link row of that movie, or a 404. */
  function GetLinkByMovie(db: Dataset, movieId: nat): (r: Response<Link>)
    ensures r.Failure? <==> forall i :: 0 <= i < |db.links| ==> db.links[i].movieId != movieId
    ensures r.Failure? ==> r.status == NotFound && r.error == NotFoundMessage
    ensures r.Success? ==>
              exists k :: 0 <= k < |db.links| && r.body == db.links[k] && db.links[k].movieId == movieId
                          && forall j :: 0 <= j < k ==> db.links[j].movieId != movieId
  {
    FirstOrNotFound(FilterByKey(db.links, LinkKey, movieId))
  }

  /** The counts of a list response do not depend on the page asked for, and
      the page and page size are echoed even past the last page. */
  lemma {:induction false} ListCountsIndependentOfPage<T>(rows: seq<T>, page1: nat, page2: nat, perPage: nat)
    requires page1 >= 1 && page2 >= 1 && perPage >= 1
    ensures
      var r1 := ListPage(rows, Some(ShowNat(page1)), Some(ShowNat(perPage)));
      var r2 := ListPage(rows, Some(ShowNat(page2)), Some(ShowNat(perPage)));
      && r1.Success? && r2.Success?
      && r1.body.page == page1 && r2.body.page == page2
      && r1.body.perPage == perPage && r2.body.perPage == perPage
      && r1.body.totalItems == r2.body.totalItems == |rows|
      && r1.body.totalPages == r2.body.totalPages
  {
    ValidArgsAccepted(page1, perPage);
    ValidArgsAccepted(page2, perPage);
  }
}
