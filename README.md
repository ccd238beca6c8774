# Movie-ratings query API, modelled in Dafny

This project models the read-only movie-ratings web service of `main.py`.
The service loads four tables once: movies, ratings, tags and links. It then
answers eight GET endpoints over them:

- `/movies`, `/ratings`, `/tags` and `/links` each return one page of their
  table. The page sits inside an envelope that echoes `page` and `per_page`
  and reports `total_pages` and `total_items`.
- `/movies` first narrows the movies table with optional `title` and `genre`
  searches. Each search is a case-insensitive pattern test; the model treats
  the pattern as plain text (see "Left out").
- `/movies/<id>` and `/links/<id>` return the first row whose `movieId`
  matches. `/ratings/<id>` and `/tags/<id>` return every matching row. All
  four answer 404 when nothing matches.
- The `page` and `per_page` arguments default to 1 and 10. Anything that is
  not an integer of at least 1 gives a 400 whose message starts with
  `Invalid pagination parameters: `.

Everything in the model is a pure function over immutable sequences, as in
`main.py`: the tables are never changed after loading.

Modules:

- `Wrappers` (`wrappers.dfy`): `Option` and `Result`.
- `Tables` (`tables.dfy`): one record type per table, and the `Dataset`.
- `Query` (`query.dfy`): order-preserving filtering, the exact-key lookup on
  `movieId`, and the subsequence relation used to state both.
- `Pagination` (`pagination.dfy`): page count, page slice, and the proof that
  the pages together give back the table.
- `Search` (`search.dfy`): substring containment, ASCII case folding, and the
  title and genre filters.
- `Params` (`params.dfy`): integer conversion of the query arguments and their
  validation.
- `Endpoints` (`endpoints.dfy`): the eight endpoints and the shapes of their
  responses.

The 404 body is always `{"error": "Resource not found"}`. Each lookup
endpoint passes a message naming the missing movie to the 404 handler, but
the handler ignores its argument (main.py:36-38). The model follows the code
(`Endpoints.NotFoundMessage`), not a design in which the message names the
resource.

## Model

| member | source | states |
|---|---|---|
| `Query.Filter` | main.py:22 | A boolean-mask selection keeps exactly the rows that satisfy the test. The result is a subsequence of the table, every element satisfies the test, and each satisfying row appears as often as in the table. |
| `Query.FilterByKey` | main.py:21-22 | The `movieId` lookup returns exactly the rows with that key, in table order. It is empty, not an error, exactly when no row has the key. When non-empty, its first element is the first row of the table with that key. |
| `Query.FilterEmptyIff` | main.py:22 | A selection is empty if and only if no row of the table satisfies the test. |
| `Query.FilterHeadIsFirstMatch` | main.py:77-80 | The first element of a non-empty selection is the table's first satisfying row, which is what `movie[0]` and `link[0]` return. |
| `Query.FilterCommutes` | main.py:56-62 | Two filters applied in either order select the same rows in the same order. |
| `Pagination.Paginate` | main.py:13-18 | The page holds at most `per_page` rows. It is empty when its first index is at or past the end. Otherwise it holds `min(per_page, total - start)` rows, and item `i` is table row `start + i`. The page count returned is the ceiling-division count. |
| `Pagination.NextStart` | main.py:16-17 | A page starts at a non-negative index, and each page starts `per_page` rows after the previous one, so consecutive pages are adjacent. |
| `Pagination.TotalPagesBounds` | main.py:14-15 | The page count is 0 exactly when the table is empty. All rows fit in that many pages. When rows exist, one page fewer would not hold them all. |
| `Pagination.PageEmptyIff` | main.py:15-18 | A page is empty if and only if its number exceeds the page count; a page past the end is an empty list, not an error. |
| `Pagination.PagesUpToPrefix` | main.py:16-18 | Pages 1 to `n`, read in order, are the table's rows before page `n + 1`. |
| `Pagination.PagesCoverRows` | main.py:13-18 | Pages 1 to the page count, read in order, reproduce the table exactly, with no row lost or repeated. |
| `Search.Contains` | main.py:58 | Containment holds if and only if the needle occurs in the text at some index. |
| `Search.FilterTitle` | main.py:57-58 | With a non-empty title search, keeps exactly the movies whose title contains it ignoring case, in order. A missing title never matches. With no search or an empty one, the table is unchanged. |
| `Search.FilterGenre` | main.py:61-62 | The same for the genre filter on the `genres` column. |
| `Search.SearchMovies` | main.py:52-62 | The search result is a subsequence of the movies table. It holds exactly the movies that pass every search asked for, each as often as in the table. Searching on a column drops movies with no value there. With neither search, it is the whole table. |
| `Search.SearchOrderIrrelevant` | main.py:56-62 | Running the genre filter before the title filter gives the same result. |
| `Search.SearchIgnoresCase` | main.py:58-62 | Search strings that differ only in letter case select the same movies. |
| `Params.ParseInt` | main.py:27-28 | Conversion succeeds if and only if the text is an optional minus sign followed by at least one digit. Text without a sign gives a non-negative value. |
| `Params.ShowNatRoundTrip` | main.py:27-28 | The digits of a number's decimal rendering read back as that number. |
| `Params.ParseShownNat` | main.py:27-28 | Converting the decimal rendering of a natural number gives that number. |
| `Params.LeadingZeroIgnored` | main.py:27-28 | A leading zero before a digit string does not change the converted value, so `007` converts to 7. |
| `Params.ParseNegated` | main.py:27-28 | A minus sign before a number's decimal rendering converts to the negated number. |
| `Params.ParseArg` | main.py:27-28 | An absent argument takes its default. A present one converts if and only if it is an integer literal, and to its value. A failure carries a reason naming the refused text, in the form `invalid literal for int() with base 10: '<text>'`. |
| `Params.ParsePaginationArgs` | main.py:25-33 | An accepted pair has `page >= 1` and `per_page >= 1`, each being its argument's value or default. Every error description starts with `Invalid pagination parameters: `. The call fails if and only if a conversion fails or a value is below 1. |
| `Params.DefaultsAreFirstPageOfTen` | main.py:27-28 | With neither argument, the request is page 1 of 10 rows. |
| `Params.ValidArgsAccepted` | main.py:25-33 | Any two positive numbers written in decimal are accepted unchanged. |
| `Params.ZeroRejected` | main.py:29-32 | A page or page size of 0 is refused with `Page and per_page must be positive integers.` after the prefix. |
| `Params.NonIntegerRejected` | main.py:26-32 | A page argument that is not an integer is refused with a reason quoting it. The page argument is checked before `per_page`. |
| `Endpoints.ListPage` | main.py:64-73 | A bad pagination argument gives a 400 carrying the validation description. Otherwise the envelope echoes `page` and `per_page` and reports the whole table's size as `total_items`. `total_pages` is the ceiling-division page count, and the items are that page's slice. The items are empty exactly when `page` is past `total_pages`. |
| `Endpoints.GetMovies` | main.py:49-73 | A list response, as for `ListPage`, over the search result. `total_items` is the size of the search result, never more than the movies table. Every listed movie passes the searches. |
| `Endpoints.GetMovieById` | main.py:75-80 | 404 with `Resource not found` if and only if no movie has the id; otherwise the first movie with that id. |
| `Endpoints.GetRatings` | main.py:83-93 | A list response, as for `ListPage`, over the whole ratings table: 400 on bad pagination arguments, else the requested page with `total_items` the size of the table. |
| `Endpoints.GetRatingsByMovie` | main.py:95-100 | 404 with `Resource not found` if and only if no rating has the id. Otherwise it returns exactly the ratings with that id, in table order. |
| `Endpoints.GetTags` | main.py:103-113 | A list response, as for `ListPage`, over the whole tags table: 400 on bad pagination arguments, else the requested page with `total_items` the size of the table. |
| `Endpoints.GetTagsByMovie` | main.py:115-120 | 404 with `Resource not found` if and only if no tag has the id. Otherwise it returns exactly the tags with that id, in table order. |
| `Endpoints.GetLinks` | main.py:123-133 | A list response, as for `ListPage`, over the whole links table: 400 on bad pagination arguments, else the requested page with `total_items` the size of the table. |
| `Endpoints.GetLinkByMovie` | main.py:135-140 | 404 with `Resource not found` if and only if no link row has the id; otherwise the first link row with that id. |
| `Endpoints.ListCountsIndependentOfPage` | main.py:67-73 | For valid arguments, `total_items` and `total_pages` do not depend on the page asked for. `page` and `per_page` are echoed unchanged, even past the last page. |

## Left out

- Loading the CSV files (main.py:7-10) is file I/O; the four tables are given as sequences of rows.
- Flask routing, `request.args`, `jsonify`, `abort`, error-handler registration and `app.run` are framework plumbing. Requests are function arguments and responses are the `Endpoints.Response` datatype. The 200 status of a success is implicit.
- `Endpoints.Envelope` holds its rows in a field named `items`. The JSON key is the table's name (`movies`, `ratings`, `tags` or `links`); that key name is not modelled.
- The 500 handler (main.py:44-46) is left out. `main.py` reaches an unexpected error only through the regular-expression behaviour of the movie search described on the next line, which the model does not capture.
- `Search.Contains`: `str.contains` (main.py:58, 62) compiles the search text as a case-insensitive regular expression; the model uses plain substring containment. Two consequences are not modelled: a malformed pattern such as `(` raises an error that nothing catches, so the request ends in a server error; and metacharacters change what matches, so `Toy Story (1995)` does not match the title `Toy Story (1995)`, because the parentheses form a group.
- Case-insensitive matching folds ASCII letters only (`Search.LowerChar`); Unicode case folding is not modelled.
- `Params.ParseInt`: Python's `int()` also accepts surrounding whitespace, a `+` sign, underscores between digits and non-ASCII digits; the model refuses those.
- `Params.ParseArg`: the failure reason quotes the raw text in full between single quotes. Python's `repr` switches to double quotes when the text contains a single quote and no double quote (with both present it keeps single quotes and escapes the single quote as `\'`), escapes backslashes and control characters, and cuts the quoted text at 200 characters.
- `Params.ParseArg`: recent Python versions refuse decimal text longer than 4300 digits with a different `ValueError`, which becomes a 400. The model accepts a literal of any length and serves the page.
- `Pagination.Paginate` requires `page >= 1` and `per_page >= 1`. Every caller passes validated values. Python's behaviour for a zero or negative page size is not modelled, and neither is negative slice indexing.
- Non-key columns are opaque values. A rating score is a `Tables.Decimal` that is never computed with, and pandas' use of floating-point NaN for missing numbers appears only as `None` in the nullable columns.
- A table lookup by name, and the error for an unknown table name, do not exist in the code; the four tables are fields of `Tables.Dataset`.
- The `<int:movie_id>` route accepts only non-negative integers, so the endpoint id is a `nat`. A path that is not an integer never reaches the model.
