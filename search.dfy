/** The title and genre search of the movies list: case-insensitive substring
    tests on a nullable text column, applied one after the other. */
module Search {
  import opened Wrappers
  import opened Tables
  import opened Query

  /** ASCII lower-casing of one character. */
  function LowerChar(c: char): char
  {
    if 'A' <= c <= 'Z' then (c as int - 'A' as int + 'a' as int) as char else c
  }

  function Lower(s: string): string
  {
    seq(|s|, i requires 0 <= i < |s| => LowerChar(s[i]))
  }

  /** `needle` occurs in `text` starting at index `i`. */
  ghost predicate OccursAt(text: string, needle: string, i: int)
  {
    0 <= i && i + |needle| <= |text| && text[i..i + |needle|] == needle
  }

  /** An occurrence at index 0 is a prefix; any other occurrence is an
      occurrence in the text without its first character. */
  lemma ShiftOccurrences(text: string, needle: string)
    requires text != [] && !(needle <= text)
    ensures (exists i :: OccursAt(text, needle, i)) <==> (exists i :: OccursAt(text[1..], needle, i))
  {
    forall i | OccursAt(text[1..], needle, i) ensures OccursAt(text, needle, i + 1) {
      assert text[i + 1..i + 1 + |needle|] == text[1..][i..i + |needle|];
    }
    forall i ensures OccursAt(text, needle, i) ==> OccursAt(text[1..], needle, i - 1) {
      if i >= 1 && OccursAt(text, needle, i) {
        assert text[1..][i - 1..i - 1 + |needle|] == text[i..i + |needle|];
      }
    }
  }

  /** Substring containment, scanning `text` from the left. */
  function Contains(text: string, needle: string): (b: bool)
    ensures b <==> exists i :: OccursAt(text, needle, i)
    decreases |text|
  {
    if needle <= text then
      assert OccursAt(text, needle, 0);
      true
    else if text == [] then
      assert forall i :: OccursAt(text, needle, i) ==> needle <= text;
      false
    else
      ShiftOccurrences(text, needle);
      Contains(text[1..], needle)
  }

  /** A nullable text cell contains `needle` ignoring case; a missing cell never matches. */
  predicate MatchesIgnoringCase(cell: Option<string>, needle: string)
  {
    cell.Some? && Contains(Lower(cell.value), Lower(needle))
  }

  /** An optional query argument selects a filter only when it is present and
      non-empty (the truthiness of the argument). */
  predicate Applies(arg: Option<string>)
  {
    arg.Some? && arg.value != ""
  }

  /** The movie passes every search that was asked for. */
  predicate Selected(m: Movie, title: Option<string>, genre: Option<string>)
  {
    && (Applies(title) ==> MatchesIgnoringCase(m.title, title.value))
    && (Applies(genre) ==> MatchesIgnoringCase(m.genres, genre.value))
  }

  /** The title filter, applied only when a title search is given. */
  function FilterTitle(movies: seq<Movie>, title: Option<string>): (r: seq<Movie>)
    ensures IsSubsequence(r, movies)
    ensures forall i :: 0 <= i < |r| ==> Selected(r[i], title, None)
    ensures forall m :: multiset(r)[m] == if Selected(m, title, None) then multiset(movies)[m] else 0
  {
    if Applies(title) then Filter(movies, (m: Movie) => MatchesIgnoringCase(m.title, title.value))
    else SubsequenceRefl(movies); movies
  }

  /** The genre filter, applied only when a genre filter is given. */
  function FilterGenre(movies: seq<Movie>, genre: Option<string>): (r: seq<Movie>)
    ensures IsSubsequence(r, movies)
    ensures forall i :: 0 <= i < |r| ==> Selected(r[i], None, genre)
    ensures forall m :: multiset(r)[m] == if Selected(m, None, genre) then multiset(movies)[m] else 0
  {
    if Applies(genre) then Filter(movies, (m: Movie) => MatchesIgnoringCase(m.genres, genre.value))
    else SubsequenceRefl(movies); movies
  }

  /** The movies list search: the title filter, then the genre filter. The
      result holds exactly the selected movies, in table order; a movie with
      a missing title or genre list is dropped by a search on that column. */
  function SearchMovies(movies: seq<Movie>, title: Option<string>, genre: Option<string>): (r: seq<Movie>)
    ensures IsSubsequence(r, movies)
    ensures forall i :: 0 <= i < |r| ==> Selected(r[i], title, genre)
    ensures forall m :: multiset(r)[m] == if Selected(m, title, genre) then multiset(movies)[m] else 0
    ensures Applies(title) ==> forall i :: 0 <= i < |r| ==> r[i].title.Some?
    ensures Applies(genre) ==> forall i :: 0 <= i < |r| ==> r[i].genres.Some?
    ensures !Applies(title) && !Applies(genre) ==> r == movies
  {
    var byTitle := FilterTitle(movies, title);
    var r := FilterGenre(byTitle, genre);
    SubsequenceTrans(r, byTitle, movies);
    r
  }

  /** The search does not depend on which filter runs first. */
  lemma SearchOrderIrrelevant(movies: seq<Movie>, title: Option<string>, genre: Option<string>)
    ensures SearchMovies(movies, title, genre) == FilterTitle(FilterGenre(movies, genre), title)
  {
    if Applies(title) && Applies(genre) {
      FilterCommutes(movies, (m: Movie) => MatchesIgnoringCase(m.title, title.value),
                             (m: Movie) => MatchesIgnoringCase(m.genres, genre.value));
    }
  }

  /** Two search strings that agree up to case select the same movies. */
  lemma SearchIgnoresCase(movies: seq<Movie>, t1: string, t2: string, g1: string, g2: string)
    requires Lower(t1) == Lower(t2) && Lower(g1) == Lower(g2)
    ensures SearchMovies(movies, Some(t1), Some(g1)) == SearchMovies(movies, Some(t2), Some(g2))
  {
    if t1 != "" {
      FilterAgreeing(movies, (m: Movie) => MatchesIgnoringCase(m.title, t1),
                             (m: Movie) => MatchesIgnoringCase(m.title, t2));
    }
    var byTitle := FilterTitle(movies, Some(t1));
    if g1 != "" {
      FilterAgreeing(byTitle, (m: Movie) => MatchesIgnoringCase(m.genres, g1),
                              (m: Movie) => MatchesIgnoringCase(m.genres, g2));
    }
  }
}
