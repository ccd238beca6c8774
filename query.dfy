/** Order-preserving row selection: the boolean-mask filtering the handlers
    apply to a table, and the exact-key lookup on `movieId`. */
module Query {

  /** `a` is obtained from `b` by deleting some elements, keeping the order of the rest. */
  ghost predicate IsSubsequence<T>(a: seq<T>, b: seq<T>)
    decreases |b|
  {
    if b == [] then a == []
    else (a != [] && a[0] == b[0] && IsSubsequence(a[1..], b[1..])) || IsSubsequence(a, b[1..])
  }

  /** `r` holds exactly the rows of `rows` that satisfy `keep`: it is a
      subsequence of `rows`, every element satisfies `keep`, and every
      satisfying value occurs in `r` as often as in `rows`. */
  ghost predicate SelectsExactly<T(!new)>(r: seq<T>, rows: seq<T>, keep: T -> bool)
  {
    && IsSubsequence(r, rows)
    && (forall i :: 0 <= i < |r| ==> keep(r[i]))
    && (forall x :: multiset(r)[x] == if keep(x) then multiset(rows)[x] else 0)
  }

  /** The rows of `rows` that satisfy `keep`, in their original order
      (a boolean mask applied to a data frame). */
  function Filter<T(!new)>(rows: seq<T>, keep: T -> bool): (r: seq<T>)
    ensures SelectsExactly(r, rows, keep)
    decreases |rows|
  {
    if rows == [] then []
    else
      var rest := Filter(rows[1..], keep);
      assert rows == [rows[0]] + rows[1..];
      if keep(rows[0]) then
        assert ([rows[0]] + rest)[1..] == rest;
        [rows[0]] + rest
      else
        rest
  }

  /** `rows[k]` is the first row that satisfies `keep`. */
  ghost predicate IsFirstMatch<T>(rows: seq<T>, keep: T -> bool, k: int)
  {
    0 <= k < |rows| && keep(rows[k]) && forall j :: 0 <= j < k ==> !keep(rows[j])
  }

  /** A selection is empty exactly when no row satisfies the test. */
  lemma FilterEmptyIff<T(!new)>(rows: seq<T>, keep: T -> bool)
    ensures Filter(rows, keep) == [] <==> forall i :: 0 <= i < |rows| ==> !keep(rows[i])
  {
  }

  /** The first element of a non-empty selection is the first satisfying row of the table. */
  lemma {:induction false} FilterHeadIsFirstMatch<T(!new)>(rows: seq<T>, keep: T -> bool)
    ensures Filter(rows, keep) != [] ==>
              exists k :: IsFirstMatch(rows, keep, k) && Filter(rows, keep)[0] == rows[k]
    decreases |rows|
  {
    if Filter(rows, keep) != [] {
      if keep(rows[0]) {
        assert IsFirstMatch(rows, keep, 0);
      } else {
        FilterHeadIsFirstMatch(rows[1..], keep);
        var k :| IsFirstMatch(rows[1..], keep, k) && Filter(rows[1..], keep)[0] == rows[1..][k];
        assert IsFirstMatch(rows, keep, k + 1);
      }
    }
  }

  /** Filters that agree on every row of the table select the same rows. */
  lemma {:induction false} FilterAgreeing<T(!new)>(rows: seq<T>, p: T -> bool, q: T -> bool)
    requires forall i :: 0 <= i < |rows| ==> p(rows[i]) == q(rows[i])
    ensures Filter(rows, p) == Filter(rows, q)
    decreases |rows|
  {
    if rows != [] {
      forall i | 0 <= i < |rows[1..]| ensures p(rows[1..][i]) == q(rows[1..][i]) {
        assert rows[1..][i] == rows[i + 1];
      }
      FilterAgreeing(rows[1..], p, q);
    }
  }

  /** Applying two filters one after the other does not depend on their order. */
  lemma {:induction false} FilterCommutes<T(!new)>(rows: seq<T>, p: T -> bool, q: T -> bool)
    ensures Filter(Filter(rows, p), q) == Filter(Filter(rows, q), p)
    decreases |rows|
  {
    if rows != [] {
      FilterCommutes(rows[1..], p, q);
      var x, rest := rows[0], rows[1..];
      if p(x) {
        assert ([x] + Filter(rest, p))[1..] == Filter(rest, p);
      }
      if q(x) {
        assert ([x] + Filter(rest, q))[1..] == Filter(rest, q);
      }
    }
  }

  /** Subsequence is reflexive. */
  lemma {:induction false} SubsequenceRefl<T>(a: seq<T>)
    ensures IsSubsequence(a, a)
    decreases |a|
  {
    if a != [] {
      SubsequenceRefl(a[1..]);
    }
  }

  /** Subsequence is transitive: a selection from a selection is a selection. */
  lemma {:induction false} SubsequenceTrans<T>(a: seq<T>, b: seq<T>, c: seq<T>)
    requires IsSubsequence(a, b) && IsSubsequence(b, c)
    ensures IsSubsequence(a, c)
    decreases |c|
  {
    if c == [] {
    } else if b != [] && b[0] == c[0] && IsSubsequence(b[1..], c[1..]) {
      if a != [] && a[0] == b[0] && IsSubsequence(a[1..], b[1..]) {
        SubsequenceTrans(a[1..], b[1..], c[1..]);
      } else {
        SubsequenceTrans(a, b[1..], c[1..]);
      }
    } else {
      SubsequenceTrans(a, b, c[1..]);
    }
  }

  /** A subsequence is never longer than the sequence it is taken from. */
  lemma {:induction false} SubsequenceShorter<T>(a: seq<T>, b: seq<T>)
    requires IsSubsequence(a, b)
    ensures |a| <= |b|
    decreases |b|
  {
    if b != [] {
      if a != [] && a[0] == b[0] && IsSubsequence(a[1..], b[1..]) {
        SubsequenceShorter(a[1..], b[1..]);
      } else {
        SubsequenceShorter(a, b[1..]);
      }
    }
  }

  /** The rows whose key column equals `id`, in table order; empty, not an
      error, when no row has that key. When not empty, its first element is
      the first row of the table with that key. */
  function FilterByKey<T(!new)>(rows: seq<T>, key: T -> int, id: int): (r: seq<T>)
    ensures IsSubsequence(r, rows)
    ensures forall i :: 0 <= i < |r| ==> key(r[i]) == id
    ensures forall x :: multiset(r)[x] == if key(x) == id then multiset(rows)[x] else 0
    ensures r == [] <==> forall i :: 0 <= i < |rows| ==> key(rows[i]) != id
    ensures r != [] ==>
              exists k :: 0 <= k < |rows| && r[0] == rows[k] && key(rows[k]) == id
                          && forall j :: 0 <= j < k ==> key(rows[j]) != id
  {
    var hasKey := (row: T) => key(row) == id;
    FilterEmptyIff(rows, hasKey);
    FilterHeadIsFirstMatch(rows, hasKey);
    Filter(rows, hasKey)
  }
}
