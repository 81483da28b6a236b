/** Python's `sorted` on a list of strings: the ascending permutation under
    Python's string order (compare code points left to right; a proper prefix
    comes first). */
module Sorting {

  /** `a <= b` on Python strings. */
  predicate AtMost(a: string, b: string)
    decreases |a|
  {
    a == [] || (b != [] && (a[0] < b[0] || (a[0] == b[0] && AtMost(a[1..], b[1..]))))
  }

  /** `a < b` on Python strings. */
  predicate Below(a: string, b: string) {
    AtMost(a, b) && a != b
  }

  predicate Ascending(s: seq<string>) {
    forall i, j :: 0 <= i < j < |s| ==> AtMost(s[i], s[j])
  }

  /** Strictly ascending: ascending without repeats. */
  predicate StrictlySorted(s: seq<string>) {
    forall i, j :: 0 <= i < j < |s| ==> Below(s[i], s[j])
  }

  predicate Distinct(s: seq<string>) {
    forall i, j :: 0 <= i < j < |s| ==> s[i] != s[j]
  }

  /** Insert `x` into an ascending list before the first element it does not exceed. */
  function Insert(x: string, s: seq<string>): (r: seq<string>)
    ensures multiset(r) == multiset(s) + multiset{x}
    ensures |r| == |s| + 1
  {
    if s == [] || AtMost(x, s[0]) then [x] + s
    else
      assert s == [s[0]] + s[1..];
      [s[0]] + Insert(x, s[1..])
  }

  /** `sorted(names)`. */
  function SortedNames(names: seq<string>): (r: seq<string>)
    ensures multiset(r) == multiset(names)
    ensures |r| == |names|
  {
    if names == [] then []
    else
      assert names == [names[0]] + names[1..];
      Insert(names[0], SortedNames(names[1..]))
  }

  // ---------------------------------------------------------------------
  // The string order is a total order

  lemma {:induction false} AtMostReflexive(a: string)
    ensures AtMost(a, a)
    decreases |a|
  {
    if a != [] {
      AtMostReflexive(a[1..]);
    }
  }

  lemma {:induction false} AtMostTotal(a: string, b: string)
    ensures AtMost(a, b) || AtMost(b, a)
    decreases |a|
  {
    if a != [] && b != [] && a[0] == b[0] {
      AtMostTotal(a[1..], b[1..]);
    }
  }

  lemma {:induction false} AtMostTransitive(a: string, b: string, c: string)
    requires AtMost(a, b) && AtMost(b, c)
    ensures AtMost(a, c)
    decreases |a|
  {
    if a != [] && a[0] == b[0] && b[0] == c[0] {
      AtMostTransitive(a[1..], b[1..], c[1..]);
    }
  }

  lemma {:induction false} AtMostAntisymmetric(a: string, b: string)
    requires AtMost(a, b) && AtMost(b, a)
    ensures a == b
    decreases |a|
  {
    if a != [] {
      AtMostAntisymmetric(a[1..], b[1..]);
      assert a == [a[0]] + a[1..] && b == [b[0]] + b[1..];
    }
  }

  /** Distinct strings are strictly ordered one way or the other. */
  lemma BelowTrichotomy(a: string, b: string)
    requires a != b
    ensures Below(a, b) != Below(b, a)
  {
    AtMostTotal(a, b);
    if AtMost(a, b) && AtMost(b, a) {
      AtMostAntisymmetric(a, b);
    }
  }

  // ---------------------------------------------------------------------
  // sorted() returns the ascending permutation

  lemma {:induction false} InsertAscending(x: string, s: seq<string>)
    requires Ascending(s)
    ensures Ascending(Insert(x, s))
    decreases |s|
  {
    var r := Insert(x, s);
    if s == [] || AtMost(x, s[0]) {
      forall i, j | 0 <= i < j < |r| ensures AtMost(r[i], r[j]) {
        if i == 0 && j > 1 {
          AtMostTransitive(x, s[0], s[j - 1]);
        }
      }
    } else {
      AtMostTotal(x, s[0]);
      var t := Insert(x, s[1..]);
      InsertAscending(x, s[1..]);
      forall k | 0 <= k < |t| ensures AtMost(s[0], t[k]) {
        assert t[k] in multiset(t);
        assert t[k] == x || t[k] in multiset(s[1..]);
        if t[k] != x {
          var m :| 0 <= m < |s[1..]| && s[1..][m] == t[k];
          assert s[m + 1] == t[k];
        }
      }
    }
  }

  lemma {:induction false} SortedNamesAscending(names: seq<string>)
    ensures Ascending(SortedNames(names))
    decreases |names|
  {
    if names != [] {
      SortedNamesAscending(names[1..]);
      InsertAscending(names[0], SortedNames(names[1..]));
    }
  }

  /** A list without repeats has, per element, a multiset count of one. */
  lemma {:induction false} DistinctCount(s: seq<string>, x: string)
    requires Distinct(s)
    ensures multiset(s)[x] <= 1
    decreases |s|
  {
    if s != [] {
      assert s == [s[0]] + s[1..];
      DistinctCount(s[1..], x);
      if x == s[0] {
        assert x !in s[1..];
      }
    }
  }

  /** A permutation of a list without repeats has no repeats. */
  lemma DistinctPermutation(s: seq<string>, t: seq<string>)
    requires Distinct(s) && multiset(s) == multiset(t)
    ensures Distinct(t)
  {
    forall i, j | 0 <= i < j < |t| ensures t[i] != t[j] {
      if t[i] == t[j] {
        var rest := t[..i] + t[i + 1..];
        assert t == t[..i] + [t[i]] + t[i + 1..];
        assert t[j] in rest by {
          assert rest[j - 1] == t[j];
        }
        assert multiset(t)[t[i]] == multiset(rest)[t[i]] + 1;
        DistinctCount(s, t[i]);
        assert false;
      }
    }
  }

  /** `sorted(names)` of distinct names is strictly ascending and a
      permutation of `names`. */
  lemma SortedDistinctNames(names: seq<string>)
    requires Distinct(names)
    ensures var r := SortedNames(names);
      multiset(r) == multiset(names) && Distinct(r) &&
      forall i, j :: 0 <= i < j < |r| ==> Below(r[i], r[j])
  {
    var r := SortedNames(names);
    SortedNamesAscending(names);
    DistinctPermutation(names, r);
  }
}
