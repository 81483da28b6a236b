/** The handful of Python string operations the pipeline relies on, with the
    semantics CPython gives them on byte strings:
    `p in s` (substring test), `s.replace(p, '')`, `s.split()`,
    `s.replace(' ', '_')` and `str(i)` for an integer. */
module Text {

  /** The characters `str.split()` with no argument treats as separators. */
  predicate IsSpace(c: char) {
    c == ' ' || c == '\t' || c == '\n' || c == '\r' || c == '\U{0B}' || c == '\U{0C}'
  }

  predicate StartsWith(s: string, p: string) {
    |p| <= |s| && s[..|p|] == p
  }

  /** Python's `p in s` for strings: `p` occurs in `s` at some offset. */
  predicate Contains(s: string, p: string)
    decreases |s|
  {
    StartsWith(s, p) || (s != [] && Contains(s[1..], p))
  }

  /** `s.replace(p, '')`: scan left to right and drop every non-overlapping
      occurrence of `p`; what the deletions bring together is not rescanned. */
  function DeleteAll(s: string, p: string): string
    requires p != []
    decreases |s|
  {
    if s == [] then []
    else if StartsWith(s, p) then DeleteAll(s[|p|..], p)
    else [s[0]] + DeleteAll(s[1..], p)
  }

  /** `s.split()`: the maximal runs of non-space characters, in order. */
  function Words(s: string): seq<string> {
    WordsFrom(s, [])
  }

  /** `Words`, carrying the part of the current word read so far. */
  function WordsFrom(s: string, word: string): seq<string>
    decreases |s|
  {
    if s == [] then
      (if word == [] then [] else [word])
    else if IsSpace(s[0]) then
      (if word == [] then [] else [word]) + WordsFrom(s[1..], [])
    else
      WordsFrom(s[1..], word + [s[0]])
  }

  /** `s.replace(a, b)` for single characters. */
  function ReplaceChar(s: string, a: char, b: char): (r: string)
    ensures |r| == |s|
    ensures forall i :: 0 <= i < |s| ==> r[i] == if s[i] == a then b else s[i]
  {
    if s == [] then [] else [if s[0] == a then b else s[0]] + ReplaceChar(s[1..], a, b)
  }

  function DigitChar(d: nat): char
    requires d < 10
  {
    "0123456789"[d]
  }

  /** `str(n)` for a natural number: its decimal digits, no leading zeros. */
  function NatToString(n: nat): string
    decreases n
  {
    if n < 10 then [DigitChar(n)] else NatToString(n / 10) + [DigitChar(n % 10)]
  }

  /** `str(i)` for a Python int. */
  function IntToString(i: int): string {
    if i < 0 then "-" + NatToString(-i) else NatToString(i)
  }

  // ---------------------------------------------------------------------
  // Substrings

  lemma {:induction false} ContainsAt(s: string, p: string, i: nat)
    requires i <= |s| && StartsWith(s[i..], p)
    ensures Contains(s, p)
    decreases i
  {
    if i > 0 {
      assert s[1..][i - 1..] == s[i..];
      ContainsAt(s[1..], p, i - 1);
    }
  }

  /** An occurrence inside a prefix is an occurrence in the whole string. */
  lemma {:induction false} ContainsPrefix(x: string, y: string, p: string)
    requires Contains(x, p)
    ensures Contains(x + y, p)
    decreases |x|
  {
    if StartsWith(x, p) {
      assert (x + y)[..|p|] == x[..|p|];
    } else {
      assert (x + y)[1..] == x[1..] + y;
      ContainsPrefix(x[1..], y, p);
    }
  }

  /** A pattern without a space cannot straddle a space: an occurrence in
      `x + " " + y` is an occurrence in `x` or in `y`. */
  lemma {:induction false} ContainsAcrossSpace(x: string, y: string, p: string)
    requires p != [] && ' ' !in p
    requires !Contains(x, p) && !Contains(y, p)
    ensures !Contains(x + " " + y, p)
    decreases |x|
  {
    var s := x + " " + y;
    NotStartsAtSpace(x, y, p);
    if x == [] {
      assert s[1..] == y;
    } else {
      assert s[1..] == x[1..] + " " + y;
      ContainsAcrossSpace(x[1..], y, p);
    }
  }

  /** `x + " " + y` does not start with a space-free pattern absent from `x`. */
  lemma NotStartsAtSpace(x: string, y: string, p: string)
    requires p != [] && ' ' !in p && !Contains(x, p)
    ensures !StartsWith(x + " " + y, p)
  {
    var s := x + " " + y;
    assert s[|x|] == ' ';
    assert forall k :: 0 <= k <= |x| ==> s[..k] == x[..k];
    assert !StartsWith(x, p);
  }

  // ---------------------------------------------------------------------
  // Deletion

  /** Deleting a pattern that does not occur changes nothing. */
  lemma {:induction false} DeleteAllAbsent(s: string, p: string)
    requires p != [] && !Contains(s, p)
    ensures DeleteAll(s, p) == s
    decreases |s|
  {
    if s != [] {
      DeleteAllAbsent(s[1..], p);
    }
  }

  /** `replace(p, '')` never introduces a character. */
  lemma {:induction false} DeleteAllChars(s: string, p: string)
    requires p != []
    ensures forall c :: c in DeleteAll(s, p) ==> c in s
    decreases |s|
  {
    if s != [] {
      if StartsWith(s, p) {
        DeleteAllChars(s[|p|..], p);
      } else {
        DeleteAllChars(s[1..], p);
      }
    }
  }

  /** Deleting a one-character pattern removes every copy of that character. */
  lemma {:induction false} DeleteAllChar(s: string, c: char)
    ensures c !in DeleteAll(s, [c])
    ensures forall d :: d in s && d != c ==> d in DeleteAll(s, [c])
    decreases |s|
  {
    if s != [] {
      DeleteAllChar(s[1..], c);
      assert s == [s[0]] + s[1..];
    }
  }

  /** Deleting a space-free pattern from `x + " " + y`, where `x` does not
      contain it, works on `y` alone. */
  lemma {:induction false} DeleteAllAcrossSpace(x: string, y: string, p: string)
    requires p != [] && ' ' !in p && !Contains(x, p)
    ensures DeleteAll(x + " " + y, p) == x + " " + DeleteAll(y, p)
    decreases |x|
  {
    var s := x + " " + y;
    NotStartsAtSpace(x, y, p);
    if x == [] {
      assert s[1..] == y;
    } else {
      assert s[1..] == x[1..] + " " + y;
      DeleteAllAcrossSpace(x[1..], y, p);
      assert s == [x[0]] + s[1..];
    }
  }

  // ---------------------------------------------------------------------
  // Splitting

  /** Every word of `s.split()` is non-empty, free of white space, and made
      of characters of `s`. */
  lemma {:induction false} WordsFromShape(s: string, word: string)
    requires forall c :: c in word ==> !IsSpace(c)
    ensures forall w :: w in WordsFrom(s, word) ==>
      w != [] && forall c :: c in w ==> !IsSpace(c) && (c in s || c in word)
    decreases |s|
  {
    if s != [] {
      if IsSpace(s[0]) {
        WordsFromShape(s[1..], []);
      } else {
        WordsFromShape(s[1..], word + [s[0]]);
      }
    }
  }

  lemma WordsShape(s: string)
    ensures forall w :: w in Words(s) ==>
      w != [] && forall c :: c in w ==> !IsSpace(c) && c in s
  {
    WordsFromShape(s, []);
  }

  /** A run of non-space characters continues the current word. */
  lemma {:induction false} WordsFromRun(w: string, rest: string, word: string)
    requires forall c :: c in w ==> !IsSpace(c)
    ensures WordsFrom(w + rest, word) == WordsFrom(rest, word + w)
    decreases |w|
  {
    if w != [] {
      assert (w + rest)[1..] == w[1..] + rest;
      WordsFromRun(w[1..], rest, word + [w[0]]);
      assert word + [w[0]] + w[1..] == word + w;
    } else {
      assert w + rest == rest && word + w == word;
    }
  }

  /** `(w + ' ' + rest).split()` is `w` followed by `rest.split()`. */
  lemma WordsSeparated(w: string, rest: string)
    requires w != [] && forall c :: c in w ==> !IsSpace(c)
    ensures Words(w + " " + rest) == [w] + Words(rest)
  {
    assert w + " " + rest == w + (" " + rest);
    WordsFromRun(w, " " + rest, []);
    assert [] + w == w;
    assert (" " + rest)[1..] == rest;
    assert WordsFrom(" " + rest, w) == [w] + WordsFrom(rest, []);
  }

  /** A non-empty space-free string splits into itself. */
  lemma WordsSingle(w: string)
    requires w != [] && forall c :: c in w ==> !IsSpace(c)
    ensures Words(w) == [w]
  {
    assert w + [] == w;
    WordsFromRun(w, [], []);
    assert [] + w == w;
    assert WordsFrom([], w) == [w];
  }

  // ---------------------------------------------------------------------
  // Character replacement and number rendering

  lemma ReplaceCharConcat(x: string, y: string, a: char, b: char)
    ensures ReplaceChar(x + y, a, b) == ReplaceChar(x, a, b) + ReplaceChar(y, a, b)
  {
    var l, r := ReplaceChar(x + y, a, b), ReplaceChar(x, a, b) + ReplaceChar(y, a, b);
    assert |l| == |r|;
    forall i | 0 <= i < |l| ensures l[i] == r[i] {
      if i < |x| {
        assert (x + y)[i] == x[i];
      } else {
        assert (x + y)[i] == y[i - |x|];
      }
    }
  }

  lemma ReplaceCharAbsent(s: string, a: char, b: char)
    requires a !in s
    ensures ReplaceChar(s, a, b) == s
  {
    var r := ReplaceChar(s, a, b);
    assert forall i :: 0 <= i < |s| ==> r[i] == s[i];
  }

  /** Distinct numbers are rendered differently, so `str(i)` can key files. */
  lemma {:induction false} NatToStringInjective(m: nat, n: nat)
    requires NatToString(m) == NatToString(n)
    ensures m == n
    decreases m
  {
    var sm, sn := NatToString(m), NatToString(n);
    if m < 10 && n < 10 {
      assert DigitChar(m) == sm[0] == sn[0] == DigitChar(n);
    } else if m < 10 {
      NatToStringLength(n / 10);
      assert false;
    } else if n < 10 {
      NatToStringLength(m / 10);
      assert false;
    } else {
      assert sm[..|sm| - 1] == NatToString(m / 10);
      assert sn[..|sn| - 1] == NatToString(n / 10);
      assert DigitChar(m % 10) == sm[|sm| - 1] == sn[|sn| - 1] == DigitChar(n % 10);
      NatToStringInjective(m / 10, n / 10);
    }
  }

  lemma NatToStringLength(n: nat)
    ensures |NatToString(n)| >= 1
    ensures NatToString(n)[0] != '-'
  {
  }

  lemma IntToStringSign(i: int)
    ensures |IntToString(i)| >= 1
    ensures IntToString(i)[0] == '-' <==> i < 0
  {
    if i < 0 {
      NatToStringLength(-i);
    } else {
      NatToStringLength(i);
    }
  }

  lemma IntToStringInjective(i: int, j: int)
    requires IntToString(i) == IntToString(j)
    ensures i == j
  {
    IntToStringSign(i);
    IntToStringSign(j);
    if i < 0 {
      var si, sj := IntToString(i), IntToString(j);
      assert si[1..] == NatToString(-i) && sj[1..] == NatToString(-j);
      NatToStringInjective(-i, -j);
    } else {
      NatToStringInjective(i, j);
    }
  }
}
