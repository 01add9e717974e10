/** String order and the stable sort used for every ordered result of the layer: Kotlin's
    `sortedBy { it.name }` and the `ORDER BY` clauses of the metadata queries. */
module Ordering {

  /** Lexicographic order on strings, character by character (`String.compareTo`, and
      SQLite's BINARY collation on text). */
  predicate LexLe(a: string, b: string)
    decreases |a|
  {
    a == [] || (b != [] && (a[0] < b[0] || (a[0] == b[0] && LexLe(a[1..], b[1..]))))
  }

  lemma {:induction false} LexLeReflexive(a: string)
    ensures LexLe(a, a)
    decreases |a|
  {
    if a != [] {
      LexLeReflexive(a[1..]);
    }
  }

  lemma {:induction false} LexLeTotal(a: string, b: string)
    ensures LexLe(a, b) || LexLe(b, a)
    decreases |a|
  {
    if a != [] && b != [] && a[0] == b[0] {
      LexLeTotal(a[1..], b[1..]);
    }
  }

  lemma {:induction false} LexLeAntisymmetric(a: string, b: string)
    requires LexLe(a, b) && LexLe(b, a)
    ensures a == b
    decreases |a|
  {
    if a != [] && b != [] {
      LexLeAntisymmetric(a[1..], b[1..]);
      assert a == [a[0]] + a[1..] && b == [b[0]] + b[1..];
    }
  }

  lemma {:induction false} LexLeTransitive(a: string, b: string, c: string)
    requires LexLe(a, b) && LexLe(b, c)
    ensures LexLe(a, c)
    decreases |a|
  {
    if a != [] && b != [] && c != [] && a[0] == b[0] == c[0] {
      LexLeTransitive(a[1..], b[1..], c[1..]);
    }
  }

  /** Strings sharing a front compare as what follows it. */
  lemma {:induction false} LexLeCommonPrefix(p: string, x: string, y: string)
    ensures LexLe(p + x, p + y) <==> LexLe(x, y)
    decreases |p|
  {
    if p == [] {
      assert p + x == x && p + y == y;
    } else {
      assert (p + x)[0] == p[0] == (p + y)[0];
      assert (p + x)[1..] == p[1..] + x;
      assert (p + y)[1..] == p[1..] + y;
      LexLeCommonPrefix(p[1..], x, y);
    }
  }

  /** `a` may come before `b` in an ascending (`desc == false`) or descending order. */
  predicate InOrder(a: string, b: string, desc: bool)
  {
    if desc then LexLe(b, a) else LexLe(a, b)
  }

  lemma InOrderTotal(a: string, b: string, desc: bool)
    ensures InOrder(a, b, desc) || InOrder(b, a, desc)
  {
    LexLeTotal(a, b);
  }

  lemma InOrderTransitive(a: string, b: string, c: string, desc: bool)
    requires InOrder(a, b, desc) && InOrder(b, c, desc)
    ensures InOrder(a, c, desc)
  {
    if desc {
      LexLeTransitive(c, b, a);
    } else {
      LexLeTransitive(a, b, c);
    }
  }

  /** Keys that are out of order are distinct. */
  lemma NotInOrderDistinct(a: string, b: string, desc: bool)
    requires !InOrder(a, b, desc)
    ensures a != b
  {
    LexLeReflexive(a);
  }

  /** `s` is ordered by `key`, ascending or descending. */
  predicate SortedBy<T>(s: seq<T>, key: T -> string, desc: bool)
  {
    forall i, j :: 0 <= i < j < |s| ==> InOrder(key(s[i]), key(s[j]), desc)
  }

  /** The elements of `s` whose key is `k`, in the order of `s`. */
  function KeyRun<T>(s: seq<T>, key: T -> string, k: string): seq<T>
  {
    if s == [] then []
    else (if key(s[0]) == k then [s[0]] else []) + KeyRun(s[1..], key, k)
  }

  /** `x` placed before the first element it may precede. */
  function Insert<T>(x: T, s: seq<T>, key: T -> string, desc: bool): seq<T>
  {
    if s == [] || InOrder(key(x), key(s[0]), desc) then [x] + s
    else [s[0]] + Insert(x, s[1..], key, desc)
  }

  /** Insertion adds exactly the one element. */
  lemma {:induction false} InsertPermutes<T>(x: T, s: seq<T>, key: T -> string, desc: bool)
    ensures multiset(Insert(x, s, key, desc)) == multiset(s) + multiset{x}
  {
    if s != [] && !InOrder(key(x), key(s[0]), desc) {
      InsertPermutes(x, s[1..], key, desc);
      assert s == [s[0]] + s[1..];
    }
  }

  /** Insertion keeps a sorted sequence sorted. */
  lemma {:induction false} InsertSorted<T>(x: T, s: seq<T>, key: T -> string, desc: bool)
    requires SortedBy(s, key, desc)
    ensures SortedBy(Insert(x, s, key, desc), key, desc)
  {
    if s == [] || InOrder(key(x), key(s[0]), desc) {
      InsertFrontSorted(x, s, key, desc);
    } else {
      var rest := Insert(x, s[1..], key, desc);
      assert s == [s[0]] + s[1..];
      assert SortedBy(s[1..], key, desc) by {
        forall i, j | 0 <= i < j < |s[1..]|
          ensures InOrder(key(s[1..][i]), key(s[1..][j]), desc)
        {
          assert s[1..][i] == s[i + 1] && s[1..][j] == s[j + 1];
        }
      }
      InsertSorted(x, s[1..], key, desc);
      InsertPermutes(x, s[1..], key, desc);
      InOrderTotal(key(x), key(s[0]), desc);
      InsertAfterSorted(s[0], x, s[1..], rest, key, desc);
    }
  }

  /** Insertion keeps the relative order of equal keys, and puts `x` before the elements
      whose key equals its own. */
  lemma {:induction false} InsertKeyRun<T>(x: T, s: seq<T>, key: T -> string, desc: bool, k: string)
    ensures KeyRun(Insert(x, s, key, desc), key, k)
         == (if key(x) == k then [x] else []) + KeyRun(s, key, k)
  {
    var r := Insert(x, s, key, desc);
    if s == [] || InOrder(key(x), key(s[0]), desc) {
      assert r == [x] + s;
      KeyRunCons(x, s, key, k);
    } else {
      var rest := Insert(x, s[1..], key, desc);
      assert r == [s[0]] + rest;
      var hx := if key(x) == k then [x] else [];
      var h0 := if key(s[0]) == k then [s[0]] else [];
      var run := KeyRun(s[1..], key, k);
      InsertKeyRun(x, s[1..], key, desc, k);
      KeyRunCons(s[0], rest, key, k);
      assert KeyRun(r, key, k) == h0 + (hx + run);
      assert s == [s[0]] + s[1..];
      KeyRunCons(s[0], s[1..], key, k);
      assert KeyRun(s, key, k) == h0 + run;
      NotInOrderDistinct(key(x), key(s[0]), desc);
      SwapHeads(h0, hx, run);
    }
  }

  /** Two heads of which one is empty can be taken in either order. */
  lemma SwapHeads<T>(h0: seq<T>, hx: seq<T>, run: seq<T>)
    requires h0 == [] || hx == []
    ensures h0 + (hx + run) == hx + (h0 + run)
  {
    if h0 == [] {
      assert h0 + (hx + run) == hx + run;
      assert h0 + run == run;
    } else {
      assert hx + (h0 + run) == h0 + run;
      assert hx + run == run;
    }
  }

  lemma KeyRunCons<T>(y: T, s: seq<T>, key: T -> string, k: string)
    ensures KeyRun([y] + s, key, k) == (if key(y) == k then [y] else []) + KeyRun(s, key, k)
  {
    assert ([y] + s)[1..] == s;
  }

  lemma InsertFrontSorted<T>(x: T, s: seq<T>, key: T -> string, desc: bool)
    requires s == [] || InOrder(key(x), key(s[0]), desc)
    ensures SortedBy(s, key, desc) ==> SortedBy([x] + s, key, desc)
  {
    if SortedBy(s, key, desc) {
      forall i, j | 0 <= i < j < |[x] + s|
        ensures InOrder(key(([x] + s)[i]), key(([x] + s)[j]), desc)
      {
        if i == 0 && j > 1 {
          InOrderTransitive(key(x), key(s[0]), key(s[j - 1]), desc);
        }
      }
    }
  }

  lemma InsertAfterSorted<T>(y: T, x: T, s: seq<T>, rest: seq<T>, key: T -> string, desc: bool)
    requires InOrder(key(y), key(x), desc)
    requires multiset(rest) == multiset(s) + multiset{x}
    requires SortedBy([y] + s, key, desc) ==> SortedBy(rest, key, desc)
    ensures SortedBy([y] + s, key, desc) ==> SortedBy([y] + rest, key, desc)
  {
    if SortedBy([y] + s, key, desc) {
      forall j | 0 <= j < |rest|
        ensures InOrder(key(y), key(rest[j]), desc)
      {
        assert rest[j] in multiset(rest);
        if rest[j] != x {
          assert rest[j] in multiset(s);
          var m :| 0 <= m < |s| && s[m] == rest[j];
          assert ([y] + s)[0] == y && ([y] + s)[m + 1] == s[m];
          assert InOrder(key(([y] + s)[0]), key(([y] + s)[m + 1]), desc);
        }
      }
    }
  }

  /** Insertion sort by `key`. */
  function SortBy<T>(s: seq<T>, key: T -> string, desc: bool): (r: seq<T>)
    ensures multiset(r) == multiset(s)
    ensures SortedBy(r, key, desc)
  {
    if s == [] then []
    else
      var rest := SortBy(s[1..], key, desc);
      assert s == [s[0]] + s[1..];
      InsertPermutes(s[0], rest, key, desc);
      InsertSorted(s[0], rest, key, desc);
      Insert(s[0], rest, key, desc)
  }

  /** Sorting a sequence that is already in order leaves it as it is. */
  lemma {:induction false} SortBySorted<T>(s: seq<T>, key: T -> string, desc: bool)
    requires SortedBy(s, key, desc)
    ensures SortBy(s, key, desc) == s
  {
    if s != [] {
      var t := s[1..];
      assert SortedBy(t, key, desc) by {
        forall i, j | 0 <= i < j < |t| ensures InOrder(key(t[i]), key(t[j]), desc) {
          assert t[i] == s[i + 1] && t[j] == s[j + 1];
        }
      }
      SortBySorted(t, key, desc);
      if t != [] {
        assert InOrder(key(s[0]), key(t[0]), desc) by { assert t[0] == s[1]; }
      }
      assert Insert(s[0], t, key, desc) == [s[0]] + t;
      assert s == [s[0]] + t;
    }
  }

  /** The sort is stable: the elements sharing any one key come out in their input order. */
  lemma {:induction false} SortByStable<T>(s: seq<T>, key: T -> string, desc: bool, k: string)
    ensures KeyRun(SortBy(s, key, desc), key, k) == KeyRun(s, key, k)
  {
    if s != [] {
      SortByStable(s[1..], key, desc, k);
      InsertKeyRun(s[0], SortBy(s[1..], key, desc), key, desc, k);
    }
  }

  /** A sorted sequence's head may precede every one of its elements. */
  lemma SortedHead<T>(s: seq<T>, key: T -> string, desc: bool)
    requires SortedBy(s, key, desc) && s != []
    ensures forall x :: x in s ==> InOrder(key(s[0]), key(x), desc)
  {
    LexLeReflexive(key(s[0]));
  }
}
