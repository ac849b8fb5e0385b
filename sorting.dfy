/**
 * The sequence operations the reports of lanchonete.py are built from: list
 * comprehensions with a condition, Python's `sorted(..., key=..., reverse=True)` and the
 * slice `s[:n]`. Python's sort is stable also with `reverse=True`: elements with equal
 * keys keep their original order.
 */
module Sorting {

  /** `[x for x in s if p(x)]`. */
  function Select<T>(s: seq<T>, p: T -> bool): (r: seq<T>)
    ensures |r| <= |s|
    ensures forall i | 0 <= i < |r| :: p(r[i])
  {
    if s == [] then [] else (if p(s[0]) then [s[0]] else []) + Select(s[1..], p)
  }

  /** Selecting from a concatenation selects from each part. */
  lemma {:induction false} SelectAppend<T>(a: seq<T>, b: seq<T>, p: T -> bool)
    ensures Select(a + b, p) == Select(a, p) + Select(b, p)
  {
    if a == [] {
      assert a + b == b;
    } else {
      assert (a + b)[1..] == a[1..] + b;
      SelectAppend(a[1..], b, p);
    }
  }

  /** An element is selected exactly when it is in the sequence and satisfies the condition. */
  lemma {:induction false} SelectMembership<T>(s: seq<T>, p: T -> bool, x: T)
    ensures x in Select(s, p) <==> x in s && p(x)
  {
    if s != [] {
      SelectMembership(s[1..], p, x);
      assert s == [s[0]] + s[1..];
    }
  }

  /** Keys never increase from left to right. */
  ghost predicate Descending<T>(s: seq<T>, key: T -> int) {
    forall i, j | 0 <= i < j < |s| :: key(s[i]) >= key(s[j])
  }

  /** The elements whose key is `c`, in their order in `s`. */
  function WithKey<T>(s: seq<T>, key: T -> int, c: int): seq<T> {
    if s == [] then [] else (if key(s[0]) == c then [s[0]] else []) + WithKey(s[1..], key, c)
  }

  lemma {:induction false} WithKeyAppend<T>(a: seq<T>, b: seq<T>, key: T -> int, c: int)
    ensures WithKey(a + b, key, c) == WithKey(a, key, c) + WithKey(b, key, c)
  {
    if a == [] {
      assert a + b == b;
    } else {
      var head := if key(a[0]) == c then [a[0]] else [];
      assert (a + b)[0] == a[0];
      assert (a + b)[1..] == a[1..] + b;
      WithKeyAppend(a[1..], b, key, c);
      assert WithKey(a + b, key, c) == head + (WithKey(a[1..], key, c) + WithKey(b, key, c));
      assert WithKey(a, key, c) == head + WithKey(a[1..], key, c);
    }
  }

  /** Places `x` after every leading element whose key is at least its own. */
  function InsertDesc<T>(t: seq<T>, x: T, key: T -> int): (r: seq<T>)
    ensures |r| == |t| + 1
  {
    if t == [] || key(t[0]) < key(x) then [x] + t
    else [t[0]] + InsertDesc(t[1..], x, key)
  }

  /** `sorted(s, key=key, reverse=True)`: each element in turn is inserted after those with a key at least its own. */
  function SortDesc<T>(s: seq<T>, key: T -> int): (r: seq<T>)
    ensures |r| == |s|
  {
    if s == [] then []
    else InsertDesc(SortDesc(s[..|s| - 1], key), s[|s| - 1], key)
  }

  /** Inserting adds `x` and loses nothing. */
  lemma {:induction false} InsertPermutes<T>(t: seq<T>, x: T, key: T -> int)
    ensures multiset(InsertDesc(t, x, key)) == multiset(t) + multiset{x}
  {
    if t != [] && key(t[0]) >= key(x) {
      InsertPermutes(t[1..], x, key);
      assert t == [t[0]] + t[1..];
    }
  }

  /** The sort is a permutation: the same elements, each as often. */
  lemma {:induction false} SortPermutes<T>(s: seq<T>, key: T -> int)
    ensures multiset(SortDesc(s, key)) == multiset(s)
  {
    if s != [] {
      SortPermutes(s[..|s| - 1], key);
      InsertPermutes(SortDesc(s[..|s| - 1], key), s[|s| - 1], key);
      assert s == s[..|s| - 1] + [s[|s| - 1]];
    }
  }

  lemma {:induction false} InsertKeepsDescending<T>(t: seq<T>, x: T, key: T -> int)
    requires Descending(t, key)
    ensures Descending(InsertDesc(t, x, key), key)
  {
    if t != [] && key(t[0]) >= key(x) {
      var rest := InsertDesc(t[1..], x, key);
      InsertKeepsDescending(t[1..], x, key);
      InsertPermutes(t[1..], x, key);
      forall j | 0 <= j < |rest|
        ensures key(t[0]) >= key(rest[j])
      {
        assert rest[j] in multiset(rest);
        if rest[j] != x {
          assert rest[j] in multiset(t[1..]);
          var k :| 0 <= k < |t[1..]| && t[1..][k] == rest[j];
          assert t[k + 1] == rest[j];
        }
      }
    }
  }

  /** The result of the sort is in descending key order. */
  lemma {:induction false} SortIsDescending<T>(s: seq<T>, key: T -> int)
    ensures Descending(SortDesc(s, key), key)
  {
    if s != [] {
      SortIsDescending(s[..|s| - 1], key);
      InsertKeepsDescending(SortDesc(s[..|s| - 1], key), s[|s| - 1], key);
    }
  }

  lemma {:induction false} NoneWithKey<T>(s: seq<T>, key: T -> int, c: int)
    requires forall i | 0 <= i < |s| :: key(s[i]) != c
    ensures WithKey(s, key, c) == []
  {
    if s != [] {
      NoneWithKey(s[1..], key, c);
    }
  }

  /** The tail of a descending sequence is descending. */
  lemma DescendingTail<T>(t: seq<T>, key: T -> int)
    requires t != [] && Descending(t, key)
    ensures Descending(t[1..], key)
  {
    var tail := t[1..];
    forall i, j | 0 <= i < j < |tail| ensures key(tail[i]) >= key(tail[j]) {
      assert tail[i] == t[i + 1] && tail[j] == t[j + 1];
    }
  }

  /** Placing `x` in front of keys all below its own adds it after the (no) elements of its key. */
  lemma InsertFrontIsStable<T>(t: seq<T>, x: T, key: T -> int, c: int)
    requires Descending(t, key) && (t == [] || key(t[0]) < key(x))
    ensures WithKey([x] + t, key, c) == WithKey(t, key, c) + WithKey([x], key, c)
  {
    var wx := WithKey([x], key, c);
    WithKeyAppend([x], t, key, c);
    if key(x) == c {
      assert forall i | 0 <= i < |t| :: key(t[i]) <= key(t[0]);
      NoneWithKey(t, key, c);
      assert WithKey(t, key, c) + wx == wx + WithKey(t, key, c);
    } else {
      assert wx == [];
      assert WithKey(t, key, c) + wx == wx + WithKey(t, key, c);
    }
  }

  /** Inserting into a descending sequence puts `x` last among the elements with its key. */
  lemma {:induction false} InsertIsStable<T>(t: seq<T>, x: T, key: T -> int, c: int)
    requires Descending(t, key)
    ensures WithKey(InsertDesc(t, x, key), key, c) == WithKey(t, key, c) + WithKey([x], key, c)
  {
    if t == [] || key(t[0]) < key(x) {
      InsertFrontIsStable(t, x, key, c);
    } else {
      var tail := t[1..];
      var rest := InsertDesc(tail, x, key);
      var h, wt, wx := WithKey([t[0]], key, c), WithKey(tail, key, c), WithKey([x], key, c);
      DescendingTail(t, key);
      InsertIsStable(tail, x, key, c);
      assert InsertDesc(t, x, key) == [t[0]] + rest;
      WithKeyAppend([t[0]], rest, key, c);
      assert t == [t[0]] + tail;
      WithKeyAppend([t[0]], tail, key, c);
      assert h + (wt + wx) == (h + wt) + wx;
    }
  }

  /** The sort is stable: the elements of any one key keep their original order. */
  lemma {:induction false} SortIsStable<T>(s: seq<T>, key: T -> int, c: int)
    ensures WithKey(SortDesc(s, key), key, c) == WithKey(s, key, c)
  {
    if s != [] {
      var init, last := s[..|s| - 1], s[|s| - 1];
      SortIsStable(init, key, c);
      SortIsDescending(init, key);
      InsertIsStable(SortDesc(init, key), last, key, c);
      assert s == init + [last];
      WithKeyAppend(init, [last], key, c);
    }
  }

  /** An occurrence of `x` in `s` comes before an occurrence of `y`. */
  ghost predicate Precedes<T>(s: seq<T>, x: T, y: T) {
    exists a, b | 0 <= a < b < |s| :: s[a] == x && s[b] == y
  }

  lemma {:induction false} WithKeyMembership<T>(s: seq<T>, key: T -> int, c: int, x: T)
    ensures x in WithKey(s, key, c) <==> x in s && key(x) == c
  {
    if s != [] {
      WithKeyMembership(s[1..], key, c, x);
      assert s == [s[0]] + s[1..];
    }
  }

  /** Of two elements with key `c`, one that comes first among those of key `c` comes first in `s`. */
  lemma {:induction false} WithKeyPrecedenceFromWhole<T>(s: seq<T>, key: T -> int, c: int, x: T, y: T)
    requires key(x) == c && key(y) == c && Precedes(s, x, y)
    ensures Precedes(WithKey(s, key, c), x, y)
  {
    var tail := s[1..];
    var h := if key(s[0]) == c then [s[0]] else [];
    var w := WithKey(tail, key, c);
    var r := WithKey(s, key, c);
    assert r == h + w;
    var a, b :| 0 <= a < b < |s| && s[a] == x && s[b] == y;
    if a == 0 {
      assert tail[b - 1] == y;
      WithKeyMembership(tail, key, c, y);
      var k :| 0 <= k < |w| && w[k] == y;
      assert r[0] == x && r[k + 1] == y;
    } else {
      assert tail[a - 1] == x && tail[b - 1] == y;
      WithKeyPrecedenceFromWhole(tail, key, c, x, y);
      var a', b' :| 0 <= a' < b' < |w| && w[a'] == x && w[b'] == y;
      assert r[a' + |h|] == x && r[b' + |h|] == y;
    }
  }

  /** Of two elements with key `c`, one that comes first in `s` comes first among those of key `c`. */
  lemma {:induction false} WithKeyPrecedenceToWhole<T>(s: seq<T>, key: T -> int, c: int, x: T, y: T)
    requires key(x) == c && key(y) == c && Precedes(WithKey(s, key, c), x, y)
    ensures Precedes(s, x, y)
  {
    var tail := s[1..];
    var h := if key(s[0]) == c then [s[0]] else [];
    var w := WithKey(tail, key, c);
    var r := WithKey(s, key, c);
    assert r == h + w;
    var a, b :| 0 <= a < b < |r| && r[a] == x && r[b] == y;
    if a < |h| {
      assert y in w by { assert w[b - |h|] == y; }
      WithKeyMembership(tail, key, c, y);
      var k :| 0 <= k < |tail| && tail[k] == y;
      assert s[0] == x && s[k + 1] == y;
    } else {
      assert w[a - |h|] == x && w[b - |h|] == y;
      WithKeyPrecedenceToWhole(tail, key, c, x, y);
      var a', b' :| 0 <= a' < b' < |tail| && tail[a'] == x && tail[b'] == y;
      assert s[a' + 1] == x && s[b' + 1] == y;
    }
  }

  /** Stability stated on two elements: of two with equal keys, the sort lists them in their original order. */
  lemma SortKeepsTieOrder<T>(s: seq<T>, key: T -> int, x: T, y: T)
    requires key(x) == key(y)
    ensures Precedes(SortDesc(s, key), x, y) <==> Precedes(s, x, y)
  {
    var sorted := SortDesc(s, key);
    SortIsStable(s, key, key(x));
    if Precedes(sorted, x, y) {
      WithKeyPrecedenceFromWhole(sorted, key, key(x), x, y);
      WithKeyPrecedenceToWhole(s, key, key(x), x, y);
    }
    if Precedes(s, x, y) {
      WithKeyPrecedenceFromWhole(s, key, key(x), x, y);
      WithKeyPrecedenceToWhole(sorted, key, key(x), x, y);
    }
  }

  /** Elements with distinct images under `f`. */
  ghost predicate DistinctBy<T, K>(s: seq<T>, f: T -> K) {
    forall i, j | 0 <= i < j < |s| :: f(s[i]) != f(s[j])
  }

  lemma {:induction false} InsertKeepsDistinct<T, K>(t: seq<T>, x: T, key: T -> int, f: T -> K)
    requires DistinctBy(t, f) && forall i | 0 <= i < |t| :: f(t[i]) != f(x)
    ensures DistinctBy(InsertDesc(t, x, key), f)
  {
    if t != [] && key(t[0]) >= key(x) {
      var rest := InsertDesc(t[1..], x, key);
      InsertKeepsDistinct(t[1..], x, key, f);
      InsertPermutes(t[1..], x, key);
      forall j | 0 <= j < |rest|
        ensures f(t[0]) != f(rest[j])
      {
        assert rest[j] in multiset(rest);
        if rest[j] != x {
          assert rest[j] in multiset(t[1..]);
          var k :| 0 <= k < |t[1..]| && t[1..][k] == rest[j];
          assert t[k + 1] == rest[j];
        }
      }
    }
  }

  /** Sorting does not make two elements share an image under `f`. */
  lemma {:induction false} SortKeepsDistinct<T, K>(s: seq<T>, key: T -> int, f: T -> K)
    requires DistinctBy(s, f)
    ensures DistinctBy(SortDesc(s, key), f)
  {
    if s != [] {
      var init, last := s[..|s| - 1], s[|s| - 1];
      var sorted := SortDesc(init, key);
      SortKeepsDistinct(init, key, f);
      SortPermutes(init, key);
      forall i | 0 <= i < |sorted|
        ensures f(sorted[i]) != f(last)
      {
        assert sorted[i] in multiset(init);
        var k :| 0 <= k < |init| && init[k] == sorted[i];
        assert s[k] == sorted[i];
      }
      InsertKeepsDistinct(sorted, last, key, f);
    }
  }

  /**
   * `s[:n]`: the first `n` elements (all of them when `n` exceeds the length), or for a
   * negative `n` all but the last `-n`.
   */
  function Head<T>(s: seq<T>, n: int): (r: seq<T>)
    ensures n >= 0 ==> |r| == if n < |s| then n else |s|
    ensures n < 0 ==> |r| == if |s| + n > 0 then |s| + n else 0
    ensures forall i | 0 <= i < |r| :: r[i] == s[i]
  {
    if n >= 0 then (if n < |s| then s[..n] else s)
    else if |s| + n > 0 then s[..|s| + n]
    else []
  }
}
