/** `Array.prototype.sort` with a comparator, as a stable insertion sort.
    ECMAScript requires `sort` to be stable, so for a comparator that is a
    total preorder every stable sort returns this same sequence. The
    comparator is given as `le(a, b)`, "a may stay before b", which is the
    JavaScript `cmp(a, b) <= 0`. */
module Sorting {

  ghost predicate Total<T(!new)>(le: (T, T) -> bool) {
    forall a, b :: le(a, b) || le(b, a)
  }

  ghost predicate Transitive<T(!new)>(le: (T, T) -> bool) {
    forall a, b, c :: le(a, b) && le(b, c) ==> le(a, c)
  }

  ghost predicate TotalPreorder<T(!new)>(le: (T, T) -> bool) {
    Total(le) && Transitive(le)
  }

  /** `le` orders the elements of `s` as a total preorder (the comparator
      may misbehave on values that do not occur). */
  ghost predicate TotalPreorderOn<T>(s: seq<T>, le: (T, T) -> bool) {
    && (forall a, b :: a in s && b in s ==> le(a, b) || le(b, a))
    && (forall a, b, c :: a in s && b in s && c in s && le(a, b) && le(b, c) ==> le(a, c))
  }

  lemma PreorderOnAll<T(!new)>(s: seq<T>, le: (T, T) -> bool)
    requires TotalPreorder(le)
    ensures TotalPreorderOn(s, le)
  {
  }

  /** A preorder on a sequence is one on any sequence of its elements. */
  lemma PreorderOnSub<T>(s: seq<T>, t: seq<T>, le: (T, T) -> bool)
    requires TotalPreorderOn(s, le)
    requires forall x :: x in t ==> x in s
    ensures TotalPreorderOn(t, le)
  {
  }

  predicate SortedBy<T>(s: seq<T>, le: (T, T) -> bool) {
    forall i, j :: 0 <= i < j < |s| ==> le(s[i], s[j])
  }

  /** Puts `x` after every element that may stay before it, so an element
      inserted later never overtakes an equal one (stability). */
  function Insert<T>(x: T, s: seq<T>, le: (T, T) -> bool): (r: seq<T>)
    ensures multiset(r) == multiset(s) + multiset{x}
    ensures |r| == |s| + 1
  {
    if s == [] then [x]
    else if le(s[0], x) then
      assert s == [s[0]] + s[1..];
      [s[0]] + Insert(x, s[1..], le)
    else [x] + s
  }

  /** The stable sort of `s` under `le`. */
  function Sort<T>(s: seq<T>, le: (T, T) -> bool): (r: seq<T>)
    ensures multiset(r) == multiset(s)
    ensures |r| == |s|
  {
    if s == [] then []
    else
      assert s == s[..|s| - 1] + [s[|s| - 1]];
      Insert(s[|s| - 1], Sort(s[..|s| - 1], le), le)
  }

  lemma {:induction false} InsertSorted<T>(x: T, s: seq<T>, le: (T, T) -> bool)
    requires TotalPreorderOn(s + [x], le) && SortedBy(s, le)
    ensures SortedBy(Insert(x, s, le), le)
  {
    if s != [] {
      if le(s[0], x) {
        PreorderOnSub(s + [x], s[1..] + [x], le);
        InsertSorted(x, s[1..], le);
        InsertBehind(x, s, le);
      } else {
        InsertInFront(x, s, le);
      }
    }
  }

  /** Inserting behind a head that may stay before `x` keeps the order. */
  lemma InsertBehind<T>(x: T, s: seq<T>, le: (T, T) -> bool)
    requires s != [] && le(s[0], x) && SortedBy(s, le)
    requires SortedBy(Insert(x, s[1..], le), le)
    ensures SortedBy(Insert(x, s, le), le)
  {
    var r := Insert(x, s, le);
    var t := Insert(x, s[1..], le);
    assert r == [s[0]] + t;
    forall k | 0 < k < |r| ensures le(r[0], r[k]) {
      assert r[k] in multiset(t);
      assert r[k] in multiset(s[1..]) + multiset{x};
      if r[k] != x {
        assert r[k] in s[1..];
        var m :| 0 <= m < |s[1..]| && s[1..][m] == r[k];
        assert s[m + 1] == r[k];
      }
    }
  }

  /** Putting `x` in front of a head it must precede keeps the order. */
  lemma InsertInFront<T>(x: T, s: seq<T>, le: (T, T) -> bool)
    requires TotalPreorderOn(s + [x], le) && SortedBy(s, le)
    requires s != [] && !le(s[0], x)
    ensures SortedBy(Insert(x, s, le), le)
  {
    var r := [x] + s;
    assert x in s + [x] && s[0] in s + [x];
    forall i, j | 0 <= i < j < |r| ensures le(r[i], r[j]) {
      if i == 0 {
        assert r[j] == s[j - 1] && r[j] in s + [x];
        if j > 1 {
          assert le(s[0], s[j - 1]);
        }
      } else {
        assert r[i] == s[i - 1] && r[j] == s[j - 1];
      }
    }
  }

  /** The result of `Sort` is ordered by `le` when `le` orders the input. */
  lemma {:induction false} SortSorted<T>(s: seq<T>, le: (T, T) -> bool)
    requires TotalPreorderOn(s, le)
    ensures SortedBy(Sort(s, le), le)
  {
    if s != [] {
      var init := s[..|s| - 1];
      var x := s[|s| - 1];
      PreorderOnSub(s, init, le);
      SortSorted(init, le);
      var t := Sort(init, le);
      forall y | y in t + [x] ensures y in s {
        if y != x {
          assert y in multiset(t);
          assert y in init;
        }
      }
      PreorderOnSub(s, t + [x], le);
      InsertSorted(x, t, le);
    }
  }

  /** Sorting keeps exactly the elements it was given. */
  lemma SortSameElements<T>(s: seq<T>, le: (T, T) -> bool, x: T)
    ensures x in Sort(s, le) <==> x in s
  {
    assert x in Sort(s, le) <==> x in multiset(Sort(s, le));
    assert x in s <==> x in multiset(s);
  }

  /** An element that may stay after everything goes to the end. */
  lemma {:induction false} InsertAfterAll<T>(x: T, s: seq<T>, le: (T, T) -> bool)
    requires forall i :: 0 <= i < |s| ==> le(s[i], x)
    ensures Insert(x, s, le) == s + [x]
  {
    if s != [] {
      InsertAfterAll(x, s[1..], le);
      assert s == [s[0]] + s[1..];
    }
  }

  /** Sorting a sequence that is already in order changes nothing. */
  lemma {:induction false} SortOfSorted<T>(s: seq<T>, le: (T, T) -> bool)
    requires SortedBy(s, le)
    ensures Sort(s, le) == s
  {
    if s != [] {
      var init := s[..|s| - 1];
      assert SortedBy(init, le);
      SortOfSorted(init, le);
      InsertAfterAll(s[|s| - 1], init, le);
      assert init + [s[|s| - 1]] == s;
    }
  }

  // ---------------------------------------------------------------------------
  // The default `sort()` on strings: code-unit lexicographic order.

  /** `a <= b` in the order JavaScript's default `sort()` uses for strings. */
  predicate StrLe(a: string, b: string) {
    if a == [] then true
    else if b == [] then false
    else if a[0] != b[0] then a[0] < b[0]
    else StrLe(a[1..], b[1..])
  }

  lemma {:induction false} StrLeTotal(a: string, b: string)
    ensures StrLe(a, b) || StrLe(b, a)
  {
    if a != [] && b != [] && a[0] == b[0] {
      StrLeTotal(a[1..], b[1..]);
    }
  }

  lemma {:induction false} StrLeTransitive(a: string, b: string, c: string)
    requires StrLe(a, b) && StrLe(b, c)
    ensures StrLe(a, c)
  {
    if a != [] && b != [] && c != [] && a[0] == b[0] && b[0] == c[0] {
      StrLeTransitive(a[1..], b[1..], c[1..]);
    }
  }

  lemma {:induction false} StrLeAntisymmetric(a: string, b: string)
    requires StrLe(a, b) && StrLe(b, a)
    ensures a == b
  {
    if a != [] && b != [] {
      StrLeAntisymmetric(a[1..], b[1..]);
      assert a == [a[0]] + a[1..] && b == [b[0]] + b[1..];
    }
  }

  lemma StrLeTotalPreorder()
    ensures TotalPreorder(StrLe)
  {
    forall a, b ensures StrLe(a, b) || StrLe(b, a) {
      StrLeTotal(a, b);
    }
    forall a, b, c | StrLe(a, b) && StrLe(b, c) ensures StrLe(a, c) {
      StrLeTransitive(a, b, c);
    }
  }
}
