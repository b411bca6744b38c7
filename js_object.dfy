/** A plain JavaScript object used as a dictionary with numeric keys
    (`obj[k]`, `obj[k] = v`, `Object.values`, `Object.entries`). It is
    kept as its entries in property-creation order; assigning to an
    existing key keeps that key's position. */
module JsObject {
  import opened Wrappers
  import opened Sorting

  type Dict<V> = seq<(int, V)>

  predicate DistinctKeys<V>(d: Dict<V>) {
    forall i, j :: 0 <= i < j < |d| ==> d[i].0 != d[j].0
  }

  /** The position of key `k`, if present. */
  function Find<V>(d: Dict<V>, k: int): (r: Option<nat>)
    ensures r.Some? ==>
      && r.value < |d| && d[r.value].0 == k
      && forall j :: 0 <= j < r.value ==> d[j].0 != k
    ensures r.None? ==> forall j :: 0 <= j < |d| ==> d[j].0 != k
    decreases |d|
  {
    if d == [] then None
    else if d[0].0 == k then Some(0)
    else
      var r := Find(d[1..], k);
      if r.None? then None else Some(r.value + 1)
  }

  /** `obj[k]`: the value, or `undefined`. */
  function Get<V>(d: Dict<V>, k: int): Option<V> {
    var i := Find(d, k);
    if i.None? then None else Some(d[i.value].1)
  }

  /** `obj[k] = v` */
  function Put<V>(d: Dict<V>, k: int, v: V): Dict<V> {
    var i := Find(d, k);
    if i.None? then d + [(k, v)] else d[i.value := (k, v)]
  }

  /** With distinct keys, `obj[k]` is `v` exactly when `(k, v)` is an entry. */
  lemma GetIff<V>(d: Dict<V>, k: int, v: V)
    requires DistinctKeys(d)
    ensures Get(d, k) == Some(v) <==> (k, v) in d
  {
    if (k, v) in d {
      var i :| 0 <= i < |d| && d[i] == (k, v);
      FindAt(d, k, i);
    }
  }

  /** Assignment sets one key, keeps every other key's value, keeps the
      keys distinct and adds a key only when it was missing. */
  lemma PutFacts<V>(d: Dict<V>, k: int, v: V, k': int)
    requires DistinctKeys(d)
    ensures DistinctKeys(Put(d, k, v))
    ensures Get(Put(d, k, v), k') == if k' == k then Some(v) else Get(d, k')
    ensures Get(d, k).None? ==> Put(d, k, v) == d + [(k, v)]
    ensures Get(d, k).Some? ==> |Put(d, k, v)| == |d|
  {
    var r := Put(d, k, v);
    var i := Find(d, k);
    assert DistinctKeys(r) by {
      forall a, b | 0 <= a < b < |r| ensures r[a].0 != r[b].0 {
        if i.Some? {
          assert r[a].0 == d[a].0 && r[b].0 == d[b].0;
        } else if b == |d| {
          assert r[a] == d[a];
        }
      }
    }
    if k' == k {
      var p := if i.None? then |d| else i.value;
      assert r[p] == (k, v);
      FindAt(r, k, p);
    } else {
      var g := Find(d, k');
      if g.Some? {
        assert r[g.value] == d[g.value];
        FindAt(r, k', g.value);
      } else {
        assert forall j :: 0 <= j < |r| ==> r[j].0 != k';
      }
    }
  }

  /** After an assignment every entry is the new one or an old one. */
  lemma PutEntries<V>(d: Dict<V>, k: int, v: V)
    ensures forall i :: 0 <= i < |Put(d, k, v)| ==> Put(d, k, v)[i] == (k, v) || Put(d, k, v)[i] in d
  {
  }

  /** A second assignment to the same key overrides the first. */
  lemma PutPut<V>(d: Dict<V>, k: int, v: V, w: V)
    ensures Put(Put(d, k, v), k, w) == Put(d, k, w)
  {
    var i := Find(d, k);
    if i.None? {
      FindAt(d + [(k, v)], k, |d|);
    } else {
      FindAt(d[i.value := (k, v)], k, i.value);
    }
  }

  /** Assigning a key the value it holds changes nothing. */
  lemma PutSame<V>(d: Dict<V>, k: int)
    requires Get(d, k).Some?
    ensures Put(d, k, Get(d, k).value) == d
  {
  }

  /** The first position holding `k` is the one `Find` returns. */
  lemma FindAt<V>(d: Dict<V>, k: int, p: nat)
    requires p < |d| && d[p].0 == k
    requires forall j :: 0 <= j < p ==> d[j].0 != k
    ensures Find(d, k) == Some(p)
  {
  }

  // ---------------------------------------------------------------------------
  // Property order (ordinary own property keys, section 10.1.11.1 of
  // ECMA-262): array-index keys ascending, then the other keys in creation
  // order.

  /** An array index: a canonical numeric string for 0 .. 2^32 - 2. */
  predicate IsIndexKey(k: int) {
    0 <= k < 0xFFFF_FFFF
  }

  function IndexEntries<V>(d: Dict<V>): (r: Dict<V>)
    ensures multiset(r) <= multiset(d)
    ensures forall i :: 0 <= i < |r| ==> r[i] in d && IsIndexKey(r[i].0)
    ensures forall i :: 0 <= i < |d| && IsIndexKey(d[i].0) ==> d[i] in r
    decreases |d|
  {
    if d == [] then []
    else
      assert d == d[..|d| - 1] + [d[|d| - 1]];
      var e := d[|d| - 1];
      IndexEntries(d[..|d| - 1]) + (if IsIndexKey(e.0) then [e] else [])
  }

  function OtherEntries<V>(d: Dict<V>): (r: Dict<V>)
    ensures forall i :: 0 <= i < |r| ==> r[i] in d && !IsIndexKey(r[i].0)
    ensures forall i :: 0 <= i < |d| && !IsIndexKey(d[i].0) ==> d[i] in r
    decreases |d|
  {
    if d == [] then []
    else
      assert d == d[..|d| - 1] + [d[|d| - 1]];
      var e := d[|d| - 1];
      OtherEntries(d[..|d| - 1]) + (if IsIndexKey(e.0) then [] else [e])
  }

  /** The key order of `Object.entries`. */
  predicate KeyLe<V>(a: (int, V), b: (int, V)) {
    a.0 <= b.0
  }

  /** `Object.entries(obj)` */
  function Entries<V>(d: Dict<V>): Dict<V> {
    Sort(IndexEntries(d), KeyLe) + OtherEntries(d)
  }

  /** `Object.values(obj)` */
  function Values<V>(d: Dict<V>): (r: seq<V>) {
    var es := Entries(d);
    seq(|es|, i requires 0 <= i < |es| => es[i].1)
  }

  /** The entries are those of the object, as many as it has. */
  lemma EntriesSame<V>(d: Dict<V>)
    ensures forall e :: e in Entries(d) <==> e in d
    ensures |Entries(d)| == |d|
  {
    var ix := IndexEntries(d);
    var sx := Sort(ix, KeyLe);
    var ot := OtherEntries(d);
    assert Entries(d) == sx + ot;
    forall e ensures e in Entries(d) <==> e in d {
      SortSameElements(ix, KeyLe, e);
      if e in d {
        var i :| 0 <= i < |d| && d[i] == e;
      }
      if e in ix {
        var i :| 0 <= i < |ix| && ix[i] == e;
      }
      if e in ot {
        var i :| 0 <= i < |ot| && ot[i] == e;
      }
    }
    EntriesCount(d);
  }

  /** Where an entry of `Object.entries` comes from. */
  lemma EntryOrigin<V>(d: Dict<V>, i: nat) returns (j: nat)
    requires i < |Entries(d)|
    ensures j < |d| && d[j] == Entries(d)[i]
  {
    var ix := IndexEntries(d);
    var sx := Sort(ix, KeyLe);
    var ot := OtherEntries(d);
    assert Entries(d) == sx + ot;
    var e := Entries(d)[i];
    if i < |sx| {
      assert e == sx[i];
      assert e in multiset(sx);
      assert e in multiset(ix);
      var k :| 0 <= k < |ix| && ix[k] == e;
      assert e in d;
    } else {
      assert e == ot[i - |sx|];
      assert e in d;
    }
    j :| 0 <= j < |d| && d[j] == e;
  }

  /** The array-index keys come first and ascending, then the others. */
  lemma EntriesOrder<V>(d: Dict<V>)
    ensures var n := |IndexEntries(d)|;
      && n <= |Entries(d)|
      && SortedBy(Entries(d)[..n], KeyLe)
      && (forall i :: 0 <= i < n ==> IsIndexKey(Entries(d)[i].0))
      && (forall i :: n <= i < |Entries(d)| ==> !IsIndexKey(Entries(d)[i].0))
  {
    var ix := IndexEntries(d);
    var sx := Sort(ix, KeyLe);
    assert TotalPreorderOn(ix, KeyLe);
    SortSorted(ix, KeyLe);
    assert Entries(d)[..|ix|] == sx;
    forall i | 0 <= i < |ix| ensures IsIndexKey(Entries(d)[i].0) {
      SortSameElements(ix, KeyLe, sx[i]);
      assert sx[i] in ix;
    }
    forall i | |ix| <= i < |Entries(d)| ensures !IsIndexKey(Entries(d)[i].0) {
      assert Entries(d)[i] == OtherEntries(d)[i - |ix|];
    }
  }

  lemma {:induction false} EntriesCount<V>(d: Dict<V>)
    ensures |IndexEntries(d)| + |OtherEntries(d)| == |d|
    decreases |d|
  {
    if d != [] {
      EntriesCount(d[..|d| - 1]);
    }
  }

  /** `v` is among the values exactly when some key holds it. */
  lemma ValuesIff<V>(d: Dict<V>, v: V)
    ensures v in Values(d) <==> exists k :: (k, v) in d
  {
    EntriesSame(d);
    var es := Entries(d);
    if v in Values(d) {
      var i :| 0 <= i < |Values(d)| && Values(d)[i] == v;
      assert es[i] in d;
    }
    if exists k :: (k, v) in d {
      var k :| (k, v) in d;
      assert (k, v) in es;
      var i :| 0 <= i < |es| && es[i] == (k, v);
      assert Values(d)[i] == v;
    }
  }
}
