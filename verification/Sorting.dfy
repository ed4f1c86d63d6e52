/** Rust's stable `sort_by_key` and `dedup_by`, and what they mean: a strictly sorted list is determined by its
    elements, and sort-then-dedup keeps, for every key, the element offered FIRST. */
module Sorting {
  import opened Options

  ghost predicate Sorted<T>(s: seq<T>, key: T -> int) {
    forall i, j :: 0 <= i < j < |s| ==> key(s[i]) <= key(s[j])
  }

  ghost predicate Strict<T>(s: seq<T>, key: T -> int) {
    forall i, j :: 0 <= i < j < |s| ==> key(s[i]) < key(s[j])
  }

  ghost function Keys<T>(s: seq<T>, key: T -> int): set<int> {
    set x | x in s :: key(x)
  }

  /** `x` goes in front of the first element that does not sort before it. */
  function Insert<T>(x: T, s: seq<T>, key: T -> int): seq<T> {
    if s == [] || key(x) <= key(s[0]) then [x] + s else [s[0]] + Insert(x, s[1..], key)
  }

  /** Stable: an element is inserted in front of the equal ones that came after it. */
  function Sort<T>(s: seq<T>, key: T -> int): seq<T> {
    if s == [] then [] else Insert(s[0], Sort(s[1..], key), key)
  }

  /** Of each run of equal keys, the first. */
  function Dedup<T>(s: seq<T>, key: T -> int): seq<T>
    decreases |s|
  {
    if |s| < 2 then s
    else if key(s[0]) == key(s[1]) then Dedup([s[0]] + s[2..], key)
    else [s[0]] + Dedup(s[1..], key)
  }

  /** The first element with this key, in the order offered. */
  function First<T>(s: seq<T>, key: T -> int, k: int): Option<T> {
    if s == [] then None else if key(s[0]) == k then Some(s[0]) else First(s[1..], key, k)
  }

  lemma SortedCons<T>(x: T, s: seq<T>, key: T -> int)
    requires Sorted(s, key) && (s == [] || key(x) <= key(s[0]))
    ensures Sorted([x] + s, key)
  {
    var r := [x] + s;
    forall i, j | 0 <= i < j < |r| ensures key(r[i]) <= key(r[j]) {
      assert r[j] == s[j - 1];
      if i > 0 { assert r[i] == s[i - 1]; }
    }
  }

  lemma StrictCons<T>(x: T, s: seq<T>, key: T -> int)
    requires Strict(s, key) && (s == [] || key(x) < key(s[0]))
    ensures Strict([x] + s, key)
  {
    var r := [x] + s;
    forall i, j | 0 <= i < j < |r| ensures key(r[i]) < key(r[j]) {
      assert r[j] == s[j - 1];
      if i > 0 { assert r[i] == s[i - 1]; }
    }
  }

  lemma {:induction false} InsertSorted<T>(x: T, s: seq<T>, key: T -> int)
    requires Sorted(s, key)
    ensures Sorted(Insert(x, s, key), key)
    ensures multiset(Insert(x, s, key)) == multiset{x} + multiset(s)
  {
    if s == [] || key(x) <= key(s[0]) {
      SortedCons(x, s, key);
    } else {
      InsertSorted(x, s[1..], key);
      var t := Insert(x, s[1..], key);
      assert s == [s[0]] + s[1..];
      if t != [] {
        assert t[0] in multiset(t);
        assert t[0] == x || t[0] in s[1..];
      }
      SortedCons(s[0], t, key);
    }
  }

  lemma {:induction false} SortSorts<T>(s: seq<T>, key: T -> int)
    ensures Sorted(Sort(s, key), key)
    ensures multiset(Sort(s, key)) == multiset(s)
  {
    if s != [] {
      SortSorts(s[1..], key);
      InsertSorted(s[0], Sort(s[1..], key), key);
      assert s == [s[0]] + s[1..];
    }
  }

  lemma SortElem<T>(s: seq<T>, key: T -> int, x: T)
    ensures x in Sort(s, key) <==> x in s
  {
    SortSorts(s, key);
    assert x in multiset(s) <==> x in s;
    assert x in multiset(Sort(s, key)) <==> x in Sort(s, key);
  }

  lemma SortSize<T>(s: seq<T>, key: T -> int)
    ensures |Sort(s, key)| == |s|
  {
    SortSorts(s, key);
    assert |multiset(s)| == |s| && |multiset(Sort(s, key))| == |Sort(s, key)|;
  }

  /** Distinct keys sort strictly. */
  lemma {:induction false} SortStrict<T>(s: seq<T>, key: T -> int)
    requires forall i, j :: 0 <= i < j < |s| ==> key(s[i]) != key(s[j])
    ensures Strict(Sort(s, key), key)
  {
    if s != [] {
      var t := Sort(s[1..], key);
      SortStrict(s[1..], key);
      forall y | y in t ensures key(y) != key(s[0]) {
        SortElem(s[1..], key, y);
        var j :| 0 <= j < |s[1..]| && s[1..][j] == y;
        assert y == s[j + 1];
      }
      InsertStrict(s[0], t, key);
    }
  }

  lemma {:induction false} InsertStrict<T>(x: T, s: seq<T>, key: T -> int)
    requires Strict(s, key) && forall y :: y in s ==> key(y) != key(x)
    ensures Strict(Insert(x, s, key), key)
  {
    if s == [] || key(x) <= key(s[0]) {
      StrictCons(x, s, key);
    } else {
      InsertStrict(x, s[1..], key);
      InsertHead(x, s[1..], key);
      StrictCons(s[0], Insert(x, s[1..], key), key);
    }
  }

  lemma InsertHead<T>(x: T, s: seq<T>, key: T -> int)
    ensures Insert(x, s, key) != []
    ensures Insert(x, s, key)[0] == x || (s != [] && Insert(x, s, key)[0] == s[0])
  {
  }

  /** A strictly sorted list is already sorted. */
  lemma {:induction false} SortFixed<T>(s: seq<T>, key: T -> int)
    requires Strict(s, key)
    ensures Sort(s, key) == s
  {
    if s != [] {
      SortFixed(s[1..], key);
      assert s == [s[0]] + s[1..];
    }
  }

  lemma SameEmpty<T>(s: seq<T>, t: seq<T>)
    requires forall x :: x in s <==> x in t
    ensures s == [] <==> t == []
  {
    if s != [] { assert s[0] in s; }
    if t != [] { assert t[0] in t; }
  }

  /** A strictly sorted list has one spelling. */
  lemma {:induction false} StrictUnique<T>(s: seq<T>, t: seq<T>, key: T -> int)
    requires Strict(s, key) && Strict(t, key)
    requires forall x :: x in s <==> x in t
    ensures s == t
  {
    SameEmpty(s, t);
    if s != [] {
      assert s[0] in s;
      assert t[0] in t;
      assert s[0] in t && t[0] in s;
      assert s[0] == t[0];
      forall x ensures x in s[1..] <==> x in t[1..] {
        if x in s[1..] { InTail(s, t, key, x); }
        if x in t[1..] { InTail(t, s, key, x); }
      }
      StrictUnique(s[1..], t[1..], key);
      assert s == [s[0]] + s[1..] && t == [t[0]] + t[1..];
    }
  }

  lemma InTail<T>(s: seq<T>, t: seq<T>, key: T -> int, x: T)
    requires Strict(s, key) && s != [] && t != [] && s[0] == t[0] && x in s[1..] && x in t
    ensures x in t[1..]
  {
    var i :| 0 <= i < |s[1..]| && s[1..][i] == x;
    assert x == s[i + 1];
    var j :| 0 <= j < |t| && t[j] == x;
    assert j > 0;
    assert t[1..][j - 1] == x;
  }

  lemma StrictDistinct<T>(s: seq<T>, key: T -> int, x: T, y: T)
    requires Strict(s, key) && x in s && y in s && key(x) == key(y)
    ensures x == y
  {
  }

  // -------------------------------------------------------------- first of each

  lemma {:induction false} FirstIn<T>(s: seq<T>, key: T -> int, k: int)
    ensures First(s, key, k).None? <==> k !in Keys(s, key)
    ensures First(s, key, k).Some? ==> First(s, key, k).value in s && key(First(s, key, k).value) == k
  {
    if s != [] {
      FirstIn(s[1..], key, k);
      assert s == [s[0]] + s[1..];
      assert s[0] in s;
    }
  }

  lemma {:induction false} FirstAppend<T>(a: seq<T>, b: seq<T>, key: T -> int, k: int)
    ensures First(a + b, key, k) == if First(a, key, k).Some? then First(a, key, k) else First(b, key, k)
  {
    if a == [] {
      assert a + b == b;
    } else {
      FirstAppend(a[1..], b, key, k);
      assert (a + b)[1..] == a[1..] + b;
    }
  }

  lemma {:induction false} FirstInsert<T>(x: T, s: seq<T>, key: T -> int, k: int)
    ensures First(Insert(x, s, key), key, k) == if key(x) == k then Some(x) else First(s, key, k)
  {
    var r := Insert(x, s, key);
    if s == [] || key(x) <= key(s[0]) {
      assert r[1..] == s;
    } else {
      FirstInsert(x, s[1..], key, k);
      assert r[1..] == Insert(x, s[1..], key);
    }
  }

  /** Sorting is stable: it does not change which element comes first for a key. */
  lemma {:induction false} FirstSort<T>(s: seq<T>, key: T -> int, k: int)
    ensures First(Sort(s, key), key, k) == First(s, key, k)
  {
    if s != [] {
      FirstSort(s[1..], key, k);
      FirstInsert(s[0], Sort(s[1..], key), key, k);
    }
  }

  lemma {:induction false} DedupKeeps<T>(s: seq<T>, key: T -> int, k: int)
    requires Sorted(s, key)
    ensures Strict(Dedup(s, key), key)
    ensures s != [] ==> Dedup(s, key) != [] && Dedup(s, key)[0] == s[0]
    ensures First(Dedup(s, key), key, k) == First(s, key, k)
    decreases |s|
  {
    if |s| >= 2 {
      if key(s[0]) == key(s[1]) {
        var r := [s[0]] + s[2..];
        DedupKeeps(r, key, k);
        assert r[1..] == s[2..] && s[1..][1..] == s[2..];
      } else {
        DedupKeeps(s[1..], key, k);
        StrictCons(s[0], Dedup(s[1..], key), key);
        assert Dedup(s, key)[1..] == Dedup(s[1..], key);
      }
    }
  }

  /** Sort-then-dedup: strictly sorted, and for every key the element offered first. */
  lemma UniqueSorted<T>(s: seq<T>, key: T -> int)
    ensures Strict(Dedup(Sort(s, key), key), key)
    ensures forall k :: First(Dedup(Sort(s, key), key), key, k) == First(s, key, k)
  {
    SortSorts(s, key);
    DedupKeeps(Sort(s, key), key, 0);
    forall k ensures First(Dedup(Sort(s, key), key), key, k) == First(s, key, k) {
      DedupKeeps(Sort(s, key), key, k);
      FirstSort(s, key, k);
    }
  }

  lemma {:induction false} FirstOfStrict<T>(s: seq<T>, key: T -> int, x: T)
    requires Strict(s, key)
    ensures x in s <==> First(s, key, key(x)) == Some(x)
  {
    FirstIn(s, key, key(x));
    if x in s {
      StrictDistinct(s, key, x, First(s, key, key(x)).value);
    }
  }

  /** Strictly sorted lists that answer every lookup alike are equal. */
  lemma StrictByFirst<T>(s: seq<T>, t: seq<T>, key: T -> int)
    requires Strict(s, key) && Strict(t, key)
    requires forall k :: First(s, key, k) == First(t, key, k)
    ensures s == t
  {
    forall x ensures x in s <==> x in t {
      FirstOfStrict(s, key, x);
      FirstOfStrict(t, key, x);
    }
    StrictUnique(s, t, key);
  }

  lemma KeysByFirst<T>(s: seq<T>, t: seq<T>, key: T -> int)
    requires forall k :: First(s, key, k).Some? <==> First(t, key, k).Some?
    ensures Keys(s, key) == Keys(t, key)
  {
    forall k ensures k in Keys(s, key) <==> k in Keys(t, key) {
      FirstIn(s, key, k);
      FirstIn(t, key, k);
    }
  }

  lemma UniqueSortedKeys<T>(s: seq<T>, key: T -> int)
    ensures Keys(Dedup(Sort(s, key), key), key) == Keys(s, key)
  {
    UniqueSorted(s, key);
    KeysByFirst(Dedup(Sort(s, key), key), s, key);
  }

  /** Strictly sorted lists hold each key once, so their length is the number of keys. */
  lemma {:induction false} StrictSize<T>(s: seq<T>, key: T -> int)
    requires Strict(s, key)
    ensures |s| == |Keys(s, key)|
  {
    if s != [] {
      StrictSize(s[1..], key);
      assert s == [s[0]] + s[1..];
      assert Keys(s, key) == {key(s[0])} + Keys(s[1..], key);
    }
  }

  // --------------------------------------------------------------------- filter

  function Filter<T>(s: seq<T>, keep: T -> bool): seq<T> {
    if s == [] then [] else (if keep(s[0]) then [s[0]] else []) + Filter(s[1..], keep)
  }

  lemma {:induction false} FilterElem<T>(s: seq<T>, keep: T -> bool, x: T)
    ensures x in Filter(s, keep) <==> x in s && keep(x)
    ensures |Filter(s, keep)| <= |s|
  {
    if s != [] {
      FilterElem(s[1..], keep, x);
      assert x in s <==> x == s[0] || x in s[1..];
    }
  }

  lemma {:induction false} FilterStrict<T>(s: seq<T>, keep: T -> bool, key: T -> int)
    requires Strict(s, key)
    ensures Strict(Filter(s, keep), key)
  {
    if s != [] {
      FilterStrict(s[1..], keep, key);
      var t := Filter(s[1..], keep);
      if keep(s[0]) {
        if t != [] {
          FilterElem(s[1..], keep, t[0]);
          var j :| 0 <= j < |s[1..]| && s[1..][j] == t[0];
          assert t[0] == s[j + 1];
        }
        StrictCons(s[0], t, key);
        assert Filter(s, keep) == [s[0]] + t;
      }
    }
  }

  /** A strictly sorted list has nothing to drop. */
  lemma {:induction false} DedupFixed<T>(s: seq<T>, key: T -> int)
    requires Strict(s, key)
    ensures Dedup(s, key) == s
    decreases |s|
  {
    if |s| >= 2 {
      DedupFixed(s[1..], key);
      assert s == [s[0]] + s[1..];
    }
  }

  lemma {:induction false} FirstFilter<T>(s: seq<T>, f: T -> bool, g: T -> bool, key: T -> int, k: int)
    requires forall x :: x in s && key(x) == k ==> f(x) == g(x)
    ensures First(Filter(s, f), key, k) == First(Filter(s, g), key, k)
    decreases |s|
  {
    if s != [] {
      assert s[0] in s;
      FirstFilter(s[1..], f, g, key, k);
      FirstAppend(if f(s[0]) then [s[0]] else [], Filter(s[1..], f), key, k);
      FirstAppend(if g(s[0]) then [s[0]] else [], Filter(s[1..], g), key, k);
    }
  }

  lemma {:induction false} FilterNone<T>(s: seq<T>, keep: T -> bool)
    requires forall x :: x in s ==> !keep(x)
    ensures Filter(s, keep) == []
    decreases |s|
  {
    if s != [] {
      assert s[0] in s;
      FilterNone(s[1..], keep);
    }
  }

  lemma {:induction false} FilterAll<T>(s: seq<T>, keep: T -> bool)
    requires forall x :: x in s ==> keep(x)
    ensures Filter(s, keep) == s
    decreases |s|
  {
    if s != [] {
      assert s[0] in s;
      FilterAll(s[1..], keep);
      assert s == [s[0]] + s[1..];
    }
  }

  lemma {:induction false} FilterAppend<T>(a: seq<T>, b: seq<T>, keep: T -> bool)
    ensures Filter(a + b, keep) == Filter(a, keep) + Filter(b, keep)
  {
    if a == [] {
      assert a + b == b;
    } else {
      FilterAppend(a[1..], b, keep);
      assert (a + b)[1..] == a[1..] + b;
      var h := if keep(a[0]) then [a[0]] else [];
      assert h + (Filter(a[1..], keep) + Filter(b, keep)) == h + Filter(a[1..], keep) + Filter(b, keep);
    }
  }
}

/** The best `m` of a strictly sorted list are its first `m`. */
module SortedTop {
  import opened Options
  import opened Sorting
  import opened TopK

  ghost function Labels<T, L>(s: seq<T>, f: T -> L): set<L> {
    set x | x in s :: f(x)
  }

  ghost predicate RanksBy<T, L>(s: seq<T>, f: T -> L, rank: L -> int, key: T -> int) {
    forall x :: x in s ==> key(x) == rank(f(x))
  }

  lemma PrefixBelow<T, L>(s: seq<T>, f: T -> L, rank: L -> int, key: T -> int, i: nat)
    requires Strict(s, key) && RanksBy(s, f, rank, key) && i < |s|
    ensures Below(Labels(s, f), rank, f(s[i])) == Labels(s[..i], f)
    ensures |Labels(s[..i], f)| == i
  {
    forall l | l in Below(Labels(s, f), rank, f(s[i])) ensures l in Labels(s[..i], f) {
      var j :| 0 <= j < |s| && f(s[j]) == l;
      assert j < i;
      assert s[..i][j] == s[j];
    }
    forall l | l in Labels(s[..i], f) ensures l in Below(Labels(s, f), rank, f(s[i])) {
      var j :| 0 <= j < i && f(s[..i][j]) == l;
      assert s[j] in s && s[..i][j] == s[j];
    }
    LabelsSize(s[..i], f, rank, key);
  }

  lemma {:induction false} LabelsSize<T, L>(s: seq<T>, f: T -> L, rank: L -> int, key: T -> int)
    requires Strict(s, key) && RanksBy(s, f, rank, key)
    ensures |Labels(s, f)| == |s|
    decreases |s|
  {
    if s != [] {
      var rest := s[1..];
      assert s == [s[0]] + rest;
      assert forall x :: x in rest ==> x in s;
      LabelsSize(rest, f, rank, key);
      forall x | x in rest ensures f(x) != f(s[0]) {
        var j :| 0 <= j < |rest| && rest[j] == x;
        assert s[j + 1] == x && key(s[0]) < key(x);
      }
      assert Labels(s, f) == {f(s[0])} + Labels(rest, f);
    }
  }

  lemma PrefixIsTop<T, L>(s: seq<T>, f: T -> L, rank: L -> int, key: T -> int, m: nat)
    requires Strict(s, key) && RanksBy(s, f, rank, key)
    ensures Labels(s[..Min(m, |s|)], f) == Top(Labels(s, f), rank, m)
  {
    var t := s[..Min(m, |s|)];
    forall l | l in Labels(t, f) ensures l in Top(Labels(s, f), rank, m) {
      var i :| 0 <= i < |t| && f(t[i]) == l;
      assert s[i] == t[i] && s[i] in s;
      PrefixBelow(s, f, rank, key, i);
    }
    forall l | l in Top(Labels(s, f), rank, m) ensures l in Labels(t, f) {
      var i :| 0 <= i < |s| && f(s[i]) == l;
      PrefixBelow(s, f, rank, key, i);
      assert t[i] == s[i];
    }
  }
}
