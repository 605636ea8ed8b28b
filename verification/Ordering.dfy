/** Stable sorting by a comparator, as `Array.prototype.sort` performs it. */
module Ordering {
  import opened Seqs

  /** Asymmetric and negatively transitive: "not less both ways" is an equivalence. */
  ghost predicate WeakOrder<T(!new)>(less: (T, T) -> bool) {
    && (forall a, b :: less(a, b) ==> !less(b, a))
    && (forall a, b, c :: less(a, b) ==> less(a, c) || less(c, b))
  }

  ghost predicate SortedBy<T>(s: seq<T>, less: (T, T) -> bool) {
    forall i, j :: 0 <= i < j < |s| ==> !less(s[j], s[i])
  }

  /** No two entries at different places are tied. */
  ghost predicate Untied<T>(s: seq<T>, less: (T, T) -> bool) {
    forall i, j :: 0 <= i < j < |s| ==> less(s[i], s[j]) || less(s[j], s[i])
  }

  function Insert<T>(x: T, s: seq<T>, less: (T, T) -> bool): (r: seq<T>)
    ensures multiset(r) == multiset{x} + multiset(s)
  {
    if s == [] then [x]
    else if less(s[0], x) then
      assert s == [s[0]] + s[1..];
      [s[0]] + Insert(x, s[1..], less)
    else [x] + s
  }

  function Sort<T>(s: seq<T>, less: (T, T) -> bool): (r: seq<T>)
    ensures multiset(r) == multiset(s)
  {
    if s == [] then []
    else
      assert s == [s[0]] + s[1..];
      Insert(s[0], Sort(s[1..], less), less)
  }

  lemma SameElements<T(!new)>(r: seq<T>, s: seq<T>)
    requires multiset(r) == multiset(s)
    ensures |r| == |s|
    ensures forall x :: x in r <==> x in s
  {
    assert |multiset(r)| == |multiset(s)|;
    forall x ensures x in r <==> x in s {
      assert x in r <==> x in multiset(r);
      assert x in s <==> x in multiset(s);
    }
  }

  lemma {:induction false} InsertSorted<T(!new)>(x: T, s: seq<T>, less: (T, T) -> bool)
    requires WeakOrder(less) && SortedBy(s, less)
    ensures SortedBy(Insert(x, s, less), less)
  {
    if s != [] && less(s[0], x) {
      InsertSorted(x, s[1..], less);
      var r := Insert(x, s[1..], less);
      forall j | 0 <= j < |r| ensures !less(r[j], s[0]) {
        assert r[j] in multiset(r);
        if r[j] != x { assert r[j] in s[1..]; }
      }
    }
  }

  lemma {:induction false} SortSorted<T(!new)>(s: seq<T>, less: (T, T) -> bool)
    requires WeakOrder(less)
    ensures SortedBy(Sort(s, less), less)
  {
    if s != [] {
      SortSorted(s[1..], less);
      InsertSorted(s[0], Sort(s[1..], less), less);
    }
  }

  lemma FilterCons<T>(x: T, s: seq<T>, p: T -> bool)
    ensures Filter([x] + s, p) == (if p(x) then [x] else []) + Filter(s, p)
  {
    assert ([x] + s)[0] == x && ([x] + s)[1..] == s;
    assert [] + Filter(s, p) == Filter(s, p);
  }

  lemma {:induction false} InsertTies<T(!new)>(x: T, s: seq<T>, less: (T, T) -> bool, p: T -> bool)
    requires WeakOrder(less) && forall a, b :: p(a) && p(b) ==> !less(a, b)
    ensures Filter(Insert(x, s, less), p) == (if p(x) then [x] else []) + Filter(s, p)
  {
    hide Filter;
    if s == [] {
      assert [x] + s == [x];
      FilterCons(x, s, p);
    } else if !less(s[0], x) {
      FilterCons(x, s, p);
    } else {
      InsertTies(x, s[1..], less, p);
      InsertBehind(x, s[0], s[1..], Insert(x, s[1..], less), p);
      assert s == [s[0]] + s[1..];
    }
  }

  lemma InsertBehind<T(!new)>(x: T, y: T, rest: seq<T>, longer: seq<T>, p: T -> bool)
    requires !(p(y) && p(x)) && Filter(longer, p) == (if p(x) then [x] else []) + Filter(rest, p)
    ensures Filter([y] + longer, p) == (if p(x) then [x] else []) + Filter([y] + rest, p)
  {
    FilterCons(y, longer, p);
    FilterCons(y, rest, p);
    hide Filter;
    NotBoth(if p(y) then [y] else [], if p(x) then [x] else [], Filter(rest, p));
  }

  lemma NotBoth<T>(a: seq<T>, b: seq<T>, c: seq<T>)
    requires a == [] || b == []
    ensures a + (b + c) == b + (a + c)
  {
    assert [] + c == c;
  }

  /** Elements that are tied keep their order. */
  lemma {:induction false} SortStable<T(!new)>(s: seq<T>, less: (T, T) -> bool, p: T -> bool)
    requires WeakOrder(less) && forall a, b :: p(a) && p(b) ==> !less(a, b)
    ensures Filter(Sort(s, less), p) == Filter(s, p)
  {
    if s != [] {
      SortStable(s[1..], less, p);
      InsertTies(s[0], Sort(s[1..], less), less, p);
    }
  }

  lemma SortApart<T(!new), K>(s: seq<T>, less: (T, T) -> bool, key: T -> K)
    requires KeysApart(s, key)
    ensures KeysApart(Sort(s, less), key)
  {
    var r := Sort(s, less);
    assert NoDup(s);
    SortNoDup(s, less);
    SameElements(r, s);
    forall i, j | 0 <= i < j < |r| ensures key(r[i]) != key(r[j]) {
      assert r[i] in s && r[j] in s && r[i] != r[j];
      var k :| 0 <= k < |s| && s[k] == r[i];
      var m :| 0 <= m < |s| && s[m] == r[j];
    }
  }

  lemma PermutationNoDup<T(!new)>(r: seq<T>, s: seq<T>)
    requires multiset(r) == multiset(s) && NoDup(s)
    ensures NoDup(r)
  {
    NoDupMultiset(s);
    forall i, j | 0 <= i < j < |r| ensures r[i] != r[j] {
      assert r == r[..j] + [r[j]] + r[j + 1..];
      assert r[i] in r[..j];
      assert multiset(r)[r[j]] <= 1;
    }
  }

  lemma SortNoDup<T(!new)>(s: seq<T>, less: (T, T) -> bool)
    requires NoDup(s)
    ensures NoDup(Sort(s, less))
  {
    PermutationNoDup(Sort(s, less), s);
  }

  lemma SortedHeads<T(!new)>(a: seq<T>, b: seq<T>, less: (T, T) -> bool)
    requires SortedBy(a, less) && SortedBy(b, less) && Untied(a, less)
    requires multiset(a) == multiset(b) && a != []
    ensures b != [] && a[0] == b[0]
  {
    SameElements(a, b);
    assert a[0] in b && (b != [] ==> b[0] in a);
    var j := IndexOf(b, a[0]);
    var i := IndexOf(a, b[0]);
    assert i > 0 ==> less(a[0], a[i]);
    assert j > 0 ==> !less(b[j], b[0]);
  }

  lemma IndexOf<T(!new)>(s: seq<T>, x: T) returns (i: nat)
    requires x in s
    ensures i < |s| && s[i] == x
  {
    i :| 0 <= i < |s| && s[i] == x;
  }

  /** A sorted arrangement without ties is the only one. */
  lemma {:induction false} SortedUnique<T(!new)>(a: seq<T>, b: seq<T>, less: (T, T) -> bool)
    requires SortedBy(a, less) && SortedBy(b, less) && Untied(a, less)
    requires multiset(a) == multiset(b)
    ensures a == b
  {
    if a == [] {
      SameElements(a, b);
    } else {
      SortedHeads(a, b, less);
      DropHead(a);
      DropHead(b);
      hide SortedBy, Untied;
      SortedUnique(a[1..], b[1..], less);
    }
  }

  lemma DropHead<T>(s: seq<T>)
    requires s != []
    ensures s == [s[0]] + s[1..] && multiset(s[1..]) == multiset(s) - multiset{s[0]}
  {
    assert s == [s[0]] + s[1..];
  }
}
