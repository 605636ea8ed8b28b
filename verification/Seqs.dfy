/** Options and the array helpers (`filter`, `map`, `flatMap`) the source leans on. */
module Seqs {
  datatype Option<+T> = None | Some(value: T)

  function Filter<T>(s: seq<T>, p: T -> bool): (r: seq<T>)
    ensures |r| <= |s|
    ensures forall i :: 0 <= i < |r| ==> r[i] in s && p(r[i])
  {
    if s == [] then []
    else if p(s[0]) then [s[0]] + Filter(s[1..], p)
    else Filter(s[1..], p)
  }

  lemma {:induction false} FilterMember<T>(s: seq<T>, p: T -> bool, x: T)
    ensures x in Filter(s, p) <==> x in s && p(x)
  {
    if s != [] {
      FilterMember(s[1..], p, x);
      assert x in s <==> x == s[0] || x in s[1..];
    }
  }

  lemma {:induction false} FilterNone<T>(s: seq<T>, p: T -> bool)
    requires forall i :: 0 <= i < |s| ==> !p(s[i])
    ensures Filter(s, p) == []
  {
    if s != [] { FilterNone(s[1..], p); }
  }

  lemma {:induction false} FilterAll<T>(s: seq<T>, p: T -> bool)
    requires forall i :: 0 <= i < |s| ==> p(s[i])
    ensures Filter(s, p) == s
  {
    if s != [] {
      FilterAll(s[1..], p);
      assert s == [s[0]] + s[1..];
    }
  }

  lemma FilterMembers<T(!new)>(s: seq<T>, p: T -> bool)
    ensures forall x :: x in Filter(s, p) <==> x in s && p(x)
  {
    forall x ensures x in Filter(s, p) <==> x in s && p(x) { FilterMember(s, p, x); }
  }

  lemma {:induction false} FilterAppend<T>(s: seq<T>, t: seq<T>, p: T -> bool)
    ensures Filter(s + t, p) == Filter(s, p) + Filter(t, p)
  {
    if s == [] {
      assert s + t == t;
    } else {
      assert (s + t)[0] == s[0] && (s + t)[1..] == s[1..] + t;
      FilterAppend(s[1..], t, p);
    }
  }

  /** `part` is what `p` picks from `all`, each where it stands and in that order. */
  ghost predicate Picks<T(!new)>(part: seq<T>, all: seq<T>, p: T -> bool) {
    exists at: seq<nat> :: PicksAt(part, all, p, at)
  }

  ghost predicate PicksAt<T(!new)>(part: seq<T>, all: seq<T>, p: T -> bool, at: seq<nat>) {
    && |at| == |part| && (forall i, j :: 0 <= i < j < |at| ==> at[i] < at[j])
    && (forall i :: 0 <= i < |at| ==> at[i] < |all| && part[i] == all[at[i]])
    && (forall k: nat :: k < |all| ==> (p(all[k]) <==> k in at))
  }

  lemma PicksNext<T(!new)>(part: seq<T>, all: seq<T>, p: T -> bool, x: T)
    requires Picks(part, all, p)
    ensures Picks(part + (if p(x) then [x] else []), all + [x], p)
  {
    var at :| PicksAt(part, all, p, at);
    if p(x) {
      PicksThis(part, all, p, x, at);
    } else {
      PicksOther(part, all, p, x, at);
      AppendNil(part);
    }
  }

  lemma PicksOther<T(!new)>(part: seq<T>, all: seq<T>, p: T -> bool, x: T, at: seq<nat>)
    requires PicksAt(part, all, p, at) && !p(x)
    ensures PicksAt(part, all + [x], p, at)
  {
    assert forall k :: k in at ==> k < |all|;
  }

  lemma PicksThis<T(!new)>(part: seq<T>, all: seq<T>, p: T -> bool, x: T, at: seq<nat>)
    requires PicksAt(part, all, p, at) && p(x)
    ensures PicksAt(part + [x], all + [x], p, at + [|all|])
  {
    var n := |all|;
    var all', at' := all + [x], at + [n];
    assert at'[|at|] == n;
    assert forall k :: k in at' <==> k in at || k == n;
    forall k: nat | k < n + 1 ensures p(all'[k]) <==> k in at' {
      if k < n { assert all'[k] == all[k]; }
    }
  }

  /** What a filter keeps. */
  lemma {:induction false} FilterPicks<T(!new)>(s: seq<T>, p: T -> bool)
    ensures Picks(Filter(s, p), s, p)
  {
    if s == [] {
      assert PicksAt(Filter(s, p), s, p, []);
    } else {
      var n := |s| - 1;
      FilterPicks(s[..n], p);
      FilterNext(s, n, p);
      PicksNext(Filter(s[..n], p), s[..n], p, s[n]);
      hide Picks;
      TakeAll(s);
      assert s[..n] + [s[n]] == s;
    }
  }

  lemma FilterNext<T>(s: seq<T>, i: nat, p: T -> bool)
    requires i < |s|
    ensures Filter(s[..i + 1], p) == Filter(s[..i], p) + (if p(s[i]) then [s[i]] else [])
  {
    TakeNext(s, i);
    FilterAppend(s[..i], [s[i]], p);
    assert [s[i]][1..] == [];
    AppendNil(Filter(s[..i], p));
  }

  lemma {:induction false} FilterNoDup<T>(s: seq<T>, p: T -> bool)
    requires NoDup(s)
    ensures NoDup(Filter(s, p))
  {
    if s != [] {
      FilterNoDup(s[1..], p);
      FilterMember(s[1..], p, s[0]);
      assert s[0] !in s[1..];
    }
  }

  function Map<T, U>(s: seq<T>, f: T -> U): (r: seq<U>)
    ensures |r| == |s|
    ensures forall i :: 0 <= i < |s| ==> r[i] == f(s[i])
  {
    seq(|s|, i requires 0 <= i < |s| => f(s[i]))
  }

  lemma AppendAssoc<T>(a: seq<T>, b: seq<T>, c: seq<T>)
    ensures (a + b) + c == a + (b + c)
  {
  }

  lemma InitOfSnoc<T>(p: seq<T>, x: T)
    ensures (p + [x])[..|p + [x]| - 1] == p
  {
  }

  lemma InitOfConcat<T>(p: seq<T>, q: seq<T>)
    requires q != []
    ensures (p + q)[..|p + q| - 1] == p + q[..|q| - 1]
  {
  }

  lemma AppendNil<T>(a: seq<T>)
    ensures a + [] == a
  {
  }

  lemma MapSnoc<T, U>(s: seq<T>, x: T, f: T -> U)
    ensures Map(s + [x], f) == Map(s, f) + [f(x)]
  {
  }

  lemma {:induction false} FlatMapSnoc<T, U>(s: seq<T>, x: T, f: T -> seq<U>)
    ensures FlatMap(s + [x], f) == FlatMap(s, f) + f(x)
  {
    if s == [] {
      assert [x][1..] == [];
    } else {
      FlatMapSnoc(s[1..], x, f);
      assert (s + [x])[0] == s[0] && (s + [x])[1..] == s[1..] + [x];
    }
  }

  lemma {:induction false} FlatMapAppend<T, U>(s: seq<T>, t: seq<T>, f: T -> seq<U>)
    ensures FlatMap(s + t, f) == FlatMap(s, f) + FlatMap(t, f)
  {
    if s == [] {
      assert s + t == t;
    } else {
      FlatMapAppend(s[1..], t, f);
      assert (s + t)[1..] == s[1..] + t && (s + t)[0] == s[0];
      AppendAssoc(f(s[0]), FlatMap(s[1..], f), FlatMap(t, f));
    }
  }

  lemma FlatMapTwo<T, U>(x: T, y: T, f: T -> seq<U>)
    ensures FlatMap([x, y], f) == f(x) + f(y)
  {
    assert [x, y][1..] == [y] && [y][1..] == [];
    assert FlatMap([y], f) == f(y) + FlatMap([], f);
  }

  lemma AppendNoDup<T>(a: seq<T>, b: seq<T>)
    requires NoDup(a) && NoDup(b) && forall x :: x in a ==> x !in b
    ensures NoDup(a + b) && SetOf(a + b) == SetOf(a) + SetOf(b)
  {
    forall i, j | 0 <= i < |a| && 0 <= j < |b| ensures a[i] != b[j] {
      assert a[i] in a;
    }
  }

  function FlatMap<T, U>(s: seq<T>, f: T -> seq<U>): seq<U> {
    if s == [] then [] else f(s[0]) + FlatMap(s[1..], f)
  }

  lemma {:induction false} FlatMapMember<T, U>(s: seq<T>, f: T -> seq<U>, y: U)
    ensures y in FlatMap(s, f) <==> exists i :: 0 <= i < |s| && y in f(s[i])
  {
    if s != [] {
      FlatMapMember(s[1..], f, y);
      if y in f(s[0]) {
        assert exists i :: 0 <= i < |s| && y in f(s[i]);
      }
      if i :| 0 <= i < |s[1..]| && y in f(s[1..][i]) {
        assert y in f(s[i + 1]);
      }
      if i :| 0 <= i < |s| && y in f(s[i]) {
        if i > 0 { assert y in f(s[1..][i - 1]); }
      }
    }
  }

  ghost predicate NoDup<T>(s: seq<T>) {
    forall i, j :: 0 <= i < j < |s| ==> s[i] != s[j]
  }

  ghost function SetOf<T>(s: seq<T>): set<T> { set x | x in s }

  lemma {:induction false} NoDupCount<T>(s: seq<T>)
    requires NoDup(s)
    ensures |SetOf(s)| == |s|
  {
    if s != [] {
      NoDupCount(s[1..]);
      assert s[0] !in s[1..];
      assert SetOf(s) == {s[0]} + SetOf(s[1..]);
    }
  }

  /** `[...new Set(s)]`: the first occurrence of each element, in order. */
  function Dedup<T(==)>(s: seq<T>): (r: seq<T>)
    ensures NoDup(r)
    ensures SetOf(r) == SetOf(s)
  {
    if s == [] then []
    else
      var init, last := s[..|s| - 1], s[|s| - 1];
      assert s == init + [last];
      var r := Dedup(init);
      assert last in init <==> last in SetOf(init);
      assert SetOf(init) == SetOf(r);
      assert SetOf(s) == SetOf(init) + {last};
      if last in init then r else
        assert last !in r;
        assert SetOf(r + [last]) == SetOf(r) + {last};
        r + [last]
  }

  /** `map.set(key(x), x)` on the values of a Map in insertion order: replace in place, or append. */
  function PutKeyed<T, K(==)>(s: seq<T>, x: T, key: T -> K): seq<T> {
    if s == [] then [x]
    else if key(s[0]) == key(x) then [x] + s[1..]
    else [s[0]] + PutKeyed(s[1..], x, key)
  }

  /** `[...new Map(s.map((x) => [key(x), x])).values()]`: the last element of each key. */
  function LastPerKey<T, K(==)>(s: seq<T>, key: T -> K): seq<T> {
    if s == [] then [] else PutKeyed(LastPerKey(s[..|s| - 1], key), s[|s| - 1], key)
  }

  lemma {:induction false} PutKeyedLaws<T, K>(s: seq<T>, x: T, key: T -> K)
    ensures x in PutKeyed(s, x, key)
    ensures forall y :: y in PutKeyed(s, x, key) ==> y == x || y in s
    ensures forall y :: y in s ==> y in PutKeyed(s, x, key) || key(y) == key(x)
  {
    if s != [] && key(s[0]) != key(x) { PutKeyedLaws(s[1..], x, key); }
  }

  /** Nothing is invented, and every key keeps an element. */
  lemma {:induction false} LastPerKeyLaws<T, K>(s: seq<T>, key: T -> K)
    ensures forall y :: y in LastPerKey(s, key) ==> y in s
    ensures forall x :: x in s ==> exists y :: y in LastPerKey(s, key) && key(y) == key(x)
  {
    if s != [] {
      var init, last := s[..|s| - 1], s[|s| - 1];
      SplitLast(s);
      LastPerKeyLaws(init, key);
      PutKeyedLaws(LastPerKey(init, key), last, key);
    }
  }

  ghost predicate KeysApart<T, K>(s: seq<T>, key: T -> K) { forall i, j :: 0 <= i < j < |s| ==> key(s[i]) != key(s[j]) }

  lemma {:induction false} PutKeyedApart<T, K>(s: seq<T>, x: T, key: T -> K)
    requires KeysApart(s, key)
    ensures KeysApart(PutKeyed(s, x, key), key)
    ensures forall y :: y in PutKeyed(s, x, key) ==> y == x || key(y) != key(x)
  {
    if s != [] {
      if key(s[0]) == key(x) {
        forall y | y in s[1..] ensures key(y) != key(x) { }
      } else {
        PutKeyedApart(s[1..], x, key);
        var rest := PutKeyed(s[1..], x, key);
        PutKeyedLaws(s[1..], x, key);
        forall y | y in rest ensures key(y) != key(s[0]) {
          if y != x { assert y in s[1..]; }
        }
      }
    }
  }

  /** The last place that has the element's key holds the element. */
  ghost predicate LastOfKey<T, K>(s: seq<T>, key: T -> K, y: T) {
    exists i :: 0 <= i < |s| && s[i] == y && forall j :: i < j < |s| ==> key(s[j]) != key(y)
  }

  lemma LastOfKeyNext<T, K>(s: seq<T>, key: T -> K, x: T, y: T)
    requires y == x || (LastOfKey(s, key, y) && key(y) != key(x))
    ensures LastOfKey(s + [x], key, y)
  {
    if y == x {
      assert (s + [x])[|s|] == y;
    } else {
      var i :| 0 <= i < |s| && s[i] == y && forall j :: i < j < |s| ==> key(s[j]) != key(y);
      assert (s + [x])[i] == y;
    }
  }

  /** One element of each key is kept, the last. */
  lemma {:induction false} LastPerKeyIsLast<T, K>(s: seq<T>, key: T -> K)
    ensures KeysApart(LastPerKey(s, key), key)
    ensures forall y :: y in LastPerKey(s, key) ==> LastOfKey(s, key, y)
  {
    if s != [] {
      var init, last := s[..|s| - 1], s[|s| - 1];
      LastPerKeyIsLast(init, key);
      PutKeyedApart(LastPerKey(init, key), last, key);
      PutKeyedLaws(LastPerKey(init, key), last, key);
      hide LastOfKey, KeysApart;
      assert s == init + [last];
      forall y | y in LastPerKey(s, key) ensures LastOfKey(s, key, y) { LastOfKeyNext(init, key, last, y); }
    }
  }

  lemma {:induction false} NoDupMultiset<T>(s: seq<T>)
    requires NoDup(s)
    ensures multiset(s) == multiset(SetOf(s))
  {
    if s != [] {
      NoDupMultiset(s[1..]);
      assert s == [s[0]] + s[1..];
      assert s[0] !in s[1..];
      assert SetOf(s) == {s[0]} + SetOf(s[1..]);
    }
  }

  /** The members of a set, in some order. */
  method Listing<T(==)>(s: set<T>) returns (r: seq<T>)
    ensures NoDup(r) && SetOf(r) == s
  {
    r := [];
    var todo := s;
    while todo != {}
      invariant todo <= s && SetOf(r) == s - todo
      invariant NoDup(r)
      decreases |todo|
    {
      var x :| x in todo;
      assert x !in r by { assert x !in SetOf(r); }
      assert SetOf(r + [x]) == SetOf(r) + {x};
      r := r + [x];
      todo := todo - {x};
    }
  }

  lemma SubsetCount<T>(a: set<T>, b: set<T>)
    requires a <= b
    ensures |a| <= |b|
  {
    assert b == a + (b - a);
  }

  lemma TakeNext<T>(s: seq<T>, i: nat)
    requires i < |s|
    ensures s[..i + 1] == s[..i] + [s[i]]
  {
  }

  lemma SetOfAppend<T>(s: seq<T>, x: T)
    ensures SetOf(s + [x]) == SetOf(s) + {x}
  {
  }

  lemma InSetOf<T>(s: seq<T>, i: nat)
    requires i < |s|
    ensures s[i] in SetOf(s)
  {
  }

  lemma NotYet<T>(s: seq<T>, i: nat)
    requires NoDup(s) && i < |s|
    ensures s[i] !in SetOf(s[..i]) && s[i] in SetOf(s)
  {
  }

  lemma PrefixSet<T>(s: seq<T>, i: nat)
    requires i <= |s|
    ensures SetOf(s[..i]) <= SetOf(s)
  {
  }

  lemma InitLast<T>(q: seq<T>, p: seq<T>)
    requires |q| == |p| + 1 && q[..|p|] == p
    ensures q == p + [q[|p|]]
  {
  }

  lemma SplitLast<T>(s: seq<T>)
    requires s != []
    ensures s == s[..|s| - 1] + [s[|s| - 1]]
  {
  }

  lemma TakeAll<T>(s: seq<T>)
    ensures s[..|s|] == s
  {
  }
}
