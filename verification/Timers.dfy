/** Due ticks, their firing order, and taking the first few of two queues that were each cut short. */
module Timers {
  import opened Seqs
  import opened Text
  import Ordering

  datatype TickKind = CollectionTick | FlowWait

  /** A pending tick of one of the two queues. */
  datatype Due = Due(fireAt: int, kind: TickKind, id: Text)

  /** `orderCandidates`: by fire time, then "collection" before "flow-wait", then by id. */
  predicate DueLess(x: Due, y: Due) {
    if x.fireAt != y.fireAt then x.fireAt < y.fireAt
    else if x.kind != y.kind then x.kind == CollectionTick
    else Less(x.id, y.id)
  }

  lemma DueLessLaws(x: Due, y: Due, z: Due)
    ensures DueLess(x, y) ==> !DueLess(y, x)
    ensures DueLess(x, y) ==> DueLess(x, z) || DueLess(z, y)
    ensures x == y || DueLess(x, y) || DueLess(y, x)
  {
    if Less(x.id, y.id) { LessAsymmetric(x.id, y.id); }
    LessNegTransitive(x.id, y.id, z.id);
    LessConnected(x.id, y.id);
    LessConnected(x.id, z.id);
    LessConnected(z.id, y.id);
  }

  /** Earlier ones first; at one time collection ticks before flow waits, and within a queue by id. */
  ghost predicate Firing(x: Due, y: Due) {
    x.fireAt < y.fireAt || (x.fireAt == y.fireAt &&
      ((x.kind == CollectionTick && y.kind == FlowWait) || (x.kind == y.kind && Less(x.id, y.id))))
  }

  /** That is the order in which ticks are listed. */
  lemma ListedInFiringOrder(s: seq<Due>, due: set<Due>)
    requires InOrder(s, due)
    ensures forall i, j :: 0 <= i < j < |s| ==> Firing(s[i], s[j])
  {
    forall i, j | 0 <= i < j < |s| ensures Firing(s[i], s[j]) {
      assert DueLess(s[i], s[j]);
    }
  }

  lemma DueWeakOrder()
    ensures Ordering.WeakOrder(DueLess)
  {
    forall x, y | DueLess(x, y) ensures !DueLess(y, x) { DueLessLaws(x, y, x); }
    forall x, y, z | DueLess(x, y) ensures DueLess(x, z) || DueLess(z, y) { DueLessLaws(x, y, z); }
  }

  /** The ticks of `due`, each once, in firing order. */
  ghost predicate InOrder(s: seq<Due>, due: set<Due>) {
    SetOf(s) == due && forall i, j :: 0 <= i < j < |s| ==> DueLess(s[i], s[j])
  }

  /** `[...].sort(orderCandidates)` */
  function Ordered(s: seq<Due>): seq<Due> { Ordering.Sort(s, DueLess) }

  lemma OrderedInOrder(s: seq<Due>)
    requires NoDup(s)
    ensures InOrder(Ordered(s), SetOf(s)) && |Ordered(s)| == |s|
  {
    var r := Ordered(s);
    DueWeakOrder();
    Ordering.SortSorted(s, DueLess);
    Ordering.SortNoDup(s, DueLess);
    Ordering.SameElements(r, s);
    forall i, j | 0 <= i < j < |r| ensures DueLess(r[i], r[j]) { DueLessLaws(r[i], r[j], r[i]); }
  }

  lemma InOrderNoDup(s: seq<Due>, due: set<Due>)
    requires InOrder(s, due)
    ensures NoDup(s)
  {
    forall i, j | 0 <= i < j < |s| ensures s[i] != s[j] { DueLessLaws(s[i], s[j], s[i]); }
  }

  function Take<T>(s: seq<T>, n: nat): (r: seq<T>)
    ensures |r| <= n && r <= s
  {
    if n <= |s| then s[..n] else s
  }

  /** The first `n` of the ticks in firing order, or all if there are fewer. */
  ghost predicate FirstOf(out: seq<Due>, due: set<Due>, n: nat) {
    exists order :: InOrder(order, due) && out == Take(order, n)
  }

  /** Once in order, a tick can only come earlier in a smaller queue. */
  lemma EarlierInPart(part: seq<Due>, p: set<Due>, all: seq<Due>, d: set<Due>, j: nat, k: nat)
    requires InOrder(part, p) && InOrder(all, d) && p <= d
    requires j < |part| && k < |all| && part[j] == all[k]
    ensures j <= k
  {
    var y := part[j];
    InOrderNoDup(part, p);
    forall x | x in SetOf(part[..j]) ensures x in SetOf(all[..k]) {
      var i :| 0 <= i < j && part[i] == x;
      assert x in SetOf(part);
      assert x in SetOf(all);
      var m :| 0 <= m < |all| && all[m] == x;
      DueLessLaws(x, y, x);
      assert all[..k][m] == x;
    }
    NoDupCount(part[..j]);
    PrefixCount(all, k);
    SubsetCount(SetOf(part[..j]), SetOf(all[..k]));
  }

  lemma {:induction false} PrefixCount<T>(s: seq<T>, k: nat)
    requires k <= |s|
    ensures |SetOf(s[..k])| <= k
  {
    if k == 0 {
      assert SetOf(s[..0]) == {};
    } else {
      PrefixCount(s, k - 1);
      TakeNext(s, k - 1);
      SetOfAppend(s[..k - 1], s[k - 1]);
    }
  }

  /** Whatever still holds the first `n` has the same first `n`. */
  lemma {:induction false} SameFirst(t: seq<Due>, kept: set<Due>, s: seq<Due>, due: set<Due>, n: nat, k: nat)
    requires InOrder(t, kept) && InOrder(s, due) && kept <= due && SetOf(Take(s, n)) <= kept
    requires k <= n && k <= |s|
    ensures k <= |t| && t[..k] == s[..k]
  {
    if k > 0 {
      var m := k - 1;
      SameFirst(t, kept, s, due, n, m);
      var x := s[m];
      assert Take(s, n)[m] == x && x in SetOf(Take(s, n)) && x in SetOf(t);
      var j :| 0 <= j < |t| && t[j] == x;
      if j < m { assert t[..m][j] == s[..m][j]; DueLessLaws(x, x, x); }
      var y := t[m];
      assert y in SetOf(t) && y in SetOf(s);
      var i :| 0 <= i < |s| && s[i] == y;
      if i < m { assert t[..m][i] == s[..m][i]; DueLessLaws(y, y, y); }
      DueLessLaws(x, y, x);
      TakeNext(s, m);
      TakeNext(t, m);
    }
  }

  /**
   * Cutting each queue at `n` loses nothing: the first `n` of the two cut queues, merged, are the
   * first `n` of the two whole queues.
   */
  lemma FirstOfCutQueues(q1: seq<Due>, d1: set<Due>, q2: seq<Due>, d2: set<Due>, s: seq<Due>, t: seq<Due>, n: nat)
    requires InOrder(q1, d1) && InOrder(q2, d2) && InOrder(s, d1 + d2)
    requires InOrder(t, SetOf(Take(q1, n)) + SetOf(Take(q2, n)))
    ensures Take(t, n) == Take(s, n)
  {
    hide InOrder, Take;
    var kept := SetOf(Take(q1, n)) + SetOf(Take(q2, n));
    TakePart(q1, d1, n);
    TakePart(q2, d2, n);
    forall x | x in SetOf(Take(s, n)) ensures x in kept {
      var k := IndexInTake(s, d1 + d2, n, x);
      if x in d1 { StaysInCut(q1, d1, s, d1 + d2, x, k, n); } else { StaysInCut(q2, d2, s, d1 + d2, x, k, n); }
    }
    SameTake(t, kept, s, d1 + d2, n);
  }

  lemma TakePart(q: seq<Due>, d: set<Due>, n: nat)
    requires InOrder(q, d)
    ensures SetOf(Take(q, n)) <= d
  {
  }

  lemma IndexInTake(s: seq<Due>, due: set<Due>, n: nat, x: Due) returns (k: nat)
    requires InOrder(s, due) && x in SetOf(Take(s, n))
    ensures k < |s| && k < n && s[k] == x && x in due
  {
    k :| 0 <= k < |Take(s, n)| && Take(s, n)[k] == x;
    assert x in SetOf(s);
  }

  lemma SameTake(t: seq<Due>, kept: set<Due>, s: seq<Due>, due: set<Due>, n: nat)
    requires InOrder(t, kept) && InOrder(s, due) && kept <= due && SetOf(Take(s, n)) <= kept
    ensures Take(t, n) == Take(s, n)
  {
    var k := if n <= |s| then n else |s|;
    SameFirst(t, kept, s, due, n, k);
    TakeAll(s);
    if n > |s| { SameLength(t, kept, s, due); }
  }

  lemma StaysInCut(q: seq<Due>, d: set<Due>, s: seq<Due>, due: set<Due>, x: Due, k: nat, n: nat)
    requires InOrder(q, d) && InOrder(s, due) && d <= due && k < |s| && k < n && s[k] == x && x in d
    ensures x in SetOf(Take(q, n))
  {
    assert x in SetOf(q);
    var j :| 0 <= j < |q| && q[j] == x;
    EarlierInPart(q, d, s, due, j, k);
    assert Take(q, n)[j] == x;
  }

  lemma SameLength(t: seq<Due>, kept: set<Due>, s: seq<Due>, due: set<Due>)
    requires InOrder(t, kept) && InOrder(s, due) && kept <= due && s <= t
    ensures t == s
  {
    InOrderNoDup(t, kept);
    InOrderNoDup(s, due);
    NoDupCount(t);
    NoDupCount(s);
    SubsetCount(kept, due);
  }

  // ---- repeated drains ------------------------------------------------------------------

  /** The due ticks left after taking the first `n` of them. */
  ghost function LeftAfter(due: set<Due>, s: seq<Due>, n: nat): set<Due> { due - SetOf(Take(s, n)) }

  lemma LeftCount(due: set<Due>, s: seq<Due>, n: nat)
    requires InOrder(s, due)
    ensures |LeftAfter(due, s, n)| == if |due| <= n then 0 else |due| - n
  {
    InOrderNoDup(s, due);
    NoDupCount(s);
    NoDupCount(Take(s, n));
    var taken := SetOf(Take(s, n));
    assert taken <= due;
    assert due == taken + (due - taken);
  }
}
