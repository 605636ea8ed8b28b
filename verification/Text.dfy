/** JavaScript strings as sequences of UTF-16 code units, and their `<` order. */
module Text {
  import opened Seqs
  import Ordering

  newtype CodeUnit = x: int | 0 <= x < 0x1_0000

  type Text = seq<CodeUnit>

  const NUL: CodeUnit := 0

  /** The code units of a literal made of characters below U+10000. */
  function Lit(s: string): (t: Text)
    ensures |t| == |s|
  {
    seq(|s|, i requires 0 <= i < |s| => if s[i] as int < 0x1_0000 then s[i] as CodeUnit else 0xFFFD)
  }

  /** `a < b` on JavaScript strings: lexicographic by code unit. */
  predicate Less(a: Text, b: Text) {
    if b == [] then false
    else if a == [] then true
    else a[0] < b[0] || (a[0] == b[0] && Less(a[1..], b[1..]))
  }

  /** Up to place `k` the texts are the same; there `a` ends or has the smaller unit. */
  predicate DiffersFirstAt(a: Text, b: Text, k: nat) {
    k <= |a| && k < |b| && a[..k] == b[..k] && (k < |a| ==> a[k] < b[k])
  }

  lemma SameHead(a: Text, b: Text, k: nat)
    requires DiffersFirstAt(a, b, k) && k > 0
    ensures a[0] == b[0]
  {
    assert a[0] == a[..k][0] && b[0] == b[..k][0];
  }

  lemma {:induction false} LessIff(a: Text, b: Text)
    ensures Less(a, b) <==> exists k: nat :: DiffersFirstAt(a, b, k)
  {
    if a == [] || b == [] || a[0] != b[0] {
      assert Less(a, b) ==> DiffersFirstAt(a, b, 0);
      forall k: nat | DiffersFirstAt(a, b, k) ensures k == 0 {
        if k > 0 { SameHead(a, b, k); }
      }
    } else {
      LessIff(a[1..], b[1..]);
      forall k: nat ensures DiffersFirstAt(a[1..], b[1..], k) <==> DiffersFirstAt(a, b, k + 1) {
        if k < |a| && k + 1 < |b| {
          assert a[..k + 1] == [a[0]] + a[1..][..k] && b[..k + 1] == [b[0]] + b[1..][..k];
        }
      }
      if k: nat :| DiffersFirstAt(a, b, k) { assert DiffersFirstAt(a[1..], b[1..], k - 1); }
      if k: nat :| DiffersFirstAt(a[1..], b[1..], k) { assert DiffersFirstAt(a, b, k + 1); }
    }
  }

  lemma LessIrreflexive(a: Text)
    ensures !Less(a, a)
  {
    if a != [] { LessIrreflexive(a[1..]); }
  }

  lemma {:induction false} LessTransitive(a: Text, b: Text, c: Text)
    requires Less(a, b) && Less(b, c)
    ensures Less(a, c)
  {
    if a != [] && a[0] == b[0] && b[0] == c[0] {
      LessTransitive(a[1..], b[1..], c[1..]);
    }
  }

  lemma {:induction false} LessConnected(a: Text, b: Text)
    ensures a == b || Less(a, b) || Less(b, a)
  {
    if a != [] && b != [] && a[0] == b[0] {
      LessConnected(a[1..], b[1..]);
      assert a == [a[0]] + a[1..] && b == [b[0]] + b[1..];
    }
  }

  lemma LessAsymmetric(a: Text, b: Text)
    requires Less(a, b)
    ensures !Less(b, a)
  {
    if Less(b, a) {
      LessTransitive(a, b, a);
      LessIrreflexive(a);
    }
  }

  predicate NoNul(t: Text) { NUL !in t }

  /** The source joins key parts with a NUL character. */
  function Join(a: Text, b: Text): Text { a + [NUL] + b }

  /** Joined keys identify their parts as soon as the first part holds no NUL. */
  lemma {:induction false} JoinInjective(a1: Text, b1: Text, a2: Text, b2: Text)
    requires NoNul(a1) && NoNul(a2) && Join(a1, b1) == Join(a2, b2)
    ensures a1 == a2 && b1 == b2
  {
    var j1, j2 := Join(a1, b1), Join(a2, b2);
    assert j1[|a1|] == NUL && j2[|a2|] == NUL;
    assert forall k | 0 <= k < |a1| :: j1[k] == a1[k] != NUL;
    assert forall k | 0 <= k < |a2| :: j2[k] == a2[k] != NUL;
    assert |a1| == |a2|;
    assert a1 == j1[..|a1|] && a2 == j2[..|a2|];
    assert b1 == j1[|a1| + 1..] && b2 == j2[|a2| + 1..];
  }

  /** Without that, two different coordinates can share one key. */
  lemma JoinCollides()
    ensures exists a1: Text, b1: Text, a2: Text, b2: Text :: a1 != a2 && Join(a1, b1) == Join(a2, b2)
  {
    var a1: Text, b1: Text, a2: Text, b2: Text := [120, NUL, 121], [122], [120], [121, NUL, 122];
    assert Join(a1, b1) == Join(a2, b2);
  }

  lemma LessWeakOrder()
    ensures Ordering.WeakOrder(Less)
  {
    forall a, b | Less(a, b) ensures !Less(b, a) { LessAsymmetric(a, b); }
    forall a, b, c | Less(a, b) ensures Less(a, c) || Less(c, b) { LessNegTransitive(a, b, c); }
  }

  lemma LessNegTransitive(a: Text, b: Text, c: Text)
    ensures Less(a, b) ==> Less(a, c) || Less(c, b)
  {
    LessConnected(a, c);
    if Less(a, b) && Less(c, a) { LessTransitive(c, a, b); }
  }

  ghost predicate Ascending(s: seq<Text>) {
    forall i, j :: 0 <= i < j < |s| ==> Less(s[i], s[j])
  }

  /** `[...new Set(s)].sort()` */
  function SortedUnique(s: seq<Text>): seq<Text> { Ordering.Sort(Dedup(s), Less) }

  lemma SortedUniqueLaws(s: seq<Text>)
    ensures Ascending(SortedUnique(s)) && SetOf(SortedUnique(s)) == SetOf(s)
  {
    var d, r := Dedup(s), SortedUnique(s);
    LessWeakOrder();
    Ordering.SortSorted(d, Less);
    Ordering.SameElements(r, d);
    assert SetOf(r) == SetOf(d);
    Ordering.SortNoDup(d, Less);
    forall i, j | 0 <= i < j < |r| ensures Less(r[i], r[j]) { LessConnected(r[i], r[j]); }
  }

  lemma AscendingNoDup(s: seq<Text>)
    requires Ascending(s)
    ensures NoDup(s)
  {
    forall i, j | 0 <= i < j < |s| ensures s[i] != s[j] { LessIrreflexive(s[i]); }
  }

  lemma AscendingUnique(s: seq<Text>, t: seq<Text>)
    requires Ascending(s) && Ascending(t) && SetOf(s) == SetOf(t)
    ensures s == t
  {
    LessWeakOrder();
    forall i, j | 0 <= i < j < |s| ensures s[i] != s[j] && !Less(s[j], s[i]) {
      LessIrreflexive(s[i]);
      LessAsymmetric(s[i], s[j]);
    }
    forall i, j | 0 <= i < j < |t| ensures t[i] != t[j] && !Less(t[j], t[i]) {
      LessIrreflexive(t[i]);
      LessAsymmetric(t[i], t[j]);
    }
    NoDupMultiset(s);
    NoDupMultiset(t);
    Ordering.SortedUnique(s, t, Less);
  }

  /** `parts.join("\u0000")` */
  function JoinAll(parts: seq<Text>): Text {
    if parts == [] then []
    else if |parts| == 1 then parts[0]
    else Join(parts[0], JoinAll(parts[1..]))
  }

  ghost predicate CleanParts(parts: seq<Text>) {
    forall i :: 0 <= i < |parts| ==> parts[i] != [] && NoNul(parts[i])
  }

  lemma {:induction false} JoinAllInjective(s: seq<Text>, t: seq<Text>)
    requires CleanParts(s) && CleanParts(t) && JoinAll(s) == JoinAll(t)
    ensures s == t
  {
    if |s| >= 1 && |t| >= 1 {
      if |s| > 1 { assert JoinAll(s)[|s[0]|] == NUL; }
      if |t| > 1 { assert JoinAll(t)[|t[0]|] == NUL; }
      if |s| > 1 && |t| > 1 {
        JoinInjective(s[0], JoinAll(s[1..]), t[0], JoinAll(t[1..]));
        JoinAllInjective(s[1..], t[1..]);
      }
      assert s == [s[0]] + s[1..] && t == [t[0]] + t[1..];
    }
  }
}
