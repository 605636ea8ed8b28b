/**
 * Content addresses: what two event bodies with the same id have in common, the hash being taken as
 * injective.
 */
module EventIdentity {
  import opened Seqs
  import opened Text
  import opened Core
  import opened Canonical
  import opened Utf8
  import Base32
  import Ordering

  // ---- objects as maps ----------------------------------------------------------------

  ghost predicate DistinctKeys(es: seq<Entry>) {
    forall i, j :: 0 <= i < j < |es| ==> es[i].key != es[j].key
  }

  function Lookup(es: seq<Entry>, key: Text): Option<Value> {
    if es == [] then None else if es[|es| - 1].key == key then Some(es[|es| - 1].val) else Lookup(es[..|es| - 1], key)
  }

  function NormalOption(v: Option<Value>): Option<Value> { if v.Some? then Some(Normal(v.value)) else None }

  lemma {:induction false} LookupMember(es: seq<Entry>, key: Text, v: Value)
    requires DistinctKeys(es)
    ensures Lookup(es, key) == Some(v) <==> Entry(key, v) in es
  {
    if es != [] {
      hide DistinctKeys;
      LookupMember(es[..|es| - 1], key, v);
    }
  }

  lemma {:induction false} LookupMapped(es: seq<Entry>, ns: seq<Entry>, key: Text)
    requires |ns| == |es| && forall i :: 0 <= i < |es| ==> ns[i] == Entry(es[i].key, Normal(es[i].val))
    ensures Lookup(ns, key) == NormalOption(Lookup(es, key))
  {
    hide Normal;
    if es != [] { LookupMapped(es[..|es| - 1], ns[..|ns| - 1], key); }
  }

  lemma SortedKeys(es: seq<Entry>)
    requires DistinctKeys(es)
    ensures var s := Ordering.Sort(es, KeyLess);
            DistinctKeys(s) && (forall x :: x in s <==> x in es) && Ordering.SortedBy(s, KeyLess) && Ordering.Untied(s, KeyLess)
  {
    var s := Ordering.Sort(es, KeyLess);
    KeyWeakOrder();
    Ordering.SortSorted(es, KeyLess);
    Ordering.SameElements(s, es);
    Ordering.SortNoDup(es, KeyLess);
    forall i, j | 0 <= i < j < |s| ensures s[i].key != s[j].key {
      assert s[i] in es && s[j] in es;
      if s[i].key == s[j].key {
        LookupMember(es, s[i].key, s[i].val);
        LookupMember(es, s[j].key, s[j].val);
      }
    }
    forall i, j | 0 <= i < j < |s| ensures KeyLess(s[i], s[j]) || KeyLess(s[j], s[i]) { LessConnected(s[i].key, s[j].key); }
  }

  lemma KeyWeakOrder()
    ensures Ordering.WeakOrder(KeyLess)
  {
    forall x, y | KeyLess(x, y) ensures !KeyLess(y, x) { LessAsymmetric(x.key, y.key); }
    forall x, y, z | KeyLess(x, y) ensures KeyLess(x, z) || KeyLess(z, y) { LessNegTransitive(x.key, y.key, z.key); }
  }

  lemma NormalEntriesLookup(v: Value, key: Text)
    requires v.Obj? && DistinctKeys(v.entries)
    ensures DistinctKeys(NormalEntries(v)) && Lookup(NormalEntries(v), key) == NormalOption(Lookup(v.entries, key))
  {
    hide Normal;
    LookupMapped(v.entries, NormalEntries(v), key);
  }

  lemma SortedLookup(ns: seq<Entry>, key: Text)
    requires DistinctKeys(ns)
    ensures DistinctKeys(Ordering.Sort(ns, KeyLess)) && Lookup(Ordering.Sort(ns, KeyLess), key) == Lookup(ns, key)
  {
    SortedKeys(ns);
    hide DistinctKeys;
    var s := Ordering.Sort(ns, KeyLess);
    if Lookup(s, key).Some? { LookupMember(s, key, Lookup(s, key).value); LookupMember(ns, key, Lookup(s, key).value); }
    if Lookup(ns, key).Some? { LookupMember(s, key, Lookup(ns, key).value); LookupMember(ns, key, Lookup(ns, key).value); }
  }

  lemma NormalLookup(v: Value, key: Text)
    requires v.Obj? && DistinctKeys(v.entries)
    ensures DistinctKeys(Normal(v).entries) && Lookup(Normal(v).entries, key) == NormalOption(Lookup(v.entries, key))
  {
    hide DistinctKeys, Lookup;
    NormalEntriesLookup(v, key);
    SortedLookup(NormalEntries(v), key);
  }

  /** Every key has the same normal value on both sides. */
  ghost predicate SameMap(es1: seq<Entry>, es2: seq<Entry>) {
    forall key :: NormalOption(Lookup(es1, key)) == NormalOption(Lookup(es2, key))
  }

  lemma SameMapSameNormal(v1: Value, v2: Value)
    requires v1.Obj? && v2.Obj? && DistinctKeys(v1.entries) && DistinctKeys(v2.entries)
    requires SameMap(v1.entries, v2.entries)
    ensures Normal(v1) == Normal(v2)
  {
    hide NormalEntries, DistinctKeys, Lookup, NormalOption;
    var n1, n2 := NormalEntries(v1), NormalEntries(v2);
    NormalEntriesLookup(v1, []);
    NormalEntriesLookup(v2, []);
    forall x ensures x in n1 <==> x in n2 {
      NormalEntriesLookup(v1, x.key);
      NormalEntriesLookup(v2, x.key);
      LookupMember(n1, x.key, x.val);
      LookupMember(n2, x.key, x.val);
    }
    SameSortedEntries(n1, n2);
  }

  /** The normal form of an object is its map from keys to normal values: key order does not matter. */
  lemma KeyOrderIrrelevant(v1: Value, v2: Value)
    requires v1.Obj? && v2.Obj? && DistinctKeys(v1.entries) && DistinctKeys(v2.entries)
    ensures Normal(v1) == Normal(v2) <==>
            SameMap(v1.entries, v2.entries)
  {
    hide Normal, DistinctKeys;
    if Normal(v1) == Normal(v2) {
      forall key ensures NormalOption(Lookup(v1.entries, key)) == NormalOption(Lookup(v2.entries, key)) {
        NormalLookup(v1, key);
        NormalLookup(v2, key);
      }
    }
    if SameMap(v1.entries, v2.entries) {
      SameMapSameNormal(v1, v2);
    }
  }

  lemma SameSortedEntries(n1: seq<Entry>, n2: seq<Entry>)
    requires DistinctKeys(n1) && DistinctKeys(n2) && forall x :: x in n1 <==> x in n2
    ensures Ordering.Sort(n1, KeyLess) == Ordering.Sort(n2, KeyLess)
  {
    SortedKeys(n1);
    SortedKeys(n2);
    NoDupMultiset(n1);
    NoDupMultiset(n2);
    assert SetOf(n1) == SetOf(n2);
    Ordering.SortedUnique(Ordering.Sort(n1, KeyLess), Ordering.Sort(n2, KeyLess), KeyLess);
  }

  // ---- numbers -------------------------------------------------------------------------

  function Digits(n: nat): (t: Text)
    ensures t != [] && Numeral(t) && t[0] != 45 && (|t| > 1 <==> n >= 10)
  {
    if n < 10 then [(48 + n) as CodeUnit] else Digits(n / 10) + [(48 + n % 10) as CodeUnit]
  }

  function Decimal(n: int): (t: Text)
    ensures Numeral(t)
  {
    if n < 0 then [45] + Digits(-n) else Digits(n)
  }

  lemma {:induction false} DigitsInjective(n: nat, m: nat)
    requires Digits(n) == Digits(m)
    ensures n == m
  {
    var t := Digits(n);
    assert t[|t| - 1] as int == 48 + n % 10 && t[|t| - 1] as int == 48 + m % 10;
    if n >= 10 && m >= 10 {
      assert t[..|t| - 1] == Digits(n / 10) && t[..|t| - 1] == Digits(m / 10);
      DigitsInjective(n / 10, m / 10);
    }
  }

  lemma DecimalInjective(n: int, m: int)
    requires Decimal(n) == Decimal(m)
    ensures n == m
  {
    if n < 0 && m < 0 {
      assert Decimal(n)[1..] == Digits(-n) && Decimal(m)[1..] == Digits(-m);
      DigitsInjective(-n, -m);
    } else if n >= 0 && m >= 0 {
      DigitsInjective(n, m);
    }
  }

  function NumberOf(n: int): Value { Num(Finite(Decimal(n))) }

  // ---- the preimage -----------------------------------------------------------------------

  function KindText(k: Kind): Text {
    match k
    case Assert => Lit("assert")
    case Retract => Lit("retract")
    case Tombstone => Lit("tombstone")
    case Untombstone => Lit("untombstone")
  }

  function ActorText(a: ActorType): Text {
    match a
    case Human => Lit("human")
    case Agent => Lit("agent")
    case System => Lit("system")
    case Migration => Lit("migration")
  }

  const FIELDS: seq<Text> := [
    Lit("kind"), Lit("actor"), Lit("actorType"), Lit("hlc"), Lit("causalRefs"), Lit("e"), Lit("a"), Lit("v"),
    Lit("validFrom"), Lit("validTo"), Lit("target"), Lit("reason")]

  function Refs(b: Body): seq<EventId> { if b.causalRefs.Some? then b.causalRefs.value else [] }

  function StrOption(t: Option<Text>): Option<Value> { if t.Some? then Some(Str(t.value)) else None }

  function UntilOption(u: Until): Option<Value> {
    match u
    case Absent => None
    case Open => Some(Null)
    case At(t) => Some(NumberOf(t))
  }

  function Strings(ts: seq<Text>): Value { Arr(Map(ts, (t: Text) => Str(t))) }

  function FieldValues(b: Body): seq<Option<Value>> {
    [Some(Str(KindText(b.kind))), Some(Str(b.actor)), Some(Str(ActorText(b.actorType))),
     Some(Arr([NumberOf(b.hlc.pt), NumberOf(b.hlc.l), Str(b.hlc.r)])), Some(Strings(Refs(b))),
     StrOption(b.e), StrOption(b.a), b.v,
     if b.validFrom.Some? then Some(NumberOf(b.validFrom.value)) else None,
     UntilOption(b.validTo), StrOption(b.target), StrOption(b.reason)]
  }

  /** The entries that are present. */
  function Present(names: seq<Text>, vals: seq<Option<Value>>): seq<Entry>
    requires |names| == |vals|
  {
    if names == [] then []
    else
      var n := |names| - 1;
      Present(names[..n], vals[..n]) + (if vals[n].Some? then [Entry(names[n], vals[n].value)] else [])
  }

  function Preimage(b: Body): Value { Obj(Present(FIELDS, FieldValues(b))) }

  function EventIdOf(hash: seq<Byte> -> seq<Byte>, b: Body): EventId {
    Lit("e_") + Base32.Encoded(hash(CanonicalBytes(Preimage(b))))
  }

  // ---- what an id determines ------------------------------------------------------------------

  lemma {:induction false} PresentLookup(names: seq<Text>, vals: seq<Option<Value>>)
    requires |names| == |vals| && NoDup(names)
    ensures DistinctKeys(Present(names, vals))
    ensures forall x :: x in Present(names, vals) ==> x.key in names
    ensures forall i :: 0 <= i < |names| ==> Lookup(Present(names, vals), names[i]) == vals[i]
    ensures forall key :: key !in names ==> Lookup(Present(names, vals), key) == None
  {
    if names != [] {
      var n := |names| - 1;
      var init, name, es := names[..n], names[n], Present(names[..n], vals[..n]);
      PresentLookup(init, vals[..n]);
      assert names == init + [name];
      assert name !in init;
      if vals[n].Some? {
        forall i | 0 <= i < |es| ensures es[i].key != name { assert es[i] in es; }
      } else {
        AppendNil(es);
      }
    }
  }

  /** A number that tells the field names apart. */
  function Signature(t: Text): int { if t == [] then 0 else |t| * 128 + t[0] as int }

  const SIGNATURES: seq<int> := [619, 737, 1249, 488, 1379, 229, 225, 246, 1270, 1014, 884, 882]

  lemma FieldSignature(i: nat)
    requires i < 12
    ensures |FIELDS| == 12 && Signature(FIELDS[i]) == SIGNATURES[i]
  {
    match i
    case 0 => assert FIELDS[0] == Lit("kind");
    case 1 => assert FIELDS[1] == Lit("actor");
    case 2 => assert FIELDS[2] == Lit("actorType");
    case 3 => assert FIELDS[3] == Lit("hlc");
    case 4 => assert FIELDS[4] == Lit("causalRefs");
    case 5 => assert FIELDS[5] == Lit("e");
    case 6 => assert FIELDS[6] == Lit("a");
    case 7 => assert FIELDS[7] == Lit("v");
    case 8 => assert FIELDS[8] == Lit("validFrom");
    case 9 => assert FIELDS[9] == Lit("validTo");
    case 10 => assert FIELDS[10] == Lit("target");
    case _ => assert FIELDS[11] == Lit("reason");
  }

  lemma FieldsDistinct()
    ensures NoDup(FIELDS) && |FIELDS| == 12
  {
    hide FIELDS, Signature;
    FieldSignature(0);
    forall i, j | 0 <= i < j < |FIELDS| ensures FIELDS[i] != FIELDS[j] {
      FieldSignature(i);
      FieldSignature(j);
    }
  }

  /** Equal bodies, an absent list of causal references being an empty one and values being normalised. */
  ghost predicate SameBody(b1: Body, b2: Body) {
    && b1.kind == b2.kind && b1.actor == b2.actor && b1.actorType == b2.actorType && b1.hlc == b2.hlc
    && Refs(b1) == Refs(b2) && b1.e == b2.e && b1.a == b2.a && NormalOption(b1.v) == NormalOption(b2.v)
    && b1.validFrom == b2.validFrom && b1.validTo == b2.validTo && b1.target == b2.target && b1.reason == b2.reason
  }

  lemma KindTextInjective(k1: Kind, k2: Kind)
    requires KindText(k1) == KindText(k2)
    ensures k1 == k2
  {
    assert |KindText(k1)| == |KindText(k2)|;
  }

  lemma ActorTextInjective(a1: ActorType, a2: ActorType)
    requires ActorText(a1) == ActorText(a2)
    ensures a1 == a2
  {
    assert |ActorText(a1)| == |ActorText(a2)| && ActorText(a1)[0] == ActorText(a2)[0];
  }

  lemma StringsNormal(ts: seq<Text>)
    ensures Normal(Strings(ts)) == Strings(ts)
  {
  }

  lemma StringsInjective(t1: seq<Text>, t2: seq<Text>)
    requires Strings(t1) == Strings(t2)
    ensures t1 == t2
  {
    assert |t1| == |t2|;
    forall i | 0 <= i < |t1| ensures t1[i] == t2[i] {
      assert Strings(t1).items[i] == Strings(t2).items[i];
    }
  }

  lemma HlcNormal(h1: Hlc, h2: Hlc)
    ensures Normal(Arr([NumberOf(h1.pt), NumberOf(h1.l), Str(h1.r)])) == Normal(Arr([NumberOf(h2.pt), NumberOf(h2.l), Str(h2.r)])) <==> h1 == h2
  {
    var v1, v2 := Arr([NumberOf(h1.pt), NumberOf(h1.l), Str(h1.r)]), Arr([NumberOf(h2.pt), NumberOf(h2.l), Str(h2.r)]);
    if Normal(v1) == Normal(v2) {
      assert Normal(v1).items[0] == NumberOf(h1.pt) && Normal(v1).items[1] == NumberOf(h1.l) && Normal(v1).items[2] == Str(h1.r);
      assert Normal(v2).items[0] == NumberOf(h2.pt) && Normal(v2).items[1] == NumberOf(h2.l) && Normal(v2).items[2] == Str(h2.r);
      DecimalInjective(h1.pt, h2.pt);
      DecimalInjective(h1.l, h2.l);
    }
  }

  lemma UntilNormal(u1: Until, u2: Until)
    ensures NormalOption(UntilOption(u1)) == NormalOption(UntilOption(u2)) <==> u1 == u2
  {
    if u1.At? && u2.At? && Decimal(u1.time) == Decimal(u2.time) { DecimalInjective(u1.time, u2.time); }
  }

  ghost predicate SameField(b1: Body, b2: Body, i: nat) {
    match i
    case 0 => b1.kind == b2.kind
    case 1 => b1.actor == b2.actor
    case 2 => b1.actorType == b2.actorType
    case 3 => b1.hlc == b2.hlc
    case 4 => Refs(b1) == Refs(b2)
    case 5 => b1.e == b2.e
    case 6 => b1.a == b2.a
    case 7 => NormalOption(b1.v) == NormalOption(b2.v)
    case 8 => b1.validFrom == b2.validFrom
    case 9 => b1.validTo == b2.validTo
    case 10 => b1.target == b2.target
    case _ => b1.reason == b2.reason
  }

  lemma TextFieldIff(b1: Body, b2: Body, i: nat)
    requires i in {1, 5, 6, 7, 10, 11}
    ensures NormalOption(FieldValues(b1)[i]) == NormalOption(FieldValues(b2)[i]) <==> SameField(b1, b2, i)
  {
    hide KindText, ActorText, Decimal, Strings, UntilOption;
  }

  lemma NameFieldIff(b1: Body, b2: Body, i: nat)
    requires i in {0, 2}
    ensures NormalOption(FieldValues(b1)[i]) == NormalOption(FieldValues(b2)[i]) <==> SameField(b1, b2, i)
  {
    hide KindText, ActorText, Decimal, Strings, UntilOption, StrOption;
    if KindText(b1.kind) == KindText(b2.kind) { KindTextInjective(b1.kind, b2.kind); }
    if ActorText(b1.actorType) == ActorText(b2.actorType) { ActorTextInjective(b1.actorType, b2.actorType); }
  }

  lemma TimeFieldIff(b1: Body, b2: Body, i: nat)
    requires i in {3, 8, 9}
    ensures NormalOption(FieldValues(b1)[i]) == NormalOption(FieldValues(b2)[i]) <==> SameField(b1, b2, i)
  {
    hide KindText, ActorText, Decimal, Strings, UntilOption, StrOption;
    HlcNormal(b1.hlc, b2.hlc);
    UntilNormal(b1.validTo, b2.validTo);
    if b1.validFrom.Some? && b2.validFrom.Some? && Decimal(b1.validFrom.value) == Decimal(b2.validFrom.value) {
      DecimalInjective(b1.validFrom.value, b2.validFrom.value);
    }
  }

  lemma RefsField(b: Body)
    ensures NormalOption(FieldValues(b)[4]) == Some(Strings(Refs(b)))
  {
    StringsNormal(Refs(b));
    hide Normal, Strings, KindText, ActorText, Decimal, UntilOption, StrOption, Refs;
  }

  lemma RefsFieldIff(b1: Body, b2: Body)
    ensures NormalOption(FieldValues(b1)[4]) == NormalOption(FieldValues(b2)[4]) <==> SameField(b1, b2, 4)
  {
    RefsField(b1);
    RefsField(b2);
    hide FieldValues, NormalOption, Strings, Refs;
    if Strings(Refs(b1)) == Strings(Refs(b2)) { StringsInjective(Refs(b1), Refs(b2)); }
  }

  lemma FieldIff(b1: Body, b2: Body, i: nat)
    requires i < 12
    ensures |FieldValues(b1)| == |FieldValues(b2)| == 12
    ensures NormalOption(FieldValues(b1)[i]) == NormalOption(FieldValues(b2)[i]) <==> SameField(b1, b2, i)
  {
    hide FieldValues, SameField;
    TwelveFields(b1);
    TwelveFields(b2);
    if i in {0, 2} {
      NameFieldIff(b1, b2, i);
    } else if i in {3, 8, 9} {
      TimeFieldIff(b1, b2, i);
    } else if i == 4 {
      RefsFieldIff(b1, b2);
    } else {
      TextFieldIff(b1, b2, i);
    }
  }

  lemma SameBodyIff(b1: Body, b2: Body)
    ensures SameBody(b1, b2) <==> forall i: nat :: i < 12 ==> SameField(b1, b2, i)
  {
    hide NormalOption, Refs;
    if forall i: nat :: i < 12 ==> SameField(b1, b2, i) {
      assert SameField(b1, b2, 0) && SameField(b1, b2, 1) && SameField(b1, b2, 2) && SameField(b1, b2, 3) && SameField(b1, b2, 4);
      assert SameField(b1, b2, 5) && SameField(b1, b2, 6) && SameField(b1, b2, 7) && SameField(b1, b2, 8) && SameField(b1, b2, 9);
      assert SameField(b1, b2, 10) && SameField(b1, b2, 11);
    }
  }

  lemma PreimageIff(b1: Body, b2: Body)
    ensures Normal(Preimage(b1)) == Normal(Preimage(b2)) <==> SameBody(b1, b2)
  {
    hide FieldValues, Present, Normal, SameBody, SameField, DistinctKeys;
    var f1, f2 := FieldValues(b1), FieldValues(b2);
    FieldsDistinct();
    TwelveFields(b1);
    TwelveFields(b2);
    PresentLookup(FIELDS, f1);
    PresentLookup(FIELDS, f2);
    var p1, p2 := Preimage(b1).entries, Preimage(b2).entries;
    KeyOrderIrrelevant(Preimage(b1), Preimage(b2));
    SameBodyIff(b1, b2);
    forall i: nat | i < 12 ensures NormalOption(f1[i]) == NormalOption(f2[i]) <==> SameField(b1, b2, i) { FieldIff(b1, b2, i); }
    if SameBody(b1, b2) {
      forall key ensures NormalOption(Lookup(p1, key)) == NormalOption(Lookup(p2, key)) {
        if key in FIELDS {
          var i :| 0 <= i < |FIELDS| && FIELDS[i] == key;
          assert Lookup(p1, FIELDS[i]) == f1[i] && Lookup(p2, FIELDS[i]) == f2[i] && SameField(b1, b2, i);
        }
      }
    }
    if SameMap(p1, p2) {
      forall i: nat | i < 12 ensures SameField(b1, b2, i) {
        assert Lookup(p1, FIELDS[i]) == f1[i] && Lookup(p2, FIELDS[i]) == f2[i];
      }
    }
  }

  lemma TwelveFields(b: Body)
    ensures |FieldValues(b)| == 12
  {
  }

  lemma {:induction false} PresentNumerals(names: seq<Text>, vals: seq<Option<Value>>)
    requires |names| == |vals| && forall i :: 0 <= i < |vals| ==> (vals[i].Some? ==> Numerals(vals[i].value))
    ensures Numerals(Obj(Present(names, vals)))
  {
    if names != [] {
      var n := |names| - 1;
      PresentNumerals(names[..n], vals[..n]);
    }
  }

  lemma FieldNumerals(b: Body, i: nat)
    requires i < 12 && (b.v.Some? ==> Numerals(b.v.value))
    ensures FieldValues(b)[i].Some? ==> Numerals(FieldValues(b)[i].value)
  {
    hide KindText, ActorText, Decimal;
  }

  lemma PreimageNumerals(b: Body)
    requires b.v.Some? ==> Numerals(b.v.value)
    ensures Numerals(Preimage(b))
  {
    hide FieldValues, Present, Numerals, FIELDS;
    FieldsDistinct();
    TwelveFields(b);
    forall i: nat | i < 12 ensures FieldValues(b)[i].Some? ==> Numerals(FieldValues(b)[i].value) { FieldNumerals(b, i); }
    PresentNumerals(FIELDS, FieldValues(b));
  }

  ghost predicate Injective(hash: seq<Byte> -> seq<Byte>) {
    forall x, y :: hash(x) == hash(y) ==> x == y
  }

  /** Content addressing: two bodies have the same id exactly when they are the same body. */
  lemma EventIdIff(hash: seq<Byte> -> seq<Byte>, b1: Body, b2: Body)
    requires Injective(hash)
    requires (b1.v.Some? ==> Numerals(b1.v.value)) && (b2.v.Some? ==> Numerals(b2.v.value))
    ensures EventIdOf(hash, b1) == EventIdOf(hash, b2) <==> SameBody(b1, b2)
  {
    hide Preimage, CanonicalBytes, SameBody, Normal;
    var p1, p2 := CanonicalBytes(Preimage(b1)), CanonicalBytes(Preimage(b2));
    PreimageNumerals(b1);
    PreimageNumerals(b2);
    CanonicalBytesIff(Preimage(b1), Preimage(b2));
    PreimageIff(b1, b2);
    if EventIdOf(hash, b1) == EventIdOf(hash, b2) {
      Cancel(Lit("e_"), Base32.Encoded(hash(p1)), Base32.Encoded(hash(p2)));
      Base32.EncodedInjective(hash(p1), hash(p2));
    }
  }

  // ---- what is hashed -----------------------------------------------------------------------------

  /** The number that decimal digits write. */
  function ValueOf(t: Text): int {
    if t == [] then 0 else 10 * ValueOf(t[..|t| - 1]) + (t[|t| - 1] as int - 48)
  }

  lemma {:induction false} DigitsRead(n: nat)
    ensures ValueOf(Digits(n)) == n
  {
    var t := Digits(n);
    if n >= 10 {
      DigitsRead(n / 10);
      InitOfSnoc(Digits(n / 10), (48 + n % 10) as CodeUnit);
    } else {
      assert t[..0] == [];
    }
  }

  /** A decimal is its digits, a minus sign before those of a negative number. */
  lemma DecimalRead(n: int)
    ensures Decimal(n) != [] && (Decimal(n)[0] == 45 <==> n < 0)
    ensures ValueOf(if n < 0 then Decimal(n)[1..] else Decimal(n)) == if n < 0 then -n else n
  {
    hide Digits, ValueOf, Numeral;
    if n < 0 {
      DigitsRead(-n);
      MinusFirst(Digits(-n));
    } else {
      DigitsRead(n);
    }
  }

  lemma MinusFirst(t: Text)
    ensures ([45] + t)[0] == 45 && ([45] + t)[1..] == t
  {
  }

  ghost predicate Field(b: Body, key: Text, v: Option<Value>) { Lookup(Preimage(b).entries, key) == v }

  ghost predicate TextField(b: Body, key: Text, t: Option<Text>) { Field(b, key, if t.Some? then Some(Str(t.value)) else None) }

  /** The fields of the preimage, those that are absent left out, and no others. */
  lemma PreimageFields(b: Body)
    ensures Field(b, Lit("kind"), Some(Str(match b.kind case Assert => Lit("assert") case Retract => Lit("retract")
                                                       case Tombstone => Lit("tombstone") case Untombstone => Lit("untombstone"))))
    ensures Field(b, Lit("actorType"), Some(Str(match b.actorType case Human => Lit("human") case Agent => Lit("agent")
                                                            case System => Lit("system") case Migration => Lit("migration"))))
    ensures TextField(b, Lit("actor"), Some(b.actor))
    ensures Field(b, Lit("hlc"), Some(Arr([NumberOf(b.hlc.pt), NumberOf(b.hlc.l), Str(b.hlc.r)])))
    ensures Field(b, Lit("causalRefs"), Some(Arr(Map(if b.causalRefs.Some? then b.causalRefs.value else [], (t: Text) => Str(t)))))
    ensures TextField(b, Lit("e"), b.e) && TextField(b, Lit("a"), b.a) && Field(b, Lit("v"), b.v)
    ensures Field(b, Lit("validFrom"), if b.validFrom.Some? then Some(NumberOf(b.validFrom.value)) else None)
    ensures Field(b, Lit("validTo"), match b.validTo case Absent => None case Open => Some(Null) case At(t) => Some(NumberOf(t)))
    ensures TextField(b, Lit("target"), b.target) && TextField(b, Lit("reason"), b.reason)
    ensures forall key :: key !in FIELDS ==> Field(b, key, None)
  {
    EachField(b);
    FieldNames();
    hide Field, NumberOf;
    forall i: nat | i < 12 ensures Field(b, FIELDS[i], FieldValues(b)[i]) { }
  }

  lemma FieldNames()
    ensures |FIELDS| == 12
    ensures FIELDS[0] == Lit("kind") && FIELDS[1] == Lit("actor") && FIELDS[2] == Lit("actorType") && FIELDS[3] == Lit("hlc")
    ensures FIELDS[4] == Lit("causalRefs") && FIELDS[5] == Lit("e") && FIELDS[6] == Lit("a") && FIELDS[7] == Lit("v")
    ensures FIELDS[8] == Lit("validFrom") && FIELDS[9] == Lit("validTo") && FIELDS[10] == Lit("target") && FIELDS[11] == Lit("reason")
  {
  }

  lemma EachField(b: Body)
    ensures |FIELDS| == |FieldValues(b)| == 12
    ensures forall i: nat :: i < 12 ==> Field(b, FIELDS[i], FieldValues(b)[i])
    ensures forall key :: key !in FIELDS ==> Field(b, key, None)
  {
    FieldsDistinct();
    PresentLookup(FIELDS, FieldValues(b));
    hide Present, Lookup, NoDup;
  }

  /** An id is "e_" and the base32 text of the hash of the canonical bytes of those fields. */
  lemma IdReads(hash: seq<Byte> -> seq<Byte>, b: Body)
    ensures var id := EventIdOf(hash, b);
            |id| >= 2 && id[..2] == Lit("e_") && Base32.Decode(id[2..]) == Some(hash(CanonicalBytes(Preimage(b))))
  {
    var bytes := hash(CanonicalBytes(Preimage(b)));
    Base32.DecodeEncoded(bytes);
    var id := EventIdOf(hash, b);
    assert |Lit("e_")| == 2;
    assert id[2..] == Base32.Encoded(bytes);
  }
}
