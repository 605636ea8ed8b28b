/**
 * The keys that tell the rows of a live query's result apart: JSON text with sorted keys. Two rows share
 * a key exactly when they are equal up to key order, signed zero, and what JSON cannot print.
 */
module StableKeys {
  import opened Seqs
  import opened Text
  import opened Core
  import opened Canonical
  import opened LiveDependencies
  import Ordering
  import EventIdentity

  /** What JSON prints: no sign on zero, null for a number that is not finite. */
  function ShownNumber(n: Number): Value {
    match n
    case NegZero => Num(Finite(Lit("0")))
    case Finite(_) => Num(n)
    case _ => Null
  }

  /** A byte array is walked as an object with its indices for keys. */
  function ByteEntries(x: seq<Byte>): seq<Entry> {
    seq(|x|, i requires 0 <= i < |x| => Entry(EventIdentity.Digits(i), Num(Finite(EventIdentity.Digits(x[i] as int)))))
  }

  function Shown(v: Value): Value {
    match v
    case Num(n) => ShownNumber(n)
    case Bytes(x) => Obj(Ordering.Sort(ByteEntries(x), KeyLess))
    case Arr(items) => Arr(seq(|items|, i requires 0 <= i < |items| => Shown(items[i])))
    case Obj(entries) => Obj(Ordering.Sort(ShownEntries(v), KeyLess))
    case _ => v
  }

  function ShownEntries(v: Value): (r: seq<Entry>)
    requires v.Obj?
    ensures |r| == |v.entries|
    decreases v, 0
  {
    seq(|v.entries|, i requires 0 <= i < |v.entries| => Entry(v.entries[i].key, Shown(v.entries[i].val)))
  }

  /** A finite number has a numeral, which is not empty. */
  predicate Numbered(n: Number) { n.Finite? ==> n.text != [] && Numeral(n.text) }

  predicate AllNumbered(v: Value) {
    match v
    case Num(n) => Numbered(n)
    case Arr(items) => forall i :: 0 <= i < |items| ==> AllNumbered(items[i])
    case Obj(entries) => forall i :: 0 <= i < |entries| ==> AllNumbered(entries[i].val)
    case _ => true
  }

  /** Every number is finite, and there are no byte arrays. */
  predicate Plain(v: Value) {
    match v
    case Num(n) => n.Finite? && n.text != [] && Numeral(n.text)
    case Bytes(_) => false
    case Arr(items) => forall i :: 0 <= i < |items| ==> Plain(items[i])
    case Obj(entries) => forall i :: 0 <= i < |entries| ==> Plain(entries[i].val)
    case _ => true
  }

  lemma SortedPlain(es: seq<Entry>)
    requires forall i :: 0 <= i < |es| ==> Plain(es[i].val)
    ensures Plain(Obj(Ordering.Sort(es, KeyLess)))
  {
    var sorted := Ordering.Sort(es, KeyLess);
    Ordering.SameElements(sorted, es);
    forall i | 0 <= i < |sorted| ensures Plain(sorted[i].val) {
      assert sorted[i] in es;
    }
  }

  lemma {:induction false} ShownIsPlain(v: Value)
    requires AllNumbered(v)
    ensures Plain(Shown(v))
  {
    match v
    case Arr(items) =>
      forall i | 0 <= i < |items| ensures Plain(Shown(items[i])) { ShownIsPlain(items[i]); }
    case Obj(entries) =>
      forall i | 0 <= i < |entries| ensures Plain(Shown(entries[i].val)) { ShownIsPlain(entries[i].val); }
      SortedPlain(ShownEntries(v));
    case Bytes(x) => SortedPlain(ByteEntries(x));
    case Num(n) => assert Lit("0") == [48];
    case _ =>
  }

  const NULL := Lit("null")

  /** The text of a value as it is shown, then `rest`. */
  function KeyThen(v: Value, rest: Text): Text
    decreases v, 1, 0
  {
    match v
    case Bool(b) => (if b then TRUE else FALSE) + rest
    case Num(n) => NumberText(n) + rest
    case Str(s) => QuoteThen(s, rest)
    case Arr(items) => [91] + ItemKeysThen(v, 0, rest)
    case Obj(entries) => [123] + EntryKeysThen(v, 0, rest)
    case _ => NULL + rest
  }

  function ItemKeysThen(v: Value, i: nat, rest: Text): Text
    requires v.Arr? && i <= |v.items|
    decreases v, 0, |v.items| - i
  {
    if i == |v.items| then [93] + rest
    else Comma(i) + KeyThen(v.items[i], ItemKeysThen(v, i + 1, rest))
  }

  function EntryKeysThen(v: Value, i: nat, rest: Text): Text
    requires v.Obj? && i <= |v.entries|
    decreases v, 0, |v.entries| - i
  {
    if i == |v.entries| then [125] + rest
    else Comma(i) + QuoteThen(v.entries[i].key, [58] + KeyThen(v.entries[i].val, EntryKeysThen(v, i + 1, rest)))
  }

  function StableKey(v: Value): Text { KeyThen(Shown(v), []) }

  // ---- telling values by their keys -----------------------------------------------------------

  /** What may follow a numeral. */
  predicate Stops(rest: Text) { rest == [] || !NumeralUnit(rest[0]) }

  /** A numeral ends at the first unit that is none of its own. */
  lemma NumeralEnds(t: Text, rest: Text, u: Text)
    requires Numeral(t) && Stops(rest) && u == t + rest
    ensures u[..|t|] == t && (forall i :: 0 <= i < |t| ==> NumeralUnit(u[i])) && (|t| < |u| ==> !NumeralUnit(u[|t|]))
  {
    assert forall i :: 0 <= i < |t| ==> u[i] == t[i];
  }

  lemma NumeralReadable(t1: Text, r1: Text, t2: Text, r2: Text)
    requires Numeral(t1) && Numeral(t2) && Stops(r1) && Stops(r2) && t1 + r1 == t2 + r2
    ensures t1 == t2 && r1 == r2
  {
    NumeralEnds(t1, r1, t1 + r1);
    NumeralEnds(t2, r2, t1 + r1);
    assert |t1| == |t2|;
    Cancel(t1, r1, r2);
  }

  /** The first code unit tells what kind of value follows. */
  lemma KeyStart(v: Value, rest: Text)
    requires Plain(v)
    ensures KeyThen(v, rest) != []
    ensures var c := KeyThen(v, rest)[0];
            && (v.Null? <==> c == 110) && (v.Bool? <==> c in {116, 102}) && (v.Num? <==> NumeralUnit(c))
            && (v.Str? <==> c == 34) && (v.Arr? <==> c == 91) && (v.Obj? <==> c == 123)
  {
    hide EscapeThen, ItemKeysThen, EntryKeysThen;
    assert NULL[0] == 110 && TRUE[0] == 116 && FALSE[0] == 102;
    if v.Num? { assert (v.n.text + rest)[0] == v.n.text[0]; }
  }

  /** A key can be told from whatever follows it. */
  lemma {:induction false} KeyReadable(v1: Value, r1: Text, v2: Value, r2: Text)
    requires Plain(v1) && Plain(v2) && Stops(r1) && Stops(r2) && KeyThen(v1, r1) == KeyThen(v2, r2)
    ensures v1 == v2 && r1 == r2
    decreases v1, 1, 0
  {
    KeyStart(v1, r1);
    KeyStart(v2, r2);
    hide QuoteThen, ItemKeysThen, EntryKeysThen;
    match v1
    case Null => Cancel(NULL, r1, r2);
    case Bool(b) => BoolReadable(b, r1, v2.b, r2);
    case Num(n) => NumeralReadable(n.text, r1, v2.n.text, r2);
    case Str(s) => QuoteReadable(s, r1, v2.s, r2);
    case Arr(_) =>
      Cancel([91], ItemKeysThen(v1, 0, r1), ItemKeysThen(v2, 0, r2));
      ItemKeysReadable(v1, v2, 0, r1, r2);
    case Obj(_) =>
      Cancel([123], EntryKeysThen(v1, 0, r1), EntryKeysThen(v2, 0, r2));
      EntryKeysReadable(v1, v2, 0, r1, r2);
    case _ =>
  }

  lemma ItemKeysStart(v: Value, i: nat, rest: Text)
    requires v.Arr? && Plain(v) && i <= |v.items|
    ensures ItemKeysThen(v, i, rest) != [] && (ItemKeysThen(v, i, rest)[0] == 93 <==> i == |v.items|)
    ensures i > 0 ==> Stops(ItemKeysThen(v, i, rest))
  {
    hide KeyThen;
    if i < |v.items| { KeyStart(v.items[i], ItemKeysThen(v, i + 1, rest)); }
  }

  lemma EntryKeysStart(v: Value, i: nat, rest: Text)
    requires v.Obj? && i <= |v.entries|
    ensures EntryKeysThen(v, i, rest) != [] && (EntryKeysThen(v, i, rest)[0] == 125 <==> i == |v.entries|)
    ensures i > 0 ==> Stops(EntryKeysThen(v, i, rest))
  {
    hide KeyThen, EscapeThen;
  }

  lemma {:induction false} ItemKeysReadable(v1: Value, v2: Value, i: nat, r1: Text, r2: Text)
    requires v1.Arr? && v2.Arr? && Plain(v1) && Plain(v2) && i <= |v1.items| && i <= |v2.items|
    requires ItemKeysThen(v1, i, r1) == ItemKeysThen(v2, i, r2)
    ensures |v1.items| == |v2.items| && v1.items[i..] == v2.items[i..] && r1 == r2
    decreases v1, 0, |v1.items| - i
  {
    hide KeyThen;
    ItemKeysStart(v1, i, r1);
    ItemKeysStart(v2, i, r2);
    if i == |v1.items| || i == |v2.items| {
      Cancel([93], r1, r2);
    } else {
      var x, y := ItemKeysThen(v1, i + 1, r1), ItemKeysThen(v2, i + 1, r2);
      Cancel(Comma(i), KeyThen(v1.items[i], x), KeyThen(v2.items[i], y));
      ItemKeysStart(v1, i + 1, r1);
      ItemKeysStart(v2, i + 1, r2);
      KeyReadable(v1.items[i], x, v2.items[i], y);
      ItemKeysReadable(v1, v2, i + 1, r1, r2);
      assert v1.items[i..] == [v1.items[i]] + v1.items[i + 1..] && v2.items[i..] == [v2.items[i]] + v2.items[i + 1..];
    }
  }

  lemma {:induction false} EntryKeysReadable(v1: Value, v2: Value, i: nat, r1: Text, r2: Text)
    requires v1.Obj? && v2.Obj? && Plain(v1) && Plain(v2) && i <= |v1.entries| && i <= |v2.entries|
    requires EntryKeysThen(v1, i, r1) == EntryKeysThen(v2, i, r2)
    ensures |v1.entries| == |v2.entries| && v1.entries[i..] == v2.entries[i..] && r1 == r2
    decreases v1, 0, |v1.entries| - i
  {
    hide KeyThen, QuoteThen;
    EntryKeysStart(v1, i, r1);
    EntryKeysStart(v2, i, r2);
    if i == |v1.entries| || i == |v2.entries| {
      Cancel([125], r1, r2);
    } else {
      var e1, e2 := v1.entries[i], v2.entries[i];
      var x, y := EntryKeysThen(v1, i + 1, r1), EntryKeysThen(v2, i + 1, r2);
      var p, q := [58] + KeyThen(e1.val, x), [58] + KeyThen(e2.val, y);
      Cancel(Comma(i), QuoteThen(e1.key, p), QuoteThen(e2.key, q));
      QuoteReadable(e1.key, p, e2.key, q);
      Cancel([58], KeyThen(e1.val, x), KeyThen(e2.val, y));
      EntryKeysStart(v1, i + 1, r1);
      EntryKeysStart(v2, i + 1, r2);
      KeyReadable(e1.val, x, e2.val, y);
      EntryKeysReadable(v1, v2, i + 1, r1, r2);
      assert v1.entries[i..] == [e1] + v1.entries[i + 1..] && v2.entries[i..] == [e2] + v2.entries[i + 1..];
    }
  }

  /** Rows share a key exactly when they are shown alike. */
  lemma StableKeyIff(v1: Value, v2: Value)
    requires AllNumbered(v1) && AllNumbered(v2)
    ensures StableKey(v1) == StableKey(v2) <==> Shown(v1) == Shown(v2)
  {
    if StableKey(v1) == StableKey(v2) {
      ShownIsPlain(v1);
      ShownIsPlain(v2);
      KeyReadable(Shown(v1), [], Shown(v2), []);
    }
  }

  /** Different values that share a key: a number that is not finite with null, a byte array with an object. */
  lemma SharedKeys()
    ensures StableKey(Num(NaN)) == StableKey(Null) && StableKey(Num(NegZero)) == StableKey(Num(Finite(Lit("0"))))
    ensures StableKey(Bytes([7])) == StableKey(Obj([Entry(Lit("0"), Num(Finite(Lit("7"))))]))
  {
    assert Lit("0") == [48] && Lit("7") == [55];
    assert ByteEntries([7]) == [Entry([48], Num(Finite([55])))];
    assert ShownEntries(Obj([Entry([48], Num(Finite([55])))])) == [Entry([48], Num(Finite([55])))];
  }

  ghost function ShownRows(rows: set<Value>): set<Value> { set r | r in rows :: Shown(r) }

  lemma SameShownRows(rows1: set<Value>, rows2: set<Value>)
    requires forall r :: r in rows1 + rows2 ==> AllNumbered(r)
    requires KeysOf(rows1, StableKey) == KeysOf(rows2, StableKey)
    ensures ShownRows(rows1) <= ShownRows(rows2)
  {
    forall r | r in rows1 ensures Shown(r) in ShownRows(rows2) {
      assert StableKey(r) in KeysOf(rows2, StableKey);
      var s :| s in rows2 && StableKey(s) == StableKey(r);
      StableKeyIff(r, s);
    }
  }

  /** With these keys, a diff brings the previous rows to the current ones, as they are shown. */
  lemma DiffRestoresShownRows(previous: QueryResult, current: QueryResult)
    requires forall r :: r in previous.rows + current.rows ==> AllNumbered(r)
    ensures ShownRows(ApplyRows(SetOf(previous.rows), ResultDiff(previous, current, StableKey), StableKey))
         == ShownRows(SetOf(current.rows))
  {
    var view := ApplyRows(SetOf(previous.rows), ResultDiff(previous, current, StableKey), StableKey);
    DiffRestoresKeys(SetOf(previous.rows), previous, current, StableKey);
    DiffMembers(previous, current, StableKey);
    KeyedRowsLaws(current.rows, StableKey);
    hide ApplyRows, ResultDiff, KeysOf, StableKey, AllNumbered, KeyedRows, ShownRows;
    ViewMembers(view, previous, current);
    forall r | r in view + SetOf(current.rows) ensures AllNumbered(r) {
      assert r in previous.rows + current.rows;
    }
    SameShownRows(view, SetOf(current.rows));
    SameShownRows(SetOf(current.rows), view);
  }

  lemma ViewMembers(view: set<Value>, previous: QueryResult, current: QueryResult)
    requires view == ApplyRows(SetOf(previous.rows), ResultDiff(previous, current, StableKey), StableKey)
    ensures forall r :: r in view ==> r in previous.rows || r in current.rows
  {
    DiffMembers(previous, current, StableKey);
    KeyedRowsLaws(current.rows, StableKey);
    hide StableKey, ResultDiff, KeyedRows;
  }
}
