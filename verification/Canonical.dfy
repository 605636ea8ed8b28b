/**
 * The canonical encoding of values: tagged JSON text with sorted keys, written as UTF-8. It can be
 * read back, up to key order and signed zero.
 */
module Canonical {
  import opened Seqs
  import opened Text
  import opened Core
  import Ordering

  // ---- normal forms --------------------------------------------------------------------

  predicate NumeralUnit(c: CodeUnit) { 48 <= c < 58 || c == 43 || c == 45 || c == 46 || c == 101 }

  /** The text JavaScript prints for a finite number: digits, signs, a point, an exponent mark. */
  predicate Numeral(t: Text) { forall i :: 0 <= i < |t| ==> NumeralUnit(t[i]) }

  function NormalNumber(n: Number): Number { if n.NegZero? then Finite(Lit("0")) else n }

  predicate KeyLess(x: Entry, y: Entry) { Less(x.key, y.key) }

  /** Keys sorted, negative zero made zero; strings are taken to be in normalisation form C. */
  function Normal(v: Value): Value {
    match v
    case Num(n) => Num(NormalNumber(n))
    case Arr(items) => Arr(seq(|items|, i requires 0 <= i < |items| => Normal(items[i])))
    case Obj(entries) => Obj(Ordering.Sort(NormalEntries(v), KeyLess))
    case _ => v
  }

  function NormalEntries(v: Value): (r: seq<Entry>)
    requires v.Obj?
    ensures |r| == |v.entries|
    decreases v, 0
  {
    seq(|v.entries|, i requires 0 <= i < |v.entries| => Entry(v.entries[i].key, Normal(v.entries[i].val)))
  }

  /** Every finite number is known by a numeral. */
  predicate Numerals(v: Value) {
    match v
    case Num(n) => n.Finite? ==> Numeral(n.text)
    case Arr(items) => forall i :: 0 <= i < |items| ==> Numerals(items[i])
    case Obj(entries) => forall i :: 0 <= i < |entries| ==> Numerals(entries[i].val)
    case _ => true
  }

  /** No negative zero is left. */
  predicate Clean(v: Value) {
    match v
    case Num(n) => !n.NegZero? && (n.Finite? ==> Numeral(n.text))
    case Arr(items) => forall i :: 0 <= i < |items| ==> Clean(items[i])
    case Obj(entries) => forall i :: 0 <= i < |entries| ==> Clean(entries[i].val)
    case _ => true
  }

  lemma {:induction false} NormalIsClean(v: Value)
    requires Numerals(v)
    ensures Clean(Normal(v))
  {
    match v
    case Arr(items) =>
      forall i | 0 <= i < |items| ensures Clean(Normal(items[i])) { NormalIsClean(items[i]); }
    case Obj(entries) =>
      var parts := NormalEntries(v);
      var sorted := Ordering.Sort(parts, KeyLess);
      forall i | 0 <= i < |entries| ensures Clean(parts[i].val) { NormalIsClean(entries[i].val); }
      Ordering.SameElements(sorted, parts);
      forall i | 0 <= i < |sorted| ensures Clean(sorted[i].val) {
        assert sorted[i] in parts;
      }
    case Num(n) => assert n.NegZero? ==> Numeral(Lit("0"));
    case _ =>
  }

  // ---- JSON text -------------------------------------------------------------------------

  predicate High(c: CodeUnit) { 0xD800 <= c < 0xDC00 }

  predicate Low(c: CodeUnit) { 0xDC00 <= c < 0xE000 }

  predicate Surrogate(c: CodeUnit) { High(c) || Low(c) }

  /** The text begins with a surrogate pair. */
  predicate Pair(t: Text) { |t| >= 2 && High(t[0]) && Low(t[1]) }

  /** A hexadecimal digit, in lower case. */
  function HexDigit(n: int): CodeUnit
    requires 0 <= n < 16
  {
    (if n < 10 then 48 + n else 87 + n) as CodeUnit
  }

  function Hex4(c: CodeUnit): (r: Text)
    ensures |r| == 4
  {
    var n := c as int;
    [HexDigit(n / 16 / 16 / 16), HexDigit(n / 16 / 16 % 16), HexDigit(n / 16 % 16), HexDigit(n % 16)]
  }

  /** One code unit in a JSON string; a surrogate that is not part of a pair is escaped. */
  function EscapeUnit(c: CodeUnit): (r: Text)
    ensures r != []
  {
    if c == 34 then [92, 34]
    else if c == 92 then [92, 92]
    else if c == 8 then [92, 98]
    else if c == 9 then [92, 116]
    else if c == 10 then [92, 110]
    else if c == 12 then [92, 102]
    else if c == 13 then [92, 114]
    else if c < 32 || Surrogate(c) then [92, 117] + Hex4(c)
    else [c]
  }

  /** The string's content, then `rest`. */
  function EscapeThen(t: Text, rest: Text): Text {
    if t == [] then rest
    else if Pair(t) then [t[0], t[1]] + EscapeThen(t[2..], rest)
    else EscapeUnit(t[0]) + EscapeThen(t[1..], rest)
  }

  function QuoteThen(t: Text, rest: Text): Text { [34] + EscapeThen(t, [34] + rest) }

  function NumberText(n: Number): Text {
    match n
    case NaN => Lit("nan")
    case Infinity => Lit("inf")
    case NegInfinity => Lit("-inf")
    case NegZero => Lit("0")
    case Finite(text) => text
  }

  function HexOf(bytes: seq<Byte>): Text {
    if bytes == [] then []
    else HexOf(bytes[..|bytes| - 1]) + [HexDigit(bytes[|bytes| - 1] as int / 16), HexDigit(bytes[|bytes| - 1] as int % 16)]
  }

  method Hex(bytes: seq<Byte>) returns (s: Text)
    ensures s == HexOf(bytes)
  {
    s := [];
    for i := 0 to |bytes|
      invariant s == HexOf(bytes[..i])
    {
      TakeNext(bytes, i);
      InitOfSnoc(bytes[..i], bytes[i]);
      s := s + [HexDigit(bytes[i] as int / 16), HexDigit(bytes[i] as int % 16)];
    }
    TakeAll(bytes);
  }

  /** `{"<tag>":` */
  function Opening(tag: CodeUnit): Text { [123, 34, tag, 34, 58] }

  const TRUE := Lit("true")
  const FALSE := Lit("false")

  /** The tagged JSON text of a value, then `rest`; entries are printed in the order they stand. */
  function PrintThen(v: Value, rest: Text): Text
    decreases v, 1, 0
  {
    var close := [125] + rest;
    match v
    case Null => Opening(122) + ([48] + close)
    case Bool(b) => Opening(98) + ((if b then TRUE else FALSE) + close)
    case Num(n) => Opening(102) + QuoteThen(NumberText(n), close)
    case Str(s) => Opening(115) + QuoteThen(s, close)
    case Bytes(x) => Opening(120) + QuoteThen(HexOf(x), close)
    case Arr(items) => Opening(97) + ([91] + ItemsThen(v, 0, close))
    case Obj(entries) => Opening(111) + ([91] + EntriesThen(v, 0, close))
  }

  function Comma(i: nat): Text { if i == 0 then [] else [44] }

  function ItemsThen(v: Value, i: nat, rest: Text): Text
    requires v.Arr? && i <= |v.items|
    decreases v, 0, |v.items| - i
  {
    if i == |v.items| then [93] + rest
    else Comma(i) + PrintThen(v.items[i], ItemsThen(v, i + 1, rest))
  }

  /** Each entry is a pair of key and value. */
  function EntriesThen(v: Value, i: nat, rest: Text): Text
    requires v.Obj? && i <= |v.entries|
    decreases v, 0, |v.entries| - i
  {
    if i == |v.entries| then [93] + rest
    else Comma(i) + ([91] + QuoteThen(v.entries[i].key, [44] + PrintThen(v.entries[i].val, [93] + EntriesThen(v, i + 1, rest))))
  }

  function CanonicalString(v: Value): Text { PrintThen(Normal(v), []) }

  // ---- reading it back ------------------------------------------------------------------------

  lemma Cancel(p: Text, x: Text, y: Text)
    requires p + x == p + y
    ensures x == y
  {
    assert (p + x)[|p|..] == x && (p + y)[|p|..] == y;
  }

  lemma HexDigitInjective(n: int, m: int)
    requires 0 <= n < 16 && 0 <= m < 16 && HexDigit(n) == HexDigit(m)
    ensures n == m
  {
  }

  lemma Hex4Injective(c: CodeUnit, d: CodeUnit)
    requires Hex4(c) == Hex4(d)
    ensures c == d
  {
    var n, m := c as int, d as int;
    assert Hex4(c)[0] == Hex4(d)[0] && Hex4(c)[1] == Hex4(d)[1] && Hex4(c)[2] == Hex4(d)[2] && Hex4(c)[3] == Hex4(d)[3];
    HexDigitInjective(n / 16 / 16 / 16, m / 16 / 16 / 16);
    HexDigitInjective(n / 16 / 16 % 16, m / 16 / 16 % 16);
    HexDigitInjective(n / 16 % 16, m / 16 % 16);
    HexDigitInjective(n % 16, m % 16);
  }

  /** An escaped unit says where it ends and what it stands for. */
  lemma UnitReadable(c: CodeUnit, x: Text, d: CodeUnit, y: Text)
    requires EscapeUnit(c) + x == EscapeUnit(d) + y
    ensures c == d && x == y
  {
    var u, w := EscapeUnit(c) + x, EscapeUnit(d) + y;
    assert u[0] == EscapeUnit(c)[0] && w[0] == EscapeUnit(d)[0];
    if |EscapeUnit(c)| >= 2 && |EscapeUnit(d)| >= 2 {
      assert u[1] == EscapeUnit(c)[1] && w[1] == EscapeUnit(d)[1];
      if |EscapeUnit(c)| == 6 && |EscapeUnit(d)| == 6 {
        assert u[2..6] == Hex4(c) && w[2..6] == Hex4(d);
        Hex4Injective(c, d);
      }
    }
    Cancel(EscapeUnit(c), x, y);
  }

  /** What a string's text can begin with. */
  lemma EscapeStart(t: Text, rest: Text)
    requires t != []
    ensures EscapeThen(t, rest) != [] && EscapeThen(t, rest)[0] != 34
    ensures High(EscapeThen(t, rest)[0]) <==> Pair(t)
  {
  }

  lemma {:induction false} EscapeReadable(t1: Text, r1: Text, t2: Text, r2: Text)
    requires EscapeThen(t1, [34] + r1) == EscapeThen(t2, [34] + r2)
    ensures t1 == t2 && r1 == r2
  {
    if t1 == [] || t2 == [] {
      if t1 != [] { EscapeStart(t1, [34] + r1); }
      if t2 != [] { EscapeStart(t2, [34] + r2); }
      Cancel([34], r1, r2);
    } else {
      EscapeStart(t1, [34] + r1);
      EscapeStart(t2, [34] + r2);
      if Pair(t1) {
        PairReadable(t1, r1, t2, r2);
        EscapeReadable(t1[2..], r1, t2[2..], r2);
        assert t1 == [t1[0], t1[1]] + t1[2..] && t2 == [t2[0], t2[1]] + t2[2..];
      } else {
        UnitReadable(t1[0], EscapeThen(t1[1..], [34] + r1), t2[0], EscapeThen(t2[1..], [34] + r2));
        EscapeReadable(t1[1..], r1, t2[1..], r2);
        assert t1 == [t1[0]] + t1[1..] && t2 == [t2[0]] + t2[1..];
      }
    }
  }

  lemma PairReadable(t1: Text, r1: Text, t2: Text, r2: Text)
    requires Pair(t1) && Pair(t2) && EscapeThen(t1, [34] + r1) == EscapeThen(t2, [34] + r2)
    ensures t1[0] == t2[0] && t1[1] == t2[1] && EscapeThen(t1[2..], [34] + r1) == EscapeThen(t2[2..], [34] + r2)
  {
    var u, w := EscapeThen(t1, [34] + r1), EscapeThen(t2, [34] + r2);
    assert u[0] == t1[0] && u[1] == t1[1] && w[0] == t2[0] && w[1] == t2[1];
    Cancel([t1[0], t1[1]], EscapeThen(t1[2..], [34] + r1), EscapeThen(t2[2..], [34] + r2));
  }

  lemma QuoteReadable(t1: Text, r1: Text, t2: Text, r2: Text)
    requires QuoteThen(t1, r1) == QuoteThen(t2, r2)
    ensures t1 == t2 && r1 == r2
  {
    Cancel([34], EscapeThen(t1, [34] + r1), EscapeThen(t2, [34] + r2));
    EscapeReadable(t1, r1, t2, r2);
  }

  lemma NumberTextInjective(n: Number, m: Number)
    requires !n.NegZero? && !m.NegZero? && (n.Finite? ==> Numeral(n.text)) && (m.Finite? ==> Numeral(m.text))
    requires NumberText(n) == NumberText(m)
    ensures n == m
  {
    assert Lit("nan") == [110, 97, 110] && Lit("inf") == [105, 110, 102] && Lit("-inf") == [45, 105, 110, 102];
    assert n.Finite? && !m.Finite? ==> NumeralUnit(n.text[1]);
    assert m.Finite? && !n.Finite? ==> NumeralUnit(m.text[1]);
  }

  lemma {:induction false} HexInjective(x: seq<Byte>, y: seq<Byte>)
    requires HexOf(x) == HexOf(y)
    ensures x == y
  {
    HexLength(x);
    HexLength(y);
    if x != [] {
      var n := |x| - 1;
      assert HexOf(x)[..2 * n] == HexOf(x[..n]) && HexOf(y)[..2 * n] == HexOf(y[..n]) by { HexLength(x[..n]); HexLength(y[..n]); }
      assert HexOf(x)[2 * n] == HexOf(y)[2 * n] && HexOf(x)[2 * n + 1] == HexOf(y)[2 * n + 1];
      HexDigitInjective(x[n] as int / 16, y[n] as int / 16);
      HexDigitInjective(x[n] as int % 16, y[n] as int % 16);
      HexInjective(x[..n], y[..n]);
      SplitLast(x);
      SplitLast(y);
    }
  }

  lemma {:induction false} HexLength(x: seq<Byte>)
    ensures |HexOf(x)| == 2 * |x|
  {
    if x != [] { HexLength(x[..|x| - 1]); }
  }

  function TagOf(v: Value): CodeUnit {
    match v
    case Null => 122
    case Bool(_) => 98
    case Num(_) => 102
    case Str(_) => 115
    case Bytes(_) => 120
    case Arr(_) => 97
    case Obj(_) => 111
  }

  /** What stands between the tag and the end. */
  function Payload(v: Value, rest: Text): Text {
    var close := [125] + rest;
    match v
    case Null => [48] + close
    case Bool(b) => (if b then TRUE else FALSE) + close
    case Num(n) => QuoteThen(NumberText(n), close)
    case Str(s) => QuoteThen(s, close)
    case Bytes(x) => QuoteThen(HexOf(x), close)
    case Arr(items) => [91] + ItemsThen(v, 0, close)
    case Obj(entries) => [91] + EntriesThen(v, 0, close)
  }

  lemma PrintIs(v: Value, rest: Text)
    ensures PrintThen(v, rest) == Opening(TagOf(v)) + Payload(v, rest)
    ensures PrintThen(v, rest) != [] && PrintThen(v, rest)[0] == 123
  {
  }

  /** The tag is read first. */
  lemma TagReadable(v1: Value, r1: Text, v2: Value, r2: Text)
    requires PrintThen(v1, r1) == PrintThen(v2, r2)
    ensures TagOf(v1) == TagOf(v2) && Payload(v1, r1) == Payload(v2, r2)
  {
    hide PrintThen, Payload;
    PrintIs(v1, r1);
    PrintIs(v2, r2);
    assert (Opening(TagOf(v1)) + Payload(v1, r1))[2] == TagOf(v1) && (Opening(TagOf(v2)) + Payload(v2, r2))[2] == TagOf(v2);
    Cancel(Opening(TagOf(v1)), Payload(v1, r1), Payload(v2, r2));
  }

  /** Unique readability: a printed value can be told from whatever follows it. */
  lemma {:induction false} Readable(v1: Value, r1: Text, v2: Value, r2: Text)
    requires Clean(v1) && Clean(v2) && PrintThen(v1, r1) == PrintThen(v2, r2)
    ensures v1 == v2 && r1 == r2
    decreases v1, 1, 0
  {
    hide PrintThen, QuoteThen, ItemsThen, EntriesThen, NumberText;
    TagReadable(v1, r1, v2, r2);
    var c1, c2 := [125] + r1, [125] + r2;
    match v1
    case Null => Cancel([48], c1, c2); Cancel([125], r1, r2);
    case Bool(b) => BoolReadable(b, c1, v2.b, c2); Cancel([125], r1, r2);
    case Num(n) => QuoteReadable(NumberText(n), c1, NumberText(v2.n), c2); NumberTextInjective(n, v2.n); Cancel([125], r1, r2);
    case Str(s) => QuoteReadable(s, c1, v2.s, c2); Cancel([125], r1, r2);
    case Bytes(x) => QuoteReadable(HexOf(x), c1, HexOf(v2.x), c2); HexInjective(x, v2.x); Cancel([125], r1, r2);
    case Arr(items) =>
      Cancel([91], ItemsThen(v1, 0, c1), ItemsThen(v2, 0, c2));
      ItemsReadable(v1, v2, 0, c1, c2);
      Cancel([125], r1, r2);
    case Obj(entries) =>
      Cancel([91], EntriesThen(v1, 0, c1), EntriesThen(v2, 0, c2));
      EntriesReadable(v1, v2, 0, c1, c2);
      Cancel([125], r1, r2);
  }

  lemma BoolReadable(b: bool, x: Text, c: bool, y: Text)
    requires (if b then TRUE else FALSE) + x == (if c then TRUE else FALSE) + y
    ensures b == c && x == y
  {
    assert TRUE[0] == 116 && FALSE[0] == 102;
    assert ((if b then TRUE else FALSE) + x)[0] == (if b then TRUE else FALSE)[0];
    assert ((if c then TRUE else FALSE) + y)[0] == (if c then TRUE else FALSE)[0];
    Cancel(if b then TRUE else FALSE, x, y);
  }

  /** The end of a list is told by its bracket. */
  lemma ItemsStart(v: Value, i: nat, rest: Text)
    requires v.Arr? && i <= |v.items|
    ensures ItemsThen(v, i, rest) != [] && (ItemsThen(v, i, rest)[0] == 93 <==> i == |v.items|)
    ensures i == |v.items| ==> ItemsThen(v, i, rest) == [93] + rest
  {
    hide PrintThen;
    if i < |v.items| { PrintIs(v.items[i], ItemsThen(v, i + 1, rest)); }
  }

  lemma EntriesStart(v: Value, i: nat, rest: Text)
    requires v.Obj? && i <= |v.entries|
    ensures EntriesThen(v, i, rest) != [] && (EntriesThen(v, i, rest)[0] == 93 <==> i == |v.entries|)
    ensures i == |v.entries| ==> EntriesThen(v, i, rest) == [93] + rest
  {
    hide PrintThen, QuoteThen;
  }

  lemma {:induction false} ItemsReadable(v1: Value, v2: Value, i: nat, r1: Text, r2: Text)
    requires v1.Arr? && v2.Arr? && Clean(v1) && Clean(v2) && i <= |v1.items| && i <= |v2.items|
    requires ItemsThen(v1, i, r1) == ItemsThen(v2, i, r2)
    ensures |v1.items| == |v2.items| && v1.items[i..] == v2.items[i..] && r1 == r2
    decreases v1, 0, |v1.items| - i
  {
    hide PrintThen;
    if i == |v1.items| || i == |v2.items| {
      ItemsStart(v1, i, r1);
      ItemsStart(v2, i, r2);
      Cancel([93], r1, r2);
    } else {
      var x, y := ItemsThen(v1, i + 1, r1), ItemsThen(v2, i + 1, r2);
      Cancel(Comma(i), PrintThen(v1.items[i], x), PrintThen(v2.items[i], y));
      Readable(v1.items[i], x, v2.items[i], y);
      ItemsReadable(v1, v2, i + 1, r1, r2);
      assert v1.items[i..] == [v1.items[i]] + v1.items[i + 1..] && v2.items[i..] == [v2.items[i]] + v2.items[i + 1..];
    }
  }

  lemma {:induction false} EntriesReadable(v1: Value, v2: Value, i: nat, r1: Text, r2: Text)
    requires v1.Obj? && v2.Obj? && Clean(v1) && Clean(v2) && i <= |v1.entries| && i <= |v2.entries|
    requires EntriesThen(v1, i, r1) == EntriesThen(v2, i, r2)
    ensures |v1.entries| == |v2.entries| && v1.entries[i..] == v2.entries[i..] && r1 == r2
    decreases v1, 0, |v1.entries| - i
  {
    hide PrintThen, QuoteThen;
    if i == |v1.entries| || i == |v2.entries| {
      EntriesStart(v1, i, r1);
      EntriesStart(v2, i, r2);
      Cancel([93], r1, r2);
    } else {
      var e1, e2 := v1.entries[i], v2.entries[i];
      var x, y := [93] + EntriesThen(v1, i + 1, r1), [93] + EntriesThen(v2, i + 1, r2);
      var p, q := [44] + PrintThen(e1.val, x), [44] + PrintThen(e2.val, y);
      Cancel(Comma(i), [91] + QuoteThen(e1.key, p), [91] + QuoteThen(e2.key, q));
      Cancel([91], QuoteThen(e1.key, p), QuoteThen(e2.key, q));
      QuoteReadable(e1.key, p, e2.key, q);
      Cancel([44], PrintThen(e1.val, x), PrintThen(e2.val, y));
      Readable(e1.val, x, e2.val, y);
      Cancel([93], EntriesThen(v1, i + 1, r1), EntriesThen(v2, i + 1, r2));
      EntriesReadable(v1, v2, i + 1, r1, r2);
      assert v1.entries[i..] == [e1] + v1.entries[i + 1..] && v2.entries[i..] == [e2] + v2.entries[i + 1..];
    }
  }

  /** Equal canonical strings, equal values up to key order and signed zero; and the other way. */
  lemma CanonicalStringIff(v1: Value, v2: Value)
    requires Numerals(v1) && Numerals(v2)
    ensures CanonicalString(v1) == CanonicalString(v2) <==> Normal(v1) == Normal(v2)
  {
    if CanonicalString(v1) == CanonicalString(v2) {
      NormalIsClean(v1);
      NormalIsClean(v2);
      Readable(Normal(v1), [], Normal(v2), []);
    }
  }
}
