/**
 * What canonical text is: the value is put into tagged JSON and the JSON is printed without spaces,
 * here in the plain recursive form of section 25.5.2 of ECMA-262.
 */
module JsonText {
  import opened Seqs
  import opened Text
  import opened Core
  import opened Canonical
  import Ordering

  /** The JSON that a tagged value is made of; objects have one key. */
  datatype Json =
    | JNumber(text: Text)
    | JBool(b: bool)
    | JString(s: Text)
    | JArray(items: seq<Json>)
    | JObject(key: Text, val: Json)

  // ---- printing JSON ----------------------------------------------------------------------

  const HEX := Lit("0123456789abcdef")

  /** A short escape, a `\u` escape, or the unit itself. */
  function Escaped(c: CodeUnit): Text {
    match c as int
    case 34 => Lit("\\\"")
    case 92 => Lit("\\\\")
    case 8 => Lit("\\b")
    case 9 => Lit("\\t")
    case 10 => Lit("\\n")
    case 12 => Lit("\\f")
    case 13 => Lit("\\r")
    case n =>
      if n < 0x20 || 0xD800 <= n < 0xE000 then Lit("\\u") + [HEX[n / 4096], HEX[n / 256 % 16], HEX[n / 16 % 16], HEX[n % 16]]
      else [c]
  }

  /** Surrogate pairs stand as they are. */
  function Content(t: Text): Text {
    if t == [] then []
    else if |t| > 1 && 0xD800 <= t[0] < 0xDC00 && 0xDC00 <= t[1] < 0xE000 then t[..2] + Content(t[2..])
    else Escaped(t[0]) + Content(t[1..])
  }

  function Quoted(t: Text): Text { Lit("\"") + Content(t) + Lit("\"") }

  /** `parts.join(",")` */
  function Commas(parts: seq<Text>): Text {
    if parts == [] then [] else if |parts| == 1 then parts[0] else parts[0] + Lit(",") + Commas(parts[1..])
  }

  function Stringify(j: Json): Text {
    match j
    case JNumber(text) => text
    case JBool(b) => if b then Lit("true") else Lit("false")
    case JString(s) => Quoted(s)
    case JArray(items) => Lit("[") + Commas(seq(|items|, i requires 0 <= i < |items| => Stringify(items[i]))) + Lit("]")
    case JObject(key, val) => Lit("{") + Quoted(key) + Lit(":") + Stringify(val) + Lit("}")
  }

  // ---- tagging values -----------------------------------------------------------------------

  function NumeralOf(n: Number): Text {
    match n
    case NaN => Lit("nan")
    case Infinity => Lit("inf")
    case NegInfinity => Lit("-inf")
    case NegZero => Lit("0")
    case Finite(text) => text
  }

  /** Two digits for each byte. */
  function HexText(x: seq<Byte>): Text {
    seq(2 * |x|, i requires 0 <= i < 2 * |x| => HEX[if i % 2 == 0 then x[i / 2] as int / 16 else x[i / 2] as int % 16])
  }

  function Tagged(v: Value): Json
    decreases v, 1
  {
    match v
    case Null => JObject(Lit("z"), JNumber(Lit("0")))
    case Bool(b) => JObject(Lit("b"), JBool(b))
    case Num(n) => JObject(Lit("f"), JString(NumeralOf(n)))
    case Str(s) => JObject(Lit("s"), JString(s))
    case Bytes(x) => JObject(Lit("x"), JString(HexText(x)))
    case Arr(items) => JObject(Lit("a"), JArray(seq(|items|, i requires 0 <= i < |items| => Tagged(items[i]))))
    case Obj(entries) => JObject(Lit("o"), JArray(TaggedEntries(v)))
  }

  /** Each entry is a pair of key and tagged value. */
  function TaggedEntries(v: Value): (r: seq<Json>)
    requires v.Obj?
    ensures |r| == |v.entries|
    decreases v, 0
  {
    seq(|v.entries|, i requires 0 <= i < |v.entries| => JArray([JString(v.entries[i].key), Tagged(v.entries[i].val)]))
  }

  // ---- that canonical text is this --------------------------------------------------------------

  lemma DigitIs(n: int)
    requires 0 <= n < 16
    ensures HEX[n] == HexDigit(n)
  {
    if n < 10 { assert HEX[n] as int == 48 + n; } else { assert HEX[n] as int == 87 + n; }
  }

  lemma FourDigits(c: CodeUnit)
    ensures var n := c as int; [HEX[n / 4096], HEX[n / 256 % 16], HEX[n / 16 % 16], HEX[n % 16]] == Hex4(c)
  {
    var n := c as int;
    assert n / 4096 == n / 16 / 16 / 16 && n / 256 == n / 16 / 16;
    DigitIs(n / 16 / 16 / 16);
    DigitIs(n / 16 / 16 % 16);
    DigitIs(n / 16 % 16);
    DigitIs(n % 16);
    hide HexDigit, HEX;
  }

  lemma EscapedIs(c: CodeUnit)
    ensures Escaped(c) == EscapeUnit(c)
  {
    FourDigits(c);
    hide Hex4, HEX;
    assert Lit("\\u") == [92, 117];
  }

  lemma {:induction false} ContentIs(t: Text, rest: Text)
    ensures EscapeThen(t, rest) == Content(t) + rest
  {
    hide Escaped, EscapeUnit;
    if t != [] {
      if Pair(t) {
        ContentIs(t[2..], rest);
        assert t[..2] == [t[0], t[1]];
        AppendAssoc(t[..2], Content(t[2..]), rest);
      } else {
        EscapedIs(t[0]);
        ContentIs(t[1..], rest);
        AppendAssoc(EscapeUnit(t[0]), Content(t[1..]), rest);
      }
    }
  }

  lemma QuotedIs(t: Text, rest: Text)
    ensures QuoteThen(t, rest) == Quoted(t) + rest
  {
    hide EscapeThen, Content;
    ContentIs(t, [34] + rest);
    assert Lit("\"") == [34];
    assert Quoted(t) + rest == [34] + (Content(t) + ([34] + rest));
  }

  lemma {:induction false} HexTextIs(x: seq<Byte>)
    ensures HexOf(x) == HexText(x)
  {
    if x != [] {
      var n := |x| - 1;
      HexTextIs(x[..n]);
      DigitIs(x[n] as int / 16);
      DigitIs(x[n] as int % 16);
      hide HexDigit;
      forall i | 0 <= i < 2 * |x| ensures HexOf(x)[i] == HexText(x)[i] {
        if i < 2 * n { assert HexText(x)[i] == HexText(x[..n])[i]; }
      }
    }
  }

  /** The texts of an array's items, or of an object's pairs. */
  function ItemTexts(v: Value): (r: seq<Text>)
    requires v.Arr?
    ensures |r| == |v.items|
  {
    seq(|v.items|, i requires 0 <= i < |v.items| => Stringify(Tagged(v.items[i])))
  }

  function PairText(e: Entry): Text { Lit("[") + (Quoted(e.key) + Lit(",") + Stringify(Tagged(e.val))) + Lit("]") }

  function PairTexts(v: Value): (r: seq<Text>)
    requires v.Obj?
    ensures |r| == |v.entries|
  {
    seq(|v.entries|, i requires 0 <= i < |v.entries| => PairText(v.entries[i]))
  }

  lemma CommasNext(parts: seq<Text>, i: nat)
    requires i < |parts|
    ensures Commas(parts[i..]) == if i + 1 == |parts| then parts[i] else parts[i] + Lit(",") + Commas(parts[i + 1..])
  {
    assert parts[i..][1..] == parts[i + 1..];
  }

  lemma TaggedText(key: CodeUnit, payload: Text)
    requires !(key < 32) && key != 34 && key != 92 && key < 0x80
    ensures Lit("{") + Quoted([key]) + Lit(":") + payload + Lit("}") == Opening(key) + (payload + [125])
  {
    assert Content([key]) == [key] by { assert [key][1..] == []; }
    assert Lit("{") == [123] && Lit("\"") == [34] && Lit(":") == [58] && Lit("}") == [125];
    hide Content;
    assert Quoted([key]) == [34, key, 34];
    assert Lit("{") + Quoted([key]) + Lit(":") == Opening(key);
    AppendAssoc(Opening(key), payload, [125]);
  }

  lemma OneKey(key: CodeUnit, j: Json, rest: Text)
    requires !(key < 32) && key != 34 && key != 92 && key < 0x80
    ensures Stringify(JObject([key], j)) + rest == Opening(key) + (Stringify(j) + ([125] + rest))
  {
    hide Stringify, Quoted, Opening;
    TaggedText(key, Stringify(j));
    ObjectText([key], j);
    var o, t := Opening(key), Stringify(j);
    AppendAssoc(o, t + [125], rest);
    AppendAssoc(t, [125], rest);
  }

  lemma ObjectText(key: Text, j: Json)
    ensures Stringify(JObject(key, j)) == Lit("{") + Quoted(key) + Lit(":") + Stringify(j) + Lit("}")
  {
  }

  lemma ArrayText(v: Value)
    ensures v.Arr? ==> Tagged(v) == JObject(Lit("a"), Tagged(v).val) && Stringify(Tagged(v).val) == Lit("[") + Commas(ItemTexts(v)) + Lit("]")
    ensures v.Obj? ==> Tagged(v) == JObject(Lit("o"), Tagged(v).val) && Stringify(Tagged(v).val) == Lit("[") + Commas(PairTexts(v)) + Lit("]")
  {
    if v.Arr? {
      var items := Tagged(v).val.items;
      assert seq(|items|, i requires 0 <= i < |items| => Stringify(items[i])) == ItemTexts(v);
    } else if v.Obj? {
      var items := Tagged(v).val.items;
      forall i | 0 <= i < |items| ensures Stringify(items[i]) == PairTexts(v)[i] {
        assert items == TaggedEntries(v);
        assert TaggedEntries(v)[i] == JArray([JString(v.entries[i].key), Tagged(v.entries[i].val)]);
        PairIs(v.entries[i]);
      }
      assert seq(|items|, i requires 0 <= i < |items| => Stringify(items[i])) == PairTexts(v);
    }
  }

  lemma PairIs(e: Entry)
    ensures Stringify(JArray([JString(e.key), Tagged(e.val)])) == PairText(e)
  {
    var items := [JString(e.key), Tagged(e.val)];
    var texts := seq(2, i requires 0 <= i < 2 => Stringify(items[i]));
    assert Stringify(JArray(items)) == Lit("[") + Commas(seq(|items|, i requires 0 <= i < |items| => Stringify(items[i]))) + Lit("]");
    assert seq(|items|, i requires 0 <= i < |items| => Stringify(items[i])) == texts;
    hide Stringify, Quoted;
    assert texts[1..] == [texts[1]];
    assert Commas(texts) == texts[0] + Lit(",") + texts[1];
    StringText(e.key);
  }

  lemma StringText(s: Text)
    ensures Stringify(JString(s)) == Quoted(s)
  {
  }

  lemma QuotedKey(key: CodeUnit, t: Text, rest: Text)
    requires !(key < 32) && key != 34 && key != 92 && key < 0x80
    ensures Opening(key) + QuoteThen(t, [125] + rest) == Stringify(JObject([key], JString(t))) + rest
  {
    hide Stringify, Quoted, QuoteThen, Opening;
    OneKey(key, JString(t), rest);
    QuotedIs(t, [125] + rest);
    StringText(t);
  }

  lemma PlainKey(key: CodeUnit, j: Json, t: Text, rest: Text)
    requires !(key < 32) && key != 34 && key != 92 && key < 0x80 && Stringify(j) == t
    ensures Opening(key) + (t + ([125] + rest)) == Stringify(JObject([key], j)) + rest
  {
    OneKey(key, j, rest);
  }

  lemma ListKey(key: CodeUnit, j: Json, t: Text, rest: Text)
    requires !(key < 32) && key != 34 && key != 92 && key < 0x80 && Stringify(j) == Lit("[") + t + Lit("]")
    ensures Opening(key) + ([91] + (t + ([93] + ([125] + rest)))) == Stringify(JObject([key], j)) + rest
  {
    hide Stringify, Opening;
    OneKey(key, j, rest);
    Bracketed(t, [125] + rest);
  }

  /** The printed text is the tagged JSON. */
  lemma {:induction false} PrintIsJson(v: Value, rest: Text)
    ensures PrintThen(v, rest) == Stringify(Tagged(v)) + rest
    decreases v, 1, 0
  {
    var close := [125] + rest;
    Literals();
    match v {
      case Null => PlainKey(122, JNumber(Lit("0")), [48], rest);
      case Bool(b) => PlainKey(98, JBool(b), if b then TRUE else FALSE, rest);
      case Num(n) => QuotedKey(102, NumeralOf(n), rest);
      case Str(s) => QuotedKey(115, s, rest);
      case Bytes(x) =>
        HexTextIs(x);
        QuotedKey(120, HexText(x), rest);
      case Arr(_) =>
        ArrayText(v);
        ItemsAre(v, 0, close);
        hide Stringify, Tagged, ItemsThen, Commas, ItemTexts, Opening;
        AllItems(v);
        ListKey(97, Tagged(v).val, Commas(ItemTexts(v)), rest);
      case Obj(_) =>
        ArrayText(v);
        EntriesAre(v, 0, close);
        hide Stringify, Tagged, EntriesThen, Commas, PairTexts, Opening;
        AllItems(v);
        ListKey(111, Tagged(v).val, Commas(PairTexts(v)), rest);
    }
  }

  lemma AllItems(v: Value)
    ensures v.Arr? ==> (if 0 < |v.items| then Comma(0) + Commas(ItemTexts(v)[0..]) else []) == Commas(ItemTexts(v))
    ensures v.Obj? ==> (if 0 < |v.entries| then Comma(0) + Commas(PairTexts(v)[0..]) else []) == Commas(PairTexts(v))
  {
    if v.Arr? { assert ItemTexts(v)[0..] == ItemTexts(v); }
    if v.Obj? { assert PairTexts(v)[0..] == PairTexts(v); }
  }

  lemma Literals()
    ensures Lit("z") == [122] && Lit("b") == [98] && Lit("f") == [102] && Lit("s") == [115] && Lit("x") == [120]
    ensures Lit("a") == [97] && Lit("o") == [111] && Lit("0") == [48] && Lit("[") == [91] && Lit("]") == [93] && Lit(",") == [44]
    ensures Stringify(JNumber(Lit("0"))) == [48] && forall b :: Stringify(JBool(b)) == if b then TRUE else FALSE
  {
  }

  lemma Bracketed(t: Text, close: Text)
    ensures Lit("[") + t + Lit("]") + close == [91] + (t + ([93] + close))
  {
    assert Lit("[") == [91] && Lit("]") == [93];
  }

  lemma {:induction false} ItemsAre(v: Value, i: nat, rest: Text)
    requires v.Arr? && i <= |v.items|
    ensures ItemsThen(v, i, rest) == (if i < |v.items| then Comma(i) + Commas(ItemTexts(v)[i..]) else []) + ([93] + rest)
    decreases v, 0, |v.items| - i
  {
    hide Stringify, Tagged, PrintThen;
    if i < |v.items| {
      ItemsAre(v, i + 1, rest);
      PrintIsJson(v.items[i], ItemsThen(v, i + 1, rest));
      CommasNext(ItemTexts(v), i);
      Literals();
      JoinNext(Comma(i), ItemTexts(v)[i], if i + 1 < |v.items| then Comma(i + 1) + Commas(ItemTexts(v)[i + 1..]) else [], [93] + rest);
    }
  }

  lemma JoinNext(comma: Text, t: Text, more: Text, close: Text)
    ensures comma + (t + (more + close)) == (comma + (t + more)) + close
  {
    AppendAssoc(t, more, close);
    AppendAssoc(comma, t + more, close);
  }

  lemma {:induction false} EntriesAre(v: Value, i: nat, rest: Text)
    requires v.Obj? && i <= |v.entries|
    ensures EntriesThen(v, i, rest) == (if i < |v.entries| then Comma(i) + Commas(PairTexts(v)[i..]) else []) + ([93] + rest)
    decreases v, 0, |v.entries| - i
  {
    hide Stringify, Tagged, PrintThen, QuoteThen, Quoted, Commas, PairText, Comma;
    if i < |v.entries| {
      EntriesAre(v, i + 1, rest);
      PrintIsJson(v.entries[i].val, [93] + EntriesThen(v, i + 1, rest));
      EntryThen(v.entries[i], EntriesThen(v, i + 1, rest));
      JoinPairs(v, i, [93] + rest);
      assert EntriesThen(v, i, rest) == Comma(i) + (PairText(v.entries[i]) + EntriesThen(v, i + 1, rest));
    } else {
      assert [] + ([93] + rest) == [93] + rest;
    }
  }

  /** One pair, then what follows. */
  lemma EntryThen(e: Entry, more: Text)
    requires PrintThen(e.val, [93] + more) == Stringify(Tagged(e.val)) + ([93] + more)
    ensures [91] + QuoteThen(e.key, [44] + PrintThen(e.val, [93] + more)) == PairText(e) + more
  {
    hide Stringify, Tagged, PrintThen, QuoteThen, Quoted;
    QuotedIs(e.key, [44] + PrintThen(e.val, [93] + more));
    PairThen(e, more);
  }

  lemma JoinPairs(v: Value, i: nat, close: Text)
    requires v.Obj? && i < |v.entries|
    ensures Comma(i) + (PairText(v.entries[i]) + ((if i + 1 < |v.entries| then Comma(i + 1) + Commas(PairTexts(v)[i + 1..]) else []) + close))
         == (Comma(i) + Commas(PairTexts(v)[i..])) + close
  {
    hide Commas, PairText;
    CommasNext(PairTexts(v), i);
    assert Lit(",") == [44];
    var t, more := PairText(v.entries[i]), if i + 1 < |v.entries| then Comma(i + 1) + Commas(PairTexts(v)[i + 1..]) else [];
    JoinNext(Comma(i), t, more, close);
    assert t + more == Commas(PairTexts(v)[i..]);
  }

  lemma PairThen(e: Entry, more: Text)
    ensures [91] + (Quoted(e.key) + ([44] + (Stringify(Tagged(e.val)) + ([93] + more)))) == PairText(e) + more
  {
    hide Stringify, Tagged, Quoted;
    assert Lit("[") == [91] && Lit("]") == [93] && Lit(",") == [44];
  }

  /** The canonical string of a value is the text of the tagged JSON of its normal form. */
  lemma CanonicalIsJson(v: Value)
    ensures CanonicalString(v) == Stringify(Tagged(Normal(v)))
  {
    PrintIsJson(Normal(v), []);
    AppendNil(Stringify(Tagged(Normal(v))));
  }

  /** In the normal form the entries of an object stand in the order of their keys, each value in normal form. */
  lemma NormalIs(v: Value)
    ensures v.Obj? ==>
              && Normal(v).Obj? && |Normal(v).entries| == |v.entries|
              && (forall i, j :: 0 <= i < j < |v.entries| ==> !Less(Normal(v).entries[j].key, Normal(v).entries[i].key))
              && multiset(Normal(v).entries) == multiset(NormalEntries(v))
    ensures v.Num? ==> Normal(v) == if v.n == NegZero then Num(Finite(Lit("0"))) else v
    ensures v.Arr? ==> Normal(v).Arr? && |Normal(v).items| == |v.items| && forall i :: 0 <= i < |v.items| ==> Normal(v).items[i] == Normal(v.items[i])
    ensures v.Null? || v.Bool? || v.Str? || v.Bytes? ==> Normal(v) == v
  {
    if v.Obj? {
      KeysOrdered();
      Ordering.SortSorted(NormalEntries(v), KeyLess);
      assert |multiset(Normal(v).entries)| == |Normal(v).entries| && |multiset(NormalEntries(v))| == |NormalEntries(v)|;
    }
  }

  lemma KeysOrdered()
    ensures Ordering.WeakOrder(KeyLess)
  {
    forall x, y | KeyLess(x, y) ensures !KeyLess(y, x) { LessAsymmetric(x.key, y.key); }
    forall x, y, z | KeyLess(x, y) ensures KeyLess(x, z) || KeyLess(z, y) { LessNegTransitive(x.key, y.key, z.key); }
  }
}
