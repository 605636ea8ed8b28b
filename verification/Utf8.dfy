/** UTF-8 from UTF-16 code units, as section 3 of RFC 3629 has it, and a decoder. */
module Utf8 {
  import opened Seqs
  import opened Text
  import opened Core
  import opened Canonical

  // ---- the encoder ------------------------------------------------------------------

  function ToByte(n: int): Byte
    requires 0 <= n < 256
  {
    n as Byte
  }

  /** The code point of a high surrogate and whatever unit follows it, none counting as zero. */
  function Joined(high: CodeUnit, next: Option<CodeUnit>): (c: int)
    ensures 0x1_0000 <= c < 0x11_0000
  {
    0x1_0000 + high as int % 1024 * 1024 + (if next.Some? then next.value as int % 1024 else 0)
  }

  function OneUnit(c: int): seq<Byte>
    requires 0 <= c < 0x1_0000
  {
    if c < 0x80 then [ToByte(c)]
    else if c < 0x800 then [ToByte(0xC0 + c / 64), ToByte(0x80 + c % 64)]
    else [ToByte(0xE0 + c / 4096), ToByte(0x80 + c / 64 % 64), ToByte(0x80 + c % 64)]
  }

  function FourBytes(c: int): seq<Byte>
    requires 0x1_0000 <= c < 0x11_0000
  {
    [ToByte(0xF0 + c / 0x4_0000), ToByte(0x80 + c / 4096 % 64), ToByte(0x80 + c / 64 % 64), ToByte(0x80 + c % 64)]
  }

  /** A high surrogate takes the next unit with it, whatever that is. */
  function Utf8(s: Text): seq<Byte> {
    if s == [] then []
    else if High(s[0]) then
      FourBytes(Joined(s[0], if |s| > 1 then Some(s[1]) else None)) + Utf8(s[if |s| > 1 then 2 else 1..])
    else OneUnit(s[0] as int) + Utf8(s[1..])
  }

  method EncodeUtf8(s: Text) returns (out: seq<Byte>)
    ensures out == Utf8(s)
  {
    hide FourBytes, OneUnit, Joined;
    out := [];
    var i := 0;
    while i < |s|
      invariant i <= |s| && out + Utf8(s[i..]) == Utf8(s)
    {
      var c := s[i];
      var rest := s[i..];
      if !High(c) {
        AppendAssoc(out, OneUnit(c as int), Utf8(rest[1..]));
        assert rest[1..] == s[i + 1..];
        out := out + OneUnit(c as int);
        i := i + 1;
      } else {
        var next := if i + 1 < |s| then Some(s[i + 1]) else None;
        var k := if i + 1 < |s| then 2 else 1;
        AppendAssoc(out, FourBytes(Joined(c, next)), Utf8(rest[k..]));
        assert rest[k..] == s[i + k..];
        out := out + FourBytes(Joined(c, next));
        i := i + k;
      }
    }
    AppendNil(out);
  }

  // ---- the decoder -------------------------------------------------------------------

  predicate Continues(b: Byte) { 0x80 <= b < 0xC0 }

  /** The six bits a continuation byte carries. */
  function Six(b: Byte): int { b as int % 64 }

  function UnitsOf(c: int): Text
    requires 0 <= c < 0x11_0000
  {
    if c < 0x1_0000 then [c as CodeUnit]
    else [(0xD800 + (c - 0x1_0000) / 1024) as CodeUnit, (0xDC00 + c % 1024) as CodeUnit]
  }

  /** The code point at the head of the bytes and how many bytes it takes. */
  function Head(b: seq<Byte>): Option<(int, nat)>
    requires b != []
  {
    var n := b[0] as int;
    if n < 0x80 then Some((n, 1))
    else if 0xC0 <= n < 0xE0 && |b| >= 2 && Continues(b[1]) then Some(((n - 0xC0) * 64 + Six(b[1]), 2))
    else if 0xE0 <= n < 0xF0 && |b| >= 3 && Continues(b[1]) && Continues(b[2]) then
      Some(((n - 0xE0) * 4096 + Six(b[1]) * 64 + Six(b[2]), 3))
    else if 0xF0 <= n < 0xF8 && |b| >= 4 && Continues(b[1]) && Continues(b[2]) && Continues(b[3]) then
      Some(((n - 0xF0) * 0x4_0000 + Six(b[1]) * 4096 + Six(b[2]) * 64 + Six(b[3]), 4))
    else None
  }

  function Decode(b: seq<Byte>): Option<Text> {
    if b == [] then Some([])
    else
      var h := Head(b);
      if h.None? || !(0 <= h.value.0 < 0x11_0000) || h.value.1 == 0 || h.value.1 > |b| then None
      else
        var rest := Decode(b[h.value.1..]);
        if rest.None? then None else Some(UnitsOf(h.value.0) + rest.value)
  }

  /** Every surrogate is part of a pair. */
  predicate WellFormed(t: Text) {
    t == [] || (if Pair(t) then WellFormed(t[2..]) else !Surrogate(t[0]) && WellFormed(t[1..]))
  }

  lemma HeadOfOneUnit(c: int, rest: seq<Byte>)
    requires 0 <= c < 0x1_0000
    ensures Head(OneUnit(c) + rest) == Some((c, |OneUnit(c)|)) && OneUnit(c) != []
  {
    var b := OneUnit(c) + rest;
    if c >= 0x800 {
      assert b[0] == OneUnit(c)[0] && b[1] == OneUnit(c)[1] && b[2] == OneUnit(c)[2];
      SixBits(c);
    } else if c >= 0x80 {
      assert b[0] == OneUnit(c)[0] && b[1] == OneUnit(c)[1];
    }
  }

  lemma SixBits(c: int)
    requires 0 <= c
    ensures c == c / 4096 * 4096 + c / 64 % 64 * 64 + c % 64
  {
    assert c / 64 / 64 == c / 4096;
  }

  lemma HeadOfFour(c: int, rest: seq<Byte>)
    requires 0x1_0000 <= c < 0x11_0000
    ensures Head(FourBytes(c) + rest) == Some((c, 4))
  {
    var b, four := FourBytes(c) + rest, FourBytes(c);
    assert b[0] == four[0] && b[1] == four[1] && b[2] == four[2] && b[3] == four[3];
    SixBits(c);
    assert c / 4096 / 64 == c / 0x4_0000;
    assert c / 4096 == c / 0x4_0000 * 64 + c / 4096 % 64;
  }

  /** The low surrogate that the unit after a high one counts as. */
  function LowOf(next: Option<CodeUnit>): CodeUnit {
    (0xDC00 + (if next.Some? then next.value as int % 1024 else 0)) as CodeUnit
  }

  lemma UnitsOfJoined(h: CodeUnit, next: Option<CodeUnit>)
    requires High(h)
    ensures UnitsOf(Joined(h, next)) == [h, LowOf(next)]
  {
    assert h as int % 1024 == h as int - 0xD800;
  }

  /** The text with a low surrogate behind every high one that takes a unit with it. */
  function Repaired(t: Text): Text {
    if t == [] then []
    else if High(t[0]) then
      [t[0], LowOf(if |t| > 1 then Some(t[1]) else None)] + Repaired(t[if |t| > 1 then 2 else 1..])
    else [t[0]] + Repaired(t[1..])
  }

  /** Every high surrogate is followed by a low one. */
  predicate Paired(t: Text) {
    t == [] || (if High(t[0]) then Pair(t) && Paired(t[2..]) else Paired(t[1..]))
  }

  lemma DecodeStep(c: int, n: nat, head: seq<Byte>, rest: seq<Byte>)
    requires |head| == n > 0 && 0 <= c < 0x11_0000 && Head(head + rest) == Some((c, n)) && Decode(rest).Some?
    ensures Decode(head + rest) == Some(UnitsOf(c) + Decode(rest).value)
  {
    assert (head + rest)[n..] == rest;
  }

  /** Decoding what was encoded gives the repaired text. */
  lemma {:induction false} DecodeEncoded(t: Text)
    ensures Decode(Utf8(t)) == Some(Repaired(t))
  {
    hide FourBytes, OneUnit, Joined, Head, UnitsOf, Decode, LowOf;
    if t == [] {
      NothingDecodes();
    } else if High(t[0]) {
      var next := if |t| > 1 then Some(t[1]) else None;
      var rest := t[if |t| > 1 then 2 else 1..];
      var c := Joined(t[0], next);
      DecodeEncoded(rest);
      UnitsOfJoined(t[0], next);
      HeadOfFour(c, Utf8(rest));
      FourLong(c);
      DecodeStep(c, 4, FourBytes(c), Utf8(rest));
    } else {
      DecodeEncoded(t[1..]);
      var c := t[0] as int;
      HeadOfOneUnit(c, Utf8(t[1..]));
      DecodeStep(c, |OneUnit(c)|, OneUnit(c), Utf8(t[1..]));
      OneUnitBack(t[0]);
    }
  }

  lemma NothingDecodes()
    ensures Decode([]) == Some([])
  {
  }

  lemma FourLong(c: int)
    requires 0x1_0000 <= c < 0x11_0000
    ensures |FourBytes(c)| == 4
  {
  }

  lemma OneUnitBack(c: CodeUnit)
    ensures UnitsOf(c as int) == [c]
  {
  }

  lemma JoinedLow(h: CodeUnit, next: Option<CodeUnit>)
    ensures Joined(h, next) == Joined(h, Some(LowOf(next)))
  {
  }

  /** Repairing keeps the bytes. */
  lemma {:induction false} RepairedBytes(t: Text)
    ensures Utf8(Repaired(t)) == Utf8(t)
  {
    hide FourBytes, OneUnit, Joined, LowOf;
    if t != [] {
      if High(t[0]) {
        var next := if |t| > 1 then Some(t[1]) else None;
        var rest := t[if |t| > 1 then 2 else 1..];
        RepairedBytes(rest);
        JoinedLow(t[0], next);
        assert Repaired(t) == [t[0], LowOf(next)] + Repaired(rest);
        assert Repaired(t)[2..] == Repaired(rest);
      } else {
        RepairedBytes(t[1..]);
        assert Repaired(t)[1..] == Repaired(t[1..]);
      }
    }
  }

  lemma {:induction false} RepairedIff(t: Text)
    ensures Repaired(t) == t <==> Paired(t)
  {
    if t != [] {
      var r := Repaired(t);
      if High(t[0]) {
        var rest := t[if |t| > 1 then 2 else 1..];
        RepairedIff(rest);
        assert r[2..] == Repaired(rest);
        assert |t| > 1 && Low(t[1]) ==> LowOf(Some(t[1])) == t[1] && t == [t[0], t[1]] + rest;
        assert r == t ==> r[1] == t[1];
      } else {
        RepairedIff(t[1..]);
        assert r[1..] == Repaired(t[1..]) && t == [t[0]] + t[1..];
      }
    }
  }

  /** Texts have the same bytes exactly when they are repaired to the same text. */
  lemma SameBytesIff(t1: Text, t2: Text)
    ensures Utf8(t1) == Utf8(t2) <==> Repaired(t1) == Repaired(t2)
  {
    hide Utf8, Repaired;
    DecodeEncoded(t1);
    DecodeEncoded(t2);
    RepairedBytes(t1);
    RepairedBytes(t2);
  }

  /** The decoder gives a text back exactly when its high surrogates are paired; of those no two share bytes. */
  lemma Utf8Injective(t1: Text, t2: Text)
    ensures Decode(Utf8(t1)) == Some(t1) <==> Paired(t1)
    ensures Paired(t1) && Paired(t2) && Utf8(t1) == Utf8(t2) ==> t1 == t2
  {
    hide Utf8, Repaired, Decode, Paired;
    DecodeEncoded(t1);
    SameBytesIff(t1, t2);
    RepairedIff(t1);
    RepairedIff(t2);
  }

  /** Another text with the same bytes: the unit that a high surrogate takes differs, or there is one. */
  function Other(t: Text): Text
    requires exists i :: 0 <= i < |t| && High(t[i])
  {
    if !High(t[0]) then [t[0]] + Other(t[1..])
    else if |t| == 1 then [t[0], 0]
    else [t[0], if t[1] < 0xFC00 then t[1] + 0x400 else t[1] - 0x400] + t[2..]
  }

  lemma {:induction false} OtherSharesBytes(t: Text)
    requires exists i :: 0 <= i < |t| && High(t[i])
    ensures Other(t) != t && Utf8(Other(t)) == Utf8(t)
  {
    hide FourBytes, OneUnit;
    var o := Other(t);
    if !High(t[0]) {
      OtherSharesBytes(t[1..]);
      assert o[1..] == Other(t[1..]);
    } else if |t| == 1 {
      assert o[2..] == t[1..];
    } else {
      assert o[2..] == t[2..] && o[1] != t[1];
      assert o[1] as int % 1024 == t[1] as int % 1024;
    }
  }

  lemma {:induction false} NoHighIsRepaired(t: Text, u: Text)
    requires Repaired(u) == t && forall c :: c in t ==> !High(c)
    ensures u == t
  {
    if u != [] {
      assert t[0] == u[0] && t[0] in t;
      assert t[1..] == Repaired(u[1..]);
      NoHighIsRepaired(t[1..], u[1..]);
    }
  }

  /** A text shares its bytes with no other exactly when it holds no high surrogate. */
  lemma OwnBytesIff(t: Text)
    ensures (forall u :: Utf8(u) == Utf8(t) ==> u == t) <==> forall i :: 0 <= i < |t| ==> !High(t[i])
  {
    hide Utf8, Repaired;
    if forall i :: 0 <= i < |t| ==> !High(t[i]) {
      forall u | Utf8(u) == Utf8(t) ensures u == t {
        SameBytesIff(u, t);
        NoHighIsPaired(t);
        RepairedIff(t);
        NoHighIsRepaired(t, u);
      }
    } else {
      OtherSharesBytes(t);
    }
  }

  lemma {:induction false} NoHighIsPaired(t: Text)
    requires forall c :: c in t ==> !High(c)
    ensures Paired(t)
  {
    if t != [] { NoHighIsPaired(t[1..]); }
  }

  lemma {:induction false} WellFormedIsPaired(t: Text)
    requires WellFormed(t)
    ensures Paired(t)
  {
    if t != [] { WellFormedIsPaired(t[if Pair(t) then 2 else 1..]); }
  }

  /** A lone high surrogate swallows what follows. */
  lemma LoneSurrogateCollides()
    ensures exists t1: Text, t2: Text :: t1 != t2 && WellFormed(t2) && Utf8(t1) == Utf8(t2)
  {
    var t1: Text, t2: Text := [0xD800, 0x41], [0xD800, 0xDC41];
    assert t2[2..] == [] && t1[2..] == [];
    assert WellFormed(t2);
    assert Repaired(t1) == [0xD800, 0xDC41] == Repaired(t2);
    SameBytesIff(t1, t2);
    assert t1[1] != t2[1];
  }

  // ---- JSON text is well-formed ---------------------------------------------------------------

  lemma {:induction false} PlainPrefix(p: Text, rest: Text)
    requires WellFormed(rest) && forall i :: 0 <= i < |p| ==> !Surrogate(p[i])
    ensures WellFormed(p + rest)
  {
    if p == [] {
      assert p + rest == rest;
    } else {
      PlainPrefix(p[1..], rest);
      assert (p + rest)[0] == p[0] && (p + rest)[1..] == p[1..] + rest;
    }
  }

  lemma EscapedIsPlain(c: CodeUnit)
    ensures forall i :: 0 <= i < |EscapeUnit(c)| ==> !Surrogate(EscapeUnit(c)[i])
  {
  }

  lemma {:induction false} EscapeWellFormed(t: Text, rest: Text)
    requires WellFormed(rest)
    ensures WellFormed(EscapeThen(t, rest))
  {
    if t != [] {
      if Pair(t) {
        EscapeWellFormed(t[2..], rest);
        var u := EscapeThen(t, rest);
        assert u[0] == t[0] && u[1] == t[1] && u[2..] == EscapeThen(t[2..], rest);
      } else {
        EscapeWellFormed(t[1..], rest);
        EscapedIsPlain(t[0]);
        PlainPrefix(EscapeUnit(t[0]), EscapeThen(t[1..], rest));
      }
    }
  }

  lemma QuoteWellFormed(t: Text, rest: Text)
    requires WellFormed(rest)
    ensures WellFormed(QuoteThen(t, rest))
  {
    hide EscapeThen;
    PlainPrefix([34], rest);
    EscapeWellFormed(t, [34] + rest);
    PlainPrefix([34], EscapeThen(t, [34] + rest));
  }

  /** JSON text holds no lone surrogate, whatever the value holds. */
  lemma {:induction false} PrintWellFormed(v: Value, rest: Text)
    requires WellFormed(rest)
    ensures WellFormed(PrintThen(v, rest))
    decreases v, 1, 0
  {
    hide WellFormed, PrintThen, QuoteThen, ItemsThen, EntriesThen, NumberText;
    var close := [125] + rest;
    PlainPrefix([125], rest);
    match v {
      case Null => PlainPrefix([48], close);
      case Bool(b) => PlainPrefix(if b then TRUE else FALSE, close);
      case Num(n) => QuoteWellFormed(NumberText(n), close);
      case Str(s) => QuoteWellFormed(s, close);
      case Bytes(x) => QuoteWellFormed(HexOf(x), close);
      case Arr(items) =>
        ItemsWellFormed(v, 0, close);
        PlainPrefix([91], ItemsThen(v, 0, close));
      case Obj(entries) =>
        EntriesWellFormed(v, 0, close);
        PlainPrefix([91], EntriesThen(v, 0, close));
    }
    PrintIs(v, rest);
    PlainPrefix(Opening(TagOf(v)), Payload(v, rest));
  }

  lemma {:induction false} ItemsWellFormed(v: Value, i: nat, rest: Text)
    requires v.Arr? && i <= |v.items| && WellFormed(rest)
    ensures WellFormed(ItemsThen(v, i, rest))
    decreases v, 0, |v.items| - i
  {
    hide WellFormed, PrintThen;
    if i == |v.items| {
      PlainPrefix([93], rest);
    } else {
      ItemsWellFormed(v, i + 1, rest);
      PrintWellFormed(v.items[i], ItemsThen(v, i + 1, rest));
      PlainPrefix(Comma(i), PrintThen(v.items[i], ItemsThen(v, i + 1, rest)));
    }
  }

  lemma {:induction false} EntriesWellFormed(v: Value, i: nat, rest: Text)
    requires v.Obj? && i <= |v.entries| && WellFormed(rest)
    ensures WellFormed(EntriesThen(v, i, rest))
    decreases v, 0, |v.entries| - i
  {
    hide WellFormed, PrintThen, QuoteThen;
    if i == |v.entries| {
      PlainPrefix([93], rest);
    } else {
      var e := v.entries[i];
      EntriesWellFormed(v, i + 1, rest);
      var x := [93] + EntriesThen(v, i + 1, rest);
      PlainPrefix([93], EntriesThen(v, i + 1, rest));
      PrintWellFormed(e.val, x);
      var p := [44] + PrintThen(e.val, x);
      PlainPrefix([44], PrintThen(e.val, x));
      QuoteWellFormed(e.key, p);
      PlainPrefix([91], QuoteThen(e.key, p));
      PlainPrefix(Comma(i), [91] + QuoteThen(e.key, p));
    }
  }

  // ---- canonical bytes ---------------------------------------------------------------------------

  function CanonicalBytes(v: Value): seq<Byte> { Utf8(CanonicalString(v)) }

  /**
   * The canonical bytes have a left inverse: they are equal exactly for values that are equal up to
   * key order and signed zero.
   */
  lemma CanonicalBytesIff(v1: Value, v2: Value)
    requires Numerals(v1) && Numerals(v2)
    ensures CanonicalBytes(v1) == CanonicalBytes(v2) <==> Normal(v1) == Normal(v2)
  {
    hide Utf8, WellFormed, PrintThen, Normal;
    EmptyWellFormed();
    PrintWellFormed(Normal(v1), []);
    PrintWellFormed(Normal(v2), []);
    CanonicalStringIff(v1, v2);
    if CanonicalBytes(v1) == CanonicalBytes(v2) {
      WellFormedIsPaired(CanonicalString(v1));
      WellFormedIsPaired(CanonicalString(v2));
      Utf8Injective(CanonicalString(v1), CanonicalString(v2));
    }
  }

  lemma EmptyWellFormed()
    ensures WellFormed([])
  {
  }
}
