/**
 * Base32 without padding: the encoder's 32-bit accumulator, which is never masked, against the bit
 * stream of section 6 of RFC 4648, and a decoder that inverts it.
 */
module Base32 {
  import opened Seqs
  import opened Text
  import opened Core

  newtype Bit = x: int | 0 <= x < 2

  const ALPHABET := Lit("abcdefghijklmnopqrstuvwxyz234567")

  // ---- the bit stream -----------------------------------------------------------------

  /** The last `k` bits of a number, most significant first. */
  function BitsOf(n: nat, k: nat): (r: seq<Bit>)
    ensures |r| == k
  {
    if k == 0 then [] else BitsOf(n / 2, k - 1) + [(n % 2) as Bit]
  }

  function Bits8(b: Byte): seq<Bit> { BitsOf(b as int, 8) }

  function BitStream(bytes: seq<Byte>): seq<Bit> {
    if bytes == [] then [] else BitStream(bytes[..|bytes| - 1]) + Bits8(bytes[|bytes| - 1])
  }

  /** The number a bit string writes. */
  function Number2(bits: seq<Bit>): nat {
    if bits == [] then 0 else 2 * Number2(bits[..|bits| - 1]) + bits[|bits| - 1] as int
  }

  function Zeros(n: nat): seq<Bit> { seq(n, _ => 0) }

  /** The symbol of a group of five bits. */
  function Symbol(five: seq<Bit>): CodeUnit
    requires |five| == 5
  {
    NumberOfFive(five);
    ALPHABET[Number2(five)]
  }

  /** One symbol for each whole group of five. */
  function Groups(bits: seq<Bit>): seq<CodeUnit> {
    if |bits| < 5 then [] else Groups(bits[..|bits| - 5]) + [Symbol(bits[|bits| - 5..])]
  }

  function Padding(n: nat): nat { if n % 5 == 0 then 0 else 5 - n % 5 }

  /** The stream in groups of five, the last filled up with zeros. */
  function Encoded(bytes: seq<Byte>): Text {
    var bits := BitStream(bytes);
    Groups(bits + Zeros(Padding(|bits|)))
  }

  lemma NumberOfFive(five: seq<Bit>)
    requires |five| == 5
    ensures Number2(five) < 32 && |ALPHABET| == 32
  {
    NumberBelow(five);
    SmallPowers();
  }

  function Pow2(n: nat): (r: nat)
    ensures r > 0
  {
    if n == 0 then 1 else 2 * Pow2(n - 1)
  }

  lemma {:induction false} NumberOfConcat(p: seq<Bit>, q: seq<Bit>)
    ensures Number2(p + q) == Number2(p) * Pow2(|q|) + Number2(q)
  {
    if q == [] {
      AppendNil(p);
    } else {
      InitOfConcat(p, q);
      NumberOfConcat(p, q[..|q| - 1]);
      Doubles(Number2(p), Pow2(|q| - 1));
    }
  }

  lemma Doubles(a: nat, b: nat)
    ensures a * (2 * b) == 2 * (a * b)
  {
  }

  lemma {:induction false} NumberBelow(bits: seq<Bit>)
    ensures Number2(bits) < Pow2(|bits|)
  {
    if bits != [] { NumberBelow(bits[..|bits| - 1]); }
  }

  lemma {:induction false} NumberOfBits(n: nat, k: nat)
    requires n < Pow2(k)
    ensures Number2(BitsOf(n, k)) == n
  {
    if k > 0 {
      NumberOfBits(n / 2, k - 1);
      InitOfSnoc(BitsOf(n / 2, k - 1), (n % 2) as Bit);
    }
  }

  lemma {:induction false} BitsOfNumber(bits: seq<Bit>)
    ensures BitsOf(Number2(bits), |bits|) == bits
  {
    if bits != [] {
      BitsOfNumber(bits[..|bits| - 1]);
      SplitLast(bits);
    }
  }

  lemma NumberOfByte(b: Byte)
    ensures Number2(Bits8(b)) == b as int
  {
    SmallPowers();
    NumberOfBits(b as int, 8);
  }

  lemma SmallPowers()
    ensures Pow2(0) == 1 && Pow2(5) == 32 && Pow2(8) == 256
  {
    assert Pow2(4) == 16;
  }

  lemma {:induction false} PowerSum(n: nat, k: nat)
    ensures Pow2(n + k) == Pow2(n) * Pow2(k)
  {
    if k > 0 {
      PowerSum(n, k - 1);
      Doubles(Pow2(n), Pow2(k - 1));
    }
  }

  // ---- the accumulator ---------------------------------------------------------------------

  const WORD := 0x1_0000_0000

  /** `(value << 8) | b` on 32 bits. */
  function ShiftIn(value: nat, b: Byte): nat { value * 256 % WORD + b as int }

  /** Quotient and remainder are determined. */
  lemma DivMod(x: int, q: nat, k: int, r: nat)
    requires q > 0 && x == q * k + r && r < q
    ensures x / q == k && x % q == r
  {
    var d := x / q - k;
    assert q * d == r - x % q by { Distribute(q, x / q, k); }
    if d > 0 { Multiple(q, d); }
    if d < 0 { Multiple(q, -d); }
  }

  lemma Distribute(q: int, a: int, b: int)
    ensures q * (a - b) == q * a - q * b
  {
  }

  lemma Multiple(q: int, d: int)
    requires q > 0 && d >= 1
    ensures q * d >= q && q * (-d) <= -q
  {
  }

  lemma Regroup(a: int, b: int, c: int)
    ensures (a * b) * c == a * (b * c)
  {
  }

  lemma DistributeSum(q: int, a: int, b: int)
    ensures q * (a + b) == q * a + q * b
  {
  }

  lemma ScaleBelow(a: nat, b: nat, m: nat)
    requires a < b && m > 0
    ensures a * m < b * m
  {
    Distribute(m, b, a);
    Multiple(m, b - a);
  }

  /** Dropping what overflows the word changes no remainder by a power that divides it. */
  lemma Overflow(x: nat, n: nat)
    requires n <= 32
    ensures x % WORD % Pow2(n) == x % Pow2(n)
  {
    hide Pow2;
    PowerSum(n, 32 - n);
    PowerOfWord();
    OverflowBy(x, Pow2(n), Pow2(32 - n));
  }

  lemma OverflowBy(x: nat, p: nat, m: nat)
    requires p > 0 && p * m == WORD
    ensures x % WORD % p == x % p
  {
    var t, r := x / WORD, x % WORD;
    var y, z := r / p, r % p;
    Regroup(p, m, t);
    DistributeSum(p, m * t, y);
    DivMod(x, p, m * t + y, z);
  }

  lemma PowerOfWord()
    ensures Pow2(32) == WORD
  {
    SmallPowers();
    PowerSum(8, 8);
    PowerSum(16, 16);
  }

  /** The pending bits survive a shift that pushes older ones out of the word. */
  lemma ShiftKeepsPending(value: nat, n: nat, b: Byte)
    requires n <= 4
    ensures ShiftIn(value, b) % Pow2(n + 8) == value % Pow2(n) * 256 + b as int
  {
    hide Pow2;
    var p, q, x := Pow2(n), Pow2(n + 8), value * 256;
    SmallPowers();
    PowerSum(n, 8);
    var k, r := value / p, value % p;
    Regroup(p, 256, k);
    Regroup(p, k, 256);
    DivMod(x, q, k, r * 256);
    Overflow(x, n + 8);
    var y := x % WORD;
    DivMod(y + b as int, q, y / q, r * 256 + b as int);
  }

  /** The five oldest pending bits, and what stays pending without any masking. */
  lemma ShiftOut(value: nat, n: nat, five: nat, rest: nat)
    requires rest < Pow2(n) && five < 32 && value % Pow2(n + 5) == five * Pow2(n) + rest
    ensures value / Pow2(n) % 32 == five && value % Pow2(n) == rest
  {
    hide Pow2;
    var p, q := Pow2(n), Pow2(n + 5);
    SmallPowers();
    PowerSum(n, 5);
    var k := value / q;
    Regroup(p, 32, k);
    DistributeSum(p, 32 * k, five);
    DivMod(value, p, 32 * k + five, rest);
    DivMod(32 * k + five, 32, k, five);
  }

  lemma ScaledRemainder(value: nat, p: nat, m: nat, k: nat, r: nat)
    requires p * m == 32 && value == p * k + r && r < p
    ensures value * m % 32 == r * m
  {
    assert m > 0 && p > 0;
    DistributeSum(m, p * k, r);
    Regroup(m, p, k);
    ScaleBelow(r, p, m);
    DivMod(value * m, 32, k, r * m);
  }

  /** `(value << (5 - bits)) & 31` */
  lemma LastGroup(value: nat, n: nat, pending: nat)
    requires 0 < n < 5 && value % Pow2(n) == pending
    ensures value * Pow2(5 - n) % WORD % 32 == pending * Pow2(5 - n)
  {
    hide Pow2;
    var p, m := Pow2(n), Pow2(5 - n);
    SmallPowers();
    PowerSum(n, 5 - n);
    ScaledRemainder(value, p, m, value / p, pending);
    Overflow(value * m, 5);
  }

  lemma ByteArrives(value: nat, pending: seq<Bit>, b: Byte)
    requires |pending| <= 4 && value % Pow2(|pending|) == Number2(pending)
    ensures ShiftIn(value, b) % Pow2(|pending| + 8) == Number2(pending + Bits8(b))
  {
    ShiftKeepsPending(value, |pending|, b);
    NumberOfConcat(pending, Bits8(b));
    NumberOfByte(b);
    SmallPowers();
  }

  lemma GroupLeaves(value: nat, done: seq<Bit>, pending: seq<Bit>)
    requires 5 <= |pending| <= 12 && value % Pow2(|pending|) == Number2(pending)
    ensures var n := |pending| - 5;
            && value / Pow2(n) % 32 < |ALPHABET| && ALPHABET[value / Pow2(n) % 32] == Symbol(pending[..5])
            && value % Pow2(n) == Number2(pending[5..])
            && Groups(done + pending[..5]) == Groups(done) + [Symbol(pending[..5])]
  {
    var n, five, rest := |pending| - 5, pending[..5], pending[5..];
    assert pending == five + rest;
    NumberOfConcat(five, rest);
    NumberOfFive(five);
    NumberBelow(rest);
    ShiftOut(value, n, Number2(five), Number2(rest));
    assert (done + five)[..|done + five| - 5] == done && (done + five)[|done + five| - 5..] == five;
  }

  lemma {:induction false} ZerosAreNought(n: nat)
    ensures Number2(Zeros(n)) == 0
  {
    if n > 0 {
      assert Zeros(n)[..n - 1] == Zeros(n - 1);
      ZerosAreNought(n - 1);
    }
  }

  predicate InFives(n: nat) { n % 5 == 0 }

  lemma FiveMore(n: nat)
    requires InFives(n)
    ensures InFives(n + 5)
  {
  }

  /** Write out the whole groups of five that are pending; the accumulator itself stays as it is. */
  method WriteGroups(value: nat, pendingBits: nat, soFar: Text, ghost before: seq<Bit>, ghost waiting: seq<Bit>)
    returns (bits: nat, out: Text, ghost done: seq<Bit>, ghost pending: seq<Bit>)
    requires |waiting| == pendingBits <= 12 && soFar == Groups(before) && value % Pow2(pendingBits) == Number2(waiting)
    requires InFives(|before|)
    ensures done + pending == before + waiting && InFives(|done|) && |pending| == bits < 5
    ensures out == Groups(done) && value % Pow2(bits) == Number2(pending)
  {
    hide Number2, Groups, Symbol, Pow2, InFives;
    bits, out, done, pending := pendingBits, soFar, before, waiting;
    while bits >= 5
      invariant done + pending == before + waiting && InFives(|done|) && |pending| == bits <= 12
      invariant out == Groups(done) && value % Pow2(bits) == Number2(pending)
    {
      GroupLeaves(value, done, pending);
      SplitFive(done, pending);
      FiveMore(|done|);
      out := out + [ALPHABET[value / Pow2(bits - 5) % 32]];
      bits, done, pending := bits - 5, done + pending[..5], pending[5..];
    }
  }

  lemma SplitFive(done: seq<Bit>, pending: seq<Bit>)
    requires |pending| >= 5
    ensures (done + pending[..5]) + pending[5..] == done + pending
  {
  }

  /** The encoder: exactly the bit-stream encoding, though the accumulator is never cleared. */
  method Encode(bytes: seq<Byte>) returns (out: Text)
    ensures out == Encoded(bytes)
    ensures |out| == (8 * |bytes| + 4) / 5
  {
    hide BitStream, Number2, Groups, Symbol, Bits8, Pow2, ShiftIn, Zeros, Encoded, InFives;
    var bits: nat, value: nat := 0, 0;
    ghost var done: seq<Bit>, pending: seq<Bit> := [], [];
    NothingYet();
    out := [];
    for i := 0 to |bytes|
      invariant done + pending == BitStream(bytes[..i]) && InFives(|done|) && |pending| == bits < 5
      invariant out == Groups(done) && value % Pow2(bits) == Number2(pending)
    {
      NextByte(bytes, i);
      ByteArrives(value, pending, bytes[i]);
      AppendAssoc(done, pending, Bits8(bytes[i]));
      value := ShiftIn(value, bytes[i]);
      bits, out, done, pending := WriteGroups(value, bits + 8, out, done, pending + Bits8(bytes[i]));
    }
    TakeAll(bytes);
    if bits > 0 {
      LastGroupIs(value, done, pending);
      out := out + [ALPHABET[value * Pow2(5 - bits) % WORD % 32]];
    }
    PaddedIs(bytes, done, pending);
    EncodedLength(bytes);
  }

  lemma PaddedIs(bytes: seq<Byte>, done: seq<Bit>, pending: seq<Bit>)
    requires done + pending == BitStream(bytes) && InFives(|done|) && |pending| < 5
    ensures Encoded(bytes) == if pending == [] then Groups(done) else Groups(done + (pending + Zeros(5 - |pending|)))
  {
    hide Groups;
    var bits := BitStream(bytes);
    assert |bits| % 5 == |pending|;
    if pending == [] {
      assert bits + Zeros(Padding(|bits|)) == done;
    } else {
      AppendAssoc(done, pending, Zeros(5 - |pending|));
    }
  }

  lemma EncodedLength(bytes: seq<Byte>)
    ensures |Encoded(bytes)| == (8 * |bytes| + 4) / 5
  {
    hide BitStream, Groups;
    StreamLength(bytes);
    PaddedLength(8 * |bytes|);
    GroupsLength(BitStream(bytes) + Zeros(Padding(|BitStream(bytes)|)));
  }

  lemma PaddedLength(n: nat)
    ensures (n + Padding(n)) / 5 == (n + 4) / 5
  {
    var q, r := n / 5, n % 5;
    assert n == 5 * q + r;
  }

  lemma NothingYet()
    ensures Groups([]) == [] && BitStream([]) == [] && Number2([]) == 0 && Pow2(0) == 1 && InFives(0)
  {
  }

  lemma NextByte(bytes: seq<Byte>, i: nat)
    requires i < |bytes|
    ensures BitStream(bytes[..i + 1]) == BitStream(bytes[..i]) + Bits8(bytes[i]) && |Bits8(bytes[i])| == 8
  {
    assert bytes[..i + 1][..i] == bytes[..i];
  }

  lemma LastGroupIs(value: nat, done: seq<Bit>, pending: seq<Bit>)
    requires 0 < |pending| < 5 && value % Pow2(|pending|) == Number2(pending)
    ensures var n := |pending|;
            && value * Pow2(5 - n) % WORD % 32 < |ALPHABET|
            && Groups(done + (pending + Zeros(5 - n))) == Groups(done) + [ALPHABET[value * Pow2(5 - n) % WORD % 32]]
  {
    var n := |pending|;
    var five := pending + Zeros(5 - n);
    LastGroup(value, n, Number2(pending));
    NumberOfConcat(pending, Zeros(5 - n));
    ZerosAreNought(5 - n);
    NumberOfFive(five);
    assert (done + five)[..|done + five| - 5] == done && (done + five)[|done + five| - 5..] == five;
  }

  lemma {:induction false} StreamLength(bytes: seq<Byte>)
    ensures |BitStream(bytes)| == 8 * |bytes|
  {
    if bytes != [] { StreamLength(bytes[..|bytes| - 1]); }
  }

  lemma {:induction false} GroupsLength(bits: seq<Bit>)
    ensures |Groups(bits)| == |bits| / 5
  {
    if |bits| >= 5 { GroupsLength(bits[..|bits| - 5]); }
  }

  // ---- decoding -------------------------------------------------------------------------------

  /** The value of a symbol. */
  function FromSymbol(c: CodeUnit): Option<nat> {
    if 97 <= c as int < 123 then Some(c as int - 97) else if 50 <= c as int < 56 then Some(c as int - 24) else None
  }

  function SymbolBits(text: Text): Option<seq<Bit>> {
    if text == [] then Some([])
    else
      var init, n := SymbolBits(text[..|text| - 1]), FromSymbol(text[|text| - 1]);
      if init.None? || n.None? || n.value >= 32 then None else Some(init.value + BitsOf(n.value, 5))
  }

  /** One byte for each whole group of eight. */
  function Bytes(bits: seq<Bit>): seq<Byte> {
    if |bits| < 8 then []
    else
      NumberOfEight(bits[|bits| - 8..]);
      Bytes(bits[..|bits| - 8]) + [Number2(bits[|bits| - 8..]) as Byte]
  }

  lemma NumberOfEight(eight: seq<Bit>)
    requires |eight| == 8
    ensures Number2(eight) < 256
  {
    NumberBelow(eight);
    SmallPowers();
  }

  /** Undo the grouping and drop the bits that do not fill a byte. */
  function Decode(text: Text): Option<seq<Byte>> {
    var bits := SymbolBits(text);
    if bits.None? then None else Some(Bytes(bits.value[..|bits.value| - |bits.value| % 8]))
  }

  lemma SymbolBack(five: seq<Bit>)
    requires |five| == 5
    ensures FromSymbol(Symbol(five)) == Some(Number2(five)) && Number2(five) < 32 && BitsOf(Number2(five), 5) == five
  {
    NumberOfFive(five);
    BitsOfNumber(five);
    AlphabetBack(Number2(five));
  }

  lemma AlphabetBack(n: nat)
    requires n < 32
    ensures |ALPHABET| == 32 && FromSymbol(ALPHABET[n]) == Some(n)
  {
    var s := "abcdefghijklmnopqrstuvwxyz234567";
    assert |s| == 32 && |ALPHABET| == 32;
    assert ALPHABET[n] as int == s[n] as int;
    if n < 8 {
    } else if n < 16 {
    } else if n < 24 {
    } else {
    }
  }

  lemma SymbolBitsSnoc(text: Text, c: CodeUnit, n: nat)
    requires FromSymbol(c) == Some(n) && n < 32 && SymbolBits(text).Some?
    ensures SymbolBits(text + [c]) == Some(SymbolBits(text).value + BitsOf(n, 5))
  {
    InitOfSnoc(text, c);
  }

  lemma {:induction false} GroupsBack(bits: seq<Bit>, k: nat)
    requires |bits| == 5 * k
    ensures SymbolBits(Groups(bits)) == Some(bits)
  {
    hide SymbolBits, Symbol, BitsOf, FromSymbol, Number2, Groups;
    if bits == [] {
      NoSymbols();
    } else {
      var init, five := bits[..|bits| - 5], bits[|bits| - 5..];
      LastSymbol(bits);
      GroupsBack(init, k - 1);
      SymbolBack(five);
      SymbolBitsSnoc(Groups(init), Symbol(five), Number2(five));
      assert bits == init + five;
    }
  }

  lemma NoSymbols()
    ensures Groups([]) == [] && SymbolBits([]) == Some([])
  {
  }

  lemma LastSymbol(bits: seq<Bit>)
    requires |bits| >= 5
    ensures Groups(bits) == Groups(bits[..|bits| - 5]) + [Symbol(bits[|bits| - 5..])]
  {
  }

  lemma {:induction false} BytesBack(bytes: seq<Byte>)
    ensures Bytes(BitStream(bytes)) == bytes
  {
    if bytes != [] {
      hide Number2, Bits8;
      var init, b := bytes[..|bytes| - 1], bytes[|bytes| - 1];
      BytesBack(init);
      NumberOfByte(b);
      ByteHasEight(b);
      var all := BitStream(init) + Bits8(b);
      assert all[..|all| - 8] == BitStream(init) && all[|all| - 8..] == Bits8(b);
      SplitLast(bytes);
    }
  }

  lemma ByteHasEight(b: Byte)
    ensures |Bits8(b)| == 8
  {
  }

  /** The decoder inverts the encoder. */
  lemma DecodeEncoded(bytes: seq<Byte>)
    ensures Decode(Encoded(bytes)) == Some(bytes)
  {
    hide BitStream, Groups, SymbolBits, Bytes, Padding;
    var bits := BitStream(bytes);
    var pad := Zeros(Padding(|bits|));
    StreamLength(bytes);
    WholeGroups(8 * |bytes|);
    GroupsBack(bits + pad, (8 * |bytes| + Padding(8 * |bytes|)) / 5);
    BytesBack(bytes);
    WholeBytes(|bytes|);
    assert (bits + pad)[..|bits|] == bits;
  }

  lemma WholeGroups(n: nat)
    ensures n + Padding(n) == 5 * ((n + Padding(n)) / 5)
  {
    var q, r := n / 5, n % 5;
    assert n == 5 * q + r;
    if r > 0 { DivMod(n + Padding(n), 5, q + 1, 0); }
  }

  /** The padding is shorter than a byte. */
  lemma WholeBytes(n: nat)
    ensures 8 * n + Padding(8 * n) - (8 * n + Padding(8 * n)) % 8 == 8 * n
  {
    DivMod(8 * n + Padding(8 * n), 8, n, Padding(8 * n));
  }

  /** So different byte strings have different encodings. */
  lemma EncodedInjective(b1: seq<Byte>, b2: seq<Byte>)
    requires Encoded(b1) == Encoded(b2)
    ensures b1 == b2
  {
    DecodeEncoded(b1);
    DecodeEncoded(b2);
  }
}
