/** Shared vocabulary: options, bytes and little-endian numbers. */
module Common {

  datatype Option<+T> = None | Some(value: T)

  /** A host byte, `uint8_t`. */
  type Byte = b: int | 0 <= b < 256

  /** A 32-bit guest word. */
  type Word = bv32

  const TWO_32: int := 0x1_0000_0000
  const TWO_64: int := 0x1_0000_0000_0000_0000

  /** A `uint32_t` used as a number. */
  type U32 = n: int | 0 <= n < 0x1_0000_0000

  /** A `uint64_t` used as a number. */
  type U64 = n: int | 0 <= n < 0x1_0000_0000_0000_0000

  function Min(a: int, b: int): int { if a <= b then a else b }

  function Max(a: int, b: int): int { if a >= b then a else b }

  /** The `n` low bytes of `v`, least significant first. */
  function Le(v: nat, n: nat): (s: seq<Byte>)
    ensures |s| == n
  {
    if n == 0 then [] else [v % 256] + Le(v / 256, n - 1)
  }

  /** The number whose little-endian bytes are `s`. */
  function FromLe(s: seq<Byte>): nat {
    if s == [] then 0 else s[0] + 256 * FromLe(s[1..])
  }

  function Pow256(n: nat): nat {
    if n == 0 then 1 else 256 * Pow256(n - 1)
  }

  lemma {:induction false} LeThenFrom(v: nat, n: nat)
    requires v < Pow256(n)
    ensures FromLe(Le(v, n)) == v
  {
    if n > 0 {
      LeThenFrom(v / 256, n - 1);
      assert Le(v, n)[1..] == Le(v / 256, n - 1);
    }
  }

  lemma {:induction false} FromThenLe(s: seq<Byte>)
    ensures FromLe(s) < Pow256(|s|)
    ensures Le(FromLe(s), |s|) == s
  {
    if s != [] {
      FromThenLe(s[1..]);
      assert FromLe(s) / 256 == FromLe(s[1..]);
      assert s == [s[0]] + s[1..];
    }
  }

  /** Byte by byte: byte `k` has weight 256 to the `k`, whichever way the bytes are read. */
  lemma {:induction false} LeByte(v: nat, n: nat, k: nat)
    requires k < n
    ensures Pow256(k) > 0 && Le(v, n)[k] == v / Pow256(k) % 256
  {
    if k > 0 {
      LeByte(v / 256, n - 1, k - 1);
      DivideTwice(v, Pow256(k - 1));
    }
  }

  lemma DivideTwice(v: nat, p: nat)
    requires p > 0
    ensures v / 256 / p == v / (256 * p)
  {
    var q := v / 256 / p;
    var r := v / 256 - p * q;
    assert v == 256 * (p * q + r) + v % 256;
    assert v == (256 * p) * q + (256 * r + v % 256) && 0 <= 256 * r + v % 256 < 256 * p;
    Quotient(v, 256 * p, q, 256 * r + v % 256);
  }

  lemma Quotient(v: int, d: int, q: int, r: int)
    requires 0 <= r < d && v == d * q + r
    ensures v / d == q
  {
    var e := v / d - q;
    assert d * (v / d) + v % d == d * q + r;
    assert d * e == r - v % d;
    Multiple(d, e);
  }

  lemma Multiple(d: int, e: int)
    requires d >= 0
    ensures e >= 1 ==> d * e >= d
    ensures e <= -1 ==> d * e <= -d
  {
  }

  lemma PowValues()
    ensures Pow256(1) == 256 && Pow256(2) == 0x1_0000 && Pow256(4) == TWO_32 && Pow256(8) == TWO_64
  {
    assert Pow256(3) == 0x100_0000;
    assert Pow256(5) == 256 * TWO_32;
    assert Pow256(6) == 256 * Pow256(5);
    assert Pow256(7) == 256 * Pow256(6);
  }

  /** A 64-bit little-endian field. */
  function Get64(b: seq<Byte>): U64
    requires |b| == 8
  {
    FromThenLe(b);
    PowValues();
    FromLe(b)
  }

  /** A 32-bit little-endian field. */
  function Get32(b: seq<Byte>): U32
    requires |b| == 4
  {
    FromThenLe(b);
    PowValues();
    FromLe(b)
  }

  lemma Get32Bytes(b: seq<Byte>)
    requires |b| == 4
    ensures Le(Get32(b), 4) == b
  {
    FromThenLe(b);
  }

  lemma Get32Le(v: U32)
    ensures Get32(Le(v, 4)) == v
  {
    PowValues();
    LeThenFrom(v, 4);
  }

  lemma Get64Le(v: U64)
    ensures Get64(Le(v, 8)) == v
  {
    PowValues();
    LeThenFrom(v, 8);
  }

  lemma Get64Bytes(b: seq<Byte>)
    requires |b| == 8
    ensures Le(Get64(b), 8) == b
  {
    FromThenLe(b);
  }

  // ── Cutting byte strings ──────────────────────────────────────────

  /** A field and what follows it. */
  lemma Peel(a: seq<Byte>, b: seq<Byte>, n: nat)
    requires |a| == n
    ensures (a + b)[..n] == a && (a + b)[n..] == b
  {
  }

  lemma Halves(b: seq<Byte>, n: nat)
    requires n <= |b|
    ensures b == b[..n] + b[n..]
  {
  }

  // ── Bytes as bit vectors ──────────────────────────────────────────

  /** The number with the given bits, most significant first. */
  function PackByte(h: bool, g: bool, f: bool, e: bool, d: bool, c: bool, b: bool, a: bool): Byte {
    (if h then 128 else 0) + (if g then 64 else 0) + (if f then 32 else 0) + (if e then 16 else 0) +
    (if d then 8 else 0) + (if c then 4 else 0) + (if b then 2 else 0) + (if a then 1 else 0)
  }

  /** The vector with the given bits, most significant first. */
  function PackBits(h: bool, g: bool, f: bool, e: bool, d: bool, c: bool, b: bool, a: bool): bv8 {
    (if h then 128 else 0) | (if g then 64 else 0) | (if f then 32 else 0) | (if e then 16 else 0) |
    (if d then 8 else 0) | (if c then 4 else 0) | (if b then 2 else 0) | (if a then 1 else 0)
  }

  /** `b` without its bit of weight `w`, once the higher bits are gone. */
  function Below(b: int, w: int): int { if b >= w then b - w else b }

  /** The bits of a byte, for the code that shifts and xors them. */
  function Bits(b: Byte): bv8 {
    var b7 := Below(b, 128);
    var b6 := Below(b7, 64);
    var b5 := Below(b6, 32);
    var b4 := Below(b5, 16);
    var b3 := Below(b4, 8);
    var b2 := Below(b3, 4);
    var b1 := Below(b2, 2);
    PackBits(b >= 128, b7 >= 64, b6 >= 32, b5 >= 16, b4 >= 8, b3 >= 4, b2 >= 2, b1 >= 1)
  }

  /** The byte with the given bits. */
  function Value(x: bv8): Byte {
    PackByte(x & 128 != 0, x & 64 != 0, x & 32 != 0, x & 16 != 0,
             x & 8 != 0, x & 4 != 0, x & 2 != 0, x & 1 != 0)
  }

  lemma PackBitsBits(h: bool, g: bool, f: bool, e: bool, d: bool, c: bool, b: bool, a: bool)
    ensures var x := PackBits(h, g, f, e, d, c, b, a);
            && (x & 128 != 0) == h && (x & 64 != 0) == g && (x & 32 != 0) == f && (x & 16 != 0) == e
            && (x & 8 != 0) == d && (x & 4 != 0) == c && (x & 2 != 0) == b && (x & 1 != 0) == a
  {
  }

  lemma PackByteBits(h: bool, g: bool, f: bool, e: bool, d: bool, c: bool, b: bool, a: bool)
    ensures var n := PackByte(h, g, f, e, d, c, b, a);
            var n7, n6 := Below(n, 128), Below(Below(n, 128), 64);
            var n5 := Below(n6, 32);
            var n4 := Below(n5, 16);
            var n3 := Below(n4, 8);
            var n2 := Below(n3, 4);
            && (n >= 128) == h && (n7 >= 64) == g && (n6 >= 32) == f && (n5 >= 16) == e
            && (n4 >= 8) == d && (n3 >= 4) == c && (n2 >= 2) == b && (Below(n2, 2) >= 1) == a
  {
  }

  lemma BitsOfValue(x: bv8)
    ensures Bits(Value(x)) == x
  {
    PackByteBits(x & 128 != 0, x & 64 != 0, x & 32 != 0, x & 16 != 0,
               x & 8 != 0, x & 4 != 0, x & 2 != 0, x & 1 != 0);
  }

  lemma ValueOfBits(b: Byte)
    ensures Value(Bits(b)) == b
  {
    var b7 := Below(b, 128);
    var b6 := Below(b7, 64);
    var b5 := Below(b6, 32);
    var b4 := Below(b5, 16);
    var b3 := Below(b4, 8);
    var b2 := Below(b3, 4);
    var b1 := Below(b2, 2);
    PackBitsBits(b >= 128, b7 >= 64, b6 >= 32, b5 >= 16, b4 >= 8, b3 >= 4, b2 >= 2, b1 >= 1);
    assert b == PackByte(b >= 128, b7 >= 64, b6 >= 32, b5 >= 16, b4 >= 8, b3 >= 4, b2 >= 2, b1 >= 1);
  }

  /** Two different bytes have different bits. */
  lemma BitsInjective(a: Byte, b: Byte)
    requires Bits(a) == Bits(b)
    ensures a == b
  {
    ValueOfBits(a);
    ValueOfBits(b);
  }

  /** The bits have the weights of binary notation. */
  lemma BitWeights()
    ensures Bits(1) == 1 && Bits(2) == 2 && Bits(4) == 4 && Bits(8) == 8
    ensures Bits(16) == 16 && Bits(32) == 32 && Bits(64) == 64 && Bits(128) == 128
    ensures Value(1) == 1 && Value(2) == 2 && Value(4) == 4 && Value(8) == 8
    ensures Value(16) == 16 && Value(32) == 32 && Value(64) == 64 && Value(128) == 128
  {
  }

  // ── Words as bytes ────────────────────────────────────────────────

  /** The four bytes of a word, least significant first. */
  function WordBytes(w: Word): (s: seq<Byte>)
    ensures |s| == 4
  {
    [Value((w & 0xFF) as bv8), Value(((w >> 8) & 0xFF) as bv8),
     Value(((w >> 16) & 0xFF) as bv8), Value((w >> 24) as bv8)]
  }

  /** The word stored in four little-endian bytes. */
  function BytesWord(s: seq<Byte>): Word
    requires |s| == 4
  {
    (Bits(s[0]) as Word) | ((Bits(s[1]) as Word) << 8) |
    ((Bits(s[2]) as Word) << 16) | ((Bits(s[3]) as Word) << 24)
  }

  lemma WordRoundTrip(w: Word)
    ensures BytesWord(WordBytes(w)) == w
  {
    BitsOfValue((w & 0xFF) as bv8);
    BitsOfValue(((w >> 8) & 0xFF) as bv8);
    BitsOfValue(((w >> 16) & 0xFF) as bv8);
    BitsOfValue((w >> 24) as bv8);
  }

  /** The first byte of a word is its low eight bits, and so on up. */
  lemma WordBits(w: Word)
    ensures Bits(WordBytes(w)[0]) as Word == w & 0xFF && Bits(WordBytes(w)[1]) as Word == (w >> 8) & 0xFF
    ensures Bits(WordBytes(w)[2]) as Word == (w >> 16) & 0xFF && Bits(WordBytes(w)[3]) as Word == w >> 24
  {
    BitsOfValue((w & 0xFF) as bv8);
    BitsOfValue(((w >> 8) & 0xFF) as bv8);
    BitsOfValue(((w >> 16) & 0xFF) as bv8);
    BitsOfValue((w >> 24) as bv8);
    hide Bits, Value;
  }

  lemma WordParts(a: bv8, b: bv8, c: bv8, d: bv8)
    ensures var w := (a as Word) | ((b as Word) << 8) | ((c as Word) << 16) | ((d as Word) << 24);
            && ((w & 0xFF) as bv8) == a && (((w >> 8) & 0xFF) as bv8) == b
            && (((w >> 16) & 0xFF) as bv8) == c && ((w >> 24) as bv8) == d
  {
  }

  lemma BytesRoundTrip(s: seq<Byte>)
    requires |s| == 4
    ensures WordBytes(BytesWord(s)) == s
  {
    ValueOfBits(s[0]);
    ValueOfBits(s[1]);
    ValueOfBits(s[2]);
    ValueOfBits(s[3]);
    hide Bits, Value;
    WordParts(Bits(s[0]), Bits(s[1]), Bits(s[2]), Bits(s[3]));
  }

  // ── Instruction addresses ─────────────────────────────────────────

  /** An address with the Thumb bit cleared. */
  function Even(pc: Word): Word { pc & !1 }

  /** Two addresses of one instruction: they differ at most in the Thumb bit. */
  predicate SameInstruction(a: Word, b: Word) { a == b || a == b ^ 1 }

  predicate IsEven(pc: Word) { pc & 1 == 0 }

  /** What is stored has bit 0 clear, and stands for the two addresses that differ from it at most there. */
  lemma EvenExact(pc: Word, other: Word)
    ensures IsEven(Even(pc)) && SameInstruction(Even(pc), pc)
    ensures Even(pc) == Even(other) <==> SameInstruction(pc, other)
    ensures IsEven(pc) ==> Even(pc) == pc
  {
    hide Even, SameInstruction, IsEven;
    BitCleared(pc);
    if SameInstruction(pc, other) {
      SameEvens(pc, other);
    } else if Even(pc) == Even(other) {
      OneOfTwo(pc, other);
    }
    if IsEven(pc) {
      AlreadyEven(pc);
    }
  }

  lemma BitCleared(pc: Word)
    ensures IsEven(Even(pc)) && SameInstruction(Even(pc), pc)
  {
  }

  lemma AlreadyEven(pc: Word)
    requires IsEven(pc)
    ensures Even(pc) == pc
  {
  }

  lemma OneOfTwo(a: Word, b: Word)
    requires Even(a) == Even(b)
    ensures SameInstruction(a, b)
  {
  }

  lemma SameEvens(a: Word, b: Word)
    requires SameInstruction(a, b)
    ensures Even(a) == Even(b)
  {
  }

  lemma EvenIdempotent(pc: Word)
    ensures Even(Even(pc)) == Even(pc)
  {
  }
}
