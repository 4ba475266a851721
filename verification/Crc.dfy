/**
 The two CRC-32 implementations (the polynomial of clause 3.2.9 of IEEE 802.3, reflected):
 the table-driven one of gba/crc32.cpp and the bit-at-a-time one of mod_state.cpp.
 */
module Crc {
  import opened Common

  const POLY: Word := 0xEDB8_8320
  const ONES: Word := 0xFFFF_FFFF

  function Xor(a: Word, b: Word): Word { a ^ b }
  function Half(c: Word): Word { c >> 1 }
  function Odd(c: Word): bool { c & 1 == 1 }
  function HighBytes(c: Word): Word { c >> 8 }
  function Widen(b: Byte): Word { Bits(b) as Word }

  /** One bit of the division. */
  function Shift(c: Word): Word {
    if Odd(c) then Xor(POLY, Half(c)) else Half(c)
  }

  function ShiftN(c: Word, n: nat): Word { if n == 0 then c else Shift(ShiftN(c, n - 1)) }

  /** One byte of the division. */
  function Absorb(c: Word, b: Byte): Word { ShiftN(Xor(c, Widen(b)), 8) }

  function Fold(c: Word, data: seq<Byte>): Word
    decreases |data|
  {
    if data == [] then c else Fold(Absorb(c, data[0]), data[1..])
  }

  /** The checksum of a byte string. */
  function Crc32(data: seq<Byte>): Word { Xor(Fold(ONES, data), ONES) }

  // ── Bits ──────────────────────────────────────────────────────────

  lemma XorAssociates(a: Word, b: Word, c: Word)
    ensures Xor(Xor(a, b), c) == Xor(a, Xor(b, c))
  {
  }

  lemma XorCommutes(a: Word, b: Word)
    ensures Xor(a, b) == Xor(b, a)
  {
  }

  lemma XorSelf(a: Word, b: Word)
    ensures Xor(a, Xor(a, b)) == b
  {
  }

  lemma HalfOfXor(a: Word, b: Word)
    ensures Half(Xor(a, b)) == Xor(Half(a), Half(b))
  {
  }

  lemma OddOfXor(a: Word, b: Word)
    ensures Odd(Xor(a, b)) == (Odd(a) != Odd(b))
  {
  }

  lemma XorCancels(a: Word, b: Word, x: Word)
    requires Xor(x, a) == Xor(x, b)
    ensures a == b
  {
    XorSelf(x, a);
    XorSelf(x, b);
    hide Xor;
  }

  /** Division by the polynomial is linear. */
  lemma ShiftIsLinear(a: Word, b: Word)
    ensures Shift(Xor(a, b)) == Xor(Shift(a), Shift(b))
  {
    hide Xor, Half, Odd;
    var x, y := Half(a), Half(b);
    HalfOfXor(a, b);
    OddOfXor(a, b);
    XorAssociates(POLY, x, y);
    XorAssociates(x, POLY, y);
    XorCommutes(x, POLY);
    XorAssociates(POLY, x, Xor(POLY, y));
    XorSelf(POLY, Xor(x, y));
    XorAssociates(POLY, POLY, Xor(x, y));
  }

  lemma {:induction false} ShiftsAreLinear(a: Word, b: Word, n: nat)
    ensures ShiftN(Xor(a, b), n) == Xor(ShiftN(a, n), ShiftN(b, n))
  {
    hide Xor, Shift;
    if n > 0 {
      ShiftsAreLinear(a, b, n - 1);
      ShiftIsLinear(ShiftN(a, n - 1), ShiftN(b, n - 1));
    }
  }

  /** A word whose low byte is zero shifts out eight zeroes. */
  lemma ZeroesOut(c: Word)
    requires c & 0xFF == 0
    ensures !Odd(c) && !Odd(c >> 1) && !Odd(c >> 2) && !Odd(c >> 3)
    ensures !Odd(c >> 4) && !Odd(c >> 5) && !Odd(c >> 6) && !Odd(c >> 7)
  {
  }

  lemma HalvesAdd(c: Word)
    ensures Half(c) == c >> 1 && Half(c >> 1) == c >> 2 && Half(c >> 2) == c >> 3 && Half(c >> 3) == c >> 4
    ensures Half(c >> 4) == c >> 5 && Half(c >> 5) == c >> 6 && Half(c >> 6) == c >> 7
    ensures Half(c >> 7) == HighBytes(c)
  {
  }

  /** The eight shifts, one by one. */
  lemma Unrolled(c: Word)
    ensures ShiftN(c, 8) == Shift(Shift(Shift(Shift(Shift(Shift(Shift(Shift(c))))))))
  {
    hide Shift;
    assert ShiftN(c, 0) == c;
    assert ShiftN(c, 1) == Shift(c);
    assert ShiftN(c, 2) == Shift(Shift(c));
    assert ShiftN(c, 3) == Shift(Shift(Shift(c)));
    assert ShiftN(c, 4) == Shift(Shift(Shift(Shift(c))));
    assert ShiftN(c, 6) == Shift(Shift(ShiftN(c, 4)));
  }

  lemma HighBytesShift(c: Word)
    requires c & 0xFF == 0
    ensures ShiftN(c, 8) == HighBytes(c)
  {
    ZeroesOut(c);
    HalvesAdd(c);
    Unrolled(c);
    hide Xor, Half, Odd, HighBytes, ShiftN;
  }

  function LowByteOf(c: Word): Word { c & 0xFF }

  lemma SplitWord(c: Word)
    ensures Xor(LowByteOf(c), c & 0xFFFF_FF00) == c && (c & 0xFFFF_FF00) & 0xFF == 0
    ensures HighBytes(c & 0xFFFF_FF00) == HighBytes(c)
  {
  }

  /** Eight steps at once: look up the low byte, shift the rest. */
  lemma TableStep(c: Word)
    ensures ShiftN(c, 8) == Xor(ShiftN(LowByteOf(c), 8), HighBytes(c))
  {
    var high := c & 0xFFFF_FF00;
    SplitWord(c);
    ShiftsAreLinear(LowByteOf(c), high, 8);
    HighBytesShift(high);
    hide Xor, HighBytes, LowByteOf, ShiftN;
  }

  /** A byte reaches the low byte only. */
  lemma WidenLow(c: Word, x: bv8)
    ensures HighBytes(Xor(c, x as Word)) == HighBytes(c)
  {
  }

  // ── The implementations ───────────────────────────────────────────

  method OneShift(c: Word) returns (r: Word)
    ensures r == Shift(c)
  {
    r := if c & 1 != 0 then POLY ^ (c >> 1) else c >> 1;
  }

  /** The arithmetic form of the same step: the negated low bit selects the polynomial. */
  method MaskedShift(c: Word) returns (r: Word)
    ensures r == Shift(c)
  {
    r := (c >> 1) ^ (POLY & (0 - (c & 1)));
  }

  /** The entry of the table for one byte. */
  function Entry(i: Byte): Word { ShiftN(Widen(i), 8) }

  method BuildEntry(i: Byte) returns (c: Word)
    ensures c == Entry(i)
  {
    hide Shift, Widen;
    c := Widen(i);
    for k := 0 to 8
      invariant c == ShiftN(Widen(i), k)
    {
      c := OneShift(c);
    }
  }

  /** `constexpr Table`. */
  method BuildTable() returns (v: array<Word>)
    ensures fresh(v) && v.Length == 256
    ensures forall i: Byte :: v[i] == Entry(i)
  {
    hide Entry;
    v := new Word[256](_ => 0);
    for i := 0 to 256
      invariant forall k: Byte :: k < i ==> v[k] == Entry(k)
    {
      var c := BuildEntry(i);
      v[i] := c;
    }
  }

  /** `c & 0xFF`, as an index. */
  function LowByte(c: Word): (b: Byte)
    ensures Widen(b) == LowByteOf(c)
  {
    BitsOfValue((c & 0xFF) as bv8);
    Value((c & 0xFF) as bv8)
  }

  method TableByte(v: array<Word>, c: Word, b: Byte) returns (r: Word)
    requires v.Length == 256 && forall i: Byte :: v[i] == Entry(i)
    ensures r == Absorb(c, b)
  {
    var x := Xor(c, Widen(b));
    r := Xor(v[LowByte(x)], HighBytes(c));
    TableStep(x);
    WidenLow(c, Bits(b));
    hide Xor, HighBytes, LowByteOf, ShiftN, Bits;
  }

  /** `gba::crc32`. */
  method TableCrc(v: array<Word>, data: seq<Byte>) returns (r: Word)
    requires v.Length == 256 && forall i: Byte :: v[i] == Entry(i)
    ensures r == Crc32(data)
  {
    hide Absorb, Entry, Xor;
    var c := ONES;
    for i := 0 to |data|
      invariant Fold(ONES, data) == Fold(c, data[i..])
    {
      assert data[i..][0] == data[i] && data[i..][1..] == data[i + 1..];
      c := TableByte(v, c, data[i]);
    }
    r := Xor(c, ONES);
  }

  method BitwiseByte(c: Word, b: Byte) returns (r: Word)
    ensures r == Absorb(c, b)
  {
    hide Shift, Xor, Widen;
    r := Xor(c, Widen(b));
    for bit := 0 to 8
      invariant r == ShiftN(Xor(c, Widen(b)), bit)
    {
      r := MaskedShift(r);
    }
  }

  lemma InvertIsXor(c: Word)
    ensures !c == Xor(c, ONES)
  {
  }

  /** The anonymous `crc32` of mod_state.cpp. */
  method BitwiseCrc(data: seq<Byte>) returns (r: Word)
    ensures r == Crc32(data)
  {
    hide Absorb, Xor;
    var c := ONES;
    for i := 0 to |data|
      invariant Fold(ONES, data) == Fold(c, data[i..])
    {
      assert data[i..][0] == data[i] && data[i..][1..] == data[i + 1..];
      c := BitwiseByte(c, data[i]);
    }
    InvertIsXor(c);
    r := !c;
  }

  // ── Single-byte changes ───────────────────────────────────────────

  function Unshift(d: Word): Word {
    if d & 0x8000_0000 != 0 then ((d ^ POLY) << 1) | 1 else d << 1
  }

  /** The shift loses nothing: the polynomial's top bit tells whether it was added. */
  lemma UnshiftShift(c: Word)
    ensures Unshift(Shift(c)) == c
  {
  }

  lemma {:induction false} ShiftsInjective(a: Word, b: Word, n: nat)
    requires ShiftN(a, n) == ShiftN(b, n)
    ensures a == b
  {
    hide Shift, Unshift;
    if n > 0 {
      UnshiftShift(ShiftN(a, n - 1));
      UnshiftShift(ShiftN(b, n - 1));
      ShiftsInjective(a, b, n - 1);
    }
  }

  lemma WidenSame(x: bv8, y: bv8)
    requires (x as Word) == (y as Word)
    ensures x == y
  {
  }

  lemma WidenInjective(a: Byte, b: Byte)
    requires Widen(a) == Widen(b)
    ensures a == b
  {
    WidenSame(Bits(a), Bits(b));
    hide Bits;
    BitsInjective(a, b);
  }

  /** One byte step is injective in the state and in the byte. */
  lemma AbsorbInjective(c: Word, d: Word, a: Byte, b: Byte)
    requires Absorb(c, a) == Absorb(d, b)
    ensures a == b ==> c == d
    ensures c == d ==> a == b
  {
    hide Xor, Widen, ShiftN;
    ShiftsInjective(Xor(c, Widen(a)), Xor(d, Widen(b)), 8);
    if a == b {
      XorCommutes(c, Widen(a));
      XorCommutes(d, Widen(a));
      XorCancels(c, d, Widen(a));
    }
    if c == d {
      XorCancels(Widen(a), Widen(b), c);
      WidenInjective(a, b);
    }
  }

  lemma {:induction false} FoldInjective(c: Word, d: Word, data: seq<Byte>)
    requires Fold(c, data) == Fold(d, data)
    ensures c == d
    decreases |data|
  {
    hide Absorb;
    if data != [] {
      FoldInjective(Absorb(c, data[0]), Absorb(d, data[0]), data[1..]);
      AbsorbInjective(c, d, data[0], data[0]);
    }
  }

  lemma {:induction false} FoldSeesByte(c: Word, data: seq<Byte>, i: nat, b: Byte)
    requires i < |data| && b != data[i]
    ensures Fold(c, data[i := b]) != Fold(c, data)
    decreases |data|
  {
    hide Absorb;
    var other := data[i := b];
    if i > 0 {
      assert other[0] == data[0] && other[1..] == data[1..][i - 1 := b];
      FoldSeesByte(Absorb(c, data[0]), data[1..], i - 1, b);
    } else if Fold(c, other) == Fold(c, data) {
      assert other[1..] == data[1..] && other[0] == b;
      FoldInjective(Absorb(c, b), Absorb(c, data[0]), data[1..]);
      AbsorbInjective(c, c, b, data[0]);
    }
  }

  /** Changing any one byte changes the checksum. */
  lemma OneByteChangesCrc(data: seq<Byte>, i: nat, b: Byte)
    requires i < |data| && b != data[i]
    ensures Crc32(data[i := b]) != Crc32(data)
  {
    hide Fold, Xor;
    FoldSeesByte(ONES, data, i, b);
    var x, y := Fold(ONES, data[i := b]), Fold(ONES, data);
    XorCommutes(x, ONES);
    XorCommutes(y, ONES);
    if Crc32(data[i := b]) == Crc32(data) {
      XorCancels(x, y, ONES);
    }
  }

  // ── A known value ─────────────────────────────────────────────────

  lemma DigitBytes()
    ensures Widen(49) == 49 && Widen(50) == 50 && Widen(51) == 51 && Widen(52) == 52 && Widen(53) == 53
    ensures Widen(54) == 54 && Widen(55) == 55 && Widen(56) == 56 && Widen(57) == 57
  {
  }

  lemma Digits1To3()
    ensures Absorb(0xFFFF_FFFF, 49) == 0x7C23_1048
    ensures Absorb(0x7C23_1048, 50) == 0xB0AC_BB32
    ensures Absorb(0xB0AC_BB32, 51) == 0x77B7_9C2D
  {
    DigitBytes();
    hide Widen;
    assert Xor(0xFFFF_FFFF, 49) == 0xFFFF_FFCE;
    Unrolled(0xFFFF_FFCE);
    assert Xor(0x7C23_1048, 50) == 0x7C23_107A;
    Unrolled(0x7C23_107A);
    assert Xor(0xB0AC_BB32, 51) == 0xB0AC_BB01;
    Unrolled(0xB0AC_BB01);
    hide ShiftN;
  }

  lemma Digits4To6()
    ensures Absorb(0x77B7_9C2D, 52) == 0x641C_1F5C
    ensures Absorb(0x641C_1F5C, 53) == 0x340A_C5E3
    ensures Absorb(0x340A_C5E3, 54) == 0xF68D_2C9E
  {
    DigitBytes();
    hide Widen;
    assert Xor(0x77B7_9C2D, 52) == 0x77B7_9C19;
    Unrolled(0x77B7_9C19);
    assert Xor(0x641C_1F5C, 53) == 0x641C_1F69;
    Unrolled(0x641C_1F69);
    assert Xor(0x340A_C5E3, 54) == 0x340A_C5D5;
    Unrolled(0x340A_C5D5);
    hide ShiftN;
  }

  lemma Digits7To9()
    ensures Absorb(0xF68D_2C9E, 55) == 0xAFFC_9660
    ensures Absorb(0xAFFC_9660, 56) == 0x651F_2550
    ensures Absorb(0x651F_2550, 57) == 0x340B_C6D9
  {
    DigitBytes();
    hide Widen;
    assert Xor(0xF68D_2C9E, 55) == 0xF68D_2CA9;
    Unrolled(0xF68D_2CA9);
    assert Xor(0xAFFC_9660, 56) == 0xAFFC_9658;
    Unrolled(0xAFFC_9658);
    assert Xor(0x651F_2550, 57) == 0x651F_2569;
    Unrolled(0x651F_2569);
    hide ShiftN;
  }

  lemma FoldOne(c: Word, x: Byte, rest: seq<Byte>)
    ensures Fold(c, [x] + rest) == Fold(Absorb(c, x), rest)
  {
    hide Absorb;
    assert ([x] + rest)[1..] == rest;
  }

  lemma FoldThree(c: Word, x: Byte, y: Byte, z: Byte, rest: seq<Byte>)
    ensures Fold(c, [x, y, z] + rest) == Fold(Absorb(Absorb(Absorb(c, x), y), z), rest)
  {
    hide Absorb;
    FoldOne(c, x, [y, z] + rest);
    FoldOne(Absorb(c, x), y, [z] + rest);
    FoldOne(Absorb(Absorb(c, x), y), z, rest);
    assert [x, y, z] + rest == [x] + ([y, z] + rest) && [y, z] + rest == [y] + ([z] + rest);
  }

  /** The checksum of the nine digits "123456789", the check value published for this CRC. */
  lemma KnownCrc()
    ensures Crc32([49, 50, 51, 52, 53, 54, 55, 56, 57]) == 0xCBF4_3926
  {
    hide Absorb, Fold, Xor;
    Digits1To3();
    Digits4To6();
    Digits7To9();
    FoldThree(ONES, 49, 50, 51, [52, 53, 54] + ([55, 56, 57] + []));
    FoldThree(0x77B7_9C2D, 52, 53, 54, [55, 56, 57] + []);
    FoldThree(0xF68D_2C9E, 55, 56, 57, []);
    FoldNothing(0x340B_C6D9);
    assert [49, 50, 51, 52, 53, 54, 55, 56, 57] == [49, 50, 51] + ([52, 53, 54] + ([55, 56, 57] + []));
    Inverted();
  }

  lemma Inverted()
    ensures Xor(0x340B_C6D9, ONES) == 0xCBF4_3926
  {
  }

  lemma FoldNothing(c: Word)
    ensures Fold(c, []) == c
  {
  }
}
