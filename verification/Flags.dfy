/**
 The condition flags of runtime_arm.cpp: what the arithmetic flag setters put in
 CPSR, what the sixteen condition codes make of it, and multi-word chains.
 */
module Flags {
  import opened Common

  const SIGN := 0x8000_0000

  function N(cpsr: U32): bool { cpsr / 0x8000_0000 % 2 == 1 }
  function Z(cpsr: U32): bool { cpsr / 0x4000_0000 % 2 == 1 }
  function C(cpsr: U32): bool { cpsr / 0x2000_0000 % 2 == 1 }
  function V(cpsr: U32): bool { cpsr / 0x1000_0000 % 2 == 1 }

  /** Replace the four flags and keep the other 28 bits. */
  function WithFlags(cpsr: U32, n: bool, z: bool, c: bool, v: bool): U32 {
    cpsr % 0x1000_0000 + (if n then 0x8000_0000 else 0) + (if z then 0x4000_0000 else 0) +
    (if c then 0x2000_0000 else 0) + (if v then 0x1000_0000 else 0)
  }

  predicate Negative(x: U32) { x >= SIGN }

  // ── The setters ───────────────────────────────────────────────────

  function SetAdd(cpsr: U32, a: U32, b: U32, r: U32): U32 {
    WithFlags(cpsr, Negative(r), r == 0, r < a, Negative(a) == Negative(b) && Negative(a) != Negative(r))
  }

  function SetAdc(cpsr: U32, a: U32, b: U32, carry: U32, r: U32): U32 {
    WithFlags(cpsr, Negative(r), r == 0, (a + b + carry) / TWO_32 != 0,
              Negative(a) == Negative(b) && Negative(a) != Negative(r))
  }

  function SetSub(cpsr: U32, a: U32, b: U32, r: U32): U32 {
    WithFlags(cpsr, Negative(r), r == 0, a >= b, Negative(a) != Negative(b) && Negative(a) != Negative(r))
  }

  /** The 33-bit form a + ~b + c. */
  function SetSbc(cpsr: U32, a: U32, b: U32, carry: U32, r: U32): U32 {
    WithFlags(cpsr, Negative(r), r == 0, (a + (TWO_32 - 1 - b) + carry) / TWO_32 != 0,
              Negative(a) != Negative(b) && Negative(a) != Negative(r))
  }

  function CondPasses(cpsr: U32, cond: nat): bool {
    var n, z, c, v := N(cpsr), Z(cpsr), C(cpsr), V(cpsr);
    match cond % 16
    case 0 => z
    case 1 => !z
    case 2 => c
    case 3 => !c
    case 4 => n
    case 5 => !n
    case 6 => v
    case 7 => !v
    case 8 => c && !z
    case 9 => !c || z
    case 10 => n == v
    case 11 => n != v
    case 12 => !z && n == v
    case 13 => z || n != v
    case 14 => true
    case _ => false
  }

  // ── What the flags mean ───────────────────────────────────────────

  /** The two's complement value of a word. */
  function Signed(x: U32): int { if Negative(x) then x - TWO_32 else x }

  predicate InRange(x: int) { -SIGN <= x < SIGN }

  lemma FlagsRead(cpsr: U32, n: bool, z: bool, c: bool, v: bool)
    ensures var s := WithFlags(cpsr, n, z, c, v);
            N(s) == n && Z(s) == z && C(s) == c && V(s) == v && s % 0x1000_0000 == cpsr % 0x1000_0000
  {
  }

  /** What condition `cond` says after comparing `a` with `b`. */
  function Comparison(cond: nat, a: U32, b: U32): bool {
    match cond % 16
    case 0 => a == b
    case 1 => a != b
    case 2 => a >= b
    case 3 => a < b
    case 4 => Negative((a - b) % TWO_32)
    case 5 => !Negative((a - b) % TWO_32)
    case 6 => !InRange(Signed(a) - Signed(b))
    case 7 => InRange(Signed(a) - Signed(b))
    case 8 => a > b
    case 9 => a <= b
    case 10 => Signed(a) >= Signed(b)
    case 11 => Signed(a) < Signed(b)
    case 12 => Signed(a) > Signed(b)
    case 13 => Signed(a) <= Signed(b)
    case 14 => true
    case _ => false
  }

  lemma SubFlags(a: U32, b: U32)
    ensures var r := (a - b) % TWO_32;
            && (r == 0 <==> a == b)
            && (InRange(Signed(a) - Signed(b)) <==> !(Negative(a) != Negative(b) && Negative(a) != Negative(r)))
            && ((Negative(r) != (Negative(a) != Negative(b) && Negative(a) != Negative(r))) <==> Signed(a) < Signed(b))
  {
    assert (a - b) % TWO_32 == if a >= b then a - b else a - b + TWO_32;
  }

  /** After a compare, every condition code decides its signed or unsigned comparison. */
  lemma SubDecides(cpsr: U32, a: U32, b: U32, cond: nat)
    ensures CondPasses(SetSub(cpsr, a, b, (a - b) % TWO_32), cond) == Comparison(cond, a, b)
  {
    var r := (a - b) % TWO_32;
    SubFlags(a, b);
    FlagsRead(cpsr, Negative(r), r == 0, a >= b, Negative(a) != Negative(b) && Negative(a) != Negative(r));
  }

  /** The carry and overflow of an addition with carry-in are the unsigned and signed overflows. */
  lemma AdcFlags(cpsr: U32, a: U32, b: U32, carry: U32)
    requires carry <= 1
    ensures var r := (a + b + carry) % TWO_32;
            var s := SetAdc(cpsr, a, b, carry, r);
            && r + (if C(s) then TWO_32 else 0) == a + b + carry
            && (V(s) <==> !InRange(Signed(a) + Signed(b) + carry))
            && (!V(s) ==> Signed(r) == Signed(a) + Signed(b) + carry)
            && (carry == 0 ==> s == SetAdd(cpsr, a, b, r))
  {
    var r := (a + b + carry) % TWO_32;
    assert r == if a + b + carry >= TWO_32 then a + b + carry - TWO_32 else a + b + carry;
    FlagsRead(cpsr, Negative(r), r == 0, (a + b + carry) / TWO_32 != 0,
              Negative(a) == Negative(b) && Negative(a) != Negative(r));
  }

  /** The carry of a subtraction with borrow is NOT borrow. */
  lemma SbcFlags(cpsr: U32, a: U32, b: U32, carry: U32)
    requires carry <= 1
    ensures var r := (a - b - (1 - carry)) % TWO_32;
            var s := SetSbc(cpsr, a, b, carry, r);
            && r - (if C(s) then 0 else TWO_32) == a - b - (1 - carry)
            && (V(s) <==> !InRange(Signed(a) - Signed(b) - (1 - carry)))
            && (!V(s) ==> Signed(r) == Signed(a) - Signed(b) - (1 - carry))
            && (carry == 1 ==> s == SetSub(cpsr, a, b, r))
  {
    var d := a - b - (1 - carry);
    var r := d % TWO_32;
    assert r == if d < 0 then d + TWO_32 else d;
    FlagsRead(cpsr, Negative(r), r == 0, (a + (TWO_32 - 1 - b) + carry) / TWO_32 != 0,
              Negative(a) != Negative(b) && Negative(a) != Negative(r));
  }

  /** The flag nibble NZCV, N highest. */
  function Nibble(cpsr: U32): nat { cpsr / 0x1000_0000 }

  /** The sixteen rows of the condition table by flag nibble, for every CPSR, however its flags came about. */
  lemma ConditionTable(cpsr: U32)
    ensures var k := Nibble(cpsr);
            && CondPasses(cpsr, 0) == (k in {4, 5, 6, 7, 12, 13, 14, 15})
            && CondPasses(cpsr, 2) == (k in {2, 3, 6, 7, 10, 11, 14, 15})
            && CondPasses(cpsr, 4) == (k in {8, 9, 10, 11, 12, 13, 14, 15})
            && CondPasses(cpsr, 6) == (k in {1, 3, 5, 7, 9, 11, 13, 15})
            && CondPasses(cpsr, 8) == (k in {2, 3, 10, 11})
            && CondPasses(cpsr, 10) == (k in {0, 2, 4, 6, 9, 11, 13, 15})
            && CondPasses(cpsr, 12) == (k in {0, 2, 9, 11})
            && CondPasses(cpsr, 14) && !CondPasses(cpsr, 15)
    ensures forall c :: c in {0, 2, 4, 6, 8, 10, 12} ==> CondPasses(cpsr, c + 1) == !CondPasses(cpsr, c)
  {
    var k := Nibble(cpsr);
    assert k < 16;
    assert N(cpsr) <==> k / 8 % 2 == 1;
    assert Z(cpsr) <==> k / 4 % 2 == 1;
    assert C(cpsr) <==> k / 2 % 2 == 1;
    assert V(cpsr) <==> k % 2 == 1;
  }

  /** CPSR after an operation with result `r`, whose exact signed value is `value`, and its carry. */
  predicate Tells(before: U32, after: U32, r: U32, value: int, carry: bool) {
    && (N(after) <==> Negative(r)) && (Z(after) <==> r == 0) && (C(after) <==> carry)
    && (V(after) <==> !InRange(value)) && (!V(after) ==> Signed(r) == value)
    && after % 0x1000_0000 == before % 0x1000_0000
  }

  lemma AdcTells(cpsr: U32, a: U32, b: U32, carry: U32)
    requires carry <= 1
    ensures var r := (a + b + carry) % TWO_32;
            Tells(cpsr, SetAdc(cpsr, a, b, carry, r), r, Signed(a) + Signed(b) + carry, a + b + carry >= TWO_32)
  {
    var r := (a + b + carry) % TWO_32;
    AdcFlags(cpsr, a, b, carry);
    FlagsRead(cpsr, Negative(r), r == 0, (a + b + carry) / TWO_32 != 0,
              Negative(a) == Negative(b) && Negative(a) != Negative(r));
    hide WithFlags, N, Z, C, V, Signed, InRange, Negative;
  }

  lemma SbcTells(cpsr: U32, a: U32, b: U32, carry: U32)
    requires carry <= 1
    ensures var r := (a - b - (1 - carry)) % TWO_32;
            Tells(cpsr, SetSbc(cpsr, a, b, carry, r), r, Signed(a) - Signed(b) - (1 - carry), a >= b + (1 - carry))
  {
    var r := (a - b - (1 - carry)) % TWO_32;
    SbcFlags(cpsr, a, b, carry);
    FlagsRead(cpsr, Negative(r), r == 0, (a + (TWO_32 - 1 - b) + carry) / TWO_32 != 0,
              Negative(a) != Negative(b) && Negative(a) != Negative(r));
    hide WithFlags, N, Z, C, V, Signed, InRange, Negative;
  }

  lemma AddTells(cpsr: U32, a: U32, b: U32)
    ensures var r := (a + b) % TWO_32;
            Tells(cpsr, SetAdd(cpsr, a, b, r), r, Signed(a) + Signed(b), a + b >= TWO_32)
  {
    AdcTells(cpsr, a, b, 0);
    AdcFlags(cpsr, a, b, 0);
    hide SetAdc, SetAdd, Tells, Signed, N, Z, C, V, InRange, Negative;
  }

  lemma SubTells(cpsr: U32, a: U32, b: U32)
    ensures var r := (a - b) % TWO_32;
            && Tells(cpsr, SetSub(cpsr, a, b, r), r, Signed(a) - Signed(b), a >= b)
            && forall cond: nat :: CondPasses(SetSub(cpsr, a, b, r), cond) == Comparison(cond, a, b)
  {
    SbcTells(cpsr, a, b, 1);
    SbcFlags(cpsr, a, b, 1);
    hide SetSbc, SetSub, Tells, Signed, N, Z, C, V, InRange, Negative, CondPasses, Comparison;
    forall cond: nat
      ensures CondPasses(SetSub(cpsr, a, b, (a - b) % TWO_32), cond) == Comparison(cond, a, b)
    {
      SubDecides(cpsr, a, b, cond);
    }
  }

  /**
   CPSR, written by the flag setters. Given the result of the operation they set N and Z to its
   sign and being zero, C to the unsigned carry or to NOT borrow, V to signed overflow, and
   leave the other bits.
   */
  class StatusRegister {
    var cpsr: U32

    method Put(n: bool, z: bool, c: bool, v: bool)
      modifies this
      ensures cpsr == WithFlags(old(cpsr), n, z, c, v)
    {
      var kept := cpsr % 0x1000_0000;
      if n { kept := kept + 0x8000_0000; }
      if z { kept := kept + 0x4000_0000; }
      if c { kept := kept + 0x2000_0000; }
      if v { kept := kept + 0x1000_0000; }
      cpsr := kept;
    }

    method Add(a: U32, b: U32, r: U32)
      modifies this
      ensures cpsr == SetAdd(old(cpsr), a, b, r)
      ensures r == (a + b) % TWO_32 ==> Tells(old(cpsr), cpsr, r, Signed(a) + Signed(b), a + b >= TWO_32)
    {
      AddTells(cpsr, a, b);
      hide WithFlags, Negative, Tells, Signed;
      Put(Negative(r), r == 0, r < a, Negative(a) == Negative(b) && Negative(a) != Negative(r));
    }

    method Adc(a: U32, b: U32, carry: U32, r: U32)
      modifies this
      ensures cpsr == SetAdc(old(cpsr), a, b, carry, r)
      ensures carry <= 1 && r == (a + b + carry) % TWO_32 ==>
                Tells(old(cpsr), cpsr, r, Signed(a) + Signed(b) + carry, a + b + carry >= TWO_32)
    {
      if carry <= 1 {
        AdcTells(cpsr, a, b, carry);
      }
      hide WithFlags, Negative, Tells, Signed;
      var wide := a + b + carry;
      Put(Negative(r), r == 0, wide / TWO_32 != 0, Negative(a) == Negative(b) && Negative(a) != Negative(r));
    }

    method Sub(a: U32, b: U32, r: U32)
      modifies this
      ensures cpsr == SetSub(old(cpsr), a, b, r)
      ensures r == (a - b) % TWO_32 ==>
                && Tells(old(cpsr), cpsr, r, Signed(a) - Signed(b), a >= b)
                && forall cond: nat :: CondPasses(cpsr, cond) == Comparison(cond, a, b)
    {
      SubTells(cpsr, a, b);
      hide WithFlags, Negative, Tells, Signed, CondPasses, Comparison;
      Put(Negative(r), r == 0, a >= b, Negative(a) != Negative(b) && Negative(a) != Negative(r));
    }

    method Sbc(a: U32, b: U32, carry: U32, r: U32)
      modifies this
      ensures cpsr == SetSbc(old(cpsr), a, b, carry, r)
      ensures carry <= 1 && r == (a - b - (1 - carry)) % TWO_32 ==>
                Tells(old(cpsr), cpsr, r, Signed(a) - Signed(b) - (1 - carry), a >= b + (1 - carry))
    {
      if carry <= 1 {
        SbcTells(cpsr, a, b, carry);
      }
      hide WithFlags, Negative, Tells, Signed;
      var wide := a + (TWO_32 - 1 - b) + carry;
      Put(Negative(r), r == 0, wide / TWO_32 != 0, Negative(a) != Negative(b) && Negative(a) != Negative(r));
    }
  }

  // ── Multi-word arithmetic ─────────────────────────────────────────

  /** The number of a little-endian sequence of words. */
  function Number(words: seq<U32>): nat {
    if words == [] then 0 else words[0] + TWO_32 * Number(words[1..])
  }

  function PowWords(n: nat): nat {
    if n == 0 then 1 else TWO_32 * PowWords(n - 1)
  }

  function CarryIn(cpsr: U32): U32 { if C(cpsr) then 1 else 0 }

  /** ADC (or, from the lowest word, ADD) down the words, through CPSR.C. */
  function AddWords(cpsr: U32, a: seq<U32>, b: seq<U32>, lowest: bool): (seq<U32>, U32)
    requires |a| == |b|
    decreases |a|
  {
    if a == [] then ([], cpsr)
    else
      var r := if lowest then (a[0] + b[0]) % TWO_32 else (a[0] + b[0] + CarryIn(cpsr)) % TWO_32;
      var s := if lowest then SetAdd(cpsr, a[0], b[0], r) else SetAdc(cpsr, a[0], b[0], CarryIn(cpsr), r);
      var rest := AddWords(s, a[1..], b[1..], false);
      ([r] + rest.0, rest.1)
  }

  /** SBC (or, from the lowest word, SUB) down the words, through CPSR.C. */
  function SubWords(cpsr: U32, a: seq<U32>, b: seq<U32>, lowest: bool): (seq<U32>, U32)
    requires |a| == |b|
    decreases |a|
  {
    if a == [] then ([], cpsr)
    else
      var r := if lowest then (a[0] - b[0]) % TWO_32 else (a[0] - b[0] - (1 - CarryIn(cpsr))) % TWO_32;
      var s := if lowest then SetSub(cpsr, a[0], b[0], r) else SetSbc(cpsr, a[0], b[0], CarryIn(cpsr), r);
      var rest := SubWords(s, a[1..], b[1..], false);
      ([r] + rest.0, rest.1)
  }

  /** One word of the chain: an ADD is an ADC with no carry. */
  lemma AddStep(cpsr: U32, a: seq<U32>, b: seq<U32>, lowest: bool)
    requires |a| == |b| && a != []
    ensures var carry: U32 := if lowest then 0 else CarryIn(cpsr);
            var r := (a[0] + b[0] + carry) % TWO_32;
            var rest := AddWords(SetAdc(cpsr, a[0], b[0], carry, r), a[1..], b[1..], false);
            AddWords(cpsr, a, b, lowest) == ([r] + rest.0, rest.1)
  {
  }

  /** One word of the chain: a SUB is an SBC with no borrow. */
  lemma SubStep(cpsr: U32, a: seq<U32>, b: seq<U32>, lowest: bool)
    requires |a| == |b| && a != []
    ensures var carry: U32 := if lowest then 1 else CarryIn(cpsr);
            var r := (a[0] - b[0] - (1 - carry)) % TWO_32;
            var rest := SubWords(SetSbc(cpsr, a[0], b[0], carry, r), a[1..], b[1..], false);
            SubWords(cpsr, a, b, lowest) == ([r] + rest.0, rest.1)
  {
  }

  lemma AdcCarry(cpsr: U32, a: U32, b: U32, carry: U32)
    requires carry <= 1
    ensures var r := (a + b + carry) % TWO_32;
            r + TWO_32 * CarryIn(SetAdc(cpsr, a, b, carry, r)) == a + b + carry
  {
    AdcFlags(cpsr, a, b, carry);
    hide SetAdc, C, V, Signed;
  }

  lemma SbcCarry(cpsr: U32, a: U32, b: U32, carry: U32)
    requires carry <= 1
    ensures var r := (a - b - (1 - carry)) % TWO_32;
            r + TWO_32 * (CarryIn(SetSbc(cpsr, a, b, carry, r)) - 1) == a - b - (1 - carry)
  {
    SbcFlags(cpsr, a, b, carry);
    hide SetSbc, C, V, Signed;
  }

  /** An ADD/ADC chain of any length is exact: sum and final carry. */
  lemma {:induction false} AddWordsExact(cpsr: U32, a: seq<U32>, b: seq<U32>, lowest: bool)
    requires |a| == |b| && (lowest ==> a != [])
    ensures var out := AddWords(cpsr, a, b, lowest);
            && |out.0| == |a|
            && Number(out.0) + CarryIn(out.1) * PowWords(|a|) ==
               Number(a) + Number(b) + (if lowest then 0 else CarryIn(cpsr))
    decreases |a|
  {
    hide SetAdc, SetAdd, SetSbc, SetSub, CarryIn, AddWords, SubWords, Number, PowWords;
    if a == [] {
      EmptyChain(cpsr, lowest);
    } else {
      var carry: U32 := if lowest then 0 else CarryIn(cpsr);
      CarryBound(cpsr);
      var r := (a[0] + b[0] + carry) % TWO_32;
      var s := SetAdc(cpsr, a[0], b[0], carry, r);
      AdcCarry(cpsr, a[0], b[0], carry);
      AddStep(cpsr, a, b, lowest);
      AddWordsExact(s, a[1..], b[1..], false);
      var rest := AddWords(s, a[1..], b[1..], false);
      NumberHead(r, rest.0);
      assert a == [a[0]] + a[1..] && b == [b[0]] + b[1..];
      NumberHead(a[0], a[1..]);
      NumberHead(b[0], b[1..]);
      Chain(r, Number(rest.0), CarryIn(rest.1), PowWords(|a| - 1), Number(a[1..]) + Number(b[1..]), CarryIn(s), a[0] + b[0] + carry);
      PowHead(|a|);
    }
  }

  lemma NumberHead(word: U32, words: seq<U32>)
    ensures Number([word] + words) == word + TWO_32 * Number(words)
  {
    assert ([word] + words)[1..] == words;
  }

  lemma PowHead(n: nat)
    requires n > 0
    ensures PowWords(n) == TWO_32 * PowWords(n - 1)
  {
  }

  lemma CarryBound(cpsr: U32)
    ensures CarryIn(cpsr) <= 1
  {
  }

  lemma EmptyChain(cpsr: U32, lowest: bool)
    ensures AddWords(cpsr, [], [], lowest) == SubWords(cpsr, [], [], lowest) == ([], cpsr)
    ensures Number([]) == 0 && PowWords(0) == 1
  {
  }

  /** One word of a chain: base-2^32 carry propagation. */
  lemma Chain(r: int, rest: int, carryOut: int, power: int, tails: int, carry: int, heads: int)
    requires rest + carryOut * power == tails + carry && r + TWO_32 * carry == heads
    ensures r + TWO_32 * rest + carryOut * (TWO_32 * power) == heads + TWO_32 * tails
  {
    assert TWO_32 * (rest + carryOut * power) == TWO_32 * (tails + carry);
    assert carryOut * (TWO_32 * power) == TWO_32 * (carryOut * power);
  }

  /** A SUB/SBC chain of any length is exact: difference and final borrow. */
  lemma {:induction false} SubWordsExact(cpsr: U32, a: seq<U32>, b: seq<U32>, lowest: bool)
    requires |a| == |b| && (lowest ==> a != [])
    ensures var out := SubWords(cpsr, a, b, lowest);
            && |out.0| == |a|
            && Number(out.0) + (CarryIn(out.1) - 1) * PowWords(|a|) ==
               Number(a) - Number(b) - (if lowest then 0 else 1 - CarryIn(cpsr))
    decreases |a|
  {
    hide SetAdc, SetAdd, SetSbc, SetSub, CarryIn, AddWords, SubWords, Number, PowWords;
    if a == [] {
      EmptyChain(cpsr, lowest);
    } else {
      var carry: U32 := if lowest then 1 else CarryIn(cpsr);
      CarryBound(cpsr);
      var r := (a[0] - b[0] - (1 - carry)) % TWO_32;
      var s := SetSbc(cpsr, a[0], b[0], carry, r);
      SbcCarry(cpsr, a[0], b[0], carry);
      SubStep(cpsr, a, b, lowest);
      SubWordsExact(s, a[1..], b[1..], false);
      var rest := SubWords(s, a[1..], b[1..], false);
      NumberHead(r, rest.0);
      assert a == [a[0]] + a[1..] && b == [b[0]] + b[1..];
      NumberHead(a[0], a[1..]);
      NumberHead(b[0], b[1..]);
      Chain(r, Number(rest.0), CarryIn(rest.1) - 1, PowWords(|a| - 1), Number(a[1..]) - Number(b[1..]), CarryIn(s) - 1,
            a[0] - b[0] - (1 - carry));
      PowHead(|a|);
    }
  }
}
