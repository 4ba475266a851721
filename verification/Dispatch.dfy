/**
 The two dispatch lookups of runtime_arm.cpp: the generated tables behind a
 shared 4096-slot cache, and the byte-verified native RAM templates behind a
 256-slot cache.
 */
module Dispatch {
  import opened Common

  // ── The generated tables ──────────────────────────────────────────

  datatype TableEntry = TableEntry(addr: U32, thumb: bool)

  predicate SortedTable(t: seq<TableEntry>) {
    forall i, j :: 0 <= i < j < |t| ==> t[i].addr <= t[j].addr
  }

  /** The first entry for (pc, thumb) at or after `i`, by linear search. */
  function FirstEntry(t: seq<TableEntry>, pc: U32, thumb: bool, i: nat): (r: Option<nat>)
    requires i <= |t|
    ensures r.Some? ==> i <= r.value < |t|
    decreases |t| - i
  {
    if i == |t| then None
    else if t[i] == TableEntry(pc, thumb) then Some(i)
    else FirstEntry(t, pc, thumb, i + 1)
  }

  /** The answer is the least place of an entry for (pc, thumb), and none exactly if the table has none. */
  lemma {:induction false} FirstEntryFound(t: seq<TableEntry>, pc: U32, thumb: bool, i: nat)
    requires i <= |t|
    ensures var r := FirstEntry(t, pc, thumb, i);
            && (r.None? <==> forall k :: i <= k < |t| ==> t[k] != TableEntry(pc, thumb))
            && (r.Some? ==>
                  && t[r.value] == TableEntry(pc, thumb)
                  && forall k :: i <= k < r.value ==> t[k] != TableEntry(pc, thumb))
    decreases |t| - i
  {
    if i < |t| && t[i] != TableEntry(pc, thumb) {
      FirstEntryFound(t, pc, thumb, i + 1);
    }
  }

  /** Entries with other addresses do not matter to the linear search. */
  lemma {:induction false} FirstEntrySkips(t: seq<TableEntry>, pc: U32, thumb: bool, i: nat, j: nat)
    requires i <= j <= |t|
    requires forall k :: i <= k < j ==> t[k] != TableEntry(pc, thumb)
    ensures FirstEntry(t, pc, thumb, i) == FirstEntry(t, pc, thumb, j)
    decreases j - i
  {
    if i < j {
      FirstEntrySkips(t, pc, thumb, i + 1, j);
    }
  }

  function CacheSlot(pc: U32, thumb: bool): (s: nat)
    ensures s < 4096
  {
    var a, b := pc / 2 % 4096, pc / 4096 % 4096;
    Value(Bits(a % 256) ^ Bits(b % 256) ^ Bits(if thumb then 1 else 0)) +
    256 * (Value(Bits(a / 256) ^ Bits(b / 256)) % 16)
  }

  const BIOS_REGION_END := 0x4000

  class TableLookup {
    const bios: seq<TableEntry>
    const cart: seq<TableEntry>
    /** The cached table (true: BIOS) and entry of each slot. */
    const cache: array<Option<(bool, nat)>>

    function Table(isBios: bool): seq<TableEntry> { if isBios then bios else cart }

    /** Whatever a slot caches is the first entry for its own key in its own table. */
    ghost predicate Valid()
      reads cache
    {
      && cache.Length == 4096
      && SortedTable(bios) && SortedTable(cart)
      && forall s :: 0 <= s < 4096 && cache[s].Some? ==>
           var t, i := Table(cache[s].value.0), cache[s].value.1;
           i < |t| && FirstEntry(t, t[i].addr, t[i].thumb, 0) == Some(i)
    }

    constructor (bios: seq<TableEntry>, cart: seq<TableEntry>)
      requires SortedTable(bios) && SortedTable(cart)
      ensures Valid() && this.bios == bios && this.cart == cart && fresh(cache)
    {
      this.bios, this.cart := bios, cart;
      cache := new Option<(bool, nat)>[4096](_ => None);
    }

    /** The binary search and the scan of the equal-address run. */
    static method Search(t: seq<TableEntry>, pc: U32, thumb: bool) returns (r: Option<nat>)
      requires SortedTable(t)
      ensures r == FirstEntry(t, pc, thumb, 0)
      ensures r.None? <==> forall k :: 0 <= k < |t| ==> t[k] != TableEntry(pc, thumb)
      ensures r.Some? ==>
                && r.value < |t| && t[r.value] == TableEntry(pc, thumb)
                && forall k :: 0 <= k < r.value ==> t[k] != TableEntry(pc, thumb)
    {
      FirstEntryFound(t, pc, thumb, 0);
      var lo, hi := 0, |t|;
      while lo < hi
        invariant 0 <= lo <= hi <= |t|
        invariant forall k :: 0 <= k < lo ==> t[k].addr < pc
        invariant forall k :: hi <= k < |t| ==> t[k].addr >= pc
      {
        var mid := (lo + hi) / 2;
        if t[mid].addr < pc { lo := mid + 1; } else { hi := mid; }
      }
      FirstEntrySkips(t, pc, thumb, 0, lo);
      var i := lo;
      while i < |t| && t[i].addr == pc
        invariant lo <= i <= |t|
        invariant FirstEntry(t, pc, thumb, 0) == FirstEntry(t, pc, thumb, i)
      {
        if t[i].thumb == thumb {
          return Some(i);
        }
        i := i + 1;
      }
      if i < |t| {
        FirstEntrySkips(t, pc, thumb, i, |t|);
      }
      return None;
    }

    /** `lookup_in`. Whatever was looked up before, the answer is the first linear match. */
    method Lookup(isBios: bool, pc: U32, thumb: bool) returns (r: Option<nat>)
      requires Valid()
      modifies cache
      ensures Valid()
      ensures r == FirstEntry(Table(isBios), pc, thumb, 0)
      ensures var t := if isBios then bios else cart;
              && (r.None? <==> forall k :: 0 <= k < |t| ==> t[k] != TableEntry(pc, thumb))
              && (r.Some? ==>
                    && r.value < |t| && t[r.value] == TableEntry(pc, thumb)
                    && forall k :: 0 <= k < r.value ==> t[k] != TableEntry(pc, thumb))
    {
      var t := Table(isBios);
      FirstEntryFound(t, pc, thumb, 0);
      var slot := CacheSlot(pc, thumb);
      var cached := cache[slot];
      if cached.Some? && cached.value.0 == isBios && t[cached.value.1] == TableEntry(pc, thumb) {
        return Some(cached.value.1);
      }
      r := Search(t, pc, thumb);
      if r.Some? {
        cache[slot] := Some((isBios, r.value));
      }
    }

    /** The table half of `dispatch_resolve`. */
    method Resolve(pc: U32, thumb: bool) returns (r: Option<nat>)
      requires Valid()
      modifies cache
      ensures Valid()
      ensures r == FirstEntry(Table(pc < BIOS_REGION_END), pc, thumb, 0)
      ensures var t := if pc < 0x4000 then bios else cart;
              && (r.None? <==> forall k :: 0 <= k < |t| ==> t[k] != TableEntry(pc, thumb))
              && (r.Some? ==>
                    && r.value < |t| && t[r.value] == TableEntry(pc, thumb)
                    && forall k :: 0 <= k < r.value ==> t[k] != TableEntry(pc, thumb))
    {
      r := Lookup(pc < BIOS_REGION_END, pc, thumb);
    }
  }

  // ── Native RAM templates ──────────────────────────────────────────

  /** `RuntimeNativeRamTemplate`; `masks == []` is the null pointer. */
  datatype Template = Template(bytes: seq<Byte>, masks: seq<Byte>, thumb: bool, hasFn: bool, hasCartFn: bool)

  datatype RamEntry = RamEntry(key: nat, templateIndex: nat, offset: nat)

  /** The guest memory that backs executable views. */
  type Memory = map<int, Byte>

  /** `g_runtime_ram_code_view`: the live bytes of a range, or null. */
  function View(mem: Memory, at: int, n: nat): Option<seq<Byte>> {
    if forall k :: at <= k < at + n ==> k in mem then Some(seq(n, i requires 0 <= i < n && at + i in mem => mem[at + i]))
    else None
  }

  function Masked(b: Byte, m: Byte): Byte { Value(Bits(b) & Bits(m)) }

  function MaskAt(t: Template, n: nat): Byte {
    if n < |t.masks| then t.masks[n] else 255
  }

  /** Byte `n` of the template agrees with `live` wherever the mask is set. */
  predicate ByteAgrees(t: Template, n: nat, live: Byte)
    requires n < |t.bytes|
  {
    (Bits(live) ^ Bits(t.bytes[n])) & Bits(MaskAt(t, n)) == 0
  }

  predicate IsCartridge(pc: U32) { 8 <= pc / 0x100_0000 <= 13 }

  /** Entry `e` may run at `pc`: the live bytes equal its template under the mask, in `pc`'s region. */
  predicate Matches(ts: seq<Template>, e: RamEntry, base: int, cartridge: bool, thumb: bool, mem: Memory) {
    && e.templateIndex < |ts|
    && var t := ts[e.templateIndex];
       && t.thumb == thumb && e.offset < |t.bytes|
       && (if cartridge then t.hasCartFn else t.hasFn)
       && var live := View(mem, base, |t.bytes|);
          live.Some? && forall n :: 0 <= n < |t.bytes| ==> ByteAgrees(t, n, live.value[n])
  }

  predicate Candidate(ts: seq<Template>, e: RamEntry, pc: U32, thumb: bool, mem: Memory) {
    && e.offset <= pc && (pc - e.offset) / 0x100_0000 == pc / 0x100_0000
    && Matches(ts, e, pc - e.offset, IsCartridge(pc), thumb, mem)
  }

  function Step(thumb: bool): nat { if thumb then 2 else 4 }

  /** The opcode bytes of template `t` at `offset`, masked. */
  function MaskedOpcode(t: Template, offset: nat): seq<Byte>
    requires offset + Step(t.thumb) <= |t.bytes|
  {
    if t.thumb then [Masked(t.bytes[offset], MaskAt(t, offset)), Masked(t.bytes[offset + 1], MaskAt(t, offset + 1))]
    else [Masked(t.bytes[offset], MaskAt(t, offset)), Masked(t.bytes[offset + 1], MaskAt(t, offset + 1)),
          Masked(t.bytes[offset + 2], MaskAt(t, offset + 2)), Masked(t.bytes[offset + 3], MaskAt(t, offset + 3))]
  }

  /** The two mask shapes the generator emits: everything, or all but an ARM 12-bit immediate. */
  predicate ExactAt(t: Template, offset: nat) {
    forall n :: offset <= n < offset + Step(t.thumb) ==> MaskAt(t, n) == 255
  }

  predicate ImmediateAt(t: Template, offset: nat) {
    && !t.thumb && MaskAt(t, offset) == 0 && MaskAt(t, offset + 1) == 0xF0
    && MaskAt(t, offset + 2) == 255 && MaskAt(t, offset + 3) == 255
  }

  /** The key the generator gives an entry. */
  predicate WellFormed(ts: seq<Template>, e: RamEntry) {
    && e.templateIndex < |ts|
    && var t := ts[e.templateIndex];
       && (t.masks == [] || |t.masks| == |t.bytes|)
       && e.offset + Step(t.thumb) <= |t.bytes|
       && (ExactAt(t, e.offset) || ImmediateAt(t, e.offset))
       && e.key == 2 * FromLe(MaskedOpcode(t, e.offset)) + (if t.thumb then 1 else 0)
  }

  predicate SortedEntries(es: seq<RamEntry>) {
    forall i, j :: 0 <= i < j < |es| ==> es[i].key <= es[j].key
  }

  // ── What a match means ────────────────────────────────────────────

  /** Two bytes have the same bits wherever the mask keeps one. */
  predicate SameUnder(a: Byte, b: Byte, mask: Byte) { Bits(a) & Bits(mask) == Bits(b) & Bits(mask) }

  lemma AndXor(x: bv8, y: bv8, m: bv8)
    requires x & m == y & m
    ensures (x ^ y) & m == 0
  {
  }

  lemma AgreesUnder(a: Byte, b: Byte, mask: Byte)
    requires (Bits(a) ^ Bits(b)) & Bits(mask) == 0
    ensures SameUnder(a, b, mask)
  {
    hide Bits;
    XorAnd(Bits(a), Bits(b), Bits(mask));
  }

  lemma UnderAgrees(a: Byte, b: Byte, mask: Byte)
    requires SameUnder(a, b, mask)
    ensures (Bits(a) ^ Bits(b)) & Bits(mask) == 0
  {
    hide Bits;
    AndXor(Bits(a), Bits(b), Bits(mask));
  }

  /** A live byte agrees with a template byte under the template's mask, or with all of it where there is no mask. */
  lemma AgreesExact(t: Template, n: nat, live: Byte)
    requires n < |t.bytes|
    ensures ByteAgrees(t, n, live) <==> if n < |t.masks| then SameUnder(live, t.bytes[n], t.masks[n]) else live == t.bytes[n]
  {
    hide SameUnder, Bits;
    if ByteAgrees(t, n, live) {
      AgreesUnder(live, t.bytes[n], MaskAt(t, n));
    }
    if SameUnder(live, t.bytes[n], MaskAt(t, n)) {
      UnderAgrees(live, t.bytes[n], MaskAt(t, n));
    }
    AllKept(live, t.bytes[n]);
  }

  lemma AllKept(a: Byte, b: Byte)
    ensures SameUnder(a, b, 255) <==> a == b
  {
    hide Value, Bits;
    MaskBits();
    AndShapes(Bits(a));
    AndShapes(Bits(b));
    ValueOfBits(a);
    ValueOfBits(b);
  }

  /** Memory holds the template from `base` on, wherever its masks keep a bit. */
  ghost predicate Holds(mem: Memory, base: int, t: Template) {
    && (forall a :: base <= a < base + |t.bytes| ==> a in mem)
    && (forall n :: 0 <= n < |t.bytes| ==>
          if n < |t.masks| then SameUnder(mem[base + n], t.bytes[n], t.masks[n]) else mem[base + n] == t.bytes[n])
  }

  lemma HoldsExact(mem: Memory, base: int, t: Template)
    ensures Holds(mem, base, t) <==>
            var live := View(mem, base, |t.bytes|);
            live.Some? && forall n :: 0 <= n < |t.bytes| ==> ByteAgrees(t, n, live.value[n])
  {
    var live := View(mem, base, |t.bytes|);
    if live.Some? {
      assert forall a :: base <= a < base + |t.bytes| ==> a in mem;
      forall n | 0 <= n < |t.bytes|
        ensures live.value[n] == mem[base + n]
        ensures ByteAgrees(t, n, live.value[n]) <==>
                if n < |t.masks| then SameUnder(mem[base + n], t.bytes[n], t.masks[n]) else mem[base + n] == t.bytes[n]
      {
        AgreesExact(t, n, live.value[n]);
      }
    }
    hide ByteAgrees, SameUnder;
  }

  /**
   A match is exactly this: a template of the table, of the processor's state, with a body for the
   region, and live memory that holds it.
   */
  lemma MatchesExact(ts: seq<Template>, e: RamEntry, base: int, cartridge: bool, thumb: bool, mem: Memory)
    ensures Matches(ts, e, base, cartridge, thumb, mem) <==>
            && e.templateIndex < |ts|
            && var t := ts[e.templateIndex];
               && t.thumb == thumb && e.offset < |t.bytes|
               && (cartridge ==> t.hasCartFn) && (!cartridge ==> t.hasFn)
               && Holds(mem, base, t)
  {
    if e.templateIndex < |ts| {
      HoldsExact(mem, base, ts[e.templateIndex]);
    }
    hide Holds, ByteAgrees;
  }

  /** Without masks a match means that memory holds the template, byte for byte. */
  lemma UnmaskedMatch(ts: seq<Template>, e: RamEntry, base: int, cartridge: bool, thumb: bool, mem: Memory)
    requires Matches(ts, e, base, cartridge, thumb, mem) && ts[e.templateIndex].masks == []
    ensures View(mem, base, |ts[e.templateIndex].bytes|) == Some(ts[e.templateIndex].bytes)
  {
    MatchesExact(ts, e, base, cartridge, thumb, mem);
    hide Matches, SameUnder;
    var t := ts[e.templateIndex];
    assert View(mem, base, |t.bytes|).value == t.bytes;
  }

  // ── Why the two searched keys suffice ─────────────────────────────

  lemma MaskedEqual(a: Byte, b: Byte, m: Byte)
    requires (Bits(a) ^ Bits(b)) & Bits(m) == 0
    ensures Masked(a, m) == Masked(b, m)
  {
    XorAnd(Bits(a), Bits(b), Bits(m));
  }

  lemma XorAnd(x: bv8, y: bv8, m: bv8)
    requires (x ^ y) & m == 0
    ensures x & m == y & m
  {
  }

  lemma MaskBits()
    ensures Bits(255) == 255 && Bits(0) == 0 && Bits(0xF0) == 0xF0
  {
  }

  lemma AndShapes(x: bv8)
    ensures x & 255 == x && x & 0 == 0
  {
  }

  lemma MaskShapes(b: Byte)
    ensures Masked(b, 255) == b && Masked(b, 0) == 0 && Masked(b, 0xF0) == b - b % 16
  {
    hide Value, Bits;
    ValueOfBits(b);
    ValueOfBits(0);
    MaskBits();
    AndShapes(Bits(b));
    HighNibble(Bits(b));
  }

  lemma HighNibble(x: bv8)
    ensures Value(x & 0xF0) == Value(x) - Value(x) % 16
  {
    assert (x & 0xF0) & 128 == x & 128 && (x & 0xF0) & 64 == x & 64;
    assert (x & 0xF0) & 32 == x & 32 && (x & 0xF0) & 16 == x & 16;
    assert (x & 0xF0) & 8 == 0 && (x & 0xF0) & 4 == 0 && (x & 0xF0) & 2 == 0 && (x & 0xF0) & 1 == 0;
  }

  /** The keys that `lookup_native_ram` searches for a live opcode. */
  function Keys(opcode: nat, thumb: bool): seq<nat> {
    if thumb then [2 * opcode + 1]
    else if opcode % 4096 == 0 then [2 * opcode]
    else [2 * opcode, 2 * (opcode - opcode % 4096)]
  }

  lemma FromLe2(s: seq<Byte>)
    requires |s| == 2
    ensures FromLe(s) == s[0] as int + 256 * (s[1] as int)
  {
    assert s[1..][1..] == [];
    assert FromLe(s[1..]) == s[1];
  }

  lemma FromLe4(s: seq<Byte>)
    requires |s| == 4
    ensures FromLe(s) == s[0] as int + 256 * (s[1] as int) + 0x1_0000 * (s[2] as int) + 0x100_0000 * (s[3] as int)
  {
    assert s[1..][1..] == s[2..];
    FromLe2(s[2..]);
    assert FromLe(s[1..]) == s[1] as int + 256 * FromLe(s[2..]);
  }

  /** A live opcode and a template opcode that agree under the mask have the same masked bytes. */
  lemma MaskedLive(t: Template, offset: nat, live: seq<Byte>)
    requires |live| == Step(t.thumb) && offset + Step(t.thumb) <= |t.bytes|
    requires forall n :: 0 <= n < |live| ==> ByteAgrees(t, offset + n, live[n])
    ensures |MaskedOpcode(t, offset)| == |live|
    ensures forall n :: 0 <= n < |live| ==> MaskedOpcode(t, offset)[n] == Masked(live[n], MaskAt(t, offset + n))
  {
    forall n | 0 <= n < |live|
      ensures Masked(t.bytes[offset + n], MaskAt(t, offset + n)) == Masked(live[n], MaskAt(t, offset + n))
    {
      assert ByteAgrees(t, offset + n, live[n]);
      MaskedEqual(live[n], t.bytes[offset + n], MaskAt(t, offset + n));
    }
  }

  lemma ExactKey(t: Template, offset: nat, live: seq<Byte>)
    requires |live| == Step(t.thumb) && offset + Step(t.thumb) <= |t.bytes| && ExactAt(t, offset)
    requires forall n :: 0 <= n < |live| ==> ByteAgrees(t, offset + n, live[n])
    ensures MaskedOpcode(t, offset) == live
  {
    MaskedLive(t, offset, live);
    forall n | 0 <= n < |live| ensures MaskedOpcode(t, offset)[n] == live[n] {
      assert MaskAt(t, offset + n) == 255;
      MaskShapes(live[n]);
    }
  }

  lemma ClearLow12(a: Byte, b: Byte, c: Byte, d: Byte)
    ensures var v := a as int + 256 * (b as int) + 0x1_0000 * (c as int) + 0x100_0000 * (d as int);
            256 * (b - b % 16) as int + 0x1_0000 * (c as int) + 0x100_0000 * (d as int) == v - v % 4096
  {
  }

  lemma ImmediateBytes(t: Template, offset: nat, live: seq<Byte>)
    requires |live| == Step(t.thumb) && offset + Step(t.thumb) <= |t.bytes| && ImmediateAt(t, offset)
    requires forall n :: 0 <= n < |live| ==> ByteAgrees(t, offset + n, live[n])
    ensures MaskedOpcode(t, offset) == [0, live[1] - live[1] % 16, live[2], live[3]]
  {
    MaskedLive(t, offset, live);
    var m := MaskedOpcode(t, offset);
    assert m[0] == Masked(live[0], MaskAt(t, offset + 0)) == 0 by { MaskShapes(live[0]); }
    assert m[1] == live[1] - live[1] % 16 by { MaskShapes(live[1]); }
    assert m[2] == live[2] by { MaskShapes(live[2]); }
    assert m[3] == live[3] by { MaskShapes(live[3]); }
  }

  lemma ImmediateKey(t: Template, offset: nat, live: seq<Byte>)
    requires |live| == Step(t.thumb) && offset + Step(t.thumb) <= |t.bytes| && ImmediateAt(t, offset)
    requires forall n :: 0 <= n < |live| ==> ByteAgrees(t, offset + n, live[n])
    ensures FromLe(MaskedOpcode(t, offset)) == FromLe(live) - FromLe(live) % 4096
  {
    ImmediateBytes(t, offset, live);
    ClearedOpcode(live);
  }

  lemma ClearedOpcode(live: seq<Byte>)
    requires |live| == 4
    ensures FromLe([0, live[1] - live[1] % 16, live[2], live[3]]) == FromLe(live) - FromLe(live) % 4096
  {
    FromLe4(live);
    FromLe4([0, live[1] - live[1] % 16, live[2], live[3]]);
    ClearLow12(live[0], live[1], live[2], live[3]);
  }

  /**
   An entry with the generator's key is well formed: the opcode at its offset with the state bit below
   it, or, where the masks drop an ARM 12-bit immediate, the opcode with that immediate zero.
   */
  lemma GeneratedKey(ts: seq<Template>, e: RamEntry)
    requires e.templateIndex < |ts|
    requires var t := ts[e.templateIndex];
             && (t.masks == [] || |t.masks| == |t.bytes|) && e.offset + (if t.thumb then 2 else 4) <= |t.bytes|
    requires var t := ts[e.templateIndex]; var step := if t.thumb then 2 else 4;
             var opcode := FromLe(t.bytes[e.offset..e.offset + step]);
             || (e.key == 2 * opcode + (if t.thumb then 1 else 0)
                 && forall n :: e.offset <= n < e.offset + step && n < |t.masks| ==> t.masks[n] == 255)
             || (e.key == 2 * (opcode - opcode % 4096) && !t.thumb && t.masks != []
                 && t.masks[e.offset..e.offset + 4] == [0, 0xF0, 255, 255])
    ensures WellFormed(ts, e)
  {
    hide FromLe, MaskAt, MaskedOpcode, ByteAgrees;
    var t := ts[e.templateIndex];
    if forall n :: e.offset <= n < e.offset + Step(t.thumb) && n < |t.masks| ==> t.masks[n] == 255 {
      FullMasks(t, e.offset);
      OwnExact(t, e.offset, t.bytes[e.offset..e.offset + Step(t.thumb)]);
    }
    if !t.thumb && t.masks != [] && t.masks[e.offset..e.offset + 4] == [0, 0xF0, 255, 255] {
      ImmediateMasks(t, e.offset);
      OwnImmediate(t, e.offset, t.bytes[e.offset..e.offset + 4]);
    }
  }

  lemma OwnBytesAgree(t: Template, offset: nat, own: seq<Byte>)
    requires offset + Step(t.thumb) <= |t.bytes| && own == t.bytes[offset..offset + Step(t.thumb)]
    ensures forall n :: 0 <= n < |own| ==> ByteAgrees(t, offset + n, own[n])
  {
    hide ByteAgrees;
    forall n | 0 <= n < |own| ensures ByteAgrees(t, offset + n, own[n]) {
      AgreesExact(t, offset + n, own[n]);
    }
  }

  lemma OwnExact(t: Template, offset: nat, own: seq<Byte>)
    requires offset + Step(t.thumb) <= |t.bytes| && own == t.bytes[offset..offset + Step(t.thumb)] && ExactAt(t, offset)
    ensures MaskedOpcode(t, offset) == own
  {
    hide ByteAgrees, MaskedOpcode, ExactAt;
    OwnBytesAgree(t, offset, own);
    ExactKey(t, offset, own);
  }

  lemma OwnImmediate(t: Template, offset: nat, own: seq<Byte>)
    requires !t.thumb && offset + 4 <= |t.bytes| && own == t.bytes[offset..offset + 4] && ImmediateAt(t, offset)
    ensures FromLe(MaskedOpcode(t, offset)) == FromLe(own) - FromLe(own) % 4096
  {
    hide ByteAgrees, MaskedOpcode, ImmediateAt, FromLe;
    OwnBytesAgree(t, offset, own);
    ImmediateKey(t, offset, own);
  }

  lemma FullMasks(t: Template, offset: nat)
    requires forall n :: offset <= n < offset + Step(t.thumb) && n < |t.masks| ==> t.masks[n] == 255
    ensures ExactAt(t, offset)
  {
  }

  lemma ImmediateMasks(t: Template, offset: nat)
    requires !t.thumb && offset + 4 <= |t.masks| && t.masks[offset..offset + 4] == [0, 0xF0, 255, 255]
    ensures ImmediateAt(t, offset)
  {
    var m := t.masks[offset..offset + 4];
    assert m[0] == t.masks[offset] && m[1] == t.masks[offset + 1];
    assert m[2] == t.masks[offset + 2] && m[3] == t.masks[offset + 3];
  }

  /** The opcode at `pc` agrees with a matching entry's template at its offset. */
  lemma LiveAgrees(ts: seq<Template>, e: RamEntry, pc: U32, thumb: bool, mem: Memory, live: seq<Byte>)
    requires WellFormed(ts, e) && Candidate(ts, e, pc, thumb, mem)
    requires View(mem, pc, Step(thumb)) == Some(live)
    ensures ts[e.templateIndex].thumb == thumb && |live| == Step(thumb)
    ensures forall n :: 0 <= n < |live| ==> ByteAgrees(ts[e.templateIndex], e.offset + n, live[n])
  {
    hide FromLe, MaskedOpcode, ExactAt, ImmediateAt;
    var t := ts[e.templateIndex];
    var whole := View(mem, pc - e.offset, |t.bytes|).value;
    forall n | 0 <= n < Step(thumb) ensures ByteAgrees(t, e.offset + n, live[n]) {
      assert live[n] == mem[pc + n] == whole[e.offset + n];
      assert ByteAgrees(t, e.offset + n, whole[e.offset + n]);
    }
  }

  /** A matching well-formed entry has one of the searched keys. */
  lemma MatchingKey(ts: seq<Template>, e: RamEntry, pc: U32, thumb: bool, mem: Memory, live: seq<Byte>)
    requires WellFormed(ts, e) && Candidate(ts, e, pc, thumb, mem)
    requires View(mem, pc, Step(thumb)) == Some(live)
    ensures e.key in Keys(FromLe(live), thumb)
  {
    LiveAgrees(ts, e, pc, thumb, mem, live);
    SearchedKey(ts[e.templateIndex], e.offset, e.key, live);
  }

  lemma SearchedKey(t: Template, offset: nat, key: nat, live: seq<Byte>)
    requires |live| == Step(t.thumb) && offset + Step(t.thumb) <= |t.bytes|
    requires ExactAt(t, offset) || ImmediateAt(t, offset)
    requires forall n :: 0 <= n < |live| ==> ByteAgrees(t, offset + n, live[n])
    requires key == 2 * FromLe(MaskedOpcode(t, offset)) + (if t.thumb then 1 else 0)
    ensures key in Keys(FromLe(live), t.thumb)
  {
    var keys := Keys(FromLe(live), t.thumb);
    if ExactAt(t, offset) {
      ExactKey(t, offset, live);
      assert keys[0] == key;
    } else {
      ImmediateKey(t, offset, live);
      assert keys[|keys| - 1] == key;
    }
  }

  // ── The lookup ────────────────────────────────────────────────────

  function RamSlot(pc: U32): (s: nat)
    ensures s < 256
  {
    Value(Bits(pc / 2 % 256) ^ Bits(pc / 2048 % 256))
  }

  predicate Aligned(pc: U32, thumb: bool) { pc % Step(thumb) == 0 }

  /** Regions whose code may be a template: EWRAM, IWRAM and the cartridge. */
  predicate TemplateRegion(pc: U32) {
    pc / 0x100_0000 == 2 || pc / 0x100_0000 == 3 || IsCartridge(pc)
  }

  /** One slot of the native RAM cache: the PC, the base it ran at and its entry. */
  datatype RamCached = RamCached(pc: U32, base: int, index: nat)

  class RamLookup {
    var templates: seq<Template>
    var entries: seq<RamEntry>
    var mem: Memory
    const cache: array<Option<RamCached>>

    /** A cached entry is one of the table's and its base is where `pc` puts it; its bytes may be stale. */
    ghost predicate Valid()
      reads this, cache
    {
      && cache.Length == 256
      && SortedEntries(entries)
      && forall s :: 0 <= s < 256 && cache[s].Some? ==> Placed(entries, cache[s].value)
    }

    constructor ()
      ensures Valid() && fresh(cache)
    {
      templates, entries, mem := [], [], map[];
      cache := new Option<RamCached>[256](_ => None);
    }

    method Register(templates: seq<Template>, entries: seq<RamEntry>)
      requires Valid() && SortedEntries(entries)
      modifies this, cache
      ensures Valid() && this.templates == templates && this.entries == entries && mem == old(mem)
    {
      this.templates, this.entries := templates, entries;
      for i := 0 to 256
        invariant forall s :: 0 <= s < i ==> cache[s].None?
        modifies cache
      {
        cache[i] := None;
      }
    }

    /** The guest, DMA or a debugger rewrites memory; no cache is told. */
    method Rewrite(mem: Memory)
      requires Valid()
      modifies this`mem
      ensures Valid() && this.mem == mem
    {
      this.mem := mem;
    }

    /** No entry is placed in `pc`'s region so that it covers `pc`, and matches there. */
    ghost predicate NoneRuns(pc: U32, thumb: bool)
      reads this
    {
      forall e :: e in entries && e.offset <= pc && (pc - e.offset) / 0x100_0000 == pc / 0x100_0000 ==>
        !Matches(templates, e, pc - e.offset, pc >= 0x800_0000, thumb, mem)
    }

    /** The first key's entry that matches, from the lower bound of the key's run. */
    method SearchKey(key: nat, pc: U32, thumb: bool) returns (r: Option<nat>)
      requires Valid()
      ensures r.Some? ==> r.value < |entries| && Candidate(templates, entries[r.value], pc, thumb, mem)
      ensures r.None? ==>
                forall e :: e in entries && e.key == key ==> !Candidate(templates, e, pc, thumb, mem)
    {
      var lo, hi := 0, |entries|;
      while lo < hi
        invariant 0 <= lo <= hi <= |entries|
        invariant forall k :: 0 <= k < lo ==> entries[k].key < key
        invariant forall k :: hi <= k < |entries| ==> entries[k].key >= key
      {
        var mid := lo + (hi - lo) / 2;
        if entries[mid].key < key { lo := mid + 1; } else { hi := mid; }
      }
      var i := lo;
      while i < |entries| && entries[i].key == key
        invariant lo <= i <= |entries|
        invariant forall k :: lo <= k < i ==> !Candidate(templates, entries[k], pc, thumb, mem)
      {
        if Candidate(templates, entries[i], pc, thumb, mem) {
          return Some(i);
        }
        i := i + 1;
      }
      return None;
    }

    /**
     `lookup_native_ram`: a hit, cached or not, is at base + offset == pc with live
     bytes equal to its template under the mask; with well-formed keys a miss
     means that no template of the table matches at `pc`.
     */
    method Lookup(pc: U32, thumb: bool) returns (r: Option<(nat, int)>)
      requires Valid()
      modifies cache
      ensures Valid()
      ensures r.Some? ==>
                var i, base := r.value.0, r.value.1;
                && i < |entries| && base + entries[i].offset == pc
                && Matches(templates, entries[i], base, pc >= 0x800_0000, thumb, mem)
                && 0 <= base && base / 0x100_0000 == pc / 0x100_0000
      ensures var region := pc / 0x100_0000;
              !(region in {2, 3, 8, 9, 10, 11, 12, 13}) || pc % (if thumb then 2 else 4) != 0 ==> r.None?
      ensures var region := pc / 0x100_0000;
              && r.None? && region in {2, 3, 8, 9, 10, 11, 12, 13} && pc % (if thumb then 2 else 4) == 0
              && (forall e :: e in entries ==> WellFormed(templates, e)) ==>
                NoneRuns(pc, thumb)
    {
      hide Matches, WellFormed, View, FromLe, Keys, RamSlot, Candidate;
      if !TemplateRegion(pc) || !Aligned(pc, thumb) || entries == [] {
        return None;
      }
      var slot := RamSlot(pc);
      var cached := cache[slot];
      if cached.Some? && cached.value.pc == pc &&
         Matches(templates, entries[cached.value.index], cached.value.base, IsCartridge(pc), thumb, mem) {
        return Some((cached.value.index, cached.value.base));
      }
      var live := View(mem, pc, Step(thumb));
      if live.None? {
        NoView(pc, thumb);
        return None;
      }
      r := Scan(pc, thumb, live.value);
      if r.Some? {
        cache[slot] := Some(RamCached(pc, r.value.1, r.value.0));
      } else {
        NoKey(pc, thumb, live.value);
      }
    }

    /** Search the keys of the live opcode in turn. */
    method Scan(pc: U32, thumb: bool, live: seq<Byte>) returns (r: Option<(nat, int)>)
      requires Valid()
      ensures r.Some? ==>
                var i, base := r.value.0, r.value.1;
                && i < |entries| && base + entries[i].offset == pc
                && Matches(templates, entries[i], base, IsCartridge(pc), thumb, mem)
                && 0 <= base && base / 0x100_0000 == pc / 0x100_0000
      ensures r.None? ==>
                forall e :: e in entries && e.key in Keys(FromLe(live), thumb) ==> !Candidate(templates, e, pc, thumb, mem)
    {
      var keys := Keys(FromLe(live), thumb);
      for search := 0 to |keys|
        invariant forall e :: e in entries && e.key in keys[..search] ==> !Candidate(templates, e, pc, thumb, mem)
      {
        var hit := SearchKey(keys[search], pc, thumb);
        if hit.Some? {
          return Some((hit.value, pc - entries[hit.value].offset));
        }
        assert keys[..search + 1] == keys[..search] + [keys[search]];
      }
      assert keys[..|keys|] == keys;
      return None;
    }

    lemma NoView(pc: U32, thumb: bool)
      requires View(mem, pc, Step(thumb)).None?
      ensures (forall e :: e in entries ==> WellFormed(templates, e)) ==> NoneRuns(pc, thumb)
    {
    }

    lemma NoKey(pc: U32, thumb: bool, live: seq<Byte>)
      requires TemplateRegion(pc)
      requires View(mem, pc, Step(thumb)) == Some(live)
      requires forall e :: e in entries && e.key in Keys(FromLe(live), thumb) ==> !Candidate(templates, e, pc, thumb, mem)
      ensures (forall e :: e in entries ==> WellFormed(templates, e)) ==> NoneRuns(pc, thumb)
    {
      hide Matches, WellFormed, Keys, FromLe;
      forall e | e in entries && WellFormed(templates, e) && Candidate(templates, e, pc, thumb, mem)
        ensures false
      {
        MatchingKey(templates, e, pc, thumb, mem, live);
      }
    }
  }

  predicate Placed(entries: seq<RamEntry>, c: RamCached) {
    && c.index < |entries| && c.base + entries[c.index].offset == c.pc
    && 0 <= c.base && c.base / 0x100_0000 == c.pc / 0x100_0000
  }
}
