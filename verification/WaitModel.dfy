/**
 Opcode-fetch and GamePak-prefetch timing (runtime_wait_model.h), and the cycle
 bound of an admitted native region (runtime_native_region.h) that rests on it.
 */
module WaitModel {
  import opened Common

  /** `RuntimeWaitTable` without the buffer position: wait states by region, address bits 24-27. */
  datatype Waits = Waits(n16: seq<Byte>, s16: seq<Byte>, n32: seq<Byte>, s32: seq<Byte>, prefetch: bool)
  {
    predicate WF() { |n16| == |s16| == |n32| == |s32| == 16 }
  }

  function Region(pc: U32): nat { pc / 0x100_0000 }

  // ── The wait table ────────────────────────────────────────────────

  /** First and second accesses of the cartridge, as WAITCNT's fields select them. */
  const ROM_N: seq<Byte> := [4, 3, 2, 8]
  const ROM_S: seq<Byte> := [2, 1, 4, 1, 8, 1]

  /** The power-on table. */
  function BaseWaits(): (t: Waits)
    ensures t.WF() && !t.prefetch && t.n16[3] == t.s16[3] == t.n32[3] == t.s32[3] == 0
  {
    Waits([0, 0, 2, 0, 0, 0, 0, 0, 4, 4, 4, 4, 4, 4, 4, 0], [0, 0, 2, 0, 0, 0, 0, 0, 2, 2, 4, 4, 8, 8, 4, 0],
          [0, 0, 5, 0, 0, 1, 1, 0, 7, 7, 9, 9, 13, 13, 9, 0], [0, 0, 5, 0, 0, 1, 1, 0, 5, 5, 9, 9, 17, 17, 9, 0], false)
  }

  /** Two bits of a control register from bit `low` on, `low` given as a power of two. */
  function Field(control: nat, low: nat): (f: nat)
    requires low > 0
    ensures f < 4
  {
    control / low % 4
  }

  function Bit(control: nat, place: nat): (f: nat)
    requires place > 0
    ensures f < 2
  {
    control / place % 2
  }

  /** What WAITCNT says of the cartridge: the first and second accesses of region `r`. */
  function RomWaits(waitcnt: nat, r: nat): (w: (Byte, Byte))
    requires 8 <= r <= 13
    ensures w.0 <= 8 && w.1 <= 8
  {
    if r < 10 then (ROM_N[Field(waitcnt, 4)], ROM_S[Bit(waitcnt, 16)])
    else if r < 12 then (ROM_N[Field(waitcnt, 32)], ROM_S[Bit(waitcnt, 128) + 2])
    else (ROM_N[Field(waitcnt, 256)], ROM_S[Bit(waitcnt, 1024) + 4])
  }

  /** A 32-bit cartridge access is two halfword accesses. */
  ghost predicate Window(t: Waits, lo: nat, hi: nat, n: nat, s: nat)
    requires t.WF() && hi <= 16
  {
    forall r :: lo <= r < hi ==> t.n16[r] == n && t.s16[r] == s && t.n32[r] == n + 1 + s && t.s32[r] == 2 * s + 1
  }

  /** The save memory has one wait for everything, a word being two halfwords. */
  ghost predicate OneWait(t: Waits, lo: nat, hi: nat, n: nat)
    requires t.WF() && hi <= 16
  {
    forall r :: lo <= r < hi ==> t.n16[r] == n && t.s16[r] == n && t.n32[r] == 2 * n + 1 && t.s32[r] == 2 * n + 1
  }

  /** Two tables agree on regions `lo` up to `hi`. */
  ghost predicate SameIn(t: Waits, u: Waits, lo: nat, hi: nat)
    requires t.WF() && u.WF() && hi <= 16
  {
    forall r :: lo <= r < hi ==>
      t.n16[r] == u.n16[r] && t.s16[r] == u.s16[r] && t.n32[r] == u.n32[r] && t.s32[r] == u.s32[r]
  }

  /** The cartridge waits are those WAITCNT selects. */
  ghost predicate FromWaitcnt(t: Waits, waitcnt: nat)
    requires t.WF()
  {
    forall r :: 8 <= r <= 13 ==>
      var (n, s) := RomWaits(waitcnt, r);
      t.n16[r] == n && t.s16[r] == s && t.n32[r] == n + 1 + s && t.s32[r] == 2 * s + 1
  }

  /**
   WAITCNT field by field: the first access of each pair of regions costs 4, 3, 2 or 8 by two
   bits, from bits 2, 5 and 8 on; the second is short or long by bits 4, 7 and 10, and a word is
   two halfwords.
   */
  lemma WaitcntExact(t: Waits, waitcnt: nat, r: nat)
    requires t.WF() && FromWaitcnt(t, waitcnt) && 8 <= r <= 13
    ensures var first := waitcnt / (if r < 10 then 4 else if r < 12 then 32 else 256) % 4;
            t.n16[r] == if first == 0 then 4 else if first == 1 then 3 else if first == 2 then 2 else 8
    ensures var second := waitcnt / (if r < 10 then 16 else if r < 12 then 128 else 1024) % 2;
            t.s16[r] == if second == 1 then 1 else if r < 10 then 2 else if r < 12 then 4 else 8
    ensures t.n32[r] == t.n16[r] + 1 + t.s16[r] && t.s32[r] == t.s16[r] + 1 + t.s16[r]
  {
  }

  /** What holds of the cartridge and the two work RAMs whatever WAITCNT and the memory control say. */
  ghost predicate Derived(t: Waits) {
    && t.WF()
    && (forall r :: 8 <= r <= 13 ==>
          t.n16[r] <= 8 && t.s16[r] <= 8 && t.n32[r] == t.n16[r] + 1 + t.s16[r] && t.s32[r] == 2 * t.s16[r] + 1)
    && 1 <= t.n16[2] <= 15 && OneWait(t, 2, 3, t.n16[2])
    && t.n16[3] == t.s16[3] == t.n32[3] == t.s32[3] == 0
  }

  /** `t` with WAITCNT applied is `u`, and with the memory control applied after it `v`. */
  lemma ControlledIsDerived(t: Waits, u: Waits, v: Waits, waitcnt: nat, ewram: nat)
    requires t.WF() && u.WF() && v.WF() && t.n16[3] == t.s16[3] == t.n32[3] == t.s32[3] == 0
    requires FromWaitcnt(u, waitcnt) && SameIn(u, t, 0, 8)
    requires SameIn(v, u, 0, 2) && SameIn(v, u, 3, 16) && OneWait(v, 2, 3, ewram) && 1 <= ewram <= 15
    ensures Derived(v) && FromWaitcnt(v, waitcnt) && v.n16[2] == ewram
  {
    hide RomWaits;
  }

  lemma LowControl(waitcnt: nat)
    ensures Field(waitcnt, 1) == waitcnt % 4 && Bit(waitcnt, 0x4000) == waitcnt / 0x4000 % 2
  {
  }

  lemma ZeroBit(place: nat)
    requires place > 0
    ensures Bit(0, place) == 0
  {
  }

  lemma DerivedHas(t: Waits)
    requires Derived(t)
    ensures t.WF() && 1 <= t.n16[2] <= 15 && OneWait(t, 2, 3, t.n16[2]) && t.n16[3] == t.s16[3] == t.n32[3] == t.s32[3] == 0
  {
  }

  lemma SameEwram(t: Waits, u: Waits, n: nat)
    requires t.WF() && u.WF() && SameIn(u, t, 0, 8) && OneWait(t, 2, 3, n)
    ensures OneWait(u, 2, 3, n)
  {
  }

  /** The tables before WAITCNT is applied, after its save-memory field and after each window. */
  lemma WindowsGive(before: Waits, t: Waits, u: Waits, v: Waits, w: Waits, waitcnt: nat, sram: nat)
    requires before.WF() && t.WF() && u.WF() && v.WF() && w.WF()
    requires SameIn(t, before, 0, 14) && OneWait(t, 14, 16, sram)
    requires Window(u, 8, 10, ROM_N[Field(waitcnt, 4)], ROM_S[Bit(waitcnt, 16)]) && SameIn(u, t, 0, 8) && SameIn(u, t, 10, 16)
    requires Window(v, 10, 12, ROM_N[Field(waitcnt, 32)], ROM_S[Bit(waitcnt, 128) + 2])
    requires SameIn(v, u, 0, 10) && SameIn(v, u, 12, 16)
    requires Window(w, 12, 14, ROM_N[Field(waitcnt, 256)], ROM_S[Bit(waitcnt, 1024) + 4])
    requires SameIn(w, v, 0, 12) && SameIn(w, v, 14, 16)
    ensures FromWaitcnt(w, waitcnt) && SameIn(w, before, 0, 8) && OneWait(w, 14, 16, sram)
  {
    hide Field, Bit;
  }

  /** The prefetch bit is apart from the waits. */
  lemma PrefetchApart(t: Waits, prefetch: bool, before: Waits, waitcnt: nat, sram: nat)
    requires t.WF() && before.WF() && FromWaitcnt(t, waitcnt) && SameIn(t, before, 0, 8) && OneWait(t, 14, 16, sram)
    ensures var u := t.(prefetch := prefetch);
            u.WF() && FromWaitcnt(u, waitcnt) && SameIn(u, before, 0, 8) && OneWait(u, 14, 16, sram)
  {
    hide RomWaits;
  }

  class WaitTable {
    var waits: Waits

    /** One entry of the table. */
    method Set(r: nat, n: Byte, s: Byte, nWide: Byte, sWide: Byte)
      requires waits.WF() && r < 16
      modifies this
      ensures waits == Waits(old(waits).n16[r := n], old(waits).s16[r := s],
                             old(waits).n32[r := nWide], old(waits).s32[r := sWide], old(waits).prefetch)
    {
      waits := waits.(n16 := waits.n16[r := n]);
      waits := waits.(s16 := waits.s16[r := s]);
      waits := waits.(n32 := waits.n32[r := nWide]);
      waits := waits.(s32 := waits.s32[r := sWide]);
    }

    /** `set_rom_window`: the two regions of one window. */
    method SetRomWindow(first: nat, n: Byte, s: Byte)
      requires waits.WF() && first + 2 <= 16 && n <= 8 && s <= 8
      modifies this
      ensures waits.WF() && Window(waits, first, first + 2, n, s)
      ensures SameIn(waits, old(waits), 0, first) && SameIn(waits, old(waits), first + 2, 16)
      ensures waits.prefetch == old(waits).prefetch
    {
      for r := first to first + 2
        invariant waits.WF() && Window(waits, first, r, n, s)
        invariant SameIn(waits, old(waits), 0, first) && SameIn(waits, old(waits), r, 16)
        invariant waits.prefetch == old(waits).prefetch
      {
        Set(r, n, s, n + 1 + s, 2 * s + 1);
      }
    }

    /** The save memory's part of it. */
    method SetSaveMemory(n: Byte)
      requires waits.WF() && n <= 8
      modifies this
      ensures waits.WF() && OneWait(waits, 14, 16, n) && SameIn(waits, old(waits), 0, 14)
      ensures waits.prefetch == old(waits).prefetch
    {
      for r := 14 to 16
        invariant waits.WF() && OneWait(waits, 14, r, n) && SameIn(waits, old(waits), 0, 14)
        invariant waits.prefetch == old(waits).prefetch
      {
        Set(r, n, n, 2 * n + 1, 2 * n + 1);
      }
    }

    /** `waits_apply_waitcnt`. */
    method ApplyWaitcnt(waitcnt: nat)
      requires waits.WF() && waitcnt < 0x1_0000
      modifies this
      ensures waits.WF() && (waits.prefetch <==> waitcnt / 0x4000 % 2 == 1)
      ensures FromWaitcnt(waits, waitcnt)
      ensures SameIn(waits, old(waits), 0, 8) && OneWait(waits, 14, 16, [4, 3, 2, 8][waitcnt % 4])
    {
      hide FromWaitcnt, Window, OneWait, SameIn, RomWaits, Field, Bit;
      LowControl(waitcnt);
      SetSaveMemory(ROM_N[Field(waitcnt, 1)]);
      ghost var t := waits;
      SetRomWindow(8, ROM_N[Field(waitcnt, 4)], ROM_S[Bit(waitcnt, 16)]);
      ghost var u := waits;
      SetRomWindow(10, ROM_N[Field(waitcnt, 32)], ROM_S[Bit(waitcnt, 128) + 2]);
      ghost var v := waits;
      SetRomWindow(12, ROM_N[Field(waitcnt, 256)], ROM_S[Bit(waitcnt, 1024) + 4]);
      WindowsGive(old(waits), t, u, v, waits, waitcnt, [4, 3, 2, 8][waitcnt % 4]);
      PrefetchApart(waits, Bit(waitcnt, 0x4000) == 1, old(waits), waitcnt, [4, 3, 2, 8][waitcnt % 4]);
      waits := waits.(prefetch := Bit(waitcnt, 0x4000) == 1);
    }

    /** `waits_apply_memctl`; false is a value that is not accepted. */
    method ApplyMemctl(memctl: U32) returns (ok: bool)
      requires waits.WF()
      modifies this
      ensures waits.WF() && waits.prefetch == old(waits).prefetch && (ok <==> memctl / 0x100_0000 % 16 != 15)
      ensures !ok ==> waits == old(waits)
      ensures ok ==> OneWait(waits, 2, 3, 15 - memctl / 0x100_0000 % 16)
      ensures ok ==> waits.n16[2] == waits.s16[2] == 15 - memctl / 0x100_0000 % 16
      ensures ok ==> waits.n32[2] == waits.s32[2] == 31 - 2 * (memctl / 0x100_0000 % 16)
      ensures SameIn(waits, old(waits), 0, 2) && SameIn(waits, old(waits), 3, 16)
    {
      var wait := 15 - memctl / 0x100_0000 % 16;
      ok := wait != 0;
      if ok {
        Set(2, wait, wait, 2 * wait + 1, 2 * wait + 1);
      }
    }

    /** `waits_reset`. */
    method Reset()
      modifies this
      ensures Derived(waits) && !waits.prefetch && waits.n16[2] == 2 && FromWaitcnt(waits, 0)
    {
      hide RomWaits, Bit, Field, FromWaitcnt, SameIn, Derived;
      waits := BaseWaits();
      ApplyWaitcnt(0);
      ghost var u := waits;
      var ok := ApplyMemctl(0x0D00_0020);
      ControlledIsDerived(BaseWaits(), u, waits, 0, 2);
      ZeroBit(0x4000);
    }

    /** Any write to WAITCNT and to the memory control keeps the table derived. */
    method Control(waitcnt: nat, memctl: U32)
      requires Derived(waits) && waitcnt < 0x1_0000
      modifies this
      ensures Derived(waits) && (waits.prefetch <==> waitcnt / 0x4000 % 2 == 1)
      ensures FromWaitcnt(waits, waitcnt)
    {
      DerivedHas(waits);
      hide RomWaits, Field, Bit, FromWaitcnt, SameIn, Derived, OneWait;
      ghost var t := waits;
      ApplyWaitcnt(waitcnt);
      ghost var u := waits;
      var ok := ApplyMemctl(memctl);
      SameEwram(t, u, t.n16[2]);
      ControlledIsDerived(t, u, waits, waitcnt, if ok then 15 - memctl / 0x100_0000 % 16 else t.n16[2]);
    }
  }

  function CodeWait(t: Waits, pc: U32, thumb: bool, sequential: bool): nat
    requires t.WF()
  {
    var r := Region(pc);
    if r > 15 then 0
    else if thumb then if sequential then t.s16[r] else t.n16[r]
    else if sequential then t.s32[r] else t.n32[r]
  }

  /** An opcode fetch is a halfword or a word by the processor state; outside the table it costs nothing. */
  lemma CodeWaitExact(t: Waits, pc: U32, sequential: bool)
    requires t.WF()
    ensures pc >= 0x1000_0000 ==> CodeWait(t, pc, true, sequential) == CodeWait(t, pc, false, sequential) == 0
    ensures pc < 0x1000_0000 ==>
              var r := pc / 0x100_0000;
              && CodeWait(t, pc, true, sequential) == (if sequential then t.s16[r] else t.n16[r])
              && CodeWait(t, pc, false, sequential) == (if sequential then t.s32[r] else t.n32[r])
    ensures Derived(t) && 0x800_0000 <= pc < 0xE00_0000 ==>
              CodeWait(t, pc, false, sequential) == CodeWait(t, pc, true, sequential) + 1 + CodeWait(t, pc, true, true)
  {
  }

  // ── The prefetch stall ────────────────────────────────────────────

  /** Whether the buffer is at work for the instruction at `pc`. */
  predicate Prefetching(t: Waits, pc: U32) { 8 <= Region(pc) <= 13 && t.prefetch }

  /** Halfwords a previous stall left in the buffer. */
  function PreviousLoads(last: U32, pipe: U32): (n: nat)
    ensures n <= 7
  {
    var dist := (last - pipe) % TWO_32;
    if dist < 16 then dist / 2 else 0
  }

  /** The fetches the buffer completes: the fewest that cover the wait, at least one, at most `most`. */
  ghost predicate Loads(s: nat, wait: int, most: nat, loads: nat) {
    && 1 <= loads <= most
    && (loads == most || s * loads + 1 >= wait)
    && (loads > 1 ==> s * (loads - 1) + 1 < wait)
  }

  lemma LoadsUnique(s: nat, wait: int, most: nat, a: nat, b: nat)
    requires Loads(s, wait, most, a) && Loads(s, wait, most, b)
    ensures a == b
  {
    if a < b {
      Grows(s, a, b - 1);
    } else if b < a {
      Grows(s, b, a - 1);
    }
  }

  lemma Grows(s: nat, a: nat, b: nat)
    requires a <= b
    ensures s * a <= s * b
  {
    assert s * b == s * a + s * (b - a);
  }

  /** What a stall of `wait` cycles is worth once the buffer has made `loads` fetches. */
  function Adjusted(n: int, s: nat, wait: int, loads: nat): int {
    Max(0, wait - (s * loads + 1)) - (n - s)
  }

  /**
   The account of a stall: what it is charged, the next fetch at its non-sequential price and the
   further fetches already done come to the longer of the wait and the buffer's fetches, less one.
   */
  lemma StallAccounts(n: nat, s: nat, wait: int, loads: nat)
    requires loads >= 1
    ensures s * loads == s * (loads - 1) + s
    ensures Adjusted(n, s, wait, loads) + n + s * (loads - 1) == (if wait > s * loads + 1 then wait else s * loads + 1) - 1
  {
    assert s * loads == s * (loads - 1) + s;
  }

  /** What is in the buffer already: half the distance of the head from the pipeline PC, if it is less than sixteen bytes ahead. */
  lemma PreviousExact(pipe: U32, ahead: nat)
    requires ahead < 0x1_0000_0000
    ensures PreviousLoads((pipe + ahead) % 0x1_0000_0000, pipe) == if ahead >= 16 then 0 else ahead / 2
  {
    assert ((pipe + ahead) % TWO_32 - pipe) % TWO_32 == ahead;
  }

  lemma NextFetch(s: int, n: int)
    ensures s * (n + 1) + 1 == s * n + 1 + s && s * (n + 1 - 1) + 1 == s * n + 1
  {
  }

  lemma StallEnds(n16: nat, s: nat, wait: int, most: nat, n: nat, stall: int)
    requires 1 <= n <= most && stall == s * n + 1 && (n > 1 ==> s * (n - 1) + 1 < wait) && (stall >= wait || n == most)
    ensures Loads(s, wait, most, n)
    ensures (if stall > wait then stall else wait) - (n16 - s) - stall == Adjusted(n16, s, wait, n)
  {
  }

  class PrefetchBuffer {
    const waits: Waits
    var last: U32

    constructor (waits: Waits, last: U32)
      ensures this.waits == waits && this.last == last
    {
      this.waits, this.last := waits, last;
    }

    /** `rwt_prefetch_stall`. */
    method Stall(wait: int, insnPc: U32, thumb: bool) returns (adjusted: int, ghost loads: nat)
      requires waits.WF()
      modifies this
      ensures Prefetching(waits, insnPc) <==> 0x800_0000 <= insnPc < 0xE00_0000 && waits.prefetch
      ensures !Prefetching(waits, insnPc) ==> adjusted == wait && last == old(last)
      ensures Prefetching(waits, insnPc) ==>
                var r, pipe := insnPc / 0x100_0000, (insnPc + if thumb then 4 else 8) % 0x1_0000_0000;
                var before := PreviousLoads(old(last), pipe);
                && Loads(waits.s16[r], wait, 8 - before, loads)
                && adjusted == Adjusted(waits.n16[r], waits.s16[r], wait, loads)
                && last == NextHead(old(last), pipe, loads)
    {
      hide Loads, Adjusted;
      var region := Region(insnPc);
      if region < 8 || region > 13 || !waits.prefetch {
        return wait, 1;
      }
      var pc := (insnPc + if thumb then 4 else 8) % TWO_32;
      var previous, most := 0, 8;
      var dist := (last - pc) % TWO_32;
      if dist < 16 {
        previous := dist / 2;
        most := most - previous;
      }
      var s: int := waits.s16[region];
      var stall, n := s + 1, 1;
      while stall < wait && n < most
        invariant 1 <= n <= most && stall == s * n + 1
        invariant n > 1 ==> s * (n - 1) + 1 < wait
        decreases most - n
      {
        NextFetch(s, n);
        stall := stall + s;
        n := n + 1;
      }
      StallEnds(waits.n16[region], waits.s16[region], wait, most, n, stall);
      last := (pc + 2 * (n + previous - 1)) % TWO_32;
      adjusted := wait;
      if stall > adjusted { adjusted := stall; }
      adjusted := adjusted - (waits.n16[region] - s);
      adjusted := adjusted - stall;
      loads := n;
    }
  }

  /** The number of fetches in closed form: one if that covers the wait, else what divides into it. */
  function Fetches(s: nat, wait: int, most: nat): nat {
    if wait <= s + 1 then 1
    else if s == 0 then most
    else Min(most, (wait + s - 2) / s)
  }

  lemma FetchesCover(s: nat, wait: int, most: nat)
    requires most >= 1
    ensures Loads(s, wait, most, Fetches(s, wait, most))
  {
    if s > 0 && wait > s + 1 {
      var n := (wait + s - 2) / s;
      assert s * n <= wait + s - 2 < s * n + s;
      assert s * (n - 1) == s * n - s;
      Grows(s, Fetches(s, wait, most) - 1, n - 1);
      assert n >= 2 by {
        if n < 2 { Grows(s, n, 1); }
      }
    }
  }

  /** So a stall makes exactly that many fetches: its result and the new head are determined by what it is given. */
  lemma LoadsExact(s: nat, wait: int, most: nat, loads: nat)
    requires most >= 1
    ensures Loads(s, wait, most, loads) <==> loads == Fetches(s, wait, most)
  {
    FetchesCover(s, wait, most);
    if Loads(s, wait, most, loads) {
      LoadsUnique(s, wait, most, loads, Fetches(s, wait, most));
    }
    hide Fetches;
  }

  /** Where the head stands after a stall that made `loads` fetches. */
  function NextHead(last: U32, pipe: U32, loads: nat): U32 { (pipe + 2 * (loads + PreviousLoads(last, pipe) - 1)) % TWO_32 }

  /**
   The prefetch head after a stall is 0 to 14 bytes past the pipeline PC, an even distance, and
   even for an even PC. A head that was there already keeps its place or gets ahead exactly if
   its distance was even, or there was room for two fetches and a wait that one does not cover.
   */
  lemma HeadStaysAhead(s: nat, wait: int, last: U32, pipe: U32, loads: nat)
    requires Loads(s, wait, 8 - PreviousLoads(last, pipe), loads)
    ensures var head := NextHead(last, pipe, loads);
            var before, after := (last - pipe) % TWO_32, (head - pipe) % TWO_32;
            && after <= 14 && after % 2 == 0 && (pipe % 2 == 0 ==> head % 2 == 0)
            && (before < 16 ==> (after >= before <==> before % 2 == 0 || (before < 14 && s + 1 < wait)))
  {
    var dist, previous := (last - pipe) % TWO_32, PreviousLoads(last, pipe);
    HeadWraps(pipe, loads + previous - 1);
    HeadMoves(s, wait, dist, previous, loads);
    hide Loads;
  }

  /** A head up to seven halfwords past the pipeline PC. */
  lemma HeadWraps(pipe: U32, ahead: nat)
    requires ahead <= 7
    ensures var head := (pipe + 2 * ahead) % TWO_32;
            (head - pipe) % TWO_32 == 2 * ahead && (pipe % 2 == 0 ==> head % 2 == 0)
  {
    var head := (pipe + 2 * ahead) % TWO_32;
    assert head == if pipe + 2 * ahead < TWO_32 then pipe + 2 * ahead else pipe + 2 * ahead - TWO_32;
  }

  lemma HeadMoves(s: nat, wait: int, dist: nat, previous: nat, loads: nat)
    requires previous == (if dist < 16 then dist / 2 else 0) && Loads(s, wait, 8 - previous, loads)
    ensures loads + previous - 1 <= 7
    ensures dist < 16 ==> (2 * (loads + previous - 1) >= dist <==> dist % 2 == 0 || (dist < 14 && s + 1 < wait))
  {
    if loads > 1 {
      Grows(s, 1, loads - 1);
    }
  }

  /** A head one byte ahead, which no stall leaves but a restored snapshot can, moves back on a wait that one fetch covers. */
  lemma OddHeadMovesBack(s: nat, wait: int, pipe: U32)
    requires wait <= s + 1
    ensures Loads(s, wait, 8 - PreviousLoads((pipe + 1) % TWO_32, pipe), 1)
    ensures NextHead((pipe + 1) % TWO_32, pipe, 1) == pipe
  {
    assert ((pipe + 1) % TWO_32 - pipe) % TWO_32 == 1;
  }

  /** A stall never adds more than one sequential fetch to its wait, nor takes back more than the wait and N - S. */
  lemma AdjustmentBounds(n: nat, s: nat, wait: nat, most: nat, loads: nat)
    requires Loads(s, wait, most, loads)
    ensures Adjusted(n, s, wait, loads) <= wait + s
    ensures Adjusted(n, s, wait, loads) + n >= s
  {
    Grows(s, 0, loads);
  }

  // ── Admitted accesses ─────────────────────────────────────────────

  function RamMask(region: nat): nat { if region == 2 then 0x3_FFFF else 0x7FFF }

  /** `ram_range`: the access stays inside EWRAM or IWRAM after mirroring. */
  predicate RamRange(address: U32, bytes: nat) {
    && (Region(address) == 2 || Region(address) == 3)
    && address % (RamMask(Region(address)) + 1) <= RamMask(Region(address)) + 1 - bytes
  }

  /** `memory_range`. */
  predicate MemoryRange(address: U32, bytes: nat, write: bool, romBytes: nat) {
    RamRange(address, bytes) ||
    (!write && 8 <= Region(address) <= 12 &&
     var offset := address % 0x200_0000;
     offset <= romBytes && bytes <= romBytes - offset && !(offset < 0xCC && offset + bytes > 0xC0))
  }

  predicate GpioRegister(offset: nat) { 0xC0 <= offset < 0xCC }

  /**
   An admitted access touches only bytes that exist, never the GPIO registers at
   C0h-CBh of the cartridge, and only the regions the bound accounts for.
   */
  lemma AdmittedInBounds(address: U32, bytes: nat, write: bool, romBytes: nat)
    requires MemoryRange(address, bytes, write, romBytes)
    ensures Region(address) in {2, 3, 8, 9, 10, 11, 12}
    ensures Region(address) < 8 ==> address % (RamMask(Region(address)) + 1) + bytes <= RamMask(Region(address)) + 1
    ensures Region(address) >= 8 ==>
              && !write && address % 0x200_0000 + bytes <= romBytes
              && forall k :: address % 0x200_0000 <= k < address % 0x200_0000 + bytes ==> !GpioRegister(k)
  {
  }

  /**
   And these are all: an access of at least a byte is admitted exactly if it stays within the
   256 KiB of EWRAM or the 32 KiB of IWRAM after mirroring, or reads bytes of the cartridge that
   exist, none of them a GPIO register, below region 13.
   */
  lemma AdmittedExact(address: U32, bytes: nat, write: bool, romBytes: nat)
    requires bytes > 0
    ensures MemoryRange(address, bytes, write, romBytes) <==>
            var region, offset := address / 0x100_0000, address % 0x200_0000;
            || (region == 2 && address % 0x4_0000 + bytes <= 0x4_0000)
            || (region == 3 && address % 0x8000 + bytes <= 0x8000)
            || (8 <= region <= 12 && !write && offset + bytes <= romBytes
                && forall k :: offset <= k < offset + bytes ==> !GpioRegister(k))
  {
    var offset := address % 0x200_0000;
    if offset < 0xCC && offset + bytes > 0xC0 {
      assert GpioRegister(if offset >= 0xC0 then offset else 0xC0);
    }
  }

  // ── The region bound ──────────────────────────────────────────────

  function Max4(a: int, b: int, c: int, d: int): int { Max(Max(a, b), Max(c, d)) }

  /** The dearest opcode fetch in region `r`. */
  function FetchBound(t: Waits, r: nat): nat
    requires t.WF() && r < 16
  {
    Max4(t.n16[r], t.s16[r], t.n32[r], t.s32[r])
  }

  /** The dearest non-sequential data wait of EWRAM, IWRAM and cartridge regions 8 to `last`. */
  function DataBound(t: Waits, last: nat): nat
    requires t.WF() && 7 <= last <= 12
  {
    if last == 7 then Max4(t.n16[2], t.n32[2], t.n16[3], t.n32[3])
    else Max(DataBound(t, last - 1), Max(t.n16[last], t.n32[last]))
  }

  function PerInstruction(t: Waits, r: nat): nat
    requires t.WF() && r < 16
  {
    8 + FetchBound(t, r) + DataBound(t, 12) + t.s16[r]
  }

  /** The two maxima of the bound are waits that occur: of a fetch in the region, and of an access the region may make. */
  lemma {:induction false} BoundsAttained(t: Waits, r: nat, last: nat)
    requires t.WF() && r < 16 && 7 <= last <= 12
    ensures FetchBound(t, r) in [t.n16[r], t.s16[r], t.n32[r], t.s32[r]]
    ensures t.n16[r] <= FetchBound(t, r) && t.s16[r] <= FetchBound(t, r)
    ensures t.n32[r] <= FetchBound(t, r) && t.s32[r] <= FetchBound(t, r)
    ensures exists k :: k in [2, 3, 8, 9, 10, 11, 12] && k <= last && (DataBound(t, last) == t.n16[k] || DataBound(t, last) == t.n32[k])
    decreases last
  {
    if last == 7 {
      assert 2 in [2, 3, 8, 9, 10, 11, 12] && 3 in [2, 3, 8, 9, 10, 11, 12];
    } else {
      BoundsAttained(t, r, last - 1);
      assert last in [2, 3, 8, 9, 10, 11, 12];
    }
  }

  /** The bound per instruction: eight cycles, the dearest fetch, the dearest access and one more sequential fetch. */
  lemma PerInstructionExact(t: Waits, r: nat)
    requires t.WF() && r < 16
    ensures PerInstruction(t, r) == 8 + FetchBound(t, r) + DataBound(t, 12) + t.s16[r]
  {
  }

  /** `runtime_native_region_bound`, loop and all. */
  method RegionBound(t: Waits, count: U32, pc: U32) returns (bound: U32)
    requires t.WF() && Region(pc) < 16
    ensures bound == count * PerInstruction(t, Region(pc)) % TWO_32
  {
    var r := Region(pc);
    var fetch := Max4(t.n16[r], t.s16[r], t.n32[r], t.s32[r]);
    var data := Max4(t.n16[2], t.n32[2], t.n16[3], t.n32[3]);
    for region := 8 to 13
      invariant data == DataBound(t, region - 1)
    {
      data := Max(data, Max(t.n16[region], t.n32[region]));
    }
    bound := count * (8 + fetch + data + t.s16[r]) % TWO_32;
  }

  lemma {:induction false} DataBoundCovers(t: Waits, last: nat, region: nat)
    requires t.WF() && 7 <= last <= 12 && region in {2, 3, 8, 9, 10, 11, 12} && region <= last
    ensures t.n16[region] <= DataBound(t, last) && t.n32[region] <= DataBound(t, last)
  {
    if last > 7 && region != last {
      DataBoundCovers(t, last - 1, region);
    }
  }

  /** A data access of an instruction and the wait it reports to the prefetch buffer. */
  datatype Access = Access(address: U32, wide: bool, write: bool, stall: nat)

  /** One straight-line instruction: its fixed cycles (data base cycle included) and how it fetches. */
  datatype Insn = Insn(fixed: nat, sequential: bool, access: Option<Access>)

  /** The region of the access has an entry in the wait table. */
  predicate InTable(i: Insn) { i.access.Some? ==> Region(i.access.value.address) < 16 }

  predicate Admitted(i: Insn, romBytes: nat): (admitted: bool)
    ensures admitted ==> InTable(i)
  {
    && i.fixed <= 8
    && (i.access.Some? ==>
          MemoryRange(i.access.value.address, if i.access.value.wide then 4 else 1, i.access.value.write, romBytes))
  }

  predicate AllInTable(insns: seq<Insn>) { forall i :: i in insns ==> InTable(i) }

  predicate AllAdmitted(insns: seq<Insn>, romBytes: nat): (admitted: bool)
    ensures admitted ==> AllInTable(insns)
  {
    forall i :: i in insns ==> Admitted(i, romBytes)
  }

  function DataWait(t: Waits, a: Option<Access>): nat
    requires t.WF() && (a.Some? ==> Region(a.value.address) < 16)
  {
    if a.None? then 0
    else if a.value.wide then t.n32[Region(a.value.address)] else t.n16[Region(a.value.address)]
  }

  /** Whether `runtime_prefetch_adjust` asks the buffer about this instruction. */
  predicate Adjusts(t: Waits, i: Insn) {
    i.access.Some? && t.prefetch && i.access.value.address < 0x800_0000
  }

  /** The cost of one instruction whose prefetch adjustment is `adjust`. */
  function Cost(t: Waits, pc: U32, thumb: bool, i: Insn, adjust: int): int
    requires t.WF() && InTable(i)
  {
    i.fixed + CodeWait(t, pc, thumb, i.sequential) + DataWait(t, i.access) + adjust
  }

  /** `adjust` is what the buffer can answer for the instruction, wherever its head is. */
  ghost predicate PossibleAdjust(t: Waits, pc: U32, i: Insn, adjust: int)
    requires t.WF()
  {
    if Adjusts(t, i) && Prefetching(t, pc) then
      exists most: nat, loads: nat ::
        most <= 8 && Loads(t.s16[Region(pc)], i.access.value.stall, most, loads) &&
        adjust == Adjusted(t.n16[Region(pc)], t.s16[Region(pc)], i.access.value.stall, loads) - i.access.value.stall
    else adjust == 0
  }

  /**
   What an instruction costs: its fixed cycles, its fetch and its data wait by width and region;
   the buffer is asked only after an access outside the cartridge and the save memory, with
   prefetch on and code in the cartridge.
   */
  lemma CostExact(t: Waits, pc: U32, thumb: bool, i: Insn, adjust: int)
    requires t.WF() && InTable(i) && PossibleAdjust(t, pc, i, adjust)
    ensures i.access.None? || i.access.value.address >= 0x800_0000 || !t.prefetch || !(0x800_0000 <= pc < 0xE00_0000) ==> adjust == 0
    ensures i.access.None? ==> Cost(t, pc, thumb, i, adjust) == i.fixed + CodeWait(t, pc, thumb, i.sequential)
    ensures i.access.Some? ==>
              var a := i.access.value; var r := a.address / 0x100_0000;
              Cost(t, pc, thumb, i, adjust) ==
              i.fixed + CodeWait(t, pc, thumb, i.sequential) + (if a.wide then t.n32[r] else t.n16[r]) + adjust
  {
  }

  lemma CostBound(t: Waits, pc: U32, thumb: bool, i: Insn, adjust: int, romBytes: nat)
    requires t.WF() && Region(pc) < 16 && Admitted(i, romBytes) && PossibleAdjust(t, pc, i, adjust)
    ensures Cost(t, pc, thumb, i, adjust) <= PerInstruction(t, Region(pc))
  {
    if i.access.Some? {
      var a := i.access.value;
      AdmittedInBounds(a.address, if a.wide then 4 else 1, a.write, romBytes);
      DataBoundCovers(t, 12, Region(a.address));
      if Adjusts(t, i) && Prefetching(t, pc) {
        var most: nat, loads: nat :|
          most <= 8 && Loads(t.s16[Region(pc)], a.stall, most, loads) &&
          adjust == Adjusted(t.n16[Region(pc)], t.s16[Region(pc)], a.stall, loads) - a.stall;
        AdjustmentBounds(t.n16[Region(pc)], t.s16[Region(pc)], a.stall, most, loads);
      }
    }
  }

  /** The instruction charges a non-sequential fetch when it accesses data, and stalls no longer than it is charged for. */
  predicate ChargedInFull(t: Waits, i: Insn)
    requires t.WF() && InTable(i)
  {
    i.access.Some? ==> !i.sequential && i.access.value.stall <= i.fixed + DataWait(t, i.access)
  }

  lemma CostNonNegative(t: Waits, pc: U32, thumb: bool, i: Insn, adjust: int)
    requires t.WF() && Region(pc) < 16 && PossibleAdjust(t, pc, i, adjust)
    requires InTable(i)
    requires ChargedInFull(t, i) && t.n16[Region(pc)] <= t.n32[Region(pc)]
    ensures 0 <= Cost(t, pc, thumb, i, adjust)
  {
    if Adjusts(t, i) && Prefetching(t, pc) {
      var a := i.access.value;
      var most: nat, loads: nat :|
        most <= 8 && Loads(t.s16[Region(pc)], a.stall, most, loads) &&
        adjust == Adjusted(t.n16[Region(pc)], t.s16[Region(pc)], a.stall, loads) - a.stall;
      AdjustmentBounds(t.n16[Region(pc)], t.s16[Region(pc)], a.stall, most, loads);
    }
  }

  /** The sum of the costs of instructions `from` on, with adjustments `adjusts`. */
  function Total(t: Waits, pcs: seq<U32>, thumb: bool, insns: seq<Insn>, adjusts: seq<int>): int
    requires t.WF() && |pcs| == |insns| == |adjusts|
    requires AllInTable(insns)
    decreases |insns|
  {
    if insns == [] then 0
    else
      var last := |insns| - 1;
      Total(t, pcs[..last], thumb, insns[..last], adjusts[..last]) + Cost(t, pcs[last], thumb, insns[last], adjusts[last])
  }

  lemma TotalOneMore(t: Waits, pcs: seq<U32>, thumb: bool, insns: seq<Insn>, adjusts: seq<int>, adjust: int)
    requires t.WF() && |pcs| == |insns| && |adjusts| < |insns|
    requires AllInTable(insns)
    ensures var k := |adjusts|;
            Total(t, pcs[..k + 1], thumb, insns[..k + 1], adjusts + [adjust]) ==
            Total(t, pcs[..k], thumb, insns[..k], adjusts) + Cost(t, pcs[k], thumb, insns[k], adjust)
  {
    var k := |adjusts|;
    assert pcs[..k + 1][..k] == pcs[..k];
    assert insns[..k + 1][..k] == insns[..k];
    assert (adjusts + [adjust])[..k] == adjusts;
  }

  lemma ModSum(total: int, part: int, adjust: int)
    ensures (total % TWO_32 + (part + adjust % TWO_32) % TWO_32) % TWO_32 == (total + part + adjust) % TWO_32
  {
  }

  /** One instruction of a region: `runtime_prefetch_adjust` and `runtime_tick`, in 32-bit arithmetic. */
  method Tick(buffer: PrefetchBuffer, pc: U32, thumb: bool, i: Insn, cycles: U32, ghost total: int)
    returns (after: U32, ghost adjust: int)
    requires buffer.waits.WF() && InTable(i)
    requires cycles == total % TWO_32
    modifies buffer
    ensures PossibleAdjust(buffer.waits, pc, i, adjust)
    ensures after == (total + Cost(buffer.waits, pc, thumb, i, adjust)) % TWO_32
  {
    var delta := 0;
    if Adjusts(buffer.waits, i) {
      var stalled, loads := buffer.Stall(i.access.value.stall, pc, thumb);
      delta := stalled - i.access.value.stall;
    }
    adjust := delta;
    var part := i.fixed + CodeWait(buffer.waits, pc, thumb, i.sequential) + DataWait(buffer.waits, i.access);
    var elapsed := (part + delta % TWO_32) % TWO_32;
    after := (cycles + elapsed) % TWO_32;
    ModSum(total, part, delta);
  }

  /** A region's run: its counter is the total of its instructions' costs, modulo 2^32. */
  method RunRegion(buffer: PrefetchBuffer, pcs: seq<U32>, thumb: bool, insns: seq<Insn>)
    returns (cycles: U32, ghost adjusts: seq<int>)
    requires buffer.waits.WF() && |pcs| == |insns|
    requires AllInTable(insns)
    modifies buffer
    ensures |adjusts| == |insns|
    ensures forall k :: 0 <= k < |insns| ==> PossibleAdjust(buffer.waits, pcs[k], insns[k], adjusts[k])
    ensures cycles == Total(buffer.waits, pcs, thumb, insns, adjusts) % TWO_32
  {
    cycles, adjusts := 0, [];
    for k := 0 to |insns|
      invariant |adjusts| == k
      invariant forall j :: 0 <= j < k ==> PossibleAdjust(buffer.waits, pcs[j], insns[j], adjusts[j])
      invariant cycles == Total(buffer.waits, pcs[..k], thumb, insns[..k], adjusts) % TWO_32
    {
      ghost var total := Total(buffer.waits, pcs[..k], thumb, insns[..k], adjusts);
      ghost var adjust;
      cycles, adjust := Tick(buffer, pcs[k], thumb, insns[k], cycles, total);
      TotalOneMore(buffer.waits, pcs, thumb, insns, adjusts, adjust);
      adjusts := adjusts + [adjust];
    }
    assert pcs[..|insns|] == pcs && insns[..|insns|] == insns;
  }

  /** Straight-line admitted code in one region costs at most the bound that admitted it, wherever the prefetch buffer was. */
  lemma {:induction false} RegionWithinBound(t: Waits, r: nat, pcs: seq<U32>, thumb: bool, insns: seq<Insn>, adjusts: seq<int>, romBytes: nat)
    requires t.WF() && r < 16 && |pcs| == |insns| == |adjusts|
    requires AllAdmitted(insns, romBytes)
    requires forall k :: 0 <= k < |pcs| ==> Region(pcs[k]) == r && PossibleAdjust(t, pcs[k], insns[k], adjusts[k])
    ensures Total(t, pcs, thumb, insns, adjusts) <= |insns| * PerInstruction(t, r)
    decreases |insns|
  {
    if insns != [] {
      var last := |insns| - 1;
      RegionWithinBound(t, r, pcs[..last], thumb, insns[..last], adjusts[..last], romBytes);
      CostBound(t, pcs[last], thumb, insns[last], adjusts[last], romBytes);
      OneMore(last, PerInstruction(t, r));
    }
  }

  lemma OneMore(n: nat, each: nat)
    ensures (n + 1) * each == n * each + each
  {
  }

  /** With its stalls charged in full a region's total never dips below zero on the way. */
  lemma {:induction false} RegionNonNegative(t: Waits, r: nat, pcs: seq<U32>, thumb: bool, insns: seq<Insn>, adjusts: seq<int>)
    requires t.WF() && r < 16 && |pcs| == |insns| == |adjusts| && t.n16[r] <= t.n32[r]
    requires AllInTable(insns) && forall i :: i in insns ==> ChargedInFull(t, i)
    requires forall k :: 0 <= k < |pcs| ==> Region(pcs[k]) == r && PossibleAdjust(t, pcs[k], insns[k], adjusts[k])
    ensures 0 <= Total(t, pcs, thumb, insns, adjusts)
    decreases |insns|
  {
    if insns != [] {
      var last := |insns| - 1;
      RegionNonNegative(t, r, pcs[..last], thumb, insns[..last], adjusts[..last]);
      CostNonNegative(t, pcs[last], thumb, insns[last], adjusts[last]);
    }
  }

  /** A derived table never makes a halfword dearer than a word, and keeps any admitted bound far below 2^32. */
  lemma DerivedBounds(t: Waits, r: nat)
    requires Derived(t) && 8 <= r <= 13
    ensures t.n16[r] <= t.n32[r] && PerInstruction(t, r) <= 64
  {
    DataAtMost(t, 12);
  }

  lemma {:induction false} DataAtMost(t: Waits, last: nat)
    requires Derived(t) && 7 <= last <= 12
    ensures DataBound(t, last) <= 31
  {
    if last > 7 {
      DataAtMost(t, last - 1);
    }
  }

  /** So the 32-bit counter of an admitted region is its exact cost, and within the 32-bit bound. */
  lemma CounterWithinBound(t: Waits, r: nat, pcs: seq<U32>, thumb: bool, insns: seq<Insn>, adjusts: seq<int>, romBytes: nat)
    requires t.WF() && r < 16 && |pcs| == |insns| == |adjusts| && t.n16[r] <= t.n32[r]
    requires AllAdmitted(insns, romBytes) && forall i :: i in insns ==> ChargedInFull(t, i)
    requires forall k :: 0 <= k < |pcs| ==> Region(pcs[k]) == r && PossibleAdjust(t, pcs[k], insns[k], adjusts[k])
    requires |insns| * PerInstruction(t, r) < TWO_32
    ensures Total(t, pcs, thumb, insns, adjusts) % TWO_32 == Total(t, pcs, thumb, insns, adjusts)
    ensures Total(t, pcs, thumb, insns, adjusts) % TWO_32 <= |insns| * PerInstruction(t, r) % TWO_32
  {
    RegionWithinBound(t, r, pcs, thumb, insns, adjusts, romBytes);
    RegionNonNegative(t, r, pcs, thumb, insns, adjusts);
    hide Total, PerInstruction;
  }

  /**
   An admitted region from admission to settlement: the bound for `count` instructions is taken
   from a table WAITCNT and the memory control have set, the instructions before the first
   unsupported access run, and the counter is then exactly their cost, so that the settlement's
   test of the cycles against the bound holds.
   */
  method RunAdmitted(buffer: PrefetchBuffer, count: nat, pcs: seq<U32>, thumb: bool, insns: seq<Insn>, romBytes: nat)
    returns (cycles: U32, bound: U32, ghost adjusts: seq<int>)
    requires Derived(buffer.waits) && 0 < |insns| == |pcs| <= count <= 64
    requires 8 <= Region(pcs[0]) <= 13 && forall k :: 0 <= k < |pcs| ==> Region(pcs[k]) == Region(pcs[0])
    requires AllAdmitted(insns, romBytes) && forall i :: i in insns ==> ChargedInFull(buffer.waits, i)
    modifies buffer
    ensures bound == count * PerInstruction(buffer.waits, Region(pcs[0])) <= 4096
    ensures |adjusts| == |insns|
    ensures forall k :: 0 <= k < |insns| ==> PossibleAdjust(buffer.waits, pcs[k], insns[k], adjusts[k])
    ensures cycles == Total(buffer.waits, pcs, thumb, insns, adjusts) <= bound
  {
    var t, r := buffer.waits, Region(pcs[0]);
    bound := RegionBound(t, count, pcs[0]);
    DerivedBounds(t, r);
    Scaled(count, PerInstruction(t, r));
    Scaled(|insns|, PerInstruction(t, r));
    cycles, adjusts := RunRegion(buffer, pcs, thumb, insns);
    CounterWithinBound(t, r, pcs, thumb, insns, adjusts, romBytes);
    Fewer(|insns|, count, PerInstruction(t, r));
    RegionWithinBound(t, r, pcs, thumb, insns, adjusts, romBytes);
    hide *;
  }

  lemma Scaled(count: nat, each: nat)
    requires count <= 64 && each <= 64
    ensures 0 <= count * each <= 4096 && count * each % TWO_32 == count * each
  {
    Fewer(count, 64, each);
  }

  lemma Fewer(a: nat, b: nat, each: nat)
    requires a <= b
    ensures a * each <= b * each
  {
    assert b * each == a * each + (b - a) * each;
  }
}
