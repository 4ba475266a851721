/**
 Saving and loading the whole machine, snapshot.cpp: everything is checked before anything
 is restored.
 */
module Snapshot {
  import opened Common
  import opened SnapshotIo
  import opened SnapshotContainer
  import SnapshotCpu
  import ModCatalog
  import CallStack
  import SwiLedger

  type Cpu = SnapshotCpu.Cpu

  /** Four characters as a little-endian tag. */
  function FourCC(a: Byte, b: Byte, c: Byte, d: Byte): U32 {
    (a as int) + 0x100 * (b as int) + 0x1_0000 * (c as int) + 0x100_0000 * (d as int)
  }

  const TAG_CPU: U32 := FourCC(67, 80, 85, 48)
  const TAG_BUS: U32 := FourCC(66, 85, 83, 48)
  const TAG_IO: U32 := FourCC(73, 79, 95, 48)
  const TAG_AUDIO: U32 := FourCC(65, 85, 68, 48)
  const TAG_SAVE: U32 := FourCC(83, 65, 86, 48)
  const TAG_PPU: U32 := FourCC(80, 80, 85, 48)
  const TAG_META: U32 := FourCC(77, 69, 84, 65)
  const TAG_MODS: U32 := FourCC(77, 79, 68, 83)
  const TAG_TIME: U32 := FourCC(84, 73, 77, 69)

  // ── Timing ────────────────────────────────────────────────────────

  const CYCLES_PER_FRAME: nat := 280896

  type I64 = n: int | -0x8000_0000_0000_0000 <= n < 0x8000_0000_0000_0000

  datatype Timing = Timing(cycles: U64, vblanks: U64, yielded: U64, pending: U64, budget: I64)
  {
    /** What a load accepts. */
    predicate InRange() { pending <= CYCLES_PER_FRAME && 0 <= budget <= CYCLES_PER_FRAME }
  }

  function Unsigned(n: I64): U64 { if n < 0 then n + TWO_64 else n }

  function Signed(n: U64): I64 { if n < 0x8000_0000_0000_0000 then n else n - TWO_64 }

  function PrintTiming(t: Timing): seq<Byte> {
    Le(t.cycles, 8) + (Le(t.vblanks, 8) + (Le(t.yielded, 8) + (Le(t.pending, 8) + Le(Unsigned(t.budget), 8))))
  }

  function ParseTiming(b: seq<Byte>): Option<Timing> {
    if |b| != 40 then None
    else
      var t := Timing(Get64(b[..8]), Get64(b[8..][..8]), Get64(b[8..][8..][..8]), Get64(b[8..][8..][8..][..8]),
                      Signed(Get64(b[8..][8..][8..][8..])));
      if t.InRange() then Some(t) else None
  }

  /** A timing section reads back exactly when its pending timing is in range. */
  lemma TimingRoundTrip(t: Timing)
    ensures ParseTiming(PrintTiming(t)) == if t.InRange() then Some(t) else None
  {
    var d := Le(t.pending, 8) + Le(Unsigned(t.budget), 8);
    var c := Le(t.yielded, 8) + d;
    var b := Le(t.vblanks, 8) + c;
    Peel(Le(t.cycles, 8), b, 8);
    Peel(Le(t.vblanks, 8), c, 8);
    Peel(Le(t.yielded, 8), d, 8);
    Peel(Le(t.pending, 8), Le(Unsigned(t.budget), 8), 8);
    Get64Le(t.cycles);
    Get64Le(t.vblanks);
    Get64Le(t.yielded);
    Get64Le(t.pending);
    Get64Le(Unsigned(t.budget));
    hide Le, Get64;
  }

  /** The section, field by field; the budget in two's complement, and a frame is 280896 cycles. */
  lemma TimingLayout(t: Timing)
    ensures var b := PrintTiming(t);
            && |b| == 40 && Get64(b[..8]) == t.cycles && Get64(b[8..16]) == t.vblanks && Get64(b[16..24]) == t.yielded
            && Get64(b[24..32]) == t.pending
            && Get64(b[32..]) == if t.budget < 0 then t.budget + 0x1_0000_0000_0000_0000 else t.budget
    ensures ParseTiming(PrintTiming(t)).Some? <==> t.pending <= 280896 && 0 <= t.budget <= 280896
  {
    TimingRoundTrip(t);
    Get64Le(t.cycles);
    Get64Le(t.vblanks);
    Get64Le(t.yielded);
    Get64Le(t.pending);
    Get64Le(Unsigned(t.budget));
    hide Le, Get64, ParseTiming;
    var b := PrintTiming(t);
    assert b[..8] == Le(t.cycles, 8) && b[8..16] == Le(t.vblanks, 8) && b[16..24] == Le(t.yielded, 8);
    assert b[24..32] == Le(t.pending, 8) && b[32..] == Le(Unsigned(t.budget), 8);
  }

  /** An accepted timing section is the print of what it gives. */
  lemma TimingExact(b: seq<Byte>)
    requires ParseTiming(b).Some?
    ensures b == PrintTiming(ParseTiming(b).value) && ParseTiming(b).value.InRange()
  {
    Get64Bytes(b[..8]);
    Get64Bytes(b[8..][..8]);
    Get64Bytes(b[8..][8..][..8]);
    Get64Bytes(b[8..][8..][8..][..8]);
    Get64Bytes(b[8..][8..][8..][8..]);
    Halves(b, 8);
    Halves(b[8..], 8);
    Halves(b[8..][8..], 8);
    Halves(b[8..][8..][8..], 8);
    hide Le, Get64;
  }

  /** The section through the cursor. */
  method ReadTiming(b: seq<Byte>) returns (t: Option<Timing>)
    ensures t == ParseTiming(b)
  {
    hide ReadU64, Get64, Signed;
    if |b| != 40 {
      return None;
    }
    var r := new Reader(b);
    FiveFields(b);
    var cycles := r.U64();
    var vblanks := r.U64();
    var yielded := r.U64();
    var pending := r.U64();
    var budget := r.U64();
    t := Some(Timing(cycles, vblanks, yielded, pending, Signed(budget)));
    if t.value.pending > CYCLES_PER_FRAME || t.value.budget < 0 || t.value.budget > CYCLES_PER_FRAME {
      t := None;
    }
  }

  lemma Field(b: seq<Byte>)
    requires |b| >= 8
    ensures ReadU64(Cursor(b, true)) == (Get64(b[..8]), Cursor(b[8..], true))
  {
    ReadU64Inside(Cursor(b, true));
  }

  lemma FiveFields(b: seq<Byte>)
    requires |b| == 40
    ensures ReadU64(Cursor(b, true)) == (Get64(b[..8]), Cursor(b[8..], true))
    ensures ReadU64(Cursor(b[8..], true)) == (Get64(b[8..][..8]), Cursor(b[8..][8..], true))
    ensures ReadU64(Cursor(b[8..][8..], true)) == (Get64(b[8..][8..][..8]), Cursor(b[8..][8..][8..], true))
    ensures ReadU64(Cursor(b[8..][8..][8..], true)) == (Get64(b[8..][8..][8..][..8]), Cursor(b[8..][8..][8..][8..], true))
    ensures ReadU64(Cursor(b[8..][8..][8..][8..], true)).0 == Get64(b[8..][8..][8..][8..])
  {
    hide ReadU64, Get64;
    Field(b);
    Field(b[8..]);
    Field(b[8..][8..]);
    Field(b[8..][8..][8..]);
    Field(b[8..][8..][8..][8..]);
    Whole(b[8..][8..][8..][8..]);
  }

  lemma Whole(b: seq<Byte>)
    requires |b| == 8
    ensures b[..8] == b
  {
  }

  // ── Counters ──────────────────────────────────────────────────────

  /** Host-loop counters; advisory. */
  datatype Counters = Counters(taken: U64, cycles: U64, vblanks: U64)

  function PrintCounters(c: Counters): seq<Byte> { Le(c.taken, 8) + (Le(c.cycles, 8) + Le(c.vblanks, 8)) }

  /** A short section yields zeroes past its end. */
  function ReadCounters(b: seq<Byte>): Counters {
    var (taken, c1) := ReadU64(Cursor(b, true));
    var (cycles, c2) := ReadU64(c1);
    var (vblanks, _) := ReadU64(c2);
    Counters(taken, cycles, vblanks)
  }

  lemma CountersRoundTrip(c: Counters)
    ensures ReadCounters(PrintCounters(c)) == c
  {
    var b := PrintCounters(c);
    Peel(Le(c.taken, 8), Le(c.cycles, 8) + Le(c.vblanks, 8), 8);
    Peel(Le(c.cycles, 8), Le(c.vblanks, 8), 8);
    Get64Le(c.taken);
    Get64Le(c.cycles);
    Get64Le(c.vblanks);
    Whole(Le(c.vblanks, 8));
    hide Le, Get64, ReadU64;
    Field(b);
    Field(b[8..]);
    Field(b[8..][8..]);
  }

  lemma CountersLayout(c: Counters)
    ensures var b := PrintCounters(c);
            |b| == 24 && Get64(b[..8]) == c.taken && Get64(b[8..16]) == c.cycles && Get64(b[16..]) == c.vblanks
  {
    Get64Le(c.taken);
    Get64Le(c.cycles);
    Get64Le(c.vblanks);
    hide Le, Get64;
    var b := PrintCounters(c);
    assert b[..8] == Le(c.taken, 8) && b[8..16] == Le(c.cycles, 8) && b[16..] == Le(c.vblanks, 8);
  }

  // ── The machine ───────────────────────────────────────────────────

  /** Each device's state is what it serializes to. */
  datatype Devices = Devices(bus: seq<Byte>, io: seq<Byte>, audio: seq<Byte>, save: seq<Byte>, ppu: seq<Byte>)

  /** `waits` is the IO page the bus derived its wait-state table from; `mods` the native providers' states. */
  datatype Machine = Machine(
    cpu: Cpu, calls: CallStack.Calls, swi: seq<SwiLedger.Slot>, devices: Devices, waits: seq<Byte>,
    timing: Timing, counters: Counters, mods: seq<seq<Byte>>)
  {
    function Core(): SnapshotCpu.CpuPart { SnapshotCpu.CpuPart(cpu, calls.stack, swi) }
  }

  /** The gate, the provider catalog, and which states each provider's preflight accepts. */
  datatype Context = Context(sha: seq<Byte>, catalog: seq<ModCatalog.Provider>, accepts: (nat, seq<Byte>) -> bool)

  /** A section fits its 32-bit length. */
  predicate Fits(b: seq<Byte>) { |b| < 0x1_0000_0000 }

  predicate DevicesFit(d: Devices) { Fits(d.bus) && Fits(d.io) && Fits(d.audio) && Fits(d.save) && Fits(d.ppu) }

  /** A machine as it runs: its stacks within their limits and one state per provider. */
  predicate Runs(m: Machine, ctx: Context) {
    && m.Core().WF() && DevicesFit(m.devices) && ModCatalog.Registered(ctx.catalog)
    && |m.mods| == |ctx.catalog| && ModCatalog.StatesFit(m.mods)
    && Fits(ModCatalog.Print(ctx.catalog, m.mods))
  }

  function Plain(m: Machine): (l: seq<Section>)
    ensures |l| == 8
  {
    [Section(TAG_CPU, SnapshotCpu.SerializeCpu(m.Core())), Section(TAG_BUS, m.devices.bus),
     Section(TAG_IO, m.devices.io), Section(TAG_AUDIO, m.devices.audio), Section(TAG_SAVE, m.devices.save),
     Section(TAG_PPU, m.devices.ppu), Section(TAG_META, PrintCounters(m.counters)),
     Section(TAG_TIME, PrintTiming(m.timing))]
  }

  /** Nine sections with an active catalog, eight without. */
  function Sections(m: Machine, ctx: Context): (l: seq<Section>)
    requires |m.mods| == |ctx.catalog|
  {
    if ctx.catalog == [] then Plain(m) else Plain(m) + [Section(TAG_MODS, ModCatalog.Print(ctx.catalog, m.mods))]
  }

  /** The sections' names, in the order they are written: CPU0, BUS0, IO_0, AUD0, SAV0, PPU0, META, TIME and MODS. */
  lemma SectionTags(m: Machine, ctx: Context)
    requires |m.mods| == |ctx.catalog|
    ensures var l := Sections(m, ctx);
            && |l| == (if ctx.catalog == [] then 8 else 9)
            && l[0] == Section(0x3055_5043, SnapshotCpu.SerializeCpu(m.Core())) && l[1] == Section(0x3053_5542, m.devices.bus)
            && l[2] == Section(0x305F_4F49, m.devices.io) && l[3] == Section(0x3044_5541, m.devices.audio)
            && l[4] == Section(0x3056_4153, m.devices.save) && l[5] == Section(0x3055_5050, m.devices.ppu)
            && l[6] == Section(0x4154_454D, PrintCounters(m.counters)) && l[7] == Section(0x454D_4954, PrintTiming(m.timing))
            && (ctx.catalog != [] ==> l[8] == Section(0x5344_4F4D, ModCatalog.Print(ctx.catalog, m.mods)))
  {
    hide SnapshotCpu.SerializeCpu, PrintCounters, PrintTiming, ModCatalog.Print;
  }

  lemma CpuFits(p: SnapshotCpu.CpuPart)
    requires p.WF()
    ensures Fits(SnapshotCpu.SerializeCpu(p))
  {
    SnapshotCpu.ImageRoundTrip(p.cpu);
    hide SnapshotCpu.Words, SnapshotCpu.SlotWords, SnapshotCpu.Image;
  }

  lemma SectionsFit(m: Machine, ctx: Context)
    requires Runs(m, ctx)
    ensures Small(Sections(m, ctx)) && |Sections(m, ctx)| <= 9 && Distinct(Sections(m, ctx))
  {
    CpuFits(m.Core());
    hide SnapshotCpu.SerializeCpu, ModCatalog.Print, PrintTiming, PrintCounters;
    assert |PrintTiming(m.timing)| == 40 && |PrintCounters(m.counters)| == 24 by { FixedSizes(m.timing, m.counters); }
  }

  lemma FixedSizes(t: Timing, c: Counters)
    ensures |PrintTiming(t)| == 40 && |PrintCounters(c)| == 24
  {
    hide Le;
  }

  /** `save_state_bytes`. */
  function Save(m: Machine, ctx: Context): seq<Byte>
    requires Runs(m, ctx)
  {
    SectionsFit(m, ctx);
    Container(Fill(ctx.sha), Sections(m, ctx))
  }

  // ── Loading ───────────────────────────────────────────────────────

  predicate Required(t: map<U32, seq<Byte>>) {
    TAG_CPU in t && TAG_BUS in t && TAG_IO in t && TAG_AUDIO in t && TAG_SAVE in t && TAG_PPU in t && TAG_TIME in t
  }

  /** The MODS preflight: the states, none without a section; `None` is a refusal. */
  function Preflight(t: map<U32, seq<Byte>>, ctx: Context): Option<Option<seq<seq<Byte>>>> {
    if TAG_MODS !in t then (if ctx.catalog != [] then None else Some(None))
    else
      match ModCatalog.Parse(ctx.catalog, t[TAG_MODS])
      case None => None
      case Some(states) => if AllAccepted(ctx.accepts, states) then Some(Some(states)) else None
  }

  predicate AllAccepted(accepts: (nat, seq<Byte>) -> bool, states: seq<seq<Byte>>) {
    forall i :: 0 <= i < |states| ==> accepts(i, states[i])
  }

  /** The provider states a commit leaves. */
  function ModsAfter(m: Machine, mods: Option<seq<seq<Byte>>>): seq<seq<Byte>> {
    if mods.Some? && mods.value != [] then mods.value else m.mods
  }

  /** The restored machine. The call-return floor is not part of a snapshot and stays. */
  function Commit(m: Machine, t: map<U32, seq<Byte>>, core: SnapshotCpu.CpuPart, timing: Timing,
                  mods: Option<seq<seq<Byte>>>): Machine
    requires Required(t)
  {
    Machine(core.cpu, CallStack.Calls(core.entries, m.calls.floor, |core.entries|), core.swi,
            Devices(t[TAG_BUS], t[TAG_IO], t[TAG_AUDIO], t[TAG_SAVE], t[TAG_PPU]), t[TAG_IO], timing,
            if TAG_META in t then ReadCounters(t[TAG_META]) else m.counters,
            ModsAfter(m, mods))
  }

  /** What follows the container's own checks. */
  function LoadTable(m: Machine, t: map<U32, seq<Byte>>, ctx: Context): Option<Machine> {
    if !Required(t) then None
    else
      match Preflight(t, ctx)
      case None => None
      case Some(mods) =>
        match ParseTiming(t[TAG_TIME])
        case None => None
        case Some(timing) =>
          match SnapshotCpu.ParseCpu(t[TAG_CPU])
          case None => None
          case Some(core) => Some(Commit(m, t, core, timing, mods))
  }

  /** `load_state_bytes`; `None` is a false answer. */
  function Load(m: Machine, b: seq<Byte>, ctx: Context): Option<Machine> {
    match Parse(b, ctx.sha)
    case None => None
    case Some(l) => LoadTable(m, Table(l), ctx)
  }

  /** What a load of `saved` into `into` leaves. */
  function Restored(saved: Machine, into: Machine): Machine {
    saved.(calls := CallStack.Calls(saved.calls.stack, into.calls.floor, |saved.calls.stack|),
           waits := saved.devices.io,
           mods := if saved.mods != [] then saved.mods else into.mods)
  }

  lemma SavedTable(m: Machine, ctx: Context)
    requires Runs(m, ctx)
    ensures var t := Table(Sections(m, ctx));
            && Required(t) && TAG_META in t && (TAG_MODS in t <==> ctx.catalog != [])
            && t[TAG_CPU] == SnapshotCpu.SerializeCpu(m.Core()) && t[TAG_TIME] == PrintTiming(m.timing)
            && t[TAG_META] == PrintCounters(m.counters)
            && Devices(t[TAG_BUS], t[TAG_IO], t[TAG_AUDIO], t[TAG_SAVE], t[TAG_PPU]) == m.devices
            && (ctx.catalog != [] ==> t[TAG_MODS] == ModCatalog.Print(ctx.catalog, m.mods))
  {
    var l := Sections(m, ctx);
    SectionsFit(m, ctx);
    hide SnapshotCpu.SerializeCpu, ModCatalog.Print, PrintTiming, PrintCounters, Table, Distinct;
    TableFinds(l, 0);
    TableFinds(l, 1);
    TableFinds(l, 2);
    TableFinds(l, 3);
    TableFinds(l, 4);
    TableFinds(l, 5);
    TableFinds(l, 6);
    TableFinds(l, 7);
    TableKeys(l, TAG_MODS);
    if ctx.catalog != [] {
      TableFinds(l, 8);
    }
  }

  lemma SavedPreflight(m: Machine, ctx: Context)
    requires Runs(m, ctx) && AllAccepted(ctx.accepts, m.mods)
    ensures Preflight(Table(Sections(m, ctx)), ctx) == Some(if ctx.catalog == [] then None else Some(m.mods))
  {
    SavedTable(m, ctx);
    if ctx.catalog != [] {
      ModCatalog.CatalogExact(ctx.catalog, ModCatalog.Print(ctx.catalog, m.mods), m.mods);
    }
    hide Table, Sections, ModCatalog.Print, ModCatalog.Parse, Required, AllAccepted;
  }

  lemma SavedCommits(saved: Machine, into: Machine, ctx: Context)
    requires Runs(saved, ctx)
    ensures var t := Table(Sections(saved, ctx));
            && Required(t)
            && Commit(into, t, saved.Core(), saved.timing, if ctx.catalog == [] then None else Some(saved.mods))
               == Restored(saved, into)
  {
    SavedTable(saved, ctx);
    CountersRoundTrip(saved.counters);
    hide Table, Sections, ModCatalog.Print, ReadCounters, PrintCounters;
  }

  lemma SavedLoads(saved: Machine, into: Machine, ctx: Context)
    requires Runs(saved, ctx) && AllAccepted(ctx.accepts, saved.mods)
    ensures LoadTable(into, Table(Sections(saved, ctx)), ctx) ==
            if saved.timing.InRange() then Some(Restored(saved, into)) else None
  {
    SavedTable(saved, ctx);
    SavedPreflight(saved, ctx);
    SavedCommits(saved, into, ctx);
    TimingRoundTrip(saved.timing);
    SnapshotCpu.CpuRoundTrip(saved.Core());
    hide Table, Sections, SnapshotCpu.SerializeCpu, SnapshotCpu.ParseCpu, PrintTiming, ParseTiming,
      Preflight, Commit, Restored, Required;
  }

  /**
   Loading what was saved restores the registers, the call-return stack, the SWI ledger, the
   timing, every device and every provider, exactly when the saved timing is in range; a
   snapshot taken with timing out of range is refused.
   */
  lemma LoadOfSave(saved: Machine, into: Machine, ctx: Context)
    requires Runs(saved, ctx) && AllAccepted(ctx.accepts, saved.mods)
    ensures Load(into, Save(saved, ctx), ctx) == if saved.timing.InRange() then Some(Restored(saved, into)) else None
  {
    SectionsFit(saved, ctx);
    Printed(Fill(ctx.sha), Sections(saved, ctx), ctx.sha);
    SavedLoads(saved, into, ctx);
    hide Parse, Table, Sections, Container, Fill, LoadTable, Restored;
  }

  /** A snapshot with one provider state that its provider does not accept is refused. */
  lemma OneRefusalRefuses(saved: Machine, into: Machine, ctx: Context, i: nat)
    requires Runs(saved, ctx) && i < |saved.mods| && !ctx.accepts(i, saved.mods[i])
    ensures Load(into, Save(saved, ctx), ctx) == None
  {
    SectionsFit(saved, ctx);
    Printed(Fill(ctx.sha), Sections(saved, ctx), ctx.sha);
    SavedTable(saved, ctx);
    ModCatalog.CatalogExact(ctx.catalog, ModCatalog.Print(ctx.catalog, saved.mods), saved.mods);
    hide Parse, Table, Sections, Container, Fill, ModCatalog.Print, ModCatalog.Parse, Required;
    assert Preflight(Table(Sections(saved, ctx)), ctx) == None;
  }

  /** A snapshot saved under one ROM's hash cannot be loaded under another's. */
  lemma OtherRomRefused(saved: Machine, into: Machine, ctx: Context, other: Context)
    requires Runs(saved, ctx) && |ctx.sha| == |other.sha| == 40 && ctx.sha != other.sha
    ensures Load(into, Save(saved, ctx), other) == None
  {
    SectionsFit(saved, ctx);
    GateExact(ctx.sha, Sections(saved, ctx), other.sha);
    FullHashes(other.sha, ctx.sha);
    hide Parse, Sections, Container, Fill, LoadTable;
  }

  lemma LoadedParts(m: Machine, b: seq<Byte>, ctx: Context)
    requires Load(m, b, ctx).Some?
    ensures var r, t := Load(m, b, ctx).value, Table(Parse(b, ctx.sha).value);
            && Required(t) && SnapshotCpu.ParseCpu(t[TAG_CPU]) == Some(r.Core())
            && ParseTiming(t[TAG_TIME]) == Some(r.timing)
            && r.calls == CallStack.Calls(r.Core().entries, m.calls.floor, |r.Core().entries|)
  {
    hide Parse, Table, SnapshotCpu.ParseCpu, ReadCounters, ModCatalog.Parse, ParseTiming, AllAccepted, Required;
  }

  /** `b` is a header that passes the gate and the sections `l`, with nothing between or behind. */
  predicate Holds(b: seq<Byte>, want: seq<Byte>, l: seq<Section>) {
    && Small(l) && Distinct(l) && |l| < 0x1_0000_0000
    && |b| >= HEADER_BYTES && b == Container(b[8..48], l)
    && (want == [] || b[8..48] == Fill(want))
  }

  /** The MODS section says `mods`; without a catalog it says nothing and the live states stay. */
  predicate DescribesMods(m: Machine, t: map<U32, seq<Byte>>, mods: seq<seq<Byte>>, ctx: Context) {
    if ctx.catalog == [] then
      mods == m.mods && (TAG_MODS in t ==> t[TAG_MODS] == ModCatalog.Print([], []))
    else
      && TAG_MODS in t && |mods| == |ctx.catalog| && ModCatalog.StatesFit(mods)
      && t[TAG_MODS] == ModCatalog.Print(ctx.catalog, mods) && AllAccepted(ctx.accepts, mods)
  }

  /** The sections say `r`, and what they leave out of it is as in `m`. */
  predicate Describes(m: Machine, t: map<U32, seq<Byte>>, r: Machine, ctx: Context) {
    && Required(t)
    && r.Core().WF() && t[TAG_CPU] == SnapshotCpu.SerializeCpu(r.Core())
    && r.calls.floor == m.calls.floor && r.calls.hostless == |r.calls.stack|
    && r.timing.InRange() && t[TAG_TIME] == PrintTiming(r.timing)
    && r.devices == Devices(t[TAG_BUS], t[TAG_IO], t[TAG_AUDIO], t[TAG_SAVE], t[TAG_PPU]) && r.waits == t[TAG_IO]
    && r.counters == (if TAG_META in t then ReadCounters(t[TAG_META]) else m.counters)
    && DescribesMods(m, t, r.mods, ctx)
  }

  lemma CpuParses(b: seq<Byte>, p: SnapshotCpu.CpuPart)
    ensures SnapshotCpu.ParseCpu(b) == Some(p) <==> p.WF() && b == SnapshotCpu.SerializeCpu(p)
  {
    if SnapshotCpu.ParseCpu(b).Some? {
      SnapshotCpu.CpuExact(b);
    }
    if p.WF() {
      SnapshotCpu.CpuRoundTrip(p);
    }
    hide SnapshotCpu.ParseCpu, SnapshotCpu.SerializeCpu;
  }

  lemma TimingParses(b: seq<Byte>, t: Timing)
    ensures ParseTiming(b) == Some(t) <==> t.InRange() && b == PrintTiming(t)
  {
    if ParseTiming(b).Some? {
      TimingExact(b);
    }
    TimingRoundTrip(t);
    hide ParseTiming, PrintTiming;
  }

  lemma ModsDescribed(m: Machine, t: map<U32, seq<Byte>>, mods: seq<seq<Byte>>, ctx: Context)
    requires ModCatalog.Registered(ctx.catalog)
    ensures (Preflight(t, ctx).Some? && ModsAfter(m, Preflight(t, ctx).value) == mods) <==> DescribesMods(m, t, mods, ctx)
  {
    if TAG_MODS in t {
      if ctx.catalog == [] {
        ModCatalog.CatalogExact([], t[TAG_MODS], []);
      } else {
        ModCatalog.CatalogExact(ctx.catalog, t[TAG_MODS], mods);
      }
    }
    hide ModCatalog.Parse, ModCatalog.Print, ModCatalog.StatesFit, FourCC;
  }

  lemma TableAccepted(m: Machine, t: map<U32, seq<Byte>>, ctx: Context, r: Machine)
    requires ModCatalog.Registered(ctx.catalog)
    ensures LoadTable(m, t, ctx) == Some(r) <==> Describes(m, t, r, ctx)
  {
    if Required(t) {
      ModsDescribed(m, t, r.mods, ctx);
      TimingParses(t[TAG_TIME], r.timing);
      CpuParses(t[TAG_CPU], r.Core());
    }
    hide Preflight, ParseTiming, PrintTiming, SnapshotCpu.ParseCpu, SnapshotCpu.SerializeCpu, ReadCounters, DescribesMods, FourCC;
  }

  /**
   A blob is accepted as a machine exactly if it is a header and distinct sections, which
   describe that machine: its registers, stack and ledger, its timing in range, each device and
   each provider's state as printed for this catalog and accepted by the provider, and the
   counters if it has any.
   */
  lemma AcceptedExact(m: Machine, b: seq<Byte>, ctx: Context, r: Machine)
    requires ModCatalog.Registered(ctx.catalog)
    ensures Load(m, b, ctx) == Some(r) <==> exists l :: Holds(b, ctx.sha, l) && Describes(m, Table(l), r, ctx)
  {
    hide Parse, LoadTable, Describes, Table, Container, Small, Distinct;
    if Load(m, b, ctx) == Some(r) {
      var l := Parse(b, ctx.sha).value;
      ContainerExact(b, ctx.sha, l);
      TableAccepted(m, Table(l), ctx, r);
      assert Holds(b, ctx.sha, l) && Describes(m, Table(l), r, ctx);
    }
    if l :| Holds(b, ctx.sha, l) && Describes(m, Table(l), r, ctx) {
      ContainerExact(b, ctx.sha, l);
      TableAccepted(m, Table(l), ctx, r);
    }
  }

  /** The stack a load leaves satisfies its invariant exactly when the floor left in place is not above it. */
  lemma RestoredCalls(m: Machine, b: seq<Byte>, ctx: Context)
    requires Load(m, b, ctx).Some?
    ensures Load(m, b, ctx).value.calls.Inv() <==> m.calls.floor <= |Load(m, b, ctx).value.calls.stack|
  {
    LoadedParts(m, b, ctx);
    var r := Load(m, b, ctx).value;
    CpuParses(Table(Parse(b, ctx.sha).value)[TAG_CPU], r.Core());
    hide Load, SnapshotCpu.SerializeCpu, SnapshotCpu.ParseCpu, Parse, Table;
  }

  // ── The load as it runs ───────────────────────────────────────────

  /** The MODS preflight in place: the catalog, then each provider's own check. */
  method CheckMods(t: map<U32, seq<Byte>>, ctx: Context) returns (r: Option<Option<seq<seq<Byte>>>>)
    ensures r == Preflight(t, ctx)
  {
    hide ModCatalog.Parse, FourCC;
    if TAG_MODS !in t {
      return if ctx.catalog != [] then None else Some(None);
    }
    var reader := new Reader(t[TAG_MODS]);
    var states := ModCatalog.ReadCatalog(reader, ctx.catalog);
    if states.None? {
      return None;
    }
    for i := 0 to |states.value|
      invariant forall k :: 0 <= k < i ==> ctx.accepts(k, states.value[k])
    {
      if !ctx.accepts(i, states.value[i]) {
        return None;
      }
    }
    r := Some(states);
  }

  /** The live machine. */
  class Live {
    var cpu: Cpu
    var calls: CallStack.Calls
    var swi: seq<SwiLedger.Slot>
    var devices: Devices
    var waits: seq<Byte>
    var timing: Timing
    var counters: Counters
    var mods: seq<seq<Byte>>

    ghost function State(): Machine
      reads this
    {
      Machine(cpu, calls, swi, devices, waits, timing, counters, mods)
    }

    /** `save_state_bytes`. */
    method SaveState(ctx: Context) returns (b: seq<Byte>)
      requires Runs(State(), ctx)
      ensures b == Save(State(), ctx)
    {
      hide Sections, Container, Fill;
      SectionsFit(State(), ctx);
      var m := Machine(cpu, calls, swi, devices, waits, timing, counters, mods);
      b := WriteContainer(Fill(ctx.sha), Sections(m, ctx));
    }

    /** The commit half of `deserialize_cpu`. */
    method CommitCpu(core: SnapshotCpu.CpuPart)
      modifies this`cpu, this`calls, this`swi
      ensures cpu == core.cpu && swi == core.swi
      ensures calls == CallStack.Calls(core.entries, old(calls).floor, |core.entries|)
    {
      cpu := core.cpu;
      calls := CallStack.Calls(core.entries, calls.floor, |core.entries|);
      swi := core.swi;
    }

    /** The devices in turn; the wait-state table is derived anew once the IO page is in. */
    method CommitDevices(t: map<U32, seq<Byte>>)
      requires Required(t)
      modifies this`devices, this`waits
      ensures devices == Devices(t[TAG_BUS], t[TAG_IO], t[TAG_AUDIO], t[TAG_SAVE], t[TAG_PPU]) && waits == t[TAG_IO]
    {
      hide FourCC;
      devices := devices.(bus := t[TAG_BUS]);
      devices := devices.(io := t[TAG_IO]);
      waits := devices.io;
      devices := devices.(audio := t[TAG_AUDIO]);
      devices := devices.(save := t[TAG_SAVE]);
      devices := devices.(ppu := t[TAG_PPU]);
    }

    /** The second phase: nothing in it can fail. */
    method CommitAll(t: map<U32, seq<Byte>>, core: SnapshotCpu.CpuPart, pending: Timing, states: Option<seq<seq<Byte>>>)
      requires Required(t)
      modifies this
      ensures State() == Commit(old(State()), t, core, pending, states)
    {
      hide ReadCounters, FourCC;
      CommitCpu(core);
      CommitDevices(t);
      if TAG_META in t {
        counters := ReadCounters(t[TAG_META]);
      }
      if states.Some? && states.value != [] {
        mods := states.value;
      }
      timing := pending;
    }

    /** All or nothing: a false answer leaves the machine as it was. */
    method LoadState(b: seq<Byte>, ctx: Context) returns (ok: bool)
      modifies this
      ensures ok == Load(old(State()), b, ctx).Some?
      ensures State() == if ok then Load(old(State()), b, ctx).value else old(State())
    {
      hide Parse, Table, Preflight, ParseTiming, SnapshotCpu.ParseCpu, Commit, ReadCounters;
      var t := ParseContainer(b, ctx.sha);
      if t.None? {
        return false;
      }
      if !Required(t.value) {
        return false;
      }
      var states := CheckMods(t.value, ctx);
      if states.None? {
        return false;
      }
      var pending := ReadTiming(t.value[TAG_TIME]);
      if pending.None? {
        return false;
      }
      var r := new Reader(t.value[TAG_CPU]);
      var core := SnapshotCpu.DeserializeCpu(r);
      if core.None? {
        return false;
      }
      CommitAll(t.value, core.value, pending.value, states.value);
      ok := true;
    }
  }
}
