/**
 The register file of the ARM Architecture Reference Manual (DDI 0100), section
 A2.4: one cell per physical register and no copies. The banked register file of
 ArmCpu is proved to simulate it.
 */
module FlatRegisters {
  import opened Common
  import opened ArmCpu

  /** One physical register. */
  datatype Cell =
    | Low(i: nat)        // R0-R7, shared by every mode
    | Pc
    | HighUser(i: nat)   // R8-R12 of every mode but FIQ
    | HighFiq(i: nat)    // R8_fiq-R12_fiq
    | Sp(bank: nat)
    | Lr(bank: nat)
    | Spsr(bank: nat)

  predicate IsCell(cell: Cell) {
    match cell
    case Low(i) => i < 8
    case Pc => true
    case HighUser(i) => i < 5
    case HighFiq(i) => i < 5
    case Sp(b) => b < BANKS
    case Lr(b) => b < BANKS
    case Spsr(b) => b < BANKS
  }

  /** The flat machine: the contents of every physical register, and CPSR. */
  datatype Flat = Flat(cells: map<Cell, Word>, cpsr: Word)
  {
    ghost predicate WF() { forall c :: IsCell(c) ==> c in cells }
  }

  /** The physical register that `reg` names in `mode` (table A2-1). */
  function CellOf(mode: Word, reg: nat): (c: Cell)
    requires reg < 16
    ensures IsCell(c)
  {
    if reg < 8 then Low(reg)
    else if reg == 15 then Pc
    else if reg < 13 then if mode == MODE_FIQ then HighFiq(reg - 8) else HighUser(reg - 8)
    else if reg == 13 then Sp(BankOf(mode))
    else Lr(BankOf(mode))
  }

  // ── Operations and their flat meaning ─────────────────────────────

  datatype Op =
    | Write(reg: nat, value: Word)         // a register the current mode sees
    | WriteUserBank(reg: nat, value: Word) // STM/LDM with the S bit
    | ReadVisible(reg: nat)
    | ReadUserBank(reg: nat)
    | WriteCpsr(value: Word, mask: Word)
    | WriteSpsr(value: Word, mask: Word)
    | ReadSpsr
    | CopySpsr
    | Swi
    | Irq(returnAddress: Word)
    | Return(pc: Word)

  predicate IsOp(op: Op) {
    (op.Write? || op.WriteUserBank? || op.ReadVisible? || op.ReadUserBank?) ==> op.reg < 16
  }

  /** The banked implementation: next state and the value read, if any. */
  function CpuStep(c: Cpu, op: Op): (r: (Cpu, Option<Word>))
    requires c.WF() && IsOp(op)
    ensures r.0.WF()
  {
    match op
    case Write(reg, v) => (c.(R := c.R[reg := v]), None)
    case WriteUserBank(reg, v) => (WriteUser(c, reg, v), None)
    case ReadVisible(reg) => (c, Some(c.R[reg]))
    case ReadUserBank(reg) => (c, Some(ReadUser(c, reg)))
    case WriteCpsr(v, m) => (MsrCpsr(c, v, m), None)
    case WriteSpsr(v, m) => (MsrSpsr(c, v, m), None)
    case ReadSpsr => (c, Some(c.spsr[BankOf(Mode(c.cpsr))]))
    case CopySpsr => (RestoreCpsr(c), None)
    case Swi => (SwiEntry(c), None)
    case Irq(ret) => (IrqEntry(c, ret), None)
    case Return(pc) => (ReturnTo(c, pc), None)
  }

  ghost function FlatEnter(f: Flat, mode: Word, link: Word, vector: Word): Flat {
    Flat(f.cells[Spsr(BankOf(mode)) := f.cpsr][Lr(BankOf(mode)) := link][Pc := vector],
         EntryPsr(f.cpsr, mode))
  }

  ghost function FlatRestore(f: Flat): Flat
    requires f.WF()
  {
    if HasNoSpsr(Mode(f.cpsr)) then f else f.(cpsr := f.cells[Spsr(BankOf(Mode(f.cpsr)))])
  }

  /** The flat machine: a mode switch touches CPSR alone. */
  ghost function FlatStep(f: Flat, op: Op): (r: (Flat, Option<Word>))
    requires f.WF() && IsOp(op)
    ensures r.0.WF()
  {
    var mode := Mode(f.cpsr);
    match op
    case Write(reg, v) => (f.(cells := f.cells[CellOf(mode, reg) := v]), None)
    case WriteUserBank(reg, v) => (f.(cells := f.cells[CellOf(MODE_USER, reg) := v]), None)
    case ReadVisible(reg) => (f, Some(f.cells[CellOf(mode, reg)]))
    case ReadUserBank(reg) => (f, Some(f.cells[CellOf(MODE_USER, reg)]))
    case WriteCpsr(v, m) => (f.(cpsr := Merge(f.cpsr, v, CpsrBits(f.cpsr, m))), None)
    case WriteSpsr(v, m) =>
      var b := BankOf(mode);
      if b == BANK_USER then (f, None)
      else (f.(cells := f.cells[Spsr(b) := Merge(f.cells[Spsr(b)], v, FieldBits(m))]), None)
    case ReadSpsr => (f, Some(f.cells[Spsr(BankOf(mode))]))
    case CopySpsr => (FlatRestore(f), None)
    case Swi => (FlatEnter(f, MODE_SUPERVISOR, f.cells[Pc], 8), None)
    case Irq(ret) => (FlatEnter(f, MODE_IRQ, ret + 4, 0x18), None)
    case Return(pc) => var g := FlatRestore(f); (g.(cells := g.cells[Pc := pc]), None)
  }

  // ── Abstraction ───────────────────────────────────────────────────

  /** Where the current contents of a physical register are: live slot or bank copy. */
  function Content(c: Cpu, cell: Cell): Word
    requires c.WF() && IsCell(cell)
  {
    var mode := Mode(c.cpsr);
    match cell
    case Low(i) => c.R[i]
    case Pc => c.R[15]
    case HighUser(i) => if mode == MODE_FIQ then c.user[i] else c.R[8 + i]
    case HighFiq(i) => if mode == MODE_FIQ then c.R[8 + i] else c.fiq[i]
    case Sp(b) => if BankOf(mode) == b then c.R[13] else c.sp[b]
    case Lr(b) => if BankOf(mode) == b then c.R[14] else c.lr[b]
    case Spsr(b) => c.spsr[b]
  }

  /** The flat machine `f` holds, cell by cell, what the banked register file `c` holds. */
  ghost predicate Simulates(c: Cpu, f: Flat)
    requires c.WF()
  {
    && f.WF() && f.cpsr == c.cpsr
    && forall cell :: IsCell(cell) ==> f.cells[cell] == Content(c, cell)
  }

  // ── Simulation ────────────────────────────────────────────────────

  /** The register file after saving one bank and loading another, slot by slot. */
  lemma SwapSlots(c: Cpu, from: Word, psr: Word, to: Word)
    requires c.WF()
    ensures var d := BankIn(BankOut(c, BankOf(from), from).(cpsr := psr), BankOf(to), to);
            && d.cpsr == psr && d.spsr == c.spsr
            && (forall i :: 0 <= i < 8 ==> d.R[i] == c.R[i]) && d.R[15] == c.R[15]
            && d.sp == c.sp[BankOf(from) := c.R[13]] && d.R[13] == d.sp[BankOf(to)]
            && d.lr == c.lr[BankOf(from) := c.R[14]] && d.R[14] == d.lr[BankOf(to)]
            && d.user == (if from == MODE_FIQ then c.user else c.R[8..13])
            && d.fiq == (if from == MODE_FIQ then c.R[8..13] else c.fiq)
            && (forall i :: 0 <= i < 5 ==> d.R[8 + i] == if to == MODE_FIQ then d.fiq[i] else d.user[i])
  {
    var o := BankOut(c, BankOf(from), from).(cpsr := psr);
    var high := if to == MODE_FIQ then o.fiq else o.user;
    assert |high| == 5;
    var d := BankIn(o, BankOf(to), to);
    forall i | 0 <= i < 5 ensures d.R[8 + i] == high[i] {
    }
  }

  lemma ReloadKeepsHigh(c: Cpu, psr: Word, i: nat)
    requires c.WF() && i < 5
    ensures Content(ReloadPsr(c, psr), HighUser(i)) == Content(c, HighUser(i))
    ensures Content(ReloadPsr(c, psr), HighFiq(i)) == Content(c, HighFiq(i))
  {
    SwapSlots(c, Mode(c.cpsr), psr, Mode(psr));
    assert c.R[8..13][i] == c.R[8 + i];
  }

  lemma ReloadKeepsBanked(c: Cpu, psr: Word, b: nat)
    requires c.WF() && b < BANKS
    ensures Content(ReloadPsr(c, psr), Sp(b)) == Content(c, Sp(b))
    ensures Content(ReloadPsr(c, psr), Lr(b)) == Content(c, Lr(b))
    ensures Content(ReloadPsr(c, psr), Spsr(b)) == Content(c, Spsr(b))
  {
    SwapSlots(c, Mode(c.cpsr), psr, Mode(psr));
  }

  /** No bank swap, not even one between equal banks, loses or aliases a register. */
  lemma ReloadKeepsCell(c: Cpu, psr: Word, cell: Cell)
    requires c.WF() && IsCell(cell)
    ensures Content(ReloadPsr(c, psr), cell) == Content(c, cell)
  {
    match cell {
      case Low(i) => SwapSlots(c, Mode(c.cpsr), psr, Mode(psr));
      case Pc => SwapSlots(c, Mode(c.cpsr), psr, Mode(psr));
      case HighUser(i) => ReloadKeepsHigh(c, psr, i);
      case HighFiq(i) => ReloadKeepsHigh(c, psr, i);
      case Sp(b) => ReloadKeepsBanked(c, psr, b);
      case Lr(b) => ReloadKeepsBanked(c, psr, b);
      case Spsr(b) => ReloadKeepsBanked(c, psr, b);
    }
  }

  lemma SwitchKeepsCell(c: Cpu, psr: Word, cell: Cell)
    requires c.WF() && IsCell(cell)
    ensures Content(SwitchPsr(c, psr), cell) == Content(c, cell)
  {
    var from, to := Mode(c.cpsr), Mode(psr);
    if BankOf(from) == BankOf(to) {
      assert from == MODE_FIQ <==> to == MODE_FIQ;
    } else {
      ReloadKeepsCell(c, psr, cell);
    }
  }

  lemma SwitchKeepsCells(c: Cpu, psr: Word, f: Flat)
    requires c.WF() && Simulates(c, f)
    ensures Simulates(SwitchPsr(c, psr), f.(cpsr := psr))
    ensures Simulates(ReloadPsr(c, psr), f.(cpsr := psr))
  {
    var g := f.(cpsr := psr);
    forall cell | IsCell(cell)
      ensures g.cells[cell] == Content(SwitchPsr(c, psr), cell) == Content(ReloadPsr(c, psr), cell)
    {
      SwitchKeepsCell(c, psr, cell);
      ReloadKeepsCell(c, psr, cell);
    }
    SwapSlots(c, Mode(c.cpsr), psr, Mode(psr));
  }

  lemma EntryPsrMode(saved: Word, mode: Word)
    requires mode & 0x1F == mode
    ensures Mode(EntryPsr(saved, mode)) == mode
  {
  }

  /** A live slot is one cell of its mode, and no other. */
  lemma SlotWritten(c: Cpu, reg: nat, v: Word, cell: Cell)
    requires c.WF() && IsCell(cell) && reg < 16
    ensures Content(c.(R := c.R[reg := v]), cell) == if cell == CellOf(Mode(c.cpsr), reg) then v else Content(c, cell)
  {
    hide Mode;
    assert BankOf(Mode(c.cpsr)) == BANK_FIQ <==> Mode(c.cpsr) == MODE_FIQ;
  }

  lemma WriteSimulates(c: Cpu, f: Flat, reg: nat, v: Word)
    requires c.WF() && Simulates(c, f) && reg < 16
    ensures Simulates(c.(R := c.R[reg := v]), f.(cells := f.cells[CellOf(Mode(c.cpsr), reg) := v]))
  {
    hide Content, CellOf, Mode;
    var d, g := c.(R := c.R[reg := v]), f.(cells := f.cells[CellOf(Mode(c.cpsr), reg) := v]);
    forall cell | IsCell(cell) ensures g.cells[cell] == Content(d, cell) {
      SlotWritten(c, reg, v, cell);
    }
  }

  lemma SpsrSimulates(c: Cpu, f: Flat, bank: nat, v: Word)
    requires c.WF() && Simulates(c, f) && bank < BANKS
    ensures Simulates(c.(spsr := c.spsr[bank := v]), f.(cells := f.cells[Spsr(bank) := v]))
  {
    var d, g := c.(spsr := c.spsr[bank := v]), f.(cells := f.cells[Spsr(bank) := v]);
    forall cell | IsCell(cell) ensures g.cells[cell] == Content(d, cell) {
      assert f.cells[cell] == Content(c, cell);
    }
  }

  lemma WriteUserSimulates(c: Cpu, f: Flat, reg: nat, v: Word)
    requires c.WF() && Simulates(c, f) && reg < 16 && (reg == 13 || reg == 14 ==> Architectural(Mode(c.cpsr)))
    ensures Simulates(WriteUser(c, reg, v), f.(cells := f.cells[CellOf(MODE_USER, reg) := v]))
  {
    var mode := Mode(c.cpsr);
    if reg < 8 || reg == 15 || (reg < 13 && mode != MODE_FIQ) || (reg >= 13 && HasNoSpsr(mode)) {
      WriteSimulates(c, f, reg, v);
    } else {
      var d, g := WriteUser(c, reg, v), f.(cells := f.cells[CellOf(MODE_USER, reg) := v]);
      var written := CellOf(MODE_USER, reg);
      assert d.R == c.R && d.cpsr == c.cpsr;
      forall cell | IsCell(cell) ensures g.cells[cell] == Content(d, cell) {
        UserCopyWritten(c, reg, v, cell);
        assert f.cells[cell] == Content(c, cell);
      }
    }
  }

  /** Outside the User bank a user-register write lands in the User copy alone. */
  lemma UserHighWritten(c: Cpu, reg: nat, v: Word, cell: Cell)
    requires c.WF() && IsCell(cell) && 8 <= reg < 13 && Mode(c.cpsr) == MODE_FIQ
    ensures Content(WriteUser(c, reg, v), cell) == if cell == CellOf(MODE_USER, reg) then v else Content(c, cell)
  {
  }

  lemma UserStackWritten(c: Cpu, reg: nat, v: Word, cell: Cell)
    requires c.WF() && IsCell(cell) && 13 <= reg < 15 && BankOf(Mode(c.cpsr)) != BANK_USER
    ensures Content(WriteUser(c, reg, v), cell) == if cell == CellOf(MODE_USER, reg) then v else Content(c, cell)
  {
    hide Mode, WriteUser;
    UserStackCopy(c, reg, v, Mode(c.cpsr));
  }

  lemma UserStackCopy(c: Cpu, reg: nat, v: Word, mode: Word)
    requires c.WF() && 13 <= reg < 15 && mode == Mode(c.cpsr) && BankOf(mode) != BANK_USER
    ensures WriteUser(c, reg, v) ==
            if reg == 13 then c.(sp := c.sp[BANK_USER := v]) else c.(lr := c.lr[BANK_USER := v])
  {
    hide Mode;
  }

  lemma UserCopyWritten(c: Cpu, reg: nat, v: Word, cell: Cell)
    requires c.WF() && IsCell(cell)
    requires (8 <= reg < 13 && Mode(c.cpsr) == MODE_FIQ) || (13 <= reg < 15 && BankOf(Mode(c.cpsr)) != BANK_USER)
    ensures Content(WriteUser(c, reg, v), cell) == if cell == CellOf(MODE_USER, reg) then v else Content(c, cell)
  {
    if reg < 13 {
      UserHighWritten(c, reg, v, cell);
    } else {
      UserStackWritten(c, reg, v, cell);
    }
    hide *;
  }

  /** The modes of section A2.2 by number: seven in all, five with registers of their own. */
  predicate OwnRegisters(mode: Word) { mode == 0x11 || mode == 0x12 || mode == 0x13 || mode == 0x17 || mode == 0x1B }

  lemma ModeTable(mode: Word)
    ensures Architectural(mode) <==> OwnRegisters(mode) || mode == 0x10 || mode == 0x1F
    ensures HasNoSpsr(mode) <==> mode == 0x10 || mode == 0x1F
    ensures BankOf(mode) == BANK_USER <==> !OwnRegisters(mode)
  {
  }

  /**
   Table A2-1: two names in two modes are one physical register exactly if they are the same
   name and it is R0-R7 or the PC; or R8-R12, both modes FIQ or neither; or R13 or R14, and the
   modes are the same or neither has registers of its own.
   */
  lemma RegisterTable(a: Word, x: nat, b: Word, y: nat)
    requires x < 16 && y < 16
    ensures CellOf(a, x) == CellOf(b, y) <==>
            x == y && (x < 8 || x == 15 || (8 <= x < 13 && (a == 0x11 <==> b == 0x11)) ||
                       (13 <= x < 15 && (a == b || (!OwnRegisters(a) && !OwnRegisters(b)))))
  {
  }

  /** Each mode with registers of its own has its own SPSR. */
  lemma SpsrTable(a: Word, b: Word)
    ensures Spsr(BankOf(a)) == Spsr(BankOf(b)) <==> a == b || (!OwnRegisters(a) && !OwnRegisters(b))
  {
  }

  /** CPSR on entry: the new mode, ARM state, IRQs masked, every other bit as it was. */
  predicate EnteredFrom(saved: Word, mode: Word, psr: Word) {
    Mode(psr) == mode && psr & 0x20 == 0 && psr & 0x80 == 0x80 && psr & 0xFFFF_FF40 == saved & 0xFFFF_FF40
  }

  lemma EntryBits(saved: Word, mode: Word)
    requires mode & 0x1F == mode
    ensures EnteredFrom(saved, mode, EntryPsr(saved, mode))
  {
  }

  /**
   What the copies hold after a mode switch. Between modes of one bank nothing moves but CPSR,
   and copies stay as stale as they were; otherwise the copies of the mode left are those of its
   live registers, and no other copy changes.
   */
  lemma SwitchCopies(c: Cpu, psr: Word)
    requires c.WF()
    ensures var d, from := SwitchPsr(c, psr), BankOf(Mode(c.cpsr));
            && (from == BankOf(Mode(psr)) ==> d == c.(cpsr := psr))
            && (from != BankOf(Mode(psr)) ==> Refreshed(c, d))
  {
  }

  /** The copies of `d` are those of `c` with the bank of `c`'s mode refreshed from its live registers. */
  predicate Refreshed(c: Cpu, d: Cpu)
    requires c.WF()
  {
    var from := BankOf(Mode(c.cpsr));
    && d.sp == c.sp[from := c.R[13]] && d.lr == c.lr[from := c.R[14]] && d.spsr == c.spsr
    && d.fiq == (if Mode(c.cpsr) == 0x11 then c.R[8..13] else c.fiq)
    && d.user == (if Mode(c.cpsr) == 0x11 then c.user else c.R[8..13])
  }

  /** An exception return refreshes the copies even within one bank; User and System mode have nothing to return from. */
  lemma ReturnCopies(c: Cpu, pc: Word)
    requires c.WF()
    ensures var d, mode := ReturnTo(c, pc), Mode(c.cpsr);
            && d.R[15] == pc
            && (mode == 0x10 || mode == 0x1F ==> d == c.(R := c.R[15 := pc]))
            && (mode != 0x10 && mode != 0x1F ==> d.cpsr == c.spsr[BankOf(mode)] && Refreshed(c, d))
  {
  }

  lemma SwitchSets(c: Cpu, psr: Word)
    requires c.WF()
    ensures SwitchPsr(c, psr).cpsr == psr
  {
  }

  /** Exception entry writes three cells: the SPSR and link register of the new mode, and the PC. */
  lemma EntryCells(c: Cpu, mode: Word, link: Word, vector: Word, cell: Cell)
    requires c.WF() && mode & 0x1F == mode && IsCell(cell)
    ensures Content(EnterException(c, mode, link, vector), cell) ==
            if cell == Spsr(BankOf(mode)) then c.cpsr
            else if cell == Lr(BankOf(mode)) then link
            else if cell == Pc then vector
            else Content(c, cell)
  {
    var psr := EntryPsr(c.cpsr, mode);
    EntryPsrMode(c.cpsr, mode);
    SwitchKeepsCell(c, psr, cell);
    SwitchSets(c, psr);
    hide SwitchPsr, EntryPsr, Mode;
    var d := SwitchPsr(c, psr);
    var e := d.(spsr := d.spsr[BankOf(mode) := c.cpsr]);
    SpsrWritten(d, BankOf(mode), c.cpsr, cell);
    SlotWritten(e, 14, link, cell);
    SlotWritten(e.(R := e.R[14 := link]), 15, vector, cell);
  }

  lemma SpsrWritten(c: Cpu, bank: nat, v: Word, cell: Cell)
    requires c.WF() && bank < BANKS && IsCell(cell)
    ensures Content(c.(spsr := c.spsr[bank := v]), cell) == if cell == Spsr(bank) then v else Content(c, cell)
  {
    hide Mode;
  }

  /**
   SWI entry is that of section A2.6.4: LR_svc is the address after the SWI, SPSR_svc the old
   CPSR, CPSR Supervisor mode in ARM state with IRQs masked and otherwise unchanged, the PC 8;
   no other physical register changes.
   */
  lemma SwiEntryArchitecture(c: Cpu, cell: Cell)
    requires c.WF() && IsCell(cell)
    ensures var d := SwiEntry(c);
            && Content(d, cell) ==
               (if cell == Spsr(BANK_SUPERVISOR) then c.cpsr
                else if cell == Lr(BANK_SUPERVISOR) then Content(c, Pc)
                else if cell == Pc then 8
                else Content(c, cell))
            && EnteredFrom(c.cpsr, 0x13, d.cpsr)
  {
    EntryCells(c, MODE_SUPERVISOR, c.R[15], 8, cell);
    EntryBits(c.cpsr, MODE_SUPERVISOR);
    SwitchSets(c, EntryPsr(c.cpsr, MODE_SUPERVISOR));
    hide SwitchPsr, EntryPsr, Mode, EnteredFrom;
  }

  /** IRQ entry likewise, through the vector at 18h with LR_irq four past the return address. */
  lemma IrqEntryArchitecture(c: Cpu, returnAddress: Word, cell: Cell)
    requires c.WF() && IsCell(cell)
    ensures var d := IrqEntry(c, returnAddress);
            && Content(d, cell) ==
               (if cell == Spsr(BANK_IRQ) then c.cpsr
                else if cell == Lr(BANK_IRQ) then returnAddress + 4
                else if cell == Pc then 0x18
                else Content(c, cell))
            && EnteredFrom(c.cpsr, 0x12, d.cpsr)
  {
    EntryCells(c, MODE_IRQ, returnAddress + 4, 0x18, cell);
    EntryBits(c.cpsr, MODE_IRQ);
    SwitchSets(c, EntryPsr(c.cpsr, MODE_IRQ));
    hide SwitchPsr, EntryPsr, Mode, EnteredFrom;
  }

  function And(x: Word, y: Word): Word { x & y }

  /** Where byte `field` is (0 for bits 0-7), and the mask bit that names it. */
  function FieldMask(field: nat): Word
    requires field < 4
  {
    if field == 0 then 0xFF else if field == 1 then 0xFF00 else if field == 2 then 0xFF_0000 else 0xFF00_0000
  }

  predicate FieldNamed(mask: Word, field: nat)
    requires field < 4
  {
    mask & (if field == 0 then 1 else if field == 1 then 2 else if field == 2 then 4 else 8) != 0
  }

  function FieldOf(x: Word, field: nat): Word
    requires field < 4
  {
    And(x, FieldMask(field))
  }

  lemma MergeAt(old_: Word, value: Word, bits: Word, f: Word)
    ensures And(bits, f) == f ==> And(Merge(old_, value, bits), f) == And(value, f)
    ensures And(bits, f) == 0 ==> And(Merge(old_, value, bits), f) == And(old_, f)
  {
    hide And, Merge;
    MergeNamed(old_, value, bits, f);
    MergeKept(old_, value, bits, f);
  }

  lemma MergeNamed(old_: Word, value: Word, bits: Word, f: Word)
    ensures And(bits, f) == f ==> And(Merge(old_, value, bits), f) == And(value, f)
  {
  }

  lemma MergeKept(old_: Word, value: Word, bits: Word, f: Word)
    ensures And(bits, f) == 0 ==> And(Merge(old_, value, bits), f) == And(old_, f)
  {
  }

  lemma BitsAt(mask: Word, field: nat)
    requires field < 4
    ensures And(FieldBits(mask), FieldMask(field)) == if FieldNamed(mask, field) then FieldMask(field) else 0
  {
  }

  lemma FlagBitsAt(bits: Word, field: nat)
    requires field < 4
    ensures And(And(bits, 0xFF00_0000), FieldMask(field)) == if field == 3 then And(bits, FieldMask(3)) else 0
  {
  }

  /** The bits an MSR may replace are whole fields, and in User mode at most the flag field. */
  lemma CpsrBitsAt(cpsr: Word, mask: Word, field: nat)
    requires field < 4
    ensures And(CpsrBits(cpsr, mask), FieldMask(field)) ==
            if FieldNamed(mask, field) && (field == 3 || Mode(cpsr) != MODE_USER) then FieldMask(field) else 0
  {
    BitsAt(mask, field);
    BitsAt(mask, 3);
    FlagBitsAt(FieldBits(mask), field);
    assert And(FieldBits(mask), 0xFF00_0000) == FieldBits(mask) & 0xFF00_0000;
    hide And, FieldBits, FieldMask, FieldNamed, Mode;
  }

  /**
   An MSR to CPSR replaces exactly the fields its mask names, and in User mode only the flag
   field; whatever mode that selects, no physical register changes.
   */
  lemma MsrCpsrFields(c: Cpu, value: Word, mask: Word, field: nat, cell: Cell)
    requires c.WF() && field < 4 && IsCell(cell)
    ensures var d := MsrCpsr(c, value, mask);
            && Content(d, cell) == Content(c, cell)
            && FieldOf(d.cpsr, field) ==
               FieldOf(if FieldNamed(mask, field) && (field == 3 || Mode(c.cpsr) != MODE_USER) then value else c.cpsr, field)
  {
    var psr := Merge(c.cpsr, value, CpsrBits(c.cpsr, mask));
    SwitchKeepsCell(c, psr, cell);
    SwitchSets(c, psr);
    CpsrBitsAt(c.cpsr, mask, field);
    MergeAt(c.cpsr, value, CpsrBits(c.cpsr, mask), FieldMask(field));
    hide SwitchPsr, Merge, CpsrBits, FieldMask, FieldNamed, And, Mode, Content;
  }

  /**
   An MSR to SPSR replaces exactly the fields its mask names, in the SPSR of the present mode, which
   every mode but those that share the User registers has; nothing else changes.
   */
  lemma MsrSpsrFields(c: Cpu, value: Word, mask: Word, field: nat, cell: Cell)
    requires c.WF() && field < 4 && IsCell(cell)
    ensures var d, mode := MsrSpsr(c, value, mask), Mode(c.cpsr);
            && d.cpsr == c.cpsr
            && (OwnRegisters(mode) && cell == Spsr(BankOf(mode)) ==>
                  FieldOf(Content(d, cell), field) == FieldOf(if FieldNamed(mask, field) then value else Content(c, cell), field))
            && (!(OwnRegisters(mode) && cell == Spsr(BankOf(mode))) ==> Content(d, cell) == Content(c, cell))
  {
    hide Merge, FieldBits, FieldMask, FieldNamed, And, Mode, BankOf;
    var bank := BankOf(Mode(c.cpsr));
    ModeTable(Mode(c.cpsr));
    BitsAt(mask, field);
    MergeAt(c.spsr[bank], value, FieldBits(mask), FieldMask(field));
  }

  lemma EnterSimulates(c: Cpu, f: Flat, mode: Word, link: Word, vector: Word)
    requires c.WF() && Simulates(c, f) && mode & 0x1F == mode
    ensures Simulates(EnterException(c, mode, link, vector), FlatEnter(f, mode, link, vector))
  {
    var psr := EntryPsr(c.cpsr, mode);
    EntryPsrMode(c.cpsr, mode);
    SwitchKeepsCells(c, psr, f);
    var d, g := SwitchPsr(c, psr), f.(cpsr := psr);
    SpsrSimulates(d, g, BankOf(mode), c.cpsr);
    d, g := d.(spsr := d.spsr[BankOf(mode) := c.cpsr]), g.(cells := g.cells[Spsr(BankOf(mode)) := c.cpsr]);
    WriteSimulates(d, g, 14, link);
    d, g := d.(R := d.R[14 := link]), g.(cells := g.cells[Lr(BankOf(mode)) := link]);
    WriteSimulates(d, g, 15, vector);
  }

  lemma RestoreSimulates(c: Cpu, f: Flat)
    requires c.WF() && Simulates(c, f)
    ensures Simulates(RestoreCpsr(c), FlatRestore(f))
  {
    if !HasNoSpsr(Mode(c.cpsr)) {
      assert f.cells[Spsr(BankOf(Mode(c.cpsr)))] == c.spsr[BankOf(Mode(c.cpsr))];
      SwitchKeepsCells(c, c.spsr[BankOf(Mode(c.cpsr))], f);
    }
  }

  /** The user-register transfers tell User/System apart from the other modes by the mode number alone. */
  predicate Guarded(cpsr: Word, op: Op) {
    (op.WriteUserBank? || op.ReadUserBank?) && (op.reg == 13 || op.reg == 14) ==> Architectural(Mode(cpsr))
  }

  lemma UserReadMatches(c: Cpu, reg: nat)
    requires c.WF() && reg < 16 && (reg == 13 || reg == 14 ==> Architectural(Mode(c.cpsr)))
    ensures ReadUser(c, reg) == Content(c, CellOf(MODE_USER, reg))
  {
  }

  lemma ReadSimulates(c: Cpu, f: Flat, op: Op)
    requires c.WF() && Simulates(c, f) && IsOp(op) && Guarded(c.cpsr, op)
    requires op.ReadVisible? || op.ReadUserBank? || op.ReadSpsr?
    ensures CpuStep(c, op).0 == c && FlatStep(f, op).0 == f
    ensures CpuStep(c, op).1 == FlatStep(f, op).1
  {
    match op {
      case ReadVisible(reg) =>
        var cell := CellOf(Mode(c.cpsr), reg);
        assert f.cells[cell] == Content(c, cell) == c.R[reg];
      case ReadUserBank(reg) => UserReadMatches(c, reg);
      case ReadSpsr => assert f.cells[Spsr(BankOf(Mode(c.cpsr)))] == c.spsr[BankOf(Mode(c.cpsr))];
    }
  }

  lemma WriteSpsrSimulates(c: Cpu, f: Flat, v: Word, m: Word)
    requires c.WF() && Simulates(c, f)
    ensures Simulates(MsrSpsr(c, v, m), FlatStep(f, WriteSpsr(v, m)).0)
  {
    var bank := BankOf(Mode(c.cpsr));
    assert f.cells[Spsr(bank)] == c.spsr[bank];
    SpsrSimulates(c, f, bank, Merge(c.spsr[bank], v, FieldBits(m)));
  }

  lemma ReturnSimulates(c: Cpu, f: Flat, pc: Word)
    requires c.WF() && Simulates(c, f)
    ensures Simulates(ReturnTo(c, pc), FlatStep(f, Return(pc)).0)
  {
    RestoreSimulates(c, f);
    WriteSimulates(RestoreCpsr(c), FlatRestore(f), 15, pc);
  }

  lemma SwiSimulates(c: Cpu, f: Flat)
    requires c.WF() && Simulates(c, f)
    ensures Simulates(SwiEntry(c), FlatStep(f, Swi).0)
  {
    assert f.cells[Pc] == Content(c, Pc) == c.R[15];
    EnterSimulates(c, f, MODE_SUPERVISOR, c.R[15], 8);
  }

  lemma TransferSimulates(c: Cpu, f: Flat, op: Op)
    requires c.WF() && Simulates(c, f) && IsOp(op) && Guarded(c.cpsr, op)
    requires op.Write? || op.WriteUserBank?
    ensures Simulates(CpuStep(c, op).0, FlatStep(f, op).0)
  {
    if op.Write? {
      WriteSimulates(c, f, op.reg, op.value);
    } else {
      WriteUserSimulates(c, f, op.reg, op.value);
    }
  }

  lemma PsrSimulates(c: Cpu, f: Flat, op: Op)
    requires c.WF() && Simulates(c, f) && IsOp(op)
    requires op.WriteCpsr? || op.WriteSpsr? || op.CopySpsr?
    ensures Simulates(CpuStep(c, op).0, FlatStep(f, op).0)
  {
    if op.WriteCpsr? {
      SwitchKeepsCells(c, Merge(c.cpsr, op.value, CpsrBits(c.cpsr, op.mask)), f);
    } else if op.WriteSpsr? {
      WriteSpsrSimulates(c, f, op.value, op.mask);
    } else {
      RestoreSimulates(c, f);
    }
  }

  lemma ExceptionSimulates(c: Cpu, f: Flat, op: Op)
    requires c.WF() && Simulates(c, f) && IsOp(op)
    requires op.Swi? || op.Irq? || op.Return?
    ensures Simulates(CpuStep(c, op).0, FlatStep(f, op).0)
  {
    if op.Swi? {
      SwiSimulates(c, f);
    } else if op.Irq? {
      EnterSimulates(c, f, MODE_IRQ, op.returnAddress + 4, 0x18);
    } else {
      ReturnSimulates(c, f, op.pc);
    }
  }

  /** Every operation acts on the physical cells as the flat machine's does, and reads the same value. */
  lemma StepSimulates(c: Cpu, f: Flat, op: Op)
    requires c.WF() && Simulates(c, f) && IsOp(op) && Guarded(c.cpsr, op)
    ensures Simulates(CpuStep(c, op).0, FlatStep(f, op).0)
    ensures CpuStep(c, op).1 == FlatStep(f, op).1
  {
    if op.ReadVisible? || op.ReadUserBank? || op.ReadSpsr? {
      ReadSimulates(c, f, op);
    } else if op.Write? || op.WriteUserBank? {
      TransferSimulates(c, f, op);
    } else if op.WriteCpsr? || op.WriteSpsr? || op.CopySpsr? {
      PsrSimulates(c, f, op);
    } else {
      ExceptionSimulates(c, f, op);
    }
  }

  // ── Whole runs ────────────────────────────────────────────────────

  function CpuRun(c: Cpu, ops: seq<Op>): (r: (Cpu, seq<Option<Word>>))
    requires c.WF() && forall op :: op in ops ==> IsOp(op)
    ensures r.0.WF()
    decreases |ops|
  {
    if ops == [] then (c, [])
    else
      var s := CpuStep(c, ops[0]);
      var t := CpuRun(s.0, ops[1..]);
      (t.0, [s.1] + t.1)
  }

  ghost function FlatRun(f: Flat, ops: seq<Op>): (r: (Flat, seq<Option<Word>>))
    requires f.WF() && forall op :: op in ops ==> IsOp(op)
    ensures r.0.WF()
    decreases |ops|
  {
    if ops == [] then (f, [])
    else
      var s := FlatStep(f, ops[0]);
      var t := FlatRun(s.0, ops[1..]);
      (t.0, [s.1] + t.1)
  }

  /** Every R13/R14 user-register transfer of the script happens in an architectural mode of the flat machine. */
  ghost predicate GuardedRun(f: Flat, ops: seq<Op>)
    requires f.WF() && forall op :: op in ops ==> IsOp(op)
    decreases |ops|
  {
    ops != [] ==> Guarded(f.cpsr, ops[0]) && GuardedRun(FlatStep(f, ops[0]).0, ops[1..])
  }

  /**
   The banking theorem: over every script, lazily stale copies and all, the
   register file reads and ends exactly as one cell per physical register does.
   */
  lemma {:induction false} RunRefinesFlat(c: Cpu, f: Flat, ops: seq<Op>)
    requires c.WF() && Simulates(c, f) && forall op :: op in ops ==> IsOp(op)
    requires GuardedRun(f, ops)
    ensures Simulates(CpuRun(c, ops).0, FlatRun(f, ops).0)
    ensures CpuRun(c, ops).1 == FlatRun(f, ops).1
    decreases |ops|
  {
    if ops != [] {
      StepSimulates(c, f, ops[0]);
      RunRefinesFlat(CpuStep(c, ops[0]).0, FlatStep(f, ops[0]).0, ops[1..]);
    }
  }

  /** Distinct names of one mode are distinct cells, and only FIQ has its own R8-R12. */
  lemma CellsDoNotAlias(mode: Word, a: nat, b: nat)
    requires a < 16 && b < 16
    ensures CellOf(mode, a) == CellOf(mode, b) ==> a == b
    ensures forall other :: BankOf(other) == BankOf(mode) ==> CellOf(mode, a) == CellOf(other, a)
  {
  }

  /** A machine that sits in `mode` with a live R13/R14 that differs from the User copies. */
  function StaleCpu(mode: Word): (c: Cpu)
    ensures c.WF() && c.cpsr == mode
  {
    var z := seq(BANKS, _ => 0);
    Cpu(seq(16, _ => 1), mode, z, z, z, [0, 0, 0, 0, 0], [0, 0, 0, 0, 0])
  }

  /**
   A user-bank store writes the User cell of its register and no other, whatever the mode, if that
   is one of the seven or the register is not R13 or R14.
   */
  lemma UserWriteExact(c: Cpu, reg: nat, v: Word, cell: Cell)
    requires c.WF() && reg < 16 && IsCell(cell)
    requires Mode(c.cpsr) in {0x10, 0x11, 0x12, 0x13, 0x17, 0x1B, 0x1F} || (reg != 13 && reg != 14)
    ensures var d := WriteUser(c, reg, v);
            d.cpsr == c.cpsr && Content(d, cell) == if cell == CellOf(0x10, reg) then v else Content(c, cell)
  {
    var mode := Mode(c.cpsr);
    ModeTable(mode);
    if reg < 8 || reg == 15 || (reg < 13 && mode != MODE_FIQ) || (reg >= 13 && HasNoSpsr(mode)) {
      SlotWritten(c, reg, v, cell);
      hide Mode, Content;
    } else {
      UserCopyWritten(c, reg, v, cell);
      hide Mode, Content;
    }
  }

  /**
   The user-register read returns the User cell in every state of a mode exactly
   when the mode is one of the seven or the register is not R13 or R14.
   */
  lemma UserReadExact(mode: Word, reg: nat)
    requires mode & 0x1F == mode && reg < 16
    ensures (forall c: Cpu :: c.WF() && Mode(c.cpsr) == mode ==> ReadUser(c, reg) == Content(c, CellOf(0x10, reg)))
        <==> (mode in {0x10, 0x11, 0x12, 0x13, 0x17, 0x1B, 0x1F} || (reg != 13 && reg != 14))
  {
    ModeTable(mode);
    if !Architectural(mode) && (reg == 13 || reg == 14) {
      var c := StaleCpu(mode);
      assert Mode(c.cpsr) == mode;
      assert ReadUser(c, reg) != Content(c, CellOf(MODE_USER, reg));
    }
  }
}
