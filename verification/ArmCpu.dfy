/**
 The ARM register file as the recompiled code keeps it: sixteen live slots plus
 bank copies that are refreshed only when the mode's bank changes, and the
 operations of runtime_arm.cpp that read, write and switch it.
 */
module ArmCpu {
  import opened Common

  const BANK_USER := 0
  const BANK_FIQ := 1
  const BANK_IRQ := 2
  const BANK_SUPERVISOR := 3
  const BANK_ABORT := 4
  const BANK_UNDEFINED := 5
  const BANKS := 6

  const MODE_USER: Word := 0x10
  const MODE_FIQ: Word := 0x11
  const MODE_IRQ: Word := 0x12
  const MODE_SUPERVISOR: Word := 0x13
  const MODE_SYSTEM: Word := 0x1F

  function Mode(psr: Word): Word { psr & 0x1F }

  /** The bank of a 5-bit mode; every mode without a bank of its own shares the User bank. */
  function BankOf(mode: Word): (b: nat)
    ensures b < BANKS
  {
    if mode == 0x11 then BANK_FIQ
    else if mode == 0x12 then BANK_IRQ
    else if mode == 0x13 then BANK_SUPERVISOR
    else if mode == 0x17 then BANK_ABORT
    else if mode == 0x1B then BANK_UNDEFINED
    else BANK_USER
  }

  predicate HasNoSpsr(mode: Word) { mode == MODE_USER || mode == MODE_SYSTEM }

  /** The seven modes of the architecture. */
  predicate Architectural(mode: Word) {
    BankOf(mode) != BANK_USER || HasNoSpsr(mode)
  }

  /** `ArmCpuState`: live registers, CPSR and the bank copies. */
  datatype Cpu = Cpu(R: seq<Word>, cpsr: Word, sp: seq<Word>, lr: seq<Word>, spsr: seq<Word>,
                     user: seq<Word>, fiq: seq<Word>)
  {
    predicate WF() {
      |R| == 16 && |sp| == |lr| == |spsr| == BANKS && |user| == |fiq| == 5
    }
  }

  /** The bits an MSR with field mask `mask` may replace. */
  function FieldBits(mask: Word): Word {
    (if mask & 1 != 0 then 0xFF else 0) | (if mask & 2 != 0 then 0xFF00 else 0) |
    (if mask & 4 != 0 then 0xFF_0000 else 0) | (if mask & 8 != 0 then 0xFF00_0000 else 0)
  }

  function Merge(old_: Word, value: Word, bits: Word): Word { (old_ & !bits) | (value & bits) }

  /** The bits an MSR to CPSR may replace in `cpsr`'s mode: User mode keeps only the flag byte. */
  function CpsrBits(cpsr: Word, mask: Word): Word {
    if Mode(cpsr) == MODE_USER then FieldBits(mask) & 0xFF00_0000 else FieldBits(mask)
  }

  /** CPSR on exception entry: the new mode, ARM state, IRQs masked. */
  function EntryPsr(saved: Word, mode: Word): Word { (saved & !0x3F) | mode | 0x80 }

  // ── Specification of the bank machinery ───────────────────────────

  function BankOut(c: Cpu, bank: nat, mode: Word): (r: Cpu)
    requires c.WF() && bank < BANKS
    ensures r.WF()
  {
    var d := c.(sp := c.sp[bank := c.R[13]], lr := c.lr[bank := c.R[14]]);
    if mode == MODE_FIQ then d.(fiq := c.R[8..13]) else d.(user := c.R[8..13])
  }

  function BankIn(c: Cpu, bank: nat, mode: Word): (r: Cpu)
    requires c.WF() && bank < BANKS
    ensures r.WF()
  {
    var high := if mode == MODE_FIQ then c.fiq else c.user;
    c.(R := c.R[..8] + high + [c.sp[bank], c.lr[bank], c.R[15]])
  }

  /** Write CPSR, swapping banks only when the bank changes. */
  function SwitchPsr(c: Cpu, psr: Word): (r: Cpu)
    requires c.WF()
    ensures r.WF()
  {
    var from, to := BankOf(Mode(c.cpsr)), BankOf(Mode(psr));
    if from == to then c.(cpsr := psr)
    else BankIn(BankOut(c, from, Mode(c.cpsr)).(cpsr := psr), to, Mode(psr))
  }

  /** Write CPSR, swapping banks unconditionally. */
  function ReloadPsr(c: Cpu, psr: Word): (r: Cpu)
    requires c.WF()
    ensures r.WF()
  {
    BankIn(BankOut(c, BankOf(Mode(c.cpsr)), Mode(c.cpsr)).(cpsr := psr), BankOf(Mode(psr)), Mode(psr))
  }

  function ReadUser(c: Cpu, reg: nat): Word
    requires c.WF() && reg < 16
  {
    var mode := Mode(c.cpsr);
    if reg < 8 || reg == 15 then c.R[reg]
    else if reg < 13 then if mode == MODE_FIQ then c.user[reg - 8] else c.R[reg]
    else if HasNoSpsr(mode) then c.R[reg]
    else if reg == 13 then c.sp[BANK_USER] else c.lr[BANK_USER]
  }

  function WriteUser(c: Cpu, reg: nat, v: Word): (r: Cpu)
    requires c.WF() && reg < 16
    ensures r.WF()
  {
    var mode := Mode(c.cpsr);
    if reg < 8 || reg == 15 then c.(R := c.R[reg := v])
    else if reg < 13 then
      if mode == MODE_FIQ then c.(user := c.user[reg - 8 := v]) else c.(R := c.R[reg := v])
    else if HasNoSpsr(mode) then c.(R := c.R[reg := v])
    else if reg == 13 then c.(sp := c.sp[BANK_USER := v])
    else c.(lr := c.lr[BANK_USER := v])
  }

  function MsrCpsr(c: Cpu, value: Word, mask: Word): (r: Cpu)
    requires c.WF()
    ensures r.WF()
  {
    SwitchPsr(c, Merge(c.cpsr, value, CpsrBits(c.cpsr, mask)))
  }

  function MsrSpsr(c: Cpu, value: Word, mask: Word): (r: Cpu)
    requires c.WF()
    ensures r.WF()
  {
    var bank := BankOf(Mode(c.cpsr));
    if bank == BANK_USER then c
    else c.(spsr := c.spsr[bank := Merge(c.spsr[bank], value, FieldBits(mask))])
  }

  /** Exception entry (ARM ARM A2.6): bank switch, SPSR, link register and vector. */
  function EnterException(c: Cpu, mode: Word, link: Word, vector: Word): (r: Cpu)
    requires c.WF()
    ensures r.WF()
  {
    var psr := EntryPsr(c.cpsr, mode);
    var d := SwitchPsr(c, psr);
    d.(spsr := d.spsr[BankOf(Mode(psr)) := c.cpsr], R := d.R[14 := link][15 := vector])
  }

  function SwiEntry(c: Cpu): (r: Cpu)
    requires c.WF()
    ensures r.WF()
  {
    EnterException(c, MODE_SUPERVISOR, c.R[15], 8)
  }

  function IrqEntry(c: Cpu, returnAddress: Word): (r: Cpu)
    requires c.WF()
    ensures r.WF()
  {
    EnterException(c, MODE_IRQ, returnAddress + 4, 0x18)
  }

  function RestoreCpsr(c: Cpu): (r: Cpu)
    requires c.WF()
    ensures r.WF()
  {
    if HasNoSpsr(Mode(c.cpsr)) then c else ReloadPsr(c, c.spsr[BankOf(Mode(c.cpsr))])
  }

  /** The register part of an exception return; `pc` is the validated target. */
  function ReturnTo(c: Cpu, pc: Word): (r: Cpu)
    requires c.WF()
    ensures r.WF()
  {
    var d := RestoreCpsr(c);
    d.(R := d.R[15 := pc])
  }

  // ── The in-place register file ────────────────────────────────────

  /** `g_cpu`, updated in place. */
  class Registers {
    const R: array<Word>
    var cpsr: Word
    const sp: array<Word>
    const lr: array<Word>
    const spsr: array<Word>
    const user: array<Word>
    const fiq: array<Word>
    ghost const Repr: set<object>

    ghost predicate Valid()
      reads this
    {
      && Repr == {this, R, sp, lr, spsr, user, fiq}
      && R.Length == 16 && sp.Length == lr.Length == spsr.Length == BANKS
      && user.Length == fiq.Length == 5
      && R != sp && R != lr && R != spsr && R != user && R != fiq
      && sp != lr && sp != spsr && sp != user && sp != fiq
      && lr != spsr && lr != user && lr != fiq
      && spsr != user && spsr != fiq && user != fiq
    }

    ghost function State(): (c: Cpu)
      requires Valid()
      reads Repr
      ensures c.WF()
    {
      Cpu(R[..], cpsr, sp[..], lr[..], spsr[..], user[..], fiq[..])
    }

    constructor ()
      ensures Valid() && fresh(Repr)
      ensures var z := seq(BANKS, _ => 0);
              State() == Cpu(seq(16, _ => 0), 0, z, z, z, [0, 0, 0, 0, 0], [0, 0, 0, 0, 0])
    {
      var r := new Word[16](_ => 0);
      var stackPointers, links, saved := new Word[BANKS](_ => 0), new Word[BANKS](_ => 0), new Word[BANKS](_ => 0);
      var userHigh, fiqHigh := new Word[5](_ => 0), new Word[5](_ => 0);
      cpsr := 0;
      R, sp, lr, spsr, user, fiq := r, stackPointers, links, saved, userHigh, fiqHigh;
      Repr := {this, r, stackPointers, links, saved, userHigh, fiqHigh};
    }

    method SaveBank(bank: nat, mode: Word)
      requires Valid() && bank < BANKS
      modifies sp, lr, user, fiq
      ensures State() == BankOut(old(State()), bank, mode)
    {
      sp[bank] := R[13];
      lr[bank] := R[14];
      if mode == MODE_FIQ {
        for i := 0 to 5
          invariant forall k :: 0 <= k < i ==> fiq[k] == R[8 + k]
          modifies fiq
        {
          fiq[i] := R[8 + i];
        }
        assert fiq[..] == R[8..13];
      } else {
        for i := 0 to 5
          invariant forall k :: 0 <= k < i ==> user[k] == R[8 + k]
          modifies user
        {
          user[i] := R[8 + i];
        }
        assert user[..] == R[8..13];
      }
    }

    method LoadBank(bank: nat, mode: Word)
      requires Valid() && bank < BANKS
      modifies R
      ensures State() == BankIn(old(State()), bank, mode)
    {
      R[13] := sp[bank];
      R[14] := lr[bank];
      ghost var high := if mode == MODE_FIQ then fiq[..] else user[..];
      for i := 0 to 5
        invariant R[13] == sp[bank] && R[14] == lr[bank] && R[15] == old(R[15])
        invariant forall k :: 0 <= k < 8 ==> R[k] == old(R[k])
        invariant forall k :: 0 <= k < i ==> R[8 + k] == high[k]
      {
        R[8 + i] := if mode == MODE_FIQ then fiq[i] else user[i];
      }
      assert R[..] == old(R[..8]) + high + [sp[bank], lr[bank], old(R[15])];
    }

    /** The mode switch shared by MSR and the exception entries. */
    method Switch(psr: Word)
      requires Valid()
      modifies this`cpsr, R, sp, lr, user, fiq
      ensures State() == SwitchPsr(old(State()), psr)
    {
      var before := cpsr;
      var from, to := BankOf(Mode(before)), BankOf(Mode(psr));
      cpsr := psr;
      if from != to {
        SaveBank(from, Mode(before));
        LoadBank(to, Mode(psr));
      }
    }

    method WriteCpsr(value: Word, mask: Word)
      requires Valid()
      modifies this`cpsr, R, sp, lr, user, fiq
      ensures State() == MsrCpsr(old(State()), value, mask)
    {
      var bits := FieldBits(mask);
      if Mode(cpsr) == MODE_USER {
        bits := bits & 0xFF00_0000;
      }
      Switch(Merge(cpsr, value, bits));
    }

    method WriteSpsr(value: Word, mask: Word)
      requires Valid()
      modifies spsr
      ensures State() == MsrSpsr(old(State()), value, mask)
    {
      var bank := BankOf(Mode(cpsr));
      if bank == BANK_USER {
        return;
      }
      var bits := FieldBits(mask);
      spsr[bank] := Merge(spsr[bank], value, bits);
    }

    method WriteVisible(reg: nat, v: Word)
      requires Valid() && reg < 16
      modifies R
      ensures State() == old(State()).(R := old(R[..])[reg := v])
    {
      R[reg] := v;
    }

    method WriteUserReg(reg: nat, v: Word)
      requires Valid() && reg < 16
      modifies R, sp, lr, user
      ensures State() == WriteUser(old(State()), reg, v)
    {
      var mode := Mode(cpsr);
      if reg < 8 || reg == 15 {
        R[reg] := v;
      } else if reg < 13 {
        if mode == MODE_FIQ {
          user[reg - 8] := v;
        } else {
          R[reg] := v;
        }
      } else if HasNoSpsr(mode) {
        R[reg] := v;
      } else if reg == 13 {
        sp[BANK_USER] := v;
      } else {
        lr[BANK_USER] := v;
      }
    }

    method ReadUserReg(reg: nat) returns (v: Word)
      requires Valid() && reg < 16
      ensures v == ReadUser(State(), reg)
    {
      var mode := Mode(cpsr);
      if reg < 8 || reg == 15 { return R[reg]; }
      if reg < 13 { return if mode == MODE_FIQ then user[reg - 8] else R[reg]; }
      if HasNoSpsr(mode) { return R[reg]; }
      return if reg == 13 then sp[BANK_USER] else lr[BANK_USER];
    }

    method Enter(mode: Word, link: Word, vector: Word)
      requires Valid()
      modifies Repr
      ensures State() == EnterException(old(State()), mode, link, vector)
    {
      var saved := cpsr;
      var psr := EntryPsr(saved, mode);
      Switch(psr);
      spsr[BankOf(Mode(psr))] := saved;
      R[14] := link;
      R[15] := vector;
    }

    method RestoreFromSpsr()
      requires Valid()
      modifies Repr
      ensures State() == RestoreCpsr(old(State()))
    {
      var before := cpsr;
      if HasNoSpsr(Mode(before)) {
        return;
      }
      var bank := BankOf(Mode(before));
      var psr := spsr[bank];
      SaveBank(bank, Mode(before));
      cpsr := psr;
      LoadBank(BankOf(Mode(psr)), Mode(psr));
    }
  }
}
