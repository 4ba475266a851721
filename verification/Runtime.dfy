/**
 The runtime's globals updated in place: the register file, the call-return
 stack, the SWI ledger and the interrupt bookkeeping, with both IRQ deliveries.
 */
module Runtime {
  import opened Common
  import opened ArmCpu
  import opened CallStack
  import opened Machine
  import Flat = FlatRegisters
  import SwiLedger
  import IrqPaths

  class Runtime {
    const cpu: Registers
    const calls: CallReturnStack
    const ledger: SwiLedger.Ledger
    var frames: seq<Frame>
    var nest: nat
    var iret: nat
    var suspended: bool

    ghost function Repr(): set<object>
      reads this, cpu, calls, ledger
    {
      {this, calls, calls.slots, ledger, ledger.slots} + cpu.Repr
    }

    ghost predicate Valid()
      reads this, cpu, calls, ledger
    {
      && cpu.Valid() && calls.Valid() && ledger.Valid()
      && this !in cpu.Repr && calls !in cpu.Repr && calls.slots !in cpu.Repr
      && ledger !in cpu.Repr && ledger.slots !in cpu.Repr
    }

    ghost function View(): (m: State)
      requires Valid()
      reads this, cpu, calls, ledger, Repr()
      ensures IrqPaths.HostInv(m)
    {
      State(cpu.State(), calls.State(), ledger.Contents(), frames, nest, iret, suspended)
    }

    constructor ()
      ensures Valid() && fresh(Repr())
      ensures View() == Start()
    {
      cpu := new Registers();
      calls := new CallReturnStack();
      ledger := new SwiLedger.Ledger();
      frames, nest, iret, suspended := [], 0, 0, false;
    }

    method EnterSupervisor()
      requires Valid()
      modifies Repr()
      ensures Valid() && View() == old(View()).(cpu := SwiEntry(old(cpu.State())))
    {
      cpu.Enter(MODE_SUPERVISOR, cpu.R[15], 8);
    }

    method RecordContinuation(slot: SwiLedger.Slot)
      requires Valid()
      modifies Repr()
      ensures Valid() && View() == old(View()).(ledger := SwiLedger.Push(old(ledger.Contents()), slot))
    {
      ledger.Enter(slot);
    }

    /** `runtime_swi` up to the dispatch of the BIOS vector. */
    method Swi()
      requires Valid()
      modifies Repr()
      ensures Valid() && View() == SwiStep(old(View()))
    {
      var slot := SwiSlot(cpu.R[15], cpu.cpsr);
      EnterSupervisor();
      RecordContinuation(slot);
    }

    method BeginIrq(returnAddress: Word)
      requires Valid()
      modifies Repr()
      ensures Valid() && View() == IrqPrologue(old(View()), returnAddress)
    {
      nest := nest + 1;
      cpu.Enter(MODE_IRQ, returnAddress + 4, 0x18);
      iret := 0;
      calls.floor := calls.depth;
    }

    method SaveVolatile() returns (s: seq<Word>)
      requires Valid()
      ensures s == Volatile(cpu.State())
    {
      s := [cpu.R[0], cpu.R[1], cpu.R[2], cpu.R[3], cpu.R[12]];
    }

    method RestoreVolatile(s: seq<Word>)
      requires Valid() && |s| == 5
      modifies cpu.R
      ensures Valid() && View() == old(View()).(cpu := WithVolatile(old(cpu.State()), s))
    {
      cpu.R[0], cpu.R[1], cpu.R[2], cpu.R[3], cpu.R[12] := s[0], s[1], s[2], s[3], s[4];
    }

    /** `runtime_irq` with a resumable context. */
    method DeliverResumable(returnAddress: Word)
      requires Valid()
      modifies Repr()
      ensures Valid() && View() == IrqStep(old(View()), returnAddress)
    {
      var preserved := SaveVolatile();
      var frame := Frame(preserved, calls.floor, calls.depth, iret);
      BeginIrq(returnAddress);
      frames := frames + [frame];
      suspended := true;
    }

    /** The part of `runtime_exception_return` that both paths share. */
    method Leave(newPc: Word)
      requires Valid()
      modifies Repr()
      ensures Valid() && View() == PlainReturn(old(View()), newPc)
    {
      var mode := Mode(cpu.cpsr);
      cpu.RestoreFromSpsr();
      var pc := newPc;
      if mode == MODE_SUPERVISOR {
        var overridden;
        pc, overridden := ledger.Leave(newPc);
      }
      cpu.WriteVisible(15, pc);
    }

    /** `runtime_exception_return` with a resumable context; false is the throw. */
    method ReturnResumable(newPc: Word) returns (ok: bool)
      requires Valid() && Inv(View())
      modifies Repr()
      ensures Valid()
      ensures ok <==> Step(old(View()), Return(newPc)).Some?
      ensures ok ==> View() == Step(old(View()), Return(newPc)).value
    {
      if frames != [] {
        TopFrame(View());
      }
      var mode := Mode(cpu.cpsr);
      Leave(newPc);
      if mode != MODE_IRQ {
        return true;
      }
      if frames == [] {
        return false;
      }
      ResumeInterrupted();
      return true;
    }

    /** Pop the top continuation and restore what it holds. */
    method ResumeInterrupted()
      requires Valid() && frames != [] && nest > 0
      requires |frames[|frames| - 1].preserved| == 5
      requires frames[|frames| - 1].returnFloor <= frames[|frames| - 1].returnDepth <= calls.depth
      modifies Repr()
      ensures Valid() && View() == Resumed(old(View()))
    {
      iret := nest;
      var frame := frames[|frames| - 1];
      frames := frames[..|frames| - 1];
      RestoreVolatile(frame.preserved);
      CutCalls(frame.returnDepth, frame.returnFloor);
      iret := frame.iretDepth;
      nest := nest - 1;
      suspended := true;
    }

    method CutCalls(depth: nat, floor: nat)
      requires Valid() && floor <= depth <= calls.depth
      modifies calls
      ensures Valid()
      ensures View() == old(View()).(calls := CutTo(old(calls.State()), depth).(floor := floor))
    {
      assert calls.slots[..depth] == calls.slots[..calls.depth][..depth];
      calls.depth := depth;
      calls.hostless := Min(calls.hostless, depth);
      calls.floor := floor;
    }

    // ── The recursive path ──────────────────────────────────────────

    method PerformGuest(op: Flat.Op)
      requires Valid() && Machine.Plain(op)
      modifies Repr()
      ensures Valid() && View() == old(View()).(cpu := Flat.CpuStep(old(cpu.State()), op).0)
    {
      match op {
        case Write(reg, v) => cpu.WriteVisible(reg, v);
        case WriteUserBank(reg, v) => cpu.WriteUserReg(reg, v);
        case WriteCpsr(v, m) => cpu.WriteCpsr(v, m);
        case WriteSpsr(v, m) => cpu.WriteSpsr(v, m);
        case CopySpsr => cpu.RestoreFromSpsr();
        case ReadVisible(_) =>
        case ReadUserBank(_) =>
        case ReadSpsr =>
      }
    }

    method PerformHints(hints: seq<IrqPaths.Hint>) returns (ok: bool)
      requires Valid()
      modifies Repr()
      ensures Valid()
      ensures ok <==> IrqPaths.RunHints(old(calls.State()), hints).Some?
      ensures ok ==> View() == old(View()).(calls := IrqPaths.RunHints(old(calls.State()), hints).value)
      decreases |hints|
    {
      if hints == [] {
        return true;
      }
      match hints[0] {
        case PushHint(pc) =>
          ok := calls.Push(pc);
          if !ok {
            return false;
          }
        case MatchHint(pc) =>
          var found := calls.Matches(pc);
        case CancelHint(pc, suspended) =>
          calls.Cancel(pc, suspended);
      }
      ok := PerformHints(hints[1..]);
    }

    /** One item of guest execution without a resumable context. */
    method Perform(item: IrqPaths.Item) returns (ok: bool)
      requires Valid()
      modifies Repr()
      ensures Valid()
      ensures ok <==> IrqPaths.IsItem(item) && IrqPaths.RecursiveItem(old(View()), item).Some?
      ensures ok ==> View() == IrqPaths.RecursiveItem(old(View()), item).value
      decreases item
    {
      match item {
        case Plain(op) =>
          if !Machine.Plain(op) {
            return false;
          }
          PerformGuest(op);
          return true;
        case Call =>
          Swi();
          return true;
        case Leave(pc) =>
          if Mode(cpu.cpsr) == MODE_IRQ {
            return false;
          }
          Leave(pc);
          return true;
        case Hints(_, hints) =>
          ok := PerformHints(hints);
        case Interrupt(ret, handler, pc) =>
          ok := DriveIrq(ret, handler, pc);
      }
    }

    /** One dispatch of the drive loop: the next item of the handler, or its return. */
    method Dispatch(ghost e: State, handler: seq<IrqPaths.Item>, i: nat, pc: Word) returns (ok: bool)
      requires Valid() && i <= |handler|
      requires IrqPaths.HostInv(e) && IrqPaths.Driving(e, handler, i, pc, View())
      modifies Repr()
      ensures Valid()
      ensures ok ==> IrqPaths.Driving(e, handler, i + 1, pc, View())
      ensures !ok ==> IrqPaths.Driven(e, handler, pc).None?
      decreases handler, 0
    {
      if i < |handler| {
        IrqPaths.RunOneMore(e, handler, i);
        ok := Perform(handler[i]);
        if ok {
          IrqPaths.RecursiveKeeps(e, handler[..i + 1]);
        }
      } else {
        assert handler[..i] == handler;
        ok := Mode(cpu.cpsr) == MODE_IRQ;
        if ok {
          Leave(pc);
          iret := nest;
        }
      }
    }

    /** Dispatch until `iret` shows that this interrupt's own handler has returned. */
    method RunHandler(handler: seq<IrqPaths.Item>, pc: Word) returns (ok: bool)
      requires Valid() && iret == 0 < nest
      modifies Repr()
      ensures Valid()
      ensures ok <==> IrqPaths.Driven(old(View()), handler, pc).Some?
      ensures ok ==> View() == IrqPaths.Driven(old(View()), handler, pc).value && iret == old(nest)
      decreases handler, 1
    {
      ghost var e := View();
      var myDepth := nest;
      var i := 0;
      while iret != myDepth
        invariant Valid() && i <= |handler| + 1
        invariant IrqPaths.Driving(e, handler, i, pc, View())
        decreases |handler| + 1 - i
      {
        ok := Dispatch(e, handler, i, pc);
        if !ok {
          return;
        }
        i := i + 1;
      }
      return true;
    }

    /** `runtime_irq` without a resumable context: drive the handler to completion on the host stack. */
    method DriveIrq(returnAddress: Word, handler: seq<IrqPaths.Item>, pc: Word) returns (ok: bool)
      requires Valid()
      modifies Repr()
      ensures Valid()
      ensures ok <==> IrqPaths.RecursiveItem(old(View()), IrqPaths.Interrupt(returnAddress, handler, pc)).Some?
      ensures ok ==> View() == IrqPaths.RecursiveItem(old(View()), IrqPaths.Interrupt(returnAddress, handler, pc)).value
      decreases handler, 2
    {
      hide IrqEntry, WithVolatile, IrqPaths.Recursive;
      var preserved := SaveVolatile();
      var savedIret, savedFloor := iret, calls.floor;
      BeginIrq(returnAddress);
      ok := RunHandler(handler, pc);
      if ok {
        EndIrq(preserved, savedIret, savedFloor);
      }
    }

    /** What the drive loop restores when it is done. */
    method EndIrq(preserved: seq<Word>, savedIret: nat, savedFloor: nat)
      requires Valid() && |preserved| == 5 && nest > 0 && savedFloor <= calls.depth
      modifies Repr()
      ensures Valid()
      ensures var y := old(View());
              View() == y.(cpu := WithVolatile(y.cpu, preserved), iret := savedIret,
                           calls := y.calls.(floor := savedFloor), nest := y.nest - 1)
    {
      RestoreVolatile(preserved);
      iret := savedIret;
      calls.floor := savedFloor;
      nest := nest - 1;
    }
  }
}
