/**
 The two ways runtime_arm.cpp delivers an interrupt: as an explicit continuation
 that the dispatcher resumes, and as a host-recursive loop that drives the
 handler until its exception return. Both run the same guest script here.
 */
module IrqPaths {
  import opened Common
  import opened ArmCpu
  import opened CallStack
  import opened Machine
  import Flat = FlatRegisters
  import Ledger = SwiLedger

  /** A call-stack operation. It only steers host unwinding, so the two paths may perform different ones. */
  datatype Hint =
    | PushHint(pc: Word)
    | MatchHint(pc: Word)
    | CancelHint(pc: Word, suspended: bool)

  /** What a guest does between two interrupt boundaries. */
  datatype Item =
    | Plain(op: Flat.Op)
    | Call                       // SWI
    | Leave(pc: Word)            // an exception return from a mode other than IRQ
    | Hints(resumable: seq<Hint>, recursive: seq<Hint>)
    | Interrupt(returnAddress: Word, handler: seq<Item>, pc: Word)

  predicate IsItem(i: Item) { i.Plain? ==> Machine.Plain(i.op) }

  /** One operation; `None` is the abort of a push. */
  function HintStep(c: Calls, hint: Hint): (r: Option<Calls>)
    requires c.Inv()
    ensures r.Some? ==> r.value.Inv()
  {
    assert PushReturn(c, hint.pc).Some? ==> PushReturn(c, hint.pc).value.Inv() by { OperationsKeepBelow(c, hint.pc, false); }
    match hint
    case PushHint(pc) => PushReturn(c, pc)
    case MatchHint(pc) => Some(ShouldReturn(c, pc).0)
    case CancelHint(pc, suspended) => Some(CancelReturn(c, pc, suspended))
  }

  /** An operation of a script is the machine's, on its call stack. */
  lemma HintIsStep(m: State, hint: Hint)
    requires Inv(m) && (hint.CancelHint? ==> hint.suspended == m.suspended)
    ensures var s := Step(m, match hint
                             case PushHint(pc) => PushCall(pc)
                             case MatchHint(pc) => MatchReturn(pc)
                             case CancelHint(pc, _) => CancelCall(pc));
            && (s.Some? <==> HintStep(m.calls, hint).Some?)
            && (s.Some? ==> s.value == m.(calls := HintStep(m.calls, hint).value))
  {
  }

  function RunHints(c: Calls, hints: seq<Hint>): (r: Option<Calls>)
    requires c.Inv()
    ensures r.Some? ==> r.value.Inv()
    decreases |hints|
  {
    if hints == [] then Some(c)
    else
      var d := HintStep(c, hints[0]);
      if d.None? then None else RunHints(d.value, hints[1..])
  }

  // ── Explicit continuations ────────────────────────────────────────

  /** An exception return with a resumable context. */
  ghost function ResumableReturn(m: State, pc: Word): (r: Option<State>)
    requires Inv(m)
    ensures r == Step(m, Return(pc))
    ensures r.Some? ==> Inv(r.value)
  {
    if Step(m, Return(pc)).Some? then (StepKeepsInv(m, Return(pc)); Step(m, Return(pc))) else None
  }

  /**
   One item under explicit continuations. `None`: the call stack overflowed, the
   item cannot be executed, or a handler is not in IRQ mode at its return.
   */
  ghost function ResumableItem(m: State, item: Item): (r: Option<State>)
    requires Inv(m) && IsItem(item)
    ensures r.Some? ==> Inv(r.value)
    decreases item
  {
    match item
    case Plain(op) => Some(m.(cpu := Flat.CpuStep(m.cpu, op).0))
    case Call => Some(SwiStep(m))
    case Leave(pc) => if Mode(m.cpu.cpsr) == MODE_IRQ then None else ResumableReturn(m, pc)
    case Hints(hints, _) => WithHints(m, hints)
    case Interrupt(ret, handler, pc) =>
      var x := Resumable(Delivered(m, ret), handler);
      if x.None? || Mode(x.value.cpu.cpsr) != MODE_IRQ then None else ResumableReturn(x.value, pc)
  }

  /** A script under explicit continuations. */
  ghost function Resumable(m: State, items: seq<Item>): (r: Option<State>)
    requires Inv(m)
    ensures r.Some? ==> Inv(r.value)
    decreases items
  {
    if items == [] then Some(m)
    else if !IsItem(items[0]) then None
    else
      var next := ResumableItem(m, items[0]);
      if next.None? then None else Resumable(next.value, items[1..])
  }

  ghost function WithHints(m: State, hints: seq<Hint>): (r: Option<State>)
    requires m.calls.Inv()
    ensures r.Some? ==> r.value == m.(calls := r.value.calls) && r.value.calls.Inv() && KeepsBelow(m.calls, r.value.calls)
  {
    var c := RunHints(m.calls, hints);
    if c.None? then None else (HintsKeepBelow(m.calls, hints); Some(m.(calls := c.value)))
  }

  // ── The recursive drive loop ──────────────────────────────────────

  /** The part of the invariant that concerns a machine without continuations. */
  ghost predicate HostInv(m: State) {
    m.cpu.WF() && m.calls.Inv() && |m.ledger| <= Ledger.SWI_LIMIT
  }

  /** The handler's exception return: it only records the depth at which it fired. */
  function HostReturn(m: State, pc: Word): State
    requires m.cpu.WF()
  {
    PlainReturn(m, pc).(iret := m.nest)
  }

  /** What `runtime_irq` restores once its loop has seen the return; the depth is not among it. */
  function HostEpilogue(m: State, y: State): (r: State)
    requires m.cpu.WF() && y.cpu.WF() && y.nest > 0
    ensures HostInv(y) && m.calls.floor <= y.calls.floor ==> HostInv(r) && r.calls.floor == m.calls.floor
  {
    y.(cpu := WithVolatile(y.cpu, Volatile(m.cpu)), iret := m.iret,
       calls := y.calls.(floor := m.calls.floor), nest := y.nest - 1)
  }

  /** SWI, return and interrupt entry, which keep that part of the invariant. */
  ghost function HostSwi(m: State): (r: State)
    requires HostInv(m)
    ensures r == SwiStep(m) && HostInv(r) && r.calls == m.calls
  {
    SwiStep(m)
  }

  ghost function HostLeave(m: State, pc: Word): (r: State)
    requires HostInv(m)
    ensures r == PlainReturn(m, pc) && HostInv(r) && r.calls == m.calls
  {
    PlainReturn(m, pc)
  }

  ghost function HostPrologue(m: State, returnAddress: Word): (r: State)
    requires HostInv(m)
    ensures r == IrqPrologue(m, returnAddress) && HostInv(r) && r.calls.floor == |m.calls.stack| && r.nest == m.nest + 1
  {
    IrqPrologue(m, returnAddress)
  }

  /** One item under host recursion. `None` also stands for a drive loop whose exit test fails at the handler's return. */
  ghost function RecursiveItem(m: State, item: Item): (r: Option<State>)
    requires HostInv(m) && IsItem(item)
    ensures r.Some? ==> HostInv(r.value) && r.value.calls.floor == m.calls.floor
    decreases item, 2
  {
    match item
    case Plain(op) => Some(m.(cpu := Flat.CpuStep(m.cpu, op).0))
    case Call => Some(HostSwi(m))
    case Leave(pc) => if Mode(m.cpu.cpsr) == MODE_IRQ then None else Some(HostLeave(m, pc))
    case Hints(_, hints) => WithHints(m, hints)
    case Interrupt(ret, handler, pc) =>
      var e := HostPrologue(m, ret);
      var y := Driven(e, handler, pc);
      if y.None? || y.value.iret != e.nest then None else Some(HostEpilogue(m, y.value))
  }

  /** The handler and its return. `None` also covers a handler that is not in IRQ mode at its return. */
  ghost function Driven(e: State, handler: seq<Item>, pc: Word): (y: Option<State>)
    requires HostInv(e)
    ensures y.Some? ==> HostInv(y.value) && y.value.calls.floor == e.calls.floor
    decreases handler, 1
  {
    var x := Recursive(e, handler);
    if x.None? || Mode(x.value.cpu.cpsr) != MODE_IRQ then None else Some(HostReturn(x.value, pc))
  }

  /** The drive loop has dispatched `i` times: the items so far, then the return. */
  ghost predicate Driving(e: State, handler: seq<Item>, i: nat, pc: Word, m: State)
    requires HostInv(e)
  {
    && e.iret == 0 < e.nest
    && if i <= |handler|
       then Recursive(e, handler[..i]) == Some(m) && m.iret == 0 && m.nest == e.nest
       else Driven(e, handler, pc) == Some(m) && m.iret == m.nest == e.nest
  }

  /** A script under host recursion. */
  ghost function Recursive(m: State, items: seq<Item>): (r: Option<State>)
    requires HostInv(m)
    ensures r.Some? ==> HostInv(r.value) && r.value.calls.floor == m.calls.floor
    decreases items, 0
  {
    if items == [] then Some(m)
    else if !IsItem(items[0]) then None
    else
      var next := RecursiveItem(m, items[0]);
      if next.None? then None else Recursive(next.value, items[1..])
  }

  // ── What each path keeps ──────────────────────────────────────────

  lemma {:induction false} HintsKeepBelow(c: Calls, hints: seq<Hint>)
    requires c.Inv() && RunHints(c, hints).Some?
    ensures KeepsBelow(c, RunHints(c, hints).value)
    ensures c.hostless <= c.floor ==> RunHints(c, hints).value.hostless == c.hostless
    decreases |hints|
  {
    if hints != [] {
      OperationsKeepBelow(c, hints[0].pc, if hints[0].CancelHint? then hints[0].suspended else false);
      HintsKeepBelow(HintStep(c, hints[0]).value, hints[1..]);
    }
  }

  /** Everything an executed script leaves alone on its own path. */
  predicate Keeps(m: State, r: State) {
    && r.nest == m.nest && r.iret == m.iret && r.frames == m.frames
    && KeepsBelow(m.calls, r.calls)
    && (m.calls.hostless <= m.calls.floor ==> r.calls.hostless == m.calls.hostless)
  }

  lemma {:induction false} RecursiveItemKeeps(m: State, item: Item)
    requires HostInv(m) && IsItem(item) && RecursiveItem(m, item).Some?
    ensures Keeps(m, RecursiveItem(m, item).value)
    decreases item
  {
    hide SwitchPsr, ReloadPsr, EntryPsr, BankIn, BankOut, Merge, FieldBits, Mode, Flat.CpuStep, WithVolatile;
    match item {
      case Hints(_, hints) => HintsKeepBelow(m.calls, hints);
      case Interrupt(ret, handler, _) =>
        var e := IrqPrologue(m, ret);
        RecursiveKeeps(e, handler);
        var x := Recursive(e, handler).value;
        assert m.calls.stack[..m.calls.floor] == x.calls.stack[..|m.calls.stack|][..m.calls.floor];
      case _ =>
    }
  }

  lemma {:induction false} RecursiveKeeps(m: State, items: seq<Item>)
    requires HostInv(m) && Recursive(m, items).Some?
    ensures Keeps(m, Recursive(m, items).value)
    decreases items
  {
    if items != [] {
      RecursiveItemKeeps(m, items[0]);
      RecursiveKeeps(RecursiveItem(m, items[0]).value, items[1..]);
    }
  }

  lemma {:induction false} ResumableItemKeeps(m: State, item: Item)
    requires Inv(m) && IsItem(item) && ResumableItem(m, item).Some?
    ensures Keeps(m, ResumableItem(m, item).value)
    decreases item
  {
    hide SwitchPsr, ReloadPsr, EntryPsr, BankIn, BankOut, Merge, FieldBits, Mode, Flat.CpuStep, WithVolatile;
    match item {
      case Hints(hints, _) => HintsKeepBelow(m.calls, hints);
      case Interrupt(ret, handler, pc) =>
        var e := Delivered(m, ret);
        ResumableKeeps(e, handler);
        var x := Resumable(e, handler).value;
        ReturnEnds(x, pc);
        assert x.calls.stack[..|m.calls.stack|] == m.calls.stack;
      case _ =>
    }
  }

  lemma {:induction false} ResumableKeeps(m: State, items: seq<Item>)
    requires Inv(m) && Resumable(m, items).Some?
    ensures Keeps(m, Resumable(m, items).value)
    decreases items
  {
    if items != [] {
      ResumableItemKeeps(m, items[0]);
      ResumableKeeps(ResumableItem(m, items[0]).value, items[1..]);
    }
  }

  /** Running one more item of a script, and why a failing item fails the whole script. */
  lemma {:induction false} RunOneMore(m: State, items: seq<Item>, i: nat)
    requires HostInv(m) && i < |items| && Recursive(m, items[..i]).Some?
    ensures var x := Recursive(m, items[..i]).value;
            && Recursive(m, items[..i + 1]) ==
               (if IsItem(items[i]) then RecursiveItem(x, items[i]) else None)
            && (Recursive(m, items[..i + 1]).None? ==> Recursive(m, items).None?)
    decreases i
  {
    if i == 0 {
      assert items[..1] == [items[0]];
    } else {
      assert items[..i][0] == items[0] && items[..i][1..] == items[1..][..i - 1];
      assert items[..i + 1][1..] == items[1..][..i];
      RunOneMore(RecursiveItem(m, items[0]).value, items[1..], i - 1);
    }
  }

  /**
   While a handler runs the drive loop's exit test is false, and at the handler's
   return it is true: the loop stops at its own interrupt, never at a nested one.
   */
  lemma LoopExit(m: State, ret: Word, handler: seq<Item>, k: nat, pc: Word)
    requires HostInv(m) && k <= |handler|
    requires Recursive(IrqPrologue(m, ret), handler[..k]).Some?
    ensures var x := Recursive(IrqPrologue(m, ret), handler[..k]).value;
            x.iret != m.nest + 1 && HostReturn(x, pc).iret == m.nest + 1
  {
    RecursiveKeeps(IrqPrologue(m, ret), handler[..k]);
  }

  /**
   Which items run, and to what, under explicit continuations. Registers, SWI and call-stack
   operations are the machine's; a plain return may be in any mode but IRQ's, and an interrupt
   ends if its handler does, in IRQ mode.
   */
  lemma ResumableItemExact(m: State, item: Item)
    requires Inv(m) && IsItem(item)
    ensures item.Plain? ==> ResumableItem(m, item) == Some(m.(cpu := Flat.CpuStep(m.cpu, item.op).0))
    ensures item.Call? ==> ResumableItem(m, item) == Some(SwiStep(m))
    ensures item.Leave? ==> ResumableItem(m, item) == if Mode(m.cpu.cpsr) == 0x12 then None else Some(PlainReturn(m, item.pc))
    ensures item.Hints? ==>
              var c := RunHints(m.calls, item.resumable);
              ResumableItem(m, item) == if c.None? then None else Some(m.(calls := c.value))
    ensures item.Interrupt? ==>
              var x := Resumable(Delivered(m, item.returnAddress), item.handler);
              && (ResumableItem(m, item).Some? <==> x.Some? && Mode(x.value.cpu.cpsr) == 0x12)
              && (ResumableItem(m, item).Some? ==>
                    && x.value.nest > 0 && |x.value.frames| > 0
                    && ResumableItem(m, item) == Step(x.value, Return(item.pc)))
  {
    hide SwitchPsr, ReloadPsr, EntryPsr, BankIn, BankOut, Merge, FieldBits, Mode, Flat.CpuStep, WithVolatile, Resumable;
    if item.Interrupt? {
      var x := Resumable(Delivered(m, item.returnAddress), item.handler);
      if x.Some? {
        ResumableKeeps(Delivered(m, item.returnAddress), item.handler);
        if Mode(x.value.cpu.cpsr) == 0x12 {
          ReturnEnds(x.value, item.pc);
        }
      }
    }
  }

  /** The same under host recursion: an interrupt always ends at the return of its own handler. */
  lemma RecursiveItemExact(m: State, item: Item)
    requires HostInv(m) && IsItem(item)
    ensures item.Plain? ==> RecursiveItem(m, item) == Some(m.(cpu := Flat.CpuStep(m.cpu, item.op).0))
    ensures item.Call? ==> RecursiveItem(m, item) == Some(SwiStep(m))
    ensures item.Leave? ==> RecursiveItem(m, item) == if Mode(m.cpu.cpsr) == 0x12 then None else Some(PlainReturn(m, item.pc))
    ensures item.Hints? ==>
              var c := RunHints(m.calls, item.recursive);
              RecursiveItem(m, item) == if c.None? then None else Some(m.(calls := c.value))
    ensures item.Interrupt? ==>
              var x := Recursive(IrqPrologue(m, item.returnAddress), item.handler);
              && (RecursiveItem(m, item).Some? <==> x.Some? && Mode(x.value.cpu.cpsr) == 0x12)
              && (RecursiveItem(m, item).Some? ==>
                    var back, r := PlainReturn(x.value, item.pc), RecursiveItem(m, item).value;
                    && r.cpu == WithVolatile(back.cpu, Volatile(m.cpu)) && r.ledger == back.ledger
                    && r.calls == x.value.calls.(floor := m.calls.floor) && r.nest == m.nest && r.iret == m.iret)
  {
    hide SwitchPsr, ReloadPsr, EntryPsr, BankIn, BankOut, Merge, FieldBits, Mode, Flat.CpuStep, WithVolatile, Recursive;
    if item.Interrupt? {
      var e := HostPrologue(m, item.returnAddress);
      if Recursive(e, item.handler).Some? {
        RecursiveKeeps(e, item.handler);
      }
    }
  }

  // ── Agreement ─────────────────────────────────────────────────────

  /** The two paths agree on everything the guest can see. */
  predicate Agree(m: State, n: State) {
    m.cpu == n.cpu && m.ledger == n.ledger && m.nest == n.nest && m.iret == n.iret
  }

  lemma {:induction false} ItemsAgree(m: State, n: State, item: Item)
    requires Inv(m) && HostInv(n) && Agree(m, n) && IsItem(item)
    requires ResumableItem(m, item).Some? && RecursiveItem(n, item).Some?
    ensures Agree(ResumableItem(m, item).value, RecursiveItem(n, item).value)
    decreases item
  {
    if item.Interrupt? {
      var e, h := Delivered(m, item.returnAddress), IrqPrologue(n, item.returnAddress);
      ScriptsAgree(e, h, item.handler);
      EndsAgree(m, n, item.returnAddress, item.handler, item.pc);
    }
  }

  lemma EndsAgree(m: State, n: State, ret: Word, handler: seq<Item>, pc: Word)
    requires Inv(m) && HostInv(n) && Agree(m, n)
    requires ResumableItem(m, Interrupt(ret, handler, pc)).Some? && RecursiveItem(n, Interrupt(ret, handler, pc)).Some?
    requires Resumable(Delivered(m, ret), handler).Some? && Recursive(IrqPrologue(n, ret), handler).Some?
    requires Agree(Resumable(Delivered(m, ret), handler).value, Recursive(IrqPrologue(n, ret), handler).value)
    ensures Agree(ResumableItem(m, Interrupt(ret, handler, pc)).value, RecursiveItem(n, Interrupt(ret, handler, pc)).value)
  {
    hide SwitchPsr, ReloadPsr, EntryPsr, BankIn, BankOut, Merge, FieldBits, Mode, Flat.CpuStep;
    var x, y := Resumable(Delivered(m, ret), handler).value, Recursive(IrqPrologue(n, ret), handler).value;
    ResumableKeeps(Delivered(m, ret), handler);
    RecursiveKeeps(IrqPrologue(n, ret), handler);
    DeliveredMarks(m, ret);
    ReturnEnds(x, pc);
  }

  lemma {:induction false} ScriptsAgree(m: State, n: State, items: seq<Item>)
    requires Inv(m) && HostInv(n) && Agree(m, n)
    requires Resumable(m, items).Some? && Recursive(n, items).Some?
    ensures Agree(Resumable(m, items).value, Recursive(n, items).value)
    decreases items
  {
    if items != [] {
      ItemsAgree(m, n, items[0]);
      ScriptsAgree(ResumableItem(m, items[0]).value, RecursiveItem(n, items[0]).value, items[1..]);
    }
  }

  /** The explicit path gives back the whole call-return stack, marks included. */
  lemma ResumableRestoresCalls(m: State, ret: Word, handler: seq<Item>, pc: Word)
    requires Inv(m) && ResumableItem(m, Interrupt(ret, handler, pc)).Some?
    ensures ResumableItem(m, Interrupt(ret, handler, pc)).value.calls == m.calls
  {
    var e := Delivered(m, ret);
    ResumableKeeps(e, handler);
    var x := Resumable(e, handler).value;
    ReturnEnds(x, pc);
    DeliveredMarks(m, ret);
  }

  lemma DeliveredMarks(m: State, ret: Word)
    requires Inv(m)
    ensures var e := Delivered(m, ret);
            && e.frames[|e.frames| - 1] == Frame(Volatile(m.cpu), m.calls.floor, |m.calls.stack|, m.iret)
            && e.calls == Calls(m.calls.stack, |m.calls.stack|, m.calls.hostless)
            && e.calls.stack[..e.calls.floor] == m.calls.stack
  {
  }

  /** The recursive path keeps the stack it found and may leave entries on top. */
  lemma RecursiveKeepsCalls(m: State, ret: Word, handler: seq<Item>, pc: Word)
    requires HostInv(m) && RecursiveItem(m, Interrupt(ret, handler, pc)).Some?
    ensures var q := RecursiveItem(m, Interrupt(ret, handler, pc)).value;
            && q.calls.floor == m.calls.floor && q.calls.hostless == m.calls.hostless
            && |q.calls.stack| >= |m.calls.stack| && q.calls.stack[..|m.calls.stack|] == m.calls.stack
  {
    RecursiveKeeps(IrqPrologue(m, ret), handler);
  }

  /**
   From one state, the two deliveries of an interrupt with arbitrarily nested
   interrupts inside end with the same registers in every bank, CPSR, ledger,
   floor, host-less mark, nesting and iret depths, and with the stack the
   interrupt found; the recursive one may keep extra entries on top of it.
   */
  lemma PathsAgree(m: State, ret: Word, handler: seq<Item>, pc: Word)
    requires Inv(m)
    requires ResumableItem(m, Interrupt(ret, handler, pc)).Some?
    requires RecursiveItem(m, Interrupt(ret, handler, pc)).Some?
    ensures var r := ResumableItem(m, Interrupt(ret, handler, pc)).value;
            var q := RecursiveItem(m, Interrupt(ret, handler, pc)).value;
            && r.cpu == q.cpu && r.ledger == q.ledger
            && r.nest == q.nest == m.nest && r.iret == q.iret == m.iret
            && r.calls == m.calls
            && q.calls.floor == m.calls.floor && q.calls.hostless == m.calls.hostless
            && |q.calls.stack| >= |m.calls.stack| && q.calls.stack[..|m.calls.stack|] == m.calls.stack
  {
    var item := Interrupt(ret, handler, pc);
    ItemsAgree(m, m, item);
    ResumableItemKeeps(m, item);
    ResumableRestoresCalls(m, ret, handler, pc);
    RecursiveKeepsCalls(m, ret, handler, pc);
  }

  // ── Running to the end ────────────────────────────────────────────

  /** No push of `hints` meets a full stack in which a host frame waits on every entry above the floor. */
  ghost predicate HintsFit(c: Calls, hints: seq<Hint>)
    requires c.Inv()
    decreases |hints|
  {
    hints != [] ==>
      && (hints[0].PushHint? ==> |c.stack| < CALL_LIMIT || c.hostless > c.floor)
      && (HintStep(c, hints[0]).Some? ==> HintsFit(HintStep(c, hints[0]).value, hints[1..]))
  }

  lemma {:induction false} HintsRunExact(c: Calls, hints: seq<Hint>)
    requires c.Inv()
    ensures RunHints(c, hints).Some? <==> HintsFit(c, hints)
    decreases |hints|
  {
    if hints != [] {
      PushExact(c, hints[0].pc);
      if HintStep(c, hints[0]).Some? {
        HintsRunExact(HintStep(c, hints[0]).value, hints[1..]);
      }
    }
  }

  /** Along the script under explicit continuations the call stack never overflows. */
  ghost predicate ItemFits(m: State, item: Item)
    requires Inv(m) && IsItem(item)
    decreases item
  {
    match item
    case Hints(hints, _) => HintsFit(m.calls, hints)
    case Interrupt(ret, handler, _) => Fits(Delivered(m, ret), handler)
    case _ => true
  }

  ghost predicate Fits(m: State, items: seq<Item>)
    requires Inv(m)
    decreases items
  {
    items != [] && IsItem(items[0]) ==>
      && ItemFits(m, items[0])
      && (ResumableItem(m, items[0]).Some? ==> Fits(ResumableItem(m, items[0]).value, items[1..]))
  }

  /** The same along the script under host recursion. */
  ghost predicate HostItemFits(m: State, item: Item)
    requires HostInv(m) && IsItem(item)
    decreases item
  {
    match item
    case Hints(_, hints) => HintsFit(m.calls, hints)
    case Interrupt(ret, handler, _) => HostFits(IrqPrologue(m, ret), handler)
    case _ => true
  }

  ghost predicate HostFits(m: State, items: seq<Item>)
    requires HostInv(m)
    decreases items
  {
    items != [] && IsItem(items[0]) ==>
      && HostItemFits(m, items[0])
      && (RecursiveItem(m, items[0]).Some? ==> HostFits(RecursiveItem(m, items[0]).value, items[1..]))
  }

  /** An interrupt whose handler runs on both paths ends on both. */
  lemma EndsOnBoth(m: State, n: State, ret: Word, handler: seq<Item>, pc: Word)
    requires Inv(m) && HostInv(n) && Agree(m, n)
    requires Resumable(Delivered(m, ret), handler).Some? && Recursive(IrqPrologue(n, ret), handler).Some?
    requires Agree(Resumable(Delivered(m, ret), handler).value, Recursive(IrqPrologue(n, ret), handler).value)
    ensures ResumableItem(m, Interrupt(ret, handler, pc)).Some? <==> RecursiveItem(n, Interrupt(ret, handler, pc)).Some?
  {
    var x, y := Resumable(Delivered(m, ret), handler).value, Recursive(IrqPrologue(n, ret), handler).value;
    ResumableKeeps(Delivered(m, ret), handler);
    RecursiveKeeps(IrqPrologue(n, ret), handler);
    hide SwitchPsr, ReloadPsr, EntryPsr, BankIn, BankOut, Merge, FieldBits, Mode, Flat.CpuStep, WithVolatile, Resumable, Recursive;
    if Mode(x.cpu.cpsr) == MODE_IRQ {
      ReturnEnds(x, pc);
    }
  }

  lemma {:induction false} ItemRunsOnBoth(m: State, n: State, item: Item)
    requires Inv(m) && HostInv(n) && Agree(m, n) && IsItem(item) && ItemFits(m, item) && HostItemFits(n, item)
    ensures ResumableItem(m, item).Some? <==> RecursiveItem(n, item).Some?
    decreases item
  {
    hide SwitchPsr, ReloadPsr, EntryPsr, BankIn, BankOut, Merge, FieldBits, Mode, Flat.CpuStep, WithVolatile, HintsFit;
    if item.Interrupt? {
      var e, h := Delivered(m, item.returnAddress), IrqPrologue(n, item.returnAddress);
      RunsOnBoth(e, h, item.handler);
      if Resumable(e, item.handler).Some? {
        ScriptsAgree(e, h, item.handler);
        EndsOnBoth(m, n, item.returnAddress, item.handler, item.pc);
      }
    } else if item.Hints? {
      HintsRunExact(m.calls, item.resumable);
      HintsRunExact(n.calls, item.recursive);
    }
  }

  /**
   Neither path gets stuck where the other goes on, except on overflow of its call stack: a
   script with any call-stack operations on either path and interrupts nested anywhere runs to
   its end on both or on neither, if neither path pushes on a full stack of entries with waiting
   host frames.
   */
  lemma {:induction false} RunsOnBoth(m: State, n: State, items: seq<Item>)
    requires Inv(m) && HostInv(n) && Agree(m, n) && Fits(m, items) && HostFits(n, items)
    ensures Resumable(m, items).Some? <==> Recursive(n, items).Some?
    decreases items
  {
    if items != [] && IsItem(items[0]) {
      ItemRunsOnBoth(m, n, items[0]);
      if ResumableItem(m, items[0]).Some? {
        ItemsAgree(m, n, items[0]);
        RunsOnBoth(ResumableItem(m, items[0]).value, RecursiveItem(n, items[0]).value, items[1..]);
      }
    }
  }

  /** A script that runs to its end never overflowed, so each path needs only the room it uses itself. */
  lemma {:induction false} EndMeansFit(m: State, items: seq<Item>)
    requires Inv(m) && Resumable(m, items).Some?
    ensures Fits(m, items)
    decreases items
  {
    if items != [] {
      ItemEndMeansFit(m, items[0]);
      EndMeansFit(ResumableItem(m, items[0]).value, items[1..]);
    }
  }

  lemma {:induction false} ItemEndMeansFit(m: State, item: Item)
    requires Inv(m) && IsItem(item) && ResumableItem(m, item).Some?
    ensures ItemFits(m, item)
    decreases item
  {
    hide HintsFit;
    match item {
      case Hints(hints, _) => HintsRunExact(m.calls, hints);
      case Interrupt(ret, handler, _) => EndMeansFit(Delivered(m, ret), handler);
      case _ =>
    }
  }

  lemma {:induction false} HostEndMeansFit(m: State, items: seq<Item>)
    requires HostInv(m) && Recursive(m, items).Some?
    ensures HostFits(m, items)
    decreases items
  {
    if items != [] {
      HostItemEndMeansFit(m, items[0]);
      HostEndMeansFit(RecursiveItem(m, items[0]).value, items[1..]);
    }
  }

  lemma {:induction false} HostItemEndMeansFit(m: State, item: Item)
    requires HostInv(m) && IsItem(item) && RecursiveItem(m, item).Some?
    ensures HostItemFits(m, item)
    decreases item
  {
    hide HintsFit;
    match item {
      case Hints(_, hints) => HintsRunExact(m.calls, hints);
      case Interrupt(ret, handler, _) => HostEndMeansFit(IrqPrologue(m, ret), handler);
      case _ =>
    }
  }

  /**
   So a script that runs to its end on one path runs to its end on the other exactly if it
   does not overflow the other's call stack.
   */
  lemma OtherPathExact(m: State, n: State, items: seq<Item>)
    requires Inv(m) && HostInv(n) && Agree(m, n)
    ensures Resumable(m, items).Some? ==> (Recursive(n, items).Some? <==> HostFits(n, items))
    ensures Recursive(n, items).Some? ==> (Resumable(m, items).Some? <==> Fits(m, items))
  {
    hide Resumable, Recursive, Fits, HostFits;
    if Resumable(m, items).Some? {
      EndMeansFit(m, items);
    }
    if Recursive(n, items).Some? {
      HostEndMeansFit(n, items);
    }
    if Fits(m, items) && HostFits(n, items) {
      RunsOnBoth(m, n, items);
    }
  }

  predicate NoHints(items: seq<Item>) {
    forall i :: i in items ==> !i.Hints? && (i.Interrupt? ==> NoHints(i.handler))
  }

  /** With no call-stack operations there is nothing to overflow: both run exactly the same scripts. */
  lemma {:induction false} NoHintsFit(m: State, n: State, items: seq<Item>)
    requires Inv(m) && HostInv(n) && Agree(m, n) && NoHints(items)
    ensures Fits(m, items) && HostFits(n, items)
    ensures Resumable(m, items).Some? <==> Recursive(n, items).Some?
    decreases items
  {
    hide SwitchPsr, ReloadPsr, EntryPsr, BankIn, BankOut, Merge, FieldBits, Mode, Flat.CpuStep, WithVolatile;
    if items != [] && IsItem(items[0]) {
      var item := items[0];
      assert item in items;
      if item.Interrupt? {
        NoHintsFit(Delivered(m, item.returnAddress), IrqPrologue(n, item.returnAddress), item.handler);
      }
      ItemRunsOnBoth(m, n, item);
      if ResumableItem(m, item).Some? {
        ItemsAgree(m, n, item);
        NoHintsFit(ResumableItem(m, item).value, RecursiveItem(n, item).value, items[1..]);
      }
    }
  }
}
