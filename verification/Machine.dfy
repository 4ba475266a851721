/**
 The guest execution state of runtime_arm.cpp with resumable interrupts: the
 register file, the call-return stack, the SWI ledger and the explicit IRQ
 continuations, and every operation that moves them.
 */
module Machine {
  import opened Common
  import opened ArmCpu
  import opened CallStack
  import Flat = FlatRegisters
  import Ledger = SwiLedger

  /** `RuntimeIrqContinuation`: R0-R3 and R12, and the marks to restore. */
  datatype Frame = Frame(preserved: seq<Word>, returnFloor: nat, returnDepth: nat, iretDepth: nat)

  datatype State = State(cpu: Cpu, calls: Calls, ledger: seq<Ledger.Slot>, frames: seq<Frame>,
                         nest: nat, iret: nat, suspended: bool)

  function Start(): State {
    var z := seq(BANKS, _ => 0);
    State(Cpu(seq(16, _ => 0), 0, z, z, z, [0, 0, 0, 0, 0], [0, 0, 0, 0, 0]),
          Calls([], 0, 0), [], [], 0, 0, false)
  }

  /** Frame `i` is well formed and its floor is the depth of the frame below it. */
  predicate Linked(frames: seq<Frame>, i: nat)
    requires i < |frames|
  {
    && |frames[i].preserved| == 5
    && frames[i].returnFloor <= frames[i].returnDepth
    && frames[i].returnFloor == if i == 0 then 0 else frames[i - 1].returnDepth
  }

  /** Each frame resumes exactly where the frame below it was interrupted. */
  ghost predicate Chain(frames: seq<Frame>, floor: nat) {
    && (forall i :: 0 <= i < |frames| ==> Linked(frames, i))
    && floor == if frames == [] then 0 else frames[|frames| - 1].returnDepth
  }

  ghost predicate Inv(m: State) {
    && m.cpu.WF() && m.calls.Inv()
    && |m.ledger| <= Ledger.SWI_LIMIT
    && Chain(m.frames, m.calls.floor)
    && m.nest == |m.frames|
  }

  // ── Operations ────────────────────────────────────────────────────

  datatype Op =
    | Guest(op: Flat.Op)        // a register or PSR access of guest code
    | Swi
    | PushCall(pc: Word)
    | MatchReturn(pc: Word)
    | CancelCall(pc: Word)
    | Irq(returnAddress: Word)
    | Return(pc: Word)
    | Suspend                   // the scheduler yields
    | Resume                    // a new dispatch begins
    | Reload                    // capture the context and restore it

  predicate Plain(op: Flat.Op) {
    Flat.IsOp(op) && !op.Swi? && !op.Irq? && !op.Return?
  }

  predicate IsOp(op: Op) { op.Guest? ==> Plain(op.op) }

  /** The continuation of an SWI: the instruction after it, and the SWI itself. */
  function SwiSlot(pc: Word, cpsr: Word): Ledger.Slot {
    if cpsr & 0x20 != 0 then Ledger.Slot(pc, pc - 2) else Ledger.Slot(pc, pc - 4)
  }

  /** `runtime_swi`: exception entry, then the continuation is recorded. */
  function SwiStep(m: State): State
    requires m.cpu.WF()
  {
    m.(cpu := SwiEntry(m.cpu), ledger := Ledger.Push(m.ledger, SwiSlot(m.cpu.R[15], m.cpu.cpsr)))
  }

  /**
   What an SWI records is the return address its entry puts in LR_svc, the address in R15, and
   the SWI itself, one instruction before it.
   */
  lemma SwiRecords(m: State)
    requires m.cpu.WF()
    ensures var t, r15 := SwiStep(m), m.cpu.R[15];
            && t.cpu.R[14] == r15 && t.cpu.R[15] == 8
            && t.ledger != [] && t.ledger[|t.ledger| - 1].continuation == t.cpu.R[14]
            && t.ledger[|t.ledger| - 1].returnPc == r15 - (if m.cpu.cpsr & 0x20 != 0 then 2 else 4)
            && t.frames == m.frames && t.calls == m.calls && t.nest == m.nest && t.iret == m.iret
  {
  }

  /**
   What an interrupt leaves for its return and for the scheduler: the caller-saved registers and
   the marks in a frame of its own, a floor at the live depth, a return depth not yet seen, and a
   suspension.
   */
  lemma IrqBegins(m: State, returnAddress: Word)
    requires m.cpu.WF()
    ensures var r := IrqStep(m, returnAddress);
            && r.frames == m.frames + [Frame([m.cpu.R[0], m.cpu.R[1], m.cpu.R[2], m.cpu.R[3], m.cpu.R[12]],
                                             m.calls.floor, |m.calls.stack|, m.iret)]
            && r.calls.stack == m.calls.stack && r.calls.floor == |m.calls.stack| && r.calls.hostless == m.calls.hostless
            && r.nest == m.nest + 1 && r.iret == 0 && r.suspended && r.ledger == m.ledger
            && Mode(r.cpu.cpsr) == 0x12 && r.cpu.R[14] == returnAddress + 4 && r.cpu.R[15] == 0x18
  {
    EntersIrq(m.cpu.cpsr);
  }

  lemma EntersIrq(psr: Word)
    ensures Mode(EntryPsr(psr, MODE_IRQ)) == 0x12
  {
  }

  function Volatile(c: Cpu): (s: seq<Word>)
    requires c.WF()
    ensures |s| == 5
  {
    [c.R[0], c.R[1], c.R[2], c.R[3], c.R[12]]
  }

  function WithVolatile(c: Cpu, s: seq<Word>): (r: Cpu)
    requires c.WF() && |s| == 5
    ensures r.WF()
  {
    c.(R := c.R[0 := s[0]][1 := s[1]][2 := s[2]][3 := s[3]][12 := s[4]])
  }

  /** What both IRQ paths do first: enter the exception and raise the floor to the live depth. */
  function IrqPrologue(m: State, returnAddress: Word): State
    requires m.cpu.WF()
  {
    m.(cpu := IrqEntry(m.cpu, returnAddress), nest := m.nest + 1, iret := 0,
       calls := m.calls.(floor := |m.calls.stack|))
  }

  /** `runtime_irq` with a resumable context: the rest of the frame becomes a continuation. */
  function IrqStep(m: State, returnAddress: Word): State
    requires m.cpu.WF()
  {
    var frame := Frame(Volatile(m.cpu), m.calls.floor, |m.calls.stack|, m.iret);
    IrqPrologue(m, returnAddress).(frames := m.frames + [frame], suspended := true)
  }

  /** The PC an exception return takes: Supervisor returns go through the ledger. */
  function ReturnPc(m: State, pc: Word): Word {
    if Mode(m.cpu.cpsr) == MODE_SUPERVISOR then Ledger.Target(m.ledger, pc) else pc
  }

  /** What both IRQ paths do at an exception return, apart from ending an interrupt. */
  function PlainReturn(m: State, pc: Word): State
    requires m.cpu.WF()
  {
    m.(cpu := ReturnTo(m.cpu, ReturnPc(m, pc)),
       ledger := if Mode(m.cpu.cpsr) == MODE_SUPERVISOR then Ledger.Pop(m.ledger) else m.ledger)
  }

  /** Pop the top continuation and restore what it holds. */
  function Resumed(m: State): State
    requires m.cpu.WF() && m.frames != [] && m.nest > 0
    requires |m.frames[|m.frames| - 1].preserved| == 5 && m.frames[|m.frames| - 1].returnDepth <= |m.calls.stack|
  {
    var frame := m.frames[|m.frames| - 1];
    m.(cpu := WithVolatile(m.cpu, frame.preserved),
       calls := CutTo(m.calls, frame.returnDepth).(floor := frame.returnFloor),
       frames := m.frames[..|m.frames| - 1], nest := m.nest - 1, iret := frame.iretDepth,
       suspended := true)
  }

  /** `runtime_exception_return` with a resumable context; `None` is the throw. */
  function ReturnStep(m: State, pc: Word): Option<State>
    requires m.cpu.WF() && m.nest == |m.frames|
    requires forall f :: f in m.frames ==> |f.preserved| == 5 && f.returnDepth <= |m.calls.stack|
  {
    var r := PlainReturn(m, pc);
    if Mode(m.cpu.cpsr) != MODE_IRQ then Some(r)
    else if m.frames == [] then None
    else
      assert m.frames[|m.frames| - 1] in m.frames;
      Some(Resumed(r))
  }

  /** A return from a mode that is neither Supervisor nor IRQ goes where it asks and changes registers only. */
  lemma OtherReturn(m: State, pc: Word)
    requires m.cpu.WF() && m.nest == |m.frames| && Mode(m.cpu.cpsr) != 0x12 && Mode(m.cpu.cpsr) != 0x13
    requires forall f :: f in m.frames ==> |f.preserved| == 5 && f.returnDepth <= |m.calls.stack|
    ensures ReturnStep(m, pc) == Some(m.(cpu := ReturnTo(m.cpu, pc)))
  {
  }

  // ── Contexts ──────────────────────────────────────────────────────

  /** The part of `RuntimeArmContext` that is guest state. */
  datatype Context = Context(cpu: Cpu, callReturns: seq<Word>, interrupts: seq<Frame>,
                             swiReturns: seq<Ledger.Slot>, returnFloor: nat, irqDepth: nat, iretDepth: nat)

  function Capture(m: State): Context {
    Context(m.cpu, m.calls.stack, m.frames, m.ledger, m.calls.floor, m.nest, m.iret)
  }

  /** `runtime_restore_arm_context`; `None` is the refusal of an invalid context. */
  function Restore(c: Context): Option<State> {
    if |c.swiReturns| > Ledger.SWI_LIMIT then None
    else if |c.callReturns| > CALL_LIMIT || c.returnFloor > |c.callReturns| || c.irqDepth != |c.interrupts| then None
    else if exists i :: 0 <= i < |c.interrupts| &&
                        (c.interrupts[i].returnFloor > c.interrupts[i].returnDepth ||
                         c.interrupts[i].returnDepth > |c.callReturns|) then None
    else Some(State(c.cpu, Calls(c.callReturns, c.returnFloor, |c.callReturns|), c.swiReturns, c.interrupts,
                    c.irqDepth, c.iretDepth, false))
  }

  /** The marks of a context fit its stack: what a restore asks of one frame. */
  predicate FrameFits(f: Frame, depth: nat) { f.returnFloor <= f.returnDepth <= depth }

  /**
   A restore is refused exactly if the context holds more than 64 SWI continuations or 1024
   return addresses, a floor above them, a frame too many or too few, or a frame whose marks do
   not fit; otherwise it gives what the context holds, with no host frame waiting.
   */
  lemma RestoreExact(c: Context)
    ensures Restore(c).Some? <==>
            && |c.swiReturns| <= 64 && |c.callReturns| <= 1024 && c.returnFloor <= |c.callReturns|
            && c.irqDepth == |c.interrupts|
            && forall f :: f in c.interrupts ==> FrameFits(f, |c.callReturns|)
    ensures Restore(c).Some? ==>
              var m := Restore(c).value;
              Capture(m) == c && m.calls.hostless == |m.calls.stack| && !m.suspended
  {
    if Restore(c).Some? {
      forall f | f in c.interrupts ensures FrameFits(f, |c.callReturns|) {
        var i :| 0 <= i < |c.interrupts| && c.interrupts[i] == f;
      }
    } else {
      forall i | 0 <= i < |c.interrupts| && FrameFits(c.interrupts[i], |c.callReturns|)
        ensures c.interrupts[i].returnFloor <= c.interrupts[i].returnDepth <= |c.callReturns|
      {
      }
      assert forall i :: 0 <= i < |c.interrupts| ==> c.interrupts[i] in c.interrupts;
    }
  }

  // ── The chain ─────────────────────────────────────────────────────

  /** Deeper frames were interrupted at deeper stacks. */
  lemma {:induction false} ChainMonotone(frames: seq<Frame>, floor: nat, i: nat, j: nat)
    requires Chain(frames, floor) && i <= j < |frames|
    ensures frames[i].returnDepth <= frames[j].returnDepth <= floor
    decreases |frames| - i
  {
    if i < j {
      assert Linked(frames, i + 1);
      ChainMonotone(frames, floor, i + 1, j);
    } else if j < |frames| - 1 {
      assert Linked(frames, j + 1);
      ChainMonotone(frames, floor, j + 1, j + 1);
    }
  }

  lemma FramesFit(m: State)
    requires Inv(m)
    ensures forall f :: f in m.frames ==> |f.preserved| == 5 && f.returnDepth <= m.calls.floor
  {
    forall f | f in m.frames ensures |f.preserved| == 5 && f.returnDepth <= m.calls.floor {
      var i :| 0 <= i < |m.frames| && m.frames[i] == f;
      ChainMonotone(m.frames, m.calls.floor, i, i);
      assert Linked(m.frames, i);
    }
  }

  /** A context captured from a reachable state is always accepted, and only forgets which entries had a host frame. */
  lemma RestoreOfCapture(m: State)
    requires Inv(m)
    ensures Restore(Capture(m)) == Some(m.(calls := m.calls.(hostless := |m.calls.stack|), suspended := false))
  {
    FramesFit(m);
    forall i | 0 <= i < |m.frames|
      ensures m.frames[i].returnFloor <= m.frames[i].returnDepth <= |m.calls.stack|
    {
      assert m.frames[i] in m.frames;
      assert Linked(m.frames, i);
    }
  }

  // ── One step ──────────────────────────────────────────────────────

  /** One operation; `None` is the abort on call-stack overflow or the throw on an unmatched IRQ return. */
  ghost function Step(m: State, op: Op): Option<State>
    requires Inv(m) && IsOp(op)
  {
    FramesFit(m);
    match op
    case Guest(g) => Some(m.(cpu := Flat.CpuStep(m.cpu, g).0))
    case Swi => Some(SwiStep(m))
    case PushCall(pc) =>
      var c := PushReturn(m.calls, pc);
      if c.None? then None else Some(m.(calls := c.value))
    case MatchReturn(pc) => Some(m.(calls := ShouldReturn(m.calls, pc).0))
    case CancelCall(pc) => Some(m.(calls := CancelReturn(m.calls, pc, m.suspended)))
    case Irq(ret) => Some(IrqStep(m, ret))
    case Return(pc) => ReturnStep(m, pc)
    case Suspend => Some(m.(suspended := true))
    case Resume => Some(m.(suspended := false))
    case Reload => Restore(Capture(m))
  }

  /** A suspension lasts until it is resumed, and meanwhile cancelled calls stay on the stack. */
  lemma SuspensionExact(m: State, pc: Word)
    requires Inv(m)
    ensures Step(m, Suspend).Some? && Inv(Step(m, Suspend).value) && Step(m, Resume).Some? && Inv(Step(m, Resume).value)
    ensures Step(Step(m, Suspend).value, CancelCall(pc)) == Some(m.(suspended := true))
    ensures Step(Step(m, Resume).value, CancelCall(pc)) ==
            Some(m.(calls := CancelReturn(m.calls, pc, false), suspended := false))
  {
  }

  /** A guest operation is never an exception entry or return, and touches registers only. */
  lemma GuestIsPlain(m: State, g: Flat.Op)
    requires Inv(m) && IsOp(Guest(g))
    ensures !g.Swi? && !g.Irq? && !g.Return?
    ensures Step(m, Guest(g)).Some? && Step(m, Guest(g)).value == m.(cpu := Step(m, Guest(g)).value.cpu)
  {
  }

  /** The program starts with nothing outstanding and every register zero. */
  lemma StartExact()
    ensures var m := Start();
            && m.calls.stack == [] && m.calls.floor == m.calls.hostless == 0 && m.ledger == [] && m.frames == []
            && m.nest == m.iret == 0 && !m.suspended && m.cpu.cpsr == 0
            && m.cpu.WF() && forall i :: 0 <= i < 16 ==> m.cpu.R[i] == 0
  {
  }

  lemma CallStepKeeps(m: State, op: Op)
    requires Inv(m) && (op.PushCall? || op.MatchReturn? || op.CancelCall?) && Step(m, op).Some?
    ensures var r := Step(m, op).value;
            r == m.(calls := r.calls) && r.calls.Inv() && KeepsBelow(m.calls, r.calls)
  {
    OperationsKeepBelow(m.calls, op.pc, m.suspended);
  }

  /** Frames change only at an interrupt and at the return that ends one. */
  lemma FrameSteps(m: State, op: Op)
    requires Inv(m) && IsOp(op) && Step(m, op).Some?
    ensures var r := Step(m, op).value;
            || r.frames == m.frames
            || (op.Irq? && r.frames == m.frames + [Frame(Volatile(m.cpu), m.calls.floor, |m.calls.stack|, m.iret)])
            || (op.Return? && m.frames != [] && r.frames == m.frames[..|m.frames| - 1])
  {
    RestoreOfCapture(m);
  }

  lemma ChainPush(frames: seq<Frame>, floor: nat, f: Frame)
    requires Chain(frames, floor) && |f.preserved| == 5 && f.returnFloor == floor <= f.returnDepth
    ensures Chain(frames + [f], f.returnDepth)
  {
    var g := frames + [f];
    forall i | 0 <= i < |g| ensures Linked(g, i)
    {
      assert i > 0 ==> g[i - 1] == frames[i - 1];
      if i < |frames| {
        assert g[i] == frames[i];
        assert Linked(frames, i);
      }
    }
  }

  lemma ChainPop(frames: seq<Frame>, floor: nat)
    requires Chain(frames, floor) && frames != []
    ensures Chain(frames[..|frames| - 1], frames[|frames| - 1].returnFloor)
  {
    var g := frames[..|frames| - 1];
    forall i | 0 <= i < |g| ensures Linked(g, i)
    {
      assert g[i] == frames[i] && (i > 0 ==> g[i - 1] == frames[i - 1]);
      assert Linked(frames, i);
    }
    assert Linked(frames, |frames| - 1);
  }

  lemma StepKeepsInv(m: State, op: Op)
    requires Inv(m) && IsOp(op) && Step(m, op).Some?
    ensures Inv(Step(m, op).value)
  {
    if op.PushCall? || op.MatchReturn? || op.CancelCall? {
      CallStepKeeps(m, op);
    } else if op.Return? {
      ReturnKeepsInv(m, op.pc);
    } else if op.Reload? {
      RestoreOfCapture(m);
    } else if op.Irq? {
      ChainPush(m.frames, m.calls.floor, Frame(Volatile(m.cpu), m.calls.floor, |m.calls.stack|, m.iret));
    }
  }

  lemma TopFrame(m: State)
    requires Inv(m) && m.frames != []
    ensures var f := m.frames[|m.frames| - 1];
            |f.preserved| == 5 && f.returnFloor <= f.returnDepth <= |m.calls.stack| && m.nest > 0
  {
    assert Linked(m.frames, |m.frames| - 1);
  }

  lemma ReturnKeepsInv(m: State, pc: Word)
    requires Inv(m) && Step(m, Return(pc)).Some?
    ensures Inv(Step(m, Return(pc)).value)
  {
    FramesFit(m);
    if Mode(m.cpu.cpsr) == MODE_IRQ {
      assert m.frames[|m.frames| - 1] in m.frames;
      ChainPop(m.frames, m.calls.floor);
    }
  }

  // ── Whole runs ────────────────────────────────────────────────────

  ghost function Run(m: State, ops: seq<Op>): (r: Option<State>)
    requires Inv(m) && forall op :: op in ops ==> IsOp(op)
    ensures r.Some? ==> Inv(r.value)
    decreases |ops|
  {
    if ops == [] then Some(m)
    else
      var s := Step(m, ops[0]);
      if s.None? then None
      else
        StepKeepsInv(m, ops[0]);
        Run(s.value, ops[1..])
  }

  lemma StartInv()
    ensures Inv(Start())
  {
  }

  /**
   Every reachable state keeps the continuation chain, floor <= depth <= 1024,
   hostless <= depth and one frame per nesting level; and its saved context is
   one the restore accepts.
   */
  lemma {:induction false} ReachableInv(m: State, ops: seq<Op>)
    requires Inv(m) && (forall op :: op in ops ==> IsOp(op)) && Run(m, ops).Some?
    ensures Inv(Run(m, ops).value) && Restore(Capture(Run(m, ops).value)).Some?
    decreases |ops|
  {
    if ops == [] {
      RestoreOfCapture(m);
    } else {
      StepKeepsInv(m, ops[0]);
      ReachableInv(Step(m, ops[0]).value, ops[1..]);
    }
  }

  /** In particular from the state the program starts in. */
  lemma ReachableFromStart(ops: seq<Op>)
    requires (forall op :: op in ops ==> IsOp(op)) && Inv(Start()) && Run(Start(), ops).Some?
    ensures Inv(Run(Start(), ops).value) && Restore(Capture(Run(Start(), ops).value)).Some?
  {
    StartInv();
    ReachableInv(Start(), ops);
  }

  // ── An interrupt is invisible to what it interrupts ───────────────

  /** Throughout the run the interrupt delivered at `n` frames has not returned. */
  ghost predicate Within(m: State, ops: seq<Op>, n: nat)
    requires Inv(m) && forall op :: op in ops ==> IsOp(op)
    decreases |ops|
  {
    && |m.frames| > n
    && (ops != [] ==>
          var s := Step(m, ops[0]);
          s.Some? && (StepKeepsInv(m, ops[0]); Within(s.value, ops[1..], n)))
  }

  /** Frame `frame` is still in place and so is the stack below it. */
  ghost predicate Protects(m: State, n: nat, frame: Frame, stack: seq<Word>) {
    && |m.frames| > n && m.frames[n] == frame
    && frame.returnDepth == |stack| <= |m.calls.stack|
    && m.calls.stack[..|stack|] == stack
  }

  lemma StepProtects(m: State, op: Op, n: nat, frame: Frame, stack: seq<Word>)
    requires Inv(m) && IsOp(op) && Step(m, op).Some?
    requires Protects(m, n, frame, stack) && |Step(m, op).value.frames| > n
    ensures Protects(Step(m, op).value, n, frame, stack)
  {
    FrameSteps(m, op);
    ChainMonotone(m.frames, m.calls.floor, n, n);
    var r := Step(m, op).value;
    if op.PushCall? || op.MatchReturn? || op.CancelCall? {
      CallStepKeeps(m, op);
      assert r.calls.stack[..|stack|] == r.calls.stack[..m.calls.floor][..|stack|];
      assert m.calls.stack[..|stack|] == m.calls.stack[..m.calls.floor][..|stack|];
    } else if op.Return? && r.frames != m.frames {
      ChainMonotone(m.frames, m.calls.floor, n, |m.frames| - 1);
      assert r.calls.stack == m.calls.stack[..m.frames[|m.frames| - 1].returnDepth];
      assert r.calls.stack[..|stack|] == m.calls.stack[..|stack|];
    } else if op.Reload? {
      RestoreOfCapture(m);
    }
  }

  lemma {:induction false} RunProtects(m: State, ops: seq<Op>, n: nat, frame: Frame, stack: seq<Word>)
    requires Inv(m) && (forall op :: op in ops ==> IsOp(op)) && Within(m, ops, n)
    requires Protects(m, n, frame, stack)
    ensures Run(m, ops).Some? && Inv(Run(m, ops).value) && Protects(Run(m, ops).value, n, frame, stack)
    decreases |ops|
  {
    if ops != [] {
      StepKeepsInv(m, ops[0]);
      StepProtects(m, ops[0], n, frame, stack);
      RunProtects(Step(m, ops[0]).value, ops[1..], n, frame, stack);
    }
  }

  /** The frames below an interrupt are untouched while it runs. */
  lemma {:induction false} RunKeepsOuter(m: State, ops: seq<Op>, n: nat, outer: seq<Frame>)
    requires Inv(m) && (forall op :: op in ops ==> IsOp(op)) && Within(m, ops, n)
    requires |outer| == n && m.frames[..n] == outer
    ensures Run(m, ops).Some? && |Run(m, ops).value.frames| > n && Run(m, ops).value.frames[..n] == outer
    decreases |ops|
  {
    if ops != [] {
      StepKeepsInv(m, ops[0]);
      FrameSteps(m, ops[0]);
      var r := Step(m, ops[0]).value;
      assert |r.frames| > n;
      assert r.frames[..n] == outer;
      RunKeepsOuter(r, ops[1..], n, outer);
    }
  }

  /** The state in which the interrupt's handler begins. */
  ghost function Delivered(m: State, returnAddress: Word): (e: State)
    requires Inv(m)
    ensures Inv(e)
  {
    StepKeepsInv(m, Irq(returnAddress));
    IrqStep(m, returnAddress)
  }

  /**
   Whatever a handler does, evictions, context reloads and nested interrupts
   included, its return finds the call-return stack, the floor, the nesting and
   iret depths, the outer frames, R0-R3 and R12 as the interrupt found them.
   */
  lemma IrqIsTransparent(m: State, returnAddress: Word, handler: seq<Op>, x: State, pc: Word)
    requires Inv(m) && forall op :: op in handler ==> IsOp(op)
    requires Within(Delivered(m, returnAddress), handler, |m.frames|)
    requires Run(Delivered(m, returnAddress), handler) == Some(x)
    requires |x.frames| == |m.frames| + 1 && Mode(x.cpu.cpsr) == MODE_IRQ
    ensures Step(x, Return(pc)).Some?
    ensures var r := Step(x, Return(pc)).value;
            && r.calls.stack == m.calls.stack && r.calls.floor == m.calls.floor
            && r.frames == m.frames && r.nest == m.nest && r.iret == m.iret
            && forall i :: i in {0, 1, 2, 3, 12} ==> r.cpu.R[i] == m.cpu.R[i]
  {
    var e := Delivered(m, returnAddress);
    var n := |m.frames|;
    RunProtects(e, handler, n, e.frames[n], m.calls.stack);
    RunKeepsOuter(e, handler, n, m.frames);
    assert x.frames == m.frames + [e.frames[n]];
    FramesFit(x);
    assert x.frames[n] in x.frames;
    ReturnEnds(x, pc);
  }

  lemma ReturnEnds(x: State, pc: Word)
    requires Inv(x) && x.frames != [] && Mode(x.cpu.cpsr) == MODE_IRQ
    ensures Step(x, Return(pc)).Some?
    ensures var r, f := Step(x, Return(pc)).value, x.frames[|x.frames| - 1];
            && f.returnDepth <= |x.calls.stack| && |f.preserved| == 5
            && r.calls == Calls(x.calls.stack[..f.returnDepth], f.returnFloor, Min(x.calls.hostless, f.returnDepth))
            && r.frames == x.frames[..|x.frames| - 1] && r.nest == x.nest - 1 && r.iret == f.iretDepth
            && r.cpu == WithVolatile(ReturnTo(x.cpu, pc), f.preserved) && Volatile(r.cpu) == f.preserved
            && r.ledger == x.ledger && r.suspended
  {
    FramesFit(x);
    assert x.frames[|x.frames| - 1] in x.frames;
  }
}
