/**
 The whole machine, interrupts and SWIs included, against two simple machines:
 the flat register file and the unbounded SWI stack.
 */
module MachineRefinement {
  import opened Common
  import opened ArmCpu
  import opened Machine
  import Flat = FlatRegisters
  import Ledger = SwiLedger

  /** The register operations one machine step amounts to. */
  ghost function Registers(m: State, op: Op): (ops: seq<Flat.Op>)
    requires Inv(m) && IsOp(op)
    ensures forall o :: o in ops ==> Flat.IsOp(o)
  {
    match op
    case Guest(g) => [g]
    case Swi => [Flat.Swi]
    case Irq(ret) => [Flat.Irq(ret)]
    case Return(pc) =>
      if Mode(m.cpu.cpsr) == MODE_IRQ && m.frames != [] then
        FramesFit(m);
        assert m.frames[|m.frames| - 1] in m.frames;
        var p := m.frames[|m.frames| - 1].preserved;
        [Flat.Return(pc), Flat.Write(0, p[0]), Flat.Write(1, p[1]), Flat.Write(2, p[2]),
         Flat.Write(3, p[3]), Flat.Write(12, p[4])]
      else [Flat.Return(ReturnPc(m, pc))]
    case _ => []
  }

  ghost function RunRegisters(m: State, ops: seq<Op>): (r: seq<Flat.Op>)
    requires Inv(m) && forall op :: op in ops ==> IsOp(op)
    ensures forall o :: o in r ==> Flat.IsOp(o)
    decreases |ops|
  {
    if ops == [] || Step(m, ops[0]).None? then []
    else
      StepKeepsInv(m, ops[0]);
      Registers(m, ops[0]) + RunRegisters(Step(m, ops[0]).value, ops[1..])
  }

  lemma {:induction false} CpuRunAppend(c: Cpu, a: seq<Flat.Op>, b: seq<Flat.Op>)
    requires c.WF() && forall o :: o in a + b ==> Flat.IsOp(o)
    ensures forall o :: o in a || o in b ==> o in a + b
    ensures Flat.CpuRun(c, a + b).0 == Flat.CpuRun(Flat.CpuRun(c, a).0, b).0
    decreases |a|
  {
    if a == [] {
      assert a + b == b;
    } else {
      assert (a + b)[1..] == a[1..] + b;
      assert (a + b)[0] == a[0];
      CpuRunAppend(Flat.CpuStep(c, a[0]).0, a[1..], b);
    }
  }

  lemma OneRegister(c: Cpu, o: Flat.Op)
    requires c.WF() && Flat.IsOp(o)
    ensures Flat.CpuRun(c, [o]).0 == Flat.CpuStep(c, o).0
  {
  }

  /** Restoring R0-R3 and R12 is five ordinary register writes. */
  lemma VolatileWrites(c: Cpu, p: seq<Word>)
    requires c.WF() && |p| == 5
    ensures Flat.CpuRun(c, [Flat.Write(0, p[0]), Flat.Write(1, p[1]), Flat.Write(2, p[2]),
                            Flat.Write(3, p[3]), Flat.Write(12, p[4])]).0 == WithVolatile(c, p)
  {
    var ops := [Flat.Write(0, p[0]), Flat.Write(1, p[1]), Flat.Write(2, p[2]), Flat.Write(3, p[3]), Flat.Write(12, p[4])];
    var c1 := Flat.CpuStep(c, ops[0]).0;
    var c2 := Flat.CpuStep(c1, ops[1]).0;
    var c3 := Flat.CpuStep(c2, ops[2]).0;
    var c4 := Flat.CpuStep(c3, ops[3]).0;
    assert ops[1..][1..] == ops[2..];
    assert ops[2..][1..] == ops[3..];
    assert ops[3..][1..] == ops[4..];
    assert Flat.CpuRun(c4, ops[4..]).0 == WithVolatile(c, p);
    assert Flat.CpuRun(c3, ops[3..]).0 == WithVolatile(c, p);
    assert Flat.CpuRun(c2, ops[2..]).0 == WithVolatile(c, p);
    assert Flat.CpuRun(c1, ops[1..]).0 == WithVolatile(c, p);
  }

  lemma IrqReturnRegisters(m: State, pc: Word)
    requires Inv(m) && Mode(m.cpu.cpsr) == MODE_IRQ && m.frames != []
    ensures Step(m, Return(pc)).Some?
    ensures Step(m, Return(pc)).value.cpu == Flat.CpuRun(m.cpu, Registers(m, Return(pc))).0
  {
    hide SwitchPsr, ReloadPsr, EntryPsr, BankIn, BankOut, Merge, FieldBits;
    ReturnEnds(m, pc);
    var p := m.frames[|m.frames| - 1].preserved;
    var writes := [Flat.Write(0, p[0]), Flat.Write(1, p[1]), Flat.Write(2, p[2]), Flat.Write(3, p[3]), Flat.Write(12, p[4])];
    CpuRunAppend(m.cpu, [Flat.Return(pc)], writes);
    OneRegister(m.cpu, Flat.Return(pc));
    VolatileWrites(ReturnTo(m.cpu, pc), p);
    assert Registers(m, Return(pc)) == [Flat.Return(pc)] + writes;
  }

  lemma StepRegisters(m: State, op: Op)
    requires Inv(m) && IsOp(op) && Step(m, op).Some?
    ensures Step(m, op).value.cpu == Flat.CpuRun(m.cpu, Registers(m, op)).0
  {
    hide SwitchPsr, ReloadPsr, EntryPsr, BankIn, BankOut, Merge, FieldBits, WithVolatile;
    match op {
      case Return(pc) =>
        if Mode(m.cpu.cpsr) == MODE_IRQ {
          IrqReturnRegisters(m, pc);
        } else {
          OneRegister(m.cpu, Flat.Return(ReturnPc(m, pc)));
        }
      case Reload => RestoreOfCapture(m);
      case Guest(g) => OneRegister(m.cpu, g);
      case Swi => OneRegister(m.cpu, Flat.Swi);
      case Irq(ret) => OneRegister(m.cpu, Flat.Irq(ret));
      case _ =>
    }
  }

  /** The register file of a machine run is the register file after its register operations. */
  lemma {:induction false} RunIsRegisters(m: State, ops: seq<Op>)
    requires Inv(m) && (forall op :: op in ops ==> IsOp(op)) && Run(m, ops).Some?
    ensures Run(m, ops).value.cpu == Flat.CpuRun(m.cpu, RunRegisters(m, ops)).0
    decreases |ops|
  {
    if ops != [] {
      StepRegisters(m, ops[0]);
      StepKeepsInv(m, ops[0]);
      var r := Step(m, ops[0]).value;
      RunIsRegisters(r, ops[1..]);
      CpuRunAppend(m.cpu, Registers(m, ops[0]), RunRegisters(r, ops[1..]));
    }
  }

  /**
   Over every machine run, with interrupts delivered and returned from, SWIs and
   context reloads, the banked registers hold what a flat machine with one cell
   per physical register holds.
   */
  lemma MachineRefinesFlat(m: State, ops: seq<Op>, f: Flat.Flat)
    requires Inv(m) && (forall op :: op in ops ==> IsOp(op)) && Run(m, ops).Some?
    requires Flat.Simulates(m.cpu, f) && Flat.GuardedRun(f, RunRegisters(m, ops))
    ensures Flat.Simulates(Run(m, ops).value.cpu, Flat.FlatRun(f, RunRegisters(m, ops)).0)
  {
    RunIsRegisters(m, ops);
    Flat.RunRefinesFlat(m.cpu, f, RunRegisters(m, ops));
  }

  // ── The SWI ledger of a run ───────────────────────────────────────

  /** The ledger events of a run: SWI entries and Supervisor-mode returns. */
  ghost function LedgerEvents(m: State, ops: seq<Op>): seq<Ledger.Event>
    requires Inv(m) && forall op :: op in ops ==> IsOp(op)
    decreases |ops|
  {
    if ops == [] || Step(m, ops[0]).None? then []
    else
      StepKeepsInv(m, ops[0]);
      LedgerEvent(m, ops[0]) + LedgerEvents(Step(m, ops[0]).value, ops[1..])
  }

  /**
   Interrupts, nesting and context reloads leave the ledger alone: over every run
   it is a top-aligned suffix of the stack that never drops an entry.
   */
  lemma {:induction false} RunLedger(m: State, ops: seq<Op>, whole: seq<Ledger.Slot>)
    requires Inv(m) && (forall op :: op in ops ==> IsOp(op)) && Run(m, ops).Some?
    requires Ledger.Suffix(m.ledger, whole)
    ensures Run(m, ops).value.ledger == Ledger.Bounded(m.ledger, LedgerEvents(m, ops))
    ensures Ledger.Suffix(Run(m, ops).value.ledger, Ledger.Ideal(whole, LedgerEvents(m, ops)))
    decreases |ops|
  {
    LedgerFollows(m, ops);
    Ledger.LedgerIsSuffix(m.ledger, whole, LedgerEvents(m, ops));
  }

  /** The ledger event of one step, if it has one. */
  ghost function LedgerEvent(m: State, op: Op): seq<Ledger.Event>
    requires Inv(m) && IsOp(op)
  {
    if op.Swi? then [Ledger.Entered(SwiSlot(m.cpu.R[15], m.cpu.cpsr))]
    else if op.Return? && Mode(m.cpu.cpsr) == MODE_SUPERVISOR then [Ledger.Left(op.pc)]
    else []
  }

  lemma LedgerStep(m: State, op: Op)
    requires Inv(m) && IsOp(op) && Step(m, op).Some?
    ensures Step(m, op).value.ledger == Ledger.Bounded(m.ledger, LedgerEvent(m, op))
  {
    if op.Reload? {
      RestoreOfCapture(m);
    } else if op.Return? && Mode(m.cpu.cpsr) == MODE_IRQ {
      ReturnEnds(m, op.pc);
    }
  }

  lemma {:induction false} BoundedAppend(l: seq<Ledger.Slot>, a: seq<Ledger.Event>, b: seq<Ledger.Event>)
    ensures Ledger.Bounded(l, a + b) == Ledger.Bounded(Ledger.Bounded(l, a), b)
    decreases |a|
  {
    if a == [] {
      assert a + b == b;
    } else {
      assert (a + b)[1..] == a[1..] + b;
      BoundedAppend(match a[0] case Entered(s) => Ledger.Push(l, s) case Left(_) => Ledger.Pop(l), a[1..], b);
    }
  }

  lemma {:induction false} LedgerFollows(m: State, ops: seq<Op>)
    requires Inv(m) && (forall op :: op in ops ==> IsOp(op)) && Run(m, ops).Some?
    ensures Run(m, ops).value.ledger == Ledger.Bounded(m.ledger, LedgerEvents(m, ops))
    decreases |ops|
  {
    if ops != [] {
      LedgerStep(m, ops[0]);
      StepKeepsInv(m, ops[0]);
      var r := Step(m, ops[0]).value;
      LedgerFollows(r, ops[1..]);
      BoundedAppend(m.ledger, LedgerEvent(m, ops[0]), LedgerEvents(r, ops[1..]));
    }
  }

  /** A Supervisor return in any state goes to the PC the ledger validates. */
  lemma SupervisorReturnLands(m: State, pc: Word)
    requires Inv(m) && Mode(m.cpu.cpsr) == MODE_SUPERVISOR
    ensures Step(m, Return(pc)).Some?
    ensures Step(m, Return(pc)).value.cpu.R[15] == Ledger.Target(m.ledger, pc)
    ensures Step(m, Return(pc)).value.ledger == Ledger.Pop(m.ledger)
  {
  }

  // ── Balanced runs ─────────────────────────────────────────────────

  /** An SWI with everything up to its own return, or an operation that is neither: an interrupt is two of these. */
  datatype Block = Quiet(op: Op) | Call(body: seq<Block>, pc: Word)

  function Flatten(blocks: seq<Block>): seq<Op> {
    if blocks == [] then []
    else
      (match blocks[0]
       case Quiet(op) => [op]
       case Call(body, pc) => [Swi] + Flatten(body) + [Return(pc)])
      + Flatten(blocks[1..])
  }

  ghost function Next(m: State, op: Op): (r: Option<State>)
    requires Inv(m) && IsOp(op)
    ensures r == Step(m, op) && (r.Some? ==> Inv(r.value))
  {
    if Step(m, op).Some? then (StepKeepsInv(m, op); Step(m, op)) else None
  }

  /** The state after an SWI. */
  ghost function Entered(m: State): (e: State)
    requires Inv(m)
    ensures Step(m, Swi) == Some(e) && Inv(e)
    ensures e.ledger == Ledger.Push(m.ledger, SwiSlot(m.cpu.R[15], m.cpu.cpsr))
  {
    StepKeepsInv(m, Swi);
    SwiStep(m)
  }

  /** `None` also where the blocks are not what the run does: a Supervisor return of no SWI, or an SWI's return in another mode. */
  ghost function RunBlock(m: State, b: Block): (r: Option<State>)
    requires Inv(m)
    ensures r.Some? ==> Inv(r.value)
    decreases b
  {
    match b
    case Quiet(op) =>
      if !IsOp(op) || op.Swi? || (op.Return? && Mode(m.cpu.cpsr) == MODE_SUPERVISOR) then None else Next(m, op)
    case Call(body, pc) =>
      var x := RunBlocks(Entered(m), body);
      if x.None? || Mode(x.value.cpu.cpsr) != MODE_SUPERVISOR then None else Next(x.value, Return(pc))
  }

  ghost function RunBlocks(m: State, blocks: seq<Block>): (r: Option<State>)
    requires Inv(m)
    ensures r.Some? ==> Inv(r.value)
    decreases blocks
  {
    if blocks == [] then Some(m)
    else
      var n := RunBlock(m, blocks[0]);
      if n.None? then None else RunBlocks(n.value, blocks[1..])
  }

  /** The SWIs of a run, each with the continuation it records and the PC its return asks for. */
  ghost function Calls(m: State, blocks: seq<Block>): seq<Ledger.Call>
    requires Inv(m) && RunBlocks(m, blocks).Some?
    decreases blocks
  {
    if blocks == [] then []
    else BlockCalls(m, blocks[0]) + Calls(RunBlock(m, blocks[0]).value, blocks[1..])
  }

  ghost function BlockCalls(m: State, b: Block): seq<Ledger.Call>
    requires Inv(m) && RunBlock(m, b).Some?
    decreases b
  {
    match b
    case Quiet(_) => []
    case Call(body, pc) => [Ledger.Call(SwiSlot(m.cpu.R[15], m.cpu.cpsr), Calls(Entered(m), body), pc)]
  }

  /** The PCs the SWIs of a run return to, innermost first. */
  ghost function Returned(m: State, blocks: seq<Block>): seq<Word>
    requires Inv(m) && RunBlocks(m, blocks).Some?
    decreases blocks
  {
    if blocks == [] then []
    else BlockReturned(m, blocks[0]) + Returned(RunBlock(m, blocks[0]).value, blocks[1..])
  }

  ghost function BlockReturned(m: State, b: Block): seq<Word>
    requires Inv(m) && RunBlock(m, b).Some?
    decreases b
  {
    match b
    case Quiet(_) => []
    case Call(body, pc) => Returned(Entered(m), body) + [RunBlock(m, b).value.cpu.R[15]]
  }

  /** The addresses in R15 at the SWIs of a run, in the order of their returns. */
  ghost function Entries(m: State, blocks: seq<Block>): seq<Word>
    requires Inv(m) && RunBlocks(m, blocks).Some?
    decreases blocks
  {
    if blocks == [] then []
    else BlockEntries(m, blocks[0]) + Entries(RunBlock(m, blocks[0]).value, blocks[1..])
  }

  ghost function BlockEntries(m: State, b: Block): seq<Word>
    requires Inv(m) && RunBlock(m, b).Some?
    decreases b
  {
    match b
    case Quiet(_) => []
    case Call(body, pc) => Entries(Entered(m), body) + [m.cpu.R[15]]
  }

  /** The PCs the returns of a run ask for, in their order. */
  function Requested(blocks: seq<Block>): seq<Word> {
    if blocks == [] then []
    else
      (match blocks[0]
       case Quiet(_) => []
       case Call(body, pc) => Requested(body) + [pc])
      + Requested(blocks[1..])
  }

  /** The continuations recorded in a run are those addresses. */
  lemma {:induction false} EntriesRecorded(m: State, blocks: seq<Block>)
    requires Inv(m) && RunBlocks(m, blocks).Some?
    ensures Ledger.Continuations(Calls(m, blocks)) == Entries(m, blocks)
    ensures Ledger.Asked(Calls(m, blocks)) == Requested(blocks)
    decreases blocks
  {
    hide Step, Inv, RunBlock, SwiSlot, BlockCalls, BlockEntries;
    if blocks != [] {
      var n := RunBlock(m, blocks[0]).value;
      BlockRecorded(m, blocks[0]);
      EntriesRecorded(n, blocks[1..]);
      var c := BlockCalls(m, blocks[0]);
      assert c == [] || c == [c[0]];
      FirstContinuation(c, Calls(n, blocks[1..]));
    }
  }

  lemma {:induction false} BlockRecorded(m: State, b: Block)
    requires Inv(m) && RunBlock(m, b).Some?
    ensures b.Quiet? ==> BlockCalls(m, b) == [] && BlockEntries(m, b) == []
    ensures b.Call? ==>
              && |BlockCalls(m, b)| == 1
              && Ledger.Continuations(BlockCalls(m, b)[0].body) + [BlockCalls(m, b)[0].slot.continuation] == BlockEntries(m, b)
              && Ledger.Asked(BlockCalls(m, b)[0].body) + [BlockCalls(m, b)[0].wanted] == Requested(b.body) + [b.pc]
    decreases b
  {
    hide Step, Inv, RunBlocks, Ledger.Continuations, Ledger.Asked;
    if b.Call? {
      EntriesRecorded(Entered(m), b.body);
    }
  }

  lemma FirstContinuation(c: seq<Ledger.Call>, rest: seq<Ledger.Call>)
    requires |c| <= 1
    ensures c == [] ==> c + rest == rest
    ensures |c| == 1 ==>
              && Ledger.Continuations(c + rest) ==
                 Ledger.Continuations(c[0].body) + [c[0].slot.continuation] + Ledger.Continuations(rest)
              && Ledger.Asked(c + rest) == Ledger.Asked(c[0].body) + [c[0].wanted] + Ledger.Asked(rest)
  {
    if |c| == 1 {
      assert (c + rest)[0] == c[0] && (c + rest)[1..] == rest;
    }
  }

  lemma QuietKeepsLedger(m: State, op: Op)
    requires Inv(m) && IsOp(op) && RunBlock(m, Quiet(op)).Some?
    ensures RunBlock(m, Quiet(op)).value.ledger == m.ledger
  {
    LedgerStep(m, op);
  }

  lemma SupervisorReturn(x: State, pc: Word)
    requires Inv(x) && Mode(x.cpu.cpsr) == MODE_SUPERVISOR
    ensures Next(x, Return(pc)).Some?
    ensures Next(x, Return(pc)).value.cpu.WF() && Next(x, Return(pc)).value.cpu.R[15] == Ledger.Target(x.ledger, pc)
    ensures Next(x, Return(pc)).value.ledger == Ledger.Pop(x.ledger)
  {
    SupervisorReturnLands(x, pc);
  }

  /** The ledger and the returns of a run are those of its SWIs alone. */
  lemma {:induction false} BlocksFollow(m: State, blocks: seq<Block>)
    requires Inv(m) && RunBlocks(m, blocks).Some?
    ensures RunBlocks(m, blocks).value.ledger == Ledger.After(m.ledger, Calls(m, blocks))
    ensures Returned(m, blocks) == Ledger.Lands(m.ledger, Calls(m, blocks))
    decreases blocks
  {
    hide Step, Inv, RunBlock, BlockCalls, BlockReturned, Ledger.Push, Ledger.Pop, Ledger.Target, SwiSlot;
    if blocks != [] {
      var n := RunBlock(m, blocks[0]).value;
      var rest := Calls(n, blocks[1..]);
      BlocksFollow(n, blocks[1..]);
      BlockFollows(m, blocks[0]);
      if blocks[0].Call? {
        FirstCall(m.ledger, BlockCalls(m, blocks[0])[0], rest);
        assert Calls(m, blocks) == [BlockCalls(m, blocks[0])[0]] + rest;
      } else {
        assert Calls(m, blocks) == rest;
        assert Returned(m, blocks) == Returned(n, blocks[1..]);
      }
    }
  }

  lemma {:induction false} BlockFollows(m: State, b: Block)
    requires Inv(m) && RunBlock(m, b).Some?
    ensures b.Quiet? ==> BlockCalls(m, b) == [] && BlockReturned(m, b) == [] && RunBlock(m, b).value.ledger == m.ledger
    ensures b.Call? ==>
              && |BlockCalls(m, b)| == 1
              && var c := BlockCalls(m, b)[0];
                 var pushed := Ledger.Push(m.ledger, c.slot);
                 var inner := Ledger.After(pushed, c.body);
                 && RunBlock(m, b).value.ledger == Ledger.Pop(inner)
                 && BlockReturned(m, b) == Ledger.Lands(pushed, c.body) + [Ledger.Target(inner, c.wanted)]
    decreases b
  {
    hide Step, Inv, Ledger.Push, Ledger.Pop, Ledger.Target, SwiSlot, Ledger.After, Ledger.Lands, RunBlocks;
    match b {
      case Quiet(op) => QuietKeepsLedger(m, op);
      case Call(body, pc) =>
        var e := Entered(m);
        BlocksFollow(e, body);
        SupervisorReturn(RunBlocks(e, body).value, pc);
    }
  }

  lemma FirstCall(l: seq<Ledger.Slot>, c: Ledger.Call, rest: seq<Ledger.Call>)
    ensures var inner := Ledger.After(Ledger.Push(l, c.slot), c.body);
            && Ledger.After(l, [c] + rest) == Ledger.After(Ledger.Pop(inner), rest)
            && Ledger.Lands(l, [c] + rest) ==
               Ledger.Lands(Ledger.Push(l, c.slot), c.body) + [Ledger.Target(inner, c.wanted)] + Ledger.Lands(Ledger.Pop(inner), rest)
  {
    assert ([c] + rest)[1..] == rest;
  }

  lemma {:induction false} RunAppend(m: State, a: seq<Op>, b: seq<Op>)
    requires Inv(m) && (forall op :: op in a ==> IsOp(op)) && (forall op :: op in b ==> IsOp(op))
    ensures forall op :: op in a + b ==> IsOp(op)
    ensures Run(m, a + b) == var r := Run(m, a); if r.None? then None else Run(r.value, b)
    decreases |a|
  {
    hide Step, Inv, IsOp;
    if a == [] {
      assert a + b == b;
    } else {
      assert (a + b)[0] == a[0] && (a + b)[1..] == a[1..] + b;
      assert a[0] in a;
      if Step(m, a[0]).Some? {
        StepKeepsInv(m, a[0]);
        RunAppend(Step(m, a[0]).value, a[1..], b);
      }
    }
  }

  lemma RunOne(m: State, op: Op)
    requires Inv(m) && IsOp(op)
    ensures Run(m, [op]) == Step(m, op)
  {
    if Step(m, op).Some? {
      StepKeepsInv(m, op);
    }
    hide Step, Inv;
    assert [op][1..] == [];
  }

  /** The blocks are a reading of a machine run, operation by operation. */
  lemma {:induction false} BlocksAreRun(m: State, blocks: seq<Block>)
    requires Inv(m) && RunBlocks(m, blocks).Some?
    ensures forall op :: op in Flatten(blocks) ==> IsOp(op)
    ensures Run(m, Flatten(blocks)) == RunBlocks(m, blocks)
    decreases blocks
  {
    hide Step, Inv, IsOp, Run;
    if blocks == [] {
      RunNone(m);
    } else {
      BlockIsRun(m, blocks[0]);
      var n := RunBlock(m, blocks[0]).value;
      BlocksAreRun(n, blocks[1..]);
      assert Flatten(blocks) == Flatten([blocks[0]]) + Flatten(blocks[1..]) by { FlattenOne(blocks[0]); }
      RunAppend(m, Flatten([blocks[0]]), Flatten(blocks[1..]));
    }
  }

  lemma RunNone(m: State)
    requires Inv(m)
    ensures Run(m, []) == Some(m)
  {
  }

  lemma FlattenOne(b: Block)
    ensures Flatten([b]) == match b { case Quiet(op) => [op] case Call(body, pc) => [Swi] + Flatten(body) + [Return(pc)] }
  {
    assert [b][1..] == [];
  }

  lemma {:induction false} BlockIsRun(m: State, b: Block)
    requires Inv(m) && RunBlock(m, b).Some?
    ensures forall op :: op in Flatten([b]) ==> IsOp(op)
    ensures Run(m, Flatten([b])) == RunBlock(m, b)
    decreases b
  {
    hide Step, Inv, Run, Flatten;
    FlattenOne(b);
    match b {
      case Quiet(op) =>
        RunOne(m, op);
      case Call(body, pc) =>
        var e := Entered(m);
        BlocksAreRun(e, body);
        var x := RunBlocks(e, body).value;
        RunOne(m, Swi);
        RunOne(x, Return(pc));
        RunAppend(m, [Swi], Flatten(body));
        RunAppend(m, [Swi] + Flatten(body), [Return(pc)]);
    }
  }

  // ── Which runs are balanced ───────────────────────────────────────

  /** Whether a step returns from an SWI. */
  ghost predicate Leaves(m: State, op: Op) { op.Return? && Mode(m.cpu.cpsr) == MODE_SUPERVISOR }

  /**
   The run `ops` goes through and, with `open` SWIs outstanding, each of its Supervisor returns
   ends one and none is left: what counting SWIs and Supervisor returns can tell.
   */
  ghost predicate Balances(m: State, ops: seq<Op>, open: nat)
    requires Inv(m)
    decreases |ops|
  {
    if ops == [] then open == 0
    else
      && IsOp(ops[0]) && Next(m, ops[0]).Some? && (Leaves(m, ops[0]) ==> open > 0)
      && Balances(Next(m, ops[0]).value, ops[1..],
                  if ops[0].Swi? then open + 1 else if Leaves(m, ops[0]) then open - 1 else open)
  }

  lemma QuietRuns(m: State, op: Op)
    requires Inv(m) && IsOp(op) && Next(m, op).Some? && !op.Swi? && !Leaves(m, op)
    ensures RunBlock(m, Quiet(op)) == Next(m, op)
  {
  }

  lemma CallRuns(m: State, body: seq<Block>, pc: Word)
    requires Inv(m) && RunBlocks(Entered(m), body).Some?
    requires Leaves(RunBlocks(Entered(m), body).value, Return(pc))
    ensures RunBlock(m, Call(body, pc)) == Next(RunBlocks(Entered(m), body).value, Return(pc))
    ensures RunBlock(m, Call(body, pc)).Some?
  {
    SupervisorReturn(RunBlocks(Entered(m), body).value, pc);
  }

  lemma RunCons(m: State, b: Block, rest: seq<Block>)
    requires Inv(m)
    ensures RunBlocks(m, [b] + rest) == var n := RunBlock(m, b); if n.None? then None else RunBlocks(n.value, rest)
    ensures Flatten([b] + rest) == Flatten([b]) + Flatten(rest)
  {
    hide RunBlock, Inv;
    assert ([b] + rest)[1..] == rest && ([b] + rest)[0] == b;
    FlattenOne(b);
  }

  /** The first return that ends an SWI outstanding at the start, and the blocks before it. */
  lemma {:induction false} FirstReturn(m: State, ops: seq<Op>, open: nat)
    returns (body: seq<Block>, pc: Word, rest: seq<Op>)
    requires Inv(m) && Balances(m, ops, open + 1)
    ensures RunBlocks(m, body).Some? && Leaves(RunBlocks(m, body).value, Return(pc))
    ensures ops == Flatten(body) + [Return(pc)] + rest
    ensures Next(RunBlocks(m, body).value, Return(pc)).Some?
    ensures Balances(Next(RunBlocks(m, body).value, Return(pc)).value, rest, open)
    decreases |ops|
  {
    hide Step, Inv, Next, Flatten, RunBlock, RunBlocks;
    var op, after := ops[0], ops[1..];
    assert ops == [op] + after;
    if Leaves(m, op) {
      body, pc, rest := [], op.pc, after;
      NoBlocks(m);
    } else if op.Swi? {
      EnteredIsNext(m);
      var inner, innerPc, tail := FirstReturn(Entered(m), after, open + 1);
      CallRuns(m, inner, innerPc);
      var b := Call(inner, innerPc);
      var more, morePc, end := FirstReturn(RunBlock(m, b).value, tail, open);
      RunCons(m, b, more);
      FlattenOne(b);
      body, pc, rest := [b] + more, morePc, end;
      Regroup([Swi], Flatten(inner), [Return(innerPc)], Flatten(more), [Return(pc)], rest);
    } else {
      QuietRuns(m, op);
      var b := Quiet(op);
      var more, morePc, end := FirstReturn(RunBlock(m, b).value, after, open);
      RunCons(m, b, more);
      FlattenOne(b);
      body, pc, rest := [b] + more, morePc, end;
      assert [op] + (Flatten(more) + [Return(pc)] + rest) == ([op] + Flatten(more)) + [Return(pc)] + rest;
    }
  }

  lemma NoBlocks(m: State)
    requires Inv(m)
    ensures RunBlocks(m, []) == Some(m) && Flatten([]) == []
  {
  }

  lemma EnteredIsNext(m: State)
    requires Inv(m)
    ensures Next(m, Swi) == Some(Entered(m))
  {
  }

  lemma Regroup(a: seq<Op>, b: seq<Op>, c: seq<Op>, d: seq<Op>, e: seq<Op>, f: seq<Op>)
    ensures a + (b + c + (d + e + f)) == (a + b + c + d) + e + f
  {
  }

  /** A run that balances can be read as blocks. */
  lemma {:induction false} BalancedHasBlocks(m: State, ops: seq<Op>) returns (blocks: seq<Block>)
    requires Inv(m) && Balances(m, ops, 0)
    ensures Flatten(blocks) == ops && RunBlocks(m, blocks).Some?
    decreases |ops|
  {
    hide Step, Inv, Next, Flatten, RunBlock, RunBlocks;
    NoBlocks(m);
    if ops == [] {
      blocks := [];
    } else {
      var op, after := ops[0], ops[1..];
      assert ops == [op] + after;
      var b, rest;
      if op.Swi? {
        EnteredIsNext(m);
        var inner, pc, tail := FirstReturn(Entered(m), after, 0);
        CallRuns(m, inner, pc);
        b, rest := Call(inner, pc), tail;
        FlattenOne(b);
        assert [Swi] + (Flatten(inner) + [Return(pc)] + tail) == ([Swi] + Flatten(inner) + [Return(pc)]) + tail;
      } else {
        QuietRuns(m, op);
        b, rest := Quiet(op), after;
        FlattenOne(b);
      }
      var more := BalancedHasBlocks(RunBlock(m, b).value, rest);
      RunCons(m, b, more);
      blocks := [b] + more;
    }
  }

  /** And what is read as blocks balances, whatever is outstanding and whatever follows. */
  lemma {:induction false} BlocksBalance(m: State, blocks: seq<Block>, tail: seq<Op>, open: nat)
    requires Inv(m) && RunBlocks(m, blocks).Some?
    ensures Balances(m, Flatten(blocks) + tail, open) <==> Balances(RunBlocks(m, blocks).value, tail, open)
    decreases blocks
  {
    hide Step, Inv, Next, RunBlock, Balances;
    if blocks == [] {
      assert Flatten(blocks) + tail == tail;
    } else {
      var n := RunBlock(m, blocks[0]).value;
      assert blocks == [blocks[0]] + blocks[1..];
      RunCons(m, blocks[0], blocks[1..]);
      BlockBalances(m, blocks[0], Flatten(blocks[1..]) + tail, open);
      BlocksBalance(n, blocks[1..], tail, open);
      assert Flatten(blocks) + tail == Flatten([blocks[0]]) + (Flatten(blocks[1..]) + tail);
    }
  }

  lemma {:induction false} BlockBalances(m: State, b: Block, tail: seq<Op>, open: nat)
    requires Inv(m) && RunBlock(m, b).Some?
    ensures Balances(m, Flatten([b]) + tail, open) <==> Balances(RunBlock(m, b).value, tail, open)
    decreases b
  {
    hide Step, Inv, Next, RunBlocks, Balances;
    FlattenOne(b);
    match b {
      case Quiet(op) =>
        BalancesCons(m, op, tail, open);
      case Call(body, pc) =>
        var e := Entered(m);
        var x := RunBlocks(e, body).value;
        EnteredIsNext(m);
        assert [Swi] + Flatten(body) + [Return(pc)] + tail == [Swi] + (Flatten(body) + ([Return(pc)] + tail));
        BalancesCons(m, Swi, Flatten(body) + ([Return(pc)] + tail), open);
        BlocksBalance(e, body, [Return(pc)] + tail, open + 1);
        BalancesCons(x, Return(pc), tail, open + 1);
    }
  }

  lemma BalancesCons(m: State, op: Op, tail: seq<Op>, open: nat)
    requires Inv(m) && IsOp(op) && Next(m, op).Some? && (Leaves(m, op) ==> open > 0)
    ensures Balances(m, [op] + tail, open) <==>
            Balances(Next(m, op).value, tail, if op.Swi? then open + 1 else if Leaves(m, op) then open - 1 else open)
  {
    hide Step, Inv, Next;
    assert ([op] + tail)[1..] == tail && ([op] + tail)[0] == op;
  }

  /** The blocks are all the balanced runs, and no others. */
  lemma BalancedExact(m: State, ops: seq<Op>)
    requires Inv(m)
    ensures Balances(m, ops, 0) <==> exists blocks :: Flatten(blocks) == ops && RunBlocks(m, blocks).Some?
  {
    hide Step, Inv, Next, RunBlock, RunBlocks, Flatten;
    if Balances(m, ops, 0) {
      var blocks := BalancedHasBlocks(m, ops);
    }
    if blocks :| Flatten(blocks) == ops && RunBlocks(m, blocks).Some? {
      BlocksBalance(m, blocks, [], 0);
      assert Flatten(blocks) + [] == ops;
    }
  }

  /**
   In any machine run that is balanced, interrupts, SWIs inside their handlers, context
   reloads and mode changes included, and from any ledger: the ledger afterwards is the newest
   64 - d entries found for SWIs nested d deep; a return lands on its own continuation while
   fewer than 64 SWIs nest inside it, and on the PC it asks for beyond; and so, with at most
   64 nested, every return lands on the address that was in R15 at its own SWI, and however deep
   the nesting a return that asks for that address is not redirected.
   */
  lemma BalancedMachine(m: State, blocks: seq<Block>)
    requires Inv(m) && RunBlocks(m, blocks).Some?
    ensures forall op :: op in Flatten(blocks) ==> IsOp(op)
    ensures Run(m, Flatten(blocks)) == RunBlocks(m, blocks)
    ensures RunBlocks(m, blocks).value.ledger == Ledger.Newest(m.ledger, 64 - Ledger.Depth(Calls(m, blocks)))
    ensures Returned(m, blocks) == Ledger.Landings(Calls(m, blocks))
    ensures Ledger.Depth(Calls(m, blocks)) <= 64 ==> Ledger.SameInstructions(Returned(m, blocks), Entries(m, blocks))
    ensures Ledger.NotRedirected(Returned(m, blocks), Requested(blocks), Entries(m, blocks))
  {
    hide *;
    BlocksAreRun(m, blocks);
    BlocksFollow(m, blocks);
    LedgerFits(m);
    Ledger.BalancedLedger(m.ledger, Calls(m, blocks));
    Ledger.BalancedRun(m.ledger, Calls(m, blocks));
    Ledger.LegalReturns(Calls(m, blocks));
    EntriesRecorded(m, blocks);
    SwiLimit();
    if Ledger.Depth(Calls(m, blocks)) <= 64 {
      Ledger.LandingsHome(Calls(m, blocks));
    }
  }

  /** The same told of the operations: of every run whose SWIs and Supervisor returns balance. */
  lemma BalancedReturnsHome(m: State, ops: seq<Op>) returns (blocks: seq<Block>)
    requires Inv(m) && Balances(m, ops, 0)
    ensures Flatten(blocks) == ops && (forall op :: op in ops ==> IsOp(op))
    ensures RunBlocks(m, blocks).Some? && Run(m, ops) == RunBlocks(m, blocks)
    ensures Run(m, ops).value.ledger == Ledger.Newest(m.ledger, 64 - Ledger.Depth(Calls(m, blocks)))
    ensures Returned(m, blocks) == Ledger.Landings(Calls(m, blocks))
    ensures Ledger.Depth(Calls(m, blocks)) <= 64 ==> Ledger.SameInstructions(Returned(m, blocks), Entries(m, blocks))
    ensures Ledger.NotRedirected(Returned(m, blocks), Requested(blocks), Entries(m, blocks))
  {
    hide *;
    blocks := BalancedHasBlocks(m, ops);
    BalancedMachine(m, blocks);
  }

  lemma SwiLimit()
    ensures Ledger.SWI_LIMIT == 64
  {
  }

  lemma LedgerFits(m: State)
    requires Inv(m)
    ensures |m.ledger| <= Ledger.SWI_LIMIT
  {
  }
}
