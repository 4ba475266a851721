/**
 The generated call-return stack of runtime_arm.cpp: a bounded stack of guest
 return addresses with an IRQ floor below which nothing is matched or popped,
 and a host-less mark below which entries may be evicted when the stack is full.
 */
module CallStack {
  import opened Common

  const CALL_LIMIT := 1024

  /** The live entries, the IRQ floor and the host-less mark. */
  datatype Calls = Calls(stack: seq<Word>, floor: nat, hostless: nat)
  {
    predicate Inv() {
      floor <= |stack| <= CALL_LIMIT && hostless <= |stack|
    }
  }

  // ── Specification ─────────────────────────────────────────────────

  /** How many host-less entries a push onto `c` evicts. */
  function Evicted(c: Calls): nat {
    if |c.stack| >= CALL_LIMIT && c.hostless > c.floor then (c.hostless - c.floor + 1) / 2 else 0
  }

  /** The push; `None` is the abort on overflow. */
  function PushReturn(c: Calls, pc: Word): (r: Option<Calls>)
    requires c.Inv()
  {
    var n := Evicted(c);
    var stack := c.stack[..c.floor] + c.stack[c.floor + n..];
    if |stack| >= CALL_LIMIT then None
    else Some(Calls(stack + [Even(pc)], c.floor, if n > 0 then c.hostless - n else c.hostless))
  }

  /** The push as eviction and append. */
  lemma PushParts(c: Calls, pc: Word)
    requires c.Inv()
    ensures |c.stack| >= CALL_LIMIT && c.hostless > c.floor ==>
              var n := (c.hostless - c.floor + 1) / 2;
              PushReturn(c, pc) ==
              Some(Calls(c.stack[..c.floor] + c.stack[c.floor + n..] + [Even(pc)], c.floor, c.hostless - n))
    ensures |c.stack| >= CALL_LIMIT && c.hostless <= c.floor ==> PushReturn(c, pc) == None
    ensures |c.stack| < CALL_LIMIT ==> PushReturn(c, pc) == Some(c.(stack := c.stack + [Even(pc)]))
  {
    assert c.stack[..c.floor] + c.stack[c.floor..] == c.stack;
  }

  /** The topmost slot in [floor, i) that holds `pc`, or -1. */
  function TopMatch(stack: seq<Word>, floor: nat, pc: Word, i: nat): (slot: int)
    requires floor <= i <= |stack|
    ensures slot == -1 || floor <= slot < i
  {
    if i == floor then -1
    else if stack[i - 1] == pc then i - 1
    else TopMatch(stack, floor, pc, i - 1)
  }

  /** Cut the stack to `depth` entries, clamping the host-less mark. */
  function CutTo(c: Calls, depth: nat): Calls
    requires depth <= |c.stack|
  {
    Calls(c.stack[..depth], c.floor, Min(c.hostless, depth))
  }

  function ShouldReturn(c: Calls, pc: Word): (Calls, bool)
    requires c.Inv()
  {
    var slot := TopMatch(c.stack, c.floor, Even(pc), |c.stack|);
    if slot == -1 then (c, false) else (CutTo(c, slot), true)
  }

  function CancelReturn(c: Calls, pc: Word, suspended: bool): Calls
    requires c.Inv()
  {
    if !suspended && |c.stack| > c.floor && c.stack[|c.stack| - 1] == Even(pc) then CutTo(c, |c.stack| - 1)
    else c
  }

  // ── The stack as an array ─────────────────────────────────────────

  class CallReturnStack {
    const slots: array<Word>
    var depth: nat
    var floor: nat
    var hostless: nat

    ghost predicate Valid()
      reads this
    {
      slots.Length == CALL_LIMIT && floor <= depth <= CALL_LIMIT && hostless <= depth
    }

    ghost function State(): (c: Calls)
      requires Valid()
      reads this, slots
      ensures c.Inv()
    {
      Calls(slots[..depth], floor, hostless)
    }

    constructor ()
      ensures Valid() && State() == Calls([], 0, 0) && fresh(slots)
    {
      slots := new Word[CALL_LIMIT](_ => 0);
      depth, floor, hostless := 0, 0, 0;
    }

    /** Drop `n` entries just above the floor. */
    method Evict(n: nat)
      requires Valid() && 0 < n <= hostless - floor
      modifies this, slots
      ensures Valid()
      ensures var c := old(State());
              State() == Calls(c.stack[..c.floor] + c.stack[c.floor + n..], c.floor, c.hostless - n)
    {
      var kept := depth - n;
      for i := floor to kept
        invariant forall k :: 0 <= k < floor ==> slots[k] == old(slots[k])
        invariant forall k :: floor <= k < i ==> slots[k] == old(slots[k + n])
        invariant forall k :: i <= k < CALL_LIMIT ==> slots[k] == old(slots[k])
        modifies slots
      {
        slots[i] := slots[i + n];
      }
      assert slots[..kept] == old(State()).stack[..floor] + old(State()).stack[floor + n..];
      depth := kept;
      hostless := hostless - n;
    }

    method Push(returnPc: Word) returns (ok: bool)
      requires Valid()
      modifies this, slots
      ensures Valid()
      ensures ok <==> PushReturn(old(State()), returnPc).Some?
      ensures ok ==> State() == PushReturn(old(State()), returnPc).value
    {
      hide PushReturn, Even;
      PushParts(State(), returnPc);
      if depth >= CALL_LIMIT && hostless > floor {
        Evict((hostless - floor + 1) / 2);
      }
      if depth >= CALL_LIMIT {
        return false;
      }
      Append(Even(returnPc));
      return true;
    }

    method Append(pc: Word)
      requires Valid() && depth < CALL_LIMIT
      modifies this`depth, slots
      ensures Valid() && State() == old(State()).(stack := old(State()).stack + [pc])
    {
      slots[depth] := pc;
      depth := depth + 1;
      assert slots[..depth] == old(slots[..depth]) + [pc];
    }

    method Matches(targetPc: Word) returns (found: bool)
      requires Valid()
      modifies this
      ensures Valid()
      ensures (State(), found) == ShouldReturn(old(State()), targetPc)
    {
      var pc := Even(targetPc);
      hide Even;
      ghost var before := State();
      var i := depth;
      while i != floor
        invariant floor <= i <= depth && State() == before
        invariant TopMatch(before.stack, floor, pc, depth) == TopMatch(before.stack, floor, pc, i)
        decreases i
      {
        var slot := i - 1;
        if slots[slot] == pc {
          assert before.stack[slot] == pc && TopMatch(before.stack, floor, pc, i) == slot;
          depth := slot;
          hostless := Min(hostless, depth);
          assert slots[..slot] == before.stack[..slot];
          return true;
        }
        i := slot;
      }
      return false;
    }

    method Cancel(returnPc: Word, suspended: bool)
      requires Valid()
      modifies this
      ensures Valid() && State() == CancelReturn(old(State()), returnPc, suspended)
    {
      if suspended {
        return;
      }
      if depth > floor && slots[depth - 1] == Even(returnPc) {
        assert slots[..depth - 1] == slots[..depth][..depth - 1];
        depth := depth - 1;
        hostless := Min(hostless, depth);
      }
    }

    /**
     `runtime_call_stack_restore`: refill from a snapshot, of any number of entries, under
     whatever floor; nothing has a host frame.
     */
    method Restore(entries: seq<Word>)
      requires slots.Length == CALL_LIMIT
      modifies this, slots
      ensures depth == hostless == Min(|entries|, CALL_LIMIT) && floor == old(floor)
      ensures slots[..depth] == entries[..depth] && slots[depth..] == old(slots[..])[depth..]
      ensures Valid() <==> floor <= Min(|entries|, CALL_LIMIT)
      ensures Valid() ==> State() == Calls(entries[..depth], old(floor), depth)
    {
      depth := Min(|entries|, CALL_LIMIT);
      for i := 0 to depth
        invariant slots[..i] == entries[..i] && slots[i..] == old(slots[..])[i..]
        modifies slots
      {
        slots[i] := entries[i];
      }
      hostless := depth;
    }
  }

  // ── What the operations mean ──────────────────────────────────────

  /** A match is the topmost equal entry at or above the floor; a miss means there is none. */
  lemma {:induction false} TopMatchExact(stack: seq<Word>, floor: nat, pc: Word, i: nat)
    requires floor <= i <= |stack|
    ensures var slot := TopMatch(stack, floor, pc, i);
            && (slot != -1 ==> stack[slot] == pc && forall k :: slot < k < i ==> stack[k] != pc)
            && (slot == -1 ==> forall k :: floor <= k < i ==> stack[k] != pc)
  {
    if i > floor && stack[i - 1] != pc {
      TopMatchExact(stack, floor, pc, i - 1);
    }
  }

  /**
   A push evicts only host-less entries above the floor and never one a host
   frame waits on; it aborts exactly when the stack is full and there is none.
   */
  lemma PushExact(c: Calls, pc: Word)
    requires c.Inv()
    ensures PushReturn(c, pc).None? <==> |c.stack| == 1024 && c.hostless <= c.floor
    ensures var n, run := Evicted(c), c.hostless - c.floor;
            if |c.stack| == 1024 && run > 0 then 2 * n == run || 2 * n == run + 1 else n == 0
    ensures var n := Evicted(c);
            && c.floor + n <= Max(c.floor, c.hostless)
            && (PushReturn(c, pc).Some? ==>
                  var d := PushReturn(c, pc).value;
                  && d.Inv() && d.floor == c.floor
                  && d.stack[..c.floor] == c.stack[..c.floor]
                  && d.stack[c.floor..] == c.stack[c.floor + n..] + [Even(pc)]
                  && d.stack[d.hostless..] == c.stack[c.hostless..] + [Even(pc)])
  {
    hide Even;
    var n := Evicted(c);
    var kept := c.stack[..c.floor] + c.stack[c.floor + n..];
    if |kept| < CALL_LIMIT {
      var d := PushReturn(c, pc).value;
      assert d.stack[c.floor..] == c.stack[c.floor + n..] + [Even(pc)];
      assert d.stack[d.hostless..] == c.stack[c.hostless..] + [Even(pc)];
    }
  }

  /** No operation touches an entry below the floor, nor the floor. */
  predicate KeepsBelow(c: Calls, d: Calls) {
    d.floor == c.floor && |d.stack| >= c.floor && |c.stack| >= c.floor && d.stack[..c.floor] == c.stack[..c.floor]
  }

  lemma OperationsKeepBelow(c: Calls, pc: Word, suspended: bool)
    requires c.Inv()
    ensures PushReturn(c, pc).Some? ==> PushReturn(c, pc).value.Inv() && KeepsBelow(c, PushReturn(c, pc).value)
    ensures ShouldReturn(c, pc).0.Inv() && KeepsBelow(c, ShouldReturn(c, pc).0)
    ensures CancelReturn(c, pc, suspended).Inv() && KeepsBelow(c, CancelReturn(c, pc, suspended))
  {
    PushExact(c, pc);
  }

  /** Every entry of the stack has bit 0 clear; every operation keeps it so. */
  predicate EvenEntries(stack: seq<Word>) { forall i :: 0 <= i < |stack| ==> IsEven(stack[i]) }

  lemma OperationsKeepEven(c: Calls, pc: Word, suspended: bool)
    requires c.Inv() && EvenEntries(c.stack)
    ensures PushReturn(c, pc).Some? ==> EvenEntries(PushReturn(c, pc).value.stack)
    ensures EvenEntries(ShouldReturn(c, pc).0.stack) && EvenEntries(CancelReturn(c, pc, suspended).stack)
  {
    hide Even, IsEven;
    EvenExact(pc, pc);
  }

  /** A return hits exactly if some entry at or above the floor is its instruction, bit 0 apart, and then cuts to the topmost. */
  lemma ReturnHits(c: Calls, pc: Word)
    requires c.Inv() && EvenEntries(c.stack)
    ensures var (d, hit) := ShouldReturn(c, pc);
            && (hit <==> exists k :: c.floor <= k < |c.stack| && SameInstruction(c.stack[k], pc))
            && (!hit ==> d == c)
            && (hit ==>
                  && |d.stack| < |c.stack| && d.stack == c.stack[..|d.stack|] && d.floor == c.floor <= |d.stack|
                  && d.hostless == Min(c.hostless, |d.stack|)
                  && SameInstruction(c.stack[|d.stack|], pc)
                  && forall k :: |d.stack| < k < |c.stack| ==> !SameInstruction(c.stack[k], pc))
  {
    hide Even, SameInstruction, IsEven;
    forall k | 0 <= k < |c.stack| ensures c.stack[k] == Even(pc) <==> SameInstruction(c.stack[k], pc) {
      EvenExact(c.stack[k], pc);
    }
    TopMatchExact(c.stack, c.floor, Even(pc), |c.stack|);
  }

  /** A cancellation drops the top entry exactly if it lies above the floor, is that instruction, and nothing is suspended. */
  lemma CancelExact(c: Calls, pc: Word, suspended: bool)
    requires c.Inv() && EvenEntries(c.stack)
    ensures CancelReturn(c, pc, suspended) == if !suspended && TopIs(c, pc) then CutTo(c, |c.stack| - 1) else c
  {
    hide Even, SameInstruction;
    if |c.stack| > 0 {
      EvenExact(c.stack[|c.stack| - 1], pc);
    }
  }

  /** There is an entry above the floor, and the topmost is that instruction. */
  predicate TopIs(c: Calls, pc: Word) { |c.stack| > c.floor && SameInstruction(c.stack[|c.stack| - 1], pc) }

  /**
   The matching return of a call that evicted nothing, in either instruction set, leaves the
   stack as the call found it.
   */
  lemma PushThenReturn(c: Calls, pc: Word, back: Word)
    requires c.Inv() && PushReturn(c, pc).Some? && Evicted(c) == 0 && SameInstruction(pc, back)
    ensures ShouldReturn(PushReturn(c, pc).value, back) == (c, true)
    ensures CancelReturn(PushReturn(c, pc).value, back, false) == c
  {
    hide Even, SameInstruction;
    EvenExact(pc, back);
    assert c.stack[..c.floor] + c.stack[c.floor..] == c.stack;
    assert (c.stack + [Even(pc)])[..|c.stack|] == c.stack;
  }
}
