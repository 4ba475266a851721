/**
 The SWI-return continuation ledger of runtime_arm.cpp: a 64-entry stack that
 drops its oldest entry when full, pushed at every SWI entry and popped and
 checked at every Supervisor-mode exception return.
 */
module SwiLedger {
  import opened Common

  const SWI_LIMIT := 64

  /** `RuntimeSwiContinuation`. */
  datatype Slot = Slot(continuation: Word, returnPc: Word)

  // ── Specification ─────────────────────────────────────────────────

  function Push(l: seq<Slot>, s: Slot): seq<Slot> {
    if |l| >= SWI_LIMIT then l[1..] + [s] else l + [s]
  }

  function Pop(l: seq<Slot>): seq<Slot> {
    if l == [] then l else l[..|l| - 1]
  }

  /** Where a Supervisor return that asks for `pc` lands. */
  function Target(l: seq<Slot>, pc: Word): Word {
    if l == [] || Even(pc) == Even(l[|l| - 1].continuation) then pc else Even(l[|l| - 1].continuation)
  }

  // ── The ledger as an array ────────────────────────────────────────

  class Ledger {
    const slots: array<Slot>
    var depth: nat

    ghost predicate Valid()
      reads this
    {
      slots.Length == SWI_LIMIT && depth <= SWI_LIMIT
    }

    ghost function Contents(): (l: seq<Slot>)
      requires Valid()
      reads this, slots
      ensures |l| <= SWI_LIMIT
    {
      slots[..depth]
    }

    constructor ()
      ensures Valid() && Contents() == [] && fresh(slots)
    {
      slots := new Slot[SWI_LIMIT](_ => Slot(0, 0));
      depth := 0;
    }

    method Enter(s: Slot)
      requires Valid()
      modifies this`depth, slots
      ensures Valid() && Contents() == Push(old(Contents()), s)
    {
      if depth >= SWI_LIMIT {
        for i := 0 to SWI_LIMIT - 1
          invariant forall k :: 0 <= k < i ==> slots[k] == old(slots[k + 1])
          invariant forall k :: i <= k < SWI_LIMIT ==> slots[k] == old(slots[k])
          modifies slots
        {
          slots[i] := slots[i + 1];
        }
        depth := depth - 1;
      }
      slots[depth] := s;
      depth := depth + 1;
    }

    method Leave(newPc: Word) returns (pc: Word, overridden: bool)
      requires Valid()
      modifies this`depth
      ensures Valid() && Contents() == Pop(old(Contents()))
      ensures pc == Target(old(Contents()), newPc)
      ensures overridden <==> pc != newPc
    {
      if depth == 0 {
        return newPc, false;
      }
      depth := depth - 1;
      var slot := slots[depth];
      if Even(newPc) == Even(slot.continuation) {
        return newPc, false;
      }
      EvenIdempotent(slot.continuation);
      return Even(slot.continuation), true;
    }

    /** `runtime_restore_swi_context`; false is the throw. */
    method Restore(from: seq<Slot>) returns (ok: bool)
      requires Valid()
      modifies this`depth, slots
      ensures Valid() && (ok <==> |from| <= SWI_LIMIT)
      ensures Contents() == if ok then from else old(Contents())
    {
      if |from| > SWI_LIMIT {
        return false;
      }
      for i := 0 to |from|
        invariant slots[..i] == from[..i]
      {
        slots[i] := from[i];
      }
      depth := |from|;
      ok := true;
    }
  }

  // ── Against the unbounded stack ───────────────────────────────────

  datatype Event = Entered(slot: Slot) | Left(pc: Word)

  function Bounded(l: seq<Slot>, events: seq<Event>): seq<Slot>
    decreases |events|
  {
    if events == [] then l
    else Bounded(match events[0] case Entered(s) => Push(l, s) case Left(_) => Pop(l), events[1..])
  }

  /** The same events on a stack that never drops anything. */
  function Ideal(l: seq<Slot>, events: seq<Event>): seq<Slot>
    decreases |events|
  {
    if events == [] then l
    else Ideal(match events[0] case Entered(s) => l + [s] case Left(_) => Pop(l), events[1..])
  }

  predicate Suffix(l: seq<Slot>, whole: seq<Slot>) {
    |l| <= |whole| && l == whole[|whole| - |l|..]
  }

  /**
   After any events, balanced or not, the ledger is a top-aligned suffix of the
   unbounded stack; so an entry it still holds sends a return where the
   unbounded stack would.
   */
  lemma {:induction false} LedgerIsSuffix(l: seq<Slot>, whole: seq<Slot>, events: seq<Event>)
    requires Suffix(l, whole) && |l| <= SWI_LIMIT
    ensures Suffix(Bounded(l, events), Ideal(whole, events)) && |Bounded(l, events)| <= SWI_LIMIT
    ensures Bounded(l, events) != [] ==>
              forall pc :: Target(Bounded(l, events), pc) == Target(Ideal(whole, events), pc)
    decreases |events|
  {
    if events != [] {
      var l', whole' := match events[0] case Entered(s) => Push(l, s) case Left(_) => Pop(l),
                        match events[0] case Entered(s) => whole + [s] case Left(_) => Pop(whole);
      LedgerIsSuffix(l', whole', events[1..]);
    }
  }

  // ── Balanced scripts ──────────────────────────────────────────────

  /** One SWI: its recorded continuation, the SWIs nested in it, and the PC its epilogue asks for. */
  datatype Call = Call(slot: Slot, body: seq<Call>, wanted: Word)

  /** How deeply the calls of a script nest. */
  function Depth(calls: seq<Call>): nat {
    if calls == [] then 0
    else Max(1 + Depth(calls[0].body), Depth(calls[1..]))
  }

  /** The ledger after the calls of a script have run in order. */
  function After(l: seq<Slot>, calls: seq<Call>): seq<Slot>
    decreases calls
  {
    if calls == [] then l
    else After(Pop(After(Push(l, calls[0].slot), calls[0].body)), calls[1..])
  }

  /** Where the returns of the script land, innermost first. */
  function Lands(l: seq<Slot>, calls: seq<Call>): seq<Word>
    decreases calls
  {
    if calls == [] then []
    else
      var pushed := Push(l, calls[0].slot);
      var inner := After(pushed, calls[0].body);
      Lands(pushed, calls[0].body) + [Target(inner, calls[0].wanted)] + Lands(Pop(inner), calls[1..])
  }

  /** The continuation a return should land on, modulo the Thumb bit. */
  function Own(c: Call): Word {
    if Even(c.wanted) == Even(c.slot.continuation) then c.wanted else Even(c.slot.continuation)
  }

  /** Where each return of the script lands: home, unless 64 SWIs were nested inside it. */
  function Landings(calls: seq<Call>): seq<Word> {
    if calls == [] then []
    else
      Landings(calls[0].body) +
      [if Depth(calls[0].body) < SWI_LIMIT then Own(calls[0]) else calls[0].wanted] +
      Landings(calls[1..])
  }

  /** The newest `n` entries of `l`. */
  function Newest(l: seq<Slot>, n: int): seq<Slot> {
    l[|l| - Min(|l|, Max(0, n))..]
  }

  lemma NewestOfPush(l: seq<Slot>, s: Slot, d: nat)
    requires |l| <= SWI_LIMIT
    ensures var inner := Newest(Push(l, s), SWI_LIMIT - d);
            && (d < SWI_LIMIT ==> inner != [] && inner[|inner| - 1] == s)
            && (d >= SWI_LIMIT ==> inner == [])
            && Pop(inner) == Newest(l, SWI_LIMIT - (1 + d))
  {
  }

  lemma NewestTwice(l: seq<Slot>, a: int, b: int)
    ensures Newest(Newest(l, a), b) == Newest(l, Min(a, b))
  {
  }

  lemma LandingOf(l: seq<Slot>, c: Call, d: nat)
    requires |l| <= SWI_LIMIT
    ensures Target(Newest(Push(l, c.slot), SWI_LIMIT - d), c.wanted) == if d < SWI_LIMIT then Own(c) else c.wanted
  {
    NewestOfPush(l, c.slot, d);
  }

  lemma NewestOfCall(l: seq<Slot>, s: Slot, d: nat, others: nat)
    requires |l| <= SWI_LIMIT
    ensures var rest := Pop(Newest(Push(l, s), SWI_LIMIT - d));
            && |rest| <= SWI_LIMIT
            && Newest(rest, SWI_LIMIT - others) == Newest(l, SWI_LIMIT - Max(1 + d, others))
  {
    NewestOfPush(l, s, d);
    NewestTwice(l, SWI_LIMIT - (1 + d), SWI_LIMIT - others);
  }

  lemma PushBound(l: seq<Slot>, s: Slot)
    requires |l| <= SWI_LIMIT
    ensures |Push(l, s)| <= SWI_LIMIT
  {
  }

  lemma NewestAll(l: seq<Slot>)
    requires |l| <= SWI_LIMIT
    ensures Newest(l, SWI_LIMIT) == l
  {
  }

  /** A balanced script nested d deep leaves exactly the newest 64 - d entries it found. */
  lemma {:induction false} BalancedLedger(l: seq<Slot>, calls: seq<Call>)
    requires |l| <= SWI_LIMIT
    ensures After(l, calls) == Newest(l, 64 - Depth(calls))
    decreases calls
  {
    hide Push, Newest;
    NewestAll(l);
    if calls != [] {
      var c := calls[0];
      PushBound(l, calls[0].slot);
      NewestOfCall(l, c.slot, Depth(c.body), Depth(calls[1..]));
      BalancedLedger(Push(l, c.slot), c.body);
      BalancedLedger(Pop(After(Push(l, c.slot), c.body)), calls[1..]);
    }
  }

  lemma CallLands(l: seq<Slot>, c: Call)
    requires |l| <= SWI_LIMIT
    ensures var inner := After(Push(l, c.slot), c.body);
            && |Pop(inner)| <= SWI_LIMIT
            && Target(inner, c.wanted) == if Depth(c.body) < SWI_LIMIT then Own(c) else c.wanted
  {
    BalancedLedger(Push(l, c.slot), c.body);
    LandingOf(l, c, Depth(c.body));
  }

  /** Every return of a balanced script lands where `Landings` says, from every starting ledger. */
  lemma {:induction false} BalancedRun(l: seq<Slot>, calls: seq<Call>)
    requires |l| <= SWI_LIMIT
    ensures Lands(l, calls) == Landings(calls)
    decreases calls
  {
    if calls != [] {
      var pushed := Push(l, calls[0].slot);
      CallLands(l, calls[0]);
      BalancedRun(pushed, calls[0].body);
      BalancedRun(Pop(After(pushed, calls[0].body)), calls[1..]);
    }
  }

  /** The recorded continuations of a script, in the order of its returns. */
  function Continuations(calls: seq<Call>): seq<Word> {
    if calls == [] then []
    else Continuations(calls[0].body) + [calls[0].slot.continuation] + Continuations(calls[1..])
  }

  /** The PCs the epilogues of a script ask for, in the same order. */
  function Asked(calls: seq<Call>): seq<Word> {
    if calls == [] then []
    else Asked(calls[0].body) + [calls[0].wanted] + Asked(calls[1..])
  }

  /** Word by word the same but for the Thumb bit. */
  predicate SameInstructions(a: seq<Word>, b: seq<Word>) {
    |a| == |b| && forall k :: 0 <= k < |a| ==> SameInstruction(a[k], b[k])
  }

  lemma {:induction false} LandingsHome(calls: seq<Call>)
    requires Depth(calls) <= SWI_LIMIT
    ensures SameInstructions(Landings(calls), Continuations(calls))
    decreases calls
  {
    hide Even, SameInstruction;
    if calls != [] {
      OwnIsHome(calls[0]);
      LandingsHome(calls[0].body);
      LandingsHome(calls[1..]);
    }
  }

  lemma OwnIsHome(c: Call)
    ensures SameInstruction(Own(c), c.slot.continuation)
    ensures SameInstruction(c.wanted, c.slot.continuation) ==> Own(c) == c.wanted
  {
    hide Even, SameInstruction;
    EvenIdempotent(c.slot.continuation);
    EvenExact(c.wanted, c.slot.continuation);
    EvenExact(Even(c.slot.continuation), c.slot.continuation);
  }

  /** A return that asks for its own continuation is not redirected, however deep the script. */
  predicate NotRedirected(landed: seq<Word>, asked: seq<Word>, home: seq<Word>) {
    |landed| == |asked| == |home| &&
    forall k :: 0 <= k < |landed| ==> SameInstruction(asked[k], home[k]) ==> landed[k] == asked[k]
  }

  lemma {:induction false} LegalReturns(calls: seq<Call>)
    ensures NotRedirected(Landings(calls), Asked(calls), Continuations(calls))
    decreases calls
  {
    hide Even, SameInstruction;
    if calls != [] {
      OwnIsHome(calls[0]);
      LegalReturns(calls[0].body);
      LegalReturns(calls[1..]);
    }
  }

  lemma ReturnTarget(l: seq<Slot>, slot: Slot, body: seq<Call>, wanted: Word)
    requires |l| <= SWI_LIMIT
    ensures Even(Target(After(Push(l, slot), body), wanted)) ==
            if Depth(body) < SWI_LIMIT then Even(slot.continuation) else Even(wanted)
  {
    var pushed := Push(l, slot);
    PushBound(l, slot);
    BalancedLedger(pushed, body);
    EvenIdempotent(slot.continuation);
    NewestOfPush(l, slot, Depth(body));
    hide Push, Newest, Even, After, Pop;
  }

  lemma OtherTarget(pc: Word)
    ensures Even(pc ^ 2) != Even(pc)
  {
  }

  ghost predicate AlwaysHome(slot: Slot, body: seq<Call>) {
    forall l, wanted | |l| <= SWI_LIMIT ::
      Even(Target(After(Push(l, slot), body), wanted)) == Even(slot.continuation)
  }

  /**
   A Supervisor return is sent home whatever PC the guest asks for, from every
   ledger, exactly when at most 63 SWIs are nested inside its own.
   */
  lemma ReturnsHome(slot: Slot, body: seq<Call>)
    ensures AlwaysHome(slot, body) <==> Depth([Call(slot, body, 0)]) <= 64
  {
    assert Depth([Call(slot, body, 0)]) == 1 + Depth(body);
    if Depth(body) < SWI_LIMIT {
      forall l, wanted | |l| <= SWI_LIMIT
        ensures Even(Target(After(Push(l, slot), body), wanted)) == Even(slot.continuation)
      {
        ReturnTarget(l, slot, body, wanted);
      }
    } else {
      var none: seq<Slot> := [];
      var other := slot.continuation ^ 2;
      ReturnTarget(none, slot, body, other);
      OtherTarget(slot.continuation);
    }
  }
}
