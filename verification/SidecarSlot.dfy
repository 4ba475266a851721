/**
 Replacing a slot's sidecar, mod_state.cpp: write a temporary file, park the old one as a
 backup, rename the temporary into place. Every step may be refused, and the program may stop
 between any two of them; a rename either happens or does not.
 */
module SidecarSlot {
  import opened Common
  import opened Sidecar

  type File = Option<seq<Byte>>

  /** The three files of one slot. */
  datatype Slot = Slot(primary: File, temporary: File, backup: File)

  function Answer(r: Status): Option<seq<Byte>> { if r.Ok? then Some(r.payload) else None }

  /** `read_mod_state_slot`: the backup answers for a missing or corrupt primary only. */
  function ReadSlot(s: Slot, identity: seq<Byte>): Option<seq<Byte>> {
    match Read(s.primary, identity)
    case Ok(payload) => Some(payload)
    case IdentityMismatch => None
    case Missing | Corrupt => Answer(Read(s.backup, identity))
  }

  /**
   What is read, of any slot: the primary if it is intact under this identity; the backup if it
   is and the primary is missing or corrupt; and nothing else.
   */
  lemma ReadSlotExact(s: Slot, identity: seq<Byte>, payload: seq<Byte>)
    requires Sizes(identity, payload)
    ensures ReadSlot(s, identity) == Some(payload) <==>
            || s.primary == Some(Envelope(identity, payload))
            || ((s.primary.None? || !Intact(s.primary.value)) && s.backup == Some(Envelope(identity, payload)))
  {
    ReadExact(s.primary, identity, payload);
    ReadExact(s.backup, identity, payload);
    hide Envelope, Intact, Get32;
  }

  /** A primary that is intact under another identity is not the slot's, and its backup is not tried. */
  lemma OtherIdentityRefused(s: Slot, identity: seq<Byte>, other: seq<Byte>, payload: seq<Byte>)
    requires Sizes(other, payload) && other != identity && s.primary == Some(Envelope(other, payload))
    ensures ReadSlot(s, identity) == None
  {
    OtherIdentity(other, identity, payload);
    hide Envelope, Read;
  }

  // ── One write after another, with refusals and crashes ────────────

  /** Where a write is: between two file operations. */
  datatype Phase = Idle | Opening | Flushing | Checking | Clearing | Parking | Committing | Committed

  datatype Outcome = Completed(payload: seq<Byte>) | Refused | Crashed(payload: seq<Byte>, committed: bool)

  datatype Machine = Machine(slot: Slot, phase: Phase, payload: seq<Byte>, log: seq<Outcome>)

  /**
   `Write`: `created` says the temporary was created, `written` how much of it reached the
   disk, `good` what the stream reported. `removed` says whether the clean-up removal after a
   refusal worked. `Crash` stops the program; inside the write it leaves a partial temporary.
   */
  datatype Action =
    | Begin(payload: seq<Byte>)
    | Write(created: bool, written: nat, good: bool)
    | Flush(done: bool, removed: bool)
    | Check(sees: bool)
    | Clear(removed: bool)
    | Park(done: bool, removed: bool)
    | Commit(done: bool)
    | Return
    | Crash(created: bool, written: nat)

  function Partial(s: Slot, file: seq<Byte>, created: bool, written: nat): Slot
    requires written <= |file|
  {
    if created then s.(temporary := Some(file[..written])) else s
  }

  function Dropped(s: Slot, removed: bool): Slot { if removed then s.(temporary := None) else s }

  function Refuse(m: Machine, s: Slot): Machine { m.(slot := s, phase := Idle, log := m.log + [Refused]) }

  predicate Enabled(m: Machine, identity: seq<Byte>, a: Action) {
    match a
    case Begin(_) => m.phase.Idle?
    case Write(created, written, good) =>
      m.phase.Opening? && written <= |Envelope(identity, m.payload)| && (good ==> created)
    case Flush(_, _) => m.phase.Flushing?
    case Check(sees) => m.phase.Checking? && (sees ==> m.slot.primary.Some?)
    case Clear(_) => m.phase.Clearing?
    case Park(_, _) => m.phase.Parking?
    case Commit(done) => m.phase.Committing? && (done ==> m.slot.temporary.Some?)
    case Return => m.phase.Committed?
    case Crash(_, written) => !m.phase.Idle? && (m.phase.Opening? ==> written <= |Envelope(identity, m.payload)|)
  }

  function Step(m: Machine, identity: seq<Byte>, a: Action): Machine {
    if !Enabled(m, identity, a) then m
    else
      var s := m.slot;
      match a
      case Begin(payload) =>
        if !Sizes(identity, payload) then Refuse(m, s) else m.(phase := Opening, payload := payload)
      case Write(created, written, good) =>
        var t := Partial(s, Envelope(identity, m.payload), created, written);
        if good then m.(slot := t, phase := Flushing) else Refuse(m, t)
      case Flush(done, removed) => if done then m.(phase := Checking) else Refuse(m, Dropped(s, removed))
      case Check(sees) => m.(phase := if sees then Clearing else Committing)
      case Clear(removed) => m.(slot := if removed then s.(backup := None) else s, phase := Parking)
      case Park(done, removed) =>
        if done then m.(slot := s.(backup := s.primary, primary := None), phase := Committing)
        else Refuse(m, Dropped(s, removed))
      case Commit(done) =>
        if done then m.(slot := s.(primary := s.temporary, temporary := None), phase := Committed)
        else Refuse(m, s)
      case Return => m.(phase := Idle, log := m.log + [Completed(m.payload)])
      case Crash(created, written) =>
        var t := if m.phase.Opening? then Partial(s, Envelope(identity, m.payload), created, written) else s;
        m.(slot := t, phase := Idle, log := m.log + [Crashed(m.payload, m.phase.Committed?)])
  }

  /** Any step may be refused and the program may stop at any point of a write, with any part of the temporary on disk. */
  lemma AnythingMayHappen(m: Machine, identity: seq<Byte>, written: nat, yes: bool, removed: bool)
    requires written <= |Envelope(identity, m.payload)|
    ensures !m.phase.Idle? ==> Enabled(m, identity, Crash(yes, written))
    ensures m.phase.Opening? ==> Enabled(m, identity, Write(true, written, yes)) && Enabled(m, identity, Write(yes, written, false))
    ensures m.phase.Flushing? ==> Enabled(m, identity, Flush(yes, removed))
    ensures m.phase.Checking? ==> Enabled(m, identity, Check(yes && m.slot.primary.Some?))
    ensures m.phase.Clearing? ==> Enabled(m, identity, Clear(removed))
    ensures m.phase.Parking? ==> Enabled(m, identity, Park(yes, removed))
    ensures m.phase.Committing? ==> Enabled(m, identity, Commit(yes && m.slot.temporary.Some?))
    ensures m.phase.Committed? ==> Enabled(m, identity, Return)
  {
    hide Envelope;
  }

  /**
   The three files under one step: the primary is replaced only by a rename of the temporary and
   set aside only as the backup; the backup is removed or replaced only by that; the temporary
   takes what was written of the envelope, and goes when it is renamed or cleaned up.
   */
  lemma FilesExact(m: Machine, identity: seq<Byte>, a: Action)
    requires Enabled(m, identity, a)
    ensures var s, t := m.slot, Step(m, identity, a).slot;
            && t.primary == (if a.Commit? && a.done then s.temporary else if a.Park? && a.done then None else s.primary)
            && t.backup == (if a.Clear? && a.removed then None else if a.Park? && a.done then s.primary else s.backup)
            && t.temporary ==
                 if (a.Write? || (a.Crash? && m.phase.Opening?)) && a.created then Some(Envelope(identity, m.payload)[..a.written])
                 else if (a.Flush? || a.Park?) && !a.done && a.removed then None
                 else if a.Commit? && a.done then None else s.temporary
  {
    hide Envelope;
  }

  /**
   The order of the steps, and what each attempt is logged as: refused at the first step that
   fails, completed at the return, and crashed as committed only after the last rename.
   */
  lemma PhasesExact(m: Machine, identity: seq<Byte>, a: Action)
    requires Enabled(m, identity, a)
    ensures var t := Step(m, identity, a);
            var fails := || (a.Begin? && !(|identity| <= 256 && |a.payload| <= 0x100_0000)) || (a.Write? && !a.good)
                         || ((a.Flush? || a.Park? || a.Commit?) && !a.done);
            && t.phase == (if fails || a.Return? || a.Crash? then Idle
                           else match m.phase
                                case Idle => Opening
                                case Opening => Flushing
                                case Flushing => Checking
                                case Checking => if a.sees then Clearing else Committing
                                case Clearing => Parking
                                case Parking => Committing
                                case Committing | Committed => Committed)
            && t.log == m.log + (if fails then [Refused] else if a.Return? then [Completed(m.payload)]
                                 else if a.Crash? then [Crashed(m.payload, m.phase.Committed?)] else [])
            && t.payload == if a.Begin? && !fails then a.payload else m.payload
  {
    hide Envelope;
    assert m.log + [] == m.log;
  }

  function Run(m: Machine, identity: seq<Byte>, actions: seq<Action>): Machine
    decreases |actions|
  {
    if actions == [] then m else Run(Step(m, identity, actions[0]), identity, actions[1..])
  }

  /** The payload of the last attempt in the log that took effect. */
  function LastEffect(log: seq<Outcome>, before: Option<seq<Byte>>): Option<seq<Byte>> {
    if log == [] then before
    else
      match log[|log| - 1]
      case Completed(payload) => Some(payload)
      case Crashed(payload, true) => Some(payload)
      case Crashed(_, false) | Refused => LastEffect(log[..|log| - 1], before)
  }

  /** What the slot holds: the last attempt that took effect, counting one that has just been renamed. */
  function Held(m: Machine, before: Option<seq<Byte>>): Option<seq<Byte>> {
    if m.phase.Committed? then Some(m.payload) else LastEffect(m.log, before)
  }

  /** A stream that reports success has put the whole file on disk. */
  predicate Truthful(m: Machine, identity: seq<Byte>, a: Action) {
    m.phase.Opening? && a.Write? && a.good ==> a.written == |Envelope(identity, m.payload)|
  }

  predicate TruthfulRun(m: Machine, identity: seq<Byte>, actions: seq<Action>)
    decreases |actions|
  {
    actions != [] ==>
      Truthful(m, identity, actions[0]) && TruthfulRun(Step(m, identity, actions[0]), identity, actions[1..])
  }

  /**
   Whether the temporary of the present attempt is whole on disk, and whether the file of the
   last attempt that took effect is.
   */
  datatype Tails = Tails(present: bool, held: bool)

  function TailStep(m: Machine, identity: seq<Byte>, a: Action, t: Tails): Tails {
    if !Enabled(m, identity, a) then t
    else if a.Write? && a.good then t.(present := a.written == |Envelope(identity, m.payload)|)
    else if a.Commit? && a.done then t.(held := t.present)
    else t
  }

  function TailRun(m: Machine, identity: seq<Byte>, actions: seq<Action>, t: Tails): Tails
    decreases |actions|
  {
    if actions == [] then t
    else TailRun(Step(m, identity, actions[0]), identity, actions[1..], TailStep(m, identity, actions[0], t))
  }

  predicate HoldsFile(f: File, identity: seq<Byte>, payload: seq<Byte>) {
    Sizes(identity, payload) && f == Some(Envelope(identity, payload))
  }

  /** The file, or when it is not `whole` the beginning of it only. */
  predicate HoldsTail(f: File, identity: seq<Byte>, payload: seq<Byte>, whole: bool) {
    && Sizes(identity, payload) && f.Some? && f.value <= Envelope(identity, payload)
    && (whole <==> f.value == Envelope(identity, payload))
  }

  /** The committed file is the primary, or the backup of a missing primary. */
  ghost predicate SafeTail(s: Slot, identity: seq<Byte>, held: Option<seq<Byte>>, whole: bool) {
    held.Some? ==>
      || HoldsTail(s.primary, identity, held.value, whole)
      || (s.primary == None && HoldsTail(s.backup, identity, held.value, whole))
  }

  /** The same for whole files; nothing is held in a slot without a primary. */
  ghost predicate Safe(s: Slot, identity: seq<Byte>, held: Option<seq<Byte>>) {
    match held
    case None => s.primary == None
    case Some(p) => HoldsFile(s.primary, identity, p) || (s.primary == None && HoldsFile(s.backup, identity, p))
  }

  lemma SafeWhole(s: Slot, identity: seq<Byte>, held: Option<seq<Byte>>)
    requires held.Some?
    ensures SafeTail(s, identity, held, true) <==> Safe(s, identity, held)
  {
    hide Envelope;
  }

  ghost predicate Inv(m: Machine, identity: seq<Byte>, before: Option<seq<Byte>>, t: Tails) {
    && SafeTail(m.slot, identity, Held(m, before), t.held)
    && (!m.phase.Idle? ==> Sizes(identity, m.payload))
    && (m.phase.Clearing? || m.phase.Parking? ==> m.slot.primary.Some?)
    && (m.phase.Flushing? || m.phase.Checking? || m.phase.Clearing? || m.phase.Parking? || m.phase.Committing? ==>
          HoldsTail(m.slot.temporary, identity, m.payload, t.present))
  }

  lemma LogSnoc(log: seq<Outcome>, o: Outcome, before: Option<seq<Byte>>)
    ensures LastEffect(log + [o], before) ==
            match o {
              case Completed(payload) => Some(payload)
              case Crashed(payload, true) => Some(payload)
              case Crashed(_, false) | Refused => LastEffect(log, before)
            }
  {
    assert (log + [o])[..|log|] == log;
  }

  lemma StepKeeps(m: Machine, identity: seq<Byte>, before: Option<seq<Byte>>, a: Action, t: Tails)
    requires Inv(m, identity, before, t)
    ensures Inv(Step(m, identity, a), identity, before, TailStep(m, identity, a, t))
  {
    hide Envelope, LastEffect;
    if a.Write? && Enabled(m, identity, a) {
      TakeWhole(Envelope(identity, m.payload), a.written);
    }
    LogSnoc(m.log, Refused, before);
    LogSnoc(m.log, Completed(m.payload), before);
    LogSnoc(m.log, Crashed(m.payload, m.phase.Committed?), before);
  }

  lemma TakeWhole(f: seq<Byte>, n: nat)
    requires n <= |f|
    ensures f[..n] <= f && (f[..n] == f <==> n == |f|)
  {
  }

  lemma {:induction false} RunKeeps(m: Machine, identity: seq<Byte>, before: Option<seq<Byte>>,
                                    actions: seq<Action>, t: Tails)
    requires Inv(m, identity, before, t)
    ensures Inv(Run(m, identity, actions), identity, before, TailRun(m, identity, actions, t))
    decreases |actions|
  {
    hide Inv, Step, TailStep;
    if actions != [] {
      StepKeeps(m, identity, before, actions[0], t);
      RunKeeps(Step(m, identity, actions[0]), identity, before, actions[1..], TailStep(m, identity, actions[0], t));
    }
  }

  lemma {:induction false} TruthfulIsWhole(m: Machine, identity: seq<Byte>, actions: seq<Action>, t: Tails)
    requires TruthfulRun(m, identity, actions) && t.present && t.held
    ensures TailRun(m, identity, actions, t) == Tails(true, true)
    decreases |actions|
  {
    hide Step, Envelope;
    if actions != [] {
      TruthfulIsWhole(Step(m, identity, actions[0]), identity, actions[1..], TailStep(m, identity, actions[0], t));
    }
  }

  lemma SafeReads(s: Slot, identity: seq<Byte>, p: seq<Byte>)
    requires Safe(s, identity, Some(p))
    ensures ReadSlot(s, identity) == Some(p)
  {
    hide Envelope, Read;
    ReadExact(s.primary, identity, p);
    ReadExact(s.backup, identity, p);
    MissingReads(identity);
  }

  lemma MissingReads(identity: seq<Byte>)
    ensures Read(None, identity) == Missing
  {
  }

  lemma TailReads(s: Slot, identity: seq<Byte>, p: seq<Byte>, whole: bool)
    requires SafeTail(s, identity, Some(p), whole)
    ensures ReadSlot(s, identity) == if whole then Some(p) else if s.primary.Some? then Answer(Read(s.backup, identity)) else None
    ensures ReadSlot(s, identity) == Some(p) <==> whole || (s.primary.Some? && HoldsFile(s.backup, identity, p))
  {
    hide Envelope, Read;
    if whole {
      SafeWhole(s, identity, Some(p));
      SafeReads(s, identity, p);
    } else {
      MissingReads(identity);
      var f := if s.primary.Some? then s.primary.value else s.backup.value;
      ShortIsCorrupt(f, identity, p);
      ReadExact(s.backup, identity, p);
    }
  }

  lemma ShortIsCorrupt(f: seq<Byte>, identity: seq<Byte>, p: seq<Byte>)
    requires HoldsTail(Some(f), identity, p, false)
    ensures Read(Some(f), identity) == Corrupt
  {
    EnvelopeIsIntact(identity, p);
    var whole := Envelope(identity, p);
    hide Envelope, Read, Intact;
    assert f == whole[..|f|];
    TruncationCorrupts(whole, |f|, identity);
  }

  lemma NothingHeldReads(s: Slot, identity: seq<Byte>)
    requires s.primary == None
    ensures ReadSlot(s, identity) == Answer(Read(s.backup, identity))
  {
    hide Read;
    MissingReads(identity);
  }

  /** Until a write takes effect an absent primary stays absent. */
  ghost predicate StillAbsent(m: Machine, before: Option<seq<Byte>>) {
    (Held(m, before).None? ==> m.slot.primary == None) && (m.phase.Clearing? || m.phase.Parking? ==> m.slot.primary.Some?)
  }

  lemma StepKeepsAbsent(m: Machine, identity: seq<Byte>, before: Option<seq<Byte>>, a: Action)
    requires StillAbsent(m, before)
    ensures StillAbsent(Step(m, identity, a), before)
  {
    hide Envelope, LastEffect;
    LogSnoc(m.log, Refused, before);
    LogSnoc(m.log, Completed(m.payload), before);
    LogSnoc(m.log, Crashed(m.payload, m.phase.Committed?), before);
  }

  lemma {:induction false} RunKeepsAbsent(m: Machine, identity: seq<Byte>, before: Option<seq<Byte>>, actions: seq<Action>)
    requires StillAbsent(m, before)
    ensures StillAbsent(Run(m, identity, actions), before)
    decreases |actions|
  {
    hide StillAbsent, Step;
    if actions != [] {
      StepKeepsAbsent(m, identity, before, actions[0]);
      RunKeepsAbsent(Step(m, identity, actions[0]), identity, before, actions[1..]);
    }
  }

  /**
   From any slot, valid, absent or corrupt, through any number of writes that are refused or
   interrupted anywhere, and whatever part of a file a stream that reports success has put on
   disk, at any moment: a read gives the payload of the last write that took effect exactly if
   that write's file is whole or a whole file of the same payload is its backup. If it is
   short, the backup of a present primary answers; and if none took effect on an absent slot,
   only the backup can.
   */
  lemma CrashSafeExact(slot: Slot, identity: seq<Byte>, before: Option<seq<Byte>>, actions: seq<Action>)
    requires before.Some? ==> Safe(slot, identity, before)
    ensures var start := Machine(slot, Idle, [], []);
            var m := Run(start, identity, actions);
            var whole := TailRun(start, identity, actions, Tails(true, true)).held;
            match Held(m, before) {
              case None =>
                slot.primary == None ==>
                  m.slot.primary == None && ReadSlot(m.slot, identity) == Answer(Read(m.slot.backup, identity))
              case Some(p) =>
                && (ReadSlot(m.slot, identity) == Some(p) <==>
                      whole || (m.slot.primary.Some? && HoldsFile(m.slot.backup, identity, p)))
                && (!whole ==> ReadSlot(m.slot, identity) ==
                                 if m.slot.primary.Some? then Answer(Read(m.slot.backup, identity)) else None)
            }
  {
    var start := Machine(slot, Idle, [], []);
    var t := Tails(true, true);
    if before.Some? {
      SafeWhole(slot, identity, before);
    }
    RunKeeps(start, identity, before, actions, t);
    if slot.primary == None {
      RunKeepsAbsent(start, identity, before, actions);
    }
    var m := Run(start, identity, actions);
    hide Read, Envelope, Run, TailRun, SafeTail, HoldsTail, ReadSlot;
    match Held(m, before) {
      case None =>
        if slot.primary == None {
          NothingHeldReads(m.slot, identity);
        }
      case Some(p) => TailReads(m.slot, identity, p, TailRun(start, identity, actions, t).held);
    }
  }

  /**
   So with streams that report truthfully, a read gives the payload of the last write that
   took effect: the last one that completed, or a later one that was interrupted after its
   rename.
   */
  lemma CrashSafe(slot: Slot, identity: seq<Byte>, before: Option<seq<Byte>>, actions: seq<Action>)
    requires before.Some? ==> Safe(slot, identity, before)
    requires TruthfulRun(Machine(slot, Idle, [], []), identity, actions)
    ensures var m := Run(Machine(slot, Idle, [], []), identity, actions);
            Held(m, before).Some? ==> ReadSlot(m.slot, identity) == Held(m, before)
  {
    hide *;
    CrashSafeExact(slot, identity, before, actions);
    TruthfulIsWhole(Machine(slot, Idle, [], []), identity, actions, Tails(true, true));
  }

  /** Once a write has completed there is always something to read: it, or what a later crash left committed. */
  lemma {:induction false} CompletedIsHeld(log: seq<Outcome>, before: Option<seq<Byte>>, k: nat)
    requires k < |log| && log[k].Completed?
    ensures LastEffect(log, before).Some?
    ensures (forall j :: k < j < |log| ==> log[j].Refused? || (log[j].Crashed? && !log[j].committed)) ==>
              LastEffect(log, before) == Some(log[k].payload)
  {
    var n := |log| - 1;
    if k < n {
      CompletedIsHeld(log[..n], before, k);
    }
  }

  // ── A stream that loses its tail ──────────────────────────────────

  /**
   One write in which every step reports success, `written` bytes having reached the disk;
   `sees` is whether `exists` reports a present primary.
   */
  function Answering(s: Slot, payload: seq<Byte>, written: nat, sees: bool): seq<Action> {
    [Begin(payload), Write(true, written, true), Flush(true, true), Check(sees && s.primary.Some?)] +
    (if sees && s.primary.Some? then [Clear(true), Park(true, true)] else []) + [Commit(true), Return]
  }

  /** The file kept as the backup by a write that answers true. */
  function Kept(s: Slot, sees: bool): File { if sees && s.primary.Some? then s.primary else s.backup }

  /** The slot after a write that answers true. */
  function Answered(s: Slot, identity: seq<Byte>, payload: seq<Byte>, written: nat, sees: bool): Slot
    requires written <= |Envelope(identity, payload)|
  {
    Slot(Some(Envelope(identity, payload)[..written]), None, Kept(s, sees))
  }

  lemma AnsweringRun(s: Slot, identity: seq<Byte>, payload: seq<Byte>, written: nat, sees: bool, log: seq<Outcome>)
    requires Sizes(identity, payload) && written <= |Envelope(identity, payload)|
    ensures Run(Machine(s, Idle, [], log), identity, Answering(s, payload, written, sees)) ==
            Machine(Answered(s, identity, payload, written, sees), Idle, payload, log + [Completed(payload)])
  {
    hide Envelope;
    var m0 := Machine(s, Idle, [], log);
    var actions := Answering(s, payload, written, sees);
    RunFour(m0, identity, actions);
    var t := s.(temporary := Some(Envelope(identity, payload)[..written]));
    if sees && s.primary.Some? {
      var m1 := Machine(t, Clearing, payload, log);
      assert actions[4..] == [Clear(true), Park(true, true), Commit(true), Return];
      RunFour(m1, identity, actions[4..]);
    } else {
      var m1 := Machine(t, Committing, payload, log);
      assert actions[4..] == [Commit(true), Return];
      assert Run(m1, identity, actions[4..]) == Step(Step(m1, identity, Commit(true)), identity, Return) by {
        RunTwo(m1, identity, actions[4..]);
      }
    }
  }

  lemma RunTwo(m: Machine, identity: seq<Byte>, a: seq<Action>)
    requires |a| >= 2
    ensures Run(m, identity, a) == Run(Step(Step(m, identity, a[0]), identity, a[1]), identity, a[2..])
    ensures |a| == 2 ==> Run(m, identity, a) == Step(Step(m, identity, a[0]), identity, a[1])
  {
    hide Step;
    assert a[1..][1..] == a[2..];
  }

  lemma RunFour(m: Machine, identity: seq<Byte>, a: seq<Action>)
    requires |a| >= 4
    ensures var n := Step(Step(Step(Step(m, identity, a[0]), identity, a[1]), identity, a[2]), identity, a[3]);
            Run(m, identity, a) == Run(n, identity, a[4..]) && (|a| == 4 ==> Run(m, identity, a) == n)
  {
    hide Step, Run;
    RunTwo(m, identity, a);
    RunTwo(Step(Step(m, identity, a[0]), identity, a[1]), identity, a[2..]);
    assert a[2..][2..] == a[4..];
  }

  /**
   The stream's state is tested before its closing flush, so a write can answer true with part
   of the file missing, into any slot. The new payload is then read exactly if nothing was
   lost, or the file kept as the backup is the same; otherwise that file answers. For a slot
   holding `held`, or nothing, a `true` of a short write whose primary was seen leaves what was
   read before: the payload held, or with nothing held the stale backup's, if any.
   */
  lemma LostTailExact(s: Slot, identity: seq<Byte>, held: Option<seq<Byte>>, payload: seq<Byte>, written: nat, sees: bool)
    requires Sizes(identity, payload) && written <= |Envelope(identity, payload)|
    ensures var m := Run(Machine(s, Idle, [], []), identity, Answering(s, payload, written, sees));
            var now := ReadSlot(m.slot, identity);
            var full := written == |Envelope(identity, payload)|;
            && m.log == [Completed(payload)] && m.slot == Answered(s, identity, payload, written, sees)
            && now == (if full then Some(payload) else Answer(Read(Kept(s, sees), identity)))
            && (now == Some(payload) <==> full || HoldsFile(Kept(s, sees), identity, payload))
            && (Safe(s, identity, held) && (sees || s.primary.None?) && !full ==> now == ReadSlot(s, identity))
            && (Safe(s, identity, held) && (sees || s.primary.None?) && held.Some? ==>
                  now == (if full then Some(payload) else held) && (now == Some(payload) <==> full || held == Some(payload)))
  {
    var f := Envelope(identity, payload);
    var t := Answered(s, identity, payload, written, sees);
    AnsweringRun(s, identity, payload, written, sees, []);
    hide Envelope, Read, Run, ReadSlot, Answering;
    TakeWhole(f, written);
    TailReads(t, identity, payload, written == |f|);
    if Safe(s, identity, held) && (sees || s.primary.None?) {
      ReadKept(s, identity, held);
    }
  }

  lemma ReadKept(s: Slot, identity: seq<Byte>, held: Option<seq<Byte>>)
    requires Safe(s, identity, held)
    ensures ReadSlot(s, identity) == Answer(Read(Kept(s, true), identity))
    ensures held.Some? ==> ReadSlot(s, identity) == held
  {
    hide Envelope, Read;
    MissingReads(identity);
    if held.Some? {
      ReadExact(s.primary, identity, held.value);
      ReadExact(s.backup, identity, held.value);
    }
  }

  /** A write of `q` interrupted once the old backup is gone. */
  function CrashAfterClear(q: seq<Byte>, size: nat): seq<Action> {
    [Begin(q), Write(true, size, true), Flush(true, true), Check(true), Clear(true), Crash(false, 0)]
  }

  lemma ClearedRun(s: Slot, identity: seq<Byte>, p: seq<Byte>, q: seq<Byte>)
    requires Sizes(identity, q) && s.primary.Some?
    ensures var m := Run(Machine(s, Idle, p, [Completed(p)]), identity, CrashAfterClear(q, |Envelope(identity, q)|));
            m.slot.primary == s.primary && m.slot.backup == None && m.log == [Completed(p), Crashed(q, false)]
  {
    hide Envelope;
    var m0 := Machine(s, Idle, p, [Completed(p)]);
    var next := CrashAfterClear(q, |Envelope(identity, q)|);
    var full := Envelope(identity, q)[..|Envelope(identity, q)|];
    RunFour(m0, identity, next);
    assert next[4..] == [Clear(true), Crash(false, 0)];
    RunTwo(Machine(s.(temporary := Some(full)), Clearing, q, [Completed(p)]), identity, next[4..]);
  }

  lemma EmptyIsCorrupt(identity: seq<Byte>)
    ensures Read(Some([]), identity) == Corrupt && Read(None, identity) == Missing
  {
  }

  /** After such a write the next one may be interrupted with nothing left to read. */
  lemma LostTailThenCrash(s: Slot, identity: seq<Byte>, p: seq<Byte>, q: seq<Byte>)
    requires Sizes(identity, p) && Sizes(identity, q)
    ensures var lost := Answered(s, identity, p, 0, true);
            var next := CrashAfterClear(q, |Envelope(identity, q)|);
            var m := Run(Machine(lost, Idle, p, [Completed(p)]), identity, next);
            LastEffect(m.log, None) == Some(p) && ReadSlot(m.slot, identity) == None
  {
    var lost := Answered(s, identity, p, 0, true);
    ClearedRun(lost, identity, p, q);
    EmptyIsCorrupt(identity);
    hide Envelope, Read, Run;
    LogSnoc([Completed(p)], Crashed(q, false), None);
    LogSnoc([], Completed(p), None);
    assert [Completed(p)] + [Crashed(q, false)] == [Completed(p), Crashed(q, false)];
    assert [] + [Completed(p)] == [Completed(p)];
  }

  // ── The write as it runs ──────────────────────────────────────────

  /** Which file operations of one write work, and how much of the temporary is written. */
  datatype Faults = Faults(created: bool, written: nat, good: bool, flushed: bool, dropped: bool, sees: bool,
                           cleared: bool, parked: bool, committed: bool)

  class Disk {
    var primary: File
    var temporary: File
    var backup: File

    ghost function Files(): Slot
      reads this
    {
      Slot(primary, temporary, backup)
    }

    method WriteTemporary(bytes: seq<Byte>, f: Faults) returns (good: bool)
      requires f.written <= |bytes|
      modifies this`temporary
      ensures temporary == if f.created then Some(bytes[..f.written]) else old(temporary)
      ensures good == (f.created && f.good)
    {
      if f.created {
        temporary := Some(bytes[..f.written]);
      }
      good := f.created && f.good;
    }

    method DropTemporary(f: Faults)
      modifies this`temporary
      ensures temporary == if f.dropped then None else old(temporary)
    {
      if f.dropped {
        temporary := None;
      }
    }

    /** Move a visible primary out of the way. */
    method ParkPrimary(f: Faults) returns (ok: bool)
      modifies this`primary, this`temporary, this`backup
      ensures ok == (f.sees && old(primary).Some? ==> f.parked)
      ensures f.sees && old(primary).Some? && f.parked ==>
                primary == None && backup == old(primary) && temporary == old(temporary)
      ensures !(f.sees && old(primary).Some?) ==> Files() == old(Files())
      ensures !ok ==> primary == old(primary)
    {
      if !(primary.Some? && f.sees) {
        return true;
      }
      if f.cleared {
        backup := None;
      }
      if !f.parked {
        DropTemporary(f);
        return false;
      }
      backup := primary;
      primary := None;
      ok := true;
    }

    /**
     `write_mod_state_slot`, uninterrupted. When it answers false, what is read is what was
     before; when it answers true, the new payload exactly if the whole file reached the disk
     or the file now kept as the backup is the same.
     */
    method WriteSlot(identity: seq<Byte>, payload: seq<Byte>, f: Faults, ghost held: Option<seq<Byte>>) returns (ok: bool)
      requires held.Some? ==> Safe(Files(), identity, held)
      requires f.written <= |Envelope(identity, payload)|
      modifies this
      ensures ok ==> Files() == Answered(old(Files()), identity, payload, f.written, f.sees)
      ensures ok ==> (ReadSlot(Files(), identity) == Some(payload) <==>
                        f.written == |Envelope(identity, payload)| ||
                        HoldsFile(Kept(old(Files()), f.sees), identity, payload))
      ensures ok && f.written == |Envelope(identity, payload)| ==> Safe(Files(), identity, Some(payload))
      ensures !ok && held.Some? ==> Safe(Files(), identity, held) && ReadSlot(Files(), identity) == held
      ensures !ok && old(primary) == None ==> primary == None && backup == old(backup)
      ensures ok == (Sizes(identity, payload) && f.created && f.good && f.flushed &&
                     (f.sees && old(primary).Some? ==> f.parked) && f.committed)
    {
      hide Envelope, Read;
      if held.Some? {
        SafeReads(Files(), identity, held.value);
      }
      if |identity| > MAX_IDENTITY || |payload| > MAX_PAYLOAD {
        return false;
      }
      var bytes := BuildFile(identity, payload);
      var good := WriteTemporary(bytes, f);
      if !good {
        assert held.Some? ==> Safe(Files(), identity, held);
        if held.Some? {
          SafeReads(Files(), identity, held.value);
        }
        return false;
      }
      TakeWhole(bytes, f.written);
      if !f.flushed {
        DropTemporary(f);
        assert held.Some? ==> Safe(Files(), identity, held);
        if held.Some? {
          SafeReads(Files(), identity, held.value);
        }
        return false;
      }
      var parked := ParkPrimary(f);
      assert held.Some? ==> Safe(Files(), identity, held);
      if held.Some? {
        SafeReads(Files(), identity, held.value);
      }
      if !parked {
        return false;
      }
      if !f.committed {
        return false;
      }
      primary := temporary;
      temporary := None;
      LostTailExact(old(Files()), identity, held, payload, f.written, f.sees);
      ok := true;
    }
  }
}
