/**
 The `step N` handshake of cosim.cpp between the guest thread, which parks at checkpoints,
 and the command server, which grants it a budget. Every access to a shared variable is a
 step of its own, so increments and decrements are read first and written later.
 */
module CosimStep {
  import opened Common

  /** Where the guest thread is, in `record_checkpoint` or between checkpoints. */
  datatype Guest =
    | Running
    | Test
    | TakeRead
    | TakeWrite(seen: int)
    | Park
    | Outer
    | Token
    | InnerToken(token: int)
    | InnerBudget(token: int)
    | Unpark
    | LeaveRead
    | LeaveWrite(seen: int)

  /** Where the server is in answering `step N`. */
  datatype Server =
    | Idle
    | GrantRead(n: int)
    | GrantWrite(n: int, seen: int)
    | WakeRead
    | WakeWrite(seen: int)
    | AwaitBudget
    | AwaitParked
    | AwaitMore
    | Answer
    | AnswerCp(parked: bool)
    | Answered(parked: bool, cp: nat)

  datatype System = System(cp: nat, budget: int, parked: bool, token: int, guest: Guest, server: Server, gaveUp: bool)

  /** Who moves next; the server may also stop waiting. */
  datatype Move = GuestMoves | ServerMoves | GiveUp

  function GuestStep(s: System): System {
    match s.guest
    case Running => s.(cp := s.cp + 1, guest := Test)
    case Test => s.(guest := if s.budget > 0 then TakeRead else Park)
    case TakeRead => s.(guest := TakeWrite(s.budget))
    case TakeWrite(seen) => s.(budget := seen - 1, guest := Running)
    case Park => s.(parked := true, guest := Outer)
    case Outer => s.(guest := if s.budget <= 0 then Token else Unpark)
    case Token => s.(guest := InnerToken(s.token))
    case InnerToken(token) => s.(guest := if s.token == token then InnerBudget(token) else Outer)
    case InnerBudget(token) => s.(guest := if s.budget <= 0 then InnerToken(token) else Outer)
    case Unpark => s.(parked := false, guest := LeaveRead)
    case LeaveRead => s.(guest := LeaveWrite(s.budget))
    case LeaveWrite(seen) => s.(budget := seen - 1, guest := Running)
  }

  function ServerStep(s: System): System {
    match s.server
    case Idle | Answered(_, _) => s
    case GrantRead(n) => s.(server := GrantWrite(n, s.budget))
    case GrantWrite(n, seen) => s.(budget := seen + n, server := WakeRead)
    case WakeRead => s.(server := WakeWrite(s.token))
    case WakeWrite(seen) => s.(token := seen + 1, server := AwaitBudget)
    case AwaitBudget => if s.budget > 0 then s else s.(server := AwaitParked)
    case AwaitParked => s.(server := if s.parked then Answer else AwaitMore)
    case AwaitMore => s.(server := if s.budget <= 0 then AwaitParked else Answer)
    case Answer => s.(server := AnswerCp(s.parked))
    case AnswerCp(parked) => s.(server := Answered(parked, s.cp))
  }

  /** The spin limits: the first loop gives way to the second, the second to the answer. */
  function GiveUpStep(s: System): System {
    if s.server.AwaitBudget? then s.(server := AwaitParked, gaveUp := true)
    else if s.server.AwaitParked? || s.server.AwaitMore? then s.(server := Answer)
    else s
  }

  function Step(s: System, m: Move): System {
    match m
    case GuestMoves => GuestStep(s)
    case ServerMoves => ServerStep(s)
    case GiveUp => GiveUpStep(s)
  }

  function Run(s: System, moves: seq<Move>): System
    decreases |moves|
  {
    if moves == [] then s else Run(Step(s, moves[0]), moves[1..])
  }

  /** `static_cast<long long>` of the count that was asked for. */
  function Signed(n: U64): int { if n < 0x8000_0000_0000_0000 then n else n - TWO_64 }

  /** The guest is in its wait loop. */
  predicate Waiting(g: Guest) { g.Outer? || g.Token? || g.InnerToken? || g.InnerBudget? }

  predicate ParkedAt(s: System, cp: nat) { Waiting(s.guest) && s.parked && s.cp == cp && s.budget <= 0 }

  /** A command `step n` has just been received. */
  function Command(s: System, n: U64): System { s.(server := GrantRead(Signed(n)), gaveUp := false) }

  // ── The two wait loops ────────────────────────────────────────────

  /**
   A waiting guest changes nothing. It looks at the token once, sleeps on that value while the
   budget is spent, and looks again when the token has changed; only a budget lets it out.
   */
  lemma GuestWaitExact(s: System)
    requires Waiting(s.guest)
    ensures GuestStep(s) == s.(guest := GuestStep(s).guest)
    ensures GuestStep(s).guest ==
            match s.guest {
              case InnerToken(seen) => if s.token != seen then Outer else InnerBudget(seen)
              case InnerBudget(seen) => if s.budget > 0 then Outer else InnerToken(seen)
              case Token => InnerToken(s.token)
              case _ => if s.budget > 0 then Unpark else Token
            }
  {
  }

  /** A grant that is written and announced lets a waiting guest out within four of its moves. */
  lemma GrantLetsOut(s: System)
    requires Waiting(s.guest) && s.budget > 0
    ensures var t := GuestStep(s); var u := GuestStep(t); var v := GuestStep(u);
            || t.guest.Unpark? || (Waiting(t.guest) && u.guest.Unpark?) || (Waiting(u.guest) && v.guest.Unpark?)
            || (Waiting(v.guest) && GuestStep(v).guest.Unpark?)
  {
  }

  /**
   A waiting server changes nothing. It answers once it has seen the guest parked with the budget
   spent, or the budget back above zero after that.
   */
  lemma ServerWaitExact(s: System)
    requires s.server.AwaitBudget? || s.server.AwaitParked? || s.server.AwaitMore?
    ensures ServerStep(s) == s.(server := ServerStep(s).server)
    ensures s.server.AwaitBudget? ==> (ServerStep(s).server == if s.budget > 0 then AwaitBudget else AwaitParked)
    ensures s.server.AwaitParked? ==> (ServerStep(s).server == if s.parked then Answer else AwaitMore)
    ensures s.server.AwaitMore? ==> (ServerStep(s).server == if s.budget > 0 then Answer else AwaitParked)
  {
  }

  // ── What every interleaving keeps ─────────────────────────────────

  /** The grant has been written. */
  predicate Granted(v: Server) { !v.Idle? && !v.GrantRead? && !v.GrantWrite? }

  /** Before the grant the guest cannot have left its loop. */
  ghost predicate Before(s: System, cp: nat, budget: int, n: int) {
    && ParkedAt(s, cp) && s.budget == budget && !s.gaveUp
    && (s.server == GrantRead(n) || s.server == GrantWrite(n, budget))
  }

  /**
   After it, budget and checkpoints add up to the grant: `total` is the budget the server
   wrote. The guest is still where it was, or under way, or parked again.
   */
  ghost predicate After(s: System, cp: nat, total: int) {
    s.cp >= cp &&
    match s.guest
    case Outer | Token | InnerToken(_) | InnerBudget(_) =>
      s.parked && ((s.cp == cp && s.budget == total) || (s.budget == 0 && total > 0 && s.cp == cp + total))
    case Park => !s.parked && s.budget == 0 && total > 0 && s.cp == cp + total
    case Unpark => s.parked && s.cp == cp && s.budget == total > 0
    case LeaveRead => !s.parked && s.cp == cp && s.budget == total > 0
    case LeaveWrite(seen) => !s.parked && s.cp == cp && s.budget == seen == total > 0
    case Running => !s.parked && s.budget >= 0 && total > 0 && s.cp - cp + s.budget == total - 1
    case Test => !s.parked && s.budget >= 0 && total > 0 && s.cp - cp + s.budget == total
    case TakeRead => !s.parked && s.budget > 0 && total > 0 && s.cp - cp + s.budget == total
    case TakeWrite(seen) => !s.parked && s.budget == seen > 0 && total > 0 && s.cp - cp + s.budget == total
  }

  function Target(cp: nat, total: int): nat { cp + Max(total, 0) }

  /** Once the server has seen the budget spent it stays spent, so a parked guest is parked for good. */
  ghost predicate Seen(s: System, cp: nat, total: int) {
    match s.server
    case AwaitParked | AwaitMore => s.budget <= 0
    case Answer => s.budget <= 0
    case AnswerCp(parked) => s.budget <= 0 && (parked ==> s.parked)
    case Answered(parked, at) => s.budget <= 0 && (parked ==> at == Target(cp, total))
    case _ => true
  }

  ghost predicate Inv(s: System, cp: nat, budget: int, n: int) {
    if Granted(s.server)
    then After(s, cp, budget + n) && (!s.gaveUp ==> Seen(s, cp, budget + n))
    else Before(s, cp, budget, n)
  }

  lemma GuestStepKeeps(s: System, cp: nat, budget: int, n: int)
    requires Inv(s, cp, budget, n) && budget <= 0
    ensures Inv(GuestStep(s), cp, budget, n)
  {
  }

  lemma ServerStepKeeps(s: System, cp: nat, budget: int, n: int)
    requires Inv(s, cp, budget, n) && budget <= 0
    ensures Inv(ServerStep(s), cp, budget, n)
  {
  }

  lemma GiveUpStepKeeps(s: System, cp: nat, budget: int, n: int)
    requires Inv(s, cp, budget, n)
    ensures Inv(GiveUpStep(s), cp, budget, n)
  {
  }

  lemma StepKeeps(s: System, m: Move, cp: nat, budget: int, n: int)
    requires Inv(s, cp, budget, n) && budget <= 0
    ensures Inv(Step(s, m), cp, budget, n)
  {
    hide Inv, GuestStep, ServerStep, GiveUpStep;
    match m {
      case GuestMoves => GuestStepKeeps(s, cp, budget, n);
      case ServerMoves => ServerStepKeeps(s, cp, budget, n);
      case GiveUp => GiveUpStepKeeps(s, cp, budget, n);
    }
  }

  lemma {:induction false} RunKeeps(s: System, moves: seq<Move>, cp: nat, budget: int, n: int)
    requires Inv(s, cp, budget, n) && budget <= 0
    ensures Inv(Run(s, moves), cp, budget, n)
    decreases |moves|
  {
    hide Inv, Step;
    if moves != [] {
      StepKeeps(s, moves[0], cp, budget, n);
      RunKeeps(Step(s, moves[0]), moves[1..], cp, budget, n);
    }
  }

  /** The guest is back in its loop after using the whole grant; with nothing granted it never left. */
  predicate Done(s: System, cp: nat, total: int) { Waiting(s.guest) && s.cp == Target(cp, total) && s.budget <= 0 }

  /** Guest steps still needed to park again. */
  function Rank(s: System, cp: nat, total: int): int {
    var left := 4 * (cp + total - s.cp);
    match s.guest
    case InnerToken(_) => left + 8
    case InnerBudget(_) => left + 7
    case Token => left + 9
    case Outer => left + 6
    case Unpark => left + 5
    case LeaveRead => left + 4
    case LeaveWrite(_) => left + 3
    case Running => left + 2
    case Test => left + 5
    case TakeRead => left + 4
    case TakeWrite(_) => left + 3
    case Park => left + 1
  }

  /** Every step of a guest that has not used its grant brings it nearer to the next stop. */
  lemma GuestProgress(s: System, cp: nat, total: int)
    requires After(s, cp, total) && total > 0 && !Done(s, cp, total)
    ensures var t := GuestStep(s); Done(t, cp, total) || 0 <= Rank(t, cp, total) < Rank(s, cp, total)
  {
  }

  /**
   A step command given to a parked guest, under every interleaving: the guest crosses
   exactly as many checkpoints as the budget then allows, no more at any time, and is parked
   only before it has noticed or when it has crossed them all; and an answer `parked` names
   that checkpoint unless the server had stopped waiting for the budget to be used.
   */
  lemma StepParksExactly(s: System, n: U64, moves: seq<Move>)
    requires ParkedAt(s, s.cp)
    ensures var t, target := Run(Command(s, n), moves), Target(s.cp, s.budget + Signed(n));
            && s.cp <= t.cp <= target
            && (t.parked ==> t.cp == s.cp || t.cp == target)
            && (t.parked && t.budget <= 0 && Granted(t.server) ==> t.cp == target)
            && (t.server.Answered? && t.server.parked && !t.gaveUp ==> t.server.cp == target)
  {
    RunKeeps(Command(s, n), moves, s.cp, s.budget, Signed(n));
    hide Run;
  }

  // ── It does park ──────────────────────────────────────────────────

  /** How often `m` moves. */
  function Turns(moves: seq<Move>, m: Move): nat {
    if moves == [] then 0 else (if moves[0] == m then 1 else 0) + Turns(moves[1..], m)
  }

  /** Guest steps that are enough to park again. */
  function Needed(s: System, cp: nat, total: int): int { if Done(s, cp, total) then 0 else Rank(s, cp, total) }

  /** Server moves and giving up leave the guest's rank alone; done is done until the next command. */
  lemma MoveProgress(s: System, m: Move, cp: nat, total: int)
    requires After(s, cp, total) && Granted(s.server)
    ensures var t := Step(s, m);
            && After(t, cp, total) && Granted(t.server)
            && 0 <= Needed(t, cp, total) <= Max(0, Needed(s, cp, total) - if m.GuestMoves? then 1 else 0)
  {
    if m.GuestMoves? {
      GuestKeepsAfter(s, cp, total);
      RankSign(GuestStep(s), cp, total);
      if total > 0 && !Done(s, cp, total) {
        RankSign(s, cp, total);
        GuestProgress(s, cp, total);
      } else {
        DoneStays(s, cp, total);
      }
    } else {
      OthersLeaveGuest(s, m, cp, total);
      RankSign(s, cp, total);
    }
    hide After, Rank, Done, GuestStep, ServerStep, GiveUpStep;
  }

  lemma RankSign(s: System, cp: nat, total: int)
    requires After(s, cp, total)
    ensures Done(s, cp, total) || (total > 0 && Rank(s, cp, total) > 0)
  {
  }

  lemma GuestKeepsAfter(s: System, cp: nat, total: int)
    requires After(s, cp, total) && Granted(s.server)
    ensures After(GuestStep(s), cp, total) && GuestStep(s).server == s.server
  {
  }

  lemma DoneStays(s: System, cp: nat, total: int)
    requires After(s, cp, total) && Done(s, cp, total)
    ensures Done(GuestStep(s), cp, total)
  {
  }

  /** What the rank and the grant are told from. */
  predicate SameGuest(s: System, t: System) {
    t.guest == s.guest && t.cp == s.cp && t.budget == s.budget && t.parked == s.parked
  }

  lemma OthersLeaveGuest(s: System, m: Move, cp: nat, total: int)
    requires After(s, cp, total) && Granted(s.server) && !m.GuestMoves?
    ensures var t := Step(s, m);
            && After(t, cp, total) && Granted(t.server)
            && Done(t, cp, total) == Done(s, cp, total) && Rank(t, cp, total) == Rank(s, cp, total)
  {
    ServerLeavesGuest(s, m);
    hide Step;
  }

  lemma ServerLeavesGuest(s: System, m: Move)
    requires Granted(s.server) && !m.GuestMoves?
    ensures SameGuest(s, Step(s, m)) && Granted(Step(s, m).server)
  {
  }

  /**
   Whatever the server does meanwhile, a guest that has been granted a budget is parked again
   after at most its rank of moves of its own, and stays so.
   */
  lemma {:induction false} GuestParks(s: System, moves: seq<Move>, cp: nat, total: int)
    requires After(s, cp, total) && Granted(s.server)
    ensures After(Run(s, moves), cp, total) && Granted(Run(s, moves).server)
    ensures Turns(moves, GuestMoves) >= Needed(s, cp, total) ==> Done(Run(s, moves), cp, total) && Run(s, moves).parked
    decreases |moves|
  {
    if moves == [] {
      assert Done(s, cp, total) || Rank(s, cp, total) > 0;
    } else {
      MoveProgress(s, moves[0], cp, total);
      hide Step, After, Done, Rank, Granted;
      GuestParks(Step(s, moves[0]), moves[1..], cp, total);
    }
  }

  /** Server moves left until the grant is written. */
  function ToGrant(v: Server): nat { if v.GrantRead? then 2 else if v.GrantWrite? then 1 else 0 }

  lemma {:induction false} ServerGrants(s: System, moves: seq<Move>, cp: nat, budget: int, n: int)
    requires Inv(s, cp, budget, n) && budget <= 0 && Turns(moves, ServerMoves) >= ToGrant(s.server)
    ensures Granted(Run(s, moves).server)
    decreases |moves|
  {
    hide Done, Rank, After, Seen;
    if moves != [] {
      StepKeeps(s, moves[0], cp, budget, n);
      ServerGrants(Step(s, moves[0]), moves[1..], cp, budget, n);
    } else {
      assert Inv(s, cp, budget, n) && ToGrant(s.server) == 0;
    }
  }

  /** Server moves left until it answers, once the guest is done. */
  function ToAnswer(v: Server): nat {
    match v
    case Answered(_, _) => 0
    case AnswerCp(_) => 1
    case Answer => 2
    case AwaitParked => 3
    case AwaitMore => 4
    case AwaitBudget => 5
    case WakeWrite(_) => 6
    case WakeRead => 7
    case GrantWrite(_, _) => 8
    case GrantRead(_) => 9
    case Idle => 10
  }

  lemma AnswerProgress(s: System, m: Move, cp: nat, total: int)
    requires After(s, cp, total) && Granted(s.server) && Done(s, cp, total)
    ensures var t := Step(s, m);
            && After(t, cp, total) && Granted(t.server) && Done(t, cp, total)
            && ToAnswer(t.server) <= Max(0, ToAnswer(s.server) - if m.ServerMoves? then 1 else 0)
  {
  }

  lemma {:induction false} ServerAnswers(s: System, moves: seq<Move>, cp: nat, total: int)
    requires After(s, cp, total) && Granted(s.server) && Done(s, cp, total)
    requires Turns(moves, ServerMoves) >= ToAnswer(s.server)
    ensures Run(s, moves).server.Answered?
    decreases |moves|
  {
    if moves != [] {
      AnswerProgress(s, moves[0], cp, total);
      hide Step, After, Done, Granted, ToAnswer;
      ServerAnswers(Step(s, moves[0]), moves[1..], cp, total);
    }
  }

  lemma {:induction false} RunAppend(s: System, a: seq<Move>, b: seq<Move>)
    ensures Run(s, a + b) == Run(Run(s, a), b)
    decreases |a|
  {
    hide Step;
    if a == [] {
      assert a + b == b;
    } else {
      assert (a + b)[0] == a[0] && (a + b)[1..] == a[1..] + b;
      RunAppend(Step(s, a[0]), a[1..], b);
    }
  }

  /** What the server knows when it never stops waiting: it has seen the guest parked before it answers. */
  ghost predicate Patient(s: System, cp: nat, total: int) {
    match s.server
    case AwaitParked | AwaitMore => s.budget <= 0
    case Answer => s.budget <= 0 && s.parked
    case AnswerCp(parked) => s.budget <= 0 && s.parked && parked
    case Answered(parked, at) => parked && at == Target(cp, total)
    case _ => true
  }

  lemma PatientStep(s: System, m: Move, cp: nat, total: int)
    requires After(s, cp, total) && Granted(s.server) && Patient(s, cp, total) && !m.GiveUp?
    ensures Patient(Step(s, m), cp, total)
  {
  }

  lemma {:induction false} PatientRun(s: System, moves: seq<Move>, cp: nat, total: int)
    requires After(s, cp, total) && Granted(s.server) && Patient(s, cp, total) && Turns(moves, GiveUp) == 0
    ensures Patient(Run(s, moves), cp, total)
    decreases |moves|
  {
    if moves != [] {
      PatientStep(s, moves[0], cp, total);
      MoveProgress(s, moves[0], cp, total);
      hide Step, After, Granted, Patient, Needed;
      PatientRun(Step(s, moves[0]), moves[1..], cp, total);
    }
  }

  /** From the command on: before the grant there is nothing to be impatient about. */
  lemma {:induction false} PatientCommand(s: System, moves: seq<Move>, cp: nat, budget: int, n: int)
    requires Inv(s, cp, budget, n) && budget <= 0 && Turns(moves, GiveUp) == 0
    requires Granted(s.server) ==> Patient(s, cp, budget + n)
    ensures Granted(Run(s, moves).server) ==> Patient(Run(s, moves), cp, budget + n)
    decreases |moves|
  {
    if moves != [] {
      StepKeeps(s, moves[0], cp, budget, n);
      if Granted(s.server) {
        PatientStep(s, moves[0], cp, budget + n);
      }
      hide After, Before, Seen;
      PatientCommand(Step(s, moves[0]), moves[1..], cp, budget, n);
    }
  }

  /**
   Liveness of a step command given to a parked guest, under every schedule: two server moves
   write the grant, four guest moves for each checkpoint and nine more, interleaved with
   anything, park the guest at exactly the last of them, and seven further server moves
   answer; the answer says `parked` and names that checkpoint if the server never gives up.
   */
  lemma StepParks(s: System, n: U64, granting: seq<Move>, crossing: seq<Move>, answering: seq<Move>)
    requires ParkedAt(s, s.cp)
    requires Turns(granting, ServerMoves) >= 2
    requires Turns(crossing, GuestMoves) >= 4 * Max(s.budget + Signed(n), 0) + 9
    requires Turns(answering, ServerMoves) >= 7
    ensures var target := Target(s.cp, s.budget + Signed(n));
            var t := Run(Command(s, n), granting + crossing);
            var u := Run(Command(s, n), granting + crossing + answering);
            && ParkedAt(t, target) && ParkedAt(u, target) && u.server.Answered?
            && (Turns(granting + crossing + answering, GiveUp) == 0 ==> u.server == Answered(true, target))
  {
    var a, total := Command(s, n), s.budget + Signed(n);
    var g := Run(a, granting);
    RunAppend(a, granting, crossing);
    RunAppend(a, granting + crossing, answering);
    var t := Run(g, crossing);
    var u := Run(t, answering);
    RunKeeps(a, granting, s.cp, s.budget, Signed(n));
    ServerGrants(a, granting, s.cp, s.budget, Signed(n));
    RankBound(g, s.cp, total);
    GuestParks(g, crossing, s.cp, total);
    GuestParks(t, answering, s.cp, total);
    AnswerBound(t);
    ServerAnswers(t, answering, s.cp, total);
    if Turns(granting + crossing + answering, GiveUp) == 0 {
      PatientCommand(a, granting + crossing + answering, s.cp, s.budget, Signed(n));
    }
    hide Run, Rank, After, Turns, Inv, Step;
  }

  lemma RankBound(s: System, cp: nat, total: int)
    requires After(s, cp, total)
    ensures Needed(s, cp, total) <= 4 * Max(total, 0) + 9
  {
  }

  lemma AnswerBound(s: System)
    requires Granted(s.server)
    ensures ToAnswer(s.server) <= 7
  {
  }

  /** For a guest parked with no debt, `step N` is N checkpoints, for every N from 1 below 2^63; any other N is none. */
  lemma StepCount(s: System, n: U64)
    requires ParkedAt(s, s.cp) && s.budget == 0
    ensures Target(s.cp, s.budget + Signed(n)) == s.cp + (if n < 0x8000_0000_0000_0000 then n else 0)
  {
  }

  /** The schedule on which the server is answered before the guest has moved. */
  const EARLY: seq<Move> := [ServerMoves, ServerMoves, ServerMoves, ServerMoves] + [GiveUp, ServerMoves, ServerMoves, ServerMoves]

  /**
   A server that stops waiting early says `parked`, and names the checkpoint it started from, of
   a guest that has yet to cross every one it was granted, however many.
   */
  lemma GaveUpAnswer(s: System, n: U64)
    requires ParkedAt(s, s.cp) && s.budget + Signed(n) > 0
    ensures var t := Run(Command(s, n), EARLY);
            t.server == Answered(true, s.cp) && t.gaveUp && s.cp < Target(s.cp, s.budget + Signed(n))
  {
    var a := Command(s, n);
    var b := Step(Step(Step(Step(a, ServerMoves), ServerMoves), ServerMoves), ServerMoves);
    RunFour(a, ServerMoves, ServerMoves, ServerMoves, ServerMoves, [GiveUp, ServerMoves, ServerMoves, ServerMoves]);
    RunFour(b, GiveUp, ServerMoves, ServerMoves, ServerMoves, []);
    assert [GiveUp, ServerMoves, ServerMoves, ServerMoves] + [] == [GiveUp, ServerMoves, ServerMoves, ServerMoves];
  }

  /** An answer that was given names a checkpoint from `cp` to the last one granted. */
  ghost predicate Named(s: System, cp: nat, total: int) {
    s.server.Answered? ==> cp <= s.server.cp <= Target(cp, total)
  }

  lemma NamedStep(s: System, m: Move, cp: nat, budget: int, n: int)
    requires Inv(s, cp, budget, n) && Named(s, cp, budget + n)
    ensures Named(Step(s, m), cp, budget + n)
  {
    if s.server.AnswerCp? {
      AfterBounds(s, cp, budget + n);
    }
    hide After, Before, Seen, GuestStep;
    if m.GuestMoves? {
      GuestLeavesServer(s);
    }
  }

  lemma GuestLeavesServer(s: System)
    ensures GuestStep(s).server == s.server
  {
  }

  lemma AfterBounds(s: System, cp: nat, total: int)
    requires After(s, cp, total)
    ensures cp <= s.cp <= Target(cp, total)
  {
  }

  lemma {:induction false} NamedRun(s: System, moves: seq<Move>, cp: nat, budget: int, n: int)
    requires Inv(s, cp, budget, n) && budget <= 0 && Named(s, cp, budget + n)
    ensures Named(Run(s, moves), cp, budget + n)
    decreases |moves|
  {
    hide Inv, Step, Named;
    if moves != [] {
      StepKeeps(s, moves[0], cp, budget, n);
      NamedStep(s, moves[0], cp, budget, n);
      NamedRun(Step(s, moves[0]), moves[1..], cp, budget, n);
    }
  }

  /** Every answer `parked` to `step n` names the last checkpoint granted. */
  ghost predicate AnswersRight(s: System, n: U64) {
    forall moves: seq<Move> ::
      var t := Run(Command(s, n), moves);
      t.server.Answered? && t.server.parked ==> t.server.cp == Target(s.cp, s.budget + Signed(n))
  }

  /**
   What a caller can tell before the command: with a time limit on the wait, the answer `parked`
   to a parked guest is right under every schedule exactly if nothing is granted. Otherwise it
   may name any checkpoint from the present one to the last granted, and no other.
   */
  lemma AnswerExact(s: System, n: U64)
    requires ParkedAt(s, s.cp)
    ensures AnswersRight(s, n) <==> s.budget + Signed(n) <= 0
    ensures forall moves: seq<Move> ::
              var t := Run(Command(s, n), moves);
              t.server.Answered? ==> s.cp <= t.server.cp <= Target(s.cp, s.budget + Signed(n))
  {
    hide Run, Step;
    forall moves: seq<Move>
      ensures Named(Run(Command(s, n), moves), s.cp, s.budget + Signed(n))
    {
      NamedRun(Command(s, n), moves, s.cp, s.budget, Signed(n));
    }
    if s.budget + Signed(n) > 0 {
      GaveUpAnswer(s, n);
      assert !AnswersRight(s, n) by {
        var t := Run(Command(s, n), EARLY);
        assert t.server.parked && t.server.cp != Target(s.cp, s.budget + Signed(n));
      }
    }
  }

  lemma RunCons(s: System, m: Move, rest: seq<Move>)
    ensures Run(s, [m] + rest) == Run(Step(s, m), rest)
  {
    hide Step;
    assert ([m] + rest)[1..] == rest;
  }

  lemma RunFour(s: System, p: Move, q: Move, r: Move, u: Move, rest: seq<Move>)
    ensures Run(s, [p, q, r, u] + rest) == Run(Step(Step(Step(Step(s, p), q), r), u), rest)
  {
    hide Step, Run;
    assert [p, q, r, u] + rest == [p] + ([q] + ([r] + ([u] + rest)));
    RunCons(s, p, [q] + ([r] + ([u] + rest)));
    RunCons(Step(s, p), q, [r] + ([u] + rest));
    RunCons(Step(Step(s, p), q), r, [u] + rest);
    RunCons(Step(Step(Step(s, p), q), r), u, rest);
  }
}
