/**
 What the replay ring guarantees over whole runs of its two threads, and what one enqueue or
 one turn of the worker amounts to when nothing comes between its steps.
 */
module ReplayRuns {
  import opened Common
  import opened ReplayRing

  // ── What every interleaving guarantees ────────────────────────────

  /** Under every interleaving the worker has decoded a prefix of the accepted commands, payloads included. */
  lemma DecodedIsPrefix(ring: seq<Byte>, actions: seq<Action>)
    requires |ring| == QUEUE_BYTES
    ensures var s := Run(Fresh(ring), actions);
            |s.decoded| <= |s.accepted| && s.decoded == Records(s.accepted[..|s.decoded|])
  {
    FreshInv(ring);
    RunKeeps(Fresh(ring), actions);
  }

  /** A worker that has left its loop without an error has taken everything the producer was told it had. */
  lemma ExitMeansDrained(ring: seq<Byte>, actions: seq<Action>)
    requires |ring| == QUEUE_BYTES && Run(Fresh(ring), actions).worker.Exited?
    ensures var s := Run(Fresh(ring), actions); s.decoded == Records(s.accepted) && s.stop
  {
    FreshInv(ring);
    RunKeeps(Fresh(ring), actions);
    var s := Run(Fresh(ring), actions);
    assert s.accepted[..|s.accepted|] == s.accepted;
  }

  lemma HeadIs(s: State)
    requires Inv(s)
    ensures s.Shape() && |s.heads| == |s.accepted| + 1 && |s.decoded| <= |s.accepted| && s.headsSeen < |s.heads|
    ensures s.worker.Stopping? ==> s.stop
  {
    hide Stream, Slot, Wire, Payload, Total, Records;
  }

  /**
   And it does leave: once the flag is set, a worker that has taken everything and looks again
   exits after three loads, with what it has taken and whatever error there is unchanged.
   */
  lemma DrainedExits(s: State)
    requires Inv(s) && s.stop && s.worker.Polling? && |s.decoded| == |s.accepted|
    ensures var t := Step(Step(Step(s, Load(|s.heads| - 1)), LoadStop(true)), Recheck);
            t == s.(headsSeen := |s.heads| - 1, worker := Exited)
  {
    HeadIs(s);
    EmptyExact(s, |s.accepted|);
    hide Inv;
    var n := |s.heads| - 1;
    LoadsOut(s);
    LeavesLoop(s.(headsSeen := n, worker := Drained));
  }

  /** The newest head, when it is the tail. */
  lemma LoadsOut(s: State)
    requires s.Shape() && s.worker.Polling? && s.headsSeen < |s.heads| && s.Head() == s.Tail()
    ensures Step(s, Load(|s.heads| - 1)) == s.(headsSeen := |s.heads| - 1, worker := Drained)
  {
    hide Wire;
  }

  lemma LeavesLoop(s: State)
    requires s.Shape() && s.worker.Drained? && s.stop && s.Head() == s.Tail()
    ensures Step(Step(s, LoadStop(true)), Recheck) == s.(headsSeen := |s.heads| - 1, worker := Exited)
  {
    hide Wire;
    assert Step(s, LoadStop(true)) == s.(worker := Stopping);
  }

  /** A worker that has seen neither anything to take nor the flag looks again; one that saw the flag too early goes on taking. */
  lemma UndrainedStays(s: State)
    requires Inv(s)
    ensures s.worker.Drained? ==> Step(s, LoadStop(false)) == s.(worker := Polling)
    ensures s.worker.Stopping? && |s.decoded| < |s.accepted| ==> Step(s, Recheck).worker.Polling?
  {
    hide Wire;
    HeadIs(s);
    EmptyExact(s, |s.accepted|);
    hide Inv;
  }

  /** The steps at which something goes wrong. */
  predicate Fails(s: State, a: Action)
    requires s.Shape()
  {
    Enabled(s, a) && (a.Refuse? || a.FlushFails? || a.CloseFails? || a == Finish(false) ||
                      (a.Publish? && !s.producer.call.Clean()) || Oversized(s, a))
  }

  /** An enqueue that could never fit, seen by a writer that is running without error. */
  predicate Oversized(s: State, a: Action) {
    a.Start? && !s.stop && s.error == OK && HEADER_BYTES + a.call.cmd.size >= QUEUE_BYTES
  }

  predicate AnyFails(s: State, actions: seq<Action>)
    requires s.Shape()
    decreases |actions|
  {
    actions != [] && (Fails(s, actions[0]) || AnyFails(Step(s, actions[0]), actions[1..]))
  }

  /**
   So a `shutdown` that answers without an error, the files closed included, means that
   everything accepted has been taken and that nothing ever failed: no frame, part or size was
   refused as invalid, and no record, flush or close went wrong.
   */
  lemma CleanShutdown(ring: seq<Byte>, actions: seq<Action>)
    requires |ring| == QUEUE_BYTES
    requires Run(Fresh(ring), actions).worker.Exited? || Run(Fresh(ring), actions).worker.Failed?
    requires Run(Fresh(ring), actions).error == OK
    ensures Run(Fresh(ring), actions).worker.Exited?
    ensures Run(Fresh(ring), actions).decoded == Records(Run(Fresh(ring), actions).accepted)
    ensures !AnyFails(Fresh(ring), actions)
  {
    hide *;
    FreshShape(ring);
    FreshEnds(ring, actions);
    if AnyFails(Fresh(ring), actions) {
      FailureStays(Fresh(ring), actions);
    }
  }

  lemma FreshShape(ring: seq<Byte>)
    requires |ring| == QUEUE_BYTES
    ensures Fresh(ring).Shape()
  {
  }

  lemma FreshEnds(ring: seq<Byte>, actions: seq<Action>)
    requires |ring| == QUEUE_BYTES
    ensures Fresh(ring).Shape()
    ensures var s := Run(Fresh(ring), actions);
            (s.worker.Exited? || s.worker.Failed?) && s.error == OK ==> s.worker.Exited? && s.decoded == Records(s.accepted)
  {
    FreshInv(ring);
    RunKeeps(Fresh(ring), actions);
    hide Run, Wire, Slot, Stream, Records, Room, Content, Positions, Unpublished;
    var s := Run(Fresh(ring), actions);
    assert s.accepted[..|s.accepted|] == s.accepted;
  }

  lemma {:induction false} FailureStays(s: State, actions: seq<Action>)
    requires s.Shape() && AnyFails(s, actions)
    ensures Run(s, actions).error != OK
    decreases |actions|
  {
    hide Step, Fails;
    if Fails(s, actions[0]) {
      FailsNow(s, actions[0]);
      ErrorSticks(Step(s, actions[0]), actions[1..]);
    } else {
      FailureStays(Step(s, actions[0]), actions[1..]);
    }
  }

  lemma FailsNow(s: State, a: Action)
    requires s.Shape() && Fails(s, a)
    ensures Step(s, a).error != OK
  {
    hide Wire, FreeSpace, WantsMore, DecodeCommand, Total, Payload;
  }

  lemma FailsExact(s: State, a: Action)
    requires s.Shape() && s.error == OK
    ensures Step(s, a).error == OK <==> !Fails(s, a)
  {
    hide Wire, FreeSpace, WantsMore, DecodeCommand, Total, Payload;
  }

  /** A run that starts without an error ends without one exactly if nothing failed on the way. */
  lemma {:induction false} ErrorExact(s: State, actions: seq<Action>)
    requires s.Shape() && s.error == OK
    ensures Run(s, actions).error == OK <==> !AnyFails(s, actions)
    decreases |actions|
  {
    hide Step, Fails;
    if actions != [] {
      FailsExact(s, actions[0]);
      if Fails(s, actions[0]) {
        ErrorSticks(Step(s, actions[0]), actions[1..]);
      } else {
        ErrorExact(Step(s, actions[0]), actions[1..]);
      }
    }
  }

  /** What one step can do to the histories and the error code. */
  lemma StepEffects(s: State, a: Action)
    requires s.Shape()
    ensures var t := Step(s, a);
            && (s.error != OK ==> t.error == s.error)
            && |s.decoded| <= |t.decoded|
            && (t.accepted != s.accepted || t.heads != s.heads ==>
                  a.Publish? && s.producer.Writing? && s.producer.call.Clean() && t.accepted == s.accepted + [s.producer.call])
            && (s.errorSeen && s.error != OK && s.producer.Idle? ==> t.errorSeen && t.producer.Idle?)
  {
    hide Wire, FreeSpace, WantsMore, DecodeCommand, Total, Payload, StartStep;
    if a.Start? && Enabled(s, a) {
      StartEffects(s, a.call, a.seen, a.missError);
    }
  }

  lemma StartEffects(s: State, call: Call, seen: nat, missError: bool)
    requires s.Shape() && Enabled(s, Start(call, seen, missError))
    ensures var t := StartStep(s, call, seen, missError);
            && (s.error != OK ==> t.error == s.error)
            && t.decoded == s.decoded && t.accepted == s.accepted && t.heads == s.heads
            && (s.errorSeen && s.error != OK ==> t.errorSeen && t.producer.Idle?)
  {
    hide Wire, FreeSpace, Total, Payload;
  }

  /** No step changes a byte the worker has yet to release: it stays in its slot until then. */
  lemma UnreadBytesStay(s: State, a: Action, p: nat)
    requires Inv(s) && Inv(Step(s, a))
    requires Pos(Step(s, a).accepted, |Step(s, a).decoded|) <= p < |Stream(s.accepted)|
    ensures Step(s, a).ring[Slot(p)] == s.ring[Slot(p)] == Stream(s.accepted)[p]
  {
    hide Wire, Slot, Stream, Step, Records;
    var t := Step(s, a);
    StepEffects(s, a);
    if t.accepted != s.accepted {
      StreamSnoc(s.accepted, s.producer.call);
    }
    assert t.accepted[..|s.decoded|] == s.accepted[..|s.decoded|];
    PosMonotone(t.accepted, |s.decoded|, |t.decoded|);
  }

  /** The first error code stays. */
  lemma {:induction false} ErrorSticks(s: State, actions: seq<Action>)
    requires s.Shape() && s.error != OK
    ensures Run(s, actions).error == s.error
    decreases |actions|
  {
    hide Step;
    if actions != [] {
      StepEffects(s, actions[0]);
      ErrorSticks(Step(s, actions[0]), actions[1..]);
    }
  }

  /** A producer that has been refused for an error is never accepted again. */
  lemma {:induction false} RefusedForGood(s: State, actions: seq<Action>)
    requires s.Shape() && s.errorSeen && s.error != OK && s.producer.Idle?
    ensures Run(s, actions).accepted == s.accepted && Run(s, actions).heads == s.heads
    decreases |actions|
  {
    hide Step;
    if actions != [] {
      StepEffects(s, actions[0]);
      RefusedForGood(Step(s, actions[0]), actions[1..]);
    }
  }

  // ── One enqueue, one take ─────────────────────────────────────────

  /** `data` laid into the ring from `at`, byte by byte, wrapping at the end. */
  function Written(ring: seq<Byte>, at: nat, data: seq<Byte>): (r: seq<Byte>)
    requires |ring| == QUEUE_BYTES
    ensures |r| == QUEUE_BYTES
    decreases |data|
  {
    if data == [] then ring
    else
      var n := |data| - 1;
      Written(ring, at, data[..n])[(at + n) % QUEUE_BYTES := data[n]]
  }

  /** `n` bytes of the ring from `at`. */
  function Taken(ring: seq<Byte>, at: nat, n: nat): (r: seq<Byte>)
    requires |ring| == QUEUE_BYTES
    ensures |r| == n
  {
    seq(n, i requires 0 <= i => ring[(at + i) % QUEUE_BYTES])
  }

  /** How far past `at` slot `k` is. */
  function Offset(at: nat, k: nat): nat
    requires at < QUEUE_BYTES && k < QUEUE_BYTES
  {
    if k >= at then k - at else k + QUEUE_BYTES - at
  }

  lemma {:induction false} WrittenAt(ring: seq<Byte>, at: nat, data: seq<Byte>, k: nat)
    requires |ring| == QUEUE_BYTES && at < QUEUE_BYTES && k < QUEUE_BYTES && |data| <= QUEUE_BYTES
    ensures Written(ring, at, data)[k] == if Offset(at, k) < |data| then data[Offset(at, k)] else ring[k]
    decreases |data|
  {
    if data != [] {
      WrittenAt(ring, at, data[..|data| - 1], k);
    }
  }

  lemma {:induction false} WrittenAppend(ring: seq<Byte>, at: nat, a: seq<Byte>, b: seq<Byte>)
    requires |ring| == QUEUE_BYTES
    ensures Written(Written(ring, at, a), (at + |a|) % QUEUE_BYTES, b) == Written(ring, at, a + b)
    decreases |b|
  {
    if b == [] {
      assert a + b == a;
    } else {
      var n := |b| - 1;
      WrittenAppend(ring, at, a, b[..n]);
      assert (a + b)[..|a| + n] == a + b[..n] && (a + b)[|a| + n] == b[n];
      ChainedAt(at, |a|, n);
    }
  }

  lemma ChainedAt(at: nat, m: nat, n: nat)
    ensures ((at + m) % QUEUE_BYTES + n) % QUEUE_BYTES == (at + (m + n)) % QUEUE_BYTES
  {
  }

  /** What was laid in is what is taken out, wherever it wraps. */
  lemma TakenWritten(ring: seq<Byte>, at: nat, data: seq<Byte>)
    requires |ring| == QUEUE_BYTES && at < QUEUE_BYTES && |data| <= QUEUE_BYTES
    ensures Taken(Written(ring, at, data), at, |data|) == data
  {
    hide Written;
    forall i | 0 <= i < |data| ensures Taken(Written(ring, at, data), at, |data|)[i] == data[i] {
      WrittenAt(ring, at, data, (at + i) % QUEUE_BYTES);
    }
  }

  function Times(a: Action, n: nat): seq<Action> { seq(n, _ => a) }

  function Puts(n: nat): seq<Action> { Times(PutByte, n) }

  lemma {:induction false} RunAppend(s: State, a: seq<Action>, b: seq<Action>)
    requires s.Shape()
    ensures Run(s, a + b) == Run(Run(s, a), b)
    decreases |a|
  {
    if a == [] {
      assert a + b == b;
    } else {
      assert (a + b)[0] == a[0] && (a + b)[1..] == a[1..] + b;
      RunAppend(Step(s, a[0]), a[1..], b);
    }
  }

  lemma RunSnoc(s: State, a: Action, n: nat)
    requires s.Shape()
    ensures Run(s, Times(a, n + 1)) == Step(Run(s, Times(a, n)), a)
  {
    hide Step, Run;
    assert Times(a, n + 1) == Times(a, n) + [a];
    RunAppend(s, Times(a, n), [a]);
    RunOne(Run(s, Times(a, n)), a);
  }

  /** Writing has put `n` bytes in. */
  predicate InProgress(s: State, t: State, n: nat)
    requires s.Shape() && s.producer.Writing? && n <= |Wire(s.producer.call)|
  {
    t == s.(ring := Written(s.ring, s.Head(), Wire(s.producer.call)[..n]), producer := Writing(s.producer.call, n))
  }

  lemma OnePut(s: State, u: State, n: nat)
    requires s.Shape() && u.Shape() && s.producer.Writing? && n < |Wire(s.producer.call)| && InProgress(s, u, n)
    ensures InProgress(s, Step(u, PutByte), n + 1)
  {
    hide Wire;
    var wire := Wire(s.producer.call);
    assert wire[..n + 1][..n] == wire[..n];
  }

  lemma {:induction false} PutsWrite(s: State, n: nat)
    requires s.Shape() && s.producer.Writing? && s.producer.written == 0 && n <= |Wire(s.producer.call)|
    ensures InProgress(s, Run(s, Puts(n)), n)
  {
    hide Wire;
    if n == 0 {
      assert Puts(0) == [];
    } else {
      hide Step, InProgress;
      PutsWrite(s, n - 1);
      RunSnoc(s, PutByte, n - 1);
      OnePut(s, Run(s, Puts(n - 1)), n - 1);
    }
  }

  lemma RunOne(s: State, a: Action)
    requires s.Shape()
    ensures Run(s, [a]) == Step(s, a)
  {
    hide Step;
    assert Run(Step(s, a), []) == Step(s, a);
  }

  /** The steps of one enqueue, run without interruption and with the newest values in sight. */
  function EnqueueActions(s: State, call: Call): seq<Action>
    requires s.Shape() && s.producer.Idle? && call.WF()
  {
    var start := Start(call, |s.tails| - 1, false);
    if StartStep(s, call, |s.tails| - 1, false).producer.Idle? then [start]
    else [start] + Puts(|Wire(call)|) + [Publish]
  }

  ghost function EnqueueAlone(s: State, call: Call): (t: State)
    requires s.Shape() && s.producer.Idle? && call.WF() && s.tailsSeen < |s.tails|
    ensures t.Shape()
  {
    Run(s, EnqueueActions(s, call))
  }

  lemma StartedShape(s: State, call: Call)
    requires s.Shape() && s.producer.Idle? && call.WF() && s.tailsSeen < |s.tails|
    requires StartStep(s, call, |s.tails| - 1, false).producer.Writing?
    ensures var u := StartStep(s, call, |s.tails| - 1, false);
            && u == Step(s, Start(call, |s.tails| - 1, false))
            && u == s.(producer := Writing(call, 0), tailsSeen := |s.tails| - 1)
  {
    hide Wire, FreeSpace, Total;
  }

  /** The state in which every byte of `call` is in the ring and nothing is published. */
  function Laid(s: State, call: Call): (t: State)
    requires s.Shape() && s.producer.Idle? && call.WF()
    ensures t.Shape() && t.producer.Writing?
  {
    s.(ring := Written(s.ring, s.Head(), Wire(call)), producer := Writing(call, |Wire(call)|), tailsSeen := |s.tails| - 1)
  }

  lemma PutsFrom(s: State, u: State, call: Call)
    requires s.Shape() && u.Shape() && s.producer.Idle? && call.WF()
    requires u == s.(producer := Writing(call, 0), tailsSeen := |s.tails| - 1)
    ensures Run(u, Puts(|Wire(call)|)) == Laid(s, call)
  {
    hide Wire, Run, Written, Step, Total, Puts;
    PutsWrite(u, |Wire(call)|);
    assert Wire(call)[..|Wire(call)|] == Wire(call);
  }

  lemma PutsLay(s: State, call: Call)
    requires s.Shape() && s.producer.Idle? && call.WF() && s.tailsSeen < |s.tails|
    requires StartStep(s, call, |s.tails| - 1, false).producer.Writing?
    ensures Run(Step(s, Start(call, |s.tails| - 1, false)), Puts(|Wire(call)|)) == Laid(s, call)
  {
    StartedShape(s, call);
    hide *;
    PutsFrom(s, Step(s, Start(call, |s.tails| - 1, false)), call);
  }

  lemma EnqueueWrites(s: State, call: Call)
    requires s.Shape() && s.producer.Idle? && call.WF() && s.tailsSeen < |s.tails|
    requires StartStep(s, call, |s.tails| - 1, false).producer.Writing?
    ensures EnqueueAlone(s, call) == PublishStep(Laid(s, call))
  {
    PutsLay(s, call);
    PublishLaid(s, call);
    hide *;
    RunAround(s, Start(call, |s.tails| - 1, false), Puts(|Wire(call)|), Publish);
    EnqueueActionsWhenTaken(s, call);
  }

  lemma EnqueueActionsWhenTaken(s: State, call: Call)
    requires s.Shape() && s.producer.Idle? && call.WF() && s.tailsSeen < |s.tails|
    requires StartStep(s, call, |s.tails| - 1, false).producer.Writing?
    ensures EnqueueAlone(s, call) == Run(s, [Start(call, |s.tails| - 1, false)] + Puts(|Wire(call)|) + [Publish])
  {
    hide Wire, Run, StartStep;
  }

  lemma RunAround(s: State, first: Action, mid: seq<Action>, last: Action)
    requires s.Shape()
    ensures Run(s, [first] + mid + [last]) == Step(Run(Step(s, first), mid), last)
  {
    hide Step, Run;
    assert [first] + mid + [last] == [first] + (mid + [last]);
    RunAppend(s, [first], mid + [last]);
    RunOne(s, first);
    RunAppend(Step(s, first), mid, [last]);
    RunOne(Run(Step(s, first), mid), last);
  }

  lemma PublishLaid(s: State, call: Call)
    requires s.Shape() && s.producer.Idle? && call.WF()
    ensures Step(Laid(s, call), Publish) == PublishStep(Laid(s, call))
  {
    hide Wire, Written, PublishStep;
  }

  lemma EnqueueRefused(s: State, call: Call)
    requires s.Shape() && s.producer.Idle? && call.WF() && s.tailsSeen < |s.tails|
    requires StartStep(s, call, |s.tails| - 1, false).producer.Idle?
    ensures EnqueueAlone(s, call) == StartStep(s, call, |s.tails| - 1, false)
  {
    hide Run, FreeSpace, Total, Wire;
    RunOne(s, Start(call, |s.tails| - 1, false));
  }

  /** How many accepted bytes the worker has not released. */
  ghost function Unread(s: State): nat
    requires Inv(s)
  {
    PosMonotone(s.accepted, |s.decoded|, |s.accepted|);
    |Stream(s.accepted)| - Pos(s.accepted, |s.decoded|)
  }

  lemma StartExact(s: State, call: Call)
    requires Inv(s) && s.producer.Idle? && call.WF()
    ensures StartStep(s, call, |s.tails| - 1, false).producer.Writing? <==>
            !s.stop && s.error == OK && 136 + Total(call.parts) < 33554432 - Unread(s)
  {
    hide Stream, FreeSpace, Total, Slot;
    StaleTailIsSafe(s, |s.tails| - 1);
    PosMonotone(s.accepted, |s.decoded|, |s.accepted|);
  }

  lemma EnqueueOutcome(s: State, call: Call)
    requires s.Shape() && s.producer.Idle? && call.WF() && s.tailsSeen < |s.tails|
    ensures var t := EnqueueAlone(s, call);
            && t.producer.Idle? && t.tails == s.tails
            && if StartStep(s, call, |s.tails| - 1, false).producer.Writing? && call.Clean()
               then t.accepted == s.accepted + [call]
               else t.accepted == s.accepted && t.heads == s.heads
  {
    hide Wire, FreeSpace, EnqueueAlone, Written;
    if StartStep(s, call, |s.tails| - 1, false).producer.Writing? {
      EnqueueWrites(s, call);
    } else {
      EnqueueRefused(s, call);
    }
  }

  /**
   An enqueue is accepted exactly when the writer is running, no error is set, the record
   fits in the free space, and no part is bad; otherwise nothing is published.
   */
  lemma EnqueueExact(s: State, call: Call)
    requires Inv(s) && s.producer.Idle? && call.WF()
    ensures var t := EnqueueAlone(s, call);
            && Inv(t) && t.producer.Idle? && t.tails == s.tails
            && if !s.stop && s.error == OK && call.Clean() && 136 + Total(call.parts) < 33554432 - Unread(s)
               then t.accepted == s.accepted + [call]
               else t.accepted == s.accepted && t.heads == s.heads
  {
    RunKeeps(s, EnqueueActions(s, call));
    StartExact(s, call);
    hide *;
    EnqueueOutcome(s, call);
  }

  function Gets(n: nat): seq<Action> { Times(GetByte, n) }

  /** The worker, having loaded the newest `write_pos`, has copied `n` bytes. */
  ghost predicate HasCopied(s: State, t: State, n: nat)
    requires s.Shape()
  {
    t == s.(headsSeen := |s.heads| - 1, worker := Reading(Taken(s.ring, s.Tail(), n)))
  }

  lemma OneGet(s: State, u: State, n: nat)
    requires Inv(s) && Inv(u) && |s.decoded| < |s.accepted| && n < |Wire(s.accepted[|s.decoded|])| && HasCopied(s, u, n)
    ensures HasCopied(s, Step(u, GetByte), n + 1)
  {
    hide Wire, Stream, Slot, WantsMore, Records, Content, Positions, Room, Unpublished;
    ReadsToTheEnd(s.accepted[|s.decoded|], u.worker.got);
    assert Taken(s.ring, s.Tail(), n) + [s.ring[(s.Tail() + n) % QUEUE_BYTES]] == Taken(s.ring, s.Tail(), n + 1);
  }

  lemma FirstGet(s: State)
    requires Inv(s) && s.worker.Polling? && |s.decoded| < |s.accepted|
    ensures HasCopied(s, Step(s, Load(|s.heads| - 1)), 0)
  {
    hide Wire, Stream, Slot, Records, Content, Room, Unpublished;
    EmptyExact(s, |s.accepted|);
    assert Taken(s.ring, s.Tail(), 0) == [];
  }

  /** `n` bytes into the oldest command not taken, with the invariant on both sides. */
  ghost predicate Copying(s: State, u: State, n: nat) {
    && Inv(s) && Inv(u) && |s.decoded| < |s.accepted| && n <= |Wire(s.accepted[|s.decoded|])|
    && HasCopied(s, u, n)
  }

  lemma OneCopy(s: State, u: State, n: nat, m: nat)
    requires Copying(s, u, n) && u.Shape() && n < m
    requires |s.decoded| < |s.accepted| && s.accepted[|s.decoded|].WF() && m <= |Wire(s.accepted[|s.decoded|])|
    ensures Copying(s, Step(u, GetByte), n + 1)
  {
    OneGet(s, u, n);
    StepKeeps(u, GetByte);
  }

  lemma {:induction false} GetsRead(s: State, u: State, n: nat)
    requires Copying(s, u, 0) && u.Shape()
    requires |s.decoded| < |s.accepted| && s.accepted[|s.decoded|].WF() && n <= |Wire(s.accepted[|s.decoded|])|
    ensures Copying(s, Run(u, Gets(n)), n)
  {
    hide Copying, Step, Wire;
    if n == 0 {
      assert Gets(0) == [];
      assert Run(u, []) == u;
    } else {
      hide Run;
      GetsRead(s, u, n - 1);
      RunSnoc(u, GetByte, n - 1);
      OneCopy(s, Run(u, Gets(n - 1)), n - 1, n);
    }
  }

  /** The steps of one turn of the worker on a ring that is not empty. */
  ghost function TakeAlone(s: State): (t: State)
    requires Inv(s) && s.worker.Polling? && |s.decoded| < |s.accepted|
    ensures Inv(t)
  {
    var actions := [Load(|s.heads| - 1)] + Gets(|Wire(s.accepted[|s.decoded|])|) + [Finish(true)];
    RunKeeps(s, actions);
    Run(s, actions)
  }

  lemma FinishRead(s: State, u: State)
    requires Inv(s) && Inv(u) && |s.decoded| < |s.accepted|
    requires HasCopied(s, u, |Wire(s.accepted[|s.decoded|])|)
    ensures var call := s.accepted[|s.decoded|];
            && Step(u, Finish(true)) ==
               s.(headsSeen := |s.heads| - 1, worker := Polling, decoded := s.decoded + [RecordOf(call)],
                  tails := s.tails + [(s.Tail() + HEADER_BYTES + call.cmd.size) % QUEUE_BYTES])
            && Taken(s.ring, s.Tail(), |Wire(call)|) == Wire(call)
  {
    hide Stream, Slot, Records, Content, Positions, Room, Unpublished, EncodeCommand, DecodeCommand, Payload;
    var call := s.accepted[|s.decoded|];
    ReadsToTheEnd(call, u.worker.got);
    assert u.worker.got == Wire(call);
    assert Wire(call)[HEADER_BYTES..] == Payload(call.parts);
  }

  /** Left alone, the worker takes exactly the oldest command it has not taken. */
  lemma TakeExact(s: State)
    requires Inv(s) && s.worker.Polling? && |s.decoded| < |s.accepted|
    ensures var call := s.accepted[|s.decoded|];
            && TakeAlone(s) ==
               s.(headsSeen := |s.heads| - 1, worker := Polling, decoded := s.decoded + [RecordOf(call)],
                  tails := s.tails + [(s.Tail() + HEADER_BYTES + call.cmd.size) % QUEUE_BYTES])
            && Taken(s.ring, s.Tail(), |Wire(call)|) == Wire(call)
  {
    var n := |Wire(s.accepted[|s.decoded|])|;
    var u := Step(s, Load(|s.heads| - 1));
    StepKeeps(s, Load(|s.heads| - 1));
    FirstGet(s);
    assert Copying(s, u, 0);
    GetsRead(s, u, n);
    FinishRead(s, Run(u, Gets(n)));
    TakeAloneSteps(s, u, n);
    hide *;
  }

  lemma TakeAloneIs(s: State)
    requires Inv(s) && s.worker.Polling? && |s.decoded| < |s.accepted| && s.Shape()
    ensures TakeAlone(s) == Run(s, [Load(|s.heads| - 1)] + Gets(|Wire(s.accepted[|s.decoded|])|) + [Finish(true)])
  {
    hide Wire, Run, Step, Gets, Positions, Room, Content, Unpublished, Copied, Fifo, Stopped;
  }

  lemma TakeAloneSteps(s: State, u: State, n: nat)
    requires Inv(s) && s.worker.Polling? && |s.decoded| < |s.accepted| && n == |Wire(s.accepted[|s.decoded|])|
    requires u == Step(s, Load(|s.heads| - 1)) && u.Shape()
    ensures TakeAlone(s) == Step(Run(u, Gets(n)), Finish(true))
  {
    TakeAloneIs(s);
    hide *;
    RunAround(s, Load(|s.heads| - 1), Gets(n), Finish(true));
  }
}
