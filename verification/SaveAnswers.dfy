/**
 What a visitor's change is answered, over whole runs of the save store, save_store.js: the
 answer is decided by what happened to that change alone. It is 'queued' or an error exactly
 when one of the events listed here was its lot; every other change is answered 'persisted'
 once its sync is over, or 'memory-only' when the browser gives no storage.
 */
module SaveAnswers {
  import opened Common
  import opened SaveStore

  // ── What decides an answer ────────────────────────────────────────

  /** A sync asked for now would start now. */
  predicate Starts(s: Store) { s.mounted && (s.state.Idle? || s.state.Failed?) }

  /** The event ends a sync with an error that is not retried: refused storage, or a fourth race in a row. */
  predicate SyncFails(w: World, e: Event) {
    match e
    case Mount(_) | Run(_) | Modify | Reply(_) => false
    case Loaded(works, applied, thrown) =>
      works && (true in applied || w.store.state.Again?) && thrown == Some(Refused)
    case Write(ok, thrown) => ok && Starts(w.store) && thrown == Some(Refused)
    case Nudge(thrown) => Starts(w.store) && thrown == Some(Refused)
    case Apply(_, works, thrown) => works && Starts(w.store) && thrown == Some(Refused)
    case Called(problem, _, thrown) =>
      if problem.Some? then problem.value.Refused? || w.store.attempt >= 3
      else w.store.state.Again? && thrown == Some(Refused)
    case Timer(thrown) => thrown.Some? && (thrown.value.Refused? || w.store.attempt >= 3)
  }

  /** The change has been applied and its sync is still awaited. */
  predicate Awaits(w: World, i: nat) {
    && i < |w.tasks| && w.tasks[i].Stored? && w.tasks[i].promise < |w.store.promises|
    && w.store.promises[w.tasks[i].promise].Pending?
  }

  /** The answer that event `e` settles for change `i`, if it settles one. */
  function Decides(w: World, e: Event, i: nat): Option<Answer> {
    if !Enabled(w, e) then None
    else if e.Modify? && i == |w.tasks| && w.running then Some(Rejection)
    else if e.Modify? && i == |w.tasks| && !w.fs then Some(Queued)
    else if e.Apply? && e.task == i && (!e.works || SyncFails(w, e)) then Some(Rejection)
    else if Awaits(w, i) && SyncFails(w, e) then Some(Rejection)
    else None
  }

  /** The first event of the run to settle an answer for change `i`. */
  function FirstDecision(w: World, events: seq<Event>, i: nat): Option<Answer>
    decreases |events|
  {
    if events == [] then None
    else if Decides(w, events[0], i).Some? then Decides(w, events[0], i)
    else FirstDecision(Step(w, events[0]), events[1..], i)
  }

  // ── One event on the store ────────────────────────────────────────

  /** What an event does to the promises there are: a failed sync rejects those that wait, nothing else rejects any. */
  ghost predicate Effect(s: Store, t: Store, fails: bool) {
    && |s.promises| <= |t.promises|
    && forall i :: 0 <= i < |s.promises| ==>
         if s.promises[i].Pending? then t.promises[i].Rejected? <==> fails else t.promises[i] == s.promises[i]
  }

  lemma PersistEffect(s: Store, n: nat, thrown: Option<Problem>)
    requires Waiting(s)
    ensures var t := Persist(CountPending(s, n), thrown);
            && Effect(s, t, Starts(s) && thrown == Some(Refused))
            && (t.state.Failed? <==> (Starts(s) && thrown == Some(Refused)) || (s.state.Failed? && !Starts(s)))
  {
    var u := CountPending(s, n).(attempt := 0);
    hide Persist, Settle, Sync;
    PersistExact(CountPending(s, n), thrown);
    if Starts(s) && thrown == Some(Refused) {
      RefusedAtOnce(CountPending(s, n));
    }
  }

  lemma RefusedAtOnce(s: Store)
    requires Waiting(s) && Starts(s)
    ensures Persist(s, Some(Refused)).promises == s.promises
  {
    hide Settle;
    SettleExact(s.(state := Failed, attempt := 0, syncSeq := s.changeSeq));
  }

  lemma SyncEffect(s: Store, thrown: Option<Problem>)
    requires s.WF() && forall i :: 0 <= i < |s.promises| ==> (s.promises[i].Pending? <==> i in s.waiters)
    ensures var t := Sync(s, thrown); var fails := thrown.Some? && (thrown.value.Refused? || s.attempt >= 3);
            Effect(s, t, fails) && (t.state.Failed? <==> fails)
  {
    hide Settle;
    if thrown.Some? {
      SyncFailedExact(s.(state := Syncing, syncSeq := s.changeSeq), thrown.value);
    }
  }

  lemma CalledEffect(w: World, problem: Option<Problem>, stored: nat, thrown: Option<Problem>)
    requires Inv(w) && Enabled(w, Called(problem, stored, thrown))
    ensures var t := CalledStep(w, problem, stored, thrown).store; var fails := SyncFails(w, Called(problem, stored, thrown));
            Effect(w.store, t, fails) && (t.state.Failed? <==> fails)
  {
    var s := w.store.(calls := w.store.calls - 1);
    hide SyncStored, SyncFailed;
    match problem
    case Some(p) => SyncFailedExact(s, p);
    case None => SyncStoredExact(s, thrown);
  }

  lemma LoadedEffect(w: World, works: bool, applied: seq<bool>, thrown: Option<Problem>)
    requires Inv(w) && Enabled(w, Loaded(works, applied, thrown))
    ensures var t := LoadedStep(w, works, applied, thrown).store; var fails := SyncFails(w, Loaded(works, applied, thrown));
            Effect(w.store, t, fails) && (t.state.Failed? <==> fails)
  {
    var s := CountPending(w.store.(state := if works then Idle else Unavailable), w.queued);
    hide Settle, Sync;
    SettleExact(s);
    SyncEffect(s.(attempt := 0), thrown);
  }

  lemma MountEffect(w: World, works: bool)
    requires Inv(w) && Enabled(w, Mount(works))
    ensures var t := MountStep(w, works).store; Effect(w.store, t, false) && !t.state.Failed?
  {
    hide Settle;
    SettleExact(CountPending(w.store.(state := Unavailable), w.queued));
  }

  lemma ApplyEffect(w: World, task: nat, works: bool, thrown: Option<Problem>)
    requires Inv(w) && Enabled(w, Apply(task, works, thrown))
    ensures var t := ApplyStep(w, task, works, thrown).store; var fails := SyncFails(w, Apply(task, works, thrown));
            Effect(w.store, t, fails) && (t.state.Failed? <==> fails || (w.store.state.Failed? && !(works && Starts(w.store))))
  {
    var t := Persist(CountPending(w.store, 1), thrown);
    PersistEffect(w.store, 1, thrown);
    FlushExact(t);
    hide Persist, Flush;
    assert forall i :: 0 <= i < |t.promises| ==> Flush(t).promises[i] == Flush(t).promises[..|t.promises|][i];
  }

  /** Storage reports an error exactly on the events of SyncFails, and while nothing else is tried after one. */
  lemma FailureExact(w: World, e: Event)
    requires Inv(w) && Enabled(w, e)
    ensures SyncFails(w, e) ==> Step(w, e).store.state.Failed?
    ensures Step(w, e).store.state.Failed? ==> SyncFails(w, e) || w.store.state.Failed?
    ensures Effect(w.store, Step(w, e).store, SyncFails(w, e))
  {
    hide Persist, Sync, Flush, MountStep, LoadedStep, CalledStep, ApplyStep;
    match e
    case Mount(works) => MountEffect(w, works);
    case Loaded(works, applied, thrown) => LoadedEffect(w, works, applied, thrown);
    case Run(_) =>
    case Write(ok, thrown) => PersistEffect(w.store, 1, thrown);
    case Nudge(thrown) =>
      PersistEffect(w.store, 0, thrown);
      assert CountPending(w.store, 0) == w.store;
    case Called(problem, stored, thrown) => CalledEffect(w, problem, stored, thrown);
    case Timer(thrown) => SyncEffect(w.store.(timers := w.store.timers - 1), thrown);
    case Modify => ModifyEffect(w);
    case Apply(task, works, thrown) => ApplyEffect(w, task, works, thrown);
    case Reply(task) =>
  }

  lemma ModifyEffect(w: World)
    ensures var t := ModifyStep(w).store; Effect(w.store, t, false) && t.state == w.store.state
  {
    FlushExact(w.store);
    hide Flush;
    var t := Flush(w.store);
    assert forall i :: 0 <= i < |w.store.promises| ==> t.promises[i] == t.promises[..|w.store.promises|][i];
  }

  // ── One event on a change ─────────────────────────────────────────

  /** The answer the page already carries for change `i`: given, or sure to be given on its reply. */
  ghost function Decided(w: World, i: nat): Option<Answer> {
    if i >= |w.tasks| then None
    else
      match w.tasks[i]
      case Turn(_) => None
      case Stored(_, p) =>
        if p < |w.store.promises| && w.store.promises[p].Rejected? then Some(Rejection) else None
      case Answered(_, a) => if a.Rejection? || a.Queued? then Some(a) else None
  }

  /** Only its own three events move a change; every other leaves the list of changes alone, or adds the next. */
  lemma TasksExact(w: World, e: Event, i: nat)
    requires Enabled(w, e)
    ensures !e.Modify? ==> |Step(w, e).tasks| == |w.tasks|
    ensures e.Modify? ==>
              var t := Step(w, e).tasks;
              && |t| == |w.tasks| + 1 && t[..|w.tasks|] == w.tasks
              && t[|w.tasks|] ==
                   if w.running then Answered(0, Rejection)
                   else if !w.fs then Answered(0, Queued) else Turn(|w.store.promises|)
    ensures i < |w.tasks| && !(e.Apply? && e.task == i) && !(e.Reply? && e.task == i) ==> Step(w, e).tasks[i] == w.tasks[i]
  {
    hide Persist, Sync, Flush, SyncStored, SyncFailed, Settle;
  }

  /** A change is numbered as it is applied, whether or not that works, and a sync is asked for if there is storage. */
  lemma AppliedExact(w: World, i: nat, works: bool, thrown: Option<Problem>)
    requires Inv(w) && Enabled(w, Apply(i, works, thrown))
    ensures var v := Step(w, Apply(i, works, thrown)); var n := w.store.changeSeq + 1;
            && v.store.changeSeq == n && i < |v.tasks|
            && v.tasks[i] == (if !works then Answered(n, Rejection)
                              else if !w.store.mounted || w.store.state.Unavailable? then Answered(n, MemoryOnly)
                              else Stored(n, |w.store.promises|))
            && (v.tasks[i].Stored? ==>
                  && |v.store.promises| == |w.store.promises| + 1
                  && v.store.promises[|w.store.promises|] == if SyncFails(w, Apply(i, works, thrown)) then Rejected else Pending)
  {
    var s := CountPending(w.store, 1);
    var t := Persist(s, thrown);
    PersistEffect(w.store, 1, thrown);
    PersistExact(s, thrown);
    PersistLength(w.store, thrown);
    FlushExact(t);
    hide Persist, Flush;
  }

  lemma PersistLength(s: Store, thrown: Option<Problem>)
    ensures |Persist(CountPending(s, 1), thrown).promises| == |s.promises|
    ensures Persist(CountPending(s, 1), thrown).changeSeq == s.changeSeq + 1
  {
  }

  /** A waiting change is answered as soon as its promise is settled, by the promise and the count alone. */
  lemma ReplyExact(w: World, i: nat)
    requires Inv(w) && Covered(w) && i < |w.tasks| && w.tasks[i].Stored?
    requires !w.store.promises[w.tasks[i].promise].Pending?
    ensures Enabled(w, Reply(i))
    ensures var v := Step(w, Reply(i)); var n := w.tasks[i].seqNo;
            && v.store == w.store
            && v.tasks[i] ==
                 if w.store.promises[w.tasks[i].promise].Rejected? then Answered(n, Rejection)
                 else if n <= w.store.persistedSeq then Answered(n, Persisted) else Answered(n, MemoryOnly)
  {
  }

  lemma DisabledStays(w: World, e: Event)
    requires !Enabled(w, e)
    ensures Step(w, e) == w
  {
  }

  lemma AppliedDecides(w: World, i: nat, works: bool, thrown: Option<Problem>)
    requires Inv(w) && Enabled(w, Apply(i, works, thrown))
    ensures Decided(w, i).None? && Decided(Step(w, Apply(i, works, thrown)), i) == Decides(w, Apply(i, works, thrown), i)
  {
    hide Inv, Step;
    AppliedExact(w, i, works, thrown);
    FailingStarts(w, i, works, thrown);
  }

  /** A change that fails to be stored at once had a storage to fail. */
  lemma FailingStarts(w: World, i: nat, works: bool, thrown: Option<Problem>)
    ensures SyncFails(w, Apply(i, works, thrown)) ==> works && w.store.mounted && !w.store.state.Unavailable?
  {
  }

  lemma ReplyDecides(w: World, i: nat)
    requires Inv(w) && Covered(w) && Enabled(w, Reply(i))
    ensures Decided(Step(w, Reply(i)), i) == Decided(w, i) && Decides(w, Reply(i), i).None?
  {
    ReplyExact(w, i);
    hide Inv, Covered, Step;
  }

  /** The change is there and the event is not its own: only the settling of its promise concerns it. */
  lemma OtherDecides(w: World, e: Event, i: nat)
    requires Inv(w) && Covered(w) && Enabled(w, e) && i < |w.tasks| <= |Step(w, e).tasks|
    requires !(e.Apply? && e.task == i) && Step(w, e).tasks[i] == w.tasks[i]
    requires Effect(w.store, Step(w, e).store, SyncFails(w, e))
    ensures Decided(Step(w, e), i) == if Decided(w, i).Some? then Decided(w, i) else Decides(w, e, i)
  {
    assert CoveredTask(w.store, w.loading, w.tasks[i]);
    hide Inv, Covered, Step, SyncFails;
  }

  lemma NewDecides(w: World, e: Event, i: nat)
    requires Enabled(w, e) && i >= |w.tasks|
    requires |Step(w, e).tasks| == |w.tasks| + (if e.Modify? then 1 else 0)
    requires e.Modify? ==>
               Step(w, e).tasks[|w.tasks|] ==
                 if w.running then Answered(0, Rejection) else if !w.fs then Answered(0, Queued) else Turn(|w.store.promises|)
    ensures Decided(w, i).None? && Decided(Step(w, e), i) == Decides(w, e, i)
  {
    hide Step, SyncFails;
  }

  lemma StepDecides(w: World, e: Event, i: nat)
    requires Inv(w) && Covered(w)
    ensures Decided(Step(w, e), i) == if Decided(w, i).Some? then Decided(w, i) else Decides(w, e, i)
  {
    hide Inv, Covered, Step, Decided;
    if !Enabled(w, e) {
      DisabledStays(w, e);
    } else {
      hide Enabled, Decides;
      TasksExact(w, e, i);
      FailureExact(w, e);
      if e.Apply? && e.task == i {
        AppliedDecides(w, i, e.works, e.thrown);
      } else if e.Reply? && e.task == i {
        ReplyDecides(w, i);
      } else if i < |w.tasks| {
        OtherDecides(w, e, i);
      } else {
        NewDecides(w, e, i);
      }
    }
  }

  // ── Whole runs ────────────────────────────────────────────────────

  /** Nothing is counted as stored where there is no storage, and every applied change has a number. */
  ghost predicate Numbered(w: World) {
    && (!w.fs || w.loading || w.store.state.Unavailable? ==> w.store.persistedSeq == 0)
    && forall i :: 0 <= i < |w.tasks| ==> NumberedTask(w.tasks[i])
  }

  ghost predicate NumberedTask(t: Task) {
    match t
    case Turn(_) => true
    case Stored(n, _) => n > 0
    case Answered(n, a) => a.Persisted? ==> n > 0
  }

  lemma TasksNumbered(w: World, e: Event)
    requires Inv(w) && Covered(w) && Numbered(w)
    ensures forall i :: 0 <= i < |Step(w, e).tasks| ==> NumberedTask(Step(w, e).tasks[i])
  {
    hide Inv, Covered, Step;
    if !Enabled(w, e) {
      DisabledStays(w, e);
    } else {
      forall i | 0 <= i < |Step(w, e).tasks| ensures NumberedTask(Step(w, e).tasks[i]) {
        TasksExact(w, e, i);
        if e.Apply? && e.task == i {
          AppliedExact(w, i, e.works, e.thrown);
        } else if e.Reply? && e.task == i {
          ReplyExact(w, i);
        } else if i < |w.tasks| {
          assert NumberedTask(w.tasks[i]);
        }
      }
    }
  }

  lemma StorageNumbered(w: World, e: Event)
    requires Inv(w) && Numbered(w)
    ensures var v := Step(w, e); !v.fs || v.loading || v.store.state.Unavailable? ==> v.store.persistedSeq == 0
  {
    hide Settled;
  }

  lemma {:induction false} RunDecides(w: World, events: seq<Event>, i: nat)
    requires Inv(w) && Covered(w) && Numbered(w)
    ensures var v := RunAll(w, events);
            && Inv(v) && Covered(v) && Numbered(v)
            && Decided(v, i) == if Decided(w, i).Some? then Decided(w, i) else FirstDecision(w, events, i)
    decreases |events|
  {
    hide Inv, Covered, Step, Decided, Decides, NumberedTask;
    if events != [] {
      var v := Step(w, events[0]);
      StepKeeps(w, events[0]);
      StepCovers(w, events[0]);
      StepDecides(w, events[0], i);
      TasksNumbered(w, events[0]);
      StorageNumbered(w, events[0]);
      RunDecides(v, events[1..], i);
    }
  }

  /** What an answered change has been told, when nothing decided otherwise. */
  lemma GivenAnswer(w: World, i: nat)
    requires Inv(w) && Covered(w) && Numbered(w) && i < |w.tasks| && w.tasks[i].Answered? && Decided(w, i).None?
    ensures w.tasks[i].answer == if w.store.state.Unavailable? then MemoryOnly else Persisted
    ensures w.tasks[i].answer.Persisted? ==> 0 < w.tasks[i].seqNo <= w.store.persistedSeq <= w.stored
  {
    assert CoveredTask(w.store, w.loading, w.tasks[i]);
    assert NumberedTask(w.tasks[i]);
  }

  /**
   Whatever events come in whatever order, every answer is the right one: 'queued' exactly for a
   change made before there was a file system; an error exactly for one made while a game ran, one
   that could not be applied and one whose sync ended in an error while it waited; and of the others
   'memory-only' exactly when the browser gives no storage, 'persisted' otherwise, and then it is stored.
   */
  lemma AnswersExact(events: seq<Event>, i: nat)
    requires i < |RunAll(Opened, events).tasks| && RunAll(Opened, events).tasks[i].Answered?
    ensures var v := RunAll(Opened, events); var decided := FirstDecision(Opened, events, i);
            && v.tasks[i].answer == (if decided.Some? then decided.value
                                     else if v.store.state.Unavailable? then MemoryOnly else Persisted)
            && (v.tasks[i].answer.Persisted? ==> 0 < v.tasks[i].seqNo <= v.stored)
  {
    OpenedInv();
    OpenedUndecided(i);
    hide *;
    RunDecides(Opened, events, i);
    AnswerDecided(RunAll(Opened, events), i);
  }

  lemma OpenedUndecided(i: nat)
    ensures Numbered(Opened) && Decided(Opened, i).None?
  {
  }

  lemma AnswerDecided(w: World, i: nat)
    requires Inv(w) && Covered(w) && Numbered(w) && i < |w.tasks| && w.tasks[i].Answered?
    ensures Decided(w, i).Some? ==> w.tasks[i].answer == Decided(w, i).value
    ensures Decided(w, i).None? ==> w.tasks[i].answer == if w.store.state.Unavailable? then MemoryOnly else Persisted
    ensures w.tasks[i].answer.Persisted? ==> 0 < w.tasks[i].seqNo <= w.stored
  {
    hide Inv, Covered, Numbered;
    if Decided(w, i).None? {
      GivenAnswer(w, i);
    }
  }

  /** From any moment of any run: a change that waits, and whose wait no failure ends, is stored when it is answered. */
  lemma WaitIsStored(w: World, events: seq<Event>, i: nat)
    requires Inv(w) && Covered(w) && Numbered(w) && Awaits(w, i)
    requires FirstDecision(w, events, i).None?
    requires var v := RunAll(w, events); i < |v.tasks| && v.tasks[i].Answered? && !v.store.state.Unavailable?
    ensures var v := RunAll(w, events); v.tasks[i].answer == Persisted && 0 < v.tasks[i].seqNo <= v.stored
  {
    RunDecides(w, events, i);
    hide Inv, Covered, Numbered, FirstDecision;
    AnswerDecided(RunAll(w, events), i);
  }
}
