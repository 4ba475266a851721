/**
 Browser save persistence, save_store.js: changes are counted, syncs to IndexedDB are
 coalesced so that one is in flight at a time, races are retried, and the page may say
 "stored" only when it is true.
 */
module SaveStore {
  import opened Common

  const FS_RETRIES: nat := 3

  datatype Status = Idle | Syncing | Again | Failed | Unavailable

  datatype Promise = Pending | Resolved | Rejected

  /** Why a sync did not complete: a file vanished under it, or IndexedDB refused. */
  datatype Problem = Raced | Refused

  /**
   The store and what it is waiting for: `calls` is the number of `syncfs` callbacks not yet
   made, `timers` the number of retry timers not yet fired. A flush that has to wait is an
   index into `promises`.
   */
  datatype Store = Store(
    state: Status, mounted: bool, changeSeq: nat, persistedSeq: nat, syncSeq: nat, attempt: nat,
    waiters: seq<nat>, promises: seq<Promise>, calls: nat, timers: nat)
  {
    predicate Busy() { state.Syncing? || state.Again? }
    predicate Unsaved() { Busy() || changeSeq > persistedSeq }
    predicate WF() { forall i :: 0 <= i < |waiters| ==> waiters[i] < |promises| }
  }

  // ── The operations ────────────────────────────────────────────────

  function Settled(promises: seq<Promise>, waiters: seq<nat>, p: Promise): (r: seq<Promise>)
    ensures |r| == |promises|
  {
    seq(|promises|, i requires 0 <= i < |promises| => if i in waiters then p else promises[i])
  }

  function Settle(s: Store): Store {
    if s.Busy() then s
    else s.(waiters := [], promises := Settled(s.promises, s.waiters, if s.state.Failed? then Rejected else Resolved))
  }

  /** `synced` with an error. */
  function SyncFailed(s: Store, problem: Problem): Store {
    if problem.Raced? && s.attempt < FS_RETRIES
    then s.(attempt := s.attempt + 1, state := Again, timers := s.timers + 1)
    else Settle(s.(attempt := 0, state := Failed))
  }

  /** `sync`; `thrown` is what `syncfs` throws at once instead of calling back. */
  function Sync(s: Store, thrown: Option<Problem>): Store {
    var t := s.(state := Syncing, syncSeq := s.changeSeq);
    match thrown
    case None => t.(calls := t.calls + 1)
    case Some(problem) => SyncFailed(t, problem)
  }

  /** `synced` without an error. */
  function SyncStored(s: Store, thrown: Option<Problem>): Store {
    var t := s.(attempt := 0, persistedSeq := Max(s.persistedSeq, s.syncSeq));
    if t.state.Again? then Sync(t, thrown) else Settle(t.(state := Idle))
  }

  predicate CanPersist(s: Store) { s.mounted && !s.state.Unavailable? }

  function Persist(s: Store, thrown: Option<Problem>): Store {
    if !CanPersist(s) then s
    else if s.Busy() then s.(state := Again)
    else Sync(s.(attempt := 0), thrown)
  }

  /** A notice that the runtime wrote; a failed write changes nothing here. */
  function OnWrite(s: Store, ok: bool, thrown: Option<Problem>): Store {
    if !ok then s else Persist(s.(changeSeq := s.changeSeq + 1), thrown)
  }

  /** `flush` always adds a promise, already settled unless something is pending. */
  function Flush(s: Store): Store {
    var n := |s.promises|;
    if s.state.Failed? then s.(promises := s.promises + [Rejected])
    else if !s.Busy() then s.(promises := s.promises + [Resolved])
    else s.(promises := s.promises + [Pending], waiters := s.waiters + [n])
  }

  // ── What each operation does, told from the fields ────────────────

  /** Waiters are woken only when nothing is under way: with an error after a failed sync, without one otherwise. */
  lemma SettleExact(s: Store)
    requires s.WF()
    ensures s.state.Syncing? || s.state.Again? ==> Settle(s) == s
    ensures !(s.state.Syncing? || s.state.Again?) ==>
              var t := Settle(s);
              && t == s.(waiters := [], promises := t.promises) && |t.promises| == |s.promises|
              && forall i :: 0 <= i < |s.promises| ==>
                   t.promises[i] ==
                     if i !in s.waiters then s.promises[i] else if s.state.Failed? then Rejected else Resolved
  {
  }

  /** A race is retried by timer, at most three times; anything else is reported, and every waiter with it. */
  lemma SyncFailedExact(s: Store, problem: Problem)
    requires s.WF()
    ensures problem.Raced? && s.attempt < 3 ==>
              SyncFailed(s, problem) == s.(attempt := s.attempt + 1, state := Again, timers := s.timers + 1)
    ensures !(problem.Raced? && s.attempt < 3) ==>
              var t := SyncFailed(s, problem);
              && t == s.(state := Failed, attempt := 0, waiters := [], promises := t.promises)
              && |t.promises| == |s.promises|
              && forall i :: 0 <= i < |s.promises| ==>
                   t.promises[i] == if i in s.waiters then Rejected else s.promises[i]
  {
    hide Settle;
    SettleExact(s.(attempt := 0, state := Failed));
  }

  /** A sync starts by noting the newest change; it makes one call, or fails at once. */
  lemma SyncExact(s: Store, thrown: Option<Problem>)
    ensures thrown.None? ==> Sync(s, thrown) == s.(state := Syncing, syncSeq := s.changeSeq, calls := s.calls + 1)
    ensures Sync(s, Some(Refused)).state.Failed? && Sync(s, Some(Refused)).syncSeq == s.changeSeq
    ensures s.attempt < 3 ==>
              Sync(s, Some(Raced)) ==
              s.(state := Again, syncSeq := s.changeSeq, attempt := s.attempt + 1, timers := s.timers + 1)
  {
    hide Settled;
  }

  /**
   A stored sync stores every change up to the newest when it began. If more were asked for meanwhile
   the next begins; otherwise every waiter, and nobody else, is told that his change is stored.
   */
  lemma SyncStoredExact(s: Store, thrown: Option<Problem>)
    requires s.WF()
    ensures SyncStored(s, thrown).persistedSeq == if s.persistedSeq < s.syncSeq then s.syncSeq else s.persistedSeq
    ensures !s.state.Again? ==>
              var t := SyncStored(s, thrown);
              && t == s.(state := Idle, attempt := 0, waiters := [], persistedSeq := t.persistedSeq, promises := t.promises)
              && |t.promises| == |s.promises|
              && forall i :: 0 <= i < |s.promises| ==>
                   t.promises[i] == if i in s.waiters then Resolved else s.promises[i]
    ensures s.state.Again? && thrown.None? ==>
              var t := SyncStored(s, thrown);
              t == s.(state := Syncing, attempt := 0, persistedSeq := t.persistedSeq, syncSeq := s.changeSeq, calls := s.calls + 1)
    ensures s.state.Again? && thrown == Some(Raced) ==>
              var t := SyncStored(s, thrown);
              && t.state.Again? && t.attempt == 1 && t.timers == s.timers + 1
              && t.promises == s.promises && t.waiters == s.waiters
    ensures s.state.Again? && thrown == Some(Refused) ==>
              var t := SyncStored(s, thrown);
              && t.state.Failed? && |t.promises| == |s.promises|
              && forall i :: 0 <= i < |s.promises| ==>
                   t.promises[i] == if i in s.waiters then Rejected else s.promises[i]
  {
    hide Settle;
    var t := s.(attempt := 0, persistedSeq := Max(s.persistedSeq, s.syncSeq));
    if t.state.Again? {
      SyncFailedExact(t.(state := Syncing, syncSeq := s.changeSeq), Refused);
    } else {
      SettleExact(t.(state := Idle));
    }
  }

  /** Nothing is asked for without a mounted, working storage; a busy store asks again; any other starts afresh. */
  lemma PersistExact(s: Store, thrown: Option<Problem>)
    ensures !s.mounted || s.state.Unavailable? ==> Persist(s, thrown) == s
    ensures s.mounted && (s.state.Syncing? || s.state.Again?) ==> Persist(s, thrown) == s.(state := Again)
    ensures s.mounted && (s.state.Idle? || s.state.Failed?) && thrown.None? ==>
              Persist(s, thrown) == s.(state := Syncing, attempt := 0, syncSeq := s.changeSeq, calls := s.calls + 1)
    ensures s.mounted && (s.state.Idle? || s.state.Failed?) && thrown == Some(Raced) ==>
              Persist(s, thrown) == s.(state := Again, attempt := 1, syncSeq := s.changeSeq, timers := s.timers + 1)
    ensures s.mounted && (s.state.Idle? || s.state.Failed?) && thrown == Some(Refused) ==>
              Persist(s, thrown).state.Failed?
  {
    hide Settle, Sync;
    SyncExact(s.(attempt := 0), thrown);
  }

  /** Every successful write of the runtime is counted and asked for; a failed one is neither. */
  lemma WriteExact(s: Store, ok: bool, thrown: Option<Problem>)
    ensures !ok ==> OnWrite(s, ok, thrown) == s
    ensures ok ==>
              var t := OnWrite(s, ok, thrown);
              && t.changeSeq == s.changeSeq + 1 && t.persistedSeq == s.persistedSeq
              && (s.mounted && (s.state.Idle? || s.state.Failed?) ==> t.syncSeq == t.changeSeq)
              && (s.mounted && (s.state.Syncing? || s.state.Again?) ==> t.state.Again? && t.syncSeq == s.syncSeq)
              && (thrown.None? && s.mounted && (s.state.Idle? || s.state.Failed?) ==> t.state.Syncing? && t.calls == s.calls + 1)
  {
    hide Settled;
  }

  /** A flush is over at once unless something is under way. */
  lemma FlushExact(s: Store)
    ensures var t := Flush(s); var n := |s.promises|;
            && |t.promises| == n + 1 && t.promises[..n] == s.promises
            && t == s.(promises := t.promises, waiters := t.waiters)
            && t.waiters == (if s.state.Syncing? || s.state.Again? then s.waiters + [n] else s.waiters)
            && t.promises[n] == if s.state.Failed? then Rejected else if s.state.Syncing? || s.state.Again? then Pending else Resolved
  {
  }

  /** The class, operation by operation. */
  class Page {
    var state: Status
    var mounted: bool
    var changeSeq: nat
    var persistedSeq: nat
    var syncSeq: nat
    var attempt: nat
    var waiters: seq<nat>
    var promises: seq<Promise>
    var calls: nat
    var timers: nat

    ghost function View(): Store
      reads this
    {
      Store(state, mounted, changeSeq, persistedSeq, syncSeq, attempt, waiters, promises, calls, timers)
    }

    constructor ()
      ensures View() == Store(Idle, false, 0, 0, 0, 0, [], [], 0, 0)
    {
      state, mounted, changeSeq, persistedSeq, syncSeq, attempt := Idle, false, 0, 0, 0, 0;
      waiters, promises, calls, timers := [], [], 0, 0;
    }

    method SettleWaiters()
      requires View().WF()
      modifies this`waiters, this`promises
      ensures View() == Settle(old(View()))
      ensures |promises| == |old(promises)|
      ensures var busy := state.Syncing? || state.Again?;
              && waiters == (if busy then old(waiters) else [])
              && forall i :: 0 <= i < |promises| ==>
                   promises[i] ==
                     if busy || i !in old(waiters) then old(promises[i])
                     else if state.Failed? then Rejected else Resolved
    {
      SettleExact(View());
      if state.Syncing? || state.Again? {
        return;
      }
      var mine := waiters;
      waiters := [];
      var p := if state.Failed? then Rejected else Resolved;
      for i := 0 to |mine|
        invariant waiters == [] && promises == Settled(old(promises), mine[..i], p)
      {
        assert mine[..i + 1] == mine[..i] + [mine[i]];
        promises := promises[mine[i] := p];
      }
      assert mine[..|mine|] == mine;
    }

    method SyncedWithError(problem: Problem)
      requires View().WF()
      modifies this
      ensures View() == SyncFailed(old(View()), problem)
      ensures problem.Raced? && old(attempt) < 3 ==>
                state.Again? && attempt == old(attempt) + 1 && timers == old(timers) + 1 && promises == old(promises)
      ensures !(problem.Raced? && old(attempt) < 3) ==>
                && state.Failed? && attempt == 0 && timers == old(timers) && waiters == [] && |promises| == |old(promises)|
                && forall i :: 0 <= i < |promises| ==>
                     promises[i] == if i in old(waiters) then Rejected else old(promises[i])
    {
      SyncFailedExact(View(), problem);
      if problem.Raced? && attempt < FS_RETRIES {
        attempt := attempt + 1;
        state := Again;
        timers := timers + 1;
        return;
      }
      attempt := 0;
      state := Failed;
      SettleWaiters();
    }

    method StartSync(thrown: Option<Problem>)
      requires View().WF()
      modifies this
      ensures View() == Sync(old(View()), thrown)
    {
      state := Syncing;
      syncSeq := changeSeq;
      match thrown {
        case None => calls := calls + 1;
        case Some(problem) => SyncedWithError(problem);
      }
    }

    method SyncedWithSuccess(thrown: Option<Problem>)
      requires View().WF()
      modifies this
      ensures View() == SyncStored(old(View()), thrown)
      ensures persistedSeq == if old(persistedSeq) < old(syncSeq) then old(syncSeq) else old(persistedSeq)
      ensures !old(state).Again? ==>
                && state.Idle? && attempt == 0 && calls == old(calls) && waiters == [] && |promises| == |old(promises)|
                && forall i :: 0 <= i < |promises| ==>
                     promises[i] == if i in old(waiters) then Resolved else old(promises[i])
      ensures old(state).Again? && thrown.None? ==>
                && state.Syncing? && syncSeq == old(changeSeq) && calls == old(calls) + 1
                && promises == old(promises) && waiters == old(waiters)
    {
      SyncStoredExact(View(), thrown);
      attempt := 0;
      persistedSeq := if persistedSeq >= syncSeq then persistedSeq else syncSeq;
      if state.Again? {
        StartSync(thrown);
        return;
      }
      state := Idle;
      SettleWaiters();
    }

    method PersistNow(thrown: Option<Problem>) returns (accepted: bool)
      requires View().WF()
      modifies this
      ensures View() == Persist(old(View()), thrown)
      ensures accepted == CanPersist(old(View()))
    {
      if !mounted || state.Unavailable? {
        return false;
      }
      if state.Syncing? || state.Again? {
        state := Again;
        return true;
      }
      attempt := 0;
      StartSync(thrown);
      accepted := true;
    }

    method Notice(ok: bool, thrown: Option<Problem>)
      requires View().WF()
      modifies this
      ensures View() == OnWrite(old(View()), ok, thrown)
    {
      if !ok {
        return;
      }
      changeSeq := changeSeq + 1;
      var _ := PersistNow(thrown);
    }

    method FlushAll() returns (promise: nat)
      modifies this`promises, this`waiters
      ensures View() == Flush(old(View())) && promise == |old(promises)|
    {
      promise := |promises|;
      if state.Failed? {
        promises := promises + [Rejected];
      } else if !(state.Syncing? || state.Again?) {
        promises := promises + [Resolved];
      } else {
        promises := promises + [Pending];
        waiters := waiters + [promise];
      }
    }
  }

  // ── The page's life ───────────────────────────────────────────────

  datatype Answer = Queued | Persisted | MemoryOnly | Rejection

  /** A visitor's change: waiting for its turn, waiting for its sync, or answered. */
  datatype Task = Turn(promise: nat) | Stored(seqNo: nat, promise: nat) | Answered(seqNo: nat, answer: Answer)

  /**
   `stored` is the newest change such that it and all before it are in IndexedDB. `loading`
   covers the first load and the migration; `queued` counts changes made before there was a
   file system.
   */
  datatype World = World(store: Store, fs: bool, loading: bool, running: bool, queued: nat, stored: nat, tasks: seq<Task>)

  datatype Event =
    | Mount(works: bool)
    | Loaded(works: bool, applied: seq<bool>, thrown: Option<Problem>)
    | Run(running: bool)
    | Write(ok: bool, thrown: Option<Problem>)
    | Nudge(thrown: Option<Problem>)
    | Called(problem: Option<Problem>, stored: nat, thrown: Option<Problem>)
    | Timer(thrown: Option<Problem>)
    | Modify
    | Apply(task: nat, works: bool, thrown: Option<Problem>)
    | Reply(task: nat)

  /** Some of the queued changes may fail half-way; each has been counted. */
  function CountPending(s: Store, n: nat): Store { s.(changeSeq := s.changeSeq + n) }

  predicate Enabled(w: World, e: Event) {
    match e
    case Mount(_) => !w.fs
    case Loaded(_, applied, _) => w.loading && |applied| == w.queued
    case Run(_) | Write(_, _) | Nudge(_) | Modify => true
    case Called(problem, stored, _) =>
      w.store.calls > 0 && w.stored <= stored <= w.store.changeSeq && (problem.None? ==> w.store.syncSeq <= stored)
    case Timer(_) => w.store.timers > 0
    case Apply(task, _, _) =>
      task < |w.tasks| && w.tasks[task].Turn? && w.tasks[task].promise < |w.store.promises|
      && !w.store.promises[w.tasks[task].promise].Pending?
    case Reply(task) =>
      task < |w.tasks| && w.tasks[task].Stored? && w.tasks[task].promise < |w.store.promises|
      && !w.store.promises[w.tasks[task].promise].Pending?
  }

  function MountStep(w: World, works: bool): World {
    if works then w.(fs := true, loading := true, store := w.store.(mounted := true, state := Syncing))
    else
      var s := CountPending(w.store.(state := Unavailable), w.queued);
      w.(fs := true, queued := 0, store := Settle(s))
  }

  function LoadedStep(w: World, works: bool, applied: seq<bool>, thrown: Option<Problem>): World {
    var s := CountPending(w.store.(state := if works then Idle else Unavailable), w.queued);
    var t := if works && (true in applied || w.store.state.Again?) then Persist(s, thrown) else Settle(s);
    w.(loading := false, queued := 0, store := t)
  }

  /**
   Where there is a file system a load begins; without one the queued changes are counted all the
   same, nothing will ever be stored, and nobody is kept waiting.
   */
  lemma MountExact(w: World, works: bool)
    requires w.store.WF()
    ensures var v := MountStep(w, works);
            && v.fs && v.running == w.running && v.stored == w.stored && v.tasks == w.tasks
            && (works ==> v == w.(fs := true, loading := true, store := w.store.(mounted := true, state := Syncing)))
            && (!works ==>
                  && v.store.state.Unavailable? && v.store.mounted == w.store.mounted && v.queued == 0 && v.loading == w.loading
                  && v.store.changeSeq == w.store.changeSeq + w.queued && v.store.persistedSeq == w.store.persistedSeq
                  && v.store.waiters == [] && |v.store.promises| == |w.store.promises|
                  && forall i :: 0 <= i < |v.store.promises| ==>
                       v.store.promises[i] == if i in w.store.waiters then Resolved else w.store.promises[i])
  {
    hide Settle;
    SettleExact(CountPending(w.store.(state := Unavailable), w.queued));
  }

  /**
   A load that works asks for a sync if it applied a queued change or one was asked for meanwhile,
   and is at rest otherwise; one that does not leaves no storage. Either way the queue is counted.
   */
  lemma LoadedExact(w: World, works: bool, applied: seq<bool>, thrown: Option<Problem>)
    requires w.store.WF() && w.store.mounted
    ensures var v := LoadedStep(w, works, applied, thrown); var asked := true in applied || w.store.state.Again?;
            && !v.loading && v.queued == 0 && v.fs == w.fs && v.tasks == w.tasks && v.stored == w.stored
            && v.store.changeSeq == w.store.changeSeq + w.queued && v.store.persistedSeq == w.store.persistedSeq
            && (!works ==> v.store.state.Unavailable? && v.store.waiters == [])
            && (works && !asked ==> v.store.state.Idle? && v.store.waiters == [] && v.store.calls == w.store.calls)
            && (works && asked && thrown.None? ==>
                  && v.store.state.Syncing? && v.store.syncSeq == v.store.changeSeq && v.store.calls == w.store.calls + 1
                  && v.store.waiters == w.store.waiters && v.store.promises == w.store.promises)
            && (!works || !asked ==> |v.store.promises| == |w.store.promises| && forall i :: 0 <= i < |v.store.promises| ==>
                  v.store.promises[i] == if i in w.store.waiters then Resolved else w.store.promises[i])
  {
    hide Settle, Sync, SyncFailed;
    var s := CountPending(w.store.(state := if works then Idle else Unavailable), w.queued);
    SettleExact(s);
    SyncExact(s.(attempt := 0), thrown);
    SyncCounts(s.(attempt := 0), thrown);
  }

  lemma SyncCounts(s: Store, thrown: Option<Problem>)
    ensures Sync(s, thrown).changeSeq == s.changeSeq && Sync(s, thrown).persistedSeq == s.persistedSeq
  {
    hide Settled;
  }

  /** The callback of `syncfs`; `stored` is how far IndexedDB has come. */
  function CalledStep(w: World, problem: Option<Problem>, stored: nat, thrown: Option<Problem>): World
    requires w.store.calls > 0
  {
    var s := w.store.(calls := w.store.calls - 1);
    w.(stored := stored, store := match problem { case None => SyncStored(s, thrown) case Some(p) => SyncFailed(s, p) })
  }

  function ModifyStep(w: World): World {
    if w.running then w.(tasks := w.tasks + [Answered(0, Rejection)])
    else if !w.fs then w.(queued := w.queued + 1, tasks := w.tasks + [Answered(0, Queued)])
    else w.(store := Flush(w.store), tasks := w.tasks + [Turn(|w.store.promises|)])
  }

  /** The change is applied and a sync asked for, once what was pending is over. */
  function ApplyStep(w: World, task: nat, works: bool, thrown: Option<Problem>): World
    requires task < |w.tasks|
  {
    var s := CountPending(w.store, 1);
    if !works then w.(store := s, tasks := w.tasks[task := Answered(s.changeSeq, Rejection)])
    else if !CanPersist(s) then w.(store := s, tasks := w.tasks[task := Answered(s.changeSeq, MemoryOnly)])
    else
      var t := Persist(s, thrown);
      w.(store := Flush(t), tasks := w.tasks[task := Stored(s.changeSeq, |t.promises|)])
  }

  function ReplyStep(w: World, task: nat): World
    requires Enabled(w, Reply(task))
  {
    var n := w.tasks[task].seqNo;
    var answer :=
      if w.store.promises[w.tasks[task].promise].Rejected? then Rejection
      else if w.store.persistedSeq >= n then Persisted else MemoryOnly;
    w.(tasks := w.tasks[task := Answered(n, answer)])
  }

  function Step(w: World, e: Event): World {
    if !Enabled(w, e) then w
    else
      match e
      case Mount(works) => MountStep(w, works)
      case Loaded(works, applied, thrown) => LoadedStep(w, works, applied, thrown)
      case Run(running) => w.(running := running)
      case Write(ok, thrown) => w.(store := OnWrite(w.store, ok, thrown))
      case Nudge(thrown) => w.(store := Persist(w.store, thrown))
      case Called(problem, stored, thrown) => CalledStep(w, problem, stored, thrown)
      case Timer(thrown) => w.(store := Sync(w.store.(timers := w.store.timers - 1), thrown))
      case Modify => ModifyStep(w)
      case Apply(task, works, thrown) => ApplyStep(w, task, works, thrown)
      case Reply(task) => ReplyStep(w, task)
  }

  function RunAll(w: World, events: seq<Event>): World
    decreases |events|
  {
    if events == [] then w else RunAll(Step(w, events[0]), events[1..])
  }

  const Opened: World := World(Store(Idle, false, 0, 0, 0, 0, [], [], 0, 0), false, false, false, 0, 0, [])

  // ── What holds at every moment ────────────────────────────────────

  /** One callback or timer is outstanding while a sync is under way, and none otherwise. */
  ghost predicate OneOutstanding(s: Store, loading: bool) {
    && s.calls + s.timers == (if s.Busy() && !loading then 1 else 0)
    && (s.timers > 0 ==> s.state.Again?)
    && (s.state.Again? && s.timers > 0 ==> s.attempt > 0)
    && (loading ==> s.Busy()) && s.attempt <= FS_RETRIES
  }

  /** A promise is pending exactly while it waits, and nobody waits for an idle store. */
  ghost predicate Waiting(s: Store) {
    && s.WF()
    && (forall i :: 0 <= i < |s.promises| ==> (s.promises[i].Pending? <==> i in s.waiters))
    && (!s.Busy() ==> s.waiters == [])
  }

  /** What is claimed to be stored is. */
  ghost predicate Counted(s: Store, stored: nat) {
    s.persistedSeq <= stored <= s.changeSeq && s.syncSeq <= s.changeSeq
  }

  /** A change answered 'persisted' has been. */
  ghost predicate TruthfulAnswers(tasks: seq<Task>, persistedSeq: nat) {
    forall i :: 0 <= i < |tasks| ==> tasks[i].Answered? && tasks[i].answer.Persisted? ==> tasks[i].seqNo <= persistedSeq
  }

  ghost predicate Inv(w: World) {
    && OneOutstanding(w.store, w.loading) && Waiting(w.store) && Counted(w.store, w.stored)
    && TruthfulAnswers(w.tasks, w.store.persistedSeq)
    && (!w.fs ==> w.store.state.Idle? && forall i :: 0 <= i < |w.tasks| ==> w.tasks[i].Answered?)
    && (w.store.mounted ==> w.fs) && (!w.store.mounted ==> !w.store.Busy()) && (w.loading ==> w.store.mounted)
  }

  lemma SettleWaits(s: Store)
    requires s.WF() && !s.Busy()
    requires forall i :: 0 <= i < |s.promises| ==> (s.promises[i].Pending? <==> i in s.waiters)
    ensures Waiting(Settle(s))
  {
  }

  lemma FlushWaits(s: Store)
    requires Waiting(s)
    ensures Waiting(Flush(s))
  {
    forall i | 0 <= i <= |s.promises| ensures i in s.waiters + [|s.promises|] <==> i in s.waiters || i == |s.promises| {
    }
  }

  /** Starting a sync with nothing outstanding leaves one thing outstanding, or none if it failed at once. */
  lemma SyncKeeps(s: Store, stored: nat, thrown: Option<Problem>)
    requires s.calls == 0 && s.timers == 0 && s.attempt <= FS_RETRIES && Counted(s, stored)
    requires s.WF() && forall i :: 0 <= i < |s.promises| ==> (s.promises[i].Pending? <==> i in s.waiters)
    ensures var t := Sync(s, thrown);
            && OneOutstanding(t, false) && Waiting(t) && Counted(t, stored)
            && t.persistedSeq == s.persistedSeq && t.mounted == s.mounted
  {
    hide Settle;
    var t := s.(state := Syncing, syncSeq := s.changeSeq);
    SettleWaits(t.(attempt := 0, state := Failed));
    SettleFields(t.(attempt := 0, state := Failed));
  }

  /** Settling touches promises only. */
  lemma SettleFields(s: Store)
    ensures Settle(s) == s.(waiters := Settle(s).waiters, promises := Settle(s).promises)
  {
  }

  lemma PersistKeeps(s: Store, loading: bool, stored: nat, thrown: Option<Problem>)
    requires OneOutstanding(s, loading) && Waiting(s) && Counted(s, stored)
    ensures var t := Persist(s, thrown);
            && OneOutstanding(t, loading) && Waiting(t) && Counted(t, stored)
            && t.persistedSeq == s.persistedSeq && t.mounted == s.mounted && (!s.mounted ==> t == s)
  {
    hide Sync;
    if CanPersist(s) && !s.Busy() {
      SyncKeeps(s.(attempt := 0), stored, thrown);
    }
  }

  lemma CalledKeeps(w: World, problem: Option<Problem>, stored: nat, thrown: Option<Problem>)
    requires Inv(w) && Enabled(w, Called(problem, stored, thrown))
    ensures Inv(CalledStep(w, problem, stored, thrown))
  {
    hide Settle, Sync;
    var s := w.store.(calls := w.store.calls - 1);
    match problem
    case Some(p) =>
      SettleWaits(s.(attempt := 0, state := Failed));
      SettleFields(s.(attempt := 0, state := Failed));
    case None =>
      var t := s.(attempt := 0, persistedSeq := Max(s.persistedSeq, s.syncSeq));
      if t.state.Again? {
        SyncKeeps(t, stored, thrown);
      } else {
        SettleWaits(t.(state := Idle));
        SettleFields(t.(state := Idle));
      }
  }

  lemma LoadedKeeps(w: World, works: bool, applied: seq<bool>, thrown: Option<Problem>)
    requires Inv(w) && Enabled(w, Loaded(works, applied, thrown))
    ensures Inv(LoadedStep(w, works, applied, thrown))
  {
    hide Settle, Sync;
    var s := CountPending(w.store.(state := if works then Idle else Unavailable), w.queued);
    SettleWaits(s);
    SettleFields(s);
    SyncKeeps(s.(attempt := 0), w.stored, thrown);
  }

  lemma MountKeeps(w: World, works: bool)
    requires Inv(w) && Enabled(w, Mount(works))
    ensures Inv(MountStep(w, works))
  {
    hide Settle;
    var s := CountPending(w.store.(state := Unavailable), w.queued);
    SettleWaits(s);
    SettleFields(s);
  }

  lemma ApplyKeeps(w: World, task: nat, works: bool, thrown: Option<Problem>)
    requires Inv(w) && Enabled(w, Apply(task, works, thrown))
    ensures Inv(ApplyStep(w, task, works, thrown))
  {
    hide Persist;
    var s := CountPending(w.store, 1);
    PersistKeeps(s, w.loading, w.stored, thrown);
    FlushWaits(Persist(s, thrown));
  }

  lemma StepKeeps(w: World, e: Event)
    requires Inv(w)
    ensures Inv(Step(w, e))
  {
    hide Persist, Sync, Flush, MountStep, LoadedStep, CalledStep, ApplyStep;
    if Enabled(w, e) {
      match e
      case Mount(works) => MountKeeps(w, works);
      case Loaded(works, applied, thrown) => LoadedKeeps(w, works, applied, thrown);
      case Run(_) =>
      case Write(ok, thrown) => PersistKeeps(CountPending(w.store, 1), w.loading, w.stored, thrown);
      case Nudge(thrown) => PersistKeeps(w.store, w.loading, w.stored, thrown);
      case Called(problem, stored, thrown) => CalledKeeps(w, problem, stored, thrown);
      case Timer(thrown) => SyncKeeps(w.store.(timers := w.store.timers - 1), w.stored, thrown);
      case Modify => FlushKeeps(w.store);
      case Apply(task, works, thrown) => ApplyKeeps(w, task, works, thrown);
      case Reply(task) =>
    }
  }

  lemma FlushKeeps(s: Store)
    requires Waiting(s)
    ensures Waiting(Flush(s)) && Flush(s) == s.(waiters := Flush(s).waiters, promises := Flush(s).promises)
  {
    FlushWaits(s);
  }

  lemma {:induction false} RunKeeps(w: World, events: seq<Event>)
    requires Inv(w)
    ensures Inv(RunAll(w, events))
    decreases |events|
  {
    hide Inv, Step;
    if events != [] {
      StepKeeps(w, events[0]);
      RunKeeps(Step(w, events[0]), events[1..]);
    }
  }

  // ── What the visitor is told ──────────────────────────────────────

  /**
   A change waiting for its sync is covered by the one under way or by the one that must
   follow it; once its wait is over without an error it is stored, unless there is no storage.
   */
  ghost predicate CoveredTask(s: Store, loading: bool, t: Task) {
    match t
    case Turn(_) => true
    case Stored(n, p) =>
      n <= s.changeSeq && p < |s.promises|
      && (s.promises[p].Pending? ==> s.state.Again? || (!loading && n <= s.syncSeq))
      && (s.promises[p].Resolved? ==> n <= s.persistedSeq || s.state.Unavailable?)
    case Answered(_, answer) => answer.MemoryOnly? ==> s.state.Unavailable?
  }

  ghost predicate Covered(w: World) {
    && (forall i :: 0 <= i < |w.tasks| ==> CoveredTask(w.store, w.loading, w.tasks[i]))
    && (w.fs && !w.store.mounted ==> w.store.state.Unavailable?)
  }

  /** What a step of the store may do to a task that is not its own. */
  ghost predicate Carries(s: Store, loading: bool, t: Store, loadingAfter: bool) {
    forall task: Task :: CoveredTask(s, loading, task) ==> CoveredTask(t, loadingAfter, task)
  }

  lemma SettleCarries(s: Store, loading: bool, t: Store)
    requires Waiting(s) && !t.Busy() && t.promises == s.promises && t.waiters == s.waiters
    requires t.changeSeq >= s.changeSeq && t.persistedSeq >= s.persistedSeq
    requires s.state.Unavailable? ==> t.state.Unavailable?
    requires t.state.Idle? ==> !s.state.Again? && !loading && t.persistedSeq >= s.syncSeq
    ensures Carries(s, loading, Settle(t), false)
  {
    forall task: Task | CoveredTask(s, loading, task) ensures CoveredTask(Settle(t), false, task) {
      if task.Stored? {
        assert s.promises[task.promise].Pending? <==> task.promise in s.waiters;
      }
    }
  }

  lemma SyncCarries(s: Store, loading: bool, t: Store, thrown: Option<Problem>)
    requires Waiting(s) && !s.state.Unavailable? && t.changeSeq >= s.changeSeq && t.persistedSeq >= s.persistedSeq
    requires t.promises == s.promises && t.waiters == s.waiters
    ensures Carries(s, loading, Sync(t, thrown), false)
  {
    var u := t.(state := Syncing, syncSeq := t.changeSeq);
    hide Settle;
    SettleCarries(s, loading, u.(attempt := 0, state := Failed));
    SettleFields(u.(attempt := 0, state := Failed));
  }

  lemma PersistCarries(s: Store, loading: bool, n: nat, thrown: Option<Problem>)
    requires Waiting(s) && OneOutstanding(s, loading)
    ensures Carries(s, loading, Persist(CountPending(s, n), thrown), loading)
  {
    hide Sync;
    if CanPersist(s) && !s.Busy() {
      SyncCarries(s, loading, CountPending(s, n).(attempt := 0), thrown);
    }
  }

  lemma FlushCarries(s: Store, loading: bool)
    ensures Carries(s, loading, Flush(s), loading)
  {
  }

  lemma CalledCarries(w: World, problem: Option<Problem>, stored: nat, thrown: Option<Problem>)
    requires Inv(w) && Enabled(w, Called(problem, stored, thrown))
    ensures Carries(w.store, w.loading, CalledStep(w, problem, stored, thrown).store, false)
  {
    hide Settle, Sync, Carries;
    var s := w.store.(calls := w.store.calls - 1);
    match problem
    case Some(p) =>
      SettleCarries(w.store, w.loading, s.(attempt := 0, state := Failed));
      RetryCarries(w.store, w.loading, s);
    case None =>
      var t := s.(attempt := 0, persistedSeq := Max(s.persistedSeq, s.syncSeq));
      if t.state.Again? {
        SyncCarries(w.store, w.loading, t, thrown);
      } else {
        SettleCarries(w.store, w.loading, t.(state := Idle));
      }
  }

  lemma RetryCarries(s: Store, loading: bool, t: Store)
    requires s.Busy() && t.changeSeq == s.changeSeq && t.persistedSeq == s.persistedSeq && t.promises == s.promises
    ensures Carries(s, loading, t.(attempt := t.attempt + 1, state := Again, timers := t.timers + 1), false)
  {
  }

  lemma LoadedCarries(w: World, works: bool, applied: seq<bool>, thrown: Option<Problem>)
    requires Inv(w) && Enabled(w, Loaded(works, applied, thrown))
    ensures Carries(w.store, w.loading, LoadedStep(w, works, applied, thrown).store, false)
  {
    hide Settle, Sync;
    var s := CountPending(w.store.(state := if works then Idle else Unavailable), w.queued);
    if !works {
      SettleCarries(w.store, w.loading, s);
    } else if true in applied || w.store.state.Again? {
      SyncCarries(w.store, w.loading, s.(attempt := 0), thrown);
    } else {
      LoadedIdle(w.store, s);
    }
  }

  /** A load that nothing was waiting on leaves only turns behind. */
  lemma LoadedIdle(s: Store, t: Store)
    requires Waiting(s) && s.state.Syncing? && t.state.Idle? && t.promises == s.promises && t.waiters == s.waiters
    requires t.changeSeq >= s.changeSeq && t.persistedSeq == s.persistedSeq
    ensures Carries(s, true, Settle(t), false)
  {
    forall task: Task | CoveredTask(s, true, task) ensures CoveredTask(Settle(t), false, task) {
      if task.Stored? {
        assert s.promises[task.promise].Pending? <==> task.promise in s.waiters;
      }
    }
  }

  lemma MountCarries(w: World, works: bool)
    requires Inv(w) && Enabled(w, Mount(works)) && Covered(w)
    ensures Covered(MountStep(w, works))
  {
    hide Settle;
    SettleFields(CountPending(w.store.(state := Unavailable), w.queued));
  }

  lemma CarriedOver(w: World, v: World)
    requires Covered(w) && v.tasks == w.tasks && Carries(w.store, w.loading, v.store, v.loading)
    requires v.fs && !v.store.mounted ==> v.store.state.Unavailable?
    ensures Covered(v)
  {
  }

  lemma ApplyCovers(w: World, task: nat, works: bool, thrown: Option<Problem>)
    requires Inv(w) && Covered(w) && Enabled(w, Apply(task, works, thrown))
    ensures Covered(ApplyStep(w, task, works, thrown))
  {
    hide Persist, Flush;
    var s := CountPending(w.store, 1);
    var t := Persist(s, thrown);
    PersistCarries(w.store, w.loading, 0, thrown);
    PersistCarries(w.store, w.loading, 1, thrown);
    PersistKeeps(s, w.loading, w.stored, thrown);
    CountCarries(w.store, w.loading);
    FlushCarries(t, w.loading);
    if works && CanPersist(s) {
      PersistOutcome(s, w.loading, thrown);
      AskedFor(t, w.loading, s.changeSeq);
    }
  }

  lemma CountCarries(s: Store, loading: bool)
    ensures Carries(s, loading, CountPending(s, 1), loading)
  {
  }

  /** Asking for a sync leaves one that will cover every change so far, or a reported failure. */
  lemma PersistOutcome(s: Store, loading: bool, thrown: Option<Problem>)
    requires CanPersist(s) && (loading ==> s.Busy())
    ensures var t := Persist(s, thrown);
            && t.changeSeq == s.changeSeq && t.mounted == s.mounted && !t.state.Unavailable?
            && (t.state.Failed? || t.state.Again? || (t.state.Syncing? && !loading && t.syncSeq == t.changeSeq))
  {
  }

  lemma AskedFor(t: Store, loading: bool, n: nat)
    requires n <= t.changeSeq
    requires t.state.Failed? || t.state.Again? || (t.state.Syncing? && !loading && n <= t.syncSeq)
    ensures CoveredTask(Flush(t), loading, Stored(n, |t.promises|))
    ensures Flush(t).state == t.state && Flush(t).mounted == t.mounted
  {
  }

  lemma StepCovers(w: World, e: Event)
    requires Inv(w) && Covered(w)
    ensures Covered(Step(w, e))
  {
    hide Persist, Sync, Flush, MountStep, LoadedStep, CalledStep, ApplyStep, Carries, CoveredTask;
    if Enabled(w, e) {
      StepKeeps(w, e);
      match e
      case Mount(works) => MountCarries(w, works);
      case Loaded(works, applied, thrown) =>
        LoadedCarries(w, works, applied, thrown);
        LoadedFields(w, works, applied, thrown);
        CarriedOver(w, LoadedStep(w, works, applied, thrown));
      case Run(_) =>
      case Write(ok, thrown) =>
        PersistCarries(w.store, w.loading, 1, thrown);
        WriteCovers(w, ok, thrown);
      case Nudge(thrown) => NudgeCovers(w, thrown);
      case Called(problem, stored, thrown) =>
        CalledCarries(w, problem, stored, thrown);
        CalledFields(w, problem, stored, thrown);
        CarriedOver(w, CalledStep(w, problem, stored, thrown));
      case Timer(thrown) => TimerCovers(w, thrown);
      case Modify => ModifyCovers(w);
      case Apply(task, works, thrown) => ApplyCovers(w, task, works, thrown);
      case Reply(task) => ReplyCovers(w, task);
    }
  }

  lemma LoadedFields(w: World, works: bool, applied: seq<bool>, thrown: Option<Problem>)
    requires Inv(w) && Enabled(w, Loaded(works, applied, thrown))
    ensures var v := LoadedStep(w, works, applied, thrown); !v.loading && v.store.mounted && v.tasks == w.tasks
  {
  }

  lemma CalledFields(w: World, problem: Option<Problem>, stored: nat, thrown: Option<Problem>)
    requires Inv(w) && Enabled(w, Called(problem, stored, thrown))
    ensures var v := CalledStep(w, problem, stored, thrown); !v.loading && v.store.mounted && v.tasks == w.tasks
  {
  }

  lemma WriteCovers(w: World, ok: bool, thrown: Option<Problem>)
    requires Inv(w) && Covered(w)
    ensures Covered(Step(w, Write(ok, thrown)))
  {
    hide CoveredTask;
    PersistCarries(w.store, w.loading, 1, thrown);
    PersistKeeps(CountPending(w.store, 1), w.loading, w.stored, thrown);
    hide Persist;
    if ok {
      CarriedOver(w, Step(w, Write(ok, thrown)));
    }
  }

  lemma NudgeCovers(w: World, thrown: Option<Problem>)
    requires Inv(w) && Covered(w)
    ensures Covered(Step(w, Nudge(thrown)))
  {
    hide CoveredTask;
    PersistCarries(w.store, w.loading, 0, thrown);
    PersistKeeps(w.store, w.loading, w.stored, thrown);
    assert CountPending(w.store, 0) == w.store;
    hide Persist;
    CarriedOver(w, Step(w, Nudge(thrown)));
  }

  lemma TimerCovers(w: World, thrown: Option<Problem>)
    requires Inv(w) && Covered(w) && w.store.timers > 0
    ensures Covered(Step(w, Timer(thrown)))
  {
    hide CoveredTask;
    var s := w.store.(timers := w.store.timers - 1);
    SyncCarries(w.store, w.loading, s, thrown);
    SyncKeeps(s, w.stored, thrown);
    hide Sync;
    CarriedOver(w, Step(w, Timer(thrown)));
  }

  lemma ModifyCovers(w: World)
    requires Inv(w) && Covered(w)
    ensures Covered(Step(w, Modify))
  {
    FlushCarries(w.store, w.loading);
  }

  lemma ReplyCovers(w: World, task: nat)
    requires Inv(w) && Covered(w) && Enabled(w, Reply(task))
    ensures Covered(Step(w, Reply(task)))
  {
  }

  lemma {:induction false} RunCovers(w: World, events: seq<Event>)
    requires Inv(w) && Covered(w)
    ensures Inv(RunAll(w, events)) && Covered(RunAll(w, events))
    decreases |events|
  {
    hide Inv, Covered, Step;
    if events != [] {
      StepKeeps(w, events[0]);
      StepCovers(w, events[0]);
      RunCovers(Step(w, events[0]), events[1..]);
    }
  }

  lemma OpenedInv()
    ensures Inv(Opened) && Covered(Opened)
  {
  }

  /** What the page shows is true of this moment. */
  ghost predicate Truthful(w: World) {
    && (!w.loading ==> w.store.calls + w.store.timers == if w.store.Busy() then 1 else 0)
    && w.store.persistedSeq <= w.stored
    && (w.store.Unsaved() <==> w.store.state.Syncing? || w.store.state.Again? || w.store.persistedSeq < w.store.changeSeq)
    && (!w.store.Unsaved() ==> w.stored == w.store.changeSeq)
    && forall i :: 0 <= i < |w.tasks| && w.tasks[i].Answered? ==>
         && (w.tasks[i].answer.Persisted? ==> w.tasks[i].seqNo <= w.stored)
         && (w.tasks[i].answer.MemoryOnly? ==> w.store.state.Unavailable?)
  }

  lemma InvIsTruthful(w: World)
    requires Inv(w) && Covered(w)
    ensures Truthful(w)
  {
    forall i | 0 <= i < |w.tasks| && w.tasks[i].Answered?
      ensures w.tasks[i].answer.MemoryOnly? ==> w.store.state.Unavailable?
    {
      assert CoveredTask(w.store, w.loading, w.tasks[i]);
    }
  }

  /**
   However runtime writes, visitor changes, callbacks, retries and failures interleave:
   after the load one callback or timer is outstanding while the store is busy and none
   otherwise; when nothing is reported unsaved everything is stored; and a change is answered
   'persisted' only when it is stored, 'memory-only' only when there is no storage.
   */
  lemma TruthfulPersistence(events: seq<Event>)
    ensures Truthful(RunAll(Opened, events))
  {
    OpenedInv();
    RunCovers(Opened, events);
    hide *;
    InvIsTruthful(RunAll(Opened, events));
  }

  /** A visitor whose change is waiting is answered: something outstanding will wake him. */
  lemma NobodyForgotten(w: World, p: nat)
    requires Inv(w) && p < |w.store.promises| && w.store.promises[p].Pending?
    ensures w.loading || w.store.calls + w.store.timers == 1
  {
    assert p in w.store.waiters;
  }

  /** And nothing stands in its way: what is outstanding may come back with any outcome, and a settled promise lets its change go on. */
  lemma NothingStuck(w: World, problem: Problem, thrown: Option<Problem>, i: nat, works: bool)
    requires Inv(w) && Covered(w)
    ensures w.store.calls > 0 ==>
              Enabled(w, Called(None, w.store.changeSeq, thrown)) && Enabled(w, Called(Some(problem), w.stored, thrown))
    ensures w.store.timers > 0 ==> Enabled(w, Timer(thrown))
    ensures w.loading ==> Enabled(w, Loaded(works, seq(w.queued, _ => works), thrown))
    ensures !w.fs ==> Enabled(w, Mount(works))
    ensures i < |w.tasks| && w.tasks[i].Turn? ==>
              var p := w.tasks[i].promise;
              p < |w.store.promises| && !w.store.promises[p].Pending? ==> Enabled(w, Apply(i, works, thrown))
  {
  }

  // ── Coming to rest ────────────────────────────────────────────────

  /** How many callbacks and timers a busy store may still need if nobody changes anything. */
  function Rank(s: Store): nat {
    if !s.Busy() then 0
    else
      var tries := 2 * (if s.attempt <= FS_RETRIES then FS_RETRIES - s.attempt else 0);
      if s.state.Syncing? then 1 + tries else if s.timers > 0 then 2 + tries else 9 + tries
  }

  /** Every callback and every timer brings the store nearer to rest; at most fifteen are needed. */
  lemma ComesToRest(w: World, e: Event)
    requires Inv(w) && !w.loading && Enabled(w, e) && (e.Called? || e.Timer?)
    ensures Rank(Step(w, e).store) < Rank(w.store) <= 15
  {
    hide Settled;
  }
}
