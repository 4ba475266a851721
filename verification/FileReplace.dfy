/**
 Replacing a file by a written temporary, file_replace.cpp: rename over it, or, where that is
 refused, park the old copy first. Any rename or removal may be refused, and the program may
 stop after any of them.
 */
module FileReplace {
  import opened Common

  type File = Option<seq<Byte>>

  datatype Files = Files(tmp: File, dest: File, bak: File)

  /** Which operations are allowed, in order; `sees` is whether `exists` reports a present `dest`. */
  datatype Luck = Luck(first: bool, cleared: bool, sees: bool, parked: bool, second: bool, restored: bool, tidied: bool)

  // ── File operations ───────────────────────────────────────────────

  function RenameTmp(s: Files): Files { if s.tmp.Some? then s.(dest := s.tmp, tmp := None) else s }
  function ParkDest(s: Files): Files { if s.dest.Some? then s.(bak := s.dest, dest := None) else s }
  function RestoreBak(s: Files): Files { if s.bak.Some? then s.(dest := s.bak, bak := None) else s }
  function RemoveBak(s: Files): Files { s.(bak := None) }

  /** A rename moves a file that is there onto its target; one of a missing file, like a removal of one, changes nothing. */
  lemma OperationsExact(s: Files)
    ensures s.tmp.None? ==> RenameTmp(s) == s
    ensures s.tmp.Some? ==> RenameTmp(s) == Files(None, s.tmp, s.bak)
    ensures s.dest.None? ==> ParkDest(s) == s
    ensures s.dest.Some? ==> ParkDest(s) == Files(s.tmp, None, s.dest)
    ensures s.bak.None? ==> RestoreBak(s) == s && RemoveBak(s) == s
    ensures s.bak.Some? ==> RestoreBak(s) == Files(s.tmp, s.bak, None) && RemoveBak(s) == Files(s.tmp, s.dest, None)
  {
  }

  /** One atomic operation, or none. */
  predicate OneOperation(s: Files, t: Files) {
    t == s || t == RenameTmp(s) || t == ParkDest(s) || t == RestoreBak(s) || t == RemoveBak(s)
  }

  /** Every state the program may stop in, each one operation after the one before. */
  predicate Steps(trace: seq<Files>) {
    forall i :: 0 <= i < |trace| - 1 ==> OneOperation(trace[i], trace[i + 1])
  }

  /** The last complete copy put in place: `dest`, or the backup of a missing `dest`. */
  function Held(s: Files): File { if s.dest.Some? then s.dest else s.bak }

  /** The new data is whole somewhere, and so is the old unless the new has replaced it. */
  predicate NothingLost(s: Files, before: File, new_: File) {
    && (s.tmp == new_ || s.dest == new_)
    && (before.Some? ==> s.dest == before || s.bak == before || (new_.Some? && s.dest == new_))
  }

  predicate NeverLost(trace: seq<Files>, before: File, new_: File) {
    forall i :: 0 <= i < |trace| ==> NothingLost(trace[i], before, new_)
  }

  /** Whether `contents` are in some file. */
  predicate Anywhere(s: Files, contents: File) {
    contents.Some? ==> s.tmp == contents || s.dest == contents || s.bak == contents
  }

  /** Every state has the old contents in some file, or the new ones in place. */
  predicate CopyKept(trace: seq<Files>, before: File, new_: File) {
    forall i :: 0 <= i < |trace| ==> Anywhere(trace[i], before) || (new_.Some? && trace[i].dest == new_)
  }

  // ── The whole protocol as a function ──────────────────────────────

  function After(s: Files, allowed: bool, t: Files): Files { if allowed then t else s }

  /** Whether the rename over `dest` happens at once; one of a missing `tmp` never does. */
  predicate AtOnce(s: Files, luck: Luck) { luck.first && s.tmp.Some? }

  /** The states of one replacement, oldest first. */
  function Trace(s: Files, luck: Luck): seq<Files> {
    if AtOnce(s, luck) then [s, RenameTmp(s)]
    else
      var s2 := After(s, luck.cleared, RemoveBak(s));
      if s2.dest.Some? && luck.sees && !luck.parked then [s, s, s2, s2]
      else if s2.dest.Some? && luck.sees then [s, s, s2, ParkDest(s2)] + Second(ParkDest(s2), luck)
      else [s, s, s2] + Second(s2, luck)
  }

  function Second(s: Files, luck: Luck): seq<Files> {
    if luck.second && s.tmp.Some? then [RenameTmp(s), After(RenameTmp(s), luck.tidied, RemoveBak(RenameTmp(s)))]
    else [s, After(s, luck.restored, RestoreBak(s))]
  }

  lemma TraceSteps(s: Files, luck: Luck)
    ensures Trace(s, luck) != [] && Trace(s, luck)[0] == s && Steps(Trace(s, luck))
  {
  }

  // ── The two ways to lose the old copy ─────────────────────────────

  /**
   A stale backup that could not be removed, a `dest` that `exists` overlooks, a refused
   rename, and then the stale backup moved over `dest`.
   */
  predicate StaleRestored(s: Files, luck: Luck) {
    && !AtOnce(s, luck) && s.dest.Some? && !luck.sees && s.bak.Some? && !luck.cleared
    && !(luck.second && s.tmp.Some?) && luck.restored
  }

  /**
   An earlier call, or a stop in it, has left the old copy parked as the backup of a missing
   `dest`, the rename is refused, and the backup is then removed as if it were stale.
   */
  predicate ParkedRemoved(s: Files, luck: Luck) {
    !AtOnce(s, luck) && s.dest.None? && s.bak.Some? && luck.cleared
  }

  predicate Loses(s: Files, luck: Luck) {
    (StaleRestored(s, luck) && s.bak != s.dest && s.bak != s.tmp) || ParkedRemoved(s, luck)
  }

  lemma StaleTrace(s: Files, luck: Luck)
    requires StaleRestored(s, luck)
    ensures Trace(s, luck) == [s, s, s, s, RestoreBak(s)] && Trace(s, luck)[4] == RestoreBak(s)
  {
  }

  lemma ParkedTrace(s: Files, luck: Luck)
    requires ParkedRemoved(s, luck)
    ensures |Trace(s, luck)| == 5 && Trace(s, luck)[2] == Files(s.tmp, None, None)
  {
  }

  /**
   No state on the way loses the old or the new data, exactly unless a stale backup with
   other contents is restored over a `dest` that `exists` overlooked, or the parked copy of a
   missing `dest` is removed.
   */
  lemma NeverLostExact(s: Files, luck: Luck)
    ensures NeverLost(Trace(s, luck), Held(s), s.tmp) <==> !Loses(s, luck)
  {
    if StaleRestored(s, luck) {
      StaleTrace(s, luck);
    } else if ParkedRemoved(s, luck) {
      ParkedTrace(s, luck);
    }
  }

  /** The old contents are nowhere at all, exactly in those cases with nothing equal in `tmp`. */
  lemma OnlyCopyExact(s: Files, luck: Luck)
    ensures CopyKept(Trace(s, luck), Held(s), s.tmp) <==> !(Loses(s, luck) && Held(s) != s.tmp)
  {
    if StaleRestored(s, luck) {
      StaleTrace(s, luck);
    } else if ParkedRemoved(s, luck) {
      ParkedTrace(s, luck);
    }
  }

  /**
   What a caller can see before the call. With an exact `exists`, nothing is lost whatever is
   refused, exactly if `dest` is there or there is no backup; with one that may overlook `dest`,
   exactly if there is no backup, or `dest` is there and the backup is a copy of it or of `tmp`.
   */
  lemma SafeToReplace(s: Files)
    ensures (forall luck: Luck :: NeverLost(Trace(s, luck), Held(s), s.tmp))
       <==> s.bak.None? || (s.dest.Some? && (s.bak == s.dest || s.bak == s.tmp))
    ensures (forall luck: Luck :: (s.dest.Some? ==> luck.sees) ==> NeverLost(Trace(s, luck), Held(s), s.tmp))
       <==> s.dest.Some? || s.bak.None?
  {
    forall luck: Luck
      ensures NeverLost(Trace(s, luck), Held(s), s.tmp) <==> !Loses(s, luck)
    {
      NeverLostExact(s, luck);
    }
    var overlooked := Luck(false, false, false, false, false, true, false);
    assert StaleRestored(s, overlooked) <==> s.dest.Some? && s.bak.Some?;
    assert NeverLost(Trace(s, overlooked), Held(s), s.tmp) <==> !Loses(s, overlooked);
    var unlucky := Luck(false, true, s.dest.Some?, false, false, false, false);
    assert ParkedRemoved(s, unlucky) <==> s.dest.None? && s.bak.Some?;
    assert NeverLost(Trace(s, unlucky), Held(s), s.tmp) <==> !Loses(s, unlucky);
  }

  // ── Runs of many replacements ─────────────────────────────────────

  /**
   What happens to the three files: the caller leaves anything at all in `tmp`, or replaces,
   and the program may stop after `stop` operations of it.
   */
  datatype Event = Write(contents: File) | Call(luck: Luck, stop: nat)

  /** The states an event passes through, up to where the program stops. */
  function Passed(s: Files, e: Event): (r: seq<Files>)
    ensures r != []
  {
    match e
    case Write(contents) => [s.(tmp := contents)]
    case Call(luck, stop) => var trace := Trace(s, luck); if stop < |trace| then trace[..stop + 1] else trace
  }

  function Step(s: Files, e: Event): Files { Passed(s, e)[|Passed(s, e)| - 1] }

  function Run(s: Files, events: seq<Event>): Files
    decreases |events|
  {
    if events == [] then s else Run(Step(s, events[0]), events[1..])
  }

  /** What was last put in place, `t` being a state that `e` passes: the new data once renamed. */
  function Committed(s: Files, last: File, e: Event, t: Files): File {
    if e.Call? && s.tmp.Some? && t.tmp.None? then s.tmp else last
  }

  /** At every point of the run the held copy is what was last put in place. */
  ghost predicate AlwaysHeld(s: Files, last: File, events: seq<Event>)
    decreases |events|
  {
    events != [] ==>
      var e := events[0];
      && (forall i :: 0 <= i < |Passed(s, e)| ==> Held(Passed(s, e)[i]) == Committed(s, last, e, Passed(s, e)[i]))
      && AlwaysHeld(Step(s, e), Committed(s, last, e, Step(s, e)), events[1..])
  }

  /** A call that goes on to where one of the two ways displaces the held copy. */
  predicate Displaces(s: Files, e: Event) {
    e.Call? && ((StaleRestored(s, e.luck) && s.bak != s.dest && e.stop >= 4) || (ParkedRemoved(s, e.luck) && e.stop >= 2))
  }

  predicate AnyDisplaces(s: Files, events: seq<Event>)
    decreases |events|
  {
    events != [] && (Displaces(s, events[0]) || AnyDisplaces(Step(s, events[0]), events[1..]))
  }

  lemma TraceHolds(s: Files, luck: Luck, i: nat)
    requires i < |Trace(s, luck)|
    ensures Held(Trace(s, luck)[i]) == Committed(s, Held(s), Call(luck, 0), Trace(s, luck)[i])
       <==> !(StaleRestored(s, luck) && s.bak != s.dest && i == 4)
            && !(ParkedRemoved(s, luck) && (i == 2 || (i >= 3 && !(luck.second && s.tmp.Some?))))
  {
    if StaleRestored(s, luck) {
      StaleTrace(s, luck);
    } else if ParkedRemoved(s, luck) {
      ParkedTrace(s, luck);
    }
  }

  lemma EventHolds(s: Files, e: Event)
    ensures (forall i :: 0 <= i < |Passed(s, e)| ==> Held(Passed(s, e)[i]) == Committed(s, Held(s), e, Passed(s, e)[i]))
       <==> !Displaces(s, e)
  {
    if e.Call? {
      hide Held, Committed, Trace;
      forall i | 0 <= i < |Passed(s, e)|
        ensures Held(Passed(s, e)[i]) == Committed(s, Held(s), e, Passed(s, e)[i])
           <==> !(StaleRestored(s, e.luck) && s.bak != s.dest && i == 4)
                && !(ParkedRemoved(s, e.luck) && (i == 2 || (i >= 3 && !(e.luck.second && s.tmp.Some?))))
      {
        TraceHolds(s, e.luck, i);
        SameCommitted(s, e, Passed(s, e)[i]);
      }
      if Displaces(s, e) {
        DisplacedAt(s, e);
        var k := if ParkedRemoved(s, e.luck) then 2 else 4;
        assert Held(Passed(s, e)[k]) != Committed(s, Held(s), e, Passed(s, e)[k]);
      }
    }
  }

  lemma SameCommitted(s: Files, e: Event, t: Files)
    requires e.Call?
    ensures Committed(s, Held(s), e, t) == Committed(s, Held(s), Call(e.luck, 0), t)
  {
  }

  lemma DisplacedAt(s: Files, e: Event)
    requires Displaces(s, e)
    ensures if ParkedRemoved(s, e.luck) then |Passed(s, e)| > 2 else |Passed(s, e)| > 4
  {
    if ParkedRemoved(s, e.luck) {
      ParkedTrace(s, e.luck);
    } else {
      StaleTrace(s, e.luck);
    }
  }

  /**
   Over every sequence of rewritten temporaries, calls with any refusals, and stops anywhere:
   the data last put in place is in `dest`, or in the backup of a missing `dest`, at every
   point, exactly unless some call of it goes one of the two ways.
   */
  lemma {:induction false} RunHeldExact(s: Files, events: seq<Event>)
    ensures AlwaysHeld(s, Held(s), events) <==> !AnyDisplaces(s, events)
    decreases |events|
  {
    if events != [] {
      var e := events[0];
      EventHolds(s, e);
      if !Displaces(s, e) {
        var p := Passed(s, e);
        assert Held(p[|p| - 1]) == Committed(s, Held(s), e, p[|p| - 1]);
        RunHeldExact(Step(s, e), events[1..]);
      }
    }
  }

  /** The data last put in place at the end of a run, from a directory holding `last`. */
  function LastCommitted(s: Files, last: File, events: seq<Event>): File
    decreases |events|
  {
    if events == [] then last
    else LastCommitted(Step(s, events[0]), Committed(s, last, events[0], Step(s, events[0])), events[1..])
  }

  /** So without such a call the run ends with the data last put in place still held. */
  lemma {:induction false} RunHolds(s: Files, events: seq<Event>)
    requires !AnyDisplaces(s, events)
    ensures Held(Run(s, events)) == LastCommitted(s, Held(s), events)
    decreases |events|
  {
    if events != [] {
      var e := events[0];
      EventHolds(s, e);
      var p := Passed(s, e);
      assert Held(p[|p| - 1]) == Committed(s, Held(s), e, p[|p| - 1]);
      RunHolds(Step(s, e), events[1..]);
    }
  }

  lemma TraceTold(s: Files, luck: Luck, trace: seq<Files>)
    requires trace == Trace(s, luck)
    ensures trace != [] && trace[0] == s && Steps(trace)
    ensures NeverLost(trace, Held(s), s.tmp) <==> !Loses(s, luck)
  {
    TraceSteps(s, luck);
    NeverLostExact(s, luck);
  }

  class Directory {
    var tmp: File
    var dest: File
    var bak: File

    ghost function State(): Files
      reads this
    {
      Files(tmp, dest, bak)
    }

    /** `rename(tmp, dest)`. */
    method Rename(allowed: bool) returns (ok: bool)
      modifies this`tmp, this`dest
      ensures ok == (allowed && old(tmp).Some?)
      ensures State() == if ok then RenameTmp(old(State())) else old(State())
    {
      ok := allowed && tmp.Some?;
      if ok {
        dest := tmp;
        tmp := None;
      }
    }

    /** `rename(dest, bak)`. */
    method Park(allowed: bool) returns (ok: bool)
      modifies this`dest, this`bak
      ensures ok == (allowed && old(dest).Some?)
      ensures State() == if ok then ParkDest(old(State())) else old(State())
    {
      ok := allowed && dest.Some?;
      if ok {
        bak := dest;
        dest := None;
      }
    }

    /** `rename(bak, dest)`. */
    method Restore(allowed: bool)
      modifies this`dest, this`bak
      ensures State() == if allowed then RestoreBak(old(State())) else old(State())
    {
      if allowed && bak.Some? {
        dest := bak;
        bak := None;
      }
    }

    /** `remove(bak)`. */
    method Clear(allowed: bool)
      modifies this`bak
      ensures State() == if allowed then RemoveBak(old(State())) else old(State())
    {
      if allowed {
        bak := None;
      }
    }

    /**
     `replace_file_preserving`. `trace` lists every state the program may stop in: none has
     lost the held copy or the new data, but for the two cases of Loses.
     */
    method Replace(luck: Luck) returns (ok: bool, ghost trace: seq<Files>)
      modifies this
      ensures trace != [] && trace[0] == old(State()) && trace[|trace| - 1] == State() && Steps(trace)
      ensures trace == Trace(old(State()), luck)
      ensures NeverLost(trace, Held(old(State())), old(tmp)) <==> !Loses(old(State()), luck)
      ensures ok ==> dest == old(tmp) && dest.Some? && tmp == None
      ensures !ok ==> tmp == old(tmp)
      ensures !ok && luck.sees && old(dest).Some? ==> dest == old(dest) || bak == old(dest)
      ensures !ok && luck.sees && old(dest).Some? && luck.restored ==> dest == old(dest)
      ensures !ok && old(dest).None? && !luck.cleared ==> Held(State()) == old(bak)
      ensures !ok && ParkedRemoved(old(State()), luck) ==> dest == None && bak == None
      ensures ok == (old(tmp).Some? && (luck.first || ((luck.sees && old(dest).Some? ==> luck.parked) && luck.second)))
      ensures StaleRestored(old(State()), luck) ==> !ok && dest == old(bak)
    {
      ghost var s := State();
      hide NeverLost, Steps, Loses;
      trace := [State()];
      ok := Rename(luck.first);
      trace := trace + [State()];
      if ok {
        TraceTold(s, luck, trace);
        return;
      }
      Clear(luck.cleared);
      trace := trace + [State()];
      if dest.Some? && luck.sees {
        var parked := Park(luck.parked);
        trace := trace + [State()];
        if !parked {
          TraceTold(s, luck, trace);
          return false, trace;
        }
      }
      ok := Rename(luck.second);
      trace := trace + [State()];
      if !ok {
        Restore(luck.restored);
        trace := trace + [State()];
        TraceTold(s, luck, trace);
        return;
      }
      Clear(luck.tidied);
      trace := trace + [State()];
      TraceTold(s, luck, trace);
    }
  }

  /** The documented rule fails on this input: the only copy of the old data is overwritten. */
  lemma StaleBackupOverwrites(old_: seq<Byte>, new_: seq<Byte>, stale: seq<Byte>)
    requires stale != old_ && new_ != old_
    ensures var s := Files(Some(new_), Some(old_), Some(stale));
            var trace := Trace(s, Luck(false, false, false, false, false, true, false));
            var last := trace[|trace| - 1];
            last == Files(Some(new_), Some(stale), None)
  {
  }

  /**
   And on this one, with no stop and an exact `exists`: a first call parks the old copy, may
   neither rename nor restore, and answers false; the caller writes `newer` to `tmp`; the
   second call is refused its rename and removes the backup. The old data, which was in place
   all along, is in no file after that.
   */
  lemma ParkedCopyRemoved(old_: seq<Byte>, new_: seq<Byte>, newer: seq<Byte>)
    requires old_ != newer
    ensures var s := Files(Some(new_), Some(old_), None);
            var parks := Call(Luck(false, true, true, true, false, false, false), 5);
            var again := Call(Luck(false, true, true, true, false, true, true), 4);
            && Run(s, [parks]) == Files(Some(new_), None, Some(old_))
            && Run(s, [parks, Write(Some(newer)), again]) == Files(Some(newer), None, None)
            && LastCommitted(s, Held(s), [parks, Write(Some(newer)), again]) == Some(old_)
            && !Anywhere(Run(s, [parks, Write(Some(newer)), again]), Some(old_))
  {
    var s := Files(Some(new_), Some(old_), None);
    var parks := Call(Luck(false, true, true, true, false, false, false), 5);
    var again := Call(Luck(false, true, true, true, false, true, true), 4);
    var events := [parks, Write(Some(newer)), again];
    assert Step(s, parks) == Files(Some(new_), None, Some(old_));
    assert Step(Step(s, parks), events[1]) == Files(Some(newer), None, Some(old_));
    assert Step(Files(Some(newer), None, Some(old_)), again) == Files(Some(newer), None, None);
    assert events[1..] == [events[1], again] && [events[1], again][1..] == [again] && [again][1..] == [];
    assert [parks][1..] == [];
    assert Committed(s, Some(old_), parks, Step(s, parks)) == Some(old_);
    assert Committed(Files(Some(newer), None, Some(old_)), Some(old_), again, Files(Some(newer), None, None)) == Some(old_);
    assert Committed(Step(s, parks), Some(old_), events[1], Step(Step(s, parks), events[1])) == Some(old_);
    hide Step, Committed;
    assert LastCommitted(s, Some(old_), events) == LastCommitted(Step(s, parks), Some(old_), events[1..]);
    assert LastCommitted(Files(Some(newer), None, Some(old_)), Some(old_), [again])
        == LastCommitted(Files(Some(newer), None, None), Some(old_), []);
    assert Run(s, [parks]) == Run(Step(s, parks), []);
    assert Run(s, events) == Run(Files(Some(newer), None, Some(old_)), [again]) == Run(Files(Some(newer), None, None), []);
  }
}
