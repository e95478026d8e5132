/** Tailing across crashes. One database connection carries the offsets and the effects of the records,
    so a commit saves all of both, and a crash falls back to the last commit of both. */
module TailingCrashes {
  import opened Wrappers
  import opened Text
  import opened TranscriptLines
  import opened TranscriptTail

  // The process as it is, and what its last commit would restore; the files are outside of it.
  datatype System = System(now: State, saved: State)

  datatype Event = Act(step: Step) | Commit | Crash

  // After a crash no thread is busy, and what the threads had before them at the last commit is lost:
  // its offset was saved, its records were not handled.
  function Restarted(s: State): State {
    s.(workers := seq(|s.workers|, i => Idle), lost := s.lost + s.workers)
  }

  predicate CanHappen(sys: System, e: Event) {
    e.Act? ==> Enabled(sys.now, e.step)
  }

  function After(sys: System, e: Event): System
    requires CanHappen(sys, e)
  {
    match e
    case Act(step) => var next := Next(sys.now, step); System(next, sys.saved.(files := next.files))
    case Commit => System(sys.now, sys.now)
    case Crash => System(Restarted(sys.saved), Restarted(sys.saved))
  }

  ghost predicate Happens(sys: System, events: seq<Event>, t: System)
    decreases |events|
  {
    if events == [] then sys == t
    else CanHappen(sys, events[0]) && Happens(After(sys, events[0]), events[1..], t)
  }

  // ---------- The books across crashes ----------

  ghost predicate BothKept(sys: System, path: Path, start: nat, record: string) {
    && sys.saved.files == sys.now.files
    && Kept(sys.now, path, start, record) && Kept(sys.saved, path, start, record)
    && OffsetOf(sys.saved.positions, path) <= OffsetOf(sys.now.positions, path)
  }

  lemma {:induction false} PendingAppend(a: seq<Worker>, b: seq<Worker>, path: Path, record: string)
    ensures Pending(a + b, path, record) == Pending(a, path, record) + Pending(b, path, record)
  {
    if a == [] {
      assert a + b == b;
    } else {
      assert (a + b)[1..] == a[1..] + b;
      PendingAppend(a[1..], b, path, record);
    }
  }

  lemma RestartKeeps(s: State, path: Path, start: nat, record: string)
    requires Kept(s, path, start, record)
    ensures Kept(Restarted(s), path, start, record)
  {
    hide RecordsRead, Tiled, Pending;
    PendingAppend(s.lost, s.workers, path, record);
    PendingIdle(Restarted(s).workers, path, record);
  }

  lemma ActKeeps(sys: System, step: Step, path: Path, start: nat, record: string)
    requires BothKept(sys, path, start, record) && Enabled(sys.now, step)
    ensures BothKept(After(sys, Act(step)), path, start, record)
  {
    hide Kept, RecordsRead, Tiled;
    StepKeeps(sys.now, step, path, start, record);
    if step.Append? {
      AppendKeeps(sys.saved, step.path, step.text, path, start, record);
      assert After(sys, Act(step)).saved == Next(sys.saved, step);
    } else {
      assert After(sys, Act(step)).saved == sys.saved;
    }
  }

  lemma EventKeeps(sys: System, e: Event, path: Path, start: nat, record: string)
    requires BothKept(sys, path, start, record) && CanHappen(sys, e)
    ensures BothKept(After(sys, e), path, start, record)
  {
    match e
    case Act(step) => ActKeeps(sys, step, path, start, record);
    case Commit =>
    case Crash => RestartKeeps(sys.saved, path, start, record);
  }

  lemma {:induction false} HappeningsKeep(
      sys: System, events: seq<Event>, t: System, path: Path, start: nat, record: string)
    requires BothKept(sys, path, start, record) && Happens(sys, events, t)
    ensures BothKept(t, path, start, record)
    decreases |events|
  {
    hide BothKept, After, CanHappen;
    if events != [] {
      EventKeeps(sys, events[0], path, start, record);
      HappeningsKeep(After(sys, events[0]), events[1..], t, path, start, record);
    }
  }

  // Main result: over any run with any commits and crashes, the ranges read tile the text from the first
  // to the current offset, and every record of the chunks is handled, pending or lost as often as it
  // occurs there; so none is ever handled twice. The saved offset never runs ahead.
  lemma NothingIsHandledTwice(s: State, events: seq<Event>, t: System, path: Path, record: string)
    requires Initial(s) && Happens(System(s, s), events, t)
    ensures Kept(t.now, path, OffsetOf(s.positions, path), record)
    ensures OffsetOf(t.saved.positions, path) <= OffsetOf(t.now.positions, path)
  {
    PendingIdle(s.workers, path, record);
    HappeningsKeep(System(s, s), events, t, path, OffsetOf(s.positions, path), record);
  }

  // ---------- What a crash falls back to ----------

  // With no commit and no crash since the last commit, a crash restores what was handled and the offsets
  // of that commit, and loses exactly what threads had before them then.
  lemma {:induction false} CrashRestoresTheCommit(s: State, sys: System, events: seq<Event>, t: System)
    requires sys.saved.(files := s.files) == s && Happens(sys, events, t)
    requires forall e | e in events :: e.Act?
    ensures var after := After(t, Crash).now;
            && after.handled == s.handled && after.positions == s.positions && after.lost == s.lost + s.workers
            && after.files == t.saved.files && forall w | w in after.workers :: w.Idle?
    decreases |events|
  {
    hide Next, Enabled;
    if events != [] {
      assert events[0] in events;
      CrashRestoresTheCommit(s, After(sys, events[0]), events[1..], t);
    }
  }

  lemma CommitIsRestored(sys: System, events: seq<Event>, t: System)
    requires Happens(After(sys, Commit), events, t) && forall e | e in events :: e.Act?
    ensures var after := After(t, Crash).now;
            && after.handled == sys.now.handled && after.positions == sys.now.positions
            && after.lost == sys.now.lost + sys.now.workers
  {
    CrashRestoresTheCommit(sys.now, After(sys, Commit), events, t);
  }

  // ---------- What is lost ----------

  // A crash catches records of `path` that a thread had before it at the last commit.
  predicate DiesMidway(sys: System, e: Event, path: Path) {
    e.Crash? && LostOf(sys.saved.workers, path) != multiset{}
  }

  ghost predicate NeverDiesMidway(sys: System, events: seq<Event>, path: Path)
    decreases |events|
  {
    events == [] ||
      (CanHappen(sys, events[0]) && !DiesMidway(sys, events[0], path)
       && NeverDiesMidway(After(sys, events[0]), events[1..], path))
  }

  lemma {:induction false} LostAppend(a: seq<Worker>, b: seq<Worker>, path: Path)
    ensures LostOf(a + b, path) == LostOf(a, path) + LostOf(b, path)
  {
    if a == [] {
      assert a + b == b;
    } else {
      assert (a + b)[1..] == a[1..] + b;
      LostAppend(a[1..], b, path);
    }
  }

  // A loss stays: the ledger of the last commit is that of the process.
  predicate SameLedger(sys: System) {
    sys.now.lost == sys.saved.lost
  }

  lemma EventLoses(sys: System, e: Event, path: Path)
    requires SameLedger(sys) && CanHappen(sys, e)
    ensures var t := After(sys, e);
            && SameLedger(t)
            && LostOf(t.now.lost, path)
               == LostOf(sys.now.lost, path) + (if e.Crash? then LostOf(sys.saved.workers, path) else multiset{})
  {
    hide LostOf;
    LostAppend(sys.saved.lost, sys.saved.workers, path);
    assert LostOf(sys.now.lost, path) + multiset{} == LostOf(sys.now.lost, path);
    if e.Act? {
      LedgerStays(sys.now, e.step);
    }
  }

  lemma LedgerStays(s: State, step: Step)
    requires Enabled(s, step)
    ensures Next(s, step).lost == s.lost
  {
  }

  lemma {:induction false} LossesAdd(sys: System, events: seq<Event>, t: System, path: Path)
    requires SameLedger(sys) && Happens(sys, events, t)
    ensures LostOf(sys.now.lost, path) <= LostOf(t.now.lost, path)
    ensures LostOf(t.now.lost, path) == LostOf(sys.now.lost, path) <==> NeverDiesMidway(sys, events, path)
    decreases |events|
  {
    hide After, CanHappen, LostOf, SameLedger;
    if events != [] {
      EventLoses(sys, events[0], path);
      LossesAdd(After(sys, events[0]), events[1..], t, path);
    }
  }

  // Main result: a record of `path` is lost if and only if the process died between the commit of its
  // offset and that of its effects.
  lemma NothingIsLostIff(s: State, events: seq<Event>, t: System, path: Path)
    requires Initial(s) && Happens(System(s, s), events, t)
    ensures LostOf(t.now.lost, path) == multiset{} <==> NeverDiesMidway(System(s, s), events, path)
  {
    LossesAdd(System(s, s), events, t, path);
  }

  // At rest the records handled and those lost make up the text exactly when the reads were clean.
  lemma HandledAndLostAreTheTextIff(s: State, events: seq<Event>, t: System, path: Path)
    requires Initial(s) && Happens(System(s, s), events, t)
    requires forall w | w in t.now.workers :: w.Idle?
    ensures var start, offset, content :=
              OffsetOf(s.positions, path), OffsetOf(t.now.positions, path), ContentOf(t.now, path);
            && start <= offset <= |content|
            && (HandledOf(t.now, path) + LostOf(t.now.lost, path)
                == multiset(Records(SplitLines(content[start..offset])))
                <==> CleanReads(t.now.ranges, path, start, content))
  {
    hide Records, SplitLines, CleanReads, Kept, Happens, Initial, LostOf;
    forall record
      ensures Kept(t.now, path, OffsetOf(s.positions, path), record)
    {
      NothingIsHandledTwice(s, events, t, path, record);
    }
    RestIffReadsAreClean(t.now, path, OffsetOf(s.positions, path));
  }

  // ---------- Writers that append whole lines ----------

  predicate WritesWholeLines(e: Event, path: Path) {
    e.Act? ==> AppendsWholeLines(e.step, path)
  }

  ghost predicate BothReadCleanly(sys: System, path: Path, start: nat) {
    BothKept(sys, path, start, "") && ReadCleanly(sys.now, path, start) && ReadCleanly(sys.saved, path, start)
  }

  lemma EventReadsCleanly(sys: System, e: Event, path: Path, start: nat)
    requires BothReadCleanly(sys, path, start) && CanHappen(sys, e) && WritesWholeLines(e, path)
    ensures BothReadCleanly(After(sys, e), path, start)
  {
    hide CleanReads, Tiled, RecordsRead, Accounted;
    EventKeeps(sys, e, path, start, "");
    if e.Act? {
      StepReadsCleanly(sys.now, e.step, path, start);
      if e.step.Append? {
        assert After(sys, e).saved == Next(sys.saved, e.step);
        StepReadsCleanly(sys.saved, e.step, path, start);
      } else {
        assert After(sys, e).saved == sys.saved;
      }
    }
  }

  lemma {:induction false} HappeningsReadCleanly(sys: System, events: seq<Event>, t: System, path: Path, start: nat)
    requires BothReadCleanly(sys, path, start) && Happens(sys, events, t)
    requires forall e | e in events :: WritesWholeLines(e, path)
    ensures BothReadCleanly(t, path, start)
    decreases |events|
  {
    hide BothReadCleanly, After, CanHappen, WritesWholeLines;
    if events != [] {
      EventReadsCleanly(sys, events[0], path, start);
      HappeningsReadCleanly(After(sys, events[0]), events[1..], t, path, start);
    }
  }

  // When the file and every append to it end in a newline and no crash catches a record midway, the
  // records handled are those of the text, each once, however often the process died.
  lemma WholeLinesSurviveCrashes(s: State, events: seq<Event>, t: System, path: Path)
    requires Initial(s) && Happens(System(s, s), events, t)
    requires EndsInNewline(ContentOf(s, path)) && forall e | e in events :: WritesWholeLines(e, path)
    requires NeverDiesMidway(System(s, s), events, path)
    requires forall w | w in t.now.workers :: w.Idle?
    ensures var start, offset, content :=
              OffsetOf(s.positions, path), OffsetOf(t.now.positions, path), ContentOf(t.now, path);
            && start <= offset <= |content|
            && HandledOf(t.now, path) == multiset(Records(SplitLines(content[start..offset])))
  {
    hide Records, SplitLines, NeverDiesMidway, Happens;
    var start := OffsetOf(s.positions, path);
    PendingIdle(s.workers, path, "");
    HappeningsReadCleanly(System(s, s), events, t, path, start);
    HandledAndLostAreTheTextIff(s, events, t, path);
    NothingIsLostIff(s, events, t, path);
  }
}
