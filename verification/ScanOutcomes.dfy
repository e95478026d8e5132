/** How a scan request ends, told from the steps of a run: which status it leaves, and when a request
    is let in. */
module ScanOutcomes {
  import opened Wrappers
  import opened ScanSlot

  predicate HasEnded(p: Phase) {
    p.Finishing? || p.Finished?
  }

  predicate EndedWith(s: State, i: nat, exit: Exit) {
    i < |s.requests| && HasEnded(s.requests[i]) && s.requests[i].exit == exit
  }

  // In the run, request i tried the scan lock while somebody held it.
  ghost predicate MetHeldLock(s: State, steps: seq<Step>, i: nat)
    decreases |steps|
  {
    && steps != [] && Enabled(s, steps[0])
    && ((steps[0] == TryLock(i) && s.lock.Some?) || MetHeldLock(Next(s, steps[0]), steps[1..], i))
  }

  // Step `step` ends request i.
  predicate Ends(s: State, step: Step, i: nat) {
    step in {EndScan(i, true), EndScan(i, false), Fail(i, true), Fail(i, false)} || (step == TryLock(i) && s.lock.Some?)
  }

  lemma OneStep(s: State, step: Step, i: nat)
    requires Enabled(s, step)
    requires i < |s.requests| ==> !HasEnded(s.requests[i])
    ensures (i < |Next(s, step).requests| && HasEnded(Next(s, step).requests[i])) <==> Ends(s, step, i)
    ensures step == EndScan(i, false) ==> EndedWith(Next(s, step), i, Returned(0))
    ensures step == EndScan(i, true) ==> EndedWith(Next(s, step), i, Returned(2))
    ensures step == TryLock(i) && s.lock.Some? ==> EndedWith(Next(s, step), i, Returned(1))
    ensures step == Fail(i, true) ==> EndedWith(Next(s, step), i, Threw)
    ensures step == Fail(i, false) ==> EndedWith(Next(s, step), i, Aborted)
  {
  }

  // What has ended stays as it ended, and no further step of the run ends it.
  lemma {:induction false} EndedStays(s: State, steps: seq<Step>, t: State, i: nat, exit: Exit)
    requires Run(s, steps, t) && EndedWith(s, i, exit)
    ensures EndedWith(t, i, exit) && !MetHeldLock(s, steps, i)
    ensures EndScan(i, false) !in steps && EndScan(i, true) !in steps
    ensures Fail(i, true) !in steps && Fail(i, false) !in steps
    decreases |steps|
  {
    if steps != [] {
      EndedStaysOnce(s, steps[0], i, exit);
      EndedStays(Next(s, steps[0]), steps[1..], t, i, exit);
    }
  }

  lemma EndedStaysOnce(s: State, step: Step, i: nat, exit: Exit)
    requires Enabled(s, step) && EndedWith(s, i, exit)
    ensures EndedWith(Next(s, step), i, exit) && !Ends(s, step, i)
  {
  }

  // The end of request i, by the steps of the run.
  ghost predicate EndsBySteps(s: State, steps: seq<Step>, t: State, i: nat) {
    && (EndedWith(t, i, Returned(0)) <==> EndScan(i, false) in steps)
    && (EndedWith(t, i, Returned(1)) <==> MetHeldLock(s, steps, i))
    && (EndedWith(t, i, Returned(2)) <==> EndScan(i, true) in steps)
    && (EndedWith(t, i, Threw) <==> Fail(i, true) in steps)
    && (EndedWith(t, i, Aborted) <==> Fail(i, false) in steps)
  }

  lemma {:induction false} EndIsBySteps(s: State, steps: seq<Step>, t: State, i: nat)
    requires Run(s, steps, t) && (i < |s.requests| ==> !HasEnded(s.requests[i]))
    ensures EndsBySteps(s, steps, t, i)
    decreases |steps|
  {
    hide Next, Enabled;
    if steps != [] {
      var step, rest := steps[0], steps[1..];
      var next := Next(s, step);
      OneStep(s, step, i);
      assert forall x :: x in steps <==> x == step || x in rest;
      if Ends(s, step, i) {
        EndedStays(next, rest, t, i, next.requests[i].exit);
      } else {
        EndIsBySteps(next, rest, t, i);
      }
    }
  }

  // Main result: in every run a request ends with 0 exactly when its scan ended without raising, with
  // 2 exactly when the scan raised, with 1 exactly when it found the scan lock held, and with an
  // exception, caught or not, exactly when there was one.
  lemma ExitIsEarnedIff(steps: seq<Step>, t: State, i: nat)
    requires Run(Start(), steps, t)
    ensures EndedWith(t, i, Returned(0)) <==> EndScan(i, false) in steps
    ensures EndedWith(t, i, Returned(1)) <==> MetHeldLock(Start(), steps, i)
    ensures EndedWith(t, i, Returned(2)) <==> EndScan(i, true) in steps
    ensures EndedWith(t, i, Threw) <==> Fail(i, true) in steps
    ensures EndedWith(t, i, Aborted) <==> Fail(i, false) in steps
  {
    EndIsBySteps(Start(), steps, t, i);
  }

  // There is no other way to end.
  predicate EndsKnown(s: State) {
    forall i | 0 <= i < |s.requests| && HasEnded(s.requests[i]) ::
      s.requests[i].exit in {Returned(0), Returned(1), Returned(2), Threw, Aborted}
  }

  lemma {:induction false} EndsStayKnown(s: State, steps: seq<Step>, t: State)
    requires EndsKnown(s) && Run(s, steps, t)
    ensures EndsKnown(t)
    decreases |steps|
  {
    if steps != [] {
      EndsStayKnown(Next(s, steps[0]), steps[1..], t);
    }
  }

  // ---------- The status ----------

  // The request that reported last.
  function LastReport(steps: seq<Step>): Option<nat> {
    if steps == [] then None
    else
      var n := |steps| - 1;
      if steps[n].Report? then Some(steps[n].i) else LastReport(steps[..n])
  }

  lemma LastReportAfter(step: Step, steps: seq<Step>)
    ensures LastReport([step] + steps)
         == if LastReport(steps).Some? then LastReport(steps) else if step.Report? then Some(step.i) else None
  {
    if steps == [] {
      assert ([step] + steps)[..0] == [];
    } else {
      var n := |steps| - 1;
      assert ([step] + steps)[..n + 1] == [step] + steps[..n];
      LastReportAfter(step, steps[..n]);
    }
  }

  lemma {:induction false} LastIsLastReport(s: State, steps: seq<Step>, t: State)
    requires Run(s, steps, t)
    ensures t.last == if LastReport(steps).Some? then LastReport(steps) else s.last
    decreases |steps|
  {
    if steps != [] {
      LastIsLastReport(Next(s, steps[0]), steps[1..], t);
      LastReportAfter(steps[0], steps[1..]);
      assert steps == [steps[0]] + steps[1..];
    }
  }

  // Main result: a final status tells how the scan of the request that reported last went: done that it
  // was completed, skipped that it found the lock held, error everything else.
  lemma StatusTellsTheLastScan(steps: seq<Step>, t: State)
    requires Run(Start(), steps, t) && t.status != Running
    ensures t.status == Idle <==> LastReport(steps).None?
    ensures var last := LastReport(steps);
            last.Some? ==>
              && (t.status == Done <==> EndScan(last.value, false) in steps)
              && (t.status == SkippedLockHeld <==> MetHeldLock(Start(), steps, last.value))
              && (t.status == Error <==> EndScan(last.value, true) in steps
                                         || Fail(last.value, true) in steps || Fail(last.value, false) in steps)
  {
    hide Run, MetHeldLock, Inv, EndsKnown;
    LastIsLastReport(Start(), steps, t);
    ReachableInv(steps, t);
    if LastReport(steps).Some? {
      var i := LastReport(steps).value;
      FinalStatusOfLast(t);
      ExitIsEarnedIff(steps, t, i);
      EndsStayKnown(Start(), steps, t);
      KnownEnd(t, i);
    } else {
      NothingReported(t);
    }
  }

  lemma KnownEnd(t: State, i: nat)
    requires EndsKnown(t) && i < |t.requests| && HasEnded(t.requests[i])
    ensures t.requests[i].exit in {Returned(0), Returned(1), Returned(2), Threw, Aborted}
  {
  }

  lemma ReachableInv(steps: seq<Step>, t: State)
    requires Run(Start(), steps, t)
    ensures Inv(t)
  {
    assert forall i: nat :: !Owner(Start(), i);
    RunKeeps(Start(), steps, t);
  }

  lemma FinalStatusOfLast(t: State)
    requires Inv(t) && t.last.Some? && t.status != Running
    ensures t.last.value < |t.requests| && HasEnded(t.requests[t.last.value])
    ensures t.status == FinalStatus(t.requests[t.last.value].exit)
  {
  }

  lemma NothingReported(t: State)
    requires Inv(t) && t.last.None? && t.status != Running
    ensures t.status == Idle
  {
  }

  // ---------- Who is let in ----------

  // A request reads the database once.
  lemma {:induction false} ReadsOnce(s: State, steps: seq<Step>, t: State, i: nat, rowOpen: bool)
    requires Run(s, steps, t) && i < |s.requests| && !s.requests[i].Fresh?
    ensures ReadRow(i, rowOpen) !in steps
    ensures i < |t.requests| && (t.requests[i].Checked? ==> t.requests[i] == s.requests[i])
    decreases |steps|
  {
    if steps != [] {
      ReadsOnce(Next(s, steps[0]), steps[1..], t, i, rowOpen);
    }
  }

  // The answer that request i got is the one it decides on.
  lemma {:induction false} RowIsAsRead(s: State, steps: seq<Step>, t: State, i: nat, rowOpen: bool)
    requires Run(s, steps, t) && i < |t.requests| && t.requests[i].Checked?
    requires i < |s.requests| ==> s.requests[i].Fresh?
    ensures ReadRow(i, rowOpen) in steps <==> t.requests[i].rowOpen == rowOpen
    decreases |steps|
  {
    if steps != [] {
      var next := Next(s, steps[0]);
      assert forall x :: x in steps <==> x == steps[0] || x in steps[1..];
      if i < |next.requests| && !next.requests[i].Fresh? {
        ReadsOnce(next, steps[1..], t, i, rowOpen);
      } else {
        RowIsAsRead(next, steps[1..], t, i, rowOpen);
      }
    }
  }

  // Main result: a request is let in exactly when no other has the slot and it read no open row; then
  // it alone has the slot.
  lemma RequestIsLetInIff(steps: seq<Step>, t: State, i: nat)
    requires Run(Start(), steps, t) && Enabled(t, Decide(i))
    ensures var next := Next(t, Decide(i));
            && (next.requests[i] == Acquired <==> !(exists j :: Owner(t, j)) && ReadRow(i, false) in steps)
            && (next.requests[i] != Acquired ==> next.requests[i] == Refused && next.status == t.status)
            && (next.requests[i] == Acquired ==> next.status == Running && forall j | Owner(next, j) :: j == i)
  {
    hide Run;
    ReachableInv(steps, t);
    RowIsAsRead(Start(), steps, t, i, false);
    StepKeeps(t, Decide(i));
    var next := Next(t, Decide(i));
    assert next.status == Running <==> exists j :: Owner(next, j);
    assert next.requests[i] == Acquired ==> Owner(next, i);
  }
}
