/** The Discover button: request handlers compete for one scan slot, a runner thread scans under the
    shared scan lock and must leave a final status behind. Schedulers and the command line use the
    same lock. */
module ScanSlot {
  import opened Wrappers

  datatype Status = Idle | Running | Done | SkippedLockHeld | Error

  // What the scan itself does, as run_discover sees it.
  datatype ScanResult = Completed | LockHeld | ScanRaised

  // How run_discover ends: a code, an exception, or something `except Exception` does not catch.
  datatype Exit = Returned(code: int) | Threw | Aborted

  function RunDiscover(result: ScanResult): Exit {
    match result
    case ScanRaised => Returned(2)
    case LockHeld => Returned(1)
    case Completed => Returned(0)
  }

  // The runner's finally block.
  function FinalCode(exit: Exit): int {
    if exit.Returned? then exit.code else 2
  }

  function FinalStatus(exit: Exit): Status {
    if FinalCode(exit) == 0 && !exit.Threw? then Done
    else if FinalCode(exit) == 1 then SkippedLockHeld
    else Error
  }

  class DiscoveryScanState {
    var status: Status
    var exitCode: Option<int>
    var hasError: bool

    constructor ()
      ensures status == Idle && exitCode == None && !hasError
    {
      status, exitCode, hasError := Idle, None, false;
    }

    // The handler's critical section; `rowOpen` was read from the database before it.
    method TryAcquire(rowOpen: bool) returns (accepted: bool)
      modifies this
      ensures accepted == (old(status) != Running && !rowOpen)
      ensures accepted ==> status == Running && exitCode == None && !hasError
      ensures !accepted ==> status == old(status) && exitCode == old(exitCode) && hasError == old(hasError)
    {
      if status == Running {
        return false;
      }
      if rowOpen {
        return false;
      }
      status, exitCode, hasError := Running, None, false;
      accepted := true;
    }

    // The runner's critical section.
    method Finish(exit: Exit)
      modifies this
      ensures status == FinalStatus(exit)
      ensures exitCode == Some(FinalCode(exit)) == Some(if exit.Returned? then exit.code else 2)
      ensures status in {Done, SkippedLockHeld, Error}
      ensures hasError <==> status != Done
    {
      var code, error := 2, false;
      match exit {
        case Returned(c) => code := c;
        case Threw => error := true;
        case Aborted =>
      }
      exitCode := Some(code);
      if code == 0 && !error {
        status, hasError := Done, false;
      } else if code == 1 {
        status, hasError := SkippedLockHeld, true;
      } else {
        status, hasError := Error, true;
      }
    }
  }

  // ---------- Any number of handlers ----------

  // One request, from its handler to the runner it may spawn. `held` records that the runner's scan
  // ran under the lock.
  datatype Phase =
    | Fresh
    | Checked(rowOpen: bool)
    | Refused
    | Acquired
    | NotStarted
    | Spawned
    | Scanning
    | Finishing(exit: Exit, held: bool)
    | Finished(exit: Exit, held: bool)

  datatype Holder = Runner(request: nat) | Outsider

  // `last` is the request whose runner wrote the status last.
  datatype State = State(status: Status, requests: seq<Phase>, lock: Option<Holder>, last: Option<nat>)

  datatype Step =
    | Arrive
    | ReadRow(i: nat, rowOpen: bool)
    | Decide(i: nat)
    | StartThread(i: nat, started: bool)
    | TryLock(i: nat)
    | EndScan(i: nat, raised: bool)
    | Fail(i: nat, caught: bool)
    | Report(i: nat)
    | OutsiderLocks
    | OutsiderUnlocks

  function Start(): State {
    State(Idle, [], None, None)
  }

  predicate Enabled(s: State, step: Step) {
    match step
    case Arrive => true
    case ReadRow(i, _) => i < |s.requests| && s.requests[i].Fresh?
    case Decide(i) => i < |s.requests| && s.requests[i].Checked?
    case StartThread(i, _) => i < |s.requests| && s.requests[i].Acquired?
    case TryLock(i) => i < |s.requests| && s.requests[i].Spawned?
    case EndScan(i, _) => i < |s.requests| && s.requests[i].Scanning?
    case Fail(i, _) => i < |s.requests| && (s.requests[i].Spawned? || s.requests[i].Scanning?)
    case Report(i) => i < |s.requests| && s.requests[i].Finishing?
    case OutsiderLocks => s.lock.None?
    case OutsiderUnlocks => s.lock == Some(Outsider)
  }

  function Put(s: State, i: nat, p: Phase): State
    requires i < |s.requests|
  {
    s.(requests := s.requests[i := p])
  }

  function Next(s: State, step: Step): State
    requires Enabled(s, step)
  {
    match step
    case Arrive => s.(requests := s.requests + [Fresh])
    case ReadRow(i, rowOpen) => Put(s, i, Checked(rowOpen))
    case Decide(i) =>
      if s.status == Running || s.requests[i].rowOpen then Put(s, i, Refused)
      else Put(s, i, Acquired).(status := Running)
    case StartThread(i, started) => Put(s, i, if started then Spawned else NotStarted)
    case TryLock(i) =>
      if s.lock.None? then Put(s, i, Scanning).(lock := Some(Runner(i)))
      else Put(s, i, Finishing(RunDiscover(LockHeld), false))
    case EndScan(i, raised) =>
      Put(s, i, Finishing(RunDiscover(if raised then ScanRaised else Completed), true)).(lock := None)
    case Fail(i, caught) =>
      var held := s.requests[i].Scanning?;
      Put(s, i, Finishing(if caught then Threw else Aborted, held)).(lock := if held then None else s.lock)
    case Report(i) =>
      var exit := s.requests[i].exit;
      Put(s, i, Finished(exit, s.requests[i].held)).(status := FinalStatus(exit), last := Some(i))
    case OutsiderLocks => s.(lock := Some(Outsider))
    case OutsiderUnlocks => s.(lock := None)
  }

  ghost predicate Run(s: State, steps: seq<Step>, t: State)
    decreases |steps|
  {
    if steps == [] then s == t
    else Enabled(s, steps[0]) && Run(Next(s, steps[0]), steps[1..], t)
  }

  // A request that owns the slot: accepted, and its status not yet written.
  predicate Owns(p: Phase) {
    p.Acquired? || p.NotStarted? || p.Spawned? || p.Scanning? || p.Finishing?
  }

  predicate Owner(s: State, i: nat) {
    i < |s.requests| && Owns(s.requests[i])
  }

  ghost predicate Inv(s: State) {
    && (s.status == Running <==> exists i :: Owner(s, i))
    && (forall i, j | Owner(s, i) && Owner(s, j) :: i == j)
    && (forall i | 0 <= i < |s.requests| :: s.requests[i].Scanning? <==> s.lock == Some(Runner(i)))
    && (forall i | 0 <= i < |s.requests| && (s.requests[i].Finishing? || s.requests[i].Finished?) ::
          s.requests[i].exit == Returned(0) ==> s.requests[i].held)
    && (s.lock.Some? && s.lock.value.Runner? ==> s.lock.value.request < |s.requests|)
    && (s.last.None? ==> s.status in {Idle, Running})
    && (s.last.Some? ==> s.last.value < |s.requests| && s.requests[s.last.value].Finished?
                         && s.status in {Running, FinalStatus(s.requests[s.last.value].exit)})
  }

  // Replacing a phase by one that owns the slot just as much.
  lemma SameOwner(s: State, t: State, i: nat)
    requires i < |s.requests| && |t.requests| == |s.requests|
    requires t.requests == s.requests[i := t.requests[i]] && Owns(t.requests[i]) == Owns(s.requests[i])
    ensures forall j: nat :: Owner(t, j) <==> Owner(s, j)
  {
  }

  lemma DecideKeeps(s: State, i: nat)
    requires Inv(s) && Enabled(s, Decide(i))
    ensures Inv(Next(s, Decide(i)))
  {
    var t := Next(s, Decide(i));
    if t.requests[i] == Refused {
      SameOwner(s, t, i);
    } else {
      assert Owner(t, i);
      assert forall j: nat | j != i :: Owner(t, j) == Owner(s, j);
    }
  }

  lemma ReportKeeps(s: State, i: nat)
    requires Inv(s) && Enabled(s, Report(i))
    ensures Inv(Next(s, Report(i)))
  {
    var t := Next(s, Report(i));
    assert Owner(s, i);
    assert !Owner(t, i);
    assert forall j: nat | j != i :: Owner(t, j) == Owner(s, j);
  }

  // A step of request i by which it neither gains nor loses the slot.
  lemma InnerStepKeeps(s: State, step: Step, i: nat)
    requires Inv(s) && Enabled(s, step)
    requires step in {StartThread(i, true), StartThread(i, false), TryLock(i)}
    ensures Inv(Next(s, step))
  {
    SameOwner(s, Next(s, step), i);
  }

  lemma ScanEndKeeps(s: State, step: Step, i: nat)
    requires Inv(s) && Enabled(s, step)
    requires step in {EndScan(i, true), EndScan(i, false), Fail(i, true), Fail(i, false)}
    ensures Inv(Next(s, step))
  {
    SameOwner(s, Next(s, step), i);
  }

  lemma OuterStepKeeps(s: State, step: Step)
    requires Inv(s) && Enabled(s, step)
    requires step.Arrive? || step.ReadRow? || step.OutsiderLocks? || step.OutsiderUnlocks?
    ensures Inv(Next(s, step))
  {
    var t := Next(s, step);
    if step.ReadRow? {
      SameOwner(s, t, step.i);
    } else {
      assert forall j: nat :: Owner(t, j) == Owner(s, j);
    }
  }

  lemma StepKeeps(s: State, step: Step)
    requires Inv(s) && Enabled(s, step)
    ensures Inv(Next(s, step))
  {
    hide Inv;
    match step
    case Decide(i) => DecideKeeps(s, i);
    case StartThread(i, _) => InnerStepKeeps(s, step, i);
    case TryLock(i) => InnerStepKeeps(s, step, i);
    case EndScan(i, _) => ScanEndKeeps(s, step, i);
    case Fail(i, _) => ScanEndKeeps(s, step, i);
    case Report(i) => ReportKeeps(s, i);
    case _ => OuterStepKeeps(s, step);
  }

  lemma {:induction false} RunKeeps(s: State, steps: seq<Step>, t: State)
    requires Inv(s) && Run(s, steps, t)
    ensures Inv(t)
    decreases |steps|
  {
    if steps != [] {
      StepKeeps(s, steps[0]);
      RunKeeps(Next(s, steps[0]), steps[1..], t);
    }
  }

  // Main result: in every run the slot is marked running exactly when one request owns it, and then
  // only one does; the scan lock is held by at most that request's runner; a final status is the one
  // its last runner earned; and `done` means that a scan ran under the lock and returned 0.
  lemma SlotIsExclusive(steps: seq<Step>, t: State)
    requires Run(Start(), steps, t)
    ensures t.status == Running <==> exists i :: Owner(t, i)
    ensures forall i, j | Owner(t, i) && Owner(t, j) :: i == j
    ensures forall i | 0 <= i < |t.requests| && t.requests[i].Scanning? :: t.lock == Some(Runner(i))
    ensures t.last.Some? ==> t.last.value < |t.requests|
    ensures t.status == Done ==> t.last.Some? && t.requests[t.last.value] == Finished(Returned(0), true)
    ensures t.status !in {Idle, Running} ==>
              t.last.Some? && t.requests[t.last.value].Finished?
              && t.status == FinalStatus(t.requests[t.last.value].exit)
  {
    assert forall i: nat :: !Owner(Start(), i);
    RunKeeps(Start(), steps, t);
  }

  // Whatever happens to it, a runner that reports leaves one of the three final statuses.
  lemma EveryReportIsFinal(s: State, i: nat)
    requires Enabled(s, Report(i))
    ensures Next(s, Report(i)).status in {Done, SkippedLockHeld, Error}
    ensures Next(s, Report(i)).status == Done <==> s.requests[i].exit == Returned(0)
    ensures Next(s, Report(i)).status == SkippedLockHeld <==> s.requests[i].exit == Returned(1)
  {
  }

  // ---------- Running without a runner ----------

  // A request whose runner is on its way, at work, or about to report.
  predicate Live(s: State, i: nat) {
    i < |s.requests| && Owns(s.requests[i]) && !s.requests[i].NotStarted?
  }

  predicate Stuck(s: State, i: nat) {
    i < |s.requests| && s.requests[i].NotStarted?
  }

  predicate IsFailedStart(step: Step) {
    step.StartThread? && !step.started
  }

  lemma {:induction false} StuckIffAStartFailed(s: State, steps: seq<Step>, t: State)
    requires Run(s, steps, t)
    ensures (exists i :: Stuck(t, i)) <==>
              (exists i :: Stuck(s, i)) || exists step :: step in steps && IsFailedStart(step)
    decreases |steps|
  {
    if steps != [] {
      var step, rest := steps[0], steps[1..];
      StuckAfterStep(s, step);
      StuckIffAStartFailed(Next(s, step), rest, t);
      assert forall x :: x in steps <==> x == step || x in rest;
    }
  }

  lemma StuckAfterStep(s: State, step: Step)
    requires Enabled(s, step)
    ensures (exists i :: Stuck(Next(s, step), i)) <==> (exists i :: Stuck(s, i)) || IsFailedStart(step)
  {
    var t := Next(s, step);
    forall i | Stuck(s, i)
      ensures Stuck(t, i)
    {
    }
    if IsFailedStart(step) {
      assert Stuck(t, step.i);
    } else {
      forall i | Stuck(t, i)
        ensures Stuck(s, i)
      {
      }
    }
  }

  // Main result: in every run, `the slot is marked running exactly when some runner is live` holds
  // if and only if no thread failed to start. The handler takes the slot before it starts the thread,
  // and nothing gives it back when that fails.
  lemma RunningMeansLiveIffEveryThreadStarted(steps: seq<Step>, t: State)
    requires Run(Start(), steps, t)
    ensures (t.status == Running <==> exists i :: Live(t, i)) <==>
              forall step | step in steps :: !IsFailedStart(step)
  {
    SlotIsExclusive(steps, t);
    StuckIffAStartFailed(Start(), steps, t);
    if i :| Stuck(t, i) {
      assert Owner(t, i);
      assert forall j: nat | Live(t, j) :: Owner(t, j);
    } else {
      forall i: nat
        ensures Owner(t, i) <==> Live(t, i)
      {
        assert !Stuck(t, i);
      }
    }
  }

  // A slot that is stuck stays running for ever, and every later request is refused.
  lemma {:induction false} FailedStartKeepsTheSlot(s: State, i: nat, steps: seq<Step>, t: State)
    requires Inv(s) && Stuck(s, i) && Run(s, steps, t)
    ensures t.status == Running && Stuck(t, i)
    ensures forall j: nat | Enabled(t, Decide(j)) :: Next(t, Decide(j)).requests[j] == Refused
    decreases |steps|
  {
    assert Owner(s, i) && s.status == Running;
    if steps != [] {
      StepKeeps(s, steps[0]);
      FailedStartKeepsTheSlot(Next(s, steps[0]), i, steps[1..], t);
    }
  }

  // A step of the handler or runner of request i.
  predicate IsStepOf(step: Step, i: nat) {
    step in {StartThread(i, true), TryLock(i), EndScan(i, false), Report(i)}
  }

  // A live request can always finish by steps of its own, whatever the others hold, and then the
  // slot is free.
  lemma LiveRequestCanFinish(s: State, i: nat) returns (steps: seq<Step>, t: State)
    requires Inv(s) && Live(s, i)
    ensures Run(s, steps, t) && forall step | step in steps :: IsStepOf(step, i)
    ensures i < |t.requests| && t.requests[i].Finished? && t.status != Running
    decreases match s.requests[i]
              case Acquired => 3
              case Spawned => 2
              case Scanning => 1
              case _ => 0
  {
    var step := match s.requests[i]
      case Acquired => StartThread(i, true)
      case Spawned => TryLock(i)
      case Scanning => EndScan(i, false)
      case _ => Report(i);
    var next := Next(s, step);
    StepKeeps(s, step);
    if step == Report(i) {
      steps, t := [step], next;
      assert Run(next, [], next);
    } else {
      var rest: seq<Step>;
      rest, t := LiveRequestCanFinish(next, i);
      steps := [step] + rest;
    }
  }
}
