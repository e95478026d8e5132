/** What the background worker's queue takes in, sends and throws away. */
module QueueLimits {
  import opened Wrappers
  import opened CaptureQueue

  function Pushes(steps: seq<Step>): seq<Message> {
    if steps == [] then []
    else
      (match steps[0]
       case Push(m) => if m.service != "" && m.kind != "" then [m] else []
       case _ => []) + Pushes(steps[1..])
  }

  function MessagesOf(items: seq<Item>): seq<Message> {
    seq(|items|, i requires 0 <= i < |items| => items[i].message)
  }

  lemma PushingStep(s: State, step: Step)
    requires Enabled(s, step)
    ensures MessagesOf(Next(s, step).pushed) == MessagesOf(s.pushed) + Pushes([step])
  {
    assert [step][1..] == [];
    if step.Push? && IsCapture(step.message) {
      assert MessagesOf(s.pushed + [Item(|s.pushed|, step.message)]) == MessagesOf(s.pushed) + [step.message];
    } else {
      assert MessagesOf(s.pushed) + [] == MessagesOf(s.pushed);
    }
  }

  lemma {:induction false} RunPushes(s: State, steps: seq<Step>, t: State)
    requires Run(s, steps, t)
    ensures MessagesOf(t.pushed) == MessagesOf(s.pushed) + Pushes(steps)
    decreases |steps|
  {
    hide Next, Enabled, MessagesOf;
    if steps != [] {
      PushingStep(s, steps[0]);
      RunPushes(Next(s, steps[0]), steps[1..], t);
      assert [steps[0]][1..] == [];
      assert Pushes(steps) == Pushes([steps[0]]) + Pushes(steps[1..]);
      Regrouped(MessagesOf(s.pushed), Pushes([steps[0]]), Pushes(steps[1..]));
    } else {
      assert MessagesOf(s.pushed) + [] == MessagesOf(s.pushed);
    }
  }

  lemma Regrouped<T>(a: seq<T>, b: seq<T>, c: seq<T>)
    ensures (a + b) + c == a + (b + c)
  {
  }

  // What the queue has to account for is every message that arrived with a service and a type, in the
  // order of arrival.
  lemma EveryCaptureIsQueued(steps: seq<Step>, t: State)
    requires Run(Start(), steps, t)
    ensures MessagesOf(t.pushed) == Pushes(steps)
  {
    RunPushes(Start(), steps, t);
    assert [] + Pushes(steps) == Pushes(steps);
  }

  // A tick sends the oldest events: all, or 100 of them.
  lemma TickSendsTheOldest(s: State)
    requires Enabled(s, Tick)
    ensures var t := Next(s, Tick);
            && |t.flights| == |s.flights| + 1 && t.flights[..|s.flights|] == s.flights
            && var batch := Batch(t.flights[|s.flights|]);
               batch + t.buffer == s.buffer && |batch| == if |s.buffer| < 100 then |s.buffer| else 100
  {
    var n := BatchSize(|s.buffer|);
    assert s.buffer == s.buffer[..n] + s.buffer[n..];
    assert [] + s.buffer[..n] == s.buffer[..n];
  }

  // A request that fails goes back in front of the buffer, and of all that waits the latest 1000 stay.
  lemma FailureKeepsTheLatest(s: State, i: nat)
    requires Enabled(s, Fail(i))
    ensures var t := Next(s, Fail(i));
            && s.dropped <= t.dropped
            && t.dropped[|s.dropped|..] + t.buffer == Batch(s.flights[i]) + s.buffer
            && (|t.buffer| == 1000 || t.dropped == s.dropped) && |t.buffer| <= 1000
  {
    var queue := Batch(s.flights[i]) + s.buffer;
    var n := Excess(|queue|);
    assert queue == queue[..n] + queue[n..];
    assert (s.dropped + queue[..n])[|s.dropped|..] == queue[..n];
    assert n == 0 ==> s.dropped + queue[..n] == s.dropped;
  }

  // ---------- How much is dropped ----------

  function Waiting(flights: seq<Flight>): nat {
    if flights == [] then 0 else |Batch(flights[0])| + Waiting(flights[1..])
  }

  lemma {:induction false} WaitingAppend(flights: seq<Flight>, f: Flight)
    ensures Waiting(flights + [f]) == Waiting(flights) + |Batch(f)|
  {
    if flights != [] {
      assert (flights + [f])[1..] == flights[1..] + [f];
      WaitingAppend(flights[1..], f);
    }
  }

  lemma {:induction false} WaitingUpdate(flights: seq<Flight>, i: nat, f: Flight)
    requires i < |flights| && |Batch(f)| == |Batch(flights[i])|
    ensures Waiting(flights[i := f]) == Waiting(flights)
  {
    if i == 0 {
      assert flights[i := f][1..] == flights[1..];
    } else {
      assert flights[i := f][1..] == flights[1..][i - 1 := f];
      WaitingUpdate(flights[1..], i - 1, f);
    }
  }

  lemma {:induction false} WaitingWithout(flights: seq<Flight>, i: nat)
    requires i < |flights|
    ensures Waiting(Without(flights, i)) == Waiting(flights) - |Batch(flights[i])|
  {
    if i == 0 {
      assert Without(flights, i) == flights[1..];
    } else {
      assert Without(flights, i)[0] == flights[0];
      assert Without(flights, i)[1..] == Without(flights[1..], i - 1);
      WaitingWithout(flights[1..], i - 1);
    }
  }

  // Every event is counted once; and only what exceeds 1000 is dropped.
  ghost predicate IsCounted(s: State) {
    && |s.pushed| == |s.buffer| + Waiting(s.flights) + |s.settled| + |s.dropped|
    && (s.dropped != [] ==> |s.pushed| >= 1000 + |s.dropped|)
  }

  lemma StepIsCounted(s: State, step: Step)
    requires IsCounted(s) && Enabled(s, step)
    ensures IsCounted(Next(s, step))
  {
    match step
    case Push(m) =>
    case Tick => WaitingAppend(s.flights, Flight([], s.buffer[..BatchSize(|s.buffer|)]));
    case Take(i) => WaitingUpdate(s.flights, i, Taking(s.flights[i]));
    case TakeLate(i) =>
    case Succeed(i) => WaitingWithout(s.flights, i);
    case Fail(i) =>
      WaitingWithout(s.flights, i);
      FailureKeepsTheLatest(s, i);
  }

  lemma {:induction false} RunIsCounted(s: State, steps: seq<Step>, t: State)
    requires IsCounted(s) && Run(s, steps, t)
    ensures IsCounted(t)
    decreases |steps|
  {
    hide IsCounted, Next, Enabled;
    if steps != [] {
      StepIsCounted(s, steps[0]);
      RunIsCounted(Next(s, steps[0]), steps[1..], t);
    }
  }

  // Main result: in every run, events are dropped only beyond the first thousand captured: as long as
  // at most 1000 were captured none is ever lost, and of more at least 1000 are not.
  lemma OnlyTheExcessIsDropped(steps: seq<Step>, t: State)
    requires Run(Start(), steps, t)
    ensures |Pushes(steps)| <= 1000 ==> t.dropped == []
    ensures t.dropped != [] ==> |t.dropped| <= |Pushes(steps)| - 1000
  {
    RunIsCounted(Start(), steps, t);
    EveryCaptureIsQueued(steps, t);
  }
}
