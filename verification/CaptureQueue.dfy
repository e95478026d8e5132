/** The extension's background worker: captures are buffered, sent in batches every few seconds,
    and put back at the front of the buffer when a request fails. Requests may overlap. */
module CaptureQueue {
  import opened Wrappers

  const MAX_BATCH_SIZE := 100
  const MAX_OFFLINE_QUEUE := 1000

  datatype Message = Message(
    service: string,
    kind: string,
    url: string,
    title: string,
    timestamp: string,
    text: string,
    conversationId: Option<string>)

  predicate IsCapture(m: Message) {
    m.service != "" && m.kind != ""
  }

  // ---------- The buffer ----------

  function BatchSize(buffered: nat): nat {
    if buffered < MAX_BATCH_SIZE then buffered else MAX_BATCH_SIZE
  }

  // How many of the oldest entries trimming drops.
  function Excess(queued: nat): nat {
    if queued > MAX_OFFLINE_QUEUE then queued - MAX_OFFLINE_QUEUE else 0
  }

  // The buffer after a failed batch is put back: in front, and trimmed to the most recent entries.
  function Requeued<T>(batch: seq<T>, buffer: seq<T>): seq<T> {
    (batch + buffer)[Excess(|batch + buffer|)..]
  }

  class BackgroundWorker {
    var eventBuffer: seq<Message>

    constructor ()
      ensures eventBuffer == []
    {
      eventBuffer := [];
    }

    method OnMessage(message: Message)
      modifies this
      ensures eventBuffer == old(eventBuffer) + if IsCapture(message) then [message] else []
    {
      if message.service != "" && message.kind != "" {
        eventBuffer := eventBuffer + [message];
      }
    }

    // The synchronous start of a tick.
    method TakeBatch() returns (batch: seq<Message>)
      modifies this
      ensures batch + eventBuffer == old(eventBuffer)
      ensures |batch| == BatchSize(|old(eventBuffer)|) == if |old(eventBuffer)| < 100 then |old(eventBuffer)| else 100
    {
      var n := if |eventBuffer| < MAX_BATCH_SIZE then |eventBuffer| else MAX_BATCH_SIZE;
      batch := eventBuffer[..n];
      eventBuffer := eventBuffer[n..];
    }

    // The failure paths of a tick.
    method PutBack(batch: seq<Message>)
      modifies this
      ensures eventBuffer == Requeued(batch, old(eventBuffer))
      ensures |eventBuffer| == if |batch| + |old(eventBuffer)| < 1000 then |batch| + |old(eventBuffer)| else 1000
    {
      eventBuffer := batch + eventBuffer;
      TrimBuffer();
    }

    method TrimBuffer()
      modifies this
      ensures eventBuffer == old(eventBuffer)[Excess(|old(eventBuffer)|)..]
    {
      if |eventBuffer| > MAX_OFFLINE_QUEUE {
        eventBuffer := eventBuffer[|eventBuffer| - MAX_OFFLINE_QUEUE..];
      }
    }
  }

  // ---------- Runs with any number of outstanding requests ----------

  // A captured message with its arrival number, so that equal messages stay distinguishable.
  datatype Item = Item(tag: nat, message: Message)

  // A request: what the server has taken of its batch, and what it has not.
  datatype Flight = Flight(taken: seq<Item>, todo: seq<Item>)

  function Batch(f: Flight): seq<Item> {
    f.taken + f.todo
  }

  // `strays` are requests the worker has given up and the server may still be working on, `settled`
  // lists what successful requests carried, `echoed` what the server has taken of batches that were
  // put back, `delivered` everything the server has taken, in that order.
  datatype State = State(
    pushed: seq<Item>,
    buffer: seq<Item>,
    flights: seq<Flight>,
    strays: seq<Flight>,
    delivered: seq<Item>,
    settled: seq<Item>,
    echoed: seq<Item>,
    dropped: seq<Item>)

  // The server takes the events of a request one by one, also of one the worker has given up.
  datatype Step =
    | Push(message: Message)
    | Tick
    | Take(flight: nat)
    | TakeLate(stray: nat)
    | Succeed(flight: nat)
    | Fail(flight: nat)

  function Start(): State {
    State([], [], [], [], [], [], [], [])
  }

  predicate Enabled(s: State, step: Step) {
    match step
    case Push(_) => true
    case Tick => s.buffer != []
    case Take(i) => i < |s.flights| && s.flights[i].todo != []
    case TakeLate(i) => i < |s.strays| && s.strays[i].todo != []
    case Succeed(i) => i < |s.flights| && s.flights[i].todo == []
    case Fail(i) => i < |s.flights|
  }

  function Without<T>(s: seq<T>, i: nat): seq<T>
    requires i < |s|
  {
    s[..i] + s[i + 1..]
  }

  function Taking(f: Flight): Flight
    requires f.todo != []
  {
    Flight(f.taken + [f.todo[0]], f.todo[1..])
  }

  function Next(s: State, step: Step): State
    requires Enabled(s, step)
  {
    match step
    case Push(m) =>
      if !IsCapture(m) then s
      else var item := Item(|s.pushed|, m);
           s.(pushed := s.pushed + [item], buffer := s.buffer + [item])
    case Tick =>
      var n := BatchSize(|s.buffer|);
      s.(buffer := s.buffer[n..], flights := s.flights + [Flight([], s.buffer[..n])])
    case Take(i) =>
      var f := s.flights[i];
      s.(flights := s.flights[i := Taking(f)], delivered := s.delivered + [f.todo[0]])
    case TakeLate(i) =>
      var f := s.strays[i];
      s.(strays := s.strays[i := Taking(f)], delivered := s.delivered + [f.todo[0]],
         echoed := s.echoed + [f.todo[0]])
    case Succeed(i) =>
      s.(flights := Without(s.flights, i), settled := s.settled + Batch(s.flights[i]))
    case Fail(i) =>
      var f := s.flights[i];
      var queue := Batch(f) + s.buffer;
      s.(flights := Without(s.flights, i), strays := s.strays + [f],
         buffer := Requeued(Batch(f), s.buffer),
         dropped := s.dropped + queue[..Excess(|queue|)],
         echoed := s.echoed + f.taken)
  }

  ghost predicate Run(s: State, steps: seq<Step>, t: State)
    decreases |steps|
  {
    if steps == [] then s == t
    else Enabled(s, steps[0]) && Run(Next(s, steps[0]), steps[1..], t)
  }

  // ---------- Conservation ----------

  function Count(x: Item, s: seq<Item>): nat {
    multiset(s)[x]
  }

  function CountIn(x: Item, f: Flight, taken: bool): nat {
    Count(x, if taken then f.taken else f.todo)
  }

  // How often x is among what the server has taken of the requests, or has not.
  function InFlight(x: Item, flights: seq<Flight>, taken: bool): nat {
    if flights == [] then 0 else CountIn(x, flights[0], taken) + InFlight(x, flights[1..], taken)
  }

  ghost predicate Conserved(s: State, x: Item) {
    && Count(x, s.pushed) == Count(x, s.buffer) + InFlight(x, s.flights, false) + InFlight(x, s.flights, true)
                             + Count(x, s.settled) + Count(x, s.dropped)
    && Count(x, s.delivered) == Count(x, s.settled) + InFlight(x, s.flights, true) + Count(x, s.echoed)
    && (forall i | 0 <= i < |s.pushed| :: s.pushed[i].tag == i)
    && (forall f | f in s.flights :: 0 < |Batch(f)| <= MAX_BATCH_SIZE)
  }

  lemma CountAppend(x: Item, a: seq<Item>, b: seq<Item>)
    ensures Count(x, a + b) == Count(x, a) + Count(x, b)
  {
  }

  lemma CountSplit(x: Item, s: seq<Item>, n: nat)
    requires n <= |s|
    ensures Count(x, s) == Count(x, s[..n]) + Count(x, s[n..])
  {
    assert s == s[..n] + s[n..];
  }

  lemma {:induction false} InFlightAppend(x: Item, flights: seq<Flight>, f: Flight, taken: bool)
    ensures InFlight(x, flights + [f], taken) == InFlight(x, flights, taken) + CountIn(x, f, taken)
  {
    if flights != [] {
      assert (flights + [f])[1..] == flights[1..] + [f];
      InFlightAppend(x, flights[1..], f, taken);
    }
  }

  lemma {:induction false} InFlightUpdate(x: Item, flights: seq<Flight>, i: nat, f: Flight, taken: bool)
    requires i < |flights|
    ensures InFlight(x, flights[i := f], taken)
         == InFlight(x, flights, taken) - CountIn(x, flights[i], taken) + CountIn(x, f, taken)
  {
    if i == 0 {
      assert flights[i := f][1..] == flights[1..];
    } else {
      assert flights[i := f][1..] == flights[1..][i - 1 := f];
      InFlightUpdate(x, flights[1..], i - 1, f, taken);
    }
  }

  lemma {:induction false} InFlightWithout(x: Item, flights: seq<Flight>, i: nat, taken: bool)
    requires i < |flights|
    ensures InFlight(x, Without(flights, i), taken)
         == InFlight(x, flights, taken) - CountIn(x, flights[i], taken)
  {
    if i == 0 {
      assert Without(flights, i) == flights[1..];
    } else {
      assert Without(flights, i)[0] == flights[0];
      assert Without(flights, i)[1..] == Without(flights[1..], i - 1);
      InFlightWithout(x, flights[1..], i - 1, taken);
    }
  }

  lemma TickConserves(s: State, x: Item)
    requires Conserved(s, x) && s.buffer != []
    ensures Conserved(Next(s, Tick), x)
  {
    var n := BatchSize(|s.buffer|);
    CountSplit(x, s.buffer, n);
    InFlightAppend(x, s.flights, Flight([], s.buffer[..n]), true);
    InFlightAppend(x, s.flights, Flight([], s.buffer[..n]), false);
  }

  lemma TakingCounts(x: Item, f: Flight)
    requires f.todo != []
    ensures CountIn(x, Taking(f), true) == CountIn(x, f, true) + Count(x, [f.todo[0]])
    ensures CountIn(x, f, false) == CountIn(x, Taking(f), false) + Count(x, [f.todo[0]])
    ensures |Batch(Taking(f))| == |Batch(f)|
  {
    CountAppend(x, f.taken, [f.todo[0]]);
    CountSplit(x, f.todo, 1);
    assert f.todo[..1] == [f.todo[0]];
  }

  lemma TakeConserves(s: State, i: nat, x: Item)
    requires Conserved(s, x) && Enabled(s, Take(i))
    ensures Conserved(Next(s, Take(i)), x)
  {
    hide InFlight, Count, CountIn;
    var f := s.flights[i];
    TakingCounts(x, f);
    CountAppend(x, s.delivered, [f.todo[0]]);
    InFlightUpdate(x, s.flights, i, Taking(f), true);
    InFlightUpdate(x, s.flights, i, Taking(f), false);
  }

  lemma TakeLateConserves(s: State, i: nat, x: Item)
    requires Conserved(s, x) && Enabled(s, TakeLate(i))
    ensures Conserved(Next(s, TakeLate(i)), x)
  {
    hide InFlight, Count;
    CountAppend(x, s.delivered, [s.strays[i].todo[0]]);
    CountAppend(x, s.echoed, [s.strays[i].todo[0]]);
  }

  lemma SucceedConserves(s: State, i: nat, x: Item)
    requires Conserved(s, x) && Enabled(s, Succeed(i))
    ensures Conserved(Next(s, Succeed(i)), x)
  {
    var f := s.flights[i];
    assert Batch(f) == f.taken;
    CountAppend(x, s.settled, f.taken);
    InFlightWithout(x, s.flights, i, true);
    InFlightWithout(x, s.flights, i, false);
  }

  lemma FailConserves(s: State, i: nat, x: Item)
    requires Conserved(s, x) && Enabled(s, Fail(i))
    ensures Conserved(Next(s, Fail(i)), x)
  {
    hide InFlight, Count;
    var f := s.flights[i];
    var queue := Batch(f) + s.buffer;
    var excess := Excess(|queue|);
    CountAppend(x, f.taken, f.todo);
    CountAppend(x, Batch(f), s.buffer);
    CountSplit(x, queue, excess);
    CountAppend(x, s.dropped, queue[..excess]);
    CountAppend(x, s.echoed, f.taken);
    InFlightWithout(x, s.flights, i, true);
    InFlightWithout(x, s.flights, i, false);
  }

  lemma StepConserves(s: State, step: Step, x: Item)
    requires Conserved(s, x) && Enabled(s, step)
    ensures Conserved(Next(s, step), x)
  {
    match step
    case Push(m) =>
      CountAppend(x, s.pushed, [Item(|s.pushed|, m)]);
      CountAppend(x, s.buffer, [Item(|s.pushed|, m)]);
    case Tick => TickConserves(s, x);
    case Take(i) => TakeConserves(s, i, x);
    case TakeLate(i) => TakeLateConserves(s, i, x);
    case Succeed(i) => SucceedConserves(s, i, x);
    case Fail(i) => FailConserves(s, i, x);
  }

  lemma {:induction false} RunConserves(s: State, steps: seq<Step>, t: State, x: Item)
    requires Conserved(s, x) && Run(s, steps, t)
    ensures Conserved(t, x)
    decreases |steps|
  {
    if steps != [] {
      StepConserves(s, steps[0], x);
      RunConserves(Next(s, steps[0]), steps[1..], t, x);
    }
  }

  lemma {:induction false} PushedOnce(pushed: seq<Item>, x: Item)
    requires forall i | 0 <= i < |pushed| :: pushed[i].tag == i
    ensures Count(x, pushed) <= 1
  {
    if pushed != [] {
      var n := |pushed| - 1;
      PushedOnce(pushed[..n], x);
      assert pushed == pushed[..n] + [pushed[n]];
      if x == pushed[n] {
        assert x !in pushed[..n];
      }
    }
  }

  // Main result: whatever the interleaving, each captured event is in exactly one of five places:
  // the buffer, a request under way (taken by the server or not yet), settled, or dropped by trimming.
  // The server takes it once more for every batch it was put back with and taken from all the same,
  // before or after.
  lemma EveryEventIsSomewhere(steps: seq<Step>, t: State, x: Item)
    requires Run(Start(), steps, t) && x in t.pushed
    ensures Count(x, t.buffer) + InFlight(x, t.flights, false) + InFlight(x, t.flights, true)
            + Count(x, t.settled) + Count(x, t.dropped) == 1
    ensures Count(x, t.delivered) == Count(x, t.settled) + InFlight(x, t.flights, true) + Count(x, t.echoed)
    ensures t.echoed == [] ==>
              Count(x, t.buffer) + InFlight(x, t.flights, false) + Count(x, t.delivered) + Count(x, t.dropped) == 1
  {
    RunConserves(Start(), steps, t, x);
    PushedOnce(t.pushed, x);
  }

  lemma EveryBatchIsSmall(steps: seq<Step>, t: State, f: Flight)
    requires Run(Start(), steps, t) && f in t.flights
    ensures 0 < |Batch(f)| <= MAX_BATCH_SIZE
  {
    RunConserves(Start(), steps, t, Item(0, Message("", "", "", "", "", "", None)));
  }

  // ---------- One request at a time ----------

  predicate Increasing(s: seq<Item>) {
    forall i, j | 0 <= i < j < |s| :: s[i].tag < s[j].tag
  }

  // The items of s in the order of their first occurrence.
  function FirstOccurrences(s: seq<Item>): seq<Item> {
    if s == [] then []
    else
      var n := |s| - 1;
      FirstOccurrences(s[..n]) + if s[n] in s[..n] then [] else [s[n]]
  }

  function Outstanding(s: State): seq<Item> {
    if s.flights == [] then [] else Batch(s.flights[0])
  }

  ghost predicate SerialRun(s: State, steps: seq<Step>, t: State)
    decreases |steps|
  {
    if steps == [] then s == t
    else
      && Enabled(s, steps[0])
      && (steps[0].Tick? ==> s.flights == [])
      && !steps[0].TakeLate?
      && SerialRun(Next(s, steps[0]), steps[1..], t)
  }

  // Everything waiting is new to the server (later than all it has taken) or known to it.
  predicate NewOrKnown(delivered: seq<Item>, waiting: seq<Item>) {
    forall x, y | x in waiting && y in delivered :: x in delivered || y.tag < x.tag
  }

  ghost predicate InOrder(s: State) {
    && |s.flights| <= 1
    && Increasing(s.settled + Outstanding(s) + s.buffer)
    && (forall x | x in s.settled + Outstanding(s) + s.buffer :: x.tag < |s.pushed|)
    && (forall x | x in s.delivered :: x.tag < |s.pushed|)
    && Increasing(FirstOccurrences(s.delivered))
    && NewOrKnown(s.delivered, Outstanding(s) + s.buffer)
    && (s.flights != [] ==> forall x | x in s.flights[0].taken :: x in s.delivered)
  }

  lemma {:induction false} FirstOccurrencesSame(s: seq<Item>)
    ensures forall x :: x in FirstOccurrences(s) <==> x in s
  {
    if s != [] {
      var n := |s| - 1;
      FirstOccurrencesSame(s[..n]);
      assert s == s[..n] + [s[n]];
    }
  }

  lemma AppendKeepsOrder(before: seq<Item>, x: Item)
    requires Increasing(FirstOccurrences(before))
    requires x in before || forall y | y in before :: y.tag < x.tag
    ensures Increasing(FirstOccurrences(before + [x]))
  {
    assert (before + [x])[..|before|] == before;
    FirstOccurrencesSame(before);
    if x !in before {
      assert forall y | y in FirstOccurrences(before) :: y.tag < x.tag;
    }
  }

  // The next item of the request, taken while all before it in the request have been.
  lemma TakingKeepsWaiting(delivered: seq<Item>, taken: seq<Item>, x: Item, rest: seq<Item>)
    requires Increasing(taken + [x] + rest) && NewOrKnown(delivered, taken + [x] + rest)
    requires forall y | y in taken :: y in delivered
    ensures NewOrKnown(delivered + [x], taken + [x] + rest)
  {
    var waiting := taken + [x] + rest;
    forall y, z | y in waiting && z in delivered + [x]
      ensures y in delivered + [x] || z.tag < y.tag
    {
      if y in rest && z == x {
        var i :| 0 <= i < |rest| && rest[i] == y;
        assert waiting[|taken|] == x && waiting[|taken| + 1 + i] == y;
      }
    }
  }

  lemma IncreasingSlice(s: seq<Item>, before: seq<Item>, middle: seq<Item>, after: seq<Item>)
    requires Increasing(s) && s == before + middle + after
    ensures Increasing(before) && Increasing(middle)
    ensures Increasing(middle + after) && Increasing(before + after)
  {
    assert forall i | 0 <= i < |before| :: before[i] == s[i];
    assert forall i | 0 <= i < |middle + after| :: (middle + after)[i] == s[|before| + i];
    assert forall i | 0 <= i < |middle| :: middle[i] == (middle + after)[i];
    assert forall i | |before| <= i < |before + after| :: (before + after)[i] == s[|middle| + i];
  }

  lemma SerialTick(s: State)
    requires InOrder(s) && s.buffer != [] && s.flights == []
    ensures InOrder(Next(s, Tick))
  {
    var t := Next(s, Tick);
    var n := BatchSize(|s.buffer|);
    assert s.buffer == s.buffer[..n] + s.buffer[n..];
    assert t.settled + Outstanding(t) + t.buffer == s.settled + Outstanding(s) + s.buffer;
    assert Outstanding(t) + t.buffer == Outstanding(s) + s.buffer;
  }

  lemma SerialTake(s: State)
    requires InOrder(s) && Enabled(s, Take(0))
    ensures InOrder(Next(s, Take(0)))
  {
    hide FirstOccurrences, Increasing, NewOrKnown;
    var f := s.flights[0];
    var x, rest := f.todo[0], f.todo[1..] + s.buffer;
    var t := Next(s, Take(0));
    assert f.todo == [x] + f.todo[1..];
    assert Batch(Taking(f)) == Batch(f);
    assert Outstanding(t) == Outstanding(s);
    assert Outstanding(s) + s.buffer == f.taken + [x] + rest;
    IncreasingSlice(s.settled + Outstanding(s) + s.buffer, s.settled, Outstanding(s), s.buffer);
    TakingKeepsWaiting(s.delivered, f.taken, x, rest);
    assert x in f.taken + [x] + rest;
    NextIsNewOrKnown(s.delivered, f.taken + [x] + rest, x);
    AppendKeepsOrder(s.delivered, x);
    assert x in s.settled + Outstanding(s) + s.buffer;
  }

  lemma NextIsNewOrKnown(delivered: seq<Item>, waiting: seq<Item>, x: Item)
    requires NewOrKnown(delivered, waiting) && x in waiting
    ensures x in delivered || forall y | y in delivered :: y.tag < x.tag
  {
  }

  lemma SerialSucceed(s: State)
    requires InOrder(s) && Enabled(s, Succeed(0))
    ensures InOrder(Next(s, Succeed(0)))
  {
    var t := Next(s, Succeed(0));
    assert t.flights == [];
    assert t.settled + Outstanding(t) + t.buffer == s.settled + Outstanding(s) + s.buffer;
  }

  lemma CutInTwo<T>(a: seq<T>, b: seq<T>, c: seq<T>, k: nat)
    requires k <= |b + c|
    ensures a + b + c == a + (b + c)[..k] + (b + c)[k..]
  {
  }

  lemma SerialFail(s: State)
    requires InOrder(s) && Enabled(s, Fail(0))
    ensures InOrder(Next(s, Fail(0)))
  {
    var t := Next(s, Fail(0));
    var all := s.settled + Outstanding(s) + s.buffer;
    var queue := Outstanding(s) + s.buffer;
    var k := Excess(|queue|);
    assert t.flights == [] && Outstanding(t) == [] && t.buffer == queue[k..];
    CutInTwo(s.settled, Outstanding(s), s.buffer, k);
    IncreasingSlice(all, s.settled, queue[..k], queue[k..]);
    assert t.settled + Outstanding(t) + t.buffer == s.settled + queue[k..];
  }

  lemma SerialPush(s: State, m: Message)
    requires InOrder(s)
    ensures InOrder(Next(s, Push(m)))
  {
    hide FirstOccurrences;
    var t := Next(s, Push(m));
    if IsCapture(m) {
      assert t.settled + Outstanding(t) + t.buffer == (s.settled + Outstanding(s) + s.buffer) + [Item(|s.pushed|, m)];
      assert Outstanding(t) + t.buffer == (Outstanding(s) + s.buffer) + [Item(|s.pushed|, m)];
    }
  }

  lemma {:induction false} SerialRunInOrder(s: State, steps: seq<Step>, t: State)
    requires InOrder(s) && SerialRun(s, steps, t)
    ensures InOrder(t) && Run(s, steps, t)
    decreases |steps|
  {
    if steps != [] {
      match steps[0] {
        case Push(m) => SerialPush(s, m);
        case Tick => SerialTick(s);
        case Take(_) => SerialTake(s);
        case Succeed(_) => SerialSucceed(s);
        case Fail(_) => SerialFail(s);
      }
      SerialRunInOrder(Next(s, steps[0]), steps[1..], t);
    }
  }

  // With at most one request outstanding, and none that the server goes on with after it failed,
  // events reach the server (for the first time) and settle in the order of their capture, whatever
  // else fails and whatever is trimmed.
  lemma SerialDeliveryKeepsOrder(steps: seq<Step>, t: State)
    requires SerialRun(Start(), steps, t)
    ensures Increasing(FirstOccurrences(t.delivered))
    ensures Increasing(t.settled)
  {
    StartInOrder();
    SerialRunInOrder(Start(), steps, t);
    IncreasingSlice(t.settled + Outstanding(t) + t.buffer, t.settled, Outstanding(t), t.buffer);
  }

  lemma StartInOrder()
    ensures InOrder(Start())
  {
  }

  // With overlapping requests the order can be lost, even without any failure.
  lemma OverlapReorders(a: Message, b: Message) returns (steps: seq<Step>, t: State)
    requires IsCapture(a) && IsCapture(b)
    ensures Run(Start(), steps, t) && t.echoed == [] && t.dropped == []
    ensures t.delivered == [Item(1, b), Item(0, a)]
  {
    var s0 := Start();
    var s1 := Next(s0, Push(a));
    var s2 := Next(s1, Tick);
    var s3 := Next(s2, Push(b));
    var s4 := Next(s3, Tick);
    var s5 := Next(s4, Take(1));
    t := Next(s5, Take(0));
    var e := [Take(0)];
    var d := [Take(1)] + e;
    var c := [Tick] + d;
    var b' := [Push(b)] + c;
    var a' := [Tick] + b';
    steps := [Push(a)] + a';
    assert s1.buffer == [Item(0, a)];
    assert s1.buffer[..1] == [Item(0, a)] && s1.buffer[1..] == [];
    assert s2.flights == [Flight([], [Item(0, a)])] && s2.buffer == [];
    assert s3.buffer == [Item(1, b)];
    assert s3.buffer[..1] == [Item(1, b)] && s3.buffer[1..] == [];
    assert s4.flights == [Flight([], [Item(0, a)]), Flight([], [Item(1, b)])];
    assert Run(t, [], t);
    assert Run(s5, e, t);
    assert Run(s4, d, t);
    assert Run(s3, c, t);
    assert Run(s2, b', t);
    assert Run(s1, a', t);
  }
}
