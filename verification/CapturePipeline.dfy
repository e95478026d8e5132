/** The capture path end to end: the worker's retry queue feeding the monitor's table. */
module CapturePipeline {
  import opened Wrappers
  import opened CaptureQueue
  import opened BrowserIngest

  function Messages(items: seq<Item>): seq<Message> {
    seq(|items|, i requires 0 <= i < |items| => items[i].message)
  }

  lemma MessagesSnoc(items: seq<Item>, x: Item)
    ensures Messages(items + [x]) == Messages(items) + [x.message]
  {
  }

  lemma MessagesHave(items: seq<Item>, x: Item)
    requires x in items
    ensures x.message in Messages(items)
  {
    var i :| 0 <= i < |items| && items[i] == x;
    assert Messages(items)[i] == x.message;
  }

  datatype Pipeline = Pipeline(queue: State, rows: seq<Row>)

  // The event the server takes in this step.
  function TakenBy(s: State, step: Step): Option<Item>
    requires Enabled(s, step)
  {
    match step
    case Take(i) => Some(s.flights[i].todo[0])
    case TakeLate(i) => Some(s.strays[i].todo[0])
    case _ => None
  }

  // The server ingests each event as it takes it.
  function Advance(env: Env, p: Pipeline, step: Step): Pipeline
    requires Enabled(p.queue, step)
  {
    var taken := TakenBy(p.queue, step);
    Pipeline(Next(p.queue, step), if taken.Some? then IngestOne(env, p.rows, taken.value.message) else p.rows)
  }

  ghost predicate Runs(env: Env, p: Pipeline, steps: seq<Step>, t: Pipeline)
    decreases |steps|
  {
    if steps == [] then p == t
    else Enabled(p.queue, steps[0]) && Runs(env, Advance(env, p, steps[0]), steps[1..], t)
  }

  lemma {:induction false} RowsFollowDeliveries(env: Env, rows: seq<Row>, p: Pipeline, steps: seq<Step>, t: Pipeline)
    requires p.rows == IngestAll(env, rows, Messages(p.queue.delivered))
    requires Runs(env, p, steps, t)
    ensures Run(p.queue, steps, t.queue)
    ensures t.rows == IngestAll(env, rows, Messages(t.queue.delivered))
    decreases |steps|
  {
    hide IngestOne, IngestAll;
    if steps != [] {
      var next, taken := Advance(env, p, steps[0]), TakenBy(p.queue, steps[0]);
      if taken.Some? {
        assert next.queue.delivered == p.queue.delivered + [taken.value];
        MessagesSnoc(p.queue.delivered, taken.value);
        IngestStep(env, rows, Messages(p.queue.delivered), taken.value.message);
      }
      RowsFollowDeliveries(env, rows, next, steps[1..], t);
    }
  }

  // ---------- Delivered several times, or once ----------

  // Each item that was there before is absorbed when it comes again.
  ghost predicate RepeatsAreAbsorbed(env: Env, rows: seq<Row>, items: seq<Item>) {
    if items == [] then true
    else
      var before, x := items[..|items| - 1], items[|items| - 1];
      && RepeatsAreAbsorbed(env, rows, before)
      && (x in before ==> Absorbed(env, IngestAll(env, rows, Messages(before)), x.message))
  }

  ghost predicate SameRows(a: seq<Row>, b: seq<Row>) {
    forall row :: row in a <==> row in b
  }

  // Suppression looks at the set of rows only.
  lemma SuppressedBySet(env: Env, a: seq<Row>, b: seq<Row>, m: Message)
    requires SameRows(a, b)
    ensures Suppressed(env, a, m) <==> Suppressed(env, b, m)
  {
    hide Matches;
    SuppressedByRow(env, a, m);
    SuppressedByRow(env, b, m);
  }

  lemma SuppressedByRow(env: Env, rows: seq<Row>, m: Message)
    ensures Suppressed(env, rows, m) <==> Sanitized(env, m) != "" && exists row :: row in rows && Matches(env, row, m)
  {
    hide Matches;
    if i :| 0 <= i < |rows| && Matches(env, rows[i], m) {
      assert rows[i] in rows;
    }
    forall row | row in rows && Matches(env, row, m)
      ensures exists i :: 0 <= i < |rows| && Matches(env, rows[i], m)
    {
      var i :| 0 <= i < |rows| && rows[i] == row;
    }
  }

  // A message once delivered is absorbed or its row is there.
  lemma {:induction false} StoredOrAbsorbed(env: Env, rows: seq<Row>, messages: seq<Message>, m: Message)
    requires m in messages
    ensures Absorbed(env, IngestAll(env, rows, messages), m) || RowOf(env, m) in IngestAll(env, rows, messages)
    decreases |messages|
  {
    hide Absorbed, RowOf;
    var n := |messages| - 1;
    var before := IngestAll(env, rows, messages[..n]);
    if m in messages[..n] {
      StoredOrAbsorbed(env, rows, messages[..n], m);
      Grows(env, before, messages[n]);
      if Absorbed(env, before, m) {
        GrowthKeepsAbsorbed(env, before, m, messages[n]);
      }
    } else {
      assert m == messages[n];
      AbsorbedOrAppended(env, before, m);
    }
  }

  lemma Grows(env: Env, rows: seq<Row>, m: Message)
    ensures forall row | row in rows :: row in IngestOne(env, rows, m)
  {
  }

  lemma AbsorbedOrAppended(env: Env, rows: seq<Row>, m: Message)
    ensures IngestOne(env, rows, m) == if Absorbed(env, rows, m) then rows else rows + [RowOf(env, m)]
  {
  }

  // However often items come, the table has the same rows as when each comes once, at least as many,
  // and exactly as many, in the same order, when every repeat is absorbed.
  lemma {:induction false} RepeatsAgainstOnce(env: Env, rows: seq<Row>, items: seq<Item>)
    ensures var all := IngestAll(env, rows, Messages(items));
            var once := IngestAll(env, rows, Messages(FirstOccurrences(items)));
            && SameRows(all, once) && |once| <= |all|
            && (|once| == |all| <==> RepeatsAreAbsorbed(env, rows, items))
            && (RepeatsAreAbsorbed(env, rows, items) ==> all == once)
    decreases |items|
  {
    hide Absorbed, IngestOne, IngestAll, SameRows;
    if items == [] {
      NothingIngested(env, rows);
    } else {
      var n := |items| - 1;
      var x, before := items[n], items[..n];
      var known := FirstOccurrences(before);
      assert items == before + [x];
      RepeatsAgainstOnce(env, rows, before);
      MessagesSnoc(before, x);
      IngestStep(env, rows, Messages(before), x.message);
      var all, once := IngestAll(env, rows, Messages(before)), IngestAll(env, rows, Messages(known));
      if x in before {
        assert FirstOccurrences(items) == known;
        MessagesHave(before, x);
        StoredOrAbsorbed(env, rows, Messages(before), x.message);
        OneRepeat(env, all, once, x.message);
      } else {
        assert FirstOccurrences(items) == known + [x];
        MessagesSnoc(known, x);
        IngestStep(env, rows, Messages(known), x.message);
        OneNew(env, all, once, x.message);
      }
    }
  }

  lemma NothingIngested(env: Env, rows: seq<Row>)
    ensures IngestAll(env, rows, Messages([])) == rows && FirstOccurrences([]) == [] && SameRows(rows, rows)
  {
    assert Messages([]) == [];
  }

  lemma OneRepeat(env: Env, all: seq<Row>, once: seq<Row>, m: Message)
    requires SameRows(all, once) && (Absorbed(env, all, m) || RowOf(env, m) in all)
    ensures SameRows(IngestOne(env, all, m), once)
    ensures IngestOne(env, all, m) == if Absorbed(env, all, m) then all else all + [RowOf(env, m)]
  {
    AbsorbedOrAppended(env, all, m);
  }

  lemma OneNew(env: Env, all: seq<Row>, once: seq<Row>, m: Message)
    requires SameRows(all, once)
    ensures SameRows(IngestOne(env, all, m), IngestOne(env, once, m))
    ensures |IngestOne(env, all, m)| - |all| == |IngestOne(env, once, m)| - |once|
  {
    SuppressedBySet(env, all, once, m);
    AbsorbedOrAppended(env, all, m);
    AbsorbedOrAppended(env, once, m);
  }

  // ---------- Whole runs ----------

  // Main result: in every run, the table is exactly what one delivery of each event, in the order of
  // first arrival, leaves if and only if every event that came again was absorbed when it did. In any
  // case it has no row that this would not leave.
  lemma TableIsAsIfDeliveredOnceIff(env: Env, rows: seq<Row>, steps: seq<Step>, t: Pipeline)
    requires Runs(env, Pipeline(Start(), rows), steps, t)
    ensures t.rows == IngestAll(env, rows, Messages(FirstOccurrences(t.queue.delivered)))
       <==> RepeatsAreAbsorbed(env, rows, t.queue.delivered)
    ensures SameRows(t.rows, IngestAll(env, rows, Messages(FirstOccurrences(t.queue.delivered))))
  {
    NothingIngested(env, rows);
    RowsFollowDeliveries(env, rows, Pipeline(Start(), rows), steps, t);
    RepeatsAgainstOnce(env, rows, t.queue.delivered);
  }

  // ---------- Which repeats are absorbed ----------

  // The start of the week before, when there is one, is earlier as text than the timestamp.
  predicate AnswersEarlier(env: Env, m: Message) {
    env.weekBefore(m.timestamp).Some? ==> SelfFresh(env, m)
  }

  lemma UnrecognisableIsNeverAbsorbed(env: Env, rows: seq<Row>, m: Message)
    requires IsCapture(m) && AnswersEarlier(env, m) && !Recognisable(env, m)
    ensures !Absorbed(env, rows, m)
  {
  }

  ghost predicate RepeatsAreRecognisable(env: Env, items: seq<Item>) {
    forall x | Count(x, items) > 1 :: Recognisable(env, x.message)
  }

  lemma RepeatsSnoc(env: Env, before: seq<Item>, x: Item)
    ensures RepeatsAreRecognisable(env, before + [x])
       <==> RepeatsAreRecognisable(env, before) && (x in before ==> Recognisable(env, x.message))
  {
    hide Recognisable;
    forall y
      ensures Count(y, before + [x]) == Count(y, before) + if y == x then 1 else 0
    {
      CountAppend(y, before, [x]);
    }
    if RepeatsAreRecognisable(env, before + [x]) {
      forall y | Count(y, before) > 1
        ensures Recognisable(env, y.message)
      {
        assert Count(y, before + [x]) > 1;
      }
    }
  }

  lemma {:induction false} AbsorbedIffRecognisable(env: Env, rows: seq<Row>, items: seq<Item>)
    requires forall x | x in items :: IsCapture(x.message) && AnswersEarlier(env, x.message)
    ensures RepeatsAreAbsorbed(env, rows, items) <==> RepeatsAreRecognisable(env, items)
    decreases |items|
  {
    hide Absorbed, Recognisable, IngestAll, RepeatsAreRecognisable;
    if items == [] {
      NoRepeats(env);
    } else {
      var n := |items| - 1;
      var x, before := items[n], items[..n];
      assert items == before + [x];
      AbsorbedIffRecognisable(env, rows, before);
      RepeatsSnoc(env, before, x);
      if x in before {
        if Recognisable(env, x.message) {
          MessagesHave(before, x);
          DeliveredIsAbsorbed(env, rows, Messages(before), x.message);
        } else {
          UnrecognisableIsNeverAbsorbed(env, IngestAll(env, rows, Messages(before)), x.message);
        }
      }
    }
  }

  lemma NoRepeats(env: Env)
    ensures RepeatsAreRecognisable(env, [])
  {
  }

  // ---------- What the queue guarantees ----------

  predicate AreCaptures(items: seq<Item>) {
    forall x | x in items :: IsCapture(x.message)
  }

  ghost predicate OnlyCaptures(s: State) {
    && AreCaptures(s.buffer) && AreCaptures(s.delivered)
    && (forall f | f in s.flights :: AreCaptures(Batch(f))) && (forall f | f in s.strays :: AreCaptures(Batch(f)))
  }

  lemma CapturesAppend(a: seq<Item>, b: seq<Item>)
    ensures AreCaptures(a + b) <==> AreCaptures(a) && AreCaptures(b)
  {
    assert forall x :: x in a + b <==> x in a || x in b;
  }

  lemma CapturesSplit(a: seq<Item>, n: nat)
    requires n <= |a|
    ensures AreCaptures(a) <==> AreCaptures(a[..n]) && AreCaptures(a[n..])
  {
    assert a == a[..n] + a[n..];
    CapturesAppend(a[..n], a[n..]);
  }

  lemma TakingCaptures(f: Flight)
    requires f.todo != [] && AreCaptures(Batch(f))
    ensures AreCaptures(Batch(Taking(f))) && IsCapture(f.todo[0].message)
  {
    assert Batch(Taking(f)) == Batch(f);
    assert f.todo[0] in Batch(f);
  }

  lemma StepKeepsCaptures(s: State, step: Step)
    requires OnlyCaptures(s) && Enabled(s, step)
    ensures OnlyCaptures(Next(s, step))
  {
    hide AreCaptures;
    match step
    case Push(m) => PushedIsCapture(s, m);
    case Tick => CapturesSplit(s.buffer, BatchSize(|s.buffer|));
      assert Batch(Flight([], s.buffer[..BatchSize(|s.buffer|)])) == s.buffer[..BatchSize(|s.buffer|)];
    case Take(i) =>
      TakingCaptures(s.flights[i]);
      OneCapture(s.flights[i].todo[0]);
      CapturesAppend(s.delivered, [s.flights[i].todo[0]]);
    case TakeLate(i) =>
      TakingCaptures(s.strays[i]);
      OneCapture(s.strays[i].todo[0]);
      CapturesAppend(s.delivered, [s.strays[i].todo[0]]);
    case Succeed(i) =>
    case Fail(i) =>
      var queue := Batch(s.flights[i]) + s.buffer;
      CapturesAppend(Batch(s.flights[i]), s.buffer);
      CapturesSplit(queue, Excess(|queue|));
  }

  lemma OneCapture(x: Item)
    requires IsCapture(x.message)
    ensures AreCaptures([x])
  {
  }

  lemma PushedIsCapture(s: State, m: Message)
    requires AreCaptures(s.buffer)
    ensures AreCaptures(Next(s, Push(m)).buffer)
  {
  }

  lemma {:induction false} RunKeepsCaptures(s: State, steps: seq<Step>, t: State)
    requires OnlyCaptures(s) && Run(s, steps, t)
    ensures OnlyCaptures(t)
    decreases |steps|
  {
    hide OnlyCaptures;
    if steps != [] {
      StepKeepsCaptures(s, steps[0]);
      RunKeepsCaptures(Next(s, steps[0]), steps[1..], t);
    }
  }

  // Only what was put back, and taken by the server all the same, can be delivered twice.
  lemma RepeatsWereEchoed(steps: seq<Step>, t: State, x: Item)
    requires Run(Start(), steps, t) && Count(x, t.delivered) > 1
    ensures x in t.echoed
  {
    RunConserves(Start(), steps, t, x);
    PushedOnce(t.pushed, x);
  }

  // ---------- In terms of the events ----------

  // Main result: where SQLite answers with an earlier text, the table is as if each event had been
  // delivered once if and only if each event delivered more than once has a conversation, some text
  // left after masking, and a timestamp SQLite can read.
  lemma TableIsAsIfDeliveredOnce(env: Env, rows: seq<Row>, steps: seq<Step>, t: Pipeline)
    requires Runs(env, Pipeline(Start(), rows), steps, t)
    requires forall x | x in t.queue.delivered :: AnswersEarlier(env, x.message)
    ensures t.rows == IngestAll(env, rows, Messages(FirstOccurrences(t.queue.delivered)))
       <==> forall x | Count(x, t.queue.delivered) > 1 :: Recognisable(env, x.message)
  {
    hide Recognisable, IngestAll, RepeatsAreAbsorbed, AnswersEarlier, SameRows;
    TableIsAsIfDeliveredOnceIff(env, rows, steps, t);
    NothingIngested(env, rows);
    RowsFollowDeliveries(env, rows, Pipeline(Start(), rows), steps, t);
    RunKeepsCaptures(Start(), steps, t.queue);
    AbsorbedIffRecognisable(env, rows, t.queue.delivered);
  }

  // For what the extension sends, with ISO timestamps, it comes down to conversation and text.
  lemma ExtensionTableIsAsIfDeliveredOnceIff(env: Env, rows: seq<Row>, steps: seq<Step>, t: Pipeline)
    requires Runs(env, Pipeline(Start(), rows), steps, t) && AnswersIso(env)
    requires forall x | x in t.queue.delivered :: IsIso(x.message.timestamp)
    ensures t.rows == IngestAll(env, rows, Messages(FirstOccurrences(t.queue.delivered)))
       <==> forall x | Count(x, t.queue.delivered) > 1 ::
              x.message.conversationId.Some? && Sanitized(env, x.message) != ""
  {
    hide Recognisable, IngestAll, SelfFresh, Sanitized, Runs, AnswersIso, IsIso;
    forall x | x in t.queue.delivered
      ensures SelfFresh(env, x.message)
      ensures Recognisable(env, x.message) <==> x.message.conversationId.Some? && Sanitized(env, x.message) != ""
    {
      IsoIsRecognisableIff(env, x.message);
    }
    TableIsAsIfDeliveredOnce(env, rows, steps, t);
    assert forall x | Count(x, t.queue.delivered) > 1 :: x in t.queue.delivered;
  }

  // The hypotheses can be met: an environment, a run in which a batch is put back after the server has
  // taken it and is then taken again, and a table that ends as if it had been delivered once.
  lemma ARedeliveryLeavesNoTrace(m: Message) returns (env: Env, steps: seq<Step>, t: Pipeline)
    requires IsCapture(m) && m.text != "" && m.conversationId.Some? && m.timestamp == "2026-03-01T12:00:00.000Z"
    ensures AnswersIso(env) && Runs(env, Pipeline(Start(), []), steps, t)
    ensures forall x | x in t.queue.delivered :: IsIso(x.message.timestamp)
    ensures t.queue.delivered == [Item(0, m), Item(0, m)]
    ensures t.rows == IngestAll(env, [], [m])
  {
    hide IngestOne, IngestAll, AnswersIso, IsIso, Recognisable;
    env := Env(s => s, s => s, timestamp => Some(LEAST_ANSWER));
    LeastEnvironmentAnswers(env);
    SomeTimestampIsIso();
    steps, t := RedeliveryRun(env, m);
    var items := t.queue.delivered;
    assert items[..1] == [Item(0, m)] && items[..1][..0] == [];
    FirstOfTwo(Item(0, m));
    assert Messages([Item(0, m)]) == [m];
    ExtensionTableIsAsIfDeliveredOnceIff(env, [], steps, t);
  }

  lemma FirstOfTwo(x: Item)
    ensures FirstOccurrences([x, x]) == [x]
  {
    var two := [x, x];
    assert two[..1] == [x] && two[1] in two[..1] && [x][..0] == [];
    assert FirstOccurrences([x]) == [x];
  }

  // The queue in a run that captures x, sends it, fails after the server took it, and sends it again.
  function Stage(x: Item, n: nat): State {
    match n
    case 0 => Start()
    case 1 => State([x], [x], [], [], [], [], [], [])
    case 2 => State([x], [], [Flight([], [x])], [], [], [], [], [])
    case 3 => State([x], [], [Flight([x], [])], [], [x], [], [], [])
    case 4 => State([x], [x], [], [Flight([x], [])], [x], [], [x], [])
    case 5 => State([x], [], [Flight([], [x])], [Flight([x], [])], [x], [], [x], [])
    case _ => State([x], [], [Flight([x], [])], [Flight([x], [])], [x, x], [], [x], [])
  }

  function StageStep(m: Message, n: nat): Step {
    match n
    case 0 => Push(m)
    case 1 => Tick
    case 2 => Take(0)
    case 3 => Fail(0)
    case 4 => Tick
    case _ => Take(0)
  }

  lemma TickStage(x: Item, n: nat)
    requires n == 1 || n == 4
    ensures Enabled(Stage(x, n), Tick) && Next(Stage(x, n), Tick) == Stage(x, n + 1)
  {
    assert [x][..1] == [x] && [x][1..] == [];
  }

  lemma TakeStage(x: Item, n: nat)
    requires n == 2 || n == 5
    ensures Enabled(Stage(x, n), Take(0)) && Next(Stage(x, n), Take(0)) == Stage(x, n + 1)
  {
    assert [x][1..] == [] && Taking(Flight([], [x])) == Flight([x], []);
  }

  lemma FailStage(x: Item)
    ensures Enabled(Stage(x, 3), Fail(0)) && Next(Stage(x, 3), Fail(0)) == Stage(x, 4)
  {
    var f := Flight([x], []);
    assert Batch(f) + [] == [x] && [x][0..] == [x] && [x][..0] == [];
    assert Without([f], 0) == [];
  }

  lemma NextStage(m: Message, n: nat)
    requires IsCapture(m) && n < 6
    ensures var x := Item(0, m);
            Enabled(Stage(x, n), StageStep(m, n)) && Next(Stage(x, n), StageStep(m, n)) == Stage(x, n + 1)
  {
    var x := Item(0, m);
    if n == 0 {
      assert [] + [x] == [x];
    } else {
      hide Next, Enabled, Stage;
      if n == 1 || n == 4 {
        TickStage(x, n);
      } else if n == 3 {
        FailStage(x);
      } else {
        TakeStage(x, n);
      }
    }
  }

  lemma {:induction false} RunFromStage(env: Env, m: Message, n: nat, rows: seq<Row>)
      returns (steps: seq<Step>, t: Pipeline)
    requires IsCapture(m) && n <= 6
    ensures Runs(env, Pipeline(Stage(Item(0, m), n), rows), steps, t) && t.queue == Stage(Item(0, m), 6)
    decreases 6 - n
  {
    hide Stage, Next, Enabled, IngestOne, TakenBy;
    var p := Pipeline(Stage(Item(0, m), n), rows);
    if n == 6 {
      steps, t := [], p;
    } else {
      NextStage(m, n);
      var next := Advance(env, p, StageStep(m, n));
      var rest: seq<Step>;
      rest, t := RunFromStage(env, m, n + 1, next.rows);
      steps := [StageStep(m, n)] + rest;
      assert next == Pipeline(Stage(Item(0, m), n + 1), next.rows);
    }
  }

  lemma RedeliveryRun(env: Env, m: Message) returns (steps: seq<Step>, t: Pipeline)
    requires IsCapture(m)
    ensures Runs(env, Pipeline(Start(), []), steps, t) && t.queue.delivered == [Item(0, m), Item(0, m)]
  {
    steps, t := RunFromStage(env, m, 0, []);
  }

  // With one request at a time that order is the order of capture.
  lemma SerialTableIsInCaptureOrder(env: Env, rows: seq<Row>, steps: seq<Step>, t: Pipeline)
    requires Runs(env, Pipeline(Start(), rows), steps, t)
    requires SerialRun(Start(), steps, t.queue)
    requires RepeatsAreAbsorbed(env, rows, t.queue.delivered)
    ensures exists once :: Increasing(once) && (forall x :: x in once <==> x in t.queue.delivered)
                           && t.rows == IngestAll(env, rows, Messages(once))
  {
    hide RepeatsAreAbsorbed, IngestAll;
    TableIsAsIfDeliveredOnceIff(env, rows, steps, t);
    SerialDeliveryKeepsOrder(steps, t.queue);
    FirstOccurrencesSame(t.queue.delivered);
  }

  // The server never refuses a batch for its size, so no batch is retried for ever on that account.
  lemma BatchesAreAccepted(steps: seq<Step>, t: State, f: Flight)
    requires Run(Start(), steps, t) && f in t.flights
    ensures 0 < |Batch(f)| <= 100 == MAX_EVENTS
  {
    EveryBatchIsSmall(steps, t, f);
  }
}
