/** When overlapping requests cannot disturb the order of delivery: exactly which states of the queue
    leave the server no schedule that delivers out of order. */
module DeliveryOrder {
  import opened Wrappers
  import opened CaptureQueue

  // ---------- The server's choices ----------

  // What the server has taken, and what it has not taken of each request it knows.
  datatype Server = Server(delivered: seq<Item>, todos: seq<seq<Item>>)

  function Todos(flights: seq<Flight>): seq<seq<Item>> {
    seq(|flights|, i requires 0 <= i < |flights| => flights[i].todo)
  }

  function ServerOf(s: State): Server {
    Server(s.delivered, Todos(s.flights) + Todos(s.strays))
  }

  predicate CanTake(v: Server, i: nat) {
    i < |v.todos| && v.todos[i] != []
  }

  function Taken(v: Server, i: nat): Server
    requires CanTake(v, i)
  {
    Server(v.delivered + [v.todos[i][0]], v.todos[i := v.todos[i][1..]])
  }

  // A step in which the server takes an event is one of its choices.
  lemma TakingIsAChoice(s: State, i: nat)
    ensures Enabled(s, Take(i)) ==>
              CanTake(ServerOf(s), i) && ServerOf(Next(s, Take(i))) == Taken(ServerOf(s), i)
    ensures Enabled(s, TakeLate(i)) ==>
              var k := |s.flights| + i;
              CanTake(ServerOf(s), k) && ServerOf(Next(s, TakeLate(i))) == Taken(ServerOf(s), k)
  {
  }

  ghost predicate Schedules(v: Server, choices: seq<nat>, t: Server)
    decreases |choices|
  {
    if choices == [] then v == t
    else CanTake(v, choices[0]) && Schedules(Taken(v, choices[0]), choices[1..], t)
  }

  predicate InOrder(v: Server) {
    Increasing(FirstOccurrences(v.delivered))
  }

  ghost predicate AlwaysInOrder(v: Server) {
    forall choices, t | Schedules(v, choices, t) :: InOrder(t)
  }

  // ---------- The condition ----------

  predicate IsNew(v: Server, x: Item) {
    x !in v.delivered
  }

  predicate IsWaiting(v: Server, x: Item) {
    exists h :: 0 <= h < |v.todos| && x in v.todos[h]
  }

  // Everything new is later than all that was delivered.
  ghost predicate NewIsLater(v: Server) {
    forall x, z | IsWaiting(v, x) && IsNew(v, x) && z in v.delivered :: z.tag < x.tag
  }

  // Before a request can deliver a new event, it delivers every earlier new one itself.
  ghost predicate EachBringsEarlier(v: Server) {
    forall g, k, x | 0 <= g < |v.todos| && 0 <= k < |v.todos[g]| && IsWaiting(v, x) ::
      IsNew(v, v.todos[g][k]) && IsNew(v, x) && x.tag < v.todos[g][k].tag ==> x in v.todos[g][..k]
  }

  ghost predicate IsSafe(v: Server) {
    InOrder(v) && NewIsLater(v) && EachBringsEarlier(v)
  }

  // Equal tags mean equal events.
  ghost predicate TagsIdentify(v: Server) {
    forall x, y | (x in v.delivered || IsWaiting(v, x)) && (y in v.delivered || IsWaiting(v, y)) && x.tag == y.tag ::
      x == y
  }

  // ---------- Safe states stay safe ----------

  lemma WaitingShrinks(v: Server, i: nat, x: Item)
    requires CanTake(v, i)
    ensures IsWaiting(Taken(v, i), x) ==> IsWaiting(v, x)
    ensures IsWaiting(v, v.todos[i][0])
    ensures IsWaiting(v, x) && x != v.todos[i][0] ==> IsWaiting(Taken(v, i), x)
  {
    var t := Taken(v, i);
    if IsWaiting(t, x) {
      var h :| 0 <= h < |t.todos| && x in t.todos[h];
      assert x in v.todos[h];
    }
    if IsWaiting(v, x) && x != v.todos[i][0] {
      var h :| 0 <= h < |v.todos| && x in v.todos[h];
      assert v.todos[i] == [v.todos[i][0]] + v.todos[i][1..];
      assert x in t.todos[h];
    }
  }

  lemma TakingKeepsTags(v: Server, i: nat)
    requires TagsIdentify(v) && CanTake(v, i)
    ensures TagsIdentify(Taken(v, i))
  {
    hide IsWaiting;
    var t := Taken(v, i);
    forall x
      ensures x in t.delivered || IsWaiting(t, x) ==> x in v.delivered || IsWaiting(v, x)
    {
      WaitingShrinks(v, i, x);
    }
  }

  lemma TakingKeepsLater(v: Server, i: nat)
    requires IsSafe(v) && TagsIdentify(v) && CanTake(v, i)
    ensures NewIsLater(Taken(v, i)) && InOrder(Taken(v, i))
  {
    hide IsWaiting, FirstOccurrences, Increasing;
    var t, y := Taken(v, i), v.todos[i][0];
    WaitingShrinks(v, i, y);
    AppendKeepsOrder(v.delivered, y);
    forall x, z | IsWaiting(t, x) && IsNew(t, x) && z in t.delivered
      ensures z.tag < x.tag
    {
      WaitingShrinks(v, i, x);
      assert v.todos[i][..0] == [];
    }
  }

  lemma TakingKeepsEarlier(v: Server, i: nat)
    requires EachBringsEarlier(v) && CanTake(v, i)
    ensures EachBringsEarlier(Taken(v, i))
  {
    hide IsWaiting;
    var t, y := Taken(v, i), v.todos[i][0];
    forall g, k, x | 0 <= g < |t.todos| && 0 <= k < |t.todos[g]| && IsWaiting(t, x)
                     && IsNew(t, t.todos[g][k]) && IsNew(t, x) && x.tag < t.todos[g][k].tag
      ensures x in t.todos[g][..k]
    {
      WaitingShrinks(v, i, x);
      if g == i {
        assert t.todos[g][k] == v.todos[g][k + 1];
        assert v.todos[g][..k + 1] == [y] + t.todos[g][..k];
      } else {
        assert t.todos[g] == v.todos[g];
      }
    }
  }

  lemma {:induction false} SafeIsInOrder(v: Server, choices: seq<nat>, t: Server)
    requires IsSafe(v) && TagsIdentify(v) && Schedules(v, choices, t)
    ensures InOrder(t)
    decreases |choices|
  {
    hide InOrder, NewIsLater, EachBringsEarlier, TagsIdentify;
    if choices != [] {
      TakingKeepsTags(v, choices[0]);
      TakingKeepsLater(v, choices[0]);
      TakingKeepsEarlier(v, choices[0]);
      SafeIsInOrder(Taken(v, choices[0]), choices[1..], t);
    }
  }

  // ---------- Unsafe states can go wrong ----------

  // The server takes the first n events of request g.
  lemma {:induction false} TakeSeveral(v: Server, g: nat, n: nat) returns (choices: seq<nat>, t: Server)
    requires g < |v.todos| && n <= |v.todos[g]|
    ensures Schedules(v, choices, t)
    ensures t == Server(v.delivered + v.todos[g][..n], v.todos[g := v.todos[g][n..]])
    decreases n
  {
    if n == 0 {
      choices, t := [], v;
      assert v.todos[g := v.todos[g][0..]] == v.todos;
    } else {
      var next := Taken(v, g);
      var rest: seq<nat>;
      rest, t := TakeSeveral(next, g, n - 1);
      choices := [g] + rest;
      assert v.todos[g][..n] == [v.todos[g][0]] + v.todos[g][1..][..n - 1];
      assert v.todos[g][1..][n - 1..] == v.todos[g][n..];
    }
  }

  lemma {:induction false} ScheduleAppend(v: Server, a: seq<nat>, u: Server, b: seq<nat>, t: Server)
    requires Schedules(v, a, u) && Schedules(u, b, t)
    ensures Schedules(v, a + b, t)
    decreases |a|
  {
    if a == [] {
      assert a + b == b;
    } else {
      assert (a + b)[1..] == a[1..] + b;
      ScheduleAppend(Taken(v, a[0]), a[1..], u, b, t);
    }
  }

  lemma {:induction false} FirstOccurrencesGrow(a: seq<Item>, b: seq<Item>)
    ensures FirstOccurrences(a) <= FirstOccurrences(a + b)
    decreases |b|
  {
    if b == [] {
      assert a + b == a;
    } else {
      var n := |b| - 1;
      assert (a + b)[..|a| + n] == a + b[..n];
      FirstOccurrencesGrow(a, b[..n]);
    }
  }

  // An event that comes after a later one breaks the order.
  lemma LateIsOutOfOrder(before: seq<Item>, more: seq<Item>, z: Item, y: Item)
    requires z in before && y !in before && y in more && y.tag < z.tag
    ensures !Increasing(FirstOccurrences(before + more))
  {
    FirstOccurrencesGrow(before, more);
    FirstOccurrencesSame(before);
    FirstOccurrencesSame(before + more);
    var all, first := FirstOccurrences(before + more), FirstOccurrences(before);
    var i :| 0 <= i < |first| && first[i] == z;
    assert all[i] == z && y in all;
    var j :| 0 <= j < |all| && all[j] == y;
    assert y !in first && forall m | 0 <= m < |first| :: all[m] == first[m];
    assert j >= |first|;
  }

  lemma OrderNeedsLater(v: Server, x: Item, z: Item)
    requires AlwaysInOrder(v) && TagsIdentify(v)
    requires IsWaiting(v, x) && IsNew(v, x) && z in v.delivered
    ensures z.tag < x.tag
  {
    hide FirstOccurrences, Increasing;
    var h :| 0 <= h < |v.todos| && x in v.todos[h];
    var todo := v.todos[h];
    var choices, t := TakeSeveral(v, h, |todo|);
    assert todo[..|todo|] == todo;
    assert InOrder(t);
    if x.tag < z.tag {
      LateIsOutOfOrder(v.delivered, todo, z, x);
    }
  }

  lemma StillAlwaysInOrder(v: Server, choices: seq<nat>, u: Server)
    requires AlwaysInOrder(v) && Schedules(v, choices, u)
    ensures AlwaysInOrder(u)
  {
    hide InOrder;
    forall more, t | Schedules(u, more, t)
      ensures InOrder(t)
    {
      ScheduleAppend(v, choices, u, more, t);
    }
  }

  lemma {:induction false} SchedulesKeepTags(v: Server, choices: seq<nat>, t: Server)
    requires TagsIdentify(v) && Schedules(v, choices, t)
    ensures TagsIdentify(t)
    decreases |choices|
  {
    hide TagsIdentify;
    if choices != [] {
      TakingKeepsTags(v, choices[0]);
      SchedulesKeepTags(Taken(v, choices[0]), choices[1..], t);
    }
  }

  lemma OrderNeedsEarlier(v: Server, g: nat, k: nat, x: Item)
    requires AlwaysInOrder(v) && TagsIdentify(v)
    requires g < |v.todos| && k < |v.todos[g]| && IsWaiting(v, x)
    requires IsNew(v, v.todos[g][k]) && IsNew(v, x) && x.tag < v.todos[g][k].tag
    ensures x in v.todos[g][..k]
  {
    hide AlwaysInOrder, TagsIdentify;
    var y, todo := v.todos[g][k], v.todos[g];
    var choices, t := TakeSeveral(v, g, k + 1);
    assert todo[..k + 1] == todo[..k] + [y];
    assert todo == todo[..k + 1] + todo[k + 1..];
    if x !in todo[..k] {
      StillAlwaysInOrder(v, choices, t);
      SchedulesKeepTags(v, choices, t);
      var h :| 0 <= h < |v.todos| && x in v.todos[h];
      assert x in t.todos[h];
      OrderNeedsLater(t, x, y);
      assert false;
    }
  }

  // Main result: every server schedule delivers in order if and only if what was delivered is in order,
  // everything new is later, and no request can deliver a new event before an earlier new one.
  lemma AlwaysInOrderIffSafe(v: Server)
    requires TagsIdentify(v)
    ensures AlwaysInOrder(v) <==> IsSafe(v)
  {
    hide InOrder, TagsIdentify, IsWaiting, IsNew;
    if IsSafe(v) {
      forall choices, t | Schedules(v, choices, t)
        ensures InOrder(t)
      {
        SafeIsInOrder(v, choices, t);
      }
    }
    if AlwaysInOrder(v) {
      assert Schedules(v, [], v);
      forall x, z | IsWaiting(v, x) && IsNew(v, x) && z in v.delivered
        ensures z.tag < x.tag
      {
        OrderNeedsLater(v, x, z);
      }
      forall g, k, x | 0 <= g < |v.todos| && 0 <= k < |v.todos[g]| && IsWaiting(v, x)
                       && IsNew(v, v.todos[g][k]) && IsNew(v, x) && x.tag < v.todos[g][k].tag
        ensures x in v.todos[g][..k]
      {
        OrderNeedsEarlier(v, g, k, x);
      }
    }
  }

  // ---------- Reachable states of the queue ----------

  predicate AllIn(items: seq<Item>, pushed: seq<Item>) {
    forall x | x in items :: x in pushed
  }

  ghost predicate FromPushed(s: State) {
    && (forall i | 0 <= i < |s.pushed| :: s.pushed[i].tag == i)
    && AllIn(s.buffer, s.pushed) && AllIn(s.delivered, s.pushed)
    && (forall f | f in s.flights :: AllIn(Batch(f), s.pushed))
    && (forall f | f in s.strays :: AllIn(Batch(f), s.pushed))
  }

  lemma AllInAppend(a: seq<Item>, b: seq<Item>, pushed: seq<Item>)
    ensures AllIn(a + b, pushed) <==> AllIn(a, pushed) && AllIn(b, pushed)
  {
    assert forall x :: x in a + b <==> x in a || x in b;
  }

  lemma AllInSplit(a: seq<Item>, n: nat, pushed: seq<Item>)
    requires n <= |a|
    ensures AllIn(a, pushed) <==> AllIn(a[..n], pushed) && AllIn(a[n..], pushed)
  {
    assert a == a[..n] + a[n..];
    AllInAppend(a[..n], a[n..], pushed);
  }

  lemma TakingStaysIn(f: Flight, pushed: seq<Item>)
    requires f.todo != [] && AllIn(Batch(f), pushed)
    ensures AllIn(Batch(Taking(f)), pushed) && AllIn([f.todo[0]], pushed)
  {
    assert Batch(Taking(f)) == Batch(f) && f.todo[0] in Batch(f);
  }

  lemma AllInLonger(a: seq<Item>, pushed: seq<Item>, x: Item)
    requires AllIn(a, pushed)
    ensures AllIn(a, pushed + [x]) && AllIn(a + [x], pushed + [x])
  {
  }

  lemma PushStaysIn(s: State, m: Message)
    requires FromPushed(s)
    ensures FromPushed(Next(s, Push(m)))
  {
    hide AllIn;
    var x := Item(|s.pushed|, m);
    AllInLonger(s.buffer, s.pushed, x);
    AllInLonger(s.delivered, s.pushed, x);
    forall f | f in s.flights || f in s.strays
      ensures AllIn(Batch(f), s.pushed + [x])
    {
      AllInLonger(Batch(f), s.pushed, x);
    }
  }

  lemma StepStaysIn(s: State, step: Step)
    requires FromPushed(s) && Enabled(s, step)
    ensures FromPushed(Next(s, step))
  {
    hide AllIn;
    match step
    case Push(m) => PushStaysIn(s, m);
    case Tick =>
      var n := BatchSize(|s.buffer|);
      AllInSplit(s.buffer, n, s.pushed);
      assert Batch(Flight([], s.buffer[..n])) == s.buffer[..n];
    case Take(i) =>
      TakingStaysIn(s.flights[i], s.pushed);
      AllInAppend(s.delivered, [s.flights[i].todo[0]], s.pushed);
    case TakeLate(i) =>
      TakingStaysIn(s.strays[i], s.pushed);
      AllInAppend(s.delivered, [s.strays[i].todo[0]], s.pushed);
    case Succeed(i) =>
    case Fail(i) =>
      var queue := Batch(s.flights[i]) + s.buffer;
      AllInAppend(Batch(s.flights[i]), s.buffer, s.pushed);
      AllInSplit(queue, Excess(|queue|), s.pushed);
  }

  lemma {:induction false} RunStaysIn(s: State, steps: seq<Step>, t: State)
    requires FromPushed(s) && Run(s, steps, t)
    ensures FromPushed(t)
    decreases |steps|
  {
    hide FromPushed, Next, Enabled;
    if steps != [] {
      StepStaysIn(s, steps[0]);
      RunStaysIn(Next(s, steps[0]), steps[1..], t);
    }
  }

  lemma PushedTagsIdentify(s: State)
    requires FromPushed(s)
    ensures TagsIdentify(ServerOf(s))
  {
    var v := ServerOf(s);
    forall x | x in v.delivered || IsWaiting(v, x)
      ensures x in s.pushed
    {
      if x !in v.delivered {
        var h :| 0 <= h < |v.todos| && x in v.todos[h];
        var f := if h < |s.flights| then s.flights[h] else s.strays[h - |s.flights|];
        assert f in s.flights || f in s.strays;
        assert x in f.todo && x in Batch(f);
      }
    }
  }

  // In every state a run can reach, that is exactly when the requests there are cannot reorder events.
  lemma OrderIsSafeIff(steps: seq<Step>, t: State)
    requires Run(Start(), steps, t)
    ensures AlwaysInOrder(ServerOf(t)) <==> IsSafe(ServerOf(t))
  {
    hide AlwaysInOrder, IsSafe, TagsIdentify;
    RunStaysIn(Start(), steps, t);
    PushedTagsIdentify(t);
    AlwaysInOrderIffSafe(ServerOf(t));
  }
}
