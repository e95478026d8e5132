/** Session transcripts in the database: what the watcher writes for each record, and the totals it
    keeps in the session row. */
module Sessions {
  import opened Wrappers

  // None stands for a null in the transcript, where the program takes a text for granted.
  datatype Kind =
    | UserPrompt(text: Option<string>)
    | ToolUse(tool: string, preview: Option<string>)
    | TokenUsage(input: nat, output: nat)
    | SensitiveData
    | OtherEvent(eventType: string, text: Option<string>)

  // The live feed's one-line summary of an event can be made. Otherwise making it raises, after the
  // event is in the table.
  predicate Summarises(k: Kind) {
    match k
    case UserPrompt(text) => text.Some?
    case ToolUse(_, preview) => preview.Some?
    case OtherEvent(_, text) => text.Some?
    case _ => true
  }

  datatype Event = Event(session: string, timestamp: string, kind: Kind)

  datatype Totals = Totals(input: nat, output: nat, turns: nat)

  // One transcript record: the events it stores and the updates of the session row, in order. A token
  // usage is present only when one of its figures is not zero.
  datatype Op = StoreOp(kind: Kind) | ChargeOp(kind: Kind)
  datatype Record = Record(uuid: string, session: string, timestamp: string, ops: seq<Op>)

  // The token and prompt figures of one event.
  function Figures(e: Event): Totals {
    KindFigures(e.kind)
  }

  function KindFigures(k: Kind): Totals {
    match k
    case TokenUsage(input, output) => Totals(input, output, 0)
    case UserPrompt(_) => Totals(0, 0, 1)
    case _ => Totals(0, 0, 0)
  }

  function Sum(events: seq<Event>): Totals {
    if events == [] then Totals(0, 0, 0)
    else Plus(Sum(events[..|events| - 1]), Figures(events[|events| - 1]))
  }

  function Plus(a: Totals, b: Totals): Totals {
    Totals(a.input + b.input, a.output + b.output, a.turns + b.turns)
  }

  function Minus(a: Totals, b: Totals): Totals {
    Totals(Less(a.input, b.input), Less(a.output, b.output), Less(a.turns, b.turns))
  }

  function Less(a: nat, b: nat): nat {
    if a >= b then a - b else 0
  }

  predicate Covers(a: Totals, b: Totals) {
    a.input >= b.input && a.output >= b.output && a.turns >= b.turns
  }

  // The figures of the events an op list stores, or charges.
  function Figured(ops: seq<Op>, stores: bool): Totals {
    if ops == [] then Totals(0, 0, 0)
    else
      var n := |ops| - 1;
      Plus(Figured(ops[..n], stores), if ops[n].StoreOp? == stores then KindFigures(ops[n].kind) else Totals(0, 0, 0))
  }

  lemma FiguredSnoc(ops: seq<Op>, op: Op, stores: bool)
    ensures Figured(ops + [op], stores)
         == Plus(Figured(ops, stores), if op.StoreOp? == stores then KindFigures(op.kind) else Totals(0, 0, 0))
  {
    assert (ops + [op])[..|ops|] == ops;
  }

  // What is stored and not yet charged after the first n ops.
  function OwedAt(r: Record, n: nat): Totals
    requires n <= |r.ops|
  {
    Minus(Figured(r.ops[..n], true), Figured(r.ops[..n], false))
  }

  // Nothing is charged before it is stored, and in the end everything stored is charged.
  predicate IsWhole(r: Record) {
    && (forall n | 0 <= n <= |r.ops| :: Covers(Figured(r.ops[..n], true), Figured(r.ops[..n], false)))
    && Figured(r.ops, true) == Figured(r.ops, false)
  }

  function Of(session: string, events: seq<Event>): seq<Event> {
    if events == [] then []
    else
      var n := |events| - 1;
      Of(session, events[..n]) + if events[n].session == session then [events[n]] else []
  }

  lemma SumSnoc(events: seq<Event>, e: Event)
    ensures Sum(events + [e]) == Plus(Sum(events), Figures(e))
  {
    assert (events + [e])[..|events|] == events;
  }

  lemma {:induction false} SumAppend(a: seq<Event>, b: seq<Event>)
    ensures Sum(a + b) == Plus(Sum(a), Sum(b))
    decreases |b|
  {
    if b == [] {
      assert a + b == a;
    } else {
      var n := |b| - 1;
      assert a + b == (a + b[..n]) + [b[n]] && b == b[..n] + [b[n]];
      SumAppend(a, b[..n]);
      SumSnoc(a + b[..n], b[n]);
      SumSnoc(b[..n], b[n]);
    }
  }

  lemma OfSnoc(session: string, events: seq<Event>, e: Event)
    ensures Of(session, events + [e]) == Of(session, events) + if e.session == session then [e] else []
  {
    assert (events + [e])[..|events|] == events;
  }

  // ---------- The watcher ----------

  // Figures that were stored and will never be added to the session row.
  datatype Loss = Loss(session: string, figures: Totals)

  // The tables, and for the specification the events that were turned away, because an identical one
  // was there or the insert failed, and the figures that were lost.
  datatype Store = Store(
    events: seq<Event>,
    hashes: set<string>,
    totals: map<string, Totals>,
    seen: set<string>,
    ignored: seq<Event>,
    lost: seq<Loss>)

  function EmptyStore(): Store {
    Store([], {}, map[], {}, [], [])
  }

  function Insert(s: Store, digest: Event -> string, e: Event): Store {
    if digest(e) in s.hashes then s.(ignored := s.ignored + [e])
    else s.(events := s.events + [e], hashes := s.hashes + {digest(e)})
  }

  function TotalsOf(s: Store, session: string): Totals {
    if session in s.totals then s.totals[session] else Totals(0, 0, 0)
  }

  // The session row's counters after one update, which touches no row when none exists.
  function Charge(s: Store, e: Event): Store {
    if e.session !in s.totals then s.(lost := s.lost + [Loss(e.session, Figures(e))])
    else s.(totals := s.totals[e.session := Plus(s.totals[e.session], Figures(e))])
  }

  function EventAt(r: Record, n: nat): Event
    requires n < |r.ops|
  {
    Event(r.session, r.timestamp, r.ops[n].kind)
  }

  function Performed(s: Store, digest: Event -> string, r: Record, n: nat): Store
    requires n < |r.ops|
  {
    if r.ops[n].StoreOp? then Insert(s, digest, EventAt(r, n)) else Charge(s, EventAt(r, n))
  }

  // The exception that ends the record: the summary of the event just stored cannot be made.
  predicate Stops(op: Op) {
    op.StoreOp? && !Summarises(op.kind)
  }

  // The record is given up after its first n ops.
  function GivenUp(s: Store, r: Record, n: nat): Store
    requires n <= |r.ops|
  {
    s.(lost := s.lost + [Loss(r.session, OwedAt(r, n))])
  }

  function Work(s: Store, digest: Event -> string, r: Record, n: nat): Store
    requires n <= |r.ops|
    decreases |r.ops| - n
  {
    if n == |r.ops| then s
    else
      var t := Performed(s, digest, r, n);
      if Stops(r.ops[n]) then GivenUp(t, r, n + 1) else Work(t, digest, r, n + 1)
  }

  function Ensured(s: Store, session: string): Store {
    if session in s.totals then s else s.(totals := s.totals[session := Totals(0, 0, 0)])
  }

  function Process(s: Store, digest: Event -> string, r: Record): Store {
    if r.uuid != "" && r.uuid in s.seen then s
    else
      var noted := if r.uuid != "" then s.(seen := s.seen + {r.uuid}) else s;
      if r.session == "" then noted else Work(Ensured(noted, r.session), digest, r, 0)
  }

  class SessionWatcher {
    var events: seq<Event>
    var hashes: set<string>
    var totals: map<string, Totals>
    var seenUuids: set<string>
    ghost var ignored: seq<Event>
    ghost var lost: seq<Loss>

    ghost function View(): Store
      reads this
    {
      Store(events, hashes, totals, seenUuids, ignored, lost)
    }

    constructor ()
      ensures View() == EmptyStore()
    {
      events, hashes, totals, seenUuids, ignored, lost := [], {}, map[], {}, [], [];
    }

    // False when the summary raises, after the insert.
    method StoreEvent(digest: Event -> string, e: Event) returns (summarised: bool)
      modifies this
      ensures View() == Insert(old(View()), digest, e) && summarised == Summarises(e.kind)
    {
      var hash := digest(e);
      if hash in hashes {
        ignored := ignored + [e];
      } else {
        events := events + [e];
        hashes := hashes + {hash};
      }
      summarised := Summarises(e.kind);
    }

    method UpdateSessionStats(session: string, input: nat, output: nat, isTurn: bool)
      modifies this`totals
      ensures session !in old(totals) ==> totals == old(totals)
      ensures session in old(totals) ==>
                var t := old(totals)[session];
                totals == old(totals)[session := Totals(t.input + input, t.output + output,
                                                        t.turns + if isTurn then 1 else 0)]
    {
      if session in totals {
        var t := totals[session];
        totals := totals[session := Totals(t.input + input, t.output + output, t.turns + if isTurn then 1 else 0)];
      }
    }

    method ChargeEvent(e: Event)
      modifies this
      ensures View() == Charge(old(View()), e)
    {
      if e.session !in totals {
        lost := lost + [Loss(e.session, Figures(e))];
      }
      match e.kind
      case TokenUsage(input, output) => UpdateSessionStats(e.session, input, output, false);
      case UserPrompt(_) => UpdateSessionStats(e.session, 0, 0, true);
      case _ => UpdateSessionStats(e.session, 0, 0, false);
    }

    method ProcessRecord(digest: Event -> string, r: Record)
      modifies this
      ensures View() == Process(old(View()), digest, r)
    {
      if r.uuid != "" {
        if r.uuid in seenUuids {
          return;
        }
        seenUuids := seenUuids + {r.uuid};
      }
      if r.session == "" {
        return;
      }
      if r.session !in totals {
        totals := totals[r.session := Totals(0, 0, 0)];
      }
      ghost var start := View();
      for i := 0 to |r.ops|
        invariant Work(View(), digest, r, i) == Work(start, digest, r, 0)
      {
        var e := Event(r.session, r.timestamp, r.ops[i].kind);
        if r.ops[i].StoreOp? {
          var summarised := StoreEvent(digest, e);
          if !summarised {
            lost := lost + [Loss(r.session, OwedAt(r, i + 1))];
            return;
          }
        } else {
          ChargeEvent(e);
        }
      }
    }
  }

  // ---------- Any number of threads ----------

  // Where a thread stands with its record: it has found the uuid unseen and notes it, then makes sure
  // of the session row, then goes through the ops one by one.
  datatype Worker =
    | Idle
    | Noting(r: Record)
    | Ensuring(r: Record)
    | Working(r: Record, n: nat)

  datatype State = State(store: Store, workers: seq<Worker>)

  // A statement may fail, which the program ignores, and an exception may end a record anywhere.
  datatype Step = Begin(worker: nat, r: Record) | Proceed(worker: nat) | Fail(worker: nat) | Abandon(worker: nat)

  function WorkingFrom(r: Record, n: nat): Worker {
    if n < |r.ops| then Working(r, n) else Idle
  }

  predicate IsPlaced(w: Worker) {
    && (w.Working? ==> w.n < |w.r.ops|)
    && (w.Idle? || IsWhole(w.r))
  }

  predicate Enabled(s: State, step: Step) {
    && step.worker < |s.workers| && IsPlaced(s.workers[step.worker])
    && (step.Begin? <==> s.workers[step.worker].Idle?)
    && (step.Begin? ==> IsWhole(step.r))
  }

  function Begun(s: Store, r: Record): Worker {
    if r.uuid == "" then Ensuring(r) else if r.uuid in s.seen then Idle else Noting(r)
  }

  // After op n the thread goes on, or an exception ends its record.
  function GoneOn(s: Store, r: Record, n: nat): (Store, Worker)
    requires n < |r.ops|
  {
    if Stops(r.ops[n]) then (GivenUp(s, r, n + 1), Idle) else (s, WorkingFrom(r, n + 1))
  }

  // One database statement, or one access to the set of seen uuids.
  function Advanced(s: Store, digest: Event -> string, w: Worker): (Store, Worker)
    requires IsPlaced(w)
  {
    match w
    case Idle => (s, Idle)
    case Noting(r) => (s.(seen := s.seen + {r.uuid}), Ensuring(r))
    case Ensuring(r) => if r.session == "" then (s, Idle) else (Ensured(s, r.session), WorkingFrom(r, 0))
    case Working(r, n) => GoneOn(Performed(s, digest, r, n), r, n)
  }

  // The same with a statement that has no effect.
  function Failed(s: Store, w: Worker): (Store, Worker)
    requires IsPlaced(w)
  {
    match w
    case Idle => (s, Idle)
    case Noting(r) => (s.(seen := s.seen + {r.uuid}), Ensuring(r))
    case Ensuring(r) => if r.session == "" then (s, Idle) else (s, WorkingFrom(r, 0))
    case Working(r, n) =>
      var e := EventAt(r, n);
      GoneOn(if r.ops[n].StoreOp? then s.(ignored := s.ignored + [e])
             else s.(lost := s.lost + [Loss(e.session, Figures(e))]), r, n)
  }

  function Abandoned(s: Store, w: Worker): (Store, Worker)
    requires IsPlaced(w)
  {
    (if w.Working? then GivenUp(s, w.r, w.n) else s, Idle)
  }

  function After(s: State, digest: Event -> string, step: Step): (Store, Worker)
    requires Enabled(s, step)
  {
    var w := s.workers[step.worker];
    match step
    case Begin(_, r) => (s.store, Begun(s.store, r))
    case Proceed(_) => Advanced(s.store, digest, w)
    case Fail(_) => Failed(s.store, w)
    case Abandon(_) => Abandoned(s.store, w)
  }

  function Next(s: State, digest: Event -> string, step: Step): State
    requires Enabled(s, step)
  {
    var (store, worker) := After(s, digest, step);
    State(store, s.workers[step.worker := worker])
  }

  ghost predicate Run(s: State, digest: Event -> string, steps: seq<Step>, t: State)
    decreases |steps|
  {
    if steps == [] then s == t
    else Enabled(s, steps[0]) && Run(Next(s, digest, steps[0]), digest, steps[1..], t)
  }

  predicate AtRest(s: State) {
    forall w | w in s.workers :: w.Idle?
  }

  predicate Initial(s: State) {
    s.store == EmptyStore() && AtRest(s)
  }

  // ---------- The books balance ----------

  // A figure counts for its own session only.
  function For(session: string, owner: string, t: Totals): Totals {
    if owner == session then t else Totals(0, 0, 0)
  }

  function LostOf(session: string, lost: seq<Loss>): Totals {
    if lost == [] then Totals(0, 0, 0)
    else
      var n := |lost| - 1;
      Plus(LostOf(session, lost[..n]), For(session, lost[n].session, lost[n].figures))
  }

  // What a thread has stored and not yet added to the session row.
  function Owed(w: Worker, session: string): Totals {
    if w.Working? && w.n < |w.r.ops| then For(session, w.r.session, OwedAt(w.r, w.n)) else Totals(0, 0, 0)
  }

  function OwedByAll(workers: seq<Worker>, session: string): Totals {
    if workers == [] then Totals(0, 0, 0)
    else Plus(OwedByAll(workers[..|workers| - 1], session), Owed(workers[|workers| - 1], session))
  }

  // What is stored under a session, whether listed or turned away.
  function Stored(s: Store, session: string): Totals {
    Plus(Sum(Of(session, s.events)), Sum(Of(session, s.ignored)))
  }

  // The row and what it has lost.
  function Book(s: Store, session: string): Totals {
    Plus(TotalsOf(s, session), LostOf(session, s.lost))
  }

  // The session row, what is owed to it and what it has lost make up what was stored.
  ghost predicate Balanced(s: State, session: string) {
    && Plus(Book(s.store, session), OwedByAll(s.workers, session)) == Stored(s.store, session)
    && (forall w | w in s.workers :: IsPlaced(w))
  }

  lemma {:induction false} OwedUpdate(workers: seq<Worker>, i: nat, w: Worker, session: string)
    requires i < |workers|
    ensures Plus(OwedByAll(workers[i := w], session), Owed(workers[i], session))
         == Plus(OwedByAll(workers, session), Owed(w, session))
    decreases |workers|
  {
    hide Owed;
    var n := |workers| - 1;
    if i == n {
      assert workers[i := w][..n] == workers[..n];
    } else {
      assert workers[i := w][..n] == workers[..n][i := w];
      OwedUpdate(workers[..n], i, w, session);
    }
  }

  lemma {:induction false} NothingOwed(workers: seq<Worker>, session: string)
    requires forall w | w in workers :: w.Idle?
    ensures OwedByAll(workers, session) == Totals(0, 0, 0)
    decreases |workers|
  {
    if workers != [] {
      NothingOwed(workers[..|workers| - 1], session);
      assert workers[|workers| - 1] in workers;
    }
  }

  lemma LostSnoc(session: string, lost: seq<Loss>, l: Loss)
    ensures LostOf(session, lost + [l]) == Plus(LostOf(session, lost), For(session, l.session, l.figures))
  {
    assert (lost + [l])[..|lost|] == lost;
  }

  // What one access changes in the row and its losses, in what is owed to it and in what is stored.
  ghost predicate Balances(s: Store, owed: Totals, t: Store, owedThen: Totals, session: string) {
    Plus(Plus(Book(t, session), owedThen), Stored(s, session)) == Plus(Plus(Book(s, session), owed), Stored(t, session))
  }

  lemma BalancesThen(s: Store, a: Totals, t: Store, b: Totals, u: Store, c: Totals, session: string)
    requires Balances(s, a, t, b, session) && Balances(t, b, u, c, session)
    ensures Balances(s, a, u, c, session)
  {
    hide Book, Stored;
  }

  // An op stores or charges its own figures, whether or not the statement has effect.
  lemma OwedStep(r: Record, n: nat)
    requires IsWhole(r) && n < |r.ops|
    ensures var f := KindFigures(r.ops[n].kind);
            if r.ops[n].StoreOp? then OwedAt(r, n + 1) == Plus(OwedAt(r, n), f)
            else OwedAt(r, n) == Plus(OwedAt(r, n + 1), f)
  {
    hide KindFigures;
    assert r.ops[..n + 1][..n] == r.ops[..n];
    assert Covers(Figured(r.ops[..n], true), Figured(r.ops[..n], false));
    assert Covers(Figured(r.ops[..n + 1], true), Figured(r.ops[..n + 1], false));
  }

  lemma NothingOwedAtEnds(r: Record)
    requires IsWhole(r)
    ensures OwedAt(r, 0) == OwedAt(r, |r.ops|) == Totals(0, 0, 0)
  {
    assert r.ops[..0] == [] && r.ops[..|r.ops|] == r.ops;
  }

  // t has one event more than s, listed or turned away.
  predicate HasOneMore(s: Store, t: Store, e: Event) {
    || (t.events == s.events + [e] && t.ignored == s.ignored)
    || (t.events == s.events && t.ignored == s.ignored + [e])
  }

  lemma StoredAppend(s: Store, t: Store, e: Event, session: string)
    requires t.totals == s.totals && t.lost == s.lost
    requires HasOneMore(s, t, e)
    ensures Book(t, session) == Book(s, session)
    ensures Stored(t, session) == Plus(Stored(s, session), For(session, e.session, Figures(e)))
  {
    hide Sum, Of;
    OfSnoc(session, s.events, e);
    OfSnoc(session, s.ignored, e);
    SumSnoc(Of(session, s.events), e);
    SumSnoc(Of(session, s.ignored), e);
    assert Of(session, s.events) + [] == Of(session, s.events);
    assert Of(session, s.ignored) + [] == Of(session, s.ignored);
  }

  lemma StoringBalances(s: Store, t: Store, r: Record, n: nat, session: string)
    requires IsWhole(r) && n < |r.ops| && r.ops[n].StoreOp?
    requires t.totals == s.totals && t.lost == s.lost
    requires HasOneMore(s, t, EventAt(r, n))
    ensures Balances(s, For(session, r.session, OwedAt(r, n)), t, For(session, r.session, OwedAt(r, n + 1)), session)
  {
    hide Book, Stored, OwedAt, IsWhole, KindFigures;
    OwedStep(r, n);
    StoredAppend(s, t, EventAt(r, n), session);
  }

  lemma LossBooks(s: Store, l: Loss, session: string)
    ensures var t := s.(lost := s.lost + [l]);
            && Book(t, session) == Plus(Book(s, session), For(session, l.session, l.figures))
            && Stored(t, session) == Stored(s, session)
  {
    hide LostOf, Sum, Of, For;
    LostSnoc(session, s.lost, l);
  }

  lemma RowBooks(s: Store, e: Event, session: string)
    requires e.session in s.totals
    ensures Book(Charge(s, e), session) == Plus(Book(s, session), For(session, e.session, Figures(e)))
    ensures Stored(Charge(s, e), session) == Stored(s, session)
  {
    hide Figures, LostOf, Sum, Of;
    RowGrows(s, e, session);
  }

  lemma RowGrows(s: Store, e: Event, session: string)
    requires e.session in s.totals
    ensures TotalsOf(Charge(s, e), session)
         == if e.session == session then Plus(TotalsOf(s, session), Figures(e)) else TotalsOf(s, session)
  {
    hide Figures, Plus;
  }

  lemma ChargingBalances(s: Store, t: Store, r: Record, n: nat, session: string)
    requires IsWhole(r) && n < |r.ops| && r.ops[n].ChargeOp?
    requires t == Charge(s, EventAt(r, n)) || t == s.(lost := s.lost + [Loss(r.session, Figures(EventAt(r, n)))])
    ensures Balances(s, For(session, r.session, OwedAt(r, n)), t, For(session, r.session, OwedAt(r, n + 1)), session)
  {
    hide Book, Stored, OwedAt, IsWhole, KindFigures;
    OwedStep(r, n);
    var e := EventAt(r, n);
    LossBooks(s, Loss(r.session, Figures(e)), session);
    if r.session in s.totals {
      RowBooks(s, e, session);
    }
  }

  lemma GivingUpBalances(s: Store, r: Record, n: nat, session: string)
    requires n <= |r.ops|
    ensures Balances(s, For(session, r.session, OwedAt(r, n)), GivenUp(s, r, n), Totals(0, 0, 0), session)
  {
    hide Book, Stored, OwedAt;
    LossBooks(s, Loss(r.session, OwedAt(r, n)), session);
  }

  lemma GoingOnBalances(s: Store, r: Record, n: nat, session: string)
    requires IsWhole(r) && n < |r.ops|
    ensures var (t, v) := GoneOn(s, r, n);
            Balances(s, For(session, r.session, OwedAt(r, n + 1)), t, Owed(v, session), session)
    ensures IsPlaced(GoneOn(s, r, n).1)
  {
    hide Balances, OwedAt, IsWhole;
    GivingUpBalances(s, r, n + 1, session);
    NothingOwedAtEnds(r);
    NothingChanges(s, For(session, r.session, OwedAt(r, n + 1)), session);
  }

  lemma NothingChanges(s: Store, owed: Totals, session: string)
    ensures Balances(s, owed, s, owed, session)
  {
  }

  lemma EnsuringBalances(s: Store, created: string, session: string)
    ensures Balances(s, Totals(0, 0, 0), Ensured(s, created), Totals(0, 0, 0), session)
  {
    hide Sum, Of, LostOf;
  }

  lemma NotingBalances(s: Store, uuid: string, session: string)
    ensures Balances(s, Totals(0, 0, 0), s.(seen := s.seen + {uuid}), Totals(0, 0, 0), session)
  {
    hide Sum, Of, LostOf;
  }

  lemma FreshWorkerOwesNothing(r: Record, session: string)
    requires IsWhole(r)
    ensures Owed(WorkingFrom(r, 0), session) == Totals(0, 0, 0) && IsPlaced(WorkingFrom(r, 0))
  {
    hide IsWhole, OwedAt;
    NothingOwedAtEnds(r);
  }

  lemma WorkBalances(s: Store, t: Store, r: Record, n: nat, session: string)
    requires IsWhole(r) && n < |r.ops|
    requires Balances(s, For(session, r.session, OwedAt(r, n)), t, For(session, r.session, OwedAt(r, n + 1)), session)
    ensures var (u, v) := GoneOn(t, r, n);
            Balances(s, Owed(Working(r, n), session), u, Owed(v, session), session) && IsPlaced(v)
  {
    hide Balances, OwedAt, IsWhole, GoneOn;
    GoingOnBalances(t, r, n, session);
    var owed, later := For(session, r.session, OwedAt(r, n)), For(session, r.session, OwedAt(r, n + 1));
    var (u, v) := GoneOn(t, r, n);
    BalancesThen(s, owed, t, later, u, Owed(v, session), session);
  }

  lemma AdvanceBalances(s: Store, digest: Event -> string, w: Worker, session: string)
    requires IsPlaced(w)
    ensures var (t, v) := Advanced(s, digest, w);
            Balances(s, Owed(w, session), t, Owed(v, session), session) && IsPlaced(v)
  {
    hide Balances, OwedAt, IsWhole, GoneOn, For;
    match w
    case Idle => NothingChanges(s, Totals(0, 0, 0), session);
    case Noting(r) => NotingBalances(s, r.uuid, session);
    case Ensuring(r) =>
      NothingChanges(s, Totals(0, 0, 0), session);
      EnsuringBalances(s, r.session, session);
      FreshWorkerOwesNothing(r, session);
    case Working(r, n) =>
      var t := Performed(s, digest, r, n);
      if r.ops[n].StoreOp? {
        StoringBalances(s, t, r, n, session);
      } else {
        ChargingBalances(s, t, r, n, session);
      }
      WorkBalances(s, t, r, n, session);
  }

  lemma FailureBalances(s: Store, w: Worker, session: string)
    requires IsPlaced(w)
    ensures var (t, v) := Failed(s, w);
            Balances(s, Owed(w, session), t, Owed(v, session), session) && IsPlaced(v)
  {
    hide Balances, OwedAt, IsWhole, GoneOn, For;
    match w
    case Idle => NothingChanges(s, Totals(0, 0, 0), session);
    case Noting(r) => NotingBalances(s, r.uuid, session);
    case Ensuring(r) =>
      NothingChanges(s, Totals(0, 0, 0), session);
      FreshWorkerOwesNothing(r, session);
    case Working(r, n) =>
      var e := EventAt(r, n);
      if r.ops[n].StoreOp? {
        var t := s.(ignored := s.ignored + [e]);
        StoringBalances(s, t, r, n, session);
        WorkBalances(s, t, r, n, session);
      } else {
        var t := s.(lost := s.lost + [Loss(e.session, Figures(e))]);
        ChargingBalances(s, t, r, n, session);
        WorkBalances(s, t, r, n, session);
      }
  }

  lemma AfterBalances(s: State, digest: Event -> string, step: Step, session: string)
    requires Enabled(s, step)
    ensures var (t, v) := After(s, digest, step);
            Balances(s.store, Owed(s.workers[step.worker], session), t, Owed(v, session), session) && IsPlaced(v)
  {
    hide Balances, OwedAt, IsWhole, Advanced, Failed;
    var w := s.workers[step.worker];
    NothingChanges(s.store, Totals(0, 0, 0), session);
    match step
    case Begin(_, r) =>
    case Proceed(_) => AdvanceBalances(s.store, digest, w, session);
    case Fail(_) => FailureBalances(s.store, w, session);
    case Abandon(_) =>
      if w.Working? {
        GivingUpBalances(s.store, w.r, w.n, session);
      }
  }

  lemma StepKeepsBalance(s: State, digest: Event -> string, step: Step, session: string)
    requires Balanced(s, session) && Enabled(s, step)
    ensures Balanced(Next(s, digest, step), session)
  {
    hide Book, Stored, OwedByAll, After, Owed, IsPlaced;
    AfterBalances(s, digest, step, session);
    OwedUpdate(s.workers, step.worker, After(s, digest, step).1, session);
  }

  lemma {:induction false} RunKeepsBalance(
      s: State, digest: Event -> string, steps: seq<Step>, t: State, session: string)
    requires Balanced(s, session) && Run(s, digest, steps, t)
    ensures Balanced(t, session)
    decreases |steps|
  {
    hide Balanced, Next, Enabled;
    if steps != [] {
      StepKeepsBalance(s, digest, steps[0], session);
      RunKeepsBalance(Next(s, digest, steps[0]), digest, steps[1..], t, session);
    }
  }

  lemma NothingStored(session: string)
    ensures Of(session, []) == [] && Sum([]) == Totals(0, 0, 0) && LostOf(session, []) == Totals(0, 0, 0)
  {
  }

  lemma EmptyBooks(session: string)
    ensures Book(EmptyStore(), session) == Stored(EmptyStore(), session) == Totals(0, 0, 0)
  {
    hide Of, Sum, LostOf;
    NothingStored(session);
  }

  lemma InitiallyBalanced(s: State, session: string)
    requires Initial(s)
    ensures Balanced(s, session)
  {
    hide Book, Stored, OwedByAll, IsWhole, Figured;
    EmptyBooks(session);
    NothingOwed(s.workers, session);
  }

  // Main result: whatever is read, by however many threads, with every statement interleaved and any of
  // them failing or cut short by an exception, each session row, what is owed to it and what it has
  // lost make up exactly the events stored under it and those turned away; at rest nothing is owed.
  lemma TotalsAccountForEvents(s: State, digest: Event -> string, steps: seq<Step>, t: State, session: string)
    requires Initial(s) && Run(s, digest, steps, t)
    ensures Plus(Plus(TotalsOf(t.store, session), LostOf(session, t.store.lost)), OwedByAll(t.workers, session))
         == Plus(Sum(Of(session, t.store.events)), Sum(Of(session, t.store.ignored)))
    ensures AtRest(t) ==> OwedByAll(t.workers, session) == Totals(0, 0, 0)
  {
    hide Sum, Of, OwedByAll, LostOf, TotalsOf, Initial, Run;
    InitiallyBalanced(s, session);
    RunKeepsBalance(s, digest, steps, t, session);
    if AtRest(t) {
      NothingOwed(t.workers, session);
    }
  }

  // ---------- One thread alone ----------

  // A thread that is not interrupted does to the store what processing the record does.
  lemma RecordAlone(s: Store, digest: Event -> string, r: Record) returns (steps: seq<Step>)
    requires IsWhole(r)
    ensures Run(State(s, [Idle]), digest, steps, State(Process(s, digest, r), [Idle]))
  {
    hide IsWhole, Work;
    var begin := State(s, [Begun(s, r)]);
    assert [Idle][0 := Begun(s, r)] == [Begun(s, r)];
    assert Next(State(s, [Idle]), digest, Begin(0, r)) == begin;
    if r.uuid != "" && r.uuid in s.seen {
      steps := [Begin(0, r)];
      assert Run(begin, digest, [], begin);
    } else {
      var noted := if r.uuid != "" then s.(seen := s.seen + {r.uuid}) else s;
      var rest := EnsureAlone(noted, digest, r);
      if r.uuid == "" {
        steps := [Begin(0, r)] + rest;
      } else {
        var later := [Proceed(0)] + rest;
        assert Next(begin, digest, Proceed(0)) == State(noted, [Ensuring(r)]);
        assert Run(begin, digest, later, State(Process(s, digest, r), [Idle]));
        steps := [Begin(0, r)] + later;
      }
    }
  }

  lemma EnsureAlone(s: Store, digest: Event -> string, r: Record) returns (steps: seq<Step>)
    requires IsWhole(r)
    ensures Run(State(s, [Ensuring(r)]), digest, steps,
                State(if r.session == "" then s else Work(Ensured(s, r.session), digest, r, 0), [Idle]))
  {
    hide IsWhole, Work;
    var start := State(s, [Ensuring(r)]);
    if r.session == "" {
      steps := [Proceed(0)];
      assert Next(start, digest, Proceed(0)) == State(s, [Idle]);
      assert Run(State(s, [Idle]), digest, [], State(s, [Idle]));
    } else {
      var ensured := Ensured(s, r.session);
      var rest := WorkAlone(ensured, digest, r, 0);
      assert Next(start, digest, Proceed(0)) == State(ensured, [WorkingFrom(r, 0)]);
      steps := [Proceed(0)] + rest;
    }
  }

  lemma {:induction false} WorkAlone(s: Store, digest: Event -> string, r: Record, n: nat)
      returns (steps: seq<Step>)
    requires IsWhole(r) && n <= |r.ops|
    ensures Run(State(s, [WorkingFrom(r, n)]), digest, steps, State(Work(s, digest, r, n), [Idle]))
    decreases |r.ops| - n
  {
    hide IsWhole, Performed, GivenUp;
    var start := State(s, [WorkingFrom(r, n)]);
    if n == |r.ops| {
      steps := [];
    } else {
      var t := Performed(s, digest, r, n);
      assert [Working(r, n)][0 := GoneOn(t, r, n).1] == [GoneOn(t, r, n).1];
      if Stops(r.ops[n]) {
        var end := State(GivenUp(t, r, n + 1), [Idle]);
        assert Next(start, digest, Proceed(0)) == end;
        steps := [Proceed(0)];
        assert Run(end, digest, [], end);
      } else {
        assert Next(start, digest, Proceed(0)) == State(t, [WorkingFrom(r, n + 1)]);
        var rest := WorkAlone(t, digest, r, n + 1);
        steps := [Proceed(0)] + rest;
      }
    }
  }

  // Reading the same identified record again changes nothing.
  lemma RereadingIsHarmless(s: Store, digest: Event -> string, r: Record)
    requires r.uuid != ""
    ensures Process(Process(s, digest, r), digest, r) == Process(s, digest, r)
  {
    if r.uuid !in s.seen && r.session != "" {
      SeenStays(Ensured(s.(seen := s.seen + {r.uuid}), r.session), digest, r, 0);
    }
  }

  lemma {:induction false} SeenStays(s: Store, digest: Event -> string, r: Record, n: nat)
    requires n <= |r.ops|
    ensures Work(s, digest, r, n).seen == s.seen
    decreases |r.ops| - n
  {
    if n < |r.ops| && !Stops(r.ops[n]) {
      SeenStays(Performed(s, digest, r, n), digest, r, n + 1);
    }
  }
}
