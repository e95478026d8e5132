/** The turn view of a session: its events, cut into turns at each user prompt, with running totals. */
module TurnView {
  import opened Wrappers
  import opened Sessions

  datatype Turn = Turn(
    number: nat,
    timestamp: string,
    events: seq<Event>,
    tools: seq<string>,
    hasAlert: bool,
    deltaInput: nat,
    deltaOutput: nat,
    cumulativeInput: nat,
    cumulativeOutput: nat)

  datatype View = View(
    turns: seq<Turn>,
    current: Option<Turn>,
    turnCount: nat,
    cumulativeInput: nat,
    cumulativeOutput: nat)

  function Opened(v: View, e: Event): View {
    var turn := Turn(v.turnCount + 1, e.timestamp, [e], [], false, 0, 0, v.cumulativeInput, v.cumulativeOutput);
    View(v.turns + (if v.current.Some? then [v.current.value] else []), Some(turn), v.turnCount + 1,
         v.cumulativeInput, v.cumulativeOutput)
  }

  function Extended(v: View, e: Event): View
    requires v.current.Some?
  {
    var turn := v.current.value.(events := v.current.value.events + [e]);
    match e.kind
    case ToolUse(tool, _) => v.(current := Some(turn.(tools := turn.tools + [tool])))
    case TokenUsage(input, output) =>
      var totalIn, totalOut := v.cumulativeInput + input, v.cumulativeOutput + output;
      v.(current := Some(turn.(deltaInput := input, deltaOutput := output,
                               cumulativeInput := totalIn, cumulativeOutput := totalOut)),
         cumulativeInput := totalIn, cumulativeOutput := totalOut)
    case SensitiveData => v.(current := Some(turn.(hasAlert := true)))
    case _ => v.(current := Some(turn))
  }

  function Scan(events: seq<Event>): View {
    if events == [] then View([], None, 0, 0, 0)
    else
      var n := |events| - 1;
      var v := Scan(events[..n]);
      if events[n].kind.UserPrompt? then Opened(v, events[n])
      else if v.current.Some? then Extended(v, events[n])
      else v
  }

  function AllTurns(v: View): seq<Turn> {
    v.turns + if v.current.Some? then [v.current.value] else []
  }

  method SessionTurns(events: seq<Event>)
      returns (turns: seq<Turn>, turnCount: nat, totalInput: nat, totalOutput: nat)
    ensures var v := Scan(events);
            && turns == AllTurns(v) && turnCount == v.turnCount
            && totalInput == v.cumulativeInput && totalOutput == v.cumulativeOutput
  {
    turns, turnCount, totalInput, totalOutput := [], 0, 0, 0;
    var current: Option<Turn> := None;
    for i := 0 to |events|
      invariant Scan(events[..i]) == View(turns, current, turnCount, totalInput, totalOutput)
    {
      assert events[..i + 1][..i] == events[..i];
      var e := events[i];
      if e.kind.UserPrompt? {
        if current.Some? {
          turns := turns + [current.value];
        }
        turnCount := turnCount + 1;
        current := Some(Turn(turnCount, e.timestamp, [e], [], false, 0, 0, totalInput, totalOutput));
      } else if current.Some? {
        var turn := current.value.(events := current.value.events + [e]);
        match e.kind {
          case ToolUse(tool, _) =>
            turn := turn.(tools := turn.tools + [tool]);
          case TokenUsage(input, output) =>
            totalInput, totalOutput := totalInput + input, totalOutput + output;
            turn := turn.(deltaInput := input, deltaOutput := output,
                          cumulativeInput := totalInput, cumulativeOutput := totalOutput);
          case SensitiveData =>
            turn := turn.(hasAlert := true);
          case _ =>
        }
        current := Some(turn);
      }
    }
    assert events[..|events|] == events;
    if current.Some? {
      turns := turns + [current.value];
    }
  }

  // ---------- What a turn is ----------

  // The events from the first user prompt on.
  function FromFirstPrompt(events: seq<Event>): seq<Event> {
    if events == [] then []
    else if events[0].kind.UserPrompt? then events
    else FromFirstPrompt(events[1..])
  }

  function Flatten(turns: seq<Turn>): seq<Event> {
    if turns == [] then [] else Flatten(turns[..|turns| - 1]) + turns[|turns| - 1].events
  }

  function ToolNames(events: seq<Event>): seq<string> {
    if events == [] then []
    else
      var n := |events| - 1;
      ToolNames(events[..n]) + if events[n].kind.ToolUse? then [events[n].kind.tool] else []
  }

  // The last token usage of a list of events.
  function LastUsage(events: seq<Event>): (nat, nat) {
    if events == [] then (0, 0)
    else
      var n := |events| - 1;
      if events[n].kind.TokenUsage? then (events[n].kind.input, events[n].kind.output) else LastUsage(events[..n])
  }

  predicate HasAlert(events: seq<Event>) {
    exists i :: 0 <= i < |events| && events[i].kind.SensitiveData?
  }

  // A turn: one prompt followed by events that are not prompts, summarised.
  predicate IsTurn(t: Turn) {
    && t.events != [] && t.events[0].kind.UserPrompt? && t.timestamp == t.events[0].timestamp
    && (forall i | 0 < i < |t.events| :: !t.events[i].kind.UserPrompt?)
    && t.tools == ToolNames(t.events)
    && t.hasAlert == HasAlert(t.events)
    && (t.deltaInput, t.deltaOutput) == LastUsage(t.events)
  }

  // The k-th turn is numbered k + 1 and carries the token totals of everything up to its end.
  predicate IsNumbered(turns: seq<Turn>, k: nat)
    requires k < |turns|
  {
    var sum := Sum(Flatten(turns[..k + 1]));
    turns[k].number == k + 1 && turns[k].cumulativeInput == sum.input && turns[k].cumulativeOutput == sum.output
  }

  ghost predicate IsView(v: View, events: seq<Event>) {
    var all := AllTurns(v);
    && Flatten(all) == FromFirstPrompt(events)
    && (v.current.None? ==> v.turns == [])
    && v.turnCount == |all| == Sum(FromFirstPrompt(events)).turns
    && v.cumulativeInput == Sum(FromFirstPrompt(events)).input
    && v.cumulativeOutput == Sum(FromFirstPrompt(events)).output
    && (forall t | t in all :: IsTurn(t))
    && (forall k | 0 <= k < |all| :: IsNumbered(all, k))
  }

  lemma {:induction false} FromFirstPromptSnoc(events: seq<Event>, e: Event)
    ensures FromFirstPrompt(events + [e])
         == if FromFirstPrompt(events) != [] || e.kind.UserPrompt? then FromFirstPrompt(events) + [e] else []
  {
    if events == [] {
      assert events + [e] == [e] && [e][1..] == [];
    } else {
      assert (events + [e])[1..] == events[1..] + [e];
      FromFirstPromptSnoc(events[1..], e);
    }
  }

  lemma FlattenSnoc(turns: seq<Turn>, t: Turn)
    ensures Flatten(turns + [t]) == Flatten(turns) + t.events
  {
    assert (turns + [t])[..|turns|] == turns;
  }

  lemma NumberedPrefix(turns: seq<Turn>, t: Turn)
    requires forall k | 0 <= k < |turns| :: IsNumbered(turns, k)
    ensures forall k | 0 <= k < |turns| :: IsNumbered(turns + [t], k)
  {
    forall k | 0 <= k < |turns|
      ensures IsNumbered(turns + [t], k)
    {
      assert IsNumbered(turns, k);
      assert (turns + [t])[..k + 1] == turns[..k + 1];
    }
  }

  lemma TurnGrows(t: Turn, e: Event, grown: Turn, v: View)
    requires IsTurn(t) && !e.kind.UserPrompt? && v.current == Some(t)
    requires Extended(v, e).current == Some(grown)
    ensures IsTurn(grown) && grown.number == t.number && grown.events == t.events + [e]
  {
    hide ToolNames, LastUsage, HasAlert;
    SummarySnoc(t.events, e);
    assert forall i | 0 <= i < |t.events| :: (t.events + [e])[i] == t.events[i];
    assert (t.events + [e])[|t.events|] == e;
  }

  lemma SummarySnoc(events: seq<Event>, e: Event)
    ensures ToolNames(events + [e]) == if e.kind.ToolUse? then ToolNames(events) + [e.kind.tool] else ToolNames(events)
    ensures LastUsage(events + [e])
         == if e.kind.TokenUsage? then (e.kind.input, e.kind.output) else LastUsage(events)
    ensures HasAlert(events + [e]) <==> HasAlert(events) || e.kind.SensitiveData?
  {
    assert (events + [e])[..|events|] == events;
    assert (events + [e])[|events|] == e;
    assert forall i | 0 <= i < |events| :: (events + [e])[i] == events[i];
  }

  lemma LastIsNumbered(turns: seq<Turn>, t: Turn)
    requires t.number == |turns| + 1
    requires t.cumulativeInput == Sum(Flatten(turns + [t])).input
    requires t.cumulativeOutput == Sum(Flatten(turns + [t])).output
    ensures IsNumbered(turns + [t], |turns|)
  {
    assert (turns + [t])[..|turns| + 1] == turns + [t];
  }

  lemma NewTurn(v: View, e: Event)
    requires e.kind.UserPrompt?
    ensures IsTurn(Opened(v, e).current.value)
  {
    assert [e][..0] == [];
  }

  lemma OpenKeeps(v: View, events: seq<Event>, e: Event)
    requires IsView(v, events) && e.kind.UserPrompt?
    ensures IsView(Opened(v, e), events + [e])
  {
    hide Sum, Flatten, FromFirstPrompt, IsTurn, IsNumbered;
    var w := Opened(v, e);
    var all, t := AllTurns(v), w.current.value;
    assert AllTurns(w) == all + [t];
    FromFirstPromptSnoc(events, e);
    FlattenSnoc(all, t);
    SumSnoc(FromFirstPrompt(events), e);
    NumberedPrefix(all, t);
    LastIsNumbered(all, t);
    NewTurn(v, e);
  }

  // All turns but the last, and the last, of a view with an open turn.
  lemma ViewParts(v: View, events: seq<Event>)
    requires IsView(v, events) && v.current.Some?
    ensures var t := v.current.value;
            && AllTurns(v) == v.turns + [t] && IsTurn(t) && t.number == |v.turns| + 1
            && (forall u | u in v.turns :: IsTurn(u))
            && (forall k | 0 <= k < |v.turns| :: IsNumbered(v.turns, k))
            && Flatten(v.turns) + t.events == FromFirstPrompt(events)
            && FromFirstPrompt(events) != []
            && t.cumulativeInput == Sum(FromFirstPrompt(events)).input
            && t.cumulativeOutput == Sum(FromFirstPrompt(events)).output
  {
    hide Sum, FromFirstPrompt, Flatten;
    var t, all := v.current.value, AllTurns(v);
    assert all == v.turns + [t] && t in all;
    FlattenSnoc(v.turns, t);
    assert IsNumbered(all, |v.turns|);
    assert all[..|v.turns| + 1] == all;
    forall k | 0 <= k < |v.turns|
      ensures IsNumbered(v.turns, k)
    {
      assert IsNumbered(all, k);
      assert all[..k + 1] == v.turns[..k + 1];
    }
    assert forall u | u in v.turns :: u in all;
  }

  lemma ExtendKeeps(v: View, events: seq<Event>, e: Event)
    requires IsView(v, events) && !e.kind.UserPrompt? && v.current.Some?
    ensures IsView(Extended(v, e), events + [e])
  {
    hide Sum, Flatten, FromFirstPrompt, IsTurn, IsNumbered;
    var w := Extended(v, e);
    var t, grown := v.current.value, w.current.value;
    ViewParts(v, events);
    assert AllTurns(w) == v.turns + [grown];
    TurnGrows(t, e, grown, v);
    FlattenSnoc(v.turns, grown);
    assert Flatten(v.turns) + (t.events + [e]) == (Flatten(v.turns) + t.events) + [e];
    FromFirstPromptSnoc(events, e);
    SumSnoc(FromFirstPrompt(events), e);
    NumberedPrefix(v.turns, grown);
    LastIsNumbered(v.turns, grown);
  }

  // Main result: the turns partition the events from the first prompt on, are numbered 1..n, each
  // begins with its only prompt, and the cumulative figures are prefix sums.
  lemma {:induction false} TurnsPartitionTheSession(events: seq<Event>)
    ensures IsView(Scan(events), events)
    decreases |events|
  {
    if events != [] {
      var n := |events| - 1;
      var v, e := Scan(events[..n]), events[n];
      TurnsPartitionTheSession(events[..n]);
      assert events == events[..n] + [e];
      if e.kind.UserPrompt? {
        OpenKeeps(v, events[..n], e);
      } else if v.current.Some? {
        ExtendKeeps(v, events[..n], e);
      } else {
        FromFirstPromptSnoc(events[..n], e);
      }
    }
  }

  function BeforeFirstPrompt(events: seq<Event>): seq<Event> {
    if events == [] || events[0].kind.UserPrompt? then [] else [events[0]] + BeforeFirstPrompt(events[1..])
  }

  lemma SumOfOther(e: Event, rest: seq<Event>)
    requires !e.kind.UserPrompt?
    ensures Sum([e] + rest).turns == Sum(rest).turns
  {
    hide Sum;
    SumAppend([e], rest);
    SumOfOne(e);
  }

  lemma SumOfOne(e: Event)
    ensures Sum([e]) == Figures(e)
  {
    assert [e][..0] == [] && Sum([]) == Totals(0, 0, 0);
  }

  lemma PromptIsFirst(events: seq<Event>)
    requires events == [] || events[0].kind.UserPrompt?
    ensures BeforeFirstPrompt(events) == [] && FromFirstPrompt(events) == events && Sum([]) == Totals(0, 0, 0)
  {
  }

  lemma PromptIsLater(events: seq<Event>)
    requires events != [] && !events[0].kind.UserPrompt?
    ensures BeforeFirstPrompt(events) == [events[0]] + BeforeFirstPrompt(events[1..])
    ensures FromFirstPrompt(events) == FromFirstPrompt(events[1..])
    ensures forall b, f | events[1..] == b + f :: events == [events[0]] + b + f
  {
    assert events == [events[0]] + events[1..];
  }

  lemma {:induction false} SplitAtFirstPrompt(events: seq<Event>)
    ensures events == BeforeFirstPrompt(events) + FromFirstPrompt(events)
    ensures Sum(BeforeFirstPrompt(events)).turns == 0
  {
    hide Sum, BeforeFirstPrompt, FromFirstPrompt;
    if events == [] || events[0].kind.UserPrompt? {
      PromptIsFirst(events);
    } else {
      PromptIsLater(events);
      SplitAtFirstPrompt(events[1..]);
      SumOfOther(events[0], BeforeFirstPrompt(events[1..]));
    }
  }

  // What the row counts and the view does not show: what came before the first prompt, and what was
  // turned away.
  function Unseen(s: Store, session: string): Totals {
    Plus(Sum(BeforeFirstPrompt(Of(session, s.events))), Sum(Of(session, s.ignored)))
  }

  function Shown(s: Store, session: string): Totals {
    var v := Scan(Of(session, s.events));
    Totals(v.cumulativeInput, v.cumulativeOutput, v.turnCount)
  }

  // For a session the watcher wrote, at any moment, however its threads interleave and whatever fails:
  // the row, what is owed to it and what it has lost are exactly what the view shows and does not show.
  lemma ViewAgainstTheRow(s: State, digest: Event -> string, steps: seq<Step>, t: State, session: string)
    requires Initial(s) && Run(s, digest, steps, t)
    ensures var row, lost := TotalsOf(t.store, session), LostOf(session, t.store.lost);
            Plus(Plus(row, lost), OwedByAll(t.workers, session))
            == Plus(Shown(t.store, session), Unseen(t.store, session))
  {
    hide Sum, Of, Scan, FromFirstPrompt, BeforeFirstPrompt, OwedByAll, TotalsOf, LostOf, Run, Initial, AtRest;
    TotalsAccountForEvents(s, digest, steps, t, session);
    ViewTotals(Of(session, t.store.events));
  }

  // Main result: at rest the view's totals do not exceed the row's if and only if what was lost does
  // not exceed what the view does not show.
  lemma ViewNeverExceedsTheRowIff(s: State, digest: Event -> string, steps: seq<Step>, t: State, session: string)
    requires Initial(s) && Run(s, digest, steps, t) && AtRest(t)
    ensures Covers(TotalsOf(t.store, session), Shown(t.store, session))
       <==> Covers(Unseen(t.store, session), LostOf(session, t.store.lost))
    ensures t.store.lost == [] ==> Covers(TotalsOf(t.store, session), Shown(t.store, session))
  {
    hide Sum, Of, OwedByAll, TotalsOf, Run, Initial, Shown, Unseen;
    TotalsAccountForEvents(s, digest, steps, t, session);
    ViewAgainstTheRow(s, digest, steps, t, session);
  }

  // It can exceed them: a prompt whose text is null is stored, then making its summary raises, and the
  // turn is never counted.
  lemma NullTextLosesItsTurn(digest: Event -> string, session: string, r: Record)
    requires session != "" && r == Record("", session, "", [StoreOp(UserPrompt(None)), ChargeOp(UserPrompt(None))])
    ensures IsWhole(r)
    ensures var t := Process(EmptyStore(), digest, r);
            Shown(t, session).turns == 1 && TotalsOf(t, session).turns == 0
  {
    hide IsWhole, Figured, Scan, Of, OwedAt;
    PromptAndChargeIsWhole(r, UserPrompt(None));
    var e := Event(session, "", UserPrompt(None));
    OnePromptIsOneTurn(e);
    assert Process(EmptyStore(), digest, r).events == [e];
  }

  lemma OnePromptIsOneTurn(e: Event)
    requires e.kind.UserPrompt?
    ensures Of(e.session, [e]) == [e] && Scan([e]).turnCount == 1
  {
    assert [e][..0] == [];
    assert Of(e.session, []) == [] && Scan([]).turnCount == 0;
  }

  lemma PromptAndChargeIsWhole(r: Record, prompt: Kind)
    requires r.ops == [StoreOp(prompt), ChargeOp(prompt)]
    ensures IsWhole(r)
  {
    hide Figured, KindFigures;
    var f := KindFigures(prompt);
    var none, one := r.ops[..0], r.ops[..1];
    NothingFigured();
    assert none == [] && one == none + [StoreOp(prompt)] && r.ops == one + [ChargeOp(prompt)];
    FiguredSnoc(none, StoreOp(prompt), true);
    FiguredSnoc(none, StoreOp(prompt), false);
    FiguredSnoc(one, ChargeOp(prompt), true);
    FiguredSnoc(one, ChargeOp(prompt), false);
    forall n | 0 <= n <= |r.ops|
      ensures Covers(Figured(r.ops[..n], true), Figured(r.ops[..n], false))
    {
      assert r.ops[..n] == if n == 0 then none else if n == 1 then one else r.ops;
    }
  }

  lemma NothingFigured()
    ensures Figured([], true) == Figured([], false) == Totals(0, 0, 0)
  {
  }

  lemma ViewTotals(events: seq<Event>)
    ensures var v := Scan(events);
            Sum(events) == Plus(Totals(v.cumulativeInput, v.cumulativeOutput, v.turnCount),
                                Sum(BeforeFirstPrompt(events)))
  {
    hide Sum, Scan, FromFirstPrompt, BeforeFirstPrompt, AllTurns, Flatten, IsTurn, IsNumbered;
    TurnsPartitionTheSession(events);
    SplitAtFirstPrompt(events);
    SumAppend(BeforeFirstPrompt(events), FromFirstPrompt(events));
  }
}
