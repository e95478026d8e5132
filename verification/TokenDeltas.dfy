/** The token delta the turn view shows for each turn, which every usage overwrites, against the
    session's totals. */
module TokenDeltas {
  import opened Wrappers
  import opened Sessions
  import opened TurnView

  datatype Figure = Input | Output

  function Amount(figure: Figure, t: Totals): nat {
    match figure
    case Input => t.input
    case Output => t.output
  }

  function Delta(figure: Figure, t: Turn): nat {
    match figure
    case Input => t.deltaInput
    case Output => t.deltaOutput
  }

  function SumOfDeltas(figure: Figure, turns: seq<Turn>): nat {
    if turns == [] then 0
    else SumOfDeltas(figure, turns[..|turns| - 1]) + Delta(figure, turns[|turns| - 1])
  }

  // No token usage but the last of these events carries the figure.
  predicate OnlyLastUsageCounts(figure: Figure, events: seq<Event>) {
    forall i, j | 0 <= i < j < |events| && events[i].kind.TokenUsage? && events[j].kind.TokenUsage? ::
      Amount(figure, Figures(events[i])) == 0
  }

  predicate NoUsageCounts(figure: Figure, events: seq<Event>) {
    forall i | 0 <= i < |events| && events[i].kind.TokenUsage? :: Amount(figure, Figures(events[i])) == 0
  }

  function LastAmount(figure: Figure, events: seq<Event>): nat {
    match figure
    case Input => LastUsage(events).0
    case Output => LastUsage(events).1
  }

  lemma {:induction false} NothingCounts(figure: Figure, events: seq<Event>)
    ensures Amount(figure, Sum(events)) == 0 <==> NoUsageCounts(figure, events)
    decreases |events|
  {
    if events != [] {
      var n := |events| - 1;
      NothingCounts(figure, events[..n]);
      assert events == events[..n] + [events[n]];
    }
  }

  lemma OnlyLastSnoc(figure: Figure, before: seq<Event>, e: Event)
    ensures OnlyLastUsageCounts(figure, before + [e])
       <==> if e.kind.TokenUsage? then NoUsageCounts(figure, before) else OnlyLastUsageCounts(figure, before)
  {
    var n, events := |before|, before + [e];
    assert events[n] == e;
    assert forall i | 0 <= i < n :: events[i] == before[i];
    if OnlyLastUsageCounts(figure, events) && e.kind.TokenUsage? {
      forall i | 0 <= i < n && before[i].kind.TokenUsage?
        ensures Amount(figure, Figures(before[i])) == 0
      {
        assert events[i].kind.TokenUsage? && events[n].kind.TokenUsage?;
      }
    } else if OnlyLastUsageCounts(figure, events) {
      forall i, j | 0 <= i < j < n && before[i].kind.TokenUsage? && before[j].kind.TokenUsage?
        ensures Amount(figure, Figures(before[i])) == 0
      {
        assert events[i].kind.TokenUsage? && events[j].kind.TokenUsage?;
      }
    }
  }

  lemma {:induction false} LastAgainstSum(figure: Figure, events: seq<Event>)
    ensures LastAmount(figure, events) <= Amount(figure, Sum(events))
    ensures LastAmount(figure, events) == Amount(figure, Sum(events)) <==> OnlyLastUsageCounts(figure, events)
    decreases |events|
  {
    if events != [] {
      hide OnlyLastUsageCounts, NoUsageCounts;
      var n := |events| - 1;
      var before, e := events[..n], events[n];
      LastAgainstSum(figure, before);
      NothingCounts(figure, before);
      assert events == before + [e];
      OnlyLastSnoc(figure, before, e);
    }
  }

  lemma {:induction false} DeltasAgainstSum(figure: Figure, turns: seq<Turn>)
    requires forall t | t in turns :: IsTurn(t)
    ensures SumOfDeltas(figure, turns) <= Amount(figure, Sum(Flatten(turns)))
    ensures SumOfDeltas(figure, turns) == Amount(figure, Sum(Flatten(turns)))
       <==> forall t | t in turns :: OnlyLastUsageCounts(figure, t.events)
    decreases |turns|
  {
    hide OnlyLastUsageCounts;
    if turns != [] {
      var n := |turns| - 1;
      var before, t := turns[..n], turns[n];
      assert turns == before + [t];
      DeltasAgainstSum(figure, before);
      FlattenSnoc(before, t);
      SumAppend(Flatten(before), t.events);
      LastAgainstSum(figure, t.events);
      assert t in turns && Delta(figure, t) == LastAmount(figure, t.events);
      assert forall u | u in turns :: u in before || u == t;
    }
  }

  // ---------- Token deltas against the events ----------

  predicate PromptedBefore(events: seq<Event>, i: nat)
    requires i <= |events|
  {
    exists p :: 0 <= p < i && events[p].kind.UserPrompt?
  }

  // No prompt stands after position i and before position j.
  predicate NoPromptBetween(events: seq<Event>, i: nat, j: nat)
    requires j <= |events|
  {
    forall k | i < k < j :: !events[k].kind.UserPrompt?
  }

  // A usage after the first prompt carries the figure, and another follows it before the next prompt.
  predicate Overwritten(figure: Figure, events: seq<Event>, i: nat, j: nat)
    requires i < j < |events|
  {
    && events[i].kind.TokenUsage? && events[j].kind.TokenUsage?
    && PromptedBefore(events, i) && NoPromptBetween(events, i, j)
    && Amount(figure, Figures(events[i])) != 0
  }

  predicate NothingIsOverwritten(figure: Figure, events: seq<Event>) {
    forall i, j | 0 <= i < j < |events| :: !Overwritten(figure, events, i, j)
  }

  // Another usage now would overwrite the one at position i.
  predicate IsOpen(figure: Figure, events: seq<Event>, i: nat)
    requires i < |events|
  {
    && events[i].kind.TokenUsage? && PromptedBefore(events, i) && NoPromptBetween(events, i, |events|)
    && Amount(figure, Figures(events[i])) != 0
  }

  predicate NothingIsOpen(figure: Figure, events: seq<Event>) {
    forall i | 0 <= i < |events| :: !IsOpen(figure, events, i)
  }

  lemma OverwrittenPrefix(figure: Figure, before: seq<Event>, e: Event, i: nat, j: nat)
    requires i < j < |before|
    ensures Overwritten(figure, before + [e], i, j) <==> Overwritten(figure, before, i, j)
  {
    var events := before + [e];
    assert forall k | 0 <= k < |before| :: events[k] == before[k];
    PromptedPrefix(before, e, i);
  }

  lemma PromptedPrefix(before: seq<Event>, e: Event, i: nat)
    requires i <= |before|
    ensures PromptedBefore(before + [e], i) <==> PromptedBefore(before, i)
  {
    var events := before + [e];
    forall k | 0 <= k < |before|
      ensures events[k] == before[k]
    {
    }
    if PromptedBefore(before, i) {
      var p :| 0 <= p < i && before[p].kind.UserPrompt?;
      assert events[p].kind.UserPrompt?;
    }
  }

  lemma OverwrittenSnoc(figure: Figure, before: seq<Event>, e: Event)
    ensures NothingIsOverwritten(figure, before + [e])
       <==> NothingIsOverwritten(figure, before) && (e.kind.TokenUsage? ==> NothingIsOpen(figure, before))
  {
    hide Overwritten;
    var events, n := before + [e], |before|;
    forall i, j | 0 <= i < j < n
      ensures Overwritten(figure, events, i, j) <==> Overwritten(figure, before, i, j)
    {
      OverwrittenPrefix(figure, before, e, i, j);
    }
    forall i | 0 <= i < n
      ensures Overwritten(figure, events, i, n) <==> e.kind.TokenUsage? && IsOpen(figure, before, i)
    {
      OverwrittenByLast(figure, before, e, i);
    }
  }

  lemma OverwrittenByLast(figure: Figure, before: seq<Event>, e: Event, i: nat)
    requires i < |before|
    ensures Overwritten(figure, before + [e], i, |before|) <==> e.kind.TokenUsage? && IsOpen(figure, before, i)
  {
    var events := before + [e];
    assert forall k | 0 <= k < |before| :: events[k] == before[k];
    PromptedPrefix(before, e, i);
  }

  // What is open is in the last turn.
  lemma OpenIsInLastTurn(figure: Figure, earlier: seq<Event>, turn: seq<Event>)
    requires turn != [] && turn[0].kind.UserPrompt?
    requires forall i | 0 < i < |turn| :: !turn[i].kind.UserPrompt?
    ensures NothingIsOpen(figure, earlier + turn) <==> NoUsageCounts(figure, turn)
  {
    var events, m := earlier + turn, |earlier|;
    assert forall k | 0 <= k < |turn| :: events[m + k] == turn[k];
    assert events[m].kind.UserPrompt?;
    if NothingIsOpen(figure, events) {
      forall i | 0 <= i < |turn| && turn[i].kind.TokenUsage?
        ensures Amount(figure, Figures(turn[i])) == 0
      {
        assert events[m + i].kind.TokenUsage? && PromptedBefore(events, m + i);
        assert forall k | m + i < k < |events| :: events[k] == turn[k - m];
        assert NoPromptBetween(events, m + i, |events|);
        assert !IsOpen(figure, events, m + i);
      }
    }
    if NoUsageCounts(figure, turn) {
      forall i | 0 <= i < |events|
        ensures !IsOpen(figure, events, i)
      {
        if i >= m {
          assert events[i] == turn[i - m];
        }
      }
    }
  }

  lemma NoPromptMeansNothingIsOverwritten(figure: Figure, events: seq<Event>)
    requires FromFirstPrompt(events) == []
    ensures NothingIsOverwritten(figure, events)
  {
    NoFirstPrompt(events);
  }

  lemma {:induction false} NoFirstPrompt(events: seq<Event>)
    requires FromFirstPrompt(events) == []
    ensures forall i | 0 <= i < |events| :: !events[i].kind.UserPrompt?
  {
    if events != [] {
      NoFirstPrompt(events[1..]);
    }
  }

  ghost predicate EveryTurnCountsLast(figure: Figure, turns: seq<Turn>) {
    forall t | t in turns :: OnlyLastUsageCounts(figure, t.events)
  }

  lemma EveryTurnSnoc(figure: Figure, turns: seq<Turn>, t: Turn)
    ensures EveryTurnCountsLast(figure, turns + [t]) <==>
              EveryTurnCountsLast(figure, turns) && OnlyLastUsageCounts(figure, t.events)
  {
    hide OnlyLastUsageCounts;
    assert forall u :: u in turns + [t] <==> u in turns || u == t;
  }

  lemma NoUsageCountsIsLess(figure: Figure, events: seq<Event>)
    ensures NoUsageCounts(figure, events) ==> OnlyLastUsageCounts(figure, events)
  {
  }

  // One event more in the current turn.
  lemma ExtendedTurns(figure: Figure, events: seq<Event>, e: Event)
    requires Scan(events).current.Some? && !e.kind.UserPrompt?
    requires EveryTurnCountsLast(figure, AllTurns(Scan(events))) <==> NothingIsOverwritten(figure, events)
    ensures EveryTurnCountsLast(figure, AllTurns(Extended(Scan(events), e)))
       <==> NothingIsOverwritten(figure, events + [e])
  {
    hide OnlyLastUsageCounts, NoUsageCounts, NothingIsOverwritten, NothingIsOpen, EveryTurnCountsLast, Sum, Flatten,
         FromFirstPrompt, IsNumbered, Scan;
    var v := Scan(events);
    TurnsPartitionTheSession(events);
    ViewParts(v, events);
    SplitAtFirstPrompt(events);
    var t, grown := v.current.value, Extended(v, e).current.value;
    TurnGrows(t, e, grown, v);
    assert AllTurns(Extended(v, e)) == v.turns + [grown];
    EveryTurnSnoc(figure, v.turns, t);
    EveryTurnSnoc(figure, v.turns, grown);
    OnlyLastSnoc(figure, t.events, e);
    NoUsageCountsIsLess(figure, t.events);
    OverwrittenSnoc(figure, events, e);
    var earlier := BeforeFirstPrompt(events) + Flatten(v.turns);
    assert events == earlier + t.events;
    OpenIsInLastTurn(figure, earlier, t.events);
  }

  lemma {:induction false} TurnsAgainstEvents(figure: Figure, events: seq<Event>)
    ensures EveryTurnCountsLast(figure, AllTurns(Scan(events))) <==> NothingIsOverwritten(figure, events)
    decreases |events|
  {
    if events != [] {
      hide NothingIsOverwritten, EveryTurnCountsLast, OnlyLastUsageCounts, NothingIsOpen;
      var n := |events| - 1;
      var before, e := events[..n], events[n];
      assert events == before + [e];
      TurnsAgainstEvents(figure, before);
      OverwrittenSnoc(figure, before, e);
      var v := Scan(before);
      if e.kind.UserPrompt? {
        assert AllTurns(Opened(v, e)) == AllTurns(v) + [Opened(v, e).current.value];
        EveryTurnSnoc(figure, AllTurns(v), Opened(v, e).current.value);
        SingleEvent(figure, e);
      } else if v.current.Some? {
        ExtendedTurns(figure, before, e);
      } else {
        NoTurnYet(figure, before, e);
      }
    }
  }

  lemma SingleEvent(figure: Figure, e: Event)
    ensures OnlyLastUsageCounts(figure, [e])
  {
  }

  lemma NoTurnYet(figure: Figure, before: seq<Event>, e: Event)
    requires Scan(before).current.None? && !e.kind.UserPrompt?
    ensures NothingIsOverwritten(figure, before) && NothingIsOverwritten(figure, before + [e])
  {
    hide NothingIsOverwritten, Scan;
    TurnsPartitionTheSession(before);
    NoTurnMeansNoPrompt(Scan(before), before);
    FromFirstPromptSnoc(before, e);
    NoPromptMeansNothingIsOverwritten(figure, before);
    NoPromptMeansNothingIsOverwritten(figure, before + [e]);
  }

  lemma NoTurnMeansNoPrompt(v: View, events: seq<Event>)
    requires IsView(v, events) && v.current.None?
    ensures FromFirstPrompt(events) == []
  {
  }

  // Main result: the deltas of the turns add up to the view's total exactly when no usage after the
  // first prompt that carries the figure is followed by another before the next prompt.
  lemma DeltasAddUpIff(figure: Figure, events: seq<Event>)
    ensures var v := Scan(events);
            SumOfDeltas(figure, AllTurns(v)) == Amount(figure, Totals(v.cumulativeInput, v.cumulativeOutput, 0))
            <==> NothingIsOverwritten(figure, events)
  {
    hide OnlyLastUsageCounts, Scan, SumOfDeltas, Sum, NothingIsOverwritten;
    TurnsPartitionTheSession(events);
    DeltasAgainstSum(figure, AllTurns(Scan(events)));
    TurnsAgainstEvents(figure, events);
  }

  // They do not in general: each usage overwrites the turn's earlier one.
  lemma DeltasMissUsages(session: string, a: nat, b: nat)
    ensures var prompt := Event(session, "", UserPrompt(Some("")));
            var events := [prompt, Event(session, "", TokenUsage(a, 0)), Event(session, "", TokenUsage(b, 0))];
            var v := Scan(events);
            && |AllTurns(v)| == 1
            && AllTurns(v)[0].deltaInput == b && v.cumulativeInput == a + b
  {
    var prompt := Event(session, "", UserPrompt(Some("")));
    var e1, e2 := Event(session, "", TokenUsage(a, 0)), Event(session, "", TokenUsage(b, 0));
    assert [prompt, e1, e2][..2] == [prompt, e1];
    assert [prompt, e1][..1] == [prompt];
    assert [prompt][..0] == [];
    assert Scan([]).turnCount == 0;
    assert Scan([prompt]).cumulativeInput == 0;
    assert Scan([prompt, e1]).cumulativeInput == a;
  }
}
