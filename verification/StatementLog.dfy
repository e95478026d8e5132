/** The session tables told from the database statements that the threads issued: which events are
    listed, which are turned away, and what each row's counters are. */
module StatementLog {
  import opened Wrappers
  import opened Sessions

  // One statement and whether it took effect.
  datatype Statement =
    | MakeRow(session: string, done: bool)
    | Insertion(event: Event, done: bool)
    | Update(event: Event, done: bool)

  // What a step sends to the database.
  function Sent(s: State, step: Step): seq<Statement>
    requires Enabled(s, step)
  {
    if step.Begin? || step.Abandon? then []
    else
      match s.workers[step.worker]
      case Ensuring(r) => if r.session == "" then [] else [MakeRow(r.session, step.Proceed?)]
      case Working(r, n) =>
        var e := Event(r.session, r.timestamp, r.ops[n].kind);
        [if r.ops[n].StoreOp? then Insertion(e, step.Proceed?) else Update(e, step.Proceed?)]
      case _ => []
  }

  function Log(s: State, digest: Event -> string, steps: seq<Step>): seq<Statement>
    decreases |steps|
  {
    if steps == [] || !Enabled(s, steps[0]) then []
    else Sent(s, steps[0]) + Log(Next(s, digest, steps[0]), digest, steps[1..])
  }

  // ---------- Events ----------

  predicate IsEffective(x: Statement) {
    x.Insertion? && x.done
  }

  // The first effective insertion of its digest.
  predicate IsFirst(digest: Event -> string, log: seq<Statement>, k: nat)
    requires k < |log|
  {
    IsEffective(log[k]) && forall j | 0 <= j < k && IsEffective(log[j]) :: digest(log[j].event) != digest(log[k].event)
  }

  predicate IsTurnedAway(digest: Event -> string, log: seq<Statement>, k: nat)
    requires k < |log|
  {
    log[k].Insertion? && !IsFirst(digest, log, k)
  }

  predicate Increasing(positions: seq<nat>, n: nat) {
    && (forall i | 0 <= i < |positions| :: positions[i] < n)
    && (forall i, j | 0 <= i < j < |positions| :: positions[i] < positions[j])
  }

  // The events are those of the insertions at these positions, in this order.
  predicate AreEventsAt(events: seq<Event>, log: seq<Statement>, positions: seq<nat>) {
    && |events| == |positions|
    && forall i | 0 <= i < |events| ::
         positions[i] < |log| && log[positions[i]].Insertion? && events[i] == log[positions[i]].event
  }

  ghost predicate ListsTheFirst(digest: Event -> string, log: seq<Statement>, events: seq<Event>, kept: seq<nat>) {
    && Increasing(kept, |log|) && AreEventsAt(events, log, kept)
    && forall k | 0 <= k < |log| :: k in kept <==> IsFirst(digest, log, k)
  }

  ghost predicate ListsTheOthers(digest: Event -> string, log: seq<Statement>, events: seq<Event>, away: seq<nat>) {
    && Increasing(away, |log|) && AreEventsAt(events, log, away)
    && forall k | 0 <= k < |log| :: k in away <==> IsTurnedAway(digest, log, k)
  }

  ghost predicate KnowsTheDigests(digest: Event -> string, log: seq<Statement>, hashes: set<string>) {
    forall h :: h in hashes <==> exists k :: 0 <= k < |log| && IsEffective(log[k]) && digest(log[k].event) == h
  }

  lemma PrefixDecides(digest: Event -> string, log: seq<Statement>, x: Statement, k: nat)
    requires k < |log|
    ensures IsFirst(digest, log + [x], k) <==> IsFirst(digest, log, k)
    ensures IsTurnedAway(digest, log + [x], k) <==> IsTurnedAway(digest, log, k)
  {
    assert forall j | 0 <= j <= k :: (log + [x])[j] == log[j];
  }

  lemma LastIsFirstIff(digest: Event -> string, log: seq<Statement>, hashes: set<string>, x: Statement)
    requires KnowsTheDigests(digest, log, hashes)
    ensures IsFirst(digest, log + [x], |log|) <==> IsEffective(x) && digest(x.event) !in hashes
  {
    var more := log + [x];
    assert forall j | 0 <= j < |log| :: more[j] == log[j];
    if IsEffective(x) && digest(x.event) in hashes {
      var k :| 0 <= k < |log| && IsEffective(log[k]) && digest(log[k].event) == digest(x.event);
      assert more[k] == log[k];
    }
  }

  lemma DigestsGrow(digest: Event -> string, log: seq<Statement>, hashes: set<string>, x: Statement)
    requires KnowsTheDigests(digest, log, hashes)
    ensures KnowsTheDigests(digest, log + [x], if IsEffective(x) then hashes + {digest(x.event)} else hashes)
  {
    var more := log + [x];
    var now := if IsEffective(x) then hashes + {digest(x.event)} else hashes;
    assert more[|log|] == x;
    forall h
      ensures h in now <==> exists k :: 0 <= k < |more| && IsEffective(more[k]) && digest(more[k].event) == h
    {
      if h in hashes {
        var k :| 0 <= k < |log| && IsEffective(log[k]) && digest(log[k].event) == h;
        assert more[k] == log[k];
      }
      if k :| 0 <= k < |more| && IsEffective(more[k]) && digest(more[k].event) == h {
        assert k < |log| ==> log[k] == more[k];
      }
    }
  }

  function With(positions: seq<nat>, n: nat, chosen: bool): seq<nat> {
    if chosen then positions + [n] else positions
  }

  lemma PositionsGrow(log: seq<Statement>, events: seq<Event>, positions: seq<nat>, x: Statement, chosen: bool)
    requires Increasing(positions, |log|) && AreEventsAt(events, log, positions) && (chosen ==> x.Insertion?)
    ensures Increasing(With(positions, |log|, chosen), |log| + 1)
    ensures AreEventsAt(if chosen then events + [x.event] else events, log + [x], With(positions, |log|, chosen))
    ensures |log| !in positions
    ensures forall k :: k in With(positions, |log|, chosen) <==> k in positions || (chosen && k == |log|)
  {
    if chosen {
      OneMorePosition(positions, |log|);
      OneMoreEvent(log, events, positions, x);
    } else {
      SamePositions(log, events, positions, x);
    }
  }

  lemma OneMorePosition(positions: seq<nat>, n: nat)
    requires Increasing(positions, n)
    ensures Increasing(positions + [n], n + 1) && n !in positions
  {
    var more := positions + [n];
    assert more[|positions|] == n;
    assert forall i | 0 <= i < |positions| :: more[i] == positions[i];
  }

  lemma OneMoreEvent(log: seq<Statement>, events: seq<Event>, positions: seq<nat>, x: Statement)
    requires AreEventsAt(events, log, positions) && x.Insertion?
    ensures AreEventsAt(events + [x.event], log + [x], positions + [|log|])
  {
    var more, later, longer := events + [x.event], positions + [|log|], log + [x];
    assert longer[|log|] == x && later[|events|] == |log| && more[|events|] == x.event;
    forall i | 0 <= i < |events|
      ensures later[i] < |longer| && longer[later[i]].Insertion? && more[i] == longer[later[i]].event
    {
      assert longer[positions[i]] == log[positions[i]];
    }
  }

  lemma SamePositions(log: seq<Statement>, events: seq<Event>, positions: seq<nat>, x: Statement)
    requires Increasing(positions, |log|) && AreEventsAt(events, log, positions)
    ensures Increasing(positions, |log| + 1) && AreEventsAt(events, log + [x], positions) && |log| !in positions
  {
    forall i | 0 <= i < |events|
      ensures (log + [x])[positions[i]] == log[positions[i]]
    {
    }
  }

  lemma FirstGrow(digest: Event -> string, log: seq<Statement>, events: seq<Event>, kept: seq<nat>, x: Statement)
    requires ListsTheFirst(digest, log, events, kept)
    ensures var chosen := IsFirst(digest, log + [x], |log|);
            && (chosen ==> x.Insertion?)
            && ListsTheFirst(digest, log + [x], if chosen then events + [x.event] else events,
                             With(kept, |log|, chosen))
  {
    var chosen := IsFirst(digest, log + [x], |log|);
    hide IsFirst, With, Increasing, AreEventsAt;
    assert chosen ==> x.Insertion? by {
      if chosen {
        UnfoldFirst(digest, log + [x], |log|);
      }
    }
    PositionsGrow(log, events, kept, x, chosen);
    forall k | 0 <= k < |log| ensures IsFirst(digest, log + [x], k) <==> IsFirst(digest, log, k) {
      PrefixDecides(digest, log, x, k);
    }
  }

  lemma UnfoldFirst(digest: Event -> string, log: seq<Statement>, k: nat)
    requires k < |log| && IsFirst(digest, log, k)
    ensures IsEffective(log[k])
  {
  }

  lemma OthersGrow(digest: Event -> string, log: seq<Statement>, events: seq<Event>, away: seq<nat>, x: Statement)
    requires ListsTheOthers(digest, log, events, away)
    ensures var chosen := IsTurnedAway(digest, log + [x], |log|);
            && (chosen ==> x.Insertion?)
            && ListsTheOthers(digest, log + [x], if chosen then events + [x.event] else events,
                              With(away, |log|, chosen))
  {
    var chosen := IsTurnedAway(digest, log + [x], |log|);
    assert chosen ==> x.Insertion?;
    hide IsTurnedAway, With, Increasing, AreEventsAt;
    PositionsGrow(log, events, away, x, chosen);
    forall k | 0 <= k < |log| ensures IsTurnedAway(digest, log + [x], k) <==> IsTurnedAway(digest, log, k) {
      PrefixDecides(digest, log, x, k);
    }
  }

  // ---------- Counters ----------

  function InputOf(k: Kind): nat {
    if k.TokenUsage? then k.input else 0
  }

  function OutputOf(k: Kind): nat {
    if k.TokenUsage? then k.output else 0
  }

  function TurnOf(k: Kind): nat {
    if k.UserPrompt? then 1 else 0
  }

  // The sum of a figure over the effective updates of a session after its row was made.
  function Charged(log: seq<Statement>, session: string, figure: Kind -> nat): nat {
    if log == [] then 0
    else
      var before, x := log[..|log| - 1], log[|log| - 1];
      Charged(before, session, figure) +
      if x.Update? && x.done && x.event.session == session && MakeRow(session, true) in before
      then figure(x.event.kind) else 0
  }

  ghost predicate CountsTheUpdates(log: seq<Statement>, totals: map<string, Totals>) {
    forall session ::
      && (session in totals <==> MakeRow(session, true) in log)
      && (session in totals ==>
            && totals[session].input == Charged(log, session, InputOf)
            && totals[session].output == Charged(log, session, OutputOf)
            && totals[session].turns == Charged(log, session, TurnOf))
  }

  lemma ChargedSnoc(log: seq<Statement>, x: Statement, session: string, figure: Kind -> nat)
    ensures Charged(log + [x], session, figure) == Charged(log, session, figure) +
              if x.Update? && x.done && x.event.session == session && MakeRow(session, true) in log
              then figure(x.event.kind) else 0
  {
    assert (log + [x])[..|log|] == log;
  }

  lemma {:induction false} NothingChargedYet(log: seq<Statement>, session: string, figure: Kind -> nat)
    requires MakeRow(session, true) !in log
    ensures Charged(log, session, figure) == 0
  {
    if log != [] {
      NothingChargedYet(log[..|log| - 1], session, figure);
    }
  }

  // What one statement does to the counters.
  predicate Counts(totals: map<string, Totals>, x: Statement, now: map<string, Totals>) {
    match x
    case MakeRow(session, done) =>
      now == if done && session !in totals then totals[session := Totals(0, 0, 0)] else totals
    case Insertion(_, _) => now == totals
    case Update(e, done) =>
      if done && e.session in totals then
        && now.Keys == totals.Keys
        && (forall other | other in totals && other != e.session :: now[other] == totals[other])
        && var (row, was) := (now[e.session], totals[e.session]);
           && row.input == was.input + InputOf(e.kind) && row.output == was.output + OutputOf(e.kind)
           && row.turns == was.turns + TurnOf(e.kind)
      else now == totals
  }

  lemma UpdatesGrow(log: seq<Statement>, totals: map<string, Totals>, x: Statement, now: map<string, Totals>)
    requires CountsTheUpdates(log, totals) && Counts(totals, x, now)
    ensures CountsTheUpdates(log + [x], now)
  {
    forall session
      ensures session in now <==> MakeRow(session, true) in log + [x]
      ensures session in now ==>
                && now[session].input == Charged(log + [x], session, InputOf)
                && now[session].output == Charged(log + [x], session, OutputOf)
                && now[session].turns == Charged(log + [x], session, TurnOf)
    {
      ChargedSnoc(log, x, session, InputOf);
      ChargedSnoc(log, x, session, OutputOf);
      ChargedSnoc(log, x, session, TurnOf);
      if session !in totals {
        NothingChargedYet(log, session, InputOf);
        NothingChargedYet(log, session, OutputOf);
        NothingChargedYet(log, session, TurnOf);
      }
    }
  }

  // ---------- Runs ----------

  // The tables are what the log tells.
  ghost predicate Tells(digest: Event -> string, log: seq<Statement>, s: Store, kept: seq<nat>, away: seq<nat>) {
    && ListsTheFirst(digest, log, s.events, kept)
    && ListsTheOthers(digest, log, s.ignored, away)
    && KnowsTheDigests(digest, log, s.hashes)
    && CountsTheUpdates(log, s.totals)
  }

  predicate SameTables(s: Store, t: Store) {
    t.events == s.events && t.ignored == s.ignored && t.hashes == s.hashes && t.totals == s.totals
  }

  // What one statement does to the tables.
  predicate HasEffect(digest: Event -> string, s: Store, x: Statement, t: Store) {
    && Counts(s.totals, x, t.totals)
    && (x.Insertion? ==>
          var listed := x.done && digest(x.event) !in s.hashes;
          && t.events == (if listed then s.events + [x.event] else s.events)
          && t.ignored == if listed then s.ignored else s.ignored + [x.event])
    && (!x.Insertion? ==> t.events == s.events && t.ignored == s.ignored)
    && t.hashes == if IsEffective(x) then s.hashes + {digest(x.event)} else s.hashes
  }

  lemma PerformedHasEffect(s: Store, digest: Event -> string, r: Record, n: nat)
    requires n < |r.ops|
    ensures var e := Event(r.session, r.timestamp, r.ops[n].kind);
            HasEffect(digest, s, if r.ops[n].StoreOp? then Insertion(e, true) else Update(e, true),
                      Performed(s, digest, r, n))
  {
    var e := EventAt(r, n);
    assert Figures(e) == Totals(InputOf(e.kind), OutputOf(e.kind), TurnOf(e.kind));
  }

  lemma GoneOnSameTables(s: Store, r: Record, n: nat)
    requires n < |r.ops|
    ensures SameTables(s, GoneOn(s, r, n).0)
  {
  }

  lemma SameTablesEffect(digest: Event -> string, s: Store, x: Statement, t: Store, u: Store)
    requires HasEffect(digest, s, x, t) && SameTables(t, u)
    ensures HasEffect(digest, s, x, u)
  {
  }

  lemma SentHasEffect(s: State, digest: Event -> string, step: Step)
    requires Enabled(s, step)
    ensures Sent(s, step) == [] ==> SameTables(s.store, Next(s, digest, step).store)
    ensures |Sent(s, step)| <= 1
    ensures Sent(s, step) != [] ==> HasEffect(digest, s.store, Sent(s, step)[0], Next(s, digest, step).store)
  {
    hide Performed, GoneOn, OwedAt;
    var w := s.workers[step.worker];
    if w.Working? && !step.Abandon? {
      PerformedHasEffect(s.store, digest, w.r, w.n);
      var after := if step.Proceed? then Performed(s.store, digest, w.r, w.n)
                   else if w.r.ops[w.n].StoreOp? then s.store.(ignored := s.store.ignored + [EventAt(w.r, w.n)])
                   else s.store.(lost := s.store.lost + [Loss(w.r.session, Figures(EventAt(w.r, w.n)))]);
      GoneOnSameTables(after, w.r, w.n);
      SameTablesEffect(digest, s.store, Sent(s, step)[0], after, Next(s, digest, step).store);
    }
  }

  lemma SameTablesTell(digest: Event -> string, log: seq<Statement>, s: Store, kept: seq<nat>, away: seq<nat>, t: Store)
    requires Tells(digest, log, s, kept, away) && SameTables(s, t)
    ensures Tells(digest, log, t, kept, away)
  {
  }

  lemma StatementTells(
      digest: Event -> string, log: seq<Statement>, s: Store, kept: seq<nat>, away: seq<nat>, x: Statement, t: Store)
      returns (keptThen: seq<nat>, awayThen: seq<nat>)
    requires Tells(digest, log, s, kept, away) && HasEffect(digest, s, x, t)
    ensures Tells(digest, log + [x], t, keptThen, awayThen)
  {
    hide ListsTheFirst, ListsTheOthers, KnowsTheDigests, CountsTheUpdates, Counts, IsFirst, Increasing;
    LastIsFirstIff(digest, log, s.hashes, x);
    DigestsGrow(digest, log, s.hashes, x);
    UpdatesGrow(log, s.totals, x, t.totals);
    FirstGrow(digest, log, s.events, kept, x);
    OthersGrow(digest, log, s.ignored, away, x);
    keptThen := With(kept, |log|, IsFirst(digest, log + [x], |log|));
    awayThen := With(away, |log|, IsTurnedAway(digest, log + [x], |log|));
  }

  lemma {:induction false} RunTells(
      s: State, digest: Event -> string, steps: seq<Step>, t: State,
      log: seq<Statement>, kept: seq<nat>, away: seq<nat>)
      returns (keptThen: seq<nat>, awayThen: seq<nat>)
    requires Run(s, digest, steps, t) && Tells(digest, log, s.store, kept, away)
    ensures Tells(digest, log + Log(s, digest, steps), t.store, keptThen, awayThen)
    decreases |steps|
  {
    hide Tells, HasEffect, SameTables, Next, Sent, Enabled;
    if steps == [] {
      keptThen, awayThen := kept, away;
      assert log + [] == log;
    } else {
      var next, sent := Next(s, digest, steps[0]), Sent(s, steps[0]);
      SentHasEffect(s, digest, steps[0]);
      assert log + (sent + Log(next, digest, steps[1..])) == (log + sent) + Log(next, digest, steps[1..]);
      if sent == [] {
        SameTablesTell(digest, log, s.store, kept, away, next.store);
        assert log + sent == log;
        keptThen, awayThen := RunTells(next, digest, steps[1..], t, log, kept, away);
      } else {
        assert sent == [sent[0]];
        var k, a := StatementTells(digest, log, s.store, kept, away, sent[0], next.store);
        keptThen, awayThen := RunTells(next, digest, steps[1..], t, log + sent, k, a);
      }
    }
  }

  // Main result: in every run the listed events are those of the first effective insertion of each
  // digest, in order; the events turned away are those of all other insertions; and a session has a row
  // once one was made for it, whose counters are the sums over the effective updates since.
  lemma TablesAreTheLog(s: State, digest: Event -> string, steps: seq<Step>, t: State)
      returns (kept: seq<nat>, away: seq<nat>)
    requires Initial(s) && Run(s, digest, steps, t)
    ensures ListsTheFirst(digest, Log(s, digest, steps), t.store.events, kept)
    ensures ListsTheOthers(digest, Log(s, digest, steps), t.store.ignored, away)
    ensures CountsTheUpdates(Log(s, digest, steps), t.store.totals)
  {
    assert Tells(digest, [], s.store, [], []);
    kept, away := RunTells(s, digest, steps, t, [], [], []);
    assert [] + Log(s, digest, steps) == Log(s, digest, steps);
  }

  // So digests are distinct, and every effective insertion has its digest listed.
  lemma EveryDigestIsListedOnce(s: State, digest: Event -> string, steps: seq<Step>, t: State)
    requires Initial(s) && Run(s, digest, steps, t)
    ensures var events := t.store.events;
            && (forall i, j | 0 <= i < j < |events| :: digest(events[i]) != digest(events[j]))
            && forall e | Insertion(e, true) in Log(s, digest, steps) ::
                 exists i :: 0 <= i < |events| && digest(events[i]) == digest(e)
  {
    hide Run;
    var log, events := Log(s, digest, steps), t.store.events;
    var kept, away := TablesAreTheLog(s, digest, steps, t);
    forall i, j | 0 <= i < j < |events| ensures digest(events[i]) != digest(events[j]) {
      assert kept[i] in kept && kept[j] in kept;
      assert kept[i] < kept[j];
      UnfoldFirst(digest, log, kept[i]);
      assert IsFirst(digest, log, kept[j]);
    }
    forall e | Insertion(e, true) in log ensures exists i :: 0 <= i < |events| && digest(events[i]) == digest(e) {
      var k :| 0 <= k < |log| && log[k] == Insertion(e, true);
      var first := FirstOf(digest, log, k);
      assert first in kept;
      var i :| 0 <= i < |kept| && kept[i] == first;
      assert digest(events[i]) == digest(e);
    }
  }

  lemma {:induction false} FirstOf(digest: Event -> string, log: seq<Statement>, k: nat) returns (first: nat)
    requires k < |log| && IsEffective(log[k])
    ensures first < |log| && IsFirst(digest, log, first) && digest(log[first].event) == digest(log[k].event)
    decreases k
  {
    if IsFirst(digest, log, k) {
      first := k;
    } else {
      var j :| 0 <= j < k && IsEffective(log[j]) && digest(log[j].event) == digest(log[k].event);
      first := FirstOf(digest, log, j);
    }
  }

  // ---------- One record ----------

  function StatementOf(r: Record, n: nat): Statement
    requires n < |r.ops|
  {
    var e := Event(r.session, r.timestamp, r.ops[n].kind);
    if r.ops[n].StoreOp? then Insertion(e, true) else Update(e, true)
  }

  // The live feed's summary takes no text for granted that is missing.
  predicate HasItsText(k: Kind) {
    !(k.UserPrompt? && k.text.None?) && !(k.ToolUse? && k.preview.None?) && !(k.OtherEvent? && k.text.None?)
  }

  // A record's inserts and updates, when nothing fails: all of them, or as many as come before the
  // first summary that cannot be made, and the insert of that.
  ghost predicate AreIssued(r: Record, issued: seq<Statement>) {
    && |issued| <= |r.ops|
    && (forall k | 0 <= k < |issued| :: issued[k] == StatementOf(r, k))
    && (forall k | 0 <= k < |issued| - 1 :: r.ops[k].StoreOp? ==> HasItsText(r.ops[k].kind))
    && (|issued| < |r.ops| ==> issued != [] && r.ops[|issued| - 1].StoreOp? && !HasItsText(r.ops[|issued| - 1].kind))
  }

  lemma {:induction false} WorkTells(
      s: Store, digest: Event -> string, r: Record, n: nat, log: seq<Statement>, kept: seq<nat>, away: seq<nat>,
      done: seq<Statement>)
      returns (issued: seq<Statement>, keptThen: seq<nat>, awayThen: seq<nat>)
    requires n <= |r.ops| && |done| == n
    requires forall k | 0 <= k < n :: done[k] == StatementOf(r, k) && !Stops(r.ops[k])
    requires Tells(digest, log + done, s, kept, away)
    ensures AreIssued(r, issued) && Tells(digest, log + issued, Work(s, digest, r, n), keptThen, awayThen)
    decreases |r.ops| - n
  {
    hide Tells, HasEffect, SameTables, Performed, OwedAt;
    if n == |r.ops| {
      issued, keptThen, awayThen := done, kept, away;
    } else {
      var t, x := Performed(s, digest, r, n), StatementOf(r, n);
      PerformedHasEffect(s, digest, r, n);
      var k, a := StatementTells(digest, log + done, s, kept, away, x, t);
      assert (log + done) + [x] == log + (done + [x]);
      if Stops(r.ops[n]) {
        issued, keptThen, awayThen := done + [x], k, a;
        GivenUpSameTables(t, r, n + 1);
        SameTablesTell(digest, log + issued, t, k, a, GivenUp(t, r, n + 1));
      } else {
        issued, keptThen, awayThen := WorkTells(t, digest, r, n + 1, log, k, a, done + [x]);
      }
    }
  }

  lemma GivenUpSameTables(s: Store, r: Record, n: nat)
    requires n <= |r.ops|
    ensures SameTables(s, GivenUp(s, r, n))
  {
  }

  // Processing a record that was not seen makes its session row and issues its inserts and updates.
  lemma RecordIsWorkedThrough(
      s: Store, digest: Event -> string, r: Record, log: seq<Statement>, kept: seq<nat>, away: seq<nat>)
      returns (issued: seq<Statement>, keptThen: seq<nat>, awayThen: seq<nat>)
    requires Tells(digest, log, s, kept, away) && r.session != "" && (r.uuid == "" || r.uuid !in s.seen)
    ensures AreIssued(r, issued)
    ensures Tells(digest, log + [MakeRow(r.session, true)] + issued, Process(s, digest, r), keptThen, awayThen)
    ensures Process(s, digest, r).seen == if r.uuid == "" then s.seen else s.seen + {r.uuid}
  {
    hide Tells, Work;
    var noted := if r.uuid != "" then s.(seen := s.seen + {r.uuid}) else s;
    var ensured := Ensured(noted, r.session);
    assert HasEffect(digest, s, MakeRow(r.session, true), ensured);
    var k, a := StatementTells(digest, log, s, kept, away, MakeRow(r.session, true), ensured);
    assert (log + [MakeRow(r.session, true)]) + [] == log + [MakeRow(r.session, true)];
    issued, keptThen, awayThen := WorkTells(ensured, digest, r, 0, log + [MakeRow(r.session, true)], k, a, []);
    SeenStays(ensured, digest, r, 0);
  }

  // A record whose uuid was seen, or that names no session, leaves the tables alone.
  lemma SkippedRecord(s: Store, digest: Event -> string, r: Record)
    requires (r.uuid != "" && r.uuid in s.seen) || r.session == ""
    ensures SameTables(s, Process(s, digest, r))
  {
  }

  // ---------- One thread among others ----------

  // What worker i sends in a run.
  function SentBy(s: State, digest: Event -> string, steps: seq<Step>, i: nat): seq<Statement>
    decreases |steps|
  {
    if steps == [] || !Enabled(s, steps[0]) then []
    else
      (if steps[0].worker == i then Sent(s, steps[0]) else [])
      + SentBy(Next(s, digest, steps[0]), digest, steps[1..], i)
  }

  // The statements a record calls for.
  function Planned(r: Record, k: nat): Statement
    requires k <= |r.ops|
  {
    if k == 0 then MakeRow(r.session, true) else StatementOf(r, k - 1)
  }

  // The same statement, whether or not it took effect.
  predicate IsTry(x: Statement, planned: Statement) {
    x == planned || x == planned.(done := false)
  }

  predicate Follows(r: Record, sent: seq<Statement>) {
    && |sent| <= |r.ops| + 1
    && (forall k | 0 <= k < |sent| :: IsTry(sent[k], Planned(r, k)))
    && forall k | 0 <= k < |sent| - 2 :: r.ops[k].StoreOp? ==> HasItsText(r.ops[k].kind)
  }

  // Nothing is left to send: all was sent, or the last insert's summary raised.
  predicate IsDone(r: Record, sent: seq<Statement>) {
    && sent != []
    && (|sent| <= |r.ops| ==> |sent| >= 2 && r.ops[|sent| - 2].StoreOp? && !HasItsText(r.ops[|sent| - 2].kind))
  }

  // Where a worker stands after it has sent this for record r.
  predicate StandsAt(w: Worker, r: Record, sent: seq<Statement>) {
    match w
    case Idle => (r.session == "" && sent == []) || (Follows(r, sent) && IsDone(r, sent))
    case Noting(q) => q == r && sent == []
    case Ensuring(q) => q == r && sent == []
    case Working(q, n) =>
      && q == r && |sent| == n + 1 && n < |r.ops| && Follows(r, sent) && r.session != ""
      && (n > 0 && r.ops[n - 1].StoreOp? ==> HasItsText(r.ops[n - 1].kind))
  }

  lemma FollowsMore(r: Record, sent: seq<Statement>, x: Statement)
    requires Follows(r, sent) && |sent| <= |r.ops| && IsTry(x, Planned(r, |sent|))
    requires |sent| >= 2 && r.ops[|sent| - 2].StoreOp? ==> HasItsText(r.ops[|sent| - 2].kind)
    ensures Follows(r, sent + [x])
  {
  }

  lemma StandsOn(s: State, digest: Event -> string, step: Step, i: nat, r: Record, sent: seq<Statement>)
    requires Enabled(s, step) && i < |s.workers| && StandsAt(s.workers[i], r, sent)
    requires step.worker == i ==> !step.Begin? && !step.Abandon?
    ensures i < |Next(s, digest, step).workers|
    ensures StandsAt(Next(s, digest, step).workers[i], r, sent + if step.worker == i then Sent(s, step) else [])
  {
    hide Follows, IsDone, IsTry;
    assert sent + [] == sent;
    if step.worker == i {
      assert s.workers[i].Working? || s.workers[i].Ensuring? || s.workers[i].Noting?;
      match s.workers[i]
      case Working(q, n) => OneMoreOp(s, digest, step, i, r, sent);
      case Ensuring(q) => RowComesFirst(s, digest, step, i, r);
      case _ =>
    }
  }

  lemma RowComesFirst(s: State, digest: Event -> string, step: Step, i: nat, r: Record)
    requires Enabled(s, step) && i < |s.workers| && s.workers[i] == Ensuring(r)
    requires step.worker == i && !step.Begin? && !step.Abandon?
    ensures StandsAt(Next(s, digest, step).workers[i], r, [] + Sent(s, step))
  {
    hide HasItsText;
  }

  // What worker i does next with op n.
  lemma OpStep(s: State, digest: Event -> string, step: Step, i: nat, r: Record, n: nat)
    requires Enabled(s, step) && i < |s.workers| && s.workers[i] == Working(r, n)
    requires step.worker == i && !step.Begin? && !step.Abandon?
    ensures n < |r.ops| && |Sent(s, step)| == 1 && IsTry(Sent(s, step)[0], StatementOf(r, n))
    ensures i < |Next(s, digest, step).workers|
    ensures Next(s, digest, step).workers[i]
         == if r.ops[n].StoreOp? && !HasItsText(r.ops[n].kind) then Idle
            else if n + 1 < |r.ops| then Working(r, n + 1) else Idle
  {
    hide Performed, OwedAt, IsWhole, GivenUp;
  }

  lemma OneMoreOp(s: State, digest: Event -> string, step: Step, i: nat, r: Record, sent: seq<Statement>)
    requires Enabled(s, step) && i < |s.workers| && s.workers[i].Working? && StandsAt(s.workers[i], r, sent)
    requires step.worker == i && !step.Begin? && !step.Abandon?
    ensures StandsAt(Next(s, digest, step).workers[i], r, sent + Sent(s, step))
  {
    hide Follows, Next, Sent, Enabled, IsTry, HasItsText;
    var n := s.workers[i].n;
    OpStep(s, digest, step, i, r, n);
    var x := Sent(s, step)[0];
    assert Sent(s, step) == [x];
    FollowsMore(r, sent, x);
  }

  lemma {:induction false} StandsThrough(
      s: State, digest: Event -> string, steps: seq<Step>, t: State, i: nat, r: Record, sent: seq<Statement>)
    requires Run(s, digest, steps, t) && i < |s.workers| && StandsAt(s.workers[i], r, sent)
    requires forall step | step in steps && step.worker == i :: !step.Begin? && !step.Abandon?
    ensures i < |t.workers| && StandsAt(t.workers[i], r, sent + SentBy(s, digest, steps, i))
    decreases |steps|
  {
    hide StandsAt, Sent, Enabled;
    if steps == [] {
      assert sent + [] == sent;
    } else {
      assert steps[0] in steps;
      var now := if steps[0].worker == i then Sent(s, steps[0]) else [];
      StandsOn(s, digest, steps[0], i, r, sent);
      StandsThrough(Next(s, digest, steps[0]), digest, steps[1..], t, i, r, sent + now);
      assert sent + (now + SentBy(Next(s, digest, steps[0]), digest, steps[1..], i))
          == (sent + now) + SentBy(Next(s, digest, steps[0]), digest, steps[1..], i);
    }
  }

  // Main result: whatever other threads do and whichever statements fail, a thread that has begun a
  // record not seen sends its row and its inserts and updates in order, each once; and unless it is cut
  // short it stops only when all are sent or a summary raises.
  lemma ThreadFollowsItsRecord(
      s: State, digest: Event -> string, r: Record, i: nat, steps: seq<Step>, t: State)
    requires Enabled(s, Begin(i, r)) && (r.uuid == "" || r.uuid !in s.store.seen) && r.session != ""
    requires Run(Next(s, digest, Begin(i, r)), digest, steps, t)
    requires forall step | step in steps && step.worker == i :: !step.Begin? && !step.Abandon?
    ensures i < |t.workers|
    ensures var sent := SentBy(Next(s, digest, Begin(i, r)), digest, steps, i);
            Follows(r, sent) && (t.workers[i].Idle? ==> IsDone(r, sent))
  {
    hide IsDone;
    var begun := Next(s, digest, Begin(i, r));
    StandsThrough(begun, digest, steps, t, i, r, []);
    assert [] + SentBy(begun, digest, steps, i) == SentBy(begun, digest, steps, i);
    assert Follows(r, []);
  }
}
