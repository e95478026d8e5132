/** The in-memory live feed: producers check and mark an event under a lock, release it, and append
    under the same lock later. The set of seen hashes is emptied when it grows past a bound. */
module LiveFeed {
  import opened Wrappers

  const SEEN_LIMIT := 1000
  const FEED_LENGTH := 500

  // hash is None for events without enough identity to be deduplicated.
  datatype Event = Event(hash: Option<string>, payload: string)

  function AfterMark(seen: set<string>, h: string): set<string> {
    if |seen + {h}| > SEEN_LIMIT then {} else seen + {h}
  }

  // A deque of bounded length keeps the most recent entries.
  function LastOf<T>(s: seq<T>): seq<T> {
    if |s| > FEED_LENGTH then s[|s| - FEED_LENGTH..] else s
  }

  class Feed {
    var seen: set<string>
    var feed: seq<Event>

    constructor ()
      ensures seen == {} && feed == []
    {
      seen, feed := {}, [];
    }

    // The first critical section: false when the event was seen before.
    method CheckAndMark(h: string) returns (isNew: bool)
      modifies this`seen
      ensures isNew == (h !in old(seen))
      ensures seen == if isNew then AfterMark(old(seen), h) else old(seen)
    {
      if h in seen {
        return false;
      }
      seen := seen + {h};
      if |seen| > SEEN_LIMIT {
        seen := {};
      }
      isNew := true;
    }

    // The second critical section.
    method Append(e: Event)
      modifies this`feed
      ensures feed == LastOf(old(feed) + [e])
    {
      feed := feed + [e];
      if |feed| > FEED_LENGTH {
        feed := feed[|feed| - FEED_LENGTH..];
      }
    }
  }

  // ---------- Any number of producers ----------

  // `epoch` lists the hashes accepted since the seen set was last emptied, `closed` those accepted
  // between two clears, the one that caused the clear included, `accepted` all of them; `appended` is
  // every event ever appended, `waiting` the events accepted but not yet appended, by producer.
  datatype State = State(
    seen: set<string>,
    feed: seq<Event>,
    waiting: map<nat, Event>,
    epoch: seq<string>,
    closed: seq<seq<string>>,
    accepted: seq<string>,
    appended: seq<Event>)

  datatype Step =
    | Check(producer: nat, e: Event)
    | Push(producer: nat)

  function Start(): State {
    State({}, [], map[], [], [], [], [])
  }

  predicate Enabled(s: State, step: Step) {
    match step
    case Check(p, _) => p !in s.waiting
    case Push(p) => p in s.waiting
  }

  function Next(s: State, step: Step): State
    requires Enabled(s, step)
  {
    match step
    case Check(p, e) =>
      if e.hash.None? then s.(waiting := s.waiting[p := e])
      else if e.hash.value in s.seen then s
      else
        var seen, epoch := AfterMark(s.seen, e.hash.value), s.epoch + [e.hash.value];
        s.(seen := seen, waiting := s.waiting[p := e],
           epoch := if seen == {} then [] else epoch,
           closed := if seen == {} then s.closed + [epoch] else s.closed,
           accepted := s.accepted + [e.hash.value])
    case Push(p) =>
      s.(feed := LastOf(s.feed + [s.waiting[p]]), appended := s.appended + [s.waiting[p]],
         waiting := s.waiting - {p})
  }

  ghost predicate Run(s: State, steps: seq<Step>, t: State)
    decreases |steps|
  {
    if steps == [] then s == t
    else Enabled(s, steps[0]) && Run(Next(s, steps[0]), steps[1..], t)
  }

  predicate NoRepeats(s: seq<string>) {
    forall i, j | 0 <= i < j < |s| :: s[i] != s[j]
  }

  function Flatten(epochs: seq<seq<string>>): seq<string> {
    if epochs == [] then [] else Flatten(epochs[..|epochs| - 1]) + epochs[|epochs| - 1]
  }

  ghost predicate Inv(s: State) {
    && |s.seen| == |s.epoch| <= SEEN_LIMIT
    && NoRepeats(s.epoch) && (forall h :: h in s.epoch <==> h in s.seen)
    && (forall epoch | epoch in s.closed :: NoRepeats(epoch) && |epoch| == SEEN_LIMIT + 1)
    && s.accepted == Flatten(s.closed) + s.epoch
    && s.feed == LastOf(s.appended)
  }

  lemma LastOfSnoc<T>(s: seq<T>, x: T)
    ensures LastOf(LastOf(s) + [x]) == LastOf(s + [x])
  {
    if |s| > FEED_LENGTH {
      assert (LastOf(s) + [x])[1..] == (s + [x])[|s| + 1 - FEED_LENGTH..];
    }
  }

  lemma FlattenSnoc(epochs: seq<seq<string>>, epoch: seq<string>)
    ensures Flatten(epochs + [epoch]) == Flatten(epochs) + epoch
  {
    assert (epochs + [epoch])[..|epochs|] == epochs;
  }

  lemma NoRepeatsSnoc(s: seq<string>, h: string)
    requires NoRepeats(s) && h !in s
    ensures NoRepeats(s + [h])
  {
  }

  lemma AcceptKeeps(s: State, p: nat, e: Event)
    requires Inv(s) && p !in s.waiting && e.hash.Some? && e.hash.value !in s.seen
    ensures Inv(Next(s, Check(p, e)))
  {
    hide Flatten, NoRepeats, LastOf;
    var h := e.hash.value;
    var epoch := s.epoch + [h];
    NoRepeatsSnoc(s.epoch, h);
    assert |s.seen + {h}| == |s.seen| + 1 && h in s.seen + {h};
    Associative(Flatten(s.closed), s.epoch, [h]);
    if |epoch| > SEEN_LIMIT {
      FlattenSnoc(s.closed, epoch);
      NothingAfter(Flatten(s.closed) + epoch);
      EmptyEpoch();
    }
  }

  lemma Associative<T>(a: seq<T>, b: seq<T>, c: seq<T>)
    ensures a + (b + c) == a + b + c
  {
  }

  lemma NothingAfter<T>(a: seq<T>)
    ensures a + [] == a
  {
  }

  lemma EmptyEpoch()
    ensures NoRepeats([])
  {
  }

  lemma StepKeeps(s: State, step: Step)
    requires Inv(s) && Enabled(s, step)
    ensures Inv(Next(s, step))
  {
    match step
    case Check(p, e) =>
      if e.hash.Some? && e.hash.value !in s.seen {
        AcceptKeeps(s, p, e);
      }
    case Push(p) => LastOfSnoc(s.appended, s.waiting[p]);
  }

  lemma {:induction false} RunKeeps(s: State, steps: seq<Step>, t: State)
    requires Inv(s) && Run(s, steps, t)
    ensures Inv(t)
    decreases |steps|
  {
    hide Inv;
    if steps != [] {
      StepKeeps(s, steps[0]);
      RunKeeps(Next(s, steps[0]), steps[1..], t);
    }
  }

  lemma StartIsSound()
    ensures Inv(Start())
  {
  }

  // Main result: in every interleaving, whenever the lock is free the seen set holds at most 1000
  // hashes; the hashes accepted fall into runs between clears, in order, each with exactly 1001
  // different hashes, and the current one, also without a repeat; and the feed is exactly the last 500
  // events appended.
  lemma FeedIsSound(steps: seq<Step>, t: State)
    requires Run(Start(), steps, t)
    ensures |t.seen| <= 1000
    ensures t.accepted == Flatten(t.closed) + t.epoch
    ensures forall epoch | epoch in t.closed :: NoRepeats(epoch) && |epoch| == 1001
    ensures NoRepeats(t.epoch) && forall h :: h in t.epoch <==> h in t.seen
    ensures t.feed == if |t.appended| <= 500 then t.appended else t.appended[|t.appended| - 500..]
  {
    StartIsSound();
    RunKeeps(Start(), steps, t);
  }

  // An event is refused exactly when its hash was accepted since the set was last emptied.
  lemma RefusedIffAcceptedInEpoch(s: State, p: nat, e: Event)
    requires Inv(s) && Enabled(s, Check(p, e))
    ensures Next(s, Check(p, e)).waiting == s.waiting <==> e.hash.Some? && e.hash.value in s.epoch
  {
    var t := Next(s, Check(p, e));
    assert p in t.waiting ==> t.waiting != s.waiting;
  }

  // Emptying the set forgets the very hash that overflowed it, which is then accepted again.
  lemma OverflowForgetsTheLast(s: State, p: nat, q: nat, e: Event)
    requires Inv(s) && |s.seen| == SEEN_LIMIT && e.hash.Some? && e.hash.value !in s.seen
    requires p !in s.waiting && q !in s.waiting && p != q
    ensures var t := Next(s, Check(p, e)); t.seen == {} && q in Next(t, Check(q, e)).waiting
  {
    assert |s.seen + {e.hash.value}| == SEEN_LIMIT + 1;
  }
}
