/** A death tick cut at the backoff sleep inside it: what the user does meanwhile, and what becomes of a
    stop. */
module WatchdogPause {
  import opened Wrappers
  import opened Watchdog

  // The watchdog between ticks, or asleep inside a restart; `wasOn` is the proxy state it has seen.
  datatype Half =
    | Awake(m: Monitor)
    | Asleep(m: Monitor, wasOn: bool)

  datatype Event =
    | Begin(e: Surroundings)
    | Wake(outcome: StartOutcome, enableWorks: bool)
    | UserStop(disableProxy: bool, disableWorks: bool)
    | UserStart(outcome: StartOutcome)
    | Switch(on: bool)

  function WithMonitor(h: Half, m: Monitor): Half {
    if h.Awake? then Awake(m) else Asleep(m, h.wasOn)
  }

  // A tick up to the sleep: a death that a restart may follow.
  function BeginTick(m: Monitor, e: Surroundings): Half {
    if m.manager.stopped || e.childRuns || m.manager.restartCount >= MAX_RESTARTS then Awake(Tick(m, e).0)
    else
      var code := if m.manager.hasChild && e.exitCode.Some? then e.exitCode else m.manager.lastExitCode;
      var manager := m.manager.(lastExitCode := code);
      Asleep(Monitor(manager, 0, m.systemProxy && !e.disableWorks), e.probeWorks && m.systemProxy)
  }

  // The rest of it: the attempt counts, start() runs whatever was asked meanwhile, and the proxy is
  // restored.
  function WakeUp(m: Monitor, wasOn: bool, outcome: StartOutcome, enableWorks: bool): Monitor {
    var ok := !outcome.SpawnFailed?;
    var started := Started(m.manager.(restartCount := m.manager.restartCount + 1), outcome);
    Monitor(started.(consecutive := started.consecutive + if ok then 1 else 0), m.streak,
            m.systemProxy || (ok && wasOn && enableWorks))
  }

  function Next(h: Half, e: Event): Half {
    match e
    case Begin(s) => if h.Awake? then BeginTick(h.m, s) else h
    case Wake(outcome, enableWorks) => if h.Awake? then h else Awake(WakeUp(h.m, h.wasOn, outcome, enableWorks))
    case UserStop(disableProxy, disableWorks) => WithMonitor(h, StoppedByUser(h.m, disableProxy, disableWorks))
    case UserStart(outcome) => WithMonitor(h, h.m.(manager := Started(h.m.manager, outcome)))
    case Switch(on) => WithMonitor(h, h.m.(systemProxy := on))
  }

  // With nothing in between the two halves are one tick.
  lemma HalvesMakeATick(m: Monitor, e: Surroundings)
    ensures var h := Next(Awake(m), Begin(e));
            Next(h, Wake(e.outcome, e.enableWorks)) == Awake(Tick(m, e).0)
  {
  }

  // ---------- A stop during the sleep ----------

  ghost predicate StoppedThroughout(h: Half, events: seq<Event>)
    decreases |events|
  {
    h.m.manager.stopped && (events == [] || StoppedThroughout(Next(h, events[0]), events[1..]))
  }

  // The outcome of the restart that the first waking brings.
  function FirstWaking(events: seq<Event>): Option<StartOutcome> {
    if events == [] then None
    else if events[0].Wake? then Some(events[0].outcome)
    else FirstWaking(events[1..])
  }

  // Main result: while no start of the user spawns a child, a stop lasts if and only if it did not meet
  // the watchdog asleep, or the restart it was asleep in does not spawn a child when it wakes.
  lemma {:induction false} StopLastsIff(h: Half, events: seq<Event>)
    requires h.m.manager.stopped
    requires forall e | e in events && e.UserStart? :: !e.outcome.Spawned?
    ensures StoppedThroughout(h, events) <==> !(h.Asleep? && FirstWaking(events) == Some(Spawned))
    decreases |events|
  {
    if events != [] {
      var e, rest := events[0], events[1..];
      assert e in events;
      assert forall x | x in rest :: x in events;
      StopStep(h, e);
      if Next(h, e).m.manager.stopped {
        StopLastsIff(Next(h, e), rest);
      }
    }
  }

  lemma StopStep(h: Half, e: Event)
    requires h.m.manager.stopped && (e.UserStart? ==> !e.outcome.Spawned?)
    ensures var t := Next(h, e);
            && (t.m.manager.stopped <==> !(h.Asleep? && e.Wake? && e.outcome.Spawned?))
            && (t.Asleep? <==> h.Asleep? && !e.Wake?)
  {
  }

  // A stop that meets the sleep is undone: the child is spawned, and watched again.
  lemma StopDuringSleepIsUndone(m: Monitor, e: Surroundings, disableProxy: bool, disableWorks: bool)
    requires !m.manager.stopped && !e.childRuns && m.manager.restartCount < MAX_RESTARTS && e.outcome.Spawned?
    ensures var asleep := Next(Awake(m), Begin(e));
            var stopped := Next(asleep, Event.UserStop(disableProxy, disableWorks));
            var woken := Next(stopped, Wake(e.outcome, e.enableWorks));
            stopped.m.manager.stopped && !woken.m.manager.stopped && woken.m.manager.hasChild
  {
  }
}
