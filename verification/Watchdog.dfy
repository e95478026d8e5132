/** Supervision of the mitmdump child: the proxy manager's restart budget and the watchdog that spends
    it, one atomic tick at a time. */
module Watchdog {
  import opened Wrappers

  const MAX_RESTARTS := 3
  const RESTART_BACKOFF_SECONDS: seq<nat> := [1, 5, 30]
  const HEALTHY_TICKS_BEFORE_RESET := 3

  // ---------- The proxy manager ----------

  // start() adopts a running mitmdump, spawns one, or fails to.
  datatype StartOutcome = Adopted | Spawned | SpawnFailed

  datatype Manager = Manager(
    hasChild: bool,
    restartCount: nat,
    consecutive: nat,
    lastExitCode: Option<int>,
    stopped: bool)

  function NewManager(): Manager {
    Manager(false, 0, 0, None, false)
  }

  function Started(m: Manager, outcome: StartOutcome): Manager {
    match outcome
    case Adopted => m.(hasChild := false)
    case Spawned => m.(hasChild := true, stopped := false)
    case SpawnFailed => m
  }

  function Backoff(restartCount: nat): nat {
    RESTART_BACKOFF_SECONDS[if restartCount < |RESTART_BACKOFF_SECONDS| then restartCount
                            else |RESTART_BACKOFF_SECONDS| - 1]
  }

  // What a restart does to the manager when the budget allows one.
  function Restarted(m: Manager, exitCode: Option<int>, outcome: StartOutcome): Manager {
    var noted := if m.hasChild && exitCode.Some? then m.(lastExitCode := exitCode) else m;
    var started := Started(noted.(restartCount := m.restartCount + 1), outcome);
    if outcome.SpawnFailed? then started else started.(consecutive := m.consecutive + 1)
  }

  class ProxyManager {
    var hasChild: bool
    var restartCount: nat
    var consecutive: nat
    var lastExitCode: Option<int>
    var stopped: bool
    var slept: nat

    ghost function View(): Manager
      reads this
    {
      Manager(hasChild, restartCount, consecutive, lastExitCode, stopped)
    }

    constructor ()
      ensures View() == NewManager() && slept == 0
    {
      hasChild, restartCount, consecutive, lastExitCode, stopped, slept := false, 0, 0, None, false, 0;
    }

    method Start(outcome: StartOutcome) returns (ok: bool)
      modifies this`hasChild, this`stopped
      ensures View() == Started(old(View()), outcome) && ok == !outcome.SpawnFailed?
    {
      match outcome
      case Adopted =>
        hasChild := false;
        ok := true;
      case Spawned =>
        hasChild := true;
        stopped := false;
        ok := true;
      case SpawnFailed =>
        ok := false;
    }

    method Stop()
      modifies this`hasChild, this`stopped
      ensures View() == old(View()).(hasChild := false, stopped := true)
    {
      stopped := true;
      hasChild := false;
    }

    // exitCode is what polling the dead child yields, if anything.
    method Restart(exitCode: Option<int>, outcome: StartOutcome) returns (ok: bool)
      modifies this
      ensures old(restartCount) >= MAX_RESTARTS ==> !ok && View() == old(View()) && slept == old(slept)
      ensures old(restartCount) < MAX_RESTARTS ==>
                && ok == !outcome.SpawnFailed?
                && View() == Restarted(old(View()), exitCode, outcome)
                && slept == old(slept) + Backoff(old(restartCount))
    {
      if restartCount >= MAX_RESTARTS {
        return false;
      }
      var backoff := Backoff(restartCount);
      if hasChild && exitCode.Some? {
        lastExitCode := exitCode;
      }
      slept := slept + backoff;
      restartCount := restartCount + 1;
      ok := Start(outcome);
      if ok {
        consecutive := consecutive + 1;
      }
    }

    method ResetRestartCount()
      modifies this`restartCount, this`consecutive
      ensures View() == old(View()).(restartCount := 0, consecutive := 0)
    {
      restartCount, consecutive := 0, 0;
    }
  }

  // ---------- One watchdog tick ----------

  // What a tick meets outside the program: the probe of the child, the exit code, how starting goes,
  // and which system-proxy commands take effect.
  datatype Surroundings = Surroundings(
    childRuns: bool,
    exitCode: Option<int>,
    outcome: StartOutcome,
    probeWorks: bool,
    disableWorks: bool,
    enableWorks: bool)

  datatype Report =
    | Ignored
    | Healthy(reset: bool)
    | Death(attempted: bool, restarted: bool, backoff: nat, exitSummary: Option<int>, proxyRestored: bool)

  datatype Monitor = Monitor(manager: Manager, streak: nat, systemProxy: bool)

  function HandleDeath(m: Monitor, e: Surroundings): (r: (Monitor, Report)) {
    var wasOn := e.probeWorks && m.systemProxy;
    var summary := if m.manager.consecutive >= 2 then m.manager.lastExitCode else None;
    var proxyOff := m.systemProxy && !e.disableWorks;
    if m.manager.restartCount >= MAX_RESTARTS then
      (m.(streak := 0, systemProxy := proxyOff), Death(false, false, 0, summary, false))
    else
      var ok := !e.outcome.SpawnFailed?;
      var restored := ok && wasOn;
      (Monitor(Restarted(m.manager, e.exitCode, e.outcome), 0, (restored && e.enableWorks) || proxyOff),
       Death(true, ok, Backoff(m.manager.restartCount), summary, restored))
  }

  function Tick(m: Monitor, e: Surroundings): (r: (Monitor, Report)) {
    if m.manager.stopped then (m, Ignored)
    else if !e.childRuns then HandleDeath(m, e)
    else
      var streak := m.streak + 1;
      if streak >= HEALTHY_TICKS_BEFORE_RESET then
        (m.(streak := streak, manager := m.manager.(restartCount := 0, consecutive := 0)), Healthy(true))
      else (m.(streak := streak), Healthy(false))
  }

  function StoppedByUser(m: Monitor, disableProxy: bool, disableWorks: bool): Monitor {
    Monitor(m.manager.(hasChild := false, stopped := true), m.streak,
            m.systemProxy && !(disableProxy && disableWorks))
  }

  // The watchdog's loop variable, its manager, and the system proxy both of them switch.
  class WatchdogThread {
    const pm: ProxyManager
    var healthyStreak: nat
    var systemProxy: bool

    ghost function View(): Monitor
      reads this, pm
    {
      Monitor(pm.View(), healthyStreak, systemProxy)
    }

    constructor (pm: ProxyManager, systemProxy: bool)
      ensures this.pm == pm && View() == Monitor(pm.View(), 0, systemProxy)
    {
      this.pm := pm;
      healthyStreak := 0;
      this.systemProxy := systemProxy;
    }

    method HandleMitmdumpDeathAndRestart(e: Surroundings) returns (report: Report)
      modifies this`systemProxy, pm
      ensures healthyStreak == 0 ==> (View(), report) == HandleDeath(old(View()), e)
      ensures healthyStreak == old(healthyStreak)
    {
      var proxyWasOn := e.probeWorks && systemProxy;
      var exitSummary: Option<int> := None;
      if pm.consecutive >= 2 {
        exitSummary := pm.lastExitCode;
      }
      if e.disableWorks {
        systemProxy := false;
      }
      var slept := pm.slept;
      var attempted := pm.restartCount < MAX_RESTARTS;
      var restarted := pm.Restart(e.exitCode, e.outcome);
      var proxyRestored := false;
      if restarted && proxyWasOn {
        if e.enableWorks {
          systemProxy := true;
        }
        proxyRestored := true;
      }
      report := Death(attempted, restarted, pm.slept - slept, exitSummary, proxyRestored);
    }

    method StopByUser(disableProxy: bool, disableWorks: bool)
      modifies this`systemProxy, pm
      ensures View() == StoppedByUser(old(View()), disableProxy, disableWorks)
    {
      pm.Stop();
      if disableProxy && disableWorks {
        systemProxy := false;
      }
    }

    method RunTick(e: Surroundings) returns (report: Report)
      modifies this, pm
      ensures (View(), report) == Tick(old(View()), e)
    {
      if !(!pm.stopped && e.childRuns) && !pm.stopped {
        healthyStreak := 0;
        report := HandleMitmdumpDeathAndRestart(e);
      } else if !pm.stopped {
        healthyStreak := healthyStreak + 1;
        var reset := healthyStreak >= HEALTHY_TICKS_BEFORE_RESET;
        if reset {
          pm.ResetRestartCount();
        }
        report := Healthy(reset);
      } else {
        report := Ignored;
      }
    }
  }

  // ---------- Runs ----------

  // Between ticks the user may stop or start the proxy, and anyone may switch the system proxy.
  // Stopping also disables the system proxy unless asked not to, as far as the command has effect.
  datatype Event =
    | TickEvent(e: Surroundings)
    | UserStop(disableProxy: bool, disableWorks: bool)
    | UserStart(outcome: StartOutcome)
    | Switch(on: bool)

  // The monitor and the reports of all ticks so far, after the first n events.
  function After(m: Monitor, events: seq<Event>): (Monitor, seq<Report>) {
    if events == [] then (m, [])
    else
      var n := |events| - 1;
      var (before, reports) := After(m, events[..n]);
      match events[n]
      case TickEvent(e) => var (next, report) := Tick(before, e); (next, reports + [report])
      case UserStop(disableProxy, disableWorks) => (StoppedByUser(before, disableProxy, disableWorks), reports)
      case UserStart(outcome) => (before.(manager := Started(before.manager, outcome)), reports)
      case Switch(on) => (before.(systemProxy := on), reports)
  }

  function Reports(m: Monitor, events: seq<Event>): seq<Report> {
    After(m, events).1
  }

  // Restart attempts, and seconds slept for them, since the last reset.
  function AttemptsSinceReset(reports: seq<Report>): nat {
    if reports == [] then 0
    else
      var n := |reports| - 1;
      match reports[n]
      case Healthy(true) => 0
      case Death(true, _, _, _, _) => AttemptsSinceReset(reports[..n]) + 1
      case _ => AttemptsSinceReset(reports[..n])
  }

  function SleptSinceReset(reports: seq<Report>): nat {
    if reports == [] then 0
    else
      var n := |reports| - 1;
      match reports[n]
      case Healthy(true) => 0
      case Death(_, _, backoff, _, _) => SleptSinceReset(reports[..n]) + backoff
      case _ => SleptSinceReset(reports[..n])
  }

  // Healthy ticks since the last death; ignored ticks do not count either way.
  function HealthySinceDeath(reports: seq<Report>): nat {
    if reports == [] then 0
    else
      var n := |reports| - 1;
      match reports[n]
      case Healthy(_) => HealthySinceDeath(reports[..n]) + 1
      case Death(_, _, _, _, _) => 0
      case Ignored => HealthySinceDeath(reports[..n])
  }

  function BackoffSum(n: nat): nat {
    if n == 0 then 0 else BackoffSum(n - 1) + Backoff(n - 1)
  }

  ghost predicate Budgeted(m: Monitor, reports: seq<Report>) {
    && m.manager.consecutive <= m.manager.restartCount <= MAX_RESTARTS
    && m.manager.restartCount == AttemptsSinceReset(reports)
    && SleptSinceReset(reports) == BackoffSum(m.manager.restartCount)
    && m.streak == HealthySinceDeath(reports)
  }

  lemma TickKeepsBudget(m: Monitor, reports: seq<Report>, e: Surroundings)
    requires Budgeted(m, reports)
    ensures Budgeted(Tick(m, e).0, reports + [Tick(m, e).1])
    ensures Tick(m, e).1.Healthy? ==>
              (Tick(m, e).1.reset <==> HealthySinceDeath(reports + [Tick(m, e).1]) >= 3)
  {
    hide Tick, AttemptsSinceReset, SleptSinceReset, HealthySinceDeath, BackoffSum;
    ReportSnoc(reports, Tick(m, e).1);
    TickSpends(m, e);
  }

  // What one report adds to the three counts.
  lemma ReportSnoc(reports: seq<Report>, r: Report)
    ensures AttemptsSinceReset(reports + [r])
         == if r == Healthy(true) then 0
            else AttemptsSinceReset(reports) + if r.Death? && r.attempted then 1 else 0
    ensures SleptSinceReset(reports + [r])
         == if r == Healthy(true) then 0 else SleptSinceReset(reports) + if r.Death? then r.backoff else 0
    ensures HealthySinceDeath(reports + [r])
         == if r.Death? then 0 else HealthySinceDeath(reports) + if r.Healthy? then 1 else 0
  {
    assert (reports + [r])[..|reports|] == reports;
  }

  // What one tick spends of the budget, and when it gives it back.
  lemma TickSpends(m: Monitor, e: Surroundings)
    requires m.manager.consecutive <= m.manager.restartCount <= MAX_RESTARTS
    ensures var (after, r) := Tick(m, e);
            && after.manager.consecutive <= after.manager.restartCount <= MAX_RESTARTS
            && after.manager.restartCount
               == (if r == Healthy(true) then 0 else m.manager.restartCount + if r.Death? && r.attempted then 1 else 0)
            && BackoffSum(after.manager.restartCount)
               == (if r == Healthy(true) then 0
                   else BackoffSum(m.manager.restartCount) + if r.Death? then r.backoff else 0)
            && after.streak == (if r.Death? then 0 else m.streak + if r.Healthy? then 1 else 0)
            && (r.Healthy? ==> (r.reset <==> after.streak >= 3))
  {
  }

  lemma {:induction false} RunKeepsBudget(m: Monitor, events: seq<Event>)
    requires m.manager == NewManager() && m.streak == 0
    ensures Budgeted(After(m, events).0, Reports(m, events))
    decreases |events|
  {
    if events != [] {
      var n := |events| - 1;
      RunKeepsBudget(m, events[..n]);
      if events[n].TickEvent? {
        TickKeepsBudget(After(m, events[..n]).0, Reports(m, events[..n]), events[n].e);
      }
    }
  }

  // Main result: in every run there are at most 3 restart attempts and 36 s of backoff between
  // resets, and the counters stay within 0 <= consecutive <= restarts <= 3.
  lemma RestartsAreBudgeted(m: Monitor, events: seq<Event>)
    requires m.manager == NewManager() && m.streak == 0
    ensures AttemptsSinceReset(Reports(m, events)) <= 3
    ensures SleptSinceReset(Reports(m, events)) <= 36
    ensures var pm := After(m, events).0.manager; pm.consecutive <= pm.restartCount <= 3
  {
    RunKeepsBudget(m, events);
    assert BackoffSum(1) == 1 && BackoffSum(2) == 6 && BackoffSum(3) == 36;
  }

  // A healthy tick resets exactly when it is at least the third with no death among them.
  lemma {:induction false} ResetsAreEarnedIff(m: Monitor, events: seq<Event>, i: nat)
    requires m.manager == NewManager() && m.streak == 0
    requires i < |Reports(m, events)| && Reports(m, events)[i].Healthy?
    ensures Reports(m, events)[i].reset <==> HealthySinceDeath(Reports(m, events)[..i + 1]) >= 3
    decreases |events|
  {
    var n := |events| - 1;
    var before := Reports(m, events[..n]);
    if i < |before| {
      ResetsAreEarnedIff(m, events[..n], i);
      assert Reports(m, events)[..i + 1] == before[..i + 1];
    } else {
      RunKeepsBudget(m, events[..n]);
      TickKeepsBudget(After(m, events[..n]).0, before, events[n].e);
      assert Reports(m, events)[..i + 1] == before + [Reports(m, events)[i]];
    }
  }

  // ---------- What a death brings ----------

  // Restarts that succeeded since the last reset.
  function RestartedSinceReset(reports: seq<Report>): nat {
    if reports == [] then 0
    else
      var n := |reports| - 1;
      match reports[n]
      case Healthy(true) => 0
      case Death(_, true, _, _, _) => RestartedSinceReset(reports[..n]) + 1
      case _ => RestartedSinceReset(reports[..n])
  }

  lemma RestartedSnoc(reports: seq<Report>, r: Report)
    ensures RestartedSinceReset(reports + [r])
         == if r == Healthy(true) then 0
            else RestartedSinceReset(reports) + if r.Death? && r.restarted then 1 else 0
  {
    assert (reports + [r])[..|reports|] == reports;
  }

  lemma NothingRestarted()
    ensures RestartedSinceReset([]) == 0
  {
  }

  lemma TickCounts(m: Monitor, e: Surroundings)
    ensures var (after, r) := Tick(m, e);
            after.manager.consecutive
            == if r == Healthy(true) then 0 else m.manager.consecutive + if r.Death? && r.restarted then 1 else 0
  {
  }

  lemma {:induction false} ConsecutiveCountsRestarts(m: Monitor, events: seq<Event>)
    requires m.manager == NewManager()
    ensures After(m, events).0.manager.consecutive == RestartedSinceReset(Reports(m, events))
    decreases |events|
  {
    hide RestartedSinceReset, Tick;
    NothingRestarted();
    if events != [] {
      var n := |events| - 1;
      ConsecutiveCountsRestarts(m, events[..n]);
      if events[n].TickEvent? {
        TickCounts(After(m, events[..n]).0, events[n].e);
        RestartedSnoc(Reports(m, events[..n]), Tick(After(m, events[..n]).0, events[n].e).1);
      }
    }
  }

  // Main result: in every run a tick that is not ignored reports a death exactly when the child is
  // dead. Then a restart is attempted exactly when fewer than three were since the last reset, after 1,
  // 5 and 30 s in turn, and succeeds exactly when starting does; the exit code is told exactly from the
  // second success on.
  lemma WhatADeathBrings(m: Monitor, events: seq<Event>, e: Surroundings)
    requires m.manager == NewManager() && m.streak == 0
    requires !After(m, events).0.manager.stopped
    ensures var before, reports := After(m, events).0, Reports(m, events);
            var (after, r) := Tick(before, e);
            && (r.Death? <==> !e.childRuns) && (r.Healthy? <==> e.childRuns)
            && (r.Death? ==>
                  var attempts := AttemptsSinceReset(reports);
                  && r.attempted == (attempts < 3)
                  && r.backoff == (if attempts < 3 then [1, 5, 30][attempts] else 0)
                  && r.restarted == (attempts < 3 && !e.outcome.SpawnFailed?)
                  && r.exitSummary == (if RestartedSinceReset(reports) >= 2 then before.manager.lastExitCode else None)
                  && (r.restarted ==> after.manager.hasChild == e.outcome.Spawned?)
                  && after.manager.lastExitCode
                     == if r.attempted && before.manager.hasChild && e.exitCode.Some? then e.exitCode
                        else before.manager.lastExitCode)
  {
    hide AttemptsSinceReset, SleptSinceReset, HealthySinceDeath, RestartedSinceReset, After;
    RunKeepsBudget(m, events);
    ConsecutiveCountsRestarts(m, events);
  }

  // Once stopped, no tick changes anything until a start spawns a child: adopting one does not count.
  lemma {:induction false} StopIsHonoured(m: Monitor, events: seq<Event>)
    requires m.manager.stopped
    requires forall e | e in events && e.UserStart? :: !e.outcome.Spawned?
    ensures After(m, events).0.manager == m.manager.(hasChild := After(m, events).0.manager.hasChild)
    ensures After(m, events).0.streak == m.streak
    ensures forall r | r in Reports(m, events) :: r == Ignored
    decreases |events|
  {
    if events != [] {
      var n := |events| - 1;
      assert forall e | e in events[..n] :: e in events;
      assert events[n] in events;
      StopIsHonoured(m, events[..n]);
      var reports := Reports(m, events[..n]);
      if events[n].TickEvent? {
        assert Reports(m, events) == reports + [Ignored];
        assert forall r | r in reports + [Ignored] :: r in reports || r == Ignored;
      }
    }
  }

  // Nor does it touch the system proxy: while nobody else switches it, it goes off exactly when a stop
  // switches it off.
  lemma {:induction false} ProxyStaysThroughStop(m: Monitor, events: seq<Event>)
    requires m.manager.stopped
    requires forall e | e in events :: !e.Switch? && (e.UserStart? ==> !e.outcome.Spawned?)
    ensures After(m, events).0.systemProxy <==> m.systemProxy && UserStop(true, true) !in events
    decreases |events|
  {
    if events != [] {
      var n := |events| - 1;
      assert events == events[..n] + [events[n]] && events[n] in events;
      assert forall e | e in events[..n] :: e in events;
      ProxyStaysThroughStop(m, events[..n]);
      StopIsHonoured(m, events[..n]);
    }
  }

  // After a death the system proxy is on exactly when it was on before and the restart succeeded,
  // provided the commands that read and switch it work.
  lemma ProxyFollowsRestart(m: Monitor, e: Surroundings)
    requires !m.manager.stopped && !e.childRuns
    requires e.probeWorks && e.disableWorks && e.enableWorks
    ensures Tick(m, e).1.Death?
    ensures Tick(m, e).0.systemProxy <==> m.systemProxy && Tick(m, e).1.restarted
    ensures Tick(m, e).1.proxyRestored <==> m.systemProxy && Tick(m, e).1.restarted
  {
  }

  // The restart goes ahead and starting succeeds.
  predicate CanRestart(m: Monitor, e: Surroundings) {
    m.manager.restartCount < MAX_RESTARTS && !e.outcome.SpawnFailed?
  }

  // Exactly when that holds, whichever commands fail: the proxy was off, or a restart is possible and
  // it is switched back on (or never goes off), or none is and it does go off.
  lemma ProxyFollowsRestartIff(m: Monitor, e: Surroundings)
    requires !m.manager.stopped && !e.childRuns
    ensures var (after, report) := Tick(m, e);
            (after.systemProxy <==> m.systemProxy && report.restarted) <==>
              || !m.systemProxy
              || (if CanRestart(m, e) then !e.disableWorks || (e.probeWorks && e.enableWorks) else e.disableWorks)
  {
  }

  // A restore that is reported has happened exactly when the proxy was off or seen as off, no restart
  // was possible, or the proxy was switched back on or never went off.
  lemma ReportedRestoreIsTrueIff(m: Monitor, e: Surroundings)
    requires !m.manager.stopped && !e.childRuns
    ensures var (after, report) := Tick(m, e);
            (report.proxyRestored ==> after.systemProxy) <==>
              (m.systemProxy && e.probeWorks && CanRestart(m, e) ==> e.enableWorks || !e.disableWorks)
  {
  }

  // It may not have: a switch back on without effect is reported as a restore.
  lemma RestoredIsReportedRegardless(m: Monitor, e: Surroundings)
    requires !m.manager.stopped && !e.childRuns && CanRestart(m, e)
    requires m.systemProxy && e.probeWorks && e.disableWorks && !e.enableWorks
    ensures Tick(m, e).1.proxyRestored && !Tick(m, e).0.systemProxy
  {
  }

  // When the budget is spent and the child stays dead, every later tick gives up without an attempt.
  lemma {:induction false} ExhaustedStaysDown(m: Monitor, events: seq<Event>)
    requires m.manager.restartCount == MAX_RESTARTS
    requires forall e | e in events :: e.TickEvent? && !e.e.childRuns
    ensures After(m, events).0.manager == m.manager
    ensures forall r | r in Reports(m, events) :: r == Ignored || (r.Death? && !r.attempted && !r.restarted)
    decreases |events|
  {
    if events != [] {
      var n := |events| - 1;
      assert forall e | e in events[..n] :: e in events;
      assert events[n] in events;
      ExhaustedStaysDown(m, events[..n]);
    }
  }
}
