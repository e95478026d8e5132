/** Crashes and starts over whole runs: every start recovers first, spawns or adopts the proxy, and
    then writes the monitor's pid file; watchdogs restart the proxy. A hung monitor may be superseded
    and live on. Other programs come and go, and may get any unused pid. */
module CrashRuns {
  import opened Wrappers
  import opened CrashRecovery

  // `managers` holds the live monitors, each with the mitmdump it has spawned itself, if any, and
  // `spawned` the live mitmdumps that any of them has spawned. `crashes` counts deaths of monitors
  // without a shutdown, `reported` those a start has reported, `hidden` those no start will report.
  datatype World = World(
    machine: Machine,
    managers: map<int, Option<int>>,
    spawned: set<int>,
    crashes: nat,
    reported: nat,
    hidden: nat)

  // `cleared` are the mitmdumps on the port that a start kills before it spawns its own.
  datatype Event =
    | Start(powers: Powers, cleared: set<int>, proxyPid: int, monitorPid: int)
    | AbortedStart(powers: Powers, cleared: set<int>, proxyPid: int)
    | Restart(monitor: int, powers: Powers, cleared: set<int>, proxyPid: int)
    | Shutdown(monitor: int, powers: Powers)
    | Beat
    | Wait(seconds: nat)
    | Switch(on: bool)
    | ProcessStarts(pid: int, kind: Kind)
    | ProcessEnds(pid: int)

  // A machine on which nothing was started yet.
  predicate IsFresh(w: World) {
    && w.machine.monitorPid.None? && w.machine.proxyPid.None?
    && w.managers == map[] && w.spawned == {} && w.crashes == w.reported == w.hidden == 0
  }

  // A live process owns the monitor's pid file and the heartbeat is fresh: a start is refused.
  predicate IsRefused(m: Machine) {
    MonitorAlive(m) && m.heartbeatAge.Some? && m.heartbeatAge.value <= HEARTBEAT_STALE_SECONDS
  }

  predicate IsUnused(m: Machine, pid: int) {
    pid > 0 && pid !in m.processes
  }

  // Only what `ps` shows to be a mitmdump is cleared, and only what may be signalled.
  predicate MayClear(m: Machine, powers: Powers, cleared: set<int>) {
    && cleared <= powers.killable && (cleared != {} ==> powers.psAnswers)
    && forall pid | pid in cleared :: IsMitmproxy(m, pid)
  }

  // A manager polls the child it has spawned, and looks an adopted one up on file.
  predicate LooksDead(w: World, monitor: int, powers: Powers)
    requires monitor in w.managers
  {
    var child := w.managers[monitor];
    if child.Some? then child.value !in w.spawned else !SeesProxy(w.machine, powers)
  }

  predicate Enabled(w: World, e: Event) {
    match e
    case Start(powers, cleared, proxyPid, monitorPid) =>
      && MayClear(w.machine, powers, cleared)
      && IsUnused(w.machine, proxyPid) && IsUnused(w.machine, monitorPid) && proxyPid != monitorPid
    case AbortedStart(powers, cleared, proxyPid) =>
      MayClear(w.machine, powers, cleared) && IsUnused(w.machine, proxyPid)
    case Restart(monitor, powers, cleared, proxyPid) =>
      && monitor in w.managers && LooksDead(w, monitor, powers)
      && MayClear(w.machine, powers, cleared) && IsUnused(w.machine, proxyPid)
    case Shutdown(monitor, _) => monitor in w.managers
    case Beat => w.managers != map[]
    case ProcessStarts(pid, _) => IsUnused(w.machine, pid)
    case ProcessEnds(pid) => pid in w.machine.processes
    case _ => true
  }

  // The pid file names a monitor that died without a shutdown.
  predicate IsPending(w: World) {
    w.machine.monitorPid.Some? && w.machine.monitorPid.value !in w.managers
  }

  function PendingCrashes(w: World): nat {
    if IsPending(w) then 1 else 0
  }

  function Reports(fixes: seq<Fix>): nat {
    if fixes == [] then 0 else Reports(fixes[1..]) + if fixes[0].RemovedMonitorPid? then 1 else 0
  }

  // A process ends; when it is a monitor, that is a crash, hidden if the pid file names another.
  function Ended(w: World, pid: int): World {
    w.(machine := w.machine.(processes := w.machine.processes - {pid}),
       managers := w.managers - {pid},
       spawned := w.spawned - {pid},
       crashes := w.crashes + if pid in w.managers then 1 else 0,
       hidden := w.hidden + if pid in w.managers && w.machine.monitorPid != Some(pid) then 1 else 0)
  }

  // Recovery, seen from outside.
  function Recover(w: World, powers: Powers): World {
    var (machine, fixes) := Recovered(w.machine, powers);
    w.(machine := machine,
       spawned := (set pid | pid in w.spawned && pid in machine.processes),
       reported := w.reported + Reports(fixes))
  }

  function Cleared(w: World, cleared: set<int>): World {
    w.(machine := w.machine.(processes := w.machine.processes - cleared), spawned := w.spawned - cleared)
  }

  // start() keeps a mitmdump it sees on file; else it clears the port, spawns one and writes its pid.
  function WithProxy(w: World, powers: Powers, cleared: set<int>, pid: int): World {
    if SeesProxy(w.machine, powers) then w
    else
      var c := Cleared(w, cleared);
      c.(machine := c.machine.(processes := c.machine.processes[pid := Mitmproxy], proxyPid := Some(pid)),
         spawned := c.spawned + {pid})
  }

  // The child a manager has after start().
  function ChildOf(w: World, powers: Powers, pid: int): Option<int> {
    if SeesProxy(w.machine, powers) then None else Some(pid)
  }

  // A crash that is still pending when the pid file is overwritten stays unreported.
  function WithMonitor(w: World, pid: int, child: Option<int>): World {
    w.(machine := w.machine.(processes := w.machine.processes[pid := OtherProgram],
                             monitorPid := Some(pid), heartbeatAge := Some(0)),
       managers := w.managers[pid := child],
       hidden := w.hidden + PendingCrashes(w))
  }

  // What stopping the manager signals: its own child, else whatever the proxy pid file names.
  function Victim(w: World, monitor: int): Option<int>
    requires monitor in w.managers
  {
    if w.managers[monitor].Some? then w.managers[monitor] else w.machine.proxyPid
  }

  // Clean-up first removes the monitor's pid file, whoever it names, and switches the proxy off; then
  // the manager stops its mitmdump and removes the proxy pid file.
  function ShutDown(w: World, monitor: int, powers: Powers): World
    requires monitor in w.managers
  {
    var victim := Victim(w, monitor);
    var off := w.machine.systemProxy && !(powers.switchLaunches && powers.switchTakesEffect);
    var cleaned := w.(machine := w.machine.(monitorPid := None, systemProxy := off,
                                            processes := w.machine.processes - {monitor}),
                      managers := w.managers - {monitor},
                      hidden := w.hidden + PendingCrashes(w));
    var stopped := if victim.Some? && victim.value in powers.killable then Ended(cleaned, victim.value) else cleaned;
    stopped.(machine := stopped.machine.(proxyPid := None))
  }

  function Next(w: World, e: Event): World
    requires Enabled(w, e)
  {
    match e
    case Start(powers, cleared, proxyPid, monitorPid) =>
      if IsRefused(w.machine) then w
      else
        var r := Recover(w, powers);
        WithMonitor(WithProxy(r, powers, cleared, proxyPid), monitorPid, ChildOf(r, powers, proxyPid))
    case AbortedStart(powers, cleared, proxyPid) =>
      if IsRefused(w.machine) then w else WithProxy(Recover(w, powers), powers, cleared, proxyPid)
    case Restart(monitor, powers, cleared, proxyPid) =>
      WithProxy(w, powers, cleared, proxyPid).(managers := w.managers[monitor := ChildOf(w, powers, proxyPid)])
    case Shutdown(monitor, powers) => ShutDown(w, monitor, powers)
    case Beat => w.(machine := w.machine.(heartbeatAge := Some(0)))
    case Wait(seconds) =>
      w.(machine := w.machine.(heartbeatAge :=
           if w.machine.heartbeatAge.Some? then Some(w.machine.heartbeatAge.value + seconds) else None))
    case Switch(on) => w.(machine := w.machine.(systemProxy := on))
    case ProcessStarts(pid, kind) => w.(machine := w.machine.(processes := w.machine.processes[pid := kind]))
    case ProcessEnds(pid) => Ended(w, pid)
  }

  ghost predicate Run(w: World, events: seq<Event>, t: World)
    decreases |events|
  {
    if events == [] then w == t
    else Enabled(w, events[0]) && Run(Next(w, events[0]), events[1..], t)
  }

  // ---------- Every crash is reported once, or hidden ----------

  ghost predicate Inv(w: World) {
    && (w.machine.monitorPid.Some? ==> w.machine.monitorPid.value > 0)
    && (forall pid | pid in w.managers ::
          pid > 0 && pid in w.machine.processes && w.machine.processes[pid] == OtherProgram)
    && w.crashes == w.reported + w.hidden + PendingCrashes(w)
  }

  lemma {:induction false} ReportsAppend(a: seq<Fix>, b: seq<Fix>)
    ensures Reports(a + b) == Reports(a) + Reports(b)
  {
    if a == [] {
      assert a + b == b;
    } else {
      assert (a + b)[1..] == a[1..] + b;
      ReportsAppend(a[1..], b);
    }
  }

  lemma OneReport(m: Machine, powers: Powers)
    ensures Reports(Fixes(m, powers))
         == if m.monitorPid.Some? && m.monitorPid.value > 0 && !MonitorAlive(m) then 1 else 0
  {
    var kills := HasOrphan(m) && powers.psAnswers && m.proxyPid.value in powers.killable;
    var f1 := if kills then [KilledOrphan(m.proxyPid.value)] else [];
    var f2 := if ReportsProxy(m, powers) then [DisabledProxy] else [];
    var removes := m.monitorPid.Some? && m.monitorPid.value > 0 && !MonitorAlive(m);
    var f3 := if removes then [RemovedMonitorPid(m.monitorPid.value)] else [];
    assert Fixes(m, powers) == f1 + f2 + f3;
    ReportsAppend(f1 + f2, f3);
    ReportsAppend(f1, f2);
  }

  // Recovery reports the pending crash exactly when no process has the dead monitor's pid.
  lemma RecoverReports(w: World, powers: Powers)
    requires Inv(w)
    ensures var t := Recover(w, powers);
            && Inv(t) && t.managers == w.managers && t.hidden == w.hidden
            && t.reported == w.reported + (if IsPending(w) && !MonitorAlive(w.machine) then 1 else 0)
            && (IsPending(t) <==> IsPending(w) && MonitorAlive(w.machine))
  {
    OneReport(w.machine, powers);
  }

  lemma RecoverKeepsProcesses(w: World, powers: Powers, cleared: set<int>, pid: int)
    requires IsUnused(w.machine, pid) && MayClear(w.machine, powers, cleared)
    ensures IsUnused(Recover(w, powers).machine, pid)
    ensures forall c | c in cleared && c in Recover(w, powers).machine.processes ::
              Recover(w, powers).machine.processes[c] == Mitmproxy
  {
  }

  lemma WithProxyKeeps(w: World, powers: Powers, cleared: set<int>, pid: int)
    requires Inv(w) && IsUnused(w.machine, pid)
    requires forall c | c in cleared && c in w.machine.processes :: w.machine.processes[c] == Mitmproxy
    ensures var t := WithProxy(w, powers, cleared, pid);
            && Inv(t) && t.managers == w.managers && t.hidden == w.hidden
            && t.machine.monitorPid == w.machine.monitorPid
            && (forall other | IsUnused(w.machine, other) && other != pid :: IsUnused(t.machine, other))
  {
  }

  // Exactly when a step makes a crash unreportable: a start goes ahead although another process has
  // the pid of the monitor that crashed, a monitor the pid file does not name crashes, or one shuts
  // down and takes the pid file of a crashed monitor along.
  predicate Hides(w: World, e: Event) {
    match e
    case Start(_, _, _, _) => IsPending(w) && MonitorAlive(w.machine) && !IsRefused(w.machine)
    case Shutdown(monitor, powers) =>
      monitor in w.managers && (IsPending(w) || (KillsMonitor(w, monitor, powers)))
    case ProcessEnds(pid) => pid in w.managers && w.machine.monitorPid != Some(pid)
    case _ => false
  }

  // What the manager takes for its mitmdump is another monitor that has got that pid.
  predicate KillsMonitor(w: World, monitor: int, powers: Powers)
    requires monitor in w.managers
  {
    var victim := Victim(w, monitor);
    victim.Some? && victim.value in powers.killable && victim.value != monitor && victim.value in w.managers
  }

  lemma ShutDownKeeps(w: World, monitor: int, powers: Powers)
    requires Inv(w) && monitor in w.managers
    ensures var t := ShutDown(w, monitor, powers);
            Inv(t) && t.hidden >= w.hidden && (t.hidden > w.hidden <==> Hides(w, Shutdown(monitor, powers)))
  {
  }

  lemma StepKeeps(w: World, e: Event)
    requires Inv(w) && Enabled(w, e)
    ensures Inv(Next(w, e))
    ensures Next(w, e).hidden >= w.hidden && (Next(w, e).hidden > w.hidden <==> Hides(w, e))
  {
    hide Recover, WithProxy;
    match e
    case Start(powers, cleared, proxyPid, monitorPid) =>
      RecoverReports(w, powers);
      RecoverKeepsProcesses(w, powers, cleared, proxyPid);
      RecoverKeepsProcesses(w, powers, cleared, monitorPid);
      WithProxyKeeps(Recover(w, powers), powers, cleared, proxyPid);
    case AbortedStart(powers, cleared, proxyPid) =>
      RecoverReports(w, powers);
      RecoverKeepsProcesses(w, powers, cleared, proxyPid);
      WithProxyKeeps(Recover(w, powers), powers, cleared, proxyPid);
    case Restart(monitor, powers, cleared, proxyPid) =>
      WithProxyKeeps(w, powers, cleared, proxyPid);
    case Shutdown(monitor, powers) =>
      hide ShutDown;
      ShutDownKeeps(w, monitor, powers);
    case _ =>
  }

  ghost predicate NeverHides(w: World, events: seq<Event>)
    decreases |events|
  {
    events == [] || (Enabled(w, events[0]) && !Hides(w, events[0]) && NeverHides(Next(w, events[0]), events[1..]))
  }

  lemma {:induction false} RunKeeps(w: World, events: seq<Event>, t: World)
    requires Inv(w) && Run(w, events, t)
    ensures Inv(t) && w.hidden <= t.hidden
    ensures t.hidden == w.hidden <==> NeverHides(w, events)
    decreases |events|
  {
    hide Inv, Next, Enabled, Hides;
    if events != [] {
      StepKeeps(w, events[0]);
      RunKeeps(Next(w, events[0]), events[1..], t);
    }
  }

  // Main result: over any run of starts, watchdog restarts, crashes, shutdowns and other programs, every
  // crash has been reported by exactly one start or is pending, if and only if no step hid one.
  lemma EveryCrashIsReportedIff(w: World, events: seq<Event>, t: World)
    requires IsFresh(w) && Run(w, events, t)
    ensures t.crashes == t.reported + t.hidden + PendingCrashes(t)
    ensures t.crashes == t.reported + PendingCrashes(t) <==> NeverHides(w, events)
  {
    RunKeeps(w, events, t);
  }

  // ---------- What a start does ----------

  // While a live monitor owns the pid file and its heartbeat is at most two minutes old, a start changes
  // nothing; otherwise it goes ahead and leaves a live monitor and a live mitmdump on file.
  lemma StartGoesAheadIff(w: World, powers: Powers, cleared: set<int>, proxyPid: int, monitorPid: int)
    requires AreLive(w) && Enabled(w, Start(powers, cleared, proxyPid, monitorPid))
    ensures var t := Next(w, Start(powers, cleared, proxyPid, monitorPid));
            if MonitorAlive(w.machine) && w.machine.heartbeatAge.Some? && w.machine.heartbeatAge.value <= 120
            then t == w
            else t.machine.monitorPid == Some(monitorPid) && MonitorAlive(t.machine) && ProxyAlive(t.machine)
                 && monitorPid in t.managers && t.machine.heartbeatAge == Some(0)
                 && t.managers[monitorPid] == if proxyPid in t.spawned then Some(proxyPid) else None
  {
    if !IsRefused(w.machine) {
      RecoverKeepsProcesses(w, powers, cleared, monitorPid);
      RecoverKeepsProcesses(w, powers, cleared, proxyPid);
    }
  }

  // So does a restart leave a live mitmdump on file.
  lemma RestartBringsAProxy(w: World, monitor: int, powers: Powers, cleared: set<int>, proxyPid: int)
    requires AreLive(w) && Enabled(w, Restart(monitor, powers, cleared, proxyPid))
    ensures var t := Next(w, Restart(monitor, powers, cleared, proxyPid));
            && ProxyAlive(t.machine) && monitor in t.managers
            && t.managers[monitor] == if proxyPid in t.spawned then Some(proxyPid) else None
  {
  }

  // A shutdown leaves no pid file, no monitor, the system proxy off as far as the command has effect, and
  // of its own mitmdump, or else the one on file, what may not be signalled.
  lemma ShutdownCleansUp(w: World, monitor: int, powers: Powers)
    requires monitor in w.managers
    ensures var t := Next(w, Shutdown(monitor, powers));
            && t.machine.monitorPid.None? && t.machine.proxyPid.None? && monitor !in t.managers
            && (t.machine.systemProxy <==>
                  w.machine.systemProxy && !(powers.switchLaunches && powers.switchTakesEffect))
    ensures forall pid | pid in w.machine.processes ::
              pid in Next(w, Shutdown(monitor, powers)).machine.processes <==>
                && pid != monitor
                && !(pid in powers.killable
                     && Some(pid) == if w.managers[monitor].Some? then w.managers[monitor] else w.machine.proxyPid)
  {
  }

  // ---------- One monitor, and its pid not reused ----------

  // Another process gets the pid on the monitor's pid file.
  predicate TakesPid(w: World, e: Event) {
    || (e.ProcessStarts? && w.machine.monitorPid == Some(e.pid))
    || (e.Restart? && w.machine.monitorPid == Some(e.proxyPid))
  }

  // A start goes ahead over a monitor that lives.
  predicate Supersedes(w: World, e: Event) {
    e.Start? && w.managers != map[] && !IsRefused(w.machine)
  }

  ghost predicate Quiet(w: World, events: seq<Event>)
    decreases |events|
  {
    events == [] ||
      (Enabled(w, events[0]) && !TakesPid(w, events[0]) && !Supersedes(w, events[0])
       && Quiet(Next(w, events[0]), events[1..]))
  }

  // Only the monitor on file lives, and a crashed monitor's pid is free.
  predicate IsQuiet(w: World) {
    && (forall pid | pid in w.managers :: w.machine.monitorPid == Some(pid))
    && (IsPending(w) ==> !MonitorAlive(w.machine))
  }

  lemma StepKeepsQuiet(w: World, e: Event)
    requires Inv(w) && IsQuiet(w) && Enabled(w, e) && !TakesPid(w, e) && !Supersedes(w, e)
    ensures IsQuiet(Next(w, e)) && !Hides(w, e)
  {
    match e
    case Start(powers, _, _, _) => RecoverReports(w, powers);
    case AbortedStart(powers, _, _) => RecoverReports(w, powers);
    case _ =>
  }

  // Then every crash is reported exactly once.
  lemma {:induction false} QuietRunsHideNothing(w: World, events: seq<Event>, t: World)
    requires Inv(w) && IsQuiet(w) && Run(w, events, t) && Quiet(w, events)
    ensures NeverHides(w, events)
    decreases |events|
  {
    hide Inv, Next, Enabled, Hides, TakesPid, Supersedes, IsQuiet;
    if events != [] {
      StepKeeps(w, events[0]);
      StepKeepsQuiet(w, events[0]);
      QuietRunsHideNothing(Next(w, events[0]), events[1..], t);
    }
  }

  // A first start on an empty machine.
  lemma FirstStart(w: World, powers: Powers)
    requires IsFresh(w) && w.machine.processes == map[]
    ensures Enabled(w, Start(powers, {}, 1, 2))
    ensures var t := Next(w, Start(powers, {}, 1, 2));
            && t.machine.monitorPid == Some(2) && t.machine.heartbeatAge == Some(0)
            && t.machine.processes.Keys == {1, 2} && t.managers.Keys == {2}
            && t.crashes == t.reported == t.hidden == 0
  {
    OneReport(w.machine, powers);
  }

  // Its monitor crashes, another program gets the pid, and two minutes pass.
  lemma PidIsTaken(w: World) returns (t: World)
    requires w.machine.monitorPid == Some(2) && w.machine.heartbeatAge == Some(0)
    requires w.machine.processes.Keys == {1, 2} && w.managers.Keys == {2}
    requires w.crashes == w.reported == w.hidden == 0
    ensures var events := [ProcessEnds(2), ProcessStarts(2, OtherProgram), Wait(121)];
            Run(w, events, t)
    ensures t.machine.monitorPid == Some(2) && t.managers.Keys == {} && t.crashes == 1
    ensures t.reported == t.hidden == 0 && t.machine.heartbeatAge == Some(121)
    ensures t.machine.processes.Keys == {1, 2}
  {
    var events := [ProcessEnds(2), ProcessStarts(2, OtherProgram), Wait(121)];
    var ended := Next(w, events[0]);
    var taken := Next(ended, events[1]);
    t := Next(taken, events[2]);
    assert events[1..] == [events[1], events[2]] && events[1..][1..] == [events[2]] && [events[2]][1..] == [];
    assert Run(t, [], t);
    assert Run(taken, [events[2]], t);
    assert Run(ended, events[1..], t);
  }

  // The next start takes that program for a live monitor.
  lemma NextStart(w: World, powers: Powers)
    requires w.machine.monitorPid == Some(2) && w.managers.Keys == {} && w.machine.processes.Keys == {1, 2}
    requires w.machine.heartbeatAge == Some(121)
    ensures Enabled(w, Start(powers, {}, 3, 4))
    ensures var t := Next(w, Start(powers, {}, 3, 4));
            t.crashes == w.crashes && t.reported == w.reported && PendingCrashes(t) == 0
  {
    OneReport(w.machine, powers);
  }

  lemma {:induction false} RunAppend(w: World, a: seq<Event>, u: World, b: seq<Event>, t: World)
    requires Run(w, a, u) && Run(u, b, t)
    ensures Run(w, a + b, t)
    decreases |a|
  {
    hide Next, Enabled;
    if a == [] {
      assert a + b == b;
    } else {
      assert (a + b)[1..] == a[1..] + b;
      RunAppend(Next(w, a[0]), a[1..], u, b, t);
    }
  }

  lemma OneEvent(w: World, e: Event)
    requires Enabled(w, e)
    ensures Run(w, [e], Next(w, e))
  {
    hide Next;
    assert [e][1..] == [] && Run(Next(w, e), [], Next(w, e));
  }

  // So it does happen that a crash is never reported.
  lemma ReusedPidHidesTheCrash(w: World, powers: Powers) returns (events: seq<Event>, t: World)
    requires IsFresh(w) && w.machine.processes == map[]
    ensures Run(w, events, t) && t.crashes == 1 && t.reported == 0 && PendingCrashes(t) == 0
  {
    hide Next, Enabled, Run;
    var first, last := Start(powers, {}, 1, 2), Start(powers, {}, 3, 4);
    FirstStart(w, powers);
    OneEvent(w, first);
    var started := Next(w, first);
    var taken := PidIsTaken(started);
    var middle := [ProcessEnds(2), ProcessStarts(2, OtherProgram), Wait(121)];
    NextStart(taken, powers);
    OneEvent(taken, last);
    t := Next(taken, last);
    RunAppend(started, middle, taken, [last], t);
    RunAppend(w, [first], started, middle + [last], t);
    events := [first] + (middle + [last]);
  }

  // ---------- At most one mitmdump ----------

  predicate AtMostOne(w: World) {
    forall p, q | p in w.spawned && q in w.spawned :: p == q
  }

  // A start or restart spawns a mitmdump beside a live one that it does not see on file.
  predicate Overlooks(w: World, e: Event) {
    match e
    case Start(powers, cleared, _, _) =>
      !IsRefused(w.machine) && SpawnsBeside(Recover(w, powers), powers, cleared)
    case AbortedStart(powers, cleared, _) =>
      !IsRefused(w.machine) && SpawnsBeside(Recover(w, powers), powers, cleared)
    case Restart(_, powers, cleared, _) => SpawnsBeside(w, powers, cleared)
    case _ => false
  }

  predicate SpawnsBeside(w: World, powers: Powers, cleared: set<int>) {
    w.spawned - cleared != {} && !SeesProxy(w.machine, powers)
  }

  ghost predicate NeverOverlooks(w: World, events: seq<Event>)
    decreases |events|
  {
    events == [] ||
      (Enabled(w, events[0]) && !Overlooks(w, events[0]) && NeverOverlooks(Next(w, events[0]), events[1..]))
  }

  // In this and every later state of the run at most one spawned mitmdump is alive.
  ghost predicate AlwaysAtMostOne(w: World, events: seq<Event>)
    decreases |events|
  {
    AtMostOne(w) && (events == [] || (Enabled(w, events[0]) && AlwaysAtMostOne(Next(w, events[0]), events[1..])))
  }

  // Spawned mitmdumps are live processes.
  predicate AreLive(w: World) {
    forall pid | pid in w.spawned :: IsMitmproxy(w.machine, pid)
  }

  lemma SpawnKeepsOneIff(w: World, powers: Powers, cleared: set<int>, pid: int)
    requires AtMostOne(w) && pid !in w.spawned
    ensures AtMostOne(WithProxy(w, powers, cleared, pid)) <==> !SpawnsBeside(w, powers, cleared)
  {
    if SpawnsBeside(w, powers, cleared) {
      var p := AnyOf(w.spawned - cleared);
      var t := WithProxy(w, powers, cleared, pid);
      assert p in t.spawned && pid in t.spawned && p != pid;
    }
  }

  lemma RecoverKeepsOne(w: World, powers: Powers)
    requires AtMostOne(w)
    ensures AtMostOne(Recover(w, powers)) && Recover(w, powers).spawned <= w.spawned
  {
  }

  lemma StepKeepsOneIff(w: World, e: Event)
    requires AtMostOne(w) && AreLive(w) && Enabled(w, e)
    ensures AtMostOne(Next(w, e)) <==> !Overlooks(w, e)
  {
    hide Recover, WithProxy, SpawnsBeside;
    match e
    case Start(powers, cleared, proxyPid, _) =>
      RecoverKeepsOne(w, powers);
      SpawnKeepsOneIff(Recover(w, powers), powers, cleared, proxyPid);
    case AbortedStart(powers, cleared, proxyPid) =>
      RecoverKeepsOne(w, powers);
      SpawnKeepsOneIff(Recover(w, powers), powers, cleared, proxyPid);
    case Restart(_, powers, cleared, proxyPid) => SpawnKeepsOneIff(w, powers, cleared, proxyPid);
    case _ =>
  }

  lemma RecoverKeepsLive(w: World, powers: Powers)
    requires AreLive(w)
    ensures AreLive(Recover(w, powers))
  {
  }

  lemma StepKeepsLive(w: World, e: Event)
    requires AreLive(w) && Inv(w) && Enabled(w, e)
    ensures AreLive(Next(w, e))
  {
    hide Recover;
    match e
    case Start(powers, cleared, proxyPid, monitorPid) =>
      RecoverKeepsLive(w, powers);
      RecoverKeepsProcesses(w, powers, cleared, monitorPid);
    case AbortedStart(powers, _, _) => RecoverKeepsLive(w, powers);
    case _ =>
  }

  lemma {:induction false} RunKeepsOneIff(w: World, events: seq<Event>, t: World)
    requires AtMostOne(w) && AreLive(w) && Inv(w) && Run(w, events, t)
    ensures AlwaysAtMostOne(w, events) <==> NeverOverlooks(w, events)
    decreases |events|
  {
    hide AtMostOne, AreLive, Inv, Next, Enabled, Overlooks;
    if events != [] {
      var next := Next(w, events[0]);
      StepKeeps(w, events[0]);
      StepKeepsOneIff(w, events[0]);
      StepKeepsLive(w, events[0]);
      if AtMostOne(next) {
        RunKeepsOneIff(next, events[1..], t);
      }
    }
  }

  // Main result: through a whole run at most one spawned mitmdump is alive if and only if no start and
  // no restart goes ahead beside a live one that it does not see on file.
  lemma AtMostOneProxyIff(w: World, events: seq<Event>, t: World)
    requires IsFresh(w) && Run(w, events, t)
    ensures AlwaysAtMostOne(w, events) <==> NeverOverlooks(w, events)
  {
    RunKeepsOneIff(w, events, t);
  }

  // ---------- Orderly runs ----------

  // Every live mitmdump that was spawned is the one on the pid file.
  predicate IsOnFile(w: World) {
    forall pid | pid in w.spawned :: w.machine.proxyPid == Some(pid) && IsMitmproxy(w.machine, pid)
  }

  // For a start or restart that meets the live mitmdump on file, being overlooked comes down to `ps`.
  lemma OnFileIsOverlookedIff(w: World, powers: Powers, cleared: set<int>)
    requires IsOnFile(w) && w.spawned - cleared != {}
    ensures SpawnsBeside(w, powers, cleared) <==> !powers.psAnswers
  {
    var p := AnyOf(w.spawned - cleared);
  }

  // `ps` answers every start and restart, and a shutdown stops the mitmdump there is.
  predicate IsOrderly(w: World, e: Event) {
    match e
    case Start(powers, _, _, _) => powers.psAnswers
    case AbortedStart(powers, _, _) => powers.psAnswers
    case Restart(_, powers, _, _) => powers.psAnswers
    case Shutdown(monitor, powers) =>
      monitor in w.managers && w.spawned <= (if Victim(w, monitor).Some? then {Victim(w, monitor).value} else {})
      && w.spawned <= powers.killable
    case _ => true
  }

  ghost predicate OrderlyRun(w: World, events: seq<Event>)
    decreases |events|
  {
    events == [] || (Enabled(w, events[0]) && IsOrderly(w, events[0]) && OrderlyRun(Next(w, events[0]), events[1..]))
  }

  lemma RecoverKeepsOnFile(w: World, powers: Powers)
    requires IsOnFile(w) && powers.psAnswers
    ensures IsOnFile(Recover(w, powers))
  {
  }

  lemma OnFileIsSeen(w: World, powers: Powers)
    requires IsOnFile(w) && powers.psAnswers && w.spawned != {}
    ensures SeesProxy(w.machine, powers)
  {
    var p := AnyOf(w.spawned);
  }

  lemma OrderlySpawn(w: World, powers: Powers, cleared: set<int>, pid: int)
    requires IsOnFile(w) && powers.psAnswers && IsUnused(w.machine, pid)
    ensures IsOnFile(WithProxy(w, powers, cleared, pid)) && !SpawnsBeside(w, powers, cleared)
  {
    if w.spawned != {} {
      OnFileIsSeen(w, powers);
    } else {
      assert w.spawned - cleared == {};
    }
  }

  lemma StepIsOrderly(w: World, e: Event)
    requires IsOnFile(w) && Enabled(w, e) && IsOrderly(w, e)
    ensures IsOnFile(Next(w, e)) && !Overlooks(w, e)
  {
    hide Recover, WithProxy, SpawnsBeside;
    match e
    case Start(powers, cleared, proxyPid, monitorPid) =>
      RecoverKeepsOnFile(w, powers);
      RecoverKeepsProcesses(w, powers, cleared, proxyPid);
      OrderlySpawn(Recover(w, powers), powers, cleared, proxyPid);
      RecoverKeepsProcesses(w, powers, cleared, monitorPid);
      MonitorIsNoProxy(Recover(w, powers), powers, cleared, proxyPid, monitorPid);
    case AbortedStart(powers, cleared, proxyPid) =>
      RecoverKeepsOnFile(w, powers);
      RecoverKeepsProcesses(w, powers, cleared, proxyPid);
      OrderlySpawn(Recover(w, powers), powers, cleared, proxyPid);
    case Restart(_, powers, cleared, proxyPid) => OrderlySpawn(w, powers, cleared, proxyPid);
    case _ =>
  }

  lemma MonitorIsNoProxy(w: World, powers: Powers, cleared: set<int>, proxyPid: int, monitorPid: int)
    requires IsUnused(w.machine, monitorPid) && IsOnFile(w) && proxyPid != monitorPid
    ensures monitorPid !in WithProxy(w, powers, cleared, proxyPid).spawned
  {
  }

  // So in an orderly run nothing is overlooked, and the one mitmdump is the one on file.
  lemma {:induction false} OrderlyRunsOverlookNothing(w: World, events: seq<Event>, t: World)
    requires IsOnFile(w) && Run(w, events, t) && OrderlyRun(w, events)
    ensures NeverOverlooks(w, events) && IsOnFile(t)
    decreases |events|
  {
    hide IsOnFile, Next, Enabled, IsOrderly, Overlooks;
    if events != [] {
      StepIsOrderly(w, events[0]);
      OrderlyRunsOverlookNothing(Next(w, events[0]), events[1..], t);
    }
  }

  lemma AtMostOneProxy(w: World, events: seq<Event>, t: World)
    requires IsFresh(w) && Run(w, events, t) && OrderlyRun(w, events)
    ensures AlwaysAtMostOne(w, events) && IsOnFile(t)
  {
    OrderlyRunsOverlookNothing(w, events, t);
    AtMostOneProxyIff(w, events, t);
  }

  // When `ps` fails a start overlooks the mitmdump on file and spawns a second one.
  lemma StartWithoutPsSpawnsAnother(w: World, powers: Powers, proxyPid: int, monitorPid: int, p: int)
    requires IsOnFile(w) && p in w.spawned && !IsRefused(w.machine) && !powers.psAnswers
    requires Enabled(w, Start(powers, {}, proxyPid, monitorPid))
    ensures var t := Next(w, Start(powers, {}, proxyPid, monitorPid));
            p in t.spawned && proxyPid in t.spawned && p != proxyPid && t.machine.proxyPid == Some(proxyPid)
  {
  }
}
