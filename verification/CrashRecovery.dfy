/** Crash recovery at start-up: the wreckage a dead monitor leaves behind is detected and removed. */
module CrashRecovery {
  import opened Wrappers

  const HEARTBEAT_STALE_SECONDS := 120

  // What `ps` says of a live process.
  datatype Kind = Mitmproxy | OtherProgram

  // The machine as detect_stale_state sees it: live processes by pid, the two pid files (None when
  // missing or malformed), the system proxy switch, and the heartbeat file's age when it has one.
  datatype Machine = Machine(
    processes: map<int, Kind>,
    monitorPid: Option<int>,
    proxyPid: Option<int>,
    systemProxy: bool,
    heartbeatAge: Option<int>)

  // What the operating system lets through: which processes may be signalled, whether `ps` answers,
  // whether the proxy setting can be read, whether the command that switches it off can be launched,
  // and whether launching it has any effect. The program only learns that it was launched.
  datatype Powers = Powers(
    killable: set<int>,
    psAnswers: bool,
    proxyIsRead: bool,
    switchLaunches: bool,
    switchTakesEffect: bool)

  datatype Fix =
    | KilledOrphan(pid: int)
    | DisabledProxy
    | RemovedMonitorPid(pid: int)

  predicate IsAlive(m: Machine, pid: int) {
    pid > 0 && pid in m.processes
  }

  predicate MonitorAlive(m: Machine) {
    m.monitorPid.Some? && IsAlive(m, m.monitorPid.value)
  }

  predicate IsMitmproxy(m: Machine, pid: int) {
    IsAlive(m, pid) && m.processes[pid] == Mitmproxy
  }

  predicate ProxyAlive(m: Machine) {
    m.proxyPid.Some? && IsMitmproxy(m, m.proxyPid.value)
  }

  // A mitmdump named by the pid file while no monitor lives.
  predicate HasOrphan(m: Machine) {
    ProxyAlive(m) && !MonitorAlive(m)
  }

  // What the program makes of the proxy pid file: without an answer from `ps` it sees no mitmdump.
  predicate SeesProxy(m: Machine, powers: Powers) {
    ProxyAlive(m) && powers.psAnswers
  }

  // SIGTERM, then SIGKILL for what survives; EPERM leaves the process alone.
  function Killed(m: Machine, pid: int, powers: Powers): Machine {
    if pid in powers.killable then m.(processes := m.processes - {pid}) else m
  }

  // The four cases in order. The two liveness verdicts are taken once, at the start.
  function Recovered(m: Machine, powers: Powers): (r: (Machine, seq<Fix>)) {
    var monitorAlive, proxyAlive := MonitorAlive(m), SeesProxy(m, powers);
    var kills := proxyAlive && !monitorAlive;
    var m1 := if kills then Killed(m, m.proxyPid.value, powers) else m;
    var f1 := if kills && m.proxyPid.value in powers.killable then [KilledOrphan(m.proxyPid.value)] else [];
    var disables := m1.systemProxy && powers.proxyIsRead && !monitorAlive && powers.switchLaunches;
    var m2 := if disables && powers.switchTakesEffect then m1.(systemProxy := false) else m1;
    var f2 := if disables then [DisabledProxy] else [];
    var forgets := m.monitorPid.Some? && m.monitorPid.value != 0 && !monitorAlive;
    var m3 := if forgets then m2.(monitorPid := None) else m2;
    var f3 := if forgets && m.monitorPid.value > 0 then [RemovedMonitorPid(m.monitorPid.value)] else [];
    var m4 := if m.proxyPid.Some? && m.proxyPid.value != 0 && !proxyAlive then m3.(proxyPid := None) else m3;
    var stale := m4.heartbeatAge.Some? && m4.heartbeatAge.value > HEARTBEAT_STALE_SECONDS && !monitorAlive;
    (if stale then m4.(heartbeatAge := None) else m4, f1 + f2 + f3)
  }

  class Host {
    var machine: Machine

    constructor (machine: Machine)
      ensures this.machine == machine
    {
      this.machine := machine;
    }

    method Kill(pid: int, powers: Powers) returns (permitted: bool)
      modifies this
      ensures machine == Killed(old(machine), pid, powers) && permitted == (pid in powers.killable)
    {
      permitted := pid in powers.killable;
      if permitted {
        machine := machine.(processes := machine.processes - {pid});
      }
    }

    // True when the command was launched, whatever came of it.
    method DisableSystemProxy(powers: Powers) returns (launched: bool)
      modifies this
      ensures launched == powers.switchLaunches
      ensures machine == old(machine).(systemProxy :=
                old(machine).systemProxy && !(powers.switchLaunches && powers.switchTakesEffect))
    {
      launched := powers.switchLaunches;
      if launched && powers.switchTakesEffect {
        machine := machine.(systemProxy := false);
      }
    }

    method DetectStaleState(powers: Powers) returns (fixes: seq<Fix>)
      modifies this
      ensures (machine, fixes) == Recovered(old(machine), powers)
    {
      fixes := [];
      var monitorPid, proxyPid := machine.monitorPid, machine.proxyPid;
      var monitorAlive, proxyAlive := MonitorAlive(machine), SeesProxy(machine, powers);
      if proxyAlive && !monitorAlive {
        var permitted := Kill(proxyPid.value, powers);
        if permitted {
          fixes := fixes + [KilledOrphan(proxyPid.value)];
        }
      }
      if machine.systemProxy && powers.proxyIsRead && !monitorAlive {
        var launched := DisableSystemProxy(powers);
        if launched {
          fixes := fixes + [DisabledProxy];
        }
      }
      if monitorPid.Some? && monitorPid.value != 0 && !monitorAlive {
        machine := machine.(monitorPid := None);
        if monitorPid.value > 0 {
          fixes := fixes + [RemovedMonitorPid(monitorPid.value)];
        }
      }
      if proxyPid.Some? && proxyPid.value != 0 && !proxyAlive {
        machine := machine.(proxyPid := None);
      }
      if machine.heartbeatAge.Some? && machine.heartbeatAge.value > HEARTBEAT_STALE_SECONDS && !monitorAlive {
        machine := machine.(heartbeatAge := None);
      }
      assert fixes == Fixes(old(machine), powers);
    }
  }

  function Next(m: Machine, powers: Powers): Machine {
    Recovered(m, powers).0
  }

  function Fixes(m: Machine, powers: Powers): seq<Fix> {
    Recovered(m, powers).1
  }

  // The powers recovery needs: to see and kill the orphan on file, and to see the system proxy and
  // switch it off to some effect.
  predicate Effective(m: Machine, powers: Powers) {
    && (HasOrphan(m) ==> powers.psAnswers && m.proxyPid.value in powers.killable)
    && (m.systemProxy ==> powers.proxyIsRead && powers.switchLaunches && powers.switchTakesEffect)
  }

  // Nothing is left of the wreckage of m: the mitmdump it had on file is gone, the system proxy is
  // off, and the monitor's pid file names nobody.
  predicate IsCleared(m: Machine, after: Machine) {
    && (m.proxyPid.Some? ==> !IsMitmproxy(after, m.proxyPid.value))
    && !after.systemProxy
    && (after.monitorPid.Some? ==> after.monitorPid.value <= 0)
  }

  // Main result: with a dead monitor, the wreckage is gone after one call exactly when the powers
  // reach it.
  lemma RecoveryClearsIffEffective(m: Machine, powers: Powers)
    requires !MonitorAlive(m)
    ensures IsCleared(m, Next(m, powers)) <==> Effective(m, powers)
  {
  }

  // With a live monitor nothing is killed, the proxy switch and the monitor's files stay, and the
  // proxy pid file goes only when it is seen to name no mitmdump.
  lemma LiveMonitorIsLeftAlone(m: Machine, powers: Powers)
    requires MonitorAlive(m)
    ensures Fixes(m, powers) == []
    ensures Next(m, powers)
         == m.(proxyPid := if SeesProxy(m, powers) || m.proxyPid == Some(0) then m.proxyPid else None)
  {
  }

  // No process but the orphan on file is ever touched.
  lemma OnlyTheOrphanIsKilled(m: Machine, powers: Powers, pid: int)
    requires pid in m.processes && pid !in Next(m, powers).processes
    ensures HasOrphan(m) && m.proxyPid == Some(pid)
  {
  }

  // A second call reports nothing, and a third changes nothing.
  lemma SecondCallIsQuiet(m: Machine, powers: Powers)
    requires !MonitorAlive(m) && Effective(m, powers)
    ensures Fixes(Next(m, powers), powers) == []
    ensures var twice := Next(Next(m, powers), powers); Recovered(twice, powers) == (twice, [])
  {
  }

  // Exactly when a call leaves a proxy pid file that names no live mitmdump: it killed the orphan
  // the file names, or the file held 0, which reads as no pid.
  lemma StalePidFileRemainsIff(m: Machine, powers: Powers)
    ensures var after := Next(m, powers);
            after.proxyPid.Some? && !ProxyAlive(after) <==>
              m.proxyPid == Some(0) || (HasOrphan(m) && powers.psAnswers && m.proxyPid.value in powers.killable)
  {
  }

  // And when one loses the pid file of a live mitmdump.
  lemma LivePidFileIsLostIff(m: Machine, powers: Powers)
    requires ProxyAlive(m)
    ensures Next(m, powers).proxyPid.None? <==> !powers.psAnswers
  {
  }

  // ---------- The report ----------

  // The system proxy is on, is seen to be, and the command that switches it off can be launched.
  predicate ReportsProxy(m: Machine, powers: Powers) {
    m.systemProxy && !MonitorAlive(m) && powers.proxyIsRead && powers.switchLaunches
  }

  // Exactly when each fix is reported. For the system proxy that does not ask for any effect.
  lemma FixesTellTheDamage(m: Machine, powers: Powers)
    ensures forall pid :: KilledOrphan(pid) in Fixes(m, powers) <==>
              HasOrphan(m) && m.proxyPid == Some(pid) && powers.psAnswers && pid in powers.killable
    ensures DisabledProxy in Fixes(m, powers) <==> ReportsProxy(m, powers)
    ensures forall pid :: RemovedMonitorPid(pid) in Fixes(m, powers) <==>
              m.monitorPid == Some(pid) && pid > 0 && pid !in m.processes
  {
    if HasOrphan(m) && powers.psAnswers && m.proxyPid.value in powers.killable {
      assert Fixes(m, powers)[0] == KilledOrphan(m.proxyPid.value);
    }
  }

  // When each of the files goes.
  lemma FilesGoIff(m: Machine, powers: Powers)
    ensures var after, dead := Next(m, powers), !MonitorAlive(m);
            && (after.heartbeatAge != m.heartbeatAge <==> dead && m.heartbeatAge.Some? && m.heartbeatAge.value > 120)
            && (after.monitorPid != m.monitorPid <==> dead && m.monitorPid.Some? && m.monitorPid.value != 0)
            && (after.proxyPid != m.proxyPid <==>
                  m.proxyPid.Some? && m.proxyPid.value != 0 && !(ProxyAlive(m) && powers.psAnswers))
            && (after.heartbeatAge in {m.heartbeatAge, None} && after.monitorPid in {m.monitorPid, None}
                && after.proxyPid in {m.proxyPid, None})
  {
  }

  // Which process ends, and when the system proxy goes off.
  lemma ProcessEndsIff(m: Machine, powers: Powers, pid: int)
    requires pid in m.processes
    ensures pid !in Next(m, powers).processes <==>
              m.proxyPid == Some(pid) && HasOrphan(m) && powers.psAnswers && pid in powers.killable
    ensures Next(m, powers).processes.Keys <= m.processes.Keys
    ensures pid in Next(m, powers).processes ==> Next(m, powers).processes[pid] == m.processes[pid]
    ensures Next(m, powers).systemProxy <==> m.systemProxy && !(ReportsProxy(m, powers) && powers.switchTakesEffect)
  {
  }

  // What a fix says has come about.
  predicate HasHappened(fix: Fix, after: Machine) {
    match fix
    case KilledOrphan(pid) => pid !in after.processes
    case DisabledProxy => !after.systemProxy
    case RemovedMonitorPid(_) => after.monitorPid.None?
  }

  // The whole report is true exactly when the switch has effect wherever it is launched.
  lemma ReportIsTrueIff(m: Machine, powers: Powers)
    ensures (forall fix | fix in Fixes(m, powers) :: HasHappened(fix, Next(m, powers))) <==>
              (ReportsProxy(m, powers) ==> powers.switchTakesEffect)
  {
    FixesTellTheDamage(m, powers);
  }

  // The machine after n calls.
  function Calls(m: Machine, powers: Powers, n: nat): Machine {
    if n == 0 then m else Next(Calls(m, powers, n - 1), powers)
  }

  // A switch without effect is reported as a fix by every call, for ever.
  lemma {:induction false} FalseFixIsRepeated(m: Machine, powers: Powers, n: nat)
    requires ReportsProxy(m, powers) && !powers.switchTakesEffect
    ensures var before := Calls(m, powers, n);
            && ReportsProxy(before, powers)
            && DisabledProxy in Fixes(before, powers) && Next(before, powers).systemProxy
  {
    hide Next, Fixes, MonitorAlive;
    if n > 0 {
      FalseFixIsRepeated(m, powers, n - 1);
      FalseFixPersists(Calls(m, powers, n - 1), powers);
    }
    FalseFixPersists(Calls(m, powers, n), powers);
  }

  lemma FalseFixPersists(m: Machine, powers: Powers)
    requires ReportsProxy(m, powers) && !powers.switchTakesEffect
    ensures DisabledProxy in Fixes(m, powers) && ReportsProxy(Next(m, powers), powers)
  {
    FixesTellTheDamage(m, powers);
  }
}
