/** Orphan classification: which listeners on the proxy port may be killed, decided from probes
    that can fail, and what killing them does. */
module Orphans {
  import opened Wrappers
  import opened Text

  // A process as the system knows it.
  datatype Process = Process(parent: int, command: string)

  // What one call of `ps` yields: a value, output that is no number, or an exception.
  datatype Answer<T> = Found(value: T) | Garbled | Unavailable

  datatype Probes = Probes(parent: map<int, Answer<int>>, command: map<int, Answer<string>>)

  // One line of the port listing; None when its pid column is missing or not a number.
  type Listing = seq<Option<int>>

  predicate StandsAt(text: string, i: nat, word: string) {
    i + |word| <= |text| && text[i..i + |word|] == word
  }

  predicate Mentions(text: string, word: string) {
    exists i :: 0 <= i <= |text| && StandsAt(text, i, word)
  }

  predicate IsAlive(table: map<int, Process>, pid: int) {
    pid > 0 && pid in table
  }

  // ---------- What is true ----------

  predicate NamesMitmproxy(command: string) {
    Mentions(Lower(command), "mitmdump") || Mentions(Lower(command), "claude_monitoring.watch")
  }

  predicate NamesMonitor(command: string) {
    Mentions(Lower(command), "ai-monitor") && Mentions(Lower(command), "--start")
  }

  predicate IsMitmproxy(table: map<int, Process>, pid: int) {
    IsAlive(table, pid) && NamesMitmproxy(table[pid].command)
  }

  // The parent is alive, not init, and a started monitor.
  predicate HasMonitorParent(table: map<int, Process>, pid: int) {
    && IsAlive(table, pid)
    && table[pid].parent > 1 && IsAlive(table, table[pid].parent)
    && NamesMonitor(table[table[pid].parent].command)
  }

  // ---------- What the probes say ----------

  function ParentOf(probes: Probes, pid: int): Answer<int> {
    if pid in probes.parent then probes.parent[pid] else Unavailable
  }

  function CommandOf(probes: Probes, pid: int): Answer<string> {
    if pid in probes.command then probes.command[pid] else Unavailable
  }

  // Probes may fail, but those that answer tell the truth.
  predicate Truthful(probes: Probes, table: map<int, Process>) {
    && (forall pid | pid in probes.parent && pid in table && probes.parent[pid].Found? ::
          probes.parent[pid].value == table[pid].parent)
    && (forall pid | pid in probes.command && pid in table && probes.command[pid].Found? ::
          probes.command[pid].value == table[pid].command)
    && (forall pid | pid in probes.command :: !probes.command[pid].Garbled?)
  }

  // Every probe the decision needs has answered.
  predicate Conclusive(table: map<int, Process>, probes: Probes, pid: int) {
    && CommandOf(probes, pid).Found?
    && ParentOf(probes, pid).Found?
    && (ParentOf(probes, pid).value > 1 && IsAlive(table, ParentOf(probes, pid).value) ==>
          CommandOf(probes, ParentOf(probes, pid).value).Found?)
  }

  // ---------- The code's decisions ----------

  method IsMitmproxyProcess(table: map<int, Process>, probes: Probes, pid: int) returns (yes: bool)
    requires Truthful(probes, table)
    ensures yes <==> IsMitmproxy(table, pid) && CommandOf(probes, pid).Found?
  {
    if !IsAlive(table, pid) {
      return false;
    }
    var command := CommandOf(probes, pid);
    if !command.Found? {
      return false;
    }
    var text := Lower(command.value);
    return Mentions(text, "mitmdump") || Mentions(text, "claude_monitoring.watch");
  }

  // Uncertainty answers true: do not kill.
  method IsChildOfRunningMonitor(table: map<int, Process>, probes: Probes, pid: int) returns (yes: bool)
    requires Truthful(probes, table)
    ensures HasMonitorParent(table, pid) ==> yes
    ensures CommandOf(probes, pid).Found? && IsAlive(table, pid) ==>
              (yes <==> HasMonitorParent(table, pid) || !Conclusive(table, probes, pid))
    ensures !IsAlive(table, pid) ==> !yes
  {
    if !IsAlive(table, pid) {
      return false;
    }
    var parent := ParentOf(probes, pid);
    if !parent.Found? {
      return true;
    }
    if parent.value <= 1 {
      return false;
    }
    if !IsAlive(table, parent.value) {
      return false;
    }
    var command := CommandOf(probes, parent.value);
    if !command.Found? {
      return true;
    }
    var text := Lower(command.value);
    return Mentions(text, "ai-monitor") && Mentions(text, "--start");
  }

  // A listener that may be killed.
  predicate IsVictim(table: map<int, Process>, probes: Probes, exclude: Option<int>, pid: int) {
    && exclude != Some(pid)
    && IsMitmproxy(table, pid) && !HasMonitorParent(table, pid)
    && Conclusive(table, probes, pid)
  }

  function Victims(table: map<int, Process>, probes: Probes, exclude: Option<int>, listing: Listing): seq<int> {
    if listing == [] then []
    else
      var n := |listing| - 1;
      Victims(table, probes, exclude, listing[..n]) +
      if listing[n].Some? && IsVictim(table, probes, exclude, listing[n].value) then [listing[n].value] else []
  }

  function Lines(listing: Option<Listing>): Listing {
    if listing.Some? then listing.value else []
  }

  // The listing is absent when the command that produces it fails.
  method FindOrphanMitmproxyOnPort(
      table: map<int, Process>, probes: Probes, listing: Option<Listing>, exclude: Option<int>)
      returns (pids: seq<int>)
    requires Truthful(probes, table)
    ensures pids == Victims(table, probes, exclude, Lines(listing))
  {
    pids := [];
    if listing.None? {
      return;
    }
    var lines := listing.value;
    for i := 0 to |lines|
      invariant pids == Victims(table, probes, exclude, lines[..i])
    {
      assert lines[..i + 1][..i] == lines[..i];
      if lines[i].None? {
        continue;
      }
      var pid := lines[i].value;
      if exclude.Some? && pid == exclude.value {
        continue;
      }
      var mitmproxy := IsMitmproxyProcess(table, probes, pid);
      if !mitmproxy {
        continue;
      }
      var child := IsChildOfRunningMonitor(table, probes, pid);
      if child {
        continue;
      }
      pids := pids + [pid];
    }
    assert lines[..|lines|] == lines;
  }

  lemma {:induction false} VictimsAreExact(
      table: map<int, Process>, probes: Probes, exclude: Option<int>, listing: Listing, pid: int)
    ensures pid in Victims(table, probes, exclude, listing)
       <==> Some(pid) in listing && IsVictim(table, probes, exclude, pid)
    decreases |listing|
  {
    if listing != [] {
      var n := |listing| - 1;
      VictimsAreExact(table, probes, exclude, listing[..n], pid);
      assert listing == listing[..n] + [listing[n]];
    }
  }

  // ---------- Killing them ----------

  // Which processes we may signal, and which of them SIGTERM is enough for.
  datatype Powers = Powers(killable: set<int>, obedient: set<int>)

  class ProcessTable {
    var table: map<int, Process>

    constructor (table: map<int, Process>)
      ensures this.table == table
    {
      this.table := table;
    }

    // SIGTERM to every victim, a wait, then SIGKILL to those still alive.
    method KillOrphanMitmproxy(probes: Probes, listing: Option<Listing>, exclude: Option<int>, powers: Powers)
        returns (victims: seq<int>)
      requires Truthful(probes, table)
      modifies this
      ensures victims == Victims(old(table), probes, exclude, Lines(listing))
      ensures table == Survivors(old(table), victims, powers)
    {
      victims := FindOrphanMitmproxyOnPort(table, probes, listing, exclude);
      ghost var before, terminated := table, Survivors(table, victims, Powers(powers.killable * powers.obedient, {}));
      NobodyKilled(table, Powers(powers.killable * powers.obedient, {}));
      for i := 0 to |victims|
        invariant table == Survivors(before, victims[..i], Powers(powers.killable * powers.obedient, {}))
      {
        OneMoreKilled(before, victims, i, Powers(powers.killable * powers.obedient, {}));
        if victims[i] in powers.killable && victims[i] in powers.obedient {
          table := table - {victims[i]};
        }
      }
      assert victims[..|victims|] == victims;
      VictimsArePositive(before, probes, exclude, Lines(listing));
      NobodyKilled(terminated, powers);
      for i := 0 to |victims|
        invariant table == Survivors(terminated, victims[..i], powers)
      {
        OneMoreKilled(terminated, victims, i, powers);
        assert victims[i] in victims;
        if IsAlive(table, victims[i]) && victims[i] in powers.killable {
          table := table - {victims[i]};
        }
      }
      TwoRounds(before, victims, powers);
    }
  }

  lemma NobodyKilled(table: map<int, Process>, powers: Powers)
    ensures Survivors(table, [], powers) == table
  {
  }

  lemma OneMoreKilled(table: map<int, Process>, victims: seq<int>, i: nat, powers: Powers)
    requires i < |victims|
    ensures var now := Survivors(table, victims[..i], powers);
            && Survivors(table, victims[..i + 1], powers)
               == (if victims[i] in powers.killable then now - {victims[i]} else now)
            && (victims[i] !in now ==> now - {victims[i]} == now)
  {
    assert victims[..i + 1] == victims[..i] + [victims[i]];
  }

  lemma VictimsArePositive(table: map<int, Process>, probes: Probes, exclude: Option<int>, listing: Listing)
    ensures forall v | v in Victims(table, probes, exclude, listing) :: v > 0
  {
    forall v | v in Victims(table, probes, exclude, listing)
      ensures v > 0
    {
      VictimsAreExact(table, probes, exclude, listing, v);
    }
  }

  // SIGTERM and then SIGKILL leave what SIGKILL alone would.
  lemma TwoRounds(table: map<int, Process>, victims: seq<int>, powers: Powers)
    ensures Survivors(Survivors(table, victims, Powers(powers.killable * powers.obedient, {})), victims, powers)
         == Survivors(table, victims, powers)
  {
  }

  // What KillOrphanMitmproxy leaves alive.
  function Survivors(table: map<int, Process>, victims: seq<int>, powers: Powers): map<int, Process> {
    table - (set v | v in victims && v in powers.killable)
  }

  // Main result: whatever probes fail, a process dies exactly when it is listed on the port, may be
  // signalled, is not excluded, is a live mitmproxy, provably has no monitor for a parent, and every
  // probe needed to know so has answered. So a live monitor never loses its child.
  lemma DiesIffProvablyOrphan(
      table: map<int, Process>, probes: Probes, listing: Listing, exclude: Option<int>, powers: Powers, pid: int)
    requires pid in table
    ensures pid !in Survivors(table, Victims(table, probes, exclude, listing), powers)
       <==> && Some(pid) in listing && pid in powers.killable && exclude != Some(pid)
            && IsMitmproxy(table, pid) && !HasMonitorParent(table, pid) && Conclusive(table, probes, pid)
  {
    VictimsAreExact(table, probes, exclude, listing, pid);
  }

  // `more` answers every probe that `fewer` answers, and the same.
  ghost predicate Extends(more: Probes, fewer: Probes) {
    && (forall pid :: ParentOf(fewer, pid).Found? ==> ParentOf(more, pid) == ParentOf(fewer, pid))
    && (forall pid :: CommandOf(fewer, pid).Found? ==> CommandOf(more, pid) == CommandOf(fewer, pid))
  }

  // A probe that fails can only spare processes.
  lemma FailedProbesOnlySpare(
      table: map<int, Process>, more: Probes, fewer: Probes, listing: Listing, exclude: Option<int>, pid: int)
    requires Extends(more, fewer)
    requires pid in Victims(table, fewer, exclude, listing)
    ensures pid in Victims(table, more, exclude, listing)
  {
    VictimsAreExact(table, fewer, exclude, listing, pid);
    VictimsAreExact(table, more, exclude, listing, pid);
  }

  // The list returned may name survivors: those we were not allowed to signal.
  lemma ReturnedMayHaveSurvived(
      table: map<int, Process>, probes: Probes, listing: Listing, exclude: Option<int>, powers: Powers, pid: int)
    requires pid in Victims(table, probes, exclude, listing)
    ensures pid in Survivors(table, Victims(table, probes, exclude, listing), powers) <==> pid !in powers.killable
  {
    VictimsAreExact(table, probes, exclude, listing, pid);
  }

  // ---------- Which commands are recognised ----------

  lemma StandsInside(a: string, word: string, b: string)
    ensures Mentions(a + word + b, word)
  {
    assert (a + word + b)[|a|..|a| + |word|] == word;
    assert StandsAt(a + word + b, |a|, word);
  }

  lemma LowerAppend(a: string, b: string)
    ensures Lower(a + b) == Lower(a) + Lower(b)
  {
  }

  // Whatever its case and whatever stands around it, a command that holds mitmdump is a mitmproxy's,
  lemma MitmdumpIsRecognised(a: string, word: string, b: string)
    requires Lower(word) == "mitmdump" || Lower(word) == "claude_monitoring.watch"
    ensures NamesMitmproxy(a + word + b)
  {
    LowerAppend(a + word, b);
    LowerAppend(a, word);
    StandsInside(Lower(a), Lower(word), Lower(b));
  }

  // and one that starts ai-monitor is a monitor's,
  lemma StartedMonitorIsRecognised(a: string, name: string, b: string, option: string, c: string)
    requires Lower(name) == "ai-monitor" && Lower(option) == "--start"
    ensures NamesMonitor(a + name + b + option + c)
  {
    var command := a + name + b + option + c;
    LowerAppend(a + name + b + option, c);
    LowerAppend(a + name + b, option);
    LowerAppend(a + name, b);
    LowerAppend(a, name);
    assert Lower(command) == Lower(a) + Lower(name) + (Lower(b) + Lower(option) + Lower(c));
    StandsInside(Lower(a), Lower(name), Lower(b) + Lower(option) + Lower(c));
    StandsInside(Lower(a) + Lower(name) + Lower(b), Lower(option), Lower(c));
  }

  // but none without an option: two hyphens side by side.
  lemma UnstartedMonitorIsNot(command: string)
    requires forall i | 0 <= i < |command| - 1 :: !(command[i] == '-' && command[i + 1] == '-')
    ensures !NamesMonitor(command)
  {
    var text := Lower(command);
    forall i | 0 <= i <= |text|
      ensures !StandsAt(text, i, "--start")
    {
      LetterStands(text, i, "--start", 0);
      LetterStands(text, i, "--start", 1);
    }
  }

  lemma LetterStands(text: string, i: nat, word: string, j: nat)
    requires j < |word|
    ensures StandsAt(text, i, word) ==> text[i + j] == word[j]
  {
    if StandsAt(text, i, word) {
      assert text[i..i + |word|][j] == text[i + j];
    }
  }

  // So whatever probes fail, a process whose parent lives and was started as a monitor survives.
  lemma ChildrenOfMonitorsSurvive(
      table: map<int, Process>, probes: Probes, listing: Listing, exclude: Option<int>, powers: Powers, pid: int,
      a: string, name: string, b: string, option: string, c: string)
    requires pid > 0 && pid in table && table[pid].parent > 1 && table[pid].parent in table
    requires table[table[pid].parent].command == a + name + b + option + c
    requires Lower(name) == "ai-monitor" && Lower(option) == "--start"
    ensures pid in Survivors(table, Victims(table, probes, exclude, listing), powers)
  {
    hide NamesMonitor, NamesMitmproxy;
    StartedMonitorIsRecognised(a, name, b, option, c);
    DiesIffProvablyOrphan(table, probes, listing, exclude, powers, pid);
  }
}
