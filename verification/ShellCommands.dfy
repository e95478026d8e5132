/** The install-command parser inside a shell command line: other commands around the install command,
    redirects behind it, a wrapper such as `docker exec` before it, and npx. */
module ShellCommands {
  import opened Wrappers
  import opened Text
  import opened SupplyTables
  import opened InstallParser
  import opened PrintedTokens
  import opened InstallRoundTrip

  // ---------- Other commands around it ----------

  predicate IsOperator(op: string) {
    op == "|" || op == "||" || op == "&&" || op == ";"
  }

  // A single command: it holds no character of an operator.
  predicate IsSingle(s: string) {
    forall i | 0 <= i < |s| :: s[i] != '|' && s[i] != '&' && s[i] != ';'
  }

  lemma {:induction false} OperatorAfter(a: string, op: string, b: string, i: nat)
    requires IsSingle(a) && IsOperator(op) && i <= |a|
    ensures NextOperator(a + op + b, i) == |a|
    decreases |a| - i
  {
    var s := a + op + b;
    if i < |a| {
      OccurrenceAgrees(s, i, "||", 0);
      OccurrenceAgrees(s, i, "&&", 0);
      assert s[i] == a[i];
      OperatorAfter(a, op, b, i + 1);
    } else {
      assert s[|a|..|a| + |op|] == op;
    }
  }

  lemma OperatorIsWhole(a: string, op: string, b: string)
    requires IsOperator(op) && (op == "|" ==> b == "" || b[0] != '|')
    ensures OperatorLength(a + op + b, |a|) == |op|
  {
    var s := a + op + b;
    assert s[|a|..|a| + |op|] == op;
    assert s[|a|] == op[0];
    if op == "|" {
      assert |s| > |a| + 1 ==> s[|a| + 1] == b[0];
      OccurrenceAgrees(s, |a|, "||", 1);
      OccurrenceAgrees(s, |a|, "&&", 0);
    }
    if op == ";" {
      OccurrenceAgrees(s, |a|, "||", 0);
      OccurrenceAgrees(s, |a|, "&&", 0);
    }
  }

  lemma SegmentsAfter(a: string, op: string, b: string)
    requires IsSingle(a) && IsOperator(op) && (op == "|" ==> b == "" || b[0] != '|')
    ensures Segments(a + op + b) == [a] + Segments(b)
  {
    hide OperatorLength, NextOperator;
    var s := a + op + b;
    OperatorAfter(a, op, b, 0);
    OperatorIsWhole(a, op, b);
    assert s[..|a|] == a && s[|a| + |op|..] == b;
  }

  lemma {:induction false} NoOperatorInside(a: string, i: nat)
    requires IsSingle(a) && i <= |a|
    ensures NextOperator(a, i) == |a|
    decreases |a| - i
  {
    if i < |a| {
      OccurrenceAgrees(a, i, "||", 0);
      OccurrenceAgrees(a, i, "&&", 0);
      NoOperatorInside(a, i + 1);
    }
  }

  // The first command that contains an install pattern decides, whatever stands behind it and whatever
  // other commands stand before it.
  lemma FirstInstallDecides(a: string, op: string, b: string)
    requires IsSingle(a) && IsOperator(op) && (op == "|" ==> b == "" || b[0] != '|')
    ensures InstallCommandPackages(a + op + b)
         == if HasPattern(Strip(a)) then InstallCommandPackages(a) else InstallCommandPackages(b)
  {
    hide Segments, HasPattern, Strip, WithoutStdout, WithoutStderr, PackagesInSegment, StripDockerPrefix;
    SegmentsAfter(a, op, b);
    SingleSegment(a);
    assert ([a] + Segments(b))[1..] == Segments(b);
    assert [a][1..] == [];
  }

  lemma SingleSegment(a: string)
    requires IsSingle(a)
    ensures Segments(a) == [a]
  {
    NoOperatorInside(a, 0);
  }

  // ---------- Redirects behind it ----------

  // What may follow `2>`, without a shell operator in it.
  predicate IsTarget(t: string) {
    forall i | 0 <= i < |t| :: IsTargetChar(t[i]) && (t[i] == '&' ==> i == 0)
  }

  // What may follow a redirect: nothing, or more words.
  predicate IsMore(rest: string) {
    rest == "" || rest[0] == ' '
  }

  lemma {:induction false} TargetRunsOut(t: string, rest: string)
    requires (forall i | 0 <= i < |t| :: IsTargetChar(t[i])) && IsMore(rest)
    ensures TargetRun(t + rest) == |t|
  {
    if t == "" {
      assert t + rest == rest;
    } else {
      assert (t + rest)[1..] == t[1..] + rest;
      TargetRunsOut(t[1..], rest);
    }
  }

  lemma {:induction false} SpacesEnd(s: string, k: nat)
    requires k < |s| && !IsSpace(s[k])
    ensures SpaceRun(s) <= k
  {
    if k > 0 {
      SpacesEnd(s[1..], k - 1);
    }
  }

  // Text that ends in no blank and holds no stderr redirect.
  predicate IsUnredirected(text: string) {
    (text != "" ==> !IsSpace(text[|text| - 1])) && forall i | 0 <= i < |text| :: !OccursAt(text, i, "2>")
  }

  lemma SuffixIsUnredirected(text: string)
    requires IsUnredirected(text) && text != ""
    ensures IsUnredirected(text[1..])
  {
    forall i | 0 <= i < |text| - 1
      ensures !OccursAt(text[1..], i, "2>")
    {
      assert i + 2 < |text| ==> text[1..][i..i + 2] == text[i + 1..i + 3];
      assert !OccursAt(text, i + 1, "2>");
    }
  }

  // No redirect starts inside the text.
  lemma NoRedirectHere(text: string, more: string)
    requires IsUnredirected(text) && text != "" && (more == "" || more[0] == ' ')
    ensures !OccursAt(text + more, SpaceRun(text + more), "2>")
  {
    var s := text + more;
    var n := |text| - 1;
    assert s[n] == text[n];
    SpacesEnd(s, n);
    var w := SpaceRun(s);
    OccurrenceAgrees(s, w, "2>", 1);
    if w < n {
      assert s[w..w + 2] == text[w..w + 2];
      assert !OccursAt(text, w, "2>");
    } else if more != "" {
      assert s[w + 1] == more[0];
    }
  }

  lemma RedirectIsDropped(t: string, rest: string)
    requires IsTarget(t) && IsMore(rest)
    ensures WithoutStderr(" 2>" + t + rest) == WithoutStderr(rest)
  {
    var more := " 2>" + t + rest;
    assert more[1..] == "2>" + t + rest;
    assert SpaceRun(more) == 1;
    assert more[1..3] == "2>";
    assert more[3..] == t + rest;
    TargetRunsOut(t, rest);
    assert more[3 + |t|..] == rest;
  }

  lemma OutputIsDropped(t: string)
    requires IsFileName(t)
    ensures WithoutStdout(" >" + t) == ""
  {
    var more := " >" + t;
    assert more[1..] == ">" + t;
    assert SpaceRun(more) == 1;
    assert forall k | 1 < k < |more| :: more[k] == t[k - 2];
  }

  lemma {:induction false} StderrIsDropped(text: string, t: string, rest: string)
    requires IsUnredirected(text) && IsTarget(t) && IsMore(rest)
    ensures WithoutStderr(text + (" 2>" + t + rest)) == text + WithoutStderr(rest)
  {
    hide WithoutStderr, IsUnredirected, IsTarget, IsMore;
    var more := " 2>" + t + rest;
    if text == "" {
      RedirectIsDropped(t, rest);
      assert text + more == more && text + WithoutStderr(rest) == WithoutStderr(rest);
    } else {
      assert more[0] == ' ';
      KeepsFirst(text, more);
      SuffixIsUnredirected(text);
      StderrIsDropped(text[1..], t, rest);
      assert [text[0]] + (text[1..] + WithoutStderr(rest)) == text + WithoutStderr(rest);
    }
  }

  lemma KeepsFirst(text: string, more: string)
    requires IsUnredirected(text) && text != "" && (more == "" || more[0] == ' ')
    ensures WithoutStderr(text + more) == [text[0]] + WithoutStderr(text[1..] + more)
  {
    hide IsUnredirected, OccursAt;
    NoRedirectHere(text, more);
    var s := text + more;
    assert s[0] == text[0] && s[1..] == text[1..] + more;
    hide WithoutStderr;
    StderrStep(s);
  }

  lemma StderrStep(s: string)
    requires s != "" && !OccursAt(s, SpaceRun(s), "2>")
    ensures WithoutStderr(s) == [s[0]] + WithoutStderr(s[1..])
  {
    hide OccursAt, SpaceRun;
  }

  lemma {:induction false} NothingToDrop(text: string)
    requires IsUnredirected(text)
    ensures WithoutStderr(text) == text
  {
    if text != "" {
      NoRedirectHere(text, "");
      assert text + "" == text;
      SuffixIsUnredirected(text);
      NothingToDrop(text[1..]);
    }
  }

  lemma TargetIsSingle(a: string, t: string, rest: string, i: nat)
    requires IsSingle(a) && IsTarget(t) && IsSingle(rest) && IsMore(rest)
    requires i <= |a + (" 2>" + t + rest)|
    ensures NextOperator(a + (" 2>" + t + rest), i) == |a + (" 2>" + t + rest)|
    decreases |a + (" 2>" + t + rest)| - i
  {
    var s := a + (" 2>" + t + rest);
    if i < |s| {
      NoOperatorAt(a, t, rest, i);
      TargetIsSingle(a, t, rest, i + 1);
    }
  }

  lemma NoOperatorAt(a: string, t: string, rest: string, i: nat)
    requires IsSingle(a) && IsTarget(t) && IsSingle(rest) && IsMore(rest) && i < |a + (" 2>" + t + rest)|
    ensures OperatorLength(a + (" 2>" + t + rest), i) == 0
  {
    var s, n := a + (" 2>" + t + rest), |a| + 3;
    LetterAt(a, t, rest, i);
    OccurrenceAgrees(s, i, "||", 0);
    OccurrenceAgrees(s, i, "&&", 0);
    OccurrenceAgrees(s, i, "&&", 1);
    if i + 1 < |s| {
      LetterAt(a, t, rest, i + 1);
    }
  }

  lemma LetterAt(a: string, t: string, rest: string, i: nat)
    requires IsSingle(a) && IsTarget(t) && IsSingle(rest) && i < |a + (" 2>" + t + rest)|
    ensures var c := (a + (" 2>" + t + rest))[i]; c != '|' && c != ';' && (c == '&' ==> i == |a| + 3)
  {
    var s, n := a + (" 2>" + t + rest), |a| + 3;
    if i < |a| {
      assert s[i] == a[i];
    } else if i < n {
      assert s[i] == " 2>"[i - |a|];
    } else if i < n + |t| {
      assert s[i] == t[i - n];
    } else {
      assert s[i] == rest[i - n - |t|];
    }
  }

  lemma FoundMakesPattern(s: string, k: nat)
    requires k < |INSTALL_PATTERNS| && Find(s, INSTALL_PATTERNS[k].prefix).Some?
    ensures HasPattern(s)
  {
    hide Find;
  }

  lemma PatternStays(text: string, more: string)
    requires HasPattern(text)
    ensures HasPattern(text + more)
  {
    var k := FirstPattern(text, 0);
    var p := INSTALL_PATTERNS[k].prefix;
    var at := Find(text, p).value;
    assert (text + more)[at..at + |p|] == text[at..at + |p|];
    FoundWhenOccurs(text + more, at, p);
    FoundMakesPattern(text + more, k);
  }

  // Sending errors elsewhere, at the end or between the words, changes nothing about the packages.
  lemma StderrRedirectIsIgnored(text: string, t: string, rest: string)
    requires text != "" && !IsSpace(text[0]) && IsSingle(text) && IsUnredirected(text) && HasPattern(text)
    requires IsTarget(t) && IsMore(rest) && IsSingle(rest) && IsUnredirected(rest)
    ensures InstallCommandPackages(text + (" 2>" + t + rest)) == InstallCommandPackages(text + rest)
  {
    hide HasPattern, NextOperator, IsSingle, IsTarget, IsUnredirected, WithoutStderr, WithoutStdout, IsMore;
    hide PackagesInSegment, StripDockerPrefix, IsTargetChar;
    var full, plain := text + (" 2>" + t + rest), text + rest;
    TargetIsSingle(text, t, rest, 0);
    BothAreSingle(text, rest);
    SingleSegment(plain);
    assert Segments(full) == [full];
    PatternStays(text, " 2>" + t + rest);
    PatternStays(text, rest);
    EndsWithoutBlank(text, t, rest);
    StripIsIdle(full);
    StripIsIdle(plain);
    StderrIsDropped(text, t, rest);
    BothAreUnredirected(text, rest);
    NothingToDrop(rest);
    NothingToDrop(plain);
    assert FirstInstallSegment([full]) == Some(Strip(WithoutStdout(plain)));
    assert FirstInstallSegment([plain]) == Some(Strip(WithoutStdout(plain)));
  }

  lemma BothAreSingle(a: string, b: string)
    requires IsSingle(a) && IsSingle(b)
    ensures IsSingle(a + b)
  {
  }

  lemma BothAreUnredirected(a: string, b: string)
    requires IsUnredirected(a) && IsUnredirected(b) && IsMore(b)
    ensures IsUnredirected(a + b)
  {
    var s := a + b;
    assert s != "" ==> s[|s| - 1] == if b == "" then a[|a| - 1] else b[|b| - 1];
    forall i | 0 <= i < |s|
      ensures !OccursAt(s, i, "2>")
    {
      OccurrenceAgrees(s, i, "2>", 1);
      if i + 2 <= |a| {
        assert s[i..i + 2] == a[i..i + 2];
        assert !OccursAt(a, i, "2>");
      } else if i >= |a| && i + 2 <= |s| {
        assert s[i..i + 2] == b[i - |a|..i - |a| + 2];
        assert !OccursAt(b, i - |a|, "2>");
      }
    }
  }

  lemma EndsWithoutBlank(text: string, t: string, rest: string)
    requires text != "" && !IsSpace(text[0]) && IsUnredirected(text) && IsTarget(t) && IsUnredirected(rest)
    ensures var full := text + (" 2>" + t + rest); full != "" && !IsSpace(full[0]) && !IsSpace(full[|full| - 1])
    ensures var plain := text + rest; plain != "" && !IsSpace(plain[0]) && !IsSpace(plain[|plain| - 1])
  {
    var full, plain := text + (" 2>" + t + rest), text + rest;
    assert full[|full| - 1] == if rest != "" then rest[|rest| - 1] else if t == "" then '>' else t[|t| - 1];
    assert plain[|plain| - 1] == if rest != "" then rest[|rest| - 1] else text[|text| - 1];
  }

  // ---------- Output to a file ----------

  // What may stand behind `>` up to the end of the command.
  predicate IsFileName(t: string) {
    forall i | 0 <= i < |t| :: IsTargetChar(t[i]) || IsSpace(t[i])
  }

  lemma {:induction false} StdoutIsDropped(text: string, t: string)
    requires IsSimple(text) && (text != "" ==> !IsSpace(text[|text| - 1])) && IsFileName(t)
    ensures WithoutStdout(text + " >" + t) == text
  {
    var more := " >" + t;
    assert text + " >" + t == text + more;
    if text == "" {
      OutputIsDropped(t);
      assert text + more == more;
    } else {
      var s := text + more;
      var n := |text| - 1;
      assert s[n] == text[n];
      SpacesEnd(s, n);
      assert s[SpaceRun(s)] == text[SpaceRun(s)];
      StdoutIsDropped(text[1..], t);
      assert s[1..] == text[1..] + " >" + t;
      assert text == [text[0]] + text[1..];
    }
  }

  lemma OutputIsUnredirected(text: string, t: string)
    requires IsSimple(text) && '>' !in t && (t != "" ==> !IsSpace(t[|t| - 1]))
    ensures IsUnredirected(text + " >" + t)
  {
    var full := text + " >" + t;
    assert full[|full| - 1] == if t == "" then '>' else t[|t| - 1];
    assert forall i | 0 <= i < |full| :: full[i] == '>' <==> i == |text| + 1;
    assert full[|text|] == ' ';
    forall i | 0 <= i < |full|
      ensures !OccursAt(full, i, "2>")
    {
      OccurrenceAgrees(full, i, "2>", 0);
      OccurrenceAgrees(full, i, "2>", 1);
    }
  }

  // Neither does sending the output to a file.
  lemma StdoutRedirectIsIgnored(text: string, t: string)
    requires text != "" && IsSimple(text) && !IsSpace(text[0]) && !IsSpace(text[|text| - 1]) && HasPattern(text)
    requires IsFileName(t) && '>' !in t && '&' !in t && (t != "" ==> !IsSpace(t[|t| - 1]))
    ensures InstallCommandPackages(text + " >" + t) == InstallCommandPackages(text)
  {
    hide HasPattern, IsUnredirected, WithoutStderr, WithoutStdout, PackagesInSegment, StripDockerPrefix;
    var full := text + " >" + t;
    assert full == text + (" >" + t);
    assert full[|full| - 1] == if t == "" then '>' else t[|t| - 1];
    OutputIsUnredirected(text, t);
    NothingToDrop(full);
    StdoutIsDropped(text, t);
    NoRedirect(text);
    PatternStays(text, " >" + t);
    SingleSegment(full);
    SingleSegment(text);
    StripIsIdle(full);
    StripIsIdle(text);
    assert FirstInstallSegment([full]) == Some(Strip(text));
    assert FirstInstallSegment([text]) == Some(Strip(text));
  }

  // ---------- A wrapper before it ----------

  // No install pattern begins inside w.
  predicate HoldsNoPattern(w: string, command: string) {
    forall i, k | 0 <= i < |w| && 0 <= k < |INSTALL_PATTERNS| :: !OccursAt(w + command, i, INSTALL_PATTERNS[k].prefix)
  }

  lemma FoundBehind(w: string, command: string, k: nat)
    requires HoldsNoPattern(w, command) && k < |INSTALL_PATTERNS|
    ensures var p := INSTALL_PATTERNS[k].prefix;
            var at := Find(command, p);
            Find(w + command, p) == if at.Some? then Some(|w| + at.value) else None
  {
    hide INSTALL_PATTERNS, Find;
    var s, p := w + command, INSTALL_PATTERNS[k].prefix;
    assert s[|w|..] == command;
    forall i: nat | i >= |w| ensures OccursAt(s, i, p) <==> OccursAt(command, i - |w|, p) {
      OccursInSuffix(s, |w|, i, p);
    }
    forall i: nat ensures OccursAt(command, i, p) <==> OccursAt(s, i + |w|, p) {
      OccursInSuffix(s, |w|, i + |w|, p);
    }
    FindSpecification(s, p);
    FindSpecification(command, p);
    assert forall i: nat | i < |w| :: !OccursAt(s, i, p);
  }

  lemma FindSpecification(s: string, p: string)
    ensures var r := Find(s, p);
            && (r.Some? ==> OccursAt(s, r.value, p) && forall k | 0 <= k < r.value :: !OccursAt(s, k, p))
            && (r.None? ==> forall k | 0 <= k <= |s| :: !OccursAt(s, k, p))
  {
  }

  // What stands before the install command, such as `docker exec app`, is dropped.
  lemma WrapperIsDropped(w: string, command: string, k: nat)
    requires k < |INSTALL_PATTERNS| && INSTALL_PATTERNS[k].prefix <= command && !EmbedsPattern(command)
    requires w != "" && HoldsNoPattern(w, command)
    ensures StripDockerPrefix(w + command) == command && StripDockerPrefix(command) == command
  {
    hide Find, INSTALL_PATTERNS, HoldsNoPattern;
    StartsWithPattern(command, k);
    FoundBehind(w, command, k);
    var j := InnerPattern(w + command, 0);
    assert InnerAt(w + command, k);
    assert j < |INSTALL_PATTERNS|;
    FoundBehind(w, command, j);
    assert !InnerAt(command, j);
    assert (w + command)[|w|..] == command;
  }

  lemma WrappedCommand(w: string, command: string, k: nat)
    requires k < |INSTALL_PATTERNS| && INSTALL_PATTERNS[k].prefix <= command && !EmbedsPattern(command)
    requires w != "" && HoldsNoPattern(w, command) && !IsSpace(w[0])
    requires command != "" && !IsSpace(command[0]) && !IsSpace(command[|command| - 1])
    requires IsSimple(w) && IsSimple(command)
    ensures InstallCommandPackages(w + command) == InstallCommandPackages(command)
  {
    hide INSTALL_PATTERNS, HoldsNoPattern, IsSimple, IsSpace, EmbedsPattern, PackagesInSegment, HasPattern;
    hide StripDockerPrefix, IsolateInstallSegment;
    var s := w + command;
    WrapperIsDropped(w, command, k);
    SimpleTextIsIsolated(command, k);
    SimpleBoth(w, command);
    assert s[0] == w[0] && s[|s| - 1] == command[|command| - 1];
    PatternBehind(w, command, k);
    WrappedIsIsolated(s);
  }

  lemma PatternBehind(w: string, command: string, k: nat)
    requires k < |INSTALL_PATTERNS| && INSTALL_PATTERNS[k].prefix <= command
    ensures HasPattern(w + command)
  {
    hide INSTALL_PATTERNS;
    var s, p := w + command, INSTALL_PATTERNS[k].prefix;
    assert s[|w|..|w| + |p|] == p;
    FoundWhenOccurs(s, |w|, p);
    FoundMakesPattern(s, k);
  }

  lemma WrappedIsIsolated(s: string)
    requires s != "" && IsSimple(s) && !IsSpace(s[0]) && !IsSpace(s[|s| - 1]) && HasPattern(s)
    ensures IsolateInstallSegment(s) == Some(s)
  {
    hide HasPattern;
    NoOperator(s, 0);
    NoRedirect(s);
    StripIsIdle(s);
  }

  // ---------- npx ----------

  // npx runs one package: the first word that is no flag, no noise, and a valid name.
  predicate NamesProgram(token: string) {
    !IsFlag(token) && token !in SHELL_NOISE && IsValidPackageName(token)
  }

  lemma {:induction false} NpxRunsTheFirst(tokens: seq<string>)
    ensures FirstNpx(tokens) == [] <==> forall t | t in tokens :: !NamesProgram(t)
    ensures FirstNpx(tokens) != [] ==>
              exists i :: 0 <= i < |tokens| && NamesProgram(tokens[i])
                          && (forall j | 0 <= j < i :: !NamesProgram(tokens[j]))
                          && FirstNpx(tokens) == [Package(tokens[i], "latest", false, "npx", "npmjs.org")]
  {
    hide IsValidPackageName, IsFlag;
    if tokens != [] {
      NpxRunsTheFirst(tokens[1..]);
      assert Registry("npx") == "npmjs.org";
      if NamesProgram(tokens[0]) {
        assert tokens[0] in tokens;
      } else {
        assert forall t :: t in tokens <==> t == tokens[0] || t in tokens[1..];
        if FirstNpx(tokens) != [] {
          var i :| 0 <= i < |tokens[1..]| && NamesProgram(tokens[1..][i])
                   && (forall j | 0 <= j < i :: !NamesProgram(tokens[1..][j]))
                   && FirstNpx(tokens[1..]) == [Package(tokens[1..][i], "latest", false, "npx", "npmjs.org")];
          assert forall j | 0 < j <= i :: tokens[j] == tokens[1..][j - 1];
          assert NamesProgram(tokens[i + 1]);
        }
      }
    }
  }

  // ---------- Words ----------

  lemma {:induction false} WordStopsAtSpace(a: string, c: char, b: string)
    requires IsSpace(c)
    ensures WordLength(a + ([c] + b)) == WordLength(a)
  {
    if a == "" {
      assert a + ([c] + b) == [c] + b;
    } else if !IsSpace(a[0]) {
      assert (a + ([c] + b))[1..] == a[1..] + ([c] + b);
      WordStopsAtSpace(a[1..], c, b);
    }
  }

  // Any white space separates words, however much there is of it.
  lemma {:induction false} WordsAreSeparated(a: string, c: char, b: string)
    requires IsSpace(c)
    ensures Tokens(a + ([c] + b)) == Tokens(a) + Tokens(b)
    decreases |a|
  {
    hide Tokens, WordLength, IsSpace;
    var s := a + ([c] + b);
    TokensStep(s);
    TokensStep(a);
    if a == "" {
      assert s[0] == c && s[1..] == b;
    } else if IsSpace(a[0]) {
      assert s[1..] == a[1..] + ([c] + b);
      WordsAreSeparated(a[1..], c, b);
    } else {
      var n := WordLength(a);
      WordStopsAtSpace(a, c, b);
      assert s[..n] == a[..n] && s[n..] == a[n..] + ([c] + b);
      WordsAreSeparated(a[n..], c, b);
      assert [a[..n]] + (Tokens(a[n..]) + Tokens(b)) == [a[..n]] + Tokens(a[n..]) + Tokens(b);
    }
  }

  lemma TokensStep(s: string)
    ensures Tokens(s) == if s == "" then [] else if IsSpace(s[0]) then Tokens(s[1..])
                         else [s[..WordLength(s)]] + Tokens(s[WordLength(s)..])
    ensures s != "" && !IsSpace(s[0]) ==> WordLength(s) > 0
  {
    hide IsSpace;
  }

  // And nothing else does.
  lemma WordIsOneToken(word: string)
    requires word != "" && forall i | 0 <= i < |word| :: !IsSpace(word[i])
    ensures Tokens(word) == [word]
  {
    WholeWord(word);
    assert word[..|word|] == word && word[|word|..] == "";
  }

  lemma {:induction false} WholeWord(word: string)
    requires forall i | 0 <= i < |word| :: !IsSpace(word[i])
    ensures WordLength(word) == |word|
  {
    if word != "" {
      WholeWord(word[1..]);
    }
  }
}
