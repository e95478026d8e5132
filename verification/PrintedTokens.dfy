/** Which printed package tokens the install-command parser reads back. */
module PrintedTokens {
  import opened Wrappers
  import opened Text
  import opened SupplyTables
  import opened InstallParser

  // ---------- Names ----------

  predicate IsPlainChar(c: char) {
    !IsSpace(c) && c != '|' && c != '&' && c != ';' && c != '>'
  }

  predicate IsPlainText(s: string) {
    forall i | 0 <= i < |s| :: IsPlainChar(s[i])
  }

  lemma NameCharsArePlain(name: string)
    requires IsValidPackageName(name) && name[0] != '('
    ensures name != "" && LooksLikeName(name) && IsPlainText(name) && '=' !in name
    ensures forall i | 0 <= i < |name| :: name[i] !in ['<', '>', '~', '!', '=']
    ensures forall i | 0 < i < |name| :: name[i] != '@'
    ensures name[0] !in ['-', '/', '~', '"', '\'', '{', '(']
  {
    assert forall i | 0 <= i < |name| :: i == 0 || i == |name| - 1 || IsNameChar(name[i]);
  }

  // What a returned name looks like, whichever the manager.
  predicate IsCleanName(name: string) {
    && |name| >= 2
    && (name[0] == '@' || 'a' <= name[0] <= 'z' || 'A' <= name[0] <= 'Z')
    && (forall i | 0 < i < |name| ::
          || 'a' <= name[i] <= 'z' || 'A' <= name[i] <= 'Z' || '0' <= name[i] <= '9'
          || (i < |name| - 1 && name[i] in ['_', '.', '/', ':', '-']))
    && ('/' in name ==> name[0] == '@' || "github.com/" <= name)
    && Lower(name) !in SKIP_WORDS && Lower(name) !in SHELL_NOISE
  }

  lemma ValidIffClean(name: string)
    requires name == "" || name[0] != '('
    ensures IsValidPackageName(name) <==> IsCleanName(name)
  {
    hide Lower;
    if |name| >= 2 {
      assert StartsWith(name, "@") <==> name[0] == '@';
      assert forall i | 0 < i < |name| - 1 :: IsNameChar(name[i]) <==>
        || 'a' <= name[i] <= 'z' || 'A' <= name[i] <= 'Z' || '0' <= name[i] <= '9'
        || name[i] in ['_', '.', '/', ':', '-'];
    }
  }

  // ---------- Tokens ----------

  // The managers whose tokens may carry a version after an at-sign.
  const AT_MANAGERS := ["npm", "yarn", "pnpm", "go"]

  function Pin(manager: string): string {
    if manager == "pip" then "==" else "@"
  }

  function PrintPackage(p: Package): string {
    if p.pinned then p.name + Pin(p.manager) + p.version else p.name
  }

  // A package with a valid name and either no version or one free of white space and shell operators.
  predicate IsPrintable(p: Package, manager: string) {
    && p.manager == manager && p.registry == Registry(manager)
    && IsValidPackageName(p.name) && p.name[0] != '('
    && if p.pinned then IsPlainText(p.version) else p.version == "latest"
  }

  predicate HasPipOperator(s: string) {
    exists k :: 0 <= k < |PIP_OPERATORS| && Find(s, PIP_OPERATORS[k]).Some?
  }

  // A printed package that comes back: it is no noise word; a version after an at-sign holds no other
  // at-sign and looks like no shell assignment; without a version there is no scope. The other
  // managers know no versions.
  predicate IsReadBack(p: Package) {
    && !IsNoise(PrintPackage(p))
    && if p.manager == "pip" then true
       else if p.manager in AT_MANAGERS then
         if p.pinned then '@' !in p.version && ('=' in p.version ==> HasPipOperator(p.version))
         else !StartsWith(p.name, "@")
       else !p.pinned
  }

  lemma OccurrenceAgrees(s: string, i: nat, p: string, j: nat)
    requires j < |p|
    ensures OccursAt(s, i, p) ==> s[i + j] == p[j]
  {
    if OccursAt(s, i, p) {
      assert s[i..i + |p|][j] == s[i + j];
    }
  }

  lemma NotFound(s: string, p: string)
    requires p != "" && p[0] !in s
    ensures Find(s, p).None?
  {
    forall i: nat ensures !OccursAt(s, i, p) {
      OccurrenceAgrees(s, i, p, 0);
    }
  }

  lemma FoundWhenOccurs(s: string, i: nat, p: string)
    requires OccursAt(s, i, p)
    ensures Find(s, p).Some?
  {
  }

  // ---------- pip ----------

  // Every operator ends in an equals sign, so in a token whose version has none only one can occur.
  lemma OnlyOperator(name: string, op: nat, version: string, k: nat)
    requires op < |PIP_OPERATORS| && k < |PIP_OPERATORS| && '=' !in version
    requires forall i | 0 <= i < |name| :: name[i] !in ['<', '>', '~', '!', '=']
    ensures Find(name + PIP_OPERATORS[op] + version, PIP_OPERATORS[k]) == if k == op then Some(|name|) else None
  {
    var o := PIP_OPERATORS[op];
    var token := name + o + version;
    assert PIP_OPERATORS == ["==", ">=", "<=", "~=", "!="];
    assert |o| == 2 && o[1] == '=';
    assert token[|name|..|name| + 2] == o;
    assert OccursAt(token, |name|, o);
    assert forall i | |name| + 2 <= i < |token| :: token[i] == version[i - |name| - 2];
    forall i: nat | OccursAt(token, i, PIP_OPERATORS[k])
      ensures i == |name| && k == op
    {
      OccurrenceAgrees(token, i, PIP_OPERATORS[k], 0);
      OccurrenceAgrees(token, i, PIP_OPERATORS[k], 1);
      assert token[i + 1] == '=';
      assert i + 1 == |name| || i + 1 == |name| + 1;
    }
  }

  lemma {:induction false} FirstOperator(token: string, i: nat, op: nat, at: nat)
    requires i <= op < |PIP_OPERATORS| && Find(token, PIP_OPERATORS[op]) == Some(at) && at + 2 <= |token|
    requires forall k | 0 <= k < op :: Find(token, PIP_OPERATORS[k]).None?
    ensures ParsePip(token, i) == Parsed(token[..at], token[at + 2..], true)
    decreases op - i
  {
    if i < op {
      FirstOperator(token, i + 1, op, at);
    }
  }

  // pip: each of the five operators is read, with the version that follows it.
  lemma OperatorIsRead(name: string, op: nat, version: string)
    requires IsCleanName(name) && op < |PIP_OPERATORS| && '=' !in version
    ensures ParsePackageToken(name + PIP_OPERATORS[op] + version, "pip") == Parsed(name, version, true)
    ensures HasPipOperator(name + PIP_OPERATORS[op] + version)
  {
    hide Find, ParsePip;
    ValidIffClean(name);
    NameCharsArePlain(name);
    var token := name + PIP_OPERATORS[op] + version;
    forall k | 0 <= k < |PIP_OPERATORS|
      ensures Find(token, PIP_OPERATORS[k]) == if k == op then Some(|name|) else None
    {
      OnlyOperator(name, op, version, k);
    }
    assert |PIP_OPERATORS[op]| == 2;
    FirstOperator(token, 0, op, |name|);
    assert token[..|name|] == name && token[|name| + 2..] == version;
  }

  lemma PinnedOperator(name: string, version: string)
    requires '=' !in name
    ensures Find(name + "==" + version, "==") == Some(|name|)
  {
    var token := name + "==" + version;
    assert token[|name|..|name| + 2] == "==";
    assert OccursAt(token, |name|, "==");
    forall k: nat | OccursAt(token, k, "==") ensures token[k] == '=' {
      OccurrenceAgrees(token, k, "==", 0);
    }
    assert forall k | 0 <= k < |name| :: token[k] == name[k];
  }

  lemma PipTokenIsParsed(p: Package)
    requires IsPrintable(p, "pip")
    ensures ParsePip(PrintPackage(p), 0) == Parsed(p.name, p.version, p.pinned)
    ensures '=' in PrintPackage(p) ==> HasPipOperator(PrintPackage(p))
  {
    hide IsValidPackageName, LooksLikeName, IsPlainText;
    NameCharsArePlain(p.name);
    var token := PrintPackage(p);
    if p.pinned {
      PinnedOperator(p.name, p.version);
      assert PIP_OPERATORS[0] == "==";
      assert token[..|p.name|] == p.name && token[|p.name| + 2..] == p.version;
    } else {
      assert PIP_OPERATORS == ["==", ">=", "<=", "~=", "!="];
      forall k | 0 <= k < |PIP_OPERATORS| ensures Find(token, PIP_OPERATORS[k]).None? {
        NotFound(token, PIP_OPERATORS[k]);
      }
      NoPipOperator(token, 0);
    }
  }

  lemma NoPipOperator(token: string, i: nat)
    requires i <= |PIP_OPERATORS|
    requires forall k | 0 <= k < |PIP_OPERATORS| :: Find(token, PIP_OPERATORS[k]).None?
    ensures ParsePip(token, i) == Parsed(token, "latest", false)
    decreases |PIP_OPERATORS| - i
  {
    if i < |PIP_OPERATORS| {
      NoPipOperator(token, i + 1);
    }
  }

  // ---------- At-signs ----------

  lemma {:induction false} LastAt(s: string, n: nat, at: nat)
    requires at < n <= |s| && s[at] == '@' && forall i | at < i < n :: s[i] != '@'
    ensures RFindFrom(s, '@', n) == Some(at)
  {
    if n - 1 != at {
      LastAt(s, n - 1, at);
    }
  }

  lemma {:induction false} NoAt(s: string, n: nat)
    requires n <= |s| && forall i | 0 <= i < n :: s[i] != '@'
    ensures RFindFrom(s, '@', n) == None
  {
    if n > 0 {
      NoAt(s, n - 1);
    }
  }

  lemma {:induction false} LaterAt(s: string, n: nat, i: nat)
    requires i < n <= |s| && s[i] == '@'
    ensures RFindFrom(s, '@', n).Some? && RFindFrom(s, '@', n).value >= i
  {
    if s[n - 1] != '@' {
      LaterAt(s, n - 1, i);
    }
  }

  lemma {:induction false} BeforeFirst(s: string, i: nat)
    requires i <= |s| && (i < |s| ==> s[i] == '@') && forall k | 0 <= k < i :: s[k] != '@'
    ensures Before(s, '@') == i
  {
    if i > 0 {
      BeforeFirst(s[1..], i - 1);
    }
  }

  // name@version is split at the right place exactly when the version holds no at-sign.
  lemma SplitPinnedIff(name: string, version: string)
    requires forall i | 0 < i < |name| :: name[i] != '@'
    requires name != ""
    ensures SplitAtLastAt(name + "@" + version) == Parsed(name, version, true) <==> '@' !in version
    ensures '@' in version ==> SplitAtLastAt(name + "@" + version).name != name
  {
    var token := name + "@" + version;
    assert token[|name|] == '@';
    assert forall i | |name| < i < |token| :: token[i] == version[i - |name| - 1];
    if '@' in version {
      var i :| 0 <= i < |version| && version[i] == '@';
      assert token[|name| + 1 + i] == '@';
      LaterAt(token, |token|, |name| + 1 + i);
    } else {
      LastAt(token, |token|, |name|);
      assert token[..|name|] == name && token[|name| + 1..] == version;
    }
  }

  lemma SplitBare(name: string)
    requires name != "" && forall i | 0 < i < |name| :: name[i] != '@'
    ensures SplitAtLastAt(name) == if name[0] == '@' then Parsed("", name[1..], true) else Parsed(name, "latest", false)
  {
    if name[0] == '@' {
      LastAt(name, |name|, 0);
    } else {
      NoAt(name, |name|);
    }
  }

  lemma ScopedPinnedIff(name: string, version: string)
    requires |name| >= 2 && name[0] == '@' && forall i | 0 < i < |name| :: name[i] != '@'
    ensures var token := name + "@" + version;
            && StartsWith(token, "@") && '@' in token[1..]
            && (ParseScoped(token) == Parsed(name, version, true) <==> '@' !in version)
  {
    var token := name + "@" + version;
    var rest := token[1..];
    assert rest == name[1..] + "@" + version;
    assert rest[|name| - 1] == '@';
    assert forall i | 0 <= i < |name| - 1 :: rest[i] == name[i + 1];
    BeforeFirst(rest, |name| - 1);
    assert rest[..|name| - 1] == name[1..] && rest[|name|..] == version;
    assert "@" + name[1..] == name;
    if '@' !in version {
      BeforeFirst(version, |version|);
      assert version[..|version|] == version;
    } else {
      assert Before(version, '@') < |version|;
    }
  }

  // ---------- Any manager ----------

  // An operator in name@version lies in the version.
  lemma OperatorIsInVersion(name: string, version: string, k: nat)
    requires forall i | 0 <= i < |name| :: name[i] !in ['<', '>', '~', '!', '=']
    requires k < |PIP_OPERATORS|
    ensures Find(name + "@" + version, PIP_OPERATORS[k]).Some? <==> Find(version, PIP_OPERATORS[k]).Some?
  {
    hide Find;
    var token, op := name + "@" + version, PIP_OPERATORS[k];
    assert PIP_OPERATORS == ["==", ">=", "<=", "~=", "!="];
    if Find(token, op).Some? {
      var i := Find(token, op).value;
      FoundOccurs(token, op);
      OccurrenceAgrees(token, i, op, 0);
      assert token[..|name|] == name && token[|name|] == '@';
      assert i > |name|;
      assert version == token[|name| + 1..];
      OccursInSuffix(token, |name| + 1, i, op);
      FoundWhenOccurs(version, i - |name| - 1, op);
    }
    if Find(version, op).Some? {
      var i := Find(version, op).value;
      FoundOccurs(version, op);
      assert version == token[|name| + 1..];
      OccursInSuffix(token, |name| + 1, |name| + 1 + i, op);
      FoundWhenOccurs(token, |name| + 1 + i, op);
    }
  }

  lemma FoundOccurs(text: string, p: string)
    ensures Find(text, p).Some? ==> OccursAt(text, Find(text, p).value, p)
  {
  }

  lemma OccursInSuffix(s: string, cut: nat, i: nat, p: string)
    requires cut <= i && cut <= |s|
    ensures OccursAt(s, i, p) <==> OccursAt(s[cut..], i - cut, p)
  {
    if i + |p| <= |s| {
      assert s[cut..][i - cut..i - cut + |p|] == s[i..i + |p|];
    }
  }

  // A token that starts like a name is skipped exactly when it is a noise word or like an assignment.
  lemma SkippedIff(token: string)
    requires token != "" && token[0] !in ['-', '/', '~', '"', '\'', '{', '(']
    ensures IsSkippedToken(token) <==> IsNoise(token) || ('=' in token && !HasPipOperator(token))
  {
    hide IsNoise, Find;
  }

  // What the parser makes of a printed package, apart from what is skipped.
  lemma PrintedIsParsedIff(p: Package, manager: string)
    requires IsPrintable(p, manager)
    ensures ParsePackageToken(PrintPackage(p), manager) == Parsed(p.name, p.version, p.pinned) <==>
              || manager == "pip"
              || (manager in AT_MANAGERS && if p.pinned then '@' !in p.version else !StartsWith(p.name, "@"))
              || (manager != "pip" && manager !in AT_MANAGERS && !p.pinned)
  {
    hide IsValidPackageName, LooksLikeName, SplitAtLastAt, ParseScoped, ParsePip;
    NameCharsArePlain(p.name);
    if manager == "pip" {
      PipTokenIsParsed(p);
    } else if manager in AT_MANAGERS {
      if p.pinned {
        SplitPinnedIff(p.name, p.version);
        if p.name[0] == '@' {
          LooksLong(p.name);
          ScopedPinnedIff(p.name, p.version);
        } else {
          assert PrintPackage(p)[0] == p.name[0];
        }
      } else {
        SplitBare(p.name);
        assert '@' !in p.name[1..];
      }
    }
  }

  lemma LooksLong(name: string)
    requires LooksLikeName(name)
    ensures |name| >= 2
  {
  }

  lemma AssignmentIff(p: Package, manager: string)
    requires IsPrintable(p, manager)
    ensures var token := PrintPackage(p);
            '=' in token && !HasPipOperator(token) <==>
              manager != "pip" && p.pinned && '=' in p.version && !HasPipOperator(p.version)
  {
    hide IsValidPackageName, LooksLikeName, Find;
    NameCharsArePlain(p.name);
    if manager == "pip" {
      PipTokenIsParsed(p);
    } else if p.pinned {
      forall k | 0 <= k < |PIP_OPERATORS|
        ensures Find(PrintPackage(p), PIP_OPERATORS[k]).Some? <==> Find(p.version, PIP_OPERATORS[k]).Some?
      {
        OperatorIsInVersion(p.name, p.version, k);
      }
    }
  }

  lemma OnePackageOf(token: string, manager: string)
    ensures |PackagesOf(token, manager)| <= 1
    ensures var q := ParsePackageToken(token, manager);
            PackagesOf(token, manager)
            == if IsSkippedToken(token) || q.name == "" || !IsValidPackageName(q.name) then []
               else [Package(q.name, q.version, q.pinned, manager, Registry(manager))]
  {
    hide IsSkippedToken, ParsePackageToken, IsValidPackageName;
  }

  // Main result for one token: a printed package comes back exactly under these conditions, for every
  // package manager.
  lemma TokenIsReadBackIff(p: Package, manager: string)
    requires IsPrintable(p, manager)
    ensures PackagesOf(PrintPackage(p), manager) == [p] <==> IsReadBack(p)
    ensures !IsFlag(PrintPackage(p)) && IsPlainText(PrintPackage(p)) && PrintPackage(p) != ""
  {
    hide IsValidPackageName, LooksLikeName, ParsePackageToken, IsSkippedToken, IsNoise, PackagesOf, HasPipOperator;
    NameCharsArePlain(p.name);
    var token := PrintPackage(p);
    assert token[0] == p.name[0];
    SkippedIff(token);
    AssignmentIff(p, manager);
    PrintedIsParsedIff(p, manager);
    OnePackageOf(token, manager);
  }

  // npm, yarn and pnpm accept `@scope/name` without a version; the parser drops it.
  lemma UnpinnedScopeIsDropped(name: string, manager: string)
    requires IsValidPackageName(name) && name[0] == '@' && manager in AT_MANAGERS
    ensures PackagesOf(name, manager) == []
  {
    hide IsValidPackageName, LooksLikeName, IsSkippedToken;
    NameCharsArePlain(name);
    SplitBare(name);
    assert '@' !in name[1..];
  }
}
