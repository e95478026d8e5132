/** Parsing of shell commands that install packages. */
module InstallParser {
  import opened Wrappers
  import opened Text
  import opened SupplyTables

  datatype Package = Package(name: string, version: string, pinned: bool, manager: string, registry: string)

  // ---------- Searching and splitting ----------

  predicate OccursAt(s: string, i: nat, p: string) {
    i + |p| <= |s| && s[i..i + |p|] == p
  }

  // str.find from position i
  function FindFrom(s: string, p: string, i: nat): (r: Option<nat>)
    requires i <= |s|
    ensures r.Some? ==> i <= r.value && OccursAt(s, r.value, p)
    ensures r.Some? ==> forall k | i <= k < r.value :: !OccursAt(s, k, p)
    ensures r.None? ==> forall k | i <= k <= |s| :: !OccursAt(s, k, p)
    decreases |s| - i
  {
    if OccursAt(s, i, p) then Some(i)
    else if i == |s| then None
    else FindFrom(s, p, i + 1)
  }

  function Find(s: string, p: string): Option<nat> {
    FindFrom(s, p, 0)
  }

  predicate StartsWith(s: string, p: string) {
    p <= s
  }

  // The length of the leading run of characters that are not white space.
  function WordLength(s: string): (r: nat)
    ensures r <= |s|
    ensures s != [] && !IsSpace(s[0]) ==> r > 0
  {
    if s == [] || IsSpace(s[0]) then 0 else 1 + WordLength(s[1..])
  }

  // str.split()
  function Tokens(s: string): seq<string>
    decreases |s|
  {
    if s == [] then []
    else if IsSpace(s[0]) then Tokens(s[1..])
    else var n := WordLength(s); [s[..n]] + Tokens(s[n..])
  }

  // The length of the shell operator at position i: `||`, `&&`, `|` or `;`.
  function OperatorLength(s: string, i: nat): nat
    requires i < |s|
  {
    if OccursAt(s, i, "||") || OccursAt(s, i, "&&") then 2
    else if s[i] == '|' || s[i] == ';' then 1
    else 0
  }

  function NextOperator(s: string, i: nat): (r: nat)
    requires i <= |s|
    ensures i <= r <= |s|
    ensures r < |s| ==> 0 < OperatorLength(s, r) && r + OperatorLength(s, r) <= |s|
    decreases |s| - i
  {
    if i == |s| || OperatorLength(s, i) > 0 then i else NextOperator(s, i + 1)
  }

  function Segments(s: string): seq<string>
    decreases |s|
  {
    var i := NextOperator(s, 0);
    if i == |s| then [s] else [s[..i]] + Segments(s[i + OperatorLength(s, i)..])
  }

  predicate IsWordChar(c: char) {
    'a' <= c <= 'z' || 'A' <= c <= 'Z' || '0' <= c <= '9' || c == '_'
  }

  predicate IsTargetChar(c: char) {
    IsWordChar(c) || c == '>' || c == '&' || c == '/'
  }

  function SpaceRun(s: string): (r: nat)
    ensures r <= |s|
  {
    if s != [] && IsSpace(s[0]) then 1 + SpaceRun(s[1..]) else 0
  }

  function TargetRun(s: string): (r: nat)
    ensures r <= |s|
  {
    if s != [] && IsTargetChar(s[0]) then 1 + TargetRun(s[1..]) else 0
  }

  // Removes every `2>...` redirect together with the white space before it.
  function WithoutStderr(s: string): string
    decreases |s|
  {
    if s == [] then []
    else
      var w := SpaceRun(s);
      if OccursAt(s, w, "2>") then WithoutStderr(s[w + 2 + TargetRun(s[w + 2..])..])
      else [s[0]] + WithoutStderr(s[1..])
  }

  // Cuts the text at a `>...` redirect that runs to its end.
  function WithoutStdout(s: string): string
    decreases |s|
  {
    if s == [] then []
    else
      var w := SpaceRun(s);
      if w < |s| && s[w] == '>' && forall k | w < k < |s| :: IsTargetChar(s[k]) || IsSpace(s[k]) then []
      else [s[0]] + WithoutStdout(s[1..])
  }

  // ---------- The install command inside a shell command ----------

  function FirstPattern(s: string, i: nat): (r: nat)
    requires i <= |INSTALL_PATTERNS|
    ensures i <= r <= |INSTALL_PATTERNS|
    ensures r < |INSTALL_PATTERNS| ==> Find(s, INSTALL_PATTERNS[r].prefix).Some?
    ensures forall k | i <= k < r :: Find(s, INSTALL_PATTERNS[k].prefix).None?
    decreases |INSTALL_PATTERNS| - i
  {
    if i == |INSTALL_PATTERNS| || Find(s, INSTALL_PATTERNS[i].prefix).Some? then i
    else FirstPattern(s, i + 1)
  }

  predicate HasPattern(s: string) {
    FirstPattern(s, 0) < |INSTALL_PATTERNS|
  }

  function FirstInstallSegment(segments: seq<string>): Option<string> {
    if segments == [] then None
    else
      var seg := Strip(segments[0]);
      if HasPattern(seg) then Some(Strip(WithoutStdout(WithoutStderr(seg))))
      else FirstInstallSegment(segments[1..])
  }

  function IsolateInstallSegment(command: string): Option<string> {
    FirstInstallSegment(Segments(command))
  }

  // The first pattern, in table order, whose first occurrence is not at the very start.
  function InnerPattern(s: string, i: nat): (r: nat)
    requires i <= |INSTALL_PATTERNS|
    ensures i <= r <= |INSTALL_PATTERNS|
    ensures r < |INSTALL_PATTERNS| ==>
              Find(s, INSTALL_PATTERNS[r].prefix).Some? && Find(s, INSTALL_PATTERNS[r].prefix).value > 0
    ensures forall k | i <= k < r :: !InnerAt(s, k)
    decreases |INSTALL_PATTERNS| - i
  {
    if i == |INSTALL_PATTERNS| || InnerAt(s, i) then i else InnerPattern(s, i + 1)
  }

  predicate InnerAt(s: string, k: nat)
    requires k < |INSTALL_PATTERNS|
  {
    var at := Find(s, INSTALL_PATTERNS[k].prefix);
    at.Some? && at.value > 0
  }

  function StripDockerPrefix(segment: string): string {
    var k := InnerPattern(segment, 0);
    if k < |INSTALL_PATTERNS| then segment[Find(segment, INSTALL_PATTERNS[k].prefix).value..] else segment
  }

  // ---------- Package tokens ----------

  predicate IsNameChar(c: char) {
    IsWordChar(c) || c == '.' || c == '/' || c == ':' || c == '-'
  }

  predicate IsAlphanumeric(c: char) {
    IsWordChar(c) && c != '_'
  }

  // The regular expression for names.
  predicate LooksLikeName(s: string) {
    && |s| >= 2
    && (s[0] == '@' || 'a' <= s[0] <= 'z' || 'A' <= s[0] <= 'Z')
    && (forall i | 0 < i < |s| - 1 :: IsNameChar(s[i]))
    && IsAlphanumeric(s[|s| - 1])
  }

  predicate IsValidPackageName(name: string) {
    if |name| < 2 then false
    else if name[0] == '(' then true
    else if Lower(name) in SKIP_WORDS || Lower(name) in SHELL_NOISE then false
    else if name[|name| - 1] in [')', '}', '"', '\'', ',', ';', '\\', '-'] then false
    else if StartsWith(name, "@") || StartsWith(name, "github.com/") then LooksLikeName(name)
    else '/' !in name && LooksLikeName(name)
  }

  function RFindFrom(s: string, c: char, n: nat): (r: Option<nat>)
    requires n <= |s|
    ensures r.Some? ==> r.value < n && s[r.value] == c
  {
    if n == 0 then None else if s[n - 1] == c then Some(n - 1) else RFindFrom(s, c, n - 1)
  }

  datatype Parsed = Parsed(name: string, version: string, pinned: bool)

  function SplitAtLastAt(token: string): Parsed {
    var at := RFindFrom(token, '@', |token|);
    if at.Some? then Parsed(token[..at.value], token[at.value + 1..], true) else Parsed(token, "latest", false)
  }

  // `@scope/name@version`: the parts between the first three at-signs.
  function ParseScoped(token: string): Parsed
    requires StartsWith(token, "@") && '@' in token[1..]
  {
    var rest := token[1..];
    var name := rest[..Before(rest, '@')];
    var tail := rest[|name| + 1..];
    Parsed("@" + name, tail[..Before(tail, '@')], true)
  }

  function Before(s: string, c: char): (r: nat)
    ensures r <= |s|
    ensures c in s ==> r < |s|
  {
    if s == [] || s[0] == c then 0 else 1 + Before(s[1..], c)
  }

  const PIP_OPERATORS := ["==", ">=", "<=", "~=", "!="]

  function ParsePip(token: string, i: nat): Parsed
    requires i <= |PIP_OPERATORS|
    decreases |PIP_OPERATORS| - i
  {
    if i == |PIP_OPERATORS| then Parsed(token, "latest", false)
    else
      var at := Find(token, PIP_OPERATORS[i]);
      if at.Some? then Parsed(token[..at.value], token[at.value + 2..], true) else ParsePip(token, i + 1)
  }

  function ParsePackageToken(token: string, manager: string): Parsed {
    if manager in ["npm", "yarn", "pnpm"] then
      if StartsWith(token, "@") && '@' in token[1..] then ParseScoped(token) else SplitAtLastAt(token)
    else if manager == "pip" then ParsePip(token, 0)
    else if manager == "go" then SplitAtLastAt(token)
    else Parsed(token, "latest", false)
  }

  predicate IsNoise(token: string) {
    token in SKIP_FLAGS || token in SHELL_NOISE || Lower(token) in SKIP_WORDS
  }

  // Paths, shell variables, quoted or bracketed text.
  predicate IsSkippedToken(token: string) {
    || IsNoise(token)
    || StartsWith(token, "/") || StartsWith(token, "~")
    || ('=' in token && forall k | 0 <= k < |PIP_OPERATORS| :: Find(token, PIP_OPERATORS[k]).None?)
    || StartsWith(token, "\"") || StartsWith(token, "'") || StartsWith(token, "{") || StartsWith(token, "(")
  }

  function Registry(manager: string): string {
    if manager in REGISTRIES then REGISTRIES[manager] else ""
  }

  function PackagesOf(token: string, manager: string): seq<Package> {
    if IsSkippedToken(token) then []
    else
      var p := ParsePackageToken(token, manager);
      if p.name != "" && IsValidPackageName(p.name)
      then [Package(p.name, p.version, p.pinned, manager, Registry(manager))] else []
  }

  function FromFile(file: string, manager: string): Package {
    Package("(from " + file + ")", "file", true, manager, Registry(manager))
  }

  function Editable(manager: string): Package {
    Package("(editable install)", "editable", true, manager, Registry(manager))
  }

  // pip's -r and -e stand for a package themselves.
  predicate IsPipSource(token: string, manager: string) {
    manager == "pip" && (token == "-r" || token == "-e")
  }

  predicate IsFlag(token: string) {
    StartsWith(token, "-")
  }

  function PackagesIn(tokens: seq<string>, manager: string): seq<Package>
    decreases |tokens|
  {
    if tokens == [] then []
    else
      var token, rest := tokens[0], tokens[1..];
      if !IsFlag(token) then PackagesOf(token, manager) + PackagesIn(rest, manager)
      else if rest == [] then []
      else if IsPipSource(token, manager) then
        [if token == "-r" then FromFile(rest[0], manager) else Editable(manager)] + PackagesIn(rest[1..], manager)
      else if token in FLAGS_WITH_VALUES then PackagesIn(rest[1..], manager)
      else PackagesIn(rest, manager)
  }

  function FirstNpx(tokens: seq<string>): seq<Package> {
    if tokens == [] then []
    else if !IsFlag(tokens[0]) && tokens[0] !in SHELL_NOISE && IsValidPackageName(tokens[0])
      then [Package(tokens[0], "latest", false, "npx", Registry("npx"))]
    else FirstNpx(tokens[1..])
  }

  // The tokens after the first install pattern of a segment, and its manager.
  function InstallTokens(segment: string): (r: (seq<string>, string))
    requires HasPattern(segment)
  {
    var p := INSTALL_PATTERNS[FirstPattern(segment, 0)];
    (Tokens(Strip(segment[Find(segment, p.prefix).value + |p.prefix|..])), p.manager)
  }

  function PackagesInSegment(segment: string): seq<Package> {
    if !HasPattern(segment) then []
    else
      var (tokens, manager) := InstallTokens(segment);
      if manager == "npx" then FirstNpx(tokens) else PackagesIn(tokens, manager)
  }

  function InstallCommandPackages(command: string): seq<Package> {
    var segment := IsolateInstallSegment(command);
    if segment.None? || segment.value == "" then [] else PackagesInSegment(StripDockerPrefix(segment.value))
  }

  // What the loop still has to add at position i.
  function Remaining(tokens: seq<string>, i: nat, skipNext: bool, manager: string): seq<Package>
    requires i <= |tokens|
  {
    if skipNext && i < |tokens| then PackagesIn(tokens[i + 1..], manager) else PackagesIn(tokens[i..], manager)
  }

  // What a flag at position i adds, and whether it consumes the next token.
  function FlagAdds(tokens: seq<string>, i: nat, manager: string): seq<Package>
    requires i < |tokens|
  {
    if i + 1 == |tokens| || !IsPipSource(tokens[i], manager) then []
    else [if tokens[i] == "-r" then FromFile(tokens[i + 1], manager) else Editable(manager)]
  }

  lemma SkippedStep(tokens: seq<string>, i: nat, manager: string)
    requires i < |tokens|
    ensures Remaining(tokens, i, true, manager) == Remaining(tokens, i + 1, false, manager)
  {
  }

  lemma FlagStep(tokens: seq<string>, i: nat, manager: string)
    requires i < |tokens| && IsFlag(tokens[i])
    ensures Remaining(tokens, i, false, manager) == FlagAdds(tokens, i, manager) +
              Remaining(tokens, i + 1, FlagAdds(tokens, i, manager) != [] || tokens[i] in FLAGS_WITH_VALUES, manager)
  {
    var rest := tokens[i + 1..];
    assert tokens[i..][1..] == rest && tokens[i..][0] == tokens[i];
    assert rest != [] ==> rest[1..] == tokens[i + 2..];
  }

  lemma PlainStep(tokens: seq<string>, i: nat, manager: string)
    requires i < |tokens| && !IsFlag(tokens[i])
    ensures Remaining(tokens, i, false, manager)
         == PackagesOf(tokens[i], manager) + Remaining(tokens, i + 1, false, manager)
  {
    hide PackagesOf;
    assert tokens[i..][1..] == tokens[i + 1..] && tokens[i..][0] == tokens[i];
  }

  method ParsePlainToken(token: string, manager: string) returns (packages: seq<Package>)
    ensures packages == PackagesOf(token, manager)
  {
    hide IsSkippedToken, ParsePackageToken, IsValidPackageName;
    if IsSkippedToken(token) {
      return [];
    }
    var p := ParsePackageToken(token, manager);
    if p.name == "" || !IsValidPackageName(p.name) {
      return [];
    }
    return [Package(p.name, p.version, p.pinned, manager, Registry(manager))];
  }

  method ParseTokens(tokens: seq<string>, manager: string) returns (packages: seq<Package>)
    ensures packages == PackagesIn(tokens, manager)
  {
    hide PackagesOf, PackagesIn, Remaining, Registry, IsFlag;
    packages := [];
    var skipNext := false;
    StartOfTokens(tokens, manager);
    for i := 0 to |tokens|
      invariant packages + Remaining(tokens, i, skipNext, manager) == PackagesIn(tokens, manager)
    {
      var token := tokens[i];
      if skipNext {
        SkippedStep(tokens, i, manager);
        skipNext := false;
        continue;
      }
      if IsFlag(token) {
        FlagStep(tokens, i, manager);
        if token in FLAGS_WITH_VALUES {
          skipNext := true;
        }
        if token == "-r" && manager == "pip" && i + 1 < |tokens| {
          skipNext := true;
          packages := packages + [FromFile(tokens[i + 1], manager)];
        } else if token == "-e" && manager == "pip" && i + 1 < |tokens| {
          skipNext := true;
          packages := packages + [Editable(manager)];
        }
        continue;
      }
      PlainStep(tokens, i, manager);
      var found := ParsePlainToken(token, manager);
      packages := packages + found;
    }
    EndOfTokens(tokens, skipNext, manager);
  }

  lemma StartOfTokens(tokens: seq<string>, manager: string)
    ensures Remaining(tokens, 0, false, manager) == PackagesIn(tokens, manager)
  {
    assert tokens[0..] == tokens;
  }

  lemma EndOfTokens(tokens: seq<string>, skipNext: bool, manager: string)
    ensures Remaining(tokens, |tokens|, skipNext, manager) == []
  {
  }

  lemma NothingInNothing()
    ensures InstallCommandPackages("") == []
  {
    hide HasPattern;
    NoPatternInNothing();
    assert Segments("") == [""] && Strip("") == "";
  }

  lemma NoPatternInNothing()
    ensures !HasPattern("")
  {
    assert forall k | 0 <= k < |INSTALL_PATTERNS| :: |INSTALL_PATTERNS[k].prefix| > 0;
  }

  method ParseInstallCommand(command: string) returns (packages: seq<Package>)
    ensures packages == InstallCommandPackages(command)
  {
    hide Segments, PackagesIn, FirstNpx, StripDockerPrefix, HasPattern, Tokens, FirstInstallSegment;
    if command == "" {
      NothingInNothing();
      return [];
    }
    var isolated := IsolateInstallSegment(command);
    if isolated.None? || isolated.value == "" {
      return [];
    }
    var segment := StripDockerPrefix(isolated.value);
    if !HasPattern(segment) {
      return [];
    }
    var (tokens, manager) := InstallTokens(segment);
    if manager == "npx" {
      return FirstNpx(tokens);
    }
    packages := ParseTokens(tokens, manager);
  }
}
