/** What the install-command parser gets right: names it returns, flags it skips, and when a printed
    install command is read back, for each package manager. */
module InstallRoundTrip {
  import opened Wrappers
  import opened Text
  import opened SupplyTables
  import opened InstallParser
  import opened PrintedTokens

  // ---------- Every returned name is valid ----------

  lemma {:induction false} PackagesInAreValid(tokens: seq<string>, manager: string)
    ensures forall p | p in PackagesIn(tokens, manager) :: IsValidPackageName(p.name)
    decreases |tokens|
  {
    if tokens != [] {
      var token, rest := tokens[0], tokens[1..];
      if !IsFlag(token) {
        PackagesInAreValid(rest, manager);
      } else if rest != [] {
        PackagesInAreValid(rest[1..], manager);
        PackagesInAreValid(rest, manager);
        assert FromFile(rest[0], manager).name[0] == '(' && Editable(manager).name[0] == '(';
      }
    }
  }

  lemma {:induction false} FirstNpxIsValid(tokens: seq<string>)
    ensures forall p | p in FirstNpx(tokens) :: IsValidPackageName(p.name)
  {
    if tokens != [] {
      FirstNpxIsValid(tokens[1..]);
    }
  }

  lemma ReturnedNamesAreValid(command: string)
    ensures forall p | p in InstallCommandPackages(command) :: IsValidPackageName(p.name)
  {
    hide IsolateInstallSegment, StripDockerPrefix, PackagesIn, FirstNpx, IsValidPackageName, HasPattern, InstallTokens;
    var isolated := IsolateInstallSegment(command);
    if isolated.Some? {
      var segment := StripDockerPrefix(isolated.value);
      if HasPattern(segment) {
        var (tokens, manager) := InstallTokens(segment);
        PackagesInAreValid(tokens, manager);
        FirstNpxIsValid(tokens);
      }
    }
  }

  lemma NameStartsToken(token: string, manager: string)
    requires token != "" && ParsePackageToken(token, manager).name != ""
    ensures ParsePackageToken(token, manager).name[0] == token[0]
  {
    hide Find;
    if manager == "pip" {
      PipNameStartsToken(token, 0);
    }
  }

  lemma {:induction false} PipNameStartsToken(token: string, i: nat)
    requires token != "" && i <= |PIP_OPERATORS| && ParsePip(token, i).name != ""
    ensures ParsePip(token, i).name[0] == token[0]
    decreases |PIP_OPERATORS| - i
  {
    hide Find;
    if i < |PIP_OPERATORS| && Find(token, PIP_OPERATORS[i]).None? {
      PipNameStartsToken(token, i + 1);
    }
  }

  // The package is one the parser may return: it stands for a file or an editable install of pip's, or its
  // name is made of the characters of names only, with a slash only in a scope or on github.com, and is no
  // noise word. npx alone may also name something in parentheses.
  predicate IsProper(p: Package) {
    || IsCleanName(p.name)
    || (p.name != "" && p.name[0] == '(' && p.pinned && p.manager == "pip" && p.version in {"file", "editable"})
    || (p.name != "" && p.name[0] == '(' && p.manager == "npx")
  }

  lemma PackagesOfAreProper(token: string, manager: string)
    ensures forall p | p in PackagesOf(token, manager) :: IsProper(p)
  {
    hide IsCleanName, ParsePackageToken, IsNoise, LooksLikeName;
    var q := ParsePackageToken(token, manager);
    OnePackageOf(token, manager);
    if q.name != "" && !IsSkippedToken(token) {
      NothingToParse(manager);
      NameStartsToken(token, manager);
      ValidIffClean(q.name);
    }
  }

  lemma NothingToParse(manager: string)
    ensures ParsePackageToken("", manager).name == ""
  {
    assert PIP_OPERATORS == ["==", ">=", "<=", "~=", "!="];
    assert forall k | 0 <= k < |PIP_OPERATORS| :: Find("", PIP_OPERATORS[k]).None?;
    NoPipOperator("", 0);
  }

  lemma {:induction false} PackagesInAreProper(tokens: seq<string>, manager: string)
    ensures forall p | p in PackagesIn(tokens, manager) :: IsProper(p)
    decreases |tokens|
  {
    hide PackagesOf, IsCleanName;
    if tokens != [] {
      var token, rest := tokens[0], tokens[1..];
      PackagesInAreProper(rest, manager);
      if !IsFlag(token) {
        PackagesOfAreProper(token, manager);
      } else if rest != [] {
        PackagesInAreProper(rest[1..], manager);
        assert FromFile(rest[0], manager).name[0] == '(' && Editable(manager).name[0] == '(';
      }
    }
  }

  lemma {:induction false} FirstNpxIsProper(tokens: seq<string>)
    ensures forall p | p in FirstNpx(tokens) :: IsProper(p)
  {
    hide IsCleanName, LooksLikeName;
    if tokens != [] {
      FirstNpxIsProper(tokens[1..]);
      if IsValidPackageName(tokens[0]) && tokens[0][0] != '(' {
        ValidIffClean(tokens[0]);
      }
    }
  }

  lemma ReturnedPackagesAreProper(command: string)
    ensures forall p | p in InstallCommandPackages(command) :: IsProper(p)
  {
    hide IsolateInstallSegment, StripDockerPrefix, PackagesIn, FirstNpx, IsProper, HasPattern, InstallTokens;
    var isolated := IsolateInstallSegment(command);
    if isolated.Some? {
      var segment := StripDockerPrefix(isolated.value);
      if HasPattern(segment) {
        var (tokens, manager) := InstallTokens(segment);
        PackagesInAreProper(tokens, manager);
        FirstNpxIsProper(tokens);
      }
    }
  }

  // ---------- Flags between packages ----------

  datatype Argument =
    | Plain(token: string)
    | Switch(flag: string)
    | Setting(flag: string, value: string)
    | PipSource(flag: string, value: string)

  predicate IsArgument(a: Argument, manager: string) {
    match a
    case Plain(token) => !IsFlag(token)
    case Switch(flag) => IsFlag(flag) && flag !in FLAGS_WITH_VALUES && !IsPipSource(flag, manager)
    case Setting(flag, _) => IsFlag(flag) && flag in FLAGS_WITH_VALUES && !IsPipSource(flag, manager)
    case PipSource(flag, _) => manager == "pip" && (flag == "-r" || flag == "-e")
  }

  function ArgumentTokens(arguments: seq<Argument>): seq<string> {
    if arguments == [] then []
    else
      (match arguments[0]
       case Plain(token) => [token]
       case Switch(flag) => [flag]
       case Setting(flag, value) => [flag, value]
       case PipSource(flag, value) => [flag, value]) + ArgumentTokens(arguments[1..])
  }

  // What an argument announces: the package of a plain token, a requirements file, an editable install.
  function Announced(arguments: seq<Argument>, manager: string): seq<Package> {
    if arguments == [] then []
    else
      (match arguments[0]
       case Plain(token) => PackagesOf(token, manager)
       case PipSource("-r", file) => [Package("(from " + file + ")", "file", true, "pip", "pypi.org")]
       case PipSource(_, _) => [Package("(editable install)", "editable", true, "pip", "pypi.org")]
       case _ => []) + Announced(arguments[1..], manager)
  }

  // Switches and settings, wherever they stand, change nothing about the packages found, and each of
  // pip's sources stands for one package.
  lemma {:induction false} ArgumentsAreRead(arguments: seq<Argument>, manager: string)
    requires forall a | a in arguments :: IsArgument(a, manager)
    ensures PackagesIn(ArgumentTokens(arguments), manager) == Announced(arguments, manager)
  {
    hide PackagesOf;
    if arguments != [] {
      var rest := ArgumentTokens(arguments[1..]);
      ArgumentsAreRead(arguments[1..], manager);
      assert IsArgument(arguments[0], manager);
      match arguments[0]
      case Plain(token) => OneTokenMore(token, rest, manager);
      case Switch(flag) => OneSwitch(flag, rest, manager);
      case Setting(flag, value) => OneSetting(flag, value, rest, manager);
      case PipSource(flag, value) => OneSource(flag, value, rest);
    }
  }

  lemma OneTokenMore(token: string, rest: seq<string>, manager: string)
    requires !IsFlag(token)
    ensures PackagesIn([token] + rest, manager) == PackagesOf(token, manager) + PackagesIn(rest, manager)
  {
    assert ([token] + rest)[1..] == rest;
  }

  lemma OneSwitch(flag: string, rest: seq<string>, manager: string)
    requires IsArgument(Switch(flag), manager)
    ensures PackagesIn([flag] + rest, manager) == PackagesIn(rest, manager)
  {
    assert ([flag] + rest)[1..] == rest;
  }

  lemma OneSetting(flag: string, value: string, rest: seq<string>, manager: string)
    requires IsArgument(Setting(flag, value), manager)
    ensures PackagesIn([flag, value] + rest, manager) == PackagesIn(rest, manager)
  {
    assert ([flag, value] + rest)[1..] == [value] + rest;
    assert ([value] + rest)[1..] == rest;
  }

  lemma OneSource(flag: string, value: string, rest: seq<string>)
    requires IsArgument(PipSource(flag, value), "pip")
    ensures PackagesIn([flag, value] + rest, "pip")
         == [if flag == "-r" then Package("(from " + value + ")", "file", true, "pip", "pypi.org")
             else Package("(editable install)", "editable", true, "pip", "pypi.org")] + PackagesIn(rest, "pip")
  {
    assert ([flag, value] + rest)[1..] == [value] + rest;
    assert ([value] + rest)[1..] == rest;
    assert Registry("pip") == "pypi.org";
  }

  // ---------- Printing and reading back ----------

  // The patterns that a list of packages follows. One more, "npm i ", stands for "npm install", and
  // npx runs a single program.
  predicate IsListing(k: nat) {
    k < 12 && k != 1
  }

  function Command(k: nat): string
    requires IsListing(k)
  {
    INSTALL_PATTERNS[k].prefix
  }

  function Manager(k: nat): string
    requires IsListing(k)
  {
    INSTALL_PATTERNS[k].manager
  }

  function PrintTokens(tokens: seq<string>): string {
    if tokens == [] then "" else " " + tokens[0] + PrintTokens(tokens[1..])
  }

  function PackageTokens(packages: seq<Package>): seq<string> {
    if packages == [] then [] else [PrintPackage(packages[0])] + PackageTokens(packages[1..])
  }

  function Print(k: nat, packages: seq<Package>): string
    requires IsListing(k)
  {
    Command(k) + PrintTokens(PackageTokens(packages))
  }

  predicate ArePrintable(packages: seq<Package>, manager: string) {
    forall p | p in packages :: IsPrintable(p, manager)
  }

  // Some install pattern first occurs after the start of the command.
  predicate EmbedsPattern(text: string) {
    InnerPattern(text, 0) < |INSTALL_PATTERNS|
  }

  // The tokens of printed packages give back those packages exactly when each token does.
  lemma {:induction false} TokensAreReadBackIff(packages: seq<Package>, manager: string)
    requires ArePrintable(packages, manager)
    ensures |PackagesIn(PackageTokens(packages), manager)| <= |packages|
    ensures PackagesIn(PackageTokens(packages), manager) == packages <==> forall p | p in packages :: IsReadBack(p)
  {
    hide IsPrintable, IsReadBack, PackagesIn, PackagesOf, PrintPackage;
    if packages == [] {
      NoTokens(manager);
    } else {
      var p, rest := packages[0], packages[1..];
      var token, tokens := PrintPackage(p), PackageTokens(rest);
      TokenIsReadBackIff(p, manager);
      OnePackageOf(token, manager);
      OneTokenMore(token, tokens, manager);
      TokensAreReadBackIff(rest, manager);
      FirstAndRest(PackagesOf(token, manager), PackagesIn(tokens, manager), packages);
      assert forall q :: q in packages <==> q == p || q in rest;
    }
  }

  lemma NoTokens(manager: string)
    ensures PackagesIn([], manager) == []
  {
  }

  lemma FirstAndRest(a: seq<Package>, b: seq<Package>, packages: seq<Package>)
    requires packages != [] && |a| <= 1 && |b| <= |packages| - 1
    ensures a + b == packages <==> a == [packages[0]] && b == packages[1..]
  {
    if a + b == packages {
      assert |a| == 1 && a[0] == (a + b)[0];
      assert b == (a + b)[1..];
    }
  }

  predicate AreWords(tokens: seq<string>) {
    forall t | t in tokens :: t != "" && IsPlainText(t)
  }

  lemma {:induction false} PackageTokensAreWords(packages: seq<Package>, manager: string)
    requires ArePrintable(packages, manager)
    ensures AreWords(PackageTokens(packages)) && |PackageTokens(packages)| == |packages|
  {
    hide IsPrintable, PrintPackage, IsPlainText;
    if packages != [] {
      TokenIsReadBackIff(packages[0], manager);
      PackageTokensAreWords(packages[1..], manager);
    }
  }

  // ---------- Splitting a printed command into words ----------

  lemma {:induction false} WordEnds(word: string, rest: string)
    requires IsPlainText(word) && (rest == "" || IsSpace(rest[0]))
    ensures WordLength(word + rest) == |word|
  {
    if word == "" {
      assert word + rest == rest;
    } else {
      assert (word + rest)[1..] == word[1..] + rest;
      WordEnds(word[1..], rest);
    }
  }

  lemma {:induction false} WordsAreReadBack(tokens: seq<string>)
    requires AreWords(tokens)
    ensures Tokens(PrintTokens(tokens)) == tokens
  {
    if tokens != [] {
      var word, rest := tokens[0], PrintTokens(tokens[1..]);
      var text := PrintTokens(tokens);
      assert text == " " + (word + rest) && text[1..] == word + rest;
      WordEnds(word, rest);
      assert (word + rest)[..|word|] == word && (word + rest)[|word|..] == rest;
      WordsAreReadBack(tokens[1..]);
    }
  }

  lemma {:induction false} TokensOfLStrip(s: string)
    ensures Tokens(LStrip(s)) == Tokens(s)
  {
    if s != [] && IsSpace(s[0]) {
      TokensOfLStrip(s[1..]);
    }
  }

  lemma {:induction false} PrintedEnd(tokens: seq<string>)
    requires AreWords(tokens) && tokens != []
    ensures var text := PrintTokens(tokens); text != "" && !IsSpace(text[|text| - 1])
  {
    var rest := PrintTokens(tokens[1..]);
    var text := PrintTokens(tokens);
    assert tokens[0] in tokens;
    if tokens[1..] == [] {
      assert text == " " + tokens[0];
    } else {
      PrintedEnd(tokens[1..]);
      assert text[|text| - 1] == rest[|rest| - 1];
    }
  }

  // No shell operator and no redirect.
  predicate IsSimple(s: string) {
    forall i | 0 <= i < |s| :: s[i] == ' ' || IsPlainChar(s[i])
  }

  lemma {:induction false} PrintedIsSimple(tokens: seq<string>)
    requires AreWords(tokens)
    ensures IsSimple(PrintTokens(tokens))
  {
    if tokens != [] {
      assert tokens[0] in tokens;
      PrintedIsSimple(tokens[1..]);
    }
  }

  lemma {:induction false} NoOperator(s: string, i: nat)
    requires IsSimple(s) && i <= |s|
    ensures NextOperator(s, i) == |s|
    decreases |s| - i
  {
    if i < |s| {
      OccurrenceAgrees(s, i, "||", 0);
      OccurrenceAgrees(s, i, "&&", 0);
      NoOperator(s, i + 1);
    }
  }

  lemma {:induction false} NoRedirect(s: string)
    requires IsSimple(s)
    ensures WithoutStderr(s) == s && WithoutStdout(s) == s
  {
    if s != [] {
      var w := SpaceRun(s);
      OccurrenceAgrees(s, w, "2>", 1);
      NoRedirect(s[1..]);
    }
  }

  lemma StripIsIdle(s: string)
    requires s != "" && !IsSpace(s[0]) && !IsSpace(s[|s| - 1])
    ensures Strip(s) == s
  {
  }

  // ---------- The table of patterns ----------

  // No command begins as an earlier pattern.
  lemma PatternsDiffer(j: nat, k: nat) returns (m: nat)
    requires j < k && IsListing(k)
    ensures m < |INSTALL_PATTERNS[j].prefix| && m < |Command(k)|
    ensures INSTALL_PATTERNS[j].prefix[m] != Command(k)[m]
  {
    if k <= 6 {
      m := EarlyDifference(j, k);
    } else {
      m := LateDifference(j, k);
    }
  }

  lemma EarlyDifference(j: nat, k: nat) returns (m: nat)
    requires j < k <= 6 && IsListing(k)
    ensures m < |INSTALL_PATTERNS[j].prefix| && m < |Command(k)| && INSTALL_PATTERNS[j].prefix[m] != Command(k)[m]
  {
    m := if k == 5 && j == 4 then 3 else if j >= 3 then (if k == 6 then 0 else 1) else 0;
  }

  lemma LateDifference(j: nat, k: nat) returns (m: nat)
    requires j < k && 6 < k && IsListing(k)
    ensures m < |INSTALL_PATTERNS[j].prefix| && m < |Command(k)| && INSTALL_PATTERNS[j].prefix[m] != Command(k)[m]
  {
    m := if k == 11 && j == 10 then 3 else if k == 8 && j == 7 then 1 else 0;
  }

  // The first two letters of the patterns.
  predicate IsStart(a: char, b: char) {
    || (a == 'n' && b == 'p') || (a == 'y' && b == 'a') || (a == 'p' && (b == 'n' || b == 'i'))
    || (a == 'c' && b == 'a') || (a == 'g' && (b == 'o' || b == 'e')) || (a == 'b' && b == 'r')
    || (a == 'a' && b == 'p')
  }

  lemma PatternStart(j: nat)
    requires j < |INSTALL_PATTERNS|
    ensures var p := INSTALL_PATTERNS[j].prefix; |p| >= 4 && IsStart(p[0], p[1])
  {
  }

  // In the command, with a blank behind it, only position e may look like the start of another.
  predicate IsQuiet(q: string, e: nat) {
    && |q| >= 6
    && (forall i | 0 <= i < |q| :: 'a' <= q[i] <= 'z' || q[i] == ' ' || q[i] == '-' || q[i] == '3')
    && (forall i | 0 < i < |q| - 1 && i != e :: !IsStart(q[i], q[i + 1]))
    && 'a' <= q[0] <= 'z' && 'a' <= q[|q| - 2] <= 'z' && q[|q| - 1] == ' '
  }

  function Lookalike(k: nat): nat {
    if k == 3 then 1 else if k == 6 || k == 7 then 3 else if k == 11 then 4 else 0
  }

  predicate IsQuietFrom(q: string, i: nat, e: nat)
    decreases |q| - i
  {
    i >= |q| - 1 ||
    (&& ('a' <= q[i] <= 'z' || q[i] == ' ' || q[i] == '-' || q[i] == '3')
     && (i == 0 || i == e || !IsStart(q[i], q[i + 1]))
     && IsQuietFrom(q, i + 1, e))
  }

  lemma {:induction false} QuietPart(q: string, i: nat, e: nat, k: nat)
    requires IsQuietFrom(q, i, e) && i <= k < |q| - 1
    ensures 'a' <= q[k] <= 'z' || q[k] == ' ' || q[k] == '-' || q[k] == '3'
    ensures k == 0 || k == e || !IsStart(q[k], q[k + 1])
    decreases k - i
  {
    if i < k {
      QuietPart(q, i + 1, e, k);
    }
  }

  lemma AllQuiet(q: string, e: nat)
    requires IsQuietFrom(q, 0, e) && |q| >= 6
    requires 'a' <= q[0] <= 'z' && 'a' <= q[|q| - 2] <= 'z' && q[|q| - 1] == ' '
    ensures IsQuiet(q, e)
  {
    forall k | 0 <= k < |q| - 1
      ensures 'a' <= q[k] <= 'z' || q[k] == ' ' || q[k] == '-' || q[k] == '3'
      ensures k == 0 || k == e || !IsStart(q[k], q[k + 1])
    {
      QuietPart(q, 0, e, k);
    }
  }

  lemma NpmIsQuiet()
    ensures IsQuiet("npm install ", 0) && IsQuiet("yarn add ", 0) && IsQuiet("pnpm add ", 1)
  {
    hide IsQuiet;
    AllQuiet("npm install ", 0);
    AllQuiet("yarn add ", 0);
    AllQuiet("pnpm add ", 1);
  }

  lemma PipIsQuiet()
    ensures IsQuiet("pip install ", 0) && IsQuiet("pip3 install ", 0) && IsQuiet("cargo add ", 3)
  {
    hide IsQuiet;
    AllQuiet("pip install ", 0);
    AllQuiet("pip3 install ", 0);
    AllQuiet("cargo add ", 3);
  }

  lemma GoIsQuiet()
    ensures IsQuiet("go get ", 3) && IsQuiet("gem install ", 0) && IsQuiet("brew install ", 0)
  {
    hide IsQuiet;
    AllQuiet("go get ", 3);
    AllQuiet("gem install ", 0);
    AllQuiet("brew install ", 0);
  }

  lemma AptIsQuiet()
    ensures IsQuiet("apt install ", 0)
  {
    hide IsQuiet;
    AllQuiet("apt install ", 0);
  }

  lemma AptGetIsQuiet()
    ensures IsQuiet("apt-get install ", 4)
  {
    hide IsQuiet;
    AllQuiet("apt-get install ", 4);
  }

  lemma CommandIsQuiet(k: nat)
    requires IsListing(k)
    ensures IsQuiet(Command(k) + " ", Lookalike(k)) && Manager(k) != "npx"
  {
    hide IsQuiet;
    NpmIsQuiet();
    PipIsQuiet();
    GoIsQuiet();
    AptIsQuiet();
    AptGetIsQuiet();
    CommandIs(k);
  }

  lemma CommandIs(k: nat)
    requires IsListing(k)
    ensures Command(k) + " "
         == ["npm install ", "", "yarn add ", "pnpm add ", "pip install ", "pip3 install ", "cargo add ", "go get ",
             "gem install ", "brew install ", "apt install ", "apt-get install "][k]
  {
  }

  // The lookalikes differ in a later letter.
  lemma LookalikeDiffers(k: nat, j: nat) returns (m: nat)
    requires k in [3, 6, 7, 11] && j < |INSTALL_PATTERNS|
    ensures m < |INSTALL_PATTERNS[j].prefix| && Lookalike(k) + m < |Command(k)|
    ensures Command(k)[Lookalike(k) + m] != INSTALL_PATTERNS[j].prefix[m]
  {
    hide INSTALL_PATTERNS, Command;
    if k == 3 {
      m := PnpmIsNotNpm(j);
    } else if k == 6 {
      m := CargoIsNotGo(j);
    } else {
      m := GetIsNotGem(k, j);
    }
  }

  lemma PnpmIsNotNpm(j: nat) returns (m: nat)
    requires j < |INSTALL_PATTERNS|
    ensures m < |INSTALL_PATTERNS[j].prefix| && 1 + m < |Command(3)|
    ensures Command(3)[1 + m] != INSTALL_PATTERNS[j].prefix[m]
  {
    m := if j <= 1 then 4 else if j == 12 then 2 else 0;
  }

  lemma CargoIsNotGo(j: nat) returns (m: nat)
    requires j < |INSTALL_PATTERNS|
    ensures m < |INSTALL_PATTERNS[j].prefix| && 3 + m < |Command(6)|
    ensures Command(6)[3 + m] != INSTALL_PATTERNS[j].prefix[m]
  {
    m := if j == 7 then 3 else if j == 8 then 1 else 0;
  }

  lemma GetIsNotGem(k: nat, j: nat) returns (m: nat)
    requires (k == 7 || k == 11) && j < |INSTALL_PATTERNS|
    ensures m < |INSTALL_PATTERNS[j].prefix| && Lookalike(k) + m < |Command(k)|
    ensures Command(k)[Lookalike(k) + m] != INSTALL_PATTERNS[j].prefix[m]
  {
    m := if j == 7 then 1 else if j == 8 then 2 else 0;
  }

  // No pattern begins inside a command that a blank follows.
  lemma NothingInsideCommand(k: nat, at: nat, j: nat) returns (m: nat)
    requires IsListing(k) && 0 < at <= |Command(k)| && j < |INSTALL_PATTERNS|
    ensures m < |INSTALL_PATTERNS[j].prefix| && at + m <= |Command(k)|
    ensures (Command(k) + " ")[at + m] != INSTALL_PATTERNS[j].prefix[m]
  {
    hide INSTALL_PATTERNS, Command;
    var q, p := Command(k) + " ", INSTALL_PATTERNS[j].prefix;
    CommandIsQuiet(k);
    PatternStart(j);
    if at == |Command(k)| {
      m := 0;
    } else if at != Lookalike(k) {
      m := if q[at] != p[0] then 0 else 1;
    } else {
      m := LookalikeDiffers(k, j);
    }
  }

  lemma CommandStarts(k: nat)
    requires IsListing(k)
    ensures var q := Command(k);
            |q| >= 5 && IsSimple(q) && !IsSpace(q[0]) && !IsSpace(q[|q| - 1]) && Manager(k) != "npx"
  {
    hide INSTALL_PATTERNS, Command, IsStart;
    CommandIsQuiet(k);
    var q := Command(k) + " ";
    assert forall i | 0 <= i < |Command(k)| :: q[i] == Command(k)[i];
  }

  // ---------- Counting blanks ----------

  function Spaces(s: string): nat {
    if s == "" then 0 else (if s[0] == ' ' then 1 else 0) + Spaces(s[1..])
  }

  lemma {:induction false} SpacesAppend(a: string, b: string)
    ensures Spaces(a + b) == Spaces(a) + Spaces(b)
  {
    if a == "" {
      assert a + b == b;
    } else {
      assert (a + b)[1..] == a[1..] + b;
      SpacesAppend(a[1..], b);
    }
  }

  lemma {:induction false} NoSpaces(s: string)
    requires forall i | 0 <= i < |s| :: s[i] != ' '
    ensures Spaces(s) == 0
  {
    if s != "" {
      NoSpaces(s[1..]);
    }
  }

  lemma {:induction false} PrintedSpaces(tokens: seq<string>)
    requires AreWords(tokens)
    ensures Spaces(PrintTokens(tokens)) == |tokens|
  {
    if tokens != [] {
      assert tokens[0] in tokens;
      NoSpaces(tokens[0]);
      PrintedSpaces(tokens[1..]);
      SpacesAppend(" ", tokens[0]);
      SpacesAppend(" " + tokens[0], PrintTokens(tokens[1..]));
    }
  }

  // Where every white space is a blank, there is at most one word more than there are blanks.
  lemma {:induction false} FewTokens(s: string)
    requires forall i | 0 <= i < |s| :: IsSpace(s[i]) ==> s[i] == ' '
    ensures |Tokens(s)| <= Spaces(s) + 1
    ensures s == "" || IsSpace(s[0]) ==> |Tokens(s)| <= Spaces(s)
    decreases |s|
  {
    if s != "" {
      if IsSpace(s[0]) {
        FewTokens(s[1..]);
      } else {
        var n := WordLength(s);
        WordStops(s);
        FewTokens(s[n..]);
        assert s == s[..n] + s[n..];
        SpacesAppend(s[..n], s[n..]);
      }
    }
  }

  lemma {:induction false} WordStops(s: string)
    ensures WordLength(s) < |s| ==> IsSpace(s[WordLength(s)])
  {
    if s != "" && !IsSpace(s[0]) {
      WordStops(s[1..]);
    }
  }

  lemma {:induction false} FewPackages(tokens: seq<string>, manager: string)
    ensures |PackagesIn(tokens, manager)| <= |tokens|
    decreases |tokens|
  {
    if tokens != [] {
      FewPackages(tokens[1..], manager);
      if tokens[1..] != [] {
        FewPackages(tokens[1..][1..], manager);
      }
    }
  }

  lemma {:induction false} OneNpx(tokens: seq<string>)
    ensures |FirstNpx(tokens)| <= |tokens|
  {
    if tokens != [] {
      OneNpx(tokens[1..]);
    }
  }

  lemma StripDropsSpaces(s: string)
    ensures Spaces(Strip(s)) <= Spaces(s)
    ensures forall i | 0 <= i < |Strip(s)| :: Strip(s)[i] in s
  {
    var v := RStripSplit(s);
    var w := LStripSplit(RStrip(s));
    SpacesAppend(RStrip(s), v);
    SpacesAppend(w, LStrip(RStrip(s)));
    assert forall i | 0 <= i < |Strip(s)| :: Strip(s)[i] == s[|w| + i];
  }

  // ---------- The printed command ----------

  lemma StartsWithPattern(text: string, k: nat)
    requires k < |INSTALL_PATTERNS| && INSTALL_PATTERNS[k].prefix <= text
    ensures Find(text, INSTALL_PATTERNS[k].prefix) == Some(0) && HasPattern(text)
  {
    assert OccursAt(text, 0, INSTALL_PATTERNS[k].prefix);
  }

  lemma SimpleTextIsIsolated(text: string, k: nat)
    requires k < |INSTALL_PATTERNS| && INSTALL_PATTERNS[k].prefix <= text
    requires text != "" && IsSimple(text) && !IsSpace(text[0]) && !IsSpace(text[|text| - 1])
    ensures IsolateInstallSegment(text) == Some(text)
  {
    hide HasPattern;
    NoOperator(text, 0);
    NoRedirect(text);
    StripIsIdle(text);
    StartsWithPattern(text, k);
  }

  // The printed words of a listing command.
  lemma PrintedShape(k: nat, tokens: seq<string>)
    requires IsListing(k) && AreWords(tokens)
    ensures var text, printed := Command(k) + PrintTokens(tokens), PrintTokens(tokens);
            && IsSimple(text) && text != "" && (printed == "" || printed[0] == ' ')
            && Command(k) <= text && text[|Command(k)|..] == printed && Spaces(printed) == |tokens|
            && IsolateInstallSegment(text) == Some(text)
  {
    hide *;
    var text, printed := Command(k) + PrintTokens(tokens), PrintTokens(tokens);
    CommandStarts(k);
    PrintedIsSimple(tokens);
    PrintedSpaces(tokens);
    PrintedBegin(tokens);
    if tokens != [] {
      PrintedEnd(tokens);
    }
    SimpleBoth(Command(k), printed);
    JoinedEnds(Command(k), printed);
    ListingIsIsolated(text, k);
  }

  lemma PrintedBegin(tokens: seq<string>)
    ensures PrintTokens(tokens) == "" || PrintTokens(tokens)[0] == ' '
    ensures tokens == [] <==> PrintTokens(tokens) == ""
  {
  }

  lemma SimpleBoth(a: string, b: string)
    requires IsSimple(a) && IsSimple(b)
    ensures IsSimple(a + b)
  {
  }

  lemma JoinedEnds(a: string, b: string)
    requires a != ""
    ensures (a + b)[0] == a[0] && a <= a + b && (a + b)[|a|..] == b
    ensures (a + b)[|a + b| - 1] == if b == "" then a[|a| - 1] else b[|b| - 1]
  {
  }

  lemma ListingIsIsolated(text: string, k: nat)
    requires IsListing(k) && Command(k) <= text
    requires text != "" && IsSimple(text) && !IsSpace(text[0]) && !IsSpace(text[|text| - 1])
    ensures IsolateInstallSegment(text) == Some(text)
  {
    hide IsolateInstallSegment, IsPlainChar, IsSpace;
    SimpleTextIsIsolated(text, k);
  }

  // ---------- Without an embedded pattern: read back ----------

  lemma OnlyPattern(text: string, k: nat)
    requires IsListing(k) && Command(k) <= text && !EmbedsPattern(text)
    ensures FirstPattern(text, 0) == k
  {
    StartsWithPattern(text, k);
    forall j | 0 <= j < k
      ensures Find(text, INSTALL_PATTERNS[j].prefix).None?
    {
      EarlierPatternIsAbsent(text, j, k);
    }
  }

  lemma EarlierPatternIsAbsent(text: string, j: nat, k: nat)
    requires IsListing(k) && j < k && Command(k) <= text && !EmbedsPattern(text)
    ensures Find(text, INSTALL_PATTERNS[j].prefix).None?
  {
    hide Find;
    var p := INSTALL_PATTERNS[j].prefix;
    assert !InnerAt(text, j);
    StartsOtherwise(text, j, k);
    FoundOccurs(text, p);
  }

  lemma StartsOtherwise(text: string, j: nat, k: nat)
    requires j < k && IsListing(k) && Command(k) <= text
    ensures !OccursAt(text, 0, INSTALL_PATTERNS[j].prefix)
  {
    hide Command;
    var m := PatternsDiffer(j, k);
    assert text[m] == Command(k)[m];
    OccurrenceAgrees(text, 0, INSTALL_PATTERNS[j].prefix, m);
  }

  lemma StripKeepsTokens(tokens: seq<string>)
    requires AreWords(tokens)
    ensures Tokens(Strip(PrintTokens(tokens))) == tokens
  {
    var s := PrintTokens(tokens);
    WordsAreReadBack(tokens);
    TokensOfLStrip(s);
    if tokens != [] {
      PrintedEnd(tokens);
    }
    assert RStrip(s) == s;
  }

  lemma ReadBackWithoutEmbedding(k: nat, packages: seq<Package>)
    requires IsListing(k) && ArePrintable(packages, Manager(k)) && !EmbedsPattern(Print(k, packages))
    ensures InstallCommandPackages(Print(k, packages)) == PackagesIn(PackageTokens(packages), Manager(k))
  {
    hide *;
    var text, tokens := Print(k, packages), PackageTokens(packages);
    PackageTokensAreWords(packages, Manager(k));
    PrintIs(k, packages);
    PrintedShape(k, tokens);
    PrintedSegment(text, k);
    StripKeepsTokens(tokens);
    CommandStarts(k);
    SegmentIsRead(text, tokens, Manager(k));
  }

  lemma PrintIs(k: nat, packages: seq<Package>)
    requires IsListing(k)
    ensures Print(k, packages) == Command(k) + PrintTokens(PackageTokens(packages))
  {
  }

  lemma SegmentIsRead(text: string, tokens: seq<string>, manager: string)
    requires IsolateInstallSegment(text) == Some(text) && text != "" && manager != "npx"
    requires StripDockerPrefix(text) == text && HasPattern(text) && InstallTokens(text) == (tokens, manager)
    ensures InstallCommandPackages(text) == PackagesIn(tokens, manager)
  {
    hide PackagesIn, FirstNpx, HasPattern, InstallTokens, IsolateInstallSegment, StripDockerPrefix;
  }

  lemma PrintedSegment(text: string, k: nat)
    requires IsListing(k) && Command(k) <= text && !EmbedsPattern(text)
    ensures StripDockerPrefix(text) == text && HasPattern(text)
    ensures InstallTokens(text) == (Tokens(Strip(text[|Command(k)|..])), Manager(k))
  {
    OnlyPattern(text, k);
    StartsWithPattern(text, k);
    hide Tokens, Strip, Find;
  }

  // ---------- With one: something is lost ----------

  lemma HasSpace(p: string, i: nat)
    requires i < |p| && p[i] == ' '
    ensures Spaces(p) >= 1
  {
    assert p == p[..i] + ([' '] + p[i + 1..]);
    SpacesAppend(p[..i], [' '] + p[i + 1..]);
    assert ([' '] + p[i + 1..])[1..] == p[i + 1..];
  }

  lemma PatternHasSpace(k: nat)
    requires k < |INSTALL_PATTERNS|
    ensures Spaces(INSTALL_PATTERNS[k].prefix) >= 1
  {
    hide Spaces;
    HasSpace(INSTALL_PATTERNS[k].prefix, [3, 3, 4, 4, 3, 4, 5, 2, 3, 4, 3, 7, 3][k]);
  }

  // An embedded pattern begins inside the list of packages.
  lemma EmbeddedIsLate(text: string, k: nat, at: nat, j: nat)
    requires IsListing(k) && Command(k) <= text && j < |INSTALL_PATTERNS|
    requires |text| > |Command(k)| ==> text[|Command(k)|] == ' '
    requires 0 < at && OccursAt(text, at, INSTALL_PATTERNS[j].prefix)
    ensures |Command(k)| < at
  {
    hide INSTALL_PATTERNS, Command;
    var q, p := Command(k), INSTALL_PATTERNS[j].prefix;
    assert text[..|q|] == q;
    forall m | 0 <= m < |p| ensures text[at + m] == p[m] {
      OccurrenceAgrees(text, at, p, m);
    }
    if at <= |q| {
      var m := NothingInsideCommand(k, at, j);
    }
  }

  lemma AfterPattern(segment: string, at: nat, k: nat)
    requires k < |INSTALL_PATTERNS| && OccursAt(segment, at, INSTALL_PATTERNS[k].prefix)
    ensures Spaces(segment[at + |INSTALL_PATTERNS[k].prefix|..]) < Spaces(segment)
  {
    hide Spaces;
    var p := INSTALL_PATTERNS[k].prefix;
    var tail := segment[at + |p|..];
    PatternHasSpace(k);
    assert segment == segment[..at] + (p + tail);
    SpacesAppend(segment[..at], p + tail);
    SpacesAppend(p, tail);
  }

  lemma StrippedTokens(tail: string)
    requires IsSimple(tail)
    ensures |Tokens(Strip(tail))| <= Spaces(tail) + 1
  {
    hide Spaces, Tokens, Strip;
    StripDropsSpaces(tail);
    FewTokens(Strip(tail));
  }

  lemma SimpleSuffix(s: string, i: nat)
    requires IsSimple(s) && i <= |s|
    ensures IsSimple(s[i..])
  {
  }

  // A piece of the package list that begins with a pattern yields at most as many packages as it
  // has blanks.
  lemma FewerPackages(segment: string)
    requires IsSimple(segment) && HasPattern(segment)
    ensures |PackagesInSegment(segment)| <= Spaces(segment)
  {
    hide Spaces, Tokens, Strip, PackagesIn, FirstNpx, IsSimple, InstallTokens;
    var (tokens, manager) := InstallTokens(segment);
    FewInstallTokens(segment);
    FewPackages(tokens, manager);
    OneNpx(tokens);
  }

  lemma FewInstallTokens(segment: string)
    requires IsSimple(segment) && HasPattern(segment)
    ensures |InstallTokens(segment).0| <= Spaces(segment)
  {
    hide Spaces, Tokens, Strip, IsSimple, IsSpace, INSTALL_PATTERNS;
    var k := FirstPattern(segment, 0);
    var p := INSTALL_PATTERNS[k].prefix;
    var at := Find(segment, p).value;
    AfterPattern(segment, at, k);
    SimpleSuffix(segment, at + |p|);
    StrippedTokens(segment[at + |p|..]);
  }

  lemma DroppedStart(printed: string, cut: nat)
    requires 0 < cut <= |printed| && printed[0] == ' '
    ensures Spaces(printed[cut..]) < Spaces(printed)
  {
    assert printed == printed[..cut] + printed[cut..];
    SpacesAppend(printed[..cut], printed[cut..]);
    HasSpace(printed[..cut], 0);
  }

  lemma IsolatedPackages(text: string)
    requires IsolateInstallSegment(text) == Some(text) && text != ""
    ensures InstallCommandPackages(text) == PackagesInSegment(StripDockerPrefix(text))
  {
  }

  lemma SuffixHasPattern(text: string, at: nat, k: nat)
    requires k < |INSTALL_PATTERNS| && OccursAt(text, at, INSTALL_PATTERNS[k].prefix)
    ensures HasPattern(text[at..])
  {
    var p := INSTALL_PATTERNS[k].prefix;
    assert text[at..][0..|p|] == text[at..at + |p|];
    assert OccursAt(text[at..], 0, p);
  }

  // An embedded pattern takes over, and at least the first package is gone.
  lemma EmbeddedCommand(text: string, k: nat, printed: string)
    requires IsListing(k) && text == Command(k) + printed && IsSimple(text) && EmbedsPattern(text)
    requires printed == "" || printed[0] == ' '
    ensures |PackagesInSegment(StripDockerPrefix(text))| < Spaces(printed)
  {
    hide PackagesInSegment, Spaces, HasPattern, INSTALL_PATTERNS;
    var j := InnerPattern(text, 0);
    var at := Find(text, INSTALL_PATTERNS[j].prefix).value;
    EmbeddedIsLate(text, k, at, j);
    assert text[at..] == printed[at - |Command(k)|..];
    DroppedStart(printed, at - |Command(k)|);
    SuffixHasPattern(text, at, j);
    SimpleSuffix(text, at);
    FewerPackages(text[at..]);
  }

  lemma EmbeddingLosesWords(k: nat, words: seq<string>)
    requires IsListing(k) && AreWords(words) && EmbedsPattern(Command(k) + PrintTokens(words))
    ensures |InstallCommandPackages(Command(k) + PrintTokens(words))| < |words|
  {
    hide *;
    var text := Command(k) + PrintTokens(words);
    PrintedShape(k, words);
    EmbeddedCommand(text, k, PrintTokens(words));
    IsolatedPackages(text);
  }

  lemma EmbeddingLosesPackages(k: nat, packages: seq<Package>)
    requires IsListing(k) && ArePrintable(packages, Manager(k)) && EmbedsPattern(Print(k, packages))
    ensures |InstallCommandPackages(Print(k, packages))| < |packages|
  {
    hide *;
    PackageTokensAreWords(packages, Manager(k));
    PrintIs(k, packages);
    EmbeddingLosesWords(k, PackageTokens(packages));
  }

  // Main result: for every manager, a printed list of packages is read back, in order, exactly when no
  // install pattern occurs inside the printed command and each of its tokens can be read back.
  lemma RoundTripIff(k: nat, packages: seq<Package>)
    requires IsListing(k) && ArePrintable(packages, Manager(k))
    ensures InstallCommandPackages(Print(k, packages)) == packages
       <==> !EmbedsPattern(Print(k, packages)) && forall p | p in packages :: IsReadBack(p)
  {
    hide *;
    if EmbedsPattern(Print(k, packages)) {
      EmbeddingLosesPackages(k, packages);
    } else {
      ReadBackWithoutEmbedding(k, packages);
      TokensAreReadBackIff(packages, Manager(k));
    }
  }

  lemma PatternInside(text: string, at: nat, k: nat)
    requires k < |INSTALL_PATTERNS| && OccursAt(text, at, INSTALL_PATTERNS[k].prefix)
    requires !OccursAt(text, 0, INSTALL_PATTERNS[k].prefix)
    ensures EmbedsPattern(text)
  {
    assert InnerAt(text, k);
  }

  lemma GoGetIsInside(text: string)
    requires text == "pip install django getmac"
    ensures EmbedsPattern(text)
  {
    assert INSTALL_PATTERNS[7].prefix == "go get";
    assert text[16..22] == "go get";
    OccurrenceAgrees(text, 0, "go get", 0);
    PatternInside(text, 16, 7);
  }

  lemma TwoNames()
    ensures AreWords(["django", "getmac"])
    ensures Command(4) + PrintTokens(["django", "getmac"]) == "pip install django getmac"
  {
    hide IsPlainText, PrintTokens;
    LettersArePlain("django");
    LettersArePlain("getmac");
    PrintedPair("django", "getmac");
    assert "pip install" + (" django" + " getmac") == "pip install django getmac";
  }

  lemma LettersArePlain(word: string)
    requires forall i | 0 <= i < |word| :: 'a' <= word[i] <= 'z'
    ensures IsPlainText(word)
  {
  }

  lemma PrintedPair(a: string, b: string)
    ensures PrintTokens([a, b]) == " " + a + (" " + b)
  {
    assert [a, b][1..] == [b] && [b][1..] == [];
    assert PrintTokens([b]) == " " + b;
  }

  // It does happen: two ordinary names side by side contain "go get", and one of them is lost.
  lemma DjangoGetmacIsMisread()
    ensures |InstallCommandPackages("pip install django getmac")| < 2
  {
    hide *;
    TwoNames();
    GoGetIsInside("pip install django getmac");
    PipIsListing();
    EmbeddingLosesWords(4, ["django", "getmac"]);
  }

  lemma PipIsListing()
    ensures IsListing(4) && Command(4) == "pip install"
  {
  }
}
