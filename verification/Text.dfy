/** The few string operations of Python that the modelled code relies on. */
module Text {

  // str.isspace on one character; str.strip and str.split() use the same class.
  predicate IsSpace(c: char) {
    || '\t' <= c <= '\r'
    || '\U{1C}' <= c <= ' '
    || c == '\U{85}' || c == '\U{A0}' || c == '\U{1680}'
    || '\U{2000}' <= c <= '\U{200A}'
    || c == '\U{2028}' || c == '\U{2029}' || c == '\U{202F}' || c == '\U{205F}' || c == '\U{3000}'
  }

  // not s.strip()
  predicate IsBlank(s: string) {
    s == [] || (IsSpace(s[0]) && IsBlank(s[1..]))
  }

  // str.lower, on ASCII letters
  function Lower(s: string): string {
    seq(|s|, i requires 0 <= i < |s| => if 'A' <= s[i] <= 'Z' then s[i] - 'A' + 'a' else s[i])
  }

  // str.lstrip
  function LStrip(s: string): string {
    if s != [] && IsSpace(s[0]) then LStrip(s[1..]) else s
  }

  // str.rstrip
  function RStrip(s: string): string {
    if s != [] && IsSpace(s[|s| - 1]) then RStrip(s[..|s| - 1]) else s
  }

  // str.strip
  function Strip(s: string): string {
    LStrip(RStrip(s))
  }

  lemma {:induction false} BlankAppend(a: string, b: string)
    ensures IsBlank(a + b) <==> IsBlank(a) && IsBlank(b)
  {
    if a == [] {
      assert a + b == b;
    } else {
      BlankAppend(a[1..], b);
      assert (a + b)[1..] == a[1..] + b;
    }
  }

  lemma {:induction false} LStripBlank(s: string)
    ensures LStrip(s) == [] <==> IsBlank(s)
    ensures LStrip(s) != [] ==> !IsSpace(LStrip(s)[0])
  {
    if s != [] && IsSpace(s[0]) {
      LStripBlank(s[1..]);
    }
  }

  lemma {:induction false} LStripPrefix(w: string, s: string)
    requires IsBlank(w)
    ensures LStrip(w + s) == LStrip(s)
  {
    if w == [] {
      assert w + s == s;
    } else {
      LStripPrefix(w[1..], s);
      assert (w + s)[1..] == w[1..] + s;
    }
  }

  lemma RStripStep(s: string, c: char)
    requires IsSpace(c)
    ensures RStrip(s + [c]) == RStrip(s)
  {
    assert (s + [c])[..|s|] == s;
  }

  lemma {:induction false} BlankInit(w: string)
    requires IsBlank(w) && w != []
    ensures IsBlank(w[..|w| - 1]) && IsSpace(w[|w| - 1])
  {
    if |w| > 1 {
      BlankInit(w[1..]);
      assert w[..|w| - 1][1..] == w[1..][..|w| - 2];
    }
  }

  lemma {:induction false} RStripSuffix(s: string, w: string)
    requires IsBlank(w)
    ensures RStrip(s + w) == RStrip(s)
    decreases |w|
  {
    hide RStrip, IsBlank;
    if w == [] {
      assert s + w == s;
    } else {
      var n := |w| - 1;
      BlankInit(w);
      RStripSuffix(s, w[..n]);
      assert s + w == (s + w[..n]) + [w[n]];
      RStripStep(s + w[..n], w[n]);
    }
  }

  // rstrip only removes a blank suffix and stops at a character that is not white space.
  lemma {:induction false} RStripSplit(s: string) returns (w: string)
    ensures s == RStrip(s) + w && IsBlank(w)
    ensures var r := RStrip(s); r == [] || !IsSpace(r[|r| - 1])
    decreases |s|
  {
    w := [];
    if s != [] && IsSpace(s[|s| - 1]) {
      var n := |s| - 1;
      var v := RStripSplit(s[..n]);
      w := v + [s[n]];
      BlankAppend(v, [s[n]]);
      assert s == s[..n] + [s[n]];
    }
  }

  lemma {:induction false} LStripSplit(s: string) returns (w: string)
    ensures s == w + LStrip(s) && IsBlank(w)
  {
    w := [];
    if s != [] && IsSpace(s[0]) {
      var v := LStripSplit(s[1..]);
      w := [s[0]] + v;
    }
  }

  // The index of the first newline at or after i, or |s|.
  function NewlineFrom(s: string, i: nat): (r: nat)
    requires i <= |s|
    ensures i <= r <= |s|
    ensures forall k :: i <= k < r ==> s[k] != '\n'
    ensures r < |s| ==> s[r] == '\n'
    decreases |s| - i
  {
    if i == |s| || s[i] == '\n' then i else NewlineFrom(s, i + 1)
  }

  // The newline-terminated lines of s, without their newlines.
  function CompleteLines(s: string): seq<string> {
    var n := NewlineFrom(s, 0);
    if n < |s| then [s[..n]] + CompleteLines(s[n + 1..]) else []
  }

  // What follows the last newline of s.
  function Tail(s: string): (r: string)
    ensures NewlineFrom(r, 0) == |r|
  {
    var n := NewlineFrom(s, 0);
    if n < |s| then Tail(s[n + 1..]) else s
  }

  // str.split("\n")
  function SplitLines(s: string): seq<string> {
    CompleteLines(s) + [Tail(s)]
  }

  lemma CompleteLinesStep(line: string, rest: string)
    requires NewlineFrom(line, 0) == |line|
    ensures CompleteLines(line + ['\n'] + rest) == [line] + CompleteLines(rest)
    ensures Tail(line + ['\n'] + rest) == Tail(rest)
  {
    var s := line + ['\n'] + rest;
    assert s[|line|] == '\n';
    assert NewlineFrom(s, 0) == |line|;
    assert s[..|line|] == line && s[|line| + 1..] == rest;
  }

  // Appending text only ever touches the unfinished last line.
  lemma {:induction false} CompleteLinesAppend(a: string, b: string)
    ensures CompleteLines(a + b) == CompleteLines(a) + CompleteLines(Tail(a) + b)
    ensures Tail(a + b) == Tail(Tail(a) + b)
    decreases |a|
  {
    var n := NewlineFrom(a, 0);
    if n < |a| {
      var line, rest := a[..n], a[n + 1..];
      assert NewlineFrom(line, 0) == |line|;
      assert a == line + ['\n'] + rest;
      assert a + b == line + ['\n'] + (rest + b);
      CompleteLinesAppend(rest, b);
      CompleteLinesStep(line, rest);
      CompleteLinesStep(line, rest + b);
      Associative([line], CompleteLines(rest), CompleteLines(Tail(rest) + b));
    }
  }

  lemma Associative<T>(a: seq<T>, b: seq<T>, c: seq<T>)
    ensures a + (b + c) == a + b + c
  {
  }

  // '\n'.join
  function JoinLines(lines: seq<string>): string
    requires lines != []
  {
    if |lines| == 1 then lines[0] else lines[0] + ['\n'] + JoinLines(lines[1..])
  }

  // Splitting is the inverse of joining: it yields the lines that make up the text.
  lemma {:induction false} SplitThenJoin(s: string)
    ensures JoinLines(SplitLines(s)) == s && forall line | line in SplitLines(s) :: '\n' !in line
    decreases |s|
  {
    var n := NewlineFrom(s, 0);
    if n < |s| {
      var rest := s[n + 1..];
      SplitThenJoin(rest);
      assert SplitLines(s) == [s[..n]] + SplitLines(rest);
      assert SplitLines(s)[1..] == SplitLines(rest);
      assert s == s[..n] + ['\n'] + rest;
    }
  }

  // A line of which white space is all, or that has a core with white space around it.
  lemma StripIsCore(s: string) returns (before: string, after: string)
    ensures s == before + Strip(s) + after && IsBlank(before) && IsBlank(after)
    ensures var core := Strip(s); core != "" ==> !IsSpace(core[0]) && !IsSpace(core[|core| - 1])
    ensures Strip(s) == "" <==> IsBlank(s)
  {
    hide RStrip, LStrip, IsBlank, IsSpace;
    after := RStripSplit(s);
    var r := RStrip(s);
    before := LStripSplit(r);
    var core := LStrip(r);
    LStripBlank(r);
    BlankAppend(r, after);
    assert r == before + core;
    if core != "" {
      assert core[|core| - 1] == r[|r| - 1];
    }
  }

  lemma {:induction false} BlankIff(s: string)
    ensures IsBlank(s) <==> forall i | 0 <= i < |s| :: IsSpace(s[i])
  {
    if s != "" {
      BlankIff(s[1..]);
      assert forall i | 0 < i < |s| :: s[i] == s[1..][i - 1];
    }
  }

  // The same letter in either case.
  predicate SameLetter(c: char, d: char) {
    || c == d
    || ('A' <= c <= 'Z' && d as int == c as int + 32)
    || ('A' <= d <= 'Z' && c as int == d as int + 32)
  }

  // Two texts are equal in lower case exactly when they agree up to the case of letters.
  lemma EqualInLowerIff(s: string, t: string)
    ensures Lower(s) == Lower(t) <==> |s| == |t| && forall i | 0 <= i < |s| :: SameLetter(s[i], t[i])
    ensures forall i | 0 <= i < |s| :: !('A' <= Lower(s)[i] <= 'Z')
  {
    if |s| == |t| {
      forall i | 0 <= i < |s|
        ensures Lower(s)[i] == Lower(t)[i] <==> SameLetter(s[i], t[i])
      {
      }
      if forall i | 0 <= i < |s| :: SameLetter(s[i], t[i]) {
        assert forall i | 0 <= i < |s| :: Lower(s)[i] == Lower(t)[i];
      }
    }
  }
}
