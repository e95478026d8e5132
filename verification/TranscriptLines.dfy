/** The records of a transcript, and what reading it in pieces does to them. */
module TranscriptLines {
  import opened Text

  // ---------- What one read hands to the record decoder ----------

  // The non-blank lines, each without outer white space (JSON decoding ignores it).
  function Records(lines: seq<string>): seq<string> {
    if lines == [] then [] else Record(lines[0]) + Records(lines[1..])
  }

  function Record(line: string): seq<string> {
    if IsBlank(line) then [] else [Strip(line)]
  }

  // The chunk is stripped as a whole before it is split.
  function ChunkLines(data: string): seq<string> {
    SplitLines(Strip(data))
  }

  function FirstOf(s: string): string {
    s[..NewlineFrom(s, 0)]
  }

  // Half-written-line condition: either side of the cut is blank up to the nearest newline.
  predicate CleanCut(a: string, b: string) {
    IsBlank(Tail(a)) || IsBlank(FirstOf(b))
  }

  lemma {:induction false} RecordsAppend(a: seq<string>, b: seq<string>)
    ensures Records(a + b) == Records(a) + Records(b)
  {
    if a == [] {
      assert a + b == b;
    } else {
      hide Record;
      RecordsAppend(a[1..], b);
      assert (a + b)[1..] == a[1..] + b && (a + b)[0] == a[0];
      Associative(Record(a[0]), Records(a[1..]), Records(b));
    }
  }

  // ---------- Outer white space never changes a record ----------

  lemma NotBlankAfterStrip(s: string)
    requires !IsBlank(s)
    ensures RStrip(s) != ""
  {
    var v := RStripSplit(s);
    assert RStrip(s) == "" ==> s == v;
  }

  lemma RStripStops(s: string)
    requires s != "" && !IsSpace(s[|s| - 1])
    ensures RStrip(s) == s
  {
  }

  lemma StripBlankPrefix(w: string, s: string)
    requires IsBlank(w) && !IsBlank(s)
    ensures Strip(w + s) == Strip(s)
  {
    hide IsBlank, LStrip, RStrip;
    var v := RStripSplit(s);
    var r := RStrip(s);
    NotBlankAfterStrip(s);
    assert (w + r)[|w + r| - 1] == r[|r| - 1];
    RStripStops(w + r);
    RStripSuffix(w + r, v);
    assert w + s == (w + r) + v;
    LStripPrefix(w, r);
  }

  lemma RecordBlankPrefix(w: string, s: string)
    requires IsBlank(w)
    ensures Record(w + s) == Record(s)
  {
    hide IsBlank, Strip;
    BlankAppend(w, s);
    if !IsBlank(s) {
      StripBlankPrefix(w, s);
    }
  }

  lemma RecordBlankSuffix(s: string, w: string)
    requires IsBlank(w)
    ensures Record(s + w) == Record(s)
  {
    BlankAppend(s, w);
    RStripSuffix(s, w);
  }

  // ---------- Cutting a text in two ----------

  // The lines of s after its first.
  function RestOf(s: string): seq<string> {
    var n := NewlineFrom(s, 0);
    if n < |s| then SplitLines(s[n + 1..]) else []
  }

  lemma SplitLinesStep(line: string, rest: string)
    requires NewlineFrom(line, 0) == |line|
    ensures SplitLines(line + ['\n'] + rest) == [line] + SplitLines(rest)
  {
    CompleteLinesStep(line, rest);
    Associative([line], CompleteLines(rest), [Tail(rest)]);
  }

  lemma SplitFirst(x: string, b: string)
    requires NewlineFrom(x, 0) == |x|
    ensures SplitLines(x + b) == [x + FirstOf(b)] + RestOf(b)
  {
    var n := NewlineFrom(b, 0);
    NoNewlineAppend(x, b[..n]);
    if n < |b| {
      SplitFirstStep(x, b[..n], b[n + 1..]);
      JoinAtNewline(x, b, n);
    } else {
      assert b[..n] == b;
      NoNewline(x + b);
    }
  }

  lemma JoinAtNewline(x: string, b: string, n: nat)
    requires n < |b| && b[n] == '\n'
    ensures x + b == x + b[..n] + ['\n'] + b[n + 1..]
  {
  }

  lemma NoNewlineAppend(x: string, h: string)
    requires NewlineFrom(x, 0) == |x| && NewlineFrom(h, 0) == |h|
    ensures NewlineFrom(x + h, 0) == |x + h|
  {
  }

  lemma SplitFirstStep(x: string, h: string, rest: string)
    requires NewlineFrom(x + h, 0) == |x + h|
    ensures SplitLines(x + h + ['\n'] + rest) == [x + h] + SplitLines(rest)
  {
    SplitLinesStep(x + h, rest);
  }

  lemma NoNewline(s: string)
    requires NewlineFrom(s, 0) == |s|
    ensures SplitLines(s) == [s]
  {
  }

  lemma SplitAppend(a: string, b: string)
    ensures SplitLines(a + b) == CompleteLines(a) + ([Tail(a) + FirstOf(b)] + RestOf(b))
  {
    CompleteLinesAppend(a, b);
    SplitFirst(Tail(a), b);
  }

  lemma SplitWhole(b: string)
    ensures SplitLines(b) == [FirstOf(b)] + RestOf(b)
  {
    SplitFirst("", b);
    assert "" + b == b && "" + FirstOf(b) == FirstOf(b);
  }

  lemma MiddleRecord(x: string, h: string)
    ensures Record(x + h) == Record(x) + Record(h) <==> IsBlank(x) || IsBlank(h)
  {
    if IsBlank(x) {
      RecordBlankPrefix(x, h);
      assert [] + Record(h) == Record(h);
    } else if IsBlank(h) {
      RecordBlankSuffix(x, h);
      assert Record(x) + [] == Record(x);
    }
  }

  lemma Sandwich<T>(before: seq<T>, m: seq<T>, r: seq<T>, q: seq<T>, after: seq<T>)
    ensures before + (m + after) == (before + r) + (q + after) <==> m == r + q
  {
    var left, right := before + (m + after), (before + r) + (q + after);
    assert left == before + m + after && right == before + (r + q) + after;
    if left == right {
      assert |m| == |r + q|;
      assert m == left[|before|..|before| + |m|];
      assert r + q == right[|before|..|before| + |r + q|];
    }
  }

  // Reading a text in two chunks yields the records of reading it in one
  // exactly when the cut is not inside a half-written record.
  lemma CutIsLosslessIffClean(a: string, b: string)
    ensures Records(SplitLines(a + b)) == Records(SplitLines(a)) + Records(SplitLines(b))
       <==> CleanCut(a, b)
  {
    var x, h := Tail(a), FirstOf(b);
    SplitAppend(a, b);
    SplitWhole(b);
    RecordsAround(CompleteLines(a), x + h, RestOf(b));
    RecordsAppend(CompleteLines(a), [x]);
    RecordsAppend([h], RestOf(b));
    RecordsSingle(x);
    RecordsSingle(h);
    Sandwich(Records(CompleteLines(a)), Record(x + h), Record(x), Record(h), Records(RestOf(b)));
    MiddleRecord(x, h);
  }

  lemma RecordsSingle(line: string)
    ensures Records([line]) == Record(line)
  {
    assert [line][1..] == [];
    assert Record(line) + [] == Record(line);
  }

  lemma RecordsAround(before: seq<string>, line: string, after: seq<string>)
    ensures Records(before + ([line] + after)) == Records(before) + (Record(line) + Records(after))
  {
    RecordsAppend(before, [line] + after);
    RecordsAppend([line], after);
    RecordsSingle(line);
  }

  lemma BlankParts(w: string, n: nat)
    requires IsBlank(w) && n <= |w|
    ensures IsBlank(w[..n]) && IsBlank(w[n..])
  {
    assert w == w[..n] + w[n..];
    BlankAppend(w[..n], w[n..]);
  }

  // A blank first line is no record.
  lemma BlankFirstLine(line: string, rest: seq<string>)
    requires IsBlank(line)
    ensures Records([line] + rest) == Records(rest)
  {
    assert ([line] + rest)[1..] == rest;
  }

  lemma {:induction false} BlankHasNoRecords(w: string)
    requires IsBlank(w)
    ensures IsBlank(Tail(w)) && IsBlank(FirstOf(w)) && Records(SplitLines(w)) == []
    decreases |w|
  {
    hide IsBlank, Records, SplitLines;
    var n := NewlineFrom(w, 0);
    SplitWhole(w);
    BlankParts(w, n);
    BlankFirstLine(FirstOf(w), RestOf(w));
    if n < |w| {
      BlankParts(w, n + 1);
      BlankHasNoRecords(w[n + 1..]);
    } else {
      NoLinesNoRecords();
    }
  }

  lemma NoLinesNoRecords()
    ensures Records([]) == []
  {
  }

  // Stripping the chunk before splitting it loses nothing.
  lemma ChunkRecords(data: string)
    ensures Records(ChunkLines(data)) == Records(SplitLines(data))
  {
    hide Records, SplitLines, IsBlank, RStrip, LStrip;
    var r := RStrip(data);
    var v := RStripSplit(data);
    var w := LStripSplit(r);
    BlankSuffixIsIdle(r, v);
    BlankPrefixIsIdle(w, LStrip(r));
  }

  lemma BlankSuffixIsIdle(s: string, w: string)
    requires IsBlank(w)
    ensures Records(SplitLines(s + w)) == Records(SplitLines(s))
  {
    hide Records, SplitLines, IsBlank, Tail, FirstOf;
    BlankHasNoRecords(w);
    CutIsLosslessIffClean(s, w);
  }

  lemma BlankPrefixIsIdle(w: string, s: string)
    requires IsBlank(w)
    ensures Records(SplitLines(w + s)) == Records(SplitLines(s))
  {
    hide Records, SplitLines, IsBlank, Tail, FirstOf;
    BlankHasNoRecords(w);
    CutIsLosslessIffClean(w, s);
  }

  lemma MiddleCount(x: string, h: string)
    ensures |Record(x + h)| <= |Record(x)| + |Record(h)|
    ensures |Record(x + h)| == |Record(x)| + |Record(h)| <==> IsBlank(x) || IsBlank(h)
  {
    BlankAppend(x, h);
  }

  // A cut never merges records: it loses none when clean, and else makes one record into two.
  lemma CutNeverMerges(a: string, b: string)
    ensures |Records(SplitLines(a + b))| <= |Records(SplitLines(a))| + |Records(SplitLines(b))|
    ensures |Records(SplitLines(a + b))| == |Records(SplitLines(a))| + |Records(SplitLines(b))|
       <==> CleanCut(a, b)
  {
    var x, h := Tail(a), FirstOf(b);
    SplitAppend(a, b);
    SplitWhole(b);
    RecordsAround(CompleteLines(a), x + h, RestOf(b));
    RecordsAppend(CompleteLines(a), [x]);
    RecordsAppend([h], RestOf(b));
    RecordsSingle(x);
    RecordsSingle(h);
    MiddleCount(x, h);
  }

  predicate EndsInNewline(s: string) {
    s == [] || s[|s| - 1] == '\n'
  }

  lemma {:induction false} WholeLinesTail(s: string)
    requires EndsInNewline(s)
    ensures Tail(s) == ""
    decreases |s|
  {
    var n := NewlineFrom(s, 0);
    if n < |s| {
      WholeLinesTail(s[n + 1..]);
    }
  }

  // A half-written line that is read is torn: the reader takes its halves for two records.
  lemma HalfWrittenLineIsTorn(a: string, b: string)
    requires !IsBlank(Tail(a)) && !IsBlank(FirstOf(b))
    ensures |Records(ChunkLines(a))| + |Records(ChunkLines(b))| > |Records(ChunkLines(a + b))|
  {
    hide Records, ChunkLines, SplitLines, IsBlank, Tail, FirstOf;
    ChunkRecords(a);
    ChunkRecords(b);
    ChunkRecords(a + b);
    CutNeverMerges(a, b);
  }

  // A line has a record when it is not all white space: the line without outer white space.
  lemma RecordIsCore(line: string)
    ensures Record(line) == [] <==> forall i | 0 <= i < |line| :: IsSpace(line[i])
    ensures Record(line) != [] ==>
              exists a, core, b :: Record(line) == [core] && line == a + core + b && IsBlank(a) && IsBlank(b)
                                   && core != "" && !IsSpace(core[0]) && !IsSpace(core[|core| - 1])
  {
    hide Strip, IsBlank;
    BlankIff(line);
    if !IsBlank(line) {
      var a, b := StripIsCore(line);
      assert Record(line) == [Strip(line)] && line == a + Strip(line) + b;
    }
  }
}
