/** The daemon's stdout/stderr replacement: it turns arbitrary writes into whole log lines. */
module StreamLogger {
  import opened Text

  // What `write` logs for one complete line: nothing when blank, else the line right-stripped.
  function LogLine(line: string): seq<string> {
    if IsBlank(line) then [] else [RStrip(line)]
  }

  function LogLines(lines: seq<string>): seq<string> {
    if lines == [] then [] else LogLine(lines[0]) + LogLines(lines[1..])
  }

  lemma LogLinesCons(line: string, lines: seq<string>)
    ensures LogLines([line] + lines) == LogLine(line) + LogLines(lines)
  {
    assert ([line] + lines)[1..] == lines;
  }

  lemma LogLinesStep(log: seq<string>, buffer: string, n: nat)
    requires n == NewlineFrom(buffer, 0) < |buffer|
    ensures Tail(buffer) == Tail(buffer[n + 1..])
    ensures log + LogLines(CompleteLines(buffer))
         == log + LogLine(buffer[..n]) + LogLines(CompleteLines(buffer[n + 1..]))
  {
    FirstLine(buffer, n);
    hide LogLine, LogLines, CompleteLines, Tail;
    var lines := CompleteLines(buffer[n + 1..]);
    LogLinesCons(buffer[..n], lines);
    Associative(log, LogLine(buffer[..n]), LogLines(lines));
  }

  lemma FirstLine(buffer: string, n: nat)
    requires n == NewlineFrom(buffer, 0) < |buffer|
    ensures CompleteLines(buffer) == [buffer[..n]] + CompleteLines(buffer[n + 1..])
    ensures Tail(buffer) == Tail(buffer[n + 1..])
  {
    FirstCompleteLine(buffer, n);
    FirstOfTail(buffer, n);
  }

  lemma FirstCompleteLine(buffer: string, n: nat)
    requires n == NewlineFrom(buffer, 0) < |buffer|
    ensures CompleteLines(buffer) == [buffer[..n]] + CompleteLines(buffer[n + 1..])
  {
    hide NewlineFrom;
  }

  lemma FirstOfTail(buffer: string, n: nat)
    requires n == NewlineFrom(buffer, 0) < |buffer|
    ensures Tail(buffer) == Tail(buffer[n + 1..])
  {
    hide NewlineFrom;
  }

  class StreamToLogger {
    var buffer: string
    var log: seq<string>

    constructor ()
      ensures buffer == "" && log == []
    {
      buffer, log := "", [];
    }

    method Write(data: string) returns (written: nat)
      modifies this
      ensures written == |data|
      ensures log == old(log) + LogLines(CompleteLines(old(buffer) + data))
      ensures buffer == Tail(old(buffer) + data)
    {
      buffer := buffer + data;
      ghost var whole := buffer;
      while NewlineFrom(buffer, 0) < |buffer|
        invariant log + LogLines(CompleteLines(buffer)) == old(log) + LogLines(CompleteLines(whole))
        invariant Tail(buffer) == Tail(whole)
        decreases |buffer|
      {
        var n := NewlineFrom(buffer, 0);
        var line := buffer[..n];
        LogLinesStep(log, buffer, n);
        buffer := buffer[n + 1..];
        if !IsBlank(line) {
          log := log + [RStrip(line)];
        }
      }
      written := |data|;
    }

    method Flush()
      modifies this
      ensures log == old(log) + LogLine(old(buffer))
      ensures buffer == if IsBlank(old(buffer)) then old(buffer) else ""
    {
      if !IsBlank(buffer) {
        log := log + [RStrip(buffer)];
        buffer := "";
      }
    }
  }

  // The effect of one write on (buffer, log), as Write's contract states it.
  datatype Sink = Sink(buffer: string, log: seq<string>) {
    function Write(data: string): Sink {
      Sink(Tail(buffer + data), log + LogLines(CompleteLines(buffer + data)))
    }

    function WriteAll(chunks: seq<string>): Sink
      decreases |chunks|
    {
      if chunks == [] then this else Write(chunks[0]).WriteAll(chunks[1..])
    }
  }

  function Concat(chunks: seq<string>): string {
    if chunks == [] then "" else chunks[0] + Concat(chunks[1..])
  }

  lemma {:induction false} LogLinesAppend(a: seq<string>, b: seq<string>)
    ensures LogLines(a + b) == LogLines(a) + LogLines(b)
  {
    if a == [] {
      assert a + b == b;
    } else {
      hide LogLine;
      LogLinesAppend(a[1..], b);
      assert (a + b)[1..] == a[1..] + b && (a + b)[0] == a[0];
      Associative(LogLine(a[0]), LogLines(a[1..]), LogLines(b));
    }
  }

  lemma WriteWrite(sink: Sink, a: string, b: string)
    ensures sink.Write(a).Write(b) == sink.Write(a + b)
  {
    hide LogLines, CompleteLines, Tail;
    var s := sink.buffer + a;
    assert sink.buffer + (a + b) == s + b;
    CompleteLinesAppend(s, b);
    var first, second := CompleteLines(s), CompleteLines(Tail(s) + b);
    LogLinesAppend(first, second);
    assert sink.log + (LogLines(first) + LogLines(second)) == sink.log + LogLines(first) + LogLines(second);
  }

  // Chunking independence: however a text is cut into writes, the sink ends as after a single write.
  lemma {:induction false} ChunkingIndependence(sink: Sink, chunks: seq<string>)
    requires NewlineFrom(sink.buffer, 0) == |sink.buffer|
    ensures sink.WriteAll(chunks) == sink.Write(Concat(chunks))
    decreases |chunks|
  {
    if chunks == [] {
      assert sink.buffer + Concat(chunks) == sink.buffer;
      assert sink.log + [] == sink.log;
    } else {
      ChunkingIndependence(sink.Write(chunks[0]), chunks[1..]);
      WriteWrite(sink, chunks[0], Concat(chunks[1..]));
    }
  }

  // From a fresh logger: the log is exactly the non-blank complete lines of the text written,
  // right-stripped, and a later flush adds exactly its unfinished last line.
  lemma FreshLoggerLogsTheText(chunks: seq<string>)
    ensures var s := Sink("", []).WriteAll(chunks);
            && s.log == LogLines(CompleteLines(Concat(chunks)))
            && s.buffer == Tail(Concat(chunks))
            && s.log + LogLine(s.buffer) == LogLines(SplitLines(Concat(chunks)))
  {
    ChunkingIndependence(Sink("", []), chunks);
    var text := Concat(chunks);
    assert "" + text == text;
    LogLinesAppend(CompleteLines(text), [Tail(text)]);
    assert LogLines([Tail(text)]) == LogLine(Tail(text));
  }

  // A line is logged when it is not all white space, up to its last other character.
  lemma LineIsLogged(line: string)
    ensures LogLine(line) == [] <==> forall i | 0 <= i < |line| :: IsSpace(line[i])
    ensures LogLine(line) != [] ==>
              exists text :: LogLine(line) == [text] && text != "" && text <= line && !IsSpace(text[|text| - 1])
                             && forall i | |text| <= i < |line| :: IsSpace(line[i])
  {
    BlankIff(line);
    if !IsBlank(line) {
      var after := RStripSplit(line);
      var text := RStrip(line);
      BlankIff(after);
      BlankAppend(text, after);
      assert text <= line;
      forall i | |text| <= i < |line| ensures IsSpace(line[i]) {
        assert line[i] == after[i - |text|];
      }
    }
  }
}
