/** Tailing of transcript files by several threads that share one table of offsets. The offsets are
    read and advanced under a lock; the lines read are processed outside it. */
module TranscriptTail {
  import opened Wrappers
  import opened Text
  import opened TranscriptLines

  // ---------- The critical section ----------

  type Path = string

  function OffsetOf(positions: map<Path, nat>, path: Path): nat {
    if path in positions then positions[path] else 0
  }

  // Under the lock: nothing when the size seen before locking is not past the offset, else everything
  // from the offset to the current end of the file. A file cut off behind the offset meanwhile yields
  // no text and leaves the offset.
  function Claim(positions: map<Path, nat>, path: Path, size: nat, content: string)
      : (r: (map<Path, nat>, Option<string>))
    ensures r.1.None? ==> r.0 == positions
    ensures r.1.Some? ==> OffsetOf(r.0, path) >= |content| && OffsetOf(r.0, path) >= OffsetOf(positions, path)
  {
    var last := OffsetOf(positions, path);
    if size <= last then (positions, None)
    else if |content| < last then (positions[path := last], Some(""))
    else (positions[path := |content|], Some(content[last..]))
  }

  class JSONLSessionWatcher {
    var filePositions: map<Path, nat>
    var handled: seq<string>

    constructor (persisted: map<Path, nat>)
      ensures filePositions == persisted && handled == []
    {
      filePositions, handled := persisted, [];
    }

    method ReadNewData(path: Path, size: nat, content: string) returns (data: Option<string>)
      modifies this`filePositions
      ensures (filePositions, data) == Claim(old(filePositions), path, size, content)
    {
      var last := if path in filePositions then filePositions[path] else 0;
      if size <= last {
        return None;
      }
      var from := if last <= |content| then last else |content|;
      data := Some(content[from..]);
      filePositions := filePositions[path := if last <= |content| then |content| else last];
    }

    method HandleChunk(data: string)
      modifies this`handled
      ensures handled == old(handled) + Records(SplitLines(data))
    {
      var lines := ChunkLines(data);
      for i := 0 to |lines|
        invariant handled == old(handled) + Records(lines[..i])
      {
        assert lines[..i + 1] == lines[..i] + [lines[i]];
        RecordsAppend(lines[..i], [lines[i]]);
        RecordsSingle(lines[i]);
        if !IsBlank(lines[i]) {
          handled := handled + [Strip(lines[i])];
        }
      }
      assert lines[..|lines|] == lines;
      ChunkRecords(data);
    }

    method ProcessJsonlFile(path: Path, size: nat, content: string)
      modifies this
      ensures var (positions, data) := Claim(old(filePositions), path, size, content);
              && filePositions == positions
              && handled == old(handled) + if data.Some? then Records(SplitLines(data.value)) else []
    {
      var data := ReadNewData(path, size, content);
      if data.Some? {
        HandleChunk(data.value);
      }
    }
  }

  // ---------- Any number of threads ----------

  datatype Worker =
    | Idle
    | Sized(path: Path, size: nat)
    | Draining(path: Path, records: seq<string>)

  datatype Range = Range(path: Path, lo: nat, hi: nat)

  // `handled` is everything processed so far, with the file it came from; `lost` is what threads had
  // before them when the process died.
  datatype State = State(
    files: map<Path, string>,
    positions: map<Path, nat>,
    workers: seq<Worker>,
    ranges: seq<Range>,
    handled: map<Path, multiset<string>>,
    lost: seq<Worker>)

  datatype Step =
    | Append(path: Path, text: string)
    | StatFile(worker: nat, path: Path)
    | ReadLocked(worker: nat)
    | HandleRecord(worker: nat)

  function ContentOf(s: State, path: Path): string {
    if path in s.files then s.files[path] else ""
  }

  function HandledOf(s: State, path: Path): multiset<string> {
    if path in s.handled then s.handled[path] else multiset{}
  }

  // Files only grow; an append may stop anywhere in a line.
  predicate Enabled(s: State, step: Step) {
    match step
    case Append(_, _) => true
    case StatFile(w, path) => w < |s.workers| && s.workers[w].Idle? && path in s.files
    case ReadLocked(w) => w < |s.workers| && s.workers[w].Sized? && s.workers[w].path in s.files
    case HandleRecord(w) => w < |s.workers| && s.workers[w].Draining?
  }

  function Next(s: State, step: Step): State
    requires Enabled(s, step)
  {
    match step
    case Append(path, text) =>
      s.(files := s.files[path := ContentOf(s, path) + text])
    case StatFile(w, path) =>
      s.(workers := s.workers[w := Sized(path, |s.files[path]|)])
    case ReadLocked(w) =>
      var path := s.workers[w].path;
      var (positions, data) := Claim(s.positions, path, s.workers[w].size, s.files[path]);
      if data.None? then s.(workers := s.workers[w := Idle])
      else s.(positions := positions,
              workers := s.workers[w := Draining(path, Records(ChunkLines(data.value)))],
              ranges := s.ranges + [Range(path, OffsetOf(s.positions, path), |s.files[path]|)])
    case HandleRecord(w) =>
      var path, records := s.workers[w].path, s.workers[w].records;
      if records == [] then s.(workers := s.workers[w := Idle])
      else s.(workers := s.workers[w := Draining(path, records[1..])],
              handled := s.handled[path := HandledOf(s, path) + multiset{records[0]}])
  }

  ghost predicate Run(s: State, steps: seq<Step>, t: State)
    decreases |steps|
  {
    if steps == [] then s == t
    else Enabled(s, steps[0]) && Run(Next(s, steps[0]), steps[1..], t)
  }

  // ---------- What every run keeps ----------

  function Count(record: string, records: seq<string>): nat {
    multiset(records)[record]
  }

  // How often `record` of file `path` is waiting in some thread.
  function PendingIn(worker: Worker, path: Path, record: string): nat {
    if worker.Draining? && worker.path == path then Count(record, worker.records) else 0
  }

  function Pending(workers: seq<Worker>, path: Path, record: string): nat {
    if workers == [] then 0
    else PendingIn(workers[0], path, record) + Pending(workers[1..], path, record)
  }

  // The ranges read from `path`, in order, tile [lo, hi) with no gap and no overlap.
  predicate Tiled(ranges: seq<Range>, path: Path, lo: nat, hi: nat) {
    if ranges == [] then lo == hi
    else
      var init, r := ranges[..|ranges| - 1], ranges[|ranges| - 1];
      if r.path != path then Tiled(init, path, lo, hi)
      else r.lo < hi == r.hi && Tiled(init, path, lo, r.lo)
  }

  function Slice(content: string, lo: nat, hi: nat): string {
    if lo <= hi <= |content| then content[lo..hi] else ""
  }

  // The records of everything read from `path`, chunk by chunk.
  function RecordsRead(ranges: seq<Range>, path: Path, content: string): seq<string> {
    if ranges == [] then []
    else
      var init, r := ranges[..|ranges| - 1], ranges[|ranges| - 1];
      RecordsRead(init, path, content) +
      if r.path == path then Records(ChunkLines(Slice(content, r.lo, r.hi))) else []
  }

  // No read began inside a half-written line.
  predicate CleanReads(ranges: seq<Range>, path: Path, start: nat, content: string) {
    if ranges == [] then true
    else
      var init, r := ranges[..|ranges| - 1], ranges[|ranges| - 1];
      && CleanReads(init, path, start, content)
      && (r.path == path ==> CleanCut(Slice(content, start, r.lo), Slice(content, r.lo, r.hi)))
  }

  // Where tailing starts: offsets inside the files, no thread busy yet.
  ghost predicate Initial(s: State) {
    && (forall w | w in s.workers :: w.Idle?)
    && s.ranges == [] && s.handled == map[] && s.lost == []
    && forall p: Path :: OffsetOf(s.positions, p) <= |ContentOf(s, p)|
  }

  ghost predicate InBounds(s: State, path: Path, start: nat) {
    var offset, content := OffsetOf(s.positions, path), ContentOf(s, path);
    && start <= offset <= |content|
    && (forall w | w in s.workers && w.Sized? && w.path == path :: w.size <= |content|)
    && Tiled(s.ranges, path, start, offset)
  }

  // `record` is handled, pending or lost as often as it occurs in the chunks read.
  ghost predicate Accounted(s: State, path: Path, record: string) {
    HandledOf(s, path)[record] + Pending(s.workers, path, record) + Pending(s.lost, path, record)
    == Count(record, RecordsRead(s.ranges, path, ContentOf(s, path)))
  }

  ghost predicate Kept(s: State, path: Path, start: nat, record: string) {
    InBounds(s, path, start) && Accounted(s, path, record)
  }

  lemma {:induction false} PendingUpdate(workers: seq<Worker>, i: nat, w: Worker, path: Path, record: string)
    requires i < |workers|
    ensures Pending(workers[i := w], path, record)
         == Pending(workers, path, record) - PendingIn(workers[i], path, record) + PendingIn(w, path, record)
  {
    var updated := workers[i := w];
    if i == 0 {
      assert updated[1..] == workers[1..];
    } else {
      PendingUpdate(workers[1..], i - 1, w, path, record);
      assert updated[1..] == workers[1..][i - 1 := w];
    }
  }

  lemma {:induction false} PendingIdle(workers: seq<Worker>, path: Path, record: string)
    requires forall w | w in workers :: w.Idle?
    ensures Pending(workers, path, record) == 0
  {
    if workers != [] {
      assert workers[0] in workers;
      PendingIdle(workers[1..], path, record);
    }
  }

  lemma CountAppend(record: string, a: seq<string>, b: seq<string>)
    ensures Count(record, a + b) == Count(record, a) + Count(record, b)
  {
  }

  lemma RangesSnoc(ranges: seq<Range>, r: Range, path: Path, lo: nat, mid: nat, content: string)
    requires Tiled(ranges, path, lo, mid)
    requires r.path == path ==> r.lo == mid < r.hi
    ensures Tiled(ranges + [r], path, lo, if r.path == path then r.hi else mid)
    ensures RecordsRead(ranges + [r], path, content) == RecordsRead(ranges, path, content) +
              if r.path == path then Records(ChunkLines(Slice(content, r.lo, r.hi))) else []
    ensures CleanReads(ranges + [r], path, lo, content) <==>
              && CleanReads(ranges, path, lo, content)
              && (r.path == path ==> CleanCut(Slice(content, lo, r.lo), Slice(content, r.lo, r.hi)))
  {
    hide Records, ChunkLines, CleanCut, Slice;
    assert (ranges + [r])[..|ranges|] == ranges;
  }

  // Growth does not reach what was read.
  lemma {:induction false} ReadsAreSettled(
      ranges: seq<Range>, path: Path, lo: nat, hi: nat, content: string, text: string)
    requires Tiled(ranges, path, lo, hi) && hi <= |content|
    ensures lo <= hi
    ensures RecordsRead(ranges, path, content + text) == RecordsRead(ranges, path, content)
    ensures CleanReads(ranges, path, lo, content + text) == CleanReads(ranges, path, lo, content)
    decreases |ranges|
  {
    hide Records, ChunkLines, CleanCut;
    if ranges != [] {
      var init, r := ranges[..|ranges| - 1], ranges[|ranges| - 1];
      if r.path == path {
        ReadsAreSettled(init, path, lo, r.lo, content, text);
        assert (content + text)[r.lo..r.hi] == content[r.lo..r.hi];
        assert (content + text)[lo..r.lo] == content[lo..r.lo];
      } else {
        ReadsAreSettled(init, path, lo, hi, content, text);
      }
    }
  }

  lemma AppendKeeps(s: State, file: Path, text: string, path: Path, start: nat, record: string)
    requires Kept(s, path, start, record)
    ensures Kept(Next(s, Append(file, text)), path, start, record)
  {
    hide RecordsRead;
    ReadsAreSettled(s.ranges, path, start, OffsetOf(s.positions, path), ContentOf(s, path), text);
  }

  lemma WorkerBounds(s: State, t: State, w: nat, worker: Worker, path: Path, start: nat)
    requires InBounds(s, path, start) && w < |s.workers|
    requires worker.Sized? && worker.path == path ==> worker.size <= |ContentOf(s, path)|
    requires t == s.(workers := s.workers[w := worker], handled := t.handled)
    ensures InBounds(t, path, start)
  {
  }

  lemma WorkerKeeps(s: State, w: nat, worker: Worker, path: Path, start: nat, record: string)
    requires Kept(s, path, start, record) && w < |s.workers|
    requires PendingIn(worker, path, record) == PendingIn(s.workers[w], path, record)
    requires worker.Sized? && worker.path == path ==> worker.size <= |ContentOf(s, path)|
    ensures Kept(s.(workers := s.workers[w := worker]), path, start, record)
  {
    hide RecordsRead;
    WorkerBounds(s, s.(workers := s.workers[w := worker]), w, worker, path, start);
    PendingUpdate(s.workers, w, worker, path, record);
  }

  lemma ReadKeepsBounds(s: State, w: nat, path: Path, start: nat)
    requires InBounds(s, path, start) && Enabled(s, ReadLocked(w))
    ensures InBounds(Next(s, ReadLocked(w)), path, start)
  {
    hide Records, ChunkLines, RecordsRead, Tiled, CleanReads;
    var file := s.workers[w].path;
    var last, content := OffsetOf(s.positions, file), s.files[file];
    if last < s.workers[w].size {
      RangesSnoc(s.ranges, Range(file, last, |content|), path, start, OffsetOf(s.positions, path), content);
    }
  }

  lemma ReadHandsOver(s: State, w: nat, path: Path, record: string, chunk: seq<string>)
    requires Enabled(s, ReadLocked(w)) && OffsetOf(s.positions, s.workers[w].path) < s.workers[w].size
    requires var file, content := s.workers[w].path, s.files[s.workers[w].path];
             chunk == Records(ChunkLines(Slice(content, OffsetOf(s.positions, file), |content|)))
    ensures var t := Next(s, ReadLocked(w));
            && HandledOf(t, path) == HandledOf(s, path) && ContentOf(t, path) == ContentOf(s, path) && t.lost == s.lost
            && Pending(t.workers, path, record)
               == Pending(s.workers, path, record) + if s.workers[w].path == path then Count(record, chunk) else 0
  {
    hide Records, ChunkLines, Pending;
    var file := s.workers[w].path;
    var last, content := OffsetOf(s.positions, file), s.files[file];
    assert last <= |content| ==> content[last..] == content[last..|content|];
    assert Claim(s.positions, file, s.workers[w].size, content).1 == Some(Slice(content, last, |content|));
    PendingUpdate(s.workers, w, Draining(file, chunk), path, record);
  }

  lemma ReadKeepsAccounts(s: State, w: nat, path: Path, start: nat, record: string)
    requires Kept(s, path, start, record) && Enabled(s, ReadLocked(w))
    requires OffsetOf(s.positions, s.workers[w].path) < s.workers[w].size
    ensures Accounted(Next(s, ReadLocked(w)), path, record)
  {
    hide Records, ChunkLines, RecordsRead, Tiled, CleanReads, Pending, Count;
    var file := s.workers[w].path;
    var last, content := OffsetOf(s.positions, file), s.files[file];
    var chunk := Records(ChunkLines(Slice(content, last, |content|)));
    ReadHandsOver(s, w, path, record, chunk);
    RangesSnoc(s.ranges, Range(file, last, |content|), path, start, OffsetOf(s.positions, path), ContentOf(s, path));
    assert RecordsRead(s.ranges, path, ContentOf(s, path)) + [] == RecordsRead(s.ranges, path, ContentOf(s, path));
    CountAppend(record, RecordsRead(s.ranges, path, ContentOf(s, path)), if file == path then chunk else []);
  }

  lemma ReadKeeps(s: State, w: nat, path: Path, start: nat, record: string)
    requires Kept(s, path, start, record) && Enabled(s, ReadLocked(w))
    ensures Kept(Next(s, ReadLocked(w)), path, start, record)
  {
    hide InBounds, Accounted;
    if s.workers[w].size <= OffsetOf(s.positions, s.workers[w].path) {
      WorkerKeeps(s, w, Idle, path, start, record);
    } else {
      ReadKeepsBounds(s, w, path, start);
      ReadKeepsAccounts(s, w, path, start, record);
    }
  }

  lemma HandleKeeps(s: State, w: nat, path: Path, start: nat, record: string)
    requires Kept(s, path, start, record) && Enabled(s, HandleRecord(w))
    ensures Kept(Next(s, HandleRecord(w)), path, start, record)
  {
    hide RecordsRead, InBounds, HandledOf, Pending;
    var t := Next(s, HandleRecord(w));
    var file, records := s.workers[w].path, s.workers[w].records;
    if records == [] {
      WorkerKeeps(s, w, Idle, path, start, record);
    } else {
      WorkerBounds(s, t, w, Draining(file, records[1..]), path, start);
      HandleCount(s, w, path, record);
    }
  }

  // One record moves from the thread's list to the handled ones.
  lemma HandleCount(s: State, w: nat, path: Path, record: string)
    requires Enabled(s, HandleRecord(w)) && s.workers[w].records != []
    ensures var t := Next(s, HandleRecord(w));
            HandledOf(t, path)[record] + Pending(t.workers, path, record)
            == HandledOf(s, path)[record] + Pending(s.workers, path, record)
  {
    var file, records := s.workers[w].path, s.workers[w].records;
    PendingUpdate(s.workers, w, Draining(file, records[1..]), path, record);
    CountTail(record, records);
  }

  lemma CountTail(record: string, records: seq<string>)
    requires records != []
    ensures Count(record, records) == multiset{records[0]}[record] + Count(record, records[1..])
  {
    assert records == [records[0]] + records[1..];
  }

  lemma StepKeeps(s: State, step: Step, path: Path, start: nat, record: string)
    requires Kept(s, path, start, record) && Enabled(s, step)
    ensures Kept(Next(s, step), path, start, record)
    ensures OffsetOf(s.positions, path) <= OffsetOf(Next(s, step).positions, path)
    ensures Next(s, step).lost == s.lost
  {
    hide Records, ChunkLines, RecordsRead, Tiled, Accounted;
    match step
    case Append(file, text) => AppendKeeps(s, file, text, path, start, record);
    case StatFile(w, file) => WorkerKeeps(s, w, Sized(file, |s.files[file]|), path, start, record);
    case ReadLocked(w) => ReadKeeps(s, w, path, start, record);
    case HandleRecord(w) => HandleKeeps(s, w, path, start, record);
  }

  lemma {:induction false} RunKeeps(s: State, steps: seq<Step>, t: State, path: Path, start: nat, record: string)
    requires Kept(s, path, start, record) && Run(s, steps, t)
    ensures Kept(t, path, start, record)
    ensures OffsetOf(s.positions, path) <= OffsetOf(t.positions, path) && t.lost == s.lost
    decreases |steps|
  {
    if steps != [] {
      StepKeeps(s, steps[0], path, start, record);
      RunKeeps(Next(s, steps[0]), steps[1..], t, path, start, record);
    }
  }

  // Main result: under every interleaving and wherever appends stop, for every file, offsets never
  // decrease, the ranges read tile the text from the initial to the current offset, and the records
  // of the chunks read are handled or pending, each exactly as often as it occurs there.
  lemma TailingIsExactlyOnce(s: State, steps: seq<Step>, t: State, path: Path, record: string)
    requires Initial(s) && Run(s, steps, t)
    ensures OffsetOf(s.positions, path) <= OffsetOf(t.positions, path) && t.lost == []
    ensures Kept(t, path, OffsetOf(s.positions, path), record)
  {
    PendingIdle(s.workers, path, record);
    RunKeeps(s, steps, t, path, OffsetOf(s.positions, path), record);
  }

  // ---------- The chunks against the text ----------

  lemma {:induction false} ChunksAgainstText(ranges: seq<Range>, path: Path, lo: nat, hi: nat, content: string)
    requires Tiled(ranges, path, lo, hi) && hi <= |content|
    ensures lo <= hi
    ensures var read, whole := RecordsRead(ranges, path, content), Records(SplitLines(content[lo..hi]));
            && |whole| <= |read|
            && (|whole| == |read| <==> CleanReads(ranges, path, lo, content))
            && (CleanReads(ranges, path, lo, content) ==> read == whole)
    decreases |ranges|
  {
    hide Records, SplitLines, ChunkLines, CleanCut;
    if ranges == [] {
      assert content[lo..hi] == "";
      NothingWritten();
    } else {
      var init, r := ranges[..|ranges| - 1], ranges[|ranges| - 1];
      ChunksAgainstText(init, path, lo, if r.path == path then r.lo else hi, content);
      if r.path == path {
        var a, b := content[lo..r.lo], content[r.lo..r.hi];
        assert content[lo..hi] == a + b;
        CutIsLosslessIffClean(a, b);
        CutNeverMerges(a, b);
        ChunkRecords(b);
      }
    }
  }

  lemma NothingWritten()
    ensures Records(SplitLines("")) == []
  {
    NoNewline("");
    RecordsSingle("");
  }

  lemma EqualSizes(a: seq<string>, b: seq<string>)
    requires multiset(a) == multiset(b)
    ensures |a| == |b|
  {
    assert |multiset(a)| == |a| && |multiset(b)| == |b|;
  }

  // What was lost of `path`.
  function LostOf(lost: seq<Worker>, path: Path): multiset<string> {
    if lost == [] then multiset{}
    else
      (if lost[0].Draining? && lost[0].path == path then multiset(lost[0].records) else multiset{})
      + LostOf(lost[1..], path)
  }

  lemma {:induction false} LostIsPending(lost: seq<Worker>, path: Path, record: string)
    ensures LostOf(lost, path)[record] == Pending(lost, path, record)
  {
    if lost != [] {
      LostIsPending(lost[1..], path, record);
    }
  }

  // At rest, what was handled and what was lost make up the text exactly when the reads were clean.
  lemma RestIffReadsAreClean(t: State, path: Path, start: nat)
    requires forall record :: Kept(t, path, start, record)
    requires forall w | w in t.workers :: w.Idle?
    ensures InBounds(t, path, start)
    ensures var offset, content := OffsetOf(t.positions, path), ContentOf(t, path);
            HandledOf(t, path) + LostOf(t.lost, path) == multiset(Records(SplitLines(content[start..offset])))
            <==> CleanReads(t.ranges, path, start, content)
  {
    hide Records, SplitLines, RecordsRead, CleanReads, Tiled, LostOf, Pending;
    assert Kept(t, path, start, "");
    var offset, content := OffsetOf(t.positions, path), ContentOf(t, path);
    var read := RecordsRead(t.ranges, path, content);
    var taken := HandledOf(t, path) + LostOf(t.lost, path);
    forall record
      ensures taken[record] == multiset(read)[record]
    {
      assert Kept(t, path, start, record);
      PendingIdle(t.workers, path, record);
      LostIsPending(t.lost, path, record);
    }
    assert taken == multiset(read);
    ChunksAgainstText(t.ranges, path, start, offset, content);
    var whole := Records(SplitLines(content[start..offset]));
    if multiset(read) == multiset(whole) {
      EqualSizes(read, whole);
    }
  }

  // Main result: once no thread is busy, the records handled are exactly those of the text between
  // the initial and the current offset if and only if no read began inside a half-written line.
  lemma HandledIsTheTextIffReadsAreClean(s: State, steps: seq<Step>, t: State, path: Path)
    requires Initial(s) && Run(s, steps, t)
    requires forall w | w in t.workers :: w.Idle?
    ensures var start, offset, content := OffsetOf(s.positions, path), OffsetOf(t.positions, path), ContentOf(t, path);
            && start <= offset <= |content|
            && (HandledOf(t, path) == multiset(Records(SplitLines(content[start..offset])))
                <==> CleanReads(t.ranges, path, start, content))
  {
    hide Records, SplitLines, CleanReads, Kept, Run, Initial;
    forall record
      ensures Kept(t, path, OffsetOf(s.positions, path), record)
    {
      TailingIsExactlyOnce(s, steps, t, path, record);
    }
    TailingIsExactlyOnce(s, steps, t, path, "");
    RestIffReadsAreClean(t, path, OffsetOf(s.positions, path));
    assert HandledOf(t, path) + LostOf([], path) == HandledOf(t, path);
  }

  // ---------- Writers that append whole lines ----------

  predicate AppendsWholeLines(step: Step, path: Path) {
    step.Append? && step.path == path ==> EndsInNewline(step.text)
  }

  ghost predicate ReadCleanly(s: State, path: Path, start: nat) {
    && InBounds(s, path, start)
    && EndsInNewline(ContentOf(s, path))
    && EndsInNewline(Slice(ContentOf(s, path), start, OffsetOf(s.positions, path)))
    && CleanReads(s.ranges, path, start, ContentOf(s, path))
  }

  lemma StepReadsCleanly(s: State, step: Step, path: Path, start: nat)
    requires ReadCleanly(s, path, start) && Enabled(s, step) && AppendsWholeLines(step, path)
    requires InBounds(Next(s, step), path, start)
    ensures ReadCleanly(Next(s, step), path, start)
  {
    hide Records, ChunkLines, RecordsRead, Tiled, CleanReads, CleanCut;
    var offset, content := OffsetOf(s.positions, path), ContentOf(s, path);
    if step.Append? && step.path == path {
      ReadsAreSettled(s.ranges, path, start, offset, content, step.text);
      assert (content + step.text)[start..offset] == content[start..offset];
    } else if step.ReadLocked? {
      var file := s.workers[step.worker].path;
      var last, size := OffsetOf(s.positions, file), s.workers[step.worker].size;
      if last < size {
        RangesSnoc(s.ranges, Range(file, last, |s.files[file]|), path, start, offset, content);
        if file == path {
          WholeLinesCut(content, start, offset);
        }
      }
    }
  }

  lemma WholeLinesCut(content: string, start: nat, offset: nat)
    requires start <= offset <= |content|
    requires EndsInNewline(content) && EndsInNewline(content[start..offset])
    ensures CleanCut(content[start..offset], content[offset..|content|])
    ensures EndsInNewline(content[start..|content|])
  {
    WholeLinesTail(content[start..offset]);
    if start < |content| {
      assert content[start..|content|][|content| - start - 1] == content[|content| - 1];
    }
  }

  lemma {:induction false} RunReadsCleanly(s: State, steps: seq<Step>, t: State, path: Path, start: nat)
    requires ReadCleanly(s, path, start) && Kept(s, path, start, "") && Run(s, steps, t)
    requires forall step | step in steps :: AppendsWholeLines(step, path)
    ensures ReadCleanly(t, path, start)
    decreases |steps|
  {
    hide ReadCleanly, Kept, InBounds, AppendsWholeLines;
    if steps != [] {
      StepKeeps(s, steps[0], path, start, "");
      KeptIsInBounds(Next(s, steps[0]), path, start);
      StepReadsCleanly(s, steps[0], path, start);
      RunReadsCleanly(Next(s, steps[0]), steps[1..], t, path, start);
    }
  }

  lemma KeptIsInBounds(s: State, path: Path, start: nat)
    requires Kept(s, path, start, "")
    ensures InBounds(s, path, start)
  {
  }

  // When the file and every append to it end in a newline, nothing is missing, torn or doubled.
  lemma WholeLinesAreHandledExactlyOnce(s: State, steps: seq<Step>, t: State, path: Path)
    requires Initial(s) && Run(s, steps, t)
    requires EndsInNewline(ContentOf(s, path)) && forall step | step in steps :: AppendsWholeLines(step, path)
    requires forall w | w in t.workers :: w.Idle?
    ensures var start, offset, content := OffsetOf(s.positions, path), OffsetOf(t.positions, path), ContentOf(t, path);
            && start <= offset <= |content|
            && HandledOf(t, path) == multiset(Records(SplitLines(content[start..offset])))
  {
    hide Records, SplitLines;
    var start := OffsetOf(s.positions, path);
    PendingIdle(s.workers, path, "");
    RunReadsCleanly(s, steps, t, path, start);
    HandledIsTheTextIffReadsAreClean(s, steps, t, path);
  }

  // ---------- Ranges are disjoint ----------

  // Tiled ranges never overlap, and later ranges start where earlier ones ended or later.
  lemma {:induction false} TiledIsDisjoint(ranges: seq<Range>, path: Path, lo: nat, hi: nat, i: nat, j: nat)
    requires Tiled(ranges, path, lo, hi) && i < j < |ranges|
    requires ranges[i].path == path && ranges[j].path == path
    ensures lo <= ranges[i].lo < ranges[i].hi <= ranges[j].lo < ranges[j].hi <= hi
    decreases |ranges|
  {
    var init, r := ranges[..|ranges| - 1], ranges[|ranges| - 1];
    var before := if r.path == path then r.lo else hi;
    if j < |init| {
      TiledIsDisjoint(init, path, lo, before, i, j);
    } else {
      TiledBounds(init, path, lo, before, i);
    }
  }

  lemma {:induction false} TiledBounds(ranges: seq<Range>, path: Path, lo: nat, hi: nat, i: nat)
    requires Tiled(ranges, path, lo, hi) && i < |ranges| && ranges[i].path == path
    ensures lo <= ranges[i].lo < ranges[i].hi <= hi
    decreases |ranges|
  {
    var init, r := ranges[..|ranges| - 1], ranges[|ranges| - 1];
    if i < |init| {
      TiledBounds(init, path, lo, if r.path == path then r.lo else hi, i);
    } else {
      TiledSpan(init, path, lo, r.lo);
    }
  }

  lemma {:induction false} TiledSpan(ranges: seq<Range>, path: Path, lo: nat, hi: nat)
    requires Tiled(ranges, path, lo, hi)
    ensures lo <= hi
    decreases |ranges|
  {
    if ranges != [] {
      var init, r := ranges[..|ranges| - 1], ranges[|ranges| - 1];
      TiledSpan(init, path, lo, if r.path == path then r.lo else hi);
    }
  }

  // ---------- Reading catches up ----------

  // In every run, a locked read that found the file longer than the offset takes all that is unread up
  // to the end of the file; otherwise it takes nothing.
  lemma ReadTakesTheRest(s: State, steps: seq<Step>, t: State, w: nat)
    requires Initial(s) && Run(s, steps, t) && Enabled(t, ReadLocked(w))
    ensures var (path, size) := (t.workers[w].path, t.workers[w].size);
            var (offset, content) := (OffsetOf(t.positions, path), ContentOf(t, path));
            var next := Next(t, ReadLocked(w));
            && offset <= |content| && next.handled == t.handled
            && (if offset < size then
                  && OffsetOf(next.positions, path) == |content|
                  && next.workers[w] == Draining(path, Records(SplitLines(content[offset..])))
                else next.positions == t.positions && next.workers[w] == Idle)
    ensures forall other | other != t.workers[w].path ::
              OffsetOf(Next(t, ReadLocked(w)).positions, other) == OffsetOf(t.positions, other)
  {
    hide Records, ChunkLines, SplitLines, RecordsRead, Tiled;
    var path := t.workers[w].path;
    TailingIsExactlyOnce(s, steps, t, path, "");
    ChunkRecords(ContentOf(t, path)[OffsetOf(t.positions, path)..]);
  }

  // From any state of a run, an idle thread by itself can bring the offset of a file to its end and hand
  // over everything it has read.
  lemma TailingCanCatchUp(s: State, before: seq<Step>, t: State, w: nat, path: Path)
      returns (steps: seq<Step>, u: State)
    requires Initial(s) && Run(s, before, t) && w < |t.workers| && t.workers[w].Idle? && path in t.files
    ensures Run(t, steps, u) && u.workers == t.workers && u.files == t.files
    ensures OffsetOf(u.positions, path) == |u.files[path]|
  {
    hide Records, ChunkLines, SplitLines, RecordsRead, Tiled, Accounted, Initial;
    TailingIsExactlyOnce(s, before, t, path, "");
    var sized := Next(t, StatFile(w, path));
    var claimed := Next(sized, ReadLocked(w));
    if claimed.workers[w].Idle? {
      steps, u := [StatFile(w, path), ReadLocked(w)], claimed;
      assert claimed.workers == t.workers;
      assert steps[1..] == [ReadLocked(w)] && [ReadLocked(w)][1..] == [];
      assert Run(claimed, [], claimed) && Run(sized, [ReadLocked(w)], claimed);
    } else {
      var rest: seq<Step>;
      rest, u := DrainAll(claimed, w);
      steps := [StatFile(w, path)] + ([ReadLocked(w)] + rest);
      assert ([ReadLocked(w)] + rest)[1..] == rest && steps[1..] == [ReadLocked(w)] + rest;
      assert Run(sized, [ReadLocked(w)] + rest, u);
      assert u.workers == t.workers;
    }
  }

  lemma {:induction false} DrainAll(t: State, w: nat) returns (steps: seq<Step>, u: State)
    requires w < |t.workers| && t.workers[w].Draining?
    ensures Run(t, steps, u) && u.files == t.files && u.positions == t.positions && u.workers == t.workers[w := Idle]
    decreases |t.workers[w].records|
  {
    var next := Next(t, HandleRecord(w));
    if t.workers[w].records == [] {
      steps, u := [HandleRecord(w)], next;
      assert steps[1..] == [] && Run(next, [], next);
    } else {
      var rest: seq<Step>;
      rest, u := DrainAll(next, w);
      steps := [HandleRecord(w)] + rest;
      assert steps[1..] == rest;
    }
  }
}
