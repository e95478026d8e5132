/** The monitor's side of the extension: captures are sanitised, deduplicated against the rows
    already stored, and appended to the table browser_sessions. */
module BrowserIngest {
  import opened Wrappers
  import opened CaptureQueue

  const MAX_EVENTS := 100
  const HASHED_CHARS := 200
  const STORED_CHARS := 5000

  datatype Row = Row(
    service: string,
    url: string,
    title: string,
    conversationId: Option<string>,
    visitTime: string,
    source: string,
    eventType: Option<string>,
    contentText: Option<string>,
    contentHash: Option<string>)

  // What the model leaves open: masking of credentials, the digest of a text, and SQLite's
  // datetime(ts, '-7 days'), which is NULL when ts is not a time it can read.
  datatype Env = Env(
    sanitize: string -> string,
    digest: string -> string,
    weekBefore: string -> Option<string>)

  function Prefix(s: string, n: nat): string {
    if |s| <= n then s else s[..n]
  }

  // SQLite compares text by code point, lexicographically.
  predicate TextLess(a: string, b: string) {
    b != [] && (a == [] || a[0] < b[0] || (a[0] == b[0] && TextLess(a[1..], b[1..])))
  }

  function Sanitized(env: Env, m: Message): string {
    if m.text == "" then "" else env.sanitize(m.text)
  }

  // The WHERE clause of the dedup query; comparisons with NULL are not true.
  predicate Matches(env: Env, row: Row, m: Message) {
    var key := Prefix(Sanitized(env, m), HASHED_CHARS);
    var cutoff := env.weekBefore(m.timestamp);
    && m.conversationId.Some? && row.conversationId == m.conversationId
    && row.eventType == Some(m.kind)
    && (row.contentHash == Some(env.digest(key))
        || (row.contentText.Some? && Prefix(row.contentText.value, HASHED_CHARS) == key))
    && cutoff.Some? && TextLess(cutoff.value, row.visitTime)
  }

  predicate Suppressed(env: Env, rows: seq<Row>, m: Message) {
    Sanitized(env, m) != "" && exists i :: 0 <= i < |rows| && Matches(env, rows[i], m)
  }

  function RowOf(env: Env, m: Message): Row {
    var clean := Sanitized(env, m);
    Row(m.service, m.url, m.title, m.conversationId, m.timestamp, "extension", Some(m.kind),
        if clean == "" then None else Some(Prefix(clean, STORED_CHARS)),
        if clean == "" then None else Some(env.digest(Prefix(clean, HASHED_CHARS))))
  }

  function IngestOne(env: Env, rows: seq<Row>, m: Message): seq<Row> {
    if !IsCapture(m) || Suppressed(env, rows, m) then rows else rows + [RowOf(env, m)]
  }

  function IngestAll(env: Env, rows: seq<Row>, messages: seq<Message>): seq<Row> {
    if messages == [] then rows
    else
      var n := |messages| - 1;
      IngestOne(env, IngestAll(env, rows, messages[..n]), messages[n])
  }

  // A payload is a list whose entries may be anything; only objects are captures.
  datatype Entry = NotAnObject | Capture(message: Message)
  datatype Payload = NotAList | Events(entries: seq<Entry>)
  datatype Reply = BadRequest | Stored(stored: nat)

  function Captures(entries: seq<Entry>): seq<Message> {
    if entries == [] then []
    else
      var n := |entries| - 1;
      Captures(entries[..n]) + if entries[n].Capture? then [entries[n].message] else []
  }

  lemma CapturesStep(entries: seq<Entry>, i: nat)
    requires i < |entries|
    ensures Captures(entries[..i + 1])
         == if entries[i].Capture? then Captures(entries[..i]) + [entries[i].message] else Captures(entries[..i])
  {
    assert entries[..i + 1][..i] == entries[..i];
  }

  lemma IngestStep(env: Env, rows: seq<Row>, messages: seq<Message>, m: Message)
    ensures IngestAll(env, rows, messages + [m]) == IngestOne(env, IngestAll(env, rows, messages), m)
  {
    assert (messages + [m])[..|messages|] == messages;
  }

  class BrowserStore {
    var rows: seq<Row>

    constructor ()
      ensures rows == []
    {
      rows := [];
    }

    method FindRecent(env: Env, m: Message) returns (found: bool)
      ensures found <==> exists i :: 0 <= i < |rows| && Matches(env, rows[i], m)
    {
      found := false;
      for i := 0 to |rows|
        invariant !found
        invariant forall k :: 0 <= k < i ==> !Matches(env, rows[k], m)
      {
        if Matches(env, rows[i], m) {
          return true;
        }
      }
    }

    method Ingest(env: Env, payload: Payload) returns (reply: Reply)
      modifies this
      ensures payload.NotAList? || |payload.entries| > 100 ==> reply.BadRequest? && rows == old(rows)
      ensures payload.Events? && |payload.entries| <= 100 ==>
                && rows == IngestAll(env, old(rows), Captures(payload.entries))
                && |old(rows)| <= |rows| && reply == Stored(|rows| - |old(rows)|)
    {
      if payload.NotAList? || |payload.entries| > MAX_EVENTS {
        return BadRequest;
      }
      var events := payload.entries;
      var stored := 0;
      for i := 0 to |events|
        invariant rows == IngestAll(env, old(rows), Captures(events[..i]))
        invariant |rows| == |old(rows)| + stored
      {
        CapturesStep(events, i);
        if events[i].NotAnObject? {
          continue;
        }
        var m := events[i].message;
        IngestStep(env, old(rows), Captures(events[..i]), m);
        if m.service == "" || m.kind == "" {
          continue;
        }
        var clean := Sanitized(env, m);
        if clean != "" {
          var recent := FindRecent(env, m);
          if recent {
            continue;
          }
        }
        rows := rows + [RowOf(env, m)];
        stored := stored + 1;
      }
      assert events[..|events|] == events;
      reply := Stored(stored);
    }
  }

  // ---------- Redelivery ----------

  // Ingesting m again would change nothing.
  predicate Absorbed(env: Env, rows: seq<Row>, m: Message) {
    !IsCapture(m) || Suppressed(env, rows, m)
  }

  // The timestamp is later, as text, than the start of the week before it.
  predicate SelfFresh(env: Env, m: Message) {
    var cutoff := env.weekBefore(m.timestamp);
    cutoff.Some? && TextLess(cutoff.value, m.timestamp)
  }

  // What redelivery relies on: a conversation, some text left after masking, a readable timestamp.
  predicate Recognisable(env: Env, m: Message) {
    m.conversationId.Some? && Sanitized(env, m) != "" && SelfFresh(env, m)
  }

  lemma OwnRowMatchesIffRecognisable(env: Env, m: Message)
    ensures Sanitized(env, m) != "" && Matches(env, RowOf(env, m), m) <==> Recognisable(env, m)
  {
  }

  // Delivering a message twice in a row stores it once exactly when it was suppressed or ignored
  // the first time, or is recognisable.
  lemma RedeliveryIsAbsorbedIff(env: Env, rows: seq<Row>, m: Message)
    ensures var once := IngestOne(env, rows, m);
            IngestOne(env, once, m) == once <==> Absorbed(env, rows, m) || Recognisable(env, m)
  {
    OwnRowMatchesIffRecognisable(env, m);
    if !Absorbed(env, rows, m) {
      SuppressedAfter(env, rows, RowOf(env, m), m);
    }
  }

  lemma SuppressedAfter(env: Env, rows: seq<Row>, row: Row, m: Message)
    ensures Suppressed(env, rows + [row], m)
       <==> Suppressed(env, rows, m) || (Sanitized(env, m) != "" && Matches(env, row, m))
  {
    hide Matches;
    var more := rows + [row];
    assert more[|rows|] == row;
    assert forall i | 0 <= i < |rows| :: more[i] == rows[i];
  }

  lemma GrowthKeepsAbsorbed(env: Env, rows: seq<Row>, m: Message, other: Message)
    requires Absorbed(env, rows, m)
    ensures Absorbed(env, IngestOne(env, rows, other), m)
  {
    if IsCapture(m) {
      var i :| 0 <= i < |rows| && Matches(env, rows[i], m);
      assert IngestOne(env, rows, other)[i] == rows[i];
    }
  }

  // Whatever happened since, a recognisable message that was delivered before is absorbed.
  lemma {:induction false} DeliveredIsAbsorbed(env: Env, rows: seq<Row>, messages: seq<Message>, m: Message)
    requires m in messages && Recognisable(env, m)
    ensures Absorbed(env, IngestAll(env, rows, messages), m)
  {
    var n := |messages| - 1;
    var before := IngestAll(env, rows, messages[..n]);
    if m in messages[..n] {
      DeliveredIsAbsorbed(env, rows, messages[..n], m);
      GrowthKeepsAbsorbed(env, before, m, messages[n]);
    } else {
      assert m == messages[n];
      RedeliveryIsAbsorbedIff(env, before, m);
      if !Absorbed(env, before, m) {
        assert IngestOne(env, before, m) != IngestOne(env, IngestOne(env, before, m), m)
            || Absorbed(env, IngestOne(env, before, m), m);
      }
    }
  }

  lemma {:induction false} IngestAppend(env: Env, rows: seq<Row>, a: seq<Message>, b: seq<Message>)
    ensures IngestAll(env, rows, a + b) == IngestAll(env, IngestAll(env, rows, a), b)
    decreases |b|
  {
    if b == [] {
      assert a + b == a;
    } else {
      var n := |b| - 1;
      assert (a + b)[..|a + b| - 1] == a + b[..n];
      IngestAppend(env, rows, a, b[..n]);
    }
  }

  // A conversation page that has no conversation id yet: its captures are stored twice.
  lemma NoConversationIsStoredTwice(env: Env, m: Message)
    requires IsCapture(m) && m.conversationId.None?
    ensures IngestAll(env, [], [m, m]) == [RowOf(env, m), RowOf(env, m)]
  {
    assert [m, m][..1] == [m] && [m][..0] == [];
    assert IngestAll(env, [], [m]) == [RowOf(env, m)];
  }

  // ---------- The extension's timestamps ----------

  // s has a digit wherever the pattern has '0', and the pattern's own character elsewhere.
  predicate Follows(s: string, pattern: string) {
    |s| == |pattern| && forall i | 0 <= i < |s| ::
      if pattern[i] == '0' then '0' <= s[i] <= '9' else s[i] == pattern[i]
  }

  function TwoDigits(s: string, i: nat): int
    requires i + 2 <= |s|
  {
    (s[i] as int - '0' as int) * 10 + (s[i + 1] as int - '0' as int)
  }

  const DATE_PATTERN := "0000-00-00"
  const TIME_PATTERN := "00:00:00.000Z"

  // "yyyy-mm-dd" of a year after 0000, so that SQLite can name the week before.
  predicate IsDate(date: string) {
    && Follows(date, DATE_PATTERN) && date[..4] != "0000"
    && 1 <= TwoDigits(date, 5) <= 12 && 1 <= TwoDigits(date, 8) <= 31
  }

  // "hh:mm:ss.mmmZ"
  predicate IsTime(time: string) {
    && Follows(time, TIME_PATTERN)
    && TwoDigits(time, 0) <= 23 && TwoDigits(time, 3) <= 59 && TwoDigits(time, 6) <= 59
  }

  // A timestamp as toISOString writes it.
  predicate IsIso(timestamp: string) {
    && |timestamp| == 24 && timestamp[10] == 'T'
    && IsDate(timestamp[..10]) && IsTime(timestamp[11..])
  }

  // SQLite's answer to a timestamp: "<date> <time>" of an earlier day, in a date of the same form.
  predicate IsWeekBefore(answer: string, timestamp: string)
    requires |timestamp| >= 10
  {
    |answer| > 10 && answer[10] == ' ' && Follows(answer[..10], DATE_PATTERN) && TextLess(answer[..10], timestamp[..10])
  }

  ghost predicate AnswersIso(env: Env) {
    forall timestamp | IsIso(timestamp) ::
      env.weekBefore(timestamp).Some? && IsWeekBefore(env.weekBefore(timestamp).value, timestamp)
  }

  lemma {:induction false} EarlierDateIsEarlier(earlier: string, date: string, x: string, y: string)
    requires |earlier| == |date| && TextLess(earlier, date)
    ensures TextLess(earlier + x, date + y)
    decreases |date|
  {
    var a, b := earlier + x, date + y;
    if earlier[0] == date[0] {
      EarlierDateIsEarlier(earlier[1..], date[1..], x, y);
      assert a[1..] == earlier[1..] + x;
      assert b[1..] == date[1..] + y;
    }
  }

  // What the extension sends is recognisable exactly when it has a conversation and some text left.
  lemma IsoIsRecognisableIff(env: Env, m: Message)
    requires AnswersIso(env) && IsIso(m.timestamp)
    ensures SelfFresh(env, m)
    ensures Recognisable(env, m) <==> m.conversationId.Some? && Sanitized(env, m) != ""
  {
    var answer := env.weekBefore(m.timestamp).value;
    EarlierDateIsEarlier(answer[..10], m.timestamp[..10], answer[10..], m.timestamp[10..]);
    assert answer == answer[..10] + answer[10..] && m.timestamp == m.timestamp[..10] + m.timestamp[10..];
  }

  // ---------- Such answers and such timestamps exist ----------

  lemma {:induction false} ZeroesAreLeast(date: string, zeroes: string)
    requires |date| == |zeroes| && date != zeroes
    requires forall i | 0 <= i < |date| :: date[i] >= zeroes[i]
    ensures TextLess(zeroes, date)
    decreases |date|
  {
    if date[0] == zeroes[0] {
      assert date == [date[0]] + date[1..] && zeroes == [zeroes[0]] + zeroes[1..];
      ZeroesAreLeast(date[1..], zeroes[1..]);
    }
  }

  const LEAST_ANSWER := "0000-00-00 00:00:00"

  lemma LeastAnswerIsEarlier(timestamp: string)
    requires IsIso(timestamp)
    ensures IsWeekBefore(LEAST_ANSWER, timestamp)
  {
    var date := timestamp[..10];
    assert LEAST_ANSWER[..10] == DATE_PATTERN;
    assert DATE_PATTERN[..4] == "0000";
    ZeroesAreLeast(date, DATE_PATTERN);
  }

  // An environment that answers every timestamp of the extension.
  lemma LeastEnvironmentAnswers(env: Env)
    requires forall timestamp :: env.weekBefore(timestamp) == Some(LEAST_ANSWER)
    ensures AnswersIso(env)
  {
    forall timestamp | IsIso(timestamp)
      ensures IsWeekBefore(env.weekBefore(timestamp).value, timestamp)
    {
      LeastAnswerIsEarlier(timestamp);
    }
  }

  lemma SomeTimestampIsIso()
    ensures IsIso("2026-03-01T12:00:00.000Z")
  {
    hide IsDate, IsTime;
    var timestamp := "2026-03-01T12:00:00.000Z";
    SomeDate();
    SomeTime();
    assert timestamp[..10] == "2026-03-01" && timestamp[11..] == "12:00:00.000Z";
  }

  lemma SomeDate()
    ensures IsDate("2026-03-01")
  {
    assert "2026-03-01"[..4] == "2026" && "2026"[0] == '2';
  }

  lemma SomeTime()
    ensures IsTime("12:00:00.000Z")
  {
  }
}
