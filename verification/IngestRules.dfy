/** Which captures the monitor keeps, in terms of the fields of rows and captures and of the captures
    that came before. */
module IngestRules {
  import opened Wrappers
  import opened CaptureQueue
  import opened BrowserIngest

  // The text that may be kept.
  function Kept(env: Env, m: Message): string {
    if m.text == "" then "" else env.sanitize(m.text)
  }

  function First(n: nat, s: string): string {
    s[..if |s| < n then |s| else n]
  }

  // The row says what m says, later than a week before m.
  ghost predicate SaysTheSame(env: Env, row: Row, m: Message) {
    && row.conversationId.Some? && row.conversationId == m.conversationId
    && row.eventType == Some(m.kind)
    && (row.contentHash == Some(env.digest(First(200, Kept(env, m))))
        || exists text :: row.contentText == Some(text) && First(200, text) == First(200, Kept(env, m)))
    && exists cutoff :: env.weekBefore(m.timestamp) == Some(cutoff) && TextLess(cutoff, row.visitTime)
  }

  // The row holds what m says: nothing of its text but the first 5000 characters of what may be kept.
  predicate Holds(env: Env, row: Row, m: Message) {
    && row.service == m.service && row.url == m.url && row.title == m.title
    && row.conversationId == m.conversationId && row.visitTime == m.timestamp
    && row.source == "extension" && row.eventType == Some(m.kind)
    && var kept := Kept(env, m);
       if kept == "" then row.contentText.None? && row.contentHash.None?
       else row.contentText == Some(First(5000, kept)) && row.contentHash == Some(env.digest(First(200, kept)))
  }

  lemma PrefixIsFirst(s: string, n: nat)
    ensures Prefix(s, n) == First(n, s)
  {
  }

  lemma MatchesSaysTheSame(env: Env, row: Row, m: Message)
    ensures Matches(env, row, m) <==> SaysTheSame(env, row, m)
  {
    PrefixIsFirst(Kept(env, m), 200);
    if row.contentText.Some? {
      PrefixIsFirst(row.contentText.value, 200);
    }
  }

  lemma OwnRowHolds(env: Env, m: Message)
    ensures Holds(env, RowOf(env, m), m)
  {
    PrefixIsFirst(Kept(env, m), 200);
    PrefixIsFirst(Kept(env, m), 5000);
  }

  // Main result: a delivered event is kept exactly when it has a service and a type and, if any text
  // is left, no row says the same; the table then grows by one row, which holds the event.
  lemma KeptIff(env: Env, rows: seq<Row>, m: Message)
    ensures var after := IngestOne(env, rows, m);
            if m.service != "" && m.kind != ""
               && (Kept(env, m) == "" || forall row | row in rows :: !SaysTheSame(env, row, m))
            then |after| == |rows| + 1 && after[..|rows|] == rows && Holds(env, after[|rows|], m)
            else after == rows
  {
    hide SaysTheSame, Matches, Holds;
    forall row ensures Matches(env, row, m) <==> SaysTheSame(env, row, m) {
      MatchesSaysTheSame(env, row, m);
    }
    OwnRowHolds(env, m);
    assert forall i | 0 <= i < |rows| :: rows[i] in rows;
  }

  // An event whose conversation, type, or text is new is kept.
  lemma NewsIsKept(env: Env, rows: seq<Row>, m: Message)
    requires IsCapture(m)
    requires forall row | row in rows ::
      || row.conversationId != m.conversationId || row.eventType != Some(m.kind)
      || (row.contentHash != Some(env.digest(First(200, Kept(env, m))))
          && forall text | row.contentText == Some(text) :: First(200, text) != First(200, Kept(env, m)))
    ensures IngestOne(env, rows, m)[..|rows|] == rows && |IngestOne(env, rows, m)| == |rows| + 1
  {
    KeptIff(env, rows, m);
  }

  // ---------- In terms of the captures before ----------

  // Capture m says what the earlier capture a said, less than a week later.
  ghost predicate Repeats(env: Env, a: Message, m: Message) {
    && a.conversationId.Some? && a.conversationId == m.conversationId && a.kind == m.kind
    && Kept(env, a) != "" && env.digest(First(200, Kept(env, a))) == env.digest(First(200, Kept(env, m)))
    && exists cutoff :: env.weekBefore(m.timestamp) == Some(cutoff) && TextLess(cutoff, a.timestamp)
  }

  ghost predicate RepeatsOneOf(env: Env, messages: seq<Message>, kept: seq<nat>, i: nat)
    requires i < |messages|
  {
    Kept(env, messages[i]) != "" && exists j :: j in kept && j < i && Repeats(env, messages[j], messages[i])
  }

  // The positions of the captures that are kept: all that repeat no capture kept before.
  ghost predicate IsKeptList(env: Env, messages: seq<Message>, kept: seq<nat>) {
    && (forall k | 0 <= k < |kept| :: kept[k] < |messages|)
    && (forall k, l | 0 <= k < l < |kept| :: kept[k] < kept[l])
    && (forall i | 0 <= i < |messages| ::
          i in kept <==> IsCapture(messages[i]) && !RepeatsOneOf(env, messages, kept, i))
  }

  predicate AreRowsOf(env: Env, rows: seq<Row>, messages: seq<Message>, kept: seq<nat>) {
    && |rows| == |kept|
    && forall k | 0 <= k < |rows| :: kept[k] < |messages| && Holds(env, rows[k], messages[kept[k]])
  }

  lemma FirstOfFirst(s: string)
    ensures First(200, First(5000, s)) == First(200, s)
  {
  }

  // For a row the monitor wrote itself, comparing texts adds nothing to comparing digests.
  lemma OwnRowSaysTheSameIff(env: Env, row: Row, a: Message, m: Message)
    requires Holds(env, row, a) && Kept(env, m) != ""
    ensures SaysTheSame(env, row, m) <==> Repeats(env, a, m)
  {
    FirstOfFirst(Kept(env, a));
  }

  lemma SaidBeforeIff(env: Env, rows: seq<Row>, messages: seq<Message>, kept: seq<nat>, i: nat)
    requires AreRowsOf(env, rows, messages, kept) && i < |messages| && Kept(env, messages[i]) != ""
    requires forall j | j in kept :: j < i
    ensures (exists row :: row in rows && SaysTheSame(env, row, messages[i])) <==> RepeatsOneOf(env, messages, kept, i)
  {
    hide SaysTheSame, Repeats, Holds;
    forall k | 0 <= k < |rows|
      ensures SaysTheSame(env, rows[k], messages[i]) <==> Repeats(env, messages[kept[k]], messages[i])
    {
      OwnRowSaysTheSameIff(env, rows[k], messages[kept[k]], messages[i]);
    }
    if row :| row in rows && SaysTheSame(env, row, messages[i]) {
      var k :| 0 <= k < |rows| && rows[k] == row;
      assert kept[k] in kept;
    }
    if j :| j in kept && j < i && Repeats(env, messages[j], messages[i]) {
      var k :| 0 <= k < |kept| && kept[k] == j;
      assert rows[k] in rows;
    }
  }

  lemma KeptListGrows(env: Env, messages: seq<Message>, kept: seq<nat>, m: Message)
    requires IsKeptList(env, messages, kept)
    ensures var more := messages + [m];
            var n := |messages|;
            IsKeptList(env, more,
                       if IsCapture(m) && !RepeatsOneOf(env, more, kept, n) then kept + [n] else kept)
  {
    hide Repeats, Kept;
    var more, n := messages + [m], |messages|;
    var now := if IsCapture(m) && !RepeatsOneOf(env, more, kept, n) then kept + [n] else kept;
    assert n !in kept;
    forall i | 0 <= i <= n
      ensures RepeatsOneOf(env, more, now, i) <==> RepeatsOneOf(env, more, kept, i)
      ensures i < n ==> (RepeatsOneOf(env, more, kept, i) <==> RepeatsOneOf(env, messages, kept, i))
    {
      assert forall j | j < i :: j in now <==> j in kept;
    }
  }

  // Main result: what a table filled from scratch holds after any captures: one row for each that
  // repeats no capture kept before it, in the order of arrival.
  lemma {:induction false} TableHoldsTheKept(env: Env, messages: seq<Message>) returns (kept: seq<nat>)
    ensures IsKeptList(env, messages, kept)
    ensures AreRowsOf(env, IngestAll(env, [], messages), messages, kept)
    decreases |messages|
  {
    hide IngestOne, SaysTheSame, Holds, Kept, IsKeptList, RepeatsOneOf;
    if messages == [] {
      kept := [];
      NothingKept(env);
    } else {
      var n := |messages| - 1;
      var m := messages[n];
      assert messages == messages[..n] + [m];
      var before := TableHoldsTheKept(env, messages[..n]);
      var rows := IngestAll(env, [], messages[..n]);
      KeptListGrows(env, messages[..n], before, m);
      KeptIff(env, rows, m);
      KeptAreEarlier(env, messages[..n], before);
      if Kept(env, m) != "" {
        SaidBeforeIff(env, rows, messages, before, n);
      } else {
        NothingToRepeat(env, messages, before, n);
      }
      kept := if IsCapture(m) && !RepeatsOneOf(env, messages, before, n) then before + [n] else before;
    }
  }

  lemma NothingKept(env: Env)
    ensures IsKeptList(env, [], [])
  {
  }

  lemma KeptAreEarlier(env: Env, messages: seq<Message>, kept: seq<nat>)
    requires IsKeptList(env, messages, kept)
    ensures forall j | j in kept :: j < |messages|
  {
  }

  lemma NothingToRepeat(env: Env, messages: seq<Message>, kept: seq<nat>, i: nat)
    requires i < |messages| && Kept(env, messages[i]) == ""
    ensures !RepeatsOneOf(env, messages, kept, i)
  {
  }

  // ---------- Payloads ----------

  // The captures of a payload are its objects, in order.
  lemma {:induction false} CapturesOfBoth(a: seq<Entry>, b: seq<Entry>)
    ensures Captures(a + b) == Captures(a) + Captures(b)
    decreases |b|
  {
    if b == [] {
      assert a + b == a;
    } else {
      var n := |b| - 1;
      assert (a + b)[..|a + b| - 1] == a + b[..n];
      CapturesOfBoth(a, b[..n]);
    }
  }

  lemma {:induction false} ObjectsAreCaptured(messages: seq<Message>)
    ensures Captures(seq(|messages|, i requires 0 <= i < |messages| => Capture(messages[i]))) == messages
    ensures Captures([NotAnObject]) == []
    decreases |messages|
  {
    var entries := seq(|messages|, i requires 0 <= i < |messages| => Capture(messages[i]));
    assert [NotAnObject][..0] == [];
    if messages != [] {
      var n := |messages| - 1;
      ObjectsAreCaptured(messages[..n]);
      assert entries[..n] == seq(n, i requires 0 <= i < n => Capture(messages[..n][i]));
      assert messages == messages[..n] + [messages[n]];
    }
  }
}
