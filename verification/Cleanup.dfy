/** The database clean-up: duplicate captures, duplicate visits and empty sessions are removed, then
    missing content hashes are filled in. */
module Cleanup {
  import opened Wrappers

  const HASHED_CHARS := 200

  datatype Row = Row(
    source: string,
    conversationId: Option<string>,
    eventType: Option<string>,
    contentHash: Option<string>,
    contentText: Option<string>,
    url: Option<string>,
    visitMinute: Option<int>)

  datatype Session = Session(
    turns: Option<int>,
    inputTokens: Option<int>,
    outputTokens: Option<int>,
    title: Option<string>)

  // The table browser_sessions, by id.
  type Rows = map<int, Row>
  type Sessions = map<string, Session>

  predicate IsCapture(r: Row) {
    r.source == "extension"
  }

  predicate IsVisit(r: Row) {
    r.source == "chrome_history" || r.source == "history"
  }

  // GROUP BY treats NULLs as equal.
  predicate SameContent(a: Row, b: Row) {
    a.conversationId == b.conversationId && a.eventType == b.eventType && a.contentHash == b.contentHash
  }

  predicate SameVisit(a: Row, b: Row) {
    a.url == b.url && a.visitMinute == b.visitMinute
  }

  predicate HasContent(r: Row) {
    IsCapture(r) && r.contentText.Some?
  }

  // id is the least of its group of captures with content.
  predicate IsFirstCapture(rows: Rows, id: int)
    requires id in rows
  {
    HasContent(rows[id]) &&
    forall k | k in rows && HasContent(rows[k]) && SameContent(rows[k], rows[id]) :: id <= k
  }

  predicate IsFirstVisit(rows: Rows, id: int)
    requires id in rows
  {
    IsVisit(rows[id]) && forall k | k in rows && IsVisit(rows[k]) && SameVisit(rows[k], rows[id]) :: id <= k
  }

  predicate IsEmptySession(events: set<string>, id: string, s: Session) {
    && s.turns == Some(0)
    && (s.inputTokens.None? || s.inputTokens.value == 0)
    && (s.outputTokens.None? || s.outputTokens.value == 0)
    && s.title.None?
    && id !in events
  }

  predicate LacksHash(r: Row) {
    r.contentHash.None? && r.contentText.Some?
  }

  predicate CanBeHashed(r: Row) {
    LacksHash(r) && r.contentText.value != ""
  }

  function Head(s: string): string {
    if |s| <= HASHED_CHARS then s else s[..HASHED_CHARS]
  }

  function Hashed(digest: string -> string, r: Row): Row {
    if CanBeHashed(r) then r.(contentHash := Some(digest(Head(r.contentText.value)))) else r
  }

  // ---------- The queries ----------

  function DuplicateCaptures(rows: Rows): set<int> {
    set id | id in rows && IsCapture(rows[id]) && !IsFirstCapture(rows, id)
  }

  function DuplicateVisits(rows: Rows): set<int> {
    set id | id in rows && IsVisit(rows[id]) && !IsFirstVisit(rows, id)
  }

  function EmptySessions(sessions: Sessions, events: set<string>): set<string> {
    set id | id in sessions && IsEmptySession(events, id, sessions[id])
  }

  function NullHashes(rows: Rows): set<int> {
    set id | id in rows && LacksHash(rows[id])
  }

  function Hashable(rows: Rows): set<int> {
    set id | id in rows && CanBeHashed(rows[id])
  }

  function Backfilled(digest: string -> string, rows: Rows): Rows {
    map id | id in rows :: Hashed(digest, rows[id])
  }

  datatype Summary = Summary(
    duplicateCaptures: nat,
    duplicateVisits: nat,
    emptySessions: nat,
    hashesBackfilled: nat,
    remainingSessions: nat,
    remainingBrowser: nat)

  function WithoutDuplicates(rows: Rows): Rows {
    var once := rows - DuplicateCaptures(rows);
    once - DuplicateVisits(once)
  }

  // The browser rows after one clean-up.
  function Cleaned(digest: string -> string, rows: Rows): Rows {
    Backfilled(digest, WithoutDuplicates(rows))
  }

  datatype Tables = Tables(browser: Rows, sessions: Sessions, events: set<string>)

  // The whole database after one clean-up, what that run reports, and what a dry run would.
  function CleanedTables(digest: string -> string, t: Tables): Tables {
    Tables(Cleaned(digest, t.browser), t.sessions - EmptySessions(t.sessions, t.events), t.events)
  }

  function RunSummary(digest: string -> string, t: Tables): Summary {
    var after := CleanedTables(digest, t);
    Summary(|DuplicateCaptures(t.browser)|, |DuplicateVisits(t.browser)|, |EmptySessions(t.sessions, t.events)|,
            |Hashable(WithoutDuplicates(t.browser))|, |after.sessions|, |after.browser|)
  }

  function DrySummary(t: Tables): Summary {
    Summary(|DuplicateCaptures(t.browser)|, |DuplicateVisits(t.browser)|, |EmptySessions(t.sessions, t.events)|,
            |NullHashes(t.browser)|, 0, 0)
  }

  // Every row outside `todo` is hashed, the others are as before.
  predicate PartlyHashed(digest: string -> string, before: Rows, now: Rows, todo: set<int>) {
    now.Keys == before.Keys
    && forall id | id in now :: now[id] == if id in todo then before[id] else Hashed(digest, before[id])
  }

  lemma StartHashing(digest: string -> string, rows: Rows)
    ensures PartlyHashed(digest, rows, rows, NullHashes(rows))
    ensures |Hashable(rows) - NullHashes(rows)| == 0
  {
    assert forall id | id in Hashable(rows) :: id in NullHashes(rows);
    assert Hashable(rows) - NullHashes(rows) == {};
  }

  lemma EndHashing(digest: string -> string, before: Rows, now: Rows)
    requires PartlyHashed(digest, before, now, {})
    ensures now == Backfilled(digest, before)
  {
    var full := Backfilled(digest, before);
    assert full.Keys == before.Keys;
    assert forall id | id in now :: now[id] == full[id];
  }

  lemma HashOneRow(digest: string -> string, before: Rows, now: Rows, todo: set<int>, id: int)
    requires id in todo && todo <= NullHashes(before) && PartlyHashed(digest, before, now, todo)
    ensures id in now && now[id] == before[id] && before[id].contentText.Some?
    ensures CanBeHashed(before[id]) <==> before[id].contentText.value != ""
    ensures CanBeHashed(before[id]) ==>
              Hashed(digest, before[id])
              == before[id].(contentHash := Some(digest(Head(before[id].contentText.value))))
    ensures PartlyHashed(digest, before, now[id := Hashed(digest, before[id])], todo - {id})
    ensures !CanBeHashed(before[id]) ==> now[id := Hashed(digest, before[id])] == now
    ensures |Hashable(before) - (todo - {id})|
         == |Hashable(before) - todo| + if CanBeHashed(before[id]) then 1 else 0
  {
    var counted := Hashable(before) - todo;
    assert Hashable(before) - (todo - {id}) == if CanBeHashed(before[id]) then counted + {id} else counted;
  }

  class Database {
    var browser: Rows
    var sessions: Sessions
    var events: set<string>

    ghost function View(): Tables
      reads this
    {
      Tables(browser, sessions, events)
    }

    constructor (browser: Rows, sessions: Sessions, events: set<string>)
      ensures this.browser == browser && this.sessions == sessions && this.events == events
    {
      this.browser, this.sessions, this.events := browser, sessions, events;
    }

    method RemoveDuplicateCaptures() returns (removed: nat)
      modifies this`browser
      ensures browser == old(browser) - DuplicateCaptures(old(browser))
      ensures removed == |old(browser)| - |browser|
    {
      var doomed := DuplicateCaptures(browser);
      RemovalSize(browser, doomed);
      removed := |doomed|;
      browser := browser - doomed;
    }

    method RemoveDuplicateVisits() returns (removed: nat)
      modifies this`browser
      ensures browser == old(browser) - DuplicateVisits(old(browser))
      ensures removed == |old(browser)| - |browser|
    {
      var doomed := DuplicateVisits(browser);
      RemovalSize(browser, doomed);
      removed := |doomed|;
      browser := browser - doomed;
    }

    method RemoveEmptySessions() returns (removed: nat)
      modifies this`sessions
      ensures sessions == old(sessions) - EmptySessions(old(sessions), events)
      ensures removed == |old(sessions)| - |sessions|
    {
      var doomed := EmptySessions(sessions, events);
      RemovalSize(sessions, doomed);
      removed := |doomed|;
      sessions := sessions - doomed;
    }

    method BackfillContentHashes(digest: string -> string) returns (n: nat)
      modifies this`browser
      ensures browser == Backfilled(digest, old(browser))
      ensures n == |Hashable(old(browser))|
    {
      hide NullHashes, Hashable, PartlyHashed, Backfilled, Hashed, CanBeHashed, Head;
      var todo := NullHashes(browser);
      ghost var before := browser;
      n := 0;
      StartHashing(digest, browser);
      while todo != {}
        invariant todo <= NullHashes(before)
        invariant PartlyHashed(digest, before, browser, todo)
        invariant n == |Hashable(before) - todo|
        decreases todo
      {
        ghost var any := AnyOf(todo);
        var id :| id in todo;
        HashOneRow(digest, before, browser, todo, id);
        var text := browser[id].contentText.value;
        todo := todo - {id};
        if text != "" {
          browser := browser[id := browser[id].(contentHash := Some(digest(Head(text))))];
          n := n + 1;
        }
      }
      assert Hashable(before) - {} == Hashable(before);
      EndHashing(digest, before, browser);
    }

    method RunCleanup(digest: string -> string, dryRun: bool) returns (s: Summary)
      modifies this`browser, this`sessions
      ensures dryRun ==> View() == old(View()) && s == DrySummary(View())
      ensures !dryRun ==> View() == CleanedTables(digest, old(View())) && s == RunSummary(digest, old(View()))
      ensures !dryRun ==> |old(browser)| == s.duplicateCaptures + s.duplicateVisits + s.remainingBrowser
                          && |old(sessions)| == s.emptySessions + s.remainingSessions
    {
      if dryRun {
        return Summary(|DuplicateCaptures(browser)|, |DuplicateVisits(browser)|,
                       |EmptySessions(sessions, events)|, |NullHashes(browser)|, 0, 0);
      }
      RemovalSize(browser, DuplicateCaptures(browser));
      VisitsAreUntouched(browser);
      var captures := RemoveDuplicateCaptures();
      RemovalSize(browser, DuplicateVisits(browser));
      var visits := RemoveDuplicateVisits();
      RemovalSize(sessions, EmptySessions(sessions, events));
      var empty := RemoveEmptySessions();
      ghost var before := browser;
      var hashes := BackfillContentHashes(digest);
      BackfillSize(digest, before);
      s := Summary(captures, visits, empty, hashes, |sessions|, |browser|);
    }
  }

  // ---------- Counting ----------

  lemma RemovalSize<K, V>(m: map<K, V>, doomed: set<K>)
    requires doomed <= m.Keys
    ensures |m - doomed| == |m| - |doomed|
  {
    assert (m - doomed).Keys == m.Keys - doomed;
    assert |m| == |m.Keys| && |m - doomed| == |(m - doomed).Keys|;
  }

  lemma BackfillSize(digest: string -> string, rows: Rows)
    ensures |Backfilled(digest, rows)| == |rows|
  {
    assert Backfilled(digest, rows).Keys == rows.Keys;
    assert |rows| == |rows.Keys| && |Backfilled(digest, rows)| == |Backfilled(digest, rows).Keys|;
  }

  // Removing captures changes nothing about visits, so the dry run's count is the real one.
  lemma VisitsAreUntouched(rows: Rows)
    ensures DuplicateVisits(rows - DuplicateCaptures(rows)) == DuplicateVisits(rows)
  {
    var once := rows - DuplicateCaptures(rows);
    assert forall id | id in rows && IsVisit(rows[id]) :: id in once;
    forall id | id in rows && IsVisit(rows[id])
      ensures IsFirstVisit(once, id) <==> IsFirstVisit(rows, id)
    {
    }
  }

  // ---------- Fixpoint ----------

  predicate NothingToHash(rows: Rows) {
    forall id | id in rows :: !CanBeHashed(rows[id])
  }

  // No duplicate and nothing left to hash: a clean-up would change nothing and report zero.
  predicate IsClean(rows: Rows) {
    DuplicateCaptures(rows) == {} && DuplicateVisits(rows) == {} && NothingToHash(rows)
  }

  lemma CapturesAreDeduplicated(rows: Rows)
    ensures DuplicateCaptures(WithoutDuplicates(rows)) == {}
  {
    var once := rows - DuplicateCaptures(rows);
    var twice := WithoutDuplicates(rows);
    forall id | id in twice && IsCapture(twice[id])
      ensures IsFirstCapture(twice, id)
    {
      assert id !in DuplicateCaptures(rows);
      assert IsFirstCapture(rows, id);
    }
  }

  lemma VisitsAreDeduplicated(rows: Rows)
    ensures DuplicateVisits(WithoutDuplicates(rows)) == {}
  {
    var once := rows - DuplicateCaptures(rows);
    var twice := WithoutDuplicates(rows);
    forall id | id in twice && IsVisit(twice[id])
      ensures IsFirstVisit(twice, id)
    {
      assert id !in DuplicateVisits(once);
      assert IsFirstVisit(once, id);
    }
  }

  lemma HashedRowsStay(digest: string -> string, rows: Rows)
    requires NothingToHash(rows)
    ensures Backfilled(digest, rows) == rows
  {
    assert forall id | id in rows :: Backfilled(digest, rows)[id] == rows[id];
  }

  // When no capture or other row still needs a hash, one clean-up is enough.
  lemma OneRunIsEnoughWhenHashed(digest: string -> string, rows: Rows)
    requires NothingToHash(rows)
    ensures Cleaned(digest, rows) == WithoutDuplicates(rows)
    ensures IsClean(Cleaned(digest, rows))
  {
    HashedRowsStay(digest, WithoutDuplicates(rows));
    CapturesAreDeduplicated(rows);
    VisitsAreDeduplicated(rows);
  }

  // A surviving capture with text and no hash of its own ends up with the hash of another survivor
  // of the same conversation and type.
  predicate BackfillCollides(digest: string -> string, rows: Rows) {
    exists j, k | j in rows && k in rows ::
      && j != k && HasContent(rows[j]) && HasContent(rows[k])
      && CanBeHashed(rows[j]) && SameContent(Hashed(digest, rows[j]), Hashed(digest, rows[k]))
  }

  // One clean-up is enough exactly when no hash it fills in collides with that of a row it kept.
  lemma OneRunIsEnoughIff(digest: string -> string, rows: Rows)
    ensures IsClean(Cleaned(digest, rows)) <==> !BackfillCollides(digest, WithoutDuplicates(rows))
  {
    var kept, after := WithoutDuplicates(rows), Cleaned(digest, rows);
    CapturesAreDeduplicated(rows);
    VisitsAreDeduplicated(rows);
    VisitsStayFirst(digest, kept);
    if BackfillCollides(digest, kept) {
      var j, k :| j in kept && k in kept && j != k && HasContent(kept[j]) && HasContent(kept[k])
                  && CanBeHashed(kept[j]) && SameContent(Hashed(digest, kept[j]), Hashed(digest, kept[k]));
      var earlier, later := if j < k then j else k, if j < k then k else j;
      assert HasContent(after[earlier]) && SameContent(after[earlier], after[later]);
      assert !IsFirstCapture(after, later);
      assert later in DuplicateCaptures(after);
    } else {
      forall id | id in after && IsCapture(after[id])
        ensures IsFirstCapture(after, id)
      {
        assert id !in DuplicateCaptures(kept);
        assert IsFirstCapture(kept, id);
        forall k | k in after && HasContent(after[k]) && SameContent(after[k], after[id])
          ensures id <= k
        {
          FirstStaysFirst(digest, kept, id, k);
        }
      }
      assert NothingToHash(after);
    }
  }

  lemma FirstStaysFirst(digest: string -> string, rows: Rows, id: int, k: int)
    requires id in rows && k in rows && !BackfillCollides(digest, rows)
    requires IsFirstCapture(rows, id) && HasContent(rows[k])
    requires SameContent(Hashed(digest, rows[k]), Hashed(digest, rows[id]))
    ensures id <= k
  {
    if k != id {
      assert !CanBeHashed(rows[k]) && !CanBeHashed(rows[id]);
      assert SameContent(rows[k], rows[id]);
    }
  }

  lemma VisitsStayFirst(digest: string -> string, rows: Rows)
    requires DuplicateVisits(rows) == {}
    ensures DuplicateVisits(Backfilled(digest, rows)) == {}
  {
    var after := Backfilled(digest, rows);
    forall id | id in after && IsVisit(after[id])
      ensures IsFirstVisit(after, id)
    {
      assert id !in DuplicateVisits(rows);
      assert IsFirstVisit(rows, id);
    }
  }

  lemma CleanIsFixpoint(digest: string -> string, rows: Rows)
    requires IsClean(rows)
    ensures Cleaned(digest, rows) == rows
    ensures Hashable(WithoutDuplicates(rows)) == {}
  {
    assert rows - {} == rows;
    assert WithoutDuplicates(rows) == rows;
    assert forall id | id in rows :: id !in Hashable(rows);
    assert Hashable(rows) <= rows.Keys;
    HashedRowsStay(digest, rows);
  }

  // Main result: from any database, two runs reach a clean state, and any further run changes
  // nothing and reports zero everywhere.
  lemma TwoRunsReachAFixpoint(digest: string -> string, rows: Rows)
    ensures var twice := Cleaned(digest, Cleaned(digest, rows));
            && IsClean(twice)
            && Cleaned(digest, twice) == twice
            && |DuplicateCaptures(twice)| == |DuplicateVisits(twice)| == 0
            && Hashable(WithoutDuplicates(twice)) == {}
  {
    var once := Cleaned(digest, rows);
    assert NothingToHash(once);
    OneRunIsEnoughWhenHashed(digest, once);
    var twice := Cleaned(digest, once);
    CleanIsFixpoint(digest, twice);
  }

  lemma SessionsReachAFixpoint(sessions: Sessions, events: set<string>)
    ensures EmptySessions(sessions - EmptySessions(sessions, events), events) == {}
  {
  }

  // Main result for the whole database: after two runs a third changes no table and reports zero
  // removals and zero hashes.
  lemma ThirdRunIsIdle(digest: string -> string, t: Tables)
    ensures var twice := CleanedTables(digest, CleanedTables(digest, t));
            && CleanedTables(digest, twice) == twice
            && RunSummary(digest, twice) == Summary(0, 0, 0, 0, |twice.sessions|, |twice.browser|)
  {
    hide Cleaned, DuplicateCaptures, DuplicateVisits, EmptySessions, Hashable, WithoutDuplicates;
    var once := CleanedTables(digest, t);
    var twice := CleanedTables(digest, once);
    TwoRunsReachAFixpoint(digest, t.browser);
    SessionsReachAFixpoint(t.sessions, t.events);
    assert once.sessions - {} == once.sessions;
    assert EmptySessions(twice.sessions, twice.events) == {};
  }

  method CleanUpThrice(db: Database, digest: string -> string) returns (last: Summary)
    modifies db
    ensures db.View() == CleanedTables(digest, CleanedTables(digest, old(db.View())))
    ensures last == Summary(0, 0, 0, 0, |db.sessions|, |db.browser|)
  {
    ThirdRunIsIdle(digest, db.View());
    var first := db.RunCleanup(digest, false);
    var second := db.RunCleanup(digest, false);
    last := db.RunCleanup(digest, false);
  }

  // ---------- The dry run's count of hashes ----------

  // A dry run never announces fewer hashes than a real run fills in, and as many exactly when every
  // row without a hash has a text that is not empty and is no duplicate.
  lemma DryHashCountIff(rows: Rows)
    ensures |Hashable(WithoutDuplicates(rows))| <= |NullHashes(rows)|
    ensures |NullHashes(rows)| == |Hashable(WithoutDuplicates(rows))| <==>
              forall id | id in NullHashes(rows) :: CanBeHashed(rows[id]) && id in WithoutDuplicates(rows)
  {
    hide DuplicateCaptures, DuplicateVisits;
    var announced, filled := NullHashes(rows), Hashable(WithoutDuplicates(rows));
    var kept := WithoutDuplicates(rows);
    assert forall id | id in kept :: id in rows && kept[id] == rows[id];
    assert forall id :: id in filled <==> id in announced && CanBeHashed(rows[id]) && id in kept;
    SubsetSize(filled, announced);
    if forall id | id in announced :: CanBeHashed(rows[id]) && id in kept {
      assert forall id | id in announced :: id in filled;
      assert filled == announced;
    } else {
      var id :| id in announced && !(CanBeHashed(rows[id]) && id in kept);
      assert id !in filled;
    }
  }

  lemma {:induction false} SubsetSize<T>(part: set<T>, whole: set<T>)
    requires part <= whole
    ensures |part| <= |whole| && (|part| == |whole| <==> part == whole)
  {
    assert whole == part + (whole - part);
  }

  // Both ways to announce too many: a duplicate that is removed first, and an empty text.
  lemma DryRunAnnouncesTooMany()
    ensures var copy := Row("extension", Some("c"), Some("user_prompt"), None, Some("hello"), None, None);
            var rows: Rows := map[1 := copy, 2 := copy];
            |NullHashes(rows)| == 2 && |Hashable(WithoutDuplicates(rows))| < 2
    ensures var blank := Row("extension", Some("c"), Some("user_prompt"), None, Some(""), None, None);
            var rows: Rows := map[1 := blank];
            |NullHashes(rows)| == 1 && |Hashable(WithoutDuplicates(rows))| < 1
  {
    var copy := Row("extension", Some("c"), Some("user_prompt"), None, Some("hello"), None, None);
    var rows: Rows := map[1 := copy, 2 := copy];
    assert NullHashes(rows) == {1, 2};
    assert !IsFirstCapture(rows, 2) && 2 in DuplicateCaptures(rows);
    DryHashCountIff(rows);
    var blank := copy.(contentText := Some(""));
    assert NullHashes(map[1 := blank]) == {1};
    DryHashCountIff(map[1 := blank]);
  }

  // One run is not enough in general: a hashed capture and an unhashed copy of it both survive.
  lemma OneRunCanLeaveDuplicates(digest: string -> string)
    ensures exists rows :: DuplicateCaptures(Cleaned(digest, rows)) != {}
  {
    var copy := Row("extension", Some("c"), Some("user_prompt"), None, Some("hello"), None, None);
    var rows: Rows := map[1 := Hashed(digest, copy), 2 := copy];
    assert Head("hello") == "hello";
    assert DuplicateCaptures(rows) == {};
    assert rows - {} == rows;
    assert DuplicateVisits(rows) == {};
    var once := Cleaned(digest, rows);
    assert once[1] == once[2];
    assert !IsFirstCapture(once, 2);
    assert 2 in DuplicateCaptures(once);
  }

  // ---------- What survives ----------

  lemma {:induction false} LeastId(ids: set<int>) returns (least: int)
    requires ids != {}
    ensures least in ids && forall k | k in ids :: least <= k
    decreases ids
  {
    var id := AnyOf(ids);
    if ids == {id} {
      least := id;
    } else {
      var other := LeastId(ids - {id});
      least := if id < other then id else other;
      assert forall k | k in ids :: k == id || k in ids - {id};
    }
  }

  // When no capture with content lacks a hash, each class of captures keeps exactly one row: the
  // one with its least id, unchanged.
  lemma EachClassKeepsItsFirst(digest: string -> string, rows: Rows, id: int)
    requires id in rows && HasContent(rows[id])
    requires forall k | k in rows && IsCapture(rows[k]) :: !CanBeHashed(rows[k])
    ensures exists kept ::
              && kept in Cleaned(digest, rows) && kept in rows && Cleaned(digest, rows)[kept] == rows[kept]
              && IsFirstCapture(rows, kept) && SameContent(rows[kept], rows[id])
              && forall k | k in Cleaned(digest, rows) && IsCapture(Cleaned(digest, rows)[k])
                            && SameContent(Cleaned(digest, rows)[k], rows[id]) :: k == kept
  {
    var peers := set k | k in rows && HasContent(rows[k]) && SameContent(rows[k], rows[id]);
    assert id in peers;
    var kept := LeastId(peers);
    var after := Cleaned(digest, rows);
    forall k | k in rows && HasContent(rows[k]) && SameContent(rows[k], rows[kept])
      ensures kept <= k
    {
      assert k in peers;
    }
    assert IsFirstCapture(rows, kept);
    assert kept in after && after[kept] == rows[kept];
    forall k | k in after && IsCapture(after[k]) && SameContent(after[k], rows[id])
      ensures k == kept
    {
      assert k in rows && after[k] == rows[k];
      assert IsFirstCapture(rows, k);
    }
  }

  // ---------- Row by row ----------

  predicate IsEarlierCopy(a: Row, b: Row) {
    && a.source == "extension" && a.contentText.Some?
    && a.conversationId == b.conversationId && a.eventType == b.eventType && a.contentHash == b.contentHash
  }

  predicate IsEarlierVisit(a: Row, b: Row) {
    && (a.source == "chrome_history" || a.source == "history")
    && a.url == b.url && a.visitMinute == b.visitMinute
  }

  // Exactly which rows a clean-up keeps, by their columns.
  lemma RowSurvivesIff(digest: string -> string, rows: Rows, id: int)
    requires id in rows
    ensures var r := rows[id];
            id in Cleaned(digest, rows) <==>
              if r.source == "extension" then
                r.contentText.Some? && forall k | k in rows && k < id :: !IsEarlierCopy(rows[k], r)
              else if r.source == "chrome_history" || r.source == "history" then
                forall k | k in rows && k < id :: !IsEarlierVisit(rows[k], r)
              else true
  {
    var r := rows[id];
    VisitsAreUntouched(rows);
    assert id in Cleaned(digest, rows) <==> id !in DuplicateCaptures(rows) && id !in DuplicateVisits(rows);
    if IsCapture(r) && HasContent(r) {
      forall k | k in rows
        ensures IsEarlierCopy(rows[k], r) <==> HasContent(rows[k]) && SameContent(rows[k], r)
      {
      }
    }
    if IsVisit(r) {
      forall k | k in rows
        ensures IsEarlierVisit(rows[k], r) <==> IsVisit(rows[k]) && SameVisit(rows[k], r)
      {
      }
    }
  }

  // And what it does to a row it keeps: only a missing hash of a text that is not empty is filled in,
  // with the digest of the first 200 characters.
  lemma SurvivorIs(digest: string -> string, rows: Rows, id: int)
    requires id in Cleaned(digest, rows)
    ensures id in rows
    ensures var r := rows[id];
            Cleaned(digest, rows)[id] ==
              if r.contentHash.None? && r.contentText.Some? && r.contentText.value != "" then
                var text := r.contentText.value;
                r.(contentHash := Some(digest(if |text| <= 200 then text else text[..200])))
              else r
  {
  }

  // A session is kept exactly when it has turns, or a count that is not known, tokens, a title, or an
  // event.
  lemma SessionSurvivesIff(digest: string -> string, t: Tables, id: string)
    requires id in t.sessions
    ensures var s := t.sessions[id];
            id in CleanedTables(digest, t).sessions <==>
              || s.turns != Some(0) || s.inputTokens !in {None, Some(0)} || s.outputTokens !in {None, Some(0)}
              || s.title.Some? || id in t.events
    ensures id in CleanedTables(digest, t).sessions ==> CleanedTables(digest, t).sessions[id] == t.sessions[id]
  {
    hide Cleaned;
  }

  // ---------- What a dry run announces ----------

  function CapturesIn(rows: Rows): set<int> {
    set id | id in rows && rows[id].source == "extension"
  }

  function VisitsIn(rows: Rows): set<int> {
    set id | id in rows && (rows[id].source == "chrome_history" || rows[id].source == "history")
  }

  // The removals a dry run announces are those of a real run: the captures, visits and sessions that are
  // there before it and not after it.
  lemma DryRunTellsTheRemovals(digest: string -> string, t: Tables)
    ensures var (dry, after) := (DrySummary(t), CleanedTables(digest, t));
            && dry.duplicateCaptures == |CapturesIn(t.browser)| - |CapturesIn(after.browser)|
            && dry.duplicateVisits == |VisitsIn(t.browser)| - |VisitsIn(after.browser)|
            && dry.emptySessions == |t.sessions| - |after.sessions|
  {
    hide Cleaned, DuplicateCaptures, DuplicateVisits, EmptySessions, CapturesIn, VisitsIn, NullHashes;
    SurvivorsByKind(digest, t.browser);
    SmallerBy(CapturesIn(t.browser), DuplicateCaptures(t.browser));
    SmallerBy(VisitsIn(t.browser), DuplicateVisits(t.browser));
    EmptyAreSessions(t);
    RemovalSize(t.sessions, EmptySessions(t.sessions, t.events));
  }

  lemma EmptyAreSessions(t: Tables)
    ensures EmptySessions(t.sessions, t.events) <= t.sessions.Keys
  {
  }

  lemma SmallerBy(all: set<int>, doomed: set<int>)
    requires doomed <= all
    ensures |all - doomed| == |all| - |doomed|
  {
  }

  lemma Survivors(digest: string -> string, rows: Rows, id: int)
    ensures id in Cleaned(digest, rows) <==>
              id in rows && id !in DuplicateCaptures(rows) && id !in DuplicateVisits(rows)
    ensures id in Cleaned(digest, rows) ==> Cleaned(digest, rows)[id].source == rows[id].source
  {
    hide DuplicateCaptures, DuplicateVisits;
    VisitsAreUntouched(rows);
  }

  lemma DuplicatesByKind(rows: Rows)
    ensures DuplicateCaptures(rows) <= CapturesIn(rows) && DuplicateVisits(rows) <= VisitsIn(rows)
    ensures CapturesIn(rows) !! VisitsIn(rows)
  {
  }

  lemma SurvivorsByKind(digest: string -> string, rows: Rows)
    ensures CapturesIn(Cleaned(digest, rows)) == CapturesIn(rows) - DuplicateCaptures(rows)
    ensures VisitsIn(Cleaned(digest, rows)) == VisitsIn(rows) - DuplicateVisits(rows)
    ensures DuplicateCaptures(rows) <= CapturesIn(rows) && DuplicateVisits(rows) <= VisitsIn(rows)
  {
    hide Cleaned, DuplicateCaptures, DuplicateVisits;
    DuplicatesByKind(rows);
    forall id
      ensures id in Cleaned(digest, rows) <==>
                id in rows && id !in DuplicateCaptures(rows) && id !in DuplicateVisits(rows)
      ensures id in Cleaned(digest, rows) ==> Cleaned(digest, rows)[id].source == rows[id].source
    {
      Survivors(digest, rows, id);
    }
  }
}
