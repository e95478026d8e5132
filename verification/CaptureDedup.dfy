/** The content script's gate before a capture is sent: a rate limit and a cache of recently sent
    contents whose old entries are evicted. */
module CaptureDedup {
  import opened Wrappers
  import opened RollingHash

  const MIN_EVENT_INTERVAL_MS := 2000
  const DEDUP_WINDOW_MS := 86400000
  const CLEANUP_SIZE := 200
  const MIN_TEXT_LENGTH := 10
  const HASHED_LENGTH := 200
  const SLOTS := 43201

  function Digit(d: nat): char
    requires d < 36
  {
    "0123456789abcdefghijklmnopqrstuvwxyz"[d]
  }

  function Base36Nat(n: nat): string {
    if n < 36 then [Digit(n)] else Base36Nat(n / 36) + [Digit(n % 36)]
  }

  // Number.prototype.toString(36) on an integer.
  function Base36(h: int): string {
    if h < 0 then "-" + Base36Nat(-h) else Base36Nat(h)
  }

  // An empty or missing conversation id counts as 'unknown'.
  function ConversationKey(conversationId: Option<string>): string {
    if conversationId.None? || conversationId.value == "" then "unknown" else conversationId.value
  }

  function DedupKey(conversationId: Option<string>, kind: string, text: seq<CodeUnit>): string {
    var head := if |text| > HASHED_LENGTH then text[..HASHED_LENGTH] else text;
    ConversationKey(conversationId) + "_" + kind + "_" + Base36(Hash(head))
  }

  // ---------- The evicting cache ----------

  datatype Cache = Cache(lastEventTime: int, captured: map<string, int>)

  function Evicted(captured: map<string, int>, now: int): map<string, int> {
    map k | k in captured && !(now - captured[k] > DEDUP_WINDOW_MS) :: captured[k]
  }

  // A stored time of 0 reads as absent.
  predicate Sends(c: Cache, now: int, key: string) {
    && now - c.lastEventTime >= MIN_EVENT_INTERVAL_MS
    && !(key in c.captured && c.captured[key] != 0 && now - c.captured[key] < DEDUP_WINDOW_MS)
  }

  function AfterSend(c: Cache, now: int, key: string): Cache {
    var captured := c.captured[key := now];
    Cache(now, if |captured| > CLEANUP_SIZE then Evicted(captured, now) else captured)
  }

  class CaptureGate {
    var lastEventTime: int
    var captured: map<string, int>

    ghost function View(): Cache
      reads this
    {
      Cache(lastEventTime, captured)
    }

    constructor ()
      ensures View() == Cache(0, map[])
    {
      lastEventTime, captured := 0, map[];
    }

    method SendCaptureEvent(now: int, conversationId: Option<string>, kind: string, text: seq<CodeUnit>)
        returns (sent: bool)
      modifies this
      ensures sent == (|text| >= MIN_TEXT_LENGTH && Sends(old(View()), now, DedupKey(conversationId, kind, text)))
      ensures View() == if sent then AfterSend(old(View()), now, DedupKey(conversationId, kind, text))
                        else old(View())
    {
      if now - lastEventTime < MIN_EVENT_INTERVAL_MS || |text| < MIN_TEXT_LENGTH {
        return false;
      }
      var head := if |text| > HASHED_LENGTH then text[..HASHED_LENGTH] else text;
      var h := SimpleHash(head);
      var key := ConversationKey(conversationId) + "_" + kind + "_" + Base36(h);
      if key in captured && captured[key] != 0 && now - captured[key] < DEDUP_WINDOW_MS {
        return false;
      }
      captured := captured[key := now];
      if |captured| > CLEANUP_SIZE {
        Cleanup(now);
      }
      lastEventTime := now;
      sent := true;
    }

    method Cleanup(now: int)
      modifies this`captured
      ensures captured == Evicted(old(captured), now)
    {
      var todo := captured.Keys;
      while todo != {}
        invariant todo <= captured.Keys <= old(captured).Keys
        invariant forall k | k in captured :: captured[k] == old(captured)[k]
        invariant forall k | k in old(captured) ::
                    k in captured <==> k in todo || !(now - old(captured)[k] > DEDUP_WINDOW_MS)
        decreases todo
      {
        var k :| k in todo;
        todo := todo - {k};
        if now - captured[k] > DEDUP_WINDOW_MS {
          captured := captured - {k};
        }
      }
    }
  }

  // ---------- The unbounded history ----------

  datatype Sent = Sent(time: int, key: string)
  datatype Request = Request(now: int, key: string)

  function LastTime(history: seq<Sent>): int {
    if history == [] then 0 else history[|history| - 1].time
  }

  // When `key` was last sent.
  function Latest(history: seq<Sent>, key: string): Option<int> {
    if history == [] then None
    else
      var n := |history| - 1;
      if history[n].key == key then Some(history[n].time) else Latest(history[..n], key)
  }

  // The intended rule: nothing within 2 s of the last send, no content within 24 h of its last send.
  predicate Allowed(history: seq<Sent>, now: int, key: string) {
    && now >= LastTime(history) + 2000
    && (Latest(history, key).None? || now >= Latest(history, key).value + 86400000)
  }

  predicate Spaced(history: seq<Sent>) {
    && (forall i | 0 <= i < |history| :: history[i].time >= 2000)
    && (forall i, j | 0 <= i < j < |history| :: history[j].time >= history[i].time + 2000)
  }

  predicate DayApart(history: seq<Sent>) {
    forall i, j | 0 <= i < j < |history| && history[i].key == history[j].key ::
      history[j].time >= history[i].time + 86400000
  }

  // The cache holds the last time of every key, except keys too old to matter any more.
  ghost predicate Mirrors(c: Cache, history: seq<Sent>) {
    && c.lastEventTime == LastTime(history)
    && (forall k | k in c.captured :: Latest(history, k) == Some(c.captured[k]))
    && (forall k | k !in c.captured && Latest(history, k).Some? ::
          c.lastEventTime - Latest(history, k).value > DEDUP_WINDOW_MS)
  }

  lemma {:induction false} LatestIsIn(history: seq<Sent>, key: string)
    ensures Latest(history, key).Some? ==>
              exists i :: 0 <= i < |history| && history[i] == Sent(Latest(history, key).value, key)
    ensures forall i | 0 <= i < |history| && history[i].key == key && Spaced(history) ::
              Latest(history, key).Some? && history[i].time <= Latest(history, key).value
  {
    if history != [] {
      var n := |history| - 1;
      LatestIsIn(history[..n], key);
      assert history[n] == history[|history| - 1];
      assert forall i | 0 <= i < n :: history[..n][i] == history[i];
    }
  }

  lemma DecisionsAgree(c: Cache, history: seq<Sent>, now: int, key: string)
    requires Mirrors(c, history) && Spaced(history)
    ensures Sends(c, now, key) <==> Allowed(history, now, key)
  {
    LatestIsIn(history, key);
  }

  lemma LatestSnoc(history: seq<Sent>, s: Sent, key: string)
    ensures Latest(history + [s], key) == if s.key == key then Some(s.time) else Latest(history, key)
    ensures LastTime(history + [s]) == s.time
  {
    assert (history + [s])[..|history|] == history;
  }

  lemma SpacedSnoc(history: seq<Sent>, s: Sent)
    requires Spaced(history) && s.time >= LastTime(history) + MIN_EVENT_INTERVAL_MS
    ensures Spaced(history + [s])
  {
    var next, n := history + [s], |history|;
    assert forall i | 0 <= i < n :: next[i] == history[i];
    assert n > 0 ==> LastTime(history) == history[n - 1].time;
  }

  lemma DayApartSnoc(history: seq<Sent>, s: Sent)
    requires DayApart(history) && Spaced(history)
    requires Latest(history, s.key).None? || s.time >= Latest(history, s.key).value + DEDUP_WINDOW_MS
    ensures DayApart(history + [s])
  {
    hide Spaced;
    LatestIsIn(history, s.key);
    var next, n := history + [s], |history|;
    assert forall i | 0 <= i < n :: next[i] == history[i];
  }

  lemma EvictionMirrors(c: Cache, history: seq<Sent>, now: int, key: string)
    requires Mirrors(c, history) && now >= LastTime(history) + MIN_EVENT_INTERVAL_MS
    ensures Mirrors(AfterSend(c, now, key), history + [Sent(now, key)])
  {
    hide Latest, LastTime;
    forall k
      ensures Latest(history + [Sent(now, key)], k) == if k == key then Some(now) else Latest(history, k)
      ensures LastTime(history + [Sent(now, key)]) == now
    {
      LatestSnoc(history, Sent(now, key), k);
    }
  }

  lemma SendKeepsMirror(c: Cache, history: seq<Sent>, now: int, key: string)
    requires Mirrors(c, history) && Spaced(history) && DayApart(history) && Sends(c, now, key)
    ensures Mirrors(AfterSend(c, now, key), history + [Sent(now, key)])
    ensures Spaced(history + [Sent(now, key)]) && DayApart(history + [Sent(now, key)])
  {
    hide Mirrors, Spaced, DayApart, Sends, AfterSend, Latest, LastTime;
    DecisionsAgree(c, history, now, key);
    SpacedSnoc(history, Sent(now, key));
    DayApartSnoc(history, Sent(now, key));
    EvictionMirrors(c, history, now, key);
  }

  // ---------- The size of the cache ----------

  lemma {:induction false} Pigeonhole(slots: map<string, nat>, n: nat)
    requires forall k | k in slots :: slots[k] < n
    requires forall k, l | k in slots && l in slots && k != l :: slots[k] != slots[l]
    ensures |slots| <= n
    decreases n
  {
    if n == 0 {
      assert slots == map[];
    } else {
      if k :| k in slots && slots[k] == n - 1 {
        var rest := slots - {k};
        assert slots.Keys == rest.Keys + {k};
        assert |slots| == |slots.Keys| && |rest| == |rest.Keys|;
        Pigeonhole(rest, n - 1);
      } else {
        Pigeonhole(slots, n - 1);
      }
    }
  }

  lemma CacheIsSmall(c: Cache, history: seq<Sent>)
    requires Mirrors(c, history) && Spaced(history)
    requires forall k | k in c.captured :: c.lastEventTime - DEDUP_WINDOW_MS <= c.captured[k]
    ensures |c.captured| <= SLOTS
  {
    forall k | k in c.captured
      ensures exists i :: 0 <= i < |history| && history[i] == Sent(c.captured[k], k)
      ensures c.captured[k] <= c.lastEventTime
    {
      LatestIsIn(history, k);
    }
    var base := c.lastEventTime - DEDUP_WINDOW_MS;
    var slots: map<string, nat> := map k | k in c.captured :: (c.captured[k] - base) / MIN_EVENT_INTERVAL_MS;
    forall k, l | k in slots && l in slots && k != l
      ensures slots[k] != slots[l]
    {
      var i :| 0 <= i < |history| && history[i] == Sent(c.captured[k], k);
      var j :| 0 <= j < |history| && history[j] == Sent(c.captured[l], l);
      assert i < j || j < i;
    }
    Pigeonhole(slots, SLOTS);
    assert slots.Keys == c.captured.Keys;
    assert |slots| == |slots.Keys| && |c.captured| == |c.captured.Keys|;
  }

  lemma SizeAfterSend(c: Cache, history: seq<Sent>, now: int, key: string)
    requires Mirrors(c, history) && Spaced(history) && DayApart(history) && Sends(c, now, key)
    ensures |AfterSend(c, now, key).captured| <= SLOTS
  {
    SendKeepsMirror(c, history, now, key);
    if |c.captured[key := now]| > CLEANUP_SIZE {
      CacheIsSmall(AfterSend(c, now, key), history + [Sent(now, key)]);
    }
  }

  // ---------- Whole sessions ----------

  function Replay(c: Cache, requests: seq<Request>): (Cache, seq<Sent>) {
    if requests == [] then (c, [])
    else
      var n := |requests| - 1;
      var (before, sent) := Replay(c, requests[..n]);
      var r := requests[n];
      if Sends(before, r.now, r.key) then (AfterSend(before, r.now, r.key), sent + [Sent(r.now, r.key)])
      else (before, sent)
  }

  function Intended(requests: seq<Request>): seq<Sent> {
    if requests == [] then []
    else
      var n := |requests| - 1;
      var sent := Intended(requests[..n]);
      var r := requests[n];
      if Allowed(sent, r.now, r.key) then sent + [Sent(r.now, r.key)] else sent
  }

  // Main result: for every sequence of requests, with any clock readings, the evicting cache sends
  // exactly what the unbounded history would; sends are 2 s apart, repeats 24 h apart, and the
  // cache never holds more than 43201 entries.
  lemma {:induction false} EvictionChangesNoDecision(requests: seq<Request>)
    ensures var (c, sent) := Replay(Cache(0, map[]), requests);
            && sent == Intended(requests)
            && Spaced(sent) && DayApart(sent)
            && Mirrors(c, sent)
            && |c.captured| <= SLOTS
    decreases |requests|
  {
    if requests != [] {
      var n := |requests| - 1;
      EvictionChangesNoDecision(requests[..n]);
      var (before, sent) := Replay(Cache(0, map[]), requests[..n]);
      var r := requests[n];
      DecisionsAgree(before, sent, r.now, r.key);
      if Sends(before, r.now, r.key) {
        SendKeepsMirror(before, sent, r.now, r.key);
        SizeAfterSend(before, sent, r.now, r.key);
      }
    }
  }
}
