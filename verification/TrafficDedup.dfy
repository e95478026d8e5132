/** The traffic list: rows of one request are shown once, preferring a row that has a latency. */
module TrafficDedup {
  import opened Wrappers

  // One row of api_calls; `rest` stands for the columns that play no part here.
  datatype Call = Call(requestId: Option<string>, latency: Option<int>, rest: string)

  // NULL and "" are no id; NULL and 0 are no latency.
  predicate HasId(c: Call) {
    c.requestId.Some? && c.requestId.value != ""
  }

  predicate HasLatency(c: Call) {
    c.latency.Some? && c.latency.value != 0
  }

  predicate SameRequest(a: Call, b: Call) {
    HasId(a) && a.requestId == b.requestId
  }

  // The first row of its request; a row without an id stands for itself.
  predicate IsHead(before: seq<Call>, c: Call) {
    forall k | 0 <= k < |before| :: !SameRequest(before[k], c)
  }

  function Heads(rows: seq<Call>): seq<Call> {
    if rows == [] then []
    else
      var n := |rows| - 1;
      Heads(rows[..n]) + if IsHead(rows[..n], rows[n]) then [rows[n]] else []
  }

  // What stands for the request of `head`: its first row with a latency, else `head` itself.
  function Shown(rows: seq<Call>, head: Call): Call {
    if rows == [] || HasLatency(head) then head
    else if SameRequest(head, rows[0]) && HasLatency(rows[0]) then rows[0]
    else Shown(rows[1..], head)
  }

  // The whole list: the heads in order, each as it is to be shown.
  function Unique(rows: seq<Call>): seq<Call> {
    var heads := Heads(rows);
    seq(|heads|, k requires 0 <= k < |heads| => Shown(rows, heads[k]))
  }

  lemma HeadsSnoc(rows: seq<Call>, c: Call)
    ensures Heads(rows + [c]) == Heads(rows) + if IsHead(rows, c) then [c] else []
  {
    assert (rows + [c])[..|rows|] == rows;
  }

  lemma {:induction false} ShownSnoc(rows: seq<Call>, head: Call, c: Call)
    ensures Shown(rows + [c], head)
         == var before := Shown(rows, head);
            if SameRequest(head, c) && HasLatency(c) && !HasLatency(before) then c else before
  {
    if rows == [] {
      assert (rows + [c])[1..] == [];
    } else {
      assert (rows + [c])[1..] == rows[1..] + [c];
      ShownSnoc(rows[1..], head, c);
    }
  }

  lemma {:induction false} ShownIsOfRequest(rows: seq<Call>, head: Call)
    ensures Shown(rows, head) == head || SameRequest(head, Shown(rows, head))
    ensures IsHead(rows, head) ==> Shown(rows, head) == head
  {
    if rows != [] {
      ShownIsOfRequest(rows[1..], head);
    }
  }

  lemma {:induction false} HeadsAreDistinct(rows: seq<Call>)
    ensures forall j, k | 0 <= j < k < |Heads(rows)| :: !SameRequest(Heads(rows)[j], Heads(rows)[k])
    ensures forall c | c in Heads(rows) :: c in rows
    decreases |rows|
  {
    if rows != [] {
      var n := |rows| - 1;
      HeadsAreDistinct(rows[..n]);
      forall c | c in Heads(rows[..n])
        ensures c in rows && (IsHead(rows[..n], rows[n]) ==> !SameRequest(c, rows[n]))
      {
        assert c in rows[..n];
      }
    }
  }

  lemma {:induction false} HeadsCover(rows: seq<Call>, i: nat)
    requires i < |rows| && HasId(rows[i])
    ensures exists k :: 0 <= k < |Heads(rows)| && SameRequest(Heads(rows)[k], rows[i])
    decreases |rows|
  {
    var n := |rows| - 1;
    var earlier := Heads(rows[..n]);
    if i < n {
      HeadsCover(rows[..n], i);
      var k :| 0 <= k < |earlier| && SameRequest(earlier[k], rows[i]);
      assert Heads(rows)[k] == earlier[k];
    } else if IsHead(rows[..n], rows[n]) {
      assert Heads(rows)[|earlier|] == rows[n];
    } else {
      var j :| 0 <= j < n && SameRequest(rows[..n][j], rows[n]);
      HeadsCover(rows[..n], j);
      var k :| 0 <= k < |earlier| && SameRequest(earlier[k], rows[j]);
      assert Heads(rows)[k] == earlier[k];
    }
  }

  // One request, one entry.
  lemma UniqueIsDistinct(rows: seq<Call>, j: nat, k: nat)
    requires j < |Unique(rows)| && k < |Unique(rows)| && SameRequest(Unique(rows)[j], Unique(rows)[k])
    ensures j == k
  {
    HeadsAreDistinct(rows);
    ShownIsOfRequest(rows, Heads(rows)[j]);
    ShownIsOfRequest(rows, Heads(rows)[k]);
    assert SameRequest(Heads(rows)[j], Heads(rows)[k]) && SameRequest(Heads(rows)[k], Heads(rows)[j]);
  }

  // A new request adds its row at the end.
  lemma UniqueHead(rows: seq<Call>, c: Call)
    requires IsHead(rows, c)
    ensures Unique(rows + [c]) == Unique(rows) + [c]
  {
    HeadsSnoc(rows, c);
    HeadsAreDistinct(rows);
    var heads := Heads(rows);
    forall k | 0 <= k < |heads|
      ensures Shown(rows + [c], heads[k]) == Shown(rows, heads[k])
    {
      assert heads[k] in rows;
      ShownSnoc(rows, heads[k], c);
    }
    ShownSnoc(rows, c, c);
    ShownIsOfRequest(rows, c);
  }

  // A further row of a listed request better its entry when it brings the first latency.
  lemma UniqueRepeat(rows: seq<Call>, c: Call, j: nat)
    requires j < |Unique(rows)| && SameRequest(Unique(rows)[j], c)
    ensures !IsHead(rows, c)
    ensures Unique(rows + [c])
         == if HasLatency(c) && !HasLatency(Unique(rows)[j]) then Unique(rows)[j := c] else Unique(rows)
  {
    HeadsSnoc(rows, c);
    HeadsAreDistinct(rows);
    var heads := Heads(rows);
    ShownIsOfRequest(rows, heads[j]);
    assert heads[j] in rows && SameRequest(heads[j], c);
    forall k | 0 <= k < |heads|
      ensures k != j ==> !SameRequest(heads[k], c)
    {
      assert k < j ==> !SameRequest(heads[k], heads[j]);
      assert j < k ==> !SameRequest(heads[j], heads[k]);
    }
    forall k | 0 <= k < |heads| {
      ShownSnoc(rows, heads[k], c);
    }
  }

  // The index by request id: exactly the listed rows that have one.
  ghost predicate Indexes(seen: map<string, Call>, calls: seq<Call>) {
    && (forall id | id in seen :: seen[id] in calls && HasId(seen[id]) && seen[id].requestId == Some(id))
    && (forall c | c in calls && HasId(c) :: c.requestId.value in seen)
  }

  method UniqueCalls(rows: seq<Call>) returns (calls: seq<Call>)
    ensures calls == Unique(rows)
  {
    hide Unique, Heads, Shown;
    calls := [];
    var seen: map<string, Call> := map[];
    NothingToShow();
    for i := 0 to |rows|
      invariant calls == Unique(rows[..i])
      invariant Indexes(seen, calls)
    {
      var c := rows[i];
      assert rows[..i + 1] == rows[..i] + [c];
      if HasId(c) && c.requestId.value in seen {
        var existing := seen[c.requestId.value];
        var j := IndexOf(calls, existing);
        UniqueRepeat(rows[..i], c, j);
        if HasLatency(c) && !HasLatency(existing) {
          Reindexed(seen, calls, j, c);
          calls := calls[j := c];
          seen := seen[c.requestId.value := c];
        }
        continue;
      }
      UnseenIsHead(rows[..i], c, seen);
      UniqueHead(rows[..i], c);
      Listed(seen, calls, c);
      if HasId(c) {
        seen := seen[c.requestId.value := c];
      }
      calls := calls + [c];
    }
    assert rows[..|rows|] == rows;
  }

  lemma NothingToShow()
    ensures Unique([]) == []
  {
  }

  lemma Reindexed(seen: map<string, Call>, calls: seq<Call>, j: nat, c: Call)
    requires Indexes(seen, calls) && j < |calls| && SameRequest(calls[j], c)
    ensures Indexes(seen[c.requestId.value := c], calls[j := c])
  {
    var now := calls[j := c];
    assert now[j] == c;
    forall id | id in seen && Some(id) != c.requestId
      ensures seen[id] in now
    {
      var k :| 0 <= k < |calls| && calls[k] == seen[id];
      assert now[k] == calls[k];
    }
    assert forall d | d in now :: d == c || d in calls;
  }

  lemma Listed(seen: map<string, Call>, calls: seq<Call>, c: Call)
    requires Indexes(seen, calls)
    ensures Indexes(if HasId(c) then seen[c.requestId.value := c] else seen, calls + [c])
  {
    assert forall d | d in calls + [c] :: d == c || d in calls;
  }

  lemma UnseenIsHead(rows: seq<Call>, c: Call, seen: map<string, Call>)
    requires Indexes(seen, Unique(rows))
    requires !HasId(c) || c.requestId.value !in seen
    ensures IsHead(rows, c)
  {
    forall i | 0 <= i < |rows|
      ensures !SameRequest(rows[i], c)
    {
      if SameRequest(rows[i], c) {
        EveryRequestIsListed(rows, i);
        assert false;
      }
    }
  }

  method IndexOf(calls: seq<Call>, c: Call) returns (j: nat)
    requires c in calls
    ensures j < |calls| && calls[j] == c
  {
    j := 0;
    while calls[j] != c
      invariant j < |calls| && c in calls[j..]
      decreases |calls| - j
    {
      j := j + 1;
    }
  }

  lemma EveryRequestIsListed(rows: seq<Call>, i: nat)
    requires i < |rows| && HasId(rows[i])
    ensures exists k :: 0 <= k < |Unique(rows)| && SameRequest(Unique(rows)[k], rows[i])
  {
    HeadsCover(rows, i);
    var k :| 0 <= k < |Heads(rows)| && SameRequest(Heads(rows)[k], rows[i]);
    ShownIsOfRequest(rows, Heads(rows)[k]);
    assert SameRequest(Unique(rows)[k], rows[i]);
  }

  lemma {:induction false} ShownHasLatency(rows: seq<Call>, head: Call, i: nat)
    requires i < |rows| && SameRequest(head, rows[i]) && HasLatency(rows[i])
    ensures HasLatency(Shown(rows, head))
  {
    if i > 0 {
      ShownHasLatency(rows[1..], head, i - 1);
    }
  }

  // Main result: every request is listed exactly once, and with a latency whenever any of its rows
  // has one.
  lemma RequestsAreShownOnce(rows: seq<Call>, i: nat)
    requires i < |rows| && HasId(rows[i])
    ensures exists k: nat ::
              && k < |Unique(rows)| && SameRequest(Unique(rows)[k], rows[i])
              && (forall j: nat | j < |Unique(rows)| && SameRequest(Unique(rows)[j], rows[i]) :: j == k)
              && (HasLatency(rows[i]) ==> HasLatency(Unique(rows)[k]))
  {
    EveryRequestIsListed(rows, i);
    var k: nat :| k < |Unique(rows)| && SameRequest(Unique(rows)[k], rows[i]);
    forall j: nat | j < |Unique(rows)| && SameRequest(Unique(rows)[j], rows[i])
      ensures j == k
    {
      UniqueIsDistinct(rows, j, k);
    }
    if HasLatency(rows[i]) {
      ShownIsOfRequest(rows, Heads(rows)[k]);
      ShownHasLatency(rows, Heads(rows)[k], i);
    }
  }

  lemma UpdateKeepsCount(calls: seq<Call>, j: nat, c: Call, x: Call)
    requires j < |calls| && calls[j] != x && c != x
    ensures multiset(calls[j := c])[x] == multiset(calls)[x]
  {
  }

  // Rows without an id are all listed, as often as they occur.
  lemma {:induction false} AnonymousRowsStay(rows: seq<Call>, x: Call)
    requires !HasId(x)
    ensures multiset(Unique(rows))[x] == multiset(rows)[x]
    decreases |rows|
  {
    hide Unique;
    if rows == [] {
      NothingToShow();
    } else {
      var n := |rows| - 1;
      var before, c := rows[..n], rows[n];
      assert rows == before + [c];
      AnonymousRowsStay(before, x);
      if IsHead(before, c) {
        UniqueHead(before, c);
      } else {
        var i: nat :| i < n && SameRequest(before[i], c);
        EveryRequestIsListed(before, i);
        var j: nat :| j < |Unique(before)| && SameRequest(Unique(before)[j], before[i]);
        UniqueRepeat(before, c, j);
        UpdateKeepsCount(Unique(before), j, c, x);
      }
    }
  }

  // ---------- Which row is shown ----------

  predicate IsSameCall(a: Call, b: Call) {
    a.requestId.Some? && a.requestId.value != "" && a.requestId == b.requestId
  }

  predicate IsTimed(c: Call) {
    c.latency.Some? && c.latency.value != 0
  }

  predicate IsFirst(rows: seq<Call>, i: nat)
    requires i < |rows|
  {
    forall k | 0 <= k < i :: !IsSameCall(rows[k], rows[i])
  }

  // A later row of the request of row i brings a latency.
  predicate Brings(rows: seq<Call>, i: nat, j: nat)
    requires i < |rows| && j < |rows|
  {
    i < j && IsSameCall(rows[i], rows[j]) && IsTimed(rows[j])
  }

  // Row j stands for the request whose first row is i: the first one with a latency, or row i when none
  // has one.
  predicate StandsFor(rows: seq<Call>, i: nat, j: nat) {
    && i < |rows| && j < |rows|
    && if IsTimed(rows[i]) || forall k | 0 <= k < |rows| :: !Brings(rows, i, k) then j == i
       else Brings(rows, i, j) && forall k | 0 <= k < j :: !Brings(rows, i, k)
  }

  ghost predicate AreShown(rows: seq<Call>, calls: seq<Call>, firsts: seq<nat>, shown: seq<nat>) {
    && |calls| == |firsts| == |shown|
    && (forall k | 0 <= k < |firsts| :: firsts[k] < |rows|)
    && (forall k, l | 0 <= k < l < |firsts| :: firsts[k] < firsts[l])
    && (forall i | 0 <= i < |rows| :: i in firsts <==> IsFirst(rows, i))
    && (forall k | 0 <= k < |firsts| :: StandsFor(rows, firsts[k], shown[k]) && calls[k] == rows[shown[k]])
  }

  lemma BringsBefore(rows: seq<Call>, c: Call, i: nat, j: nat)
    requires i < |rows| && j < |rows|
    ensures Brings(rows + [c], i, j) <==> Brings(rows, i, j)
    ensures IsFirst(rows + [c], i) <==> IsFirst(rows, i)
  {
    assert forall k | 0 <= k <= i :: (rows + [c])[k] == rows[k];
  }

  lemma StandsOn(rows: seq<Call>, c: Call, i: nat, j: nat)
    requires StandsFor(rows, i, j)
    ensures StandsFor(rows + [c], i, if SameRequest(rows[i], c) && HasLatency(c) && !HasLatency(rows[j]) then |rows|
                                     else j)
  {
    var more, n := rows + [c], |rows|;
    forall k | 0 <= k < n
      ensures Brings(more, i, k) <==> Brings(rows, i, k)
    {
      BringsBefore(rows, c, i, k);
    }
    assert Brings(more, i, n) <==> SameRequest(rows[i], c) && HasLatency(c);
  }

  lemma OneFirst(rows: seq<Call>, firsts: seq<nat>, k: nat, l: nat, c: Call)
    requires k < l < |firsts| && firsts[k] < firsts[l] < |rows| && IsFirst(rows, firsts[l])
    ensures !(SameRequest(rows[firsts[k]], c) && SameRequest(rows[firsts[l]], c))
  {
  }

  // Main result: the list holds one entry for each request and for each row without an id, in the order
  // of their first rows, and shows the first row with a latency, or the first row when there is none.
  lemma {:induction false} UniqueIsExact(rows: seq<Call>) returns (firsts: seq<nat>, shown: seq<nat>)
    ensures AreShown(rows, Unique(rows), firsts, shown)
    decreases |rows|
  {
    hide Unique, StandsFor, IsFirst;
    if rows == [] {
      NothingToShow();
      firsts, shown := [], [];
    } else {
      var n := |rows| - 1;
      var before, c := rows[..n], rows[n];
      assert rows == before + [c];
      firsts, shown := UniqueIsExact(before);
      if IsHead(before, c) {
        UniqueHead(before, c);
        firsts, shown := NewEntry(before, c, firsts, shown);
      } else {
        firsts, shown := SameEntries(before, c, firsts, shown);
      }
    }
  }

  lemma NewEntry(rows: seq<Call>, c: Call, firsts: seq<nat>, shown: seq<nat>) returns (now: seq<nat>, later: seq<nat>)
    requires AreShown(rows, Unique(rows), firsts, shown) && IsHead(rows, c)
    ensures AreShown(rows + [c], Unique(rows) + [c], now, later)
  {
    hide Unique, Brings;
    var more, n := rows + [c], |rows|;
    now, later := firsts + [n], shown + [n];
    forall i | 0 <= i < n
      ensures IsFirst(more, i) <==> IsFirst(rows, i)
    {
      BringsBefore(rows, c, i, i);
    }
    assert IsFirst(more, n);
    forall k | 0 <= k < |firsts|
      ensures StandsFor(more, firsts[k], shown[k])
    {
      StandsOn(rows, c, firsts[k], shown[k]);
    }
    LastStandsForItself(more);
  }

  lemma LastStandsForItself(rows: seq<Call>)
    requires rows != []
    ensures StandsFor(rows, |rows| - 1, |rows| - 1)
  {
  }

  lemma SameEntries(rows: seq<Call>, c: Call, firsts: seq<nat>, shown: seq<nat>)
      returns (now: seq<nat>, later: seq<nat>)
    requires AreShown(rows, Unique(rows), firsts, shown) && !IsHead(rows, c)
    ensures AreShown(rows + [c], Unique(rows + [c]), now, later)
  {
    hide Unique, AreShown, IsHead;
    var j := EntryOf(rows, c);
    UniqueRepeat(rows, c, j);
    now := firsts;
    later := EntryReplaced(rows, c, Unique(rows), firsts, shown, j);
  }

  lemma EntryOf(rows: seq<Call>, c: Call) returns (j: nat)
    requires !IsHead(rows, c)
    ensures j < |Unique(rows)| && SameRequest(Unique(rows)[j], c)
  {
    hide Unique;
    var i: nat :| i < |rows| && SameRequest(rows[i], c);
    EveryRequestIsListed(rows, i);
    j :| j < |Unique(rows)| && SameRequest(Unique(rows)[j], rows[i]);
  }

  function Replaced(rows: seq<Call>, c: Call, shown: seq<nat>, j: nat): seq<nat>
    requires j < |shown| && shown[j] < |rows|
  {
    if HasLatency(c) && !HasLatency(rows[shown[j]]) then shown[j := |rows|] else shown
  }

  lemma EntryReplaced(rows: seq<Call>, c: Call, calls: seq<Call>, firsts: seq<nat>, shown: seq<nat>, j: nat)
      returns (later: seq<nat>)
    requires AreShown(rows, calls, firsts, shown) && !IsHead(rows, c) && j < |calls| && SameRequest(calls[j], c)
    ensures AreShown(rows + [c], if HasLatency(c) && !HasLatency(calls[j]) then calls[j := c] else calls, firsts, later)
  {
    hide StandsFor, IsFirst, IsHead;
    var more, n := rows + [c], |rows|;
    SameRequestOf(rows, firsts[j], shown[j]);
    later := Replaced(rows, c, shown, j);
    LastIsNoFirst(rows, c);
    forall k | 0 <= k < n
      ensures IsFirst(more, k) <==> IsFirst(rows, k)
    {
      BringsBefore(rows, c, k, k);
    }
    var now := if HasLatency(c) && !HasLatency(calls[j]) then calls[j := c] else calls;
    forall k | 0 <= k < |firsts|
      ensures later[k] < |more| && StandsFor(more, firsts[k], later[k]) && now[k] == more[later[k]]
    {
      OneEntry(rows, c, calls, firsts, shown, j, k);
    }
  }

  lemma OneEntry(rows: seq<Call>, c: Call, calls: seq<Call>, firsts: seq<nat>, shown: seq<nat>, j: nat, k: nat)
    requires AreShown(rows, calls, firsts, shown) && j < |calls| && k < |calls| && SameRequest(calls[j], c)
    requires shown[j] < |rows|
    ensures var (more, later) := (rows + [c], Replaced(rows, c, shown, j));
            && StandsFor(more, firsts[k], later[k])
            && later[k] < |more|
            && more[later[k]] == if k == j && HasLatency(c) && !HasLatency(calls[j]) then c else calls[k]
  {
    hide StandsFor, IsFirst;
    StandsOn(rows, c, firsts[k], shown[k]);
    SameRequestOf(rows, firsts[k], shown[k]);
    SameRequestOf(rows, firsts[j], shown[j]);
    assert firsts[k] in firsts && firsts[j] in firsts;
    if k < j {
      OneFirst(rows, firsts, k, j, c);
    } else if j < k {
      OneFirst(rows, firsts, j, k, c);
    }
  }

  lemma LastIsNoFirst(rows: seq<Call>, c: Call)
    requires !IsHead(rows, c)
    ensures !IsFirst(rows + [c], |rows|)
  {
    var k :| 0 <= k < |rows| && SameRequest(rows[k], c);
    assert (rows + [c])[k] == rows[k];
  }

  lemma SameRequestOf(rows: seq<Call>, i: nat, j: nat)
    requires StandsFor(rows, i, j)
    ensures i < |rows| && j < |rows| && (i == j || SameRequest(rows[i], rows[j]))
  {
  }
}
