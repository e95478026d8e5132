/** The pids of the monitor's process tree, closed under children, and the connections observed
    for them. */
module ProcessTree {
  import opened Wrappers

  // pid's ancestor k steps up, where the parent map knows it.
  function Ancestor(parents: map<int, int>, pid: int, k: nat): Option<int>
    decreases k
  {
    if k == 0 then Some(pid)
    else if pid in parents then Ancestor(parents, parents[pid], k - 1)
    else None
  }

  // A root, or a transitive child of one. Parent maps may have cycles.
  ghost predicate InTree(parents: map<int, int>, roots: set<int>, pid: int) {
    exists k: nat :: Ancestor(parents, pid, k).Some? && Ancestor(parents, pid, k).value in roots
  }

  lemma ChildInTree(parents: map<int, int>, roots: set<int>, pid: int)
    requires pid in parents && InTree(parents, roots, parents[pid])
    ensures InTree(parents, roots, pid)
  {
    var k: nat :| Ancestor(parents, parents[pid], k).Some? && Ancestor(parents, parents[pid], k).value in roots;
    assert Ancestor(parents, pid, k + 1) == Ancestor(parents, parents[pid], k);
  }

  // A set that contains the roots and the children of its members contains the whole tree.
  lemma {:induction false} ClosedSetHasTree(parents: map<int, int>, roots: set<int>, closed: set<int>, pid: int, k: nat)
    requires roots <= closed
    requires forall p | p in parents && parents[p] in closed :: p in closed
    requires Ancestor(parents, pid, k).Some? && Ancestor(parents, pid, k).value in roots
    ensures pid in closed
    decreases k
  {
    if k > 0 {
      ClosedSetHasTree(parents, roots, closed, parents[pid], k - 1);
    }
  }

  // The nested loops: each round looks at every entry of the parent map, in any order, and adds the
  // children of the last round's additions. Every round but the last adds a key of the map.
  method CollectPids(roots: set<int>, entries: seq<int>, parents: map<int, int>) returns (pids: set<int>)
    requires forall p :: p in entries <==> p in parents
    ensures forall p :: p in pids <==> InTree(parents, roots, p)
  {
    pids := roots;
    var frontier := roots;
    RootsAreInTree(parents, roots);
    while frontier != {}
      invariant roots <= pids && frontier <= pids
      invariant forall p | p in pids :: InTree(parents, roots, p)
      invariant forall p | p in parents && parents[p] in pids && parents[p] !in frontier :: p in pids
      decreases parents.Keys - pids, frontier
    {
      var next: set<int> := {};
      ghost var before := pids;
      for i := 0 to |entries|
        invariant before <= pids && pids == before + next && next !! before && next <= parents.Keys
        invariant forall p | p in pids :: InTree(parents, roots, p)
        invariant forall j | 0 <= j < i && entries[j] in parents && parents[entries[j]] in frontier ::
                    entries[j] in pids
      {
        var pid := entries[i];
        assert pid in parents;
        if parents[pid] in frontier && pid !in pids {
          ChildInTree(parents, roots, pid);
          pids := pids + {pid};
          next := next + {pid};
        }
      }
      forall p | p in parents && parents[p] in pids && parents[p] !in next
        ensures p in pids
      {
        if parents[p] in frontier {
          var j :| 0 <= j < |entries| && entries[j] == p;
          assert entries[j] in pids;
        }
      }
      if next != {} {
        var p := AnyOf(next);
        assert p in parents.Keys - before && p !in parents.Keys - pids;
      }
      frontier := next;
    }
    forall p
      ensures p in pids <==> InTree(parents, roots, p)
    {
      if InTree(parents, roots, p) {
        var k: nat :| Ancestor(parents, p, k).Some? && Ancestor(parents, p, k).value in roots;
        ClosedSetHasTree(parents, roots, pids, p, k);
      }
    }
  }

  lemma RootsAreInTree(parents: map<int, int>, roots: set<int>)
    ensures forall p | p in roots :: InTree(parents, roots, p)
  {
    forall p | p in roots ensures InTree(parents, roots, p) {
      assert Ancestor(parents, p, 0) == Some(p);
    }
  }

  // ---------- Observed connections ----------

  datatype Connection = Connection(pid: int, host: string, port: Option<int>, family: string)

  function Elements(s: seq<Connection>): set<Connection> {
    set c | c in s
  }

  // The observations of `more` that are not in `known`, each once, in order.
  function Unseen(known: set<Connection>, more: seq<Connection>): seq<Connection>
    decreases |more|
  {
    if more == [] then []
    else if more[0] in known then Unseen(known, more[1..])
    else [more[0]] + Unseen(known + {more[0]}, more[1..])
  }

  // One polling cycle of the watcher appends what it has not recorded before.
  method RecordCycle(log: seq<Connection>, observed: seq<Connection>) returns (longer: seq<Connection>)
    ensures longer == log + Unseen(Elements(log), observed)
  {
    var seen := Elements(log);
    longer := log;
    for i := 0 to |observed|
      invariant log + Unseen(Elements(log), observed) == longer + Unseen(seen, observed[i..])
    {
      assert observed[i..][1..] == observed[i + 1..];
      if observed[i] !in seen {
        assert longer + ([observed[i]] + Unseen(seen + {observed[i]}, observed[i + 1..]))
            == (longer + [observed[i]]) + Unseen(seen + {observed[i]}, observed[i + 1..]);
        longer := longer + [observed[i]];
        seen := seen + {observed[i]};
      }
    }
  }

  predicate NoRepeats(s: seq<Connection>) {
    forall i, j | 0 <= i < j < |s| :: s[i] != s[j]
  }

  // Nothing is recorded twice, nothing observed is missed and nothing is invented.
  lemma {:induction false} UnseenIsExact(known: set<Connection>, more: seq<Connection>)
    ensures NoRepeats(Unseen(known, more))
    ensures forall c :: c in Unseen(known, more) <==> c in more && c !in known
    decreases |more|
  {
    if more != [] {
      var c := more[0];
      UnseenIsExact(if c in known then known else known + {c}, more[1..]);
      assert more == [c] + more[1..];
    }
  }

  function RecordAll(log: seq<Connection>, cycles: seq<seq<Connection>>): seq<Connection> {
    if cycles == [] then log
    else
      var before := RecordAll(log, cycles[..|cycles| - 1]);
      before + Unseen(Elements(before), cycles[|cycles| - 1])
  }

  // Over any number of cycles the log stays free of repeats and holds exactly what was observed.
  lemma {:induction false} LogIsTheSetOfObservations(cycles: seq<seq<Connection>>)
    ensures NoRepeats(RecordAll([], cycles))
    ensures forall c :: c in RecordAll([], cycles) <==> exists i :: 0 <= i < |cycles| && c in cycles[i]
    decreases |cycles|
  {
    if cycles != [] {
      var n := |cycles| - 1;
      LogIsTheSetOfObservations(cycles[..n]);
      var before := RecordAll([], cycles[..n]);
      var added := Unseen(Elements(before), cycles[n]);
      UnseenIsExact(Elements(before), cycles[n]);
      forall j | 0 <= j < |added| ensures added[j] !in before {
        assert added[j] in added && added[j] !in Elements(before);
      }
      var all := RecordAll([], cycles);
      forall c
        ensures c in all <==> exists i :: 0 <= i < |cycles| && c in cycles[i]
      {
        if c in before {
          var i :| 0 <= i < n && c in cycles[..n][i];
          assert c in cycles[i];
        }
        if exists i :: 0 <= i < |cycles| && c in cycles[i] {
          var i :| 0 <= i < |cycles| && c in cycles[i];
          if i < n {
            assert c in cycles[..n][i];
          }
        }
      }
    }
  }
}
