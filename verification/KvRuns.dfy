/** Whole runs of the store: any sequence of calls with the servers' own steps anywhere in between. */
module KvRuns {
  import opened ByteStrings
  import opened L = StoreLedger
  import opened KvNode
  import opened KvSystem
  import M = ServerModel
  import History
  import KeyHash
  import Wire

  function Front(ops: seq<Op>): seq<Op>
    requires ops != []
  {
    ops[..|ops| - 1]
  }

  function StateAfter(u: Upkeep, numServers: nat, ops: seq<Op>): (sys: System)
    requires numServers > 0 && OpsOk(ops)
    ensures |sys.nodes| == numServers
  {
    if ops == [] then Open(u, numServers) else Step(u, StateAfter(u, numServers, Front(ops)), ops[|ops| - 1]).0
  }

  /** What the next call returns. */
  function Next(u: Upkeep, numServers: nat, ops: seq<Op>, op: Op): Outcome
    requires numServers > 0 && OpsOk(ops) && OpOk(op)
  {
    Step(u, StateAfter(u, numServers, ops), op).1
  }

  /** Every call of the run returned. */
  predicate AllAnswered(u: Upkeep, numServers: nat, ops: seq<Op>)
    requires numServers > 0 && OpsOk(ops)
  {
    ops == [] || (
      AllAnswered(u, numServers, Front(ops)) && Answered(Next(u, numServers, Front(ops), ops[|ops| - 1]))
    )
  }

  /** Every run of calls that returned keeps the system in step with the ledger, whatever tails were handed out. */
  lemma {:induction false} RunRefines(u: Upkeep, numServers: nat, ops: seq<Op>)
    requires numServers > 0 && OpsOk(ops) && AllAnswered(u, numServers, ops)
    ensures Refines(u, StateAfter(u, numServers, ops), After(ops))
  {
    if ops == [] {
      OpenRefines(u, StateAfter(u, numServers, ops), numServers);
    } else {
      RunRefines(u, numServers, Front(ops));
      StepRefines(u, StateAfter(u, numServers, Front(ops)), After(Front(ops)), ops[|ops| - 1]);
    }
  }

  /** After every such run the next call, if it returns, returns what the ledger returns, whichever path it takes; and
      it returns unless its server has handed its tail out. */
  lemma CallMatchesLedger(u: Upkeep, numServers: nat, ops: seq<Op>, op: Op)
    requires numServers > 0 && OpsOk(ops) && AllAnswered(u, numServers, ops) && OpOk(op)
    ensures var out := Next(u, numServers, ops, op);
            if Answered(out) then out == LedgerStep(After(ops), op).1 && out != Faulted
            else !op.Tick? && Home(StateAfter(u, numServers, ops).nodes, op.key).lent.Some?
  {
    RunRefines(u, numServers, ops);
    StepRefines(u, StateAfter(u, numServers, ops), After(ops), op);
    LedgerNeverFaults(After(ops), op);
  }

  /** A get that returns gives the value last set for its key exactly when that value is no longer than the client, or
      else the server, has on record. */
  lemma GetReturnsLastSetIff(u: Upkeep, numServers: nat, ops: seq<Op>, key: Bytes, stale: Wire.Stale)
    requires numServers > 0 && OpsOk(ops) && AllAnswered(u, numServers, ops) && OpOk(Get(key, stale)) && KeyFits(key)
    ensures var out := Next(u, numServers, ops, Get(key, stale));
            Answered(out) ==>
              match LastSet(ops, key)
              case Some(text) => key in After(ops).vals && (out == Text(text) <==> |text| <= Readable(After(ops), key))
              case None => (out == Text([]) <==> Wire.MissGuard(stale.near, key)) && (|key| >= 3 ==> out == Garbled)
  {
    CallMatchesLedger(u, numServers, ops, Get(key, stale));
    GetIsLastSetIff(ops, key, stale);
  }

  /** And what it gives follows from the calls alone. */
  lemma GetReturnsByCalls(u: Upkeep, numServers: nat, ops: seq<Op>, key: Bytes, stale: Wire.Stale)
    requires numServers > 0 && OpsOk(ops) && AllAnswered(u, numServers, ops) && OpOk(Get(key, stale)) && KeyFits(key)
    ensures var out := Next(u, numServers, ops, Get(key, stale));
            Answered(out) ==> out == History.Returned(ops, key, stale)
  {
    CallMatchesLedger(u, numServers, ops, Get(key, stale));
    History.GetIsByCalls(ops, key, stale);
  }

  /** With no overlong direct overwrite the whole system is a map. */
  lemma SystemIsAMap(u: Upkeep, numServers: nat, ops: seq<Op>, key: Bytes, stale: Wire.Stale)
    requires numServers > 0 && OpsOk(ops) && AllAnswered(u, numServers, ops) && OpOk(Get(key, stale)) && KeyFits(key)
    requires NoOverlongOverwrite(ops) && LastSet(ops, key).Some?
    ensures var out := Next(u, numServers, ops, Get(key, stale));
            Answered(out) ==> out == Text(LastSet(ops, key).value)
  {
    CallMatchesLedger(u, numServers, ops, Get(key, stale));
    StoreIsAMap(ops, key, stale);
  }

  // ---------- The pool over whole runs ----------

  /** No call of the run was handed a pool's tail. */
  predicate TailKept(u: Upkeep, numServers: nat, ops: seq<Op>)
    requires numServers > 0 && OpsOk(ops)
  {
    ops == [] || (
      && TailKept(u, numServers, Front(ops))
      && !HandsOutTail(u, StateAfter(u, numServers, Front(ops)), ops[|ops| - 1])
    )
  }

  /** While no tail has been handed out, every call returns, the one that is handed a tail as well. */
  lemma {:induction false} TailKeptIsAnswered(u: Upkeep, numServers: nat, ops: seq<Op>)
    requires numServers > 0 && OpsOk(ops) && TailKept(u, numServers, ops)
    ensures AllAnswered(u, numServers, ops) && Intact(StateAfter(u, numServers, ops).nodes)
    ensures forall op :: OpOk(op) ==> Answered(Next(u, numServers, ops, op))
  {
    if ops == [] {
      OpenRefines(u, StateAfter(u, numServers, ops), numServers);
    } else {
      TailKeptIsAnswered(u, numServers, Front(ops));
      forall i | 0 <= i < numServers ensures StateAfter(u, numServers, ops).nodes[i].lent.None? {
        LentStays(u, StateAfter(u, numServers, Front(ops)), ops[|ops| - 1], i);
      }
    }
    forall op | OpOk(op) ensures Answered(Next(u, numServers, ops, op)) {
      CallMatchesLedger(u, numServers, ops, op);
    }
  }

  /** With the pool's tail advanced, no run is ever handed the tail, no region is ever lost and free regions are
      clean. */
  lemma {:induction false} RepairedKeepsEveryTail(numServers: nat, ops: seq<Op>)
    requires numServers > 0 && OpsOk(ops)
    ensures TailKept(M.Repaired, numServers, ops)
    ensures forall i :: 0 <= i < numServers ==>
              M.Conserved(StateAfter(M.Repaired, numServers, ops).nodes[i].srv)
              && M.Clean(StateAfter(M.Repaired, numServers, ops).nodes[i].srv)
  {
    if ops != [] {
      RepairedKeepsEveryTail(numServers, Front(ops));
      TailKeptIsAnswered(M.Repaired, numServers, Front(ops));
      RunRefines(M.Repaired, numServers, Front(ops));
      var sys, op := StateAfter(M.Repaired, numServers, Front(ops)), ops[|ops| - 1];
      if op.Set? {
        RepairedKeepsTail(Home(sys.nodes, op.key), M.RndvSetRequest(op.key, |op.text| + 1));
      }
    }
    TailKeptIsAnswered(M.Repaired, numServers, ops);
    RunRefines(M.Repaired, numServers, ops);
    forall i | 0 <= i < numServers ensures M.Conserved(StateAfter(M.Repaired, numServers, ops).nodes[i].srv) {
      M.RepairedConserves(StateAfter(M.Repaired, numServers, ops).nodes[i].srv);
    }
  }

  /** So the repaired system is a map over every sequence of calls without an overlong direct overwrite, with nothing
      asked of the pool, and every call returns. */
  lemma RepairedSystemIsAMap(numServers: nat, ops: seq<Op>, key: Bytes, stale: Wire.Stale)
    requires numServers > 0 && OpsOk(ops) && OpOk(Get(key, stale)) && KeyFits(key) && NoOverlongOverwrite(ops)
    ensures AllAnswered(M.Repaired, numServers, ops)
    ensures var out := Next(M.Repaired, numServers, ops, Get(key, stale));
            match LastSet(ops, key)
            case Some(text) => out == Text(text)
            case None => out == Text([]) <==> Wire.MissGuard(stale.near, key)
  {
    RepairedKeepsEveryTail(numServers, ops);
    TailKeptIsAnswered(M.Repaired, numServers, ops);
    assert Answered(Next(M.Repaired, numServers, ops, Get(key, stale)));
    GetReturnsLastSetIff(M.Repaired, numServers, ops, key, stale);
    if LastSet(ops, key).Some? {
      SystemIsAMap(M.Repaired, numServers, ops, key, stale);
    }
  }

  /** The cached address never names a free or tainted region, nor another key's. */
  lemma CachedRegionIsTheKeys(u: Upkeep, numServers: nat, ops: seq<Op>)
    requires numServers > 0 && OpsOk(ops) && AllAnswered(u, numServers, ops)
    ensures var sys := StateAfter(u, numServers, ops); sys.cache.key != [] ==> CachedApart(sys)
  {
    RunRefines(u, numServers, ops);
    if StateAfter(u, numServers, ops).cache.key != [] {
      CachedRegionIs(u, StateAfter(u, numServers, ops), After(ops));
    }
  }

  /** The cached address names the region of the cached key, which is on no list and is no other key's. */
  ghost predicate CachedApart(sys: System)
    requires sys.nodes != []
  {
    var n := Home(sys.nodes, sys.cache.key);
    && sys.cache.addr.Some? && ViewOf(n, sys.cache.key).Region?
    && ViewOf(n, sys.cache.key).region == sys.cache.addr.value
    && sys.cache.addr.value !in n.srv.main + n.srv.spare + n.srv.tainted
    && forall k :: k != sys.cache.key && ViewOf(n, k).Region? ==> ViewOf(n, k).region != sys.cache.addr.value
  }

  lemma CachedRegionIs(u: Upkeep, sys: System, l: Ledger)
    requires Refines(u, sys, l) && sys.cache.key != []
    ensures CachedApart(sys)
  {
    var n := Home(sys.nodes, sys.cache.key);
    M.Apart(n.srv);
    forall k | k != sys.cache.key && ViewOf(n, k).Region? ensures ViewOf(n, k).region != sys.cache.addr.value {
      RegionsAreApart(u, n, k, sys.cache.key);
    }
  }

  /** The servers hold disjoint sets of keys, and together exactly the keys that were ever set: a key that was set is
      on the server it hashes to and on no other. */
  lemma ServersPartitionTheKeys(u: Upkeep, numServers: nat, ops: seq<Op>, key: Bytes, i: nat)
    requires numServers > 0 && OpsOk(ops) && AllAnswered(u, numServers, ops) && key != [] && i < numServers
    ensures ViewOf(StateAfter(u, numServers, ops).nodes[i], key) != Absent <==>
            LastSet(ops, key).Some? && i == KeyHash.ShardOf(key, numServers)
  {
    RunRefines(u, numServers, ops);
    LedgerIsLastSet(ops, key);
    OnItsShardOnly(u, StateAfter(u, numServers, ops).nodes, After(ops), key, i);
  }

  lemma OnItsShardOnly(u: Upkeep, nodes: seq<Node>, l: Ledger, key: Bytes, i: nat)
    requires StoreRefines(u, nodes, l) && key != [] && i < |nodes|
    ensures ViewOf(nodes[i], key) != Absent <==> key in l.vals && i == KeyHash.ShardOf(key, |nodes|)
  {
    assert Matches(ViewOf(Home(nodes, key), key), l, key);
  }
}
