/** One server over a whole run: the packets that calls send it, and what it becomes when each packet is handled and
    followed by upkeep. However late a server that has kept its tail is in a run, this is where it stands once it has
    caught up. */
module ServerRuns {
  import opened ByteStrings
  import opened ServerModel
  import opened L = StoreLedger
  import opened KvNode
  import opened KvSystem
  import opened KvRuns
  import History
  import KeyHash
  import Wire

  /** A packet that finds its region, and the upkeep after it. */
  function NextServer(u: Upkeep, s: Server, p: Packet): Server {
    if Ready(s, p) then MaintainPool(u, Handle(s, p).0) else s
  }

  function ServerAfter(u: Upkeep, ps: seq<Packet>): Server {
    if ps == [] then MaintainPool(u, Empty) else NextServer(u, ServerAfter(u, ps[..|ps| - 1]), ps[|ps| - 1])
  }

  /** No packet was handed the pool's tail. */
  predicate TailKeptBy(u: Upkeep, ps: seq<Packet>) {
    ps == [] || (
      && TailKeptBy(u, ps[..|ps| - 1]) && PacketOk(ps[|ps| - 1])
      && LeavesTail(ServerAfter(u, ps[..|ps| - 1]), ps[|ps| - 1])
    )
  }

  ghost predicate Settled(u: Upkeep, s: Server) {
    Inv(u, s) && s.main != [] && s.tainted == [] && s.size >= MIN_POOL_NODES
  }

  lemma UpkeepSettles(u: Upkeep, s: Server)
    requires Inv(u, s) && s.main != []
    ensures Settled(u, MaintainPool(u, s))
  {
    MaintainPoolKeepsInv(u, s);
    SpliceAllShape(u, s);
  }

  lemma NextIsSettled(u: Upkeep, s: Server, p: Packet)
    requires Settled(u, s) && PacketOk(p) && LeavesTail(s, p)
    ensures Ready(s, p) && Inv(u, Handle(s, p).0) && Handle(s, p).0.main != [] && Settled(u, NextServer(u, s, p))
  {
    TailFreeIsReady(u, s, p);
    HandleKeepsSound(u, s, p);
    UpkeepSettles(u, Handle(s, p).0);
  }

  lemma {:induction false} RunIsSettled(u: Upkeep, ps: seq<Packet>)
    requires TailKeptBy(u, ps)
    ensures Settled(u, ServerAfter(u, ps))
  {
    if ps == [] {
      EmptyIsInv(u);
      MaintainPoolKeepsInv(u, Empty);
    } else {
      RunIsSettled(u, ps[..|ps| - 1]);
      NextIsSettled(u, ServerAfter(u, ps[..|ps| - 1]), ps[|ps| - 1]);
    }
  }

  // ---------- All but the regions' bytes ----------

  predicate SameShape(s: Server, t: Server) {
    s.(mem := []) == t.(mem := []) && |s.mem| == |t.mem|
  }

  lemma HandleShape(s: Server, t: Server, p: Packet)
    requires SameShape(s, t) && Ready(s, p)
    ensures Ready(t, p) && SameShape(Handle(s, p).0, Handle(t, p).0)
  {
    assert s.entries == t.entries && s.main == t.main && s.spare == t.spare;
    assert s.size == t.size && s.tainted == t.tainted;
  }

  lemma {:induction false} SpliceShape(u: Upkeep, s: Server, t: Server)
    requires SameShape(s, t)
    ensures SameShape(SpliceAll(u, s), SpliceAll(u, t))
    decreases |s.tainted|
  {
    assert s.main == t.main && s.tainted == t.tainted && s.size == t.size;
    if s.tainted != [] {
      SpliceShape(u, Splice(u, s), Splice(u, t));
    }
  }

  lemma {:induction false} FillShapes(s: Server, t: Server)
    requires SameShape(s, t)
    ensures SameShape(Fill(s), Fill(t))
    decreases MIN_POOL_NODES - s.size
  {
    assert s.main == t.main && s.size == t.size;
    if s.size < MIN_POOL_NODES {
      FillShapes(Grow(s), Grow(t));
    }
  }

  lemma UpkeepShape(u: Upkeep, s: Server, t: Server)
    requires SameShape(s, t)
    ensures SameShape(MaintainPool(u, s), MaintainPool(u, t)) && SameShape(LentUpkeep(s), LentUpkeep(t))
  {
    assert s.tainted == t.tainted && s.size == t.size;
    SpliceShape(u, s, t);
    FillShapes(SpliceAll(u, s), SpliceAll(u, t));
  }

  lemma NextShape(u: Upkeep, s: Server, t: Server, p: Packet)
    requires SameShape(s, t)
    ensures SameShape(NextServer(u, s, p), NextServer(u, t, p))
  {
    if Ready(s, p) {
      HandleShape(s, t, p);
      UpkeepShape(u, Handle(s, p).0, Handle(t, p).0);
    } else if Ready(t, p) {
      HandleShape(t, s, p);
    }
  }

  // ---------- A server that has caught up ----------

  /** A packet at a server that has caught up, and the upkeep after it, if that ends. */
  function NextNode(u: Upkeep, c: Node, p: Packet): Node
    requires Ready(c.srv, p)
  {
    KvNode.Tick(u, Respond(c, p).0)
  }

  lemma TickCatchesUp(u: Upkeep, n: Node)
    ensures Settle(u, KvNode.Tick(u, n)) == Settle(u, n)
  {
  }

  lemma PostCatchesUp(u: Upkeep, n: Node, key: Bytes, text: Bytes)
    requires CanPost(u, n)
    ensures var c, c' := Settle(u, n), Settle(u, PostEagerSet(u, n, key, text));
            c' == if Idle(c) then NextNode(u, c, EagerSetRequest(key, text)) else c.(inbox := Unhandled(key, text))
  {
  }

  lemma RequestCatchesUp(u: Upkeep, n: Node, p: Packet)
    requires CanRequest(u, n, p)
    ensures Settle(u, Request(u, n, p).0) == NextNode(u, Settle(u, n), p)
  {
  }

  /** Two nodes that differ in the bytes of regions only. */
  predicate SameNode(n: Node, m: Node) {
    SameShape(n.srv, m.srv) && n.inbox == m.inbox && n.due == m.due && n.lent == m.lent
  }

  lemma TickShape(u: Upkeep, n: Node, m: Node)
    requires SameNode(n, m)
    ensures SameNode(KvNode.Tick(u, n), KvNode.Tick(u, m))
  {
    assert n.srv.tainted == m.srv.tainted;
    if n.due {
      UpkeepShape(u, n.srv, m.srv);
    } else if n.inbox.Unhandled? {
      HandleShape(n.srv, m.srv, EagerSetRequest(n.inbox.key, n.inbox.text));
    }
  }

  lemma SettleShape(u: Upkeep, n: Node, m: Node)
    requires SameNode(n, m)
    ensures SameNode(Settle(u, n), Settle(u, m))
  {
    TickShape(u, n, m);
    TickShape(u, KvNode.Tick(u, n), KvNode.Tick(u, m));
    TickShape(u, KvNode.Tick(u, KvNode.Tick(u, n)), KvNode.Tick(u, KvNode.Tick(u, m)));
  }

  lemma WriteCatchesUp(u: Upkeep, n: Node, addr: Option<nat>, bytes: Bytes)
    requires DirectWrite(n, addr, bytes).Some?
    ensures SameNode(Settle(u, DirectWrite(n, addr, bytes).value), Settle(u, n))
  {
    SettleShape(u, DirectWrite(n, addr, bytes).value, n);
  }

  // ---------- The packets of a run of calls ----------

  /** What a call sends to the key's server: nothing when the cached address serves it. */
  function PacketsOf(l: Ledger, op: Op): seq<Packet> {
    match op
    case Set(key, text) =>
      if FitsEager(key, text) then [EagerSetRequest(key, text)]
      else if key == l.hot then [] else [RndvSetRequest(key, |text| + 1)]
    case Get(key, _) => if !KeyFits(key) || key == l.hot then [] else [EagerGetRequest(key)]
    case Tick(_) => []
  }

  /** The packet that a call sends after these calls, if it sends one. */
  ghost function SentAfter(ops: seq<Op>, op: Op): seq<Packet> {
    match op
    case Set(key, text) =>
      if FitsEager(key, text) then [EagerSetRequest(key, text)]
      else if History.Cached(ops, key) then []
      else [RndvSetRequest(key, |text| + 1)]
    case Get(key, _) => if |key| > 4063 || History.Cached(ops, key) then [] else [EagerGetRequest(key)]
    case Tick(_) => []
  }

  /** It follows from the calls alone. */
  lemma PacketsByCalls(ops: seq<Op>, op: Op)
    requires OpsOk(ops) && OpOk(op)
    ensures PacketsOf(After(ops), op) == SentAfter(ops, op)
  {
    if !op.Tick? {
      History.LedgerIsByCalls(ops, op.key);
    }
  }

  function PacketsHere(numServers: nat, l: Ledger, op: Op, i: nat): seq<Packet>
    requires numServers > 0
  {
    if !op.Tick? && KeyHash.ShardOf(op.key, numServers) == i then PacketsOf(l, op) else []
  }

  /** All packets that a run of calls sends to server `i`. */
  function PacketsTo(numServers: nat, ops: seq<Op>, i: nat): seq<Packet>
    requires numServers > 0 && OpsOk(ops)
  {
    if ops == [] then []
    else PacketsTo(numServers, Front(ops), i) + PacketsHere(numServers, After(Front(ops)), ops[|ops| - 1], i)
  }

  /** What a call that returned has made of its server, from `c` to `c'`, both as caught up as they can be: the call's
      packet was served; or, upkeep never ending, an eager set was delivered and lies unhandled. */
  predicate Served(u: Upkeep, c: Node, c': Node, qs: seq<Packet>) {
    if qs == [] then SameNode(c', c)
    else if Idle(c) then Ready(c.srv, qs[0]) && SameNode(c', NextNode(u, c, qs[0]))
    else c.inbox == Nothing && qs[0].EagerSetRequest? && c' == c.(inbox := Unhandled(qs[0].key, qs[0].text))
  }

  lemma WriteServes(u: Upkeep, sys: System, key: Bytes, text: Bytes)
    requires sys.nodes != []
    ensures SameNode(Settle(u, Home(Write(sys, KeyHash.ShardOf(key, |sys.nodes|), text).0.nodes, key)),
                     Settle(u, Home(sys.nodes, key)))
  {
    var n := Home(sys.nodes, key);
    if DirectWrite(n, sys.cache.addr, text + [0]).Some? {
      WriteCatchesUp(u, n, sys.cache.addr, text + [0]);
    }
  }

  lemma LargeSetServes(u: Upkeep, sys: System, key: Bytes, text: Bytes)
    requires sys.nodes != [] && !FitsEager(key, text) && key != sys.cache.key
    requires CanRequest(u, Home(sys.nodes, key), RndvSetRequest(key, |text| + 1))
    ensures SameNode(Settle(u, Home(KvSet(u, sys, KeyHash.ShardOf(key, |sys.nodes|), key, text).0.nodes, key)),
                     NextNode(u, Settle(u, Home(sys.nodes, key)), RndvSetRequest(key, |text| + 1)))
  {
    var n, p, i := Home(sys.nodes, key), RndvSetRequest(key, |text| + 1), KeyHash.ShardOf(key, |sys.nodes|);
    RequestCatchesUp(u, n, p);
    var (n', reply) := Request(u, n, p);
    WriteServes(u, System(Cache(key, |text|, Some(reply.region)), sys.nodes[i := n']), key, text);
  }

  lemma SetServes(u: Upkeep, sys: System, l: Ledger, key: Bytes, text: Bytes)
    requires sys.nodes != [] && sys.cache.key == l.hot && OpOk(Set(key, text))
    requires Answered(Step(u, sys, Set(key, text)).1)
    ensures Served(u, Settle(u, Home(sys.nodes, key)), Settle(u, Home(Step(u, sys, Set(key, text)).0.nodes, key)),
                   PacketsOf(l, Set(key, text)))
  {
    var n := Home(sys.nodes, key);
    if FitsEager(key, text) {
      PostCatchesUp(u, n, key, text);
    } else if key == l.hot {
      WriteServes(u, sys.(cache := sys.cache.(len := |text|)), key, text);
    } else {
      LargeSetServes(u, sys, key, text);
    }
  }

  lemma AskServes(u: Upkeep, sys: System, key: Bytes, stale: Wire.Stale)
    requires sys.nodes != [] && NulFree(key) && Wire.BufferSized(stale) && KeyFits(key) && key != sys.cache.key
    requires CanRequest(u, Home(sys.nodes, key), EagerGetRequest(key))
    ensures Settle(u, Home(KvGet(u, sys, KeyHash.ShardOf(key, |sys.nodes|), key, stale).0.nodes, key)) ==
            NextNode(u, Settle(u, Home(sys.nodes, key)), EagerGetRequest(key))
  {
    var n, p, i := Home(sys.nodes, key), EagerGetRequest(key), KeyHash.ShardOf(key, |sys.nodes|);
    RequestCatchesUp(u, n, p);
    var (n', reply) := Request(u, n, p);
    assert TakeReply(sys.(nodes := sys.nodes[i := n']), i, reply, key, stale).0.nodes == sys.nodes[i := n'];
  }

  lemma GetServes(u: Upkeep, sys: System, l: Ledger, key: Bytes, stale: Wire.Stale)
    requires sys.nodes != [] && sys.cache.key == l.hot && OpOk(Get(key, stale))
    requires Answered(Step(u, sys, Get(key, stale)).1)
    ensures Served(u, Settle(u, Home(sys.nodes, key)), Settle(u, Home(Step(u, sys, Get(key, stale)).0.nodes, key)),
                   PacketsOf(l, Get(key, stale)))
  {
    if KeyFits(key) && key != l.hot {
      AskServes(u, sys, key, stale);
    }
  }

  lemma OtherServersStay(u: Upkeep, sys: System, op: Op, i: nat)
    requires sys.nodes != [] && OpOk(op) && !op.Tick? && i < |sys.nodes| && KeyHash.ShardOf(op.key, |sys.nodes|) != i
    ensures Step(u, sys, op).0.nodes[i] == sys.nodes[i]
  {
  }

  lemma StepTick(u: Upkeep, sys: System, j: nat, i: nat)
    requires sys.nodes != [] && i < |sys.nodes|
    ensures Settle(u, Step(u, sys, Tick(j)).0.nodes[i]) == Settle(u, sys.nodes[i])
  {
    if i == j {
      TickCatchesUp(u, sys.nodes[i]);
    }
  }

  lemma NothingServed(u: Upkeep, c: Node)
    ensures Served(u, c, c, [])
  {
  }

  /** What a call that returned has made of each server follows from the packet it sent there. */
  lemma StepServes(u: Upkeep, sys: System, l: Ledger, op: Op, i: nat)
    requires sys.nodes != [] && sys.cache.key == l.hot && OpOk(op) && i < |sys.nodes| && Answered(Step(u, sys, op).1)
    ensures Served(u, Settle(u, sys.nodes[i]), Settle(u, Step(u, sys, op).0.nodes[i]),
                   PacketsHere(|sys.nodes|, l, op, i))
  {
    if op.Tick? {
      StepTick(u, sys, op.server, i);
      NothingServed(u, Settle(u, sys.nodes[i]));
    } else if KeyHash.ShardOf(op.key, |sys.nodes|) != i {
      OtherServersStay(u, sys, op, i);
      NothingServed(u, Settle(u, sys.nodes[i]));
    } else {
      HomeServes(u, sys, l, op);
      AtItsHome(sys.nodes, Step(u, sys, op).0.nodes, op.key, i);
    }
  }

  lemma AtItsHome(nodes: seq<Node>, nodes': seq<Node>, key: Bytes, i: nat)
    requires nodes != [] && |nodes'| == |nodes| && i == KeyHash.ShardOf(key, |nodes|)
    ensures Home(nodes, key) == nodes[i] && Home(nodes', key) == nodes'[i]
  {
  }

  lemma HomeServes(u: Upkeep, sys: System, l: Ledger, op: Op)
    requires sys.nodes != [] && sys.cache.key == l.hot && OpOk(op) && !op.Tick? && Answered(Step(u, sys, op).1)
    ensures Served(u, Settle(u, Home(sys.nodes, op.key)), Settle(u, Home(Step(u, sys, op).0.nodes, op.key)),
                   PacketsOf(l, op))
  {
    if op.Set? {
      SetServes(u, sys, l, op.key, op.text);
    } else {
      GetServes(u, sys, l, op.key, op.stale);
    }
  }

  /** Server `i` after a run, as caught up as it can be. */
  function AtRest(u: Upkeep, numServers: nat, ops: seq<Op>, i: nat): Node
    requires numServers > 0 && OpsOk(ops) && i < numServers
  {
    Settle(u, StateAfter(u, numServers, ops).nodes[i])
  }

  /** The same over a run of calls that returned. */
  lemma RestServes(u: Upkeep, numServers: nat, ops: seq<Op>, i: nat)
    requires numServers > 0 && OpsOk(ops) && AllAnswered(u, numServers, ops) && ops != [] && i < numServers
    ensures Served(u, AtRest(u, numServers, Front(ops), i), AtRest(u, numServers, ops, i),
                   PacketsHere(numServers, After(Front(ops)), ops[|ops| - 1], i))
  {
    RunRefines(u, numServers, Front(ops));
    StepServes(u, StateAfter(u, numServers, Front(ops)), After(Front(ops)), ops[|ops| - 1], i);
  }

  lemma RestIsOk(u: Upkeep, numServers: nat, ops: seq<Op>, i: nat)
    requires numServers > 0 && OpsOk(ops) && AllAnswered(u, numServers, ops) && i < numServers
    ensures var n, c := StateAfter(u, numServers, ops).nodes[i], AtRest(u, numServers, ops, i);
            NodeInv(u, n) && NodeInv(u, c) && c.lent == n.lent && (n.lent.None? ==> Idle(c))
  {
    RunRefines(u, numServers, ops);
    SettleOk(u, StateAfter(u, numServers, ops).nodes[i], []);
  }

  // ---------- Servers that have kept their tails ----------

  /** Every call of the run returned, and server `i` has not handed its tail out. Other servers may have. */
  predicate Keeps(u: Upkeep, numServers: nat, ops: seq<Op>, i: nat)
    requires numServers > 0 && OpsOk(ops) && i < numServers
  {
    AllAnswered(u, numServers, ops) && StateAfter(u, numServers, ops).nodes[i].lent.None?
  }

  lemma KeptBefore(u: Upkeep, numServers: nat, ops: seq<Op>, i: nat)
    requires numServers > 0 && OpsOk(ops) && i < numServers && ops != [] && Keeps(u, numServers, ops, i)
    ensures Keeps(u, numServers, Front(ops), i)
  {
    LentStays(u, StateAfter(u, numServers, Front(ops)), ops[|ops| - 1], i);
  }

  /** The packet, if there is one, is handed the tail. */
  predicate SomeTakesTail(s: Server, ps: seq<Packet>) {
    ps != [] && !LeavesTail(s, ps[0])
  }

  lemma TailShape(s: Server, t: Server, ps: seq<Packet>)
    requires SameShape(s, t)
    ensures SomeTakesTail(s, ps) == SomeTakesTail(t, ps)
  {
    assert s.entries == t.entries && s.main == t.main;
  }

  lemma KeptWithOneMore(u: Upkeep, ps: seq<Packet>, p: Packet)
    requires TailKeptBy(u, ps) && PacketOk(p) && LeavesTail(ServerAfter(u, ps), p)
    ensures TailKeptBy(u, ps + [p])
  {
    assert (ps + [p])[..|ps|] == ps;
  }

  /** The packet that a server was served while it kept its tail. */
  lemma ServedKeeps(u: Upkeep, c: Node, c': Node, s: Server, p: Packet)
    requires NodeInv(u, c) && Idle(c) && c.lent.None? && SameShape(c.srv, s) && PacketOk(p)
    requires Served(u, c, c', [p]) && c'.lent.None?
    ensures LeavesTail(s, p) && SameShape(c'.srv, NextServer(u, s, p))
  {
    RespondKeepsInv(u, c, p);
    TickKeepsInv(u, Respond(c, p).0);
    TailShape(c.srv, s, [p]);
    NextShape(u, c.srv, s, p);
    assert NextNode(u, c, p).srv == NextServer(u, c.srv, p);
  }

  /** On a server that has kept its tail, the packets, the last one too, were not handed it, and lead to where it is. */
  ghost predicate KeptBy(u: Upkeep, ps: seq<Packet>, c: Node) {
    TailKeptBy(u, ps) && NodeInv(u, c) && Idle(c) && c.lent.None? && SameShape(c.srv, ServerAfter(u, ps))
  }

  lemma CallKeeps(u: Upkeep, numServers: nat, l: Ledger, op: Op, i: nat, ps: seq<Packet>, c: Node, c': Node)
    requires numServers > 0 && OpOk(op) && KeptBy(u, ps, c) && NodeInv(u, c') && Idle(c') && c'.lent.None?
    requires Served(u, c, c', PacketsHere(numServers, l, op, i))
    ensures KeptBy(u, ps + PacketsHere(numServers, l, op, i), c')
  {
    var qs := PacketsHere(numServers, l, op, i);
    if qs == [] {
      assert ps + qs == ps;
    } else {
      assert qs == [qs[0]];
      ServedKeeps(u, c, c', ServerAfter(u, ps), qs[0]);
      KeptWithOneMore(u, ps, qs[0]);
      assert (ps + qs)[..|ps|] == ps;
    }
  }

  lemma StartKept(u: Upkeep, numServers: nat, i: nat)
    requires numServers > 0 && i < numServers
    ensures KeptBy(u, [], AtRest(u, numServers, [], i))
  {
    NewNodeOk(u, NewNode(u));
    assert Settle(u, NewNode(u)) == NewNode(u);
  }

  /** After any run, a server that has kept its tail is, once it has caught up, what its packets make of it; and none of
      them was handed the tail. */
  lemma {:induction false} RunServes(u: Upkeep, numServers: nat, ops: seq<Op>, i: nat)
    requires numServers > 0 && OpsOk(ops) && i < numServers && Keeps(u, numServers, ops, i)
    ensures KeptBy(u, PacketsTo(numServers, ops, i), AtRest(u, numServers, ops, i))
  {
    RestIsOk(u, numServers, ops, i);
    if ops == [] {
      StartKept(u, numServers, i);
    } else {
      KeptBefore(u, numServers, ops, i);
      RunServes(u, numServers, Front(ops), i);
      RestServes(u, numServers, ops, i);
      CallKeeps(u, numServers, After(Front(ops)), ops[|ops| - 1], i, PacketsTo(numServers, Front(ops), i),
                AtRest(u, numServers, Front(ops), i), AtRest(u, numServers, ops, i));
    }
  }

  lemma HandsOutAt(u: Upkeep, sys: System, l: Ledger, op: Op)
    requires sys.nodes != [] && sys.cache.key == l.hot && OpOk(op) && !op.Tick? && Home(sys.nodes, op.key).lent.None?
    ensures HandsOutTail(u, sys, op) <==> SomeTakesTail(Settle(u, Home(sys.nodes, op.key)).srv, PacketsOf(l, op))
  {
  }

  lemma CacheIsHot(u: Upkeep, numServers: nat, ops: seq<Op>)
    requires numServers > 0 && OpsOk(ops) && AllAnswered(u, numServers, ops)
    ensures StateAfter(u, numServers, ops).cache.key == After(ops).hot
  {
    RunRefines(u, numServers, ops);
  }

  /** A call is handed the tail exactly when its packet is. */
  lemma HandsOutIff(u: Upkeep, numServers: nat, ops: seq<Op>, op: Op)
    requires numServers > 0 && OpsOk(ops) && OpOk(op) && !op.Tick?
    requires Keeps(u, numServers, ops, KeyHash.ShardOf(op.key, numServers))
    ensures var i := KeyHash.ShardOf(op.key, numServers);
            HandsOutTail(u, StateAfter(u, numServers, ops), op) <==>
            SomeTakesTail(ServerAfter(u, PacketsTo(numServers, ops, i)), PacketsOf(After(ops), op))
  {
    var i := KeyHash.ShardOf(op.key, numServers);
    CacheIsHot(u, numServers, ops);
    HandsOutAt(u, StateAfter(u, numServers, ops), After(ops), op);
    RunServes(u, numServers, ops, i);
    TailShape(AtRest(u, numServers, ops, i).srv, ServerAfter(u, PacketsTo(numServers, ops, i)),
              PacketsOf(After(ops), op));
  }
}
