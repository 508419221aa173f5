/** Which calls of a run return, as the source is written: whether a server comes to a packet, and whether it survives
    it, follows from the packets that calls have sent it. */
module CallFates {
  import opened ByteStrings
  import opened L = StoreLedger
  import opened KvNode
  import opened KvSystem
  import opened KvRuns
  import opened ServerRuns
  import opened PoolLinks
  import opened PoolFate
  import opened ServerLinks
  import opened PoolWear
  import opened RunFates
  import M = ServerModel
  import KeyHash
  import Wire

  /** As written, a server that has caught up, `c`, and its links, `line`: while it has its tail the links stand for its
      lists, and afterwards they lead from the region that was lent along a path to the tail pointer. */
  ghost predicate StandsAt(line: Line, c: Node) {
    && NodeInv(M.AsWritten, c) && line.pool.size == c.srv.size && |line.pool.next| == |c.srv.mem|
    && match c.lent
       case None => StandsTidily(line, c.srv)
       case Some(t) => exists key, path :: LentOn(line, key, path, t, c.srv.entries, First(c.srv.spare))
  }

  /** A server as caught up as it can be, and its fate after these packets. One that hangs may still have been delivered
      one eager set since. */
  ghost predicate Follows(ps: seq<M.Packet>, c: Node) {
    match FateAfter(ps)
    case Up(line) => Idle(c) && StandsAt(line, c)
    case Hung => ps != [] && Stuck(c) && (c.inbox == Nothing <==> FateAfter(ps[..|ps| - 1]).Up?)
    case NullHead => false
  }

  /** The next packet, while the server has its tail and keeps it. */
  lemma KeepsAtNext(line: Line, c: Node, p: M.Packet)
    requires StandsAt(line, c) && Idle(c) && M.PacketOk(p) && c.lent.None? && M.LeavesTail(c.srv, p)
    ensures LineOk(line) && M.Ready(c.srv, p) && PoolFate.Next(line, p).Up?
    ensures Idle(NextNode(M.AsWritten, c, p)) && StandsAt(PoolFate.Next(line, p).line, NextNode(M.AsWritten, c, p))
  {
    NextStands(line, c.srv, p);
    NextIsSettled(M.AsWritten, c.srv, p);
    RespondKeepsInv(M.AsWritten, c, p);
    TickKeepsInv(M.AsWritten, Respond(c, p).0);
  }

  /** The links and the server have the same regions tainted, none of them where the tail pointer is, and count and
      register the same. */
  ghost predicate TaintedAlike(k: Pool, s: M.Server) {
    && Closed(k) && Chain(k.next, s.tainted, None) && M.NoRepeat(s.tainted) && k.first == First(s.tainted)
    && (k.tail.Some? ==> k.tail.value !in s.tainted) && k.size == s.size && |k.next| == |s.mem|
  }

  lemma AlikeAfterUpkeep(line: Line, s: M.Server)
    requires LineOk(line) && TaintedAlike(line.pool, s)
    ensures var f, s' := UpkeepFate(line), M.LentUpkeep(s);
            f.Up? && f.line.pool.size == s'.size && |f.line.pool.next| == |s'.mem|
  {
    UpkeepSizes(M.AsWritten, line.pool, s.tainted);
  }

  /** The packet that is handed the tail. */
  lemma LendsAtNext(line: Line, c: Node, p: M.Packet)
    requires StandsAt(line, c) && Idle(c) && M.PacketOk(p) && Lends(c, p)
    ensures LineOk(line) && M.Ready(c.srv, p) && PoolFate.Next(line, p).Up?
    ensures Idle(NextNode(M.AsWritten, c, p)) && StandsAt(PoolFate.Next(line, p).line, NextNode(M.AsWritten, c, p))
  {
    var path := TailIsLent(line, c.srv, p.key, p.valLen);
    RespondKeepsInv(M.AsWritten, c, p);
    TickKeepsInv(M.AsWritten, Respond(c, p).0);
    M.LentUpkeepKeepsSound(Respond(c, p).0.srv);
    HandleStands(line, c.srv, p);
    AlikeAfterUpkeep(HandleLine(line, p), Respond(c, p).0.srv);
  }

  /** On a server that has lent its tail: the packet finds a region exactly when its links have a head, entries and
      links then change alike, and upkeep is stuck exactly when the lent region is given back. */
  lemma LentHandles(line: Line, c: Node, key: Bytes, path: seq<nat>, p: M.Packet)
    requires NodeInv(M.AsWritten, c) && Idle(c) && c.lent.Some? && M.PacketOk(p)
    requires LentOn(line, key, path, c.lent.value, c.srv.entries, First(c.srv.spare))
    ensures M.Ready(c.srv, p) <==> !(NeedsHead(line, p) && line.pool.head.None?)
    ensures M.Ready(c.srv, p) ==>
              var c1 := Respond(c, p).0;
              && c1.srv.entries == HandleLine(line, p).entries && (Stuck(c1) <==> GivesBack(p, key))
              && First(c1.srv.spare) == if NeedsHead(line, p) then None else line.pool.head
  {
    assert M.Free(c.srv) == c.srv.spare;
    if M.Ready(c.srv, p) {
      match p
      case EagerSetRequest(k, text) =>
        var i := M.Find(line.entries, k);
        assert i < |line.entries| && line.entries[i].body.Large? && k != key ==>
            line.entries[i].key != key && line.entries[i].body.region !in path;
      case RndvSetRequest(k, valLen) =>
      case _ =>
    }
  }

  /** What is tainted then is what the links have as tainted, the tail pointer is elsewhere, and both sides count and
      register the same. */
  lemma LentTaints(line: Line, c: Node, key: Bytes, path: seq<nat>, p: M.Packet)
    requires NodeInv(M.AsWritten, c) && Idle(c) && c.lent.Some? && M.PacketOk(p) && M.Ready(c.srv, p)
    requires LentOn(line, key, path, c.lent.value, c.srv.entries, First(c.srv.spare)) && !GivesBack(p, key)
    requires line.pool.size == c.srv.size && |line.pool.next| == |c.srv.mem|
    ensures NeedsHead(line, p) ==> line.pool.head.Some? && line.pool.size > 0
    ensures TaintedAlike(HandleLine(line, p).pool, Respond(c, p).0.srv)
  {
    assert M.Free(c.srv) == c.srv.spare;
    match p
    case EagerSetRequest(k, text) =>
      var i := M.Find(line.entries, k);
      if i < |line.entries| && line.entries[i].body.Large? {
        assert line.entries[i].key != key && line.entries[i].body.region !in path;
      }
    case RndvSetRequest(k, valLen) =>
    case _ =>
  }

  lemma AlikeBytes(k: Pool, s: M.Server, ids: seq<nat>)
    requires TaintedAlike(k, s) && Chain(k.next, ids, None) && k.first == First(ids)
    ensures M.UpkeptBytes(s.mem, ids, k.size) == M.LentUpkeep(s).mem
    ensures FillUp(SpliceTimes(M.AsWritten, k, |ids|)).size == M.LentUpkeep(s).size
  {
    ChainIsUnique(k.next, ids, s.tainted);
    UpkeepSizes(M.AsWritten, k, ids);
  }

  /** Past the hand-out too, the bytes that upkeep leaves on the heap are those of the value: it clears what the links
      have as tainted. */
  lemma LentBytes(line: Line, c: Node, p: M.Packet, ids: seq<nat>)
    requires StandsAt(line, c) && Idle(c) && M.PacketOk(p) && c.lent.Some? && M.Ready(c.srv, p)
    requires !Stuck(Respond(c, p).0) && LineOk(line)
    ensures NeedsHead(line, p) ==> line.pool.head.Some? && line.pool.size > 0
    ensures var k, s := HandleLine(line, p).pool, Respond(c, p).0.srv;
            Chain(k.next, ids, None) && k.first == First(ids) ==>
              && M.UpkeptBytes(s.mem, ids, k.size) == M.LentUpkeep(s).mem
              && FillUp(SpliceTimes(M.AsWritten, k, |ids|)).size == M.LentUpkeep(s).size
  {
    var key, path :| LentOn(line, key, path, c.lent.value, c.srv.entries, First(c.srv.spare));
    LentHandles(line, c, key, path, p);
    LentTaints(line, c, key, path, p);
    if Chain(HandleLine(line, p).pool.next, ids, None) && HandleLine(line, p).pool.first == First(ids) {
      AlikeBytes(HandleLine(line, p).pool, Respond(c, p).0.srv, ids);
    }
  }

  /** The next packet, once the tail has been lent. */
  lemma LentAtNext(line: Line, c: Node, p: M.Packet)
    requires StandsAt(line, c) && Idle(c) && M.PacketOk(p) && c.lent.Some?
    ensures LineOk(line) && (M.Ready(c.srv, p) <==> !PoolFate.Next(line, p).NullHead?)
    ensures M.Ready(c.srv, p) ==>
              var c', f := NextNode(M.AsWritten, c, p), PoolFate.Next(line, p);
              if f.Up? then Idle(c') && StandsAt(f.line, c') else Stuck(c') && c'.inbox == Nothing
  {
    var key, path :| LentOn(line, key, path, c.lent.value, c.srv.entries, First(c.srv.spare));
    var path' := LentNext(line, key, path, p);
    LentHandles(line, c, key, path, p);
    if M.Ready(c.srv, p) {
      var c1 := Respond(c, p).0;
      RespondKeepsInv(M.AsWritten, c, p);
      TickKeepsInv(M.AsWritten, c1);
      M.LentUpkeepKeepsSound(c1.srv);
      if !GivesBack(p, key) {
        LentTaints(line, c, key, path, p);
        AlikeAfterUpkeep(HandleLine(line, p), c1.srv);
      }
    }
  }

  /** Any packet at a server that has caught up, on its value and on its links. */
  lemma StandsAtNext(line: Line, c: Node, p: M.Packet)
    requires StandsAt(line, c) && Idle(c) && M.PacketOk(p)
    ensures LineOk(line) && (M.Ready(c.srv, p) <==> !PoolFate.Next(line, p).NullHead?)
    ensures M.Ready(c.srv, p) ==>
              var c', f := NextNode(M.AsWritten, c, p), PoolFate.Next(line, p);
              if f.Up? then Idle(c') && StandsAt(f.line, c') else Stuck(c') && c'.inbox == Nothing
  {
    if c.lent.Some? {
      LentAtNext(line, c, p);
    } else if M.LeavesTail(c.srv, p) {
      KeepsAtNext(line, c, p);
    } else {
      LendsAtNext(line, c, p);
    }
  }

  /** What the links stand for does not depend on the regions' bytes. */
  lemma StandsAtShape(line: Line, c: Node, c': Node)
    requires StandsAt(line, c) && SameNode(c, c') && NodeInv(M.AsWritten, c')
    ensures StandsAt(line, c')
  {
    var s, s' := c.srv, c'.srv;
    assert s.entries == s'.entries && s.main == s'.main && s.spare == s'.spare && s.tainted == s'.tainted
        && s.size == s'.size;
  }

  /** A packet at a server that has caught up, and its fate. */
  lemma IdleFollows(ps: seq<M.Packet>, c: Node, c': Node, p: M.Packet)
    requires Follows(ps, c) && Idle(c) && M.PacketOk(p) && NodeInv(M.AsWritten, c') && Served(M.AsWritten, c, c', [p])
    ensures Follows(ps + [p], c')
  {
    var line, next := FateAfter(ps).line, NextNode(M.AsWritten, c, p);
    StandsAtNext(line, c, p);
    StartStands();
    OneMorePacket(ps, p);
    assert (ps + [p])[..|ps|] == ps;
    if PoolFate.Next(line, p).Up? {
      StandsAtShape(PoolFate.Next(line, p).line, next, c');
    } else {
      assert c'.srv.tainted == next.srv.tainted;
    }
  }

  lemma StuckFollows(ps: seq<M.Packet>, c: Node, c': Node, p: M.Packet)
    requires Follows(ps, c) && !Idle(c) && Served(M.AsWritten, c, c', [p])
    ensures Follows(ps + [p], c')
  {
    StartStands();
    ServeOn(Started, ps, [p]);
    assert (ps + [p])[..|ps|] == ps;
  }

  lemma SameFollows(ps: seq<M.Packet>, c: Node, c': Node)
    requires Follows(ps, c) && SameNode(c', c) && NodeInv(M.AsWritten, c')
    ensures Follows(ps, c')
  {
    assert c'.srv.tainted == c.srv.tainted;
    if FateAfter(ps).Up? {
      StandsAtShape(FateAfter(ps).line, c, c');
    }
  }

  lemma AtMostOne(ps: seq<M.Packet>, qs: seq<M.Packet>)
    requires |qs| <= 1
    ensures if qs == [] then ps + qs == ps else qs == [qs[0]]
  {
  }

  lemma PacketFollows(ps: seq<M.Packet>, c: Node, c': Node, p: M.Packet)
    requires Follows(ps, c) && M.PacketOk(p) && NodeInv(M.AsWritten, c') && Served(M.AsWritten, c, c', [p])
    ensures Follows(ps + [p], c')
  {
    if Idle(c) { IdleFollows(ps, c, c', p); } else { StuckFollows(ps, c, c', p); }
  }

  /** Whatever a call that returned has sent, its server follows its fate. */
  lemma ServedFollows(ps: seq<M.Packet>, c: Node, c': Node, qs: seq<M.Packet>)
    requires Follows(ps, c) && |qs| <= 1 && PacketsOk(qs) && NodeInv(M.AsWritten, c')
    requires Served(M.AsWritten, c, c', qs)
    ensures Follows(ps + qs, c')
  {
    AtMostOne(ps, qs);
    if qs == [] {
      SameFollows(ps, c, c');
    } else {
      PacketFollows(ps, c, c', qs[0]);
    }
  }

  lemma HereOk(numServers: nat, l: Ledger, op: Op, i: nat)
    requires numServers > 0 && OpOk(op)
    ensures var qs := PacketsHere(numServers, l, op, i); |qs| <= 1 && PacketsOk(qs)
  {
  }

  lemma CallFollows(numServers: nat, l: Ledger, op: Op, i: nat, ps: seq<M.Packet>, c: Node, c': Node)
    requires numServers > 0 && OpOk(op) && Follows(ps, c) && NodeInv(M.AsWritten, c')
    requires Served(M.AsWritten, c, c', PacketsHere(numServers, l, op, i))
    ensures Follows(ps + PacketsHere(numServers, l, op, i), c')
  {
    HereOk(numServers, l, op, i);
    ServedFollows(ps, c, c', PacketsHere(numServers, l, op, i));
  }

  /** As written, over every run of calls that returned: each server, as caught up as it can be, is where its links lead
      under the packets it was sent. */
  lemma {:induction false} RunFollows(numServers: nat, ops: seq<Op>, i: nat)
    requires numServers > 0 && OpsOk(ops) && i < numServers && AllAnswered(M.AsWritten, numServers, ops)
    ensures Follows(PacketsTo(numServers, ops, i), AtRest(M.AsWritten, numServers, ops, i))
  {
    if ops == [] {
      StartStands();
      NewNodeOk(M.AsWritten, NewNode(M.AsWritten));
    } else {
      RunFollows(numServers, Front(ops), i);
      RestServes(M.AsWritten, numServers, ops, i);
      RestIsOk(M.AsWritten, numServers, ops, i);
      CallFollows(numServers, After(Front(ops)), ops[|ops| - 1], i, PacketsTo(numServers, Front(ops), i),
                  AtRest(M.AsWritten, numServers, Front(ops), i), AtRest(M.AsWritten, numServers, ops, i));
    }
  }

  // ---------- Which calls return ----------

  /** After the packets `ps`, a call that sends `qs` waits for ever: upkeep never ends, and the call's packet is a
      request, or an eager set that finds another one delivered since and not handled. */
  predicate Blocks(ps: seq<M.Packet>, qs: seq<M.Packet>) {
    qs != [] && KindBy(ps) == Hangs && !(qs[0].EagerSetRequest? && KindBy(ps[..|ps| - 1]) == Runs)
  }

  lemma SetAnswerAt(u: Upkeep, sys: System, l: Ledger, key: Bytes, text: Bytes)
    requires sys.nodes != [] && sys.cache.key == l.hot && OpOk(Set(key, text))
    ensures var out, qs := Step(u, sys, Set(key, text)).1, PacketsOf(l, Set(key, text));
            var c := Settle(u, Home(sys.nodes, key));
            && (out == Blocked <==> qs != [] && if qs[0].EagerSetRequest? then c.inbox != Nothing else !Idle(c))
            && (out == Crashed <==> qs != [] && Idle(c) && !M.Ready(c.srv, qs[0]))
  {
    var n, i := Home(sys.nodes, key), KeyHash.ShardOf(key, |sys.nodes|);
    if !FitsEager(key, text) {
      if key == l.hot {
        WriteLends(sys.(cache := sys.cache.(len := |text|)), i, text, i);
      } else if CanRequest(u, n, M.RndvSetRequest(key, |text| + 1)) {
        var (n', reply) := Request(u, n, M.RndvSetRequest(key, |text| + 1));
        WriteLends(System(Cache(key, |text|, Some(reply.region)), sys.nodes[i := n']), i, text, i);
      }
    }
  }

  lemma GetAnswerAt(u: Upkeep, sys: System, l: Ledger, key: Bytes, stale: Wire.Stale)
    requires sys.nodes != [] && sys.cache.key == l.hot && OpOk(Get(key, stale))
    ensures var out, qs := Step(u, sys, Get(key, stale)).1, PacketsOf(l, Get(key, stale));
            out != Crashed && (out == Blocked <==> qs != [] && !Idle(Settle(u, Home(sys.nodes, key))))
  {
  }

  /** Which calls return, by the server as caught up as it can be. */
  lemma AnswerAt(u: Upkeep, sys: System, l: Ledger, op: Op)
    requires sys.nodes != [] && sys.cache.key == l.hot && OpOk(op) && !op.Tick?
    ensures var out, qs, c := Step(u, sys, op).1, PacketsOf(l, op), Settle(u, Home(sys.nodes, op.key));
            && (out == Blocked <==> qs != [] && if qs[0].EagerSetRequest? then c.inbox != Nothing else !Idle(c))
            && (out == Crashed <==> qs != [] && Idle(c) && !M.Ready(c.srv, qs[0]))
  {
    match op
    case Set(key, text) => SetAnswerAt(u, sys, l, key, text);
    case Get(key, stale) => GetAnswerAt(u, sys, l, key, stale);
  }

  /** A server at rest, in terms of what its packets alone say. */
  lemma RestKind(ps: seq<M.Packet>, c: Node)
    requires Follows(ps, c) && PacketsOk(ps)
    ensures KindBy(ps) != Crashes && (Idle(c) <==> KindBy(ps) == Runs)
    ensures c.inbox == Nothing <==> KindBy(ps) == Runs || KindBy(ps[..|ps| - 1]) == Runs
  {
    FateIsByPackets(ps);
    if KindBy(ps) == Hangs {
      FateIsByPackets(ps[..|ps| - 1]);
    }
  }

  lemma ReadyFate(ps: seq<M.Packet>, c: Node, p: M.Packet)
    requires Follows(ps, c) && Idle(c) && M.PacketOk(p)
    ensures M.Ready(c.srv, p) <==> !FateAfter(ps + [p]).NullHead?
  {
    StandsAtNext(FateAfter(ps).line, c, p);
    StartStands();
    OneMorePacket(ps, p);
  }

  /** Whether a packet finds its region is what the packets alone say of the server after it. */
  lemma ReadyKind(ps: seq<M.Packet>, c: Node, p: M.Packet)
    requires Follows(ps, c) && Idle(c) && PacketsOk(ps) && M.PacketOk(p)
    ensures M.Ready(c.srv, p) <==> KindBy(ps + [p]) != Crashes
  {
    ReadyFate(ps, c, p);
    FateIsByPackets(ps + [p]);
  }

  /** Once a server hangs, further packets leave it hanging. */
  lemma HangsOn(ps: seq<M.Packet>, qs: seq<M.Packet>)
    requires PacketsOk(ps) && PacketsOk(qs) && KindBy(ps) == Hangs
    ensures KindBy(ps + qs) == Hangs
  {
    FateIsByPackets(ps);
    FateIsByPackets(ps + qs);
    StartStands();
    ServeOn(Started, ps, qs);
  }

  lemma AnswerIs(sys: System, l: Ledger, op: Op, ps: seq<M.Packet>)
    requires sys.nodes != [] && sys.cache.key == l.hot && OpOk(op) && !op.Tick? && PacketsOk(ps)
    requires Follows(ps, Settle(M.AsWritten, Home(sys.nodes, op.key)))
    ensures var out, qs := Step(M.AsWritten, sys, op).1, PacketsOf(l, op);
            (out == Blocked <==> Blocks(ps, qs)) && (out == Crashed <==> KindBy(ps + qs) == Crashes)
  {
    var qs, c := PacketsOf(l, op), Settle(M.AsWritten, Home(sys.nodes, op.key));
    AnswerAt(M.AsWritten, sys, l, op);
    SentOne(l, op);
    RestAnswers(ps, qs, c);
  }

  lemma SentOne(l: Ledger, op: Op)
    requires OpOk(op)
    ensures |PacketsOf(l, op)| <= 1 && PacketsOk(PacketsOf(l, op))
  {
  }

  /** What a server at rest does with a call's packet, if it sends one. */
  lemma RestAnswers(ps: seq<M.Packet>, qs: seq<M.Packet>, c: Node)
    requires Follows(ps, c) && PacketsOk(ps) && |qs| <= 1 && PacketsOk(qs)
    ensures (qs != [] && if qs[0].EagerSetRequest? then c.inbox != Nothing else !Idle(c)) <==> Blocks(ps, qs)
    ensures (qs != [] && Idle(c) && !M.Ready(c.srv, qs[0])) <==> KindBy(ps + qs) == Crashes
  {
    AtMostOne(ps, qs);
    RestKind(ps, c);
    if qs != [] {
      if Idle(c) { ReadyKind(ps, c, qs[0]); } else { HangsOn(ps, qs); }
    }
  }

  /** As written, after every run of calls that returned, what the next call does is what the calls alone say: it waits
      for ever, or makes its server crash, exactly when the packets sent so far and its own say so, and otherwise
      returns what the ledger returns. */
  lemma CallReturnsIff(numServers: nat, ops: seq<Op>, op: Op)
    requires numServers > 0 && OpsOk(ops) && OpOk(op) && !op.Tick? && AllAnswered(M.AsWritten, numServers, ops)
    ensures var ps := PacketsTo(numServers, ops, KeyHash.ShardOf(op.key, numServers));
            KvRuns.Next(M.AsWritten, numServers, ops, op) ==
            if Blocks(ps, PacketsOf(After(ops), op)) then Blocked
            else if KindBy(ps + PacketsOf(After(ops), op)) == Crashes then Crashed
            else LedgerStep(After(ops), op).1
  {
    var i := KeyHash.ShardOf(op.key, numServers);
    CacheIsHot(M.AsWritten, numServers, ops);
    RunFollows(numServers, ops, i);
    SentOk(numServers, ops, i);
    AnswerIs(StateAfter(M.AsWritten, numServers, ops), After(ops), op, PacketsTo(numServers, ops, i));
    CallMatchesLedger(M.AsWritten, numServers, ops, op);
  }

  /** What the calls alone say of whether all of them return. */
  predicate CallsReturn(numServers: nat, ops: seq<Op>)
    requires numServers > 0 && OpsOk(ops)
  {
    ops == [] || (
      var front, op := Front(ops), ops[|ops| - 1];
      CallsReturn(numServers, front) && (op.Tick? ||
        var ps := PacketsTo(numServers, front, KeyHash.ShardOf(op.key, numServers));
        !Blocks(ps, PacketsOf(After(front), op)) && KindBy(ps + PacketsOf(After(front), op)) != Crashes)
    )
  }

  lemma {:induction false} AllAnsweredIff(numServers: nat, ops: seq<Op>)
    requires numServers > 0 && OpsOk(ops)
    ensures AllAnswered(M.AsWritten, numServers, ops) <==> CallsReturn(numServers, ops)
  {
    if ops != [] {
      AllAnsweredIff(numServers, Front(ops));
      if AllAnswered(M.AsWritten, numServers, Front(ops)) && !ops[|ops| - 1].Tick? {
        CallReturnsIff(numServers, Front(ops), ops[|ops| - 1]);
        LedgerNeverFaults(After(Front(ops)), ops[|ops| - 1]);
      }
    }
  }

  /** As written, over every history whose calls returned and which has no overlong direct overwrite: a get gives the
      value last set, or waits for ever when its server hangs and the value is not the cached one. */
  lemma AsWrittenIsAMap(numServers: nat, ops: seq<Op>, key: Bytes, stale: Wire.Stale)
    requires numServers > 0 && OpsOk(ops) && OpOk(Get(key, stale)) && KeyFits(key) && CallsReturn(numServers, ops)
    requires NoOverlongOverwrite(ops) && LastSet(ops, key).Some?
    ensures KvRuns.Next(M.AsWritten, numServers, ops, Get(key, stale)) ==
            if key != After(ops).hot && KindBy(PacketsTo(numServers, ops, KeyHash.ShardOf(key, numServers))) == Hangs
            then Blocked else Text(LastSet(ops, key).value)
  {
    AllAnsweredIff(numServers, ops);
    CallReturnsIff(numServers, ops, Get(key, stale));
    SystemIsAMap(M.AsWritten, numServers, ops, key, stale);
    CacheIsHot(M.AsWritten, numServers, ops);
    AnswerAt(M.AsWritten, StateAfter(M.AsWritten, numServers, ops), After(ops), Get(key, stale));
  }

  // ---------- The history that wears the pool out, call by call ----------

  /** One more call at a server that runs. */
  lemma RunningAnswers(numServers: nat, ops: seq<Op>, op: Op)
    requires numServers > 0 && OpsOk(ops) && OpOk(op) && !op.Tick? && AllAnswered(M.AsWritten, numServers, ops)
    requires KindOf(FateOf(numServers, ops, KeyHash.ShardOf(op.key, numServers))) == Runs
    requires OpsOk(ops + [op])
    requires KindOf(FateOf(numServers, ops + [op], KeyHash.ShardOf(op.key, numServers))) != Crashes
    ensures AllAnswered(M.AsWritten, numServers, ops + [op])
  {
    var i := KeyHash.ShardOf(op.key, numServers);
    OneMore(numServers, ops, op, i);
    FateOfRun(numServers, ops, i);
    FateOfRun(numServers, ops + [op], i);
    CallReturnsIff(numServers, ops, op);
    LedgerNeverFaults(After(ops), op);
    assert Front(ops + [op]) == ops;
  }

  /** The large set that is handed the tail returns, and its server runs on. */
  lemma LendingReturns(numServers: nat, ops: seq<Op>, key: Bytes, large: Bytes)
    requires numServers > 0 && OpsOk(ops) && OpOk(Set(key, large)) && !FitsEager(key, large)
    requires Keeps(M.AsWritten, numServers, ops, KeyHash.ShardOf(key, numServers))
    requires HandsOutTail(M.AsWritten, StateAfter(M.AsWritten, numServers, ops), Set(key, large))
    ensures var mid, i := ops + [Set(key, large)], KeyHash.ShardOf(key, numServers);
            && OpsOk(mid) && AllAnswered(M.AsWritten, numServers, mid)
            && KindOf(FateOf(numServers, mid, i)) == Runs && After(mid).hot == key
  {
    var i, mid := KeyHash.ShardOf(key, numServers), ops + [Set(key, large)];
    KeptRunIsUp(numServers, ops, i);
    FateAfterTheTail(numServers, ops, key, large, []);
    assert mid + [] == mid;
    OneMore(numServers, ops, Set(key, large), i);
    RunningAnswers(numServers, ops, Set(key, large));
    CacheIsHot(M.AsWritten, numServers, ops);
  }

  /** The small set that makes its server hang returns as well; the next large set does not. */
  lemma GivingBackReturns(numServers: nat, mid: seq<Op>, key: Bytes, large: Bytes, small: Bytes)
    requires numServers > 0 && OpsOk(mid) && AllAnswered(M.AsWritten, numServers, mid) && After(mid).hot == key
    requires OpOk(Set(key, large)) && OpOk(Set(key, small)) && !FitsEager(key, large) && FitsEager(key, small)
    requires KindOf(FateOf(numServers, mid, KeyHash.ShardOf(key, numServers))) == Runs && OpsOk(mid + [Set(key, small)])
    requires KindOf(FateOf(numServers, mid + [Set(key, small)], KeyHash.ShardOf(key, numServers))) == Hangs
    ensures AllAnswered(M.AsWritten, numServers, mid + [Set(key, small)])
    ensures KvRuns.Next(M.AsWritten, numServers, mid + [Set(key, small)], Set(key, large)) == Blocked
  {
    var i, all := KeyHash.ShardOf(key, numServers), mid + [Set(key, small)];
    RunningAnswers(numServers, mid, Set(key, small));
    OneMore(numServers, mid, Set(key, small), i);
    FateOfRun(numServers, all, i);
    CallReturnsIff(numServers, all, Set(key, large));
  }

  /** As written, a large and a small value for one key, over and over: eleven rounds return, and the twelfth large set
      never does. */
  lemma TwelfthRoundBlocks(numServers: nat, key: Bytes, large: Bytes, small: Bytes)
    requires numServers > 0 && OpOk(Set(key, large)) && OpOk(Set(key, small))
    requires !FitsEager(key, large) && FitsEager(key, small)
    ensures var ops := Alternation(key, large, small, 11);
            && OpsOk(ops) && AllAnswered(M.AsWritten, numServers, ops)
            && KvRuns.Next(M.AsWritten, numServers, ops, Set(key, large)) == Blocked
  {
    var ops := Alternation(key, large, small, 10);
    AlternationWears(numServers, key, large, small, 10);
    EleventhLargeSetTakesTheTail(numServers, key, large, small, 10);
    LendingReturns(numServers, ops, key, large);
    SmallAfterTheTail(numServers, ops, key, large, small);
    GivingBackReturns(numServers, ops + [Set(key, large)], key, large, small);
    assert Alternation(key, large, small, 11) == ops + [Set(key, large)] + [Set(key, small)];
  }
}
