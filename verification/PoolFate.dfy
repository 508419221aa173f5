/** The source's pool over whole runs, followed on its links past the point where the tail itself is handed out. Each
    packet is handled and followed by upkeep, as in a run with one connection. A server then is up, or has followed a
    NULL head, or is in upkeep for ever. */
module PoolFate {
  import opened ByteStrings
  import opened ServerModel
  import opened PoolLinks
  import opened ServerLinks
  import opened ServerRuns
  import opened PoolWear

  datatype Fate = Up(line: Line) | NullHead | Hung

  ghost function UpkeepFate(line: Line): (f: Fate)
    requires LineOk(line)
    ensures f.Up? ==> LineOk(f.line)
  {
    if Ends(AsWritten, line.pool) then Up(line.(pool := Upkept(AsWritten, line.pool))) else Hung
  }

  /** One packet and the upkeep after it. A head on the list always comes with a positive count. */
  ghost function Next(line: Line, p: Packet): (f: Fate)
    requires LineOk(line)
    ensures f.Up? ==> LineOk(f.line)
  {
    if NeedsHead(line, p) && (line.pool.head.None? || line.pool.size == 0) then NullHead
    else UpkeepFate(HandleLine(line, p))
  }

  ghost function Serve(line: Line, ps: seq<Packet>): (f: Fate)
    requires LineOk(line)
    ensures f.Up? ==> LineOk(f.line)
    decreases |ps|
  {
    if ps == [] then Up(line)
    else match Next(line, ps[0])
      case Up(l) => Serve(l, ps[1..])
      case f => f
  }

  /** A server before its first packet: upkeep has filled the pool. */
  const Started := Line([], FillUp(NoRegions))

  ghost function FateAfter(ps: seq<Packet>): Fate {
    Serve(Started, ps)
  }

  lemma {:induction false} ServeOn(line: Line, ps: seq<Packet>, qs: seq<Packet>)
    requires LineOk(line)
    ensures Serve(line, ps + qs) == match Serve(line, ps) case Up(l) => Serve(l, qs) case f => f
    decreases |ps|
  {
    if ps == [] {
      assert ps + qs == qs;
    } else {
      assert (ps + qs)[0] == ps[0] && (ps + qs)[1..] == ps[1..] + qs;
      if Next(line, ps[0]).Up? {
        ServeOn(Next(line, ps[0]).line, ps[1..], qs);
      }
    }
  }

  // ---------- While the tail is free ----------

  /** While the tail is free every upkeep ends, and the pointers stand for the lists. */
  lemma UpkeepStands(line: Line, s: Server)
    requires StandsTidily(line, s) && Inv(AsWritten, s)
    ensures LineOk(line) && UpkeepFate(line).Up?
    ensures var l, s' := UpkeepFate(line).line, MaintainPool(AsWritten, s); StandsTidily(l, s')
  {
    StandsIsOk(line, s);
    UpkeepLists(AsWritten, s, line.pool);
    UpkeepKeepsLoose(AsWritten, s, line.pool);
    MaintainPoolKeepsInv(AsWritten, s);
  }

  lemma NextStands(line: Line, s: Server, p: Packet)
    requires StandsTidily(line, s)
    requires Settled(AsWritten, s) && PacketOk(p) && LeavesTail(s, p)
    ensures LineOk(line) && Next(line, p).Up?
    ensures var l, s' := Next(line, p).line, NextServer(AsWritten, s, p); StandsTidily(l, s')
  {
    NextIsSettled(AsWritten, s, p);
    HandleTidily(line, s, p);
    var l1, s1 := HandleLine(line, p), Handle(s, p).0;
    assert Next(line, p) == UpkeepFate(l1) && NextServer(AsWritten, s, p) == MaintainPool(AsWritten, s1);
    UpkeepStands(l1, s1);
  }

  lemma OneMorePacket(ps: seq<Packet>, p: Packet)
    requires LineOk(Started) && FateAfter(ps).Up?
    ensures LineOk(FateAfter(ps).line) && FateAfter(ps + [p]) == Next(FateAfter(ps).line, p)
  {
    ServeOn(Started, ps, [p]);
    var line := FateAfter(ps).line;
    assert [p][1..] == [];
    assert Serve(line, [p]) == Next(line, p);
  }

  lemma StartStands()
    ensures LineOk(Started)
    ensures var s := ServerAfter(AsWritten, []); StandsTidily(Started, s)
  {
    EmptyIsInv(AsWritten);
    UpkeepLists(AsWritten, Empty, NoRegions);
    MaintainPoolKeepsInv(AsWritten, Empty);
    assert SpliceTimes(AsWritten, NoRegions, 0) == NoRegions;
  }

  lemma KeptStep(ps: seq<Packet>, s: Server, p: Packet)
    requires FateAfter(ps).Up? && StandsTidily(FateAfter(ps).line, s) && LineOk(Started)
    requires Settled(AsWritten, s) && PacketOk(p) && LeavesTail(s, p)
    ensures FateAfter(ps + [p]).Up? && StandsTidily(FateAfter(ps + [p]).line, NextServer(AsWritten, s, p))
  {
    NextStands(FateAfter(ps).line, s, p);
    OneMorePacket(ps, p);
  }

  lemma FrontAndLast(ps: seq<Packet>)
    requires ps != []
    ensures ps == ps[..|ps| - 1] + [ps[|ps| - 1]]
  {
  }

  /** After every run of packets none of which was handed the tail, the server is up, and its pointers stand for the
      lists that the run leads to. */
  lemma {:induction false} TailKeptIsUp(ps: seq<Packet>)
    requires TailKeptBy(AsWritten, ps)
    ensures FateAfter(ps).Up? && StandsTidily(FateAfter(ps).line, ServerAfter(AsWritten, ps))
  {
    if ps == [] {
      StartStands();
    } else {
      var front, p := ps[..|ps| - 1], ps[|ps| - 1];
      FrontAndLast(ps);
      StartStands();
      TailKeptIsUp(front);
      RunIsSettled(AsWritten, front);
      KeptStep(front, ServerAfter(AsWritten, front), p);
    }
  }

  // ---------- After the tail has been handed out ----------

  /** A region held for some other key than `key` is linked to nothing and off the path. */
  ghost predicate OthersOff(line: Line, key: Bytes, path: seq<nat>) {
    forall i {:trigger line.entries[i]} ::
      0 <= i < |line.entries| && line.entries[i].body.Large? && line.entries[i].key != key ==>
      var r := line.entries[i].body.region;
      r < |line.pool.next| && line.pool.next[r] == None && r !in path && line.pool.head != Some(r)
  }

  /** The head, if there is one, is alone on the free list and off the path. */
  ghost predicate HeadAlone(k: Pool, path: seq<nat>) {
    k.head.Some? ==> k.head.value < |k.next| && k.next[k.head.value] == None && k.head.value !in path
  }

  /** The region that was the pool's tail when it was handed out is held for `key`, and the links lead from it along
      `path` to wherever the tail pointer is now. */
  ghost predicate Lent(line: Line, key: Bytes, path: seq<nat>) {
    && LineOk(line)
    && path != [] && NoRepeat(path) && RegionFor(line.entries, key) == Some(path[0])
    && line.pool.tail == Last(path) && Chain(line.pool.next, path[..|path| - 1], Last(path))
    && path[|path| - 1] < |line.pool.next|
    && line.pool.first == None && line.pool.size >= MIN_POOL_NODES - 1
    && OthersOff(line, key, path) && HeadAlone(line.pool, path)
  }

  /** A new region behind the tail makes the path longer. */
  lemma GrowLent(line: Line, key: Bytes, path: seq<nat>)
    requires Lent(line, key, path)
    ensures Lent(line.(pool := GrowTurn(line.pool)), key, path + [|line.pool.next|])
  {
    var k, n := line.pool, |line.pool.next|;
    var k', path' := GrowTurn(k), path + [n];
    var t := path[|path| - 1];
    assert t in path;
    assert path'[..|path'| - 1] == path;
    assert forall i :: 0 <= i < |path| - 1 ==> path[..|path| - 1][i] == path[i];
    assert forall i :: 0 <= i < |path| ==> path[i] < n;
    forall i | 0 <= i < |path| ensures k'.next[path[i]] == if i + 1 < |path| then Some(path[i + 1]) else Some(n) {
      if i < |path| - 1 {
        assert k.next[path[..|path| - 1][i]] == Some(path[i + 1]);
      }
    }
  }

  /** Upkeep with nothing tainted only tops the pool up. */
  lemma FillLent(line: Line, key: Bytes, path: seq<nat>) returns (path': seq<nat>)
    requires Lent(line, key, path)
    ensures UpkeepFate(line) == Up(line.(pool := FillUp(line.pool)))
    ensures Lent(UpkeepFate(line).line, key, path') && UpkeepFate(line).line.pool.size >= MIN_POOL_NODES
    ensures UpkeepFate(line).line.pool.head == line.pool.head && path'[0] == path[0]
  {
    var k := line.pool;
    assert SpliceTimes(AsWritten, k, 0) == k;
    UpkeptIs(AsWritten, k, 0);
    if k.size < MIN_POOL_NODES {
      GrowLent(line, key, path);
      assert FillUp(GrowTurn(k)) == GrowTurn(k);
      path' := path + [|k.next|];
    } else {
      path' := path;
    }
  }

  /** A region of another key that is given back is spliced behind the tail, off the path, and is lost there. */
  lemma SpliceLent(line: Line, key: Bytes, path: seq<nat>, r: nat)
    requires Lent(line, key, path) && line.pool.size >= MIN_POOL_NODES
    requires r < |line.pool.next| && line.pool.next[r] == None && r !in path
    ensures var l := line.(pool := Taint(line.pool, r));
            && LineOk(l) && UpkeepFate(l).Up? && Lent(UpkeepFate(l).line, key, path)
            && UpkeepFate(l).line.pool.size >= MIN_POOL_NODES && UpkeepFate(l).line.pool.head == line.pool.head
            && UpkeepFate(l).line.entries == line.entries
  {
    var k := Taint(line.pool, r);
    var t := path[|path| - 1];
    assert t in path && k.tail == Some(t);
    assert SpliceTimes(AsWritten, k, 0) == k;
    var k1 := SpliceTurn(AsWritten, k);
    assert SpliceTimes(AsWritten, k, 1) == k1;
    UpkeptIs(AsWritten, k, 1);
    assert k1 == line.pool.(next := line.pool.next[t := Some(r)], size := line.pool.size + 1, last := Some(r));
    assert FillUp(k1) == k1;
    assert forall i :: 0 <= i < |path| - 1 ==> path[..|path| - 1][i] == path[i] != t;
    assert line.pool.head.Some? ==> line.pool.head.value != t;
  }

  /** When the lent region itself is given back, the walk from it reaches the tail, and upkeep never ends. */
  lemma LentBackHangs(line: Line, key: Bytes, path: seq<nat>, text: Bytes)
    requires Lent(line, key, path)
    ensures Next(line, EagerSetRequest(key, text)) == Hung
  {
    NeverEnds(Taint(line.pool, path[0]), path);
  }

  /** The packets that give the region of a key back. */
  predicate GivesBack(p: Packet, key: Bytes) {
    p.EagerSetRequest? && p.key == key
  }

  lemma EagerLent(line: Line, key: Bytes, path: seq<nat>, k: Bytes, text: Bytes) returns (path': seq<nat>)
    requires Lent(line, key, path) && line.pool.size >= MIN_POOL_NODES && k != key
    ensures var f := Next(line, EagerSetRequest(k, text));
            && f.Up? && Lent(f.line, key, path') && path'[0] == path[0]
            && f.line.pool.size >= MIN_POOL_NODES && f.line.pool.head == line.pool.head
            && f.line.entries == Put(line.entries, Entry(k, |text|, Small(text)))
  {
    var e := Entry(k, |text|, Small(text));
    var line1 := line.(entries := Put(line.entries, e));
    RegionPut(line.entries, e, key);
    assert Lent(line1, key, path);
    match RegionFor(line.entries, k)
    case None => path' := FillLent(line1, key, path);
    case Some(r) =>
      var i := Find(line.entries, k);
      assert line.entries[i].key != key && line.entries[i].body == Large(r);
      SpliceLent(line1, key, path, r);
      path' := path;
  }

  lemma RndvLent(line: Line, key: Bytes, path: seq<nat>, k: Bytes, valLen: nat) returns (path': seq<nat>)
    requires Lent(line, key, path) && line.pool.size >= MIN_POOL_NODES
    requires RegionFor(line.entries, k).Some? || line.pool.head.Some?
    ensures var f := Next(line, RndvSetRequest(k, valLen));
            && f.Up? && Lent(f.line, key, path') && path'[0] == path[0] && f.line.pool.size >= MIN_POOL_NODES
            && f.line.entries == HandleLine(line, RndvSetRequest(k, valLen)).entries
            && f.line.pool.head == if RegionFor(line.entries, k).Some? then line.pool.head else None
  {
    var r := if RegionFor(line.entries, k).Some? then RegionFor(line.entries, k).value else line.pool.head.value;
    var e := Entry(k, valLen, Large(r));
    RegionPut(line.entries, e, key);
    var line1 := HandleLine(line, RndvSetRequest(k, valLen));
    assert line1.entries == Put(line.entries, e);
    if RegionFor(line.entries, k).Some? {
      var i := Find(line.entries, k);
      assert line.entries[i].body == Large(r);
      assert Lent(line1, key, path);
    } else {
      TakeLent(line, key, path, k, valLen);
    }
    path' := FillLent(line1, key, path);
  }

  lemma TakeLent(line: Line, key: Bytes, path: seq<nat>, k: Bytes, valLen: nat)
    requires Lent(line, key, path) && line.pool.size >= MIN_POOL_NODES
    requires RegionFor(line.entries, k).None? && line.pool.head.Some?
    ensures Lent(HandleLine(line, RndvSetRequest(k, valLen)), key, path)
    ensures HandleLine(line, RndvSetRequest(k, valLen)).pool.head == None
  {
    var r := line.pool.head.value;
    var e := Entry(k, valLen, Large(r));
    var line1 := HandleLine(line, RndvSetRequest(k, valLen));
    RegionPut(line.entries, e, key);
    assert line1.pool.next == line.pool.next[r := None] == line.pool.next;
    assert line1.pool.head == None;
  }

  // ---------- What becomes of a server, from its packets alone ----------

  datatype Kind = Runs | Crashes | Hangs

  function KindOf(f: Fate): Kind {
    match f
    case Up(_) => Runs
    case NullHead => Crashes
    case Hung => Hangs
  }

  predicate AsksNew(big: set<Bytes>, p: Packet) {
    p.RndvSetRequest? && p.key !in big
  }

  /** With the tail lent to `key`, these keys holding regions, and `spares` regions left at the head: giving the lent
      region back hangs the server, and asking for one region more than are left makes it follow a NULL head. */
  function KindAfter(big: set<Bytes>, spares: nat, key: Bytes, ps: seq<Packet>): Kind
    decreases |ps|
  {
    if ps == [] then Runs
    else if GivesBack(ps[0], key) then Hangs
    else if AsksNew(big, ps[0]) && spares == 0 then Crashes
    else KindAfter(BigNext(big, ps[0]), if AsksNew(big, ps[0]) then spares - 1 else spares, key, ps[1..])
  }

  ghost predicate BigKeys(big: set<Bytes>, es: seq<Entry>) {
    forall k :: k in big <==> RegionFor(es, k).Some?
  }

  function Spares(k: Pool): nat {
    if k.head.Some? then 1 else 0
  }

  lemma BigKeysHandled(big: set<Bytes>, line: Line, p: Packet)
    requires LineOk(line) && BigKeys(big, line.entries)
    requires NeedsHead(line, p) ==> line.pool.head.Some? && line.pool.size > 0
    ensures BigKeys(BigNext(big, p), HandleLine(line, p).entries)
  {
    var es' := HandleLine(line, p).entries;
    forall k ensures k in BigNext(big, p) <==> RegionFor(es', k).Some? {
      match p
      case EagerSetRequest(key, text) => RegionPut(line.entries, Entry(key, |text|, Small(text)), k);
      case RndvSetRequest(key, valLen) =>
        var held := RegionFor(line.entries, key);
        var r := if held.Some? then held.value else line.pool.head.value;
        RegionPut(line.entries, Entry(key, valLen, Large(r)), k);
      case _ =>
    }
  }

  /** The region `t` is lent to `key` on a pool that has been topped up, with these entries and this head. */
  ghost predicate LentOn(line: Line, key: Bytes, path: seq<nat>, t: nat, es: seq<Entry>, head: Option<nat>) {
    && Lent(line, key, path) && path[0] == t && line.pool.size >= MIN_POOL_NODES
    && line.entries == es && line.pool.head == head
  }

  /** With the tail lent: upkeep hangs exactly when the lent region is given back, a packet finds no region exactly when
      it needs one and the head is NULL, and otherwise the tail stays lent. */
  lemma LentNext(line: Line, key: Bytes, path: seq<nat>, p: Packet) returns (path': seq<nat>)
    requires Lent(line, key, path) && line.pool.size >= MIN_POOL_NODES
    ensures var f := Next(line, p);
            && (f.Hung? <==> GivesBack(p, key))
            && (f.NullHead? <==> NeedsHead(line, p) && line.pool.head.None?)
            && (f.Up? ==> LentOn(f.line, key, path', path[0], HandleLine(line, p).entries,
                                 if NeedsHead(line, p) then None else line.pool.head))
  {
    path' := path;
    match p
    case EagerSetRequest(k, text) =>
      if k == key {
        LentBackHangs(line, key, path, text);
      } else {
        path' := EagerLent(line, key, path, k, text);
      }
    case RndvSetRequest(k, valLen) =>
      if RegionFor(line.entries, k).Some? || line.pool.head.Some? {
        path' := RndvLent(line, key, path, k, valLen);
      }
    case _ => path' := FillLent(line, key, path);
  }

  lemma LentStep(line: Line, key: Bytes, path: seq<nat>, big: set<Bytes>, p: Packet) returns (path': seq<nat>)
    requires Lent(line, key, path) && line.pool.size >= MIN_POOL_NODES && BigKeys(big, line.entries)
    ensures var f := Next(line, p);
            && (f.Hung? <==> GivesBack(p, key))
            && (f.NullHead? <==> AsksNew(big, p) && Spares(line.pool) == 0)
            && (f.Up? ==> Lent(f.line, key, path') && f.line.pool.size >= MIN_POOL_NODES
                          && BigKeys(BigNext(big, p), f.line.entries)
                          && Spares(f.line.pool) == Spares(line.pool) - if AsksNew(big, p) then 1 else 0)
  {
    path' := LentNext(line, key, path, p);
    if Next(line, p).Up? {
      BigKeysHandled(big, line, p);
    }
  }

  /** Whatever packets follow, what becomes of the server is what the packets alone say. */
  lemma {:induction false} LentFate(line: Line, key: Bytes, path: seq<nat>, big: set<Bytes>, ps: seq<Packet>)
    requires Lent(line, key, path) && line.pool.size >= MIN_POOL_NODES && BigKeys(big, line.entries)
    ensures KindOf(Serve(line, ps)) == KindAfter(big, Spares(line.pool), key, ps)
    decreases |ps|
  {
    if ps != [] {
      var path' := LentStep(line, key, path, big, ps[0]);
      if Next(line, ps[0]).Up? {
        LentFate(Next(line, ps[0]).line, key, path', BigNext(big, ps[0]), ps[1..]);
      }
    }
  }

  // ---------- The hand-out itself ----------

  lemma LentFrom(s: Server, line: Line, key: Bytes, t: nat)
    requires Sound(AsWritten, s) && s.main == [] && s.tainted == [] && s.size >= MIN_POOL_NODES - 1
    requires StandsFor(line, s) && line.pool.tail == Some(t) && RegionFor(line.entries, key) == Some(t)
    ensures Lent(line, key, [t])
  {
    Apart(s);
    ApartLists(s);
    StandsIsOk(line, s);
    var i := Find(s.entries, key);
    assert s.entries[i].body == Large(t);
    assert s.main + s.spare == s.spare;
    assert s.spare != [] ==> line.pool.head == Some(s.spare[0]) && s.spare[0] in s.main + s.spare;
    forall j | 0 <= j < |s.entries| && s.entries[j].body.Large? && s.entries[j].key != key
      ensures s.entries[j].body.region != t
    {
      assert i < j || j < i;
    }
  }

  /** On lists: the packet that is handed the tail, before its upkeep. */
  lemma TailHandedOut(line: Line, s: Server, key: Bytes, valLen: nat)
    requires StandsTidily(line, s) && Settled(AsWritten, s) && NulFree(key)
    requires !LeavesTail(s, RndvSetRequest(key, valLen))
    ensures LineOk(line) && line.pool.head.Some? && line.pool.size > 0 && NeedsHead(line, RndvSetRequest(key, valLen))
    ensures var line1 := HandleLine(line, RndvSetRequest(key, valLen));
            Lent(line1, key, [s.main[0]]) && Spares(line1.pool) == |s.spare|
  {
    var p := RndvSetRequest(key, valLen);
    TailFreeIsReady(AsWritten, s, p);
    HandleStands(line, s, p);
    HandleKeepsSound(AsWritten, s, p);
    var line1, s1, t := HandleLine(line, p), Handle(s, p).0, s.main[0];
    assert |s.main| == 1 && Free(s)[0] == t && s1.main == [];
    assert s1.main + s1.spare == s.spare;
    RegionPut(line.entries, Entry(key, valLen, Large(t)), key);
    LentFrom(s1, line1, key, t);
  }

  /** A set that is handed the tail is served, and then the tail is lent to its key. */
  lemma TailIsLent(line: Line, s: Server, key: Bytes, valLen: nat) returns (path: seq<nat>)
    requires StandsTidily(line, s) && Settled(AsWritten, s) && NulFree(key)
    requires !LeavesTail(s, RndvSetRequest(key, valLen))
    ensures LineOk(line) && Ready(s, RndvSetRequest(key, valLen)) && s.main != []
    ensures var p := RndvSetRequest(key, valLen);
            && Next(line, p).Up?
            && LentOn(Next(line, p).line, key, path, s.main[0], Handle(s, p).0.entries, First(s.spare))
  {
    var p := RndvSetRequest(key, valLen);
    TailFreeIsReady(AsWritten, s, p);
    TailHandedOut(line, s, key, valLen);
    HandleStands(line, s, p);
    path := FillLent(HandleLine(line, p), key, [s.main[0]]);
  }

  lemma StandsBig(line: Line, s: Server, big: set<Bytes>)
    requires StandsFor(line, s) && BigHeld(s, big)
    ensures BigKeys(big, line.entries)
  {
    StandsIsOk(line, s);
  }

  /** The first packet that is handed the tail, on its links. */
  lemma TailPacketIs(ps: seq<Packet>, key: Bytes, valLen: nat) returns (path: seq<nat>)
    requires TailKeptBy(AsWritten, ps) && NulFree(key) && TakesAt(ps, RndvSetRequest(key, valLen))
    ensures var f := FateAfter(ps + [RndvSetRequest(key, valLen)]);
            && f.Up? && Lent(f.line, key, path) && f.line.pool.size >= MIN_POOL_NODES
            && Spares(f.line.pool) == AccountOf(ps).spare && BigKeys(BigAfter(ps) + {key}, f.line.entries)
  {
    var p, s := RndvSetRequest(key, valLen), ServerAfter(AsWritten, ps);
    TailKeptIsUp(ps);
    RunIsSettled(AsWritten, ps);
    PacketsAccount(ps);
    PacketTakesIff(ps, p);
    var line := FateAfter(ps).line;
    path := TailIsLent(line, s, key, valLen);
    StandsBig(line, s, BigAfter(ps));
    BigAfterHandOut(line, s, BigAfter(ps), p);
    StartStands();
    OneMorePacket(ps, p);
  }

  lemma BigAfterHandOut(line: Line, s: Server, big: set<Bytes>, p: Packet)
    requires StandsFor(line, s) && OwnedOnce(s) && Ready(s, p) && BigKeys(big, line.entries)
    ensures BigKeys(BigNext(big, p), Handle(s, p).0.entries)
  {
    HandleStands(line, s, p);
    BigKeysHandled(big, line, p);
  }

  /** As written, what becomes of a server from the packet on that is handed its tail: that packet is served, and the
      packets alone say whether the server then still runs, has followed a NULL head, or hangs. */
  lemma FateOfTheTail(ps: seq<Packet>, p: Packet, qs: seq<Packet>)
    requires TailKeptBy(AsWritten, ps) && PacketOk(p) && TakesAt(ps, p)
    ensures KindOf(FateAfter(ps + [p] + qs)) == KindAfter(BigAfter(ps) + {p.key}, AccountOf(ps).spare, p.key, qs)
  {
    StartStands();
    var path := TailPacketIs(ps, p.key, p.valLen);
    ServeOn(Started, ps + [p], qs);
    LentFate(FateAfter(ps + [p]).line, p.key, path, BigAfter(ps) + {p.key}, qs);
  }

  // ---------- Any packets whatever ----------

  /** Which packet is the first that is handed the tail, by the packets' account; their number when none is. */
  function FirstTake(ps: seq<Packet>): (n: nat)
    ensures n <= |ps| && (n < |ps| ==> ps[n].RndvSetRequest?)
  {
    if ps == [] then 0
    else
      var front := ps[..|ps| - 1];
      if FirstTake(front) < |front| then FirstTake(front)
      else if TakesAt(front, ps[|ps| - 1]) then |front|
      else |ps|
  }

  predicate PacketsOk(ps: seq<Packet>) {
    forall i :: 0 <= i < |ps| ==> PacketOk(ps[i])
  }

  /** The packets before the first that is handed the tail were not, and it is. */
  lemma {:induction false} FirstTakeIs(ps: seq<Packet>)
    requires PacketsOk(ps)
    ensures var n := FirstTake(ps); TailKeptBy(AsWritten, ps[..n]) && (n < |ps| ==> TakesAt(ps[..n], ps[n]))
  {
    if ps != [] {
      var front, p := ps[..|ps| - 1], ps[|ps| - 1];
      FirstTakeIs(front);
      var n := FirstTake(front);
      assert front[..n] == ps[..n];
      if n == |front| {
        assert front[..n] == front && ps == front + [p] && ps[..|ps|] == ps;
        PacketTakesIff(front, p);
      }
    }
  }

  /** What the packets alone say becomes of the server. */
  function KindBy(ps: seq<Packet>): Kind {
    var n := FirstTake(ps);
    if n == |ps| then Runs
    else KindAfter(BigAfter(ps[..n]) + {ps[n].key}, AccountOf(ps[..n]).spare, ps[n].key, ps[n + 1..])
  }

  /** As written, over any packets whatever: whether the server runs, has followed a NULL head, or hangs is what the
      packets alone say. */
  lemma FateIsByPackets(ps: seq<Packet>)
    requires PacketsOk(ps)
    ensures KindOf(FateAfter(ps)) == KindBy(ps)
  {
    var n := FirstTake(ps);
    FirstTakeIs(ps);
    if n == |ps| {
      assert ps[..n] == ps;
      TailKeptIsUp(ps);
    } else {
      assert ps == ps[..n] + [ps[n]] + ps[n + 1..];
      FateOfTheTail(ps[..n], ps[n], ps[n + 1..]);
    }
  }

  /** In particular, when no other key asks for a region, it hangs exactly when the lent region is given back. */
  lemma {:induction false} HangsIffGivenBack(big: set<Bytes>, spares: nat, key: Bytes, ps: seq<Packet>)
    requires key in big && forall p :: p in ps && p.RndvSetRequest? ==> p.key == key
    ensures KindAfter(big, spares, key, ps) == if exists p :: p in ps && GivesBack(p, key) then Hangs else Runs
    decreases |ps|
  {
    if ps != [] {
      assert ps[0] in ps;
      assert forall p :: p in ps <==> p == ps[0] || p in ps[1..];
      if !GivesBack(ps[0], key) {
        assert key in BigNext(big, ps[0]);
        HangsIffGivenBack(BigNext(big, ps[0]), spares, key, ps[1..]);
      }
    }
  }
}
