/** One storage server by its links: its entries, and its pool as the server's pointers see it. What a packet does here
    is what the source's assignments do, in any state; while the pointers stand for a server's lists it is what the
    packet does to the lists. */
module ServerLinks {
  import opened ByteStrings
  import opened ServerModel
  import opened PoolLinks

  /** A server by its entries and its pool's pointers. */
  datatype Line = Line(entries: seq<Entry>, pool: Pool)

  function RegionFor(es: seq<Entry>, key: Bytes): (r: Option<nat>) {
    var i := Find(es, key);
    if i < |es| && es[i].body.Large? then Some(es[i].body.region) else None
  }

  ghost predicate LineOk(line: Line) {
    && Closed(line.pool)
    && forall i {:trigger line.entries[i]} :: 0 <= i < |line.entries| && line.entries[i].body.Large? ==>
         line.entries[i].body.region < |line.pool.next|
  }

  predicate NeedsHead(line: Line, p: Packet) {
    p.RndvSetRequest? && RegionFor(line.entries, p.key).None?
  }

  /** What a packet does to entries and pointers. */
  ghost function HandleLine(line: Line, p: Packet): (l: Line)
    requires LineOk(line) && (NeedsHead(line, p) ==> line.pool.head.Some? && line.pool.size > 0)
    ensures LineOk(l)
  {
    match p
    case EagerSetRequest(key, text) =>
      var es := Put(line.entries, Entry(key, |text|, Small(text)));
      (match RegionFor(line.entries, key)
       case Some(r) => Line(es, Taint(line.pool, r))
       case None => Line(es, line.pool))
    case RndvSetRequest(key, valLen) =>
      (match RegionFor(line.entries, key)
       case Some(r) => line.(entries := Put(line.entries, Entry(key, valLen, Large(r))))
       case None => Line(Put(line.entries, Entry(key, valLen, Large(line.pool.head.value))), Take(line.pool)))
    case _ => line
  }

  /** What the server answers. */
  function LineReply(line: Line, p: Packet): Reply
    requires NeedsHead(line, p) ==> line.pool.head.Some?
  {
    match p
    case EagerGetRequest(key) => LookupIn(line.entries, key)
    case RndvSetRequest(key, _) =>
      RndvSetResponse(if RegionFor(line.entries, key).Some? then RegionFor(line.entries, key).value
                      else line.pool.head.value)
    case _ => NoReply
  }

  // ---------- Pointers that stand for a server ----------

  /** The pointers stand for this server's lists. */
  ghost predicate StandsFor(line: Line, s: Server) {
    line.entries == s.entries && Lists(s, line.pool) && HeldLoose(s, line.pool)
  }

  ghost predicate StandsTidily(line: Line, s: Server) {
    StandsFor(line, s) && TailListed(s, line.pool)
  }

  lemma StandsIsOk(line: Line, s: Server)
    requires StandsFor(line, s)
    ensures LineOk(line)
    ensures forall key :: RegionFor(line.entries, key).Some? <==> HasRegion(s, key)
  {
  }

  lemma TaintStands(line: Line, s: Server, key: Bytes, text: Bytes)
    requires StandsFor(line, s) && ListsApart(s) && HasRegion(s, key) && LineOk(line)
    requires EntriesApart(s.entries)
    ensures StandsFor(HandleLine(line, EagerSetRequest(key, text)), Store(s, key, text))
    ensures HandleLine(line, EagerSetRequest(key, text)).pool.tail == line.pool.tail
  {
    var i := Find(s.entries, key);
    var r := s.entries[i].body.region;
    TaintLists(s, line.pool, r);
    var k', s' := Taint(line.pool, r), Store(s, key, text);
    assert Lists(s', k') by {
      OnlyLists(s.(tainted := s.tainted + [r]), s', k');
    }
    forall j | 0 <= j < |s'.entries| && s'.entries[j].body.Large? ensures k'.next[s'.entries[j].body.region] == None {
      assert s'.entries[j] == s.entries[j];
      assert s.tainted != [] ==> line.pool.last.value in s.tainted;
    }
  }

  /** No region is held by two entries. */
  ghost predicate EntriesApart(es: seq<Entry>) {
    forall i, j :: 0 <= i < j < |es| && es[i].body.Large? && es[j].body.Large? ==>
      es[i].body.region != es[j].body.region
  }

  lemma OnlyLists(s: Server, t: Server, k: Pool)
    requires s.(entries := []) == t.(entries := [])
    ensures Lists(s, k) == Lists(t, k)
  {
    assert s.main == t.main && s.spare == t.spare && s.tainted == t.tainted && s.mem == t.mem && s.size == t.size;
  }

  lemma TakeStands(line: Line, s: Server, key: Bytes, valLen: nat)
    requires StandsFor(line, s) && ListsApart(s) && !HasRegion(s, key) && Free(s) != [] && s.size > 0 && LineOk(line)
    ensures line.pool.head.Some? && line.pool.size > 0
    ensures StandsFor(HandleLine(line, RndvSetRequest(key, valLen)), Reserve(s, key, valLen).0)
    ensures HandleLine(line, RndvSetRequest(key, valLen)).pool.tail == line.pool.tail
  {
    TakeLists(s, line.pool);
    var k', s' := Take(line.pool), Reserve(s, key, valLen).0;
    OnlyLists(TakeFirst(s), s', k');
    var r := Free(s)[0];
    assert r in Free(s);
    forall j | 0 <= j < |s'.entries| && s'.entries[j].body.Large?
      ensures s'.entries[j].body.region < |k'.next| && k'.next[s'.entries[j].body.region] == None
    {
      if j != Find(s.entries, key) { assert s'.entries[j] == s.entries[j]; }
    }
  }

  /** Handling a packet on pointers is handling it on lists, whether or not the tail is handed out. */
  lemma HandleStands(line: Line, s: Server, p: Packet)
    requires StandsFor(line, s) && OwnedOnce(s) && Ready(s, p)
    ensures LineOk(line) && (NeedsHead(line, p) ==> line.pool.head.Some? && line.pool.size > 0)
    ensures StandsFor(HandleLine(line, p), Handle(s, p).0) && HandleLine(line, p).pool.tail == line.pool.tail
    ensures LineReply(line, p) == Handle(s, p).1
  {
    StandsIsOk(line, s);
    ApartLists(s);
    Apart(s);
    match p
    case EagerSetRequest(key, text) =>
      if HasRegion(s, key) {
        TaintStands(line, s, key, text);
      } else {
        OnlyLists(s, Store(s, key, text), line.pool);
        assert Store(s, key, text).tainted == s.tainted;
      }
    case RndvSetRequest(key, valLen) =>
      if HasRegion(s, key) {
        OnlyLists(s, Reserve(s, key, valLen).0, line.pool);
      } else {
        TakeStands(line, s, key, valLen);
      }
    case _ =>
  }

  lemma TailStays(s: Server, k: Pool, p: Packet)
    requires TailListed(s, k) && Ready(s, p) && LeavesTail(s, p)
    ensures Last(Handle(s, p).0.main) == k.tail
  {
  }

  lemma HandleTidily(line: Line, s: Server, p: Packet)
    requires StandsTidily(line, s) && Inv(AsWritten, s) && Ready(s, p) && LeavesTail(s, p)
    ensures LineOk(line) && (NeedsHead(line, p) ==> line.pool.head.Some? && line.pool.size > 0)
    ensures StandsTidily(HandleLine(line, p), Handle(s, p).0)
  {
    HandleStands(line, s, p);
    TailStays(s, line.pool, p);
  }

  /** While the tail is free, upkeep of the pointers is upkeep of the lists, and what entries hold stays linked to
      nothing. */
  lemma UpkeepStandsFor(u: Upkeep, line: Line, s: Server)
    requires StandsTidily(line, s) && Inv(u, s)
    ensures var k' := FillUp(SpliceTimes(u, line.pool, |s.tainted|));
            StandsTidily(line.(pool := k'), MaintainPool(u, s))
  {
    UpkeepLists(u, s, line.pool);
    UpkeepKeepsLoose(u, s, line.pool);
    MaintainPoolKeepsInv(u, s);
  }

  lemma RegionPut(es: seq<Entry>, e: Entry, key: Bytes)
    ensures RegionFor(Put(es, e), key) ==
            if key != e.key then RegionFor(es, key) else if e.body.Large? then Some(e.body.region) else None
  {
    AtPut(es, e, key);
  }
}
