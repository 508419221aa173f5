/** One storage server on values: the entry list, the regions, and what each packet does to them.
    A region is named by the order in which it was registered, so `mem[r]` holds the bytes of region `r`. */
module ServerModel {
  import opened ByteStrings

  datatype Body = Small(text: Bytes) | Large(region: nat)
  datatype Entry = Entry(key: Bytes, valLen: nat, body: Body)

  /** How tainted regions are put back: as the source does it, or with the pool's tail advanced as well. */
  datatype Upkeep = AsWritten | Repaired

  /** The free list is `main + spare`; the pool's tail pointer names the last region of `main`.
      `size` is the server's own count of free regions. */
  datatype Server = Server(entries: seq<Entry>, main: seq<nat>, spare: seq<nat>, size: nat,
                           tainted: seq<nat>, mem: seq<Bytes>)

  datatype Packet =
    | EagerGetRequest(key: Bytes)
    | EagerSetRequest(key: Bytes, text: Bytes)
    | RndvGetRequest(key: Bytes)
    | RndvSetRequest(key: Bytes, valLen: nat)
    | CloseConnection

  datatype Reply =
    | NoReply
    | EagerGetResponse(text: Bytes)
    | MissingKeyResponse
    | RndvGetResponse(valLen: nat, region: nat)
    | RndvSetResponse(region: nat)

  const Empty := Server([], [], [], 0, [], [])

  /** The first entry with this key, as the list walk finds it; the list's length when there is none. */
  function Find(es: seq<Entry>, key: Bytes): (i: nat)
    ensures i <= |es|
    ensures i < |es| ==> es[i].key == key
    ensures forall j :: 0 <= j < i ==> es[j].key != key
  {
    if es == [] || es[0].key == key then 0 else 1 + Find(es[1..], key)
  }

  predicate HasRegion(s: Server, key: Bytes) {
    var i := Find(s.entries, key);
    i < |s.entries| && s.entries[i].body.Large?
  }

  /** The free list, from its head. */
  function Free(s: Server): seq<nat> {
    s.main + s.spare
  }

  /** The packets that take a region from the free list. */
  predicate NeedsRegion(s: Server, p: Packet) {
    p.RndvSetRequest? && !HasRegion(s, p.key)
  }

  /** A region is there when the packet needs one. */
  predicate Ready(s: Server, p: Packet) {
    NeedsRegion(s, p) ==> Free(s) != [] && s.size > 0
  }

  /** Handing out a region leaves the pool's tail on the free list. */
  predicate LeavesTail(s: Server, p: Packet) {
    NeedsRegion(s, p) ==> |s.main| >= 2
  }

  function Put(es: seq<Entry>, e: Entry): (r: seq<Entry>)
    ensures |r| == if Find(es, e.key) < |es| then |es| else |es| + 1
    ensures forall j :: 0 <= j < |r| ==> r[j] == if j == Find(es, e.key) then e else es[j]
  {
    var i := Find(es, e.key);
    if i < |es| then es[i := e] else es + [e]
  }

  function Lookup(s: Server, key: Bytes): Reply {
    LookupIn(s.entries, key)
  }

  function LookupIn(es: seq<Entry>, key: Bytes): Reply {
    var i := Find(es, key);
    if i == |es| then MissingKeyResponse
    else match es[i].body
      case Small(text) => EagerGetResponse(text)
      case Large(region) => RndvGetResponse(es[i].valLen, region)
  }

  function Store(s: Server, key: Bytes, text: Bytes): Server {
    var i := Find(s.entries, key);
    var t := if HasRegion(s, key) then [s.entries[i].body.region] else [];
    s.(entries := Put(s.entries, Entry(key, |text|, Small(text))), tainted := s.tainted + t)
  }

  /** The head of the free list is handed out. */
  function TakeFirst(s: Server): Server
    requires Free(s) != [] && s.size > 0
  {
    var s' := s.(size := s.size - 1);
    if s.main != [] then s'.(main := s.main[1..]) else s'.(spare := s.spare[1..])
  }

  function Reserve(s: Server, key: Bytes, valLen: nat): (Server, nat)
    requires HasRegion(s, key) || (Free(s) != [] && s.size > 0)
  {
    var i := Find(s.entries, key);
    if HasRegion(s, key) then
      (s.(entries := Put(s.entries, Entry(key, valLen, s.entries[i].body))), s.entries[i].body.region)
    else
      (TakeFirst(s).(entries := Put(s.entries, Entry(key, valLen, Large(Free(s)[0])))), Free(s)[0])
  }

  function Handle(s: Server, p: Packet): (Server, Reply)
    requires Ready(s, p)
  {
    match p
    case EagerGetRequest(key) => (s, Lookup(s, key))
    case EagerSetRequest(key, text) => (Store(s, key, text), NoReply)
    case RndvSetRequest(key, valLen) => var (s', r) := Reserve(s, key, valLen); (s', RndvSetResponse(r))
    case _ => (s, NoReply)
  }

  function Rewrite(mem: seq<Bytes>, r: nat, bytes: Bytes): (m: seq<Bytes>)
    ensures |m| == |mem|
    ensures forall i :: 0 <= i < |mem| ==> m[i] == if i == r then bytes else mem[i]
  {
    if r < |mem| then mem[r := bytes] else mem
  }

  /** One turn of the splice loop, for the first tainted region. */
  function Splice(u: Upkeep, s: Server): Server
    requires s.tainted != []
  {
    var r := s.tainted[0];
    var s' := s.(tainted := s.tainted[1..], size := s.size + 1, mem := Rewrite(s.mem, r, Zeroes(MAX_TEST_SIZE)));
    if s.main == [] then s'.(main := [r])
    else if u.AsWritten? then s'.(spare := [r])
    else s'.(main := s.main + [r])
  }

  function SpliceAll(u: Upkeep, s: Server): (s': Server)
    ensures |s'.mem| == |s.mem|
    decreases |s.tainted|
  {
    if s.tainted == [] then s else SpliceAll(u, Splice(u, s))
  }

  /** One turn of the fill loop: a new region goes behind the tail, whatever hung there before. */
  function Grow(s: Server): Server {
    s.(main := s.main + [|s.mem|], spare := [], size := s.size + 1, mem := s.mem + [Zeroes(MAX_TEST_SIZE)])
  }

  function Fill(s: Server): Server
    decreases MIN_POOL_NODES - s.size
  {
    if s.size < MIN_POOL_NODES then Fill(Grow(s)) else s
  }

  function MaintainPool(u: Upkeep, s: Server): Server {
    Fill(SpliceAll(u, s))
  }

  /** The bytes with these regions cleared. */
  function Cleared(mem: seq<Bytes>, ids: seq<nat>): (m: seq<Bytes>)
    ensures |m| == |mem|
  {
    seq(|mem|, r requires 0 <= r < |mem| => if r in ids then Zeroes(MAX_TEST_SIZE) else mem[r])
  }

  /** The bytes with new, cleared regions for a pool of `size` free ones. */
  function Filled(mem: seq<Bytes>, size: nat): seq<Bytes> {
    mem + NewBytes(if size < MIN_POOL_NODES then MIN_POOL_NODES - size else 0)
  }

  function NewBytes(n: nat): (m: seq<Bytes>)
    ensures |m| == n
  {
    seq(n, _ => Zeroes(MAX_TEST_SIZE))
  }

  /** The bytes after upkeep of a pool of `size` free regions, with these tainted. */
  function UpkeptBytes(mem: seq<Bytes>, tainted: seq<nat>, size: nat): seq<Bytes> {
    Filled(Cleared(mem, tainted), size + |tainted|)
  }

  /** Upkeep of a server whose pool has handed its tail out. The tail pointer stays behind on that region, so whatever
      is hung behind it, recycled or new, is cleared and counted and on no list that is ever walked. */
  function LentUpkeep(s: Server): Server {
    var size := s.size + |s.tainted|;
    s.(tainted := [], size := if size < MIN_POOL_NODES then MIN_POOL_NODES else size,
       mem := UpkeptBytes(s.mem, s.tainted, s.size))
  }

  // ---------- Who owns which region ----------

  function HeldBy(e: Entry): multiset<nat> {
    if e.body.Large? then multiset{e.body.region} else multiset{}
  }

  function Held(es: seq<Entry>): multiset<nat> {
    if es == [] then multiset{} else HeldBy(es[0]) + Held(es[1..])
  }

  function Owners(s: Server): multiset<nat> {
    multiset(s.main) + multiset(s.spare) + multiset(s.tainted) + Held(s.entries)
  }

  /** No region has two owners, and only registered regions have one. */
  ghost predicate OwnedOnce(s: Server) {
    forall r: nat :: Owners(s)[r] <= if r < |s.mem| then 1 else 0
  }

  /** Every region ever registered is in exactly one of the free list, the tainted list and an entry. */
  ghost predicate Conserved(s: Server) {
    forall r: nat :: Owners(s)[r] == if r < |s.mem| then 1 else 0
  }

  predicate EntryOk(e: Entry) {
    && NulFree(e.key)
    && (e.body.Small? ==> e.valLen == |e.body.text|)
  }

  /** Every region is counted free, tainted or held, and the free list is no longer than the count. */
  ghost predicate Counted(u: Upkeep, s: Server) {
    && |s.spare| <= 1
    && |s.mem| == s.size + |s.tainted| + |Held(s.entries)|
    && |s.main| + |s.spare| <= s.size
    && (u.Repaired? ==> s.spare == [] && s.size == |s.main|)
  }

  /** No region is held that the pool's tail pointer names: with no region up to the tail there is none at all. */
  ghost predicate TailFree(s: Server) {
    s.main == [] ==> s.size == 0 && s.spare == []
  }

  ghost predicate PoolOk(u: Upkeep, s: Server) {
    Counted(u, s) && TailFree(s)
  }

  ghost predicate Clean(s: Server) {
    forall r :: r in s.main + s.spare ==> 0 <= r < |s.mem| && s.mem[r] == Zeroes(MAX_TEST_SIZE)
  }

  ghost predicate EntriesOk(es: seq<Entry>) {
    && (forall i, j :: 0 <= i < j < |es| ==> es[i].key != es[j].key)
    && (forall i :: 0 <= i < |es| ==> EntryOk(es[i]))
  }

  ghost predicate RegionsSized(mem: seq<Bytes>) {
    forall r :: 0 <= r < |mem| ==> |mem[r]| == MAX_TEST_SIZE
  }

  /** What every packet keeps. */
  ghost predicate Sound(u: Upkeep, s: Server) {
    && EntriesOk(s.entries)
    && RegionsSized(s.mem)
    && OwnedOnce(s)
    && Counted(u, s)
    && Clean(s)
  }

  /** What upkeep keeps as well: the tail has not been handed out. */
  ghost predicate Inv(u: Upkeep, s: Server) {
    Sound(u, s) && TailFree(s)
  }

  // ---------- Lemmas on ownership ----------

  lemma {:induction false} HeldSplit(a: seq<Entry>, b: seq<Entry>)
    ensures Held(a + b) == Held(a) + Held(b)
  {
    if a == [] {
      assert a + b == b;
    } else {
      assert (a + b)[1..] == a[1..] + b;
      calc {
        Held(a + b);
        HeldBy(a[0]) + Held(a[1..] + b);
        { HeldSplit(a[1..], b); }
        HeldBy(a[0]) + (Held(a[1..]) + Held(b));
        Held(a) + Held(b);
      }
    }
  }

  lemma HeldAt(es: seq<Entry>, i: nat)
    requires i < |es|
    ensures Held(es) == Held(es[..i]) + HeldBy(es[i]) + Held(es[i+1..])
  {
    assert es == es[..i] + es[i..];
    HeldSplit(es[..i], es[i..]);
    assert es[i..][1..] == es[i+1..];
  }

  lemma Exchange(a: multiset<nat>, x: multiset<nat>, y: multiset<nat>, b: multiset<nat>)
    ensures a + x + b + y == a + y + b + x
  {
  }

  lemma HeldPut(es: seq<Entry>, e: Entry)
    ensures var i := Find(es, e.key);
            Held(Put(es, e)) + (if i < |es| then HeldBy(es[i]) else multiset{}) == Held(es) + HeldBy(e)
  {
    var i := Find(es, e.key);
    if i < |es| {
      var es' := Put(es, e);
      HeldAt(es, i);
      HeldAt(es', i);
      assert es'[..i] == es[..i] && es'[i+1..] == es[i+1..];
      Exchange(Held(es[..i]), HeldBy(e), HeldBy(es[i]), Held(es[i+1..]));
    } else {
      HeldSplit(es, [e]);
    }
  }

  lemma HeldMember(es: seq<Entry>, i: nat)
    requires i < |es| && es[i].body.Large?
    ensures es[i].body.region in Held(es)
  {
    HeldAt(es, i);
  }

  lemma HeldTwice(es: seq<Entry>, i: nat, j: nat)
    requires i < j < |es| && es[i].body.Large? && es[j].body == es[i].body
    ensures Held(es)[es[i].body.region] >= 2
  {
    HeldAt(es, i);
    assert es[i+1..][j-i-1] == es[j];
    HeldMember(es[i+1..], j - i - 1);
  }

  lemma SeqTwice(s: seq<nat>, i: nat, j: nat)
    requires i < j < |s| && s[i] == s[j]
    ensures multiset(s)[s[i]] >= 2
  {
    assert s == s[..j] + s[j..];
    assert s[i] in s[..j] && s[j] in s[j..];
  }

  predicate NoRepeat(s: seq<nat>) {
    forall i, j :: 0 <= i < j < |s| ==> s[i] != s[j]
  }

  /** What single ownership means place by place. */
  lemma Apart(s: Server)
    requires OwnedOnce(s)
    ensures NoRepeat(s.main + s.spare + s.tainted)
    ensures forall i :: 0 <= i < |s.main + s.spare + s.tainted| ==> (s.main + s.spare + s.tainted)[i] < |s.mem|
    ensures forall i :: 0 <= i < |s.entries| && s.entries[i].body.Large? ==>
              s.entries[i].body.region < |s.mem| && s.entries[i].body.region !in s.main + s.spare + s.tainted
    ensures forall i, j :: 0 <= i < j < |s.entries| && s.entries[i].body.Large? && s.entries[j].body.Large? ==>
              s.entries[i].body.region != s.entries[j].body.region
  {
    var pool: seq<nat> := s.main + s.spare + s.tainted;
    assert Owners(s) == multiset(pool) + Held(s.entries);
    forall i, j | 0 <= i < j < |pool| ensures pool[i] != pool[j] {
      assert multiset(pool)[pool[i]] <= Owners(s)[pool[i]] <= 1;
      if pool[i] == pool[j] { SeqTwice(pool, i, j); }
    }
    forall i | 0 <= i < |pool| ensures pool[i] < |s.mem| {
      assert pool[i] in multiset(pool);
      assert Owners(s)[pool[i]] >= 1;
    }
    forall i | 0 <= i < |s.entries| && s.entries[i].body.Large?
      ensures s.entries[i].body.region < |s.mem| && s.entries[i].body.region !in pool
    {
      var r := s.entries[i].body.region;
      HeldMember(s.entries, i);
      assert 1 <= Owners(s)[r] == multiset(pool)[r] + Held(s.entries)[r];
      assert r in pool ==> multiset(pool)[r] >= 1;
    }
    forall i, j | 0 <= i < j < |s.entries| && s.entries[i].body.Large? && s.entries[j].body.Large?
      ensures s.entries[i].body.region != s.entries[j].body.region
    {
      assert Held(s.entries)[s.entries[i].body.region] <= Owners(s)[s.entries[i].body.region] <= 1;
      if s.entries[i].body.region == s.entries[j].body.region { HeldTwice(s.entries, i, j); }
    }
  }

  /** The same, list by list. */
  ghost predicate ListsApart(s: Server) {
    && NoRepeat(s.main + s.spare) && NoRepeat(s.main) && NoRepeat(s.tainted)
    && (forall r :: r in s.main ==> r < |s.mem| && r !in s.tainted)
    && (forall r :: r in s.main + s.spare ==> r < |s.mem| && r !in s.tainted)
    && (forall r :: r in s.tainted ==> r < |s.mem| && r !in s.main + s.spare)
    && (forall i {:trigger s.entries[i]} :: 0 <= i < |s.entries| && s.entries[i].body.Large? ==>
          var r := s.entries[i].body.region; r < |s.mem| && r !in s.main + s.spare && r !in s.main && r !in s.tainted)
  }

  lemma ApartLists(s: Server)
    requires OwnedOnce(s)
    ensures ListsApart(s)
  {
    Apart(s);
    var free, all: seq<nat> := s.main + s.spare, s.main + s.spare + s.tainted;
    assert forall i :: 0 <= i < |free| ==> free[i] == all[i];
    assert forall i :: 0 <= i < |s.main| ==> s.main[i] == free[i];
    assert forall i :: 0 <= i < |s.tainted| ==> s.tainted[i] == all[|free| + i];
  }

  // ---------- The server as a map ----------

  /** The entry a key has on this server, if any. */
  function At(es: seq<Entry>, key: Bytes): Option<Entry> {
    var i := Find(es, key);
    if i < |es| then Some(es[i]) else None
  }

  lemma FindIsUnique(es: seq<Entry>, key: Bytes, i: nat)
    requires i < |es| && es[i].key == key && forall j :: 0 <= j < i ==> es[j].key != key
    ensures Find(es, key) == i
  {
  }

  lemma AtPut(es: seq<Entry>, e: Entry, key: Bytes)
    ensures At(Put(es, e), key) == if key == e.key then Some(e) else At(es, key)
  {
    var es' := Put(es, e);
    var i := Find(es, key);
    if key == e.key || i < |es| {
      FindIsUnique(es', key, i);
    } else {
      assert forall j :: 0 <= j < |es'| ==> es'[j].key != key;
    }
  }

  /** Every packet changes the entry of its own key and of no other. */
  lemma HandleTouchesOneKey(s: Server, p: Packet, key: Bytes)
    requires Ready(s, p)
    ensures Handle(s, p).0.mem == s.mem
    ensures At(Handle(s, p).0.entries, key) ==
            match p
            case EagerSetRequest(k, text) =>
              if key == k then Some(Entry(k, |text|, Small(text))) else At(s.entries, key)
            case RndvSetRequest(k, n) =>
              if key == k then Some(Entry(k, n, Large(Handle(s, p).1.region))) else At(s.entries, key)
            case _ => At(s.entries, key)
    ensures p.RndvSetRequest? ==>
              Handle(s, p).1.region ==
              if HasRegion(s, p.key) then At(s.entries, p.key).value.body.region else Free(s)[0]
  {
    match p
    case EagerSetRequest(k, text) =>
      AtPut(s.entries, Entry(k, |text|, Small(text)), key);
    case RndvSetRequest(k, n) =>
      AtPut(s.entries, Entry(k, n, Large(Handle(s, p).1.region)), key);
    case _ =>
  }

  /** What every packet is answered: a get by what the key's entry holds, a large set by the region that is its key's
      from then on, and any other packet not at all. */
  lemma HandleAnswers(s: Server, p: Packet)
    requires Ready(s, p)
    ensures var (s', reply) := Handle(s, p);
            match p
            case EagerGetRequest(key) =>
              reply == (match At(s.entries, key)
                        case None => MissingKeyResponse
                        case Some(Entry(_, _, Small(text))) => EagerGetResponse(text)
                        case Some(Entry(_, valLen, Large(r))) => RndvGetResponse(valLen, r))
            case RndvSetRequest(key, valLen) =>
              reply.RndvSetResponse? && At(s'.entries, key) == Some(Entry(key, valLen, Large(reply.region)))
            case _ => reply == NoReply
  {
    if p.RndvSetRequest? {
      HandleTouchesOneKey(s, p, p.key);
    }
  }

  // ---------- Every step keeps the invariant ----------

  lemma PutKeepsEntries(es: seq<Entry>, e: Entry)
    requires EntriesOk(es) && EntryOk(e)
    ensures EntriesOk(Put(es, e))
  {
  }

  lemma StoreKeepsOwners(s: Server, key: Bytes, text: Bytes)
    ensures Owners(Store(s, key, text)) == Owners(s)
  {
    var e := Entry(key, |text|, Small(text));
    var i := Find(s.entries, key);
    var freed := if i < |s.entries| then HeldBy(s.entries[i]) else multiset{};
    HeldPut(s.entries, e);
    assert Held(Put(s.entries, e)) + freed == Held(s.entries);
    assert multiset(Store(s, key, text).tainted) == multiset(s.tainted) + freed;
  }

  lemma Cancel(a: multiset<nat>, b: multiset<nat>, c: multiset<nat>)
    requires a + c == b + c
    ensures a == b
  {
    assert a == (a + c) - c;
    assert b == (b + c) - c;
  }

  lemma ReserveAgainKeepsOwners(s: Server, key: Bytes, n: nat)
    requires HasRegion(s, key)
    ensures Owners(Reserve(s, key, n).0) == Owners(s)
  {
    var e := Entry(key, n, s.entries[Find(s.entries, key)].body);
    HeldPut(s.entries, e);
    Cancel(Held(Put(s.entries, e)), Held(s.entries), HeldBy(e));
  }

  lemma TakeFirstKeepsFree(s: Server)
    requires Free(s) != [] && s.size > 0
    ensures Free(TakeFirst(s)) == Free(s)[1..]
  {
  }

  lemma ReserveNewKeepsOwners(s: Server, key: Bytes, n: nat)
    requires !HasRegion(s, key) && Free(s) != [] && s.size > 0
    ensures Owners(Reserve(s, key, n).0) == Owners(s)
  {
    var e, s' := Entry(key, n, Large(Free(s)[0])), Reserve(s, key, n).0;
    HeldPut(s.entries, e);
    TakeFirstKeepsFree(s);
    OwnersOf(s);
    OwnersOf(s');
    assert Free(s') == Free(s)[1..] && Held(s'.entries) == Held(s.entries) + multiset{Free(s)[0]};
    MoveFront(Free(s), multiset(s.tainted), Held(s.entries));
  }

  lemma OwnersOf(s: Server)
    ensures Owners(s) == multiset(Free(s)) + multiset(s.tainted) + Held(s.entries)
  {
  }

  lemma MoveFront(free: seq<nat>, tainted: multiset<nat>, held: multiset<nat>)
    requires free != []
    ensures multiset(free[1..]) + tainted + (held + multiset{free[0]}) == multiset(free) + tainted + held
  {
    assert free == [free[0]] + free[1..];
  }

  lemma HandleKeepsOwners(s: Server, p: Packet)
    requires Ready(s, p)
    ensures Owners(Handle(s, p).0) == Owners(s)
  {
    match p
    case EagerSetRequest(k, text) =>
      StoreKeepsOwners(s, k, text);
    case RndvSetRequest(k, n) =>
      if HasRegion(s, k) { ReserveAgainKeepsOwners(s, k, n); } else { ReserveNewKeepsOwners(s, k, n); }
    case _ =>
  }

  lemma HandleKeepsEntries(s: Server, p: Packet)
    requires Ready(s, p)
    requires EntriesOk(s.entries) && (!p.CloseConnection? ==> NulFree(p.key))
    ensures EntriesOk(Handle(s, p).0.entries)
  {
    match p
    case EagerSetRequest(k, text) =>
      PutKeepsEntries(s.entries, Entry(k, |text|, Small(text)));
    case RndvSetRequest(k, n) =>
      PutKeepsEntries(s.entries, Entry(k, n, Large(Handle(s, p).1.region)));
    case _ =>
  }

  lemma HandleKeepsOwnedOnce(s: Server, p: Packet)
    requires OwnedOnce(s) && Ready(s, p)
    ensures OwnedOnce(Handle(s, p).0)
  {
    HandleKeepsOwners(s, p);
  }

  lemma HandleKeepsClean(s: Server, p: Packet)
    requires Clean(s) && Ready(s, p)
    ensures Clean(Handle(s, p).0)
  {
    var s' := Handle(s, p).0;
    assert forall r :: r in s'.main + s'.spare ==> r in s.main + s.spare;
  }

  lemma OwnersCount(s: Server)
    ensures |Owners(s)| == |s.main| + |s.spare| + |s.tainted| + |Held(s.entries)|
  {
  }

  lemma HandleKeepsCounted(u: Upkeep, s: Server, p: Packet)
    requires Counted(u, s) && Ready(s, p)
    ensures Counted(u, Handle(s, p).0)
    ensures TailFree(s) && LeavesTail(s, p) ==> TailFree(Handle(s, p).0)
  {
    HandleKeepsOwners(s, p);
    OwnersCount(s);
    OwnersCount(Handle(s, p).0);
    HandleTakes(s, p);
  }

  /** A packet takes at most the head of the free list, and counts it. */
  lemma HandleTakes(s: Server, p: Packet)
    requires Ready(s, p)
    ensures var s' := Handle(s, p).0;
            && s'.mem == s.mem && s'.size - |s'.main| - |s'.spare| == s.size - |s.main| - |s.spare|
            && s'.size == (if NeedsRegion(s, p) then s.size - 1 else s.size)
            && |s'.main| == (if NeedsRegion(s, p) && s.main != [] then |s.main| - 1 else |s.main|)
            && |s'.spare| <= |s.spare|
  {
  }

  lemma HandleKeepsSound(u: Upkeep, s: Server, p: Packet)
    requires Sound(u, s) && Ready(s, p) && PacketOk(p)
    ensures Sound(u, Handle(s, p).0)
    ensures TailFree(s) && LeavesTail(s, p) ==> TailFree(Handle(s, p).0)
  {
    HandleKeepsEntries(s, p);
    HandleKeepsCounted(u, s, p);
    HandleKeepsOwnedOnce(s, p);
    HandleKeepsClean(s, p);
  }

  /** While the tail is free a request always finds a region; the tail itself is the last that is handed out. */
  lemma TailFreeIsReady(u: Upkeep, s: Server, p: Packet)
    requires Counted(u, s) && s.main != []
    ensures Ready(s, p)
  {
  }

  lemma SpliceKeepsClean(u: Upkeep, s: Server)
    requires s.tainted != [] && s.tainted[0] < |s.mem| && Clean(s)
    ensures Clean(Splice(u, s))
  {
    var s' := Splice(u, s);
    forall x | x in s'.main + s'.spare ensures 0 <= x < |s'.mem| && s'.mem[x] == Zeroes(MAX_TEST_SIZE) {
      assert x == s.tainted[0] || x in s.main + s.spare;
    }
  }

  lemma SpliceKeepsOwnedOnce(u: Upkeep, s: Server)
    requires s.tainted != [] && s.tainted[0] < |s.mem| && OwnedOnce(s)
    requires s.main == [] ==> s.spare == []
    requires u.Repaired? ==> s.spare == []
    ensures OwnedOnce(Splice(u, s))
  {
    SpliceDropsSpare(u, s);
    forall x: nat ensures Owners(Splice(u, s))[x] <= if x < |s.mem| then 1 else 0 {
      assert Owners(Splice(u, s))[x] <= Owners(s)[x];
    }
  }

  /** The region behind the tail, if there is one, is all that a turn can lose. */
  lemma SpliceDropsSpare(u: Upkeep, s: Server)
    requires s.tainted != [] && (s.main == [] ==> s.spare == []) && (u.Repaired? ==> s.spare == [])
    ensures Owners(Splice(u, s)) + multiset(s.spare) == Owners(s)
  {
    assert s.tainted == [s.tainted[0]] + s.tainted[1..];
  }

  lemma SpliceKeepsPoolOk(u: Upkeep, s: Server)
    requires s.tainted != [] && s.tainted[0] < |s.mem| && PoolOk(u, s)
    ensures PoolOk(u, Splice(u, s))
  {
  }

  lemma SpliceKeepsInv(u: Upkeep, s: Server)
    requires Inv(u, s) && s.tainted != []
    ensures Inv(u, Splice(u, s))
  {
    TaintedAreRegions(u, s);
    SpliceKeepsPoolOk(u, s);
    SpliceKeepsOwnedOnce(u, s);
    SpliceKeepsClean(u, s);
  }

  lemma GrowKeepsOwnedOnce(s: Server)
    requires OwnedOnce(s)
    ensures OwnedOnce(Grow(s))
  {
    var s', added: nat := Grow(s), |s.mem|;
    assert Owners(s') + multiset(s.spare) == Owners(s) + multiset{added};
    forall x: nat ensures Owners(s')[x] <= if x < |s'.mem| then 1 else 0 {
      assert Owners(s')[x] <= Owners(s)[x] + multiset{added}[x];
    }
  }

  lemma GrowKeepsClean(s: Server)
    requires Clean(s)
    ensures Clean(Grow(s))
  {
    var s' := Grow(s);
    forall x | x in s'.main + s'.spare ensures 0 <= x < |s'.mem| && s'.mem[x] == Zeroes(MAX_TEST_SIZE) {
      assert x == |s.mem| || x in s.main + s.spare;
    }
  }

  lemma GrowKeepsInv(u: Upkeep, s: Server)
    requires Inv(u, s)
    ensures Inv(u, Grow(s))
  {
    GrowKeepsOwnedOnce(s);
    GrowKeepsClean(s);
  }

  lemma TaintedAreRegions(u: Upkeep, s: Server)
    requires Inv(u, s)
    ensures forall i :: 0 <= i < |s.tainted| ==> s.tainted[i] < |s.mem|
  {
    Apart(s);
    var pool: seq<nat> := s.main + s.spare + s.tainted;
    forall i | 0 <= i < |s.tainted| ensures s.tainted[i] < |s.mem| {
      assert pool[|s.main + s.spare| + i] == s.tainted[i];
    }
  }

  /** What hangs behind the tail once every tainted region has been spliced, were none of them dropped. */
  function Hanging(s: Server): nat {
    |s.spare| + if s.main == [] && s.tainted != [] then |s.tainted| - 1 else |s.tainted|
  }

  lemma {:induction false} SpliceAllShape(u: Upkeep, s: Server)
    requires |s.spare| <= 1 && (s.main == [] ==> s.spare == [])
    ensures var s' := SpliceAll(u, s);
            && s'.tainted == [] && s'.entries == s.entries
            && s'.size == s.size + |s.tainted|
            && (forall r :: 0 <= r < |s.mem| && r !in s.tainted ==> s'.mem[r] == s.mem[r])
            && (s.tainted != [] ==> s'.main != [])
            && (u.AsWritten? ==> |s'.spare| == if Hanging(s) > 0 then 1 else 0)
            && (u.AsWritten? && s.main != [] ==> s'.main == s.main)
            && (u.AsWritten? && s.main == [] && s.tainted != [] ==> |s'.main| == 1)
    decreases |s.tainted|
  {
    if s.tainted != [] {
      SpliceAllShape(u, Splice(u, s));
      assert forall r :: r !in s.tainted ==> r !in Splice(u, s).tainted;
    }
  }

  lemma {:induction false} SpliceAllKeepsInv(u: Upkeep, s: Server)
    requires Inv(u, s)
    ensures Inv(u, SpliceAll(u, s))
    decreases |s.tainted|
  {
    TaintedAreRegions(u, s);
    if s.tainted != [] {
      SpliceKeepsInv(u, s);
      SpliceAllKeepsInv(u, Splice(u, s));
    }
  }

  lemma {:induction false} FillShape(s: Server)
    ensures var s' := Fill(s);
            && s'.tainted == s.tainted && s'.entries == s.entries
            && |s.mem| <= |s'.mem| && (forall r :: 0 <= r < |s.mem| ==> s'.mem[r] == s.mem[r])
            && s'.size == (if s.size < MIN_POOL_NODES then MIN_POOL_NODES else s.size)
            && |s'.main| - s'.size == |s.main| - s.size
            && s'.spare == (if s.size < MIN_POOL_NODES then [] else s.spare)
    decreases MIN_POOL_NODES - s.size
  {
    if s.size < MIN_POOL_NODES {
      FillShape(Grow(s));
    }
  }

  lemma {:induction false} FillKeepsInv(u: Upkeep, s: Server)
    requires Inv(u, s)
    ensures Inv(u, Fill(s))
    decreases MIN_POOL_NODES - s.size
  {
    if s.size < MIN_POOL_NODES {
      GrowKeepsInv(u, s);
      FillKeepsInv(u, Grow(s));
    }
  }

  /** Upkeep keeps the invariant, leaves no tainted region and at least ten counted ones, touches no entry, and
      clears nothing but what was tainted. In the repaired form all counted regions can be handed out; as written,
      each recycled region widens the gap between the count and what can be handed out by one, for good. */
  lemma MaintainPoolKeepsInv(u: Upkeep, s: Server)
    requires Inv(u, s)
    ensures var s' := MaintainPool(u, s);
            && Inv(u, s') && s'.tainted == [] && s'.entries == s.entries
            && |s.mem| <= |s'.mem|
            && (forall r :: 0 <= r < |s.mem| && r !in s.tainted ==> s'.mem[r] == s.mem[r])
            && s'.size >= MIN_POOL_NODES
            && s'.size == (if s.size + |s.tainted| < MIN_POOL_NODES then MIN_POOL_NODES else s.size + |s.tainted|)
            && (u.Repaired? ==> |s'.main| == s'.size)
            && (u.AsWritten? && s.main != [] ==> s'.size - |s'.main| == s.size - |s.main| + |s.tainted|)
  {
    SpliceAllKeepsInv(u, s);
    SpliceAllShape(u, s);
    FillKeepsInv(u, SpliceAll(u, s));
    FillShape(SpliceAll(u, s));
  }

  lemma {:induction false} SpliceAllClears(u: Upkeep, s: Server)
    requires forall i :: 0 <= i < |s.tainted| ==> s.tainted[i] < |s.mem|
    ensures SpliceAll(u, s).mem == Cleared(s.mem, s.tainted)
    decreases |s.tainted|
  {
    if s.tainted != [] {
      SpliceAllClears(u, Splice(u, s));
      assert s.tainted == [s.tainted[0]] + s.tainted[1..];
    }
  }

  lemma {:induction false} FillFills(s: Server)
    ensures Fill(s).mem == Filled(s.mem, s.size)
    decreases MIN_POOL_NODES - s.size
  {
    if s.size < MIN_POOL_NODES {
      FillFills(Grow(s));
    }
  }

  lemma UpkeepBytes(u: Upkeep, s: Server)
    requires |s.spare| <= 1 && (s.main == [] ==> s.spare == [])
    requires forall i :: 0 <= i < |s.tainted| ==> s.tainted[i] < |s.mem|
    ensures MaintainPool(u, s).mem == UpkeptBytes(s.mem, s.tainted, s.size)
  {
    SpliceAllClears(u, s);
    SpliceAllShape(u, s);
    FillFills(SpliceAll(u, s));
  }

  /** What upkeep keeps when the tail has been handed out: entries, the free list, and the bytes of what is not
      tainted. */
  lemma LentUpkeepKeepsSound(s: Server)
    requires Sound(AsWritten, s)
    ensures var s' := LentUpkeep(s);
            && Sound(AsWritten, s') && s'.tainted == [] && s'.entries == s.entries
            && s'.main == s.main && s'.spare == s.spare && s'.size >= MIN_POOL_NODES && |s.mem| <= |s'.mem|
            && forall r :: 0 <= r < |s.mem| && r !in s.tainted ==> s'.mem[r] == s.mem[r]
  {
    var s' := LentUpkeep(s);
    ApartLists(s);
    assert Owners(s) == Owners(s') + multiset(s.tainted);
    forall r: nat ensures Owners(s')[r] <= if r < |s'.mem| then 1 else 0 {
      assert Owners(s')[r] <= Owners(s)[r];
    }
  }

  lemma WriteKeepsSound(u: Upkeep, s: Server, r: nat, bytes: Bytes)
    requires Sound(u, s) && r < |s.mem| && |bytes| == MAX_TEST_SIZE && r !in s.main + s.spare
    ensures Sound(u, s.(mem := s.mem[r := bytes]))
  {
    assert Owners(s.(mem := s.mem[r := bytes])) == Owners(s);
  }

  // ---------- Batches of completions ----------

  datatype Completion = SendDone | Received(packet: Packet)

  predicate Closes(wcs: seq<Completion>) {
    Received(CloseConnection) in wcs
  }

  /** The completions handled before a close packet, if there is one. */
  function BeforeClose(wcs: seq<Completion>): (r: seq<Completion>)
    ensures r <= wcs && !Closes(r)
    ensures r == wcs || (|r| < |wcs| && wcs[|r|] == Received(CloseConnection))
  {
    if wcs == [] || wcs[0] == Received(CloseConnection) then [] else [wcs[0]] + BeforeClose(wcs[1..])
  }

  predicate PacketOk(p: Packet) {
    !p.CloseConnection? ==> NulFree(p.key)
  }

  /** What one poll of the completion queue can yield while the connection is open. */
  predicate OrdinaryBatch(wcs: seq<Completion>) {
    |wcs| <= 2 && !Closes(wcs) && forall i :: 0 <= i < |wcs| && wcs[i].Received? ==> PacketOk(wcs[i].packet)
  }

  /** The packets of a batch, handled in order, and their replies. */
  function HandleAll(s: Server, wcs: seq<Completion>): (Server, seq<Reply>)
    requires BatchReady(s, wcs)
    decreases |wcs|
  {
    if wcs == [] then (s, [])
    else match wcs[0]
      case SendDone => HandleAll(s, wcs[1..])
      case Received(p) =>
        var (s1, reply) := Handle(s, p);
        var (s2, replies) := HandleAll(s1, wcs[1..]);
        (s2, [reply] + replies)
  }

  /** Every region the batch asks for is there. */
  predicate BatchReady(s: Server, wcs: seq<Completion>)
    decreases |wcs|
  {
    wcs == [] ||
    match wcs[0]
    case SendDone => BatchReady(s, wcs[1..])
    case Received(p) => Ready(s, p) && BatchReady(Handle(s, p).0, wcs[1..])
  }

  /** A batch is handled completion by completion: the second half goes on from where the first has led, and its replies
      come after. */
  lemma {:induction false} HandleAllSplit(s: Server, a: seq<Completion>, b: seq<Completion>)
    requires BatchReady(s, a + b)
    ensures BatchReady(s, a) && BatchReady(HandleAll(s, a).0, b)
    ensures HandleAll(s, a + b) ==
            (HandleAll(HandleAll(s, a).0, b).0, HandleAll(s, a).1 + HandleAll(HandleAll(s, a).0, b).1)
    decreases |a|
  {
    if a == [] {
      assert a + b == b && HandleAll(s, a) == (s, []);
      assert [] + HandleAll(s, b).1 == HandleAll(s, b).1;
    } else {
      assert (a + b)[0] == a[0] && (a + b)[1..] == a[1..] + b;
      if a[0].Received? {
        var (s1, reply) := Handle(s, a[0].packet);
        HandleAllSplit(s1, a[1..], b);
        var (s2, replies) := HandleAll(s1, a[1..]);
        var (s3, more) := HandleAll(s2, b);
        assert HandleAll(s1, a[1..] + b) == (s3, replies + more);
        assert HandleAll(s, a + b) == (s3, [reply] + (replies + more)) && HandleAll(s, a) == (s2, [reply] + replies);
        assert [reply] + (replies + more) == ([reply] + replies) + more;
      } else {
        HandleAllSplit(s, a[1..], b);
      }
    }
  }

  /** A batch of one. */
  lemma HandleAllOne(s: Server, wc: Completion)
    requires BatchReady(s, [wc])
    ensures match wc
            case SendDone => HandleAll(s, [wc]) == (s, [])
            case Received(p) => Ready(s, p) && HandleAll(s, [wc]) == (Handle(s, p).0, [Handle(s, p).1])
  {
    assert [wc][1..] == [] && HandleAll(s, []) == (s, []);
    if wc.Received? {
      var (s1, reply) := Handle(s, wc.packet);
      assert HandleAll(s1, []) == (s1, []) && [reply] + [] == [reply];
    }
  }

  /** No packet of the batch is handed the pool's tail. */
  predicate BatchLeavesTail(s: Server, wcs: seq<Completion>)
    requires BatchReady(s, wcs)
    decreases |wcs|
  {
    wcs == [] ||
    match wcs[0]
    case SendDone => BatchLeavesTail(s, wcs[1..])
    case Received(p) => LeavesTail(s, p) && BatchLeavesTail(Handle(s, p).0, wcs[1..])
  }

  /** The repaired pool never runs out within a batch: each packet takes at most one region. */
  lemma {:induction false} BatchIsReady(s: Server, wcs: seq<Completion>)
    requires Inv(Repaired, s) && |s.main| > |wcs|
    requires forall i :: 0 <= i < |wcs| && wcs[i].Received? ==> PacketOk(wcs[i].packet)
    ensures BatchReady(s, wcs) && BatchLeavesTail(s, wcs) && Inv(Repaired, HandleAll(s, wcs).0)
    ensures |HandleAll(s, wcs).0.main| >= |s.main| - |wcs|
    decreases |wcs|
  {
    if wcs != [] {
      if wcs[0].Received? {
        OnePacketTakesOne(s, wcs[0].packet);
        BatchIsReady(Handle(s, wcs[0].packet).0, wcs[1..]);
      } else {
        BatchIsReady(s, wcs[1..]);
      }
    }
  }

  lemma OnePacketTakesOne(s: Server, p: Packet)
    requires Inv(Repaired, s) && |s.main| > 1 && PacketOk(p)
    ensures Ready(s, p) && LeavesTail(s, p)
    ensures Inv(Repaired, Handle(s, p).0) && |Handle(s, p).0.main| >= |s.main| - 1
  {
    HandleKeepsSound(Repaired, s, p);
  }

  // ---------- Shutdown ----------

  function RegionOf(e: Entry): seq<nat> {
    if e.body.Large? then [e.body.region] else []
  }

  function RegionSeq(es: seq<Entry>): seq<nat> {
    if es == [] then [] else RegionOf(es[0]) + RegionSeq(es[1..])
  }

  /** Every region the server can reach, in the order shutdown gives them back. */
  function Reachable(s: Server): seq<nat> {
    s.main + s.spare + s.tainted + RegionSeq(s.entries)
  }

  lemma {:induction false} RegionSeqIsHeld(es: seq<Entry>)
    ensures multiset(RegionSeq(es)) == Held(es)
  {
    if es != [] {
      RegionSeqIsHeld(es[1..]);
      assert multiset(RegionOf(es[0])) == HeldBy(es[0]);
    }
  }

  /** The regions shutdown walks are those on the lists and in entries, the free ones first and then the tainted. */
  lemma ReachableIsOwned(s: Server)
    ensures multiset(Reachable(s)) == Owners(s) && s.main + s.spare + s.tainted <= Reachable(s)
  {
    RegionSeqIsHeld(s.entries);
  }

  lemma {:induction false} RegionSeqSplit(a: seq<Entry>, b: seq<Entry>)
    ensures RegionSeq(a + b) == RegionSeq(a) + RegionSeq(b)
  {
    if a == [] {
      assert a + b == b;
    } else {
      RegionSeqSplit(a[1..], b);
      assert (a + b)[1..] == a[1..] + b && (a + b)[0] == a[0];
    }
  }

  lemma EmptyIsInv(u: Upkeep)
    ensures Inv(u, Empty)
  {
    assert Owners(Empty) == multiset{};
  }

  // ---------- Conservation ----------

  /** Regions counted as free that no list reaches any more. */
  function Leaked(s: Server): int {
    s.size - |s.main| - |s.spare|
  }

  lemma {:induction false} FullMultiset(m: multiset<nat>, n: nat)
    requires forall r: nat :: m[r] <= if r < n then 1 else 0
    ensures |m| <= n
    ensures |m| == n <==> forall r: nat :: m[r] == if r < n then 1 else 0
    decreases n
  {
    if n == 0 {
      assert m == multiset{};
    } else {
      var k: nat := n - 1;
      var m' := m - multiset{k};
      FullMultiset(m', k);
      assert m == if m[k] == 1 then m' + multiset{k} else m';
      assert m[k] == 1 && (forall r: nat :: m'[r] == if r < k then 1 else 0) ==>
          forall r: nat :: m[r] == if r < n then 1 else 0 by {
        forall r: nat | m[k] == 1 && forall r: nat :: m'[r] == if r < k then 1 else 0
          ensures m[r] == if r < n then 1 else 0 {
          assert m'[r] == if r < k then 1 else 0;
        }
      }
    }
  }

  /** No region is lost exactly when the server's count of free regions is the length of its free list. */
  lemma ConservedIffCountIsExact(u: Upkeep, s: Server)
    requires Inv(u, s)
    ensures Leaked(s) >= 0
    ensures |s.mem| == |Owners(s)| + Leaked(s)
    ensures Conserved(s) <==> s.size == |s.main| + |s.spare|
  {
    FullMultiset(Owners(s), |s.mem|);
    OwnersCount(s);
  }

  /** In the repaired form nothing is ever lost. */
  lemma RepairedConserves(s: Server)
    requires Inv(Repaired, s)
    ensures Conserved(s)
  {
    ConservedIffCountIsExact(Repaired, s);
  }

  /** Exactly how many regions one run of the source's upkeep loses: all that hang behind the tail but the last,
      and the last one too when the fill loop has to run. */
  lemma LeakPerUpkeep(s: Server)
    requires Inv(AsWritten, s)
    ensures Leaked(MaintainPool(AsWritten, s)) - Leaked(s) ==
            if s.size + |s.tainted| < MIN_POOL_NODES || Hanging(s) == 0 then Hanging(s) else Hanging(s) - 1
  {
    SpliceAllKeepsInv(AsWritten, s);
    SpliceAllShape(AsWritten, s);
    FillShape(SpliceAll(AsWritten, s));
  }

  /** The guard under which the source's upkeep loses nothing. */
  predicate UpkeepSafe(s: Server) {
    Hanging(s) == 0 || (Hanging(s) == 1 && s.size + |s.tainted| >= MIN_POOL_NODES)
  }

  lemma UpkeepConservesIff(s: Server)
    requires Inv(AsWritten, s) && Conserved(s)
    ensures Conserved(MaintainPool(AsWritten, s)) <==> UpkeepSafe(s)
  {
    LeakPerUpkeep(s);
    MaintainPoolKeepsInv(AsWritten, s);
    ConservedIffCountIsExact(AsWritten, s);
    ConservedIffCountIsExact(AsWritten, MaintainPool(AsWritten, s));
  }
}
