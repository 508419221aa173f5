/** The client: the one-entry address cache and the paths of set and get, as methods that change the cache and reach
    the servers. `ledger` is the abstract store the whole system stands for. */
module KvClient {
  import opened ByteStrings
  import opened L = StoreLedger
  import opened KvNode
  import opened KvSystem
  import ServerModel
  import KeyHash
  import Wire

  class KvClient {
    var lastRndvAccessedKey: Bytes
    var lastAccessedKeyValLength: nat
    var lastAccessedServerAddr: Option<nat>   // address and remote key together name a region
    var nodes: seq<Node>
    var near: Bytes                           // the client's buffer for the indexer
    var far: Bytes                            // the indexer's buffer
    const upkeep: Upkeep
    ghost var ledger: Ledger

    ghost function State(): System
      reads this
    {
      System(Cache(lastRndvAccessedKey, lastAccessedKeyValLength, lastAccessedServerAddr), nodes)
    }

    ghost predicate Valid()
      reads this
    {
      && Refines(upkeep, State(), ledger) && |nodes| < KeyHash.HALF
      && |near| == |far| == EAGER_PROTOCOL_LIMIT
    }

    constructor (upkeep: Upkeep, numServers: nat)
      requires 0 < numServers < KeyHash.HALF
      ensures Valid() && Intact(nodes) && ledger == Fresh && |nodes| == numServers && this.upkeep == upkeep
    {
      this.upkeep := upkeep;
      lastRndvAccessedKey, lastAccessedKeyValLength, lastAccessedServerAddr := [], 0, None;
      nodes := seq(numServers, _ => NewNode(upkeep));
      near, far := Zeroes(EAGER_PROTOCOL_LIMIT), Zeroes(EAGER_PROTOCOL_LIMIT);
      ledger := Fresh;
      new;
      OpenRefines(upkeep, State(), numServers);
    }

    /** A direct write to the cached address. */
    method WriteCached(i: nat, text: Bytes) returns (out: Outcome)
      requires i < |nodes|
      modifies this`nodes
      ensures (State(), out) == Write(old(State()), i, text)
    {
      match DirectWrite(nodes[i], lastAccessedServerAddr, text + [0])
      case Some(n) =>
        nodes := nodes[i := n];
        out := Done;
      case None =>
        out := Faulted;
    }

    method KvSet(i: nat, key: Bytes, text: Bytes) returns (out: Outcome)
      requires i < |nodes|
      modifies this`nodes, this`lastRndvAccessedKey, this`lastAccessedKeyValLength, this`lastAccessedServerAddr
      ensures (State(), out) == KvSystem.KvSet(upkeep, old(State()), i, key, text)
    {
      if |key| + |text| + PACKET_SIZE + 2 < EAGER_PROTOCOL_LIMIT {
        if !CanPost(upkeep, nodes[i]) {
          return Blocked;
        }
        if key == lastRndvAccessedKey {
          lastRndvAccessedKey := [];
          lastAccessedKeyValLength := 0;
        }
        nodes := nodes[i := PostEagerSet(upkeep, nodes[i], key, text)];
        return Done;
      }
      if key == lastRndvAccessedKey {
        lastAccessedKeyValLength := |text|;
        out := WriteCached(i, text);
        return;
      }
      var p := ServerModel.RndvSetRequest(key, |text| + 1);
      if !CanAsk(upkeep, nodes[i]) {
        return Blocked;
      }
      if !CanRequest(upkeep, nodes[i], p) {
        return Crashed;
      }
      var (n, reply) := Request(upkeep, nodes[i], p);
      nodes := nodes[i := n];
      lastRndvAccessedKey := key;
      lastAccessedKeyValLength := |text|;
      lastAccessedServerAddr := Some(reply.region);
      out := WriteCached(i, text);
    }

    method KvGet(i: nat, key: Bytes, stale: Wire.Stale) returns (out: Outcome)
      requires i < |nodes| && NulFree(key) && Wire.BufferSized(stale)
      modifies this`nodes, this`lastRndvAccessedKey, this`lastAccessedKeyValLength, this`lastAccessedServerAddr
      ensures (State(), out) == KvSystem.KvGet(upkeep, old(State()), i, key, stale)
    {
      if |key| + 1 + PACKET_SIZE > EAGER_PROTOCOL_LIMIT {
        return Refused;
      }
      if key == lastRndvAccessedKey {
        match DirectRead(nodes[i], lastAccessedServerAddr, lastAccessedKeyValLength)
        case Some(bytes) => return ReadText(bytes + [0]);
        case None => return Faulted;
      }
      if !CanAsk(upkeep, nodes[i]) {
        return Blocked;
      }
      var (n, reply) := Request(upkeep, nodes[i], ServerModel.EagerGetRequest(key));
      nodes := nodes[i := n];
      match reply
      case EagerGetResponse(text) => out := ReadText(text + [0]);
      case MissingKeyResponse => out := MissOutcome(stale, key);
      case RndvGetResponse(len, region) =>
        lastRndvAccessedKey := key;
        lastAccessedKeyValLength := len;
        lastAccessedServerAddr := Some(region);
        match DirectRead(n, Some(region), len + 1) {
          case Some(buf) => out := ReadText(buf);
          case None => out := Faulted;
        }
      case _ => out := Faulted;
    }

    /** The client writes a FIND packet into its buffer; it arrives in the indexer's. */
    method AskIndexer(key: Bytes)
      requires NulFree(key) && FindFits(key) && |nodes| < KeyHash.HALF && |near| == |far| == EAGER_PROTOCOL_LIMIT
      modifies this`near, this`far
      ensures |near| == |far| == EAGER_PROTOCOL_LIMIT
      ensures Wire.Get32(far, 8) == |nodes| && Wire.StringAt(far, 12) == key && StrLen(far[12..]) < |far| - 12
    {
      var find := Wire.Find(|nodes|, key);
      Wire.FindArrives(far, near, |nodes|, key);
      near := Wire.Encode(near, find);
      far := Wire.Deliver(far, near, Wire.Size(find));
    }

    /** The indexer reads its buffer and answers there; the answer arrives in the client's. */
    method AnswerFind(ghost key: Bytes)
      requires 0 < |nodes| < KeyHash.HALF && |near| == |far| == EAGER_PROTOCOL_LIMIT
      requires Wire.Get32(far, 8) == |nodes| && Wire.StringAt(far, 12) == key && StrLen(far[12..]) < |far| - 12
      modifies this`near, this`far
      ensures |near| == |far| == EAGER_PROTOCOL_LIMIT && Wire.Get32(near, 8) == KeyHash.ShardOf(key, |nodes|)
    {
      var packet := new byte[EAGER_PROTOCOL_LIMIT](k requires 0 <= k < |far| reads this => far[k]);
      assert packet[..] == far && packet[12..] == far[12..];
      var selected := KeyHash.SelectServer(packet);
      Wire.LocationArrives(near, far, selected);
      far := Wire.Encode(far, Wire.Location(selected));
      near := Wire.Deliver(near, far, Wire.Size(Wire.Location(selected)));
    }

    /** The indexer's answer for a key, as the client finds it in its buffer. */
    method FindServer(key: Bytes) returns (i: nat)
      requires NulFree(key) && FindFits(key) && 0 < |nodes| < KeyHash.HALF && |near| == |far| == EAGER_PROTOCOL_LIMIT
      modifies this`near, this`far
      ensures i == KeyHash.ShardOf(key, |nodes|) == KeyHash.Hash32(key) % |nodes|
      ensures |near| == |far| == EAGER_PROTOCOL_LIMIT
    {
      KeyHash.ShardIs32Bit(key, |nodes|);
      AskIndexer(key);
      AnswerFind(key);
      i := Wire.Get32(near, 8);
    }

    /** A set that returns does to the store what it does to the ledger, also when it is handed a pool's tail. With the
        tail moved every set returns. */
    method DkvSet(key: Bytes, text: Bytes) returns (out: Outcome)
      requires Valid() && OpOk(Set(key, text))
      modifies this
      ensures Valid() && (State(), out) == Step(upkeep, old(State()), Set(key, text))
      ensures if Answered(out) then out == Done && ledger == SetStep(old(ledger), key, text)
              else State() == old(State()) && ledger == old(ledger)
      ensures upkeep == ServerModel.Repaired ==> Answered(out)
    {
      ghost var sys := State();
      StepRefines(upkeep, sys, ledger, Set(key, text));
      var i := FindServer(key);
      assert State() == sys;
      out := KvSet(i, key, text);
      ledger := if Answered(out) then SetStep(ledger, key, text) else ledger;
    }

    /** Servers also take steps on their own, between calls; the store does not change. */
    method LetServerRun(i: nat)
      requires Valid()
      modifies this`nodes
      ensures Valid() && ledger == old(ledger) && State() == Step(upkeep, old(State()), Tick(i)).0
      ensures State().cache == old(State().cache)
    {
      StepRefines(upkeep, State(), ledger, Tick(i));
      if i < |nodes| {
        nodes := nodes[i := KvNode.Tick(upkeep, nodes[i])];
      }
    }

    /** A get that returns gives what the ledger gives, whichever path it takes. */
    method DkvGet(key: Bytes, stale: Wire.Stale) returns (out: Outcome)
      requires Valid() && OpOk(Get(key, stale))
      modifies this
      ensures Valid() && (State(), out) == Step(upkeep, old(State()), Get(key, stale))
      ensures if Answered(out) then (ledger, out) == GetStep(old(ledger), key, stale)
              else State() == old(State()) && ledger == old(ledger)
      ensures upkeep == ServerModel.Repaired ==> Answered(out)
    {
      ghost var sys := State();
      StepRefines(upkeep, sys, ledger, Get(key, stale));
      var i := FindServer(key);
      assert State() == sys;
      out := KvGet(i, key, stale);
      ledger := if Answered(out) then GetStep(ledger, key, stale).0 else ledger;
    }
  }
}
