/** What the whole store promises, without servers, regions, hashing or messages: the values last set, the length on
    record for each key whose value is large, and the one key whose address the client has cached. */
module StoreLedger {
  import opened ByteStrings
  import Wire

  datatype Outcome =
    | Done                          // a set that went through
    | Text(text: Bytes)             // a get that returned this C string
    | Unterminated(bytes: Bytes)    // a get that filled its buffer and left no NUL in it
    | Garbled                       // a missing key whose short reply misled the client
    | Refused                       // a key too long by one byte to ask a server for
    | Faulted                       // a direct access outside any region
    | Crashed                       // a request that makes the server follow the NULL head of an empty free list
    | Blocked                       // no return: the server's upkeep never ends, so it takes no more packets

  datatype Op =
    | Set(key: Bytes, text: Bytes)
    | Get(key: Bytes, stale: Wire.Stale)
    | Tick(server: nat)             // one step of a server on its own

  datatype Ledger = Ledger(vals: map<Bytes, Bytes>, big: map<Bytes, nat>, hot: Bytes, hotLen: nat)

  const Fresh := Ledger(map[], map[], [], 0)

  /** The client's test for the eager path. */
  predicate FitsEager(key: Bytes, text: Bytes) {
    |key| + |text| + PACKET_SIZE + 2 < EAGER_PROTOCOL_LIMIT
  }

  /** A set that takes the eager path, and the later reply to a get of it, fit the 4096-byte buffers and arrive whole,
      whatever the buffers held. */
  lemma EagerPacketsArrive(key: Bytes, text: Bytes, stale: Wire.Stale)
    requires FitsEager(key, text) && NulFree(key) && Wire.BufferSized(stale)
    ensures forall m :: m == Wire.EagerSetRequest(key, text) || m == Wire.EagerGetResponse(text) ==>
              && Wire.Fits(m)
              && Wire.Decode(Wire.Deliver(stale.far, Wire.Encode(stale.near, m), Wire.Size(m))) == m
  {
    Wire.DeliveryRoundTrip(stale.far, stale.near, Wire.EagerSetRequest(key, text));
    Wire.DeliveryRoundTrip(stale.far, stale.near, Wire.EagerGetResponse(text));
  }

  /** The indexer can be asked for the key. */
  predicate FindFits(key: Bytes) {
    |key| + PACKET_SIZE <= EAGER_PROTOCOL_LIMIT
  }

  /** A server can be asked for the key. */
  predicate KeyFits(key: Bytes) {
    |key| + 1 + PACKET_SIZE <= EAGER_PROTOCOL_LIMIT
  }

  /** Which path a set takes, and which keys can be asked for, by the size of the packet that would be sent: an eager
      set must be smaller than the 4096-byte buffer, a request may fill it. */
  lemma PathsBySize(key: Bytes, text: Bytes, n: nat)
    ensures FitsEager(key, text) <==> Wire.Size(Wire.EagerSetRequest(key, text)) < 4096
    ensures KeyFits(key) <==> Wire.Size(Wire.EagerGetRequest(key)) <= 4096
    ensures KeyFits(key) <==> Wire.Size(Wire.RndvSetRequest(key, n)) <= 4096
    ensures FindFits(key) <==> Wire.Size(Wire.Find(n, key)) <= 4096
  {
  }

  /** The calls the source is written for. */
  predicate OpOk(op: Op) {
    match op
    case Set(key, text) => key != [] && NulFree(key) && KeyFits(key) && NulFree(text) && |text| <= MAX_TEST_SIZE - 2
    case Get(key, stale) => key != [] && NulFree(key) && FindFits(key) && Wire.BufferSized(stale)
    case Tick(_) => true
  }

  /** How long keys and values may be: a key leaves room in a request for its NUL, and a get of a large value, which
      reads two bytes more than the text, stays within a region. */
  lemma CallLimits(key: Bytes, text: Bytes)
    requires key != [] && NulFree(key) && NulFree(text)
    ensures OpOk(Set(key, text)) <==> |key| <= 4063 && |text| + 2 <= 40960
    ensures OpOk(Set(key, text)) ==> forall stale :: Wire.BufferSized(stale) ==> OpOk(Get(key, stale))
  {
  }

  predicate OpsOk(ops: seq<Op>) {
    forall i :: 0 <= i < |ops| ==> OpOk(ops[i])
  }

  function SetStep(l: Ledger, key: Bytes, text: Bytes): Ledger {
    if FitsEager(key, text) then
      Ledger(l.vals[key := text], l.big - {key},
             if key == l.hot then [] else l.hot, if key == l.hot then 0 else l.hotLen)
    else if key == l.hot then
      l.(vals := l.vals[key := text], hotLen := |text|)
    else
      Ledger(l.vals[key := text], l.big[key := |text| + 1], key, |text|)
  }

  /** The C string in a buffer of `n` bytes filled from a region holding `text` and its NUL. */
  function Fetched(text: Bytes, n: nat): Outcome {
    if |text| < n then Text(text) else Unterminated(text[..n])
  }

  function MissOutcome(stale: Wire.Stale, key: Bytes): Outcome
    requires Wire.BufferSized(stale) && NulFree(key) && KeyFits(key)
  {
    match Wire.ReadMissing(stale, key)
    case EagerGetResponse(text) => Text(CString(text))
    case _ => Garbled
  }

  function GetStep(l: Ledger, key: Bytes, stale: Wire.Stale): (Ledger, Outcome)
    requires Wire.BufferSized(stale) && NulFree(key)
  {
    if !KeyFits(key) then (l, Refused)
    else if key !in l.vals then (l, MissOutcome(stale, key))
    else
      var text := l.vals[key];
      if key == l.hot then (l, Text(if |text| <= l.hotLen then text else text[..l.hotLen]))
      else if key in l.big then (l.(hot := key, hotLen := l.big[key]), Fetched(text, l.big[key] + 1))
      else (l, Text(text))
  }

  function LedgerStep(l: Ledger, op: Op): (Ledger, Outcome)
    requires OpOk(op)
  {
    match op
    case Set(key, text) => (SetStep(l, key, text), Done)
    case Get(key, stale) => GetStep(l, key, stale)
    case Tick(_) => (l, Done)
  }

  /** The call returned. */
  predicate Answered(out: Outcome) {
    out != Crashed && out != Blocked
  }

  lemma LedgerNeverFaults(l: Ledger, op: Op)
    requires OpOk(op)
    ensures LedgerStep(l, op).1 != Faulted && Answered(LedgerStep(l, op).1)
  {
  }

  /** The ledger after a run of calls. */
  function After(ops: seq<Op>): Ledger
    requires OpsOk(ops)
  {
    if ops == [] then Fresh else LedgerStep(After(ops[..|ops| - 1]), ops[|ops| - 1]).0
  }

  /** The value last set for a key in a history of calls. */
  function LastSet(ops: seq<Op>, key: Bytes): Option<Bytes> {
    if ops == [] then None
    else
      var op := ops[|ops| - 1];
      if op.Set? && op.key == key then Some(op.text) else LastSet(ops[..|ops| - 1], key)
  }

  predicate LedgerOk(l: Ledger) {
    && (l.hot != [] ==> l.hot in l.big)
    && (l.hot != [] ==> l.hotLen <= MAX_TEST_SIZE - 1)
    && (forall k :: k in l.big ==> k in l.vals && l.big[k] <= MAX_TEST_SIZE - 1)
    && (forall k :: k in l.vals ==> k != [] && NulFree(k) && NulFree(l.vals[k]) && |l.vals[k]| <= MAX_TEST_SIZE - 2)
    && (forall k :: k in l.vals && k !in l.big ==> FitsEager(k, l.vals[k]))
  }

  lemma StepKeepsLedgerOk(l: Ledger, op: Op)
    requires LedgerOk(l) && OpOk(op)
    ensures LedgerOk(LedgerStep(l, op).0)
  {
  }

  lemma {:induction false} AfterIsOk(ops: seq<Op>)
    requires OpsOk(ops)
    ensures LedgerOk(After(ops))
  {
    if ops != [] {
      AfterIsOk(ops[..|ops| - 1]);
      StepKeepsLedgerOk(After(ops[..|ops| - 1]), ops[|ops| - 1]);
    }
  }

  /** The ledger holds, for every key, the value last set for it. */
  lemma {:induction false} LedgerIsLastSet(ops: seq<Op>, key: Bytes)
    requires OpsOk(ops)
    ensures LastSet(ops, key) == if key in After(ops).vals then Some(After(ops).vals[key]) else None
  {
    if ops != [] {
      LedgerIsLastSet(ops[..|ops| - 1], key);
    }
  }

  /** How many bytes of a key's value the next get can return. */
  function Readable(l: Ledger, key: Bytes): nat
    requires key in l.vals
  {
    if key == l.hot then l.hotLen else if key in l.big then l.big[key] else |l.vals[key]|
  }

  /** Each get of a stored key returns the value last set for it exactly when that value is no longer than what the
      client has cached, or else than what the server has on record; a missing key reads as "" exactly under the
      guard on what the client's buffer held. */
  lemma GetIsLastSetIff(ops: seq<Op>, key: Bytes, stale: Wire.Stale)
    requires OpsOk(ops)
    requires OpOk(Get(key, stale)) && KeyFits(key)
    ensures var l := After(ops);
            var out := GetStep(l, key, stale).1;
            match LastSet(ops, key)
            case Some(text) => key in l.vals && (out == Text(text) <==> |text| <= Readable(l, key))
            case None => (out == Text([]) <==> Wire.MissGuard(stale.near, key)) && (|key| >= 3 ==> out == Garbled)
  {
    LedgerIsLastSet(ops, key);
    AfterIsOk(ops);
    if LastSet(ops, key).None? {
      Wire.MissingReadsEmptyIff(stale, key);
    }
  }

  /** No set reaches a cached region with a value longer than the length on record for its key. */
  predicate NoOverlongOverwrite(ops: seq<Op>)
    requires OpsOk(ops)
  {
    ops == [] || (
      var l, op := After(ops[..|ops| - 1]), ops[|ops| - 1];
      && NoOverlongOverwrite(ops[..|ops| - 1])
      && (op.Set? && !FitsEager(op.key, op.text) && op.key == l.hot && op.key in l.big ==> |op.text| <= l.big[op.key])
    )
  }

  /** An overlong direct overwrite is seen once another large value has displaced the cached address: the get of its key
      no longer gives the value last set. */
  lemma OverlongIsSeen(l: Ledger, key: Bytes, text: Bytes, b: Bytes, w: Bytes, stale: Wire.Stale)
    requires LedgerOk(l) && OpOk(Set(key, text)) && OpOk(Set(b, w)) && OpOk(Get(key, stale)) && b != key
    requires !FitsEager(key, text) && !FitsEager(b, w) && key == l.hot && |text| > l.big[key]
    ensures GetStep(SetStep(SetStep(l, key, text), b, w), key, stale).1 == Unterminated(text[..l.big[key] + 1])
  {
  }

  predicate AllReadable(l: Ledger) {
    && (forall k :: k in l.big && k in l.vals ==> |l.vals[k]| <= l.big[k])
    && (l.hot in l.vals ==> |l.vals[l.hot]| <= l.hotLen)
  }

  lemma {:induction false} NoOverlongKeepsReadable(ops: seq<Op>)
    requires OpsOk(ops)
    requires NoOverlongOverwrite(ops)
    ensures AllReadable(After(ops))
  {
    if ops != [] {
      var before := ops[..|ops| - 1];
      NoOverlongKeepsReadable(before);
      AfterIsOk(before);
    }
  }

  /** Over every run without an overlong direct overwrite the store is a map: a get returns what was last set. */
  lemma StoreIsAMap(ops: seq<Op>, key: Bytes, stale: Wire.Stale)
    requires OpsOk(ops)
    requires OpOk(Get(key, stale)) && KeyFits(key)
    requires NoOverlongOverwrite(ops) && LastSet(ops, key).Some?
    ensures GetStep(After(ops), key, stale).1 == Text(LastSet(ops, key).value)
  {
    GetIsLastSetIff(ops, key, stale);
    NoOverlongKeepsReadable(ops);
    AfterIsOk(ops);
    LedgerIsLastSet(ops, key);
  }

  /** The overwrite that is not recorded: set a large value, set a second one for the same key, displace the cache,
      and read. The second value comes back exactly when it is at most one byte longer than the first. */
  lemma OverwriteThenDisplace(a: Bytes, v1: Bytes, v2: Bytes, b: Bytes, w: Bytes, stale: Wire.Stale)
    requires a != b && OpOk(Set(a, v1)) && OpOk(Set(a, v2)) && OpOk(Set(b, w)) && OpOk(Get(a, stale))
    requires !FitsEager(a, v1) && !FitsEager(a, v2) && !FitsEager(b, w)
    ensures var ops := [Set(a, v1), Set(a, v2), Set(b, w)];
            && LastSet(ops, a) == Some(v2)
            && (GetStep(After(ops), a, stale).1 == Text(v2) <==> |v2| <= |v1| + 1)
            && (|v2| > |v1| + 1 ==> GetStep(After(ops), a, stale).1 == Unterminated(v2[..|v1| + 2]))
  {
    var ops := [Set(a, v1), Set(a, v2), Set(b, w)];
    assert ops[..2] == [Set(a, v1), Set(a, v2)] && ops[..2][..1] == [Set(a, v1)];
    assert [Set(a, v1)][..0] == [];
    assert After([Set(a, v1)]) == SetStep(Fresh, a, v1);
    assert After(ops[..2]) == SetStep(SetStep(Fresh, a, v1), a, v2);
  }
}
