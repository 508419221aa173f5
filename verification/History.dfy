/** What a get returns, said of the calls alone: which call last left a key's address in the client's cache, which set
    the server last recorded, and which value was last set. The ledger's own book-keeping is not mentioned. */
module History {
  import opened ByteStrings
  import opened StoreLedger
  import Wire

  /** The value last set is one that went to a region. */
  predicate IsLarge(ops: seq<Op>, key: Bytes) {
    LastSet(ops, key).Some? && !FitsEager(key, LastSet(ops, key).value)
  }

  /** Call `i` leaves the address of its key's region with the client: a large set, or a get of a large value. */
  predicate Learns(ops: seq<Op>, i: nat)
    requires i < |ops|
  {
    match ops[i]
    case Set(key, text) => !FitsEager(key, text)
    case Get(key, _) => IsLarge(ops[..i], key)
    case Tick(_) => false
  }

  /** Call `i` does not take the address of `key` from the client: it is no small set of `key`, and teaches the client
      no other key's address. */
  predicate Spares(ops: seq<Op>, i: nat, key: Bytes)
    requires i < |ops|
  {
    && !(ops[i].Set? && ops[i].key == key && FitsEager(key, ops[i].text))
    && (Learns(ops, i) ==> ops[i].key == key)
  }

  /** The client knows the key's address: some call taught it, and none since has taken it. */
  ghost predicate Cached(ops: seq<Op>, key: Bytes) {
    exists i :: 0 <= i < |ops| && CachedSince(ops, i, key)
  }

  ghost predicate CachedSince(ops: seq<Op>, i: nat, key: Bytes)
    requires i < |ops|
  {
    Learns(ops, i) && ops[i].key == key && forall j :: i < j < |ops| ==> Spares(ops, j, key)
  }

  /** The same since a set: the client knows the length of the value last set as well. */
  ghost predicate Held(ops: seq<Op>, key: Bytes) {
    exists i :: 0 <= i < |ops| && ops[i].Set? && CachedSince(ops, i, key)
  }

  /** The length the server has on record: that of the last set, its NUL counted, that went by handshake. */
  ghost function Recorded(ops: seq<Op>, key: Bytes): nat {
    if ops == [] then 0
    else
      var before, op := ops[..|ops| - 1], ops[|ops| - 1];
      if op.Set? && op.key == key && !FitsEager(key, op.text) && !Cached(before, key) then |op.text| + 1
      else Recorded(before, key)
  }

  /** What a get returns after these calls. */
  ghost function Returned(ops: seq<Op>, key: Bytes, stale: Wire.Stale): Outcome
    requires Wire.BufferSized(stale) && NulFree(key) && KeyFits(key)
  {
    match LastSet(ops, key)
    case None => MissOutcome(stale, key)
    case Some(text) =>
      if FitsEager(key, text) || Held(ops, key) || |text| <= Recorded(ops, key) then Text(text)
      else if Cached(ops, key) then Text(text[..Recorded(ops, key)])
      else Unterminated(text[..Recorded(ops, key) + 1])
  }

  // ---------- One call more ----------

  lemma Earlier(ops: seq<Op>, i: nat, key: Bytes)
    requires i < |ops| - 1
    ensures var before := ops[..|ops| - 1];
            Learns(ops, i) == Learns(before, i) && Spares(ops, i, key) == Spares(before, i, key)
  {
    assert ops[..|ops| - 1][..i] == ops[..i];
  }

  lemma SinceOneMore(ops: seq<Op>, i: nat, key: Bytes)
    requires i < |ops| - 1
    ensures CachedSince(ops, i, key) <==> CachedSince(ops[..|ops| - 1], i, key) && Spares(ops, |ops| - 1, key)
  {
    var before := ops[..|ops| - 1];
    Earlier(ops, i, key);
    forall j | i < j < |before| ensures Spares(ops, j, key) == Spares(before, j, key) {
      Earlier(ops, j, key);
    }
    assert ops[i] == before[i];
    if CachedSince(before, i, key) && Spares(ops, |ops| - 1, key) {
      forall j | i < j < |ops| ensures Spares(ops, j, key) {
        assert j == |ops| - 1 || Spares(before, j, key);
      }
    }
  }

  lemma CachedOneMore(ops: seq<Op>, key: Bytes)
    requires ops != []
    ensures Cached(ops, key) <==>
            || (Learns(ops, |ops| - 1) && ops[|ops| - 1].key == key)
            || (Cached(ops[..|ops| - 1], key) && Spares(ops, |ops| - 1, key))
  {
    var before, last := ops[..|ops| - 1], |ops| - 1;
    if Learns(ops, last) && ops[last].key == key {
      assert CachedSince(ops, last, key);
    }
    if Cached(before, key) {
      var i :| 0 <= i < |before| && CachedSince(before, i, key);
      SinceOneMore(ops, i, key);
    }
    if Cached(ops, key) {
      var i :| 0 <= i < |ops| && CachedSince(ops, i, key);
      if i < last {
        SinceOneMore(ops, i, key);
      }
    }
  }

  lemma HeldOneMore(ops: seq<Op>, key: Bytes)
    requires ops != []
    ensures Held(ops, key) <==>
            || (Learns(ops, |ops| - 1) && ops[|ops| - 1].Set? && ops[|ops| - 1].key == key)
            || (Held(ops[..|ops| - 1], key) && Spares(ops, |ops| - 1, key))
    ensures Held(ops, key) ==> Cached(ops, key)
  {
    var before, last := ops[..|ops| - 1], |ops| - 1;
    if Learns(ops, last) && ops[last].Set? && ops[last].key == key {
      assert CachedSince(ops, last, key);
    }
    if Held(before, key) {
      var i :| 0 <= i < |before| && before[i].Set? && CachedSince(before, i, key);
      SinceOneMore(ops, i, key);
    }
    if Held(ops, key) {
      var i :| 0 <= i < |ops| && ops[i].Set? && CachedSince(ops, i, key);
      if i < last {
        SinceOneMore(ops, i, key);
      }
    }
  }

  // ---------- The ledger against the calls ----------

  lemma {:induction false} SetFits(ops: seq<Op>, key: Bytes)
    requires OpsOk(ops) && LastSet(ops, key).Some?
    ensures KeyFits(key)
  {
    if !(ops[|ops| - 1].Set? && ops[|ops| - 1].key == key) {
      SetFits(ops[..|ops| - 1], key);
    }
  }

  /** The ledger's account of one key is what the calls alone say. */
  ghost predicate Accounts(l: Ledger, ops: seq<Op>, key: Bytes) {
    && LastSet(ops, key) == (if key in l.vals then Some(l.vals[key]) else None)
    && (key in l.big <==> IsLarge(ops, key))
    && (key in l.big ==> l.big[key] == Recorded(ops, key))
    && (key == l.hot <==> Cached(ops, key))
    && (key == l.hot ==> key in l.big && l.hotLen == if Held(ops, key) then |l.vals[key]| else l.big[key])
  }

  /** A set, large or small. */
  lemma SetAccounts(l: Ledger, ops: seq<Op>, key: Bytes)
    requires ops != [] && OpsOk(ops) && key != [] && ops[|ops| - 1].Set?
    requires Accounts(l, ops[..|ops| - 1], key)
    ensures Accounts(LedgerStep(l, ops[|ops| - 1]).0, ops, key)
  {
    CachedOneMore(ops, key);
    HeldOneMore(ops, key);
  }

  lemma GetAccounts(l: Ledger, ops: seq<Op>, key: Bytes)
    requires ops != [] && OpsOk(ops) && key != [] && ops[|ops| - 1].Get?
    requires Accounts(l, ops[..|ops| - 1], key) && Accounts(l, ops[..|ops| - 1], ops[|ops| - 1].key)
    ensures Accounts(LedgerStep(l, ops[|ops| - 1]).0, ops, key)
  {
    CachedOneMore(ops, key);
    HeldOneMore(ops, key);
    if LastSet(ops[..|ops| - 1], ops[|ops| - 1].key).Some? {
      SetFits(ops[..|ops| - 1], ops[|ops| - 1].key);
    }
  }

  /** After every history, for every key. */
  lemma {:induction false} LedgerIsByCalls(ops: seq<Op>, key: Bytes)
    requires OpsOk(ops) && key != []
    ensures Accounts(After(ops), ops, key)
  {
    if ops != [] {
      var before, op := ops[..|ops| - 1], ops[|ops| - 1];
      LedgerIsByCalls(before, key);
      match op
      case Set(_, _) => SetAccounts(After(before), ops, key);
      case Get(k, _) =>
        LedgerIsByCalls(before, k);
        GetAccounts(After(before), ops, key);
      case Tick(_) =>
        CachedOneMore(ops, key);
        HeldOneMore(ops, key);
    }
  }

  /** What a get returns, after any history, follows from the calls alone. */
  lemma GetIsByCalls(ops: seq<Op>, key: Bytes, stale: Wire.Stale)
    requires OpsOk(ops) && OpOk(Get(key, stale)) && KeyFits(key)
    ensures GetStep(After(ops), key, stale).1 == Returned(ops, key, stale)
  {
    LedgerIsByCalls(ops, key);
    AfterIsOk(ops);
  }

  /** No large set finds its key cached and its value longer than the length on record. */
  ghost predicate NeverOverlong(ops: seq<Op>) {
    forall i :: 0 <= i < |ops| ==> !Overlong(ops, i)
  }

  ghost predicate Overlong(ops: seq<Op>, i: nat)
    requires i < |ops|
  {
    match ops[i]
    case Set(key, text) => !FitsEager(key, text) && Cached(ops[..i], key) && |text| > Recorded(ops[..i], key)
    case _ => false
  }

  /** The histories on which the store is a map, by the calls alone. */
  lemma {:induction false} OverlongByCalls(ops: seq<Op>)
    requires OpsOk(ops)
    ensures NoOverlongOverwrite(ops) <==> NeverOverlong(ops)
  {
    if ops != [] {
      var before, last := ops[..|ops| - 1], |ops| - 1;
      OverlongByCalls(before);
      if ops[last].Set? {
        LedgerIsByCalls(before, ops[last].key);
      }
      forall i | 0 <= i < last ensures Overlong(ops, i) == Overlong(before, i) {
        assert before[..i] == ops[..i];
      }
      assert NoOverlongOverwrite(ops) <==> NoOverlongOverwrite(before) && !Overlong(ops, last);
    }
  }
}
