/** The server's doubly linked list of entries, changed in place. `contents` is the list of values it stands for. */
module EntryList {
  import opened ByteStrings
  import opened ServerModel
  import opened RegionPool

  /** A stored key. `value` is None where the source has NULL. */
  class KvEntry {
    var prevEntry: KvEntry?
    var nextEntry: KvEntry?
    var keyLen: nat
    var valLen: nat
    var largeValMemInfo: MemoryInfo?
    var key: Bytes
    var value: Option<Bytes>
    ghost const pos: nat            // its place in the list, which never changes

    constructor (key: Bytes, valLen: nat, value: Option<Bytes>, large: MemoryInfo?, ghost pos: nat)
      ensures this.key == key && keyLen == |key| && this.valLen == valLen && this.value == value
      ensures largeValMemInfo == large && this.pos == pos
    {
      this.key, keyLen, this.valLen, this.value, largeValMemInfo := key, |key|, valLen, value, large;
      prevEntry, nextEntry, this.pos := null, null, pos;
    }
  }

  ghost function EntryAt(es: seq<KvEntry>, i: int): KvEntry? {
    if 0 <= i < |es| then es[i] else null
  }

  /** Exactly one of the value and the region is there, and it is the body's. */
  ghost predicate IsBody(value: Option<Bytes>, large: MemoryInfo?, body: Body) {
    match body
    case Small(text) => value == Some(text) && large == null
    case Large(r) => value == None && large != null && large.mr == r
  }

  /** The entry on the heap is this value. */
  ghost predicate Stands(e: KvEntry, m: Entry)
    reads e`key, e`keyLen, e`valLen, e`value, e`largeValMemInfo
  {
    e.key == m.key && e.keyLen == |m.key| && e.valLen == m.valLen && IsBody(e.value, e.largeValMemInfo, m.body)
  }

  ghost predicate AllStand(es: seq<KvEntry>, ms: seq<Entry>)
    reads es`key, es`keyLen, es`valLen, es`value, es`largeValMemInfo
  {
    |es| == |ms| && forall i {:trigger Stands(es[i], ms[i])} :: 0 <= i < |es| ==> Stands(es[i], ms[i])
  }

  /** The entries are linked in this order, forwards and backwards. */
  ghost predicate Linked(es: seq<KvEntry>, head: KvEntry?, tail: KvEntry?)
    reads es`prevEntry, es`nextEntry
  {
    && head == EntryAt(es, 0) && tail == EntryAt(es, |es| - 1)
    && (forall i {:trigger es[i].pos} :: 0 <= i < |es| ==> es[i].pos == i)
    && (forall i {:trigger es[i].prevEntry} :: 0 <= i < |es| ==> es[i].prevEntry == EntryAt(es, i - 1))
    && (forall i {:trigger es[i].nextEntry} :: 0 <= i < |es| ==> es[i].nextEntry == EntryAt(es, i + 1))
  }

  class EntryList {
    var entriesHead: KvEntry?
    var entriesTail: KvEntry?
    var entriesCounter: nat

    ghost var entries: seq<KvEntry>
    ghost var contents: seq<Entry>

    ghost predicate Valid()
      reads this, entries
    {
      |entries| == entriesCounter && Linked(entries, entriesHead, entriesTail) && AllStand(entries, contents)
    }

    constructor ()
      ensures Valid() && contents == [] && entries == []
    {
      entriesHead, entriesTail, entriesCounter := null, null, 0;
      entries, contents := [], [];
    }

    /** The walk along the list that every packet starts with. */
    method FindEntry(key: Bytes) returns (node: KvEntry?)
      requires Valid()
      ensures node == EntryAt(entries, Find(contents, key))
      ensures node != null ==> Stands(node, contents[Find(contents, key)])
    {
      node := entriesHead;
      ghost var i: nat := 0;
      while node != null
        invariant i <= |entries| && node == EntryAt(entries, i)
        invariant forall j :: 0 <= j < i ==> contents[j].key != key
        decreases |entries| - i
      {
        assert Stands(entries[i], contents[i]);
        if node.key == key {
          FindIsUnique(contents, key, i);
          return;
        }
        node := node.nextEntry;
        i := i + 1;
      }
    }

    method LinkAtEnd(e: KvEntry)
      requires Linked(entries, entriesHead, entriesTail) && e.pos == |entries| == entriesCounter
      modifies this`entriesHead, this`entriesTail, this`entriesCounter, this`entries
      modifies entries`nextEntry, e`nextEntry, e`prevEntry
      ensures Linked(entries, entriesHead, entriesTail) && |entries| == entriesCounter && entries == old(entries) + [e]
    {
      ghost var es := entries;
      assert forall i :: 0 <= i < |es| ==> es[i].pos == i && es[i] != e;
      e.nextEntry := null;
      if entriesTail == null {
        e.prevEntry := null;
        entriesHead := e;
        entriesTail := e;
      } else {
        assert entriesTail == es[|es| - 1];
        e.prevEntry := entriesTail;
        entriesTail.nextEntry := e;
        entriesTail := e;
      }
      entriesCounter := entriesCounter + 1;
      entries := entries + [e];
    }

    /** A new entry at the end of the list. */
    method Append(key: Bytes, valLen: nat, value: Option<Bytes>, large: MemoryInfo?, ghost m: Entry)
      requires Valid() && m.key == key && m.valLen == valLen && IsBody(value, large, m.body)
      modifies this, entries`nextEntry
      ensures Valid() && contents == old(contents) + [m]
      ensures |entries| == |old(entries)| + 1 && entries[..|old(entries)|] == old(entries)
      ensures fresh(entries[|old(entries)|]) && entries[|old(entries)|].largeValMemInfo == large
    {
      var e := new KvEntry(key, valLen, value, large, |entries|);
      label before:
      ghost var es := entries;
      LinkAtEnd(e);
      forall i | 0 <= i < |es| ensures Stands(entries[i], contents[i]) {
        assert old@before(Stands(es[i], contents[i]));
      }
      contents := contents + [m];
      assert AllStand(entries, contents) by {
        forall i | 0 <= i < |entries| ensures Stands(entries[i], contents[i]) {
          if i < |es| {
            assert Stands(entries[i], old(contents)[i]);
          }
        }
      }
    }

    /** New fields for one entry; its key and its place in the list stay. */
    method Assign(node: KvEntry, valLen: nat, value: Option<Bytes>, large: MemoryInfo?, ghost i: nat, ghost m: Entry)
      requires Valid() && i < |entries| && node == entries[i]
      requires m.key == contents[i].key && m.valLen == valLen && IsBody(value, large, m.body)
      modifies this`contents, node`valLen, node`value, node`largeValMemInfo
      ensures Valid() && contents == old(contents)[i := m] && node.largeValMemInfo == large
    {
      ghost var es := entries;
      assert Stands(node, contents[i]) && es[i].pos == i;
      label before:
      node.valLen := valLen;
      node.value := value;
      node.largeValMemInfo := large;
      contents := contents[i := m];
      forall j | 0 <= j < |es| ensures Stands(es[j], contents[j]) {
        if j != i {
          assert es[j].pos == j;
          assert old@before(Stands(es[j], contents[j]));
        }
      }
    }

    /** Shutdown frees the entries one by one, giving back their regions, and stops at the first region whose
        deregistration the adapter refuses. `gone` are the entries freed. */
    method Clear(refused: set<nat>) returns (ok: bool, ghost freed: seq<nat>, ghost gone: seq<KvEntry>)
      requires Valid()
      modifies this`entriesHead
      ensures freed <= RegionSeq(contents) && (forall r :: r in freed ==> r !in refused)
      ensures ok ==> freed == RegionSeq(contents) && gone == entries && entriesHead == null
      ensures !ok ==> |freed| < |RegionSeq(contents)| && RegionSeq(contents)[|freed|] in refused && gone <= entries
    {
      freed, gone := [], [];
      ghost var k: nat := 0;
      while entriesHead != null
        invariant k <= |entries| && gone == entries[..k] && freed == RegionSeq(contents[..k])
        invariant entriesHead == EntryAt(entries, k)
        invariant forall r :: r in freed ==> r !in refused
        decreases |entries| - k
      {
        assert Stands(entries[k], contents[k]);
        assert contents[..k + 1] == contents[..k] + [contents[k]];
        RegionSeqSplit(contents[..k], [contents[k]]);
        RegionSeqSplit(contents[..k + 1], contents[k + 1..]);
        assert contents == contents[..k + 1] + contents[k + 1..];
        if entriesHead.largeValMemInfo != null {
          if entriesHead.largeValMemInfo.mr in refused {
            return false, freed, gone;
          }
          freed := freed + [entriesHead.largeValMemInfo.mr];
        }
        gone, k := gone + [entriesHead], k + 1;
        entriesHead := entriesHead.nextEntry;
      }
      assert contents[..k] == contents;
      ok := true;
    }
  }
}
