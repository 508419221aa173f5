/** Bytes, C strings and the size constants shared by client, server and indexer. */
module ByteStrings {

  type byte = x: int | 0 <= x < 256
  type Bytes = seq<byte>

  const EAGER_PROTOCOL_LIMIT := 4096
  const MAX_TEST_SIZE := 40960
  const MIN_POOL_NODES := 10
  const PACKET_SIZE := 32   // size of `struct packet`: a 4-byte tag, padding, a 24-byte union

  datatype Option<+T> = None | Some(value: T)

  predicate NulFree(s: Bytes) {
    forall i :: 0 <= i < |s| ==> s[i] != 0
  }

  function Zeroes(n: nat): (z: Bytes)
    ensures |z| == n && forall i :: 0 <= i < n ==> z[i] == 0
  {
    seq(n, _ => 0)
  }

  /** `strlen` on a buffer: the index of the first NUL, or the whole length when there is none. */
  function StrLen(b: Bytes): (n: nat)
    ensures n <= |b|
    ensures forall i :: 0 <= i < n ==> b[i] != 0
    ensures n < |b| ==> b[n] == 0
  {
    if b == [] || b[0] == 0 then 0 else 1 + StrLen(b[1..])
  }

  /** The C string at the start of a buffer. */
  function CString(b: Bytes): Bytes {
    b[..StrLen(b)]
  }

  /** A buffer that starts with a NUL-free text and a NUL has exactly that text as its C string. */
  lemma StrLenOfText(b: Bytes, text: Bytes)
    requires NulFree(text) && |text| < |b| && b[..|text|] == text && b[|text|] == 0
    ensures StrLen(b) == |text| && CString(b) == text
  {
    assert forall i :: 0 <= i < |text| ==> b[i] == b[..|text|][i] != 0;
  }

  /** Writing `data` over the first bytes of a buffer, as a direct remote write does. */
  function Overwrite(b: Bytes, data: Bytes): (r: Bytes)
    requires |data| <= |b|
    ensures |r| == |b|
    ensures forall i :: 0 <= i < |b| ==> r[i] == if i < |data| then data[i] else b[i]
  {
    data + b[|data|..]
  }
}
