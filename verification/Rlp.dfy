/**
 Encoded content and its hash.

 An encoded node is an RLP item: a byte string, a list, or the 32-byte string
 that is some hash. The length of an encoding is exact, because the trie decides
 by length whether a node is embedded in its parent; RlpBytes gives the bytes.

 The hash is ideal: a hash value carries the item it was computed from, so it is
 injective by construction and no item contains its own hash.
 */
module Rlp {
  type Byte = x: int | 0 <= x < 256
  type Bytes = seq<Byte>

  datatype Item = Str(bytes: Bytes) | Ref(hash: Hash) | List(items: seq<Item>)

  /** Zero is the all-zero hash, which hashes nothing. */
  datatype Hash = Zero | Of(pre: Item)

  const HASH_SIZE := 32

  /** Number of bytes of the big-endian form of n. */
  function ByteCount(n: nat): nat {
    if n == 0 then 0 else 1 + ByteCount(n / 256)
  }

  /** Length of a string or list header plus its payload, for payloads that are not one small byte. */
  function Framed(payload: nat): nat {
    if payload < 56 then 1 + payload else 1 + ByteCount(payload) + payload
  }

  /** Length of the RLP encoding. */
  function Size(i: Item): nat
    decreases i, 1
  {
    match i
    case Str(s) => if |s| == 1 && s[0] < 128 then 1 else Framed(|s|)
    case Ref(_) => 1 + HASH_SIZE
    case List(items) => Framed(Sizes(items))
  }

  function Sizes(items: seq<Item>): nat
    decreases items, 0
  {
    if items == [] then 0 else Size(items[0]) + Sizes(items[1..])
  }

  lemma {:induction false} SizeOfMember(items: seq<Item>, k: nat)
    requires k < |items|
    ensures Size(items[k]) <= Sizes(items)
  {
    if k > 0 { SizeOfMember(items[1..], k - 1); }
  }
}
