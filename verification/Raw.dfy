/**
 Nodes on their way to the database. Hashing collapses a node: keys become
 compact and children become embedded nodes or hashes. The database keeps the
 collapsed node without its caches, and later either writes its encoding to
 disk or expands it back into a trie node.
 */
module Raws {
  import opened Rlp
  import opened Encoding
  import opened Trees
  import opened Nodes

  datatype Collapsed =
    | CNil
    | CValue(bytes: Bytes)
    | CHash(hash: Hash)
    | CShort(key: Bytes, val: Collapsed, flags: Flag)
    | CFull(kids: seq<Collapsed>, flags: Flag)

  datatype Raw =
    | RNil
    | RValue(bytes: Bytes)
    | RHash(hash: Hash)
    | RShort(key: Bytes, val: Raw)
    | RFull(kids: seq<Raw>)
    | RBlob(blob: Item)

  /** The encoding of a collapsed node. Nothing is encoded as the empty string. */
  function EncodeCollapsed(c: Collapsed): Item {
    match c
    case CNil => Str([])
    case CValue(v) => Str(v)
    case CHash(h) => Ref(h)
    case CShort(k, v, _) => List([Str(k), EncodeCollapsed(v)])
    case CFull(kids, _) => List(seq(|kids|, i requires 0 <= i < |kids| => EncodeCollapsed(kids[i])))
  }

  function EncodeRaw(r: Raw): Item {
    match r
    case RNil => Str([])
    case RValue(v) => Str(v)
    case RHash(h) => Ref(h)
    case RShort(k, v) => List([Str(k), EncodeRaw(v)])
    case RFull(kids) => List(seq(|kids|, i requires 0 <= i < |kids| => EncodeRaw(kids[i])))
    case RBlob(b) => b
  }

  function Simplify(c: Collapsed): Raw {
    match c
    case CNil => RNil
    case CValue(v) => RValue(v)
    case CHash(h) => RHash(h)
    case CShort(k, v, _) => RShort(k, Simplify(v))
    case CFull(kids, _) => RFull(seq(|kids|, i requires 0 <= i < |kids| => Simplify(kids[i])))
  }

  /** Dropping the caches does not change the encoding. */
  lemma {:induction false} SimplifyEncoding(c: Collapsed)
    ensures EncodeRaw(Simplify(c)) == EncodeCollapsed(c)
  {
    match c
    case CShort(_, v, _) => SimplifyEncoding(v);
    case CFull(kids, _) =>
      forall i | 0 <= i < |kids| ensures EncodeRaw(Simplify(kids[i])) == EncodeCollapsed(kids[i]) {
        SimplifyEncoding(kids[i]);
      }
      assert EncodeRaw(Simplify(c)).items == EncodeCollapsed(c).items;
    case _ =>
  }

  /** Back to a trie node. A short key is never empty. */
  function Expand(h: Hash, r: Raw, gen: Uint16): Node
    requires Proper(r)
    decreases r
  {
    match r
    case RNil => Nil
    case RValue(v) => Value(v)
    case RHash(h') => HashNode(h')
    case RShort(k, v) => ShortNode(Uncompact(k), Expand(Zero, v, gen), Flag(h, gen, false))
    case RFull(kids) => FullNode(seq(17, i requires 0 <= i < 17 => Expand(Zero, kids[i], gen)), Flag(h, gen, false))
  }

  /** A child slot: nothing, a hash, or an embedded node of at most 32 bytes. */
  predicate ProperKid(r: Raw) {
    match r
    case RNil => true
    case RHash(_) => true
    case RShort(_, _) => Size(EncodeRaw(r)) <= HASH_SIZE
    case RFull(_) => Size(EncodeRaw(r)) <= HASH_SIZE
    case _ => false
  }

  /** A raw trie node as hashing produces them. */
  predicate Proper(r: Raw) {
    match r
    case RNil => true
    case RValue(v) => v != []
    case RHash(_) => true
    case RShort(k, v) => k != [] && Proper(v) && if HasTerm(Uncompact(k)) then v.RValue? else ProperKid(v)
    case RFull(kids) =>
      && |kids| == 17
      && (forall i | 0 <= i < 17 :: Proper(kids[i]))
      && (forall i | 0 <= i < 16 :: ProperKid(kids[i]))
      && (kids[16].RNil? || kids[16].RValue?)
    case RBlob(_) => false
  }

  lemma {:induction false} ExpandKid(r: Raw, gen: Uint16)
    requires Proper(r) && ProperKid(r)
    ensures DecodeRef(EncodeRaw(r), gen) == Some(Expand(Zero, r, gen))
    decreases r, 1
  {
    if r.RShort? || r.RFull? { ExpandIsDecode(Zero, r, gen); }
  }

  /** A node served from memory is the node decoded from its stored encoding. */
  lemma {:induction false} ExpandIsDecode(h: Hash, r: Raw, gen: Uint16)
    requires Proper(r) && (r.RShort? || r.RFull?)
    ensures Decode(h, EncodeRaw(r), gen) == Some(Expand(h, r, gen))
    decreases r, 0
  {
    var e := EncodeRaw(r);
    match r
    case RShort(k, v) =>
      if !HasTerm(Uncompact(k)) { ExpandKid(v, gen); }
    case RFull(kids) =>
      forall i | 0 <= i < 16 ensures DecodeRef(e.items[i], gen) == Some(Expand(Zero, kids[i], gen)) {
        ExpandKid(kids[i], gen);
      }
      var last := kids[16];
      assert EncodeRaw(last) == Str(if last.RNil? then [] else last.bytes);
      assert e.items[16] == Str(if kids[16].RNil? then [] else kids[16].bytes);
      assert DecodedFull(h, e, gen).Some?;
      assert DecodedFull(h, e, gen).value.kids == Expand(h, r, gen).kids;
  }

  // ---------- references ----------

  /** The hashes an encoding refers to, in order and with repetitions. */
  function Refs(i: Item): seq<Hash>
    decreases i, 1
  {
    match i
    case Str(_) => []
    case Ref(h) => [h]
    case List(items) => RefsOf(items)
  }

  function RefsOf(items: seq<Item>): seq<Hash>
    decreases items, 0
  {
    if items == [] then [] else Refs(items[0]) + RefsOf(items[1..])
  }

  /** What gatherChildren collects. The value slot of a full node is not visited. */
  function Gather(r: Raw): seq<Hash>
    decreases r, 1
  {
    match r
    case RShort(_, v) => Gather(v)
    case RFull(kids) => if |kids| == 17 then GatherAll(kids[..16]) else []
    case RHash(h) => [h]
    case _ => []
  }

  function GatherAll(kids: seq<Raw>): seq<Hash>
    decreases kids, 0
  {
    if kids == [] then [] else Gather(kids[0]) + GatherAll(kids[1..])
  }

  /** The tracked children of a cached trie node are exactly the references in its encoding. */
  lemma {:induction false} GatherIsRefs(r: Raw)
    requires Proper(r)
    ensures Gather(r) == Refs(EncodeRaw(r))
    decreases r, 1
  {
    match r
    case RShort(k, v) =>
      GatherIsRefs(v);
      var items := EncodeRaw(r).items;
      assert items[1..] == [EncodeRaw(v)];
      RefsOfOne(EncodeRaw(v));
      assert RefsOf(items) == Refs(items[0]) + RefsOf(items[1..]);
    case RFull(kids) =>
      var items := EncodeRaw(r).items;
      GatherAllIsRefs(kids[..16], items[..16]);
      assert items == items[..16] + [items[16]];
      RefsOfLast(items[..16], items[16]);
    case _ =>
  }

  lemma RefsOfOne(i: Item)
    ensures RefsOf([i]) == Refs(i)
  {
    assert [i][1..] == [];
  }

  lemma {:induction false} GatherAllIsRefs(kids: seq<Raw>, items: seq<Item>)
    requires |kids| == |items|
    requires forall i | 0 <= i < |kids| :: Proper(kids[i]) && items[i] == EncodeRaw(kids[i])
    ensures GatherAll(kids) == RefsOf(items)
    decreases kids, 0
  {
    if kids != [] {
      GatherIsRefs(kids[0]);
      GatherAllIsRefs(kids[1..], items[1..]);
    }
  }

  lemma {:induction false} RefsOfLast(items: seq<Item>, last: Item)
    requires Refs(last) == []
    ensures RefsOf(items + [last]) == RefsOf(items)
  {
    if items == [] {
      assert [last][1..] == [];
    } else {
      assert (items + [last])[1..] == items[1..] + [last];
      RefsOfLast(items[1..], last);
    }
  }
}
