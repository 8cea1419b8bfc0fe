/**
 The Modified Merkle Patricia Tree as a mathematical tree: no caches, nothing
 left on disk. It is the reference that the in-memory nodes are proved against:
 a tree is a key/value map, its canonical form is unique for that map, and its
 encoding and root hash are defined here from scratch.
 */
module Trees {
  import opened Rlp
  import opened Encoding

  datatype Option<+T> = None | Some(value: T)

  datatype Tree =
    | Empty
    | Leaf(value: Bytes)
    | Short(key: Hex, child: Tree)
    | Full(kids: seq<Tree>)

  // ---------- a tree as a map ----------

  function Lookup(t: Tree, key: Hex): Option<Bytes> {
    match t
    case Empty => None
    case Leaf(v) => if key == [] then Some(v) else None
    case Short(k, c) => if k <= key then Lookup(c, key[|k|..]) else None
    case Full(kids) => if key != [] && key[0] < |kids| then Lookup(kids[key[0]], key[1..]) else None
  }

  /** Both trees hold the same key/value pairs. */
  ghost predicate SameMap(a: Tree, b: Tree) {
    forall k: Hex :: Lookup(a, k) == Lookup(b, k)
  }

  lemma AtShort(p: Hex, c: Tree, k: Hex)
    ensures Lookup(Short(p, c), k) == if p <= k then Lookup(c, k[|p|..]) else None
  {
  }

  lemma AtFull(t: Tree, k: Hex)
    requires t.Full? && |t.kids| == 17
    ensures Lookup(t, k) == if k != [] then Lookup(t.kids[k[0]], k[1..]) else None
  {
  }

  // ---------- canonical form ----------

  predicate IsLeaf(t: Tree) {
    t.Leaf? && |t.value| > 0
  }

  /** A branch point in canonical form: a short or full node and everything below it. */
  predicate Branch(t: Tree): (b: bool)
    ensures b ==> t.Short? || t.Full?
  {
    match t
    case Empty => false
    case Leaf(_) => false
    case Short(k, c) =>
      && k != [] && WellFormed(k)
      && if HasTerm(k) then IsLeaf(c) else c.Full? && Branch(c)
    case Full(kids) =>
      && |kids| == 17
      && (forall i | 0 <= i < 16 :: kids[i].Empty? || Branch(kids[i]))
      && (kids[16].Empty? || IsLeaf(kids[16]))
      && (exists i, j :: 0 <= i < j < 17 && !kids[i].Empty? && !kids[j].Empty?)
  }

  predicate Canonical(t: Tree) {
    t.Empty? || Branch(t)
  }

  /** Anything that may stand inside a canonical tree. */
  predicate Part(t: Tree) {
    t.Empty? || IsLeaf(t) || Branch(t)
  }

  /** A child that belongs at index i of a full node. */
  predicate Fits(t: Tree, i: Nibble) {
    if i == 16 then IsLeaf(t) else Branch(t)
  }

  /** A short node above the rest of a whole key, or above a full node. */
  lemma ShortBranch(p: Hex, c: Tree)
    requires p != [] && WellFormed(p) && (if HasTerm(p) then IsLeaf(c) else c.Full? && Branch(c))
    ensures Branch(Short(p, c))
  {
  }

  lemma BranchShort(t: Tree)
    requires t.Short? && Branch(t)
    ensures t.key != [] && WellFormed(t.key)
    ensures if HasTerm(t.key) then IsLeaf(t.child) else t.child.Full? && Branch(t.child)
  {
  }

  // ---------- canonical form is unique ----------

  lemma {:induction false} SomeKey(t: Tree) returns (k: Hex)
    requires Part(t) && !t.Empty?
    ensures Lookup(t, k).Some?
  {
    match t
    case Leaf(_) => k := [];
    case Short(key, c) =>
      var r := SomeKey(c);
      k := key + r;
      assert k[|key|..] == r;
    case Full(kids) =>
      var i, j :| 0 <= i < j < 17 && !kids[i].Empty? && !kids[j].Empty?;
      k := KeyThrough(t, i);
  }

  lemma {:induction false} KeyThrough(t: Tree, i: Nibble) returns (k: Hex)
    requires t.Full? && Branch(t) && !t.kids[i].Empty?
    ensures Lookup(t, k).Some? && k != [] && k[0] == i
    decreases t, 0
  {
    var r := SomeKey(t.kids[i]);
    k := [i] + r;
    assert k[1..] == r;
  }

  /** A full node holds two keys that differ in their first nibble. */
  lemma Fork(t: Tree) returns (a: Hex, b: Hex)
    requires t.Full? && Branch(t)
    ensures Lookup(t, a).Some? && Lookup(t, b).Some?
    ensures a != [] && b != [] && a[0] != b[0]
  {
    var i, j :| 0 <= i < j < 17 && !t.kids[i].Empty? && !t.kids[j].Empty?;
    a := KeyThrough(t, i);
    b := KeyThrough(t, j);
  }

  lemma LookupShort(t: Tree, r: Hex)
    requires t.Short?
    ensures Lookup(t, t.key + r) == Lookup(t.child, r)
  {
    assert (t.key + r)[|t.key|..] == r;
  }

  lemma LookupFull(t: Tree, i: Nibble, r: Hex)
    requires t.Full? && |t.kids| == 17
    ensures Lookup(t, [i] + r) == Lookup(t.kids[i], r)
  {
    assert ([i] + r)[1..] == r;
  }

  /** The keys of a short node are exactly as long a common prefix as its own key. */
  lemma ShortKeyNotShorter(a: Tree, b: Tree)
    requires a.Short? && b.Short? && Branch(a) && Branch(b) && SameMap(a, b)
    ensures |b.key| <= |a.key|
  {
    if HasTerm(a.key) {
      LookupShort(a, []);
      assert a.key + [] == a.key;
      assert Lookup(b, a.key).Some?;
    } else {
      var x, y := Fork(a.child);
      LookupShort(a, x);
      LookupShort(a, y);
      var p, q := a.key + x, a.key + y;
      assert Lookup(b, p).Some? && Lookup(b, q).Some?;
      assert b.key <= p && b.key <= q;
      assert p[|a.key|] != q[|a.key|];
    }
  }

  lemma ShortIsNotFull(a: Tree, b: Tree)
    requires a.Short? && b.Full? && Branch(a) && Branch(b)
    ensures !SameMap(a, b)
  {
    var x, y := Fork(b);
    assert !(a.key <= x) || !(a.key <= y);
  }

  /** Canonical form is unique: trees with the same key/value pairs are the same tree. */
  lemma {:induction false} Unique(a: Tree, b: Tree)
    requires Part(a) && Part(b) && !(a.Leaf? && Branch(b)) && !(Branch(a) && b.Leaf?)
    requires SameMap(a, b)
    ensures a == b
  {
    if a.Empty? {
      if !b.Empty? { var k := SomeKey(b); }
    } else if b.Empty? {
      var k := SomeKey(a);
    } else if a.Leaf? {
      assert Lookup(a, []) == Lookup(b, []);
    } else if a.Short? && b.Short? {
      ShortKeyNotShorter(a, b);
      ShortKeyNotShorter(b, a);
      var k := SomeKey(a);
      assert Lookup(b, k).Some?;
      assert a.key == k[..|a.key|] == b.key;
      forall r: Hex ensures Lookup(a.child, r) == Lookup(b.child, r) {
        LookupShort(a, r);
        LookupShort(b, r);
      }
      Unique(a.child, b.child);
    } else if a.Full? && b.Full? {
      forall i | 0 <= i < 17 ensures a.kids[i] == b.kids[i] {
        forall r: Hex ensures Lookup(a.kids[i], r) == Lookup(b.kids[i], r) {
          LookupFull(a, i, r);
          LookupFull(b, i, r);
        }
        Unique(a.kids[i], b.kids[i]);
      }
      assert a.kids == b.kids;
    } else if a.Short? {
      ShortIsNotFull(a, b);
    } else {
      ShortIsNotFull(b, a);
    }
  }

  // ---------- encoding from scratch ----------

  /** The collapsed encoding of a node: children are embedded or replaced by their hash. */
  function Encode(t: Tree): (i: Item)
    requires Part(t)
    ensures i.List? <==> Branch(t)
    decreases t, 0
  {
    match t
    case Empty => Str([])
    case Leaf(v) => Str(v)
    case Short(k, c) => List([Str(Compact(k)), Link(c)])
    case Full(kids) => List(seq(17, i requires 0 <= i < 17 => Link(kids[i])))
  }

  /** How a parent refers to a child: nodes shorter than 32 bytes are embedded. */
  function Link(t: Tree): Item
    requires Part(t)
    decreases t, 1
  {
    var e := Encode(t);
    if Branch(t) && Size(e) >= 32 then Ref(Of(e)) else e
  }

  lemma LinkValue(t: Tree)
    requires t.Empty? || IsLeaf(t)
    ensures Link(t) == Str(if t.Empty? then [] else t.value)
  {
  }

  const EMPTY_ROOT := Of(Str([]))

  /** The root is hashed whatever its size. */
  function RootHash(t: Tree): Hash
    requires Canonical(t)
  {
    Of(Encode(t))
  }

  // ---------- decoding to a whole tree ----------

  /** The tree that an encoding stands for, following every hash. Empty for what no tree encodes to. */
  function Decoded(i: Item): Tree
    decreases i, 0
  {
    if !i.List? then Empty
    else if |i.items| == 2 then
      match i.items[0]
      case Str(c) =>
        if c == [] then Empty
        else if HasTerm(Uncompact(c)) then Short(Uncompact(c), DecodedValue(i.items[1]))
        else Short(Uncompact(c), DecodedLink(i.items[1]))
      case _ => Empty
    else if |i.items| == 17 then
      Full(seq(17, k requires 0 <= k < 17 => if k < 16 then DecodedLink(i.items[k]) else DecodedValue(i.items[k])))
    else Empty
  }

  function DecodedValue(i: Item): Tree {
    if i.Str? && i.bytes != [] then Leaf(i.bytes) else Empty
  }

  function DecodedLink(i: Item): Tree
    decreases i, 1
  {
    match i
    case Str(_) => Empty
    case Ref(h) => if h.Of? then Decoded(h.pre) else Empty
    case List(_) => Decoded(i)
  }

  /** Decoding undoes encoding, so encoding is injective. */
  lemma {:induction false} DecodedEncode(t: Tree)
    requires Canonical(t)
    ensures Decoded(Encode(t)) == t && DecodedLink(Link(t)) == t
  {
    match t
    case Empty =>
    case Short(k, c) =>
      CompactRoundTrip(k);
      if !HasTerm(k) { DecodedEncode(c); }
    case Full(kids) =>
      forall i | 0 <= i < 16 ensures DecodedLink(Link(kids[i])) == kids[i] {
        DecodedEncode(kids[i]);
      }
      assert DecodedValue(Link(kids[16])) == kids[16];
      assert Decoded(Encode(t)).kids == kids;
  }

  /** Equal root hashes are the same as equal maps. */
  lemma RootHashIsMap(a: Tree, b: Tree)
    requires Canonical(a) && Canonical(b)
    ensures RootHash(a) == RootHash(b) <==> SameMap(a, b)
    ensures SameMap(a, b) <==> a == b
  {
    DecodedEncode(a);
    DecodedEncode(b);
    if SameMap(a, b) { Unique(a, b); }
  }
}
