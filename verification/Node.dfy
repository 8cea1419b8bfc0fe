/**
 Trie nodes in memory: partly loaded, with cached hashes, generations and dirty
 flags. Denotes(n) is the whole tree a node stands for; Sound says that the
 caches agree with it.
 */
module Nodes {
  import opened Rlp
  import opened Encoding
  import opened Trees

  type Uint16 = x: int | 0 <= x < 65536

  /** hash is Zero when no hash is cached. */
  datatype Flag = Flag(hash: Hash, gen: Uint16, dirty: bool) {
    predicate CanUnload(cachegen: Uint16, cachelimit: Uint16) {
      !dirty && (cachegen - gen) % 65536 >= cachelimit
    }
  }

  /** Up to 65535 generations after its last use a clean node can be unloaded exactly from the limit on; then the count wraps. */
  lemma UnloadAge(f: Flag, cachelimit: Uint16, age: nat)
    ensures f.CanUnload((f.gen + age) % 65536, cachelimit) <==> !f.dirty && age % 65536 >= cachelimit
  {
    assert ((f.gen + age) % 65536 - f.gen) % 65536 == age % 65536;
  }

  datatype Node =
    | Nil
    | Value(bytes: Bytes)
    | HashNode(hash: Hash)
    | ShortNode(key: Hex, val: Node, flags: Flag)
    | FullNode(kids: seq<Node>, flags: Flag)

  function NoKids(): (kids: seq<Node>)
    ensures |kids| == 17 && forall i | 0 <= i < 17 :: kids[i] == Nil
  {
    seq(17, _ => Nil)
  }

  // ---------- what a node stands for ----------

  function Denotes(n: Node): (t: Tree)
    ensures n.FullNode? ==> t.Full? && |t.kids| == |n.kids|
  {
    match n
    case Nil => Empty
    case Value(v) => Leaf(v)
    case HashNode(h) => if h.Of? then Decoded(h.pre) else Empty
    case ShortNode(k, v, _) => Short(k, Denotes(v))
    case FullNode(kids, _) => Full(seq(|kids|, i requires 0 <= i < |kids| => Denotes(kids[i])))
  }

  /** Only nodes that are hashed inside their parent carry or are a hash. The root is exempt. */
  predicate Sized(n: Node) {
    match n
    case HashNode(h) => h.Of? && Size(h.pre) >= 32
    case ShortNode(_, _, f) => f.hash.Of? ==> Size(f.hash.pre) >= 32
    case FullNode(_, f) => f.hash.Of? ==> Size(f.hash.pre) >= 32
    case _ => true
  }

  /** A cached hash is that of the whole subtree; a clean node lacks one only if it is embedded in its parent. */
  ghost predicate FlagGood(f: Flag, t: Tree)
    requires Part(t)
  {
    if f.hash == Zero then f.dirty || Size(Encode(t)) < 32 else f.hash == Of(Encode(t))
  }

  /** Every hash in the node, cached or standing for an unloaded subtree, is that of its whole subtree. */
  ghost predicate Good(n: Node) {
    var t := Denotes(n);
    && Part(t)
    && match n
       case Nil => true
       case Value(_) => true
       case HashNode(h) => Branch(t) && h == Of(Encode(t))
       case ShortNode(_, v, f) => FlagGood(f, t) && Good(v) && Sized(v)
       case FullNode(kids, f) =>
         && FlagGood(f, t)
         && forall i | 0 <= i < |kids| :: Good(kids[i]) && Sized(kids[i])
  }

  /** A clean root has been hashed. */
  predicate Rooted(n: Node) {
    n.ShortNode? || n.FullNode? ==> n.flags.dirty || n.flags.hash != Zero
  }

  ghost predicate AllClean(n: Node) {
    match n
    case ShortNode(_, v, f) => !f.dirty && AllClean(v)
    case FullNode(kids, f) => !f.dirty && forall i | 0 <= i < |kids| :: AllClean(kids[i])
    case _ => true
  }

  /** No dirty node lies under a clean one. */
  ghost predicate DirtyUp(n: Node) {
    match n
    case ShortNode(_, v, f) => DirtyUp(v) && (!f.dirty ==> AllClean(v))
    case FullNode(kids, f) =>
      forall i | 0 <= i < |kids| :: DirtyUp(kids[i]) && (!f.dirty ==> AllClean(kids[i]))
    case _ => true
  }

  /** Small enough to be embedded in its parent. */
  predicate Embedded(t: Tree) {
    Branch(t) && Size(Encode(t)) < 32
  }

  /** Every loaded node that is not embedded has its hash cached. */
  ghost predicate Filled(n: Node) {
    match n
    case ShortNode(_, v, f) => Filled(v) && (f.hash == Zero ==> Embedded(Denotes(n)))
    case FullNode(kids, f) => (forall i | 0 <= i < |kids| :: Filled(kids[i])) && (f.hash == Zero ==> Embedded(Denotes(n)))
    case _ => true
  }

  /** Below a node with a cached hash no hash is missing. */
  ghost predicate CachedUp(n: Node) {
    match n
    case ShortNode(_, v, f) => CachedUp(v) && (f.hash != Zero ==> Filled(v))
    case FullNode(kids, f) =>
      forall i | 0 <= i < |kids| :: CachedUp(kids[i]) && (f.hash != Zero ==> Filled(kids[i]))
    case _ => true
  }

  lemma {:induction false} CleanFilled(n: Node)
    requires Good(n) && AllClean(n)
    ensures Filled(n)
  {
    match n
    case ShortNode(_, v, _) => CleanFilled(v);
    case FullNode(kids, _) => forall i | 0 <= i < |kids| ensures Filled(kids[i]) { CleanFilled(kids[i]); }
    case _ =>
  }

  /** Every loaded clean node with a hash is in the store. */
  ghost predicate Kept(n: Node, s: set<Hash>) {
    match n
    case ShortNode(_, v, f) => Kept(v, s) && (!f.dirty && f.hash != Zero ==> f.hash in s)
    case FullNode(kids, f) =>
      && (forall i | 0 <= i < |kids| :: Kept(kids[i], s))
      && (!f.dirty && f.hash != Zero ==> f.hash in s)
    case _ => true
  }

  /** The invariant of every live trie node. */
  ghost predicate Sound(n: Node, s: set<Hash>) {
    Good(n) && DirtyUp(n) && CachedUp(n) && Kept(n, s)
  }

  lemma SoundVal(n: Node, s: set<Hash>)
    requires n.ShortNode? && Sound(n, s)
    ensures Sound(n.val, s) && Sized(n.val)
    ensures Branch(Denotes(n)) && Denotes(n) == Short(n.key, Denotes(n.val))
  {
  }

  lemma SoundKid(n: Node, s: set<Hash>, i: nat)
    requires n.FullNode? && Sound(n, s) && i < |n.kids|
    ensures Sound(n.kids[i], s) && Sized(n.kids[i])
    ensures Branch(Denotes(n)) && |n.kids| == 17 && Denotes(n).kids[i] == Denotes(n.kids[i])
  {
  }

  /** What a flag may claim about the node that carries it. */
  ghost predicate FlagSound(f: Flag, t: Tree, s: set<Hash>)
    requires Part(t)
  {
    FlagGood(f, t) && (f.dirty || f.hash == Zero || f.hash in s)
  }

  lemma SoundShort(n: Node, s: set<Hash>)
    requires n.ShortNode? && Branch(Denotes(n)) && FlagSound(n.flags, Denotes(n), s)
    requires Sound(n.val, s) && Sized(n.val) && (!n.flags.dirty ==> AllClean(n.val)) && (n.flags.hash != Zero ==> Filled(n.val))
    ensures Sound(n, s)
  {
  }

  lemma SoundFull(n: Node, s: set<Hash>)
    requires n.FullNode? && Branch(Denotes(n)) && FlagSound(n.flags, Denotes(n), s)
    requires forall i | 0 <= i < |n.kids| :: Sound(n.kids[i], s) && Sized(n.kids[i])
    requires !n.flags.dirty ==> forall i | 0 <= i < |n.kids| :: AllClean(n.kids[i])
    requires n.flags.hash != Zero ==> forall i | 0 <= i < |n.kids| :: Filled(n.kids[i])
    ensures Sound(n, s)
  {
  }

  // ---------- the store ----------

  type Store = map<Hash, Item>

  /** The store is content addressed. */
  predicate Addressed(s: Store) {
    forall h | h in s :: h.Of? && s[h] == h.pre
  }

  /** Every hash that an item refers to, directly or through other hashes, is in the store. */
  predicate Available(i: Item, s: set<Hash>) {
    match i
    case Str(_) => true
    case Ref(h) => h in s && h.Of? && Available(h.pre, s)
    case List(items) => forall k | 0 <= k < |items| :: Available(items[k], s)
  }

  /** Everything not loaded yet can be loaded. */
  predicate Loadable(n: Node, s: set<Hash>) {
    match n
    case Nil => true
    case Value(_) => true
    case HashNode(h) => Available(Ref(h), s)
    case ShortNode(_, v, _) => Loadable(v, s)
    case FullNode(kids, _) => forall i | 0 <= i < |kids| :: Loadable(kids[i], s)
  }

  // ---------- decoding ----------

  function Decode(h: Hash, buf: Item, gen: Uint16): Option<Node>
    decreases buf, 0
  {
    if !buf.List? then None
    else if |buf.items| == 2 then DecodeShort(h, buf, gen)
    else if |buf.items| == 17 then DecodedFull(h, buf, gen)
    else None
  }

  /** An empty key string makes compactToHex panic; here it is a malformed node. */
  function DecodeShort(h: Hash, buf: Item, gen: Uint16): Option<Node>
    requires buf.List? && |buf.items| == 2
    decreases buf, 0, 0
  {
    var k, v := buf.items[0], buf.items[1];
    if !k.Str? || k.bytes == [] then None
    else
      var key := Uncompact(k.bytes);
      if HasTerm(key) then
        if v.Str? then Some(ShortNode(key, Value(v.bytes), Flag(h, gen, false))) else None
      else
        match DecodeRef(v, gen)
        case Some(r) => Some(ShortNode(key, r, Flag(h, gen, false)))
        case None => None
  }

  /** What decodeFull computes, child by child. */
  function DecodedFull(h: Hash, buf: Item, gen: Uint16): Option<Node>
    requires buf.List? && |buf.items| == 17
    decreases buf, 0, 0
  {
    if (forall i | 0 <= i < 16 :: DecodeRef(buf.items[i], gen).Some?) && buf.items[16].Str? then
      Some(FullNode(
        seq(17, i requires 0 <= i < 17 =>
          if i < 16 then DecodeRef(buf.items[i], gen).value
          else if buf.items[16].bytes == [] then Nil else Value(buf.items[16].bytes)),
        Flag(h, gen, false)))
    else None
  }

  method DecodeFull(h: Hash, buf: Item, gen: Uint16) returns (r: Option<Node>)
    requires buf.List? && |buf.items| == 17
    ensures r == DecodedFull(h, buf, gen)
  {
    var kids := NoKids();
    for i := 0 to 16
      invariant |kids| == 17
      invariant forall j | 0 <= j < i :: DecodeRef(buf.items[j], gen) == Some(kids[j])
      invariant forall j | i <= j < 17 :: kids[j] == Nil
    {
      var cld := DecodeRef(buf.items[i], gen);
      if cld.None? { return None; }
      kids := kids[i := cld.value];
    }
    var val := buf.items[16];
    if !val.Str? { return None; }
    if |val.bytes| > 0 { kids := kids[16 := Value(val.bytes)]; }
    r := Some(FullNode(kids, Flag(h, gen, false)));
    assert DecodedFull(h, buf, gen).Some?;
    assert DecodedFull(h, buf, gen).value.kids == kids;
  }

  /** A child reference: an embedded node of at most 32 bytes, nothing, or a hash. */
  function DecodeRef(buf: Item, gen: Uint16): Option<Node>
    decreases buf, 1
  {
    match buf
    case List(_) => if Size(buf) > HASH_SIZE then None else Decode(Zero, buf, gen)
    case Str(b) => if b == [] then Some(Nil) else None
    case Ref(h) => Some(HashNode(h))
  }

  /** A child as it comes out of the store. */
  ghost predicate FreshKid(n: Node, t: Tree, s: set<Hash>) {
    && Denotes(n) == t && Part(t)
    && Sound(n, s) && Sized(n) && AllClean(n) && Filled(n)
    && (Available(Link(t), s) ==> Loadable(n, s))
  }

  /** A node as it comes out of the store under the hash h, or embedded when h is Zero. */
  ghost predicate Fresh(n: Node, t: Tree, h: Hash, gen: Uint16, s: set<Hash>) {
    && (n.ShortNode? || n.FullNode?) && Branch(t)
    && n.flags == Flag(h, gen, false)
    && Denotes(n) == t
    && AllClean(n) && (h != Zero || Size(Encode(t)) < 32 ==> Filled(n))
    && ((if h == Zero then Size(Encode(t)) < 32 else h in s) ==> Sound(n, s))
    && (Available(Encode(t), s) ==> Loadable(n, s))
  }

  lemma ValueFresh(t: Tree, s: set<Hash>)
    requires t.Empty? || IsLeaf(t)
    ensures FreshKid(if t.Empty? then Nil else Value(t.value), t, s)
  {
  }

  lemma {:induction false} DecodeLink(t: Tree, gen: Uint16, s: set<Hash>)
    requires Canonical(t)
    ensures DecodeRef(Link(t), gen).Some? && FreshKid(DecodeRef(Link(t), gen).value, t, s)
    decreases t, 1
  {
    if Branch(t) {
      DecodedEncode(t);
      if Size(Encode(t)) < 32 { DecodeEncode(t, Zero, gen, s); }
    }
  }

  /** Decoding an encoded tree gives a sound node for the same tree. */
  lemma {:induction false} DecodeEncode(t: Tree, h: Hash, gen: Uint16, s: set<Hash>)
    requires Branch(t)
    requires h == Zero || h == Of(Encode(t))
    ensures Decode(h, Encode(t), gen).Some? && Fresh(Decode(h, Encode(t), gen).value, t, h, gen, s)
    decreases t, 0
  {
    if t.Short? {
      CompactRoundTrip(t.key);
      if HasTerm(t.key) { ValueFresh(t.child, s); } else { DecodeLink(t.child, gen, s); }
      var v := if HasTerm(t.key) then Value(t.child.value) else DecodeRef(Link(t.child), gen).value;
      assert DecodeShort(h, Encode(t), gen) == Some(ShortNode(t.key, v, Flag(h, gen, false)));
      ShortFresh(t, v, h, gen, s);
    } else {
      forall i | 0 <= i < 16 ensures DecodeRef(Link(t.kids[i]), gen).Some? { DecodeLink(t.kids[i], gen, s); }
      var kids := DecodedKids(t, h, gen);
      forall i | 0 <= i < 17 ensures FreshKid(kids[i], t.kids[i], s) {
        if i < 16 { DecodeLink(t.kids[i], gen, s); } else { ValueFresh(t.kids[i], s); }
      }
      FullFresh(t, kids, h, gen, s);
    }
  }

  lemma DecodedKids(t: Tree, h: Hash, gen: Uint16) returns (kids: seq<Node>)
    requires t.Full? && Branch(t)
    requires forall i | 0 <= i < 16 :: DecodeRef(Link(t.kids[i]), gen).Some?
    ensures Decode(h, Encode(t), gen) == Some(FullNode(kids, Flag(h, gen, false)))
    ensures |kids| == 17 && forall i | 0 <= i < 16 :: kids[i] == DecodeRef(Link(t.kids[i]), gen).value
    ensures kids[16] == if t.kids[16].Empty? then Nil else Value(t.kids[16].value)
  {
    var e := Encode(t);
    assert forall i | 0 <= i < 17 :: e.items[i] == Link(t.kids[i]);
    LinkValue(t.kids[16]);
    assert forall i | 0 <= i < 16 :: DecodeRef(e.items[i], gen).Some?;
    kids := DecodedFull(h, e, gen).value.kids;
  }

  lemma ShortFresh(t: Tree, v: Node, h: Hash, gen: Uint16, s: set<Hash>)
    requires t.Short? && Branch(t) && FreshKid(v, t.child, s)
    requires h == Zero || h == Of(Encode(t))
    ensures Fresh(ShortNode(t.key, v, Flag(h, gen, false)), t, h, gen, s)
  {
    var n := ShortNode(t.key, v, Flag(h, gen, false));
    if if h == Zero then Size(Encode(t)) < 32 else h in s { SoundShort(n, s); }
    if Available(Encode(t), s) { assert Available(Encode(t).items[1], s); }
  }

  lemma FullFresh(t: Tree, kids: seq<Node>, h: Hash, gen: Uint16, s: set<Hash>)
    requires t.Full? && Branch(t) && |kids| == 17
    requires forall i | 0 <= i < 17 :: FreshKid(kids[i], t.kids[i], s)
    requires h == Zero || h == Of(Encode(t))
    ensures Fresh(FullNode(kids, Flag(h, gen, false)), t, h, gen, s)
  {
    assert |t.kids| == 17;
    hide Filled, CachedUp, DirtyUp, Kept, Good, Sized, Encode, Branch, Loadable, Available;
    var n := FullNode(kids, Flag(h, gen, false));
    assert Denotes(n).kids == t.kids;
    assert forall i | 0 <= i < 17 :: Sound(kids[i], s) && Sized(kids[i]) && AllClean(kids[i]) && Filled(kids[i]);
    FullFilled(n);
    if if h == Zero then Size(Encode(t)) < 32 else h in s { SoundFull(n, s); }
    KidsLoadable(t, kids, h, gen, s);
  }

  lemma FullFilled(n: Node)
    requires n.FullNode? && Branch(Denotes(n)) && forall i | 0 <= i < |n.kids| :: Filled(n.kids[i])
    ensures n.flags.hash != Zero || Size(Encode(Denotes(n))) < 32 ==> Filled(n)
  {
    hide Branch, Encode;
  }

  lemma KidsLoadable(t: Tree, kids: seq<Node>, h: Hash, gen: Uint16, s: set<Hash>)
    requires t.Full? && Branch(t) && |kids| == 17
    requires forall i | 0 <= i < 17 :: Available(Link(t.kids[i]), s) ==> Loadable(kids[i], s)
    ensures Available(Encode(t), s) ==> Loadable(FullNode(kids, Flag(h, gen, false)), s)
  {
    if Available(Encode(t), s) {
      forall i | 0 <= i < 17 ensures Loadable(kids[i], s) {
        assert Available(Encode(t).items[i], s);
      }
    }
  }
}
