/**
 Merkle proofs: the encoded nodes on the way to a key, and their verification
 against a root hash alone.
 */
module Proofs {
  import opened Rlp
  import opened Encoding
  import opened Trees
  import opened Nodes
  import opened History
  import opened Databases
  import opened LeafRefs
  import opened Hashers
  import opened Tries
  import Ops
  import Raws

  // ---------- the elements of a proof ----------

  /** The nodes that lead to a key, from the root down, embedded ones included. */
  function Spine(t: Tree, key: Hex): seq<Tree> {
    match t
    case Short(k, c) => [t] + if k <= key then Spine(c, key[|k|..]) else []
    case Full(kids) => [t] + if key != [] && key[0] < |kids| then Spine(kids[key[0]], key[1..]) else []
    case _ => []
  }

  function HashOf(t: Tree): Hash {
    if Branch(t) then Of(Encode(t)) else Zero
  }

  /** Large enough to be stored under its own hash. */
  predicate Large(t: Tree) {
    Branch(t) && Size(Encode(t)) >= 32
  }

  function LargeHashes(ts: seq<Tree>): seq<Hash> {
    if ts == [] then [] else (if Large(ts[0]) then [HashOf(ts[0])] else []) + LargeHashes(ts[1..])
  }

  /** The root of the way and every further node that its parent refers to by hash. */
  function Elements(ts: seq<Tree>): seq<Hash> {
    if ts == [] then [] else [HashOf(ts[0])] + LargeHashes(ts[1..])
  }

  /** The hashes under which a verifier needs a node to find out about a key. */
  function ProofPath(t: Tree, key: Bytes): seq<Hash> {
    Elements(Spine(t, KeyHex(key)))
  }

  lemma {:induction false} LargeJoin(a: seq<Tree>, b: seq<Tree>)
    ensures LargeHashes(a + b) == LargeHashes(a) + LargeHashes(b)
  {
    hide Large, HashOf;
    if a == [] {
      assert a + b == b;
    } else {
      LargeJoin(a[1..], b);
      assert (a + b)[1..] == a[1..] + b && (a + b)[0] == a[0];
    }
  }

  lemma ElementsJoin(a: seq<Tree>, b: seq<Tree>)
    requires a != []
    ensures Elements(a + b) == Elements(a) + LargeHashes(b)
  {
    assert (a + b)[1..] == a[1..] + b;
    LargeJoin(a[1..], b);
  }

  lemma ElementsNext(a: seq<Tree>, t: Tree)
    ensures Elements(a + [t]) == Elements(a) + if a == [] || Large(t) then [HashOf(t)] else []
  {
    if a != [] { ElementsJoin(a, [t]); }
  }

  // ---------- proving ----------

  ghost function Denoted(nodes: seq<Node>): seq<Tree> {
    seq(|nodes|, i requires 0 <= i < |nodes| => Denotes(nodes[i]))
  }

  lemma DenotedNext(nodes: seq<Node>, n: Node)
    ensures Denoted(nodes + [n]) == Denoted(nodes) + [Denotes(n)]
  {
  }

  /** A node on the way to a key: the root as it is, any other as its parent holds it. */
  ghost predicate OnWay(n: Node, s: set<Hash>, top: bool) {
    Sound(n, s) && if top then Rooted(n) else Sized(n)
  }

  ghost predicate AllOnWay(nodes: seq<Node>, s: set<Hash>) {
    forall i | 0 <= i < |nodes| :: Ready(nodes[i], s, false, i == 0) && (nodes[i].ShortNode? || nodes[i].FullNode?)
  }

  lemma AllOnWayNext(nodes: seq<Node>, n: Node, s: set<Hash>)
    requires AllOnWay(nodes, s) && OnWay(n, s, nodes == []) && (n.ShortNode? || n.FullNode?) && Branch(Denotes(n))
    ensures AllOnWay(nodes + [n], s)
  {
    hide Sound, Branch, Denotes, Sized;
    forall i | 0 <= i < |nodes| + 1
      ensures var m := (nodes + [n])[i]; Ready(m, s, false, i == 0) && (m.ShortNode? || m.FullNode?)
    {
      if i < |nodes| { assert (nodes + [n])[i] == nodes[i]; }
    }
  }

  /** One step down from a loaded node. */
  lemma StepShort(db: Store, n: Node, key: Hex, top: bool)
    requires Ops.Usable(db, n, key) && n.ShortNode? && OnWay(n, db.Keys, top)
    ensures Branch(Denotes(n))
    ensures n.key <= key ==>
              && Ops.Usable(db, n.val, key[|n.key|..]) && OnWay(n.val, db.Keys, false)
              && Spine(Denotes(n), key) == [Denotes(n)] + Spine(Denotes(n.val), key[|n.key|..])
              && |key[|n.key|..]| < |key|
    ensures !(n.key <= key) ==> Spine(Denotes(n), key) == [Denotes(n)]
    ensures Loadable(n, db.Keys) ==> Loadable(n.val, db.Keys)
  {
    hide Encode, Size;
    SoundVal(n, db.Keys);
    if n.key <= key { Ops.UsableShort(db, n, key); }
  }

  lemma StepFull(db: Store, n: Node, key: Hex, top: bool)
    requires Ops.Usable(db, n, key) && n.FullNode? && OnWay(n, db.Keys, top)
    ensures Branch(Denotes(n)) && key != [] && key[0] < |n.kids|
    ensures Ops.Usable(db, n.kids[key[0]], key[1..]) && OnWay(n.kids[key[0]], db.Keys, false)
    ensures Spine(Denotes(n), key) == [Denotes(n)] + Spine(Denotes(n.kids[key[0]]), key[1..])
    ensures Loadable(n, db.Keys) ==> Loadable(n.kids[key[0]], db.Keys)
  {
    hide Encode, Size;
    Ops.UsableFull(db, n, key);
    SoundKid(n, db.Keys, key[0]);
  }

  lemma StepHash(db: Store, n: Node, key: Hex, gen: Uint16, top: bool)
    requires Ops.Usable(db, n, key) && n.HashNode? && OnWay(n, db.Keys, top)
    ensures n.hash != Zero
    ensures n.hash !in db ==> Ops.Resolve(db, n.hash, gen).None? && !Loadable(n, db.Keys)
    ensures n.hash in db ==>
              var r := Ops.Resolve(db, n.hash, gen);
              && r.Some? && (r.value.ShortNode? || r.value.FullNode?)
              && Ops.Usable(db, r.value, key) && OnWay(r.value, db.Keys, top)
              && Denotes(r.value) == Denotes(n) && (Loadable(n, db.Keys) ==> Loadable(r.value, db.Keys))
  {
    if n.hash in db {
      Ops.UsableHash(db, n, key, gen);
      Ops.ResolveSpec(db, n, gen);
      DecodeEncode(Denotes(n), n.hash, gen, db.Keys);
    }
  }

  /** Collects the nodes on the way to a key; fails only on a node that cannot be loaded. */
  method Collect(t: Trie, key: Bytes) returns (nodes: seq<Node>, error: bool)
    requires t.Valid()
    ensures error ==> !t.Complete()
    ensures !error ==> Denoted(nodes) == Spine(Denotes(t.root), KeyHex(key)) && AllOnWay(nodes, Known(t.db))
  {
    hide Database.Valid, Sound, Loadable, Denotes, Spine, Ops.Usable, AllOnWay, OnWay, Ops.Resolve, Denoted, KeyHex;
    hide Root;
    var tn, rest := t.root, KeyHex(key);
    t.db.ViewAddressed();
    ghost var db, way := t.db.View(), Spine(Denotes(tn), rest);
    nodes := [];
    WayStart(db, tn, key);
    while |rest| > 0 && tn != Nil
      invariant Ops.Usable(db, tn, rest) && OnWay(tn, db.Keys, nodes == [])
      invariant way == Denoted(nodes) + Spine(Denotes(tn), rest)
      invariant AllOnWay(nodes, db.Keys)
      invariant Loadable(t.root, db.Keys) ==> Loadable(tn, db.Keys)
      decreases |rest|, tn.HashNode?
    {
      ghost var before := nodes;
      match tn
      case ShortNode(k, v, _) =>
        StepShort(db, tn, rest, nodes == []);
        AllOnWayNext(nodes, tn, db.Keys);
        DenotedNext(nodes, tn);
        nodes := nodes + [tn];
        if |rest| < |k| || k != rest[..|k|] {
          // The trie does not hold the key.
          tn := Nil;
          WayEnds(db, rest, nodes);
          break;
        } else {
          tn, rest := v, rest[|k|..];
        }
      case FullNode(kids, _) =>
        StepFull(db, tn, rest, nodes == []);
        AllOnWayNext(nodes, tn, db.Keys);
        DenotedNext(nodes, tn);
        nodes := nodes + [tn];
        tn, rest := kids[rest[0]], rest[1..];
      case HashNode(h) =>
        StepHash(db, tn, rest, t.cachegen, nodes == []);
        var r := t.db.NodeAt(h, t.cachegen);
        if r.None? { return nodes, true; }
        tn := r.value;
      case Value(_) =>
        NoValue(db, tn, rest);
        assert false;
    }
    error := false;
    assert Spine(Denotes(tn), rest) == [] by { WayDone(db, tn, rest); }
  }

  lemma WayStart(db: Store, n: Node, key: Bytes)
    requires Addressed(db) && Root(n, db.Keys)
    ensures Ops.Usable(db, n, KeyHex(key)) && OnWay(n, db.Keys, true)
    ensures Denoted([]) == [] && AllOnWay([], db.Keys)
  {
    RootUsable(db, n, key);
  }

  lemma WayEnds(db: Store, rest: Hex, nodes: seq<Node>)
    ensures Spine(Denotes(Nil), rest) == []
  {
  }

  lemma WayDone(db: Store, n: Node, rest: Hex)
    requires n == Nil || (Ops.Usable(db, n, rest) && rest == [])
    ensures Spine(Denotes(n), rest) == []
  {
  }

  lemma NoValue(db: Store, n: Node, rest: Hex)
    requires n.Value? && rest != []
    ensures !Ops.Usable(db, n, rest)
  {
  }

  function Skip(s: seq<Hash>, n: nat): seq<Hash> {
    if n >= |s| then [] else s[n..]
  }

  /** A proof set with nodes added under their hashes. */
  function WithNodes(db: Store, hs: seq<Hash>): Store {
    db + map h | h in hs && h.Of? :: h.pre
  }

  lemma SkipNext(s: seq<Hash>, h: Hash, n: nat)
    ensures Skip(s + [h], n) == if |s| < n then [] else Skip(s, n) + [h]
  {
  }

  lemma WithNext(db: Store, hs: seq<Hash>, h: Hash)
    requires h.Of?
    ensures WithNodes(db, hs + [h]) == WithNodes(db, hs)[h := h.pre]
  {
  }

  /** Adds the proof of a key to a proof set, leaving out the first levels; the trie stays as it is. */
  method Prove(t: Trie, key: Bytes, fromLevel: nat, proofDb: Store) returns (proof: Store, error: bool)
    requires t.Valid()
    ensures error ==> proof == proofDb && !t.Complete()
    ensures !error ==> proof == WithNodes(proofDb, Skip(ProofPath(Denotes(t.root), key), fromLevel))
  {
    hide Database.Valid, Root, Loadable, Known, Ready, Denotes, Encode, ChildrenHashed, HashedAs, CollapsedAs;
    hide Raws.EncodeCollapsed;
    hide WithNodes, Skip, Elements, Spine, Denoted, KeyHex;
    var nodes;
    nodes, error := Collect(t, key);
    if error { return proofDb, true; }
    ghost var s, trees := Known(t.db), Denoted(nodes);
    var level := fromLevel;
    proof := proofDb;
    StartAdding(proofDb, nodes, fromLevel);
    for i := 0 to |nodes|
      invariant |trees| == |nodes|
      invariant level == if fromLevel <= |Elements(trees[..i])| then 0 else fromLevel - |Elements(trees[..i])|
      invariant proof == WithNodes(proofDb, Skip(Elements(trees[..i]), fromLevel))
    {
      ghost var tree := Denotes(nodes[i]);
      var n, cached := HashChildren(nodes[i], t.db, false, i == 0, 0, 0, NoCallback);
      assert CollapsedAs(n, tree) by { CollapsedTree(nodes[i], n, cached, s); }
      var hn := Hashers.Store(n, t.db, false, false, NoCallback, tree);
      StoredTree(n, hn, tree);
      AddedNext(proofDb, nodes, i, fromLevel);
      if hn.CHash? || i == 0 {
        if level > 0 {
          level := level - 1;
        } else {
          var enc := Raws.EncodeCollapsed(n);
          var h := if hn.CHash? then hn.hash else Of(enc);
          proof := proof[h := enc];
        }
      }
    }
    assert trees[..|nodes|] == trees;
  }

  lemma StartAdding(proofDb: Store, nodes: seq<Node>, fromLevel: nat)
    ensures Elements(Denoted(nodes)[..0]) == [] && |Denoted(nodes)| == |nodes|
    ensures WithNodes(proofDb, Skip([], fromLevel)) == proofDb
  {
  }

  lemma CollapsedTree(n: Node, c: Raws.Collapsed, cached: Node, s: set<Hash>)
    requires ChildrenHashed(n, c, cached, s, s, false)
    ensures CollapsedAs(c, Denotes(n))
  {
  }

  lemma StoredTree(c: Raws.Collapsed, hashed: Raws.Collapsed, t: Tree)
    requires CollapsedAs(c, t) && HashedAs(hashed, t, false) && (hashed.CHash? <==> false || Size(Encode(t)) >= 32)
    ensures Branch(t) && Raws.EncodeCollapsed(c) == Encode(t)
    ensures hashed.CHash? <==> Large(t)
    ensures hashed.CHash? ==> hashed.hash == HashOf(t)
    ensures HashOf(t) == Of(Encode(t))
  {
    hide Encode;
  }

  lemma AddedNext(proofDb: Store, nodes: seq<Node>, i: nat, fromLevel: nat)
    requires i < |nodes| && Branch(Denotes(nodes[i]))
    ensures var ts, t := Denoted(nodes), Denotes(nodes[i]);
            && |ts| == |nodes|
            && Elements(ts[..i + 1]) == (if i == 0 || Large(t) then Elements(ts[..i]) + [HashOf(t)] else Elements(ts[..i]))
            && (i == 0 || Large(t) ==>
                  WithNodes(proofDb, Skip(Elements(ts[..i + 1]), fromLevel)) ==
                  if |Elements(ts[..i])| < fromLevel then WithNodes(proofDb, Skip(Elements(ts[..i]), fromLevel))
                  else WithNodes(proofDb, Skip(Elements(ts[..i]), fromLevel))[HashOf(t) := HashOf(t).pre])
  {
    hide Denotes, Branch, Elements, WithNodes;
    var ts, t := Denoted(nodes), Denotes(nodes[i]);
    assert ts[..i + 1] == ts[..i] + [t];
    ElementsNext(ts[..i], t);
    SkipNext(Elements(ts[..i]), HashOf(t), fromLevel);
    WithNext(proofDb, Skip(Elements(ts[..i]), fromLevel), HashOf(t));
  }

  // ---------- verifying ----------

  /** A child as it is decoded inside its parent. */
  function AsKid(t: Tree): Node {
    if IsLeaf(t) then Value(t.value)
    else if !Branch(t) then Nil
    else if Large(t) then HashNode(HashOf(t))
    else
      match Decode(Zero, Encode(t), 0)
      case Some(n) => n
      case None => Nil
  }

  /** A node whose children are as they are decoded inside it. */
  predicate Shows(n: Node, t: Tree) {
    match t
    case Short(k, c) => n.ShortNode? && n.key == k && n.val == AsKid(c)
    case Full(kids) => n.FullNode? && |n.kids| == |kids| && forall i | 0 <= i < |kids| :: n.kids[i] == AsKid(kids[i])
    case _ => false
  }

  lemma KidRef(t: Tree)
    requires Canonical(t)
    ensures DecodeRef(Link(t), 0) == Some(AsKid(t))
  {
    if Branch(t) && !Large(t) { DecodeEncode(t, Zero, 0, {}); }
  }

  lemma DecodeShows(t: Tree, h: Hash)
    requires Branch(t) && (h == Zero || h == HashOf(t))
    ensures Decode(h, Encode(t), 0).Some? && Shows(Decode(h, Encode(t), 0).value, t)
  {
    if t.Short? { ShortShows(t, h); } else { FullShows(t, h); }
  }

  lemma ShortShows(t: Tree, h: Hash)
    requires t.Short? && Branch(t) && (h == Zero || h == HashOf(t))
    ensures Decode(h, Encode(t), 0).Some? && Shows(Decode(h, Encode(t), 0).value, t)
  {
    hide Compact, Uncompact;
    CompactRoundTrip(t.key);
    if HasTerm(t.key) { LinkValue(t.child); } else { KidRef(t.child); }
  }

  lemma FullShows(t: Tree, h: Hash)
    requires t.Full? && Branch(t) && (h == Zero || h == HashOf(t))
    ensures Decode(h, Encode(t), 0).Some? && Shows(Decode(h, Encode(t), 0).value, t)
  {
    hide AsKid, Link;
    forall i | 0 <= i < 16 ensures DecodeRef(Link(t.kids[i]), 0) == Some(AsKid(t.kids[i])) { KidRef(t.kids[i]); }
    var kids := DecodedKids(t, h, 0);
    ValueKid(t);
    assert kids[16] == AsKid(t.kids[16]);
    hide Decode, Encode, Branch;
  }

  lemma ValueKid(t: Tree)
    requires t.Full? && Branch(t)
    ensures |t.kids| == 17 && AsKid(t.kids[16]) == if t.kids[16].Empty? then Nil else Value(t.kids[16].value)
  {
    hide Encode, Decode;
  }

  lemma EmbeddedShows(t: Tree)
    requires Branch(t) && !Large(t)
    ensures Shows(AsKid(t), t)
  {
    DecodeShows(t, Zero);
  }

  /** A node met on the way through decoded nodes; any but the first is small enough to be embedded. */
  predicate Meets(n: Node, u: Tree, top: bool) {
    if n.ShortNode? || n.FullNode? then Branch(u) && Shows(n, u) && (top || !Large(u))
    else Part(u) && n == AsKid(u)
  }

  lemma MeetsKid(c: Tree)
    requires Part(c)
    ensures Meets(AsKid(c), c, false)
  {
    if Branch(c) {
      DecodeEncode(c, Zero, 0, {});
      if !Large(c) { EmbeddedShows(c); }
    }
  }

  lemma GetShort(n: Node, u: Tree, key: Hex, top: bool)
    requires n.ShortNode? && Meets(n, u, top) && Ops.Slot(u, key)
    ensures u.Short? && n.key == u.key && key != []
    ensures u.key <= key ==>
              && Meets(n.val, u.child, false) && Ops.Slot(u.child, key[|u.key|..]) && u.key != []
              && Lookup(u, key) == Lookup(u.child, key[|u.key|..])
              && Spine(u, key) == [u] + Spine(u.child, key[|u.key|..])
    ensures !(u.key <= key) ==> Lookup(u, key) == None && Spine(u, key) == [u]
  {
    BranchShort(u);
    MeetsKid(u.child);
    if u.key <= key { Ops.SlotShort(u, key); }
  }

  lemma GetFull(n: Node, u: Tree, key: Hex, top: bool)
    requires n.FullNode? && Meets(n, u, top) && Ops.Slot(u, key)
    ensures u.Full? && |u.kids| == |n.kids| == 17 && key != []
    ensures Meets(n.kids[key[0]], u.kids[key[0]], false) && Ops.Slot(u.kids[key[0]], key[1..])
    ensures Lookup(u, key) == Lookup(u.kids[key[0]], key[1..])
    ensures Spine(u, key) == [u] + Spine(u.kids[key[0]], key[1..])
  {
    Ops.SlotFull(u, key);
    MeetsKid(u.kids[key[0]]);
  }

  /** The way inside one decoded node: the node and embedded nodes only. */
  ghost predicate Inside(way: seq<Tree>, t: Tree) {
    way != [] && way[0] == t && LargeHashes(way[1..]) == []
  }

  lemma InsideNext(way: seq<Tree>, t: Tree, u: Tree)
    requires if way == [] then u == t else Inside(way, t) && !Large(u)
    ensures Inside(way + [u], t)
  {
    if way != [] {
      assert (way + [u])[1..] == way[1..] + [u];
      LargeJoin(way[1..], [u]);
    }
  }

  /** The possible ends of the way inside a node. */
  ghost predicate Leads(t: Tree, key: Hex, way: seq<Tree>, u: Tree, rest: Hex) {
    && Part(u) && Ops.Slot(u, rest) && Inside(way, t)
    && Lookup(t, key) == Lookup(u, rest)
    && Spine(t, key) == way + Spine(u, rest)
  }

  lemma LeadsNowhere(t: Tree, key: Hex, way: seq<Tree>, u: Tree, rest: Hex)
    requires Inside(way + [u], t) && Lookup(t, key) == Lookup(u, rest) == None
    requires Spine(t, key) == way + Spine(u, rest) && Spine(u, rest) == [u]
    ensures Leads(t, key, way + [u], Empty, []) && AsKid(Empty) == Nil
  {
    assert way + [u] == way + [u] + Spine(Empty, []);
  }

  /**
   Follows a key inside one decoded node, through what is embedded in it, to a value,
   to nothing, or to the hash of the next node; u is the tree at that point.
   */
  method Get(n: Node, key: Hex, ghost t: Tree) returns (keyrest: Hex, cld: Node, ghost way: seq<Tree>, ghost u: Tree)
    requires Branch(t) && Shows(n, t) && Ops.Slot(t, key)
    ensures (cld.Nil? || cld.Value? || cld.HashNode?) && cld == AsKid(u)
    ensures Leads(t, key, way, u, keyrest) && |keyrest| < |key|
  {
    hide Branch, AsKid, Spine, Large, Meets, Ops.Slot, Lookup, Inside;
    var tn, rest := n, key;
    way, u := [], t;
    MeetsTop(n, t);
    while true
      invariant Meets(tn, u, way == []) && Ops.Slot(u, rest)
      invariant Lookup(t, key) == Lookup(u, rest)
      invariant Spine(t, key) == way + Spine(u, rest)
      invariant if way == [] then u == t && tn == n && rest == key else Inside(way, t) && |rest| < |key|
      decreases |rest|
    {
      match tn
      case ShortNode(k, v, _) =>
        GetShort(tn, u, rest, way == []);
        MeetsSmall(tn, u, way == []);
        InsideNext(way, t, u);
        if |rest| < |k| || k != rest[..|k|] {
          LeadsNowhere(t, key, way, u, rest);
          return [], Nil, way + [u], Empty;
        }
        assert way + Spine(u, rest) == way + [u] + Spine(u.child, rest[|k|..]);
        way, u, tn, rest := way + [u], u.child, v, rest[|k|..];
      case FullNode(kids, _) =>
        GetFull(tn, u, rest, way == []);
        MeetsSmall(tn, u, way == []);
        InsideNext(way, t, u);
        assert way + Spine(u, rest) == way + [u] + Spine(u.kids[rest[0]], rest[1..]);
        way, u, tn, rest := way + [u], u.kids[rest[0]], kids[rest[0]], rest[1..];
      case HashNode(_) =>
        MeetsEnd(tn, u, way == []);
        return rest, tn, way, u;
      case Nil =>
        MeetsEnd(tn, u, way == []);
        return rest, Nil, way, u;
      case Value(_) =>
        MeetsEnd(tn, u, way == []);
        ValueEnds(tn, u, rest);
        return [], tn, way, u;
    }
  }

  lemma MeetsTop(n: Node, t: Tree)
    requires Branch(t) && Shows(n, t)
    ensures Meets(n, t, true) && (n.ShortNode? || n.FullNode?)
  {
  }

  lemma MeetsSmall(n: Node, u: Tree, top: bool)
    requires Meets(n, u, top) && (n.ShortNode? || n.FullNode?)
    ensures top || !Large(u)
  {
  }

  lemma MeetsEnd(n: Node, u: Tree, top: bool)
    requires Meets(n, u, top) && !n.ShortNode? && !n.FullNode?
    ensures Part(u) && n == AsKid(u)
  {
  }

  lemma ValueEnds(n: Node, u: Tree, rest: Hex)
    requires n.Value? && n == AsKid(u) && Ops.Slot(u, rest)
    ensures rest == []
  {
    if Branch(u) && !Large(u) { EmbeddedShows(u); }
  }

  /** What the end of the way inside a node says about the key. */
  lemma LeadsTo(u: Tree, rest: Hex)
    requires Part(u) && Ops.Slot(u, rest)
    ensures AsKid(u).Nil? ==> Lookup(u, rest) == None && Spine(u, rest) == []
    ensures AsKid(u).Value? ==> Lookup(u, rest) == Some(AsKid(u).bytes) && Spine(u, rest) == []
    ensures AsKid(u).HashNode? ==> Large(u) && AsKid(u).hash == HashOf(u)
  {
    if Branch(u) && !Large(u) { EmbeddedShows(u); }
  }

  /** The proof set covers every node on the way. */
  predicate Covers(db: Store, path: seq<Hash>) {
    forall h | h in path :: h in db
  }

  /** The nodes of a proof met so far, the one wanted next, and the rest. */
  ghost predicate Walked(root: Tree, key: Hex, done: seq<Tree>, cur: Tree, rest: Hex, db: Store, i: nat) {
    && Branch(cur) && Ops.Slot(cur, rest) && (done == [] || Large(cur))
    && Lookup(root, key) == Lookup(cur, rest)
    && Spine(root, key) == done + Spine(cur, rest)
    && |Elements(done)| == i && Covers(db, Elements(done))
  }

  lemma SpineHead(t: Tree, key: Hex)
    requires Branch(t)
    ensures var s := Spine(t, key); s != [] && s[0] == t
  {
  }

  lemma WalkedMissing(root: Tree, key: Hex, done: seq<Tree>, cur: Tree, rest: Hex, db: Store, i: nat)
    requires Walked(root, key, done, cur, rest, db, i)
    ensures var path := Elements(Spine(root, key)); |path| > i && path[i] == HashOf(cur) && Covers(db, path[..i])
  {
    hide Spine, LargeHashes, Elements, Lookup, Branch, Encode, Large, HashOf, Ops.Slot;
    var path := Elements(Spine(root, key));
    var s := Spine(cur, rest);
    SpineHead(cur, rest);
    assert Spine(root, key) == (done + [cur]) + s[1..];
    ElementsNext(done, cur);
    ElementsJoin(done + [cur], s[1..]);
    assert path[..i] == Elements(done);
  }

  lemma WalkedNode(root: Tree, key: Hex, done: seq<Tree>, cur: Tree, rest: Hex, db: Store, i: nat,
                   way: seq<Tree>, u: Tree, keyrest: Hex)
    requires Walked(root, key, done, cur, rest, db, i) && HashOf(cur) in db && Leads(cur, rest, way, u, keyrest)
    ensures Spine(root, key) == (done + way) + Spine(u, keyrest)
    ensures Lookup(root, key) == Lookup(u, keyrest)
    ensures |Elements(done + way)| == i + 1 && Covers(db, Elements(done + way))
  {
    hide Spine, LargeHashes, Elements, Lookup, Branch, Encode, Large, HashOf, Ops.Slot;
    assert done + way == (done + [cur]) + way[1..];
    assert Elements(done + [cur]) + [] == Elements(done + [cur]);
    ElementsNext(done, cur);
    ElementsJoin(done + [cur], way[1..]);
  }

  /**
   Verifies a proof. With a content-addressed proof set an answer without error is the
   answer of the trie with the root hash, and there is no error exactly when the set
   covers the way to the key. The node count is that of the nodes read before the
   answer was known, not counting the last one when the answer is absence.
   */
  method VerifyProof(rootHash: Hash, key: Bytes, proofDb: Store) returns (value: Option<Bytes>, nodes: nat, error: bool)
    requires Addressed(proofDb) && IsRoot(rootHash)
    ensures error <==> TreeOf(rootHash) == Empty || !Covers(proofDb, ProofPath(TreeOf(rootHash), key))
    ensures error ==> value == None
    ensures !error ==> value == Lookup(TreeOf(rootHash), KeyHex(key))
    ensures !error ==> nodes == |ProofPath(TreeOf(rootHash), key)| - if value == None then 1 else 0
    ensures error && TreeOf(rootHash) != Empty ==>
              var path := ProofPath(TreeOf(rootHash), key);
              nodes < |path| && path[nodes] !in proofDb && Covers(proofDb, path[..nodes])
  {
    hide Branch, AsKid, Spine, Large, Ops.Slot, Lookup, Walked, Elements, HashOf, KeyHex, IsRoot, TreeOf, Leads, Decode;
    ghost var root := TreeOf(rootHash);
    EmptyRoot(rootHash);
    var rest, wantHash, i := KeyHex(key), rootHash, 0;
    ghost var done, cur := [], root;
    if root != Empty { WalkStarts(rootHash, key, proofDb); }
    while true
      invariant root != Empty ==> Walked(root, KeyHex(key), done, cur, rest, proofDb, i) && wantHash == HashOf(cur)
      invariant root == Empty ==> i == 0 && wantHash == rootHash
      decreases |rest|
    {
      if wantHash !in proofDb {
        if root != Empty { WalkedMissing(root, KeyHex(key), done, cur, rest, proofDb, i); }
        return None, i, true;
      }
      var buf := proofDb[wantHash];
      var decoded := Decode(wantHash, buf, 0);
      if root == Empty {
        assert decoded == None by { BadRoot(rootHash); }
      } else {
        WalkedDecodes(root, KeyHex(key), done, cur, rest, proofDb, i, wantHash);
      }
      if decoded.None? {
        return None, i, true;
      }
      var keyrest, cld; ghost var way, u;
      keyrest, cld, way, u := Get(decoded.value, rest, cur);
      WalkedNode(root, KeyHex(key), done, cur, rest, proofDb, i, way, u, keyrest);
      LeadsPart(cur, rest, way, u, keyrest);
      LeadsTo(u, keyrest);
      match cld
      case Nil =>
        assert (done + way) + [] == done + way;
        return None, i, false;
      case Value(v) =>
        assert (done + way) + [] == done + way;
        return Some(v), i + 1, false;
      case HashNode(h) =>
        WalkedOn(root, KeyHex(key), done + way, u, keyrest, proofDb, i + 1);
        rest, wantHash, i := keyrest, h, i + 1;
        done, cur := done + way, u;
    }
  }

  lemma WalkStarts(h: Hash, key: Bytes, db: Store)
    requires IsRoot(h) && TreeOf(h) != Empty
    ensures Walked(TreeOf(h), KeyHex(key), [], TreeOf(h), KeyHex(key), db, 0) && h == HashOf(TreeOf(h))
  {
    EmptyRoot(h);
    KeyRoundTrip(key);
    assert [] + Spine(TreeOf(h), KeyHex(key)) == Spine(TreeOf(h), KeyHex(key));
  }

  lemma BadRoot(h: Hash)
    requires h == Zero || h == EMPTY_ROOT
    ensures h.Of? ==> Decode(h, h.pre, 0) == None
  {
  }

  lemma WalkedDecodes(root: Tree, key: Hex, done: seq<Tree>, cur: Tree, rest: Hex, db: Store, i: nat, h: Hash)
    requires Walked(root, key, done, cur, rest, db, i) && h == HashOf(cur)
    ensures Branch(cur) && Ops.Slot(cur, rest) && h.Of?
    ensures Decode(h, h.pre, 0).Some? && Shows(Decode(h, h.pre, 0).value, cur)
  {
    DecodeShows(cur, h);
  }

  lemma LeadsPart(t: Tree, key: Hex, way: seq<Tree>, u: Tree, rest: Hex)
    requires Leads(t, key, way, u, rest)
    ensures Part(u) && Ops.Slot(u, rest)
  {
  }

  lemma WalkedOn(root: Tree, key: Hex, done: seq<Tree>, cur: Tree, rest: Hex, db: Store, i: nat)
    requires Large(cur) && Ops.Slot(cur, rest) && Lookup(root, key) == Lookup(cur, rest)
    requires Spine(root, key) == done + Spine(cur, rest) && |Elements(done)| == i && Covers(db, Elements(done))
    ensures Walked(root, key, done, cur, rest, db, i)
  {
  }

  // ---------- both together ----------

  lemma {:induction false} ElementsHashed(t: Tree, key: Hex, h: Hash)
    requires Branch(t) && h in Elements(Spine(t, key))
    ensures h.Of?
  {
    var s := Spine(t, key);
    assert s[0] == t;
    if h != HashOf(t) { LargeHashed(s[1..], h); }
  }

  lemma {:induction false} LargeHashed(ts: seq<Tree>, h: Hash)
    requires h in LargeHashes(ts)
    ensures h.Of?
  {
    if !(Large(ts[0]) && h == HashOf(ts[0])) { LargeHashed(ts[1..], h); }
  }

  lemma ProofCovers(t: Tree, key: Bytes, db: Store)
    requires Canonical(t) && Addressed(db)
    ensures var p := WithNodes(db, Skip(ProofPath(t, key), 0)); Addressed(p) && Covers(p, ProofPath(t, key))
  {
    var path := ProofPath(t, key);
    assert path != [] ==> Skip(path, 0) == path;
    forall h | h in path ensures h.Of? { ElementsHashed(t, KeyHex(key), h); }
  }

  lemma RootShape(n: Node, s: set<Hash>)
    requires Root(n, s)
    ensures Canonical(Denotes(n)) && (n == Nil <==> Denotes(n) == Empty)
  {
  }

  /**
   A proof made by a complete non-empty trie, whatever else is in the proof set, always
   verifies against its root hash with what the trie holds.
   */
  method ProveAndVerify(t: Trie, key: Bytes, proofDb: Store) returns (value: Option<Bytes>, error: bool)
    requires t.Valid() && t.Complete() && Addressed(proofDb)
    modifies t`root
    ensures t.Valid() && Denotes(t.root) == old(Denotes(t.root))
    ensures error <==> t.root == Nil
    ensures !error ==> value == t.At(key)
  {
    hide Database.Valid, Loadable, WithNodes, Skip, ProofPath, Covers, IsRoot, TreeOf, Lookup, KeyHex;
    var root := t.Hash();
    var proof, failed := Prove(t, key, 0, proofDb);
    RootShape(t.root, Known(t.db));
    ProofCovers(Denotes(t.root), key, proofDb);
    var nodes;
    value, nodes, error := VerifyProof(root, key, proof);
  }
}
