/**
 Live tries beside their database: what committing with a leaf callback, flushing and
 garbage collection leave of a trie that is still in use.
 */
module LiveTries {
  import opened Rlp
  import opened Encoding
  import opened Trees
  import opened Nodes
  import opened Raws
  import opened History
  import opened Caches
  import opened CacheRuns
  import opened CacheCommit
  import opened CacheCap
  import opened Databases
  import opened LeafRefs
  import opened Hashers
  import opened Tries

  // ---------- what a trie needs ----------

  /** The hashes a trie node counts on: those of its clean nodes, and all that its unloaded parts reach. */
  ghost predicate Needs(n: Node, x: Hash) {
    match n
    case Nil => false
    case Value(_) => false
    case HashNode(h) => Inside(x, h)
    case ShortNode(_, v, f) => (Settled(f) && f.hash == x) || Needs(v, x)
    case FullNode(kids, f) => (Settled(f) && f.hash == x) || exists i | 0 <= i < |kids| :: Needs(kids[i], x)
  }

  /** An item is available exactly if all it reaches is there. */
  lemma {:induction false} AvailableExactly(i: Item, s: set<Hash>)
    requires forall h | h in s :: h.Of?
    ensures Available(i, s) <==> forall x | InsideItem(x, i) :: x in s
  {
    match i {
      case Str(_) =>
      case Ref(h) =>
        assert forall x :: InsideItem(x, i) <==> Inside(x, h);
        assert Inside(h, h);
        if h.Of? {
          AvailableExactly(h.pre, s);
          assert forall x | InsideItem(x, h.pre) :: Inside(x, h);
        }
      case List(items) =>
        forall k | 0 <= k < |items| ensures Available(items[k], s) <==> forall x | InsideItem(x, items[k]) :: x in s {
          AvailableExactly(items[k], s);
        }
        forall k, x | 0 <= k < |items| && InsideItem(x, items[k]) ensures InsideItem(x, i) { }
    }
  }

  /** A trie node is as good as its store exactly if the store has all that it needs. */
  lemma {:induction false} NeedsExactly(n: Node, s: set<Hash>)
    requires forall h | h in s :: h.Of?
    ensures Kept(n, s) && Loadable(n, s) <==> forall x | Needs(n, x) :: x in s
  {
    match n {
      case Nil =>
      case Value(_) =>
      case HashNode(h) =>
        AvailableExactly(Ref(h), s);
        assert forall x :: InsideItem(x, Ref(h)) <==> Inside(x, h);
        assert forall x :: Needs(n, x) <==> Inside(x, h);
      case ShortNode(_, v, f) =>
        NeedsExactly(v, s);
        assert forall x | Needs(v, x) :: Needs(n, x);
        assert Settled(f) ==> Needs(n, f.hash);
      case FullNode(kids, f) =>
        forall i | 0 <= i < |kids| ensures Kept(kids[i], s) && Loadable(kids[i], s) <==> forall x | Needs(kids[i], x) :: x in s {
          NeedsExactly(kids[i], s);
        }
        forall i, x | 0 <= i < |kids| && Needs(kids[i], x) ensures Needs(n, x) { }
        assert Settled(f) ==> Needs(n, f.hash);
    }
  }

  // ---------- flushing ----------

  lemma KnownAfterCap(o0: seq<Hash>, o1: seq<Hash>, w0: seq<Hash>, w1: seq<Hash>, n: nat, ok: bool,
                      a: Cache, b: Cache, base: set<Hash>, d0: set<Hash>, d1: set<Hash>)
    requires Capped(o0, o1, w0, w1, n, ok) && d0 == base + Elems(w0) && d1 == base + Elems(w1)
    requires a.Keys == {Zero} + Elems(o0) && b.Keys == {Zero} + Elems(o1)
    ensures d0 + a.Keys == d1 + b.Keys
  {
    forall x ensures x in w1 <==> x in w0 || x in o0[..n] { }
    assert o0 == o0[..n] + o0[n..];
    forall x ensures x in o0 <==> x in o0[..n] || x in o0[n..] { }
  }

  lemma Listed(db: Database)
    requires db.Valid()
    ensures db.nodes.Keys == {Zero} + Elems(db.order) && db.disk.Keys == db.base + Elems(db.writes)
  {
    hide Resolved, Counted, Ordered, Contents, Linked, SizeSum;
  }

  /** Flushing takes nothing from any trie over the database, whether or not the writes go through. */
  method CapUnder(t: Trie, limit: int) returns (ok: bool)
    requires t.Valid()
    modifies t.db
    ensures t.Valid() && Known(t.db) == old(Known(t.db)) && (old(t.Complete()) ==> t.Complete())
    ensures ok ==> t.db.order == [] || t.db.Usage() <= limit
  {
    hide Database.Valid, Root, Loadable, Capped, Needed, Subcache;
    ghost var o0, w0, a, d0 := t.db.order, t.db.writes, t.db.nodes, t.db.disk.Keys;
    Listed(t.db);
    ok := t.db.Cap(limit);
    Listed(t.db);
    ghost var n :| Capped(o0, t.db.order, w0, t.db.writes, n, ok);
    KnownAfterCap(o0, t.db.order, w0, t.db.writes, n, ok, a, t.db.nodes, t.db.base, d0, t.db.disk.Keys);
  }

  // ---------- garbage collection ----------

  /** After a root loses a reference: what is not on disk has to be reached from what is left. */
  ghost predicate Spared(nodes: Cache, order: seq<Hash>, disk: set<Hash>, root: Hash, x: Hash) {
    && Zero in nodes
    && (x in disk || (x in order && Live(Claimed(nodes, root), order, disk, nodes[Zero].children - multiset{root}, x)))
  }

  /**
   Garbage collection under a live trie: it comes through exactly if everything it needs is on
   disk or reached from the references that are left.
   */
  method DereferenceUnder(t: Trie, root: Hash)
    requires t.Valid() && t.Complete() && root != Zero
    requires Zero in t.db.nodes && Matched(t.db.nodes, t.db.disk.Keys, root)
    modifies t.db
    ensures t.db.Valid()
    ensures t.Valid() && t.Complete() <==>
              forall x | Needs(t.root, x) :: Spared(old(t.db.nodes), old(t.db.order), old(t.db.disk).Keys, root, x)
  {
    hide Database.Valid, Loadable, Live, Needs, Kept, Good, DirtyUp, CachedUp, Filled, Inv, Linked, SizeSum, Durable;
    ghost var a, oa, s := t.db.nodes, t.db.order, Known(t.db);
    NeedsExactly(t.root, s);
    t.db.Dereference(root);
    NeedsExactly(t.root, Known(t.db));
    Collected(a, oa, t.db, root);
  }

  lemma Collected(a: Cache, oa: seq<Hash>, db: Database, root: Hash)
    requires db.Valid() && Zero in a && Dereferenced(Claimed(a, root), oa, db.nodes, db.order, db.disk.Keys, root)
    ensures forall x: Hash | x.Of? :: x in Known(db) <==> Spared(a, oa, db.disk.Keys, root, x)
    ensures forall x | x in Known(db) :: x.Of?
  {
    hide Live, Inv, Linked, SizeSum, Durable;
    Listed(db);
  }

  lemma LiveKid(nodes: Cache, order: seq<Hash>, disk: set<Hash>, roots: multiset<Hash>, h: Hash, c: Hash)
    requires Live(nodes, order, disk, roots, h) && h != Zero && c in Kids(nodes, h)
    ensures Live(nodes, order, disk, roots, c)
  {
    hide Kids, Anchor;
    var p :| Path(nodes, p) && p[|p| - 1] == h && Anchor(nodes, order, disk, roots, p[0]);
    var q := p + [c];
    forall i | 0 <= i < |q| - 1 ensures q[i] != Zero && q[i + 1] in Kids(nodes, q[i]) {
      if i < |p| - 1 { assert p[i + 1] in Kids(nodes, p[i]); }
    }
    assert Path(nodes, q) && q[0] == p[0];
  }

  /** Reached from what is left, or on disk. */
  ghost predicate Safe(nodes: Cache, order: seq<Hash>, disk: set<Hash>, roots: multiset<Hash>, x: Hash) {
    x in disk || Live(nodes, order, disk, roots, x)
  }

  /** All that is inside a safe hash is safe, as long as nothing is missing. */
  lemma {:induction false} InsideSafe(nodes: Cache, order: seq<Hash>, disk: set<Hash>, roots: multiset<Hash>, h: Hash, x: Hash)
    requires Closed(disk) && Safe(nodes, order, disk, roots, h) && Inside(x, h)
    requires Available(Ref(h), disk + nodes.Keys)
    ensures Safe(nodes, order, disk, roots, x)
    decreases h, 1
  {
    hide Live, Kids;
    if x != h {
      forall c | c in Refs(h.pre) ensures Safe(nodes, order, disk, roots, c) {
        assert c in Below(h);
        if h !in disk {
          assert c in Kids(nodes, h) by { KidsBelow(nodes, h, c); }
          LiveKid(nodes, order, disk, roots, h, c);
        }
      }
      InsideItemSafe(nodes, order, disk, roots, h.pre, x);
    }
  }

  lemma KidsBelow(nodes: Cache, h: Hash, c: Hash)
    requires h in nodes && c in Below(h)
    ensures c in Kids(nodes, h)
  {
  }

  lemma {:induction false} InsideItemSafe(nodes: Cache, order: seq<Hash>, disk: set<Hash>, roots: multiset<Hash>, i: Item,
                                          x: Hash)
    requires Closed(disk) && (forall c | c in Refs(i) :: Safe(nodes, order, disk, roots, c)) && InsideItem(x, i)
    requires Available(i, disk + nodes.Keys)
    ensures Safe(nodes, order, disk, roots, x)
    decreases i, 1
  {
    hide Safe;
    match i
    case Ref(h) => InsideSafe(nodes, order, disk, roots, h, x);
    case List(items) =>
      var k :| 0 <= k < |items| && InsideItem(x, items[k]);
      forall c | c in Refs(items[k]) ensures Safe(nodes, order, disk, roots, c) { RefsOfMember(items, k, c); }
      InsideItemSafe(nodes, order, disk, roots, items[k], x);
  }

  lemma InsideLink(t: Tree, x: Hash)
    requires Branch(t) && Inside(x, Of(Encode(t))) && (Size(Encode(t)) >= 32 || InsideItem(x, Encode(t)))
    ensures InsideItem(x, Link(t))
  {
  }

  lemma InsideShort(t: Tree, x: Hash)
    requires Branch(t) && t.Short? && Part(t.child) && InsideItem(x, Link(t.child))
    ensures InsideItem(x, Encode(t)) && Inside(x, Of(Encode(t)))
  {
    hide Link;
    assert Encode(t).items[1] == Link(t.child);
  }

  lemma InsideFull(t: Tree, i: nat, x: Hash)
    requires Branch(t) && t.Full? && i < |t.kids| && Part(t.kids[i]) && InsideItem(x, Link(t.kids[i]))
    ensures InsideItem(x, Encode(t)) && Inside(x, Of(Encode(t)))
  {
    hide Link;
    assert Encode(t).items[i] == Link(t.kids[i]);
  }

  /** What a clean trie needs is inside its hash. */
  lemma {:induction false} CleanNeeds(n: Node, s: set<Hash>, x: Hash)
    requires Sound(n, s) && AllClean(n) && Needs(n, x)
    ensures Branch(Denotes(n)) && Inside(x, Of(Encode(Denotes(n))))
    ensures Sized(n) ==> InsideItem(x, Link(Denotes(n)))
  {
    hide Encode, Link, InsideItem, Kept, DirtyUp, CachedUp, Filled;
    var t := Denotes(n);
    match n {
      case HashNode(h) =>
      case ShortNode(_, v, f) =>
        SoundVal(n, s);
        if !(Settled(f) && f.hash == x) {
          CleanNeeds(v, s, x);
          InsideShort(t, x);
        }
      case FullNode(kids, f) =>
        SoundKid(n, s, 0);
        if !(Settled(f) && f.hash == x) {
          var i :| 0 <= i < |kids| && Needs(kids[i], x);
          SoundKid(n, s, i);
          CleanNeeds(kids[i], s, x);
          InsideFull(t, i, x);
        }
    }
    if Sized(n) { InsideLink(t, x); }
  }

  /** A committed trie whose root is on disk or still referenced comes through garbage collection. */
  method DereferenceOther(t: Trie, h: Hash, root: Hash)
    requires t.Valid() && t.Complete() && AllClean(t.root) && h == RootHash(Denotes(t.root)) && root != Zero
    requires Zero in t.db.nodes && Matched(t.db.nodes, t.db.disk.Keys, root)
    requires Zero in t.db.nodes && (h == EMPTY_ROOT || h in t.db.disk || h in t.db.nodes[Zero].children - multiset{root})
    modifies t.db
    ensures t.Valid() && t.Complete()
  {
    hide Trie.Valid, Trie.Complete, Needs, Spared;
    CommittedSpared(t, h, root);
    DereferenceUnder(t, root);
  }

  lemma CommittedSpared(t: Trie, h: Hash, root: Hash)
    requires t.Valid() && t.Complete() && AllClean(t.root) && h == RootHash(Denotes(t.root))
    requires Zero in t.db.nodes && (h == EMPTY_ROOT || h in t.db.disk || h in t.db.nodes[Zero].children - multiset{root})
    ensures forall x | Needs(t.root, x) :: Spared(t.db.nodes, t.db.order, t.db.disk.Keys, root, x)
  {
    hide Database.Valid, Live, Needs, Loadable, Encode, Inside, Available, Spared, Good, DirtyUp, CachedUp, Filled, Kept, Closed;
    DatabaseDurable(t.db);
    DurableClosed(t.db.disk, t.db.base, t.db.writes);
    Listed(t.db);
    NeedsExactly(t.root, Known(t.db));
    forall x | Needs(t.root, x) ensures Spared(t.db.nodes, t.db.order, t.db.disk.Keys, root, x) {
      NeededSpared(t.root, Known(t.db), t.db.nodes, t.db.order, t.db.disk.Keys, root, x);
    }
  }

  lemma NeededSpared(n: Node, s: set<Hash>, nodes: Cache, order: seq<Hash>, disk: set<Hash>, root: Hash, x: Hash)
    requires Root(n, s) && AllClean(n) && Loadable(n, s) && Needs(n, x) && x in s
    requires s <= disk + nodes.Keys && Zero !in s && nodes.Keys == {Zero} + Elems(order) && Closed(disk)
    requires var h := RootHash(Denotes(n)); h == EMPTY_ROOT || h in disk || h in nodes[Zero].children - multiset{root}
    ensures Spared(nodes, order, disk, root, x)
  {
    hide Live, Needs, Loadable, Encode, Inside, Available, Sound, Closed;
    var h, cache, roots := RootHash(Denotes(n)), Claimed(nodes, root), nodes[Zero].children - multiset{root};
    assert cache.Keys == nodes.Keys;
    CleanNeeds(n, s, x);
    RootThere(n, s);
    AvailableMore(Ref(h), s, disk + cache.Keys);
    if h in roots { RootLive(cache, order, disk, roots, h); }
    InsideSafe(cache, order, disk, roots, h, x);
  }

  lemma RootThere(n: Node, s: set<Hash>)
    requires Root(n, s) && AllClean(n) && Loadable(n, s) && Branch(Denotes(n))
    ensures Available(Ref(Of(Encode(Denotes(n)))), s)
  {
    CleanStored(n, s);
  }

  lemma RootLive(nodes: Cache, order: seq<Hash>, disk: set<Hash>, roots: multiset<Hash>, h: Hash)
    requires h in roots
    ensures Live(nodes, order, disk, roots, h)
  {
    assert Path(nodes, [h]) && Anchor(nodes, order, disk, roots, [h][0]);
  }

  /**
   The head moves on: the new trie is committed and referenced, and the root before it is
   given up. The trie loses nothing by it, whatever else it shared with the old one.
   */
  method Advance(t: Trie, onleaf: OnLeaf, root: Hash) returns (h: Hash)
    requires t.Valid() && t.Complete() && Watched(t.root, onleaf, t.db.rank, t.db.order, t.db.disk.Keys)
    requires root != Zero && Zero in t.db.nodes && (root in t.db.disk || root in t.db.nodes[Zero].children)
    modifies t, t.db
    ensures t.Valid() && t.Complete() && Denotes(t.root) == old(Denotes(t.root)) && h == RootHash(Denotes(t.root))
  {
    hide Database.Valid, Root, Loadable, IsRoot, TreeOf, Hashed, Available, Encode, Watched, Tracked, Grows, AllClean, Referenced;
    ghost var a, oa, da := t.db.nodes, t.db.order, t.db.disk;
    h := t.Commit(onleaf);
    GrowsOrder(a, oa, da, t.db.nodes, t.db.order, t.db.disk);
    ghost var b := t.db.nodes;
    EmptyRoot(h);
    if h != EMPTY_ROOT { HeldIn(h, Known(t.db)); }
    t.db.Reference(h, Zero);
    RootReferenced(b, h);
    DereferenceOther(t, h, root);
  }

  lemma RootReferenced(nodes: Cache, h: Hash)
    requires Zero in nodes && h != Zero
    ensures h in nodes ==>
              var b := Referenced(nodes, h, Zero);
              b.Keys == nodes.Keys && b[Zero].children == nodes[Zero].children + multiset{h}
  {
  }

  // ---------- references that are written out ----------

  /** Everything that leaves stored under their own hash refer to, and that was cached, is on disk. */
  ghost predicate Persisted(n: Node, onleaf: OnLeaf, cached: set<Hash>, disk: set<Hash>, force: bool) {
    match n
    case ShortNode(_, v, f) =>
      || Settled(f)
      || if v.Value? then force || Large(n) ==> forall c | c in onleaf(v.bytes, NodeHash(n)) && c in cached :: c in disk
         else Persisted(v, onleaf, cached, disk, false)
    case FullNode(kids, f) =>
      Settled(f) || forall i | 0 <= i < |kids| :: Persisted(kids[i], onleaf, cached, disk, false)
    case _ => true
  }

  /** A node and everything inside its encoding is on disk. */
  ghost predicate OnDiskBelow(n: Node, disk: set<Hash>, force: bool) {
    Branch(Denotes(n)) ==>
      && (force || Large(n) ==> NodeHash(n) in disk)
      && forall x | InsideItem(x, Encode(Denotes(n))) :: x in disk
  }

  lemma OnDiskKid(n: Node, kid: Node, disk: set<Hash>)
    requires Branch(Denotes(n)) && Part(Denotes(kid)) && forall x | InsideItem(x, Encode(Denotes(n))) :: x in disk
    requires forall x | InsideItem(x, Link(Denotes(kid))) :: InsideItem(x, Encode(Denotes(n)))
    ensures OnDiskBelow(kid, disk, false)
  {
    hide Encode;
    if Large(kid) {
      var h := NodeHash(kid);
      assert Link(Denotes(kid)) == Ref(h);
      assert Inside(h, h) && InsideItem(h, Ref(h));
      forall x | InsideItem(x, Encode(Denotes(kid))) ensures x in disk { assert Inside(x, h) && InsideItem(x, Ref(h)); }
    } else if Branch(Denotes(kid)) {
      assert Link(Denotes(kid)) == Encode(Denotes(kid));
    }
  }

  /** On disk a cached node has all that it refers to on disk as well. */
  lemma ReferenceOnDisk(rank: Rank, nodes: Cache, order: seq<Hash>, disk: set<Hash>, h: Hash, c: Hash)
    requires Inv(rank, nodes, order, disk, {}, multiset{}) && h in nodes && h != Zero && h in disk && c in nodes[h].children
    ensures c in disk
  {
    hide Resolved, Counted, Contents;
    assert h in Elems(order);
    var j :| 0 <= j < |order| && order[j] == h;
    assert c in Kids(nodes, order[j]);
  }

  lemma {:induction false} TrackedPersisted(n: Node, s: set<Hash>, onleaf: OnLeaf, cached: set<Hash>, rank: Rank,
                                            nodes: Cache, order: seq<Hash>, disk: set<Hash>, force: bool)
    requires Sound(n, s) && Tracked(n, onleaf, cached, nodes, force) && OnDiskBelow(n, disk, force)
    requires Inv(rank, nodes, order, disk, {}, multiset{})
    ensures Persisted(n, onleaf, cached, disk, force)
  {
    hide Inv, Encode, OnDiskBelow, Recorded, Good, Kept, DirtyUp, CachedUp, Filled, Large;
    match n
    case ShortNode(_, v, f) =>
      if !Settled(f) {
        SoundVal(n, s);
        if v.Value? {
          if force || Large(n) { LeafPersisted(n, onleaf, cached, rank, nodes, order, disk, force); }
        } else {
          KidBelow(n, s, 0, disk, force);
          TrackedPersisted(v, s, onleaf, cached, rank, nodes, order, disk, false);
        }
      }
    case FullNode(kids, f) =>
      if !Settled(f) {
        forall i | 0 <= i < |kids| ensures Persisted(kids[i], onleaf, cached, disk, false) {
          SoundKid(n, s, i);
          KidBelow(n, s, i, disk, force);
          TrackedPersisted(kids[i], s, onleaf, cached, rank, nodes, order, disk, false);
        }
      }
    case _ =>
  }

  lemma LeafPersisted(n: Node, onleaf: OnLeaf, cached: set<Hash>, rank: Rank, nodes: Cache, order: seq<Hash>, disk: set<Hash>,
                      force: bool)
    requires n.ShortNode? && n.val.Value? && Branch(Denotes(n)) && OnDiskBelow(n, disk, force) && (force || Large(n))
    requires Recorded(onleaf(n.val.bytes, NodeHash(n)), NodeHash(n), cached, nodes)
    requires Inv(rank, nodes, order, disk, {}, multiset{})
    ensures forall c | c in onleaf(n.val.bytes, NodeHash(n)) && c in cached :: c in disk
  {
    hide Inv, Encode, InsideItem;
    forall c | c in onleaf(n.val.bytes, NodeHash(n)) && c in cached ensures c in disk {
      ReferenceOnDisk(rank, nodes, order, disk, NodeHash(n), c);
    }
  }

  lemma KidBelow(n: Node, s: set<Hash>, i: nat, disk: set<Hash>, force: bool)
    requires Sound(n, s) && OnDiskBelow(n, disk, force) && (n.ShortNode? || (n.FullNode? && i < |n.kids|))
    ensures OnDiskBelow(if n.ShortNode? then n.val else n.kids[i], disk, false)
  {
    hide Encode, Link, InsideItem, Good, Kept, DirtyUp, CachedUp, Filled, Large;
    var kid := if n.ShortNode? then n.val else n.kids[i];
    if n.ShortNode? { SoundVal(n, s); } else { SoundKid(n, s, i); }
    PartOf(kid, s);
    forall x | InsideItem(x, Link(Denotes(kid))) ensures InsideItem(x, Encode(Denotes(n))) {
      if n.ShortNode? { InsideShort(Denotes(n), x); } else { InsideFull(Denotes(n), i, x); }
    }
    OnDiskKid(n, kid, disk);
  }

  lemma PartOf(n: Node, s: set<Hash>)
    requires Sound(n, s)
    ensures Part(Denotes(n))
  {
  }

  /**
   What external references are for: writing out a committed trie takes along everything that
   its leaves refer to.
   */
  method SaveWithReferences(t: Trie, onleaf: OnLeaf) returns (h: Hash, ok: bool)
    requires t.Valid() && t.Complete() && Watched(t.root, onleaf, t.db.rank, t.db.order, t.db.disk.Keys)
    modifies t, t.db
    ensures t.Valid() && t.Complete() && Denotes(t.root) == old(Denotes(t.root)) && h == RootHash(Denotes(t.root))
    ensures ok ==> Persisted(old(t.root), onleaf, old(t.db.nodes).Keys, t.db.disk.Keys, true)
    ensures !ok ==> t.db.room == 0
  {
    hide Database.Valid, Root, IsRoot, TreeOf, Available, Loadable, Durable, Encode, Persisted, Inv;
    hide Written, Removed, Closed, Watched, Tracked, Grows, Ranked, AllClean;
    ghost var n, s0, cached := t.root, Known(t.db), t.db.nodes.Keys;
    h := t.Commit(onleaf);
    ghost var s, nodes, order, disk, writes := Known(t.db), t.db.nodes, t.db.order, t.db.disk.Keys, t.db.writes;
    EmptyRoot(h);
    ok := t.db.Commit(h);
    KnownAfterCommit(t.db.rank, nodes, order, disk, writes, t.db.nodes, t.db.order, t.db.disk.Keys, t.db.writes, h, ok);
    StaysRoot(t.root, s, Known(t.db));
    if ok {
      DatabaseDurable(t.db);
      DurableClosed(t.db.disk, t.db.base, t.db.writes);
      if h != EMPTY_ROOT {
        HeldIn(h, s);
        OnDisk(t.db.rank, nodes, disk, t.db.disk.Keys, writes, t.db.writes, h);
      }
      RootPersisted(n, s0, h, onleaf, cached, t.db.rank, nodes, order, t.db.disk.Keys);
    }
  }

  lemma RootPersisted(n: Node, s: set<Hash>, h: Hash, onleaf: OnLeaf, cached: set<Hash>, rank: Rank,
                      nodes: Cache, order: seq<Hash>, disk: set<Hash>)
    requires Root(n, s) && Tracked(n, onleaf, cached, nodes, true) && h == RootHash(Denotes(n)) && (h == EMPTY_ROOT || h in disk)
    requires Inv(rank, nodes, order, disk, {}, multiset{}) && Closed(disk) && forall x | x in disk :: x.Of?
    ensures Persisted(n, onleaf, cached, disk, true)
  {
    hide Inv, Closed, Tracked, Persisted, InsideItem, Sound;
    if Denotes(n) == Empty {
      EmptyNode(n, s, onleaf, cached, disk);
    } else {
      AvailableClosed(Ref(h), disk);
      AvailableExactly(Encode(Denotes(n)), disk);
      TrackedPersisted(n, s, onleaf, cached, rank, nodes, order, disk, true);
    }
  }

  lemma EmptyNode(n: Node, s: set<Hash>, onleaf: OnLeaf, cached: set<Hash>, disk: set<Hash>)
    requires Sound(n, s) && Denotes(n) == Empty
    ensures Persisted(n, onleaf, cached, disk, true)
  {
  }

  // ---------- a leaf that refers ----------

  lemma OneEntry(t: Tree, key: Bytes, value: Bytes)
    requires Canonical(t) && WholeKeys(t) && value != []
    requires forall k: Bytes :: Lookup(t, KeyHex(k)) == if k == key then Some(value) else None
    ensures t == LeafTree(key, value)
  {
    hide Lookup, KeyHex, Branch, IsKey, LeafTree;
    var u, m := LeafTree(key, value), map[key := value];
    forall k: Hex ensures Lookup(u, k) == if k == KeyHex(key) then Some(value) else None { LeafAt(key, value, k); }
    KeyRoundTrip(key);
    forall k: Bytes ensures Lookup(u, KeyHex(k)) == Find(m, k) {
      if KeyHex(k) == KeyHex(key) { KeyHexInjective(k, key); }
    }
    LeafCanonical(key, value);
    assert Represents(u, m);
    assert Represents(t, m);
    OnlyTree(t, u, m);
  }

  lemma LeafAt(key: Bytes, value: Bytes, k: Hex)
    ensures Lookup(LeafTree(key, value), k) == if k == KeyHex(key) then Some(value) else None
  {
    hide KeyHex;
    AtShort(KeyHex(key), Leaf(value), k);
  }

  lemma LeafCanonical(key: Bytes, value: Bytes)
    requires value != []
    ensures Branch(LeafTree(key, value))
  {
    KeyRoundTrip(key);
    ShortBranch(KeyHex(key), Leaf(value));
  }

  function LeafTree(key: Bytes, value: Bytes): Tree {
    Short(KeyHex(key), Leaf(value))
  }

  /** The leaf may stand above the blob, which is not inside it. */
  lemma LeafAbove(key: Bytes, value: Bytes, blob: Bytes) returns (rank: Rank)
    requires value != []
    ensures Branch(LeafTree(key, value)) && Ranked(rank)
    ensures var leaf, b := Of(Encode(LeafTree(key, value))), Of(Str(blob)); b != leaf && rank(b) < rank(leaf) && Below(leaf) == []
  {
    hide Compact, KeyHex;
    LeafCanonical(key, value);
    var e := Encode(LeafTree(key, value));
    LinkValue(Leaf(value));
    assert e == List([Str(Compact(KeyHex(key))), Str(value)]);
    assert e.items[1..] == [Str(value)] && [Str(value)][1..] == [];
    assert RefsOf([Str(value)]) == Refs(Str(value)) + RefsOf([]);
    assert RefsOf(e.items) == Refs(e.items[0]) + RefsOf(e.items[1..]);
    rank := MayStandAbove({Of(e)}, {Of(Str(blob))});
  }

  lemma CanonicalRoot(n: Node, s: set<Hash>)
    requires Root(n, s)
    ensures Canonical(Denotes(n))
  {
  }

  lemma EmptyIsRoot(s: set<Hash>)
    ensures IsRoot(EMPTY_ROOT) && TreeOf(EMPTY_ROOT) == Empty && Held(EMPTY_ROOT, s) && WholeKeys(Empty)
    ensures forall k: Hex :: Lookup(Empty, k) == None
  {
  }

  /** A leaf that is not stored yet is in memory, and a commit will come to it. */
  lemma LeafFresh(n: Node, s: set<Hash>, key: Bytes, value: Bytes)
    requires Root(n, s) && Loadable(n, s) && Denotes(n) == LeafTree(key, value) && Of(Encode(Denotes(n))) !in s
    ensures n.ShortNode? && n.val == Value(value) && !Settled(n.flags) && NodeHash(n) == Of(Encode(Denotes(n)))
  {
    hide Encode;
    if n.ShortNode? { ValueLeaf(n, s); }
  }

  lemma LeafWatched(n: Node, value: Bytes, onleaf: OnLeaf, rank: Rank, b: Hash)
    requires n.ShortNode? && n.val == Value(value) && b.Of? && b != NodeHash(n)
    requires onleaf(value, NodeHash(n)) == [b] && rank(b) < rank(NodeHash(n))
    ensures Watched(n, onleaf, rank, [b], {})
  {
    assert b in [b];
    assert RefOk(rank, [b], {}, b, NodeHash(n));
  }

  lemma LeafRecorded(n: Node, value: Bytes, onleaf: OnLeaf, cached: set<Hash>, nodes: Cache, b: Hash)
    requires n.ShortNode? && n.val == Value(value) && !Settled(n.flags) && onleaf(value, NodeHash(n)) == [b] && b in cached
    requires Tracked(n, onleaf, cached, nodes, true)
    ensures NodeHash(n) in nodes && b in nodes[NodeHash(n)].children
  {
    assert b in [b];
  }

  /** A trie of one entry. */
  method OneLeaf(db: Database, key: Bytes, value: Bytes) returns (t: Trie)
    requires db.Valid() && value != []
    ensures fresh(t) && t.db == db && t.Valid() && t.Complete() && Denotes(t.root) == LeafTree(key, value)
  {
    hide Database.Valid, Root, Loadable, IsRoot, TreeOf, KeyHex, Lookup, WholeKeys;
    EmptyIsRoot(Known(db));
    t := Trie.New(EMPTY_ROOT, db);
    assert forall k :: t.At(k) == None;
    var error := t.TryUpdate(key, value);
    assert !error;
    forall k: Bytes ensures Lookup(Denotes(t.root), KeyHex(k)) == if k == key then Some(value) else None {
      assert t.At(k) == if k == key then Some(value) else None;
    }
    CanonicalRoot(t.root, Known(db));
    OneEntry(Denotes(t.root), key, value);
  }

  /** A blob and beside it a trie of one entry, with a rank that lets the leaf refer to the blob. */
  method BlobAndLeaf(key: Bytes, value: Bytes, blob: Bytes) returns (t: Trie, b: Hash)
    requires value != []
    ensures fresh(t) && fresh(t.db) && t.Valid() && t.Complete() && Denotes(t.root) == LeafTree(key, value) && b == Of(Str(blob))
    ensures t.db.disk == map[] && t.db.order == [b] && b in t.db.nodes && t.db.nodes.Keys <= {Zero, b}
    ensures Branch(LeafTree(key, value))
    ensures var leaf := Of(Encode(LeafTree(key, value))); b != leaf && t.db.rank(b) < t.db.rank(leaf) && Below(leaf) == []
  {
    hide Database.Valid, Root, Loadable, Encode, Branch, Denotes, LeafTree, Below, Ranked;
    b := Of(Str(blob));
    ghost var rank := LeafAbove(key, value, blob);
    var db := new Database(map[], 0, rank);
    assert db.nodes.Keys == {Zero} by { Listed(db); }
    db.InsertBlob(b, Str(blob));
    t := OneLeaf(db, key, value);
  }

  /**
   A callback at work: a trie of one entry whose leaf refers to a blob that the encoding of
   the leaf does not mention. The reference is in the cache after the commit.
   */
  method LeafRefersToBlob(key: Bytes, value: Bytes, blob: Bytes) returns (t: Trie, h: Hash, b: Hash)
    requires value != []
    ensures t.Valid() && Denotes(t.root) == LeafTree(key, value) && h in t.db.nodes && b in t.db.nodes
    ensures b in t.db.nodes[h].children && b !in Below(h)
  {
    hide Database.Valid, Root, Loadable, IsRoot, TreeOf, Hashed, Available, Encode, Watched, Tracked, Grows, AllClean;
    hide Branch, Denotes, LeafTree, NodeHash, Below, Ranked, Held;
    t, b := BlobAndLeaf(key, value, blob);
    var onleaf := Always([b]);
    ghost var db := t.db;
    ghost var n, a, oa, da := t.root, db.nodes, db.order, db.disk;
    LeafFresh(n, Known(db), key, value);
    LeafWatched(n, value, onleaf, db.rank, b);
    assert db.disk.Keys == {};
    h := t.Commit(onleaf);
    LeafRecorded(n, value, onleaf, a.Keys, db.nodes, b);
    GrowsOrder(a, oa, da, db.nodes, db.order, db.disk);
  }

  /** The callback that always refers to the same hashes. */
  function Always(refs: seq<Hash>): (f: OnLeaf)
    ensures forall v, p :: f(v, p) == refs
  {
    (v, p) => refs
  }
}
