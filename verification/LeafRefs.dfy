/**
 External references: what a commit's leaf callback refers to from the leaves it meets, when
 it may, and that the references end up in the cache.
 */
module LeafRefs {
  import opened Rlp
  import opened Encoding
  import opened Trees
  import opened Nodes
  import opened Raws
  import opened Caches
  import opened CacheSteps
  import opened CacheRuns
  import opened Databases

  /** The hashes that the callback refers to, given the value of a leaf and the hash of its node. */
  type OnLeaf = (Bytes, Hash) -> seq<Hash>

  /** No callback. */
  function NoCallback(value: Bytes, parent: Hash): seq<Hash> {
    []
  }

  /** What the callback is told of a collapsed node: the value of a short node, or those of a full node. */
  function Values(c: Collapsed): seq<Bytes> {
    match c
    case CShort(_, v, _) => if v.CValue? then [v.bytes] else []
    case CFull(kids, _) => if |kids| == 17 then KidValues(kids[..16]) else []
    case _ => []
  }

  function KidValues(kids: seq<Collapsed>): seq<Bytes> {
    if kids == [] then [] else (if kids[0].CValue? then [kids[0].bytes] else []) + KidValues(kids[1..])
  }

  lemma {:induction false} NoKidValues(kids: seq<Collapsed>)
    requires forall i | 0 <= i < |kids| :: !kids[i].CValue?
    ensures KidValues(kids) == []
  {
    if kids != [] { NoKidValues(kids[1..]); }
  }

  /** Everything the callback refers to from one node. */
  function References(onleaf: OnLeaf, values: seq<Bytes>, h: Hash): seq<Hash> {
    if values == [] then [] else onleaf(values[0], h) + References(onleaf, values[1..], h)
  }

  // ---------- when a leaf may refer ----------

  /** The child is listed before the parent, which may not be listed yet. */
  ghost predicate Older(order: seq<Hash>, child: Hash, parent: Hash) {
    child in order && (parent in order ==> exists j :: 0 <= j < |order| && order[j] == parent && child in order[..j])
  }

  /** The child is on disk, or cached before a parent that is not on disk; and it ranks lower. */
  ghost predicate RefOk(rank: Rank, order: seq<Hash>, disk: set<Hash>, child: Hash, parent: Hash) {
    child != Zero && rank(child) < rank(parent) && (child in disk || (parent !in disk && Older(order, child, parent)))
  }

  ghost predicate RefsOk(rank: Rank, order: seq<Hash>, disk: set<Hash>, refs: seq<Hash>, h: Hash) {
    forall c | c in refs :: RefOk(rank, order, disk, c, h)
  }

  lemma RefsOkMore(rank: Rank, order: seq<Hash>, more: seq<Hash>, disk: set<Hash>, refs: seq<Hash>, h: Hash)
    requires RefsOk(rank, order, disk, refs, h) && order <= more
    ensures RefsOk(rank, more, disk, refs, h)
  {
    forall c | c in refs ensures RefOk(rank, more, disk, c, h) {
      assert RefOk(rank, order, disk, c, h);
      if c !in disk { OlderMore(order, more, c, h); }
    }
  }

  lemma OlderMore(order: seq<Hash>, more: seq<Hash>, child: Hash, parent: Hash)
    requires Older(order, child, parent) && order <= more
    ensures Older(more, child, parent)
  {
    var i :| 0 <= i < |order| && order[i] == child;
    assert more[i] == child;
    if parent in more {
      if parent in order {
        var j :| 0 <= j < |order| && order[j] == parent && child in order[..j];
        assert more[..j] == order[..j];
        assert more[j] == parent;
      } else {
        var j :| 0 <= j < |more| && more[j] == parent;
        assert j >= |order|;
        assert more[..j][i] == child;
      }
    }
  }

  /** Once the parent is cached, the reference may be made. */
  lemma RefOkNow(rank: Rank, order: seq<Hash>, disk: set<Hash>, child: Hash, parent: Hash)
    requires RefOk(rank, order, disk, child, parent) && parent in order
    ensures MayRefer(rank, order, disk, child, parent)
  {
  }

  /** The hash of a node's tree. */
  function NodeHash(n: Node): Hash {
    if Branch(Denotes(n)) then Of(Encode(Denotes(n))) else Zero
  }

  /** A commit leaves the node and what is below it alone. */
  predicate Settled(f: Flag) {
    !f.dirty && f.hash != Zero
  }

  /** At every leaf that a commit can come to, the callback refers only to what it may. */
  ghost predicate Watched(n: Node, onleaf: OnLeaf, rank: Rank, order: seq<Hash>, disk: set<Hash>) {
    match n
    case ShortNode(_, v, f) =>
      || Settled(f)
      || if v.Value? then RefsOk(rank, order, disk, onleaf(v.bytes, NodeHash(n)), NodeHash(n))
         else Watched(v, onleaf, rank, order, disk)
    case FullNode(kids, f) =>
      Settled(f) || forall i | 0 <= i < |kids| :: Watched(kids[i], onleaf, rank, order, disk)
    case _ => true
  }

  lemma {:induction false} WatchedMore(n: Node, onleaf: OnLeaf, rank: Rank, order: seq<Hash>, more: seq<Hash>, disk: set<Hash>)
    requires Watched(n, onleaf, rank, order, disk) && order <= more
    ensures Watched(n, onleaf, rank, more, disk)
  {
    hide RefsOk;
    match n
    case ShortNode(_, v, f) =>
      if !Settled(f) {
        if v.Value? {
          RefsOkMore(rank, order, more, disk, onleaf(v.bytes, NodeHash(n)), NodeHash(n));
        } else {
          WatchedMore(v, onleaf, rank, order, more, disk);
        }
      }
    case FullNode(kids, f) =>
      if !Settled(f) {
        forall i | 0 <= i < |kids| ensures Watched(kids[i], onleaf, rank, more, disk) {
          WatchedMore(kids[i], onleaf, rank, order, more, disk);
        }
      }
    case _ =>
  }

  // ---------- what a commit records ----------

  /** Nothing is dropped from the cache, and no reference that a cached node holds. */
  ghost predicate ChildrenKept(a: Cache, b: Cache) {
    forall x | x in a :: x in b && a[x].children <= b[x].children
  }

  /** From one state of the database to a later one of the same commit. */
  ghost predicate Grows(a: Cache, oa: seq<Hash>, da: Store, b: Cache, ob: seq<Hash>, db: Store) {
    ChildrenKept(a, b) && oa <= ob && da == db
  }

  lemma GrowsOrder(a: Cache, oa: seq<Hash>, da: Store, b: Cache, ob: seq<Hash>, db: Store)
    requires Grows(a, oa, da, b, ob, db)
    ensures oa <= ob && da == db && ChildrenKept(a, b)
  {
  }

  lemma GrowsNone(a: Cache, oa: seq<Hash>, da: Store)
    ensures Grows(a, oa, da, a, oa, da)
  {
  }

  lemma GrowsTrans(a: Cache, oa: seq<Hash>, da: Store, b: Cache, ob: seq<Hash>, db: Store, c: Cache, oc: seq<Hash>, dc: Store)
    requires Grows(a, oa, da, b, ob, db) && Grows(b, ob, db, c, oc, dc)
    ensures Grows(a, oa, da, c, oc, dc)
  {
  }

  /** The node holds those of the references that were cached to begin with. */
  ghost predicate Recorded(refs: seq<Hash>, h: Hash, cached: set<Hash>, nodes: Cache) {
    forall c | c in refs && c in cached :: h in nodes && c in nodes[h].children
  }

  /** So does every leaf that a commit came to, and that is stored under its own hash. */
  ghost predicate Tracked(n: Node, onleaf: OnLeaf, cached: set<Hash>, nodes: Cache, force: bool) {
    match n
    case ShortNode(_, v, f) =>
      || Settled(f)
      || if v.Value? then force || Large(n) ==> Recorded(onleaf(v.bytes, NodeHash(n)), NodeHash(n), cached, nodes)
         else Tracked(v, onleaf, cached, nodes, false)
    case FullNode(kids, f) =>
      Settled(f) || forall i | 0 <= i < |kids| :: Tracked(kids[i], onleaf, cached, nodes, false)
    case _ => true
  }

  predicate Large(n: Node) {
    Branch(Denotes(n)) && Size(Encode(Denotes(n))) >= 32
  }

  lemma {:induction false} TrackedMore(n: Node, onleaf: OnLeaf, cached: set<Hash>, less: set<Hash>, a: Cache, b: Cache,
                                       force: bool)
    requires Tracked(n, onleaf, cached, a, force) && less <= cached && ChildrenKept(a, b)
    ensures Tracked(n, onleaf, less, b, force)
  {
    match n
    case ShortNode(_, v, f) =>
      if !Settled(f) && !v.Value? { TrackedMore(v, onleaf, cached, less, a, b, false); }
    case FullNode(kids, f) =>
      if !Settled(f) {
        forall i | 0 <= i < |kids| ensures Tracked(kids[i], onleaf, less, b, false) {
          TrackedMore(kids[i], onleaf, cached, less, a, b, false);
        }
      }
    case _ =>
  }

  lemma SettledTracked(n: Node, onleaf: OnLeaf, nodes: Cache, force: bool)
    ensures n.HashNode? || ((n.ShortNode? || n.FullNode?) && Settled(n.flags)) ==> Tracked(n, onleaf, nodes.Keys, nodes, force)
  {
  }

  ghost predicate KidsTracked(kids: seq<Node>, k: nat, onleaf: OnLeaf, cached: set<Hash>, nodes: Cache) {
    k <= |kids| && forall i | 0 <= i < k :: Tracked(kids[i], onleaf, cached, nodes, false)
  }

  /** The leaves below a node are tracked. */
  ghost predicate ChildrenTracked(n: Node, onleaf: OnLeaf, cached: set<Hash>, nodes: Cache) {
    match n
    case ShortNode(_, v, _) => v.Value? || Tracked(v, onleaf, cached, nodes, false)
    case FullNode(kids, _) => |kids| == 17 && KidsTracked(kids, 16, onleaf, cached, nodes)
    case _ => true
  }

  lemma WatchedKids(n: Node, onleaf: OnLeaf, rank: Rank, order: seq<Hash>, disk: set<Hash>)
    requires n.ShortNode? || n.FullNode?
    ensures Watched(n, onleaf, rank, order, disk) && !Settled(n.flags) ==>
              && (n.ShortNode? && !n.val.Value? ==> Watched(n.val, onleaf, rank, order, disk))
              && (n.FullNode? ==> forall i | 0 <= i < |n.kids| :: Watched(n.kids[i], onleaf, rank, order, disk))
  {
    hide RefsOk;
  }

  lemma NoneTracked(kids: seq<Node>, onleaf: OnLeaf, nodes: Cache)
    ensures KidsTracked(kids, 0, onleaf, nodes.Keys, nodes)
  {
  }

  lemma NilTracked(kids: seq<Node>, i: nat, onleaf: OnLeaf, cached: set<Hash>, nodes: Cache)
    requires KidsTracked(kids, i, onleaf, cached, nodes) && i < |kids| && kids[i].Nil?
    ensures KidsTracked(kids, i + 1, onleaf, cached, nodes)
  {
  }

  lemma WatchedLater(n: Node, onleaf: OnLeaf, rank: Rank, a: Cache, oa: seq<Hash>, da: Store, b: Cache, ob: seq<Hash>, db: Store)
    requires Watched(n, onleaf, rank, oa, da.Keys) && Grows(a, oa, da, b, ob, db)
    ensures Watched(n, onleaf, rank, ob, db.Keys)
  {
    WatchedMore(n, onleaf, rank, oa, ob, da.Keys);
  }

  lemma KidTracked(kids: seq<Node>, i: nat, onleaf: OnLeaf, a: Cache, oa: seq<Hash>, da: Store, b: Cache, ob: seq<Hash>,
                   c: Cache, oc: seq<Hash>, dc: Store)
    requires i < |kids| && KidsTracked(kids, i, onleaf, a.Keys, b)
    requires Grows(a, oa, da, b, ob, da) && Grows(b, ob, da, c, oc, dc) && Tracked(kids[i], onleaf, b.Keys, c, false)
    ensures KidsTracked(kids, i + 1, onleaf, a.Keys, c)
  {
    hide Tracked;
    assert a.Keys <= b.Keys;
    forall j | 0 <= j < i + 1 ensures Tracked(kids[j], onleaf, a.Keys, c, false) {
      if j < i {
        TrackedMore(kids[j], onleaf, a.Keys, a.Keys, b, c, false);
      } else {
        TrackedMore(kids[i], onleaf, b.Keys, a.Keys, c, c, false);
      }
    }
  }

  lemma ChildrenTrackedMore(n: Node, onleaf: OnLeaf, cached: set<Hash>, a: Cache, b: Cache)
    requires ChildrenTracked(n, onleaf, cached, a) && ChildrenKept(a, b)
    ensures ChildrenTracked(n, onleaf, cached, b)
  {
    hide Tracked;
    match n
    case ShortNode(_, v, _) => if !v.Value? { TrackedMore(v, onleaf, cached, cached, a, b, false); }
    case FullNode(kids, _) =>
      forall i | 0 <= i < 16 ensures Tracked(kids[i], onleaf, cached, b, false) {
        TrackedMore(kids[i], onleaf, cached, cached, a, b, false);
      }
    case _ =>
  }

  // ---------- making the references ----------

  /** Makes the references that the callback asks for, from a node that is cached. */
  method Track(db: Database, refs: seq<Hash>, h: Hash)
    requires db.Valid() && h in db.nodes && h != Zero && RefsOk(db.rank, db.order, db.disk.Keys, refs, h)
    modifies db`nodes
    ensures db.Valid() && db.nodes.Keys == old(db.nodes).Keys && ChildrenKept(old(db.nodes), db.nodes)
    ensures Recorded(refs, h, db.nodes.Keys, db.nodes)
  {
    hide Inv, Linked, SizeSum, Durable, Ranked, RefOk, MayRefer;
    ghost var a := db.nodes;
    assert h in db.order by { InvFacts(db.rank, db.nodes, db.order, db.disk.Keys, {}, multiset{}); }
    for i := 0 to |refs|
      invariant db.Valid() && db.nodes.Keys == a.Keys && ChildrenKept(a, db.nodes)
      invariant Recorded(refs[..i], h, a.Keys, db.nodes)
    {
      var c := refs[i];
      assert RefOk(db.rank, db.order, db.disk.Keys, c, h);
      RefOkChild(db.rank, db.order, db.disk.Keys, c, h);
      RefOkNow(db.rank, db.order, db.disk.Keys, c, h);
      ghost var b := db.nodes;
      db.Reference(c, h);
      ReferenceRecords(a, b, db.nodes, refs, i, h);
    }
    assert refs[..|refs|] == refs;
  }

  lemma RefOkChild(rank: Rank, order: seq<Hash>, disk: set<Hash>, child: Hash, parent: Hash)
    requires RefOk(rank, order, disk, child, parent)
    ensures child != Zero && child != parent
  {
  }

  lemma ReferencedKeeps(nodes: Cache, c: Hash, h: Hash)
    requires c in nodes && h in nodes && c != h
    ensures var b := Referenced(nodes, c, h); b.Keys == nodes.Keys && ChildrenKept(nodes, b) && c in b[h].children
  {
    var b := Referenced(nodes, c, h);
    assert b[h].children == nodes[h].children + multiset{c};
    assert forall x | x in nodes && x != h :: b[x].children == nodes[x].children;
  }

  lemma ReferenceRecords(a: Cache, b: Cache, c: Cache, refs: seq<Hash>, i: nat, h: Hash)
    requires i < |refs| && h in a && h != Zero && refs[i] != h
    requires a.Keys == b.Keys && ChildrenKept(a, b) && Recorded(refs[..i], h, a.Keys, b)
    requires c == if refs[i] in b && refs[i] !in b[h].children then Referenced(b, refs[i], h) else b
    ensures c.Keys == a.Keys && ChildrenKept(a, c) && Recorded(refs[..i + 1], h, a.Keys, c)
  {
    hide Referenced;
    if refs[i] in b { ReferencedKeeps(b, refs[i], h); }
    assert refs[..i + 1] == refs[..i] + [refs[i]];
  }

  lemma InsertGrows(a: Cache, oa: seq<Hash>, b: Cache, ob: seq<Hash>, h: Hash)
    requires if h in a then b == a else exists e :: Inserted(a, b, h, e)
    requires ob == oa || ob == oa + [h]
    ensures ChildrenKept(a, b) && oa <= ob && a.Keys <= b.Keys
  {
  }

  lemma ChildrenKeptTrans(a: Cache, b: Cache, c: Cache)
    requires ChildrenKept(a, b) && ChildrenKept(b, c)
    ensures ChildrenKept(a, c)
  {
  }

  lemma RecordedLess(refs: seq<Hash>, h: Hash, less: set<Hash>, cached: set<Hash>, nodes: Cache)
    requires Recorded(refs, h, cached, nodes) && less <= cached
    ensures Recorded(refs, h, less, nodes)
  {
  }

}
