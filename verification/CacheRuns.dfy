/**
 Steps that add to the cache or to the disk, and what follows from the invariants:
 nothing referenced is lost, and dereferencing removes exactly the garbage.
 */
module CacheRuns {
  import opened Rlp
  import opened Nodes
  import opened Raws
  import opened Caches
  import opened CacheSteps

  // ---------- Reference ----------

  function Referenced(nodes: Cache, child: Hash, parent: Hash): Cache
    requires child in nodes && parent in nodes
  {
    var a := nodes[child := nodes[child].(parents := nodes[child].parents + 1)];
    a[parent := a[parent].(children := a[parent].children + multiset{child})]
  }

  lemma CountReferenced(nodes: Cache, order: seq<Hash>, child: Hash, parent: Hash, x: Hash)
    requires child in nodes && parent in nodes && Distinct(order)
    ensures Count(Referenced(nodes, child, parent), order, x) ==
            Count(nodes, order, x) + if parent in order && x == child then 1 else 0
  {
    var b := Referenced(nodes, child, parent);
    KidsReferenced(nodes, child, parent);
    if parent in order {
      var i :| 0 <= i < |order| && order[i] == parent;
      WithoutElems(order, i);
      CountWithout(nodes, order, i, x);
      CountWithout(b, order, i, x);
      CountSame(nodes, b, Without(order, i), x);
    } else {
      CountSame(nodes, b, order, x);
    }
  }

  /** The parent may refer to the child: the child is on disk, or older than a parent that is not. */
  ghost predicate MayRefer(rank: Rank, order: seq<Hash>, disk: set<Hash>, child: Hash, parent: Hash) {
    || parent == Zero
    || (rank(child) < rank(parent) &&
        (child in disk || (parent !in disk && exists j :: 0 <= j < |order| && order[j] == parent && child in order[..j])))
  }

  lemma ReferenceInv(rank: Rank, nodes: Cache, order: seq<Hash>, disk: set<Hash>, child: Hash, parent: Hash)
    requires Inv(rank, nodes, order, disk, {}, multiset{})
    requires child in order && (parent == Zero || parent in order) && MayRefer(rank, order, disk, child, parent)
    requires parent != Zero ==> child !in nodes[parent].children
    ensures child in nodes && parent in nodes
    ensures Inv(rank, Referenced(nodes, child, parent), order, disk, {}, multiset{})
  {
    hide Count, Counted, Ordered, Resolved, Contents, Kids;
    InvFacts(rank, nodes, order, disk, {}, multiset{});
    assert child != parent;
    SameContents(nodes, Referenced(nodes, child, parent));
    ReferenceCounted(nodes, order, disk, child, parent);
    ReferenceEdges(rank, nodes, order, disk, child, parent);
  }

  lemma ReferenceCounted(nodes: Cache, order: seq<Hash>, disk: set<Hash>, child: Hash, parent: Hash)
    requires Counted(nodes, order, disk, multiset{}) && Distinct(order) && Zero in nodes && Zero !in order
    requires child in nodes && parent in nodes && child != parent && child != Zero && (parent == Zero || parent in order)
    ensures Counted(Referenced(nodes, child, parent), order, disk, multiset{})
  {
    var b := Referenced(nodes, child, parent);
    forall x | x in order && x !in disk && x in b
      ensures b[x].parents == Count(b, order, x) + Kids(b, Zero)[x] + multiset{}[x]
    {
      CountReferenced(nodes, order, child, parent, x);
    }
  }

  lemma KidsReferenced(nodes: Cache, child: Hash, parent: Hash)
    requires child in nodes && parent in nodes
    ensures Kids(Referenced(nodes, child, parent), parent) == Kids(nodes, parent) + multiset{child}
    ensures forall p | p != parent :: Kids(Referenced(nodes, child, parent), p) == Kids(nodes, p)
  {
    hide Below;
  }

  lemma ReferenceEdges(rank: Rank, nodes: Cache, order: seq<Hash>, disk: set<Hash>, child: Hash, parent: Hash)
    requires Resolved(rank, nodes, order, disk) && Ordered(nodes, order, disk) && Distinct(order)
    requires child in order && child in nodes && parent in nodes && child != Zero && child != parent
    requires (parent == Zero || parent in order) && Zero !in order && MayRefer(rank, order, disk, child, parent)
    ensures Resolved(rank, Referenced(nodes, child, parent), order, disk)
    ensures Ordered(Referenced(nodes, child, parent), order, disk)
  {
    hide Kids, Referenced;
    var b := Referenced(nodes, child, parent);
    KidsReferenced(nodes, child, parent);
    forall p, c | Holder(order, p) && c in Kids(b, p) ensures EdgeOk(rank, order, disk, p, c) {
      if c in Kids(nodes, p) { ResolvedEdge(rank, nodes, order, disk, p, c); }
    }
    forall j, c | 0 <= j < |order| && c in Kids(b, order[j]) && c !in disk ensures order[j] !in disk && c in order[..j] {
      if c !in Kids(nodes, order[j]) {
        var m :| 0 <= m < |order| && order[m] == parent && child in order[..m];
        assert m == j;
      }
    }
  }

  // ---------- insert ----------

  /** Counters of existing entries raised by the references of a new node; links may differ. */
  ghost predicate Credited(a: Cache, b: Cache, kids: multiset<Hash>) {
    && a.Keys <= b.Keys
    && forall x | x in a :: b[x] == a[x].(parents := a[x].parents + kids[x], prev := b[x].prev, next := b[x].next)
  }

  ghost predicate Insertable(nodes: Cache, disk: set<Hash>, h: Hash) {
    && (forall c | c in Below(h) :: c != Zero && (c in nodes || c in disk))
    && (h in disk ==> forall c | c in Below(h) :: c in disk)
  }

  lemma InsertInv(rank: Rank, a: Cache, order: seq<Hash>, disk: set<Hash>, h: Hash, b: Cache)
    requires Ranked(rank) && Inv(rank, a, order, disk, {}, multiset{}) && h !in a && Insertable(a, disk, h)
    requires b.Keys == a.Keys + {h} && Credited(a, b, multiset(Below(h)))
    requires Content(h, b[h]) && b[h].parents == 0 && b[h].children == multiset{}
    ensures Inv(rank, b, order + [h], disk, {}, multiset{})
  {
    hide Count, Counted, Ordered, Resolved, Content, Kids, Below;
    InvFacts(rank, a, order, disk, {}, multiset{});
    KidsInserted(rank, a, b, h);
    InsertResolved(rank, a, order, disk, h, b);
    InsertOrdered(a, order, disk, h, b);
    InsertCounted(rank, a, order, disk, h, b);
    SameContents(a, b - {h});
    assert forall x | x in b && x != Zero :: x == h || Content(x, (b - {h})[x]);
    assert Elems(order + [h]) == Elems(order) + {h};
  }

  lemma KidsInserted(rank: Rank, a: Cache, b: Cache, h: Hash)
    requires h !in a && b.Keys == a.Keys + {h} && b[h].children == multiset{}
    requires Credited(a, b, multiset(Below(h))) && Ranked(rank)
    ensures Kids(b, h) == multiset(Below(h)) && Kids(a, h) == multiset{}
    ensures forall p | p != h :: Kids(b, p) == Kids(a, p)
    ensures forall c | c in Below(h) :: rank(c) < rank(h)
  {
    hide Below;
  }

  lemma InsertResolved(rank: Rank, a: Cache, order: seq<Hash>, disk: set<Hash>, h: Hash, b: Cache)
    requires Resolved(rank, a, order, disk) && Insertable(a, disk, h)
    requires h !in order && h != Zero && forall x | x in a && x != Zero :: x in order
    requires Kids(b, h) == multiset(Below(h)) && forall p | p != h :: Kids(b, p) == Kids(a, p)
    requires forall c | c in Below(h) :: rank(c) < rank(h)
    ensures Resolved(rank, b, order + [h], disk)
  {
    hide Kids, Below;
    var w := order + [h];
    forall p, c | Holder(w, p) && c in Kids(b, p) ensures EdgeOk(rank, w, disk, p, c) {
      if p == h {
        assert c in Below(h);
      } else {
        assert Holder(order, p);
        ResolvedEdge(rank, a, order, disk, p, c);
      }
    }
  }

  lemma InsertOrdered(a: Cache, order: seq<Hash>, disk: set<Hash>, h: Hash, b: Cache)
    requires Ordered(a, order, disk) && Insertable(a, disk, h)
    requires h !in order && forall x | x in a && x != Zero :: x in order
    requires Kids(b, h) == multiset(Below(h)) && forall p | p != h :: Kids(b, p) == Kids(a, p)
    ensures Ordered(b, order + [h], disk)
  {
    hide Kids, Below;
    var w := order + [h];
    forall j, c | 0 <= j < |w| && c in Kids(b, w[j]) && c !in disk ensures w[j] !in disk && c in w[..j] {
      if j < |order| {
        assert w[..j] == order[..j] && w[j] == order[j];
        assert c in Kids(a, order[j]);
      } else {
        assert w[..j] == order;
        assert c in Below(h);
      }
    }
  }

  lemma InsertCounted(rank: Rank, a: Cache, order: seq<Hash>, disk: set<Hash>, h: Hash, b: Cache)
    requires Counted(a, order, disk, multiset{}) && Resolved(rank, a, order, disk)
    requires h !in order && h != Zero && h !in a && (forall x | x in order :: x in a) && Zero in a
    requires Kids(b, h) == multiset(Below(h)) && forall p | p != h :: Kids(b, p) == Kids(a, p)
    requires forall c | c in Below(h) :: rank(c) < rank(h)
    requires b.Keys == a.Keys + {h} && Credited(a, b, multiset(Below(h))) && b[h].parents == 0
    ensures Counted(b, order + [h], disk, multiset{})
  {
    hide Kids, Below;
    forall x | x in order + [h] && x !in disk && x in b
      ensures b[x].parents == Count(b, order + [h], x) + Kids(b, Zero)[x] + multiset{}[x]
    {
      CountConcat(b, order, [h], x);
      CountOne(b, h, x);
      CountSame(a, b, order, x);
      if x == h {
        assert x !in Kids(a, Zero);
        if Count(a, order, x) > 0 { var p := CountFrom(a, order, x); }
        assert x !in Below(h);
      }
    }
  }

  lemma AppendLinks(a: Cache, order: seq<Hash>, oldest: Hash, newest: Hash, h: Hash, b: Cache)
    requires Linked(a, order, oldest, newest) && Distinct(order) && h !in order && h in b && b[h].next == Zero
    requires forall x | x in order :: x in b && x in a && b[x].prev == a[x].prev
    requires forall x | x in order && x != newest :: b[x].next == a[x].next
    requires order != [] ==> newest in b && b[newest].next == h && b[h].prev == newest
    ensures Linked(b, order + [h], if order == [] then h else oldest, h)
  {
    var w := order + [h];
    forall i | 0 <= i < |w| ensures LinkedAt(b, w, i) {
      if i < |order| {
        assert LinkedAt(a, order, i);
        LinkedEnds(a, order, oldest, newest, i);
        assert At(w, i + 1) == if i + 1 < |order| then At(order, i + 1) else h;
        assert i > 0 ==> At(w, i - 1) == At(order, i - 1);
      } else if i > 0 {
        assert At(w, i - 1) == At(order, i - 1);
      }
    }
  }

  // ---------- writing to disk ----------

  /** A set of hashes closed under trie children. */
  ghost predicate Closed(disk: set<Hash>) {
    forall h, c | h in disk && c in Below(h) :: c in disk
  }

  lemma WriteClosed(disk: set<Hash>, h: Hash)
    requires Closed(disk) && forall c | c in Below(h) :: c in disk
    ensures Closed(disk + {h})
  {
  }

  /** Writing a node all of whose tracked children are on disk keeps the invariants. */
  lemma WriteInv(rank: Rank, nodes: Cache, order: seq<Hash>, disk: set<Hash>, limbo: set<Hash>, pending: multiset<Hash>, h: Hash)
    requires Inv(rank, nodes, order, disk, limbo, pending)
    requires forall c | c in Kids(nodes, h) :: c in disk
    ensures Inv(rank, nodes, order, disk + {h}, limbo, pending)
  {
    hide Count, Contents, Kids;
  }

  /** A node on disk leaves the list without any discount: what it refers to is on disk. */
  lemma DetachWritten(rank: Rank, nodes: Cache, order: seq<Hash>, disk: set<Hash>, limbo: set<Hash>,
                      pending: multiset<Hash>, i: nat)
    requires Inv(rank, nodes, order, disk, limbo, pending) && i < |order| && order[i] in disk
    ensures Inv(rank, nodes, Without(order, i), disk, limbo + {order[i]}, pending)
  {
    hide Count, Contents, Kids, Resolved, Ordered, Counted, Outstanding;
    WithoutElems(order, i);
    DetachOrdered(nodes, order, disk, i);
    DetachResolved(rank, nodes, order, disk, pending, i);
    DetachWrittenRest(nodes, order, disk, pending, i);
  }

  lemma DetachWrittenRest(nodes: Cache, order: seq<Hash>, disk: set<Hash>, pending: multiset<Hash>, i: nat)
    requires Counted(nodes, order, disk, pending) && Ordered(nodes, order, disk) && i < |order| && order[i] in disk
    requires Distinct(order) && Outstanding(Without(order, i), disk, pending + Kids(nodes, order[i]))
    ensures Counted(nodes, Without(order, i), disk, pending) && Outstanding(Without(order, i), disk, pending)
  {
    hide Count, Kids;
    WithoutElems(order, i);
    forall x | x in Without(order, i) && x !in disk && x in nodes
      ensures nodes[x].parents == Count(nodes, Without(order, i), x) + Kids(nodes, Zero)[x] + pending[x]
    {
      assert x !in Kids(nodes, order[i]);
      CountWithout(nodes, order, i, x);
    }
  }

  // ---------- what Commit reaches ----------

  /** x is h or lies below it, going through cached nodes only. */
  ghost predicate Under(rank: Rank, nodes: Cache, h: Hash, x: Hash)
    decreases rank(h)
  {
    && h in nodes && h != Zero
    && (x == h || exists c :: c in Kids(nodes, h) && rank(c) < rank(h) && Under(rank, nodes, c, x))
  }

  lemma {:induction false} UnderLower(rank: Rank, nodes: Cache, h: Hash, x: Hash)
    requires Under(rank, nodes, h, x)
    ensures x in nodes && x != Zero && rank(x) <= rank(h)
    decreases rank(h)
  {
    if x != h {
      var c :| c in Kids(nodes, h) && rank(c) < rank(h) && Under(rank, nodes, c, x);
      UnderLower(rank, nodes, c, x);
    }
  }

  /** cur came from nodes by removing whole subtrees. */
  ghost predicate Pruned(rank: Rank, nodes: Cache, cur: Cache) {
    && cur.Keys <= nodes.Keys
    && (forall y, x | y in nodes && y !in cur && Under(rank, nodes, y, x) :: x !in cur)
  }

  lemma {:induction false} UnderPruned(rank: Rank, nodes: Cache, cur: Cache, h: Hash, x: Hash)
    requires Pruned(rank, nodes, cur) && x in cur
    requires forall y | y in cur && rank(y) <= rank(h) && y != Zero :: Kids(cur, y) == Kids(nodes, y)
    ensures Under(rank, nodes, h, x) <==> Under(rank, cur, h, x)
    decreases rank(h)
  {
    hide Kids;
    if h in cur && h != Zero {
      forall c | c in Kids(nodes, h) && rank(c) < rank(h) ensures Under(rank, nodes, c, x) <==> Under(rank, cur, c, x) {
        UnderPruned(rank, nodes, cur, c, x);
      }
    }
  }

  // ---------- nothing is lost, and only garbage goes ----------

  ghost predicate Path(nodes: Cache, p: seq<Hash>) {
    && p != []
    && forall i | 0 <= i < |p| - 1 :: p[i] != Zero && p[i + 1] in Kids(nodes, p[i])
  }

  /** A remaining root, or a node not on disk that nothing refers to yet. */
  ghost predicate Anchor(nodes: Cache, order: seq<Hash>, disk: set<Hash>, roots: multiset<Hash>, r: Hash) {
    r in roots || (r in order && r !in disk && r in nodes && nodes[r].parents == 0)
  }

  ghost predicate Live(nodes: Cache, order: seq<Hash>, disk: set<Hash>, roots: multiset<Hash>, x: Hash) {
    exists p :: Path(nodes, p) && p[|p| - 1] == x && Anchor(nodes, order, disk, roots, p[0])
  }

  lemma KidsSurvive(a: Cache, b: Cache, h: Hash, disk: set<Hash>)
    requires Survives(a, b, h, disk)
    ensures Kids(a, h) == Kids(b, h)
  {
  }

  lemma KidsCached(nodes: Cache, h: Hash, c: Hash)
    requires c in Kids(nodes, h)
    ensures h in nodes
  {
  }

  /** Along a path from an anchor that ends off the disk, everything stays. */
  lemma {:induction false} LiveStays(rank: Rank, a: Cache, oa: seq<Hash>, b: Cache, ob: seq<Hash>, disk: set<Hash>, p: seq<Hash>)
    requires Ordered(a, oa, disk) && Resolved(rank, b, ob, disk) && Shrunk(a, oa, b, ob, disk)
    requires forall h | h in a && h != Zero :: h in oa
    requires Path(a, p) && Anchor(a, oa, disk, Kids(b, Zero), p[0])
    requires p[|p| - 1] !in disk
    ensures p[|p| - 1] in ob
  {
    hide Kids, Survives;
    if |p| > 1 {
      var q, y, x := p[..|p| - 1], p[|p| - 2], p[|p| - 1];
      assert y != Zero && x in Kids(a, y);
      KidsCached(a, y, x);
      var j :| 0 <= j < |oa| && oa[j] == y;
      assert oa[j] !in disk;
      LiveStays(rank, a, oa, b, ob, disk, q);
      assert Survives(a, b, y, disk);
      KidsSurvive(a, b, y, disk);
    }
  }

  /** Every node that stays off the disk hangs on an anchor. */
  lemma {:induction false} StaysLive(rank: Rank, a: Cache, oa: seq<Hash>, b: Cache, ob: seq<Hash>, disk: set<Hash>, j: nat)
    requires Inv(rank, b, ob, disk, {}, multiset{}) && Shrunk(a, oa, b, ob, disk)
    requires j < |ob| && ob[j] !in disk
    ensures Live(a, oa, disk, Kids(b, Zero), ob[j])
    decreases |ob| - j
  {
    hide Kids, Contents, Count;
    var x := ob[j];
    assert Survives(a, b, x, disk);
    if b[x].parents == 0 || x in Kids(b, Zero) {
      assert Path(a, [x]) && Anchor(a, oa, disk, Kids(b, Zero), [x][0]);
    } else {
      var y := CountFrom(b, ob, x);
      var m :| 0 <= m < |ob| && ob[m] == y;
      assert ob[m] !in disk && x in ob[..m];
      var i :| 0 <= i < m && ob[i] == x;
      assert i == j;
      StaysLive(rank, a, oa, b, ob, disk, m);
      var q :| Path(a, q) && q[|q| - 1] == y && Anchor(a, oa, disk, Kids(b, Zero), q[0]);
      KidsSurvive(a, b, y, disk);
      var p := q + [x];
      assert Path(a, p) && p[|p| - 1] == x && p[0] == q[0];
    }
  }

  /** Dereferencing removes exactly the nodes not on disk that no anchor reaches. */
  lemma ExactlyGarbage(rank: Rank, a: Cache, oa: seq<Hash>, b: Cache, ob: seq<Hash>, disk: set<Hash>,
                       pending: multiset<Hash>, x: Hash)
    requires Inv(rank, a, oa, disk, {}, pending) && Inv(rank, b, ob, disk, {}, multiset{}) && Shrunk(a, oa, b, ob, disk)
    requires x !in disk
    ensures x in ob <==> x in oa && Live(a, oa, disk, Kids(b, Zero), x)
  {
    hide Kids, Contents, Count, Counted;
    if x in ob {
      var j :| 0 <= j < |ob| && ob[j] == x;
      StaysLive(rank, a, oa, b, ob, disk, j);
    }
    if Live(a, oa, disk, Kids(b, Zero), x) {
      var p :| Path(a, p) && p[|p| - 1] == x && Anchor(a, oa, disk, Kids(b, Zero), p[0]);
      LiveStays(rank, a, oa, b, ob, disk, p);
    }
  }

  /** A step from a hash to a child: tracked while cached, read from the encoding once on disk. */
  ghost predicate Step(nodes: Cache, disk: set<Hash>, h: Hash, c: Hash) {
    (h != Zero && c in Kids(nodes, h)) || (h in disk && c in Below(h))
  }

  ghost predicate Walk(nodes: Cache, disk: set<Hash>, p: seq<Hash>) {
    p != [] && forall i | 0 <= i < |p| - 1 :: Step(nodes, disk, p[i], p[i + 1])
  }

  /** Everything below a referenced root or a cached node is in the cache or on disk. */
  lemma {:induction false} NothingLost(rank: Rank, nodes: Cache, order: seq<Hash>, disk: set<Hash>, p: seq<Hash>)
    requires Inv(rank, nodes, order, disk, {}, multiset{}) && Closed(disk)
    requires Walk(nodes, disk, p) && (p[0] in Kids(nodes, Zero) || p[0] in order)
    ensures p[|p| - 1] in order || p[|p| - 1] in disk
  {
    hide Kids, Contents, Count, Counted, Ordered, Below;
    if |p| > 1 {
      var q, y, x := p[..|p| - 1], p[|p| - 2], p[|p| - 1];
      assert Step(nodes, disk, p[|p| - 2], p[|p| - 2 + 1]);
      forall i | 0 <= i < |q| - 1 ensures Step(nodes, disk, q[i], q[i + 1]) {
        assert Step(nodes, disk, p[i], p[i + 1]);
      }
      NothingLost(rank, nodes, order, disk, q);
      if y != Zero && x in Kids(nodes, y) { KidsCached(nodes, y, x); }
    }
  }

  lemma LinkedTail(nodes: Cache, order: seq<Hash>, oldest: Hash, newest: Hash)
    requires Linked(nodes, order, oldest, newest) && Zero !in order
    ensures oldest == Zero <==> order == []
    ensures order != [] ==> newest in order && newest in nodes
  {
    if order != [] { assert LinkedAt(nodes, order, |order| - 1); }
  }

  lemma SizeAppended(a: Cache, order: seq<Hash>, h: Hash, b: Cache)
    requires h in b && forall x | x in order :: x in a && x in b && a[x].size == b[x].size
    ensures SizeSum(b, order + [h]) == SizeSum(a, order) + HASH_SIZE + b[h].size
  {
    CountConcat(b, order, [h], Zero);
    CountOne(b, h, Zero);
    SizeSame(a, b, order);
  }

  lemma LinkedMember(nodes: Cache, order: seq<Hash>, oldest: Hash, newest: Hash, x: Hash)
    requires Linked(nodes, order, oldest, newest) && x in order
    ensures x in nodes
  {
    var i :| 0 <= i < |order| && order[i] == x;
    assert LinkedAt(nodes, order, i);
  }

  /** Only the counters differ, by the given references. */
  ghost predicate Raised(a: Cache, b: Cache, kids: multiset<Hash>) {
    && b.Keys == a.Keys
    && forall x | x in a :: b[x] == a[x].(parents := a[x].parents + kids[x])
  }

  /** Only a new entry was added, and perhaps a forward link. */
  ghost predicate Tailed(a: Cache, b: Cache, h: Hash, e: Entry) {
    && b.Keys == a.Keys + {h} && b[h] == e
    && forall x | x in a :: b[x] == a[x].(next := b[x].next)
  }

  /** A new entry, and one more parent for each occurrence of a child. */
  ghost predicate Inserted(a: Cache, b: Cache, h: Hash, e: Entry) {
    && b.Keys == a.Keys + {h} && b[h] == e
    && forall x | x in a :: b[x] == a[x].(parents := a[x].parents + multiset(Below(h))[x], next := b[x].next)
  }

  lemma InsertedBoth(a: Cache, mid: Cache, b: Cache, h: Hash, e: Entry)
    requires Raised(a, mid, multiset(Below(h))) && Tailed(mid, b, h, e)
    ensures Inserted(a, b, h, e)
  {
    hide Below;
  }

  lemma RaisedLinks(a: Cache, b: Cache, kids: multiset<Hash>, order: seq<Hash>, oldest: Hash, newest: Hash)
    requires Raised(a, b, kids) && Linked(a, order, oldest, newest)
    ensures Linked(b, order, oldest, newest)
  {
    SameLinks(a, b, order, oldest, newest);
  }

  /** Counting the references of a new node and then appending it. */
  lemma InsertDone(rank: Rank, a: Cache, order: seq<Hash>, disk: set<Hash>, mid: Cache, b: Cache, h: Hash, e: Entry, s: seq<Hash>)
    requires Ranked(rank) && Inv(rank, a, order, disk, {}, multiset{}) && h !in a && Insertable(a, disk, h)
    requires Content(h, e) && e.parents == 0 && e.children == multiset{}
    requires multiset(s) == multiset(Below(h)) + e.children
    requires Raised(a, mid, multiset(s)) && Tailed(mid, b, h, e)
    ensures Inv(rank, b, order + [h], disk, {}, multiset{})
    ensures SizeSum(b, order + [h]) == SizeSum(a, order) + HASH_SIZE + e.size
    ensures Zero in a && Zero in b && b[Zero].children == a[Zero].children
  {
    hide Inv, SizeSum, Below, Content, Insertable, Ranked;
    InvFacts(rank, a, order, disk, {}, multiset{});
    assert h !in mid;
    assert Credited(a, b, multiset(Below(h)));
    InsertInv(rank, a, order, disk, h, b);
    SizeAppended(a, order, h, b);
  }

  lemma RaisedKeys(a: Cache, b: Cache, kids: multiset<Hash>)
    requires Raised(a, b, kids)
    ensures b.Keys == a.Keys
  {
  }

  lemma TailedKeys(a: Cache, b: Cache, h: Hash, e: Entry)
    requires Tailed(a, b, h, e)
    ensures b.Keys == a.Keys + {h}
  {
  }

  // ---------- Dereference ----------

  function Unrooted(nodes: Cache, root: Hash): Cache
    requires Zero in nodes
  {
    nodes[Zero := nodes[Zero].(children := nodes[Zero].children - multiset{root})]
  }

  lemma KidsUnrooted(nodes: Cache, root: Hash)
    requires Zero in nodes
    ensures Kids(Unrooted(nodes, root), Zero) == Kids(nodes, Zero) - multiset{root}
    ensures forall p | p != Zero :: Kids(Unrooted(nodes, root), p) == Kids(nodes, p)
  {
    assert Below(Zero) == [];
    hide Below;
  }

  lemma ZeroKids(nodes: Cache)
    requires Zero in nodes
    ensures Kids(nodes, Zero) == nodes[Zero].children
  {
    assert Below(Zero) == [];
    hide Below;
  }

  /** Taking a root off the meta root leaves one reference pending, if the root is cached. */
  lemma UnrootInv(rank: Rank, nodes: Cache, order: seq<Hash>, disk: set<Hash>, root: Hash)
    requires Inv(rank, nodes, order, disk, {}, multiset{}) && root != Zero
    requires root in order ==> root in disk || root in nodes[Zero].children
    ensures Inv(rank, Unrooted(nodes, root), order, disk, {}, if root in order then multiset{root} else multiset{})
  {
    hide Count, Contents, Kids, Resolved, Ordered, Counted;
    var b := Unrooted(nodes, root);
    KidsUnrooted(nodes, root);
    ZeroKids(nodes);
    SameContents(nodes, b);
    UnrootEdges(rank, nodes, b, order, disk, root);
    UnrootCounted(nodes, order, disk, root);
  }

  lemma UnrootEdges(rank: Rank, nodes: Cache, b: Cache, order: seq<Hash>, disk: set<Hash>, root: Hash)
    requires Resolved(rank, nodes, order, disk) && Ordered(nodes, order, disk) && Zero !in order
    requires Kids(b, Zero) == Kids(nodes, Zero) - multiset{root} && forall p | p != Zero :: Kids(b, p) == Kids(nodes, p)
    ensures Resolved(rank, b, order, disk) && Ordered(b, order, disk)
  {
    hide Kids;
    forall p, c | Holder(order, p) && c in Kids(b, p) ensures EdgeOk(rank, order, disk, p, c) {
      ResolvedEdge(rank, nodes, order, disk, p, c);
    }
  }

  lemma UnrootCounted(nodes: Cache, order: seq<Hash>, disk: set<Hash>, root: Hash)
    requires Counted(nodes, order, disk, multiset{}) && Zero in nodes && Zero !in order
    requires root in order ==> root in disk || root in Kids(nodes, Zero)
    ensures Counted(Unrooted(nodes, root), order, disk, if root in order then multiset{root} else multiset{})
  {
    var b := Unrooted(nodes, root);
    KidsUnrooted(nodes, root);
    hide Kids;
    forall x | x in order && x !in disk && x in b
      ensures b[x].parents == Count(b, order, x) + Kids(b, Zero)[x] + (if root in order then multiset{root} else multiset{})[x]
    {
      CountSame(nodes, b, order, x);
    }
  }

  /** Being live does not depend on the entry of the meta root. */
  lemma LiveUnrooted(nodes: Cache, order: seq<Hash>, disk: set<Hash>, roots: multiset<Hash>, root: Hash, x: Hash)
    requires Zero in nodes && Zero !in order
    ensures Live(Unrooted(nodes, root), order, disk, roots, x) <==> Live(nodes, order, disk, roots, x)
  {
    var b := Unrooted(nodes, root);
    KidsUnrooted(nodes, root);
    hide Kids;
    forall p ensures Path(b, p) <==> Path(nodes, p) {
      if Path(b, p) { assert Path(nodes, p); }
      if Path(nodes, p) { assert Path(b, p); }
    }
  }

  lemma ShrunkRoots(a: Cache, oa: seq<Hash>, b: Cache, ob: seq<Hash>, disk: set<Hash>)
    requires Shrunk(a, oa, b, ob, disk)
    ensures Zero in a && Zero in b && a[Zero].children == b[Zero].children && Kids(b, Zero) == b[Zero].children
  {
    assert Below(Zero) == [];
    hide Below;
  }

  lemma UnrootedRest(nodes: Cache, order: seq<Hash>, root: Hash, oldest: Hash, newest: Hash)
    requires Zero in nodes && Zero !in order && Linked(nodes, order, oldest, newest)
    ensures Linked(Unrooted(nodes, root), order, oldest, newest)
    ensures SizeSum(Unrooted(nodes, root), order) == SizeSum(nodes, order)
  {
    SameLinks(nodes, Unrooted(nodes, root), order, oldest, newest);
    SizeSame(nodes, Unrooted(nodes, root), order);
  }

  lemma ShrunkReflexive(rank: Rank, nodes: Cache, order: seq<Hash>, disk: set<Hash>, pending: multiset<Hash>)
    requires Inv(rank, nodes, order, disk, {}, pending)
    ensures Shrunk(nodes, order, nodes, order, disk)
  {
    InvFacts(rank, nodes, order, disk, {}, pending);
    ShrunkSame(nodes, nodes, order, disk);
  }

  /**
   The root lost one reference, and of the nodes not on disk exactly those stay
   that a remaining root or a not yet referenced node reaches.
   */
  ghost predicate Dereferenced(a: Cache, oa: seq<Hash>, b: Cache, ob: seq<Hash>, disk: set<Hash>, root: Hash) {
    && Zero in a && Zero in b && b[Zero].children == a[Zero].children - multiset{root}
    && forall x | x !in disk :: x in ob <==> x in oa && Live(a, oa, disk, b[Zero].children, x)
  }

  lemma DereferenceExact(rank: Rank, nodes: Cache, order: seq<Hash>, disk: set<Hash>, root: Hash,
                         b: Cache, ob: seq<Hash>, pending: multiset<Hash>)
    requires Zero in nodes && Zero !in order && Inv(rank, Unrooted(nodes, root), order, disk, {}, pending)
    requires Inv(rank, b, ob, disk, {}, multiset{}) && Shrunk(Unrooted(nodes, root), order, b, ob, disk)
    ensures Dereferenced(nodes, order, b, ob, disk, root)
  {
    hide Inv, Live, Shrunk, Kids;
    var a := Unrooted(nodes, root);
    ShrunkRoots(a, order, b, ob, disk);
    forall x | x !in disk ensures x in ob <==> x in order && Live(nodes, order, disk, b[Zero].children, x) {
      ExactlyGarbage(rank, a, order, b, ob, disk, pending, x);
      LiveUnrooted(nodes, order, disk, b[Zero].children, root, x);
    }
  }

  /** A reference that may be given back: one the meta root holds, or none where nothing refers to the node or it is on disk. */
  predicate Matched(nodes: Cache, disk: set<Hash>, root: Hash)
    requires Zero in nodes
  {
    root in nodes && root != Zero ==> root in disk || root in nodes[Zero].children || nodes[root].parents == 0
  }

  /** A node that nothing refers to, counted as if it had the reference that is given back. */
  function Claimed(nodes: Cache, root: Hash): Cache
    requires Zero in nodes
  {
    if root in nodes && root != Zero && root !in nodes[Zero].children && nodes[root].parents == 0
    then nodes[root := nodes[root].(parents := 1)] else nodes
  }

  lemma ClaimInv(rank: Rank, nodes: Cache, order: seq<Hash>, disk: set<Hash>, root: Hash)
    requires Inv(rank, nodes, order, disk, {}, multiset{}) && root in nodes && root != Zero
    requires root !in nodes[Zero].children && nodes[root].parents == 0
    ensures root in order
    ensures var b := Claimed(nodes, root);
            && root in b && b[root].parents == 1 && b[root := Less(b[root])] == nodes && Unrooted(b, root) == b
            && Inv(rank, b, order, disk, {}, multiset{root})
  {
    hide Inv, Claimed, Unrooted, Less, Counted;
    InvFacts(rank, nodes, order, disk, {}, multiset{});
    ClaimMaps(nodes, root);
    assert root in Elems(order);
    AgreeInv(rank, nodes, Claimed(nodes, root), order, disk, {}, multiset{}, multiset{root});
  }

  lemma ClaimMaps(nodes: Cache, root: Hash)
    requires Zero in nodes && root in nodes && root != Zero && root !in nodes[Zero].children && nodes[root].parents == 0
    ensures var b := Claimed(nodes, root);
            && root in b && b[root].parents == 1 && b[root := Less(b[root])] == nodes && Unrooted(b, root) == b
            && (forall order :: Agree(nodes, b, order))
            && (forall x | x in nodes :: b[x].parents == nodes[x].parents + if x == root then 1 else 0)
  {
    var b := Claimed(nodes, root);
    assert b[Zero].children - multiset{root} == b[Zero].children;
    assert b[Zero] == b[Zero].(children := b[Zero].children - multiset{root});
  }

  /**
   Why a reference has to be one's own: giving back one that was never taken, to a node that
   others refer to, leaves the counter short of those who do.
   */
  lemma UnmatchedShort(rank: Rank, nodes: Cache, order: seq<Hash>, disk: set<Hash>, root: Hash)
    requires Inv(rank, nodes, order, disk, {}, multiset{}) && Zero in nodes && !Matched(nodes, disk, root)
    ensures var b := nodes[root := Less(nodes[root])];
            && b[root].parents < Count(b, order, root) && !Inv(rank, b, order, disk, {}, multiset{})
  {
    hide Contents, Resolved, Ordered, Kids;
    var b := nodes[root := Less(nodes[root])];
    assert root in order;
    ZeroKids(nodes);
    assert Kids(nodes, Zero)[root] == 0;
    forall x ensures Kids(b, x) == Kids(nodes, x) { KidsLess(nodes, root, x); }
    CountSame(nodes, b, order, root);
  }

  lemma KidsLess(nodes: Cache, h: Hash, x: Hash)
    requires h in nodes
    ensures Kids(nodes[h := Less(nodes[h])], x) == Kids(nodes, x)
  {
  }

  lemma UnrootedIs(nodes: Cache, root: Hash)
    requires Zero in nodes
    ensures Unrooted(nodes, root) == nodes[Zero := nodes[Zero].(children := nodes[Zero].children - multiset{root})]
  {
  }

  lemma ReferencedRest(nodes: Cache, order: seq<Hash>, child: Hash, parent: Hash, oldest: Hash, newest: Hash)
    requires child in nodes && parent in nodes && Linked(nodes, order, oldest, newest)
    ensures Linked(Referenced(nodes, child, parent), order, oldest, newest)
    ensures SizeSum(Referenced(nodes, child, parent), order) == SizeSum(nodes, order)
  {
    SameLinks(nodes, Referenced(nodes, child, parent), order, oldest, newest);
    SizeSame(nodes, Referenced(nodes, child, parent), order);
  }
}
