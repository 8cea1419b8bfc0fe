/**
 What single steps of the database keep: each lemma takes the invariants of a
 cache state to those of the next one.
 */
module CacheSteps {
  import opened Rlp
  import opened Nodes
  import opened Raws
  import opened Caches

  // ---------- sequences without one element ----------

  lemma WithoutAt(order: seq<Hash>, i: nat, k: nat)
    requires i < |order| && k < |order| - 1
    ensures Without(order, i)[k] == order[if k < i then k else k + 1]
  {
  }

  lemma WithoutElems(order: seq<Hash>, i: nat)
    requires i < |order| && Distinct(order)
    ensures Distinct(Without(order, i))
    ensures Elems(Without(order, i)) == Elems(order) - {order[i]}
    ensures forall x :: x in Without(order, i) <==> x in order && x != order[i]
  {
    var w := Without(order, i);
    forall x | x in order && x != order[i] ensures x in w {
      var k :| 0 <= k < |order| && order[k] == x;
      assert w[if k < i then k else k - 1] == x;
    }
    forall x | x in w ensures x in order && x != order[i] {
      var k :| 0 <= k < |w| && w[k] == x;
      WithoutAt(order, i, k);
    }
  }

  lemma WithoutBefore(order: seq<Hash>, i: nat, k: nat, c: Hash)
    requires i < |order| && k < |order| - 1
    requires c in order[..if k < i then k else k + 1] && c != order[i]
    ensures c in Without(order, i)[..k]
  {
    var w, j := Without(order, i), if k < i then k else k + 1;
    var m :| 0 <= m < j && order[m] == c;
    assert w[if m < i then m else m - 1] == c;
    assert w[..k][if m < i then m else m - 1] == c;
  }

  // ---------- bookkeeping that keeps the edges ----------

  /** The same edges leave the listed nodes and the meta root. */
  ghost predicate SameEdges(a: Cache, b: Cache, order: seq<Hash>) {
    forall h | h == Zero || h in order :: Kids(a, h) == Kids(b, h)
  }

  lemma SameResolved(rank: Rank, a: Cache, b: Cache, order: seq<Hash>, disk: set<Hash>)
    requires SameEdges(a, b, order)
    requires Resolved(rank, a, order, disk) && Ordered(a, order, disk)
    ensures Resolved(rank, b, order, disk) && Ordered(b, order, disk)
  {
    hide Kids;
    forall p, c | Holder(order, p) && c in Kids(b, p) ensures EdgeOk(rank, order, disk, p, c) {
      ResolvedEdge(rank, a, order, disk, p, c);
    }
  }

  lemma SameCounted(a: Cache, b: Cache, order: seq<Hash>, disk: set<Hash>, before: multiset<Hash>, after: multiset<Hash>)
    requires SameEdges(a, b, order) && Counted(a, order, disk, before)
    requires forall x | x in order && x !in disk && x in b :: x in a && a[x].parents - before[x] == b[x].parents - after[x]
    ensures Counted(b, order, disk, after)
  {
    hide Kids;
    forall x ensures Count(a, order, x) == Count(b, order, x) { CountSame(a, b, order, x); }
  }

  /** Same nodes and same edges; counters and links may differ. */
  ghost predicate Agree(a: Cache, b: Cache, order: seq<Hash>) {
    && a.Keys == b.Keys
    && (forall h | h in a :: a[h].node == b[h].node && a[h].size == b[h].size)
    && (forall h | h in a && (h == Zero || h in order) :: a[h].children == b[h].children)
  }

  lemma SameContents(a: Cache, b: Cache)
    requires Contents(a) && b.Keys <= a.Keys
    requires forall h | h in b && h != Zero :: a[h].node == b[h].node && a[h].size == b[h].size
    ensures Contents(b)
  {
    hide Proper, EncodeRaw, Size;
    forall h | h in b && h != Zero ensures Content(h, b[h]) { assert Content(h, a[h]); }
  }

  lemma AgreeInv(rank: Rank, a: Cache, b: Cache, order: seq<Hash>, disk: set<Hash>, limbo: set<Hash>,
                 before: multiset<Hash>, after: multiset<Hash>)
    requires Inv(rank, a, order, disk, limbo, before) && Agree(a, b, order)
    requires after <= before || Outstanding(order, disk, after)
    requires forall x | x in order && x !in disk && x in a :: a[x].parents - before[x] == b[x].parents - after[x]
    ensures Inv(rank, b, order, disk, limbo, after)
  {
    hide Count, Resolved, Ordered, Counted, Contents;
    SameContents(a, b);
    SameResolved(rank, a, b, order, disk);
    SameCounted(a, b, order, disk, before, after);
  }

  lemma AgreeSize(a: Cache, b: Cache, order: seq<Hash>)
    requires Agree(a, b, order)
    ensures SizeSum(a, order) == SizeSum(b, order)
  {
    SizeSame(a, b, order);
  }

  // ---------- dropping references ----------

  /** A node not on disk that nothing counts is referred to by nothing. */
  lemma Unreferenced(rank: Rank, nodes: Cache, order: seq<Hash>, disk: set<Hash>, limbo: set<Hash>,
                     pending: multiset<Hash>, h: Hash)
    requires Inv(rank, nodes, order, disk, limbo, pending) && h in order && h !in disk && nodes[h].parents == 0
    ensures forall p | p == Zero || p in order :: h !in Kids(nodes, p)
    ensures h !in pending
  {
    assert Count(nodes, order, h) == 0 && Kids(nodes, Zero)[h] == 0 && pending[h] == 0;
    forall p | p in order ensures h !in Kids(nodes, p) { CountAtLeast(nodes, order, p, h); }
  }

  /** Taking an uncounted node off the list turns its references into pending ones. */
  lemma Detach(rank: Rank, nodes: Cache, order: seq<Hash>, disk: set<Hash>, limbo: set<Hash>, pending: multiset<Hash>, i: nat)
    requires Inv(rank, nodes, order, disk, limbo, pending) && i < |order|
    requires nodes[order[i]].parents == 0
    ensures Inv(rank, nodes, Without(order, i), disk, limbo + {order[i]}, pending + Kids(nodes, order[i]))
  {
    hide Count, Contents, Resolved, Ordered, Counted, Outstanding, Kids;
    WithoutElems(order, i);
    if order[i] !in disk { Unreferenced(rank, nodes, order, disk, limbo, pending, order[i]); }
    DetachCounted(nodes, order, disk, limbo, pending, i);
    DetachOrdered(nodes, order, disk, i);
    DetachResolved(rank, nodes, order, disk, pending, i);
  }

  lemma DetachCounted(nodes: Cache, order: seq<Hash>, disk: set<Hash>, limbo: set<Hash>, pending: multiset<Hash>, i: nat)
    requires Counted(nodes, order, disk, pending) && i < |order| && Distinct(order)
    ensures Counted(nodes, Without(order, i), disk, pending + Kids(nodes, order[i]))
  {
    WithoutElems(order, i);
    forall x | x in Without(order, i) && x !in disk && x in nodes
      ensures nodes[x].parents == Count(nodes, Without(order, i), x) + Kids(nodes, Zero)[x] + (pending + Kids(nodes, order[i]))[x]
    {
      CountWithout(nodes, order, i, x);
    }
  }

  lemma DetachResolved(rank: Rank, nodes: Cache, order: seq<Hash>, disk: set<Hash>, pending: multiset<Hash>, i: nat)
    requires Resolved(rank, nodes, order, disk) && Outstanding(order, disk, pending) && i < |order| && Distinct(order)
    requires order[i] in disk || (order[i] !in pending && forall p | p == Zero || p in order :: order[i] !in Kids(nodes, p))
    ensures Resolved(rank, nodes, Without(order, i), disk)
    ensures Outstanding(Without(order, i), disk, pending + Kids(nodes, order[i]))
  {
    hide Kids, Without, Distinct;
    var w := Without(order, i);
    WithoutElems(order, i);
    forall p, c | Holder(w, p) && c in Kids(nodes, p) ensures EdgeOk(rank, w, disk, p, c) {
      ResolvedEdge(rank, nodes, order, disk, p, c);
    }
    forall c | c in pending + Kids(nodes, order[i]) ensures c != Zero && (c in w || c in disk) {
      if c in pending {
        assert c in order || c in disk;
      } else {
        ResolvedEdge(rank, nodes, order, disk, order[i], c);
      }
    }
  }

  lemma DetachOrdered(nodes: Cache, order: seq<Hash>, disk: set<Hash>, i: nat)
    requires Ordered(nodes, order, disk) && i < |order|
    requires order[i] in disk || forall p | p in order :: order[i] !in Kids(nodes, p)
    ensures Ordered(nodes, Without(order, i), disk)
  {
    var w := Without(order, i);
    forall k, c | 0 <= k < |w| && c in Kids(nodes, w[k]) && c !in disk
      ensures w[k] !in disk && c in w[..k]
    {
      WithoutAt(order, i, k);
      var j := if k < i then k else k + 1;
      assert c in Kids(nodes, order[j]);
      WithoutBefore(order, i, k, c);
    }
  }

  /** A node in limbo can be forgotten. */
  lemma Forget(rank: Rank, nodes: Cache, order: seq<Hash>, disk: set<Hash>, limbo: set<Hash>, pending: multiset<Hash>, h: Hash)
    requires Inv(rank, nodes, order, disk, limbo, pending) && h in limbo
    ensures Inv(rank, nodes - {h}, order, disk, limbo - {h}, pending)
    ensures SizeSum(nodes - {h}, order) == SizeSum(nodes, order)
  {
    hide Count, Resolved, Ordered, Counted, Contents, Shaped, Kids, SizeSum, Outstanding;
    var b := nodes - {h};
    ForgetShape(nodes, order, limbo, h);
    ForgetEdges(nodes, order, h);
    SameContents(nodes, b);
    SameResolved(rank, nodes, b, order, disk);
    SameCounted(nodes, b, order, disk, pending, pending);
    SizeSame(nodes, b, order);
  }

  lemma ForgetShape(nodes: Cache, order: seq<Hash>, limbo: set<Hash>, h: Hash)
    requires Shaped(nodes, order, limbo) && h in limbo
    ensures h !in order && h != Zero && Shaped(nodes - {h}, order, limbo - {h})
  {
    assert h in limbo && Elems(order) !! limbo;
    assert (nodes - {h}).Keys == {Zero} + Elems(order) + (limbo - {h});
    forall x | x in order ensures x in nodes - {h} && (nodes - {h})[x] == nodes[x] { assert x in Elems(order); }
  }

  lemma ForgetEdges(nodes: Cache, order: seq<Hash>, h: Hash)
    requires h != Zero && h !in order
    ensures SameEdges(nodes, nodes - {h}, order)
    ensures forall x | x in order :: SizeAt(nodes, x) == SizeAt(nodes - {h}, x)
  {
    hide Below;
  }

  // ---------- the flush list ----------

  function SetNext(nodes: Cache, h: Hash, next: Hash): Cache
    requires h in nodes
  {
    nodes[h := nodes[h].(next := next)]
  }

  function SetPrev(nodes: Cache, h: Hash, prev: Hash): Cache
    requires h in nodes
  {
    nodes[h := nodes[h].(prev := prev)]
  }

  /** Only the links of entries differ. */
  ghost predicate Relinked(a: Cache, b: Cache) {
    && a.Keys == b.Keys
    && forall h | h in a :: b[h] == a[h].(prev := b[h].prev, next := b[h].next)
  }

  lemma RelinkedOnce(nodes: Cache, h: Hash, link: Hash)
    requires h in nodes
    ensures Relinked(nodes, SetNext(nodes, h, link)) && Relinked(nodes, SetPrev(nodes, h, link))
  {
  }

  lemma RelinkedTwice(nodes: Cache, p: Hash, q: Hash, next: Hash, prev: Hash)
    requires p in nodes && q in nodes
    ensures Relinked(nodes, SetPrev(SetNext(nodes, p, next), q, prev))
  {
  }

  /** Entries away from index i keep their neighbours, up to the one that is removed. */
  lemma Relink(nodes: Cache, b: Cache, order: seq<Hash>, i: nat, k: nat)
    requires i < |order| && Distinct(order) && k < |order| - 1
    requires var j := if k < i then k else k + 1;
             && LinkedAt(nodes, order, j) && order[j] in b
             && b[order[j]].next == (if j + 1 == i then At(order, i + 1) else nodes[order[j]].next)
             && (j > 0 ==> b[order[j]].prev == (if j == i + 1 then At(order, i - 1) else nodes[order[j]].prev) || k == 0)
    ensures LinkedAt(b, Without(order, i), k)
  {
    var w, j := Without(order, i), if k < i then k else k + 1;
    assert w[k] == order[j];
    assert At(w, k + 1) == if j + 1 == i then At(order, i + 1) else At(order, j + 1);
    if k > 0 { assert At(w, k - 1) == if j == i + 1 then At(order, i - 1) else At(order, j - 1); }
  }

  lemma UnlinkHead(nodes: Cache, order: seq<Hash>, oldest: Hash, newest: Hash)
    requires Linked(nodes, order, oldest, newest) && order != [] && Distinct(order) && Zero in nodes && Zero !in order
    ensures oldest in nodes && nodes[oldest].next in nodes
    ensures var next := nodes[oldest].next;
            Linked(SetPrev(nodes, next, Zero), Without(order, 0), next, newest)
  {
    assert LinkedAt(nodes, order, 0);
    var w, next := Without(order, 0), nodes[oldest].next;
    if |order| > 1 { assert LinkedAt(nodes, order, 1); }
    var b := nodes[next := nodes[next].(prev := Zero)];
    forall k | 0 <= k < |w| ensures LinkedAt(b, w, k) {
      assert LinkedAt(nodes, order, k + 1);
      Relink(nodes, b, order, 0, k);
    }
  }

  lemma UnlinkTail(nodes: Cache, order: seq<Hash>, oldest: Hash, newest: Hash)
    requires Linked(nodes, order, oldest, newest) && |order| > 1 && Distinct(order)
    ensures newest in nodes && nodes[newest].prev in nodes
    ensures var prev := nodes[newest].prev;
            Linked(SetNext(nodes, prev, Zero), Without(order, |order| - 1), oldest, prev)
  {
    var last := |order| - 1;
    assert LinkedAt(nodes, order, last) && LinkedAt(nodes, order, last - 1);
    var w, prev := Without(order, last), nodes[newest].prev;
    var b := nodes[prev := nodes[prev].(next := Zero)];
    forall k | 0 <= k < |w| ensures LinkedAt(b, w, k) {
      assert LinkedAt(nodes, order, k);
      Relink(nodes, b, order, last, k);
    }
  }

  lemma UnlinkMiddle(nodes: Cache, order: seq<Hash>, oldest: Hash, newest: Hash, i: nat)
    requires Linked(nodes, order, oldest, newest) && 0 < i < |order| - 1 && Distinct(order)
    ensures order[i] in nodes && order[i - 1] in nodes && order[i + 1] in nodes && order[i - 1] != order[i + 1]
    ensures nodes[order[i]].prev == order[i - 1] && nodes[order[i]].next == order[i + 1]
    ensures var p, q := order[i - 1], order[i + 1];
            Linked(SetPrev(SetNext(nodes, p, q), q, p), Without(order, i), oldest, newest)
  {
    assert LinkedAt(nodes, order, i) && LinkedAt(nodes, order, i - 1) && LinkedAt(nodes, order, i + 1);
    var w, p, q := Without(order, i), order[i - 1], order[i + 1];
    var b := nodes[p := nodes[p].(next := q)][q := nodes[q].(prev := p)];
    forall k | 0 <= k < |w| ensures LinkedAt(b, w, k) {
      var j := if k < i then k else k + 1;
      assert LinkedAt(nodes, order, j);
      assert order[j] == p <==> j == i - 1;
      assert order[j] == q <==> j == i + 1;
      Relink(nodes, b, order, i, k);
    }
  }

  lemma LinkedEnds(nodes: Cache, order: seq<Hash>, oldest: Hash, newest: Hash, i: nat)
    requires Linked(nodes, order, oldest, newest) && i < |order| && Distinct(order)
    ensures order[i] in nodes
    ensures order[i] == oldest <==> i == 0
    ensures order[i] == newest <==> i == |order| - 1
  {
    assert LinkedAt(nodes, order, i);
  }

  /** Links are read off the listed entries alone. */
  lemma SameLinks(a: Cache, b: Cache, order: seq<Hash>, oldest: Hash, newest: Hash)
    requires Linked(a, order, oldest, newest)
    requires forall h | h in order && h in a :: h in b && a[h].next == b[h].next && a[h].prev == b[h].prev
    ensures Linked(b, order, oldest, newest)
  {
    forall i | 0 <= i < |order| ensures LinkedAt(b, order, i) { assert LinkedAt(a, order, i); }
  }

  // ---------- what dereferencing removes ----------

  /**
   From cache a with list oa to cache b with list ob only dereferencing happened:
   nodes not on disk left only if something referred to them, and none that
   stayed lost its last reference.
   */
  ghost predicate Shrunk(a: Cache, oa: seq<Hash>, b: Cache, ob: seq<Hash>, disk: set<Hash>) {
    && Zero in a && Zero in b && a[Zero].children == b[Zero].children
    && (forall h | h in ob :: h in oa && Survives(a, b, h, disk))
    && (forall h | h in oa && h !in ob && h !in disk :: h in a && a[h].parents > 0)
  }

  ghost predicate Survives(a: Cache, b: Cache, h: Hash, disk: set<Hash>) {
    && h in a && h in b
    && a[h].node == b[h].node && a[h].size == b[h].size && a[h].children == b[h].children
    && (h !in disk ==> b[h].parents <= a[h].parents && (b[h].parents == 0 ==> a[h].parents == 0))
  }

  lemma ShrunkTrans(a: Cache, oa: seq<Hash>, b: Cache, ob: seq<Hash>, c: Cache, oc: seq<Hash>, disk: set<Hash>)
    requires Shrunk(a, oa, b, ob, disk) && Shrunk(b, ob, c, oc, disk)
    ensures Shrunk(a, oa, c, oc, disk)
  {
    forall h | h in oc ensures h in oa && Survives(a, c, h, disk) {
      assert h in ob && Survives(b, c, h, disk) && Survives(a, b, h, disk);
    }
    forall h | h in oa && h !in oc && h !in disk ensures h in a && a[h].parents > 0 {
      if h in ob { assert Survives(a, b, h, disk); }
    }
  }

  lemma ShrunkSame(a: Cache, b: Cache, order: seq<Hash>, disk: set<Hash>)
    requires Zero in a && Zero in b && a[Zero].children == b[Zero].children
    requires forall h | h in order :: h in a && h in b && b[h] == a[h].(prev := b[h].prev, next := b[h].next)
    ensures Shrunk(a, order, b, order, disk)
  {
    forall h | h in order ensures Survives(a, b, h, disk) {}
  }

  /** A dropped reference to a node that is not cached needs no discount. */
  lemma ReleaseUnknown(rank: Rank, nodes: Cache, order: seq<Hash>, disk: set<Hash>, limbo: set<Hash>,
                       pending: multiset<Hash>, child: Hash)
    requires Inv(rank, nodes, order, disk, limbo, pending) && child in pending && child !in nodes
    ensures Inv(rank, nodes, order, disk, limbo, pending - multiset{child})
    ensures Shrunk(nodes, order, nodes, order, disk)
  {
    hide Resolved, Counted, Ordered, Contents;
    assert child !in order;
    AgreeInv(rank, nodes, nodes, order, disk, limbo, pending, pending - multiset{child});
    ShrunkSame(nodes, nodes, order, disk);
  }

  function Less(e: Entry): Entry {
    e.(parents := if e.parents > 0 then e.parents - 1 else 0)
  }

  /** A dropped reference to a cached node is discounted. */
  lemma Discount(rank: Rank, nodes: Cache, order: seq<Hash>, disk: set<Hash>, limbo: set<Hash>, pending: multiset<Hash>,
                 child: Hash)
    requires Inv(rank, nodes, order, disk, limbo, pending) && child in pending && child in nodes && child !in limbo
    ensures child in order && (child !in disk ==> nodes[child].parents > 0)
    ensures Inv(rank, nodes[child := Less(nodes[child])], order, disk, limbo, pending - multiset{child})
    ensures SizeSum(nodes[child := Less(nodes[child])], order) == SizeSum(nodes, order)
  {
    hide Resolved, Ordered, Contents, Kids, Count;
    var b := nodes[child := Less(nodes[child])];
    assert child in order;
    if child !in disk { assert nodes[child].parents > 0; }
    AgreeInv(rank, nodes, b, order, disk, limbo, pending, pending - multiset{child});
    AgreeSize(nodes, b, order);
  }

  /** After the last reference: the node is off the list and its own references are pending. */
  lemma LastReference(rank: Rank, nodes: Cache, order: seq<Hash>, disk: set<Hash>, limbo: set<Hash>, pending: multiset<Hash>,
                      i: nat, b: Cache)
    requires Inv(rank, nodes, order, disk, limbo, pending) && i < |order| && nodes[order[i]].parents == 0
    requires Relinked(nodes, b)
    ensures order[i] !in limbo && order[i] in b
    ensures var w := Without(order, i);
            && Inv(rank, b, w, disk, limbo + {order[i]}, pending + Kids(nodes, order[i]))
            && SizeSum(nodes, order) == SizeAt(nodes, order[i]) + SizeSum(b, w)
            && (forall c | c in Kids(nodes, order[i]) :: rank(c) < rank(order[i]))
            && |w| == |order| - 1 && (forall x | x in w :: x in order && x != order[i])
            && (forall x | x in order && x !in w :: x == order[i])
  {
    hide Counted, Ordered, Contents, Count;
    var w := Without(order, i);
    var pend := pending + Kids(nodes, order[i]);
    WithoutElems(order, i);
    Detach(rank, nodes, order, disk, limbo, pending, i);
    AgreeInv(rank, nodes, b, w, disk, limbo + {order[i]}, pend, pend);
    CountWithout(nodes, order, i, Zero);
    AgreeSize(nodes, b, w);
  }

  lemma ShrunkDetach(a: Cache, order: seq<Hash>, i: nat, b: Cache, w: seq<Hash>, disk: set<Hash>)
    requires i < |order| && Zero in a && Relinked(a, b) && forall h | h in order :: h in a
    requires forall x | x in w :: x in order && x != order[i]
    requires forall x | x in order && x !in w :: x == order[i]
    requires order[i] in a && (order[i] !in disk ==> a[order[i]].parents > 0)
    ensures Shrunk(a, order, b, w, disk)
  {
    forall h | h in w ensures Survives(a, b, h, disk) {}
  }

  lemma ShrunkWeaken(a: Cache, oa: seq<Hash>, b: Cache, ob: seq<Hash>, disk: set<Hash>, more: set<Hash>)
    requires Shrunk(a, oa, b, ob, disk) && disk <= more
    ensures Shrunk(a, oa, b, ob, more)
  {
    forall h | h in ob ensures Survives(a, b, h, more) { assert Survives(a, b, h, disk); }
  }

  /** Removing a node whose last reference was just discounted. */
  lemma ShrunkRemoved(a: Cache, oa: seq<Hash>, child: Hash, b: Cache, ob: seq<Hash>, disk: set<Hash>)
    requires child in a && child in oa && child !in ob && child != Zero
    requires child !in disk ==> a[child].parents > 0
    requires Shrunk(a[child := Less(a[child])], oa, b, ob, disk + {child})
    ensures Shrunk(a, oa, b, ob, disk)
  {
    var m := a[child := Less(a[child])];
    forall h | h in ob ensures h in oa && Survives(a, b, h, disk) { assert Survives(m, b, h, disk + {child}); }
  }

  lemma ShrunkLess(a: Cache, order: seq<Hash>, child: Hash, disk: set<Hash>)
    requires child in a && child != Zero && Zero in a && a[child].parents > 1
    requires forall h | h in order :: h in a
    ensures Shrunk(a, order, a[child := Less(a[child])], order, disk)
  {
    var b := a[child := Less(a[child])];
    forall h | h in order ensures Survives(a, b, h, disk) {}
  }

  lemma InvFacts(rank: Rank, nodes: Cache, order: seq<Hash>, disk: set<Hash>, limbo: set<Hash>, pending: multiset<Hash>)
    requires Inv(rank, nodes, order, disk, limbo, pending)
    ensures Zero in nodes && Zero !in order && Zero !in limbo && Distinct(order)
    ensures forall h | h in order || h in limbo :: h in nodes
    ensures forall h | h in nodes && h != Zero && h !in limbo :: h in order
    ensures forall h | h in nodes && h != Zero :: Content(h, nodes[h])
    ensures forall h, x | h in order :: nodes[h].children[x] <= 1
    ensures forall c | c in pending :: c != Zero
  {
    hide Count, Counted, Ordered, Resolved, Content;
  }

  /** What happens to the entry of a node in limbo does not matter. */
  lemma LimboEntry(rank: Rank, a: Cache, b: Cache, order: seq<Hash>, disk: set<Hash>, limbo: set<Hash>, pending: multiset<Hash>,
                   h: Hash, e: Entry, oldest: Hash, newest: Hash)
    requires Inv(rank, a, order, disk, limbo, pending) && Linked(a, order, oldest, newest)
    requires h in limbo && h in a && b == a[h := e] && e.node == a[h].node && e.size == a[h].size
    ensures Inv(rank, b, order, disk, limbo, pending) && Linked(b, order, oldest, newest)
    ensures Shrunk(a, order, b, order, disk) && SizeSum(a, order) == SizeSum(b, order)
  {
    hide Count, Counted, Ordered, Resolved, Contents;
    AgreeInv(rank, a, b, order, disk, limbo, pending, pending);
    SameLinks(a, b, order, oldest, newest);
    ShrunkSame(a, b, order, disk);
    AgreeSize(a, b, order);
  }

  lemma ForgetLinks(rank: Rank, nodes: Cache, order: seq<Hash>, disk: set<Hash>, limbo: set<Hash>, pending: multiset<Hash>,
                    h: Hash, oldest: Hash, newest: Hash)
    requires Inv(rank, nodes, order, disk, limbo, pending) && Linked(nodes, order, oldest, newest) && h in limbo
    ensures Linked(nodes - {h}, order, oldest, newest)
    ensures Shrunk(nodes, order, nodes - {h}, order, disk)
  {
    hide Count, Counted, Ordered, Resolved, Contents;
    SameLinks(nodes, nodes - {h}, order, oldest, newest);
    ShrunkSame(nodes, nodes - {h}, order, disk);
  }

  lemma KidsOf(nodes: Cache, h: Hash)
    requires h in nodes
    ensures Kids(nodes, h) == multiset(Below(h)) + nodes[h].children
    ensures SizeAt(nodes, h) == HASH_SIZE + nodes[h].size
  {
  }
}
