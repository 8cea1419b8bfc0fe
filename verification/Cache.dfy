/**
 The state of the database's write cache as values, and the invariants that tie
 its reference counters, its flush list and the disk together.

 nodes is the cache, keyed by hash; the entry under Zero is the meta root, whose
 children are the referenced roots. order is the flush list, oldest first. limbo
 holds nodes that have left the list while their children are still being
 processed; pending holds references that were dropped but not yet discounted.
 */
module Caches {
  import opened Rlp
  import opened Encoding
  import opened Nodes
  import opened Raws

  /** children holds the external references of the node, with multiplicity for the meta root only. */
  datatype Entry = Entry(node: Raw, size: Uint16, parents: nat, children: multiset<Hash>, prev: Hash, next: Hash)

  type Cache = map<Hash, Entry>

  // ---------- edges ----------

  /** The trie children of what a hash hashes. */
  function Below(h: Hash): seq<Hash> {
    if h.Of? then Refs(h.pre) else []
  }

  /**
   A rank of hashes. References go from higher to lower ranks: those inside what a hash
   hashes always do, and external references have to, so that following references of both
   kinds comes to an end.
   */
  type Rank = Hash -> nat

  ghost predicate Ranked(rank: Rank) {
    forall h, c | c in Below(h) :: rank(c) < rank(h)
  }

  /** The least rank that is nowhere below the floor. */
  function Lifted(floor: Rank, h: Hash): nat
    decreases h, 1
  {
    var i := if h.Of? then 1 + LiftedItem(floor, h.pre) else 0;
    if i < floor(h) then floor(h) else i
  }

  function LiftedItem(floor: Rank, i: Item): nat
    decreases i, 1
  {
    match i
    case Str(_) => 0
    case Ref(h) => Lifted(floor, h)
    case List(items) => LiftedItems(floor, items)
  }

  function LiftedItems(floor: Rank, items: seq<Item>): nat
    decreases items, 0
  {
    if items == [] then 0
    else
      var a, b := LiftedItem(floor, items[0]), LiftedItems(floor, items[1..]);
      if a < b then b else a
  }

  lemma {:induction false} RefsLower(floor: Rank, i: Item, c: Hash)
    requires c in Refs(i)
    ensures Lifted(floor, c) <= LiftedItem(floor, i)
    decreases i, 1
  {
    if i.List? { RefsOfLower(floor, i.items, c); }
  }

  lemma {:induction false} RefsOfLower(floor: Rank, items: seq<Item>, c: Hash)
    requires c in RefsOf(items)
    ensures Lifted(floor, c) <= LiftedItems(floor, items)
    decreases items, 0
  {
    if c in Refs(items[0]) { RefsLower(floor, items[0], c); } else { RefsOfLower(floor, items[1..], c); }
  }

  /** Whatever the floor, it is a rank. */
  lemma LiftedRanked(floor: Rank)
    ensures Ranked(h => Lifted(floor, h))
  {
    forall h, c | c in Below(h) ensures Lifted(floor, c) < Lifted(floor, h) { RefsLower(floor, h.pre, c); }
  }

  /** A hash stands inside a hash term, or is it. */
  predicate Inside(x: Hash, h: Hash)
    decreases h, 1
  {
    x == h || (h.Of? && InsideItem(x, h.pre))
  }

  predicate InsideItem(x: Hash, i: Item)
    decreases i, 1
  {
    match i
    case Str(_) => false
    case Ref(h) => Inside(x, h)
    case List(items) => exists k | 0 <= k < |items| :: InsideItem(x, items[k])
  }

  lemma {:induction false} InsideTrans(x: Hash, y: Hash, h: Hash)
    requires Inside(x, y) && Inside(y, h)
    ensures Inside(x, h)
    decreases h, 1
  {
    if y != h { InsideTransItem(x, y, h.pre); }
  }

  lemma {:induction false} InsideTransItem(x: Hash, y: Hash, i: Item)
    requires Inside(x, y) && InsideItem(y, i)
    ensures InsideItem(x, i)
    decreases i, 1
  {
    match i
    case Ref(h) => InsideTrans(x, y, h);
    case List(items) =>
      var k :| 0 <= k < |items| && InsideItem(y, items[k]);
      InsideTransItem(x, y, items[k]);
  }

  /** What a hash refers to stands inside it. */
  lemma {:induction false} RefsInside(i: Item, c: Hash)
    requires c in Refs(i)
    ensures InsideItem(c, i)
    decreases i, 1
  {
    if i.Ref? { assert Inside(c, c); }
    if i.List? { var k := RefsOfInside(i.items, c); }
  }

  lemma {:induction false} RefsOfInside(items: seq<Item>, c: Hash) returns (k: nat)
    requires c in RefsOf(items)
    ensures k < |items| && InsideItem(c, items[k])
    decreases items, 0
  {
    if c in Refs(items[0]) {
      RefsInside(items[0], c);
      k := 0;
    } else {
      var m := RefsOfInside(items[1..], c);
      k := m + 1;
    }
  }

  lemma BelowInside(h: Hash, c: Hash)
    requires c in Below(h)
    ensures Inside(c, h)
  {
    RefsInside(h.pre, c);
  }

  function Floor(xs: set<Hash>, n: nat): Rank {
    y => if y in xs then n else 0
  }

  /** Lifting some hashes lifts only those that one of them stands inside of. */
  lemma {:induction false} LiftedOutside(xs: set<Hash>, n: nat, h: Hash)
    requires forall x | x in xs :: !Inside(x, h)
    ensures Lifted(Floor(xs, n), h) == Lifted(Floor({}, 0), h)
    decreases h, 1
  {
    assert Inside(h, h);
    if h.Of? {
      forall x | x in xs ensures !InsideItem(x, h.pre) { assert !Inside(x, h); }
      LiftedOutsideItem(xs, n, h.pre);
    }
  }

  lemma {:induction false} LiftedOutsideItem(xs: set<Hash>, n: nat, i: Item)
    requires forall x | x in xs :: !InsideItem(x, i)
    ensures LiftedItem(Floor(xs, n), i) == LiftedItem(Floor({}, 0), i)
    decreases i, 1
  {
    match i
    case Str(_) =>
    case Ref(h) =>
      forall x | x in xs ensures !Inside(x, h) { assert !InsideItem(x, i); }
      LiftedOutside(xs, n, h);
    case List(items) =>
      forall x, k | x in xs && 0 <= k < |items| ensures !InsideItem(x, items[k]) { assert !InsideItem(x, i); }
      LiftedOutsideItems(xs, n, items);
  }

  lemma {:induction false} LiftedOutsideItems(xs: set<Hash>, n: nat, items: seq<Item>)
    requires forall x, k | x in xs && 0 <= k < |items| :: !InsideItem(x, items[k])
    ensures LiftedItems(Floor(xs, n), items) == LiftedItems(Floor({}, 0), items)
    decreases items, 0
  {
    if items != [] {
      LiftedOutsideItem(xs, n, items[0]);
      LiftedOutsideItems(xs, n, items[1..]);
    }
  }

  lemma {:induction false} Bound(hs: set<Hash>) returns (n: nat)
    ensures forall h | h in hs :: Lifted(Floor({}, 0), h) < n
  {
    if hs == {} { return 0; }
    var h :| h in hs;
    var m := Bound(hs - {h});
    n := m + Lifted(Floor({}, 0), h) + 1;
    assert forall x | x in hs :: x == h || x in hs - {h};
  }

  /** Nodes, leaves too, can all refer to any hashes that none of them stands inside of. */
  lemma MayStandAbove(parents: set<Hash>, children: set<Hash>) returns (rank: Rank)
    requires forall p, c | p in parents && c in children :: !Inside(p, c)
    ensures Ranked(rank) && forall p, c | p in parents && c in children :: rank(c) < rank(p)
  {
    var n := Bound(children);
    forall c | c in children ensures Lifted(Floor(parents, n), c) < n { LiftedOutside(parents, n, c); }
    LiftedRanked(Floor(parents, n));
    rank := h => Lifted(Floor(parents, n), h);
  }

  /** All tracked children of a cached node, with multiplicity. */
  function Kids(nodes: Cache, h: Hash): multiset<Hash> {
    if h in nodes then multiset(Below(h)) + nodes[h].children else multiset{}
  }

  /** References to x from the nodes listed. */
  function Count(nodes: Cache, order: seq<Hash>, x: Hash): nat {
    if order == [] then 0 else Kids(nodes, order[0])[x] + Count(nodes, order[1..], x)
  }

  function SizeAt(nodes: Cache, h: Hash): nat {
    if h in nodes then HASH_SIZE + nodes[h].size else 0
  }

  /** Accounted size of the nodes listed. */
  function SizeSum(nodes: Cache, order: seq<Hash>): nat {
    if order == [] then 0 else SizeAt(nodes, order[0]) + SizeSum(nodes, order[1..])
  }

  function Without(order: seq<Hash>, i: nat): seq<Hash>
    requires i < |order|
  {
    order[..i] + order[i + 1..]
  }

  lemma {:induction false} CountConcat(nodes: Cache, a: seq<Hash>, b: seq<Hash>, x: Hash)
    ensures Count(nodes, a + b, x) == Count(nodes, a, x) + Count(nodes, b, x)
    ensures SizeSum(nodes, a + b) == SizeSum(nodes, a) + SizeSum(nodes, b)
  {
    if a == [] {
      assert a + b == b;
    } else {
      assert (a + b)[1..] == a[1..] + b;
      CountConcat(nodes, a[1..], b, x);
    }
  }

  lemma CountOne(nodes: Cache, h: Hash, x: Hash)
    ensures Count(nodes, [h], x) == Kids(nodes, h)[x]
    ensures SizeSum(nodes, [h]) == SizeAt(nodes, h)
  {
    assert [h][1..] == [];
  }

  lemma CountWithout(nodes: Cache, order: seq<Hash>, i: nat, x: Hash)
    requires i < |order|
    ensures Count(nodes, order, x) == Kids(nodes, order[i])[x] + Count(nodes, Without(order, i), x)
    ensures SizeSum(nodes, order) == SizeAt(nodes, order[i]) + SizeSum(nodes, Without(order, i))
  {
    assert order == order[..i] + ([order[i]] + order[i + 1..]);
    CountConcat(nodes, order[..i], [order[i]] + order[i + 1..], x);
    CountConcat(nodes, [order[i]], order[i + 1..], x);
    CountOne(nodes, order[i], x);
    CountConcat(nodes, order[..i], order[i + 1..], x);
  }

  lemma {:induction false} CountSame(a: Cache, b: Cache, order: seq<Hash>, x: Hash)
    requires forall h | h in order :: Kids(a, h) == Kids(b, h)
    ensures Count(a, order, x) == Count(b, order, x)
  {
    if order != [] { CountSame(a, b, order[1..], x); }
  }

  lemma {:induction false} SizeSame(a: Cache, b: Cache, order: seq<Hash>)
    requires forall h | h in order :: SizeAt(a, h) == SizeAt(b, h)
    ensures SizeSum(a, order) == SizeSum(b, order)
  {
    if order != [] { SizeSame(a, b, order[1..]); }
  }

  lemma {:induction false} CountAtLeast(nodes: Cache, order: seq<Hash>, h: Hash, x: Hash)
    requires h in order
    ensures Kids(nodes, h)[x] <= Count(nodes, order, x)
  {
    if order[0] != h { CountAtLeast(nodes, order[1..], h, x); }
  }

  lemma {:induction false} CountFrom(nodes: Cache, order: seq<Hash>, x: Hash) returns (h: Hash)
    requires Count(nodes, order, x) > 0
    ensures h in order && x in Kids(nodes, h)
  {
    if Kids(nodes, order[0])[x] > 0 { h := order[0]; } else { h := CountFrom(nodes, order[1..], x); }
  }

  // ---------- invariants ----------

  function Elems(order: seq<Hash>): set<Hash> {
    set h | h in order
  }

  ghost predicate Distinct(order: seq<Hash>) {
    forall i, j | 0 <= i < j < |order| :: order[i] != order[j]
  }

  /** The hash at an index of the list, Zero outside it. */
  function At(order: seq<Hash>, i: int): Hash {
    if 0 <= i < |order| then order[i] else Zero
  }

  /** The entry at an index points to its neighbours; the head need not point back. */
  ghost predicate LinkedAt(nodes: Cache, order: seq<Hash>, i: int)
    requires 0 <= i < |order|
  {
    && order[i] in nodes
    && nodes[order[i]].next == At(order, i + 1)
    && (i > 0 ==> nodes[order[i]].prev == At(order, i - 1))
  }

  /** The intrusive list in the entries is order. newest and the back link of the head may be stale. */
  ghost predicate Linked(nodes: Cache, order: seq<Hash>, oldest: Hash, newest: Hash) {
    && oldest == At(order, 0)
    && (order != [] ==> newest == At(order, |order| - 1))
    && (forall i | 0 <= i < |order| :: LinkedAt(nodes, order, i))
  }

  /** The cache holds the meta root, the listed nodes and those in limbo. */
  ghost predicate Shaped(nodes: Cache, order: seq<Hash>, limbo: set<Hash>) {
    && Zero in nodes && Zero !in order && Zero !in limbo
    && Distinct(order)
    && nodes.Keys == {Zero} + Elems(order) + limbo
    && Elems(order) !! limbo
    && (forall h, x | h in order :: nodes[h].children[x] <= 1)
  }

  /** A cached entry is what its hash hashes. */
  ghost predicate Content(h: Hash, e: Entry) {
    && h.Of? && EncodeRaw(e.node) == h.pre && e.size == Size(h.pre) % 65536
    && if e.node.RBlob? then Below(h) == [] else (e.node.RShort? || e.node.RFull?) && Proper(e.node)
  }

  ghost predicate Contents(nodes: Cache) {
    forall h | h in nodes && h != Zero :: Content(h, nodes[h])
  }

  predicate Holder(order: seq<Hash>, p: Hash) {
    p == Zero || p in order
  }

  /** A tracked child is in the list or on disk, and lower than a parent that is a node. */
  ghost predicate EdgeOk(rank: Rank, order: seq<Hash>, disk: set<Hash>, p: Hash, c: Hash) {
    c != Zero && (c in order || c in disk) && (p != Zero ==> rank(c) < rank(p))
  }

  /** Every tracked child of a listed node or of the meta root resolves. */
  ghost predicate Resolved(rank: Rank, nodes: Cache, order: seq<Hash>, disk: set<Hash>) {
    forall p, c | Holder(order, p) && c in Kids(nodes, p) :: EdgeOk(rank, order, disk, p, c)
  }

  lemma ResolvedEdge(rank: Rank, nodes: Cache, order: seq<Hash>, disk: set<Hash>, p: Hash, c: Hash)
    requires Resolved(rank, nodes, order, disk) && Holder(order, p) && c in Kids(nodes, p)
    ensures EdgeOk(rank, order, disk, p, c)
  {
  }

  ghost predicate Outstanding(order: seq<Hash>, disk: set<Hash>, pending: multiset<Hash>) {
    forall c | c in pending :: c != Zero && (c in order || c in disk)
  }

  /** Reference counts are exact for every listed node that is not on disk. */
  ghost predicate Counted(nodes: Cache, order: seq<Hash>, disk: set<Hash>, pending: multiset<Hash>) {
    forall x | x in order && x !in disk && x in nodes ::
      nodes[x].parents == Count(nodes, order, x) + Kids(nodes, Zero)[x] + pending[x]
  }

  /** References to nodes not on disk come from nodes not on disk, and run from younger to older. */
  ghost predicate Ordered(nodes: Cache, order: seq<Hash>, disk: set<Hash>) {
    forall j, c | 0 <= j < |order| && c in Kids(nodes, order[j]) && c !in disk ::
      order[j] !in disk && c in order[..j]
  }

  ghost predicate Inv(rank: Rank, nodes: Cache, order: seq<Hash>, disk: set<Hash>, limbo: set<Hash>, pending: multiset<Hash>) {
    && Shaped(nodes, order, limbo)
    && Contents(nodes)
    && Resolved(rank, nodes, order, disk)
    && Outstanding(order, disk, pending)
    && Counted(nodes, order, disk, pending)
    && Ordered(nodes, order, disk)
  }
}
