/** Flushing the oldest nodes of the list. */
module CacheCap {
  import opened Rlp
  import opened Nodes
  import opened Raws
  import opened Caches
  import opened CacheSteps
  import opened CacheRuns
  import opened CacheCommit

  /** The first n nodes of the list were written, oldest first, and left the list if the writes went through. */
  ghost predicate Capped(o0: seq<Hash>, o1: seq<Hash>, w0: seq<Hash>, w1: seq<Hash>, n: nat, ok: bool) {
    n <= |o0| && w1 == w0 + o0[..n] && o1 == if ok then o0[n..] else o0
  }

  /** What is still in memory once the first k nodes of the list are gone: their entries and their flush list links. */
  ghost function LeftAfter(size: int, nodes: Cache, order: seq<Hash>, k: nat): int
    requires k <= |order|
  {
    size - SizeSum(nodes, order[..k]) - 2 * HASH_SIZE * k
  }

  /** With fewer than n nodes gone, the rest does not fit the limit. */
  ghost predicate Needed(size: int, nodes: Cache, order: seq<Hash>, limit: int, n: nat) {
    n <= |order| && forall k | 0 <= k < n :: LeftAfter(size, nodes, order, k) > limit
  }

  lemma NoneNeeded(size: int, nodes: Cache, order: seq<Hash>, limit: int)
    ensures Needed(size, nodes, order, limit, 0) && LeftAfter(size, nodes, order, 0) == size
  {
  }

  lemma {:induction false} ElemsSize(order: seq<Hash>)
    requires Distinct(order)
    ensures |Elems(order)| == |order|
  {
    if order != [] {
      var rest := order[1..];
      ElemsSize(rest);
      assert Elems(order) == Elems(rest) + {order[0]};
      assert order[0] !in rest;
    }
  }

  lemma CacheSize(rank: Rank, nodes: Cache, order: seq<Hash>, disk: set<Hash>)
    requires Inv(rank, nodes, order, disk, {}, multiset{})
    ensures |nodes| == |order| + 1
  {
    hide Resolved, Counted, Ordered, Contents;
    ElemsSize(order);
    assert nodes.Keys == {Zero} + Elems(order);
    assert |nodes| == |nodes.Keys|;
  }

  lemma FlushFacts(rank: Rank, nodes: Cache, order: seq<Hash>, disk: set<Hash>, oldest: Hash, newest: Hash, n: nat)
    requires Inv(rank, nodes, order, disk, {}, multiset{}) && Linked(nodes, order, oldest, newest)
    requires n < |order| && forall j | 0 <= j < n :: order[j] in disk
    ensures var h := order[n];
            && h in nodes && h.Of? && EncodeRaw(nodes[h].node) == h.pre
            && nodes[h].next == At(order, n + 1)
            && (forall c | c in Kids(nodes, h) :: c in disk)
            && (forall c | c in Below(h) :: c in disk)
            && SizeSum(nodes, order[..n + 1]) == SizeSum(nodes, order[..n]) + HASH_SIZE + nodes[h].size
  {
    hide Counted, Content, Count, EncodeRaw;
    var h := order[n];
    InvFacts(rank, nodes, order, disk, {}, multiset{});
    ContentIs(h, nodes[h]);
    assert LinkedAt(nodes, order, n);
    var older := order[..n];
    forall c | c in Kids(nodes, h) ensures c in disk {
      assert c in disk || c in older;
    }
    forall c | c in Below(h) ensures c in disk { assert c in Kids(nodes, h); }
    assert order[..n + 1] == order[..n] + [h];
    CountConcat(nodes, order[..n], [h], Zero);
    CountOne(nodes, h, Zero);
  }

  lemma PopHead(rank: Rank, nodes: Cache, order: seq<Hash>, disk: set<Hash>, oldest: Hash, newest: Hash)
    requires Inv(rank, nodes, order, disk, {}, multiset{}) && Linked(nodes, order, oldest, newest)
    requires order != [] && order[0] in disk
    ensures oldest == order[0] && oldest in nodes
    ensures Inv(rank, nodes - {oldest}, order[1..], disk, {}, multiset{})
    ensures Linked(nodes - {oldest}, order[1..], nodes[oldest].next, newest)
    ensures SizeSum(nodes, order) == HASH_SIZE + nodes[oldest].size + SizeSum(nodes - {oldest}, order[1..])
  {
    hide Inv, SizeSum, Count, Linked;
    InvFacts(rank, nodes, order, disk, {}, multiset{});
    FlushStart(nodes, order, oldest, newest);
    assert Without(order, 0) == order[1..];
    DetachWritten(rank, nodes, order, disk, {}, multiset{}, 0);
    var none: set<Hash> := {};
    assert none + {oldest} - {oldest} == none;
    Forget(rank, nodes, order[1..], disk, none + {oldest}, multiset{}, oldest);
    CountWithout(nodes, order, 0, Zero);
    PopLinks(nodes, order, oldest, newest);
  }

  lemma PopLinks(nodes: Cache, order: seq<Hash>, oldest: Hash, newest: Hash)
    requires Linked(nodes, order, oldest, newest) && order != [] && Distinct(order)
    ensures oldest in nodes && Linked(nodes - {oldest}, order[1..], nodes[oldest].next, newest)
  {
    assert LinkedAt(nodes, order, 0);
    var b, w := nodes - {oldest}, order[1..];
    forall i | 0 <= i < |w| ensures LinkedAt(b, w, i) {
      assert LinkedAt(nodes, order, i + 1);
      assert w[i] == order[i + 1] && order[i + 1] != order[0];
      assert At(w, i + 1) == At(order, i + 2);
      assert i > 0 ==> At(w, i - 1) == At(order, i);
    }
  }

  lemma FlushStart(nodes: Cache, order: seq<Hash>, oldest: Hash, newest: Hash)
    requires Linked(nodes, order, oldest, newest)
    ensures oldest == At(order, 0) && SizeSum(nodes, []) == 0
  {
  }

  lemma SubcacheStart(nodes: Cache)
    ensures Subcache(nodes, nodes)
  {
  }

  lemma SubcacheTrans(a: Cache, b: Cache, c: Cache)
    requires Subcache(a, b) && Subcache(b, c)
    ensures Subcache(a, c)
  {
  }

  lemma SubcacheLess(a: Cache, b: Cache, h: Hash)
    requires Subcache(a, b)
    ensures Subcache(a, b - {h})
  {
  }

  lemma FlushedMore(nodes: Cache, order: seq<Hash>, disk: set<Hash>, oldest: Hash, newest: Hash, o0: seq<Hash>, k: nat, n: nat)
    requires Linked(nodes, order, oldest, newest) && k <= n <= |o0| && order == o0[k..]
    requires oldest != At(o0, n) && forall j | 0 <= j < n :: o0[j] in disk
    ensures k < n && order != [] && order[0] in disk
  {
    assert At(order, 0) == At(o0, k);
  }

  lemma FlushedAll(nodes: Cache, order: seq<Hash>, disk: set<Hash>, oldest: Hash, newest: Hash, o0: seq<Hash>, k: nat, n: nat)
    requires Linked(nodes, order, oldest, newest) && k <= n <= |o0| && order == o0[k..]
    requires oldest == At(o0, n) && Distinct(o0) && Zero !in o0
    ensures k == n
  {
    assert At(order, 0) == At(o0, k);
  }

  lemma HeadPrev(rank: Rank, nodes: Cache, order: seq<Hash>, disk: set<Hash>, oldest: Hash, newest: Hash)
    requires Inv(rank, nodes, order, disk, {}, multiset{}) && Linked(nodes, order, oldest, newest) && oldest != Zero
    ensures oldest in nodes
    ensures var b := SetPrev(nodes, oldest, Zero);
            && Inv(rank, b, order, disk, {}, multiset{}) && Linked(b, order, oldest, newest)
            && SizeSum(b, order) == SizeSum(nodes, order)
  {
    hide Inv, SizeSum;
    assert LinkedAt(nodes, order, 0);
    InvFacts(rank, nodes, order, disk, {}, multiset{});
    var b := SetPrev(nodes, oldest, Zero);
    forall i | 0 <= i < |order| ensures LinkedAt(b, order, i) {
      assert LinkedAt(nodes, order, i);
      assert i > 0 ==> order[i] != order[0];
    }
    AgreeInv(rank, nodes, b, order, disk, {}, multiset{}, multiset{});
    AgreeSize(nodes, b, order);
  }

  lemma CappedSize(a: Cache, order: seq<Hash>, b: Cache, n: nat)
    requires n <= |order| && Subcache(a, b) && forall h | h in order[n..] :: h in b
    ensures SizeSum(a, order) == SizeSum(a, order[..n]) + SizeSum(b, order[n..])
  {
    assert order == order[..n] + order[n..];
    CountConcat(a, order[..n], order[n..], Zero);
    SizeSame(a, b, order[n..]);
  }
}
