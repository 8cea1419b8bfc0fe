/**
 The difference iterator: it walks two tries at once, skips what they share, and
 stops at the nodes of the second one that the first does not have.
 */
module Differences {
  import opened Rlp
  import opened Encoding
  import opened Trees
  import opened Nodes
  import opened History
  import opened Hashers
  import opened Tries
  import opened Iterators
  import V = Visits

  /** Compares hashes as byte strings do: zero exactly for equal ones. Nothing else about the order matters. */
  type Order = (Hash, Hash) -> int

  ghost predicate OrderOk(order: Order) {
    forall x, y :: (order(x, y) == 0 <==> x == y) && -1 <= order(x, y) <= 1
  }

  // ---------- comparing two positions ----------

  /** compareNodes: by path, then leaves first, then by hash, then by value. */
  function CompareVisits(order: Order, va: V.Visit, ha: Hash, vb: V.Visit, hb: Hash): int {
    if V.Compare(va.path, vb.path) != 0 then V.Compare(va.path, vb.path)
    else if HasTerm(va.path) && !HasTerm(vb.path) then -1
    else if HasTerm(vb.path) && !HasTerm(va.path) then 1
    else if order(ha, hb) != 0 then order(ha, hb)
    else if va.tree.Leaf? && vb.tree.Leaf? then V.Compare(va.tree.value, vb.tree.value)
    else 0
  }

  /** The hash that a visited node is stored under. */
  ghost function VisitHash(v: V.Visit): Hash {
    HashOf(v.tree, v.path == [])
  }

  /** The visits of two iterators at their positions, and their hashes. */
  ghost predicate Facing(ta: Tree, i: nat, ha: Hash, tb: Tree, j: nat, hb: Hash) {
    && Canonical(ta) && Canonical(tb) && i < |All(ta)| && j < |All(tb)|
    && ha == VisitHash(All(ta)[i]) && hb == VisitHash(All(tb)[j])
  }

  /** How the visits at two positions compare. */
  ghost function CompareAt(order: Order, ta: Tree, i: int, ha: Hash, tb: Tree, j: int, hb: Hash): int {
    if 0 <= i < |All(ta)| && 0 <= j < |All(tb)| then CompareVisits(order, All(ta)[i], ha, All(tb)[j], hb) else 0
  }

  /** The tree has the leaf: the same value under the same path. */
  ghost predicate Holds(t: Tree, v: V.Visit) {
    v.tree.Leaf? && Lookup(t, v.path) == Some(v.tree.value)
  }

  /** The tree has the node: the same subtree under the same path. */
  ghost predicate Has(t: Tree, v: V.Visit) {
    v in All(t)
  }

  /** Two nodes that are the same, or embedded in their parents under the same path. Only those compare equal. */
  ghost predicate Twin(v: V.Visit, w: V.Visit) {
    v == w || (v.path == w.path && v.path != [] && Embedded(v.tree) && Embedded(w.tree))
  }

  ghost predicate Alike(t: Tree, v: V.Visit) {
    exists w :: Has(t, w) && Twin(v, w)
  }

  /** Position i of the first tree has not passed the twin of any node that the second has from position j on. */
  ghost predicate Behind(ta: Tree, tb: Tree, i: nat, j: nat) {
    && i <= |All(ta)| && j <= |All(tb)|
    && forall v, w | v in All(tb)[j..] && Has(ta, w) && Twin(v, w) :: w in All(ta)[i..]
  }

  lemma Paths(t: Tree, i: nat, k: nat)
    requires Canonical(t) && i <= k < |All(t)|
    ensures i < k ==> V.Compare(All(t)[i].path, All(t)[k].path) == -1 && V.Compare(All(t)[k].path, All(t)[i].path) == 1
    ensures i == k ==> V.Compare(All(t)[i].path, All(t)[k].path) == 0
  {
    hide V.Compare, V.PreOrder;
    AllSorted(t);
    V.CompareSame(All(t)[i].path, All(t)[k].path);
  }

  lemma LeafVisit(t: Tree, i: nat)
    requires Canonical(t) && i < |All(t)|
    ensures HasTerm(All(t)[i].path) <==> All(t)[i].tree.Leaf?
    ensures All(t)[i].tree.Leaf? ==> Holds(t, All(t)[i])
    ensures All(t)[i].tree.Leaf? || All(t)[i].tree.Empty? || Branch(All(t)[i].tree)
    ensures All(t)[i].tree.Empty? ==> All(t)[i].path == []
  {
    V.VisitEnds(t, [], All(t)[i]);
    V.VisitPart(t, [], All(t)[i]);
    if All(t)[i].tree.Leaf? { EntryAt(All(t)[i].path, All(t)[i].tree.value, t, i + 1); }
  }

  lemma IndexFrom(t: Tree, i: nat, v: V.Visit) returns (k: nat)
    requires i <= |All(t)| && v in All(t)[i..]
    ensures i <= k < |All(t)| && All(t)[k] == v
  {
    var m :| 0 <= m < |All(t)[i..]| && All(t)[i..][m] == v;
    k := i + m;
  }

  /** A leaf of the second tree is in the first exactly if the first holds its value. */
  lemma LeafHeld(t: Tree, v: V.Visit)
    requires Canonical(t) && v.tree.Leaf?
    ensures Has(t, v) <==> Holds(t, v)
  {
    hide V.PreOrder, Branch, Lookup;
    if Has(t, v) {
      var i :| 0 <= i < |All(t)| && All(t)[i] == v;
      LeafVisit(t, i);
    }
    if Holds(t, v) {
      V.EntryVisited(t, [], v.path);
      assert [] + v.path == v.path;
    }
  }

  /** Exactly twins compare equal, and those with a hash are the same. */
  lemma EqualVisits(order: Order, ta: Tree, i: nat, ha: Hash, tb: Tree, j: nat, hb: Hash)
    requires OrderOk(order) && Facing(ta, i, ha, tb, j, hb)
    ensures CompareVisits(order, All(ta)[i], ha, All(tb)[j], hb) == 0 <==> Twin(All(tb)[j], All(ta)[i])
    ensures Twin(All(tb)[j], All(ta)[i]) ==> ha == hb && (ha != Zero ==> All(ta)[i] == All(tb)[j])
  {
    hide All, V.Compare, Canonical, HashOf, Embedded;
    LeafVisit(ta, i);
    LeafVisit(tb, j);
    var va, vb := All(ta)[i], All(tb)[j];
    V.CompareSame(va.path, vb.path);
    if va.tree.Leaf? && vb.tree.Leaf? {
      V.CompareSame(va.tree.value, vb.tree.value);
      assert va.tree == Leaf(va.tree.value) && vb.tree == Leaf(vb.tree.value);
      NotEmbedded(va.tree);
    }
    if va.path == vb.path { EqualTrees(va, vb); }
  }

  lemma EqualTrees(va: V.Visit, vb: V.Visit)
    requires va.path == vb.path
    requires (va.tree.Leaf? || va.tree.Empty? || Branch(va.tree)) && (va.tree.Empty? ==> va.path == [])
    requires (vb.tree.Leaf? || vb.tree.Empty? || Branch(vb.tree)) && (vb.tree.Empty? ==> vb.path == [])
    ensures Twin(vb, va) ==> VisitHash(va) == VisitHash(vb) && (VisitHash(va) != Zero ==> va == vb)
    ensures Twin(vb, va) ==> (va.tree.Leaf? <==> vb.tree.Leaf?)
    ensures VisitHash(va) == VisitHash(vb) && !va.tree.Leaf? && !vb.tree.Leaf? ==> Twin(vb, va)
  {
    hide Branch, Encode;
    if VisitHash(va) != Zero && VisitHash(vb) != Zero {
      DecodedEncode(va.tree);
      DecodedEncode(vb.tree);
    }
    NoLeafBranch(va.tree);
    NoLeafBranch(vb.tree);
  }

  lemma NotEmbedded(t: Tree)
    requires t.Leaf?
    ensures !Embedded(t)
  {
  }

  lemma NoLeafBranch(t: Tree)
    ensures t.Leaf? || t.Empty? ==> !Branch(t)
  {
  }

  lemma SamePath(v: V.Visit, w: V.Visit)
    requires Twin(v, w)
    ensures v.path == w.path
  {
  }

  /** The first iterator may move on when it comes first. */
  lemma MoveA(order: Order, ta: Tree, i: nat, ha: Hash, tb: Tree, j: nat, hb: Hash)
    requires OrderOk(order) && Facing(ta, i, ha, tb, j, hb) && Behind(ta, tb, i, j)
    requires CompareAt(order, ta, i, ha, tb, j, hb) < 0
    ensures Behind(ta, tb, i + 1, j)
  {
    hide All, V.Compare, Canonical, Has, OrderOk, HashOf, Twin;
    EqualVisits(order, ta, i, ha, tb, j, hb);
    V.CompareSame(All(ta)[i].path, All(tb)[j].path);
    forall v, w | v in All(tb)[j..] && Has(ta, w) && Twin(v, w) ensures w in All(ta)[i + 1..] {
      SamePath(v, w);
      var k := IndexFrom(ta, i, w);
      var m := IndexFrom(tb, j, v);
      Paths(tb, j, m);
      V.CompareSame(v.path, All(tb)[j].path);
      assert k > i;
      assert All(ta)[i + 1..][k - (i + 1)] == w;
    }
  }

  /** What the second iterator stops at when it comes first has no twin in the first tree. */
  lemma StopB(order: Order, ta: Tree, i: nat, ha: Hash, tb: Tree, j: nat, hb: Hash)
    requires OrderOk(order) && Facing(ta, i, ha, tb, j, hb) && Behind(ta, tb, i, j)
    requires CompareAt(order, ta, i, ha, tb, j, hb) > 0
    ensures !Alike(ta, All(tb)[j])
  {
    hide All, V.Compare, Canonical, Has, OrderOk, HashOf, Twin;
    EqualVisits(order, ta, i, ha, tb, j, hb);
    var v := All(tb)[j];
    forall w ensures !(Has(ta, w) && Twin(v, w)) {
      if Has(ta, w) && Twin(v, w) {
        assert All(tb)[j..][0] == v;
        SamePath(v, w);
        var k := IndexFrom(ta, i, w);
        Paths(ta, i, k);
        assert false;
      }
    }
  }

  /** Past the end of the first tree nothing is left that both have. */
  lemma NothingLeft(ta: Tree, tb: Tree, j: nat)
    requires Behind(ta, tb, |All(ta)|, j) && j < |All(tb)|
    ensures !Alike(ta, All(tb)[j])
  {
    hide All, Has, Twin;
    assert All(tb)[j..][0] == All(tb)[j];
    assert All(ta)[|All(ta)|..] == [];
  }

  lemma BehindLater(ta: Tree, tb: Tree, i: nat, j: nat, j': nat)
    requires Behind(ta, tb, i, j) && j <= j' <= |All(tb)|
    ensures Behind(ta, tb, i, j')
  {
    hide All, Has, Twin;
    forall v, w | v in All(tb)[j'..] && Has(ta, w) && Twin(v, w) ensures w in All(ta)[i..] {
      var m := IndexFrom(tb, j', v);
      assert All(tb)[j..][m - j] == v;
    }
  }

  /** Both may move on when they compare equal; what is passed this way has a twin. */
  lemma MoveBoth(order: Order, ta: Tree, i: nat, ha: Hash, tb: Tree, j: nat, hb: Hash)
    requires OrderOk(order) && Facing(ta, i, ha, tb, j, hb) && Behind(ta, tb, i, j)
    requires CompareAt(order, ta, i, ha, tb, j, hb) == 0
    ensures Behind(ta, tb, i + 1, j + 1) && Alike(ta, All(tb)[j])
  {
    hide All, V.Compare, Canonical, Has, OrderOk, HashOf, Twin;
    EqualVisits(order, ta, i, ha, tb, j, hb);
    SamePath(All(tb)[j], All(ta)[i]);
    HasVisit(ta, i);
    BehindLater(ta, tb, i, j, j + 1);
    forall v, w | v in All(tb)[j + 1..] && Has(ta, w) && Twin(v, w) ensures w in All(ta)[i + 1..] {
      SamePath(v, w);
      var k := IndexFrom(ta, i, w);
      var m := IndexFrom(tb, j + 1, v);
      Paths(tb, j, m);
      V.CompareSame(All(ta)[i].path, All(tb)[j].path);
      assert k > i;
      assert All(ta)[i + 1..][k - (i + 1)] == w;
    }
  }

  lemma HasVisit(t: Tree, i: nat)
    requires i < |All(t)|
    ensures Has(t, All(t)[i])
  {
  }

  /** All nodes of the second tree between two positions have twins in the first. */
  ghost predicate Shared(ta: Tree, tb: Tree, from: nat, to: nat) {
    to <= |All(tb)| && forall k | from <= k < to :: Alike(ta, All(tb)[k])
  }

  /** Up to position j the second tree has been passed, since from with shared leaves only, and i is not ahead. */
  ghost predicate Passed(ta: Tree, tb: Tree, i: nat, j: nat, from: nat) {
    from <= j && Behind(ta, tb, i, j) && Shared(ta, tb, from, j)
  }

  lemma PassedStart(ta: Tree, tb: Tree, i: nat, from: nat)
    requires Behind(ta, tb, i, from)
    ensures Passed(ta, tb, i, from, from) && i <= |All(ta)| && from <= |All(tb)|
  {
  }

  /** Nodes with equal hashes under the same path have the same subtree, and both may be skipped. */
  lemma SkipBoth(order: Order, ta: Tree, i: nat, ha: Hash, tb: Tree, j: nat, hb: Hash)
    requires OrderOk(order) && Facing(ta, i, ha, tb, j, hb) && Behind(ta, tb, i, j) && ha != Zero
    requires CompareAt(order, ta, i, ha, tb, j, hb) == 0
    requires V.PreOrder(All(ta)[i].tree, All(ta)[i].path) <= All(ta)[i..]
    requires V.PreOrder(All(tb)[j].tree, All(tb)[j].path) <= All(tb)[j..]
    ensures var n := |V.PreOrder(All(tb)[j].tree, All(tb)[j].path)|;
            && n == |V.PreOrder(All(ta)[i].tree, All(ta)[i].path)|
            && Behind(ta, tb, i + n, j + n) && Shared(ta, tb, j, j + n)
  {
    hide All, V.Compare, Canonical, Has, OrderOk, V.PreOrder, HashOf, Twin;
    var va, vb := All(ta)[i], All(tb)[j];
    EqualVisits(order, ta, i, ha, tb, j, hb);
    SkipSame(ta, i, tb, j, V.PreOrder(vb.tree, vb.path));
  }

  lemma SkipSame(ta: Tree, i: nat, tb: Tree, j: nat, sub: seq<V.Visit>)
    requires Canonical(ta) && Canonical(tb) && i <= |All(ta)| && j <= |All(tb)| && Behind(ta, tb, i, j)
    requires sub <= All(ta)[i..] && sub <= All(tb)[j..]
    ensures Behind(ta, tb, i + |sub|, j + |sub|) && Shared(ta, tb, j, j + |sub|)
  {
    hide All, V.Compare, Canonical, Has, Alike;
    var n := |sub|;
    forall k | j <= k < j + n ensures All(tb)[k] == All(ta)[i + (k - j)] {
      assert sub[k - j] == All(ta)[i..][k - j] == All(tb)[j..][k - j];
    }
    SkipBehind(ta, i, tb, j, n);
    forall k | j <= k < j + n ensures Alike(ta, All(tb)[k]) {
      assert All(ta)[i + (k - j)] == All(tb)[k];
      HasAlike(ta, i + (k - j));
    }
  }

  lemma HasAlike(t: Tree, i: nat)
    requires i < |All(t)|
    ensures Alike(t, All(t)[i])
  {
    HasVisit(t, i);
    assert Twin(All(t)[i], All(t)[i]);
  }

  lemma SkipBehind(ta: Tree, i: nat, tb: Tree, j: nat, n: nat)
    requires Canonical(tb) && i + n <= |All(ta)| && j + n <= |All(tb)| && Behind(ta, tb, i, j)
    requires forall k | j <= k < j + n :: All(tb)[k] == All(ta)[i + (k - j)]
    ensures Behind(ta, tb, i + n, j + n)
  {
    hide All, V.Compare, Canonical, Has, Twin;
    BehindLater(ta, tb, i, j, j + n);
    forall v, w | v in All(tb)[j + n..] && Has(ta, w) && Twin(v, w) ensures w in All(ta)[i + n..] {
      SamePath(v, w);
      var k := IndexFrom(ta, i, w);
      var m := IndexFrom(tb, j + n, v);
      if k < i + n {
        var x := j + (k - i);
        assert All(tb)[x] == All(ta)[k];
        Paths(tb, x, m);
      }
      assert k >= i + n;
      assert All(ta)[i + n..][k - (i + n)] == w;
    }
  }

  // ---------- moving one iterator ----------

  /** An iterator in the course of a complete iteration. */
  ghost predicate Running(it: NodeIterator)
    reads it, it.trie, it.trie.db
  {
    it.Valid() && it.err in {Fine, End} && (it.err == Fine ==> it.Complete())
  }

  /** Standing on a node whose children are all to come. */
  ghost predicate Standing(it: NodeIterator)
    reads it
  {
    it.Here() && Top(it.stack).index == -1
  }

  /** The number of visits in the subtree of the current node. */
  ghost function Extent(it: NodeIterator): nat
    reads it
    requires it.stack != []
  {
    |V.PreOrder(Denotes(Top(it.stack).node), it.path)|
  }

  lemma Subtree(it: NodeIterator)
    requires it.Valid() && Standing(it)
    ensures V.PreOrder(Denotes(Top(it.stack).node), it.path) <= All(it.tree)[it.pos - 1..]
    ensures it.pos - 1 + Extent(it) <= |All(it.tree)| && it.Ahead(false) == All(it.tree)[it.pos - 1 + Extent(it)..]
  {
    hide StackOk, All, Denotes, Rest, After;
    var u := Denotes(Top(it.stack).node);
    RestTop(it.stack, it.path, it.tree, it.pos);
    var at := StepSkips(it.stack, it.path, it.tree, it.pos, false);
    AfterAll(u, it.path);
    assert All(it.tree)[it.pos - 1..] == [All(it.tree)[it.pos - 1]] + All(it.tree)[it.pos..];
  }

  method Advance(it: NodeIterator, ghost other: NodeIterator, descend: bool) returns (ok: bool)
    requires it != other && Running(it) && Running(other) && (!descend ==> Standing(it))
    modifies it, it.trie`root
    ensures Running(it) && Running(other) && it.pos <= |All(it.tree)|
    ensures ok ==> it.err == Fine && Standing(it)
    ensures !ok ==> it.err == End && it.pos == |All(it.tree)|
    ensures var at := old(it.pos) + if descend then 0 else old(Extent(it)) - 1;
            it.pos == if ok then at + 1 else at
  {
    hide Trie.Valid, Trie.Complete, Denotes, All, AtSeek, Unpack, Positioned, V.PreOrder, Seeking, Known;
    hide AllLoadable, Rest;
    Bounded(it);
    TrieOf(it);
    if !descend { Subtree(it); }
    if it.err == Fine { AheadIs(it); }
    ok := it.Next(descend);
    assert Running(other);
    Bounded(it);
    if it.err == Fine { AheadIs(it); }
  }

  lemma AheadIs(it: NodeIterator)
    requires it.Valid() && it.err == Fine
    ensures it.pos <= |All(it.tree)| && it.Ahead(true) == All(it.tree)[it.pos..]
  {
  }

  // ---------- the iterator ----------

  ghost function HashAt(it: NodeIterator): Hash
    reads it
  {
    if it.stack == [] then Zero else Top(it.stack).hash
  }

  method CompareNodes(a: NodeIterator, b: NodeIterator, order: Order) returns (cmp: int)
    requires a.Valid() && b.Valid() && a.Here() && b.Here()
    ensures cmp == CompareAt(order, a.tree, a.pos - 1, HashAt(a), b.tree, b.pos - 1, HashAt(b))
  {
    hide V.Compare, All, HashOf, NodeIterator.Valid, NodeIterator.Here, HasTerm;
    LeafNodes(a);
    LeafNodes(b);
    cmp := V.Compare(a.path, b.path);
    if cmp != 0 { return; }
    var aLeaf := a.Leaf();
    var bLeaf := b.Leaf();
    if aLeaf && !bLeaf { return -1; }
    if bLeaf && !aLeaf { return 1; }
    var ha := a.Hash();
    var hb := b.Hash();
    cmp := order(ha, hb);
    if cmp != 0 { return; }
    if aLeaf && bLeaf {
      cmp := V.Compare(Top(a.stack).node.bytes, Top(b.stack).node.bytes);
    }
  }

  lemma LeafNodes(it: NodeIterator)
    requires it.Valid() && it.Here()
    ensures it.stack != [] && 0 < it.pos <= |All(it.tree)|
    ensures var v := All(it.tree)[it.pos - 1];
            && v.path == it.path && (HasTerm(it.path) <==> v.tree.Leaf?) && (HasTerm(it.path) <==> Top(it.stack).node.Value?)
            && (HasTerm(it.path) ==> v.tree == Leaf(Top(it.stack).node.bytes))
  {
    hide All, StackOk;
    LeafHere(Top(it.stack).node, it.path, it.tree, it.pos);
  }

  /** Two standing iterators, and where they are. */
  lemma Meet(a: NodeIterator, b: NodeIterator)
    requires a.Valid() && b.Valid() && Standing(a) && Standing(b)
    ensures a.pos > 0 && b.pos > 0 && Facing(a.tree, a.pos - 1, HashAt(a), b.tree, b.pos - 1, HashAt(b))
    ensures a.stack != [] && All(a.tree)[a.pos - 1] == V.Visit(a.path, Denotes(Top(a.stack).node))
    ensures b.stack != [] && All(b.tree)[b.pos - 1] == V.Visit(b.path, Denotes(Top(b.stack).node))
  {
    hide All, HashOf, NodeIterator.Valid, Standing;
    Placed(a);
    Placed(b);
  }

  /** A standing iterator is at a visit of its tree, and knows its hash. */
  lemma Placed(it: NodeIterator)
    requires it.Valid() && Standing(it)
    ensures Canonical(it.tree) && 0 < it.pos <= |All(it.tree)| && it.stack != []
    ensures All(it.tree)[it.pos - 1] == V.Visit(it.path, Denotes(Top(it.stack).node))
    ensures HashAt(it) == VisitHash(All(it.tree)[it.pos - 1])
  {
    hide All, StackOk, HashOf, Rest;
    TopOk(it.stack, it.path);
    StackReaches(it.stack, it.path, it.tree);
  }

  class Difference {
    const a: NodeIterator
    const b: NodeIterator
    const order: Order
    /** The first iterator has come to its end. */
    var eof: bool
    var count: nat

    /** Where the first iterator is. */
    ghost function Place(): nat
      reads this, a
    {
      if eof || a.pos == 0 then |All(a.tree)| else a.pos - 1
    }

    ghost predicate Valid()
      reads this, a, b, a.trie, b.trie, a.trie.db, b.trie.db
    {
      && a != b && OrderOk(order) && Running(a) && Running(b) && (!eof ==> Standing(a))
      && Behind(a.tree, b.tree, Place(), b.pos)
    }

    constructor Of(a: NodeIterator, b: NodeIterator, order: Order)
      ensures this.a == a && this.b == b && this.order == order && !eof && count == 0
    {
      this.a, this.b, this.order, eof, count := a, b, order, false, 0;
    }

    /** The difference of two iterations from the start. */
    static method New(a: NodeIterator, b: NodeIterator, order: Order) returns (it: Difference)
      requires a != b && OrderOk(order) && Running(a) && Running(b) && a.pos == 0 && b.pos == 0 && a.err == Fine
      modifies a, a.trie`root
      ensures fresh(it) && it.Valid() && it.a == a && it.b == b && b.pos == 0
    {
      hide Running, All, Standing, OrderOk, Extent, Behind;
      SomeVisit(a.tree);
      assert Behind(a.tree, b.tree, 0, 0) by { RunningTree(a); RunningTree(b); BehindStart(a.tree, b.tree); }
      var ok := Advance(a, b, true);
      it := new Difference.Of(a, b, order);
    }

    /** Both iterators stand on nodes, and what the second has passed since a position is shared. */
    ghost predicate Paired(from: nat)
      reads this, a, b, a.trie, b.trie, a.trie.db, b.trie.db
    {
      && a != b && OrderOk(order) && Running(a) && Running(b) && Standing(a) && Standing(b) && !eof
      && 0 < a.pos && 0 < b.pos && Passed(a.tree, b.tree, a.pos - 1, b.pos - 1, from)
    }

    /**
     Every node passed over since a position, or left at the end, has a twin in the first trie;
     the node that the second iterator stops at has none, and so is not in the first trie.
     */
    ghost predicate Stopped(from: nat, ok: bool)
      reads this, a, b, a.trie, b.trie, a.trie.db, b.trie.db
    {
      && Valid() && from <= b.pos <= |All(b.tree)|
      && (ok ==> Standing(b) && from < b.pos && Shared(a.tree, b.tree, from, b.pos - 1))
      && (ok ==> All(b.tree)[b.pos - 1] !in All(a.tree) && !Alike(a.tree, All(b.tree)[b.pos - 1]))
      && (!ok ==> b.err == End && Shared(a.tree, b.tree, from, |All(b.tree)|))
    }

    /** Moves to the next node of the second trie that the first one does not have. */
    method Next() returns (ok: bool)
      requires Valid()
      modifies `eof, `count, a, b, a.trie`root, b.trie`root
      ensures Stopped(old(b.pos), ok)
    {
      hide Running, All, Behind, Passed, Standing, OrderOk, Extent, Stopped, Paired;
      ghost var from, place := b.pos, Place();
      PassedStart(a.tree, b.tree, place, from);
      ok := Advance(b, a, true);
      if !ok {
        EndStops(this, from, place, from);
        return;
      }
      count := count + 1;
      if eof {
        // Nothing is left of the first trie.
        EofStops(this, from);
        return;
      }
      StandsPos(a);
      Pair(this, from);
      ok := Search(from);
    }

    /** Moves both iterators until the second one is at a node that the first does not have. */
    method Search(ghost from: nat) returns (ok: bool)
      requires Paired(from)
      modifies `eof, `count, a, b, a.trie`root, b.trie`root
      ensures Stopped(from, ok)
    {
      hide Paired, Stopped, CompareAt, All, NodeIterator.Valid, NodeIterator.Here;
      while true
        invariant Paired(from)
        decreases |All(a.tree)| - a.pos, |All(b.tree)| - b.pos
      {
        PairedStands(this, from);
        var cmp := CompareNodes(a, b, order);
        if cmp < 0 {
          ok := MoveFirst(from);
          if !ok { return true; }
        } else if cmp > 0 {
          StopHere(this, from);
          return true;
        } else {
          var done;
          done, ok := MovePair(from);
          if done { return; }
        }
        PairedStands(this, from);
      }
    }

    /** The second iterator has jumped past the first: the first moves on. */
    method MoveFirst(ghost from: nat) returns (ok: bool)
      requires Paired(from) && CompareAt(order, a.tree, a.pos - 1, HashAt(a), b.tree, b.pos - 1, HashAt(b)) < 0
      modifies `eof, `count, a, a.trie`root
      ensures ok ==> Paired(from) && a.pos == old(a.pos) + 1
      ensures !ok ==> Stopped(from, true)
    {
      hide Running, All, Passed, Standing, OrderOk, CompareAt, Extent, Stopped;
      PassFirst(this, from);
      Stands(b);
      ok := Advance(a, b, true);
      if !ok {
        eof := true;
        EofStops(this, from);
        return;
      }
      count := count + 1;
    }

    /** Both are at the same node: both move on, past all that is below when it is known to be the same. */
    method MovePair(ghost from: nat) returns (done: bool, ok: bool)
      requires Paired(from) && CompareAt(order, a.tree, a.pos - 1, HashAt(a), b.tree, b.pos - 1, HashAt(b)) == 0
      modifies `eof, `count, a, b, a.trie`root, b.trie`root
      ensures !done ==> Paired(from) && a.pos > old(a.pos)
      ensures done ==> Stopped(from, ok)
    {
      hide Running, All, Passed, Standing, OrderOk, CompareAt, Extent, Stopped, NodeIterator.Valid, NodeIterator.Here;
      ghost var i, j := a.pos - 1, b.pos - 1;
      var descend := HashZero(a);
      ghost var n := Pass(this, from);
      assert i + n <= |All(a.tree)| && j + n <= |All(b.tree)| && n > 0;
      ghost var skip := Extent(a);
      ok := Advance(b, a, descend);
      if !ok {
        EndStops(this, from, i + n, j + n);
        return true, false;
      }
      assert Extent(a) == skip;
      ok := Advance(a, b, descend);
      if !ok {
        eof, count := true, count + 1;
        EofStops(this, from);
        return true, true;
      }
      count := count + 2;
      done := false;
    }
  }

  method HashZero(it: NodeIterator) returns (zero: bool)
    ensures zero <==> HashAt(it) == Zero
  {
    var h := it.Hash();
    zero := h == Zero;
  }

  lemma Pair(d: Difference, from: nat)
    requires d.a != d.b && OrderOk(d.order) && Running(d.a) && Running(d.b) && Standing(d.a) && Standing(d.b) && !d.eof
    requires 0 < d.a.pos && 0 < d.b.pos && Passed(d.a.tree, d.b.tree, d.a.pos - 1, d.b.pos - 1, from)
    ensures d.Paired(from)
  {
  }

  lemma StandsPos(it: NodeIterator)
    requires Standing(it)
    ensures it.pos > 0 && it.stack != []
  {
  }

  lemma PairedStands(d: Difference, from: nat)
    requires d.Paired(from)
    ensures d.a.Valid() && d.b.Valid() && d.a.Here() && d.b.Here()
    ensures d.a.pos <= |All(d.a.tree)| && d.b.pos <= |All(d.b.tree)|
  {
    hide All, Passed;
    Stands(d.a);
    Stands(d.b);
  }

  /** Two iterators that are paired face each other. */
  lemma PairedFaces(d: Difference, from: nat)
    requires d.Paired(from)
    ensures 0 < d.a.pos <= |All(d.a.tree)| && 0 < d.b.pos <= |All(d.b.tree)| && OrderOk(d.order)
    ensures Facing(d.a.tree, d.a.pos - 1, HashAt(d.a), d.b.tree, d.b.pos - 1, HashAt(d.b))
    ensures Passed(d.a.tree, d.b.tree, d.a.pos - 1, d.b.pos - 1, from)
  {
    hide Running, All, Passed, Standing, OrderOk, Facing, NodeIterator.Here, NodeIterator.Valid, HashAt, Denotes;
    Stands(d.a);
    Stands(d.b);
    Meet(d.a, d.b);
  }

  /** The first may move on, and nothing that both have is passed. */
  lemma PassFirst(d: Difference, from: nat)
    requires d.Paired(from) && CompareAt(d.order, d.a.tree, d.a.pos - 1, HashAt(d.a), d.b.tree, d.b.pos - 1, HashAt(d.b)) < 0
    ensures Passed(d.a.tree, d.b.tree, d.a.pos, d.b.pos - 1, from)
  {
    hide All, Behind, Shared, OrderOk, Facing, CompareAt, Difference.Paired;
    PairedFaces(d, from);
    MoveA(d.order, d.a.tree, d.a.pos - 1, HashAt(d.a), d.b.tree, d.b.pos - 1, HashAt(d.b));
  }

  lemma EofStops(d: Difference, from: nat)
    requires d.eof && d.a != d.b && OrderOk(d.order) && Running(d.a) && Running(d.b) && Standing(d.b)
    requires 0 < d.b.pos <= |All(d.b.tree)| && Passed(d.a.tree, d.b.tree, |All(d.a.tree)|, d.b.pos - 1, from)
    ensures d.Stopped(from, true)
  {
    hide Running, All, Behind, Shared, Standing, OrderOk, Alike;
    RunOut(d.a.tree, d.b.tree, d.b.pos - 1);
    NotAlike(d.a.tree, All(d.b.tree)[d.b.pos - 1]);
  }

  lemma EndStops(d: Difference, from: nat, i: nat, j: nat)
    requires d.a != d.b && OrderOk(d.order) && Running(d.a) && Running(d.b) && (!d.eof ==> Standing(d.a))
    requires d.b.err == End && d.b.pos == |All(d.b.tree)| == j && Passed(d.a.tree, d.b.tree, i, j, from)
    ensures d.Stopped(from, false)
  {
    hide Running, All, Shared, Standing, OrderOk;
    assert All(d.b.tree)[j..] == [];
    if !d.eof { Stands(d.a); }
    assert Behind(d.a.tree, d.b.tree, d.Place(), j);
  }

  lemma StopHere(d: Difference, from: nat)
    requires d.Paired(from) && CompareAt(d.order, d.a.tree, d.a.pos - 1, HashAt(d.a), d.b.tree, d.b.pos - 1, HashAt(d.b)) > 0
    ensures d.Stopped(from, true)
  {
    hide Running, All, Behind, Shared, Standing, OrderOk, Facing, CompareAt, Alike;
    PairedFaces(d, from);
    var i, j := d.a.pos - 1, d.b.pos - 1;
    StopB(d.order, d.a.tree, i, HashAt(d.a), d.b.tree, j, HashAt(d.b));
    NotAlike(d.a.tree, All(d.b.tree)[j]);
    BehindLater(d.a.tree, d.b.tree, i, j, j + 1);
  }

  /** How far two iterators that compare equal may move, with everything shared in between. */
  lemma Pass(d: Difference, from: nat) returns (n: nat)
    requires d.Paired(from) && CompareAt(d.order, d.a.tree, d.a.pos - 1, HashAt(d.a), d.b.tree, d.b.pos - 1, HashAt(d.b)) == 0
    ensures n > 0 && d.a.stack != [] && d.b.stack != []
    ensures if HashAt(d.a) == Zero then n == 1 else n == Extent(d.a) && n == Extent(d.b)
    ensures d.a.pos - 1 + n <= |All(d.a.tree)| && d.b.pos - 1 + n <= |All(d.b.tree)|
    ensures Passed(d.a.tree, d.b.tree, d.a.pos - 1 + n, d.b.pos - 1 + n, from)
  {
    hide All, V.PreOrder, Alike, OrderOk, Facing, CompareAt, NodeIterator.Valid, Running, Behind, Standing, Denotes, HashAt;
    var a, b := d.a, d.b;
    Stands(a);
    Stands(b);
    Meet(a, b);
    var i, j, ha, hb := a.pos - 1, b.pos - 1, HashAt(a), HashAt(b);
    if ha == Zero {
      n := 1;
      MoveBoth(d.order, a.tree, i, ha, b.tree, j, hb);
      BehindBounds(a.tree, b.tree, i + 1, j + 1);
    } else {
      Subtree(a);
      Subtree(b);
      SkipBoth(d.order, a.tree, i, ha, b.tree, j, hb);
      n := Extent(b);
      AfterAll(Denotes(Top(b.stack).node), b.path);
    }
  }

  lemma Stands(it: NodeIterator)
    requires Running(it) && Standing(it)
    ensures it.Valid() && it.Here() && it.err == Fine && it.stack != [] && 0 < it.pos <= |All(it.tree)|
  {
  }

  lemma NotAlike(t: Tree, v: V.Visit)
    requires !Alike(t, v)
    ensures v !in All(t)
  {
    hide V.PreOrder;
    assert Twin(v, v);
    assert Has(t, v) <==> v in All(t);
  }

  lemma RunOut(ta: Tree, tb: Tree, j: nat)
    requires Behind(ta, tb, |All(ta)|, j) && j < |All(tb)|
    ensures !Alike(ta, All(tb)[j]) && Behind(ta, tb, |All(ta)|, j + 1)
  {
    hide All, Alike;
    NothingLeft(ta, tb, j);
    BehindLater(ta, tb, |All(ta)|, j, j + 1);
  }

  lemma BehindBounds(ta: Tree, tb: Tree, i: nat, j: nat)
    requires Behind(ta, tb, i, j)
    ensures i <= |All(ta)| && j <= |All(tb)|
  {
  }

  lemma SomeVisit(t: Tree)
    ensures All(t) != []
  {
  }

  lemma RunningTree(it: NodeIterator)
    requires Running(it)
    ensures Canonical(it.tree)
  {
    IteratorTree(it);
  }

  lemma BehindStart(ta: Tree, tb: Tree)
    requires Canonical(ta) && Canonical(tb)
    ensures Behind(ta, tb, 0, 0)
  {
    hide V.PreOrder;
    assert All(ta)[0..] == All(ta);
  }

  // ---------- a whole run ----------

  /** The entry of a leaf that one tree has and the other has not, or has differently. */
  ghost predicate Changed(ta: Tree, v: V.Visit, key: Bytes, value: Bytes) {
    v == V.Visit(KeyHex(key), Leaf(value)) && !Holds(ta, v)
  }

  /** The entry is that of a changed leaf before a position. */
  ghost predicate ChangedBefore(ta: Tree, tb: Tree, to: nat, e: (Bytes, Bytes)) {
    exists k :: 0 <= k < to && k < |All(tb)| && Changed(ta, All(tb)[k], e.0, e.1)
  }

  /** The changed entries among the visits before a position, in order. */
  ghost predicate Gathered(entries: seq<(Bytes, Bytes)>, ta: Tree, tb: Tree, to: nat) {
    && to <= |All(tb)|
    && (forall i, j | 0 <= i < j < |entries| :: V.Compare(KeyHex(entries[i].0), KeyHex(entries[j].0)) < 0)
    && (forall e | e in entries :: ChangedBefore(ta, tb, to, e))
    && (forall e | ChangedBefore(ta, tb, to, e) :: e in entries)
  }

  /** A leaf that is alike is the same. */
  lemma AlikeLeaf(t: Tree, v: V.Visit)
    requires Canonical(t) && Alike(t, v) && v.tree.Leaf?
    ensures Holds(t, v)
  {
    hide V.PreOrder;
    LeafHeld(t, v);
  }

  lemma GatheredShared(entries: seq<(Bytes, Bytes)>, ta: Tree, tb: Tree, from: nat, to: nat)
    requires Canonical(ta) && Gathered(entries, ta, tb, from) && from <= to && Shared(ta, tb, from, to)
    ensures Gathered(entries, ta, tb, to)
  {
    hide All, V.Compare, KeyHex, Lookup, Holds, Alike;
    forall e ensures ChangedBefore(ta, tb, to, e) <==> ChangedBefore(ta, tb, from, e) {
      if ChangedBefore(ta, tb, to, e) {
        var k :| 0 <= k < to && k < |All(tb)| && Changed(ta, All(tb)[k], e.0, e.1);
        if k >= from { AlikeLeaf(ta, All(tb)[k]); }
        assert k < from;
      }
    }
  }

  lemma GatheredNext(entries: seq<(Bytes, Bytes)>, ta: Tree, tb: Tree, at: nat, key: Bytes, value: Bytes)
    requires Canonical(tb) && Gathered(entries, ta, tb, at) && at < |All(tb)| && Changed(ta, All(tb)[at], key, value)
    ensures Gathered(entries + [(key, value)], ta, tb, at + 1)
  {
    hide All, V.Compare, KeyHex, Holds;
    var more := entries + [(key, value)];
    forall i | 0 <= i < |entries| ensures V.Compare(KeyHex(entries[i].0), KeyHex(key)) < 0 {
      assert ChangedBefore(ta, tb, at, entries[i]);
      var k :| 0 <= k < at && k < |All(tb)| && Changed(ta, All(tb)[k], entries[i].0, entries[i].1);
      Paths(tb, k, at);
    }
    forall e ensures ChangedBefore(ta, tb, at + 1, e) <==> ChangedBefore(ta, tb, at, e) || e == (key, value) {
      if ChangedBefore(ta, tb, at + 1, e) {
        var k :| 0 <= k < at + 1 && k < |All(tb)| && Changed(ta, All(tb)[k], e.0, e.1);
        if k == at { KeyHexInjective(key, e.0); }
      }
    }
  }

  /** A node that is not a leaf adds nothing. */
  lemma GatheredNode(entries: seq<(Bytes, Bytes)>, ta: Tree, tb: Tree, at: nat)
    requires Gathered(entries, ta, tb, at) && at < |All(tb)| && !All(tb)[at].tree.Leaf?
    ensures Gathered(entries, ta, tb, at + 1)
  {
    hide All, V.Compare, KeyHex, Holds;
    forall e ensures ChangedBefore(ta, tb, at + 1, e) <==> ChangedBefore(ta, tb, at, e) {
      if ChangedBefore(ta, tb, at + 1, e) {
        var k :| 0 <= k < at + 1 && k < |All(tb)| && Changed(ta, All(tb)[k], e.0, e.1);
        assert k < at;
      }
    }
  }

  /** Which entries the difference has: those of the second trie that the first does not have the same. */
  ghost predicate Differs(entries: seq<(Bytes, Bytes)>, ta: Tree, tb: Tree) {
    && (forall i, j | 0 <= i < j < |entries| :: V.Precedes(entries[i].0, entries[j].0))
    && (forall k: Bytes, v: Bytes :: (k, v) in entries <==> Lookup(tb, KeyHex(k)) == Some(v) && Lookup(ta, KeyHex(k)) != Some(v))
  }

  lemma GatheredAll(entries: seq<(Bytes, Bytes)>, ta: Tree, tb: Tree)
    requires Canonical(tb) && Gathered(entries, ta, tb, |All(tb)|)
    ensures Differs(entries, ta, tb)
  {
    hide V.PreOrder, V.Compare, KeyHex, Lookup, V.Precedes;
    forall i, j | 0 <= i < j < |entries| ensures V.Precedes(entries[i].0, entries[j].0) {
      V.KeyOrder(entries[i].0, entries[j].0);
    }
    forall k: Bytes, v: Bytes | (k, v) in entries ensures Lookup(tb, KeyHex(k)) == Some(v) && Lookup(ta, KeyHex(k)) != Some(v) {
      assert ChangedBefore(ta, tb, |All(tb)|, (k, v));
      var at :| 0 <= at < |All(tb)| && Changed(ta, All(tb)[at], k, v);
      EntryAt(KeyHex(k), v, tb, at + 1);
    }
    forall k: Bytes, v: Bytes | Lookup(tb, KeyHex(k)) == Some(v) && Lookup(ta, KeyHex(k)) != Some(v) ensures (k, v) in entries {
      V.EntryVisited(tb, [], KeyHex(k));
      assert [] + KeyHex(k) == KeyHex(k);
      var at :| 0 <= at < |All(tb)| && All(tb)[at] == V.Visit(KeyHex(k), Leaf(v));
      assert Changed(ta, All(tb)[at], k, v);
      assert ChangedBefore(ta, tb, |All(tb)|, (k, v));
    }
  }

  /**
   Driven to its end, the difference iterator stops at exactly the leaves of the second trie
   that the first does not hold with the same value, each once and in path order, although it
   never looks below nodes with equal hashes.
   */
  method Changes(a: Trie, b: Trie, order: Order) returns (entries: seq<(Bytes, Bytes)>)
    requires a.Valid() && a.Complete() && b.Valid() && b.Complete() && WholeKeys(Denotes(b.root)) && OrderOk(order)
    modifies a`root, b`root
    ensures Differs(entries, old(Denotes(a.root)), old(Denotes(b.root)))
  {
    hide Trie.Valid, Trie.Complete, Denotes, Running, Differs, OrderOk, WholeKeys, Difference.Valid;
    var ia, ib := StartTwo(a, b);
    var it := Difference.New(ia, ib, order);
    entries := Drain(it);
  }

  /** Two iterators from the start, on tries that may be one and the same. */
  method StartTwo(a: Trie, b: Trie) returns (ia: NodeIterator, ib: NodeIterator)
    requires a.Valid() && a.Complete() && b.Valid() && b.Complete()
    modifies a`root, b`root
    ensures fresh(ia) && fresh(ib) && ia != ib && ia.trie == a && ib.trie == b
    ensures ia.tree == old(Denotes(a.root)) && ib.tree == old(Denotes(b.root))
    ensures Running(ia) && Running(ib) && ia.pos == 0 && ib.pos == 0 && ia.err == Fine
  {
    hide Trie.Valid, Trie.Complete, Denotes, AtSeek, Unpack, Positioned, Known, AllLoadable, All, Seeking;
    ia := NodeIterator.New(a, []);
    FreshStart(ia);
    ib := NodeIterator.New(b, []);
    FreshStart(ib);
    assert Running(ia);
  }

  /** Runs a difference iterator from its beginning to its end. */
  method Drain(it: Difference) returns (entries: seq<(Bytes, Bytes)>)
    requires it.Valid() && it.b.pos == 0 && WholeKeys(it.b.tree)
    modifies it, it.a, it.b, it.a.trie`root, it.b.trie`root
    ensures Differs(entries, it.a.tree, it.b.tree)
  {
    hide All, Gathered, Differs, WholeKeys, Difference.Valid, Difference.Stopped, Holds;
    entries := [];
    GatheredNone(it.a.tree, it.b.tree);
    var ok := it.Next();
    GatheredMore(it, entries, 0, ok);
    while ok
      invariant it.Stopped(if ok then it.b.pos - 1 else it.b.pos, ok) && it.b.pos <= |All(it.b.tree)| && (ok ==> it.b.pos > 0)
      invariant Gathered(entries, it.a.tree, it.b.tree, if ok then it.b.pos - 1 else |All(it.b.tree)|)
      decreases |All(it.b.tree)| - it.b.pos, ok
    {
      entries := TakeLeaf(it, entries);
      ghost var from := it.b.pos;
      StoppedValid(it, from - 1, true);
      ok := it.Next();
      GatheredMore(it, entries, from, ok);
    }
    StoppedValid(it, it.b.pos, false);
    DrainedTree(it);
    GatheredAll(entries, it.a.tree, it.b.tree);
  }

  lemma StoppedValid(d: Difference, from: nat, ok: bool)
    requires d.Stopped(from, ok)
    ensures d.Valid()
  {
  }

  /** What a step passes over adds nothing, and what it stops at is kept for itself. */
  lemma GatheredMore(d: Difference, entries: seq<(Bytes, Bytes)>, from: nat, ok: bool)
    requires d.Stopped(from, ok) && Gathered(entries, d.a.tree, d.b.tree, from)
    ensures from <= d.b.pos <= |All(d.b.tree)| && (ok ==> from < d.b.pos)
    ensures Gathered(entries, d.a.tree, d.b.tree, if ok then d.b.pos - 1 else |All(d.b.tree)|)
    ensures d.Stopped(if ok then d.b.pos - 1 else d.b.pos, ok)
  {
    hide All, Gathered, Running, Standing, OrderOk, Behind, Holds;
    RunningTree(d.a);
    GatheredShared(entries, d.a.tree, d.b.tree, from, if ok then d.b.pos - 1 else |All(d.b.tree)|);
  }

  /** Adds the entry of the current node if it is a leaf. */
  method TakeLeaf(it: Difference, entries: seq<(Bytes, Bytes)>) returns (more: seq<(Bytes, Bytes)>)
    requires it.b.pos > 0 && it.Stopped(it.b.pos - 1, true) && WholeKeys(it.b.tree)
    requires Gathered(entries, it.a.tree, it.b.tree, it.b.pos - 1)
    ensures Gathered(more, it.a.tree, it.b.tree, it.b.pos)
  {
    hide All, Gathered, WholeKeys, Holds, Difference.Valid, NodeIterator.Valid, NodeIterator.Here, HasTerm, KeyHex;
    hide Lookup, Running;
    StoppedStands(it, it.b.pos - 1);
    var leaf := it.b.Leaf();
    if leaf {
      var key := it.b.LeafKey();
      var value := it.b.LeafBlob();
      GatherLeaf(it.a.tree, it.b, entries, key, value);
      more := entries + [(key, value)];
    } else {
      GatherNode(it.a.tree, it.b, entries);
      more := entries;
    }
  }

  lemma StoppedStands(d: Difference, from: nat)
    requires d.Stopped(from, true)
    ensures d.b.Valid() && d.b.Here() && 0 < d.b.pos <= |All(d.b.tree)| && !Has(d.a.tree, All(d.b.tree)[d.b.pos - 1])
    ensures Canonical(d.a.tree)
  {
    hide All, OrderOk, Running, Standing, Alike, Has, Difference.Stopped;
    StoppedRuns(d, from);
    Stands(d.b);
    RunningTree(d.a);
    HasOwn(d.a.tree, All(d.b.tree)[d.b.pos - 1]);
  }

  lemma StoppedRuns(d: Difference, from: nat)
    requires d.Stopped(from, true)
    ensures Running(d.a) && Running(d.b) && Standing(d.b)
    ensures 0 < d.b.pos <= |All(d.b.tree)| && All(d.b.tree)[d.b.pos - 1] !in All(d.a.tree)
  {
    hide All, Behind, OrderOk, Shared, Running, Standing, Alike;
  }

  lemma HasOwn(t: Tree, v: V.Visit)
    ensures Has(t, v) <==> v in All(t)
  {
    hide V.PreOrder;
  }

  lemma GatherLeaf(ta: Tree, it: NodeIterator, entries: seq<(Bytes, Bytes)>, key: Bytes, value: Bytes)
    requires it.Valid() && it.Here() && Canonical(ta) && !Has(ta, All(it.tree)[it.pos - 1]) && HasTerm(it.path)
    requires KeyHex(key) == it.path && Lookup(it.tree, it.path) == Some(value)
    requires Gathered(entries, ta, it.tree, it.pos - 1)
    ensures Gathered(entries + [(key, value)], ta, it.tree, it.pos)
  {
    hide All, Gathered, Holds, KeyHex, Entry, HasTerm, Lookup, NodeIterator.Valid, NodeIterator.Here;
    IteratorTree(it);
    EntryOf(it, key, value);
    EntryIs(it.tree, it.pos, key, value);
    LeafHeld(ta, All(it.tree)[it.pos - 1]);
    GatheredNext(entries, ta, it.tree, it.pos - 1, key, value);
  }

  lemma EntryIs(tree: Tree, pos: nat, key: Bytes, value: Bytes)
    requires Entry(tree, pos, key, value)
    ensures 0 < pos <= |All(tree)| && All(tree)[pos - 1] == V.Visit(KeyHex(key), Leaf(value))
  {
  }

  lemma GatherNode(ta: Tree, it: NodeIterator, entries: seq<(Bytes, Bytes)>)
    requires it.Valid() && it.Here() && !HasTerm(it.path) && Gathered(entries, ta, it.tree, it.pos - 1)
    ensures Gathered(entries, ta, it.tree, it.pos)
  {
    hide All, Gathered, HasTerm, NodeIterator.Valid, NodeIterator.Here;
    LeafNodes(it);
    GatheredNode(entries, ta, it.tree, it.pos - 1);
  }

  lemma GatheredNone(ta: Tree, tb: Tree)
    ensures Gathered([], ta, tb, 0)
  {
    hide All;
  }

  lemma DrainedTree(it: Difference)
    requires it.Valid()
    ensures Canonical(it.b.tree)
  {
    IteratorTree(it.b);
  }

  /** An iterator from the empty key is before everything. */
  lemma FreshStart(it: NodeIterator)
    requires it.Valid() && it.err in {Fine, End} && (it.err == Fine ==> it.Complete()) && AtSeek(it.tree, it.pos, Unpack([]))
    ensures it.pos == 0 && it.err == Fine && Running(it)
  {
    hide StackOk, Loadable, Rest;
    assert Unpack([]) == [];
    SomeVisit(it.tree);
    assert V.Compare(All(it.tree)[0].path, []) == 0;
  }
}
