/** Removing a committed trie from the cache, subtree by subtree. */
module CacheCommit {
  import opened Rlp
  import opened Nodes
  import opened Raws
  import opened Caches
  import opened CacheSteps
  import opened CacheRuns

  lemma {:induction false} UnderTrans(rank: Rank, nodes: Cache, h: Hash, y: Hash, x: Hash)
    requires Under(rank, nodes, h, y) && Under(rank, nodes, y, x)
    ensures Under(rank, nodes, h, x)
    decreases rank(h)
  {
    if y != h {
      var c :| c in Kids(nodes, h) && rank(c) < rank(h) && Under(rank, nodes, c, y);
      UnderTrans(rank, nodes, c, y, x);
    }
  }

  /** x lies under one of the given hashes. */
  ghost predicate UnderAny(rank: Rank, nodes: Cache, s: seq<Hash>, x: Hash) {
    exists j :: 0 <= j < |s| && Under(rank, nodes, s[j], x)
  }

  lemma UnderAnyMore(rank: Rank, nodes: Cache, s: seq<Hash>, k: nat, x: Hash)
    requires k < |s|
    ensures UnderAny(rank, nodes, s[..k + 1], x) <==> UnderAny(rank, nodes, s[..k], x) || Under(rank, nodes, s[k], x)
  {
    hide Under;
    if UnderAny(rank, nodes, s[..k + 1], x) {
      var j :| 0 <= j < k + 1 && Under(rank, nodes, s[..k + 1][j], x);
      if j < k { assert s[..k][j] == s[..k + 1][j]; }
    }
    if UnderAny(rank, nodes, s[..k], x) {
      var j :| 0 <= j < k && Under(rank, nodes, s[..k][j], x);
      assert s[..k + 1][j] == s[..k][j];
    }
    if Under(rank, nodes, s[k], x) { assert s[..k + 1][k] == s[k]; }
  }

  /** Below a node is what is under its children. */
  lemma UnderKids(rank: Rank, nodes: Cache, h: Hash, s: seq<Hash>, x: Hash)
    requires h in nodes && h != Zero && multiset(s) == Kids(nodes, h)
    requires forall c | c in Kids(nodes, h) :: rank(c) < rank(h)
    ensures Under(rank, nodes, h, x) <==> x == h || UnderAny(rank, nodes, s, x)
  {
    hide Kids;
    if x != h && Under(rank, nodes, h, x) {
      var c :| c in Kids(nodes, h) && rank(c) < rank(h) && Under(rank, nodes, c, x);
      assert c in multiset(s);
      var j :| 0 <= j < |s| && s[j] == c;
    }
    if UnderAny(rank, nodes, s, x) {
      var j :| 0 <= j < |s| && Under(rank, nodes, s[j], x);
      assert s[j] in multiset(s);
    }
  }

  /** Same entries, up to links. */
  ghost predicate Subcache(a: Cache, b: Cache) {
    && b.Keys <= a.Keys
    && forall x | x in b :: b[x] == a[x].(prev := b[x].prev, next := b[x].next)
  }

  /** From cache a with list oa, exactly what lies under the given hashes was removed. */
  ghost predicate Removed(rank: Rank, a: Cache, oa: seq<Hash>, b: Cache, ob: seq<Hash>, s: seq<Hash>) {
    && Subcache(a, b)
    && (forall x | x in a :: x in b <==> !UnderAny(rank, a, s, x))
    && (forall x :: x in ob <==> x in oa && !UnderAny(rank, a, s, x))
  }

  lemma SubcacheKids(a: Cache, b: Cache, x: Hash)
    requires Subcache(a, b) && x in b
    ensures Kids(b, x) == Kids(a, x)
  {
  }

  lemma RemovedPruned(rank: Rank, a: Cache, oa: seq<Hash>, b: Cache, ob: seq<Hash>, s: seq<Hash>)
    requires Removed(rank, a, oa, b, ob, s)
    ensures Pruned(rank, a, b)
  {
    hide Kids, Under;
    forall y, x | y in a && y !in b && Under(rank, a, y, x) ensures x !in b {
      assert UnderAny(rank, a, s, y);
      var j :| 0 <= j < |s| && Under(rank, a, s[j], y);
      UnderTrans(rank, a, s[j], y, x);
      UnderLower(rank, a, y, x);
      assert UnderAny(rank, a, s, x);
    }
  }

  /** Removing one more subtree of the original cache. */
  lemma RemovedMore(rank: Rank, a: Cache, oa: seq<Hash>, b: Cache, ob: seq<Hash>, c: Cache, oc: seq<Hash>, s: seq<Hash>, k: nat)
    requires k < |s| && Removed(rank, a, oa, b, ob, s[..k]) && Removed(rank, b, ob, c, oc, [s[k]])
    requires forall x | x in oa :: x in a
    ensures Removed(rank, a, oa, c, oc, s[..k + 1])
  {
    hide Kids, Under, UnderAny;
    RemovedPruned(rank, a, oa, b, ob, s[..k]);
    forall x | x in a ensures x in c <==> !UnderAny(rank, a, s[..k + 1], x) {
      UnderAnyMore(rank, a, s, k, x);
      if x in b { SameUnder(rank, a, b, s[k], x); }
    }
    forall x ensures x in oc <==> x in oa && !UnderAny(rank, a, s[..k + 1], x) {
      UnderAnyMore(rank, a, s, k, x);
      if x in oa && x in b { SameUnder(rank, a, b, s[k], x); }
    }
  }

  lemma SameUnder(rank: Rank, a: Cache, b: Cache, h: Hash, x: Hash)
    requires Subcache(a, b) && Pruned(rank, a, b) && x in b
    ensures UnderAny(rank, b, [h], x) <==> Under(rank, a, h, x)
  {
    hide Kids, Under;
    forall y | y in b ensures Kids(b, y) == Kids(a, y) { SubcacheKids(a, b, y); }
    UnderPruned(rank, a, b, h, x);
    UnderOne(rank, b, h, x);
  }

  lemma UnderOne(rank: Rank, nodes: Cache, h: Hash, x: Hash)
    ensures UnderAny(rank, nodes, [h], x) <==> Under(rank, nodes, h, x)
  {
    if Under(rank, nodes, h, x) { assert [h][0] == h; }
  }

  lemma RelinkedUnder(rank: Rank, a: Cache, b: Cache, h: Hash, x: Hash)
    requires Relinked(a, b)
    ensures Under(rank, a, h, x) <==> Under(rank, b, h, x)
  {
    hide Kids, Under;
    forall y | y in b ensures Kids(b, y) == Kids(a, y) { SubcacheKids(a, b, y); }
    if x in b {
      UnderPruned(rank, a, b, h, x);
    } else {
      if Under(rank, a, h, x) { UnderLower(rank, a, h, x); }
      if Under(rank, b, h, x) { UnderLower(rank, b, h, x); }
    }
  }

  /** A node off the list, then everything under its children, then the node itself. */
  lemma UncacheDone(rank: Rank, a: Cache, oa: seq<Hash>, h: Hash, m: Cache, om: seq<Hash>, b: Cache, ob: seq<Hash>, s: seq<Hash>)
    requires h in a && h != Zero && Relinked(a, m) && (forall x :: x in om <==> x in oa && x != h)
    requires multiset(s) == Kids(a, h) && forall c | c in Kids(a, h) :: rank(c) < rank(h)
    requires Removed(rank, m, om, b, ob, s)
    ensures h in b && Removed(rank, a, oa, b - {h}, ob, [h])
  {
    hide Kids, Under, UnderAny;
    forall x ensures UnderAny(rank, a, [h], x) <==> x == h || UnderAny(rank, m, s, x) {
      UnderOne(rank, a, h, x);
      UnderKids(rank, a, h, s, x);
      UnderAnyRelinked(rank, a, m, s, x);
    }
    NotUnderKids(rank, m, h, s);
  }

  lemma UnderAnyRelinked(rank: Rank, a: Cache, b: Cache, s: seq<Hash>, x: Hash)
    requires Relinked(a, b)
    ensures UnderAny(rank, a, s, x) <==> UnderAny(rank, b, s, x)
  {
    hide Under;
    forall h ensures Under(rank, a, h, x) <==> Under(rank, b, h, x) { RelinkedUnder(rank, a, b, h, x); }
  }

  lemma NotUnderKids(rank: Rank, nodes: Cache, h: Hash, s: seq<Hash>)
    requires forall c | c in s :: rank(c) < rank(h)
    ensures !UnderAny(rank, nodes, s, h)
  {
    hide Under;
    if UnderAny(rank, nodes, s, h) {
      var j :| 0 <= j < |s| && Under(rank, nodes, s[j], h);
      UnderLower(rank, nodes, s[j], h);
      assert false;
    }
  }

  // ---------- what a commit wrote ----------

  /**
   Between disk d0 with log w0 and disk d1 with log w1 only nodes under the given
   hashes were written, each of them when the writes went through, and all of
   those are on disk then.
   */
  ghost predicate Written(rank: Rank, nodes: Cache, d0: set<Hash>, d1: set<Hash>, w0: seq<Hash>, w1: seq<Hash>,
                          s: seq<Hash>, ok: bool) {
    && w0 <= w1
    && d1 == d0 + Elems(w1[|w0|..])
    && (forall x | x in w1[|w0|..] :: UnderAny(rank, nodes, s, x))
    && (ok ==> forall x | UnderAny(rank, nodes, s, x) :: x in w1[|w0|..])
  }

  lemma WrittenNothing(rank: Rank, nodes: Cache, d: set<Hash>, w: seq<Hash>, h: Hash)
    requires h !in nodes
    ensures Written(rank, nodes, d, d, w, w, [h], true)
  {
    assert w[|w|..] == [];
  }

  lemma WrittenStart(rank: Rank, nodes: Cache, d: set<Hash>, w: seq<Hash>)
    ensures Written(rank, nodes, d, d, w, w, [], true)
  {
    assert w[|w|..] == [];
  }

  lemma WrittenMore(rank: Rank, nodes: Cache, d0: set<Hash>, d1: set<Hash>, d2: set<Hash>,
                    w0: seq<Hash>, w1: seq<Hash>, w2: seq<Hash>, s: seq<Hash>, k: nat, ok: bool)
    requires k < |s| && Written(rank, nodes, d0, d1, w0, w1, s[..k], true) && Written(rank, nodes, d1, d2, w1, w2, [s[k]], ok)
    ensures Written(rank, nodes, d0, d2, w0, w2, s[..k + 1], ok)
  {
    hide Under, UnderAny;
    assert w2[|w0|..] == w1[|w0|..] + w2[|w1|..];
    forall x
      ensures UnderAny(rank, nodes, s[..k + 1], x) <==>
                UnderAny(rank, nodes, s[..k], x) || UnderAny(rank, nodes, [s[k]], x)
    {
      UnderAnyMore(rank, nodes, s, k, x);
      UnderOne(rank, nodes, s[k], x);
    }
  }

  lemma WrittenPrefix(rank: Rank, nodes: Cache, d0: set<Hash>, d1: set<Hash>, w0: seq<Hash>, w1: seq<Hash>, s: seq<Hash>, k: nat)
    requires k <= |s| && Written(rank, nodes, d0, d1, w0, w1, s[..k], false)
    ensures Written(rank, nodes, d0, d1, w0, w1, s, false)
  {
    hide Under;
    forall x | UnderAny(rank, nodes, s[..k], x) ensures UnderAny(rank, nodes, s, x) {
      var j :| 0 <= j < k && Under(rank, nodes, s[..k][j], x);
      assert Under(rank, nodes, s[j], x);
    }
  }

  /** Children written so far lie under the parent. */
  lemma WrittenPart(rank: Rank, nodes: Cache, d0: set<Hash>, d1: set<Hash>, w0: seq<Hash>, w1: seq<Hash>, s: seq<Hash>, h: Hash)
    requires Written(rank, nodes, d0, d1, w0, w1, s, false)
    requires h in nodes && h != Zero && multiset(s) == Kids(nodes, h) && forall c | c in Kids(nodes, h) :: rank(c) < rank(h)
    ensures Written(rank, nodes, d0, d1, w0, w1, [h], false)
  {
    hide Under, Kids, UnderAny;
    forall x | UnderAny(rank, nodes, s, x) ensures UnderAny(rank, nodes, [h], x) {
      UnderKids(rank, nodes, h, s, x);
      UnderOne(rank, nodes, h, x);
    }
  }

  /** Once its children are committed, every tracked child of a node is on disk. */
  lemma WrittenKids(rank: Rank, nodes: Cache, order: seq<Hash>, d0: set<Hash>, d1: set<Hash>,
                    w0: seq<Hash>, w1: seq<Hash>, s: seq<Hash>, h: Hash)
    requires Written(rank, nodes, d0, d1, w0, w1, s, true) && multiset(s) == Kids(nodes, h) && h in nodes
    requires forall c | c in Kids(nodes, h) :: c != Zero && (c in nodes || c in d0)
    ensures forall c | c in Kids(nodes, h) :: c in d1
    ensures forall c | c in Below(h) :: c in d1
  {
    hide Under;
    forall c | c in Kids(nodes, h) ensures c in d1 {
      assert c in multiset(s);
      var j :| 0 <= j < |s| && s[j] == c;
      if c in nodes {
        UnderSelf(rank, nodes, c);
        assert UnderAny(rank, nodes, s, c);
      }
    }
    forall c | c in Below(h) ensures c in d1 { assert c in Kids(nodes, h); }
  }

  lemma UnderSelf(rank: Rank, nodes: Cache, h: Hash)
    requires h in nodes && h != Zero
    ensures Under(rank, nodes, h, h)
  {
  }

  lemma WrittenLast(rank: Rank, nodes: Cache, d0: set<Hash>, d1: set<Hash>, w0: seq<Hash>, w1: seq<Hash>, s: seq<Hash>,
                    h: Hash, ok: bool,
                    d2: set<Hash>, w2: seq<Hash>)
    requires Written(rank, nodes, d0, d1, w0, w1, s, true)
    requires h in nodes && h != Zero && multiset(s) == Kids(nodes, h) && forall c | c in Kids(nodes, h) :: rank(c) < rank(h)
    requires if ok then d2 == d1 + {h} && w2 == w1 + [h] else d2 == d1 && w2 == w1
    ensures Written(rank, nodes, d0, d2, w0, w2, [h], ok)
  {
    hide Under, Kids, UnderAny;
    forall x ensures UnderAny(rank, nodes, [h], x) <==> x == h || UnderAny(rank, nodes, s, x) {
      UnderKids(rank, nodes, h, s, x);
      UnderOne(rank, nodes, h, x);
    }
    if ok { assert w2[|w0|..] == w1[|w0|..] + [h]; }
  }

  lemma CommitFacts(rank: Rank, nodes: Cache, order: seq<Hash>, disk: set<Hash>, h: Hash)
    requires Inv(rank, nodes, order, disk, {}, multiset{}) && h in nodes && h != Zero
    ensures h in order && Content(h, nodes[h]) && forall x :: nodes[h].children[x] <= 1
    ensures h.Of? && EncodeRaw(nodes[h].node) == h.pre
    ensures forall c | c in Kids(nodes, h) :: c != Zero && (c in nodes || c in disk) && rank(c) < rank(h)
  {
    hide Kids, Content, Count, Counted, Ordered;
    InvFacts(rank, nodes, order, disk, {}, multiset{});
    ContentIs(h, nodes[h]);
  }

  lemma ContentIs(h: Hash, e: Entry)
    requires Content(h, e)
    ensures h.Of? && EncodeRaw(e.node) == h.pre
  {
  }

  // ---------- uncaching ----------

  lemma RemovedNothing(rank: Rank, nodes: Cache, order: seq<Hash>, h: Hash)
    requires h !in nodes
    ensures Removed(rank, nodes, order, nodes, order, [h])
  {
    forall x ensures !UnderAny(rank, nodes, [h], x) { UnderOne(rank, nodes, h, x); }
  }

  lemma UncacheFacts(rank: Rank, nodes: Cache, order: seq<Hash>, disk: set<Hash>, limbo: set<Hash>, h: Hash)
    requires Inv(rank, nodes, order, disk, limbo, multiset{}) && h in nodes && h != Zero && h !in limbo
    requires forall x | UnderAny(rank, nodes, [h], x) :: x in disk
    ensures Zero in nodes && Zero !in order && Distinct(order)
    ensures h in order && h in disk && Content(h, nodes[h]) && forall x :: nodes[h].children[x] <= 1
    ensures forall c | c in Kids(nodes, h) :: c != Zero && rank(c) < rank(h)
  {
    hide Kids, Content, Count, Counted, Ordered, UnderAny, Under;
    InvFacts(rank, nodes, order, disk, limbo, multiset{});
    UnderOne(rank, nodes, h, h);
    UnderSelf(rank, nodes, h);
  }

  lemma UncacheDetach(rank: Rank, a: Cache, order: seq<Hash>, disk: set<Hash>, limbo: set<Hash>, i: nat, m: Cache)
    requires Inv(rank, a, order, disk, limbo, multiset{}) && i < |order| && order[i] in disk && Relinked(a, m)
    ensures order[i] !in limbo && order[i] in a && order[i] in m
    ensures var w := Without(order, i);
            && Inv(rank, m, w, disk, limbo + {order[i]}, multiset{})
            && SizeSum(a, order) == SizeAt(a, order[i]) + SizeSum(m, w)
            && |w| == |order| - 1
            && (forall x :: x in w <==> x in order && x != order[i])
  {
    hide Counted, Ordered, Contents, Count, Resolved;
    var w := Without(order, i);
    WithoutElems(order, i);
    DetachWritten(rank, a, order, disk, limbo, multiset{}, i);
    AgreeInv(rank, a, m, w, disk, limbo + {order[i]}, multiset{}, multiset{});
    CountWithout(a, order, i, Zero);
    AgreeSize(a, m, w);
  }

  lemma RemovedStart(rank: Rank, nodes: Cache, order: seq<Hash>)
    ensures Removed(rank, nodes, order, nodes, order, [])
  {
  }

  lemma UncacheBelow(rank: Rank, a: Cache, m: Cache, h: Hash, s: seq<Hash>, disk: set<Hash>)
    requires h in a && h != Zero && Relinked(a, m) && multiset(s) == Kids(a, h)
    requires forall c | c in Kids(a, h) :: c != Zero && rank(c) < rank(h)
    requires forall x | UnderAny(rank, a, [h], x) :: x in disk
    ensures forall x | UnderAny(rank, m, s, x) :: x in disk
    ensures forall c | c in s :: c != Zero && rank(c) < rank(h)
  {
    hide Kids, Under, UnderAny;
    forall c | c in s ensures c in Kids(a, h) { assert c in multiset(s); }
    forall x | UnderAny(rank, m, s, x) ensures x in disk {
      UnderAnyRelinked(rank, a, m, s, x);
      UnderKids(rank, a, h, s, x);
      UnderOne(rank, a, h, x);
    }
  }

  lemma UncacheNext(rank: Rank, a: Cache, oa: seq<Hash>, b: Cache, ob: seq<Hash>, s: seq<Hash>, k: nat, disk: set<Hash>)
    requires k < |s| && Removed(rank, a, oa, b, ob, s[..k])
    requires forall x | UnderAny(rank, a, s, x) :: x in disk
    ensures forall x | UnderAny(rank, b, [s[k]], x) :: x in disk
  {
    hide Kids, Under;
    RemovedPruned(rank, a, oa, b, ob, s[..k]);
    forall x | UnderAny(rank, b, [s[k]], x) ensures x in disk {
      UnderOne(rank, b, s[k], x);
      UnderLower(rank, b, s[k], x);
      SameUnder(rank, a, b, s[k], x);
      assert UnderAny(rank, a, s, x);
    }
  }
}
