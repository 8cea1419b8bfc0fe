/**
 The database: a write cache in front of the disk. Nodes are inserted, referenced
 and dereferenced in memory, and reach the disk through Cap and Commit.
 */
module Databases {
  import opened Rlp
  import opened Trees
  import opened Nodes
  import Ops
  import opened Raws
  import opened Caches
  import opened CacheSteps
  import opened CacheRuns
  import opened CacheCommit
  import opened CacheCap

  /** Addition of sixteen-bit integers wraps around. */
  function AddUint16(a: Uint16, b: Uint16): Uint16 {
    if a + b < 65536 then a + b else a + b - 65536
  }

  /** The disk is content addressed, and was closed under trie children after every single write so far. */
  ghost predicate Durable(disk: Store, base: set<Hash>, writes: seq<Hash>) {
    && Addressed(disk)
    && disk.Keys == base + Elems(writes)
    && forall i | 0 <= i <= |writes| :: Closed(base + Elems(writes[..i]))
  }

  lemma DurableClosed(disk: Store, base: set<Hash>, writes: seq<Hash>)
    requires Durable(disk, base, writes)
    ensures Addressed(disk) && Closed(disk.Keys)
  {
    assert writes[..|writes|] == writes;
  }

  lemma DurableWrite(disk: Store, base: set<Hash>, writes: seq<Hash>, h: Hash)
    requires Durable(disk, base, writes) && h.Of? && forall c | c in Below(h) :: c in disk
    ensures Durable(disk[h := h.pre], base, writes + [h])
  {
    hide Below;
    var w := writes + [h];
    assert writes[..|writes|] == writes;
    WriteClosed(disk.Keys, h);
    assert Elems(w) == Elems(writes) + {h};
    forall i | 0 <= i <= |w| ensures Closed(base + Elems(w[..i])) {
      if i < |w| {
        assert w[..i] == writes[..i];
      } else {
        assert w[..i] == w;
        assert base + Elems(w) == disk.Keys + {h};
      }
    }
  }

  lemma BlobIs(h: Hash, e: Entry)
    requires Content(h, e) && e.node.RBlob?
    ensures h.Of? && e.node.blob == h.pre
  {
  }

  class Database {
    var nodes: Cache
    var oldest: Hash
    var newest: Hash
    var nodesSize: int
    var disk: Store
    /** Writes the disk still accepts before it fails. */
    var room: nat

    /** The flush list, oldest first. */
    ghost var order: seq<Hash>
    /** Insertions whose size wrapped around sixteen bits. */
    ghost var wraps: nat
    /** The keys the disk started with and those written since, in order. */
    ghost var base: set<Hash>
    ghost var writes: seq<Hash>

    /** Why following references ends. */
    ghost const rank: Rank

    ghost predicate Valid()
      reads this
    {
      && Ranked(rank)
      && Linked(nodes, order, oldest, newest)
      && Inv(rank, nodes, order, disk.Keys, {}, multiset{})
      && Durable(disk, base, writes)
      && nodesSize == SizeSum(nodes, order) - 65536 * wraps
    }

    constructor (diskdb: Store, room: nat, ghost rank: Rank)
      requires Addressed(diskdb) && Closed(diskdb.Keys) && Ranked(rank)
      ensures Valid() && disk == diskdb && this.rank == rank && order == [] && nodes[Zero].children == multiset{} && wraps == 0
    {
      var meta := Entry(RNil, 0, 0, multiset{}, Zero, Zero);
      nodes, oldest, newest, nodesSize, disk := map[Zero := meta], Zero, Zero, 0, diskdb;
      this.room, this.rank := room, rank;
      order, wraps, base, writes := [], 0, diskdb.Keys, [];
    }

    /** Every hash that can be loaded, with what it loads. */
    function View(): Store
      reads this
    {
      map h | h in disk.Keys + nodes.Keys && h.Of? :: h.pre
    }

    lemma ViewAddressed()
      ensures Addressed(View())
    {
    }

    /** A node from the cache or else from disk: what decoding its stored encoding gives. */
    method NodeAt(h: Hash, gen: Uint16) returns (r: Option<Node>)
      requires Valid() && h != Zero
      ensures r == Ops.Resolve(View(), h, gen)
    {
      hide Linked, SizeSum, Decode, Closed, EncodeRaw, Ranked;
      InvFacts(rank, nodes, order, disk.Keys, {}, multiset{});
      if h in nodes {
        var node := nodes[h].node;
        if node.RBlob? {
          r := Decode(h, node.blob, gen);
          BlobIs(h, nodes[h]);
        } else {
          ExpandIsDecode(h, node, gen);
          r := Some(Expand(h, node, gen));
        }
      } else if h in disk {
        r := Decode(h, disk[h], gen);
      } else {
        r := None;
      }
    }

    // ---------- insert ----------

    /** Caches a collapsed node under its hash, unless it is cached already. */
    method Insert(h: Hash, node: Raw)
      requires Valid() && h.Of? && EncodeRaw(node) == h.pre
      requires if node.RBlob? then Below(h) == [] else (node.RShort? || node.RFull?) && Proper(node)
      requires forall c | c in Below(h) :: c != Zero && (c in nodes || c in disk)
      modifies `nodes, `oldest, `newest, `order, `nodesSize, `wraps
      ensures Valid() && h in nodes && nodes.Keys == old(nodes).Keys + {h}
      ensures order == if h in old(nodes) then old(order) else old(order) + [h]
      ensures nodes[Zero].children == old(nodes)[Zero].children
      ensures if h in old(nodes) then nodes == old(nodes)
              else Inserted(old(nodes), nodes, h, Entry(node, Size(h.pre) % 65536, 0, multiset{}, old(newest), Zero))
      ensures wraps == old(wraps) + if h in old(nodes) || HASH_SIZE + Size(h.pre) % 65536 < 65536 then 0 else 1
    {
      hide Linked, Inv, SizeSum, Below, Proper, EncodeRaw, Size, Durable, Distinct, Raised, Tailed, Inserted, Ranked;
      if h in nodes {
        return;
      }
      ghost var a, oa := nodes, order;
      assert Zero in nodes && Zero !in order && Distinct(order) by { InvFacts(rank, nodes, order, disk.Keys, {}, multiset{}); }
      assert Insertable(nodes, disk.Keys, h) by { DurableClosed(disk, base, writes); }
      var entry := Entry(node, Size(h.pre) % 65536, 0, multiset{}, newest, Zero);
      var s := Childs(h, entry);
      Credit(s);
      assert nodes.Keys == a.Keys by { RaisedKeys(a, nodes, multiset(s)); }
      RaisedLinks(a, nodes, multiset(s), order, oldest, newest);
      ghost var mid := nodes;
      Append(h, entry);
      nodesSize := nodesSize + AddUint16(HASH_SIZE, entry.size);
      wraps := wraps + if HASH_SIZE + entry.size < 65536 then 0 else 1;
      TailedKeys(mid, nodes, h, entry);
      assert multiset(s) == multiset(Below(h));
      InsertedBoth(a, mid, nodes, h, entry);
      InsertDone(rank, a, oa, disk.Keys, mid, nodes, h, entry, s);
    }

    /** Puts a new entry at the end of the flush list. */
    method Append(h: Hash, entry: Entry)
      requires Linked(nodes, order, oldest, newest) && Distinct(order) && Zero !in order
      requires h !in nodes && entry.prev == newest && entry.next == Zero
      modifies `nodes, `oldest, `newest, `order
      ensures order == old(order) + [h] && Linked(nodes, order, oldest, newest)
      ensures Tailed(old(nodes), nodes, h, entry)
    {
      hide Linked, Ranked;
      ghost var a := nodes;
      LinkedTail(nodes, order, oldest, newest);
      forall x | x in order ensures x in nodes { LinkedMember(nodes, order, oldest, newest, x); }
      nodes := nodes[h := entry];
      if oldest == Zero {
        oldest, newest := h, h;
      } else {
        nodes := nodes[newest := nodes[newest].(next := h)];
        newest := h;
      }
      AppendLinks(a, order, old(oldest), old(newest), h, nodes);
      order := order + [h];
    }

    /** Counts one more reference to each of the given hashes that is cached. */
    method Credit(s: seq<Hash>)
      modifies `nodes
      ensures Raised(old(nodes), nodes, multiset(s))
    {
      for k := 0 to |s|
        invariant Raised(old(nodes), nodes, multiset(s[..k]))
      {
        assert s[..k + 1] == s[..k] + [s[k]];
        if s[k] in nodes {
          nodes := nodes[s[k] := nodes[s[k]].(parents := nodes[s[k]].parents + 1)];
        }
      }
      assert s[..|s|] == s;
    }

    /** InsertBlob: a reference counted blob that is not a trie node. */
    method InsertBlob(h: Hash, blob: Item)
      requires Valid() && h == Of(blob) && Refs(blob) == []
      modifies `nodes, `oldest, `newest, `order, `nodesSize, `wraps
      ensures Valid() && h in nodes && nodes.Keys == old(nodes).Keys + {h}
      ensures order == if h in old(nodes) then old(order) else old(order) + [h]
    {
      Insert(h, RBlob(blob));
    }

    // ---------- references ----------

    /** Adds a reference from a cached parent, or from the meta root, to a child; an unknown child is on disk already. */
    method Reference(child: Hash, parent: Hash)
      requires Valid() && child != Zero && parent in nodes
      requires child in nodes ==> MayRefer(rank, order, disk.Keys, child, parent)
      modifies `nodes
      ensures Valid()
      ensures nodes == if child in old(nodes) && (parent == Zero || child !in old(nodes)[parent].children)
                       then Referenced(old(nodes), child, parent) else old(nodes)
    {
      hide Linked, Inv, SizeSum, Durable, MayRefer, Elems, Ranked;
      if child !in nodes {
        return;
      }
      if parent != Zero && child in nodes[parent].children {
        return;
      }
      assert child in order && (parent == Zero || parent in order) by {
        InvFacts(rank, nodes, order, disk.Keys, {}, multiset{});
      }
      ReferenceInv(rank, nodes, order, disk.Keys, child, parent);
      ReferencedRest(nodes, order, child, parent, oldest, newest);
      ghost var a := nodes;
      nodes := nodes[child := nodes[child].(parents := nodes[child].parents + 1)];
      nodes := nodes[parent := nodes[parent].(children := nodes[parent].children + multiset{child})];
      assert nodes == Referenced(a, child, parent);
    }

    /** Removes a reference from the meta root, and with it everything that is garbage then. */
    method Dereference(root: Hash)
      requires Valid()
      requires Zero in nodes && Matched(nodes, disk.Keys, root)
      modifies `nodes, `oldest, `newest, `order, `nodesSize
      ensures Valid()
      ensures root == Zero ==> nodes == old(nodes) && order == old(order)
      ensures root != Zero ==> Dereferenced(Claimed(old(nodes), root), old(order), nodes, order, disk.Keys, root)
    {
      hide Linked, Inv, SizeSum, Durable, Dereferenced, Unrooted, Ranked;
      if root == Zero {
        return;
      }
      if root in nodes && nodes[root].parents == 0 && root !in nodes[Zero].children {
        // Nothing refers to it: the counter stays at zero, and the node goes.
        ghost var a, oa := Claimed(nodes, root), order;
        ClaimInv(rank, nodes, order, disk.Keys, root);
        assert Zero !in order by { InvFacts(rank, nodes, order, disk.Keys, {}, multiset{}); }
        Collect(root, {}, multiset{});
        ShrunkRemoved(a, oa, root, nodes, order, disk.Keys);
        DereferenceExact(rank, a, oa, disk.Keys, root, nodes, order, multiset{root});
        return;
      }
      ghost var pending := Unroot(root);
      ghost var n1, o1 := nodes, order;
      if root in nodes {
        Release(root, {}, pending);
        assert pending - multiset{root} == multiset{};
      } else {
        ShrunkReflexive(rank, nodes, order, disk.Keys, pending);
      }
      DereferenceExact(rank, old(nodes), old(order), disk.Keys, root, nodes, order, pending);
    }

    /** Takes a root off the meta root. */
    method Unroot(root: Hash) returns (ghost pending: multiset<Hash>)
      requires Valid() && root != Zero
      requires root in nodes ==> root in disk || root in nodes[Zero].children
      modifies `nodes
      ensures Zero in old(nodes) && Zero !in order && nodes == Unrooted(old(nodes), root)
      ensures pending == if root in nodes then multiset{root} else multiset{}
      ensures Linked(nodes, order, oldest, newest) && Inv(rank, nodes, order, disk.Keys, {}, pending)
      ensures SizeSum(nodes, order) == old(SizeSum(nodes, order))
    {
      hide Linked, Inv, SizeSum, Durable, Unrooted, Distinct, Ranked;
      assert Zero in nodes && Zero !in order && (root in nodes <==> root in order) by {
        InvFacts(rank, nodes, order, disk.Keys, {}, multiset{});
      }
      UnrootInv(rank, nodes, order, disk.Keys, root);
      UnrootedRest(nodes, order, root, oldest, newest);
      UnrootedIs(nodes, root);
      DropEdge(root, Zero);
      pending := if root in nodes then multiset{root} else multiset{};
    }

    /** Removes h from the flush list. */
    method Unlink(h: Hash, ghost i: nat)
      requires i < |order| && order[i] == h && Zero in nodes && Zero !in order && Distinct(order)
      requires Linked(nodes, order, oldest, newest)
      modifies `nodes, `oldest, `newest, `order
      ensures order == Without(old(order), i)
      ensures Relinked(old(nodes), nodes)
      ensures Linked(nodes, order, oldest, newest)
    {
      hide Linked, Relinked, Without, Ranked;
      LinkedEnds(nodes, order, oldest, newest, i);
      var node := nodes[h];
      if h == oldest {
        UnlinkHead(nodes, order, oldest, newest);
        RelinkedOnce(nodes, node.next, Zero);
        oldest := node.next;
        nodes := SetPrev(nodes, node.next, Zero);
      } else if h == newest {
        UnlinkTail(nodes, order, oldest, newest);
        RelinkedOnce(nodes, node.prev, Zero);
        newest := node.prev;
        nodes := SetNext(nodes, node.prev, Zero);
      } else {
        UnlinkMiddle(nodes, order, oldest, newest, i);
        RelinkedTwice(nodes, node.prev, node.next, node.next, node.prev);
        nodes := SetNext(nodes, node.prev, node.next);
        nodes := SetPrev(nodes, node.next, node.prev);
      }
      order := Without(order, i);
    }

    /** Forgets one reference from parent to child in the parent's own table. */
    method DropEdge(child: Hash, parent: Hash)
      requires parent in nodes
      modifies `nodes
      ensures nodes == old(nodes)[parent := old(nodes[parent]).(children := old(nodes[parent]).children - multiset{child})]
    {
      var node := nodes[parent];
      if node.children[child] > 0 {
        nodes := nodes[parent := node.(children := node.children[child := node.children[child] - 1])];
        assert node.children - multiset{child} == node.children[child := node.children[child] - 1];
      } else {
        assert node.children - multiset{child} == node.children;
        assert node == node.(children := node.children - multiset{child});
      }
    }

    /** The tracked children of an entry: external ones in no particular order, then the embedded ones. */
    method Childs(h: Hash, e: Entry) returns (s: seq<Hash>)
      requires Content(h, e) && forall x :: e.children[x] <= 1
      ensures multiset(s) == multiset(Below(h)) + e.children
    {
      s := [];
      var rest := e.children;
      while rest != multiset{}
        invariant multiset(s) + rest == e.children
        decreases |rest|
      {
        var c :| c in rest;
        s := s + [c];
        rest := rest - multiset{c};
      }
      if !e.node.RBlob? {
        GatherIsRefs(e.node);
        s := s + Gather(e.node);
      }
    }

    /**
     The rest of dereference: discounts one dropped reference to child, and collects
     child when that was the last one.
     */
    method Release(child: Hash, ghost limbo: set<Hash>, ghost pending: multiset<Hash>)
      requires Linked(nodes, order, oldest, newest) && Inv(rank, nodes, order, disk.Keys, limbo, pending)
      requires child in pending && forall l | l in limbo :: rank(child) < rank(l)
      modifies `nodes, `oldest, `newest, `order, `nodesSize
      ensures Linked(nodes, order, oldest, newest)
      ensures Inv(rank, nodes, order, disk.Keys, limbo, pending - multiset{child})
      ensures Shrunk(old(nodes), old(order), nodes, order, disk.Keys)
      ensures nodesSize - SizeSum(nodes, order) == old(nodesSize - SizeSum(nodes, order))
      ensures |order| <= old(|order|)
      decreases |order|, 1
    {
      hide Linked, Inv, Shrunk, SizeSum, Count, Content, Ranked;
      if child !in nodes {
        ReleaseUnknown(rank, nodes, order, disk.Keys, limbo, pending, child);
        return;
      }
      assert child !in limbo;
      InvFacts(rank, nodes, order, disk.Keys, limbo, pending);
      Discount(rank, nodes, order, disk.Keys, limbo, pending, child);
      ghost var a, oa, rest := nodes, order, pending - multiset{child};
      var node := nodes[child];
      if node.parents > 0 {
        node := node.(parents := node.parents - 1);
        nodes := nodes[child := node];
      }
      assert nodes == a[child := Less(a[child])];
      SameLinks(a, nodes, order, oldest, newest);
      if node.parents == 0 {
        Collect(child, limbo, rest);
        ShrunkRemoved(a, oa, child, nodes, order, disk.Keys);
      } else {
        ShrunkLess(a, order, child, disk.Keys);
      }
    }

    /** Deletes a node that nothing refers to any more, releasing everything it refers to. */
    method Collect(child: Hash, ghost limbo: set<Hash>, ghost rest: multiset<Hash>)
      requires Linked(nodes, order, oldest, newest) && Inv(rank, nodes, order, disk.Keys, limbo, rest)
      requires child in order && child in nodes && nodes[child].parents == 0
      requires forall l | l in limbo :: rank(child) < rank(l)
      modifies `nodes, `oldest, `newest, `order, `nodesSize
      ensures Linked(nodes, order, oldest, newest)
      ensures Inv(rank, nodes, order, disk.Keys, limbo, rest)
      ensures child !in order && Shrunk(old(nodes), old(order), nodes, order, disk.Keys + {child})
      ensures nodesSize - SizeSum(nodes, order) == old(nodesSize - SizeSum(nodes, order))
      ensures |order| < old(|order|)
      decreases |order|, 0
    {
      hide Linked, Inv, Shrunk, SizeSum, Content, Without, Distinct, Kids, Below, Relinked, Ranked;
      ghost var a, oa, D := nodes, order, disk.Keys;
      InvFacts(rank, nodes, order, D, limbo, rest);
      var node := nodes[child];
      ghost var i :| 0 <= i < |order| && order[i] == child;
      Unlink(child, i);
      LastReference(rank, a, oa, D, limbo, rest, i, nodes);
      ShrunkDetach(a, oa, i, nodes, order, D + {child});
      ghost var inner, w, wn := limbo + {child}, order, nodes;
      var s := Childs(child, node);
      KidsOf(a, child);
      assert forall c | c in s :: c in multiset(s);
      ReleaseAll(child, s, inner, rest);
      ghost var n2 := nodes;
      Forget(rank, nodes, order, D, inner, rest, child);
      ForgetLinks(rank, nodes, order, D, inner, rest, child, oldest, newest);
      assert inner - {child} == limbo;
      nodes := nodes - {child};
      nodesSize := nodesSize - (HASH_SIZE + node.size);
      ShrunkTrans(wn, w, n2, order, nodes, order, D);
      ShrunkWeaken(wn, w, nodes, order, D, D + {child});
      ShrunkTrans(a, oa, wn, w, nodes, order, D + {child});
      assert child !in order by { InvFacts(rank, nodes, order, D, limbo, rest); }
    }

    /** dereference of every child in turn, while their parent is off the list. */
    method ReleaseAll(parent: Hash, s: seq<Hash>, ghost limbo: set<Hash>, ghost rest: multiset<Hash>)
      requires Linked(nodes, order, oldest, newest) && Inv(rank, nodes, order, disk.Keys, limbo, rest + multiset(s))
      requires parent in limbo && forall c, l | c in s && l in limbo :: rank(c) < rank(l)
      modifies `nodes, `oldest, `newest, `order, `nodesSize
      ensures Linked(nodes, order, oldest, newest)
      ensures Inv(rank, nodes, order, disk.Keys, limbo, rest)
      ensures Shrunk(old(nodes), old(order), nodes, order, disk.Keys)
      ensures nodesSize - SizeSum(nodes, order) == old(nodesSize - SizeSum(nodes, order))
      ensures |order| <= old(|order|)
      decreases |order|, 2
    {
      hide Linked, Inv, Shrunk, SizeSum, Count, Content, Distinct, Kids, Below, Ranked;
      ghost var wn, w, D := nodes, order, disk.Keys;
      InvFacts(rank, nodes, order, D, limbo, rest + multiset(s));
      ShrunkSame(nodes, nodes, order, D);
      assert s[0..] == s;
      for k := 0 to |s|
        invariant disk.Keys == D
        invariant Linked(nodes, order, oldest, newest) && Inv(rank, nodes, order, D, limbo, rest + multiset(s[k..]))
        invariant Shrunk(wn, w, nodes, order, D)
        invariant nodesSize - SizeSum(nodes, order) == old(nodesSize) - SizeSum(wn, w)
        invariant |order| <= |w|
      {
        ghost var n0, o0, pend := nodes, order, rest + multiset(s[k..]);
        InvFacts(rank, nodes, order, D, limbo, pend);
        assert s[k..] == [s[k]] + s[k + 1..];
        DropEdge(s[k], parent);
        LimboEntry(rank, n0, nodes, order, D, limbo, pend, parent, nodes[parent], oldest, newest);
        ghost var n1 := nodes;
        Release(s[k], limbo, pend);
        assert pend - multiset{s[k]} == rest + multiset(s[k + 1..]);
        ShrunkTrans(n0, o0, n1, o0, nodes, order, D);
        ShrunkTrans(wn, w, n0, o0, nodes, order, D);
      }
      assert rest + multiset(s[|s|..]) == rest;
    }

    // ---------- writing to disk ----------

    /** One write. It may fail; when it does not, the disk stays closed under trie children. */
    method Put(h: Hash, item: Item) returns (ok: bool)
      requires Durable(disk, base, writes) && h.Of? && item == h.pre && forall c | c in Below(h) :: c in disk
      modifies `disk, `writes, `room
      ensures Durable(disk, base, writes)
      ensures ok <==> old(room) > 0
      ensures ok ==> disk == old(disk)[h := item] && writes == old(writes) + [h] && room == old(room) - 1
      ensures !ok ==> disk == old(disk) && writes == old(writes) && room == old(room)
    {
      hide Durable, Below;
      ok := room > 0;
      if ok {
        DurableWrite(disk, base, writes, h);
        disk, writes, room := disk[h := item], writes + [h], room - 1;
      }
    }

    /** The writing half of Commit: everything cached under h, children first. */
    method CommitTree(h: Hash) returns (ok: bool)
      requires Inv(rank, nodes, order, disk.Keys, {}, multiset{}) && Durable(disk, base, writes) && h != Zero
      modifies `disk, `writes, `room
      ensures Inv(rank, nodes, order, disk.Keys, {}, multiset{}) && Durable(disk, base, writes)
      ensures Written(rank, nodes, old(disk).Keys, disk.Keys, old(writes), writes, [h], ok)
      ensures !ok ==> room == 0
      decreases rank(h), 1
    {
      hide Inv, Durable, Under, Kids, Below, Content, EncodeRaw, Distinct, Written, Ranked;
      ghost var d0, w0 := disk.Keys, writes;
      if h !in nodes {
        WrittenNothing(rank, nodes, d0, w0, h);
        return true;
      }
      CommitFacts(rank, nodes, order, d0, h);
      var node := nodes[h];
      var s := Childs(h, node);
      KidsOf(nodes, h);
      ok := CommitAll(h, s);
      ghost var d1, w1 := disk.Keys, writes;
      if !ok {
        WrittenPart(rank, nodes, d0, d1, w0, w1, s, h);
        return;
      }
      WrittenKids(rank, nodes, order, d0, d1, w0, w1, s, h);
      ok := Put(h, EncodeRaw(node.node));
      if ok { WriteInv(rank, nodes, order, d1, {}, multiset{}, h); }
      WrittenLast(rank, nodes, d0, d1, w0, w1, s, h, ok, disk.Keys, writes);
    }

    /** Commits the children of a node one after the other, stopping at the first failed write. */
    method CommitAll(h: Hash, s: seq<Hash>) returns (ok: bool)
      requires Inv(rank, nodes, order, disk.Keys, {}, multiset{}) && Durable(disk, base, writes)
      requires h in nodes && multiset(s) == Kids(nodes, h)
      requires forall c | c in Kids(nodes, h) :: c != Zero && rank(c) < rank(h)
      modifies `disk, `writes, `room
      ensures Inv(rank, nodes, order, disk.Keys, {}, multiset{}) && Durable(disk, base, writes)
      ensures Written(rank, nodes, old(disk).Keys, disk.Keys, old(writes), writes, s, ok)
      ensures !ok ==> room == 0
      decreases rank(h), 0
    {
      hide Inv, Durable, Under, Kids, Written, Ranked;
      ghost var d0, w0 := disk.Keys, writes;
      WrittenStart(rank, nodes, d0, w0);
      assert s[..0] == [];
      for k := 0 to |s|
        invariant Inv(rank, nodes, order, disk.Keys, {}, multiset{}) && Durable(disk, base, writes)
        invariant Written(rank, nodes, d0, disk.Keys, w0, writes, s[..k], true)
      {
        ghost var d1, w1 := disk.Keys, writes;
        assert s[k] in multiset(s);
        ok := CommitTree(s[k]);
        WrittenMore(rank, nodes, d0, d1, disk.Keys, w0, w1, writes, s, k, ok);
        if !ok {
          WrittenPrefix(rank, nodes, d0, disk.Keys, w0, writes, s, k + 1);
          return;
        }
      }
      assert s[..|s|] == s;
      ok := true;
    }

    /** The clearing half of Commit: drops a committed trie from the cache. */
    method Uncache(h: Hash, ghost limbo: set<Hash>)
      requires Linked(nodes, order, oldest, newest) && Inv(rank, nodes, order, disk.Keys, limbo, multiset{}) && h != Zero
      requires forall x | UnderAny(rank, nodes, [h], x) :: x in disk
      requires forall l | l in limbo :: rank(h) < rank(l)
      modifies `nodes, `oldest, `newest, `order, `nodesSize
      ensures Linked(nodes, order, oldest, newest) && Inv(rank, nodes, order, disk.Keys, limbo, multiset{})
      ensures Removed(rank, old(nodes), old(order), nodes, order, [h])
      ensures nodesSize - SizeSum(nodes, order) == old(nodesSize - SizeSum(nodes, order))
      ensures |order| <= old(|order|)
      decreases |order|, 1
    {
      hide Linked, Inv, SizeSum, Kids, Below, Content, Distinct, UnderAny, Removed, Without, Relinked, Ranked;
      ghost var a, oa, D := nodes, order, disk.Keys;
      if h !in nodes {
        RemovedNothing(rank, a, oa, h);
        return;
      }
      UncacheFacts(rank, a, oa, D, limbo, h);
      var node := nodes[h];
      ghost var i :| 0 <= i < |order| && order[i] == h;
      Unlink(h, i);
      ghost var m, om, inner := nodes, order, limbo + {h};
      UncacheDetach(rank, a, oa, D, limbo, i, m);
      var s := Childs(h, node);
      KidsOf(a, h);
      UncacheBelow(rank, a, m, h, s, D);
      UncacheAll(h, s, inner);
      UncacheDone(rank, a, oa, h, m, om, nodes, order, s);
      Forget(rank, nodes, order, D, inner, multiset{}, h);
      ForgetLinks(rank, nodes, order, D, inner, multiset{}, h, oldest, newest);
      assert inner - {h} == limbo;
      nodes := nodes - {h};
      nodesSize := nodesSize - (HASH_SIZE + node.size);
    }

    /** Uncaches the children of a node that is off the list already. */
    method UncacheAll(h: Hash, s: seq<Hash>, ghost limbo: set<Hash>)
      requires Linked(nodes, order, oldest, newest) && Inv(rank, nodes, order, disk.Keys, limbo, multiset{})
      requires forall c | c in s :: c != Zero && forall l | l in limbo :: rank(c) < rank(l)
      requires forall x | UnderAny(rank, nodes, s, x) :: x in disk
      modifies `nodes, `oldest, `newest, `order, `nodesSize
      ensures Linked(nodes, order, oldest, newest) && Inv(rank, nodes, order, disk.Keys, limbo, multiset{})
      ensures Removed(rank, old(nodes), old(order), nodes, order, s)
      ensures nodesSize - SizeSum(nodes, order) == old(nodesSize - SizeSum(nodes, order))
      ensures |order| <= old(|order|)
      decreases |order|, 2
    {
      hide Linked, Inv, SizeSum, UnderAny, Removed, Ranked;
      ghost var a, oa, D := nodes, order, disk.Keys;
      RemovedStart(rank, a, oa);
      assert s[..0] == [];
      for k := 0 to |s|
        invariant Linked(nodes, order, oldest, newest) && Inv(rank, nodes, order, D, limbo, multiset{})
        invariant Removed(rank, a, oa, nodes, order, s[..k])
        invariant nodesSize - SizeSum(nodes, order) == old(nodesSize) - SizeSum(a, oa)
        invariant |order| <= |oa|
      {
        ghost var b, ob := nodes, order;
        assert s[k] in s;
        UncacheNext(rank, a, oa, b, ob, s, k, D);
        Uncache(s[k], limbo);
        assert forall x | x in oa :: x in a by { InvFacts(rank, a, oa, D, limbo, multiset{}); }
        RemovedMore(rank, a, oa, b, ob, nodes, order, s, k);
      }
      assert s[..|s|] == s;
    }

    /** Writes everything cached under a node to disk and drops exactly that from the cache. */
    method Commit(node: Hash) returns (ok: bool)
      requires Valid() && node != Zero
      modifies `nodes, `oldest, `newest, `order, `nodesSize, `disk, `writes, `room
      ensures Valid()
      ensures Written(rank, old(nodes), old(disk).Keys, disk.Keys, old(writes), writes, [node], ok)
      ensures !ok ==> room == 0
      ensures if ok then Removed(rank, old(nodes), old(order), nodes, order, [node])
              else nodes == old(nodes) && order == old(order)
      ensures Inv(rank, old(nodes), old(order), disk.Keys, {}, multiset{})
    {
      hide Linked, Inv, SizeSum, Durable, UnderAny, Removed, Ranked;
      ok := CommitTree(node);
      if ok {
        Uncache(node, {});
      }
    }

    // ---------- Cap ----------

    /** Memory in use: the accounted node sizes and two list hashes for every listed node. */
    ghost function Usage(): int
      reads this
    {
      nodesSize + 2 * HASH_SIZE * |order|
    }

    /**
     Writes the oldest nodes, in list order, until the rest fits the limit and no further, and then drops
     them from the cache.
     */
    method Cap(limit: int) returns (ok: bool)
      requires Valid()
      modifies `nodes, `oldest, `newest, `order, `nodesSize, `disk, `writes, `room
      ensures Valid()
      ensures exists n ::
                && Capped(old(order), order, old(writes), writes, n, ok)
                && Needed(old(Usage()), old(nodes), old(order), limit, n)
      ensures !ok ==> nodes == old(nodes) && room == 0
      ensures ok ==> (order == [] || Usage() <= limit) && Subcache(old(nodes), nodes)
      ensures ok && oldest != Zero ==> oldest in nodes && nodes[oldest].prev == Zero
      ensures old(Usage()) <= limit ==> ok && order == old(order) && writes == old(writes)
    {
      hide Linked, Inv, SizeSum, Durable, Distinct, Ranked;
      CacheSize(rank, nodes, order, disk.Keys);
      ghost var o0, w0 := order, writes;
      var size := nodesSize + 2 * HASH_SIZE * (|nodes| - 1);
      ghost var n;
      var stop;
      ok, stop, n := Flush(size, limit);
      assert Capped(o0, if ok then o0[n..] else o0, w0, writes, n, ok) && Needed(old(Usage()), nodes, o0, limit, n);
      if !ok {
        return;
      }
      ghost var n0 := nodes;
      DropFlushed(stop, n);
      ghost var n1 := nodes;
      FixHead();
      SubcacheTrans(n0, n1, nodes);
    }

    /** The writing half of Cap. stop is the first node not written. */
    method Flush(size: int, limit: int) returns (ok: bool, stop: Hash, ghost n: nat)
      requires Valid()
      modifies `disk, `writes, `room
      ensures Valid()
      ensures n <= |order| && stop == At(order, n) && writes == old(writes) + order[..n]
      ensures forall j | 0 <= j < n :: order[j] in disk
      ensures ok ==> n == |order| || LeftAfter(size, nodes, order, n) <= limit
      ensures Needed(size, nodes, order, limit, n)
      ensures !ok ==> room == 0
      ensures size <= limit ==> ok && n == 0
    {
      hide Linked, Inv, SizeSum, Durable, Distinct, Kids, Below, EncodeRaw, Ranked;
      n, stop, ok := 0, oldest, true;
      var left := size;
      FlushStart(nodes, order, oldest, newest);
      NoneNeeded(size, nodes, order, limit);
      while left > limit && stop != Zero
        invariant n <= |order| && stop == At(order, n) && writes == old(writes) + order[..n]
        invariant Inv(rank, nodes, order, disk.Keys, {}, multiset{}) && Durable(disk, base, writes)
        invariant forall j | 0 <= j < n :: order[j] in disk.Keys
        invariant left == LeftAfter(size, nodes, order, n) && Needed(size, nodes, order, limit, n)
        invariant size <= limit ==> n == 0 && left == size
        decreases |order| - n
      {
        ghost var D := disk.Keys;
        FlushFacts(rank, nodes, order, D, oldest, newest, n);
        var node := nodes[stop];
        ok := Put(stop, EncodeRaw(node.node));
        if !ok {
          return;
        }
        WriteInv(rank, nodes, order, D, {}, multiset{}, stop);
        assert disk.Keys == D + {stop};
        left := left - (3 * HASH_SIZE + node.size);
        assert order[..n + 1] == order[..n] + [stop];
        stop, n := node.next, n + 1;
      }
      assert stop == Zero ==> n == |order| by { InvFacts(rank, nodes, order, disk.Keys, {}, multiset{}); }
    }

    /** The clearing half of Cap: drops everything before stop. */
    method DropFlushed(stop: Hash, ghost n: nat)
      requires Valid() && n <= |order| && stop == At(order, n) && forall j | 0 <= j < n :: order[j] in disk
      modifies `nodes, `oldest, `order, `nodesSize
      ensures Valid() && order == old(order)[n..] && Subcache(old(nodes), nodes)
      ensures nodesSize == old(nodesSize) - SizeSum(old(nodes), old(order)[..n])
    {
      hide Linked, Inv, SizeSum, Durable, Distinct, Subcache, At, Ranked;
      ghost var n0, o0, D, k := nodes, order, disk.Keys, 0;
      assert o0[0..] == o0;
      assert Distinct(o0) && Zero !in o0 by { InvFacts(rank, nodes, order, D, {}, multiset{}); }
      SubcacheStart(nodes);
      while oldest != stop
        invariant k <= n && order == o0[k..]
        invariant Linked(nodes, order, oldest, newest) && Inv(rank, nodes, order, D, {}, multiset{})
        invariant nodesSize == SizeSum(nodes, order) - 65536 * wraps
        invariant Subcache(n0, nodes)
        decreases n - k
      {
        FlushedMore(nodes, order, D, oldest, newest, o0, k, n);
        PopHead(rank, nodes, order, D, oldest, newest);
        var node := nodes[oldest];
        SubcacheLess(n0, nodes, oldest);
        nodes := nodes - {oldest};
        oldest := node.next;
        nodesSize := nodesSize - (HASH_SIZE + node.size);
        order := order[1..];
        k := k + 1;
        assert order == o0[k..];
      }
      FlushedAll(nodes, order, D, oldest, newest, o0, k, n);
      assert forall h | h in order :: h in nodes by { InvFacts(rank, nodes, order, D, {}, multiset{}); }
      CappedSize(n0, o0, nodes, n);
    }

    /** The new head of the list has no predecessor. */
    method FixHead()
      requires Valid()
      modifies `nodes
      ensures Valid() && Subcache(old(nodes), nodes)
      ensures oldest == Zero ==> nodes == old(nodes)
      ensures oldest != Zero ==> oldest in old(nodes) && nodes == SetPrev(old(nodes), oldest, Zero)
    {
      hide Linked, Inv, SizeSum, Durable, Ranked;
      if oldest != Zero {
        HeadPrev(rank, nodes, order, disk.Keys, oldest, newest);
        nodes := SetPrev(nodes, oldest, Zero);
      }
    }
  }
}
