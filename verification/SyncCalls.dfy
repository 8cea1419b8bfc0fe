/**
 What the download scheduler finds in a node: the hashes among its children, and the
 calls that its leaf callback makes at its values.
 */
module SyncCalls {
  import opened Rlp
  import opened Trees
  import opened Nodes
  import opened Raws
  import opened Caches
  import opened SyncStates

  // ---------- direct children ----------

  /** The hashes among a node's children. */
  function HashKids(kids: seq<Node>): seq<Hash> {
    if kids == [] then [] else (if kids[0].HashNode? then [kids[0].hash] else []) + HashKids(kids[1..])
  }

  /** The children that sync looks at. */
  function Childs(n: Node): seq<Node> {
    match n
    case ShortNode(_, v, _) => [v]
    case FullNode(kids, _) => kids
    case _ => []
  }

  lemma {:induction false} HashKidsLast(kids: seq<Node>, n: Node)
    ensures HashKids(kids + [n]) == HashKids(kids) + if n.HashNode? then [n.hash] else []
  {
    if kids != [] {
      HashKidsLast(kids[1..], n);
      assert (kids + [n])[1..] == kids[1..] + [n];
    }
  }

  /** Too small to hold a hash. */
  lemma {:induction false} SmallRefs(i: Item)
    requires Size(i) <= 32
    ensures Refs(i) == []
    decreases i, 1
  {
    if i.List? { SmallRefsOf(i.items); }
  }

  lemma {:induction false} SmallRefsOf(items: seq<Item>)
    requires Sizes(items) <= 32
    ensures RefsOf(items) == []
    decreases items, 0
  {
    if items != [] {
      SmallRefs(items[0]);
      SmallRefsOf(items[1..]);
    }
  }

  lemma {:induction false} RefsOfKids(items: seq<Item>, kids: seq<Node>)
    requires |items| == |kids| && forall i | 0 <= i < |items| :: Refs(items[i]) == HashKids([kids[i]])
    ensures RefsOf(items) == HashKids(kids)
  {
    if items != [] {
      assert HashKids([kids[0]]) == if kids[0].HashNode? then [kids[0].hash] else [];
      RefsOfKids(items[1..], kids[1..]);
    }
  }

  lemma DecodedShape(h: Hash, buf: Item)
    requires Decode(h, buf, 0).Some?
    ensures buf.List? && (|buf.items| == 2 || |buf.items| == 17)
    ensures var n := Decode(h, buf, 0).value;
            if |buf.items| == 2 then n.ShortNode? && DecodeShort(h, buf, 0) == Some(n)
            else n.FullNode? && |n.kids| == 17 && DecodedFull(h, buf, 0) == Some(n)
  {
  }

  lemma RefIsKid(buf: Item)
    requires DecodeRef(buf, 0).Some?
    ensures Refs(buf) == HashKids([DecodeRef(buf, 0).value])
  {
    if buf.List? {
      SmallRefs(buf);
      DecodedShape(Zero, buf);
    }
  }

  /** A node refers to exactly the hashes among its direct children: what is embedded refers to nothing. */
  lemma RefsAreKids(h: Hash, buf: Item)
    requires Decode(h, buf, 0).Some?
    ensures Refs(buf) == HashKids(Childs(Decode(h, buf, 0).value))
  {
    hide Size, HashKids, Decode;
    DecodedShape(h, buf);
    var n := Decode(h, buf, 0).value;
    if |buf.items| == 2 {
      assert buf.items == [buf.items[0], buf.items[1]];
      assert RefsOf(buf.items) == Refs(buf.items[1]) by { RefsOfPair(buf.items); }
      if buf.items[1].Str? { ValueKid(n.val); } else { RefIsKid(buf.items[1]); }
    } else {
      forall i | 0 <= i < 17 ensures Refs(buf.items[i]) == HashKids([n.kids[i]]) {
        if i < 16 { RefIsKid(buf.items[i]); } else { ValueKid(n.kids[i]); }
      }
      RefsOfKids(buf.items, n.kids);
    }
  }

  lemma RefsOfPair(items: seq<Item>)
    requires |items| == 2 && items[0].Str?
    ensures RefsOf(items) == Refs(items[1])
  {
    assert items[1..] == [items[1]];
    RefsOfOne(items[1]);
  }

  lemma ValueKid(n: Node)
    requires n.Value? || n.Nil?
    ensures HashKids([n]) == []
  {
  }

  // ---------- leaf callbacks ----------

  /** What a leaf callback asks the scheduler for, with its own node as the parent. */
  datatype Call = SubTrie(root: Hash, depth: int, callback: bool) | RawEntry(root: Hash, depth: int)

  datatype Reply = Reply(calls: seq<Call>, failed: bool)

  type Leaf = (Bytes, Hash) -> Reply

  /** The hash of an encoded trie node, or of the empty trie. */
  predicate IsTrie(root: Hash) {
    root == EMPTY_ROOT || (root.Of? && Decode(root, root.pre, 0).Some?)
  }

  /** Sub-tries are tries, raw entries refer to nothing, and both rank below the node they are asked for. */
  ghost predicate CallOk(rank: Rank, c: Call, parent: Hash) {
    rank(c.root) < rank(parent) && if c.SubTrie? then IsTrie(c.root) else Below(c.root) == []
  }

  ghost predicate CallsOk(rank: Rank, calls: seq<Call>, parent: Hash) {
    forall c | c in calls :: CallOk(rank, c, parent)
  }

  /** The callback asks only for what it may, over the values among a node's children. */
  ghost predicate AsksOk(rank: Rank, leaf: Leaf, kids: seq<Node>, h: Hash) {
    forall n | n in kids && n.Value? :: CallsOk(rank, leaf(n.bytes, h).calls, h)
  }

  /** So it does when the data of a node arrives. */
  ghost predicate Fit(rank: Rank, leaf: Leaf, h: Hash) {
    h.Of? && Decode(h, h.pre, 0).Some? ==> AsksOk(rank, leaf, Childs(Decode(h, h.pre, 0).value), h)
  }

  function Roots(calls: seq<Call>): set<Hash> {
    set c | c in calls :: c.root
  }

  lemma RootsJoin(a: seq<Call>, b: seq<Call>)
    ensures Roots(a + b) == Roots(a) + Roots(b)
  {
    forall x | x in Roots(a) ensures x in Roots(a + b) {
      var c :| c in a && c.root == x;
      assert c in a + b;
    }
    forall x | x in Roots(b) ensures x in Roots(a + b) {
      var c :| c in b && c.root == x;
      assert c in a + b;
    }
  }

  /** The callback fails for one of the values among a node's children. */
  predicate FailsFor(leaf: Leaf, kids: seq<Node>, h: Hash) {
    kids != [] && ((kids[0].Value? && leaf(kids[0].bytes, h).failed) || FailsFor(leaf, kids[1..], h))
  }

  /** The calls that the callback makes over the values among a node's children, those of the first failure included. */
  function Served(leaf: Leaf, kids: seq<Node>, h: Hash): seq<Call> {
    if kids == [] then []
    else if !kids[0].Value? then Served(leaf, kids[1..], h)
    else
      var reply := leaf(kids[0].bytes, h);
      reply.calls + if reply.failed then [] else Served(leaf, kids[1..], h)
  }

  lemma {:induction false} ServedLast(leaf: Leaf, kids: seq<Node>, n: Node, h: Hash)
    ensures FailsFor(leaf, kids + [n], h) <==> FailsFor(leaf, kids, h) || (n.Value? && leaf(n.bytes, h).failed)
    ensures Served(leaf, kids + [n], h) ==
            Served(leaf, kids, h) + if FailsFor(leaf, kids, h) || !n.Value? then [] else leaf(n.bytes, h).calls
  {
    if kids != [] {
      ServedLast(leaf, kids[1..], n, h);
      assert (kids + [n])[1..] == kids[1..] + [n] && (kids + [n])[0] == kids[0];
    }
  }

  /** Nothing comes after the first failure. */
  lemma {:induction false} FailsForSome(leaf: Leaf, kids: seq<Node>, k: nat, h: Hash)
    requires k <= |kids| && FailsFor(leaf, kids[..k], h)
    ensures FailsFor(leaf, kids, h) && Served(leaf, kids, h) == Served(leaf, kids[..k], h)
    decreases |kids| - k
  {
    if k < |kids| {
      ServedLast(leaf, kids[..k], kids[k], h);
      assert kids[..k + 1] == kids[..k] + [kids[k]];
      FailsForSome(leaf, kids, k + 1, h);
    } else {
      assert kids[..k] == kids;
    }
  }

  /** A call that adds a request: its root is neither known nor empty. */
  predicate Adds(c: Call, known: set<Hash>, emptyState: Hash) {
    c.root !in known && c.root != if c.SubTrie? then EMPTY_ROOT else emptyState
  }

  function Additions(calls: seq<Call>, known: set<Hash>, emptyState: Hash): seq<Call> {
    if calls == [] then []
    else
      var last := calls[|calls| - 1];
      Additions(calls[..|calls| - 1], known, emptyState) + if Adds(last, known, emptyState) then [last] else []
  }

  lemma {:induction false} AdditionsJoin(a: seq<Call>, b: seq<Call>, known: set<Hash>, emptyState: Hash)
    ensures Additions(a + b, known, emptyState) == Additions(a, known, emptyState) + Additions(b, known, emptyState)
    decreases |b|
  {
    if b == [] {
      assert a + b == a;
    } else {
      var n := |b| - 1;
      AdditionsJoin(a, b[..n], known, emptyState);
      assert (a + b)[..|a + b| - 1] == a + b[..n] && (a + b)[|a + b| - 1] == b[n];
    }
  }

  function CallRequest(c: Call): Request {
    if c.SubTrie? then Request(false, None, [], c.depth, 0, c.callback) else Request(true, None, [], c.depth, 0, false)
  }

  /** A request added under a parent, which has one more dependency. */
  function Added(reqs: Requests, h: Hash, r: Request, parent: Hash): Requests
    requires parent == Zero || parent in reqs
  {
    if parent == Zero then Scheduled(reqs, h, r)
    else Scheduled(Indebted(reqs, parent, 1), h, r.(parents := [parent]))
  }

  /** The requests after calls that add one each. */
  function AddedAll(reqs: Requests, calls: seq<Call>, h: Hash): (r: Requests)
    requires h in reqs
    ensures h in r
  {
    if calls == [] then reqs
    else
      var last := calls[|calls| - 1];
      Added(AddedAll(reqs, calls[..|calls| - 1], h), last.root, CallRequest(last), h)
  }

  lemma {:induction false} AddedAllJoin(reqs: Requests, a: seq<Call>, b: seq<Call>, h: Hash)
    requires h in reqs
    ensures AddedAll(reqs, a + b, h) == AddedAll(AddedAll(reqs, a, h), b, h)
    decreases |b|
  {
    if b == [] {
      assert a + b == a;
    } else {
      var n := |b| - 1;
      AddedAllJoin(reqs, a, b[..n], h);
      assert (a + b)[..|a + b| - 1] == a + b[..n] && (a + b)[|a + b| - 1] == b[n];
    }
  }

  /** A node has one more dependency for every call, and is a parent of exactly what was asked for. */
  lemma {:induction false} AddedAllWaits(reqs: Requests, calls: seq<Call>, h: Hash, x: Hash)
    requires h in reqs && h != Zero
    ensures var r := AddedAll(reqs, calls, h);
            && r[h].deps == reqs[h].deps + |calls|
            && (x in r && h in r[x].parents <==> (x in reqs && h in reqs[x].parents) || x in Roots(calls))
  {
    if calls != [] {
      var n := |calls| - 1;
      AddedAllWaits(reqs, calls[..n], h, x);
      assert calls == calls[..n] + [calls[n]];
      RootsJoin(calls[..n], [calls[n]]);
      AddedWaits(AddedAll(reqs, calls[..n], h), calls[n].root, CallRequest(calls[n]), h, x);
    }
  }

  lemma AddedWaits(reqs: Requests, c: Hash, req: Request, h: Hash, x: Hash)
    requires h in reqs && h != Zero && req.parents == []
    ensures var r := Added(reqs, c, req, h);
            && h in r && r[h].deps == reqs[h].deps + 1
            && (x in r && h in r[x].parents <==> (x in reqs && h in reqs[x].parents) || x == c)
  {
  }

  /** The calls that are made when the data of a request arrives. */
  function CallsFor(leaf: Leaf, req: Request, h: Hash): seq<Call> {
    if req.callback && !req.raw && h.Of? && Decode(h, h.pre, 0).Some? then Served(leaf, Childs(Decode(h, h.pre, 0).value), h)
    else []
  }

  /** What they add. */
  function Asks(leaf: Leaf, req: Request, h: Hash, known: set<Hash>, emptyState: Hash): seq<Call> {
    Additions(CallsFor(leaf, req, h), known, emptyState)
  }

  /** The requests once a node's data has been taken and its callback has been called. */
  function AfterCalls(reqs: Requests, leaf: Leaf, h: Hash, known: set<Hash>, emptyState: Hash): (r: Requests)
    requires h in reqs && h.Of?
    ensures h in r
  {
    AddedAll(reqs[h := reqs[h].(data := Some(h.pre))], Asks(leaf, reqs[h], h, known, emptyState), h)
  }

  /**
   A failing callback does no harm: the node waits for something, and every child that is not
   known was asked for by the callback itself.
   */
  ghost predicate Recoverable(leaf: Leaf, req: Request, h: Hash, known: set<Hash>, emptyState: Hash) {
    var asks := Asks(leaf, req, h, known, emptyState);
    asks != [] && forall c | c in Below(h) :: c in known || c in Roots(asks)
  }

  /** The state after a failure is in order exactly if it does no harm. */
  lemma FailedExactly(rank: Rank, r0: Requests, ids0: seq<Hash>, leaf: Leaf, h: Hash, emptyState: Hash,
                      reqs: Requests, ids: seq<Hash>, batch: Store, order: seq<Hash>, disk: set<Hash>)
    requires Consistent(rank, r0, ids0, batch, order, disk, multiset{}, {}) && h in r0 && r0[h].data.None? && h.Of?
    requires reqs == AfterCalls(r0, leaf, h, batch.Keys + disk, emptyState) && r0[h].deps == 0
    requires Consistent(rank, reqs, ids, batch, order, disk, multiset{}, {h}) && reqs[h].data.Some?
    ensures Consistent(rank, reqs, ids, batch, order, disk, multiset{}, {}) <==>
              Recoverable(leaf, r0[h], h, batch.Keys + disk, emptyState)
  {
    hide Below, Waiting, Asks, AddedAll, Completed, Counters;
    var known, asks := batch.Keys + disk, Asks(leaf, r0[h], h, batch.Keys + disk, emptyState);
    var r1 := r0[h := r0[h].(data := Some(h.pre))];
    AddedAllWaits(r1, asks, h, h);
    forall c | c in Below(h) ensures Handled(reqs, known, h, c) <==> c in known || c in Roots(asks) {
      AddedAllWaits(r1, asks, h, c);
      assert c in r0 && h in r0[c].parents ==> ParentOk(rank, r0, c, h);
    }
  }
}
