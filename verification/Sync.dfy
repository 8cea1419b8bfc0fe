/**
 The scheduler that downloads a trie: it hands out the hashes of unknown nodes, takes
 their data in any order, and completes a node only after everything below it.
 */
module Syncs {
  import opened Rlp
  import opened Trees
  import opened Nodes
  import opened Raws
  import opened Caches
  import opened CacheRuns
  import opened Databases
  import opened SyncStates
  import opened SyncCalls
  import opened SyncHeard
  import CacheSteps
  import Tries

  // ---------- queue ----------

  datatype Job = Job(hash: Hash, priority: int)

  function Hashes(queue: seq<Job>): seq<Hash> {
    seq(|queue|, i requires 0 <= i < |queue| => queue[i].hash)
  }

  /**
   Everything ever handed out or still queued is pending or known, nothing is queued or
   handed out twice, nothing that is still to be delivered is forgotten, and what is
   queued for a request has its depth for a priority.
   */
  ghost predicate QueueOk(queue: seq<Job>, issued: set<Hash>, reqs: Requests, known: set<Hash>) {
    && Distinct(Hashes(queue)) && Elems(Hashes(queue)) !! issued
    && Elems(Hashes(queue)) + issued <= reqs.Keys + known
    && (forall h | h in reqs && reqs[h].data.None? :: h in Elems(Hashes(queue)) + issued)
    && forall job | job in queue && job.hash in reqs :: job.priority == reqs[job.hash].depth
  }

  /** Every hash asked for is empty, pending or known. */
  ghost predicate AskedOk(asked: set<Hash>, emptyState: Hash, reqs: Requests, known: set<Hash>) {
    asked <= reqs.Keys + known + {EMPTY_ROOT, emptyState}
  }

  lemma Pushed(queue: seq<Job>, issued: set<Hash>, reqs: Requests, known: set<Hash>, h: Hash, r: Request)
    requires QueueOk(queue, issued, reqs, known) && h !in reqs && h !in known
    ensures QueueOk(queue + [Job(h, r.depth)], issued, reqs[h := r], known)
  {
    var q, was := Hashes(queue + [Job(h, r.depth)]), Hashes(queue);
    assert q == was + [h];
    assert Elems(q) == Elems(was) + {h};
    forall i, j | 0 <= i < j < |q| ensures q[i] != q[j] { if j == |was| { assert was[i] in Elems(was); } }
    forall i | 0 <= i < |queue| ensures queue[i].hash != h { assert was[i] in Elems(was); }
  }

  lemma Popped(queue: seq<Job>, issued: set<Hash>, reqs: Requests, known: set<Hash>, i: nat)
    requires QueueOk(queue, issued, reqs, known) && i < |queue|
    ensures queue[i].hash !in issued
    ensures QueueOk(queue[..i] + queue[i + 1..], issued + {queue[i].hash}, reqs, known)
  {
    var q, h := Hashes(queue), queue[i].hash;
    assert q[i] == h && h in Elems(q);
    assert Hashes(queue[..i] + queue[i + 1..]) == Without(q, i);
    CacheSteps.WithoutElems(q, i);
  }

  lemma JobDepth(queue: seq<Job>, issued: set<Hash>, reqs: Requests, known: set<Hash>, job: Job)
    requires QueueOk(queue, issued, reqs, known) && job in queue
    ensures job.hash in reqs ==> job.priority == reqs[job.hash].depth
  {
  }

  lemma MovedQueue(queue: seq<Job>, issued: set<Hash>, asked: set<Hash>, emptyState: Hash,
                   a: Requests, ka: set<Hash>, b: Requests, kb: set<Hash>)
    requires QueueOk(queue, issued, a, ka) && AskedOk(asked, emptyState, a, ka) && Moved(a, ka, b, kb)
    ensures QueueOk(queue, issued, b, kb) && AskedOk(asked, emptyState, b, kb)
  {
  }

  lemma MovedTrans(a: Requests, ka: set<Hash>, b: Requests, kb: set<Hash>, c: Requests, kc: set<Hash>)
    requires Moved(a, ka, b, kb) && Moved(b, kb, c, kc)
    ensures Moved(a, ka, c, kc)
  {
  }

  lemma IndexOf(ids: seq<Hash>, h: Hash) returns (i: nat)
    requires h in ids
    ensures i < |ids| && ids[i] == h
  {
    i :| 0 <= i < |ids| && ids[i] == h;
  }

  lemma Listed(rank: Rank, reqs: Requests, ids: seq<Hash>, batch: Store, order: seq<Hash>, disk: set<Hash>,
               owed: multiset<Hash>, open: set<Hash>, h: Hash)
    requires Consistent(rank, reqs, ids, batch, order, disk, owed, open) && h in reqs
    ensures h in ids && h !in batch && h !in disk
  {
    hide Waiting;
    assert h in Elems(ids);
  }

  lemma Smaller(a: Requests, b: Requests, h: Hash)
    requires b.Keys <= a.Keys && h in a && h !in b
    ensures |b| < |a|
  {
    assert b.Keys <= a.Keys - {h};
    SubsetSize(b.Keys, a.Keys - {h});
    assert |a.Keys - {h}| == |a.Keys| - 1;
  }

  lemma {:induction false} SubsetSize(a: set<Hash>, b: set<Hash>)
    requires a <= b
    ensures |a| <= |b|
  {
    if a != {} {
      var x :| x in a;
      SubsetSize(a - {x}, b - {x});
    }
  }

  predicate Best(queue: seq<Job>, i: nat)
    requires i < |queue|
  {
    forall j | 0 <= j < |queue| :: queue[j].priority <= queue[i].priority
  }

  lemma {:induction false} BestExists(queue: seq<Job>)
    requires queue != []
    ensures exists i :: 0 <= i < |queue| && Best(queue, i)
  {
    var last := |queue| - 1;
    if last == 0 {
      assert Best(queue, 0);
    } else {
      BestExists(queue[..last]);
      var i :| 0 <= i < last && Best(queue[..last], i);
      forall j | 0 <= j < last ensures queue[j].priority <= queue[i].priority { assert queue[..last][j] == queue[j]; }
      assert Best(queue, if queue[i].priority < queue[last].priority then last else i);
    }
  }

  /** The jobs taken come deepest first, and none that is left is deeper than any of them. */
  ghost predicate Deepest(jobs: seq<Job>, queue: seq<Job>) {
    && (forall i, j | 0 <= i < j < |jobs| :: jobs[i].priority >= jobs[j].priority)
    && (forall i, j | 0 <= i < |jobs| && 0 <= j < |queue| :: jobs[i].priority >= queue[j].priority)
  }

  lemma DeepestNext(jobs: seq<Job>, queue: seq<Job>, i: nat)
    requires Deepest(jobs, queue) && i < |queue| && Best(queue, i)
    ensures Deepest(jobs + [queue[i]], queue[..i] + queue[i + 1..])
  {
    var left := queue[..i] + queue[i + 1..];
    forall j | 0 <= j < |left| ensures left[j] == queue[if j < i then j else j + 1] {}
  }

  /** From one queue to another: what was taken, in which order, and that none of it had been handed out before. */
  ghost predicate Taken(q0: seq<Job>, issued0: set<Hash>, queue: seq<Job>, issued: set<Hash>, hashes: seq<Hash>, jobs: seq<Job>) {
    && hashes == Hashes(jobs) && Distinct(hashes)
    && multiset(q0) == multiset(jobs) + multiset(queue)
    && Deepest(jobs, queue)
    && Elems(hashes) !! issued0 && issued == issued0 + Elems(hashes)
  }

  lemma TakenNone(queue: seq<Job>, issued: set<Hash>)
    ensures Taken(queue, issued, queue, issued, [], [])
  {
  }

  lemma TakenNext(q0: seq<Job>, issued0: set<Hash>, queue: seq<Job>, issued: set<Hash>, hashes: seq<Hash>, jobs: seq<Job>, i: nat)
    requires Taken(q0, issued0, queue, issued, hashes, jobs) && i < |queue| && Best(queue, i) && queue[i].hash !in issued
    ensures Taken(q0, issued0, queue[..i] + queue[i + 1..], issued + {queue[i].hash}, hashes + [queue[i].hash], jobs + [queue[i]])
  {
    hide Deepest, Distinct, Elems;
    DeepestNext(jobs, queue, i);
    DistinctNext(hashes, queue[i].hash, issued0, issued);
    assert queue == queue[..i] + [queue[i]] + queue[i + 1..];
    assert Hashes(jobs + [queue[i]]) == hashes + [queue[i].hash];
  }

  lemma Start(rank: Rank, database: Store, emptyState: Hash)
    requires Addressed(database) && Closed(database.Keys)
    ensures Durable(database, database.Keys, [])
    ensures Consistent(rank, map[], [], map[], [], database.Keys, multiset{}, {})
    ensures QueueOk([], {}, map[], database.Keys) && AskedOk({}, emptyState, map[], database.Keys)
  {
    hide Closed;
    assert database.Keys + Elems([]) == database.Keys;
  }

  lemma DistinctNext(hashes: seq<Hash>, h: Hash, before: set<Hash>, issued: set<Hash>)
    requires Distinct(hashes) && h !in issued && issued == before + Elems(hashes)
    ensures Distinct(hashes + [h]) && Elems(hashes + [h]) == Elems(hashes) + {h}
  {
    var n := hashes + [h];
    forall i | 0 <= i < |hashes| ensures hashes[i] != h { assert hashes[i] in Elems(hashes); }
  }

  predicate Startable(h: Hash, r: Request) {
    r.deps == 0 && r.data.None? && (r.raw ==> Below(h) == [] && !r.callback)
  }

  lemma QueueSame(queue: seq<Job>, issued: set<Hash>, a: Requests, known: set<Hash>, b: Requests)
    requires QueueOk(queue, issued, a, known) && a.Keys == b.Keys
    requires forall h | h in a :: a[h].data == b[h].data && a[h].depth == b[h].depth
    ensures QueueOk(queue, issued, b, known)
  {
  }

  class Sync {
    const leaf: Leaf
    const emptyState: Hash
    var requests: Requests
    var batch: Store
    var order: seq<Hash>
    var queue: seq<Job>
    var database: Store
    /** Writes the database still accepts before it fails. */
    var room: nat

    /** The pending hashes, in some order. */
    ghost var ids: seq<Hash>
    /** What Missing has handed out. */
    ghost var issued: set<Hash>
    /** What was ever asked for, by callers or by callbacks. */
    ghost var asked: set<Hash>
    /** The keys the database started with and those written since, in order. */
    ghost var base: set<Hash>
    ghost var writes: seq<Hash>
    /** How every hash was first requested. */
    ghost var log: Log
    /** Why following dependencies ends. */
    ghost const rank: Rank

    ghost function Known(): set<Hash>
      reads this
    {
      batch.Keys + database.Keys
    }

    ghost predicate Holds(owed: multiset<Hash>, open: set<Hash>)
      reads this
    {
      && Ranked(rank) && Durable(database, base, writes)
      && Consistent(rank, requests, ids, batch, order, database.Keys, owed, open)
      && QueueOk(queue, issued, requests, Known()) && AskedOk(asked, emptyState, requests, Known())
      && Heard(log, leaf, asked, base, requests, Known(), open)
    }

    ghost predicate Valid()
      reads this
    {
      Holds(multiset{}, {})
    }

    /** Starts the download of a trie into a database that is closed under children. */
    constructor (root: Hash, database: Store, callback: bool, leaf: Leaf, emptyState: Hash, room: nat, ghost rank: Rank)
      requires Addressed(database) && Closed(database.Keys) && IsTrie(root) && Ranked(rank)
      ensures Valid() && this.database == database && this.leaf == leaf && this.emptyState == emptyState && this.rank == rank
      ensures batch == map[] && asked == {root} && issued == {} && order == []
      ensures base == database.Keys && log.eager == (if callback then {root} else {})
      ensures log.bare == if callback then {} else {root}
      ensures requests == if root == EMPTY_ROOT || root in database then map[]
                          else map[root := Request(false, None, [], 0, 0, callback)]
    {
      this.leaf, this.emptyState, this.database, this.room, this.rank := leaf, emptyState, database, room, rank;
      requests, batch, order, queue := map[], map[], [], [];
      ids, issued, asked, base, writes, log := [], {}, {}, database.Keys, [], Log({}, {}, {}, {});
      new;
      hide Below, Decode, IsTrie, Ranked, Closed, Consistent, Heard, Durable, QueueOk, AskedOk;
      Start(rank, database, emptyState);
      HeardStart(leaf, database.Keys);
      assert Known() == database.Keys;
      AddSubTrie(root, 0, Zero, callback, {});
    }

    // ---------- handing out ----------

    /**
     Takes up to max hashes from the queue, all of them for max 0, deepest first. No hash is
     ever handed out twice.
     */
    method Missing(max: int) returns (hashes: seq<Hash>, ghost jobs: seq<Job>)
      requires Valid()
      modifies `queue, `issued
      ensures Valid()
      ensures |hashes| == if max == 0 || max >= |old(queue)| then |old(queue)| else if max < 0 then 0 else max
      ensures Taken(old(queue), old(issued), queue, issued, hashes, jobs)
      ensures forall job | job in jobs && job.hash in requests :: job.priority == requests[job.hash].depth
    {
      hide Consistent, Heard, Durable, Ranked, Below, QueueOk, AskedOk, Taken;
      hashes, jobs := [], [];
      TakenNone(queue, issued);
      while queue != [] && (max == 0 || |hashes| < max)
        invariant QueueOk(queue, issued, requests, Known())
        invariant |hashes| + |queue| == |old(queue)| && (max > 0 ==> |hashes| <= max) && (max < 0 ==> hashes == [])
        invariant Taken(old(queue), old(issued), queue, issued, hashes, jobs)
        invariant forall job | job in jobs && job.hash in requests :: job.priority == requests[job.hash].depth
        decreases |queue|
      {
        BestExists(queue);
        var i :| 0 <= i < |queue| && Best(queue, i);
        var job := queue[i];
        Popped(queue, issued, requests, Known(), i);
        JobDepth(queue, issued, requests, Known(), job);
        TakenNext(old(queue), old(issued), queue, issued, hashes, jobs, i);
        queue, issued := queue[..i] + queue[i + 1..], issued + {job.hash};
        hashes, jobs := hashes + [job.hash], jobs + [job];
      }
    }

    // ---------- scheduling ----------

    /** A request for an unknown hash; one for a hash that is already pending only adds its parents there. */
    method Schedule(h: Hash, req: Request, ghost owed: multiset<Hash>, ghost open: set<Hash>)
      requires Holds(owed, open) && h !in Known() && Startable(h, req)
      requires multiset(req.parents) <= owed && forall p | p in req.parents :: rank(h) < rank(p)
      requires h in requests || req.callback || Within(log.bare, h)
      modifies `requests, `ids, `queue, `log
      ensures Holds(owed - multiset(req.parents), open)
      ensures requests == Scheduled(old(requests), h, req)
      ensures log == if h in old(requests) then old(log) else Requesting(old(log), h, req.callback)
      ensures queue == if h in old(requests) then old(queue) else old(queue) + [Job(h, req.depth)]
    {
      hide Consistent, Heard, Durable, Ranked, Below, QueueOk;
      SyncStates.Schedule(rank, requests, ids, batch, order, database.Keys, owed, open, h, req);
      HeardSchedule(log, leaf, asked, base, requests, Known(), open, h, req);
      if h in requests {
        var pending := requests[h];
        QueueSame(queue, issued, requests, Known(), Scheduled(requests, h, req));
        requests := requests[h := pending.(parents := pending.parents + req.parents)];
        return;
      }
      Pushed(queue, issued, requests, Known(), h, req);
      queue := queue + [Job(h, req.depth)];
      requests, ids := requests[h := req], ids + [h];
      log := Requesting(log, h, req.callback);
    }

    /** Notes that a root was asked for, with a callback or without. */
    ghost method Ask(root: Hash, callback: bool, open: set<Hash>)
      requires Holds(multiset{}, open)
      requires root in requests || root in Known() || root == EMPTY_ROOT || (!callback && root == emptyState)
      modifies `asked, `log
      ensures Holds(multiset{}, open) && asked == old(asked) + {root} && log == Asking(old(log), root, callback)
    {
      hide Consistent, Heard, Durable, Ranked, Below, QueueOk;
      if callback {
        MoreEager(log, leaf, asked, base, requests, Known(), open, root);
      } else {
        MoreBare(log, leaf, asked, base, requests, Known(), open, root);
      }
      log := Asking(log, root, callback);
      MoreAsked(log, leaf, asked, asked + {root}, base, requests, Known(), open);
      asked := asked + {root};
    }

    /** Schedules a request, linked to a parent unless that is the zero hash. */
    method Add(h: Hash, req: Request, parent: Hash, ghost open: set<Hash>)
      requires Holds(multiset{}, open) && h !in Known() && Startable(h, req) && req.parents == []
      requires parent != Zero ==> parent in requests && requests[parent].data.Some? && rank(h) < rank(parent)
      modifies `requests, `ids, `queue, `asked, `log
      ensures Holds(multiset{}, open)
      ensures requests == Added(old(requests), h, req, parent) && asked == old(asked) + {h}
      ensures SameRoots(log, Asking(old(log), h, req.callback))
    {
      hide Consistent, Heard, Durable, Ranked, Below, QueueOk, AskedOk;
      var linked := req;
      ghost var owed: multiset<Hash> := multiset{};
      if !req.callback {
        MoreBare(log, leaf, asked, base, requests, Known(), open, h);
        log := log.(bare := log.bare + {h});
      }
      if parent != Zero {
        HeardSame(log, leaf, asked, base, requests, Indebted(requests, parent, 1), Known(), open);
        Owe(rank, requests, ids, batch, order, database.Keys, owed, open, parent, 1);
        QueueSame(queue, issued, requests, Known(), Indebted(requests, parent, 1));
        AskedSame(asked, emptyState, requests, Indebted(requests, parent, 1), Known());
        owed := owed[parent := owed[parent] + 1];
        requests := requests[parent := requests[parent].(deps := requests[parent].deps + 1)];
        linked := req.(parents := [parent]);
        assert multiset(linked.parents) == owed;
      }
      Schedule(h, linked, owed, open);
      assert owed - multiset(linked.parents) == multiset{};
      Ask(h, req.callback, open);
    }

    /**
     Registers a trie for download, under a parent when called from a leaf callback. Nothing
     happens for the empty trie and for a root that is known.
     */
    method AddSubTrie(root: Hash, depth: int, parent: Hash, callback: bool, ghost open: set<Hash>)
      requires Holds(multiset{}, open) && IsTrie(root)
      requires parent != Zero ==> parent in requests && requests[parent].data.Some? && rank(root) < rank(parent)
      modifies `requests, `ids, `queue, `asked, `log
      ensures Holds(multiset{}, open) && asked == old(asked) + {root} && SameRoots(log, Asking(old(log), root, callback))
      ensures requests == if root == EMPTY_ROOT || root in Known() then old(requests)
                          else Added(old(requests), root, Request(false, None, [], depth, 0, callback), parent)
    {
      hide Consistent, Heard, Below, QueueOk, Decode;
      if root == EMPTY_ROOT || root in batch {
        Ask(root, callback, open);
        return;
      }
      if root in database && Decode(root, database[root], 0).Some? {
        Ask(root, callback, open);
        return;
      }
      Add(root, Request(false, None, [], depth, 0, callback), parent, open);
    }

    /** Registers an entry that is stored as it is. */
    method AddRawEntry(h: Hash, depth: int, parent: Hash, ghost open: set<Hash>)
      requires Holds(multiset{}, open) && Below(h) == []
      requires parent != Zero ==> parent in requests && requests[parent].data.Some? && rank(h) < rank(parent)
      modifies `requests, `ids, `queue, `asked, `log
      ensures Holds(multiset{}, open) && asked == old(asked) + {h} && SameRoots(log, Asking(old(log), h, false))
      ensures requests == if h == emptyState || h in Known() then old(requests)
                          else Added(old(requests), h, Request(true, None, [], depth, 0, false), parent)
    {
      hide Consistent, Heard, Durable, Ranked, Below, QueueOk;
      if h == emptyState || h in batch || h in database {
        Ask(h, false, open);
        return;
      }
      Add(h, Request(true, None, [], depth, 0, false), parent, open);
    }

    // ---------- the children of a delivered node ----------

    /** Calls the leaf callback for one value; the callback may ask for more entries below the node. */
    method Notify(value: Bytes, h: Hash) returns (ok: bool)
      requires Holds(multiset{}, {h}) && h in requests && requests[h].data.Some? && CallsOk(rank, leaf(value, h).calls, h)
      modifies `requests, `ids, `queue, `asked, `log
      ensures Holds(multiset{}, {h}) && Extended(old(requests), requests)
      ensures requests == AddedAll(old(requests), Additions(leaf(value, h).calls, Known(), emptyState), h)
      ensures SameRoots(log, AskingAll(old(log), leaf(value, h).calls))
      ensures asked == old(asked) + Roots(leaf(value, h).calls) && ok == !leaf(value, h).failed
    {
      hide Consistent, Heard, Durable, Below, Ranked, QueueOk, AskedOk, IsTrie, Extended, Roots, Added, Adds, CallOk;
      hide SameRoots, Asking;
      var reply := leaf(value, h);
      ExtendedSame(requests, h);
      assert Roots(reply.calls[..0]) == {} by { RootsNone(reply.calls); }
      assert SameRoots(log, AskingAll(log, reply.calls[..0])) by { AskingNone(log, reply.calls); }
      for j := 0 to |reply.calls|
        invariant Holds(multiset{}, {h}) && Extended(old(requests), requests)
        invariant h in requests && requests[h].data.Some?
        invariant requests == AddedAll(old(requests), Additions(reply.calls[..j], Known(), emptyState), h)
        invariant asked == old(asked) + Roots(reply.calls[..j]) && SameRoots(log, AskingAll(old(log), reply.calls[..j]))
      {
        assert CallOk(rank, reply.calls[j], h);
        ghost var r1 := requests;
        RootsNext(reply.calls, j);
        AdditionsNext(old(requests), reply.calls, j, Known(), emptyState, h);
        AskingNext(old(log), log, reply.calls, j);
        Serve(reply.calls[j], h);
        ExtendedMore(old(requests), r1, requests, h);
      }
      assert reply.calls[..|reply.calls|] == reply.calls;
      ok := !reply.failed;
    }

    /** One call that the leaf callback makes. */
    method Serve(call: Call, h: Hash)
      requires Holds(multiset{}, {h}) && h in requests && requests[h].data.Some? && CallOk(rank, call, h)
      modifies `requests, `ids, `queue, `asked, `log
      ensures Holds(multiset{}, {h}) && Extended(old(requests), requests) && asked == old(asked) + {call.root}
      ensures SameRoots(log, Asking(old(log), call.root, Watching(call)))
      ensures requests == if Adds(call, Known(), emptyState) then Added(old(requests), call.root, CallRequest(call), h)
                          else old(requests)
    {
      hide Consistent, Heard, Durable, Below, Ranked, QueueOk, AskedOk, IsTrie, Extended;
      HasData(rank, requests, ids, batch, order, database.Keys, multiset{}, {h}, h);
      AddedExtends(requests, call.root, CallRequest(call), h);
      match call
      case SubTrie(root, depth, callback) =>
        AddSubTrie(root, depth, h, callback, {h});
      case RawEntry(entry, depth) =>
        AddRawEntry(entry, depth, h, {h});
    }

    /** The children of a node that need a look, and how deep they are. */
    method Gather(h: Hash, node: Node, depth: int) returns (kids: seq<Node>, below: int)
      requires node.ShortNode? || (node.FullNode? && |node.kids| == 17)
      ensures HashKids(kids) == HashKids(Childs(node)) && Served(leaf, kids, h) == Served(leaf, Childs(node), h)
      ensures FailsFor(leaf, kids, h) <==> FailsFor(leaf, Childs(node), h)
      ensures forall n | n in kids :: n in Childs(node)
      ensures below == depth + if node.ShortNode? then |node.key| else 1
    {
      if node.ShortNode? {
        return [node.val], depth + |node.key|;
      }
      hide HashKids, Served, FailsFor;
      kids, below := [], depth + 1;
      EmptyKids(leaf, h);
      for i := 0 to 17
        invariant HashKids(kids) == HashKids(node.kids[..i]) && Served(leaf, kids, h) == Served(leaf, node.kids[..i], h)
        invariant forall n | n in kids :: n in node.kids
        invariant FailsFor(leaf, kids, h) <==> FailsFor(leaf, node.kids[..i], h)
      {
        assert node.kids[..i + 1] == node.kids[..i] + [node.kids[i]];
        HashKidsLast(node.kids[..i], node.kids[i]);
        ServedLast(leaf, node.kids[..i], node.kids[i], h);
        if node.kids[i] != Nil {
          HashKidsLast(kids, node.kids[i]);
          ServedLast(leaf, kids, node.kids[i], h);
          kids := kids + [node.kids[i]];
        }
      }
      assert node.kids[..17] == node.kids;
    }

    /** children: tells the callback about values, and collects the hashes that are not known yet. */
    method Children(h: Hash, node: Node) returns (jobs: seq<Job>, ok: bool)
      requires Holds(multiset{}, {h}) && h in requests && requests[h].data.Some?
      requires node.ShortNode? || (node.FullNode? && |node.kids| == 17)
      requires requests[h].callback ==> AsksOk(rank, leaf, Childs(node), h)
      modifies `requests, `ids, `queue, `asked, `log
      ensures Holds(multiset{}, {h}) && Extended(old(requests), requests)
      ensures ok <==> !(old(requests)[h].callback && FailsFor(leaf, Childs(node), h))
      ensures ok ==> Hashes(jobs) == Unknown(HashKids(Childs(node)), Known())
      ensures forall job | job in jobs :: job.priority == old(requests)[h].depth + if node.ShortNode? then |node.key| else 1
      ensures old(requests)[h].callback ==>
                && requests == AddedAll(old(requests), Additions(Served(leaf, Childs(node), h), Known(), emptyState), h)
                && asked == old(asked) + Roots(Served(leaf, Childs(node), h))
                && SameRoots(log, AskingAll(old(log), Served(leaf, Childs(node), h)))
      ensures !old(requests)[h].callback ==> requests == old(requests) && asked == old(asked) && log == old(log)
    {
      hide Consistent, Heard, Durable, Below, QueueOk, AskedOk, Extended, Ranked, HashKids, Served, FailsFor;
      hide Unknown, Hashes, Additions, AddedAll, Roots, CallsOk, SameRoots, AskingAll;
      var req := requests[h];
      var kids, depth := Gather(h, node, req.depth);
      jobs := [];
      ChildrenStart(requests, leaf, h, Known(), emptyState);
      NothingServed(log, leaf, h);
      ExtendedSame(requests, h);
      for i := 0 to |kids|
        invariant Holds(multiset{}, {h}) && Extended(old(requests), requests)
        invariant h in requests && requests[h].data.Some?
        invariant Hashes(jobs) == Unknown(HashKids(kids[..i]), Known()) && forall job | job in jobs :: job.priority == depth
        invariant req.callback ==>
                    && requests == AddedAll(old(requests), Additions(Served(leaf, kids[..i], h), Known(), emptyState), h)
                    && asked == old(asked) + Roots(Served(leaf, kids[..i], h)) && !FailsFor(leaf, kids[..i], h)
                    && SameRoots(log, AskingAll(old(log), Served(leaf, kids[..i], h)))
        invariant !req.callback ==> requests == old(requests) && asked == old(asked) && log == old(log)
      {
        var kid := kids[i];
        assert kids[..i + 1] == kids[..i] + [kid];
        ChildrenNext(kids[..i], kid, Known(), jobs, depth);
        if req.callback { CallsNext(old(requests), leaf, kids[..i], kid, h, Known(), emptyState); }
        if !kid.Value? { ServedSkip(leaf, kids[..i], kid, h); }
        if req.callback && kid.Value? {
          ghost var r1, l1 := requests, log;
          var fine := Notify(kid.bytes, h);
          ExtendedMore(old(requests), r1, requests, h);
          AskingMore(old(log), l1, log, leaf, kids[..i], kid, h);
          if !fine {
            FailsForSome(leaf, kids, i + 1, h);
            return [], false;
          }
        }
        if kid.HashNode? && kid.hash !in batch && kid.hash !in database {
          jobs := jobs + [Job(kid.hash, depth)];
        }
      }
      assert kids[..|kids|] == kids;
      ok := true;
    }

    /** Makes a delivered node wait for its unknown children. */
    method ScheduleAll(h: Hash, jobs: seq<Job>)
      requires Holds(multiset{}, {h}) && h in requests && requests[h].data.Some?
      requires forall c | c in Hashes(jobs) :: c in Below(h) && c !in Known()
      modifies `requests, `ids, `queue, `log
      ensures Holds(multiset{}, {h}) && Extended(old(requests), requests)
      ensures requests[h].deps == old(requests[h].deps) + |jobs|
      ensures forall c | c in Hashes(jobs) :: Handled(requests, Known(), h, c)
      ensures requests == ScheduledAll(Indebted(old(requests), h, |jobs|), h, jobs, old(requests)[h].callback)
      ensures forall x | x in requests && x !in old(requests) :: AsJob(requests[x], x, jobs, old(requests)[h].callback)
      ensures SameRoots(log, old(log)) && (h in log.watched <==> h in old(log.watched))
    {
      hide Sync.Holds, Below, Extended, Handled, Indebted, Scheduled, Hashes, Times, ChildRequest, AsJob;
      var n := |jobs|;
      var callback := requests[h].callback;
      ghost var r0, l0 := requests, log;
      Await(h, n);
      assert jobs[..0] == [];
      for j := 0 to n
        invariant Holds(Times(h, n - j), {h}) && Extended(r0, requests)
        invariant requests == ScheduledAll(Indebted(r0, h, n), h, jobs[..j], callback)
        invariant h in requests && requests[h].data.Some? && requests[h].deps == r0[h].deps + n
        invariant requests[h].callback == callback
        invariant forall x | x in requests && x !in r0 :: AsJob(requests[x], x, jobs, callback)
        invariant SameRoots(log, l0) && (h in log.watched <==> h in l0.watched)
        invariant forall i | 0 <= i < j :: Handled(requests, Known(), h, jobs[i].hash)
      {
        JobHash(jobs, j);
        ghost var r2 := requests;
        ScheduleKid(h, jobs[j], callback, n - j);
        ScheduleStep(r0, r2, requests, h, Known(), jobs, j);
        ScheduleFlags(r0, r2, requests, h, jobs, j, callback);
        assert jobs[..j + 1][..j] == jobs[..j];
      }
      TimesNone(h);
      assert jobs[..n] == jobs;
      forall c | c in Hashes(jobs) ensures Handled(requests, Known(), h, c) {
        var i := JobOf(jobs, c);
      }
    }

    /** Raises the counter of the open request by n children to come. */
    method Await(h: Hash, n: nat)
      requires Holds(multiset{}, {h}) && h in requests && requests[h].data.Some?
      modifies `requests
      ensures Holds(Times(h, n), {h}) && requests == Indebted(old(requests), h, n)
      ensures Extended(old(requests), requests) && h in requests && requests[h].data.Some?
      ensures requests[h].deps == old(requests[h].deps) + n
      ensures requests.Keys == old(requests).Keys && requests[h].callback == old(requests)[h].callback
    {
      hide Consistent, Heard, Durable, Below, QueueOk, Ranked, Extended, AskedOk;
      ghost var r0 := requests;
      Owe(rank, requests, ids, batch, order, database.Keys, multiset{}, {h}, h, n);
      HeardSame(log, leaf, asked, base, requests, Indebted(requests, h, n), Known(), {h});
      QueueSame(queue, issued, requests, Known(), Indebted(requests, h, n));
      assert multiset{}[h := multiset{}[h] + n] == Times(h, n);
      requests := requests[h := requests[h].(deps := requests[h].deps + n)];
      AskedSame(asked, emptyState, r0, requests, Known());
      IndebtedExtends(r0, h, n);
    }

    /** Schedules one unknown child of a node whose counter includes n children to come. */
    method ScheduleKid(h: Hash, job: Job, callback: bool, ghost n: nat)
      requires n > 0 && Holds(Times(h, n), {h}) && h in requests && job.hash in Below(h) && job.hash !in Known()
      requires callback == requests[h].callback
      modifies `requests, `ids, `queue, `log
      ensures Holds(Times(h, n - 1), {h}) && Extended(old(requests), requests)
      ensures requests[h].deps == old(requests[h].deps) && Handled(requests, Known(), h, job.hash)
      ensures requests == Scheduled(old(requests), job.hash, ChildRequest(h, job, callback))
      ensures SameRoots(log, old(log)) && (h in log.watched <==> h in old(log.watched))
    {
      hide Consistent, Heard, Durable, Below, QueueOk, Ranked, Extended, AskedOk;
      var req := Request(false, None, [h], job.priority, 0, callback);
      KidLower(rank, h, job.hash);
      KidWatched(this, Times(h, n), {h}, h, job.hash);
      assert multiset(req.parents) <= Times(h, n) && Times(h, n) - multiset(req.parents) == Times(h, n - 1);
      ScheduledExtends(requests, job.hash, req);
      Schedule(job.hash, req, Times(h, n), {h});
    }

    // ---------- delivering ----------

    /** Takes the data of one hash. */
    method ProcessOne(item: Result) returns (committed: bool, failure: Failure)
      requires Valid() && item.hash.Of? && item.data == item.hash.pre
      requires item.hash in requests && requests[item.hash].callback ==> Fit(rank, leaf, item.hash)
      modifies `requests, `ids, `queue, `asked, `batch, `order, `log
      ensures if failure == CallbackFailed then Holds(multiset{}, {item.hash}) else Valid()
      ensures failure == NotRequested <==> item.hash !in old(requests)
      ensures failure == AlreadyProcessed <==> item.hash in old(requests) && old(requests)[item.hash].data.Some?
      ensures failure == Malformed <==>
                Awaited(old(requests), item.hash) && Decode(item.hash, item.data, 0).None?
      ensures failure == CallbackFailed <==>
                && Awaited(old(requests), item.hash) && Decode(item.hash, item.data, 0).Some?
                && old(requests)[item.hash].callback && FailsFor(leaf, Childs(Decode(item.hash, item.data, 0).value), item.hash)
      ensures failure in {NoFailure, CallbackFailed} ==>
                && asked == old(asked) + Roots(CallsFor(leaf, old(requests)[item.hash], item.hash))
                && SameRoots(log, AskingAll(old(log), CallsFor(leaf, old(requests)[item.hash], item.hash)))
      ensures failure in {NotRequested, AlreadyProcessed, Malformed} ==> unchanged(this) && !committed
      ensures failure in {NoFailure, CallbackFailed} ==> Arrived(requests, Known(), item.hash)
      ensures failure == CallbackFailed ==>
                && Known() == old(Known()) && order == old(order)
                && requests == AfterCalls(old(requests), leaf, item.hash, Known(), emptyState)
      ensures failure == CallbackFailed ==>
                (Valid() <==> Recoverable(leaf, old(requests)[item.hash], item.hash, old(Known()), emptyState))
      ensures failure == NoFailure ==>
                (committed <==> Idle(leaf, old(requests)[item.hash], item.hash, old(Known()), emptyState))
      ensures failure == NoFailure && !committed ==>
                && item.hash in requests && requests[item.hash].deps > 0 && Known() == old(Known())
                && requests == AfterNode(old(requests), leaf, item.hash, Known(), emptyState)
      ensures failure == NoFailure ==>
                forall x | x in requests && x !in old(requests) && !AskedIn(leaf, old(requests)[item.hash], item.hash, x) ::
                  Inherits(requests[x], old(requests)[item.hash], item.hash)
      ensures Advanced(old(requests), old(Known()), requests, Known())
      ensures old(order) <= order && (committed ==> item.hash in batch && failure == NoFailure)
      ensures committed ==>
                requests.Keys <= old(requests).Keys - {item.hash} && requests.Keys + Known() == old(requests.Keys + Known())
      ensures committed <==> order != old(order)
    {
      hide Consistent, Heard, Durable, Below, QueueOk, AskedOk, Ranked, Decode, Advanced, FailsFor, Childs, Arrived, Roots;
      hide CallsFor, AfterCalls, AfterNode, Recoverable, Idle, AsksOk, Sync.Holds, SameRoots, AskingAll, AskedIn, Inherits;
      var h := item.hash;
      AdvancedSame(requests, Known());
      if h !in requests { return false, NotRequested; }
      var request := requests[h];
      if request.data.Some? { return false, AlreadyProcessed; }
      if request.raw {
        RawServes(log, leaf, request, h);
        TakeRaw(h);
        return true, NoFailure;
      }
      var node := Decode(h, item.data, 0);
      if node.None? { return false, Malformed; }
      var ok;
      committed, ok := TakeNode(h, node.value);
      failure := if ok then NoFailure else CallbackFailed;
    }

    /** Takes the data of a raw entry, which is complete with that. */
    method TakeRaw(h: Hash)
      requires Valid() && h in requests && requests[h].data.None? && requests[h].raw && h.Of?
      modifies `requests, `ids, `batch, `order
      ensures Valid() && Advanced(old(requests), old(Known()), requests, Known()) && Arrived(requests, Known(), h)
      ensures Idle(leaf, old(requests)[h], h, old(Known()), emptyState) && Roots(CallsFor(leaf, old(requests)[h], h)) == {}
      ensures old(order) < order && h in batch
      ensures requests.Keys <= old(requests).Keys - {h} && requests.Keys + Known() == old(requests.Keys + Known())
    {
      hide Consistent, Heard, Durable, Below, QueueOk, AskedOk, Ranked, Extended, Advanced, Arrived, CallsFor, Idle;
      ghost var r0, k0 := requests, Known();
      Deliver(rank, requests, ids, batch, order, database.Keys, h);
      QueueDelivered(queue, issued, asked, emptyState, requests, k0, h, h.pre);
      HeardDeliver(log, leaf, asked, base, requests, k0, h, h.pre);
      RawPlain(log, leaf, asked, base, requests, k0, {}, h);
      RawBelow(rank, requests, ids, batch, order, database.Keys, multiset{}, {}, h);
      RawIdle(leaf, r0[h], h, k0, emptyState);
      requests := requests[h := requests[h].(data := Some(h.pre))];
      ExtendedSame(requests, h);
      Finish(h, r0, k0);
    }

    /** Takes the data of a node: its callback may fail, and else it is complete or has to wait. */
    method TakeNode(h: Hash, node: Node) returns (committed: bool, ok: bool)
      requires Valid() && Awaited(requests, h) && h.Of? && Decode(h, h.pre, 0) == Some(node)
      requires requests[h].callback ==> Fit(rank, leaf, h)
      modifies `requests, `ids, `queue, `asked, `batch, `order, `log
      ensures if ok then Valid() else Holds(multiset{}, {h})
      ensures ok <==> !(old(requests)[h].callback && FailsFor(leaf, Childs(node), h))
      ensures asked == old(asked) + Roots(CallsFor(leaf, old(requests)[h], h))
      ensures SameRoots(log, AskingAll(old(log), CallsFor(leaf, old(requests)[h], h)))
      ensures ok ==> forall x | x in requests && x !in old(requests) && !AskedIn(leaf, old(requests)[h], h, x) ::
                       Inherits(requests[x], old(requests)[h], h)
      ensures Arrived(requests, Known(), h) && Advanced(old(requests), old(Known()), requests, Known())
      ensures !ok ==>
                && !committed && Known() == old(Known()) && order == old(order)
                && requests == AfterCalls(old(requests), leaf, h, Known(), emptyState)
                && (Valid() <==> Recoverable(leaf, old(requests)[h], h, old(Known()), emptyState))
      ensures ok ==> (committed <==> Idle(leaf, old(requests)[h], h, old(Known()), emptyState))
      ensures committed ==> old(order) < order && h in batch
      ensures committed ==> requests.Keys <= old(requests).Keys - {h} && requests.Keys + Known() == old(requests.Keys + Known())
      ensures ok && !committed ==>
                && h in requests && requests[h].deps > 0 && Known() == old(Known()) && order == old(order)
                && requests == AfterNode(old(requests), leaf, h, Known(), emptyState)
    {
      hide Consistent, Heard, Durable, Below, QueueOk, AskedOk, Ranked, Decode, Extended, Advanced, Handled, FailsFor;
      hide Childs, Arrived;
      hide CallsFor, AfterCalls, Recoverable, Idle, AsksOk, KidJobs, Hashes, Roots, HashKids, Unknown, AskingAll;
      hide AskedIn, Told, Inherits, AsJob;
      ghost var r0, k0, ids0 := requests, Known(), ids;
      var jobs;
      jobs, ok := Call(h, node);
      Called(r0, leaf, h, k0, emptyState, requests, jobs);
      CalledNew(r0, leaf, h, k0, emptyState, requests);
      HeardClose(log, leaf, asked, base, requests, Known(), h);
      if !ok {
        FailedExactly(rank, r0, ids0, leaf, h, emptyState, requests, ids, batch, order, database.Keys);
        return false, false;
      }
      if jobs == [] && requests[h].deps == 0 {
        IdleKeys(r0, leaf, h, k0, emptyState);
        Finish(h, r0, k0);
        return true, true;
      }
      ghost var r2 := requests;
      Wait(h, jobs, r0);
      forall x | x in requests && x !in r2 ensures Inherits(requests[x], r0[h], h) {
        KidInherits(requests[x], r0[h], h, x, k0);
      }
      committed := false;
    }

    /** Makes a node wait for its unknown children. */
    method Wait(h: Hash, jobs: seq<Job>, ghost r0: Requests)
      requires Holds(multiset{}, {h}) && h in r0 && h.Of? && h in requests && requests[h].data == Some(h.pre)
      requires Extended(r0[h := r0[h].(data := Some(h.pre))], requests) && (jobs != [] || requests[h].deps > 0)
      requires Decode(h, h.pre, 0).Some? && Hashes(jobs) == Unknown(HashKids(Childs(Decode(h, h.pre, 0).value)), Known())
      requires h in log.watched ==> Told(leaf, asked, h)
      modifies `requests, `ids, `queue, `log
      ensures Valid() && Arrived(requests, Known(), h) && Advanced(r0, Known(), requests, Known())
      ensures h in requests && requests[h].deps > 0
      ensures requests == ScheduledAll(Indebted(old(requests), h, |jobs|), h, jobs, old(requests)[h].callback)
      ensures forall x | x in requests && x !in old(requests) :: AsJob(requests[x], x, jobs, old(requests)[h].callback)
      ensures SameRoots(log, old(log))
    {
      hide Consistent, Heard, Durable, Below, QueueOk, AskedOk, Ranked, Decode, Extended, Moved, Advanced, Handled;
      hide Childs, Arrived;
      hide Hashes, HashKids, Unknown, ScheduledAll, Told, SameRoots, AsJob;
      ghost var r2 := requests;
      AllKids(h, Known(), jobs, requests);
      ScheduleAll(h, jobs);
      AllKids(h, Known(), jobs, requests);
      ExtendedMore(r0[h := r0[h].(data := Some(h.pre))], r2, requests, h);
      Close(rank, requests, ids, batch, order, database.Keys, h);
      HeardClose(log, leaf, asked, base, requests, Known(), h);
      MovedStart(requests, Known());
      AdvancedBy(r0, h, h.pre, requests, Known(), requests, Known());
    }

    /** Takes the data of a node and looks at its children. */
    method Call(h: Hash, node: Node) returns (jobs: seq<Job>, ok: bool)
      requires Valid() && Awaited(requests, h) && h.Of? && Decode(h, h.pre, 0) == Some(node)
      requires requests[h].callback ==> Fit(rank, leaf, h)
      modifies `requests, `ids, `queue, `asked, `log
      ensures Holds(multiset{}, {h}) && old(requests)[h].deps == 0
      ensures Extended(old(requests)[h := old(requests)[h].(data := Some(h.pre))], requests)
      ensures h in requests && requests[h].data == Some(h.pre) && Advanced(old(requests), Known(), requests, Known())
      ensures Arrived(requests, Known(), h)
      ensures ok <==> !(old(requests)[h].callback && FailsFor(leaf, Childs(node), h))
      ensures requests == AfterCalls(old(requests), leaf, h, Known(), emptyState)
      ensures asked == old(asked) + Roots(CallsFor(leaf, old(requests)[h], h))
      ensures SameRoots(log, AskingAll(old(log), CallsFor(leaf, old(requests)[h], h)))
      ensures (h in log.watched ==> Told(leaf, asked, h))
      ensures ok ==> jobs == KidJobs(old(requests)[h], h, Known())
    {
      hide Consistent, Heard, Durable, Below, QueueOk, AskedOk, Ranked, Decode, HashKids, Extended, Moved, Advanced;
      hide Unknown, Served, FailsFor, Childs, Additions, AddedAll, AsksOk, Hashes, Arrived, SameRoots, AskingAll, Told, Roots;
      ghost var r0 := requests;
      Deliver(rank, requests, ids, batch, order, database.Keys, h);
      QueueDelivered(queue, issued, asked, emptyState, requests, Known(), h, h.pre);
      HeardDeliver(log, leaf, asked, base, requests, Known(), h, h.pre);
      requests := requests[h := requests[h].(data := Some(h.pre))];
      ghost var r1 := requests;
      NodeShape(h, h.pre);
      jobs, ok := Children(h, node);
      NoAdditions(r1, h, Known(), emptyState);
      NoCalls(log);
      ExtendedAt(r1, requests, h);
      ToldNow(log, leaf, asked, base, r0, requests, Known(), {h}, h);
      MovedStart(requests, Known());
      AdvancedBy(r0, h, h.pre, requests, Known(), requests, Known());
      if ok { JobsAre(r0[h], h, Known(), jobs); }
    }

    /**
     Takes a batch of data, each item checked against its hash by the caller, up to the first
     that fails. Everything before that has arrived, and a failed item has changed nothing
     unless it was a leaf callback that failed. After that the scheduler is in order exactly
     if the callback had asked for something, every missing child included.
     */
    method Process(results: seq<Result>) returns (committed: bool, index: nat, failure: Failure)
      requires Valid() && forall r | r in results :: r.hash.Of? && r.data == r.hash.pre
      requires forall r | r in results :: Prepared(rank, leaf, requests, Known(), r.hash)
      modifies `requests, `ids, `queue, `asked, `batch, `order, `log
      ensures failure == NoFailure ==> Valid() && index == 0 && forall r | r in results :: Arrived(requests, Known(), r.hash)
      ensures failure != NoFailure ==> index < |results| && forall r | r in results[..index] :: Arrived(requests, Known(), r.hash)
      ensures failure in {NotRequested, AlreadyProcessed, Malformed} ==> Valid()
      ensures failure == NotRequested ==> results[index].hash !in requests
      ensures failure == AlreadyProcessed ==> results[index].hash in requests && requests[results[index].hash].data.Some?
      ensures failure == Malformed ==> Decode(results[index].hash, results[index].data, 0).None?
      ensures failure == CallbackFailed ==> Holds(multiset{}, {results[index].hash})
      ensures failure == CallbackFailed ==>
                && results[index].hash in requests
                && (Valid() <==> Recoverable(leaf, requests[results[index].hash], results[index].hash, Known(), emptyState))
      ensures Advanced(old(requests), old(Known()), requests, Known())
      ensures old(log.eager) <= log.eager && old(log.bare) <= log.bare <= old(log.bare) + BareRoots(leaf, results)
      ensures old(order) <= order && (committed <==> order != old(order))
    {
      hide Holds, Decode, Advanced, Arrived, Prepared, Recoverable, AfterCalls, AfterNode, Idle, CallsFor, FailsFor;
      hide SameRoots, AskingAll, BareRoots, AskedIn;
      committed := false;
      assert results[..0] == [];
      AdvancedSame(requests, Known());
      for i := 0 to |results|
        invariant Valid() && Advanced(old(requests), old(Known()), requests, Known())
        invariant forall j | 0 <= j < i :: Arrived(requests, Known(), results[j].hash)
        invariant forall j | i <= j < |results| :: Prepared(rank, leaf, requests, Known(), results[j].hash)
        invariant old(order) <= order && (committed <==> order != old(order))
        invariant old(log.eager) <= log.eager && old(log.bare) <= log.bare <= old(log.bare) + BareRoots(leaf, results[..i])
      {
        ghost var r1, k1, o1, l1 := requests, Known(), order, log;
        var done;
        Disjoint(this);
        PreparedFit(rank, leaf, r1, k1, results[i].hash);
        done, failure := ProcessOne(results[i]);
        AdvancedTrans(old(requests), old(Known()), r1, k1, requests, Known());
        assert results[..i + 1] == results[..i] + [results[i]];
        BareStep(leaf, results[..i], results[i], l1, log, r1, failure in {NoFailure, CallbackFailed});
        forall j | 0 <= j < i ensures Arrived(requests, Known(), results[j].hash) {
          ArrivedStays(r1, k1, requests, Known(), results[j].hash);
        }
        forall j | i < j < |results| ensures Prepared(rank, leaf, requests, Known(), results[j].hash) {
          PreparedStays(rank, leaf, r1, k1, requests, Known(), results[j].hash);
        }
        committed := committed || done;
        if failure == CallbackFailed {
          FailedFlags(r1, leaf, results[i].hash, Known(), emptyState);
        }
        if failure != NoFailure {
          BarePart(leaf, results, i + 1);
          return committed, i, failure;
        }
      }
      assert results[..|results|] == results;
      return committed, 0, NoFailure;
    }

    /** Completes the open request, whose children are all known. */
    method Finish(h: Hash, ghost r0: Requests, ghost k0: set<Hash>)
      requires Holds(multiset{}, {h}) && h.Of? && h in requests && requests[h].data == Some(h.pre) && requests[h].deps == 0
      requires k0 == Known() && h in r0 && Extended(r0[h := r0[h].(data := Some(h.pre))], requests)
      requires (forall c | c in Below(h) :: c in Known()) && (h in log.watched ==> Told(leaf, asked, h))
      modifies `requests, `ids, `batch, `order
      ensures requests.Keys <= old(requests).Keys - {h} && requests.Keys + Known() == old(requests.Keys + Known())
      ensures Valid() && Advanced(r0, k0, requests, Known()) && Arrived(requests, Known(), h)
      ensures old(order) < order && h in batch
    {
      hide Consistent, Heard, Durable, Below, QueueOk, AskedOk, Ranked, Extended, Moved, Advanced, Arrived, Told;
      ghost var r1 := requests;
      HeardClose(log, leaf, asked, base, requests, k0, h);
      CommitRequest(h, multiset{});
      HeardMoved(log, leaf, asked, base, r1, k0, requests, Known());
      MovedKeys(r1, k0, requests, Known());
      MovedQueue(queue, issued, asked, emptyState, r1, k0, requests, Known());
      AdvancedBy(r0, h, h.pre, r1, k0, requests, Known());
      Batched(rank, requests, ids, batch, order, database.Keys, old(order), h);
    }

    // ---------- writing out ----------

    /**
     Writes the completed nodes in their order and forgets them. After every single write the
     database is closed under children; a failed write leaves the rest for the next time.
     */
    method Commit() returns (written: nat, ok: bool)
      requires Valid()
      modifies `database, `writes, `room, `batch, `order
      ensures Valid() && Known() == old(Known())
      ensures written <= |old(order)| && writes == old(writes) + old(order)[..written]
      ensures ok <==> old(room) >= |old(order)|
      ensures ok ==> written == |old(order)| && order == []
      ensures !ok ==> written == old(room) && order == old(order) && batch == old(batch)
    {
      hide Consistent, Heard, Durable, Below, QueueOk, AskedOk, Ranked;
      ghost var d0, w0 := database.Keys, writes;
      assert d0 + Elems(order[..0]) == d0;
      for i := 0 to |order|
        invariant order == old(order) && batch == old(batch)
        invariant Durable(database, base, writes) && database.Keys == d0 + Elems(order[..i])
        invariant writes == w0 + order[..i] && room == old(room) - i
      {
        WriteReady(rank, requests, ids, batch, order, d0, i);
        if room == 0 {
          Flushed(rank, requests, ids, batch, order, d0, i);
          FlushKnown(rank, requests, ids, batch, order, d0, i);
          return i, false;
        }
        DurableWrite(database, base, writes, order[i]);
        assert order[..i + 1] == order[..i] + [order[i]];
        database, writes, room := database[order[i] := batch[order[i]]], writes + [order[i]], room - 1;
      }
      written, ok := |order|, true;
      assert order[..|order|] == order;
      Flushed(rank, requests, ids, batch, order, d0, |order|);
      WriteDone(rank, requests, ids, batch, order, d0);
      batch, order := map[], [];
      assert Known() == old(Known());
    }

    // ---------- completing ----------

    /** commit: completes a request, and then every parent that waited for nothing else. */
    method CommitRequest(h: Hash, ghost owed: multiset<Hash>)
      requires Consistent(rank, requests, ids, batch, order, database.Keys, owed, {h})
      requires h in requests && requests[h].data.Some? && requests[h].deps == 0
      requires forall c | c in Below(h) :: c in Known()
      modifies `requests, `ids, `batch, `order
      ensures Consistent(rank, requests, ids, batch, order, database.Keys, owed, {})
      ensures Moved(old(requests), old(Known()), requests, Known()) && h !in requests
      ensures old(order) + [h] <= order
      decreases |requests|, 0
    {
      hide Consistent, Below, Moved;
      var req := requests[h];
      ghost var r0, k0, o1 := requests, Known(), order + [h];
      Listed(rank, requests, ids, batch, order, database.Keys, owed, {h}, h);
      ghost var i := IndexOf(ids, h);
      Complete(rank, requests, ids, batch, order, database.Keys, owed, h, i);
      batch, order := batch[h := req.data.value], order + [h];
      requests, ids := requests - {h}, Without(ids, i);
      ghost var r1, k1 := requests, Known();
      MovedOne(r0, k0, h, r1, k1);
      Smaller(r0, r1, h);
      TellParents(req.parents, owed);
      MovedTrans(r0, k0, r1, k1, requests, Known());
      MovedKeys(r1, k1, requests, Known());
    }

    /** Tells the parents of a completed request, one after the other. */
    method TellParents(parents: seq<Hash>, ghost owed: multiset<Hash>)
      requires Consistent(rank, requests, ids, batch, order, database.Keys, owed + multiset(parents), {})
      modifies `requests, `ids, `batch, `order
      ensures Consistent(rank, requests, ids, batch, order, database.Keys, owed, {})
      ensures Moved(old(requests), old(Known()), requests, Known())
      ensures old(order) <= order
      decreases |requests|, 2
    {
      hide Consistent, Below, Moved;
      ghost var r0, k0, o0 := requests, Known(), order;
      MovedStart(r0, k0);
      assert parents[0..] == parents;
      for j := 0 to |parents|
        invariant Consistent(rank, requests, ids, batch, order, database.Keys, owed + multiset(parents[j..]), {})
        invariant Moved(r0, k0, requests, Known())
        invariant o0 <= order && |requests| <= |r0|
      {
        ghost var r1, k1, rest := requests, Known(), owed + multiset(parents[j + 1..]);
        TellNext(parents, j, owed);
        Tell(parents[j], rest);
        MovedTrans(r0, k0, r1, k1, requests, Known());
        MovedKeys(r1, k1, requests, Known());
        SubsetSize(requests.Keys, r1.Keys);
      }
      assert owed + multiset(parents[|parents|..]) == owed;
    }

    /** One parent fewer to wait for; the parent is completed when that was its last dependency. */
    method Tell(p: Hash, ghost owed: multiset<Hash>)
      requires Consistent(rank, requests, ids, batch, order, database.Keys, owed + multiset{p}, {})
      modifies `requests, `ids, `batch, `order
      ensures Consistent(rank, requests, ids, batch, order, database.Keys, owed, {})
      ensures Moved(old(requests), old(Known()), requests, Known())
      ensures old(order) <= order
      decreases |requests|, 1
    {
      hide Consistent, Below, Moved;
      ghost var r0, k0 := requests, Known();
      SettleOne(rank, requests, ids, batch, order, database.Keys, owed, p);
      requests := requests[p := requests[p].(deps := requests[p].deps - 1)];
      if requests[p].deps == 0 {
        ghost var r1 := requests;
        CommitRequest(p, owed);
        MovedTrans(r0, k0, r1, k0, requests, Known());
      }
    }
  }

  // ---------- requests that only grow ----------

  /** Requests were added, undelivered, and pending ones gained parents or dependencies. */
  ghost predicate Extended(a: Requests, b: Requests) {
    && (forall x | x in a :: x in b && b[x] == a[x].(parents := b[x].parents, deps := b[x].deps))
    && (forall x | x in a :: a[x].parents <= b[x].parents)
    && (forall x | x in b && x !in a :: b[x].data.None?)
  }

  lemma AddedExtends(reqs: Requests, h: Hash, r: Request, parent: Hash)
    requires (parent == Zero || parent in reqs) && r.data.None?
    ensures Extended(reqs, Added(reqs, h, r, parent)) && Extended(reqs, reqs)
  {
  }

  lemma ScheduledExtends(reqs: Requests, h: Hash, r: Request)
    requires r.data.None?
    ensures Extended(reqs, Scheduled(reqs, h, r)) && h in Scheduled(reqs, h, r)
    ensures forall p | p in r.parents :: p in Scheduled(reqs, h, r)[h].parents
  {
  }

  lemma ExtendedSame(a: Requests, h: Hash)
    ensures Extended(a, a)
  {
  }

  lemma ExtendedMore(a: Requests, b: Requests, c: Requests, h: Hash)
    requires Extended(a, b) && Extended(b, c) && h in b
    ensures Extended(a, c) && h in c && c[h].data == b[h].data
  {
  }

  lemma IndebtedExtends(reqs: Requests, h: Hash, n: nat)
    requires h in reqs
    ensures Extended(reqs, Indebted(reqs, h, n)) && Extended(Indebted(reqs, h, n), Indebted(reqs, h, n))
  {
  }

  /** The request for a child. */
  function ChildRequest(h: Hash, job: Job, callback: bool): Request {
    Request(false, None, [h], job.priority, 0, callback)
  }

  function ScheduledAll(reqs: Requests, h: Hash, jobs: seq<Job>, callback: bool): Requests {
    if jobs == [] then reqs
    else
      var job := jobs[|jobs| - 1];
      Scheduled(ScheduledAll(reqs, h, jobs[..|jobs| - 1], callback), job.hash, ChildRequest(h, job, callback))
  }

  /** A hash, a number of times. */
  function Times(h: Hash, n: nat): multiset<Hash> {
    multiset{}[h := n]
  }

  lemma TimesNone(h: Hash)
    ensures Times(h, 0) == multiset{}
  {
  }

  lemma JobHash(jobs: seq<Job>, j: nat)
    requires j < |jobs|
    ensures jobs[j].hash in Hashes(jobs)
  {
    assert Hashes(jobs)[j] == jobs[j].hash;
  }

  lemma JobOf(jobs: seq<Job>, c: Hash) returns (i: nat)
    requires c in Hashes(jobs)
    ensures i < |jobs| && jobs[i].hash == c
  {
    i :| 0 <= i < |jobs| && Hashes(jobs)[i] == c;
  }

  lemma AskedSame(asked: set<Hash>, emptyState: Hash, a: Requests, b: Requests, known: set<Hash>)
    requires AskedOk(asked, emptyState, a, known) && a.Keys <= b.Keys
    ensures AskedOk(asked, emptyState, b, known)
  {
  }

  lemma ScheduleStep(r0: Requests, r2: Requests, r3: Requests, h: Hash, known: set<Hash>, jobs: seq<Job>, j: nat)
    requires Extended(r0, r2) && Extended(r2, r3) && j < |jobs| && h in r2
    requires forall i | 0 <= i < j :: Handled(r2, known, h, jobs[i].hash)
    ensures Extended(r0, r3) && h in r3 && r3[h].data == r2[h].data
    ensures forall i | 0 <= i < j :: Handled(r3, known, h, jobs[i].hash)
  {
    forall i | 0 <= i < j ensures Handled(r3, known, h, jobs[i].hash) {
      assert Handled(r2, known, h, jobs[i].hash);
    }
  }

  /** A request that has its data is for a hash. */
  lemma HasData(rank: Rank, reqs: Requests, ids: seq<Hash>, batch: Store, order: seq<Hash>, disk: set<Hash>,
                owed: multiset<Hash>, open: set<Hash>, h: Hash)
    requires Consistent(rank, reqs, ids, batch, order, disk, owed, open) && h in reqs && reqs[h].data.Some?
    ensures h.Of?
  {
    hide Counters, Waits, Completed, Edges;
  }

  lemma AdditionsStep(calls: seq<Call>, j: nat, known: set<Hash>, emptyState: Hash)
    requires j < |calls|
    ensures Additions(calls[..j + 1], known, emptyState) ==
            Additions(calls[..j], known, emptyState) + if Adds(calls[j], known, emptyState) then [calls[j]] else []
  {
    hide Adds;
    assert calls[..j + 1][..j] == calls[..j];
  }

  lemma AddedAllStep(reqs: Requests, calls: seq<Call>, c: Call, h: Hash)
    requires h in reqs
    ensures AddedAll(reqs, calls + [c], h) == Added(AddedAll(reqs, calls, h), c.root, CallRequest(c), h)
  {
    hide Added;
    assert (calls + [c])[..|calls|] == calls;
  }

  lemma AdditionsNext(reqs: Requests, calls: seq<Call>, j: nat, known: set<Hash>, emptyState: Hash, h: Hash)
    requires h in reqs && j < |calls|
    ensures AddedAll(reqs, Additions(calls[..j + 1], known, emptyState), h) ==
            var r := AddedAll(reqs, Additions(calls[..j], known, emptyState), h);
            if Adds(calls[j], known, emptyState) then Added(r, calls[j].root, CallRequest(calls[j]), h) else r
  {
    hide Added, Adds, Additions, AddedAll;
    AdditionsStep(calls, j, known, emptyState);
    var a := Additions(calls[..j], known, emptyState);
    AddedAllStep(reqs, a, calls[j], h);
    assert a + [] == a;
  }

  lemma EmptyKids(leaf: Leaf, h: Hash)
    ensures HashKids([]) == [] && Served(leaf, [], h) == [] && !FailsFor(leaf, [], h)
  {
  }

  lemma ChildrenStart(reqs: Requests, leaf: Leaf, h: Hash, known: set<Hash>, emptyState: Hash)
    requires h in reqs
    ensures Hashes([]) == Unknown(HashKids([]), known) && !FailsFor(leaf, [], h) && Roots(Served(leaf, [], h)) == {}
    ensures AddedAll(reqs, Additions(Served(leaf, [], h), known, emptyState), h) == reqs
  {
  }

  lemma ChildrenNext(kids: seq<Node>, n: Node, known: set<Hash>, jobs: seq<Job>, depth: int)
    requires Hashes(jobs) == Unknown(HashKids(kids), known)
    ensures var more := if n.HashNode? && n.hash !in known then jobs + [Job(n.hash, depth)] else jobs;
            Hashes(more) == Unknown(HashKids(kids + [n]), known)
  {
    hide HashKids;
    HashKidsLast(kids, n);
    var last := if n.HashNode? then [n.hash] else [];
    UnknownJoin(HashKids(kids), last, known);
    assert n.HashNode? ==> last[1..] == [];
  }

  /** One more child, as far as the callback goes. */
  lemma CallsNext(reqs: Requests, leaf: Leaf, kids: seq<Node>, n: Node, h: Hash, known: set<Hash>, emptyState: Hash)
    requires h in reqs && !FailsFor(leaf, kids, h)
    ensures FailsFor(leaf, kids + [n], h) <==> n.Value? && leaf(n.bytes, h).failed
    ensures var a, b := Served(leaf, kids, h), Served(leaf, kids + [n], h);
            if n.Value? then
              && Roots(b) == Roots(a) + Roots(leaf(n.bytes, h).calls)
              && AddedAll(reqs, Additions(b, known, emptyState), h) ==
                 AddedAll(AddedAll(reqs, Additions(a, known, emptyState), h),
                          Additions(leaf(n.bytes, h).calls, known, emptyState), h)
            else b == a
  {
    hide Roots, Additions, AddedAll, Served, FailsFor;
    ServedLast(leaf, kids, n, h);
    var a := Served(leaf, kids, h);
    if n.Value? {
      var calls := leaf(n.bytes, h).calls;
      RootsJoin(a, calls);
      AdditionsJoin(a, calls, known, emptyState);
      AddedAllJoin(reqs, Additions(a, known, emptyState), Additions(calls, known, emptyState), h);
    } else {
      assert a + [] == a;
    }
  }

  /** The hashes that are not known yet, in order and with repetitions. */
  function Unknown(hs: seq<Hash>, known: set<Hash>): seq<Hash> {
    if hs == [] then [] else (if hs[0] in known then [] else [hs[0]]) + Unknown(hs[1..], known)
  }

  lemma {:induction false} UnknownJoin(a: seq<Hash>, b: seq<Hash>, known: set<Hash>)
    ensures Unknown(a + b, known) == Unknown(a, known) + Unknown(b, known)
  {
    if a == [] {
      assert a + b == b;
    } else {
      UnknownJoin(a[1..], b, known);
      assert (a + b)[1..] == a[1..] + b && (a + b)[0] == a[0];
    }
  }

  lemma {:induction false} UnknownAll(hs: seq<Hash>, known: set<Hash>, c: Hash)
    ensures c in Unknown(hs, known) <==> c in hs && c !in known
  {
    if hs != [] {
      UnknownAll(hs[1..], known, c);
      assert hs == [hs[0]] + hs[1..];
    }
  }

  lemma RootsNone(calls: seq<Call>)
    ensures Roots(calls[..0]) == {}
  {
  }

  lemma RootsNext(calls: seq<Call>, j: nat)
    requires j < |calls|
    ensures Roots(calls[..j + 1]) == Roots(calls[..j]) + {calls[j].root}
  {
    assert calls[..j + 1] == calls[..j] + [calls[j]];
    var more := Roots(calls[..j + 1]);
    assert calls[j] in calls[..j + 1];
    forall x | x in Roots(calls[..j]) ensures x in more {
      var c :| c in calls[..j] && c.root == x;
      assert c in calls[..j + 1];
    }
  }

  lemma KidLower(rank: Rank, h: Hash, c: Hash)
    requires Ranked(rank) && c in Below(h)
    ensures rank(c) < rank(h)
  {
  }

  // ---------- delivery ----------

  /** Nothing known, pending or delivered gets lost. */
  ghost predicate Advanced(a: Requests, ka: set<Hash>, b: Requests, kb: set<Hash>) {
    && ka <= kb && a.Keys + ka <= b.Keys + kb
    && (forall x | Arrived(a, ka, x) :: Arrived(b, kb, x))
    && (forall x | x in a :: x in kb || (x in b && b[x].callback == a[x].callback))
  }

  lemma AdvancedTrans(a: Requests, ka: set<Hash>, b: Requests, kb: set<Hash>, c: Requests, kc: set<Hash>)
    requires Advanced(a, ka, b, kb) && Advanced(b, kb, c, kc)
    ensures Advanced(a, ka, c, kc)
  {
  }

  lemma AdvancedBy(a: Requests, h: Hash, data: Item, b: Requests, known: set<Hash>, c: Requests, kc: set<Hash>)
    requires h in a && Extended(a[h := a[h].(data := Some(data))], b) && Moved(b, known, c, kc)
    ensures Advanced(a, known, c, kc) && Arrived(c, kc, h)
  {
    var d := a[h := a[h].(data := Some(data))];
    assert h in d && h in b;
    forall x | Arrived(a, known, x) ensures Arrived(c, kc, x) {
      if x in a { assert x in d && x in b; }
    }
    assert a.Keys <= b.Keys;
  }

  lemma QueueDelivered(queue: seq<Job>, issued: set<Hash>, asked: set<Hash>, emptyState: Hash, reqs: Requests, known: set<Hash>,
                       h: Hash, data: Item)
    requires QueueOk(queue, issued, reqs, known) && AskedOk(asked, emptyState, reqs, known) && h in reqs
    ensures var next := reqs[h := reqs[h].(data := Some(data))];
            QueueOk(queue, issued, next, known) && AskedOk(asked, emptyState, next, known)
  {
    var next := reqs[h := reqs[h].(data := Some(data))];
    assert next.Keys == reqs.Keys;
  }

  /** The jobs for hashes at one depth. */
  function Jobs(hs: seq<Hash>, depth: int): seq<Job> {
    seq(|hs|, i requires 0 <= i < |hs| => Job(hs[i], depth))
  }

  /** The jobs for the unknown children of a node. */
  function KidJobs(req: Request, h: Hash, known: set<Hash>): seq<Job>
    requires h.Of? && Decode(h, h.pre, 0).Some?
  {
    var node := Decode(h, h.pre, 0).value;
    Jobs(Unknown(Below(h), known), req.depth + if node.ShortNode? then |node.key| else 1)
  }

  lemma JobsAre(req: Request, h: Hash, known: set<Hash>, jobs: seq<Job>)
    requires h.Of? && Decode(h, h.pre, 0).Some?
    requires var node := Decode(h, h.pre, 0).value;
             && Hashes(jobs) == Unknown(HashKids(Childs(node)), known)
             && forall job | job in jobs :: job.priority == req.depth + if node.ShortNode? then |node.key| else 1
    ensures jobs == KidJobs(req, h, known)
  {
    hide Decode, HashKids, Childs, Unknown;
    RefsAreKids(h, h.pre);
    forall i | 0 <= i < |jobs| ensures Hashes(jobs)[i] == jobs[i].hash && jobs[i] in jobs { }
  }

  /** The requests once a node that has to wait has been taken in. */
  function AfterNode(reqs: Requests, leaf: Leaf, h: Hash, known: set<Hash>, emptyState: Hash): Requests
    requires h in reqs && h.Of?
  {
    if Decode(h, h.pre, 0).None? then reqs
    else
      var jobs := KidJobs(reqs[h], h, known);
      ScheduledAll(Indebted(AfterCalls(reqs, leaf, h, known, emptyState), h, |jobs|), h, jobs, reqs[h].callback)
  }

  /** A node has nothing to wait for: no child is unknown, and the callback adds nothing. */
  ghost predicate Idle(leaf: Leaf, req: Request, h: Hash, known: set<Hash>, emptyState: Hash) {
    Asks(leaf, req, h, known, emptyState) == [] && forall c | c in Below(h) :: c in known
  }

  lemma RawIdle(leaf: Leaf, req: Request, h: Hash, known: set<Hash>, emptyState: Hash)
    requires req.raw && Below(h) == []
    ensures Idle(leaf, req, h, known, emptyState) && Roots(CallsFor(leaf, req, h)) == {}
  {
  }

  lemma NoAdditions(reqs: Requests, h: Hash, known: set<Hash>, emptyState: Hash)
    requires h in reqs
    ensures AddedAll(reqs, Additions([], known, emptyState), h) == reqs && Roots([]) == {}
  {
  }

  /** After the calls: the node waits for what they added, and its jobs are for its unknown children. */
  lemma Called(r0: Requests, leaf: Leaf, h: Hash, known: set<Hash>, emptyState: Hash, reqs: Requests, jobs: seq<Job>)
    requires h in r0 && h.Of? && Decode(h, h.pre, 0).Some? && r0[h].deps == 0
    requires reqs == AfterCalls(r0, leaf, h, known, emptyState)
    ensures h in reqs && reqs[h].deps == |Asks(leaf, r0[h], h, known, emptyState)| && reqs[h].callback == r0[h].callback
    ensures jobs == KidJobs(r0[h], h, known) ==>
              && Hashes(jobs) == Unknown(HashKids(Childs(Decode(h, h.pre, 0).value)), known)
              && (forall c | c in Hashes(jobs) :: c in Below(h) && c !in known)
              && (jobs == [] <==> forall c | c in Below(h) :: c in known)
              && (jobs == [] && reqs[h].deps == 0 <==> Idle(leaf, r0[h], h, known, emptyState))
  {
    hide Decode, HashKids, Childs, Unknown, Asks, AddedAll;
    var asks, r1 := Asks(leaf, r0[h], h, known, emptyState), r0[h := r0[h].(data := Some(h.pre))];
    AddedAllWaits(r1, asks, h, h);
    AddedAllFlags(r1, asks, h);
    RefsAreKids(h, h.pre);
    if jobs == KidJobs(r0[h], h, known) {
      assert Hashes(jobs) == Unknown(Below(h), known);
      AllKids(h, known, jobs, reqs);
      forall c ensures c in Unknown(Below(h), known) <==> c in Below(h) && c !in known { UnknownAll(Below(h), known, c); }
      assert jobs != [] ==> Hashes(jobs)[0] in Unknown(Below(h), known);
    }
  }

  /** Fit for the callback, or not to be told to it. */
  ghost predicate Prepared(rank: Rank, leaf: Leaf, reqs: Requests, known: set<Hash>, h: Hash) {
    h in known || (h in reqs && !reqs[h].callback) || Fit(rank, leaf, h)
  }

  lemma PreparedFit(rank: Rank, leaf: Leaf, reqs: Requests, known: set<Hash>, h: Hash)
    requires Prepared(rank, leaf, reqs, known, h) && reqs.Keys !! known
    ensures h in reqs && reqs[h].callback ==> Fit(rank, leaf, h)
  {
  }

  lemma PreparedStays(rank: Rank, leaf: Leaf, a: Requests, ka: set<Hash>, b: Requests, kb: set<Hash>, h: Hash)
    requires Prepared(rank, leaf, a, ka, h) && Advanced(a, ka, b, kb)
    ensures Prepared(rank, leaf, b, kb, h)
  {
  }

  lemma Disjoint(sync: Sync)
    requires sync.Valid()
    ensures sync.requests.Keys !! sync.Known()
  {
    hide Completed, Counters, Edges, Waits, Delivered, Durable, QueueOk, AskedOk, Ranked;
  }

  /** A failing callback does not change what a request is for. */
  lemma FailedFlags(r0: Requests, leaf: Leaf, h: Hash, known: set<Hash>, emptyState: Hash)
    requires h in r0 && h.Of?
    ensures var reqs := AfterCalls(r0, leaf, h, known, emptyState);
            && h in reqs && (Recoverable(leaf, reqs[h], h, known, emptyState) <==> Recoverable(leaf, r0[h], h, known, emptyState))
  {
    hide Asks, AddedAll, Below;
    AddedAllFlags(r0[h := r0[h].(data := Some(h.pre))], Asks(leaf, r0[h], h, known, emptyState), h);
    AsksSame(leaf, r0[h], AfterCalls(r0, leaf, h, known, emptyState)[h], h, known, emptyState);
  }

  lemma AsksSame(leaf: Leaf, a: Request, b: Request, h: Hash, known: set<Hash>, emptyState: Hash)
    requires a.callback == b.callback && a.raw == b.raw
    ensures Asks(leaf, a, h, known, emptyState) == Asks(leaf, b, h, known, emptyState)
  {
  }

  lemma {:induction false} AddedAllFlags(reqs: Requests, calls: seq<Call>, h: Hash)
    requires h in reqs
    ensures var r := AddedAll(reqs, calls, h)[h]; r.callback == reqs[h].callback && r.raw == reqs[h].raw
  {
    if calls != [] { AddedAllFlags(reqs, calls[..|calls| - 1], h); }
  }

  /** When no child is unknown they are all known; when the unknown ones are handled they all are. */
  lemma AllKids(h: Hash, known: set<Hash>, jobs: seq<Job>, reqs: Requests)
    requires h.Of? && Decode(h, h.pre, 0).Some?
    requires Hashes(jobs) == Unknown(HashKids(Childs(Decode(h, h.pre, 0).value)), known)
    ensures forall c | c in Hashes(jobs) :: c in Below(h) && c !in known
    ensures jobs == [] ==> forall c | c in Below(h) :: c in known
    ensures (forall c | c in Hashes(jobs) :: Handled(reqs, known, h, c)) ==>
              forall c | c in Below(h) :: Handled(reqs, known, h, c)
  {
    hide Decode, HashKids, Childs;
    RefsAreKids(h, h.pre);
    var hs := HashKids(Childs(Decode(h, h.pre, 0).value));
    forall c ensures c in Hashes(jobs) <==> c in Below(h) && c !in known { UnknownAll(hs, known, c); }
  }

  lemma RawBelow(rank: Rank, reqs: Requests, ids: seq<Hash>, batch: Store, order: seq<Hash>, disk: set<Hash>,
                 owed: multiset<Hash>, open: set<Hash>, h: Hash)
    requires Consistent(rank, reqs, ids, batch, order, disk, owed, open) && h in reqs && reqs[h].raw
    ensures Below(h) == []
  {
    hide Counters, Waits, Completed;
  }

  lemma NodeShape(h: Hash, buf: Item)
    requires Decode(h, buf, 0).Some?
    ensures var n := Decode(h, buf, 0).value; n.ShortNode? || (n.FullNode? && |n.kids| == 17)
  {
    DecodedShape(h, buf);
  }

  lemma ArrivedStays(a: Requests, ka: set<Hash>, b: Requests, kb: set<Hash>, x: Hash)
    requires Advanced(a, ka, b, kb) && Arrived(a, ka, x)
    ensures Arrived(b, kb, x)
  {
  }

  lemma AdvancedSame(a: Requests, ka: set<Hash>)
    ensures Advanced(a, ka, a, ka)
  {
  }

  lemma ExtendedAt(a: Requests, b: Requests, h: Hash)
    requires Extended(a, b) && h in a
    ensures h in b && b[h].data == a[h].data && b[h].raw == a[h].raw && b[h].callback == a[h].callback
  {
  }

  lemma Batched(rank: Rank, reqs: Requests, ids: seq<Hash>, batch: Store, order: seq<Hash>, disk: set<Hash>,
                before: seq<Hash>, h: Hash)
    requires Consistent(rank, reqs, ids, batch, order, disk, multiset{}, {}) && before + [h] <= order
    ensures h in batch && before < order
  {
    hide Counters, Waits, Edges, Delivered;
    assert order[|before|] == (before + [h])[|before|] == h;
    assert h in Elems(order);
    assert before <= before + [h];
  }

  lemma WriteReady(rank: Rank, reqs: Requests, ids: seq<Hash>, batch: Store, order: seq<Hash>, disk: set<Hash>, i: nat)
    requires Consistent(rank, reqs, ids, batch, order, disk, multiset{}, {}) && i < |order|
    ensures order[i] in batch && order[i].Of? && batch[order[i]] == order[i].pre
    ensures forall c | c in Below(order[i]) :: c in disk + Elems(order[..i])
  {
    hide Counters, Waits, Edges, Delivered, Below;
    assert order[i] in Elems(order);
    assert Prior(order, disk, i);
  }

  lemma FlushKnown(rank: Rank, reqs: Requests, ids: seq<Hash>, batch: Store, order: seq<Hash>, disk: set<Hash>, i: nat)
    requires i <= |order| && Consistent(rank, reqs, ids, batch, order, disk, multiset{}, {})
    ensures batch.Keys + (disk + Elems(order[..i])) == batch.Keys + disk
  {
    hide Prior, Counters, Waits, Edges, Delivered;
    forall x | x in order[..i] ensures x in batch { assert x in Elems(order); }
  }

  lemma WriteDone(rank: Rank, reqs: Requests, ids: seq<Hash>, batch: Store, order: seq<Hash>, disk: set<Hash>)
    requires Consistent(rank, reqs, ids, batch, order, disk, multiset{}, {})
    ensures disk + Elems(order) == batch.Keys + disk
  {
    hide Counters, Waits, Edges, Delivered;
  }

  /** A node whose data has not arrived. */
  predicate Awaited(reqs: Requests, h: Hash) {
    h in reqs && reqs[h].data.None? && !reqs[h].raw
  }

  datatype Failure = NoFailure | NotRequested | AlreadyProcessed | Malformed | CallbackFailed

  datatype Result = Result(hash: Hash, data: Item)

  lemma TellNext(parents: seq<Hash>, j: nat, owed: multiset<Hash>)
    requires j < |parents|
    ensures owed + multiset(parents[j..]) == owed + multiset(parents[j + 1..]) + multiset{parents[j]}
  {
    assert parents[j..] == [parents[j]] + parents[j + 1..];
  }

  lemma SettleOne(rank: Rank, reqs: Requests, ids: seq<Hash>, batch: Store, order: seq<Hash>, disk: set<Hash>,
                  owed: multiset<Hash>, p: Hash)
    requires Consistent(rank, reqs, ids, batch, order, disk, owed + multiset{p}, {})
    ensures p in reqs && reqs[p].deps > 0
    ensures var left, known := reqs[p := reqs[p].(deps := reqs[p].deps - 1)], batch.Keys + disk;
            && left[p].data.Some? && |left| == |reqs| && Moved(reqs, known, left, known)
            && Consistent(rank, left, ids, batch, order, disk, owed, if left[p].deps == 0 then {p} else {})
            && (left[p].deps == 0 ==> forall c | c in Below(p) :: c in known)
  {
    hide Consistent, Below;
    assert owed + multiset{p} - multiset{p} == owed;
    Settle(rank, reqs, ids, batch, order, disk, owed + multiset{p}, p);
    MovedCounter(reqs, batch.Keys + disk, reqs, batch.Keys + disk, p, reqs[p].deps - 1);
  }

  lemma MovedStart(a: Requests, ka: set<Hash>)
    ensures Moved(a, ka, a, ka)
  {
  }

  lemma MovedOne(a: Requests, ka: set<Hash>, h: Hash, b: Requests, kb: set<Hash>)
    requires h in a && a[h].data.Some? && b == a - {h} && kb == ka + {h}
    ensures Moved(a, ka, b, kb)
  {
  }

  lemma MovedKeys(a: Requests, ka: set<Hash>, b: Requests, kb: set<Hash>)
    requires Moved(a, ka, b, kb)
    ensures b.Keys <= a.Keys && b.Keys + kb == a.Keys + ka
  {
  }

  lemma MovedCounter(r0: Requests, k0: set<Hash>, a: Requests, ka: set<Hash>, p: Hash, n: nat)
    requires Moved(r0, k0, a, ka) && p in a
    ensures Moved(r0, k0, a[p := a[p].(deps := n)], ka) && |a[p := a[p].(deps := n)]| == |a|
  {
    assert a[p := a[p].(deps := n)].Keys == a.Keys;
  }

  // ---------- what the callback is told ----------

  lemma KidWatched(sync: Sync, owed: multiset<Hash>, open: set<Hash>, h: Hash, c: Hash)
    requires sync.Holds(owed, open) && h in sync.requests && c in Below(h)
    ensures sync.requests[h].callback || Within(sync.log.bare, c)
  {
    hide Completed, Counters, Edges, Waits, Delivered, QueueOk, AskedOk, Ranked, AllTold, Within, Below;
    DurableBase(sync.database, sync.base, sync.writes);
    PlainKid(sync.log, sync.base, sync.requests, sync.Known(), h, c);
  }

  lemma DurableBase(database: Store, base: set<Hash>, writes: seq<Hash>)
    requires Durable(database, base, writes)
    ensures base <= database.Keys
  {
  }

  /** Scheduling one child adds no request but its own. */
  /** A new request for a child: its parent's callback, and the depth of its job. */
  predicate AsJob(r: Request, x: Hash, jobs: seq<Job>, callback: bool) {
    r.callback == callback && !r.raw && Job(x, r.depth) in jobs
  }

  lemma ScheduleFlags(r0: Requests, r2: Requests, r3: Requests, h: Hash, jobs: seq<Job>, j: nat, callback: bool)
    requires j < |jobs| && r3 == Scheduled(r2, jobs[j].hash, ChildRequest(h, jobs[j], callback))
    requires h in r2 && r2[h].callback == callback
    requires forall x | x in r2 && x !in r0 :: AsJob(r2[x], x, jobs, callback)
    ensures h in r3 && r3[h].callback == callback
    ensures forall x | x in r3 && x !in r0 :: AsJob(r3[x], x, jobs, callback)
  {
    assert jobs[j] in jobs;
  }

  /** A child's request has its parent's callback, and lies deeper by the node's key. */
  predicate Inherits(r: Request, parent: Request, h: Hash) {
    && h.Of? && Decode(h, h.pre, 0).Some? && !r.raw && r.callback == parent.callback
    && var node := Decode(h, h.pre, 0).value;
       r.depth == parent.depth + if node.ShortNode? then |node.key| else 1
  }

  lemma KidInherits(r: Request, parent: Request, h: Hash, x: Hash, known: set<Hash>)
    requires h.Of? && Decode(h, h.pre, 0).Some? && AsJob(r, x, KidJobs(parent, h, known), parent.callback)
    ensures Inherits(r, parent, h)
  {
    hide Decode, Unknown;
  }

  /** The callback asks for the hash when a node's data arrives. */
  ghost predicate AskedIn(leaf: Leaf, req: Request, h: Hash, x: Hash) {
    x in Roots(CallsFor(leaf, req, h))
  }

  /** Calls add requests only for what they ask for. */
  lemma CalledNew(r0: Requests, leaf: Leaf, h: Hash, known: set<Hash>, emptyState: Hash, reqs: Requests)
    requires h in r0 && h.Of? && reqs == AfterCalls(r0, leaf, h, known, emptyState)
    ensures forall x | x in reqs && x !in r0 :: AskedIn(leaf, r0[h], h, x)
  {
    hide CallsFor, Roots;
    forall x | x in reqs && x !in r0 ensures AskedIn(leaf, r0[h], h, x) {
      AddedAllNew(r0[h := r0[h].(data := Some(h.pre))], Asks(leaf, r0[h], h, known, emptyState), h, x);
      AdditionsIn(CallsFor(leaf, r0[h], h), known, emptyState, x);
    }
  }

  lemma IdleKeys(r0: Requests, leaf: Leaf, h: Hash, known: set<Hash>, emptyState: Hash)
    requires h in r0 && h.Of? && AfterCalls(r0, leaf, h, known, emptyState)[h].deps == 0 && r0[h].deps == 0
    ensures AfterCalls(r0, leaf, h, known, emptyState).Keys == r0.Keys
  {
    hide Asks;
    AddedAllWaits(r0[h := r0[h].(data := Some(h.pre))], Asks(leaf, r0[h], h, known, emptyState), h, h);
  }

  lemma {:induction false} AddedAllNew(reqs: Requests, calls: seq<Call>, h: Hash, x: Hash)
    requires h in reqs && x in AddedAll(reqs, calls, h) && x !in reqs
    ensures x in Roots(calls)
  {
    var n := |calls| - 1;
    if calls != [] {
      assert calls == calls[..n] + [calls[n]];
      RootsJoin(calls[..n], [calls[n]]);
      assert calls[n] in [calls[n]];
      if x != calls[n].root { AddedAllNew(reqs, calls[..n], h, x); }
    }
  }

  lemma {:induction false} AdditionsIn(calls: seq<Call>, known: set<Hash>, emptyState: Hash, x: Hash)
    requires x in Roots(Additions(calls, known, emptyState))
    ensures x in Roots(calls)
  {
    var n := |calls| - 1;
    if calls != [] {
      var a, last := Additions(calls[..n], known, emptyState), if Adds(calls[n], known, emptyState) then [calls[n]] else [];
      assert calls == calls[..n] + [calls[n]];
      RootsJoin(calls[..n], [calls[n]]);
      RootsJoin(a, last);
      if x in Roots(a) { AdditionsIn(calls[..n], known, emptyState, x); }
    }
  }

  lemma RawServes(log: Log, leaf: Leaf, req: Request, h: Hash)
    requires req.raw
    ensures SameRoots(log, AskingAll(log, CallsFor(leaf, req, h)))
  {
  }

  lemma NoCalls(log: Log)
    ensures SameRoots(log, AskingAll(log, []))
  {
  }

  lemma RawPlain(log: Log, leaf: Leaf, asked: set<Hash>, base: set<Hash>, reqs: Requests, known: set<Hash>,
                 open: set<Hash>, h: Hash)
    requires Heard(log, leaf, asked, base, reqs, known, open) && h in reqs && reqs[h].raw
    ensures h !in log.watched
  {
  }

  /** After the calls at a node that was requested with a callback, everything it asks for has been asked for. */
  lemma ToldNow(log: Log, leaf: Leaf, asked: set<Hash>, base: set<Hash>, r0: Requests, reqs: Requests, known: set<Hash>,
                open: set<Hash>, h: Hash)
    requires Heard(log, leaf, asked, base, reqs, known, open) && h in reqs && h in r0 && !r0[h].raw
    requires reqs[h].callback == r0[h].callback && Roots(CallsFor(leaf, r0[h], h)) <= asked
    ensures h in log.watched ==> Told(leaf, asked, h)
  {
    hide Served, Childs, Decode, Roots;
  }

  /** The roots that the callback may ask for without a callback of their own when results arrive. */
  ghost function BareRoots(leaf: Leaf, results: seq<Result>): set<Hash> {
    if results == [] then {}
    else BareRoots(leaf, results[..|results| - 1]) + BareIn(CallsAt(leaf, results[|results| - 1].hash))
  }

  lemma BareStep(leaf: Leaf, results: seq<Result>, r: Result, a: Log, b: Log, reqs: Requests, took: bool)
    requires if took then r.hash in reqs && SameRoots(b, AskingAll(a, CallsFor(leaf, reqs[r.hash], r.hash))) else b == a
    ensures a.eager <= b.eager && a.bare <= b.bare <= a.bare + BareIn(CallsAt(leaf, r.hash))
    ensures BareRoots(leaf, results + [r]) == BareRoots(leaf, results) + BareIn(CallsAt(leaf, r.hash))
  {
    hide Served, Childs, Decode;
    assert (results + [r])[..|results|] == results;
    if took { AskingRoots(a, CallsFor(leaf, reqs[r.hash], r.hash)); }
  }

  lemma {:induction false} BarePart(leaf: Leaf, results: seq<Result>, k: nat)
    requires k <= |results|
    ensures BareRoots(leaf, results[..k]) <= BareRoots(leaf, results)
    decreases |results| - k
  {
    if k < |results| {
      BarePart(leaf, results, k + 1);
      assert results[..k + 1][..k] == results[..k];
    } else {
      assert results[..k] == results;
    }
  }

  /**
   A whole download: with nothing pending, at every node inside a root that was asked for with a
   callback, everything the callback asks for has been asked for, unless the node was in the
   database to begin with or lies inside a root that was asked for without a callback.
   */
  lemma AllHeard(sync: Sync, root: Hash, x: Hash)
    requires sync.Valid() && sync.requests == map[] && root in sync.asked && root != sync.emptyState && root != EMPTY_ROOT
    requires Inside(x, root) && x !in sync.base && !Within(sync.log.bare, x)
    ensures x in sync.Known() && x in sync.log.watched && Roots(CallsAt(sync.leaf, x)) <= sync.asked
  {
    hide Consistent, Durable, QueueOk, Ranked, Inside, Available, CallsAt, Roots;
    Downloaded(sync, root);
    KnownHashes(sync);
    AvailableInside(Ref(root), sync.Known(), x);
    assert Inside(x, root) ==> InsideItem(x, Ref(root)) by { InRef(x, root); }
    assert x in sync.base + sync.log.plain + sync.log.watched;
  }

  /** Exactly when the callback was told of a downloaded node: when it was first requested with a callback. */
  lemma HeardExactly(sync: Sync, x: Hash)
    requires sync.Valid() && x in sync.Known() && x !in sync.base
    ensures x in sync.log.watched <==> x !in sync.log.plain
    ensures x in sync.log.watched ==> Roots(CallsAt(sync.leaf, x)) <= sync.asked
    ensures x in sync.log.plain ==> Within(sync.log.bare, x)
  {
    hide Consistent, Durable, QueueOk, Ranked, CallsAt, Roots, Within;
    assert x in sync.requests.Keys + sync.Known();
  }

  lemma InRef(x: Hash, h: Hash)
    ensures Inside(x, h) ==> InsideItem(x, Ref(h))
  {
  }

  lemma {:induction false} AvailableInside(i: Item, s: set<Hash>, x: Hash)
    requires Available(i, s)
    ensures InsideItem(x, i) ==> x in s
  {
    match i
    case Str(_) =>
    case Ref(h) =>
      AvailableInside(h.pre, s, x);
      assert InsideItem(x, i) <==> Inside(x, h);
    case List(items) =>
      if InsideItem(x, i) {
        var k :| 0 <= k < |items| && InsideItem(x, items[k]);
        AvailableInside(items[k], s, x);
      }
  }

  // ---------- what a download achieves ----------

  /** As long as anything is pending, some hash is queued or handed out and still waits for its data. */
  lemma NeverStuck(sync: Sync, h: Hash) returns (x: Hash)
    requires sync.Valid() && h in sync.requests
    ensures x in sync.requests && sync.requests[x].data.None?
    ensures x in Hashes(sync.queue) || x in sync.issued
  {
    hide Consistent, Heard, Durable, Ranked;
    x := Undelivered(sync.rank, sync.requests, sync.ids, sync.batch, sync.order, sync.database.Keys, h);
  }

  lemma KnownHashes(sync: Sync)
    requires sync.Valid()
    ensures Closed(sync.Known()) && (forall h | h in sync.Known() :: h.Of?)
  {
    hide Below, QueueOk, AskedOk, Ranked, Closed, Waits, Edges, Counters, Delivered;
    DurableClosed(sync.database, sync.base, sync.writes);
    KnownClosed(sync.batch, sync.order, sync.database.Keys);
  }

  /** A completed or stored node has everything below it completed or stored, at every moment. */
  lemma KnownComplete(sync: Sync, h: Hash)
    requires sync.Valid() && h in sync.Known()
    ensures Available(Ref(h), sync.Known())
  {
    hide Consistent, Heard, Durable, QueueOk, AskedOk, Ranked, Closed;
    KnownHashes(sync);
    Tries.AvailableClosed(Ref(h), sync.Known());
  }

  /** With nothing pending, every trie and entry ever asked for is there, with everything below it. */
  lemma Downloaded(sync: Sync, root: Hash)
    requires sync.Valid() && sync.requests == map[] && root in sync.asked && root != sync.emptyState
    ensures root == EMPTY_ROOT || Available(Ref(root), sync.Known())
    ensures sync.order == [] ==> Tries.Held(root, sync.database.Keys)
  {
    hide Consistent, Heard, Durable, QueueOk, Ranked, Closed, Available;
    if root != EMPTY_ROOT {
      KnownComplete(sync, root);
      if sync.order == [] {
        EmptyBatch(sync.rank, sync.requests, sync.ids, sync.batch, sync.database.Keys);
        assert sync.Known() == sync.database.Keys;
      }
    }
  }

  lemma EmptyBatch(rank: Rank, reqs: Requests, ids: seq<Hash>, batch: Store, disk: set<Hash>)
    requires Consistent(rank, reqs, ids, batch, [], disk, multiset{}, {})
    ensures batch.Keys == {}
  {
    hide Waits, Edges, Counters, Delivered;
    assert batch.Keys == Elems([]);
  }
}
