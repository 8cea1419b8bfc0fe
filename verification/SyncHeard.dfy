/**
 Which nodes of a download the leaf callback is told of: those that were first requested
 with a callback. Everything else lies inside a root that was asked for without one.
 */
module SyncHeard {
  import opened Rlp
  import opened Trees
  import opened Nodes
  import opened Raws
  import opened Caches
  import opened SyncStates
  import opened SyncCalls

  /**
   The hashes first requested with and without a callback, and the roots that were asked for
   with and without one.
   */
  datatype Log = Log(watched: set<Hash>, plain: set<Hash>, eager: set<Hash>, bare: set<Hash>)

  ghost predicate Within(roots: set<Hash>, x: Hash) {
    exists r :: r in roots && Inside(x, r)
  }

  /** The calls that the callback makes at a node. */
  function CallsAt(leaf: Leaf, h: Hash): seq<Call> {
    CallsFor(leaf, Request(false, None, [], 0, 0, true), h)
  }

  /** Everything the callback asks for at a node has been asked for. */
  ghost predicate Told(leaf: Leaf, asked: set<Hash>, h: Hash) {
    Roots(CallsAt(leaf, h)) <= asked
  }

  /** Every hash is in one place of the log, and a request has a callback exactly if its hash was first requested with one. */
  ghost predicate Logged(log: Log, base: set<Hash>, reqs: Requests, known: set<Hash>) {
    && reqs.Keys + known == base + log.plain + log.watched
    && log.plain !! log.watched && base !! log.plain + log.watched
    && (forall x | x in reqs :: (reqs[x].callback <==> x in log.watched) && (reqs[x].callback ==> !reqs[x].raw))
    && log.eager <= base + log.plain + log.watched + {EMPTY_ROOT}
  }

  /** What was first requested without a callback lies inside a root that was asked for without one. */
  ghost predicate PlainOk(log: Log) {
    forall x | x in log.plain :: Within(log.bare, x)
  }

  /** The callback was told of every node that was requested with one and has arrived. */
  ghost predicate AllTold(log: Log, leaf: Leaf, asked: set<Hash>, reqs: Requests, known: set<Hash>, open: set<Hash>) {
    forall x | x in log.watched && x !in open && Arrived(reqs, known, x) :: Told(leaf, asked, x)
  }

  ghost predicate Heard(log: Log, leaf: Leaf, asked: set<Hash>, base: set<Hash>, reqs: Requests, known: set<Hash>,
                        open: set<Hash>) {
    Logged(log, base, reqs, known) && PlainOk(log) && AllTold(log, leaf, asked, reqs, known, open)
  }

  lemma HeardStart(leaf: Leaf, base: set<Hash>)
    ensures Heard(Log({}, {}, {}, {}), leaf, {}, base, map[], base, {})
  {
  }

  /** A root asked for. */
  function Asking(log: Log, root: Hash, callback: bool): Log {
    if callback then log.(eager := log.eager + {root}) else log.(bare := log.bare + {root})
  }

  /** A hash requested for the first time. */
  function Requesting(log: Log, h: Hash, callback: bool): Log {
    if callback then log.(watched := log.watched + {h}) else log.(plain := log.plain + {h})
  }

  lemma MoreBare(log: Log, leaf: Leaf, asked: set<Hash>, base: set<Hash>, reqs: Requests, known: set<Hash>,
                 open: set<Hash>, root: Hash)
    requires Heard(log, leaf, asked, base, reqs, known, open)
    ensures var l := log.(bare := log.bare + {root});
            Heard(l, leaf, asked, base, reqs, known, open) && Within(l.bare, root)
  {
    hide Told, Arrived;
    var l := log.(bare := log.bare + {root});
    forall x | x in l.plain ensures Within(l.bare, x) {
      var r :| r in log.bare && Inside(x, r);
      assert r in l.bare;
    }
    assert Inside(root, root) && root in l.bare;
  }

  lemma MoreEager(log: Log, leaf: Leaf, asked: set<Hash>, base: set<Hash>, reqs: Requests, known: set<Hash>,
                  open: set<Hash>, root: Hash)
    requires Heard(log, leaf, asked, base, reqs, known, open) && (root == EMPTY_ROOT || root in reqs || root in known)
    ensures Heard(log.(eager := log.eager + {root}), leaf, asked, base, reqs, known, open)
  {
    hide Told, Arrived, Within;
    assert root == EMPTY_ROOT || root in reqs.Keys + known;
  }

  lemma MoreAsked(log: Log, leaf: Leaf, asked: set<Hash>, more: set<Hash>, base: set<Hash>, reqs: Requests,
                  known: set<Hash>, open: set<Hash>)
    requires Heard(log, leaf, asked, base, reqs, known, open) && asked <= more
    ensures Heard(log, leaf, more, base, reqs, known, open)
  {
    hide Logged, Arrived, PlainOk;
  }

  /** Scheduling: the first request for a hash decides whether the callback will be told of it. */
  lemma HeardSchedule(log: Log, leaf: Leaf, asked: set<Hash>, base: set<Hash>, reqs: Requests, known: set<Hash>, open: set<Hash>,
                      h: Hash, r: Request)
    requires Heard(log, leaf, asked, base, reqs, known, open) && h !in known && r.data.None? && !(r.raw && r.callback)
    requires h in reqs || r.callback || Within(log.bare, h)
    ensures Heard(if h in reqs then log else Requesting(log, h, r.callback), leaf, asked, base,
                  Scheduled(reqs, h, r), known, open)
  {
    hide Told, Within;
    var next := Scheduled(reqs, h, r);
    assert next.Keys == reqs.Keys + {h};
    if h !in reqs { assert h !in reqs.Keys + known; }
  }

  /** Parents and counters do not matter. */
  lemma HeardSame(log: Log, leaf: Leaf, asked: set<Hash>, base: set<Hash>, a: Requests, b: Requests, known: set<Hash>,
                  open: set<Hash>)
    requires Heard(log, leaf, asked, base, a, known, open) && a.Keys == b.Keys
    requires forall x | x in a :: a[x].data == b[x].data && a[x].callback == b[x].callback && a[x].raw == b[x].raw
    ensures Heard(log, leaf, asked, base, b, known, open)
  {
    hide Told, Within;
  }

  lemma HeardDeliver(log: Log, leaf: Leaf, asked: set<Hash>, base: set<Hash>, reqs: Requests, known: set<Hash>,
                     h: Hash, data: Item)
    requires Heard(log, leaf, asked, base, reqs, known, {}) && h in reqs
    ensures Heard(log, leaf, asked, base, reqs[h := reqs[h].(data := Some(data))], known, {h})
  {
    hide Told, Within;
    assert reqs[h := reqs[h].(data := Some(data))].Keys == reqs.Keys;
  }

  /** Once the callback has been called, a node is like any other. */
  lemma HeardClose(log: Log, leaf: Leaf, asked: set<Hash>, base: set<Hash>, reqs: Requests, known: set<Hash>, h: Hash)
    requires Heard(log, leaf, asked, base, reqs, known, {h}) && (h in log.watched ==> Told(leaf, asked, h))
    ensures Heard(log, leaf, asked, base, reqs, known, {})
  {
    hide Told, Logged, PlainOk;
  }

  lemma HeardMoved(log: Log, leaf: Leaf, asked: set<Hash>, base: set<Hash>, a: Requests, ka: set<Hash>, b: Requests,
                   kb: set<Hash>)
    requires Heard(log, leaf, asked, base, a, ka, {}) && Moved(a, ka, b, kb)
    ensures Heard(log, leaf, asked, base, b, kb, {})
  {
    hide Told, Within;
    forall x | x in log.watched && Arrived(b, kb, x) ensures Told(leaf, asked, x) { assert Arrived(a, ka, x); }
  }

  /** The children of a node that was requested without a callback lie inside the same root. */
  lemma PlainKid(log: Log, base: set<Hash>, reqs: Requests, known: set<Hash>, h: Hash, c: Hash)
    requires Logged(log, base, reqs, known) && PlainOk(log) && base <= known && reqs.Keys !! known
    requires h in reqs && c in Below(h)
    ensures reqs[h].callback || Within(log.bare, c)
  {
    hide Inside, Below;
    if !reqs[h].callback {
      assert h in reqs.Keys + known && h !in base;
      assert Within(log.bare, h);
      var r :| r in log.bare && Inside(h, r);
      BelowInside(h, c);
      InsideTrans(c, h, r);
    }
  }

  // ---------- what calls ask for ----------

  /** A call with a callback of its own. */
  predicate Watching(c: Call) {
    c.SubTrie? && c.callback
  }

  ghost predicate SameRoots(a: Log, b: Log) {
    a.eager == b.eager && a.bare == b.bare
  }

  function AskingAll(log: Log, calls: seq<Call>): Log {
    if calls == [] then log
    else
      var last := calls[|calls| - 1];
      Asking(AskingAll(log, calls[..|calls| - 1]), last.root, Watching(last))
  }

  /** The roots asked for without a callback. */
  function BareIn(calls: seq<Call>): set<Hash> {
    set c | c in calls && !Watching(c) :: c.root
  }

  lemma AskingNone(log: Log, calls: seq<Call>)
    ensures SameRoots(log, AskingAll(log, calls[..0]))
  {
  }

  lemma AskingNext(l0: Log, l1: Log, calls: seq<Call>, j: nat)
    requires j < |calls| && SameRoots(l1, AskingAll(l0, calls[..j]))
    ensures SameRoots(Asking(l1, calls[j].root, Watching(calls[j])), AskingAll(l0, calls[..j + 1]))
    ensures forall l | SameRoots(l, Asking(l1, calls[j].root, Watching(calls[j]))) :: SameRoots(l, AskingAll(l0, calls[..j + 1]))
  {
    assert calls[..j + 1][..j] == calls[..j];
  }

  lemma {:induction false} AskingJoin(log: Log, mid: Log, a: seq<Call>, b: seq<Call>)
    requires SameRoots(mid, AskingAll(log, a))
    ensures SameRoots(AskingAll(mid, b), AskingAll(log, a + b))
    decreases |b|
  {
    if b == [] {
      assert a + b == a;
    } else {
      var n := |b| - 1;
      AskingJoin(log, mid, a, b[..n]);
      assert (a + b)[..|a + b| - 1] == a + b[..n] && (a + b)[|a + b| - 1] == b[n];
    }
  }

  /** One more value told. */
  lemma AskingMore(l0: Log, l1: Log, l2: Log, leaf: Leaf, kids: seq<Node>, n: Node, h: Hash)
    requires SameRoots(l1, AskingAll(l0, Served(leaf, kids, h))) && !FailsFor(leaf, kids, h) && n.Value?
    requires SameRoots(l2, AskingAll(l1, leaf(n.bytes, h).calls))
    ensures SameRoots(l2, AskingAll(l0, Served(leaf, kids + [n], h)))
  {
    hide Served, FailsFor, AskingAll;
    ServedLast(leaf, kids, n, h);
    AskingJoin(l0, l1, Served(leaf, kids, h), leaf(n.bytes, h).calls);
  }

  lemma ServedSkip(leaf: Leaf, kids: seq<Node>, n: Node, h: Hash)
    requires !n.Value?
    ensures Served(leaf, kids + [n], h) == Served(leaf, kids, h)
  {
    hide FailsFor;
    ServedLast(leaf, kids, n, h);
    assert Served(leaf, kids, h) + [] == Served(leaf, kids, h);
  }

  lemma NothingServed(log: Log, leaf: Leaf, h: Hash)
    ensures SameRoots(log, AskingAll(log, Served(leaf, [], h)))
  {
  }

  lemma {:induction false} AskingRoots(log: Log, calls: seq<Call>)
    ensures var l := AskingAll(log, calls); log.eager <= l.eager && l.bare == log.bare + BareIn(calls)
  {
    if calls != [] {
      var n := |calls| - 1;
      AskingRoots(log, calls[..n]);
      assert calls == calls[..n] + [calls[n]];
      assert BareIn(calls) == BareIn(calls[..n]) + if Watching(calls[n]) then {} else {calls[n].root} by {
        forall c ensures c in calls <==> c in calls[..n] || c == calls[n] { }
      }
    }
  }
}
