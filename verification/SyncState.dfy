/**
 The state of a trie download as values: pending requests, what has been completed,
 and the invariants that tie the dependency counters to the order of completion.

 owed holds dependencies that are being settled: parents whose counter still includes
 a child that has just been completed, or already includes one not yet scheduled.
 open is the request whose children are not scheduled yet, if there is one.
 */
module SyncStates {
  import opened Rlp
  import opened Trees
  import opened Nodes
  import opened Raws
  import opened Caches
  import opened CacheSteps
  import CacheRuns

  /** A pending retrieval. Without data it has not been delivered yet. */
  datatype Request = Request(raw: bool, data: Option<Item>, parents: seq<Hash>, depth: int, deps: nat, callback: bool)

  type Requests = map<Hash, Request>

  // ---------- counting dependencies ----------

  /** The parents of the listed requests, with multiplicity. */
  function Waiting(reqs: Requests, ids: seq<Hash>): multiset<Hash> {
    if ids == [] then multiset{}
    else (if ids[0] in reqs then multiset(reqs[ids[0]].parents) else multiset{}) + Waiting(reqs, ids[1..])
  }

  lemma {:induction false} WaitingSame(a: Requests, b: Requests, ids: seq<Hash>)
    requires forall h | h in ids :: h in a && h in b && a[h].parents == b[h].parents
    ensures Waiting(a, ids) == Waiting(b, ids)
  {
    if ids != [] { WaitingSame(a, b, ids[1..]); }
  }

  lemma {:induction false} WaitingLast(reqs: Requests, ids: seq<Hash>, h: Hash)
    requires h in reqs
    ensures Waiting(reqs, ids + [h]) == Waiting(reqs, ids) + multiset(reqs[h].parents)
  {
    if ids != [] {
      WaitingLast(reqs, ids[1..], h);
      assert (ids + [h])[1..] == ids[1..] + [h];
    }
  }

  lemma {:induction false} WaitingWithout(reqs: Requests, ids: seq<Hash>, i: nat)
    requires i < |ids| && ids[i] in reqs
    ensures Waiting(reqs, ids) == Waiting(reqs, Without(ids, i)) + multiset(reqs[ids[i]].parents)
  {
    if i == 0 {
      assert Without(ids, i) == ids[1..];
    } else {
      var rest := Without(ids[1..], i - 1);
      WaitingWithout(reqs, ids[1..], i - 1);
      assert Without(ids, i) == [ids[0]] + rest;
      WaitingFirst(reqs, ids[0], rest);
      WaitingFirst(reqs, ids[0], ids[1..]);
      assert ids == [ids[0]] + ids[1..];
      hide Waiting, Without;
    }
  }

  lemma WaitingFirst(reqs: Requests, h: Hash, ids: seq<Hash>)
    ensures Waiting(reqs, [h] + ids) == Waiting(reqs, ids) + if h in reqs then multiset(reqs[h].parents) else multiset{}
  {
    assert ([h] + ids)[1..] == ids;
  }

  lemma {:induction false} WaitingFor(reqs: Requests, ids: seq<Hash>, p: Hash) returns (h: Hash)
    requires p in Waiting(reqs, ids)
    ensures h in ids && h in reqs && p in reqs[h].parents
  {
    if ids[0] in reqs && p in reqs[ids[0]].parents {
      h := ids[0];
    } else {
      h := WaitingFor(reqs, ids[1..], p);
    }
  }

  lemma {:induction false} WaitingIn(reqs: Requests, ids: seq<Hash>, h: Hash, p: Hash)
    requires h in ids && h in reqs && p in reqs[h].parents
    ensures p in Waiting(reqs, ids)
  {
    if h != ids[0] { WaitingIn(reqs, ids[1..], h, p); }
  }

  // ---------- invariants ----------

  /** Delivered data is what was asked for, and raw entries refer to nothing. */
  ghost predicate Delivered(reqs: Requests) {
    forall h | h in reqs :: (reqs[h].data.Some? ==> h.Of? && reqs[h].data.value == h.pre) && (reqs[h].raw ==> Below(h) == [])
  }

  ghost predicate ParentOk(rank: Rank, reqs: Requests, h: Hash, p: Hash) {
    p in reqs && reqs[p].data.Some? && rank(h) < rank(p)
  }

  /** Parents are pending, delivered, and of higher rank than their children. */
  ghost predicate Edges(rank: Rank, reqs: Requests) {
    forall h, p | h in reqs && p in reqs[h].parents :: ParentOk(rank, reqs, h, p)
  }

  /** The dependency counters are exact. */
  ghost predicate Counters(reqs: Requests, ids: seq<Hash>, owed: multiset<Hash>) {
    && Distinct(ids) && Elems(ids) == reqs.Keys
    && (forall p | p in reqs :: reqs[p].deps == Waiting(reqs, ids)[p] + owed[p])
    && (forall p | p in owed :: p in reqs && reqs[p].data.Some?)
  }

  /** A child is known, or pending with the parent among those to be told. */
  ghost predicate Handled(reqs: Requests, known: set<Hash>, h: Hash, c: Hash) {
    c in known || (c in reqs && h in reqs[c].parents)
  }

  /** A delivered request has dependencies left, and all its children are known or pending. */
  ghost predicate Waits(reqs: Requests, known: set<Hash>, open: set<Hash>) {
    forall h | h in reqs && reqs[h].data.Some? && h !in open ::
      reqs[h].deps > 0 && forall c | c in Below(h) :: Handled(reqs, known, h, c)
  }

  /** A completed node comes after its children, unless they are on disk. */
  ghost predicate Prior(order: seq<Hash>, disk: set<Hash>, i: int)
    requires 0 <= i < |order|
  {
    forall c | c in Below(order[i]) :: c in disk || c in order[..i]
  }

  /** Every completed node is listed once, after its children. */
  ghost predicate Completed(batch: Store, order: seq<Hash>, disk: set<Hash>) {
    && Addressed(batch) && Distinct(order) && Elems(order) == batch.Keys
    && forall i | 0 <= i < |order| :: Prior(order, disk, i)
  }

  ghost predicate Consistent(rank: Rank, reqs: Requests, ids: seq<Hash>, batch: Store, order: seq<Hash>, disk: set<Hash>,
                             owed: multiset<Hash>, open: set<Hash>) {
    && Delivered(reqs) && Edges(rank, reqs) && Counters(reqs, ids, owed)
    && Waits(reqs, batch.Keys + disk, open)
    && Completed(batch, order, disk)
    && reqs.Keys !! batch.Keys + disk
  }

  // ---------- completing a request ----------

  lemma CompletedNext(batch: Store, order: seq<Hash>, disk: set<Hash>, h: Hash)
    requires Completed(batch, order, disk) && h !in batch && h.Of?
    requires forall c | c in Below(h) :: c in batch.Keys + disk
    ensures Completed(batch[h := h.pre], order + [h], disk)
  {
    hide Below;
    var o := order + [h];
    forall c | c in batch.Keys ensures c in order { assert c in Elems(order); }
    forall i | 0 <= i < |o| ensures Prior(o, disk, i) {
      if i < |order| { assert Prior(order, disk, i) && o[..i] == order[..i]; } else { assert o[..i] == order; }
    }
    forall c | c in o ensures c in batch.Keys + {h} { if c != h { assert c in Elems(order); } }
    assert Elems(o) == batch.Keys + {h};
    forall i, j | 0 <= i < j < |o| ensures o[i] != o[j] { if j == |order| { assert order[i] in Elems(order); } }
  }

  lemma CountersDelete(rank: Rank, reqs: Requests, ids: seq<Hash>, owed: multiset<Hash>, h: Hash, i: nat)
    requires Counters(reqs, ids, owed) && Edges(rank, reqs) && h in reqs && reqs[h].deps == 0 && i < |ids| && ids[i] == h
    ensures Counters(reqs - {h}, Without(ids, i), owed + multiset(reqs[h].parents))
  {
    var rest, w := reqs - {h}, Without(ids, i);
    WithoutElems(ids, i);
    WaitingWithout(reqs, ids, i);
    forall x | x in w ensures x in rest { assert x in Elems(w); }
    WaitingSame(reqs, rest, w);
    var debts := owed + multiset(reqs[h].parents);
    forall p | p in debts ensures p in rest && rest[p].data.Some? {
      if p in reqs[h].parents { assert ParentOk(rank, reqs, h, p); }
    }
  }

  lemma EdgesDelete(rank: Rank, reqs: Requests, ids: seq<Hash>, owed: multiset<Hash>, h: Hash)
    requires Counters(reqs, ids, owed) && Edges(rank, reqs) && h in reqs && reqs[h].deps == 0
    ensures Edges(rank, reqs - {h})
  {
    hide Waiting;
    var rest := reqs - {h};
    forall x, p | x in rest && p in rest[x].parents ensures ParentOk(rank, rest, x, p) {
      assert ParentOk(rank, reqs, x, p);
      if p == h {
        assert x in Elems(ids);
        WaitingIn(reqs, ids, x, p);
      }
    }
  }

  /** The first half of commit: a request without open dependencies is completed. */
  lemma Complete(rank: Rank, reqs: Requests, ids: seq<Hash>, batch: Store, order: seq<Hash>, disk: set<Hash>,
                 owed: multiset<Hash>, h: Hash, i: nat)
    requires Consistent(rank, reqs, ids, batch, order, disk, owed, {h})
    requires h in reqs && reqs[h].data.Some? && reqs[h].deps == 0 && i < |ids| && ids[i] == h
    requires forall c | c in Below(h) :: c in batch.Keys + disk
    ensures h.Of? && reqs[h].data.value == h.pre
    ensures Consistent(rank, reqs - {h}, Without(ids, i), batch[h := h.pre], order + [h], disk,
              owed + multiset(reqs[h].parents), {})
  {
    hide Waiting, Below, Counters, Completed, Edges;
    CountersDelete(rank, reqs, ids, owed, h, i);
    EdgesDelete(rank, reqs, ids, owed, h);
    CompletedNext(batch, order, disk, h);
    var rest, known := reqs - {h}, batch[h := h.pre].Keys + disk;
    forall x | x in rest && rest[x].data.Some?
      ensures rest[x].deps > 0 && forall c | c in Below(x) :: Handled(rest, known, x, c)
    {
      forall c | c in Below(x) ensures Handled(rest, known, x, c) { assert Handled(reqs, batch.Keys + disk, x, c); }
    }
  }

  /** The second half of commit, for one parent: its counter goes down, and at zero all its children are known. */
  lemma Settle(rank: Rank, reqs: Requests, ids: seq<Hash>, batch: Store, order: seq<Hash>, disk: set<Hash>,
               owed: multiset<Hash>, p: Hash)
    requires Consistent(rank, reqs, ids, batch, order, disk, owed, {}) && p in owed
    ensures p in reqs && reqs[p].data.Some? && reqs[p].deps > 0
    ensures var left := reqs[p := reqs[p].(deps := reqs[p].deps - 1)];
            && Consistent(rank, left, ids, batch, order, disk, owed - multiset{p}, if left[p].deps == 0 then {p} else {})
            && (left[p].deps == 0 ==> forall c | c in Below(p) :: c in batch.Keys + disk)
  {
    hide Waiting, Below, Completed;
    var left, known := reqs[p := reqs[p].(deps := reqs[p].deps - 1)], batch.Keys + disk;
    forall x | x in ids ensures x in reqs { assert x in Elems(ids); }
    WaitingSame(reqs, left, ids);
    forall x, q | x in left && q in left[x].parents ensures ParentOk(rank, left, x, q) { assert ParentOk(rank, reqs, x, q); }
    forall x, c | x in left && left[x].data.Some? && c in Below(x) ensures Handled(left, known, x, c) {
      assert Handled(reqs, known, x, c);
    }
    if left[p].deps == 0 {
      forall c | c in Below(p) ensures c in known {
        assert Handled(reqs, known, p, c);
        if c !in known {
          assert c in Elems(ids);
          WaitingIn(reqs, ids, c, p);
        }
      }
    }
  }

  // ---------- scheduling ----------

  /** A counter that already includes n children still to be scheduled. */
  function Indebted(reqs: Requests, p: Hash, n: nat): Requests
    requires p in reqs
  {
    reqs[p := reqs[p].(deps := reqs[p].deps + n)]
  }

  /** schedule: a request for a pending hash only adds its parents there. */
  function Scheduled(reqs: Requests, h: Hash, r: Request): Requests {
    reqs[h := if h in reqs then reqs[h].(parents := reqs[h].parents + r.parents) else r]
  }

  lemma Owe(rank: Rank, reqs: Requests, ids: seq<Hash>, batch: Store, order: seq<Hash>, disk: set<Hash>,
            owed: multiset<Hash>, open: set<Hash>, p: Hash, n: nat)
    requires Consistent(rank, reqs, ids, batch, order, disk, owed, open) && p in reqs && reqs[p].data.Some?
    ensures Consistent(rank, Indebted(reqs, p, n), ids, batch, order, disk, owed[p := owed[p] + n], open)
  {
    hide Waiting, Below, Completed;
    var up, known := Indebted(reqs, p, n), batch.Keys + disk;
    forall x | x in ids ensures x in reqs { assert x in Elems(ids); }
    WaitingSame(reqs, up, ids);
    forall x, q | x in up && q in up[x].parents ensures ParentOk(rank, up, x, q) { assert ParentOk(rank, reqs, x, q); }
    forall x, c | x in up && up[x].data.Some? && x !in open && c in Below(x) ensures Handled(up, known, x, c) {
      assert Handled(reqs, known, x, c);
    }
  }

  lemma WaitingScheduled(reqs: Requests, ids: seq<Hash>, h: Hash, r: Request)
    requires Distinct(ids) && Elems(ids) == reqs.Keys
    ensures var ids' := if h in reqs then ids else ids + [h];
            && Waiting(Scheduled(reqs, h, r), ids') == Waiting(reqs, ids) + multiset(r.parents)
            && Distinct(ids') && Elems(ids') == Scheduled(reqs, h, r).Keys
  {
    hide Waiting;
    var next := Scheduled(reqs, h, r);
    forall x | x in ids ensures x in reqs { assert x in Elems(ids); }
    if h in reqs {
      assert h in Elems(ids);
      var i :| 0 <= i < |ids| && ids[i] == h;
      WithoutElems(ids, i);
      WaitingWithout(reqs, ids, i);
      WaitingWithout(next, ids, i);
      WaitingSame(reqs, next, Without(ids, i));
      assert multiset(next[h].parents) == multiset(reqs[h].parents) + multiset(r.parents);
    } else {
      WaitingLast(next, ids, h);
      WaitingSame(reqs, next, ids);
      assert Elems(ids + [h]) == next.Keys;
    }
  }

  lemma CountersSchedule(rank: Rank, reqs: Requests, ids: seq<Hash>, owed: multiset<Hash>, h: Hash, r: Request)
    requires Counters(reqs, ids, owed) && Edges(rank, reqs) && multiset(r.parents) <= owed && r.deps == 0 && r.data.None?
    ensures Counters(Scheduled(reqs, h, r), if h in reqs then ids else ids + [h], owed - multiset(r.parents))
  {
    hide Waiting, Edges, Distinct, Elems;
    var next, left := Scheduled(reqs, h, r), owed - multiset(r.parents);
    WaitingScheduled(reqs, ids, h, r);
    if h !in reqs { NoWaiting(rank, reqs, ids, h); }
    forall p | p in left ensures p in next && next[p].data.Some? { assert p in owed; }
    forall p | p in r.parents ensures p in owed { assert p in multiset(r.parents); }
  }

  lemma NoWaiting(rank: Rank, reqs: Requests, ids: seq<Hash>, h: Hash)
    requires Edges(rank, reqs) && (h !in reqs || reqs[h].data.None?)
    ensures Waiting(reqs, ids)[h] == 0
  {
    hide Waiting;
    if h in Waiting(reqs, ids) {
      var x := WaitingFor(reqs, ids, h);
    }
  }

  lemma Schedule(rank: Rank, reqs: Requests, ids: seq<Hash>, batch: Store, order: seq<Hash>, disk: set<Hash>,
                 owed: multiset<Hash>, open: set<Hash>, h: Hash, r: Request)
    requires Consistent(rank, reqs, ids, batch, order, disk, owed, open)
    requires h !in batch.Keys + disk && r.deps == 0 && r.data.None? && (r.raw ==> Below(h) == [])
    requires multiset(r.parents) <= owed && forall p | p in r.parents :: rank(h) < rank(p)
    ensures var ids' := if h in reqs then ids else ids + [h];
            Consistent(rank, Scheduled(reqs, h, r), ids', batch, order, disk, owed - multiset(r.parents), open)
  {
    hide Waiting, Below, Completed, Counters, Edges, Waits;
    CountersSchedule(rank, reqs, ids, owed, h, r);
    OwedPending(reqs, ids, owed, r);
    EdgesSchedule(rank, reqs, h, r);
    WaitsSchedule(reqs, batch.Keys + disk, open, h, r);
  }

  lemma EdgesSchedule(rank: Rank, reqs: Requests, h: Hash, r: Request)
    requires Edges(rank, reqs) && r.data.None?
    requires forall p | p in r.parents :: p in reqs && reqs[p].data.Some? && rank(h) < rank(p)
    ensures Edges(rank, Scheduled(reqs, h, r))
  {
    var next := Scheduled(reqs, h, r);
    forall x, q | x in next && q in next[x].parents ensures ParentOk(rank, next, x, q) {
      if x in reqs && q in reqs[x].parents { assert ParentOk(rank, reqs, x, q); }
    }
  }

  lemma WaitsSchedule(reqs: Requests, known: set<Hash>, open: set<Hash>, h: Hash, r: Request)
    requires Waits(reqs, known, open) && r.data.None?
    ensures Waits(Scheduled(reqs, h, r), known, open)
  {
    hide Below;
    var next := Scheduled(reqs, h, r);
    forall x, c | x in next && next[x].data.Some? && x !in open && c in Below(x) ensures Handled(next, known, x, c) {
      assert Handled(reqs, known, x, c);
    }
  }

  lemma OwedPending(reqs: Requests, ids: seq<Hash>, owed: multiset<Hash>, r: Request)
    requires Counters(reqs, ids, owed) && multiset(r.parents) <= owed
    ensures forall p | p in r.parents :: p in reqs && reqs[p].data.Some?
  {
    forall p | p in r.parents ensures p in owed { assert p in multiset(r.parents); }
  }

  // ---------- delivering data ----------

  /** A request takes its data; until its children are scheduled it is open. */
  lemma Deliver(rank: Rank, reqs: Requests, ids: seq<Hash>, batch: Store, order: seq<Hash>, disk: set<Hash>, h: Hash)
    requires Consistent(rank, reqs, ids, batch, order, disk, multiset{}, {})
    requires h in reqs && reqs[h].data.None? && h.Of?
    ensures reqs[h].deps == 0
    ensures Consistent(rank, reqs[h := reqs[h].(data := Some(h.pre))], ids, batch, order, disk, multiset{}, {h})
  {
    hide Waiting, Below, Completed;
    var next, known := reqs[h := reqs[h].(data := Some(h.pre))], batch.Keys + disk;
    NoWaiting(rank, reqs, ids, h);
    forall x | x in ids ensures x in reqs { assert x in Elems(ids); }
    WaitingSame(reqs, next, ids);
    forall x, q | x in next && q in next[x].parents ensures ParentOk(rank, next, x, q) { assert ParentOk(rank, reqs, x, q); }
    forall x, c | x in next && next[x].data.Some? && x != h && c in Below(x) ensures Handled(next, known, x, c) {
      assert Handled(reqs, known, x, c);
    }
  }

  /** Once all children of the open request are handled and it waits for some, it is like any other. */
  lemma Close(rank: Rank, reqs: Requests, ids: seq<Hash>, batch: Store, order: seq<Hash>, disk: set<Hash>, h: Hash)
    requires Consistent(rank, reqs, ids, batch, order, disk, multiset{}, {h}) && h in reqs && reqs[h].deps > 0
    requires forall c | c in Below(h) :: Handled(reqs, batch.Keys + disk, h, c)
    ensures Consistent(rank, reqs, ids, batch, order, disk, multiset{}, {})
  {
  }

  // ---------- writing out ----------

  lemma Flushed(rank: Rank, reqs: Requests, ids: seq<Hash>, batch: Store, order: seq<Hash>, disk: set<Hash>, k: nat)
    requires Consistent(rank, reqs, ids, batch, order, disk, multiset{}, {}) && k <= |order|
    ensures Consistent(rank, reqs, ids, batch, order, disk + Elems(order[..k]), multiset{}, {})
    ensures k == |order| ==> Consistent(rank, reqs, ids, map[], [], disk + Elems(order), multiset{}, {})
  {
    hide Below, Counters, Edges, Delivered;
    var d := disk + Elems(order[..k]);
    forall x | x in order[..k] ensures x in batch { assert x in Elems(order); }
    assert batch.Keys + d == batch.Keys + disk;
    forall i | 0 <= i < |order| ensures Prior(order, d, i) { assert Prior(order, disk, i); }
    if k == |order| {
      var none: Store := map[];
      assert order[..k] == order;
      assert none.Keys + (disk + Elems(order)) == batch.Keys + disk;
      assert Completed(none, [], disk + Elems(order));
    }
  }

  // ---------- progress and completion ----------

  /** As long as anything is pending, something is still to be delivered: the scheduler is never stuck. */
  lemma {:induction false} Undelivered(rank: Rank, reqs: Requests, ids: seq<Hash>, batch: Store, order: seq<Hash>,
                                       disk: set<Hash>, h: Hash)
    returns (x: Hash)
    requires Consistent(rank, reqs, ids, batch, order, disk, multiset{}, {}) && h in reqs
    ensures x in reqs && reqs[x].data.None?
    decreases rank(h)
  {
    hide Below, Completed, Waiting;
    if reqs[h].data.None? {
      x := h;
    } else {
      var c := WaitingFor(reqs, ids, h);
      assert ParentOk(rank, reqs, c, h);
      x := Undelivered(rank, reqs, ids, batch, order, disk, c);
    }
  }

  /** What is completed or on disk is closed under children. */
  lemma KnownClosed(batch: Store, order: seq<Hash>, disk: set<Hash>)
    requires Completed(batch, order, disk) && CacheRuns.Closed(disk)
    ensures CacheRuns.Closed(batch.Keys + disk)
  {
    hide Below;
    forall h, c | h in batch.Keys + disk && c in Below(h) ensures c in batch.Keys + disk {
      if h in batch {
        assert h in Elems(order);
        var i :| 0 <= i < |order| && order[i] == h;
        assert Prior(order, disk, i);
        if c in order[..i] { assert c in Elems(order); }
      }
    }
  }

  // ---------- arriving ----------

  /** The data of a hash has arrived. */
  ghost predicate Arrived(reqs: Requests, known: set<Hash>, x: Hash) {
    x in known || (x in reqs && reqs[x].data.Some?)
  }

  /** Requests were completed, and apart from counters nothing else changed. */
  ghost predicate Moved(a: Requests, ka: set<Hash>, b: Requests, kb: set<Hash>) {
    && b.Keys <= a.Keys && b.Keys + kb == a.Keys + ka && ka <= kb
    && (forall x | x in b :: b[x] == a[x].(deps := b[x].deps))
    && (forall x | x in kb && x !in ka :: x in a && a[x].data.Some?)
  }
}
