/** Leaf callbacks at work: one that asks for a trie below a leaf, two that fail and do harm, and one that is not told. */
module SyncExamples {
  import opened Rlp
  import opened Encoding
  import opened Trees
  import opened Nodes
  import opened Raws
  import opened Caches
  import opened SyncStates
  import opened SyncCalls
  import opened SyncHeard
  import opened Syncs

  /** The callback that always gives the same answer. */
  function Always(reply: Reply): (f: Leaf)
    ensures forall v, p :: f(v, p) == reply
  {
    (v, p) => reply
  }

  lemma {:induction false} NoRefs(items: seq<Item>)
    requires forall i | 0 <= i < |items| :: items[i].Str?
    ensures RefsOf(items) == []
  {
    if items != [] { NoRefs(items[1..]); }
  }

  lemma {:induction false} NoValues(leaf: Leaf, kids: seq<Node>, h: Hash)
    requires forall i | 0 <= i < |kids| :: !kids[i].Value?
    ensures Served(leaf, kids, h) == [] && !FailsFor(leaf, kids, h)
  {
    if kids != [] { NoValues(leaf, kids[1..], h); }
  }

  /** The answer to a node whose only value is its last child. */
  lemma OneValue(reply: Reply, kids: seq<Node>, h: Hash)
    requires kids != [] && kids[|kids| - 1].Value? && forall i | 0 <= i < |kids| - 1 :: !kids[i].Value?
    ensures var leaf := Always(reply); Served(leaf, kids, h) == reply.calls && (FailsFor(leaf, kids, h) <==> reply.failed)
  {
    var leaf, n := Always(reply), |kids| - 1;
    NoValues(leaf, kids[..n], h);
    ServedLast(leaf, kids[..n], kids[n], h);
    assert kids == kids[..n] + [kids[n]];
  }

  lemma NothingAdded(reqs: Requests, h: Hash, known: set<Hash>, emptyState: Hash)
    requires h in reqs
    ensures Additions([], known, emptyState) == [] && AddedAll(reqs, [], h) == reqs && Roots([]) == {}
  {
  }

  lemma OneAdded(reqs: Requests, c: Call, h: Hash, known: set<Hash>, emptyState: Hash)
    requires h in reqs && Adds(c, known, emptyState)
    ensures Additions([c], known, emptyState) == [c] && Roots([c]) == {c.root}
    ensures AddedAll(reqs, [c], h) == Added(reqs, c.root, CallRequest(c), h)
  {
    hide Adds, Added, CallRequest, Roots;
    assert [c][..0] == [];
    OneRoot(c);
  }

  lemma OneRoot(c: Call)
    ensures Roots([c]) == {c.root}
  {
    assert [c][0] in [c];
  }

  /** The request for a root once its data is there. */
  function RootRequest(h: Hash): Request
    requires h.Of?
  {
    Request(false, Some(h.pre), [], 0, 0, true)
  }

  /** A node with one value, its last child. */
  ghost predicate OneValued(h: Hash) {
    && h.Of? && Decode(h, h.pre, 0).Some?
    && var kids := Childs(Decode(h, h.pre, 0).value);
       kids != [] && kids[|kids| - 1].Value? && forall i | 0 <= i < |kids| - 1 :: !kids[i].Value?
  }

  lemma Answers(reply: Reply, h: Hash, emptyState: Hash)
    requires OneValued(h)
    ensures IsTrie(h) && h != EMPTY_ROOT
    ensures var leaf, req := Always(reply), Request(false, None, [], 0, 0, true);
            && (FailsFor(leaf, Childs(Decode(h, h.pre, 0).value), h) <==> reply.failed)
            && Asks(leaf, req, h, {}, emptyState) == Additions(reply.calls, {}, emptyState)
            && AfterCalls(map[h := req], leaf, h, {}, emptyState) ==
               AddedAll(map[h := RootRequest(h)], Additions(reply.calls, {}, emptyState), h)
  {
    hide Decode, Additions, AddedAll, Served, FailsFor, Childs;
    OneValue(reply, Childs(Decode(h, h.pre, 0).value), h);
    IsNode(h);
    var req := Request(false, None, [], 0, 0, true);
    assert map[h := req][h := req.(data := Some(h.pre))] == map[h := RootRequest(h)];
  }

  lemma IsNode(h: Hash)
    requires h.Of? && Decode(h, h.pre, 0).Some?
    ensures IsTrie(h) && h != EMPTY_ROOT
  {
  }

  lemma AnswersFit(rank: Rank, reply: Reply, h: Hash)
    requires CallsOk(rank, reply.calls, h)
    ensures Fit(rank, Always(reply), h)
  {
    hide Decode, CallsOk, Childs;
  }

  /** Starts a download and delivers its root, for which the callback gives an answer. */
  method Answer(h: Hash, reply: Reply, emptyState: Hash, ghost rank: Rank) returns (sync: Sync, failure: Failure)
    requires OneValued(h) && Ranked(rank) && CallsOk(rank, reply.calls, h)
    ensures fresh(sync) && (reply.failed ==> sync.Known() == {})
    ensures failure == if reply.failed then CallbackFailed else NoFailure
    ensures reply.failed ==> sync.requests == AddedAll(map[h := RootRequest(h)], Additions(reply.calls, {}, emptyState), h)
    ensures reply.failed ==> (sync.Valid() <==> Harmless(h, Additions(reply.calls, {}, emptyState)))
    ensures !reply.failed && Below(h) == [] && Additions(reply.calls, {}, emptyState) != [] ==>
              sync.Valid() && sync.requests == AddedAll(map[h := RootRequest(h)], Additions(reply.calls, {}, emptyState), h)
  {
    hide Decode, Ranked, CallsOk, Below, Consistent, Served, FailsFor, Additions, AddedAll, IsTrie, Roots, Childs, OneValued;
    hide Always, AfterCalls, AfterNode, Asks;
    Answers(reply, h, emptyState);
    AnswersFit(rank, reply, h);
    assert h.Of? && Decode(h, h.pre, 0).Some? by { NodeOf(h); }
    sync := new Sync(h, map[], true, Always(reply), emptyState, 0, rank);
    assert sync.Known() == {};
    var done;
    done, failure := sync.ProcessOne(Result(h, h.pre));
    NoJobs(map[h := Request(false, None, [], 0, 0, true)], Always(reply), h, emptyState);
  }

  lemma NodeOf(h: Hash)
    requires OneValued(h)
    ensures h.Of? && Decode(h, h.pre, 0).Some?
  {
  }

  ghost predicate Harmless(h: Hash, asks: seq<Call>) {
    asks != [] && forall c | c in Below(h) :: c in Roots(asks)
  }

  lemma NoJobs(reqs: Requests, leaf: Leaf, h: Hash, emptyState: Hash)
    requires h in reqs && h.Of? && Decode(h, h.pre, 0).Some?
    ensures Below(h) == [] ==> AfterNode(reqs, leaf, h, {}, emptyState) == AfterCalls(reqs, leaf, h, {}, emptyState)
  {
    hide Decode, AfterCalls;
    if Below(h) == [] {
      assert KidJobs(reqs[h], h, {}) == [];
      var r := AfterCalls(reqs, leaf, h, {}, emptyState);
      assert Indebted(r, h, 0) == r;
    }
  }

  // ---------- a trie below a leaf ----------

  function LeafItem(key: Bytes, value: Bytes): Item {
    List([Str(Compact(KeyHex(key))), Str(value)])
  }

  lemma LeafDecodes(key: Bytes, value: Bytes, h: Hash)
    requires h == Of(LeafItem(key, value))
    ensures OneValued(h) && Below(h) == []
  {
    hide Compact, KeyHex, Uncompact;
    KeyRoundTrip(key);
    CompactRoundTrip(KeyHex(key));
    NoRefs(h.pre.items);
    assert Decode(h, h.pre, 0) == Some(ShortNode(KeyHex(key), Value(value), Flag(h, 0, false)));
  }

  /**
   A trie below a leaf: when the data of the leaf arrives, the trie that its callback asks for
   is scheduled, and the leaf waits for it.
   */
  method SubTrieAtLeaf(key: Bytes, value: Bytes, root: Hash) returns (sync: Sync, h: Hash)
    requires IsTrie(root) && root != EMPTY_ROOT && !Inside(Of(LeafItem(key, value)), root)
    ensures sync.Valid() && h == Of(LeafItem(key, value)) && root !in Below(h)
    ensures sync.requests == map[h := RootRequest(h).(deps := 1), root := Request(false, None, [h], 64, 0, false)]
  {
    hide Decode, Ranked, LeafItem, Below, IsTrie, Inside, Additions, AddedAll, OneValued, Sync.Valid;
    h := Of(LeafItem(key, value));
    LeafDecodes(key, value, h);
    ghost var rank := MayStandAbove({h}, {root});
    var ask := SubTrie(root, 64, false);
    assert CallsOk(rank, [ask], h);
    var failure;
    sync, failure := Answer(h, Reply([ask], false), Zero, rank);
    OneAdded(map[h := RootRequest(h)], ask, h, {}, Zero);
    AddedBeside(h, root, CallRequest(ask));
  }

  lemma AddedBeside(h: Hash, c: Hash, req: Request)
    requires h.Of? && h != c && req.parents == []
    ensures Added(map[h := RootRequest(h)], c, req, h) == map[h := RootRequest(h).(deps := 1), c := req.(parents := [h])]
  {
  }

  // ---------- callbacks that fail ----------

  /** A full node with a value and one child stored under its own hash. */
  function ForkItem(x: Hash): Item {
    List(seq(17, i => if i == 0 then Ref(x) else if i == 16 then Str([1]) else Str([])))
  }

  lemma ForkDecodes(x: Hash, h: Hash)
    requires h == Of(ForkItem(x))
    ensures OneValued(h) && Below(h) == [x]
  {
    var items := h.pre.items;
    NoRefs(items[1..]);
    assert RefsOf(items) == Refs(items[0]) + RefsOf(items[1..]);
    assert forall i | 0 <= i < 16 :: DecodeRef(items[i], 0).Some?;
  }

  /**
   A failure that does harm: the node h has a value and a missing child x; its callback asks
   for the raw entry c and then fails. h keeps its data and waits for c only, although x was
   never scheduled: when c arrives h is completed without x.
   */
  method FailingCallback() returns (sync: Sync, h: Hash, c: Hash, x: Hash, failure: Failure)
    ensures failure == CallbackFailed && !sync.Valid() && x in Below(h) && x !in sync.requests && x !in sync.Known()
    ensures h.Of? && c.Of? && h != c
    ensures sync.requests == map[h := RootRequest(h).(deps := 1), c := Request(true, None, [h], 0, 0, false)]
    ensures !Completed(map[c := c.pre, h := h.pre], [c, h], {})
  {
    hide Decode, Ranked, ForkItem, Additions, AddedAll, OneValued, Sync.Valid;
    x, c := Of(Str([2])), Of(Str([3]));
    h := Of(ForkItem(x));
    ForkDecodes(x, h);
    ghost var rank := MayStandAbove({h}, {c});
    var ask := RawEntry(c, 0);
    assert CallsOk(rank, [ask], h);
    sync, failure := Answer(h, Reply([ask], true), Zero, rank);
    OneAdded(map[h := RootRequest(h)], ask, h, {}, Zero);
    AddedBeside(h, c, CallRequest(ask));
    assert x in [x];
    assert !Prior([c, h], {}, 1) by { assert [c, h][..1] == [c] && [c, h][1] == h; }
  }

  /**
   A failure that blocks: the callback fails without asking for anything. The node has its
   data and waits for nothing, so nothing is left to deliver that would complete it.
   */
  method SilentFailure() returns (sync: Sync, h: Hash, failure: Failure)
    ensures failure == CallbackFailed && !sync.Valid() && h.Of? && sync.requests == map[h := RootRequest(h)]
    ensures forall x | x in sync.requests :: sync.requests[x].data.Some?
  {
    hide Decode, Ranked, ForkItem, Additions, AddedAll, OneValued, Sync.Valid;
    var x := Of(Str([2]));
    h := Of(ForkItem(x));
    ForkDecodes(x, h);
    ghost var rank := MayStandAbove({h}, {x});
    sync, failure := Answer(h, Reply([], true), Zero, rank);
    NothingAdded(map[h := RootRequest(h)], h, {}, Zero);
  }

  // ---------- a node that the callback is not told of ----------

  /** A full node with one child stored under its own hash, and nothing else. */
  function StemItem(x: Hash): Item {
    List(seq(17, i => if i == 0 then Ref(x) else Str([])))
  }

  lemma StemKids(x: Hash, h: Hash)
    requires h == Of(StemItem(x))
    ensures Decode(h, h.pre, 0).Some? && forall n | n in Childs(Decode(h, h.pre, 0).value) :: !n.Value?
  {
    var items := h.pre.items;
    assert forall i | 0 <= i < 16 :: DecodeRef(items[i], 0).Some? && !DecodeRef(items[i], 0).value.Value?;
    assert items[16] == Str([]);
    assert Decode(h, h.pre, 0) == DecodedFull(h, h.pre, 0);
  }

  lemma StemDecodes(x: Hash, h: Hash, leaf: Leaf, rank: Rank)
    requires h == Of(StemItem(x))
    ensures Decode(h, h.pre, 0).Some? && Below(h) == [x] && Inside(x, h) && Fit(rank, leaf, h)
    ensures var kids := Childs(Decode(h, h.pre, 0).value); Served(leaf, kids, h) == [] && !FailsFor(leaf, kids, h)
  {
    hide Decode, Served, FailsFor, Childs;
    StemKids(x, h);
    var items := h.pre.items;
    NoRefs(items[1..]);
    assert RefsOf(items) == Refs(items[0]) + RefsOf(items[1..]);
    NoValues(leaf, Childs(Decode(h, h.pre, 0).value), h);
    assert x in [x];
    BelowInside(h, x);
  }

  lemma NothingAsked(leaf: Leaf, req: Request, h: Hash, known: set<Hash>, emptyState: Hash)
    requires !req.callback || (h.Of? && Decode(h, h.pre, 0).Some? && Served(leaf, Childs(Decode(h, h.pre, 0).value), h) == [])
    ensures Roots(CallsFor(leaf, req, h)) == {} && Asks(leaf, req, h, known, emptyState) == []
  {
    hide Decode, Served, Childs;
  }

  /** Downloads a node that refers to nothing, without a callback. */
  method PlainNode(x: Hash, leaf: Leaf, ghost rank: Rank) returns (sync: Sync)
    requires OneValued(x) && Below(x) == [] && Ranked(rank)
    ensures fresh(sync) && sync.Valid() && sync.leaf == leaf && sync.rank == rank && sync.emptyState == Zero
    ensures sync.requests == map[] && sync.asked == {x} && sync.base == {} && x in sync.Known()
    ensures sync.Known() == {x}
  {
    hide Decode, Ranked, Below, Served, FailsFor, Childs, OneValued, Sync.Holds, Roots, SameRoots, AskingAll;
    hide AfterNode, AfterCalls;
    NodeOf(x);
    IsNode(x);
    sync := new Sync(x, map[], false, leaf, Zero, 0, rank);
    NothingAsked(leaf, sync.requests[x], x, {}, Zero);
    assert sync.Known() == {};
    var done, failure := sync.ProcessOne(Result(x, x.pre));
    assert sync.requests.Keys == {};
  }

  /**
   Why the way a node is first requested matters: a leaf x is downloaded without a callback, and
   then a trie over it with one. The trie finds x known, so the callback is never told of x, and
   what it would ask for there is not asked for.
   */
  method PlainFirst(key: Bytes, value: Bytes) returns (sync: Sync, r: Hash, x: Hash, c: Hash)
    ensures sync.Valid() && sync.requests == map[] && r in sync.log.eager && Inside(x, r) && x in sync.log.plain
    ensures x !in sync.base
    ensures c in Roots(CallsAt(sync.leaf, x)) && c !in sync.asked
  {
    hide Decode, Ranked, LeafItem, StemItem, Below, Inside, Served, FailsFor, Childs, OneValued, Sync.Holds, Roots, CallsAt;
    hide AskingAll, AfterNode, AfterCalls;
    x, c := Of(LeafItem(key, value)), Of(Str([3]));
    r := Of(StemItem(x));
    var reply := Reply([RawEntry(c, 0)], false);
    var leaf := Always(reply);
    ghost var rank := MayStandAbove({}, {});
    LeafDecodes(key, value, x);
    sync := PlainNode(x, leaf, rank);
    StemNew(key, value, x, r);
    TrieOver(sync, x, r);
    StemDecodes(x, r, leaf, rank);
    LeafAsks(reply, x, c);
    HeardExactly(sync, x);
  }

  /** Downloads a trie over a node that is known, with a callback. */
  method TrieOver(sync: Sync, x: Hash, r: Hash)
    requires sync.Valid() && sync.requests == map[] && sync.Known() == {x} && r == Of(StemItem(x)) && r != x
    modifies sync
    ensures sync.Valid() && sync.requests == map[] && x in sync.Known() && sync.base == old(sync.base)
    ensures sync.asked == old(sync.asked) + {r} && r in sync.log.eager
  {
    hide Decode, Ranked, StemItem, Below, Served, FailsFor, Childs, Sync.Holds, Roots, AskingAll, AfterNode, AfterCalls, Advanced;
    StemDecodes(x, r, sync.leaf, sync.rank);
    IsNode(r);
    sync.AddSubTrie(r, 0, Zero, true, {});
    NothingAsked(sync.leaf, sync.requests[r], r, sync.Known(), sync.emptyState);
    NothingCalled(sync.log, sync.leaf, sync.requests[r], r);
    assert sync.requests.Keys == {r};
    var done, failure := sync.ProcessOne(Result(r, r.pre));
    assert sync.requests.Keys == {};
  }

  lemma NothingCalled(log: Log, leaf: Leaf, req: Request, h: Hash)
    requires h.Of? && Decode(h, h.pre, 0).Some? && Served(leaf, Childs(Decode(h, h.pre, 0).value), h) == []
    ensures AskingAll(log, CallsFor(leaf, req, h)) == log
  {
    hide Decode, Served, Childs;
  }

  lemma StemNew(key: Bytes, value: Bytes, x: Hash, r: Hash)
    requires x == Of(LeafItem(key, value)) && r == Of(StemItem(x))
    ensures r != x && x != Of(Str([3])) && r != Of(Str([3]))
  {
  }

  lemma LeafAsks(reply: Reply, x: Hash, c: Hash)
    requires OneValued(x) && reply.calls == [RawEntry(c, 0)]
    ensures c in Roots(CallsAt(Always(reply), x))
  {
    hide Decode, Childs, Served;
    OneValue(reply, Childs(Decode(x, x.pre, 0).value), x);
    assert RawEntry(c, 0) in reply.calls;
  }
}
