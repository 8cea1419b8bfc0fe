/**
 How long nodes have been in memory unused. A node's generation is that of its last
 change, or of the last load at or below it, so a node is never older than the nodes it
 holds, and a commit that drops a node for its age drops nothing younger with it. The
 count has 16 bits: this lasts exactly until a node as old as the count reaches lies
 under one that is not.
 */
module Ages {
  import opened Rlp
  import opened Encoding
  import opened Trees
  import opened Nodes
  import opened Ops
  import opened Hashers
  import opened History

  function Age(f: Flag, now: Uint16): nat {
    (now - f.gen) % 65536
  }

  predicate Inner(n: Node) {
    n.ShortNode? || n.FullNode?
  }

  /** The node, when it is in memory, has been unused for at least as long. */
  predicate AtLeast(n: Node, age: nat, now: Uint16) {
    Inner(n) ==> Age(n.flags, now) >= age
  }

  /** No node in memory is older than one that it holds. */
  ghost predicate AgedDown(n: Node, now: Uint16) {
    match n
    case ShortNode(_, v, f) => AtLeast(v, Age(f, now), now) && AgedDown(v, now)
    case FullNode(kids, f) => forall i | 0 <= i < |kids| :: AtLeast(kids[i], Age(f, now), now) && AgedDown(kids[i], now)
    case _ => true
  }

  /** Every node in memory has been unused for at least as long. */
  ghost predicate AllAtLeast(n: Node, age: nat, now: Uint16) {
    && AtLeast(n, age, now)
    && match n
       case ShortNode(_, v, _) => AllAtLeast(v, age, now)
       case FullNode(kids, _) => forall i | 0 <= i < |kids| :: AllAtLeast(kids[i], age, now)
       case _ => true
  }

  lemma {:induction false} OlderBelow(n: Node, age: nat, now: Uint16)
    requires AgedDown(n, now) && AtLeast(n, age, now)
    ensures AllAtLeast(n, age, now)
  {
    match n
    case ShortNode(_, v, _) => OlderBelow(v, age, now);
    case FullNode(kids, _) =>
      forall i | 0 <= i < |kids| ensures AllAtLeast(kids[i], age, now) { OlderBelow(kids[i], age, now); }
    case _ =>
  }

  // ---------- loading and changing ----------

  /** What is loaded is new. */
  lemma {:induction false} LoadedNew(h: Hash, buf: Item, now: Uint16)
    ensures Decode(h, buf, now).Some? ==> AgedDown(Decode(h, buf, now).value, now)
    decreases buf, 0
  {
    hide Uncompact, Size;
    if buf.List? && |buf.items| == 2 {
      RefNew(buf.items[1], now);
      assert Decode(h, buf, now) == DecodeShort(h, buf, now);
    } else if buf.List? && |buf.items| == 17 {
      forall i | 0 <= i < 16 ensures DecodeRef(buf.items[i], now).Some? ==> AgedDown(DecodeRef(buf.items[i], now).value, now) {
        RefNew(buf.items[i], now);
      }
      assert Decode(h, buf, now) == DecodedFull(h, buf, now);
    }
  }

  lemma {:induction false} RefNew(buf: Item, now: Uint16)
    ensures DecodeRef(buf, now).Some? ==> AgedDown(DecodeRef(buf, now).value, now)
    decreases buf, 1
  {
    hide Decode;
    if buf.List? { LoadedNew(Zero, buf, now); }
  }

  lemma {:induction false} GetAge(db: Store, now: Uint16, n: Node, key: Hex)
    requires Usable(db, n, key) && AgedDown(n, now)
    ensures var r := TryGet(db, now, n, key); r.Got? ==> AgedDown(r.node, now)
    decreases |key|, if n.HashNode? then 1 else 0
  {
    hide Good, Slot, Decode;
    match n
    case ShortNode(k, v, _) =>
      if k <= key {
        UsableShort(db, n, key);
        GetAge(db, now, v, key[|k|..]);
      }
    case FullNode(kids, _) =>
      UsableFull(db, n, key);
      GetAge(db, now, kids[key[0]], key[1..]);
    case HashNode(h) =>
      if h in db {
        UsableHash(db, n, key, now);
        LoadedNew(h, db[h], now);
        GetAge(db, now, Resolve(db, h, now).value, key);
      }
    case _ =>
  }

  lemma InsertedAge(n: Node, now: Uint16, c: Node, i: nat)
    requires n.FullNode? && AgedDown(n, now) && AgedDown(c, now) && i < |n.kids|
    ensures AgedDown(FullNode(n.kids[i := c], NewFlag(now)), now)
  {
  }

  lemma SplitAge(n: Node, key: Hex, m: nat, v: Bytes, now: Uint16)
    requires n.ShortNode? && m < |n.key| && m < |key| && AgedDown(n, now)
    ensures AgedDown(Ops.Split(n, key, m, v, now), now)
  {
    var a, b := Graft(n.key[m + 1..], n.val, now), Graft(key[m + 1..], Value(v), now);
    assert AgedDown(a, now) && AgedDown(b, now);
    var s := Ops.Split(n, key, m, v, now);
    assert forall i | 0 <= i < 17 :: s.kids[i] in {Nil, a, b};
  }

  lemma {:induction false} InsertAge(db: Store, now: Uint16, n: Node, key: Hex, v: Bytes)
    requires Usable(db, n, key) && AgedDown(n, now)
    ensures var out := Insert(db, now, n, key, v); out.Done? ==> AgedDown(out.node, now)
    decreases |key|, if n.HashNode? then 1 else 0
  {
    hide Good, Slot, Decode, Ops.Split;
    if key != [] {
      UsableInsert(db, n, key);
      match n
      case ShortNode(k, c, _) =>
        var m := Common(key, k);
        if m == |k| { InsertAge(db, now, c, key[m..], v); } else { SplitAge(n, key, m, v, now); }
      case FullNode(kids, _) =>
        UsableFull(db, n, key);
        InsertAge(db, now, kids[key[0]], key[1..], v);
        var out := Insert(db, now, kids[key[0]], key[1..], v);
        if out.Done? { InsertedAge(n, now, out.node, key[0]); }
      case Nil =>
      case HashNode(h) =>
        if h in db {
          UsableHash(db, n, key, now);
          LoadedNew(h, db[h], now);
          InsertAge(db, now, Resolve(db, h, now).value, key, v);
        }
    }
  }

  lemma ReduceAge(db: Store, now: Uint16, kids: seq<Node>)
    requires |kids| == 17 && forall i | 0 <= i < 17 :: AgedDown(kids[i], now)
    ensures var out := Reduce(db, now, kids); out.Done? ==> AgedDown(out.node, now)
  {
    hide Decode;
    var pos := OnlyKid(kids);
    if 0 <= pos < 16 && kids[pos].HashNode? && kids[pos].hash in db { LoadedNew(kids[pos].hash, db[kids[pos].hash], now); }
  }

  lemma {:induction false} DeleteAge(db: Store, now: Uint16, n: Node, key: Hex)
    requires Usable(db, n, key) && AgedDown(n, now)
    ensures var out := Delete(db, now, n, key); out.Done? ==> AgedDown(out.node, now)
    decreases |key|, if n.HashNode? then 1 else 0
  {
    hide Good, Slot, Decode, Reduce;
    match n
    case ShortNode(k, c, _) =>
      CommonPrefix(key, k);
      if Common(key, k) == |k| && |k| < |key| {
        UsableShort(db, n, key);
        DeleteAge(db, now, c, key[|k|..]);
      }
    case FullNode(kids, _) =>
      UsableFull(db, n, key);
      DeleteAge(db, now, kids[key[0]], key[1..]);
      var out := Delete(db, now, kids[key[0]], key[1..]);
      if out.Done? { ReduceAge(db, now, kids[key[0] := out.node]); }
    case HashNode(h) =>
      if h in db {
        UsableHash(db, n, key, now);
        LoadedNew(h, db[h], now);
        DeleteAge(db, now, Resolve(db, h, now).value, key);
      }
    case _ =>
  }

  lemma UpdateAge(db: Store, now: Uint16, n: Node, op: Op)
    requires Addressed(db) && Root(n, db.Keys) && AgedDown(n, now)
    ensures var out := Update(db, now, n, op); out.Done? ==> AgedDown(out.node, now)
  {
    hide Insert, Delete, Root;
    RootUsable(db, n, op.key);
    if op.value == [] {
      DeleteAge(db, now, n, KeyHex(op.key));
    } else {
      InsertAge(db, now, n, KeyHex(op.key), op.value);
    }
  }

  // ---------- hashing and committing ----------

  /** What is in memory before and not after has been unused for the limit. */
  ghost predicate DropsOld(n: Node, r: Node, now: Uint16, limit: Uint16) {
    if r.HashNode? then AllAtLeast(n, limit, now)
    else
      match n
      case ShortNode(_, v, _) => r.ShortNode? && DropsOld(v, r.val, now, limit)
      case FullNode(kids, _) =>
        r.FullNode? && |r.kids| == |kids| && forall i | 0 <= i < |kids| :: DropsOld(kids[i], r.kids[i], now, limit)
      case _ => r == n
  }

  lemma {:induction false} DropsNone(n: Node, now: Uint16, limit: Uint16)
    ensures DropsOld(n, n, now, limit)
  {
    match n
    case ShortNode(_, v, _) => DropsNone(v, now, limit);
    case FullNode(kids, _) =>
      forall i | 0 <= i < |kids| ensures DropsOld(kids[i], kids[i], now, limit) { DropsNone(kids[i], now, limit); }
    case _ =>
  }

  /** Hashing and committing keep the ages in order, and drop nothing that is younger than the limit. */
  lemma {:induction false} TrimmedAge(n: Node, r: Node, commit: bool, now: Uint16, limit: Uint16)
    requires Trimmed(n, r, commit, now, limit) && AgedDown(n, now)
    ensures AgedDown(r, now) && DropsOld(n, r, now, limit)
    ensures Inner(n) && Inner(r) ==> r.flags.gen == n.flags.gen
  {
    if Inner(n) && Unwalked(n.flags, commit) {
      DropsNone(n, now, limit);
      if r.HashNode? { OlderBelow(n, limit, now); }
    } else {
      match n
      case ShortNode(_, v, _) => TrimmedAge(v, r.val, commit, now, limit);
      case FullNode(kids, _) =>
        forall i | 0 <= i < |kids|
          ensures AgedDown(r.kids[i], now) && DropsOld(kids[i], r.kids[i], now, limit)
          ensures Inner(kids[i]) && Inner(r.kids[i]) ==> r.kids[i].flags.gen == kids[i].flags.gen
        {
          TrimmedAge(kids[i], r.kids[i], commit, now, limit);
        }
      case _ =>
    }
  }

  // ---------- the next generation ----------

  /** No node that the count has run out for lies under one for which it has not. */
  ghost predicate RunsOn(n: Node, now: Uint16) {
    match n
    case ShortNode(_, v, f) => RunsTo(v, f, now) && RunsOn(v, now)
    case FullNode(kids, f) => forall i | 0 <= i < |kids| :: RunsTo(kids[i], f, now) && RunsOn(kids[i], now)
    case _ => true
  }

  predicate RunsTo(c: Node, f: Flag, now: Uint16) {
    Inner(c) && Age(c.flags, now) == 65535 ==> Age(f, now) == 65535
  }

  lemma NextAge(f: Flag, now: Uint16)
    ensures Age(f, (now + 1) % 65536) == if Age(f, now) == 65535 then 0 else Age(f, now) + 1
  {
  }

  lemma NextPair(c: Node, f: Flag, now: Uint16)
    requires AtLeast(c, Age(f, now), now)
    ensures AtLeast(c, Age(f, (now + 1) % 65536), (now + 1) % 65536) <==> RunsTo(c, f, now)
  {
    hide Age;
    NextAge(f, now);
    if Inner(c) { NextAge(c.flags, now); }
  }

  /** The order of ages lasts into the next generation exactly as long as the count does. */
  lemma {:induction false} NextGeneration(n: Node, now: Uint16)
    requires AgedDown(n, now)
    ensures AgedDown(n, (now + 1) % 65536) <==> RunsOn(n, now)
  {
    hide Age, AtLeast, RunsTo;
    match n
    case ShortNode(_, v, f) =>
      NextPair(v, f, now);
      NextGeneration(v, now);
    case FullNode(kids, f) =>
      forall i | 0 <= i < |kids|
        ensures AtLeast(kids[i], Age(f, (now + 1) % 65536), (now + 1) % 65536) <==> RunsTo(kids[i], f, now)
        ensures AgedDown(kids[i], (now + 1) % 65536) <==> RunsOn(kids[i], now)
      {
        NextPair(kids[i], f, now);
        NextGeneration(kids[i], now);
      }
    case _ =>
  }

  /** A node used now over one that the count has run out for: the next generation takes the older for new. */
  lemma RunsOut(now: Uint16, key: Hex)
    ensures var n := ShortNode(key, FullNode(NoKids(), Flag(Zero, (now + 1) % 65536, false)), Flag(Zero, now, false));
      AgedDown(n, now) && !AgedDown(n, (now + 1) % 65536)
  {
    OldestAge(now);
    NextAge(Flag(Zero, (now + 1) % 65536, false), now);
    NextAge(Flag(Zero, now, false), now);
    NoneHeld(key, Flag(Zero, (now + 1) % 65536, false), Flag(Zero, now, false), now);
    NoneHeld(key, Flag(Zero, (now + 1) % 65536, false), Flag(Zero, now, false), (now + 1) % 65536);
    hide *;
  }

  lemma OldestAge(now: Uint16)
    ensures Age(Flag(Zero, (now + 1) % 65536, false), now) == 65535 && Age(Flag(Zero, now, false), now) == 0
  {
  }

  lemma NoneHeld(key: Hex, f: Flag, g: Flag, now: Uint16)
    ensures AgedDown(ShortNode(key, FullNode(NoKids(), f), g), now) <==> Age(f, now) >= Age(g, now)
  {
    hide Age, NoKids;
    assert AgedDown(FullNode(NoKids(), f), now);
  }
}
