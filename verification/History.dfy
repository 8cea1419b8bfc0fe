/**
 A trie as a map from keys to values, over whole runs of updates and deletes:
 what it holds, and that it does not remember how it got there.
 */
module History {
  import opened Rlp
  import opened Encoding
  import opened Trees
  import opened Nodes
  import opened Ops

  /** Only whole keys are present. */
  ghost predicate WholeKeys(t: Tree) {
    forall k: Hex :: Lookup(t, k).Some? ==> IsKey(k)
  }

  function Find(m: map<Bytes, Bytes>, key: Bytes): Option<Bytes> {
    if key in m then Some(m[key]) else None
  }

  /** The canonical tree of a key/value map. */
  ghost predicate Represents(t: Tree, m: map<Bytes, Bytes>) {
    && Canonical(t) && WholeKeys(t)
    && forall k: Bytes :: Lookup(t, KeyHex(k)) == Find(m, k)
  }

  /** There is only one. */
  lemma OnlyTree(a: Tree, b: Tree, m: map<Bytes, Bytes>)
    requires Represents(a, m) && Represents(b, m)
    ensures a == b
  {
    forall k: Hex ensures Lookup(a, k) == Lookup(b, k) {
      if IsKey(k) {
        HexRoundTrip(k);
        assert Lookup(a, KeyHex(KeyBytes(k))) == Find(m, KeyBytes(k)) == Lookup(b, KeyHex(KeyBytes(k)));
      }
    }
    Unique(a, b);
  }

  lemma OnlyMap(t: Tree, m: map<Bytes, Bytes>, n: map<Bytes, Bytes>)
    requires Represents(t, m) && Represents(t, n)
    ensures m == n
  {
    forall k ensures Find(m, k) == Find(n, k) {
      assert Lookup(t, KeyHex(k)) == Find(m, k) == Find(n, k);
    }
    assert forall k :: Find(m, k) == Find(n, k);
    forall k | k in m ensures k in n && m[k] == n[k] { assert Find(m, k) == Find(n, k); }
    forall k | k in n ensures k in m { assert Find(m, k) == Find(n, k); }
  }

  /** An update; the empty value deletes. */
  datatype Op = Op(key: Bytes, value: Bytes)

  function Applied(m: map<Bytes, Bytes>, op: Op): map<Bytes, Bytes> {
    if op.value == [] then m - {op.key} else m[op.key := op.value]
  }

  function AppliedAll(m: map<Bytes, Bytes>, ops: seq<Op>): map<Bytes, Bytes>
    decreases |ops|
  {
    if ops == [] then m else AppliedAll(Applied(m, ops[0]), ops[1..])
  }

  /** A live root node. */
  ghost predicate Root(n: Node, s: set<Hash>) {
    Sound(n, s) && Canonical(Denotes(n)) && Rooted(n)
  }

  lemma RootUsable(db: Store, n: Node, key: Bytes)
    requires Addressed(db) && Root(n, db.Keys)
    ensures Usable(db, n, KeyHex(key))
  {
    KeyRoundTrip(key);
  }

  /** TryUpdate on the root node. */
  function Update(db: Store, gen: Uint16, n: Node, op: Op): Outcome
    requires Addressed(db) && Root(n, db.Keys)
  {
    RootUsable(db, n, op.key);
    if op.value == [] then Delete(db, gen, n, KeyHex(op.key)) else Insert(db, gen, n, KeyHex(op.key), op.value)
  }

  lemma {:induction false} RootedInsert(db: Store, gen: Uint16, n: Node, key: Hex, v: Bytes)
    requires Usable(db, n, key) && Rooted(n)
    ensures var out := Insert(db, gen, n, key, v); out.Done? ==> Rooted(out.node)
    decreases if n.HashNode? then 1 else 0
  {
    hide Usable, Resolve;
    if n.HashNode? && n.hash in db {
      UsableHash(db, n, key, gen);
      RootedLoad(db, n, key, gen);
      RootedInsert(db, gen, Resolve(db, n.hash, gen).value, key, v);
    }
  }

  lemma {:induction false} RootedDelete(db: Store, gen: Uint16, n: Node, key: Hex)
    requires Usable(db, n, key) && Rooted(n)
    ensures var out := Delete(db, gen, n, key); out.Done? ==> Rooted(out.node)
    decreases if n.HashNode? then 1 else 0
  {
    hide Usable, Resolve, Load;
    if n.HashNode? && n.hash in db {
      UsableHash(db, n, key, gen);
      RootedLoad(db, n, key, gen);
      RootedDelete(db, gen, Resolve(db, n.hash, gen).value, key);
    }
  }

  lemma RootedLoad(db: Store, n: Node, key: Hex, gen: Uint16)
    requires Usable(db, n, key) && n.HashNode? && n.hash in db
    ensures Resolve(db, n.hash, gen).Some? && Rooted(Resolve(db, n.hash, gen).value)
  {
    DecodeEncode(Denotes(n), n.hash, gen, db.Keys);
  }

  /** One update of the root: the map changes at one key, and the change is reported exactly when there is one. */
  ghost predicate Updated(db: Store, n: Node, op: Op, out: Outcome) {
    match out
    case Missing(h) => h !in db && !Loadable(n, db.Keys)
    case Done(dirty, r) =>
      && Root(r, db.Keys) && (Loadable(n, db.Keys) ==> Loadable(r, db.Keys))
      && (forall k: Bytes :: Lookup(Denotes(r), KeyHex(k)) ==
            if k != op.key then Lookup(Denotes(n), KeyHex(k)) else if op.value == [] then None else Some(op.value))
      && (WholeKeys(Denotes(n)) ==> WholeKeys(Denotes(r)))
      && (dirty <==> Denotes(r) != Denotes(n))
  }

  lemma InsertUpdated(db: Store, gen: Uint16, n: Node, op: Op)
    requires Addressed(db) && Root(n, db.Keys) && op.value != []
    ensures Updated(db, n, op, Update(db, gen, n, op))
  {
    hide Sound, Insert, Delete, Loadable, Lookup, IsKey, Replaces, WholeKeys;
    var key := KeyHex(op.key);
    KeyRoundTrip(op.key);
    RootUsable(db, n, op.key);
    RootedInsert(db, gen, n, key, op.value);
    var out := Update(db, gen, n, op);
    forall k: Hex ensures Inserted(db, n, key, op.value, out, k) { InsertSpec(db, gen, n, key, op.value, k); }
    assert Inserted(db, n, key, op.value, out, key);
    if out.Done? {
      ReplacesFacts(out.node, n, db.Keys);
      forall k: Bytes ensures KeyHex(k) == key <==> k == op.key { if KeyHex(k) == key { KeyHexInjective(k, op.key); } }
      InsertedKeys(db, n, key, op.value, out);
      forall k: Bytes ensures Lookup(Denotes(out.node), KeyHex(k)) ==
          if k != op.key then Lookup(Denotes(n), KeyHex(k)) else if op.value == [] then None else Some(op.value)
      {
        assert Inserted(db, n, key, op.value, out, KeyHex(k));
      }
    }
  }

  lemma InsertedKeys(db: Store, n: Node, key: Hex, v: Bytes, out: Outcome)
    requires IsKey(key) && out.Done? && forall k: Hex :: Inserted(db, n, key, v, out, k)
    ensures WholeKeys(Denotes(n)) ==> WholeKeys(Denotes(out.node))
  {
    hide Replaces, Lookup, IsKey, Denotes;
    forall k: Hex | WholeKeys(Denotes(n)) && Lookup(Denotes(out.node), k).Some? ensures IsKey(k) {
      assert Inserted(db, n, key, v, out, k);
    }
  }

  lemma DeletedKeys(db: Store, n: Node, key: Hex, out: Outcome)
    requires out.Done? && forall k: Hex :: Deleted(db, n, key, out, k)
    ensures WholeKeys(Denotes(n)) ==> WholeKeys(Denotes(out.node))
  {
    hide Replaces, Lookup, IsKey, Denotes;
    forall k: Hex | WholeKeys(Denotes(n)) && Lookup(Denotes(out.node), k).Some? ensures IsKey(k) {
      assert Deleted(db, n, key, out, k);
    }
  }

  lemma ReplacesFacts(r: Node, n: Node, s: set<Hash>)
    requires Replaces(r, n, s)
    ensures Sound(r, s) && (Loadable(n, s) ==> Loadable(r, s))
  {
  }

  lemma DeleteUpdated(db: Store, gen: Uint16, n: Node, op: Op)
    requires Addressed(db) && Root(n, db.Keys) && op.value == []
    ensures Updated(db, n, op, Update(db, gen, n, op))
  {
    hide Sound, Insert, Delete, Loadable, Lookup, IsKey, Replaces, WholeKeys;
    var key := KeyHex(op.key);
    KeyRoundTrip(op.key);
    RootUsable(db, n, op.key);
    RootedDelete(db, gen, n, key);
    var out := Update(db, gen, n, op);
    forall k: Hex ensures Deleted(db, n, key, out, k) { DeleteSpec(db, gen, n, key, k); }
    assert Deleted(db, n, key, out, key);
    if out.Done? {
      ReplacesFacts(out.node, n, db.Keys);
      forall k: Bytes ensures KeyHex(k) == key <==> k == op.key { if KeyHex(k) == key { KeyHexInjective(k, op.key); } }
      DeletedKeys(db, n, key, out);
      forall k: Bytes ensures Lookup(Denotes(out.node), KeyHex(k)) ==
          if k != op.key then Lookup(Denotes(n), KeyHex(k)) else if op.value == [] then None else Some(op.value)
      {
        assert Deleted(db, n, key, out, KeyHex(k));
      }
    }
  }

  /** Update or delete of a live root, on a store that may lack nodes. */
  lemma UpdateSpec(db: Store, gen: Uint16, n: Node, op: Op)
    requires Addressed(db) && Root(n, db.Keys)
    ensures Updated(db, n, op, Update(db, gen, n, op))
  {
    hide Updated, Root, Update;
    if op.value == [] { DeleteUpdated(db, gen, n, op); } else { InsertUpdated(db, gen, n, op); }
  }

  lemma UpdateRepresents(db: Store, gen: Uint16, n: Node, op: Op, m: map<Bytes, Bytes>)
    requires Addressed(db) && Root(n, db.Keys) && Represents(Denotes(n), m)
    ensures var out := Update(db, gen, n, op);
            out.Done? ==> Root(out.node, db.Keys) && Represents(Denotes(out.node), Applied(m, op))
  {
    hide Sound, Update, Loadable, Lookup, KeyHex;
    UpdateSpec(db, gen, n, op);
  }

  /** A run of updates. */
  function Run(db: Store, gen: Uint16, n: Node, ops: seq<Op>): Outcome
    requires Addressed(db) && Root(n, db.Keys)
    decreases |ops|
  {
    if ops == [] then Done(false, n)
    else
      UpdateSpec(db, gen, n, ops[0]);
      match Update(db, gen, n, ops[0])
      case Missing(h) => Missing(h)
      case Done(_, r) => Run(db, gen, r, ops[1..])
  }

  /** After any run the trie is the canonical tree of the map that the updates make. */
  lemma {:induction false} RunRepresents(db: Store, gen: Uint16, n: Node, ops: seq<Op>, m: map<Bytes, Bytes>)
    requires Addressed(db) && Root(n, db.Keys) && Represents(Denotes(n), m)
    ensures var out := Run(db, gen, n, ops);
            out.Done? ==> Root(out.node, db.Keys) && Represents(Denotes(out.node), AppliedAll(m, ops))
    decreases |ops|
  {
    hide Root, Represents, Update, Applied;
    if ops != [] {
      UpdateRepresents(db, gen, n, ops[0], m);
      var out := Update(db, gen, n, ops[0]);
      if out.Done? { RunRepresents(db, gen, out.node, ops[1..], Applied(m, ops[0])); }
    }
  }

  lemma {:induction false} RunLoads(db: Store, gen: Uint16, n: Node, ops: seq<Op>)
    requires Addressed(db) && Root(n, db.Keys) && Loadable(n, db.Keys)
    ensures Run(db, gen, n, ops).Done?
    decreases |ops|
  {
    hide Root, Update, Loadable;
    if ops != [] {
      UpdateSpec(db, gen, n, ops[0]);
      RunLoads(db, gen, Update(db, gen, n, ops[0]).node, ops[1..]);
    }
  }

  /**
   History independence: whatever two tries started from and went through, if they
   hold the same map in the end they are the same tree with the same root hash, and
   otherwise they have different root hashes.
   */
  lemma HistoryIndependent(db1: Store, n1: Node, ops1: seq<Op>, m1: map<Bytes, Bytes>,
                           db2: Store, n2: Node, ops2: seq<Op>, m2: map<Bytes, Bytes>, gen1: Uint16, gen2: Uint16)
    requires Addressed(db1) && Root(n1, db1.Keys) && Represents(Denotes(n1), m1) && Run(db1, gen1, n1, ops1).Done?
    requires Addressed(db2) && Root(n2, db2.Keys) && Represents(Denotes(n2), m2) && Run(db2, gen2, n2, ops2).Done?
    ensures var t1, t2 := Denotes(Run(db1, gen1, n1, ops1).node), Denotes(Run(db2, gen2, n2, ops2).node);
            && Canonical(t1) && Canonical(t2)
            && (AppliedAll(m1, ops1) == AppliedAll(m2, ops2) <==> t1 == t2)
            && (t1 == t2 <==> RootHash(t1) == RootHash(t2))
  {
    hide Run, Root;
    RunRepresents(db1, gen1, n1, ops1, m1);
    RunRepresents(db2, gen2, n2, ops2, m2);
    var t1, t2 := Denotes(Run(db1, gen1, n1, ops1).node), Denotes(Run(db2, gen2, n2, ops2).node);
    RootHashIsMap(t1, t2);
    if AppliedAll(m1, ops1) == AppliedAll(m2, ops2) { OnlyTree(t1, t2, AppliedAll(m1, ops1)); }
    if t1 == t2 { OnlyMap(t1, AppliedAll(m1, ops1), AppliedAll(m2, ops2)); }
  }
}
