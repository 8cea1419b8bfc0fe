/**
 The trie object: a key/value map over a node database, with loaded nodes cached in
 memory, that can be hashed, committed and opened again by its root hash.
 */
module Tries {
  import opened Rlp
  import opened Encoding
  import opened Trees
  import opened Nodes
  import opened History
  import opened Databases
  import opened LeafRefs
  import opened Hashers
  import Ages
  import Ops
  import Caches
  import CacheRuns
  import CacheCommit
  import Raws

  /** The tree that a root hash stands for. */
  ghost function TreeOf(h: Hash): Tree {
    if h == Zero then Empty else Decoded(h.pre)
  }

  /** The zero hash and the hashes of trees: of whole tries, or of a node inside one. */
  ghost predicate IsRoot(h: Hash) {
    var t := TreeOf(h);
    Canonical(t) && (h == Zero || h == RootHash(t))
  }

  /** Everything a root hash stands for can be loaded. */
  ghost predicate Held(h: Hash, s: set<Hash>) {
    h == Zero || h == EMPTY_ROOT || Available(Ref(h), s)
  }

  lemma RootOf(t: Tree)
    requires Canonical(t)
    ensures IsRoot(RootHash(t)) && TreeOf(RootHash(t)) == t
  {
    DecodedEncode(t);
  }

  lemma EmptyRoot(h: Hash)
    requires IsRoot(h)
    ensures h == Zero || h == EMPTY_ROOT <==> TreeOf(h) == Empty
  {
    assert EMPTY_ROOT == RootHash(Empty);
  }

  lemma LoadRoot(db: Store, h: Hash, gen: Uint16)
    requires Addressed(db) && IsRoot(h) && TreeOf(h) != Empty && h in db
    ensures var r := Ops.Resolve(db, h, gen);
            && r.Some? && Root(r.value, db.Keys) && Denotes(r.value) == TreeOf(h)
            && (Held(h, db.Keys) ==> Loadable(r.value, db.Keys))
  {
    EmptyRoot(h);
    DecodeEncode(TreeOf(h), h, gen, db.Keys);
  }

  lemma {:induction false} RootedGet(db: Store, gen: Uint16, n: Node, key: Hex)
    requires Ops.Usable(db, n, key) && Rooted(n)
    ensures var r := Ops.TryGet(db, gen, n, key); r.Got? ==> Rooted(r.node)
    decreases if n.HashNode? then 1 else 0
  {
    if n.HashNode? && n.hash in db {
      Ops.UsableHash(db, n, key, gen);
      RootedLoad(db, n, key, gen);
      RootedGet(db, gen, Ops.Resolve(db, n.hash, gen).value, key);
    }
  }

  lemma GetRoot(db: Store, gen: Uint16, n: Node, key: Bytes)
    requires Addressed(db) && Root(n, db.Keys)
    ensures Ops.Usable(db, n, KeyHex(key))
    ensures match Ops.TryGet(db, gen, n, KeyHex(key))
            case Got(value, r, _) =>
              && value == Lookup(Denotes(n), KeyHex(key))
              && Root(r, db.Keys) && Denotes(r) == Denotes(n) && (Loadable(n, db.Keys) ==> Loadable(r, db.Keys))
            case GetMissing(h) => h !in db && !Loadable(n, db.Keys)
  {
    hide Sound, Loadable, KeyHex, Lookup, Ops.TryGet;
    RootUsable(db, n, key);
    Ops.TryGetSpec(db, gen, n, KeyHex(key));
    RootedGet(db, gen, n, KeyHex(key));
  }

  lemma HashRoot(n: Node, hashed: Raws.Collapsed, cached: Node, s: set<Hash>, more: set<Hash>, commit: bool)
    requires Root(n, s) && Hashed(n, hashed, cached, s, more, commit, true)
    ensures Root(cached, more) && Denotes(cached) == Denotes(n) && Filled(cached)
    ensures hashed == Raws.CHash(RootHash(Denotes(n)))
    ensures Loadable(n, s) ==> Loadable(cached, more)
    ensures commit ==> Available(Ref(RootHash(Denotes(n))), more) && AllClean(cached)
  {
    hide Sound, Loadable, Available, Encode;
    if Loadable(n, s) { LoadableMore(n, s, more); }
  }

  class Trie {
    const db: Database
    var root: Node
    var cachegen: Uint16
    var cachelimit: Uint16

    ghost predicate Valid()
      reads this, db
    {
      db.Valid() && Root(root, Known(db))
    }

    /** No node of the trie is missing from the database. */
    ghost predicate Complete()
      reads this, db
    {
      Loadable(root, Known(db))
    }

    /** No node in memory is older than one that it holds. */
    ghost predicate Ordered()
      reads this
    {
      Ages.AgedDown(root, cachegen)
    }

    /** What the trie holds under a key. */
    ghost function At(key: Bytes): Option<Bytes>
      reads this
    {
      Lookup(Denotes(root), KeyHex(key))
    }

    constructor Of(db: Database, root: Node)
      ensures this.db == db && this.root == root && cachegen == 0 && cachelimit == 0
    {
      this.db, this.root, cachegen, cachelimit := db, root, 0, 0;
    }

    /** Opens the trie with a root hash; null for a root that the database does not have. */
    static method New(h: Hash, db: Database) returns (t: Trie?)
      requires db.Valid() && IsRoot(h)
      ensures t == null <==> TreeOf(h) != Empty && h !in db.View()
      ensures t != null ==> fresh(t) && t.db == db && t.Valid() && Denotes(t.root) == TreeOf(h)
      ensures t != null ==> t.cachegen == 0 && t.cachelimit == 0 && t.Ordered()
      ensures t != null && Held(h, Known(db)) ==> t.Complete()
    {
      hide Database.Valid, Held, Root, IsRoot, TreeOf;
      EmptyRoot(h);
      if h != Zero && h != EMPTY_ROOT {
        db.ViewAddressed();
        var node := db.NodeAt(h, 0);
        if node.None? {
          if h in db.View() { LoadRoot(db.View(), h, 0); }
          return null;
        }
        LoadRoot(db.View(), h, 0);
        Ages.LoadedNew(h, db.View()[h], 0);
        t := new Trie.Of(db, node.value);
      } else {
        assert Root(Nil, Known(db)) by { EmptyRooted(Known(db)); }
        t := new Trie.Of(db, Nil);
      }
    }

    /** The value under a key, and no error unless a node is missing; the map stays as it is. */
    method TryGet(key: Bytes) returns (value: Option<Bytes>, error: bool)
      requires Valid()
      modifies `root
      ensures Valid() && Denotes(root) == old(Denotes(root)) && (old(Complete()) ==> Complete())
      ensures !error ==> value == old(At(key))
      ensures error ==> root == old(root) && value == None && !Complete()
      ensures old(Ordered()) ==> Ordered()
    {
      hide Database.Valid, Root, Loadable, Ops.TryGet, KeyHex, Lookup, Ages.AgedDown;
      db.ViewAddressed();
      GetRoot(db.View(), cachegen, root, key);
      if Ordered() { Ages.GetAge(db.View(), cachegen, root, KeyHex(key)); }
      match Ops.TryGet(db.View(), cachegen, root, KeyHex(key))
      case Got(v, newroot, didResolve) =>
        if didResolve { root := newroot; }
        return v, false;
      case GetMissing(_) =>
        return None, true;
    }

    /** Sets a key, or deletes it when the value is empty; nothing changes on an error, and only a missing node is one. */
    method TryUpdate(key: Bytes, value: Bytes) returns (error: bool)
      requires Valid()
      modifies `root
      ensures Valid() && (old(Complete()) ==> Complete())
      ensures error ==> root == old(root) && !Complete()
      ensures old(WholeKeys(Denotes(root))) ==> WholeKeys(Denotes(root))
      ensures !error ==> forall k ::
                At(k) == if k != key then old(At(k)) else if value == [] then None else Some(value)
      ensures old(Ordered()) ==> Ordered()
    {
      hide Database.Valid, Root, Loadable, Update, KeyHex, Lookup, WholeKeys, Ages.AgedDown;
      db.ViewAddressed();
      if Ordered() { Ages.UpdateAge(db.View(), cachegen, root, Op(key, value)); }
      UpdateSpec(db.View(), cachegen, root, Op(key, value));
      match Update(db.View(), cachegen, root, Op(key, value))
      case Done(_, n) =>
        root := n;
        return false;
      case Missing(_) =>
        return true;
    }

    method TryDelete(key: Bytes) returns (error: bool)
      requires Valid()
      modifies `root
      ensures Valid() && (old(Complete()) ==> Complete())
      ensures error ==> root == old(root) && !Complete()
      ensures old(WholeKeys(Denotes(root))) ==> WholeKeys(Denotes(root))
      ensures !error ==> forall k :: At(k) == if k != key then old(At(k)) else None
      ensures old(Ordered()) ==> Ordered()
    {
      error := TryUpdate(key, []);
    }

    /** The root hash; the same map gives the same hash, however it came about. No hash is missing in memory after it. */
    method Hash() returns (h: Hash)
      requires Valid()
      modifies `root
      ensures Valid() && Denotes(root) == old(Denotes(root)) && (old(Complete()) ==> Complete())
      ensures IsRoot(h) && TreeOf(h) == Denotes(root) && h == RootHash(Denotes(root)) && Filled(root)
      ensures Trimmed(old(root), root, false, cachegen, cachelimit) && (old(Ordered()) ==> Ordered())
    {
      hide Database.Valid, Root, Loadable, IsRoot, TreeOf, Hashed, Available, Filled, Trimmed, Ages.AgedDown;
      ghost var was := root;
      h := HashInto(false, NoCallback);
      if Ages.AgedDown(was, cachegen) { Ages.TrimmedAge(was, root, false, cachegen, cachelimit); }
    }

    /**
     Puts every node that is not stored yet into the database, after which the root
     hash opens the same trie. The callback's references from the leaves it meets are
     recorded, and no reference that was there is lost. What memory drops is clean, and
     all of it unused for the limit of generations.
     */
    method Commit(onleaf: OnLeaf) returns (h: Hash)
      requires Valid() && Complete() && Watched(root, onleaf, db.rank, db.order, db.disk.Keys)
      modifies `root, `cachegen, db
      ensures Valid() && Complete() && Denotes(root) == old(Denotes(root))
      ensures IsRoot(h) && TreeOf(h) == Denotes(root) && h == RootHash(Denotes(root)) && Held(h, Known(db)) && Filled(root)
      ensures old(Known(db)) <= Known(db) && cachegen == (old(cachegen) + 1) % 65536
      ensures Grows(old(db.nodes), old(db.order), old(db.disk), db.nodes, db.order, db.disk)
      ensures Tracked(old(root), onleaf, old(db.nodes).Keys, db.nodes, true) && AllClean(root)
      ensures Trimmed(old(root), root, true, old(cachegen), cachelimit)
      ensures old(Ordered()) ==>
                && Ages.DropsOld(old(root), root, old(cachegen), cachelimit)
                && (Ordered() <==> Ages.RunsOn(root, old(cachegen)))
    {
      hide Trimmed, Ages.AgedDown, Ages.DropsOld, Ages.RunsOn;
      ghost var was := root;
      hide Database.Valid, Root, Loadable, IsRoot, TreeOf, Hashed, Available, Encode, Watched, Tracked, Grows;
      h := HashInto(true, onleaf);
      if Ages.AgedDown(was, cachegen) {
        Ages.TrimmedAge(was, root, true, cachegen, cachelimit);
        Ages.NextGeneration(root, cachegen);
      }
      cachegen := AddUint16(cachegen, 1);
    }

    /** hashRoot, with what its two callers do with the result. */
    method HashInto(commit: bool, onleaf: OnLeaf) returns (h: Hash)
      requires Valid() && (commit ==> Complete())
      requires commit ==> Watched(root, onleaf, db.rank, db.order, db.disk.Keys)
      modifies `root, if commit then {db} else {}
      ensures Valid() && Denotes(root) == old(Denotes(root)) && (old(Complete()) ==> Complete())
      ensures IsRoot(h) && TreeOf(h) == Denotes(root) && h == RootHash(Denotes(root)) && Filled(root)
      ensures old(Known(db)) <= Known(db)
      ensures commit ==> Held(h, Known(db)) && AllClean(root)
      ensures Grows(old(db.nodes), old(db.order), old(db.disk), db.nodes, db.order, db.disk)
      ensures commit ==> Tracked(old(root), onleaf, old(db.nodes).Keys, db.nodes, true)
      ensures Trimmed(old(root), root, commit, cachegen, cachelimit)
    {
      hide Database.Valid, Loadable, Hashed, IsRoot, TreeOf, Available, Encode, Known, Watched, Grows;
      RootOf(Denotes(root));
      if root == Nil {
        assert RootHash(Empty) == EMPTY_ROOT by { EncodeEmpty(); }
        GrowsNone(db.nodes, db.order, db.disk);
        return EMPTY_ROOT;
      }
      RootReady(root, Known(db), commit);
      ghost var s := Known(db);
      var hashed, cached := Hashers.Hash(root, db, commit, true, cachegen, cachelimit, onleaf);
      HashRoot(root, hashed, cached, s, Known(db), commit);
      SubsetKnown(root, hashed, cached, s, Known(db), commit);
      root := cached;
      h := hashed.hash;
    }
  }

  lemma SubsetKnown(n: Node, hashed: Raws.Collapsed, cached: Node, s: set<Hash>, more: set<Hash>, commit: bool)
    requires Hashed(n, hashed, cached, s, more, commit, true)
    ensures s <= more
  {
  }

  lemma EncodeEmpty()
    ensures Encode(Empty) == Str([])
  {
  }

  lemma EmptyRooted(s: set<Hash>)
    ensures Root(Nil, s) && Loadable(Nil, s)
  {
  }

  lemma RootReady(n: Node, s: set<Hash>, commit: bool)
    requires Root(n, s) && n != Nil && (commit ==> Loadable(n, s))
    ensures Ready(n, s, commit, true)
  {
    hide Loadable;
  }

  // ---------- through the disk ----------

  lemma {:induction false} RefsOfMember(items: seq<Item>, k: nat, c: Hash)
    requires k < |items| && c in Raws.Refs(items[k])
    ensures c in Raws.RefsOf(items)
  {
    if k > 0 { RefsOfMember(items[1..], k - 1, c); }
  }

  /** A disk that is closed under children and has what an item refers to has everything below it. */
  lemma {:induction false} AvailableClosed(i: Item, disk: set<Hash>)
    requires CacheRuns.Closed(disk) && (forall h | h in disk :: h.Of?) && forall c | c in Raws.Refs(i) :: c in disk
    ensures Available(i, disk)
  {
    match i
    case Str(_) =>
    case Ref(h) =>
      assert h in Raws.Refs(i);
      forall c | c in Raws.Refs(h.pre) ensures c in disk { assert c in Caches.Below(h); }
      AvailableClosed(h.pre, disk);
    case List(items) =>
      forall k | 0 <= k < |items| ensures Available(items[k], disk) {
        forall c | c in Raws.Refs(items[k]) ensures c in disk { RefsOfMember(items, k, c); }
        AvailableClosed(items[k], disk);
      }
  }

  lemma OnDisk(rank: Caches.Rank, nodes: Caches.Cache, d0: set<Hash>, d1: set<Hash>, w0: seq<Hash>, w1: seq<Hash>, h: Hash)
    requires CacheCommit.Written(rank, nodes, d0, d1, w0, w1, [h], true) && h != Zero && (h in nodes || h in d0)
    ensures h in d1
  {
    if h in nodes {
      assert CacheRuns.Under(rank, nodes, [h][0], h);
      assert CacheCommit.UnderAny(rank, nodes, [h], h);
    }
  }

  /** What Commit drops from the cache it has written, so that whatever could be loaded still can. */
  lemma KnownAfterCommit(rank: Caches.Rank, nodes: Caches.Cache, order: seq<Hash>, d0: set<Hash>, w0: seq<Hash>,
                         b: Caches.Cache, ob: seq<Hash>, d1: set<Hash>, w1: seq<Hash>, h: Hash, ok: bool)
    requires CacheCommit.Written(rank, nodes, d0, d1, w0, w1, [h], ok)
    requires if ok then CacheCommit.Removed(rank, nodes, order, b, ob, [h]) else b == nodes
    ensures d0 + nodes.Keys <= d1 + b.Keys
  {
    hide CacheCommit.UnderAny, CacheCommit.Subcache;
  }

  lemma DatabaseDurable(db: Database)
    requires db.Valid()
    ensures Caches.Ranked(db.rank) && Durable(db.disk, db.base, db.writes) && db.disk.Keys <= Known(db)
  {
  }

  /**
   Commits a trie, writes it out and opens it again from the disk alone: when the
   writes go through, the new trie holds the same map and misses nothing. The old
   trie stays as good as it was either way.
   */
  method SaveAndOpen(t: Trie, onleaf: OnLeaf) returns (h: Hash, u: Trie?)
    requires t.Valid() && t.Complete() && Watched(t.root, onleaf, t.db.rank, t.db.order, t.db.disk.Keys)
    modifies t, t.db
    ensures t.Valid() && t.Complete() && Denotes(t.root) == old(Denotes(t.root)) && h == RootHash(Denotes(t.root))
    ensures u != null ==> u.Valid() && u.Complete() && Denotes(u.root) == Denotes(t.root) && fresh(u.db)
    ensures u == null ==> t.db.room == 0
  {
    hide Database.Valid, Root, IsRoot, TreeOf, Available, Loadable, Durable, Encode;
    hide CacheCommit.Written, CacheCommit.Removed, CacheRuns.Closed, Watched, Tracked, Grows, Caches.Ranked;
    h := t.Commit(onleaf);
    ghost var s, nodes, order, disk, writes := Known(t.db), t.db.nodes, t.db.order, t.db.disk.Keys, t.db.writes;
    var ok := t.db.Commit(h);
    KnownAfterCommit(t.db.rank, nodes, order, disk, writes, t.db.nodes, t.db.order, t.db.disk.Keys, t.db.writes, h, ok);
    StaysRoot(t.root, s, Known(t.db));
    if !ok { return h, null; }
    DatabaseDurable(t.db);
    DurableClosed(t.db.disk, t.db.base, t.db.writes);
    var reopened := new Database(t.db.disk, 0, t.db.rank);
    EmptyRoot(h);
    if h != EMPTY_ROOT {
      HeldIn(h, s);
      OnDisk(t.db.rank, nodes, disk, t.db.disk.Keys, writes, t.db.writes, h);
      AvailableClosed(Ref(h), t.db.disk.Keys);
      DatabaseDurable(reopened);
      AvailableMore(Ref(h), t.db.disk.Keys, Known(reopened));
      HeldIn(h, Known(reopened));
    }
    u := Trie.New(h, reopened);
  }

  lemma HeldIn(h: Hash, s: set<Hash>)
    requires Held(h, s) && h != Zero && h != EMPTY_ROOT
    ensures h in s
  {
  }

  lemma StaysRoot(n: Node, s: set<Hash>, more: set<Hash>)
    requires Root(n, s) && Loadable(n, s) && s <= more
    ensures Root(n, more) && Loadable(n, more)
  {
    hide Loadable, Sound;
    SoundMore(n, s, more);
    LoadableMore(n, s, more);
  }
}
