/**
 Hashing and committing a trie: nodes are collapsed bottom up, hashes are cached,
 and in commit mode every hashed node goes to the database, children first.
 */
module Hashers {
  import opened Rlp
  import opened Encoding
  import opened Trees
  import opened Nodes
  import opened Raws
  import opened Caches
  import opened Databases
  import opened LeafRefs

  // ---------- growing stores ----------

  lemma {:induction false} AvailableMore(i: Item, s: set<Hash>, more: set<Hash>)
    requires Available(i, s) && s <= more
    ensures Available(i, more)
  {
    match i
    case Str(_) =>
    case Ref(h) => AvailableMore(h.pre, s, more);
    case List(items) =>
      forall k | 0 <= k < |items| ensures Available(items[k], more) { AvailableMore(items[k], s, more); }
  }

  lemma {:induction false} LoadableMore(n: Node, s: set<Hash>, more: set<Hash>)
    requires Loadable(n, s) && s <= more
    ensures Loadable(n, more)
  {
    match n
    case HashNode(h) => AvailableMore(Ref(h), s, more);
    case ShortNode(_, v, _) => LoadableMore(v, s, more);
    case FullNode(kids, _) =>
      forall i | 0 <= i < |kids| ensures Loadable(kids[i], more) { LoadableMore(kids[i], s, more); }
    case _ =>
  }

  lemma {:induction false} KeptMore(n: Node, s: set<Hash>, more: set<Hash>)
    requires Kept(n, s) && s <= more
    ensures Kept(n, more)
  {
    match n
    case ShortNode(_, v, _) => KeptMore(v, s, more);
    case FullNode(kids, _) =>
      forall i | 0 <= i < |kids| ensures Kept(kids[i], more) { KeptMore(kids[i], s, more); }
    case _ =>
  }

  lemma SoundMore(n: Node, s: set<Hash>, more: set<Hash>)
    requires Sound(n, s) && s <= more
    ensures Sound(n, more)
  {
    KeptMore(n, s, more);
  }

  // ---------- clean subtrees are stored ----------

  /**
   A clean subtree, all of whose unloaded parts can be loaded, is wholly in the
   store: dropping it from memory for its hash loses nothing.
   */
  lemma {:induction false} CleanStored(n: Node, s: set<Hash>)
    requires Good(n) && AllClean(n) && Kept(n, s) && Loadable(n, s)
    ensures Available(Encode(Denotes(n)), s)
    ensures Sized(n) ==> Available(Link(Denotes(n)), s)
  {
    var t := Denotes(n);
    match n
    case Nil =>
    case Value(_) => LinkValue(t);
    case HashNode(h) =>
    case ShortNode(_, v, f) =>
      CleanStored(v, s);
      EncodeAvailable(t, s);
    case FullNode(kids, f) =>
      forall i | 0 <= i < 17 ensures Available(Link(t.kids[i]), s) { CleanStored(kids[i], s); }
      EncodeAvailable(t, s);
  }

  /** An encoding refers to what its children's links refer to. */
  lemma EncodeAvailable(t: Tree, s: set<Hash>)
    requires Branch(t)
    requires t.Short? ==> Part(t.child) && Available(Link(t.child), s)
    requires t.Full? ==> |t.kids| == 17 && forall i | 0 <= i < 17 :: Part(t.kids[i]) && Available(Link(t.kids[i]), s)
    ensures Available(Encode(t), s)
  {
    hide Compact;
    var e := Encode(t);
    if t.Short? {
      assert e.items == [Str(Compact(t.key)), Link(t.child)];
    } else {
      assert forall i | 0 <= i < 17 :: e.items[i] == Link(t.kids[i]);
    }
  }

  lemma {:induction false} AvailableRefs(i: Item, s: set<Hash>, c: Hash)
    requires Available(i, s) && c in Refs(i)
    ensures c in s && c.Of?
    decreases i, 1
  {
    if i.List? { AvailableRefsOf(i.items, s, c); }
  }

  lemma {:induction false} AvailableRefsOf(items: seq<Item>, s: set<Hash>, c: Hash)
    requires (forall k | 0 <= k < |items| :: Available(items[k], s)) && c in RefsOf(items)
    ensures c in s && c.Of?
    decreases items, 0
  {
    if c in Refs(items[0]) { AvailableRefs(items[0], s, c); } else { AvailableRefsOf(items[1..], s, c); }
  }

  // ---------- hashing ----------

  /** What hash returns for a node: its hash when forced, and otherwise its link, embedded or hashed. */
  ghost predicate HashedAs(hashed: Collapsed, t: Tree, force: bool) {
    && Branch(t)
    && (if force then hashed == CHash(Of(Encode(t))) else EncodeCollapsed(hashed) == Link(t))
    && Proper(Simplify(hashed)) && ProperKid(Simplify(hashed))
  }

  /** What hashing leaves in memory for a node: the same tree, with caches at least as good and no hash missing. */
  ghost predicate Rehashed(n: Node, cached: Node, s: set<Hash>, commit: bool) {
    && Denotes(cached) == Denotes(n) && Sound(cached, s) && Filled(cached)
    && (AllClean(n) || commit ==> AllClean(cached))
    && (Loadable(n, s) ==> Loadable(cached, s))
  }

  /** Everything a tree's link or root hash refers to is stored. */
  ghost predicate Stored(t: Tree, s: set<Hash>, force: bool) {
    && Branch(t)
    && Available(if force then Ref(Of(Encode(t))) else Link(t), s)
  }

  /** The collapsed form of a node: compact keys, children as hash returned them. */
  ghost predicate CollapsedAs(c: Collapsed, t: Tree) {
    && Branch(t) && EncodeCollapsed(c) == Encode(t)
    && (c.CShort? || c.CFull?) && Proper(Simplify(c))
    && (c.flags.hash == Zero || c.flags.hash == Of(Encode(t)))
  }

  /** A clean node with a hash can be dropped for its hash. */
  lemma UnloadSound(n: Node, s: set<Hash>)
    requires (n.ShortNode? || n.FullNode?) && Sound(n, s) && Loadable(n, s) && n.flags.hash != Zero && !n.flags.dirty
    ensures Rehashed(n, HashNode(n.flags.hash), s, true) && AllClean(n) && Stored(Denotes(n), s, true)
    ensures Sized(n) ==> Sized(HashNode(n.flags.hash)) && Stored(Denotes(n), s, false)
  {
    DecodedEncode(Denotes(n));
    CleanStored(n, s);
  }

  /** A cached hash is the answer right away. */
  lemma CachedHash(n: Node, h: Hash, s: set<Hash>, force: bool)
    requires Sound(n, s) && Branch(Denotes(n)) && (force || Sized(n)) && h != Zero
    requires if n.HashNode? then h == n.hash else h == n.flags.hash
    ensures HashedAs(CHash(h), Denotes(n), force)
    ensures Rehashed(n, n, s, false) && (n.HashNode? || !n.flags.dirty ==> Rehashed(n, n, s, true))
  {
  }

  lemma LoadedStored(n: Node, s: set<Hash>, force: bool)
    requires n.HashNode? && Sound(n, s) && Loadable(n, s) && (force || Sized(n))
    ensures Stored(Denotes(n), s, force)
  {
  }

  /** Same node with rehashed children: flags are still those of the original. */
  ghost predicate Recached(n: Node, cached: Node, s: set<Hash>, commit: bool) {
    match n
    case ShortNode(k, v, f) =>
      && cached.ShortNode? && cached.key == k && cached.flags == f
      && Rehashed(v, cached.val, s, commit) && Sized(cached.val)
    case FullNode(kids, f) =>
      && cached.FullNode? && |cached.kids| == |kids| && cached.flags == f
      && forall i | 0 <= i < |kids| :: Rehashed(kids[i], cached.kids[i], s, commit) && Sized(cached.kids[i])
    case _ => false
  }

  function Flagged(n: Node, hash: Hash, commit: bool): Node
    requires n.ShortNode? || n.FullNode?
  {
    var f := Flag(hash, n.flags.gen, n.flags.dirty && !commit);
    if n.ShortNode? then ShortNode(n.key, n.val, f) else FullNode(n.kids, f)
  }

  /** What the new flags must satisfy. */
  ghost predicate NewHash(n: Node, hash: Hash, s: set<Hash>, commit: bool, force: bool) {
    && (n.ShortNode? || n.FullNode?) && Branch(Denotes(n))
    && hash == (if force || Size(Encode(Denotes(n))) >= 32 then Of(Encode(Denotes(n))) else Zero)
    && (commit && hash != Zero ==> hash in s)
    && (force ==> Rooted(n))
    && (!n.flags.dirty ==> commit || n.flags.hash == Zero)
  }

  lemma FlaggedShort(n: Node, cached: Node, hash: Hash, s: set<Hash>, commit: bool, force: bool)
    requires n.ShortNode? && Recached(n, cached, s, commit) && Sound(n, s) && NewHash(n, hash, s, commit, force)
    ensures Rehashed(n, Flagged(cached, hash, commit), s, commit)
  {
    hide Branch, Encode, Good, Kept, Size;
    var r := Flagged(cached, hash, commit);
    FlagKept(n, hash, s, commit, force);
    SoundShort(r, s);
  }

  lemma FlaggedFull(n: Node, cached: Node, hash: Hash, s: set<Hash>, commit: bool, force: bool)
    requires n.FullNode? && Recached(n, cached, s, commit) && Sound(n, s) && NewHash(n, hash, s, commit, force)
    ensures Rehashed(n, Flagged(cached, hash, commit), s, commit)
  {
    hide Branch, Encode, Good, Kept, Size;
    var r := Flagged(cached, hash, commit);
    assert Denotes(r).kids == Denotes(n).kids;
    FlagKept(n, hash, s, commit, force);
    SoundFull(r, s);
  }

  lemma FlagKept(n: Node, hash: Hash, s: set<Hash>, commit: bool, force: bool)
    requires NewHash(n, hash, s, commit, force) && Sound(n, s)
    ensures FlagSound(Flag(hash, n.flags.gen, n.flags.dirty && !commit), Denotes(n), s)
  {
  }

  lemma FlaggedRehashed(n: Node, cached: Node, hash: Hash, s: set<Hash>, commit: bool, force: bool)
    requires Recached(n, cached, s, commit) && Sound(n, s) && NewHash(n, hash, s, commit, force)
    ensures Rehashed(n, Flagged(cached, hash, commit), s, commit)
    ensures if force then Rooted(Flagged(cached, hash, commit)) else Sized(Flagged(cached, hash, commit))
  {
    hide Rehashed, Sound, Branch, Encode;
    if n.ShortNode? {
      FlaggedShort(n, cached, hash, s, commit, force);
    } else {
      FlaggedFull(n, cached, hash, s, commit, force);
    }
  }

  lemma StoredRefs(t: Tree, s: set<Hash>)
    requires Branch(t) && Available(Encode(t), s)
    ensures forall c | c in Below(Of(Encode(t))) :: c in s && c != Zero
  {
    forall c | c in Below(Of(Encode(t))) ensures c in s && c != Zero { AvailableRefs(Encode(t), s, c); }
  }

  lemma SmallHashed(c: Collapsed, t: Tree)
    requires CollapsedAs(c, t) && Size(Encode(t)) < 32
    ensures HashedAs(c, t, false)
  {
    SimplifyEncoding(c);
  }

  lemma LargeHashed(t: Tree, force: bool)
    requires Branch(t) && (force || Size(Encode(t)) >= 32)
    ensures HashedAs(CHash(Of(Encode(t))), t, force)
  {
  }

  /** The hashes a database can load. */
  ghost function Known(db: Database): set<Hash>
    reads db
  {
    db.View().Keys
  }

  /** What the callback is told of a collapsed node: the value of a leaf, and nothing otherwise. */
  lemma ValuesOf(c: Collapsed, t: Tree)
    requires CollapsedAs(c, t)
    ensures Values(c) == if t.Short? && t.child.Leaf? then [t.child.value] else []
  {
    var e := Encode(t);
    if c.CFull? {
      assert |e.items| == |c.kids| == 17;
      forall i | 0 <= i < 16 ensures !c.kids[i].CValue? {
        assert Simplify(c).kids[i] == Simplify(c.kids[i]);
        assert ProperKid(Simplify(c).kids[i]);
      }
      NoKidValues(c.kids[..16]);
    } else {
      assert |e.items| == 2;
      BranchShort(t);
      assert EncodeCollapsed(c.val) == e.items[1] == Link(t.child);
      LinkShape(t.child);
    }
  }

  /** Only values are linked as strings. */
  lemma LinkShape(t: Tree)
    requires Part(t) && !t.Empty?
    ensures if t.Leaf? then Link(t) == Str(t.value) && t.value != [] else !Link(t).Str?
  {
  }

  /** Embeds a small node; hashes any other, and in commit mode puts it in the database and calls the leaf callback. */
  method Store(c: Collapsed, db: Database, commit: bool, force: bool, onleaf: OnLeaf, ghost t: Tree) returns (hashed: Collapsed)
    requires db.Valid() && CollapsedAs(c, t)
    requires commit ==> Available(Encode(t), Known(db))
    requires commit ==> RefsOk(db.rank, db.order, db.disk.Keys, References(onleaf, Values(c), Of(Encode(t))), Of(Encode(t)))
    modifies if commit then {db} else {}
    ensures db.Valid() && old(Known(db)) <= Known(db)
    ensures Grows(old(db.nodes), old(db.order), old(db.disk), db.nodes, db.order, db.disk)
    ensures commit && hashed.CHash? ==>
              Recorded(References(onleaf, Values(c), Of(Encode(t))), Of(Encode(t)), old(db.nodes).Keys, db.nodes)
    ensures HashedAs(hashed, t, force)
    ensures hashed.CHash? <==> force || Size(Encode(t)) >= 32
    ensures commit ==> Stored(t, Known(db), force)
  {
    hide Encode, Branch, Available, Link, Database.Valid, RefsOk, Recorded, References, Values;
    var enc := EncodeCollapsed(c);
    ghost var s := Known(db);
    if Size(enc) < 32 && !force {
      SmallHashed(c, t);
      SmallStored(t, s);
      return c;
    }
    LargeHashed(t, force);
    var hash := c.flags.hash;
    if hash == Zero {
      hash := Of(enc);
    }
    hashed := CHash(hash);
    if commit {
      Keep(c, db, hash, References(onleaf, Values(c), hash), t);
      LargeStored(t, s, Known(db), force);
    }
  }

  /** Puts a node in the database, and records the references that the callback makes from it. */
  method Keep(c: Collapsed, db: Database, hash: Hash, refs: seq<Hash>, ghost t: Tree)
    requires db.Valid() && CollapsedAs(c, t) && hash == Of(Encode(t)) && Available(Encode(t), Known(db))
    requires RefsOk(db.rank, db.order, db.disk.Keys, refs, hash)
    modifies db
    ensures db.Valid() && old(Known(db)) <= Known(db) && hash in Known(db)
    ensures Grows(old(db.nodes), old(db.order), old(db.disk), db.nodes, db.order, db.disk)
    ensures Recorded(refs, hash, old(db.nodes).Keys, db.nodes)
  {
    hide Encode, Branch, Available, Database.Valid, ChildrenKept, Recorded, RefsOk;
    StoredRefs(t, Known(db));
    SimplifyEncoding(c);
    ghost var a, oa := db.nodes, db.order;
    db.Insert(hash, Simplify(c));
    ghost var b := db.nodes;
    InsertGrows(a, oa, b, db.order, hash);
    RefsOkMore(db.rank, oa, db.order, db.disk.Keys, refs, hash);
    Track(db, refs, hash);
    ChildrenKeptTrans(a, b, db.nodes);
    RecordedLess(refs, hash, a.Keys, db.nodes.Keys, db.nodes);
  }

  lemma SmallStored(t: Tree, s: set<Hash>)
    requires Branch(t) && Size(Encode(t)) < 32
    ensures Available(Encode(t), s) ==> Stored(t, s, false)
  {
  }

  lemma LargeStored(t: Tree, s: set<Hash>, more: set<Hash>, force: bool)
    requires Branch(t) && Available(Encode(t), s) && s <= more && Of(Encode(t)) in more
    requires force || Size(Encode(t)) >= 32
    ensures Stored(t, more, force)
  {
    AvailableMore(Encode(t), s, more);
  }

  // ---------- the children ----------

  /** A child slot of a full node after hashing. */
  ghost predicate KidDone(n: Node, c: Collapsed, cached: Node, s: set<Hash>, commit: bool) {
    if n.Nil? then c == CNil && cached == Nil
    else
      && HashedAs(c, Denotes(n), false) && Rehashed(n, cached, s, commit) && Sized(cached)
      && (commit ==> Stored(Denotes(n), s, false))
  }

  lemma KidDoneMore(n: Node, c: Collapsed, cached: Node, s: set<Hash>, more: set<Hash>, commit: bool)
    requires KidDone(n, c, cached, s, commit) && if commit then s <= more && Loadable(n, s) else s == more
    ensures KidDone(n, c, cached, more, commit)
  {
    hide Rehashed, HashedAs, Loadable, Link, Branch;
    if !n.Nil? && commit {
      RehashedMore(n, cached, s, more, commit);
      AvailableMore(Link(Denotes(n)), s, more);
    }
  }

  lemma RehashedMore(n: Node, cached: Node, s: set<Hash>, more: set<Hash>, commit: bool)
    requires Rehashed(n, cached, s, commit) && s <= more && Loadable(n, s)
    ensures Rehashed(n, cached, more, commit)
  {
    SoundMore(cached, s, more);
    LoadableMore(cached, s, more);
  }

  /** What a child slot contributes to its parent. */
  ghost predicate SlotDone(n: Node, c: Collapsed, cached: Node, s: set<Hash>, commit: bool) {
    && Part(Denotes(n)) && EncodeCollapsed(c) == Link(Denotes(n)) && Proper(Simplify(c))
    && Rehashed(n, cached, s, commit) && Sized(cached)
    && (commit ==> Available(Link(Denotes(n)), s))
  }

  lemma KidSlot(n: Node, c: Collapsed, cached: Node, s: set<Hash>, commit: bool)
    requires KidDone(n, c, cached, s, commit) && Sound(n, s)
    ensures SlotDone(n, c, cached, s, commit) && ProperKid(Simplify(c))
  {
    hide Rehashed, Branch;
    if n.Nil? { NilRehashed(s, commit); }
  }

  lemma NilRehashed(s: set<Hash>, commit: bool)
    ensures Rehashed(Nil, Nil, s, commit)
  {
  }

  /** Values are never hashed. */
  function ValueSlot(n: Node): Collapsed
    requires n.Nil? || n.Value?
  {
    if n.Nil? then CNil else CValue(n.bytes)
  }

  lemma ValueDone(n: Node, s: set<Hash>, commit: bool)
    requires (n.Nil? || n.Value?) && Sound(n, s)
    ensures SlotDone(n, ValueSlot(n), n, s, commit)
  {
    LinkValue(Denotes(n));
  }

  lemma FullCollapsed(n: Node, ck: seq<Collapsed>, s: set<Hash>)
    requires n.FullNode? && Sound(n, s) && Branch(Denotes(n)) && |n.kids| == 17 && |ck| == 17
    requires forall i | 0 <= i < 17 :: EncodeCollapsed(ck[i]) == Link(Denotes(n).kids[i]) && Proper(Simplify(ck[i]))
    requires forall i | 0 <= i < 16 :: ProperKid(Simplify(ck[i]))
    requires ck[16].CNil? || ck[16].CValue?
    ensures CollapsedAs(CFull(ck, n.flags), Denotes(n))
  {
    hide Link;
    var c, t := CFull(ck, n.flags), Denotes(n);
    assert EncodeCollapsed(c).items == Encode(t).items;
    assert forall i | 0 <= i < 17 :: Simplify(c).kids[i] == Simplify(ck[i]);
    assert n.flags.hash == Zero || n.flags.hash == Of(Encode(t));
  }

  lemma KidsCollapsed(n: Node, ck: seq<Collapsed>, cd: seq<Node>, s: set<Hash>, commit: bool)
    requires n.FullNode? && Sound(n, s) && |n.kids| == 17 && |ck| == 17 && |cd| == 17
    requires forall i | 0 <= i < 17 :: SlotDone(n.kids[i], ck[i], cd[i], s, commit)
    requires forall i | 0 <= i < 16 :: ProperKid(Simplify(ck[i]))
    requires ck[16].CNil? || ck[16].CValue?
    ensures CollapsedAs(CFull(ck, n.flags), Denotes(n))
    ensures Recached(n, FullNode(cd, n.flags), s, commit)
    ensures commit ==> Available(Encode(Denotes(n)), s)
  {
    hide Rehashed, Branch, Link, Sound, EncodeCollapsed, Encode, Proper, ProperKid;
    SoundKid(n, s, 0);
    forall i | 0 <= i < 17 ensures Denotes(n).kids[i] == Denotes(n.kids[i]) { SoundKid(n, s, i); }
    FullCollapsed(n, ck, s);
    if commit { EncodeAvailable(Denotes(n), s); }
  }

  lemma ShortCollapsed(n: Node, c: Collapsed, cached: Node, s: set<Hash>, commit: bool)
    requires n.ShortNode? && Sound(n, s) && SlotDone(n.val, c, cached, s, commit)
    requires if n.val.Value? then c.CValue? else ProperKid(Simplify(c))
    ensures Branch(Denotes(n)) && WellFormed(n.key)
    ensures CollapsedAs(CShort(Compact(n.key), c, n.flags), Denotes(n))
    ensures Recached(n, ShortNode(n.key, cached, n.flags), s, commit)
    ensures commit ==> Available(Encode(Denotes(n)), s)
  {
    hide Rehashed, Link, Branch, Compact, Uncompact, Kept, DirtyUp, CachedUp, Available, AllClean, Sized;
    SoundVal(n, s);
    BranchShort(Denotes(n));
    CompactRoundTrip(n.key);
    ValueUnderTerm(n, s);
    FlagHashes(n, s);
    if commit { EncodeAvailable(Denotes(n), s); }
  }

  lemma FlagHashes(n: Node, s: set<Hash>)
    requires (n.ShortNode? || n.FullNode?) && Sound(n, s)
    ensures n.flags.hash == Zero || (Branch(Denotes(n)) && n.flags.hash == Of(Encode(Denotes(n))))
  {
  }

  lemma ValueUnderTerm(n: Node, s: set<Hash>)
    requires n.ShortNode? && Sound(n, s)
    ensures n.val.Value? <==> HasTerm(n.key)
  {
    SoundVal(n, s);
    BranchShort(Denotes(n));
    assert Good(n.val);
  }

  // ---------- what stays in memory ----------

  /**
   What hashing leaves in memory. A node whose hash is cached and that need not be
   stored is not walked: it stays as it is, or in commit mode goes for its hash when
   it has not been used for the limit of generations. Any other node stays, with its
   generation, and so on with its children.
   */
  ghost predicate Trimmed(n: Node, cached: Node, commit: bool, cachegen: Uint16, cachelimit: Uint16) {
    match n
    case ShortNode(key, val, f) =>
      if Unwalked(f, commit) then cached == Remains(n, commit, cachegen, cachelimit)
      else
        && cached.ShortNode? && cached.key == key && SameAge(cached.flags, f, commit)
        && Trimmed(val, cached.val, commit, cachegen, cachelimit)
    case FullNode(kids, f) =>
      if Unwalked(f, commit) then cached == Remains(n, commit, cachegen, cachelimit)
      else
        && cached.FullNode? && |cached.kids| == |kids| && SameAge(cached.flags, f, commit)
        && forall i | 0 <= i < |kids| :: Trimmed(kids[i], cached.kids[i], commit, cachegen, cachelimit)
    case _ => cached == n
  }

  /** A cached hash is enough: only hashing, or the node is clean. */
  predicate Unwalked(f: Flag, commit: bool) {
    f.hash != Zero && (commit ==> !f.dirty)
  }

  function Remains(n: Node, commit: bool, cachegen: Uint16, cachelimit: Uint16): Node
    requires n.ShortNode? || n.FullNode?
  {
    if commit && n.flags.CanUnload(cachegen, cachelimit) then HashNode(n.flags.hash) else n
  }

  predicate SameAge(f: Flag, was: Flag, commit: bool) {
    f.gen == was.gen && f.dirty == (was.dirty && !commit)
  }

  /** The children of a full node, k of them done. */
  ghost predicate KidsTrimmed(kids: seq<Node>, cd: seq<Node>, k: nat, commit: bool, cachegen: Uint16, cachelimit: Uint16) {
    && |cd| == |kids|
    && (forall i | 0 <= i < |kids| && i < k :: Trimmed(kids[i], cd[i], commit, cachegen, cachelimit))
    && (forall i | 0 <= i < |kids| && k <= i :: cd[i] == kids[i])
  }

  /** Children done, flags not yet. */
  ghost predicate ChildrenTrimmed(n: Node, cached: Node, commit: bool, cachegen: Uint16, cachelimit: Uint16) {
    && (n.ShortNode? || n.FullNode?)
    && (n.ShortNode? ==>
          cached.ShortNode? && cached.key == n.key && cached.flags == n.flags &&
          Trimmed(n.val, cached.val, commit, cachegen, cachelimit))
    && (n.FullNode? ==>
          cached.FullNode? && cached.flags == n.flags &&
          KidsTrimmed(n.kids, cached.kids, |n.kids|, commit, cachegen, cachelimit))
  }

  lemma UnwalkedTrimmed(n: Node, commit: bool, cachegen: Uint16, cachelimit: Uint16)
    requires n.HashNode? || ((n.ShortNode? || n.FullNode?) && Unwalked(n.flags, commit))
    ensures Trimmed(n, if n.HashNode? then n else Remains(n, commit, cachegen, cachelimit), commit, cachegen, cachelimit)
  {
  }

  lemma FlaggedTrimmed(n: Node, cached: Node, hash: Hash, commit: bool, cachegen: Uint16, cachelimit: Uint16)
    requires ChildrenTrimmed(n, cached, commit, cachegen, cachelimit) && !Unwalked(n.flags, commit)
    ensures Trimmed(n, Flagged(cached, hash, commit), commit, cachegen, cachelimit)
  {
  }

  lemma KidTrimmed(kids: seq<Node>, cd: seq<Node>, k: nat, d: Node, commit: bool, cachegen: Uint16, cachelimit: Uint16)
    requires KidsTrimmed(kids, cd, k, commit, cachegen, cachelimit) && k < |kids|
    requires Trimmed(kids[k], d, commit, cachegen, cachelimit)
    ensures KidsTrimmed(kids, cd[k := d], k + 1, commit, cachegen, cachelimit)
  {
  }

  lemma NilTrimmed(kids: seq<Node>, cd: seq<Node>, k: nat, commit: bool, cachegen: Uint16, cachelimit: Uint16)
    requires KidsTrimmed(kids, cd, k, commit, cachegen, cachelimit) && k < |kids| && (kids[k].Nil? || kids[k].Value?)
    ensures KidsTrimmed(kids, cd, k + 1, commit, cachegen, cachelimit)
  {
  }

  // ---------- the methods ----------

  /** What hash needs of a node. To commit, everything not loaded must be loadable. */
  ghost predicate Ready(n: Node, s: set<Hash>, commit: bool, force: bool) {
    && Sound(n, s) && Branch(Denotes(n)) && (if force then Rooted(n) else Sized(n))
    && (commit ==> Loadable(n, s))
  }

  /** What hash achieves, from a database that knows s to one that knows more. */
  ghost predicate Hashed(n: Node, hashed: Collapsed, cached: Node, s: set<Hash>, more: set<Hash>, commit: bool, force: bool) {
    && s <= more
    && HashedAs(hashed, Denotes(n), force)
    && Rehashed(n, cached, more, commit) && (if force then Rooted(cached) else Sized(cached))
    && (cached.ShortNode? || cached.FullNode? ==> cached.flags.hash == if hashed.CHash? then hashed.hash else Zero)
    && (commit ==> Stored(Denotes(n), more, force))
  }

  /** What hashChildren achieves. */
  ghost predicate ChildrenHashed(n: Node, c: Collapsed, cached: Node, s: set<Hash>, more: set<Hash>, commit: bool) {
    && s <= more && Sound(n, more)
    && CollapsedAs(c, Denotes(n)) && Recached(n, cached, more, commit)
    && (commit ==> Available(Encode(Denotes(n)), more))
  }

  /** hash: collapses a node to a hash or an embedded node, and returns its replacement with caches filled in. */
  method Hash(n: Node, db: Database, commit: bool, force: bool, cachegen: Uint16, cachelimit: Uint16, onleaf: OnLeaf)
    returns (hashed: Collapsed, cached: Node)
    requires db.Valid() && Ready(n, Known(db), commit, force)
    requires commit ==> Watched(n, onleaf, db.rank, db.order, db.disk.Keys)
    modifies if commit then {db} else {}
    ensures db.Valid() && Hashed(n, hashed, cached, old(Known(db)), Known(db), commit, force)
    ensures Grows(old(db.nodes), old(db.order), old(db.disk), db.nodes, db.order, db.disk)
    ensures commit ==> Tracked(n, onleaf, old(db.nodes).Keys, db.nodes, force)
    ensures Trimmed(n, cached, commit, cachegen, cachelimit)
    decreases n, 2
  {
    hide Trimmed, ChildrenTrimmed;
    hide Ready, Hashed, Database.Valid, Known, Watched, Tracked, Grows, RefsOk, Recorded, Values, References, ChildrenTracked;
    hide Sound, CollapsedAs, Branch, Encode, HashedAs, Stored, Available, ChildrenHashed, ChildrenKept;
    ghost var s, a, oa, da := Known(db), db.nodes, db.order, db.disk;
    GrowsNone(a, oa, da);
    SettledTracked(n, onleaf, a, force);
    ReadyShape(n, s, commit, force);
    if n.HashNode? {
      // Hash nodes have no children and are not stored again.
      HashOfHash(n, s, commit, force);
      UnwalkedTrimmed(n, commit, cachegen, cachelimit);
      return CHash(n.hash), n;
    }
    var hash, dirty := n.flags.hash, n.flags.dirty;
    if hash != Zero {
      HashCached(n, s, commit, force);
      if !commit || !dirty { UnwalkedTrimmed(n, commit, cachegen, cachelimit); }
      if !commit {
        return CHash(hash), n;
      }
      if n.flags.CanUnload(cachegen, cachelimit) {
        return CHash(hash), HashNode(hash);
      }
      if !dirty {
        return CHash(hash), n;
      }
    }
    var collapsed;
    collapsed, cached := HashChildren(n, db, commit, force, cachegen, cachelimit, onleaf);
    ghost var mid, b, ob := Known(db), db.nodes, db.order;
    GrowsOrder(a, oa, da, b, ob, db.disk);
    LeafReferences(n, collapsed, cached, s, mid, commit, onleaf, db.rank, oa, ob, da);
    hashed := Store(collapsed, db, commit, force, onleaf, Denotes(n));
    GrowsOrder(b, ob, da, db.nodes, db.order, db.disk);
    GrowsTrans(a, oa, da, b, ob, da, db.nodes, db.order, db.disk);
    if commit { LeafTracked(n, collapsed, hashed, onleaf, mid, a, b, db.nodes, force); }
    var cachedHash := if hashed.CHash? then hashed.hash else Zero;
    HashFinished(n, collapsed, cached, hashed, s, mid, Known(db), commit, force);
    FlaggedTrimmed(n, cached, cachedHash, commit, cachegen, cachelimit);
    cached := Flagged(cached, cachedHash, commit);
  }

  /** The callback's references from a node that is about to be stored are allowed. */
  lemma LeafReferences(n: Node, c: Collapsed, cached: Node, s: set<Hash>, mid: set<Hash>, commit: bool, onleaf: OnLeaf,
                       rank: Rank, oa: seq<Hash>, ob: seq<Hash>, disk: Store)
    requires (n.ShortNode? || n.FullNode?) && ChildrenHashed(n, c, cached, s, mid, commit) && oa <= ob
    requires commit ==> !Settled(n.flags) && Watched(n, onleaf, rank, oa, disk.Keys)
    ensures Branch(Denotes(n)) && CollapsedAs(c, Denotes(n)) && Sound(n, mid)
    ensures commit ==> Available(Encode(Denotes(n)), mid)
    ensures commit ==> RefsOk(rank, ob, disk.Keys, References(onleaf, Values(c), NodeHash(n)), NodeHash(n))
  {
    hide Recached, Sound, Encode, RefsOk;
    var t, h := Denotes(n), NodeHash(n);
    ValuesOf(c, t);
    if commit {
      OneReference(onleaf, Values(c), h);
      if t.Short? && t.child.Leaf? {
        ValueLeaf(n, mid);
        RefsOkMore(rank, oa, ob, disk.Keys, onleaf(t.child.value, h), h);
      } else {
        NoRefsOk(rank, ob, disk.Keys, h);
      }
    }
  }

  lemma NoRefsOk(rank: Rank, order: seq<Hash>, disk: set<Hash>, h: Hash)
    ensures RefsOk(rank, order, disk, [], h)
  {
  }

  lemma OneReference(onleaf: OnLeaf, values: seq<Bytes>, h: Hash)
    ensures values == [] ==> References(onleaf, values, h) == []
    ensures |values| == 1 ==> References(onleaf, values, h) == onleaf(values[0], h)
  {
    if |values| == 1 { assert References(onleaf, values[1..], h) == []; }
  }

  lemma ValueLeaf(n: Node, s: set<Hash>)
    requires (n.ShortNode? || n.FullNode?) && Sound(n, s) && Denotes(n).Short? && Denotes(n).child.Leaf?
    ensures n.ShortNode? && n.val.Value? && n.val.bytes == Denotes(n).child.value
  {
    SoundVal(n, s);
    BranchShort(Denotes(n));
    ValueUnderTerm(n, s);
  }

  /** After storing it, the references are recorded. */
  lemma LeafTracked(n: Node, c: Collapsed, hashed: Collapsed, onleaf: OnLeaf, s: set<Hash>, a: Cache, b: Cache, nodes: Cache,
                    force: bool)
    requires (n.ShortNode? || n.FullNode?) && Sound(n, s) && !Settled(n.flags) && CollapsedAs(c, Denotes(n))
    requires ChildrenTracked(n, onleaf, a.Keys, b) && ChildrenKept(a, b) && ChildrenKept(b, nodes)
    requires hashed.CHash? <==> force || Size(Encode(Denotes(n))) >= 32
    requires hashed.CHash? ==> Recorded(References(onleaf, Values(c), NodeHash(n)), NodeHash(n), b.Keys, nodes)
    ensures Tracked(n, onleaf, a.Keys, nodes, force)
  {
    hide Encode, Recorded, CollapsedAs, Branch;
    ChildrenTrackedMore(n, onleaf, a.Keys, b, nodes);
    if n.ShortNode? && n.val.Value? {
      ValuesOf(c, Denotes(n));
      OneReference(onleaf, Values(c), NodeHash(n));
      assert a.Keys <= b.Keys;
      if hashed.CHash? { RecordedLess(onleaf(n.val.bytes, NodeHash(n)), NodeHash(n), a.Keys, b.Keys, nodes); }
    } else if n.FullNode? {
      SoundKid(n, s, 16);
      FullTracked(n, onleaf, a.Keys, nodes, force);
    }
  }

  lemma FullTracked(n: Node, onleaf: OnLeaf, cached: set<Hash>, nodes: Cache, force: bool)
    requires n.FullNode? && |n.kids| == 17 && (n.kids[16].Nil? || n.kids[16].Value?) && ChildrenTracked(n, onleaf, cached, nodes)
    ensures Tracked(n, onleaf, cached, nodes, force)
  {
    hide Recorded, Encode;
    forall i | 0 <= i < 17 ensures Tracked(n.kids[i], onleaf, cached, nodes, false) { }
  }

  lemma ReadyShape(n: Node, s: set<Hash>, commit: bool, force: bool)
    requires Ready(n, s, commit, force)
    ensures n.HashNode? || n.ShortNode? || n.FullNode?
  {
  }

  lemma HashOfHash(n: Node, s: set<Hash>, commit: bool, force: bool)
    requires n.HashNode? && Ready(n, s, commit, force)
    ensures Hashed(n, CHash(n.hash), n, s, s, commit, force)
  {
    CachedHash(n, n.hash, s, force);
    if commit { LoadedStored(n, s, force); }
  }

  /** With a cached hash: nothing to do when only hashing; a clean node may stay or be unloaded. */
  lemma HashCached(n: Node, s: set<Hash>, commit: bool, force: bool)
    requires (n.ShortNode? || n.FullNode?) && Ready(n, s, commit, force) && n.flags.hash != Zero
    ensures !commit || !n.flags.dirty ==> Hashed(n, CHash(n.flags.hash), n, s, s, commit, force)
    ensures commit && !n.flags.dirty ==> Hashed(n, CHash(n.flags.hash), HashNode(n.flags.hash), s, s, commit, force)
  {
    hide Rehashed, Stored, Branch, HashedAs;
    CachedHash(n, n.flags.hash, s, force);
    if commit && !n.flags.dirty { UnloadSound(n, s); }
  }

  lemma HashFinished(n: Node, c: Collapsed, cached: Node, hashed: Collapsed, s: set<Hash>, mid: set<Hash>, more: set<Hash>,
                     commit: bool, force: bool)
    requires (n.ShortNode? || n.FullNode?) && Ready(n, s, commit, force) && ChildrenHashed(n, c, cached, s, mid, commit)
    requires n.flags.hash != Zero ==> commit && n.flags.dirty
    requires HashedAs(hashed, Denotes(n), force) && (hashed.CHash? <==> force || Size(Encode(Denotes(n))) >= 32)
    requires if commit then mid <= more && Stored(Denotes(n), more, force) else mid == more && s == mid
    ensures cached.ShortNode? || cached.FullNode?
    ensures Hashed(n, hashed, Flagged(cached, if hashed.CHash? then hashed.hash else Zero, commit), s, more, commit, force)
  {
    hide Rehashed, Stored, Branch, HashedAs, Recached, Sound, CollapsedAs, Encode, Loadable, Link;
    var hash := if hashed.CHash? then hashed.hash else Zero;
    RecachedShape(n, cached, mid, commit);
    if commit {
      LoadableMore(n, s, mid);
      RecachedMore(n, cached, mid, more, commit);
      SoundMore(n, mid, more);
    }
    HashIsNew(n, hashed, more, commit, force);
    FlaggedRehashed(n, cached, hash, more, commit, force);
  }

  lemma RecachedShape(n: Node, cached: Node, s: set<Hash>, commit: bool)
    requires Recached(n, cached, s, commit)
    ensures (n.ShortNode? && cached.ShortNode?) || (n.FullNode? && cached.FullNode?)
  {
  }

  lemma RecachedMore(n: Node, cached: Node, s: set<Hash>, more: set<Hash>, commit: bool)
    requires Recached(n, cached, s, commit) && s <= more && Loadable(n, s)
    ensures Recached(n, cached, more, commit)
  {
    hide Rehashed;
    if n.ShortNode? {
      RehashedMore(n.val, cached.val, s, more, commit);
    } else {
      forall i | 0 <= i < |n.kids| ensures Rehashed(n.kids[i], cached.kids[i], more, commit) {
        RehashedMore(n.kids[i], cached.kids[i], s, more, commit);
      }
    }
  }

  lemma HashIsNew(n: Node, hashed: Collapsed, s: set<Hash>, commit: bool, force: bool)
    requires (n.ShortNode? || n.FullNode?) && HashedAs(hashed, Denotes(n), force)
    requires hashed.CHash? <==> force || Size(Encode(Denotes(n))) >= 32
    requires commit ==> Stored(Denotes(n), s, force)
    requires (force ==> Rooted(n)) && (n.flags.hash != Zero ==> commit && n.flags.dirty)
    ensures NewHash(n, if hashed.CHash? then hashed.hash else Zero, s, commit, force)
  {
  }

  /** hashChildren: collapses a node, hashing its children first. */
  method HashChildren(n: Node, db: Database, commit: bool, ghost force: bool, cachegen: Uint16, cachelimit: Uint16,
                      onleaf: OnLeaf)
    returns (collapsed: Collapsed, cached: Node)
    requires db.Valid() && (n.ShortNode? || n.FullNode?) && Ready(n, Known(db), commit, force)
    requires commit ==> !Settled(n.flags) && Watched(n, onleaf, db.rank, db.order, db.disk.Keys)
    modifies if commit then {db} else {}
    ensures db.Valid() && ChildrenHashed(n, collapsed, cached, old(Known(db)), Known(db), commit)
    ensures Grows(old(db.nodes), old(db.order), old(db.disk), db.nodes, db.order, db.disk)
    ensures commit ==> ChildrenTracked(n, onleaf, old(db.nodes).Keys, db.nodes)
    ensures ChildrenTrimmed(n, cached, commit, cachegen, cachelimit)
    decreases n, 1
  {
    hide KidsTrimmed;
    hide Ready, Hashed, Database.Valid, Known, ChildrenHashed, SlotDone, KidsHashed, Watched, Tracked, Grows;
    ghost var s := Known(db);
    GrowsNone(db.nodes, db.order, db.disk);
    WatchedKids(n, onleaf, db.rank, db.order, db.disk.Keys);
    if n.ShortNode? {
      ShortReady(n, s, commit, force);
      var c, v := ValueSlot(Nil), n.val;
      if n.val.Value? {
        c := CValue(n.val.bytes);
      } else {
        c, v := Hash(n.val, db, commit, false, cachegen, cachelimit, onleaf);
      }
      ShortDone(n, c, v, s, Known(db), commit, force);
      collapsed, cached := CShort(Compact(n.key), c, n.flags), ShortNode(n.key, v, n.flags);
    } else {
      var ck, cd := HashKids(n, db, commit, force, cachegen, cachelimit, onleaf);
      FullDone(n, ck, cd, s, Known(db), commit, force);
      NilTrimmed(n.kids, cd, 16, commit, cachegen, cachelimit);
      ck := ck[16 := ValueSlot(n.kids[16])];
      collapsed, cached := CFull(ck, n.flags), FullNode(cd, n.flags);
    }
  }

  lemma ShortReady(n: Node, s: set<Hash>, commit: bool, force: bool)
    requires n.ShortNode? && Ready(n, s, commit, force)
    ensures WellFormed(n.key)
    ensures if n.val.Value? then true else Ready(n.val, s, commit, false)
  {
    SoundVal(n, s);
    BranchShort(Denotes(n));
    ValueUnderTerm(n, s);
  }

  lemma ShortDone(n: Node, c: Collapsed, v: Node, s: set<Hash>, more: set<Hash>, commit: bool, force: bool)
    requires n.ShortNode? && Ready(n, s, commit, force) && WellFormed(n.key)
    requires if n.val.Value? then c == CValue(n.val.bytes) && v == n.val && s == more
             else Hashed(n.val, c, v, s, more, commit, false)
    ensures ChildrenHashed(n, CShort(Compact(n.key), c, n.flags), ShortNode(n.key, v, n.flags), s, more, commit)
  {
    hide Rehashed, Stored, Branch, HashedAs, Recached, CollapsedAs, Encode, Link, Good, Kept, DirtyUp, CachedUp, Filled, SlotDone;
    SoundMore(n, s, more);
    SoundVal(n, more);
    if n.val.Value? {
      ValueDone(n.val, more, commit);
    } else {
      KidIsDone(n.val, c, v, s, more, commit);
      KidSlot(n.val, c, v, more, commit);
    }
    ShortCollapsed(n, c, v, more, commit);
  }

  lemma KidIsDone(n: Node, c: Collapsed, cached: Node, s: set<Hash>, more: set<Hash>, commit: bool)
    requires Hashed(n, c, cached, s, more, commit, false)
    ensures KidDone(n, c, cached, more, commit)
  {
    hide Rehashed, Stored;
  }

  /** The first k children of a full node are hashed; the database knows cur by now. */
  ghost predicate KidsHashed(n: Node, ck: seq<Collapsed>, cd: seq<Node>, s: set<Hash>, cur: set<Hash>,
                             commit: bool, force: bool, k: nat) {
    && n.FullNode? && |n.kids| == 17 && |ck| == 17 && |cd| == 17 && k <= 16
    && s <= cur && (!commit ==> s == cur) && Ready(n, cur, commit, force)
    && (forall j | 0 <= j < k :: KidDone(n.kids[j], ck[j], cd[j], cur, commit))
    && (forall j | k <= j < 17 :: cd[j] == n.kids[j] && ck[j] == CNil)
  }

  /** The loop of hashChildren over the sixteen children of a full node. */
  method HashKids(n: Node, db: Database, commit: bool, ghost force: bool, cachegen: Uint16, cachelimit: Uint16, onleaf: OnLeaf)
    returns (ck: seq<Collapsed>, cd: seq<Node>)
    requires db.Valid() && n.FullNode? && Ready(n, Known(db), commit, force)
    requires commit ==> forall i | 0 <= i < |n.kids| :: Watched(n.kids[i], onleaf, db.rank, db.order, db.disk.Keys)
    modifies if commit then {db} else {}
    ensures db.Valid() && KidsHashed(n, ck, cd, old(Known(db)), Known(db), commit, force, 16)
    ensures Grows(old(db.nodes), old(db.order), old(db.disk), db.nodes, db.order, db.disk)
    ensures commit ==> KidsTracked(n.kids, 16, onleaf, old(db.nodes).Keys, db.nodes)
    ensures KidsTrimmed(n.kids, cd, 16, commit, cachegen, cachelimit)
    decreases n, 0
  {
    hide Trimmed;
    hide Ready, Hashed, Database.Valid, Known, KidsHashed, Watched, Grows, KidsTracked;
    ghost var s, a, oa, da := Known(db), db.nodes, db.order, db.disk;
    GrowsNone(a, oa, da);
    NoneTracked(n.kids, onleaf, a);
    ck, cd := seq(17, _ => CNil), n.kids;
    KidsStart(n, ck, s, commit, force);
    for i := 0 to 16
      invariant db.Valid() && KidsHashed(n, ck, cd, s, Known(db), commit, force, i)
      invariant Grows(a, oa, da, db.nodes, db.order, db.disk)
      invariant commit ==> KidsTracked(n.kids, i, onleaf, a.Keys, db.nodes)
      invariant KidsTrimmed(n.kids, cd, i, commit, cachegen, cachelimit)
    {
      ghost var cur, b, ob := Known(db), db.nodes, db.order;
      KidReady(n, ck, cd, s, cur, commit, force, i);
      GrowsOrder(a, oa, da, b, ob, db.disk);
      if n.kids[i].Nil? {
        KidsSkip(n, ck, cd, s, cur, commit, force, i);
        NilTrimmed(n.kids, cd, i, commit, cachegen, cachelimit);
        if commit { NilTracked(n.kids, i, onleaf, a.Keys, b); }
      } else {
        if commit { WatchedLater(n.kids[i], onleaf, db.rank, a, oa, da, b, ob, db.disk); }
        var c, d := Hash(n.kids[i], db, commit, false, cachegen, cachelimit, onleaf);
        if commit { KidTracked(n.kids, i, onleaf, a, oa, da, b, ob, db.nodes, db.order, db.disk); }
        GrowsTrans(a, oa, da, b, ob, da, db.nodes, db.order, db.disk);
        KidsStep(n, ck, cd, s, cur, Known(db), commit, force, i, c, d);
        KidTrimmed(n.kids, cd, i, d, commit, cachegen, cachelimit);
        ck, cd := ck[i := c], cd[i := d];
      }
    }
  }

  lemma KidsStart(n: Node, ck: seq<Collapsed>, s: set<Hash>, commit: bool, force: bool)
    requires n.FullNode? && Ready(n, s, commit, force) && |ck| == 17 && forall j | 0 <= j < 17 :: ck[j] == CNil
    ensures KidsHashed(n, ck, n.kids, s, s, commit, force, 0)
  {
  }

  lemma KidReady(n: Node, ck: seq<Collapsed>, cd: seq<Node>, s: set<Hash>, cur: set<Hash>, commit: bool, force: bool, i: nat)
    requires KidsHashed(n, ck, cd, s, cur, commit, force, i) && i < 16
    ensures |n.kids| == 17 && |ck| == 17 && |cd| == 17
    ensures n.kids[i].Nil? || Ready(n.kids[i], cur, commit, false)
  {
    hide KidDone;
    SoundKid(n, cur, i);
    assert Good(n.kids[i]);
  }

  lemma KidsSkip(n: Node, ck: seq<Collapsed>, cd: seq<Node>, s: set<Hash>, cur: set<Hash>, commit: bool, force: bool, i: nat)
    requires KidsHashed(n, ck, cd, s, cur, commit, force, i) && i < 16 && n.kids[i].Nil?
    ensures KidsHashed(n, ck, cd, s, cur, commit, force, i + 1)
  {
    hide Ready;
  }

  lemma ReadyMore(n: Node, s: set<Hash>, more: set<Hash>, commit: bool, force: bool)
    requires Ready(n, s, commit, force) && s <= more
    ensures Ready(n, more, commit, force)
  {
    hide Branch, Good, Kept, DirtyUp, CachedUp, Filled;
    SoundMore(n, s, more);
    if commit { LoadableMore(n, s, more); }
  }

  lemma KidsStep(n: Node, ck: seq<Collapsed>, cd: seq<Node>, s: set<Hash>, cur: set<Hash>, more: set<Hash>,
                 commit: bool, force: bool, i: nat, c: Collapsed, d: Node)
    requires KidsHashed(n, ck, cd, s, cur, commit, force, i) && i < 16
    requires Hashed(n.kids[i], c, d, cur, more, commit, false) && (!commit ==> cur == more)
    ensures KidsHashed(n, ck[i := c], cd[i := d], s, more, commit, force, i + 1)
  {
    hide KidDone, Hashed, Ready;
    HashedGrows(n.kids[i], c, d, cur, more, commit);
    ReadyMore(n, cur, more, commit, force);
    ReadyKids(n, cur, commit, force);
    var ck', cd' := ck[i := c], cd[i := d];
    forall j | 0 <= j <= i ensures KidDone(n.kids[j], ck'[j], cd'[j], more, commit) {
      if j < i {
        KidDoneMore(n.kids[j], ck[j], cd[j], cur, more, commit);
      } else {
        KidIsDone(n.kids[i], c, d, cur, more, commit);
      }
    }
  }

  lemma HashedGrows(n: Node, c: Collapsed, d: Node, s: set<Hash>, more: set<Hash>, commit: bool)
    requires Hashed(n, c, d, s, more, commit, false)
    ensures s <= more
  {
  }

  lemma ReadyKids(n: Node, s: set<Hash>, commit: bool, force: bool)
    requires n.FullNode? && Ready(n, s, commit, force)
    ensures commit ==> forall j | 0 <= j < |n.kids| :: Loadable(n.kids[j], s)
  {
  }

  lemma FullDone(n: Node, ck: seq<Collapsed>, cd: seq<Node>, s: set<Hash>, more: set<Hash>, commit: bool, force: bool)
    requires KidsHashed(n, ck, cd, s, more, commit, force, 16)
    ensures |ck| == 17 && |n.kids| == 17 && (n.kids[16].Nil? || n.kids[16].Value?)
    ensures ChildrenHashed(n, CFull(ck[16 := ValueSlot(n.kids[16])], n.flags), FullNode(cd, n.flags), s, more, commit)
  {
    hide KidDone, SlotDone, CollapsedAs, Recached, Branch, ProperKid;
    var v := n.kids[16];
    LastKid(n, more);
    var full := ck[16 := ValueSlot(v)];
    forall i | 0 <= i < 17
      ensures SlotDone(n.kids[i], full[i], cd[i], more, commit) && (i < 16 ==> ProperKid(Simplify(full[i])))
    {
      SoundKid(n, more, i);
      if i < 16 { KidSlot(n.kids[i], ck[i], cd[i], more, commit); } else { ValueDone(v, more, commit); }
    }
    KidsCollapsed(n, full, cd, more, commit);
  }

  lemma LastKid(n: Node, s: set<Hash>)
    requires n.FullNode? && Sound(n, s) && |n.kids| == 17
    ensures n.kids[16].Nil? || n.kids[16].Value?
  {
    SoundKid(n, s, 16);
    assert Good(n.kids[16]);
  }
}
