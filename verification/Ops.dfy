/**
 The recursive, copy-on-write operations of the trie: tryGet, insert and delete.
 They walk partly loaded nodes and load what they meet from a store. Each is
 proved against the map that the node denotes.
 */
module Ops {
  import opened Rlp
  import opened Encoding
  import opened Trees
  import opened Nodes

  datatype GetResult = Got(value: Option<Bytes>, node: Node, resolved: bool) | GetMissing(hash: Hash)
  datatype Outcome = Done(dirty: bool, node: Node) | Missing(hash: Hash)

  /** The rest of a key that may be looked up at a tree: whole keys end at leaves and nowhere else. */
  predicate Slot(t: Tree, key: Hex) {
    if key == [] then !Branch(t) else HasTerm(key) && WellFormed(key) && !t.Leaf?
  }

  ghost predicate Usable(db: Store, n: Node, key: Hex) {
    Addressed(db) && Good(n) && Slot(Denotes(n), key)
  }

  lemma SlotShort(t: Tree, key: Hex)
    requires t.Short? && Branch(t) && Slot(t, key) && t.key <= key
    ensures Slot(t.child, key[|t.key|..]) && |t.key| > 0
    ensures HasTerm(t.key) ==> t.key == key
  {
    BranchShort(t);
    var rest := key[|t.key|..];
    if rest != [] {
      assert key[|t.key| - 1] < 16;
      assert Body(rest) == Body(key)[|t.key|..];
    }
  }

  lemma SlotFull(t: Tree, key: Hex)
    requires t.Full? && Branch(t) && Slot(t, key)
    ensures key != [] && Slot(t.kids[key[0]], key[1..])
  {
    var rest := key[1..];
    if rest != [] {
      assert Body(rest) == Body(key)[1..];
      assert Body(key)[0] == key[0];
    } else {
      assert key[0] == 16;
    }
  }

  lemma DenotesUpdate(n: Node, i: nat, c: Node, f: Flag)
    requires n.FullNode? && i < |n.kids|
    ensures Denotes(FullNode(n.kids[i := c], f)) == Full(Denotes(n).kids[i := Denotes(c)])
  {
    assert Denotes(FullNode(n.kids[i := c], f)).kids == Denotes(n).kids[i := Denotes(c)];
  }

  // ---------- loading ----------

  function Resolve(db: Store, h: Hash, gen: Uint16): Option<Node> {
    if h in db then Decode(h, db[h], gen) else None
  }

  /** A stored node loads, and is sound for the same tree. */
  lemma ResolveSpec(db: Store, n: Node, gen: Uint16)
    requires Addressed(db) && n.HashNode? && Good(n) && n.hash in db
    ensures Resolve(db, n.hash, gen).Some?
    ensures var r := Resolve(db, n.hash, gen).value;
            && (r.ShortNode? || r.FullNode?)
            && Denotes(r) == Denotes(n)
            && Sound(r, db.Keys) && AllClean(r) && Filled(r)
            && (Sized(n) ==> Sized(r))
            && (Loadable(n, db.Keys) ==> Loadable(r, db.Keys))
  {
    DecodeEncode(Denotes(n), n.hash, gen, db.Keys);
  }

  // ---------- going down ----------

  lemma UsableShort(db: Store, n: Node, key: Hex)
    requires Usable(db, n, key) && n.ShortNode? && n.key <= key
    ensures Usable(db, n.val, key[|n.key|..]) && |n.key| > 0
  {
    SlotShort(Denotes(n), key);
  }

  lemma UsableFull(db: Store, n: Node, key: Hex)
    requires Usable(db, n, key) && n.FullNode?
    ensures |n.kids| == 17 && key != [] && Usable(db, n.kids[key[0]], key[1..])
  {
    SlotFull(Denotes(n), key);
  }

  lemma UsableHash(db: Store, n: Node, key: Hex, gen: Uint16)
    requires Usable(db, n, key) && n.HashNode? && n.hash in db
    ensures Resolve(db, n.hash, gen).Some?
    ensures var r := Resolve(db, n.hash, gen).value; !r.HashNode? && Usable(db, r, key)
  {
    ResolveSpec(db, n, gen);
  }

  // ---------- tryGet ----------

  function TryGet(db: Store, gen: Uint16, n: Node, key: Hex): GetResult
    requires Usable(db, n, key)
    decreases |key|, if n.HashNode? then 1 else 0
  {
    match n
    case Nil => Got(None, Nil, false)
    case Value(v) => Got(Some(v), n, false)
    case ShortNode(k, v, f) =>
      if !(k <= key) then Got(None, n, false)
      else
        UsableShort(db, n, key);
        match TryGet(db, gen, v, key[|k|..]) {
          case GetMissing(h) => GetMissing(h)
          case Got(value, c, resolved) =>
            Got(value, if resolved then ShortNode(k, c, f.(gen := gen)) else n, resolved)
        }
    case FullNode(kids, f) =>
      UsableFull(db, n, key);
      match TryGet(db, gen, kids[key[0]], key[1..]) {
        case GetMissing(h) => GetMissing(h)
        case Got(value, c, resolved) =>
          Got(value, if resolved then FullNode(kids[key[0] := c], f.(gen := gen)) else n, resolved)
      }
    case HashNode(h) =>
      if h !in db then GetMissing(h)
      else
        UsableHash(db, n, key, gen);
        match TryGet(db, gen, Resolve(db, h, gen).value, key) {
          case GetMissing(h') => GetMissing(h')
          case Got(value, c, _) => Got(value, c, true)
        }
  }

  /** Same tree, at least as well kept. */
  ghost predicate Refreshed(n: Node, r: Node, db: Store) {
    && Denotes(r) == Denotes(n)
    && Sound(r, db.Keys)
    && (Sized(n) ==> Sized(r))
    && (AllClean(n) ==> AllClean(r)) && (Filled(n) ==> Filled(r))
    && (Loadable(n, db.Keys) ==> Loadable(r, db.Keys))
  }

  lemma RefreshShort(n: Node, c: Node, gen: Uint16, db: Store)
    requires n.ShortNode? && Sound(n, db.Keys) && Refreshed(n.val, c, db)
    ensures Refreshed(n, ShortNode(n.key, c, n.flags.(gen := gen)), db)
  {
    SoundShort(ShortNode(n.key, c, n.flags.(gen := gen)), db.Keys);
  }

  lemma RefreshFull(n: Node, i: nat, c: Node, gen: Uint16, db: Store)
    requires n.FullNode? && Sound(n, db.Keys) && i < |n.kids| && Refreshed(n.kids[i], c, db)
    ensures Refreshed(n, FullNode(n.kids[i := c], n.flags.(gen := gen)), db)
  {
    hide Decoded, Lookup, Branch, Encode;
    var f := n.flags.(gen := gen);
    DenotesUpdate(n, i, c, f);
    assert Denotes(n).kids[i := Denotes(c)] == Denotes(n).kids;
    forall k | 0 <= k < |n.kids| ensures Sound(n.kids[k], db.Keys) && Sized(n.kids[k]) { SoundKid(n, db.Keys, k); }
    SoundFull(FullNode(n.kids[i := c], f), db.Keys);
  }

  /** tryGet returns what the map holds and changes nothing but what is loaded; it fails only on a missing node. */
  lemma {:induction false} TryGetSpec(db: Store, gen: Uint16, n: Node, key: Hex)
    requires Usable(db, n, key) && Sound(n, db.Keys)
    ensures match TryGet(db, gen, n, key)
            case Got(value, r, _) => value == Lookup(Denotes(n), key) && Refreshed(n, r, db)
            case GetMissing(h) => h !in db && !Loadable(n, db.Keys)
    decreases |key|, if n.HashNode? then 1 else 0
  {
    hide Good, DirtyUp, CachedUp, Filled, Kept, Decoded, Encode, Branch;
    match n
    case Nil =>
    case Value(_) => assert Good(n);
    case ShortNode(k, v, f) =>
      SoundVal(n, db.Keys);
      if k <= key {
        UsableShort(db, n, key);
        TryGetSpec(db, gen, v, key[|k|..]);
        var r := TryGet(db, gen, v, key[|k|..]);
        if r.Got? { RefreshShort(n, r.node, gen, db); }
      }
    case FullNode(kids, f) =>
      UsableFull(db, n, key);
      SoundKid(n, db.Keys, key[0]);
      TryGetSpec(db, gen, kids[key[0]], key[1..]);
      var r := TryGet(db, gen, kids[key[0]], key[1..]);
      if r.Got? { RefreshFull(n, key[0], r.node, gen, db); }
    case HashNode(h) =>
      if h in db {
        UsableHash(db, n, key, gen);
        ResolveSpec(db, n, gen);
        TryGetSpec(db, gen, Resolve(db, h, gen).value, key);
      }
  }

  // ---------- insert ----------

  function NewFlag(gen: Uint16): Flag {
    Flag(Zero, gen, true)
  }

  /** insert into nothing: the value itself when no key is left, a new short node otherwise. */
  function Graft(key: Hex, value: Node, gen: Uint16): Node {
    if key == [] then value else ShortNode(key, value, NewFlag(gen))
  }

  /** Branch out where a short node and a key part, at index m of both. */
  function Split(n: Node, key: Hex, m: nat, v: Bytes, gen: Uint16): Node
    requires n.ShortNode? && m < |n.key| && m < |key|
  {
    FullNode(
      NoKids()
        [n.key[m] := Graft(n.key[m + 1..], n.val, gen)]
        [key[m] := Graft(key[m + 1..], Value(v), gen)],
      NewFlag(gen))
  }

  /** A whole key is never a proper prefix of a short node's key. */
  lemma SplitSlot(t: Tree, key: Hex)
    requires t.Short? && Branch(t) && Slot(t, key) && key != []
    ensures Common(key, t.key) == |t.key| || Common(key, t.key) < |key|
  {
    var m := Common(key, t.key);
    if m > 0 { assert key[m - 1] == t.key[m - 1]; }
  }

  lemma UsableInsert(db: Store, n: Node, key: Hex)
    requires Usable(db, n, key) && key != []
    ensures !n.Value?
    ensures n.ShortNode? ==>
              var m := Common(key, n.key);
              if m == |n.key| then 0 < m <= |key| && Usable(db, n.val, key[m..]) else m < |key|
  {
    if n.ShortNode? {
      SplitSlot(Denotes(n), key);
      CommonPrefix(key, n.key);
      if n.key <= key { UsableShort(db, n, key); }
    }
  }

  /** Put back what an insert below a short node returned. */
  function WrapShort(n: Node, out: Outcome, gen: Uint16): Outcome
    requires n.ShortNode?
  {
    match out
    case Missing(h) => Missing(h)
    case Done(dirty, nn) => if dirty then Done(true, ShortNode(n.key, nn, NewFlag(gen))) else Done(false, n)
  }

  /** Put back what an insert below a full node returned. */
  function WrapFull(n: Node, i: Nibble, out: Outcome, gen: Uint16): Outcome
    requires n.FullNode? && |n.kids| == 17
  {
    match out
    case Missing(h) => Missing(h)
    case Done(dirty, nn) => if dirty then Done(true, FullNode(n.kids[i := nn], NewFlag(gen))) else Done(false, n)
  }

  function Insert(db: Store, gen: Uint16, n: Node, key: Hex, v: Bytes): Outcome
    requires Usable(db, n, key)
    decreases |key|, if n.HashNode? then 1 else 0
  {
    if key == [] then Done(n != Value(v), Value(v))
    else
      UsableInsert(db, n, key);
      match n
      case ShortNode(k, c, f) =>
        var m := Common(key, k);
        if m == |k| then
          WrapShort(n, Insert(db, gen, c, key[m..], v), gen)
        else
          var branch := Split(n, key, m, v, gen);
          Done(true, if m == 0 then branch else ShortNode(key[..m], branch, NewFlag(gen)))
      case FullNode(kids, f) =>
        UsableFull(db, n, key);
        WrapFull(n, key[0], Insert(db, gen, kids[key[0]], key[1..], v), gen)
      case Nil => Done(true, ShortNode(key, Value(v), NewFlag(gen)))
      case HashNode(h) =>
        if h !in db then Missing(h)
        else
          UsableHash(db, n, key, gen);
          Insert(db, gen, Resolve(db, h, gen).value, key, v)
  }

  /** What holds of the node that replaces n when the map changes to one with lookup as given. */
  ghost predicate Replaces(r: Node, n: Node, s: set<Hash>) {
    && Sound(r, s)
    && (Sized(n) ==> Sized(r))
    && (Loadable(n, s) ==> Loadable(r, s))
  }

  /** Tree r is t with key set to v, as seen at k; dirty tells whether that is a change. */
  ghost predicate MapInserted(t: Tree, key: Hex, v: Bytes, dirty: bool, r: Tree, k: Hex) {
    && (if key == [] then IsLeaf(r) else Branch(r))
    && (t.Full? ==> r.Full?)
    && Lookup(r, k) == (if k == key then Some(v) else Lookup(t, k))
    && (dirty <==> Lookup(t, key) != Some(v))
    && (!dirty ==> r == t)
  }

  ghost predicate Inserted(db: Store, n: Node, key: Hex, v: Bytes, out: Outcome, k: Hex) {
    match out
    case Missing(h) => h !in db && !Loadable(n, db.Keys)
    case Done(dirty, r) => Replaces(r, n, db.Keys) && MapInserted(Denotes(n), key, v, dirty, Denotes(r), k)
  }

  lemma GraftSpec(key: Hex, c: Node, gen: Uint16, s: set<Hash>, k: Hex)
    requires Sound(c, s) && Sized(c)
    requires key == [] ==> !c.Nil? && Part(Denotes(c))
    requires key != [] ==> Branch(Short(key, Denotes(c)))
    ensures var g := Graft(key, c, gen);
            && Sound(g, s) && Sized(g)
            && Lookup(Denotes(g), k) == (if key <= k then Lookup(Denotes(c), k[|key|..]) else None)
            && (Loadable(c, s) ==> Loadable(g, s))
            && (key != [] ==> Branch(Denotes(g)))
  {
    if key != [] { SoundShort(Graft(key, c, gen), s); } else { assert k[0..] == k; }
  }

  function Forked(a: Tree, i: Nibble, b: Tree, j: Nibble): Tree {
    Full(seq(17, x => if x == j then b else if x == i then a else Empty))
  }

  lemma ForkedSpec(a: Tree, i: Nibble, b: Tree, j: Nibble, y: Hex)
    requires i != j && Fits(a, i) && Fits(b, j)
    ensures Branch(Forked(a, i, b, j))
    ensures Lookup(Forked(a, i, b, j), y) ==
            if y == [] then None
            else if y[0] == i then Lookup(a, y[1..])
            else if y[0] == j then Lookup(b, y[1..])
            else None
  {
    var t := Forked(a, i, b, j);
    assert t.kids[i] == a && t.kids[j] == b;
    var lo, hi := if i < j then i else j, if i < j then j else i;
    assert !t.kids[lo].Empty? && !t.kids[hi].Empty?;
  }

  lemma DenotesForked(a: Node, i: Nibble, b: Node, j: Nibble, f: Flag)
    requires i != j
    ensures Denotes(FullNode(NoKids()[i := a][j := b], f)) == Forked(Denotes(a), i, Denotes(b), j)
  {
    var n := FullNode(NoKids()[i := a][j := b], f);
    assert Denotes(n).kids == Forked(Denotes(a), i, Denotes(b), j).kids;
  }

  /** A full node made of two subtrees. */
  lemma TwoKids(a: Node, i: Nibble, b: Node, j: Nibble, f: Flag, s: set<Hash>)
    requires i != j && f.hash == Zero && f.dirty
    requires Sound(a, s) && Sized(a) && Fits(Denotes(a), i)
    requires Sound(b, s) && Sized(b) && Fits(Denotes(b), j)
    ensures var n := FullNode(NoKids()[i := a][j := b], f);
            && Denotes(n) == Forked(Denotes(a), i, Denotes(b), j)
            && Sound(n, s)
            && (Loadable(a, s) && Loadable(b, s) ==> Loadable(n, s))
  {
    hide Lookup, Decoded, Branch, Forked, Encode;
    DenotesForked(a, i, b, j, f);
    ForkedSpec(Denotes(a), i, Denotes(b), j, []);
    SoundFull(FullNode(NoKids()[i := a][j := b], f), s);
  }

  /** The part of a short node below a fork in its key. */
  lemma Below(t: Tree, m: nat)
    requires t.Short? && Branch(t) && m < |t.key|
    ensures t.key[m] == 16 <==> m == |t.key| - 1 && HasTerm(t.key)
    ensures t.key[m + 1..] == [] ==> if t.key[m] == 16 then IsLeaf(t.child) else Branch(t.child)
    ensures t.key[m + 1..] != [] ==> Branch(Short(t.key[m + 1..], t.child))
  {
    var rest := t.key[m + 1..];
    if rest != [] {
      assert HasTerm(rest) == HasTerm(t.key);
      assert Body(rest) == Body(t.key)[m + 1..];
    }
  }

  lemma WholeBranch(key: Hex, v: Bytes)
    requires key != [] && WellFormed(key) && HasTerm(key) && |v| > 0
    ensures Branch(Short(key, Leaf(v)))
  {
  }

  lemma SoundValue(v: Bytes, s: set<Hash>)
    requires |v| > 0
    ensures Sound(Value(v), s) && Sized(Value(v)) && IsLeaf(Denotes(Value(v)))
  {
  }

  /** The two subtrees of a split. */
  lemma SplitParts(n: Node, key: Hex, m: nat, v: Bytes, gen: Uint16, s: set<Hash>, z: Hex)
    requires n.ShortNode? && Sound(n, s) && Slot(Denotes(n), key)
    requires m < |key| && m < |n.key| && |v| > 0
    ensures var g, h := Graft(n.key[m + 1..], n.val, gen), Graft(key[m + 1..], Value(v), gen);
            && Sound(g, s) && Sized(g) && Fits(Denotes(g), n.key[m]) && (Loadable(n.val, s) ==> Loadable(g, s))
            && Sound(h, s) && Sized(h) && Fits(Denotes(h), key[m]) && Loadable(h, s)
            && Lookup(Denotes(g), z) ==
               (if n.key[m + 1..] <= z then Lookup(Denotes(n.val), z[|n.key[m + 1..]|..]) else None)
            && Lookup(Denotes(h), z) == (if key[m + 1..] == z then Some(v) else None)
  {
    hide Good, DirtyUp, CachedUp, Filled, Kept, Decoded, Encode, Branch;
    SoundVal(n, s);
    SoundValue(v, s);
    Below(Denotes(n), m);
    WholeBranch(key, v);
    Below(Short(key, Leaf(v)), m);
    GraftSpec(n.key[m + 1..], n.val, gen, s, z);
    GraftSpec(key[m + 1..], Value(v), gen, s, z);
  }

  lemma SplitSpec(n: Node, key: Hex, m: nat, v: Bytes, gen: Uint16, s: set<Hash>, y: Hex)
    requires n.ShortNode? && Sound(n, s) && Slot(Denotes(n), key)
    requires m < |key| && m < |n.key| && n.key[m] != key[m] && |v| > 0
    ensures var r := Split(n, key, m, v, gen);
            && Sound(r, s) && Sized(r) && Denotes(r).Full? && Branch(Denotes(r))
            && (Loadable(n, s) ==> Loadable(r, s))
            && Lookup(Denotes(r), y) ==
               if n.key[m..] <= y then Lookup(Denotes(n.val), y[|n.key| - m..])
               else if y == key[m..] then Some(v) else None
  {
    hide Good, DirtyUp, CachedUp, Filled, Kept, Decoded, Encode, Branch, Lookup, Graft;
    var i, j := n.key[m], key[m];
    SplitParts(n, key, m, v, gen, s, if y == [] then [] else y[1..]);
    var g, h := Graft(n.key[m + 1..], n.val, gen), Graft(key[m + 1..], Value(v), gen);
    TwoKids(g, i, h, j, NewFlag(gen), s);
    ForkedSpec(Denotes(g), i, Denotes(h), j, y);
    SuffixStep(n.key, m, y);
    SuffixStep(key, m, y);
  }

  /** Replacing one child of a full node by another that belongs there. */
  lemma UpdatedFull(t: Tree, i: Nibble, c: Tree, k: Hex)
    requires t.Full? && Branch(t) && Fits(c, i)
    ensures Branch(Full(t.kids[i := c]))
    ensures Lookup(Full(t.kids[i := c]), k) == if k != [] && k[0] == i then Lookup(c, k[1..]) else Lookup(t, k)
  {
    var x, y :| 0 <= x < y < 17 && !t.kids[x].Empty? && !t.kids[y].Empty?;
    var kids := t.kids[i := c];
    assert !kids[x].Empty? && !kids[y].Empty?;
  }

  lemma SoundUpdate(n: Node, i: nat, c: Node, gen: Uint16, s: set<Hash>)
    requires n.FullNode? && Sound(n, s) && i < |n.kids| && Sound(c, s) && Sized(c)
    requires Branch(Full(Denotes(n).kids[i := Denotes(c)]))
    ensures var r := FullNode(n.kids[i := c], NewFlag(gen));
            && Denotes(r) == Full(Denotes(n).kids[i := Denotes(c)])
            && Sound(r, s)
            && (Loadable(n, s) && (Loadable(n.kids[i], s) ==> Loadable(c, s)) ==> Loadable(r, s))
  {
    hide Good, DirtyUp, CachedUp, Filled, Kept, Decoded, Encode, Lookup, Branch;
    var r := FullNode(n.kids[i := c], NewFlag(gen));
    DenotesUpdate(n, i, c, NewFlag(gen));
    forall k | 0 <= k < |n.kids| ensures Sound(n.kids[k], s) && Sized(n.kids[k]) { SoundKid(n, s, k); }
    SoundFull(r, s);
  }

  lemma MapInsertedFull(t: Tree, key: Hex, v: Bytes, dirty: bool, c: Tree, k: Hex)
    requires t.Full? && Branch(t) && Slot(t, key) && key != []
    requires |t.kids| == 17 && forall y: Hex :: MapInserted(t.kids[key[0]], key[1..], v, dirty, c, y)
    ensures Fits(c, key[0]) && MapInserted(t, key, v, dirty, Full(t.kids[key[0] := c]), k)
  {
    hide Branch, Lookup;
    var i := key[0];
    SlotFull(t, key);
    assert MapInserted(t.kids[i], key[1..], v, dirty, c, key[1..]);
    assert i == 16 <==> key[1..] == [];
    UpdatedFull(t, i, c, k);
    AtFull(t, key);
    AtFull(t, k);
    if k != [] {
      assert MapInserted(t.kids[i], key[1..], v, dirty, c, k[1..]);
      SuffixStep(key, 0, k);
      assert key[0..] == key;
    }
    if !dirty { assert t.kids[i := c] == t.kids; }
  }

  lemma MapInsertedShort(t: Tree, key: Hex, v: Bytes, dirty: bool, c: Tree, k: Hex)
    requires t.Short? && Branch(t) && Slot(t, key) && t.key <= key
    requires forall y: Hex :: MapInserted(t.child, key[|t.key|..], v, dirty, c, y)
    ensures MapInserted(t, key, v, dirty, Short(t.key, c), k)
  {
    hide Lookup, Branch;
    var m := |t.key|;
    SlotShort(t, key);
    BranchShort(t);
    assert MapInserted(t.child, key[m..], v, dirty, c, key[m..]);
    ShortBranch(t.key, c);
    AtShort(t.key, t.child, k);
    AtShort(t.key, c, k);
    AtShort(t.key, t.child, key);
    if t.key <= k {
      assert MapInserted(t.child, key[m..], v, dirty, c, k[m..]);
      assert k == t.key + k[m..] && key == t.key + key[m..];
    }
  }

  lemma InsertedFull(db: Store, gen: Uint16, n: Node, key: Hex, v: Bytes, out: Outcome, k: Hex)
    requires n.FullNode? && Usable(db, n, key) && Sound(n, db.Keys) && key != [] && |n.kids| == 17
    requires forall y: Hex :: Inserted(db, n.kids[key[0]], key[1..], v, out, y)
    ensures Inserted(db, n, key, v, WrapFull(n, key[0], out, gen), k)
  {
    hide Good, DirtyUp, CachedUp, Filled, Kept, Decoded, Encode, Branch, Lookup, Denotes;
    var i := key[0];
    SoundKid(n, db.Keys, i);
    assert Inserted(db, n.kids[i], key[1..], v, out, k);
    if out.Missing? {
      NotLoadableKid(n, i, db.Keys);
    } else {
      var c := out.node;
      forall y: Hex ensures MapInserted(Denotes(n).kids[i], key[1..], v, out.dirty, Denotes(c), y) {
        assert Inserted(db, n.kids[i], key[1..], v, out, y);
      }
      MapInsertedFull(Denotes(n), key, v, out.dirty, Denotes(c), k);
      if out.dirty { SoundUpdate(n, i, c, gen, db.Keys); }
    }
  }

  lemma NotLoadableKid(n: Node, i: nat, s: set<Hash>)
    requires n.FullNode? && i < |n.kids| && !Loadable(n.kids[i], s)
    ensures !Loadable(n, s)
  {
  }

  lemma InsertedShort(db: Store, gen: Uint16, n: Node, key: Hex, v: Bytes, out: Outcome, k: Hex)
    requires n.ShortNode? && Usable(db, n, key) && Sound(n, db.Keys) && n.key <= key
    requires forall y: Hex :: Inserted(db, n.val, key[|n.key|..], v, out, y)
    ensures Inserted(db, n, key, v, WrapShort(n, out, gen), k)
  {
    hide Good, DirtyUp, CachedUp, Filled, Kept, Decoded, Encode, Branch, Lookup;
    var t, m := Denotes(n), |n.key|;
    SoundVal(n, db.Keys);
    assert Inserted(db, n.val, key[m..], v, out, k);
    if out.Done? {
      var c := out.node;
      forall y: Hex ensures MapInserted(t.child, key[|t.key|..], v, out.dirty, Denotes(c), y) {
        assert Inserted(db, n.val, key[m..], v, out, y);
      }
      MapInsertedShort(t, key, v, out.dirty, Denotes(c), k);
      if out.dirty { SoundShort(ShortNode(n.key, c, NewFlag(gen)), db.Keys); }
    }
  }

  /** A tree that agrees below the prefix p agrees everywhere. */
  lemma MapInsertedSplit(t: Tree, key: Hex, m: nat, v: Bytes, b: Tree, k: Hex)
    requires t.Short? && Branch(t) && Slot(t, key) && b.Full? && Branch(b)
    requires m < |key| && m < |t.key| && key[..m] == t.key[..m] && key[m] != t.key[m]
    requires forall y: Hex ::
      Lookup(b, y) == if t.key[m..] <= y then Lookup(t.child, y[|t.key| - m..]) else if y == key[m..] then Some(v) else None
    ensures MapInserted(t, key, v, true, if m == 0 then b else Short(key[..m], b), k)
  {
    hide Lookup, Branch;
    var p := key[..m];
    BranchShort(t);
    assert Plain(p) && !HasTerm(p);
    if m > 0 { ShortBranch(p, b); }
    SplitLookup(t, key, m, v, b, k);
    AtShort(t.key, t.child, key);
  }

  lemma SplitLookup(t: Tree, key: Hex, m: nat, v: Bytes, b: Tree, k: Hex)
    requires t.Short?
    requires m < |key| && m < |t.key| && key[..m] == t.key[..m] && key[m] != t.key[m]
    requires forall y: Hex ::
      Lookup(b, y) == if t.key[m..] <= y then Lookup(t.child, y[|t.key| - m..]) else if y == key[m..] then Some(v) else None
    ensures Lookup(if m == 0 then b else Short(key[..m], b), k) == if k == key then Some(v) else Lookup(t, k)
    ensures !(t.key <= key)
  {
    hide Lookup;
    var p := key[..m];
    PrefixStep(key, m, k);
    PrefixStep(t.key, m, k);
    AtShort(p, b, k);
    AtShort(t.key, t.child, k);
    if m == 0 { assert k[m..] == k; }
  }

  lemma InsertedSplit(db: Store, gen: Uint16, n: Node, key: Hex, v: Bytes, k: Hex)
    requires n.ShortNode? && Usable(db, n, key) && Sound(n, db.Keys) && key != [] && |v| > 0
    requires Common(key, n.key) < |n.key| && Common(key, n.key) < |key|
    ensures Inserted(db, n, key, v, Insert(db, gen, n, key, v), k)
  {
    var m := Common(key, n.key);
    var b := Split(n, key, m, v, gen);
    forall y: Hex
      ensures Lookup(Denotes(b), y) ==
              if n.key[m..] <= y then Lookup(Denotes(n.val), y[|n.key| - m..])
              else if y == key[m..] then Some(v) else None
    {
      SplitSpec(n, key, m, v, gen, db.Keys, y);
    }
    SplitSpec(n, key, m, v, gen, db.Keys, k);
    MapInsertedSplit(Denotes(n), key, m, v, Denotes(b), k);
    if m > 0 { SoundShort(ShortNode(key[..m], b, NewFlag(gen)), db.Keys); }
  }

  lemma InsertedHere(db: Store, gen: Uint16, n: Node, v: Bytes, k: Hex)
    requires Usable(db, n, []) && Sound(n, db.Keys) && |v| > 0
    ensures Inserted(db, n, [], v, Insert(db, gen, n, [], v), k)
  {
  }

  lemma InsertedNil(db: Store, gen: Uint16, key: Hex, v: Bytes, k: Hex)
    requires Usable(db, Nil, key) && key != [] && |v| > 0
    ensures Inserted(db, Nil, key, v, Insert(db, gen, Nil, key, v), k)
  {
    WholeBranch(key, v);
    SoundShort(ShortNode(key, Value(v), NewFlag(gen)), db.Keys);
  }

  /** A loaded node stands in for the hash it was loaded from. */
  lemma InsertedHash(db: Store, n: Node, r: Node, key: Hex, v: Bytes, out: Outcome, k: Hex)
    requires Denotes(r) == Denotes(n) && (Sized(n) ==> Sized(r)) && (Loadable(n, db.Keys) ==> Loadable(r, db.Keys))
    requires Inserted(db, r, key, v, out, k)
    ensures Inserted(db, n, key, v, out, k)
  {
    hide Denotes, Good, DirtyUp, CachedUp, Filled, Kept, Loadable;
  }

  lemma InsertedMissing(db: Store, n: Node, key: Hex, v: Bytes, k: Hex)
    requires n.HashNode? && n.hash !in db
    ensures Inserted(db, n, key, v, Missing(n.hash), k)
  {
  }

  /**
   insert updates exactly one key of the map, reports a change exactly when the
   map changed, keeps canonical form and sound caches, and fails only on a
   missing node.
   */
  lemma {:induction false} InsertSpec(db: Store, gen: Uint16, n: Node, key: Hex, v: Bytes, k: Hex)
    requires Usable(db, n, key) && Sound(n, db.Keys) && |v| > 0
    ensures Inserted(db, n, key, v, Insert(db, gen, n, key, v), k)
    decreases |key|, if n.HashNode? then 1 else 0
  {
    hide Good, DirtyUp, CachedUp, Filled, Kept, Decoded, Encode, Branch, Lookup, Denotes, Inserted, WrapShort, WrapFull;
    if key == [] {
      InsertedHere(db, gen, n, v, k);
    } else {
      UsableInsert(db, n, key);
      match n
      case Nil => InsertedNil(db, gen, key, v, k);
      case ShortNode(key', c, _) =>
        var m := Common(key, key');
        if m < |key'| {
          InsertedSplit(db, gen, n, key, v, k);
        } else {
          CommonPrefix(key, key');
          SoundVal(n, db.Keys);
          forall y: Hex ensures Inserted(db, c, key[m..], v, Insert(db, gen, c, key[m..], v), y) {
            InsertSpec(db, gen, c, key[m..], v, y);
          }
          InsertedShort(db, gen, n, key, v, Insert(db, gen, c, key[m..], v), k);
        }
      case FullNode(kids, _) =>
        UsableFull(db, n, key);
        SoundKid(n, db.Keys, key[0]);
        forall y: Hex ensures Inserted(db, kids[key[0]], key[1..], v, Insert(db, gen, kids[key[0]], key[1..], v), y) {
          InsertSpec(db, gen, kids[key[0]], key[1..], v, y);
        }
        InsertedFull(db, gen, n, key, v, Insert(db, gen, kids[key[0]], key[1..], v), k);
      case HashNode(h) =>
        if h in db {
          UsableHash(db, n, key, gen);
          ResolveSpec(db, n, gen);
          var r := Resolve(db, h, gen).value;
          InsertSpec(db, gen, r, key, v, k);
          InsertedHash(db, n, r, key, v, Insert(db, gen, r, key, v), k);
        } else {
          InsertedMissing(db, n, key, v, k);
        }
    }
  }

  // ---------- delete ----------

  /** Index of the only child that is not nil, -1 when there is none and -2 when there are several. */
  function OnlyKid(kids: seq<Node>): (pos: int)
    ensures pos == -1 <==> forall i | 0 <= i < |kids| :: kids[i].Nil?
    ensures pos >= 0 ==> pos < |kids| && forall i | 0 <= i < |kids| :: kids[i].Nil? <==> i != pos
    ensures pos < -1 ==> pos == -2 && exists i, j :: 0 <= i < j < |kids| && !kids[i].Nil? && !kids[j].Nil?
  {
    if kids == [] then -1
    else
      var last := |kids| - 1;
      var pos := OnlyKid(kids[..last]);
      assert forall i | 0 <= i < last :: kids[..last][i] == kids[i];
      if kids[last].Nil? then pos else if pos == -1 then last else -2
  }

  method FindOnlyKid(kids: seq<Node>) returns (pos: int)
    ensures pos == OnlyKid(kids)
  {
    pos := -1;
    for i := 0 to |kids|
      invariant pos == OnlyKid(kids[..i]) && pos != -2
    {
      assert kids[..i + 1][..i] == kids[..i];
      if !kids[i].Nil? {
        if pos == -1 {
          pos := i;
        } else {
          pos := -2;
          assert !kids[i].Nil? && exists j :: 0 <= j < i && !kids[j].Nil?;
          break;
        }
      }
    }
    assert kids[..|kids|] == kids;
  }

  /** The node itself, loaded if need be. */
  function Load(db: Store, gen: Uint16, n: Node): Option<Node> {
    if n.HashNode? then Resolve(db, n.hash, gen) else Some(n)
  }

  /** A full node left with one child becomes a short node; the child is loaded to see whether it is short itself. */
  function Reduce(db: Store, gen: Uint16, kids: seq<Node>): Outcome
    requires |kids| == 17
  {
    var pos := OnlyKid(kids);
    if pos < 0 then Done(true, FullNode(kids, NewFlag(gen)))
    else if pos == 16 then Done(true, ShortNode([16], kids[16], NewFlag(gen)))
    else
      match Load(db, gen, kids[pos])
      case None => Missing(kids[pos].hash)
      case Some(cnode) =>
        if cnode.ShortNode? then Done(true, ShortNode([pos] + cnode.key, cnode.val, NewFlag(gen)))
        else Done(true, ShortNode([pos], kids[pos], NewFlag(gen)))
  }

  /** Put back what a delete below a short node returned, merging two short nodes into one. */
  function MergeShort(n: Node, out: Outcome, gen: Uint16): Outcome
    requires n.ShortNode?
  {
    match out
    case Missing(h) => Missing(h)
    case Done(dirty, child) =>
      if !dirty then Done(false, n)
      else if child.ShortNode? then Done(true, ShortNode(n.key + child.key, child.val, NewFlag(gen)))
      else Done(true, ShortNode(n.key, child, NewFlag(gen)))
  }

  /** Put back what a delete below a full node returned. */
  function MergeFull(db: Store, n: Node, i: Nibble, out: Outcome, gen: Uint16): Outcome
    requires n.FullNode? && |n.kids| == 17
  {
    match out
    case Missing(h) => Missing(h)
    case Done(dirty, nn) => if dirty then Reduce(db, gen, n.kids[i := nn]) else Done(false, n)
  }

  function Delete(db: Store, gen: Uint16, n: Node, key: Hex): Outcome
    requires Usable(db, n, key)
    decreases |key|, if n.HashNode? then 1 else 0
  {
    match n
    case ShortNode(k, c, f) =>
      var m := Common(key, k);
      CommonPrefix(key, k);
      if m < |k| then Done(false, n)
      else if m == |key| then Done(true, Nil)
      else
        UsableShort(db, n, key);
        MergeShort(n, Delete(db, gen, c, key[|k|..]), gen)
    case FullNode(kids, f) =>
      UsableFull(db, n, key);
      MergeFull(db, n, key[0], Delete(db, gen, kids[key[0]], key[1..]), gen)
    case Value(_) => Done(true, Nil)
    case Nil => Done(false, Nil)
    case HashNode(h) =>
      if h !in db then Missing(h)
      else
        UsableHash(db, n, key, gen);
        Delete(db, gen, Resolve(db, h, gen).value, key)
  }

  /** Tree r is t without key, as seen at k; dirty tells whether that is a change. */
  ghost predicate MapDeleted(t: Tree, key: Hex, dirty: bool, r: Tree, k: Hex) {
    && (if key == [] then r.Empty? else Canonical(r))
    && (t.Full? ==> Branch(r))
    && Lookup(r, k) == (if k == key then None else Lookup(t, k))
    && (dirty <==> Lookup(t, key).Some?)
    && (!dirty ==> r == t)
  }

  ghost predicate Deleted(db: Store, n: Node, key: Hex, out: Outcome, k: Hex) {
    match out
    case Missing(h) => h !in db && !Loadable(n, db.Keys)
    case Done(dirty, r) =>
      && Replaces(r, n, db.Keys) && MapDeleted(Denotes(n), key, dirty, Denotes(r), k)
      && (dirty ==> !r.HashNode?)
  }

  /** A short node above a subtree, merged with it when that is short too. */
  function Joined(p: Hex, c: Tree): Tree {
    if c.Short? then Short(p + c.key, c.child) else Short(p, c)
  }

  lemma JoinedSpec(p: Hex, c: Tree, k: Hex)
    requires p != [] && Plain(p) && Branch(c)
    ensures Branch(Joined(p, c))
    ensures Lookup(Joined(p, c), k) == if p <= k then Lookup(c, k[|p|..]) else None
  {
    if c.Short? {
      var q := p + c.key;
      assert HasTerm(q) == HasTerm(c.key);
      assert Body(q) == p + Body(c.key);
      PrefixStep(q, |p|, k);
      assert q[..|p|] == p && q[|p|..] == c.key;
    }
  }

  lemma SoundJoined(p: Hex, c: Node, gen: Uint16, s: set<Hash>)
    requires p != [] && Plain(p) && Sound(c, s) && Branch(Denotes(c)) && !c.HashNode?
    requires c.FullNode? ==> Sized(c)
    ensures var r := if c.ShortNode? then ShortNode(p + c.key, c.val, NewFlag(gen)) else ShortNode(p, c, NewFlag(gen));
            && Denotes(r) == Joined(p, Denotes(c)) && Sound(r, s)
            && (Loadable(c, s) ==> Loadable(r, s))
  {
    var r := if c.ShortNode? then ShortNode(p + c.key, c.val, NewFlag(gen)) else ShortNode(p, c, NewFlag(gen));
    JoinedSpec(p, Denotes(c), []);
    SoundShort(r, s);
  }

  /** Children of a full node that may have lost one. */
  ghost predicate Loose(kids: seq<Node>, s: set<Hash>) {
    && |kids| == 17
    && (forall i | 0 <= i < 17 :: Sound(kids[i], s) && Sized(kids[i]))
    && (forall i | 0 <= i < 17 :: kids[i].Nil? || Fits(Denotes(kids[i]), i))
    && (exists i :: 0 <= i < 17 && !kids[i].Nil?)
  }

  function Kids(kids: seq<Node>): Tree {
    Denotes(FullNode(kids, NewFlag(0)))
  }

  lemma OnlyLookup(kids: seq<Node>, pos: nat, k: Hex)
    requires |kids| == 17 && pos < 17 && forall i | 0 <= i < 17 && i != pos :: kids[i].Nil?
    ensures Lookup(Kids(kids), k) == if [pos as Nibble] <= k then Lookup(Denotes(kids[pos]), k[1..]) else None
  {
    var p: Hex := [pos];
    assert p <= k <==> k != [] && k[0] == pos;
    if k != [] { assert Kids(kids).kids[k[0]] == Denotes(kids[k[0]]); }
  }

  ghost predicate Reduced(db: Store, kids: seq<Node>, out: Outcome, k: Hex) {
    match out
    case Missing(h) => h !in db && exists i :: 0 <= i < |kids| && !Loadable(kids[i], db.Keys)
    case Done(dirty, r) =>
      && dirty && !r.HashNode? && Sound(r, db.Keys) && Sized(r)
      && Branch(Denotes(r)) && Lookup(Denotes(r), k) == Lookup(Kids(kids), k)
      && ((forall i | 0 <= i < |kids| :: Loadable(kids[i], db.Keys)) ==> Loadable(r, db.Keys))
  }

  lemma ReduceOne(db: Store, gen: Uint16, kids: seq<Node>, pos: nat, k: Hex)
    requires Addressed(db) && Loose(kids, db.Keys) && OnlyKid(kids) == pos && pos < 16
    ensures Reduced(db, kids, Reduce(db, gen, kids), k)
  {
    hide Good, DirtyUp, CachedUp, Filled, Kept, Decoded, Encode, Branch, Lookup;
    var p: Hex := [pos];
    var only := kids[pos];
    OnlyLookup(kids, pos, k);
    if only.HashNode? {
      if only.hash in db {
        ResolveSpec(db, only, gen);
        var c := Resolve(db, only.hash, gen).value;
        JoinedSpec(p, Denotes(c), k);
        if c.ShortNode? { SoundJoined(p, c, gen, db.Keys); } else { SoundShort(ShortNode(p, only, NewFlag(gen)), db.Keys); }
      } else {
        assert !Loadable(kids[pos], db.Keys);
      }
    } else {
      JoinedSpec(p, Denotes(only), k);
      SoundJoined(p, only, gen, db.Keys);
    }
  }

  lemma ReduceValue(db: Store, gen: Uint16, kids: seq<Node>, k: Hex)
    requires Loose(kids, db.Keys) && OnlyKid(kids) == 16
    ensures Reduced(db, kids, Reduce(db, gen, kids), k)
  {
    hide Good, DirtyUp, CachedUp, Filled, Kept, Decoded, Encode, Lookup, Branch;
    OnlyLookup(kids, 16, k);
    AtShort([16], Denotes(kids[16]), k);
    ShortBranch([16], Denotes(kids[16]));
    SoundShort(ShortNode([16], kids[16], NewFlag(gen)), db.Keys);
  }

  lemma KidsBranch(kids: seq<Node>, s: set<Hash>)
    requires Loose(kids, s)
    requires exists i, j :: 0 <= i < j < 17 && !kids[i].Nil? && !kids[j].Nil?
    ensures Branch(Kids(kids))
  {
    hide Good, DirtyUp, CachedUp, Filled, Kept, Decoded, Encode, Lookup;
    var t := Kids(kids);
    assert forall i | 0 <= i < 17 :: t.kids[i] == Denotes(kids[i]);
    var i, j :| 0 <= i < j < 17 && !kids[i].Nil? && !kids[j].Nil?;
    assert !t.kids[i].Empty? && !t.kids[j].Empty?;
  }

  lemma ReduceSpec(db: Store, gen: Uint16, kids: seq<Node>, k: Hex)
    requires Addressed(db) && Loose(kids, db.Keys)
    ensures Reduced(db, kids, Reduce(db, gen, kids), k)
  {
    hide Good, DirtyUp, CachedUp, Filled, Kept, Decoded, Encode, Lookup, Branch;
    var pos := OnlyKid(kids);
    if 0 <= pos < 16 {
      ReduceOne(db, gen, kids, pos, k);
    } else if pos == 16 {
      ReduceValue(db, gen, kids, k);
    } else {
      KidsBranch(kids, db.Keys);
      SoundFull(FullNode(kids, NewFlag(gen)), db.Keys);
    }
  }

  lemma LooseKids(n: Node, s: set<Hash>) returns (x: nat, y: nat)
    requires n.FullNode? && Sound(n, s) && Branch(Denotes(n))
    ensures |n.kids| == 17 && Loose(n.kids, s)
    ensures x < y < 17 && !n.kids[x].Nil? && !n.kids[y].Nil?
  {
    var t := Denotes(n);
    forall k | 0 <= k < 17
      ensures Sound(n.kids[k], s) && Sized(n.kids[k]) && (n.kids[k].Nil? || Fits(Denotes(n.kids[k]), k))
    {
      SoundKid(n, s, k);
    }
    x, y :| 0 <= x < y < 17 && !t.kids[x].Empty? && !t.kids[y].Empty?;
    SoundKid(n, s, x);
    SoundKid(n, s, y);
  }

  lemma LooseUpdate(n: Node, i: Nibble, c: Node, s: set<Hash>)
    requires n.FullNode? && Sound(n, s) && Branch(Denotes(n)) && |n.kids| == 17
    requires Sound(c, s) && Sized(c) && (c.Nil? || Fits(Denotes(c), i))
    ensures Loose(n.kids[i := c], s)
    ensures Kids(n.kids[i := c]) == Full(Denotes(n).kids[i := Denotes(c)])
  {
    hide Good, DirtyUp, CachedUp, Filled, Kept, Decoded, Encode, Branch, Lookup, Denotes;
    var x, y := LooseKids(n, s);
    assert !n.kids[i := c][if x == i then y else x].Nil?;
    DenotesUpdate(n, i, c, NewFlag(0));
  }

  lemma NilIfEmpty(n: Node)
    requires Good(n) && Denotes(n).Empty?
    ensures n.Nil?
  {
  }

  lemma MapDeletedFull(t: Tree, key: Hex, c: Tree, r: Tree, k: Hex)
    requires t.Full? && Branch(t) && |t.kids| == 17 && key != []
    requires forall y: Hex :: MapDeleted(t.kids[key[0]], key[1..], true, c, y)
    requires Branch(r) && Lookup(r, k) == Lookup(Full(t.kids[key[0] := c]), k)
    ensures MapDeleted(t, key, true, r, k)
  {
    hide Lookup, Branch;
    var i := key[0];
    assert MapDeleted(t.kids[i], key[1..], true, c, key[1..]);
    AtFull(t, key);
    AtFull(t, k);
    AtFull(Full(t.kids[i := c]), k);
    if k != [] {
      assert MapDeleted(t.kids[i], key[1..], true, c, k[1..]);
      SuffixStep(key, 0, k);
      assert key[0..] == key;
    }
  }

  lemma ReplacedKid(n: Node, i: Nibble, c: Node, key: Hex, s: set<Hash>)
    requires n.FullNode? && |n.kids| == 17 && Sound(n, s) && key != [] && i == key[0] && Slot(Denotes(n), key)
    requires Replaces(c, n.kids[i], s)
    requires if key[1..] == [] then Denotes(c).Empty? else Canonical(Denotes(c))
    ensures Loose(n.kids[i := c], s)
    ensures Kids(n.kids[i := c]) == Full(Denotes(n).kids[i := Denotes(c)])
  {
    hide Good, DirtyUp, CachedUp, Filled, Kept, Decoded, Encode, Branch, Lookup, Denotes, Loadable;
    SoundKid(n, s, i);
    SlotFull(Denotes(n), key);
    if Denotes(c).Empty? { NilIfEmpty(c); }
    LooseUpdate(n, i, c, s);
  }

  lemma ReducedLoads(db: Store, n: Node, i: Nibble, c: Node)
    requires n.FullNode? && |n.kids| == 17
    requires Loadable(n.kids[i], db.Keys) ==> Loadable(c, db.Keys)
    ensures var kids := n.kids[i := c]; Loadable(n, db.Keys) ==> forall j | 0 <= j < 17 :: Loadable(kids[j], db.Keys)
  {
  }

  lemma DeletedFull(db: Store, gen: Uint16, n: Node, key: Hex, out: Outcome, k: Hex)
    requires n.FullNode? && Usable(db, n, key) && Sound(n, db.Keys) && key != [] && |n.kids| == 17
    requires forall y: Hex :: Deleted(db, n.kids[key[0]], key[1..], out, y)
    ensures Deleted(db, n, key, MergeFull(db, n, key[0], out, gen), k)
  {
    hide Good, DirtyUp, CachedUp, Filled, Kept, Decoded, Encode, Branch, Reduce, Lookup, Denotes, Loadable;
    var i, t := key[0], Denotes(n);
    SoundKid(n, db.Keys, i);
    assert Deleted(db, n.kids[i], key[1..], out, key[1..]);
    AtFull(t, key);
    if out.Missing? {
      NotLoadableKid(n, i, db.Keys);
    } else if out.dirty {
      var c := out.node;
      ReplacedKid(n, i, c, key, db.Keys);
      ReduceSpec(db, gen, n.kids[i := c], k);
      ReducedLoads(db, n, i, c);
      var r := Reduce(db, gen, n.kids[i := c]);
      if r.Done? {
        forall y: Hex ensures MapDeleted(t.kids[key[0]], key[1..], true, Denotes(c), y) {
          assert Deleted(db, n.kids[i], key[1..], out, y);
        }
        MapDeletedFull(t, key, Denotes(c), Denotes(r.node), k);
      }
    }
  }

  lemma MapDeletedShort(t: Tree, key: Hex, c: Tree, k: Hex)
    requires t.Short? && Branch(t) && Slot(t, key) && t.key <= key && |t.key| < |key|
    requires forall y: Hex :: MapDeleted(t.child, key[|t.key|..], true, c, y)
    ensures Plain(t.key) && t.key != [] && Branch(c)
    ensures MapDeleted(t, key, true, Joined(t.key, c), k)
  {
    hide Lookup, Branch, Joined;
    var m := |t.key|;
    SlotShort(t, key);
    BranchShort(t);
    assert MapDeleted(t.child, key[m..], true, c, key[m..]);
    JoinedSpec(t.key, c, k);
    AtShort(t.key, t.child, k);
    AtShort(t.key, t.child, key);
    PrefixStep(key, m, k);
    assert key[..m] == t.key;
    if t.key <= k { assert MapDeleted(t.child, key[m..], true, c, k[m..]); }
  }

  lemma DeletedShort(db: Store, gen: Uint16, n: Node, key: Hex, out: Outcome, k: Hex)
    requires n.ShortNode? && Usable(db, n, key) && Sound(n, db.Keys) && n.key <= key && |n.key| < |key|
    requires forall y: Hex :: Deleted(db, n.val, key[|n.key|..], out, y)
    ensures Deleted(db, n, key, MergeShort(n, out, gen), k)
  {
    hide Good, DirtyUp, CachedUp, Filled, Kept, Decoded, Encode, Branch, Lookup, Joined;
    var m, t := |n.key|, Denotes(n);
    SoundVal(n, db.Keys);
    assert Deleted(db, n.val, key[m..], out, key[m..]);
    AtShort(t.key, t.child, key);
    if out.Done? && out.dirty {
      var c := out.node;
      forall y: Hex ensures MapDeleted(t.child, key[|t.key|..], true, Denotes(c), y) {
        assert Deleted(db, n.val, key[m..], out, y);
      }
      MapDeletedShort(t, key, Denotes(c), k);
      SoundJoined(n.key, c, gen, db.Keys);
    }
  }

  lemma DeletedHash(db: Store, n: Node, r: Node, key: Hex, out: Outcome, k: Hex)
    requires Denotes(r) == Denotes(n) && (Sized(n) ==> Sized(r)) && (Loadable(n, db.Keys) ==> Loadable(r, db.Keys))
    requires Deleted(db, r, key, out, k)
    ensures Deleted(db, n, key, out, k)
  {
    hide Denotes, Good, DirtyUp, CachedUp, Filled, Kept, Loadable;
  }

  lemma DeletedWhole(db: Store, n: Node, k: Hex)
    requires n.ShortNode? && Usable(db, n, n.key) && Sound(n, db.Keys)
    ensures Deleted(db, n, n.key, Done(true, Nil), k)
  {
    SlotShort(Denotes(n), n.key);
    assert n.key[|n.key|..] == [];
    AtShort(n.key, Denotes(n.val), k);
  }

  lemma DeletedNone(db: Store, n: Node, key: Hex, k: Hex)
    requires Usable(db, n, key) && Sound(n, db.Keys) && Lookup(Denotes(n), key) == None
    ensures Deleted(db, n, key, Done(false, n), k)
  {
    hide Denotes, DirtyUp, CachedUp, Filled, Kept;
  }

  /**
   delete removes exactly one key from the map, reports a change exactly when the
   key was there, restores canonical form and keeps the caches sound, and fails
   only on a missing node.
   */
  lemma {:induction false} DeleteSpec(db: Store, gen: Uint16, n: Node, key: Hex, k: Hex)
    requires Usable(db, n, key) && Sound(n, db.Keys)
    ensures Deleted(db, n, key, Delete(db, gen, n, key), k)
    decreases |key|, if n.HashNode? then 1 else 0
  {
    hide Good, DirtyUp, CachedUp, Filled, Kept, Decoded, Encode, Branch, Reduce, MergeShort, MergeFull, Deleted;
    match n
    case Nil => DeletedNone(db, n, key, k);
    case Value(v) => DeletedValue(db, n, key, k);
    case ShortNode(key', c, _) =>
      CommonPrefix(key, key');
      SoundVal(n, db.Keys);
      if !(key' <= key) {
        DeletedNone(db, n, key, k);
      } else if |key'| == |key| {
        assert key' == key;
        DeletedWhole(db, n, k);
      } else {
        UsableShort(db, n, key);
        var m := |key'|;
        forall y: Hex ensures Deleted(db, c, key[m..], Delete(db, gen, c, key[m..]), y) {
          DeleteSpec(db, gen, c, key[m..], y);
        }
        DeletedShort(db, gen, n, key, Delete(db, gen, c, key[m..]), k);
      }
    case FullNode(kids, _) =>
      UsableFull(db, n, key);
      SoundKid(n, db.Keys, key[0]);
      forall y: Hex ensures Deleted(db, kids[key[0]], key[1..], Delete(db, gen, kids[key[0]], key[1..]), y) {
        DeleteSpec(db, gen, kids[key[0]], key[1..], y);
      }
      DeletedFull(db, gen, n, key, Delete(db, gen, kids[key[0]], key[1..]), k);
    case HashNode(h) =>
      if h in db {
        UsableHash(db, n, key, gen);
        ResolveSpec(db, n, gen);
        var r := Resolve(db, h, gen).value;
        DeleteSpec(db, gen, r, key, k);
        DeletedHash(db, n, r, key, Delete(db, gen, r, key), k);
      } else {
        DeletedMissing(db, n, key, k);
      }
  }

  lemma DeletedValue(db: Store, n: Node, key: Hex, k: Hex)
    requires Usable(db, n, key) && Sound(n, db.Keys) && n.Value?
    ensures Deleted(db, n, key, Done(true, Nil), k)
  {
  }

  lemma DeletedMissing(db: Store, n: Node, key: Hex, k: Hex)
    requires n.HashNode? && n.hash !in db
    ensures Deleted(db, n, key, Missing(n.hash), k)
  {
  }
}
