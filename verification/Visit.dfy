/**
 The nodes of a trie in the order in which an iterator meets them, and that order
 is the lexicographic one of their paths.
 */
module Visits {
  import opened Rlp
  import opened Encoding
  import opened Trees

  // ---------- the order of paths ----------

  /** Lexicographic comparison: -1, 0 or 1. */
  function Compare(a: seq<int>, b: seq<int>): int {
    if a == [] then if b == [] then 0 else -1
    else if b == [] then 1
    else if a[0] < b[0] then -1
    else if a[0] > b[0] then 1
    else Compare(a[1..], b[1..])
  }

  lemma {:induction false} CompareSame(a: seq<int>, b: seq<int>)
    ensures Compare(a, b) == 0 <==> a == b
    ensures Compare(a, b) == -Compare(b, a) && -1 <= Compare(a, b) <= 1
  {
    if a != [] && b != [] {
      CompareSame(a[1..], b[1..]);
      assert a == [a[0]] + a[1..] && b == [b[0]] + b[1..];
    }
  }

  lemma {:induction false} CompareTrans(a: seq<int>, b: seq<int>, c: seq<int>)
    requires Compare(a, b) < 0 && Compare(b, c) <= 0
    ensures Compare(a, c) < 0
  {
    if a != [] && b != [] && c != [] && a[0] == b[0] == c[0] { CompareTrans(a[1..], b[1..], c[1..]); }
  }

  /** Two nibbles compare like the byte they make up. */
  lemma ByteStep(x: Byte, y: Byte, a: Hex, b: Hex)
    ensures Compare([x / 16, x % 16] + a, [y / 16, y % 16] + b) == if x < y then -1 else if x > y then 1 else Compare(a, b)
  {
    var p, q := [x / 16, x % 16] + a, [y / 16, y % 16] + b;
    assert p[1..] == [x % 16] + a && q[1..] == [y % 16] + b;
    assert p[1..][1..] == a && q[1..][1..] == b;
    assert Compare(p[1..], q[1..]) == if x % 16 < y % 16 then -1 else if x % 16 > y % 16 then 1 else Compare(a, b);
  }

  /** The order in which keys are visited: an extension comes before its prefix, and otherwise the bytes decide. */
  predicate Precedes(a: Bytes, b: Bytes) {
    a != b && (b <= a || (!(a <= b) && Compare(a, b) < 0))
  }

  lemma {:induction false} KeyOrder(a: Bytes, b: Bytes)
    ensures Compare(KeyHex(a), KeyHex(b)) < 0 <==> Precedes(a, b)
  {
    if a != [] && b != [] {
      KeyOrder(a[1..], b[1..]);
      assert KeyHex(a) == [a[0] / 16, a[0] % 16] + KeyHex(a[1..]) && KeyHex(b) == [b[0] / 16, b[0] % 16] + KeyHex(b[1..]);
      ByteStep(a[0], b[0], KeyHex(a[1..]), KeyHex(b[1..]));
      assert a == [a[0]] + a[1..] && b == [b[0]] + b[1..];
    }
  }

  /** A key comes at or after a start key that has no terminator exactly if it is a prefix of it or not below it. */
  lemma {:induction false} StartOrder(k: Bytes, start: Bytes)
    ensures Compare(KeyHex(k), Unpack(start)) >= 0 <==> k <= start || Compare(k, start) >= 0
  {
    if k != [] && start != [] {
      StartOrder(k[1..], start[1..]);
      assert KeyHex(k) == [k[0] / 16, k[0] % 16] + KeyHex(k[1..]);
      ByteStep(k[0], start[0], KeyHex(k[1..]), Unpack(start[1..]));
      assert k == [k[0]] + k[1..] && start == [start[0]] + start[1..];
    }
  }

  lemma {:induction false} CompareJoin(p: Hex, a: Hex, b: Hex)
    ensures Compare(p + a, p + b) == Compare(a, b)
  {
    if p == [] {
      assert p + a == a && p + b == b;
    } else {
      CompareJoin(p[1..], a, b);
      assert (p + a)[1..] == p[1..] + a && (p + b)[1..] == p[1..] + b;
    }
  }

  /** A path comes before its extensions. */
  lemma PrefixFirst(a: Hex, b: Hex)
    requires a <= b
    ensures if a == b then Compare(a, b) == 0 else Compare(a, b) < 0
  {
    CompareJoin(a, [], b[|a|..]);
    assert a + [] == a && a + b[|a|..] == b;
  }

  /** A path that comes before another without being its prefix takes its extensions along. */
  lemma {:induction false} ExtensionsBefore(a: Hex, b: Hex, x: Hex)
    requires Compare(a, b) < 0 && !(a <= b) && a <= x
    ensures Compare(x, b) < 0
  {
    if a != [] && a[0] == b[0] {
      assert a[1..] <= x[1..];
      ExtensionsBefore(a[1..], b[1..], x[1..]);
    }
  }

  lemma ForkBefore(p: Hex, i: Nibble, j: Nibble, a: Hex, b: Hex)
    requires i < j && p + [i] <= a && p + [j] <= b
    ensures Compare(a, b) < 0
  {
    var x, y := a[|p|..], b[|p|..];
    assert a == p + x && b == p + y;
    assert x[0] == a[|p|] == (p + [i])[|p|] && y[0] == b[|p|] == (p + [j])[|p|];
    CompareJoin(p, x, y);
  }

  // ---------- visits ----------

  /** A node and the path to it. */
  datatype Visit = Visit(path: Hex, tree: Tree)

  /** A node before its children, and those in the order of their nibbles. */
  function PreOrder(t: Tree, path: Hex): seq<Visit>
    decreases t, 1
  {
    [Visit(path, t)] + Children(t, path)
  }

  function Children(t: Tree, path: Hex): seq<Visit>
    decreases t, 0
  {
    match t
    case Short(k, c) => PreOrder(c, path + k)
    case Full(kids) => if |kids| <= 17 then Kids(kids, 0, path) else []
    case _ => []
  }

  function Kids(kids: seq<Tree>, i: nat, path: Hex): seq<Visit>
    requires |kids| <= 17
    decreases kids, |kids| - i
  {
    if i >= |kids| then [] else (if kids[i].Empty? then [] else PreOrder(kids[i], path + [i])) + Kids(kids, i + 1, path)
  }

  ghost predicate Sorted(vs: seq<Visit>) {
    forall i, j | 0 <= i < j < |vs| :: Compare(vs[i].path, vs[j].path) < 0
  }

  lemma SortedJoin(a: seq<Visit>, b: seq<Visit>)
    requires Sorted(a) && Sorted(b) && forall x, y | x in a && y in b :: Compare(x.path, y.path) < 0
    ensures Sorted(a + b)
  {
    var ab := a + b;
    forall i, j | 0 <= i < j < |ab| ensures Compare(ab[i].path, ab[j].path) < 0 {
      if i < |a| <= j { assert ab[i] in a && ab[j] in b; }
    }
  }

  /** A visit below a child from the given index on. */
  ghost predicate Branches(v: Visit, path: Hex, i: nat) {
    exists j: Nibble :: i <= j && path + [j] <= v.path
  }

  lemma {:induction false} UnderPath(t: Tree, path: Hex, v: Visit)
    requires v in PreOrder(t, path)
    ensures path <= v.path
    ensures v in Children(t, path) && (t.Short? ==> t.key != []) ==> path < v.path
    decreases t, 1
  {
    if v in Children(t, path) {
      match t
      case Short(k, c) => UnderPath(c, path + k, v);
      case Full(kids) => UnderKids(kids, 0, path, v);
    }
  }

  lemma {:induction false} UnderKids(kids: seq<Tree>, i: nat, path: Hex, v: Visit)
    requires |kids| <= 17 && v in Kids(kids, i, path)
    ensures Branches(v, path, i) && path < v.path
    decreases kids, |kids| - i
  {
    if !kids[i].Empty? && v in PreOrder(kids[i], path + [i]) {
      UnderPath(kids[i], path + [i], v);
    } else {
      UnderKids(kids, i + 1, path, v);
    }
  }

  /** Iteration order is path order. */
  lemma {:induction false} PreOrderSorted(t: Tree, path: Hex)
    requires Part(t)
    ensures Sorted(PreOrder(t, path))
    decreases t, 1
  {
    hide Branch;
    var below := Children(t, path);
    assert Sorted(below) by {
      match t
      case Short(k, c) =>
        BranchShort(t);
        PreOrderSorted(c, path + k);
      case Full(kids) =>
        FullParts(t);
        KidsSorted(kids, 0, path);
      case _ =>
    }
    forall x, y | x in [Visit(path, t)] && y in below ensures Compare(x.path, y.path) < 0 {
      if t.Short? { BranchShort(t); }
      UnderPath(t, path, y);
      PrefixFirst(path, y.path);
    }
    SortedJoin([Visit(path, t)], below);
  }

  lemma FullParts(t: Tree)
    requires t.Full? && Part(t)
    ensures |t.kids| == 17 && forall i | 0 <= i < 17 :: Part(t.kids[i])
  {
  }

  lemma {:induction false} KidsSorted(kids: seq<Tree>, i: nat, path: Hex)
    requires |kids| == 17 && forall j | 0 <= j < 17 :: Part(kids[j])
    ensures Sorted(Kids(kids, i, path))
    decreases kids, 17 - i
  {
    hide Branch;
    if i < 17 {
      KidsSorted(kids, i + 1, path);
      if !kids[i].Empty? {
        PreOrderSorted(kids[i], path + [i]);
        forall x, y | x in PreOrder(kids[i], path + [i]) && y in Kids(kids, i + 1, path) ensures Compare(x.path, y.path) < 0 {
          UnderPath(kids[i], path + [i], x);
          UnderKids(kids, i + 1, path, y);
          var j: Nibble :| i + 1 <= j && path + [j] <= y.path;
          ForkBefore(path, i, j, x.path, y.path);
        }
        SortedJoin(PreOrder(kids[i], path + [i]), Kids(kids, i + 1, path));
      }
    }
  }

  // ---------- visits and the map ----------

  /** What a visit says about the tree: below its path the tree is the visited one. */
  ghost predicate Shows(t: Tree, path: Hex, v: Visit) {
    && path <= v.path && Part(v.tree)
    && forall q: Hex :: Lookup(t, v.path[|path|..] + q) == Lookup(v.tree, q)
  }

  lemma {:induction false} VisitShows(t: Tree, path: Hex, v: Visit)
    requires Part(t) && v in PreOrder(t, path)
    ensures Shows(t, path, v)
    decreases t, 1
  {
    hide Branch;
    UnderPath(t, path, v);
    if v == Visit(path, t) {
      forall q: Hex ensures Lookup(t, v.path[|path|..] + q) == Lookup(t, q) { assert v.path[|path|..] + q == q; }
    } else {
      match t
      case Short(k, c) =>
        BranchShort(t);
        VisitShows(c, path + k, v);
        ShowsShort(t, path, v);
      case Full(kids) =>
        FullParts(t);
        KidShows(t, 0, path, v);
    }
  }

  lemma ShowsShort(t: Tree, path: Hex, v: Visit)
    requires t.Short? && Shows(t.child, path + t.key, v)
    ensures Shows(t, path, v)
  {
    hide Branch;
    var k := t.key;
    var rest := v.path[|path + k|..];
    assert v.path[|path|..] == k + rest;
    forall q: Hex ensures Lookup(t, v.path[|path|..] + q) == Lookup(v.tree, q) {
      assert k + rest + q == k + (rest + q);
      assert (k + (rest + q))[|k|..] == rest + q;
      assert Lookup(t.child, rest + q) == Lookup(v.tree, q);
    }
  }

  lemma {:induction false} KidShows(t: Tree, i: nat, path: Hex, v: Visit)
    requires t.Full? && |t.kids| == 17 && (forall j | 0 <= j < 17 :: Part(t.kids[j])) && v in Kids(t.kids, i, path)
    ensures Shows(t, path, v)
    decreases t, 0, 17 - i
  {
    hide Branch;
    if !t.kids[i].Empty? && v in PreOrder(t.kids[i], path + [i]) {
      VisitShows(t.kids[i], path + [i], v);
      ShowsFull(t, i, path, v);
    } else {
      KidShows(t, i + 1, path, v);
    }
  }

  lemma ShowsFull(t: Tree, i: Nibble, path: Hex, v: Visit)
    requires t.Full? && |t.kids| == 17 && Shows(t.kids[i], path + [i], v)
    ensures Shows(t, path, v)
  {
    hide Branch;
    var rest := v.path[|path| + 1..];
    assert v.path[|path|..] == [i] + rest;
    forall q: Hex ensures Lookup(t, v.path[|path|..] + q) == Lookup(v.tree, q) {
      assert [i] + rest + q == [i] + (rest + q);
      assert ([i] + (rest + q))[1..] == rest + q;
      assert Lookup(t.kids[i], rest + q) == Lookup(v.tree, q);
    }
  }

  /** Exactly the paths of leaves end in the terminator. */
  lemma {:induction false} VisitEnds(t: Tree, path: Hex, v: Visit)
    requires Part(t) && v in PreOrder(t, path) && (HasTerm(path) <==> t.Leaf?)
    ensures HasTerm(v.path) <==> v.tree.Leaf?
    decreases t, 1
  {
    hide Branch;
    if v != Visit(path, t) {
      match t
      case Short(k, c) =>
        BranchShort(t);
        VisitEnds(c, path + k, v);
      case Full(kids) =>
        KidEnds(t, 0, path, v);
    }
  }

  lemma {:induction false} KidEnds(t: Tree, i: nat, path: Hex, v: Visit)
    requires t.Full? && Branch(t) && v in Kids(t.kids, i, path)
    ensures HasTerm(v.path) <==> v.tree.Leaf?
    decreases t, 0, 17 - i
  {
    if !t.kids[i].Empty? && v in PreOrder(t.kids[i], path + [i]) {
      VisitEnds(t.kids[i], path + [i], v);
    } else {
      KidEnds(t, i + 1, path, v);
    }
  }

  /** Only the empty tree has an empty node. */
  lemma {:induction false} VisitPart(t: Tree, path: Hex, v: Visit)
    requires Part(t) && v in PreOrder(t, path)
    ensures Part(v.tree) && (v.tree.Empty? ==> v == Visit(path, t))
    decreases t, 1
  {
    hide Branch;
    if v != Visit(path, t) {
      match t
      case Short(k, c) =>
        BranchShort(t);
        VisitPart(c, path + k, v);
      case Full(kids) =>
        KidPart(t, 0, path, v);
    }
  }

  lemma {:induction false} KidPart(t: Tree, i: nat, path: Hex, v: Visit)
    requires t.Full? && Branch(t) && v in Kids(t.kids, i, path)
    ensures Part(v.tree) && !v.tree.Empty?
    decreases t, 0, 17 - i
  {
    if !t.kids[i].Empty? && v in PreOrder(t.kids[i], path + [i]) {
      VisitPart(t.kids[i], path + [i], v);
    } else {
      KidPart(t, i + 1, path, v);
    }
  }

  /** Every entry of the map is visited. */
  lemma {:induction false} EntryVisited(t: Tree, path: Hex, k: Hex)
    requires Part(t) && Lookup(t, k).Some?
    ensures Visit(path + k, Leaf(Lookup(t, k).value)) in PreOrder(t, path)
    decreases t, 1
  {
    hide Branch;
    match t
    case Leaf(_) => assert path + k == path;
    case Short(p, c) =>
      BranchShort(t);
      EntryVisited(c, path + p, k[|p|..]);
      assert path + p + k[|p|..] == path + k;
    case Full(kids) =>
      FullParts(t);
      EntryVisited(kids[k[0]], path + [k[0]], k[1..]);
      assert path + [k[0]] + k[1..] == path + k;
      KidVisited(kids, 0, path, k[0], Visit(path + k, Leaf(Lookup(t, k).value)));
  }

  lemma {:induction false} KidVisited(kids: seq<Tree>, i: nat, path: Hex, j: Nibble, v: Visit)
    requires |kids| == 17 && i <= j && !kids[j].Empty? && v in PreOrder(kids[j], path + [j])
    ensures v in Kids(kids, i, path)
    decreases 17 - i
  {
    if i < j { KidVisited(kids, i + 1, path, j, v); }
  }
}
