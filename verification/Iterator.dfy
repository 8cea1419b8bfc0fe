/**
 Iterators over a trie: the node iterator, which keeps a stack of nodes and loads
 what is missing as it goes, and the key/value iterator on top of it.
 */
module Iterators {
  import opened Rlp
  import opened Encoding
  import opened Trees
  import opened Nodes
  import opened History
  import opened Databases
  import opened Hashers
  import opened Tries
  import V = Visits
  import Ops

  type Visit = V.Visit

  /** The state of the iteration at one node: the child reached last, and the length of the parent's path. */
  datatype Frame = Frame(hash: Hash, node: Node, parent: Hash, index: int, pathlen: nat)

  // ---------- what a stack has still to visit ----------

  /** The visits below a tree after its child with the given index. */
  function After(t: Tree, index: int, path: Hex): seq<Visit> {
    match t
    case Short(k, c) => if index < 0 then V.PreOrder(c, path + k) else []
    case Full(kids) => if index < -1 || |kids| > 17 then [] else V.Kids(kids, index + 1, path)
    case _ => []
  }

  ghost function Upcoming(stack: seq<Frame>, path: Hex): seq<Visit> {
    if stack == [] then []
    else
      var top := stack[|stack| - 1];
      After(Denotes(top.node), top.index, path)
      + if top.pathlen <= |path| then Upcoming(stack[..|stack| - 1], path[..top.pathlen]) else []
  }

  /** The hash under which a subtree is stored: none for a value and for what is embedded in its parent. The root has one. */
  ghost function HashOf(t: Tree, root: bool): Hash {
    if Branch(t) && (root || Size(Encode(t)) >= 32) then Of(Encode(t)) else Zero
  }

  ghost predicate FrameOk(f: Frame, root: bool) {
    && Good(f.node) && Filled(f.node) && !f.node.HashNode? && f.hash == HashOf(Denotes(f.node), root) && f.index >= -1
  }

  /** From a tree one of its children is reached over a piece of path. */
  ghost predicate Steps(t: Tree, piece: Hex, c: Tree) {
    || (t.Short? && piece == t.key && c == t.child)
    || (t.Full? && |piece| == 1 && piece[0] < |t.kids| && c == t.kids[piece[0]])
  }

  /** The hash of the nearest ancestor that has one. */
  function Ancestor(stack: seq<Frame>): Hash {
    if stack == [] then Zero
    else
      var top := stack[|stack| - 1];
      if top.hash != Zero then top.hash else top.parent
  }

  ghost predicate StackOk(stack: seq<Frame>, path: Hex) {
    if stack == [] then path == []
    else
      var top := stack[|stack| - 1];
      && FrameOk(top, |stack| == 1) && top.pathlen <= |path| && top.parent == Ancestor(stack[..|stack| - 1])
      && (if |stack| == 1 then path == [] else Steps(Denotes(stack[|stack| - 2].node), path[top.pathlen..], Denotes(top.node)))
      && StackOk(stack[..|stack| - 1], path[..top.pathlen])
  }

  ghost predicate AllLoadable(stack: seq<Frame>, s: set<Hash>) {
    forall i | 0 <= i < |stack| :: Loadable(stack[i].node, s)
  }

  function Popped(stack: seq<Frame>): seq<Frame>
    requires stack != []
  {
    stack[..|stack| - 1]
  }

  function Top(stack: seq<Frame>): Frame
    requires stack != []
  {
    stack[|stack| - 1]
  }

  /** push: the parent, if any, has reached one more child. */
  function Pushed(stack: seq<Frame>, f: Frame, child: bool): seq<Frame> {
    if child && stack != [] then Popped(stack) + [Top(stack).(index := Top(stack).index + 1), f] else stack + [f]
  }

  datatype Peeked = Found(frame: Frame, path: Hex, child: bool) | Ended | Absent

  /** The next visit is found, and pushing it leaves the rest. */
  ghost predicate Leads(p: Peeked, stack: seq<Frame>, ahead: seq<Visit>) {
    && p.Found? && ahead != [] && ahead[0] == V.Visit(p.path, Denotes(p.frame.node)) && p.frame.index == -1
    && StackOk(Pushed(stack, p.frame, p.child), p.path)
    && Upcoming(Pushed(stack, p.frame, p.child), p.path) == ahead[1..]
  }

  lemma UpcomingPopped(stack: seq<Frame>, path: Hex)
    requires stack != [] && StackOk(stack, path)
    ensures var top := Top(stack);
            && top.pathlen <= |path| && StackOk(Popped(stack), path[..top.pathlen]) && FrameOk(top, |stack| == 1)
            && Upcoming(stack, path) == After(Denotes(top.node), top.index, path) + Upcoming(Popped(stack), path[..top.pathlen])
  {
  }

  // ---------- the next child ----------

  /** The visits of a node's remaining children start with the child c, and go on with those after index. */
  ghost predicate FirstChild(t: Tree, index: int, path: Hex, c: Tree, below: Hex, next: int) {
    && Part(c) && path <= below && Steps(t, below[|path|..], c)
    && After(t, index, path) == V.PreOrder(c, below) + After(t, next, path)
  }

  lemma ShortChild(f: Frame, path: Hex)
    requires Good(f.node) && f.node.ShortNode? && f.index < 0
    ensures Good(f.node.val) && FirstChild(Denotes(f.node), f.index, path, Denotes(f.node.val), path + f.node.key, 0)
  {
    hide Encode, Branch;
  }

  lemma FullChild(f: Frame, path: Hex, i: Nibble)
    requires Good(f.node) && f.index >= -1 && f.node.FullNode? && f.index < i && i < |f.node.kids| && f.node.kids[i] != Nil
    requires forall j | f.index < j < i :: f.node.kids[j] == Nil
    ensures Good(f.node.kids[i])
    ensures FirstChild(Denotes(f.node), f.index, path, Denotes(f.node.kids[i]), path + [i], i)
    ensures After(Denotes(f.node), f.index, path) == After(Denotes(f.node), i - 1, path)
  {
    hide Encode, Branch;
    FullKids(f.node);
    SkipNil(f.node, f.index + 1, i, path);
    KidThere(f.node.kids[i]);
  }

  lemma FullKids(n: Node)
    requires n.FullNode? && Good(n)
    ensures |n.kids| == 17 && Denotes(n).Full? && |Denotes(n).kids| == 17
    ensures forall i | 0 <= i < 17 :: Denotes(n).kids[i] == Denotes(n.kids[i]) && Good(n.kids[i])
  {
  }

  lemma KidThere(n: Node)
    requires Good(n)
    ensures n == Nil <==> Denotes(n).Empty?
  {
  }

  lemma {:induction false} SkipNil(n: Node, i: nat, j: nat, path: Hex)
    requires n.FullNode? && Good(n) && i <= j <= |n.kids| && |Denotes(n).kids| == 17 && |n.kids| == 17
    requires forall k | i <= k < j :: n.kids[k] == Nil
    ensures V.Kids(Denotes(n).kids, i, path) == V.Kids(Denotes(n).kids, j, path)
    decreases j - i
  {
    if i < j {
      FullKids(n);
      KidThere(n.kids[i]);
      SkipNil(n, i + 1, j, path);
    }
  }

  lemma NoChild(f: Frame, path: Hex)
    requires Good(f.node) && !f.node.HashNode? && f.index >= -1
    requires f.node.ShortNode? ==> f.index >= 0
    requires f.node.FullNode? ==> forall j | f.index < j < |f.node.kids| :: f.node.kids[j] == Nil
    ensures After(Denotes(f.node), f.index, path) == []
  {
    if f.node.FullNode? {
      FullKids(f.node);
      if f.index + 1 <= 17 { SkipNil(f.node, f.index + 1, 17, path); }
    }
  }

  /** The hash that a node carries, if any. */
  function FlagHash(n: Node): Hash {
    match n
    case ShortNode(_, _, f) => f.hash
    case FullNode(_, f) => f.hash
    case _ => Zero
  }

  lemma FlagHashOk(n: Node)
    requires Good(n) && Sized(n) && Filled(n) && !n.HashNode?
    ensures FlagHash(n) == HashOf(Denotes(n), false)
  {
  }

  /** What a frame knows of a child. */
  lemma KidCached(n: Node, c: Node)
    requires Good(n) && Filled(n) && if n.ShortNode? then c == n.val else n.FullNode? && c in n.kids
    ensures Good(c) && Filled(c) && Sized(c)
  {
  }

  // ---------- pushing ----------

  lemma AfterAll(t: Tree, path: Hex)
    ensures V.PreOrder(t, path) == [V.Visit(path, t)] + After(t, -1, path)
  {
  }

  lemma TopIndex(stack: seq<Frame>, path: Hex, index: int)
    requires stack != [] && StackOk(stack, path) && index >= -1
    ensures var s, top := Popped(stack) + [Top(stack).(index := index)], Top(stack);
            && StackOk(s, path)
            && Upcoming(s, path) == After(Denotes(top.node), index, path) + Upcoming(Popped(stack), path[..top.pathlen])
  {
    hide Steps, Denotes, HashOf, After, Ancestor, Good, Filled;
    var s := Popped(stack) + [Top(stack).(index := index)];
    assert s[..|s| - 1] == Popped(stack);
    if |s| > 1 { assert s[|s| - 2] == stack[|s| - 2]; }
  }

  lemma TopAdded(stack: seq<Frame>, path: Hex, f: Frame)
    requires FrameOk(f, stack == []) && f.pathlen <= |path| && StackOk(stack, path[..f.pathlen]) && f.parent == Ancestor(stack)
    requires if stack == [] then path == [] else Steps(Denotes(Top(stack).node), path[f.pathlen..], Denotes(f.node))
    ensures StackOk(stack + [f], path)
    ensures Upcoming(stack + [f], path) == After(Denotes(f.node), f.index, path) + Upcoming(stack, path[..f.pathlen])
  {
    hide Steps, Denotes, FrameOk, After, Ancestor;
    var s := stack + [f];
    assert s[..|stack|] == stack && s[|s| - 1] == f;
    if stack != [] { assert s[|s| - 2] == Top(stack); }
  }

  /** Pushing the first remaining child of the top leaves what comes after it. */
  lemma PushChild(stack: seq<Frame>, path: Hex, f: Frame, below: Hex)
    requires stack != [] && StackOk(stack, path) && FrameOk(f, false)
    requires f.index == -1 && f.pathlen == |path| && f.parent == Ancestor(stack)
    requires FirstChild(Denotes(Top(stack).node), Top(stack).index, path, Denotes(f.node), below, Top(stack).index + 1)
    ensures Leads(Found(f, below, true), stack, Upcoming(stack, path))
  {
    hide FrameOk, After, StackOk, Upcoming, Denotes, V.PreOrder, Steps;
    var top, t, c := Top(stack), Denotes(Top(stack).node), Denotes(f.node);
    PushedStack(stack, path, f, below);
    UpcomingPopped(stack, path);
    AfterAll(c, below);
    var rest := After(t, top.index + 1, path);
    var more := Upcoming(Popped(stack), path[..top.pathlen]);
    assert Upcoming(stack, path) == [V.Visit(below, c)] + (After(c, -1, below) + (rest + more));
  }

  lemma PushedStack(stack: seq<Frame>, path: Hex, f: Frame, below: Hex)
    requires stack != [] && StackOk(stack, path) && FrameOk(f, false) && f.pathlen == |path| && f.parent == Ancestor(stack)
    requires path <= below && Steps(Denotes(Top(stack).node), below[|path|..], Denotes(f.node))
    ensures var top, s := Top(stack), Pushed(stack, f, true);
            && top.pathlen <= |path| && StackOk(s, below)
            && Upcoming(s, below) == After(Denotes(f.node), f.index, below)
                                     + (After(Denotes(top.node), top.index + 1, path)
                                        + Upcoming(Popped(stack), path[..top.pathlen]))
  {
    hide FrameOk, After, StackOk, Upcoming, Denotes, Steps;
    var top := Top(stack);
    TopOk(stack, path);
    var s := Popped(stack) + [top.(index := top.index + 1)];
    TopIndex(stack, path, top.index + 1);
    assert below[..|path|] == path;
    assert Ancestor(s) == Ancestor(stack);
    TopAdded(s, below, f);
    assert Pushed(stack, f, true) == s + [f];
  }

  lemma TopOk(stack: seq<Frame>, path: Hex)
    requires stack != [] && StackOk(stack, path)
    ensures FrameOk(Top(stack), |stack| == 1) && Top(stack).index >= -1 && Top(stack).pathlen <= |path|
    ensures Good(Top(stack).node) && Filled(Top(stack).node) && !Top(stack).node.HashNode?
  {
  }

  lemma EmptyStack()
    ensures StackOk([], [][..0]) && Upcoming([], [][..0]) == []
  {
  }

  lemma PushRoot(f: Frame)
    requires FrameOk(f, true) && f.index == -1 && f.pathlen == 0 && f.parent == Zero
    ensures Leads(Found(f, [], false), [], All(Denotes(f.node)))
  {
    hide FrameOk, After, V.PreOrder, StackOk, Upcoming;
    var t := Denotes(f.node);
    AfterAll(t, []);
    EmptyStack();
    TopAdded([], [], f);
    assert Pushed([], f, false) == [] + [f];
    assert After(t, -1, []) + [] == After(t, -1, []);
  }

  // ---------- position ----------

  /** The end of an iteration, or why it stopped. A failed seek is tried again. */
  datatype Status = Fine | End | SeekFailed(key: Bytes) | Failed

  ghost function All(tree: Tree): seq<Visit> {
    V.PreOrder(tree, [])
  }

  /** What is still to be visited when the next step descends, or does not. */
  ghost function Rest(stack: seq<Frame>, path: Hex, tree: Tree, descend: bool): seq<Visit> {
    if stack == [] then All(tree)
    else if descend || Top(stack).pathlen > |path| then Upcoming(stack, path)
    else Upcoming(Popped(stack), path[..Top(stack).pathlen])
  }

  /** pos visits of the tree are passed. */
  ghost predicate Positioned(stack: seq<Frame>, path: Hex, tree: Tree, pos: nat) {
    && StackOk(stack, path) && (stack != [] ==> Denotes(stack[0].node) == tree)
    && Canonical(tree) && pos <= |All(tree)| && Rest(stack, path, tree, true) == All(tree)[pos..]
  }

  /** Everything passed so far comes before the key. */
  ghost predicate AllBefore(tree: Tree, pos: nat, key: Hex) {
    pos <= |All(tree)| && forall i | 0 <= i < pos :: V.Compare(All(tree)[i].path, key) < 0
  }

  ghost predicate Seeking(stack: seq<Frame>, path: Hex, tree: Tree, pos: nat, key: Hex) {
    Positioned(stack, path, tree, pos) && AllBefore(tree, pos, key) && (stack != [] ==> V.Compare(path, key) < 0)
  }

  /** Exactly the visits from pos on have paths not before the key. */
  ghost predicate AtSeek(tree: Tree, pos: nat, key: Hex) {
    AllBefore(tree, pos, key) && forall i | pos <= i < |All(tree)| :: V.Compare(All(tree)[i].path, key) >= 0
  }

  /** Exactly the visits from pos on are not before a start key: by nibbles for any node, by bytes for the entries. */
  ghost predicate AtKey(tree: Tree, pos: nat, start: Bytes) {
    && pos <= |All(tree)|
    && (forall i | 0 <= i < |All(tree)| :: i >= pos <==> V.Compare(All(tree)[i].path, Unpack(start)) >= 0)
    && (forall i, k: Bytes | 0 <= i < |All(tree)| && All(tree)[i].path == KeyHex(k) ::
          i >= pos <==> k <= start || V.Compare(k, start) >= 0)
  }

  lemma SeekIsKey(tree: Tree, pos: nat, start: Bytes)
    requires AtSeek(tree, pos, Unpack(start))
    ensures AtKey(tree, pos, start)
  {
    hide All, Unpack, V.Compare;
    forall i, k: Bytes | 0 <= i < |All(tree)| && All(tree)[i].path == KeyHex(k)
      ensures i >= pos <==> k <= start || V.Compare(k, start) >= 0
    {
      V.StartOrder(k, start);
    }
  }

  /** A peek at what is to come: either the next visit, with the stack ready for it, or the end. */
  ghost predicate Sees(p: Peeked, stack: seq<Frame>, path: Hex, stack': seq<Frame>, path': Hex, tree: Tree, descend: bool) {
    && StackOk(stack', path') && path' <= path
    && match p
       case Ended => Rest(stack, path, tree, descend) == [] && stack' == [] && stack != []
       case Found(_, _, _) =>
         Leads(p, stack', Rest(stack, path, tree, descend)) && Stays(stack, path, stack', path', tree, descend)
       case Absent => Rest(stack, path, tree, descend) != [] && Stays(stack, path, stack', path', tree, descend)
  }

  ghost predicate Stays(stack: seq<Frame>, path: Hex, stack': seq<Frame>, path': Hex, tree: Tree, descend: bool) {
    && (stack == [] <==> stack' == []) && (stack != [] ==> stack'[0].node == stack[0].node)
    && Rest(stack', path', tree, true) == Rest(stack, path, tree, descend)
  }

  /** A seek that had failed went on to its position, and from there the next step found this to be left. */
  ghost predicate Resumed(tree: Tree, key: Hex, descend: bool, ahead: seq<Visit>, stack: seq<Frame>, path: Hex, pos: nat) {
    && AtSeek(tree, pos, key) && Positioned(stack, path, tree, pos)
    && Rest(stack, path, tree, descend) != [] && ahead == Rest(stack, path, tree, descend)[1..]
  }

  class NodeIterator {
    const trie: Trie
    var stack: seq<Frame>
    var path: Hex
    var err: Status

    /** The tree that is iterated, and how many of its visits are passed. */
    ghost const tree: Tree
    ghost var pos: nat

    /** What is still to be visited when the next step descends, or does not. */
    ghost function Ahead(descend: bool): seq<Visit>
      reads this
    {
      if err == End then [] else Rest(stack, path, tree, descend)
    }

    /** Before the root is visited the trie has not changed. */
    ghost predicate Rooted()
      reads this, trie, trie.db
    {
      trie.Valid() && (stack == [] ==> Denotes(trie.root) == tree)
    }

    ghost predicate Valid()
      reads this, trie, trie.db
    {
      if err == End then trie.Valid() && Canonical(tree) && pos == |All(tree)| && stack == [] && path == []
      else
        && Rooted() && Positioned(stack, path, tree, pos)
        && (err.SeekFailed? ==> Seeking(stack, path, tree, pos, Unpack(err.key)))
    }

    ghost predicate Complete()
      reads this, trie, trie.db
    {
      (stack == [] ==> trie.Complete()) && AllLoadable(stack, Known(trie.db))
    }

    constructor Unmoved(trie: Trie)
      ensures this.trie == trie && stack == [] && path == [] && err == Fine && tree == Denotes(trie.root) && pos == 0
    {
      this.trie, stack, path, err := trie, [], [], Fine;
      tree, pos := Denotes(trie.root), 0;
    }

    /** An iterator before the first node whose path is not before the key, or one that failed to find it. */
    static method New(trie: Trie, start: Bytes) returns (it: NodeIterator)
      requires trie.Valid()
      modifies trie`root
      ensures fresh(it) && it.Valid() && it.trie == trie && it.tree == old(Denotes(trie.root)) && Denotes(trie.root) == it.tree
      ensures trie.Valid() && it.err in {Fine, End, SeekFailed(start)}
      ensures old(trie.Complete()) ==> trie.Complete() && it.err in {Fine, End} && (it.err == Fine ==> it.Complete())
      ensures it.err in {Fine, End} ==> AtSeek(it.tree, it.pos, Unpack(start)) && AtKey(it.tree, it.pos, start)
    {
      hide Trie.Valid, Root, Loadable, Trie.Complete, All, IsRoot, TreeOf, Positioned, Seeking, AtSeek, AtKey, Unpack;
      hide Known, Denotes, Good, HashOf, Encode, Branch, AllLoadable;
      var h := trie.Hash();
      it := new NodeIterator.Unmoved(trie);
      RootFrame(trie);
      Starts(it.tree, Unpack(start));
      NoFrames(Known(trie.db));
      it.err := it.Seek(start);
      if it.err != End { SeekingPlaced(it.stack, it.path, it.tree, it.pos, Unpack(start)); }
      if it.err in {Fine, End} { SeekIsKey(it.tree, it.pos, start); }
    }

    /** Loads the node of a state if it is only a hash. */
    method Resolve(st: Frame, ghost root: bool) returns (r: Option<Frame>)
      requires trie.Valid() && Good(st.node) && Filled(st.node) && (root || Sized(st.node)) && st.index >= -1
      requires !st.node.HashNode? ==> st.hash == HashOf(Denotes(st.node), root)
      ensures r.Some? ==>
                && FrameOk(r.value, root) && r.value == st.(node := r.value.node, hash := r.value.hash)
                && Denotes(r.value.node) == Denotes(st.node)
                && (Loadable(st.node, Known(trie.db)) ==> Loadable(r.value.node, Known(trie.db)))
      ensures r.None? ==> !Loadable(st.node, Known(trie.db))
    {
      hide Database.Valid, Root, Good, Denotes, HashOf, Loadable, Ops.Resolve, Filled;
      if st.node.HashNode? {
        trie.db.ViewAddressed();
        LoadNode(trie.db.View(), st.node, trie.cachegen, root);
        var resolved := trie.db.NodeAt(st.node.hash, trie.cachegen);
        if resolved.None? { return None; }
        return Some(st.(node := resolved.value, hash := st.node.hash));
      }
      r := Some(st);
    }

    /** Finds the next state without moving there; gives up nodes that have no more children. */
    method Peek(descend: bool) returns (p: Peeked)
      requires Rooted() && StackOk(stack, path)
      modifies `stack, `path, trie`root
      ensures trie.Valid() && Denotes(trie.root) == old(Denotes(trie.root))
      ensures Sees(p, old(stack), old(path), stack, path, tree, descend) && (old(trie.Complete()) ==> trie.Complete())
      ensures old(Complete()) ==> !p.Absent? && (p.Found? ==> Complete() && Loadable(p.frame.node, Known(trie.db)))
    {
      hide Trie.Valid, Root, Loadable, StackOk, Upcoming, Leads, FrameOk, Denotes, Known, AllLoadable, Stays;
      hide Trie.Complete, All, Rest;
      if stack == [] {
        PathEmpty(stack, path);
        p := PeekRoot();
      } else {
        p := PeekChild(descend);
      }
    }

    method PeekRoot() returns (p: Peeked)
      requires Rooted() && stack == [] && path == []
      modifies trie`root
      ensures trie.Valid() && Denotes(trie.root) == old(Denotes(trie.root))
      ensures (forall descend :: Sees(p, [], [], [], [], tree, descend)) && (old(trie.Complete()) ==> trie.Complete())
      ensures old(Complete()) ==> !p.Absent? && (p.Found? ==> Complete() && Loadable(p.frame.node, Known(trie.db)))
    {
      hide Trie.Valid, Root, Loadable, StackOk, Upcoming, Leads, FrameOk, Good, Denotes, HashOf, Known, All, IsRoot;
      hide TreeOf, AllLoadable, Sees;
      var root := trie.Hash();
      var state := Frame(if root != EMPTY_ROOT then root else Zero, trie.root, Zero, -1, 0);
      RootFrame(trie);
      var resolved := Resolve(state, true);
      if resolved.None? {
        SeesRoot(Absent, tree);
        return Absent;
      }
      PushRoot(resolved.value);
      p := Found(resolved.value, [], false);
      SeesRoot(p, tree);
    }

    method PeekChild(descend: bool) returns (p: Peeked)
      requires trie.Valid() && StackOk(stack, path) && stack != []
      modifies `stack, `path
      ensures Sees(p, old(stack), old(path), stack, path, tree, descend)
      ensures old(Complete()) ==> !p.Absent? && (p.Found? ==> Complete() && Loadable(p.frame.node, Known(trie.db)))
    {
      hide Trie.Valid, Root, Loadable, StackOk, Upcoming, Leads, FrameOk, Good, Denotes, HashOf, After, FirstChild;
      hide Known, All, Sees, AllLoadable;
      ghost var s0, p0, K := stack, path, Known(trie.db);
      TopOk(stack, path);
      AllPopped(stack, K);
      if !descend {
        // Skipping children: give up the current node first.
        Pop();
      }
      ghost var ahead := Rest(s0, p0, tree, descend);
      while stack != []
        invariant StackOk(stack, path) && Upcoming(stack, path) == ahead && path <= p0
        invariant stack != [] ==> stack[0].node == s0[0].node
        invariant AllLoadable(s0, K) ==> AllLoadable(stack, K)
        decreases |stack|
      {
        ghost var s1 := stack;
        var ok, state, below := NextChild();
        SameNodes(s1, stack, K);
        if ok {
          if !state.node.HashNode? { FlagHashOk(state.node); }
          var resolved := Resolve(state, false);
          if resolved.None? {
            FirstThere(stack, path, state, below);
            SeesChild(Absent, s0, p0, stack, path, tree, descend);
            return Absent;
          }
          PushChild(stack, path, resolved.value, below);
          p := Found(resolved.value, below, true);
          SeesChild(p, s0, p0, stack, path, tree, descend);
          return;
        }
        // No more children, move back up.
        UpcomingPopped(stack, path);
        AllPopped(stack, K);
        Pop();
      }
      SeesEnd(s0, p0, stack, path, tree, descend);
      p := Ended;
    }

    /** Moves to a node that was peeked at: it becomes the current one, and exactly what comes after it is left to visit. */
    method Push(state: Frame, child: bool, below: Hex)
      modifies `stack, `path
      ensures stack == Pushed(old(stack), state, child) && path == below
      ensures forall ahead | Leads(Found(state, below, child), old(stack), ahead) ::
                && StackOk(stack, path) && Upcoming(stack, path) == ahead[1..]
                && ahead[0] == V.Visit(path, Denotes(Top(stack).node))
    {
      hide StackOk, Upcoming;
      path := below;
      if child && stack != [] {
        stack := Popped(stack) + [Top(stack).(index := Top(stack).index + 1)];
      }
      stack := stack + [state];
    }

    // ---------- stepping ----------

    /** Moves forward until just before the first node whose path is not before the key. */
    method Seek(prefix: Bytes) returns (status: Status)
      requires Rooted() && Seeking(stack, path, tree, pos, Unpack(prefix))
      modifies `stack, `path, `pos, trie`root
      ensures trie.Valid() && Denotes(trie.root) == old(Denotes(trie.root))
      ensures status in {Fine, End, SeekFailed(prefix)} && pos >= old(pos)
      ensures status == End ==> stack == [] && path == [] && Canonical(tree) && pos == |All(tree)|
      ensures status != End ==> Rooted() && Seeking(stack, path, tree, pos, Unpack(prefix))
      ensures status in {Fine, End} ==> AtSeek(tree, pos, Unpack(prefix))
      ensures old(Complete()) ==> status in {Fine, End} && (status == Fine ==> Complete())
      ensures old(trie.Complete()) ==> trie.Complete()
    {
      hide NodeIterator.Rooted, NodeIterator.Complete, Trie.Valid, Trie.Complete, Denotes, All, Seeking, AtSeek, Unpack;
      var hex := KeyHex(prefix);
      var key := hex[..|hex| - 1];
      assert key == Unpack(prefix);
      SeekRooted(this, key);
      while true
        invariant Rooted() && trie.Valid() && Denotes(trie.root) == old(Denotes(trie.root))
        invariant Seeking(stack, path, tree, pos, key) && old(pos) <= pos <= |All(tree)|
        invariant (old(Complete()) ==> Complete()) && (old(trie.Complete()) ==> trie.Complete())
        decreases |All(tree)| - pos
      {
        var p := SeekOnce(key);
        match p
        case Ended => return End;
        case Absent => return SeekFailed(prefix);
        case Found(_, below, _) =>
          if V.Compare(below, key) >= 0 {
            return Fine;
          }
      }
    }

    /** One turn of a seek: looks at the next node, and moves there if it is still before the key. */
    method SeekOnce(key: Hex) returns (p: Peeked)
      requires Rooted() && Seeking(stack, path, tree, pos, key)
      modifies `stack, `path, `pos, trie`root
      ensures trie.Valid() && Denotes(trie.root) == old(Denotes(trie.root)) && old(pos) <= pos <= |All(tree)|
      ensures !p.Ended? ==> Rooted() && Seeking(stack, path, tree, pos, key)
      ensures p.Ended? ==> stack == [] && path == [] && Canonical(tree) && pos == |All(tree)| && AtSeek(tree, pos, key)
      ensures p.Found? && V.Compare(p.path, key) >= 0 ==> AtSeek(tree, pos, key)
      ensures p.Found? && V.Compare(p.path, key) < 0 ==> pos > old(pos)
      ensures old(Complete()) ==> !p.Absent? && (p.Found? ==> Complete())
      ensures old(trie.Complete()) ==> trie.Complete()
    {
      hide Trie.Valid, Root, Loadable, StackOk, Sees, Leads, Denotes, Known, AllLoadable, Trie.Complete, All, Seeking;
      hide AtSeek, Pushed;
      ghost var s0, p0 := stack, path;
      SeekOk(stack, path, tree, pos, key);
      ghost var at := SeekSkips(stack, path, tree, pos, key);
      p := Peek(path <= key);
      SeekSees(p, s0, p0, stack, path, tree, pos, at, key);
      pos := at;
      if p.Found? && V.Compare(p.path, key) < 0 {
        LoadedPush(stack, p.frame, p.child, Known(trie.db));
        Push(p.frame, p.child, p.path);
        pos := pos + 1;
      }
    }

    /**
     Moves to the next node, or past everything below the current one. Without a node that
     cannot be loaded there is one unless all are passed.
     */
    method Next(descend: bool) returns (ok: bool)
      requires Valid()
      modifies `stack, `path, `err, `pos, trie`root
      ensures Valid() && trie.Valid() && Denotes(trie.root) == old(Denotes(trie.root))
      ensures ok ==> Here() && Top(stack).index == -1
      ensures pos >= old(pos) && (ok ==> pos > old(pos))
      ensures !old(err).SeekFailed? && ok ==> old(Ahead(descend)) != [] && Ahead(true) == old(Ahead(descend))[1..]
      ensures !old(err).SeekFailed? && ok && descend ==> pos == old(pos) + 1
      ensures !old(err).SeekFailed? && !ok && err == End ==> old(Ahead(descend)) == []
      ensures old(err).SeekFailed? && ok ==>
                exists s, p, at :: Resumed(tree, Unpack(old(err).key), descend, Ahead(true), s, p, at)
      ensures old(err).SeekFailed? && ok && descend ==> AtSeek(tree, pos - 1, Unpack(old(err).key))
      ensures old(err).SeekFailed? && !ok && err == End && descend ==> AtSeek(tree, pos, Unpack(old(err).key))
      ensures !ok ==> err != Fine
      ensures old(err) == End ==> !ok && err == End
      ensures old(trie.Complete()) ==> trie.Complete()
      ensures old(Complete()) && old(err) == Fine ==> err in {Fine, End} && (ok ==> Complete())
    {
      hide Trie.Valid, Root, Loadable, StackOk, Sees, Leads, Denotes, Known, AllLoadable, Trie.Complete, All, Seeking;
      hide AtSeek, Positioned, Unpack, Rest, Resumed;
      if err == End { return false; }
      if err.SeekFailed? {
        err := Seek(err.key);
        if err == End { return false; }
        SeekingPlaced(stack, path, tree, pos, Unpack(old(err).key));
        if err != Fine { return false; }
      }
      ghost var s, p, at := stack, path, pos;
      ok := Step(descend);
      if ok && old(err).SeekFailed? { ResumedAt(tree, Unpack(old(err).key), descend, Ahead(true), s, p, at); }
    }

    /** One step of an iteration that has found its start. */
    method Step(descend: bool) returns (ok: bool)
      requires Rooted() && Positioned(stack, path, tree, pos) && err in {Fine, Failed}
      modifies `stack, `path, `err, `pos, trie`root
      ensures Valid() && trie.Valid() && Denotes(trie.root) == old(Denotes(trie.root))
      ensures err == if ok then Fine else if old(Ahead(descend)) == [] then End else Failed
      ensures ok ==> Here() && Top(stack).index == -1
      ensures pos >= old(pos) && (ok ==> pos > old(pos))
      ensures ok ==> old(Ahead(descend)) != [] && Ahead(true) == old(Ahead(descend))[1..] && (descend ==> pos == old(pos) + 1)
      ensures old(Complete()) ==> err in {Fine, End} && (ok ==> Complete())
      ensures old(trie.Complete()) ==> trie.Complete()
    {
      hide Trie.Valid, Root, Loadable, StackOk, Sees, Leads, Denotes, Known, AllLoadable, Trie.Complete, All;
      hide Positioned, Unpack, Rest, Pushed;
      ghost var s0, p0 := stack, path;
      PlacedOk(stack, path, tree, pos);
      ghost var at := StepSkips(stack, path, tree, pos, descend);
      var p := Peek(descend);
      StepSees(p, s0, p0, stack, path, tree, at, descend);
      match p
      case Ended =>
        err, pos := End, |All(tree)|;
        return false;
      case Absent =>
        err, pos := Failed, at;
        return false;
      case Found(state, below, child) =>
        LoadedPush(stack, state, child, Known(trie.db));
        Push(state, child, below);
        err, pos := Fine, at + 1;
        return true;
    }

    // ---------- looking at the current node ----------

    /** The iterator stands on the node that it moved to last. */
    ghost predicate Here()
      reads this
    {
      && err == Fine && stack != [] && !Top(stack).node.HashNode?
      && 0 < pos <= |All(tree)| && All(tree)[pos - 1] == V.Visit(path, Denotes(Top(stack).node))
    }

    /** The hash of the current node, zero unless it is stored under one. */
    method Hash() returns (h: Hash)
      ensures h == if stack == [] then Zero else Top(stack).hash
      ensures Valid() && Here() ==> h == HashOf(All(tree)[pos - 1].tree, path == [])
    {
      hide StackOk, All;
      h := if stack == [] then Zero else Top(stack).hash;
      if Valid() && Here() {
        TopOk(stack, path);
        StackReaches(stack, path, tree);
      }
    }

    /** The hash of the nearest ancestor that has one. */
    method Parent() returns (h: Hash)
      ensures stack == [] ==> h == Zero
      ensures Valid() && stack != [] ==> h == Above(tree, path, true, Zero)
    {
      h := if stack == [] then Zero else Top(stack).parent;
      if Valid() && stack != [] { StackReaches(stack, path, tree); }
    }

    method Leaf() returns (leaf: bool)
      ensures leaf == HasTerm(path)
      ensures Valid() && Here() ==> (leaf <==> Top(stack).node.Value?)
    {
      leaf := HasTerm(path);
      if Valid() && Here() { LeafHere(Top(stack).node, path, tree, pos); }
    }

    /** The key of the current leaf; it is a whole key, under which the trie holds the leaf's value. */
    method LeafKey() returns (key: Bytes)
      requires Valid() && Here() && WholeKeys(tree) && HasTerm(path)
      ensures KeyHex(key) == path && Lookup(tree, path).Some?
    {
      hide Canonical, StackOk, Rest, All, WholeKeys, KeyHex, IsKey;
      LeafHere(Top(stack).node, path, tree, pos);
      EntryHere(path, Top(stack).node.bytes, tree, pos);
      var bytes := HexToKeybytes(path);
      key := bytes[..];
    }

    method LeafBlob() returns (blob: Bytes)
      requires Valid() && Here() && HasTerm(path)
      ensures Lookup(tree, path) == Some(blob)
    {
      hide Canonical, StackOk, Rest, All;
      LeafHere(Top(stack).node, path, tree, pos);
      EntryAt(path, Top(stack).node.bytes, tree, pos);
      blob := Top(stack).node.bytes;
    }

    // ---------- moving on the stack ----------

    method Pop()
      requires stack != [] && StackOk(stack, path)
      modifies `stack, `path
      ensures stack == Popped(old(stack)) && path == old(path[..Top(stack).pathlen]) && StackOk(stack, path)
    {
      var parent := Top(stack);
      path := path[..parent.pathlen];
      stack := Popped(stack);
    }

    /** The first remaining child of the top of the stack, not loaded yet. */
    method NextChild() returns (ok: bool, state: Frame, below: Hex)
      requires stack != [] && StackOk(stack, path)
      modifies `stack
      ensures stack != [] && StackOk(stack, path) && Upcoming(stack, path) == old(Upcoming(stack, path))
      ensures Popped(stack) == old(Popped(stack)) && Top(stack) == old(Top(stack)).(index := Top(stack).index)
      ensures !ok ==> stack == old(stack) && After(Denotes(Top(stack).node), Top(stack).index, path) == []
      ensures ok ==>
                && Good(state.node) && Filled(state.node) && Sized(state.node) && state.index == -1
                && state.pathlen == |path| && state.parent == Ancestor(stack)
                && state.hash == FlagHash(state.node)
                && FirstChild(Denotes(Top(stack).node), Top(stack).index, path, Denotes(state.node), below, Top(stack).index + 1)
                && forall s | Loadable(Top(stack).node, s) :: Loadable(state.node, s)
    {
      hide StackOk, Upcoming, After, FirstChild, Good, Filled, Sized, Denotes, FrameOk, Loadable;
      var parent := Top(stack);
      TopOk(stack, path);
      var ancestor := if parent.hash != Zero then parent.hash else parent.parent;
      state, below := parent, path;
      match parent.node {
      case FullNode(kids, _) =>
        FullKids(parent.node);
        var i := parent.index + 1;
        while i < |kids|
          invariant parent.index < i && forall j | parent.index < j < i && j < |kids| :: kids[j] == Nil
        {
          if kids[i] != Nil {
            KidNext(stack, path, i);
            state := Frame(FlagHash(kids[i]), kids[i], ancestor, -1, |path|);
            below := path + [i];
            stack := Popped(stack) + [parent.(index := i - 1)];
            return true, state, below;
          }
          i := i + 1;
        }
        NoChild(parent, path);
      case ShortNode(key, val, _) =>
        if parent.index < 0 {
          ShortChild(parent, path);
          KidCached(parent.node, val);
          ValLoads(parent.node);
          state := Frame(FlagHash(val), val, ancestor, -1, |path|);
          return true, state, path + key;
        }
        NoChild(parent, path);
      case _ =>
        NoChild(parent, path);
      }
      ok := false;
    }
  }

  /** The first child that is there, after a full node's index. */
  lemma KidNext(stack: seq<Frame>, path: Hex, i: Nibble)
    requires stack != [] && StackOk(stack, path) && Top(stack).node.FullNode? && Top(stack).index < i < |Top(stack).node.kids|
    requires Top(stack).node.kids[i] != Nil && forall j | Top(stack).index < j < i :: Top(stack).node.kids[j] == Nil
    ensures var n, s := Top(stack).node, Popped(stack) + [Top(stack).(index := i - 1)];
            && StackOk(s, path) && Upcoming(s, path) == Upcoming(stack, path) && Popped(s) == Popped(stack)
            && Good(n.kids[i]) && Filled(n.kids[i]) && Sized(n.kids[i])
            && FirstChild(Denotes(n), i - 1, path, Denotes(n.kids[i]), path + [i], i)
            && forall k | Loadable(n, k) :: Loadable(n.kids[i], k)
  {
    hide StackOk, Upcoming, After, FirstChild, Good, Filled, Sized, Denotes;
    var top := Top(stack);
    TopOk(stack, path);
    FullChild(top, path, i);
    UpcomingPopped(stack, path);
    TopIndex(stack, path, i - 1);
    KidLoads(top.node, i);
    KidCached(top.node, top.node.kids[i]);
    FirstFrom(Denotes(top.node), top.index, path, Denotes(top.node.kids[i]), path + [i], i);
    assert Popped(Popped(stack) + [top.(index := i - 1)]) == Popped(stack);
  }

  lemma ValLoads(n: Node)
    requires n.ShortNode?
    ensures forall s | Loadable(n, s) :: Loadable(n.val, s)
  {
  }

  lemma FirstFrom(t: Tree, index: int, path: Hex, c: Tree, below: Hex, i: int)
    requires FirstChild(t, index, path, c, below, i) && After(t, index, path) == After(t, i - 1, path)
    ensures FirstChild(t, i - 1, path, c, below, i)
  {
    hide After;
  }

  lemma KidLoads(n: Node, i: nat)
    requires n.FullNode? && i < |n.kids|
    ensures forall s | Loadable(n, s) :: Loadable(n.kids[i], s)
  {
  }

  lemma LoadNode(db: Store, n: Node, gen: Uint16, root: bool)
    requires Addressed(db) && n.HashNode? && Good(n) && (root || Sized(n))
    ensures n.hash != Zero && n.hash == HashOf(Denotes(n), root)
    ensures var r := Ops.Resolve(db, n.hash, gen);
            if n.hash in db then
              && r.Some? && (r.value.ShortNode? || r.value.FullNode?) && Good(r.value) && Filled(r.value)
              && Denotes(r.value) == Denotes(n)
              && (Loadable(n, db.Keys) ==> Loadable(r.value, db.Keys))
            else r.None? && !Loadable(n, db.Keys)
  {
    if n.hash in db { Ops.ResolveSpec(db, n, gen); }
  }

  lemma ResumedAt(tree: Tree, key: Hex, descend: bool, ahead: seq<Visit>, stack: seq<Frame>, path: Hex, pos: nat)
    requires AtSeek(tree, pos, key) && Positioned(stack, path, tree, pos)
    requires Rest(stack, path, tree, descend) != [] && ahead == Rest(stack, path, tree, descend)[1..]
    ensures Resumed(tree, key, descend, ahead, stack, path, pos)
  {
  }

  lemma AllPopped(stack: seq<Frame>, s: set<Hash>)
    requires stack != []
    ensures AllLoadable(stack, s) ==> AllLoadable(Popped(stack), s)
  {
    if AllLoadable(stack, s) {
      forall i | 0 <= i < |stack| - 1 ensures Loadable(Popped(stack)[i].node, s) { assert Popped(stack)[i] == stack[i]; }
    }
  }

  lemma RootFrame(trie: Trie)
    requires trie.Valid()
    ensures var t := Denotes(trie.root);
            && Good(trie.root) && Canonical(t)
            && HashOf(t, true) == if RootHash(t) != EMPTY_ROOT then RootHash(t) else Zero
  {
    hide Database.Valid;
  }

  // ---------- the way to a node ----------

  /** A subtree is reached from a tree over a path. */
  ghost predicate Reaches(t: Tree, path: Hex, c: Tree) {
    if path == [] then t == c
    else
      match t
      case Short(k, d) => k != [] && k <= path && Reaches(d, path[|k|..], c)
      case Full(kids) => path[0] < |kids| && Reaches(kids[path[0]], path[1..], c)
      case _ => false
  }

  /** On the way to the node at a path, the hash of the last node above it that is stored under one. */
  ghost function Above(t: Tree, path: Hex, root: bool, last: Hash): Hash {
    if path == [] then last
    else
      var here := if HashOf(t, root) != Zero then HashOf(t, root) else last;
      match t
      case Short(k, c) => if k != [] && k <= path then Above(c, path[|k|..], false, here) else Zero
      case Full(kids) => if path[0] < |kids| then Above(kids[path[0]], path[1..], false, here) else Zero
      case _ => Zero
  }

  lemma {:induction false} AboveStep(t: Tree, path: Hex, c: Tree, piece: Hex, d: Tree, root: bool, last: Hash)
    requires Reaches(t, path, c) && Steps(c, piece, d) && piece != []
    ensures Reaches(t, path + piece, d)
    ensures Above(t, path + piece, root, last) ==
            var h := HashOf(c, root && path == []);
            if h != Zero then h else Above(t, path, root, last)
  {
    hide HashOf;
    var here := if HashOf(t, root) != Zero then HashOf(t, root) else last;
    if path == [] {
      assert path + piece == piece;
      assert piece[|piece|..] == [] && piece[1..] == if |piece| == 1 then [] else piece[1..];
    } else {
      match t
      case Short(k, e) =>
        assert (path + piece)[|k|..] == path[|k|..] + piece;
        AboveStep(e, path[|k|..], c, piece, d, false, here);
      case Full(kids) =>
        assert (path + piece)[1..] == path[1..] + piece;
        AboveStep(kids[path[0]], path[1..], c, piece, d, false, here);
    }
  }

  lemma PieceThere(n: Node, piece: Hex, c: Tree)
    requires Good(n) && Steps(Denotes(n), piece, c)
    ensures piece != []
  {
  }

  /** The stack of an iterator follows the way to its node. */
  lemma {:induction false} StackReaches(stack: seq<Frame>, path: Hex, tree: Tree)
    requires stack != [] && StackOk(stack, path) && Denotes(stack[0].node) == tree && Canonical(tree)
    ensures Reaches(tree, path, Denotes(Top(stack).node)) && Top(stack).parent == Above(tree, path, true, Zero)
    ensures path == [] <==> |stack| == 1
  {
    hide HashOf, Good, Filled, Steps, Reaches, Above, Denotes;
    if |stack| > 1 {
      var below, top, prev := Popped(stack), Top(stack), stack[|stack| - 2];
      var p, piece := path[..top.pathlen], path[top.pathlen..];
      assert below[0] == stack[0] && Top(below) == prev;
      StackReaches(below, p, tree);
      TopOk(below, p);
      PieceThere(prev.node, piece, Denotes(top.node));
      AboveStep(tree, p, Denotes(prev.node), piece, Denotes(top.node), true, Zero);
      assert path == p + piece;
    } else {
      HereAbove(tree);
    }
  }

  lemma HereAbove(tree: Tree)
    ensures Reaches(tree, [], tree) && Above(tree, [], true, Zero) == Zero
  {
  }

  lemma AfterUnder(t: Tree, index: int, path: Hex, v: Visit)
    requires v in After(t, index, path)
    ensures path <= v.path
  {
    match t
    case Short(k, c) => V.UnderPath(c, path + k, v);
    case Full(kids) => V.UnderKids(kids, index + 1, path, v);
  }

  lemma PathEmpty(stack: seq<Frame>, path: Hex)
    requires StackOk(stack, path) && stack == []
    ensures path == []
  {
  }

  lemma SeesRoot(p: Peeked, tree: Tree)
    requires p.Absent? || (p.Found? && Leads(p, [], All(tree)))
    ensures forall descend :: Sees(p, [], [], [], [], tree, descend)
  {
    hide Leads;
  }

  lemma SeesChild(p: Peeked, s0: seq<Frame>, p0: Hex, stack: seq<Frame>, path: Hex, tree: Tree, descend: bool)
    requires s0 != [] && stack != [] && StackOk(stack, path) && path <= p0 && Upcoming(stack, path) == Rest(s0, p0, tree, descend)
    requires stack[0].node == s0[0].node
    requires (p.Absent? && Upcoming(stack, path) != []) || (p.Found? && Leads(p, stack, Upcoming(stack, path)))
    ensures Sees(p, s0, p0, stack, path, tree, descend)
  {
    hide Leads, All, Upcoming, StackOk;
  }

  lemma FirstThere(stack: seq<Frame>, path: Hex, state: Frame, below: Hex)
    requires stack != [] && StackOk(stack, path)
    requires FirstChild(Denotes(Top(stack).node), Top(stack).index, path, Denotes(state.node), below, Top(stack).index + 1)
    ensures Upcoming(stack, path) != []
  {
    hide After, StackOk, Upcoming;
    UpcomingPopped(stack, path);
  }

  lemma SeesEnd(s0: seq<Frame>, p0: Hex, stack: seq<Frame>, path: Hex, tree: Tree, descend: bool)
    requires s0 != [] && stack == [] && StackOk(stack, path) && path <= p0 && Upcoming(stack, path) == Rest(s0, p0, tree, descend)
    ensures Sees(Ended, s0, p0, stack, path, tree, descend)
  {
    hide Leads, All, Rest;
  }

  lemma SameNodes(a: seq<Frame>, b: seq<Frame>, s: set<Hash>)
    requires a != [] && b != [] && Popped(a) == Popped(b) && Top(b) == Top(a).(index := Top(b).index)
    ensures AllLoadable(a, s) ==> AllLoadable(b, s) && Loadable(Top(b).node, s)
  {
    hide Loadable;
    if AllLoadable(a, s) {
      assert Loadable(a[|a| - 1].node, s);
      forall i | 0 <= i < |b| ensures Loadable(b[i].node, s) {
        if i < |b| - 1 { assert b[i] == Popped(b)[i] == Popped(a)[i] == a[i]; }
      }
    }
  }

  lemma NoFrames(s: set<Hash>)
    ensures AllLoadable([], s)
  {
  }

  lemma Starts(tree: Tree, key: Hex)
    requires Canonical(tree)
    ensures Seeking([], [], tree, 0, key)
  {
    hide V.PreOrder;
  }

  lemma PlacedOk(stack: seq<Frame>, path: Hex, tree: Tree, pos: nat)
    requires Positioned(stack, path, tree, pos)
    ensures StackOk(stack, path) && Canonical(tree) && (stack != [] ==> Denotes(stack[0].node) == tree)
  {
  }

  lemma SeekOk(stack: seq<Frame>, path: Hex, tree: Tree, pos: nat, key: Hex)
    requires Seeking(stack, path, tree, pos, key)
    ensures StackOk(stack, path) && pos <= |All(tree)| && Canonical(tree)
  {
  }

  lemma SeekRooted(it: NodeIterator, key: Hex)
    requires it.Rooted() && Seeking(it.stack, it.path, it.tree, it.pos, key)
    ensures it.trie.Valid() && it.pos <= |All(it.tree)|
  {
  }

  lemma SeekingPlaced(stack: seq<Frame>, path: Hex, tree: Tree, pos: nat, key: Hex)
    requires Seeking(stack, path, tree, pos, key)
    ensures Positioned(stack, path, tree, pos)
  {
  }

  /** Where the visits go on after the children of the top. */
  lemma StepSkips(stack: seq<Frame>, path: Hex, tree: Tree, pos: nat, descend: bool) returns (at: nat)
    requires Positioned(stack, path, tree, pos)
    ensures pos <= at <= |All(tree)| && (stack == [] || descend ==> at == pos)
    ensures Rest(stack, path, tree, descend) == All(tree)[at..]
    ensures stack != [] && !descend ==> at == pos + |After(Denotes(Top(stack).node), Top(stack).index, path)|
  {
    hide StackOk, Upcoming, After, All;
    at := pos;
    if stack != [] && !descend {
      UpcomingPopped(stack, path);
      var after := After(Denotes(Top(stack).node), Top(stack).index, path);
      at := pos + |after|;
      assert All(tree)[at..] == All(tree)[pos..][|after|..];
    }
  }

  /** What a seek passes over without looking comes before the key. */
  lemma SeekSkips(stack: seq<Frame>, path: Hex, tree: Tree, pos: nat, key: Hex) returns (at: nat)
    requires Seeking(stack, path, tree, pos, key)
    ensures pos <= at && AllBefore(tree, at, key) && Rest(stack, path, tree, path <= key) == All(tree)[at..]
  {
    hide StackOk, Upcoming, After, All, V.Compare, Rest;
    at := StepSkips(stack, path, tree, pos, path <= key);
    if stack != [] && !(path <= key) {
      RestTop(stack, path, tree, pos);
      var all, after := All(tree), After(Denotes(Top(stack).node), Top(stack).index, path);
      forall i | pos <= i < at ensures V.Compare(all[i].path, key) < 0 {
        assert all[i] == all[pos..][i - pos] == after[i - pos];
        AfterUnder(Denotes(Top(stack).node), Top(stack).index, path, all[i]);
        V.ExtensionsBefore(path, key, all[i].path);
      }
    }
  }

  lemma RestTop(stack: seq<Frame>, path: Hex, tree: Tree, pos: nat)
    requires Positioned(stack, path, tree, pos) && stack != []
    ensures After(Denotes(Top(stack).node), Top(stack).index, path) <= All(tree)[pos..]
  {
    hide StackOk, Upcoming, After, All;
    UpcomingPopped(stack, path);
  }

  lemma StepSees(p: Peeked, s0: seq<Frame>, p0: Hex, stack: seq<Frame>, path: Hex, tree: Tree, at: nat, descend: bool)
    requires Sees(p, s0, p0, stack, path, tree, descend) && Canonical(tree) && (s0 != [] ==> Denotes(s0[0].node) == tree)
    requires at <= |All(tree)| && Rest(s0, p0, tree, descend) == All(tree)[at..]
    ensures p.Ended? ==> at == |All(tree)| && Rest(s0, p0, tree, descend) == [] && stack == [] && path == []
    ensures p.Absent? ==> Rest(s0, p0, tree, descend) != []
    ensures !p.Ended? ==> Positioned(stack, path, tree, at) && (stack == [] <==> s0 == [])
    ensures p.Found? ==>
              var s := Pushed(stack, p.frame, p.child);
              && at < |All(tree)| && All(tree)[at] == V.Visit(p.path, Denotes(p.frame.node)) && p.frame.index == -1
              && s != [] && Top(s) == p.frame && !p.frame.node.HashNode? && Positioned(s, p.path, tree, at + 1)
              && Rest(s, p.path, tree, true) == Rest(s0, p0, tree, descend)[1..] && Rest(s0, p0, tree, descend) != []
  {
    hide Upcoming, StackOk, Denotes, All;
    if p.Ended? {
      assert All(tree)[at..] == [];
      PathEmpty(stack, path);
    }
    if p.Found? {
      TopOk(Pushed(stack, p.frame, p.child), p.path);
      if s0 == [] { FirstVisit(tree); } else { assert Pushed(stack, p.frame, p.child)[0].node == stack[0].node; }
    }
  }

  lemma FirstVisit(tree: Tree)
    ensures All(tree) != [] && All(tree)[0] == V.Visit([], tree)
  {
  }

  lemma SeekSees(p: Peeked, s0: seq<Frame>, p0: Hex, stack: seq<Frame>, path: Hex, tree: Tree, pos: nat, at: nat, key: Hex)
    requires Seeking(s0, p0, tree, pos, key) && Sees(p, s0, p0, stack, path, tree, p0 <= key)
    requires AllBefore(tree, at, key) && Rest(s0, p0, tree, p0 <= key) == All(tree)[at..]
    ensures at <= |All(tree)|
    ensures p.Ended? ==> AtSeek(tree, at, key) && at == |All(tree)| && Canonical(tree) && stack == [] && path == []
    ensures !p.Ended? ==> Seeking(stack, path, tree, at, key) && (stack == [] <==> s0 == [])
    ensures p.Found? && V.Compare(p.path, key) >= 0 ==> AtSeek(tree, at, key)
    ensures p.Found? && V.Compare(p.path, key) < 0 ==>
              && Pushed(stack, p.frame, p.child) != [] && at < |All(tree)|
              && Seeking(Pushed(stack, p.frame, p.child), p.path, tree, at + 1, key)
  {
    hide StackOk, All, V.Compare, Rest, Pushed, Leads;
    StepSees(p, s0, p0, stack, path, tree, at, p0 <= key);
    SeekPath(path, p0, key, s0);
    if p.Found? && V.Compare(p.path, key) >= 0 { AllFrom(tree, at, key); }
  }

  lemma AllFrom(tree: Tree, at: nat, key: Hex)
    requires Canonical(tree) && AllBefore(tree, at, key) && at < |All(tree)| && V.Compare(All(tree)[at].path, key) >= 0
    ensures AtSeek(tree, at, key)
  {
    hide V.PreOrder, V.Compare;
    var all := All(tree);
    V.PreOrderSorted(tree, []);
    forall i | at <= i < |all| ensures V.Compare(all[i].path, key) >= 0 {
      if i > at && V.Compare(all[i].path, key) < 0 {
        V.CompareTrans(all[at].path, all[i].path, key);
      }
    }
  }

  lemma SeekPath(path: Hex, path0: Hex, key: Hex, stack: seq<Frame>)
    requires path <= path0 && (stack != [] ==> V.Compare(path0, key) < 0)
    ensures stack != [] ==> V.Compare(path, key) < 0
  {
    if stack != [] && path != path0 {
      V.PrefixFirst(path, path0);
      V.CompareTrans(path, path0, key);
    }
  }

  lemma LoadedPush(stack: seq<Frame>, f: Frame, child: bool, s: set<Hash>)
    ensures AllLoadable(stack, s) && Loadable(f.node, s) ==> AllLoadable(Pushed(stack, f, child), s)
  {
    hide Loadable;
    if AllLoadable(stack, s) && Loadable(f.node, s) {
      var p := Pushed(stack, f, child);
      forall i | 0 <= i < |p| ensures Loadable(p[i].node, s) {
        if i < |stack| { assert p[i].node == stack[i].node; }
      }
    }
  }

  // ---------- leaves ----------

  lemma LeafHere(n: Node, path: Hex, tree: Tree, pos: nat)
    requires Canonical(tree) && !n.HashNode? && 0 < pos <= |All(tree)| && All(tree)[pos - 1] == V.Visit(path, Denotes(n))
    ensures (HasTerm(path) <==> n.Value?) && (HasTerm(path) <==> Denotes(n).Leaf?)
  {
    V.VisitEnds(tree, [], V.Visit(path, Denotes(n)));
  }

  lemma EntryAt(path: Hex, v: Bytes, tree: Tree, pos: nat)
    requires Canonical(tree) && 0 < pos <= |All(tree)| && All(tree)[pos - 1] == V.Visit(path, Leaf(v))
    ensures Lookup(tree, path) == Some(v)
  {
    var visit := V.Visit(path, Leaf(v));
    V.VisitShows(tree, [], visit);
    assert Lookup(tree, path[0..] + []) == Lookup(Leaf(v), []);
    assert path[0..] + [] == path;
  }

  lemma EntryHere(path: Hex, v: Bytes, tree: Tree, pos: nat)
    requires Canonical(tree) && 0 < pos <= |All(tree)| && All(tree)[pos - 1] == V.Visit(path, Leaf(v)) && WholeKeys(tree)
    ensures Lookup(tree, path) == Some(v) && IsKey(path) && WellFormed(path) && |Body(path)| % 2 == 0
    ensures KeyHex(KeyBytes(path)) == path
  {
    EntryAt(path, v, tree, pos);
    HexRoundTrip(path);
  }

  function Leaves(vs: seq<Visit>): seq<Visit> {
    if vs == [] then [] else (if vs[0].tree.Leaf? then [vs[0]] else []) + Leaves(vs[1..])
  }

  lemma {:induction false} LeavesNext(vs: seq<Visit>, v: Visit)
    ensures Leaves(vs + [v]) == Leaves(vs) + if v.tree.Leaf? then [v] else []
  {
    if vs == [] {
      assert vs + [v] == [v];
    } else {
      LeavesNext(vs[1..], v);
      assert (vs + [v])[1..] == vs[1..] + [v] && (vs + [v])[0] == vs[0];
      var head, last := if vs[0].tree.Leaf? then [vs[0]] else [], if v.tree.Leaf? then [v] else [];
      assert head + (Leaves(vs[1..]) + last) == head + Leaves(vs[1..]) + last;
    }
  }

  lemma {:induction false} LeavesIn(vs: seq<Visit>, v: Visit)
    ensures v in Leaves(vs) <==> v in vs && v.tree.Leaf?
  {
    if vs != [] {
      LeavesIn(vs[1..], v);
      assert vs == [vs[0]] + vs[1..];
    }
  }

  lemma {:induction false} LeavesSorted(vs: seq<Visit>)
    requires V.Sorted(vs)
    ensures V.Sorted(Leaves(vs))
  {
    hide V.Compare;
    if vs != [] {
      LeavesSorted(vs[1..]);
      if vs[0].tree.Leaf? {
        forall x, y | x in [vs[0]] && y in Leaves(vs[1..]) ensures V.Compare(x.path, y.path) < 0 {
          LeavesIn(vs[1..], y);
          var j :| 0 <= j < |vs[1..]| && vs[1..][j] == y;
          assert vs[j + 1] == y;
        }
        V.SortedJoin([vs[0]], Leaves(vs[1..]));
      }
    }
  }

  /** The visits from one position up to another. */
  ghost function Between(tree: Tree, from: nat, to: nat): seq<Visit>
    requires from <= to <= |All(tree)|
  {
    All(tree)[from..to]
  }

  lemma BetweenNext(tree: Tree, from: nat, to: nat)
    requires from <= to < |All(tree)|
    ensures Leaves(Between(tree, from, to + 1)) ==
            Leaves(Between(tree, from, to)) + if All(tree)[to].tree.Leaf? then [All(tree)[to]] else []
  {
    assert All(tree)[from..to + 1] == All(tree)[from..to] + [All(tree)[to]];
    LeavesNext(All(tree)[from..to], All(tree)[to]);
  }

  /** The key/value iterator: a node iterator that stops at leaves only. */
  class Iterator {
    const nodeIt: NodeIterator
    var key: Bytes
    var value: Bytes

    constructor (it: NodeIterator)
      ensures nodeIt == it
    {
      nodeIt, key, value := it, [], [];
    }

    /** Moves to the next entry: the first leaf of what the node iterator has still to visit. */
    method Next() returns (ok: bool)
      requires nodeIt.Valid() && WholeKeys(nodeIt.tree)
      modifies `key, `value, nodeIt, nodeIt.trie`root
      ensures nodeIt.Valid() && nodeIt.trie.Valid() && Denotes(nodeIt.trie.root) == old(Denotes(nodeIt.trie.root))
      ensures ok ==> nodeIt.Here() && nodeIt.err == Fine && Entry(nodeIt.tree, nodeIt.pos, key, value)
      ensures ok ==> old(nodeIt.pos) < nodeIt.pos <= |All(nodeIt.tree)|
      ensures !old(nodeIt.err).SeekFailed? && ok ==> NoLeaf(nodeIt.tree, old(nodeIt.pos), nodeIt.pos - 1)
      ensures !old(nodeIt.err).SeekFailed? && !ok && nodeIt.err == End ==>
                NoLeaf(nodeIt.tree, old(nodeIt.pos), |All(nodeIt.tree)|)
      ensures old(nodeIt.err).SeekFailed? && ok ==>
                exists at: nat :: AtSeek(nodeIt.tree, at, Unpack(old(nodeIt.err).key)) && NoLeaf(nodeIt.tree, at, nodeIt.pos - 1)
      ensures old(nodeIt.err).SeekFailed? && !ok && nodeIt.err == End ==>
                exists at: nat ::
                  AtSeek(nodeIt.tree, at, Unpack(old(nodeIt.err).key)) && NoLeaf(nodeIt.tree, at, |All(nodeIt.tree)|)
      ensures old(nodeIt.err == End || (nodeIt.err == Fine && nodeIt.Complete())) ==>
                nodeIt.err in {Fine, End} && (ok ==> nodeIt.Complete())
      ensures !ok ==> nodeIt.err != Fine
    {
      hide Trie.Valid, NodeIterator.Valid, NodeIterator.Complete, NodeIterator.Here, NodeIterator.Ahead, Entry;
      hide AtSeek, Unpack, Lookup;
      hide NoLeaf, All, Denotes, WholeKeys, KeyHex, HasTerm, HashOf, Resumed;
      ghost var from, failed := nodeIt.pos, nodeIt.err;
      Bounded(nodeIt);
      TrieOf(nodeIt);
      NoLeaves(nodeIt.tree, from);
      ok := nodeIt.Next(true);
      if ok { HereFacts(nodeIt); }
      if failed.SeekFailed? && (ok || nodeIt.err == End) {
        Bounded(nodeIt);
        if !ok { AtEnd(nodeIt); }
        from := if ok then nodeIt.pos - 1 else nodeIt.pos;
        NoLeaves(nodeIt.tree, from);
      }
      while ok
        invariant nodeIt.Valid() && nodeIt.trie.Valid() && Denotes(nodeIt.trie.root) == old(Denotes(nodeIt.trie.root))
        invariant nodeIt.pos >= from && (ok ==> nodeIt.pos > from) && from >= old(nodeIt.pos)
        invariant ok ==> nodeIt.Here() && NoLeaf(nodeIt.tree, from, nodeIt.pos - 1)
        invariant failed.SeekFailed? && (ok || nodeIt.err == End) ==> AtSeek(nodeIt.tree, from, Unpack(failed.key))
        invariant !failed.SeekFailed? ==> from == old(nodeIt.pos)
        invariant old(nodeIt.err == End || (nodeIt.err == Fine && nodeIt.Complete())) ==>
                    nodeIt.err in {Fine, End} && (ok ==> nodeIt.Complete())
        invariant !ok ==> nodeIt.err != Fine
        invariant !ok && nodeIt.err == End ==> NoLeaf(nodeIt.tree, from, |All(nodeIt.tree)|)
        decreases |All(nodeIt.tree)| - nodeIt.pos, ok
      {
        HereFacts(nodeIt);
        var leaf := nodeIt.Leaf();
        if leaf {
          Read();
          return true;
        }
        PassNode(nodeIt, from);
        Bounded(nodeIt);
        ok := nodeIt.Next(true);
        if ok { HereFacts(nodeIt); }
      }
      key, value := [], [];
    }

    /** Takes key and value from the leaf that the node iterator is at. */
    method Read()
      requires nodeIt.Valid() && nodeIt.Here() && WholeKeys(nodeIt.tree) && HasTerm(nodeIt.path)
      modifies `key, `value
      ensures Entry(nodeIt.tree, nodeIt.pos, key, value)
    {
      hide NodeIterator.Valid, NodeIterator.Here, Entry, WholeKeys, KeyHex, HasTerm, Lookup;
      key := nodeIt.LeafKey();
      value := nodeIt.LeafBlob();
      EntryOf(nodeIt, key, value);
    }
  }

  lemma AtEnd(it: NodeIterator)
    requires it.Valid() && it.err == End
    ensures it.pos == |All(it.tree)|
  {
  }

  /** Nothing but inner nodes from one position up to another. */
  ghost predicate NoLeaf(tree: Tree, from: int, to: int) {
    0 <= from <= to <= |All(tree)| && Leaves(Between(tree, from, to)) == []
  }

  lemma NoLeaves(tree: Tree, n: nat)
    requires n <= |All(tree)|
    ensures NoLeaf(tree, n, n)
  {
    assert Between(tree, n, n) == [];
  }

  lemma PassNode(it: NodeIterator, from: nat)
    requires it.Valid() && it.Here() && !HasTerm(it.path) && NoLeaf(it.tree, from, it.pos - 1)
    ensures NoLeaf(it.tree, from, it.pos)
  {
    hide StackOk, All, Leaves, Rest, Branch, HasTerm, Denotes;
    LeafHere(Top(it.stack).node, it.path, it.tree, it.pos);
    BetweenNext(it.tree, from, it.pos - 1);
  }

  lemma HereFacts(it: NodeIterator)
    requires it.Here()
    ensures it.err == Fine && 0 < it.pos <= |All(it.tree)|
  {
  }

  lemma TrieOf(it: NodeIterator)
    requires it.Valid()
    ensures it.trie.Valid()
  {
  }

  lemma Bounded(it: NodeIterator)
    requires it.Valid()
    ensures it.pos <= |All(it.tree)| && (it.err == End ==> it.pos == |All(it.tree)|)
    ensures it.Ahead(true) == [] ==> it.pos == |All(it.tree)|
  {
    hide StackOk, All;
  }

  lemma EntryOf(it: NodeIterator, key: Bytes, value: Bytes)
    requires it.Valid() && it.Here() && KeyHex(key) == it.path && Lookup(it.tree, it.path) == Some(value) && HasTerm(it.path)
    ensures Entry(it.tree, it.pos, key, value)
  {
    hide StackOk, All, KeyHex;
    LeafHere(Top(it.stack).node, it.path, it.tree, it.pos);
    EntryAt(it.path, Top(it.stack).node.bytes, it.tree, it.pos);
  }

  /** The entry that a leaf stands for. */
  ghost predicate Entry(tree: Tree, pos: nat, key: Bytes, value: Bytes) {
    0 < pos <= |All(tree)| && All(tree)[pos - 1] == V.Visit(KeyHex(key), Leaf(value))
  }

  // ---------- a whole iteration ----------

  /** The entry of a leaf. */
  ghost function EntryFor(v: Visit): (Bytes, Bytes) {
    if IsKey(v.path) && v.tree.Leaf? then (KeyBytes(v.path), v.tree.value) else ([], [])
  }

  /** The entries of the leaves between two positions. */
  ghost predicate Collected(entries: seq<(Bytes, Bytes)>, tree: Tree, from: nat, to: nat) {
    && from <= to <= |All(tree)|
    && |entries| == |Leaves(Between(tree, from, to))|
    && forall i | 0 <= i < |entries| :: entries[i] == EntryFor(Leaves(Between(tree, from, to))[i])
  }

  lemma CollectedNext(entries: seq<(Bytes, Bytes)>, tree: Tree, from: nat, to: nat, pos: nat, key: Bytes, value: Bytes)
    requires Collected(entries, tree, from, to) && NoLeaf(tree, to, pos - 1) && pos > 0
    requires Entry(tree, pos, key, value)
    ensures Collected(entries + [(key, value)], tree, from, pos)
  {
    hide Leaves, All, KeyHex;
    LeavesOver(tree, from, to, pos - 1);
    BetweenNext(tree, from, pos - 1);
    KeyRoundTrip(key);
    assert EntryFor(All(tree)[pos - 1]) == (key, value);
  }

  lemma LeavesOver(tree: Tree, from: nat, to: nat, pos: nat)
    requires from <= to <= pos <= |All(tree)| && Leaves(Between(tree, to, pos)) == []
    ensures Leaves(Between(tree, from, pos)) == Leaves(Between(tree, from, to))
  {
    assert All(tree)[from..pos] == All(tree)[from..to] + All(tree)[to..pos];
    LeavesJoin(All(tree)[from..to], All(tree)[to..pos]);
  }

  lemma {:induction false} LeavesJoin(a: seq<Visit>, b: seq<Visit>)
    ensures Leaves(a + b) == Leaves(a) + Leaves(b)
  {
    if a == [] {
      assert a + b == b;
    } else {
      LeavesJoin(a[1..], b);
      assert (a + b)[1..] == a[1..] + b && (a + b)[0] == a[0];
      var head := if a[0].tree.Leaf? then [a[0]] else [];
      assert head + (Leaves(a[1..]) + Leaves(b)) == head + Leaves(a[1..]) + Leaves(b);
    }
  }

  /** The entries in the order of their keys, and which they are. */
  ghost predicate AllEntries(entries: seq<(Bytes, Bytes)>, tree: Tree, start: Bytes) {
    && (forall i, j | 0 <= i < j < |entries| :: V.Precedes(entries[i].0, entries[j].0))
    && (forall k: Bytes, v: Bytes ::
          (k, v) in entries <==> Lookup(tree, KeyHex(k)) == Some(v) && (k <= start || V.Compare(k, start) >= 0))
  }

  lemma CollectedAll(entries: seq<(Bytes, Bytes)>, tree: Tree, from: nat, start: Bytes)
    requires Canonical(tree) && WholeKeys(tree) && AtSeek(tree, from, Unpack(start))
    requires Collected(entries, tree, from, |All(tree)|)
    ensures AllEntries(entries, tree, start)
  {
    hide V.Compare, All, Leaves, KeyHex, V.PreOrder, V.Precedes, Unpack;
    CollectedPaths(entries, tree, from, Unpack(start));
    forall i, j | 0 <= i < j < |entries| ensures V.Precedes(entries[i].0, entries[j].0) {
      V.KeyOrder(entries[i].0, entries[j].0);
    }
    forall k: Bytes, v: Bytes
      ensures (k, v) in entries <==> Lookup(tree, KeyHex(k)) == Some(v) && (k <= start || V.Compare(k, start) >= 0)
    {
      V.StartOrder(k, start);
    }
  }

  /** The same by paths. */
  lemma CollectedPaths(entries: seq<(Bytes, Bytes)>, tree: Tree, from: nat, key: Hex)
    requires Canonical(tree) && WholeKeys(tree) && AtSeek(tree, from, key) && Collected(entries, tree, from, |All(tree)|)
    ensures forall i, j | 0 <= i < j < |entries| :: V.Compare(KeyHex(entries[i].0), KeyHex(entries[j].0)) < 0
    ensures forall k: Bytes, v: Bytes ::
              (k, v) in entries <==> Lookup(tree, KeyHex(k)) == Some(v) && V.Compare(KeyHex(k), key) >= 0
  {
    hide V.Compare, All, Leaves, KeyHex, V.PreOrder;
    var all := All(tree);
    var ls := Leaves(Between(tree, from, |all|));
    assert V.Sorted(Between(tree, from, |all|)) by { AllSorted(tree); SortedFrom(all, from); }
    LeavesSorted(Between(tree, from, |all|));
    forall i | 0 <= i < |ls| ensures LeafAt(tree, from, key, ls[i]) && KeyHex(entries[i].0) == ls[i].path {
      LeafIs(tree, from, key, ls[i]);
    }
    forall k: Bytes, v: Bytes | Lookup(tree, KeyHex(k)) == Some(v) && V.Compare(KeyHex(k), key) >= 0 ensures (k, v) in entries {
      var i := EntryListed(tree, from, key, k, v);
      assert entries[i] == (k, v);
    }
    forall k: Bytes, v: Bytes | (k, v) in entries ensures Lookup(tree, KeyHex(k)) == Some(v) && V.Compare(KeyHex(k), key) >= 0 {
      var i :| 0 <= i < |entries| && entries[i] == (k, v);
      assert LeafAt(tree, from, key, ls[i]);
    }
  }

  lemma AllSorted(tree: Tree)
    requires Canonical(tree)
    ensures V.Sorted(All(tree))
  {
    V.PreOrderSorted(tree, []);
  }

  lemma SortedFrom(vs: seq<Visit>, from: nat)
    requires V.Sorted(vs) && from <= |vs|
    ensures V.Sorted(vs[from..|vs|])
  {
    hide V.Compare;
  }

  /** A leaf from the start on: a whole key that the tree maps to the leaf's value. */
  ghost predicate LeafAt(tree: Tree, from: nat, key: Hex, v: Visit) {
    && v.tree.Leaf? && IsKey(v.path) && Lookup(tree, v.path) == Some(v.tree.value) && V.Compare(v.path, key) >= 0
    && KeyHex(KeyBytes(v.path)) == v.path
  }

  lemma LeafIs(tree: Tree, from: nat, key: Hex, v: Visit)
    requires Canonical(tree) && WholeKeys(tree) && AtSeek(tree, from, key) && v in Leaves(Between(tree, from, |All(tree)|))
    ensures LeafAt(tree, from, key, v)
  {
    hide V.Compare, All, KeyHex, Leaves;
    LeavesIn(Between(tree, from, |All(tree)|), v);
    var i :| from <= i < |All(tree)| && All(tree)[i] == v;
    EntryHere(v.path, v.tree.value, tree, i + 1);
  }

  lemma EntryListed(tree: Tree, from: nat, key: Hex, k: Bytes, v: Bytes) returns (i: nat)
    requires Canonical(tree) && AtSeek(tree, from, key) && Lookup(tree, KeyHex(k)) == Some(v) && V.Compare(KeyHex(k), key) >= 0
    ensures i < |Leaves(Between(tree, from, |All(tree)|))|
    ensures EntryFor(Leaves(Between(tree, from, |All(tree)|))[i]) == (k, v)
  {
    hide V.Compare, V.PreOrder, KeyHex, Leaves, Lookup;
    var visit := V.Visit(KeyHex(k), Leaf(v));
    V.EntryVisited(tree, [], KeyHex(k));
    assert [] + KeyHex(k) == KeyHex(k);
    var j :| 0 <= j < |All(tree)| && All(tree)[j] == visit;
    assert j >= from;
    assert Between(tree, from, |All(tree)|)[j - from] == visit;
    LeavesIn(Between(tree, from, |All(tree)|), visit);
    i :| 0 <= i < |Leaves(Between(tree, from, |All(tree)|))| && Leaves(Between(tree, from, |All(tree)|))[i] == visit;
    KeyRoundTrip(k);
  }

  /**
   Iterating over a complete trie from a start key yields exactly the entries whose key is not
   below the start key, or a prefix of it, each once, extensions before their prefixes and
   otherwise in the order of their bytes.
   */
  method Entries(trie: Trie, start: Bytes) returns (entries: seq<(Bytes, Bytes)>)
    requires trie.Valid() && trie.Complete() && WholeKeys(Denotes(trie.root))
    modifies trie`root
    ensures trie.Valid() && Denotes(trie.root) == old(Denotes(trie.root))
    ensures AllEntries(entries, Denotes(trie.root), start)
  {
    hide Trie.Valid, Trie.Complete, NodeIterator.Valid, NodeIterator.Complete, NodeIterator.Here, Denotes, AtSeek;
    hide Collected, AllEntries;
    hide Entry, WholeKeys, Leaves, All, Unpack;
    var nodeIt := NodeIterator.New(trie, start);
    var it := new Iterator(nodeIt);
    entries := [];
    ghost var from := nodeIt.pos;
    Bounded(nodeIt);
    CollectedNone(nodeIt.tree, from);
    ghost var to := from;
    var ok := it.Next();
    while ok
      invariant it.nodeIt == nodeIt && nodeIt.trie == trie && nodeIt.Valid() && trie.Valid() && Denotes(trie.root) == nodeIt.tree
      invariant nodeIt.err in {Fine, End} && (ok ==> nodeIt.err == Fine && nodeIt.Complete())
      invariant Collected(entries, nodeIt.tree, from, to)
      invariant ok ==> to < nodeIt.pos <= |All(nodeIt.tree)| && NoLeaf(nodeIt.tree, to, nodeIt.pos - 1)
      invariant ok ==> Entry(nodeIt.tree, nodeIt.pos, it.key, it.value)
      invariant !ok ==> NoLeaf(nodeIt.tree, to, |All(nodeIt.tree)|)
      decreases |All(nodeIt.tree)| - to, ok
    {
      CollectedNext(entries, nodeIt.tree, from, to, nodeIt.pos, it.key, it.value);
      entries := entries + [(it.key, it.value)];
      to := nodeIt.pos;
      Bounded(nodeIt);
      ok := it.Next();
    }
    CollectedDone(entries, nodeIt.tree, from, to);
    IteratorTree(nodeIt);
    CollectedAll(entries, nodeIt.tree, from, start);
  }

  lemma CollectedNone(tree: Tree, from: nat)
    requires from <= |All(tree)|
    ensures Collected([], tree, from, from)
  {
    NoLeaves(tree, from);
  }

  lemma CollectedDone(entries: seq<(Bytes, Bytes)>, tree: Tree, from: nat, to: nat)
    requires Collected(entries, tree, from, to) && NoLeaf(tree, to, |All(tree)|)
    ensures Collected(entries, tree, from, |All(tree)|)
  {
    hide Leaves, All;
    LeavesOver(tree, from, to, |All(tree)|);
  }

  lemma IteratorTree(it: NodeIterator)
    requires it.Valid()
    ensures Canonical(it.tree)
  {
  }
}
