/** The stack-based node iterator and the iterators built on it. */
module TrieIterator {
  import opened Bytes
  import opened HexPrefix
  import opened Patricia
  import opened NodeCodec
  import opened TrieHasher
  import opened Trie
  import opened TrieWalk

  /** The nodes on the way to the current one, innermost first: each with the child visited last,
      the length of its parent's path, and the tree it stands for. */
  datatype Stack = Bottom | On(node: Node, index: int, pathlen: nat, ghost tree: Tree, below: Stack)

  ghost predicate Stacked(s: Stack, path: Bytes) {
    match s
    case Bottom => path == []
    case On(_, i, len, _, below) => i >= -1 && len <= |path| && Stacked(below, path[..len])
  }

  /** The rest of the walk: below the top node from its next child on, then below the nodes under it. */
  ghost function Rest(s: Stack, path: Bytes): seq<Visit>
    requires Stacked(s, path)
  {
    match s
    case Bottom => []
    case On(_, i, len, t, below) => WalkBelow(t, path, i + 1) + Rest(below, path[..len])
  }

  /** A child put on top; the index of the node below moves on. */
  ghost function Pushed(s: Stack, len: nat, c: Node, t: Tree): Stack {
    On(c, -1, len, t, if s.Bottom? then s else s.(index := s.index + 1))
  }

  /** A child pushed on the stack takes its part of the walk with it. */
  lemma {:induction false} RestAfterPush(s: Stack, path: Bytes, c: Node, t: Tree, path': Bytes)
    requires s.On? && Stacked(s, path) && path <= path'
    requires WalkBelow(s.tree, path, s.index + 1) == Walk(t, path') + WalkBelow(s.tree, path, s.index + 2)
    ensures var s' := Pushed(s, |path|, c, t);
            Stacked(s', path') && Rest(s, path) == [Visit(path', t)] + Rest(s', path')
  {
    hide Walk, WalkBelow, Rest, Stacked;
    var s' := Pushed(s, |path|, c, t);
    StackedAfterPush(s, path, c, t, path');
    WalkFirst(t, path');
    RestTop(s, path);
    RestTop(s', path');
    RestTop(s'.below, path);
    Glue([Visit(path', t)], WalkBelow(t, path', 0), WalkBelow(s.tree, path, s.index + 2),
      Rest(s.below, path[..s.pathlen]),
         WalkBelow(s.tree, path, s.index + 1), Rest(s'.below, path), Rest(s', path'));
  }

  lemma {:induction false} StackedAfterPush(s: Stack, path: Bytes, c: Node, t: Tree, path': Bytes)
    requires s.On? && Stacked(s, path) && path <= path'
    ensures path'[..|path|] == path && s.index >= -1
    ensures Stacked(s.(index := s.index + 1), path) && Stacked(Pushed(s, |path|, c, t), path')
  {
    assert path'[..|path|] == path;
  }

  lemma {:induction false} Glue(v: seq<Visit>, a: seq<Visit>, b: seq<Visit>, d: seq<Visit>, x: seq<Visit>,
                                y: seq<Visit>, z: seq<Visit>)
    requires x == v + a + b && y == b + d && z == a + y
    ensures x + d == v + z
  {
    Concat4Visits(v, a, b, d);
  }

  lemma {:induction false} RestTop(s: Stack, path: Bytes)
    requires s.On? && Stacked(s, path)
    ensures s.index >= -1 && s.pathlen <= |path| && Stacked(s.below, path[..s.pathlen])
    ensures Rest(s, path) == WalkBelow(s.tree, path, s.index + 1) + Rest(s.below, path[..s.pathlen])
  {
    hide Walk, WalkBelow;
  }

  lemma {:induction false} WalkFirst(t: Tree, path: Bytes)
    ensures Walk(t, path) == [Visit(path, t)] + WalkBelow(t, path, 0)
  {
  }

  lemma {:induction false} Concat4Visits(a: seq<Visit>, b: seq<Visit>, c: seq<Visit>, d: seq<Visit>)
    ensures ((a + b) + c) + d == a + (b + (c + d))
  {
  }

  lemma {:induction false} RestOfRoot(c: Node, t: Tree)
    ensures var s := Pushed(Bottom, 0, c, t);
            Stacked(s, []) && Walk(t, []) == [Visit([], t)] + Rest(s, [])
  {
    assert WalkBelow(t, [], 0) + [] == WalkBelow(t, [], 0);
  }

  lemma {:induction false} EmptySlotsAreSkipped(t: Tree, path: Bytes, i: nat, j: nat)
    requires t.Full? && |t.children| == 17 && i <= j <= 17
    requires forall k :: i <= k < j ==> t.children[k] == Nil
    ensures WalkBelow(t, path, i) == WalkBelow(t, path, j)
    decreases j - i
  {
    if i < j {
      assert WalkBelow(t, path, i) == WalkBelow(t, path, i + 1);
      hide Walk, WalkBelow;
      EmptySlotsAreSkipped(t, path, i + 1, j);
    }
  }

  // ---- nodes on the stack ----

  /** The node, at the root or below, stands for the tree. */
  ghost predicate Stands(n: Node, t: Tree, db: Store, H: Hasher) {
    && (Rep(n, t, db, H, true) || Rep(n, t, db, H, false))
    && (t == Nil || t.Leaf? || Canonical(t))
  }

  ghost predicate AllStand(s: Stack, db: Store, H: Hasher) {
    s.On? ==> Stands(s.node, s.tree, db, H) && !s.node.HashNode? && AllStand(s.below, db, H)
  }

  lemma {:induction false} ChildStands(n: Node, t: Tree, i: nat, db: Store, H: Hasher)
    requires n.FullNode? && Stands(n, t, db, H) && i < |n.children|
    ensures t.Full? && Canonical(t) && |t.children| == |n.children| == 17
    ensures t.children[i] == Nil <==> n.children[i] == NilNode
    ensures t.children[i] != Nil ==> Stands(n.children[i], t.children[i], db, H)
  {
    assert Rep(n.children[i], t.children[i], db, H, false);
    if t.children[i] != Nil {
      EntryWalks(t.children, i);
    }
  }

  lemma {:induction false} NoMoreEntries(n: Node, t: Tree, path: Bytes, i: nat, db: Store, H: Hasher)
    requires n.FullNode? && Stands(n, t, db, H)
    requires forall k :: i <= k < |n.children| ==> n.children[k] == NilNode
    ensures WalkBelow(t, path, i) == []
  {
    assert t.Full? && |t.children| == |n.children| == 17;
    if i < 17 {
      forall k | i <= k < 17
        ensures t.children[k] == Nil
      {
        ChildStands(n, t, k, db, H);
      }
      EmptySlotsAreSkipped(t, path, i, 17);
    }
  }

  lemma {:induction false} EntryComesNext(n: Node, t: Tree, path: Bytes, from: nat, i: nat, db: Store, H: Hasher)
    requires n.FullNode? && Stands(n, t, db, H) && from <= i < |n.children| && n.children[i] != NilNode
    requires forall k :: from <= k < i ==> n.children[k] == NilNode
    ensures t.Full? && |t.children| == |n.children| == 17 && Stands(n.children[i], t.children[i], db, H)
    ensures WalkBelow(t, path, from) == WalkBelow(t, path, i)
    ensures WalkBelow(t, path, i) == Walk(t.children[i], path + [i]) + WalkBelow(t, path, i + 1)
  {
    forall k | from <= k <= i
      ensures k < 17 == |n.children| && t.Full? && |t.children| == 17
              && (t.children[k] == Nil <==> n.children[k] == NilNode)
    {
      ChildStands(n, t, k, db, H);
    }
    ChildStands(n, t, i, db, H);
    EmptySlotsAreSkipped(t, path, from, i);
  }

  lemma {:induction false} ValComesNext(n: Node, t: Tree, path: Bytes, db: Store, H: Hasher)
    requires n.ShortNode? && Stands(n, t, db, H)
    ensures t.Short? && t.key == n.key && Stands(n.val, t.val, db, H)
    ensures WalkBelow(t, path, 0) == Walk(t.val, path + n.key) + WalkBelow(t, path, 1)
  {
    ShortParts(t);
    assert Rep(n.val, t.val, db, H, false);
    assert Walk(t.val, path + n.key) + [] == Walk(t.val, path + n.key);
  }

  /** Loads the node if it is a hash. */
  method ResolveState(n: Node, ghost t: Tree, db: Store, gen: nat, ghost H: Hasher, ghost blobs: set<Bytes>)
    returns (n': Node)
    requires Stands(n, t, db, H) && Sound(db, H, blobs) && NoCollisions(H, blobs)
    ensures Stands(n', t, db, H) && !n'.HashNode?
  {
    n' := n;
    if n.HashNode? {
      ghost var r := Rep(n, t, db, H, true);
      ResolveIsRight(n.hash, t, db, gen, H, r, blobs);
      n' := ResolveHash(n.hash, db, gen).value;
    }
  }

  /** A visit found but not made yet. */
  ghost predicate Pending(s: Stack, path: Bytes, c: Node, path': Bytes, t: Tree, rest: seq<Visit>, db: Store,
                          H: Hasher) {
    && Stands(c, t, db, H) && !c.HashNode?
    && var s' := Pushed(s, |path|, c, t);
    Stacked(s', path') && rest == [Visit(path', t)] + Rest(s', path')
  }

  // ---- the iterator ----

  class NodeIterator {
    const root: Node
    const db: Store
    const gen: nat
    ghost const H: Hasher
    ghost const tree: Tree
    ghost const blobs: set<Bytes>
    var stack: Stack
    var path: Bytes
    var ended: bool

    ghost predicate Valid()
      reads this
    {
      && Rep(root, tree, db, H, true) && CanonicalRoot(tree)
      && Sound(db, H, blobs) && NoCollisions(H, blobs)
      && Stacked(stack, path) && AllStand(stack, db, H)
    }

    /** What is still to be visited. */
    ghost function Remaining(): seq<Visit>
      requires Valid()
      reads this
    {
      if ended then [] else if stack.Bottom? then Walk(tree, []) else Rest(stack, path)
    }

    constructor (root: Node, db: Store, gen: nat, ghost H: Hasher, ghost tree: Tree, ghost blobs: set<Bytes>)
      requires Rep(root, tree, db, H, true) && CanonicalRoot(tree)
      requires Sound(db, H, blobs) && NoCollisions(H, blobs)
      ensures Valid() && !ended && stack == Bottom && path == [] && this.tree == tree && Remaining() == Walk(tree, [])
    {
      this.root, this.db, this.gen := root, db, gen;
      this.H, this.tree, this.blobs := H, tree, blobs;
      stack, path, ended := Bottom, [], false;
    }

    method Pop()
      requires Valid() && stack.On?
      modifies this`stack, this`path
      ensures Valid() && stack == old(stack.below) && path == old(path)[..old(stack).pathlen]
    {
      path := path[..stack.pathlen];
      stack := stack.below;
    }

    /** The next child of the top node, empty entries skipped. */
    method NextChild() returns (r: Option<(Node, Bytes)>, ghost t: Tree)
      requires Valid() && stack.On?
      modifies this`stack
      ensures Valid() && stack.On? && stack.below == old(stack).below
      ensures r.None? ==> stack == old(stack) && WalkBelow(stack.tree, path, stack.index + 1) == []
      ensures r.Some? ==> Rest(stack, path) == old(Rest(stack, path))
      ensures r.Some? ==> Pending(stack, path, r.value.0, r.value.1, t, Rest(stack, path), db, H)
    {
      hide Rep, Canonical, Walk, WalkBelow, Stands;
      r, t := None, Nil;
      match stack.node {
        case FullNode(cs, _) => r, t := NextEntry();
        case ShortNode(k, val, _) =>
          ValComesNext(stack.node, stack.tree, path, db, H);
          NothingAfterVal(stack.tree, path, stack.index + 1);
          if stack.index < 0 {
            r, t := FoundBelow();
          }
        case NilNode => LeafStands(stack.node, stack.tree, path, stack.index + 1);
        case ValueNode(_) => LeafStands(stack.node, stack.tree, path, stack.index + 1);
      }
    }

    lemma {:induction false} NothingAfterVal(t: Tree, path: Bytes, i: nat)
      requires t.Short?
      ensures i > 0 ==> WalkBelow(t, path, i) == []
    {
    }

    method NextEntry() returns (r: Option<(Node, Bytes)>, ghost t: Tree)
      requires Valid() && stack.On? && stack.node.FullNode?
      modifies this`stack
      ensures Valid() && stack.On? && stack.below == old(stack).below
      ensures r.None? ==> stack == old(stack) && WalkBelow(stack.tree, path, stack.index + 1) == []
      ensures r.Some? ==> Rest(stack, path) == old(Rest(stack, path))
      ensures r.Some? ==> Pending(stack, path, r.value.0, r.value.1, t, Rest(stack, path), db, H)
    {
      hide Rep, Canonical, Walk, WalkBelow, Stands, Rest, Pending;
      r, t := None, Nil;
      var cs, i := stack.node.children, stack.index + 1;
      while i < |cs| && cs[i] == NilNode
        invariant stack.index + 1 <= i
        invariant forall k :: stack.index + 1 <= k < i && k < |cs| ==> cs[k] == NilNode
      {
        i := i + 1;
      }
      if i < |cs| {
        r, t := FoundEntry(i);
      } else {
        NoMoreEntries(stack.node, stack.tree, path, stack.index + 1, db, H);
      }
    }

    lemma {:induction false} LeafStands(n: Node, t: Tree, path: Bytes, i: nat)
      requires Stands(n, t, db, H) && (n.NilNode? || n.ValueNode?)
      ensures WalkBelow(t, path, i) == []
    {
    }

    method FoundEntry(i: nat) returns (r: Option<(Node, Bytes)>, ghost t: Tree)
      requires Valid() && stack.On? && stack.node.FullNode?
      requires stack.index + 1 <= i < |stack.node.children| && stack.node.children[i] != NilNode
      requires forall k :: stack.index + 1 <= k < i ==> stack.node.children[k] == NilNode
      modifies this`stack
      ensures Valid() && stack.On? && stack.below == old(stack).below
      ensures Rest(stack, path) == old(Rest(stack, path))
      ensures r.Some? && Pending(stack, path, r.value.0, r.value.1, t, Rest(stack, path), db, H)
    {
      hide WalkBelow, Walk, Rep, Canonical, Stands;
      EntryComesNext(stack.node, stack.tree, path, stack.index + 1, i, db, H);
      t := stack.tree.children[i];
      var child := ResolveState(stack.node.children[i], t, db, gen, H, blobs);
      var path': Bytes := path + [i];
      stack := stack.(index := i - 1);
      RestAfterPush(stack, path, child, t, path');
      r := Some((child, path'));
    }

    method FoundBelow() returns (r: Option<(Node, Bytes)>, ghost t: Tree)
      requires Valid() && stack.On? && stack.node.ShortNode? && stack.index == -1
      ensures r.Some? && Pending(stack, path, r.value.0, r.value.1, t, Rest(stack, path), db, H)
    {
      hide WalkBelow, Walk, Rep, Canonical, Stands;
      ValComesNext(stack.node, stack.tree, path, db, H);
      t := stack.tree.val;
      var child := ResolveState(stack.node.val, t, db, gen, H, blobs);
      var path' := path + stack.node.key;
      RestAfterPush(stack, path, child, t, path');
      r := Some((child, path'));
    }

    /** Finds the next visit without making it; `descend` says whether to go below the current node. */
    method Peek(descend: bool) returns (r: Option<(Node, Bytes)>, ghost t: Tree, ghost rest: seq<Visit>)
      requires Valid() && !ended
      modifies this`stack, this`path
      ensures Valid()
      ensures rest == if old(stack).Bottom? then Walk(tree, [])
                      else if descend then Rest(old(stack), old(path))
                      else Rest(old(stack).below, old(path)[..old(stack).pathlen])
      ensures r.None? ==> rest == [] && stack.Bottom?
      ensures r.Some? ==> Pending(stack, path, r.value.0, r.value.1, t, rest, db, H)
      ensures r.Some? ==> (old(stack).Bottom? <==> stack.Bottom?) && (stack.On? ==> rest == Rest(stack, path))
    {
      hide WalkBelow, Walk, Rep, Canonical;
      t := Nil;
      if stack.Bottom? {
        var n := ResolveState(root, tree, db, gen, H, blobs);
        t, rest := tree, Walk(tree, []);
        RestOfRoot(n, tree);
        return Some((n, [])), t, rest;
      }
      if !descend {
        Pop();
      }
      rest := Rest(stack, path);
      while stack.On?
        invariant Valid() && rest == Rest(stack, path)
        decreases stack
      {
        r, t := NextChild();
        if r.Some? {
          return;
        }
        Pop();
        assert [] + Rest(stack, path) == Rest(stack, path);
      }
      r := None;
    }

    /** Makes a visit that was found. */
    method Push(n: Node, path': Bytes, ghost t: Tree, ghost rest: seq<Visit>)
      requires Valid() && !ended && Pending(stack, path, n, path', t, rest, db, H)
      modifies this`stack, this`path
      ensures Valid() && stack.On? && path == path' && Remaining() == rest[1..]
      ensures stack.tree == t && stack.index == -1
    {
      hide WalkBelow, Walk, Rep, Canonical, Stands;
      if stack.On? {
        stack := stack.(index := stack.index + 1);
      }
      assert AllStand(stack, db, H);
      stack := On(n, -1, |path|, t, stack);
      path := path';
    }

    /** What is still to be visited, with or without what lies below the current node. */
    ghost function Ahead(descend: bool): seq<Visit>
      requires Valid()
      reads this
    {
      if ended || stack.Bottom? || descend then Remaining() else Rest(stack.below, path[..stack.pathlen])
    }

    /** Not descending leaves out exactly what lies below the current node. */
    lemma {:induction false} SkippedBelow()
      requires Valid() && !ended && stack.On?
      ensures Remaining() == WalkBelow(stack.tree, path, stack.index + 1) + Ahead(false)
    {
      hide Walk, WalkBelow;
      RestTop(stack, path);
    }

    /** Moves to the next node of the walk, which lies below the current one only if asked to descend. */
    method Next(descend: bool) returns (ok: bool)
      requires Valid()
      modifies this`stack, this`path, this`ended
      ensures Valid()
      ensures ok <==> old(Ahead(descend)) != []
      ensures !ok ==> ended
      ensures ok ==>
                && !ended && stack.On? && stack.index == -1 && Remaining() == old(Ahead(descend))[1..]
                && old(Ahead(descend))[0] == Visit(path, stack.tree)
    {
      hide WalkBelow, Walk, Rep, Canonical, Stands;
      if ended {
        return false;
      }
      var r, t, rest := Peek(descend);
      if r.None? {
        ended := true;
        return false;
      }
      Push(r.value.0, r.value.1, t, rest);
      return true;
    }

    /** Whether the iterator is at a leaf. */
    predicate Leaf()
      reads this
    {
      HasTerm(path)
    }

    /** The value of the leaf the iterator is at. */
    method LeafBlob() returns (v: Bytes)
      requires Valid() && stack.On? && stack.tree.Leaf?
      ensures v == stack.tree.value
    {
      v := stack.node.value;
    }

    /** Moves forward until just before the first node at or after the key. */
    method Seek(key: Bytes)
      requires Valid() && !ended && stack == Bottom
      modifies this`stack, this`path, this`ended
      ensures Valid() && Remaining() == From(Walk(tree, []), key)
    {
      hide WalkBelow, Walk, Rep, Canonical, Stacked, Rest, From;
      WalkAscendsFromRoot(tree);
      while true
        invariant Valid() && !ended && Ascending(Remaining())
        invariant From(Remaining(), key) == From(Walk(tree, []), key)
        invariant stack.On? ==> stack.index == -1 && Less(path, key)
        decreases |Remaining()|
      {
        ghost var all := Remaining();
        ghost var dropped := [];
        var descend := path <= key;
        if stack.On? && !descend {
          dropped := WalkBelow(stack.tree, path, 0);
          RestTop(stack, path);
          SkippedAreSmaller(stack.node, stack.tree, path, key, db, H);
        }
        var r, t, rest := Peek(descend);
        assert all == dropped + rest;
        FromDropsSmaller(dropped, rest, key);
        AscendingSuffix(dropped, rest);
        if r.None? || !Less(r.value.1, key) {
          ended := r.None?;
          FromKeepsAll(rest, key);
          return;
        }
        FromDropsSmaller([rest[0]], rest[1..], key);
        assert rest == [rest[0]] + rest[1..];
        AscendingSuffix([rest[0]], rest[1..]);
        Push(r.value.0, r.value.1, t, rest);
      }
    }
  }

  lemma {:induction false} WalkAscendsFromRoot(t: Tree)
    requires CanonicalRoot(t)
    ensures Ascending(Walk(t, []))
  {
    if t != Nil {
      WalkAscends(t, []);
    }
  }

  // ---- starting at a key ----

  /** The visits at or after a key. */
  ghost function From(vs: seq<Visit>, key: Bytes): seq<Visit> {
    if vs == [] then [] else if Less(vs[0].path, key) then From(vs[1..], key) else [vs[0]] + From(vs[1..], key)
  }

  lemma {:induction false} FromDropsSmaller(a: seq<Visit>, b: seq<Visit>, key: Bytes)
    requires forall v :: v in a ==> Less(v.path, key)
    ensures From(a + b, key) == From(b, key)
  {
    if a == [] {
      assert a + b == b;
    } else {
      FromDropsSmaller(a[1..], b, key);
      assert (a + b)[1..] == a[1..] + b;
    }
  }

  lemma {:induction false} FromKeepsAll(vs: seq<Visit>, key: Bytes)
    requires Ascending(vs) && (vs == [] || !Less(vs[0].path, key))
    ensures From(vs, key) == vs
  {
    if |vs| > 1 {
      if Less(vs[1].path, key) {
        LessTransitive(vs[0].path, vs[1].path, key);
      }
      AscendingSuffix([vs[0]], vs[1..]);
      FromKeepsAll(vs[1..], key);
    }
  }

  lemma {:induction false} AscendingSuffix(a: seq<Visit>, b: seq<Visit>)
    requires Ascending(a + b)
    ensures Ascending(b)
  {
    forall i, j | 0 <= i < j < |b|
      ensures Less(b[i].path, b[j].path)
    {
      assert b[i] == (a + b)[|a| + i] && b[j] == (a + b)[|a| + j];
    }
  }

  /** A node before the key that does not lead to it: everything below it is before the key. */
  lemma {:induction false} SkippedAreSmaller(n: Node, t: Tree, path: Bytes, key: Bytes, db: Store, H: Hasher)
    requires Stands(n, t, db, H) && Less(path, key) && !(path <= key)
    ensures forall v :: v in WalkBelow(t, path, 0) ==> Less(v.path, key)
  {
    if t != Nil {
      WalkBelowPaths(t, path, 0);
      forall v | v in WalkBelow(t, path, 0)
        ensures Less(v.path, key)
      {
        assert v.path == path + v.path[|path|..];
        LessExtended(path, v.path[|path|..], key);
      }
    }
  }

  // ---- key-value iteration ----

  datatype Pair = Pair(key: Bytes, value: Bytes)

  /** The leaves among some visits, in order. */
  ghost function Leaves(vs: seq<Visit>): seq<Pair> {
    if vs == [] then []
    else (if vs[0].tree.Leaf? then [Pair(vs[0].path, vs[0].tree.value)] else []) + Leaves(vs[1..])
  }

  /** Visits of a canonical tree, where leaves are told by their terminator. */
  ghost predicate Genuine(vs: seq<Visit>) {
    forall v :: v in vs ==> (HasTerm(v.path) <==> v.tree.Leaf?)
  }

  /** The next key and value, in the order of the walk. */
  method NextPair(it: NodeIterator) returns (r: Option<Pair>)
    requires it.Valid() && Genuine(it.Remaining())
    modifies it`stack, it`path, it`ended
    ensures it.Valid() && Genuine(it.Remaining())
    ensures r.None? ==> Leaves(old(it.Remaining())) == [] && it.ended
    ensures r.Some? ==> Leaves(old(it.Remaining())) == [r.value] + Leaves(it.Remaining())
  {
    hide Walk, WalkBelow, Rest;
    while true
      invariant it.Valid() && Genuine(it.Remaining())
      invariant Leaves(it.Remaining()) == Leaves(old(it.Remaining()))
      decreases |it.Remaining()|
    {
      ghost var all := it.Remaining();
      var ok := it.Next(true);
      if !ok {
        return None;
      }
      assert all[0] in all && forall v :: v in all[1..] ==> v in all;
      if it.Leaf() {
        var v := it.LeafBlob();
        return Some(Pair(it.path, v));
      }
    }
  }

  /** The visits in front that have the prefix. */
  ghost function PrefixRun(vs: seq<Visit>, p: Bytes): seq<Visit> {
    if vs == [] || !(p <= vs[0].path) then [] else [vs[0]] + PrefixRun(vs[1..], p)
  }

  /** The next key and value under a prefix; stops at the first node outside it. */
  method NextPairWithPrefix(it: NodeIterator, p: Bytes) returns (r: Option<Pair>)
    requires it.Valid() && Genuine(it.Remaining())
    modifies it`stack, it`path, it`ended
    ensures it.Valid() && Genuine(it.Remaining())
    ensures r.None? ==> Leaves(PrefixRun(old(it.Remaining()), p)) == []
    ensures r.Some? ==> Leaves(PrefixRun(old(it.Remaining()), p)) == [r.value] + Leaves(PrefixRun(it.Remaining(), p))
  {
    hide Walk, WalkBelow, Rest;
    while true
      invariant it.Valid() && Genuine(it.Remaining())
      invariant Leaves(PrefixRun(it.Remaining(), p)) == Leaves(PrefixRun(old(it.Remaining()), p))
      decreases |it.Remaining()|
    {
      ghost var all := it.Remaining();
      var ok := it.Next(true);
      if !ok || !(p <= it.path) {
        return None;
      }
      assert all[0] in all && forall v :: v in all[1..] ==> v in all;
      assert PrefixRun(all, p)[1..] == PrefixRun(all[1..], p);
      if it.Leaf() {
        var v := it.LeafBlob();
        return Some(Pair(it.path, v));
      }
    }
  }

  // ---- what iteration yields ----

  lemma {:induction false} FromIsFilter(vs: seq<Visit>, key: Bytes, v: Visit)
    ensures v in From(vs, key) <==> v in vs && !Less(v.path, key)
    ensures Ascending(vs) ==> Ascending(From(vs, key))
  {
    if vs != [] {
      FromIsFilter(vs[1..], key, v);
      if Ascending(vs) {
        assert vs == [vs[0]] + vs[1..];
        AscendingSuffix([vs[0]], vs[1..]);
        forall w | w in From(vs[1..], key)
          ensures Less(vs[0].path, w.path)
        {
          FromIsFilter(vs[1..], key, w);
          var j :| 0 <= j < |vs[1..]| && vs[1..][j] == w;
          assert vs[j + 1] == w;
        }
        AscendingJoin([vs[0]], From(vs[1..], key));
      }
    }
  }

  ghost predicate AscendingPairs(ps: seq<Pair>) {
    forall i, j :: 0 <= i < j < |ps| ==> Less(ps[i].key, ps[j].key)
  }

  lemma {:induction false} LeavesOf(vs: seq<Visit>, p: Pair)
    ensures p in Leaves(vs) <==> Visit(p.key, Leaf(p.value)) in vs
    ensures Ascending(vs) ==> AscendingPairs(Leaves(vs))
  {
    if vs != [] {
      LeavesOf(vs[1..], p);
      if Ascending(vs) {
        assert vs == [vs[0]] + vs[1..];
        AscendingSuffix([vs[0]], vs[1..]);
        forall j | 0 <= j < |Leaves(vs[1..])|
          ensures Less(vs[0].path, Leaves(vs[1..])[j].key)
        {
          var q := Leaves(vs[1..])[j];
          LeavesOf(vs[1..], q);
          var k :| 0 <= k < |vs[1..]| && vs[1..][k] == Visit(q.key, Leaf(q.value));
          assert vs[k + 1] == vs[1..][k];
        }
      }
    }
  }

  lemma {:induction false} WalkIsGenuine(t: Tree)
    requires CanonicalRoot(t)
    ensures Genuine(Walk(t, [])) && Ascending(Walk(t, []))
    ensures forall v :: v in Walk(t, []) && v.tree.Leaf? ==> ValidKey(v.path)
  {
    WalkAscendsFromRoot(t);
    if t != Nil {
      WalkTerminators(t, []);
    }
  }

  /** Iterating from a key yields each pair at or after it once, in ascending order, and no other. */
  lemma {:induction false} IterationFromKey(t: Tree, start: Bytes, p: Pair)
    requires CanonicalRoot(t)
    ensures var ps := Leaves(From(Walk(t, []), start));
            && AscendingPairs(ps)
            && (p in ps <==> ValidKey(p.key) && Get(t, p.key) == Some(p.value) && !Less(p.key, start))
  {
    var v := Visit(p.key, Leaf(p.value));
    WalkIsGenuine(t);
    FromIsFilter(Walk(t, []), start, v);
    LeavesOf(From(Walk(t, []), start), p);
    if ValidKey(p.key) {
      WalkMeetsContents(t, [], p.key, p.value);
      assert [] + p.key == p.key;
    }
  }

  /** Collects what is left of an iteration. */
  method Collect(it: NodeIterator) returns (ps: seq<Pair>)
    requires it.Valid() && Genuine(it.Remaining())
    modifies it`stack, it`path, it`ended
    ensures it.Valid() && it.ended && ps == Leaves(old(it.Remaining()))
  {
    hide NodeIterator.Valid, NodeIterator.Remaining, Genuine, Leaves;
    ps := [];
    while true
      invariant it.Valid() && Genuine(it.Remaining()) && ps + Leaves(it.Remaining()) == Leaves(old(it.Remaining()))
      decreases |Leaves(it.Remaining())|
    {
      var r := NextPair(it);
      if r.None? {
        return;
      }
      MovePair(ps, r.value, Leaves(it.Remaining()));
      ps := ps + [r.value];
    }
  }

  lemma {:induction false} MovePair(ps: seq<Pair>, p: Pair, rest: seq<Pair>)
    ensures ps + ([p] + rest) == ps + [p] + rest
  {
  }

  lemma {:induction false} FromIsGenuine(t: Tree, key: Bytes)
    requires CanonicalRoot(t)
    ensures Genuine(From(Walk(t, []), key))
  {
    hide Walk, Canonical, From;
    WalkIsGenuine(t);
    forall v | v in From(Walk(t, []), key)
      ensures HasTerm(v.path) <==> v.tree.Leaf?
    {
      FromIsFilter(Walk(t, []), key, v);
    }
  }

  /** The contents of a trie from a key on: each pair once, in ascending order, and no other. */
  method PairsFrom(root: Node, db: Store, gen: nat, key: Bytes, ghost H: Hasher, ghost tree: Tree,
                   ghost blobs: set<Bytes>)
    returns (ps: seq<Pair>)
    requires Rep(root, tree, db, H, true) && CanonicalRoot(tree)
    requires Sound(db, H, blobs) && NoCollisions(H, blobs)
    ensures AscendingPairs(ps)
    ensures forall p :: p in ps <==> ValidKey(p.key) && Get(tree, p.key) == Some(p.value) && !Less(p.key, key)
  {
    hide Walk, Rep, Canonical, From, Leaves, Genuine, Less, Get, Rest, Stacked, AllStand;
    var it := new NodeIterator(root, db, gen, H, tree, blobs);
    it.Seek(key);
    FromIsGenuine(tree, key);
    ps := Collect(it);
    forall p: Pair
      ensures AscendingPairs(ps)
      ensures p in ps <==> ValidKey(p.key) && Get(tree, p.key) == Some(p.value) && !Less(p.key, key)
    {
      IterationFromKey(tree, key, p);
    }
    IterationFromKey(tree, key, Pair([], []));
  }

  /** Past the prefix there is no way back into it. */
  lemma {:induction false} BeyondPrefix(p: Bytes, a: Bytes, b: Bytes)
    requires !Less(a, p) && !(p <= a) && Less(a, b)
    ensures !(p <= b)
  {
    if p <= b {
      LessTotal(a, p);
      LessExtended(p, b[|p|..], a);
      assert b == p + b[|p|..];
      LessTotal(a, b);
    }
  }

  lemma {:induction false} PrefixRunIsFilter(vs: seq<Visit>, p: Bytes, v: Visit)
    requires Ascending(vs) && forall w :: w in vs ==> !Less(w.path, p)
    ensures v in PrefixRun(vs, p) <==> v in vs && p <= v.path
    ensures Ascending(PrefixRun(vs, p))
  {
    if vs != [] {
      assert vs == [vs[0]] + vs[1..];
      AscendingSuffix([vs[0]], vs[1..]);
      if p <= vs[0].path {
        PrefixRunIsFilter(vs[1..], p, v);
        forall w | w in PrefixRun(vs[1..], p)
          ensures Less(vs[0].path, w.path)
        {
          PrefixRunIsFilter(vs[1..], p, w);
          var j :| 0 <= j < |vs[1..]| && vs[1..][j] == w;
          assert vs[j + 1] == w;
        }
        AscendingJoin([vs[0]], PrefixRun(vs[1..], p));
      } else if v in vs && v != vs[0] {
        var j :| 1 <= j < |vs| && vs[j] == v;
        BeyondPrefix(p, vs[0].path, v.path);
      }
    }
  }

  /** Iterating a prefix yields exactly the pairs whose key has it, in ascending order. */
  lemma {:induction false} IterationOfPrefix(t: Tree, prefix: Bytes, p: Pair)
    requires CanonicalRoot(t)
    ensures var ps := Leaves(PrefixRun(From(Walk(t, []), prefix), prefix));
            && AscendingPairs(ps)
            && (p in ps <==> ValidKey(p.key) && Get(t, p.key) == Some(p.value) && prefix <= p.key)
  {
    hide Walk, WalkBelow, Get, Canonical, From, PrefixRun, Leaves, Less;
    var v, all := Visit(p.key, Leaf(p.value)), Walk(t, []);
    WalkIsGenuine(t);
    FromIsFilter(all, prefix, v);
    forall w | w in From(all, prefix)
      ensures !Less(w.path, prefix)
    {
      FromIsFilter(all, prefix, w);
    }
    PrefixRunIsFilter(From(all, prefix), prefix, v);
    LeavesOf(PrefixRun(From(all, prefix), prefix), p);
    if ValidKey(p.key) {
      WalkMeetsContents(t, [], p.key, p.value);
      assert [] + p.key == p.key;
    }
    if prefix <= p.key {
      PrefixIsNotGreater(prefix, p.key);
    }
  }

  lemma {:induction false} PrefixIsNotGreater(p: Bytes, k: Bytes)
    requires p <= k
    ensures !Less(k, p)
  {
    LessCommonPrefix(p, k[|p|..], []);
    assert p + k[|p|..] == k && p + [] == p;
  }

  /** Collects what is left of an iteration under a prefix. */
  method CollectPrefix(it: NodeIterator, prefix: Bytes) returns (ps: seq<Pair>)
    requires it.Valid() && Genuine(it.Remaining())
    modifies it`stack, it`path, it`ended
    ensures it.Valid() && ps == Leaves(PrefixRun(old(it.Remaining()), prefix))
  {
    hide NodeIterator.Valid, NodeIterator.Remaining, Genuine, Leaves, PrefixRun;
    ps := [];
    while true
      invariant it.Valid() && Genuine(it.Remaining())
      invariant ps + Leaves(PrefixRun(it.Remaining(), prefix)) == Leaves(PrefixRun(old(it.Remaining()), prefix))
      decreases |Leaves(PrefixRun(it.Remaining(), prefix))|
    {
      var r := NextPairWithPrefix(it, prefix);
      if r.None? {
        return;
      }
      MovePair(ps, r.value, Leaves(PrefixRun(it.Remaining(), prefix)));
      ps := ps + [r.value];
    }
  }

  /** The contents of a trie under a prefix: each pair once, in ascending order, and no other. */
  method PairsWithPrefix(root: Node, db: Store, gen: nat, prefix: Bytes, ghost H: Hasher, ghost tree: Tree,
                         ghost blobs: set<Bytes>)
    returns (ps: seq<Pair>)
    requires Rep(root, tree, db, H, true) && CanonicalRoot(tree)
    requires Sound(db, H, blobs) && NoCollisions(H, blobs)
    ensures AscendingPairs(ps)
    ensures forall p :: p in ps <==> ValidKey(p.key) && Get(tree, p.key) == Some(p.value) && prefix <= p.key
  {
    hide Walk, Rep, Canonical, From, Leaves, Genuine, Less, Get, Rest, Stacked, AllStand, PrefixRun;
    var it := new NodeIterator(root, db, gen, H, tree, blobs);
    it.Seek(prefix);
    FromIsGenuine(tree, prefix);
    ps := CollectPrefix(it, prefix);
    forall p: Pair
      ensures p in ps <==> ValidKey(p.key) && Get(tree, p.key) == Some(p.value) && prefix <= p.key
    {
      IterationOfPrefix(tree, prefix, p);
    }
    IterationOfPrefix(tree, prefix, Pair([], []));
  }
}
