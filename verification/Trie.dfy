/** The trie as it runs: nodes loaded on demand, changed by copying, hashed and committed. */
module Trie {
  import opened Bytes
  import opened HexPrefix
  import opened RlpSpec
  import opened Patricia
  import opened NodeCodec
  import opened TrieHasher

  // ---- loading ----

  /** Loads a node by hash; fails when the node is missing. */
  function ResolveHash(h: Hash, db: Store, gen: nat): Option<Node> {
    if h in db then DecodeNode(Some(h), db[h], gen) else None
  }

  /** A stored node loads, and stands for the tree it was stored for. */
  lemma {:induction false} ResolveIsRight(h: Hash, t: Tree, db: Store, gen: nat, H: Hasher, root: bool,
                                          blobs: set<Bytes>)
    requires Rep(HashNode(h), t, db, H, root) && Canonical(t)
    requires Sound(db, H, blobs) && NoCollisions(H, blobs)
    ensures ResolveHash(h, db, gen).Some?
    ensures var n := ResolveHash(h, db, gen).value;
            Rep(n, t, db, H, root) && HasFlags(n) && (n.ShortNode? <==> t.Short?)
  {
    hide Blob, Encode, DecodeNode;
    DecodeInvertsEncode(t, Some(h), [], gen, H);
    assert Blob(t, H) + [] == Blob(t, H);
    ViewIsRight(t, h, db, gen, H, root);
  }

  lemma {:induction false} ViewIsRight(t: Tree, h: Hash, db: Store, gen: nat, H: Hasher, root: bool)
    requires Rep(HashNode(h), t, db, H, root)
    ensures var n := View(t, Some(h), gen, H);
            Rep(n, t, db, H, root) && HasFlags(n) && (n.ShortNode? <==> t.Short?)
  {
    hide Blob, Encode;
    var n := View(t, Some(h), gen, H);
    assert Cached(Flag(Some(h), gen, false), t, db, H, root);
    if t.Short? {
      RefViewIsRight(t.val, db, gen, H);
    } else {
      ChildViewsAreRight(t, db, gen, H);
    }
  }

  lemma {:induction false} ChildViewsAreRight(t: Tree, db: Store, gen: nat, H: Hasher)
    requires t.Full? && Stored(t, db, H)
    ensures forall i :: 0 <= i < |t.children| ==> Rep(RefViews(t.children, gen, H)[i], t.children[i], db, H, false)
    decreases t, 0
  {
    forall i | 0 <= i < |t.children|
      ensures Rep(RefViews(t.children, gen, H)[i], t.children[i], db, H, false)
    {
      RefViewsAt(t.children, gen, H, i);
      RefViewIsRight(t.children[i], db, gen, H);
    }
  }

  lemma {:induction false} RefViewIsRight(t: Tree, db: Store, gen: nat, H: Hasher)
    requires Kept(t, db, H)
    ensures Rep(RefView(t, gen, H), t, db, H, false)
    decreases t, 1
  {
    hide Blob, Encode;
    if !Big(t, H) {
      match t
      case Nil =>
      case Leaf(_) =>
      case Short(_, val) => RefViewIsRight(val, db, gen, H);
      case Full(_) => ChildViewsAreRight(t, db, gen, H);
    }
  }

  // ---- lookup ----

  datatype Found = Found(value: Option<Bytes>, node: Node, resolved: bool)

  /** A child that was loaded on the way replaces the old one in a copy of its parent. */
  function WithLoaded(n: Node, at: nat, r: Option<Found>, gen: nat): Option<Found>
    requires n.ShortNode? || (n.FullNode? && at < |n.children|)
  {
    match r
    case None => None
    case Some(Found(v, child, resolved)) =>
      var n' := if !resolved then n
                else if n.ShortNode? then ShortNode(n.key, child, n.sflags.(gen := gen))
                else FullNode(n.children[at := child], n.fflags.(gen := gen));
      Some(Found(v, n', resolved))
  }

  /** Looks a key up. Short nodes with an empty key, which no trie has, are refused. */
  function TryGet(n: Node, key: Bytes, db: Store, gen: nat): Option<Found>
    decreases |key|, if n.HashNode? then 1 else 0
  {
    match n
    case NilNode => Some(Found(None, n, false))
    case ValueNode(v) => Some(Found(Some(v), n, false))
    case ShortNode(k, val, f) =>
      if k == [] then None
      else if |key| < |k| || key[..|k|] != k then Some(Found(None, n, false))
      else WithLoaded(n, 0, TryGet(val, key[|k|..], db, gen), gen)
    case FullNode(cs, f) =>
      if key == [] || key[0] >= |cs| then None
      else WithLoaded(n, key[0], TryGet(cs[key[0]], key[1..], db, gen), gen)
    case HashNode(h) =>
      var rn := ResolveHash(h, db, gen);
      if rn.None? || !HasFlags(rn.value) then None
      else
        var r := TryGet(rn.value, key, db, gen);
        if r.None? then None else Some(r.value.(resolved := true))
  }

  lemma {:induction false} LoadedShort(n: Node, t: Tree, r: Found, db: Store, gen: nat, H: Hasher, root: bool)
    requires n.ShortNode? && Rep(n, t, db, H, root) && Rep(r.node, t.val, db, H, false)
    ensures WithLoaded(n, 0, Some(r), gen).Some?
    ensures var r' := WithLoaded(n, 0, Some(r), gen).value; r'.value == r.value && Rep(r'.node, t, db, H, root)
  {
  }

  lemma {:induction false} LoadedFull(n: Node, t: Tree, at: nat, r: Found, db: Store, gen: nat, H: Hasher, root: bool)
    requires n.FullNode? && Rep(n, t, db, H, root) && at < |n.children| && Rep(r.node, t.children[at], db, H, false)
    ensures WithLoaded(n, at, Some(r), gen).Some?
    ensures var r' := WithLoaded(n, at, Some(r), gen).value; r'.value == r.value && Rep(r'.node, t, db, H, root)
  {
  }

  /** Looking up answers like the tree and only loads nodes. */
  lemma {:induction false} TryGetIsRight(n: Node, t: Tree, key: Bytes, db: Store, gen: nat, H: Hasher, root: bool,
                                         blobs: set<Bytes>)
    requires Rep(n, t, db, H, root) && FitsKey(t, key)
    requires Sound(db, H, blobs) && NoCollisions(H, blobs)
    ensures TryGet(n, key, db, gen).Some?
    ensures var r := TryGet(n, key, db, gen).value; r.value == Get(t, key) && Rep(r.node, t, db, H, root)
    decreases |key|, if n.HashNode? then 1 else 0
  {
    hide Blob, Encode, Canonical, DecodeNode, Stored, Kept, WithLoaded;
    match n
    case NilNode =>
    case ValueNode(v) =>
    case ShortNode(k, val, f) =>
      FitsShort(t, key);
      ShortParts(t);
      if |key| >= |k| && key[..|k|] == k {
        PrefixLenUnique(key, k, |k|);
        TryGetIsRight(val, t.val, key[|k|..], db, gen, H, false, blobs);
        LoadedShort(n, t, TryGet(val, key[|k|..], db, gen).value, db, gen, H, root);
      }
    case FullNode(cs, f) =>
      FitsFull(t, key);
      TryGetIsRight(cs[key[0]], t.children[key[0]], key[1..], db, gen, H, false, blobs);
      LoadedFull(n, t, key[0], TryGet(cs[key[0]], key[1..], db, gen).value, db, gen, H, root);
    case HashNode(h) =>
      NodesFitKeys(t, key);
      ResolveIsRight(h, t, db, gen, H, root, blobs);
      TryGetIsRight(ResolveHash(h, db, gen).value, t, key, db, gen, H, root, blobs);
  }

  lemma {:induction false} NodesFitKeys(t: Tree, key: Bytes)
    requires IsNode(t) && FitsKey(t, key)
    ensures Canonical(t) && key != []
  {
  }

  // ---- insertion ----

  function NewFlag(gen: nat): Flag {
    Flag(None, gen, true)
  }

  datatype Changed = Changed(dirty: bool, node: Node)

  const Empty17Nodes: seq<Node> :=
    [NilNode, NilNode, NilNode, NilNode, NilNode, NilNode, NilNode, NilNode, NilNode,
     NilNode, NilNode, NilNode, NilNode, NilNode, NilNode, NilNode, NilNode]

  function GraftNode(k: Bytes, n: Node, gen: nat): Node {
    if k == [] then n else ShortNode(k, n, NewFlag(gen))
  }

  function BranchNode(i: byte, a: Node, j: byte, b: Node, gen: nat): (n: Node)
    requires i < 17 && j < 17
    ensures n.FullNode?
  {
    FullNode(Empty17Nodes[i := a][j := b], NewFlag(gen))
  }

  /** The parent with a changed child; an unchanged child leaves it as it was. */
  function WithChanged(n: Node, at: nat, r: Option<Changed>, gen: nat): Option<Changed>
    requires n.ShortNode? || (n.FullNode? && at < |n.children|)
  {
    match r
    case None => None
    case Some(Changed(dirty, child)) =>
      if !dirty then Some(Changed(false, n))
      else if n.ShortNode? then Some(Changed(true, ShortNode(n.key, child, NewFlag(gen))))
      else Some(Changed(true, FullNode(n.children[at := child], NewFlag(gen))))
  }

  function InsertNode(n: Node, key: Bytes, value: Bytes, db: Store, gen: nat): Option<Changed>
    decreases |key|, if n.HashNode? then 1 else 0
  {
    if key == [] then Some(Changed(n != ValueNode(value), ValueNode(value)))
    else
      match n
      case NilNode => Some(Changed(true, ShortNode(key, ValueNode(value), NewFlag(gen))))
      case ValueNode(_) => None
      case ShortNode(k, val, f) =>
        var m := PrefixLen(key, k);
        if k == [] then None
        else if m == |k| then WithChanged(n, 0, InsertNode(val, key[m..], value, db, gen), gen)
        else if m < |key| && key[m] < 17 && k[m] < 17 then
          var branch := BranchNode(k[m], GraftNode(k[m + 1..], val, gen),
                                   key[m], GraftNode(key[m + 1..], ValueNode(value), gen), gen);
          Some(Changed(true, if m == 0 then branch else ShortNode(key[..m], branch, NewFlag(gen))))
        else None
      case FullNode(cs, f) =>
        if key[0] >= |cs| then None
        else WithChanged(n, key[0], InsertNode(cs[key[0]], key[1..], value, db, gen), gen)
      case HashNode(h) =>
        var rn := ResolveHash(h, db, gen);
        if rn.None? || !HasFlags(rn.value) then None
        else
          var r := InsertNode(rn.value, key, value, db, gen);
          if r.Some? && !r.value.dirty then Some(Changed(false, rn.value)) else r
  }

  /** What a changing operation promises: the new node stands for the new tree, and a change is
      reported exactly when there is one. */
  ghost predicate ChangedTo(r: Option<Changed>, t: Tree, t': Tree, db: Store, H: Hasher, root: bool) {
    && r.Some?
    && Rep(r.value.node, t', db, H, root)
    && (r.value.dirty <==> t' != t)
    && (r.value.dirty ==> !r.value.node.HashNode?)
  }

  /** What an empty, a value or a hash node stands for. */
  lemma {:induction false} RepOfOther(n: Node, t: Tree, db: Store, H: Hasher, root: bool)
    requires Rep(n, t, db, H, root)
    ensures n.NilNode? ==> t == Nil
    ensures n.ValueNode? ==> t == Leaf(n.value)
    ensures n.HashNode? ==> IsNode(t)
  {
  }

  lemma {:induction false} RepOfShort(n: Node, t: Tree, db: Store, H: Hasher, root: bool)
    requires n.ShortNode? && Rep(n, t, db, H, root)
    ensures t.Short? && t.key == n.key && Rep(n.val, t.val, db, H, false)
  {
  }

  lemma {:induction false} RepOfFull(n: Node, t: Tree, db: Store, H: Hasher, root: bool)
    requires n.FullNode? && Rep(n, t, db, H, root)
    ensures t.Full? && |t.children| == |n.children|
    ensures forall i :: 0 <= i < |n.children| ==> Rep(n.children[i], t.children[i], db, H, false)
  {
  }

  lemma {:induction false} FreshShort(k: Bytes, n: Node, t: Tree, db: Store, gen: nat, H: Hasher, root: bool)
    requires Rep(n, t, db, H, false)
    ensures Rep(ShortNode(k, n, NewFlag(gen)), Short(k, t), db, H, root)
  {
  }

  lemma {:induction false} FreshFull(ns: seq<Node>, ts: seq<Tree>, db: Store, gen: nat, H: Hasher, root: bool)
    requires |ns| == |ts| && forall i :: 0 <= i < |ns| ==> Rep(ns[i], ts[i], db, H, false)
    ensures Rep(FullNode(ns, NewFlag(gen)), Full(ts), db, H, root)
  {
  }

  /** A changed child under its parent. */
  lemma {:induction false} WithChangedIsRight(n: Node, t: Tree, at: nat, r: Option<Changed>, t': Tree, db: Store,
                                              gen: nat, H: Hasher, root: bool)
    requires Rep(n, t, db, H, root)
    requires n.ShortNode? || (n.FullNode? && at < |n.children|)
    requires t.Short? || (t.Full? && at < |t.children|)
    requires ChangedTo(r, if t.Short? then t.val else t.children[at], t', db, H, false)
    ensures n.ShortNode? ==> ChangedTo(WithChanged(n, at, r, gen), t, Short(t.key, t'), db, H, root)
    ensures n.FullNode? ==> ChangedTo(WithChanged(n, at, r, gen), t, Full(t.children[at := t']), db, H, root)
  {
    hide Rep;
    if n.ShortNode? {
      RepOfShort(n, t, db, H, root);
      FreshShort(n.key, r.value.node, t', db, gen, H, root);
      assert t' == t.val ==> Short(t.key, t') == t;
    } else {
      RepOfFull(n, t, db, H, root);
      FreshFull(n.children[at := r.value.node], t.children[at := t'], db, gen, H, root);
      assert t' == t.children[at] ==> t.children[at := t'] == t.children;
      assert t.children[at := t'][at] == t';
    }
  }

  /** At the end of its key an insertion puts the value in place of what is there. */
  lemma {:induction false} InsertHereIsRight(n: Node, t: Tree, value: Bytes, db: Store, gen: nat, H: Hasher, root: bool)
    requires Rep(n, t, db, H, root)
    ensures ChangedTo(InsertNode(n, [], value, db, gen), t, Insert(t, [], value), db, H, root)
  {
    hide Stored, Cached;
  }

  /** Insertion into nodes is insertion into the tree they stand for. */
  lemma {:induction false} InsertNodeIsRight(n: Node, t: Tree, key: Bytes, value: Bytes, db: Store, gen: nat, H: Hasher,
                                             root: bool, blobs: set<Bytes>)
    requires Rep(n, t, db, H, root) && FitsKey(t, key) && value != []
    requires Sound(db, H, blobs) && NoCollisions(H, blobs)
    ensures ChangedTo(InsertNode(n, key, value, db, gen), t, Insert(t, key, value), db, H, root)
    decreases |key|, if n.HashNode? then 1 else 0
  {
    hide Blob, Encode, Canonical, DecodeNode, Stored, WithChanged, Rep;
    if key == [] {
      InsertHereIsRight(n, t, value, db, gen, H, root);
    } else {
      match n
      case NilNode =>
        RepOfOther(n, t, db, H, root);
        LeafRep(value, db, H);
        FreshShort(key, ValueNode(value), Leaf(value), db, gen, H, root);
      case ValueNode(v) =>
        RepOfOther(n, t, db, H, root);
        LeafFits(t, key);
      case ShortNode(k, val, f) =>
        RepOfShort(n, t, db, H, root);
        FitsShort(t, key);
        ShortParts(t);
        if PrefixLen(key, k) == |k| {
          InsertNodeIsRight(val, t.val, key[|k|..], value, db, gen, H, false, blobs);
          WithChangedIsRight(n, t, 0, InsertNode(val, key[|k|..], value, db, gen), Insert(t.val, key[|k|..], value), db,
            gen, H, root);
        } else {
          SplitNodeIsRight(n, t, key, value, db, gen, H, root);
        }
      case FullNode(cs, f) =>
        RepOfFull(n, t, db, H, root);
        FitsFull(t, key);
        var i := key[0];
        InsertNodeIsRight(cs[i], t.children[i], key[1..], value, db, gen, H, false, blobs);
        WithChangedIsRight(n, t, i, InsertNode(cs[i], key[1..], value, db, gen), Insert(t.children[i], key[1..], value),
          db, gen, H, root);
      case HashNode(h) =>
        RepOfOther(n, t, db, H, root);
        NodesFitKeys(t, key);
        ResolveIsRight(h, t, db, gen, H, root, blobs);
        InsertNodeIsRight(ResolveHash(h, db, gen).value, t, key, value, db, gen, H, root, blobs);
    }
  }

  lemma {:induction false} GraftNodeIsRight(k: Bytes, n: Node, t: Tree, db: Store, gen: nat, H: Hasher)
    requires Rep(n, t, db, H, false)
    ensures Rep(GraftNode(k, n, gen), Graft(k, t), db, H, false)
  {
  }

  lemma {:induction false} BranchNodeIsRight(i: byte, a: Node, ta: Tree, j: byte, b: Node, tb: Tree, db: Store,
                                             gen: nat, H: Hasher, root: bool)
    requires i < 17 && j < 17 && Rep(a, ta, db, H, false) && Rep(b, tb, db, H, false)
    ensures Rep(BranchNode(i, a, j, b, gen), Full(Branch(i, ta, j, tb)), db, H, root)
  {
  }

  lemma {:induction false} SplitNodeIsRight(n: Node, t: Tree, key: Bytes, value: Bytes, db: Store, gen: nat, H: Hasher,
                                            root: bool)
    requires n.ShortNode? && Rep(n, t, db, H, root) && FitsKey(t, key) && value != []
    requires PrefixLen(key, n.key) < |n.key|
    ensures ChangedTo(InsertNode(n, key, value, db, gen), t, Insert(t, key, value), db, H, root)
  {
    hide Canonical, Graft, GraftNode, Branch, BranchNode, Rep;
    var k, m := n.key, PrefixLen(key, n.key);
    RepOfShort(n, t, db, H, root);
    FitsShort(t, key);
    ShortParts(t);
    var a, b := GraftNode(k[m + 1..], n.val, gen), GraftNode(key[m + 1..], ValueNode(value), gen);
    var ta, tb := Graft(k[m + 1..], t.val), Graft(key[m + 1..], Leaf(value));
    GraftNodeIsRight(k[m + 1..], n.val, t.val, db, gen, H);
    assert Rep(ValueNode(value), Leaf(value), db, H, false) by { LeafRep(value, db, H); }
    GraftNodeIsRight(key[m + 1..], ValueNode(value), Leaf(value), db, gen, H);
    BranchNodeIsRight(k[m], a, ta, key[m], b, tb, db, gen, H, root && m == 0);
    var branch, full := BranchNode(k[m], a, key[m], b, gen), Full(Branch(k[m], ta, key[m], tb));
    if m == 0 {
      assert Insert(t, key, value) == full;
    } else {
      FreshShort(key[..m], branch, full, db, gen, H, root);
      assert Insert(t, key, value) == Short(key[..m], full);
    }
  }

  lemma {:induction false} LeafRep(v: Bytes, db: Store, H: Hasher)
    ensures Rep(ValueNode(v), Leaf(v), db, H, false)
  {
  }

  // ---- deletion ----

  function OnlyChildNode(cs: seq<Node>, from: nat, found: int): int
    requires from <= |cs|
    decreases |cs| - from
  {
    if from == |cs| then found
    else if cs[from].NilNode? then OnlyChildNode(cs, from + 1, found)
    else if found == -1 then OnlyChildNode(cs, from + 1, from)
    else -2
  }

  /** Loads a node if it is a hash. */
  function Resolve(n: Node, db: Store, gen: nat): Option<Node> {
    if n.HashNode? then ResolveHash(n.hash, db, gen) else Some(n)
  }

  /** A full node after a deletion; the last entry is loaded to see whether it is a short node. */
  function ReduceNode(cs: seq<Node>, db: Store, gen: nat): Option<Changed> {
    var pos := OnlyChildNode(cs, 0, -1);
    if 0 <= pos < |cs| && pos < 256 then
      if pos != 16 then
        var c := Resolve(cs[pos], db, gen);
        if c.None? then None
        else if c.value.ShortNode? then Some(Changed(true, ShortNode([pos] + c.value.key, c.value.val, NewFlag(gen))))
        else Some(Changed(true, ShortNode([pos], cs[pos], NewFlag(gen))))
      else Some(Changed(true, ShortNode([pos], cs[pos], NewFlag(gen))))
    else Some(Changed(true, FullNode(cs, NewFlag(gen))))
  }

  function DeleteNode(n: Node, key: Bytes, db: Store, gen: nat): Option<Changed>
    decreases |key|, if n.HashNode? then 1 else 0
  {
    match n
    case NilNode => Some(Changed(false, NilNode))
    case ValueNode(_) => Some(Changed(true, NilNode))
    case ShortNode(k, val, f) =>
      var m := PrefixLen(key, k);
      if k == [] then None
      else if m < |k| then Some(Changed(false, n))
      else if m == |key| then Some(Changed(true, NilNode))
      else
        var r := DeleteNode(val, key[m..], db, gen);
        if r.None? then None
        else if !r.value.dirty then Some(Changed(false, n))
        else
          var child := r.value.node;
          Some(Changed(true, if child.ShortNode? then ShortNode(k + child.key, child.val, NewFlag(gen))
                             else ShortNode(k, child, NewFlag(gen))))
    case FullNode(cs, f) =>
      if key == [] || key[0] >= |cs| then None
      else
        var r := DeleteNode(cs[key[0]], key[1..], db, gen);
        if r.None? then None
        else if !r.value.dirty then Some(Changed(false, n))
        else ReduceNode(cs[key[0] := r.value.node], db, gen)
    case HashNode(h) =>
      var rn := ResolveHash(h, db, gen);
      if rn.None? || !HasFlags(rn.value) then None
      else
        var r := DeleteNode(rn.value, key, db, gen);
        if r.Some? && !r.value.dirty then Some(Changed(false, rn.value)) else r
  }

  lemma {:induction false} SameOnlyChild(ns: seq<Node>, ts: seq<Tree>, db: Store, H: Hasher, from: nat, found: int)
    requires |ns| == |ts| && from <= |ns| && forall i :: 0 <= i < |ns| ==> Rep(ns[i], ts[i], db, H, false)
    ensures OnlyChildNode(ns, from, found) == OnlyChild(ts, from, found)
    decreases |ns| - from
  {
    if from < |ns| {
      assert Rep(ns[from], ts[from], db, H, false);
      SameOnlyChild(ns, ts, db, H, from + 1, found);
      SameOnlyChild(ns, ts, db, H, from + 1, from);
    }
  }

  lemma {:induction false} ResolveEntry(n: Node, t: Tree, db: Store, gen: nat, H: Hasher, blobs: set<Bytes>)
    requires Rep(n, t, db, H, false) && Canonical(t)
    requires Sound(db, H, blobs) && NoCollisions(H, blobs)
    ensures Resolve(n, db, gen).Some?
    ensures var c := Resolve(n, db, gen).value; Rep(c, t, db, H, false) && (c.ShortNode? <==> t.Short?)
  {
    hide Blob, Encode, DecodeNode;
    if n.HashNode? {
      ResolveIsRight(n.hash, t, db, gen, H, false, blobs);
    }
  }

  /** Reducing nodes is reducing the tree they stand for. */
  lemma {:induction false} ReduceNodeIsRight(ns: seq<Node>, ts: seq<Tree>, db: Store, gen: nat, H: Hasher, root: bool,
                                             blobs: set<Bytes>)
    requires |ns| == |ts| && forall i :: 0 <= i < |ns| ==> Rep(ns[i], ts[i], db, H, false)
    requires Entries(ts) && exists i :: 0 <= i < 17 && ts[i] != Nil
    requires Sound(db, H, blobs) && NoCollisions(H, blobs)
    ensures var r := ReduceNode(ns, db, gen);
            r.Some? && r.value.dirty && HasFlags(r.value.node) && Rep(r.value.node, Reduce(ts), db, H, root)
  {
    hide Rep, Canonical, Resolve;
    SameOnlyChild(ns, ts, db, H, 0, -1);
    OnlyChildFinds(ts, 0, -1);
    var pos := OnlyChild(ts, 0, -1);
    if pos == -2 {
      FreshFull(ns, ts, db, gen, H, root);
    } else {
      assert Entry(pos, ts[pos]);
      if pos == 16 {
        FreshShort([pos], ns[pos], ts[pos], db, gen, H, root);
      } else {
        ResolveEntry(ns[pos], ts[pos], db, gen, H, blobs);
        var c := Resolve(ns[pos], db, gen).value;
        if c.ShortNode? {
          RepOfShort(c, ts[pos], db, H, false);
          FreshShort([pos] + c.key, c.val, ts[pos].val, db, gen, H, root);
        } else {
          FreshShort([pos], ns[pos], ts[pos], db, gen, H, root);
        }
      }
    }
  }

  /** What deletion promises. */
  ghost predicate Deleted(r: Option<Changed>, t: Tree, key: Bytes, db: Store, H: Hasher, root: bool) {
    && r.Some?
    && (r.value.dirty <==> Get(t, key).Some?)
    && (r.value.dirty ==> !r.value.node.HashNode? && Rep(r.value.node, Delete(t, key), db, H, root))
    && (!r.value.dirty ==> Delete(t, key) == t && Rep(r.value.node, t, db, H, root))
  }

  lemma {:induction false} DeleteStops(n: Node, t: Tree, key: Bytes, db: Store, gen: nat, H: Hasher, root: bool)
    requires Rep(n, t, db, H, root) && FitsKey(t, key)
    requires n.NilNode? || n.ValueNode? || (n.ShortNode? && !(PrefixLen(key, n.key) == |n.key| < |key|))
    ensures Deleted(DeleteNode(n, key, db, gen), t, key, db, H, root)
  {
    hide Canonical, Cached;
    if n.ShortNode? {
      FitsShort(t, key);
      ShortParts(t);
      GetGraft(n.key, t.val, key);
    }
  }

  lemma {:induction false} DeleteLoads(h: Hash, t: Tree, key: Bytes, db: Store, gen: nat, H: Hasher, root: bool)
    requires ResolveHash(h, db, gen).Some? && HasFlags(ResolveHash(h, db, gen).value)
    requires Rep(ResolveHash(h, db, gen).value, t, db, H, root)
    requires Deleted(DeleteNode(ResolveHash(h, db, gen).value, key, db, gen), t, key, db, H, root)
    ensures Deleted(DeleteNode(HashNode(h), key, db, gen), t, key, db, H, root)
  {
    hide Rep, Delete, ResolveHash;
  }

  /** Deletion from nodes is deletion from the tree they stand for. */
  lemma {:induction false} DeleteNodeIsRight(n: Node, t: Tree, key: Bytes, db: Store, gen: nat, H: Hasher,
                                             root: bool, blobs: set<Bytes>)
    requires Rep(n, t, db, H, root) && FitsKey(t, key)
    requires Sound(db, H, blobs) && NoCollisions(H, blobs)
    ensures Deleted(DeleteNode(n, key, db, gen), t, key, db, H, root)
    decreases |key|, if n.HashNode? then 1 else 0
  {
    hide Blob, Encode, Canonical, DecodeNode, Stored, ReduceNode, Reduce, Kept, Cached, Deleted, DeleteNode, FitsKey;
    match n
    case NilNode =>
      DeleteStops(n, t, key, db, gen, H, root);
    case ValueNode(_) =>
      DeleteStops(n, t, key, db, gen, H, root);
    case ShortNode(k, val, f) =>
      if PrefixLen(key, k) == |k| && |k| != |key| {
        RepOfShort(n, t, db, H, root);
        FitsShort(t, key);
        NodesFitKeys(t, key);
        ShortParts(t);
        DeleteNodeIsRight(val, t.val, key[|k|..], db, gen, H, false, blobs);
        DeleteBelowIsRight(n, t, key, db, gen, H, root, blobs);
      } else {
        DeleteStops(n, t, key, db, gen, H, root);
      }
    case FullNode(cs, f) =>
      RepOfFull(n, t, db, H, root);
      FitsFull(t, key);
      DeleteNodeIsRight(cs[key[0]], t.children[key[0]], key[1..], db, gen, H, false, blobs);
      DeleteEntryIsRight(n, t, key, db, gen, H, root, blobs);
    case HashNode(h) =>
      NodesFitKeys(t, key);
      ResolveIsRight(h, t, db, gen, H, root, blobs);
      DeleteNodeIsRight(ResolveHash(h, db, gen).value, t, key, db, gen, H, root, blobs);
      DeleteLoads(h, t, key, db, gen, H, root);
  }

  lemma {:induction false} DeleteBelowIsRight(n: Node, t: Tree, key: Bytes, db: Store, gen: nat, H: Hasher, root: bool,
                                              blobs: set<Bytes>)
    requires n.ShortNode? && t.Short? && Rep(n, t, db, H, root) && FitsKey(t, key)
    requires t.key == n.key && n.key != [] && PrefixLen(key, n.key) == |n.key| < |key|
    requires Deleted(DeleteNode(n.val, key[|n.key|..], db, gen), t.val, key[|n.key|..], db, H, false)
    ensures Deleted(DeleteNode(n, key, db, gen), t, key, db, H, root)
  {
    hide Canonical, Rep, FitsKey;
    var k, rest := n.key, key[|n.key|..];
    assert t.val.Full? by {
      NodesFitKeys(t, key);
      FitsShort(t, key);
      ShortParts(t);
    }
    assert key[..|k|] == k by { assert k[..|k|] == k; }
    var r, child' := DeleteNode(n.val, rest, db, gen), Delete(t.val, rest);
    if r.value.dirty {
      var child := r.value.node;
      if child.ShortNode? {
        RepOfShort(child, child', db, H, false);
        FreshShort(k + child.key, child.val, child'.val, db, gen, H, root);
      } else {
        assert !child'.Short? by { OnlyShortNodesAreShort(child, child', db, H); }
        FreshShort(k, child, child', db, gen, H, root);
      }
    }
  }

  lemma {:induction false} OnlyShortNodesAreShort(n: Node, t: Tree, db: Store, H: Hasher)
    requires Rep(n, t, db, H, false) && !n.HashNode? && !n.ShortNode?
    ensures !t.Short?
  {
  }

  lemma {:induction false} DeleteEntryIsRight(n: Node, t: Tree, key: Bytes, db: Store, gen: nat, H: Hasher, root: bool,
                                              blobs: set<Bytes>)
    requires n.FullNode? && t.Full? && Rep(n, t, db, H, root) && FitsKey(t, key)
    requires key != [] && key[0] < |n.children| == |t.children|
    requires Sound(db, H, blobs) && NoCollisions(H, blobs)
    requires Deleted(DeleteNode(n.children[key[0]], key[1..], db, gen), t.children[key[0]], key[1..], db, H, false)
    ensures Deleted(DeleteNode(n, key, db, gen), t, key, db, H, root)
  {
    hide Canonical, Rep, Reduce, ReduceNode;
    var i := key[0];
    var r, t' := DeleteNode(n.children[i], key[1..], db, gen), Delete(t.children[i], key[1..]);
    RepOfFull(n, t, db, H, root);
    FitsFull(t, key);
    DeleteIsCanonical(t.children[i], key[1..]);
    FullIsEntries(t.children);
    var ts := t.children[i := t'];
    var a, b :| 0 <= a < b < |t.children| && t.children[a] != Nil && t.children[b] != Nil;
    assert ts[a] != Nil || ts[b] != Nil;
    if r.value.dirty {
      ReduceNodeIsRight(n.children[i := r.value.node], ts, db, gen, H, root, blobs);
    } else {
      assert ts == t.children;
      FullStays(t.children);
    }
  }

  /** Reducing leaves a node with two entries alone. */
  lemma {:induction false} FullStays(cs: seq<Tree>)
    requires TwoEntries(cs)
    ensures Reduce(cs) == Full(cs)
  {
    OnlyChildFinds(cs, 0, -1);
  }

  // ---- the trie object ----

  const ZERO_HASH: Hash :=
    [0, 0, 0, 0, 0, 0, 0, 0, 0, 0, 0, 0, 0, 0, 0, 0, 0, 0, 0, 0, 0, 0, 0, 0, 0, 0, 0, 0, 0, 0, 0, 0]

  /** The root hash of the empty trie: the hash of an encoded empty string. */
  function EmptyRoot(H: Hasher): (h: Hash)
    ensures h == RootHash(Nil, H)
  {
    assert Blob(Nil, H) == [0x80];
    H([0x80])
  }

  lemma {:induction false} EmptyRootIsNil(t: Tree, H: Hasher, known: set<Bytes>)
    requires Canonical(t) && NoCollisions(H, known) && Blob(t, H) in known && [0x80] in known
    ensures RootHash(t, H) != EmptyRoot(H)
  {
    OnlyNodesAreCanonical(t);
    assert Encode(Str([])) == [0x80];
    DecodeComplete(Item(t, H), Blob(t, H));
    DecodeComplete(Str([]), [0x80]);
  }

  /** The tree is stored under the root h. */
  ghost predicate Committed(h: Hash, store: Store, hash: Hasher, t: Tree, known: set<Bytes>) {
    && CanonicalRoot(t) && h == RootHash(t, hash)
    && (t != Nil ==> Blob(t, hash) in known && Holds(t, store, hash) && Stored(t, store, hash))
  }

  class Trie {
    const H: Hasher
    var db: Store
    var root: Node
    var cachegen: nat
    var cachelimit: nat
    ghost var tree: Tree
    ghost var blobs: set<Bytes>

    /** The nodes stand for a canonical tree, and the store is free of collisions. */
    ghost predicate Valid()
      reads this
    {
      && CanonicalRoot(tree) && Rep(root, tree, db, H, true)
      && Sound(db, H, blobs) && NoCollisions(H, blobs)
    }

    /** Opens the trie with the given root; `t` is the tree that was committed under it. */
    constructor (h: Hash, store: Store, hash: Hasher, limit: nat, ghost t: Tree, ghost known: set<Bytes>)
      requires Sound(store, hash, known) && NoCollisions(hash, known) && [0x80] in known
      requires if h == ZERO_HASH then t == Nil else Committed(h, store, hash, t, known)
      ensures Valid() && H == hash && db == store && tree == t && blobs == known
    {
      H, db, cachegen, cachelimit := hash, store, 0, limit;
      tree, blobs := t, known;
      if t != Nil {
        EmptyRootIsNil(t, hash, known);
      }
      if h != ZERO_HASH && h != EmptyRoot(hash) {
        ResolveIsRight(h, t, store, 0, hash, true, known);
        root := ResolveHash(h, store, 0).value;
      } else {
        root := NilNode;
      }
    }

    /** The value under a key, as the tree has it. */
    method Lookup(key: Bytes) returns (v: Option<Bytes>)
      requires Valid()
      modifies this`root
      ensures Valid() && v == Get(tree, KeybytesToHex(key))
    {
      var k := KeybytesToHex(key);
      TryGetIsRight(root, tree, k, db, cachegen, H, true, blobs);
      var r := TryGet(root, k, db, cachegen).value;
      if r.resolved {
        root := r.node;
      }
      v := r.value;
    }

    /** An update, or with an empty value a deletion: exactly the tree's. */
    method TryUpdate(key: Bytes, value: Bytes)
      requires Valid()
      modifies this`root, this`tree
      ensures Valid() && tree == Apply(old(tree), Update(key, value))
    {
      var k := KeybytesToHex(key);
      var r;
      if |value| != 0 {
        InsertNodeIsRight(root, tree, k, value, db, cachegen, H, true, blobs);
        InsertIsCanonical(tree, k, value);
        r := InsertNode(root, k, value, db, cachegen);
      } else {
        DeleteNodeIsRight(root, tree, k, db, cachegen, H, true, blobs);
        DeleteIsCanonical(tree, k);
        r := DeleteNode(root, k, db, cachegen);
      }
      root := r.value.node;
      tree := Apply(tree, Update(key, value));
    }

    /** The root hash: the one computed from scratch, whatever was cached. Nothing is stored. */
    method Hash() returns (h: Hash)
      requires Valid() && Blobs(tree, H) <= blobs
      modifies this`root
      ensures Valid() && h == RootHash(tree, H)
    {
      if root == NilNode {
        return EmptyRoot(H);
      }
      NonNilIsNode(root, tree, db, H);
      HashTreeIsRight(root, tree, false, true, db, cachegen, cachelimit, H, blobs);
      var out := HashTree(root, false, true, db, cachegen, cachelimit, H);
      ForcedIsHashed(root, tree, false, db, cachegen, cachelimit, H, blobs);
      root := out.node;
      h := out.ref.hash;
    }

    /** Stores every node, children before parents, and forgets nodes that may be unloaded. */
    method Commit() returns (h: Hash)
      requires Valid() && Blobs(tree, H) <= blobs
      modifies this`root, this`db, this`cachegen
      ensures Valid() && h == RootHash(tree, H)
      ensures Extends(old(db), db) && cachegen == (old(cachegen) + 1) % 0x1_0000
      ensures tree != Nil ==> Holds(tree, db, H) && Stored(tree, db, H)
    {
      hide Rep, Blob, Encode, HashTree, Stored, Canonical;
      if root == NilNode {
        NilIsNil(tree, db, H);
        cachegen := (cachegen + 1) % 0x1_0000;
        return EmptyRoot(H);
      }
      NonNilIsNode(root, tree, db, H);
      HashTreeIsRight(root, tree, true, true, db, cachegen, cachelimit, H, blobs);
      ForcedIsHashed(root, tree, true, db, cachegen, cachelimit, H, blobs);
      var out := HashTree(root, true, true, db, cachegen, cachelimit, H);
      root, db := out.node, out.db;
      cachegen := (cachegen + 1) % 0x1_0000;
      h := out.ref.hash;
    }
  }

  lemma {:induction false} NilIsNil(t: Tree, db: Store, H: Hasher)
    requires Rep(NilNode, t, db, H, true)
    ensures t == Nil
  {
  }

  lemma {:induction false} NonNilIsNode(n: Node, t: Tree, db: Store, H: Hasher)
    requires Rep(n, t, db, H, true) && CanonicalRoot(t) && n != NilNode
    ensures IsNode(t) && Canonical(t)
  {
  }

  lemma {:induction false} ForcedIsHashed(n: Node, t: Tree, commit: bool, db: Store, gen: nat, limit: nat, H: Hasher,
                                          blobs: set<Bytes>)
    requires IsNode(t) && Rep(n, t, db, H, true)
    requires Sound(db, H, blobs) && NoCollisions(H, blobs) && Blobs(t, H) <= blobs
    ensures HashTree(n, commit, true, db, gen, limit, H).ref == Hashed(RootHash(t, H))
  {
    HashTreeIsRight(n, t, commit, true, db, gen, limit, H, blobs);
  }

  /** Opens the trie under a root, or reports that the root is missing; no root at all and the root of nothing give
      the empty trie. */
  method Open(h: Hash, store: Store, hash: Hasher, limit: nat, ghost t: Tree, ghost known: set<Bytes>)
    returns (r: Option<Trie>)
    requires Sound(store, hash, known) && NoCollisions(hash, known) && [0x80] in known
    requires h != ZERO_HASH && h != EmptyRoot(hash) && ResolveHash(h, store, 0).Some? ==>
             Committed(h, store, hash, t, known)
    ensures r.None? <==> h != ZERO_HASH && h != EmptyRoot(hash) && ResolveHash(h, store, 0).None?
    ensures r.Some? ==>
              && fresh(r.value) && r.value.Valid() && r.value.db == store && r.value.H == hash
              && r.value.tree == if h == ZERO_HASH || h == EmptyRoot(hash) then Nil else t
  {
    if h == ZERO_HASH || h == EmptyRoot(hash) {
      var empty := new Trie(h, store, hash, limit, Nil, known);
      return Some(empty);
    }
    if ResolveHash(h, store, 0).None? {
      return None;
    }
    var trie := new Trie(h, store, hash, limit, t, known);
    return Some(trie);
  }

  /** Committing any trie and opening the root it returns gives the same contents. */
  method CommitAndReopen(t: Trie, limit: nat) returns (t': Trie)
    requires t.Valid() && Blobs(t.tree, t.H) <= t.blobs && [0x80] in t.blobs
    requires RootHash(t.tree, t.H) != ZERO_HASH
    modifies t
    ensures t.Valid() && t'.Valid() && fresh(t')
    ensures t'.tree == t.tree == old(t.tree)
  {
    var h := t.Commit();
    RootBlobKnown(t.tree, t.H);
    t' := new Trie(h, t.db, t.H, limit, t.tree, t.blobs);
  }

  lemma {:induction false} RootBlobKnown(t: Tree, H: Hasher)
    requires CanonicalRoot(t)
    ensures t != Nil ==> Blob(t, H) in Blobs(t, H)
  {
  }
}
