/** The trie hasher: collapsing nodes to hashes, caching them, committing and unloading. */
module TrieHasher {
  import opened Bytes
  import opened RlpSpec
  import opened Patricia
  import HexPrefix
  import opened NodeCodec

  /** Node blobs by hash: memory cache and disk together. */
  type Store = map<Hash, Bytes>

  // ---- what nodes stand for ----

  predicate Holds(t: Tree, db: Store, H: Hasher) {
    RootHash(t, H) in db && db[RootHash(t, H)] == Blob(t, H)
  }

  /** Everything below t that goes by its hash is in the store. */
  ghost predicate Stored(t: Tree, db: Store, H: Hasher)
    decreases t, 0
  {
    match t
    case Nil => true
    case Leaf(_) => true
    case Short(_, val) => Kept(val, db, H)
    case Full(cs) => forall i :: 0 <= i < |cs| ==> Kept(cs[i], db, H)
  }

  ghost predicate Kept(t: Tree, db: Store, H: Hasher)
    decreases t, 1
  {
    Stored(t, db, H) && (Big(t, H) ==> Holds(t, db, H))
  }

  /** A cached hash is the hash computed from scratch; a clean cached node is in the store;
      a clean node without a hash is one embedded in its parent. */
  ghost predicate Cached(f: Flag, t: Tree, db: Store, H: Hasher, root: bool) {
    if f.hash.Some? then
      && f.hash.value == RootHash(t, H)
      && (root || Big(t, H))
      && (!f.dirty ==> Holds(t, db, H) && Stored(t, db, H))
    else f.dirty || (!root && !Big(t, H))
  }

  /** The node, some of it perhaps unloaded to hashes, stands for the tree. Only the root may
      be hashed although it is small. */
  ghost predicate Rep(n: Node, t: Tree, db: Store, H: Hasher, root: bool)
    decreases n
  {
    match n
    case NilNode => t == Nil
    case ValueNode(v) => t == Leaf(v)
    case ShortNode(k, val, f) =>
      t.Short? && t.key == k && Rep(val, t.val, db, H, false) && Cached(f, t, db, H, root)
    case FullNode(cs, f) =>
      && t.Full? && |cs| == |t.children| && Cached(f, t, db, H, root)
      && forall i :: 0 <= i < |cs| ==> Rep(cs[i], t.children[i], db, H, false)
    case HashNode(h) =>
      IsNode(t) && h == RootHash(t, H) && Holds(t, db, H) && Stored(t, db, H) && (root || Big(t, H))
  }

  ghost predicate Extends(db: Store, db': Store) {
    forall h :: h in db ==> h in db' && db'[h] == db[h]
  }

  lemma {:induction false} StoredExtends(t: Tree, db: Store, db': Store, H: Hasher)
    requires Extends(db, db') && Stored(t, db, H)
    ensures Stored(t, db', H)
    decreases t, 0
  {
    match t
    case Nil =>
    case Leaf(_) =>
    case Short(_, val) => KeptExtends(val, db, db', H);
    case Full(cs) =>
      forall i | 0 <= i < |cs|
        ensures Kept(cs[i], db', H)
      {
        KeptExtends(cs[i], db, db', H);
      }
  }

  lemma {:induction false} KeptExtends(t: Tree, db: Store, db': Store, H: Hasher)
    requires Extends(db, db') && Kept(t, db, H)
    ensures Kept(t, db', H)
    decreases t, 1
  {
    StoredExtends(t, db, db', H);
  }

  lemma {:induction false} CachedExtends(f: Flag, t: Tree, db: Store, db': Store, H: Hasher, root: bool)
    requires Extends(db, db') && Cached(f, t, db, H, root)
    ensures Cached(f, t, db', H, root)
  {
    if f.hash.Some? && !f.dirty {
      StoredExtends(t, db, db', H);
    }
  }

  /** Growing the store never changes what a node stands for. */
  lemma {:induction false} RepExtends(n: Node, t: Tree, db: Store, db': Store, H: Hasher, root: bool)
    requires Extends(db, db') && Rep(n, t, db, H, root)
    ensures Rep(n, t, db', H, root)
    decreases n
  {
    match n
    case NilNode =>
    case ValueNode(_) =>
    case ShortNode(_, val, f) =>
      RepExtends(val, t.val, db, db', H, false);
      CachedExtends(f, t, db, db', H, root);
    case FullNode(cs, f) =>
      CachedExtends(f, t, db, db', H, root);
      forall i | 0 <= i < |cs|
        ensures Rep(cs[i], t.children[i], db', H, false)
      {
        RepExtends(cs[i], t.children[i], db, db', H, false);
      }
    case HashNode(_) =>
      StoredExtends(t, db, db', H);
  }

  // ---- collision-free hashing, on the blobs in play ----

  /** No two blobs of the set share a hash, and every blob has a uint64 length. */
  ghost predicate NoCollisions(H: Hasher, blobs: set<Bytes>) {
    && (forall a, b :: a in blobs && b in blobs && H(a) == H(b) ==> a == b)
    && (forall a :: a in blobs ==> |a| < MAX_UINT64)
  }

  /** The blobs of a tree and of all its nodes. */
  ghost function Blobs(t: Tree, H: Hasher): set<Bytes>
    decreases t, 0
  {
    match t
    case Nil => {}
    case Leaf(_) => {}
    case Short(_, val) => {Blob(t, H)} + Blobs(val, H)
    case Full(cs) => {Blob(t, H)} + AllBlobs(cs, H)
  }

  ghost function AllBlobs(ts: seq<Tree>, H: Hasher): set<Bytes>
    decreases ts, 1
  {
    if ts == [] then {} else Blobs(ts[0], H) + AllBlobs(ts[1..], H)
  }

  lemma {:induction false} BlobsOfChild(ts: seq<Tree>, H: Hasher, i: nat)
    requires i < |ts|
    ensures Blobs(ts[i], H) <= AllBlobs(ts, H)
  {
    if i > 0 {
      BlobsOfChild(ts[1..], H, i - 1);
    }
  }

  /** Every blob is filed under its own hash. */
  ghost predicate Sound(db: Store, H: Hasher, blobs: set<Bytes>) {
    forall h :: h in db ==> db[h] in blobs && H(db[h]) == h
  }

  lemma {:induction false} EqualShorts(a: Tree, b: Tree, H: Hasher, blobs: set<Bytes>)
    requires a.Short? && b.Short? && Canonical(a) && Canonical(b) && Item(a, H) == Item(b, H)
    requires NoCollisions(H, blobs) && Blobs(a, H) + Blobs(b, H) <= blobs
    ensures a == b
    decreases a, 0
  {
    var ia, ib := Item(a, H).items, Item(b, H).items;
    assert ia[0] == ib[0] && ia[1] == ib[1];
    ShortParts(a);
    ShortParts(b);
    HexPrefix.CompactRoundTrip(a.key);
    HexPrefix.CompactRoundTrip(b.key);
    if HexPrefix.HasTerm(a.key) {
      assert Ref(a.val, H) == Str(a.val.value) && Ref(b.val, H) == Str(b.val.value);
    } else {
      EqualRefs(a.val, b.val, H, blobs);
    }
  }

  /** Equal items come from equal trees. */
  lemma {:induction false} EqualItems(a: Tree, b: Tree, H: Hasher, blobs: set<Bytes>)
    requires Canonical(a) && Canonical(b) && Item(a, H) == Item(b, H)
    requires NoCollisions(H, blobs) && Blobs(a, H) + Blobs(b, H) <= blobs
    ensures a == b
    decreases a, 1
  {
    if a.Short? && b.Short? {
      EqualShorts(a, b, H, blobs);
    } else if a.Full? && b.Full? {
      forall i | 0 <= i < 17
        ensures a.children[i] == b.children[i]
      {
        RefsAt(a.children, H, i);
        RefsAt(b.children, H, i);
        BlobsOfChild(a.children, H, i);
        BlobsOfChild(b.children, H, i);
        if i == 16 {
          GetLastEntry(a);
          GetLastEntry(b);
          EqualValues(a.children[16], b.children[16], H);
        } else {
          EqualRefs(a.children[i], b.children[i], H, blobs);
        }
      }
      assert a.children == b.children;
    }
  }

  lemma {:induction false} EqualValues(a: Tree, b: Tree, H: Hasher)
    requires (a == Nil || ValueLeaf(a)) && (b == Nil || ValueLeaf(b)) && Ref(a, H) == Ref(b, H)
    ensures a == b
  {
    assert Ref(a, H) == Item(a, H) && Ref(b, H) == Item(b, H);
  }

  lemma {:induction false} EqualRefs(a: Tree, b: Tree, H: Hasher, blobs: set<Bytes>)
    requires CanonicalRoot(a) && CanonicalRoot(b) && Ref(a, H) == Ref(b, H)
    requires NoCollisions(H, blobs) && Blobs(a, H) + Blobs(b, H) <= blobs
    ensures a == b
    decreases a, 2
  {
    if a != Nil && b != Nil {
      OnlyNodesAreCanonical(a);
      OnlyNodesAreCanonical(b);
      if Big(a, H) {
        assert Blob(a, H) in blobs && Blob(b, H) in blobs;
        EncodePrefixFree(Item(a, H), Item(b, H), Blob(a, H));
      }
      EqualItems(a, b, H, blobs);
    } else if a != Nil {
      OnlyNodesAreCanonical(a);
    } else if b != Nil {
      OnlyNodesAreCanonical(b);
    }
  }

  /** Tries with different contents have different root hashes, unless blobs collide. */
  lemma {:induction false} RootsDiffer(a: Tree, b: Tree, H: Hasher)
    requires CanonicalRoot(a) && CanonicalRoot(b)
    requires NoCollisions(H, Blobs(a, H) + Blobs(b, H) + {Blob(a, H), Blob(b, H)})
    ensures RootHash(a, H) == RootHash(b, H) <==> a == b
  {
    if RootHash(a, H) == RootHash(b, H) {
      EncodePrefixFree(Item(a, H), Item(b, H), Blob(a, H));
      if a != Nil && b != Nil {
        EqualItems(a, b, H, Blobs(a, H) + Blobs(b, H) + {Blob(a, H), Blob(b, H)});
      } else if a != Nil {
        OnlyNodesAreCanonical(a);
      } else if b != Nil {
        OnlyNodesAreCanonical(b);
      }
    }
  }

  // ---- the hasher ----

  /** How a node appears inside its parent. */
  datatype Reference = Hashed(hash: Hash) | Inline(item: Value)

  function AsItem(r: Reference): Value {
    match r
    case Hashed(h) => Str(h)
    case Inline(item) => item
  }

  datatype Out = Out(ref: Reference, node: Node, db: Store)

  datatype Outs = Outs(refs: seq<Value>, nodes: seq<Node>, db: Store)

  /** Generations are uint16, so their difference wraps. */
  predicate CanUnload(f: Flag, gen: nat, limit: nat) {
    !f.dirty && (gen - f.gen) % 0x1_0000 >= limit
  }

  /** A blob already known is left alone. */
  function PutBlob(db: Store, h: Hash, blob: Bytes): Store {
    if h in db then db else db[h := blob]
  }

  predicate HasFlags(n: Node) {
    n.ShortNode? || n.FullNode?
  }

  function Flags(n: Node): Flag
    requires HasFlags(n)
  {
    if n.ShortNode? then n.sflags else n.fflags
  }

  function WithFlags(n: Node, f: Flag): Node
    requires HasFlags(n)
  {
    if n.ShortNode? then n.(sflags := f) else n.(fflags := f)
  }

  /** Hashes the collapsed node, unless it is small enough to be embedded; in commit mode it is
      put in the store. Cached hashes are reused, and the new one remembered. */
  function StoreNode(item: Value, n: Node, commit: bool, force: bool, db: Store, H: Hasher): Out
    requires HasFlags(n)
  {
    var blob, f := Encode(item), Flags(n);
    var dirty := f.dirty && !commit;
    if |blob| < 32 && !force then Out(Inline(item), WithFlags(n, Flag(None, f.gen, dirty)), db)
    else
      var h := if f.hash.Some? then f.hash.value else H(blob);
      Out(Hashed(h), WithFlags(n, Flag(Some(h), f.gen, dirty)), if commit then PutBlob(db, h, blob) else db)
  }

  /** Collapses a node: the reference for its parent, the node with hashes cached, the store. */
  function HashTree(n: Node, commit: bool, force: bool, db: Store, gen: nat, limit: nat, H: Hasher): Out
    decreases n, 1
  {
    if HasFlags(n) && Flags(n).hash.Some? && (!commit || !Flags(n).dirty) then
      var h := Flags(n).hash.value;
      Out(Hashed(h), if commit && CanUnload(Flags(n), gen, limit) then HashNode(h) else n, db)
    else
      match n
      case NilNode => Out(Inline(Str([])), n, db)
      case ValueNode(v) => Out(Inline(Str(v)), n, db)
      case HashNode(h) => Out(Hashed(h), n, db)
      case ShortNode(k, val, f) =>
        var c := HashTree(val, commit, false, db, gen, limit, H);
        StoreNode(RlpSpec.List([Str(CompactKey(k)), AsItem(c.ref)]), ShortNode(k, c.node, f), commit, force, c.db, H)
      case FullNode(cs, f) =>
        var kids := HashAll(cs, commit, db, gen, limit, H);
        StoreNode(RlpSpec.List(kids.refs), FullNode(kids.nodes, f), commit, force, kids.db, H)
  }

  function HashAll(ns: seq<Node>, commit: bool, db: Store, gen: nat, limit: nat, H: Hasher): (r: Outs)
    ensures |r.refs| == |r.nodes| == |ns|
    decreases ns, 2
  {
    if ns == [] then Outs([], [], db)
    else
      var c := HashTree(ns[0], commit, false, db, gen, limit, H);
      var more := HashAll(ns[1..], commit, c.db, gen, limit, H);
      Outs([AsItem(c.ref)] + more.refs, [c.node] + more.nodes, more.db)
  }

  /** What hashing promises about one node. */
  ghost predicate HashedRight(out: Out, t: Tree, commit: bool, force: bool, db: Store, H: Hasher, blobs: set<Bytes>) {
    && AsItem(out.ref) == (if force && IsNode(t) then Str(RootHash(t, H)) else Ref(t, H))
    && Rep(out.node, t, out.db, H, force)
    && Extends(db, out.db) && Sound(out.db, H, blobs)
    && (!commit ==> out.db == db)
    && (commit ==> Kept(t, out.db, H) && (force && IsNode(t) ==> Holds(t, out.db, H)))
  }

  lemma {:induction false} StoreIsRight(item: Value, n: Node, t: Tree, commit: bool, force: bool, db: Store, H: Hasher,
                                        blobs: set<Bytes>)
    requires HasFlags(n) && IsNode(t) && item == Item(t, H)
    requires Rep(n, t, db, H, force)
    requires Sound(db, H, blobs) && NoCollisions(H, blobs) && Blob(t, H) in blobs
    requires commit ==> Stored(t, db, H)
    ensures HashedRight(StoreNode(item, n, commit, force, db, H), t, commit, force, db, H, blobs)
  {
    hide Item, Encode, Stored, Rep;
    var out, f := StoreNode(item, n, commit, force, db, H), Flags(n);
    CachedOfRep(n, t, db, H, force);
    PutBlobIsRight(t, db, H, blobs);
    var db' := out.db;
    RepExtends(n, t, db, db', H, force);
    if commit {
      StoredExtends(t, db, db', H);
    }
    var f' := Flags(out.node);
    assert Cached(f', t, db', H, force) by {
      if !commit {
        CachedExtends(f, t, db, db', H, force);
      }
    }
    Reflagged(n, t, f', db', H, force);
  }

  lemma {:induction false} CachedOfRep(n: Node, t: Tree, db: Store, H: Hasher, root: bool)
    requires HasFlags(n) && Rep(n, t, db, H, root)
    ensures Cached(Flags(n), t, db, H, root)
  {
  }

  lemma {:induction false} Reflagged(n: Node, t: Tree, f: Flag, db: Store, H: Hasher, root: bool)
    requires HasFlags(n) && Rep(n, t, db, H, root) && Cached(f, t, db, H, root)
    ensures Rep(WithFlags(n, f), t, db, H, root)
  {
    hide Cached;
  }

  lemma {:induction false} PutBlobIsRight(t: Tree, db: Store, H: Hasher, blobs: set<Bytes>)
    requires Sound(db, H, blobs) && NoCollisions(H, blobs) && Blob(t, H) in blobs
    ensures var db' := PutBlob(db, RootHash(t, H), Blob(t, H));
            Extends(db, db') && Sound(db', H, blobs) && Holds(t, db', H)
  {
    hide Blob;
  }

  /** Hashing gives the reference computed from scratch, whatever was cached or unloaded, keeps what
      the node stands for, and in commit mode leaves the whole tree in the store. */
  lemma {:induction false} HashTreeIsRight(n: Node, t: Tree, commit: bool, force: bool, db: Store, gen: nat, limit: nat,
                                           H: Hasher, blobs: set<Bytes>)
    requires Rep(n, t, db, H, force)
    requires Sound(db, H, blobs) && NoCollisions(H, blobs) && Blobs(t, H) <= blobs
    ensures HashedRight(HashTree(n, commit, force, db, gen, limit, H), t, commit, force, db, H, blobs)
    decreases n, 1
  {
    hide Blob, Stored, Encode, Item, Blobs;
    if HasFlags(n) && Flags(n).hash.Some? && (!commit || !Flags(n).dirty) {
      CachedOfRep(n, t, db, H, force);
      if Big(t, H) {
        BigGoesByHash(t, H);
      }
    } else {
      match n
      case NilNode => LeavesAreKept(t, db, H);
      case ValueNode(_) => LeavesAreKept(t, db, H);
      case HashNode(_) =>
        if Big(t, H) {
          BigGoesByHash(t, H);
        }
      case ShortNode(_, _, _) => HashShortIsRight(n, t, commit, force, db, gen, limit, H, blobs);
      case FullNode(_, _) => HashFullIsRight(n, t, commit, force, db, gen, limit, H, blobs);
    }
  }

  lemma {:induction false} BigGoesByHash(t: Tree, H: Hasher)
    requires Big(t, H)
    ensures Ref(t, H) == Str(RootHash(t, H))
  {
  }

  lemma {:induction false} LeavesAreKept(t: Tree, db: Store, H: Hasher)
    requires t == Nil || t.Leaf?
    ensures Kept(t, db, H) && Ref(t, H) == Item(t, H) == if t == Nil then Str([]) else Str(t.value)
  {
  }

  lemma {:induction false} HashShortIsRight(n: Node, t: Tree, commit: bool, force: bool, db: Store, gen: nat,
                                            limit: nat,
                                            H: Hasher, blobs: set<Bytes>)
    requires n.ShortNode? && !(n.sflags.hash.Some? && (!commit || !n.sflags.dirty))
    requires Rep(n, t, db, H, force)
    requires Sound(db, H, blobs) && NoCollisions(H, blobs) && Blobs(t, H) <= blobs
    ensures HashedRight(HashTree(n, commit, force, db, gen, limit, H), t, commit, force, db, H, blobs)
    decreases n, 0
  {
    hide Blob, Encode;
    HashTreeIsRight(n.val, t.val, commit, false, db, gen, limit, H, blobs);
    var c := HashTree(n.val, commit, false, db, gen, limit, H);
    var n' := ShortNode(n.key, c.node, n.sflags);
    CachedExtends(n.sflags, t, db, c.db, H, force);
    assert Rep(n', t, c.db, H, force);
    StoreIsRight(Item(t, H), n', t, commit, force, c.db, H, blobs);
  }

  lemma {:induction false} HashFullIsRight(n: Node, t: Tree, commit: bool, force: bool, db: Store, gen: nat, limit: nat,
                                           H: Hasher, blobs: set<Bytes>)
    requires n.FullNode? && !(n.fflags.hash.Some? && (!commit || !n.fflags.dirty))
    requires Rep(n, t, db, H, force)
    requires Sound(db, H, blobs) && NoCollisions(H, blobs) && Blobs(t, H) <= blobs
    ensures HashedRight(HashTree(n, commit, force, db, gen, limit, H), t, commit, force, db, H, blobs)
    decreases n, 0
  {
    hide Blob, Encode, Rep, Stored, Blobs, Item, HashAll, StoreNode, HashedRight, Kept;
    FullParts(n, t, db, H, force);
    HashAllIsRight(n, n.children, t.children, commit, db, gen, limit, H, blobs);
    var kids := HashAll(n.children, commit, db, gen, limit, H);
    FullRehashed(n, t, kids.nodes, db, kids.db, H, force);
    if commit {
      FullStored(t, kids.db, H);
    }
    StoreIsRight(Item(t, H), FullNode(kids.nodes, n.fflags), t, commit, force, kids.db, H, blobs);
    HashedOver(HashTree(n, commit, force, db, gen, limit, H), t, commit, force, db, kids.db, H, blobs);
  }

  lemma {:induction false} HashedOver(out: Out, t: Tree, commit: bool, force: bool, db: Store, db': Store, H: Hasher,
                                      blobs: set<Bytes>)
    requires HashedRight(out, t, commit, force, db', H, blobs) && Extends(db, db') && (!commit ==> db' == db)
    ensures HashedRight(out, t, commit, force, db, H, blobs)
  {
    hide Rep, Kept, Blob, Encode;
  }

  lemma {:induction false} FullParts(n: Node, t: Tree, db: Store, H: Hasher, root: bool)
    requires n.FullNode? && Rep(n, t, db, H, root)
    ensures t.Full? && |n.children| == |t.children|
    ensures forall i :: 0 <= i < |n.children| ==> n.children[i] < n && Rep(n.children[i], t.children[i], db, H, false)
    ensures AllBlobs(t.children, H) <= Blobs(t, H) && Blob(t, H) in Blobs(t, H)
    ensures Item(t, H) == RlpSpec.List(Refs(t.children, H))
  {
    hide Encode;
  }

  lemma {:induction false} FullRehashed(n: Node, t: Tree, kids: seq<Node>, db: Store, db': Store, H: Hasher, root: bool)
    requires n.FullNode? && Rep(n, t, db, H, root) && Extends(db, db') && |kids| == |n.children| == |t.children|
    requires forall i :: 0 <= i < |kids| ==> Rep(kids[i], t.children[i], db', H, false)
    ensures Rep(FullNode(kids, n.fflags), t, db', H, root)
  {
    hide Blob, Encode, Stored;
    CachedExtends(n.fflags, t, db, db', H, root);
  }

  lemma {:induction false} FullStored(t: Tree, db: Store, H: Hasher)
    requires t.Full? && forall i :: 0 <= i < |t.children| ==> Kept(t.children[i], db, H)
    ensures Stored(t, db, H)
  {
    hide Blob, Encode;
  }

  lemma {:induction false} HashAllIsRight(parent: Node, ns: seq<Node>, ts: seq<Tree>, commit: bool, db: Store, gen: nat,
                                          limit: nat, H: Hasher, blobs: set<Bytes>)
    requires |ns| == |ts| && forall i :: 0 <= i < |ns| ==> ns[i] < parent && Rep(ns[i], ts[i], db, H, false)
    requires Sound(db, H, blobs) && NoCollisions(H, blobs) && AllBlobs(ts, H) <= blobs
    ensures var r := HashAll(ns, commit, db, gen, limit, H);
            && r.refs == Refs(ts, H)
            && (forall i :: 0 <= i < |ns| ==> Rep(r.nodes[i], ts[i], r.db, H, false))
            && Extends(db, r.db) && Sound(r.db, H, blobs)
            && (!commit ==> r.db == db)
            && (commit ==> forall i :: 0 <= i < |ts| ==> Kept(ts[i], r.db, H))
    decreases parent, 0, |ns|
  {
    hide Blob, Encode, Stored, Rep, Blobs;
    if ns != [] {
      HashTreeIsRight(ns[0], ts[0], commit, false, db, gen, limit, H, blobs);
      var c := HashTree(ns[0], commit, false, db, gen, limit, H);
      forall i | 1 <= i < |ns|
        ensures Rep(ns[i], ts[i], c.db, H, false)
      {
        RepExtends(ns[i], ts[i], db, c.db, H, false);
      }
      HashAllIsRight(parent, ns[1..], ts[1..], commit, c.db, gen, limit, H, blobs);
      var more := HashAll(ns[1..], commit, c.db, gen, limit, H);
      RepExtends(c.node, ts[0], c.db, more.db, H, false);
      if commit {
        KeptExtends(ts[0], c.db, more.db, H);
      }
      OneMoreRep(c.node, more.nodes, ts, more.db, H);
      if commit {
        OneMoreKept(ts, more.db, H);
      }
    }
  }

  lemma {:induction false} OneMoreRep(n: Node, ns: seq<Node>, ts: seq<Tree>, db: Store, H: Hasher)
    requires |ts| == |ns| + 1 && Rep(n, ts[0], db, H, false)
    requires forall i :: 0 <= i < |ns| ==> Rep(ns[i], ts[1..][i], db, H, false)
    ensures forall i :: 0 <= i < |ts| ==> Rep(([n] + ns)[i], ts[i], db, H, false)
  {
    hide Rep;
    assert forall i :: 1 <= i < |ts| ==> ([n] + ns)[i] == ns[i - 1] && ts[i] == ts[1..][i - 1];
  }

  lemma {:induction false} OneMoreKept(ts: seq<Tree>, db: Store, H: Hasher)
    requires ts != [] && Kept(ts[0], db, H) && forall i :: 0 <= i < |ts[1..]| ==> Kept(ts[1..][i], db, H)
    ensures forall i :: 0 <= i < |ts| ==> Kept(ts[i], db, H)
  {
    hide Kept;
    assert forall i :: 1 <= i < |ts| ==> ts[i] == ts[1..][i - 1];
  }
}
