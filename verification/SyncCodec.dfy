/** The nodes a download decodes are the ones the trie stores: its world taken from the node codec. */
module SyncCodec {
  import opened Bytes
  import opened TrieSync
  import P = Patricia
  import N = NodeCodec
  import R = RlpSpec

  /** Hashes as numbers. */
  function Num(h: N.Hash): Hash {
    FromBigEndian(h)
  }

  function ChildOf(n: N.Node, down: nat): Child {
    match n
    case HashNode(h) => HashChild(Num(h), down)
    case ValueNode(v) => ValueChild(v)
    case _ => Embedded
  }

  function EntryOf(n: N.Node): seq<Child> {
    if n.NilNode? then [] else [ChildOf(n, 1)]
  }

  /** The entries of a full node that are there. */
  function Entries(cs: seq<N.Node>): seq<Child> {
    if cs == [] then [] else EntryOf(cs[0]) + Entries(cs[1..])
  }

  function ChildrenOf(n: N.Node): seq<Child> {
    match n
    case ShortNode(k, val, _) => [ChildOf(val, |k|)]
    case FullNode(cs, _) => Entries(cs)
    case _ => []
  }

  function DecodeChildren(b: Bytes): Option<seq<Child>> {
    match N.DecodeNode(None, b, 0)
    case None => None
    case Some(n) => Some(ChildrenOf(n))
  }

  lemma {:induction false} EntriesJoin(a: seq<N.Node>, b: seq<N.Node>)
    ensures Entries(a + b) == Entries(a) + Entries(b)
  {
    hide EntryOf;
    if a == [] {
      assert a + b == b;
    } else {
      EntriesJoin(a[1..], b);
      assert (a + b)[0] == a[0] && (a + b)[1..] == a[1..] + b;
      JoinThree(EntryOf(a[0]), Entries(a[1..]), Entries(b));
    }
  }

  lemma {:induction false} JoinThree(x: seq<Child>, y: seq<Child>, z: seq<Child>)
    ensures x + (y + z) == x + y + z
  {
  }

  /** Entries are the nodes that are there. */
  lemma {:induction false} EntriesAre(cs: seq<N.Node>, c: Child)
    ensures c in Entries(cs) <==> exists i :: 0 <= i < |cs| && !cs[i].NilNode? && ChildOf(cs[i], 1) == c
  {
    if cs != [] {
      EntriesAre(cs[1..], c);
      if c in Entries(cs[1..]) {
        var i :| 0 <= i < |cs[1..]| && !cs[1..][i].NilNode? && ChildOf(cs[1..][i], 1) == c;
        assert cs[i + 1] == cs[1..][i];
      }
      if i :| 0 <= i < |cs| && !cs[i].NilNode? && ChildOf(cs[i], 1) == c {
        assert i > 0 ==> cs[1..][i - 1] == cs[i];
      }
    }
  }

  lemma {:induction false} DecodedIsNode(buf: Bytes, gen: nat)
    ensures N.DecodeNode(None, buf, gen).Some? ==>
              N.DecodeNode(None, buf, gen).value.ShortNode? || N.DecodeNode(None, buf, gen).value.FullNode?
  {
    hide R.SplitList, R.Count, N.DecodeRef, N.DecodeRefs, R.SplitString;
  }

  lemma {:induction false} RefIsNoValue(buf: Bytes, gen: nat)
    ensures N.DecodeRef(buf, gen).Some? ==> !N.DecodeRef(buf, gen).value.0.ValueNode?
  {
    hide R.Split, N.DecodeNode;
    DecodedIsNode(buf, gen);
  }

  lemma {:induction false} RefsAreNoValues(elems: Bytes, n: nat, gen: nat)
    ensures N.DecodeRefs(elems, n, gen).Some? ==>
              forall i :: 0 <= i < n ==> !N.DecodeRefs(elems, n, gen).value.0[i].ValueNode?
    decreases n
  {
    hide N.DecodeRef;
    if n > 0 && N.DecodeRef(elems, gen).Some? {
      RefIsNoValue(elems, gen);
      RefsAreNoValues(N.DecodeRef(elems, gen).value.1, n - 1, gen);
    }
  }

  ghost predicate OneValue(cs: seq<Child>) {
    forall i, j :: 0 <= i < j < |cs| && cs[i].ValueChild? ==> !cs[j].ValueChild?
  }

  lemma {:induction false} FullHasOneValue(cs: seq<N.Node>, last: N.Node)
    requires forall i :: 0 <= i < |cs| ==> !cs[i].ValueNode?
    ensures OneValue(Entries(cs + [last]))
  {
    EntriesJoin(cs, [last]);
    assert |Entries([last])| <= 1 by { assert [last][1..] == []; }
    forall c | c in Entries(cs)
      ensures !c.ValueChild?
    {
      EntriesAre(cs, c);
    }
  }

  lemma {:induction false} DecodedFullHasOneValue(elems: Bytes, gen: nat)
    ensures N.DecodeFull(None, elems, gen).Some? ==> OneValue(ChildrenOf(N.DecodeFull(None, elems, gen).value))
  {
    hide R.SplitString, Entries, N.DecodeRefs, OneValue;
    var refs := N.DecodeRefs(elems, 16, gen);
    if refs.Some? {
      RefsAreNoValues(elems, 16, gen);
      var (cs, rest) := refs.value;
      if R.SplitString(rest).Ok? {
        var v := R.SplitString(rest).value.content;
        FullHasOneValue(cs, if v != [] then N.ValueNode(v) else N.NilNode);
      }
    }
  }

  lemma {:induction false} DecodedShortHasOneValue(elems: Bytes, gen: nat)
    ensures N.DecodeShort(None, elems, gen).Some? ==> OneValue(ChildrenOf(N.DecodeShort(None, elems, gen).value))
  {
    hide R.SplitString, N.DecodeRef;
  }

  /** Whatever decodes, a node has at most one value. */
  lemma {:induction false} DecodedHasOneValue(b: Bytes)
    ensures DecodeChildren(b).Some? ==> OneValue(DecodeChildren(b).value)
  {
    hide R.SplitList, R.Count, N.DecodeShort, N.DecodeFull, ChildrenOf, OneValue;
    if R.SplitList(b).Ok? {
      DecodedShortHasOneValue(R.SplitList(b).value.content, 0);
      DecodedFullHasOneValue(R.SplitList(b).value.content, 0);
    }
  }

  /** The children of a tree that go by their hashes. */
  function Kids(t: P.Tree): seq<P.Tree> {
    match t
    case Short(_, val) => [val]
    case Full(cs) => cs
    case _ => []
  }

  /** A child of the tree goes by the hash with this number. */
  ghost predicate HasKid(t: P.Tree, H: N.Hasher, c: Hash) {
    exists i :: 0 <= i < |Kids(t)| && N.Big(Kids(t)[i], H) && Num(N.RootHash(Kids(t)[i], H)) == c
  }

  ghost predicate HasHash(cs: seq<Child>, c: Hash) {
    exists i :: 0 <= i < |cs| && cs[i].HashChild? && cs[i].hash == c
  }

  /** The nodes below a stored node. */
  function Views(t: P.Tree, H: N.Hasher): seq<N.Node> {
    match t
    case Short(_, val) => [N.RefView(val, 0, H)]
    case Full(cs) => N.RefViews(cs, 0, H)
    case _ => []
  }

  lemma {:induction false} ViewIsHash(t: P.Tree, H: N.Hasher, i: nat)
    requires i < |Kids(t)|
    ensures |Views(t, H)| == |Kids(t)| && (Views(t, H)[i].HashNode? <==> N.Big(Kids(t)[i], H))
    ensures N.Big(Kids(t)[i], H) ==> Views(t, H)[i] == N.HashNode(N.RootHash(Kids(t)[i], H))
  {
    hide N.Big, N.RefView, N.RootHash;
    if t.Full? {
      N.RefViewsAt(t.children, 0, H, i);
    }
    RefViewIsHash(Kids(t)[i], H);
  }

  lemma {:induction false} RefViewIsHash(t: P.Tree, H: N.Hasher)
    ensures N.RefView(t, 0, H).HashNode? <==> N.Big(t, H)
    ensures N.Big(t, H) ==> N.RefView(t, 0, H) == N.HashNode(N.RootHash(t, H))
  {
    assert !N.View(t, None, 0, H).HashNode?;
  }

  lemma {:induction false} HasKidIsView(t: P.Tree, H: N.Hasher, c: Hash)
    ensures |Views(t, H)| == |Kids(t)|
    ensures HasKid(t, H, c) <==>
            exists i :: 0 <= i < |Views(t, H)| && Views(t, H)[i].HashNode? && Num(Views(t, H)[i].hash) == c
  {
    hide N.Big, N.RootHash, Num, N.RefView, N.RefViews;
    forall i | 0 <= i < |Kids(t)|
      ensures Views(t, H)[i].HashNode? <==> N.Big(Kids(t)[i], H)
      ensures N.Big(Kids(t)[i], H) ==> Views(t, H)[i] == N.HashNode(N.RootHash(Kids(t)[i], H))
    {
      ViewIsHash(t, H, i);
    }
    assert |Views(t, H)| == |Kids(t)|;
  }

  lemma {:induction false} EntriesHaveHash(cs: seq<N.Node>, c: Hash)
    ensures HasHash(Entries(cs), c) <==> exists i :: 0 <= i < |cs| && cs[i].HashNode? && Num(cs[i].hash) == c
  {
    hide Num;
    if i :| 0 <= i < |Entries(cs)| && Entries(cs)[i].HashChild? && Entries(cs)[i].hash == c {
      EntriesAre(cs, Entries(cs)[i]);
    }
    if i :| 0 <= i < |cs| && cs[i].HashNode? && Num(cs[i].hash) == c {
      EntriesAre(cs, ChildOf(cs[i], 1));
    }
  }

  lemma {:induction false} ViewChildren(t: P.Tree, H: N.Hasher, c: Hash)
    requires N.IsNode(t)
    ensures HasHash(ChildrenOf(N.View(t, None, 0, H)), c) <==> HasKid(t, H, c)
  {
    hide N.RefView, N.RefViews, Num, HasKid;
    HasKidIsView(t, H, c);
    if t.Full? {
      EntriesHaveHash(Views(t, H), c);
    } else {
      var n := N.View(t, None, 0, H);
      assert Views(t, H) == [n.val] && ChildrenOf(n) == [ChildOf(n.val, |t.key|)];
      assert HasHash(ChildrenOf(n), c) <==> ChildrenOf(n)[0].HashChild? && ChildrenOf(n)[0].hash == c;
    }
  }

  /** In a world that decodes like the trie, a node refers to the children of the tree it was stored for that go by
      their hashes, each as a node of the same trie; in a storage trie to nothing else. */
  lemma {:induction false} StoredNodeRefers(w: World, h: Hash, t: P.Tree, H: N.Hasher, role: Role, c: Hash)
    requires w.decode == DecodeChildren && w.content(h) == N.Blob(t, H) && role != Raw
    requires P.Canonical(t) && |N.Blob(t, H)| < R.MAX_UINT64
    ensures Decodes(w, h) && (HasKid(t, H, c) ==> Refers(w, Ref(h, role), Ref(c, role)))
    ensures role == Storage ==> (Needs(w, Ref(h, role), c) <==> HasKid(t, H, c))
  {
    hide N.Blob, P.Canonical, N.DecodeNode, N.View, ChildrenOf, HasKid;
    N.DecodeInvertsEncode(t, None, [], 0, H);
    assert N.Blob(t, H) + [] == N.Blob(t, H);
    CanonicalIsNode(t);
    ViewChildren(t, H, c);
    var cs := ChildrenOf(N.View(t, None, 0, H));
    assert Children(w, h) == cs;
    if i :| 0 <= i < |cs| && cs[i].HashChild? && cs[i].hash == c {
      assert Ref(c, role) in ChildRefs(w, role, cs[i]);
    }
  }

  lemma {:induction false} CanonicalIsNode(t: P.Tree)
    requires P.Canonical(t)
    ensures N.IsNode(t)
  {
  }
}
