/** Trie nodes as they are kept in memory and in the database, and the node decoder. */
module NodeCodec {
  import opened Bytes
  import opened HexPrefix
  import opened RlpSpec
  import opened Patricia

  type Hash = h: Bytes | |h| == 32 witness
    [0, 0, 0, 0, 0, 0, 0, 0, 0, 0, 0, 0, 0, 0, 0, 0, 0, 0, 0, 0, 0, 0, 0, 0, 0, 0, 0, 0, 0, 0, 0, 0]

  /** Hashing is a parameter of the model; only freedom from collisions is ever assumed of it. */
  type Hasher = Bytes -> Hash

  /** Cached hash, cache generation (uint16) and whether the node has unsaved changes. */
  datatype Flag = Flag(hash: Option<Hash>, gen: nat, dirty: bool)

  datatype Node =
    | NilNode
    | ValueNode(value: Bytes)
    | ShortNode(key: Bytes, val: Node, sflags: Flag)
    | FullNode(children: seq<Node>, fflags: Flag)
    | HashNode(hash: Hash)

  // ---- the encoding of a tree, from scratch ----

  function CompactKey(k: Bytes): Bytes {
    if HexKey(k) then HexToCompact(k) else []
  }

  /** The RLP item of a node: children small enough are embedded, larger ones go by their hash. */
  function Item(t: Tree, H: Hasher): Value
    decreases t, 0
  {
    match t
    case Nil => Str([])
    case Leaf(v) => Str(v)
    case Short(k, val) => RlpSpec.List([Str(CompactKey(k)), Ref(val, H)])
    case Full(cs) => RlpSpec.List(Refs(cs, H))
  }

  function Ref(t: Tree, H: Hasher): Value
    decreases t, 1
  {
    if (t.Short? || t.Full?) && |Encode(Item(t, H))| >= 32 then Str(H(Encode(Item(t, H)))) else Item(t, H)
  }

  function Refs(ts: seq<Tree>, H: Hasher): (r: seq<Value>)
    ensures |r| == |ts|
    decreases ts, 2
  {
    if ts == [] then [] else [Ref(ts[0], H)] + Refs(ts[1..], H)
  }

  /** What is stored for a node. */
  function Blob(t: Tree, H: Hasher): Bytes {
    Encode(Item(t, H))
  }

  function RootHash(t: Tree, H: Hasher): Hash {
    H(Blob(t, H))
  }

  predicate IsNode(t: Tree) {
    t.Short? || t.Full?
  }

  /** The node goes by its hash. */
  predicate Big(t: Tree, H: Hasher) {
    IsNode(t) && |Blob(t, H)| >= 32
  }

  lemma {:induction false} RefsAt(ts: seq<Tree>, H: Hasher, i: nat)
    requires i < |ts|
    ensures Refs(ts, H)[i] == Ref(ts[i], H)
  {
    if i > 0 {
      RefsAt(ts[1..], H, i - 1);
    }
  }

  // ---- the decoder ----

  /** Parses a stored node. Where the source panics on an empty key, this fails. */
  function DecodeNode(hash: Option<Hash>, buf: Bytes, gen: nat): Option<Node>
    decreases |buf|, 0
  {
    match SplitList(buf)
    case Err(_) => None
    case Ok(s) =>
      match Count(s.content)
      case Err(_) => None
      case Ok(c) =>
        ContentIsShorter(buf);
        if c == 2 then DecodeShort(hash, s.content, gen)
        else if c == 17 then DecodeFull(hash, s.content, gen)
        else None
  }

  lemma {:induction false} ContentIsShorter(buf: Bytes)
    requires SplitList(buf).Ok?
    ensures |SplitList(buf).value.content| < |buf|
  {
  }

  function DecodeShort(hash: Option<Hash>, elems: Bytes, gen: nat): Option<Node>
    decreases |elems|, 3
  {
    match SplitString(elems)
    case Err(_) => None
    case Ok(k) =>
      if k.content == [] then None
      else
        var key := CompactToHex(k.content);
        if HasTerm(key) then
          match SplitString(k.rest)
          case Err(_) => None
          case Ok(v) => Some(ShortNode(key, ValueNode(v.content), Flag(hash, gen, false)))
        else
          match DecodeRef(k.rest, gen)
          case None => None
          case Some((child, _)) => Some(ShortNode(key, child, Flag(hash, gen, false)))
  }

  function DecodeFull(hash: Option<Hash>, elems: Bytes, gen: nat): Option<Node>
    decreases |elems|, 3
  {
    match DecodeRefs(elems, 16, gen)
    case None => None
    case Some((cs, rest)) =>
      match SplitString(rest)
      case Err(_) => None
      case Ok(v) =>
        var last := if v.content != [] then ValueNode(v.content) else NilNode;
        Some(FullNode(cs + [last], Flag(hash, gen, false)))
  }

  /** The first n references in a row. */
  function DecodeRefs(elems: Bytes, n: nat, gen: nat): (r: Option<(seq<Node>, Bytes)>)
    ensures r.Some? ==> |r.value.0| == n
    decreases |elems|, 2
  {
    if n == 0 then Some(([], elems))
    else
      match DecodeRef(elems, gen)
      case None => None
      case Some((child, rest)) =>
        match DecodeRefs(rest, n - 1, gen)
        case None => None
        case Some((cs, rest')) => Some(([child] + cs, rest'))
  }

  function DecodeRef(buf: Bytes, gen: nat): (r: Option<(Node, Bytes)>)
    ensures r.Some? ==> |r.value.1| < |buf|
    decreases |buf|, 1
  {
    match Split(buf)
    case Err(_) => None
    case Ok(s) =>
      if s.kind == KList then
        if |buf| - |s.rest| > 32 then None
        else
          match DecodeNode(None, buf, gen)
          case None => None
          case Some(n) => Some((n, s.rest))
      else if s.kind == KString && |s.content| == 0 then Some((NilNode, s.rest))
      else if s.kind == KString && |s.content| == 32 then Some((HashNode(s.content), s.rest))
      else None
  }

  // ---- the decoder inverts the encoding ----

  /** A node one level deep: big children as hashes, small ones spelled out. */
  function View(t: Tree, hash: Option<Hash>, gen: nat, H: Hasher): Node
    decreases t, 0
  {
    match t
    case Nil => NilNode
    case Leaf(v) => ValueNode(v)
    case Short(k, val) => ShortNode(k, RefView(val, gen, H), Flag(hash, gen, false))
    case Full(cs) => FullNode(RefViews(cs, gen, H), Flag(hash, gen, false))
  }

  function RefView(t: Tree, gen: nat, H: Hasher): Node
    decreases t, 1
  {
    if Big(t, H) then HashNode(H(Blob(t, H))) else View(t, None, gen, H)
  }

  function RefViews(ts: seq<Tree>, gen: nat, H: Hasher): (r: seq<Node>)
    ensures |r| == |ts|
    decreases ts, 2
  {
    if ts == [] then [] else [RefView(ts[0], gen, H)] + RefViews(ts[1..], gen, H)
  }

  lemma {:induction false} RefViewsAt(ts: seq<Tree>, gen: nat, H: Hasher, i: nat)
    requires i < |ts|
    ensures RefViews(ts, gen, H)[i] == RefView(ts[i], gen, H)
  {
    if i > 0 {
      RefViewsAt(ts[1..], gen, H, i - 1);
    }
  }

  /** Decoding a stored node gives back the node, up to children left as hashes. */
  lemma {:induction false} DecodeInvertsEncode(t: Tree, hash: Option<Hash>, rest: Bytes, gen: nat, H: Hasher)
    requires Canonical(t) && |Blob(t, H)| < MAX_UINT64
    ensures DecodeNode(hash, Blob(t, H) + rest, gen) == Some(View(t, hash, gen, H))
    decreases t, 2
  {
    var item := Item(t, H);
    SplitOfEncoding(item, rest);
    var elems := EncodeAll(item.items);
    if t.Short? {
      DecodeInvertsShort(t, hash, gen, H);
    } else {
      DecodeInvertsFull(t, hash, gen, H);
    }
  }

  lemma {:induction false} EncodePair(a: Value, b: Value)
    ensures EncodeAll([a, b]) == Encode(a) + (Encode(b) + [])
  {
    assert [a, b][1..] == [b];
    assert EncodeAll([b]) == Encode(b) + EncodeAll([b][1..]);
  }

  lemma {:induction false} DecodeInvertsShort(t: Tree, hash: Option<Hash>, gen: nat, H: Hasher)
    requires t.Short? && Canonical(t) && |Blob(t, H)| < MAX_UINT64
    ensures DecodeShort(hash, EncodeAll(Item(t, H).items), gen) == Some(View(t, hash, gen, H))
    decreases t, 1
  {
    hide Encode, EncodeAll, SplitString, CompactToHex, HexToCompact, DecodeRef, DecodeShort, Canonical;
    var items := Item(t, H).items;
    var k, r := items[0], items[1];
    assert items == [k, r];
    ShortParts(t);
    CompactRoundTrip(t.key);
    ShortFits(t, H);
    EncodePair(k, r);
    var elems, more := EncodeAll(items), Encode(r) + [];
    SplitStringOf(k.bytes, more);
    if HasTerm(t.key) {
      LeafGoesAsString(t.val, gen, H);
      SplitStringOf(t.val.value, []);
      DecodeShortParts(hash, elems, gen, t.key, ValueNode(t.val.value));
    } else {
      DecodeInvertsRef(t.val, [], gen, H);
      DecodeShortParts(hash, elems, gen, t.key, RefView(t.val, gen, H));
    }
  }

  lemma {:induction false} ShortFits(t: Tree, H: Hasher)
    requires t.Short? && |Blob(t, H)| < MAX_UINT64
    ensures Fits(Str(CompactKey(t.key))) && Fits(Ref(t.val, H))
  {
    hide HexToCompact;
    var k, r := Str(CompactKey(t.key)), Ref(t.val, H);
    EncodePair(k, r);
    assert Item(t, H) == RlpSpec.List([k, r]);
    assert |Encode(Item(t, H))| >= |EncodeAll([k, r])|;
  }

  lemma {:induction false} LeafGoesAsString(t: Tree, gen: nat, H: Hasher)
    requires t.Leaf?
    ensures Ref(t, H) == Str(t.value) && RefView(t, gen, H) == ValueNode(t.value)
  {
  }

  lemma {:induction false} SplitStringOf(s: Bytes, rest: Bytes)
    requires Fits(Str(s))
    ensures var r := SplitString(Encode(Str(s)) + rest); r.Ok? && r.value.content == s && r.value.rest == rest
  {
    hide Encode;
    SplitOfEncoding(Str(s), rest);
  }

  /** A short node from its decoded key and child. */
  lemma {:induction false} DecodeShortParts(hash: Option<Hash>, elems: Bytes, gen: nat, key: Bytes, child: Node)
    requires SplitString(elems).Ok? && SplitString(elems).value.content != []
    requires CompactToHex(SplitString(elems).value.content) == key
    requires var more := SplitString(elems).value.rest;
             if HasTerm(key) then SplitString(more).Ok? && child == ValueNode(SplitString(more).value.content)
             else DecodeRef(more, gen).Some? && DecodeRef(more, gen).value.0 == child
    ensures DecodeShort(hash, elems, gen) == Some(ShortNode(key, child, Flag(hash, gen, false)))
  {
    hide SplitString, CompactToHex, DecodeRef;
  }

  lemma {:induction false} DecodeInvertsFull(t: Tree, hash: Option<Hash>, gen: nat, H: Hasher)
    requires t.Full? && Canonical(t) && |Blob(t, H)| < MAX_UINT64
    ensures DecodeFull(hash, EncodeAll(Item(t, H).items), gen) == Some(View(t, hash, gen, H))
    decreases t, 1
  {
    var cs := t.children;
    var last := cs[16];
    assert cs == cs[..16] + [last];
    RefsAppend(cs[..16], last, H);
    EncodeAllAppend(Refs(cs[..16], H), [Ref(last, H)]);
    var tail := EncodeAll([Ref(last, H)]);
    assert tail == Encode(Ref(last, H)) + [];
    DecodeInvertsRefs(t, cs[..16], tail, gen, H);
    SplitOfEncoding(Ref(last, H), []);
    RefViewsAppend(cs[..16], last, gen, H);
  }

  lemma {:induction false} RefsAppend(ts: seq<Tree>, t: Tree, H: Hasher)
    ensures Refs(ts + [t], H) == Refs(ts, H) + [Ref(t, H)]
  {
    if ts == [] {
      assert ts + [t] == [t];
    } else {
      RefsAppend(ts[1..], t, H);
      assert (ts + [t])[1..] == ts[1..] + [t];
    }
  }

  lemma {:induction false} RefViewsAppend(ts: seq<Tree>, t: Tree, gen: nat, H: Hasher)
    ensures RefViews(ts + [t], gen, H) == RefViews(ts, gen, H) + [RefView(t, gen, H)]
  {
    if ts == [] {
      assert ts + [t] == [t];
    } else {
      RefViewsAppend(ts[1..], t, gen, H);
      assert (ts + [t])[1..] == ts[1..] + [t];
    }
  }

  /** The node entries of a full node, decoded one after the other. */
  lemma {:induction false} DecodeInvertsRefs(t: Tree, cs: seq<Tree>, rest: Bytes, gen: nat, H: Hasher)
    requires forall i :: 0 <= i < |cs| ==> cs[i] < t && (cs[i] == Nil || Canonical(cs[i]))
    requires |EncodeAll(Refs(cs, H))| < MAX_UINT64
    ensures DecodeRefs(EncodeAll(Refs(cs, H)) + rest, |cs|, gen) == Some((RefViews(cs, gen, H), rest))
    decreases t, 0, |cs|
  {
    hide Encode, EncodeAll, DecodeRef, Ref, RefView, Canonical;
    if cs == [] {
      NothingEncodes();
      assert [] + rest == rest;
    } else {
      var more := EncodeAll(Refs(cs[1..], H)) + rest;
      FirstRef(cs, rest, H);
      DecodeInvertsRef(cs[0], more, gen, H);
      DecodeInvertsRefs(t, cs[1..], rest, gen, H);
    }
  }

  lemma {:induction false} NothingEncodes()
    ensures EncodeAll([]) == []
  {
  }

  lemma {:induction false} FirstRef(cs: seq<Tree>, rest: Bytes, H: Hasher)
    requires cs != []
    ensures EncodeAll(Refs(cs, H)) + rest == Encode(Ref(cs[0], H)) + (EncodeAll(Refs(cs[1..], H)) + rest)
    ensures |EncodeAll(Refs(cs, H))| == |Encode(Ref(cs[0], H))| + |EncodeAll(Refs(cs[1..], H))|
  {
    hide Encode, Ref;
    assert Refs(cs, H)[0] == Ref(cs[0], H) && Refs(cs, H)[1..] == Refs(cs[1..], H);
  }

  lemma {:induction false} DecodeInvertsRef(t: Tree, rest: Bytes, gen: nat, H: Hasher)
    requires t == Nil || Canonical(t)
    requires |Encode(Ref(t, H))| < MAX_UINT64
    ensures DecodeRef(Encode(Ref(t, H)) + rest, gen) == Some((RefView(t, gen, H), rest))
    decreases t, 3
  {
    SplitOfEncoding(Ref(t, H), rest);
    if t != Nil {
      OnlyNodesAreCanonical(t);
      if !Big(t, H) {
        DecodeInvertsEncode(t, None, rest, gen, H);
      }
    }
  }
}
