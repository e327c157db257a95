/** The Patricia trie as a plain tree: lookup, insertion, deletion, and its normal form. */
module Patricia {
  import opened Bytes
  import opened HexPrefix

  /** A trie with every node loaded. A leaf holds a value; full nodes have 17 children. */
  datatype Tree =
    | Nil
    | Leaf(value: Bytes)
    | Short(key: Bytes, val: Tree)
    | Full(children: seq<Tree>)

  const Empty17: seq<Tree> := [Nil, Nil, Nil, Nil, Nil, Nil, Nil, Nil, Nil, Nil, Nil, Nil, Nil, Nil, Nil, Nil, Nil]

  function Get(t: Tree, key: Bytes): Option<Bytes> {
    match t
    case Nil => None
    case Leaf(v) => Some(v)
    case Short(k, val) =>
      if |key| < |k| || key[..|k|] != k then None else Get(val, key[|k|..])
    case Full(cs) =>
      if |key| > 0 && key[0] < |cs| then Get(cs[key[0]], key[1..]) else None
  }

  /** The subtree that leads to `t` along `key`. */
  function Graft(key: Bytes, t: Tree): Tree {
    if key == [] then t else Short(key, t)
  }

  /** A full node with two entries. */
  function Branch(i: byte, a: Tree, j: byte, b: Tree): (cs: seq<Tree>)
    requires i < 17 && j < 17
    ensures |cs| == 17
  {
    Empty17[i := a][j := b]
  }

  /** Keys outside the trie's alphabet make the source panic; here they leave the tree alone. */
  function Insert(t: Tree, key: Bytes, value: Bytes): Tree {
    if key == [] then Leaf(value)
    else
      match t
      case Nil => Short(key, Leaf(value))
      case Leaf(_) => t
      case Short(k, val) =>
        var m := PrefixLen(key, k);
        if m == |k| then Short(k, Insert(val, key[m..], value))
        else if m < |key| && key[m] < 17 && k[m] < 17 then
          var cs := Branch(k[m], Graft(k[m + 1..], val), key[m], Graft(key[m + 1..], Leaf(value)));
          if m == 0 then Full(cs) else Short(key[..m], Full(cs))
        else t
      case Full(cs) =>
        if key[0] < |cs| then Full(cs[key[0] := Insert(cs[key[0]], key[1..], value)]) else t
  }

  /** Index of the only entry of a full node; -1 if it has none, -2 if it has more. */
  function OnlyChild(cs: seq<Tree>, from: nat, found: int): int
    requires from <= |cs|
    decreases |cs| - from
  {
    if from == |cs| then found
    else if cs[from].Nil? then OnlyChild(cs, from + 1, found)
    else if found == -1 then OnlyChild(cs, from + 1, from)
    else -2
  }

  /** A full node that may have lost an entry: reduced to a short node when one is left. */
  function Reduce(cs: seq<Tree>): Tree {
    var pos := OnlyChild(cs, 0, -1);
    if 0 <= pos < |cs| && pos < 256 then
      if pos != 16 && cs[pos].Short? then Short([pos] + cs[pos].key, cs[pos].val)
      else Short([pos], cs[pos])
    else Full(cs)
  }

  function Delete(t: Tree, key: Bytes): Tree {
    match t
    case Nil => Nil
    case Leaf(_) => Nil
    case Short(k, val) =>
      var m := PrefixLen(key, k);
      if m < |k| then t
      else if m == |key| then Nil
      else
        var child := Delete(val, key[m..]);
        if child.Short? then Short(k + child.key, child.val) else Short(k, child)
    case Full(cs) =>
      if |key| > 0 && key[0] < |cs| then Reduce(cs[key[0] := Delete(cs[key[0]], key[1..])]) else t
  }

  // ---- the normal form ----

  predicate ValueLeaf(t: Tree) {
    t.Leaf? && t.value != []
  }

  ghost predicate TwoEntries(cs: seq<Tree>) {
    exists i, j :: 0 <= i < j < |cs| && cs[i] != Nil && cs[j] != Nil
  }

  /** Short nodes carry terminated keys to values or nibbles to full nodes; full nodes have
      at least two entries; values are never empty. */
  ghost predicate Canonical(t: Tree) {
    match t
    case Nil => false
    case Leaf(_) => false
    case Short(k, val) =>
      if HasTerm(k) then ValidKey(k) && ValueLeaf(val)
      else k != [] && AllNibbles(k) && val.Full? && Canonical(val)
    case Full(cs) =>
      && |cs| == 17
      && (forall i :: 0 <= i < 16 ==> cs[i] == Nil || Canonical(cs[i]))
      && (cs[16] == Nil || ValueLeaf(cs[16]))
      && TwoEntries(cs)
  }

  ghost predicate CanonicalRoot(t: Tree) {
    t == Nil || Canonical(t)
  }

  /** t can stand where `key` is the rest of a key. */
  ghost predicate FitsKey(t: Tree, key: Bytes) {
    if key == [] then t == Nil || ValueLeaf(t) else ValidKey(key) && CanonicalRoot(t)
  }

  lemma {:induction false} ShortParts(t: Tree)
    requires t.Short? && Canonical(t)
    ensures t.key != [] && HexKey(t.key) && forall i :: 0 <= i < |t.key| ==> t.key[i] <= 16
    ensures forall i :: 0 <= i < |t.key| - 1 ==> t.key[i] < 16
    ensures if HasTerm(t.key) then ValueLeaf(t.val) else t.val.Full? && Canonical(t.val)
  {
    var k := t.key;
    assert HasTerm(k) ==> forall i :: 0 <= i < |k| - 1 ==> k[i] == k[..|k| - 1][i];
  }

  lemma {:induction false} SuffixDrop(key: Bytes, m: nat)
    requires ValidKey(key) && m <= |key|
    ensures m < |key| ==> ValidKey(key[m..])
    ensures forall i :: 0 <= i < |key| - 1 ==> key[i] < 16
  {
    assert forall i :: 0 <= i < |key| - 1 ==> key[i] == key[..|key| - 1][i];
  }

  /** How the rest of a key meets a short node. */
  lemma {:induction false} FitsShort(t: Tree, key: Bytes)
    requires t.Short? && FitsKey(t, key)
    ensures key != []
    ensures var m := PrefixLen(key, t.key);
            && (m == |t.key| ==> FitsKey(t.val, key[m..]))
            && (m == |t.key| && HasTerm(t.key) <==> m == |key|)
            && (m < |t.key| ==> m < |key| && key[m] < 17 && t.key[m] < 17 && key[m] != t.key[m])
  {
    hide Canonical;
    var k, m := t.key, PrefixLen(key, t.key);
    ShortParts(t);
    SuffixDrop(key, m);
    assert forall i :: 0 <= i < m ==> key[..m][i] == key[i] && k[..m][i] == k[i];
  }

  lemma {:induction false} FitsFull(t: Tree, key: Bytes)
    requires t.Full? && FitsKey(t, key)
    ensures key != [] && key[0] < 17 == |t.children| && FitsKey(t.children[key[0]], key[1..])
    ensures key[0] == 16 <==> key[1..] == []
  {
    SuffixDrop(key, 1);
  }

  // ---- building blocks of the normal form ----

  /** What entry i of a full node may hold. */
  ghost predicate Entry(i: nat, t: Tree) {
    t == Nil || if i == 16 then ValueLeaf(t) else Canonical(t)
  }

  ghost predicate Entries(cs: seq<Tree>) {
    |cs| == 17 && forall i :: 0 <= i < 17 ==> Entry(i, cs[i])
  }

  lemma {:induction false} FullIsEntries(cs: seq<Tree>)
    ensures Canonical(Full(cs)) <==> Entries(cs) && TwoEntries(cs)
  {
    if |cs| == 17 {
      assert Entry(16, cs[16]) <==> cs[16] == Nil || ValueLeaf(cs[16]);
      assert forall i :: 0 <= i < 16 ==> (Entry(i, cs[i]) <==> cs[i] == Nil || Canonical(cs[i]));
    }
  }

  /** The lower part of a short node, put under entry k[i] of a full node. */
  lemma {:induction false} GraftIsEntry(k: Bytes, val: Tree, i: nat)
    requires i < |k| && Canonical(Short(k, val))
    ensures k[i] < 17 && Graft(k[i + 1..], val) != Nil && Entry(k[i], Graft(k[i + 1..], val))
  {
    ShortParts(Short(k, val));
    var rest := k[i + 1..];
    if rest != [] {
      if HasTerm(k) {
        SuffixDrop(k, i + 1);
      } else {
        assert !HasTerm(rest);
      }
    }
  }

  lemma {:induction false} BranchIsCanonical(i: byte, a: Tree, j: byte, b: Tree)
    requires i < 17 && j < 17 && i != j
    requires a != Nil && b != Nil && Entry(i, a) && Entry(j, b)
    ensures Canonical(Full(Branch(i, a, j, b)))
  {
    hide Canonical;
    var cs := Branch(i, a, j, b);
    assert cs[i] == a && cs[j] == b;
    assert forall k :: 0 <= k < 17 && k != i && k != j ==> cs[k] == Nil;
    assert TwoEntries(cs) by {
      if i < j {
        assert cs[i] != Nil && cs[j] != Nil;
      } else {
        assert cs[j] != Nil && cs[i] != Nil;
      }
    }
    FullIsEntries(cs);
  }

  lemma {:induction false} GetGraft(k: Bytes, t: Tree, key: Bytes)
    ensures Get(Graft(k, t), key) == if k <= key then Get(t, key[|k|..]) else None
  {
    assert k == [] ==> key[|k|..] == key;
    assert k <= key <==> |k| <= |key| && key[..|k|] == k;
  }

  /** Looking up below a short node, in two stages. */
  lemma {:induction false} GetInStages(k: Bytes, val: Tree, m: nat, key: Bytes)
    requires m <= |k|
    ensures Get(Short(k, val), key) ==
            if m <= |key| && key[..m] == k[..m] then Get(Graft(k[m..], val), key[m..]) else None
  {
    if m <= |key| {
      GetGraft(k[m..], val, key[m..]);
      GetGraft(k, val, key);
      assert k == k[..m] + k[m..] && key == key[..m] + key[m..];
      assert k <= key ==> k[..m] == key[..m] && key[m..][|k| - m..] == key[|k|..];
    }
  }

  // ---- insertion ----

  lemma {:induction false} InsertIsCanonical(t: Tree, key: Bytes, value: Bytes)
    requires FitsKey(t, key) && value != []
    ensures FitsKey(Insert(t, key, value), key) && Insert(t, key, value) != Nil
    ensures t.Full? ==> Insert(t, key, value).Full?
    decreases t
  {
    if key != [] {
      match t
      case Nil =>
      case Short(k, val) =>
        FitsShort(t, key);
        ShortParts(t);
        var m := PrefixLen(key, k);
        if m == |k| {
          InsertIsCanonical(val, key[m..], value);
        } else {
          SplitIsCanonical(k, val, key, value);
        }
      case Full(cs) =>
        FitsFull(t, key);
        InsertIsCanonical(cs[key[0]], key[1..], value);
        EntryReplaced(cs, key[0], Insert(cs[key[0]], key[1..], value));
    }
  }

  lemma {:induction false} SplitIsCanonical(k: Bytes, val: Tree, key: Bytes, value: Bytes)
    requires FitsKey(Short(k, val), key) && value != [] && PrefixLen(key, k) < |k|
    ensures Canonical(Insert(Short(k, val), key, value))
  {
    hide Canonical;
    FitsShort(Short(k, val), key);
    var m := PrefixLen(key, k);
    assert Canonical(Short(key, Leaf(value))) by { ShortIsCanonical(key, Leaf(value)); }
    GraftIsEntry(k, val, m);
    GraftIsEntry(key, Leaf(value), m);
    var cs := Branch(k[m], Graft(k[m + 1..], val), key[m], Graft(key[m + 1..], Leaf(value)));
    BranchIsCanonical(k[m], Graft(k[m + 1..], val), key[m], Graft(key[m + 1..], Leaf(value)));
    if m > 0 {
      SuffixDrop(key, m);
      assert AllNibbles(key[..m]) && !HasTerm(key[..m]);
      ShortIsCanonical(key[..m], Full(cs));
    }
  }

  lemma {:induction false} ShortIsCanonical(k: Bytes, val: Tree)
    requires if HasTerm(k) then ValidKey(k) && ValueLeaf(val)
             else k != [] && AllNibbles(k) && val.Full? && Canonical(val)
    ensures Canonical(Short(k, val))
  {
  }

  lemma {:induction false} EntryReplaced(cs: seq<Tree>, i: nat, t: Tree)
    requires Canonical(Full(cs)) && i < 17 && t != Nil && Entry(i, t)
    ensures Canonical(Full(cs[i := t]))
  {
    hide Canonical;
    FullIsEntries(cs);
    var cs' := cs[i := t];
    var a, b :| 0 <= a < b < |cs| && cs[a] != Nil && cs[b] != Nil;
    assert cs'[a] != Nil && cs'[b] != Nil;
    FullIsEntries(cs');
  }

  /** Insertion changes the answer at exactly its own key. */
  lemma {:induction false} GetInsert(t: Tree, key: Bytes, value: Bytes, other: Bytes)
    requires FitsKey(t, key) && FitsKey(t, other) && (key == [] <==> other == [])
    ensures Get(Insert(t, key, value), other) == if other == key then Some(value) else Get(t, other)
    decreases t, 1
  {
    hide Canonical;
    if t.Leaf? {
      LeafFits(t, key);
    }
    if key != [] {
      match t
      case Leaf(_) =>
      case Nil =>
        if key <= other {
          ValidKeysPrefixFree(key, other);
        }
      case Short(k, val) =>
        if PrefixLen(key, k) == |k| {
          GetInsertBelow(k, val, key, value, other);
        } else {
          assert PrefixLen(key, k) < |k|;
          GetSplit(k, val, key, value, other);
        }
      case Full(cs) =>
        GetInsertEntry(cs, key, value, other);
    }
  }

  /** Inserting below a short node whose key leads on. */
  lemma {:induction false} GetInsertBelow(k: Bytes, val: Tree, key: Bytes, value: Bytes, other: Bytes)
    requires var t := Short(k, val); FitsKey(t, key) && FitsKey(t, other) && key != [] && other != []
    requires PrefixLen(key, k) == |k|
    ensures Get(Insert(Short(k, val), key, value), other) ==
            if other == key then Some(value) else Get(Short(k, val), other)
    decreases Short(k, val), 0
  {
    hide Canonical, FitsKey;
    FitsShort(Short(k, val), key);
    FitsShort(Short(k, val), other);
    assert key == k + key[|k|..] by { assert key[..|k|] == k[..|k|] == k; }
    if |k| <= |other| && other[..|k|] == k {
      PrefixLenUnique(other, k, |k|);
      assert other == k + other[|k|..];
      GetInsert(val, key[|k|..], value, other[|k|..]);
    }
  }

  lemma {:induction false} GetInsertEntry(cs: seq<Tree>, key: Bytes, value: Bytes, other: Bytes)
    requires var t := Full(cs); FitsKey(t, key) && FitsKey(t, other) && key != [] && other != []
    ensures Get(Insert(Full(cs), key, value), other) ==
            if other == key then Some(value) else Get(Full(cs), other)
    decreases Full(cs), 0
  {
    hide Canonical, FitsKey;
    FitsFull(Full(cs), key);
    FitsFull(Full(cs), other);
    assert key == [key[0]] + key[1..] && other == [other[0]] + other[1..];
    if key[0] == other[0] {
      GetInsert(cs[key[0]], key[1..], value, other[1..]);
    }
  }

  lemma {:induction false} GetSplit(k: Bytes, val: Tree, key: Bytes, value: Bytes, other: Bytes)
    requires FitsKey(Short(k, val), key) && FitsKey(Short(k, val), other) && PrefixLen(key, k) < |k|
    ensures Get(Insert(Short(k, val), key, value), other) ==
            if other == key then Some(value) else Get(Short(k, val), other)
  {
    hide Canonical;
    var m := PrefixLen(key, k);
    FitsShort(Short(k, val), key);
    var a, b := Graft(k[m + 1..], val), Graft(key[m + 1..], Leaf(value));
    var cs := Branch(k[m], a, key[m], b);
    GetInStages(k, val, m, other);
    GetInStages(key, Leaf(value), m, other);
    var n := Insert(Short(k, val), key, value);
    assert n == Graft(key[..m], Full(cs));
    GetGraft(key[..m], Full(cs), other);
    assert Get(Short(key, Leaf(value)), other) == if other == key then Some(value) else None by {
      if key <= other {
        ValidKeysPrefixFree(key, other);
      }
    }
    if m <= |other| && other[..m] == key[..m] {
      var rest := other[m..];
      GetUnderEntry(k[m..], val, rest);
      GetUnderEntry(key[m..], Leaf(value), rest);
      assert k[m..][1..] == k[m + 1..] && key[m..][1..] == key[m + 1..];
    }
  }

  /** A short node entered through its first nibble. */
  lemma {:induction false} GetUnderEntry(k: Bytes, val: Tree, key: Bytes)
    requires k != []
    ensures Get(Graft(k, val), key) == if key != [] && key[0] == k[0] then Get(Graft(k[1..], val), key[1..]) else None
  {
    GetInStages(k, val, 1, key);
  }

  // ---- deletion ----

  lemma {:induction false} OnlyChildFinds(cs: seq<Tree>, from: nat, found: int)
    requires from <= |cs| && -1 <= found < from
    requires forall i :: 0 <= i < from ==> (cs[i] != Nil <==> i == found)
    ensures var pos := OnlyChild(cs, from, found);
            && (pos == -2 ==> TwoEntries(cs))
            && (pos != -2 ==> -1 <= pos < |cs| && forall i :: 0 <= i < |cs| ==> (cs[i] != Nil <==> i == pos))
    decreases |cs| - from
  {
    if from < |cs| {
      if cs[from] == Nil {
        OnlyChildFinds(cs, from + 1, found);
      } else if found == -1 {
        OnlyChildFinds(cs, from + 1, from);
      } else {
        assert cs[found] != Nil && cs[from] != Nil;
      }
    }
  }

  method ScanChildren(cs: seq<Tree>) returns (pos: int)
    ensures pos == OnlyChild(cs, 0, -1)
  {
    pos := -1;
    var i := 0;
    while i < |cs|
      invariant 0 <= i <= |cs| && pos >= -1
      invariant OnlyChild(cs, 0, -1) == OnlyChild(cs, i, pos)
    {
      if cs[i] != Nil {
        if pos == -1 {
          pos := i;
        } else {
          pos := -2;
          break;
        }
      }
      i := i + 1;
    }
  }

  /** Reducing a full node does not change what it holds. */
  lemma {:induction false} GetReduce(cs: seq<Tree>, key: Bytes)
    requires |cs| == 17 && key != [] && key[0] < 17
    ensures Get(Reduce(cs), key) == Get(cs[key[0]], key[1..])
  {
    OnlyChildFinds(cs, 0, -1);
    var pos := OnlyChild(cs, 0, -1);
    if pos >= 0 {
      var t := cs[pos];
      var n := Reduce(cs);
      GetUnderEntry(n.key, n.val, key);
      if pos != 16 && t.Short? {
        assert n.key[1..] == t.key;
        GetGraft(t.key, t.val, key[1..]);
      } else {
        assert n.key[1..] == [];
      }
    }
  }

  lemma {:induction false} ReduceIsCanonical(cs: seq<Tree>)
    requires Entries(cs) && exists i :: 0 <= i < 17 && cs[i] != Nil
    ensures Canonical(Reduce(cs))
  {
    hide Canonical;
    OnlyChildFinds(cs, 0, -1);
    var pos := OnlyChild(cs, 0, -1);
    if pos == -2 {
      FullIsEntries(cs);
    } else {
      assert Entry(pos, cs[pos]);
      if pos == 16 {
        ShortIsCanonical([16], cs[16]);
      } else if cs[pos].Short? {
        MergeIsCanonical([pos], cs[pos]);
      } else {
        assert Canonical(cs[pos]);
        assert cs[pos].Full? by { OnlyNodesAreCanonical(cs[pos]); }
        ShortIsCanonical([pos], cs[pos]);
      }
    }
  }

  lemma {:induction false} OnlyNodesAreCanonical(t: Tree)
    requires Canonical(t)
    ensures t.Short? || t.Full?
  {
  }

  /** Two short nodes in a row become one. */
  lemma {:induction false} MergeIsCanonical(k: Bytes, t: Tree)
    requires k != [] && AllNibbles(k) && t.Short? && Canonical(t)
    ensures Canonical(Short(k + t.key, t.val))
  {
    ShortParts(t);
    var kk := k + t.key;
    assert kk[|kk| - 1] == t.key[|t.key| - 1];
    assert HasTerm(kk) ==> kk[..|kk| - 1] == k + t.key[..|t.key| - 1];
  }

  /** Merging short nodes does not change what they hold. */
  lemma {:induction false} GetBelow(k: Bytes, t: Tree, key: Bytes)
    ensures var n := if t.Short? then Short(k + t.key, t.val) else Short(k, t);
            Get(n, key) == if k <= key then Get(t, key[|k|..]) else None
  {
    if t.Short? {
      GetInStages(k + t.key, t.val, |k|, key);
      assert (k + t.key)[..|k|] == k && (k + t.key)[|k|..] == t.key;
      if k <= key {
        GetGraft(t.key, t.val, key[|k|..]);
      }
    }
  }

  lemma {:induction false} DeleteIsCanonical(t: Tree, key: Bytes)
    requires FitsKey(t, key)
    ensures FitsKey(Delete(t, key), key)
    ensures t.Full? ==> Delete(t, key) != Nil
    decreases t
  {
    hide Canonical;
    match t
    case Nil =>
    case Leaf(_) =>
    case Short(k, val) =>
      FitsShort(t, key);
      ShortParts(t);
      var m := PrefixLen(key, k);
      if m == |k| && m != |key| {
        DeleteIsCanonical(val, key[m..]);
        var child := Delete(val, key[m..]);
        OnlyNodesAreCanonical(child);
        if child.Short? {
          MergeIsCanonical(k, child);
        } else {
          ShortIsCanonical(k, child);
        }
      }
    case Full(cs) =>
      FitsFull(t, key);
      DeleteIsCanonical(cs[key[0]], key[1..]);
      FullIsEntries(cs);
      var a, b :| 0 <= a < b < |cs| && cs[a] != Nil && cs[b] != Nil;
      var cs' := cs[key[0] := Delete(cs[key[0]], key[1..])];
      assert cs'[a] != Nil || cs'[b] != Nil;
      ReduceIsCanonical(cs');
  }

  lemma {:induction false} LeafFits(t: Tree, key: Bytes)
    requires t.Leaf? && FitsKey(t, key)
    ensures key == []
  {
  }

  /** Deletion changes the answer at exactly its own key. */
  lemma {:induction false} GetDelete(t: Tree, key: Bytes, other: Bytes)
    requires FitsKey(t, key) && FitsKey(t, other) && (key == [] <==> other == [])
    ensures Get(Delete(t, key), other) == if other == key then None else Get(t, other)
    decreases t, 2
  {
    hide Canonical;
    if t.Leaf? {
      LeafFits(t, key);
    }
    match t
    case Nil =>
    case Leaf(_) =>
    case Short(k, val) =>
      FitsShort(t, key);
      FitsShort(t, other);
      if PrefixLen(key, k) == |k| {
        GetDeleteBelow(k, val, key, other);
      } else {
        GetGraft(k, val, key);
      }
    case Full(cs) =>
      GetDeleteEntry(cs, key, other);
  }

  lemma {:induction false} GetDeleteEntry(cs: seq<Tree>, key: Bytes, other: Bytes)
    requires var t := Full(cs); FitsKey(t, key) && FitsKey(t, other)
    ensures Get(Delete(Full(cs), key), other) == if other == key then None else Get(Full(cs), other)
    decreases Full(cs), 0
  {
    hide Canonical, FitsKey, Reduce;
    FitsFull(Full(cs), key);
    FitsFull(Full(cs), other);
    assert key == [key[0]] + key[1..] && other == [other[0]] + other[1..];
    GetReduce(cs[key[0] := Delete(cs[key[0]], key[1..])], other);
    if key[0] == other[0] {
      GetDelete(cs[key[0]], key[1..], other[1..]);
    }
  }

  lemma {:induction false} GetDeleteBelow(k: Bytes, val: Tree, key: Bytes, other: Bytes)
    requires var t := Short(k, val); FitsKey(t, key) && FitsKey(t, other) && key != [] && other != []
    requires PrefixLen(key, k) == |k|
    ensures Get(Delete(Short(k, val), key), other) == if other == key then None else Get(Short(k, val), other)
    decreases Short(k, val), 1
  {
    if |k| == |key| {
      GetDeleteWhole(k, val, key, other);
    } else {
      GetDeleteUnder(k, val, key, other);
    }
  }

  lemma {:induction false} GetDeleteWhole(k: Bytes, val: Tree, key: Bytes, other: Bytes)
    requires var t := Short(k, val); FitsKey(t, key) && FitsKey(t, other) && key != [] && other != []
    requires PrefixLen(key, k) == |k| == |key|
    ensures Get(Delete(Short(k, val), key), other) == if other == key then None else Get(Short(k, val), other)
  {
    FitsShort(Short(k, val), other);
    if key <= other {
      ValidKeysPrefixFree(key, other);
    }
    hide Canonical, FitsKey;
    GetGraft(k, val, other);
    assert k == key by { assert key[..|k|] == key && k[..|k|] == k; }
  }

  lemma {:induction false} GetDeleteUnder(k: Bytes, val: Tree, key: Bytes, other: Bytes)
    requires var t := Short(k, val); FitsKey(t, key) && FitsKey(t, other) && key != [] && other != []
    requires PrefixLen(key, k) == |k| < |key|
    ensures Get(Delete(Short(k, val), key), other) == if other == key then None else Get(Short(k, val), other)
    decreases Short(k, val), 0
  {
    var t := Short(k, val);
    FitsShort(t, key);
    FitsShort(t, other);
    assert t.key != [] by { ShortParts(t); }
    hide Canonical, FitsKey;
    GetGraft(k, val, other);
    var rest := key[|k|..];
    assert key == k + rest by { assert key[..|k|] == k[..|k|] == k; }
    GetBelow(k, Delete(val, rest), other);
    if k <= other {
      PrefixLenUnique(other, k, |k|);
      assert other == k + other[|k|..];
      GetDelete(val, rest, other[|k|..]);
    }
  }

  // ---- the normal form is unique ----

  /** Some key a canonical tree holds. */
  ghost function SomeKey(t: Tree): (k: Bytes)
    requires Canonical(t)
    ensures ValidKey(k) && Get(t, k).Some?
    decreases t
  {
    match t
    case Short(key, val) =>
      ShortParts(t);
      var rest := if HasTerm(key) then [] else SomeKey(val);
      KeyOfShort(key, val, rest);
      key + rest
    case Full(cs) =>
      var i :| 0 <= i < 17 && cs[i] != Nil;
      SomeKeyVia(t, i)
  }

  /** Some key held through entry i of a full node. */
  ghost function SomeKeyVia(t: Tree, i: nat): (k: Bytes)
    requires t.Full? && Canonical(t) && i < 17 && t.children[i] != Nil
    ensures ValidKey(k) && k[0] == i && Get(t, k).Some?
    decreases t, 0
  {
    var rest := if i == 16 then [] else SomeKey(t.children[i]);
    var k: Bytes := [i] + rest;
    assert k[1..] == rest;
    assert rest != [] ==> k[..|k| - 1] == [i] + rest[..|rest| - 1];
    k
  }

  lemma {:induction false} KeyOfShort(k: Bytes, val: Tree, rest: Bytes)
    requires Canonical(Short(k, val))
    requires if HasTerm(k) then rest == [] else ValidKey(rest) && Get(val, rest).Some?
    ensures ValidKey(k + rest) && Get(Short(k, val), k + rest).Some?
  {
    var kk := k + rest;
    assert kk[..|k|] == k && kk[|k|..] == rest;
    if HasTerm(k) {
      assert kk == k;
    } else {
      assert kk[..|kk| - 1] == k + rest[..|rest| - 1];
    }
  }

  /** Two canonical trees hold the same map. */
  ghost predicate SameMap(a: Tree, b: Tree) {
    forall k: Bytes :: ValidKey(k) ==> Get(a, k) == Get(b, k)
  }

  /** Contents determine the tree: no trace of the order of updates and deletions is left. */
  lemma {:induction false} NormalFormIsUnique(a: Tree, b: Tree)
    requires CanonicalRoot(a) && CanonicalRoot(b) && SameMap(a, b)
    ensures a == b
    decreases a
  {
    if a == Nil || b == Nil {
      EmptyIsNil(a, b);
    } else if a.Short? && b.Short? {
      SameShortKeys(a, b);
      ShortParts(a);
      ShortParts(b);
      if HasTerm(a.key) {
        assert Get(a, a.key) == Some(a.val.value);
        assert Get(b, b.key) == Some(b.val.value);
      } else {
        SameBelowShort(a, b);
        NormalFormIsUnique(a.val, b.val);
      }
    } else if a.Full? && b.Full? {
      forall i | 0 <= i < 17
        ensures a.children[i] == b.children[i]
      {
        SameBelowEntry(a, b, i);
        if i < 16 {
          NormalFormIsUnique(a.children[i], b.children[i]);
        }
      }
      assert a.children == b.children;
    } else if a.Full? {
      var _ := ShortAndFullDiffer(b, a);
    } else {
      var _ := ShortAndFullDiffer(a, b);
    }
  }

  lemma {:induction false} EmptyIsNil(a: Tree, b: Tree)
    requires CanonicalRoot(a) && CanonicalRoot(b) && SameMap(a, b)
    requires a == Nil || b == Nil
    ensures a == b
  {
    if a != Nil {
      var _ := SomeKey(a);
    } else if b != Nil {
      var _ := SomeKey(b);
    }
  }

  /** A full node holds keys that part at once; a short node does not. */
  lemma {:induction false} ShortAndFullDiffer(s: Tree, f: Tree) returns (k: Bytes)
    requires s.Short? && f.Full? && Canonical(s) && Canonical(f)
    ensures ValidKey(k) && Get(s, k) != Get(f, k)
  {
    ShortParts(s);
    var i, j :| 0 <= i < j < 17 && f.children[i] != Nil && f.children[j] != Nil;
    var ki, kj := SomeKeyVia(f, i), SomeKeyVia(f, j);
    k := if s.key <= ki then kj else ki;
  }

  lemma {:induction false} SameShortKeys(a: Tree, b: Tree)
    requires a.Short? && b.Short? && Canonical(a) && Canonical(b) && SameMap(a, b)
    ensures a.key == b.key
  {
    if |a.key| < |b.key| {
      var _ := ShorterKeyDiffers(a, b);
    } else if |b.key| < |a.key| {
      var _ := ShorterKeyDiffers(b, a);
    } else {
      var k := SomeKey(a);
      assert a.key == k[..|a.key|] == b.key;
    }
  }

  lemma {:induction false} WholeKeyIsThere(t: Tree)
    requires t.Short? && ValueLeaf(t.val)
    ensures Get(t, t.key).Some?
  {
    assert t.key[|t.key|..] == [] && t.key[..|t.key|] == t.key;
  }

  lemma {:induction false} LongerKeyIsNot(t: Tree, k: Bytes)
    requires t.Short? && |k| < |t.key|
    ensures Get(t, k) == None
  {
  }

  /** A short node cannot stop before the point where its keys part. */
  lemma {:induction false} ShorterKeyDiffers(a: Tree, b: Tree) returns (k: Bytes)
    requires a.Short? && b.Short? && Canonical(a) && Canonical(b) && |a.key| < |b.key|
    ensures ValidKey(k) && Get(a, k) != Get(b, k)
  {
    ShortParts(a);
    if HasTerm(a.key) {
      k := a.key;
      WholeKeyIsThere(a);
      LongerKeyIsNot(b, k);
    } else {
      var i, j :| 0 <= i < j < 17 && a.val.children[i] != Nil && a.val.children[j] != Nil;
      var ki, kj := SomeKeyVia(a.val, i), SomeKeyVia(a.val, j);
      KeyOfShort(a.key, a.val, ki);
      KeyOfShort(a.key, a.val, kj);
      var n := |a.key|;
      assert (a.key + ki)[n] == i && (a.key + kj)[n] == j;
      k := if b.key <= a.key + ki then a.key + kj else a.key + ki;
    }
  }

  lemma {:induction false} SameBelowShort(a: Tree, b: Tree)
    requires a.Short? && b.Short? && Canonical(a) && Canonical(b) && a.key == b.key && !HasTerm(a.key) && SameMap(a, b)
    ensures SameMap(a.val, b.val)
  {
    ShortParts(a);
    forall k: Bytes | ValidKey(k)
      ensures Get(a.val, k) == Get(b.val, k)
    {
      var kk := a.key + k;
      assert kk[..|kk| - 1] == a.key + k[..|k| - 1];
      assert kk[..|a.key|] == a.key && kk[|a.key|..] == k;
      assert Get(a, kk) == Get(b, kk);
    }
  }

  lemma {:induction false} SameBelowEntry(a: Tree, b: Tree, i: nat)
    requires a.Full? && b.Full? && Canonical(a) && Canonical(b) && SameMap(a, b) && i < 17
    ensures if i == 16 then a.children[16] == b.children[16] else SameMap(a.children[i], b.children[i])
  {
    if i == 16 {
      GetLastEntry(a);
      GetLastEntry(b);
    } else {
      forall k: Bytes | ValidKey(k)
        ensures Get(a.children[i], k) == Get(b.children[i], k)
      {
        GetViaEntry(a, i, k);
        GetViaEntry(b, i, k);
      }
    }
  }

  lemma {:induction false} GetLastEntry(t: Tree)
    requires t.Full? && Canonical(t)
    ensures ValidKey([16]) && Get(t, [16]) == if t.children[16] == Nil then None else Some(t.children[16].value)
    ensures t.children[16] == Nil || t.children[16].Leaf?
  {
    assert [16 as byte][1..] == [];
  }

  lemma {:induction false} GetViaEntry(t: Tree, i: nat, k: Bytes)
    requires t.Full? && |t.children| == 17 && i < 16 && ValidKey(k)
    ensures ValidKey([i] + k) && Get(t, [i] + k) == Get(t.children[i], k)
  {
    var kk: Bytes := [i] + k;
    assert kk[..|kk| - 1] == [i] + k[..|k| - 1];
    assert kk[1..] == k;
  }

  // ---- whole histories ----

  /** An update as the trie's users make it: an empty value deletes. */
  datatype Update = Update(key: Bytes, value: Bytes)

  function Apply(t: Tree, u: Update): Tree {
    if u.value != [] then Insert(t, KeybytesToHex(u.key), u.value) else Delete(t, KeybytesToHex(u.key))
  }

  function Run(us: seq<Update>): Tree {
    if us == [] then Nil else Apply(Run(us[..|us| - 1]), us[|us| - 1])
  }

  /** The plain map the updates describe. */
  function Contents(us: seq<Update>): map<Bytes, Bytes> {
    if us == [] then map[]
    else
      var m, u := Contents(us[..|us| - 1]), us[|us| - 1];
      if u.value != [] then m[u.key := u.value] else m - {u.key}
  }

  /** After any updates and deletions the tree is canonical and answers like the plain map. */
  lemma {:induction false} RunRefinesMap(us: seq<Update>, k: Bytes)
    ensures CanonicalRoot(Run(us))
    ensures var m := Contents(us);
            Get(Run(us), KeybytesToHex(k)) == if k in m then Some(m[k]) else None
  {
    if us != [] {
      var t, u := Run(us[..|us| - 1]), us[|us| - 1];
      var key, other := KeybytesToHex(u.key), KeybytesToHex(k);
      RunRefinesMap(us[..|us| - 1], k);
      if other == key {
        KeybytesInjective(u.key, k);
      }
      if u.value != [] {
        InsertIsCanonical(t, key, u.value);
        GetInsert(t, key, u.value, other);
      } else {
        DeleteIsCanonical(t, key);
        GetDelete(t, key, other);
      }
    }
  }

  /** Paths that are not the path of a byte key are never held. */
  lemma {:induction false} RunHoldsByteKeys(us: seq<Update>, k: Bytes)
    requires ValidKey(k) && forall b :: k != KeybytesToHex(b)
    ensures Get(Run(us), k) == None
  {
    if us != [] {
      var t, u := Run(us[..|us| - 1]), us[|us| - 1];
      RunHoldsByteKeys(us[..|us| - 1], k);
      RunRefinesMap(us[..|us| - 1], []);
      if u.value != [] {
        GetInsert(t, KeybytesToHex(u.key), u.value, k);
      } else {
        GetDelete(t, KeybytesToHex(u.key), k);
      }
    }
  }

  /** Histories that describe the same map end in the same tree. */
  lemma {:induction false} HistoryDoesNotMatter(us: seq<Update>, vs: seq<Update>)
    requires Contents(us) == Contents(vs)
    ensures Run(us) == Run(vs)
  {
    RunRefinesMap(us, []);
    RunRefinesMap(vs, []);
    forall k: Bytes | ValidKey(k)
      ensures Get(Run(us), k) == Get(Run(vs), k)
    {
      if b :| k == KeybytesToHex(b) {
        RunRefinesMap(us, b);
        RunRefinesMap(vs, b);
      } else {
        RunHoldsByteKeys(us, k);
        RunHoldsByteKeys(vs, k);
      }
    }
    NormalFormIsUnique(Run(us), Run(vs));
  }
}
