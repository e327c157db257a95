/** The order in which a trie is walked, and what the walk meets. */
module TrieWalk {
  import opened Bytes
  import opened HexPrefix
  import opened Patricia

  // ---- lexicographic order, as bytes.Compare has it ----

  predicate Less(a: Bytes, b: Bytes) {
    if b == [] then false
    else if a == [] then true
    else a[0] < b[0] || (a[0] == b[0] && Less(a[1..], b[1..]))
  }

  lemma {:induction false} LessTransitive(a: Bytes, b: Bytes, c: Bytes)
    requires Less(a, b) && Less(b, c)
    ensures Less(a, c)
    decreases |a|
  {
    if a != [] && a[0] == b[0] && b[0] == c[0] {
      LessTransitive(a[1..], b[1..], c[1..]);
    }
  }

  lemma {:induction false} LessTotal(a: Bytes, b: Bytes)
    ensures !(Less(a, b) && Less(b, a))
    ensures a == b <==> !Less(a, b) && !Less(b, a)
    decreases |a|
  {
    if a != [] && b != [] {
      LessTotal(a[1..], b[1..]);
      assert a == [a[0]] + a[1..] && b == [b[0]] + b[1..];
    }
  }

  lemma {:induction false} LessCommonPrefix(p: Bytes, a: Bytes, b: Bytes)
    ensures Less(p + a, p + b) <==> Less(a, b)
    decreases |p|
  {
    if p == [] {
      assert p + a == a && p + b == b;
    } else {
      LessCommonPrefix(p[1..], a, b);
      assert (p + a)[1..] == p[1..] + a && (p + b)[1..] == p[1..] + b;
    }
  }

  /** Below a key without being a prefix of it: every extension is below it too. */
  lemma {:induction false} LessExtended(a: Bytes, x: Bytes, b: Bytes)
    requires Less(a, b) && !(a <= b)
    ensures Less(a + x, b)
    decreases |a|
  {
    assert a == [] ==> a <= b;
    if a[0] == b[0] {
      assert a == [a[0]] + a[1..] && b == [b[0]] + b[1..];
      assert a[1..] <= b[1..] ==> a <= b;
      LessExtended(a[1..], x, b[1..]);
      assert (a + x)[1..] == a[1..] + x;
    }
  }

  // ---- the walk ----

  datatype Visit = Visit(path: Bytes, tree: Tree)

  /** Every node of the tree with its path, parents first, children in order. */
  function Walk(t: Tree, path: Bytes): seq<Visit>
    decreases t, 18
  {
    [Visit(path, t)] + WalkBelow(t, path, 0)
  }

  /** The part of the walk below t that starts with child i. */
  function WalkBelow(t: Tree, path: Bytes, i: nat): seq<Visit>
    decreases t, 17 - i
  {
    match t
    case Nil => []
    case Leaf(_) => []
    case Short(k, val) => if i == 0 then Walk(val, path + k) else []
    case Full(cs) =>
      if i >= 17 || i >= |cs| then []
      else (if cs[i] == Nil then [] else Walk(cs[i], path + [i])) + WalkBelow(t, path, i + 1)
  }

  /** Paths strictly ascend. */
  ghost predicate Ascending(vs: seq<Visit>) {
    forall i, j :: 0 <= i < j < |vs| ==> Less(vs[i].path, vs[j].path)
  }

  /** Every path in vs continues `path` with a symbol of at least `from`. */
  ghost predicate Under(vs: seq<Visit>, path: Bytes, from: nat) {
    forall v :: v in vs ==> path <= v.path && |path| < |v.path| && v.path[|path|] >= from
  }

  lemma {:induction false} LessLonger(path: Bytes, longer: Bytes)
    requires path < longer
    ensures Less(path, longer)
  {
    LessCommonPrefix(path, [], longer[|path|..]);
    assert path + [] == path && longer == path + longer[|path|..];
  }

  lemma {:induction false} OneAscends(v: Visit)
    ensures Ascending([v])
  {
  }

  lemma {:induction false} AscendingJoin(a: seq<Visit>, b: seq<Visit>)
    requires Ascending(a) && Ascending(b)
    requires forall v, w :: v in a && w in b ==> Less(v.path, w.path)
    ensures Ascending(a + b)
  {
    var c := a + b;
    forall i, j | 0 <= i < j < |c|
      ensures Less(c[i].path, c[j].path)
    {
      if i < |a| <= j {
        assert c[i] in a && c[j] in b;
      }
    }
  }

  lemma {:induction false} LessAtSymbol(p: Bytes, a: Bytes, b: Bytes)
    requires p <= a && p <= b && |p| < |a| && |p| < |b| && a[|p|] < b[|p|]
    ensures Less(a, b)
  {
    LessCommonPrefix(p, a[|p|..], b[|p|..]);
    assert a == p + a[|p|..] && b == p + b[|p|..];
  }

  /** Every path of a walk starts with the path of its root. */
  lemma {:induction false} WalkPaths(t: Tree, path: Bytes)
    requires Canonical(t) || t.Leaf?
    ensures forall v :: v in Walk(t, path) ==> path <= v.path
    decreases t, 18
  {
    WalkBelowPaths(t, path, 0);
  }

  lemma {:induction false} WalkBelowPaths(t: Tree, path: Bytes, i: nat)
    requires Canonical(t) || t.Leaf?
    ensures Under(WalkBelow(t, path, i), path, if t.Full? then i else 0)
    decreases t, 17 - i
  {
    match t
    case Leaf(_) =>
    case Short(k, val) =>
      if i == 0 {
        ShortParts(t);
        WalkPaths(val, path + k);
      }
    case Full(cs) =>
      if i < 17 {
        WalkBelowPaths(t, path, i + 1);
        if cs[i] != Nil {
          EntryWalks(cs, i);
          WalkPaths(cs[i], path + [i]);
        }
      }
  }

  lemma {:induction false} EntryWalks(cs: seq<Tree>, i: nat)
    requires Canonical(Full(cs)) && i < 17 && cs[i] != Nil
    ensures Canonical(cs[i]) || cs[i].Leaf?
  {
    FullIsEntries(cs);
    assert Entry(i, cs[i]);
  }

  /** The walk goes through the paths in ascending order, so it meets each once. */
  lemma {:induction false} WalkAscends(t: Tree, path: Bytes)
    requires Canonical(t) || t.Leaf?
    ensures Ascending(Walk(t, path))
    decreases t, 18
  {
    hide Less, Ascending, Canonical, WalkBelow;
    WalkBelowAscends(t, path, 0);
    WalkBelowPaths(t, path, 0);
    OneAscends(Visit(path, t));
    var below := WalkBelow(t, path, 0);
    forall v | v in below
      ensures Less(path, v.path)
    {
      LessLonger(path, v.path);
    }
    AscendingJoin([Visit(path, t)], below);
  }

  /** What lies below an entry comes before what lies below later ones. */
  lemma {:induction false} EntryBeforeRest(t: Tree, path: Bytes, i: nat)
    requires t.Full? && Canonical(t) && i < |t.children| == 17 && t.children[i] != Nil
    ensures forall v, w :: v in Walk(t.children[i], path + [i]) && w in WalkBelow(t, path, i + 1) ==>
              Less(v.path, w.path)
  {
    EntryWalks(t.children, i);
    WalkPaths(t.children[i], path + [i]);
    WalkBelowPaths(t, path, i + 1);
    hide Walk, WalkBelow, Canonical, Less;
    forall v, w | v in Walk(t.children[i], path + [i]) && w in WalkBelow(t, path, i + 1)
      ensures Less(v.path, w.path)
    {
      assert v.path[|path|] == (path + [i])[|path|] == i;
      LessAtSymbol(path, v.path, w.path);
    }
  }

  lemma {:induction false} WalkBelowAscends(t: Tree, path: Bytes, i: nat)
    requires Canonical(t) || t.Leaf?
    ensures Ascending(WalkBelow(t, path, i))
    decreases t, 17 - i
  {
    hide Walk, WalkBelow, Less, Canonical, Ascending;
    WalkParts(t, path, i);
    match t
    case Nil =>
    case Leaf(_) =>
    case Short(k, val) =>
      if i == 0 {
        ShortParts(t);
        WalkAscends(val, path + k);
      }
    case Full(cs) =>
      FullHasEntries(t);
      if i < 17 {
        WalkBelowAscends(t, path, i + 1);
        if cs[i] != Nil {
          EntryWalks(cs, i);
          WalkAscends(cs[i], path + [i]);
          EntryBeforeRest(t, path, i);
          AscendingJoin(Walk(cs[i], path + [i]), WalkBelow(t, path, i + 1));
        }
      }
  }

  lemma {:induction false} FullHasEntries(t: Tree)
    requires t.Full? && Canonical(t)
    ensures |t.children| == 17
  {
  }

  /** What lies below a node from entry i on. */
  lemma {:induction false} WalkParts(t: Tree, path: Bytes, i: nat)
    ensures Ascending([])
    ensures t.Nil? || t.Leaf? || (t.Short? && i > 0) || (t.Full? && (i >= 17 || i >= |t.children|)) ==>
              WalkBelow(t, path, i) == []
    ensures t.Short? && i == 0 ==> WalkBelow(t, path, i) == Walk(t.val, path + t.key)
    ensures t.Full? && i < 17 && i < |t.children| ==>
              WalkBelow(t, path, i) ==
              (if t.children[i] == Nil then [] else Walk(t.children[i], path + [i])) + WalkBelow(t, path, i + 1)
    ensures t.Full? && i < 17 && i < |t.children| && t.children[i] == Nil ==>
              WalkBelow(t, path, i) == WalkBelow(t, path, i + 1)
  {
    hide Walk;
  }

  // ---- leaves of the walk are the contents ----

  /** The walk meets a leaf at path + k exactly when the tree holds that value under k. */
  lemma {:induction false} WalkMeetsContents(t: Tree, path: Bytes, k: Bytes, v: Bytes)
    requires FitsKey(t, k)
    ensures Visit(path + k, Leaf(v)) in Walk(t, path) <==> Get(t, k) == Some(v)
    decreases t, 18
  {
    var target := Visit(path + k, Leaf(v));
    match t
    case Nil => assert target !in Walk(t, path);
    case Leaf(w) =>
      LeafFits(t, k);
      assert path + k == path;
    case Short(key, val) =>
      WalkShortMeetsContents(t, path, k, v);
    case Full(cs) =>
      FitsFull(t, k);
      WalkBelowMeetsContents(t, path, 0, k, v);
  }

  lemma {:induction false} WalkShortMeetsContents(t: Tree, path: Bytes, k: Bytes, v: Bytes)
    requires t.Short? && FitsKey(t, k)
    ensures Visit(path + k, Leaf(v)) in Walk(t, path) <==> Get(t, k) == Some(v)
    decreases t, 17
  {
    hide Canonical, Get, Walk;
    var key, val := t.key, t.val;
    FitsShort(t, k);
    ShortParts(t);
    GetGraft(key, val, k);
    WalkOfShort(t, path, Visit(path + k, Leaf(v)));
    if key <= k {
      PrefixLenUnique(k, key, |key|);
      WalkMeetsContents(val, path + key, k[|key|..], v);
      assert path + k == path + key + k[|key|..];
    } else {
      WalkPaths(val, path + key);
      LongerPath(path, key, k);
    }
  }

  lemma {:induction false} WalkOfShort(t: Tree, path: Bytes, x: Visit)
    requires t.Short? && t.key != [] && x.tree.Leaf?
    ensures x in Walk(t, path) <==> x in Walk(t.val, path + t.key)
  {
  }

  lemma {:induction false} LongerPath(path: Bytes, a: Bytes, b: Bytes)
    ensures path + a <= path + b ==> a <= b
  {
    assert (path + a)[|path|..] == a && (path + b)[|path|..] == b;
  }

  lemma {:induction false} WalkBelowMeetsContents(t: Tree, path: Bytes, i: nat, k: Bytes, v: Bytes)
    requires t.Full? && FitsKey(t, k) && k != []
    ensures Visit(path + k, Leaf(v)) in WalkBelow(t, path, i) <==> k[0] >= i && Get(t, k) == Some(v)
    decreases t, if i < 17 then 17 - i else 0
  {
    FitsFull(t, k);
    if i < 17 {
      EntryMeetsContents(t, path, i, k, v);
      assert WalkBelow(t, path, i) == EntryWalk(t, path, i) + WalkBelow(t, path, i + 1);
      hide Walk, WalkBelow, EntryWalk, Canonical, Get;
      WalkBelowMeetsContents(t, path, i + 1, k, v);
    }
  }

  /** The walk of child i. */
  function EntryWalk(t: Tree, path: Bytes, i: nat): seq<Visit>
    requires t.Full? && i < |t.children| && i < 256
  {
    if t.children[i] == Nil then [] else Walk(t.children[i], path + [i])
  }

  lemma {:induction false} EntryMeetsContents(t: Tree, path: Bytes, i: nat, k: Bytes, v: Bytes)
    requires t.Full? && FitsKey(t, k) && k != [] && |t.children| == 17 && i < 17
    ensures Visit(path + k, Leaf(v)) in EntryWalk(t, path, i) <==> k[0] == i && Get(t, k) == Some(v)
    decreases t, 0
  {
    FitsFull(t, k);
    var cs := t.children;
    assert k[0] == i ==> Get(t, k) == Get(cs[i], k[1..]);
    assert Get(Nil, k[1..]) == None;
    hide Walk, WalkBelow, Canonical, Get;
    if cs[i] != Nil {
      if k[0] == i {
        assert path + k == path + [i] + k[1..];
        WalkMeetsContents(cs[i], path + [i], k[1..], v);
      } else {
        EntryWalks(cs, i);
        WalkPaths(cs[i], path + [i]);
        assert (path + k)[|path|] == k[0] && (path + [i])[|path|] == i;
      }
    }
  }

  /** Inner nodes have paths without terminator, leaves with it. */
  lemma {:induction false} WalkTerminators(t: Tree, path: Bytes)
    requires Canonical(t) && AllNibbles(path)
    ensures forall v :: v in Walk(t, path) ==> if v.tree.Leaf? then ValidKey(v.path) else AllNibbles(v.path)
    decreases t, 18
  {
    WalkBelowTerminators(t, path, 0);
  }

  lemma {:induction false} WalkBelowTerminators(t: Tree, path: Bytes, i: nat)
    requires Canonical(t) && AllNibbles(path)
    ensures forall v :: v in WalkBelow(t, path, i) ==> if v.tree.Leaf? then ValidKey(v.path) else AllNibbles(v.path)
    decreases t, 17 - i
  {
    match t
    case Short(k, val) =>
      ShortParts(t);
      if i == 0 {
        if HasTerm(k) {
          assert (path + k)[..|path + k| - 1] == path + k[..|k| - 1];
          assert Walk(val, path + k) == [Visit(path + k, val)];
        } else {
          WalkTerminators(val, path + k);
        }
      }
    case Full(cs) =>
      if i < 17 {
        WalkBelowTerminators(t, path, i + 1);
        if cs[i] != Nil {
          EntryWalks(cs, i);
          if i == 16 {
            GetLastEntry(t);
            assert (path + [16])[..|path|] == path;
            assert Walk(cs[16], path + [16]) == [Visit(path + [16], cs[16])];
          } else {
            WalkTerminators(cs[i], path + [i]);
          }
        }
      }
  }
}
