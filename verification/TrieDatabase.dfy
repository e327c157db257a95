/** The reference-counted node cache in front of the disk database. */
module TrieDatabase {
  import opened Bytes
  import opened Collections
  import opened MapSum

  /** Hashes are opaque names here; zero is the name root references hang on. */
  type Hash = nat

  const ROOT: Hash := 0

  const HASH_LENGTH := 32

  const IDEAL_BATCH_SIZE := 100 * 1024

  datatype CachedNode = CachedNode(blob: Bytes, parents: int, children: map<Hash, int>)

  type Nodes = map<Hash, CachedNode>

  /** What is true of every hash: its blob, the nodes its blob refers to, and that references
      never go in circles. */
  datatype World = World(content: Hash -> Bytes, kids: Hash -> set<Hash>, rank: Hash -> nat)

  ghost predicate Acyclic(w: World) {
    forall h, c :: c in w.kids(h) ==> c != ROOT && w.rank(c) < w.rank(h)
  }

  lemma {:induction false} KidRank(w: World, h: Hash, c: Hash)
    requires Acyclic(w) && c in w.kids(h)
    ensures c != ROOT && w.rank(c) < w.rank(h)
  {
  }

  // ---- counting ----

  ghost function ParentsOf(nodes: Nodes, c: Hash): set<Hash> {
    set p | p in nodes && p != ROOT && c in nodes[p].children
  }

  function RootRefs(nodes: Nodes, c: Hash): int {
    if ROOT in nodes && c in nodes[ROOT].children then nodes[ROOT].children[c] else 0
  }

  ghost function Sizes(nodes: Nodes): map<Hash, int> {
    map h | h in nodes && h != ROOT :: HASH_LENGTH + |nodes[h].blob|
  }

  // ---- the invariant ----

  /** Recorded children are real ones, recorded once. */
  ghost predicate Recorded(nodes: Nodes, w: World) {
    && ROOT in nodes
    && forall p, c :: p in nodes && p != ROOT && c in nodes[p].children ==> c in w.kids(p) && nodes[p].children[c] == 1
  }

  /** Blobs are the ones the hashes name. */
  ghost predicate Genuine(nodes: Nodes, disk: map<Hash, Bytes>, w: World) {
    && (forall h :: h in nodes && h != ROOT ==> nodes[h].blob == w.content(h))
    && (forall h :: h in disk ==> disk[h] == w.content(h))
  }

  /** A node that is not on disk is counted exactly; gone from memory, nothing counts on it. */
  ghost predicate Counted(nodes: Nodes, disk: map<Hash, Bytes>) {
    forall c :: c != ROOT && c !in disk ==>
      if c in nodes then nodes[c].parents == |ParentsOf(nodes, c)| + RootRefs(nodes, c)
      else ParentsOf(nodes, c) == {} && RootRefs(nodes, c) == 0
  }

  /** Every child of a cached node is on disk or recorded; nodes in `open` are exempt while they
      are being put in or taken out. */
  ghost predicate Covered(nodes: Nodes, disk: map<Hash, Bytes>, w: World, open: set<Hash>) {
    forall p, c :: p in nodes && p != ROOT && p !in open && c in w.kids(p) ==> c in disk || c in nodes[p].children
  }

  /** The disk holds the children of everything it holds. */
  ghost predicate Closed(disk: map<Hash, Bytes>, w: World) {
    ROOT !in disk && forall p, c :: p in disk && c in w.kids(p) ==> c in disk
  }

  /** Root references are counted exactly for nodes not on disk. */
  ghost predicate RootsCounted(nodes: Nodes, disk: map<Hash, Bytes>, roots: multiset<Hash>) {
    forall r :: r != ROOT && r !in disk ==> RootRefs(nodes, r) == roots[r]
  }

  ghost predicate Inv(nodes: Nodes, disk: map<Hash, Bytes>, roots: multiset<Hash>, w: World, open: set<Hash>) {
    && Acyclic(w) && Recorded(nodes, w) && Genuine(nodes, disk, w)
    && Counted(nodes, disk) && Covered(nodes, disk, w, open)
    && Closed(disk, w) && RootsCounted(nodes, disk, roots)
  }

  // ---- what the invariant is for ----

  predicate Available(nodes: Nodes, disk: map<Hash, Bytes>, h: Hash) {
    h in nodes || h in disk
  }

  /** path leads from r down through real children. */
  ghost predicate Leads(path: seq<Hash>, r: Hash, w: World) {
    |path| > 0 && path[0] == r && forall i :: 0 <= i < |path| - 1 ==> path[i + 1] in w.kids(path[i])
  }

  /** A child of what is available is available. */
  lemma {:induction false} KidIsAvailable(nodes: Nodes, disk: map<Hash, Bytes>, w: World, p: Hash, c: Hash)
    requires Acyclic(w) && Counted(nodes, disk) && Covered(nodes, disk, w, {}) && Closed(disk, w)
    requires p != ROOT && Available(nodes, disk, p) && c in w.kids(p)
    ensures c != ROOT && Available(nodes, disk, c)
  {
    hide Counted;
    KidRank(w, p, c);
    if p in nodes && c in nodes[p].children {
      RecordedIsAvailable(nodes, disk, p, c);
    }
  }

  lemma {:induction false} RootIsAvailable(nodes: Nodes, disk: map<Hash, Bytes>, roots: multiset<Hash>, r: Hash)
    requires Counted(nodes, disk) && RootsCounted(nodes, disk, roots) && r != ROOT && roots[r] > 0
    ensures Available(nodes, disk, r)
  {
    assert r !in disk ==> RootRefs(nodes, r) == roots[r];
  }

  /** Nothing reachable from a referenced root is ever lost. */
  lemma {:induction false} ReachableIsAvailable(nodes: Nodes, disk: map<Hash, Bytes>, roots: multiset<Hash>, w: World,
                                                r: Hash, path: seq<Hash>)
    requires Inv(nodes, disk, roots, w, {}) && r != ROOT && roots[r] > 0
    requires Leads(path, r, w)
    ensures path[|path| - 1] != ROOT && Available(nodes, disk, path[|path| - 1])
    decreases |path|
  {
    hide Acyclic, Recorded, Genuine, Counted, Covered, Closed, RootsCounted, Available;
    if |path| == 1 {
      RootIsAvailable(nodes, disk, roots, r);
    } else {
      var front := path[..|path| - 1];
      ReachableIsAvailable(nodes, disk, roots, w, r, front);
      var p, c := front[|front| - 1], path[|path| - 1];
      assert p == path[|path| - 2] && c in w.kids(p);
      KidIsAvailable(nodes, disk, w, p, c);
    }
  }

  /** A disk that is closed holds the whole of every trie whose root it holds. */
  lemma {:induction false} CommittedIsComplete(disk: map<Hash, Bytes>, w: World, r: Hash, path: seq<Hash>)
    requires Closed(disk, w) && r in disk && Leads(path, r, w)
    ensures path[|path| - 1] in disk
    decreases |path|
  {
    if |path| > 1 {
      var front := path[..|path| - 1];
      CommittedIsComplete(disk, w, r, front);
      assert front[|front| - 1] == path[|path| - 2];
    }
  }

  /** A recorded child is still there. */
  lemma {:induction false} RecordedIsAvailable(nodes: Nodes, disk: map<Hash, Bytes>, p: Hash, c: Hash)
    requires Counted(nodes, disk) && p in nodes && p != ROOT && c in nodes[p].children && c != ROOT
    ensures Available(nodes, disk, c)
  {
    assert p in ParentsOf(nodes, c);
  }

  // ---- single changes ----

  function ChildCount(n: CachedNode, c: Hash): int {
    if c in n.children then n.children[c] else 0
  }

  /** A reference from p to c counted d up or down at both ends; a count of zero is forgotten. */
  function Adjust(nodes: Nodes, c: Hash, p: Hash, d: int): (nodes': Nodes)
    requires p in nodes
    ensures nodes'.Keys == nodes.Keys
  {
    var k := ChildCount(nodes[p], c) + d;
    var n := nodes[p].(children := if k == 0 then nodes[p].children - {c} else nodes[p].children[c := k]);
    var between := nodes[p := n];
    if c in between then between[c := between[c].(parents := between[c].parents + d)] else between
  }

  lemma {:induction false} AdjustedNodes(nodes: Nodes, c: Hash, p: Hash, d: int)
    requires p in nodes && c != p
    ensures var nodes' := Adjust(nodes, c, p, d);
            && (forall x :: x in nodes ==> nodes'[x].blob == nodes[x].blob)
            && (forall x :: x in nodes && x != c ==> nodes'[x].parents == nodes[x].parents)
            && (c in nodes ==> nodes'[c].parents == nodes[c].parents + d)
            && (forall x :: x in nodes && x != p ==> nodes'[x].children == nodes[x].children)
            && (forall x :: x != c ==> (x in nodes'[p].children <==> x in nodes[p].children))
            && (forall x :: x != c && x in nodes[p].children ==> nodes'[p].children[x] == nodes[p].children[x])
            && (c in nodes'[p].children <==> ChildCount(nodes[p], c) + d != 0)
            && (c in nodes'[p].children ==> nodes'[p].children[c] == ChildCount(nodes[p], c) + d)
            && Sizes(nodes') == Sizes(nodes)
  {
  }

  lemma {:induction false} AdjustedCounts(nodes: Nodes, c: Hash, p: Hash, d: int)
    requires p in nodes && c != p && p != ROOT
    requires (d == 1 && c !in nodes[p].children) || (d == -1 && ChildCount(nodes[p], c) == 1)
    ensures var nodes' := Adjust(nodes, c, p, d);
            && (forall x :: RootRefs(nodes', x) == RootRefs(nodes, x))
            && (forall x :: x != c ==> ParentsOf(nodes', x) == ParentsOf(nodes, x))
            && |ParentsOf(nodes', c)| == |ParentsOf(nodes, c)| + d
  {
    hide Adjust, Sizes, ParentsOf, RootRefs;
    var nodes' := Adjust(nodes, c, p, d);
    forall x
      ensures RootRefs(nodes', x) == RootRefs(nodes, x)
      ensures x != c ==> ParentsOf(nodes', x) == ParentsOf(nodes, x)
    {
      AdjustedElsewhere(nodes, c, p, d, x);
    }
    AdjustedParents(nodes, c, p, d);
  }

  lemma {:induction false} AdjustedElsewhere(nodes: Nodes, c: Hash, p: Hash, d: int, x: Hash)
    requires p in nodes && c != p && p != ROOT
    ensures var nodes' := Adjust(nodes, c, p, d);
            RootRefs(nodes', x) == RootRefs(nodes, x) && (x != c ==> ParentsOf(nodes', x) == ParentsOf(nodes, x))
  {
    hide Adjust, Sizes;
    AdjustedNodes(nodes, c, p, d);
  }

  lemma {:induction false} AdjustedParents(nodes: Nodes, c: Hash, p: Hash, d: int)
    requires p in nodes && c != p && p != ROOT
    requires (d == 1 && c !in nodes[p].children) || (d == -1 && ChildCount(nodes[p], c) == 1)
    ensures |ParentsOf(Adjust(nodes, c, p, d), c)| == |ParentsOf(nodes, c)| + d
  {
    hide Adjust, Sizes;
    AdjustedNodes(nodes, c, p, d);
    if d == 1 {
      assert ParentsOf(Adjust(nodes, c, p, d), c) == ParentsOf(nodes, c) + {p};
    } else {
      assert ParentsOf(Adjust(nodes, c, p, d), c) == ParentsOf(nodes, c) - {p};
    }
  }

  lemma {:induction false} AdjustedRootCounts(nodes: Nodes, c: Hash, d: int)
    requires ROOT in nodes && c != ROOT
    ensures var nodes' := Adjust(nodes, c, ROOT, d);
            && (forall x :: ParentsOf(nodes', x) == ParentsOf(nodes, x))
            && (forall x :: x != c ==> RootRefs(nodes', x) == RootRefs(nodes, x))
            && RootRefs(nodes', c) == RootRefs(nodes, c) + d
  {
    hide Adjust, Sizes;
    AdjustedNodes(nodes, c, ROOT, d);
    var nodes' := Adjust(nodes, c, ROOT, d);
    forall x
      ensures ParentsOf(nodes', x) == ParentsOf(nodes, x)
    {
    }
  }

  /** Counts stay exact when the count of one node moves with its references. */
  lemma {:induction false} CountedAfter(nodes: Nodes, nodes': Nodes, disk: map<Hash, Bytes>, c: Hash, d: int)
    requires Counted(nodes, disk) && nodes'.Keys == nodes.Keys && (c in nodes || c in disk)
    requires forall x :: x != c ==>
               |ParentsOf(nodes', x)| + RootRefs(nodes', x) == |ParentsOf(nodes, x)| + RootRefs(nodes, x)
    requires forall x :: x != c ==>
               && ParentsOf(nodes', x) == ParentsOf(nodes, x)
               && RootRefs(nodes', x) == RootRefs(nodes, x)
    requires |ParentsOf(nodes', c)| + RootRefs(nodes', c) == |ParentsOf(nodes, c)| + RootRefs(nodes, c) + d
    requires forall x :: x in nodes && x != c ==> nodes'[x].parents == nodes[x].parents
    requires c in nodes ==> nodes'[c].parents == nodes[c].parents + d
    ensures Counted(nodes', disk)
  {
    hide ParentsOf, RootRefs;
  }

  /** A reference between nodes that is counted at both ends keeps the invariant. */
  lemma {:induction false} AdjustKeeps(nodes: Nodes, disk: map<Hash, Bytes>, roots: multiset<Hash>, w: World,
                                       open: set<Hash>, c: Hash, p: Hash, d: int)
    requires Inv(nodes, disk, roots, w, open) && p in nodes && p != ROOT && c in w.kids(p)
    requires c in nodes || c in disk
    requires (d == 1 && c !in nodes[p].children) || (d == -1 && ChildCount(nodes[p], c) == 1 && p in open)
    ensures var nodes' := Adjust(nodes, c, p, d);
            Inv(nodes', disk, roots, w, open) && Sizes(nodes') == Sizes(nodes)
  {
    hide Adjust, Sizes, ParentsOf, RootRefs, Counted, Recorded, Genuine, Covered, RootsCounted, Closed, Acyclic;
    KidRank(w, p, c);
    AdjustedStructure(nodes, disk, roots, w, open, c, p, d);
    AdjustedNodes(nodes, c, p, d);
    AdjustedCounts(nodes, c, p, d);
    CountedAfter(nodes, Adjust(nodes, c, p, d), disk, c, d);
    RootsStayCounted(nodes, Adjust(nodes, c, p, d), disk, roots, c);
  }

  lemma {:induction false} RootsStayCounted(nodes: Nodes, nodes': Nodes, disk: map<Hash, Bytes>, roots: multiset<Hash>,
                                            c: Hash)
    requires RootsCounted(nodes, disk, roots)
    requires forall x :: RootRefs(nodes', x) == RootRefs(nodes, x)
    ensures RootsCounted(nodes', disk, roots)
  {
    hide RootRefs;
  }

  lemma {:induction false} AdjustedStructure(nodes: Nodes, disk: map<Hash, Bytes>, roots: multiset<Hash>, w: World,
                                             open: set<Hash>, c: Hash, p: Hash, d: int)
    requires Recorded(nodes, w) && Genuine(nodes, disk, w) && Covered(nodes, disk, w, open)
    requires p in nodes && p != ROOT && c in w.kids(p) && c != p
    requires (d == 1 && c !in nodes[p].children) || (d == -1 && ChildCount(nodes[p], c) == 1 && p in open)
    ensures var nodes' := Adjust(nodes, c, p, d);
            Recorded(nodes', w) && Genuine(nodes', disk, w) && Covered(nodes', disk, w, open)
  {
    hide Adjust, Sizes;
    AdjustedNodes(nodes, c, p, d);
  }

  /** A root reference keeps the invariant. */
  lemma {:induction false} AdjustRootKeeps(nodes: Nodes, disk: map<Hash, Bytes>, roots: multiset<Hash>,
                                           roots': multiset<Hash>, w: World,
                        open: set<Hash>, c: Hash, d: int)
    requires Inv(nodes, disk, roots, w, open) && c != ROOT && (c in nodes || c in disk)
    requires roots'[c] == roots[c] + d && forall x :: x != c ==> roots'[x] == roots[x]
    ensures var nodes' := Adjust(nodes, c, ROOT, d);
            Inv(nodes', disk, roots', w, open) && Sizes(nodes') == Sizes(nodes)
  {
    hide Adjust, Sizes, ParentsOf, RootRefs;
    var nodes' := Adjust(nodes, c, ROOT, d);
    AdjustedNodes(nodes, c, ROOT, d);
    AdjustedRootCounts(nodes, c, d);
    CountedAfter(nodes, nodes', disk, c, d);
  }

  lemma {:induction false} OpenMore(nodes: Nodes, disk: map<Hash, Bytes>, roots: multiset<Hash>, w: World,
                                    open: set<Hash>, open': set<Hash>)
    requires Inv(nodes, disk, roots, w, open) && open <= open'
    ensures Inv(nodes, disk, roots, w, open')
  {
    hide Counted, Recorded, Genuine, RootsCounted, Closed, Acyclic;
  }

  /** A fresh node without recorded children may be put in, its children still open. */
  lemma {:induction false} NewNodeKeeps(nodes: Nodes, disk: map<Hash, Bytes>, roots: multiset<Hash>, w: World, h: Hash)
    requires Inv(nodes, disk, roots, w, {}) && h !in nodes && h != ROOT
    ensures var nodes' := nodes[h := CachedNode(w.content(h), 0, map[])];
            Inv(nodes', disk, roots, w, {h}) && Sum(Sizes(nodes')) == Sum(Sizes(nodes)) + HASH_LENGTH + |w.content(h)|
  {
    var nodes' := nodes[h := CachedNode(w.content(h), 0, map[])];
    NewNodeCounts(nodes, h, w.content(h));
    NewNodeStructure(nodes, disk, w, h);
    assert Counted(nodes', disk) && RootsCounted(nodes', disk, roots) by {
      hide ParentsOf, RootRefs, Sizes;
    }
    hide Counted, Recorded, Genuine, RootsCounted, Covered, Closed, Acyclic, Sizes;
  }

  lemma {:induction false} NewNodeStructure(nodes: Nodes, disk: map<Hash, Bytes>, w: World, h: Hash)
    requires Recorded(nodes, w) && Genuine(nodes, disk, w) && Covered(nodes, disk, w, {}) && h !in nodes && h != ROOT
    ensures var nodes' := nodes[h := CachedNode(w.content(h), 0, map[])];
            Recorded(nodes', w) && Genuine(nodes', disk, w) && Covered(nodes', disk, w, {h})
  {
  }

  lemma {:induction false} NewNodeCounts(nodes: Nodes, h: Hash, blob: Bytes)
    requires h !in nodes && h != ROOT
    ensures var nodes' := nodes[h := CachedNode(blob, 0, map[])];
            && (forall x :: ParentsOf(nodes', x) == ParentsOf(nodes, x) && RootRefs(nodes', x) == RootRefs(nodes, x))
            && Sum(Sizes(nodes')) == Sum(Sizes(nodes)) + HASH_LENGTH + |blob|
  {
    var nodes' := nodes[h := CachedNode(blob, 0, map[])];
    assert Sizes(nodes') == Sizes(nodes)[h := HASH_LENGTH + |blob|];
    SumUpdate(Sizes(nodes), h, HASH_LENGTH + |blob|);
    forall x
      ensures ParentsOf(nodes', x) == ParentsOf(nodes, x)
    {
    }
  }

  lemma {:induction false} DropCounts(nodes: Nodes, h: Hash)
    requires h in nodes && h != ROOT
    ensures forall x :: ParentsOf(nodes - {h}, x) == ParentsOf(nodes, x) - {h}
    ensures forall x :: RootRefs(nodes - {h}, x) == RootRefs(nodes, x)
    ensures forall x :: x !in nodes[h].children ==> h !in ParentsOf(nodes, x)
    ensures Sum(Sizes(nodes - {h})) == Sum(Sizes(nodes)) - HASH_LENGTH - |nodes[h].blob|
  {
    assert Sizes(nodes - {h}) == Sizes(nodes) - {h};
    SumRemove(Sizes(nodes), h);
  }

  /** A node nothing counts on, or one that is on disk, may be dropped from memory. */
  lemma {:induction false} DropKeeps(nodes: Nodes, disk: map<Hash, Bytes>, roots: multiset<Hash>, w: World,
                                     open: set<Hash>, h: Hash)
    requires Inv(nodes, disk, roots, w, open + {h}) && h in nodes && h != ROOT
    requires forall c :: c in nodes[h].children ==> c in disk
    requires h in disk || nodes[h].parents == 0
    ensures Inv(nodes - {h}, disk, roots, w, open)
  {
    hide Counted, Recorded, Genuine, RootsCounted, Covered, Closed, Acyclic;
    DropStructure(nodes, disk, w, open, h);
    DropStaysCounted(nodes, disk, roots, h);
  }

  lemma {:induction false} DropStaysCounted(nodes: Nodes, disk: map<Hash, Bytes>, roots: multiset<Hash>, h: Hash)
    requires Counted(nodes, disk) && RootsCounted(nodes, disk, roots) && h in nodes && h != ROOT
    requires forall c :: c in nodes[h].children ==> c in disk
    requires h in disk || nodes[h].parents == 0
    ensures Counted(nodes - {h}, disk) && RootsCounted(nodes - {h}, disk, roots)
  {
    hide ParentsOf, RootRefs, Sizes;
    DropCounts(nodes, h);
    var nodes' := nodes - {h};
    forall x | x != ROOT && x !in disk
      ensures if x in nodes' then nodes'[x].parents == |ParentsOf(nodes', x)| + RootRefs(nodes', x)
              else ParentsOf(nodes', x) == {} && RootRefs(nodes', x) == 0
    {
      assert ParentsOf(nodes', x) == ParentsOf(nodes, x);
    }
  }

  lemma {:induction false} DropStructure(nodes: Nodes, disk: map<Hash, Bytes>, w: World, open: set<Hash>, h: Hash)
    requires Recorded(nodes, w) && Genuine(nodes, disk, w) && Covered(nodes, disk, w, open + {h})
    requires h in nodes && h != ROOT
    ensures Recorded(nodes - {h}, w) && Genuine(nodes - {h}, disk, w) && Covered(nodes - {h}, disk, w, open)
  {
    forall p, c | p in nodes - {h} && p != ROOT && p !in open && c in w.kids(p)
      ensures c in disk || c in (nodes - {h})[p].children
    {
      assert p !in open + {h};
    }
  }

  /** The disk already holds a node that is not in memory, so a root reference to it needs no count. */
  lemma {:induction false} UncountedRoot(nodes: Nodes, disk: map<Hash, Bytes>, roots: multiset<Hash>, w: World,
                                         open: set<Hash>, r: Hash)
    requires Inv(nodes, disk, roots, w, open) && r in disk
    ensures Inv(nodes, disk, roots + multiset{r}, w, open)
  {
    hide Counted, Recorded, Genuine, Covered, Closed, Acyclic, RootRefs;
  }

  /** A node whose children are all on disk or recorded is no longer open. */
  lemma {:induction false} CloseNode(nodes: Nodes, disk: map<Hash, Bytes>, roots: multiset<Hash>, w: World, h: Hash)
    requires Inv(nodes, disk, roots, w, {h}) && h in nodes
    requires forall c :: c in w.kids(h) ==> c in disk || c in nodes[h].children
    ensures Inv(nodes, disk, roots, w, {})
  {
    hide Counted, Recorded, Genuine, RootsCounted, Closed, Acyclic;
  }

  /** Writing out a cached node whose children are written keeps the invariant. */
  lemma {:induction false} WriteKeeps(nodes: Nodes, disk: map<Hash, Bytes>, roots: multiset<Hash>, w: World, h: Hash)
    requires Inv(nodes, disk, roots, w, {}) && h in nodes && h != ROOT
    requires forall c :: c in nodes[h].children ==> c in disk
    ensures Inv(nodes, disk[h := nodes[h].blob], roots, w, {})
  {
    hide ParentsOf, RootRefs;
    var disk' := disk[h := nodes[h].blob];
    assert Counted(nodes, disk') && RootsCounted(nodes, disk', roots) && Genuine(nodes, disk', w);
    assert Covered(nodes, disk', w, {});
    assert Closed(disk', w);
  }

  // ---- garbage ----

  /** Cached nodes that are neither on disk nor referenced. */
  function Orphans(nodes: Nodes, disk: map<Hash, Bytes>): set<Hash> {
    set h | h in nodes && h != ROOT && h !in disk && nodes[h].parents == 0
  }

  ghost function Above(nodes: Nodes, w: World, rank: nat): set<Hash> {
    set h | h in nodes && w.rank(h) > rank
  }

  /** Without orphans, a cached node that is no root has a parent in memory. */
  lemma {:induction false} HasParent(nodes: Nodes, disk: map<Hash, Bytes>, roots: multiset<Hash>, w: World, h: Hash)
      returns (p: Hash)
    requires Inv(nodes, disk, roots, w, {}) && Orphans(nodes, disk) == {}
    requires h in nodes && h != ROOT && h !in disk && roots[h] == 0
    ensures p in nodes && p != ROOT && p !in disk && h in w.kids(p) && w.rank(h) < w.rank(p)
  {
    hide Covered, Genuine;
    assert h !in Orphans(nodes, disk);
    assert RootRefs(nodes, h) == 0 && |ParentsOf(nodes, h)| > 0;
    p :| p in ParentsOf(nodes, h);
    KidRank(w, p, h);
  }

  lemma {:induction false} LeadsHere(w: World, h: Hash)
    ensures Leads([h], h, w)
  {
  }

  lemma {:induction false} LeadsOn(w: World, r: Hash, path: seq<Hash>, h: Hash)
    requires Leads(path, r, w) && h in w.kids(path[|path| - 1])
    ensures Leads(path + [h], r, w)
  {
  }

  /** Without orphans, memory holds nothing but what a root leads to (or the disk also holds). */
  lemma {:induction false} NoGarbage(nodes: Nodes, disk: map<Hash, Bytes>, roots: multiset<Hash>, w: World, h: Hash)
      returns (r: Hash, path: seq<Hash>)
    requires Inv(nodes, disk, roots, w, {}) && Orphans(nodes, disk) == {}
    requires h in nodes && h != ROOT && h !in disk
    ensures r != ROOT && roots[r] > 0 && Leads(path, r, w) && path[|path| - 1] == h
    decreases |Above(nodes, w, w.rank(h))|
  {
    hide Inv, Orphans, Leads;
    if roots[h] > 0 {
      r, path := h, [h];
      LeadsHere(w, h);
    } else {
      var p := HasParent(nodes, disk, roots, w, h);
      assert p in Above(nodes, w, w.rank(h)) && p !in Above(nodes, w, w.rank(p));
      SmallerSet(Above(nodes, w, w.rank(p)), Above(nodes, w, w.rank(h)), p);
      r, path := NoGarbage(nodes, disk, roots, w, p);
      LeadsOn(w, r, path, h);
      path := path + [h];
    }
  }

  lemma {:induction false} SmallerSet(a: set<Hash>, b: set<Hash>, x: Hash)
    requires a <= b && x in b && x !in a
    ensures |a| < |b|
  {
    var rest := b - {x};
    assert a <= rest;
    SubsetIsSmaller(a, rest);
  }

  lemma {:induction false} KidsOf(nodes: Nodes, disk: map<Hash, Bytes>, roots: multiset<Hash>, w: World,
                                  open: set<Hash>, p: Hash)
    requires Inv(nodes, disk, roots, w, open)
    ensures forall c :: c in w.kids(p) ==> c != ROOT && w.rank(c) < w.rank(p)
    ensures p in nodes && p != ROOT ==> forall c :: c in nodes[p].children ==>
            c in w.kids(p) && ChildCount(nodes[p], c) == 1
    ensures p in disk ==> forall c :: c in w.kids(p) ==> c in disk
    ensures ROOT in nodes && ROOT !in disk
  {
    forall c | c in w.kids(p)
      ensures c != ROOT && w.rank(c) < w.rank(p)
    {
      KidRank(w, p, c);
    }
  }

  lemma {:induction false} ChildAvailable(nodes: Nodes, disk: map<Hash, Bytes>, roots: multiset<Hash>, w: World,
                                          p: Hash, c: Hash)
    requires Inv(nodes, disk, roots, w, {}) && p in nodes && p != ROOT && c in nodes[p].children
    ensures c != ROOT && w.rank(c) < w.rank(p) && Available(nodes, disk, c)
  {
    KidRank(w, p, c);
    RecordedIsAvailable(nodes, disk, p, c);
  }

  /** Taking a reference back at both ends keeps the invariant. */
  lemma {:induction false} UnlinkKeeps(nodes: Nodes, disk: map<Hash, Bytes>, roots: multiset<Hash>, w: World,
                                       open: set<Hash>, c: Hash, p: Hash)
    requires Inv(nodes, disk, roots, w, open) && p in nodes && c != ROOT
    requires p == ROOT ==> roots[c] > 0
    requires p != ROOT ==> p in open && c in nodes[p].children
    ensures var nodes' := Adjust(nodes, c, p, -1);
            && Inv(nodes', disk, if p == ROOT then roots - multiset{c} else roots, w, open)
            && Sizes(nodes') == Sizes(nodes)
            && c != p
            && (p != ROOT ==> nodes'[p] == nodes[p].(children := nodes[p].children - {c}))
  {
    if p == ROOT {
      assert c in nodes || c in disk by {
        assert c !in disk ==> RootRefs(nodes, c) == roots[c];
      }
      hide Inv;
      AdjustRootKeeps(nodes, disk, roots, roots - multiset{c}, w, open, c, -1);
    } else {
      RecordedIsAvailable(nodes, disk, p, c);
      hide Inv;
      KidsOf(nodes, disk, roots, w, open, p);
      AdjustKeeps(nodes, disk, roots, w, open, c, p, -1);
    }
  }

  // ---- the database ----

  /** Taking a reference away changes nothing above the child but its parent; at most the child is left an orphan. */
  lemma {:induction false} Unlinked(nodes: Nodes, disk: map<Hash, Bytes>, w: World, c: Hash, p: Hash)
    requires p in nodes && c != p && c != ROOT
    ensures var nodes' := Adjust(nodes, c, p, -1);
            && SameAbove(nodes, nodes', w, w.rank(c), p)
            && Orphans(nodes', disk) <= Orphans(nodes, disk) + {c}
            && (c !in nodes' || nodes'[c].parents != 0 ==> Orphans(nodes', disk) <= Orphans(nodes, disk))
  {
    hide Sizes;
  }

  lemma {:induction false} OrphansAreNodes(nodes: Nodes, disk: map<Hash, Bytes>)
    ensures Orphans(nodes, disk) <= nodes.Keys
  {
  }

  lemma {:induction false} StillAbove(before: Nodes, between: Nodes, after: Nodes, w: World, c: Hash, p: Hash)
    requires SameAbove(before, between, w, w.rank(c), p) && SameAbove(between, after, w, w.rank(c), c)
    ensures SameAbove(before, after, w, w.rank(c), p)
    ensures p != ROOT && w.rank(p) > w.rank(c) && p in between ==> p in after && after[p] == between[p]
  {
  }

  /** Nodes ranked above a bound are untouched, but for one. */
  ghost predicate SameAbove(before: Nodes, after: Nodes, w: World, rank: nat, except: Hash) {
    forall h :: h != ROOT && h != except && w.rank(h) > rank ==>
      (h in before <==> h in after) && (h in before ==> before[h] == after[h])
  }

  ghost predicate Higher(open: set<Hash>, w: World, rank: nat) {
    forall h :: h in open ==> w.rank(h) > rank
  }

  class Database {
    var nodes: Nodes
    var disk: map<Hash, Bytes>
    var nodesSize: int
    ghost var roots: multiset<Hash>
    ghost const w: World

    ghost predicate Valid()
      reads this
    {
      ValidExcept({})
    }

    /** The invariant, with some nodes in the middle of being put in or taken out. */
    ghost predicate ValidExcept(open: set<Hash>)
      reads this
    {
      Inv(nodes, disk, roots, w, open) && nodesSize == Sum(Sizes(nodes))
    }

    constructor (disk: map<Hash, Bytes>, ghost w: World)
      requires Acyclic(w) && Closed(disk, w) && Genuine(map[], disk, w)
      ensures Valid() && this.disk == disk && roots == multiset{} && this.w == w
      ensures nodes.Keys == {ROOT}
    {
      nodes := map[ROOT := CachedNode([], 0, map[])];
      this.disk, nodesSize, roots, this.w := disk, 0, multiset{}, w;
      new;
      assert Sizes(nodes) == map[];
    }

    /** The blob of a node, from memory or from disk. */
    method Node(h: Hash) returns (r: Option<Bytes>)
      requires Valid() && h != ROOT
      ensures r == if Available(nodes, disk, h) then Some(w.content(h)) else None
    {
      if h in nodes {
        return Some(nodes[h].blob);
      }
      return if h in disk then Some(disk[h]) else None;
    }

    /** Puts a node in unless it is known. */
    method InsertNode(h: Hash, blob: Bytes)
      requires Valid() && h != ROOT && blob == w.content(h)
      modifies this`nodes, this`nodesSize
      ensures ValidExcept({h}) && nodes.Keys == old(nodes.Keys) + {h}
    {
      hide Inv, Sizes;
      if h in nodes {
        OpenMore(nodes, disk, roots, w, {}, {h});
        return;
      }
      NewNodeKeeps(nodes, disk, roots, w, h);
      nodes := nodes[h := CachedNode(blob, 0, map[])];
      nodesSize := nodesSize + (HASH_LENGTH + |blob|);
    }

    /** Records a reference from a cached parent to a child; nodes only on disk are not counted,
        and between nodes a reference is counted once. */
    method AddReference(child: Hash, parent: Hash, ghost open: set<Hash>)
      requires ValidExcept(open) && parent in nodes && child != ROOT
      requires parent != ROOT ==> child in w.kids(parent)
      requires parent == ROOT ==> Available(nodes, disk, child)
      modifies this`nodes, this`roots
      ensures ValidExcept(open) && nodes.Keys == old(nodes.Keys)
      ensures roots == if parent == ROOT then old(roots) + multiset{child} else old(roots)
      ensures parent != ROOT ==>
                nodes[parent].children.Keys == old(nodes[parent].children.Keys) + (nodes.Keys * {child})
    {
      hide Inv, Sizes;
      if parent == ROOT {
        roots := roots + multiset{child};
      }
      if child !in nodes {
        if parent == ROOT {
          UncountedRoot(nodes, disk, old(roots), w, open, child);
        }
        return;
      }
      if child in nodes[parent].children && parent != ROOT {
        return;
      }
      if parent == ROOT {
        AdjustRootKeeps(nodes, disk, old(roots), roots, w, open, child, 1);
      } else {
        AdjustKeeps(nodes, disk, roots, w, open, child, parent, 1);
      }
      nodes := Adjust(nodes, child, parent, 1);
    }

    /** What committing a trie node to the cache does: insert it, then reference its children. */
    method Store(h: Hash, blob: Bytes, kids: set<Hash>)
      requires Valid() && h != ROOT && blob == w.content(h) && kids == w.kids(h)
      requires forall c :: c in kids ==> Available(nodes, disk, c)
      modifies this`nodes, this`nodesSize, this`roots
      ensures Valid() && nodes.Keys == old(nodes.Keys) + {h} && roots == old(roots)
    {
      hide Inv, Sizes;
      InsertNode(h, blob);
      KidsOf(nodes, disk, roots, w, {h}, h);
      var todo := kids;
      while todo != {}
        invariant ValidExcept({h}) && nodes.Keys == old(nodes.Keys) + {h} && roots == old(roots) && todo <= kids
        invariant forall c :: c in kids && c !in todo && c in nodes ==> c in nodes[h].children
      {
        var c :| c in todo;
        todo := todo - {c};
        AddReference(c, h, {h});
      }
      CloseNode(nodes, disk, roots, w, h);
    }

    /** Takes a reference back; a node nobody counts on any more goes, and its references with it. */
    method Dereference(child: Hash, parent: Hash, ghost open: set<Hash>)
      requires ValidExcept(open) && parent in nodes && child != ROOT && Higher(open, w, w.rank(child))
      requires parent == ROOT ==> roots[child] > 0
      requires parent != ROOT ==> parent in open && child in nodes[parent].children
      modifies this`nodes, this`nodesSize, this`roots
      ensures ValidExcept(open)
      ensures roots == if parent == ROOT then old(roots) - multiset{child} else old(roots)
      ensures SameAbove(old(nodes), nodes, w, w.rank(child), parent)
      ensures parent in nodes
      ensures parent != ROOT ==> nodes[parent] == old(nodes[parent].(children := nodes[parent].children - {child}))
      ensures nodes.Keys <= old(nodes.Keys) && Orphans(nodes, disk) <= old(Orphans(nodes, disk))
      decreases w.rank(child)
    {
      hide Inv, Sizes, Adjust, SameAbove, Orphans;
      UnlinkKeeps(nodes, disk, roots, w, open, child, parent);
      KidsOf(nodes, disk, roots, w, open, parent);
      Unlinked(nodes, disk, w, child, parent);
      nodes := Adjust(nodes, child, parent, -1);
      roots := if parent == ROOT then roots - multiset{child} else roots;
      ghost var between := nodes;
      if child in nodes && nodes[child].parents == 0 {
        Collect(child, open);
        StillAbove(old(nodes), between, nodes, w, child, parent);
        OrphansAreNodes(nodes, disk);
      }
    }

    /** Removes a node that is not counted on, after taking its own references back. */
    method Collect(h: Hash, ghost open: set<Hash>)
      requires ValidExcept(open) && h in nodes && h != ROOT && Higher(open, w, w.rank(h)) && nodes[h].parents == 0
      modifies this`nodes, this`nodesSize, this`roots
      ensures ValidExcept(open) && roots == old(roots) && nodes.Keys <= old(nodes.Keys) - {h}
      ensures SameAbove(old(nodes), nodes, w, w.rank(h), h)
      ensures ROOT in nodes
      ensures Orphans(nodes, disk) <= old(Orphans(nodes, disk))
      decreases w.rank(h), 0
    {
      hide Inv, Sizes;
      OpenMore(nodes, disk, roots, w, open, open + {h});
      KidsOf(nodes, disk, roots, w, open, h);
      ghost var kids := nodes[h].children.Keys;
      while nodes[h].children.Keys != {}
        invariant ValidExcept(open + {h}) && roots == old(roots) && nodes.Keys <= old(nodes.Keys)
        invariant h in nodes && nodes[h].parents == 0 && nodes[h].blob == old(nodes[h].blob)
        invariant nodes[h].children.Keys <= kids
        invariant SameAbove(old(nodes), nodes, w, w.rank(h), h)
        invariant Orphans(nodes, disk) <= old(Orphans(nodes, disk))
        decreases nodes[h].children.Keys
      {
        var c :| c in nodes[h].children.Keys;
        Dereference(c, h, open + {h});
      }
      DropKeeps(nodes, disk, roots, w, open, h);
      DropCounts(nodes, h);
      nodesSize := nodesSize - (HASH_LENGTH + |nodes[h].blob|);
      nodes := nodes - {h};
      KidsOf(nodes, disk, roots, w, open, h);
    }

    /** Puts a node and everything below it that is cached into the batch, children first; the batch is written
        out whenever it has grown large enough. Whatever write fails, the disk holds the children of all it holds. */
    method CommitNode(h: Hash, batch: map<Hash, Bytes>, size: nat, faults: seq<bool>)
        returns (ok: bool, batch': map<Hash, Bytes>, size': nat, faults': seq<bool>)
      requires Valid() && h != ROOT && Inv(nodes, disk + batch, roots, w, {})
      modifies this`disk
      ensures Valid() && Inv(nodes, disk + batch', roots, w, {})
      ensures old(disk.Keys) <= disk.Keys
      ensures old(disk.Keys) + batch.Keys <= disk.Keys + batch'.Keys <= old(disk.Keys) + batch.Keys + nodes.Keys
      ensures ok && Available(nodes, old(disk) + batch, h) ==> h in disk + batch'
      decreases w.rank(h), 1
    {
      hide Inv, Sizes;
      ok, batch', size', faults' := true, batch, size, faults;
      if h !in nodes {
        return;
      }
      KidsOf(nodes, disk, roots, w, {}, h);
      var todo := nodes[h].children.Keys;
      while todo != {}
        invariant Valid() && Inv(nodes, disk + batch', roots, w, {}) && old(disk.Keys) <= disk.Keys
        invariant old(disk.Keys) + batch.Keys <= disk.Keys + batch'.Keys <= old(disk.Keys) + batch.Keys + nodes.Keys
        invariant todo <= nodes[h].children.Keys
        invariant forall c :: c in nodes[h].children && c !in todo ==> c in disk + batch'
      {
        var c :| c in todo;
        todo := todo - {c};
        ChildAvailable(nodes, disk + batch', roots, w, h, c);
        ok, batch', size', faults' := CommitNode(c, batch', size', faults');
        if !ok {
          return;
        }
      }
      WriteKeeps(nodes, disk + batch', roots, w, h);
      assert (disk + batch')[h := nodes[h].blob] == disk + batch'[h := nodes[h].blob];
      batch', size' := batch'[h := nodes[h].blob], size' + |nodes[h].blob|;
      if size' >= IDEAL_BATCH_SIZE {
        ok, faults' := Write(batch', faults');
        if ok {
          batch', size' := map[], 0;
          assert disk + batch' == disk;
        }
      }
    }

    /** Writes a batch, all of it or, when the write fails, nothing. */
    method Write(batch: map<Hash, Bytes>, faults: seq<bool>) returns (ok: bool, faults': seq<bool>)
      requires Valid() && Inv(nodes, disk + batch, roots, w, {})
      modifies this`disk
      ensures Valid() && disk == if ok then old(disk) + batch else old(disk)
    {
      ok := |faults| == 0 || !faults[0];
      faults' := if |faults| == 0 then faults else faults[1..];
      if ok {
        disk := disk + batch;
      }
    }

    /** Drops from memory what a commit has put on disk. */
    method Uncache(h: Hash)
      requires Valid() && h != ROOT && (h in nodes ==> h in disk)
      modifies this`nodes, this`nodesSize
      ensures Valid() && h !in nodes && SameAbove(old(nodes), nodes, w, w.rank(h), h)
      ensures old(nodes.Keys) - disk.Keys <= nodes.Keys <= old(nodes.Keys)
      decreases w.rank(h)
    {
      hide Inv, Sizes;
      if h !in nodes {
        return;
      }
      KidsOf(nodes, disk, roots, w, {}, h);
      var node := nodes[h];
      var todo := node.children.Keys;
      while todo != {}
        invariant Valid() && todo <= node.children.Keys && SameAbove(old(nodes), nodes, w, w.rank(h), h)
        invariant h in nodes && nodes[h] == node
        invariant old(nodes.Keys) - disk.Keys <= nodes.Keys <= old(nodes.Keys)
      {
        var c :| c in todo;
        todo := todo - {c};
        Uncache(c);
      }
      OpenMore(nodes, disk, roots, w, {}, {} + {h});
      DropKeeps(nodes, disk, roots, w, {}, h);
      DropCounts(nodes, h);
      nodes := nodes - {h};
      nodesSize := nodesSize - (HASH_LENGTH + |node.blob|);
    }

    /** Moves a trie from memory to disk. Nothing that could be read before is lost, whether the
        commit goes through or a write fails on the way. */
    method Commit(h: Hash, faults: seq<bool>) returns (ok: bool)
      requires Valid() && h != ROOT
      modifies this`nodes, this`nodesSize, this`disk
      ensures Valid() && nodes.Keys + disk.Keys == old(nodes.Keys + disk.Keys)
      ensures ok && old(Available(nodes, disk, h)) ==> h in disk
      ensures ok ==> h !in nodes
      ensures !ok ==> nodes == old(nodes)
    {
      hide Inv, Sizes;
      assert disk + map[] == disk;
      KidsOf(nodes, disk, roots, w, {}, h);
      var batch, size, faults';
      ok, batch, size, faults' := CommitNode(h, map[], 0, faults);
      if ok {
        ok, faults' := Write(batch, faults');
      }
      if ok {
        Uncache(h);
      }
    }
  }
}
