/** Confirming blocks by delegated proof of stake: a block is confirmed once enough validators have
    built on it. */
module Confirmation {
  import opened Bytes
  import opened BlockChain
  import opened Collections
  import NonceHeap

  /** More than two thirds of the validators. */
  function Quorum(validators: nat): nat {
    validators * 2 / 3 + 1
  }

  /** The miners of the blocks of b's chain from the given height up. */
  function Miners(blocks: Blocks, genesis: Block, b: Block, height: nat): set<Address>
    requires Linked(blocks, genesis) && Attached(blocks, genesis, b) && height <= b.height
    decreases b.height
  {
    if b.height == height then {b.miner} else {b.miner} + Miners(blocks, genesis, blocks[b.parent], height)
  }

  /** c is the highest block of the chain of head on which a quorum has built, itself included. */
  ghost predicate Confirms(blocks: Blocks, genesis: Block, n: nat, head: Block, c: Block)
    requires Linked(blocks, genesis) && Attached(blocks, genesis, head)
  {
    && c.height <= head.height && c == Ancestor(blocks, genesis, head, c.height)
    && |Miners(blocks, genesis, head, c.height)| >= Quorum(n)
    && (c.height < head.height ==> |Miners(blocks, genesis, head, c.height + 1)| < Quorum(n))
  }

  lemma {:induction false} MinersBelow(blocks: Blocks, genesis: Block, b: Block, height: nat)
    requires Linked(blocks, genesis) && Attached(blocks, genesis, b) && 0 < height <= b.height
    ensures Miners(blocks, genesis, b, height - 1) ==
            Miners(blocks, genesis, b, height) + {Ancestor(blocks, genesis, b, height - 1).miner}
    decreases b.height
  {
    if b.height > height {
      MinersBelow(blocks, genesis, blocks[b.parent], height);
    }
  }

  /** Whoever is among the miners mined one of the blocks. */
  lemma {:induction false} MinedOne(blocks: Blocks, genesis: Block, b: Block, height: nat, v: Address) returns (h: nat)
    requires Linked(blocks, genesis) && Attached(blocks, genesis, b) && height <= b.height
             && v in Miners(blocks, genesis, b, height)
    ensures height <= h <= b.height && Ancestor(blocks, genesis, b, h).miner == v
    decreases b.height
  {
    if b.miner == v {
      h := b.height;
    } else {
      h := MinedOne(blocks, genesis, blocks[b.parent], height, v);
    }
  }

  lemma {:induction false} FewerAbove(blocks: Blocks, genesis: Block, b: Block, low: nat, high: nat)
    requires Linked(blocks, genesis) && Attached(blocks, genesis, b) && low <= high <= b.height
    ensures Miners(blocks, genesis, b, high) <= Miners(blocks, genesis, b, low)
    decreases high - low
  {
    hide Linked, Attached, Ancestor, Miners;
    if low < high {
      FewerAbove(blocks, genesis, b, low + 1, high);
      MinersBelow(blocks, genesis, b, low + 1);
    }
  }

  /** Without a quorum from some height up, nothing from there up is confirmed. */
  lemma {:induction false} NothingConfirmed(blocks: Blocks, genesis: Block, n: nat, head: Block, height: nat)
    requires Linked(blocks, genesis) && Attached(blocks, genesis, head)
    requires height <= head.height ==> |Miners(blocks, genesis, head, height)| < Quorum(n)
    ensures forall c :: Confirms(blocks, genesis, n, head, c) ==> c.height < height
  {
    forall c | Confirms(blocks, genesis, n, head, c)
      ensures c.height < height
    {
      if height <= c.height {
        FewerAbove(blocks, genesis, head, height, c.height);
        SubsetIsSmaller(Miners(blocks, genesis, head, c.height), Miners(blocks, genesis, head, height));
      }
    }
  }

  /** The miners seen once a block more is passed. */
  lemma {:induction false} PassOne(blocks: Blocks, genesis: Block, head: Block, height: nat, seen: set<Address>)
    requires Linked(blocks, genesis) && Attached(blocks, genesis, head) && height <= head.height
    requires seen == if height == head.height then {} else Miners(blocks, genesis, head, height + 1)
    ensures seen + {Ancestor(blocks, genesis, head, height).miner} == Miners(blocks, genesis, head, height)
  {
    hide Linked, Attached;
    if height < head.height {
      MinersBelow(blocks, genesis, head, height + 1);
    }
  }

  // ---- the walk ----

  datatype Walked = Stood | NilBlockHeader

  class Dpos {
    const validators: nat
    var confirmed: Block

    constructor (validators: nat, genesis: Block)
      ensures this.validators == validators && confirmed == genesis
    {
      this.validators, confirmed := validators, genesis;
    }

    /** Walks down from the head collecting miners until they are a quorum. While delegated proof of
        stake is active the confirmed height never goes down; without it the head counts as confirmed. */
    method UpdateConfirmed(blocks: Blocks, genesis: Block, head: Block, dpos: bool) returns (r: Walked)
      requires Linked(blocks, genesis) && Attached(blocks, genesis, head) && genesis.parent !in blocks
      modifies this`confirmed
      ensures !dpos ==> r == Stood && confirmed == head
      ensures dpos ==> confirmed.height >= old(confirmed).height
      ensures dpos && confirmed != old(confirmed) ==> Confirms(blocks, genesis, validators, head, confirmed)
      ensures dpos && confirmed == old(confirmed) ==>
                forall c :: Confirms(blocks, genesis, validators, head, c) ==> c.height <= confirmed.height
      ensures r == NilBlockHeader <==>
                dpos && old(confirmed).height == 0 && |Miners(blocks, genesis, head, 0)| < Quorum(validators)
    {
      if !dpos {
        confirmed := head;
        return Stood;
      }
      hide Ancestor, Miners, Linked, Confirms, Attached;
      var c, missing := Walk(blocks, genesis, head, validators, confirmed.height);
      if c.Some? && c.value.height != confirmed.height {
        confirmed := c.value;
      }
      return if missing then NilBlockHeader else Stood;
    }
  }

  /** The block a walk from the head down to a height comes to, if miners become a quorum on the way. */
  method Walk(blocks: Blocks, genesis: Block, head: Block, n: nat, floor: nat) returns (c: Option<Block>, missing: bool)
    requires Linked(blocks, genesis) && Attached(blocks, genesis, head) && genesis.parent !in blocks
    ensures c.Some? ==> c.value.height >= floor && Confirms(blocks, genesis, n, head, c.value)
    ensures forall d :: Confirms(blocks, genesis, n, head, d) ==> d.height <= if c.Some? then c.value.height else floor
    ensures missing <==> floor == 0 && |Miners(blocks, genesis, head, 0)| < Quorum(n)
  {
    hide Ancestor, Miners, Linked, Confirms;
    Top(blocks, genesis, head);
    var seen: set<Address> := {};
    var cur := head;
    while floor <= cur.height
      invariant Attached(blocks, genesis, cur)
      invariant cur.height <= head.height && cur == Ancestor(blocks, genesis, head, cur.height)
      invariant floor <= head.height ==> floor <= cur.height + 1
      invariant seen == if cur.height == head.height then {} else Miners(blocks, genesis, head, cur.height + 1)
      invariant |seen| < Quorum(n)
      decreases cur.height
    {
      PassOne(blocks, genesis, head, cur.height, seen);
      seen := seen + {cur.miner};
      if |seen| >= Quorum(n) {
        Confirmed(blocks, genesis, n, head, cur.height);
        return Some(cur), false;
      }
      if cur.parent !in blocks {
        NothingConfirmed(blocks, genesis, n, head, cur.height);
        return None, true;
      }
      StepDown(blocks, genesis, head, cur);
      cur := blocks[cur.parent];
    }
    NothingConfirmed(blocks, genesis, n, head, floor);
    return None, false;
  }

  lemma {:induction false} StepDown(blocks: Blocks, genesis: Block, head: Block, cur: Block)
    requires Linked(blocks, genesis) && Attached(blocks, genesis, head) && genesis.parent !in blocks
    requires cur.height <= head.height && cur == Ancestor(blocks, genesis, head, cur.height) && cur.parent in blocks
    ensures cur.height > 0 && blocks[cur.parent].height == cur.height - 1
    ensures blocks[cur.parent] == Ancestor(blocks, genesis, head, cur.height - 1)
            && Attached(blocks, genesis, blocks[cur.parent])
  {
    ParentOfAncestor(blocks, genesis, head, cur.height);
  }

  lemma {:induction false} Confirmed(blocks: Blocks, genesis: Block, n: nat, head: Block, height: nat)
    requires Linked(blocks, genesis) && Attached(blocks, genesis, head) && height <= head.height
    requires |Miners(blocks, genesis, head, height)| >= Quorum(n)
    requires height < head.height ==> |Miners(blocks, genesis, head, height + 1)| < Quorum(n)
    ensures Confirms(blocks, genesis, n, head, Ancestor(blocks, genesis, head, height))
    ensures forall d :: Confirms(blocks, genesis, n, head, d) ==> d.height <= height
    ensures |Miners(blocks, genesis, head, 0)| >= Quorum(n)
  {
    hide Miners, Ancestor, Linked, Attached;
    NothingConfirmed(blocks, genesis, n, head, height + 1);
    FewerAbove(blocks, genesis, head, 0, height);
    SubsetIsSmaller(Miners(blocks, genesis, head, height), Miners(blocks, genesis, head, 0));
  }

  // ---- safety ----

  /** One of the blocks is the other or an ancestor of it. */
  ghost predicate Compatible(blocks: Blocks, genesis: Block, a: Block, b: Block)
    requires Linked(blocks, genesis) && Attached(blocks, genesis, a) && Attached(blocks, genesis, b)
  {
    Below(blocks, genesis, a, b) || Below(blocks, genesis, b, a)
  }

  /** Blocks above incompatible blocks are incompatible. */
  lemma {:induction false} StillApart(blocks: Blocks, genesis: Block, c: Block, d: Block, x: Block, y: Block)
    requires Linked(blocks, genesis) && Attached(blocks, genesis, x) && Attached(blocks, genesis, y)
    requires Attached(blocks, genesis, c) && Attached(blocks, genesis, d)
    requires Below(blocks, genesis, c, x) && Below(blocks, genesis, d, y) && !Compatible(blocks, genesis, c, d)
    ensures !Compatible(blocks, genesis, x, y)
  {
    if Below(blocks, genesis, x, y) {
      BothBelow(blocks, genesis, c, d, x, y);
    }
    if Below(blocks, genesis, y, x) {
      BothBelow(blocks, genesis, d, c, y, x);
    }
  }

  lemma {:induction false} BothBelow(blocks: Blocks, genesis: Block, c: Block, d: Block, x: Block, y: Block)
    requires Linked(blocks, genesis) && Attached(blocks, genesis, x) && Attached(blocks, genesis, y)
    requires Attached(blocks, genesis, c) && Attached(blocks, genesis, d)
    requires Below(blocks, genesis, c, x) && Below(blocks, genesis, d, y) && Below(blocks, genesis, x, y)
    ensures Compatible(blocks, genesis, c, d)
  {
    AncestorOfAncestor(blocks, genesis, y, x.height, c.height);
    if c.height <= d.height {
      AncestorOfAncestor(blocks, genesis, y, d.height, c.height);
    } else {
      AncestorOfAncestor(blocks, genesis, y, c.height, d.height);
    }
  }

  /** v mined on both sides: two blocks neither of which is an ancestor of the other, one above each. */
  ghost predicate MinedBoth(blocks: Blocks, genesis: Block, c: Block, d: Block, v: Address)
    requires Linked(blocks, genesis)
  {
    exists x: Block, y: Block ::
      && Attached(blocks, genesis, x) && Attached(blocks, genesis, y) && x.miner == v == y.miner
      && Below(blocks, genesis, c, x) && Below(blocks, genesis, d, y) && !Compatible(blocks, genesis, x, y)
  }

  lemma {:induction false} Overlap(a: set<Address>, b: set<Address>, all: set<Address>, n: nat)
    requires a <= all && b <= all && |all| <= n && |a| >= Quorum(n) && |b| >= Quorum(n)
    ensures |a * b| * 3 > n
  {
    assert |a| + |b| == |a + b| + |a * b|;
    SubsetIsSmaller(a + b, all);
  }

  /** If two walks confirm blocks of which neither is an ancestor of the other, more than a third of
      the validators mined on both sides. */
  lemma {:induction false} ConfirmationIsSafe(blocks: Blocks, genesis: Block, all: set<Address>, n: nat, head1: Block,
                                              head2: Block, c1: Block, c2: Block)
      returns (guilty: set<Address>)
    requires Linked(blocks, genesis) && Attached(blocks, genesis, head1) && Attached(blocks, genesis, head2)
    requires Confirms(blocks, genesis, n, head1, c1) && Confirms(blocks, genesis, n, head2, c2)
    requires Miners(blocks, genesis, head1, c1.height) <= all && Miners(blocks, genesis, head2, c2.height) <= all
             && |all| <= n
    requires !Compatible(blocks, genesis, c1, c2)
    ensures guilty <= all && |guilty| * 3 > n
    ensures forall v :: v in guilty ==> MinedBoth(blocks, genesis, c1, c2, v)
  {
    var m1, m2 := Miners(blocks, genesis, head1, c1.height), Miners(blocks, genesis, head2, c2.height);
    guilty := m1 * m2;
    Overlap(m1, m2, all, n);
    forall v | v in guilty
      ensures MinedBoth(blocks, genesis, c1, c2, v)
    {
      var h1 := MinedOne(blocks, genesis, head1, c1.height, v);
      var h2 := MinedOne(blocks, genesis, head2, c2.height, v);
      var x, y := Ancestor(blocks, genesis, head1, h1), Ancestor(blocks, genesis, head2, h2);
      AncestorOfAncestor(blocks, genesis, head1, h1, c1.height);
      AncestorOfAncestor(blocks, genesis, head2, h2, c2.height);
      StillApart(blocks, genesis, c1, c2, x, y);
    }
  }

  // ---- confirmations by signature ----

  /** How many of the heights are at least h. */
  function Supporters(heights: seq<nat>, h: nat): nat {
    if heights == [] then 0
    else Supporters(heights[..|heights| - 1], h) + if heights[|heights| - 1] >= h then 1 else 0
  }

  lemma {:induction false} SupportersJoin(a: seq<nat>, b: seq<nat>, h: nat)
    ensures Supporters(a + b, h) == Supporters(a, h) + Supporters(b, h)
    decreases |b|
  {
    if b == [] {
      assert a + b == a;
    } else {
      SupportersJoin(a, b[..|b| - 1], h);
      assert (a + b)[..|a + b| - 1] == a + b[..|b| - 1];
    }
  }

  /** Taking the element at place j out of s. */
  lemma {:induction false} SupportersWithout(s: seq<nat>, j: nat, h: nat)
    requires j < |s|
    ensures Supporters(s, h) == Supporters(s[..j] + s[j + 1..], h) + if s[j] >= h then 1 else 0
    ensures multiset(s) == multiset(s[..j] + s[j + 1..]) + multiset{s[j]}
  {
    var left, right := s[..j], s[j + 1..];
    assert s == left + ([s[j]] + right);
    SupportersJoin(left, [s[j]] + right, h);
    SupportersJoin([s[j]], right, h);
    SupportersJoin(left, right, h);
  }

  /** Counting does not depend on the order. */
  lemma {:induction false} SupportersPermute(a: seq<nat>, b: seq<nat>, h: nat)
    requires multiset(a) == multiset(b)
    ensures Supporters(a, h) == Supporters(b, h)
    decreases |a|
  {
    if a == [] {
      assert |multiset(b)| == 0;
    } else {
      hide Supporters;
      assert a[0] in multiset(b);
      var j :| 0 <= j < |b| && b[j] == a[0];
      SupportersWithout(a, 0, h);
      SupportersWithout(b, j, h);
      var x, y := a[..0] + a[1..], b[..j] + b[j + 1..];
      assert multiset(x) == multiset(a) - multiset{a[0]} == multiset(y);
      SupportersPermute(x, y, h);
    }
  }

  /** In ascending heights exactly those from some place on are at least h. */
  lemma {:induction false} SupportersOfSorted(s: seq<nat>, k: nat, h: nat)
    requires NonceHeap.Ascending(s) && k <= |s|
    ensures k < |s| && s[k] >= h ==> Supporters(s, h) >= |s| - k
    ensures k > 0 && s[k - 1] < h ==> Supporters(s, h) <= |s| - k
    decreases |s|
  {
    if s != [] {
      var front := s[..|s| - 1];
      if k < |s| {
        SupportersOfSorted(front, k, h);
      } else {
        SupportersBelow(s, h);
      }
    }
  }

  lemma {:induction false} SupportersBelow(s: seq<nat>, h: nat)
    ensures (forall i :: 0 <= i < |s| ==> s[i] < h) ==> Supporters(s, h) == 0
  {
    if s != [] {
      SupportersBelow(s[..|s| - 1], h);
    }
  }

  /** The height the validators have signed for: the greatest that more than two thirds support, and none
      while nobody has signed. */
  method SignedConfirmed(heights: seq<nat>) returns (r: Option<nat>)
    ensures r.None? <==> heights == []
    ensures r.Some? ==>
              && r.value in heights && Supporters(heights, r.value) * 3 > |heights| * 2
              && forall g: nat :: g > r.value ==> Supporters(heights, g) * 3 <= |heights| * 2
  {
    hide Supporters;
    if heights == [] {
      return None;
    }
    var sorted := NonceHeap.Sort(heights);
    var k := (|sorted| - 1) / 3;
    var h := sorted[k];
    assert h in multiset(sorted);
    SupportersPermute(heights, sorted, h);
    SupportersOfSorted(sorted, k, h);
    forall g: nat | g > h
      ensures Supporters(heights, g) * 3 <= |heights| * 2
    {
      SupportersPermute(heights, sorted, g);
      SupportersOfSorted(sorted, k + 1, g);
    }
    return Some(h);
  }
}
