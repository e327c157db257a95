/** Choosing the canonical chain: blocks arrive in any order, the heaviest chain wins, and the
    index of blocks by height follows it. */
module BlockChain {
  import opened Bytes

  /** Hashes are opaque names. */
  type Hash = nat

  type Address = nat

  datatype Block = Block(hash: Hash, parent: Hash, height: nat, difficulty: nat, miner: Address)

  type Blocks = map<Hash, Block>

  // ---- the tree of blocks ----

  /** A block hangs on a known one, one height further up; only the genesis block hangs on nothing. */
  ghost predicate Attached(blocks: Blocks, genesis: Block, b: Block) {
    if b.height == 0 then b == genesis else b.parent in blocks && blocks[b.parent].height + 1 == b.height
  }

  ghost predicate Linked(blocks: Blocks, genesis: Block) {
    && genesis.height == 0 && genesis.hash in blocks && blocks[genesis.hash] == genesis
    && forall h :: h in blocks ==> blocks[h].hash == h && Attached(blocks, genesis, blocks[h])
  }

  function Ancestor(blocks: Blocks, genesis: Block, b: Block, height: nat): (a: Block)
    requires Linked(blocks, genesis) && Attached(blocks, genesis, b) && height <= b.height
    ensures a.height == height && Attached(blocks, genesis, a)
    ensures height < b.height ==> a.hash in blocks && blocks[a.hash] == a
    decreases b.height
  {
    if b.height == height then b else Ancestor(blocks, genesis, blocks[b.parent], height)
  }

  lemma {:induction false} AncestorOfAncestor(blocks: Blocks, genesis: Block, b: Block, mid: nat, low: nat)
    requires Linked(blocks, genesis) && Attached(blocks, genesis, b) && low <= mid <= b.height
    ensures Ancestor(blocks, genesis, Ancestor(blocks, genesis, b, mid), low) == Ancestor(blocks, genesis, b, low)
    decreases b.height
  {
    if mid < b.height {
      AncestorOfAncestor(blocks, genesis, blocks[b.parent], mid, low);
    }
  }

  /** Hashes name blocks: a block that is written again is the same block. */
  predicate Names(blocks: Blocks, b: Block) {
    b.hash in blocks ==> blocks[b.hash] == b
  }

  lemma {:induction false} AncestorStays(blocks: Blocks, genesis: Block, b: Block, height: nat, more: Block)
    requires Linked(blocks, genesis) && Attached(blocks, genesis, b) && height <= b.height
    requires Attached(blocks, genesis, more) && Names(blocks, more)
    ensures Linked(blocks[more.hash := more], genesis) && Attached(blocks[more.hash := more], genesis, b)
    ensures Ancestor(blocks[more.hash := more], genesis, b, height) == Ancestor(blocks, genesis, b, height)
    decreases b.height
  {
    if b.height > height {
      AncestorStays(blocks, genesis, blocks[b.parent], height, more);
    }
  }

  // ---- weight ----

  /** Total difficulty adds up along the chain. */
  ghost predicate Weighed(blocks: Blocks, genesis: Block, tds: map<Hash, int>) {
    && tds.Keys == blocks.Keys
    && forall h :: h in blocks && blocks[h].height > 0 ==>
      blocks[h].parent in tds && tds[h] == tds[blocks[h].parent] + blocks[h].difficulty
  }

  lemma {:induction false} AncestorIsLighter(blocks: Blocks, genesis: Block, tds: map<Hash, int>, b: Block, height: nat)
    requires Linked(blocks, genesis) && Weighed(blocks, genesis, tds) && b.hash in blocks && blocks[b.hash] == b
             && height <= b.height
    ensures Ancestor(blocks, genesis, b, height).hash in tds
            && tds[Ancestor(blocks, genesis, b, height).hash] <= tds[b.hash]
    decreases b.height
  {
    if b.height > height {
      AncestorIsLighter(blocks, genesis, tds, blocks[b.parent], height);
    }
  }

  /** No block written is heavier than the head. */
  ghost predicate Heaviest(blocks: Blocks, tds: map<Hash, int>, head: Hash) {
    head in tds && forall h :: h in blocks && h in tds ==> tds[h] <= tds[head]
  }

  // ---- blocks that were written ----

  /** The blocks written are some of those known. */
  ghost predicate Among(blocks: Blocks, known: Blocks) {
    forall h :: h in blocks ==> h in known && blocks[h] == known[h]
  }

  /** The ancestors of b from a height up have been written. */
  ghost predicate WholeFrom(blocks: Blocks, known: Blocks, genesis: Block, b: Block, from: nat)
    requires Linked(known, genesis) && Attached(known, genesis, b)
  {
    forall h: nat :: from <= h < b.height ==> Ancestor(known, genesis, b, h).hash in blocks
  }

  /** All ancestors of b have been written. */
  ghost predicate Whole(blocks: Blocks, known: Blocks, genesis: Block, b: Block)
    requires Linked(known, genesis) && Attached(known, genesis, b)
  {
    WholeFrom(blocks, known, genesis, b, 0)
  }

  /** A chain that meets a whole one is whole if it is down to there. */
  lemma {:induction false} WholeBelow(blocks: Blocks, known: Blocks, genesis: Block, old_: Block, new_: Block,
                                      height: nat)
    requires Linked(known, genesis) && Attached(known, genesis, old_) && Attached(known, genesis, new_)
    requires height <= old_.height && height <= new_.height
    requires Ancestor(known, genesis, old_, height) == Ancestor(known, genesis, new_, height)
    requires Whole(blocks, known, genesis, old_) && WholeFrom(blocks, known, genesis, new_, height)
    ensures Whole(blocks, known, genesis, new_)
  {
    forall h: nat | h < new_.height
      ensures Ancestor(known, genesis, new_, h).hash in blocks
    {
      if h < height {
        AncestorOfAncestor(known, genesis, old_, height, h);
        AncestorOfAncestor(known, genesis, new_, height, h);
      }
    }
  }

  /** With one more block known or written, chains stay whole. */
  lemma {:induction false} WholeStays(blocks: Blocks, blocks': Blocks, known: Blocks, genesis: Block, b: Block,
                                      more: Block)
    requires Linked(known, genesis) && Attached(known, genesis, b) && Attached(known, genesis, more)
    requires Names(known, more) && Whole(blocks, known, genesis, b) && blocks.Keys <= blocks'.Keys
    ensures Linked(known[more.hash := more], genesis) && Attached(known[more.hash := more], genesis, b)
    ensures Whole(blocks', known[more.hash := more], genesis, b)
  {
    AncestorStays(known, genesis, b, 0, more);
    var known' := known[more.hash := more];
    forall h: nat | h < b.height
      ensures Ancestor(known', genesis, b, h).hash in blocks'
    {
      AncestorStays(known, genesis, b, h, more);
    }
  }

  // ---- the index by height ----

  /** Up to the height of b, the index names the ancestors of b. */
  ghost predicate Indexed(blocks: Blocks, genesis: Block, canon: map<nat, Hash>, b: Block)
    requires Linked(blocks, genesis) && Attached(blocks, genesis, b)
  {
    forall h: nat :: h <= b.height ==> h in canon && canon[h] == Ancestor(blocks, genesis, b, h).hash
  }

  /** Putting a child of an indexed block on top gives an index for the child. */
  lemma {:induction false} IndexChild(blocks: Blocks, genesis: Block, canon: map<nat, Hash>, b: Block, child: Block)
    requires Linked(blocks, genesis) && Attached(blocks, genesis, b) && Attached(blocks, genesis, child)
    requires Indexed(blocks, genesis, canon, b) && child.height == b.height + 1 && blocks[child.parent] == b
    ensures Indexed(blocks, genesis, canon[child.height := child.hash], child)
  {
    hide Linked;
    forall h: nat | h <= child.height
      ensures canon[child.height := child.hash][h] == Ancestor(blocks, genesis, child, h).hash
    {
      if h < child.height {
        assert Ancestor(blocks, genesis, child, h) == Ancestor(blocks, genesis, b, h);
      }
    }
  }

  /** An index for a block is one for its ancestors. */
  lemma {:induction false} IndexAncestor(blocks: Blocks, genesis: Block, canon: map<nat, Hash>, b: Block, height: nat)
    requires Linked(blocks, genesis) && Attached(blocks, genesis, b) && height <= b.height
             && Indexed(blocks, genesis, canon, b)
    ensures Indexed(blocks, genesis, canon, Ancestor(blocks, genesis, b, height))
  {
    forall h: nat | h <= height
      ensures h in canon && canon[h] == Ancestor(blocks, genesis, Ancestor(blocks, genesis, b, height), h).hash
    {
      AncestorOfAncestor(blocks, genesis, b, height, h);
    }
  }

  predicate Better(td: int, height: nat, headTd: int, headHeight: nat, coin: bool) {
    td > headTd || (td == headTd && (height < headHeight || (height == headHeight && coin)))
  }

  /** The block lies on the chain below the head, or is the head. */
  ghost predicate Below(blocks: Blocks, genesis: Block, b: Block, head: Block)
    requires Linked(blocks, genesis) && Attached(blocks, genesis, head)
  {
    b.height <= head.height && Ancestor(blocks, genesis, head, b.height) == b
  }

  /** The blocks of b's chain from the top down to above the given height. */
  ghost predicate Branch(blocks: Blocks, genesis: Block, b: Block, height: nat, chain: seq<Block>)
    requires Linked(blocks, genesis) && Attached(blocks, genesis, b)
  {
    && height <= b.height && |chain| == b.height - height
    && forall i :: 0 <= i < |chain| ==> chain[i] == Ancestor(blocks, genesis, b, b.height - i)
  }

  lemma {:induction false} BranchMore(blocks: Blocks, genesis: Block, b: Block, height: nat, chain: seq<Block>)
    requires Linked(blocks, genesis) && Attached(blocks, genesis, b) && 0 < height
             && Branch(blocks, genesis, b, height, chain)
    ensures height <= b.height
    ensures Branch(blocks, genesis, b, height - 1, chain + [Ancestor(blocks, genesis, b, height)])
  {
    hide Ancestor, Linked, Attached;
    var more := chain + [Ancestor(blocks, genesis, b, height)];
    forall i | 0 <= i < |more|
      ensures more[i] == Ancestor(blocks, genesis, b, b.height - i)
    {
    }
  }

  lemma {:induction false} FiledByHash(blocks: Blocks, genesis: Block, h: Hash)
    requires Linked(blocks, genesis) && h in blocks
    ensures blocks[h].hash == h
  {
  }

  /** One step down the chain. */
  lemma {:induction false} ParentOfAncestor(blocks: Blocks, genesis: Block, b: Block, height: nat)
    requires Linked(blocks, genesis) && Attached(blocks, genesis, b) && 0 < height <= b.height
    ensures Ancestor(blocks, genesis, b, height).parent in blocks
    ensures blocks[Ancestor(blocks, genesis, b, height).parent] == Ancestor(blocks, genesis, b, height - 1)
    ensures Ancestor(blocks, genesis, b, height).parent == Ancestor(blocks, genesis, b, height - 1).hash
  {
    hide Linked;
    AncestorOfAncestor(blocks, genesis, b, height, height - 1);
    var a := Ancestor(blocks, genesis, b, height);
    FiledByHash(blocks, genesis, a.parent);
    assert Ancestor(blocks, genesis, a, height - 1) == Ancestor(blocks, genesis, blocks[a.parent], height - 1);
  }

  lemma {:induction false} Top(blocks: Blocks, genesis: Block, b: Block)
    requires Linked(blocks, genesis) && Attached(blocks, genesis, b)
    ensures Ancestor(blocks, genesis, b, b.height) == b && Branch(blocks, genesis, b, b.height, [])
  {
  }

  /** Blocks at one height of two chains are the same when their hashes are; at the bottom they are. */
  lemma {:induction false} SameHash(blocks: Blocks, genesis: Block, old_: Block, new_: Block, height: nat)
    requires Linked(blocks, genesis) && old_.hash in blocks && blocks[old_.hash] == old_
             && Attached(blocks, genesis, new_)
    requires Names(blocks, new_) && height <= old_.height && height <= new_.height
    ensures var o, n := Ancestor(blocks, genesis, old_, height), Ancestor(blocks, genesis, new_, height);
            (o.hash == n.hash <==> o == n) && (height == 0 ==> o == n)
            && (height == new_.height ==> (o == n <==> Below(blocks, genesis, new_, old_)))
  {
  }

  /** Adding a block with its weight keeps the tree and the weights right. */
  lemma {:induction false} AddKeeps(blocks: Blocks, genesis: Block, tds: map<Hash, int>, b: Block)
    requires Linked(blocks, genesis) && Weighed(blocks, genesis, tds) && Names(blocks, b)
    requires b.parent in blocks && b.height == blocks[b.parent].height + 1
    ensures Linked(blocks[b.hash := b], genesis)
            && Weighed(blocks[b.hash := b], genesis, tds[b.hash := tds[b.parent] + b.difficulty])
    ensures b.hash in blocks ==> tds[b.hash := tds[b.parent] + b.difficulty] == tds
  {
  }

  lemma {:induction false} IndexStays(blocks: Blocks, genesis: Block, canon: map<nat, Hash>, top: Block, more: Block)
    requires Linked(blocks, genesis) && Attached(blocks, genesis, top) && Indexed(blocks, genesis, canon, top)
    requires Attached(blocks, genesis, more) && Names(blocks, more)
    ensures Linked(blocks[more.hash := more], genesis) && Attached(blocks[more.hash := more], genesis, top)
    ensures Indexed(blocks[more.hash := more], genesis, canon, top)
  {
    AncestorStays(blocks, genesis, top, 0, more);
    forall h: nat | h <= top.height
      ensures canon[h] == Ancestor(blocks[more.hash := more], genesis, top, h).hash
    {
      AncestorStays(blocks, genesis, top, h, more);
    }
  }

  datatype Written = UnknownAncestor | CommitFailed | InvalidChain | Done(forked: bool)

  class Chain {
    const genesis: Block
    var blocks: Blocks
    var tds: map<Hash, int>
    var canon: map<nat, Hash>
    var head: Block
    /** Every block whose total difficulty has been stored. A block comes to be known before it is written. */
    ghost var known: Blocks

    ghost predicate Valid()
      reads this
    {
      && Linked(known, genesis) && Weighed(known, genesis, tds) && Among(blocks, known) && Headed()
      && Heaviest(blocks, tds, head.hash)
    }

    /** The head and its ancestors have been written, and the index is that of the head. */
    ghost predicate Headed()
      requires Linked(known, genesis)
      reads this
    {
      && head.hash in blocks && blocks[head.hash] == head && Attached(known, genesis, head)
      && Whole(blocks, known, genesis, head) && Indexed(known, genesis, canon, head)
    }

    constructor (genesis: Block)
      requires genesis.height == 0
      ensures Valid() && this.genesis == genesis && head == genesis
      ensures blocks == known == map[genesis.hash := genesis] && tds == map[genesis.hash := genesis.difficulty]
    {
      this.genesis, head := genesis, genesis;
      blocks, tds, canon := map[genesis.hash := genesis], map[genesis.hash := genesis.difficulty],
        map[0 := genesis.hash];
      known := map[genesis.hash := genesis];
    }

    function GetBlock(hash: Hash): Option<Block>
      reads this
    {
      if hash in blocks then Some(blocks[hash]) else None
    }

    /** What walking down both chains has come to: if ok, the block where they meet and the new chain above it. */
    ghost predicate Met(old_: Block, new_: Block, ok: bool, common: Block, newChain: seq<Block>)
      requires Linked(known, genesis) && Attached(known, genesis, old_) && Attached(known, genesis, new_)
      reads this
    {
      && (ok <==> Whole(blocks, known, genesis, new_))
      && (ok ==>
            && common.height <= old_.height && common == Ancestor(known, genesis, old_, common.height)
            && common.height <= new_.height && common == Ancestor(known, genesis, new_, common.height)
            && Branch(known, genesis, new_, common.height, newChain)
            && (newChain == [] <==> Below(known, genesis, new_, old_)))
    }

    /** Walks both chains down to where they meet, collecting the new one on the way; fails exactly if an ancestor of
        the new block has not been written. */
    method FindFork(old_: Block, new_: Block) returns (ok: bool, common: Block, newChain: seq<Block>)
      requires Linked(known, genesis) && Among(blocks, known) && old_.hash in blocks && blocks[old_.hash] == old_
      requires Attached(known, genesis, old_) && Attached(known, genesis, new_) && Names(known, new_)
      requires Whole(blocks, known, genesis, old_)
      ensures Met(old_, new_, ok, common, newChain)
    {
      hide Ancestor, Branch, Linked, Below, Attached, Names;
      Top(known, genesis, old_);
      Top(known, genesis, new_);
      var o, n := Some(old_), Some(new_);
      newChain := [];
      common := old_;
      if old_.height > new_.height {
        while o.Some? && o.value.height != new_.height
          invariant o.Some? && new_.height <= o.value.height <= old_.height
                    && o.value == Ancestor(known, genesis, old_, o.value.height)
          decreases if o.Some? then o.value.height else 0
        {
          ParentOfAncestor(known, genesis, old_, o.value.height);
          o := GetBlock(o.value.parent);
        }
      } else {
        while n.Some? && n.value.height != old_.height
          invariant n.Some? ==>
                      && old_.height <= n.value.height <= new_.height
                      && n.value == Ancestor(known, genesis, new_, n.value.height)
                      && Branch(known, genesis, new_, n.value.height, newChain)
                      && WholeFrom(blocks, known, genesis, new_, n.value.height)
                      && (newChain != [] ==> new_.height > old_.height)
          invariant n.None? ==> !Whole(blocks, known, genesis, new_)
          decreases if n.Some? then n.value.height + 1 else 0
        {
          ParentOfAncestor(known, genesis, new_, n.value.height);
          BranchMore(known, genesis, new_, n.value.height, newChain);
          newChain := newChain + [n.value];
          n := GetBlock(n.value.parent);
        }
      }
      if o.None? || n.None? {
        return false, common, newChain;
      }
      ok, common, newChain := MeetUp(old_, new_, o.value, n.value, newChain);
    }

    method MeetUp(ghost old_: Block, ghost new_: Block, o0: Block, n0: Block, newChain0: seq<Block>)
        returns (ok: bool, common: Block, newChain: seq<Block>)
      requires Linked(known, genesis) && Among(blocks, known) && old_.hash in blocks && blocks[old_.hash] == old_
      requires Attached(known, genesis, old_) && Attached(known, genesis, new_) && Names(known, new_)
      requires Whole(blocks, known, genesis, old_) && WholeFrom(blocks, known, genesis, new_, n0.height)
      requires o0.height == n0.height <= old_.height && o0 == Ancestor(known, genesis, old_, o0.height)
      requires n0.height <= new_.height && n0 == Ancestor(known, genesis, new_, n0.height)
      requires Branch(known, genesis, new_, n0.height, newChain0) && (newChain0 != [] ==> new_.height > old_.height)
      ensures Met(old_, new_, ok, common, newChain)
    {
      hide Ancestor, Linked, Attached, Names;
      var o, n := o0, n0;
      newChain, common := newChain0, o;
      SameHash(known, genesis, old_, new_, o.height);
      while o.hash != n.hash
        invariant o.height == n.height <= old_.height && o == Ancestor(known, genesis, old_, o.height)
        invariant n.height <= new_.height && n == Ancestor(known, genesis, new_, n.height)
        invariant Branch(known, genesis, new_, n.height, newChain)
        invariant WholeFrom(blocks, known, genesis, new_, n.height)
        invariant newChain != [] ==> !Below(known, genesis, new_, old_)
        decreases o.height
      {
        SameHash(known, genesis, old_, new_, o.height);
        ParentOfAncestor(known, genesis, old_, o.height);
        ParentOfAncestor(known, genesis, new_, n.height);
        BranchMore(known, genesis, new_, n.height, newChain);
        newChain := newChain + [n];
        var o', n' := GetBlock(o.parent), GetBlock(n.parent);
        if o'.None? || n'.None? {
          return false, common, newChain;
        }
        o, n := o'.value, n'.value;
      }
      SameHash(known, genesis, old_, new_, o.height);
      WholeBelow(blocks, known, genesis, old_, new_, o.height);
      return true, o, newChain;
    }

    /** Makes the chain of a block canonical, from where it leaves the present one upwards. Fails exactly if an
        ancestor of the block has not been written, and then changes nothing. */
    method Reorg(b: Block) returns (ok: bool)
      requires Linked(known, genesis) && Among(blocks, known) && Headed()
      requires Attached(known, genesis, b) && Names(known, b)
      modifies this`canon, this`head
      ensures ok <==> Whole(blocks, known, genesis, b)
      ensures ok ==>
                && head == (if Below(known, genesis, b, old(head)) then old(head) else b)
                && Attached(known, genesis, head) && Indexed(known, genesis, canon, head)
      ensures !ok ==> head == old(head) && canon == old(canon)
    {
      hide Ancestor, Linked, Indexed, Branch, Below, Whole;
      var common, newChain;
      ok, common, newChain := FindFork(head, b);
      if !ok {
        return;
      }
      IndexAncestor(known, genesis, canon, head, common.height);
      InsertChain(b, common, newChain);
    }

    /** Writes a branch into the index, lowest block first. After every single write the index is
        right for the head of the moment. */
    method InsertChain(ghost b: Block, ghost common: Block, newChain: seq<Block>)
      requires Linked(known, genesis) && Attached(known, genesis, b) && Attached(known, genesis, head)
      requires common.height <= b.height && common == Ancestor(known, genesis, b, common.height)
      requires Branch(known, genesis, b, common.height, newChain)
      requires Indexed(known, genesis, canon, head) && Indexed(known, genesis, canon, common)
      modifies this`canon, this`head
      ensures head == if newChain == [] then old(head) else b
      ensures Attached(known, genesis, head) && Indexed(known, genesis, canon, head)
    {
      hide Ancestor, Linked, Indexed;
      Top(known, genesis, b);
      var i := |newChain|;
      while i > 0
        invariant 0 <= i <= |newChain|
        invariant head == if i == |newChain| then old(head) else newChain[i]
        invariant Attached(known, genesis, head) && Indexed(known, genesis, canon, head)
        invariant Indexed(known, genesis, canon, Ancestor(known, genesis, b, b.height - i))
      {
        i := i - 1;
        var block := newChain[i];
        ParentOfAncestor(known, genesis, b, b.height - i);
        IndexChild(known, genesis, canon, Ancestor(known, genesis, b, b.height - i - 1), block);
        canon := canon[block.height := block.hash];
        head := block;
      }
    }

    /** Stores the weight of a block that has been executed, commits its state, which may fail, and writes the block;
        the coin decides between equals. The head moves to the block exactly if it is better and not already on the
        head's chain, so the head stays the heaviest block written. A failed commit leaves a weight without its block;
        a better block on top of such a gap is refused. */
    method WriteBlockWithState(block: Block, commits: bool, coin: bool) returns (r: Written)
      requires Valid() && Names(known, block)
      requires block.parent in known ==> block.height == known[block.parent].height + 1
      modifies this
      ensures Valid()
      ensures r == UnknownAncestor <==> block.parent !in old(known)
      ensures r == UnknownAncestor ==>
                && blocks == old(blocks) && known == old(known) && tds == old(tds) && canon == old(canon)
                && head == old(head)
      ensures block.parent in old(known) ==>
                var td := old(tds)[block.parent] + block.difficulty;
                var better := Better(td, block.height, old(tds[head.hash]), old(head).height, coin);
                var forked := better && block.parent != old(head).hash;
                && known == old(known)[block.hash := block] && tds == old(tds)[block.hash := td]
                && r == (if !commits then CommitFailed
                         else if forked && !Whole(old(blocks), old(known), genesis, block) then InvalidChain
                         else Done(forked))
                && blocks == (if r.Done? then old(blocks)[block.hash := block] else old(blocks))
                && head == (if r.Done? && better && !Below(old(known), genesis, block, old(head)) then block
                            else old(head))
                && (head == old(head) && !r.Done? ==> canon == old(canon))
      ensures tds[head.hash] >= old(tds[head.hash])
    {
      hide Ancestor, Indexed, Below, Weighed, Heaviest, Linked, Whole;
      HeadIsKnown(known, genesis, tds, blocks, head);
      if block.parent !in tds {
        return UnknownAncestor;
      }
      AddKeeps(known, genesis, tds, block);
      HeaviestLearnt(blocks, known, genesis, tds, head, block);
      var localTd, td := tds[head.hash], tds[block.parent] + block.difficulty;
      tds := tds[block.hash := td];
      if !commits {
        Learnt(blocks, known, genesis, canon, head, block);
        known := known[block.hash := block];
        return CommitFailed;
      }
      var better := Better(td, block.height, localTd, head.height, coin);
      r := Adopt(block, better);
      HeaviestAfter(old(blocks), old(known), genesis, old(tds), old(head), block, better, coin);
    }

    method Adopt(block: Block, better: bool) returns (r: Written)
      requires Linked(known, genesis) && Among(blocks, known) && Headed()
      requires Attached(known, genesis, block) && Names(known, block) && block.height > 0
      modifies this`blocks, this`known, this`canon, this`head
      ensures known == old(known)[block.hash := block] && Linked(known, genesis) && Among(blocks, known) && Headed()
      ensures var forked := better && block.parent != old(head).hash;
              r == if forked && !Whole(old(blocks), old(known), genesis, block) then InvalidChain else Done(forked)
      ensures blocks == if r.Done? then old(blocks)[block.hash := block] else old(blocks)
      ensures head == if r.Done? && better && !Below(old(known), genesis, block, old(head)) then block else old(head)
      ensures !r.Done? ==> canon == old(canon)
    {
      hide Ancestor, Indexed, Linked, Below, Whole;
      var status := false;
      if better && block.parent != head.hash {
        var ok := Reorg(block);
        if !ok {
          Learnt(blocks, known, genesis, canon, head, block);
          known := known[block.hash := block];
          return InvalidChain;
        }
        status := true;
      }
      Learnt(blocks, known, genesis, canon, head, block);
      known, blocks := known[block.hash := block], blocks[block.hash := block];
      if !status && better {
        NotBelow(old(known), genesis, block, head);
        KnownAttached(old(known), genesis, block);
        IndexChild(known, genesis, canon, head, block);
        ChildIsWhole(blocks, known, genesis, head, block);
        canon := canon[block.height := block.hash];
        head := block;
      }
      return Done(status);
    }
  }

  /** One more block known changes nothing for the head. */
  lemma {:induction false} Learnt(blocks: Blocks, known: Blocks, genesis: Block, canon: map<nat, Hash>, head: Block,
                                  more: Block)
    requires Linked(known, genesis) && Attached(known, genesis, head) && Attached(known, genesis, more)
    requires Names(known, more) && Whole(blocks, known, genesis, head) && Indexed(known, genesis, canon, head)
    ensures var known' := known[more.hash := more];
            && Linked(known', genesis) && Attached(known', genesis, head)
            && Whole(blocks, known', genesis, head) && Whole(blocks[more.hash := more], known', genesis, head)
            && Indexed(known', genesis, canon, head)
  {
    hide Ancestor, Indexed, Linked, Whole;
    IndexStays(known, genesis, canon, head, more);
    WholeStays(blocks, blocks, known, genesis, head, more);
    WholeStays(blocks, blocks[more.hash := more], known, genesis, head, more);
  }

  lemma {:induction false} ChildIsWhole(blocks: Blocks, known: Blocks, genesis: Block, b: Block, child: Block)
    requires Linked(known, genesis) && Attached(known, genesis, b) && Attached(known, genesis, child)
    requires b.hash in blocks && Whole(blocks, known, genesis, b)
    requires child.height == b.height + 1 && known[child.parent] == b
    ensures Whole(blocks, known, genesis, child)
  {
    forall h: nat | h < child.height
      ensures Ancestor(known, genesis, child, h).hash in blocks
    {
      assert Ancestor(known, genesis, child, h) == Ancestor(known, genesis, b, h);
    }
  }

  lemma {:induction false} KnownAttached(blocks: Blocks, genesis: Block, b: Block)
    requires Linked(blocks, genesis) && Attached(blocks, genesis, b) && Names(blocks, b) && b.height > 0
    ensures Attached(blocks[b.hash := b], genesis, b) && b.parent != b.hash
  {
  }

  lemma {:induction false} HeadIsKnown(known: Blocks, genesis: Block, tds: map<Hash, int>, blocks: Blocks, head: Block)
    requires Linked(known, genesis) && Weighed(known, genesis, tds) && Among(blocks, known) && head.hash in blocks
             && blocks[head.hash] == head
    ensures tds.Keys == known.Keys && Attached(known, genesis, head) && head.hash in known && known[head.hash] == head
  {
  }

  /** A weight that is stored leaves the head the heaviest block written. */
  lemma {:induction false} HeaviestLearnt(blocks: Blocks, known: Blocks, genesis: Block, tds: map<Hash, int>,
                                          head: Block, b: Block)
    requires Linked(known, genesis) && Weighed(known, genesis, tds) && Names(known, b) && Among(blocks, known)
    requires head.hash in blocks && Heaviest(blocks, tds, head.hash)
    requires b.parent in known && b.height == known[b.parent].height + 1
    ensures var tds' := tds[b.hash := tds[b.parent] + b.difficulty];
            Heaviest(blocks, tds', head.hash) && tds'[head.hash] == tds[head.hash]
  {
    AddKeeps(known, genesis, tds, b);
  }

  /** The head chosen is the heaviest of all blocks written. */
  lemma {:induction false} HeaviestAfter(blocks: Blocks, known: Blocks, genesis: Block, tds: map<Hash, int>,
                                         head: Block, b: Block, better: bool, coin: bool)
    requires Linked(known, genesis) && Weighed(known, genesis, tds) && Names(known, b) && Among(blocks, known)
    requires head.hash in blocks && blocks[head.hash] == head && Attached(known, genesis, head)
    requires Heaviest(blocks, tds, head.hash)
    requires b.parent in known && b.height == known[b.parent].height + 1
    requires better == Better(tds[b.parent] + b.difficulty, b.height, tds[head.hash], head.height, coin)
    ensures var tds' := tds[b.hash := tds[b.parent] + b.difficulty];
            var head' := if better && !Below(known, genesis, b, head) then b else head;
            Heaviest(blocks[b.hash := b], tds', head'.hash) && tds'[head'.hash] >= tds[head.hash]
  {
    HeaviestLearnt(blocks, known, genesis, tds, head, b);
    if Below(known, genesis, b, head) {
      AncestorIsLighter(known, genesis, tds, head, b.height);
      AddKeeps(known, genesis, tds, b);
    }
    hide Linked, Weighed, Ancestor;
  }

  /** A child of the head is not below it. */
  lemma {:induction false} NotBelow(blocks: Blocks, genesis: Block, b: Block, head: Block)
    requires Linked(blocks, genesis) && Attached(blocks, genesis, head) && b.height == head.height + 1
    ensures !Below(blocks, genesis, b, head)
  {
  }

  /** The state of a block of height 1 does not commit, but its weight is stored. The heavier child is refused. */
  method GapIsRefused() returns (r: Written, r': Written)
    ensures r == CommitFailed && r' == InvalidChain
  {
    var c := new Chain(Block(1, 0, 0, 1, 7));
    var first, second := Block(2, 1, 1, 1, 7), Block(3, 2, 2, 1, 7);
    r := c.WriteBlockWithState(first, false, false);
    assert Ancestor(c.known, c.genesis, second, 1) == first;
    r' := c.WriteBlockWithState(second, true, false);
  }
}
