/** Electing validators: the candidates with the most votes, in an order drawn from the parent block. */
module Election {
  import opened Bytes
  import opened Collections
  import opened TrieWalk

  type Address = nat

  /** How addresses are written out. */
  type Text = Address -> Bytes

  datatype Ballot = Ballot(address: Address, votes: int)

  /** More votes come first; equal votes are ordered by the text of the address. */
  predicate Before(text: Text, a: Ballot, b: Ballot) {
    if a.votes != b.votes then a.votes > b.votes else Less(text(a.address), text(b.address))
  }

  /** Texts tell the candidates apart. */
  ghost predicate Separates(text: Text, votes: map<Address, int>) {
    forall a, b :: a in votes && b in votes && a != b ==> text(a) != text(b)
  }

  lemma {:induction false} BeforeIsStrict(text: Text, a: Ballot, b: Ballot)
    ensures !(Before(text, a, b) && Before(text, b, a))
    ensures text(a.address) != text(b.address) ==> Before(text, a, b) || Before(text, b, a)
  {
    LessTotal(text(a.address), text(b.address));
  }

  lemma {:induction false} BeforeIsTransitive(text: Text, a: Ballot, b: Ballot, c: Ballot)
    requires Before(text, a, b) && Before(text, b, c)
    ensures Before(text, a, c)
  {
    if a.votes == b.votes == c.votes {
      LessTransitive(text(a.address), text(b.address), text(c.address));
    }
  }

  // ---- ranks ----

  function BallotOf(votes: map<Address, int>, a: Address): Ballot
    requires a in votes
  {
    Ballot(a, votes[a])
  }

  /** The candidates that come before a. */
  function Ahead(text: Text, votes: map<Address, int>, a: Address): set<Address>
    requires a in votes
  {
    set b | b in votes && Before(text, BallotOf(votes, b), BallotOf(votes, a))
  }

  function Rank(text: Text, votes: map<Address, int>, a: Address): nat
    requires a in votes
  {
    |Ahead(text, votes, a)|
  }

  /** Different candidates have different ranks. */
  lemma {:induction false} RanksDiffer(text: Text, votes: map<Address, int>, a: Address, b: Address)
    requires Separates(text, votes) && a in votes && b in votes && a != b
    ensures Rank(text, votes, a) != Rank(text, votes, b)
  {
    BeforeIsStrict(text, BallotOf(votes, a), BallotOf(votes, b));
    if Before(text, BallotOf(votes, a), BallotOf(votes, b)) {
      RankBelow(text, votes, a, b);
    } else {
      RankBelow(text, votes, b, a);
    }
  }

  lemma {:induction false} RankBelow(text: Text, votes: map<Address, int>, a: Address, b: Address)
    requires a in votes && b in votes && Before(text, BallotOf(votes, a), BallotOf(votes, b))
    ensures Rank(text, votes, a) < Rank(text, votes, b)
  {
    forall c | c in Ahead(text, votes, a)
      ensures c in Ahead(text, votes, b)
    {
      BeforeIsTransitive(text, BallotOf(votes, c), BallotOf(votes, a), BallotOf(votes, b));
    }
    BeforeIsStrict(text, BallotOf(votes, a), BallotOf(votes, a));
    SubsetIsSmaller(Ahead(text, votes, a), Ahead(text, votes, b) - {a});
  }

  /** The candidates of the first ranks, in order. */
  ghost predicate Ranked(text: Text, votes: map<Address, int>, top: seq<Address>) {
    forall i :: 0 <= i < |top| ==> top[i] in votes && Rank(text, votes, top[i]) == i
  }

  /** The table alone decides who is elected, and in which order. */
  lemma {:induction false} RankedIsUnique(text: Text, votes: map<Address, int>, top1: seq<Address>, top2: seq<Address>)
    requires Separates(text, votes) && Ranked(text, votes, top1) && Ranked(text, votes, top2) && |top1| == |top2|
    ensures top1 == top2
  {
    forall i | 0 <= i < |top1|
      ensures top1[i] == top2[i]
    {
      if top1[i] != top2[i] {
        RanksDiffer(text, votes, top1[i], top2[i]);
      }
    }
  }

  /** Everyone elected comes before everyone who is not. */
  lemma {:induction false} TopIsBest(text: Text, votes: map<Address, int>, top: seq<Address>, a: Address, b: Address)
    requires Separates(text, votes) && Ranked(text, votes, top) && a in top && b in votes && b !in top
    ensures Before(text, BallotOf(votes, a), BallotOf(votes, b))
  {
    var i :| 0 <= i < |top| && top[i] == a;
    BeforeIsStrict(text, BallotOf(votes, a), BallotOf(votes, b));
    if Before(text, BallotOf(votes, b), BallotOf(votes, a)) {
      RankBelow(text, votes, b, a);
      var r := Rank(text, votes, b);
      if top[r] != b {
        RanksDiffer(text, votes, top[r], b);
      }
    }
  }

  // ---- sorting ----

  /** The table read out in some order: each candidate once, with its votes. */
  ghost predicate ReadOut(votes: map<Address, int>, ballots: seq<Ballot>) {
    && |ballots| == |votes|
    && (forall i, j :: 0 <= i < j < |ballots| ==> ballots[i].address != ballots[j].address)
    && (forall b :: b in ballots ==> b.address in votes && b == BallotOf(votes, b.address))
    && (forall a :: a in votes ==> BallotOf(votes, a) in ballots)
  }

  ghost predicate SortedBy(text: Text, ballots: seq<Ballot>) {
    forall i, j :: 0 <= i < j < |ballots| ==> Before(text, ballots[i], ballots[j])
  }

  function Addresses(ballots: seq<Ballot>): (r: seq<Address>)
    ensures |r| == |ballots| && forall i :: 0 <= i < |r| ==> r[i] == ballots[i].address
  {
    seq(|ballots|, i requires 0 <= i < |ballots| => ballots[i].address)
  }

  /** Sorting ranks the candidates. */
  lemma {:induction false} SortedIsRanked(text: Text, votes: map<Address, int>, ballots: seq<Ballot>)
    requires ReadOut(votes, ballots) && SortedBy(text, ballots)
    ensures Ranked(text, votes, Addresses(ballots))
  {
    forall i | 0 <= i < |ballots|
      ensures Rank(text, votes, ballots[i].address) == i
    {
      RankOfSorted(text, votes, ballots, i);
    }
  }

  lemma {:induction false} RankOfSorted(text: Text, votes: map<Address, int>, ballots: seq<Ballot>, i: nat)
    requires ReadOut(votes, ballots) && SortedBy(text, ballots) && i < |ballots|
    ensures Rank(text, votes, ballots[i].address) == i
  {
    var a := ballots[i].address;
    var first := set j | 0 <= j < i :: ballots[j].address;
    assert ballots[i] in ballots;
    assert Ahead(text, votes, a) == first by {
      forall b | b in Ahead(text, votes, a)
        ensures b in first
      {
        var j :| 0 <= j < |ballots| && ballots[j] == BallotOf(votes, b);
        BeforeIsStrict(text, ballots[j], ballots[i]);
        assert j < i;
      }
      forall b | b in first
        ensures b in Ahead(text, votes, a)
      {
        var j :| 0 <= j < i && ballots[j].address == b;
        assert ballots[j] in ballots && Before(text, ballots[j], ballots[i]);
      }
    }
    CountFirst(ballots, i);
  }

  lemma {:induction false} CountFirst(ballots: seq<Ballot>, i: nat)
    requires i <= |ballots| && forall i, j :: 0 <= i < j < |ballots| ==> ballots[i].address != ballots[j].address
    ensures |set j | 0 <= j < i :: ballots[j].address| == i
  {
    if i > 0 {
      CountFirst(ballots, i - 1);
      var rest := set j | 0 <= j < i - 1 :: ballots[j].address;
      assert (set j | 0 <= j < i :: ballots[j].address) == rest + {ballots[i - 1].address};
    }
  }

  /** Puts a ballot in its place among sorted ones. */
  method InsertBallot(text: Text, sorted: seq<Ballot>, x: Ballot) returns (r: seq<Ballot>)
    requires SortedBy(text, sorted) && forall b :: b in sorted ==> text(b.address) != text(x.address)
    ensures SortedBy(text, r) && |r| == |sorted| + 1 && forall b :: b in r <==> b == x || b in sorted
  {
    var k := 0;
    while k < |sorted| && Before(text, sorted[k], x)
      invariant 0 <= k <= |sorted| && forall j :: 0 <= j < k ==> Before(text, sorted[j], x)
    {
      k := k + 1;
    }
    forall j | k <= j < |sorted|
      ensures Before(text, x, sorted[j])
    {
      assert sorted[k] in sorted;
      BeforeIsStrict(text, sorted[k], x);
      if k < j {
        BeforeIsTransitive(text, x, sorted[k], sorted[j]);
      }
    }
    r := sorted[..k] + [x] + sorted[k..];
    Inserted(text, sorted, x, k);
  }

  lemma {:induction false} Inserted(text: Text, sorted: seq<Ballot>, x: Ballot, k: nat)
    requires SortedBy(text, sorted) && k <= |sorted|
    requires forall j :: 0 <= j < k ==> Before(text, sorted[j], x)
    requires forall j :: k <= j < |sorted| ==> Before(text, x, sorted[j])
    ensures var r := sorted[..k] + [x] + sorted[k..];
            SortedBy(text, r) && |r| == |sorted| + 1 && forall b :: b in r <==> b == x || b in sorted
  {
    hide Before;
    var r := sorted[..k] + [x] + sorted[k..];
    assert forall j :: 0 <= j < |r| ==> r[j] == if j < k then sorted[j] else if j == k then x else sorted[j - 1];
    assert sorted == sorted[..k] + sorted[k..];
  }

  method Sort(text: Text, votes: map<Address, int>, ballots: seq<Ballot>) returns (sorted: seq<Ballot>)
    requires Separates(text, votes) && ReadOut(votes, ballots)
    ensures ReadOut(votes, sorted) && SortedBy(text, sorted)
  {
    hide SortedBy, ReadOut, Separates, Before;
    sorted := [];
    NothingIsSorted(text);
    var i := 0;
    while i < |ballots|
      invariant 0 <= i <= |ballots| && |sorted| == i && SortedBy(text, sorted)
      invariant forall b :: b in sorted <==> b in ballots[..i]
    {
      OneMoreBallot(text, votes, ballots, i);
      sorted := InsertBallot(text, sorted, ballots[i]);
      i := i + 1;
    }
    assert ballots[..i] == ballots;
    SortedReadOut(text, votes, ballots, sorted);
  }

  lemma {:induction false} NothingIsSorted(text: Text)
    ensures SortedBy(text, [])
  {
  }

  lemma {:induction false} OneMoreBallot(text: Text, votes: map<Address, int>, ballots: seq<Ballot>, i: nat)
    requires Separates(text, votes) && ReadOut(votes, ballots) && i < |ballots|
    ensures forall b :: b in ballots[..i + 1] <==> b == ballots[i] || b in ballots[..i]
    ensures forall b :: b in ballots[..i] ==> text(b.address) != text(ballots[i].address)
  {
    assert ballots[..i + 1] == ballots[..i] + [ballots[i]];
    forall b | b in ballots[..i]
      ensures text(b.address) != text(ballots[i].address)
    {
      var j :| 0 <= j < i && ballots[j] == b;
      assert ballots[j] in ballots && ballots[i] in ballots;
    }
  }

  lemma {:induction false} SortedReadOut(text: Text, votes: map<Address, int>, ballots: seq<Ballot>,
                                         sorted: seq<Ballot>)
    requires Separates(text, votes) && ReadOut(votes, ballots) && SortedBy(text, sorted)
    requires |sorted| == |ballots| && forall b :: b in sorted <==> b in ballots
    ensures ReadOut(votes, sorted)
  {
    hide Before;
    forall j, k | 0 <= j < k < |sorted|
      ensures sorted[j].address != sorted[k].address
    {
      assert sorted[j] in sorted && sorted[k] in sorted;
      BeforeIsStrict(text, sorted[j], sorted[j]);
    }
  }

  // ---- drawing the order ----

  ghost predicate Drawn(draw: nat -> nat) {
    forall k: nat :: draw(k) <= k
  }

  /** The order once places i down to 1 are drawn; the number drawn for place k is at most k. */
  function Shuffled(s: seq<Address>, draw: nat -> nat, i: nat): seq<Address>
    requires (i < |s| || i == 0) && Drawn(draw)
    decreases i
  {
    if i == 0 then s else Shuffled(Swapped(s, i, draw(i)), draw, i - 1)
  }

  /** Drawing an order loses and adds nobody. */
  lemma {:induction false} ShuffleIsPermutation(s: seq<Address>, draw: nat -> nat, i: nat)
    requires (i < |s| || i == 0) && Drawn(draw)
    ensures multiset(Shuffled(s, draw, i)) == multiset(s)
    decreases i
  {
    hide Swapped;
    if i > 0 {
      ShuffleIsPermutation(Swapped(s, i, draw(i)), draw, i - 1);
    }
  }

  lemma {:induction false} ShuffleStep(s: seq<Address>, draw: nat -> nat, i: nat)
    requires 0 < i < |s| && Drawn(draw)
    ensures draw(i) <= i && Shuffled(s, draw, i) == Shuffled(Swapped(s, i, draw(i)), draw, i - 1)
  {
    hide Swapped;
  }

  lemma {:induction false} ShuffleEnd(s: seq<Address>, draw: nat -> nat)
    requires Drawn(draw)
    ensures Shuffled(s, draw, 0) == s
  {
  }

  /** Draws the order place by place, from the last. */
  method Shuffle(top: seq<Address>, draw: nat -> nat) returns (order: seq<Address>)
    requires Drawn(draw)
    ensures order == Shuffled(top, draw, if |top| == 0 then 0 else |top| - 1)
    ensures multiset(order) == multiset(top)
  {
    hide Shuffled, Drawn;
    order := top;
    if |top| == 0 {
      ShuffleEnd(top, draw);
      return;
    }
    ShuffleIsPermutation(top, draw, |top| - 1);
    var i := |order| - 1;
    while i > 0
      invariant |order| == |top| && 0 <= i < |order|
      invariant Shuffled(order, draw, i) == Shuffled(top, draw, |top| - 1)
      decreases i
    {
      ShuffleStep(order, draw, i);
      var j := draw(i);
      order := Swapped(order, i, j);
      i := i - 1;
    }
    ShuffleEnd(order, draw);
  }

  /** Elects validators from a table of votes read out in any order: the highest ranks, as many as
      there are places, in the order drawn. */
  method Elect(text: Text, votes: map<Address, int>, ballots: seq<Ballot>, total: int, minStart: int, places: nat,
               draw: nat -> nat)
      returns (validators: Option<seq<Address>>, ghost top: seq<Address>)
    requires Separates(text, votes) && ReadOut(votes, ballots) && Drawn(draw)
    ensures validators.None? <==> |votes| < places * 2 / 3 + 1 || total < minStart
    ensures validators.Some? ==>
              && Ranked(text, votes, top) && |top| == (if |votes| > places then places else |votes|)
              && validators.value == Shuffled(top, draw, if |top| == 0 then 0 else |top| - 1)
              && multiset(validators.value) == multiset(top)
  {
    hide Separates, Ranked, SortedBy, Shuffled;
    top := [];
    if |ballots| < places * 2 / 3 + 1 || total < minStart {
      return None, top;
    }
    var candidates := Sort(text, votes, ballots);
    SortedIsRanked(text, votes, candidates);
    hide ReadOut;
    var best := Addresses(candidates);
    if |best| > places {
      RankedPrefix(text, votes, best, places);
      best := best[..places];
    }
    top := best;
    var order := Shuffle(best, draw);
    return Some(order), top;
  }

  lemma {:induction false} RankedPrefix(text: Text, votes: map<Address, int>, top: seq<Address>, n: nat)
    requires Ranked(text, votes, top) && n <= |top|
    ensures Ranked(text, votes, top[..n])
  {
    hide Rank;
  }
}
