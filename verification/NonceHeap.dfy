/** A binary min-heap of nonces, kept in a slice. */
module NonceHeap {
  import opened Collections

  type Nonce = nat

  /** Place p is not above its children among the first n places; place i is not looked at. */
  predicate Fits(h: seq<Nonce>, n: nat, p: nat, i: int)
    requires n <= |h| && p < n
  {
    && (2 * p + 1 < n && 2 * p + 1 != i ==> h[p] <= h[2 * p + 1])
    && (2 * p + 2 < n && 2 * p + 2 != i ==> h[p] <= h[2 * p + 2])
  }

  /** Among the first n places, from place low on, none is above its children. */
  ghost predicate HeapFrom(h: seq<Nonce>, n: nat, low: nat)
    requires n <= |h|
  {
    forall p :: low <= p < n ==> Fits(h, n, p, -1)
  }

  ghost predicate IsHeap(h: seq<Nonce>) {
    HeapFrom(h, |h|, 0)
  }

  predicate IsParent(p: nat, i: nat) {
    2 * p + 1 == i || 2 * p + 2 == i
  }

  /** The children of i, if any, are not below x. */
  predicate ChildrenAtLeast(h: seq<Nonce>, n: nat, i: nat, x: Nonce)
    requires n <= |h|
  {
    (2 * i + 1 < n ==> x <= h[2 * i + 1]) && (2 * i + 2 < n ==> x <= h[2 * i + 2])
  }

  /** A heap but for place i, which may be too big for its children or too small for its parent. */
  ghost predicate HeapBut(h: seq<Nonce>, n: nat, low: nat, i: nat)
    requires n <= |h|
  {
    && (forall p :: low <= p < n && p != i ==> Fits(h, n, p, i))
    && (forall p :: low <= p < n && IsParent(p, i) ==> ChildrenAtLeast(h, n, i, h[p]))
  }

  /** The parent of i is not above i. */
  ghost predicate Rooted(h: seq<Nonce>, n: nat, low: nat, i: nat)
    requires n <= |h|
  {
    i < n ==> forall p :: low <= p < n && IsParent(p, i) ==> h[p] <= h[i]
  }

  /** The least nonce is at the top. */
  lemma {:induction false} TopIsLeast(h: seq<Nonce>, k: nat)
    requires IsHeap(h) && k < |h|
    ensures h[0] <= h[k]
    decreases k
  {
    if k > 0 {
      TopIsLeast(h, (k - 1) / 2);
      assert Fits(h, |h|, (k - 1) / 2, -1);
    }
  }

  // ---- sinking ----

  /** Swapping with the smaller child moves the odd place down. */
  lemma {:induction false} SinkOne(h: seq<Nonce>, n: nat, low: nat, i: nat, j: nat)
    requires n <= |h| && HeapBut(h, n, low, i) && IsParent(i, j) && j < n && h[j] < h[i]
             && ChildrenAtLeast(h, n, i, h[j])
    ensures HeapBut(Swapped(h, i, j), n, low, j) && Rooted(Swapped(h, i, j), n, low, j)
  {
    var g := Swapped(h, i, j);
    forall p | low <= p < n && p != j
      ensures Fits(g, n, p, j)
    {
      if p != i {
        assert Fits(h, n, p, i);
      }
    }
    if low <= j {
      assert Fits(h, n, j, i);
    }
  }

  lemma {:induction false} SunkIsHeap(h: seq<Nonce>, n: nat, low: nat, i: nat)
    requires n <= |h| && HeapBut(h, n, low, i) && Rooted(h, n, low, i) && (i < n ==> ChildrenAtLeast(h, n, i, h[i]))
    ensures HeapFrom(h, n, low)
  {
    forall p | low <= p < n
      ensures Fits(h, n, p, -1)
    {
      if p != i {
        assert Fits(h, n, p, i);
      }
    }
  }

  /** Sinks the nonce at i0 among the first n places until it is not above its children. */
  method Down(h0: seq<Nonce>, i0: nat, n: nat, ghost low: nat) returns (h: seq<Nonce>, moved: bool)
    requires n <= |h0| && low <= i0 < n && HeapBut(h0, n, low, i0)
    ensures |h| == |h0| && multiset(h) == multiset(h0) && h[n..] == h0[n..]
    ensures moved ==> HeapFrom(h, n, low)
    ensures !moved ==> h == h0 && ChildrenAtLeast(h, n, i0, h[i0])
  {
    hide HeapBut, HeapFrom, Rooted;
    h := h0;
    var i := i0;
    while 2 * i + 1 < n
      invariant |h| == |h0| && multiset(h) == multiset(h0) && h[n..] == h0[n..] && i0 <= i < n
      invariant HeapBut(h, n, low, i) && (i == i0 ==> h == h0) && (i != i0 ==> Rooted(h, n, low, i))
      decreases n - i
    {
      var j := 2 * i + 1;
      if j + 1 < n && h[j + 1] < h[j] {
        j := j + 1;
      }
      if h[j] >= h[i] {
        break;
      }
      SinkOne(h, n, low, i, j);
      h := Swapped(h, i, j);
      i := j;
    }
    moved := i > i0;
    if moved {
      SunkIsHeap(h, n, low, i);
    }
  }

  // ---- rising ----

  /** Swapping with the parent moves the odd place up. */
  lemma {:induction false} RiseOne(h: seq<Nonce>, i: nat, j: nat)
    requires j < |h| && HeapBut(h, |h|, 0, j) && ChildrenAtLeast(h, |h|, j, h[j]) && IsParent(i, j) && h[j] < h[i]
    ensures HeapBut(Swapped(h, i, j), |h|, 0, i) && ChildrenAtLeast(Swapped(h, i, j), |h|, i, h[j])
  {
    var n, g := |h|, Swapped(h, i, j);
    assert Fits(h, n, i, j);
    forall p | 0 <= p < n && p != i
      ensures Fits(g, n, p, i)
    {
      assert p != j ==> Fits(h, n, p, j);
    }
    forall p | 0 <= p < n && IsParent(p, i)
      ensures ChildrenAtLeast(g, n, i, g[p])
    {
      assert Fits(h, n, p, j);
    }
  }

  /** Lifts the nonce at j0 until its parent is not above it. */
  method Up(h0: seq<Nonce>, j0: nat) returns (h: seq<Nonce>)
    requires j0 < |h0| && HeapBut(h0, |h0|, 0, j0) && ChildrenAtLeast(h0, |h0|, j0, h0[j0])
    ensures IsHeap(h) && multiset(h) == multiset(h0) && |h| == |h0|
  {
    hide HeapBut, HeapFrom;
    h := h0;
    var j: nat := j0;
    while j > 0 && h[j] < h[(j - 1) / 2]
      invariant |h| == |h0| && multiset(h) == multiset(h0) && j < |h|
      invariant HeapBut(h, |h|, 0, j) && ChildrenAtLeast(h, |h|, j, h[j])
    {
      RiseOne(h, (j - 1) / 2, j);
      h := Swapped(h, (j - 1) / 2, j);
      j := (j - 1) / 2;
    }
    SunkIsHeap(h, |h|, 0, j);
  }

  // ---- the heap operations ----

  method Push(h: seq<Nonce>, x: Nonce) returns (r: seq<Nonce>)
    requires IsHeap(h)
    ensures IsHeap(r) && multiset(r) == multiset(h) + multiset{x}
  {
    var g := h + [x];
    forall p | 0 <= p < |g| && p != |h|
      ensures Fits(g, |g|, p, |h|)
    {
      assert Fits(h, |h|, p, -1);
    }
    r := Up(g, |h|);
  }

  /** The first n places of a heap on n places are a heap. */
  lemma {:induction false} CutIsHeap(h: seq<Nonce>, n: nat)
    requires n <= |h| && HeapFrom(h, n, 0)
    ensures IsHeap(h[..n])
  {
    forall p | 0 <= p < n
      ensures Fits(h[..n], n, p, -1)
    {
      assert Fits(h, n, p, -1);
    }
  }

  lemma {:induction false} CutBut(h: seq<Nonce>, n: nat, i: nat)
    requires n <= |h| && i < n && HeapBut(h, n, 0, i) && ChildrenAtLeast(h, n, i, h[i])
    ensures HeapBut(h[..n], n, 0, i) && ChildrenAtLeast(h[..n], n, i, h[i])
  {
    forall p | 0 <= p < n && p != i
      ensures Fits(h[..n], n, p, i)
    {
      assert Fits(h, n, p, i);
    }
  }

  /** Putting the last nonce in place i leaves a heap but for i. */
  lemma {:induction false} LastMoved(h: seq<Nonce>, i: nat)
    requires IsHeap(h) && i < |h| - 1
    ensures HeapBut(Swapped(h, i, |h| - 1), |h| - 1, 0, i)
  {
    var n, g := |h| - 1, Swapped(h, i, |h| - 1);
    forall p | 0 <= p < n && p != i
      ensures Fits(g, n, p, i)
    {
      assert Fits(h, |h|, p, -1);
    }
    forall p | 0 <= p < n && IsParent(p, i)
      ensures ChildrenAtLeast(g, n, i, g[p])
    {
      assert Fits(h, |h|, p, -1) && Fits(h, |h|, i, -1);
    }
  }

  lemma {:induction false} LastOff(h: seq<Nonce>, n: nat)
    requires n + 1 == |h|
    ensures multiset(h) == multiset(h[..n]) + multiset{h[n]}
  {
    assert h == h[..n] + [h[n]];
  }

  /** Takes the nonce at place i out. */
  method Remove(h: seq<Nonce>, i: nat) returns (r: seq<Nonce>)
    requires IsHeap(h) && i < |h|
    ensures IsHeap(r) && multiset(h) == multiset(r) + multiset{h[i]}
  {
    hide HeapBut, HeapFrom;
    var n := |h| - 1;
    if i == n {
      TopOff(h);
      LastOff(h, n);
      return h[..n];
    }
    LastMoved(h, i);
    var g, moved := Down(Swapped(h, i, n), i, n, 0);
    assert g[n..] == Swapped(h, i, n)[n..] == [h[i]];
    assert g[n] == h[i];
    LastOff(g, n);
    if moved {
      CutIsHeap(g, n);
      return g[..n];
    }
    CutBut(g, n, i);
    r := Up(g[..n], i);
  }

  lemma {:induction false} TopOff(h: seq<Nonce>)
    requires IsHeap(h) && |h| > 0
    ensures IsHeap(h[..|h| - 1])
  {
    var n, g := |h| - 1, h[..|h| - 1];
    forall p | 0 <= p < n
      ensures Fits(g, n, p, -1)
    {
      assert Fits(h, |h|, p, -1);
    }
  }

  /** Takes the least nonce out. */
  method Pop(h: seq<Nonce>) returns (r: seq<Nonce>, least: Nonce)
    requires IsHeap(h) && h != []
    ensures IsHeap(r) && multiset(h) == multiset(r) + multiset{least} && least == h[0]
    ensures forall x :: x in r ==> least <= x
  {
    forall k | 0 <= k < |h|
      ensures h[0] <= h[k]
    {
      TopIsLeast(h, k);
    }
    hide HeapBut, HeapFrom;
    least := h[0];
    r := Remove(h, 0);
    forall x | x in r
      ensures least <= x
    {
      assert x in multiset(h);
      assert x in h;
    }
  }

  /** Makes a heap of any nonces. */
  method Init(h0: seq<Nonce>) returns (h: seq<Nonce>)
    ensures IsHeap(h) && multiset(h) == multiset(h0)
  {
    h := h0;
    var i := |h| / 2;
    while i > 0
      invariant 0 <= i <= |h| / 2 && |h| == |h0| && multiset(h) == multiset(h0) && HeapFrom(h, |h|, i)
    {
      i := i - 1;
      assert HeapBut(h, |h|, i, i) by {
        forall p | i <= p < |h| && p != i
          ensures Fits(h, |h|, p, i)
        {
          assert Fits(h, |h|, p, -1);
        }
      }
      var moved;
      h, moved := Down(h, i, |h|, i);
      if !moved {
        SunkIsHeap(h, |h|, i, i);
      }
    }
  }

  // ---- sorting ----

  ghost predicate Ascending(s: seq<Nonce>) {
    forall i, j :: 0 <= i < j < |s| ==> s[i] <= s[j]
  }

  lemma {:induction false} InsertedAscends(r: seq<Nonce>, k: nat, x: Nonce)
    requires Ascending(r) && k <= |r|
    requires (k > 0 ==> r[k - 1] < x) && (k < |r| ==> x <= r[k])
    ensures Ascending(r[..k] + [x] + r[k..])
  {
    var t := r[..k] + [x] + r[k..];
    forall i, j | 0 <= i < j < |t|
      ensures t[i] <= t[j]
    {
      assert t[i] == if i < k then r[i] else if i == k then x else r[i - 1];
      assert t[j] == if j < k then r[j] else if j == k then x else r[j - 1];
    }
  }

  method Sort(s: seq<Nonce>) returns (r: seq<Nonce>)
    ensures Ascending(r) && multiset(r) == multiset(s) && |r| == |s|
  {
    hide Ascending;
    r := [];
    NothingAscends();
    var i := 0;
    while i < |s|
      invariant 0 <= i <= |s| && Ascending(r) && multiset(r) == multiset(s[..i]) && |r| == i
    {
      OneMore(s, i);
      r := Insert(r, s[i]);
      i := i + 1;
    }
    assert s[..i] == s;
  }

  lemma {:induction false} NothingAscends()
    ensures Ascending([])
  {
  }

  lemma {:induction false} OneMore(s: seq<Nonce>, i: nat)
    requires i < |s|
    ensures multiset(s[..i + 1]) == multiset(s[..i]) + multiset{s[i]}
  {
    assert s[..i + 1] == s[..i] + [s[i]];
  }

  lemma {:induction false} InsertedHolds(r: seq<Nonce>, k: nat, x: Nonce)
    requires k <= |r|
    ensures multiset(r[..k] + [x] + r[k..]) == multiset(r) + multiset{x}
  {
    assert r == r[..k] + r[k..];
  }

  /** Puts a nonce in its place. */
  method Insert(r: seq<Nonce>, x: Nonce) returns (r': seq<Nonce>)
    requires Ascending(r)
    ensures Ascending(r') && multiset(r') == multiset(r) + multiset{x} && |r'| == |r| + 1
  {
    hide Ascending;
    var k := 0;
    while k < |r| && r[k] < x
      invariant 0 <= k <= |r| && (k > 0 ==> r[k - 1] < x)
    {
      k := k + 1;
    }
    InsertedAscends(r, k, x);
    InsertedHolds(r, k, x);
    r' := r[..k] + [x] + r[k..];
  }
}
