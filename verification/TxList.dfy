/** The transactions of one account in the pool, by nonce. */
module TxList {
  import opened Bytes
  import opened NonceHeap

  datatype Tx = Tx(nonce: Nonce, price: nat, gas: nat, cost: int)

  /** Transactions stored under their nonces. */
  type Items = m: map<Nonce, Tx> | forall n :: n in m ==> m[n].nonce == n witness map[]

  /** The nonces in the heap are those stored, each once. */
  ghost predicate IndexOf(index: seq<Nonce>, items: Items) {
    multiset(index) == multiset(items.Keys)
  }

  ghost predicate Rising(txs: seq<Tx>) {
    forall i, j :: 0 <= i < j < |txs| ==> txs[i].nonce < txs[j].nonce
  }

  /** The transactions stored, in the order of their nonces. */
  ghost predicate Lists(txs: seq<Tx>, items: Items) {
    && Rising(txs)
    && (forall i :: 0 <= i < |txs| ==> txs[i].nonce in items && items[txs[i].nonce] == txs[i])
    && (forall n :: n in items ==> items[n] in txs)
  }

  /** Some of the transactions stored, in any order, each once. */
  ghost predicate Picks(txs: seq<Tx>, items: Items) {
    && (forall i, j :: 0 <= i < j < |txs| ==> txs[i].nonce != txs[j].nonce)
    && (forall i :: 0 <= i < |txs| ==> txs[i].nonce in items && items[txs[i].nonce] == txs[i])
    && (forall n :: n in items ==> items[n] in txs)
  }

  function Under(items: Items, threshold: Nonce): Items {
    map n | n in items && n < threshold :: items[n]
  }

  function From(items: Items, threshold: Nonce): Items {
    map n | n in items && n >= threshold :: items[n]
  }

  function Matching(items: Items, f: Tx -> bool): Items {
    map n | n in items && f(items[n]) :: items[n]
  }

  function Others(items: Items, f: Tx -> bool): Items {
    map n | n in items && !f(items[n]) :: items[n]
  }

  lemma {:induction false} IndexHas(index: seq<Nonce>, items: Items)
    requires IndexOf(index, items)
    ensures forall n :: n in index <==> n in items
    ensures |index| == |items|
  {
    assert |multiset(index)| == |index|;
    assert |items| == |items.Keys|;
    assert |multiset(items.Keys)| == |items.Keys|;
    forall n: Nonce
      ensures n in index <==> n in items
    {
      assert n in multiset(index) <==> n in multiset(items.Keys);
    }
  }

  lemma {:induction false} IndexLess(index: seq<Nonce>, index': seq<Nonce>, items: Items, n: Nonce)
    requires IndexOf(index, items) && multiset(index) == multiset(index') + multiset{n}
    ensures n in items && IndexOf(index', items - {n})
  {
    assert n in multiset(index);
    assert multiset((items - {n}).Keys) == multiset(items.Keys) - multiset{n};
  }

  lemma {:induction false} IndexMore(index: seq<Nonce>, index': seq<Nonce>, items: Items, tx: Tx)
    requires IndexOf(index, items) && multiset(index') == multiset(index) + multiset{tx.nonce} && tx.nonce !in items
    ensures IndexOf(index', items[tx.nonce := tx])
  {
    assert multiset(items[tx.nonce := tx].Keys) == multiset(items.Keys) + multiset{tx.nonce};
  }

  // ---- sorted lists ----

  lemma {:induction false} ListsLast(txs: seq<Tx>, items: Items)
    requires Lists(txs, items) && txs != []
    ensures var last := txs[|txs| - 1];
            && last.nonce in items && items[last.nonce] == last && Lists(txs[..|txs| - 1], items - {last.nonce})
            && forall n :: n in items ==> n <= last.nonce
  {
    var last, front := txs[|txs| - 1], txs[..|txs| - 1];
    forall n | n in items
      ensures n <= last.nonce && (n != last.nonce ==> items[n] in front)
    {
      var i :| 0 <= i < |txs| && txs[i] == items[n];
      assert i < |front| ==> front[i] == items[n];
    }
  }

  lemma {:induction false} ListsNone(items: Items)
    requires Lists([], items)
    ensures items == map[]
  {
  }

  lemma {:induction false} ListsCount(txs: seq<Tx>, items: Items)
    requires Lists(txs, items)
    ensures |txs| == |items|
    decreases |txs|
  {
    hide Lists;
    if txs == [] {
      ListsNone(items);
    } else {
      ListsLast(txs, items);
      var n := txs[|txs| - 1].nonce;
      ListsCount(txs[..|txs| - 1], items - {n});
      SizeAfter(items, n);
    }
  }

  /** There is only one sorted list of the transactions stored. */
  lemma {:induction false} ListsUnique(a: seq<Tx>, b: seq<Tx>, items: Items)
    requires Lists(a, items) && Lists(b, items)
    ensures a == b
    decreases |a|
  {
    hide Lists;
    ListsCount(a, items);
    ListsCount(b, items);
    if a != [] {
      var x, y := a[|a| - 1], b[|b| - 1];
      ListsLast(a, items);
      ListsLast(b, items);
      assert x.nonce <= y.nonce && y.nonce <= x.nonce;
      ListsUnique(a[..|a| - 1], b[..|b| - 1], items - {x.nonce});
      assert a == a[..|a| - 1] + [x] && b == b[..|b| - 1] + [y];
    }
  }

  /** A sorted list falls apart at a threshold. */
  lemma {:induction false} ListsCut(txs: seq<Tx>, items: Items, threshold: Nonce, k: nat)
    requires Lists(txs, items) && k == |Under(items, threshold)|
    ensures k <= |txs| && Lists(txs[..k], Under(items, threshold)) && Lists(txs[k..], From(items, threshold))
  {
    var j := 0;
    while j < |txs| && txs[j].nonce < threshold
      invariant 0 <= j <= |txs| && forall i :: 0 <= i < j ==> txs[i].nonce < threshold
    {
      j := j + 1;
    }
    CutUnder(txs, items, threshold, j);
    CutFrom(txs, items, threshold, j);
    hide Lists, Under, From;
    ListsCount(txs[..j], Under(items, threshold));
  }

  lemma {:induction false} CutUnder(txs: seq<Tx>, items: Items, threshold: Nonce, j: nat)
    requires Lists(txs, items) && j <= |txs| && (forall i :: 0 <= i < j ==> txs[i].nonce < threshold)
    requires j < |txs| ==> txs[j].nonce >= threshold
    ensures Lists(txs[..j], Under(items, threshold))
  {
    forall n | n in items && n < threshold
      ensures items[n] in txs[..j]
    {
      var i :| 0 <= i < |txs| && txs[i] == items[n];
      assert txs[..j][i] == items[n];
    }
  }

  lemma {:induction false} CutFrom(txs: seq<Tx>, items: Items, threshold: Nonce, j: nat)
    requires Lists(txs, items) && j <= |txs| && (forall i :: 0 <= i < j ==> txs[i].nonce < threshold)
    requires j < |txs| ==> txs[j].nonce >= threshold
    ensures Lists(txs[j..], From(items, threshold))
  {
    forall n | n in items && n >= threshold
      ensures items[n] in txs[j..]
    {
      var i :| 0 <= i < |txs| && txs[i] == items[n];
      assert txs[j..][i - j] == items[n];
    }
  }

  // ---- the sorted map ----

  /** Where a nonce stands. */
  method Position(index: seq<Nonce>, nonce: Nonce) returns (i: nat)
    requires nonce in index
    ensures i < |index| && index[i] == nonce
  {
    i := 0;
    while index[i] != nonce
      invariant 0 <= i < |index| && nonce in index[i..]
      decreases |index| - i
    {
      assert index[i..] == [index[i]] + index[i + 1..];
      i := i + 1;
    }
  }

  class SortedMap {
    var items: Items
    var index: seq<Nonce>
    var cache: Option<seq<Tx>>

    ghost predicate Valid()
      reads this
    {
      Indexed() && (cache.Some? ==> Lists(cache.value, items))
    }

    ghost predicate Indexed()
      reads this
    {
      IsHeap(index) && IndexOf(index, items)
    }

    constructor ()
      ensures Valid() && items == map[]
    {
      items, index, cache := map[], [], None;
    }

    method Put(tx: Tx)
      requires Valid()
      modifies this
      ensures Valid() && items == old(items)[tx.nonce := tx]
    {
      hide IsHeap;
      if tx.nonce !in items {
        ghost var before := index;
        index := NonceHeap.Push(index, tx.nonce);
        IndexMore(before, index, items, tx);
      } else {
        assert items[tx.nonce := tx].Keys == items.Keys;
      }
      items, cache := items[tx.nonce := tx], None;
    }

    /** Takes out the transactions under a nonce, in order. */
    method Forward(threshold: Nonce) returns (removed: seq<Tx>)
      requires Valid()
      modifies this
      ensures Valid() && items == From(old(items), threshold) && Lists(removed, Under(old(items), threshold))
    {
      hide IsHeap, IndexOf, Passed, Lists, Under, From;
      removed := [];
      NonePassed(items);
      while index != [] && index[0] < threshold
        invariant Indexed() && cache == old(cache) && Passed(old(items), items, removed)
        invariant forall i :: 0 <= i < |removed| ==> removed[i].nonce < threshold
        decreases |index|
      {
        removed := PopTx(removed, old(items));
      }
      AllPassed(old(items), items, removed, index, threshold);
      if cache.Some? {
        ListsCut(cache.value, old(items), threshold, |removed|);
        cache := Some(cache.value[|removed|..]);
      }
    }

    /** Takes out the transaction with the least nonce. */
    method PopTx(removed: seq<Tx>, ghost all: Items) returns (removed': seq<Tx>)
      requires Indexed() && index != [] && Passed(all, items, removed)
      modifies this`items, this`index
      ensures Indexed() && Passed(all, items, removed') && |index| == old(|index|) - 1
      ensures |removed'| == |removed| + 1 && removed' == removed + [removed'[|removed|]]
              && removed'[|removed|].nonce == old(index)[0]
      ensures items == old(items) - {old(index)[0]} && old(index)[0] in old(items)
    {
      hide IsHeap;
      IndexHas(index, items);
      var rest, nonce := NonceHeap.Pop(index);
      IndexLess(index, rest, items, nonce);
      assert multiset(index) == multiset(rest) + multiset{nonce};
      removed' := removed + [items[nonce]];
      PassOne(all, items, removed, rest, nonce);
      index, items := rest, items - {nonce};
      IndexHas(index, items);
      SizeAfter(old(items), nonce);
    }

    /** Takes out every transaction for which f holds. */
    method Filter(f: Tx -> bool) returns (removed: seq<Tx>)
      requires Valid()
      modifies this
      ensures Valid() && items == Others(old(items), f) && Picks(removed, Matching(old(items), f))
    {
      hide IsHeap, IndexOf, Sieved, Lists, Picks, Others, Matching;
      removed := [];
      var todo := items.Keys;
      NoneSieved(items, f);
      while todo != {}
        invariant Sieved(old(items), items, removed, todo, f) && (removed == [] ==> items == old(items))
        invariant index == old(index) && cache == old(cache)
      {
        var n :| n in todo;
        SieveOne(old(items), items, removed, todo, f, n);
        if f(items[n]) {
          removed := removed + [items[n]];
          items := items - {n};
        }
        todo := todo - {n};
      }
      AllSieved(old(items), items, removed, f);
      if |removed| > 0 {
        index := Collect(items);
        index := NonceHeap.Init(index);
        SameIndex(index, items);
        cache := None;
      }
    }

    /** Takes out a transaction by its nonce. */
    method Remove(nonce: Nonce) returns (found: bool)
      requires Valid()
      modifies this
      ensures Valid() && found == (nonce in old(items)) && items == old(items) - {nonce}
    {
      hide IsHeap, IndexOf, Lists;
      if nonce !in items {
        assert items - {nonce} == items;
        return false;
      }
      IndexHas(index, items);
      var i := Position(index, nonce);
      var rest := NonceHeap.Remove(index, i);
      IndexLess(index, rest, items, nonce);
      index, items, cache := rest, items - {nonce}, None;
      return true;
    }

    /** Takes out the run of consecutive nonces from the least one on, if that is not above start. */
    method Ready(start: Nonce) returns (ready: seq<Tx>)
      requires Valid()
      modifies this
      ensures Valid()
      ensures (forall n :: n in old(items) ==> n > start) ==> ready == [] && items == old(items)
      ensures !(forall n :: n in old(items) ==> n > start) ==>
                && ready != [] && ready[0].nonce <= start
                && (forall i :: 0 <= i < |ready| ==> ready[i].nonce == ready[0].nonce + i)
                && var next := ready[0].nonce + |ready|;
                   next !in old(items) && Lists(ready, Under(old(items), next)) && items == From(old(items), next)
    {
      hide Passed, Lists, Under, From, IndexOf;
      IndexHas(index, items);
      Least(index);
      hide IsHeap;
      ready := [];
      if |index| == 0 || index[0] > start {
        assert forall n :: n in items ==> n > start;
        return;
      }
      assert index[0] in items && index[0] <= start;
      NonePassed(items);
      ghost var first := index[0];
      var next := index[0];
      while |index| > 0 && index[0] == next
        invariant Indexed() && Passed(old(items), items, ready) && next == first + |ready|
        invariant forall i :: 0 <= i < |ready| ==> ready[i].nonce == first + i
        invariant ready == [] ==> |index| > 0 && index[0] == first
        decreases |index|
      {
        ready := PopTx(ready, old(items));
        next := next + 1;
      }
      cache := None;
      RunEnds(old(items), items, ready, index, next);
      AllPassed(old(items), items, ready, index, next);
    }

    /** All transactions, in order; sorted only if the last sorting is not at hand. */
    method Flatten() returns (txs: seq<Tx>)
      requires Valid()
      modifies this`cache
      ensures Valid() && Lists(txs, items)
    {
      hide IsHeap, IndexOf, Lists;
      if cache.None? {
        var nonces := Collect(items);
        nonces := NonceHeap.Sort(nonces);
        var all := [];
        var i := 0;
        SameIndex(nonces, items);
        IndexHas(nonces, items);
        while i < |nonces|
          invariant 0 <= i <= |nonces| && |all| == i
          invariant forall j :: 0 <= j < i ==> all[j] == items[nonces[j]]
        {
          all := all + [items[nonces[i]]];
          i := i + 1;
        }
        SortedLists(nonces, all, items);
        cache := Some(all);
      }
      return cache.value;
    }

    /** Keeps at most so many transactions, those with the least nonces. */
    method Cap(threshold: nat) returns (drops: seq<Tx>, ghost cut: Nonce)
      requires Valid()
      modifies this
      ensures Valid()
      ensures |old(items)| <= threshold ==> drops == [] && items == old(items)
      ensures |old(items)| > threshold ==>
                |items| == threshold && items == Under(old(items), cut) && Picks(drops, From(old(items), cut))
    {
      hide IsHeap, IndexOf, Lists, Picks, Under, From, Trimmed, Ascending;
      drops, cut := [], 0;
      if |items| <= threshold {
        return;
      }
      var sorted := NonceHeap.Sort(index);
      Trimming(index, sorted, items);
      drops := Trim(sorted, threshold);
      cut := sorted[threshold];
      AllTrimmed(sorted, threshold, old(items), items, drops);
      index := NonceHeap.Init(sorted[..threshold]);
      SameKeys(index, sorted[..threshold], items);
      if cache.Some? {
        TrimmedCache(cache.value, old(items), items, cut, threshold, |drops|);
        cache := Some(cache.value[..|cache.value| - |drops|]);
      }
    }

    /** Takes out transactions from the highest nonce down until so many are left. */
    method Trim(sorted: seq<Nonce>, threshold: nat) returns (drops: seq<Tx>)
      requires threshold < |items| == |sorted| && Trimmed(sorted, |items|, items, items, [])
      modifies this`items
      ensures Trimmed(sorted, threshold, old(items), items, drops)
    {
      hide Trimmed;
      drops := [];
      var size := |items|;
      while size > threshold
        invariant threshold <= size <= |sorted| && Trimmed(sorted, size, old(items), items, drops)
      {
        TrimOne(sorted, size, old(items), items, drops);
        drops := drops + [items[sorted[size - 1]]];
        items := items - {sorted[size - 1]};
        size := size - 1;
      }
    }
  }

  lemma {:induction false} TrimmedCache(cached: seq<Tx>, all: Items, items: Items, cut: Nonce, threshold: nat, n: nat)
    requires Lists(cached, all) && items == Under(all, cut) && |items| == threshold && |all| == threshold + n
    ensures |cached| - n == threshold && Lists(cached[..threshold], items)
  {
    hide Lists, Under, From;
    ListsCut(cached, all, cut, threshold);
    ListsCount(cached, all);
  }

  lemma {:induction false} SameKeys(index: seq<Nonce>, nonces: seq<Nonce>, items: Items)
    requires IndexOf(nonces, items) && multiset(index) == multiset(nonces)
    ensures IndexOf(index, items)
  {
  }

  // ---- trimming ----

  ghost predicate Climbing(s: seq<Nonce>) {
    forall i, j :: 0 <= i < j < |s| ==> s[i] < s[j]
  }

  /** The highest nonces from place size on have been taken out, the highest first. */
  ghost predicate Trimmed(sorted: seq<Nonce>, size: nat, all: Items, items: Items, drops: seq<Tx>) {
    && size <= |sorted| && Climbing(sorted) && (forall n :: n in sorted <==> n in all)
    && IndexOf(sorted[..size], items) && (forall n :: n in items ==> n in all && items[n] == all[n])
    && |drops| == |sorted| - size
    && (forall i :: 0 <= i < |drops| ==>
          && drops[i].nonce == sorted[|sorted| - 1 - i] && sorted[|sorted| - 1 - i] in all
          && drops[i] == all[sorted[|sorted| - 1 - i]])
  }

  lemma {:induction false} Trimming(index: seq<Nonce>, sorted: seq<Nonce>, all: Items)
    requires IndexOf(index, all) && multiset(sorted) == multiset(index) && Ascending(sorted)
    ensures Trimmed(sorted, |all|, all, all, []) && |sorted| == |all|
  {
    IndexHas(sorted, all);
    NoTwice(sorted, all);
    assert sorted[..|sorted|] == sorted;
  }

  lemma {:induction false} TrimOne(sorted: seq<Nonce>, size: nat, all: Items, items: Items, drops: seq<Tx>)
    requires Trimmed(sorted, size, all, items, drops) && size > 0
    ensures sorted[size - 1] in items
    ensures Trimmed(sorted, size - 1, all, items - {sorted[size - 1]}, drops + [items[sorted[size - 1]]])
  {
    var n := sorted[size - 1];
    assert sorted[..size] == sorted[..size - 1] + [n];
    IndexLess(sorted[..size], sorted[..size - 1], items, n);
    hide IndexOf;
    var drops' := drops + [items[n]];
    assert |drops'| == |sorted| - (size - 1) && drops'[|drops|] == all[n];
  }

  lemma {:induction false} AllTrimmed(sorted: seq<Nonce>, size: nat, all: Items, items: Items, drops: seq<Tx>)
    requires Trimmed(sorted, size, all, items, drops) && size < |sorted|
    ensures items == Under(all, sorted[size]) && Picks(drops, From(all, sorted[size])) && |items| == size
    ensures IndexOf(sorted[..size], items) && |drops| == |sorted| - size && size == |Under(all, sorted[size])|
  {
    hide IndexOf, Under, From, Picks, Climbing;
    IndexHas(sorted[..size], items);
    KeptAreLow(sorted, size, all, items);
    UnderIs(all, items, sorted[size]);
    DroppedAreHigh(sorted, size, all, drops);
  }

  lemma {:induction false} UnderIs(all: Items, items: Items, cut: Nonce)
    requires forall n :: n in items ==> n in all && items[n] == all[n]
    requires forall n :: n in all ==> (n in items <==> n < cut)
    ensures items == Under(all, cut)
  {
  }

  lemma {:induction false} FromIs(all: Items, items: Items, cut: Nonce)
    requires forall n :: n in items ==> n in all && items[n] == all[n]
    requires forall n :: n in all ==> (n in items <==> n >= cut)
    ensures items == From(all, cut)
  {
  }

  lemma {:induction false} KeptAreLow(sorted: seq<Nonce>, size: nat, all: Items, items: Items)
    requires size < |sorted| && Climbing(sorted) && (forall n :: n in sorted <==> n in all)
    requires forall n :: n in sorted[..size] <==> n in items
    ensures forall n :: n in all ==> (n in items <==> n < sorted[size])
  {
    forall n | n in all
      ensures n in items <==> n < sorted[size]
    {
      var i :| 0 <= i < |sorted| && sorted[i] == n;
      if i < size {
        assert sorted[..size][i] == n;
      }
    }
  }

  lemma {:induction false} DroppedAreHigh(sorted: seq<Nonce>, size: nat, all: Items, drops: seq<Tx>)
    requires size < |sorted| && Climbing(sorted) && (forall n :: n in sorted <==> n in all)
             && |drops| == |sorted| - size
    requires forall i :: 0 <= i < |drops| ==>
             sorted[|sorted| - 1 - i] in all && drops[i] == all[sorted[|sorted| - 1 - i]]
    ensures Picks(drops, From(all, sorted[size]))
  {
    forall i | 0 <= i < |drops|
      ensures drops[i].nonce == sorted[|sorted| - 1 - i] && drops[i].nonce >= sorted[size]
    {
      var k := |sorted| - 1 - i;
      assert k > size ==> sorted[size] < sorted[k];
    }
    forall i, j | 0 <= i < j < |drops|
      ensures drops[i].nonce != drops[j].nonce
    {
      assert sorted[|sorted| - 1 - j] < sorted[|sorted| - 1 - i];
    }
    forall n | n in all && n >= sorted[size]
      ensures all[n] in drops
    {
      HighIsDropped(sorted, size, all, drops, n);
    }
  }

  lemma {:induction false} HighIsDropped(sorted: seq<Nonce>, size: nat, all: Items, drops: seq<Tx>, n: Nonce)
    requires size < |sorted| && Climbing(sorted) && |drops| == |sorted| - size && n in sorted && n >= sorted[size]
    requires forall i :: 0 <= i < |drops| ==>
             sorted[|sorted| - 1 - i] in all && drops[i] == all[sorted[|sorted| - 1 - i]]
    ensures n in all && all[n] in drops
  {
    var i :| 0 <= i < |sorted| && sorted[i] == n;
    assert i >= size;
    var j := |sorted| - 1 - i;
    var d := drops[j];
    assert sorted[|sorted| - 1 - j] == n && d in drops;
  }

  /** The nonces stored, in any order. */
  method Collect(items: Items) returns (nonces: seq<Nonce>)
    ensures multiset(nonces) == multiset(items.Keys)
  {
    nonces := [];
    var todo := items.Keys;
    while todo != {}
      invariant multiset(nonces) + multiset(todo) == multiset(items.Keys)
    {
      var n :| n in todo;
      todo := todo - {n};
      nonces := nonces + [n];
    }
  }

  lemma {:induction false} SameIndex(index: seq<Nonce>, items: Items)
    requires multiset(index) == multiset(items.Keys)
    ensures IndexOf(index, items)
  {
  }

  lemma {:induction false} Least(index: seq<Nonce>)
    requires IsHeap(index)
    ensures forall n :: n in index ==> index[0] <= n
  {
    forall n | n in index
      ensures index[0] <= n
    {
      var k :| 0 <= k < |index| && index[k] == n;
      TopIsLeast(index, k);
    }
  }

  /** A run ends where the next nonce is missing. */
  lemma {:induction false} RunEnds(all: Items, items: Items, ready: seq<Tx>, index: seq<Nonce>, next: Nonce)
    requires Passed(all, items, ready) && IsHeap(index) && IndexOf(index, items) && ready != []
    requires next == ready[|ready| - 1].nonce + 1 && (index != [] ==> index[0] != next)
    ensures index != [] ==> index[0] >= next
    ensures next !in all
    ensures forall i :: 0 <= i < |ready| ==> ready[i].nonce < next
  {
    IndexHas(index, items);
    Least(index);
    hide IsHeap, IndexOf;
    AboveRun(all, items, ready, next);
    hide Passed;
  }

  lemma {:induction false} AboveRun(all: Items, items: Items, ready: seq<Tx>, next: Nonce)
    requires Passed(all, items, ready) && ready != [] && next == ready[|ready| - 1].nonce + 1
    ensures forall n :: n in items ==> n >= next
    ensures next in all ==> next in items
    ensures forall i :: 0 <= i < |ready| ==> ready[i].nonce < next
  {
    var last := ready[|ready| - 1];
    forall n | n in items
      ensures n >= next
    {
      assert last.nonce < n;
    }
    forall i | 0 <= i < |ready|
      ensures ready[i].nonce < next
    {
      assert i < |ready| - 1 ==> ready[i].nonce < last.nonce;
    }
  }

  /** A sorted index gives a sorted list. */
  lemma {:induction false} SortedLists(nonces: seq<Nonce>, txs: seq<Tx>, items: Items)
    requires IndexOf(nonces, items) && Ascending(nonces) && |txs| == |nonces|
    requires forall i :: 0 <= i < |txs| ==> nonces[i] in items && txs[i] == items[nonces[i]]
    ensures Lists(txs, items)
  {
    IndexHas(nonces, items);
    NoTwice(nonces, items);
    hide IndexOf;
    forall n | n in items
      ensures items[n] in txs
    {
      var i :| 0 <= i < |nonces| && nonces[i] == n;
      assert txs[i] == items[n];
    }
  }

  lemma {:induction false} NoTwice(nonces: seq<Nonce>, items: Items)
    requires IndexOf(nonces, items)
    ensures forall i, j :: 0 <= i < j < |nonces| ==> nonces[i] != nonces[j]
  {
    forall i, j | 0 <= i < j < |nonces|
      ensures nonces[i] != nonces[j]
    {
      if nonces[i] == nonces[j] {
        Twice(nonces, i, j);
      }
    }
  }

  lemma {:induction false} Twice(s: seq<Nonce>, i: nat, j: nat)
    requires i < j < |s| && s[i] == s[j]
    ensures multiset(s)[s[i]] >= 2
  {
    assert s == s[..i] + [s[i]] + s[i + 1..j] + [s[j]] + s[j + 1..];
  }

  // ---- filtering ----

  /** Some nonces have been looked at, and their transactions kept or moved as f says. */
  ghost predicate Sieved(all: Items, items: Items, removed: seq<Tx>, todo: set<Nonce>, f: Tx -> bool) {
    && todo <= items.Keys
    && (forall n :: n in items ==> n in all && all[n] == items[n] && (n in todo || !f(all[n])))
    && (forall n :: n in all && n !in items ==> f(all[n]) && all[n] in removed)
    && (forall i, j :: 0 <= i < j < |removed| ==> removed[i].nonce != removed[j].nonce)
    && (forall i :: 0 <= i < |removed| ==>
          removed[i].nonce in all && all[removed[i].nonce] == removed[i] && f(removed[i]) && removed[i].nonce !in items)
  }

  lemma {:induction false} NoneSieved(all: Items, f: Tx -> bool)
    ensures Sieved(all, all, [], all.Keys, f)
  {
  }

  lemma {:induction false} SieveOne(all: Items, items: Items, removed: seq<Tx>, todo: set<Nonce>, f: Tx -> bool,
                                    n: Nonce)
    requires Sieved(all, items, removed, todo, f) && n in todo
    ensures n in items
    ensures f(items[n]) ==> Sieved(all, items - {n}, removed + [items[n]], todo - {n}, f)
    ensures !f(items[n]) ==> Sieved(all, items, removed, todo - {n}, f)
  {
    var removed' := removed + [items[n]];
    assert removed'[|removed|] == all[n];
  }

  lemma {:induction false} AllSieved(all: Items, items: Items, removed: seq<Tx>, f: Tx -> bool)
    requires Sieved(all, items, removed, {}, f)
    ensures items == Others(all, f) && Picks(removed, Matching(all, f))
  {
  }

  lemma {:induction false} SizeAfter(items: Items, n: Nonce)
    requires n in items
    ensures |items - {n}| == |items| - 1
  {
    assert items == (items - {n})[n := items[n]];
  }

  /** The transactions of least nonces have been moved from the items to a sorted list. */
  ghost predicate Passed(all: Items, items: Items, removed: seq<Tx>) {
    && Rising(removed)
    && (forall i :: 0 <= i < |removed| ==>
          && removed[i].nonce in all && all[removed[i].nonce] == removed[i]
          && removed[i].nonce !in items)
    && (forall n :: n in items ==> n in all && all[n] == items[n])
    && (forall n :: n in all && n !in items ==> all[n] in removed)
    && (forall i, n :: 0 <= i < |removed| && n in items ==> removed[i].nonce < n)
  }

  lemma {:induction false} NonePassed(all: Items)
    ensures Passed(all, all, [])
  {
  }

  lemma {:induction false} PassOne(all: Items, items: Items, removed: seq<Tx>, rest: seq<Nonce>, nonce: Nonce)
    requires Passed(all, items, removed) && nonce in items && IndexOf(rest, items - {nonce})
    requires forall x :: x in rest ==> nonce <= x
    ensures Passed(all, items - {nonce}, removed + [items[nonce]])
  {
    hide IndexOf, Passed;
    IndexHas(rest, items - {nonce});
    forall n | n in items - {nonce}
      ensures nonce < n
    {
      assert n in rest;
    }
    PassLeast(all, items, removed, nonce);
  }

  lemma {:induction false} PassLeast(all: Items, items: Items, removed: seq<Tx>, nonce: Nonce)
    requires Passed(all, items, removed) && nonce in items && forall n :: n in items - {nonce} ==> nonce < n
    ensures Passed(all, items - {nonce}, removed + [items[nonce]])
  {
    var removed' := removed + [items[nonce]];
    forall n | n in all && n !in items - {nonce}
      ensures all[n] in removed'
    {
      if n == nonce {
        assert removed'[|removed|] == all[n];
      }
    }
  }

  lemma {:induction false} AllPassed(all: Items, items: Items, removed: seq<Tx>, index: seq<Nonce>, threshold: Nonce)
    requires Passed(all, items, removed) && IsHeap(index) && IndexOf(index, items)
    requires index != [] ==> index[0] >= threshold
    requires forall i :: 0 <= i < |removed| ==> removed[i].nonce < threshold
    ensures items == From(all, threshold) && Lists(removed, Under(all, threshold))
            && |removed| == |Under(all, threshold)|
  {
    IndexHas(index, items);
    forall n | n in items
      ensures n >= threshold
    {
      var k :| 0 <= k < |index| && index[k] == n;
      TopIsLeast(index, k);
    }
    hide IsHeap, IndexOf, From;
    forall n | n in all
      ensures n in items <==> n >= threshold
    {
    }
    FromIs(all, items, threshold);
    assert Lists(removed, Under(all, threshold));
    hide Lists, Under, Passed;
    ListsCount(removed, Under(all, threshold));
  }

  // ---- the list of an account ----

  function TooDear(costLimit: int, gasLimit: nat): Tx -> bool {
    (tx: Tx) => tx.cost > costLimit || tx.gas > gasLimit
  }

  function Above(nonce: Nonce): Tx -> bool {
    (tx: Tx) => tx.nonce > nonce
  }

  /** No transaction costs more than the caps. */
  ghost predicate Capped(items: Items, costCap: int, gasCap: nat) {
    forall n :: n in items ==> items[n].cost <= costCap && items[n].gas <= gasCap
  }

  /** No nonce is missing between two that are there. */
  ghost predicate Contiguous(items: Items) {
    forall a, b, c :: a in items && c in items && a < b < c ==> b in items
  }

  /** Transactions replace one of the same nonce only for a price raised enough. */
  predicate Replaces(tx: Tx, was: Tx, priceBump: nat) {
    was.price < tx.price && was.price * (100 + priceBump) / 100 <= tx.price
  }

  /** Both halves of a contiguous run are contiguous. */
  lemma {:induction false} HalvesAreContiguous(items: Items, n: Nonce)
    requires Contiguous(items)
    ensures Contiguous(Under(items, n)) && Contiguous(From(items, n))
  {
  }

  lemma {:induction false} NothingTooDear(items: Items, costCap: int, gasCap: nat, costLimit: int, gasLimit: nat)
    requires Capped(items, costCap, gasCap) && costCap <= costLimit && gasCap <= gasLimit
    ensures Matching(items, TooDear(costLimit, gasLimit)) == map[]
            && Others(items, TooDear(costLimit, gasLimit)) == items
  {
  }

  /** Without the transactions too dear and without those above the lowest of them, what is under
      the lowest is left. */
  lemma {:induction false} LeftUnder(items: Items, f: Tx -> bool, lowest: Nonce)
    requires lowest in Matching(items, f) && forall n :: n in Matching(items, f) ==> lowest <= n
    ensures Others(Others(items, f), Above(lowest)) == Under(items, lowest)
  {
    var left := Others(Others(items, f), Above(lowest));
    forall n | n in items
      ensures n in left <==> n < lowest
    {
      if n < lowest {
        assert n !in Matching(items, f);
      }
    }
  }

  lemma {:induction false} NonePicked(items: Items, f: Tx -> bool)
    requires Picks([], Matching(items, f))
    ensures Others(items, f) == items
  {
    assert Matching(items, f) == map[];
    forall n | n in items
      ensures !f(items[n])
    {
      assert n !in Matching(items, f);
    }
  }

  lemma {:induction false} PickNone()
    ensures Picks([], map[])
  {
  }

  lemma {:induction false} LowestPicked(txs: seq<Tx>, items: Items, low: Nonce)
    requires Picks(txs, items) && (exists i :: 0 <= i < |txs| && txs[i].nonce == low) && forall i :: 0 <= i < |txs| ==>
             low <= txs[i].nonce
    ensures low in items && forall n :: n in items ==> low <= n
  {
    forall n | n in items
      ensures low <= n
    {
      var i :| 0 <= i < |txs| && txs[i] == items[n];
    }
  }

  lemma {:induction false} CappedParts(items: Items, f: Tx -> bool, n: Nonce, costCap: int, gasCap: nat)
    requires Capped(items, costCap, gasCap)
    ensures Capped(Others(items, f), costCap, gasCap) && Capped(Under(items, n), costCap, gasCap)
            && Capped(items - {n}, costCap, gasCap)
  {
  }

  lemma {:induction false} CappedByLimits(items: Items, costLimit: int, gasLimit: nat)
    ensures Capped(Others(items, TooDear(costLimit, gasLimit)), costLimit, gasLimit)
  {
  }

  /** Removing one transaction and everything after it leaves what is under it. */
  lemma {:induction false} RemovedFrom(items: Items, n: Nonce)
    ensures Matching(items - {n}, Above(n)) == From(items, n + 1)
    ensures Others(items - {n}, Above(n)) == Under(items, n)
  {
  }

  class PoolList {
    const strict: bool
    const txs: SortedMap
    var costCap: int
    var gasCap: nat

    ghost predicate Valid()
      reads this, txs
    {
      txs.Valid() && Capped(txs.items, costCap, gasCap)
    }

    constructor (strict: bool)
      ensures Valid() && this.strict == strict && txs.items == map[] && fresh(txs)
    {
      this.strict := strict;
      txs := new SortedMap();
      costCap, gasCap := 0, 0;
    }

    method Add(tx: Tx, priceBump: nat) returns (ok: bool, was: Option<Tx>)
      requires Valid()
      modifies this, txs
      ensures Valid()
      ensures ok <==> tx.nonce in old(txs.items) ==> Replaces(tx, old(txs.items)[tx.nonce], priceBump)
      ensures txs.items == if ok then old(txs.items)[tx.nonce := tx] else old(txs.items)
      ensures was == if ok && tx.nonce in old(txs.items) then Some(old(txs.items)[tx.nonce]) else None
      ensures costCap == (if ok && tx.cost > old(costCap) then tx.cost else old(costCap))
      ensures gasCap == (if ok && tx.gas > old(gasCap) then tx.gas else old(gasCap))
    {
      was := None;
      if tx.nonce in txs.items {
        var older := txs.items[tx.nonce];
        var threshold := older.price * (100 + priceBump) / 100;
        if older.price >= tx.price || threshold > tx.price {
          return false, None;
        }
        was := Some(older);
      }
      txs.Put(tx);
      if costCap < tx.cost {
        costCap := tx.cost;
      }
      if gasCap < tx.gas {
        gasCap := tx.gas;
      }
      ok := true;
    }

    /** Takes out what costs more than the limits, looking at the transactions only if the caps do
        not rule that out; a strict list also gives up what comes after. */
    method Filter(costLimit: int, gasLimit: nat) returns (removed: seq<Tx>, invalids: seq<Tx>, ghost lowest: Nonce)
      requires Valid()
      modifies this, txs
      ensures Valid()
      ensures Picks(removed, Matching(old(txs.items), TooDear(costLimit, gasLimit)))
      ensures !strict || removed == [] ==>
                && invalids == []
                && txs.items == Others(old(txs.items), TooDear(costLimit, gasLimit))
      ensures strict && removed != [] ==>
                && lowest in Matching(old(txs.items), TooDear(costLimit, gasLimit))
                && (forall n :: n in Matching(old(txs.items), TooDear(costLimit, gasLimit)) ==> lowest <= n)
                && txs.items == Under(old(txs.items), lowest)
                && Picks(invalids, Matching(Others(old(txs.items), TooDear(costLimit, gasLimit)), Above(lowest)))
      ensures strict && Contiguous(old(txs.items)) ==> Contiguous(txs.items)
      ensures var short := old(costCap) <= costLimit && old(gasCap) <= gasLimit;
              (costCap, gasCap) == if short then (old(costCap), old(gasCap)) else (costLimit, gasLimit)
    {
      hide Picks, Matching, Others, Under, Capped, Contiguous, Above, TooDear;
      removed, invalids, lowest := [], [], 0;
      if costCap <= costLimit && gasCap <= gasLimit {
        NothingTooDear(txs.items, costCap, gasCap, costLimit, gasLimit);
        PickNone();
        return;
      }
      costCap, gasCap := costLimit, gasLimit;
      CappedByLimits(txs.items, costLimit, gasLimit);
      removed := txs.Filter(TooDear(costLimit, gasLimit));
      if |removed| == 0 {
        assert removed == [];
        NonePicked(old(txs.items), TooDear(costLimit, gasLimit));
      }
      if strict && |removed| > 0 {
        var low := Lowest(removed);
        lowest := low;
        LowestPicked(removed, Matching(old(txs.items), TooDear(costLimit, gasLimit)), low);
        CappedParts(txs.items, Above(low), 0, costCap, gasCap);
        LeftUnder(old(txs.items), TooDear(costLimit, gasLimit), low);
        invalids := txs.Filter(Above(low));
        if Contiguous(old(txs.items)) {
          HalvesAreContiguous(old(txs.items), low);
        }
      }
    }

    method Remove(tx: Tx) returns (found: bool, invalids: seq<Tx>)
      requires Valid()
      modifies this, txs
      ensures Valid() && found == (tx.nonce in old(txs.items))
      ensures !found ==> txs.items == old(txs.items) && invalids == []
      ensures found && !strict ==> txs.items == old(txs.items) - {tx.nonce} && invalids == []
      ensures found && strict ==>
                && txs.items == Under(old(txs.items), tx.nonce)
                && Picks(invalids, From(old(txs.items), tx.nonce + 1))
      ensures strict && Contiguous(old(txs.items)) ==> Contiguous(txs.items)
    {
      hide Picks, Matching, Others, Under, From, Capped, Contiguous, Above;
      hide IsHeap, IndexOf, Lists;
      ghost var before := txs.items;
      CappedParts(before, Above(tx.nonce), tx.nonce, costCap, gasCap);
      invalids := [];
      found := txs.Remove(tx.nonce);
      if !found {
        assert before - {tx.nonce} == before;
        return;
      }
      if strict {
        invalids := txs.Filter(Above(tx.nonce));
        RemovedFrom(before, tx.nonce);
        if Contiguous(before) {
          HalvesAreContiguous(before, tx.nonce);
        }
      }
    }

    method Forward(threshold: Nonce) returns (removed: seq<Tx>)
      requires Valid()
      modifies txs
      ensures Valid() && txs.items == From(old(txs.items), threshold)
              && Lists(removed, Under(old(txs.items), threshold))
      ensures Contiguous(old(txs.items)) ==> Contiguous(txs.items)
    {
      removed := txs.Forward(threshold);
    }

    method Cap(threshold: nat) returns (drops: seq<Tx>)
      requires Valid()
      modifies txs
      ensures Valid() && |txs.items| == if |old(txs.items)| <= threshold then |old(txs.items)| else threshold
      ensures forall n, m :: n in txs.items && m in old(txs.items) && m !in txs.items ==> n < m
      ensures forall n :: n in txs.items ==> n in old(txs.items) && txs.items[n] == old(txs.items)[n]
      ensures Picks(drops, old(txs.items) - txs.items.Keys)
      ensures Contiguous(old(txs.items)) ==> Contiguous(txs.items)
    {
      ghost var cut;
      drops, cut := txs.Cap(threshold);
      CutOff(old(txs.items), cut);
      PickNone();
      assert txs.items == old(txs.items) ==> old(txs.items) - txs.items.Keys == map[];
    }
  }

  /** What is not under the cut is from it on. */
  lemma {:induction false} CutOff(items: Items, cut: Nonce)
    ensures items - Under(items, cut).Keys == From(items, cut)
  {
  }

  /** The lowest nonce of some transactions. */
  method Lowest(txs: seq<Tx>) returns (low: Nonce)
    requires txs != []
    ensures exists i :: 0 <= i < |txs| && txs[i].nonce == low
    ensures forall i :: 0 <= i < |txs| ==> low <= txs[i].nonce
  {
    low := txs[0].nonce;
    var i := 1;
    while i < |txs|
      invariant 1 <= i <= |txs| && exists j :: 0 <= j < i && txs[j].nonce == low
      invariant forall j :: 0 <= j < i ==> low <= txs[j].nonce
    {
      if low > txs[i].nonce {
        low := txs[i].nonce;
      }
      i := i + 1;
    }
  }
}
