/** One-to-many event delivery: subscribers are tried, waited for and removed while a value is sent. */
module Feed {
  import opened Collections

  type Channel = nat

  /** The channel on which a send in progress hears of channels to remove; it is always case 0. */
  const REMOVE_SUB: Channel := 0

  /** What a send waiting on all its cases is woken by. */
  datatype Event = Takes(k: nat) | Leaves(ch: Channel)

  /** Everything the surroundings decide during a send: whether a channel takes the value at once,
      and which case a wait comes back with. */
  datatype Schedule = Schedule(ready: (nat, Channel) -> bool, wake: (nat, seq<Channel>, nat) -> Event)

  /** A wait comes back with an active case, or with a channel that is still subscribed. */
  ghost predicate Legal(e: Event, cases: seq<Channel>, active: nat) {
    match e
    case Takes(k) => 1 <= k < active
    case Leaves(ch) => ch in cases && ch != REMOVE_SUB
  }

  ghost predicate Fair(s: Schedule) {
    forall n, cases, active :: 1 < active <= |cases| && REMOVE_SUB == cases[0] ==>
      Legal(s.wake(n, cases, active), cases, active)
  }

  ghost predicate Distinct(s: seq<Channel>) {
    forall i, j :: 0 <= i < j < |s| ==> s[i] != s[j]
  }

  function Without(s: seq<Channel>, i: nat): seq<Channel>
    requires i < |s|
  {
    s[..i] + s[i + 1..]
  }

  lemma {:induction false} SwappedHolds(s: seq<Channel>, i: nat, j: nat)
    requires i < |s| && j < |s| && Distinct(s)
    ensures Distinct(Swapped(s, i, j)) && forall x :: x in Swapped(s, i, j) <==> x in s
  {
    var t := Swapped(s, i, j);
    forall x | x in s
      ensures x in t
    {
      var k :| 0 <= k < |s| && s[k] == x;
      assert t[if k == i then j else if k == j then i else k] == x;
    }
  }

  lemma {:induction false} WithoutHolds(s: seq<Channel>, i: nat)
    requires i < |s| && Distinct(s)
    ensures Distinct(Without(s, i)) && forall x :: x in Without(s, i) <==> x in s && x != s[i]
  {
    var t := Without(s, i);
    forall x | x in s && x != s[i]
      ensures x in t
    {
      var k :| 0 <= k < |s| && s[k] == x;
      assert t[if k < i then k else k - 1] == x;
    }
  }

  // ---- a send in progress ----

  /** How far a send has come: cases before active are still waited for, those after have been
      delivered to; removed channels are gone from the cases. */
  ghost predicate Sending(all: set<Channel>, cases: seq<Channel>, active: nat, delivered: seq<Channel>,
                          removed: set<Channel>) {
    && 1 <= active <= |cases| && cases[0] == REMOVE_SUB && Distinct(cases) && Distinct(delivered)
    && (forall x :: x in cases <==> x == REMOVE_SUB || (x in all && x !in removed))
    && (forall k :: 0 <= k < active ==> cases[k] !in delivered)
    && (forall k :: active <= k < |cases| ==> cases[k] in delivered)
    && (forall x :: x in delivered ==> x in all && (x in removed || x in cases))
    && removed <= all && REMOVE_SUB !in all
  }

  /** Delivering to an active case moves it behind the active ones. */
  lemma {:induction false} DeliverKeeps(all: set<Channel>, cases: seq<Channel>, active: nat, delivered: seq<Channel>,
                                        removed: set<Channel>, i: nat)
    requires Sending(all, cases, active, delivered, removed) && 1 <= i < active
    ensures Sending(all, Swapped(cases, i, active - 1), active - 1, delivered + [cases[i]], removed)
  {
    SwappedHolds(cases, i, active - 1);
  }

  /** Removing a case keeps the active ones in front. */
  lemma {:induction false} RemoveKeeps(all: set<Channel>, cases: seq<Channel>, active: nat, delivered: seq<Channel>,
                                       removed: set<Channel>, i: nat)
    requires Sending(all, cases, active, delivered, removed) && 1 <= i < |cases|
    ensures Sending(all, Without(cases, i), if i < active then active - 1 else active, delivered, removed + {cases[i]})
  {
    WithoutHolds(cases, i);
    var t := Without(cases, i);
    assert forall k :: 0 <= k < |t| ==> t[k] == if k < i then cases[k] else cases[k + 1];
  }

  // ---- the feed ----

  class EventFeed {
    var sendCases: seq<Channel>
    var inbox: seq<Channel>

    /** Channels are subscribed once each. */
    ghost predicate Valid()
      reads this
    {
      |sendCases| > 0 && sendCases[0] == REMOVE_SUB && Distinct(sendCases + inbox)
    }

    ghost function Subscribed(): set<Channel>
      reads this
    {
      set x | x in sendCases + inbox && x != REMOVE_SUB
    }

    constructor ()
      ensures Valid() && Subscribed() == {}
    {
      sendCases, inbox := [REMOVE_SUB], [];
    }

    method Subscribe(ch: Channel)
      requires Valid() && ch != REMOVE_SUB && ch !in Subscribed()
      modifies this`inbox
      ensures Valid() && Subscribed() == old(Subscribed()) + {ch} && inbox == old(inbox) + [ch]
    {
      assert sendCases + (inbox + [ch]) == (sendCases + inbox) + [ch];
      inbox := inbox + [ch];
    }

    /** The index of a channel among cases, or -1. */
    static method Find(cases: seq<Channel>, ch: Channel) returns (index: int)
      ensures -1 <= index < |cases|
      ensures index >= 0 ==> cases[index] == ch
      ensures index < 0 <==> ch !in cases
    {
      index := 0;
      while index < |cases|
        invariant 0 <= index <= |cases| && ch !in cases[..index]
      {
        if cases[index] == ch {
          return;
        }
        index := index + 1;
      }
      assert cases[..index] == cases;
      index := -1;
    }

    /** Ends a subscription while no send is in progress: looks in the inbox first. */
    method Unsubscribe(ch: Channel)
      requires Valid() && ch in Subscribed()
      modifies this`inbox, this`sendCases
      ensures Valid() && Subscribed() == old(Subscribed()) - {ch}
    {
      ghost var both := sendCases + inbox;
      var index := Find(inbox, ch);
      if index != -1 {
        WithoutHolds(both, |sendCases| + index);
        assert sendCases + Without(inbox, index) == Without(both, |sendCases| + index);
        inbox := Without(inbox, index);
        return;
      }
      index := Find(sendCases, ch);
      WithoutHolds(both, index);
      assert Without(sendCases, index) + inbox == Without(both, index);
      sendCases := Without(sendCases, index);
    }

    /** Tries every active case once; the ones that take the value stop being active. The active cases
        are always the first ones of sendCases, with which they share their storage. */
    method TryAll(s: Schedule, step: nat, active: nat, nsent: nat, delivered: seq<Channel>,
                  ghost all: set<Channel>, ghost removed: set<Channel>)
        returns (step': nat, active': nat, nsent': nat, delivered': seq<Channel>)
      requires Sending(all, sendCases, active, delivered, removed) && nsent == |delivered| && active <= |sendCases|
      modifies this`sendCases
      ensures Sending(all, sendCases, active', delivered', removed) && nsent' == |delivered'|
      ensures |sendCases| == old(|sendCases|) && active' <= active
    {
      hide Sending;
      step', active', nsent', delivered' := step, active, nsent, delivered;
      var i := 1;
      while i < active'
        invariant Sending(all, sendCases, active', delivered', removed) && nsent' == |delivered'|
        invariant 1 <= i && active' <= active && |sendCases| == old(|sendCases|) && active' <= |sendCases|
        decreases active' - i
      {
        if s.ready(step', sendCases[i]) {
          DeliverKeeps(all, sendCases, active', delivered', removed, i);
          nsent', delivered' := nsent' + 1, delivered' + [sendCases[i]];
          sendCases, active' := Swapped(sendCases, i, active' - 1), active' - 1;
        } else {
          i := i + 1;
        }
        step' := step' + 1;
      }
    }

    /** Sends a value to every channel subscribed at the start. Whatever the schedule, a channel that
        is not removed meanwhile gets it exactly once, a removed one at most once; the number of
        deliveries is returned, and the channels left are those there were but the removed. */
    method Send(s: Schedule) returns (nsent: nat, delivered: seq<Channel>, ghost removed: set<Channel>)
      requires Valid() && Fair(s)
      modifies this`sendCases, this`inbox
      ensures Valid() && inbox == [] && nsent == |delivered|
      ensures removed <= old(Subscribed()) && Subscribed() == old(Subscribed()) - removed
      ensures forall x :: x in delivered ==> x in old(Subscribed())
      ensures forall x :: x in old(Subscribed()) && x !in removed ==> multiset(delivered)[x] == 1
      ensures forall x :: multiset(delivered)[x] <= 1
    {
      ghost var all := Subscribed();
      sendCases, inbox := sendCases + inbox, [];
      nsent, delivered, removed := 0, [], {};
      var step: nat, active: nat := 0, |sendCases|;
      while true
        invariant Sending(all, sendCases, active, delivered, removed) && nsent == |delivered| && inbox == []
        decreases |sendCases| + active
      {
        step, active, nsent, delivered := TryAll(s, step, active, nsent, delivered, all, removed);
        if active == 1 {
          break;
        }
        var e := s.wake(step, sendCases, active);
        match e
        case Leaves(ch) =>
          var index := Find(sendCases, ch);
          RemoveKeeps(all, sendCases, active, delivered, removed, index);
          sendCases := Without(sendCases, index);
          removed := removed + {ch};
          if index < active {
            active := active - 1;
          }
        case Takes(k) =>
          DeliverKeeps(all, sendCases, active, delivered, removed, k);
          delivered := delivered + [sendCases[k]];
          sendCases, active := Swapped(sendCases, k, active - 1), active - 1;
          nsent := nsent + 1;
      }
      assert sendCases + inbox == sendCases;
      Once(delivered);
    }
  }

  lemma {:induction false} Once(s: seq<Channel>)
    requires Distinct(s)
    ensures forall x :: multiset(s)[x] == if x in s then 1 else 0
  {
    if s != [] {
      var front := s[..|s| - 1];
      Once(front);
      assert s == front + [s[|s| - 1]];
    }
  }
}
