/** A download that loses part of the trie: the order of answers decides in which role a hash is taken. */
module SyncLoss {
  import opened Bytes
  import opened MapSum
  import opened TrieSync
  import opened SyncRoles

  // ---- every answered download ends ----

  /** References lead downwards. */
  ghost predicate Downwards(w: World, root: Hash, rank: Hash -> nat) {
    forall p, c :: Reached(w, root, p) && Refers(w, p, c) ==> rank(c.hash) < rank(p.hash)
  }

  lemma {:induction false} Lowest(reqs: Requests, rank: Hash -> nat) returns (h: Hash)
    requires reqs != map[]
    ensures h in reqs && forall x :: x in reqs ==> rank(h) <= rank(x)
    decreases |reqs|
  {
    h :| h in reqs;
    var rest := reqs - {h};
    assert rest.Keys == reqs.Keys - {h};
    assert forall x :: x in reqs ==> x == h || x in rest.Keys;
    if rest != map[] {
      var first := h;
      var low := Lowest(rest, rank);
      h := if rank(low) < rank(first) then low else first;
      assert forall x :: x in reqs ==> x == first || rank(low) <= rank(x);
    }
  }

  /** Who waits is listed as somebody's parent. */
  lemma {:induction false} WaitsForSomebody(reqs: Requests, p: Hash) returns (c: Hash)
    requires Waiting(reqs, p) > 0
    ensures c in reqs && p in reqs[c].parents
  {
    SumHasPositive(Links(reqs, p));
    c :| c in Links(reqs, p) && Links(reqs, p)[c] > 0;
  }

  /** Once every request has been answered nothing is pending: requests only wait for what lies below them. */
  lemma {:induction false} NothingStuck(w: World, root: Hash, start: Roles, m: Mem, all: set<Hash>, rank: Hash -> nat)
    requires Inv(w, start, m, multiset{}, {}) && Grounded(w, root, start, m.roles)
    requires Sound(w, root, all) && Downwards(w, root, rank)
    requires forall r :: r in m.requests ==> m.requests[r].data.Some?
    ensures m.requests == map[]
  {
    hide Inv, Grounded, Sound, Downwards;
    if m.requests != map[] {
      var h := Lowest(m.requests, rank);
      var c := SomethingBelow(w, root, start, m, all, rank, h);
    }
  }

  /** An answered request waits for one that lies below it. */
  lemma {:induction false} SomethingBelow(w: World, root: Hash, start: Roles, m: Mem, all: set<Hash>, rank: Hash -> nat,
                                          h: Hash)
    returns (c: Hash)
    requires Inv(w, start, m, multiset{}, {}) && Grounded(w, root, start, m.roles)
    requires Sound(w, root, all) && Downwards(w, root, rank)
    requires h in m.requests && m.requests[h].data.Some?
    ensures c in m.requests && rank(c) < rank(h)
  {
    hide Reached, Sane, StoreInv, Queued, Waiting, Grounded, Refers, Fails, Readable;
    PendingIsReached(w, root, start, m, h);
    assert Settled(w, m.requests, KnownTo(m), h);
    c := WaitsForSomebody(m.requests, h);
    assert Needs(w, Own(m.requests, h), c);
    var r :| Refers(w, Own(m.requests, h), Ref(c, r));
  }

  /** An unknown request is for something the root leads to. */
  lemma {:induction false} PendingIsReached(w: World, root: Hash, start: Roles, m: Mem, h: Hash)
    requires Inv(w, start, m, multiset{}, {}) && Grounded(w, root, start, m.roles) && h in m.requests
    requires m.requests[h].data.Some? || h !in KnownTo(m)
    ensures h !in KnownTo(m) && h in m.roles && Own(m.requests, h) == Ref(h, m.roles[h])
    ensures Reached(w, root, Own(m.requests, h))
  {
    hide Reached, Grounds;
    assert h !in KnownTo(m) by { hide StoreInv, Counted, Waits, Linked, Sane; }
    assert h in m.roles && Own(m.requests, h) == Ref(h, m.roles[h]) by { hide StoreInv, ReqInv, Sane; }
    assert h !in start by { StartIsStored(w, start, m); }
    GroundsIsReached(w, root, m.roles, h);
  }

  // ---- answering ----

  /** A download into an empty database, of which nothing has been written yet. */
  ghost predicate Unwritten(s: Sync)
    reads s
  {
    s.Valid() && s.start == map[] && s.database == map[]
  }

  lemma {:induction false} OpenIsUnknown(s: Sync, h: Hash)
    requires Unwritten(s) && h in s.requests
    ensures h !in s.Known() && h in s.roles && s.roles[h] == RoleOf(s.requests[h]) && h != NO_PARENT
    ensures Reached(s.w, s.root, Ref(h, s.roles[h]))
  {
    hide Reached, StoreInv, ReqInv, Sane, Grounded;
    InvPending(s.w, s.start, s.Now(), multiset{}, {}, h);
    PendingIsReached(s.w, s.root, s.start, s.Now(), h);
  }

  /** Answers a request that is open, which is then accepted. */
  method AnswerOne(s: Sync, h: Hash, ghost all: set<Hash>)
    requires Unwritten(s) && Sound(s.w, s.root, all) && h in s.requests && s.requests[h].data.None?
    modifies s`requests, s`queue, s`roles, s`batch, s`order
    ensures Unwritten(s) && s.Held() == old(s.Held()) + {h} && h !in old(s.Held()) && h in all
    ensures h in old(s.roles) && AskedBy(s.w, Ref(h, old(s.roles)[h]), old(s.roles), s.roles)
    ensures forall c :: Needs(s.w, Ref(h, old(s.roles)[h]), c) ==> c in s.roles
  {
    hide Inv, Grounded, Reached, Refers, Fails, Sane, Needs;
    OpenIsUnknown(s, h);
    assert Own(s.requests, h) == Ref(h, s.roles[h]);
    var outcome, committed := s.ProcessItem(h, s.w.content(h));
    assert outcome == Accepted;
  }

  /** Answers whatever is still open, in any order. */
  method AnswerAll(s: Sync, ghost all: set<Hash>, ghost rank: Hash -> nat)
    requires Unwritten(s) && Sound(s.w, s.root, all) && Downwards(s.w, s.root, rank)
    modifies s`requests, s`queue, s`roles, s`batch, s`order
    ensures Unwritten(s) && s.requests == map[] && Extends(old(s.roles), s.roles)
  {
    hide Unwritten, Refers, Needs, Sound, Downwards, Sync.Held;
    while exists h :: h in s.requests && s.requests[h].data.None?
      invariant Unwritten(s) && Extends(old(s.roles), s.roles)
      decreases |all - s.Held()|
    {
      var h :| h in s.requests && s.requests[h].data.None?;
      ghost var open := all - s.Held();
      AnswerOne(s, h, all);
      FewerOpen(open, all - s.Held(), h);
    }
    NoneIsOpen(s, all, rank);
  }

  lemma {:induction false} FewerOpen(open: set<Hash>, open': set<Hash>, h: Hash)
    requires h in open && forall x :: x in open' <==> x in open && x != h
    ensures |open'| < |open|
  {
    assert open' == open - {h};
  }

  lemma {:induction false} NoneIsOpen(s: Sync, all: set<Hash>, rank: Hash -> nat)
    requires Unwritten(s) && Sound(s.w, s.root, all) && Downwards(s.w, s.root, rank)
    requires forall h :: h in s.requests ==> s.requests[h].data.Some?
    ensures s.requests == map[]
  {
    hide Inv, Grounded, Sound, Downwards;
    NothingStuck(s.w, s.root, s.start, s.Now(), all, rank);
  }

  /** Writes what came, which ends the download. */
  method WriteAll(s: Sync)
    requires s.Valid() && s.requests == map[] && s.root in s.roles
    modifies s`batch, s`order, s`database
    ensures Done(s.w, s.root, s.start, s.Now())
  {
    hide Inv, Grounded, Closed;
    var written, ok := s.Flush(|s.order|);
  }

  /** Nothing on the path refers to something further down it in another role than the path's. */
  ghost predicate Clean(w: World, path: seq<Ref>) {
    forall i, j, r :: 0 <= i < j < |path| && Refers(w, path[i], Ref(path[j].hash, r)) ==> r == path[j].role
  }

  lemma {:induction false} PathDescends(w: World, root: Hash, rank: Hash -> nat, path: seq<Ref>, i: nat, j: nat)
    requires Downwards(w, root, rank) && Leads(w, path, root) && i < j < |path|
    ensures rank(path[j].hash) < rank(path[i].hash)
    decreases j
  {
    hide Reached, Refers;
    PathIsReached(w, root, path, j - 1);
    assert Refers(w, path[j - 1], path[j - 1 + 1]);
    if i < j - 1 {
      PathDescends(w, root, rank, path, i, j - 1);
    }
  }

  /** Whatever of the path has been taken has been taken in the path's roles. */
  ghost predicate Agrees(roles: Roles, path: seq<Ref>) {
    forall j :: 0 <= j < |path| && path[j].hash in roles ==> roles[path[j].hash] == path[j].role
  }

  lemma {:induction false} StillAgrees(w: World, root: Hash, rank: Hash -> nat, path: seq<Ref>, i: nat, roles: Roles,
                                       roles': Roles)
    requires Downwards(w, root, rank) && Leads(w, path, root) && Clean(w, path) && i < |path|
    requires Agrees(roles, path) && AskedBy(w, path[i], roles, roles') && forall j :: 0 <= j <= i ==>
             path[j].hash in roles
    ensures Agrees(roles', path)
  {
    hide Reached, Refers, Leads, Downwards;
    forall j | 0 <= j < |path| && path[j].hash in roles'
      ensures roles'[path[j].hash] == path[j].role
    {
      if path[j].hash !in roles {
        assert i < j && Refers(w, path[i], Ref(path[j].hash, roles'[path[j].hash]));
      }
    }
  }

  /** Answers the entries of the path in turn, so that each is taken in the role it has there. */
  method AnswerAlong(s: Sync, path: seq<Ref>, ghost all: set<Hash>, ghost rank: Hash -> nat)
    requires Unwritten(s) && Sound(s.w, s.root, all) && Downwards(s.w, s.root, rank)
    requires Leads(s.w, path, s.root) && Clean(s.w, path)
    requires s.Held() == {} && s.roles == map[s.root := State]
    modifies s`requests, s`queue, s`roles, s`batch, s`order
    ensures Unwritten(s) && s.root in s.roles
    ensures path[|path| - 1].hash in s.roles && s.roles[path[|path| - 1].hash] == path[|path| - 1].role
  {
    hide Inv, Grounded, Reached, Refers, Sound, Downwards, Clean;
    assert Agrees(s.roles, path) by {
      forall j | 0 < j < |path|
        ensures path[j].hash != s.root
      {
        PathDescends(s.w, s.root, rank, path, 0, j);
      }
    }
    var i := 0;
    while i < |path| - 1
      invariant 0 <= i < |path| && Unwritten(s) && Agrees(s.roles, path) && s.root in s.roles
      invariant forall j :: 0 <= j <= i ==> path[j].hash in s.roles
      invariant forall x :: x in s.Held() ==> exists j :: 0 <= j < i && path[j].hash == x
    {
      if path[i].hash in s.Held() {
        var j :| 0 <= j < i && path[j].hash == path[i].hash;
        PathDescends(s.w, s.root, rank, path, j, i);
      }
      ghost var before := s.roles;
      OpenIsRequested(s, path[i].hash);
      AnswerOne(s, path[i].hash, all);
      StillAgrees(s.w, s.root, rank, path, i, before, s.roles);
      assert Needs(s.w, path[i], path[i + 1].hash) by {
        assert Refers(s.w, path[i], Ref(path[i + 1].hash, path[i + 1].role));
      }
      i := i + 1;
    }
  }

  lemma {:induction false} OpenIsRequested(s: Sync, h: Hash)
    requires Unwritten(s) && h in s.roles && h !in s.Held()
    ensures h in s.requests && s.requests[h].data.None?
  {
    hide StoreInv, ReqInv, Sane, Grounded;
  }

  // ---- losing ----

  /** Every way from the root to c leads through h in another role than the given one. */
  ghost predicate OnlyThrough(w: World, root: Hash, h: Ref, c: Hash) {
    forall path: seq<Ref> :: Leads(w, path, root) && path[|path| - 1].hash == c ==>
      exists i :: 0 <= i < |path| && path[i].hash == h.hash && path[i].role != h.role
  }

  lemma {:induction false} TakenOtherwise(w: World, root: Hash, start: Roles, m: Mem, h: Ref, c: Hash)
    requires Done(w, root, start, m) && start == map[] && h.hash in m.roles && m.roles[h.hash] == h.role
    requires OnlyThrough(w, root, h, c)
    ensures c !in m.database
  {
    hide Inv, Refers, Closed;
    DoneIsClosed(w, root, start, m);
  }

  /** If an entry can be asked for first in a role that does not lead to c, and every way to c leads through that
      entry, then some order of answers ends the download without c. */
  method LoseSubtree(w: World, root: Hash, path: seq<Ref>, ghost c: Hash, ghost all: set<Hash>, ghost rank: Hash -> nat)
    returns (s: Sync)
    requires Sound(w, root, all) && Downwards(w, root, rank) && root != NO_PARENT && root != EMPTY_ROOT
    requires Leads(w, path, root) && Clean(w, path) && OnlyThrough(w, root, path[|path| - 1], c)
    ensures fresh(s) && s.w == w && s.root == root && s.start == map[] && Done(w, root, map[], s.Now())
    ensures root in s.database && c !in s.database
  {
    hide Inv, Grounded, Refers, Downwards, Clean, OnlyThrough, Closed, Done, Reached, Fails, Decodes;
    NothingIsClosed(w);
    s := new Sync(root, map[], map[], w);
    RolesAtStart(s);
    AnswerAlong(s, path, all, rank);
    ghost var taken := s.roles;
    AnswerAll(s, all, rank);
    assert Extends(taken, s.roles);
    ghost var roles := s.roles;
    WriteAll(s);
    DoneIsClosed(w, root, map[], s.Now());
    TakenOtherwise(w, root, map[], s.Now(), path[|path| - 1], c);
  }

  lemma {:induction false} NothingIsClosed(w: World)
    ensures Closed(w, map[], map[])
  {
  }

  lemma {:induction false} RolesAtStart(s: Sync)
    requires Unwritten(s) && s.requests.Keys == {s.root} && s.batch == map[] && s.root in s.roles
             && s.roles[s.root] == State
    ensures s.roles == map[s.root := State]
  {
    hide StoreInv, ReqInv, Sane, Grounded;
  }

  // ---- a state that can be lost ----

  /** Two accounts, 11 and 12, below the root 10. The code of the first is the very bytes, 13, of the storage root of
      the second, which has a child, 14. */
  function Content(h: Hash): Bytes {
    if h < 256 then [h] else []
  }

  function DecodeAs(b: Bytes): Option<seq<Child>> {
    if b == [10] then Some([HashChild(11, 1), HashChild(12, 1)])
    else if b == [11] then Some([ValueChild([1])])
    else if b == [12] then Some([ValueChild([2])])
    else if b == [13] then Some([HashChild(14, 1)])
    else if b == [14] then Some([ValueChild([3])])
    else None
  }

  function AccountAs(b: Bytes): Option<Account> {
    if b == [1] then Some(Account(EMPTY_ROOT, 13)) else if b == [2] then Some(Account(13, EMPTY_STATE)) else None
  }

  const SHARED: World := World(Content, DecodeAs, AccountAs)

  /** Everything the root leads to, with what it refers to. */
  predicate Below(p: Ref, c: Ref) {
    || (p == Ref(10, State) && c in {Ref(11, State), Ref(12, State)})
    || (p == Ref(11, State) && c == Ref(13, Raw)) || (p == Ref(12, State) && c == Ref(13, Storage))
    || (p == Ref(13, Storage) && c == Ref(14, Storage))
  }

  const EVERYTHING: set<Ref> := {Ref(10, State), Ref(11, State), Ref(12, State), Ref(13, Raw), Ref(13, Storage),
    Ref(14, Storage)}

  lemma {:induction false} SharedRefers(p: Ref, c: Ref)
    requires p in EVERYTHING
    ensures Refers(SHARED, p, c) <==> Below(p, c)
  {
    var children := Children(SHARED, p.hash);
    assert |children| <= 2;
    if Below(p, c) {
      assert c in ChildRefs(SHARED, p.role, children[0])
             || (|children| == 2 && c in ChildRefs(SHARED, p.role, children[1]));
    }
  }

  lemma {:induction false} SharedReached(path: seq<Ref>)
    requires Leads(SHARED, path, 10)
    ensures path[|path| - 1] in EVERYTHING
    ensures path[|path| - 1] == Ref(14, Storage) ==> |path| > 1 && path[|path| - 2] == Ref(13, Storage)
    decreases |path|
  {
    hide Refers;
    if |path| > 1 {
      var front := path[..|path| - 1];
      SharedReached(front);
      assert front[|front| - 1] == path[|path| - 2] && Refers(SHARED, path[|path| - 2], path[|path| - 2 + 1]);
      SharedRefers(path[|path| - 2], path[|path| - 1]);
    }
  }

  lemma {:induction false} SharedIsSane()
    ensures Sane(SHARED)
  {
    forall p, c | Refers(SHARED, p, c)
      ensures c.hash != NO_PARENT
    {
      var i :| 0 <= i < |Children(SHARED, p.hash)| && c in ChildRefs(SHARED, p.role, Children(SHARED, p.hash)[i]);
    }
  }

  const ALL: set<Hash> := {10, 11, 12, 13, 14}

  lemma {:induction false} SharedIsSound()
    ensures Sound(SHARED, 10, ALL)
  {
    hide Refers, Sane, Readable, Fails;
    SharedIsSane();
    forall x | Reached(SHARED, 10, x)
      ensures x.hash in ALL && Readable(SHARED, x) && !Fails(SHARED, x)
    {
      var path: seq<Ref> :| Leads(SHARED, path, 10) && path[|path| - 1] == x;
      SharedReached(path);
      SharedIsReadable(x);
    }
  }

  lemma {:induction false} SharedIsReadable(x: Ref)
    requires x in EVERYTHING
    ensures Readable(SHARED, x) && !Fails(SHARED, x)
  {
  }

  lemma {:induction false} SharedGoesDown()
    ensures Downwards(SHARED, 10, (h: Hash) => if h < 14 then 14 - h else 0)
  {
    hide Refers;
    forall p, c | Reached(SHARED, 10, p) && Refers(SHARED, p, c)
      ensures 10 <= p.hash < c.hash <= 14
    {
      var path: seq<Ref> :| Leads(SHARED, path, 10) && path[|path| - 1] == p;
      SharedReached(path);
      SharedRefers(p, c);
    }
  }

  lemma {:induction false} SharedLeads()
    ensures Leads(SHARED, [Ref(10, State), Ref(11, State), Ref(13, Raw)], 10)
    ensures Leads(SHARED, [Ref(10, State), Ref(12, State), Ref(13, Storage), Ref(14, Storage)], 10)
    ensures Clean(SHARED, [Ref(10, State), Ref(11, State), Ref(13, Raw)])
  {
    hide Refers;
    forall p, c | p in EVERYTHING
      ensures Refers(SHARED, p, c) <==> Below(p, c)
    {
      SharedRefers(p, c);
    }
  }

  lemma {:induction false} SharedOnlyThrough()
    ensures OnlyThrough(SHARED, 10, Ref(13, Raw), 14)
  {
    hide Refers;
    forall path: seq<Ref> | Leads(SHARED, path, 10) && path[|path| - 1].hash == 14
      ensures exists i :: 0 <= i < |path| && path[i].hash == 13 && path[i].role != Raw
    {
      SharedReached(path);
      assert path[|path| - 2] == Ref(13, Storage);
    }
  }

  /** Answered root, first account, and then the rest, the download ends without the child of the storage root. */
  method SubtreeIsLost() returns (s: Sync)
    ensures s.w == SHARED && Done(SHARED, 10, map[], s.Now()) && 10 in s.database
    ensures Leads(SHARED, [Ref(10, State), Ref(12, State), Ref(13, Storage), Ref(14, Storage)], 10) && 14 !in s.database
  {
    hide Sound, Downwards, Clean, OnlyThrough, Leads, Done;
    SharedIsSound();
    SharedGoesDown();
    SharedLeads();
    SharedOnlyThrough();
    s := LoseSubtree(SHARED, 10, [Ref(10, State), Ref(11, State), Ref(13, Raw)], 14, ALL, (h: Hash) =>
      if h < 14 then 14 - h else 0);
  }
}
