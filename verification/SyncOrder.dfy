/** Which order of answers loses what. A download into an empty database takes the roles that a plain walk takes which
    visits hashes in the order they are answered in, so an entry can be lost exactly if some such walk leaves it out. */
module SyncOrder {
  import opened TrieSync
  import opened SyncRoles
  import opened SyncLoss

  // ---- walking without a scheduler ----

  /** Visiting p takes all it refers to that was not taken before, each in the first role p refers to it in. */
  ghost predicate Visited(w: World, p: Ref, roles: Roles, roles': Roles) {
    AskedBy(w, p, roles, roles') && forall c :: Needs(w, p, c) ==> c in roles'
  }

  lemma {:induction false} FirstIsNeeded(w: World, p: Ref, c: Hash, r: Role)
    requires RefersFirst(w, p, Ref(c, r))
    ensures Needs(w, p, c)
  {
    hide Refers;
  }

  lemma {:induction false} FirstIsUnique(w: World, p: Ref, c: Hash, r: Role, r': Role)
    requires RefersFirst(w, p, Ref(c, r)) && RefersFirst(w, p, Ref(c, r'))
    ensures r == r'
  {
    hide Refers;
    assert Refers(w, p, Ref(c, r)) && Refers(w, p, Ref(c, r'));
  }

  /** What a visit takes is determined. */
  lemma {:induction false} VisitIsUnique(w: World, p: Ref, roles: Roles, a: Roles, b: Roles)
    requires Visited(w, p, roles, a) && Visited(w, p, roles, b)
    ensures a == b
  {
    hide RefersFirst, Needs;
    forall c
      ensures c in a <==> c in b
      ensures c in a && c in b ==> a[c] == b[c]
    {
      if c !in roles && c in a {
        FirstIsNeeded(w, p, c, a[c]);
      }
      if c !in roles && c in b {
        FirstIsNeeded(w, p, c, b[c]);
      }
      if c !in roles && c in a && c in b {
        FirstIsUnique(w, p, c, a[c], b[c]);
      }
    }
  }

  /** A walk from the root: each hash is visited once, after it was taken, in the role it was taken in. */
  ghost predicate Walks(w: World, root: Hash, order: seq<Hash>, steps: seq<Roles>) {
    && |steps| == |order| + 1 && steps[0] == map[root := State]
    && (forall i, j :: 0 <= i < j < |order| ==> order[i] != order[j])
    && forall i :: 0 <= i < |order| ==>
         order[i] in steps[i] && Visited(w, Ref(order[i], steps[i][order[i]]), steps[i], steps[i + 1])
  }

  /** Whatever was taken has been visited. */
  ghost predicate Exhausted(order: seq<Hash>, steps: seq<Roles>)
    requires |steps| == |order| + 1
  {
    forall h :: h in steps[|order|] ==> h in order
  }

  // ---- every download is a walk ----

  ghost function HeldIn(m: Mem): set<Hash> {
    KnownTo(m) + Answered(m.requests)
  }

  /** An answer that was accepted. */
  ghost predicate Took(w: World, m: Mem, h: Hash, m': Mem) {
    && h in m.roles && h !in HeldIn(m) && HeldIn(m') == HeldIn(m) + {h}
    && Visited(w, Ref(h, m.roles[h]), m.roles, m'.roles)
  }

  /** What changes neither what is held nor the roles. */
  ghost predicate Idles(m: Mem, m': Mem) {
    m'.roles == m.roles && HeldIn(m') == HeldIn(m)
  }

  /** A download into an empty database, by its accepted answers. Between two of them anything may happen that changes
      neither what is held nor the roles. */
  ghost predicate History(w: World, root: Hash, ms: seq<Mem>, hs: seq<Hash>) {
    && |ms| == |hs| + 1 && ms[0].roles == map[root := State] && HeldIn(ms[0]) == {}
    && forall i :: 0 <= i < |hs| ==> Took(w, ms[i], hs[i], ms[i + 1])
  }

  /** Whenever data is handed in, an accepted item is a step of the walk and a refused one changes nothing. This holds
      at any time, also once part of the download has been written. */
  method Answer(s: Sync, h: Hash) returns (outcome: Outcome)
    requires s.Valid() && forall x :: Reached(s.w, s.root, x) ==> !Fails(s.w, x)
    requires s.start == map[]
    modifies s`requests, s`queue, s`roles, s`batch, s`order
    ensures s.Valid()
    ensures if outcome == Accepted then Took(s.w, old(s.Now()), h, s.Now()) else Idles(old(s.Now()), s.Now())
  {
    hide Inv, Grounded, Reached, Refers, Fails, Needs, RefersFirst;
    if h in s.requests {
      InvPending(s.w, s.start, s.Now(), multiset{}, {}, h);
      if h !in s.Known() {
        UnknownIsReached(s, h);
        assert Own(s.requests, h) == Ref(h, s.roles[h]);
      }
    }
    var committed;
    outcome, committed := s.ProcessItem(h, s.w.content(h));
  }

  lemma {:induction false} UnknownIsReached(s: Sync, h: Hash)
    requires s.Valid() && s.start == map[] && h in s.requests && h !in s.Known()
    ensures h in s.roles && s.roles[h] == RoleOf(s.requests[h]) && Reached(s.w, s.root, Ref(h, s.roles[h]))
  {
    hide Reached, StoreInv, ReqInv, Sane, Grounded;
    InvPending(s.w, s.start, s.Now(), multiset{}, {}, h);
    PendingIsReached(s.w, s.root, s.start, s.Now(), h);
  }

  /** Writing changes neither what is held nor the roles. */
  method Write(s: Sync, failAt: nat) returns (written: nat, ok: bool)
    requires s.Valid()
    modifies s`database, s`batch, s`order
    ensures s.Valid() && Idles(old(s.Now()), s.Now())
  {
    hide Inv, Grounded, Closed;
    written, ok := s.Flush(failAt);
  }

  function RolesOf(ms: seq<Mem>): seq<Roles> {
    seq(|ms|, i requires 0 <= i < |ms| => ms[i].roles)
  }

  lemma {:induction false} HeldByThen(w: World, root: Hash, ms: seq<Mem>, hs: seq<Hash>, i: nat, h: Hash)
    requires History(w, root, ms, hs) && i <= |hs|
    ensures h in HeldIn(ms[i]) <==> h in hs[..i]
  {
    hide HeldIn, Visited;
    if i > 0 {
      HeldByThen(w, root, ms, hs, i - 1, h);
      assert Took(w, ms[i - 1], hs[i - 1], ms[i - 1 + 1]);
      assert hs[..i] == hs[..i - 1] + [hs[i - 1]];
    }
  }

  /** Every download into an empty database is a walk in the order of its answers. At its end all that was taken has
      been visited, and the database holds just that. */
  lemma {:induction false} DownloadIsWalk(w: World, root: Hash, ms: seq<Mem>, hs: seq<Hash>)
    requires History(w, root, ms, hs) && Done(w, root, map[], ms[|hs|])
    ensures Walks(w, root, hs, RolesOf(ms)) && Exhausted(hs, RolesOf(ms))
    ensures forall c :: c in ms[|hs|].database <==> c in RolesOf(ms)[|hs|]
  {
    hide Visited, Inv, HeldIn, Closed, Grounded;
    forall i, j | 0 <= i < j < |hs|
      ensures hs[i] != hs[j]
    {
      HeldByThen(w, root, ms, hs, j, hs[j]);
      assert Took(w, ms[j], hs[j], ms[j + 1]) && hs[i] in hs[..j];
    }
    forall i | 0 <= i < |hs|
      ensures hs[i] in RolesOf(ms)[i]
              && Visited(w, Ref(hs[i], RolesOf(ms)[i][hs[i]]), RolesOf(ms)[i], RolesOf(ms)[i + 1])
    {
      assert Took(w, ms[i], hs[i], ms[i + 1]);
    }
    DoneIsClosed(w, root, map[], ms[|hs|]);
    forall h | h in RolesOf(ms)[|hs|]
      ensures h in hs
    {
      HeldByThen(w, root, ms, hs, |hs|, h);
      StoredIsHeld(ms[|hs|], h);
      assert hs[..|hs|] == hs;
    }
  }

  lemma {:induction false} StoredIsHeld(m: Mem, h: Hash)
    requires h in m.database
    ensures h in HeldIn(m)
  {
  }

  // ---- every walk is a download ----

  /** Answers hashes in the order of a walk, which takes the walk's roles and ends the download. */
  method FollowWalk(w: World, root: Hash, order: seq<Hash>, ghost steps: seq<Roles>, ghost all: set<Hash>,
                    ghost rank: Hash -> nat)
    returns (s: Sync)
    requires Sound(w, root, all) && Downwards(w, root, rank) && root != NO_PARENT && root != EMPTY_ROOT
    requires Walks(w, root, order, steps) && Exhausted(order, steps)
    ensures fresh(s) && s.w == w && s.root == root && s.start == map[] && Done(w, root, map[], s.Now())
    ensures s.roles == steps[|order|]
  {
    hide Inv, Grounded, Refers, Downwards, Closed, Done, Reached, Fails, Decodes, Visited, Sane, Sync.Held;
    NothingIsClosed(w);
    s := new Sync(root, map[], map[], w);
    RolesAtStart(s);
    var i := 0;
    while i < |order|
      invariant 0 <= i <= |order| && fresh(s) && s.w == w && s.root == root && Unwritten(s) && s.roles == steps[i]
      invariant root in s.roles
      invariant forall h :: h in s.Held() <==> h in order[..i]
    {
      assert order[i] !in order[..i] && Visited(w, Ref(order[i], steps[i][order[i]]), steps[i], steps[i + 1]);
      Visit(s, order[i], steps[i + 1], all);
      assert order[..i + 1] == order[..i] + [order[i]];
      i := i + 1;
    }
    assert order[..i] == order;
    AllAnswered(s, order, steps);
    NoneIsOpen(s, all, rank);
    WriteAll(s);
  }

  /** Answers a hash that has been asked for, which takes what a visit takes. */
  method Visit(s: Sync, h: Hash, ghost next: Roles, ghost all: set<Hash>)
    requires Unwritten(s) && Sound(s.w, s.root, all) && h in s.roles && h !in s.Held()
    requires Visited(s.w, Ref(h, s.roles[h]), s.roles, next)
    modifies s`requests, s`queue, s`roles, s`batch, s`order
    ensures Unwritten(s) && s.Held() == old(s.Held()) + {h} && s.roles == next && Extends(old(s.roles), s.roles)
  {
    hide Unwritten, Visited, Sound, Needs, RefersFirst, Sync.Held;
    OpenIsRequested(s, h);
    AnswerOne(s, h, all);
    SameVisit(s.w, h, old(s.roles), s.roles, next);
  }

  lemma {:induction false} SameVisit(w: World, h: Hash, roles: Roles, a: Roles, b: Roles)
    requires h in roles && AskedBy(w, Ref(h, roles[h]), roles, a)
    requires (forall c :: Needs(w, Ref(h, roles[h]), c) ==> c in a) && Visited(w, Ref(h, roles[h]), roles, b)
    ensures a == b
  {
    VisitIsUnique(w, Ref(h, roles[h]), roles, a, b);
  }

  lemma {:induction false} AllAnswered(s: Sync, order: seq<Hash>, steps: seq<Roles>)
    requires Unwritten(s) && |steps| == |order| + 1 && s.roles == steps[|order|] && Exhausted(order, steps)
    requires forall h :: h in s.Held() <==> h in order
    ensures forall h :: h in s.requests ==> s.requests[h].data.Some?
  {
    hide Inv, Grounded, Reached;
    forall h | h in s.requests
      ensures s.requests[h].data.Some?
    {
      OpenIsUnknown(s, h);
      assert h in order && h in s.Held();
    }
  }

  /** So an entry can be lost exactly if some walk leaves it out. One way: the walk is followed. */
  method LoseByWalk(w: World, root: Hash, order: seq<Hash>, ghost steps: seq<Roles>, ghost all: set<Hash>,
                    ghost rank: Hash -> nat, ghost c: Hash)
    returns (s: Sync)
    requires Sound(w, root, all) && Downwards(w, root, rank) && root != NO_PARENT && root != EMPTY_ROOT
    requires Walks(w, root, order, steps) && Exhausted(order, steps) && c !in steps[|order|]
    ensures fresh(s) && s.w == w && s.root == root && s.start == map[] && Done(w, root, map[], s.Now())
    ensures root in s.database && c !in s.database
  {
    hide Walks, Exhausted, Inv, Grounded, Closed, Sound, Downwards;
    s := FollowWalk(w, root, order, steps, all, rank);
    DoneIsClosed(w, root, map[], s.Now());
  }

  /** The other way: whatever a download into an empty database has lost, the walk in its order leaves out. */
  lemma {:induction false} LostByWalk(w: World, root: Hash, ms: seq<Mem>, hs: seq<Hash>, c: Hash)
    requires History(w, root, ms, hs) && Done(w, root, map[], ms[|hs|]) && c !in ms[|hs|].database
    ensures exists steps :: Walks(w, root, hs, steps) && Exhausted(hs, steps) && c !in steps[|hs|]
  {
    hide Exhausted, Done, Visited;
    DownloadIsWalk(w, root, ms, hs);
    var steps := RolesOf(ms);
    assert Walks(w, root, hs, steps) && Exhausted(hs, steps) && c !in steps[|hs|];
  }
}
