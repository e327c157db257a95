/** When a state download is whole. The scheduler takes every hash in the role it is first asked for in, so what it
    downloads is what those roles lead to; a hash wanted both as code and as a trie node can lose its subtree. */
module SyncRoles {
  import opened Bytes
  import opened TrieSync

  // ---- what a root leads to ----

  ghost predicate Reached(w: World, root: Hash, x: Ref) {
    exists path: seq<Ref> :: Leads(w, path, root) && path[|path| - 1] == x
  }

  lemma {:induction false} ReachedNext(w: World, root: Hash, p: Ref, c: Ref)
    requires Reached(w, root, p) && Refers(w, p, c)
    ensures Reached(w, root, c)
  {
    hide Refers;
    var path: seq<Ref> :| Leads(w, path, root) && path[|path| - 1] == p;
    var path' := path + [c];
    assert Leads(w, path', root) && path'[|path'| - 1] == c;
  }

  lemma {:induction false} RootIsReached(w: World, root: Hash)
    ensures Reached(w, root, Ref(root, State))
  {
    var path := [Ref(root, State)];
    assert Leads(w, path, root) && path[|path| - 1] == Ref(root, State);
  }

  lemma {:induction false} PathIsReached(w: World, root: Hash, path: seq<Ref>, i: nat)
    requires Leads(w, path, root) && i < |path|
    ensures Reached(w, root, path[i])
  {
    hide Refers;
    var front := path[..i + 1];
    assert Leads(w, front, root) && front[|front| - 1] == path[i];
  }

  lemma {:induction false} GroundsIsReached(w: World, root: Hash, roles: Roles, h: Hash)
    requires Grounds(w, root, roles, h)
    ensures h in roles && Reached(w, root, Ref(h, roles[h]))
  {
    hide Refers;
    var path: seq<Ref> :| Leads(w, path, root) && Along(roles, path) && path[|path| - 1].hash == h;
    assert path[|path| - 1] == Ref(h, roles[h]);
  }

  // ---- what the roles taken lead to ----

  /** The path follows needs down from the root, each entry in its one role. */
  ghost predicate Follows(w: World, role: Hash -> Role, path: seq<Hash>, root: Hash) {
    && |path| > 0 && path[0] == root
    && forall i :: 0 <= i < |path| - 1 ==> Needs(w, Ref(path[i], role(path[i])), path[i + 1])
  }

  ghost predicate LedBy(w: World, role: Hash -> Role, root: Hash, c: Hash) {
    exists path: seq<Hash> :: Follows(w, role, path, root) && path[|path| - 1] == c
  }

  /** The roles taken; what was not taken needs nothing. */
  function RoleIn(roles: Roles): Hash -> Role {
    h => if h in roles then roles[h] else Raw
  }

  /** A download at its end: nothing is pending and all is written. */
  ghost predicate Done(w: World, root: Hash, start: Roles, m: Mem) {
    && Inv(w, start, m, multiset{}, {}) && Grounded(w, root, start, m.roles)
    && m.requests == map[] && m.order == [] && root in m.roles
  }

  lemma {:induction false} DoneIsClosed(w: World, root: Hash, start: Roles, m: Mem)
    requires Done(w, root, start, m)
    ensures Closed(w, m.database, m.roles) && m.database.Keys == m.roles.Keys && root in m.database
  {
    hide Sane, ReqInv, Closed;
  }

  lemma {:induction false} StoredNeeds(w: World, db: map<Hash, Bytes>, roles: Roles, p: Hash, c: Hash)
    requires Closed(w, db, roles) && p in db && p in roles && Needs(w, Ref(p, roles[p]), c)
    ensures c in db
  {
    hide Needs, Readable;
  }

  /** A closed database holds all its roles lead to. */
  lemma {:induction false} WholeTrie(w: World, db: map<Hash, Bytes>, roles: Roles, role: Hash -> Role, root: Hash,
                                     path: seq<Hash>)
    requires Closed(w, db, roles) && root in db && Follows(w, role, path, root)
    requires forall h :: h in db ==> h in roles && role(h) == roles[h]
    ensures path[|path| - 1] in db
    decreases |path|
  {
    hide Needs, Closed;
    if |path| > 1 {
      var front := path[..|path| - 1];
      WholeTrie(w, db, roles, role, root, front);
      var p, c := front[|front| - 1], path[|path| - 1];
      assert p == path[|path| - 2] && Needs(w, Ref(p, role(p)), c);
      StoredNeeds(w, db, roles, p, c);
    }
  }

  lemma {:induction false} AlongIsLed(w: World, root: Hash, roles: Roles, h: Hash)
    requires Grounds(w, root, roles, h)
    ensures LedBy(w, RoleIn(roles), root, h)
  {
    hide Refers;
    var path: seq<Ref> :| Leads(w, path, root) && Along(roles, path) && path[|path| - 1].hash == h;
    var hashes := seq(|path|, i requires 0 <= i < |path| => path[i].hash);
    forall i | 0 <= i < |hashes| - 1
      ensures Needs(w, Ref(hashes[i], RoleIn(roles)(hashes[i])), hashes[i + 1])
    {
      assert Refers(w, path[i], path[i + 1]) && path[i + 1] == Ref(hashes[i + 1], path[i + 1].role);
      assert path[i] == Ref(hashes[i], RoleIn(roles)(hashes[i]));
    }
    assert Follows(w, RoleIn(roles), hashes, root) && hashes[|hashes| - 1] == h;
  }

  /** However a download went, it ends with what was there and exactly what the roles it took lead to. */
  lemma {:induction false} DownloadedExactly(w: World, root: Hash, start: Roles, m: Mem, c: Hash)
    requires Done(w, root, start, m)
    ensures c in m.database <==> c in start || LedBy(w, RoleIn(m.roles), root, c)
  {
    hide Inv, Needs, Closed, Grounds;
    DoneIsClosed(w, root, start, m);
    if LedBy(w, RoleIn(m.roles), root, c) {
      var path: seq<Hash> :| Follows(w, RoleIn(m.roles), path, root) && path[|path| - 1] == c;
      WholeTrie(w, m.database, m.roles, RoleIn(m.roles), root, path);
    }
    if c in m.database && c !in start {
      AlongIsLed(w, root, m.roles, c);
    }
    StartIsStored(w, start, m);
  }

  lemma {:induction false} StartIsStored(w: World, start: Roles, m: Mem)
    requires Inv(w, start, m, multiset{}, {})
    ensures start.Keys <= m.database.Keys
  {
    hide Sane, ReqInv, StoreInv;
  }

  // ---- a condition that is easy to check ----

  /** Whatever role an entry may be taken in, it needs the same. */
  ghost predicate Clear(w: World, root: Hash, start: Roles) {
    forall h, r, r' :: Reached(w, root, Ref(h, r)) && MayBeTaken(w, root, start, h, r') ==> SameNeeds(w, h, r, r')
  }

  /** A role the root leads to, or the one found at the start. */
  ghost predicate MayBeTaken(w: World, root: Hash, start: Roles, h: Hash, r: Role) {
    Reached(w, root, Ref(h, r)) || (h in start && start[h] == r)
  }

  ghost predicate SameNeeds(w: World, h: Hash, r: Role, r': Role) {
    forall c :: Needs(w, Ref(h, r), c) <==> Needs(w, Ref(h, r'), c)
  }

  lemma {:induction false} TakenIsReached(w: World, root: Hash, start: Roles, m: Mem, h: Hash)
    requires Grounded(w, root, start, m.roles) && h in m.roles
    ensures MayBeTaken(w, root, start, h, m.roles[h])
  {
    hide Grounds, Reached;
    if h !in start {
      GroundsIsReached(w, root, m.roles, h);
    }
  }

  /** Then a download ends with all the root leads to: the account trie, the storage tries and the code. */
  lemma {:induction false} Finished(w: World, root: Hash, start: Roles, m: Mem, path: seq<Ref>)
    requires Done(w, root, start, m) && Clear(w, root, start) && Leads(w, path, root)
    ensures var h := path[|path| - 1].hash; h in m.database && m.database[h] == w.content(h)
    decreases |path|
  {
    hide Inv, Grounded, Refers, Reached, Closed;
    DoneIsClosed(w, root, start, m);
    if |path| > 1 {
      var front := path[..|path| - 1];
      Finished(w, root, start, m, front);
      var p, c := front[|front| - 1], path[|path| - 1];
      assert p == path[|path| - 2] && Refers(w, p, Ref(c.hash, c.role));
      PathIsReached(w, root, path, |path| - 2);
      TakenIsReached(w, root, start, m, p.hash);
      assert SameNeeds(w, p.hash, p.role, m.roles[p.hash]);
      assert Needs(w, Ref(p.hash, p.role), c.hash);
      StoredNeeds(w, m.database, m.roles, p.hash, c.hash);
    }
    StoredIsContent(w, m.database, m.roles, path[|path| - 1].hash);
  }

  lemma {:induction false} StoredIsContent(w: World, db: map<Hash, Bytes>, roles: Roles, h: Hash)
    requires Closed(w, db, roles) && h in db
    ensures db[h] == w.content(h)
  {
    hide Complete, Readable;
  }

  // ---- the exact condition ----

  /** A choice of one role for each hash, among those it is reached in or was stored in. */
  ghost predicate Admissible(w: World, root: Hash, start: Roles, role: Hash -> Role) {
    forall h :: ReachedSomehow(w, root, h) ==> MayBeTaken(w, root, start, h, role(h))
  }

  ghost predicate ReachedSomehow(w: World, root: Hash, h: Hash) {
    exists r :: Reached(w, root, Ref(h, r))
  }

  /** Whichever of its roles each hash is taken in, c is led to. */
  ghost predicate Sure(w: World, root: Hash, start: Roles, c: Hash) {
    forall role: Hash -> Role :: Admissible(w, root, start, role) ==> LedBy(w, role, root, c)
  }

  /** The roles taken, and any reached role for what was not taken. */
  ghost function Completed(w: World, root: Hash, roles: Roles): Hash -> Role {
    (h: Hash) => if h in roles then roles[h] else SomeRole(w, root, h)
  }

  ghost function SomeRole(w: World, root: Hash, h: Hash): Role {
    if Reached(w, root, Ref(h, State)) then State else if Reached(w, root, Ref(h, Storage)) then Storage else Raw
  }

  lemma {:induction false} CompletedIsAdmissible(w: World, root: Hash, start: Roles, m: Mem)
    requires Grounded(w, root, start, m.roles)
    ensures Admissible(w, root, start, Completed(w, root, m.roles))
  {
    hide Reached, Grounded;
    var role := Completed(w, root, m.roles);
    forall h | ReachedSomehow(w, root, h)
      ensures MayBeTaken(w, root, start, h, role(h))
    {
      if h in m.roles {
        TakenIsReached(w, root, start, m, h);
      } else {
        var r :| Reached(w, root, Ref(h, r));
        assert r == State || r == Storage || r == Raw;
      }
    }
  }

  /** What is sure to be led to is there when a download ends. */
  lemma {:induction false} SureIsThere(w: World, root: Hash, start: Roles, m: Mem, c: Hash)
    requires Done(w, root, start, m) && Sure(w, root, start, c)
    ensures c in m.database
  {
    hide Inv, Needs, Closed, Grounded, Admissible;
    DoneIsClosed(w, root, start, m);
    var role := Completed(w, root, m.roles);
    CompletedIsAdmissible(w, root, start, m);
    assert LedBy(w, role, root, c);
    var path: seq<Hash> :| Follows(w, role, path, root) && path[|path| - 1] == c;
    WholeTrie(w, m.database, m.roles, role, root, path);
  }

  /** The trie is finite, its nodes decode and hold accounts that do. */
  ghost predicate Sound(w: World, root: Hash, all: set<Hash>) {
    Sane(w) && forall x :: Reached(w, root, x) ==> x.hash in all && Readable(w, x) && !Fails(w, x)
  }

  /** All that a choice of roles leads to. */
  ghost function Chosen(w: World, root: Hash, all: set<Hash>, role: Hash -> Role): Roles {
    map h | h in all && LedBy(w, role, root, h) :: role(h)
  }

  lemma {:induction false} LedIsReached(w: World, root: Hash, role: Hash -> Role, path: seq<Hash>)
    requires Admissible(w, root, map[], role) && Follows(w, role, path, root)
    ensures var h := path[|path| - 1]; Reached(w, root, Ref(h, role(h))) && LedBy(w, role, root, h)
    decreases |path|
  {
    hide Refers, Reached;
    RootIsReached(w, root);
    if |path| > 1 {
      var front := path[..|path| - 1];
      LedIsReached(w, root, role, front);
      var p, c := front[|front| - 1], path[|path| - 1];
      assert p == path[|path| - 2] && Needs(w, Ref(p, role(p)), c);
      var r :| Refers(w, Ref(p, role(p)), Ref(c, r));
      ReachedNext(w, root, Ref(p, role(p)), Ref(c, r));
      assert ReachedSomehow(w, root, c);
    }
    assert ReachedSomehow(w, root, root);
  }

  lemma {:induction false} LedNext(w: World, root: Hash, role: Hash -> Role, p: Hash, c: Hash)
    requires LedBy(w, role, root, p) && Needs(w, Ref(p, role(p)), c)
    ensures LedBy(w, role, root, c)
  {
    hide Needs;
    var path: seq<Hash> :| Follows(w, role, path, root) && path[|path| - 1] == p;
    var path' := path + [c];
    assert Follows(w, role, path', root) && path'[|path'| - 1] == c;
  }

  /** All that a choice of roles leads to makes a closed database. */
  lemma {:induction false} ChosenIsClosed(w: World, root: Hash, all: set<Hash>, role: Hash -> Role)
    requires Sound(w, root, all) && Admissible(w, root, map[], role)
    ensures var start := Chosen(w, root, all, role);
            && Closed(w, map h | h in start :: w.content(h), start)
            && forall h :: h in start ==> Reached(w, root, Ref(h, start[h]))
    ensures forall h :: LedBy(w, role, root, h) ==> h in all
  {
    hide Needs, Reached, Fails, Admissible, Sane;
    var start := Chosen(w, root, all, role);
    forall h | LedBy(w, role, root, h)
      ensures h in all && Reached(w, root, Ref(h, role(h)))
    {
      var path: seq<Hash> :| Follows(w, role, path, root) && path[|path| - 1] == h;
      LedIsReached(w, root, role, path);
    }
    forall h, c | h in start && Needs(w, Ref(h, start[h]), c)
      ensures c in start
    {
      LedNext(w, root, role, h, c);
    }
  }

  /** A database that earlier downloads of the same root may have left, from which a download is done before it
      starts, without c. */
  ghost predicate LeftWithout(w: World, root: Hash, db: map<Hash, Bytes>, start: Roles, c: Hash) {
    && Closed(w, db, start) && start.Keys == db.Keys && (forall h :: h in start ==> Reached(w, root, Ref(h, start[h])))
    && Done(w, root, start, Mem(db, map[], [], map[], multiset{}, {}, start)) && c !in db
  }

  lemma {:induction false} UnsureCanBeLeft(w: World, root: Hash, all: set<Hash>, role: Hash -> Role, c: Hash)
    requires Sound(w, root, all) && Admissible(w, root, map[], role) && !LedBy(w, role, root, c)
    ensures exists db, start :: LeftWithout(w, root, db, start, c)
  {
    hide Needs, Reached, Fails, Admissible, Sane, Closed, Inv;
    ChosenIsClosed(w, root, all, role);
    var start := Chosen(w, root, all, role);
    var db := map h | h in start :: w.content(h);
    assert Follows(w, role, [root], root) && [root][|[root]| - 1] == root;
    InvStart(w, start, db);
    RootIsGrounded(w, root, start, start);
    assert start.Keys == db.Keys;
    assert LeftWithout(w, root, db, start, c);
  }

  /** An entry is there at the end of every download, whatever of the trie was there before, exactly if it is led to
      whichever of its roles each hash is taken in. */
  lemma {:induction false} SureExactly(w: World, root: Hash, all: set<Hash>, c: Hash)
    requires Sound(w, root, all)
    ensures Sure(w, root, map[], c) <==>
            forall start, m :: Done(w, root, start, m) && StartsReached(w, root, start) ==> c in m.database
  {
    hide Inv, Reached, LedBy, Grounded, Sane, Fails, Closed;
    if Sure(w, root, map[], c) {
      forall start, m | Done(w, root, start, m) && StartsReached(w, root, start)
        ensures c in m.database
      {
        SureAnyway(w, root, start, c);
        SureIsThere(w, root, start, m, c);
      }
    } else {
      var role: Hash -> Role :| Admissible(w, root, map[], role) && !LedBy(w, role, root, c);
      UnsureCanBeLeft(w, root, all, role, c);
      var db, start :| LeftWithout(w, root, db, start, c);
      var m := Mem(db, map[], [], map[], multiset{}, {}, start);
      assert Done(w, root, start, m) && StartsReached(w, root, start) && c !in m.database;
    }
  }

  ghost predicate StartsReached(w: World, root: Hash, start: Roles) {
    forall h :: h in start ==> Reached(w, root, Ref(h, start[h]))
  }

  lemma {:induction false} SureAnyway(w: World, root: Hash, start: Roles, c: Hash)
    requires Sure(w, root, map[], c) && StartsReached(w, root, start)
    ensures Sure(w, root, start, c)
  {
    hide Reached, LedBy;
    forall role: Hash -> Role | Admissible(w, root, start, role)
      ensures LedBy(w, role, root, c)
    {
      assert forall h :: MayBeTaken(w, root, start, h, role(h)) ==> MayBeTaken(w, root, map[], h, role(h));
    }
  }

  /** Where roles make no difference everything is sure. */
  lemma {:induction false} ClearIsSure(w: World, root: Hash, start: Roles, path: seq<Ref>)
    requires Clear(w, root, start) && Leads(w, path, root)
    ensures Sure(w, root, start, path[|path| - 1].hash)
  {
    hide Reached, Refers;
    forall role: Hash -> Role | Admissible(w, root, start, role)
      ensures LedBy(w, role, root, path[|path| - 1].hash)
    {
      ClearIsLed(w, root, start, role, path);
    }
  }

  lemma {:induction false} ClearIsLed(w: World, root: Hash, start: Roles, role: Hash -> Role, path: seq<Ref>)
    requires Clear(w, root, start) && Admissible(w, root, start, role) && Leads(w, path, root)
    ensures LedBy(w, role, root, path[|path| - 1].hash)
    decreases |path|
  {
    hide Reached, Refers;
    if |path| == 1 {
      assert Follows(w, role, [root], root) && [root][|[root]| - 1] == root;
    } else {
      var front := path[..|path| - 1];
      ClearIsLed(w, root, start, role, front);
      var p, c := front[|front| - 1], path[|path| - 1];
      assert p == path[|path| - 2] && Refers(w, p, Ref(c.hash, c.role));
      PathIsReached(w, root, path, |path| - 2);
      assert Reached(w, root, Ref(p.hash, p.role)) && ReachedSomehow(w, root, p.hash);
      assert SameNeeds(w, p.hash, p.role, role(p.hash));
      assert Needs(w, Ref(p.hash, p.role), c.hash);
      LedNext(w, root, role, p.hash, c.hash);
    }
  }
}
