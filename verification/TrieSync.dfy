/** Downloading a state trie: what has been asked for, what waits for what, and in which order
    nodes may be written. */
module TrieSync {
  import opened Bytes
  import opened MapSum

  /** Hashes are opaque names; zero means no parent. */
  type Hash = nat

  const NO_PARENT: Hash := 0
  const EMPTY_ROOT: Hash := 1
  const EMPTY_STATE: Hash := 2

  /** How an entry is asked for: as a node of the account trie, as a node of a storage trie, or as raw data. The
      same hash may be wanted in several roles. */
  datatype Role = State | Storage | Raw

  datatype Ref = Ref(hash: Hash, role: Role)

  /** A child of a decoded node. An embedded child is too small to hold a hash of its own. */
  datatype Child = HashChild(hash: Hash, down: nat) | ValueChild(value: Bytes) | Embedded

  datatype Account = Account(root: Hash, code: Hash)

  /** The node and account decoders, and the data every hash names. */
  datatype World = World(content: Hash -> Bytes, decode: Bytes -> Option<seq<Child>>, account: Bytes -> Option<Account>)

  // ---- what an entry leads to ----

  function Children(w: World, h: Hash): seq<Child> {
    match w.decode(w.content(h))
    case None => []
    case Some(children) => children
  }

  function LeafRefs(w: World, value: Bytes): set<Ref> {
    match w.account(value)
    case None => {}
    case Some(a) =>
      (if a.root == EMPTY_ROOT then {} else {Ref(a.root, Storage)})
        + (if a.code == EMPTY_STATE then {} else {Ref(a.code, Raw)})
  }

  function ChildRefs(w: World, role: Role, child: Child): set<Ref> {
    match child
    case HashChild(h, _) => {Ref(h, role)}
    case ValueChild(v) => if role == State then LeafRefs(w, v) else {}
    case Embedded => {}
  }

  /** A trie node refers to its child nodes; in the account trie, also to storage tries and code. */
  ghost predicate Refers(w: World, p: Ref, c: Ref) {
    p.role != Raw && exists i :: 0 <= i < |Children(w, p.hash)| && c in ChildRefs(w, p.role, Children(w, p.hash)[i])
  }

  /** An entry needs what it refers to, in whatever role. */
  ghost predicate Needs(w: World, p: Ref, c: Hash) {
    exists r :: Refers(w, p, Ref(c, r))
  }

  predicate BadLeaf(w: World, child: Child) {
    child.ValueChild? && w.account(child.value).None?
  }

  /** Processing the node ends in an error because its account does not decode. */
  ghost predicate Fails(w: World, p: Ref) {
    p.role == State && exists i :: 0 <= i < |Children(w, p.hash)| && BadLeaf(w, Children(w, p.hash)[i])
  }

  predicate Decodes(w: World, h: Hash) {
    w.decode(w.content(h)).Some?
  }

  predicate Readable(w: World, p: Ref) {
    p.role == Raw || Decodes(w, p.hash)
  }

  /** A node has at most one value, and nothing refers to the zero hash. */
  ghost predicate Sane(w: World) {
    && (forall h, i, j :: 0 <= i < j < |Children(w, h)| && Children(w, h)[i].ValueChild? ==>
      !Children(w, h)[j].ValueChild?)
    && (forall p, c :: Refers(w, p, c) ==> c.hash != NO_PARENT)
  }

  // ---- requests ----

  datatype Request = Request(data: Option<Bytes>, raw: bool, callback: bool, parents: seq<Hash>, depth: nat, deps: int)

  type Requests = map<Hash, Request>

  function RoleOf(q: Request): Role {
    if q.raw then Raw else if q.callback then State else Storage
  }

  /** What a pending request is for. */
  function Own(reqs: Requests, h: Hash): Ref
    requires h in reqs
  {
    Ref(h, RoleOf(reqs[h]))
  }

  ghost function Links(reqs: Requests, p: Hash): map<Hash, int> {
    map r | r in reqs :: multiset(reqs[r].parents)[p]
  }

  /** How often p is listed as somebody's parent. */
  ghost function Waiting(reqs: Requests, p: Hash): int {
    Sum(Links(reqs, p))
  }

  lemma {:induction false} WaitingAfter(reqs: Requests, r: Hash, q: Request, p: Hash)
    ensures Waiting(reqs[r := q], p) ==
            Waiting(reqs, p) + multiset(q.parents)[p] - if r in reqs then multiset(reqs[r].parents)[p] else 0
  {
    assert Links(reqs[r := q], p) == Links(reqs, p)[r := multiset(q.parents)[p]];
    SumUpdate(Links(reqs, p), r, multiset(q.parents)[p]);
  }

  lemma {:induction false} WaitingWithout(reqs: Requests, r: Hash, p: Hash)
    requires r in reqs
    ensures Waiting(reqs - {r}, p) == Waiting(reqs, p) - multiset(reqs[r].parents)[p]
  {
    assert Links(reqs - {r}, p) == Links(reqs, p) - {r};
    SumRemove(Links(reqs, p), r);
  }

  lemma {:induction false} WaitingIsCount(reqs: Requests, p: Hash)
    ensures Waiting(reqs, p) >= 0
    ensures forall r :: r in reqs && p in reqs[r].parents ==> Waiting(reqs, p) > 0
  {
    SumAtLeast(Links(reqs, p));
    forall r | r in reqs && p in reqs[r].parents
      ensures Waiting(reqs, p) > 0
    {
      assert Links(reqs, p)[r] > 0;
    }
  }

  // ---- the invariant on requests ----

  /** Dependencies are counted exactly: once for each listing as a parent, and once for each
      notification still owed. Only a processed request is ever waited for. */
  ghost predicate Counted(w: World, reqs: Requests, owed: multiset<Hash>) {
    && (forall p :: p in reqs ==> reqs[p].deps == Waiting(reqs, p) + owed[p])
    && (forall p :: Waiting(reqs, p) + owed[p] > 0 ==> p in reqs && reqs[p].data.Some? && !Fails(w, Own(reqs, p)))
  }

  /** What is known may be asked for again only as a node it does not decode to. */
  predicate Askable(w: World, known: set<Hash>, h: Hash, raw: bool) {
    h != NO_PARENT && (h in known ==> !raw && !Decodes(w, h))
  }

  ghost predicate Fitting(w: World, reqs: Requests, known: set<Hash>) {
    forall r :: r in reqs ==>
      && Askable(w, known, r, reqs[r].raw) && !(reqs[r].raw && reqs[r].callback)
      && (reqs[r].data.Some? ==> !reqs[r].raw && reqs[r].data.value == w.content(r) && Decodes(w, r))
  }

  ghost predicate Settled(w: World, reqs: Requests, known: set<Hash>, p: Hash)
    requires p in reqs
  {
    reqs[p].deps > 0 && forall c :: Needs(w, Own(reqs, p), c) ==> Seen(reqs, known, p, c)
  }

  ghost predicate Seen(reqs: Requests, known: set<Hash>, h: Hash, c: Hash) {
    c in known || (c in reqs && h in reqs[c].parents)
  }

  /** A processed request waits, and for everything it needs that is not known. */
  ghost predicate Waits(w: World, reqs: Requests, known: set<Hash>, open: set<Hash>) {
    forall p :: p in reqs && p !in open && reqs[p].data.Some? && !Fails(w, Own(reqs, p)) ==> Settled(w, reqs, known, p)
  }

  /** Who is listed as a parent needs the entry. */
  ghost predicate Linked(w: World, reqs: Requests) {
    forall r, p :: r in reqs && p in reqs[r].parents && p in reqs ==> Needs(w, Own(reqs, p), r)
  }

  ghost predicate ReqInv(w: World, reqs: Requests, known: set<Hash>, owed: multiset<Hash>, open: set<Hash>) {
    Counted(w, reqs, owed) && Fitting(w, reqs, known) && Waits(w, reqs, known, open) && Linked(w, reqs)
  }

  lemma {:induction false} NothingPending(w: World, known: set<Hash>)
    ensures ReqInv(w, map[], known, multiset{}, {})
  {
    forall p
      ensures Waiting(map[], p) == 0
    {
      assert Links(map[], p) == map[];
    }
  }

  // ---- what every step keeps ----

  function Scheduled(reqs: Requests, c: Hash, r: Request): Requests {
    if c in reqs then reqs[c := reqs[c].(parents := reqs[c].parents + r.parents)] else reqs[c := r]
  }

  predicate Fresh(r: Request) {
    r.data.None? && r.deps == 0 && !(r.raw && r.callback)
  }

  lemma {:induction false} ScheduledWaiting(reqs: Requests, c: Hash, r: Request, x: Hash)
    ensures Waiting(Scheduled(reqs, c, r), x) == Waiting(reqs, x) + multiset(r.parents)[x]
  {
    hide Waiting;
    WaitingAfter(reqs, c, Scheduled(reqs, c, r)[c], x);
    if c in reqs {
      assert multiset(reqs[c].parents + r.parents) == multiset(reqs[c].parents) + multiset(r.parents);
    }
  }

  /** Scheduling turns notifications owed into listings. */
  lemma {:induction false} ScheduleKeeps(w: World, reqs: Requests, known: set<Hash>, owed: multiset<Hash>,
                                         open: set<Hash>,
                                         c: Hash, r: Request)
    requires ReqInv(w, reqs, known, owed, open) && multiset(r.parents) <= owed
    requires Askable(w, known, c, r.raw) && Fresh(r)
    requires forall p :: p in r.parents ==> p in reqs && Needs(w, Own(reqs, p), c)
    ensures ReqInv(w, Scheduled(reqs, c, r), known, owed - multiset(r.parents), open)
    ensures c in Scheduled(reqs, c, r) && forall p :: p in r.parents ==> p in Scheduled(reqs, c, r)[c].parents
  {
    hide Counted, Waits, Fitting, Linked, Askable, Needs, Own;
    ScheduleCounts(w, reqs, owed, c, r);
    ScheduleWaits(w, reqs, known, open, c, r);
    ScheduleFits(w, reqs, known, c, r);
    ScheduleLinks(w, reqs, owed, c, r);
  }

  lemma {:induction false} ScheduleFits(w: World, reqs: Requests, known: set<Hash>, c: Hash, r: Request)
    requires Fitting(w, reqs, known) && Askable(w, known, c, r.raw) && Fresh(r)
    ensures Fitting(w, Scheduled(reqs, c, r), known)
  {
    hide Decodes, Askable;
  }

  lemma {:induction false} ScheduleWaits(w: World, reqs: Requests, known: set<Hash>, open: set<Hash>, c: Hash,
                                         r: Request)
    requires Waits(w, reqs, known, open) && r.data.None?
    ensures Waits(w, Scheduled(reqs, c, r), known, open)
  {
    hide Fails, Needs;
    var reqs' := Scheduled(reqs, c, r);
    forall q | q in reqs' && q !in open && reqs'[q].data.Some? && !Fails(w, Own(reqs', q))
      ensures Settled(w, reqs', known, q)
    {
      assert Own(reqs', q) == Own(reqs, q);
      assert Settled(w, reqs, known, q);
    }
  }

  lemma {:induction false} ScheduleCounts(w: World, reqs: Requests, owed: multiset<Hash>, c: Hash, r: Request)
    requires Counted(w, reqs, owed) && multiset(r.parents) <= owed && Fresh(r)
    ensures Counted(w, Scheduled(reqs, c, r), owed - multiset(r.parents))
  {
    hide Waiting, Fails;
    var reqs', owed' := Scheduled(reqs, c, r), owed - multiset(r.parents);
    forall x
      ensures Waiting(reqs', x) + owed'[x] == Waiting(reqs, x) + owed[x] && Waiting(reqs, x) >= 0
    {
      ScheduledWaiting(reqs, c, r, x);
      WaitingIsCount(reqs, x);
    }
    assert forall x :: x in reqs ==> Own(reqs', x) == Own(reqs, x);
  }

  lemma {:induction false} ScheduleLinks(w: World, reqs: Requests, owed: multiset<Hash>, c: Hash, r: Request)
    requires Counted(w, reqs, owed) && Linked(w, reqs)
    requires forall p :: p in r.parents ==> p in reqs && Needs(w, Own(reqs, p), c)
    ensures Linked(w, Scheduled(reqs, c, r))
  {
    hide Needs, RoleOf, Counted;
    var reqs' := Scheduled(reqs, c, r);
    forall x, p | x in reqs' && p in reqs'[x].parents && p in reqs'
      ensures Needs(w, Own(reqs', p), x)
    {
      if x in reqs && p in reqs[x].parents {
        ParentIsPending(w, reqs, owed, x, p);
      } else {
        assert x == c && p in r.parents;
      }
      assert reqs'[p].raw == reqs[p].raw && reqs'[p].callback == reqs[p].callback;
      SameRole(reqs, reqs', p);
    }
  }

  lemma {:induction false} SameRole(reqs: Requests, reqs': Requests, p: Hash)
    requires p in reqs && p in reqs' && reqs'[p].raw == reqs[p].raw && reqs'[p].callback == reqs[p].callback
    ensures Own(reqs', p) == Own(reqs, p)
  {
  }

  lemma {:induction false} ParentIsPending(w: World, reqs: Requests, owed: multiset<Hash>, x: Hash, p: Hash)
    requires Counted(w, reqs, owed) && x in reqs && p in reqs[x].parents
    ensures p in reqs
  {
    hide Waiting, Fails;
    WaitingIsCount(reqs, p);
  }

  function Bumped(reqs: Requests, p: Hash, d: int): Requests
    requires p in reqs
  {
    reqs[p := reqs[p].(deps := reqs[p].deps + d)]
  }

  /** The same requests for the same parents, whatever they wait for or hold. */
  ghost predicate Alike(reqs: Requests, reqs': Requests) {
    && reqs'.Keys == reqs.Keys
    && forall x :: x in reqs ==> reqs'[x].parents == reqs[x].parents && Own(reqs', x) == Own(reqs, x)
  }

  lemma {:induction false} AlikeKeeps(w: World, reqs: Requests, reqs': Requests)
    requires Alike(reqs, reqs')
    ensures forall x :: Waiting(reqs', x) == Waiting(reqs, x)
    ensures Linked(w, reqs) ==> Linked(w, reqs')
    ensures forall known, p, c :: Seen(reqs', known, p, c) <==> Seen(reqs, known, p, c)
  {
    hide Needs;
    forall x
      ensures Waiting(reqs', x) == Waiting(reqs, x)
    {
      assert Links(reqs', x) == Links(reqs, x);
    }
  }

  lemma {:induction false} BumpedIsAlike(reqs: Requests, p: Hash, d: int)
    requires p in reqs
    ensures Alike(reqs, Bumped(reqs, p, d))
  {
  }

  /** Counting n more dependencies owes n notifications. */
  lemma {:induction false} OweKeeps(w: World, reqs: Requests, known: set<Hash>, owed: multiset<Hash>, open: set<Hash>,
                                    p: Hash, n: nat)
    requires ReqInv(w, reqs, known, owed, open) && p in reqs && reqs[p].data.Some? && !Fails(w, Own(reqs, p))
    ensures ReqInv(w, Bumped(reqs, p, n), known, owed[p := owed[p] + n], open)
  {
    hide Counted, Linked, Fitting, Waits, Waiting;
    BumpedIsAlike(reqs, p, n);
    AlikeKeeps(w, reqs, Bumped(reqs, p, n));
    OweCounts(w, reqs, owed, p, n);
    OweWaits(w, reqs, known, open, p, n);
    BumpFits(w, reqs, known, p, n);
  }

  lemma {:induction false} OweCounts(w: World, reqs: Requests, owed: multiset<Hash>, p: Hash, n: nat)
    requires Counted(w, reqs, owed) && p in reqs && reqs[p].data.Some? && !Fails(w, Own(reqs, p))
    ensures Counted(w, Bumped(reqs, p, n), owed[p := owed[p] + n])
  {
    hide Fails, Waiting, RoleOf, Linked, Seen;
    BumpedIsAlike(reqs, p, n);
    AlikeKeeps(w, reqs, Bumped(reqs, p, n));
  }

  lemma {:induction false} OweWaits(w: World, reqs: Requests, known: set<Hash>, open: set<Hash>, p: Hash, n: nat)
    requires Waits(w, reqs, known, open) && p in reqs
    ensures Waits(w, Bumped(reqs, p, n), known, open)
  {
    hide Fails, Needs, Waiting, Linked, Seen, RoleOf;
    var reqs' := Bumped(reqs, p, n);
    BumpedIsAlike(reqs, p, n);
    AlikeKeeps(w, reqs, reqs');
    forall q | q in reqs' && q !in open && reqs'[q].data.Some? && !Fails(w, Own(reqs', q))
      ensures Settled(w, reqs', known, q)
    {
      assert Settled(w, reqs, known, q);
    }
  }

  ghost predicate Complete(w: World, known: set<Hash>, p: Ref) {
    forall c :: Needs(w, p, c) ==> c in known
  }

  /** Who is owed a notification is pending; owed only one, it has all it needs. */
  lemma {:induction false} LastNotification(w: World, reqs: Requests, known: set<Hash>, owed: multiset<Hash>, p: Hash)
    requires ReqInv(w, reqs, known, owed, {}) && owed[p] > 0
    ensures p in reqs && reqs[p].deps > 0 && reqs[p].data == Some(w.content(p)) && Decodes(w, p)
    ensures reqs[p].deps == 1 ==> Complete(w, known, Own(reqs, p))
  {
    hide Fails, Needs, Decodes, Linked, Askable;
    WaitingIsCount(reqs, p);
    assert Settled(w, reqs, known, p);
  }

  lemma {:induction false} Pending(w: World, reqs: Requests, known: set<Hash>, owed: multiset<Hash>, open: set<Hash>,
                                   h: Hash)
    requires ReqInv(w, reqs, known, owed, open) && h in reqs
    ensures h != NO_PARENT && !(reqs[h].raw && reqs[h].callback) && (reqs[h].raw ==> reqs[h].data.None?)
    ensures h in known ==> !reqs[h].raw && !Decodes(w, h)
    ensures reqs[h].deps >= 0 && (reqs[h].data.None? ==> reqs[h].deps == 0)
  {
    hide Fails, Needs, Decodes, Waits, Linked;
    WaitingIsCount(reqs, h);
  }

  /** Paying a notification. */
  lemma {:induction false} NotifyKeeps(w: World, reqs: Requests, known: set<Hash>, owed: multiset<Hash>, p: Hash)
    requires ReqInv(w, reqs, known, owed, {}) && owed[p] > 0 && p in reqs && reqs[p].deps > 0
    ensures ReqInv(w, Bumped(reqs, p, -1), known, owed - multiset{p}, if reqs[p].deps == 1 then {p} else {})
  {
    hide Counted, Linked, Fitting, Waits, Waiting;
    var reqs' := Bumped(reqs, p, -1);
    BumpedIsAlike(reqs, p, -1);
    AlikeKeeps(w, reqs, reqs');
    NotifyCounts(w, reqs, owed, p);
    NotifyWaits(w, reqs, known, p);
    BumpFits(w, reqs, known, p, -1);
  }

  lemma {:induction false} BumpFits(w: World, reqs: Requests, known: set<Hash>, p: Hash, d: int)
    requires Fitting(w, reqs, known) && p in reqs
    ensures Fitting(w, Bumped(reqs, p, d), known)
  {
    hide Decodes, Askable;
  }

  lemma {:induction false} NotifyCounts(w: World, reqs: Requests, owed: multiset<Hash>, p: Hash)
    requires Counted(w, reqs, owed) && owed[p] > 0 && p in reqs
    ensures Counted(w, Bumped(reqs, p, -1), owed - multiset{p})
  {
    hide Fails, Waiting, RoleOf, Linked, Seen;
    BumpedIsAlike(reqs, p, -1);
    AlikeKeeps(w, reqs, Bumped(reqs, p, -1));
  }

  lemma {:induction false} NotifyWaits(w: World, reqs: Requests, known: set<Hash>, p: Hash)
    requires Waits(w, reqs, known, {}) && p in reqs && reqs[p].deps > 0
    ensures Waits(w, Bumped(reqs, p, -1), known, if reqs[p].deps == 1 then {p} else {})
  {
    hide Fails, Needs, Waiting, Linked, Seen, RoleOf;
    var reqs' := Bumped(reqs, p, -1);
    BumpedIsAlike(reqs, p, -1);
    AlikeKeeps(w, reqs, reqs');
    forall q | q in reqs' && (q != p || reqs[p].deps > 1) && reqs'[q].data.Some? && !Fails(w, Own(reqs', q))
      ensures Settled(w, reqs', known, q)
    {
      assert Settled(w, reqs, known, q);
    }
  }

  /** Committing a request that waits for nothing makes it known and owes its parents a notification. */
  lemma {:induction false} RemoveKeeps(w: World, reqs: Requests, known: set<Hash>, owed: multiset<Hash>, h: Hash)
    requires ReqInv(w, reqs, known, owed, {h}) && h in reqs && reqs[h].deps == 0
    ensures ReqInv(w, reqs - {h}, known + {h}, owed + multiset(reqs[h].parents), {})
  {
    hide Counted, Linked, Fitting, Waits;
    RemoveCounts(w, reqs, owed, h);
    RemoveWaits(w, reqs, known, h);
    RemoveFits(w, reqs, known, h);
  }

  lemma {:induction false} RemoveFits(w: World, reqs: Requests, known: set<Hash>, h: Hash)
    requires Fitting(w, reqs, known) && Linked(w, reqs) && h in reqs
    ensures Fitting(w, reqs - {h}, known + {h}) && Linked(w, reqs - {h})
  {
    hide Decodes, Needs;
  }

  lemma {:induction false} RemoveWaits(w: World, reqs: Requests, known: set<Hash>, h: Hash)
    requires Waits(w, reqs, known, {h}) && h in reqs
    ensures Waits(w, reqs - {h}, known + {h}, {})
  {
    hide Fails, Needs;
    var reqs' := reqs - {h};
    forall q | q in reqs' && reqs'[q].data.Some? && !Fails(w, Own(reqs', q))
      ensures Settled(w, reqs', known + {h}, q)
    {
      assert q !in {h} && Own(reqs', q) == Own(reqs, q) && Settled(w, reqs, known, q);
    }
  }

  lemma {:induction false} RemoveCounts(w: World, reqs: Requests, owed: multiset<Hash>, h: Hash)
    requires Counted(w, reqs, owed) && h in reqs && reqs[h].deps == 0
    ensures Counted(w, reqs - {h}, owed + multiset(reqs[h].parents))
  {
    hide Fails, Waiting;
    var reqs', owed' := reqs - {h}, owed + multiset(reqs[h].parents);
    WaitingIsCount(reqs, h);
    forall x
      ensures Waiting(reqs', x) + owed'[x] == Waiting(reqs, x) + owed[x]
    {
      WaitingWithout(reqs, h, x);
    }
    assert forall x :: x in reqs' ==> Own(reqs', x) == Own(reqs, x);
  }

  function Filled(reqs: Requests, h: Hash, data: Bytes): Requests
    requires h in reqs
  {
    reqs[h := reqs[h].(data := Some(data))]
  }

  lemma {:induction false} FilledIsAlike(reqs: Requests, h: Hash, data: Bytes)
    requires h in reqs
    ensures Alike(reqs, Filled(reqs, h, data))
  {
  }

  lemma {:induction false} FillCounts(w: World, reqs: Requests, owed: multiset<Hash>, h: Hash, data: Bytes)
    requires Counted(w, reqs, owed) && h in reqs
    ensures Counted(w, Filled(reqs, h, data), owed)
    ensures reqs[h].data.None? ==> reqs[h].deps == 0
  {
    hide Fails, Waiting, Linked, Seen, RoleOf;
    WaitingIsCount(reqs, h);
    FilledIsAlike(reqs, h, data);
    AlikeKeeps(w, reqs, Filled(reqs, h, data));
  }

  /** Data arrives for a request; it is open until its children are seen to. */
  lemma {:induction false} FillKeeps(w: World, reqs: Requests, known: set<Hash>, h: Hash)
    requires ReqInv(w, reqs, known, multiset{}, {}) && h in reqs && reqs[h].data.None? && !reqs[h].raw && Decodes(w, h)
    ensures reqs[h].deps == 0
    ensures ReqInv(w, Filled(reqs, h, w.content(h)), known, multiset{}, {h})
  {
    hide Fails, Needs, Decodes, Waiting, Counted, Linked, Seen, Askable, RoleOf;
    var reqs' := Filled(reqs, h, w.content(h));
    FillCounts(w, reqs, multiset{}, h, w.content(h));
    FilledIsAlike(reqs, h, w.content(h));
    AlikeKeeps(w, reqs, reqs');
    forall q | q in reqs' && q !in {h} && reqs'[q].data.Some? && !Fails(w, Own(reqs', q))
      ensures Settled(w, reqs', known, q)
    {
      assert Settled(w, reqs, known, q);
    }
  }

  lemma {:induction false} OpenKeeps(w: World, reqs: Requests, known: set<Hash>, h: Hash)
    requires ReqInv(w, reqs, known, multiset{}, {})
    ensures ReqInv(w, reqs, known, multiset{}, {h})
  {
    hide Counted, Fitting, Settled, Fails, Linked;
  }

  /** An open request may be closed when processing it failed or when it is settled. */
  lemma {:induction false} CloseKeeps(w: World, reqs: Requests, known: set<Hash>, h: Hash)
    requires ReqInv(w, reqs, known, multiset{}, {h}) && h in reqs
    requires Fails(w, Own(reqs, h)) || Settled(w, reqs, known, h)
    ensures ReqInv(w, reqs, known, multiset{}, {})
  {
    hide Counted, Fitting, Settled, Fails, Linked;
  }

  /** A request nothing is listed for has all it needs. */
  lemma {:induction false} NothingListed(w: World, reqs: Requests, known: set<Hash>, h: Hash)
    requires ReqInv(w, reqs, known, multiset{}, {h}) && h in reqs && reqs[h].deps == 0
    requires forall c :: Needs(w, Own(reqs, h), c) ==> Seen(reqs, known, h, c)
    ensures Complete(w, known, Own(reqs, h))
  {
    hide Needs, Fails, Linked, Fitting, Waits;
    WaitingIsCount(reqs, h);
  }

  // ---- the invariant on what is stored ----

  /** The role each hash was first asked for or stored in. */
  type Roles = map<Hash, Role>

  /** The database holds what its entries need in the roles they were stored in. */
  ghost predicate Closed(w: World, db: map<Hash, Bytes>, roles: Roles) {
    forall h :: h in db ==>
      && h in roles && db[h] == w.content(h) && Readable(w, Ref(h, roles[h])) && Complete(w, db.Keys, Ref(h, roles[h]))
  }

  /** All that p needs is known or comes earlier. */
  ghost predicate After(w: World, known: set<Hash>, earlier: seq<Hash>, p: Ref) {
    forall c :: Needs(w, p, c) ==> c in known || c in earlier
  }

  /** A downloaded item that may be written once known and the earlier ones are. */
  ghost predicate Writable(w: World, known: set<Hash>, earlier: seq<Hash>, h: Hash, roles: Roles) {
    h in roles && Readable(w, Ref(h, roles[h])) && After(w, known, earlier, Ref(h, roles[h]))
  }

  /** Downloaded items are listed once each, after everything they need. */
  ghost predicate Ordered(w: World, known: set<Hash>, order: seq<Hash>, roles: Roles) {
    && (forall i, j :: 0 <= i < j < |order| ==> order[i] != order[j])
    && (forall i :: 0 <= i < |order| ==> Writable(w, known, order[..i], order[i], roles))
  }

  /** The batch holds the data of the items listed. */
  ghost predicate Listed(w: World, batch: map<Hash, Bytes>, order: seq<Hash>) {
    (forall h :: h in batch <==> h in order) && forall h :: h in batch ==> batch[h] == w.content(h)
  }

  ghost predicate StoreInv(w: World, db: map<Hash, Bytes>, batch: map<Hash, Bytes>, order: seq<Hash>, roles: Roles) {
    Closed(w, db, roles) && Ordered(w, db.Keys, order, roles) && Listed(w, batch, order)
  }

  /** Hashes keep their roles. */
  ghost predicate Extends(roles: Roles, roles': Roles) {
    forall h :: h in roles ==> h in roles' && roles'[h] == roles[h]
  }

  lemma {:induction false} ExtendKeeps(w: World, db: map<Hash, Bytes>, batch: map<Hash, Bytes>, order: seq<Hash>,
                                       roles: Roles, roles': Roles)
    requires StoreInv(w, db, batch, order, roles) && Extends(roles, roles')
    ensures StoreInv(w, db, batch, order, roles')
  {
    hide Readable, Complete, After;
    forall i | 0 <= i < |order|
      ensures Writable(w, db.Keys, order[..i], order[i], roles')
    {
      assert Writable(w, db.Keys, order[..i], order[i], roles);
    }
  }

  lemma {:induction false} OrderedAfter(w: World, known: set<Hash>, order: seq<Hash>, h: Hash, roles: Roles)
    requires Ordered(w, known, order, roles) && h !in order && Writable(w, known, order, h, roles)
    ensures Ordered(w, known, order + [h], roles)
  {
    hide Writable;
    var order' := order + [h];
    forall i | 0 <= i < |order'|
      ensures Writable(w, known, order'[..i], order'[i], roles)
    {
      if i == |order| {
        assert order'[..i] == order;
      } else {
        assert order'[..i] == order[..i] && Writable(w, known, order[..i], order[i], roles);
      }
    }
  }

  lemma {:induction false} AppendKeeps(w: World, db: map<Hash, Bytes>, batch: map<Hash, Bytes>, order: seq<Hash>,
                                       roles: Roles, h: Hash)
    requires StoreInv(w, db, batch, order, roles) && h !in batch && h in roles
    requires Readable(w, Ref(h, roles[h])) && Complete(w, db.Keys + batch.Keys, Ref(h, roles[h]))
    ensures StoreInv(w, db, batch[h := w.content(h)], order + [h], roles)
  {
    assert After(w, db.Keys, order, Ref(h, roles[h])) by {
      hide Readable, Needs, Closed, Ordered;
    }
    hide Readable, Complete, Closed, Ordered, After;
    OrderedAfter(w, db.Keys, order, h, roles);
  }

  /** The database with the first n downloaded items written. */
  function Flushed(db: map<Hash, Bytes>, batch: map<Hash, Bytes>, order: seq<Hash>, n: nat): map<Hash, Bytes>
    requires n <= |order| && forall h :: h in order ==> h in batch
  {
    if n == 0 then db else Flushed(db, batch, order, n - 1)[order[n - 1] := batch[order[n - 1]]]
  }

  lemma {:induction false} FlushedHolds(db: map<Hash, Bytes>, batch: map<Hash, Bytes>, order: seq<Hash>, n: nat)
    requires n <= |order| && forall h :: h in order ==> h in batch
    ensures forall h :: h in Flushed(db, batch, order, n) <==> h in db || h in order[..n]
  {
    if n > 0 {
      FlushedHolds(db, batch, order, n - 1);
      assert order[..n] == order[..n - 1] + [order[n - 1]];
    }
  }

  /** However many items are written, the database stays closed: the order never writes an entry
      before what it needs. */
  lemma {:induction false} FlushKeeps(w: World, db: map<Hash, Bytes>, batch: map<Hash, Bytes>, order: seq<Hash>,
                                      roles: Roles, n: nat)
    requires StoreInv(w, db, batch, order, roles) && n <= |order|
    ensures StoreInv(w, Flushed(db, batch, order, n), batch, order, roles)
  {
    if n > 0 {
      hide StoreInv;
      FlushKeeps(w, db, batch, order, roles, n - 1);
      FlushedHolds(db, batch, order, n - 1);
      WriteKeeps(w, Flushed(db, batch, order, n - 1), batch, order, roles, n - 1);
    }
  }

  lemma {:induction false} WriteKeeps(w: World, db: map<Hash, Bytes>, batch: map<Hash, Bytes>, order: seq<Hash>,
                                      roles: Roles, n: nat)
    requires StoreInv(w, db, batch, order, roles) && n < |order| && forall h :: h in order[..n] ==> h in db
    ensures StoreInv(w, db[order[n] := batch[order[n]]], batch, order, roles)
  {
    hide Needs, Readable;
    var h := order[n];
    var db' := db[h := batch[h]];
    assert Complete(w, db.Keys, Ref(h, roles[h])) by {
      assert Writable(w, db.Keys, order[..n], h, roles);
    }
    ClosedAfter(w, db, h, roles);
    assert Ordered(w, db'.Keys, order, roles) by {
      hide Closed;
      forall i | 0 <= i < |order|
        ensures Writable(w, db'.Keys, order[..i], order[i], roles)
      {
        assert Writable(w, db.Keys, order[..i], order[i], roles);
      }
    }
  }

  lemma {:induction false} ClosedAfter(w: World, db: map<Hash, Bytes>, h: Hash, roles: Roles)
    requires Closed(w, db, roles) && h in roles && Readable(w, Ref(h, roles[h]))
             && Complete(w, db.Keys, Ref(h, roles[h]))
    ensures Closed(w, db[h := w.content(h)], roles)
  {
    hide Needs, Readable;
  }

  // ---- where the requests come from ----

  /** References lead from the root, as a node of the account trie, down the path. */
  ghost predicate Leads(w: World, path: seq<Ref>, root: Hash) {
    |path| > 0 && path[0] == Ref(root, State) && forall i :: 0 <= i < |path| - 1 ==> Refers(w, path[i], path[i + 1])
  }

  /** Every entry on the path has been taken in the role it is led to in. */
  ghost predicate Along(roles: Roles, path: seq<Ref>) {
    forall i :: 0 <= i < |path| ==> path[i].hash in roles && roles[path[i].hash] == path[i].role
  }

  ghost predicate Grounds(w: World, root: Hash, roles: Roles, h: Hash) {
    exists path: seq<Ref> :: Leads(w, path, root) && Along(roles, path) && path[|path| - 1].hash == h
  }

  /** What was not there from the start has been led to from the root. */
  ghost predicate Grounded(w: World, root: Hash, start: Roles, roles: Roles) {
    Extends(start, roles) && forall h :: h in roles && h !in start ==> Grounds(w, root, roles, h)
  }

  /** A node asks for the storage of its account first, then for the code, and then for its child nodes. */
  function Turn(r: Role): nat {
    match r
    case Storage => 0
    case Raw => 1
    case State => 2
  }

  /** p refers to c, and to no other role of the same hash earlier. */
  ghost predicate RefersFirst(w: World, p: Ref, c: Ref) {
    Refers(w, p, c) && forall r :: Refers(w, p, Ref(c.hash, r)) ==> Turn(c.role) <= Turn(r)
  }

  /** New hashes are taken in the first role p refers to them in. */
  ghost predicate AskedBy(w: World, p: Ref, roles: Roles, roles': Roles) {
    Extends(roles, roles') && forall c :: c in roles' && c !in roles ==> RefersFirst(w, p, Ref(c, roles'[c]))
  }

  /** What p refers to for an account has been asked for. */
  ghost predicate LeavesTaken(w: World, p: Ref, roles: Roles) {
    p.role == State ==> forall c, r :: r != State && Refers(w, p, Ref(c, r)) ==> c in roles
  }

  /** What a child refers to for an account has been asked for. */
  ghost predicate LeafTaken(w: World, role: Role, child: Child, roles: Roles) {
    role == State && child.ValueChild? ==> forall c :: c in LeafRefs(w, child.value) ==> c.hash in roles
  }

  lemma {:induction false} LeafStaysTaken(w: World, role: Role, child: Child, roles: Roles, roles': Roles)
    requires LeafTaken(w, role, child, roles) && Extends(roles, roles')
    ensures LeafTaken(w, role, child, roles')
  {
    hide LeafRefs;
  }

  lemma {:induction false} AllLeavesTaken(w: World, p: Ref, roles: Roles)
    requires forall j :: 0 <= j < |Children(w, p.hash)| ==> LeafTaken(w, p.role, Children(w, p.hash)[j], roles)
    ensures LeavesTaken(w, p, roles)
  {
    hide Children, LeafRefs;
    if p.role == State {
      forall c, r | r != State && Refers(w, p, Ref(c, r))
        ensures c in roles
      {
        var j :| 0 <= j < |Children(w, p.hash)| && Ref(c, r) in ChildRefs(w, p.role, Children(w, p.hash)[j]);
        assert LeafTaken(w, p.role, Children(w, p.hash)[j], roles);
      }
    }
  }

  lemma {:induction false} LeavesStayTaken(w: World, p: Ref, roles: Roles, roles': Roles)
    requires LeavesTaken(w, p, roles) && Extends(roles, roles')
    ensures LeavesTaken(w, p, roles')
  {
    hide Refers;
  }

  /** A child node that was not asked for is asked for as such. */
  lemma {:induction false} NodeIsFirst(w: World, p: Ref, roles: Roles, c: Hash)
    requires LeavesTaken(w, p, roles) && c !in roles && p.role != Raw && Refers(w, p, Ref(c, p.role))
    ensures RefersFirst(w, p, Ref(c, p.role))
  {
    hide Refers;
  }

  /** The account in child i is the only one p refers to anything for. */
  lemma {:induction false} OnlyAccount(w: World, p: Ref, i: nat, a: Account, c: Hash, r: Role)
    requires Sane(w) && p.role == State && i < |Children(w, p.hash)| && Children(w, p.hash)[i].ValueChild?
    requires w.account(Children(w, p.hash)[i].value) == Some(a) && r != State && Refers(w, p, Ref(c, r))
    ensures Ref(c, r) in LeafRefs(w, Children(w, p.hash)[i].value)
  {
    var j :| 0 <= j < |Children(w, p.hash)| && Ref(c, r) in ChildRefs(w, p.role, Children(w, p.hash)[j]);
    assert i == j;
  }

  lemma {:induction false} CodeIsFirst(w: World, p: Ref, i: nat, a: Account, roles: Roles)
    requires Sane(w) && p.role == State && i < |Children(w, p.hash)| && Children(w, p.hash)[i].ValueChild?
    requires w.account(Children(w, p.hash)[i].value) == Some(a) && Refers(w, p, Ref(a.code, Raw))
    requires a.code !in roles && (a.root != EMPTY_ROOT ==> a.root in roles)
    ensures RefersFirst(w, p, Ref(a.code, Raw))
  {
    hide Refers, Sane;
    forall r | Refers(w, p, Ref(a.code, r))
      ensures Turn(Raw) <= Turn(r)
    {
      if r == Storage {
        OnlyAccount(w, p, i, a, a.code, r);
      }
    }
  }

  lemma {:induction false} StillGrounds(w: World, root: Hash, roles: Roles, roles': Roles, h: Hash)
    requires Grounds(w, root, roles, h) && Extends(roles, roles')
    ensures Grounds(w, root, roles', h)
  {
    hide Refers;
    var path: seq<Ref> :| Leads(w, path, root) && Along(roles, path) && path[|path| - 1].hash == h;
    assert Along(roles', path);
  }

  lemma {:induction false} GroundsNext(w: World, root: Hash, roles: Roles, p: Hash, c: Hash)
    requires Grounds(w, root, roles, p) && p in roles && c in roles && Refers(w, Ref(p, roles[p]), Ref(c, roles[c]))
    ensures Grounds(w, root, roles, c)
  {
    hide Refers;
    var path: seq<Ref> :| Leads(w, path, root) && Along(roles, path) && path[|path| - 1].hash == p;
    var path' := path + [Ref(c, roles[c])];
    assert Leads(w, path', root) && Along(roles, path') && path'[|path'| - 1].hash == c;
  }

  lemma {:induction false} RootIsGrounded(w: World, root: Hash, start: Roles, roles: Roles)
    requires roles == start || (root !in start && roles == start[root := State])
    ensures Grounded(w, root, start, roles)
  {
    hide Refers;
    if root !in start && root in roles {
      var path := [Ref(root, State)];
      assert Leads(w, path, root) && Along(roles, path) && path[|path| - 1].hash == root;
    }
  }

  lemma {:induction false} AskKeepsGround(w: World, root: Hash, start: Roles, roles: Roles, roles': Roles, p: Hash)
    requires Grounded(w, root, start, roles) && p in roles && p !in start && AskedBy(w, Ref(p, roles[p]), roles, roles')
    ensures Grounded(w, root, start, roles')
  {
    hide Refers, Grounds;
    StillGrounds(w, root, roles, roles', p);
    forall h | h in roles' && h !in start
      ensures Grounds(w, root, roles', h)
    {
      if h in roles {
        StillGrounds(w, root, roles, roles', h);
      } else {
        GroundsNext(w, root, roles', p, h);
      }
    }
  }

  /** A hash in the queue, with its depth for a priority; a hash asked for again is queued again. */
  datatype Entry = Entry(hash: Hash, depth: nat)

  ghost predicate InQueue(queue: multiset<Entry>, h: Hash) {
    exists e :: e in queue && e.hash == h
  }

  /** No entry of the queue comes before the given depth. */
  predicate NoneDeeper(queue: multiset<Entry>, depth: nat) {
    forall e :: e in queue ==> e.depth <= depth
  }

  lemma {:induction false} Deepest(queue: multiset<Entry>) returns (q: Entry)
    requires queue != multiset{}
    ensures q in queue && NoneDeeper(queue, q.depth)
    decreases |queue|
  {
    q :| q in queue;
    var rest := queue - multiset{q};
    assert forall e :: e in queue ==> e == q || e in rest;
    if rest != multiset{} {
      var d := Deepest(rest);
      q := if d.depth > q.depth then d else q;
    }
  }

  /** These entries have been taken from the queue, each the deepest when it was taken. */
  ghost predicate Popped(before: multiset<Entry>, now: multiset<Entry>, popped: seq<Entry>)
    decreases |popped|
  {
    if popped == [] then now == before
    else
      var e := popped[|popped| - 1];
      NoneDeeper(now, e.depth) && Popped(before, now + multiset{e}, popped[..|popped| - 1])
  }

  lemma {:induction false} PopOne(before: multiset<Entry>, now: multiset<Entry>, popped: seq<Entry>, q: Entry)
    requires Popped(before, now, popped) && q in now && NoneDeeper(now, q.depth)
    ensures Popped(before, now - multiset{q}, popped + [q])
  {
    hide NoneDeeper;
    assert (popped + [q])[..|popped|] == popped;
    assert now - multiset{q} + multiset{q} == now;
    FewerAreNotDeeper(now, q, q.depth);
  }

  lemma {:induction false} FewerAreNotDeeper(queue: multiset<Entry>, q: Entry, depth: nat)
    requires NoneDeeper(queue, depth)
    ensures NoneDeeper(queue - multiset{q}, depth)
  {
    assert forall e :: e in queue - multiset{q} ==> e in queue;
  }

  // ---- the scheduler ----

  datatype Outcome = Accepted | NotRequested | AlreadyProcessed | Undecodable | CallbackFailed

  /** Requests only gain parents. */
  ghost predicate Grown(reqs: Requests, reqs': Requests) {
    forall x :: x in reqs ==>
      && x in reqs' && reqs'[x].data == reqs[x].data && reqs[x].parents <= reqs'[x].parents
      && reqs'[x].raw == reqs[x].raw && reqs'[x].callback == reqs[x].callback && reqs'[x].depth == reqs[x].depth
  }

  /** New requests hold no data. */
  ghost predicate NewAreEmpty(reqs: Requests, reqs': Requests) {
    Grown(reqs, reqs') && forall x :: x in reqs' && x !in reqs ==> reqs'[x].data.None?
  }

  ghost function Answered(reqs: Requests): set<Hash> {
    set r | r in reqs && reqs[r].data.Some?
  }

  ghost function HashesOf(items: seq<(Hash, Bytes)>, n: nat): set<Hash>
    requires n <= |items|
  {
    set i | 0 <= i < n :: items[i].0
  }

  lemma {:induction false} OneMoreHash(items: seq<(Hash, Bytes)>, n: nat)
    requires n < |items|
    ensures HashesOf(items, n + 1) == HashesOf(items, n) + {items[n].0}
  {
  }

  lemma {:induction false} NoHashes(items: seq<(Hash, Bytes)>)
    ensures HashesOf(items, 0) == {}
  {
  }

  lemma {:induction false} AnsweredKept(reqs: Requests, reqs': Requests)
    requires NewAreEmpty(reqs, reqs')
    ensures Answered(reqs') == Answered(reqs)
  {
  }

  lemma {:induction false} GrownMore(reqs: Requests, mid: Requests, reqs': Requests)
    requires NewAreEmpty(reqs, mid) && NewAreEmpty(mid, reqs')
    ensures NewAreEmpty(reqs, reqs')
  {
    forall x | x in reqs
      ensures reqs[x].parents <= reqs'[x].parents
    {
      assert reqs[x].parents <= mid[x].parents && mid[x].parents <= reqs'[x].parents;
    }
  }

  lemma {:induction false} BumpedIsGrown(reqs: Requests, p: Hash, d: int)
    requires p in reqs
    ensures NewAreEmpty(reqs, Bumped(reqs, p, d))
  {
  }

  lemma {:induction false} ScheduledIsGrown(reqs: Requests, c: Hash, r: Request)
    requires r.data.None?
    ensures NewAreEmpty(reqs, Scheduled(reqs, c, r)) && Scheduled(reqs, c, r).Keys == reqs.Keys + {c}
    ensures forall p :: p in r.parents ==> p in Scheduled(reqs, c, r)[c].parents
    ensures forall x :: x in reqs ==> Scheduled(reqs, c, r)[x].deps == reqs[x].deps
  {
  }

  lemma {:induction false} OwnIsKept(reqs: Requests, reqs': Requests, h: Hash)
    requires Grown(reqs, reqs') && h in reqs
    ensures h in reqs' && Own(reqs', h) == Own(reqs, h)
    ensures reqs'[h].data == reqs[h].data && reqs'[h].raw == reqs[h].raw && reqs'[h].callback == reqs[h].callback
    ensures reqs'[h].depth == reqs[h].depth
  {
  }

  lemma {:induction false} StillSeen(reqs: Requests, reqs': Requests, known: set<Hash>, h: Hash, c: Hash)
    requires Grown(reqs, reqs') && Seen(reqs, known, h, c)
    ensures Seen(reqs', known, h, c)
  {
    if c !in known {
      var i :| 0 <= i < |reqs[c].parents| && reqs[c].parents[i] == h;
      assert reqs'[c].parents[i] == h;
    }
  }

  /** Everything a child leads to is known, listed for h, or among the hashes found. */
  ghost predicate Handled(w: World, reqs: Requests, known: set<Hash>, p: Ref, found: seq<(Hash, nat)>, child: Child) {
    forall c :: c in ChildRefs(w, p.role, child) ==>
      Seen(reqs, known, p.hash, c.hash) || exists k :: 0 <= k < |found| && found[k].0 == c.hash
  }

  lemma {:induction false} StillHandled(w: World, reqs: Requests, reqs': Requests, known: set<Hash>, p: Ref,
                                        found: seq<(Hash, nat)>, found': seq<(Hash, nat)>, child: Child)
    requires Handled(w, reqs, known, p, found, child) && Grown(reqs, reqs') && found <= found'
    ensures Handled(w, reqs', known, p, found', child)
  {
    hide Grown, Seen;
    forall c | c in ChildRefs(w, p.role, child) && !Seen(reqs', known, p.hash, c.hash)
      ensures exists k :: 0 <= k < |found'| && found'[k].0 == c.hash
    {
      if Seen(reqs, known, p.hash, c.hash) {
        StillSeen(reqs, reqs', known, p.hash, c.hash);
      }
      var k :| 0 <= k < |found| && found[k].0 == c.hash;
      assert found'[k].0 == c.hash;
    }
  }

  /** With all children handled and the hashes found seen to, everything p needs is seen to. */
  lemma {:induction false} AllSeen(w: World, reqs: Requests, reqs': Requests, known: set<Hash>, p: Ref,
                                   found: seq<(Hash, nat)>)
    requires Grown(reqs, reqs')
    requires forall j :: 0 <= j < |Children(w, p.hash)| ==> Handled(w, reqs, known, p, found, Children(w, p.hash)[j])
    requires forall k :: 0 <= k < |found| ==> Seen(reqs', known, p.hash, found[k].0)
    ensures forall c :: Needs(w, p, c) ==> Seen(reqs', known, p.hash, c)
  {
    hide Grown, Seen, ChildRefs;
    forall c | Needs(w, p, c)
      ensures Seen(reqs', known, p.hash, c)
    {
      var r :| Refers(w, p, Ref(c, r));
      var i :| 0 <= i < |Children(w, p.hash)| && Ref(c, r) in ChildRefs(w, p.role, Children(w, p.hash)[i]);
      assert Handled(w, reqs, known, p, found, Children(w, p.hash)[i]);
      if Seen(reqs, known, p.hash, c) {
        StillSeen(reqs, reqs', known, p.hash, c);
      }
    }
  }

  /** A value child that decodes is not a reason to fail, since it is the only one. */
  lemma {:induction false} GoodLeaf(w: World, p: Ref, i: nat)
    requires Sane(w) && i < |Children(w, p.hash)| && Children(w, p.hash)[i].ValueChild?
             && !BadLeaf(w, Children(w, p.hash)[i])
    ensures !Fails(w, p)
  {
    forall j | 0 <= j < |Children(w, p.hash)|
      ensures !BadLeaf(w, Children(w, p.hash)[j])
    {
      assert j != i ==> !Children(w, p.hash)[j].ValueChild?;
    }
  }

  lemma {:induction false} ChildIsReferred(w: World, p: Ref, i: nat, c: Ref)
    requires Sane(w) && p.role != Raw && i < |Children(w, p.hash)| && c in ChildRefs(w, p.role, Children(w, p.hash)[i])
    ensures Refers(w, p, c) && Needs(w, p, c.hash) && c.hash != NO_PARENT
  {
    assert Refers(w, p, Ref(c.hash, c.role));
  }

  lemma {:induction false} AskedMore(w: World, p: Ref, roles: Roles, mid: Roles, roles': Roles)
    requires AskedBy(w, p, roles, mid) && AskedBy(w, p, mid, roles')
    ensures AskedBy(w, p, roles, roles')
  {
    hide RefersFirst;
  }

  // ---- the whole invariant ----

  /** The scheduler's fields as a value. */
  datatype Mem = Mem(database: map<Hash, Bytes>, batch: map<Hash, Bytes>, order: seq<Hash>, requests: Requests,
                     queue: multiset<Entry>, handed: set<Hash>, roles: Roles)

  function KnownTo(m: Mem): set<Hash> {
    m.database.Keys + m.batch.Keys
  }

  /** Every hash asked for or stored has a role, and a request that is not known is in that role. */
  ghost predicate Taken(start: Roles, m: Mem) {
    && m.roles.Keys == KnownTo(m) + m.requests.Keys && start.Keys <= m.database.Keys && m.requests.Keys !! m.batch.Keys
    && forall r :: r in m.requests && r !in KnownTo(m) ==> m.roles[r] == RoleOf(m.requests[r])
  }

  /** What waits for data is queued or has been handed out; what is queued is pending or known. */
  ghost predicate Queued(m: Mem) {
    && (forall r :: r in m.requests && m.requests[r].data.None? ==> InQueue(m.queue, r) || r in m.handed)
    && (forall e :: e in m.queue ==> e.hash in m.requests || e.hash in KnownTo(m))
  }

  /** The invariant while some notifications are owed and some requests are being processed. */
  ghost predicate Inv(w: World, start: Roles, m: Mem, owed: multiset<Hash>, open: set<Hash>) {
    && Sane(w) && ReqInv(w, m.requests, KnownTo(m), owed, open) && StoreInv(w, m.database, m.batch, m.order, m.roles)
    && Queued(m) && Taken(start, m)
  }

  function AfterSchedule(m: Mem, c: Hash, r: Request): Mem {
    m.(requests := Scheduled(m.requests, c, r),
       queue := if c in m.requests then m.queue else m.queue + multiset{Entry(c, r.depth)},
       roles := if c in m.roles then m.roles else m.roles[c := RoleOf(r)])
  }

  lemma {:induction false} ScheduleIs(m: Mem, c: Hash, r: Request)
    ensures var m' := AfterSchedule(m, c, r);
            && m' == m.(requests := m'.requests, queue := m'.queue, roles := m'.roles)
            && m'.roles == (if c in m.roles then m.roles else m.roles[c := RoleOf(r)])
            && m'.requests == Scheduled(m.requests, c, r)
            && (c in m.requests ==>
                  && m'.queue == m.queue
                  && m'.requests == m.requests[c := m.requests[c].(parents := m.requests[c].parents + r.parents)])
            && (c !in m.requests ==>
                  m'.queue == m.queue + multiset{Entry(c, r.depth)} && m'.requests == m.requests[c := r])
  {
    hide RoleOf;
  }

  lemma {:induction false} InvSchedule(w: World, start: Roles, m: Mem, owed: multiset<Hash>, open: set<Hash>, c: Hash,
                                       r: Request)
    requires Inv(w, start, m, owed, open) && multiset(r.parents) <= owed && Fresh(r)
    requires Askable(w, KnownTo(m), c, r.raw) && c !in m.batch
    requires forall p :: p in r.parents ==> p in m.requests && Needs(w, Own(m.requests, p), c)
    ensures Inv(w, start, AfterSchedule(m, c, r), owed - multiset(r.parents), open)
  {
    hide StoreInv, ReqInv, Sane, Needs, Askable, Queued, Taken;
    var m' := AfterSchedule(m, c, r);
    ScheduleKeeps(w, m.requests, KnownTo(m), owed, open, c, r);
    ExtendKeeps(w, m.database, m.batch, m.order, m.roles, m'.roles);
    ScheduleTakes(start, m, c, r);
  }

  lemma {:induction false} ScheduleTakes(start: Roles, m: Mem, c: Hash, r: Request)
    requires Taken(start, m) && Queued(m) && c !in m.batch
    ensures Taken(start, AfterSchedule(m, c, r)) && Queued(AfterSchedule(m, c, r))
  {
    hide RoleOf, Scheduled, Queued;
    var m' := AfterSchedule(m, c, r);
    ScheduledRoles(m.requests, c, r);
    assert KnownTo(m') == KnownTo(m);
    assert m'.roles.Keys == KnownTo(m') + m'.requests.Keys;
    ScheduleQueues(m, c, r);
  }

  lemma {:induction false} ScheduleQueues(m: Mem, c: Hash, r: Request)
    requires Queued(m)
    ensures Queued(AfterSchedule(m, c, r))
  {
    hide RoleOf, Scheduled;
    ScheduledRoles(m.requests, c, r);
    var queue' := AfterSchedule(m, c, r).queue;
    assert KnownTo(AfterSchedule(m, c, r)) == KnownTo(m);
    assert c !in m.requests ==> Entry(c, r.depth) in queue';
    assert forall e :: e in m.queue ==> e in queue';
  }

  lemma {:induction false} ScheduledRoles(reqs: Requests, c: Hash, r: Request)
    ensures Scheduled(reqs, c, r).Keys == reqs.Keys + {c} && (c !in reqs ==> Scheduled(reqs, c, r)[c] == r)
    ensures forall x :: x in reqs ==>
              && RoleOf(Scheduled(reqs, c, r)[x]) == RoleOf(reqs[x])
              && Scheduled(reqs, c, r)[x].data == reqs[x].data
  {
  }

  /** Requests and waiting change, but not what is asked for. */
  lemma {:induction false} TakenAlike(start: Roles, m: Mem, reqs: Requests)
    requires Taken(start, m) && Queued(m) && Alike(m.requests, reqs)
    requires forall x :: x in reqs && reqs[x].data.None? ==> m.requests[x].data.None?
    ensures Taken(start, m.(requests := reqs)) && Queued(m.(requests := reqs))
  {
    var m' := m.(requests := reqs);
    assert KnownTo(m') == KnownTo(m);
    forall r | r in reqs && r !in KnownTo(m)
      ensures m.roles[r] == RoleOf(reqs[r])
    {
      assert Own(reqs, r) == Own(m.requests, r);
    }
  }

  lemma {:induction false} InvOwe(w: World, start: Roles, m: Mem, open: set<Hash>, p: Hash, n: nat)
    requires Inv(w, start, m, multiset{}, open) && p in m.requests && m.requests[p].data.Some?
             && !Fails(w, Own(m.requests, p))
    ensures Inv(w, start, m.(requests := Bumped(m.requests, p, n)), multiset{}[p := n], open)
  {
    hide StoreInv, ReqInv, Sane, Fails, Own, Queued, Taken;
    OweKeeps(w, m.requests, KnownTo(m), multiset{}, open, p, n);
    BumpedIsAlike(m.requests, p, n);
    TakenAlike(start, m, Bumped(m.requests, p, n));
  }

  lemma {:induction false} InvNotify(w: World, start: Roles, m: Mem, owed: multiset<Hash>, p: Hash)
    requires Inv(w, start, m, owed + multiset{p}, {})
    ensures p in m.requests && m.requests[p].data == Some(w.content(p)) && Decodes(w, p)
    ensures m.requests[p].deps > 0 && (m.requests[p].deps == 1 ==> Complete(w, KnownTo(m), Own(m.requests, p)))
    ensures Inv(w, start, m.(requests := Bumped(m.requests, p, -1)), owed, if m.requests[p].deps == 1 then {p} else {})
  {
    hide StoreInv, ReqInv, Sane, Own, Queued, Taken, Complete, Decodes;
    LastNotification(w, m.requests, KnownTo(m), owed + multiset{p}, p);
    NotifyKeeps(w, m.requests, KnownTo(m), owed + multiset{p}, p);
    assert owed + multiset{p} - multiset{p} == owed;
    BumpedIsAlike(m.requests, p, -1);
    TakenAlike(start, m, Bumped(m.requests, p, -1));
  }

  function AfterRecord(m: Mem, h: Hash, data: Bytes): Mem {
    m.(batch := m.batch[h := data], order := m.order + [h], requests := m.requests - {h})
  }

  lemma {:induction false} InvRecord(w: World, start: Roles, m: Mem, owed: multiset<Hash>, h: Hash)
    requires Inv(w, start, m, owed, {h}) && h in m.requests && m.requests[h].deps == 0
    requires Readable(w, Own(m.requests, h)) && Complete(w, KnownTo(m), Own(m.requests, h))
    ensures Inv(w, start, AfterRecord(m, h, w.content(h)), owed + multiset(m.requests[h].parents), {})
  {
    hide StoreInv, ReqInv, Sane, Complete, Decodes, Queued;
    Pending(w, m.requests, KnownTo(m), owed, {h}, h);
    assert h !in KnownTo(m) && Own(m.requests, h) == Ref(h, m.roles[h]);
    hide Taken, Readable, RoleOf, Own;
    AppendKeeps(w, m.database, m.batch, m.order, m.roles, h);
    RemoveKeeps(w, m.requests, KnownTo(m), owed, h);
    RecordTakes(start, m, h, w.content(h));
  }

  lemma {:induction false} RecordTakes(start: Roles, m: Mem, h: Hash, data: Bytes)
    requires Taken(start, m) && Queued(m) && h in m.requests
    ensures Taken(start, AfterRecord(m, h, data)) && Queued(AfterRecord(m, h, data))
    ensures KnownTo(AfterRecord(m, h, data)) == KnownTo(m) + {h}
  {
    var m' := AfterRecord(m, h, data);
    assert KnownTo(m') == KnownTo(m) + {h} && m'.requests.Keys == m.requests.Keys - {h};
  }

  lemma {:induction false} InvFill(w: World, start: Roles, m: Mem, h: Hash)
    requires Inv(w, start, m, multiset{}, {}) && h in m.requests && m.requests[h].data.None? && !m.requests[h].raw
             && Decodes(w, h)
    ensures Inv(w, start, m.(requests := Filled(m.requests, h, w.content(h))), multiset{}, {h})
    ensures h !in KnownTo(m) && h in m.roles && m.roles[h] == RoleOf(m.requests[h])
  {
    hide StoreInv, ReqInv, Sane, Decodes, Queued;
    Pending(w, m.requests, KnownTo(m), multiset{}, {}, h);
    FillKeeps(w, m.requests, KnownTo(m), h);
    FilledIsAlike(m.requests, h, w.content(h));
    TakenAlike(start, m, Filled(m.requests, h, w.content(h)));
  }

  lemma {:induction false} InvOpen(w: World, start: Roles, m: Mem, h: Hash)
    requires Inv(w, start, m, multiset{}, {})
    ensures Inv(w, start, m, multiset{}, {h})
  {
    hide StoreInv, ReqInv, Sane, Queued, Taken;
    OpenKeeps(w, m.requests, KnownTo(m), h);
  }

  lemma {:induction false} InvClose(w: World, start: Roles, m: Mem, h: Hash)
    requires Inv(w, start, m, multiset{}, {h}) && h in m.requests
    requires Fails(w, Own(m.requests, h)) || Settled(w, m.requests, KnownTo(m), h)
    ensures Inv(w, start, m, multiset{}, {})
  {
    hide StoreInv, ReqInv, Sane, Queued, Taken, Fails, Settled;
    CloseKeeps(w, m.requests, KnownTo(m), h);
  }

  /** What is known of a pending request. */
  lemma {:induction false} InvPending(w: World, start: Roles, m: Mem, owed: multiset<Hash>, open: set<Hash>, h: Hash)
    requires Inv(w, start, m, owed, open) && h in m.requests
    ensures h != NO_PARENT && !(m.requests[h].raw && m.requests[h].callback)
            && (m.requests[h].raw ==> m.requests[h].data.None?)
    ensures h in KnownTo(m) ==> !m.requests[h].raw && !Decodes(w, h)
    ensures m.requests[h].deps >= 0 && (m.requests[h].data.None? ==> m.requests[h].deps == 0)
    ensures h in m.roles && (h !in KnownTo(m) ==> m.roles[h] == RoleOf(m.requests[h]))
  {
    hide StoreInv, ReqInv, Sane, Queued, Decodes;
    Pending(w, m.requests, KnownTo(m), owed, open, h);
  }

  lemma {:induction false} InvListed(w: World, start: Roles, m: Mem, h: Hash)
    requires Inv(w, start, m, multiset{}, {h}) && h in m.requests && m.requests[h].deps == 0
    requires forall c :: Needs(w, Own(m.requests, h), c) ==> Seen(m.requests, KnownTo(m), h, c)
    ensures Complete(w, KnownTo(m), Own(m.requests, h))
  {
    hide StoreInv, ReqInv, Sane, Queued, Taken, Needs, Seen, Complete;
    NothingListed(w, m.requests, KnownTo(m), h);
  }

  lemma {:induction false} InvFlush(w: World, start: Roles, m: Mem, n: nat)
    requires Inv(w, start, m, multiset{}, {}) && n <= |m.order|
    ensures forall h :: h in m.order ==> h in m.batch
    ensures var db := Flushed(m.database, m.batch, m.order, n);
            && Inv(w, start, m.(database := db), multiset{}, {}) && db.Keys + m.batch.Keys == KnownTo(m)
            && forall h :: h in db <==> h in m.database || h in m.order[..n]
  {
    hide ReqInv, Sane, Closed, Ordered;
    FlushKeeps(w, m.database, m.batch, m.order, m.roles, n);
    FlushedHolds(m.database, m.batch, m.order, n);
    var db := Flushed(m.database, m.batch, m.order, n);
    assert KnownTo(m.(database := db)) == KnownTo(m);
  }

  lemma {:induction false} InvClear(w: World, start: Roles, m: Mem)
    requires Inv(w, start, m, multiset{}, {})
    ensures Closed(w, m.database, m.roles)
    ensures (forall h :: h in m.order ==> h in m.database) ==>
              m.database.Keys == KnownTo(m) && Inv(w, start, m.(batch := map[], order := []), multiset{}, {})
  {
    hide ReqInv, Sane, Closed;
    if forall h :: h in m.order ==> h in m.database {
      assert KnownTo(m.(batch := map[], order := [])) == KnownTo(m);
    }
  }

  lemma {:induction false} InvHand(w: World, start: Roles, m: Mem, q: Entry)
    requires Inv(w, start, m, multiset{}, {}) && q in m.queue
    ensures Inv(w, start, m.(queue := m.queue - multiset{q}, handed := m.handed + {q.hash}), multiset{}, {})
  {
    hide ReqInv, Sane, StoreInv;
    var m' := m.(queue := m.queue - multiset{q}, handed := m.handed + {q.hash});
    assert KnownTo(m') == KnownTo(m);
    assert forall e :: e in m.queue ==> e == q || e in m'.queue;
  }

  lemma {:induction false} InvStart(w: World, start: Roles, database: map<Hash, Bytes>)
    requires Sane(w) && Closed(w, database, start) && start.Keys == database.Keys
    ensures Inv(w, start, Mem(database, map[], [], map[], multiset{}, {}, start), multiset{}, {})
  {
    hide Closed, ReqInv;
    NothingPending(w, database.Keys);
    assert KnownTo(Mem(database, map[], [], map[], multiset{}, {}, start)) == database.Keys;
  }

  class Sync {
    const w: World
    ghost const root: Hash
    ghost const start: Roles
    var database: map<Hash, Bytes>
    var batch: map<Hash, Bytes>
    var order: seq<Hash>
    var requests: Requests
    var queue: multiset<Entry>
    ghost var handed: set<Hash>
    ghost var roles: Roles

    ghost function Known(): set<Hash>
      reads this
    {
      database.Keys + batch.Keys
    }

    /** Stored, or kept until what it needs is stored. */
    ghost function Held(): set<Hash>
      reads this
    {
      Known() + Answered(requests)
    }

    ghost function Now(): Mem
      reads this
    {
      Mem(database, batch, order, requests, queue, handed, roles)
    }

    ghost predicate Valid()
      reads this
    {
      ValidWith(multiset{}, {}) && Grounded(w, root, start, roles)
    }

    ghost predicate ValidWith(owed: multiset<Hash>, open: set<Hash>)
      reads this
    {
      Inv(w, start, Now(), owed, open)
    }

    /** Starts downloading a trie into a database that holds what its entries need in the roles they were stored in. */
    constructor (root: Hash, database: map<Hash, Bytes>, ghost start: Roles, w: World)
      requires Sane(w) && Closed(w, database, start) && start.Keys == database.Keys && root != NO_PARENT
      ensures Valid() && this.w == w && this.root == root && this.start == start
      ensures this.database == database && batch == map[] && order == [] && Held() == database.Keys
      ensures root != EMPTY_ROOT ==> root in roles
      ensures requests.Keys == if root == EMPTY_ROOT || (root in database && Decodes(w, root)) then {} else {root}
      ensures root != EMPTY_ROOT && root !in database ==> roles[root] == State
    {
      this.w, this.database := w, database;
      this.root, this.start := root, start;
      batch, order, requests, queue, handed, roles := map[], [], map[], multiset{}, {}, start;
      new;
      hide Inv, Closed, Decodes, Grounded, Sane;
      InvStart(w, start, database);
      AddSubTrie(root, 0, NO_PARENT, true);
      RootIsGrounded(w, root, start, roles);
    }

    /** Adds a request, or only its parents when the hash is already being requested. */
    method Schedule(c: Hash, r: Request, ghost owed: multiset<Hash>, ghost open: set<Hash>)
      requires ValidWith(owed, open) && multiset(r.parents) <= owed
      requires Askable(w, Known(), c, r.raw) && c !in batch && Fresh(r)
      requires forall p :: p in r.parents ==> p in requests && Needs(w, Own(requests, p), c)
      modifies this`requests, this`queue, this`roles
      ensures ValidWith(owed - multiset(r.parents), open) && requests == Scheduled(old(requests), c, r)
      ensures roles == if c in old(roles) then old(roles) else old(roles)[c := RoleOf(r)]
    {
      hide Inv, Needs, RoleOf, Askable, AfterSchedule, Scheduled;
      InvSchedule(w, start, Now(), owed, open, c, r);
      ScheduleIs(Now(), c, r);
      roles := if c in roles then roles else roles[c := RoleOf(r)];
      if c in requests {
        requests := requests[c := requests[c].(parents := requests[c].parents + r.parents)];
        return;
      }
      queue := queue + multiset{Entry(c, r.depth)};
      requests := requests[c := r];
    }

    /** Completes a request and notifies its parents, completing those that waited for it alone. */
    method CommitRequest(h: Hash, data: Bytes, ghost owed: multiset<Hash>)
      requires ValidWith(owed, {h}) && h in requests && requests[h].deps == 0
      requires data == w.content(h) && Readable(w, Own(requests, h)) && Complete(w, Known(), Own(requests, h))
      modifies this`requests, this`batch, this`order
      ensures ValidWith(owed, {}) && requests.Keys <= old(requests.Keys) - {h}
      ensures old(Known()) + {h} <= Known() && Held() == old(Held()) + {h} && old(batch.Keys) + {h} <= batch.Keys
      ensures |order| > old(|order|)
      decreases requests.Keys, 0
    {
      hide ValidWith, Readable, Complete, Held, Known, Own;
      var parents := requests[h].parents;
      Record(h, data, owed);
      var i := 0;
      assert parents[0..] == parents;
      while i < |parents|
        invariant 0 <= i <= |parents|
        invariant ValidWith(owed + multiset(parents[i..]), {}) && requests.Keys <= old(requests.Keys) - {h}
        invariant old(Known()) + {h} <= Known() && Held() == old(Held()) + {h} && old(batch.Keys) + {h} <= batch.Keys
        invariant |order| > old(|order|)
      {
        var p := parents[i];
        assert parents[i..] == [p] + parents[i + 1..];
        assert owed + multiset(parents[i..]) == owed + multiset(parents[i + 1..]) + multiset{p};
        Notify(p, owed + multiset(parents[i + 1..]));
        i := i + 1;
      }
      assert owed + multiset(parents[i..]) == owed;
    }

    /** Moves a request's data to the batch. */
    method Record(h: Hash, data: Bytes, ghost owed: multiset<Hash>)
      requires ValidWith(owed, {h}) && h in requests && requests[h].deps == 0
      requires data == w.content(h) && Readable(w, Own(requests, h)) && Complete(w, Known(), Own(requests, h))
      modifies this`requests, this`batch, this`order
      ensures ValidWith(owed + multiset(old(requests)[h].parents), {})
      ensures requests == old(requests) - {h} && batch.Keys == old(batch.Keys) + {h} && order == old(order) + [h]
      ensures Known() == old(Known()) + {h} && Held() == old(Held()) + {h}
    {
      hide Inv, Complete, Readable, Own;
      InvRecord(w, start, Now(), owed, h);
      batch, order := batch[h := data], order + [h];
      requests := requests - {h};
      assert Known() == old(Known()) + {h};
    }

    /** Takes one dependency off a request. */
    method Notify(p: Hash, ghost owed: multiset<Hash>)
      requires ValidWith(owed + multiset{p}, {})
      modifies this`requests, this`batch, this`order
      ensures ValidWith(owed, {}) && requests.Keys <= old(requests.Keys)
      ensures old(Known()) <= Known() && Held() == old(Held()) && old(batch.Keys) <= batch.Keys
      ensures |order| >= old(|order|)
      decreases requests.Keys, 1
    {
      hide Inv, Complete, RoleOf;
      InvNotify(w, start, Now(), owed, p);
      requests := Bumped(requests, p, -1);
      SameRole(old(requests), requests, p);
      assert Answered(requests) == Answered(old(requests));
      if requests[p].deps == 0 {
        CommitRequest(p, requests[p].data.value, owed);
      }
    }

    /** Requests an entry on behalf of a parent being processed, which then waits for it. */
    method Link(c: Hash, raw: bool, callback: bool, depth: nat, parent: Hash)
      requires ValidWith(multiset{}, Opened(parent)) && Askable(w, Known(), c, raw) && c !in batch && !(raw && callback)
      requires parent != NO_PARENT ==> Parental(parent, c)
      modifies this`requests, this`queue, this`roles
      ensures ValidWith(multiset{}, Opened(parent)) && NewAreEmpty(old(requests), requests)
      ensures c in requests && (parent != NO_PARENT ==> parent in requests[c].parents)
      ensures requests.Keys == old(requests.Keys) + {c}
      ensures roles == if c in old(roles) then old(roles)
              else old(roles)[c := RoleOf(Request(None, raw, callback, [], depth, 0))]
    {
      hide ValidWith, Askable, NewAreEmpty, Scheduled;
      if parent == NO_PARENT {
        var parents: seq<Hash> := [];
        ScheduledIsGrown(requests, c, Request(None, raw, callback, parents, depth, 0));
        assert multiset{} - multiset(parents) == multiset{};
        Schedule(c, Request(None, raw, callback, parents, depth, 0), multiset{}, {});
        return;
      }
      LinkTo(c, raw, callback, depth, parent);
    }

    method LinkTo(c: Hash, raw: bool, callback: bool, depth: nat, parent: Hash)
      requires ValidWith(multiset{}, {parent}) && Askable(w, Known(), c, raw) && c !in batch && !(raw && callback)
      requires parent != NO_PARENT && Parental(parent, c)
      modifies this`requests, this`queue, this`roles
      ensures ValidWith(multiset{}, {parent}) && NewAreEmpty(old(requests), requests)
      ensures c in requests && parent in requests[c].parents && requests.Keys == old(requests.Keys) + {c}
      ensures roles == if c in old(roles) then old(roles)
              else old(roles)[c := RoleOf(Request(None, raw, callback, [parent], depth, 0))]
    {
      hide Inv, Fails, Needs, Askable, RoleOf, NewAreEmpty, Scheduled;
      InvOwe(w, start, Now(), {parent}, parent, 1);
      requests := Bumped(requests, parent, 1);
      SameRole(old(requests), requests, parent);
      ghost var bumped := requests;
      BumpedIsGrown(old(requests), parent, 1);
      assert multiset{}[parent := 1] == multiset([parent]) && multiset([parent]) - multiset([parent]) == multiset{};
      Schedule(c, Request(None, raw, callback, [parent], depth, 0), multiset([parent]), {parent});
      ScheduledIsGrown(bumped, c, Request(None, raw, callback, [parent], depth, 0));
      GrownMore(old(requests), bumped, requests);
    }

    ghost function Opened(parent: Hash): set<Hash> {
      if parent == NO_PARENT then {} else {parent}
    }

    /** A request being processed that needs c. */
    ghost predicate Parental(parent: Hash, c: Hash)
      reads this
    {
      && parent in requests && requests[parent].data.Some? && !Fails(w, Own(requests, parent))
      && Needs(w, Own(requests, parent), c)
    }

    lemma {:induction false} StoredIsContent()
      requires exists owed, open :: ValidWith(owed, open)
      ensures forall h :: h in database ==> database[h] == w.content(h)
      ensures roles.Keys == Known() + requests.Keys
    {
      hide ReqInv, Sane;
    }

    /** Requests a trie by its root unless it is empty or known. */
    method AddSubTrie(root: Hash, depth: nat, parent: Hash, callback: bool)
      requires ValidWith(multiset{}, Opened(parent)) && root != NO_PARENT
      requires parent != NO_PARENT && root != EMPTY_ROOT ==> Parental(parent, root)
      modifies this`requests, this`queue, this`roles
      ensures ValidWith(multiset{}, Opened(parent)) && NewAreEmpty(old(requests), requests)
      ensures root != EMPTY_ROOT ==> root in roles && (parent != NO_PARENT ==> Seen(requests, Known(), parent, root))
      ensures var known := root in batch || (root in database && Decodes(w, root));
              requests.Keys == old(requests.Keys) + if root == EMPTY_ROOT || known then {} else {root}
      ensures roles == if root == EMPTY_ROOT || root in old(roles) then old(roles)
                       else old(roles)[root := if callback then State else Storage]
    {
      hide Inv;
      StoredIsContent();
      if root == EMPTY_ROOT {
        return;
      }
      if root in batch {
        return;
      }
      if root in database && w.decode(database[root]).Some? {
        return;
      }
      Link(root, false, callback, depth, parent);
    }

    /** Requests an entry that is stored as it is, unless it is empty or known. */
    method AddRawEntry(hash: Hash, depth: nat, parent: Hash)
      requires ValidWith(multiset{}, Opened(parent)) && hash != NO_PARENT
      requires parent != NO_PARENT && hash != EMPTY_STATE ==> Parental(parent, hash)
      modifies this`requests, this`queue, this`roles
      ensures ValidWith(multiset{}, Opened(parent)) && NewAreEmpty(old(requests), requests)
      ensures hash != EMPTY_STATE ==> hash in roles && (parent != NO_PARENT ==> Seen(requests, Known(), parent, hash))
      ensures roles == if hash == EMPTY_STATE || hash in old(roles) then old(roles) else old(roles)[hash := Raw]
    {
      hide Inv;
      StoredIsContent();
      if hash == EMPTY_STATE {
        return;
      }
      if hash in batch || hash in database {
        return;
      }
      Link(hash, true, false, depth, parent);
    }

    /** The leaf callback of the state download: an account needs its storage trie and its code. */
    method OnLeaf(value: Bytes, h: Hash, ghost i: nat) returns (ok: bool)
      requires ValidWith(multiset{}, {h}) && h in requests && requests[h].data.Some? && requests[h].callback
      requires i < |Children(w, h)| && Children(w, h)[i] == ValueChild(value)
      modifies this`requests, this`queue, this`roles
      ensures ValidWith(multiset{}, {h}) && NewAreEmpty(old(requests), requests)
      ensures AskedBy(w, old(Own(requests, h)), old(roles), roles)
      ensures ok == !BadLeaf(w, Children(w, h)[i])
      ensures ok ==> Handled(w, requests, Known(), Own(requests, h), [], Children(w, h)[i])
      ensures ok ==> LeafTaken(w, State, Children(w, h)[i], roles)
    {
      hide ValidWith, Refers, Needs, Grown, Fails, Seen, Sane;
      NothingNew(Own(requests, h));
      var account := w.account(value);
      if account.None? {
        return false;
      }
      ghost var p := Own(requests, h);
      AccountIsReferred(h, i, account.value);
      assert Opened(h) == {h};
      var a := account.value;
      AddSubTrie(a.root, 64, h, false);
      ghost var mid, reqs := roles, requests;
      OwnIsKept(old(requests), requests, h);
      if a.code != EMPTY_STATE && a.code !in roles {
        CodeIsFirst(w, p, i, a, roles);
      }
      AddRawEntry(a.code, 64, h);
      OwnIsKept(reqs, requests, h);
      GrownMore(old(requests), reqs, requests);
      if a.root != EMPTY_ROOT {
        StillSeen(reqs, requests, Known(), h, a.root);
      }
      return true;
    }

    lemma {:induction false} AccountIsReferred(h: Hash, i: nat, a: Account)
      requires ValidWith(multiset{}, {h}) && h in requests && requests[h].data.Some? && requests[h].callback
      requires i < |Children(w, h)| && Children(w, h)[i].ValueChild? && w.account(Children(w, h)[i].value) == Some(a)
      ensures h != NO_PARENT && a.root != NO_PARENT && a.code != NO_PARENT
      ensures Sane(w) && Own(requests, h).role == State
      ensures a.root != EMPTY_ROOT ==> Refers(w, Own(requests, h), Ref(a.root, Storage)) && Parental(h, a.root)
      ensures a.code != EMPTY_STATE ==> Refers(w, Own(requests, h), Ref(a.code, Raw)) && Parental(h, a.code)
    {
      hide StoreInv, ReqInv, Refers, Needs, Fails, Sane, Queued, Taken;
      InvPending(w, start, Now(), multiset{}, {h}, h);
      GoodLeaf(w, Own(requests, h), i);
      if a.root != EMPTY_ROOT {
        ChildIsReferred(w, Own(requests, h), i, Ref(a.root, Storage));
      }
      if a.code != EMPTY_STATE {
        ChildIsReferred(w, Own(requests, h), i, Ref(a.code, Raw));
      }
    }

    /** Goes through the children of a node being processed, calling back on a leaf and
        collecting the child nodes that are not known. */
    method ExamineChildren(h: Hash, children: seq<Child>) returns (ok: bool, found: seq<(Hash, nat)>)
      requires ValidWith(multiset{}, {h}) && h in requests && requests[h].data.Some? && !requests[h].raw
      requires children == Children(w, h)
      modifies this`requests, this`queue, this`roles
      ensures ValidWith(multiset{}, {h}) && NewAreEmpty(old(requests), requests)
      ensures AskedBy(w, old(Own(requests, h)), old(roles), roles)
      ensures ok == !Fails(w, old(Own(requests, h)))
      ensures forall k :: 0 <= k < |found| ==> Wanted(found[k].0, old(Own(requests, h)))
      ensures ok ==> forall j :: 0 <= j < |children| ==>
              Handled(w, requests, Known(), old(Own(requests, h)), found, children[j])
      ensures ok ==> LeavesTaken(w, old(Own(requests, h)), roles)
    {
      hide Handled, BadLeaf, ChildRefs, ValidWith, Grown, Refers, RoleOf, RefersFirst, LeavesTaken, LeafTaken;
      ghost var p := Own(requests, h);
      ok, found := true, [];
      var i := 0;
      NothingNew(p);
      while i < |children|
        invariant 0 <= i <= |children| && ok
        invariant ValidWith(multiset{}, {h}) && NewAreEmpty(old(requests), requests) && AskedBy(w, p, old(roles), roles)
        invariant h in requests && requests[h].data.Some? && !requests[h].raw && Own(requests, h) == p
        invariant forall k :: 0 <= k < |found| ==> Wanted(found[k].0, p)
        invariant forall j :: 0 <= j < i ==> Handled(w, requests, Known(), p, found, children[j])
        invariant forall j :: 0 <= j < i ==> LeafTaken(w, p.role, children[j], roles)
        invariant p.role == State ==> forall j :: 0 <= j < i ==> !BadLeaf(w, children[j])
      {
        ghost var reqs, before, taken := requests, found, roles;
        ok, found := ExamineChild(h, i, children[i], found);
        OwnIsKept(reqs, requests, h);
        GrownMore(old(requests), reqs, requests);
        AskedMore(w, p, old(roles), taken, roles);
        if !ok {
          return;
        }
        forall j | 0 <= j < i
          ensures Handled(w, requests, Known(), p, found, children[j])
        {
          StillHandled(w, reqs, requests, Known(), p, before, found, children[j]);
        }
        forall j | 0 <= j < i
          ensures LeafTaken(w, p.role, children[j], roles)
        {
          LeafStaysTaken(w, p.role, children[j], taken, roles);
        }
        i := i + 1;
      }
      AllLeavesTaken(w, p, roles);
    }

    lemma {:induction false} NothingNew(p: Ref)
      ensures NewAreEmpty(requests, requests) && AskedBy(w, p, roles, roles)
    {
    }

    /** An unknown node of the same trie. */
    ghost predicate Wanted(c: Hash, p: Ref)
      reads this
    {
      c !in Known() && c != NO_PARENT && Refers(w, p, Ref(c, p.role))
    }

    method ExamineChild(h: Hash, i: nat, child: Child, found: seq<(Hash, nat)>)
      returns (ok: bool, found': seq<(Hash, nat)>)
      requires ValidWith(multiset{}, {h}) && h in requests && requests[h].data.Some? && !requests[h].raw
      requires i < |Children(w, h)| && child == Children(w, h)[i]
      requires forall k :: 0 <= k < |found| ==> Wanted(found[k].0, Own(requests, h))
      modifies this`requests, this`queue, this`roles
      ensures ValidWith(multiset{}, {h}) && NewAreEmpty(old(requests), requests) && found <= found'
      ensures AskedBy(w, old(Own(requests, h)), old(roles), roles)
      ensures ok == !(old(Own(requests, h)).role == State && BadLeaf(w, child))
      ensures forall k :: 0 <= k < |found'| ==> Wanted(found'[k].0, old(Own(requests, h)))
      ensures ok ==> Handled(w, requests, Known(), old(Own(requests, h)), found', child)
      ensures ok ==> LeafTaken(w, old(Own(requests, h)).role, child, roles)
    {
      hide ValidWith, Grown, Refers, LeafRefs, Children, Seen, RefersFirst;
      ok, found' := true, found;
      ghost var p := Own(requests, h);
      NothingNew(p);
      match child
      case Embedded =>
      case ValueChild(value) =>
        if requests[h].callback {
          ok := OnLeaf(value, h, i);
          OwnIsKept(old(requests), requests, h);
          if ok {
            NothingNew(p);
            StillHandled(w, requests, requests, Known(), p, [], found, child);
          }
        }
      case HashChild(hash, down) =>
        if hash !in batch && hash !in database {
          NodeIsReferred(h, i, hash);
          found' := found + [(hash, requests[h].depth + down)];
          assert found'[|found|].0 == hash;
        } else {
          assert Seen(requests, Known(), h, hash) by { KnownIsSeen(h, hash); }
        }
    }

    lemma {:induction false} KnownIsSeen(h: Hash, c: Hash)
      requires c in Known()
      ensures Seen(requests, Known(), h, c)
    {
    }

    lemma {:induction false} NodeIsReferred(h: Hash, i: nat, c: Hash)
      requires ValidWith(multiset{}, {h}) && h in requests && !requests[h].raw
      requires i < |Children(w, h)| && Children(w, h)[i].HashChild? && Children(w, h)[i].hash == c
      ensures c != NO_PARENT && Refers(w, Own(requests, h), Ref(c, RoleOf(requests[h])))
    {
      hide StoreInv, ReqInv, Refers, Sane, Queued, Taken;
      ChildIsReferred(w, Own(requests, h), i, Ref(c, RoleOf(requests[h])));
    }

    /** Requests the child nodes found, which the node then waits for. */
    method ScheduleFound(h: Hash, found: seq<(Hash, nat)>)
      requires ValidWith(multiset{}, {h}) && h in requests && requests[h].data.Some? && !requests[h].raw
      requires !Fails(w, Own(requests, h)) && (|found| > 0 || requests[h].deps > 0)
      requires forall k :: 0 <= k < |found| ==> Wanted(found[k].0, Own(requests, h))
      requires forall j :: 0 <= j < |Children(w, h)| ==>
                 Handled(w, requests, Known(), Own(requests, h), found, Children(w, h)[j])
      requires LeavesTaken(w, Own(requests, h), roles)
      modifies this`requests, this`queue, this`roles
      ensures ValidWith(multiset{}, {}) && NewAreEmpty(old(requests), requests)
      ensures AskedBy(w, old(Own(requests, h)), old(roles), roles)
      ensures forall c :: Needs(w, old(Own(requests, h)), c) ==> Seen(requests, Known(), h, c)
    {
      hide Inv, Handled, Fails, Refers, Needs, Seen, RoleOf, Grown, RefersFirst, LeavesTaken;
      ghost var p := Own(requests, h);
      InvPending(w, start, Now(), multiset{}, {h}, h);
      InvOwe(w, start, Now(), {h}, h, |found|);
      requests := Bumped(requests, h, |found|);
      ghost var bumped := requests;
      SameRole(old(requests), requests, h);
      BumpedIsGrown(old(requests), h, |found|);
      ScheduleAll(h, found, requests[h].callback);
      GrownMore(old(requests), bumped, requests);
      OwnIsKept(bumped, requests, h);
      AllSeen(w, old(requests), requests, Known(), p, found);
      InvClose(w, start, Now(), h);
    }

    method ScheduleAll(h: Hash, found: seq<(Hash, nat)>, callback: bool)
      requires ValidWith(multiset{}[h := |found|], {h}) && h in requests && !requests[h].raw
               && callback == requests[h].callback && LeavesTaken(w, Own(requests, h), roles)
      requires forall k :: 0 <= k < |found| ==> Wanted(found[k].0, Own(requests, h))
      modifies this`requests, this`queue, this`roles
      ensures ValidWith(multiset{}, {h}) && NewAreEmpty(old(requests), requests)
              && requests[h].deps == old(requests[h].deps)
      ensures AskedBy(w, old(Own(requests, h)), old(roles), roles)
      ensures forall k :: 0 <= k < |found| ==> Seen(requests, Known(), h, found[k].0)
    {
      hide ValidWith, Seen, Grown, Refers, RoleOf, RefersFirst, LeavesTaken;
      ghost var p := Own(requests, h);
      NothingNew(p);
      var k := 0;
      while k < |found|
        invariant 0 <= k <= |found|
        invariant ValidWith(multiset{}[h := |found| - k], {h}) && NewAreEmpty(old(requests), requests)
        invariant AskedBy(w, p, old(roles), roles) && LeavesTaken(w, p, roles)
        invariant h in requests && !requests[h].raw && callback == requests[h].callback && Own(requests, h) == p
        invariant requests[h].deps == old(requests[h].deps)
        invariant forall j :: 0 <= j < k ==> Seen(requests, Known(), h, found[j].0)
      {
        ghost var reqs, taken := requests, roles;
        ScheduleOne(h, found[k].0, found[k].1, callback, |found| - k);
        OwnIsKept(reqs, requests, h);
        GrownMore(old(requests), reqs, requests);
        AskedMore(w, p, old(roles), taken, roles);
        LeavesStayTaken(w, p, taken, roles);
        forall j | 0 <= j < k
          ensures Seen(requests, Known(), h, found[j].0)
        {
          StillSeen(reqs, requests, Known(), h, found[j].0);
        }
        k := k + 1;
      }
      assert multiset{}[h := 0] == multiset{};
    }

    lemma {:induction false} NodeIsAskable(h: Hash, c: Hash)
      requires h in requests && Wanted(c, Own(requests, h))
      ensures Askable(w, Known(), c, false) && Needs(w, Own(requests, h), c)
    {
      hide Refers;
    }

    method ScheduleOne(h: Hash, c: Hash, depth: nat, callback: bool, ghost n: nat)
      requires n > 0 && ValidWith(multiset{}[h := n], {h}) && h in requests && !requests[h].raw
               && callback == requests[h].callback
      requires Wanted(c, Own(requests, h)) && LeavesTaken(w, Own(requests, h), roles)
      modifies this`requests, this`queue, this`roles
      ensures ValidWith(multiset{}[h := n - 1], {h}) && NewAreEmpty(old(requests), requests)
              && Seen(requests, Known(), h, c)
      ensures AskedBy(w, old(Own(requests, h)), old(roles), roles)
      ensures requests[h].deps == old(requests[h].deps)
    {
      hide Inv, Refers, NewAreEmpty, Scheduled, RefersFirst, LeavesTaken;
      NodeIsAskable(h, c);
      if c !in roles {
        NodeIsFirst(w, Own(requests, h), roles, c);
      }
      ScheduledIsGrown(requests, c, Request(None, false, callback, [h], depth, 0));
      ghost var owed := multiset{}[h := n];
      assert owed - multiset([h]) == multiset{}[h := n - 1];
      Schedule(c, Request(None, false, callback, [h], depth, 0), owed, {h});
    }

    /** Takes the data of a requested trie node. */
    method ProcessNode(h: Hash, data: Bytes) returns (outcome: Outcome, committed: bool)
      requires Valid() && h in requests && requests[h].data.None? && !requests[h].raw && data == w.content(h)
      modifies this`requests, this`queue, this`roles, this`batch, this`order
      ensures Valid() && old(Known()) <= Known() && AskedBy(w, old(Own(requests, h)), old(roles), roles)
      ensures outcome == if w.decode(data).None? then Undecodable
                         else if Fails(w, old(Own(requests, h))) then CallbackFailed else Accepted
      ensures Held() == if outcome == Undecodable then old(Held()) else old(Held()) + {h}
      ensures outcome == Accepted ==> forall c :: Needs(w, old(Own(requests, h)), c) ==> c in roles
      ensures committed <==> |order| > old(|order|)
      ensures if committed then outcome == Accepted && h in batch else order == old(order)
      ensures outcome == Undecodable ==> requests == old(requests) && roles == old(roles)
    {
      hide Inv, Fails, Refers, Needs, Grounded, RoleOf, RefersFirst;
      ghost var p := Own(requests, h);
      NothingNew(p);
      StartIsKnown();
      var children := w.decode(data);
      if children.None? {
        return Undecodable, false;
      }
      InvFill(w, start, Now(), h);
      requests := Filled(requests, h, data);
      SameRole(old(requests), requests, h);
      assert Answered(requests) == Answered(old(requests)) + {h};
      outcome, committed := Expand(h, data, children.value);
      AskKeepsGround(w, root, start, old(roles), roles, h);
    }

    lemma {:induction false} StartIsKnown()
      requires exists owed, open :: ValidWith(owed, open)
      ensures start.Keys <= Known()
    {
      hide ReqInv, Sane, StoreInv;
    }

    /** Asks for what a node just received needs, and completes the node if it needs nothing more. */
    method Expand(h: Hash, data: Bytes, children: seq<Child>) returns (outcome: Outcome, committed: bool)
      requires ValidWith(multiset{}, {h}) && h in requests && requests[h].data == Some(data) && !requests[h].raw
      requires data == w.content(h) && Decodes(w, h) && children == Children(w, h)
      modifies this`requests, this`queue, this`roles, this`batch, this`order
      ensures ValidWith(multiset{}, {}) && old(Known()) <= Known() && Held() == old(Held())
      ensures AskedBy(w, old(Own(requests, h)), old(roles), roles)
      ensures outcome == if Fails(w, old(Own(requests, h))) then CallbackFailed else Accepted
      ensures outcome == Accepted ==> forall c :: Needs(w, old(Own(requests, h)), c) ==> c in roles
      ensures committed <==> |order| > old(|order|)
      ensures if committed then outcome == Accepted && h in batch else order == old(order)
    {
      hide Inv, Handled, Fails, Refers, Needs, Seen, Grown, RoleOf, Complete, RefersFirst, LeavesTaken;
      ghost var p := Own(requests, h);
      var ok, found := ExamineChildren(h, children);
      OwnIsKept(old(requests), requests, h);
      AnsweredKept(old(requests), requests);
      ghost var mid, asked := requests, roles;
      InvPending(w, start, Now(), multiset{}, {h}, h);
      if !ok {
        InvClose(w, start, Now(), h);
        return CallbackFailed, false;
      }
      if |found| == 0 && requests[h].deps == 0 {
        NothingNew(p);
        AllSeen(w, requests, requests, Known(), p, found);
        SeenIsTaken(p);
        InvListed(w, start, Now(), h);
        CommitRequest(h, data, multiset{});
        return Accepted, true;
      }
      ScheduleFound(h, found);
      AnsweredKept(mid, requests);
      AskedMore(w, p, old(roles), asked, roles);
      SeenIsTaken(p);
      return Accepted, false;
    }

    lemma {:induction false} SeenIsTaken(p: Ref)
      requires exists owed, open :: ValidWith(owed, open)
      requires forall c :: Needs(w, p, c) ==> Seen(requests, Known(), p.hash, c)
      ensures forall c :: Needs(w, p, c) ==> c in roles
    {
      hide Needs, ReqInv, Sane, StoreInv;
    }

    /** Takes one piece of data. */
    method ProcessItem(h: Hash, data: Bytes) returns (outcome: Outcome, committed: bool)
      requires Valid() && data == w.content(h)
      modifies this`requests, this`queue, this`roles, this`batch, this`order
      ensures Valid() && old(Known()) <= Known()
      ensures outcome == NotRequested <==> h !in old(requests)
      ensures outcome == AlreadyProcessed <==> h in old(requests) && old(requests)[h].data.Some?
      ensures h in old(requests) && old(requests)[h].data.None? ==>
              outcome == if old(requests)[h].raw then Accepted else if w.decode(data).None? then Undecodable
                         else if Fails(w, old(Own(requests, h))) then CallbackFailed else Accepted
      ensures outcome in {NotRequested, AlreadyProcessed, Undecodable} ==>
              requests == old(requests) && roles == old(roles)
      ensures Held() == if outcome in {Accepted, CallbackFailed} then old(Held()) + {h} else old(Held())
      ensures if h in old(requests) then AskedBy(w, old(Own(requests, h)), old(roles), roles) else roles == old(roles)
      ensures outcome == Accepted ==> forall c :: Needs(w, old(Own(requests, h)), c) ==> c in roles
      ensures committed <==> |order| > old(|order|)
      ensures if committed then outcome == Accepted && h in batch else order == old(order)
    {
      hide Inv, Fails, Grounded, Refers, RefersFirst;
      if h !in requests {
        return NotRequested, false;
      }
      NothingNew(Own(requests, h));
      if requests[h].data.Some? {
        return AlreadyProcessed, false;
      }
      InvPending(w, start, Now(), multiset{}, {}, h);
      if requests[h].raw {
        InvOpen(w, start, Now(), h);
        RawNeedsNothing(h);
        CommitRequest(h, data, multiset{});
        return Accepted, true;
      }
      outcome, committed := ProcessNode(h, data);
    }

    lemma {:induction false} RawNeedsNothing(h: Hash)
      ensures forall c :: !Needs(w, Ref(h, Raw), c)
    {
    }

    /** Takes downloaded data in turn, up to the first item that is not accepted. */
    method Process(items: seq<(Hash, Bytes)>) returns (committed: bool, index: nat, outcome: Outcome)
      requires Valid() && forall i :: 0 <= i < |items| ==> items[i].1 == w.content(items[i].0)
      modifies this`requests, this`queue, this`roles, this`batch, this`order
      ensures Valid() && old(Known()) <= Known() && Extends(old(roles), roles)
      ensures outcome == Accepted ==> index == 0 && Held() == old(Held()) + HashesOf(items, |items|)
      ensures outcome != Accepted ==> index < |items|
      ensures outcome !in {Accepted, CallbackFailed} ==> Held() == old(Held()) + HashesOf(items, index)
      ensures outcome == CallbackFailed ==> Held() == old(Held()) + HashesOf(items, index + 1)
      ensures outcome == NotRequested ==> items[index].0 !in requests
      ensures outcome == AlreadyProcessed ==> items[index].0 in requests && requests[items[index].0].data.Some?
      ensures committed <==> |order| > old(|order|)
    {
      hide Valid, Held, Known, Fails, Needs, Refers, Own, Answered, HashesOf;
      committed, outcome := false, Accepted;
      var i := 0;
      NoHashes(items);
      while i < |items|
        invariant 0 <= i <= |items| && outcome == Accepted
        invariant Valid() && old(Known()) <= Known() && Extends(old(roles), roles)
        invariant Held() == old(Held()) + HashesOf(items, i)
        invariant |order| >= old(|order|) && (committed <==> |order| > old(|order|))
      {
        var done;
        outcome, done := ProcessItem(items[i].0, items[i].1);
        OneMoreHash(items, i);
        if outcome != Accepted {
          return committed, i, outcome;
        }
        committed := committed || done;
        i := i + 1;
      }
      index := 0;
    }

    /** Writes what has been downloaded, in order, until done or a write fails. */
    method WriteItems(failAt: nat) returns (written: nat)
      requires Valid()
      modifies this`database
      ensures Valid() && Known() == old(Known())
      ensures written == if failAt < |order| then failAt else |order|
      ensures forall h :: h in database <==> h in old(database) || h in order[..written]
    {
      hide Inv, Grounded;
      InvFlush(w, start, Now(), 0);
      written := 0;
      while written < |order|
        invariant 0 <= written <= |order| && written <= failAt
        invariant database == Flushed(old(database), batch, order, written)
      {
        if written == failAt {
          break;
        }
        database := database[order[written] := batch[order[written]]];
        written := written + 1;
      }
      InvFlush(w, start, old(Now()), written);
    }

    /** Moves what has been downloaded to the database. If a write fails all of it is kept, and the
        database still holds what its entries need. */
    method Flush(failAt: nat) returns (written: nat, ok: bool)
      requires Valid()
      modifies this`database, this`batch, this`order
      ensures Valid() && Closed(w, database, roles) && Known() == old(Known())
      ensures ok == (failAt >= old(|order|)) && written == if ok then old(|order|) else failAt
      ensures forall h :: h in database <==> h in old(database) || h in old(order)[..written]
      ensures if ok then order == [] && batch == map[] else order == old(order) && batch == old(batch)
    {
      hide Inv, Closed, Grounded;
      written := WriteItems(failAt);
      ok := written == |order|;
      InvClear(w, start, Now());
      if ok {
        assert order[..written] == order;
        batch, order := map[], [];
        assert Known() == old(Known());
      }
    }

    /** Takes an entry of greatest depth from the queue. */
    method PopItem() returns (q: Entry)
      requires Valid() && queue != multiset{}
      modifies this`queue, this`handed
      ensures Valid() && q in old(queue) && NoneDeeper(old(queue), q.depth) && queue == old(queue) - multiset{q}
    {
      hide Inv, Grounded, NoneDeeper;
      ghost var d := Deepest(queue);
      q :| q in queue && NoneDeeper(queue, q.depth);
      InvHand(w, start, Now(), q);
      queue := queue - multiset{q};
      handed := handed + {q.hash};
    }

    /** Hands out the hashes of queue entries, deepest first, at most max of them unless max is zero. */
    method Missing(max: nat) returns (hashes: seq<Hash>, ghost popped: seq<Entry>)
      requires Valid()
      modifies this`queue, this`handed
      ensures Valid() && |popped| == |hashes| && forall i :: 0 <= i < |hashes| ==> hashes[i] == popped[i].hash
      ensures Popped(old(queue), queue, popped)
      ensures if max == 0 then queue == multiset{} else |hashes| <= max && (|hashes| < max ==> queue == multiset{})
    {
      hide Inv, Grounded, NoneDeeper;
      hashes, popped := [], [];
      while queue != multiset{} && (max == 0 || |hashes| < max)
        invariant Valid() && |popped| == |hashes| && forall i :: 0 <= i < |hashes| ==> hashes[i] == popped[i].hash
        invariant Popped(old(queue), queue, popped) && (max == 0 || |hashes| <= max)
        decreases |queue|
      {
        ghost var before := queue;
        var q := PopItem();
        PopOne(old(queue), before, popped, q);
        hashes, popped := hashes + [q.hash], popped + [q];
      }
    }
  }
}
