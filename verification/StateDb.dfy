/** The state database: accounts cached over the account trie, changed in place under a journal.
    What readers see of it follows the journal machine step by step. */
module StateDb {
  import opened Bytes
  import opened Journal

  const RIPEMD: Address := 3

  /** An account as the account trie stores it; the storage trie is given by its contents. */
  datatype Data = Data(
    nonce: nat, balance: Amount,
    locked: Amount, lockedAt: Amount, unlocked: Option<Amount>, unlockedAt: Option<Amount>,
    root: Storage, codeHash: Hash)

  /** A live account: its data, the code and slots loaded or changed, and flags. */
  datatype Object = Object(
    data: Data, code: Option<Bytes>, cached: map<Hash, Hash>, dirty: map<Hash, Hash>,
    dirtyCode: bool, suicided: bool, deleted: bool)

  function NewObject(data: Data): Object {
    Object(data, None, map[], map[], false, false, false)
  }

  const FRESH := Data(0, 0, 0, 0, None, None, map[], EMPTY_CODE)

  /** Code by its hash, as the database holds it. */
  type Codes = Hash -> Bytes

  // ---- reading ----

  function Value(root: Storage, cached: map<Hash, Hash>, k: Hash): Hash {
    if k in cached then cached[k] else Slot(root, k)
  }

  function Slots(root: Storage, cached: map<Hash, Hash>): Storage {
    map k | k in root.Keys + cached.Keys && Value(root, cached, k) != ZERO :: Value(root, cached, k)
  }

  function CodeOf(codes: Codes, code: Option<Bytes>, codeHash: Hash): Bytes {
    if code.Some? then code.value else if codeHash == EMPTY_CODE then [] else codes(codeHash)
  }

  function View(codes: Codes, o: Object): Account {
    Account(o.data.nonce, o.data.balance, o.data.locked, o.data.lockedAt, o.data.unlocked, o.data.unlockedAt,
            o.data.codeHash, CodeOf(codes, o.code, o.data.codeHash), Slots(o.data.root, o.cached), o.suicided)
  }

  predicate Live(trie: map<Address, Data>, objects: map<Address, Object>, a: Address) {
    if a in objects then !objects[a].deleted else a in trie
  }

  function Current(trie: map<Address, Data>, objects: map<Address, Object>, a: Address): Object
    requires Live(trie, objects, a)
  {
    if a in objects then objects[a] else NewObject(trie[a])
  }

  /** What readers see: the live object, or else what the trie holds. */
  function Accounts(codes: Codes, trie: map<Address, Data>, objects: map<Address, Object>): map<Address, Account> {
    map a | a in trie.Keys + objects.Keys && Live(trie, objects, a) :: View(codes, Current(trie, objects, a))
  }

  lemma {:induction false} PutAccount(codes: Codes, trie: map<Address, Data>, objects: map<Address, Object>, a: Address,
                                      o: Object)
    requires !o.deleted
    ensures Accounts(codes, trie, objects[a := o]) == Accounts(codes, trie, objects)[a := View(codes, o)]
  {
    hide View;
  }

  /** What readers see of one address. */
  lemma {:induction false} Reading(codes: Codes, trie: map<Address, Data>, objects: map<Address, Object>, a: Address)
    ensures a in Accounts(codes, trie, objects) <==> Live(trie, objects, a)
    ensures Live(trie, objects, a) ==> Accounts(codes, trie, objects)[a] == View(codes, Current(trie, objects, a))
  {
    hide View;
  }

  lemma {:induction false} DropAccount(codes: Codes, trie: map<Address, Data>, objects: map<Address, Object>,
                                       a: Address)
    requires a !in trie
    ensures Accounts(codes, trie, objects - {a}) == Accounts(codes, trie, objects) - {a}
  {
    hide View;
  }

  lemma {:induction false} SetSlot(root: Storage, cached: map<Hash, Hash>, k: Hash, v: Hash)
    ensures Slots(root, cached[k := v]) == PutSlot(Slots(root, cached), k, v)
    ensures Slot(Slots(root, cached), k) == Value(root, cached, k)
  {
    hide Slots, Value, PutSlot, Slot;
    var before, after := Slots(root, cached), Slots(root, cached[k := v]);
    forall x: Hash
      ensures Slot(after, x) == Slot(PutSlot(before, k, v), x)
    {
      SlotOfSlots(root, cached[k := v], x);
      SlotOfSlots(root, cached, x);
      ValueAfter(root, cached, k, v, x);
      SlotAfter(before, k, v, x);
    }
    SlotOfSlots(root, cached, k);
    SameSlots(after, PutSlot(before, k, v));
  }

  lemma {:induction false} SlotOfSlots(root: Storage, cached: map<Hash, Hash>, k: Hash)
    ensures Slot(Slots(root, cached), k) == Value(root, cached, k)
  {
  }

  lemma {:induction false} ValueAfter(root: Storage, cached: map<Hash, Hash>, k: Hash, v: Hash, x: Hash)
    ensures Value(root, cached[k := v], x) == if x == k then v else Value(root, cached, x)
  {
  }

  lemma {:induction false} SlotAfter(s: Storage, k: Hash, v: Hash, x: Hash)
    ensures Slot(PutSlot(s, k, v), x) == if x == k then v else Slot(s, x)
  {
  }

  lemma {:induction false} CacheSlot(root: Storage, cached: map<Hash, Hash>, k: Hash)
    ensures Slots(root, cached[k := Value(root, cached, k)]) == Slots(root, cached)
    ensures Slot(Slots(root, cached), k) == Value(root, cached, k)
  {
    SetSlot(root, cached, k, Value(root, cached, k));
    PutBack(Slots(root, cached), k, Value(root, cached, k));
  }

  lemma {:induction false} SameSlots(s: Storage, t: Storage)
    requires forall x: Hash :: Slot(s, x) == Slot(t, x)
    ensures s == t
  {
    forall x: Hash
      ensures x in s <==> x in t
    {
      assert Slot(s, x) == Slot(t, x);
    }
    forall x: Hash | x in s
      ensures s[x] == t[x]
    {
      assert Slot(s, x) == Slot(t, x);
    }
  }

  lemma {:induction false} FreshView(codes: Codes)
    ensures View(codes, NewObject(FRESH)) == NEW_ACCOUNT
  {
  }

  // ---- the journal ----

  type ObjectEntry = Change<Object>

  function EntryView(codes: Codes, e: ObjectEntry): Entry {
    match e
    case Created(a) => Created(a)
    case Reset(a, o) => Reset(a, View(codes, o))
    case Suicided(a, was, b) => Suicided(a, was, b)
    case BalanceSet(a, b) => BalanceSet(a, b)
    case NonceSet(a, n) => NonceSet(a, n)
    case SlotSet(a, k, v) => SlotSet(a, k, v)
    case CodeSet(a, h, code) => CodeSet(a, h, code)
    case LockedSet(a, b) => LockedSet(a, b)
    case LockedAtSet(a, t) => LockedAtSet(a, t)
    case UnlockedSet(a, b) => UnlockedSet(a, b)
    case Touched(a) => Touched(a)
    case Refunded(r) => Refunded(r)
    case Logged(tx) => Logged(tx)
    case PreimageAdded(h) => PreimageAdded(h)
  }

  function EntryViews(codes: Codes, es: seq<ObjectEntry>): (vs: seq<Entry>)
    ensures |vs| == |es|
    ensures forall i :: 0 <= i < |es| ==> vs[i] == EntryView(codes, es[i])
  {
    if es == [] then [] else EntryViews(codes, es[..|es| - 1]) + [EntryView(codes, es[|es| - 1])]
  }

  lemma {:induction false} EntryViewsAfter(codes: Codes, es: seq<ObjectEntry>, e: ObjectEntry)
    ensures EntryViews(codes, es + [e]) == EntryViews(codes, es) + [EntryView(codes, e)]
  {
    assert (es + [e])[..|es|] == es;
  }

  /** The account an entry marks as changed; making an account anew marks none. */
  function Dirtied(e: ObjectEntry): Option<Address> {
    match e
    case Reset(_, _) => None
    case Refunded(_) => None
    case Logged(_) => None
    case PreimageAdded(_) => None
    case _ => Some(e.a)
  }

  function CountDirty(es: seq<ObjectEntry>, a: Address): nat {
    if es == [] then 0 else CountDirty(es[..|es| - 1], a) + if Dirtied(es[|es| - 1]) == Some(a) then 1 else 0
  }

  function Times(dirties: map<Address, int>, a: Address): int {
    if a in dirties then dirties[a] else 0
  }

  /** Changed accounts are counted exactly, but for touches of one address, which are never taken back. */
  ghost predicate Tallied(es: seq<ObjectEntry>, dirties: map<Address, int>, touches: nat) {
    && (forall a :: Times(dirties, a) == CountDirty(es, a) + if a == RIPEMD then touches else 0)
    && (forall a :: a in dirties ==> dirties[a] > 0)
  }

  lemma {:induction false} TallyMore(es: seq<ObjectEntry>, dirties: map<Address, int>, touches: nat, e: ObjectEntry)
    requires Tallied(es, dirties, touches)
    ensures Tallied(es + [e], Bumped(dirties, e, 1), touches)
  {
    assert (es + [e])[..|es|] == es;
  }

  /** One more touch of the address whose touches stay. */
  lemma {:induction false} TallyTouch(es: seq<ObjectEntry>, dirties: map<Address, int>, touches: nat)
    requires Tallied(es, dirties, touches) && es != [] && Dirtied(es[|es| - 1]) == Some(RIPEMD)
    ensures Tallied(es, dirties[RIPEMD := Times(dirties, RIPEMD) + 1], touches + 1) && RIPEMD in dirties
  {
    assert CountDirty(es, RIPEMD) >= 1;
    hide CountDirty;
  }

  lemma {:induction false} TallyLess(es: seq<ObjectEntry>, dirties: map<Address, int>, touches: nat)
    requires Tallied(es, dirties, touches) && es != []
    ensures Tallied(es[..|es| - 1], Bumped(dirties, es[|es| - 1], -1), touches)
    ensures Bumped(dirties, es[|es| - 1], -1).Keys <= dirties.Keys
  {
    var e, front := es[|es| - 1], es[..|es| - 1];
    forall a: Address
      ensures CountDirty(es, a) == CountDirty(front, a) + if Dirtied(e) == Some(a) then 1 else 0
    {
    }
    hide CountDirty;
    if Dirtied(e).Some? {
      assert Times(dirties, Dirtied(e).value) >= 1;
    }
  }

  function Bumped(dirties: map<Address, int>, e: ObjectEntry, d: int): map<Address, int> {
    match Dirtied(e)
    case None => dirties
    case Some(a) => if Times(dirties, a) + d == 0 then dirties - {a} else dirties[a := Times(dirties, a) + d]
  }

  // ---- the database ----

  /** Deleted objects are gone from the trie, and so is what was made since; slots in the cache are
      the ones changed or the ones of the storage trie. */
  ghost predicate Coherent(trie: map<Address, Data>, objects: map<Address, Object>, dirties: map<Address, int>) {
    forall a :: a in objects ==>
      && (objects[a].deleted ==> a !in trie && a !in dirties)
      && SlotsCoherent(objects[a].data.root, objects[a].cached, objects[a].dirty)
  }

  ghost predicate SlotsCoherent(root: Storage, cached: map<Hash, Hash>, dirty: map<Hash, Hash>) {
    && dirty.Keys <= cached.Keys
    && forall k :: k in cached ==> cached[k] == if k in dirty then dirty[k] else Slot(root, k)
  }

  lemma {:induction false} SlotStaysCoherent(root: Storage, cached: map<Hash, Hash>, dirty: map<Hash, Hash>, k: Hash,
                                             v: Hash)
    requires SlotsCoherent(root, cached, dirty)
    ensures SlotsCoherent(root, cached[k := v], dirty[k := v])
    ensures v == Value(root, cached, k) ==> SlotsCoherent(root, cached[k := v], dirty)
  {
  }

  lemma {:induction false} FreshSlots(d: Data)
    ensures SlotsCoherent(NewObject(d).data.root, NewObject(d).cached, NewObject(d).dirty)
  {
  }

  ghost predicate Kept(trie: map<Address, Data>, e: ObjectEntry) {
    && (e.Created? ==> e.a !in trie)
    && (e.Reset? ==> !e.old_.deleted && SlotsCoherent(e.old_.data.root, e.old_.cached, e.old_.dirty))
  }

  lemma {:induction false} CoherentAt(trie: map<Address, Data>, objects: map<Address, Object>,
                                      dirties: map<Address, int>, a: Address)
    requires Coherent(trie, objects, dirties) && a in objects
    ensures SlotsCoherent(objects[a].data.root, objects[a].cached, objects[a].dirty)
  {
    hide SlotsCoherent;
  }

  /** Marking an account that readers see. */
  lemma {:induction false} StaysCoherent(codes: Codes, trie: map<Address, Data>, objects: map<Address, Object>,
                                         dirties: map<Address, int>, e: ObjectEntry)
    requires Coherent(trie, objects, dirties)
    requires Dirtied(e).Some? ==> Dirtied(e).value in Accounts(codes, trie, objects)
    ensures Coherent(trie, objects, Bumped(dirties, e, 1))
  {
    hide SlotsCoherent, Accounts;
    if Dirtied(e).Some? {
      Reading(codes, trie, objects, Dirtied(e).value);
    }
  }

  /** Loading an account changes nothing for readers. */
  lemma {:induction false} Loading(codes: Codes, trie: map<Address, Data>, objects: map<Address, Object>,
                                   dirties: map<Address, int>, a: Address)
    requires Coherent(trie, objects, dirties) && a !in objects && a in trie
    ensures var o := NewObject(trie[a]);
            && SlotsCoherent(o.data.root, o.cached, o.dirty) && Coherent(trie, objects[a := o], dirties)
            && Accounts(codes, trie, objects[a := o]) == Accounts(codes, trie, objects)
  {
    hide View, SlotsCoherent, Accounts;
    FreshSlots(trie[a]);
    PutAccount(codes, trie, objects, a, NewObject(trie[a]));
    Reading(codes, trie, objects, a);
    assert Accounts(codes, trie, objects)[a := View(codes, NewObject(trie[a]))] == Accounts(codes, trie, objects);
  }

  class StateDB {
    const codes: Codes
    var trie: map<Address, Data>
    var objects: map<Address, Object>
    var dirtyObjects: set<Address>
    var refund: nat
    var thash: Hash
    var bhash: Hash
    var txIndex: nat
    var logs: Logs
    var logSize: int
    var preimages: map<Hash, Bytes>
    var entries: seq<ObjectEntry>
    var dirties: map<Address, int>
    var revisions: seq<Revision>
    var nextId: nat
    ghost var touches: nat

    function LedgerView(): Ledger
      reads this
    {
      Ledger(Accounts(codes, trie, objects), refund, logs, logSize, preimages)
    }

    /** The journal machine this database stands for. */
    function MachineView(): Machine
      reads this
    {
      Machine(LedgerView(), EntryViews(codes, entries), revisions, nextId)
    }

    ghost predicate Valid()
      reads this
    {
      Sane(MachineView()) && Sound()
    }

    ghost predicate Sound()
      reads this
    {
      && Coherent(trie, objects, dirties) && Tallied(entries, dirties, touches)
      && forall i :: 0 <= i < |entries| ==> Kept(trie, entries[i])
    }

    constructor (trie: map<Address, Data>, codes: Codes)
      ensures Valid() && this.trie == trie && this.codes == codes
      ensures entries == [] && revisions == [] && objects == map[] && dirties == map[] && touches == 0
    {
      this.codes, this.trie := codes, trie;
      objects, dirtyObjects, refund, logs, logSize, preimages := map[], {}, 0, map[], 0, map[];
      thash, bhash, txIndex := ZERO, ZERO, 0;
      entries, dirties, revisions, nextId, touches := [], map[], [], 0, 0;
    }

    /** The account at an address, loaded from the trie if need be. */
    method GetStateObject(a: Address) returns (r: Option<Object>)
      requires Sound()
      modifies this`objects
      ensures Sound() && LedgerView() == old(LedgerView())
      ensures r.Some? <==> a in LedgerView().accounts
      ensures r.Some? ==>
                && a in objects && objects[a] == r.value && !r.value.deleted
                && View(codes, r.value) == LedgerView().accounts[a]
      ensures r.Some? ==> SlotsCoherent(r.value.data.root, r.value.cached, r.value.dirty)
      ensures r.None? ==> objects == old(objects)
    {
      hide View, Accounts, Tallied, SlotsCoherent, Coherent;
      Reading(codes, trie, objects, a);
      if a in objects {
        CoherentAt(trie, objects, dirties, a);
        return if objects[a].deleted then None else Some(objects[a]);
      }
      if a !in trie {
        return None;
      }
      Loading(codes, trie, objects, dirties, a);
      objects := objects[a := NewObject(trie[a])];
      return Some(objects[a]);
    }

    /** Adds an entry to the journal. */
    method Append(e: ObjectEntry)
      requires Sound() && Kept(trie, e)
      requires Dirtied(e).Some? ==> Dirtied(e).value in LedgerView().accounts
      modifies this`entries, this`dirties
      ensures Sound() && entries == old(entries) + [e]
    {
      hide Tallied, Coherent, Accounts;
      TallyMore(entries, dirties, touches, e);
      StaysCoherent(codes, trie, objects, dirties, e);
      entries := entries + [e];
      dirties := Bumped(dirties, e, 1);
    }

    /** Puts an account in place and the entry that undoes it into the journal. */
    method Record(a: Address, o: Object, e: ObjectEntry)
      requires Sound() && !o.deleted && SlotsCoherent(o.data.root, o.cached, o.dirty) && Kept(trie, e)
               && (Dirtied(e).None? || Dirtied(e) == Some(a))
      modifies this`objects, this`entries, this`dirties
      ensures Sound() && LedgerView() == With(old(LedgerView()), a, View(codes, o)) && a in objects && objects[a] == o
      ensures EntryViews(codes, entries) == EntryViews(codes, old(entries)) + [EntryView(codes, e)]
    {
      hide View, EntryViews, Accounts, EntryView, Tallied;
      SetStateObject(a, o);
      EntryViewsAfter(codes, entries, e);
      Append(e);
    }

    method SetStateObject(a: Address, o: Object)
      requires Sound() && !o.deleted && SlotsCoherent(o.data.root, o.cached, o.dirty)
      modifies this`objects
      ensures Sound() && LedgerView() == With(old(LedgerView()), a, View(codes, o)) && a in objects && objects[a] == o
    {
      hide View, EntryViews, Accounts, EntryView, Tallied;
      PutAccount(codes, trie, objects, a, o);
      objects := objects[a := o];
    }

    /** Makes an account, keeping one it replaces in the journal. */
    method CreateObject(a: Address) returns (o: Object, was: Option<Object>)
      requires Sound()
      modifies this`objects, this`entries, this`dirties
      ensures Sound() && a in objects && objects[a] == o == NewObject(FRESH)
      ensures was.Some? <==> a in old(LedgerView()).accounts
      ensures was.Some? ==> View(codes, was.value) == old(LedgerView()).accounts[a]
      ensures LedgerView() == With(old(LedgerView()), a, NEW_ACCOUNT)
      ensures EntryViews(codes, entries) == EntryViews(codes, old(entries)) +
              [if was.Some? then Reset(a, old(LedgerView()).accounts[a]) else Created(a)]
    {
      was := GetStateObject(a);
      assert was.None? ==> a !in trie;
      hide View, EntryViews, Accounts, Tallied;
      FreshView(codes);
      o := NewObject(FRESH);
      Record(a, o, if was.None? then Created(a) else Reset(a, was.value));
    }

    /** The account at an address, made fresh if there is none. */
    method GetOrNewStateObject(a: Address) returns (o: Object)
      requires Sound()
      modifies this`objects, this`entries, this`dirties
      ensures Sound() && a in objects && objects[a] == o && !o.deleted && SlotsCoherent(o.data.root, o.cached, o.dirty)
      ensures View(codes, o) == GetOrNew(old(LedgerView()), a).0
      ensures LedgerView() == With(old(LedgerView()), a, View(codes, o))
      ensures EntryViews(codes, entries) == EntryViews(codes, old(entries)) + GetOrNew(old(LedgerView()), a).1
    {
      hide View, EntryViews, Accounts, Tallied, Coherent;
      var r := GetStateObject(a);
      if r.Some? {
        assert LedgerView() == With(LedgerView(), a, LedgerView().accounts[a]);
        return r.value;
      }
      FreshView(codes);
      var was;
      o, was := CreateObject(a);
    }

    method SetNonce(a: Address, nonce: nat)
      requires Valid()
      modifies this`objects, this`entries, this`dirties
      ensures Valid() && MachineView() == Step(old(MachineView()), Perform(Op.SetNonce(a, nonce)))
    {
      hide EntryViews, Accounts, Slots, CodeOf, Sane, Sound, SlotsCoherent, Step;
      var o := GetOrNewStateObject(a);
      Record(a, o.(data := o.data.(nonce := nonce)), NonceSet(a, o.data.nonce));
      Performed(old(MachineView()), Op.SetNonce(a, nonce), LedgerView(), EntryViews(codes, entries));
    }

    method SetBalance(a: Address, amount: Amount)
      requires Valid()
      modifies this`objects, this`entries, this`dirties
      ensures Valid() && MachineView() == Step(old(MachineView()), Perform(Op.SetBalance(a, amount)))
    {
      hide EntryViews, Accounts, Slots, CodeOf, Sane, Sound, SlotsCoherent, Step;
      var o := GetOrNewStateObject(a);
      Record(a, o.(data := o.data.(balance := amount)), BalanceSet(a, o.data.balance));
      Performed(old(MachineView()), Op.SetBalance(a, amount), LedgerView(), EntryViews(codes, entries));
    }

    method SetLockedBalance(a: Address, amount: Amount)
      requires Valid()
      modifies this`objects, this`entries, this`dirties
      ensures Valid() && MachineView() == Step(old(MachineView()), Perform(SetLocked(a, amount)))
    {
      hide EntryViews, Accounts, Slots, CodeOf, Sane, Sound, SlotsCoherent, Step;
      var o := GetOrNewStateObject(a);
      Record(a, o.(data := o.data.(locked := amount)), LockedSet(a, o.data.locked));
      Performed(old(MachineView()), SetLocked(a, amount), LedgerView(), EntryViews(codes, entries));
    }

    method SetDelegateTimestamp(a: Address, time: Amount)
      requires Valid()
      modifies this`objects, this`entries, this`dirties
      ensures Valid() && MachineView() == Step(old(MachineView()), Perform(SetLockedAt(a, time)))
    {
      hide EntryViews, Accounts, Slots, CodeOf, Sane, Sound, SlotsCoherent, Step;
      var o := GetOrNewStateObject(a);
      Record(a, o.(data := o.data.(lockedAt := time)), LockedAtSet(a, o.data.lockedAt));
      Performed(old(MachineView()), SetLockedAt(a, time), LedgerView(), EntryViews(codes, entries));
    }

    method SetUnLockedBalance(a: Address, amount: Amount)
      requires Valid() && Enabled(LedgerView(), SetUnlocked(a, amount))
      modifies this`objects, this`entries, this`dirties
      ensures Valid() && MachineView() == Step(old(MachineView()), Perform(SetUnlocked(a, amount)))
    {
      hide EntryViews, Accounts, Slots, CodeOf, Sane, Sound, SlotsCoherent, Step;
      var o := GetOrNewStateObject(a);
      Record(a, o.(data := o.data.(unlocked := Some(amount))), UnlockedSet(a, o.data.unlocked.value));
      Performed(old(MachineView()), SetUnlocked(a, amount), LedgerView(), EntryViews(codes, entries));
    }

    /** Writes the unlocking time without an entry in the journal. */
    method SetUnDelegateTimestamp(a: Address, time: Amount)
      requires Valid()
      modifies this`objects, this`entries, this`dirties
      ensures Valid() && MachineView() == Step(old(MachineView()), Perform(SetUnlockedAt(a, time)))
    {
      hide EntryViews, Accounts, Slots, CodeOf, Sane, Sound, SlotsCoherent, Step;
      var o := GetOrNewStateObject(a);
      SetStateObject(a, o.(data := o.data.(unlockedAt := Some(time))));
      Performed(old(MachineView()), SetUnlockedAt(a, time), LedgerView(), EntryViews(codes, entries));
    }

    method AddBalance(a: Address, amount: Amount)
      requires Valid()
      modifies this`objects, this`entries, this`dirties, this`touches
      ensures Valid() && MachineView() == Step(old(MachineView()), Perform(Op.AddBalance(a, amount)))
    {
      hide EntryViews, Accounts, View, OnAccount, Sane, Sound, SlotsCoherent, Step, Empty, GetOrNew;
      ghost var m, op := MachineView(), Op.AddBalance(a, amount);
      var o := GetOrNewStateObject(a);
      ghost var acc, made := View(codes, o), EntryViews(codes, entries);
      ViewBalance(codes, o, o.data.balance + amount);
      Paying(acc, a, amount);
      Twice(m.ledger, a, acc, made);
      if amount != 0 {
        Record(a, o.(data := o.data.(balance := o.data.balance + amount)), BalanceSet(a, o.data.balance));
        Performed(m, op, LedgerView(), EntryViews(codes, entries));
      } else if o.data.nonce == 0 && o.data.balance == 0 && o.data.codeHash == EMPTY_CODE {
        Touch(a);
        Performed(m, op, LedgerView(), EntryViews(codes, entries));
      } else {
        Performed(m, op, LedgerView(), EntryViews(codes, entries));
      }
    }

    /** Marks an account as changed; for one address the mark outlives the journal. */
    method Touch(a: Address)
      requires Sound() && a in LedgerView().accounts
      modifies this`entries, this`dirties, this`touches
      ensures Sound() && EntryViews(codes, entries) == EntryViews(codes, old(entries)) + [Touched(a)]
    {
      hide EntryViews, View, SlotsCoherent, Accounts, Tallied;
      EntryViewsAfter(codes, entries, Touched(a));
      Append(Touched(a));
      if a == RIPEMD {
        TallyTouch(entries, dirties, touches);
        dirties := dirties[a := Times(dirties, a) + 1];
        touches := touches + 1;
      }
    }

    method SubBalance(a: Address, amount: Amount)
      requires Valid()
      modifies this`objects, this`entries, this`dirties
      ensures Valid() && MachineView() == Step(old(MachineView()), Perform(Op.SubBalance(a, amount)))
    {
      hide EntryViews, Accounts, View, OnAccount, Sane, Sound, SlotsCoherent, Step, Empty, GetOrNew;
      ghost var m, op := MachineView(), Op.SubBalance(a, amount);
      var o := GetOrNewStateObject(a);
      ghost var acc, made := View(codes, o), EntryViews(codes, entries);
      ViewBalance(codes, o, o.data.balance - amount);
      Paying(acc, a, amount);
      Twice(m.ledger, a, acc, made);
      if amount != 0 {
        Record(a, o.(data := o.data.(balance := o.data.balance - amount)), BalanceSet(a, o.data.balance));
        Performed(m, op, LedgerView(), EntryViews(codes, entries));
      } else {
        Performed(m, op, LedgerView(), EntryViews(codes, entries));
      }
    }

    method SetState(a: Address, key: Hash, value: Hash)
      requires Valid()
      modifies this`objects, this`entries, this`dirties
      ensures Valid() && MachineView() == Step(old(MachineView()), Perform(Op.SetState(a, key, value)))
    {
      hide EntryViews, Accounts, Slots, CodeOf, Sane, Sound, SlotsCoherent, Step;
      var o := GetOrNewStateObject(a);
      SetSlot(o.data.root, o.cached, key, value);
      SlotStaysCoherent(o.data.root, o.cached, o.dirty, key, value);
      var was := Value(o.data.root, o.cached, key);
      Record(a, o.(cached := o.cached[key := value], dirty := o.dirty[key := value]), SlotSet(a, key, was));
      Performed(old(MachineView()), Op.SetState(a, key, value), LedgerView(), EntryViews(codes, entries));
    }

    /** A slot of an account, which is then kept in the cache. */
    method GetState(a: Address, key: Hash) returns (value: Hash)
      requires Valid()
      modifies this`objects
      ensures Valid() && MachineView() == old(MachineView())
      ensures value == if a in LedgerView().accounts then Slot(LedgerView().accounts[a].storage, key) else ZERO
    {
      hide EntryViews, Accounts, Slots, CodeOf, Sane, Sound, SlotsCoherent;
      var r := GetStateObject(a);
      if r.None? {
        return ZERO;
      }
      var o := r.value;
      value := Value(o.data.root, o.cached, key);
      CacheSlot(o.data.root, o.cached, key);
      SlotStaysCoherent(o.data.root, o.cached, o.dirty, key, value);
      SetStateObject(a, o.(cached := o.cached[key := value]));
      assert LedgerView() == old(LedgerView());
      assert MachineView() == old(MachineView());
    }

    method SetCode(a: Address, codeHash: Hash, code: Bytes)
      requires Valid()
      modifies this`objects, this`entries, this`dirties
      ensures Valid() && MachineView() == Step(old(MachineView()), Perform(Op.SetCode(a, codeHash, code)))
    {
      hide EntryViews, Accounts, Slots, Sane, Sound, SlotsCoherent, Step;
      var o := GetOrNewStateObject(a);
      var was := CodeOf(codes, o.code, o.data.codeHash);
      Record(a, o.(data := o.data.(codeHash := codeHash), code := Some(code), dirtyCode := true),
        CodeSet(a, o.data.codeHash, was));
      Performed(old(MachineView()), Op.SetCode(a, codeHash, code), LedgerView(), EntryViews(codes, entries));
    }

    method Suicide(a: Address) returns (found: bool)
      requires Valid()
      modifies this`objects, this`entries, this`dirties
      ensures Valid() && MachineView() == Step(old(MachineView()), Perform(Op.Suicide(a)))
      ensures found == (a in old(LedgerView()).accounts)
    {
      hide EntryViews, Accounts, Slots, CodeOf, Sane, Sound, SlotsCoherent;
      StepKeeps(MachineView(), Perform(Op.Suicide(a)));
      var r := GetStateObject(a);
      if r.None? {
        return false;
      }
      var o := r.value;
      Record(a, o.(data := o.data.(balance := 0), suicided := true), Suicided(a, o.suicided, o.data.balance));
      return true;
    }

    /** Makes an account anew; the balance of one that was there carries over. */
    method CreateAccount(a: Address)
      requires Valid()
      modifies this`objects, this`entries, this`dirties
      ensures Valid() && MachineView() == Step(old(MachineView()), Perform(Op.CreateAccount(a)))
    {
      hide EntryViews, Accounts, Slots, CodeOf, Sane, Sound;
      ghost var l := LedgerView();
      StepKeeps(MachineView(), Perform(Op.CreateAccount(a)));
      var o, was := CreateObject(a);
      FreshView(codes);
      if was.Some? {
        SetStateObject(a, o.(data := o.data.(balance := was.value.data.balance)));
        assert LedgerView() == With(l, a, NEW_ACCOUNT.(balance := l.accounts[a].balance));
      }
    }

    method AddRefund(gas: nat)
      requires Valid()
      modifies this`refund, this`entries, this`dirties
      ensures Valid() && MachineView() == Step(old(MachineView()), Perform(Op.AddRefund(gas)))
    {
      hide EntryViews, Accounts, Sane, Tallied, Coherent, OnAccount, GetOrNew;
      StepKeeps(MachineView(), Perform(Op.AddRefund(gas)));
      EntryViewsAfter(codes, entries, Refunded(refund));
      Append(Refunded(refund));
      refund := (refund + gas) % UINT64;
    }

    /** Says which transaction of which block is run next. */
    method Prepare(thash: Hash, bhash: Hash, txIndex: nat)
      requires Valid()
      modifies this`thash, this`bhash, this`txIndex
      ensures Valid() && MachineView() == old(MachineView())
      ensures this.thash == thash && this.bhash == bhash && this.txIndex == txIndex
    {
      hide EntryViews, Accounts, Sane, Tallied, Coherent;
      this.thash, this.bhash, this.txIndex := thash, bhash, txIndex;
    }

    /** Adds a log to the transaction being run, with where it was made and the next number. */
    method AddLog(body: Bytes)
      requires Valid()
      modifies this`logs, this`logSize, this`entries, this`dirties
      ensures Valid()
      ensures MachineView() ==
              Step(old(MachineView()), Perform(Op.AddLog(thash, Log(body, thash, bhash, txIndex, old(logSize)))))
    {
      hide EntryViews, Accounts, Sane, Tallied, Coherent, WithLog, Step, Do;
      var log := Log(body, thash, bhash, txIndex, logSize);
      LogAdded(MachineView(), thash, log);
      EntryViewsAfter(codes, entries, Logged(thash));
      Append(Logged(thash));
      logs := WithLog(logs, thash, log);
      logSize := logSize + 1;
    }

    method AddPreimage(hash: Hash, preimage: Bytes)
      requires Valid()
      modifies this`preimages, this`entries, this`dirties
      ensures Valid() && MachineView() == Step(old(MachineView()), Perform(Op.AddPreimage(hash, preimage)))
    {
      hide EntryViews, Accounts, Sane, Tallied, Coherent, OnAccount, GetOrNew;
      StepKeeps(MachineView(), Perform(Op.AddPreimage(hash, preimage)));
      if hash !in preimages {
        EntryViewsAfter(codes, entries, PreimageAdded(hash));
        Append(PreimageAdded(hash));
        preimages := preimages[hash := preimage];
      }
    }

    // ---- going back ----

    method Snapshot() returns (id: nat)
      requires Valid()
      modifies this`revisions, this`nextId
      ensures Valid() && MachineView() == Step(old(MachineView()), TakeSnapshot) && id == old(nextId)
    {
      hide EntryViews, Accounts, Coherent, Tallied;
      id := nextId;
      nextId := nextId + 1;
      revisions := revisions + [Revision(id, |entries|)];
    }

    /** Undoes one entry on an account that is there. */
    method UndoAccount(e: ObjectEntry)
      requires Sound() && OfAccount(EntryView(codes, e)) && Undoable(LedgerView(), EntryView(codes, e))
      modifies this`objects
      ensures Sound() && LedgerView() == Undo(old(LedgerView()), EntryView(codes, e))
    {
      hide Accounts, Slots, CodeOf, Sound, SlotsCoherent;
      UndoField(LedgerView(), EntryView(codes, e));
      var r := GetStateObject(e.a);
      var o := r.value;
      if e.SlotSet? {
        SetSlot(o.data.root, o.cached, e.key, e.value);
        SlotStaysCoherent(o.data.root, o.cached, o.dirty, e.key, e.value);
      }
      RestoreView(codes, o, e);
      hide View, Restore, Undo, EntryView;
      SetStateObject(e.a, RestoreObject(o, e));
    }

    /** Undoes one entry. */
    method UndoEntry(e: ObjectEntry)
      requires Sound() && Kept(trie, e) && Undoable(LedgerView(), EntryView(codes, e))
      modifies this`objects, this`dirtyObjects, this`refund, this`logs, this`logSize, this`preimages
      ensures Sound() && LedgerView() == Undo(old(LedgerView()), EntryView(codes, e))
    {
      hide Accounts, View, Tallied, SlotsCoherent, WithoutLog, Restore, Slots;
      match e
      case Created(a) =>
        DropAccount(codes, trie, objects, a);
        objects, dirtyObjects := objects - {a}, dirtyObjects - {a};
      case Reset(a, o) =>
        SetStateObject(a, o);
      case Touched(_) =>
      case Refunded(r) =>
        refund := r;
      case Logged(tx) =>
        logs := WithoutLog(logs, tx);
        logSize := logSize - 1;
      case PreimageAdded(h) =>
        preimages := preimages - {h};
      case _ =>
        UndoAccount(e);
    }

    /** Takes the last entry back, with its mark. */
    method UndoLastEntry()
      requires Sound() && entries != [] && Undoable(LedgerView(), EntryView(codes, entries[|entries| - 1]))
      modifies this`objects, this`dirtyObjects, this`refund, this`logs, this`logSize, this`preimages, this`entries,
               this`dirties
      ensures Sound() && entries == old(entries)[..|old(entries)| - 1]
      ensures LedgerView() == Undo(old(LedgerView()), EntryView(codes, old(entries)[|old(entries)| - 1]))
    {
      hide Accounts, View, SlotsCoherent, Undo, EntryView, Tallied;
      var e := entries[|entries| - 1];
      UndoEntry(e);
      TallyLess(entries, dirties, touches);
      entries, dirties := entries[..|entries| - 1], Bumped(dirties, e, -1);
    }

    /** Undoes the entries from n on, last first. */
    method RevertJournal(n: nat)
      requires Sound() && n <= |entries| && Replayable(LedgerView(), EntryViews(codes, entries), n)
      modifies this`objects, this`dirtyObjects, this`refund, this`logs, this`logSize, this`preimages, this`entries,
               this`dirties
      ensures Sound() && entries == old(entries)[..n]
      ensures LedgerView() == UndoTo(old(LedgerView()), EntryViews(codes, old(entries)), n)
    {
      hide Accounts, View, Sound, Undo, Undoable, EntryView, Replayable, UndoTo;
      while |entries| > n
        invariant Sound() && n <= |entries| <= |old(entries)| && entries == old(entries)[..|entries|]
        invariant Replayable(LedgerView(), EntryViews(codes, entries), n)
        invariant UndoTo(LedgerView(), EntryViews(codes, entries), n) ==
                  UndoTo(old(LedgerView()), EntryViews(codes, old(entries)), n)
      {
        ghost var es := EntryViews(codes, entries);
        assert es[..|es| - 1] == EntryViews(codes, entries[..|entries| - 1]);
        UndoStep(LedgerView(), es, n);
        UndoLastEntry();
      }
      UndoNone(LedgerView(), EntryViews(codes, entries), n);
    }

    /** Looks a revision up by halving. */
    method Search(id: nat) returns (i: nat)
      requires Ascending(revisions, |entries|, nextId)
      ensures i == Find(revisions, id)
    {
      i := 0;
      var j := |revisions|;
      while i < j
        invariant 0 <= i <= j <= |revisions|
        invariant i > 0 ==> revisions[i - 1].id < id
        invariant j < |revisions| ==> revisions[j].id >= id
      {
        var h := (i + j) / 2;
        if revisions[h].id < id {
          i := h + 1;
        } else {
          j := h;
        }
      }
      FindIs(revisions, id, i);
    }

    method RevertToSnapshot(id: nat)
      requires Valid() && Possible(MachineView(), RevertTo(id))
      modifies this`objects, this`dirtyObjects, this`refund, this`logs, this`logSize, this`preimages,
               this`entries, this`dirties, this`revisions
      ensures Valid() && MachineView() == Step(old(MachineView()), RevertTo(id))
    {
      hide Accounts, Coherent, Tallied, Undo, Replayable, UndoTo, Step, Sane, Find, EntryViews;
      ghost var es := EntryViews(codes, entries);
      RevertIs(MachineView(), id);
      var i := Search(id);
      var n := revisions[i].index;
      RevertJournal(n);
      revisions := revisions[..i];
      assert EntryViews(codes, entries) == es[..n];
    }

    // ---- the end of a transaction ----

    /** Writes the changed accounts to the trie, and takes out those destroyed or, if asked, empty.
        Readers see the same accounts but for those taken out. The trie holds what they see of the accounts marked as
        changed, and of the others exactly if it did before. */
    method Finalise(deleteEmpty: bool)
      requires Valid()
      modifies this`trie, this`objects, this`dirtyObjects, this`refund, this`entries, this`dirties, this`revisions,
               this`touches
      ensures Valid() && entries == [] && revisions == [] && dirties == map[] && refund == 0
      ensures var changed := old(dirties).Keys * old(objects).Keys;
              && LedgerView().accounts == Finalised(old(LedgerView()).accounts, changed, deleteEmpty)
              && forall a :: WrittenAt(LedgerView().accounts, trie, a) <==>
                             a in changed || WrittenAt(old(LedgerView()).accounts, old(trie), a)
      ensures forall a :: a !in old(dirties) ==>
              (a in trie <==> a in old(trie)) && (a in trie ==> trie[a] == old(trie)[a])
    {
      hide Accounts, View, Tallied, SlotsCoherent, Written, WrittenAt, Finalised, Coherent, Progress;
      var todo := dirties.Keys;
      ghost var all, live := dirties.Keys, objects.Keys;
      Start(codes, trie, objects, dirties, deleteEmpty);
      while todo != {}
        invariant todo <= all
        invariant Progress(codes, old(trie), old(objects), trie, objects, (all - todo) * live, deleteEmpty)
      {
        var a :| a in todo;
        ghost var done := (all - todo) * live;
        todo := todo - {a};
        Unfinished(codes, old(trie), old(objects), trie, objects, done, deleteEmpty, old(dirties), a);
        if a in objects {
          assert (all - todo) * live == done + {a};
          FinaliseObject(a, deleteEmpty, old(trie), old(objects), done);
        } else {
          assert (all - todo) * live == done;
        }
      }
      assert (all - todo) * live == all * live;
      Finish(codes, old(trie), old(objects), trie, objects, all * live, deleteEmpty);
      entries, dirties, revisions, refund := [], map[], [], 0;
      touches := 0;
      NothingTallied();
    }

    method FinaliseObject(a: Address, deleteEmpty: bool, ghost trie0: map<Address, Data>, ghost objects0: map<Address,
                          Object>,
                          ghost done: set<Address>)
      requires Progress(codes, trie0, objects0, trie, objects, done, deleteEmpty)
      requires a in objects && !objects[a].deleted && a !in done
      requires SlotsCoherent(objects[a].data.root, objects[a].cached, objects[a].dirty)
      modifies this`trie, this`objects, this`dirtyObjects
      ensures Progress(codes, trie0, objects0, trie, objects, done + {a}, deleteEmpty)
    {
      hide SlotsCoherent, Progress, Slots;
      var o := objects[a];
      if o.suicided || (deleteEmpty && o.data.nonce == 0 && o.data.balance == 0 && o.data.codeHash == EMPTY_CODE) {
        TakenOut(codes, trie0, objects0, trie, objects, done, deleteEmpty, a);
        objects := objects[a := o.(deleted := true)];
        trie := trie - {a};
      } else {
        var o' := FlushStorage(o);
        WrittenOut(codes, trie0, objects0, trie, objects, done, deleteEmpty, a, o');
        objects := objects[a := o'];
        trie := trie[a := Encoded(o'.data)];
      }
      dirtyObjects := dirtyObjects + {a};
    }
  }

  // ---- how far finalising has come ----

  ghost predicate Untouched(trie0: map<Address, Data>, objects0: map<Address, Object>,
                            trie: map<Address, Data>, objects: map<Address, Object>, done: set<Address>) {
    && objects.Keys == objects0.Keys
    && (forall a :: a in objects && a !in done ==> objects[a] == objects0[a])
    && (forall a :: a !in done ==> (a in trie <==> a in trie0) && (a in trie ==> trie[a] == trie0[a]))
  }

  ghost predicate Progress(codes: Codes, trie0: map<Address, Data>, objects0: map<Address, Object>,
                           trie: map<Address, Data>, objects: map<Address, Object>, done: set<Address>,
                             deleteEmpty: bool) {
    && Coherent(trie, objects, map[]) && Untouched(trie0, objects0, trie, objects, done)
    && Accounts(codes, trie, objects) == Finalised(Accounts(codes, trie0, objects0), done, deleteEmpty)
    && Written(Accounts(codes, trie, objects), trie, done)
  }

  lemma {:induction false} Start(codes: Codes, trie: map<Address, Data>, objects: map<Address, Object>,
                                 dirties: map<Address, int>, deleteEmpty: bool)
    requires Coherent(trie, objects, dirties)
    ensures Progress(codes, trie, objects, trie, objects, (dirties.Keys - dirties.Keys) * objects.Keys, deleteEmpty)
  {
    hide Accounts, SlotsCoherent;
    var accounts := Accounts(codes, trie, objects);
    assert (dirties.Keys - dirties.Keys) * objects.Keys == {};
    assert Finalised(accounts, {}, deleteEmpty) == accounts;
  }

  lemma {:induction false} Unfinished(codes: Codes, trie0: map<Address, Data>, objects0: map<Address, Object>,
                   trie: map<Address, Data>, objects: map<Address, Object>, done: set<Address>, deleteEmpty: bool,
                   dirties: map<Address, int>, a: Address)
    requires Progress(codes, trie0, objects0, trie, objects, done, deleteEmpty) && Coherent(trie0, objects0, dirties)
    requires a in dirties && a !in done
    ensures objects.Keys == objects0.Keys
    ensures a in objects ==>
              && !objects[a].deleted
              && SlotsCoherent(objects[a].data.root, objects[a].cached, objects[a].dirty)
  {
    hide Accounts, SlotsCoherent, Written, Finalised;
  }

  lemma {:induction false} Finish(codes: Codes, trie0: map<Address, Data>, objects0: map<Address, Object>,
               trie: map<Address, Data>, objects: map<Address, Object>, done: set<Address>, deleteEmpty: bool)
    requires Progress(codes, trie0, objects0, trie, objects, done, deleteEmpty)
    ensures Accounts(codes, trie, objects) == Finalised(Accounts(codes, trie0, objects0), done, deleteEmpty)
    ensures Coherent(trie, objects, map[])
    ensures forall a :: a !in done ==> (a in trie <==> a in trie0) && (a in trie ==> trie[a] == trie0[a])
    ensures forall a :: WrittenAt(Accounts(codes, trie, objects), trie, a) <==>
                        a in done || WrittenAt(Accounts(codes, trie0, objects0), trie0, a)
  {
    hide Accounts, SlotsCoherent, Written, WrittenAt, Finalised;
    forall a
      ensures WrittenAt(Accounts(codes, trie, objects), trie, a) <==>
              a in done || WrittenAt(Accounts(codes, trie0, objects0), trie0, a)
    {
      WrittenExactly(Accounts(codes, trie0, objects0), trie0, trie, done, deleteEmpty, a);
    }
  }

  lemma {:induction false} TakenOut(codes: Codes, trie0: map<Address, Data>, objects0: map<Address, Object>,
                 trie: map<Address, Data>, objects: map<Address, Object>, done: set<Address>, deleteEmpty: bool,
                   a: Address)
    requires Progress(codes, trie0, objects0, trie, objects, done, deleteEmpty)
    requires a in objects && !objects[a].deleted && a !in done
    requires SlotsCoherent(objects[a].data.root, objects[a].cached, objects[a].dirty)
    requires var o := objects[a];
             o.suicided || (deleteEmpty && o.data.nonce == 0 && o.data.balance == 0 && o.data.codeHash == EMPTY_CODE)
    ensures Progress(codes, trie0, objects0, trie - {a}, objects[a := objects[a].(deleted := true)], done + {a},
            deleteEmpty)
  {
    hide Accounts, SlotsCoherent, View, Finalised, Written, Coherent, Untouched;
    Visible(codes, trie, objects, a);
    TakeOut(codes, trie, objects, a);
    FinalisedMore(Accounts(codes, trie0, objects0), done, deleteEmpty, a);
    WrittenMore(Accounts(codes, trie, objects), trie, done, a);
    var o := objects[a].(deleted := true);
    StillCoherent(trie, objects, a, o, o.data);
    StillUntouched(trie0, objects0, trie, objects, done, a, o, o.data);
  }

  lemma {:induction false} StillCoherent(trie: map<Address, Data>, objects: map<Address, Object>, a: Address, o: Object,
                                         d: Data)
    requires Coherent(trie, objects, map[]) && SlotsCoherent(o.data.root, o.cached, o.dirty)
    ensures Coherent(trie - {a}, objects[a := o], map[])
    ensures !o.deleted ==> Coherent(trie[a := d], objects[a := o], map[])
  {
    hide SlotsCoherent;
  }

  lemma {:induction false} StillUntouched(trie0: map<Address, Data>, objects0: map<Address, Object>,
                       trie: map<Address, Data>, objects: map<Address, Object>, done: set<Address>, a: Address,
                         o: Object, d: Data)
    requires Untouched(trie0, objects0, trie, objects, done) && a in objects
    ensures Untouched(trie0, objects0, trie - {a}, objects[a := o], done + {a})
    ensures Untouched(trie0, objects0, trie[a := d], objects[a := o], done + {a})
  {
  }

  lemma {:induction false} FinalisedMore(accounts: map<Address, Account>, done: set<Address>, deleteEmpty: bool,
                                         a: Address)
    requires a !in done && a in Finalised(accounts, done, deleteEmpty)
    ensures var acc := Finalised(accounts, done, deleteEmpty)[a];
            Finalised(accounts, done + {a}, deleteEmpty) ==
            if acc.suicided || (deleteEmpty && Empty(acc)) then Finalised(accounts, done, deleteEmpty) - {a}
            else Finalised(accounts, done, deleteEmpty)
  {
  }

  lemma {:induction false} WrittenMore(accounts: map<Address, Account>, trie: map<Address, Data>, done: set<Address>,
                                       a: Address)
    requires Written(accounts, trie, done) && a in accounts
    ensures Written(accounts - {a}, trie - {a}, done + {a})
    ensures Written(accounts, trie[a := Stored(accounts[a])], done + {a})
  {
    hide Stored;
  }

  lemma {:induction false} WrittenOut(codes: Codes, trie0: map<Address, Data>, objects0: map<Address, Object>,
                   trie: map<Address, Data>, objects: map<Address, Object>, done: set<Address>, deleteEmpty: bool,
                   a: Address, o': Object)
    requires Progress(codes, trie0, objects0, trie, objects, done, deleteEmpty)
    requires a in objects && !objects[a].deleted && a !in done
    requires var o := objects[a];
             && !(o.suicided || (deleteEmpty && o.data.nonce == 0 && o.data.balance == 0
               && o.data.codeHash == EMPTY_CODE))
             && o' == o.(data := o.data.(root := Slots(o.data.root, o.cached)), dirty := map[])
             && Slots(o'.data.root, o'.cached) == Slots(o.data.root, o.cached)
             && SlotsCoherent(o'.data.root, o'.cached, o'.dirty)
    ensures Progress(codes, trie0, objects0, trie[a := Encoded(o'.data)], objects[a := o'], done + {a}, deleteEmpty)
  {
    hide Accounts, SlotsCoherent, Slots, Finalised, Written, Coherent, Untouched;
    Visible(codes, trie, objects, a);
    assert Encoded(o'.data) == Stored(View(codes, objects[a]));
    assert View(codes, o') == View(codes, objects[a]);
    hide View, Stored, Encoded;
    WriteOut(codes, trie, objects, a, o', Encoded(o'.data));
    FinalisedMore(Accounts(codes, trie0, objects0), done, deleteEmpty, a);
    WrittenMore(Accounts(codes, trie, objects), trie, done, a);
    StillCoherent(trie, objects, a, o', Encoded(o'.data));
    StillUntouched(trie0, objects0, trie, objects, done, a, o', Encoded(o'.data));
  }

  /** Accounts left after the changed ones that are destroyed or empty are taken out. */
  function Finalised(accounts: map<Address, Account>, changed: set<Address>, deleteEmpty: bool): map<Address, Account> {
    map a | a in accounts && !(a in changed && (accounts[a].suicided || (deleteEmpty && Empty(accounts[a])))) ::
      accounts[a]
  }

  /** The trie holds exactly what readers see of these accounts: nothing, or the account with its slots. */
  ghost predicate Written(accounts: map<Address, Account>, trie: map<Address, Data>, changed: set<Address>) {
    forall a :: a in changed ==> WrittenAt(accounts, trie, a)
  }

  ghost predicate WrittenAt(accounts: map<Address, Account>, trie: map<Address, Data>, a: Address) {
    if a in accounts then a in trie && trie[a] == Stored(accounts[a]) else a !in trie
  }

  /** Finalising brings the changed accounts into the trie; of the others it holds what readers see exactly if it
      did before. */
  lemma {:induction false} WrittenExactly(accounts: map<Address, Account>, trie0: map<Address, Data>, trie: map<Address,
                                          Data>,
                                          changed: set<Address>, deleteEmpty: bool, a: Address)
    requires Written(Finalised(accounts, changed, deleteEmpty), trie, changed)
    requires a !in changed ==> (a in trie <==> a in trie0) && (a in trie ==> trie[a] == trie0[a])
    ensures WrittenAt(Finalised(accounts, changed, deleteEmpty), trie, a) <==>
            a in changed || WrittenAt(accounts, trie0, a)
  {
    hide Stored, Empty;
  }

  function OrZero(x: Option<Amount>): Option<Amount> {
    if x.Some? then x else Some(0)
  }

  /** Storing an account and reading it back makes missing amounts zero. */
  function Encoded(d: Data): Data {
    d.(unlocked := OrZero(d.unlocked), unlockedAt := OrZero(d.unlockedAt))
  }

  function Stored(acc: Account): Data {
    Data(acc.nonce, acc.balance, acc.locked, acc.lockedAt, OrZero(acc.unlocked), OrZero(acc.unlockedAt), acc.storage,
      acc.codeHash)
  }

  lemma {:induction false} Visible(codes: Codes, trie: map<Address, Data>, objects: map<Address, Object>, a: Address)
    requires a in objects && !objects[a].deleted
    ensures a in Accounts(codes, trie, objects) && Accounts(codes, trie, objects)[a] == View(codes, objects[a])
    ensures var acc := View(codes, objects[a]); var o := objects[a];
            acc.suicided == o.suicided && (Empty(acc) <==>
              o.data.nonce == 0 && o.data.balance == 0 && o.data.codeHash == EMPTY_CODE)
  {
  }

  lemma {:induction false} TakeOut(codes: Codes, trie: map<Address, Data>, objects: map<Address, Object>, a: Address)
    requires a in objects
    ensures Accounts(codes, trie - {a}, objects[a := objects[a].(deleted := true)]) ==
            Accounts(codes, trie, objects) - {a}
  {
    hide View;
  }

  lemma {:induction false} WriteOut(codes: Codes, trie: map<Address, Data>, objects: map<Address, Object>, a: Address,
                                    o: Object, d: Data)
    requires a in objects && !objects[a].deleted && !o.deleted && View(codes, o) == View(codes, objects[a])
    ensures Accounts(codes, trie[a := d], objects[a := o]) == Accounts(codes, trie, objects)
  {
    hide View;
  }

  /** Moves the changed slots of an account to its storage trie. */
  method FlushStorage(o: Object) returns (o': Object)
    requires SlotsCoherent(o.data.root, o.cached, o.dirty)
    ensures o' == o.(data := o.data.(root := Slots(o.data.root, o.cached)), dirty := map[])
    ensures SlotsCoherent(o'.data.root, o'.cached, o'.dirty)
            && Slots(o'.data.root, o'.cached) == Slots(o.data.root, o.cached)
  {
    var root, dirty := o.data.root, o.dirty;
    while dirty != map[]
      invariant dirty.Keys <= o.dirty.Keys
      invariant forall k: Hash ::
                  Slot(root, k) == if k in o.dirty && k !in dirty then o.dirty[k] else Slot(o.data.root, k)
      invariant forall k :: k in dirty ==> dirty[k] == o.dirty[k]
      decreases dirty.Keys
    {
      var k :| k in dirty;
      root := PutSlot(root, k, dirty[k]);
      dirty := dirty - {k};
    }
    forall k: Hash
      ensures Slot(root, k) == Slot(Slots(o.data.root, o.cached), k)
    {
    }
    SameSlots(root, Slots(o.data.root, o.cached));
    o' := o.(data := o.data.(root := root), dirty := map[]);
    forall k: Hash
      ensures Slot(Slots(root, o.cached), k) == Slot(root, k)
    {
    }
    SameSlots(Slots(root, o.cached), root);
  }

  lemma {:induction false} NothingTallied()
    ensures Tallied([], map[], 0)
  {
  }

  /** What going back comes to. */
  lemma {:induction false} RevertIs(m: Machine, id: nat)
    requires Sane(m) && Possible(m, RevertTo(id))
    ensures var i := Find(m.revisions, id);
            var n := m.revisions[i].index;
            && Ascending(m.revisions, |m.entries|, m.nextId) && n <= |m.entries| && Replayable(m.ledger, m.entries, n)
            && Step(m, RevertTo(id)) == m.(ledger := UndoTo(m.ledger, m.entries, n), entries :=
              m.entries[..n], revisions := m.revisions[..i])
    ensures Sane(Step(m, RevertTo(id)))
  {
    UndoInSteps(m.ledger, m.entries, m.revisions[Find(m.revisions, id)].index, 0);
    StepKeeps(m, RevertTo(id));
  }

  lemma {:induction false} UndoNone(l: Ledger, es: seq<Entry>, n: nat)
    requires n == |es|
    ensures Replayable(l, es, n) && UndoTo(l, es, n) == l
  {
  }

  lemma {:induction false} FindIs(revs: seq<Revision>, id: nat, i: nat)
    requires i <= |revs| && forall j, k :: 0 <= j < k < |revs| ==> revs[j].id < revs[k].id
    requires i < |revs| ==> revs[i].id >= id
    requires i > 0 ==> revs[i - 1].id < id
    ensures Find(revs, id) == i
  {
  }

  /** An object with the fields an entry holds put back. */
  function RestoreObject(o: Object, e: ObjectEntry): Object {
    match e
    case Suicided(_, was, b) => o.(suicided := was, data := o.data.(balance := b))
    case BalanceSet(_, b) => o.(data := o.data.(balance := b))
    case NonceSet(_, n) => o.(data := o.data.(nonce := n))
    case SlotSet(_, k, v) => o.(cached := o.cached[k := v], dirty := o.dirty[k := v])
    case CodeSet(_, h, code) => o.(data := o.data.(codeHash := h), code := Some(code), dirtyCode := true)
    case LockedSet(_, b) => o.(data := o.data.(locked := b))
    case LockedAtSet(_, t) => o.(data := o.data.(lockedAt := t))
    case UnlockedSet(_, b) => o.(data := o.data.(unlocked := Some(b)))
    case _ => o
  }

  lemma {:induction false} RestoreView(codes: Codes, o: Object, e: ObjectEntry)
    requires OfAccount(EntryView(codes, e))
    ensures View(codes, RestoreObject(o, e)) == Restore(View(codes, o), EntryView(codes, e))
  {
    hide Slots;
    if e.SlotSet? {
      SetSlot(o.data.root, o.cached, e.key, e.value);
    }
  }

  lemma {:induction false} ViewBalance(codes: Codes, o: Object, b: Amount)
    ensures View(codes, o).balance == o.data.balance
    ensures View(codes, o.(data := o.data.(balance := b))) == View(codes, o).(balance := b)
    ensures Empty(View(codes, o)) <==> o.data.nonce == 0 && o.data.balance == 0 && o.data.codeHash == EMPTY_CODE
  {
    hide CodeOf, Slots;
  }

  lemma {:induction false} Twice(l: Ledger, a: Address, acc: Account, es: seq<Entry>)
    ensures With(With(l, a, acc), a, acc) == With(l, a, acc) && es + [] == es
  {
  }

  /** What paying in and out does to an account. */
  lemma {:induction false} Paying(acc: Account, a: Address, x: Amount)
    ensures OnAccount(acc, Op.AddBalance(a, x)) ==
            if x != 0 then (acc.(balance := acc.balance + x), [BalanceSet(a, acc.balance)])
            else (acc, if Empty(acc) then [Touched(a)] else [])
    ensures OnAccount(acc, Op.SubBalance(a, x)) ==
            if x != 0 then (acc.(balance := acc.balance - x), [BalanceSet(a, acc.balance)]) else (acc, [])
  {
    hide Empty;
  }

  /** What performing an operation on an account comes to. */
  lemma {:induction false} Performed(m: Machine, op: Op, l: Ledger, es: seq<Entry>)
    requires Sane(m) && OnGiven(op) && Enabled(m.ledger, op)
    requires var (acc, made) := GetOrNew(m.ledger, op.a); var (acc', left) := OnAccount(acc, op);
             es == m.entries + made + left && l == With(With(m.ledger, op.a, acc), op.a, acc')
    ensures Step(m, Perform(op)) == m.(ledger := l, entries := es)
    ensures Sane(m.(ledger := l, entries := es))
  {
    hide OnAccount, Sane, Do;
    var (acc, made) := GetOrNew(m.ledger, op.a);
    var (acc', left) := OnAccount(acc, op);
    StepKeeps(m, Perform(op));
    DoGiven(m.ledger, op);
    assert m.entries + made + left == m.entries + (made + left);
    assert With(With(m.ledger, op.a, acc), op.a, acc') == With(m.ledger, op.a, acc');
  }

  lemma {:induction false} LogAdded(m: Machine, tx: Hash, log: Log)
    requires Sane(m)
    ensures var m' := Step(m, Perform(Op.AddLog(tx, log)));
            && m' == m.(ledger := m.ledger.(logs := WithLog(m.ledger.logs, tx, log), logSize := m.ledger.logSize + 1),
                        entries := m.entries + [Logged(tx)])
            && Sane(m')
  {
    hide Sane, OnAccount, GetOrNew, WithLog;
    StepKeeps(m, Perform(Op.AddLog(tx, log)));
  }

  /** An account with a nonce, made anew. */
  method Recreate(codes: Codes) returns (db: StateDB)
    ensures db.Valid() && db.dirties == map[] && 7 in db.trie && db.trie[7].nonce == 4
    ensures 7 in db.LedgerView().accounts && db.LedgerView().accounts[7].nonce == 0 && fresh(db)
  {
    hide StateDB.Valid, Accounts, Step, EntryViews, View, Sane;
    db := new StateDB(map[7 := FRESH.(nonce := 4, balance := 1)], codes);
    ghost var before := db.MachineView();
    Reading(codes, db.trie, db.objects, 7);
    ValidIsSane(db);
    NoEntryViews(codes);
    RecreatedInMachine(before);
    db.CreateAccount(7);
    NothingMarked(db);
  }

  /** Making an account anew over one that is there marks nothing as changed, so the trie keeps the old nonce. */
  method RecreatedIsNotWritten(codes: Codes) returns (db: StateDB)
    ensures db.Valid() && db.entries == []
    ensures 7 in db.trie && db.trie[7].nonce == 4 && 7 in db.LedgerView().accounts
            && db.LedgerView().accounts[7].nonce == 0
    ensures !WrittenAt(db.LedgerView().accounts, db.trie, 7)
  {
    hide StateDB.Valid, Accounts, WrittenAt, Finalised;
    db := Recreate(codes);
    ghost var made := db.LedgerView().accounts;
    assert db.dirties.Keys * db.objects.Keys == {};
    db.Finalise(true);
    NoneFinalised(made);
    NonceDiffers(db.LedgerView().accounts, db.trie, 7);
  }

  lemma {:induction false} ValidIsSane(db: StateDB)
    requires db.Valid()
    ensures Sane(db.MachineView())
  {
    hide Sane, StateDB.Sound;
  }

  lemma {:induction false} NoneFinalised(accounts: map<Address, Account>)
    ensures Finalised(accounts, {}, true) == accounts
  {
  }

  lemma {:induction false} NoEntryViews(codes: Codes)
    ensures EntryViews(codes, []) == []
  {
  }

  lemma {:induction false} RecreatedInMachine(m: Machine)
    requires Sane(m) && 7 in m.ledger.accounts && m.entries == []
    ensures var m' := Step(m, Perform(Op.CreateAccount(7)));
            && |m'.entries| == 1 && m'.entries[0].Reset?
            && 7 in m'.ledger.accounts && m'.ledger.accounts[7].nonce == 0
  {
  }

  lemma {:induction false} NonceDiffers(accounts: map<Address, Account>, trie: map<Address, Data>, a: Address)
    requires a in accounts && a in trie && trie[a].nonce != accounts[a].nonce
    ensures !WrittenAt(accounts, trie, a)
  {
  }

  lemma {:induction false} NothingMarked(db: StateDB)
    requires db.Valid() && db.touches == 0 && |db.entries| == 1 && db.MachineView().entries[0].Reset?
    ensures db.dirties == map[]
  {
    hide Sane, Coherent, Tallied;
    assert db.entries[0].Reset?;
    ResetMarksNothing(db.entries, db.dirties);
  }

  lemma {:induction false} ResetMarksNothing(es: seq<ObjectEntry>, dirties: map<Address, int>)
    requires Tallied(es, dirties, 0) && |es| == 1 && es[0].Reset?
    ensures dirties == map[]
  {
    assert es[..0] == [];
    forall a: Address
      ensures a !in dirties
    {
      assert Times(dirties, a) == CountDirty(es, a) == 0;
    }
    assert dirties.Keys == {};
  }
}
