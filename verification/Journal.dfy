/** The journal of state changes: what each change does, what undoing it restores, and what
    survives going back to a snapshot. */
module Journal {
  import opened Bytes

  type Address = nat
  type Hash = nat
  type Amount = int

  const ZERO: Hash := 0
  const EMPTY_CODE: Hash := 1
  const UINT64: nat := 0x1_0000_0000_0000_0000

  /** Storage slots that are not zero. */
  type Storage = s: map<Hash, Hash> | forall k :: k in s ==> s[k] != ZERO witness map[]

  function Slot(s: Storage, k: Hash): Hash {
    if k in s then s[k] else ZERO
  }

  function PutSlot(s: Storage, k: Hash, v: Hash): Storage {
    if v == ZERO then s - {k} else s[k := v]
  }

  /** An account as readers see it. A fresh account has no unlocked balance or time at all. */
  datatype Account = Account(
    nonce: nat, balance: Amount,
    locked: Amount, lockedAt: Amount, unlocked: Option<Amount>, unlockedAt: Option<Amount>,
    codeHash: Hash, code: Bytes, storage: Storage, suicided: bool)

  const NEW_ACCOUNT := Account(0, 0, 0, 0, None, None, EMPTY_CODE, [], map[], false)

  predicate Empty(a: Account) {
    a.nonce == 0 && a.balance == 0 && a.codeHash == EMPTY_CODE
  }

  /** A log, and where it was made: its transaction, the block, the transaction's place in it and the log's number. */
  datatype Log = Log(body: Bytes, tx: Hash, block: Hash, txIndex: nat, index: int)

  /** Logs by transaction, for the transactions that have any. */
  type Logs = m: map<Hash, seq<Log>> | forall tx :: tx in m ==> m[tx] != [] witness map[]

  function WithLog(logs: Logs, tx: Hash, log: Log): Logs {
    logs[tx := (if tx in logs then logs[tx] else []) + [log]]
  }

  /** Without the last log of a transaction, and without the transaction if that was its only one. */
  function WithoutLog(logs: Logs, tx: Hash): Logs
    requires tx in logs
  {
    if |logs[tx]| == 1 then logs - {tx} else logs[tx := logs[tx][..|logs[tx]| - 1]]
  }

  lemma {:induction false} LogTakenBack(logs: Logs, tx: Hash, log: Log)
    ensures tx in WithLog(logs, tx, log) && WithoutLog(WithLog(logs, tx, log), tx) == logs
  {
    if tx in logs {
      assert (logs[tx] + [log])[..|logs[tx]|] == logs[tx];
    }
  }

  /** Everything readers of a state can see. */
  datatype Ledger = Ledger(
    accounts: map<Address, Account>, refund: nat,
    logs: Logs, logSize: int, preimages: map<Hash, Bytes>)

  /** Journal entries; T is how an overwritten account is kept. */
  datatype Change<T> =
    | Created(a: Address)
    | Reset(a: Address, old_: T)
    | Suicided(a: Address, was: bool, balance: Amount)
    | BalanceSet(a: Address, balance: Amount)
    | NonceSet(a: Address, nonce: nat)
    | SlotSet(a: Address, key: Hash, value: Hash)
    | CodeSet(a: Address, codeHash: Hash, code: Bytes)
    | LockedSet(a: Address, balance: Amount)
    | LockedAtSet(a: Address, time: Amount)
    | UnlockedSet(a: Address, balance: Amount)
    | Touched(a: Address)
    | Refunded(refund: nat)
    | Logged(tx: Hash)
    | PreimageAdded(hash: Hash)

  type Entry = Change<Account>

  // ---- undoing ----

  function With(l: Ledger, a: Address, acc: Account): Ledger {
    l.(accounts := l.accounts[a := acc])
  }

  predicate OfAccount(c: Entry) {
    c.Suicided? || c.BalanceSet? || c.NonceSet? || c.SlotSet? || c.CodeSet? || c.LockedSet? || c.LockedAtSet?
      || c.UnlockedSet?
  }

  /** An account with the fields an entry holds put back. */
  function Restore(acc: Account, c: Entry): Account
    requires OfAccount(c)
  {
    match c
    case Suicided(_, was, b) => acc.(suicided := was, balance := b)
    case BalanceSet(_, b) => acc.(balance := b)
    case NonceSet(_, n) => acc.(nonce := n)
    case SlotSet(_, k, v) => acc.(storage := PutSlot(acc.storage, k, v))
    case CodeSet(_, h, code) => acc.(codeHash := h, code := code)
    case LockedSet(_, b) => acc.(locked := b)
    case LockedAtSet(_, t) => acc.(lockedAt := t)
    case UnlockedSet(_, b) => acc.(unlocked := Some(b))
  }

  /** An entry of an account can only be undone while the account is there. */
  predicate Undoable(l: Ledger, c: Entry) {
    (c.Logged? ==> c.tx in l.logs) && (OfAccount(c) ==> c.a in l.accounts)
  }

  function Undo(l: Ledger, c: Entry): Ledger
    requires Undoable(l, c)
  {
    match c
    case Created(a) => l.(accounts := l.accounts - {a})
    case Reset(a, acc) => With(l, a, acc)
    case Touched(_) => l
    case Refunded(r) => l.(refund := r)
    case Logged(tx) =>
      l.(logs := WithoutLog(l.logs, tx), logSize := l.logSize - 1)
    case PreimageAdded(h) => l.(preimages := l.preimages - {h})
    case _ => With(l, c.a, Restore(l.accounts[c.a], c))
  }

  /** The entries from n on can be undone one after the other, last first. */
  ghost predicate Replayable(l: Ledger, cs: seq<Entry>, n: nat)
    requires n <= |cs|
    decreases |cs|
  {
    |cs| > n ==> Undoable(l, cs[|cs| - 1]) && Replayable(Undo(l, cs[|cs| - 1]), cs[..|cs| - 1], n)
  }

  function UndoTo(l: Ledger, cs: seq<Entry>, n: nat): Ledger
    requires n <= |cs| && Replayable(l, cs, n)
    decreases |cs|
  {
    if |cs| == n then l else UndoTo(Undo(l, cs[|cs| - 1]), cs[..|cs| - 1], n)
  }

  lemma {:induction false} UndoStep(l: Ledger, cs: seq<Entry>, n: nat)
    requires n < |cs| && Replayable(l, cs, n)
    ensures var c, front := cs[|cs| - 1], cs[..|cs| - 1];
            && Undoable(l, c) && Replayable(Undo(l, c), front, n) && UndoTo(l, cs, n) == UndoTo(Undo(l, c), front, n)
  {
    hide Undo, Undoable;
  }

  lemma {:induction false} UndoOne(l: Ledger, c: Entry)
    requires Undoable(l, c)
    ensures Replayable(l, [c], 0) && UndoTo(l, [c], 0) == Undo(l, c)
  {
    hide Undo, Undoable;
    UndoLast(l, [], c, 0);
    assert [] + [c] == [c];
  }

  lemma {:induction false} UndoLast(l: Ledger, cs: seq<Entry>, c: Entry, n: nat)
    requires n <= |cs| && Undoable(l, c) && Replayable(Undo(l, c), cs, n)
    ensures Replayable(l, cs + [c], n) && UndoTo(l, cs + [c], n) == UndoTo(Undo(l, c), cs, n)
  {
    hide Undo, Undoable;
    assert (cs + [c])[..|cs|] == cs;
  }

  /** Going back in two steps is going back in one. */
  lemma {:induction false} UndoInSteps(l: Ledger, cs: seq<Entry>, m: nat, n: nat)
    requires n <= m <= |cs| && Replayable(l, cs, n)
    ensures Replayable(l, cs, m) && Replayable(UndoTo(l, cs, m), cs[..m], n)
    ensures UndoTo(UndoTo(l, cs, m), cs[..m], n) == UndoTo(l, cs, n)
    decreases |cs|
  {
    hide Undo, Undoable;
    if |cs| == m {
      assert cs[..m] == cs;
    } else {
      var front := cs[..|cs| - 1];
      UndoInSteps(Undo(l, cs[|cs| - 1]), front, m, n);
      assert front[..m] == cs[..m];
    }
  }

  // ---- changes ----

  datatype Op =
    | CreateAccount(a: Address)
    | Suicide(a: Address)
    | AddBalance(a: Address, amount: Amount)
    | SubBalance(a: Address, amount: Amount)
    | SetBalance(a: Address, amount: Amount)
    | SetNonce(a: Address, nonce: nat)
    | SetState(a: Address, key: Hash, value: Hash)
    | SetCode(a: Address, codeHash: Hash, code: Bytes)
    | SetLocked(a: Address, amount: Amount)
    | SetLockedAt(a: Address, time: Amount)
    | SetUnlocked(a: Address, amount: Amount)
    | SetUnlockedAt(a: Address, time: Amount)
    | AddRefund(gas: nat)
    | AddLog(tx: Hash, log: Log)
    | AddPreimage(hash: Hash, preimage: Bytes)

  /** The unlocked balance cannot be set before it exists: the change would copy a missing number. */
  predicate Enabled(l: Ledger, op: Op) {
    op.SetUnlocked? ==> op.a in l.accounts && l.accounts[op.a].unlocked.Some?
  }

  /** The account at a, made fresh if there is none. */
  function GetOrNew(l: Ledger, a: Address): (Account, seq<Entry>) {
    if a in l.accounts then (l.accounts[a], []) else (NEW_ACCOUNT, [Created(a)])
  }

  /** What an operation does to an account it has found or made, and the entry it leaves. */
  function OnAccount(acc: Account, op: Op): (Account, seq<Entry>)
    requires op.SetUnlocked? ==> acc.unlocked.Some?
  {
    match op
    case AddBalance(a, x) =>
      if x != 0 then (acc.(balance := acc.balance + x), [BalanceSet(a, acc.balance)])
      else (acc, if Empty(acc) then [Touched(a)] else [])
    case SubBalance(a, x) =>
      if x != 0 then (acc.(balance := acc.balance - x), [BalanceSet(a, acc.balance)]) else (acc, [])
    case SetBalance(a, x) => (acc.(balance := x), [BalanceSet(a, acc.balance)])
    case SetNonce(a, n) => (acc.(nonce := n), [NonceSet(a, acc.nonce)])
    case SetState(a, k, v) => (acc.(storage := PutSlot(acc.storage, k, v)), [SlotSet(a, k, Slot(acc.storage, k))])
    case SetCode(a, h, code) => (acc.(codeHash := h, code := code), [CodeSet(a, acc.codeHash, acc.code)])
    case SetLocked(a, x) => (acc.(locked := x), [LockedSet(a, acc.locked)])
    case SetLockedAt(a, t) => (acc.(lockedAt := t), [LockedAtSet(a, acc.lockedAt)])
    case SetUnlocked(a, x) => (acc.(unlocked := Some(x)), [UnlockedSet(a, acc.unlocked.value)])
    case SetUnlockedAt(a, t) => (acc.(unlockedAt := Some(t)), [])
    case _ => (acc, [])
  }

  /** The ledger after an operation, and the entries it leaves in the journal. */
  function Do(l: Ledger, op: Op): (Ledger, seq<Entry>)
    requires Enabled(l, op)
  {
    match op
    case CreateAccount(a) =>
      if a in l.accounts then (With(l, a, NEW_ACCOUNT.(balance := l.accounts[a].balance)), [Reset(a, l.accounts[a])])
      else (With(l, a, NEW_ACCOUNT), [Created(a)])
    case Suicide(a) =>
      if a in l.accounts then
        (With(l, a, l.accounts[a].(suicided := true, balance := 0)),
          [Suicided(a, l.accounts[a].suicided, l.accounts[a].balance)])
      else (l, [])
    case AddRefund(gas) => (l.(refund := (l.refund + gas) % UINT64), [Refunded(l.refund)])
    case AddLog(tx, log) =>
      (l.(logs := WithLog(l.logs, tx, log), logSize := l.logSize + 1), [Logged(tx)])
    case AddPreimage(h, p) =>
      if h in l.preimages then (l, []) else (l.(preimages := l.preimages[h := p]), [PreimageAdded(h)])
    case _ =>
      var (acc, made) := GetOrNew(l, op.a);
      var (acc', left) := OnAccount(acc, op);
      (With(l, op.a, acc'), made + left)
  }

  /** The one operation that leaves no trace: moving the unlocking time of an account that exists. */
  predicate Traceless(l: Ledger, op: Op) {
    op.SetUnlockedAt? && op.a in l.accounts && l.accounts[op.a].unlockedAt != Some(op.time)
  }

  predicate OnGiven(op: Op) {
    !op.CreateAccount? && !op.Suicide? && !op.AddRefund? && !op.AddLog? && !op.AddPreimage?
  }

  lemma {:induction false} PutBack(s: Storage, k: Hash, v: Hash)
    ensures PutSlot(PutSlot(s, k, v), k, Slot(s, k)) == s
  {
  }

  lemma {:induction false} UndoOnAccount(l: Ledger, acc: Account, op: Op)
    requires OnGiven(op) && (op.SetUnlocked? ==> acc.unlocked.Some?) && op.a in l.accounts
             && l.accounts[op.a] == OnAccount(acc, op).0
    requires op.SetUnlockedAt? ==> acc.unlockedAt == Some(op.time)
    ensures var left := OnAccount(acc, op).1; Replayable(l, left, 0) && UndoTo(l, left, 0) == With(l, op.a, acc)
  {
    hide Undo, Undoable, OnAccount, With;
    var left := OnAccount(acc, op).1;
    UndoLeft(l, acc, op);
    if left == [] {
      UndoNothing(l);
    } else {
      assert left == [left[0]];
      UndoOne(l, left[0]);
    }
  }

  lemma {:induction false} UndoNothing(l: Ledger)
    ensures Replayable(l, [], 0) && UndoTo(l, [], 0) == l
  {
  }

  /** The entry an operation leaves, if it leaves one, undoes it. */
  lemma {:induction false} UndoLeft(l: Ledger, acc: Account, op: Op)
    requires OnGiven(op) && (op.SetUnlocked? ==> acc.unlocked.Some?) && op.a in l.accounts
             && l.accounts[op.a] == OnAccount(acc, op).0
    requires op.SetUnlockedAt? ==> acc.unlockedAt == Some(op.time)
    ensures var left := OnAccount(acc, op).1;
            && |left| <= 1 && (left == [] ==> l == With(l, op.a, acc))
            && (left != [] ==> Undoable(l, left[0]) && Undo(l, left[0]) == With(l, op.a, acc))
  {
    hide Undo, OnAccount, Restore;
    RestoreLeft(acc, op);
    var left := OnAccount(acc, op).1;
    if left == [] {
      assert l == With(l, op.a, acc);
    } else if left[0].Touched? {
      assert l == With(l, op.a, acc);
      UndoTouched(l, left[0]);
    } else {
      UndoField(l, left[0]);
    }
  }

  lemma {:induction false} UndoTouched(l: Ledger, c: Entry)
    requires c.Touched?
    ensures Undoable(l, c) && Undo(l, c) == l
  {
  }

  lemma {:induction false} RestoreLeft(acc: Account, op: Op)
    requires OnGiven(op) && (op.SetUnlocked? ==> acc.unlocked.Some?)
    requires op.SetUnlockedAt? ==> acc.unlockedAt == Some(op.time)
    ensures var (acc', left) := OnAccount(acc, op);
            && |left| <= 1 && (left == [] ==> acc' == acc)
            && (left != [] && !left[0].Touched? ==>
                  OfAccount(left[0]) && left[0].a == op.a && Restore(acc', left[0]) == acc)
            && (left != [] && left[0].Touched? ==> acc' == acc)
  {
    if op.SetState? {
      PutBack(acc.storage, op.key, op.value);
    }
  }

  lemma {:induction false} UndoBoth(l: Ledger, cs: seq<Entry>, ds: seq<Entry>, n: nat)
    requires n <= |cs| && Replayable(l, ds, 0) && Replayable(UndoTo(l, ds, 0), cs, n)
    ensures Replayable(l, cs + ds, n) && UndoTo(l, cs + ds, n) == UndoTo(UndoTo(l, ds, 0), cs, n)
    decreases |ds|
  {
    hide Undo, Undoable;
    if ds == [] {
      assert cs + ds == cs;
    } else {
      var d, front := ds[|ds| - 1], ds[..|ds| - 1];
      UndoBoth(Undo(l, d), cs, front, n);
      UndoLast(l, cs + front, d, n);
      assert cs + ds == cs + front + [d];
    }
  }

  /** An operation leaves entries that undo it, unless it is the traceless one: exactly then
      undoing does not give the ledger back. */
  lemma {:induction false} DoUndo(l: Ledger, op: Op)
    requires Enabled(l, op)
    ensures var (l', cs) := Do(l, op);
            Replayable(l', cs, 0) && (UndoTo(l', cs, 0) == l <==> !Traceless(l, op))
  {
    hide Do, Undo, Undoable;
    if OnGiven(op) {
      UndoGiven(l, op);
    } else {
      UndoOther(l, op);
    }
  }

  lemma {:induction false} UndoOther(l: Ledger, op: Op)
    requires Enabled(l, op) && !OnGiven(op)
    ensures var (l', cs) := Do(l, op); Replayable(l', cs, 0) && UndoTo(l', cs, 0) == l
  {
    hide Undo, Undoable, Do, Replayable, UndoTo;
    var (l', cs) := Do(l, op);
    if op.AddLog? {
      UndoLog(l, op.tx, op.log);
    } else {
      UndoSingle(l, op);
      if cs == [] {
        UndoNothing(l);
      } else {
        assert cs == [cs[0]];
        UndoOne(l', cs[0]);
      }
    }
  }

  lemma {:induction false} UndoSingle(l: Ledger, op: Op)
    requires Enabled(l, op) && !OnGiven(op) && !op.AddLog?
    ensures var (l', cs) := Do(l, op);
            |cs| <= 1 && (cs == [] ==> l' == l) && (cs != [] ==> Undoable(l', cs[0]) && Undo(l', cs[0]) == l)
  {
    hide OnAccount, GetOrNew;
    var (l', cs) := Do(l, op);
    if cs != [] {
      assert Undo(l', cs[0]).accounts == l.accounts && Undo(l', cs[0]).preimages == l.preimages;
    }
  }

  lemma {:induction false} UndoLog(l: Ledger, tx: Hash, log: Log)
    ensures var (l', cs) := Do(l, AddLog(tx, log)); Replayable(l', cs, 0) && UndoTo(l', cs, 0) == l
  {
    hide OnAccount, GetOrNew, Restore, WithLog, WithoutLog;
    LogTakenBack(l.logs, tx, log);
    UndoOne(Do(l, AddLog(tx, log)).0, Logged(tx));
  }

  lemma {:induction false} UndoMade(l: Ledger, a: Address, acc: Account)
    requires acc == GetOrNew(l, a).0
    ensures var made := GetOrNew(l, a).1; Replayable(With(l, a, acc), made, 0) && UndoTo(With(l, a, acc), made, 0) == l
  {
    if a in l.accounts {
      assert With(l, a, acc) == l;
    } else {
      UndoOne(With(l, a, acc), Created(a));
      assert With(l, a, acc).accounts - {a} == l.accounts;
    }
  }

  lemma {:induction false} UndoGiven(l: Ledger, op: Op)
    requires Enabled(l, op) && OnGiven(op)
    ensures var (l', cs) := Do(l, op);
            Replayable(l', cs, 0) && (UndoTo(l', cs, 0) == l <==> !Traceless(l, op))
  {
    hide Undo, Undoable, Do, OnAccount;
    var acc := GetOrNew(l, op.a).0;
    if op.SetUnlockedAt? && acc.unlockedAt != Some(op.time) {
      UndoTimeMoved(l, op);
    } else {
      UndoMadeAndLeft(l, op);
    }
  }

  /** Moving the unlocking time of an account leaves only the entry for making it, if it was made. */
  lemma {:induction false} UndoTimeMoved(l: Ledger, op: Op)
    requires Enabled(l, op) && op.SetUnlockedAt? && GetOrNew(l, op.a).0.unlockedAt != Some(op.time)
    ensures var (l', cs) := Do(l, op);
            Replayable(l', cs, 0) && (UndoTo(l', cs, 0) == l <==> !Traceless(l, op))
  {
    var (l', cs) := Do(l, op);
    if op.a in l.accounts {
      assert cs == [] && l'.accounts[op.a] != l.accounts[op.a];
    } else {
      assert cs == [Created(op.a)];
      UndoOne(l', Created(op.a));
      assert l'.accounts - {op.a} == l.accounts;
    }
  }

  lemma {:induction false} DoGiven(l: Ledger, op: Op)
    requires Enabled(l, op) && OnGiven(op)
    ensures var (acc, made) := GetOrNew(l, op.a); var (acc', left) := OnAccount(acc, op);
            Do(l, op) == (With(l, op.a, acc'), made + left)
  {
    hide OnAccount;
  }

  lemma {:induction false} UndoMadeAndLeft(l: Ledger, op: Op)
    requires Enabled(l, op) && OnGiven(op)
    requires op.SetUnlockedAt? ==> GetOrNew(l, op.a).0.unlockedAt == Some(op.time)
    ensures var (l', cs) := Do(l, op);
            Replayable(l', cs, 0) && UndoTo(l', cs, 0) == l && !Traceless(l, op)
  {
    hide Undo, Undoable, Do, OnAccount, Replayable, UndoTo;
    DoGiven(l, op);
    var (acc, made) := GetOrNew(l, op.a);
    var (acc', left) := OnAccount(acc, op);
    var l' := With(l, op.a, acc');
    UndoOnAccount(l', acc, op);
    assert With(l', op.a, acc) == With(l, op.a, acc);
    UndoMade(l, op.a, acc);
    UndoBoth(l', made, left, 0);
  }

  // ---- snapshots ----

  datatype Revision = Revision(id: nat, index: nat)

  datatype Machine = Machine(ledger: Ledger, entries: seq<Entry>, revisions: seq<Revision>, nextId: nat)

  datatype Command = Perform(op: Op) | TakeSnapshot | RevertTo(id: nat)

  ghost predicate Ascending(revs: seq<Revision>, count: nat, nextId: nat) {
    && (forall i :: 0 <= i < |revs| ==> revs[i].id < nextId && revs[i].index <= count)
    && (forall i, j :: 0 <= i < j < |revs| ==> revs[i].id < revs[j].id && revs[i].index <= revs[j].index)
  }

  /** The journal can be undone to the start, and snapshots are in order. */
  ghost predicate Sane(m: Machine) {
    Replayable(m.ledger, m.entries, 0) && Ascending(m.revisions, |m.entries|, m.nextId)
  }

  /** The first revision with at least the given id; their number if there is none. */
  function Find(revs: seq<Revision>, id: nat): (i: nat)
    ensures i <= |revs|
    ensures i < |revs| ==> revs[i].id >= id
    ensures i > 0 ==> revs[i - 1].id < id
  {
    if revs == [] || revs[|revs| - 1].id < id then |revs| else Find(revs[..|revs| - 1], id)
  }

  predicate Marked(revs: seq<Revision>, id: nat) {
    var i := Find(revs, id);
    i < |revs| && revs[i].id == id
  }

  /** Going back to an unknown snapshot is refused. */
  predicate Possible(m: Machine, cmd: Command) {
    match cmd
    case Perform(op) => Enabled(m.ledger, op)
    case TakeSnapshot => true
    case RevertTo(id) => Marked(m.revisions, id)
  }

  function Step(m: Machine, cmd: Command): Machine
    requires Sane(m) && Possible(m, cmd)
  {
    match cmd
    case Perform(op) =>
      var (l, cs) := Do(m.ledger, op);
      m.(ledger := l, entries := m.entries + cs)
    case TakeSnapshot =>
      m.(revisions := m.revisions + [Revision(m.nextId, |m.entries|)], nextId := m.nextId + 1)
    case RevertTo(id) =>
      var i := Find(m.revisions, id);
      var n := m.revisions[i].index;
      UndoInSteps(m.ledger, m.entries, n, 0);
      m.(ledger := UndoTo(m.ledger, m.entries, n), entries := m.entries[..n], revisions := m.revisions[..i])
  }

  /** Every operation leaves a journal that can still be undone from any point, to the ledger there was. */
  lemma {:induction false} DoKeeps(l: Ledger, cs: seq<Entry>, n: nat, op: Op)
    requires Enabled(l, op) && n <= |cs| && Replayable(l, cs, n)
    ensures var (l', ds) := Do(l, op);
            && Replayable(l', cs + ds, n)
            && (!(op.SetUnlockedAt? && op.a in l.accounts) ==> UndoTo(l', cs + ds, n) == UndoTo(l, cs, n))
  {
    var (l', ds) := Do(l, op);
    if op.SetUnlockedAt? && op.a in l.accounts {
      assert l' == Stamp(l, op.a, op.time) && cs + ds == cs;
      hide Do, Undo, Undoable;
      StampCommutes(l, op.a, op.time, cs, n);
    } else {
      hide Do, Undo, Undoable;
      DoUndo(l, op);
      UndoBoth(l', cs, ds, n);
    }
  }

  // ---- unlocking times ----

  function Stamp(l: Ledger, a: Address, t: Amount): Ledger
    requires a in l.accounts
  {
    With(l, a, l.accounts[a].(unlockedAt := Some(t)))
  }

  predicate Replaces(c: Entry, a: Address) {
    (c.Created? || c.Reset?) && c.a == a
  }

  /** The account has been neither made nor made anew since entry n. */
  ghost predicate Same(cs: seq<Entry>, n: nat, a: Address)
    requires n <= |cs|
  {
    forall i :: n <= i < |cs| ==> !Replaces(cs[i], a)
  }

  lemma {:induction false} UndoStamp(l: Ledger, a: Address, t: Amount, c: Entry)
    requires a in l.accounts && Undoable(l, c)
    ensures Undoable(Stamp(l, a, t), c)
    ensures Replaces(c, a) ==> Undo(Stamp(l, a, t), c) == Undo(l, c)
    ensures !Replaces(c, a) ==> a in Undo(l, c).accounts && Undo(Stamp(l, a, t), c) == Stamp(Undo(l, c), a, t)
  {
    if OfAccount(c) {
      UndoStampField(l, a, t, c);
    } else {
      UndoStampOther(l, a, t, c);
    }
  }

  lemma {:induction false} UndoStampOther(l: Ledger, a: Address, t: Amount, c: Entry)
    requires a in l.accounts && Undoable(l, c) && !OfAccount(c)
    ensures Undoable(Stamp(l, a, t), c)
    ensures Replaces(c, a) ==> Undo(Stamp(l, a, t), c) == Undo(l, c)
    ensures !Replaces(c, a) ==> a in Undo(l, c).accounts && Undo(Stamp(l, a, t), c) == Stamp(Undo(l, c), a, t)
  {
    hide WithoutLog;
    if c.Created? || c.Reset? {
      UndoStampMade(l, a, t, c);
    }
  }

  lemma {:induction false} UndoStampMade(l: Ledger, a: Address, t: Amount, c: Entry)
    requires a in l.accounts && (c.Created? || c.Reset?)
    ensures Undoable(l, c) && Undoable(Stamp(l, a, t), c)
    ensures c.a == a ==> Undo(Stamp(l, a, t), c) == Undo(l, c)
    ensures c.a != a ==> a in Undo(l, c).accounts && Undo(Stamp(l, a, t), c) == Stamp(Undo(l, c), a, t)
  {
    if c.a != a {
      assert Undo(Stamp(l, a, t), c).accounts == Stamp(Undo(l, c), a, t).accounts;
    } else {
      assert Undo(Stamp(l, a, t), c).accounts == Undo(l, c).accounts;
    }
  }

  lemma {:induction false} UndoStampField(l: Ledger, a: Address, t: Amount, c: Entry)
    requires a in l.accounts && OfAccount(c) && c.a in l.accounts
    ensures Undo(Stamp(l, a, t), c) == Stamp(Undo(l, c), a, t)
  {
    hide Restore, Undo;
    var acc := l.accounts[c.a];
    UndoField(l, c);
    UndoField(Stamp(l, a, t), c);
    RestoreStamp(acc, c, t);
    assert Undo(Stamp(l, a, t), c).accounts == Stamp(Undo(l, c), a, t).accounts;
  }

  lemma {:induction false} RestoreStamp(acc: Account, c: Entry, t: Amount)
    requires OfAccount(c)
    ensures Restore(acc.(unlockedAt := Some(t)), c) == Restore(acc, c).(unlockedAt := Some(t))
  {
  }

  lemma {:induction false} UndoField(l: Ledger, c: Entry)
    requires OfAccount(c) && c.a in l.accounts
    ensures Undo(l, c) == With(l, c.a, Restore(l.accounts[c.a], c))
  {
  }

  /** Undoing keeps an unlocking time that was written over, unless it undoes the making of the account. */
  lemma {:induction false} StampCommutes(l: Ledger, a: Address, t: Amount, cs: seq<Entry>, n: nat)
    requires a in l.accounts && n <= |cs| && Replayable(l, cs, n)
    ensures Replayable(Stamp(l, a, t), cs, n)
    ensures if Same(cs, n, a) then a in UndoTo(l, cs, n).accounts
            && UndoTo(Stamp(l, a, t), cs, n) == Stamp(UndoTo(l, cs, n), a, t)
            else UndoTo(Stamp(l, a, t), cs, n) == UndoTo(l, cs, n)
    decreases |cs|
  {
    hide Undo, Undoable, Replaces, Stamp;
    if |cs| > n {
      var c, front := cs[|cs| - 1], cs[..|cs| - 1];
      UndoStamp(l, a, t, c);
      if !Replaces(c, a) {
        StampCommutes(Undo(l, c), a, t, front, n);
        assert Same(cs, n, a) <==> Same(front, n, a);
      }
    }
  }

  // ---- runs ----

  lemma {:induction false} StepKeeps(m: Machine, cmd: Command)
    requires Sane(m) && Possible(m, cmd)
    ensures Sane(Step(m, cmd))
  {
    match cmd
    case Perform(op) =>
      DoKeeps(m.ledger, m.entries, 0, op);
    case TakeSnapshot =>
    case RevertTo(id) =>
      var n := m.revisions[Find(m.revisions, id)].index;
      UndoInSteps(m.ledger, m.entries, n, 0);
  }

  /** A run: every command follows from the machine before it. */
  ghost predicate Run(ms: seq<Machine>, cmds: seq<Command>) {
    && |ms| == |cmds| + 1
    && (forall i :: 0 <= i < |ms| ==> Sane(ms[i]))
    && (forall i :: 0 <= i < |cmds| ==> Possible(ms[i], cmds[i]) && ms[i + 1] == Step(ms[i], cmds[i]))
  }

  /** A command that moves the unlocking time of an account that is the same one as at entry n. */
  ghost predicate Moves(m: Machine, cmd: Command, n: nat) {
    && cmd.Perform? && cmd.op.SetUnlockedAt? && cmd.op.a in m.ledger.accounts
    && n <= |m.entries| && Same(m.entries, n, cmd.op.a)
  }

  /** The unlocking times a run has moved for good, by the last move of each. */
  ghost function Moved(ms: seq<Machine>, cmds: seq<Command>, n: nat): map<Address, Amount>
    requires |ms| == |cmds| + 1
  {
    if cmds == [] then map[]
    else
      var k := |cmds| - 1;
      var before := Moved(ms[..k + 1], cmds[..k], n);
      if Moves(ms[k], cmds[k], n) then before[cmds[k].op.a := cmds[k].op.time] else before
  }

  function Stamped(l: Ledger, times: map<Address, Amount>): Ledger {
    l.(accounts := map a | a in l.accounts ::
         if a in times then l.accounts[a].(unlockedAt := Some(times[a])) else l.accounts[a])
  }

  /** The snapshot r, the p-th revision, is in force: undoing to it gives the ledger l but for the times. */
  ghost predicate InForce(m: Machine, p: nat, r: Revision, l: Ledger, times: map<Address, Amount>,
                          entries: seq<Entry>) {
    && p < |m.revisions| && m.revisions[p] == r && r.index <= |m.entries| && m.entries[..r.index] == entries
    && Replayable(m.ledger, m.entries, r.index)
    && UndoTo(m.ledger, m.entries, r.index) == Stamped(l, times)
    && forall a :: a in times ==> a in l.accounts
  }

  lemma {:induction false} StampStamped(l: Ledger, times: map<Address, Amount>, a: Address, t: Amount)
    requires a in l.accounts
    ensures Stamp(Stamped(l, times), a, t) == Stamped(l, times[a := t])
  {
    assert Stamp(Stamped(l, times), a, t).accounts == Stamped(l, times[a := t]).accounts;
  }

  /** A command that does not go back to the snapshot or further keeps it in force. */
  lemma {:induction false} StepInForce(m: Machine, cmd: Command, p: nat, r: Revision, l: Ledger,
                                       times: map<Address, Amount>, entries: seq<Entry>)
    requires Sane(m) && Possible(m, cmd) && InForce(m, p, r, l, times, entries)
    requires cmd.RevertTo? ==> cmd.id > r.id
    ensures InForce(Step(m, cmd), p, r, l, if Moves(m, cmd, r.index) then times[cmd.op.a := cmd.op.time]
            else times, entries)
  {
    hide Undo, Undoable, Stamped, Replayable, UndoTo;
    match cmd
    case Perform(op) =>
      DoInForce(m, op, p, r, l, times, entries);
    case TakeSnapshot =>
    case RevertTo(id) =>
      var i := Find(m.revisions, id);
      assert p < i;
      UndoInSteps(m.ledger, m.entries, m.revisions[i].index, 0);
      UndoInSteps(m.ledger, m.entries, m.revisions[i].index, r.index);
      assert m.entries[..m.revisions[i].index][..r.index] == entries;
  }

  lemma {:induction false} DoInForce(m: Machine, op: Op, p: nat, r: Revision, l: Ledger, times: map<Address, Amount>,
                                     entries: seq<Entry>)
    requires Sane(m) && Enabled(m.ledger, op) && InForce(m, p, r, l, times, entries)
    ensures InForce(Step(m, Perform(op)), p, r, l, if Moves(m, Perform(op), r.index) then times[op.a := op.time]
            else times, entries)
  {
    var (l', cs) := Do(m.ledger, op);
    DoKeeps(m.ledger, m.entries, r.index, op);
    assert (m.entries + cs)[..r.index] == entries;
    if op.SetUnlockedAt? && op.a in m.ledger.accounts {
      assert l' == Stamp(m.ledger, op.a, op.time) && m.entries + cs == m.entries;
      hide Undo, Undoable, Do, Stamped, Replayable, UndoTo;
      StampCommutes(m.ledger, op.a, op.time, m.entries, r.index);
      if Same(m.entries, r.index, op.a) {
        StampedAccounts(l, times);
        StampStamped(l, times, op.a, op.time);
      }
    }
  }

  lemma {:induction false} StampedAccounts(l: Ledger, times: map<Address, Amount>)
    ensures Stamped(l, times).accounts.Keys == l.accounts.Keys
  {
  }

  /** Through a whole run that does not go back to it, a snapshot stays in force. */
  lemma {:induction false} RunInForce(ms: seq<Machine>, cmds: seq<Command>, p: nat, r: Revision)
    requires Run(ms, cmds) && p < |ms[0].revisions| && ms[0].revisions[p] == r && r.index == |ms[0].entries|
    requires forall i :: 0 <= i < |cmds| && cmds[i].RevertTo? ==> cmds[i].id > r.id
    ensures InForce(ms[|cmds|], p, r, ms[0].ledger, Moved(ms, cmds, r.index), ms[0].entries)
    decreases |cmds|
  {
    hide Step, Undo, Possible;
    if cmds == [] {
      assert ms[0].entries[..r.index] == ms[0].entries;
      assert Stamped(ms[0].ledger, map[]).accounts == ms[0].ledger.accounts;
      hide Sane;
    } else {
      var k := |cmds| - 1;
      RunInForce(ms[..k + 1], cmds[..k], p, r);
      StepInForce(ms[k], cmds[k], p, r, ms[0].ledger, Moved(ms[..k + 1], cmds[..k], r.index), ms[0].entries);
    }
  }

  /** Going back to a snapshot gives back everything there was when it was taken, the journal
      included, except for unlocking times moved since; it gives back all of the ledger exactly
      when each of those was last moved to where it had been. */
  lemma {:induction false} RevertRestores(m: Machine, ms: seq<Machine>, cmds: seq<Command>)
    requires Sane(m) && Run(ms, cmds) && ms[0] == Step(m, TakeSnapshot)
    requires forall i :: 0 <= i < |cmds| && cmds[i].RevertTo? ==> cmds[i].id > m.nextId
    ensures Possible(ms[|cmds|], RevertTo(m.nextId))
    ensures var m' := Step(ms[|cmds|], RevertTo(m.nextId));
            var moved := Moved(ms, cmds, |m.entries|);
            && m'.ledger == Stamped(m.ledger, moved) && m'.entries == m.entries
            && (m'.ledger == m.ledger <==>
                forall a :: a in moved ==> a in m.ledger.accounts && m.ledger.accounts[a].unlockedAt == Some(moved[a]))
  {
    hide Undo, Undoable, Replayable, UndoTo, Moved;
    var p, r := |m.revisions|, Revision(m.nextId, |m.entries|);
    RunInForce(ms, cmds, p, r);
    var last, moved := ms[|cmds|], Moved(ms, cmds, |m.entries|);
    FindsIt(last.revisions, p);
    forall a | Stamped(m.ledger, moved) == m.ledger && a in moved
      ensures m.ledger.accounts[a].unlockedAt == Some(moved[a])
    {
      assert Stamped(m.ledger, moved).accounts[a].unlockedAt == Some(moved[a]);
    }
    if forall a :: a in moved ==> a in m.ledger.accounts && m.ledger.accounts[a].unlockedAt == Some(moved[a]) {
      assert Stamped(m.ledger, moved).accounts == m.ledger.accounts;
    }
  }

  lemma {:induction false} FindsIt(revs: seq<Revision>, p: nat)
    requires p < |revs| && forall i, j :: 0 <= i < j < |revs| ==> revs[i].id < revs[j].id
    ensures Find(revs, revs[p].id) == p
    decreases |revs|
  {
    if p < |revs| - 1 {
      FindsIt(revs[..|revs| - 1], p);
    } else if p > 0 {
      assert revs[..p][p - 1].id < revs[p].id;
    }
  }

  /** Going back to a snapshot forgets it and every later one. */
  lemma {:induction false} RevertForgets(m: Machine, id: nat, later: nat)
    requires Sane(m) && Possible(m, RevertTo(id)) && id <= later
    ensures !Marked(Step(m, RevertTo(id)).revisions, later)
  {
  }

  /** A moved unlocking time stays moved: the journal of this change is empty. */
  lemma {:induction false} MovedTimeStays()
    ensures var l := Ledger(map[7 := NEW_ACCOUNT.(unlockedAt := Some(5))], 0, map[], 0, map[]);
            var (l', cs) := Do(l, SetUnlockedAt(7, 6));
            Replayable(l', cs, 0) && UndoTo(l', cs, 0) != l
  {
    var l := Ledger(map[7 := NEW_ACCOUNT.(unlockedAt := Some(5))], 0, map[], 0, map[]);
    DoUndo(l, SetUnlockedAt(7, 6));
  }
}
