/** What a transaction leaves in the account trie, told from its run: an account the journal does not mark as changed is
    not written, and need not be unless it was made anew or its unlocking time was moved. */
module Persistence {
  import opened Bytes
  import opened Journal
  import opened StateDb

  // ---- what the journal says of one account ----

  predicate Concerns(e: Entry, a: Address) {
    !e.Refunded? && !e.Logged? && !e.PreimageAdded? && e.a == a
  }

  /** No entry marks the account as changed. */
  ghost predicate Unmarked(es: seq<Entry>, a: Address) {
    forall i :: 0 <= i < |es| && Concerns(es[i], a) ==> es[i].Reset?
  }

  /** The account has been made anew. */
  ghost predicate Recreated(es: seq<Entry>, a: Address) {
    exists i :: 0 <= i < |es| && es[i].Reset? && es[i].a == a
  }

  lemma {:induction false} Unconcerned(es: seq<Entry>, a: Address)
    requires Unmarked(es, a) && !Recreated(es, a)
    ensures forall i :: 0 <= i < |es| ==> !Concerns(es[i], a)
  {
  }

  /** What the database does not list as changed is not marked. */
  lemma {:induction false} NotDirtyIsUnmarked(db: StateDB, a: Address)
    requires db.Valid() && a !in db.dirties
    ensures Unmarked(db.MachineView().entries, a)
  {
    hide Sane, Coherent, Kept;
    assert Times(db.dirties, a) == 0;
    forall i | 0 <= i < |db.entries| && Concerns(db.MachineView().entries[i], a)
      ensures db.MachineView().entries[i].Reset?
    {
      NoneDirtied(db.entries, a, i);
    }
  }

  lemma {:induction false} NoneDirtied(es: seq<ObjectEntry>, a: Address, i: nat)
    requires CountDirty(es, a) == 0 && i < |es|
    ensures Dirtied(es[i]) != Some(a)
    decreases |es|
  {
    hide Dirtied;
    if i < |es| - 1 {
      NoneDirtied(es[..|es| - 1], a, i);
    }
  }

  ghost predicate SameAt(l: Ledger, l': Ledger, a: Address) {
    (a in l.accounts <==> a in l'.accounts) && (a in l.accounts ==> l.accounts[a] == l'.accounts[a])
  }

  lemma {:induction false} UndoOther(l: Ledger, e: Entry, a: Address)
    requires Undoable(l, e) && !Concerns(e, a)
    ensures SameAt(l, Undo(l, e), a)
  {
    hide Restore, WithoutLog;
  }

  /** Undoing entries that do not concern an account leaves it alone. */
  lemma {:induction false} UndoElsewhere(l: Ledger, es: seq<Entry>, n: nat, a: Address)
    requires n <= |es| && Replayable(l, es, n) && forall i :: n <= i < |es| ==> !Concerns(es[i], a)
    ensures SameAt(l, UndoTo(l, es, n), a)
    decreases |es|
  {
    hide Undo, Undoable, Concerns;
    if |es| > n {
      var e, front := es[|es| - 1], es[..|es| - 1];
      UndoStep(l, es, n);
      UndoOther(l, e, a);
      UndoElsewhere(Undo(l, e), front, n, a);
    }
  }

  // ---- undoing a whole transaction ----

  /** Undoing all of the journal gives the ledger l but for the times. */
  ghost predicate Started(m: Machine, l: Ledger, times: map<Address, Amount>) {
    && Replayable(m.ledger, m.entries, 0) && UndoTo(m.ledger, m.entries, 0) == Stamped(l, times)
    && forall a :: a in times ==> a in l.accounts
  }

  lemma {:induction false} StepStarted(m: Machine, cmd: Command, l: Ledger, times: map<Address, Amount>)
    requires Sane(m) && Possible(m, cmd) && Started(m, l, times)
    ensures Started(Step(m, cmd), l, if Moves(m, cmd, 0) then times[cmd.op.a := cmd.op.time] else times)
  {
    hide Undo, Undoable, Stamped, Replayable, UndoTo;
    match cmd
    case Perform(op) =>
      DoStarted(m, op, l, times);
    case TakeSnapshot =>
    case RevertTo(id) =>
      UndoInSteps(m.ledger, m.entries, m.revisions[Find(m.revisions, id)].index, 0);
  }

  lemma {:induction false} DoStarted(m: Machine, op: Op, l: Ledger, times: map<Address, Amount>)
    requires Sane(m) && Enabled(m.ledger, op) && Started(m, l, times)
    ensures Started(Step(m, Perform(op)), l, if Moves(m, Perform(op), 0) then times[op.a := op.time] else times)
  {
    var (l', es) := Do(m.ledger, op);
    DoKeeps(m.ledger, m.entries, 0, op);
    if op.SetUnlockedAt? && op.a in m.ledger.accounts {
      assert l' == Stamp(m.ledger, op.a, op.time) && m.entries + es == m.entries;
      hide Undo, Undoable, Do, Stamped, Replayable, UndoTo;
      StampCommutes(m.ledger, op.a, op.time, m.entries, 0);
      if Same(m.entries, 0, op.a) {
        StampedAccounts(l, times);
        StampStamped(l, times, op.a, op.time);
      }
    }
  }

  /** Undoing all a transaction has done gives the ledger it started with, but for the times it moved. */
  lemma {:induction false} UndoneToStart(ms: seq<Machine>, cmds: seq<Command>)
    requires Run(ms, cmds) && ms[0].entries == []
    ensures Started(ms[|cmds|], ms[0].ledger, Moved(ms, cmds, 0))
    decreases |cmds|
  {
    hide Step, Undo, Possible;
    if cmds == [] {
      assert Stamped(ms[0].ledger, map[]).accounts == ms[0].ledger.accounts;
      hide Sane;
    } else {
      var k := |cmds| - 1;
      UndoneToStart(ms[..k + 1], cmds[..k]);
      StepStarted(ms[k], cmds[k], ms[0].ledger, Moved(ms[..k + 1], cmds[..k], 0));
    }
  }

  // ---- accounts made anew ----

  /** A new account with a balance, but perhaps with an unlocking time. */
  predicate Renewed(acc: Account, balance: Amount) {
    acc == NEW_ACCOUNT.(balance := balance, unlockedAt := acc.unlockedAt)
  }

  /** Entry i made an account anew: right after it, the account is new and has kept its balance. */
  ghost predicate RenewedAt(l: Ledger, es: seq<Entry>, i: nat)
    requires i < |es| && Replayable(l, es, 0)
  {
    UndoInSteps(l, es, i + 1, 0);
    es[i].Reset? ==>
      var l' := UndoTo(l, es, i + 1);
      es[i].a in l'.accounts && Renewed(l'.accounts[es[i].a], es[i].old_.balance)
  }

  ghost predicate AllRenewed(l: Ledger, es: seq<Entry>) {
    Replayable(l, es, 0) && forall i :: 0 <= i < |es| ==> RenewedAt(l, es, i)
  }

  lemma {:induction false} StampStaysRenewed(l: Ledger, a: Address, t: Amount, b: Address, balance: Amount)
    requires a in l.accounts && b in l.accounts && Renewed(l.accounts[b], balance)
    ensures b in Stamp(l, a, t).accounts && Renewed(Stamp(l, a, t).accounts[b], balance)
  {
  }

  lemma {:induction false} DoRenews(l: Ledger, es: seq<Entry>, op: Op)
    requires Enabled(l, op) && AllRenewed(l, es)
    ensures var (l', more) := Do(l, op); AllRenewed(l', es + more)
  {
    hide Undo, Undoable, Renewed, Replayable, UndoTo, Do;
    var (l', more) := Do(l, op);
    var es' := es + more;
    DoKeeps(l, es, 0, op);
    forall i | 0 <= i < |es'|
      ensures RenewedAt(l', es', i)
    {
      if i < |es| {
        StaysRenewed(l, es, op, i);
      } else {
        NewlyRenewed(l, es, op, i);
      }
    }
  }

  lemma {:induction false} StampedRenewed(l: Ledger, es: seq<Entry>, a: Address, t: Amount, i: nat)
    requires a in l.accounts && Replayable(l, es, 0) && i < |es| && RenewedAt(l, es, i)
    ensures Replayable(Stamp(l, a, t), es, 0) && RenewedAt(Stamp(l, a, t), es, i)
  {
    hide Undo, Undoable, Replayable, UndoTo, Renewed, Stamp;
    StampCommutes(l, a, t, es, 0);
    UndoInSteps(l, es, i + 1, 0);
    StampCommutes(l, a, t, es, i + 1);
    if es[i].Reset? && Same(es, i + 1, a) {
      StampStaysRenewed(UndoTo(l, es, i + 1), a, t, es[i].a, es[i].old_.balance);
    }
  }

  lemma {:induction false} StaysRenewed(l: Ledger, es: seq<Entry>, op: Op, i: nat)
    requires Enabled(l, op) && Replayable(l, es, 0) && i < |es| && RenewedAt(l, es, i)
    ensures var (l', more) := Do(l, op);
            Replayable(l', es + more, 0) && RenewedAt(l', es + more, i)
  {
    hide Undo, Undoable, Replayable, UndoTo, Do, RenewedAt;
    var (l', more) := Do(l, op);
    if op.SetUnlockedAt? && op.a in l.accounts {
      StampIsAll(l, es, op);
      StampedRenewed(l, es, op.a, op.time, i);
    } else {
      TracedRenewed(l, es, op, i);
    }
  }

  lemma {:induction false} StampIsAll(l: Ledger, es: seq<Entry>, op: Op)
    requires op.SetUnlockedAt? && op.a in l.accounts
    ensures Do(l, op).0 == Stamp(l, op.a, op.time) && es + Do(l, op).1 == es
  {
  }

  lemma {:induction false} TracedRenewed(l: Ledger, es: seq<Entry>, op: Op, i: nat)
    requires Enabled(l, op) && Replayable(l, es, 0) && i < |es| && RenewedAt(l, es, i)
    requires !(op.SetUnlockedAt? && op.a in l.accounts)
    ensures var (l', more) := Do(l, op);
            Replayable(l', es + more, 0) && RenewedAt(l', es + more, i)
  {
    hide Undo, Undoable, Replayable, UndoTo, Do, Renewed;
    DoKeeps(l, es, 0, op);
    UndoInSteps(l, es, i + 1, 0);
    DoKeeps(l, es, i + 1, op);
    assert (es + Do(l, op).1)[i] == es[i];
  }

  lemma {:induction false} NewlyRenewed(l: Ledger, es: seq<Entry>, op: Op, i: nat)
    requires Enabled(l, op) && Replayable(l, es, 0) && |es| <= i < |es + Do(l, op).1|
    ensures var (l', more) := Do(l, op);
            Replayable(l', es + more, 0) && RenewedAt(l', es + more, i)
  {
    hide Undo, Undoable, Replayable;
    DoKeeps(l, es, 0, op);
    var (l', more) := Do(l, op);
    var es' := es + more;
    assert es'[i] == more[i - |es|];
    if es'[i].Reset? {
      assert op.CreateAccount? && |es'| == i + 1;
      assert UndoTo(l', es', |es'|) == l' by { UndoInSteps(l', es', |es'|, 0); }
    }
  }

  lemma {:induction false} BackIsRenewed(l: Ledger, es: seq<Entry>, n: nat)
    requires AllRenewed(l, es) && n <= |es|
    ensures Replayable(l, es, n) && AllRenewed(UndoTo(l, es, n), es[..n])
  {
    hide Undo, Undoable, Renewed, Replayable, UndoTo;
    UndoInSteps(l, es, n, 0);
    forall i | 0 <= i < n
      ensures RenewedAt(UndoTo(l, es, n), es[..n], i)
    {
      assert RenewedAt(l, es, i);
      UndoInSteps(l, es, i + 1, 0);
      UndoInSteps(l, es, n, i + 1);
    }
  }

  /** Whenever an account has been made anew, right after that it was new and had kept its balance. */
  lemma {:induction false} RunRenews(ms: seq<Machine>, cmds: seq<Command>)
    requires Run(ms, cmds) && ms[0].entries == []
    ensures AllRenewed(ms[|cmds|].ledger, ms[|cmds|].entries)
    decreases |cmds|
  {
    hide Undo, Possible, AllRenewed;
    if cmds == [] {
      NoneRenewed(ms[0].ledger);
    } else {
      var k := |cmds| - 1;
      RunRenews(ms[..k + 1], cmds[..k]);
      StepRenews(ms[k], cmds[k]);
    }
  }

  lemma {:induction false} NoneRenewed(l: Ledger)
    ensures AllRenewed(l, [])
  {
  }

  lemma {:induction false} StepRenews(m: Machine, cmd: Command)
    requires Sane(m) && Possible(m, cmd) && AllRenewed(m.ledger, m.entries)
    ensures AllRenewed(Step(m, cmd).ledger, Step(m, cmd).entries)
  {
    hide Undo, Undoable, Replayable, UndoTo, AllRenewed, Do;
    match cmd
    case Perform(op) => DoRenews(m.ledger, m.entries, op);
    case TakeSnapshot =>
    case RevertTo(id) => BackIsRenewed(m.ledger, m.entries, m.revisions[Find(m.revisions, id)].index);
  }

  /** Making an unmarked account anew keeps its balance. */
  lemma {:induction false} BalanceKept(l: Ledger, es: seq<Entry>, a: Address)
    requires AllRenewed(l, es) && Unmarked(es, a) && a in l.accounts
    ensures var l0 := UndoTo(l, es, 0); a in l0.accounts && l0.accounts[a].balance == l.accounts[a].balance
    decreases |es|
  {
    hide Undoable, Restore, WithoutLog, Replayable, UndoTo;
    UndoAll(l, es);
    if es != [] {
      var k := |es| - 1;
      var e := es[k];
      BackIsRenewed(l, es, k);
      UndoInSteps(l, es, k, 0);
      assert Replayable(l, es, k) && UndoTo(l, es, k) == Undo(l, e) by { UndoLastOnly(l, es); }
      if Concerns(e, a) {
        assert RenewedAt(l, es, k);
      } else {
        UndoOther(l, e, a);
      }
      BalanceKept(Undo(l, e), es[..k], a);
    }
  }

  lemma {:induction false} UndoAll(l: Ledger, es: seq<Entry>)
    requires Replayable(l, es, 0)
    ensures Replayable(l, es, |es|) && UndoTo(l, es, |es|) == l && (es == [] ==> UndoTo(l, es, 0) == l)
  {
  }

  lemma {:induction false} UndoLastOnly(l: Ledger, es: seq<Entry>)
    requires es != [] && Replayable(l, es, 0)
    ensures Undoable(l, es[|es| - 1]) && Replayable(l, es, |es| - 1)
    ensures UndoTo(l, es, |es| - 1) == Undo(l, es[|es| - 1])
  {
    hide Undo, Undoable;
    UndoInSteps(l, es, |es| - 1, 0);
    UndoStep(l, es, |es| - 1);
  }

  lemma {:induction false} LastReset(es: seq<Entry>, a: Address) returns (i: nat)
    requires Recreated(es, a)
    ensures i < |es| && es[i].Reset? && es[i].a == a
    ensures forall j :: i < j < |es| ==> !(es[j].Reset? && es[j].a == a)
    decreases |es|
  {
    i := |es| - 1;
    if !(es[i].Reset? && es[i].a == a) {
      var k :| 0 <= k < |es| && es[k].Reset? && es[k].a == a;
      assert es[..i][k] == es[k];
      i := LastReset(es[..i], a);
    }
  }

  /** An unmarked account that has been made anew is still new, with its old balance. */
  lemma {:induction false} StillRenewed(l: Ledger, es: seq<Entry>, a: Address)
    requires AllRenewed(l, es) && Unmarked(es, a) && Recreated(es, a)
    ensures a in l.accounts && Renewed(l.accounts[a], l.accounts[a].balance)
  {
    hide Undo, Undoable, Replayable, UndoTo;
    var i := LastReset(es, a);
    assert RenewedAt(l, es, i);
    UndoInSteps(l, es, i + 1, 0);
    UndoElsewhere(l, es, i + 1, a);
  }

  // ---- what is written ----

  /** Stored data of an account that has nothing but a balance and perhaps an unlocking time. */
  predicate Bare(d: Data) {
    d == FRESH.(balance := d.balance, unlocked := Some(0), unlockedAt := d.unlockedAt)
  }

  /** A transaction ends without marking an account of which the trie held what readers saw. If it was not made anew,
      the trie still does exactly if its unlocking time was left alone or last moved to where it had been. If it was,
      the trie does exactly if the account had nothing but a balance, and the time is the one stored. */
  lemma {:induction false} UnmarkedExactly(ms: seq<Machine>, cmds: seq<Command>, trie: map<Address, Data>, a: Address)
    requires Run(ms, cmds) && ms[0].entries == [] && WrittenAt(ms[0].ledger.accounts, trie, a)
    requires Unmarked(ms[|cmds|].entries, a)
    ensures var last, moved := ms[|cmds|], Moved(ms, cmds, 0);
            && (a in moved ==> a in trie)
            && (!Recreated(last.entries, a) ==>
                  (WrittenAt(last.ledger.accounts, trie, a) <==> (a in moved ==> trie[a].unlockedAt == Some(moved[a]))))
            && (Recreated(last.entries, a) ==>
                  && a in trie && a in last.ledger.accounts
                  && (WrittenAt(last.ledger.accounts, trie, a) <==>
                      Bare(trie[a]) && trie[a].unlockedAt == OrZero(last.ledger.accounts[a].unlockedAt)))
  {
    hide Undo, Undoable, Replayable, UndoTo, Moved, Step;
    var last := ms[|cmds|];
    UndoneToStart(ms, cmds);
    if Recreated(last.entries, a) {
      RunRenews(ms, cmds);
      StillRenewed(last.ledger, last.entries, a);
      BalanceKept(last.ledger, last.entries, a);
    } else {
      Unconcerned(last.entries, a);
      UndoElsewhere(last.ledger, last.entries, 0, a);
    }
  }

  // ---- over many transactions ----

  /** A transaction: the machines it goes through, its commands, and the accounts written when it is finalised. */
  datatype Tx = Tx(ms: seq<Machine>, cmds: seq<Command>, changed: set<Address>)

  ghost predicate Whole(tx: Tx) {
    Run(tx.ms, tx.cmds) && tx.ms[0].entries == []
  }

  function Last(tx: Tx): Ledger
    requires |tx.ms| > 0
  {
    tx.ms[|tx.ms| - 1].ledger
  }

  /** Each transaction goes on with the accounts the one before was finalised to. */
  ghost predicate Chained(txs: seq<Tx>, deleteEmpty: bool) {
    && (forall k :: 0 <= k < |txs| ==> Whole(txs[k]))
    && forall k :: 0 < k < |txs| ==>
         txs[k].ms[0].ledger.accounts == Finalised(Last(txs[k - 1]).accounts, txs[k - 1].changed, deleteEmpty)
  }

  /** A transaction ends without marking the account and without having made it anew. */
  ghost predicate Undisturbed(tx: Tx, a: Address)
    requires Whole(tx)
  {
    var es := tx.ms[|tx.cmds|].entries;
    a !in tx.changed && Unmarked(es, a) && !Recreated(es, a)
  }

  ghost function MovedBy(tx: Tx): map<Address, Amount>
    requires Whole(tx)
  {
    Moved(tx.ms, tx.cmds, 0)
  }

  /** None of the transactions disturbs the account. */
  ghost predicate Quiet(txs: seq<Tx>, deleteEmpty: bool, a: Address) {
    Chained(txs, deleteEmpty) && forall k :: 0 <= k < |txs| ==> Undisturbed(txs[k], a)
  }

  /** The unlocking times moved, by the last move of each. */
  ghost function MovedSince(txs: seq<Tx>, deleteEmpty: bool, a: Address): map<Address, Amount>
    requires txs != [] && Quiet(txs, deleteEmpty, a)
  {
    var k := |txs| - 1;
    if k == 0 then MovedBy(txs[0]) else MovedSince(txs[..k], deleteEmpty, a) + MovedBy(txs[k])
  }

  lemma {:induction false} QuietAt(txs: seq<Tx>, deleteEmpty: bool, a: Address, k: nat)
    requires Quiet(txs, deleteEmpty, a) && k < |txs|
    ensures Whole(txs[k]) && Undisturbed(txs[k], a)
  {
    hide Whole, Undisturbed, Finalised;
  }

  lemma {:induction false} QuietBefore(txs: seq<Tx>, deleteEmpty: bool, a: Address)
    requires Quiet(txs, deleteEmpty, a) && |txs| > 1
    ensures var k := |txs| - 1;
            && Quiet(txs[..k], deleteEmpty, a) && Whole(txs[k]) && Whole(txs[k - 1]) && a !in txs[k - 1].changed
            && txs[k].ms[0].ledger.accounts == Finalised(Last(txs[k - 1]).accounts, txs[k - 1].changed, deleteEmpty)
  {
    hide Whole, Finalised, Unmarked, Recreated;
    var k := |txs| - 1;
    assert Whole(txs[k]) && Whole(txs[k - 1]) && Undisturbed(txs[k - 1], a);
  }

  lemma {:induction false} SeenAfterOne(tx: Tx, a: Address)
    requires Whole(tx) && Undisturbed(tx, a)
    ensures SameAt(Last(tx), Stamped(tx.ms[0].ledger, MovedBy(tx)), a)
    ensures a in MovedBy(tx) ==> a in tx.ms[0].ledger.accounts
  {
    hide Undo, Undoable, Replayable, UndoTo, Moved, Step;
    var es := tx.ms[|tx.cmds|].entries;
    UndoneToStart(tx.ms, tx.cmds);
    Unconcerned(es, a);
    UndoElsewhere(Last(tx), es, 0, a);
  }

  /** Finalising leaves an account alone that is not changed; times moved later are the ones that count. */
  lemma {:induction false} SeenTwice(l0: Ledger, l1: Ledger, l2: Ledger, l3: Ledger, changed: set<Address>,
                                     deleteEmpty: bool, t: map<Address, Amount>, t': map<Address, Amount>, a: Address)
    requires SameAt(l1, Stamped(l0, t), a) && (a in t ==> a in l0.accounts)
    requires l2.accounts == Finalised(l1.accounts, changed, deleteEmpty) && a !in changed
    requires SameAt(l3, Stamped(l2, t'), a) && (a in t' ==> a in l2.accounts)
    ensures SameAt(l3, Stamped(l0, t + t'), a) && (a in t + t' ==> a in l0.accounts)
  {
    hide Empty;
  }

  /** Readers see the account as it was at first, but for its unlocking time. */
  lemma {:induction false} SeenSince(txs: seq<Tx>, deleteEmpty: bool, a: Address)
    requires txs != [] && Quiet(txs, deleteEmpty, a)
    ensures var moved := MovedSince(txs, deleteEmpty, a);
            && SameAt(Last(txs[|txs| - 1]), Stamped(txs[0].ms[0].ledger, moved), a)
            && (a in moved ==> a in txs[0].ms[0].ledger.accounts)
    decreases |txs|
  {
    hide MovedBy, Undisturbed, Stamped, Finalised, SameAt, Chained, Quiet;
    var k := |txs| - 1;
    QuietAt(txs, deleteEmpty, a, 0);
    QuietAt(txs, deleteEmpty, a, k);
    SeenAfterOne(txs[k], a);
    if k > 0 {
      QuietBefore(txs, deleteEmpty, a);
      SeenSince(txs[..k], deleteEmpty, a);
      SeenTwice(txs[0].ms[0].ledger, Last(txs[k - 1]), txs[k].ms[0].ledger, Last(txs[k]), txs[k - 1].changed,
        deleteEmpty, MovedSince(txs[..k], deleteEmpty, a), MovedBy(txs[k]), a);
    }
  }

  /** However many transactions an account has gone through since the trie held what readers saw of it, without being
      marked or made anew: the trie still holds what they see exactly if the last move of its unlocking time, if any,
      was to where it had been. */
  lemma {:induction false} WrittenSince(txs: seq<Tx>, deleteEmpty: bool, trie: map<Address, Data>, a: Address)
    requires txs != [] && Quiet(txs, deleteEmpty, a) && WrittenAt(txs[0].ms[0].ledger.accounts, trie, a)
    ensures var moved := MovedSince(txs, deleteEmpty, a);
            && (a in moved ==> a in trie)
            && (WrittenAt(Last(txs[|txs| - 1]).accounts, trie, a) <==>
                (a in moved ==> trie[a].unlockedAt == Some(moved[a])))
  {
    hide MovedSince, Quiet;
    SeenSince(txs, deleteEmpty, a);
  }
}
