/** Executing a block: where the funds and the gas go. */
module Executor {
  import opened Bytes
  import opened MapSum

  type Address = nat

  const UINT64: nat := 0x1_0000_0000_0000_0000

  type Uint64 = n: nat | n < UINT64

  datatype Account = Account(balance: int, locked: int, unlocked: int, nonce: Uint64, code: bool, suicided: bool)

  const NO_ACCOUNT := Account(0, 0, 0, 0, false, false)

  type Accounts = map<Address, Account>

  function Get(accounts: Accounts, a: Address): Account {
    if a in accounts then accounts[a] else NO_ACCOUNT
  }

  function AddBalance(accounts: Accounts, a: Address, x: int): Accounts {
    accounts[a := Get(accounts, a).(balance := Get(accounts, a).balance + x)]
  }

  /** A number as sixty-four bits hold it. */
  function Wrapped(n: nat): Uint64 {
    n % UINT64
  }

  function SetNonce(accounts: Accounts, a: Address, nonce: nat): Accounts {
    accounts[a := Get(accounts, a).(nonce := Wrapped(nonce))]
  }

  // ---- funds ----

  function Funds(acc: Account): int {
    acc.balance + acc.locked + acc.unlocked
  }

  function Stake(acc: Account): int {
    acc.locked + acc.unlocked
  }

  ghost function FundsOf(accounts: Accounts): map<Address, int> {
    map a | a in accounts :: Funds(accounts[a])
  }

  /** All funds there are: free, locked and about to be free again. */
  ghost function Total(accounts: Accounts): int {
    Sum(FundsOf(accounts))
  }

  lemma {:induction false} TotalAfter(accounts: Accounts, a: Address, acc: Account)
    ensures Total(accounts[a := acc]) == Total(accounts) + Funds(acc) - Funds(Get(accounts, a))
  {
    assert FundsOf(accounts[a := acc]) == FundsOf(accounts)[a := Funds(acc)];
    SumUpdate(FundsOf(accounts), a, Funds(acc));
  }

  lemma {:induction false} TotalWithout(accounts: Accounts, a: Address)
    requires a in accounts
    ensures Total(accounts - {a}) == Total(accounts) - Funds(accounts[a])
  {
    assert FundsOf(accounts - {a}) == FundsOf(accounts) - {a};
    SumRemove(FundsOf(accounts), a);
  }

  // ---- clearing accounts away ----

  predicate Empty(acc: Account) {
    acc.nonce == 0 && acc.balance == 0 && !acc.code
  }

  /** Destroyed accounts go, and changed ones that are empty. */
  predicate Goes(a: Address, acc: Account, changed: set<Address>) {
    acc.suicided || (a in changed && Empty(acc))
  }

  function Finalised(accounts: Accounts, changed: set<Address>): Accounts {
    map a | a in accounts && !Goes(a, accounts[a], changed) :: accounts[a]
  }

  function Deleted(accounts: Accounts, changed: set<Address>): Accounts {
    map a | a in accounts && Goes(a, accounts[a], changed) :: accounts[a]
  }

  /** What deleted accounts held is gone, and nothing else. */
  lemma {:induction false} LostWithDeleted(accounts: Accounts, changed: set<Address>)
    ensures Total(Finalised(accounts, changed)) + Total(Deleted(accounts, changed)) == Total(accounts)
    decreases accounts
  {
    if a :| a in accounts && Goes(a, accounts[a], changed) {
      TotalWithout(accounts, a);
      TotalWithout(Deleted(accounts, changed), a);
      LostWithDeleted(accounts - {a}, changed);
      assert Finalised(accounts - {a}, changed) == Finalised(accounts, changed);
      assert Deleted(accounts - {a}, changed) == Deleted(accounts, changed) - {a};
    } else {
      assert Finalised(accounts, changed) == accounts && Deleted(accounts, changed) == map[];
      assert FundsOf(map[]) == map[];
    }
  }

  /** Clearing accounts away loses nothing exactly if the accounts that go hold nothing. */
  lemma {:induction false} NothingLost(accounts: Accounts, changed: set<Address>)
    requires forall a :: a in accounts && Goes(a, accounts[a], changed) ==> Funds(accounts[a]) >= 0
    ensures Total(Finalised(accounts, changed)) == Total(accounts) <==>
            forall a :: a in accounts && Goes(a, accounts[a], changed) ==> Funds(accounts[a]) == 0
  {
    LostWithDeleted(accounts, changed);
    var gone := Deleted(accounts, changed);
    SumAtLeast(FundsOf(gone));
    if a :| a in accounts && Goes(a, accounts[a], changed) && Funds(accounts[a]) != 0 {
      assert FundsOf(gone)[a] > 0;
    } else {
      NoFunds(gone);
    }
  }

  lemma {:induction false} NoFunds(accounts: Accounts)
    requires forall a :: a in accounts ==> Funds(accounts[a]) == 0
    ensures Total(accounts) == 0
    decreases accounts
  {
    if a :| a in accounts {
      TotalWithout(accounts, a);
      NoFunds(accounts - {a});
    } else {
      assert accounts == map[] && FundsOf(accounts) == map[];
    }
  }

  /** No pocket is overdrawn. */
  predicate Solvent(acc: Account) {
    acc.balance >= 0 && acc.locked >= 0 && acc.unlocked >= 0
  }

  /** What is empty or destroyed holds nothing; in particular no stake. */
  predicate SoundAccount(acc: Account) {
    Solvent(acc) && (Empty(acc) || acc.suicided ==> Funds(acc) == 0)
  }

  ghost predicate Sound(accounts: Accounts) {
    forall a :: a in accounts ==> SoundAccount(accounts[a])
  }

  /** Sound, but for one account that may be empty and still hold a stake. */
  ghost predicate SoundBut(accounts: Accounts, x: Address) {
    forall a :: a in accounts ==> Solvent(accounts[a]) && (a != x ==> SoundAccount(accounts[a]))
  }

  /** No account is marked as destroyed. */
  ghost predicate Alive(accounts: Accounts) {
    forall a :: a in accounts ==> !accounts[a].suicided
  }

  // ---- transactions ----

  datatype Kind = Binary | LoginCandidate | LogoutCandidate | Delegate | UnDelegate | Redeem

  /** A transaction; its intrinsic gas is missing if it does not fit in 64 bits. */
  datatype Tx = Tx(kind: Kind, from: Address, create: bool, nonce: Uint64, price: nat, gas: nat, value: nat,
                   intrinsic: Option<nat>)

  /** What the staking tries and the clock say of a transaction, and the accounts it changed besides its sender's. */
  datatype Env = Env(dposFails: bool, tooEarly: bool, changed: set<Address>)

  datatype VmError = NoError | InsufficientBalance | OtherError

  datatype VmResult = VmResult(accounts: Accounts, gas: nat, refund: nat, error: VmError)

  /** The virtual machine: accounts, transaction and gas in, accounts and gas out. */
  type Vm = (Accounts, Tx, nat) -> VmResult

  /** Running code neither makes nor destroys funds and gives back no more gas than it got. */
  ghost predicate Conserving(vm: Vm) {
    forall accounts, tx, gas ::
      var r := vm(accounts, tx, gas);
      Total(r.accounts) == Total(accounts) && r.gas <= gas
  }

  /** Code does not move the stake of the account that sent it; creating a contract uses up a nonce. */
  predicate SenderKept(before: Account, after: Account, tx: Tx) {
    && Solvent(after) && after.locked == before.locked && after.unlocked == before.unlocked
    && after.code == before.code && !after.suicided
    && after.nonce == if tx.create then Wrapped(before.nonce + 1) else before.nonce
  }

  /** Running code leaves no stake on empty or destroyed accounts, and destroys neither sender nor coinbase. */
  ghost predicate Tidy(vm: Vm, coinbase: Address) {
    forall accounts, tx, gas ::
      var r := vm(accounts, tx, gas);
      SoundBut(accounts, tx.from) && Alive(accounts) && r.error != InsufficientBalance ==>
        && SoundBut(r.accounts, tx.from) && !Get(r.accounts, coinbase).suicided
        && SenderKept(Get(accounts, tx.from), Get(r.accounts, tx.from), tx)
  }

  /** The machine that runs nothing is one of these. */
  function Idle(accounts: Accounts, tx: Tx, gas: nat): VmResult {
    var after := if tx.create then SetNonce(accounts, tx.from, Get(accounts, tx.from).nonce + 1) else accounts;
    VmResult(after, gas, 0, NoError)
  }

  lemma {:induction false} IdleIsTidy(coinbase: Address)
    ensures Conserving(Idle) && Tidy(Idle, coinbase)
  {
    forall accounts, tx, gas
      ensures Total(Idle(accounts, tx, gas).accounts) == Total(accounts)
      ensures SoundBut(accounts, tx.from) && Alive(accounts) ==>
                && SoundBut(Idle(accounts, tx, gas).accounts, tx.from)
                  && !Get(Idle(accounts, tx, gas).accounts, coinbase).suicided
                && SenderKept(Get(accounts, tx.from), Get(Idle(accounts, tx, gas).accounts, tx.from), tx)
    {
      IdleKeeps(accounts, tx, gas, coinbase);
    }
  }

  lemma {:induction false} IdleKeeps(accounts: Accounts, tx: Tx, gas: nat, coinbase: Address)
    ensures Total(Idle(accounts, tx, gas).accounts) == Total(accounts)
    ensures SoundBut(accounts, tx.from) && Alive(accounts) ==>
              && SoundBut(Idle(accounts, tx, gas).accounts, tx.from)
                && !Get(Idle(accounts, tx, gas).accounts, coinbase).suicided
              && SenderKept(Get(accounts, tx.from), Get(Idle(accounts, tx, gas).accounts, tx.from), tx)
  {
    hide Total, Wrapped;
    NonceKeeps(accounts, tx.from, Get(accounts, tx.from).nonce + 1);
  }

  datatype Error = NonceTooHigh | NonceTooLow | BalanceTooLow | GasLimitReached | GasOverflow | OutOfGas | ValueTooHigh

  datatype State = State(accounts: Accounts, pool: nat, used: nat)

  /** A transaction is run, or refused, and the whole block with it. */
  datatype Outcome = Ran(state: State, gas: nat, failed: bool) | Refused(error: Error)

  function Checked(s: State, tx: Tx): Option<Error> {
    var acc := Get(s.accounts, tx.from);
    if acc.nonce < tx.nonce then Some(NonceTooHigh)
    else if acc.nonce > tx.nonce then Some(NonceTooLow)
    else if acc.balance < tx.gas * tx.price then Some(BalanceTooLow)
    else if s.pool < tx.gas then Some(GasLimitReached)
    else if tx.intrinsic.None? then Some(GasOverflow)
    else if tx.gas < tx.intrinsic.value then Some(OutOfGas)
    else None
  }

  /** The accounts code is run on: the gas is paid for, and the nonce used up. */
  function Started(accounts: Accounts, tx: Tx): Accounts {
    var paid := AddBalance(accounts, tx.from, -(tx.gas * tx.price));
    if tx.create then paid else SetNonce(paid, tx.from, Get(paid, tx.from).nonce + 1)
  }

  /** Gas not used, with the refund: at most half of what was used. */
  function GasBack(tx: Tx, left: nat, refund: nat): (gas: nat)
    requires left <= tx.gas
    ensures gas <= tx.gas
  {
    left + if refund < (tx.gas - left) / 2 then refund else (tx.gas - left) / 2
  }

  /** Gas given back is paid to the sender, gas used to the coinbase. */
  function Settled(accounts: Accounts, tx: Tx, coinbase: Address, gas: nat): Accounts {
    AddBalance(AddBalance(accounts, tx.from, gas * tx.price), coinbase, (tx.gas - gas) * tx.price)
  }

  ghost function RunBinary(vm: Vm, coinbase: Address, s: State, tx: Tx): Outcome
    requires Conserving(vm)
  {
    var error := Checked(s, tx);
    if error.Some? then Refused(error.value)
    else
      var run := vm(Started(s.accounts, tx), tx, tx.gas - tx.intrinsic.value);
      if run.error == InsufficientBalance then Refused(ValueTooHigh)
      else
        var gas := GasBack(tx, run.gas, run.refund);
        Ran(State(Settled(run.accounts, tx, coinbase, gas), s.pool - tx.gas + gas, s.used), tx.gas - gas,
          run.error != NoError)
  }

  // ---- staking transactions ----

  function GasOf(tx: Tx): nat {
    if tx.intrinsic.Some? then tx.intrinsic.value else 0
  }

  function Fee(tx: Tx): nat {
    GasOf(tx) * tx.price
  }

  /** What a staking transaction makes of its sender's account, and whether it fails. */
  function Staked(acc: Account, tx: Tx, env: Env): (Account, bool) {
    match tx.kind
    case Delegate =>
      if (tx.value > 0 && acc.balance < tx.value) || env.dposFails then (acc, true)
      else (acc.(balance := acc.balance - tx.value, locked := acc.locked + tx.value), false)
    case UnDelegate =>
      if tx.value > 0 && (env.tooEarly || acc.locked < tx.value) then (acc, true)
      else if acc.locked == tx.value && env.dposFails then (acc, true)
      else (acc.(locked := acc.locked - tx.value, unlocked := acc.unlocked + tx.value), false)
    case Redeem =>
      if env.tooEarly then (acc, true) else (acc.(balance := acc.balance + acc.unlocked, unlocked := 0), false)
    case _ => (acc, env.dposFails)
  }

  function Affords(s: State, tx: Tx): bool {
    Get(s.accounts, tx.from).balance >= Fee(tx)
  }

  /** A staking transaction never spoils a block. A sender too poor for the fee is charged nothing, but
      the gas is counted; with too little gas in the pool the fee is taken, but no gas counted. */
  function RunDpos(s: State, tx: Tx, env: Env): Outcome {
    var gas := GasOf(tx);
    if !Affords(s, tx) then Ran(s, gas, true)
    else
      var paid := SetNonce(AddBalance(s.accounts, tx.from, 0 - Fee(tx)), tx.from, tx.nonce + 1);
      if s.pool < gas then Ran(s.(accounts := paid), 0, true)
      else
        var (acc, failed) := Staked(paid[tx.from], tx, env);
        Ran(State(paid[tx.from := acc], s.pool - gas, s.used), gas, failed)
  }

  // ---- blocks ----

  /** One transaction, before accounts are cleared away. */
  ghost function Applied(vm: Vm, coinbase: Address, s: State, tx: Tx, env: Env): Outcome
    requires Conserving(vm)
  {
    if tx.kind == Binary then RunBinary(vm, coinbase, s, tx) else RunDpos(s, tx, env)
  }

  /** The accounts the journal names after a transaction: its sender's too, once the nonce is set. */
  function Noted(s: State, tx: Tx, env: Env): set<Address> {
    if tx.kind != Binary && !Affords(s, tx) then env.changed else env.changed + {tx.from}
  }

  /** One transaction, after which accounts are cleared away and the gas is counted. */
  ghost function RunTx(vm: Vm, coinbase: Address, s: State, tx: Tx, env: Env): Outcome
    requires Conserving(vm)
  {
    var out := Applied(vm, coinbase, s, tx, env);
    if out.Refused? then out
    else out.(state := State(Finalised(out.state.accounts, Noted(s, tx, env)), out.state.pool,
      out.state.used + out.gas))
  }

  /** The state after the first n transactions, unless one is refused. */
  ghost function RunTxs(vm: Vm, coinbase: Address, s: State, txs: seq<Tx>, envs: seq<Env>, n: nat): Option<State>
    requires Conserving(vm) && n <= |txs| == |envs|
  {
    if n == 0 then Some(s)
    else
      var before := RunTxs(vm, coinbase, s, txs, envs, n - 1);
      if before.None? then None
      else
        var out := RunTx(vm, coinbase, before.value, txs[n - 1], envs[n - 1]);
        if out.Refused? then None else Some(out.state)
  }

  /** The fee a staking transaction burns. */
  function FeeOf(s: State, tx: Tx): int {
    if tx.kind == Binary || !Affords(s, tx) then 0 else Fee(tx)
  }

  /** Gas counted though it was not taken from the pool. */
  function UnpaidOf(s: State, tx: Tx): int {
    if tx.kind == Binary || Affords(s, tx) then 0 else GasOf(tx)
  }

  ghost function Fees(vm: Vm, coinbase: Address, s: State, txs: seq<Tx>, envs: seq<Env>, n: nat): int
    requires Conserving(vm) && n <= |txs| == |envs|
  {
    if n == 0 then 0
    else
      var before := RunTxs(vm, coinbase, s, txs, envs, n - 1);
      Fees(vm, coinbase, s, txs, envs, n - 1) + if before.Some? then FeeOf(before.value, txs[n - 1]) else 0
  }

  ghost function Unpaid(vm: Vm, coinbase: Address, s: State, txs: seq<Tx>, envs: seq<Env>, n: nat): int
    requires Conserving(vm) && n <= |txs| == |envs|
  {
    if n == 0 then 0
    else
      var before := RunTxs(vm, coinbase, s, txs, envs, n - 1);
      Unpaid(vm, coinbase, s, txs, envs, n - 1) + if before.Some? then UnpaidOf(before.value, txs[n - 1]) else 0
  }

  /** The sender spends all it has on the last nonce there is and holds a stake: the nonce starts again from
      zero, the account counts as empty, and the stake goes with it. */
  ghost predicate Forfeits(vm: Vm, coinbase: Address, s: State, tx: Tx, env: Env)
    requires Conserving(vm)
  {
    && tx.nonce + 1 == UINT64 && (tx.kind != Binary ==> Affords(s, tx)) && !Get(s.accounts, tx.from).code
    && var out := Applied(vm, coinbase, s, tx, env);
    && out.Ran? && Get(out.state.accounts, tx.from).balance == 0 && Stake(Get(out.state.accounts, tx.from)) > 0
  }

  ghost function ForfeitOf(vm: Vm, coinbase: Address, s: State, tx: Tx, env: Env): int
    requires Conserving(vm)
  {
    if Forfeits(vm, coinbase, s, tx, env)
    then Stake(Get(Applied(vm, coinbase, s, tx, env).state.accounts, tx.from))
    else 0
  }

  ghost function Forfeited(vm: Vm, coinbase: Address, s: State, txs: seq<Tx>, envs: seq<Env>, n: nat): int
    requires Conserving(vm) && n <= |txs| == |envs|
  {
    if n == 0 then 0
    else
      var before := RunTxs(vm, coinbase, s, txs, envs, n - 1);
      Forfeited(vm, coinbase, s, txs, envs, n - 1)
      + if before.Some? then ForfeitOf(vm, coinbase, before.value, txs[n - 1], envs[n - 1]) else 0
  }

  /** What a staking transaction leaves its sender to spend. */
  function Purse(s: State, tx: Tx, env: Env): int {
    var acc := Get(s.accounts, tx.from);
    var left := acc.balance - Fee(tx);
    if s.pool < GasOf(tx) then left
    else if tx.kind == Delegate && left >= tx.value && !env.dposFails then left - tx.value
    else if tx.kind == Redeem && !env.tooEarly then left + acc.unlocked
    else left
  }

  /** Frees what is no longer locked for each of the first n senders. */
  function Freed(accounts: Accounts, senders: seq<Address>, n: nat): Accounts
    requires n <= |senders|
  {
    if n == 0 then accounts
    else
      var before := Freed(accounts, senders, n - 1);
      var acc := Get(before, senders[n - 1]);
      before[senders[n - 1] := acc.(balance := acc.balance + acc.unlocked, unlocked := 0)]
  }

  /** A block: the actions, the transactions, the reward, and accounts cleared away once more. */
  ghost function RunBlock(vm: Vm, coinbase: Address, accounts: Accounts, limit: nat, senders: seq<Address>,
                          txs: seq<Tx>, envs: seq<Env>,
                          miner: Address, reward: nat, changed: set<Address>): Option<State>
    requires Conserving(vm) && |txs| == |envs|
  {
    var s := RunTxs(vm, coinbase, State(Freed(accounts, senders, |senders|), limit, 0), txs, envs, |txs|);
    if s.None? then None
    else Some(s.value.(accounts := Finalised(AddBalance(s.value.accounts, miner, reward), changed)))
  }

  // ---- conservation ----

  lemma {:induction false} AddKeeps(accounts: Accounts, a: Address, x: int)
    ensures Total(AddBalance(accounts, a, x)) == Total(accounts) + x
  {
    hide Total, Wrapped;
    var acc := Get(accounts, a);
    TotalAfter(accounts, a, acc.(balance := acc.balance + x));
  }

  lemma {:induction false} NonceKeeps(accounts: Accounts, a: Address, nonce: nat)
    ensures Total(SetNonce(accounts, a, nonce)) == Total(accounts)
  {
    hide Wrapped;
    TotalAfter(accounts, a, Get(accounts, a).(nonce := Wrapped(nonce)));
  }

  lemma {:induction false} SettledKeeps(accounts: Accounts, tx: Tx, coinbase: Address, gas: nat)
    requires gas <= tx.gas
    ensures Total(Settled(accounts, tx, coinbase, gas)) == Total(accounts) + tx.gas * tx.price
  {
    hide Total;
    AddKeeps(accounts, tx.from, gas * tx.price);
    AddKeeps(AddBalance(accounts, tx.from, gas * tx.price), coinbase, (tx.gas - gas) * tx.price);
    assert gas * tx.price + (tx.gas - gas) * tx.price == tx.gas * tx.price;
  }

  lemma {:induction false} StartedKeeps(accounts: Accounts, tx: Tx)
    ensures Total(Started(accounts, tx)) == Total(accounts) - tx.gas * tx.price
  {
    hide Total;
    var paid := AddBalance(accounts, tx.from, -(tx.gas * tx.price));
    AddKeeps(accounts, tx.from, -(tx.gas * tx.price));
    NonceKeeps(paid, tx.from, Get(paid, tx.from).nonce + 1);
  }

  lemma {:induction false} VmConserves(vm: Vm, accounts: Accounts, tx: Tx, gas: nat)
    requires Conserving(vm)
    ensures var r := vm(accounts, tx, gas); Total(r.accounts) == Total(accounts) && r.gas <= gas
  {
  }

  /** Running code moves funds about: what is paid for gas comes back or goes to the coinbase. */
  lemma {:induction false} BinaryConserves(vm: Vm, coinbase: Address, s: State, tx: Tx)
    requires Conserving(vm) && RunBinary(vm, coinbase, s, tx).Ran?
    ensures var out := RunBinary(vm, coinbase, s, tx);
            && Total(out.state.accounts) == Total(s.accounts)
            && out.state.pool + out.gas == s.pool && out.state.used == s.used
  {
    hide Total, Conserving, Started, Settled;
    var started, gas := Started(s.accounts, tx), tx.gas - tx.intrinsic.value;
    VmConserves(vm, started, tx, gas);
    var run := vm(started, tx, gas);
    StartedKeeps(s.accounts, tx);
    SettledKeeps(run.accounts, tx, coinbase, GasBack(tx, run.gas, run.refund));
  }

  /** Changing the pockets of one account. */
  lemma {:induction false} PocketsKeep(accounts: Accounts, a: Address, acc: Account)
    requires Funds(acc) == Funds(Get(accounts, a))
    ensures Total(accounts[a := acc]) == Total(accounts)
  {
    TotalAfter(accounts, a, acc);
  }

  /** Staking moves funds between the pockets of one account. */
  lemma {:induction false} StakedKeeps(acc: Account, tx: Tx, env: Env)
    ensures Funds(Staked(acc, tx, env).0) == Funds(acc)
  {
  }

  /** A staking transaction burns its fee and nothing else. */
  lemma {:induction false} DposConserves(s: State, tx: Tx, env: Env)
    requires tx.kind != Binary
    ensures var out := RunDpos(s, tx, env);
            && out.Ran? && Total(out.state.accounts) == Total(s.accounts) - FeeOf(s, tx)
            && out.state.pool + out.gas == s.pool + UnpaidOf(s, tx) && out.state.used == s.used
  {
    hide Total, Funds, Staked, Fee, Wrapped;
    if Affords(s, tx) {
      var less := AddBalance(s.accounts, tx.from, 0 - Fee(tx));
      var paid := SetNonce(less, tx.from, tx.nonce + 1);
      AddKeeps(s.accounts, tx.from, 0 - Fee(tx));
      NonceKeeps(less, tx.from, tx.nonce + 1);
      StakedKeeps(paid[tx.from], tx, env);
      PocketsKeep(paid, tx.from, Staked(paid[tx.from], tx, env).0);
    }
  }

  /** Every transaction keeps all funds but its fee and what accounts hold that are deleted after it. */
  lemma {:induction false} TxConserves(vm: Vm, coinbase: Address, s: State, tx: Tx, env: Env)
    requires Conserving(vm) && Applied(vm, coinbase, s, tx, env).Ran?
    ensures var s' := RunTx(vm, coinbase, s, tx, env).state;
            var lost := Total(Deleted(Applied(vm, coinbase, s, tx, env).state.accounts, Noted(s, tx, env)));
            && Total(s'.accounts) == Total(s.accounts) - FeeOf(s, tx) - lost
            && s'.pool + s'.used == s.pool + s.used + UnpaidOf(s, tx)
  {
    hide Total, Conserving, RunBinary, RunDpos, Finalised, Deleted, Noted;
    if tx.kind == Binary {
      BinaryConserves(vm, coinbase, s, tx);
    } else {
      DposConserves(s, tx, env);
    }
    LostWithDeleted(Applied(vm, coinbase, s, tx, env).state.accounts, Noted(s, tx, env));
  }

  // ---- stakes ----

  /** The sender's account before and after: others are sound, its own nonce is used up. */
  ghost predicate Used(before: Accounts, after: Accounts, tx: Tx) {
    && SoundBut(after, tx.from) && tx.from in after && !after[tx.from].suicided
    && after[tx.from].nonce == Wrapped(tx.nonce + 1) && after[tx.from].code == Get(before, tx.from).code
  }

  lemma {:induction false} SoundAfter(accounts: Accounts, x: Address, a: Address, acc: Account)
    requires SoundBut(accounts, x) && Solvent(acc) && (a != x ==> SoundAccount(acc))
    ensures SoundBut(accounts[a := acc], x)
  {
  }

  lemma {:induction false} AliveAfter(accounts: Accounts, a: Address, acc: Account)
    requires Alive(accounts) && !acc.suicided
    ensures Alive(accounts[a := acc])
  {
  }

  lemma {:induction false} StartedIsSound(accounts: Accounts, tx: Tx)
    requires Sound(accounts) && Alive(accounts) && Get(accounts, tx.from).balance >= tx.gas * tx.price
    ensures SoundBut(Started(accounts, tx), tx.from) && Alive(Started(accounts, tx))
    ensures Get(Started(accounts, tx), tx.from) ==
            Get(accounts, tx.from).(balance := Get(accounts, tx.from).balance - tx.gas * tx.price,
                                    nonce := if tx.create then Get(accounts, tx.from).nonce
                                             else Wrapped(Get(accounts, tx.from).nonce + 1))
  {
    hide Wrapped;
    var acc := Get(accounts, tx.from);
    var less := acc.(balance := acc.balance - tx.gas * tx.price);
    assert Solvent(less) && !less.suicided;
    hide Alive, SoundBut;
    assert SoundBut(accounts, tx.from) by { SoundIsSoundBut(accounts, tx.from); }
    SoundAfter(accounts, tx.from, tx.from, less);
    AliveAfter(accounts, tx.from, less);
    var paid := accounts[tx.from := less];
    var next := less.(nonce := Wrapped(less.nonce + 1));
    SoundAfter(paid, tx.from, tx.from, next);
    AliveAfter(paid, tx.from, next);
  }

  lemma {:induction false} SoundIsSoundBut(accounts: Accounts, x: Address)
    requires Sound(accounts)
    ensures SoundBut(accounts, x) && SoundAccount(Get(accounts, x)) && Solvent(Get(accounts, x))
  {
  }

  lemma {:induction false} VmIsTidy(vm: Vm, coinbase: Address, accounts: Accounts, tx: Tx, gas: nat)
    requires Tidy(vm, coinbase) && SoundBut(accounts, tx.from) && Alive(accounts)
    requires vm(accounts, tx, gas).error != InsufficientBalance
    ensures var r := vm(accounts, tx, gas);
            && SoundBut(r.accounts, tx.from) && !Get(r.accounts, coinbase).suicided
            && SenderKept(Get(accounts, tx.from), Get(r.accounts, tx.from), tx)
  {
  }

  /** Paying an account that is not destroyed. */
  lemma {:induction false} PaidIsSound(accounts: Accounts, x: Address, a: Address, amount: nat)
    requires SoundBut(accounts, x) && !Get(accounts, a).suicided
    ensures SoundBut(AddBalance(accounts, a, amount), x)
  {
  }

  lemma {:induction false} SettledIsSound(accounts: Accounts, tx: Tx, coinbase: Address, gas: nat)
    requires SoundBut(accounts, tx.from) && gas <= tx.gas
    requires !Get(accounts, tx.from).suicided && !Get(accounts, coinbase).suicided
    ensures var after := Settled(accounts, tx, coinbase, gas);
            && SoundBut(after, tx.from) && tx.from in after
            && after[tx.from] == Get(accounts, tx.from).(balance := after[tx.from].balance)
  {
    hide SoundBut;
    assert gas * tx.price >= 0 && (tx.gas - gas) * tx.price >= 0;
    PaidIsSound(accounts, tx.from, tx.from, gas * tx.price);
    PaidIsSound(AddBalance(accounts, tx.from, gas * tx.price), tx.from, coinbase, (tx.gas - gas) * tx.price);
  }

  lemma {:induction false} BinaryIsUsed(vm: Vm, coinbase: Address, s: State, tx: Tx)
    requires Conserving(vm) && Tidy(vm, coinbase) && RunBinary(vm, coinbase, s, tx).Ran?
    requires Sound(s.accounts) && Alive(s.accounts)
    ensures var after := RunBinary(vm, coinbase, s, tx).state.accounts;
            Used(s.accounts, after, tx) && Stake(after[tx.from]) == Stake(Get(s.accounts, tx.from))
  {
    hide Total, Conserving, Tidy, Sound, SoundBut, Alive, Started, Settled, Wrapped;
    var started, gas := Started(s.accounts, tx), tx.gas - tx.intrinsic.value;
    StartedIsSound(s.accounts, tx);
    VmConserves(vm, started, tx, gas);
    VmIsTidy(vm, coinbase, started, tx, gas);
    var run := vm(started, tx, gas);
    SettledIsSound(run.accounts, tx, coinbase, GasBack(tx, run.gas, run.refund));
  }

  lemma {:induction false} StakedIsSolvent(acc: Account, tx: Tx, env: Env)
    requires Solvent(acc)
    ensures var acc' := Staked(acc, tx, env).0;
            Solvent(acc') && acc'.nonce == acc.nonce && acc'.code == acc.code && acc'.suicided == acc.suicided
  {
  }

  /** The sender's account once the fee is paid and the nonce set. */
  function Charged(s: State, tx: Tx): Account {
    var acc := Get(s.accounts, tx.from);
    acc.(balance := acc.balance - Fee(tx), nonce := Wrapped(tx.nonce + 1))
  }

  lemma {:induction false} DposChangesSender(s: State, tx: Tx, env: Env)
    requires tx.kind != Binary && Affords(s, tx)
    ensures RunDpos(s, tx, env).Ran?
    ensures RunDpos(s, tx, env).state.accounts ==
            s.accounts[tx.from := if s.pool < GasOf(tx) then Charged(s, tx) else Staked(Charged(s, tx), tx, env).0]
  {
    hide Wrapped, Staked, Fee;
  }

  lemma {:induction false} DposIsUsed(s: State, tx: Tx, env: Env)
    requires tx.kind != Binary && Affords(s, tx) && Sound(s.accounts) && Alive(s.accounts)
    ensures RunDpos(s, tx, env).Ran? && Used(s.accounts, RunDpos(s, tx, env).state.accounts, tx)
    ensures Funds(RunDpos(s, tx, env).state.accounts[tx.from]) == Funds(Get(s.accounts, tx.from)) - Fee(tx)
  {
    hide Sound, SoundBut, Alive, Wrapped, Staked, RunDpos, SoundAccount, Fee;
    DposChangesSender(s, tx, env);
    SoundIsSoundBut(s.accounts, tx.from);
    AliveGet(s.accounts, tx.from);
    StakedIsSolvent(Charged(s, tx), tx, env);
    StakedKeeps(Charged(s, tx), tx, env);
    SoundAfter(s.accounts, tx.from, tx.from, RunDpos(s, tx, env).state.accounts[tx.from]);
  }

  lemma {:induction false} AliveGet(accounts: Accounts, a: Address)
    requires Alive(accounts)
    ensures !Get(accounts, a).suicided
  {
  }

  /** Only the sender's stake can be lost. */
  lemma {:induction false} LostWithSender(accounts: Accounts, x: Address, changed: set<Address>)
    requires SoundBut(accounts, x) && x in accounts && !accounts[x].suicided && x in changed
    ensures Total(Deleted(accounts, changed)) == if Empty(accounts[x]) then Stake(accounts[x]) else 0
    ensures Sound(Finalised(accounts, changed)) && Alive(Finalised(accounts, changed))
  {
    var gone := Deleted(accounts, changed);
    if Empty(accounts[x]) {
      TotalWithout(gone, x);
      NoFunds(gone - {x});
    } else {
      NoFunds(gone);
    }
  }

  lemma {:induction false} NoneLost(accounts: Accounts, changed: set<Address>)
    requires Sound(accounts)
    ensures Total(Deleted(accounts, changed)) == 0
    ensures Sound(Finalised(accounts, changed)) && Alive(Finalised(accounts, changed))
  {
    NoFunds(Deleted(accounts, changed));
  }

  lemma {:induction false} WrappedToZero(n: Uint64)
    ensures Wrapped(n + 1) == 0 <==> n + 1 == UINT64
  {
  }

  /** A transaction loses funds beyond its fee exactly if its sender forfeits a stake, and loses that stake. */
  lemma {:induction false} TxForfeits(vm: Vm, coinbase: Address, s: State, tx: Tx, env: Env)
    requires Conserving(vm) && Tidy(vm, coinbase) && Sound(s.accounts) && Alive(s.accounts)
    requires RunTx(vm, coinbase, s, tx, env).Ran?
    ensures var s' := RunTx(vm, coinbase, s, tx, env).state;
            && Total(s'.accounts) == Total(s.accounts) - FeeOf(s, tx) - ForfeitOf(vm, coinbase, s, tx, env)
            && s'.pool + s'.used == s.pool + s.used + UnpaidOf(s, tx)
            && Sound(s'.accounts) && Alive(s'.accounts)
  {
    hide Total, Conserving, Sound, Alive, Applied, Deleted, Finalised, FeeOf, UnpaidOf, Forfeits, Noted;
    TxConserves(vm, coinbase, s, tx, env);
    if tx.kind != Binary && !Affords(s, tx) {
      PoorForfeitNothing(vm, coinbase, s, tx, env);
    } else {
      SenderIsUsed(vm, coinbase, s, tx, env);
      UsedForfeits(vm, coinbase, s, tx, env);
    }
  }

  lemma {:induction false} PoorForfeitNothing(vm: Vm, coinbase: Address, s: State, tx: Tx, env: Env)
    requires Conserving(vm) && Sound(s.accounts) && tx.kind != Binary && !Affords(s, tx)
    ensures var after := Applied(vm, coinbase, s, tx, env).state.accounts;
            && Total(Deleted(after, Noted(s, tx, env))) == 0 && !Forfeits(vm, coinbase, s, tx, env)
            && Sound(Finalised(after, Noted(s, tx, env))) && Alive(Finalised(after, Noted(s, tx, env)))
  {
    hide Total, Conserving, Sound, Alive, Deleted, Finalised;
    NoneLost(s.accounts, env.changed);
  }

  lemma {:induction false} SenderIsUsed(vm: Vm, coinbase: Address, s: State, tx: Tx, env: Env)
    requires Conserving(vm) && Tidy(vm, coinbase) && Sound(s.accounts) && Alive(s.accounts)
    requires Applied(vm, coinbase, s, tx, env).Ran? && (tx.kind != Binary ==> Affords(s, tx))
    ensures Used(s.accounts, Applied(vm, coinbase, s, tx, env).state.accounts, tx)
  {
    hide Conserving, Tidy, Sound, Alive, RunBinary, RunDpos, Affords, Used;
    if tx.kind == Binary {
      BinaryIsUsed(vm, coinbase, s, tx);
    } else {
      DposIsUsed(s, tx, env);
    }
  }

  lemma {:induction false} UsedForfeits(vm: Vm, coinbase: Address, s: State, tx: Tx, env: Env)
    requires Conserving(vm) && Applied(vm, coinbase, s, tx, env).Ran? && (tx.kind != Binary ==> Affords(s, tx))
    requires Used(s.accounts, Applied(vm, coinbase, s, tx, env).state.accounts, tx)
    ensures var after := Applied(vm, coinbase, s, tx, env).state.accounts;
            && Total(Deleted(after, Noted(s, tx, env))) == ForfeitOf(vm, coinbase, s, tx, env)
            && Sound(Finalised(after, Noted(s, tx, env))) && Alive(Finalised(after, Noted(s, tx, env)))
  {
    hide Conserving, Total, Sound, Alive, Applied, Affords, Deleted, Finalised, Wrapped;
    WrappedToZero(tx.nonce);
    LostWithSender(Applied(vm, coinbase, s, tx, env).state.accounts, tx.from, Noted(s, tx, env));
  }

  /** Before a staking transaction is run it can be told whether it forfeits its sender's stake: it does exactly
      if it carries the last nonce, can pay its fee, and leaves nothing to spend while something is staked. */
  lemma {:induction false} StakingForfeits(vm: Vm, coinbase: Address, s: State, tx: Tx, env: Env)
    requires Conserving(vm) && tx.kind != Binary && Sound(s.accounts) && Alive(s.accounts)
    ensures Forfeits(vm, coinbase, s, tx, env) <==>
            && tx.nonce + 1 == UINT64 && Affords(s, tx) && !Get(s.accounts, tx.from).code
            && Purse(s, tx, env) == 0 && Funds(Get(s.accounts, tx.from)) > Fee(tx)
    ensures ForfeitOf(vm, coinbase, s, tx, env) ==
            if Forfeits(vm, coinbase, s, tx, env) then Funds(Get(s.accounts, tx.from)) - Fee(tx) else 0
  {
    hide Conserving, Sound, SoundBut, Alive, Wrapped, RunDpos, Affords, Purse, Fee, SoundAccount;
    if Affords(s, tx) {
      DposIsUsed(s, tx, env);
      PurseIsLeft(s, tx, env);
    }
  }

  lemma {:induction false} PurseIsLeft(s: State, tx: Tx, env: Env)
    requires tx.kind != Binary && Affords(s, tx)
    ensures Get(RunDpos(s, tx, env).state.accounts, tx.from).balance == Purse(s, tx, env)
  {
    hide Wrapped, RunDpos, Fee;
    DposChangesSender(s, tx, env);
  }

  /** Code has left the sender nothing, no gas is paid back, and what gas was used is not the sender's to earn. */
  predicate NothingLeft(accounts: Accounts, tx: Tx, coinbase: Address, gas: nat) {
    && Get(accounts, tx.from).balance == 0 && gas * tx.price == 0
    && (coinbase == tx.from ==> (tx.gas - gas) * tx.price == 0)
  }

  /** Running the code of a transaction leaves the sender nothing. */
  ghost predicate SpendsAll(vm: Vm, coinbase: Address, s: State, tx: Tx)
    requires Conserving(vm) && RunBinary(vm, coinbase, s, tx).Ran?
  {
    var run := vm(Started(s.accounts, tx), tx, tx.gas - tx.intrinsic.value);
    NothingLeft(run.accounts, tx, coinbase, GasBack(tx, run.gas, run.refund))
  }

  lemma {:induction false} SpendsAllIsNothing(vm: Vm, coinbase: Address, s: State, tx: Tx)
    requires Conserving(vm) && Tidy(vm, coinbase) && Sound(s.accounts) && Alive(s.accounts)
    requires RunBinary(vm, coinbase, s, tx).Ran?
    ensures Get(RunBinary(vm, coinbase, s, tx).state.accounts, tx.from).balance == 0 <==> SpendsAll(vm, coinbase, s, tx)
  {
    hide Total, Conserving, Tidy, Sound, SoundBut, Alive, Started, Settled, Wrapped, GasBack, NothingLeft;
    var started, left := Started(s.accounts, tx), tx.gas - tx.intrinsic.value;
    StartedIsSound(s.accounts, tx);
    VmConserves(vm, started, tx, left);
    VmIsTidy(vm, coinbase, started, tx, left);
    var run := vm(started, tx, left);
    SettledIsNothing(run.accounts, tx, coinbase, GasBack(tx, run.gas, run.refund));
  }

  /** Running code forfeits the sender's stake exactly if it carries the last nonce and code and gas leave the
      sender nothing to spend. */
  lemma {:induction false} BinaryForfeits(vm: Vm, coinbase: Address, s: State, tx: Tx, env: Env)
    requires Conserving(vm) && Tidy(vm, coinbase) && tx.kind == Binary && Sound(s.accounts) && Alive(s.accounts)
    requires RunBinary(vm, coinbase, s, tx).Ran?
    ensures Forfeits(vm, coinbase, s, tx, env) <==>
            && tx.nonce + 1 == UINT64 && !Get(s.accounts, tx.from).code && Stake(Get(s.accounts, tx.from)) > 0
            && SpendsAll(vm, coinbase, s, tx)
    ensures Forfeits(vm, coinbase, s, tx, env) ==>
            ForfeitOf(vm, coinbase, s, tx, env) == Stake(Get(s.accounts, tx.from))
  {
    hide Conserving, Tidy, Sound, SoundBut, Alive, RunBinary, Wrapped, SpendsAll, Stake;
    BinaryIsUsed(vm, coinbase, s, tx);
    SpendsAllIsNothing(vm, coinbase, s, tx);
  }

  lemma {:induction false} SettledIsNothing(accounts: Accounts, tx: Tx, coinbase: Address, gas: nat)
    requires gas <= tx.gas && Get(accounts, tx.from).balance >= 0
    ensures Get(Settled(accounts, tx, coinbase, gas), tx.from).balance == 0 <==>
            NothingLeft(accounts, tx, coinbase, gas)
  {
    assert gas * tx.price >= 0 && (tx.gas - gas) * tx.price >= 0;
  }

  lemma {:induction false} TxsConserve(vm: Vm, coinbase: Address, s: State, txs: seq<Tx>, envs: seq<Env>, n: nat)
    requires Conserving(vm) && n <= |txs| == |envs| && RunTxs(vm, coinbase, s, txs, envs, n).Some?
    requires Tidy(vm, coinbase) && Sound(s.accounts) && Alive(s.accounts)
    ensures var s' := RunTxs(vm, coinbase, s, txs, envs, n).value;
            && Total(s'.accounts) ==
               Total(s.accounts) - Fees(vm, coinbase, s, txs, envs, n) - Forfeited(vm, coinbase, s, txs, envs, n)
            && s'.pool + s'.used == s.pool + s.used + Unpaid(vm, coinbase, s, txs, envs, n)
            && Sound(s'.accounts) && Alive(s'.accounts)
  {
    hide Total, Sound, Alive, Tidy, Conserving, RunTx, FeeOf, UnpaidOf, ForfeitOf;
    if n > 0 {
      TxsConserve(vm, coinbase, s, txs, envs, n - 1);
      var before := RunTxs(vm, coinbase, s, txs, envs, n - 1).value;
      TxForfeits(vm, coinbase, before, txs[n - 1], envs[n - 1]);
    }
  }

  /** Stakes are lost over a run exactly if some transaction of it forfeits one. */
  lemma {:induction false} ForfeitedExactly(vm: Vm, coinbase: Address, s: State, txs: seq<Tx>, envs: seq<Env>, n: nat)
    requires Conserving(vm) && n <= |txs| == |envs|
    ensures Forfeited(vm, coinbase, s, txs, envs, n) >= 0
    ensures Forfeited(vm, coinbase, s, txs, envs, n) > 0 <==>
            exists i :: 0 <= i < n && ForfeitsAt(vm, coinbase, s, txs, envs, i)
  {
    hide Conserving, RunTxs, Forfeits, ForfeitOf;
    if n > 0 {
      ForfeitedExactly(vm, coinbase, s, txs, envs, n - 1);
      var before := RunTxs(vm, coinbase, s, txs, envs, n - 1);
      if before.Some? {
        ForfeitIsStake(vm, coinbase, before.value, txs[n - 1], envs[n - 1]);
      }
      if ForfeitsAt(vm, coinbase, s, txs, envs, n - 1) {
        assert Forfeited(vm, coinbase, s, txs, envs, n) > 0;
      } else {
        assert Forfeited(vm, coinbase, s, txs, envs, n) == Forfeited(vm, coinbase, s, txs, envs, n - 1);
        assert forall i :: 0 <= i < n && ForfeitsAt(vm, coinbase, s, txs, envs, i) ==> i < n - 1;
      }
    }
  }

  ghost predicate ForfeitsAt(vm: Vm, coinbase: Address, s: State, txs: seq<Tx>, envs: seq<Env>, i: nat)
    requires Conserving(vm) && i < |txs| == |envs|
  {
    var before := RunTxs(vm, coinbase, s, txs, envs, i);
    before.Some? && Forfeits(vm, coinbase, before.value, txs[i], envs[i])
  }

  lemma {:induction false} ForfeitIsStake(vm: Vm, coinbase: Address, s: State, tx: Tx, env: Env)
    requires Conserving(vm)
    ensures ForfeitOf(vm, coinbase, s, tx, env) >= 0
    ensures ForfeitOf(vm, coinbase, s, tx, env) > 0 <==> Forfeits(vm, coinbase, s, tx, env)
  {
    hide Conserving;
  }

  /** A staking transaction with the last nonce: paid its fee of 3, its sender stakes the other 5 and loses them. */
  lemma {:induction false} StakeCanBeLost(vm: Vm, coinbase: Address)
    requires Conserving(vm)
    ensures var s := State(map[7 := Account(8, 0, 0, 4, false, false)], 100, 0);
            var tx := Tx(Delegate, 7, false, UINT64 - 1, 1, 3, 5, Some(3));
            var out := RunTx(vm, coinbase, s, tx, Env(false, false, {}));
            && Sound(s.accounts) && Alive(s.accounts) && out == Ran(State(map[], 97, 3), 3, false)
            && Total(s.accounts) == 8 && FeeOf(s, tx) == 3 && Total(out.state.accounts) == 0
  {
    var accounts: Accounts := map[7 := Account(8, 0, 0, 4, false, false)];
    var s := State(accounts, 100, 0);
    var tx := Tx(Delegate, 7, false, UINT64 - 1, 1, 3, 5, Some(3));
    WrappedToZero(tx.nonce);
    TotalWithout(accounts, 7);
    assert accounts - {7} == map[];
    NoFunds(map[]);
    var after := RunDpos(s, tx, Env(false, false, {})).state.accounts;
    assert after == map[7 := Account(0, 5, 0, 0, false, false)];
    assert Finalised(after, {7}) == map[];
  }

  /** A sender without funds: nothing is taken from the pool, but the gas is counted. */
  lemma {:induction false} UnpaidGasIsCounted(vm: Vm, coinbase: Address)
    requires Conserving(vm)
    ensures var s := State(map[], 100, 0);
            var tx := Tx(LoginCandidate, 7, false, 0, 1, 3, 0, Some(3));
            RunTx(vm, coinbase, s, tx, Env(false, false, {})) == Ran(State(map[], 100, 3), 3, true)
              && UnpaidOf(s, tx) == 3
  {
    assert Finalised(map[], {}) == map[];
  }

  lemma {:induction false} FreedKeeps(accounts: Accounts, senders: seq<Address>, n: nat)
    requires n <= |senders| && Sound(accounts) && Alive(accounts)
    ensures Total(Freed(accounts, senders, n)) == Total(accounts)
    ensures Sound(Freed(accounts, senders, n)) && Alive(Freed(accounts, senders, n))
  {
    hide Total, Sound, Alive, Funds;
    if n > 0 {
      FreedKeeps(accounts, senders, n - 1);
      var before := Freed(accounts, senders, n - 1);
      var acc := Get(before, senders[n - 1]);
      FreeOne(before, senders[n - 1]);
      PocketsKeep(before, senders[n - 1], acc.(balance := acc.balance + acc.unlocked, unlocked := 0));
    }
  }

  lemma {:induction false} FreeOne(accounts: Accounts, a: Address)
    requires Sound(accounts) && Alive(accounts)
    ensures var acc := Get(accounts, a);
            var free := acc.(balance := acc.balance + acc.unlocked, unlocked := 0);
            Funds(free) == Funds(acc) && Sound(accounts[a := free]) && Alive(accounts[a := free])
  {
    hide *;
    SoundIsSoundBut(accounts, a);
    AliveGet(accounts, a);
    FreedIsSound(Get(accounts, a));
    var acc := Get(accounts, a);
    SoundWith(accounts, a, acc.(balance := acc.balance + acc.unlocked, unlocked := 0));
  }

  lemma {:induction false} FreedIsSound(acc: Account)
    requires SoundAccount(acc)
    ensures var free := acc.(balance := acc.balance + acc.unlocked, unlocked := 0);
            SoundAccount(free) && Funds(free) == Funds(acc)
  {
  }

  lemma {:induction false} SoundWith(accounts: Accounts, a: Address, acc: Account)
    requires Sound(accounts) && Alive(accounts) && SoundAccount(acc) && !acc.suicided
    ensures Sound(accounts[a := acc]) && Alive(accounts[a := acc])
  {
  }

  /** Over a block, all funds together change by the reward less the fees staking transactions burn and the
      stakes forfeited; the gas left in the pool and the gas counted make up the limit, but for gas counted for
      senders who could not pay it. */
  lemma {:induction false} BlockConserves(vm: Vm, coinbase: Address, accounts: Accounts, limit: nat,
                                          senders: seq<Address>, txs: seq<Tx>, envs: seq<Env>, miner: Address,
                                          reward: nat, changed: set<Address>)
    requires Conserving(vm) && Tidy(vm, coinbase) && |txs| == |envs| && Sound(accounts) && Alive(accounts)
    requires RunBlock(vm, coinbase, accounts, limit, senders, txs, envs, miner, reward, changed).Some?
    ensures var start := State(Freed(accounts, senders, |senders|), limit, 0);
            var end := RunBlock(vm, coinbase, accounts, limit, senders, txs, envs, miner, reward, changed).value;
            && Total(end.accounts) == Total(accounts) + reward - Fees(vm, coinbase, start, txs, envs, |txs|)
                                      - Forfeited(vm, coinbase, start, txs, envs, |txs|)
            && end.pool + end.used == limit + Unpaid(vm, coinbase, start, txs, envs, |txs|)
            && Sound(end.accounts) && Alive(end.accounts)
  {
    hide Total, Sound, Alive, Tidy, Conserving, Fees, Unpaid, Forfeited, RunTxs, Deleted, Finalised;
    FreedKeeps(accounts, senders, |senders|);
    var start := State(Freed(accounts, senders, |senders|), limit, 0);
    TxsConserve(vm, coinbase, start, txs, envs, |txs|);
    var s := RunTxs(vm, coinbase, start, txs, envs, |txs|).value;
    AddKeeps(s.accounts, miner, reward);
    RewardIsSound(s.accounts, miner, reward);
    var rich := AddBalance(s.accounts, miner, reward);
    LostWithDeleted(rich, changed);
    NoneLost(rich, changed);
  }

  lemma {:induction false} RewardIsSound(accounts: Accounts, a: Address, amount: nat)
    requires Sound(accounts) && Alive(accounts)
    ensures Sound(AddBalance(accounts, a, amount))
  {
  }

  /** Without staking transactions no funds are burned, and gas left and gas counted are the limit. */
  lemma {:induction false} BinaryBlocksBurnNothing(vm: Vm, coinbase: Address, s: State, txs: seq<Tx>, envs: seq<Env>,
                                                   n: nat)
    requires Conserving(vm) && n <= |txs| == |envs| && forall i :: 0 <= i < |txs| ==> txs[i].kind == Binary
    ensures Fees(vm, coinbase, s, txs, envs, n) == 0 && Unpaid(vm, coinbase, s, txs, envs, n) == 0
  {
    hide Conserving, RunTxs;
    if n > 0 {
      BinaryBlocksBurnNothing(vm, coinbase, s, txs, envs, n - 1);
    }
  }

  // ---- the execution itself ----

  class Execution {
    const vm: Vm
    const coinbase: Address
    var accounts: Accounts
    var pool: nat
    var usedGas: nat

    function Now(): State
      reads this
    {
      State(accounts, pool, usedGas)
    }

    constructor (vm: Vm, coinbase: Address, accounts: Accounts, limit: nat)
      ensures this.vm == vm && this.coinbase == coinbase && Now() == State(accounts, limit, 0)
    {
      this.vm, this.coinbase, this.accounts, pool, usedGas := vm, coinbase, accounts, limit, 0;
    }

    method SubGas(amount: nat) returns (ok: bool)
      modifies this`pool
      ensures ok == (old(pool) >= amount) && pool == if ok then old(pool) - amount else old(pool)
    {
      if pool < amount {
        return false;
      }
      pool := pool - amount;
      return true;
    }

    /** Pays for all the gas the transaction may use. */
    method BuyGas(tx: Tx) returns (error: Option<Error>)
      modifies this`accounts, this`pool
      ensures error.Some? ==> Now() == old(Now())
      ensures error == if Get(old(accounts), tx.from).balance < tx.gas * tx.price then Some(BalanceTooLow)
                       else if old(pool) < tx.gas then Some(GasLimitReached) else None
      ensures error.None? ==>
                && accounts == AddBalance(old(accounts), tx.from, -(tx.gas * tx.price))
                && pool == old(pool) - tx.gas
    {
      var cost := tx.gas * tx.price;
      if Get(accounts, tx.from).balance < cost {
        return Some(BalanceTooLow);
      }
      var ok := SubGas(tx.gas);
      if !ok {
        return Some(GasLimitReached);
      }
      accounts := AddBalance(accounts, tx.from, -cost);
      return None;
    }

    /** Runs a transaction step by step, as RunBinary says. */
    method TransitionDb(tx: Tx) returns (gasUsed: nat, failed: bool, error: Option<Error>)
      requires Conserving(vm)
      modifies this`accounts, this`pool
      ensures RunBinary(vm, coinbase, old(Now()), tx) == if error.Some? then Refused(error.value)
              else Ran(Now(), gasUsed, failed)
    {
      hide Conserving, Total, Wrapped, GasBack;
      gasUsed, failed := 0, false;
      var nonce := Get(accounts, tx.from).nonce;
      if nonce != tx.nonce {
        error := Some(if nonce < tx.nonce then NonceTooHigh else NonceTooLow);
        return;
      }
      error := BuyGas(tx);
      if error.Some? {
        return;
      }
      if tx.intrinsic.None? {
        error := Some(GasOverflow);
        return;
      }
      if tx.gas < tx.intrinsic.value {
        error := Some(OutOfGas);
        return;
      }
      var gas := tx.gas - tx.intrinsic.value;
      if !tx.create {
        accounts := SetNonce(accounts, tx.from, Get(accounts, tx.from).nonce + 1);
      }
      VmConserves(vm, accounts, tx, gas);
      var run := vm(accounts, tx, gas);
      accounts, gas := run.accounts, run.gas;
      if run.error == InsufficientBalance {
        error := Some(ValueTooHigh);
        return;
      }
      gas := RefundGas(tx, gas, run.refund);
      accounts := AddBalance(accounts, coinbase, (tx.gas - gas) * tx.price);
      return tx.gas - gas, run.error != NoError, None;
    }

    /** Gives unused gas back to the sender and to the pool. */
    method RefundGas(tx: Tx, left: nat, refunds: nat) returns (gas: nat)
      requires left <= tx.gas
      modifies this`accounts, this`pool
      ensures gas == GasBack(tx, left, refunds) && pool == old(pool) + gas
      ensures accounts == AddBalance(old(accounts), tx.from, gas * tx.price)
    {
      var refund := (tx.gas - left) / 2;
      if refund > refunds {
        refund := refunds;
      }
      gas := left + refund;
      accounts := AddBalance(accounts, tx.from, gas * tx.price);
      pool := pool + gas;
    }

    /** Runs a staking transaction step by step, as RunDpos says. */
    method ApplyDposMessage(tx: Tx, env: Env) returns (gas: nat, failed: bool)
      requires tx.kind != Binary
      modifies this`accounts, this`pool
      ensures RunDpos(old(Now()), tx, env) == Ran(Now(), gas, failed)
    {
      gas := GasOf(tx);
      var fee := gas * tx.price;
      if Get(accounts, tx.from).balance < fee {
        return gas, true;
      }
      accounts := AddBalance(accounts, tx.from, -fee);
      accounts := SetNonce(accounts, tx.from, tx.nonce + 1);
      var ok := SubGas(gas);
      if !ok {
        return 0, true;
      }
      failed := Stake(tx, env);
    }

    /** Moves funds between the pockets of the sender, and back if the staking tries refuse it. */
    method Stake(tx: Tx, env: Env) returns (failed: bool)
      requires tx.kind != Binary && tx.from in accounts
      modifies this`accounts
      ensures (accounts, failed) == (old(accounts)[tx.from := Staked(old(accounts)[tx.from], tx, env).0],
              Staked(old(accounts)[tx.from], tx, env).1)
    {
      var snapshot, acc := accounts, accounts[tx.from];
      assert accounts == accounts[tx.from := acc];
      match tx.kind {
        case Delegate =>
          if tx.value > 0 {
            if acc.balance < tx.value {
              return true;
            }
            acc := acc.(balance := acc.balance - tx.value);
            acc := acc.(locked := acc.locked + tx.value);
            accounts := accounts[tx.from := acc];
          }
        case UnDelegate =>
          if tx.value > 0 {
            if env.tooEarly {
              return true;
            }
            if acc.locked < tx.value {
              return true;
            }
            acc := acc.(locked := acc.locked - tx.value);
            acc := acc.(unlocked := acc.unlocked + tx.value);
            accounts := accounts[tx.from := acc];
          }
          if acc.locked != 0 {
            return false;
          }
        case Redeem =>
          if env.tooEarly {
            return true;
          }
          accounts := accounts[tx.from := acc.(balance := acc.balance + acc.unlocked, unlocked := 0)];
          return false;
        case _ =>
      }
      if env.dposFails {
        accounts := snapshot;
        return true;
      }
      return false;
    }

    method ExecTransaction(tx: Tx, env: Env) returns (gas: nat, failed: bool, error: Option<Error>)
      requires Conserving(vm)
      modifies this`accounts, this`pool, this`usedGas
      ensures RunTx(vm, coinbase, old(Now()), tx, env) == if error.Some? then Refused(error.value)
              else Ran(Now(), gas, failed)
    {
      hide Conserving, RunBinary, RunDpos, Finalised;
      var noted := Noted(Now(), tx, env);
      error := None;
      if tx.kind == Binary {
        gas, failed, error := TransitionDb(tx);
        if error.Some? {
          return;
        }
      } else {
        gas, failed := ApplyDposMessage(tx, env);
      }
      accounts := Finalised(accounts, noted);
      usedGas := usedGas + gas;
    }

    method ExecActions(senders: seq<Address>)
      modifies this`accounts
      ensures accounts == Freed(old(accounts), senders, |senders|)
    {
      var i := 0;
      while i < |senders|
        invariant 0 <= i <= |senders| && accounts == Freed(old(accounts), senders, i)
      {
        var acc := Get(accounts, senders[i]);
        var unlocked := acc.unlocked;
        accounts := AddBalance(accounts, senders[i], unlocked);
        accounts := accounts[senders[i] := accounts[senders[i]].(unlocked := 0)];
        i := i + 1;
      }
    }

    /** Executes a block transaction by transaction, as RunBlock says. */
    method ExecBlock(senders: seq<Address>, txs: seq<Tx>, envs: seq<Env>, miner: Address, reward: nat,
                     changed: set<Address>) returns (ok: bool)
      requires Conserving(vm) && |envs| == |txs| && usedGas == 0
      modifies this`accounts, this`pool, this`usedGas
      ensures RunBlock(vm, coinbase, old(accounts), old(pool), senders, txs, envs, miner, reward, changed) ==
              if ok then Some(Now()) else None
    {
      hide Conserving, RunTx, Freed, Finalised;
      ExecActions(senders);
      ghost var start := Now();
      var i := 0;
      while i < |txs|
        invariant 0 <= i <= |txs| && RunTxs(vm, coinbase, start, txs, envs, i) == Some(Now())
      {
        var gas, failed, error := ExecTransaction(txs[i], envs[i]);
        if error.Some? {
          Stopped(vm, coinbase, start, txs, envs, i + 1, |txs|);
          return false;
        }
        i := i + 1;
      }
      accounts := Finalised(AddBalance(accounts, miner, reward), changed);
      return true;
    }
  }

  /** A block with a refused transaction is refused. */
  lemma {:induction false} Stopped(vm: Vm, coinbase: Address, s: State, txs: seq<Tx>, envs: seq<Env>, i: nat, n: nat)
    requires Conserving(vm) && i <= n <= |txs| == |envs| && RunTxs(vm, coinbase, s, txs, envs, i).None?
    ensures RunTxs(vm, coinbase, s, txs, envs, n).None?
  {
    hide Conserving, RunTx;
    if i < n {
      Stopped(vm, coinbase, s, txs, envs, i, n - 1);
    }
  }
}
