/** How tokens leave the consensus layer (client/x/evmstaking/keeper: deposit.go, withdraw.go,
    ubi.go): whatever is burned there is owed to the execution layer through one of the two
    withdrawal queues.  The staking, distribution and bank modules appear through the balances
    they move. */
module TokenFlow {
  import opened Machine
  import opened Sums
  import opened Queue
  import opened Withdrawals

  type Account = nat

  datatype FlowError = Insufficient | NoAddress | OutOfRange | UnknownChain

  /** The claimed rewards pass through an int64. */
  const TWO63: nat := 0x8000_0000_0000_0000

  const UNSTAKE: U32 := 0
  const REWARD: U32 := 1
  const UBI: U32 := 2

  /** What the keepers know and these operations only read: the execution addresses, whether a
      delegation still exists, and whether v1.2.1 is active (None for an unknown chain). */
  datatype Env = Env(
    withdrawAddress: map<Account, string>,
    rewardAddress: map<Account, string>,
    evmAddress: Account -> string,
    delegated: (Account, Account) -> bool,
    v121: Option<bool>,
    ubiAddress: string,
    minAmount: U64)

  /** Spendable balances, what the other modules hold, the bank's supply, everything ever minted and
      ever slashed, and the withdrawals handed to the two queues so far. */
  datatype Books = Books(
    accounts: map<Account, nat>,
    held: nat,
    supply: int,
    minted: nat,
    slashed: nat,
    stakeDue: seq<Withdrawal>,
    rewardDue: seq<Withdrawal>)

  /** A matured unbonding entry, with the commission its validator could withdraw. */
  datatype Entry = Entry(delegator: Account, validator: Account, amount: nat, commission: nat)

  /** A delegation met by the reward sweep: the rewards and the commission that withdrawing them
      pays out, and the estimate the sweep compares with the minimum. */
  datatype Delegation = Delegation(delegator: Account, validator: Account, rewards: nat, commission: nat, estimate: U64)

  type Outcome = Result<Books, FlowError>

  /** Sends coins from an account to the module and burns them there. */
  function Burn(b: Books, a: Account, amount: nat): Outcome {
    if Value(b.accounts, a) < amount then Err(Insufficient)
    else Ok(b.(accounts := b.accounts[a := Value(b.accounts, a) - amount], supply := b.supply - amount))
  }

  /** Burns the amount of a withdrawal and hands the withdrawal to one of the queues. */
  function BurnOwing(b: Books, a: Account, w: Withdrawal, stake: bool): Outcome {
    match Burn(b, a, w.amount)
    case Err(x) => Err(x)
    case Ok(b1) =>
      if stake then Ok(b1.(stakeDue := b1.stakeDue + [w])) else Ok(b1.(rewardDue := b1.rewardDue + [w]))
  }

  /** Pays coins another module holds into an account. */
  function PayInto(b: Books, a: Account, amount: nat): Outcome {
    if b.held < amount then Err(Insufficient)
    else Ok(b.(accounts := b.accounts[a := Value(b.accounts, a) + amount], held := b.held - amount))
  }

  function Mint(b: Books, amount: nat): Books {
    b.(held := b.held + amount, supply := b.supply + amount, minted := b.minted + amount)
  }

  /** Burns bonded coins of a validator that misbehaved; nobody is owed for them. */
  function Slash(b: Books, amount: nat): Outcome {
    if b.held < amount then Err(Insufficient)
    else Ok(b.(held := b.held - amount, supply := b.supply - amount, slashed := b.slashed + amount))
  }

  // ---------------------------------------------------------------------------------------
  // Matured unbonding entries
  // ---------------------------------------------------------------------------------------

  function PayEntry(env: Env, b: Books, height: U64, e: Entry): Outcome {
    if e.delegator !in env.withdrawAddress then Err(NoAddress)
    else if e.amount >= TWO64 then Err(OutOfRange)
    else
      var w := Withdrawal(height, env.withdrawAddress[e.delegator], e.amount, UNSTAKE, env.evmAddress(e.validator));
      BurnOwing(b, e.delegator, w, true)
  }

  function PayEntries(env: Env, b: Books, height: U64, es: seq<Entry>, n: nat): Outcome
    requires n <= |es|
  {
    if n == 0 then Ok(b)
    else
      match PayEntries(env, b, height, es, n - 1)
      case Err(x) => Err(x)
      case Ok(b1) => PayEntry(env, b1, height, es[n - 1])
  }

  /** A validator that unstaked everything of its own first gets its commission. */
  function WithCommission(env: Env, b: Books, e: Entry): Outcome {
    if !env.delegated(e.delegator, e.validator) && e.delegator == e.validator
    then PayInto(b, e.delegator, e.commission)
    else Ok(b)
  }

  function SweepEntry(env: Env, b: Books, height: U64, e: Entry): Outcome {
    match WithCommission(env, b, e)
    case Err(x) => Err(x)
    case Ok(b1) =>
      if env.v121.None? then Err(UnknownChain)
      else if env.delegated(e.delegator, e.validator) && !env.v121.value then Ok(b1)
      else
        var residue := Value(b1.accounts, e.delegator);
        if residue >= TWO64 then Err(OutOfRange)
        else if residue == 0 then Ok(b1)
        else if e.delegator !in env.rewardAddress then Err(NoAddress)
        else
          var w := Withdrawal(height, env.rewardAddress[e.delegator], residue, REWARD, env.evmAddress(e.validator));
          BurnOwing(b1, e.delegator, w, false)
  }

  function SweepEntries(env: Env, b: Books, height: U64, es: seq<Entry>, n: nat): Outcome
    requires n <= |es|
  {
    if n == 0 then Ok(b)
    else
      match SweepEntries(env, b, height, es, n - 1)
      case Err(x) => Err(x)
      case Ok(b1) => SweepEntry(env, b1, height, es[n - 1])
  }

  function Unstake(env: Env, b: Books, height: U64, es: seq<Entry>): Outcome {
    match PayEntries(env, b, height, es, |es|)
    case Err(x) => Err(x)
    case Ok(b1) => SweepEntries(env, b1, height, es, |es|)
  }

  // ---------------------------------------------------------------------------------------
  // Rewards and universal basic income
  // ---------------------------------------------------------------------------------------

  /** Withdraws the rewards, burns them together with what the account already had, and queues the
      sum. */
  function EnqueueReward(env: Env, b: Books, height: U64, d: Delegation): Outcome {
    var claimed := Value(b.accounts, d.delegator);
    var commission := if d.delegator == d.validator then d.commission else 0;
    var amount := d.rewards + commission + claimed;
    match PayInto(b, d.delegator, d.rewards + commission)
    case Err(x) => Err(x)
    case Ok(b1) =>
      if claimed >= TWO63 || amount >= TWO64 then Err(OutOfRange)
      else if d.delegator !in env.rewardAddress then Err(NoAddress)
      else
        var w := Withdrawal(height, env.rewardAddress[d.delegator], amount, REWARD, env.evmAddress(d.validator));
        BurnOwing(b1, d.delegator, w, false)
  }

  /** One delegation of the sweep: nothing happens below the minimum. */
  function SweepReward(env: Env, b: Books, height: U64, d: Delegation): Outcome {
    var claimed := Value(b.accounts, d.delegator);
    if claimed >= TWO64 then Err(OutOfRange)
    else if Add64(d.estimate, claimed) >= env.minAmount then EnqueueReward(env, b, height, d)
    else Ok(b)
  }

  function SweepUbi(env: Env, b: Books, height: U64, balance: nat): Outcome {
    if balance >= TWO64 then Err(OutOfRange)
    else if balance < env.minAmount then Ok(b)
    else if b.held < balance then Err(Insufficient)
    else
      Ok(b.(held := b.held - balance, supply := b.supply - balance,
            stakeDue := b.stakeDue + [Withdrawal(height, env.ubiAddress, balance, UBI, "")]))
  }

  // ---------------------------------------------------------------------------------------
  // The keeper
  // ---------------------------------------------------------------------------------------

  class Keeper {
    const env: Env
    var books: Books

    constructor (env: Env, books: Books)
      ensures this.env == env && this.books == books
    {
      this.env, this.books := env, books;
    }

    method SendAndBurn(a: Account, amount: nat) returns (r: Result<(), FlowError>)
      modifies this
      ensures r.Ok? ==> Burn(old(books), a, amount) == Ok(books)
      ensures r.Err? ==> Burn(old(books), a, amount) == Err(r.error)
    {
      var balance := Value(books.accounts, a);
      if balance < amount {
        return Err(Insufficient);
      }
      books := books.(accounts := books.accounts[a := balance - amount]);
      books := books.(supply := books.supply - amount);
      r := Ok(());
    }

    method ProcessUnstakeWithdrawals(height: U64, entries: seq<Entry>) returns (r: Result<(), FlowError>)
      modifies this
      ensures r.Ok? ==> Unstake(env, old(books), height, entries) == Ok(books)
      ensures r.Err? ==> Unstake(env, old(books), height, entries) == Err(r.error)
    {
      ghost var b0 := books;
      for i := 0 to |entries|
        invariant PayEntries(env, b0, height, entries, i) == Ok(books)
      {
        r := ProcessMatured(height, entries[i]);
        if r.Err? {
          PayFails(env, b0, height, entries, i + 1);
          return;
        }
      }
      ghost var b1 := books;
      for i := 0 to |entries|
        invariant SweepEntries(env, b1, height, entries, i) == Ok(books)
      {
        r := ProcessResidue(height, entries[i]);
        if r.Err? {
          SweepFails(env, b1, height, entries, i + 1);
          return;
        }
      }
      r := Ok(());
    }

    method EnqueueRewardWithdrawal(height: U64, d: Delegation) returns (r: Result<(), FlowError>)
      modifies this
      ensures r.Ok? ==> EnqueueReward(env, old(books), height, d) == Ok(books)
      ensures r.Err? ==> EnqueueReward(env, old(books), height, d) == Err(r.error)
    {
      var claimed := Value(books.accounts, d.delegator);
      var rewards := d.rewards;
      if d.delegator == d.validator {
        rewards := rewards + d.commission;
      }
      if books.held < rewards {
        return Err(Insufficient);
      }
      books := books.(accounts := books.accounts[d.delegator := claimed + rewards], held := books.held - rewards);
      if claimed >= TWO63 {
        return Err(OutOfRange);
      }
      rewards := rewards + claimed;
      if rewards >= TWO64 {
        return Err(OutOfRange);
      }
      if d.delegator !in env.rewardAddress {
        return Err(NoAddress);
      }
      r := SendAndBurn(d.delegator, rewards);
      if r.Err? {
        return;
      }
      var w := Withdrawal(height, env.rewardAddress[d.delegator], rewards, REWARD, env.evmAddress(d.validator));
      books := books.(rewardDue := books.rewardDue + [w]);
    }

    method ProcessEligibleRewardWithdrawal(height: U64, d: Delegation) returns (r: Result<(), FlowError>)
      modifies this
      ensures r.Ok? ==> SweepReward(env, old(books), height, d) == Ok(books)
      ensures r.Err? ==> SweepReward(env, old(books), height, d) == Err(r.error)
    {
      var claimed := Value(books.accounts, d.delegator);
      if claimed >= TWO64 {
        return Err(OutOfRange);
      }
      r := Ok(());
      if Add64(d.estimate, claimed) >= env.minAmount {
        r := EnqueueRewardWithdrawal(height, d);
      }
    }

    method ProcessUbiWithdrawal(height: U64, balance: nat) returns (r: Result<(), FlowError>)
      modifies this
      ensures r.Ok? ==> SweepUbi(env, old(books), height, balance) == Ok(books)
      ensures r.Err? ==> SweepUbi(env, old(books), height, balance) == Err(r.error)
    {
      if balance >= TWO64 {
        return Err(OutOfRange);
      }
      if balance < env.minAmount {
        return Ok(());
      }
      if books.held < balance {
        return Err(Insufficient);
      }
      books := books.(held := books.held - balance);
      books := books.(supply := books.supply - balance);
      books := books.(stakeDue := books.stakeDue + [Withdrawal(height, env.ubiAddress, balance, UBI, "")]);
      r := Ok(());
    }

    method ProcessMatured(height: U64, e: Entry) returns (r: Result<(), FlowError>)
      modifies this
      ensures r.Ok? ==> PayEntry(env, old(books), height, e) == Ok(books)
      ensures r.Err? ==> PayEntry(env, old(books), height, e) == Err(r.error)
    {
      if e.delegator !in env.withdrawAddress {
        return Err(NoAddress);
      }
      if e.amount >= TWO64 {
        return Err(OutOfRange);
      }
      r := SendAndBurn(e.delegator, e.amount);
      if r.Err? {
        return;
      }
      var w := Withdrawal(height, env.withdrawAddress[e.delegator], e.amount, UNSTAKE, env.evmAddress(e.validator));
      books := books.(stakeDue := books.stakeDue + [w]);
    }

    method ProcessResidue(height: U64, e: Entry) returns (r: Result<(), FlowError>)
      modifies this
      ensures r.Ok? ==> SweepEntry(env, old(books), height, e) == Ok(books)
      ensures r.Err? ==> SweepEntry(env, old(books), height, e) == Err(r.error)
    {
      var totallyUnstaked := !env.delegated(e.delegator, e.validator);
      if totallyUnstaked && e.delegator == e.validator {
        if books.held < e.commission {
          return Err(Insufficient);
        }
        var balance := Value(books.accounts, e.delegator) + e.commission;
        books := books.(accounts := books.accounts[e.delegator := balance], held := books.held - e.commission);
      }
      if env.v121.None? {
        return Err(UnknownChain);
      }
      if !totallyUnstaked && !env.v121.value {
        return Ok(());
      }
      var residue := Value(books.accounts, e.delegator);
      if residue >= TWO64 {
        return Err(OutOfRange);
      }
      if residue == 0 {
        return Ok(());
      }
      r := SendAndBurn(e.delegator, residue);
      if r.Err? {
        return;
      }
      if e.delegator !in env.rewardAddress {
        return Err(NoAddress);
      }
      var w := Withdrawal(height, env.rewardAddress[e.delegator], residue, REWARD, env.evmAddress(e.validator));
      books := books.(rewardDue := books.rewardDue + [w]);
    }
  }

  // ---------------------------------------------------------------------------------------
  // Conservation
  // ---------------------------------------------------------------------------------------

  /** The supply is what accounts and modules hold, and everything ever minted is in the supply, owed
      to the execution layer, or slashed. */
  ghost predicate Sound(b: Books) {
    && b.supply == Total(b.accounts) + b.held
    && b.supply + TotalOwed(b.stakeDue) + TotalOwed(b.rewardDue) + b.slashed == b.minted
  }

  lemma {:induction false} OwedOneMore(ws: seq<Withdrawal>, w: Withdrawal)
    ensures TotalOwed(ws + [w]) == TotalOwed(ws) + w.amount
  {
    assert (ws + [w])[..|ws|] == ws;
  }

  lemma {:induction false} PayIntoSound(b: Books, a: Account, amount: nat)
    requires Sound(b)
    ensures PayInto(b, a, amount).Ok? ==> Sound(PayInto(b, a, amount).value)
  {
    TotalUpdate(b.accounts, a, Value(b.accounts, a) + amount);
  }

  lemma {:induction false} BurnTotals(b: Books, a: Account, amount: nat)
    requires Burn(b, a, amount).Ok?
    ensures var b' := Burn(b, a, amount).value;
            Total(b'.accounts) + amount == Total(b.accounts)
  {
    TotalUpdate(b.accounts, a, Value(b.accounts, a) - amount);
  }

  /** Burning coins and owing the same amount keeps the books sound, on either queue. */
  lemma {:induction false} BurnOwingSound(b: Books, a: Account, w: Withdrawal, stake: bool)
    requires Sound(b)
    requires BurnOwing(b, a, w, stake).Ok?
    ensures Sound(BurnOwing(b, a, w, stake).value)
  {
    BurnTotals(b, a, w.amount);
    if stake {
      OwedOneMore(b.stakeDue, w);
    } else {
      OwedOneMore(b.rewardDue, w);
    }
  }

  /** Only a's balance changes, and becomes y. */
  ghost predicate BalanceMoves(b: Books, b': Books, a: Account, y: int) {
    && Value(b'.accounts, a) == y
    && forall c :: c != a ==> Value(b'.accounts, c) == Value(b.accounts, c)
  }

  lemma {:induction false} PayEntrySound(env: Env, b: Books, height: U64, e: Entry)
    requires Sound(b)
    ensures PayEntry(env, b, height, e).Ok? ==> Sound(PayEntry(env, b, height, e).value)
  {
    if PayEntry(env, b, height, e).Ok? {
      BurnOwingSound(b, e.delegator,
        Withdrawal(height, env.withdrawAddress[e.delegator], e.amount, UNSTAKE, env.evmAddress(e.validator)), true);
    }
  }

  lemma {:induction false} PayEntriesSound(env: Env, b: Books, height: U64, es: seq<Entry>, n: nat)
    requires Sound(b) && n <= |es|
    ensures PayEntries(env, b, height, es, n).Ok? ==> Sound(PayEntries(env, b, height, es, n).value)
  {
    if n > 0 {
      PayEntriesSound(env, b, height, es, n - 1);
      if PayEntries(env, b, height, es, n - 1).Ok? {
        PayEntrySound(env, PayEntries(env, b, height, es, n - 1).value, height, es[n - 1]);
      }
    }
  }

  lemma {:induction false} WithCommissionSound(env: Env, b: Books, e: Entry)
    requires Sound(b)
    requires WithCommission(env, b, e).Ok?
    ensures Sound(WithCommission(env, b, e).value)
  {
    PayIntoSound(b, e.delegator, e.commission);
  }

  lemma {:induction false} SweepEntrySound(env: Env, b: Books, height: U64, e: Entry)
    requires Sound(b)
    requires SweepEntry(env, b, height, e).Ok?
    ensures Sound(SweepEntry(env, b, height, e).value)
  {
    WithCommissionSound(env, b, e);
    var b1 := WithCommission(env, b, e).value;
    if SweepEntry(env, b, height, e) != Ok(b1) {
      var w := Withdrawal(height, env.rewardAddress[e.delegator], Value(b1.accounts, e.delegator), REWARD,
                          env.evmAddress(e.validator));
      BurnOwingSound(b1, e.delegator, w, false);
    }
  }

  /** The residue of an entry leaves its account empty, when it is taken at all, and touches no
      other account. */
  lemma {:induction false} SweepEntryEmpties(env: Env, b: Books, height: U64, e: Entry)
    requires SweepEntry(env, b, height, e).Ok?
    requires env.v121 == Some(true) || !env.delegated(e.delegator, e.validator)
    ensures BalanceMoves(b, SweepEntry(env, b, height, e).value, e.delegator, 0)
  {
  }

  lemma {:induction false} SweepEntriesSound(env: Env, b: Books, height: U64, es: seq<Entry>, n: nat)
    requires Sound(b) && n <= |es|
    requires SweepEntries(env, b, height, es, n).Ok?
    ensures Sound(SweepEntries(env, b, height, es, n).value)
  {
    if n > 0 {
      SweepEntriesSound(env, b, height, es, n - 1);
      SweepEntrySound(env, SweepEntries(env, b, height, es, n - 1).value, height, es[n - 1]);
    }
  }

  lemma {:induction false} SweepEntriesEmpties(env: Env, b: Books, height: U64, es: seq<Entry>, n: nat)
    requires n <= |es| && env.v121 == Some(true)
    requires SweepEntries(env, b, height, es, n).Ok?
    ensures forall i :: 0 <= i < n ==> Value(SweepEntries(env, b, height, es, n).value.accounts, es[i].delegator) == 0
  {
    if n > 0 {
      SweepEntriesEmpties(env, b, height, es, n - 1);
      SweepEntryEmpties(env, SweepEntries(env, b, height, es, n - 1).value, height, es[n - 1]);
    }
  }

  /** Processing matured unbonding entries conserves tokens; since v1.2.1 it also leaves every
      delegator concerned without a spendable balance. */
  lemma {:induction false} UnstakeSound(env: Env, b: Books, height: U64, es: seq<Entry>)
    requires Sound(b)
    requires Unstake(env, b, height, es).Ok?
    ensures Sound(Unstake(env, b, height, es).value)
    ensures env.v121 == Some(true) ==>
              forall i :: 0 <= i < |es| ==> Value(Unstake(env, b, height, es).value.accounts, es[i].delegator) == 0
  {
    var b1 := PayEntries(env, b, height, es, |es|).value;
    PayEntriesSound(env, b, height, es, |es|);
    SweepEntriesSound(env, b1, height, es, |es|);
    if env.v121 == Some(true) {
      SweepEntriesEmpties(env, b1, height, es, |es|);
    }
  }

  /** Paying out rewards conserves tokens. */
  lemma {:induction false} RewardSound(env: Env, b: Books, height: U64, d: Delegation)
    requires Sound(b)
    requires EnqueueReward(env, b, height, d).Ok?
    ensures Sound(EnqueueReward(env, b, height, d).value)
  {
    var paid := d.rewards + if d.delegator == d.validator then d.commission else 0;
    PayIntoSound(b, d.delegator, paid);
    var b1 := PayInto(b, d.delegator, paid).value;
    var w := Withdrawal(height, env.rewardAddress[d.delegator], paid + Value(b.accounts, d.delegator), REWARD,
                        env.evmAddress(d.validator));
    BurnOwingSound(b1, d.delegator, w, false);
  }

  /** Paying out rewards never lacks coins for the burn, empties the account and leaves every other
      account alone. */
  lemma {:induction false} RewardEmpties(env: Env, b: Books, height: U64, d: Delegation)
    ensures EnqueueReward(env, b, height, d).Ok? ==>
              BalanceMoves(b, EnqueueReward(env, b, height, d).value, d.delegator, 0)
    ensures EnqueueReward(env, b, height, d) == Err(Insufficient) ==>
              b.held < d.rewards + if d.delegator == d.validator then d.commission else 0
  {
  }

  lemma {:induction false} UbiSound(env: Env, b: Books, height: U64, balance: nat)
    requires Sound(b)
    requires SweepUbi(env, b, height, balance).Ok?
    ensures Sound(SweepUbi(env, b, height, balance).value)
  {
    if env.minAmount <= balance < TWO64 {
      OwedOneMore(b.stakeDue, Withdrawal(height, env.ubiAddress, balance, UBI, ""));
    }
  }

  // ---------------------------------------------------------------------------------------
  // The two layers together
  // ---------------------------------------------------------------------------------------

  datatype Step =
    | Minting(amount: nat)
    | Unbonding(a: Account, amount: nat)
    | Slashing(amount: nat)
    | Maturing(height: U64, entries: seq<Entry>)
    | Rewarding(height: U64, d: Delegation)
    | UbiSweeping(height: U64, balance: nat)
    | Paying(max: U32, proposed: seq<EthWithdrawal>)

  /** The consensus layer's books and the withdrawal ledger of the chain. */
  datatype World = World(books: Books, ledger: Ledger)

  function Move(env: Env, b: Books, st: Step): Outcome {
    match st
    case Minting(amount) => Ok(Mint(b, amount))
    case Unbonding(a, amount) => PayInto(b, a, amount)
    case Slashing(amount) => Slash(b, amount)
    case Maturing(height, es) => Unstake(env, b, height, es)
    case Rewarding(height, d) => SweepReward(env, b, height, d)
    case UbiSweeping(height, balance) => SweepUbi(env, b, height, balance)
    case Paying(_, _) => Ok(b)
  }

  lemma {:induction false} MoveSound(env: Env, b: Books, st: Step)
    requires Sound(b)
    requires Move(env, b, st).Ok?
    ensures Sound(Move(env, b, st).value)
  {
    match st
    case Minting(_) =>
    case Unbonding(a, amount) => PayIntoSound(b, a, amount);
    case Slashing(_) =>
    case Maturing(height, es) => UnstakeSound(env, b, height, es);
    case Rewarding(height, d) =>
      if SweepReward(env, b, height, d) == EnqueueReward(env, b, height, d) {
        RewardSound(env, b, height, d);
      }
    case UbiSweeping(height, balance) => UbiSound(env, b, height, balance);
    case Paying(_, _) =>
  }

  /** The queues only grow. */
  lemma {:induction false} DuesGrow(env: Env, b: Books, st: Step)
    requires Move(env, b, st).Ok?
    ensures b.stakeDue <= Move(env, b, st).value.stakeDue
    ensures b.rewardDue <= Move(env, b, st).value.rewardDue
  {
    if st.Maturing? {
      PayEntriesGrow(env, b, st.height, st.entries, |st.entries|);
      SweepEntriesGrow(env, PayEntries(env, b, st.height, st.entries, |st.entries|).value,
                       st.height, st.entries, |st.entries|);
    }
  }

  lemma {:induction false} PayEntriesGrow(env: Env, b: Books, height: U64, es: seq<Entry>, n: nat)
    requires n <= |es| && PayEntries(env, b, height, es, n).Ok?
    ensures b.stakeDue <= PayEntries(env, b, height, es, n).value.stakeDue
    ensures b.rewardDue == PayEntries(env, b, height, es, n).value.rewardDue
  {
    if n > 0 {
      PayEntriesGrow(env, b, height, es, n - 1);
    }
  }

  lemma {:induction false} SweepEntriesGrow(env: Env, b: Books, height: U64, es: seq<Entry>, n: nat)
    requires n <= |es| && SweepEntries(env, b, height, es, n).Ok?
    ensures b.stakeDue == SweepEntries(env, b, height, es, n).value.stakeDue
    ensures b.rewardDue <= SweepEntries(env, b, height, es, n).value.rewardDue
  {
    if n > 0 {
      SweepEntriesGrow(env, b, height, es, n - 1);
    }
  }

  /** The ledger after new withdrawals have been handed to the queues. */
  function Record(hex: string -> Address, l: Ledger, ws: seq<Withdrawal>, rs: seq<Withdrawal>): Ledger
    decreases |ws| + |rs|
  {
    if ws != [] then Record(hex, Advance(hex, l, StakeDue(ws[0])), ws[1..], rs)
    else if rs != [] then Record(hex, Advance(hex, l, RewardDue(rs[0])), [], rs[1..])
    else l
  }

  lemma {:induction false} RecordAppends(hex: string -> Address, l: Ledger, ws: seq<Withdrawal>, rs: seq<Withdrawal>)
    requires LedgerSettled(hex, l)
    ensures var l' := Record(hex, l, ws, rs);
            l'.owedStake == l.owedStake + ws && l'.owedReward == l.owedReward + rs && LedgerSettled(hex, l')
    decreases |ws| + |rs|
  {
    if ws != [] {
      PushSettled(hex, l.pools.stake, l.owedStake, l.paidStake, ws[0]);
      RecordAppends(hex, Advance(hex, l, StakeDue(ws[0])), ws[1..], rs);
      assert l.owedStake + ws == l.owedStake + [ws[0]] + ws[1..];
    } else if rs != [] {
      PushSettled(hex, l.pools.reward, l.owedReward, l.paidReward, rs[0]);
      RecordAppends(hex, Advance(hex, l, RewardDue(rs[0])), [], rs[1..]);
      assert l.owedReward + rs == l.owedReward + [rs[0]] + rs[1..];
    }
  }

  function Next(env: Env, hex: string -> Address, w: World, st: Step): Result<World, FlowError> {
    match st
    case Paying(n, proposed) => Ok(w.(ledger := Advance(hex, w.ledger, Block(n, proposed))))
    case _ =>
      match Move(env, w.books, st)
      case Err(x) => Err(x)
      case Ok(b) =>
        DuesGrow(env, w.books, st);
        var ws, rs := b.stakeDue[|w.books.stakeDue|..], b.rewardDue[|w.books.rewardDue|..];
        Ok(World(b, Record(hex, w.ledger, ws, rs)))
  }

  /** A run of the chain; env may differ from step to step, as addresses and delegations change. */
  function RunWorld(hex: string -> Address, w: World, steps: seq<(Env, Step)>): Result<World, FlowError>
    decreases |steps|
  {
    if steps == [] then Ok(w)
    else
      match Next(steps[0].0, hex, w, steps[0].1)
      case Err(x) => Err(x)
      case Ok(w1) => RunWorld(hex, w1, steps[1..])
  }

  ghost predicate InStep(hex: string -> Address, w: World) {
    && Sound(w.books)
    && LedgerSettled(hex, w.ledger)
    && w.ledger.owedStake == w.books.stakeDue
    && w.ledger.owedReward == w.books.rewardDue
  }

  lemma {:induction false} PayingInStep(hex: string -> Address, w: World, max: U32, proposed: seq<EthWithdrawal>)
    requires InStep(hex, w)
    requires |w.books.stakeDue| < TWO64 && |w.books.rewardDue| < TWO64
    ensures InStep(hex, w.(ledger := Advance(hex, w.ledger, Block(max, proposed))))
  {
    BlockSettled(hex, w.ledger, max, proposed);
  }

  lemma {:induction false} SplitAt<T>(xs: seq<T>, ys: seq<T>)
    requires xs <= ys
    ensures xs + ys[|xs|..] == ys
  {
  }

  /** Handing to the ledger exactly what is newly due keeps it in step with the books. */
  lemma {:induction false} RecordInStep(hex: string -> Address, w: World, b: Books)
    requires InStep(hex, w) && Sound(b)
    requires w.books.stakeDue <= b.stakeDue && w.books.rewardDue <= b.rewardDue
    ensures var ws, rs := b.stakeDue[|w.books.stakeDue|..], b.rewardDue[|w.books.rewardDue|..];
            InStep(hex, World(b, Record(hex, w.ledger, ws, rs)))
  {
    RecordAppends(hex, w.ledger, b.stakeDue[|w.books.stakeDue|..], b.rewardDue[|w.books.rewardDue|..]);
    SplitAt(w.books.stakeDue, b.stakeDue);
    SplitAt(w.books.rewardDue, b.rewardDue);
  }

  lemma {:induction false} NextInStep(env: Env, hex: string -> Address, w: World, st: Step)
    requires InStep(hex, w)
    requires |w.books.stakeDue| < TWO64 && |w.books.rewardDue| < TWO64
    requires Next(env, hex, w, st).Ok?
    ensures InStep(hex, Next(env, hex, w, st).value)
  {
    if st.Paying? {
      PayingInStep(hex, w, st.max, st.proposed);
    } else {
      MoveSound(env, w.books, st);
      DuesGrow(env, w.books, st);
      RecordInStep(hex, w, Move(env, w.books, st).value);
    }
  }

  lemma {:induction false} DuesGrowRun(hex: string -> Address, w: World, steps: seq<(Env, Step)>)
    requires RunWorld(hex, w, steps).Ok?
    ensures w.books.stakeDue <= RunWorld(hex, w, steps).value.books.stakeDue
    ensures w.books.rewardDue <= RunWorld(hex, w, steps).value.books.rewardDue
    decreases |steps|
  {
    if steps != [] {
      if !steps[0].1.Paying? {
        DuesGrow(steps[0].0, w.books, steps[0].1);
      }
      DuesGrowRun(hex, Next(steps[0].0, hex, w, steps[0].1).value, steps[1..]);
    }
  }

  lemma {:induction false} RunInStep(hex: string -> Address, w: World, steps: seq<(Env, Step)>)
    requires InStep(hex, w)
    requires RunWorld(hex, w, steps).Ok?
    requires |RunWorld(hex, w, steps).value.books.stakeDue| < TWO64
    requires |RunWorld(hex, w, steps).value.books.rewardDue| < TWO64
    ensures InStep(hex, RunWorld(hex, w, steps).value)
    decreases |steps|
  {
    if steps != [] {
      DuesGrowRun(hex, w, steps);
      NextInStep(steps[0].0, hex, w, steps[0].1);
      RunInStep(hex, Next(steps[0].0, hex, w, steps[0].1).value, steps[1..]);
    }
  }

  /** What the steps mint and what they slash. */
  function MintedBy(steps: seq<(Env, Step)>): nat
    decreases |steps|
  {
    if steps == [] then 0
    else (if steps[0].1.Minting? then steps[0].1.amount else 0) + MintedBy(steps[1..])
  }

  function SlashedBy(steps: seq<(Env, Step)>): nat
    decreases |steps|
  {
    if steps == [] then 0
    else (if steps[0].1.Slashing? then steps[0].1.amount else 0) + SlashedBy(steps[1..])
  }

  ghost predicate SameTotals(b: Books, b': Books) {
    b'.minted == b.minted && b'.slashed == b.slashed
  }

  lemma {:induction false} EntriesKeepTotals(env: Env, b: Books, height: U64, es: seq<Entry>, n: nat)
    requires n <= |es|
    ensures PayEntries(env, b, height, es, n).Ok? ==> SameTotals(b, PayEntries(env, b, height, es, n).value)
    ensures SweepEntries(env, b, height, es, n).Ok? ==> SameTotals(b, SweepEntries(env, b, height, es, n).value)
  {
    if n > 0 {
      EntriesKeepTotals(env, b, height, es, n - 1);
    }
  }

  /** Only minting mints and only slashing slashes, each as much as its step says. */
  lemma {:induction false} MoveTotals(env: Env, b: Books, st: Step)
    requires Move(env, b, st).Ok?
    ensures Move(env, b, st).value.minted == b.minted + if st.Minting? then st.amount else 0
    ensures Move(env, b, st).value.slashed == b.slashed + if st.Slashing? then st.amount else 0
  {
    if st.Maturing? {
      EntriesKeepTotals(env, b, st.height, st.entries, |st.entries|);
      EntriesKeepTotals(env, PayEntries(env, b, st.height, st.entries, |st.entries|).value,
                        st.height, st.entries, |st.entries|);
    }
  }

  lemma {:induction false} RunTotals(hex: string -> Address, w: World, steps: seq<(Env, Step)>)
    requires RunWorld(hex, w, steps).Ok?
    ensures RunWorld(hex, w, steps).value.books.minted == w.books.minted + MintedBy(steps)
    ensures RunWorld(hex, w, steps).value.books.slashed == w.books.slashed + SlashedBy(steps)
    decreases |steps|
  {
    if steps != [] {
      if !steps[0].1.Paying? {
        MoveTotals(steps[0].0, w.books, steps[0].1);
      }
      RunTotals(hex, Next(steps[0].0, hex, w, steps[0].1).value, steps[1..]);
    }
  }

  /** A chain before its first step: some supply held by the modules, nothing owed. */
  function GenesisWorld(supply: nat): World {
    World(Books(map[], supply, supply, supply, 0, [], []), Genesis())
  }

  /** The peg between the layers, over every run of mints, unbondings, slashes, matured entries,
      reward and UBI sweeps and finalised payloads: everything that genesis and the mints of the run
      brought into the consensus layer is in its supply, or waits in a queue, or was paid on the
      execution layer, or was slashed, and in each case once. */
  lemma {:induction false} PegHolds(hex: string -> Address, supply: nat, steps: seq<(Env, Step)>)
    requires RunWorld(hex, GenesisWorld(supply), steps).Ok?
    requires |RunWorld(hex, GenesisWorld(supply), steps).value.books.stakeDue| < TWO64
    requires |RunWorld(hex, GenesisWorld(supply), steps).value.books.rewardDue| < TWO64
    ensures var w := RunWorld(hex, GenesisWorld(supply), steps).value;
            var l := w.ledger;
            && w.books.supply >= 0
            && supply + MintedBy(steps) == w.books.supply
                 + TotalOwed(l.pools.stake.contents) + TotalOwed(l.pools.reward.contents)
                 + TotalPaid(l.paidStake) + TotalPaid(l.paidReward)
                 + SlashedBy(steps)
  {
    GenesisInStep(hex, supply);
    RunTotals(hex, GenesisWorld(supply), steps);
    RunInStep(hex, GenesisWorld(supply), steps);
    var l := RunWorld(hex, GenesisWorld(supply), steps).value.ledger;
    SettledIsExactlyOnce(hex, l.pools.stake, l.owedStake, l.paidStake);
    SettledIsExactlyOnce(hex, l.pools.reward, l.owedReward, l.paidReward);
  }

  lemma {:induction false} GenesisInStep(hex: string -> Address, supply: nat)
    ensures InStep(hex, GenesisWorld(supply))
  {
  }

  lemma {:induction false} PayFails(env: Env, b: Books, height: U64, es: seq<Entry>, i: nat)
    requires i <= |es| && PayEntries(env, b, height, es, i).Err?
    ensures PayEntries(env, b, height, es, |es|) == PayEntries(env, b, height, es, i)
    decreases |es| - i
  {
    if i < |es| {
      PayFails(env, b, height, es, i + 1);
    }
  }

  lemma {:induction false} SweepFails(env: Env, b: Books, height: U64, es: seq<Entry>, i: nat)
    requires i <= |es| && SweepEntries(env, b, height, es, i).Err?
    ensures SweepEntries(env, b, height, es, |es|) == SweepEntries(env, b, height, es, i)
    decreases |es| - i
  {
    if i < |es| {
      SweepFails(env, b, height, es, i + 1);
    }
  }
}
