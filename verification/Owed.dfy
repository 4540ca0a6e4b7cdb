/** To whom the consensus layer owes what it burns, and that the execution layer pays them
    (client/x/evmstaking/keeper: withdraw.go, ubi.go). */
module Owed {
  import opened Machine
  import opened Sums
  import opened Queue
  import opened Withdrawals
  import opened TokenFlow
  import opened UnstakeOutcome

  // ---------------------------------------------------------------------------------------
  // Matured entries
  // ---------------------------------------------------------------------------------------

  /** The withdrawal that a matured entry leads to: its amount, to its delegator's withdraw address. */
  ghost predicate OwesEntry(w: Withdrawal, env: Env, height: U64, e: Entry) {
    && e.delegator in env.withdrawAddress
    && w.executionAddress == env.withdrawAddress[e.delegator]
    && w.amount == e.amount
    && w.kind == UNSTAKE
    && w.creationHeight == height
    && w.validatorAddress == env.evmAddress(e.validator)
  }

  /** The first pass owes every entry to its own delegator, in order, and nothing else. */
  lemma {:induction false} EntriesOwed(env: Env, b: Books, height: U64, es: seq<Entry>, n: nat)
    requires n <= |es| && PayEntries(env, b, height, es, n).Ok?
    ensures var b' := PayEntries(env, b, height, es, n).value;
            && b.stakeDue <= b'.stakeDue && |b'.stakeDue| == |b.stakeDue| + n
            && (forall i :: 0 <= i < n ==> OwesEntry(b'.stakeDue[|b.stakeDue| + i], env, height, es[i]))
            && b'.rewardDue == b.rewardDue
  {
    if n > 0 {
      EntriesOwed(env, b, height, es, n - 1);
    }
  }

  // ---------------------------------------------------------------------------------------
  // Residues
  // ---------------------------------------------------------------------------------------

  /** The entry leads to a reward withdrawal: its residue is taken and is not zero. */
  predicate PaysResidue(env: Env, have: Account -> int, es: seq<Entry>, i: nat)
    requires i < |es|
  {
    Swept(env, es[i]) && Residue(env, have, es, i) != 0
  }

  /** The entries that do, by position. */
  function Positions(env: Env, have: Account -> int, es: seq<Entry>, n: nat): seq<nat>
    requires n <= |es|
  {
    if n == 0 then []
    else Positions(env, have, es, n - 1) + if PaysResidue(env, have, es, n - 1) then [n - 1] else []
  }

  /** The list holds every such entry once, in order. */
  ghost predicate ListsPaying(env: Env, have: Account -> int, es: seq<Entry>, n: nat, at: seq<nat>)
    requires n <= |es|
  {
    && (forall j :: 0 <= j < |at| ==> at[j] < n && PaysResidue(env, have, es, at[j]))
    && (forall j, k :: 0 <= j < k < |at| ==> at[j] < at[k])
    && (forall i :: 0 <= i < n && PaysResidue(env, have, es, i) ==> i in at)
  }

  lemma {:induction false} OneMorePosition(env: Env, have: Account -> int, es: seq<Entry>, n: nat, at: seq<nat>)
    requires 0 < n <= |es| && ListsPaying(env, have, es, n - 1, at) && PaysResidue(env, have, es, n - 1)
    ensures ListsPaying(env, have, es, n, at + [n - 1])
  {
    var more := at + [n - 1];
    assert more[|at|] == n - 1;
    forall i | 0 <= i < n && PaysResidue(env, have, es, i)
      ensures i in more
    {
      assert i < n - 1 ==> i in at;
    }
  }

  lemma {:induction false} PositionsListed(env: Env, have: Account -> int, es: seq<Entry>, n: nat)
    requires n <= |es|
    ensures ListsPaying(env, have, es, n, Positions(env, have, es, n))
  {
    if n > 0 {
      PositionsListed(env, have, es, n - 1);
      if PaysResidue(env, have, es, n - 1) {
        OneMorePosition(env, have, es, n, Positions(env, have, es, n - 1));
      }
    }
  }

  ghost predicate OwesReward(w: Withdrawal, env: Env, height: U64, a: Account, validator: Account, amount: int) {
    && a in env.rewardAddress
    && w.executionAddress == env.rewardAddress[a]
    && w.amount == amount
    && w.kind == REWARD
    && w.creationHeight == height
    && w.validatorAddress == env.evmAddress(validator)
  }

  /** The list owes, one withdrawal each and in order, what the entries at these positions leave behind. */
  ghost predicate OwesResidues(ws: seq<Withdrawal>, env: Env, height: U64, have: Account -> int, es: seq<Entry>,
                               at: seq<nat>) {
    && |ws| == |at|
    && forall j :: 0 <= j < |at| ==>
         && at[j] < |es|
         && OwesReward(ws[j], env, height, es[at[j]].delegator, es[at[j]].validator, Residue(env, have, es, at[j]))
  }

  /** One entry of the second pass. */
  lemma {:induction false} OneResidue(env: Env, b: Books, b1: Books, height: U64, es: seq<Entry>, n: nat,
                                      have: Account -> int)
    requires 0 < n <= |es| && SweptSoFar(env, b, b1, es, n - 1)
    requires forall a :: have(a) == Value(b.accounts, a)
    requires SweepEntry(env, b1, height, es[n - 1]).Ok?
    ensures var b', e := SweepEntry(env, b1, height, es[n - 1]).value, es[n - 1];
            && b'.stakeDue == b1.stakeDue
            && (if PaysResidue(env, have, es, n - 1)
                then && |b'.rewardDue| == |b1.rewardDue| + 1 && b1.rewardDue <= b'.rewardDue
                     && OwesReward(b'.rewardDue[|b1.rewardDue|], env, height, e.delegator, e.validator,
                                   Residue(env, have, es, n - 1))
                else b'.rewardDue == b1.rewardDue)
  {
  }

  /** The second pass owes one reward withdrawal for every residue that is taken and not zero, to the
      reward address of the entry's delegator, and nothing else. */
  lemma {:induction false} ResiduesOwed(env: Env, b: Books, height: U64, es: seq<Entry>, n: nat, have: Account -> int)
    requires n <= |es| && (forall a :: have(a) == Value(b.accounts, a))
    requires SweepEntries(env, b, height, es, n).Ok?
    ensures var b' := SweepEntries(env, b, height, es, n).value;
            && b'.stakeDue == b.stakeDue && b.rewardDue <= b'.rewardDue
            && OwesResidues(b'.rewardDue[|b.rewardDue|..], env, height, have, es, Positions(env, have, es, n))
  {
    if n > 0 {
      ResiduesOwed(env, b, height, es, n - 1, have);
      var b1 := SweepEntries(env, b, height, es, n - 1).value;
      SweptExactlyWhen(env, b, height, es, n - 1, have);
      OneResidue(env, b, b1, height, es, n, have);
      OneMoreOwed(b.rewardDue, b1.rewardDue, SweepEntries(env, b, height, es, n).value.rewardDue,
                  env, height, have, es, n);
    }
  }

  lemma {:induction false} OneMoreOwed(due: seq<Withdrawal>, due1: seq<Withdrawal>, due2: seq<Withdrawal>, env: Env,
                                       height: U64, have: Account -> int, es: seq<Entry>, n: nat)
    requires 0 < n <= |es| && due <= due1
    requires OwesResidues(due1[|due|..], env, height, have, es, Positions(env, have, es, n - 1))
    requires if PaysResidue(env, have, es, n - 1)
             then && |due2| == |due1| + 1 && due1 <= due2
                  && OwesReward(due2[|due1|], env, height, es[n - 1].delegator, es[n - 1].validator,
                                Residue(env, have, es, n - 1))
             else due2 == due1
    ensures due <= due2
    ensures OwesResidues(due2[|due|..], env, height, have, es, Positions(env, have, es, n))
  {
    if PaysResidue(env, have, es, n - 1) {
      var ws, at := due1[|due|..], Positions(env, have, es, n - 1);
      assert due2[|due|..] == ws + [due2[|due1|]];
      assert Positions(env, have, es, n) == at + [n - 1];
    }
  }

  /** Both passes: each entry is owed to its delegator's withdraw address, and each residue that is taken,
      computed from the balances before the call, to the reward address. */
  lemma {:induction false} UnstakeOwed(env: Env, b: Books, height: U64, es: seq<Entry>)
    requires Unstake(env, b, height, es).Ok?
    ensures var b', have := Unstake(env, b, height, es).value, LeftOver(b, es);
            && b.stakeDue <= b'.stakeDue && |b'.stakeDue| == |b.stakeDue| + |es|
            && (forall i :: 0 <= i < |es| ==> OwesEntry(b'.stakeDue[|b.stakeDue| + i], env, height, es[i]))
            && b.rewardDue <= b'.rewardDue
            && OwesResidues(b'.rewardDue[|b.rewardDue|..], env, height, have, es, Positions(env, have, es, |es|))
            && ListsPaying(env, have, es, |es|, Positions(env, have, es, |es|))
  {
    var have := LeftOver(b, es);
    EntriesOwed(env, b, height, es, |es|);
    PaidExactlyWhen(env, b, height, es, |es|);
    ResiduesOwed(env, PayEntries(env, b, height, es, |es|).value, height, es, |es|, have);
    PositionsListed(env, have, es, |es|);
  }

  // ---------------------------------------------------------------------------------------
  // Rewards and universal basic income
  // ---------------------------------------------------------------------------------------

  /** What withdrawing a delegation's rewards pays out: its own commission only for a self-delegation. */
  function PaidOut(d: Delegation): nat {
    d.rewards + if d.delegator == d.validator then d.commission else 0
  }

  ghost predicate RewardPayable(env: Env, b: Books, d: Delegation) {
    && PaidOut(d) <= b.held
    && Value(b.accounts, d.delegator) < TWO63
    && PaidOut(d) + Value(b.accounts, d.delegator) < TWO64
    && d.delegator in env.rewardAddress
  }

  /** A payout of rewards succeeds exactly when the distribution module holds them, the amounts fit and
      the delegator has a reward address.  It then takes them from that module and owes them, together
      with everything the account had, to that address in one withdrawal. */
  lemma {:induction false} RewardOwed(env: Env, b: Books, height: U64, d: Delegation)
    ensures EnqueueReward(env, b, height, d).Ok? <==> RewardPayable(env, b, d)
    ensures EnqueueReward(env, b, height, d).Ok? ==>
              var b', amount := EnqueueReward(env, b, height, d).value, PaidOut(d) + Value(b.accounts, d.delegator);
              && b'.held == b.held - PaidOut(d)
              && b'.supply == b.supply - amount
              && BalanceMoves(b, b', d.delegator, 0)
              && b'.stakeDue == b.stakeDue
              && |b'.rewardDue| == |b.rewardDue| + 1 && b.rewardDue <= b'.rewardDue
              && OwesReward(b'.rewardDue[|b.rewardDue|], env, height, d.delegator, d.validator, amount)
  {
  }

  /** The sweep pays a delegation out exactly when the estimate and the claimed rewards, added as uint64
      values, reach the minimum; below it nothing at all happens. */
  lemma {:induction false} SweptFromTheMinimumOn(env: Env, b: Books, height: U64, d: Delegation)
    ensures var claimed := Value(b.accounts, d.delegator);
            var r := SweepReward(env, b, height, d);
            && (claimed < TWO64 && (d.estimate + claimed) % TWO64 < env.minAmount ==> r == Ok(b))
            && (claimed < TWO64 && (d.estimate + claimed) % TWO64 >= env.minAmount ==>
                  r == EnqueueReward(env, b, height, d))
            && (claimed >= TWO64 ==> r.Err?)
            && (claimed < TWO64 && (d.estimate + claimed) % TWO64 >= env.minAmount ==>
                  (r.Ok? <==> RewardPayable(env, b, d)))
  {
    RewardOwed(env, b, height, d);
  }

  /** The UBI sweep owes the whole balance to the UBI address, exactly from the minimum on. */
  lemma {:induction false} UbiOwed(env: Env, b: Books, height: U64, balance: nat)
    ensures var r := SweepUbi(env, b, height, balance);
            && (r.Ok? <==> balance < TWO64 && (balance < env.minAmount || balance <= b.held))
            && (r.Ok? && balance < env.minAmount ==> r.value == b)
            && (r.Ok? && balance >= env.minAmount ==>
                  && r.value.held == b.held - balance && r.value.supply == b.supply - balance
                  && r.value.accounts == b.accounts && r.value.rewardDue == b.rewardDue
                  && r.value.stakeDue == b.stakeDue + [Withdrawal(height, env.ubiAddress, balance, UBI, "")])
  {
  }

  /** Minting brings coins in, unbonding moves them from the staking module to the account, slashing takes
      them away, each by exactly its amount and with nothing newly owed; the last two fail exactly when the
      modules do not hold that much. */
  lemma {:induction false} MintedUnbondedSlashed(env: Env, b: Books, a: Account, amount: nat)
    ensures var r := Move(env, b, Minting(amount));
            && r.Ok? && r.value.accounts == b.accounts && SameDues(b, r.value)
            && r.value.held == b.held + amount && r.value.supply == b.supply + amount
    ensures var r := Move(env, b, Unbonding(a, amount));
            && (r.Ok? <==> amount <= b.held)
            && (r.Ok? ==> && BalanceMoves(b, r.value, a, Value(b.accounts, a) + amount) && SameDues(b, r.value)
                          && r.value.held == b.held - amount && r.value.supply == b.supply)
    ensures var r := Move(env, b, Slashing(amount));
            && (r.Ok? <==> amount <= b.held)
            && (r.Ok? ==> && r.value.accounts == b.accounts && SameDues(b, r.value)
                          && r.value.held == b.held - amount && r.value.supply == b.supply - amount)
  {
  }

  ghost predicate SameDues(b: Books, b': Books) {
    b'.stakeDue == b.stakeDue && b'.rewardDue == b.rewardDue
  }

  // ---------------------------------------------------------------------------------------
  // What is owed is paid to whom it is owed
  // ---------------------------------------------------------------------------------------

  lemma {:induction false} RunWorldSplit(hex: string -> Address, w: World, xs: seq<(Env, Step)>, ys: seq<(Env, Step)>)
    requires RunWorld(hex, w, xs + ys).Ok?
    ensures RunWorld(hex, w, xs).Ok?
    ensures RunWorld(hex, w, xs + ys) == RunWorld(hex, RunWorld(hex, w, xs).value, ys)
    decreases |xs|
  {
    if xs == [] {
      assert xs + ys == ys;
    } else {
      assert (xs + ys)[1..] == xs[1..] + ys;
      RunWorldSplit(hex, Next(xs[0].0, hex, w, xs[0].1).value, xs[1..], ys);
    }
  }

  /** The withdrawal at this position of everything a queue ever owed: paid under its position, to its own
      address and with its own amount, or still in the queue at its place. */
  ghost predicate PaidOrQueued(hex: string -> Address, queued: seq<Withdrawal>, paid: seq<EthWithdrawal>, pos: nat,
                               w: Withdrawal) {
    if pos < |paid|
    then paid[pos] == EthWithdrawal(pos % TWO64, w.kind, hex(w.executionAddress), w.amount)
    else pos - |paid| < |queued| && queued[pos - |paid|] == w
  }

  ghost predicate AllPaidOrQueued(hex: string -> Address, w: World) {
    && (forall i :: 0 <= i < |w.books.stakeDue| ==>
          PaidOrQueued(hex, w.ledger.pools.stake.contents, w.ledger.paidStake, i, w.books.stakeDue[i]))
    && (forall i :: 0 <= i < |w.books.rewardDue| ==>
          PaidOrQueued(hex, w.ledger.pools.reward.contents, w.ledger.paidReward, i, w.books.rewardDue[i]))
  }

  lemma {:induction false} OnceIsPaidOrQueued(hex: string -> Address, a: Fifo<Withdrawal>, owed: seq<Withdrawal>,
                                              paid: seq<EthWithdrawal>, i: nat)
    requires ExactlyOnce(hex, a, owed, paid) && i < |owed|
    ensures PaidOrQueued(hex, a.contents, paid, i, owed[i])
  {
  }

  /** Over every run from genesis, whatever the consensus layer ever owed is paid to its own address, or
      still queued. */
  lemma {:induction false} EverythingPaidOrQueued(hex: string -> Address, supply: nat, steps: seq<(Env, Step)>)
    requires RunWorld(hex, GenesisWorld(supply), steps).Ok?
    requires |RunWorld(hex, GenesisWorld(supply), steps).value.books.stakeDue| < TWO64
    requires |RunWorld(hex, GenesisWorld(supply), steps).value.books.rewardDue| < TWO64
    ensures AllPaidOrQueued(hex, RunWorld(hex, GenesisWorld(supply), steps).value)
  {
    GenesisInStep(hex, supply);
    RunInStep(hex, GenesisWorld(supply), steps);
    var w := RunWorld(hex, GenesisWorld(supply), steps).value;
    var l := w.ledger;
    SettledIsExactlyOnce(hex, l.pools.stake, l.owedStake, l.paidStake);
    SettledIsExactlyOnce(hex, l.pools.reward, l.owedReward, l.paidReward);
    forall i | 0 <= i < |w.books.stakeDue|
      ensures PaidOrQueued(hex, l.pools.stake.contents, l.paidStake, i, w.books.stakeDue[i])
    {
      OnceIsPaidOrQueued(hex, l.pools.stake, l.owedStake, l.paidStake, i);
    }
    forall i | 0 <= i < |w.books.rewardDue|
      ensures PaidOrQueued(hex, l.pools.reward.contents, l.paidReward, i, w.books.rewardDue[i])
    {
      OnceIsPaidOrQueued(hex, l.pools.reward, l.owedReward, l.paidReward, i);
    }
  }

  /** The world just before and just after one step of a run, and at its end. */
  lemma {:induction false} AroundStep(hex: string -> Address, w0: World, before: seq<(Env, Step)>, env: Env, st: Step,
                                      after: seq<(Env, Step)>)
    returns (w1: World, w2: World)
    requires !st.Paying? && RunWorld(hex, w0, before + [(env, st)] + after).Ok?
    ensures RunWorld(hex, w0, before) == Ok(w1)
    ensures Move(env, w1.books, st) == Ok(w2.books)
    ensures w2.books.stakeDue <= RunWorld(hex, w0, before + [(env, st)] + after).value.books.stakeDue
    ensures w2.books.rewardDue <= RunWorld(hex, w0, before + [(env, st)] + after).value.books.rewardDue
  {
    var rest := [(env, st)] + after;
    assert before + [(env, st)] + after == before + rest;
    RunWorldSplit(hex, w0, before, rest);
    w1 := RunWorld(hex, w0, before).value;
    assert rest[1..] == after;
    w2 := Next(env, hex, w1, st).value;
    DuesGrowRun(hex, w2, after);
  }

  /** A run from genesis that succeeds and in which no queue ever owes 2^64 withdrawals. */
  ghost predicate GoodRun(hex: string -> Address, supply: nat, steps: seq<(Env, Step)>) {
    && RunWorld(hex, GenesisWorld(supply), steps).Ok?
    && |RunWorld(hex, GenesisWorld(supply), steps).value.books.stakeDue| < TWO64
    && |RunWorld(hex, GenesisWorld(supply), steps).value.books.rewardDue| < TWO64
  }

  /** At the end of the run, the withdrawal at this position of the stake (or reward) dues is paid to its own
      address, or queued. */
  ghost predicate Reaches(hex: string -> Address, supply: nat, steps: seq<(Env, Step)>, stake: bool, pos: nat,
                          w: Withdrawal)
    requires RunWorld(hex, GenesisWorld(supply), steps).Ok?
  {
    var l := RunWorld(hex, GenesisWorld(supply), steps).value.ledger;
    if stake then PaidOrQueued(hex, l.pools.stake.contents, l.paidStake, pos, w)
    else PaidOrQueued(hex, l.pools.reward.contents, l.paidReward, pos, w)
  }

  /** Whatever is owed right after some step reaches its address. */
  lemma {:induction false} DueReaches(hex: string -> Address, supply: nat, before: seq<(Env, Step)>, env: Env, st: Step,
                                      after: seq<(Env, Step)>)
    returns (b: Books, b': Books)
    requires !st.Paying? && GoodRun(hex, supply, before + [(env, st)] + after)
    ensures RunWorld(hex, GenesisWorld(supply), before).Ok?
    ensures b == RunWorld(hex, GenesisWorld(supply), before).value.books && Move(env, b, st) == Ok(b')
    ensures forall i :: 0 <= i < |b'.stakeDue| ==>
              Reaches(hex, supply, before + [(env, st)] + after, true, i, b'.stakeDue[i])
    ensures forall i :: 0 <= i < |b'.rewardDue| ==>
              Reaches(hex, supply, before + [(env, st)] + after, false, i, b'.rewardDue[i])
  {
    var steps := before + [(env, st)] + after;
    var w1, w2 := AroundStep(hex, GenesisWorld(supply), before, env, st, after);
    EverythingPaidOrQueued(hex, supply, steps);
    b, b' := w1.books, w2.books;
    var end := RunWorld(hex, GenesisWorld(supply), steps).value.books;
    assert forall i :: 0 <= i < |b'.stakeDue| ==> end.stakeDue[i] == b'.stakeDue[i];
    assert forall i :: 0 <= i < |b'.rewardDue| ==> end.rewardDue[i] == b'.rewardDue[i];
  }

  /** Both passes owe the i-th entry at the i-th new position. */
  lemma {:induction false} EntryAt(env: Env, b: Books, b': Books, height: U64, es: seq<Entry>, i: nat)
    returns (pos: nat, w: Withdrawal)
    requires Move(env, b, Maturing(height, es)) == Ok(b') && i < |es|
    ensures pos == |b.stakeDue| + i < |b'.stakeDue| && w == b'.stakeDue[pos] && OwesEntry(w, env, height, es[i])
  {
    UnstakeOwed(env, b, height, es);
    pos := |b.stakeDue| + i;
    w := b'.stakeDue[pos];
  }

  /** From the consensus layer to the execution layer: in every run from genesis, an entry that matures at
      any step is owed to the withdraw address its delegator had at that step, with its own amount; and by
      the end of the run that is paid there, under its own position, or still queued. */
  lemma {:induction false} EntryPaidToItsDelegator(hex: string -> Address, supply: nat, before: seq<(Env, Step)>,
                                                   env: Env, height: U64, es: seq<Entry>, after: seq<(Env, Step)>,
                                                   i: nat)
    returns (pos: nat, w: Withdrawal)
    requires GoodRun(hex, supply, before + [(env, Maturing(height, es))] + after) && i < |es|
    ensures RunWorld(hex, GenesisWorld(supply), before).Ok?
    ensures pos == |RunWorld(hex, GenesisWorld(supply), before).value.books.stakeDue| + i
    ensures OwesEntry(w, env, height, es[i])
    ensures Reaches(hex, supply, before + [(env, Maturing(height, es))] + after, true, pos, w)
  {
    var b, b' := DueReaches(hex, supply, before, env, Maturing(height, es), after);
    pos, w := EntryAt(env, b, b', height, es, i);
  }

  /** The same for the residue of an entry, at the reward address. */
  lemma {:induction false} ResiduePaidToItsDelegator(hex: string -> Address, supply: nat, before: seq<(Env, Step)>,
                                                     env: Env, height: U64, es: seq<Entry>, after: seq<(Env, Step)>,
                                                     i: nat)
    returns (b: Books, pos: nat, w: Withdrawal)
    requires GoodRun(hex, supply, before + [(env, Maturing(height, es))] + after) && i < |es|
    requires RunWorld(hex, GenesisWorld(supply), before).Ok?
    requires var b := RunWorld(hex, GenesisWorld(supply), before).value.books;
             PaysResidue(env, LeftOver(b, es), es, i)
    ensures b == RunWorld(hex, GenesisWorld(supply), before).value.books
    ensures OwesReward(w, env, height, es[i].delegator, es[i].validator, Residue(env, LeftOver(b, es), es, i))
    ensures Reaches(hex, supply, before + [(env, Maturing(height, es))] + after, false, pos, w)
  {
    var b';
    b, b' := DueReaches(hex, supply, before, env, Maturing(height, es), after);
    UnstakeOwed(env, b, height, es);
    pos, w := ResidueAt(env, b, b', height, es, i);
  }

  lemma {:induction false} ResidueAt(env: Env, b: Books, b': Books, height: U64, es: seq<Entry>, i: nat)
    returns (pos: nat, w: Withdrawal)
    requires i < |es| && b.rewardDue <= b'.rewardDue
    requires var have := LeftOver(b, es);
             && PaysResidue(env, have, es, i)
             && OwesResidues(b'.rewardDue[|b.rewardDue|..], env, height, have, es, Positions(env, have, es, |es|))
             && ListsPaying(env, have, es, |es|, Positions(env, have, es, |es|))
    ensures pos < |b'.rewardDue| && w == b'.rewardDue[pos]
    ensures OwesReward(w, env, height, es[i].delegator, es[i].validator, Residue(env, LeftOver(b, es), es, i))
  {
    var at := Positions(env, LeftOver(b, es), es, |es|);
    var j :| 0 <= j < |at| && at[j] == i;
    pos := |b.rewardDue| + j;
    w := b'.rewardDue[pos];
    assert w == b'.rewardDue[|b.rewardDue|..][j];
  }

  /** The same for a reward payout: everything it owes reaches the delegator's reward address. */
  lemma {:induction false} RewardPaidToItsDelegator(hex: string -> Address, supply: nat, before: seq<(Env, Step)>,
                                                    env: Env, height: U64, d: Delegation, after: seq<(Env, Step)>)
    returns (b: Books, w: Withdrawal)
    requires GoodRun(hex, supply, before + [(env, Rewarding(height, d))] + after)
    requires RunWorld(hex, GenesisWorld(supply), before).Ok?
    requires var claimed := Value(RunWorld(hex, GenesisWorld(supply), before).value.books.accounts, d.delegator);
             claimed < TWO64 && (d.estimate + claimed) % TWO64 >= env.minAmount
    ensures b == RunWorld(hex, GenesisWorld(supply), before).value.books
    ensures OwesReward(w, env, height, d.delegator, d.validator, PaidOut(d) + Value(b.accounts, d.delegator))
    ensures Reaches(hex, supply, before + [(env, Rewarding(height, d))] + after, false, |b.rewardDue|, w)
  {
    var b';
    b, b' := DueReaches(hex, supply, before, env, Rewarding(height, d), after);
    SweptFromTheMinimumOn(env, b, height, d);
    RewardOwed(env, b, height, d);
    w := b'.rewardDue[|b.rewardDue|];
  }

  // ---------------------------------------------------------------------------------------
  // In time
  // ---------------------------------------------------------------------------------------

  /** The room in the blocks of a run. */
  function RoomOf(steps: seq<(Env, Step)>): nat
    decreases |steps|
  {
    if steps == [] then 0 else (if steps[0].1.Paying? then steps[0].1.max else 0) + RoomOf(steps[1..])
  }

  /** Every block of the run proposes what the node itself peeks. */
  ghost predicate HonestRun(hex: string -> Address, w: World, steps: seq<(Env, Step)>)
    requires RunWorld(hex, w, steps).Ok?
    decreases |steps|
  {
    steps == [] ||
    (&& (steps[0].1.Paying? ==> LocalPeek(hex, w.ledger.pools, steps[0].1.max) == Ok(steps[0].1.proposed))
     && HonestRun(hex, Next(steps[0].0, hex, w, steps[0].1).value, steps[1..]))
  }

  lemma {:induction false} RecordPaysNothing(hex: string -> Address, l: Ledger, ws: seq<Withdrawal>,
                                             rs: seq<Withdrawal>)
    ensures Record(hex, l, ws, rs).paidStake == l.paidStake && Record(hex, l, ws, rs).paidReward == l.paidReward
    decreases |ws| + |rs|
  {
    if ws != [] {
      RecordPaysNothing(hex, Advance(hex, l, StakeDue(ws[0])), ws[1..], rs);
    } else if rs != [] {
      RecordPaysNothing(hex, Advance(hex, l, RewardDue(rs[0])), [], rs[1..]);
    }
  }

  /** What one step pays: an honest block as much as it has room for, stake withdrawals first; every other
      step nothing. */
  lemma {:induction false} StepPays(env: Env, hex: string -> Address, w: World, st: Step)
    requires InStep(hex, w) && |w.books.stakeDue| < TWO64 && |w.books.rewardDue| < TWO64
    requires Next(env, hex, w, st).Ok?
    requires st.Paying? ==> LocalPeek(hex, w.ledger.pools, st.max) == Ok(st.proposed)
    ensures var l, l' := w.ledger, Next(env, hex, w, st).value.ledger;
            var waitStake, waitReward := |w.books.stakeDue| - |l.paidStake|, |w.books.rewardDue| - |l.paidReward|;
            && 0 <= waitStake && 0 <= waitReward
            && (!st.Paying? ==> |l'.paidStake| == |l.paidStake| && |l'.paidReward| == |l.paidReward|)
            && (st.Paying? ==>
                  && |l'.paidStake| == |l.paidStake| + Min(st.max, waitStake)
                  && |l'.paidReward| == |l.paidReward| + Min(st.max - Min(st.max, waitStake), waitReward))
  {
    if st.Paying? {
      BlockPays(hex, w.ledger, Block(st.max, st.proposed));
    } else {
      var b := Move(env, w.books, st).value;
      DuesGrow(env, w.books, st);
      RecordPaysNothing(hex, w.ledger, b.stakeDue[|w.books.stakeDue|..], b.rewardDue[|w.books.rewardDue|..]);
    }
  }

  /** Over every run with honest blocks, either the stake withdrawals owed at its start are paid, or every
      block was filled with stake withdrawals; and either the rewards owed at its start are paid, or every
      block was full. */
  lemma {:induction false} RunPaysInTime(hex: string -> Address, w: World, steps: seq<(Env, Step)>, stakes: nat,
                                         rewards: nat)
    requires InStep(hex, w) && RunWorld(hex, w, steps).Ok? && HonestRun(hex, w, steps)
    requires |RunWorld(hex, w, steps).value.books.stakeDue| < TWO64
    requires |RunWorld(hex, w, steps).value.books.rewardDue| < TWO64
    requires stakes <= |w.books.stakeDue| && rewards <= |w.books.rewardDue|
    ensures var l, l' := w.ledger, RunWorld(hex, w, steps).value.ledger;
            && |l.paidStake| <= |l'.paidStake| && |l.paidReward| <= |l'.paidReward|
            && (|l'.paidStake| >= stakes || |l'.paidStake| == |l.paidStake| + RoomOf(steps))
            && (|l'.paidReward| >= rewards ||
                |l'.paidStake| + |l'.paidReward| == |l.paidStake| + |l.paidReward| + RoomOf(steps))
    decreases |steps|
  {
    if steps != [] {
      var w1 := Next(steps[0].0, hex, w, steps[0].1).value;
      DuesGrowRun(hex, w, steps);
      DuesGrowRun(hex, w, [steps[0]]);
      assert RunWorld(hex, w, [steps[0]]) == Ok(w1) by {
        assert [steps[0]][1..] == [];
      }
      StepPays(steps[0].0, hex, w, steps[0].1);
      NextInStep(steps[0].0, hex, w, steps[0].1);
      RunPaysInTime(hex, w1, steps[1..], stakes, rewards);
    }
  }

  /** The run succeeds, and after this step all its blocks are honest. */
  ghost predicate HonestAfter(hex: string -> Address, supply: nat, before: seq<(Env, Step)>, env: Env, st: Step,
                              after: seq<(Env, Step)>) {
    && RunWorld(hex, GenesisWorld(supply), before).Ok?
    && var next := Next(env, hex, RunWorld(hex, GenesisWorld(supply), before).value, st);
       next.Ok? && RunWorld(hex, next.value, after).Ok? && HonestRun(hex, next.value, after)
  }

  /** In a run from genesis a queue holds what was owed and not paid. */
  lemma {:induction false} QueuedIsUnpaid(hex: string -> Address, supply: nat, steps: seq<(Env, Step)>)
    requires GoodRun(hex, supply, steps)
    ensures var w := RunWorld(hex, GenesisWorld(supply), steps).value;
            && |w.ledger.paidStake| + |w.ledger.pools.stake.contents| == |w.books.stakeDue|
            && |w.ledger.paidReward| + |w.ledger.pools.reward.contents| == |w.books.rewardDue|
  {
    GenesisInStep(hex, supply);
    RunInStep(hex, GenesisWorld(supply), steps);
  }

  /** The parts of a good run. */
  lemma {:induction false} GoodParts(hex: string -> Address, supply: nat, before: seq<(Env, Step)>, env: Env, st: Step,
                                     after: seq<(Env, Step)>)
    returns (w1: World, w2: World)
    requires !st.Paying? && GoodRun(hex, supply, before + [(env, st)] + after)
    requires HonestAfter(hex, supply, before, env, st, after)
    ensures GoodRun(hex, supply, before) && Ok(w1) == RunWorld(hex, GenesisWorld(supply), before)
    ensures Ok(w2) == Next(env, hex, w1, st) && Ok(w2.books) == Move(env, w1.books, st) && InStep(hex, w2)
    ensures |w2.ledger.paidStake| == |w1.ledger.paidStake| && |w2.ledger.paidReward| == |w1.ledger.paidReward|
    ensures RunWorld(hex, w2, after) == RunWorld(hex, GenesisWorld(supply), before + [(env, st)] + after)
  {
    var rest := [(env, st)] + after;
    assert before + [(env, st)] + after == before + rest && rest[1..] == after;
    RunWorldSplit(hex, GenesisWorld(supply), before, rest);
    w1 := RunWorld(hex, GenesisWorld(supply), before).value;
    w2 := Next(env, hex, w1, st).value;
    DuesGrowRun(hex, w1, rest);
    GenesisInStep(hex, supply);
    RunInStep(hex, GenesisWorld(supply), before);
    NextInStep(env, hex, w1, st);
    StepPays(env, hex, w1, st);
  }

  /** What is owed right after a step is paid by the end of the run, if the honest blocks in between have
      room for all that is queued before it; for a reward, for all the stake withdrawals they pay too. */
  lemma {:induction false} OwedIsPaidInTime(hex: string -> Address, supply: nat, before: seq<(Env, Step)>, env: Env,
                                            st: Step, after: seq<(Env, Step)>, pos: nat)
    requires !st.Paying? && GoodRun(hex, supply, before + [(env, st)] + after)
    requires HonestAfter(hex, supply, before, env, st, after)
    ensures var w1 := RunWorld(hex, GenesisWorld(supply), before).value;
            var l, l' := w1.ledger, RunWorld(hex, GenesisWorld(supply), before + [(env, st)] + after).value.ledger;
            && Move(env, w1.books, st).Ok?
            && var b := Move(env, w1.books, st).value;
               && (pos < |b.stakeDue| && pos < |l.paidStake| + RoomOf(after) ==> pos < |l'.paidStake|)
               && (pos < |b.rewardDue| && pos + |l'.paidStake| < |l.paidReward| + |l.paidStake| + RoomOf(after) ==>
                     pos < |l'.paidReward|)
  {
    var w1, w2 := GoodParts(hex, supply, before, env, st, after);
    RunPaysInTime(hex, w2, after, if pos < |w2.books.stakeDue| then pos + 1 else 0,
                  if pos < |w2.books.rewardDue| then pos + 1 else 0);
  }

  ghost predicate PaidAt(paid: seq<EthWithdrawal>, pos: nat, kind: U32, address: Address, amount: nat) {
    && pos < |paid| && paid[pos].index == pos % TWO64
    && paid[pos].validator == kind && paid[pos].address == address && paid[pos].amount == amount
  }

  /** With honest blocks that have room for everything queued ahead of it, a matured entry is paid: to its
      delegator's withdraw address, with its own amount. */
  lemma {:induction false} EntryPaidInTime(hex: string -> Address, supply: nat, before: seq<(Env, Step)>,
                                           env: Env, height: U64, es: seq<Entry>, after: seq<(Env, Step)>, i: nat)
    returns (pos: nat)
    requires GoodRun(hex, supply, before + [(env, Maturing(height, es))] + after) && i < |es|
    requires HonestAfter(hex, supply, before, env, Maturing(height, es), after)
    requires var queued := RunWorld(hex, GenesisWorld(supply), before).value.ledger.pools.stake.contents;
             |queued| + i < RoomOf(after)
    ensures es[i].delegator in env.withdrawAddress
    ensures var steps := before + [(env, Maturing(height, es))] + after;
            PaidAt(RunWorld(hex, GenesisWorld(supply), steps).value.ledger.paidStake, pos, UNSTAKE,
                   hex(env.withdrawAddress[es[i].delegator]), es[i].amount)
  {
    var w1, w2 := GoodParts(hex, supply, before, env, Maturing(height, es), after);
    QueuedIsUnpaid(hex, supply, before);
    UnstakeOwed(env, w1.books, height, es);
    var w;
    pos, w := EntryPaidToItsDelegator(hex, supply, before, env, height, es, after, i);
    OwedIsPaidInTime(hex, supply, before, env, Maturing(height, es), after, pos);
  }
}
