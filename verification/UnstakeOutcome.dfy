/** When processing matured unbonding entries succeeds (client/x/evmstaking/keeper/withdraw.go,
    ProcessUnstakeWithdrawals): an error there stops the block, and with it the chain. */
module UnstakeOutcome {
  import opened Machine
  import opened Sums
  import opened TokenFlow

  // ---------------------------------------------------------------------------------------
  // The first pass
  // ---------------------------------------------------------------------------------------

  /** What the first n entries ask of an account. */
  function Asked(es: seq<Entry>, n: nat, a: Account): nat
    requires n <= |es|
  {
    if n == 0 then 0 else Asked(es, n - 1, a) + (if es[n - 1].delegator == a then es[n - 1].amount else 0)
  }

  ghost predicate EntryPayable(env: Env, b: Books, es: seq<Entry>, i: nat)
    requires i < |es|
  {
    && es[i].delegator in env.withdrawAddress
    && es[i].amount < TWO64
    && Asked(es, i + 1, es[i].delegator) <= Value(b.accounts, es[i].delegator)
  }

  /** Every delegator has a withdraw address and what its entries ask for, and every amount fits. */
  ghost predicate Payable(env: Env, b: Books, es: seq<Entry>, n: nat)
    requires n <= |es|
  {
    forall i :: 0 <= i < n ==> EntryPayable(env, b, es, i)
  }

  ghost predicate LessAsked(b: Books, b': Books, es: seq<Entry>, n: nat)
    requires n <= |es|
  {
    b'.held == b.held && forall a :: Value(b'.accounts, a) == Value(b.accounts, a) - Asked(es, n, a)
  }

  /** The first pass succeeds exactly when every entry is payable; it then takes exactly what is asked. */
  lemma {:induction false} PaidExactlyWhen(env: Env, b: Books, height: U64, es: seq<Entry>, n: nat)
    requires n <= |es|
    ensures PayEntries(env, b, height, es, n).Ok? <==> Payable(env, b, es, n)
    ensures PayEntries(env, b, height, es, n).Ok? ==> LessAsked(b, PayEntries(env, b, height, es, n).value, es, n)
  {
    if n > 0 {
      PaidExactlyWhen(env, b, height, es, n - 1);
      assert Payable(env, b, es, n) <==> Payable(env, b, es, n - 1) && EntryPayable(env, b, es, n - 1);
      if PayEntries(env, b, height, es, n - 1).Ok? {
        OnePaid(env, b, PayEntries(env, b, height, es, n - 1).value, height, es, n);
      }
    }
  }

  lemma {:induction false} OnePaid(env: Env, b: Books, b1: Books, height: U64, es: seq<Entry>, n: nat)
    requires 0 < n <= |es| && LessAsked(b, b1, es, n - 1)
    ensures PayEntry(env, b1, height, es[n - 1]).Ok? <==> EntryPayable(env, b, es, n - 1)
    ensures PayEntry(env, b1, height, es[n - 1]).Ok? ==> LessAsked(b, PayEntry(env, b1, height, es[n - 1]).value, es, n)
  {
  }

  // ---------------------------------------------------------------------------------------
  // The second pass
  // ---------------------------------------------------------------------------------------

  /** The residue of the entry is taken: always since v1.2.1, before only after a total unstake. */
  predicate Swept(env: Env, e: Entry) {
    !env.delegated(e.delegator, e.validator) || env.v121 == Some(true)
  }

  function CommissionOf(env: Env, e: Entry): nat {
    if !env.delegated(e.delegator, e.validator) && e.delegator == e.validator then e.commission else 0
  }

  function Commissions(env: Env, es: seq<Entry>, n: nat): nat
    requires n <= |es|
  {
    if n == 0 then 0 else Commissions(env, es, n - 1) + CommissionOf(env, es[n - 1])
  }

  /** One of the first n entries empties the account. */
  predicate Emptied(env: Env, es: seq<Entry>, n: nat, a: Account)
    requires n <= |es|
  {
    n > 0 && (Emptied(env, es, n - 1, a) || (es[n - 1].delegator == a && Swept(env, es[n - 1])))
  }

  /** What the i-th entry finds in its account, given what accounts have before the pass. */
  function Residue(env: Env, have: Account -> int, es: seq<Entry>, i: nat): int
    requires i < |es|
  {
    (if Emptied(env, es, i, es[i].delegator) then 0 else have(es[i].delegator)) + CommissionOf(env, es[i])
  }

  ghost predicate EntrySweepable(env: Env, held: nat, have: Account -> int, es: seq<Entry>, i: nat)
    requires i < |es|
  {
    && env.v121.Some?
    && Commissions(env, es, i + 1) <= held
    && (Swept(env, es[i]) ==>
          Residue(env, have, es, i) < TWO64 && (Residue(env, have, es, i) == 0 || es[i].delegator in env.rewardAddress))
  }

  /** The chain is known, the distribution module holds the commissions, and every residue fits and has an
      address to go to. */
  ghost predicate Sweepable(env: Env, held: nat, have: Account -> int, es: seq<Entry>, n: nat)
    requires n <= |es|
  {
    forall i :: 0 <= i < n ==> EntrySweepable(env, held, have, es, i)
  }

  ghost predicate SweptSoFar(env: Env, b: Books, b': Books, es: seq<Entry>, n: nat)
    requires n <= |es|
  {
    && b'.held == b.held - Commissions(env, es, n)
    && forall a :: Value(b'.accounts, a) == if Emptied(env, es, n, a) then 0 else Value(b.accounts, a)
  }

  /** The second pass succeeds exactly when every entry is sweepable. */
  lemma {:induction false} SweptExactlyWhen(env: Env, b: Books, height: U64, es: seq<Entry>, n: nat,
                                            have: Account -> int)
    requires n <= |es| && forall a :: have(a) == Value(b.accounts, a)
    ensures SweepEntries(env, b, height, es, n).Ok? <==> Sweepable(env, b.held, have, es, n)
    ensures SweepEntries(env, b, height, es, n).Ok? ==>
        SweptSoFar(env, b, SweepEntries(env, b, height, es, n).value, es, n)
  {
    if n > 0 {
      SweptExactlyWhen(env, b, height, es, n - 1, have);
      assert Sweepable(env, b.held, have, es, n) <==>
             Sweepable(env, b.held, have, es, n - 1) && EntrySweepable(env, b.held, have, es, n - 1);
      if SweepEntries(env, b, height, es, n - 1).Ok? {
        OneSwept(env, b, SweepEntries(env, b, height, es, n - 1).value, height, es, n, have);
      }
    }
  }

  lemma {:induction false} OneSwept(env: Env, b: Books, b1: Books, height: U64, es: seq<Entry>, n: nat,
                                    have: Account -> int)
    requires 0 < n <= |es| && SweptSoFar(env, b, b1, es, n - 1)
    requires forall a :: have(a) == Value(b.accounts, a)
    ensures SweepEntry(env, b1, height, es[n - 1]).Ok? <==> EntrySweepable(env, b.held, have, es, n - 1)
    ensures SweepEntry(env, b1, height, es[n - 1]).Ok? ==>
              SweptSoFar(env, b, SweepEntry(env, b1, height, es[n - 1]).value, es, n)
  {
  }

  // ---------------------------------------------------------------------------------------
  // Both passes
  // ---------------------------------------------------------------------------------------

  /** What an account has left once its entries are paid. */
  function Left(b: Books, es: seq<Entry>, a: Account): int {
    Value(b.accounts, a) - Asked(es, |es|, a)
  }

  function LeftOver(b: Books, es: seq<Entry>): Account -> int {
    (a: Account) => Left(b, es, a)
  }

  /** Processing matured entries succeeds if and only if, before the call, every delegator has a withdraw
      address and what its entries ask for, every amount fits, and what is left of each account, with the
      commission due to it, fits and has a reward address to go to. */
  lemma {:induction false} UnstakeSucceedsExactlyWhen(env: Env, b: Books, height: U64, es: seq<Entry>)
    ensures Unstake(env, b, height, es).Ok? <==>
            Payable(env, b, es, |es|) && Sweepable(env, b.held, LeftOver(b, es), es, |es|)
  {
    PaidExactlyWhen(env, b, height, es, |es|);
    if PayEntries(env, b, height, es, |es|).Ok? {
      var b1 := PayEntries(env, b, height, es, |es|).value;
      SweptExactlyWhen(env, b1, height, es, |es|, LeftOver(b, es));
    }
  }
}
