/** How withdrawals travel from the consensus layer's queues into execution payloads: a proposer
    peeks at both queues (client/x/evmengine/keeper/abci.go), every validator compares the
    proposed list with its own peek (proposal_server.go), and finalising the block dequeues
    (msg_server.go).  The queue access is in client/x/evmstaking/keeper/withdrawal_queue.go and
    its twin reward_queue.go. */
module Withdrawals {
  import opened Machine
  import opened Queue

  type Address = nat

  datatype Withdrawal = Withdrawal(
    creationHeight: U64,
    executionAddress: string,
    amount: U64,
    kind: U32,
    validatorAddress: string)

  datatype EthWithdrawal = EthWithdrawal(index: U64, validator: U64, address: Address, amount: U64)

  datatype PipelineError =
    | QueueFailed(e: QueueError)
    | TooFewProposed
    | WrongTotal
    | WrongIndex
    | WrongKind
    | WrongAddress
    | WrongAmount

  /** The execution-layer form of a withdrawal: hex decodes an address string. */
  function Convert(hex: string -> Address, w: Withdrawal, index: U64): EthWithdrawal {
    EthWithdrawal(index, w.kind, hex(w.executionAddress), w.amount)
  }

  /** The withdrawals ws in order, indexed start, start + 1, ... modulo 2^64. */
  function Converted(hex: string -> Address, ws: seq<Withdrawal>, start: nat): seq<EthWithdrawal> {
    seq(|ws|, i requires 0 <= i < |ws| => Convert(hex, ws[i], (start + i) % TWO64))
  }

  function Min(a: nat, b: nat): nat {
    if a <= b then a else b
  }

  /** The first n elements of the queue (or all of them) in execution-layer form. */
  function Head(hex: string -> Address, a: Fifo<Withdrawal>, n: nat): seq<EthWithdrawal> {
    Converted(hex, a.contents[..Min(n, |a.contents|)], a.popped)
  }

  /** The queue without its first n elements. */
  function Tail(a: Fifo<Withdrawal>, n: nat): Fifo<Withdrawal> {
    var m := Min(n, |a.contents|);
    a.(contents := a.contents[m..], popped := a.popped + m, frontSet := a.frontSet || m > 0)
  }

  /** Taking one element more appends it under the next index, counted from the front cursor. */
  lemma HeadGrows(hex: string -> Address, a: Fifo<Withdrawal>, i: U32)
    requires i < |a.contents|
    ensures Converted(hex, a.contents[..i + 1], a.popped) ==
            Converted(hex, a.contents[..i], a.popped) +
            [Convert(hex, a.contents[i], Add64(a.FrontIndex(), i))]
  {
  }

  // ---------------------------------------------------------------------------------------
  // Access to one queue
  // ---------------------------------------------------------------------------------------

  /** What peeking answers on the queue a: nothing on an empty queue, an error while the front
      cursor was never written, nothing once the live keys wrap, otherwise the head. */
  function PeekAnswer(hex: string -> Address, a: Fifo<Withdrawal>, n: nat)
    : (r: Result<seq<EthWithdrawal>, QueueError>)
    ensures r.Ok? ==> |r.value| <= n
  {
    if a.contents == [] then Ok([])
    else if !a.frontSet then Err(NotFound)
    else if a.Unwrapped() then Ok(Head(hex, a, n))
    else Ok([])
  }

  method PeekEligible(q: Queue<Withdrawal>, hex: string -> Address, maxPeek: U32, ghost a: Fifo<Withdrawal>)
    returns (r: Result<seq<EthWithdrawal>, QueueError>)
    requires Represents(q.View(), a)
    ensures r == PeekAnswer(hex, a, maxPeek)
  {
    RearIndexSplit(a);
    var empty := q.IsEmpty();
    if empty {
      return Ok([]);
    }
    var front := q.Front();
    if front.Err? {
      return Err(front.error);
    }
    var ws := [];
    var i := 0;
    while i < maxPeek
      invariant i <= maxPeek
      invariant a.Unwrapped() ==> i <= |a.contents| && ws == Converted(hex, a.contents[..i], a.popped)
      invariant !a.Unwrapped() ==> i == 0 && ws == []
    {
      var w := q.Get(i);
      GetRefines(q.View(), a, i);
      match w {
        case Err(OutOfBounds) => break;
        case Err(e) => return Err(e);
        case Ok(withdrawal) =>
          HeadGrows(hex, a, i);
          ws := ws + [Convert(hex, withdrawal, Add64(front.value, i))];
          i := i + 1;
      }
    }
    r := Ok(ws);
  }

  /** Dequeuing the queue that already lost i elements loses the next one. */
  lemma DequeueTail(s: Store<Withdrawal>, a: Fifo<Withdrawal>, i: nat)
    requires i <= |a.contents|
    requires Represents(s, Tail(a, i))
    ensures i == |a.contents| ==> DequeueStore(s) == (s, Err(EmptyQueue))
    ensures i < |a.contents| ==>
      DequeueStore(s).1 == Ok(a.contents[i]) && Represents(DequeueStore(s).0, Tail(a, i + 1))
  {
    DequeueRefines(s, Tail(a, i));
    RearIndexSplit(Tail(a, i));
    if i < |a.contents| {
      assert FifoStep(Tail(a, i), Op.Dequeue).0 == Tail(a, i + 1);
    }
  }

  method DequeueEligible(q: Queue<Withdrawal>, hex: string -> Address, maxDequeue: U32, ghost a: Fifo<Withdrawal>)
    returns (r: Result<seq<EthWithdrawal>, QueueError>)
    requires Represents(q.View(), a)
    modifies q
    ensures r == if a.frontSet then Ok(Head(hex, a, maxDequeue)) else Err(NotFound)
    ensures Represents(q.View(), if a.frontSet then Tail(a, maxDequeue) else a)
  {
    var front := q.Front();
    if front.Err? {
      return Err(front.error);
    }
    var ws := [];
    var i := 0;
    while i < maxDequeue
      invariant i <= maxDequeue && i <= |a.contents|
      invariant ws == Converted(hex, a.contents[..i], a.popped)
      invariant Represents(q.View(), Tail(a, i))
    {
      DequeueTail(q.View(), a, i);
      var w := q.Dequeue();
      match w {
        case Err(EmptyQueue) => break;
        case Err(e) => return Err(e);
        case Ok(withdrawal) =>
          HeadGrows(hex, a, i);
          ws := ws + [Convert(hex, withdrawal, Add64(front.value, i))];
          i := i + 1;
      }
    }
    r := Ok(ws);
  }

  // ---------------------------------------------------------------------------------------
  // Proposing, checking and finalising one block
  // ---------------------------------------------------------------------------------------

  /** The two withdrawal queues of a node. */
  datatype Pools = Pools(stake: Fifo<Withdrawal>, reward: Fifo<Withdrawal>)

  /** A node's own peek at both queues for a block of at most n withdrawals. */
  function LocalPeek(hex: string -> Address, p: Pools, n: nat): Result<seq<EthWithdrawal>, QueueError> {
    match PeekAnswer(hex, p.stake, n)
    case Err(e) => Err(e)
    case Ok(ws) =>
      match PeekAnswer(hex, p.reward, n - |ws|)
      case Err(e) => Err(e)
      case Ok(rws) => Ok(ws + rws)
  }

  method PrepareWithdrawals(stake: Queue<Withdrawal>, reward: Queue<Withdrawal>, hex: string -> Address,
                            maxWithdrawals: U32, ghost p: Pools)
    returns (r: Result<seq<EthWithdrawal>, QueueError>)
    requires Represents(stake.View(), p.stake) && Represents(reward.View(), p.reward)
    ensures r == LocalPeek(hex, p, maxWithdrawals)
  {
    var ws := PeekEligible(stake, hex, maxWithdrawals, p.stake);
    if ws.Err? {
      return ws;
    }
    var rws := PeekEligible(reward, hex, maxWithdrawals - |ws.value|, p.reward);
    if rws.Err? {
      return rws;
    }
    r := Ok(ws.value + rws.value);
  }

  method CompareOne(expected: EthWithdrawal, actual: EthWithdrawal) returns (r: Result<(), PipelineError>)
    ensures r.Ok? <==> expected == actual
  {
    if expected.index != actual.index {
      return Err(WrongIndex);
    }
    if expected.validator != actual.validator {
      return Err(WrongKind);
    }
    if expected.address != actual.address {
      return Err(WrongAddress);
    }
    if expected.amount != actual.amount {
      return Err(WrongAmount);
    }
    r := Ok(());
  }

  /** Compares expected with the part of actual that starts at pos. */
  method CompareSegment(expected: seq<EthWithdrawal>, actual: seq<EthWithdrawal>, pos: nat)
    returns (r: Result<(), PipelineError>)
    requires pos + |expected| <= |actual|
    ensures r.Ok? <==> actual[pos..pos + |expected|] == expected
  {
    for i := 0 to |expected|
      invariant forall j :: 0 <= j < i ==> actual[pos + j] == expected[j]
    {
      r := CompareOne(expected[i], actual[pos + i]);
      if r.Err? {
        assert actual[pos..pos + |expected|][i] != expected[i];
        return;
      }
    }
    r := Ok(());
  }

  lemma ConcatParts(xs: seq<EthWithdrawal>, ys: seq<EthWithdrawal>, zs: seq<EthWithdrawal>)
    requires |xs| + |ys| == |zs|
    ensures xs + ys == zs <==> zs[0..|xs|] == xs && zs[|xs|..|xs| + |ys|] == ys
  {
    assert zs == zs[0..|xs|] + zs[|xs|..|xs| + |ys|];
    assert (xs + ys)[0..|xs|] == xs && (xs + ys)[|xs|..|xs| + |ys|] == ys;
  }

  /** Once both peeks succeed, the local list is theirs one after the other. */
  lemma {:induction false} PeekInTwo(hex: string -> Address, p: Pools, n: nat, ws: seq<EthWithdrawal>,
                                     rws: Result<seq<EthWithdrawal>, QueueError>)
    requires PeekAnswer(hex, p.stake, n) == Ok(ws) && |ws| <= n && PeekAnswer(hex, p.reward, n - |ws|) == rws
    ensures LocalPeek(hex, p, n) == if rws.Ok? then Ok(ws + rws.value) else Err(rws.error)
  {
  }

  /** A list that is shorter than the stake part is not the local list. */
  lemma {:induction false} TooShort(hex: string -> Address, p: Pools, n: nat, ws: seq<EthWithdrawal>,
                                    actual: seq<EthWithdrawal>)
    requires PeekAnswer(hex, p.stake, n) == Ok(ws) && |actual| < |ws|
    ensures LocalPeek(hex, p, n) != Ok(actual)
  {
    PeekInTwo(hex, p, n, ws, PeekAnswer(hex, p.reward, n - |ws|));
  }

  /** A validator accepts a proposed list exactly when it is the validator's own peek. */
  method CompareWithdrawals(stake: Queue<Withdrawal>, reward: Queue<Withdrawal>, hex: string -> Address,
                            maxWithdrawals: U32, actual: seq<EthWithdrawal>, ghost p: Pools)
    returns (r: Result<(), PipelineError>)
    requires Represents(stake.View(), p.stake) && Represents(reward.View(), p.reward)
    ensures r.Ok? <==> LocalPeek(hex, p, maxWithdrawals) == Ok(actual)
  {
    var ws := PeekEligible(stake, hex, maxWithdrawals, p.stake);
    if ws.Err? {
      return Err(QueueFailed(ws.error));
    }
    if |ws.value| > |actual| {
      TooShort(hex, p, maxWithdrawals, ws.value, actual);
      return Err(TooFewProposed);
    }
    var rws := PeekEligible(reward, hex, maxWithdrawals - |ws.value|, p.reward);
    PeekInTwo(hex, p, maxWithdrawals, ws.value, rws);
    if rws.Err? {
      return Err(QueueFailed(rws.error));
    }
    r := CompareParts(ws.value, rws.value, actual);
  }

  /** The comparison itself: the expected lists one after the other, and nothing more. */
  method CompareParts(expected: seq<EthWithdrawal>, expectedRewards: seq<EthWithdrawal>, actual: seq<EthWithdrawal>)
    returns (r: Result<(), PipelineError>)
    requires |expected| <= |actual|
    ensures r.Ok? <==> actual == expected + expectedRewards
  {
    if |expected| + |expectedRewards| != |actual| {
      return Err(WrongTotal);
    }
    ConcatParts(expected, expectedRewards, actual);
    r := CompareSegment(expected, actual, 0);
    if r.Err? {
      return;
    }
    r := CompareSegment(expectedRewards, actual, |expected|);
  }

  /** The withdrawals a finalised block pays: the head of the stake queue, then as much of the
      reward queue as the block still has room for. */
  function Due(hex: string -> Address, p: Pools, n: nat): seq<EthWithdrawal> {
    Head(hex, p.stake, n) + Head(hex, p.reward, n - Min(n, |p.stake.contents|))
  }

  function AfterPayment(p: Pools, n: nat): Pools {
    Pools(Tail(p.stake, n), Tail(p.reward, n - Min(n, |p.stake.contents|)))
  }

  /** Finalising a payload dequeues what is due and only checks how many withdrawals the payload
      has.  A queue whose front cursor was never written stops it. */
  method FinalizeWithdrawals(stake: Queue<Withdrawal>, reward: Queue<Withdrawal>, hex: string -> Address,
                             maxWithdrawals: U32, proposed: seq<EthWithdrawal>, ghost p: Pools)
    returns (r: Result<seq<EthWithdrawal>, PipelineError>)
    requires stake != reward
    requires Represents(stake.View(), p.stake) && Represents(reward.View(), p.reward)
    modifies stake, reward
    ensures r.Ok? <==> p.stake.frontSet && p.reward.frontSet && |proposed| == |Due(hex, p, maxWithdrawals)|
    ensures r.Ok? ==> r.value == Due(hex, p, maxWithdrawals)
    ensures r.Ok? ==> Represents(stake.View(), AfterPayment(p, maxWithdrawals).stake)
    ensures r.Ok? ==> Represents(reward.View(), AfterPayment(p, maxWithdrawals).reward)
  {
    var ws := DequeueEligible(stake, hex, maxWithdrawals, p.stake);
    if ws.Err? {
      return Err(QueueFailed(ws.error));
    }
    if |ws.value| > |proposed| {
      return Err(TooFewProposed);
    }
    var rws := DequeueEligible(reward, hex, maxWithdrawals - |ws.value|, p.reward);
    if rws.Err? {
      return Err(QueueFailed(rws.error));
    }
    if |ws.value| + |rws.value| != |proposed| {
      return Err(WrongTotal);
    }
    r := Ok(ws.value + rws.value);
  }

  /** On one queue whose front cursor was written, peeking foretells dequeuing exactly while the
      live keys are unwrapped (or nothing is asked for). */
  lemma PeekForetellsDequeue(hex: string -> Address, a: Fifo<Withdrawal>, n: nat)
    requires a.frontSet
    ensures PeekAnswer(hex, a, n) == Ok(Head(hex, a, n)) <==> a.Unwrapped() || n == 0
  {
    if a.contents == [] {
      assert a.Unwrapped();
      assert Head(hex, a, n) == [];
    } else if !a.Unwrapped() {
      assert n == 0 <==> Head(hex, a, n) == [];
    }
  }

  /** A list that validators accept is the list that finalising the block dequeues, so the length
      check of the finaliser is enough and never fires on an accepted payload. */
  lemma AcceptedIsPaid(hex: string -> Address, p: Pools, n: nat, proposed: seq<EthWithdrawal>)
    requires p.stake.frontSet && p.reward.frontSet
    requires p.stake.Unwrapped() && p.reward.Unwrapped()
    ensures LocalPeek(hex, p, n) == Ok(proposed) <==> proposed == Due(hex, p, n)
    ensures |Due(hex, p, n)| <= n
    ensures |Due(hex, p, n)| > |Head(hex, p.stake, n)| ==> AfterPayment(p, n).stake.contents == []
  {
    PeekForetellsDequeue(hex, p.stake, n);
    PeekForetellsDequeue(hex, p.reward, n - |Head(hex, p.stake, n)|);
  }

  /** No withdrawal of one queue has a kind of the other; the keepers hand rewards to one queue and
      everything else to the other. */
  ghost predicate KindsApart(p: Pools) {
    forall w, r :: w in p.stake.contents && r in p.reward.contents ==> w.kind != r.kind
  }

  /** A peek that skips a wrapped stake queue does not give what is due. */
  lemma {:induction false} SkippingIsNoticed(hex: string -> Address, p: Pools, n: nat, rws: seq<EthWithdrawal>)
    requires KindsApart(p) && !p.stake.Unwrapped() && n > 0
    requires rws == [] || rws == Head(hex, p.reward, n)
    ensures rws != Due(hex, p, n)
  {
    assert p.stake.contents[0] in p.stake.contents;
    assert Due(hex, p, n)[0] == Convert(hex, p.stake.contents[0], p.stake.popped % TWO64);
    if rws != [] {
      assert rws[0] == Convert(hex, p.reward.contents[0], p.reward.popped % TWO64);
      assert p.reward.contents[0] in p.reward.contents;
    }
  }

  /** The exact condition for one block: what validators accept is what finalising dequeues if and only
      if the keys of each queue that the block draws from are unwrapped. */
  lemma {:induction false} AcceptedIsPaidExactlyWhen(hex: string -> Address, p: Pools, n: nat)
    requires p.stake.frontSet && p.reward.frontSet && KindsApart(p)
    ensures LocalPeek(hex, p, n) == Ok(Due(hex, p, n)) <==>
            && (p.stake.Unwrapped() || n == 0)
            && (p.reward.Unwrapped() || n <= |p.stake.contents|)
  {
    var k := n - Min(n, |p.stake.contents|);
    PeekForetellsDequeue(hex, p.stake, n);
    PeekForetellsDequeue(hex, p.reward, k);
    if p.stake.Unwrapped() || n == 0 {
      SamePrefix(Head(hex, p.stake, n), PeekAnswer(hex, p.reward, k).value, Head(hex, p.reward, k));
    } else {
      var rws := PeekAnswer(hex, p.reward, n).value;
      assert LocalPeek(hex, p, n) == Ok([] + rws);
      assert [] + rws == rws;
      assert p.reward.contents == [] ==> Head(hex, p.reward, n) == [];
      SkippingIsNoticed(hex, p, n, rws);
    }
  }

  lemma {:induction false} SamePrefix(xs: seq<EthWithdrawal>, ys: seq<EthWithdrawal>, zs: seq<EthWithdrawal>)
    ensures xs + ys == xs + zs <==> ys == zs
  {
    assert (xs + ys)[|xs|..] == ys && (xs + zs)[|xs|..] == zs;
  }

  function Waiting(p: Pools): nat {
    |p.stake.contents| + |p.reward.contents|
  }

  /** A block is as full as it can be: it pays as many withdrawals as its maximum allows and the queues
      hold, and they hold that many fewer afterwards. */
  lemma {:induction false} BlocksAreFull(hex: string -> Address, p: Pools, n: nat)
    ensures |Due(hex, p, n)| == Min(n, Waiting(p))
    ensures Waiting(AfterPayment(p, n)) == Waiting(p) - Min(n, Waiting(p))
  {
  }

  // ---------------------------------------------------------------------------------------
  // Whole runs of the chain
  // ---------------------------------------------------------------------------------------

  datatype Event =
    | StakeDue(w: Withdrawal)
    | RewardDue(w: Withdrawal)
    | Block(max: U32, proposed: seq<EthWithdrawal>)

  /** A node's queues together with everything ever owed to, and ever paid by, each of them. */
  datatype Ledger = Ledger(
    pools: Pools,
    owedStake: seq<Withdrawal>,
    owedReward: seq<Withdrawal>,
    paidStake: seq<EthWithdrawal>,
    paidReward: seq<EthWithdrawal>)

  function Genesis(): Ledger {
    Ledger(Pools(Fifo([], 0, true, true), Fifo([], 0, true, true)), [], [], [], [])
  }

  function Push(a: Fifo<Withdrawal>, w: Withdrawal): Fifo<Withdrawal> {
    FifoStep(a, Op.Enqueue(w)).0
  }

  /** A proposed block is finalised when it passes the comparison and the finaliser's length
      check; the payload's list is then what the execution layer pays. */
  function Advance(hex: string -> Address, l: Ledger, e: Event): Ledger {
    match e
    case StakeDue(w) => l.(pools := l.pools.(stake := Push(l.pools.stake, w)), owedStake := l.owedStake + [w])
    case RewardDue(w) => l.(pools := l.pools.(reward := Push(l.pools.reward, w)), owedReward := l.owedReward + [w])
    case Block(n, proposed) =>
      if LocalPeek(hex, l.pools, n) == Ok(proposed) && |proposed| == |Due(hex, l.pools, n)| then
        var k := |Head(hex, l.pools.stake, n)|;
        l.(pools := AfterPayment(l.pools, n),
           paidStake := l.paidStake + proposed[..k],
           paidReward := l.paidReward + proposed[k..])
      else l
  }

  function History(hex: string -> Address, l: Ledger, es: seq<Event>): Ledger
    decreases |es|
  {
    if es == [] then l else History(hex, Advance(hex, l, es[0]), es[1..])
  }

  /** One queue has paid the first withdrawals it owed, in order, indexed 0, 1, 2, ..., and
      still holds the others. */
  ghost predicate Settled(hex: string -> Address, a: Fifo<Withdrawal>, owed: seq<Withdrawal>,
                          paid: seq<EthWithdrawal>) {
    && a.frontSet
    && a.popped <= |owed|
    && a.contents == owed[a.popped..]
    && paid == Converted(hex, owed[..a.popped], 0)
  }

  lemma PayHead(hex: string -> Address, a: Fifo<Withdrawal>, owed: seq<Withdrawal>, paid: seq<EthWithdrawal>, n: nat)
    requires Settled(hex, a, owed, paid)
    ensures Settled(hex, Tail(a, n), owed, paid + Head(hex, a, n))
  {
    var m := Min(n, |a.contents|);
    assert owed[..a.popped] + a.contents[..m] == owed[..a.popped + m];
    assert Converted(hex, owed[..a.popped + m], 0) ==
           Converted(hex, owed[..a.popped], 0) + Converted(hex, a.contents[..m], a.popped);
  }

  ghost predicate LedgerSettled(hex: string -> Address, l: Ledger) {
    && Settled(hex, l.pools.stake, l.owedStake, l.paidStake)
    && Settled(hex, l.pools.reward, l.owedReward, l.paidReward)
  }

  lemma PushSettled(hex: string -> Address, a: Fifo<Withdrawal>, owed: seq<Withdrawal>, paid: seq<EthWithdrawal>,
                    w: Withdrawal)
    requires Settled(hex, a, owed, paid)
    ensures Settled(hex, Push(a, w), owed + [w], paid)
  {
    assert (owed + [w])[a.popped..] == a.contents + [w];
    assert (owed + [w])[..a.popped] == owed[..a.popped];
  }

  /** An accepted list falls into what the two queues pay. */
  lemma {:induction false} AcceptedParts(hex: string -> Address, p: Pools, n: nat, proposed: seq<EthWithdrawal>)
    requires p.stake.frontSet && p.reward.frontSet
    requires p.stake.Unwrapped() && p.reward.Unwrapped()
    requires LocalPeek(hex, p, n) == Ok(proposed)
    ensures var k := |Head(hex, p.stake, n)|;
            && k == Min(n, |p.stake.contents|) <= |proposed|
            && proposed[..k] == Head(hex, p.stake, n)
            && proposed[k..] == Head(hex, p.reward, n - k)
  {
    AcceptedIsPaid(hex, p, n, proposed);
  }

  lemma {:induction false} BlockSettled(hex: string -> Address, l: Ledger, n: U32, proposed: seq<EthWithdrawal>)
    requires LedgerSettled(hex, l)
    requires |l.owedStake| < TWO64 && |l.owedReward| < TWO64
    ensures LedgerSettled(hex, Advance(hex, l, Block(n, proposed)))
  {
    if LocalPeek(hex, l.pools, n) == Ok(proposed) && |proposed| == |Due(hex, l.pools, n)| {
      var k := Min(n, |l.pools.stake.contents|);
      AcceptedParts(hex, l.pools, n, proposed);
      PayHead(hex, l.pools.stake, l.owedStake, l.paidStake, n);
      PayHead(hex, l.pools.reward, l.owedReward, l.paidReward, n - k);
    }
  }

  lemma AdvanceSettled(hex: string -> Address, l: Ledger, e: Event)
    requires LedgerSettled(hex, l)
    requires |l.owedStake| < TWO64 && |l.owedReward| < TWO64
    ensures LedgerSettled(hex, Advance(hex, l, e))
  {
    match e
    case StakeDue(w) => PushSettled(hex, l.pools.stake, l.owedStake, l.paidStake, w);
    case RewardDue(w) => PushSettled(hex, l.pools.reward, l.owedReward, l.paidReward, w);
    case Block(n, proposed) => BlockSettled(hex, l, n, proposed);
  }

  lemma OwedGrows(hex: string -> Address, l: Ledger, es: seq<Event>)
    ensures |l.owedStake| <= |History(hex, l, es).owedStake|
    ensures |l.owedReward| <= |History(hex, l, es).owedReward|
    decreases |es|
  {
    if es != [] {
      OwedGrows(hex, Advance(hex, l, es[0]), es[1..]);
    }
  }

  lemma {:induction false} HistorySettled(hex: string -> Address, l: Ledger, es: seq<Event>)
    requires LedgerSettled(hex, l)
    requires |History(hex, l, es).owedStake| < TWO64 && |History(hex, l, es).owedReward| < TWO64
    ensures LedgerSettled(hex, History(hex, l, es))
    decreases |es|
  {
    if es != [] {
      OwedGrows(hex, l, es);
      AdvanceSettled(hex, l, es[0]);
      HistorySettled(hex, Advance(hex, l, es[0]), es[1..]);
    }
  }

  function TotalOwed(ws: seq<Withdrawal>): nat {
    if ws == [] then 0 else TotalOwed(ws[..|ws| - 1]) + ws[|ws| - 1].amount
  }

  function TotalPaid(ws: seq<EthWithdrawal>): nat {
    if ws == [] then 0 else TotalPaid(ws[..|ws| - 1]) + ws[|ws| - 1].amount
  }

  lemma {:induction false} TotalOwedSplit(xs: seq<Withdrawal>, ys: seq<Withdrawal>)
    ensures TotalOwed(xs + ys) == TotalOwed(xs) + TotalOwed(ys)
    decreases |ys|
  {
    if ys == [] {
      assert xs + ys == xs;
    } else {
      TotalOwedSplit(xs, ys[..|ys| - 1]);
      assert (xs + ys)[..|xs + ys| - 1] == xs + ys[..|ys| - 1];
    }
  }

  lemma {:induction false} TotalPaidIsTotalOwed(hex: string -> Address, ws: seq<Withdrawal>)
    ensures TotalPaid(Converted(hex, ws, 0)) == TotalOwed(ws)
    decreases |ws|
  {
    if ws != [] {
      var init := ws[..|ws| - 1];
      TotalPaidIsTotalOwed(hex, init);
      assert Converted(hex, ws, 0)[..|ws| - 1] == Converted(hex, init, 0);
    }
  }

  /** One queue of a settled ledger: the i-th withdrawal ever owed is the i-th ever paid, under
      index i, with its own address and amount; the others are still queued; and what was owed is
      what was paid plus what is queued. */
  ghost predicate ExactlyOnce(hex: string -> Address, a: Fifo<Withdrawal>, owed: seq<Withdrawal>,
                              paid: seq<EthWithdrawal>) {
    && |paid| <= |owed|
    && (forall i :: 0 <= i < |paid| ==>
        paid[i] == EthWithdrawal(i % TWO64, owed[i].kind, hex(owed[i].executionAddress), owed[i].amount))
    && a.contents == owed[|paid|..]
    && TotalOwed(owed) == TotalPaid(paid) + TotalOwed(a.contents)
  }

  lemma SettledIsExactlyOnce(hex: string -> Address, a: Fifo<Withdrawal>, owed: seq<Withdrawal>,
                             paid: seq<EthWithdrawal>)
    requires Settled(hex, a, owed, paid)
    ensures ExactlyOnce(hex, a, owed, paid)
  {
    TotalOwedSplit(owed[..a.popped], a.contents);
    assert owed[..a.popped] + a.contents == owed;
    TotalPaidIsTotalOwed(hex, owed[..a.popped]);
  }

  /** Over every history of a chain from genesis, whatever blocks are proposed: both queues pay
      every withdrawal at most once, in the order it was owed and under consecutive indices, and
      lose none. */
  lemma EveryWithdrawalPaidOnce(hex: string -> Address, es: seq<Event>)
    requires |History(hex, Genesis(), es).owedStake| < TWO64
    requires |History(hex, Genesis(), es).owedReward| < TWO64
    ensures var l := History(hex, Genesis(), es);
            && ExactlyOnce(hex, l.pools.stake, l.owedStake, l.paidStake)
            && ExactlyOnce(hex, l.pools.reward, l.owedReward, l.paidReward)
  {
    HistorySettled(hex, Genesis(), es);
    var l := History(hex, Genesis(), es);
    SettledIsExactlyOnce(hex, l.pools.stake, l.owedStake, l.paidStake);
    SettledIsExactlyOnce(hex, l.pools.reward, l.owedReward, l.paidReward);
  }

  /** The room in the blocks of a history. */
  function Room(es: seq<Event>): nat
    decreases |es|
  {
    if es == [] then 0 else (if es[0].Block? then es[0].max else 0) + Room(es[1..])
  }

  /** Every block proposes what the node itself peeks. */
  ghost predicate Honest(hex: string -> Address, l: Ledger, es: seq<Event>)
    decreases |es|
  {
    es == [] || (ProposesPeek(hex, l, es[0]) && Honest(hex, Advance(hex, l, es[0]), es[1..]))
  }

  ghost predicate ProposesPeek(hex: string -> Address, l: Ledger, e: Event) {
    e.Block? ==> LocalPeek(hex, l.pools, e.max) == Ok(e.proposed)
  }

  /** What one event does to the number of withdrawals paid: a block that proposes the peek pays as many
      as it has room for, stake withdrawals first; every other event pays nothing. */
  lemma {:induction false} BlockPays(hex: string -> Address, l: Ledger, e: Event)
    requires LedgerSettled(hex, l) && |l.owedStake| < TWO64 && |l.owedReward| < TWO64
    ensures var l' := Advance(hex, l, e);
            var waitStake, waitReward := |l.owedStake| - |l.paidStake|, |l.owedReward| - |l.paidReward|;
            && 0 <= waitStake && 0 <= waitReward
            && (e.Block? && ProposesPeek(hex, l, e) ==>
                  && |l'.paidStake| == |l.paidStake| + Min(e.max, waitStake)
                  && |l'.paidReward| == |l.paidReward| + Min(e.max - Min(e.max, waitStake), waitReward))
            && (e.Block? && !ProposesPeek(hex, l, e) ==> l' == l)
            && (!e.Block? ==> l'.paidStake == l.paidStake && l'.paidReward == l.paidReward)
            && |l.owedStake| <= |l'.owedStake| && |l.owedReward| <= |l'.owedReward|
  {
    if e.Block? && ProposesPeek(hex, l, e) {
      AcceptedIsPaid(hex, l.pools, e.max, e.proposed);
      AcceptedParts(hex, l.pools, e.max, e.proposed);
    }
  }

  /** No withdrawal waits while there is room: over every history of honest blocks, either all the stake
      withdrawals that were owed at its start are paid, or every block was filled with stake withdrawals;
      and either all the rewards owed at its start are paid, or every block was full. */
  lemma {:induction false} PaidInTime(hex: string -> Address, l: Ledger, es: seq<Event>, stakes: nat, rewards: nat)
    requires LedgerSettled(hex, l) && Honest(hex, l, es)
    requires |History(hex, l, es).owedStake| < TWO64 && |History(hex, l, es).owedReward| < TWO64
    requires stakes <= |l.owedStake| && rewards <= |l.owedReward|
    ensures var l' := History(hex, l, es);
            && |l.paidStake| <= |l'.paidStake| && |l.paidReward| <= |l'.paidReward|
            && (|l'.paidStake| >= stakes || |l'.paidStake| == |l.paidStake| + Room(es))
            && (|l'.paidReward| >= rewards ||
                |l'.paidStake| + |l'.paidReward| == |l.paidStake| + |l.paidReward| + Room(es))
    decreases |es|
  {
    if es != [] {
      OwedGrows(hex, l, es);
      AdvanceSettled(hex, l, es[0]);
      BlockPays(hex, l, es[0]);
      PaidInTime(hex, Advance(hex, l, es[0]), es[1..], stakes, rewards);
    }
  }

  /** The bound is needed: once the keys of the stake queue wrap, peeking skips it, and a block that
      passes every check pays a reward while the stake withdrawal is dequeued instead. */
  lemma {:induction false} WrappedQueuePaysWrong(hex: string -> Address, w: Withdrawal, r: Withdrawal, l: Ledger)
    requires l.pools == Pools(Fifo([w], TWO64 - 1, true, true), Fifo([r], 0, true, true))
    ensures var proposed := [Convert(hex, r, 0)];
            var l' := Advance(hex, l, Block(1, proposed));
            && LocalPeek(hex, l.pools, 1) == Ok(proposed)
            && Due(hex, l.pools, 1) == [Convert(hex, w, TWO64 - 1)]
            && l'.paidStake == l.paidStake + proposed && l'.paidReward == l.paidReward
            && l'.pools.stake.contents == [] && l'.pools.reward.contents == [r]
  {
    assert [w][..1] == [w] && [r][..1] == [r] && [r][..0] == [];
    assert Head(hex, l.pools.stake, 1) == [Convert(hex, w, TWO64 - 1)];
    assert Head(hex, l.pools.reward, 1) == [Convert(hex, r, 0)];
    assert Head(hex, l.pools.reward, 0) == [];
    var proposed := [Convert(hex, r, 0)];
    assert PeekAnswer(hex, l.pools.stake, 1) == Ok([]);
    assert PeekAnswer(hex, l.pools.reward, 1 - 0) == Ok(proposed) && [] + proposed == proposed;
    assert Due(hex, l.pools, 1) == [Convert(hex, w, TWO64 - 1)];
    assert proposed[..1] == proposed && proposed[1..] == [];
  }

  lemma {:induction false} HistoryOneMore(hex: string -> Address, l: Ledger, es: seq<Event>, e: Event)
    ensures History(hex, l, es + [e]) == Advance(hex, History(hex, l, es), e)
    decreases |es|
  {
    if es == [] {
      assert es + [e] == [e] && [e][1..] == [];
    } else {
      assert (es + [e])[1..] == es[1..] + [e];
      HistoryOneMore(hex, Advance(hex, l, es[0]), es[1..], e);
    }
  }

  /** The stake queue has paid n withdrawals and holds none; the reward queue was never used. */
  ghost predicate PaidSoFar(l: Ledger, n: nat) {
    l.pools == Pools(Fifo([], n, true, true), Fifo([], 0, true, true))
  }

  lemma {:induction false} PayOneMore(hex: string -> Address, w: Withdrawal, l: Ledger, n: nat)
    requires PaidSoFar(l, n) && n + 1 < TWO64
    ensures var l1 := Advance(hex, l, StakeDue(w));
            PaidSoFar(Advance(hex, l1, Block(1, [Convert(hex, w, n)])), n + 1)
  {
    var l1 := Advance(hex, l, StakeDue(w));
    assert [] + [w] == [w] && [w][..1] == [w] && [w][1..] == [];
    assert l1.pools.stake == Fifo([w], n, true, true);
    assert Head(hex, l1.pools.stake, 1) == [Convert(hex, w, n)];
    assert Head(hex, l1.pools.reward, 0) == [];
    assert PeekAnswer(hex, l1.pools.stake, 1) == Ok([Convert(hex, w, n)]);
    assert LocalPeek(hex, l1.pools, 1) == Ok([Convert(hex, w, n)] + []);
    assert Due(hex, l1.pools, 1) == [Convert(hex, w, n)];
  }

  lemma {:induction false} PayMany(hex: string -> Address, w: Withdrawal, n: nat) returns (es: seq<Event>)
    requires n < TWO64
    ensures PaidSoFar(History(hex, Genesis(), es), n)
  {
    if n == 0 {
      es := [];
    } else {
      var before := PayMany(hex, w, n - 1);
      var block := Block(1, [Convert(hex, w, n - 1)]);
      PayOneMore(hex, w, History(hex, Genesis(), before), n - 1);
      HistoryOneMore(hex, Genesis(), before, StakeDue(w));
      HistoryOneMore(hex, Genesis(), before + [StakeDue(w)], block);
      es := before + [StakeDue(w)] + [block];
    }
  }

  /** A history from genesis gets there: after 2^64 - 1 paid withdrawals, one more of each queue. */
  lemma {:induction false} WrappedQueueIsReached(hex: string -> Address, w: Withdrawal, r: Withdrawal)
    returns (es: seq<Event>)
    ensures History(hex, Genesis(), es).pools == Pools(Fifo([w], TWO64 - 1, true, true), Fifo([r], 0, true, true))
  {
    var before := PayMany(hex, w, TWO64 - 1);
    HistoryOneMore(hex, Genesis(), before, StakeDue(w));
    HistoryOneMore(hex, Genesis(), before + [StakeDue(w)], RewardDue(r));
    es := before + [StakeDue(w)] + [RewardDue(r)];
    assert [] + [w] == [w] && [] + [r] == [r];
  }
}
