# A Dafny model of the Story consensus client

Story runs a Cosmos SDK consensus layer next to an Ethereum execution layer. This project models
the parts of the client (Go) where state is carried from call to call or from block to block, and
proves what holds over whole runs of them.

* **Withdrawals.** Stake and rewards leave the consensus layer through two persistent queues
  (`Queue.dfy`). A proposer peeks at them, every validator compares, and finalising a block dequeues
  (`Withdrawals.dfy`). What feeds the queues is a burn of coins (`TokenFlow.dfy`, `UnstakeOutcome.dfy`,
  `Owed.dfy`) and a circular sweep over all delegations (`RewardSweep.dfy`, `RewardReach.dfy`). The main
  results are `EveryWithdrawalPaidOnce`, `PaidInTime`, `EntryPaidToItsDelegator` and `EntryPaidInTime` (in every
  run, what matures is owed to its delegator's own address, is paid there or still queued, and is paid as soon
  as the blocks have room), `PegHolds` (everything ever minted is in the
  supply, queued, paid or slashed, over every run), `UnstakeSucceedsExactlyWhen`, `TwoRoundsOfBoundsPayAll` and
  `RunReachesExactlyWhen`.
* **The engine mock** (`EngineMock.dfy`): heads form one hash-linked chain in every run, and building,
  getting and committing a payload works under every order of map iteration exactly when every stored
  payload converts to a block. One assignment of addresses to block hashes explains every answer to a log query.
* **The query decoder** (`QueryMap.dfy`, `QueryOrder.dfy`): it ends on every query, decodes faithfully
  exactly under one condition on the keys, and is independent of Go's map order exactly under another.
* **Proposal acceptance** (`Proposal.dfy`), **commenting out type definitions** (`CommentTypes.dfy`,
  `CommentInverse.dfy`), **upgrades** (`Upgrades.dfy`), **error codes** (`ErrorCodes.dfy`), **paginated totals**
  (`Pagination.dfy`) and **backoff** (`Backoff.dfy`).

`Machine.dfy`, `Strings.dfy` and `Sums.dfy` hold what these share: 64-bit arithmetic, the string functions
of Go's library, and sums over maps.

State that the source updates in place is a class whose methods are proved equal to functions of the
old state; the theorems about runs are lemmas about those functions. Go's order of map iteration, random
errors, fuzzed fields, hashes and the verdicts of modules outside this repository are parameters.

Where the code and a reader's expectation differ, the model follows the code, and a lemma says exactly
when the expectation holds:

* the int64 quorum test means "more than two thirds" exactly for totals below 2^62 (`QuorumTestExact`);
* a payload built by a forkchoice call that also moves the head is numbered from the old head and never
  becomes the head, whatever calls follow (`MovingBuildNeverCommits`);
* once some key starts with a dot, the place of the key ".s" holds the value of the key "s", so decoding is
  faithful only if the two agree (`DottedKeyReadsBareKey`, `DecodesExactlyWhen`);
* the decoder gives the same result in every order of iteration exactly when keys clash only at paths that
  no call looks at; without leading dots, exactly when no keys clash (`OrderIrrelevantExactlyWhen`,
  `OrdinaryKeysOrderIrrelevant`);
* an announced upgrade can be handed over only if it was announced for a later block; one announced for the
  current block passes the guard and then stops the chain at the next block, because the upgrade module
  refuses a plan below the current height (`HandedOverExactlyWhen`, `HandedOverOrStopped`);
* `Get` refuses part of a queue whose live keys run past 2^64 - 1, and `Peek` fails until the front cursor
  has been written (`GetSucceedsExactlyBelowLength`, `PeekForetellsDequeue`);
* a scanner that trusts every marker line undoes commenting exactly when no line outside a definition is
  the marker (`TextComesBackExactlyWhen`); one that looks ahead finds a text for every commented form, the
  original exactly when it has no false marker (`TextRestoredExactlyWhen`);
* while validators and delegations come and go, the reward sweep has processed a delegation exactly when some
  block had it in reach of its cursor and bound (`RunReachesExactlyWhen`); it does so in time as long as no
  change of the set pushes the delegation back (`ReachedInTime`), and a run in which every change does may
  pass it over for ever (`JoinsAndLeavesStarve`, `StarvingIsPushedBack`);
* what validators accept is what finalising a block dequeues exactly while the keys of the queues the block
  draws from are unwrapped (`AcceptedIsPaidExactlyWhen`);
* delays before jitter grow from the first one on exactly when the base delay is at most the maximum
  (`MonotoneExactlyWhen`).

## Model

| member | source | states |
|---|---|---|
| `Queue.Queue.Initialize` | client/collections/queue.go:42-54 | resets both cursors and leaves the elements where they are |
| `Queue.Queue.Enqueue` | client/collections/queue.go:56-73 | stores at the rear cursor, which moves on modulo 2^64 |
| `Queue.Queue.Dequeue` | client/collections/queue.go:75-97 | empty, missing element, or the front element, removed, with the front cursor moved on |
| `Queue.Queue.Get` | client/collections/queue.go:99-113 | the element at front + index modulo 2^64, out of bounds from the rear cursor on |
| `Queue.Queue.Peek` | client/collections/queue.go:126-142 | the front element; fails while the front cursor was never written |
| `Queue.Queue.Iterate` | client/collections/queue.go:162-172 | the elements from front to rear, or an invalid range when the cursors are wrapped |
| `Queue.DequeueRefines` | client/collections/queue.go:75-97 | on a store that stands for a sequence, Dequeue takes its first element and the store then stands for the rest |
| `Queue.IterateRefines` | client/collections/queue.go:162-172 | Iterate yields exactly the sequence, unless the live keys wrap |
| `Queue.StepRefines` | client/collections/queue.go:42-172 | every operation answers as the FIFO sequence does and keeps the correspondence |
| `Queue.RunRefines` | client/collections/queue.go:42-172 | over every run from an unwritten store all answers are those of a FIFO sequence, with no bound on the number of enqueues |
| `Queue.NothingLost` | client/collections/queue.go:42-120 | over every run, enqueued since Initialize = dequeued followed by what is held; nothing stale comes back; the front cursor counts the dequeues |
| `Queue.GetSucceedsExactlyBelowLength` | client/collections/queue.go:99-120 | for every uint64 index, Get succeeds exactly below Len while the live keys are unwrapped; afterwards exactly for the wrapped part; never a wrong element |
| `Queue.PeekForetellsDequeue` | client/collections/queue.go:75-142 | Peek equals the next Dequeue exactly when the front cursor was written, Get(0) exactly while the keys are unwrapped |
| `Queue.FullQueueReadsEmpty` | client/collections/queue.go:56-124 | the bound on elements held is exact: the 2^64-th makes the queue read as empty |
| `Withdrawals.PeekEligible` | client/x/evmstaking/keeper/withdrawal_queue.go:69-105 | the head of the queue in order, indexed from the front cursor; the error and empty cases |
| `Withdrawals.DequeueEligible` | client/x/evmstaking/keeper/withdrawal_queue.go:22-67 | returns the head of the queue and leaves exactly the tail |
| `Withdrawals.PrepareWithdrawals` | client/x/evmengine/keeper/abci.go:69-82 | the proposer's list is the peek at stake withdrawals, filled up with rewards |
| `Withdrawals.CompareOne` | client/x/evmengine/keeper/proposal_server.go:136-147 | accepts exactly equal withdrawals |
| `Withdrawals.CompareSegment` | client/x/evmengine/keeper/proposal_server.go:135-149 | accepts exactly when the segment of the proposed list is the expected one |
| `Withdrawals.CompareWithdrawals` | client/x/evmengine/keeper/proposal_server.go:98-167 | a validator accepts exactly the list that is its own peek |
| `Withdrawals.FinalizeWithdrawals` | client/x/evmengine/keeper/msg_server.go:46-89 | succeeds exactly when both front cursors exist and the lengths agree; then dequeues exactly what is due |
| `Withdrawals.BlocksAreFull` | client/x/evmengine/keeper/msg_server.go:46-89 | a block pays as many withdrawals as its maximum allows and the queues hold, and they hold that many fewer afterwards |
| `Withdrawals.PeekForetellsDequeue` | client/x/evmstaking/keeper/withdrawal_queue.go:22-105 | peeking gives what dequeuing will give exactly while the live keys are unwrapped or nothing is asked for |
| `Withdrawals.AcceptedIsPaid` | client/x/evmengine/keeper/msg_server.go:41-89 | an accepted list is exactly the one finalising dequeues, so the length check there is enough; rewards are paid only once the stake queue is empty |
| `Withdrawals.AcceptedIsPaidExactlyWhen` | client/x/evmengine/keeper/msg_server.go:41-89 | for one block, with withdrawal kinds apart: the accepted list is the dequeued one if and only if each queue the block draws from is unwrapped |
| `Withdrawals.HistorySettled` | client/x/evmengine/keeper/msg_server.go:46-89 | every history of due withdrawals and proposed blocks keeps both queues settled: paid prefix, queued rest |
| `Withdrawals.EveryWithdrawalPaidOnce` | client/x/evmengine/keeper/msg_server.go:41-89 | over every history from genesis, each withdrawal is paid at most once, in order, under its own index, address and amount, and none is lost |
| `Withdrawals.BlockPays` | client/x/evmengine/keeper/msg_server.go:46-89 | a block that proposes the node's own peek pays as many withdrawals as it has room for, stake first; any other proposal changes nothing, and nothing else pays |
| `Withdrawals.PaidInTime` | client/x/evmengine/keeper/msg_server.go:46-89 | over every history of such blocks: either all stake withdrawals owed at its start are paid, or every block was filled with stake; either all rewards owed at its start are paid, or every block was full |
| `Withdrawals.WrappedQueuePaysWrong` | client/x/evmengine/keeper/msg_server.go:41-89 | the 2^64 bound is needed: with a wrapped stake queue a block passes every check, pays a reward and dequeues a stake withdrawal |
| `Withdrawals.WrappedQueueIsReached` | client/x/evmengine/keeper/msg_server.go:41-89 | a history from genesis reaches that state |
| `RewardSweep.Sweep.ProcessRewardWithdrawals` | client/x/evmstaking/keeper/withdraw.go:168-283 | one call processes the next slots of the ring and stores the cursor behind them: as many as the bound and the rest of the round allow, more only past a validator whose delegations overflow uint32 |
| `RewardSweep.SweepFrom` | client/x/evmstaking/keeper/withdraw.go:211-269 | the loop over validators meets that specification from any cursor inside the set |
| `RewardSweep.ProcessDelegations` | client/x/evmstaking/keeper/withdraw.go:238-260 | the delegations of one validator in order, stopping early exactly when their number, converted to uint32, is more than the bound allows |
| `RewardSweep.RoundRobin` | client/x/evmstaking/keeper/withdraw.go:168-283 | over every run of blocks, the j-th delegation processed is j places round the ring from the start, whatever the bounds |
| `RewardSweep.EachRoundPaysAll` | client/x/evmstaking/keeper/withdraw.go:168-283 | any window as long as the ring processes every delegation exactly once |
| `RewardSweep.Progress` | client/x/evmstaking/keeper/withdraw.go:211-274 | with a positive bound every block but possibly the first processes something |
| `RewardSweep.NoStarvation` | client/x/evmstaking/keeper/withdraw.go:168-283 | one block more than the ring has slots is enough to reach every delegation |
| `RewardSweep.TwoRoundsOfBoundsPayAll` | client/x/evmstaking/keeper/withdraw.go:168-283 | as soon as the blocks' bounds, each counted for at most one round, add up to two rounds, every delegation has been processed |
| `RewardReach.CallReachesExactlyWhen` | client/x/evmstaking/keeper/withdraw.go:211-269 | one call processes everything within its bound and the rest of the round from its cursor, and nothing else unless a number of delegations overflows uint32 |
| `RewardReach.RunReachesExactlyWhen` | client/x/evmstaking/keeper/withdraw.go:168-283 | over every run with any changes of the set between blocks, a delegation has been processed if and only if some block had it in reach |
| `RewardReach.ReachedUnlessPushedBack` | client/x/evmstaking/keeper/withdraw.go:168-283 | as long as no change of the set puts a delegation further ahead of the cursor than the block before left it, it is reached once more slots are processed than were ahead of it |
| `RewardReach.EveryOtherBlock` | client/x/evmstaking/keeper/withdraw.go:184-274 | with positive bounds at least every other block processes something, also while the set changes |
| `RewardReach.ReachedInTime` | client/x/evmstaking/keeper/withdraw.go:168-283 | such a delegation, d slots ahead, is reached within 2d + 3 blocks |
| `RewardReach.QuietStretchReachesAll` | client/x/evmstaking/keeper/withdraw.go:168-283 | however the set changed before, a stretch over one set longer than its ring reaches every delegation of it |
| `RewardReach.JoinsAndLeavesStarve` | client/x/evmstaking/keeper/withdraw.go:184-193 | joins and removals can make every block of an arbitrarily long run pass one delegation over |
| `RewardReach.StarvingIsPushedBack` | client/x/evmstaking/keeper/withdraw.go:184-193 | in that run every change of the set pushes the delegation back |
| `TokenFlow.Keeper.SendAndBurn` | client/x/evmstaking/keeper/withdraw.go:59-65 | moves and burns coins, or fails for lack of them |
| `TokenFlow.Keeper.ProcessMatured` | client/x/evmstaking/keeper/withdraw.go:33-77 | one matured entry: burned and owed to the withdraw address, with the error cases |
| `TokenFlow.Keeper.ProcessResidue` | client/x/evmstaking/keeper/withdraw.go:79-163 | one entry's residue: commission for a validator that unstaked everything, the v1.2.1 rule, then burned and owed |
| `TokenFlow.Keeper.ProcessUnstakeWithdrawals` | client/x/evmstaking/keeper/withdraw.go:30-166 | both passes over all matured entries, stopping at the first error |
| `TokenFlow.Keeper.ProcessEligibleRewardWithdrawal` | client/x/evmstaking/keeper/withdraw.go:286-335 | pays out exactly when the estimate plus the claimed rewards, modulo 2^64, reach the minimum |
| `TokenFlow.Keeper.EnqueueRewardWithdrawal` | client/x/evmstaking/keeper/withdraw.go:338-421 | withdraws rewards (and commission), burns them with the claimed ones and owes the sum |
| `TokenFlow.Keeper.ProcessUbiWithdrawal` | client/x/evmstaking/keeper/ubi.go:13-56 | burns the UBI balance and owes it, from the minimum on |
| `TokenFlow.BurnOwingSound` | client/x/evmstaking/keeper/withdraw.go:59-76 | burning and owing the same amount keeps supply = held coins and minted = supply + owed |
| `TokenFlow.UnstakeSound` | client/x/evmstaking/keeper/withdraw.go:30-166 | matured entries conserve tokens, and since v1.2.1 leave every delegator concerned without a spendable balance |
| `UnstakeOutcome.PaidExactlyWhen` | client/x/evmstaking/keeper/withdraw.go:33-77 | the first pass succeeds exactly when every delegator has a withdraw address and what its entries together ask for, and amounts fit; it takes exactly that |
| `UnstakeOutcome.SweptExactlyWhen` | client/x/evmstaking/keeper/withdraw.go:79-163 | the second pass succeeds exactly when the chain is known, the commissions are held, and every residue fits and has an address; it empties exactly the swept accounts |
| `UnstakeOutcome.UnstakeSucceedsExactlyWhen` | client/x/evmstaking/keeper/withdraw.go:30-166 | both passes together succeed if and only if a condition on the state before the call holds |
| `TokenFlow.RewardSound` | client/x/evmstaking/keeper/withdraw.go:338-421 | paying out rewards conserves tokens |
| `TokenFlow.RewardEmpties` | client/x/evmstaking/keeper/withdraw.go:338-421 | it empties the delegator's account, touches no other, and lacks coins only if the distribution module does |
| `TokenFlow.UbiSound` | client/x/evmstaking/keeper/ubi.go:13-56 | the UBI sweep conserves tokens |
| `TokenFlow.MoveSound` | client/x/evmstaking/keeper/deposit.go:141-147 | minting, slashing and every other step keep the books sound |
| `TokenFlow.NextInStep` | client/x/evmstaking/keeper/withdrawal_queue.go:17-20 | each step keeps the books and the withdrawal queues in step with each other |
| `TokenFlow.RunTotals` | client/x/evmstaking/keeper/deposit.go:141-147 | over every run, exactly the mints and slashes of its steps were minted and slashed |
| `TokenFlow.PegHolds` | client/x/evmstaking/keeper/withdraw.go:30-421 | over every run from genesis: the first supply and the mints of the run = supply + queued + paid on the execution layer + the slashes of the run |
| `Owed.EntriesOwed` | client/x/evmstaking/keeper/withdraw.go:33-77 | the first pass owes each entry, in order and nothing else, to its own delegator's withdraw address, with its amount, kind, height and validator |
| `Owed.ResiduesOwed` | client/x/evmstaking/keeper/withdraw.go:79-163 | the second pass owes one reward withdrawal for every residue that is taken and not zero, to the delegator's reward address, and nothing else |
| `Owed.UnstakeOwed` | client/x/evmstaking/keeper/withdraw.go:30-166 | both passes together, with the residues computed from the balances before the call |
| `Owed.RewardOwed` | client/x/evmstaking/keeper/withdraw.go:338-421 | a payout succeeds if and only if the rewards are held, the amounts fit and there is a reward address; it takes rewards and own commission from the module and owes them, with all the account had, in one withdrawal |
| `Owed.SweptFromTheMinimumOn` | client/x/evmstaking/keeper/withdraw.go:286-335 | the sweep pays out exactly from the minimum on; below it nothing changes, and above it the payout succeeds exactly when payable |
| `Owed.UbiOwed` | client/x/evmstaking/keeper/ubi.go:13-56 | when the UBI sweep succeeds, and that it owes the whole balance to the UBI address exactly from the minimum on |
| `Owed.MintedUnbondedSlashed` | client/x/evmstaking/keeper/deposit.go:141-147 | minting, unbonding and slashing move exactly their amount, owe nobody anything, and the last two fail exactly when the modules hold less |
| `Owed.EverythingPaidOrQueued` | client/x/evmengine/keeper/msg_server.go:41-89 | over every run from genesis, each withdrawal ever owed is paid to its own address under its own position, or still queued |
| `Owed.EntryPaidToItsDelegator` | client/x/evmstaking/keeper/withdraw.go:33-77 | in every run from genesis, an entry that matures at any step is owed to its delegator's withdraw address, and by the end is paid there or still queued |
| `Owed.ResiduePaidToItsDelegator` | client/x/evmstaking/keeper/withdraw.go:79-163 | the same for the residue of an entry, at the reward address |
| `Owed.RewardPaidToItsDelegator` | client/x/evmstaking/keeper/withdraw.go:286-421 | the same for a reward payout |
| `Owed.RunPaysInTime` | client/x/evmengine/keeper/msg_server.go:46-89 | the same choice as for histories, over every run of the two layers together: what was owed is paid, or every block was full |
| `Owed.EntryPaidInTime` | client/x/evmstaking/keeper/withdraw.go:33-77 | in every run from genesis, once the honest blocks after it have room for the queue ahead of it, a matured entry is paid to its delegator's withdraw address with its own amount |
| `EngineMock.Engine.GetHeadBlock` | lib/ethclient/enginemock.go:179-196 | the stored head; genesis is stored on first use |
| `EngineMock.Engine.NewPayloadV3` | lib/ethclient/enginemock.go:324-354 | stores the payload without withdrawals under its id; a random error changes nothing |
| `EngineMock.Engine.ForkchoiceUpdatedV3` | lib/ethclient/enginemock.go:356-440 | the search, the child check, the head move, then the build numbered from the old head, with every error path |
| `EngineMock.Engine.ScanPayloads` | lib/ethclient/enginemock.go:381-407 | the loop over the payloads in any order: found, missing, or stopped by one that does not convert |
| `EngineMock.Engine.GetPayloadV3` | lib/ethclient/enginemock.go:442-458 | the payload stored under the id |
| `EngineMock.Engine.FilterLogs` | lib/ethclient/enginemock.go:211-242 | filed logs of the address, or the pending ones, which it files |
| `EngineMock.SubmittedIsKept` | lib/ethclient/enginemock.go:324-354 | a submitted payload is refused exactly when it has no id; otherwise its id gives it back after any further calls, without withdrawals and with nothing else changed |
| `EngineMock.ForkchoiceAnswer` | lib/ethclient/enginemock.go:379-412 | without attributes: succeeds exactly when the block is the head, or is found, comes next after the head and has an id; which id is returned and which head is left |
| `EngineMock.HeadMovesExactlyWhen` | lib/ethclient/enginemock.go:379-412 | the head moves exactly when the search finds a child of it; every other call and every failed search leave it alone |
| `EngineMock.PayloadsKeptRun` | lib/ethclient/enginemock.go:324-432 | with distinct ids, no run ever loses or replaces a payload |
| `EngineMock.HeadsFormChain` | lib/ethclient/enginemock.go:356-412 | in every run the heads form one hash-linked chain, numbers count head changes, and each later head is a stored payload |
| `EngineMock.ChainFromGenesis` | lib/ethclient/enginemock.go:179-196 | from a new engine that chain starts at the genesis block |
| `EngineMock.CommitSucceedsExactlyWhen` | lib/ethclient/enginemock.go:379-412 | committing a stored child succeeds under every iteration order exactly when every stored payload converts |
| `EngineMock.BuiltPayload` | lib/ethclient/enginemock.go:414-432 | a build stores a payload on the requested block, numbered after the head from before the call, with the timestamp, fee recipient, randomness and beacon root of its attributes and no withdrawals |
| `EngineMock.BuildsExactlyWhen` | lib/ethclient/enginemock.go:379-432 | a build succeeds exactly when the update would without it and the payload asked for is well formed and has an id; it stores that payload and no other |
| `EngineMock.BuildGetCommit` | lib/ethclient/enginemock.go:356-458 | after any calls that leave the head, the id still gives a child of the head with the attributes asked for, and committing it succeeds exactly when all payloads convert |
| `EngineMock.MovingBuildNeverCommits` | lib/ethclient/enginemock.go:372-432 | a payload built while the head moves has the new head's number, stays stored, and after no run of any calls is the head |
| `EngineMock.MisnumberedStaysOut` | lib/ethclient/enginemock.go:379-412 | no single call makes a payload the head whose number is its parent's own, whatever the head is by then |
| `EngineMock.QueriesRepeat` | lib/ethclient/enginemock.go:211-242 | the same log query gives the same answer after any run |
| `EngineMock.FirstQueryClaims` | lib/ethclient/enginemock.go:232-241 | the first query for a pending address on an unclaimed hash answers all its logs and files them there; no other query changes anything |
| `EngineMock.QueryAnswer` | lib/ethclient/enginemock.go:211-242 | a query answers the logs of its address exactly if its block hash owns them afterwards |
| `EngineMock.AnswersExplained` | lib/ethclient/enginemock.go:211-242 | over every run of a new engine, any assignment of addresses to hashes that explains what is filed at the end explains every answer given on the way |
| `EngineMock.LogsConserved` | lib/ethclient/enginemock.go:211-242 | over every run each pending list is still pending or filed under exactly one block hash |
| `QueryMap.BuildMap` | client/server/utils/querymap.go:101-125 | the loop and its recursion compute the tree, and end on every query |
| `QueryMap.VisitKey` | client/server/utils/querymap.go:110-121 | one pass of the loop performs exactly the action of its key |
| `QueryMap.PrefixGrows` | client/server/utils/querymap.go:102-116 | the prefix gets strictly heavier in every recursive call, and never heavier than the longest key plus one |
| `QueryMap.MatchIsExtension` | client/server/utils/querymap.go:102-111 | a call looks at a key exactly when the key's path extends the path the call stands for |
| `QueryMap.BuildIsTable` | client/server/utils/querymap.go:107-124 | on keys that do not clash, a call returns exactly the entries its keys ask for |
| `QueryOrder.OrderIrrelevant` | client/server/utils/querymap.go:109-122 | on keys that do not clash, no call's result depends on the iteration order of any call |
| `QueryOrder.OrderIrrelevantExactlyWhen` | client/server/utils/querymap.go:101-125 | for every query: the result is the same in all orders if and only if keys clash only at paths no call looks at (below a leading dot, right there or under a segment that no key goes on from) |
| `QueryOrder.OrdinaryKeysOrderIrrelevant` | client/server/utils/querymap.go:101-125 | without leading dots, the result is the same in all orders if and only if no keys clash |
| `QueryOrder.DisagreementShows` | client/server/utils/querymap.go:109-122 | keys that disagree at a call's own level give it different results in two orders, for every such pair |
| `QueryOrder.StableIsSame` | client/server/utils/querymap.go:109-122 | agreement at the level of every call reached is enough for order-independence, also on queries that clash elsewhere |
| `QueryOrder.HiddenClash` | client/server/utils/querymap.go:102-111 | clashes that no order shows: for any name, two values for the path of the name after a leading dot |
| `QueryMap.DecodesExactlyWhen` | client/server/utils/querymap.go:101-125 | the tree has exactly the query's leaves if and only if the keys do not clash and, if one starts with a dot, both top levels agree |
| `QueryMap.OrdinaryKeysDecode` | client/server/utils/querymap.go:101-125 | without leading dots, decoding is faithful exactly when keys do not clash |
| `QueryMap.FlattenGivesBack` | client/server/utils/querymap.go:101-125 | reading a faithful tree at the segments of any text gives the query's value for that text, of the plain key or the "[]" key |
| `QueryMap.DottedKeyReadsBareKey` | client/server/utils/querymap.go:102-111 | with a leading dot somewhere, the place of ".s" holds the value of "s" |
| `Proposal.IncludesQuorum` | client/app/prouter.go:57-68 | the int64 loop and test on any powers: the true sums, wrapped |
| `Proposal.QuorumTestExact` | client/app/prouter.go:66-68 | for every non-negative total, of any size: the test means more than two thirds for every split of the votes exactly when the total is below 2^62 |
| `Proposal.TestOutcome` | client/app/prouter.go:66-68 | the exact verdict on any int64 powers, through the wrapped double and the truncating division |
| `Proposal.WrongVerdict` | client/app/prouter.go:57-68 | for every total from 2^62 on, a split of the votes that the test judges wrongly |
| `Proposal.QuorumIsTwoThirds` | client/app/prouter.go:57-68 | below 2^62 the step passes exactly for more than two thirds, never for an empty commit |
| `Proposal.SumsArePowers` | client/app/prouter.go:58-65 | the loop's sums are the powers of the voters and of the committers |
| `Proposal.QuorumsIntersect` | client/app/prouter.go:57-68 | two accepted commits of one validator set share committers with more than a third of the power |
| `Proposal.CorrectCommitterInBoth` | client/app/prouter.go:57-68 | with at most a third faulty, a correct validator committed to both |
| `Proposal.RouteMessages` | client/app/prouter.go:70-110 | accepts exactly when the messages are the expected ones and every handler succeeds; no type is handled too often even on rejection |
| `Proposal.ProcessProposal` | client/app/prouter.go:40-114 | the exact condition for accepting a proposal; no proposal reaches a handler twice or with another message |
| `CommentTypes.CommentTypes` | contracts/bindings/scripts/commenttypes.go:69-116 | the commented text; a second pass changes nothing; it can be undone exactly when no line outside a definition is the marker |
| `CommentTypes.CommentLines` | contracts/bindings/scripts/commenttypes.go:80-113 | the two-state loop over the lines |
| `CommentTypes.CommentedExactly` | contracts/bindings/scripts/commenttypes.go:80-113 | exactly the lines from the start of a definition to its end are commented out, each block announced by the marker, and every other line stays as it is |
| `CommentTypes.StartIsNotEnd` | contracts/bindings/scripts/commenttypes.go:103-130 | no line both starts and ends a definition |
| `CommentTypes.EndsWithBrace` | contracts/bindings/scripts/commenttypes.go:128-130 | a line ends a definition exactly when its first character that is not white space is a closing brace |
| `CommentTypes.StartsWithName` | contracts/bindings/scripts/commenttypes.go:118-126 | a line starts a definition exactly when what it shows between white space starts with the keyword and one of the names |
| `CommentTypes.CommentingTwice` | contracts/bindings/scripts/commenttypes.go:69-130 | idempotence for every text and type list |
| `CommentTypes.OneMarkerPerBlock` | contracts/bindings/scripts/commenttypes.go:98-108 | the output has one line more per commented block |
| `CommentTypes.LinesComeBackExactlyWhen` | contracts/bindings/scripts/commenttypes.go:80-113 | the inverse scanner gives the lines back exactly when no stray line is the marker |
| `CommentTypes.TextComesBackExactlyWhen` | contracts/bindings/scripts/commenttypes.go:69-116 | the same through split and join, for whole texts |
| `CommentInverse.RestoredIsOrigin` | contracts/bindings/scripts/commenttypes.go:80-113 | commenting what the look-ahead scanner finds gives back the commented form it was given |
| `CommentInverse.RestoredExactlyWhen` | contracts/bindings/scripts/commenttypes.go:80-113 | the look-ahead scanner gives back the original lines exactly when they have no false marker |
| `CommentInverse.DeterminedExactlyWhen` | contracts/bindings/scripts/commenttypes.go:80-113 | lines are determined by their commented form exactly when they have neither a definition to comment out nor a false marker |
| `CommentInverse.TextRestoredExactlyWhen` | contracts/bindings/scripts/commenttypes.go:69-116 | the scanner finds a text for every commented text, the original exactly without a false marker, through split and join |
| `CommentInverse.TextDeterminedExactlyWhen` | contracts/bindings/scripts/commenttypes.go:69-116 | which whole texts are determined by their commented form |
| `CommentInverse.MarkerTexts` | contracts/bindings/scripts/commenttypes.go:69-116 | these results for the marker line that the program writes, for every text and type list |
| `Upgrades.TablesAgree` | lib/netconf/upgrades.go:25-52 | the fork packages and the upgrade table agree on every chain |
| `Upgrades.App.ScheduleForkUpgrade` | client/app/upgrades.go:92-152 | schedules the forks of this height, or stops where the upgrade module refuses one |
| `Upgrades.App.PreBlocker` | client/app/app.go:161-184 | forks first, then a pending upgrade whose height has come, which is then cleared |
| `Upgrades.App.ProcessUpgradeEvent` | client/x/evmengine/keeper/upgrades.go:61-249 | announcing and cancelling, before and after Terence, with every rejection and the refusals of the upgrade module; a rejected event changes nothing |
| `Upgrades.AnnouncedExactlyWhen` | client/x/evmengine/keeper/upgrades.go:164-249 | an announcement is accepted after Terence exactly when well formed, not below the current block and nothing is pending, and then is pending; before Terence exactly when the upgrade module takes it, and then is scheduled; an unknown chain rejects it |
| `Upgrades.CancelledExactlyWhen` | client/x/evmengine/keeper/upgrades.go:189-205 | a cancellation after Terence always succeeds and leaves nothing pending; before, it succeeds exactly when the upgrade module clears its plan, and leaves nothing scheduled; an unknown chain rejects it |
| `Upgrades.CancelUndoesAnnounce` | client/x/evmengine/keeper/upgrades.go:164-262 | cancelling an accepted announcement, in the same or a later block, gives back the state before it |
| `Upgrades.CancelledStaysOut` | client/x/evmengine/keeper/upgrades.go:189-262 | after a successful cancellation, on either side of Terence, the upgrade is neither pending nor handed over in any continuation that does not announce it again |
| `Upgrades.ForksScheduled` | client/app/upgrades.go:92-152 | the hook schedules exactly the forks of its height, in order, keeps what is pending, and succeeds exactly when they are all accepted |
| `Upgrades.OneForkAt` | client/app/upgrades.go:92-152 | with distinct heights a block has the one fork on its height and never two |
| `Upgrades.ChainsInOrder` | lib/netconf/upgrades.go:25-52 | on every chain fork heights are distinct and none lies above Terence's |
| `Upgrades.EachForkOnce` | client/app/upgrades.go:92-152 | in every run from block 1, for any fork heights and any events, each fork is scheduled exactly once if the run reaches its height, else never |
| `Upgrades.ForkPlanStands` | client/app/app.go:161-176 | in every run from block 1, nothing is pending at a fork's block: the hook succeeds exactly when the fork's plan is accepted and leaves that plan, with the fork's name, info and height |
| `Upgrades.TerenceActiveFromItsBlock` | lib/netconf/upgrades.go:95-102 | in every run from block 1, Terence's rules are in force exactly when the run has scheduled the fork, if and only if its height is at least 1 |
| `Upgrades.TerenceOnChains` | lib/netconf/upgrades.go:25-52 | every known chain lists Terence at the table's height, below 1 on the local network only |
| `Upgrades.PendingWaits` | client/x/evmengine/keeper/upgrades.go:210-249 | a pending upgrade survives every block below its height, whatever else is announced |
| `Upgrades.HandedOverExactlyWhen` | client/app/app.go:161-176 | the block where an accepted upgrade is due hands it over if and only if it was announced for a later block and the upgrade module accepts it and the forks of that height |
| `Upgrades.HandedOverOrStopped` | client/x/evmengine/keeper/upgrades.go:231-249 | a chain that goes on past the due block has handed it over; an upgrade announced for the current block makes every continuation fail |
| `ErrorCodes.LeastCodeWins` | lib/errors/codes.go:95-140 | reading any error tree gives the least code in it, unspecified if none |
| `ErrorCodes.HasCodeExactlyWhen` | lib/errors/codes.go:95-140 | an error has a code exactly when the code's sentinel is one of the errors it is made of |
| `ErrorCodes.LayeredCode` | lib/errors/codes.go:87-140 | through any layers of messages and codes, the least of all codes is read |
| `ErrorCodes.LayerOrderIrrelevant` | lib/errors/codes.go:87-140 | the order and repetition of layers do not matter |
| `ErrorCodes.LayeredAttrs` | lib/errors/errors.go:23-42 | an error carries the attributes of all layers, outermost first |
| `ErrorCodes.FirstInOrder` | lib/errors/errors.go:33-36 | the attributes a wrapper takes over are those of the first structured error, depth first, if there is one |
| `ErrorCodes.LayeredMessages` | lib/errors/errors.go:23-42 | an error carries the messages of all layers, outermost first |
| `ErrorCodes.LayersOnNil` | lib/errors/codes.go:87-93 | wrapping no error gives none, while attaching a code to none gives an error with that code |
| `Pagination.Total` | client/server/staking.go:719-755 | for any page sizes the loop ends with the sum over the whole list, each delegation once, and fails exactly when one amount fails |
| `Pagination.SumOfParts` | client/server/staking.go:735-748 | the total of a list cut anywhere is the total of its parts, and fails exactly when one of them does |
| `Pagination.SumExistsExactlyWhen` | client/server/staking.go:735-748 | there is a total exactly when every amount is known |
| `Pagination.NextPosition` | client/server/staking.go:750-754 | each page starts where the one before ended, and the last is recognised |
| `Backoff.Backoff` | lib/expbackoff/expbackoff.go:188-211 | the loop, the cap, the jitter and the truncation, for every configuration |
| `Backoff.CappedPower` | lib/expbackoff/expbackoff.go:193-202 | stopping early changes nothing: the delay is base times multiplier to the n, capped |
| `Backoff.MonotoneExactlyWhen` | lib/expbackoff/expbackoff.go:188-202 | delays before jitter never shrink from the first retry on, and from the first delay on exactly when the base is at most the maximum |
| `Backoff.JitterIsEven` | lib/expbackoff/expbackoff.go:203-205 | the factor goes evenly with the draw from one minus the jitter through one |
| `Backoff.WaitsCountUp` | lib/expbackoff/expbackoff.go:126-138 | waits without a reset use the delays of consecutive retries, each with its own draw |
| `Backoff.WithinJitter` | lib/expbackoff/expbackoff.go:203-210 | the jittered delay stays within the jitter's share of the capped power and of the maximum |
| `Backoff.DelayExactly` | lib/expbackoff/expbackoff.go:188-211 | the delay is the capped power times one minus the jitter plus twice the jitter times the draw, in whole nanoseconds |
| `Backoff.ResetIsFresh` | lib/expbackoff/expbackoff.go:120-145 | after a reset the delays are those of a fresh backoff given the same draws |
| `Backoff.DelaysBounded` | lib/expbackoff/expbackoff.go:120-145 | every delay of every run is bounded by the base delay or the jittered maximum |

## Left out

- Withdrawals.EveryWithdrawalPaidOnce: assumes fewer than 2^64 withdrawals per queue over the life of the chain, a bound that WrappedQueuePaysWrong and WrappedQueueIsReached show is needed; the execution layer's own handling of a payload is not modelled.
- Withdrawals.HistorySettled: assumes the same bound.
- TokenFlow.PegHolds: assumes the same bound, takes the amounts of slashes and mints as given, and covers successful steps; the consensus layer drops the writes of a block that fails, which is not modelled.
- Owed.EverythingPaidOrQueued: assumes the same bound.
- Owed.EntryPaidToItsDelegator: assumes the same bound.
- Owed.EntryPaidInTime: assumes the same bound, and that the blocks after the entry propose what a node peeks; a block that does not is rejected and pays nothing.
- Owed.RunPaysInTime: assumes the same.
- Withdrawals.PaidInTime: assumes the same.
- Withdrawals.BlockPays: assumes the bound.
- Owed.ResiduePaidToItsDelegator: the same.
- Owed.RewardPaidToItsDelegator: the same.
- TokenFlow.Keeper.ProcessUnstakeWithdrawals: says nothing about the books after an error; conversions that panic in the source are errors here. UnstakeOutcome says when there is one.
- TokenFlow.Keeper.EnqueueRewardWithdrawal: the amounts paid by the distribution module are arguments; its reward arithmetic is not part of this model.
- RewardSweep.Sweep.ProcessRewardWithdrawals: for a validator with 2^32 delegations or more it only says that the call processes at least what the bound allows; errors of a single payout, which abort the block, are not modelled.
- RewardSweep.NoStarvation: is about a validator set that stays the same; RewardReach treats sets that change.
- RewardReach.RunReachesExactlyWhen: assumes that no delegation is listed twice in a set and that the numbers of delegations fit 32 bits.
- EngineMock.BuildGetCommit: takes block hashes and payload ids to be injective, which hash functions only approximate.
- EngineMock.Engine.ForkchoiceUpdatedV3: does not model RLP encoding, nor the int64 conversion of the new block's height; calls are sequential (the mutex is not modelled).
- EngineMock.QueriesRepeat: assumes that pending logs are kept under their own address, as the mock's options set them up.
- EngineMock.QueryAnswer: the same.
- EngineMock.AnswersExplained: the same.
- Proposal.ProcessProposal: the checks of validateTx enter as one verdict; a timeout is a handler that fails.
- Proposal.QuorumsIntersect: is stated for totals below 2^62, where the test means two thirds; WrongVerdict shows that it does not beyond.
- Upgrades.App.ProcessUpgradeEvent: the upgrade module lies outside this repository; it is taken to refuse plans that are malformed, below the current height or already done, which upgrades are done and whether its plan can be cleared are parameters, and so is what makes a plan well formed; writing the upgrade info to disk is not modelled.
- Upgrades.CancelledStaysOut: is about an upgrade that is not a fork's plan and is not held on the other side of Terence, where a cancellation does not look.
- Upgrades.ForkPlanStands: what the upgrade module does with the plan it was left is not modelled.
- Pagination.Total: amounts are exact integers; the two handlers differ only in the amount function, and the decimal conversion of shares is that parameter.
- ErrorCodes.LayeredAttrs: types with their own Wrap method, and comparison of one structured error with another, are not modelled.
- Backoff.Backoff: real arithmetic, so floating-point rounding is not modelled; waiting and cancellation during a wait are not modelled.
- Store failures, key prefixes and codecs of the queue's collections.
- The decode hooks of the query decoder, which only convert single values.
- The staking contract's events about validators, delegations and unjailing: they are forwarded to modules outside this repository.
- Command line, configuration, logging, metrics, network clients, key handling and generated contract bindings.
- The other HTTP handlers.
