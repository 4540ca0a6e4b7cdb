/** Accepting or rejecting a proposed block (client/app/prouter.go, the handler of
    makeProcessProposalHandler): the quorum test in int64 arithmetic, and the loop that routes the
    messages of the single transaction against a table of expected message counts. */
module Proposal {
  import opened Machine
  import opened Sums

  const TWO63: int := 0x8000_0000_0000_0000
  const TWO62: int := 0x4000_0000_0000_0000

  /** A validator's consensus address. */
  type Address = nat

  datatype Vote = Vote(validator: Address, power: int, committed: bool)

  /** The int64 that Go's wrapping arithmetic keeps of an integer. */
  function Wrap(x: int): int {
    (x + TWO63) % TWO64 - TWO63
  }

  /** Go's integer division, which truncates toward zero. */
  function Quotient(a: int, b: int): int
    requires b > 0
  {
    if a >= 0 then a / b else -(-a / b)
  }

  function TotalPower(votes: seq<Vote>): int {
    if votes == [] then 0 else TotalPower(votes[..|votes| - 1]) + votes[|votes| - 1].power
  }

  function VotedPower(votes: seq<Vote>): int {
    if votes == [] then 0
    else VotedPower(votes[..|votes| - 1]) + (if votes[|votes| - 1].committed then votes[|votes| - 1].power else 0)
  }

  /** The quorum test on the powers the loop ends with. */
  predicate TestPasses(total: int, voted: int) {
    !(Quotient(Wrap(total * 2), 3) >= voted)
  }

  lemma {:induction false} WrapAdd(x: int, y: int)
    ensures Wrap(Wrap(x) + y) == Wrap(x + y)
  {
  }

  /** The loop and the test, for any int64 powers at all: the sums are the true ones, wrapped. */
  method IncludesQuorum(votes: seq<Vote>) returns (ok: bool)
    ensures ok <==> TestPasses(Wrap(TotalPower(votes)), Wrap(VotedPower(votes)))
  {
    var totalPower, votedPower := 0, 0;
    for i := 0 to |votes|
      invariant totalPower == Wrap(TotalPower(votes[..i]))
      invariant votedPower == Wrap(VotedPower(votes[..i]))
    {
      assert votes[..i + 1][..i] == votes[..i];
      WrapAdd(TotalPower(votes[..i]), votes[i].power);
      WrapAdd(VotedPower(votes[..i]), votes[i].power);
      totalPower := Wrap(totalPower + votes[i].power);
      if !votes[i].committed {
        continue;
      }
      votedPower := Wrap(votedPower + votes[i].power);
    }
    assert votes[..|votes|] == votes;
    ok := !(Quotient(Wrap(totalPower * 2), 3) >= votedPower);
  }

  ghost predicate NonNegative(votes: seq<Vote>) {
    forall i :: 0 <= i < |votes| ==> votes[i].power >= 0
  }

  lemma {:induction false} VotedIsPart(votes: seq<Vote>)
    requires NonNegative(votes)
    ensures 0 <= VotedPower(votes) <= TotalPower(votes)
    decreases |votes|
  {
    if votes != [] {
      VotedIsPart(votes[..|votes| - 1]);
    }
  }

  /** Twice the total, as int64 arithmetic sees it. */
  function Doubled(t: int): int {
    if t < -TWO62 then 2 * t + TWO64 else if t < TWO62 then 2 * t else 2 * t - TWO64
  }

  /** What the test does on any int64 powers: it compares three times the voted power with twice
      the total as the doubling wrapped it, and a negative double makes it ask for a little more. */
  lemma {:induction false} TestOutcome(total: int, voted: int)
    requires -TWO63 <= total < TWO63
    ensures TestPasses(total, voted) <==>
            (if Doubled(total) >= 0 then 3 * voted > Doubled(total) else 3 * voted >= Doubled(total) + 3)
  {
    assert Wrap(total * 2) == Doubled(total);
  }

  /** The test means strictly more than two thirds, however the total divides into votes. */
  ghost predicate MeansTwoThirds(total: int) {
    forall voted :: 0 <= voted <= total ==> (TestPasses(Wrap(total), Wrap(voted)) <==> 3 * voted > 2 * total)
  }

  lemma {:induction false} OneVotePasses(total: int)
    requires TWO62 <= total < TWO63
    ensures TestPasses(Wrap(total), Wrap(1))
  {
    assert Wrap(total) == total && Wrap(1) == 1;
    TestOutcome(total, 1);
  }

  lemma {:induction false} EverybodyIsRefused(total: int)
    requires TWO63 <= total < TWO64
    ensures !TestPasses(Wrap(total), Wrap(total))
  {
    assert Wrap(total) == total - TWO64;
    TestOutcome(total - TWO64, total - TWO64);
  }

  lemma {:induction false} SameResidue(total: int)
    requires total >= TWO64
    ensures 0 <= total % TWO64 < TWO64 && Wrap(total % TWO64) == Wrap(total)
  {
  }

  /** A split of the votes on which the test does not mean two thirds, for each total from 2^62 on:
      a single vote passes, or everybody's vote is refused, or voting everything looks the same as
      voting what the total is modulo 2^64. */
  lemma {:induction false} WrongVerdict(total: int) returns (voted: int)
    requires total >= TWO62
    ensures 0 <= voted <= total
    ensures !(TestPasses(Wrap(total), Wrap(voted)) <==> 3 * voted > 2 * total)
  {
    if total < TWO63 {
      OneVotePasses(total);
      voted := 1;
    } else if total < TWO64 {
      EverybodyIsRefused(total);
      voted := total;
    } else {
      SameResidue(total);
      voted := if TestPasses(Wrap(total), Wrap(total)) then total % TWO64 else total;
    }
  }

  /** It means two thirds exactly for totals below 2^62. */
  lemma {:induction false} QuorumTestExact(total: int)
    requires total >= 0
    ensures MeansTwoThirds(total) <==> total < TWO62
  {
    if total < TWO62 {
      forall voted | 0 <= voted <= total
        ensures TestPasses(Wrap(total), Wrap(voted)) <==> 3 * voted > 2 * total
      {
        SmallTotal(total, voted);
      }
    } else {
      var voted := WrongVerdict(total);
    }
  }

  lemma {:induction false} SmallTotal(total: int, voted: int)
    requires 0 <= voted <= total < TWO62
    ensures TestPasses(Wrap(total), Wrap(voted)) <==> 3 * voted > 2 * total
  {
    assert Wrap(total) == total && Wrap(voted) == voted;
    TestOutcome(total, voted);
  }

  /** With a total power below 2^62 the handler's quorum step passes exactly when the committed
      power is strictly more than two thirds, in particular never on an empty commit. */
  lemma {:induction false} QuorumIsTwoThirds(votes: seq<Vote>)
    requires NonNegative(votes) && TotalPower(votes) < TWO62
    ensures TestPasses(Wrap(TotalPower(votes)), Wrap(VotedPower(votes))) <==>
            3 * VotedPower(votes) > 2 * TotalPower(votes)
  {
    VotedIsPart(votes);
    SmallTotal(TotalPower(votes), VotedPower(votes));
  }

  // ---------------------------------------------------------------------------------------
  // Quorums intersect
  // ---------------------------------------------------------------------------------------

  function Voters(votes: seq<Vote>): set<Address> {
    set i | 0 <= i < |votes| :: votes[i].validator
  }

  function Committers(votes: seq<Vote>): set<Address> {
    set i | 0 <= i < |votes| && votes[i].committed :: votes[i].validator
  }

  /** Every validator of the set votes once, with its own power. */
  ghost predicate CommitOver(votes: seq<Vote>, power: map<Address, nat>) {
    && (forall i, j :: 0 <= i < j < |votes| ==> votes[i].validator != votes[j].validator)
    && (forall i :: 0 <= i < |votes| ==> votes[i].validator in power && votes[i].power == power[votes[i].validator])
  }

  lemma {:induction false} VotersSnoc(votes: seq<Vote>, vote: Vote)
    ensures Voters(votes + [vote]) == Voters(votes) + {vote.validator}
    ensures Committers(votes + [vote]) == Committers(votes) + (if vote.committed then {vote.validator} else {})
  {
    var all := votes + [vote];
    assert all[|votes|] == vote;
    assert forall i :: 0 <= i < |votes| ==> all[i] == votes[i];
  }

  lemma {:induction false} SumsArePowers(votes: seq<Vote>, power: map<Address, nat>)
    requires CommitOver(votes, power)
    ensures Committers(votes) <= Voters(votes) <= power.Keys
    ensures TotalPower(votes) == SumOver(power, Voters(votes))
    ensures VotedPower(votes) == SumOver(power, Committers(votes))
    decreases |votes|
  {
    if votes != [] {
      var init, last := votes[..|votes| - 1], votes[|votes| - 1];
      assert votes == init + [last];
      SumsArePowers(init, power);
      VotersSnoc(init, last);
      assert last.validator !in Voters(init);
      SumAdd(power, Voters(init), last.validator);
      if last.committed {
        SumAdd(power, Committers(init), last.validator);
      } else {
        assert Committers(votes) == Committers(init);
      }
    }
  }

  /** Both commits are commits of the whole validator set and pass the quorum test. */
  ghost predicate BothQuorums(votes: seq<Vote>, votes': seq<Vote>, power: map<Address, nat>) {
    && CommitOver(votes, power) && CommitOver(votes', power)
    && Voters(votes) == Voters(votes') == power.Keys
    && TestPasses(Wrap(TotalPower(votes)), Wrap(VotedPower(votes)))
    && TestPasses(Wrap(TotalPower(votes')), Wrap(VotedPower(votes')))
  }

  /** Any two commits of one validator set that pass the quorum test share committers that hold
      strictly more than a third of the power. */
  lemma {:induction false} QuorumsIntersect(votes: seq<Vote>, votes': seq<Vote>, power: map<Address, nat>)
    requires BothQuorums(votes, votes', power)
    requires SumOver(power, power.Keys) < TWO62
    ensures Committers(votes) * Committers(votes') <= power.Keys
    ensures 3 * SumOver(power, Committers(votes) * Committers(votes')) > SumOver(power, power.Keys)
  {
    SumsArePowers(votes, power);
    SumsArePowers(votes', power);
    QuorumIsTwoThirds(votes);
    QuorumIsTwoThirds(votes');
    var c, c' := Committers(votes), Committers(votes');
    SumUnion(power, c, c');
    SumMonotone(power, c + c', power.Keys);
  }

  /** So if at most a third of the power is faulty, some correct validator committed to both. */
  lemma {:induction false} CorrectCommitterInBoth(votes: seq<Vote>, votes': seq<Vote>, power: map<Address, nat>,
                                                  faulty: set<Address>)
    requires BothQuorums(votes, votes', power)
    requires SumOver(power, power.Keys) < TWO62
    requires faulty <= power.Keys && 3 * SumOver(power, faulty) <= SumOver(power, power.Keys)
    ensures exists v :: v in Committers(votes) && v in Committers(votes') && v !in faulty
  {
    QuorumsIntersect(votes, votes', power);
    var both := Committers(votes) * Committers(votes');
    if both <= faulty {
      SumMonotone(power, both, faulty);
    }
    assert exists v :: v in both && v !in faulty;
  }

  // ---------------------------------------------------------------------------------------
  // Routing the messages
  // ---------------------------------------------------------------------------------------

  datatype Msg = Msg(typeURL: string, body: nat)

  /** What happens when the i-th message is routed; a timeout is a failure. */
  datatype Outcome = NoHandler | Failed | Done

  /** How many of the first n messages have the type. */
  function Count(msgs: seq<Msg>, n: nat, typeURL: string): nat
    requires n <= |msgs|
  {
    if n == 0 then 0
    else Count(msgs, n - 1, typeURL) + (if msgs[n - 1].typeURL == typeURL then 1 else 0)
  }

  function CountExpected(expected: map<string, int>, typeURL: string): int {
    if typeURL in expected then expected[typeURL] else 0
  }

  /** The messages are exactly the expected ones: same types, same numbers. */
  ghost predicate AsExpected(msgs: seq<Msg>, expected: map<string, int>) {
    forall t :: Count(msgs, |msgs|, t) == CountExpected(expected, t)
  }

  lemma {:induction false} CountGrows(msgs: seq<Msg>, i: nat, n: nat, t: string)
    requires i <= n <= |msgs|
    ensures Count(msgs, i, t) <= Count(msgs, n, t)
    decreases n - i
  {
    if i < n {
      CountGrows(msgs, i, n - 1, t);
    }
  }

  /** counts is what remains of the expected numbers after the first n messages, none of which was
      one too many. */
  ghost predicate Remaining(counts: map<string, int>, expected: map<string, int>, msgs: seq<Msg>, n: nat)
    requires n <= |msgs|
  {
    && counts.Keys == expected.Keys
    && (forall t :: t in expected ==> counts[t] == expected[t] - Count(msgs, n, t))
    && WithinExpected(msgs, n, expected)
  }

  /** None of the first n messages is unexpected or one too many. */
  ghost predicate WithinExpected(msgs: seq<Msg>, n: nat, expected: map<string, int>)
    requires n <= |msgs|
  {
    forall t :: Count(msgs, n, t) > 0 ==> Count(msgs, n, t) <= CountExpected(expected, t)
  }

  /** A message whose count is used up, or that is not expected at all, is one too many. */
  lemma {:induction false} OneTooMany(counts: map<string, int>, expected: map<string, int>, msgs: seq<Msg>, i: nat)
    requires i < |msgs|
    requires Remaining(counts, expected, msgs, i)
    requires msgs[i].typeURL !in counts || counts[msgs[i].typeURL] <= 0
    ensures !AsExpected(msgs, expected)
  {
    CountGrows(msgs, i + 1, |msgs|, msgs[i].typeURL);
  }

  lemma {:induction false} OneMore(counts: map<string, int>, expected: map<string, int>, msgs: seq<Msg>, i: nat)
    requires i < |msgs|
    requires Remaining(counts, expected, msgs, i)
    requires msgs[i].typeURL in counts && counts[msgs[i].typeURL] > 0
    ensures Remaining(counts[msgs[i].typeURL := counts[msgs[i].typeURL] - 1], expected, msgs, i + 1)
  {
    forall t
      ensures Count(msgs, i + 1, t) == Count(msgs, i, t) + (if msgs[i].typeURL == t then 1 else 0)
    {
    }
  }

  lemma {:induction false} NothingLeft(counts: map<string, int>, expected: map<string, int>, msgs: seq<Msg>)
    requires Remaining(counts, expected, msgs, |msgs|)
    ensures AsExpected(msgs, expected) <==> forall t :: t in counts ==> counts[t] == 0
  {
    if AsExpected(msgs, expected) {
      forall t | t in counts
        ensures counts[t] == 0
      {
        assert Count(msgs, |msgs|, t) == CountExpected(expected, t);
      }
    }
  }

  /** Routes the messages in order; the first handled of them reach a handler.  The messages are
      accepted exactly when they are the expected ones and every handler succeeds; and whatever
      they are, no type reaches its handler more often than expected. */
  method RouteMessages(msgs: seq<Msg>, expected: map<string, int>, outcome: (nat, Msg) -> Outcome)
    returns (accept: bool, handled: nat)
    ensures accept <==> AsExpected(msgs, expected) && forall i :: 0 <= i < |msgs| ==> outcome(i, msgs[i]) == Done
    ensures handled <= |msgs| && (accept ==> handled == |msgs|)
    ensures WithinExpected(msgs, handled, expected)
  {
    var counts := expected;
    handled := 0;
    for i := 0 to |msgs|
      invariant handled == i
      invariant Remaining(counts, expected, msgs, i)
      invariant forall j :: 0 <= j < i ==> outcome(j, msgs[j]) == Done
    {
      var t := msgs[i].typeURL;
      if t !in counts {
        OneTooMany(counts, expected, msgs, i);
        return false, handled;
      } else if counts[t] <= 0 {
        OneTooMany(counts, expected, msgs, i);
        return false, handled;
      }
      OneMore(counts, expected, msgs, i);
      counts := counts[t := counts[t] - 1];
      var result := outcome(i, msgs[i]);
      if result == NoHandler {
        return false, handled;
      }
      handled := handled + 1;
      if result == Failed {
        return false, handled;
      }
    }
    NothingLeft(counts, expected, msgs);
    accept := AllZero(counts);
  }

  method AllZero(counts: map<string, int>) returns (zero: bool)
    ensures zero <==> forall t :: t in counts ==> counts[t] == 0
  {
    var keys := counts.Keys;
    while keys != {}
      invariant keys <= counts.Keys
      invariant forall t :: t in counts && t !in keys ==> counts[t] == 0
    {
      var t :| t in keys;
      if counts[t] != 0 {
        return false;
      }
      keys := keys - {t};
    }
    zero := true;
  }

  // ---------------------------------------------------------------------------------------
  // The whole handler
  // ---------------------------------------------------------------------------------------

  const EXECUTION_PAYLOAD := "/story.evmengine.v1.types.MsgExecutionPayload"

  /** A proposed transaction: undecodable, or decoded with the verdict of the checks on its
      signatures, memo, fee, payer, granter and tip. */
  datatype Tx = Undecodable | Decoded(valid: bool, msgs: seq<Msg>)

  datatype Request = Request(height: int, txs: seq<Tx>, votes: seq<Vote>)

  lemma {:induction false} SinglePayload(msgs: seq<Msg>)
    ensures AsExpected(msgs, map[EXECUTION_PAYLOAD := 1]) <==> |msgs| == 1 && msgs[0].typeURL == EXECUTION_PAYLOAD
  {
    var expected := map[EXECUTION_PAYLOAD := 1];
    if AsExpected(msgs, expected) {
      AtMostOnce(msgs, |msgs|);
      assert Count(msgs, |msgs|, EXECUTION_PAYLOAD) == CountExpected(expected, EXECUTION_PAYLOAD);
    }
    if |msgs| == 1 {
      forall t
        ensures Count(msgs, 1, t) == if msgs[0].typeURL == t then 1 else 0
      {
        assert Count(msgs, 0, t) == 0;
      }
    }
  }

  lemma {:induction false} AtMostOnce(msgs: seq<Msg>, n: nat)
    requires n <= |msgs| && WithinExpected(msgs, n, map[EXECUTION_PAYLOAD := 1])
    ensures n <= 1 && (n == 1 ==> msgs[0].typeURL == EXECUTION_PAYLOAD)
  {
    if n >= 1 {
      CountGrows(msgs, 1, n, msgs[0].typeURL);
    }
    if n >= 2 {
      CountGrows(msgs, 2, n, msgs[1].typeURL);
    }
  }

  /** A proposal after the first is accepted exactly when it carries one valid transaction with one
      execution payload message whose handler succeeds, on top of a commit with a quorum; the
      first proposal must be empty.  No proposal reaches a handler twice, or with anything else. */
  method ProcessProposal(req: Request, outcome: (nat, Msg) -> Outcome) returns (accept: bool, handled: nat)
    ensures req.height == 1 ==> (accept <==> req.txs == [])
    ensures req.height != 1 ==>
              (accept <==>
                 && |req.txs| == 1
                 && TestPasses(Wrap(TotalPower(req.votes)), Wrap(VotedPower(req.votes)))
                 && req.txs[0].Decoded? && req.txs[0].valid
                 && |req.txs[0].msgs| == 1
                 && req.txs[0].msgs[0].typeURL == EXECUTION_PAYLOAD
                 && outcome(0, req.txs[0].msgs[0]) == Done)
    ensures handled > 0 ==>
              && handled == 1 && |req.txs| == 1 && req.txs[0].Decoded? && req.txs[0].msgs != []
              && req.txs[0].msgs[0].typeURL == EXECUTION_PAYLOAD
  {
    handled := 0;
    if req.height == 1 {
      return |req.txs| == 0, 0;
    } else if |req.txs| != 1 {
      return false, 0;
    }
    var quorum := IncludesQuorum(req.votes);
    if !quorum {
      return false, 0;
    }
    var expected := map[EXECUTION_PAYLOAD := 1];
    if req.txs[0].Undecodable? {
      return false, 0;
    }
    if !req.txs[0].valid {
      return false, 0;
    }
    SinglePayload(req.txs[0].msgs);
    accept, handled := RouteMessages(req.txs[0].msgs, expected, outcome);
    AtMostOnce(req.txs[0].msgs, handled);
  }
}
