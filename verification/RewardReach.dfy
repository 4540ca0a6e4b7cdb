/** The reward sweep while validators and delegations come and go between blocks
    (client/x/evmstaking/keeper/withdraw.go, ProcessRewardWithdrawals): the stored cursor is a pair of
    indices, so every change of the set moves delegations relative to it. */
module RewardReach {
  import opened Machine
  import opened RewardSweep

  datatype Turn<D> = Turn(vs: seq<Validator<D>>, call: Call<D>)

  ghost predicate Takes<D>(c: Cursor, t: Turn<D>) {
    SweepCall(t.vs, c, t.call.bound, t.call.processed, t.call.after)
  }

  ghost predicate ChangingRun<D>(c: Cursor, turns: seq<Turn<D>>)
    decreases |turns|
  {
    turns == [] || (Takes(c, turns[0]) && ChangingRun(turns[0].call.after, turns[1..]))
  }

  ghost predicate Quiet<D>(turns: seq<Turn<D>>, vs: seq<Validator<D>>) {
    forall j :: 0 <= j < |turns| ==> turns[j].vs == vs
  }

  function Calls<D>(turns: seq<Turn<D>>): seq<Call<D>>
    decreases |turns|
  {
    if turns == [] then [] else [turns[0].call] + Calls(turns[1..])
  }

  lemma {:induction false} CallsOf<D>(turns: seq<Turn<D>>)
    ensures |Calls(turns)| == |turns| && forall j :: 0 <= j < |turns| ==> Calls(turns)[j] == turns[j].call
    decreases |turns|
  {
    if turns != [] {
      CallsOf(turns[1..]);
    }
  }

  lemma {:induction false} QuietIsRun<D>(c: Cursor, turns: seq<Turn<D>>, vs: seq<Validator<D>>)
    requires ChangingRun(c, turns) && Quiet(turns, vs)
    ensures SweepRun(vs, c, Calls(turns))
    decreases |turns|
  {
    if turns != [] {
      QuietIsRun(turns[0].call.after, turns[1..], vs);
      assert Calls(turns)[1..] == Calls(turns[1..]);
    }
  }

  lemma {:induction false} RunGoesOn<D>(c: Cursor, before: seq<Turn<D>>, turns: seq<Turn<D>>) returns (c': Cursor)
    requires ChangingRun(c, before + turns)
    ensures ChangingRun(c', turns)
    decreases |before|
  {
    if before == [] {
      assert before + turns == turns;
      c' := c;
    } else {
      assert (before + turns)[1..] == before[1..] + turns;
      c' := RunGoesOn(before[0].call.after, before[1..], turns);
    }
  }

  /** However the set changed before, a stretch of one block more than the ring has slots in which it
      stays the same reaches every delegation of every validator that is not jailed. */
  lemma {:induction false} QuietStretchReachesAll<D>(c: Cursor, before: seq<Turn<D>>, turns: seq<Turn<D>>,
                                                     vs: seq<Validator<D>>)
    requires ChangingRun(c, before + turns) && Quiet(turns, vs) && |vs| > 0
    requires forall j :: 0 <= j < |turns| ==> turns[j].call.bound >= 1
    requires |turns| > |Ring(vs)|
    ensures multiset(Ring(vs)) <= multiset(AllProcessed(Calls(turns)))
  {
    var c' := RunGoesOn(c, before, turns);
    QuietIsRun(c', turns, vs);
    CallsOf(turns);
    NoStarvation(vs, c', Calls(turns));
  }

  // ---------------------------------------------------------------------------------------
  // How far ahead a delegation is
  // ---------------------------------------------------------------------------------------

  ghost predicate Distinct<D>(ring: seq<D>) {
    forall i, j :: 0 <= i < j < |ring| ==> ring[i] != ring[j]
  }

  ghost function IndexOf<D>(ring: seq<D>, x: D): (i: nat)
    requires x in ring
    ensures i < |ring| && ring[i] == x
  {
    var i :| 0 <= i < |ring| && ring[i] == x;
    i
  }

  /** How many slots a walk round the ring from position p meets before x. */
  ghost function Ahead<D>(ring: seq<D>, p: nat, x: D): (d: nat)
    requires x in ring && p <= |ring|
    ensures d < |ring|
  {
    var i := IndexOf(ring, x);
    if i >= p then i - p else i + |ring| - p
  }

  lemma {:induction false} MetAt<D>(ring: seq<D>, p: nat, x: D, j: nat)
    requires Distinct(ring) && x in ring && p <= |ring| && j < |ring|
    ensures Track(ring, p + j) == x <==> j == Ahead(ring, p, x)
  {
    var i := IndexOf(ring, x);
    var at := if p + j < |ring| then p + j else p + j - |ring|;
    assert Track(ring, p + j) == ring[at];
    assert ring[at] == ring[i] <==> at == i;
  }

  lemma {:induction false} OnlySlots<D>(ring: seq<D>, p: nat, processed: seq<D>, x: D)
    requires Follows(ring, p, processed) && x in processed
    ensures x in ring
  {
    var j :| 0 <= j < |processed| && processed[j] == x;
    assert Track(ring, p + j) in ring;
  }

  lemma {:induction false} MetExactlyWhen<D>(ring: seq<D>, p: nat, processed: seq<D>, x: D)
    requires Distinct(ring) && x in ring && p <= |ring|
    requires Follows(ring, p, processed) && |processed| <= |ring|
    ensures x in processed <==> Ahead(ring, p, x) < |processed|
  {
    var d := Ahead(ring, p, x);
    if d < |processed| {
      MetAt(ring, p, x, d);
      assert processed[d] == x;
    }
    if x in processed {
      var j :| 0 <= j < |processed| && processed[j] == x;
      MetAt(ring, p, x, j);
    }
  }

  /** Walking on brings x nearer by as much, until it is met. */
  lemma {:induction false} Nearer<D>(ring: seq<D>, p: nat, p': nat, m: nat, x: D)
    requires x in ring && p <= |ring| && p' <= |ring|
    requires p' == p + m || p' + |ring| == p + m
    requires m <= Ahead(ring, p, x)
    ensures Ahead(ring, p', x) == Ahead(ring, p, x) - m
  {
  }

  ghost predicate HasSlot<D>(vs: seq<Validator<D>>, x: D) {
    |vs| > 0 && x in Ring(vs)
  }

  /** How many slots the sweep from a cursor meets before x. */
  ghost function Distance<D>(vs: seq<Validator<D>>, c: Cursor, x: D): (d: nat)
    requires HasSlot(vs, x)
    ensures d < |Ring(vs)|
  {
    SlotInRing(vs, Start(vs, c).nextVal);
    Ahead(Ring(vs), Position(vs, Start(vs, c)), x)
  }

  /** A call with this bound gets as far as x: the bound and what a round has left reach past it. */
  ghost predicate InReach<D>(vs: seq<Validator<D>>, c: Cursor, bound: nat, x: D) {
    && HasSlot(vs, x)
    && Distance(vs, c, x) < bound
    && Distance(vs, c, x) < |Ring(vs)| - Offset(vs, Start(vs, c))
  }

  /** A call processes x exactly when x is less far ahead than what it processes. */
  lemma {:induction false} CallMeets<D>(c: Cursor, t: Turn<D>, x: D)
    requires Takes(c, t) && Distinct(Ring(t.vs))
    ensures x in t.call.processed <==> HasSlot(t.vs, x) && Distance(t.vs, c, x) < |t.call.processed|
    ensures HasSlot(t.vs, x) && x !in t.call.processed ==>
              Distance(t.vs, t.call.after, x) == Distance(t.vs, c, x) - |t.call.processed|
  {
    if |t.vs| > 0 {
      var p, ring := Position(t.vs, Start(t.vs, c)), Ring(t.vs);
      SlotInRing(t.vs, Start(t.vs, c).nextVal);
      SlotInRing(t.vs, t.call.after.nextVal);
      if x in ring {
        MetExactlyWhen(ring, p, t.call.processed, x);
        if x !in t.call.processed {
          Nearer(ring, p, Position(t.vs, t.call.after), |t.call.processed|, x);
        }
      } else if x in t.call.processed {
        OnlySlots(ring, p, t.call.processed, x);
      }
    }
  }

  /** So a call processes everything in its reach; and nothing else, unless a number of delegations
      overflows uint32. */
  lemma {:induction false} CallReachesExactlyWhen<D>(c: Cursor, t: Turn<D>, x: D)
    requires Takes(c, t) && Distinct(Ring(t.vs))
    ensures InReach(t.vs, c, t.call.bound, x) ==> x in t.call.processed
    ensures InRange(t.vs) ==> (x in t.call.processed <==> InReach(t.vs, c, t.call.bound, x))
  {
    CallMeets(c, t, x);
  }

  // ---------------------------------------------------------------------------------------
  // Which delegations a run reaches
  // ---------------------------------------------------------------------------------------

  /** The cursor that block t of the run starts from. */
  ghost function CursorAt<D>(c: Cursor, turns: seq<Turn<D>>, t: nat): Cursor
    requires t < |turns|
  {
    if t == 0 then c else turns[t - 1].call.after
  }

  ghost predicate ReachedIn<D>(c: Cursor, turns: seq<Turn<D>>, t: nat, x: D)
    requires t < |turns|
  {
    InReach(turns[t].vs, CursorAt(c, turns, t), turns[t].call.bound, x)
  }

  ghost predicate ReachedInSome<D>(c: Cursor, turns: seq<Turn<D>>, x: D) {
    exists t :: 0 <= t < |turns| && ReachedIn(c, turns, t, x)
  }

  ghost predicate AllDistinct<D>(turns: seq<Turn<D>>) {
    forall t :: 0 <= t < |turns| ==> Distinct(Ring(turns[t].vs))
  }

  ghost predicate AllInRange<D>(turns: seq<Turn<D>>) {
    forall t :: 0 <= t < |turns| ==> InRange(turns[t].vs)
  }

  lemma {:induction false} ReachedFirstOrLater<D>(c: Cursor, turns: seq<Turn<D>>, x: D)
    requires turns != []
    ensures ReachedInSome(c, turns, x) <==>
            ReachedIn(c, turns, 0, x) || ReachedInSome(turns[0].call.after, turns[1..], x)
  {
    var rest := turns[1..];
    forall t | 0 <= t < |rest|
      ensures ReachedIn(turns[0].call.after, rest, t, x) <==> ReachedIn(c, turns, t + 1, x)
    {
    }
    if t :| 0 <= t < |turns| && ReachedIn(c, turns, t, x) {
      if t > 0 {
        assert ReachedIn(turns[0].call.after, rest, t - 1, x);
      }
    }
    if t :| 0 <= t < |rest| && ReachedIn(turns[0].call.after, rest, t, x) {
      assert ReachedIn(c, turns, t + 1, x);
    }
  }

  /** Over every run of blocks, however the set changes: the sweep has processed a delegation exactly when
      some block had it in reach. */
  lemma {:induction false} RunReachesExactlyWhen<D>(c: Cursor, turns: seq<Turn<D>>, x: D)
    requires ChangingRun(c, turns) && AllDistinct(turns) && AllInRange(turns)
    ensures x in AllProcessed(Calls(turns)) <==> ReachedInSome(c, turns, x)
    decreases |turns|
  {
    if turns != [] {
      ProcessedFirstOrLater(turns, x);
      CallReachesExactlyWhen(c, turns[0], x);
      ReachedFirstOrLater(c, turns, x);
      RunReachesExactlyWhen(turns[0].call.after, turns[1..], x);
    }
  }

  lemma {:induction false} ProcessedFirstOrLater<D>(turns: seq<Turn<D>>, x: D)
    requires turns != []
    ensures x in AllProcessed(Calls(turns)) <==> x in turns[0].call.processed || x in AllProcessed(Calls(turns[1..]))
    ensures |AllProcessed(Calls(turns))| == |turns[0].call.processed| + |AllProcessed(Calls(turns[1..]))|
  {
    assert Calls(turns)[1..] == Calls(turns[1..]);
  }

  // ---------------------------------------------------------------------------------------
  // What keeps a delegation from starving
  // ---------------------------------------------------------------------------------------

  ghost predicate AlwaysThere<D>(turns: seq<Turn<D>>, x: D) {
    forall t :: 0 <= t < |turns| ==> HasSlot(turns[t].vs, x)
  }

  /** The change of the set after block t puts x further ahead of the cursor than the block left it. */
  ghost predicate PushedBack<D>(turns: seq<Turn<D>>, t: nat, x: D)
    requires t + 1 < |turns| && AlwaysThere(turns, x)
  {
    Distance(turns[t + 1].vs, turns[t].call.after, x) > Distance(turns[t].vs, turns[t].call.after, x)
  }

  ghost predicate NeverPushedBack<D>(turns: seq<Turn<D>>, x: D)
    requires AlwaysThere(turns, x)
  {
    forall t :: 0 <= t < |turns| - 1 ==> !PushedBack(turns, t, x)
  }

  lemma {:induction false} NeverPushedBackRest<D>(turns: seq<Turn<D>>, x: D)
    requires turns != [] && AlwaysThere(turns, x) && NeverPushedBack(turns, x)
    ensures AlwaysThere(turns[1..], x) && NeverPushedBack(turns[1..], x)
  {
    var rest := turns[1..];
    forall t | 0 <= t < |rest| - 1
      ensures !PushedBack(rest, t, x)
    {
      assert !PushedBack(turns, t + 1, x);
    }
  }

  /** As long as no change of the set pushes a delegation back, the sweep reaches it as soon as it has
      processed more slots than were ahead of it. */
  lemma {:induction false} ReachedUnlessPushedBack<D>(c: Cursor, turns: seq<Turn<D>>, x: D)
    requires ChangingRun(c, turns) && AllDistinct(turns) && turns != []
    requires AlwaysThere(turns, x) && NeverPushedBack(turns, x)
    requires |AllProcessed(Calls(turns))| > Distance(turns[0].vs, c, x)
    ensures x in AllProcessed(Calls(turns))
    decreases |turns|
  {
    ProcessedFirstOrLater(turns, x);
    CallMeets(c, turns[0], x);
    if x !in turns[0].call.processed {
      var rest := turns[1..];
      assert rest == [] ==> AllProcessed(Calls(rest)) == [];
      NeverPushedBackRest(turns, x);
      assert !PushedBack(turns, 0, x);
      ReachedUnlessPushedBack(turns[0].call.after, rest, x);
    }
  }

  /** With a positive bound, a call that starts before a validator processes something; one that
      processes nothing ends before a validator. */
  lemma {:induction false} IdleCall<D>(c: Cursor, t: Turn<D>)
    requires Takes(c, t) && |t.vs| > 0 && |Ring(t.vs)| > 0 && t.call.bound >= 1
    requires |t.call.processed| == 0
    ensures c.nextDel != 0 && t.call.after.nextDel == 0
  {
    SlotInRing(t.vs, Start(t.vs, c).nextVal);
    SlotInRing(t.vs, t.call.after.nextVal);
    ShortCallEndsAtValidator(t.vs, c, t.call);
  }

  /** So of two blocks at least one processes something, also while the set changes. */
  lemma {:induction false} EveryOtherBlock<D>(c: Cursor, turns: seq<Turn<D>>, x: D)
    requires ChangingRun(c, turns) && AlwaysThere(turns, x)
    requires forall t :: 0 <= t < |turns| ==> turns[t].call.bound >= 1
    ensures 2 * |AllProcessed(Calls(turns))| + 1 >= |turns|
    ensures c.nextDel == 0 ==> 2 * |AllProcessed(Calls(turns))| >= |turns|
    decreases |turns|
  {
    if turns != [] {
      ProcessedFirstOrLater(turns, x);
      if |turns[0].call.processed| == 0 {
        IdleCall(c, turns[0]);
      }
      EveryOtherBlock(turns[0].call.after, turns[1..], x);
    }
  }

  /** No starvation while the set changes: with positive bounds, a delegation that is d slots ahead and
      that no change pushes back is reached within 2 * d + 3 blocks. */
  lemma {:induction false} ReachedInTime<D>(c: Cursor, turns: seq<Turn<D>>, x: D)
    requires ChangingRun(c, turns) && AllDistinct(turns) && turns != []
    requires AlwaysThere(turns, x) && NeverPushedBack(turns, x)
    requires forall t :: 0 <= t < |turns| ==> turns[t].call.bound >= 1
    requires |turns| >= 2 * Distance(turns[0].vs, c, x) + 3
    ensures x in AllProcessed(Calls(turns))
  {
    EveryOtherBlock(c, turns, x);
    ReachedUnlessPushedBack(c, turns, x);
  }

  // ---------------------------------------------------------------------------------------
  // A delegation that starves
  // ---------------------------------------------------------------------------------------

  /** A block that processes one delegation, a or b, and passes x over, while its validator is in the
      set: in even blocks behind the one of a, in odd blocks before the one of b. */
  ghost predicate PassedOver<D>(t: Turn<D>, even: bool, a: D, x: D, b: D) {
    && t.vs == (if even then [One(a), One(x)] else [One(x), One(b)])
    && t.call == (if even then Call(1, [a], Cursor(1, 0)) else Call(1, [b], Cursor(0, 0)))
  }

  ghost predicate AlwaysPassedOver<D>(turns: seq<Turn<D>>, a: D, x: D, b: D) {
    forall i :: 0 <= i < |turns| ==> PassedOver(turns[i], i % 2 == 0, a, x, b)
  }

  lemma {:induction false} TwoMore<D>(first: Turn<D>, second: Turn<D>, rest: seq<Turn<D>>, a: D, x: D, b: D)
    requires PassedOver(first, true, a, x, b) && PassedOver(second, false, a, x, b)
    requires AlwaysPassedOver(rest, a, x, b)
    ensures AlwaysPassedOver([first, second] + rest, a, x, b)
  {
    var turns := [first, second] + rest;
    forall i | 0 <= i < |turns|
      ensures PassedOver(turns[i], i % 2 == 0, a, x, b)
    {
      if i >= 2 {
        assert turns[i] == rest[i - 2];
        assert PassedOver(rest[i - 2], (i - 2) % 2 == 0, a, x, b);
      }
    }
  }

  lemma {:induction false} RunOfOneMore<D>(c: Cursor, t: Turn<D>, rest: seq<Turn<D>>)
    requires Takes(c, t) && ChangingRun(t.call.after, rest)
    ensures ChangingRun(c, [t] + rest)
  {
    assert ([t] + rest)[1..] == rest;
  }

  /** A delegation that is pushed back again and again may wait for ever: while the validators of a and b, listed
      before and after the one of x, leave and join by turns, every block processes one delegation and
      never x. */
  lemma {:induction false} JoinsAndLeavesStarve<D>(a: D, x: D, b: D, n: nat) returns (turns: seq<Turn<D>>)
    requires x != a && x != b
    ensures |turns| == 2 * n && ChangingRun(Cursor(0, 0), turns) && AlwaysPassedOver(turns, a, x, b)
    ensures x !in AllProcessed(Calls(turns))
    decreases n
  {
    if n == 0 {
      turns := [];
    } else {
      var rest := JoinsAndLeavesStarve(a, x, b, n - 1);
      var first := Turn([One(a), One(x)], Call(1, [a], Cursor(1, 0)));
      var second := Turn([One(x), One(b)], Call(1, [b], Cursor(0, 0)));
      TwoValidators(a, x);
      TwoValidators(x, b);
      RunOfOneMore(Cursor(1, 0), second, rest);
      RunOfOneMore(Cursor(0, 0), first, [second] + rest);
      TwoMore(first, second, rest, a, x, b);
      turns := [first] + ([second] + rest);
      assert turns == [first, second] + rest;
      assert turns[1..] == [second] + rest && ([second] + rest)[1..] == rest;
      ProcessedFirstOrLater(turns, x);
      ProcessedFirstOrLater([second] + rest, x);
    }
  }

  /** A validator with one delegation. */
  function One<D>(x: D): Validator<D> {
    Validator(false, [x])
  }

  lemma {:induction false} TwoValidators<D>(x: D, y: D)
    ensures SweepCall([One(x), One(y)], Cursor(0, 0), 1, [x], Cursor(1, 0))
    ensures SweepCall([One(x), One(y)], Cursor(1, 0), 1, [y], Cursor(0, 0))
  {
    var vs := [One(x), One(y)];
    assert Prefix(vs, 1) == [x];
    assert Prefix(vs, 2) == [x, y];
  }

  lemma {:induction false} RingOfTwo<D>(x: D, y: D)
    ensures var vs := [One(x), One(y)];
            Ring(vs) == [x, y] && Position(vs, Cursor(0, 0)) == 0 && Position(vs, Cursor(1, 0)) == 1
  {
    var vs := [One(x), One(y)];
    assert Prefix(vs, 1) == [x];
    assert Prefix(vs, 2) == [x, y];
  }

  lemma {:induction false} AheadInPair<D>(x: D, y: D)
    requires x != y
    ensures x in [x, y] && y in [x, y]
    ensures Ahead([x, y], 0, x) == 0 && Ahead([x, y], 0, y) == 1
    ensures Ahead([x, y], 1, x) == 1 && Ahead([x, y], 1, y) == 0
  {
    assert [x, y][0] == x && [x, y][1] == y;
  }

  lemma {:induction false} AheadOfTwo<D>(x: D, y: D)
    requires x != y
    ensures HasSlot([One(x), One(y)], x) && HasSlot([One(x), One(y)], y)
    ensures Distance([One(x), One(y)], Cursor(0, 0), x) == 0 && Distance([One(x), One(y)], Cursor(0, 0), y) == 1
    ensures Distance([One(x), One(y)], Cursor(1, 0), x) == 1 && Distance([One(x), One(y)], Cursor(1, 0), y) == 0
  {
    RingOfTwo(x, y);
    AheadInPair(x, y);
  }

  ghost predicate Further<D>(t: Turn<D>, next: Turn<D>, x: D) {
    && HasSlot(t.vs, x) && HasSlot(next.vs, x)
    && Distance(next.vs, t.call.after, x) > Distance(t.vs, t.call.after, x)
  }

  lemma {:induction false} OnePush<D>(t: Turn<D>, next: Turn<D>, even: bool, a: D, x: D, b: D)
    requires x != a && x != b
    requires PassedOver(t, even, a, x, b) && PassedOver(next, !even, a, x, b)
    ensures Further(t, next, x)
  {
    AheadOfTwo(a, x);
    AheadOfTwo(x, b);
  }

  lemma {:induction false} StillThere<D>(t: Turn<D>, even: bool, a: D, x: D, b: D)
    requires x != a && x != b
    requires PassedOver(t, even, a, x, b)
    ensures HasSlot(t.vs, x)
  {
    AheadOfTwo(a, x);
    AheadOfTwo(x, b);
  }

  /** In that run every change of the set pushes x back. */
  lemma {:induction false} StarvingIsPushedBack<D>(turns: seq<Turn<D>>, a: D, x: D, b: D)
    requires x != a && x != b
    requires AlwaysPassedOver(turns, a, x, b)
    ensures AlwaysThere(turns, x)
    ensures forall t :: 0 <= t < |turns| - 1 ==> PushedBack(turns, t, x)
  {
    forall t | 0 <= t < |turns|
      ensures HasSlot(turns[t].vs, x)
    {
      StillThere(turns[t], t % 2 == 0, a, x, b);
    }
    forall t | 0 <= t < |turns| - 1
      ensures PushedBack(turns, t, x)
    {
      assert PassedOver(turns[t + 1], (t + 1) % 2 == 0, a, x, b);
      OnePush(turns[t], turns[t + 1], t % 2 == 0, a, x, b);
    }
  }
}
