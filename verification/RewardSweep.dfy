/** The circular sweep that pays out staking rewards: every block continues where the previous
    one stopped and processes a bounded number of delegations
    (client/x/evmstaking/keeper/withdraw.go, ProcessRewardWithdrawals). */
module RewardSweep {
  import opened Machine

  datatype Validator<D> = Validator(jailed: bool, delegations: seq<D>)

  datatype Cursor = Cursor(nextVal: U64, nextDel: U64)

  /** The delegations of a validator that the sweep pays: none while it is jailed. */
  function Slots<D>(v: Validator<D>): seq<D> {
    if v.jailed then [] else v.delegations
  }

  /** The slots of the first v validators. */
  ghost function Prefix<D>(vs: seq<Validator<D>>, v: nat): seq<D>
    requires v <= |vs|
  {
    if v == 0 then [] else Prefix(vs, v - 1) + Slots(vs[v - 1])
  }

  /** One full round: every slot of the validator set. */
  ghost function Ring<D>(vs: seq<Validator<D>>): seq<D> {
    Prefix(vs, |vs|)
  }

  /** The delegations of its validator that a cursor has passed. */
  ghost function Offset<D>(vs: seq<Validator<D>>, c: Cursor): nat
    requires c.nextVal < |vs|
  {
    var here := |Slots(vs[c.nextVal])|;
    if c.nextDel <= here then c.nextDel else here
  }

  /** The slots of the round that a cursor has passed. */
  ghost function Position<D>(vs: seq<Validator<D>>, c: Cursor): nat
    requires c.nextVal < |vs|
  {
    |Prefix(vs, c.nextVal)| + Offset(vs, c)
  }

  /** A stored cursor beyond the validator set restarts at the first validator. */
  function Start<D>(vs: seq<Validator<D>>, c: Cursor): Cursor {
    if c.nextVal >= |vs| then Cursor(0, 0) else c
  }

  /** The lengths of slices are non-negative int64 values. */
  ghost predicate Slices<D>(vs: seq<Validator<D>>) {
    && |vs| < TWO64 / 2
    && forall i :: 0 <= i < |vs| ==> |vs[i].delegations| < TWO64 / 2
  }

  /** The numbers of delegations, which the source converts to uint32, fit. */
  ghost predicate InRange<D>(vs: seq<Validator<D>>) {
    forall i :: 0 <= i < |vs| ==> |vs[i].delegations| < TWO32
  }

  /** The cursor points at a slot, or before a validator. */
  ghost predicate AtSlot<D>(vs: seq<Validator<D>>, c: Cursor) {
    c.nextVal < |vs| && (c.nextDel == 0 || c.nextDel < |Slots(vs[c.nextVal])|)
  }

  /** The slot i places into a walk round the ring, during the first two rounds. */
  ghost function Track<D>(ring: seq<D>, i: nat): D
    requires i < 2 * |ring|
  {
    if i < |ring| then ring[i] else ring[i - |ring|]
  }

  /** The processed slots are the ones met from position p on. */
  ghost predicate Follows<D>(ring: seq<D>, p: nat, processed: seq<D>) {
    && p + |processed| <= 2 * |ring|
    && forall j :: 0 <= j < |processed| ==> processed[j] == Track(ring, p + j)
  }

  /** What one call does: from cursor c it processes the slots that come next in the round, as
      many as the bound allows and a round has left, and moves the cursor behind them.  Only a
      validator with 2^32 delegations or more can make it process more than the bound. */
  ghost predicate SweepCall<D>(vs: seq<Validator<D>>, c: Cursor, bound: nat, processed: seq<D>, c': Cursor) {
    if |vs| == 0 then processed == [] && c' == Cursor(0, 0)
    else
      var s := Start(vs, c);
      var p, m := Position(vs, s), |processed|;
      var left := |Ring(vs)| - Offset(vs, s);
      && (if bound <= left then bound else left) <= m <= left
      && (InRange(vs) ==> m == if bound <= left then bound else left)
      && Follows(Ring(vs), p, processed)
      && AtSlot(vs, c')
      && (Position(vs, c') == p + m || Position(vs, c') == p + m - |Ring(vs)|)
  }

  lemma {:induction false} PrefixGrows<D>(vs: seq<Validator<D>>, v: nat, v': nat)
    requires v <= v' <= |vs|
    ensures Prefix(vs, v) <= Prefix(vs, v')
    decreases v' - v
  {
    if v < v' {
      PrefixGrows(vs, v, v' - 1);
    }
  }

  lemma {:induction false} SlotInRing<D>(vs: seq<Validator<D>>, v: nat)
    requires v < |vs|
    ensures |Prefix(vs, v)| + |Slots(vs[v])| == |Prefix(vs, v + 1)| <= |Ring(vs)|
    ensures forall d :: 0 <= d < |Slots(vs[v])| ==> Ring(vs)[|Prefix(vs, v)| + d] == Slots(vs[v])[d]
  {
    PrefixGrows(vs, v + 1, |vs|);
  }

  /** A sweep that started at position p, has gone round lap times and stands at c, behind exactly
      the processed slots. */
  ghost predicate Sweeping<D>(vs: seq<Validator<D>>, p: nat, lap: nat, c: Cursor, processed: seq<D>) {
    && c.nextVal < |vs|
    && lap <= 1
    && p + |processed| == (if lap == 0 then 0 else |Ring(vs)|) + Position(vs, c)
    && Follows(Ring(vs), p, processed)
  }

  lemma {:induction false} FollowsOneMore<D>(ring: seq<D>, p: nat, processed: seq<D>, x: D)
    requires Follows(ring, p, processed)
    requires p + |processed| < 2 * |ring| && x == Track(ring, p + |processed|)
    ensures Follows(ring, p, processed + [x])
  {
  }

  lemma {:induction false} SweepOne<D>(vs: seq<Validator<D>>, p: nat, lap: nat, c: Cursor, processed: seq<D>)
    requires Sweeping(vs, p, lap, c, processed)
    requires c.nextDel < |Slots(vs[c.nextVal])| < TWO64
    ensures Sweeping(vs, p, lap, Cursor(c.nextVal, c.nextDel + 1), processed + [Slots(vs[c.nextVal])[c.nextDel]])
  {
    SlotInRing(vs, c.nextVal);
    FollowsOneMore(Ring(vs), p, processed, Slots(vs[c.nextVal])[c.nextDel]);
  }

  /** The cursor after passing validator v. */
  function Next<D>(vs: seq<Validator<D>>, v: U64): Cursor
    requires v < |vs| < TWO64
  {
    if v + 1 < |vs| then Cursor(v + 1, 0) else Cursor(0, 0)
  }

  /** The index of the next validator, round and round. */
  method NextIndex(v: U64, n: U64) returns (next: U64)
    requires v < n
    ensures next == if v + 1 < n then v + 1 else 0
  {
    next := (v + 1) % n;
    ModuloNext(v, n);
  }

  lemma {:induction false} ModuloNext(v: nat, n: nat)
    requires v < n
    ensures (v + 1) % n == if v + 1 < n then v + 1 else 0
  {
  }

  lemma {:induction false} SweepPast<D>(vs: seq<Validator<D>>, p: nat, lap: nat, c: Cursor, processed: seq<D>)
    requires Sweeping(vs, p, lap, c, processed)
    requires |vs| < TWO64
    requires c.nextVal + 1 == |vs| ==> lap == 0
    requires Offset(vs, c) == |Slots(vs[c.nextVal])|
    ensures Sweeping(vs, p, if c.nextVal + 1 < |vs| then lap else lap + 1, Next(vs, c.nextVal), processed)
  {
    SlotInRing(vs, c.nextVal);
  }

  /** Where a sweep from validator v0 stands after passing i validators. */
  ghost predicate AtStep(n: nat, v0: nat, i: nat, lap: nat, v: nat) {
    && lap == (if v0 + i < n then 0 else 1)
    && v == (if v0 + i < n then v0 + i else v0 + i - n)
  }

  /** A sweep processes no more than the round from s has left, and exactly that much once it has
      passed every validator. */
  lemma {:induction false} SweepLength<D>(vs: seq<Validator<D>>, s: Cursor, i: nat, lap: nat, c: Cursor,
                                          processed: seq<D>)
    requires s.nextVal < |vs|
    requires Sweeping(vs, Position(vs, s), lap, c, processed)
    requires AtStep(|vs|, s.nextVal, i, lap, c.nextVal)
    requires i < |vs| || (i == |vs| && c.nextDel == 0)
    ensures |processed| <= |Ring(vs)| - Offset(vs, s)
    ensures i == |vs| ==> |processed| == |Ring(vs)| - Offset(vs, s)
  {
    SlotInRing(vs, c.nextVal);
    if lap == 1 && i < |vs| {
      PrefixGrows(vs, c.nextVal + 1, s.nextVal);
    }
  }

  /** The loop of a sweep from s, after passing i validators. */
  ghost predicate Looping<D>(vs: seq<Validator<D>>, s: Cursor, i: nat, lap: nat, c: Cursor, processed: seq<D>)
    requires s.nextVal < |vs|
  {
    && i <= |vs|
    && AtStep(|vs|, s.nextVal, i, lap, c.nextVal)
    && Sweeping(vs, Position(vs, s), lap, c, processed)
  }

  lemma {:induction false} LoopStarts<D>(vs: seq<Validator<D>>, s: Cursor)
    requires s.nextVal < |vs|
    ensures Looping(vs, s, 0, 0, s, [])
  {
    SlotInRing(vs, s.nextVal);
  }

  /** Passing a validator that has nothing left to process. */
  lemma {:induction false} LoopPasses<D>(vs: seq<Validator<D>>, s: Cursor, i: nat, lap: nat, c: Cursor,
                                         processed: seq<D>, lap': nat, v': U64)
    requires s.nextVal < |vs| < TWO64 && i < |vs|
    requires Looping(vs, s, i, lap, c, processed)
    requires Offset(vs, c) == |Slots(vs[c.nextVal])|
    requires lap' == if c.nextVal + 1 < |vs| then lap else lap + 1
    requires v' == if c.nextVal + 1 < |vs| then c.nextVal + 1 else 0
    ensures Looping(vs, s, i + 1, lap', Cursor(v', 0), processed)
  {
    SweepPast(vs, Position(vs, s), lap, c, processed);
  }

  /** A sweep that stops inside a validator, or has passed them all, has done its call. */
  lemma {:induction false} LoopEnds<D>(vs: seq<Validator<D>>, s: Cursor, bound: nat, i: nat, lap: nat, c: Cursor,
                                       processed: seq<D>)
    requires s.nextVal < |vs|
    requires Looping(vs, s, i, lap, c, processed)
    requires AtSlot(vs, c)
    requires i == |vs| ==> c.nextDel == 0
    requires i < |vs| ==> bound <= |processed|
    requires InRange(vs) ==> |processed| <= bound
    ensures SweepCall(vs, s, bound, processed, c)
  {
    SweepLength(vs, s, i, lap, c, processed);
  }

  /** The loop over the validator set, from a cursor inside it. */
  method SweepFrom<D>(vs: seq<Validator<D>>, s: Cursor, sweepBound: U32) returns (processed: seq<D>, c: Cursor)
    requires Slices(vs)
    requires s.nextVal < |vs|
    ensures SweepCall(vs, s, sweepBound, processed, c)
  {
    var v: U64, d: U64 := s.nextVal, s.nextDel;
    var swept: U32 := 0;
    processed := [];
    ghost var lap := 0;
    LoopStarts(vs, s);
    var i := 0;
    while i < |vs|
      invariant 0 <= i <= |vs|
      invariant Looping(vs, s, i, lap, Cursor(v, d), processed)
      invariant swept <= sweepBound && swept <= |processed|
      invariant InRange(vs) ==> swept == |processed|
      invariant i > 0 ==> d == 0
    {
      if vs[v].jailed || d >= |vs[v].delegations| {
        var next := NextIndex(v, |vs|);
        ghost var lap' := if v + 1 < |vs| then lap else lap + 1;
        LoopPasses(vs, s, i, lap, Cursor(v, d), processed, lap', next);
        v, d, i, lap := next, 0, i + 1, lap';
        continue;
      }
      var count, stop := 0, false;
      processed, d, count, stop :=
        ProcessDelegations(vs, Cursor(v, d), sweepBound - swept, processed, Position(vs, s), lap);
      if stop {
        LoopEnds(vs, s, sweepBound, i, lap, Cursor(v, d), processed);
        return processed, Cursor(v, d);
      }
      swept := swept + count;
      var next := NextIndex(v, |vs|);
      ghost var lap' := if v + 1 < |vs| then lap else lap + 1;
      LoopPasses(vs, s, i, lap, Cursor(v, d), processed, lap', next);
      v, d, i, lap := next, 0, i + 1, lap';
    }
    c := Cursor(v, d);
    LoopEnds(vs, s, sweepBound, i, lap, c, processed);
  }

  class Sweep {
    var cursor: Cursor

    constructor ()
      ensures cursor == Cursor(0, 0)
    {
      cursor := Cursor(0, 0);
    }

    method ProcessRewardWithdrawals<D>(vs: seq<Validator<D>>, sweepBound: U32) returns (processed: seq<D>)
      requires Slices(vs)
      modifies this
      ensures SweepCall(vs, old(cursor), sweepBound, processed, cursor)
    {
      var s := cursor;
      if s.nextVal >= |vs| {
        s := Cursor(0, 0);
      }
      processed := [];
      if |vs| > 0 {
        processed, s := SweepFrom(vs, s, sweepBound);
      }
      cursor := s;
    }
  }

  /** The conversion of a length to uint32. */
  function Low32(n: nat): (r: U32)
    ensures r <= n && (n < TWO32 ==> r == n)
  {
    n % TWO32
  }

  /** Processes the delegations of one validator from the cursor on, one after the other, and
      stops early when more than remaining of them, counted in uint32, are left. */
  method ProcessDelegations<D>(vs: seq<Validator<D>>, c: Cursor, remaining: U32, before: seq<D>, ghost p: nat,
                               ghost lap: nat)
    returns (processed: seq<D>, d: U64, count: U32, stop: bool)
    requires Slices(vs)
    requires Sweeping(vs, p, lap, c, before)
    requires !vs[c.nextVal].jailed && c.nextDel < |vs[c.nextVal].delegations|
    ensures Sweeping(vs, p, lap, Cursor(c.nextVal, d), processed)
    ensures stop <==> Low32(|vs[c.nextVal].delegations| - c.nextDel) > remaining
    ensures d == if stop then c.nextDel + remaining else |vs[c.nextVal].delegations|
    ensures stop ==> d < |vs[c.nextVal].delegations|
    ensures count <= remaining && count <= d - c.nextDel && (InRange(vs) ==> count == d - c.nextDel)
    ensures |processed| == |before| + d - c.nextDel
  {
    var next := vs[c.nextVal].delegations[c.nextDel..];
    stop := false;
    if Low32(|next|) > remaining {
      next := next[..remaining];
      stop := true;
    }
    count := Low32(|next|);
    processed, d := before, c.nextDel;
    for j := 0 to |next|
      invariant d == c.nextDel + j && |processed| == |before| + j
      invariant Sweeping(vs, p, lap, Cursor(c.nextVal, d), processed)
    {
      SweepOne(vs, p, lap, Cursor(c.nextVal, d), processed);
      processed := processed + [next[j]];
      d := d + 1;
    }
  }

  // ---------------------------------------------------------------------------------------
  // Runs of blocks over one validator set
  // ---------------------------------------------------------------------------------------

  datatype Call<D> = Call(bound: nat, processed: seq<D>, after: Cursor)

  /** Calls of the sweep, one after the other, each from the cursor the previous one stored. */
  ghost predicate SweepRun<D>(vs: seq<Validator<D>>, c: Cursor, calls: seq<Call<D>>)
    decreases |calls|
  {
    calls == [] ||
    (&& SweepCall(vs, c, calls[0].bound, calls[0].processed, calls[0].after)
     && SweepRun(vs, calls[0].after, calls[1..]))
  }

  ghost function AllProcessed<D>(calls: seq<Call<D>>): seq<D>
    decreases |calls|
  {
    if calls == [] then [] else calls[0].processed + AllProcessed(calls[1..])
  }

  /** The slot i places into a walk round and round the ring. */
  ghost function Around<D>(ring: seq<D>, i: nat): D
    requires |ring| > 0
  {
    if i < |ring| then ring[i] else Around(ring, i - |ring|)
  }

  /** all is what a walk round and round the ring meets from position p on. */
  ghost predicate Walks<D>(ring: seq<D>, p: nat, all: seq<D>)
    requires |ring| > 0
  {
    forall j :: 0 <= j < |all| ==> all[j] == Around(ring, p + j)
  }

  /** Over every run of blocks the sweep is a strict round-robin: the j-th delegation it ever
      processes is the one j places further round the ring from where it started, whatever the
      bounds of the single blocks. */
  lemma {:induction false} RoundRobin<D>(vs: seq<Validator<D>>, c: Cursor, calls: seq<Call<D>>)
    requires |vs| > 0 && |Ring(vs)| > 0
    requires SweepRun(vs, c, calls)
    ensures Walks(Ring(vs), Position(vs, Start(vs, c)), AllProcessed(calls))
    decreases |calls|
  {
    if calls != [] {
      RoundRobin(vs, calls[0].after, calls[1..]);
      CallThenRest(Ring(vs), Position(vs, Start(vs, c)), Position(vs, calls[0].after),
                   calls[0].processed, AllProcessed(calls[1..]));
    }
  }

  lemma {:induction false} CallThenRest<D>(ring: seq<D>, p: nat, p': nat, first: seq<D>, rest: seq<D>)
    requires |ring| > 0
    requires Follows(ring, p, first)
    requires p' == p + |first| || p' + |ring| == p + |first|
    requires Walks(ring, p', rest)
    ensures Walks(ring, p, first + rest)
  {
    forall j | 0 <= j < |first + rest|
      ensures (first + rest)[j] == Around(ring, p + j)
    {
      if j >= |first| {
        assert (first + rest)[j] == rest[j - |first|];
        assert Around(ring, p' + (j - |first|)) == Around(ring, p + j);
      }
    }
  }

  lemma {:induction false} RotationIsPermutation<D>(ring: seq<D>, q: nat, window: seq<D>)
    requires q < |ring| == |window|
    requires forall j :: 0 <= j < |ring| ==> window[j] == Track(ring, q + j)
    ensures multiset(window) == multiset(ring)
  {
    assert window == ring[q..] + ring[..q];
    assert ring == ring[..q] + ring[q..];
  }

  ghost function Reduce(x: nat, t: nat): (q: nat)
    requires t > 0
    ensures q < t
  {
    if x < t then x else Reduce(x - t, t)
  }

  lemma {:induction false} AroundFrom<D>(ring: seq<D>, x: nat, j: nat)
    requires j < |ring|
    ensures Around(ring, x + j) == Track(ring, Reduce(x, |ring|) + j)
    decreases x
  {
    if x >= |ring| {
      AroundFrom(ring, x - |ring|, j);
    }
  }

  /** The payments from the i-th on, as many as the ring has slots, pay every slot once. */
  ghost predicate PaysEachOnce<D>(ring: seq<D>, all: seq<D>, i: nat)
    requires i + |ring| <= |all|
  {
    multiset(all[i..i + |ring|]) == multiset(ring)
  }

  /** Fairness: between any delegation's turn and its next one, every other has exactly one turn;
      as many consecutive payments as the ring has slots pay each slot once. */
  lemma {:induction false} EachRoundPaysAll<D>(vs: seq<Validator<D>>, c: Cursor, calls: seq<Call<D>>, i: nat)
    requires |vs| > 0 && |Ring(vs)| > 0
    requires SweepRun(vs, c, calls)
    requires i + |Ring(vs)| <= |AllProcessed(calls)|
    ensures PaysEachOnce(Ring(vs), AllProcessed(calls), i)
  {
    RoundRobin(vs, c, calls);
    WindowPaysAll(Ring(vs), Position(vs, Start(vs, c)), AllProcessed(calls), i);
  }

  lemma {:induction false} WindowPaysAll<D>(ring: seq<D>, p: nat, all: seq<D>, i: nat)
    requires |ring| > 0
    requires i + |ring| <= |all|
    requires Walks(ring, p, all)
    ensures PaysEachOnce(ring, all, i)
  {
    var q := Reduce(p + i, |ring|);
    var window := all[i..i + |ring|];
    forall j | 0 <= j < |ring|
      ensures window[j] == Track(ring, q + j)
    {
      assert window[j] == all[i + j];
      AroundFrom(ring, p + i, j);
    }
    RotationIsPermutation(ring, q, window);
  }

  /** Every call but possibly the first makes progress. */
  lemma {:induction false} Progress<D>(vs: seq<Validator<D>>, c: Cursor, calls: seq<Call<D>>)
    requires |vs| > 0 && |Ring(vs)| > 0
    requires SweepRun(vs, c, calls)
    requires forall k :: 0 <= k < |calls| ==> calls[k].bound >= 1
    ensures |AllProcessed(calls)| + 1 >= |calls|
    ensures AtSlot(vs, c) ==> |AllProcessed(calls)| >= |calls|
    decreases |calls|
  {
    if calls != [] {
      SlotInRing(vs, Start(vs, c).nextVal);
      Progress(vs, calls[0].after, calls[1..]);
    }
  }

  lemma {:induction false} RoundIsPart<D>(ring: seq<D>, all: seq<D>)
    requires |ring| <= |all| && PaysEachOnce(ring, all, 0)
    ensures multiset(ring) <= multiset(all)
  {
    assert all == all[0..|ring|] + all[|ring|..];
  }

  /** No starvation: with a positive bound in every block, one block more than the ring has slots
      is enough to pay every delegation of every validator that is not jailed. */
  lemma {:induction false} NoStarvation<D>(vs: seq<Validator<D>>, c: Cursor, calls: seq<Call<D>>)
    requires |vs| > 0
    requires SweepRun(vs, c, calls)
    requires forall k :: 0 <= k < |calls| ==> calls[k].bound >= 1
    requires |calls| > |Ring(vs)|
    ensures multiset(Ring(vs)) <= multiset(AllProcessed(calls))
  {
    if |Ring(vs)| > 0 {
      Progress(vs, c, calls);
      EachRoundPaysAll(vs, c, calls, 0);
      RoundIsPart(Ring(vs), AllProcessed(calls));
    }
  }

  /** What a bound allows in one round. */
  function Capped(bound: nat, round: nat): nat {
    if bound <= round then bound else round
  }

  function CappedSum<D>(calls: seq<Call<D>>, round: nat): nat
    decreases |calls|
  {
    if calls == [] then 0 else Capped(calls[0].bound, round) + CappedSum(calls[1..], round)
  }

  /** A call moves at most as far into a validator as it processes. */
  lemma {:induction false} OffsetGrows<D>(vs: seq<Validator<D>>, c: Cursor, call: Call<D>)
    requires |vs| > 0
    requires SweepCall(vs, c, call.bound, call.processed, call.after)
    ensures Offset(vs, call.after) <= Offset(vs, Start(vs, c)) + |call.processed|
  {
    var v, v' := Start(vs, c).nextVal, call.after.nextVal;
    SlotInRing(vs, v);
    SlotInRing(vs, v');
    if v < v' {
      PrefixGrows(vs, v + 1, v');
    } else if v' < v {
      PrefixGrows(vs, v' + 1, v);
    }
  }

  /** A call that processes less than its bound allows in a round ends before a validator. */
  lemma {:induction false} ShortCallEndsAtValidator<D>(vs: seq<Validator<D>>, c: Cursor, call: Call<D>)
    requires |vs| > 0
    requires SweepCall(vs, c, call.bound, call.processed, call.after)
    requires |call.processed| < Capped(call.bound, |Ring(vs)|)
    ensures |call.processed| == |Ring(vs)| - Offset(vs, Start(vs, c))
    ensures call.after.nextDel == 0
  {
    var v, v' := Start(vs, c).nextVal, call.after.nextVal;
    SlotInRing(vs, v);
    SlotInRing(vs, v');
    if v' < v {
      PrefixGrows(vs, v' + 1, v);
    } else if v < v' {
      PrefixGrows(vs, v, v');
    }
  }

  /** A walk that started before a validator, and is not round yet, loses nothing to the ends of calls. */
  lemma {:induction false} NothingLost<D>(vs: seq<Validator<D>>, c: Cursor, calls: seq<Call<D>>, walked: nat)
    requires |vs| > 0 && SweepRun(vs, c, calls)
    requires Offset(vs, Start(vs, c)) <= walked
    requires walked + |AllProcessed(calls)| < |Ring(vs)|
    ensures CappedSum(calls, |Ring(vs)|) <= |AllProcessed(calls)|
    decreases |calls|
  {
    if calls != [] {
      OffsetGrows(vs, c, calls[0]);
      if |calls[0].processed| < Capped(calls[0].bound, |Ring(vs)|) {
        ShortCallEndsAtValidator(vs, c, calls[0]);
      }
      NothingLost(vs, calls[0].after, calls[1..], walked + |calls[0].processed|);
    }
  }

  /** A walk that is not round yet loses at most one round to the ends of calls. */
  lemma {:induction false} AtMostOneRoundLost<D>(vs: seq<Validator<D>>, c: Cursor, calls: seq<Call<D>>)
    requires |vs| > 0 && SweepRun(vs, c, calls)
    requires |AllProcessed(calls)| < |Ring(vs)|
    ensures CappedSum(calls, |Ring(vs)|) <= |AllProcessed(calls)| + |Ring(vs)|
    decreases |calls|
  {
    if calls != [] {
      if |calls[0].processed| < Capped(calls[0].bound, |Ring(vs)|) {
        ShortCallEndsAtValidator(vs, c, calls[0]);
        NothingLost(vs, calls[0].after, calls[1..], 0);
      } else {
        AtMostOneRoundLost(vs, calls[0].after, calls[1..]);
      }
    }
  }

  /** How soon: as soon as the bounds of the blocks, each counted for at most one round, add up to two
      rounds, every delegation of every validator that is not jailed has been paid. */
  lemma {:induction false} TwoRoundsOfBoundsPayAll<D>(vs: seq<Validator<D>>, c: Cursor, calls: seq<Call<D>>)
    requires |vs| > 0
    requires SweepRun(vs, c, calls)
    requires CappedSum(calls, |Ring(vs)|) >= 2 * |Ring(vs)|
    ensures multiset(Ring(vs)) <= multiset(AllProcessed(calls))
  {
    if |Ring(vs)| > 0 {
      if |AllProcessed(calls)| < |Ring(vs)| {
        AtMostOneRoundLost(vs, c, calls);
      } else {
        EachRoundPaysAll(vs, c, calls, 0);
        RoundIsPart(Ring(vs), AllProcessed(calls));
      }
    }
  }
}
