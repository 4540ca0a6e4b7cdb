/** Software upgrades: forks planned at fixed heights (client/app/upgrades.go), upgrades announced
    by contract events (client/x/evmengine/keeper/upgrades.go), and the block hook that hands both
    to the upgrade module (client/app/app.go, PreBlocker). */
module Upgrades {
  import opened Machine

  // ---------------------------------------------------------------------------------------
  // The networks
  // ---------------------------------------------------------------------------------------

  datatype Chain = Test | Local | Localnet | Aeneid | Story | Unknown

  datatype Upgrade = Virgil | Ovid | V121 | Polybius | Terence

  /** The table of upgrade heights in lib/netconf/upgrades.go. */
  function History(chain: Chain): map<Upgrade, int> {
    match chain
    case Test => map[V121 := 10, Terence := 50]
    case Local => map[V121 := 0, Terence := 50]
    case Localnet => map[V121 := 0, Terence := 0]
    case Aeneid => map[Virgil := 345158, Ovid := 4362990, V121 := 5238000, Polybius := 6008000, Terence := 10886688]
    case Story => map[Virgil := 809988, Ovid := 4477880, V121 := 5084300, Polybius := 8270000, Terence := 11538000]
    case Unknown => map[]
  }

  function GetUpgradeHeight(chain: Chain, name: Upgrade): Option<int> {
    if name in History(chain) then Some(History(chain)[name]) else None
  }

  /** The heights the fork packages carry themselves; Terence asks the table. */
  function ForkHeight(chain: Chain, fork: Upgrade): Option<int> {
    match fork
    case Virgil => if chain == Aeneid then Some(345158) else if chain == Story then Some(809988) else None
    case Ovid => if chain == Aeneid then Some(4362990) else if chain == Story then Some(4477880) else None
    case Polybius => if chain == Aeneid then Some(6008000) else if chain == Story then Some(8270000) else None
    case Terence => GetUpgradeHeight(chain, Terence)
    case V121 => None
  }

  const FORKS: seq<Upgrade> := [Virgil, Ovid, Polybius, Terence]

  /** The two tables agree on every fork of every chain. */
  lemma {:induction false} TablesAgree(chain: Chain, fork: Upgrade)
    requires fork in FORKS
    ensures ForkHeight(chain, fork) == GetUpgradeHeight(chain, fork)
  {
  }

  // ---------------------------------------------------------------------------------------
  // The state
  // ---------------------------------------------------------------------------------------

  datatype Plan = Plan(name: string, height: int, info: string)

  datatype UpgradeError = Invalid | InvalidRequest | PendingExists | UnknownChain | Refused

  /** The forks, their heights on the chain and the height of Terence (None for an unknown chain), the names and
      infos of the forks, and what the upgrade module knows: which plans are well formed, which
      upgrades are already done at a height, and whether it can clear its plan. */
  datatype Env = Env(
    forks: seq<Upgrade>,
    forkHeight: Upgrade -> Option<int>,
    terence: Option<int>,
    forkName: Upgrade -> string,
    forkInfo: Upgrade -> string,
    wellFormed: Plan -> bool,
    done: (string, int) -> bool,
    clears: int -> bool)

  /** The environment reads its heights from the tables of a chain. */
  ghost predicate OnChain(env: Env, chain: Chain) {
    && env.forks == FORKS
    && (forall f :: env.forkHeight(f) == ForkHeight(chain, f))
    && env.terence == GetUpgradeHeight(chain, Terence)
  }

  function TerenceActive(env: Env, height: int): Option<bool> {
    if env.terence.Some? then Some(height >= env.terence.value) else None
  }

  function ForkPlan(env: Env, fork: Upgrade, height: int): Plan {
    Plan(env.forkName(fork), height, env.forkInfo(fork))
  }

  /** The pending upgrade of the evmengine module, the plan of the upgrade module, and the forks
      scheduled so far. */
  datatype State = State(pending: Option<Plan>, scheduled: Option<Plan>, forked: seq<Upgrade>)

  const START := State(None, None, [])

  /** The upgrade module refuses a plan for a height below the current block, for an upgrade that is
      already done, or that is not well formed. */
  predicate Accepts(env: Env, p: Plan, height: int) {
    env.wellFormed(p) && height <= p.height && !env.done(p.name, height)
  }

  /** It takes a plan, replacing any other, or refuses it. */
  function Schedule(env: Env, s: State, p: Plan, height: int): Result<State, UpgradeError> {
    if Accepts(env, p, height) then Ok(s.(scheduled := Some(p))) else Err(Refused)
  }

  /** The forks from index i on that fall on this height, scheduled in order. */
  function ScheduleForks(env: Env, s: State, height: int, i: nat): Result<State, UpgradeError>
    requires i <= |env.forks|
    decreases |env.forks| - i
  {
    if i == |env.forks| then Ok(s)
    else if env.forkHeight(env.forks[i]) != Some(height) then ScheduleForks(env, s, height, i + 1)
    else
      match Schedule(env, s, ForkPlan(env, env.forks[i], height), height)
      case Err(e) => Err(e)
      case Ok(s1) => ScheduleForks(env, s1.(forked := s1.forked + [env.forks[i]]), height, i + 1)
  }

  predicate ShouldUpgrade(s: State, height: int) {
    s.pending.Some? && height >= s.pending.value.height
  }

  /** The hook at the start of a block: forks first, then a pending upgrade whose height has come.
      An error stops the block, and with it the chain. */
  function PreBlock(env: Env, s: State, height: int): Result<State, UpgradeError> {
    match ScheduleForks(env, s, height, 0)
    case Err(e) => Err(e)
    case Ok(s1) =>
      if !ShouldUpgrade(s1, height) then Ok(s1)
      else
        match Schedule(env, s1, s1.pending.value, height)
        case Err(e) => Err(e)
        case Ok(s2) => Ok(s2.(pending := None))
  }

  datatype Event = Announce(plan: Plan) | Cancel

  /** One contract event of the block; a rejected event leaves the state alone. */
  function Handle(env: Env, s: State, height: int, e: Event): (State, Result<(), UpgradeError>) {
    var active := TerenceActive(env, height);
    if active.None? then (s, Err(UnknownChain))
    else
      match e
      case Announce(p) =>
        if active.value then
          if !env.wellFormed(p) then (s, Err(Invalid))
          else if p.height < height then (s, Err(InvalidRequest))
          else if s.pending.Some? then (s, Err(PendingExists))
          else (s.(pending := Some(p)), Ok(()))
        else if Accepts(env, p, height) then (s.(scheduled := Some(p)), Ok(()))
        else (s, Err(Refused))
      case Cancel =>
        if active.value then (s.(pending := None), Ok(()))
        else if env.clears(height) then (s.(scheduled := None), Ok(()))
        else (s, Err(Refused))
  }

  class App {
    const env: Env
    var pending: Option<Plan>
    var scheduled: Option<Plan>
    ghost var forked: seq<Upgrade>

    constructor (env: Env)
      ensures this.env == env && View() == START
    {
      this.env := env;
      pending, scheduled, forked := None, None, [];
    }

    ghost function View(): State
      reads this
    {
      State(pending, scheduled, forked)
    }

    method ScheduleForkUpgrade(height: int) returns (r: Result<(), UpgradeError>)
      modifies this
      ensures r.Ok? <==> ScheduleForks(env, old(View()), height, 0).Ok?
      ensures r.Ok? ==> View() == ScheduleForks(env, old(View()), height, 0).value
    {
      for i := 0 to |env.forks|
        invariant ScheduleForks(env, old(View()), height, 0) == ScheduleForks(env, View(), height, i)
      {
        var upgradeHeight := env.forkHeight(env.forks[i]);
        if upgradeHeight.None? {
          continue;
        }
        if height == upgradeHeight.value {
          var plan := ForkPlan(env, env.forks[i], height);
          if !Accepts(env, plan, height) {
            return Err(Refused);
          }
          scheduled := Some(plan);
          forked := forked + [env.forks[i]];
        }
      }
      r := Ok(());
    }

    method PreBlocker(height: int) returns (r: Result<(), UpgradeError>)
      modifies this
      ensures r.Ok? <==> PreBlock(env, old(View()), height).Ok?
      ensures r.Ok? ==> View() == PreBlock(env, old(View()), height).value
    {
      r := ScheduleForkUpgrade(height);
      if r.Err? {
        return;
      }
      if pending.Some? && height >= pending.value.height {
        if !Accepts(env, pending.value, height) {
          return Err(Refused);
        }
        scheduled := pending;
        pending := None;
      }
    }

    method ProcessUpgradeEvent(height: int, e: Event) returns (r: Result<(), UpgradeError>)
      modifies this
      ensures (View(), r) == Handle(env, old(View()), height, e)
    {
      var active := TerenceActive(env, height);
      if active.None? {
        return Err(UnknownChain);
      }
      match e {
        case Announce(p) =>
          if active.value {
            if !env.wellFormed(p) {
              return Err(Invalid);
            }
            if p.height < height {
              return Err(InvalidRequest);
            }
            if pending.Some? {
              return Err(PendingExists);
            }
            pending := Some(p);
          } else {
            if !Accepts(env, p, height) {
              return Err(Refused);
            }
            scheduled := Some(p);
          }
        case Cancel =>
          if active.value {
            pending := None;
          } else {
            if !env.clears(height) {
              return Err(Refused);
            }
            scheduled := None;
          }
      }
      r := Ok(());
    }
  }

  // ---------------------------------------------------------------------------------------
  // Runs of blocks
  // ---------------------------------------------------------------------------------------

  function HandleAll(env: Env, s: State, height: int, es: seq<Event>): State
    decreases |es|
  {
    if es == [] then s else HandleAll(env, Handle(env, s, height, es[0]).0, height, es[1..])
  }

  /** Blocks at consecutive heights, from the given one on. */
  function RunBlocks(env: Env, s: State, height: int, blocks: seq<seq<Event>>): Result<State, UpgradeError>
    decreases |blocks|
  {
    if blocks == [] then Ok(s)
    else
      match PreBlock(env, s, height)
      case Err(e) => Err(e)
      case Ok(s1) => RunBlocks(env, HandleAll(env, s1, height, blocks[0]), height + 1, blocks[1..])
  }

  lemma {:induction false} RunSplit(env: Env, s: State, height: int, xs: seq<seq<Event>>, ys: seq<seq<Event>>)
    ensures RunBlocks(env, s, height, xs + ys).Ok? ==>
              && RunBlocks(env, s, height, xs).Ok?
              && RunBlocks(env, s, height, xs + ys) ==
                  RunBlocks(env, RunBlocks(env, s, height, xs).value, height + |xs|, ys)
    decreases |xs|
  {
    if xs == [] {
      assert xs + ys == ys;
    } else {
      assert (xs + ys)[1..] == xs[1..] + ys;
      if PreBlock(env, s, height).Ok? {
        RunSplit(env, HandleAll(env, PreBlock(env, s, height).value, height, xs[0]), height + 1, xs[1..], ys);
      }
    }
  }

  // ---------------------------------------------------------------------------------------
  // Forks
  // ---------------------------------------------------------------------------------------

  /** No fork is listed twice. */
  ghost predicate DistinctNames(env: Env) {
    forall i, j :: 0 <= i < j < |env.forks| ==> env.forks[i] != env.forks[j]
  }

  /** No two forks share a height. */
  ghost predicate DistinctHeights(env: Env) {
    forall i, j :: 0 <= i < j < |env.forks| && env.forkHeight(env.forks[i]).Some? ==>
        env.forkHeight(env.forks[i]) != env.forkHeight(env.forks[j])
  }

  /** No block after the one at Terence's height has a fork. */
  ghost predicate ForksComeFirst(env: Env) {
    forall i :: 0 <= i < |env.forks| && env.forkHeight(env.forks[i]).Some? && env.terence.Some? ==>
      env.forkHeight(env.forks[i]).value <= env.terence.value
  }

  lemma {:induction false} DistinctForks(chain: Chain, i: nat, j: nat)
    requires i < j < |FORKS|
    requires ForkHeight(chain, FORKS[i]).Some? || ForkHeight(chain, FORKS[j]).Some?
    ensures ForkHeight(chain, FORKS[i]) != ForkHeight(chain, FORKS[j])
  {
    TablesAgree(chain, FORKS[i]);
    TablesAgree(chain, FORKS[j]);
  }

  lemma {:induction false} ForkBeforeTerence(chain: Chain, i: nat)
    requires i < |FORKS| && ForkHeight(chain, FORKS[i]).Some? && GetUpgradeHeight(chain, Terence).Some?
    ensures ForkHeight(chain, FORKS[i]).value <= GetUpgradeHeight(chain, Terence).value
  {
    TablesAgree(chain, FORKS[i]);
  }

  /** The tables of every chain are in order. */
  lemma {:induction false} ChainsInOrder(env: Env, chain: Chain)
    requires OnChain(env, chain)
    ensures DistinctNames(env) && DistinctHeights(env) && ForksComeFirst(env)
  {
    forall i, j | 0 <= i < j < |env.forks| && env.forkHeight(env.forks[i]).Some?
      ensures env.forkHeight(env.forks[i]) != env.forkHeight(env.forks[j])
    {
      DistinctForks(chain, i, j);
    }
    forall i | 0 <= i < |env.forks| && env.forkHeight(env.forks[i]).Some? && env.terence.Some?
      ensures env.forkHeight(env.forks[i]).value <= env.terence.value
    {
      ForkBeforeTerence(chain, i);
    }
  }

  /** The forks from index i on that fall on a height. */
  function ForksAt(env: Env, height: int, i: nat): seq<Upgrade>
    requires i <= |env.forks|
    decreases |env.forks| - i
  {
    if i == |env.forks| then []
    else (if env.forkHeight(env.forks[i]) == Some(height) then [env.forks[i]] else []) + ForksAt(env, height, i + 1)
  }

  /** The upgrade module accepts the plans of the forks from index i on that fall on a height. */
  ghost predicate ForksAccepted(env: Env, height: int, i: nat) {
    forall j :: i <= j < |env.forks| && env.forkHeight(env.forks[j]) == Some(height) ==>
        Accepts(env, ForkPlan(env, env.forks[j], height), height)
  }

  /** The hook schedules exactly the forks of its height, in order, and keeps what is pending; it
      succeeds exactly when they are all accepted. */
  lemma {:induction false} ForksScheduled(env: Env, s: State, height: int, i: nat)
    requires i <= |env.forks|
    ensures ScheduleForks(env, s, height, i).Ok? <==> ForksAccepted(env, height, i)
    ensures ScheduleForks(env, s, height, i).Ok? ==>
              var s' := ScheduleForks(env, s, height, i).value;
              && s'.pending == s.pending
              && s'.forked == s.forked + ForksAt(env, height, i)
              && (ForksAt(env, height, i) == [] ==> s' == s)
    decreases |env.forks| - i
  {
    if i < |env.forks| {
      if env.forkHeight(env.forks[i]) != Some(height) {
        ForksScheduled(env, s, height, i + 1);
      } else if Accepts(env, ForkPlan(env, env.forks[i], height), height) {
        var s1 := s.(scheduled := Some(ForkPlan(env, env.forks[i], height)), forked := s.forked + [env.forks[i]]);
        ForksScheduled(env, s1, height, i + 1);
        assert ForksAccepted(env, height, i) <==> ForksAccepted(env, height, i + 1);
        assert s.forked + [env.forks[i]] + ForksAt(env, height, i + 1) == s.forked + ForksAt(env, height, i);
      }
    }
  }

  lemma {:induction false} NoForkAt(env: Env, height: int, i: nat)
    requires i <= |env.forks|
    requires forall j :: i <= j < |env.forks| ==> env.forkHeight(env.forks[j]) != Some(height)
    ensures ForksAt(env, height, i) == []
    decreases |env.forks| - i
  {
    if i < |env.forks| {
      NoForkAt(env, height, i + 1);
    }
  }

  /** With distinct heights, a block has the one fork that falls on it, and never two. */
  lemma {:induction false} OneForkAt(env: Env, height: int, k: nat, i: nat)
    requires DistinctHeights(env)
    requires i <= k < |env.forks| && env.forkHeight(env.forks[k]) == Some(height)
    ensures ForksAt(env, height, i) == [env.forks[k]]
    decreases k - i
  {
    if i < k {
      OneForkAt(env, height, k, i + 1);
    } else {
      NoForkAt(env, height, k + 1);
    }
  }

  /** And the plan it leaves is that fork's. */
  lemma {:induction false} ForkLeavesItsPlan(env: Env, s: State, height: int, k: nat, i: nat)
    requires DistinctHeights(env)
    requires i <= k < |env.forks| && env.forkHeight(env.forks[k]) == Some(height)
    requires ScheduleForks(env, s, height, i).Ok?
    ensures ScheduleForks(env, s, height, i).value.scheduled == Some(ForkPlan(env, env.forks[k], height))
    decreases k - i
  {
    if i < k {
      ForkLeavesItsPlan(env, s, height, k, i + 1);
    } else {
      NoForkAt(env, height, k + 1);
      var s1 := s.(scheduled := Some(ForkPlan(env, env.forks[k], height)), forked := s.forked + [env.forks[k]]);
      ForksScheduled(env, s1, height, k + 1);
    }
  }

  function Times(fs: seq<Upgrade>, f: Upgrade): nat {
    if fs == [] then 0 else (if fs[0] == f then 1 else 0) + Times(fs[1..], f)
  }

  lemma {:induction false} TimesCons(x: Upgrade, xs: seq<Upgrade>, f: Upgrade)
    ensures Times([x] + xs, f) == (if x == f then 1 else 0) + Times(xs, f)
  {
    assert ([x] + xs)[1..] == xs;
  }

  lemma {:induction false} TimesConcat(xs: seq<Upgrade>, ys: seq<Upgrade>, f: Upgrade)
    ensures Times(xs + ys, f) == Times(xs, f) + Times(ys, f)
    decreases |xs|
  {
    if xs == [] {
      assert xs + ys == ys;
    } else {
      assert (xs + ys)[1..] == xs[1..] + ys;
      TimesConcat(xs[1..], ys, f);
    }
  }

  /** How often a block schedules a fork. */
  lemma {:induction false} CountAt(env: Env, height: int, k: nat, i: nat)
    requires DistinctNames(env)
    requires i <= |env.forks| && k < |env.forks|
    ensures Times(ForksAt(env, height, i), env.forks[k]) ==
            if i <= k && env.forkHeight(env.forks[k]) == Some(height) then 1 else 0
    decreases |env.forks| - i
  {
    if i < |env.forks| {
      var rest := ForksAt(env, height, i + 1);
      CountAt(env, height, k, i + 1);
      TimesCons(env.forks[i], rest, env.forks[k]);
      assert [] + rest == rest;
    }
  }

  /** The forks that n blocks from a height on have. */
  function ForksOver(env: Env, height: int, n: nat): seq<Upgrade>
    decreases n
  {
    if n == 0 then [] else ForksAt(env, height, 0) + ForksOver(env, height + 1, n - 1)
  }

  lemma {:induction false} FallsInFirst(h: Option<int>, height: int, n: nat)
    requires n > 0
    ensures FallsWithin(h, height, n) <==> h == Some(height) || FallsWithin(h, height + 1, n - 1)
    ensures h == Some(height) ==> !FallsWithin(h, height + 1, n - 1)
  {
  }

  lemma {:induction false} CountOver(env: Env, height: int, n: nat, k: nat)
    requires DistinctNames(env) && k < |env.forks|
    ensures Times(ForksOver(env, height, n), env.forks[k]) ==
            if FallsWithin(env.forkHeight(env.forks[k]), height, n) then 1 else 0
    decreases n
  {
    if n > 0 {
      CountAt(env, height, k, 0);
      CountOver(env, height + 1, n - 1, k);
      TimesConcat(ForksAt(env, height, 0), ForksOver(env, height + 1, n - 1), env.forks[k]);
      FallsInFirst(env.forkHeight(env.forks[k]), height, n);
    }
  }

  ghost predicate FallsWithin(h: Option<int>, height: int, n: nat) {
    h.Some? && height <= h.value < height + n
  }

  lemma {:induction false} EventsKeepForked(env: Env, s: State, height: int, es: seq<Event>)
    ensures HandleAll(env, s, height, es).forked == s.forked
    decreases |es|
  {
    if es != [] {
      EventsKeepForked(env, Handle(env, s, height, es[0]).0, height, es[1..]);
    }
  }

  lemma {:induction false} Regroup(xs: seq<Upgrade>, ys: seq<Upgrade>, zs: seq<Upgrade>)
    ensures xs + ys + zs == xs + (ys + zs)
  {
  }

  /** What the hook of a block adds to the record. */
  lemma {:induction false} BlockForks(env: Env, s: State, height: int, es: seq<Event>)
    requires PreBlock(env, s, height).Ok?
    ensures HandleAll(env, PreBlock(env, s, height).value, height, es).forked == s.forked + ForksAt(env, height, 0)
  {
    ForksScheduled(env, s, height, 0);
    EventsKeepForked(env, PreBlock(env, s, height).value, height, es);
  }

  lemma {:induction false} RunForks(env: Env, s: State, height: int, blocks: seq<seq<Event>>)
    requires RunBlocks(env, s, height, blocks).Ok?
    ensures RunBlocks(env, s, height, blocks).value.forked == s.forked + ForksOver(env, height, |blocks|)
    decreases |blocks|
  {
    if blocks != [] {
      BlockForks(env, s, height, blocks[0]);
      RunForks(env, HandleAll(env, PreBlock(env, s, height).value, height, blocks[0]), height + 1, blocks[1..]);
      Regroup(s.forked, ForksAt(env, height, 0), ForksOver(env, height + 1, |blocks| - 1));
    }
  }

  /** In every run from the first block on, whatever is announced, each fork is scheduled exactly once
      if the run reaches its height, and otherwise never. */
  lemma {:induction false} EachForkOnce(env: Env, blocks: seq<seq<Event>>, k: nat)
    requires DistinctNames(env) && k < |env.forks|
    requires RunBlocks(env, START, 1, blocks).Ok?
    ensures Times(RunBlocks(env, START, 1, blocks).value.forked, env.forks[k]) ==
            if FallsWithin(env.forkHeight(env.forks[k]), 1, |blocks|) then 1 else 0
  {
    RunForks(env, START, 1, blocks);
    assert START.forked + ForksOver(env, 1, |blocks|) == ForksOver(env, 1, |blocks|);
    CountOver(env, 1, |blocks|, k);
  }

  lemma {:induction false} EventsBeforeTerence(env: Env, s: State, height: int, es: seq<Event>)
    requires s.pending.None? && (env.terence.Some? ==> height < env.terence.value)
    ensures HandleAll(env, s, height, es).pending.None?
    decreases |es|
  {
    if es != [] {
      EventsBeforeTerence(env, Handle(env, s, height, es[0]).0, height, es[1..]);
    }
  }

  /** Nothing is pending before Terence. */
  lemma {:induction false} NothingPending(env: Env, s: State, height: int, blocks: seq<seq<Event>>)
    requires s.pending.None? && (env.terence.Some? ==> height + |blocks| <= env.terence.value)
    requires RunBlocks(env, s, height, blocks).Ok?
    ensures RunBlocks(env, s, height, blocks).value.pending.None?
    decreases |blocks|
  {
    if blocks != [] {
      ForksScheduled(env, s, height, 0);
      var s1 := PreBlock(env, s, height).value;
      EventsBeforeTerence(env, s1, height, blocks[0]);
      NothingPending(env, HandleAll(env, s1, height, blocks[0]), height + 1, blocks[1..]);
    }
  }

  /** In every run from the first block on, nothing is pending when a fork's block comes: the hook
      succeeds there exactly when the fork's plan is accepted, and the plan it leaves is the fork's,
      replaced neither by another fork nor by an announced upgrade. */
  lemma {:induction false} ForkPlanStands(env: Env, blocks: seq<seq<Event>>, k: nat)
    requires DistinctHeights(env) && ForksComeFirst(env)
    requires k < |env.forks| && env.forkHeight(env.forks[k]) == Some(|blocks| + 1)
    requires RunBlocks(env, START, 1, blocks).Ok?
    ensures var height := |blocks| + 1;
            var p := ForkPlan(env, env.forks[k], height);
            var r := PreBlock(env, RunBlocks(env, START, 1, blocks).value, height);
            && (r.Ok? <==> Accepts(env, p, height))
            && (r.Ok? ==> r.value.scheduled == Some(p) && r.value.pending.None?)
            && p.name == env.forkName(env.forks[k]) && p.info == env.forkInfo(env.forks[k]) && p.height == height
  {
    var s, height := RunBlocks(env, START, 1, blocks).value, |blocks| + 1;
    NothingPending(env, START, 1, blocks);
    ForksScheduled(env, s, height, 0);
    forall j | 0 <= j < |env.forks| && env.forkHeight(env.forks[j]) == Some(height)
      ensures j == k
    {
    }
    if ScheduleForks(env, s, height, 0).Ok? {
      ForkLeavesItsPlan(env, s, height, k, 0);
    }
  }

  lemma {:induction false} SometimesIsIn(fs: seq<Upgrade>, f: Upgrade)
    ensures Times(fs, f) > 0 <==> f in fs
    decreases |fs|
  {
    if fs != [] {
      SometimesIsIn(fs[1..], f);
      assert f in fs <==> f == fs[0] || f in fs[1..];
    }
  }

  /** In every run from the first block on, the rules of Terence are in force exactly when the fork has
      been scheduled, from the block that schedules it on; provided its height is one that a block can
      have.  With a height below 1 they are in force from the start and no block ever schedules it. */
  lemma {:induction false} TerenceActiveFromItsBlock(env: Env, blocks: seq<seq<Event>>, k: nat, g: int)
    requires DistinctNames(env) && k < |env.forks| && env.forks[k] == Terence
    requires env.forkHeight(Terence) == env.terence == Some(g)
    requires |blocks| >= 1 && RunBlocks(env, START, 1, blocks).Ok?
    ensures var forked := RunBlocks(env, START, 1, blocks).value.forked;
            (TerenceActive(env, |blocks|) == Some(true) <==> Terence in forked) <==> g >= 1
  {
    EachForkOnce(env, blocks, k);
    SometimesIsIn(RunBlocks(env, START, 1, blocks).value.forked, Terence);
  }

  /** On every chain with upgrades the environment lists Terence, at the height of the table; that is below
      1 on the local network only. */
  lemma {:induction false} TerenceOnChains(env: Env, chain: Chain)
    requires OnChain(env, chain) && chain != Unknown
    ensures env.forks[3] == Terence && env.terence.Some? && env.forkHeight(Terence) == env.terence
    ensures env.terence.value >= 1 <==> chain != Localnet
  {
    assert env.forkHeight(Terence) == ForkHeight(chain, Terence);
  }

  // ---------------------------------------------------------------------------------------
  // Announced upgrades
  // ---------------------------------------------------------------------------------------

  ghost predicate NoCancel(blocks: seq<seq<Event>>) {
    forall i, j :: 0 <= i < |blocks| && 0 <= j < |blocks[i]| ==> blocks[i][j].Announce?
  }

  lemma {:induction false} AnnouncesKeepPending(env: Env, s: State, height: int, es: seq<Event>)
    requires s.pending.Some?
    requires forall j :: 0 <= j < |es| ==> es[j].Announce?
    ensures HandleAll(env, s, height, es).pending == s.pending
    decreases |es|
  {
    if es != [] {
      AnnouncesKeepPending(env, Handle(env, s, height, es[0]).0, height, es[1..]);
    }
  }

  /** As long as nothing is cancelled, a pending upgrade stays pending through every block below
      its height, whatever else is announced. */
  lemma {:induction false} PendingWaits(env: Env, s: State, height: int, blocks: seq<seq<Event>>)
    requires s.pending.Some? && NoCancel(blocks)
    requires RunBlocks(env, s, height, blocks).Ok?
    requires height + |blocks| <= s.pending.value.height || blocks == []
    ensures RunBlocks(env, s, height, blocks).value.pending == s.pending
    decreases |blocks|
  {
    if blocks != [] {
      ForksScheduled(env, s, height, 0);
      var s1 := PreBlock(env, s, height).value;
      AnnouncesKeepPending(env, s1, height, blocks[0]);
      PendingWaits(env, HandleAll(env, s1, height, blocks[0]), height + 1, blocks[1..]);
    }
  }

  /** A due upgrade is handed over exactly when the upgrade module accepts it and the forks of the
      block; otherwise the block fails. */
  lemma {:induction false} DueBlock(env: Env, s: State, height: int)
    requires ShouldUpgrade(s, height)
    ensures var p, r := s.pending.value, PreBlock(env, s, height);
            && (r.Ok? <==> ForksAccepted(env, height, 0) && Accepts(env, p, height))
            && (r.Ok? ==> r.value.pending.None? && r.value.scheduled == Some(p))
  {
    ForksScheduled(env, s, height, 0);
  }

  /** The blocks between an announcement in block b and the block where the upgrade is due. */
  function Gap(p: Plan, b: int): nat {
    if p.height > b then p.height - b - 1 else 0
  }

  /** An upgrade accepted in block b while Terence is active is still pending when it is due.  The block
      where it is due hands it over if and only if it was announced for a later block than b and the
      upgrade module accepts it, and the forks of that height, there. */
  lemma {:induction false} HandedOverExactlyWhen(env: Env, s: State, b: int, p: Plan, blocks: seq<seq<Event>>)
    requires TerenceActive(env, b) == Some(true)
    requires Handle(env, s, b, Announce(p)).1.Ok?
    requires NoCancel(blocks) && |blocks| == Gap(p, b)
    requires RunBlocks(env, Handle(env, s, b, Announce(p)).0, b + 1, blocks).Ok?
    ensures var s' := RunBlocks(env, Handle(env, s, b, Announce(p)).0, b + 1, blocks).value;
            var due := b + 1 + |blocks|;
            var r := PreBlock(env, s', due);
            && s'.pending == Some(p) && ShouldUpgrade(s', due)
            && (r.Ok? <==> p.height > b && Accepts(env, p, p.height) && ForksAccepted(env, p.height, 0))
            && (r.Ok? ==> due == p.height && r.value.pending.None? && r.value.scheduled == Some(p))
  {
    var s1 := Handle(env, s, b, Announce(p)).0;
    PendingWaits(env, s1, b + 1, blocks);
    DueBlock(env, RunBlocks(env, s1, b + 1, blocks).value, b + 1 + |blocks|);
  }

  /** So a chain that goes on past that block without a cancellation has handed the upgrade over.  In
      particular an upgrade announced for block b itself, which the guard lets through, stops the
      chain at the next block, whatever happens in it. */
  lemma {:induction false} HandedOverOrStopped(env: Env, s: State, b: int, p: Plan, blocks: seq<seq<Event>>)
    requires TerenceActive(env, b) == Some(true)
    requires Handle(env, s, b, Announce(p)).1.Ok?
    requires |blocks| > Gap(p, b) && NoCancel(blocks[..Gap(p, b)])
    ensures RunBlocks(env, Handle(env, s, b, Announce(p)).0, b + 1, blocks).Ok? ==>
              p.height > b && Accepts(env, p, p.height) && ForksAccepted(env, p.height, 0)
    ensures p.height == b ==> RunBlocks(env, Handle(env, s, b, Announce(p)).0, b + 1, blocks).Err?
  {
    var s1, n := Handle(env, s, b, Announce(p)).0, Gap(p, b);
    assert blocks == blocks[..n] + blocks[n..];
    RunSplit(env, s1, b + 1, blocks[..n], blocks[n..]);
    if RunBlocks(env, s1, b + 1, blocks).Ok? {
      HandedOverExactlyWhen(env, s, b, p, blocks[..n]);
    }
  }

  /** When an announcement is accepted, and what it does: after Terence it makes the plan pending, before
      it goes straight to the upgrade module. */
  lemma {:induction false} AnnouncedExactlyWhen(env: Env, s: State, height: int, p: Plan)
    ensures var (s', r) := Handle(env, s, height, Announce(p));
            var known := env.terence.Some?;
            var active := known && height >= env.terence.value;
            && (active ==> (r.Ok? <==> env.wellFormed(p) && height <= p.height && s.pending.None?))
            && (active && r.Ok? ==> s' == State(Some(p), s.scheduled, s.forked))
            && (known && !active ==> (r.Ok? <==> env.wellFormed(p) && height <= p.height && !env.done(p.name, height)))
            && (known && !active && r.Ok? ==> s' == State(s.pending, Some(p), s.forked))
            && (r.Err? ==> s' == s)
            && (!known ==> r == Err(UnknownChain))
  {
  }

  /** What a cancellation does: after Terence it always succeeds and leaves nothing pending; before, it
      succeeds exactly when the upgrade module clears its plan, and leaves nothing scheduled. */
  lemma {:induction false} CancelledExactlyWhen(env: Env, s: State, height: int)
    ensures var (s', r) := Handle(env, s, height, Cancel);
            var known := env.terence.Some?;
            var active := known && height >= env.terence.value;
            && (active ==> r.Ok? && s' == State(None, s.scheduled, s.forked))
            && (known && !active ==> (r.Ok? <==> env.clears(height)))
            && (known && !active && r.Ok? ==> s' == State(s.pending, None, s.forked))
            && (r.Err? ==> s' == s)
            && (!known ==> r == Err(UnknownChain))
  {
  }

  /** Cancelling undoes an accepted announcement. */
  lemma {:induction false} CancelUndoesAnnounce(env: Env, s: State, height: int, height': int, p: Plan)
    requires TerenceActive(env, height) == Some(true) && height <= height'
    requires Handle(env, s, height, Announce(p)).1.Ok?
    ensures Handle(env, Handle(env, s, height, Announce(p)).0, height', Cancel) == (s, Ok(()))
  {
  }

  ghost predicate Announces(es: seq<Event>, p: Plan) {
    Announce(p) in es
  }

  ghost predicate NeverAnnounced(blocks: seq<seq<Event>>, p: Plan) {
    forall i :: 0 <= i < |blocks| ==> !Announces(blocks[i], p)
  }

  /** The plan is the one that some fork schedules. */
  ghost predicate IsForkPlan(env: Env, p: Plan) {
    exists k :: 0 <= k < |env.forks| && p == ForkPlan(env, env.forks[k], p.height)
  }

  /** The plan is neither pending nor scheduled. */
  ghost predicate Absent(s: State, p: Plan) {
    s.pending != Some(p) && s.scheduled != Some(p)
  }

  lemma {:induction false} EventsKeepAbsent(env: Env, s: State, height: int, es: seq<Event>, p: Plan)
    requires Absent(s, p) && !Announces(es, p)
    ensures Absent(HandleAll(env, s, height, es), p)
    decreases |es|
  {
    if es != [] {
      assert es[0] != Announce(p);
      EventsKeepAbsent(env, Handle(env, s, height, es[0]).0, height, es[1..], p);
    }
  }

  lemma {:induction false} ForksKeepAbsent(env: Env, s: State, height: int, i: nat, p: Plan)
    requires i <= |env.forks| && Absent(s, p) && !IsForkPlan(env, p)
    ensures ScheduleForks(env, s, height, i).Ok? ==> Absent(ScheduleForks(env, s, height, i).value, p)
    decreases |env.forks| - i
  {
    if i < |env.forks| {
      var q := ForkPlan(env, env.forks[i], height);
      assert q != p;
      ForksKeepAbsent(env, s, height, i + 1, p);
      ForksKeepAbsent(env, s.(scheduled := Some(q), forked := s.forked + [env.forks[i]]), height, i + 1, p);
    }
  }

  lemma {:induction false} BlocksKeepAbsent(env: Env, s: State, height: int, blocks: seq<seq<Event>>, p: Plan)
    requires Absent(s, p) && !IsForkPlan(env, p) && NeverAnnounced(blocks, p)
    requires RunBlocks(env, s, height, blocks).Ok?
    ensures Absent(RunBlocks(env, s, height, blocks).value, p)
    decreases |blocks|
  {
    if blocks != [] {
      ForksKeepAbsent(env, s, height, 0, p);
      var s1 := PreBlock(env, s, height).value;
      EventsKeepAbsent(env, s1, height, blocks[0], p);
      BlocksKeepAbsent(env, HandleAll(env, s1, height, blocks[0]), height + 1, blocks[1..], p);
    }
  }

  /** A cancelled upgrade is gone, be it a pending one after Terence or a scheduled one before: whatever
      follows the cancellation in its block and in any number of later blocks, the upgrade is neither
      pending nor handed over, unless it is announced again. */
  lemma {:induction false} CancelledStaysOut(env: Env, s: State, b: int, p: Plan, rest: seq<Event>,
                                             blocks: seq<seq<Event>>)
    requires Handle(env, s, b, Cancel).1.Ok?
    requires if TerenceActive(env, b) == Some(true) then s.scheduled != Some(p) else s.pending != Some(p)
    requires !IsForkPlan(env, p) && !Announces(rest, p) && NeverAnnounced(blocks, p)
    ensures var s1 := HandleAll(env, s, b, [Cancel] + rest);
            RunBlocks(env, s1, b + 1, blocks).Ok? ==> Absent(RunBlocks(env, s1, b + 1, blocks).value, p)
  {
    CancelledExactlyWhen(env, s, b);
    assert ([Cancel] + rest)[1..] == rest;
    EventsKeepAbsent(env, Handle(env, s, b, Cancel).0, b, rest, p);
    var s1 := HandleAll(env, s, b, [Cancel] + rest);
    if RunBlocks(env, s1, b + 1, blocks).Ok? {
      BlocksKeepAbsent(env, s1, b + 1, blocks, p);
    }
  }
}
