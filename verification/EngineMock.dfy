/** The execution engine that the repository's tests run against
    (lib/ethclient/enginemock.go): a head block, a store of payloads by id, and event logs that
    are pending until a block claims them.  Hashing, payload ids and block validation are
    parameters; Go's order of iteration over the payloads and the fuzzed header fields are
    arguments of the calls that use them. */
module EngineMock {
  import opened Machine

  type Hash = nat
  type PayloadId = nat
  type Address = nat
  type Root = nat

  datatype Header = Header(
    number: U64,
    parent: Hash,
    timestamp: U64,
    feeRecipient: Address,
    random: Hash,
    fuzzed: nat)

  /** Execution payload data: header fields, withdrawals and the hash it claims to have. */
  datatype Payload = Payload(header: Header, withdrawals: seq<nat>, blockHash: Hash)

  datatype Args = Args(params: Payload, beaconRoot: Root)

  datatype Block = Block(hash: Hash, parent: Hash, number: U64)

  datatype Attributes = Attributes(timestamp: U64, feeRecipient: Address, random: Hash, beaconRoot: Root)

  datatype Log = Log(address: Address, data: nat)

  datatype Query = Query(blockHash: Option<Hash>, addresses: seq<Address>)

  datatype EngineError = RandomError | InvalidPayload | BlockNotFound | NotChild | NoId | PayloadNotFound

  /** The outside world: block hashing, the other validity checks of a payload, payload ids (which
      may fail to encode) and the genesis payload. */
  datatype Env = Env(
    hashOf: (Header, seq<nat>, Root) -> Hash,
    decodes: Args -> bool,
    idOf: Args -> Option<PayloadId>,
    genesis: Args)

  function BlockHash(env: Env, a: Args): Hash {
    env.hashOf(a.params.header, a.params.withdrawals, a.beaconRoot)
  }

  function BlockOf(env: Env, a: Args): Block {
    Block(BlockHash(env, a), a.params.header.parent, a.params.header.number)
  }

  /** A payload converts to a block when it is well formed and its claimed hash is its hash. */
  predicate Converts(env: Env, a: Args) {
    env.decodes(a) && BlockHash(env, a) == a.params.blockHash
  }

  function MakePayload(env: Env, fuzzed: nat, height: U64, parent: Hash, at: Attributes): Option<Payload> {
    var header := Header(height, parent, at.timestamp, at.feeRecipient, at.random, fuzzed);
    var p := Payload(header, [], env.hashOf(header, [], at.beaconRoot));
    if Converts(env, Args(p, at.beaconRoot)) then Some(p) else None
  }

  predicate VerifyChild(parent: Block, child: Block) {
    Add64(parent.number, 1) == child.number && parent.hash == child.parent
  }

  /** Equal block hashes mean equal headers. */
  ghost predicate HashInjective(env: Env) {
    forall a, b :: BlockHash(env, a) == BlockHash(env, b) ==> a.params.header == b.params.header
  }

  /** Equal payload ids mean equal payloads. */
  ghost predicate IdInjective(env: Env) {
    forall a, b :: env.idOf(a).Some? && env.idOf(a) == env.idOf(b) ==> a == b
  }

  datatype State = State(
    head: Option<Block>,
    payloads: map<PayloadId, Args>,
    pending: map<Address, seq<Log>>,
    logs: map<Hash, seq<Log>>)

  /** The head block; genesis until one has been stored. */
  function Head(env: Env, s: State): Block {
    if s.head.Some? then s.head.value else BlockOf(env, env.genesis)
  }

  /** An order in which a range over the payloads may visit them. */
  ghost predicate Visits(payloads: map<PayloadId, Args>, order: seq<PayloadId>) {
    forall id :: id in order <==> id in payloads
  }

  // ---------------------------------------------------------------------------------------
  // The calls as functions of the state
  // ---------------------------------------------------------------------------------------

  datatype Scan = Invalid | Missing | Found(args: Args)

  /** Looks for a payload with the given hash; a payload that does not convert ends the search. */
  function ScanFor(env: Env, payloads: map<PayloadId, Args>, order: seq<PayloadId>, hash: Hash): Scan
    requires forall id :: id in order ==> id in payloads
  {
    if order == [] then Missing
    else
      var a := payloads[order[0]];
      if !Converts(env, a) then Invalid
      else if BlockHash(env, a) == hash then Found(a)
      else ScanFor(env, payloads, order[1..], hash)
  }

  function WithHead(env: Env, s: State): State {
    s.(head := Some(Head(env, s)))
  }

  /** The first half of a forkchoice update: maybe move the head. */
  function MoveHead(env: Env, s: State, hash: Hash, order: seq<PayloadId>)
    : (State, Result<Option<PayloadId>, EngineError>)
    requires Visits(s.payloads, order)
  {
    var head, s0 := Head(env, s), WithHead(env, s);
    if head.hash == hash then (s0, Ok(None))
    else
      match ScanFor(env, s.payloads, order, hash)
      case Invalid => (s0, Err(InvalidPayload))
      case Missing => (s0, Err(BlockNotFound))
      case Found(a) =>
        if !VerifyChild(head, BlockOf(env, a)) then (s0, Err(NotChild))
        else
          (s0.(head := Some(BlockOf(env, a))),
           if env.idOf(a).Some? then Ok(env.idOf(a)) else Err(NoId))
  }

  /** The second half: store a new payload, numbered after the head the call started from. */
  function StartBuild(env: Env, s: State, oldHead: Block, hash: Hash, at: Attributes, fuzzed: nat)
    : (State, Result<Option<PayloadId>, EngineError>)
  {
    match MakePayload(env, fuzzed, Add64(oldHead.number, 1), hash, at)
    case None => (s, Err(InvalidPayload))
    case Some(p) =>
      var a := Args(p, at.beaconRoot);
      match env.idOf(a)
      case None => (s, Err(NoId))
      case Some(id) => (s.(payloads := s.payloads[id := a]), Ok(Some(id)))
  }

  function Forkchoice(env: Env, s: State, hash: Hash, attrs: Option<Attributes>, fuzzed: nat, order: seq<PayloadId>)
    : (State, Result<Option<PayloadId>, EngineError>)
    requires Visits(s.payloads, order)
  {
    var (s1, r) := MoveHead(env, s, hash, order);
    if r.Err? || attrs.None? then (s1, r)
    else StartBuild(env, s1, Head(env, s), hash, attrs.value, fuzzed)
  }

  function NewPayload(env: Env, s: State, params: Payload, beaconRoot: Root): (State, Result<(), EngineError>) {
    var a := Args(params.(withdrawals := []), beaconRoot);
    match env.idOf(a)
    case None => (s, Err(NoId))
    case Some(id) => (s.(payloads := s.payloads[id := a]), Ok(()))
  }

  function GetPayload(s: State, id: PayloadId): Result<Payload, EngineError> {
    if id in s.payloads then Ok(s.payloads[id].params) else Err(PayloadNotFound)
  }

  function OfAddress(logs: seq<Log>, a: Address): seq<Log> {
    if logs == [] then []
    else (if logs[0].address == a then [logs[0]] else []) + OfAddress(logs[1..], a)
  }

  function Filter(s: State, q: Query): (State, seq<Log>) {
    if q.blockHash.None? || |q.addresses| == 0 then (s, [])
    else
      var h, a := q.blockHash.value, q.addresses[0];
      if h in s.logs then (s, OfAddress(s.logs[h], a))
      else if a !in s.pending then (s, [])
      else (s.(logs := s.logs[h := s.pending[a]], pending := s.pending - {a}), s.pending[a])
  }

  // ---------------------------------------------------------------------------------------
  // The engine
  // ---------------------------------------------------------------------------------------

  class Engine {
    const env: Env
    var head: Option<Block>
    var payloads: map<PayloadId, Args>
    var pendingLogs: map<Address, seq<Log>>
    var logs: map<Hash, seq<Log>>

    constructor (env: Env, pending: map<Address, seq<Log>>)
      ensures this.env == env && View() == State(None, map[], pending, map[])
    {
      this.env := env;
      head, payloads, pendingLogs, logs := None, map[], pending, map[];
    }

    ghost function View(): State
      reads this
    {
      State(head, payloads, pendingLogs, logs)
    }

    method GetHeadBlock() returns (b: Block)
      modifies this
      ensures View() == WithHead(env, old(View()))
      ensures b == Head(env, old(View())) == Head(env, View())
    {
      if head.None? {
        head := Some(BlockOf(env, env.genesis));
      }
      b := head.value;
    }

    method BlockNumber(randomError: bool) returns (r: Result<U64, EngineError>)
      modifies this
      ensures View() == if randomError then old(View()) else WithHead(env, old(View()))
      ensures r == if randomError then Err(RandomError) else Ok(Head(env, old(View())).number)
    {
      if randomError {
        return Err(RandomError);
      }
      var b := GetHeadBlock();
      r := Ok(b.number);
    }

    method NewPayloadV3(params: Payload, beaconRoot: Root, randomError: bool) returns (r: Result<(), EngineError>)
      modifies this
      ensures (View(), r) == if randomError then (old(View()), Err(RandomError))
                             else NewPayload(env, old(View()), params, beaconRoot)
    {
      if randomError {
        return Err(RandomError);
      }
      var args := Args(params.(withdrawals := []), beaconRoot);
      var id := env.idOf(args);
      if id.None? {
        return Err(NoId);
      }
      payloads := payloads[id.value := args];
      r := Ok(());
    }

    method ForkchoiceUpdatedV3(hash: Hash, attrs: Option<Attributes>, fuzzed: nat, order: seq<PayloadId>,
                               randomError: bool)
      returns (r: Result<Option<PayloadId>, EngineError>)
      requires Visits(payloads, order)
      modifies this
      ensures (View(), r) == if randomError then (old(View()), Err(RandomError))
                             else Forkchoice(env, old(View()), hash, attrs, fuzzed, order)
    {
      if randomError {
        return Err(RandomError);
      }
      r := Ok(None);
      var headBlock := GetHeadBlock();
      if headBlock.hash != hash {
        var found := ScanPayloads(hash, order);
        match found {
          case Invalid => return Err(InvalidPayload);
          case Missing => return Err(BlockNotFound);
          case Found(args) =>
            if !VerifyChild(headBlock, BlockOf(env, args)) {
              return Err(NotChild);
            }
            head := Some(BlockOf(env, args));
            var id := env.idOf(args);
            if id.None? {
              return Err(NoId);
            }
            r := Ok(id);
        }
      }
      if attrs.Some? {
        var payload := MakePayload(env, fuzzed, Add64(headBlock.number, 1), hash, attrs.value);
        if payload.None? {
          return Err(InvalidPayload);
        }
        var args := Args(payload.value, attrs.value.beaconRoot);
        var id := env.idOf(args);
        if id.None? {
          return Err(NoId);
        }
        payloads := payloads[id.value := args];
        r := Ok(id);
      }
    }

    /** The loop over the stored payloads. */
    method ScanPayloads(hash: Hash, order: seq<PayloadId>) returns (r: Scan)
      requires Visits(payloads, order)
      ensures r == ScanFor(env, payloads, order, hash)
    {
      for i := 0 to |order|
        invariant ScanFor(env, payloads, order, hash) == ScanFor(env, payloads, order[i..], hash)
      {
        var args := payloads[order[i]];
        if !Converts(env, args) {
          return Invalid;
        }
        if BlockHash(env, args) == hash {
          return Found(args);
        }
      }
      r := Missing;
    }

    method GetPayloadV3(id: PayloadId, randomError: bool) returns (r: Result<Payload, EngineError>)
      ensures r == if randomError then Err(RandomError) else GetPayload(View(), id)
    {
      if randomError {
        return Err(RandomError);
      }
      if id !in payloads {
        return Err(PayloadNotFound);
      }
      r := Ok(payloads[id].params);
    }

    method FilterLogs(q: Query) returns (r: seq<Log>)
      modifies this
      ensures (View(), r) == Filter(old(View()), q)
    {
      if q.blockHash.None? || |q.addresses| == 0 {
        return [];
      }
      var addr := q.addresses[0];
      if q.blockHash.value in logs {
        r := SelectLogs(logs[q.blockHash.value], addr);
        return;
      }
      if addr !in pendingLogs {
        return [];
      }
      r := pendingLogs[addr];
      logs := logs[q.blockHash.value := r];
      pendingLogs := pendingLogs - {addr};
    }
  }

  method SelectLogs(eventLogs: seq<Log>, addr: Address) returns (resp: seq<Log>)
    ensures resp == OfAddress(eventLogs, addr)
  {
    resp := [];
    for i := 0 to |eventLogs|
      invariant resp + OfAddress(eventLogs[i..], addr) == OfAddress(eventLogs, addr)
    {
      if eventLogs[i].address == addr {
        resp := resp + [eventLogs[i]];
      }
    }
  }

  // ---------------------------------------------------------------------------------------
  // Runs
  // ---------------------------------------------------------------------------------------

  datatype Op =
    | ReadHead
    | SubmitPayload(params: Payload, beaconRoot: Root)
    | UpdateForkchoice(hash: Hash, attrs: Option<Attributes>, fuzzed: nat, order: seq<PayloadId>)
    | FetchPayload(id: PayloadId)
    | QueryLogs(q: Query)

  ghost predicate Valid(s: State, op: Op) {
    op.UpdateForkchoice? ==> Visits(s.payloads, op.order)
  }

  /** The state after one call; a call that ends in a random error changes nothing and is left
      out of the run. */
  ghost function Apply(env: Env, s: State, op: Op): State
    requires Valid(s, op)
  {
    match op
    case ReadHead => WithHead(env, s)
    case SubmitPayload(p, root) => NewPayload(env, s, p, root).0
    case UpdateForkchoice(h, at, fz, order) => Forkchoice(env, s, h, at, fz, order).0
    case FetchPayload(_) => s
    case QueryLogs(q) => Filter(s, q).0
  }

  ghost predicate ValidRun(env: Env, s: State, ops: seq<Op>)
    decreases |ops|
  {
    ops == [] || (Valid(s, ops[0]) && ValidRun(env, Apply(env, s, ops[0]), ops[1..]))
  }

  ghost function Run(env: Env, s: State, ops: seq<Op>): State
    requires ValidRun(env, s, ops)
    decreases |ops|
  {
    if ops == [] then s else Run(env, Apply(env, s, ops[0]), ops[1..])
  }

  /** The successive heads of a run. */
  ghost function Heads(env: Env, s: State, ops: seq<Op>): seq<Block>
    requires ValidRun(env, s, ops)
    decreases |ops|
  {
    if ops == [] then [Head(env, s)]
    else
      var s1 := Apply(env, s, ops[0]);
      (if Head(env, s1) == Head(env, s) then [] else [Head(env, s)]) + Heads(env, s1, ops[1..])
  }

  /** Each block is the hash-linked child of the one before. */
  ghost predicate Linked(bs: seq<Block>) {
    forall i :: 0 <= i < |bs| - 1 ==>
      bs[i + 1].parent == bs[i].hash && bs[i + 1].number == (bs[i].number + 1) % TWO64
  }

  /** The block of some stored payload that converts. */
  ghost predicate Stored(env: Env, payloads: map<PayloadId, Args>, b: Block) {
    exists id :: id in payloads && Converts(env, payloads[id]) && BlockOf(env, payloads[id]) == b
  }

  lemma {:induction false} ScanFinds(env: Env, payloads: map<PayloadId, Args>, order: seq<PayloadId>, hash: Hash)
    requires forall id :: id in order ==> id in payloads
    ensures var r := ScanFor(env, payloads, order, hash);
            r.Found? ==>
              && (exists id :: id in order && payloads[id] == r.args)
              && Converts(env, r.args) && BlockHash(env, r.args) == hash
    decreases |order|
  {
    if order != [] {
      assert order[0] in order;
      ScanFinds(env, payloads, order[1..], hash);
    }
  }

  /** A call moves the head only as a forkchoice update that finds a stored payload with the
      requested hash that is a child of the head; every other call, and every forkchoice update
      that fails to locate or to verify its block, leaves the head alone. */
  lemma {:induction false} HeadMovesExactlyWhen(env: Env, s: State, op: Op)
    requires Valid(s, op)
    ensures var head, head' := Head(env, s), Head(env, Apply(env, s, op));
            head' != head <==>
              && op.UpdateForkchoice?
              && op.hash != head.hash
              && ScanFor(env, s.payloads, op.order, op.hash).Found?
              && VerifyChild(head, BlockOf(env, ScanFor(env, s.payloads, op.order, op.hash).args))
    ensures var head, head' := Head(env, s), Head(env, Apply(env, s, op));
            head' != head ==>
              && VerifyChild(head, head')
              && op.hash == head'.hash
              && Stored(env, s.payloads, head')
  {
    if op.UpdateForkchoice? {
      ScanFinds(env, s.payloads, op.order, op.hash);
    }
  }

  /** Every payload is stored under its own id. */
  ghost predicate IdsMatch(env: Env, payloads: map<PayloadId, Args>) {
    forall id :: id in payloads ==> env.idOf(payloads[id]) == Some(id)
  }

  ghost predicate Keeps(payloads: map<PayloadId, Args>, payloads': map<PayloadId, Args>) {
    forall id :: id in payloads ==> id in payloads' && payloads'[id] == payloads[id]
  }

  lemma {:induction false} AddingKeeps(env: Env, payloads: map<PayloadId, Args>, id: PayloadId, a: Args)
    requires IdInjective(env) && IdsMatch(env, payloads)
    requires env.idOf(a) == Some(id)
    ensures Keeps(payloads, payloads[id := a]) && IdsMatch(env, payloads[id := a])
  {
  }

  /** A call stores at most one payload, under its own id. */
  lemma {:induction false} PayloadStored(env: Env, s: State, op: Op) returns (a: Args)
    requires Valid(s, op)
    ensures var ps, ps' := s.payloads, Apply(env, s, op).payloads;
            ps' == ps || (env.idOf(a).Some? && ps' == ps[env.idOf(a).value := a])
  {
    a := match op
      case SubmitPayload(p, root) => Args(p.(withdrawals := []), root)
      case UpdateForkchoice(h, at, fz, order) =>
        if at.None? then env.genesis
        else
          var p := MakePayload(env, fz, Add64(Head(env, s).number, 1), h, at.value);
          if p.None? then env.genesis else Args(p.value, at.value.beaconRoot)
      case _ => env.genesis;
  }

  /** With distinct ids, stored payloads are never lost or replaced. */
  lemma {:induction false} PayloadsKept(env: Env, s: State, op: Op)
    requires Valid(s, op)
    requires IdInjective(env) && IdsMatch(env, s.payloads)
    ensures IdsMatch(env, Apply(env, s, op).payloads)
    ensures Keeps(s.payloads, Apply(env, s, op).payloads)
  {
    var a := PayloadStored(env, s, op);
    if env.idOf(a).Some? {
      AddingKeeps(env, s.payloads, env.idOf(a).value, a);
    }
  }

  lemma {:induction false} PayloadsKeptRun(env: Env, s: State, ops: seq<Op>)
    requires ValidRun(env, s, ops)
    requires IdInjective(env) && IdsMatch(env, s.payloads)
    ensures IdsMatch(env, Run(env, s, ops).payloads)
    ensures Keeps(s.payloads, Run(env, s, ops).payloads)
    decreases |ops|
  {
    if ops != [] {
      PayloadsKept(env, s, ops[0]);
      PayloadsKeptRun(env, Apply(env, s, ops[0]), ops[1..]);
    }
  }

  lemma {:induction false} LinkedCons(b: Block, bs: seq<Block>)
    requires |bs| > 0 && VerifyChild(b, bs[0]) && Linked(bs)
    ensures Linked([b] + bs)
  {
  }

  /** What HeadsFormChain says about the blocks alone. */
  ghost predicate ChainFromTo(bs: seq<Block>, first: Block, last: Block) {
    && |bs| > 0 && bs[0] == first && bs[|bs| - 1] == last
    && Linked(bs)
    && last.number == (first.number + |bs| - 1) % TWO64
  }

  lemma {:induction false} ChainCons(b: Block, bs: seq<Block>, first: Block, last: Block)
    requires ChainFromTo(bs, first, last)
    requires VerifyChild(b, first)
    ensures ChainFromTo([b] + bs, b, last)
  {
    LinkedCons(b, bs);
  }

  lemma {:induction false} StaysOrChild(env: Env, s: State, op: Op)
    requires Valid(s, op)
    ensures Head(env, Apply(env, s, op)) == Head(env, s) || VerifyChild(Head(env, s), Head(env, Apply(env, s, op)))
  {
    HeadMovesExactlyWhen(env, s, op);
  }

  lemma {:induction false} HeadsLinked(env: Env, s: State, ops: seq<Op>)
    requires ValidRun(env, s, ops)
    ensures ChainFromTo(Heads(env, s, ops), Head(env, s), Head(env, Run(env, s, ops)))
    decreases |ops|
  {
    if ops != [] {
      var s1 := Apply(env, s, ops[0]);
      HeadsLinked(env, s1, ops[1..]);
      StaysOrChild(env, s, ops[0]);
      if Head(env, s1) != Head(env, s) {
        ChainCons(Head(env, s), Heads(env, s1, ops[1..]), Head(env, s1), Head(env, Run(env, s1, ops[1..])));
      }
    }
  }

  ghost predicate AllStored(env: Env, payloads: map<PayloadId, Args>, bs: seq<Block>) {
    forall i :: 0 <= i < |bs| ==> Stored(env, payloads, bs[i])
  }

  lemma {:induction false} StoredKept(env: Env, ps: map<PayloadId, Args>, ps': map<PayloadId, Args>, b: Block)
    requires Stored(env, ps, b)
    requires Keeps(ps, ps')
    ensures Stored(env, ps', b)
  {
    var id :| id in ps && Converts(env, ps[id]) && BlockOf(env, ps[id]) == b;
    assert id in ps';
  }

  lemma {:induction false} AllStoredCons(env: Env, payloads: map<PayloadId, Args>, bs: seq<Block>)
    requires |bs| > 0 && Stored(env, payloads, bs[0]) && AllStored(env, payloads, bs[1..])
    ensures AllStored(env, payloads, bs)
  {
    forall i | 0 <= i < |bs|
      ensures Stored(env, payloads, bs[i])
    {
      assert i > 0 ==> bs[i] == bs[1..][i - 1];
    }
  }

  lemma {:induction false} HeadsStored(env: Env, s: State, ops: seq<Op>)
    requires ValidRun(env, s, ops)
    requires IdInjective(env) && IdsMatch(env, s.payloads)
    ensures |Heads(env, s, ops)| > 0
    ensures AllStored(env, Run(env, s, ops).payloads, Heads(env, s, ops)[1..])
    decreases |ops|
  {
    if ops != [] {
      var s1 := Apply(env, s, ops[0]);
      PayloadsKept(env, s, ops[0]);
      HeadsStored(env, s1, ops[1..]);
      HeadMovesExactlyWhen(env, s, ops[0]);
      if Head(env, s1) != Head(env, s) {
        HeadsLinked(env, s1, ops[1..]);
        PayloadsKeptRun(env, s, ops);
        StoredKept(env, s.payloads, Run(env, s, ops).payloads, Head(env, s1));
        AllStoredCons(env, Run(env, s, ops).payloads, Heads(env, s1, ops[1..]));
        assert Heads(env, s, ops)[1..] == Heads(env, s1, ops[1..]);
      }
    }
  }

  /** In every run the successive heads form one hash-linked chain that starts at the first head
      and ends at the last; block numbers count the head changes, and every later head comes from
      a payload that is still stored. */
  lemma {:induction false} HeadsFormChain(env: Env, s: State, ops: seq<Op>)
    requires ValidRun(env, s, ops)
    requires IdInjective(env) && IdsMatch(env, s.payloads)
    ensures var bs, s' := Heads(env, s, ops), Run(env, s, ops);
            && ChainFromTo(bs, Head(env, s), Head(env, s'))
            && AllStored(env, s'.payloads, bs[1..])
  {
    HeadsLinked(env, s, ops);
    HeadsStored(env, s, ops);
  }

  /** The state of a new engine. */
  function Fresh(pending: map<Address, seq<Log>>): State {
    State(None, map[], pending, map[])
  }

  /** From a new engine the chain starts at the genesis block. */
  lemma {:induction false} ChainFromGenesis(env: Env, pending: map<Address, seq<Log>>, ops: seq<Op>)
    requires ValidRun(env, Fresh(pending), ops) && IdInjective(env)
    ensures ChainFromTo(Heads(env, Fresh(pending), ops), BlockOf(env, env.genesis),
                        Head(env, Run(env, Fresh(pending), ops)))
  {
    HeadsFormChain(env, Fresh(pending), ops);
  }

  // ---------------------------------------------------------------------------------------
  // Building a payload and making it the head
  // ---------------------------------------------------------------------------------------

  /** The head is the block of some payload, stored or not. */
  ghost predicate HeadKnown(env: Env, s: State) {
    exists a :: BlockOf(env, a) == Head(env, s)
  }

  lemma {:induction false} HeadKnownKept(env: Env, s: State, op: Op)
    requires Valid(s, op)
    requires HeadKnown(env, s)
    ensures HeadKnown(env, Apply(env, s, op))
  {
    HeadMovesExactlyWhen(env, s, op);
    var head' := Head(env, Apply(env, s, op));
    if head' != Head(env, s) {
      var id :| id in s.payloads && Converts(env, s.payloads[id]) && BlockOf(env, s.payloads[id]) == head';
    }
  }

  lemma {:induction false} HeadKnownRun(env: Env, s: State, ops: seq<Op>)
    requires ValidRun(env, s, ops)
    requires HeadKnown(env, s)
    ensures HeadKnown(env, Run(env, s, ops))
    decreases |ops|
  {
    if ops != [] {
      HeadKnownKept(env, s, ops[0]);
      HeadKnownRun(env, Apply(env, s, ops[0]), ops[1..]);
    }
  }

  ghost predicate AllConvert(env: Env, payloads: map<PayloadId, Args>) {
    forall id :: id in payloads ==> Converts(env, payloads[id])
  }

  lemma {:induction false} ScanFindsStored(env: Env, payloads: map<PayloadId, Args>, order: seq<PayloadId>,
                                           id: PayloadId)
    requires forall i :: i in order ==> i in payloads
    requires AllConvert(env, payloads)
    requires id in order
    ensures ScanFor(env, payloads, order, BlockHash(env, payloads[id])).Found?
    decreases |order|
  {
    assert order[0] in order;
    if BlockHash(env, payloads[order[0]]) != BlockHash(env, payloads[id]) {
      ScanFindsStored(env, payloads, order[1..], id);
    }
  }

  /** A child of the head has another hash than the head. */
  lemma {:induction false} ChildHashDiffers(env: Env, s: State, a: Args)
    requires HashInjective(env) && HeadKnown(env, s)
    requires VerifyChild(Head(env, s), BlockOf(env, a))
    ensures BlockHash(env, a) != Head(env, s).hash
  {
    var h :| BlockOf(env, h) == Head(env, s);
    assert BlockHash(env, a) == BlockHash(env, h) ==> a.params.header == h.params.header;
  }

  /** Committing a stored child of the head succeeds when every stored payload converts. */
  lemma {:induction false} CommitSucceeds(env: Env, s: State, id: PayloadId, order: seq<PayloadId>)
    requires HashInjective(env) && HeadKnown(env, s) && IdsMatch(env, s.payloads)
    requires id in s.payloads && VerifyChild(Head(env, s), BlockOf(env, s.payloads[id]))
    requires AllConvert(env, s.payloads) && Visits(s.payloads, order)
    ensures var (s', r) := Forkchoice(env, s, BlockHash(env, s.payloads[id]), None, 0, order);
            r.Ok? && Head(env, s') == BlockOf(env, s.payloads[id])
  {
    var a, hash := s.payloads[id], BlockHash(env, s.payloads[id]);
    ChildHashDiffers(env, s, a);
    ScanFindsStored(env, s.payloads, order, id);
    ScanFinds(env, s.payloads, order, hash);
    var found := ScanFor(env, s.payloads, order, hash).args;
    assert BlockHash(env, found) == BlockHash(env, a);
    assert BlockOf(env, found) == BlockOf(env, a);
  }

  lemma {:induction false} SomeOrder(payloads: map<PayloadId, Args>) returns (order: seq<PayloadId>)
    ensures Visits(payloads, order)
    decreases |payloads|
  {
    if payloads == map[] {
      order := [];
    } else {
      var id :| id in payloads;
      var rest := SomeOrder(payloads - {id});
      order := [id] + rest;
    }
  }

  /** Under every order of iteration exactly when every stored payload converts: one that does not
      convert, visited first, fails the call. */
  lemma {:induction false} CommitSucceedsExactlyWhen(env: Env, s: State, id: PayloadId)
    requires HashInjective(env) && HeadKnown(env, s) && IdsMatch(env, s.payloads)
    requires id in s.payloads && VerifyChild(Head(env, s), BlockOf(env, s.payloads[id]))
    ensures AllConvert(env, s.payloads) <==>
              forall order :: Visits(s.payloads, order) ==>
                Forkchoice(env, s, BlockHash(env, s.payloads[id]), None, 0, order).1.Ok?
  {
    var hash := BlockHash(env, s.payloads[id]);
    if AllConvert(env, s.payloads) {
      forall order | Visits(s.payloads, order)
        ensures Forkchoice(env, s, hash, None, 0, order).1.Ok?
      {
        CommitSucceeds(env, s, id, order);
      }
    } else {
      var bad :| bad in s.payloads && !Converts(env, s.payloads[bad]);
      var rest := SomeOrder(s.payloads - {bad});
      var order := [bad] + rest;
      assert Visits(s.payloads, order);
      ChildHashDiffers(env, s, s.payloads[id]);
      assert Forkchoice(env, s, hash, None, 0, order).1 == Err(InvalidPayload);
    }
  }

  /** The payload has the fields that the attributes ask for, and no withdrawals. */
  ghost predicate Carries(a: Args, at: Attributes) {
    && a.params.header.timestamp == at.timestamp
    && a.params.header.feeRecipient == at.feeRecipient
    && a.params.header.random == at.random
    && a.beaconRoot == at.beaconRoot
    && a.params.withdrawals == []
  }

  /** The payload has an id, and its block comes next after the head. */
  ghost predicate Committable(env: Env, s: State, a: Args) {
    && env.idOf(a).Some?
    && a.params.header.parent == Head(env, s).hash
    && a.params.header.number == (Head(env, s).number + 1) % TWO64
  }

  /** What a forkchoice update answers: without attributes, no id if the head stays and the id of the
      new head's payload if it moves; it succeeds exactly when the requested block is the head, or is
      found, is a child of the head and has an id. */
  lemma {:induction false} ForkchoiceAnswer(env: Env, s: State, hash: Hash, order: seq<PayloadId>)
    requires Visits(s.payloads, order)
    ensures var (s1, r) := Forkchoice(env, s, hash, None, 0, order);
            var found := ScanFor(env, s.payloads, order, hash);
            && (r.Ok? <==> hash == Head(env, s).hash || (found.Found? && Committable(env, s, found.args)))
            && (r.Ok? ==> Head(env, s1).hash == hash && s1.payloads == s.payloads)
            && (r.Ok? && hash == Head(env, s).hash ==> r.value.None? && Head(env, s1) == Head(env, s))
            && (r.Ok? && hash != Head(env, s).hash ==>
                  exists id :: id in s.payloads && r.value == env.idOf(s.payloads[id]) && r.value.Some? &&
                               BlockOf(env, s.payloads[id]) == Head(env, s1))
  {
    ScanFinds(env, s.payloads, order, hash);
  }

  /** What a forkchoice update with attributes stores, whether or not it moves the head: a payload
      on top of the requested block, numbered after the head from before the call, with the time,
      fee recipient, randomness and beacon root of the attributes. */
  lemma {:induction false} BuiltPayload(env: Env, s: State, hash: Hash, at: Attributes, fuzzed: nat,
                                        order: seq<PayloadId>)
    requires Visits(s.payloads, order)
    requires Forkchoice(env, s, hash, Some(at), fuzzed, order).1.Ok?
    ensures var (s1, r) := Forkchoice(env, s, hash, Some(at), fuzzed, order);
            && r.value.Some? && r.value.value in s1.payloads
            && var a := s1.payloads[r.value.value];
               && env.idOf(a) == r.value
               && Converts(env, a)
               && a.params.header.parent == hash == Head(env, s1).hash
               && a.params.header.number == Add64(Head(env, s).number, 1)
               && Carries(a, at)
  {
    ScanFinds(env, s.payloads, order, hash);
  }

  /** A submitted payload is refused exactly when it has no id.  Otherwise its id gives it back, without
      withdrawals and with nothing else changed, after any further calls. */
  lemma {:induction false} SubmittedIsKept(env: Env, s: State, params: Payload, beaconRoot: Root, ops: seq<Op>)
    requires IdInjective(env) && IdsMatch(env, s.payloads)
    requires ValidRun(env, NewPayload(env, s, params, beaconRoot).0, ops)
    ensures var (s1, r) := NewPayload(env, s, params, beaconRoot);
            var id := env.idOf(Args(Payload(params.header, [], params.blockHash), beaconRoot));
            var s2 := Run(env, s1, ops);
            && (r.Ok? <==> id.Some?)
            && (r.Err? ==> s1 == s)
            && Head(env, s1) == Head(env, s)
            && (r.Ok? ==> && GetPayload(s2, id.value) == Ok(Payload(params.header, [], params.blockHash))
                          && s2.payloads[id.value].beaconRoot == beaconRoot)
  {
    var op := SubmitPayload(params, beaconRoot);
    PayloadsKept(env, s, op);
    PayloadsKeptRun(env, Apply(env, s, op), ops);
  }

  /** The payload that the attributes ask for, with its own hash. */
  function Requested(env: Env, head: Block, hash: Hash, at: Attributes, fuzzed: nat): Args {
    var header := Header((head.number + 1) % TWO64, hash, at.timestamp, at.feeRecipient, at.random, fuzzed);
    Args(Payload(header, [], env.hashOf(header, [], at.beaconRoot)), at.beaconRoot)
  }

  /** A build succeeds exactly when the update would succeed without it and the payload asked for is well
      formed and has an id.  It moves the head like that update, and stores that payload and no other. */
  lemma {:induction false} BuildsExactlyWhen(env: Env, s: State, hash: Hash, at: Attributes, fuzzed: nat,
                                             order: seq<PayloadId>)
    requires Visits(s.payloads, order)
    ensures var (s1, r) := Forkchoice(env, s, hash, Some(at), fuzzed, order);
            var (s0, r0) := Forkchoice(env, s, hash, None, 0, order);
            var a := Requested(env, Head(env, s), hash, at, fuzzed);
            && (r.Ok? <==> r0.Ok? && env.decodes(a) && env.idOf(a).Some?)
            && (r.Ok? ==> r.value == env.idOf(a) && s1 == s0.(payloads := s.payloads[r.value.value := a]))
            && (r.Err? ==> s1 == s0)
  {
    assert MoveHead(env, s, hash, order).0.payloads == s.payloads;
    assert Converts(env, Requested(env, Head(env, s), hash, at, fuzzed)) <==>
           env.decodes(Requested(env, Head(env, s), hash, at, fuzzed));
  }

  /** Build, get, commit: after a forkchoice update on the current head has returned a payload id,
      and after any further calls that leave the head where it is, the id still gives the payload,
      it is a child of the head, and making it the head succeeds under every order of iteration
      exactly when every payload stored by then converts to a block. */
  lemma {:induction false} BuildGetCommit(env: Env, s: State, at: Attributes, fuzzed: nat, order: seq<PayloadId>,
                                          ops: seq<Op>)
    requires HashInjective(env) && IdInjective(env)
    requires HeadKnown(env, s) && IdsMatch(env, s.payloads) && Visits(s.payloads, order)
    requires Forkchoice(env, s, Head(env, s).hash, Some(at), fuzzed, order).1.Ok?
    requires var s1 := Forkchoice(env, s, Head(env, s).hash, Some(at), fuzzed, order).0;
             ValidRun(env, s1, ops) && Head(env, Run(env, s1, ops)) == Head(env, s1)
    ensures var (s1, r) := Forkchoice(env, s, Head(env, s).hash, Some(at), fuzzed, order);
            var s2 := Run(env, s1, ops);
            && r.value.Some?
            && GetPayload(s2, r.value.value).Ok?
            && var p := GetPayload(s2, r.value.value).value;
               && p.header.parent == Head(env, s2).hash
               && p.header.number == Add64(Head(env, s2).number, 1)
               && p.header.timestamp == at.timestamp && p.header.feeRecipient == at.feeRecipient
               && p.header.random == at.random && p.withdrawals == []
               && s2.payloads[r.value.value].beaconRoot == at.beaconRoot
               && (AllConvert(env, s2.payloads) <==>
                     forall order' :: Visits(s2.payloads, order') ==>
                       Forkchoice(env, s2, p.blockHash, None, 0, order').1.Ok?)
               && (AllConvert(env, s2.payloads) ==>
                     forall order' :: Visits(s2.payloads, order') ==>
                       Head(env, Forkchoice(env, s2, p.blockHash, None, 0, order').0) ==
                       Block(p.blockHash, p.header.parent, p.header.number))
  {
    var s1 := Forkchoice(env, s, Head(env, s).hash, Some(at), fuzzed, order).0;
    var id := BuiltIsKept(env, s, Head(env, s).hash, at, fuzzed, order, ops);
    var s2 := Run(env, s1, ops);
    CommitSucceedsExactlyWhen(env, s2, id);
    if AllConvert(env, s2.payloads) {
      forall order' | Visits(s2.payloads, order')
        ensures Head(env, Forkchoice(env, s2, s2.payloads[id].params.blockHash, None, 0, order').0) ==
                BlockOf(env, s2.payloads[id])
      {
        CommitSucceeds(env, s2, id, order');
      }
    }
  }

  lemma {:induction false} BuiltIsKept(env: Env, s: State, hash: Hash, at: Attributes, fuzzed: nat,
                                       order: seq<PayloadId>, ops: seq<Op>)
    returns (id: PayloadId)
    requires IdInjective(env)
    requires HeadKnown(env, s) && IdsMatch(env, s.payloads) && Visits(s.payloads, order)
    requires Forkchoice(env, s, hash, Some(at), fuzzed, order).1.Ok?
    requires ValidRun(env, Forkchoice(env, s, hash, Some(at), fuzzed, order).0, ops)
    ensures var (s1, r) := Forkchoice(env, s, hash, Some(at), fuzzed, order);
            var s2 := Run(env, s1, ops);
            && r.value == Some(id) && id in s2.payloads
            && HeadKnown(env, s2) && IdsMatch(env, s2.payloads)
            && var a := s2.payloads[id];
               && Converts(env, a)
               && a.params.header.parent == hash == Head(env, s1).hash
               && a.params.header.number == Add64(Head(env, s).number, 1)
               && Carries(a, at)
  {
    var op := UpdateForkchoice(hash, Some(at), fuzzed, order);
    var s1 := Apply(env, s, op);
    BuiltPayload(env, s, hash, at, fuzzed, order);
    id := Forkchoice(env, s, hash, Some(at), fuzzed, order).1.value.value;
    PayloadsKept(env, s, op);
    PayloadsKeptRun(env, s1, ops);
    HeadKnownKept(env, s, op);
    HeadKnownRun(env, s1, ops);
  }

  /** Known blocks with the same hash have the same number. */
  lemma {:induction false} SameHashSameNumber(env: Env, s: State, s': State)
    requires HashInjective(env) && HeadKnown(env, s) && HeadKnown(env, s')
    requires Head(env, s).hash == Head(env, s').hash
    ensures Head(env, s).number == Head(env, s').number
  {
    var a :| BlockOf(env, a) == Head(env, s);
    var b :| BlockOf(env, b) == Head(env, s');
    assert BlockHash(env, a) == BlockHash(env, b);
  }

  /** A payload that names a known block as its parent but has that block's own number. */
  ghost predicate Misnumbered(env: Env, s: State, a: Args) {
    a.params.header.parent == Head(env, s).hash && a.params.header.number == Head(env, s).number
  }

  /** No call makes such a payload the head, whatever the head is by then. */
  lemma {:induction false} MisnumberedStaysOut(env: Env, s1: State, a: Args, s: State, op: Op)
    requires HashInjective(env) && HeadKnown(env, s1) && HeadKnown(env, s) && Valid(s, op)
    requires Misnumbered(env, s1, a)
    requires Head(env, s).hash != BlockHash(env, a)
    ensures Head(env, Apply(env, s, op)).hash != BlockHash(env, a)
  {
    HeadMovesExactlyWhen(env, s, op);
    var head, head' := Head(env, s), Head(env, Apply(env, s, op));
    if head' != head {
      var id :| id in s.payloads && Converts(env, s.payloads[id]) && BlockOf(env, s.payloads[id]) == head';
      var b := s.payloads[id];
      if BlockHash(env, b) == BlockHash(env, a) {
        assert b.params.header == a.params.header;
        SameHashSameNumber(env, s, s1);
      }
    }
  }

  lemma {:induction false} MisnumberedStaysOutRun(env: Env, s1: State, a: Args, s: State, ops: seq<Op>)
    requires HashInjective(env) && HeadKnown(env, s1) && HeadKnown(env, s) && ValidRun(env, s, ops)
    requires Misnumbered(env, s1, a)
    requires Head(env, s).hash != BlockHash(env, a)
    ensures Head(env, Run(env, s, ops)).hash != BlockHash(env, a)
    decreases |ops|
  {
    if ops != [] {
      MisnumberedStaysOut(env, s1, a, s, ops[0]);
      HeadKnownKept(env, s, ops[0]);
      MisnumberedStaysOutRun(env, s1, a, Apply(env, s, ops[0]), ops[1..]);
    }
  }

  /** The call that built it did not make it the head either: it would be its own parent's child. */
  lemma {:induction false} NotYetHead(env: Env, s: State, s1: State, a: Args)
    requires HashInjective(env) && HeadKnown(env, s1)
    requires Misnumbered(env, s1, a)
    requires VerifyChild(Head(env, s), Head(env, s1)) && Head(env, s1).hash != Head(env, s).hash
    ensures Head(env, s1).hash != BlockHash(env, a)
  {
    var b :| BlockOf(env, b) == Head(env, s1);
    assert BlockHash(env, b) == BlockHash(env, a) ==> b.params.header == a.params.header;
  }

  /** A payload built by a call that also moves the head carries the new head's own number: it stays
      stored, and no run of calls ever makes it the head. */
  lemma {:induction false} MovingBuildNeverCommits(env: Env, s: State, hash: Hash, at: Attributes, fuzzed: nat,
                                                   order: seq<PayloadId>, ops: seq<Op>)
    requires HashInjective(env) && IdInjective(env)
    requires HeadKnown(env, s) && IdsMatch(env, s.payloads) && Visits(s.payloads, order)
    requires Forkchoice(env, s, hash, Some(at), fuzzed, order).1.Ok?
    requires var s1 := Forkchoice(env, s, hash, Some(at), fuzzed, order).0;
             Head(env, s1) != Head(env, s) && ValidRun(env, s1, ops)
    ensures var (s1, r) := Forkchoice(env, s, hash, Some(at), fuzzed, order);
            var s2 := Run(env, s1, ops);
            && r.value.Some? && GetPayload(s2, r.value.value).Ok?
            && var p := GetPayload(s2, r.value.value).value;
               && p.header.parent == Head(env, s1).hash
               && p.header.number == Head(env, s1).number
               && Carries(s2.payloads[r.value.value], at)
               && Head(env, s2).hash != p.blockHash
  {
    var op := UpdateForkchoice(hash, Some(at), fuzzed, order);
    var s1 := Forkchoice(env, s, hash, Some(at), fuzzed, order).0;
    var id := BuiltIsKept(env, s, hash, at, fuzzed, order, ops);
    var a := Run(env, s1, ops).payloads[id];
    HeadMovesExactlyWhen(env, s, op);
    HeadKnownKept(env, s, op);
    NotYetHead(env, s, s1, a);
    MisnumberedStaysOutRun(env, s1, a, s1, ops);
  }

  // ---------------------------------------------------------------------------------------
  // Event logs
  // ---------------------------------------------------------------------------------------

  /** Pending logs are kept under their own address. */
  ghost predicate PendingOwn(s: State) {
    forall a, i :: a in s.pending && 0 <= i < |s.pending[a]| ==> s.pending[a][i].address == a
  }

  lemma {:induction false} OfOneAddress(logs: seq<Log>, owner: Address, a: Address)
    requires forall i :: 0 <= i < |logs| ==> logs[i].address == owner
    ensures OfAddress(logs, a) == if a == owner then logs else []
    decreases |logs|
  {
    if logs != [] {
      OfOneAddress(logs[1..], owner, a);
    }
  }

  /** The query (h, a) has been answered with r and will be again. */
  ghost predicate Answered(s: State, h: Hash, a: Address, r: seq<Log>) {
    if h in s.logs then OfAddress(s.logs[h], a) == r else r == [] && a !in s.pending
  }

  lemma {:induction false} AnsweredKept(env: Env, s: State, op: Op, h: Hash, a: Address, r: seq<Log>)
    requires Valid(s, op)
    requires PendingOwn(s)
    requires Answered(s, h, a, r)
    ensures PendingOwn(Apply(env, s, op))
    ensures Answered(Apply(env, s, op), h, a, r)
  {
    if op.QueryLogs? {
      if |op.q.addresses| > 0 && op.q.addresses[0] in s.pending {
        OfOneAddress(s.pending[op.q.addresses[0]], op.q.addresses[0], a);
      }
    } else {
      OnlyQueriesTouchLogs(env, s, op);
    }
  }

  lemma {:induction false} AnsweredRun(env: Env, s: State, ops: seq<Op>, h: Hash, a: Address, r: seq<Log>)
    requires ValidRun(env, s, ops)
    requires PendingOwn(s)
    requires Answered(s, h, a, r)
    ensures Answered(Run(env, s, ops), h, a, r)
    decreases |ops|
  {
    if ops != [] {
      AnsweredKept(env, s, ops[0], h, a, r);
      AnsweredRun(env, Apply(env, s, ops[0]), ops[1..], h, a, r);
    }
  }

  /** The same log query gives the same answer for ever, whatever calls come in between. */
  lemma {:induction false} QueriesRepeat(env: Env, s: State, q: Query, ops: seq<Op>)
    requires PendingOwn(s)
    requires ValidRun(env, Filter(s, q).0, ops)
    ensures Filter(Run(env, Filter(s, q).0, ops), q).1 == Filter(s, q).1
  {
    if q.blockHash.Some? && |q.addresses| > 0 {
      var h, a, r := q.blockHash.value, q.addresses[0], Filter(s, q).1;
      if a in s.pending {
        OfOneAddress(s.pending[a], a, a);
      }
      AnsweredRun(env, Filter(s, q).0, ops, h, a, r);
    }
  }

  /** owner says which address's pending logs each block hash has claimed: every list that was
      ever pending is either still pending or claimed by exactly one block hash. */
  ghost predicate Claimed(pending0: map<Address, seq<Log>>, s: State, owner: map<Hash, Address>) {
    && owner.Keys == s.logs.Keys
    && (forall h :: h in owner ==> owner[h] in pending0 && s.logs[h] == pending0[owner[h]] && owner[h] !in s.pending)
    && (forall h, h' :: h in owner && h' in owner && h != h' ==> owner[h] != owner[h'])
    && (forall a :: a in s.pending ==> a in pending0 && s.pending[a] == pending0[a])
    && (forall a :: a in pending0 ==> a in s.pending || exists h :: h in owner && owner[h] == a)
  }

  /** A block hash without logs claims the pending logs of one address. */
  lemma {:induction false} Claim(pending0: map<Address, seq<Log>>, s: State, owner: map<Hash, Address>, h: Hash,
                                 a: Address)
    requires Claimed(pending0, s, owner)
    requires h !in s.logs && a in s.pending
    ensures Claimed(pending0, s.(logs := s.logs[h := s.pending[a]], pending := s.pending - {a}), owner[h := a])
  {
    var owner' := owner[h := a];
    assert owner'[h] == a;
    forall b | b in pending0 && b !in s.pending
      ensures exists g :: g in owner' && owner'[g] == b
    {
      var g :| g in owner && owner[g] == b;
      assert owner'[g] == b;
    }
  }

  lemma {:induction false} OnlyQueriesTouchLogs(env: Env, s: State, op: Op)
    requires Valid(s, op)
    requires !op.QueryLogs?
    ensures Apply(env, s, op).logs == s.logs && Apply(env, s, op).pending == s.pending
  {
  }

  /** Claims only grow, and only by addresses that were still pending. */
  ghost predicate ClaimsGrow(s: State, owner: map<Hash, Address>, owner': map<Hash, Address>) {
    && (forall h :: h in owner ==> h in owner' && owner'[h] == owner[h])
    && (forall h :: h in owner' && h !in owner ==> owner'[h] in s.pending)
  }

  lemma {:induction false} ClaimedKept(env: Env, pending0: map<Address, seq<Log>>, s: State, op: Op,
                                       owner: map<Hash, Address>)
    returns (owner': map<Hash, Address>)
    requires Valid(s, op)
    requires Claimed(pending0, s, owner)
    ensures Claimed(pending0, Apply(env, s, op), owner')
    ensures ClaimsGrow(s, owner, owner') && Apply(env, s, op).pending.Keys <= s.pending.Keys
  {
    owner' := owner;
    if op.QueryLogs? {
      var q := op.q;
      if q.blockHash.Some? && |q.addresses| > 0 && q.blockHash.value !in s.logs && q.addresses[0] in s.pending {
        Claim(pending0, s, owner, q.blockHash.value, q.addresses[0]);
        owner' := owner[q.blockHash.value := q.addresses[0]];
      }
    } else {
      OnlyQueriesTouchLogs(env, s, op);
    }
  }

  /** Over every run, no pending log is lost or handed to two blocks. */
  lemma {:induction false} LogsFiledOnce(env: Env, pending0: map<Address, seq<Log>>, s: State, ops: seq<Op>,
                                         owner: map<Hash, Address>)
    returns (owner': map<Hash, Address>)
    requires ValidRun(env, s, ops)
    requires Claimed(pending0, s, owner)
    ensures Claimed(pending0, Run(env, s, ops), owner')
    ensures ClaimsGrow(s, owner, owner')
    decreases |ops|
  {
    if ops == [] {
      owner' := owner;
    } else {
      var owner1 := ClaimedKept(env, pending0, s, ops[0], owner);
      owner' := LogsFiledOnce(env, pending0, Apply(env, s, ops[0]), ops[1..], owner1);
    }
  }

  /** The same from a new engine, whose logs are all pending. */
  lemma {:induction false} LogsConserved(env: Env, pending: map<Address, seq<Log>>, ops: seq<Op>)
    requires ValidRun(env, Fresh(pending), ops)
    ensures exists owner :: Claimed(pending, Run(env, Fresh(pending), ops), owner)
  {
    var owner' := LogsFiledOnce(env, pending, Fresh(pending), ops, map[]);
  }

  // What the queries answer

  /** Every list is kept under the address of its logs. */
  ghost predicate OwnLists(pending: map<Address, seq<Log>>) {
    forall a, i :: a in pending && 0 <= i < |pending[a]| ==> pending[a][i].address == a
  }

  /** The logs of address a, if the block hash has claimed them. */
  ghost function LogsOf(pending: map<Address, seq<Log>>, owner: map<Hash, Address>, h: Hash, a: Address): seq<Log> {
    if h in owner && owner[h] == a && a in pending then pending[a] else []
  }

  ghost predicate Asks(q: Query, h: Hash, a: Address) {
    q.blockHash == Some(h) && |q.addresses| > 0 && q.addresses[0] == a
  }

  /** The first query for a pending address on a hash that has claimed nothing claims the address's
      logs for that hash and answers them all; no other query claims anything. */
  lemma {:induction false} FirstQueryClaims(s: State, q: Query, h: Hash, a: Address)
    requires Asks(q, h, a)
    ensures h !in s.logs && a in s.pending ==>
              && Filter(s, q).1 == s.pending[a]
              && Filter(s, q).0.logs == s.logs[h := s.pending[a]] && Filter(s, q).0.pending == s.pending - {a}
    ensures h in s.logs || a !in s.pending ==> Filter(s, q).0 == s
  {
  }

  /** A query answers the logs of its address exactly if its block hash owns them afterwards. */
  lemma {:induction false} QueryAnswer(pending: map<Address, seq<Log>>, s: State, owner: map<Hash, Address>,
                                       q: Query, h: Hash, a: Address)
    returns (owner': map<Hash, Address>)
    requires OwnLists(pending) && Claimed(pending, s, owner) && Asks(q, h, a)
    ensures Claimed(pending, Filter(s, q).0, owner') && ClaimsGrow(s, owner, owner')
    ensures Filter(s, q).1 == LogsOf(pending, owner', h, a)
    ensures h in owner' || a !in Filter(s, q).0.pending
  {
    owner' := owner;
    if h in s.logs {
      OfOneAddress(s.logs[h], owner[h], a);
    } else if a in s.pending {
      Claim(pending, s, owner, h, a);
      owner' := owner[h := a];
    }
  }

  /** The assignment explains what is filed: under each block hash, the logs its address had at the start. */
  ghost predicate Explains(pending: map<Address, seq<Log>>, s: State, owner: map<Hash, Address>) {
    && owner.Keys == s.logs.Keys
    && forall h :: h in owner ==> owner[h] in pending && s.logs[h] == pending[owner[h]]
  }

  /** Assignments that explain the same state give the same logs. */
  lemma {:induction false} SameLogs(pending: map<Address, seq<Log>>, s: State, owner: map<Hash, Address>,
                                    owner': map<Hash, Address>, h: Hash, a: Address)
    requires OwnLists(pending) && Explains(pending, s, owner) && Explains(pending, s, owner')
    ensures LogsOf(pending, owner, h, a) == LogsOf(pending, owner', h, a)
  {
    if h in owner && s.logs[h] != [] {
      assert pending[owner[h]][0].address == owner[h];
      assert pending[owner'[h]][0].address == owner'[h];
    }
  }

  /** Some assignment explains the state after a query from a new engine, and its answer. */
  lemma {:induction false} QueryExplained(env: Env, pending: map<Address, seq<Log>>, before: seq<Op>, q: Query,
                                          h: Hash, a: Address)
    returns (owner: map<Hash, Address>)
    requires OwnLists(pending) && Asks(q, h, a) && ValidRun(env, Fresh(pending), before)
    ensures var (s, answer) := Filter(Run(env, Fresh(pending), before), q);
            && Claimed(pending, s, owner) && answer == LogsOf(pending, owner, h, a)
            && (h in owner || a !in s.pending)
  {
    var owner0 := LogsFiledOnce(env, pending, Fresh(pending), before, map[]);
    owner := QueryAnswer(pending, Run(env, Fresh(pending), before), owner0, q, h, a);
  }

  /** What a query answered stays explained. */
  lemma {:induction false} StaysExplained(env: Env, pending: map<Address, seq<Log>>, s: State,
                                          owner: map<Hash, Address>, h: Hash, a: Address, ops: seq<Op>)
    returns (owner': map<Hash, Address>)
    requires Claimed(pending, s, owner) && (h in owner || a !in s.pending) && ValidRun(env, s, ops)
    ensures Explains(pending, Run(env, s, ops), owner')
    ensures LogsOf(pending, owner', h, a) == LogsOf(pending, owner, h, a)
  {
    owner' := LogsFiledOnce(env, pending, s, ops, owner);
  }

  /** Over every run of a new engine one assignment of addresses to block hashes explains every answer:
      whichever explains what is filed at the end, a query (h, a) at any point of the run answers all of
      the logs that address a had at the start if h is assigned a, and nothing otherwise. */
  lemma {:induction false} AnswersExplained(env: Env, pending: map<Address, seq<Log>>, before: seq<Op>, q: Query,
                                            h: Hash, a: Address, after: seq<Op>, owner: map<Hash, Address>)
    requires OwnLists(pending) && Asks(q, h, a)
    requires ValidRun(env, Fresh(pending), before)
    requires ValidRun(env, Filter(Run(env, Fresh(pending), before), q).0, after)
    requires Explains(pending, Run(env, Filter(Run(env, Fresh(pending), before), q).0, after), owner)
    ensures Filter(Run(env, Fresh(pending), before), q).1 == LogsOf(pending, owner, h, a)
  {
    var s := Filter(Run(env, Fresh(pending), before), q).0;
    var owner0 := QueryExplained(env, pending, before, q, h, a);
    var owner1 := StaysExplained(env, pending, s, owner0, h, a, after);
    SameLogs(pending, Run(env, s, after), owner1, owner, h, a);
  }

  /** A query without a block hash or without an address answers nothing and changes nothing. */
  lemma {:induction false} EmptyQuery(s: State, q: Query)
    requires q.blockHash.None? || q.addresses == []
    ensures Filter(s, q) == (s, [])
  {
  }
}
