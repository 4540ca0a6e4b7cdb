/** The persistent FIFO queue of client/collections/queue.go: two uint64 cursors and a map of
    elements, each kept in its own namespace of the key-value store.  A cursor that was never
    written reads as 0, all cursor arithmetic is modulo 2^64, and Initialize only resets the
    cursors. */
module Queue {
  import opened Machine

  datatype QueueError = EmptyQueue | OutOfBounds | NotFound | InvalidRange

  /** What the key-value store holds for one queue. */
  datatype Store<T> = Store(front: Option<U64>, rear: Option<U64>, elements: map<U64, T>)

  function Cursor(c: Option<U64>): U64 {
    if c.Some? then c.value else 0
  }

  /** A queue no call has ever written. */
  function Unset<T>(): Store<T> {
    Store(None, None, map[])
  }

  function LengthOf<T>(s: Store<T>): U64 {
    Sub64(Cursor(s.rear), Cursor(s.front))
  }

  function Find<T>(elements: map<U64, T>, key: U64): Result<T, QueueError> {
    if key in elements then Ok(elements[key]) else Err(NotFound)
  }

  /** The stored elements with keys in [lo, hi), by increasing key: what the store's range
      iterator yields. */
  function RangeItems<T>(elements: map<U64, T>, lo: U64, hi: U64): seq<T>
    decreases hi - lo
  {
    if hi <= lo then []
    else (if lo in elements then [elements[lo]] else []) +
         (if lo + 1 < hi then RangeItems(elements, lo + 1, hi) else [])
  }

  class Queue<T> {
    var front: Option<U64>
    var rear: Option<U64>
    var elements: map<U64, T>

    constructor ()
      ensures View() == Store(None, None, map[])
    {
      front, rear, elements := None, None, map[];
    }

    ghost function View(): Store<T>
      reads this
    {
      Store(front, rear, elements)
    }

    method Initialize()
      modifies this
      ensures View() == InitializeStore(old(View()))
    {
      front := Some(0);
      rear := Some(0);
    }

    method Enqueue(elem: T)
      modifies this
      ensures View() == EnqueueStore(old(View()), elem)
    {
      var r := Cursor(rear);
      elements := elements[r := elem];
      rear := Some(Add64(r, 1));
    }

    method Dequeue() returns (r: Result<T, QueueError>)
      modifies this
      ensures (View(), r) == DequeueStore(old(View()))
    {
      var empty := IsEmpty();
      if empty {
        return Err(EmptyQueue);
      }
      var f := Cursor(front);
      r := Find(elements, f);
      if r.Err? {
        return;
      }
      elements := elements - {f};
      front := Some(Add64(f, 1));
    }

    method Get(index: U64) returns (r: Result<T, QueueError>)
      ensures r == GetStore(View(), index)
    {
      var f, e := Cursor(front), Cursor(rear);
      if Add64(f, index) >= e {
        return Err(OutOfBounds);
      }
      r := Find(elements, Add64(f, index));
    }

    method Len() returns (n: U64)
      ensures n == LengthOf(View())
    {
      n := Sub64(Cursor(rear), Cursor(front));
    }

    method IsEmpty() returns (b: bool)
      ensures b <==> LengthOf(View()) == 0
    {
      var n := Len();
      b := n == 0;
    }

    method Peek() returns (r: Result<T, QueueError>)
      ensures r == PeekStore(View())
    {
      var empty := IsEmpty();
      if empty {
        return Err(EmptyQueue);
      }
      if front.None? {
        return Err(NotFound);
      }
      r := Find(elements, front.value);
    }

    method Front() returns (r: Result<U64, QueueError>)
      ensures r == ReadCursor(View().front)
    {
      r := if front.Some? then Ok(front.value) else Err(NotFound);
    }

    method Rear() returns (r: Result<U64, QueueError>)
      ensures r == ReadCursor(View().rear)
    {
      r := if rear.Some? then Ok(rear.value) else Err(NotFound);
    }

    method Iterate() returns (r: Result<seq<T>, QueueError>)
      ensures r == IterateStore(View())
    {
      var f, e := Cursor(front), Cursor(rear);
      r := if f > e then Err(InvalidRange) else Ok(RangeItems(elements, f, e));
    }
  }

  // ---------------------------------------------------------------------------------------
  // The operations as functions of the stored state
  // ---------------------------------------------------------------------------------------

  function InitializeStore<T>(s: Store<T>): Store<T> {
    s.(front := Some(0), rear := Some(0))
  }

  function EnqueueStore<T>(s: Store<T>, elem: T): Store<T> {
    var r := Cursor(s.rear);
    s.(elements := s.elements[r := elem], rear := Some(Add64(r, 1)))
  }

  function DequeueStore<T>(s: Store<T>): (Store<T>, Result<T, QueueError>) {
    var f := Cursor(s.front);
    if LengthOf(s) == 0 then (s, Err(EmptyQueue))
    else if f !in s.elements then (s, Err(NotFound))
    else (s.(elements := s.elements - {f}, front := Some(Add64(f, 1))), Ok(s.elements[f]))
  }

  function GetStore<T>(s: Store<T>, index: U64): Result<T, QueueError> {
    var key := Add64(Cursor(s.front), index);
    if key >= Cursor(s.rear) then Err(OutOfBounds) else Find(s.elements, key)
  }

  function PeekStore<T>(s: Store<T>): Result<T, QueueError> {
    if LengthOf(s) == 0 then Err(EmptyQueue)
    else if s.front.None? then Err(NotFound)
    else Find(s.elements, s.front.value)
  }

  function ReadCursor(c: Option<U64>): Result<U64, QueueError> {
    if c.Some? then Ok(c.value) else Err(NotFound)
  }

  function IterateStore<T>(s: Store<T>): Result<seq<T>, QueueError> {
    var f, r := Cursor(s.front), Cursor(s.rear);
    if f > r then Err(InvalidRange) else Ok(RangeItems(s.elements, f, r))
  }

  datatype Op<T> =
    | Initialize
    | Enqueue(elem: T)
    | Dequeue
    | Get(index: U64)
    | Len
    | IsEmpty
    | Peek
    | Front
    | Rear
    | Iterate

  datatype Out<T> =
    | Done
    | Element(r: Result<T, QueueError>)
    | Number(n: U64)
    | Flag(b: bool)
    | Position(p: Result<U64, QueueError>)
    | Items(xs: Result<seq<T>, QueueError>)

  function Step<T>(s: Store<T>, op: Op<T>): (Store<T>, Out<T>) {
    match op
    case Initialize => (InitializeStore(s), Done)
    case Enqueue(x) => (EnqueueStore(s, x), Done)
    case Dequeue => var (s', r) := DequeueStore(s); (s', Element(r))
    case Get(i) => (s, Element(GetStore(s, i)))
    case Len => (s, Number(LengthOf(s)))
    case IsEmpty => (s, Flag(LengthOf(s) == 0))
    case Peek => (s, Element(PeekStore(s)))
    case Front => (s, Position(ReadCursor(s.front)))
    case Rear => (s, Position(ReadCursor(s.rear)))
    case Iterate => (s, Items(IterateStore(s)))
  }

  // ---------------------------------------------------------------------------------------
  // The sequence the queue stands for
  // ---------------------------------------------------------------------------------------

  /** A FIFO sequence, with the number of elements removed since the last Initialize and whether
      each cursor has ever been written. */
  datatype Fifo<T> = Fifo(contents: seq<T>, popped: nat, frontSet: bool, rearSet: bool) {
    function FrontIndex(): U64 { popped % TWO64 }

    function RearIndex(): U64 { (popped + |contents|) % TWO64 }

    /** The live keys do not run past 2^64 - 1. */
    predicate Unwrapped() { FrontIndex() + |contents| < TWO64 }
  }

  /** The sequence of a queue no call has ever written. */
  function EmptyFifo<T>(): Fifo<T> {
    Fifo([], 0, false, false)
  }

  function FifoGet<T>(a: Fifo<T>, i: U64): Result<T, QueueError> {
    if i < |a.contents| && (a.Unwrapped() || a.FrontIndex() + i >= TWO64) then Ok(a.contents[i])
    else if a.Unwrapped() && a.FrontIndex() + i >= TWO64 && a.FrontIndex() + i - TWO64 < a.RearIndex()
      then Err(NotFound)
    else Err(OutOfBounds)
  }

  function FifoStep<T>(a: Fifo<T>, op: Op<T>): (Fifo<T>, Out<T>) {
    match op
    case Initialize => (Fifo([], 0, true, true), Done)
    case Enqueue(x) => (a.(contents := a.contents + [x], rearSet := true), Done)
    case Dequeue =>
      if a.contents == [] then (a, Element(Err(EmptyQueue)))
      else (a.(contents := a.contents[1..], popped := a.popped + 1, frontSet := true),
            Element(Ok(a.contents[0])))
    case Get(i) => (a, Element(FifoGet(a, i)))
    case Len => (a, Number(|a.contents| % TWO64))
    case IsEmpty => (a, Flag(a.contents == []))
    case Peek => (a, Element(if a.contents == [] then Err(EmptyQueue)
                             else if !a.frontSet then Err(NotFound)
                             else Ok(a.contents[0])))
    case Front => (a, Position(if a.frontSet then Ok(a.FrontIndex()) else Err(NotFound)))
    case Rear => (a, Position(if a.rearSet then Ok(a.RearIndex()) else Err(NotFound)))
    case Iterate => (a, Items(if a.Unwrapped() then Ok(a.contents) else Err(InvalidRange)))
  }

  /** The stored state s stands for the sequence a.  Elements left behind by Initialize may sit
      outside the live window, but never below the front cursor while the window is unwrapped. */
  ghost predicate Represents<T>(s: Store<T>, a: Fifo<T>) {
    var f := Cursor(s.front);
    && |a.contents| < TWO64
    && a.frontSet == s.front.Some?
    && a.rearSet == s.rear.Some?
    && f == a.FrontIndex()
    && Cursor(s.rear) == a.RearIndex()
    && (forall i {:trigger Add64(f, i)} :: 0 <= i < |a.contents| ==>
          Add64(f, i) in s.elements && s.elements[Add64(f, i)] == a.contents[i])
    && (a.Unwrapped() ==> forall k :: k in s.elements ==> f <= k)
  }

  lemma RearIndexSplit<T>(a: Fifo<T>)
    requires |a.contents| < TWO64
    ensures a.RearIndex() == Add64(a.FrontIndex(), |a.contents|)
    ensures Sub64(a.RearIndex(), a.FrontIndex()) == |a.contents|
  {
  }

  lemma EnqueueRefines<T>(s: Store<T>, a: Fifo<T>, x: T)
    requires Represents(s, a)
    requires |a.contents| + 1 < TWO64
    ensures Represents(EnqueueStore(s, x), FifoStep(a, Op.Enqueue(x)).0)
  {
    RearIndexSplit(a);
    RearIndexSplit(FifoStep(a, Op.Enqueue(x)).0);
  }

  lemma DequeueRefines<T>(s: Store<T>, a: Fifo<T>)
    requires Represents(s, a)
    ensures var (s', r) := DequeueStore(s);
            var (a', o) := FifoStep(a, Op.Dequeue);
            Represents(s', a') && o == Element(r)
  {
    RearIndexSplit(a);
    if a.contents != [] {
      assert Add64(Cursor(s.front), 0) == Cursor(s.front);
      RearIndexSplit(FifoStep(a, Op.Dequeue).0);
      forall i | 0 <= i < |a.contents| - 1
        ensures Add64(Add64(Cursor(s.front), 1), i) == Add64(Cursor(s.front), i + 1) != Cursor(s.front)
      {
        NextKey(Cursor(s.front), i);
      }
    }
  }

  /** The keys after the front one, counted from the next. */
  lemma {:induction false} NextKey(f: U64, i: nat)
    requires i + 1 < TWO64
    ensures Add64(Add64(f, 1), i) == Add64(f, i + 1) != f
  {
  }

  lemma GetRefines<T>(s: Store<T>, a: Fifo<T>, i: U64)
    requires Represents(s, a)
    ensures GetStore(s, i) == FifoGet(a, i)
  {
    RearIndexSplit(a);
  }

  lemma {:induction false} RangeOfRun<T>(elements: map<U64, T>, lo: U64, xs: seq<T>)
    requires lo + |xs| < TWO64
    requires forall k :: lo <= k < lo + |xs| ==> k in elements && elements[k] == xs[k - lo]
    ensures RangeItems(elements, lo, lo + |xs|) == xs
    decreases |xs|
  {
    if xs != [] {
      RangeOfRun(elements, lo + 1, xs[1..]);
    }
  }

  /** While the window is unwrapped, the live keys are the plain range [front, rear). */
  lemma LiveKeys<T>(s: Store<T>, a: Fifo<T>)
    requires Represents(s, a)
    requires a.Unwrapped()
    ensures Cursor(s.rear) == Cursor(s.front) + |a.contents|
    ensures forall k :: Cursor(s.front) <= k < Cursor(s.rear) ==>
              k in s.elements && s.elements[k] == a.contents[k - Cursor(s.front)]
  {
    RearIndexSplit(a);
    var f := Cursor(s.front);
    forall k | f <= k < Cursor(s.rear)
      ensures k in s.elements && s.elements[k] == a.contents[k - f]
    {
      assert Add64(f, k - f) == k;
    }
  }

  lemma IterateRefines<T>(s: Store<T>, a: Fifo<T>)
    requires Represents(s, a)
    ensures IterateStore(s) == if a.Unwrapped() then Ok(a.contents) else Err(InvalidRange)
  {
    if a.Unwrapped() {
      LiveKeys(s, a);
      RangeOfRun(s.elements, Cursor(s.front), a.contents);
    } else {
      RearIndexSplit(a);
    }
  }

  /** One call on the store gives the answer, and the new state, of the same call on the
      sequence, as long as the sequence stays shorter than 2^64. */
  lemma StepRefines<T>(s: Store<T>, a: Fifo<T>, op: Op<T>)
    requires Represents(s, a)
    requires |FifoStep(a, op).0.contents| < TWO64
    ensures Represents(Step(s, op).0, FifoStep(a, op).0)
    ensures Step(s, op).1 == FifoStep(a, op).1
  {
    RearIndexSplit(a);
    match op
    case Enqueue(x) => EnqueueRefines(s, a, x);
    case Dequeue => DequeueRefines(s, a);
    case Get(i) => GetRefines(s, a, i);
    case Iterate => IterateRefines(s, a);
    case Peek =>
      if a.contents != [] {
        assert Add64(Cursor(s.front), 0) == Cursor(s.front);
      }
    case _ =>
  }

  // ---------------------------------------------------------------------------------------
  // Whole runs
  // ---------------------------------------------------------------------------------------

  function Run<T>(s: Store<T>, ops: seq<Op<T>>): (Store<T>, seq<Out<T>>)
    decreases |ops|
  {
    if ops == [] then (s, [])
    else
      var (s1, o) := Step(s, ops[0]);
      var (s2, os) := Run(s1, ops[1..]);
      (s2, [o] + os)
  }

  function FifoRun<T>(a: Fifo<T>, ops: seq<Op<T>>): (Fifo<T>, seq<Out<T>>)
    decreases |ops|
  {
    if ops == [] then (a, [])
    else
      var (a1, o) := FifoStep(a, ops[0]);
      var (a2, os) := FifoRun(a1, ops[1..]);
      (a2, [o] + os)
  }

  /** The sequence never holds 2^64 elements at once during the run. */
  ghost predicate StaysShort<T>(a: Fifo<T>, ops: seq<Op<T>>)
    decreases |ops|
  {
    ops == [] ||
    (|FifoStep(a, ops[0]).0.contents| < TWO64 && StaysShort(FifoStep(a, ops[0]).0, ops[1..]))
  }

  lemma {:induction false} RunRefinesFrom<T>(s: Store<T>, a: Fifo<T>, ops: seq<Op<T>>)
    requires Represents(s, a)
    requires StaysShort(a, ops)
    ensures Represents(Run(s, ops).0, FifoRun(a, ops).0)
    ensures Run(s, ops).1 == FifoRun(a, ops).1
    decreases |ops|
  {
    if ops != [] {
      StepRefines(s, a, ops[0]);
      RunRefinesFrom(Step(s, ops[0]).0, FifoStep(a, ops[0]).0, ops[1..]);
    }
  }

  /** From a store that was never written, every run answers every call as the FIFO sequence
      does; there is no bound on the number of enqueues, only on the elements held at once. */
  lemma RunRefines<T>(ops: seq<Op<T>>)
    requires StaysShort(EmptyFifo(), ops)
    ensures Represents(Run(Unset(), ops).0, FifoRun(EmptyFifo(), ops).0)
    ensures Run(Unset(), ops).1 == FifoRun(EmptyFifo(), ops).1
  {
    RunRefinesFrom(Unset(), EmptyFifo(), ops);
  }

  /** The elements enqueued since the last Initialize, in order. */
  ghost function Pushed<T>(ops: seq<Op<T>>, acc: seq<T>): seq<T>
    decreases |ops|
  {
    if ops == [] then acc
    else Pushed(ops[1..], match ops[0]
                          case Initialize => []
                          case Enqueue(x) => acc + [x]
                          case _ => acc)
  }

  /** The elements handed out by Dequeue since the last Initialize, in order. */
  ghost function Popped<T>(ops: seq<Op<T>>, outs: seq<Out<T>>, acc: seq<T>): seq<T>
    requires |ops| == |outs|
    decreases |ops|
  {
    if ops == [] then acc
    else Popped(ops[1..], outs[1..],
                if ops[0].Initialize? then []
                else if ops[0].Dequeue? && outs[0].Element? && outs[0].r.Ok? then acc + [outs[0].r.value]
                else acc)
  }

  lemma {:induction false} ConservationFrom<T>(a: Fifo<T>, ops: seq<Op<T>>, pushed: seq<T>, popped: seq<T>)
    requires pushed == popped + a.contents && a.popped == |popped|
    ensures |FifoRun(a, ops).1| == |ops|
    ensures var (a', outs) := FifoRun(a, ops);
            var gone := Popped(ops, outs, popped);
            Pushed(ops, pushed) == gone + a'.contents && a'.popped == |gone|
    decreases |ops|
  {
    if ops != [] {
      var a1 := FifoStep(a, ops[0]).0;
      var (pushed1, popped1) :=
        match ops[0] {
          case Initialize => ([], [])
          case Enqueue(x) => (pushed + [x], popped)
          case Dequeue => (pushed, if a.contents == [] then popped else popped + [a.contents[0]])
          case _ => (pushed, popped)
        };
      ConservationFrom(a1, ops[1..], pushed1, popped1);
      assert FifoRun(a, ops).1[1..] == FifoRun(a1, ops[1..]).1;
    }
  }

  /** Over every run from a store that was never written: what was enqueued since the last
      Initialize is what Dequeue handed out, followed by what the queue still holds; nothing is
      lost, repeated or reordered, and elements from before an Initialize never come back.  The
      front cursor counts the elements handed out. */
  lemma NothingLost<T>(ops: seq<Op<T>>)
    requires StaysShort(EmptyFifo(), ops)
    ensures |Run(Unset(), ops).1| == |ops|
    ensures var (s, outs) := Run(Unset(), ops);
            var gone := Popped(ops, outs, []);
            && gone <= Pushed(ops, [])
            && LengthOf(s) == |Pushed(ops, [])| - |gone|
            && Cursor(s.front) == |gone| % TWO64
            && (|Pushed(ops, [])| < TWO64 ==> IterateStore(s) == Ok(Pushed(ops, [])[|gone|..]))
  {
    RunRefines(ops);
    ConservationFrom(EmptyFifo<T>(), ops, [], []);
    var s, a := Run(Unset<T>(), ops).0, FifoRun(EmptyFifo<T>(), ops).0;
    RearIndexSplit(a);
    IterateRefines(s, a);
  }

  /** Get answers exactly the indices below Len while the live keys are unwrapped, whatever the
      index, also when front + index wraps; once they wrap it refuses the part of the queue
      stored before the wrap, and still never answers with a stale or a wrong element. */
  lemma GetSucceedsExactlyBelowLength<T>(s: Store<T>, a: Fifo<T>, i: U64)
    requires Represents(s, a)
    ensures a.Unwrapped() ==> (GetStore(s, i).Ok? <==> i < LengthOf(s))
    ensures !a.Unwrapped() ==> (GetStore(s, i).Ok? <==> i < LengthOf(s) && a.FrontIndex() + i >= TWO64)
    ensures GetStore(s, i).Ok? ==> i < |a.contents| && GetStore(s, i).value == a.contents[i]
  {
    RearIndexSplit(a);
    GetRefines(s, a, i);
  }

  /** On a non-empty queue, Peek foretells the next Dequeue exactly when the front cursor has been
      written, and Get(0) exactly while the live keys are unwrapped. */
  lemma PeekForetellsDequeue<T>(s: Store<T>, a: Fifo<T>)
    requires Represents(s, a)
    requires a.contents != []
    ensures DequeueStore(s).1 == Ok(a.contents[0])
    ensures PeekStore(s) == DequeueStore(s).1 <==> s.front.Some?
    ensures GetStore(s, 0) == DequeueStore(s).1 <==> a.Unwrapped()
  {
    RearIndexSplit(a);
    DequeueRefines(s, a);
    GetRefines(s, a, 0);
    assert Add64(Cursor(s.front), 0) == Cursor(s.front);
  }

  /** The bound on the elements held at once is exact: one more Enqueue on 2^64 - 1 elements makes
      the queue read as empty. */
  lemma FullQueueReadsEmpty<T>(s: Store<T>, a: Fifo<T>, x: T)
    requires Represents(s, a)
    ensures LengthOf(EnqueueStore(s, x)) == 0 <==> |a.contents| + 1 == TWO64
    ensures |a.contents| + 1 == TWO64 ==> DequeueStore(EnqueueStore(s, x)).1 == Err(EmptyQueue)
  {
    RearIndexSplit(a);
  }
}
