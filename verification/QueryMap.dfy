/** Decoding a flat query (dotted keys, optionally ending in "[]") into nested maps
    (client/server/utils/querymap.go, buildMap).  Go iterates over a map in any order, anew in
    every call; here the order of the call for each prefix is a parameter. */
module QueryMap {
  import opened Machine
  import opened Strings

  datatype Tree<V> = Leaf(vs: V) | Branch(children: map<string, Tree<V>>)

  /** For every prefix, the order in which the call with that prefix ranges over the query. */
  type Order = seq<string> -> seq<string>

  /** Every call ranges over all keys of the query and no others; meeting a key twice would do no
      harm. */
  ghost predicate ValidOrder<V>(q: map<string, V>, order: Order) {
    forall prefix, k :: k in order(prefix) <==> k in q
  }

  // ---------------------------------------------------------------------------------------
  // One key seen from one prefix
  // ---------------------------------------------------------------------------------------

  function FullPrefix(prefix: seq<string>): string {
    var joined := Join(prefix, '.');
    if |joined| > 0 then joined + "." else joined
  }

  /** The key is looked at by the call with this prefix. */
  predicate Matches(prefix: seq<string>, key: string) {
    var full := FullPrefix(prefix);
    full == "" || TrimPrefix(key, full) != key
  }

  /** What is left of the key, without a trailing "[]". */
  function Residue(prefix: seq<string>, key: string): string {
    TrimSuffix(TrimPrefix(key, FullPrefix(prefix)), "[]")
  }

  ghost predicate DotFree(prefix: seq<string>) {
    forall i :: 0 <= i < |prefix| ==> '.' !in prefix[i]
  }

  ghost function Weight(prefix: seq<string>): nat {
    if prefix == [] then 0 else |prefix[0]| + 1 + Weight(prefix[1..])
  }

  /** One more than the length of the longest key. */
  ghost function Bound<V>(q: map<string, V>): (b: nat)
    ensures forall k :: k in q ==> |k| < b
    decreases |q|
  {
    if q == map[] then 0
    else
      var k :| k in q;
      assert forall k' :: k' in q && k' != k ==> k' in q - {k};
      var b := Bound(q - {k});
      if |k| < b then b else |k| + 1
  }

  lemma {:induction false} WeightIsLength(prefix: seq<string>)
    requires |prefix| > 0
    ensures |Join(prefix, '.')| + 1 == Weight(prefix)
    decreases |prefix|
  {
    if |prefix| > 1 {
      WeightIsLength(prefix[1..]);
    } else {
      assert prefix[1..] == [];
    }
  }

  lemma {:induction false} WeightSnoc(prefix: seq<string>, s: string)
    ensures Weight(prefix + [s]) == Weight(prefix) + |s| + 1
    decreases |prefix|
  {
    if prefix == [] {
      assert (prefix + [s])[1..] == [];
    } else {
      assert (prefix + [s])[1..] == prefix[1..] + [s];
      WeightSnoc(prefix[1..], s);
    }
  }

  /** Each recursive call has a heavier prefix, and never one heavier than the longest key plus
      one, also for empty segments and leading dots. */
  lemma {:induction false} PrefixGrows(prefix: seq<string>, key: string)
    requires Matches(prefix, key)
    requires IndexByte(Residue(prefix, key), '.') != -1
    ensures var head := Residue(prefix, key)[..IndexByte(Residue(prefix, key), '.')];
            Weight(prefix) < Weight(prefix + [head]) <= |key| + 1
  {
    var i := IndexByte(Residue(prefix, key), '.');
    WeightSnoc(prefix, Residue(prefix, key)[..i]);
    if prefix != [] {
      WeightIsLength(prefix);
    }
  }

  // ---------------------------------------------------------------------------------------
  // The decoder
  // ---------------------------------------------------------------------------------------

  datatype State<V> = State(ret: map<string, Tree<V>>, mapped: set<string>)

  function Put<V>(st: State<V>, seg: string, entry: Tree<V>): State<V> {
    if entry.Leaf? then st.(ret := st.ret[seg := entry])
    else if seg in st.mapped then st
    else State(st.ret[seg := entry], st.mapped + {seg})
  }

  /** What a call does with one key: nothing, or storing an entry. */
  datatype Action<V> = Skip | Store(seg: string, entry: Tree<V>)

  function Perform<V>(st: State<V>, act: Action<V>): State<V> {
    match act
    case Skip => st
    case Store(seg, entry) => Put(st, seg, entry)
  }

  /** The call's maps after the first n actions. */
  function Performed<V>(acts: seq<Action<V>>, n: nat): State<V>
    requires n <= |acts|
  {
    if n == 0 then State(map[], {}) else Perform(Performed(acts, n - 1), acts[n - 1])
  }

  lemma {:induction false} KeyOfOrder<V>(q: map<string, V>, prefix: seq<string>, order: Order, n: nat)
    requires ValidOrder(q, order)
    requires n < |order(prefix)|
    ensures order(prefix)[n] in q
  {
    assert order(prefix)[n] in order(prefix);
  }

  /** The action of one key: the rest of the key is a leaf, or names a branch up to its first dot. */
  function KeyAction<V>(q: map<string, V>, prefix: seq<string>, order: Order, key: string): Action<V>
    requires ValidOrder(q, order) && key in q
    decreases Bound(q) - Weight(prefix), 0
  {
    if !Matches(prefix, key) then Skip
    else
      var rk := Residue(prefix, key);
      var i := IndexByte(rk, '.');
      if i == -1 then Store(rk, Leaf(q[key]))
      else
        PrefixGrows(prefix, key);
        Store(rk[..i], Branch(Build(q, prefix + [rk[..i]], order)))
  }

  function Actions<V>(q: map<string, V>, prefix: seq<string>, order: Order): seq<Action<V>>
    requires ValidOrder(q, order)
    decreases Bound(q) - Weight(prefix), 1
  {
    seq(|order(prefix)|, i requires 0 <= i < |order(prefix)| =>
      (KeyOfOrder(q, prefix, order, i); KeyAction(q, prefix, order, order(prefix)[i])))
  }

  function Build<V>(q: map<string, V>, prefix: seq<string>, order: Order): map<string, Tree<V>>
    requires ValidOrder(q, order)
    decreases Bound(q) - Weight(prefix), 2
  {
    Performed(Actions(q, prefix, order), |order(prefix)|).ret
  }

  method BuildMap<V>(q: map<string, V>, prefix: seq<string>, order: Order) returns (ret: map<string, Tree<V>>)
    requires ValidOrder(q, order)
    ensures ret == Build(q, prefix, order)
    decreases Bound(q) - Weight(prefix), 1
  {
    var fullPrefix := Join(prefix, '.');
    if |fullPrefix| > 0 {
      fullPrefix := fullPrefix + ".";
    }
    ret := map[];
    var prefixMapped: set<string> := {};
    var keys := order(prefix);
    ghost var acts := Actions(q, prefix, order);
    for n := 0 to |keys|
      invariant State(ret, prefixMapped) == Performed(acts, n)
    {
      KeyOfOrder(q, prefix, order, n);
      assert acts[n] == KeyAction(q, prefix, order, keys[n]);
      ret, prefixMapped := VisitKey(q, prefix, order, fullPrefix, keys[n], ret, prefixMapped);
    }
  }

  /** The body of the loop, for one key. */
  method VisitKey<V>(q: map<string, V>, prefix: seq<string>, order: Order, fullPrefix: string, k: string,
                     before: map<string, Tree<V>>, marked: set<string>)
    returns (ret: map<string, Tree<V>>, prefixMapped: set<string>)
    requires ValidOrder(q, order) && k in q && fullPrefix == FullPrefix(prefix)
    ensures State(ret, prefixMapped) == Perform(State(before, marked), KeyAction(q, prefix, order, k))
    decreases Bound(q) - Weight(prefix), 0
  {
    ret, prefixMapped := before, marked;
    var rk := TrimPrefix(k, fullPrefix);
    if fullPrefix == "" || rk != k {
      rk := TrimSuffix(rk, "[]");
      var prefixIndex := IndexByte(rk, '.');
      if prefixIndex != -1 {
        PrefixGrows(prefix, k);
        rk := rk[..prefixIndex];
        if rk !in prefixMapped {
          prefixMapped := prefixMapped + {rk};
          var child := BuildMap(q, prefix + [rk], order);
          ret := ret[rk := Branch(child)];
        }
      } else {
        ret := ret[rk := Leaf(q[k])];
      }
    }
  }

  // ---------------------------------------------------------------------------------------
  // Keys as paths
  // ---------------------------------------------------------------------------------------

  /** The path a key names: its segments, once a trailing "[]" is removed. */
  function Path(key: string): seq<string> {
    Split(TrimSuffix(key, "[]"), '.')
  }

  /** The path the call with this prefix really stands for: the prefix [""] joins to the empty
      string, so that call reads the keys as if it were the outermost one. */
  function Effective(prefix: seq<string>): seq<string> {
    if prefix == [""] then [] else prefix
  }

  lemma {:induction false} FullPrefixIsTerminated(prefix: seq<string>)
    ensures FullPrefix(prefix) == Terminated(Effective(prefix), '.')
  {
    if |prefix| > 0 {
      TerminatedIsJoin(prefix, '.');
      if |prefix| == 1 {
        assert prefix == [prefix[0]];
      }
    }
  }

  /** A text that ends in a dot and starts a key stays clear of the key's trailing "[]". */
  lemma {:induction false} StripAfterPrefix(full: string, key: string)
    requires full == "" || full[|full| - 1] == '.'
    ensures full <= key <==> full <= TrimSuffix(key, "[]")
    ensures full <= key ==> TrimSuffix(key[|full|..], "[]") == TrimSuffix(key, "[]")[|full|..]
  {
    var bare := TrimSuffix(key, "[]");
    if full <= key && full != "" && HasSuffix(key, "[]") {
      assert key[|full| - 1] == '.';
      assert key[|key| - 2..][0] == '[' && key[|key| - 2..][1] == ']';
    }
    if full <= key && |key| - |full| >= 2 {
      assert key[|full|..][|key| - |full| - 2..] == key[|key| - 2..];
    }
  }

  lemma {:induction false} TerminatedEndsInDot(parts: seq<string>)
    ensures parts != [] ==> |Terminated(parts, '.')| > 0
    ensures parts != [] ==> Terminated(parts, '.')[|Terminated(parts, '.')| - 1] == '.'
    decreases |parts|
  {
    if parts != [] {
      TerminatedEndsInDot(parts[1..]);
    }
  }

  /** A call looks at exactly the keys whose path properly extends the path it stands for, and is
      left with the rest of that path. */
  lemma {:induction false} MatchIsExtension(prefix: seq<string>, key: string)
    requires DotFree(prefix)
    ensures Matches(prefix, key) <==> Effective(prefix) < Path(key)
    ensures Matches(prefix, key) ==> Split(Residue(prefix, key), '.') == Path(key)[|Effective(prefix)|..]
  {
    var e := Effective(prefix);
    var full := Terminated(e, '.');
    FullPrefixIsTerminated(prefix);
    TerminatedEndsInDot(e);
    StripAfterPrefix(full, key);
    TerminatedPrefix(e, TrimSuffix(key, "[]"), '.');
    assert full != "" && full <= key ==> |TrimPrefix(key, full)| < |key|;
    if full <= key {
      SplitAfter(e, TrimSuffix(key, "[]"), '.');
    }
  }

  // ---------------------------------------------------------------------------------------
  // What one call returns
  // ---------------------------------------------------------------------------------------

  predicate Within(e: seq<string>, key: string) {
    e < Path(key)
  }

  /** The segment of the key's path that follows e. */
  function SegmentAfter(e: seq<string>, key: string): string
    requires Within(e, key)
  {
    Path(key)[|e|]
  }

  predicate EndsAfter(e: seq<string>, key: string) {
    |Path(key)| == |e| + 1
  }

  /** No key names another key's path or a part of it, unless with the same value. */
  ghost predicate Consistent<V>(q: map<string, V>) {
    forall k, k' {:trigger Clash(q, k, k')} :: k in q && k' in q ==> !Clash(q, k, k')
  }

  /** One key names a path inside the other's, or both name one path with different values. */
  ghost predicate Clash<V>(q: map<string, V>, k: string, k': string)
    requires k in q && k' in q
  {
    Path(k) < Path(k') || (Path(k) == Path(k') && q[k] != q[k'])
  }

  lemma {:induction false} KeyStep(prefix: seq<string>, key: string)
    requires DotFree(prefix)
    requires Matches(prefix, key)
    ensures Within(Effective(prefix), key)
    ensures var rk, seg := Residue(prefix, key), SegmentAfter(Effective(prefix), key);
            var i := IndexByte(rk, '.');
            && (i == -1 <==> EndsAfter(Effective(prefix), key))
            && seg == (if i == -1 then rk else rk[..i])
            && '.' !in seg
  {
    MatchIsExtension(prefix, key);
    NoSeparator(Residue(prefix, key), '.');
  }

  /** The maps of the nested calls, by the segment they are called for. */
  type Nested<V> = string -> map<string, Tree<V>>

  ghost function Children<V>(q: map<string, V>, prefix: seq<string>, order: Order): Nested<V>
    requires ValidOrder(q, order)
  {
    seg => Build(q, prefix + [seg], order)
  }

  /** What a key asks the call that stands for path e to store under its next segment. */
  ghost function Entry<V>(q: map<string, V>, e: seq<string>, nested: Nested<V>, key: string): Tree<V>
    requires key in q && Within(e, key)
  {
    if EndsAfter(e, key) then Leaf(q[key]) else Branch(nested(SegmentAfter(e, key)))
  }

  /** t holds, for every segment that follows e in some key, that key's entry, and nothing else. */
  ghost predicate IsTable<V>(q: map<string, V>, e: seq<string>, nested: Nested<V>, t: map<string, Tree<V>>) {
    && (forall k :: k in q && Within(e, k) ==>
          SegmentAfter(e, k) in t && t[SegmentAfter(e, k)] == Entry(q, e, nested, k))
    && (forall seg :: seg in t ==> exists k :: k in q && Within(e, k) && SegmentAfter(e, k) == seg)
  }

  lemma {:induction false} PathSplit(p: seq<string>, e: seq<string>)
    requires e < p
    ensures p[..|e| + 1] == e + [p[|e|]]
    ensures |p| == |e| + 1 ==> p == e + [p[|e|]]
    ensures |p| > |e| + 1 ==> e + [p[|e|]] < p
  {
  }

  /** The keys meet at a segment after e where the first one ends and the other goes on, or ends
      with another value. */
  ghost predicate Disagree<V>(q: map<string, V>, e: seq<string>, k: string, k': string)
    requires k in q && k' in q
  {
    && Within(e, k) && Within(e, k') && SegmentAfter(e, k) == SegmentAfter(e, k')
    && EndsAfter(e, k) && (EndsAfter(e, k') ==> q[k] != q[k'])
  }

  /** No two keys disagree about the segments that follow e. */
  ghost predicate LevelAgrees<V>(q: map<string, V>, e: seq<string>) {
    forall k, k' {:trigger Disagree(q, e, k, k')} :: k in q && k' in q ==> !Disagree(q, e, k, k')
  }

  /** Disagreeing about a segment is clashing at it. */
  lemma {:induction false} DisagreeIsClash<V>(q: map<string, V>, e: seq<string>, k: string, k': string)
    requires k in q && k' in q
    ensures Disagree(q, e, k, k') <==> Clash(q, k, k') && Within(e, k) && EndsAfter(e, k)
  {
    if Within(e, k) {
      PathSplit(Path(k), e);
    }
    if Within(e, k') {
      PathSplit(Path(k'), e);
    }
  }

  lemma {:induction false} ConsistentLevel<V>(q: map<string, V>, e: seq<string>)
    requires Consistent(q)
    ensures LevelAgrees(q, e)
  {
    forall k, k' | k in q && k' in q
      ensures !Disagree(q, e, k, k')
    {
      DisagreeIsClash(q, e, k, k');
      assert !Clash(q, k, k');
    }
  }

  /** Where keys agree, those that meet at a segment ask for the same entry. */
  lemma {:induction false} SameSegmentSameEntry<V>(q: map<string, V>, e: seq<string>, nested: Nested<V>, k: string,
                                                   k': string)
    requires LevelAgrees(q, e)
    requires k in q && k' in q && Within(e, k) && Within(e, k')
    requires SegmentAfter(e, k) == SegmentAfter(e, k')
    ensures Entry(q, e, nested, k) == Entry(q, e, nested, k')
  {
    assert !Disagree(q, e, k, k') && !Disagree(q, e, k', k);
  }

  lemma {:induction false} TableExists<V>(q: map<string, V>, e: seq<string>, nested: Nested<V>)
    returns (t: map<string, Tree<V>>)
    requires LevelAgrees(q, e)
    ensures IsTable(q, e, nested, t)
  {
    var segments := set k | k in q && Within(e, k) :: SegmentAfter(e, k);
    t := map seg | seg in segments ::
      var k :| k in q && Within(e, k) && SegmentAfter(e, k) == seg; Entry(q, e, nested, k);
    forall k | k in q && Within(e, k)
      ensures SegmentAfter(e, k) in t && t[SegmentAfter(e, k)] == Entry(q, e, nested, k)
    {
      var seg := SegmentAfter(e, k);
      assert seg in segments;
      var k' :| k' in q && Within(e, k') && SegmentAfter(e, k') == seg && t[seg] == Entry(q, e, nested, k');
      SameSegmentSameEntry(q, e, nested, k, k');
    }
  }

  ghost function ActionOf<V>(q: map<string, V>, e: seq<string>, nested: Nested<V>, key: string): Action<V>
    requires key in q
  {
    if Within(e, key) then Store(SegmentAfter(e, key), Entry(q, e, nested, key)) else Skip
  }

  /** The actions of a call that stands for path e and meets the keys in this order. */
  ghost predicate ActionsOf<V>(q: map<string, V>, e: seq<string>, nested: Nested<V>, keys: seq<string>,
                               acts: seq<Action<V>>) {
    && |acts| == |keys|
    && forall i :: 0 <= i < |keys| ==> keys[i] in q && acts[i] == ActionOf(q, e, nested, keys[i])
  }

  lemma {:induction false} ActionOfKey<V>(q: map<string, V>, prefix: seq<string>, order: Order, key: string)
    requires ValidOrder(q, order) && DotFree(prefix) && key in q
    ensures KeyAction(q, prefix, order, key) == ActionOf(q, Effective(prefix), Children(q, prefix, order), key)
  {
    MatchIsExtension(prefix, key);
    if Matches(prefix, key) {
      KeyStep(prefix, key);
    }
  }

  /** An unfinished call has stored entries of t only. */
  ghost predicate Filling<V>(t: map<string, Tree<V>>, st: State<V>) {
    forall seg :: seg in st.ret ==> seg in t && st.ret[seg] == t[seg]
  }

  lemma {:induction false} PutKeeps<V>(t: map<string, Tree<V>>, st: State<V>, seg: string)
    requires Filling(t, st)
    requires seg in t
    ensures Filling(t, Put(st, seg, t[seg]))
  {
  }

  lemma {:induction false} TableAt<V>(q: map<string, V>, e: seq<string>, nested: Nested<V>, t: map<string, Tree<V>>,
                                      key: string)
    requires IsTable(q, e, nested, t)
    requires key in q && Within(e, key)
    ensures SegmentAfter(e, key) in t && t[SegmentAfter(e, key)] == Entry(q, e, nested, key)
  {
  }

  /** A call performs the actions that its keys ask for, one after the other. */
  lemma {:induction false} BuildIsPerformed<V>(q: map<string, V>, prefix: seq<string>, order: Order)
    returns (acts: seq<Action<V>>)
    requires ValidOrder(q, order) && DotFree(prefix)
    ensures ActionsOf(q, Effective(prefix), Children(q, prefix, order), order(prefix), acts)
    ensures Build(q, prefix, order) == Performed(acts, |acts|).ret
  {
    acts := Actions(q, prefix, order);
    forall i | 0 <= i < |order(prefix)|
      ensures order(prefix)[i] in q
      ensures acts[i] == ActionOf(q, Effective(prefix), Children(q, prefix, order), order(prefix)[i])
    {
      KeyOfOrder(q, prefix, order, i);
      ActionOfKey(q, prefix, order, order(prefix)[i]);
    }
  }

  /** The actions store entries of t only. */
  ghost predicate FromTable<V>(acts: seq<Action<V>>, t: map<string, Tree<V>>) {
    forall i :: 0 <= i < |acts| && acts[i].Store? ==> acts[i].seg in t && acts[i].entry == t[acts[i].seg]
  }

  lemma {:induction false} PerformedWithin<V>(acts: seq<Action<V>>, n: nat, t: map<string, Tree<V>>)
    requires n <= |acts| && FromTable(acts, t)
    ensures Filling(t, Performed(acts, n))
  {
    if n > 0 {
      PerformedWithin(acts, n - 1, t);
      if acts[n - 1].Store? {
        PutKeeps(t, Performed(acts, n - 1), acts[n - 1].seg);
      }
    }
  }

  /** Every marked segment is stored. */
  ghost predicate MarkedStored<V>(st: State<V>) {
    st.mapped <= st.ret.Keys
  }

  /** Putting an entry stores it or leaves a marked one, and keeps what is stored. */
  lemma {:induction false} PutStores<V>(st: State<V>, seg: string, entry: Tree<V>)
    requires MarkedStored(st)
    ensures var st' := Put(st, seg, entry);
            seg in st'.ret && st.ret.Keys <= st'.ret.Keys && MarkedStored(st')
  {
  }

  /** Every segment that an action stores to is stored from then on. */
  lemma {:induction false} PerformedCovers<V>(acts: seq<Action<V>>, n: nat)
    requires n <= |acts|
    ensures MarkedStored(Performed(acts, n))
    ensures forall i :: 0 <= i < n && acts[i].Store? ==> acts[i].seg in Performed(acts, n).ret
  {
    if n > 0 {
      PerformedCovers(acts, n - 1);
      if acts[n - 1].Store? {
        PutStores(Performed(acts, n - 1), acts[n - 1].seg, acts[n - 1].entry);
      }
    }
  }

  lemma {:induction false} ActionsFromTable<V>(q: map<string, V>, e: seq<string>, nested: Nested<V>, keys: seq<string>,
                                               acts: seq<Action<V>>, t: map<string, Tree<V>>)
    requires ActionsOf(q, e, nested, keys, acts) && IsTable(q, e, nested, t)
    ensures FromTable(acts, t)
  {
    forall i | 0 <= i < |acts| && acts[i].Store?
      ensures acts[i].seg in t && acts[i].entry == t[acts[i].seg]
    {
      assert acts[i] == ActionOf(q, e, nested, keys[i]);
      TableAt(q, e, nested, t, keys[i]);
    }
  }

  /** ret has an entry for every one of the keys that extends e. */
  ghost predicate Covers<V>(e: seq<string>, keys: seq<string>, ret: map<string, Tree<V>>) {
    forall i :: 0 <= i < |keys| && Within(e, keys[i]) ==> SegmentAfter(e, keys[i]) in ret
  }

  lemma {:induction false} ActionsCover<V>(q: map<string, V>, e: seq<string>, nested: Nested<V>, keys: seq<string>,
                                           acts: seq<Action<V>>, ret: map<string, Tree<V>>)
    requires ActionsOf(q, e, nested, keys, acts)
    requires forall i :: 0 <= i < |acts| && acts[i].Store? ==> acts[i].seg in ret
    ensures Covers(e, keys, ret)
  {
    forall i | 0 <= i < |keys| && Within(e, keys[i])
      ensures SegmentAfter(e, keys[i]) in ret
    {
      assert acts[i] == ActionOf(q, e, nested, keys[i]);
    }
  }

  /** A call on a consistent query returns exactly the entries its keys ask for, whatever the
      order. */
  lemma {:induction false} BuildIsTable<V>(q: map<string, V>, prefix: seq<string>, order: Order)
    requires ValidOrder(q, order) && Consistent(q) && DotFree(prefix)
    ensures IsTable(q, Effective(prefix), Children(q, prefix, order), Build(q, prefix, order))
  {
    ConsistentLevel(q, Effective(prefix));
    LevelIsTable(q, prefix, order);
  }

  /** So does a single call on any query, if the keys agree at its own level. */
  lemma {:induction false} LevelIsTable<V>(q: map<string, V>, prefix: seq<string>, order: Order)
    requires ValidOrder(q, order) && LevelAgrees(q, Effective(prefix)) && DotFree(prefix)
    ensures IsTable(q, Effective(prefix), Children(q, prefix, order), Build(q, prefix, order))
  {
    var e, keys := Effective(prefix), order(prefix);
    var t := TableExists(q, e, Children(q, prefix, order));
    var acts := BuildIsPerformed(q, prefix, order);
    ActionsFromTable(q, e, Children(q, prefix, order), keys, acts, t);
    PerformedWithin(acts, |acts|, t);
    PerformedCovers(acts, |acts|);
    ActionsCover(q, e, Children(q, prefix, order), keys, acts, Build(q, prefix, order));
    CoveredTable(q, e, Children(q, prefix, order), keys, t, Build(q, prefix, order));
  }

  lemma {:induction false} CoveredTable<V>(q: map<string, V>, e: seq<string>, nested: Nested<V>, keys: seq<string>,
                                           t: map<string, Tree<V>>, ret: map<string, Tree<V>>)
    requires IsTable(q, e, nested, t)
    requires forall k :: k in q ==> k in keys
    requires Covers(e, keys, ret)
    requires forall seg :: seg in ret ==> seg in t && ret[seg] == t[seg]
    ensures ret == t
  {
  }

  lemma {:induction false} NestedPrefix(prefix: seq<string>, key: string)
    requires DotFree(prefix)
    requires Within(Effective(prefix), key) && !EndsAfter(Effective(prefix), key)
    ensures DotFree(prefix + [SegmentAfter(Effective(prefix), key)])
    ensures Weight(prefix) < Weight(prefix + [SegmentAfter(Effective(prefix), key)]) <= |key| + 1
  {
    MatchIsExtension(prefix, key);
    KeyStep(prefix, key);
    PrefixGrows(prefix, key);
  }

  lemma {:induction false} SameTables<V>(q: map<string, V>, e: seq<string>, nested: Nested<V>, nested': Nested<V>,
                                         t: map<string, Tree<V>>, t': map<string, Tree<V>>)
    requires IsTable(q, e, nested, t) && IsTable(q, e, nested', t')
    requires forall k :: k in q && Within(e, k) ==> Entry(q, e, nested, k) == Entry(q, e, nested', k)
    ensures t == t'
  {
    assert t.Keys == t'.Keys;
    forall seg | seg in t
      ensures t[seg] == t'[seg]
    {
      var k :| k in q && Within(e, k) && SegmentAfter(e, k) == seg;
    }
  }

  // ---------------------------------------------------------------------------------------
  // When the tree is the query
  // ---------------------------------------------------------------------------------------

  /** The leaf of the nested maps at a path. */
  function Lookup<V>(m: map<string, Tree<V>>, path: seq<string>): Option<V>
    decreases |path|
  {
    if path == [] || path[0] !in m then None
    else
      match m[path[0]]
      case Leaf(vs) => if |path| == 1 then Some(vs) else None
      case Branch(children) => if |path| == 1 then None else Lookup(children, path[1..])
  }

  /** No branch of the tree is empty. */
  ghost predicate Compact<V>(t: Tree<V>) {
    t.Leaf? || (t.children != map[] && forall seg :: seg in t.children ==> Compact(t.children[seg]))
  }

  ghost predicate AllCompact<V>(m: map<string, Tree<V>>) {
    forall seg :: seg in m ==> Compact(m[seg])
  }

  /** The nested maps hold every key's value at the key's path, no other leaf and no empty map:
      flattening them gives the query back. */
  ghost predicate Faithful<V>(q: map<string, V>, m: map<string, Tree<V>>) {
    && (forall k :: k in q ==> Lookup(m, Path(k)) == Some(q[k]))
    && (forall path :: Lookup(m, path).Some? ==> exists k :: k in q && Path(k) == path)
    && AllCompact(m)
  }

  /** The value of a key that names the path. */
  ghost function ValueAt<V>(q: map<string, V>, path: seq<string>): Option<V> {
    if exists k :: k in q && Path(k) == path
    then var k :| k in q && Path(k) == path; Some(q[k])
    else None
  }

  /** Some key goes on after the segment seg that follows e. */
  ghost predicate BranchAt<V>(q: map<string, V>, e: seq<string>, seg: string) {
    exists k :: k in q && Within(e, k) && SegmentAfter(e, k) == seg && !EndsAfter(e, k)
  }

  /** What the keys say about the level below the empty segment is what they say about the
      outermost level. */
  ghost predicate SameTopLevels<V>(q: map<string, V>) {
    forall seg :: (BranchAt(q, [], seg) <==> BranchAt(q, [""], seg)) && ValueAt(q, [seg]) == ValueAt(q, ["", seg])
  }

  lemma {:induction false} ValueIs<V>(q: map<string, V>, k: string)
    requires Consistent(q)
    requires k in q
    ensures ValueAt(q, Path(k)) == Some(q[k])
  {
    var k' :| k' in q && Path(k') == Path(k) && ValueAt(q, Path(k)) == Some(q[k']);
    assert !Clash(q, k, k');
  }

  /** A key that names e, seg and more is within e and passes through seg. */
  lemma {:induction false} PassesThrough(e: seq<string>, path: seq<string>, k: string)
    requires |path| > 0 && Path(k) == e + path
    ensures Within(e, k) && SegmentAfter(e, k) == path[0]
    ensures EndsAfter(e, k) <==> |path| == 1
  {
  }

  /** No key ends inside another key's path. */
  lemma {:induction false} NothingInside<V>(q: map<string, V>, path: seq<string>, k: string)
    requires Consistent(q)
    requires k in q && (Path(k) < path || path < Path(k))
    ensures ValueAt(q, path) == None
  {
    forall k' | k' in q
      ensures Path(k') != path
    {
      assert !Clash(q, k, k') && !Clash(q, k', k);
    }
  }

  lemma {:induction false} LeafOfLevel<V>(q: map<string, V>, e: seq<string>, nested: Nested<V>,
                                          t: map<string, Tree<V>>, seg: string)
    requires Consistent(q)
    requires IsTable(q, e, nested, t)
    ensures Lookup(t, [seg]) == ValueAt(q, e + [seg])
  {
    if seg in t {
      var k :| k in q && Within(e, k) && SegmentAfter(e, k) == seg;
      TableAt(q, e, nested, t, k);
      PathSplit(Path(k), e);
      if EndsAfter(e, k) {
        ValueIs(q, k);
      } else {
        NothingInside(q, e + [seg], k);
      }
    } else if k :| k in q && Path(k) == e + [seg] {
      PassesThrough(e, [seg], k);
    }
  }

  lemma {:induction false} BranchOfLevel<V>(q: map<string, V>, e: seq<string>, nested: Nested<V>,
                                            t: map<string, Tree<V>>, path: seq<string>)
    requires Consistent(q)
    requires IsTable(q, e, nested, t)
    requires |path| > 1
    ensures Lookup(t, path) == if BranchAt(q, e, path[0]) then Lookup(nested(path[0]), path[1..]) else None
  {
    var seg := path[0];
    if k :| k in q && Within(e, k) && SegmentAfter(e, k) == seg && !EndsAfter(e, k) {
      TableAt(q, e, nested, t, k);
    } else if seg in t {
      var k :| k in q && Within(e, k) && SegmentAfter(e, k) == seg;
      TableAt(q, e, nested, t, k);
    }
  }

  lemma {:induction false} NoBranchNoValue<V>(q: map<string, V>, e: seq<string>, path: seq<string>)
    requires |path| > 1
    requires !BranchAt(q, e, path[0])
    ensures ValueAt(q, e + path) == None
  {
    if k :| k in q && Path(k) == e + path {
      PassesThrough(e, path, k);
    }
  }

  /** The leaves a call stores itself. */
  lemma {:induction false} LeafOfCall<V>(q: map<string, V>, prefix: seq<string>, order: Order, seg: string)
    requires ValidOrder(q, order) && Consistent(q) && DotFree(prefix)
    ensures Lookup(Build(q, prefix, order), [seg]) == ValueAt(q, Effective(prefix) + [seg])
  {
    BuildIsTable(q, prefix, order);
    LeafOfLevel(q, Effective(prefix), Children(q, prefix, order), Build(q, prefix, order), seg);
  }

  /** Everything deeper is what the nested call stores. */
  lemma {:induction false} BranchOfCall<V>(q: map<string, V>, prefix: seq<string>, order: Order, path: seq<string>)
    requires ValidOrder(q, order) && Consistent(q) && DotFree(prefix)
    requires |path| > 1
    ensures BranchAt(q, Effective(prefix), path[0]) ==>
              && DotFree(prefix + [path[0]])
              && Lookup(Build(q, prefix, order), path) == Lookup(Build(q, prefix + [path[0]], order), path[1..])
    ensures !BranchAt(q, Effective(prefix), path[0]) ==> Lookup(Build(q, prefix, order), path) == None
  {
    BuildIsTable(q, prefix, order);
    BranchOfLevel(q, Effective(prefix), Children(q, prefix, order), Build(q, prefix, order), path);
    BranchIsDotFree(q, prefix, path[0]);
  }

  lemma {:induction false} BranchIsDotFree<V>(q: map<string, V>, prefix: seq<string>, seg: string)
    requires DotFree(prefix)
    ensures BranchAt(q, Effective(prefix), seg) ==> DotFree(prefix + [seg])
  {
    var e := Effective(prefix);
    if k :| k in q && Within(e, k) && SegmentAfter(e, k) == seg && !EndsAfter(e, k) {
      NestedPrefix(prefix, k);
    }
  }

  lemma {:induction false} Regroup(prefix: seq<string>, path: seq<string>)
    requires |path| > 0
    ensures prefix + path == prefix + [path[0]] + path[1..]
  {
  }

  /** Below every path but the empty segment's, a call's maps are read exactly as the keys say. */
  lemma {:induction false} LookupRegular<V>(q: map<string, V>, prefix: seq<string>, order: Order, path: seq<string>)
    requires ValidOrder(q, order) && Consistent(q) && DotFree(prefix)
    requires prefix != [""]
    requires |path| > 0
    requires prefix == [] && path[0] == "" ==> |path| == 1
    ensures Lookup(Build(q, prefix, order), path) == ValueAt(q, prefix + path)
    decreases |path|
  {
    if |path| == 1 {
      assert path == [path[0]];
      LeafOfCall(q, prefix, order, path[0]);
    } else {
      BranchOfCall(q, prefix, order, path);
      if BranchAt(q, prefix, path[0]) {
        assert (prefix + [path[0]])[|prefix|] == path[0];
        LookupRegular(q, prefix + [path[0]], order, path[1..]);
        Regroup(prefix, path);
      } else {
        NoBranchNoValue(q, prefix, path);
      }
    }
  }

  /** The call for the empty segment reads the keys as the outermost call does, its nested calls
      as their prefixes say. */
  lemma {:induction false} LookupBelowEmpty<V>(q: map<string, V>, order: Order, path: seq<string>)
    requires ValidOrder(q, order) && Consistent(q)
    requires |path| > 0
    ensures |path| == 1 ==> Lookup(Build(q, [""], order), path) == ValueAt(q, path)
    ensures |path| > 1 ==> Lookup(Build(q, [""], order), path) ==
                           (if BranchAt(q, [], path[0]) then ValueAt(q, [""] + path) else None)
  {
    if |path| == 1 {
      assert path == [] + [path[0]];
      LeafOfCall(q, [""], order, path[0]);
    } else {
      BranchOfCall(q, [""], order, path);
      if BranchAt(q, [], path[0]) {
        LookupRegular(q, [""] + [path[0]], order, path[1..]);
        Regroup([""], path);
      }
    }
  }

  lemma {:induction false} RootLookup<V>(q: map<string, V>, order: Order, path: seq<string>)
    requires ValidOrder(q, order) && Consistent(q)
    requires |path| > 0
    ensures path[0] == "" && |path| > 1 ==>
              Lookup(Build(q, [], order), path) ==
              (if BranchAt(q, [], "") then Lookup(Build(q, [""], order), path[1..]) else None)
    ensures !(path[0] == "" && |path| > 1) ==> Lookup(Build(q, [], order), path) == ValueAt(q, path)
  {
    if path[0] == "" && |path| > 1 {
      BranchOfCall(q, [], order, path);
      assert [] + [path[0]] == [""];
    } else {
      LookupRegular(q, [], order, path);
      assert [] + path == path;
    }
  }

  /** A call returns an empty map exactly when no key extends the path it stands for. */
  lemma {:induction false} EmptyCall<V>(q: map<string, V>, prefix: seq<string>, order: Order)
    requires ValidOrder(q, order) && Consistent(q) && DotFree(prefix)
    ensures Build(q, prefix, order) != map[] <==> exists k :: k in q && Within(Effective(prefix), k)
  {
    BuildIsTable(q, prefix, order);
    if k :| k in q && Within(Effective(prefix), k) {
      TableAt(q, Effective(prefix), Children(q, prefix, order), Build(q, prefix, order), k);
    }
  }

  lemma {:induction false} BranchIsExtension<V>(q: map<string, V>, e: seq<string>, seg: string)
    ensures BranchAt(q, e, seg) <==> exists k :: k in q && Within(e + [seg], k)
  {
    if k :| k in q && Within(e, k) && SegmentAfter(e, k) == seg && !EndsAfter(e, k) {
      PathSplit(Path(k), e);
      assert Within(e + [seg], k);
    }
    if k :| k in q && Within(e + [seg], k) {
      assert Path(k)[..|e| + 1] == e + [seg];
      assert e == (e + [seg])[..|e|] == Path(k)[..|e|];
      assert Within(e, k) && SegmentAfter(e, k) == seg && !EndsAfter(e, k);
    }
  }

  /** The entries of a call: leaves, and the maps of nested calls for the segments that branch. */
  lemma {:induction false} EntryOfCall<V>(q: map<string, V>, prefix: seq<string>, order: Order, seg: string)
    requires ValidOrder(q, order) && Consistent(q) && DotFree(prefix)
    ensures BranchAt(q, Effective(prefix), seg) ==>
              seg in Build(q, prefix, order) && Build(q, prefix, order)[seg] == Branch(Build(q, prefix + [seg], order))
    ensures !BranchAt(q, Effective(prefix), seg) && seg in Build(q, prefix, order) ==>
        Build(q, prefix, order)[seg].Leaf?
  {
    var e, t, nested := Effective(prefix), Build(q, prefix, order), Children(q, prefix, order);
    BuildIsTable(q, prefix, order);
    if k :| k in q && Within(e, k) && SegmentAfter(e, k) == seg && !EndsAfter(e, k) {
      TableAt(q, e, nested, t, k);
    } else if seg in t {
      var k :| k in q && Within(e, k) && SegmentAfter(e, k) == seg;
      TableAt(q, e, nested, t, k);
    }
  }

  lemma {:induction false} BranchWeight<V>(q: map<string, V>, prefix: seq<string>, seg: string)
    requires DotFree(prefix)
    requires BranchAt(q, Effective(prefix), seg)
    ensures DotFree(prefix + [seg])
    ensures Weight(prefix) < Weight(prefix + [seg]) <= Bound(q)
  {
    var e := Effective(prefix);
    var k :| k in q && Within(e, k) && SegmentAfter(e, k) == seg && !EndsAfter(e, k);
    NestedPrefix(prefix, k);
  }

  /** Below a non-empty first segment, or two segments deep, no map is empty. */
  lemma {:induction false} CompactRegular<V>(q: map<string, V>, prefix: seq<string>, order: Order)
    requires ValidOrder(q, order) && Consistent(q) && DotFree(prefix)
    requires prefix != [] && prefix != [""]
    ensures AllCompact(Build(q, prefix, order))
    decreases Bound(q) - Weight(prefix)
  {
    forall seg | seg in Build(q, prefix, order)
      ensures Compact(Build(q, prefix, order)[seg])
    {
      EntryOfCall(q, prefix, order, seg);
      if BranchAt(q, prefix, seg) {
        BranchWeight(q, prefix, seg);
        CompactRegular(q, prefix + [seg], order);
        EmptyCall(q, prefix + [seg], order);
        BranchIsExtension(q, prefix, seg);
      }
    }
  }

  /** Below the empty segment, a map is empty exactly when the outermost keys branch where the
      keys below the empty segment do not. */
  lemma {:induction false} CompactBelowEmpty<V>(q: map<string, V>, order: Order)
    requires ValidOrder(q, order) && Consistent(q)
    ensures AllCompact(Build(q, [""], order)) <==>
              forall seg :: BranchAt(q, [], seg) ==> BranchAt(q, [""], seg)
  {
    var m := Build(q, [""], order);
    forall seg
      ensures seg in m ==> (Compact(m[seg]) <==> (BranchAt(q, [], seg) ==> BranchAt(q, [""], seg)))
      ensures BranchAt(q, [], seg) ==> seg in m
    {
      EntryOfCall(q, [""], order, seg);
      if BranchAt(q, [], seg) {
        BranchWeight(q, [""], seg);
        CompactRegular(q, [""] + [seg], order);
        EmptyCall(q, [""] + [seg], order);
        BranchIsExtension(q, [""], seg);
      }
    }
  }

  lemma {:induction false} CompactRoot<V>(q: map<string, V>, order: Order)
    requires ValidOrder(q, order) && Consistent(q)
    ensures AllCompact(Build(q, [], order)) <==> (BranchAt(q, [], "") ==> AllCompact(Build(q, [""], order)))
  {
    var m := Build(q, [], order);
    forall seg
      ensures seg in m && seg != "" ==> Compact(m[seg])
    {
      EntryOfCall(q, [], order, seg);
      if BranchAt(q, [], seg) && seg != "" {
        assert [] + [seg] == [seg];
        BranchWeight(q, [], seg);
        CompactRegular(q, [seg], order);
        EmptyCall(q, [seg], order);
        BranchIsExtension(q, [], seg);
      }
    }
    EntryOfCall(q, [], order, "");
    assert [] + [""] == [""];
    if k :| k in q && Within([], k) && SegmentAfter([], k) == "" && !EndsAfter([], k) {
      EmptyCall(q, [""], order);
    }
  }

  /** A path that holds a leaf has no leaf below it. */
  lemma {:induction false} LeavesExclude<V>(m: map<string, Tree<V>>, path: seq<string>, longer: seq<string>)
    requires path < longer
    requires Lookup(m, path).Some?
    ensures Lookup(m, longer) == None
    decreases |path|
  {
    if |path| > 1 {
      assert path[0] == longer[0];
      assert path[1..] < longer[1..];
      LeavesExclude(m[path[0]].children, path[1..], longer[1..]);
    }
  }

  lemma {:induction false} FaithfulIsConsistent<V>(q: map<string, V>, m: map<string, Tree<V>>)
    requires Faithful(q, m)
    ensures Consistent(q)
  {
    forall k, k' | k in q && k' in q
      ensures !Clash(q, k, k')
    {
      if Path(k) < Path(k') {
        LeavesExclude(m, Path(k), Path(k'));
      }
    }
  }

  /** The maps agree with the keys at every path that starts with e. */
  ghost predicate AgreesBelow<V>(q: map<string, V>, e: seq<string>, m: map<string, Tree<V>>) {
    forall path :: |path| > 0 ==> Lookup(m, path) == ValueAt(q, e + path)
  }

  /** On a consistent query, being faithful is agreeing with the keys at every path. */
  lemma {:induction false} FaithfulIsAgreement<V>(q: map<string, V>, m: map<string, Tree<V>>)
    requires Consistent(q)
    ensures Faithful(q, m) <==> AllCompact(m) && AgreesBelow(q, [], m)
  {
    if Faithful(q, m) {
      forall path | |path| > 0
        ensures Lookup(m, path) == ValueAt(q, [] + path)
      {
        assert [] + path == path;
        if k :| k in q && Path(k) == path {
          ValueIs(q, k);
        }
      }
    }
    if AgreesBelow(q, [], m) {
      forall k | k in q
        ensures Lookup(m, Path(k)) == Some(q[k])
      {
        ValueIs(q, k);
        assert [] + Path(k) == Path(k);
      }
      forall path | Lookup(m, path).Some?
        ensures exists k :: k in q && Path(k) == path
      {
        assert [] + path == path;
        assert Lookup(m, path) == ValueAt(q, [] + path);
      }
    }
  }

  lemma {:induction false} RootAgreesIf<V>(q: map<string, V>, order: Order)
    requires ValidOrder(q, order) && Consistent(q)
    requires BranchAt(q, [], "") ==> AgreesBelow(q, [""], Build(q, [""], order))
    ensures AgreesBelow(q, [], Build(q, [], order))
  {
    forall path | |path| > 0
      ensures Lookup(Build(q, [], order), path) == ValueAt(q, [] + path)
    {
      assert [] + path == path;
      RootLookup(q, order, path);
      if path[0] == "" && |path| > 1 {
        assert path == [""] + path[1..];
        if !BranchAt(q, [], "") {
          NoBranchNoValue(q, [], path);
        }
      }
    }
  }

  lemma {:induction false} RootAgreesOnlyIf<V>(q: map<string, V>, order: Order)
    requires ValidOrder(q, order) && Consistent(q)
    requires AgreesBelow(q, [], Build(q, [], order))
    requires BranchAt(q, [], "")
    ensures AgreesBelow(q, [""], Build(q, [""], order))
  {
    forall path | |path| > 0
      ensures Lookup(Build(q, [""], order), path) == ValueAt(q, [""] + path)
    {
      var full := [""] + path;
      RootLookup(q, order, full);
      AgreesAt(q, Build(q, [], order), full);
      assert full[1..] == path;
    }
  }

  lemma {:induction false} AgreesAt<V>(q: map<string, V>, m: map<string, Tree<V>>, path: seq<string>)
    requires AgreesBelow(q, [], m) && |path| > 0
    ensures Lookup(m, path) == ValueAt(q, path)
  {
    assert [] + path == path;
    assert Lookup(m, path) == ValueAt(q, [] + path);
  }

  lemma {:induction false} BelowEmptyAgreesIf<V>(q: map<string, V>, order: Order)
    requires ValidOrder(q, order) && Consistent(q)
    requires SameTopLevels(q)
    ensures AgreesBelow(q, [""], Build(q, [""], order))
  {
    forall path | |path| > 0
      ensures Lookup(Build(q, [""], order), path) == ValueAt(q, [""] + path)
    {
      LookupBelowEmpty(q, order, path);
      assert BranchAt(q, [], path[0]) <==> BranchAt(q, [""], path[0]);
      if |path| == 1 {
        assert path == [path[0]] && [""] + path == ["", path[0]];
      } else if !BranchAt(q, [], path[0]) {
        NoBranchNoValue(q, [""], path);
      }
    }
  }

  lemma {:induction false} BelowEmptyAgreesOnlyIf<V>(q: map<string, V>, order: Order, seg: string)
    requires ValidOrder(q, order) && Consistent(q)
    requires AgreesBelow(q, [""], Build(q, [""], order))
    ensures ValueAt(q, [seg]) == ValueAt(q, ["", seg])
    ensures BranchAt(q, [""], seg) ==> BranchAt(q, [], seg)
  {
    LookupBelowEmpty(q, order, [seg]);
    assert Lookup(Build(q, [""], order), [seg]) == ValueAt(q, [""] + [seg]);
    assert [""] + [seg] == ["", seg];
    if k :| k in q && Within([""], k) && SegmentAfter([""], k) == seg && !EndsAfter([""], k) {
      var path := Path(k)[1..];
      assert Path(k) == [""] + path;
      ValueIs(q, k);
      assert Lookup(Build(q, [""], order), path) == ValueAt(q, [""] + path);
      LookupBelowEmpty(q, order, path);
    }
  }

  /** The decoder is faithful exactly when no two keys clash and, if any key starts with a dot,
      the keys say the same about the level below the empty segment as about the outermost one.
      Neither condition mentions the order, so a query is decoded faithfully under every order of
      iteration or under none. */
  lemma {:induction false} DecodesExactlyWhen<V>(q: map<string, V>, order: Order)
    requires ValidOrder(q, order)
    ensures Faithful(q, Build(q, [], order)) <==>
            Consistent(q) && (BranchAt(q, [], "") ==> SameTopLevels(q))
  {
    if Faithful(q, Build(q, [], order)) {
      FaithfulOnlyIf(q, order);
    }
    if Consistent(q) && (BranchAt(q, [], "") ==> SameTopLevels(q)) {
      FaithfulIf(q, order);
    }
  }

  lemma {:induction false} FaithfulOnlyIf<V>(q: map<string, V>, order: Order)
    requires ValidOrder(q, order)
    requires Faithful(q, Build(q, [], order))
    ensures Consistent(q)
    ensures BranchAt(q, [], "") ==> SameTopLevels(q)
  {
    FaithfulIsConsistent(q, Build(q, [], order));
    FaithfulIsAgreement(q, Build(q, [], order));
    if BranchAt(q, [], "") {
      RootAgreesOnlyIf(q, order);
      CompactRoot(q, order);
      CompactBelowEmpty(q, order);
      forall seg
        ensures ValueAt(q, [seg]) == ValueAt(q, ["", seg])
        ensures BranchAt(q, [""], seg) ==> BranchAt(q, [], seg)
      {
        BelowEmptyAgreesOnlyIf(q, order, seg);
      }
    }
  }

  lemma {:induction false} FaithfulIf<V>(q: map<string, V>, order: Order)
    requires ValidOrder(q, order)
    requires Consistent(q)
    requires BranchAt(q, [], "") ==> SameTopLevels(q)
    ensures Faithful(q, Build(q, [], order))
  {
    if BranchAt(q, [], "") {
      BelowEmptyAgreesIf(q, order);
      CompactBelowEmpty(q, order);
    }
    CompactRoot(q, order);
    RootAgreesIf(q, order);
    FaithfulIsAgreement(q, Build(q, [], order));
  }

  /** The second condition concerns only queries with a key that starts with a dot. */
  lemma {:induction false} LeadingDot<V>(q: map<string, V>)
    ensures BranchAt(q, [], "") <==> exists k :: k in q && "." <= k
  {
    forall k | k in q
      ensures "." <= k <==> |Path(k)| > 1 && Path(k)[0] == ""
    {
      var bare := TrimSuffix(k, "[]");
      StripAfterPrefix(".", k);
      if "." <= bare {
        SplitCons("", bare, '.');
      } else if |Path(k)| > 1 && Path(k)[0] == "" {
        FirstPart(bare, "", '.');
      }
    }
    if k :| k in q && "." <= k {
      assert Within([], k) && SegmentAfter([], k) == "" && !EndsAfter([], k);
    }
    if k :| k in q && Within([], k) && SegmentAfter([], k) == "" && !EndsAfter([], k) {
      assert "." <= k;
    }
  }

  /** Without leading dots, keys that do not clash are all that is needed; empty segments
      elsewhere do no harm. */
  lemma {:induction false} OrdinaryKeysDecode<V>(q: map<string, V>, order: Order)
    requires ValidOrder(q, order)
    requires forall k :: k in q ==> !("." <= k)
    ensures Faithful(q, Build(q, [], order)) <==> Consistent(q)
  {
    LeadingDot(q);
    DecodesExactlyWhen(q, order);
  }

  /** The value a query has for a text: of the key with that name, or of the array key. */
  function ValueOf<V>(q: map<string, V>, text: string): Option<V> {
    if text in q && !HasSuffix(text, "[]") then Some(q[text])
    else if text + "[]" in q then Some(q[text + "[]"])
    else None
  }

  lemma {:induction false} KeysOfText(k: string, text: string)
    ensures Path(k) == Split(text, '.') <==> (k == text && !HasSuffix(text, "[]")) || k == text + "[]"
  {
    JoinSplit(TrimSuffix(k, "[]"), '.');
    JoinSplit(text, '.');
    assert HasSuffix(text + "[]", "[]") && TrimSuffix(text + "[]", "[]") == text;
    if HasSuffix(k, "[]") {
      assert k == k[..|k| - 2] + k[|k| - 2..];
    }
  }

  /** A faithful tree determines the query: reading it at the segments of any text gives the value
      the query has for that text. */
  lemma {:induction false} FlattenGivesBack<V>(q: map<string, V>, m: map<string, Tree<V>>, text: string)
    requires Faithful(q, m)
    ensures Lookup(m, Split(text, '.')) == ValueOf(q, text)
  {
    KeysOfText(text, text);
    KeysOfText(text + "[]", text);
    if Lookup(m, Split(text, '.')).Some? {
      var k :| k in q && Path(k) == Split(text, '.');
      KeysOfText(k, text);
    }
  }

  /** Once some key starts with a dot, what the tree holds for ".s" is the value of the key "s",
      so a key ".s" without such a companion is lost. */
  lemma {:induction false} DottedKeyReadsBareKey<V>(q: map<string, V>, order: Order, seg: string)
    requires ValidOrder(q, order) && Consistent(q)
    requires exists k :: k in q && "." <= k
    ensures Lookup(Build(q, [], order), ["", seg]) == ValueAt(q, [seg])
  {
    LeadingDot(q);
    RootLookup(q, order, ["", seg]);
    assert ["", seg][1..] == [seg];
    LookupBelowEmpty(q, order, [seg]);
  }
}
