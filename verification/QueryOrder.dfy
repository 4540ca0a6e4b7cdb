/** When the decoder's result depends on Go's order of iteration over the query
    (client/server/utils/querymap.go, the range loop of buildMap). */
module QueryOrder {
  import opened Machine
  import opened Strings
  import opened QueryMap

  ghost predicate NoRepeats(xs: seq<string>) {
    forall i, j :: 0 <= i < j < |xs| ==> xs[i] != xs[j]
  }

  /** An order a run of the program may take: every call meets every key once. */
  ghost predicate IsOrder<V>(q: map<string, V>, order: Order) {
    ValidOrder(q, order) && forall prefix :: NoRepeats(order(prefix))
  }

  /** The call gives the same maps whatever the orders. */
  ghost predicate OrderFree<V>(q: map<string, V>, prefix: seq<string>) {
    forall order, order' :: IsOrder(q, order) && IsOrder(q, order') ==>
        Build(q, prefix, order) == Build(q, prefix, order')
  }

  /** The keys agree at the level of the call and at the level of every call below it. */
  ghost predicate Stable<V>(q: map<string, V>, prefix: seq<string>)
    requires DotFree(prefix)
    decreases Bound(q) - Weight(prefix)
  {
    var e := Effective(prefix);
    && LevelAgrees(q, e)
    && forall k :: k in q && Within(e, k) && !EndsAfter(e, k) ==>
         (NestedPrefix(prefix, k); Stable(q, prefix + [SegmentAfter(e, k)]))
  }

  // ---------------------------------------------------------------------------------------
  // Agreement is enough
  // ---------------------------------------------------------------------------------------

  lemma {:induction false} StableIsSame<V>(q: map<string, V>, prefix: seq<string>, order: Order, order': Order)
    requires ValidOrder(q, order) && ValidOrder(q, order')
    requires DotFree(prefix) && Stable(q, prefix)
    ensures Build(q, prefix, order) == Build(q, prefix, order')
    decreases Bound(q) - Weight(prefix)
  {
    var e := Effective(prefix);
    LevelIsTable(q, prefix, order);
    LevelIsTable(q, prefix, order');
    forall k | k in q && Within(e, k)
      ensures Entry(q, e, Children(q, prefix, order), k) == Entry(q, e, Children(q, prefix, order'), k)
    {
      if !EndsAfter(e, k) {
        NestedPrefix(prefix, k);
        StableIsSame(q, prefix + [SegmentAfter(e, k)], order, order');
      }
    }
    SameTables(q, e, Children(q, prefix, order), Children(q, prefix, order'),
               Build(q, prefix, order), Build(q, prefix, order'));
  }

  // ---------------------------------------------------------------------------------------
  // Disagreement shows
  // ---------------------------------------------------------------------------------------

  lemma {:induction false} Enumerate(s: set<string>) returns (xs: seq<string>)
    ensures NoRepeats(xs)
    ensures forall k :: k in xs <==> k in s
    decreases |s|
  {
    if s == {} {
      xs := [];
    } else {
      var k :| k in s;
      var rest := Enumerate(s - {k});
      xs := [k] + rest;
    }
  }

  /** An order in which the call with this prefix meets the keys as listed. */
  lemma {:induction false} OrderWith<V>(q: map<string, V>, prefix: seq<string>, xs: seq<string>) returns (order: Order)
    requires NoRepeats(xs) && forall k :: k in xs <==> k in q
    ensures IsOrder(q, order) && order(prefix) == xs
  {
    order := _ => xs;
  }

  /** The order that meets the keys of s first, then k, then the others. */
  lemma {:induction false} Arrange<V>(q: map<string, V>, s: set<string>, k: string) returns (xs: seq<string>, j: nat)
    requires s <= q.Keys && k in q && k !in s
    ensures NoRepeats(xs) && forall x :: x in xs <==> x in q
    ensures j < |xs| && xs[j] == k
    ensures forall i :: 0 <= i < |xs| ==> (xs[i] in s <==> i < j)
  {
    var first := Enumerate(s);
    var rest := Enumerate(q.Keys - s - {k});
    xs, j := first + [k] + rest, |first|;
    forall i | 0 <= i < |xs|
      ensures xs[i] in s <==> i < j
    {
      if i < j {
        assert xs[i] == first[i];
      } else if i > j {
        assert xs[i] == rest[i - j - 1];
        assert rest[i - j - 1] in rest;
      }
    }
  }

  /** The key stores a leaf for the segment. */
  ghost predicate LeafFor(e: seq<string>, seg: string, k: string) {
    Within(e, k) && SegmentAfter(e, k) == seg && EndsAfter(e, k)
  }

  /** The key asks for a branch at the segment. */
  ghost predicate BranchFor(e: seq<string>, seg: string, k: string) {
    Within(e, k) && SegmentAfter(e, k) == seg && !EndsAfter(e, k)
  }

  ghost predicate HasLeaf<V>(ret: map<string, Tree<V>>, seg: string, vs: V) {
    seg in ret && ret[seg] == Leaf(vs)
  }

  /** A leaf met last is what the call returns for its segment. */
  lemma {:induction false} LastLeafWins<V>(q: map<string, V>, prefix: seq<string>, order: Order, k: string, seg: string)
    requires ValidOrder(q, order) && DotFree(prefix) && k in q
    requires |order(prefix)| > 0 && order(prefix)[|order(prefix)| - 1] == k && LeafFor(Effective(prefix), seg, k)
    ensures HasLeaf(Build(q, prefix, order), seg, q[k])
  {
    var acts := BuildIsPerformed(q, prefix, order);
    assert acts[|acts| - 1] == ActionOf(q, Effective(prefix), Children(q, prefix, order), k);
    assert acts[|acts| - 1] == Store(seg, Leaf(q[k]));
  }

  ghost predicate Unmarked<V>(st: State<V>, seg: string) {
    seg !in st.mapped
  }

  ghost predicate Branched<V>(st: State<V>, seg: string) {
    seg in st.mapped && seg in st.ret && st.ret[seg].Branch?
  }

  ghost predicate StoresLeaf<V>(act: Action<V>, seg: string) {
    act.Store? && act.seg == seg && act.entry.Leaf?
  }

  ghost predicate StoresBranch<V>(act: Action<V>, seg: string) {
    act.Store? && act.seg == seg && act.entry.Branch?
  }

  lemma {:induction false} NotMarked<V>(acts: seq<Action<V>>, n: nat, seg: string)
    requires n <= |acts|
    requires forall i :: 0 <= i < n ==> !StoresBranch(acts[i], seg)
    ensures Unmarked(Performed(acts, n), seg)
  {
    if n > 0 {
      NotMarked(acts, n - 1, seg);
      assert !StoresBranch(acts[n - 1], seg);
    }
  }

  /** A branch stored after no other branch of its segment and before no leaf is there at the end. */
  lemma {:induction false} FirstBranchStays<V>(acts: seq<Action<V>>, j: nat, n: nat, seg: string)
    requires j < n <= |acts| && StoresBranch(acts[j], seg)
    requires forall i :: 0 <= i < j ==> !StoresBranch(acts[i], seg)
    requires forall i :: j < i < |acts| ==> !StoresLeaf(acts[i], seg)
    ensures Branched(Performed(acts, n), seg)
  {
    if j < n - 1 {
      FirstBranchStays(acts, j, n - 1, seg);
      assert !StoresLeaf(acts[n - 1], seg);
    } else {
      NotMarked(acts, j, seg);
    }
  }

  lemma {:induction false} StoresWhatItIsFor<V>(q: map<string, V>, e: seq<string>, nested: Nested<V>, key: string,
                                                seg: string)
    requires key in q
    ensures StoresLeaf(ActionOf(q, e, nested, key), seg) <==> LeafFor(e, seg, key)
    ensures StoresBranch(ActionOf(q, e, nested, key), seg) <==> BranchFor(e, seg, key)
  {
  }

  /** An order that gives the segment of k the leaf of k. */
  lemma {:induction false} LeafLast<V>(q: map<string, V>, prefix: seq<string>, k: string) returns (order: Order)
    requires DotFree(prefix) && k in q && Within(Effective(prefix), k) && EndsAfter(Effective(prefix), k)
    ensures IsOrder(q, order)
    ensures HasLeaf(Build(q, prefix, order), SegmentAfter(Effective(prefix), k), q[k])
  {
    var xs, j := Arrange(q, q.Keys - {k}, k);
    assert xs[|xs| - 1] in xs;
    assert j == |xs| - 1;
    order := OrderWith(q, prefix, xs);
    LastLeafWins(q, prefix, order, k, SegmentAfter(Effective(prefix), k));
  }

  /** An order that gives the segment of k a branch. */
  lemma {:induction false} LeavesFirst<V>(q: map<string, V>, prefix: seq<string>, k: string) returns (order: Order)
    requires DotFree(prefix) && k in q && Within(Effective(prefix), k) && !EndsAfter(Effective(prefix), k)
    ensures IsOrder(q, order)
    ensures var m, seg := Build(q, prefix, order), SegmentAfter(Effective(prefix), k);
            seg in m && m[seg].Branch?
  {
    var e := Effective(prefix);
    var seg := SegmentAfter(e, k);
    var leaves := set x | x in q && LeafFor(e, seg, x);
    var xs, j := Arrange(q, leaves, k);
    order := OrderWith(q, prefix, xs);
    var acts := BuildIsPerformed(q, prefix, order);
    forall i | 0 <= i < |xs|
      ensures i == j ==> StoresBranch(acts[i], seg)
      ensures i < j ==> !StoresBranch(acts[i], seg)
      ensures i > j ==> !StoresLeaf(acts[i], seg)
    {
      assert acts[i] == ActionOf(q, e, Children(q, prefix, order), xs[i]);
      StoresWhatItIsFor(q, e, Children(q, prefix, order), xs[i], seg);
    }
    FirstBranchStays(acts, j, |acts|, seg);
  }

  /** Keys that disagree at a call's own level give it different results in different orders. */
  lemma {:induction false} DisagreementShows<V>(q: map<string, V>, prefix: seq<string>, k: string, k': string)
    requires DotFree(prefix) && k in q && k' in q && Disagree(q, Effective(prefix), k, k')
    ensures !OrderFree(q, prefix)
  {
    var order := LeafLast(q, prefix, k);
    var order';
    if EndsAfter(Effective(prefix), k') {
      order' := LeafLast(q, prefix, k');
    } else {
      order' := LeavesFirst(q, prefix, k');
    }
    assert Build(q, prefix, order) != Build(q, prefix, order');
  }

  /** If the level of a call agrees, whatever depends on the order below it shows in it. */
  lemma {:induction false} NestedShows<V>(q: map<string, V>, prefix: seq<string>, k: string)
    requires DotFree(prefix) && LevelAgrees(q, Effective(prefix))
    requires k in q && Within(Effective(prefix), k) && !EndsAfter(Effective(prefix), k)
    requires !OrderFree(q, prefix + [SegmentAfter(Effective(prefix), k)])
    ensures !OrderFree(q, prefix)
  {
    var e := Effective(prefix);
    var nested := prefix + [SegmentAfter(e, k)];
    var order, order' :| IsOrder(q, order) && IsOrder(q, order') && Build(q, nested, order) != Build(q, nested, order');
    LevelIsTable(q, prefix, order);
    LevelIsTable(q, prefix, order');
    TableAt(q, e, Children(q, prefix, order), Build(q, prefix, order), k);
    TableAt(q, e, Children(q, prefix, order'), Build(q, prefix, order'), k);
    assert Build(q, prefix, order) != Build(q, prefix, order');
  }

  lemma {:induction false} UnstableShows<V>(q: map<string, V>, prefix: seq<string>)
    requires DotFree(prefix) && !Stable(q, prefix)
    ensures !OrderFree(q, prefix)
    decreases Bound(q) - Weight(prefix)
  {
    var e := Effective(prefix);
    if LevelAgrees(q, e) {
      var k :| k in q && Within(e, k) && !EndsAfter(e, k) &&
               (NestedPrefix(prefix, k); !Stable(q, prefix + [SegmentAfter(e, k)]));
      NestedPrefix(prefix, k);
      UnstableShows(q, prefix + [SegmentAfter(e, k)]);
      NestedShows(q, prefix, k);
    } else {
      var k, k' :| k in q && k' in q && Disagree(q, e, k, k');
      DisagreementShows(q, prefix, k, k');
    }
  }

  // ---------------------------------------------------------------------------------------
  // The condition on the keys
  // ---------------------------------------------------------------------------------------

  /** No two keys clash at a path below p. */
  ghost predicate NoClashBelow<V>(q: map<string, V>, p: seq<string>) {
    forall k, k' {:trigger Clash(q, k, k')} :: k in q && k' in q && Clash(q, k, k') ==> !(p < Path(k))
  }

  /** No call looks at the path: it lies below a leading dot, either right there or under a
      segment that no key goes on from at the outermost level. */
  ghost predicate Hidden<V>(q: map<string, V>, path: seq<string>) {
    |path| >= 2 && path[0] == "" && (|path| == 2 || !BranchAt(q, [], path[1]))
  }

  /** Keys clash only at paths that no call looks at. */
  ghost predicate NoVisibleClash<V>(q: map<string, V>) {
    forall k, k' {:trigger Clash(q, k, k')} :: k in q && k' in q && Clash(q, k, k') ==> Hidden(q, Path(k))
  }

  lemma {:induction false} LevelOfNoClash<V>(q: map<string, V>, e: seq<string>)
    requires forall k, k' {:trigger Clash(q, k, k')} :: k in q && k' in q && Clash(q, k, k') ==>
        !(Within(e, k) && EndsAfter(e, k))
    ensures LevelAgrees(q, e)
  {
    forall k, k' | k in q && k' in q
      ensures !Disagree(q, e, k, k')
    {
      DisagreeIsClash(q, e, k, k');
    }
  }

  /** A key that goes on after e lies below its next segment. */
  lemma {:induction false} GoesOn(e: seq<string>, k: string)
    requires Within(e, k) && !EndsAfter(e, k)
    ensures e + [SegmentAfter(e, k)] < Path(k)
  {
    PathSplit(Path(k), e);
  }

  lemma {:induction false} StableIf<V>(q: map<string, V>, p: seq<string>)
    requires DotFree(p) && p != [] && p != [""]
    requires NoClashBelow(q, p)
    ensures Stable(q, p)
    decreases Bound(q) - Weight(p)
  {
    LevelOfNoClash(q, p);
    forall k | k in q && Within(p, k) && !EndsAfter(p, k)
      ensures DotFree(p + [SegmentAfter(p, k)]) && Stable(q, p + [SegmentAfter(p, k)])
    {
      NestedPrefix(p, k);
      StableIf(q, p + [SegmentAfter(p, k)]);
    }
  }

  lemma {:induction false} StableOnlyIf<V>(q: map<string, V>, p: seq<string>, k: string, k': string)
    requires DotFree(p) && p != [] && p != [""]
    requires Stable(q, p)
    requires k in q && k' in q && Clash(q, k, k')
    ensures !(p < Path(k))
    decreases Bound(q) - Weight(p)
  {
    if p < Path(k) {
      DisagreeIsClash(q, p, k, k');
      assert !Disagree(q, p, k, k');
      NestedPrefix(p, k);
      GoesOn(p, k);
      StableOnlyIf(q, p + [SegmentAfter(p, k)], k, k');
    }
  }

  /** The call for a leading dot: its level is the outermost one, its nested calls lie below the
      empty segment. */
  lemma {:induction false} StableBelowEmptyIf<V>(q: map<string, V>)
    requires NoVisibleClash(q)
    ensures Stable(q, [""])
  {
    LevelOfNoClash(q, []);
    forall k | k in q && Within([], k) && !EndsAfter([], k)
      ensures DotFree([""] + [SegmentAfter([], k)]) && Stable(q, [""] + [SegmentAfter([], k)])
    {
      var seg := SegmentAfter([], k);
      NestedPrefix([""], k);
      assert BranchAt(q, [], seg);
      NothingVisibleBelow(q, seg);
      StableIf(q, [""] + [seg]);
    }
  }

  lemma {:induction false} BelowDot(seg: string, path: seq<string>)
    ensures [""] + [seg] < path <==> |path| > 2 && path[0] == "" && path[1] == seg
  {
    if |path| > 2 && path[0] == "" && path[1] == seg {
      assert path[..2] == [""] + [seg];
    }
    if [""] + [seg] < path {
      assert path[1] == ([""] + [seg])[1];
    }
  }

  lemma {:induction false} NothingVisibleBelow<V>(q: map<string, V>, seg: string)
    requires NoVisibleClash(q)
    requires BranchAt(q, [], seg)
    ensures NoClashBelow(q, [""] + [seg])
  {
    forall k, k' | k in q && k' in q && Clash(q, k, k')
      ensures !([""] + [seg] < Path(k))
    {
      BelowDot(seg, Path(k));
    }
  }

  lemma {:induction false} StableRootIf<V>(q: map<string, V>)
    requires NoVisibleClash(q)
    ensures Stable(q, [])
  {
    LevelOfNoClash(q, []);
    forall k | k in q && Within([], k) && !EndsAfter([], k)
      ensures DotFree([] + [SegmentAfter([], k)]) && Stable(q, [] + [SegmentAfter([], k)])
    {
      var seg := SegmentAfter([], k);
      NestedPrefix([], k);
      assert [] + [seg] == [seg];
      if seg == "" {
        StableBelowEmptyIf(q);
      } else {
        assert NoClashBelow(q, [seg]);
        StableIf(q, [seg]);
      }
    }
  }

  lemma {:induction false} StableRootOnlyIf<V>(q: map<string, V>, k: string, k': string)
    requires Stable(q, [])
    requires k in q && k' in q && Clash(q, k, k')
    ensures Hidden(q, Path(k))
  {
    DisagreeIsClash(q, [], k, k');
    assert !Disagree(q, [], k, k');
    var seg := SegmentAfter([], k);
    NestedPrefix([], k);
    GoesOn([], k);
    assert [] + [seg] == [seg];
    if seg != "" {
      StableOnlyIf(q, [seg], k, k');
    } else if |Path(k)| > 2 && BranchAt(q, [], Path(k)[1]) {
      StableBelowEmptyOnlyIf(q, k, k');
    }
  }

  lemma {:induction false} StableBelowEmptyOnlyIf<V>(q: map<string, V>, k: string, k': string)
    requires Stable(q, [""])
    requires k in q && k' in q && Clash(q, k, k')
    requires |Path(k)| > 2 && Path(k)[0] == ""
    ensures !BranchAt(q, [], Path(k)[1])
  {
    var seg := Path(k)[1];
    BelowDot(seg, Path(k));
    if x :| x in q && Within([], x) && SegmentAfter([], x) == seg && !EndsAfter([], x) {
      NestedPrefix([""], x);
      StableOnlyIf(q, [""] + [seg], k, k');
    }
  }

  /** The exact condition: the decoder gives the same result in every order if and only if keys
      clash only where no call looks. */
  lemma {:induction false} OrderIrrelevantExactlyWhen<V>(q: map<string, V>)
    ensures OrderFree(q, []) <==> NoVisibleClash(q)
  {
    if NoVisibleClash(q) {
      StableRootIf(q);
      forall order, order' | IsOrder(q, order) && IsOrder(q, order')
        ensures Build(q, [], order) == Build(q, [], order')
      {
        StableIsSame(q, [], order, order');
      }
    } else if Stable(q, []) {
      var k, k' :| k in q && k' in q && Clash(q, k, k') && !Hidden(q, Path(k));
      StableRootOnlyIf(q, k, k');
    } else {
      UnstableShows(q, []);
    }
  }

  lemma {:induction false} HiddenStartsWithDot<V>(q: map<string, V>, k: string)
    requires k in q
    ensures Hidden(q, Path(k)) ==> BranchAt(q, [], "")
  {
    if Hidden(q, Path(k)) {
      assert Within([], k) && SegmentAfter([], k) == "" && !EndsAfter([], k);
    }
  }

  /** Without leading dots every clash shows, so the condition is that there is none. */
  lemma {:induction false} OrdinaryKeysOrderIrrelevant<V>(q: map<string, V>)
    requires forall k :: k in q ==> !("." <= k)
    ensures OrderFree(q, []) <==> Consistent(q)
  {
    OrderIrrelevantExactlyWhen(q);
    LeadingDot(q);
    forall k | k in q
      ensures !Hidden(q, Path(k))
    {
      HiddenStartsWithDot(q, k);
    }
  }

  lemma {:induction false} ConsistentIsStable<V>(q: map<string, V>, prefix: seq<string>)
    requires Consistent(q) && DotFree(prefix)
    ensures Stable(q, prefix)
    decreases Bound(q) - Weight(prefix)
  {
    var e := Effective(prefix);
    ConsistentLevel(q, e);
    forall k | k in q && Within(e, k) && !EndsAfter(e, k)
      ensures DotFree(prefix + [SegmentAfter(e, k)]) && Stable(q, prefix + [SegmentAfter(e, k)])
    {
      NestedPrefix(prefix, k);
      ConsistentIsStable(q, prefix + [SegmentAfter(e, k)]);
    }
  }

  /** On a consistent query the result of no call depends on the order in which any of the calls
      ranges over the query. */
  lemma {:induction false} OrderIrrelevant<V>(q: map<string, V>, prefix: seq<string>, order: Order, order': Order)
    requires ValidOrder(q, order) && ValidOrder(q, order')
    requires Consistent(q) && DotFree(prefix)
    ensures Build(q, prefix, order) == Build(q, prefix, order')
  {
    ConsistentIsStable(q, prefix);
    StableIsSame(q, prefix, order, order');
  }

  lemma {:induction false} PathBelowDot(name: string)
    requires '.' !in name && !HasSuffix("." + name, "[]")
    ensures Path("." + name) == ["", name] && Path("." + name + "[]") == ["", name]
  {
    var key := "." + name;
    SplitCons("", key, '.');
    assert key[1..] == name;
    NoSeparator(name, '.');
    assert HasSuffix(key + "[]", "[]") && TrimSuffix(key + "[]", "[]") == key;
  }

  /** Two keys that name one path below a leading dot clash out of sight. */
  lemma {:induction false} HiddenPair<V>(q: map<string, V>, k: string, k': string, seg: string)
    requires q.Keys == {k, k'} && Path(k) == Path(k') == ["", seg]
    ensures OrderFree(q, [])
  {
    OrderIrrelevantExactlyWhen(q);
  }

  /** Such clashes exist: for any name, the keys ".name" and ".name[]" clash with different values, and
      still decode to the same maps in every order. */
  lemma {:induction false} HiddenClash<V>(name: string, x: V, y: V)
    requires '.' !in name && !HasSuffix("." + name, "[]") && x != y
    ensures var q := map["." + name := x, "." + name + "[]" := y];
            !Consistent(q) && OrderFree(q, [])
  {
    var k, k' := "." + name, "." + name + "[]";
    var q := map[k := x, k' := y];
    PathBelowDot(name);
    assert |k'| == |k| + 2;
    assert Clash(q, k, k');
    HiddenPair(q, k, k', name);
  }
}
