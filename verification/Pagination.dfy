/** Totals over a paginated query (client/server/staking.go, the two GetTotal... handlers): the
    loop asks for page after page until the pager reports no next key. */
module Pagination {
  import opened Machine

  type Key = string

  datatype Delegation = Delegation(validator: nat, shares: int)

  /** A page of delegations; None stands for a response without pagination data, "" for an empty
      next key. */
  datatype Page = Page(items: seq<Delegation>, nextKey: Option<Key>)

  /** How the pager stands to a fixed list: for each start key it returns one page. */
  type Pager = Key -> Page

  /** The pager cuts the list into consecutive, non-empty pages of any sizes: the page for the key
      of position i starts there, and its next key is the key of the first position it does not
      return, if any. */
  ghost predicate Serves(pager: Pager, all: seq<Delegation>, keys: seq<Key>) {
    && |keys| == |all|
    && (forall i :: 0 <= i < |keys| ==> keys[i] != "")
    && (all != [] ==> PageAt(pager(""), all, keys, 0))
    && (all == [] ==> pager("").items == [] && Last(pager("")))
    && (forall i :: 0 <= i < |keys| ==> PageAt(pager(keys[i]), all, keys, i))
  }

  predicate Last(p: Page) {
    p.nextKey.None? || p.nextKey.value == ""
  }

  ghost predicate PageAt(p: Page, all: seq<Delegation>, keys: seq<Key>, i: nat)
    requires |keys| == |all| && i < |all|
  {
    && 0 < |p.items| <= |all| - i
    && p.items == all[i..i + |p.items|]
    && (if i + |p.items| == |all| then Last(p) else p.nextKey == Some(keys[i + |p.items|]))
  }

  /** The amount of one delegation; None when its validator cannot be found. */
  type Amount = Delegation -> Option<int>

  /** The sum of the first n amounts, if they all exist. */
  function Sum(ds: seq<Delegation>, amount: Amount, n: nat): Option<int>
    requires n <= |ds|
  {
    if n == 0 then Some(0)
    else
      var init, last := Sum(ds, amount, n - 1), amount(ds[n - 1]);
      if init.Some? && last.Some? then Some(init.value + last.value) else None
  }

  lemma {:induction false} SumFails(ds: seq<Delegation>, amount: Amount, i: nat, n: nat)
    requires i <= n <= |ds|
    requires Sum(ds, amount, i).None?
    ensures Sum(ds, amount, n).None?
    decreases n - i
  {
    if i < n {
      SumFails(ds, amount, i, n - 1);
    }
  }

  /** The sum over a list in two parts is the sum of the sums, and fails exactly when one of them does. */
  lemma {:induction false} SumOfParts(xs: seq<Delegation>, ys: seq<Delegation>, amount: Amount, n: nat)
    requires n <= |ys|
    ensures var x, y := Sum(xs, amount, |xs|), Sum(ys, amount, n);
            Sum(xs + ys, amount, |xs| + n) == if x.Some? && y.Some? then Some(x.value + y.value) else None
    decreases n
  {
    if n == 0 {
      SamePart(xs, xs + ys, amount, |xs|);
    } else {
      SumOfParts(xs, ys, amount, n - 1);
      assert (xs + ys)[|xs| + n - 1] == ys[n - 1];
    }
  }

  lemma {:induction false} SamePart(xs: seq<Delegation>, ys: seq<Delegation>, amount: Amount, n: nat)
    requires n <= |xs| && xs <= ys
    ensures Sum(xs, amount, n) == Sum(ys, amount, n)
  {
    if n > 0 {
      SamePart(xs, ys, amount, n - 1);
      assert xs[n - 1] == ys[n - 1];
    }
  }

  /** The sum over one delegation is its amount, over none it is zero. */
  lemma {:induction false} SumOfOne(d: Delegation, amount: Amount)
    ensures Sum([], amount, 0) == Some(0)
    ensures Sum([d], amount, 1) == amount(d)
  {
    assert Sum([d], amount, 0) == Some(0);
  }

  /** The sum exists exactly when every amount does. */
  lemma {:induction false} SumExistsExactlyWhen(ds: seq<Delegation>, amount: Amount, n: nat)
    requires n <= |ds|
    ensures Sum(ds, amount, n).Some? <==> forall i :: 0 <= i < n ==> amount(ds[i]).Some?
  {
    if n > 0 {
      SumExistsExactlyWhen(ds, amount, n - 1);
    }
  }

  /** The key that asks for the page at a position. */
  ghost function KeyAt(keys: seq<Key>, i: nat): Key
    requires i < |keys| || i == 0
  {
    if i == 0 then "" else keys[i]
  }

  lemma {:induction false} PageFor(pager: Pager, all: seq<Delegation>, keys: seq<Key>, i: nat)
    requires Serves(pager, all, keys)
    requires i < |all|
    ensures PageAt(pager(KeyAt(keys, i)), all, keys, i)
    ensures keys[i] != ""
  {
  }

  /** A page either ends the list or leads to the next position. */
  lemma {:induction false} NextPosition(pager: Pager, all: seq<Delegation>, keys: seq<Key>, i: nat)
    requires Serves(pager, all, keys)
    requires i < |all|
    ensures var p := pager(KeyAt(keys, i));
            && 0 < |p.items| <= |all| - i && p.items == all[i..i + |p.items|]
            && (Last(p) <==> i + |p.items| == |all|)
            && (!Last(p) ==> p.nextKey.value == KeyAt(keys, i + |p.items|))
  {
    PageFor(pager, all, keys, i);
    var p := pager(KeyAt(keys, i));
    if i + |p.items| < |all| {
      PageFor(pager, all, keys, i + |p.items|);
    }
  }

  /** Whatever the page sizes, the loop ends and its answer is the sum over the whole list, taken
      once per delegation in order; it fails exactly when the amount of some delegation fails. */
  method Total(pager: Pager, amount: Amount, ghost all: seq<Delegation>, ghost keys: seq<Key>)
    returns (total: Option<int>)
    requires Serves(pager, all, keys)
    ensures total == Sum(all, amount, |all|)
  {
    var nextKey: Key := "";
    var sum := 0;
    ghost var done := 0;
    while true
      invariant done == 0 || done < |all|
      invariant nextKey == KeyAt(keys, done)
      invariant Sum(all, amount, done) == Some(sum)
      decreases |all| - done
    {
      var page := pager(nextKey);
      if done < |all| {
        NextPosition(pager, all, keys, done);
      }
      var failed := false;
      sum, failed := AddPage(page, amount, sum, all, done);
      if failed {
        return None;
      }
      done := done + |page.items|;
      if page.nextKey.None? || page.nextKey.value == "" {
        break;
      }
      nextKey := page.nextKey.value;
    }
    total := Some(sum);
  }

  method AddPage(page: Page, amount: Amount, before: int, ghost all: seq<Delegation>, ghost done: nat)
    returns (sum: int, failed: bool)
    requires done + |page.items| <= |all| && page.items == all[done..done + |page.items|]
    requires Sum(all, amount, done) == Some(before)
    ensures failed ==> Sum(all, amount, |all|).None?
    ensures !failed ==> Sum(all, amount, done + |page.items|) == Some(sum)
  {
    sum := before;
    for i := 0 to |page.items|
      invariant Sum(all, amount, done + i) == Some(sum)
    {
      assert page.items[i] == all[done + i];
      var a := amount(page.items[i]);
      if a.None? {
        SumFails(all, amount, done + i + 1, |all|);
        return sum, true;
      }
      sum := sum + a.value;
    }
    failed := false;
  }
}
