/** Sums of the values of a map over a set of its keys. */
module Sums {

  ghost function SumOver(m: map<nat, nat>, s: set<nat>): nat
    requires s <= m.Keys
  {
    if s == {} then 0
    else
      var k :| k in s;
      m[k] + SumOver(m, s - {k})
  }

  /** The sum of all values. */
  ghost function Total(m: map<nat, nat>): nat {
    SumOver(m, m.Keys)
  }

  lemma {:induction false} SumSplit(m: map<nat, nat>, s: set<nat>, k: nat)
    requires s <= m.Keys && k in s
    ensures SumOver(m, s) == m[k] + SumOver(m, s - {k})
    decreases |s|
  {
    var j :| j in s && SumOver(m, s) == m[j] + SumOver(m, s - {j});
    if j != k {
      SumSplit(m, s - {j}, k);
      SumSplit(m, s - {k}, j);
      assert s - {j} - {k} == s - {k} - {j};
    }
  }

  lemma {:induction false} SumAdd(m: map<nat, nat>, s: set<nat>, k: nat)
    requires s + {k} <= m.Keys && k !in s
    ensures SumOver(m, s + {k}) == SumOver(m, s) + m[k]
  {
    SumSplit(m, s + {k}, k);
    assert s + {k} - {k} == s;
  }

  lemma {:induction false} SumUnion(m: map<nat, nat>, s: set<nat>, t: set<nat>)
    requires s <= m.Keys && t <= m.Keys
    ensures SumOver(m, s) + SumOver(m, t) == SumOver(m, s + t) + SumOver(m, s * t)
    decreases |t|
  {
    if t == {} {
      assert s + t == s && s * t == {};
    } else {
      var k :| k in t;
      var u := t - {k};
      SumUnion(m, s, u);
      assert t == u + {k};
      SumAdd(m, u, k);
      if k in s {
        assert s + u == s + t && s * t == s * u + {k};
        SumAdd(m, s * u, k);
      } else {
        assert s + t == s + u + {k} && s * u == s * t;
        SumAdd(m, s + u, k);
      }
    }
  }

  lemma {:induction false} SumMonotone(m: map<nat, nat>, s: set<nat>, t: set<nat>)
    requires s <= t <= m.Keys
    ensures SumOver(m, s) <= SumOver(m, t)
  {
    SumUnion(m, s, t - s);
    assert s + (t - s) == t && s * (t - s) == {};
  }

  lemma {:induction false} SumAgree(m: map<nat, nat>, m': map<nat, nat>, s: set<nat>)
    requires s <= m.Keys && s <= m'.Keys
    requires forall k :: k in s ==> m[k] == m'[k]
    ensures SumOver(m, s) == SumOver(m', s)
    decreases |s|
  {
    if s != {} {
      var k :| k in s;
      SumSplit(m, s, k);
      SumSplit(m', s, k);
      SumAgree(m, m', s - {k});
    }
  }

  function Value(m: map<nat, nat>, k: nat): nat {
    if k in m then m[k] else 0
  }

  /** Changing one value changes the total by the difference. */
  lemma {:induction false} TotalUpdate(m: map<nat, nat>, k: nat, v: nat)
    ensures Total(m[k := v]) + Value(m, k) == Total(m) + v
  {
    var m', rest := m[k := v], m.Keys - {k};
    assert m'.Keys == rest + {k};
    SumAdd(m', rest, k);
    SumAgree(m, m', rest);
    if k in m {
      SumSplit(m, m.Keys, k);
    } else {
      assert rest == m.Keys;
    }
  }
}
