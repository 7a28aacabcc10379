/** The sum of the values of a finite map. */
module Totals {
  ghost function Total(m: map<nat, nat>): nat
    decreases m.Keys
  {
    if m == map[] then 0
    else
      var t :| t in m;
      m[t] + Total(m - {t})
  }

  /** Whichever key is taken out first. */
  lemma {:induction false} TotalWithout(m: map<nat, nat>, t: nat)
    requires t in m
    ensures Total(m) == m[t] + Total(m - {t})
    decreases m.Keys
  {
    var u :| u in m && Total(m) == m[u] + Total(m - {u});
    if u != t {
      TotalWithout(m - {u}, t);
      TotalWithout(m - {t}, u);
      assert m - {u} - {t} == m - {t} - {u};
    }
  }

  lemma TotalUpdate(m: map<nat, nat>, t: nat, v: nat)
    ensures Total(m[t := v]) == Total(m) + v - (if t in m then m[t] else 0)
  {
    TotalWithout(m[t := v], t);
    if t in m {
      TotalWithout(m, t);
      assert m[t := v] - {t} == m - {t};
    } else {
      assert m[t := v] - {t} == m;
    }
  }

  lemma SizeWithout(m: map<nat, nat>, t: nat)
    requires t in m
    ensures |m| == |m - {t}| + 1
  {
    assert m.Keys == (m - {t}).Keys + {t};
  }

  lemma OneMore(bound: nat, n: nat)
    ensures bound * (n + 1) == bound * n + bound
  {
  }

  lemma {:induction false} TotalAtMost(m: map<nat, nat>, bound: nat)
    requires forall t | t in m :: m[t] <= bound
    ensures Total(m) <= bound * |m|
    decreases m.Keys
  {
    if m == map[] {
      assert |m| == 0;
    } else {
      hide Total;
      var t :| t in m;
      TotalWithout(m, t);
      TotalAtMost(m - {t}, bound);
      SizeWithout(m, t);
      OneMore(bound, |m - {t}|);
    }
  }
}
