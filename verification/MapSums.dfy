/** Sums over the values of a finite map. */
module MapSums {

  ghost function Sum<P>(m: map<nat, P>, weight: P -> nat): nat
    decreases |m|
  {
    if m == map[] then 0 else var t :| t in m; weight(m[t]) + Sum(m - {t}, weight)
  }

  // Any key can be counted first.
  lemma {:induction false} SumOut<P>(m: map<nat, P>, weight: P -> nat, t: nat)
    requires t in m
    ensures Sum(m, weight) == weight(m[t]) + Sum(m - {t}, weight)
    decreases |m|
  {
    var u :| u in m && Sum(m, weight) == weight(m[u]) + Sum(m - {u}, weight);
    if u != t {
      SumOut(m - {u}, weight, t);
      SumOut(m - {t}, weight, u);
      assert m - {u} - {t} == m - {t} - {u};
    }
  }

  lemma SumMove<P>(m: map<nat, P>, weight: P -> nat, t: nat, p: P)
    requires t in m
    ensures Sum(m[t := p], weight) == Sum(m, weight) - weight(m[t]) + weight(p)
  {
    SumOut(m, weight, t);
    SumOut(m[t := p], weight, t);
    assert m[t := p] - {t} == m - {t};
  }
}
