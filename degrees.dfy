/** The degree queries of the `Interactome` class, stated over the keys of the
    adjacency dictionary in iteration order: the largest degree and the keys
    that reach it, the number of keys of a given degree, the degree sum, and
    the local clustering coefficient. */
module Degrees {
  import opened Common
  import opened Graph
  import opened Reach
  import opened Adjacency

  /** Every listed name is a key of the dictionary. */
  predicate Listed(ks: seq<string>, d: Adj) {
    forall k | k in ks :: k in d
  }

  /** `max(len(s) for s in int_dict.values())` over the keys `ks`; 0 when
      there is no key. */
  function MaxDeg(ks: seq<string>, d: Adj): (m: nat)
    requires Listed(ks, d)
    ensures forall k | k in ks :: |d[k]| <= m
    ensures ks != [] ==> exists k | k in ks :: |d[k]| == m
  {
    if ks == [] then 0
    else
      var m := MaxDeg(ks[1..], d);
      assert forall k | k in ks[1..] :: k in ks;
      if ks[1..] == [] || |d[ks[0]]| > m then |d[ks[0]]| else m
  }

  /** The keys of `ks` whose set has `m` elements, in the order of `ks`. */
  function OfDegree(ks: seq<string>, d: Adj, m: int): (r: seq<string>)
    requires Listed(ks, d)
    ensures forall k :: k in r <==> k in ks && |d[k]| == m
    ensures |r| <= |ks|
  {
    if ks == [] then []
    else (if |d[ks[0]]| == m then [ks[0]] else []) + OfDegree(ks[1..], d, m)
  }

  /** The members of `r` that are in `ks` appear in `r` in the order of
      their first positions in `ks`. */
  predicate Ordered(ks: seq<string>, r: seq<string>) {
    forall i, j | 0 <= i < j < |r| && r[i] in ks && r[j] in ks :: IndexOf(ks, r[i]) < IndexOf(ks, r[j])
  }

  /** An ordered selection from the tail stays ordered, with or without the
      head in front. */
  lemma OrderedCons(ks: seq<string>, rt: seq<string>)
    requires ks != [] && Distinct(ks)
    requires Ordered(ks[1..], rt) && forall x | x in rt :: x in ks[1..]
    ensures Ordered(ks, rt) && Ordered(ks, [ks[0]] + rt)
  {
    var t := ks[1..];
    forall x | x in t ensures x in ks && IndexOf(ks, x) == IndexOf(t, x) + 1 {
      assert x != ks[0];
    }
    var r := [ks[0]] + rt;
    forall i, j | 0 <= i < j < |r| ensures IndexOf(ks, r[i]) < IndexOf(ks, r[j]) {
      assert r[j] == rt[j - 1];
      if i > 0 {
        assert r[i] == rt[i - 1];
      }
    }
  }

  /** On duplicate-free keys the selection is duplicate-free and keeps the
      keys' order. */
  lemma {:induction false} OfDegreeOrder(ks: seq<string>, d: Adj, m: int)
    requires Listed(ks, d) && Distinct(ks)
    ensures Distinct(OfDegree(ks, d, m)) && Ordered(ks, OfDegree(ks, d, m))
  {
    if ks != [] {
      var t := ks[1..];
      assert Distinct(t);
      OfDegreeOrder(t, d, m);
      var rt := OfDegree(t, d, m);
      OrderedCons(ks, rt);
      assert ks[0] !in rt by {
        assert ks[0] !in t;
      }
    }
  }

  /** `sum(1 for p in int_dict if len(int_dict[p]) == m)` over the keys `ks`. */
  function CountOf(ks: seq<string>, d: Adj, m: int): (c: nat)
    requires Listed(ks, d)
    ensures c == |OfDegree(ks, d, m)|
  {
    if ks == [] then 0 else (if |d[ks[0]]| == m then 1 else 0) + CountOf(ks[1..], d, m)
  }

  /** On duplicate-free keys the count is the number of keys of degree `m`. */
  lemma CountOfSet(ks: seq<string>, d: Adj, m: int)
    requires Listed(ks, d) && Distinct(ks)
    ensures CountOf(ks, d, m) == |set k | k in ks && |d[k]| == m|
  {
    var r := OfDegree(ks, d, m);
    OfDegreeOrder(ks, d, m);
    DistinctCard(r);
    assert Elems(r) == set k | k in ks && |d[k]| == m;
  }

  /** The counts of the degrees `0 .. b - 1`. */
  function CountsBelow(ks: seq<string>, d: Adj, b: nat): nat
    requires Listed(ks, d)
  {
    if b == 0 then 0 else CountsBelow(ks, d, b - 1) + CountOf(ks, d, b - 1)
  }

  lemma {:induction false} CountsBelowCons(ks: seq<string>, d: Adj, b: nat)
    requires Listed(ks, d) && ks != []
    ensures CountsBelow(ks, d, b) == (if |d[ks[0]]| < b then 1 else 0) + CountsBelow(ks[1..], d, b)
  {
    if b > 0 {
      CountsBelowCons(ks, d, b - 1);
    }
  }

  /** Every key has exactly one degree: once the bound exceeds every degree,
      the counts of all degrees add up to the number of keys. */
  lemma {:induction false} CountsTotal(ks: seq<string>, d: Adj, b: nat)
    requires Listed(ks, d)
    requires forall k | k in ks :: |d[k]| < b
    ensures CountsBelow(ks, d, b) == |ks|
  {
    if ks == [] {
      CountsNone(d, b);
    } else {
      CountsBelowCons(ks, d, b);
      CountsTotal(ks[1..], d, b);
    }
  }

  lemma {:induction false} CountsNone(d: Adj, b: nat)
    ensures CountsBelow([], d, b) == 0
  {
    if b > 0 {
      CountsNone(d, b - 1);
    }
  }

  /** `sum(len(s) for s in int_dict.values())` over the keys `ks`. */
  function DegSum(ks: seq<string>, d: Adj): nat
    requires Listed(ks, d)
  {
    if ks == [] then 0 else |d[ks[0]]| + DegSum(ks[1..], d)
  }

  /** The dictionary's degree sum is the edge list's. */
  lemma {:induction false} DegSumOf(ks: seq<string>, d: Adj, l: seq<Entry>)
    requires Listed(ks, d) && AdjOf(d, l)
    ensures DegSum(ks, d) == SumDeg(ks, l)
  {
    if ks != [] {
      DegSumOf(ks[1..], d, l);
    }
  }

  /** No entry pairs a name with itself. */
  predicate NoSelfPair(l: seq<Entry>) {
    forall t | 0 <= t < |l| && l[t].Tuple? && |l[t].items| >= 2 :: l[t].items[0] != l[t].items[1]
  }

  lemma {:induction false} NoSelfNbr(l: seq<Entry>, u: string)
    requires NoSelfPair(l)
    ensures u !in Nbrs(l, u)
  {
    if l != [] {
      NoSelfNbr(l[..|l| - 1], u);
    }
  }

  /** Without self-pairs, a vertex listed in a duplicate-free `ps` that holds
      every endpoint has at most `|ps| - 1` neighbours. */
  lemma DegreeBound(ps: seq<string>, l: seq<Entry>, u: string)
    requires Distinct(ps) && u in ps && NoSelfPair(l)
    requires forall x | x in Endpoints(l) :: x in ps
    ensures |Nbrs(l, u)| <= |ps| - 1
  {
    NoSelfNbr(l, u);
    forall v | v in Nbrs(l, u) ensures v in Elems(ps) - {u} {
      NbrsInEndpoints(l, u, v);
    }
    SubsetCard(Nbrs(l, u), Elems(ps) - {u});
    DistinctCard(ps);
  }

  lemma {:induction false} SumDegBound(ks: seq<string>, l: seq<Entry>, c: nat)
    requires forall u | u in ks :: |Nbrs(l, u)| <= c
    ensures SumDeg(ks, l) <= |ks| * c
  {
    if ks != [] {
      assert forall u | u in ks[1..] :: u in ks;
      SumDegBound(ks[1..], l, c);
      MulSucc(|ks| - 1, c);
    }
  }

  /** A simple edge list over `n` distinct proteins has at most n(n-1)/2
      interactions. */
  lemma EdgeBound(ps: seq<string>, l: seq<Entry>)
    requires Distinct(ps) && Simple(l)
    requires forall x | x in Endpoints(l) :: x in ps
    ensures 2 * |l| <= |ps| * (|ps| - 1)
  {
    DegreeSum(ps, l);
    if ps != [] {
      DegreesBelow(ps, l);
      SumDegBound(ps, l, |ps| - 1);
    }
  }

  lemma DegreesBelow(ps: seq<string>, l: seq<Entry>)
    requires Distinct(ps) && Simple(l) && ps != []
    requires forall x | x in Endpoints(l) :: x in ps
    ensures forall u | u in ps :: |Nbrs(l, u)| <= |ps| - 1
  {
    assert NoSelfPair(l);
    forall u | u in ps ensures |Nbrs(l, u)| <= |ps| - 1 {
      DegreeBound(ps, l, u);
    }
  }

  /** Proof helper: one more row of `c`. The nonlinear step is proved
      apart, outside the context of the sum it serves. */
  lemma MulSucc(n: nat, c: nat)
    ensures (n + 1) * c == n * c + c
  {
  }

  /** Proof helper: the divisor k(k-1) of the clustering and density ratios
      is positive once k > 1. */
  lemma PositiveProduct(a: nat, b: nat)
    requires a > 0 && b > 0
    ensures a * b > 0
  {
  }

  /** Proof helper: a count over a larger positive count is a ratio in
      [0, 1], the last step of the clustering and density bounds. */
  lemma RatioInUnit(c: nat, m: nat)
    requires 0 < m && c <= m
    ensures 0.0 <= (c as real) / (m as real) <= 1.0
  {
  }

  /** What `clustering(p)` returns: KeyError when `p` or one of its
      neighbours is not a key, 0 for at most one neighbour, and otherwise the
      number of ordered neighbour pairs `(n, nn)` with `nn` adjacent to `n`
      over k(k-1), for k neighbours. */
  function Coefficient(d: Adj, p: string): (r: Result<real>)
    ensures r.Err? ==> r.error == KeyError
    ensures p in d && |d[p]| <= 1 ==> r == Ok(0.0)
  {
    if p !in d then Err(KeyError)
    else if |d[p]| <= 1 then Ok(0.0)
    else if exists n | n in d[p] :: n !in d then Err(KeyError)
    else
      var k := |d[p]|;
      Ok((|NbrPairs(d, d[p], d[p])| as real) / ((k * (k - 1)) as real))
  }

  /** Taking one more vertex `n` into the outer loop of `clustering` adds the
      neighbours of `n` that are in `nb`. */
  lemma NbrPairsStep(adj: Adj, done: set<string>, nb: set<string>, n: string)
    requires n !in done && n in adj
    ensures |NbrPairs(adj, done + {n}, nb)| == |NbrPairs(adj, done, nb)| + |adj[n] * nb|
  {
    var a, b := NbrPairs(adj, done, nb), Row(n, adj[n] * nb);
    assert NbrPairs(adj, done + {n}, nb) == a + b;
    assert a !! b;
    RowCard(n, adj[n] * nb);
  }

  /** One more element of the inner loop of `clustering`. */
  lemma CommonStep(s: set<string>, rest: set<string>, nb: set<string>, x: string)
    requires x in rest && rest <= s
    ensures |(s - (rest - {x})) * nb| == |(s - rest) * nb| + (if x in nb then 1 else 0)
  {
    var a := (s - rest) * nb;
    if x in nb {
      assert (s - (rest - {x})) * nb == a + {x};
      assert x !in a;
    } else {
      assert (s - (rest - {x})) * nb == a;
    }
  }

  /** One more vertex of the outer loop of `clustering`. */
  lemma ClusterStep(adj: Adj, nb: set<string>, rest: set<string>, n: string)
    requires n in rest && rest <= nb && n in adj
    ensures |NbrPairs(adj, nb - (rest - {n}), nb)| == |NbrPairs(adj, nb - rest, nb)| + |adj[n] * nb|
  {
    assert nb - (rest - {n}) == (nb - rest) + {n};
    NbrPairsStep(adj, nb - rest, nb, n);
  }

  /** The coefficient once every neighbour of `p` is a key and the pair
      count is known. */
  lemma CoefficientOf(d: Adj, p: string, sum: nat)
    requires p in d && |d[p]| > 1 && forall n | n in d[p] :: n in d
    requires sum == |NbrPairs(d, d[p], d[p])|
    ensures |d[p]| * (|d[p]| - 1) > 0
    ensures Coefficient(d, p) == Ok((sum as real) / ((|d[p]| * (|d[p]| - 1)) as real))
  {
    var k := |d[p]|;
    assert k * (k - 1) >= k;
  }

  /** Ordered selections from the duplicate-free `Dedup(ps)` keep the order of
      first appearance in `ps`. */
  lemma OrderedDedup(ps: seq<string>, r: seq<string>)
    requires Ordered(Dedup(ps), r) && forall x | x in r :: x in ps
    ensures Ordered(ps, r)
  {
    var d := Dedup(ps);
    DedupElems(ps);
    DedupOrder(ps);
    forall i, j | 0 <= i < j < |r| ensures IndexOf(ps, r[i]) < IndexOf(ps, r[j]) {
      var a, b := IndexOf(d, r[i]), IndexOf(d, r[j]);
      assert d[a] == r[i] && d[b] == r[j];
    }
  }

  /** When no neighbour of `p` is its own neighbour, the coefficient lies in
      [0, 1]; a symmetric dictionary never fails past the key lookup. */
  lemma CoefficientBound(d: Adj, p: string)
    requires p in d && forall n | n in d[p] && n in d :: n !in d[n]
    ensures Coefficient(d, p).Ok? ==> 0.0 <= Coefficient(d, p).value <= 1.0
    ensures Symmetric(d) ==> Coefficient(d, p).Ok?
  {
    var nb := d[p];
    var k := |nb|;
    if k > 1 && forall n | n in nb :: n in d {
      NbrPairsBound(d, nb);
      var c := |NbrPairs(d, nb, nb)|;
      assert k * (k - 1) > 0 by {
        PositiveProduct(k, k - 1);
      }
      RatioInUnit(c, k * (k - 1));
    }
  }
}
