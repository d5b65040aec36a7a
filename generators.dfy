/** Specifications of the random graph generators. The calls of
    `random.random()` are an explicit stream: `draws(k)` is the value the k-th
    call returns. */
module Generators {
  import opened Common
  import opened Graph

  /** The draws `random.random()` returns, in call order. */
  type Draws = nat -> real

  /** Every draw lies in [0, 1), as `random.random()` promises. */
  ghost predicate UnitDraws(draws: Draws) {
    forall k: nat :: 0.0 <= draws(k) < 1.0
  }

  // ---- Erdos-Renyi over unordered pairs (interactome.py) ----

  /** The index pairs `(i, j)` with `i < j < n`, for one row `i`. */
  function RowPairs(i: nat, n: nat): seq<(nat, nat)> {
    if i + 1 >= n then [] else seq(n - i - 1, t requires 0 <= t < n - i - 1 => (i, i + 1 + t))
  }

  /** The pairs of rows `0 .. i-1`, in the order of the nested loops. */
  function Rows(i: nat, n: nat): seq<(nat, nat)> {
    if i == 0 then [] else Rows(i - 1, n) + RowPairs(i - 1, n)
  }

  /** The index pairs the uniform generator examines, in order. */
  function UpperPairs(n: nat): seq<(nat, nat)> {
    Rows(n, n)
  }

  predicate PairsWithin(pairs: seq<(nat, nat)>, n: nat) {
    forall t | 0 <= t < |pairs| :: pairs[t].0 < n && pairs[t].1 < n
  }

  /** The edges chosen from `pairs`: pair t is taken when draw t is below `q`. */
  function Select(ps: seq<string>, pairs: seq<(nat, nat)>, q: real, draws: Draws): seq<Entry>
    requires PairsWithin(pairs, |ps|)
  {
    if pairs == [] then []
    else
      var p := pairs[|pairs| - 1];
      Select(ps, pairs[..|pairs| - 1], q, draws)
      + (if draws(|pairs| - 1) < q then [Pair(ps[p.0], ps[p.1])] else [])
  }

  lemma RowsShape(i: nat, n: nat)
    requires i <= n
    ensures forall t | 0 <= t < |Rows(i, n)| :: Rows(i, n)[t].0 < i && Rows(i, n)[t].0 < Rows(i, n)[t].1 < n
    ensures Distinct(Rows(i, n))
    ensures 2 * |Rows(i, n)| == i * (2 * n - i - 1)
  {
    RowsBounds(i, n);
    RowsDistinct(i, n);
    RowsLength(i, n);
  }

  lemma RowPairsShape(i: nat, n: nat)
    requires i < n
    ensures |RowPairs(i, n)| == n - i - 1
    ensures forall t | 0 <= t < |RowPairs(i, n)| :: RowPairs(i, n)[t] == (i, i + 1 + t)
  {
  }

  lemma {:induction false} RowsBounds(i: nat, n: nat)
    requires i <= n
    ensures forall t | 0 <= t < |Rows(i, n)| :: Rows(i, n)[t].0 < i && Rows(i, n)[t].0 < Rows(i, n)[t].1 < n
  {
    if i > 0 {
      RowsBounds(i - 1, n);
      RowPairsShape(i - 1, n);
    }
  }

  lemma {:induction false} RowsDistinct(i: nat, n: nat)
    requires i <= n
    ensures Distinct(Rows(i, n))
  {
    if i > 0 {
      var p: seq<(nat, nat)>, r: seq<(nat, nat)> := Rows(i - 1, n), RowPairs(i - 1, n);
      RowsDistinct(i - 1, n);
      RowsBounds(i - 1, n);
      RowPairsShape(i - 1, n);
      forall a: int, b: int | 0 <= a < b < |p + r| ensures (p + r)[a] != (p + r)[b] {
        if b >= |p| && a >= |p| {
          assert (p + r)[a] == r[a - |p|] && (p + r)[b] == r[b - |p|];
        } else if b >= |p| {
          assert (p + r)[a] == p[a] && (p + r)[b] == r[b - |p|];
        } else {
          assert (p + r)[a] == p[a] && (p + r)[b] == p[b];
        }
      }
    }
  }

  lemma {:induction false} RowsLength(i: nat, n: nat)
    requires i <= n
    ensures 2 * |Rows(i, n)| == i * (2 * n - i - 1)
  {
    if i > 0 {
      RowsLength(i - 1, n);
      RowPairsShape(i - 1, n);
      RowsArith(i, n, |Rows(i - 1, n)|);
    }
  }

  lemma RowsArith(i: nat, n: nat, m: nat)
    requires 0 < i <= n && 2 * m == (i - 1) * (2 * n - i)
    ensures 2 * (m + (n - i)) == i * (2 * n - i - 1)
  {
  }

  /** Every pair `a < b < n` is examined. */
  lemma {:induction false} RowsComplete(i: nat, n: nat, a: nat, b: nat)
    requires a < i && a < b < n
    ensures (a, b) in Rows(i, n)
  {
    if a < i - 1 {
      RowsComplete(i - 1, n, a, b);
    } else {
      assert RowPairs(a, n)[b - a - 1] == (a, b);
    }
  }

  /** The uniform generator examines exactly the n(n-1)/2 pairs `i < j`,
      each once. */
  lemma UpperPairsShape(n: nat)
    ensures PairsWithin(UpperPairs(n), n) && Distinct(UpperPairs(n))
    ensures forall t | 0 <= t < |UpperPairs(n)| :: UpperPairs(n)[t].0 < UpperPairs(n)[t].1
    ensures forall a: nat, b: nat | a < b < n :: (a, b) in UpperPairs(n)
    ensures 2 * |UpperPairs(n)| == n * (n - 1)
  {
    RowsShape(n, n);
    forall a: nat, b: nat | a < b < n ensures (a, b) in UpperPairs(n) {
      RowsComplete(n, n, a, b);
    }
  }

  /** The edges `build_from_random` appends (interactome.py:99-104). */
  function ErdosRenyiEdges(ps: seq<string>, q: real, draws: Draws): seq<Entry> {
    UpperPairsShape(|ps|);
    Select(ps, UpperPairs(|ps|), q, draws)
  }

  lemma SelectSnoc(ps: seq<string>, pairs: seq<(nat, nat)>, p: (nat, nat), q: real, draws: Draws)
    requires PairsWithin(pairs, |ps|) && p.0 < |ps| && p.1 < |ps|
    ensures PairsWithin(pairs + [p], |ps|)
    ensures Select(ps, pairs + [p], q, draws)
      == Select(ps, pairs, q, draws) + (if draws(|pairs|) < q then [Pair(ps[p.0], ps[p.1])] else [])
  {
    assert forall t | 0 <= t < |pairs| :: pairs[t] == (pairs + [p])[t];
    assert (pairs + [p])[..|pairs|] == pairs;
  }

  /** An edge is selected exactly when its pair's draw is below `q`. */
  lemma {:induction false} SelectMembers(ps: seq<string>, pairs: seq<(nat, nat)>, q: real, draws: Draws, e: Entry)
    requires PairsWithin(pairs, |ps|)
    ensures e in Select(ps, pairs, q, draws) <==>
      exists t | 0 <= t < |pairs| :: draws(t) < q && e == Pair(ps[pairs[t].0], ps[pairs[t].1])
  {
    if pairs != [] {
      var init := pairs[..|pairs| - 1];
      assert forall t | 0 <= t < |init| :: init[t] == pairs[t];
      SelectMembers(ps, init, q, draws, e);
    }
  }

  /** At most one edge per examined pair. */
  lemma {:induction false} SelectLength(ps: seq<string>, pairs: seq<(nat, nat)>, q: real, draws: Draws)
    requires PairsWithin(pairs, |ps|)
    ensures |Select(ps, pairs, q, draws)| <= |pairs|
    ensures (forall t | 0 <= t < |pairs| :: draws(t) < q) ==> |Select(ps, pairs, q, draws)| == |pairs|
    ensures (forall t | 0 <= t < |pairs| :: !(draws(t) < q)) ==> Select(ps, pairs, q, draws) == []
  {
    if pairs != [] {
      SelectLength(ps, pairs[..|pairs| - 1], q, draws);
    }
  }

  predicate SimpleSnocCase(l: seq<Entry>, e: Entry) {
    IsPair(e) && e.items[0] != e.items[1] && forall i | 0 <= i < |l| :: IsPair(l[i]) ==> !SameEdge(l[i], e)
  }

  lemma SimpleSnoc(l: seq<Entry>, e: Entry)
    requires Simple(l) && SimpleSnocCase(l, e)
    ensures Simple(l + [e])
  {
    var m := l + [e];
    forall i, j | 0 <= i < j < |m| ensures !SameEdge(m[i], m[j]) {
      if j == |l| {
        assert m[i] == l[i];
      } else {
        assert m[i] == l[i] && m[j] == l[j];
      }
    }
  }

  /** Over distinct names, a pair `i < j` not yet examined selects an edge that
      no earlier selected edge repeats. */
  lemma SelectFresh(ps: seq<string>, pairs: seq<(nat, nat)>, p: (nat, nat), q: real, draws: Draws)
    requires Distinct(ps) && PairsWithin(pairs, |ps|) && p.0 < p.1 < |ps| && p !in pairs
    requires forall t | 0 <= t < |pairs| :: pairs[t].0 < pairs[t].1
    ensures SimpleSnocCase(Select(ps, pairs, q, draws), Pair(ps[p.0], ps[p.1]))
  {
    var l := Select(ps, pairs, q, draws);
    var e := Pair(ps[p.0], ps[p.1]);
    forall i | 0 <= i < |l| ensures IsPair(l[i]) ==> !SameEdge(l[i], e) {
      SelectMembers(ps, pairs, q, draws, l[i]);
      var t :| 0 <= t < |pairs| && draws(t) < q && l[i] == Pair(ps[pairs[t].0], ps[pairs[t].1]);
      assert pairs[t] != p;
    }
  }

  /** Over distinct names, pairs `i < j` examined once each give a simple edge list. */
  lemma {:induction false} SelectSimple(ps: seq<string>, pairs: seq<(nat, nat)>, q: real, draws: Draws)
    requires Distinct(ps) && PairsWithin(pairs, |ps|) && Distinct(pairs)
    requires forall t | 0 <= t < |pairs| :: pairs[t].0 < pairs[t].1
    ensures Simple(Select(ps, pairs, q, draws))
  {
    if pairs != [] {
      var init := pairs[..|pairs| - 1];
      var p := pairs[|pairs| - 1];
      assert forall t | 0 <= t < |init| :: init[t] == pairs[t];
      SelectSimple(ps, init, q, draws);
      var l := Select(ps, init, q, draws);
      if draws(|init|) < q {
        SelectFresh(ps, init, p, q, draws);
        SimpleSnoc(l, Pair(ps[p.0], ps[p.1]));
      }
    }
  }

  /** Pairs `a < b` select only edges `(ps[a], ps[b])` with `a < b`. */
  lemma SelectWithin(ps: seq<string>, pairs: seq<(nat, nat)>, q: real, draws: Draws)
    requires PairsWithin(pairs, |ps|)
    requires forall t | 0 <= t < |pairs| :: pairs[t].0 < pairs[t].1
    ensures forall e | e in Select(ps, pairs, q, draws) ::
      exists a: nat, b: nat | a < b < |ps| :: e == Pair(ps[a], ps[b])
  {
    forall e | e in Select(ps, pairs, q, draws)
      ensures exists a: nat, b: nat | a < b < |ps| :: e == Pair(ps[a], ps[b])
    {
      SelectMembers(ps, pairs, q, draws, e);
      var t :| 0 <= t < |pairs| && draws(t) < q && e == Pair(ps[pairs[t].0], ps[pairs[t].1]);
      assert pairs[t].0 < pairs[t].1 < |ps|;
    }
  }

  /** The uniform generator's edges: `(ps[i], ps[j])` for `i < j`, no self
      pair and no interaction twice over distinct names, at most n(n-1)/2 of
      them; all pairs when every draw is below `q` (q = 1), none when `q` is
      not positive. */
  lemma ErdosRenyiShape(ps: seq<string>, q: real, draws: Draws)
    requires UnitDraws(draws)
    ensures var l := ErdosRenyiEdges(ps, q, draws);
      && (forall e | e in l :: exists a: nat, b: nat | a < b < |ps| :: e == Pair(ps[a], ps[b]))
      && (Distinct(ps) ==> Simple(l))
      && 2 * |l| <= |ps| * (|ps| - 1)
      && (q >= 1.0 ==> 2 * |l| == |ps| * (|ps| - 1))
      && (q <= 0.0 ==> l == [])
  {
    var pairs := UpperPairs(|ps|);
    UpperPairsShape(|ps|);
    SelectLength(ps, pairs, q, draws);
    SelectWithin(ps, pairs, q, draws);
    if Distinct(ps) {
      SelectSimple(ps, pairs, q, draws);
    }
    if q >= 1.0 {
      assert forall t | 0 <= t < |pairs| :: draws(t) < q;
    }
    if q <= 0.0 {
      assert forall t | 0 <= t < |pairs| :: !(draws(t) < q);
    }
  }

  // ---- Preferential attachment (interactome.py) ----

  /** The generator's state at the start of a round: the edges so far, the
      running `total_deg`, and the number of draws consumed. */
  datatype Growth = Growth(edges: seq<Entry>, total: nat, used: nat)

  /** The chance `build_from_scalefree` gives to linking with `v`: its current
      degree over the total. */
  function Ratio(l: seq<Entry>, v: string, total: nat): real
    requires total > 0
  {
    (|Nbrs(l, v)| as real) / (total as real)
  }

  /** How a round decides whether to link a candidate: from the edges so
      far, the candidate's name and the index of the draw. */
  type Choice = (seq<Entry>, string, nat) -> bool

  /** The decision of `build_from_scalefree`: the draw is below the
      candidate's degree over the round's total. */
  function Chance(draws: Draws, total: nat): Choice {
    (l: seq<Entry>, v: string, k: nat) => total > 0 && draws(k) < Ratio(l, v, total)
  }

  /** Round `i` over the candidates `j < m` under the decision `take`:
      candidate `j` is linked to `ps[i]` when `take` accepts it with draw
      `k0 + j` and the edges so far, the round's own edges included. */
  function RoundBy(ps: seq<string>, i: nat, m: nat, l0: seq<Entry>, k0: nat, take: Choice): (r: seq<Entry>)
    requires i < |ps| && m <= i
    ensures |l0| <= |r| <= |l0| + m
  {
    if m == 0 then l0
    else
      var l := RoundBy(ps, i, m - 1, l0, k0, take);
      if take(l, ps[m - 1], k0 + m - 1) then l + [Pair(ps[i], ps[m - 1])] else l
  }

  /** Round `i` of `build_from_scalefree` over the candidates `j < m`:
      candidate `j` is linked to `ps[i]` when draw `k0 + j` is below its
      degree (in the edges so far, the round's own edges included) over the
      total of the round's start. */
  function Round(ps: seq<string>, i: nat, m: nat, l0: seq<Entry>, total: nat, k0: nat, draws: Draws): (r: seq<Entry>)
    requires i < |ps| && m <= i && total > 0
    ensures |l0| <= |r| <= |l0| + m
  {
    RoundBy(ps, i, m, l0, k0, Chance(draws, total))
  }

  /** A round only appends to the list it starts from. */
  lemma {:induction false} RoundPrefix(ps: seq<string>, i: nat, m: nat, l0: seq<Entry>, k0: nat, take: Choice)
    requires i < |ps| && m <= i
    ensures RoundBy(ps, i, m, l0, k0, take)[..|l0|] == l0
  {
    if m > 0 {
      RoundPrefix(ps, i, m - 1, l0, k0, take);
      RoundCases(ps, i, m - 1, l0, k0, take);
      PrefixKept(l0, RoundBy(ps, i, m - 1, l0, k0, take), RoundBy(ps, i, m, l0, k0, take), Pair(ps[i], ps[m - 1]));
    }
  }

  lemma PrefixKept<T>(l0: seq<T>, l: seq<T>, r: seq<T>, e: T)
    requires |l0| <= |l| && l[..|l0|] == l0 && (r == l || r == l + [e])
    ensures |l0| <= |r| && r[..|l0|] == l0
  {
    assert (l + [e])[..|l0|] == l[..|l0|];
  }

  /** A candidate either adds its edge or leaves the list alone. */
  lemma RoundCases(ps: seq<string>, i: nat, j: nat, l0: seq<Entry>, k0: nat, take: Choice)
    requires i < |ps| && j < i
    ensures var l := RoundBy(ps, i, j, l0, k0, take);
      var r := RoundBy(ps, i, j + 1, l0, k0, take);
      r == l || r == l + [Pair(ps[i], ps[j])]
  {
  }

  /** One more candidate, stated for the outcome of a draw against a list
      and a name sequence equal to the round's. */
  lemma AttachAfter(ps: seq<string>, i: nat, j: nat, l0: seq<Entry>, total: nat, k0: nat, draws: Draws,
                    l: seq<Entry>, added: bool, l': seq<Entry>, ps': seq<string>, k: nat)
    requires i < |ps| && j < i && total > 0
    requires l == Round(ps, i, j, l0, total, k0, draws)
    requires l' == l && ps' == ps && k == k0 + j
    requires added == (draws(k) < Ratio(l', ps'[j], total))
    ensures Round(ps, i, j + 1, l0, total, k0, draws) == if added then l + [Pair(ps[i], ps[j])] else l
  {
    ChanceOf(draws, total, l', ps'[j], k);
    assert Chance(draws, total)(l, ps[j], k0 + j) == added;
  }

  lemma ChanceOf(draws: Draws, total: nat, l: seq<Entry>, v: string, k: nat)
    requires total > 0
    ensures Chance(draws, total)(l, v, k) == (draws(k) < Ratio(l, v, total))
  {
  }

  /** One more round. */
  lemma GrowthNext(ps: seq<string>, i: nat, draws: Draws)
    requires 2 <= i < |ps|
    ensures var g := GrowthAt(ps, i, draws);
      var l := Round(ps, i, i, g.edges, g.total, g.used, draws);
      GrowthAt(ps, i + 1, draws) == Growth(l, g.total + 2 * (|l| - |g.edges|), g.used + i)
  {
  }

  /** One more round, stated for the round's list, its new edges and the next draw. */
  lemma GrowthAfter(ps: seq<string>, i: nat, draws: Draws, l0: seq<Entry>, total: nat, k0: nat,
                    l: seq<Entry>, nbNew: nat, k: nat)
    requires 2 <= i < |ps|
    requires GrowthAt(ps, i, draws) == Growth(l0, total, k0)
    requires l == Round(ps, i, i, l0, total, k0, draws)
    requires k == k0 + i && |l| == |l0| + nbNew
    ensures GrowthAt(ps, i + 1, draws) == Growth(l, total + nbNew * 2, k)
  {
    GrowthNext(ps, i, draws);
  }

  /** The state at the start of round `i`: the first edge `(ps[0], ps[1])`
      with total 2, then every finished round adds twice its new edges to the
      total and consumes one draw per candidate. */
  function GrowthAt(ps: seq<string>, i: nat, draws: Draws): (g: Growth)
    requires 2 <= i <= |ps|
    ensures g.total == 2 * |g.edges| && |g.edges| >= 1
    decreases i
  {
    if i == 2 then Growth([Pair(ps[0], ps[1])], 2, 0)
    else
      var g := GrowthAt(ps, i - 1, draws);
      var l := Round(ps, i - 1, i - 1, g.edges, g.total, g.used, draws);
      Growth(l, g.total + 2 * (|l| - |g.edges|), g.used + (i - 1))
  }

  /** The edges `build_from_scalefree` appends (interactome.py:110-125);
      `proteins[1]` raises IndexError when there are fewer than two proteins. */
  function ScaleFreeEdges(ps: seq<string>, draws: Draws): Result<seq<Entry>> {
    if |ps| < 2 then Err(IndexError) else Ok(GrowthAt(ps, |ps|, draws).edges)
  }

  /** Both endpoints of every entry are among the first `i` names. */
  predicate InPrefix(ps: seq<string>, l: seq<Entry>, i: nat)
    requires i <= |ps|
  {
    forall t | 0 <= t < |l| :: IsPair(l[t]) && l[t].items[0] in ps[..i] && l[t].items[1] in ps[..i]
  }

  /** The edges round `i` adds link `ps[i]` to some earlier `ps[x]`, `x < m`. */
  predicate RoundEdges(ps: seq<string>, l0: seq<Entry>, l: seq<Entry>, i: nat, m: nat)
    requires i < |ps| && m <= i && |l0| <= |l|
  {
    forall t | |l0| <= t < |l| :: IsPair(l[t]) && l[t].items[0] == ps[i] && l[t].items[1] in ps[..m]
  }

  lemma {:induction false} RoundShape(ps: seq<string>, i: nat, m: nat, l0: seq<Entry>, k0: nat, take: Choice)
    requires i < |ps| && m <= i
    ensures RoundEdges(ps, l0, RoundBy(ps, i, m, l0, k0, take), i, m)
  {
    if m > 0 {
      RoundShape(ps, i, m - 1, l0, k0, take);
      RoundCases(ps, i, m - 1, l0, k0, take);
      RoundEdgesSnoc(ps, l0, RoundBy(ps, i, m - 1, l0, k0, take), RoundBy(ps, i, m, l0, k0, take), i, m - 1);
    }
  }

  /** Examining candidate `j` keeps the round's edges of the right shape,
      whether or not it adds `(ps[i], ps[j])`. */
  lemma RoundEdgesSnoc(ps: seq<string>, l0: seq<Entry>, l: seq<Entry>, r: seq<Entry>, i: nat, j: nat)
    requires i < |ps| && j < i && |l0| <= |l| && RoundEdges(ps, l0, l, i, j)
    requires r == l || r == l + [Pair(ps[i], ps[j])]
    ensures |l0| <= |r| && RoundEdges(ps, l0, r, i, j + 1)
  {
    assert forall x | x in ps[..j] :: x in ps[..j + 1];
    assert ps[j] in ps[..j + 1];
    forall t | |l0| <= t < |r|
      ensures IsPair(r[t]) && r[t].items[0] == ps[i] && r[t].items[1] in ps[..j + 1]
    {
      if t < |l| {
        assert r[t] == l[t];
      }
    }
  }

  /** Over distinct names, the edges of round `i` so far never touch a
      candidate `ps[j]` not yet examined, so its degree is its degree at the
      start of the round. */
  lemma RoundDegree(ps: seq<string>, i: nat, j: nat, l0: seq<Entry>, total: nat, k0: nat, draws: Draws)
    requires Distinct(ps) && i < |ps| && j < i && total > 0
    ensures Nbrs(Round(ps, i, j, l0, total, k0, draws), ps[j]) == Nbrs(l0, ps[j])
  {
    var r := Round(ps, i, j, l0, total, k0, draws);
    RoundShape(ps, i, j, l0, k0, Chance(draws, total));
    RoundPrefix(ps, i, j, l0, k0, Chance(draws, total));
    NbrsTail(l0, r, ps[j]);
  }

  /** Entries not containing `u` add nothing to its neighbours. */
  lemma {:induction false} NbrsTail(l0: seq<Entry>, l: seq<Entry>, u: string)
    requires |l0| <= |l| && l[..|l0|] == l0
    requires forall t | |l0| <= t < |l| :: Contrib(l[t], u) == {}
    ensures Nbrs(l, u) == Nbrs(l0, u)
  {
    if |l| > |l0| {
      var p := l[..|l| - 1];
      assert p[..|l0|] == l0;
      NbrsTail(l0, p, u);
    } else {
      assert l == l0;
    }
  }

  /** Edge `e` attaches `ps[a]` to a name listed before it. */
  predicate Attached(ps: seq<string>, e: Entry, a: nat)
    requires a < |ps|
  {
    IsPair(e) && e.items[0] == ps[a] && e.items[1] in ps[..a]
  }

  /** Every edge after the first attaches some `ps[a]`, `a < i`, to a name
      listed before it. */
  predicate AttachedAfterFirst(ps: seq<string>, l: seq<Entry>, i: nat)
    requires i <= |ps|
  {
    forall t | 1 <= t < |l| :: AttachedBefore(ps, l[t], i)
  }

  /** Edge `e` attaches some `ps[a]`, `a < i`, to a name listed before it. */
  predicate AttachedBefore(ps: seq<string>, e: Entry, i: nat)
    requires i <= |ps|
  {
    exists a: nat | a < i :: Attached(ps, e, a)
  }

  lemma AttachedRound(ps: seq<string>, g: seq<Entry>, l: seq<Entry>, i: nat)
    requires 1 <= i < |ps| && |g| <= |l| && l[..|g|] == g
    requires AttachedAfterFirst(ps, g, i) && RoundEdges(ps, g, l, i, i)
    ensures AttachedAfterFirst(ps, l, i + 1)
  {
    forall t | 1 <= t < |l| ensures AttachedBefore(ps, l[t], i + 1) {
      if t < |g| {
        assert l[t] == g[t] && AttachedBefore(ps, g[t], i);
        var a: nat :| a < i && Attached(ps, g[t], a);
        assert Attached(ps, l[t], a);
      } else {
        assert Attached(ps, l[t], i);
      }
    }
  }

  /** The first edge is `(ps[0], ps[1])`; every later one attaches a protein
      of an earlier round to a protein listed before it. */
  lemma {:induction false} GrowthShape(ps: seq<string>, i: nat, draws: Draws)
    requires 2 <= i <= |ps|
    ensures GrowthAt(ps, i, draws).edges[0] == Pair(ps[0], ps[1])
    ensures AttachedAfterFirst(ps, GrowthAt(ps, i, draws).edges, i)
  {
    if i > 2 {
      GrowthShape(ps, i - 1, draws);
      var g := GrowthAt(ps, i - 1, draws);
      RoundShape(ps, i - 1, i - 1, g.edges, g.used, Chance(draws, g.total));
      RoundPrefix(ps, i - 1, i - 1, g.edges, g.used, Chance(draws, g.total));
      var l := Round(ps, i - 1, i - 1, g.edges, g.total, g.used, draws);
      assert GrowthAt(ps, i, draws).edges == l;
      AttachedRound(ps, g.edges, l, i - 1);
    }
  }

  /** At the start of round `i` every edge joins two of the first `i` names. */
  lemma GrowthInPrefix(ps: seq<string>, i: nat, draws: Draws)
    requires 2 <= i <= |ps|
    ensures InPrefix(ps, GrowthAt(ps, i, draws).edges, i)
  {
    GrowthShape(ps, i, draws);
    var l := GrowthAt(ps, i, draws).edges;
    forall t | 0 <= t < |l| ensures IsPair(l[t]) && l[t].items[0] in ps[..i] && l[t].items[1] in ps[..i] {
      if t == 0 {
        assert ps[0] == ps[..i][0] && ps[1] == ps[..i][1];
      } else {
        assert AttachedBefore(ps, l[t], i);
        var a: nat :| a < i && Attached(ps, l[t], a);
        assert ps[a] == ps[..i][a];
        assert forall x | x in ps[..a] :: x in ps[..i];
      }
    }
  }

  /** Over distinct names a round keeps the edge list simple: the new edges
      all leave `ps[i]`, which no earlier edge touches, and go to distinct
      candidates. */
  lemma {:induction false} RoundSimple(ps: seq<string>, i: nat, m: nat, l0: seq<Entry>, k0: nat, take: Choice)
    requires Distinct(ps) && i < |ps| && m <= i
    requires Simple(l0) && InPrefix(ps, l0, i)
    ensures Simple(RoundBy(ps, i, m, l0, k0, take))
  {
    if m > 0 {
      var l := RoundBy(ps, i, m - 1, l0, k0, take);
      RoundShape(ps, i, m - 1, l0, k0, take);
      RoundPrefix(ps, i, m - 1, l0, k0, take);
      RoundEdgeFresh(ps, i, m - 1, l0, l);
      RoundSimple(ps, i, m - 1, l0, k0, take);
      SimpleSnoc(l, Pair(ps[i], ps[m - 1]));
      RoundCases(ps, i, m - 1, l0, k0, take);
    }
  }

  /** Over distinct names the edge from `ps[i]` to candidate `ps[j]` is new:
      earlier rounds never touch `ps[i]` and this round has only linked it to
      candidates before `j`. */
  lemma RoundEdgeFresh(ps: seq<string>, i: nat, j: nat, l0: seq<Entry>, l: seq<Entry>)
    requires Distinct(ps) && i < |ps| && j < i
    requires |l0| <= |l| && l[..|l0|] == l0
    requires InPrefix(ps, l0, i) && RoundEdges(ps, l0, l, i, j)
    ensures SimpleSnocCase(l, Pair(ps[i], ps[j]))
  {
    var e := Pair(ps[i], ps[j]);
    assert ps[i] !in ps[..i];
    assert ps[j] !in ps[..j];
    forall t | 0 <= t < |l| ensures !SameEdge(l[t], e) {
      if t < |l0| {
        assert l[t] == l0[t];
      }
    }
  }

  /** Over distinct names the edge list stays simple. */
  lemma {:induction false} GrowthSimple(ps: seq<string>, i: nat, draws: Draws)
    requires Distinct(ps) && 2 <= i <= |ps|
    ensures Simple(GrowthAt(ps, i, draws).edges)
  {
    if i > 2 {
      GrowthSimple(ps, i - 1, draws);
      GrowthInPrefix(ps, i - 1, draws);
      var g := GrowthAt(ps, i - 1, draws);
      RoundSimple(ps, i - 1, i - 1, g.edges, g.used, Chance(draws, g.total));
    }
  }

  /** Over distinct names the attachment chance is a probability: a
      candidate's degree never exceeds the round's total, because that total
      is the degree sum of the edges at the round's start and the round's own
      edges do not touch candidates still to come. */
  lemma RatioBound(ps: seq<string>, i: nat, j: nat, draws: Draws)
    requires Distinct(ps) && 2 <= i < |ps| && j < i
    ensures var g := GrowthAt(ps, i, draws);
      Ratio(Round(ps, i, j, g.edges, g.total, g.used, draws), ps[j], g.total) <= 1.0
  {
    var g := GrowthAt(ps, i, draws);
    RoundDegree(ps, i, j, g.edges, g.total, g.used, draws);
    assert ps[j] == ps[..i][j];
    GrowthDegree(ps, i, ps[j], draws);
    RatioAtMostOne(Round(ps, i, j, g.edges, g.total, g.used, draws), ps[j], g.total);
  }

  /** At the start of a round no name has more neighbours than the running
      total, since each edge adds at most one neighbour and two to the total. */
  lemma GrowthDegree(ps: seq<string>, i: nat, v: string, draws: Draws)
    requires 2 <= i <= |ps|
    ensures |Nbrs(GrowthAt(ps, i, draws).edges, v)| <= GrowthAt(ps, i, draws).total
  {
    NbrsSize(GrowthAt(ps, i, draws).edges, v);
  }

  lemma RatioAtMostOne(l: seq<Entry>, v: string, total: nat)
    requires total > 0 && |Nbrs(l, v)| <= total
    ensures Ratio(l, v, total) <= 1.0
  {
    QuotientAtMostOne(|Nbrs(l, v)| as real, total as real);
  }

  lemma QuotientAtMostOne(a: real, b: real)
    requires 0.0 <= a <= b && b > 0.0
    ensures a / b <= 1.0
  {
    var q := a / b;
    assert q * b == a;
    if q > 1.0 {
      assert false;
    }
  }

  /** `build_from_scalefree` over `ps`: IndexError below two proteins;
      otherwise edges between listed proteins, simple when the names are
      distinct, first `(ps[0], ps[1])`. */
  lemma ScaleFreeShape(ps: seq<string>, draws: Draws)
    ensures ScaleFreeEdges(ps, draws).Err? <==> |ps| < 2
    ensures ScaleFreeEdges(ps, draws).Err? ==> ScaleFreeEdges(ps, draws).error == IndexError
    ensures ScaleFreeEdges(ps, draws).Ok? ==>
      var l := ScaleFreeEdges(ps, draws).value;
      && |l| >= 1 && l[0] == Pair(ps[0], ps[1])
      && (forall t | 0 <= t < |l| :: IsPair(l[t]) && l[t].items[0] in ps && l[t].items[1] in ps)
      && (Distinct(ps) ==> Simple(l))
  {
    if |ps| >= 2 {
      GrowthShape(ps, |ps|, draws);
      GrowthInPrefix(ps, |ps|, draws);
      assert ps[..|ps|] == ps;
      if Distinct(ps) {
        GrowthSimple(ps, |ps|, draws);
      }
    }
  }
}
