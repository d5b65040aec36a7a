/** Specifications of the generators of the draft class (Interactome.py),
    which differ from the final ones: the uniform generator visits ordered
    pairs and the preferential one updates its total after every new edge. */
module GeneratorsDraft {
  import opened Common
  import opened Graph
  import opened Generators

  // ---- Uniform generator over ordered pairs ----

  /** Columns `0 .. b-1` of row `a`: the pairs `(a, x)`, `x < b`. */
  function Cols(a: nat, b: nat): (r: seq<(nat, nat)>)
    ensures |r| == b && forall t | 0 <= t < b :: r[t] == (a, t)
  {
    seq(b, t requires 0 <= t < b => (a, t))
  }

  /** Rows `0 .. a-1` of the `n` by `n` grid, in the order of the nested
      loops. */
  function Grid(a: nat, n: nat): seq<(nat, nat)> {
    if a == 0 then [] else Grid(a - 1, n) + Cols(a - 1, n)
  }

  /** The pairs of `s` for which the draft draws: `prot1 == prot2` skips a
      pair without a draw. */
  function Examined(ps: seq<string>, s: seq<(nat, nat)>): seq<(nat, nat)>
    requires PairsWithin(s, |ps|)
  {
    if s == [] then []
    else
      var p := s[|s| - 1];
      Examined(ps, s[..|s| - 1]) + (if ps[p.0] != ps[p.1] then [p] else [])
  }

  /** The pairs examined before column `b` of row `a`: those of the earlier
      rows, then `(a, x)` for each earlier column `x` whose name differs
      from `ps[a]`. */
  function Visited(ps: seq<string>, a: nat, b: nat): (r: seq<(nat, nat)>)
    requires a < |ps| && b <= |ps|
    ensures PairsWithin(r, |ps|)
    decreases a, 1, b
  {
    if b == 0 then FullRows(ps, a)
    else
      var v := Visited(ps, a, b - 1);
      if ps[a] != ps[b - 1] then
        assert forall t | 0 <= t < |v| + 1 :: (v + [(a, b - 1)])[t] == if t < |v| then v[t] else (a, b - 1);
        v + [(a, b - 1)]
      else v
  }

  /** The pairs examined by rows `0 .. a-1`. */
  function FullRows(ps: seq<string>, a: nat): (r: seq<(nat, nat)>)
    requires a <= |ps|
    ensures PairsWithin(r, |ps|)
    decreases a, 0, 0
  {
    if a == 0 then [] else Visited(ps, a - 1, |ps|)
  }

  /** The index pairs the draft uniform generator draws for. */
  function OrderedPairs(ps: seq<string>): (r: seq<(nat, nat)>)
    ensures PairsWithin(r, |ps|)
  {
    FullRows(ps, |ps|)
  }

  /** The edges the draft `build_from_random` appends (Interactome.py:81-89). */
  function DraftRandomEdges(ps: seq<string>, q: real, draws: Draws): seq<Entry> {
    Select(ps, OrderedPairs(ps), q, draws)
  }

  lemma {:induction false} GridWithin(a: nat, n: nat)
    requires a <= n
    ensures PairsWithin(Grid(a, n), n)
  {
    if a > 0 {
      GridWithin(a - 1, n);
      var g, c := Grid(a - 1, n), Cols(a - 1, n);
      assert forall t | 0 <= t < |g + c| :: (g + c)[t] == if t < |g| then g[t] else c[t - |g|];
    }
  }

  /** A pair is examined exactly when it is in `s` and joins two different
      names. */
  lemma {:induction false} ExaminedMembers(ps: seq<string>, s: seq<(nat, nat)>, x: (nat, nat))
    requires PairsWithin(s, |ps|)
    ensures x in Examined(ps, s) <==> x in s && ps[x.0] != ps[x.1]
  {
    if s != [] {
      var s0 := s[..|s| - 1];
      ExaminedMembers(ps, s0, x);
      assert s == s0 + [s[|s| - 1]];
    }
  }

  /** Examining a pair more. */
  lemma ExaminedSnoc(ps: seq<string>, s: seq<(nat, nat)>, p: (nat, nat))
    requires PairsWithin(s, |ps|) && p.0 < |ps| && p.1 < |ps|
    ensures PairsWithin(s + [p], |ps|)
    ensures Examined(ps, s + [p]) == Examined(ps, s) + (if ps[p.0] != ps[p.1] then [p] else [])
  {
    assert (s + [p])[..|s|] == s;
  }

  /** Examining two sequences one after the other. */
  lemma {:induction false} ExaminedAppend(ps: seq<string>, s: seq<(nat, nat)>, t: seq<(nat, nat)>)
    requires PairsWithin(s, |ps|) && PairsWithin(t, |ps|)
    ensures PairsWithin(s + t, |ps|)
    ensures Examined(ps, s + t) == Examined(ps, s) + Examined(ps, t)
  {
    if t == [] {
      assert s + t == s;
    } else {
      var p := t[|t| - 1];
      var t0 := t[..|t| - 1];
      assert (s + t)[..|s + t| - 1] == s + t0;
      ExaminedAppend(ps, s, t0);
      var d := if ps[p.0] != ps[p.1] then [p] else [];
      assert Examined(ps, s + t) == Examined(ps, s + t0) + d;
      assert Examined(ps, t) == Examined(ps, t0) + d;
    }
  }

  /** Before row `a`'s first column the pairs examined are those of the
      earlier rows. */
  lemma RowsStart(ps: seq<string>, a: nat)
    requires a < |ps|
    ensures Visited(ps, a, 0) == FullRows(ps, a)
  {
  }

  /** Column `b` of row `a` adds the pair `(a, b)` unless the names are
      equal. */
  lemma RowsNext(ps: seq<string>, a: nat, b: nat)
    requires a < |ps| && b < |ps|
    ensures Visited(ps, a, b + 1) == if ps[a] == ps[b] then Visited(ps, a, b) else Visited(ps, a, b) + [(a, b)]
  {
  }

  /** The pairs visited so far are the examined ones among the earlier rows
      and the first `b` columns of row `a`. */
  lemma {:induction false} VisitedExamined(ps: seq<string>, a: nat, b: nat)
    requires a < |ps| && b <= |ps|
    ensures PairsWithin(Grid(a, |ps|) + Cols(a, b), |ps|)
    ensures Visited(ps, a, b) == Examined(ps, Grid(a, |ps|) + Cols(a, b))
    decreases a, 1, b
  {
    var g := Grid(a, |ps|);
    GridWithin(a, |ps|);
    if b == 0 {
      FullRowsExamined(ps, a);
      assert g + Cols(a, 0) == g;
    } else {
      VisitedExamined(ps, a, b - 1);
      ColsSnoc(a, b - 1);
      ConcatAssoc(g, Cols(a, b - 1), [(a, b - 1)]);
      VisitedStep(ps, a, b, g + Cols(a, b - 1), Visited(ps, a, b - 1));
    }
  }

  /** One more column, for a sequence `s` whose examined pairs are those
      visited so far. */
  lemma VisitedStep(ps: seq<string>, a: nat, b: nat, s: seq<(nat, nat)>, v: seq<(nat, nat)>)
    requires a < |ps| && 0 < b <= |ps| && PairsWithin(s, |ps|)
    requires v == Visited(ps, a, b - 1) && v == Examined(ps, s)
    ensures PairsWithin(s + [(a, b - 1)], |ps|)
    ensures Visited(ps, a, b) == Examined(ps, s + [(a, b - 1)])
  {
    RowsNext(ps, a, b - 1);
    ExaminedSnoc(ps, s, (a, b - 1));
  }

  /** The rows before `a` examine the pairs of the grid's first `a` rows. */
  lemma {:induction false} FullRowsExamined(ps: seq<string>, a: nat)
    requires a <= |ps|
    ensures PairsWithin(Grid(a, |ps|), |ps|)
    ensures FullRows(ps, a) == Examined(ps, Grid(a, |ps|))
    decreases a, 0, 0
  {
    GridWithin(a, |ps|);
    if a > 0 {
      var n := |ps|;
      VisitedExamined(ps, a - 1, n);
      GridUnfold(a - 1, a, n);
      SameExamined(ps, Grid(a, n), Grid(a - 1, n) + Cols(a - 1, n), Visited(ps, a - 1, n));
    }
  }

  lemma SameExamined(ps: seq<string>, s: seq<(nat, nat)>, t: seq<(nat, nat)>, v: seq<(nat, nat)>)
    requires PairsWithin(t, |ps|) && s == t && v == Examined(ps, t)
    ensures PairsWithin(s, |ps|) && Examined(ps, s) == v
  {
  }

  /** After its last column row `a` is part of the rows before `a + 1`. */
  lemma RowsEnd(ps: seq<string>, a: nat)
    requires a < |ps|
    ensures Visited(ps, a, |ps|) == FullRows(ps, a + 1)
  {
  }

  /** Rows `0 .. i-1` hold every pair `(a, b)` with `a < i` and `b < n`. */
  lemma {:induction false} GridComplete(i: nat, n: nat, a: nat, b: nat)
    requires a < i && b < n
    ensures (a, b) in Grid(i, n)
  {
    if a < i - 1 {
      GridComplete(i - 1, n, a, b);
    } else {
      assert Cols(a, n)[b] == (a, b);
    }
  }

  lemma ColsSnoc(a: nat, b: nat)
    ensures Cols(a, b + 1) == Cols(a, b) + [(a, b)]
  {
  }

  /** Over distinct names a row examines every column but its own. */
  lemma {:induction false} ColsLength(ps: seq<string>, a: nat, b: nat)
    requires Distinct(ps) && a < |ps| && b <= |ps|
    ensures PairsWithin(Cols(a, b), |ps|)
    ensures |Examined(ps, Cols(a, b))| == if a < b then b - 1 else b
  {
    if b > 0 {
      ColsLength(ps, a, b - 1);
      ColsSnoc(a, b - 1);
      ExaminedSnoc(ps, Cols(a, b - 1), (a, b - 1));
      assert ps[a] == ps[b - 1] <==> a == b - 1;
    }
  }

  lemma FullRowsLength(ps: seq<string>, a: nat)
    requires Distinct(ps) && a <= |ps|
    ensures |FullRows(ps, a)| == a * (|ps| - 1)
  {
    FullRowsCount(ps, a);
    TimesIsProduct(a, |ps| - 1);
  }

  /** `a` times `m`, by repeated addition. */
  function Times(a: nat, m: int): int {
    if a == 0 then 0 else Times(a - 1, m) + m
  }

  lemma {:induction false} TimesIsProduct(a: nat, m: int)
    ensures Times(a, m) == a * m
  {
    if a > 0 {
      TimesIsProduct(a - 1, m);
      assert (a - 1) * m + m == a * m;
    }
  }

  lemma {:induction false} FullRowsCount(ps: seq<string>, a: nat)
    requires Distinct(ps) && a <= |ps|
    ensures |FullRows(ps, a)| == Times(a, |ps| - 1)
  {
    if a > 0 {
      FullRowsCount(ps, a - 1);
      ColsLength(ps, a - 1, |ps|);
      RowsCountSplit(ps, a);
    }
  }

  /** The pairs examined by rows `0 .. a-1`: those of the rows before
      `a - 1`, then those of row `a - 1`. */
  lemma RowsCountSplit(ps: seq<string>, a: nat)
    requires 0 < a <= |ps|
    ensures PairsWithin(Cols(a - 1, |ps|), |ps|)
    ensures |FullRows(ps, a)| == |FullRows(ps, a - 1)| + |Examined(ps, Cols(a - 1, |ps|))|
  {
    var g, c := Grid(a - 1, |ps|), Cols(a - 1, |ps|);
    FullRowsExamined(ps, a);
    FullRowsExamined(ps, a - 1);
    GridUnfold(a - 1, a, |ps|);
    ExaminedAppendLength(ps, g, c);
  }

  /** The number of pairs examined in two sequences one after the other. */
  lemma ExaminedAppendLength(ps: seq<string>, s: seq<(nat, nat)>, t: seq<(nat, nat)>)
    requires PairsWithin(s, |ps|) && PairsWithin(t, |ps|)
    ensures PairsWithin(s + t, |ps|)
    ensures |Examined(ps, s + t)| == |Examined(ps, s)| + |Examined(ps, t)|
  {
    ExaminedAppend(ps, s, t);
  }

  lemma GridUnfold(a: nat, a': nat, n: nat)
    requires a' == a + 1
    ensures Grid(a', n) == Grid(a, n) + Cols(a, n)
  {
  }

  /** The draft examines every pair of different names in both orders: over
      distinct names, n(n-1) draws, twice the final generator's. */
  lemma OrderedPairsShape(ps: seq<string>)
    ensures forall t | 0 <= t < |OrderedPairs(ps)| :: ps[OrderedPairs(ps)[t].0] != ps[OrderedPairs(ps)[t].1]
    ensures forall a: nat, b: nat | a < |ps| && b < |ps| :: (a, b) in OrderedPairs(ps) <==> ps[a] != ps[b]
    ensures Distinct(ps) ==> |OrderedPairs(ps)| == |ps| * (|ps| - 1)
  {
    var g := Grid(|ps|, |ps|);
    FullRowsExamined(ps, |ps|);
    forall t | 0 <= t < |OrderedPairs(ps)| ensures ps[OrderedPairs(ps)[t].0] != ps[OrderedPairs(ps)[t].1] {
      ExaminedMembers(ps, g, OrderedPairs(ps)[t]);
    }
    forall a: nat, b: nat | a < |ps| && b < |ps| ensures (a, b) in OrderedPairs(ps) <==> ps[a] != ps[b] {
      GridComplete(|ps|, |ps|, a, b);
      ExaminedMembers(ps, g, (a, b));
    }
    if Distinct(ps) {
      FullRowsLength(ps, |ps|);
    }
  }

  /** The draft's edges join two different listed names; with every draw
      below `q` it lists all ordered pairs, n(n-1) edges over distinct names. */
  lemma DraftRandomShape(ps: seq<string>, q: real, draws: Draws)
    ensures forall e | e in DraftRandomEdges(ps, q, draws) ::
      IsPair(e) && e.items[0] != e.items[1] && e.items[0] in ps && e.items[1] in ps
    ensures |DraftRandomEdges(ps, q, draws)| <= |OrderedPairs(ps)|
    ensures (forall k: nat :: draws(k) < q) && Distinct(ps) ==> |DraftRandomEdges(ps, q, draws)| == |ps| * (|ps| - 1)
  {
    var pairs := OrderedPairs(ps);
    OrderedPairsShape(ps);
    SelectLength(ps, pairs, q, draws);
    forall e | e in DraftRandomEdges(ps, q, draws)
      ensures IsPair(e) && e.items[0] != e.items[1] && e.items[0] in ps && e.items[1] in ps
    {
      SelectMembers(ps, pairs, q, draws, e);
      var t :| 0 <= t < |pairs| && draws(t) < q && e == Pair(ps[pairs[t].0], ps[pairs[t].1]);
    }
  }

  /** Two proteins A and B: the draft examines `(0, 1)` and `(1, 0)`. */
  lemma TwoOrderedPairs()
    ensures OrderedPairs(["A", "B"]) == [(0, 1), (1, 0)]
  {
    var ps := ["A", "B"];
    assert ps[0] != ps[1];
    TwoNames(ps);
  }

  /** Two different names: the draft examines `(0, 1)` and `(1, 0)`. */
  lemma TwoNames(ps: seq<string>)
    requires |ps| == 2 && ps[0] != ps[1]
    ensures OrderedPairs(ps) == [(0, 1), (1, 0)]
  {
    assert Visited(ps, 0, 0) == [];
    RowsNext(ps, 0, 0);
    RowsNext(ps, 0, 1);
    assert Visited(ps, 1, 0) == [(0, 1)];
    RowsNext(ps, 1, 0);
    RowsNext(ps, 1, 1);
    assert Visited(ps, 1, 2) == [(0, 1), (1, 0)];
  }

  /** Selecting from the two pairs `(0, 1)` and `(1, 0)` with both draws
      below `q` takes both orientations. */
  lemma SelectBoth(ps: seq<string>, q: real, draws: Draws)
    requires |ps| == 2 && draws(0) < q && draws(1) < q
    ensures Select(ps, [(0, 1), (1, 0)], q, draws) == [Pair(ps[0], ps[1]), Pair(ps[1], ps[0])]
  {
    SelectTwo(ps, (0, 1), (1, 0), q, draws);
  }

  /** Selecting from two pairs: one draw each, in order. */
  lemma SelectTwo(ps: seq<string>, a: (nat, nat), b: (nat, nat), q: real, draws: Draws)
    requires a.0 < |ps| && a.1 < |ps| && b.0 < |ps| && b.1 < |ps|
    ensures Select(ps, [a, b], q, draws)
      == (if draws(0) < q then [Pair(ps[a.0], ps[a.1])] else []) + (if draws(1) < q then [Pair(ps[b.0], ps[b.1])] else [])
  {
    var s, s1 := [a, b], [a];
    assert s[..1] == s1 && s1[..0] == [];
    assert Select(ps, s1, q, draws) == [] + (if draws(0) < q then [Pair(ps[a.0], ps[a.1])] else []);
    assert Select(ps, s, q, draws) == Select(ps, s1, q, draws) + (if draws(1) < q then [Pair(ps[b.0], ps[b.1])] else []);
  }

  lemma {:induction false} DraftRandomTwice(q: real, draws: Draws)
    requires forall k: nat :: draws(k) < q
    ensures DraftRandomEdges(["A", "B"], q, draws) == [Pair("A", "B"), Pair("B", "A")]
    ensures !Simple(DraftRandomEdges(["A", "B"], q, draws))
  {
    var ps := ["A", "B"];
    TwoOrderedPairs();
    assert draws(0) < q && draws(1) < q;
    SelectBoth(ps, q, draws);
    var l := [Pair("A", "B"), Pair("B", "A")];
    assert SameEdge(l[0], l[1]);
  }

  // ---- Preferential attachment with an eager total ----

  /** Round `i` over the candidates `j < m`, one draw each from `g.used`:
      every new edge adds 2 to the total at once, so later candidates of the
      same round are weighed against the larger total. */
  function DraftRound(ps: seq<string>, i: nat, m: nat, g: Growth, draws: Draws): (r: Growth)
    requires i < |ps| && m <= i && g.total > 0
    ensures r.total >= g.total && r.used == g.used + m
    ensures |r.edges| >= |g.edges| && r.edges[..|g.edges|] == g.edges
    ensures r.total + 2 * |g.edges| == g.total + 2 * |r.edges|
  {
    if m == 0 then g
    else
      var h := DraftRound(ps, i, m - 1, g, draws);
      if draws(h.used) < Ratio(h.edges, ps[m - 1], h.total) then
        Growth(h.edges + [Pair(ps[i], ps[m - 1])], h.total + 2, h.used + 1)
      else Growth(h.edges, h.total, h.used + 1)
  }

  /** The state at the start of round `i`. */
  function DraftGrowthAt(ps: seq<string>, i: nat, draws: Draws): (g: Growth)
    requires 2 <= i <= |ps|
    ensures g.total == 2 * |g.edges| && |g.edges| >= 1
    decreases i
  {
    if i == 2 then Growth([Pair(ps[0], ps[1])], 2, 0)
    else DraftRound(ps, i - 1, i - 1, DraftGrowthAt(ps, i - 1, draws), draws)
  }

  /** The edges the draft `build_from_scalefree` appends
      (Interactome.py:92-106); IndexError below two proteins. */
  function DraftScaleFreeEdges(ps: seq<string>, draws: Draws): Result<seq<Entry>> {
    if |ps| < 2 then Err(IndexError) else Ok(DraftGrowthAt(ps, |ps|, draws).edges)
  }

  /** The eager total is twice the number of edges after every step, so each
      chance is a probability even over repeated names: a degree is at most
      the number of edges. */
  lemma DraftRatioBound(ps: seq<string>, i: nat, j: nat, draws: Draws)
    requires 2 <= i < |ps| && j < i
    ensures var h := DraftRound(ps, i, j, DraftGrowthAt(ps, i, draws), draws);
      h.total == 2 * |h.edges| && Ratio(h.edges, ps[j], h.total) <= 1.0
  {
    var h := DraftRound(ps, i, j, DraftGrowthAt(ps, i, draws), draws);
    NbrsSize(h.edges, ps[j]);
    RatioAtMostOne(h.edges, ps[j], h.total);
  }
}
