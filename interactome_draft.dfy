/** The generators of the draft class of Interactome.py. Its file builder,
    matrix fill and queries are the ones of the final class; its uniform
    generator walks ordered pairs of names and its preferential generator
    raises the total after every new edge. Both act here on an object of the
    final class's model. */
module InteractomeDraft {
  import opened Common
  import opened Graph
  import opened Generators
  import opened GeneratorsDraft
  import opened Interactome

  /** The generator the draft constructor runs, by its `algo` argument. */
  function DraftGeneratedEdges(ps: seq<string>, algo: Algo, draws: Draws): Result<seq<Entry>> {
    match algo
    case ErdosRenyi(q) => Ok(DraftRandomEdges(ps, q, draws))
    case ScaleFree => DraftScaleFreeEdges(ps, draws)
    case NoAlgo => Ok([])
  }

  // ---- build_from_random ----

  /** The draft `build_from_random`: for every name `prot1` and every name
      `prot2` other than it, one draw, appending `(prot1, prot2)` when the
      draw is below `q`. */
  method DraftBuildFromRandom(g: Interactome, q: real, draws: Draws)
    modifies g
    requires g.Valid()
    ensures g.Valid() && g.proteins == old(g.proteins) && g.intMatrix == old(g.intMatrix)
    ensures g.intList == old(g.intList) + DraftRandomEdges(g.proteins, q, draws)
  {
    var n := |g.proteins|;
    ghost var ps := g.proteins;
    var k := 0;
    for a := 0 to n
      invariant g.Valid() && g.proteins == ps && g.intMatrix == old(g.intMatrix)
      invariant k == |FullRows(ps, a)|
      invariant g.intList == old(g.intList) + Select(ps, FullRows(ps, a), q, draws)
    {
      k := DraftRow(g, a, q, draws, k, old(g.intList));
    }
  }

  /** The inner loop of the draft `build_from_random` for `prot1 = ps[a]`. */
  method DraftRow(g: Interactome, a: nat, q: real, draws: Draws, k0: nat, ghost base: seq<Entry>) returns (k: nat)
    modifies g
    requires g.Valid() && a < |g.proteins| && k0 == |FullRows(g.proteins, a)|
    requires g.intList == base + Select(g.proteins, FullRows(g.proteins, a), q, draws)
    ensures g.Valid() && g.proteins == old(g.proteins) && g.intMatrix == old(g.intMatrix)
    ensures k == |FullRows(g.proteins, a + 1)|
    ensures g.intList == base + Select(g.proteins, FullRows(g.proteins, a + 1), q, draws)
  {
    var n := |g.proteins|;
    ghost var ps := g.proteins;
    ghost var pairs := FullRows(ps, a);
    k := k0;
    RowsStart(ps, a);
    var b: nat := 0;
    while b < n
      invariant b <= n
      invariant g.Valid() && g.proteins == ps && g.intMatrix == old(g.intMatrix)
      invariant pairs == Visited(ps, a, b) && k == |pairs|
      invariant g.intList == base + Select(ps, pairs, q, draws)
    {
      k, pairs := DraftColumn(g, a, b, q, draws, k, pairs, base);
      b := b + 1;
    }
    RowsEnd(ps, a);
  }

  /** Column `b` of the draft's row `a`: a pair of different names takes
      the next draw and is appended when that draw is below `q`. */
  method DraftColumn(g: Interactome, a: nat, b: nat, q: real, draws: Draws, k0: nat,
                     ghost pairs0: seq<(nat, nat)>, ghost base: seq<Entry>)
    returns (k: nat, ghost pairs: seq<(nat, nat)>)
    modifies g
    requires g.Valid() && a < |g.proteins| && b < |g.proteins|
    requires pairs0 == Visited(g.proteins, a, b) && k0 == |pairs0|
    requires g.intList == base + Select(g.proteins, pairs0, q, draws)
    ensures g.Valid() && g.proteins == old(g.proteins) && g.intMatrix == old(g.intMatrix)
    ensures pairs == Visited(g.proteins, a, b + 1) && k == |pairs|
    ensures g.intList == base + Select(g.proteins, pairs, q, draws)
  {
    ghost var ps := g.proteins;
    RowsNext(ps, a, b);
    k, pairs := k0, pairs0;
    if g.proteins[a] != g.proteins[b] {
      label L:
      if draws(k) < q {
        g.Record(g.proteins[a], g.proteins[b]);
      }
      DraftRowNext(ps, pairs, a, b, q, draws, base, old@L(g.intList), g.intList);
      pairs := pairs + [(a, b)];
      k := k + 1;
    }
  }

  /** One ordered pair `(a, b)` of different names: draw `|pairs|` decides
      whether it is appended. */
  lemma DraftRowNext(ps: seq<string>, pairs: seq<(nat, nat)>, a: nat, b: nat, q: real, draws: Draws,
                     base: seq<Entry>, l: seq<Entry>, l': seq<Entry>)
    requires a < |ps| && b < |ps| && PairsWithin(pairs, |ps|)
    requires l == base + Select(ps, pairs, q, draws)
    requires l' == if draws(|pairs|) < q then l + [Pair(ps[a], ps[b])] else l
    ensures PairsWithin(pairs + [(a, b)], |ps|)
    ensures l' == base + Select(ps, pairs + [(a, b)], q, draws)
  {
    SelectSnoc(ps, pairs, (a, b), q, draws);
    var s := Select(ps, pairs, q, draws);
    if draws(|pairs|) < q {
      assert base + (s + [Pair(ps[a], ps[b])]) == (base + s) + [Pair(ps[a], ps[b])];
    } else {
      assert s + [] == s;
    }
  }

  // ---- build_from_scalefree ----

  /** The draft `build_from_scalefree`: start from `(ps[0], ps[1])` with
      total 2; in round `i` link `ps[i]` to each earlier `ps[j]` when the next
      draw is below `ps[j]`'s degree over the total, and add 2 to the total
      at once for each new edge. Fewer than two proteins raise IndexError. */
  method DraftBuildFromScaleFree(g: Interactome, draws: Draws) returns (err: Option<Error>)
    modifies g
    requires g.Valid() && g.intList == []
    ensures err.Some? <==> |g.proteins| < 2
    ensures err.Some? ==> err == Some(IndexError)
    ensures g.proteins == old(g.proteins) && g.intMatrix == old(g.intMatrix)
    ensures err.None? ==> g.Valid() && Ok(g.intList) == DraftScaleFreeEdges(g.proteins, draws)
  {
    if |g.proteins| < 2 {
      return Some(IndexError);
    }
    ghost var ps := g.proteins;
    var totalDeg: nat := 2;
    g.Record(g.proteins[0], g.proteins[1]);
    var n := |g.proteins|;
    var k := 0;
    for i := 2 to n
      invariant g.Valid() && g.proteins == ps && g.intMatrix == old(g.intMatrix)
      invariant DraftGrowthAt(ps, i, draws) == Growth(g.intList, totalDeg, k)
    {
      totalDeg, k := DraftAttachRound(g, i, draws, totalDeg, k);
    }
    err := None;
  }

  /** Round `i` of the draft `build_from_scalefree`, from the state reached
      so far; returns the new total and the next draw. */
  method DraftAttachRound(g: Interactome, i: nat, draws: Draws, total0: nat, k0: nat) returns (total: nat, k: nat)
    modifies g
    requires g.Valid() && 2 <= i < |g.proteins|
    requires DraftGrowthAt(g.proteins, i, draws) == Growth(g.intList, total0, k0)
    ensures g.Valid() && g.proteins == old(g.proteins) && g.intMatrix == old(g.intMatrix)
    ensures DraftGrowthAt(g.proteins, i + 1, draws) == Growth(g.intList, total, k)
  {
    ghost var ps := g.proteins;
    ghost var g0 := Growth(g.intList, total0, k0);
    total, k := total0, k0;
    for j := 0 to i
      invariant g.Valid() && g.proteins == ps && g.intMatrix == old(g.intMatrix)
      invariant Growth(g.intList, total, k) == DraftRound(ps, i, j, g0, draws)
      invariant total >= total0
    {
      label L:
      var added := g.Attach(i, j, draws, total, k);
      DraftRoundNext(ps, i, j, g0, draws, old@L(g.intList), total, k, added, g.intList);
      if added {
        total := total + 2;
      }
      k := k + 1;
    }
  }

  /** Candidate `j` of the draft round: the draw is weighed against the
      current total, and a new edge raises that total by 2. */
  lemma DraftRoundNext(ps: seq<string>, i: nat, j: nat, g0: Growth, draws: Draws,
                       l: seq<Entry>, total: nat, k: nat, added: bool, l': seq<Entry>)
    requires i < |ps| && j < i && g0.total > 0
    requires Growth(l, total, k) == DraftRound(ps, i, j, g0, draws)
    requires total > 0 && added == (draws(k) < Ratio(l, ps[j], total))
    requires l' == if added then l + [Pair(ps[i], ps[j])] else l
    ensures Growth(l', if added then total + 2 else total, k + 1) == DraftRound(ps, i, j + 1, g0, draws)
  {
  }

  // ---- Construction ----

  /** The draft `Interactome(algo=..., proteins=ps)`: the empty attributes,
      the chosen draft generator, then the matrix. */
  method DraftGenerate(ps: seq<string>, algo: Algo, draws: Draws) returns (r: Result<Interactome>)
    ensures r.Err? <==> DraftGeneratedEdges(ps, algo, draws).Err?
    ensures r.Err? ==> r.error == DraftGeneratedEdges(ps, algo, draws).error
    ensures r.Ok? ==>
      && fresh(r.value) && fresh(r.value.intMatrix)
      && r.value.Valid() && r.value.MatrixValid()
      && r.value.proteins == ps && r.value.intList == DraftGeneratedEdges(ps, algo, draws).value
  {
    var g := new Interactome.Init(ps);
    match algo {
      case ErdosRenyi(q) =>
        DraftBuildFromRandom(g, q, draws);
      case ScaleFree =>
        var err := DraftBuildFromScaleFree(g, draws);
        if err.Some? {
          return Err(err.value);
        }
      case NoAlgo =>
    }
    ConsistentMatrix(g.proteins, g.intList);
    var _ := g.BuildMatrix();
    r := Ok(g);
  }
}
