/** The `Interactome` class of interactome.py: a protein-interaction network
    held three ways at once (the edge list `int_list`, the adjacency
    dictionary `int_dict` and the 0/1 matrix `int_matrix`, indexed by
    `proteins`), built from an interaction file or by a random generator, with
    its degree, density, clustering and connected-component queries. */
module Interactome {
  import opened Common
  import opened EdgeFile
  import opened Graph
  import opened Reach
  import opened Matrix
  import opened FileList
  import opened Adjacency
  import opened Generators
  import opened Degrees
  import opened Components
  import Project

  /** `vertices_generator(n)`: the names "0", "1", ..., "n-1". */
  function VerticesGenerator(n: nat): (r: seq<string>)
    ensures |r| == n && (forall i | 0 <= i < n :: r[i] == ToDecimal(i))
    ensures Distinct(r)
  {
    var r := seq(n, i requires 0 <= i < n => ToDecimal(i));
    assert forall i, j | 0 <= i < j < n :: r[i] != r[j] by {
      forall i, j | 0 <= i < j < n ensures r[i] != r[j] {
        if r[i] == r[j] {
          ToDecimalInjective(i, j);
        }
      }
    }
    r
  }

  // ---- Building from a file ----

  /** `proteins.append(x)` unless `x` is listed already. */
  function Meet(ps: seq<string>, x: string): seq<string> {
    if x in ps then ps else ps + [x]
  }

  /** The proteins `build_from_file` lists: the names of the first two
      columns, once each, in order of first appearance. */
  function FileProteins(f: File): seq<string> {
    Dedup(Endpoints(Slots(f.lines, |f.lines|)))
  }

  /** The exception `build_from_file` raises: the header is not a number
      (ValueError), or a data line has no slot in `[0] * N` or fewer than two
      tokens (IndexError). */
  function BuildError(f: File): Option<Error> {
    if f.header.None? then Some(ValueError)
    else if |f.lines| > f.header.value || Project.ShortLine(f.lines) then Some(IndexError)
    else None
  }

  /** The exception constructing from a file raises: a builder error, or one
      of the matrix fill, which cannot unpack a line of more than two tokens
      (ValueError) or a `0` placeholder left by a header larger than the
      number of lines (TypeError). */
  function FileError(f: File): Option<Error> {
    if BuildError(f).Some? then BuildError(f)
    else if !AllPairs(f.lines, f.header.value) then Some(ValueError)
    else if |f.lines| < f.header.value then Some(TypeError)
    else None
  }

  /** What the file builder keeps after the first `k` lines. */
  predicate FileState(lines: seq<string>, k: nat, ps: seq<string>, d: Adj) {
    && ps == Dedup(Endpoints(Slots(lines, k)))
    && d.Keys == Elems(ps)
    && AdjOf(d, Slots(lines, k))
  }

  lemma FileStep(lines: seq<string>, k: nat, ps: seq<string>, d: Adj)
    requires k < |lines| && |Tokens(lines[k])| >= 2 && FileState(lines, k, ps, d)
    ensures var t := Tokens(lines[k]);
      FileState(lines, k + 1, Meet(Meet(ps, t[0]), t[1]), AddEdge(d, t[0], t[1]))
  {
    var t := Tokens(lines[k]);
    var s := Slots(lines, k);
    var e := LineEntry(lines[k]);
    Project.SlotsSnoc(lines, k);
    AdjSnoc(d, s, e);
    EndpointsSnoc(s, e);
    MeetTwice(Endpoints(s), ps, t[0], t[1]);
  }

  /** Meeting two names keeps the listed proteins the first appearances. */
  lemma MeetTwice(x: seq<string>, ps: seq<string>, a: string, b: string)
    requires ps == Dedup(x)
    ensures Meet(Meet(ps, a), b) == Dedup(x + [a, b])
    ensures Elems(Meet(Meet(ps, a), b)) == Elems(ps) + {a, b}
  {
    assert x + [a, b] == (x + [a]) + [b];
    MeetOnce(x, ps, a);
    MeetOnce(x + [a], Meet(ps, a), b);
  }

  /** Meeting one name. */
  lemma MeetOnce(x: seq<string>, ps: seq<string>, a: string)
    requires ps == Dedup(x)
    ensures Meet(ps, a) == Dedup(x + [a])
    ensures Elems(Meet(ps, a)) == Elems(ps) + {a}
  {
    DedupElems(x);
    DedupSnoc(x, a);
    if a !in ps {
      assert Elems(ps + [a]) == Elems(ps) + {a};
    }
  }

  lemma ListStep(lines: seq<string>, k: nat, n: nat)
    requires k < n && k < |lines|
    ensures Slots(lines[..k], n)[k := LineEntry(lines[k])] == Slots(lines[..k + 1], n)
  {
  }

  /** Both names of a line of two or more tokens are endpoints. */
  lemma {:induction false} EndpointsHas(l: seq<Entry>, k: nat)
    requires k < |l| && l[k].Tuple? && |l[k].items| >= 2
    ensures l[k].items[0] in Endpoints(l) && l[k].items[1] in Endpoints(l)
  {
    if k < |l| - 1 {
      EndpointsHas(l[..|l| - 1], k);
    }
  }

  /** The proteins of a file name both tokens of every line. */
  lemma FileNames(f: File)
    requires !Project.ShortLine(f.lines)
    ensures NamesIn(FileProteins(f), f.lines)
  {
    var l := Slots(f.lines, |f.lines|);
    DedupElems(Endpoints(l));
    forall k | 0 <= k < |f.lines| && |Tokens(f.lines[k])| >= 2
      ensures Tokens(f.lines[k])[0] in FileProteins(f) && Tokens(f.lines[k])[1] in FileProteins(f)
    {
      EndpointsHas(l, k);
    }
  }

  /** The random generators' choice of algorithm: `"erdos_renyi"` with its
      `proba`, `"scale_free"`, or any other value, which adds no edge. */
  datatype Algo = ErdosRenyi(q: real) | ScaleFree | NoAlgo

  /** The edges the chosen generator appends to an empty list. */
  function GeneratedEdges(ps: seq<string>, algo: Algo, draws: Draws): Result<seq<Entry>> {
    match algo
    case ErdosRenyi(q) => Ok(ErdosRenyiEdges(ps, q, draws))
    case ScaleFree => ScaleFreeEdges(ps, draws)
    case NoAlgo => Ok([])
  }

  /** An object's edge list and dictionary after a successful construction:
      the dictionary is in step with the list and keyed by the proteins, and
      every entry is a pair of listed proteins. */
  predicate Consistent(ps: seq<string>, d: Adj, l: seq<Entry>) {
    && d.Keys == Elems(ps)
    && AdjOf(d, l)
    && (forall t | 0 <= t < |l| :: IsPair(l[t]) && l[t].items[0] in ps && l[t].items[1] in ps)
  }

  /** The degree maximum over the keys in order of first listing, and the
      keys that reach it: in terms of the edge list, over `ps`. */
  lemma MaxDegreeShape(ps: seq<string>, d: Adj, l: seq<Entry>)
    requires Consistent(ps, d, l) && ps != []
    ensures Listed(Dedup(ps), d)
    ensures var m := MaxDeg(Dedup(ps), d); var top := OfDegree(Dedup(ps), d, m);
      && (forall p | p in ps :: |Nbrs(l, p)| <= m)
      && (forall p :: p in top <==> p in ps && |Nbrs(l, p)| == m)
      && top != [] && Distinct(top) && Ordered(ps, top)
  {
    var ks := Dedup(ps);
    DedupElems(ps);
    var m := MaxDeg(ks, d);
    var top := OfDegree(ks, d, m);
    assert ps[0] in ks;
    OfDegreeOrder(ks, d, m);
    OrderedDedup(ps, top);
    var p :| p in ks && |d[p]| == m;
    assert p in top;
  }

  /** A consistent list unpacks without error into the matrix. */
  lemma {:induction false} ConsistentMatrix(ps: seq<string>, l: seq<Entry>)
    requires forall t | 0 <= t < |l| :: IsPair(l[t]) && l[t].items[0] in ps && l[t].items[1] in ps
    ensures MatrixError(ps, l) == None
  {
    if l != [] {
      ConsistentMatrix(ps, l[..|l| - 1]);
    }
  }

  /** Recording a pair of listed proteins keeps an object consistent. */
  lemma ConsistentSnoc(ps: seq<string>, d: Adj, l: seq<Entry>, a: string, b: string)
    requires Consistent(ps, d, l) && a in ps && b in ps
    ensures Consistent(ps, AddEdge(d, a, b), l + [Pair(a, b)])
  {
    AdjSnoc(d, l, Pair(a, b));
  }

  class Interactome {
    var proteins: seq<string>
    var intDict: Adj
    var intList: seq<Entry>
    var intMatrix: array2<int>

    /** What every successful construction establishes. */
    predicate Valid()
      reads this
    {
      Consistent(proteins, intDict, intList)
    }

    /** The matrix is n-by-n with a 1 exactly at the cells of listed pairs. */
    predicate MatrixValid()
      reads this, intMatrix
    {
      && intMatrix.Length0 == |proteins| && intMatrix.Length1 == |proteins|
      && forall i, j | 0 <= i < |proteins| && 0 <= j < |proteins| ::
        intMatrix[i, j] == if Linked(proteins, intList, i, j) then 1 else 0
    }

    /** The attributes before a generator runs (interactome.py:40-42): the
        given proteins, an empty set for each, and no interaction. */
    constructor Init(ps: seq<string>)
      ensures proteins == ps && intDict == EmptyAdj(ps) && intList == []
      ensures Valid()
    {
      proteins := ps;
      intDict := EmptyAdj(ps);
      intList := [];
      intMatrix := new int[0, 0];
      AdjEmpty(ps);
    }

    /** `build_from_file` (interactome.py:60-90): `int_list` is `[0] * N` with
        slot i set to the tokens of line i, and each line's two names are
        listed on first appearance and linked both ways in `int_dict`. */
    method BuildFromFile(f: File) returns (err: Option<Error>)
      modifies this
      ensures err == BuildError(f)
      ensures intMatrix == old(intMatrix)
      ensures err.None? ==>
        && proteins == FileProteins(f)
        && Ok(intList) == ListSpec(f)
        && FileState(f.lines, |f.lines|, proteins, intDict)
    {
      if f.header.None? {
        return Some(ValueError);
      }
      var n := f.header.value;
      proteins := [];
      intDict := map[];
      intList := seq(n, i => Zero);
      var k := 0;
      while k < |f.lines|
        invariant 0 <= k <= |f.lines| && k <= n
        invariant intMatrix == old(intMatrix)
        invariant forall j | 0 <= j < k :: |Tokens(f.lines[j])| >= 2
        invariant intList == Slots(f.lines[..k], n)
        invariant FileState(f.lines, k, proteins, intDict)
      {
        var split := Tokens(f.lines[k]);
        if k >= n {
          return Some(IndexError);
        }
        ListStep(f.lines, k, n);
        intList := intList[k := Tuple(split)];
        if |split| < 2 {
          Project.ShortLineAt(f.lines, k);
          return Some(IndexError);
        }
        FileStep(f.lines, k, proteins, intDict);
        if split[0] !in proteins {
          proteins := proteins + [split[0]];
        }
        intDict := Link(intDict, split[0], split[1]);
        if split[1] !in proteins {
          proteins := proteins + [split[1]];
        }
        intDict := Link(intDict, split[1], split[0]);
        k := k + 1;
      }
      assert f.lines[..k] == f.lines;
      err := None;
    }

    /** The matrix part of `__init__` (interactome.py:48-56). */
    method BuildMatrix() returns (err: Option<Error>)
      modifies this
      ensures proteins == old(proteins) && intDict == old(intDict) && intList == old(intList)
      ensures fresh(intMatrix)
      ensures err == MatrixError(proteins, intList)
      ensures err.None? ==> MatrixValid()
    {
      var m;
      err, m := FillMatrix(proteins, intList);
      intMatrix := m;
    }

    /** `Interactome(filename)`: the file builder, then the matrix. */
    static method FromFile(f: File) returns (r: Result<Interactome>)
      ensures r.Err? <==> FileError(f).Some?
      ensures r.Err? ==> Some(r.error) == FileError(f)
      ensures r.Ok? ==>
        && fresh(r.value) && fresh(r.value.intMatrix)
        && r.value.Valid() && r.value.MatrixValid()
        && r.value.proteins == FileProteins(f)
        && Ok(r.value.intList) == ListSpec(f)
    {
      var g := new Interactome.Init([]);
      var err := g.BuildFromFile(f);
      if err.Some? {
        return Err(err.value);
      }
      var n := f.header.value;
      FileNames(f);
      SlotsMatrixError(g.proteins, f.lines, n);
      err := g.BuildMatrix();
      if err.Some? {
        return Err(err.value);
      }
      FileValid(f, g.proteins, g.intDict, g.intList);
      r := Ok(g);
    }

    /** The final `build_from_random` (interactome.py:99-104): each index
        pair `i < j` in turn, one draw each, appending `(ps[i], ps[j])` when
        the draw is below `q`. */
    method BuildFromRandom(q: real, draws: Draws)
      modifies this
      requires Valid()
      ensures Valid()
      ensures proteins == old(proteins) && intMatrix == old(intMatrix)
      ensures intList == old(intList) + ErdosRenyiEdges(proteins, q, draws)
    {
      var n := |proteins|;
      var k: nat := 0;
      var i: nat := 0;
      RowsWithin(0, n);
      while i < n
        invariant i <= n && k == |Rows(i, n)| && PairsWithin(Rows(i, n), n)
        invariant Valid() && proteins == old(proteins) && intMatrix == old(intMatrix)
        invariant intList == old(intList) + Select(proteins, Rows(i, n), q, draws)
      {
        k := RandomRow(i, q, draws, k, old(intList));
        i := i + 1;
      }
    }

    /** Row `i` of `build_from_random`: the pairs `(i, j)`, `i < j`, with
        draws `k0`, `k0 + 1`, ... */
    method RandomRow(i: nat, q: real, draws: Draws, k0: nat, ghost base: seq<Entry>) returns (k: nat)
      modifies this
      requires Valid() && i < |proteins| && k0 == |Rows(i, |proteins|)|
      requires PairsWithin(Rows(i, |proteins|), |proteins|)
      requires intList == base + Select(proteins, Rows(i, |proteins|), q, draws)
      ensures Valid() && proteins == old(proteins) && intMatrix == old(intMatrix)
      ensures k == |Rows(i + 1, |proteins|)| && PairsWithin(Rows(i + 1, |proteins|), |proteins|)
      ensures intList == base + Select(proteins, Rows(i + 1, |proteins|), q, draws)
    {
      var n := |proteins|;
      ghost var pairs := Rows(i, n);
      var j: nat := i + 1;
      k := k0;
      RowStart(i, n);
      while j < n
        invariant i + 1 <= j <= n
        invariant Valid() && proteins == old(proteins) && intMatrix == old(intMatrix)
        invariant pairs == Rows(i, n) + RowPrefix(i, j) && PairsWithin(pairs, n) && k == |pairs|
        invariant intList == base + Select(proteins, pairs, q, draws)
      {
        k, pairs := RandomPair(i, j, q, draws, k, pairs, base);
        j := j + 1;
      }
      RowClose(i, n, pairs);
    }

    /** Pair `(i, j)` of `build_from_random`: draw `k` decides whether it is
        appended. */
    method RandomPair(i: nat, j: nat, q: real, draws: Draws, k0: nat, ghost pairs0: seq<(nat, nat)>, ghost base: seq<Entry>)
      returns (k: nat, ghost pairs: seq<(nat, nat)>)
      modifies this
      requires Valid() && i < j < |proteins|
      requires pairs0 == Rows(i, |proteins|) + RowPrefix(i, j) && PairsWithin(pairs0, |proteins|) && k0 == |pairs0|
      requires intList == base + Select(proteins, pairs0, q, draws)
      ensures Valid() && proteins == old(proteins) && intMatrix == old(intMatrix)
      ensures pairs == Rows(i, |proteins|) + RowPrefix(i, j + 1) && PairsWithin(pairs, |proteins|) && k == |pairs|
      ensures intList == base + Select(proteins, pairs, q, draws)
    {
      label L:
      if draws(k0) < q {
        Record(proteins[i], proteins[j]);
      }
      RandomNext(proteins, i, j, pairs0, q, draws, base, old@L(intList), intList);
      pairs := pairs0 + [(i, j)];
      k := k0 + 1;
    }

    /** The final `build_from_scalefree` (interactome.py:110-125): start from
        the edge `(ps[0], ps[1])` with total 2; in round `i` link `ps[i]` to
        each earlier `ps[j]` when the next draw is below `ps[j]`'s degree over
        the total, and add twice the round's new edges to the total after the
        round. Fewer than two proteins raise IndexError. The generator runs
        on the fresh object of `__init__`, whose list is empty. */
    method BuildFromScaleFree(draws: Draws) returns (err: Option<Error>)
      modifies this
      requires Valid() && intList == []
      ensures err.Some? <==> |proteins| < 2
      ensures err.Some? ==> err == Some(IndexError)
      ensures proteins == old(proteins) && intMatrix == old(intMatrix)
      ensures err.None? ==> Valid() && Ok(intList) == ScaleFreeEdges(proteins, draws)
    {
      if |proteins| < 2 {
        return Some(IndexError);
      }
      var totalDeg: nat := 2;
      Record(proteins[0], proteins[1]);
      var n := |proteins|;
      var k := 0;
      var i := 2;
      while i < n
        invariant 2 <= i <= n
        invariant Valid() && proteins == old(proteins) && intMatrix == old(intMatrix)
        invariant GrowthAt(proteins, i, draws) == Growth(intList, totalDeg, k)
      {
        label L:
        var nbNew, k' := AttachRound(i, draws, totalDeg, k);
        GrowthAfter(proteins, i, draws, old@L(intList), totalDeg, k, intList, nbNew, k');
        k := k';
        totalDeg := totalDeg + nbNew * 2;
        i := i + 1;
      }
      err := None;
    }

    /** Round `i` of `build_from_scalefree`: the candidates `ps[0] .. ps[i-1]`
        against the round's fixed total; returns the number of new edges and
        the next draw. */
    method AttachRound(i: nat, draws: Draws, totalDeg: nat, k0: nat) returns (nbNew: nat, k: nat)
      modifies this
      requires Valid() && 2 <= i < |proteins| && totalDeg > 0
      ensures Valid() && proteins == old(proteins) && intMatrix == old(intMatrix)
      ensures intList == Round(proteins, i, i, old(intList), totalDeg, k0, draws)
      ensures k == k0 + i && |intList| == |old(intList)| + nbNew
    {
      ghost var l0 := intList;
      ghost var ps := proteins;
      nbNew := 0;
      k := k0;
      for j := 0 to i
        invariant Valid() && proteins == ps && intMatrix == old(intMatrix)
        invariant k == k0 + j
        invariant intList == Round(ps, i, j, l0, totalDeg, k0, draws)
        invariant |intList| == |l0| + nbNew
      {
        nbNew := AttachStep(i, j, draws, totalDeg, k0, l0, nbNew);
        k := k + 1;
      }
    }

    /** Candidate `j` of round `i`: draw `k0 + j` against `ps[j]`'s share of
        the round's total. */
    method AttachStep(i: nat, j: nat, draws: Draws, totalDeg: nat, k0: nat, ghost l0: seq<Entry>, nb0: nat)
      returns (nbNew: nat)
      modifies this
      requires Valid() && j < i < |proteins| && totalDeg > 0
      requires intList == Round(proteins, i, j, l0, totalDeg, k0, draws) && |intList| == |l0| + nb0
      ensures Valid() && proteins == old(proteins) && intMatrix == old(intMatrix)
      ensures intList == Round(proteins, i, j + 1, l0, totalDeg, k0, draws) && |intList| == |l0| + nbNew
    {
      ghost var ps, l := proteins, intList;
      var k := k0 + j;
      var added := Attach(i, j, draws, totalDeg, k);
      AttachAfter(ps, i, j, l0, totalDeg, k0, draws, l, added, l, ps, k);
      nbNew := if added then nb0 + 1 else nb0;
    }

    /** `Interactome(algo=..., proteins=ps)`: the empty attributes, the
        chosen generator, then the matrix, whose fill cannot fail here. */
    static method Generate(ps: seq<string>, algo: Algo, draws: Draws) returns (r: Result<Interactome>)
      ensures r.Err? <==> GeneratedEdges(ps, algo, draws).Err?
      ensures r.Err? ==> r.error == GeneratedEdges(ps, algo, draws).error
      ensures r.Ok? ==>
        && fresh(r.value) && fresh(r.value.intMatrix)
        && r.value.Valid() && r.value.MatrixValid()
        && r.value.proteins == ps && r.value.intList == GeneratedEdges(ps, algo, draws).value
    {
      var g := new Interactome.Init(ps);
      match algo {
        case ErdosRenyi(q) =>
          g.BuildFromRandom(q, draws);
        case ScaleFree =>
          var err := g.BuildFromScaleFree(draws);
          if err.Some? {
            return Err(err.value);
          }
        case NoAlgo =>
      }
      ConsistentMatrix(g.proteins, g.intList);
      var _ := g.BuildMatrix();
      r := Ok(g);
    }

    /** Candidate `j` of round `i`: link `ps[i]` to `ps[j]` when draw `k` is
        below `ps[j]`'s degree over the round's total. */
    method Attach(i: nat, j: nat, draws: Draws, totalDeg: nat, k: nat) returns (added: bool)
      modifies this
      requires Valid() && j < i < |proteins| && totalDeg > 0
      ensures Valid() && proteins == old(proteins) && intMatrix == old(intMatrix)
      ensures added == (draws(k) < Ratio(old(intList), proteins[j], totalDeg))
      ensures intList == if added then old(intList) + [Pair(proteins[i], proteins[j])] else old(intList)
    {
      var deg := |intDict[proteins[j]]|;
      assert deg == |Nbrs(intList, proteins[j])|;
      var ratio := (deg as real) / (totalDeg as real);
      added := draws(k) < ratio;
      if added {
        Record(proteins[i], proteins[j]);
      }
    }

    /** Record the interaction `(a, b)` as the generators do: append it to
        `int_list` and add each name to the other's set. */
    method Record(a: string, b: string)
      modifies this
      requires Valid() && a in proteins && b in proteins
      ensures Valid()
      ensures proteins == old(proteins) && intMatrix == old(intMatrix)
      ensures intList == old(intList) + [Pair(a, b)]
      ensures intDict == AddEdge(old(intDict), a, b)
    {
      var d, l := intDict, intList;
      ConsistentSnoc(proteins, d, l, a, b);
      intList := l + [Pair(a, b)];
      intDict := Link(d, a, b);
      intDict := Link(intDict, b, a);
      assert intDict == AddEdge(d, a, b);
    }

    // ---- Degree queries ----

    /** The dictionary iterates its keys in order of first listing: the
        builders insert them in the order of `proteins`. */
    function KeyOrder(): (ks: seq<string>)
      reads this
      requires Valid()
      ensures Listed(ks, intDict) && Distinct(ks) && Elems(ks) == intDict.Keys
      ensures |ks| == |intDict|
    {
      DedupElems(proteins);
      DistinctCard(Dedup(proteins));
      Dedup(proteins)
    }

    /** `count_vertices()`: the length of `proteins`, which on a
        duplicate-free list is the number of keys. */
    function CountVertices(): (n: nat)
      reads this
      ensures n == |proteins|
      ensures Valid() && Distinct(proteins) ==> n == |intDict|
    {
      if Valid() && Distinct(proteins) then DistinctCard(proteins); |proteins| else |proteins|
    }

    /** `count_edges()`; on a simple list over distinct proteins the degrees
        add up to twice the count. */
    function CountEdges(): (n: nat)
      reads this
      ensures n == |intList|
      ensures Valid() && Distinct(proteins) && Simple(intList) ==> 2 * n == DegSum(proteins, intDict)
    {
      if Valid() && Distinct(proteins) && Simple(intList) then
        EndpointsWithin(intList, proteins);
        DegreeSum(proteins, intList);
        DegSumOf(proteins, intDict, intList);
        |intList|
      else |intList|
    }

    /** `get_degree(p)`: KeyError for a name that is not a key; otherwise the
        number of neighbours of `p` in the edge list. */
    function Degree(p: string): (r: Result<nat>)
      reads this
      ensures r.Err? <==> p !in intDict
      ensures r.Err? ==> r.error == KeyError
      ensures Valid() ==> (r.Ok? <==> p in proteins)
      ensures Valid() && r.Ok? ==> r.value == |Nbrs(intList, p)|
    {
      if p in intDict then Ok(|intDict[p]|) else Err(KeyError)
    }

    /** `get_max_degree()`: ValueError (`max` of nothing) without proteins;
        otherwise the largest degree and every protein that has it, once
        each, in the order of `proteins`. */
    function MaxDegree(): (r: Result<(seq<string>, nat)>)
      reads this
      requires Valid()
      ensures r.Err? <==> proteins == []
      ensures r.Err? ==> r.error == ValueError
      ensures r.Ok? ==>
        && (forall p | p in proteins :: |Nbrs(intList, p)| <= r.value.1)
        && (forall p :: p in r.value.0 <==> p in proteins && |Nbrs(intList, p)| == r.value.1)
        && r.value.0 != [] && Distinct(r.value.0) && Ordered(proteins, r.value.0)
    {
      if proteins == [] then Err(ValueError)
      else
        MaxDegreeShape(proteins, intDict, intList);
        var ks := KeyOrder();
        var m := MaxDeg(ks, intDict);
        Ok((OfDegree(ks, intDict, m), m))
    }

    /** `get_ave_degree()`: ZeroDivisionError without keys; otherwise the
        degree sum over the number of keys. */
    function AveDegree(): (r: Result<real>)
      reads this
      requires Valid()
      ensures r.Err? <==> proteins == []
      ensures r.Err? ==> r.error == ZeroDivisionError
      ensures r.Ok? ==> |intDict| > 0 && r.value == (SumDeg(KeyOrder(), intList) as real) / (|intDict| as real)
    {
      var ks := KeyOrder();
      ElemsEmpty(proteins);
      if |intDict| == 0 then
        Err(ZeroDivisionError)
      else
        var total := DegSum(ks, intDict);
        DegSumOf(ks, intDict, intList);
        assert total == SumDeg(KeyOrder(), intList);
        Ok((total as real) / (|intDict| as real))
    }

    /** `count_degree(m)`: the number of proteins of degree exactly `m`. */
    function CountDegree(m: int): (c: nat)
      reads this
      requires Valid()
      ensures c == |set p | p in proteins && |Nbrs(intList, p)| == m|
    {
      var ks := KeyOrder();
      CountOfSet(ks, intDict, m);
      SameDegreeSet(proteins, intDict, intList, ks, m);
      CountOf(ks, intDict, m)
    }

    /** On a simple edge list the average degree is twice the edge count
        over the number of keys. */
    lemma AveDegreeSimple()
      requires Valid() && Simple(intList) && proteins != []
      ensures AveDegree().Ok? && AveDegree().value == ((2 * |intList|) as real) / (|intDict| as real)
    {
      var ks := KeyOrder();
      EndpointsWithin(intList, proteins);
      DegreeSum(ks, intList);
    }

    /** Every key has one degree: the counts of the degrees below a bound
        that exceeds the largest degree add up to the number of keys. */
    lemma DegreeCountsTotal(b: nat)
      requires Valid() && proteins != [] && MaxDegree().value.1 < b
      ensures CountsBelow(KeyOrder(), intDict, b) == |intDict|
    {
      var ks := KeyOrder();
      CountsTotal(ks, intDict, b);
    }

    // ---- Density and clustering ----

    /** `density()`: ZeroDivisionError for fewer than two proteins; otherwise
        twice the edge count over n(n-1). */
    function Density(): (r: Result<real>)
      reads this
      ensures r.Err? <==> |proteins| <= 1
      ensures r.Err? ==> r.error == ZeroDivisionError
      ensures r.Ok? ==> r.value * ((|proteins| * (|proteins| - 1)) as real) == (2 * |intList|) as real
    {
      var n := |proteins|;
      if n * (n - 1) == 0 then Err(ZeroDivisionError)
      else
        PositiveProduct(n, n - 1);
        Ok(((2 * |intList|) as real) / ((n * (n - 1)) as real))
    }

    /** A simple list over distinct proteins has density at most 1. */
    lemma DensityAtMostOne()
      requires Valid() && Distinct(proteins) && Simple(intList) && |proteins| > 1
      ensures 0.0 <= Density().value <= 1.0
    {
      var n := |proteins|;
      EndpointsWithin(intList, proteins);
      EdgeBound(proteins, intList);
      PositiveProduct(n, n - 1);
      RatioInUnit(2 * |intList|, n * (n - 1));
    }

    /** `clustering(p)`: the double loop over the neighbours of `p` and their
        neighbours counts the ordered neighbour pairs that are adjacent. */
    method Clustering(p: string) returns (r: Result<real>)
      ensures r == Coefficient(intDict, p)
    {
      if p !in intDict {
        return Err(KeyError);
      }
      var nb := intDict[p];
      var k := |nb|;
      if k <= 1 {
        return Ok(0.0);
      }
      var sum := 0;
      var rest := nb;
      while rest != {}
        invariant rest <= nb
        invariant forall n | n in nb - rest :: n in intDict
        invariant sum == |NbrPairs(intDict, nb - rest, nb)|
        decreases |rest|
      {
        var n :| n in rest;
        if n !in intDict {
          return Err(KeyError);
        }
        var c := CountCommon(intDict[n], nb);
        ClusterStep(intDict, nb, rest, n);
        sum := sum + c;
        rest := rest - {n};
      }
      assert nb - rest == nb;
      CoefficientOf(intDict, p, sum);
      r := Ok((sum as real) / ((k * (k - 1)) as real));
    }

    /** Without self-pairs the coefficient of a listed protein exists and
        lies in [0, 1]. */
    lemma ClusteringBound(p: string)
      requires Valid() && NoSelfPair(intList) && p in proteins
      ensures Coefficient(intDict, p).Ok?
      ensures 0.0 <= Coefficient(intDict, p).value <= 1.0
    {
      forall n | n in intDict[p] && n in intDict ensures n !in intDict[n] {
        NoSelfNbr(intList, n);
      }
      AdjSymmetric(intDict, intList);
      CoefficientBound(intDict, p);
    }

    /** The inner loop of `clustering`: how many elements of `s` are in `nb`. */
    static method CountCommon(s: set<string>, nb: set<string>) returns (c: nat)
      ensures c == |s * nb|
    {
      c := 0;
      var rest := s;
      while rest != {}
        invariant rest <= s
        invariant c == |(s - rest) * nb|
        decreases |rest|
      {
        var x :| x in rest;
        CommonStep(s, rest, nb, x);
        if x in nb {
          c := c + 1;
        }
        rest := rest - {x};
      }
      assert s - rest == s;
    }

    // ---- Connected components ----

    /** `extract_CC(p)`: the breadth-first traversal from `p` lists, once
        each and starting with `p`, exactly the proteins reachable from it;
        a protein that is not a key fails at `int_dict[queue[0]]`. */
    method ExtractCC(p: string) returns (r: Result<seq<string>>)
      requires Valid()
      ensures r.Err? <==> p !in intDict
      ensures r.Err? ==> r.error == KeyError
      ensures r.Ok? ==> IsComponent(intDict, p, r.value)
    {
      if p !in intDict {
        return Err(KeyError);
      }
      AdjSymmetric(intDict, intList);
      var visited: seq<string> := [];
      var queue := [p];
      FrontierStart(intDict, p);
      while queue != []
        invariant Frontier(intDict, p, visited, queue)
        decreases |intDict| - |visited|
      {
        FrontierBound(intDict, p, visited, queue);
        assert queue[0] in visited + queue;
        var queue' := Expand(queue[0], visited, queue);
        FrontierStep(intDict, p, visited, queue, queue');
        visited := visited + [queue'[0]];
        queue := queue'[1..];
      }
      assert visited + [] == visited;
      FrontierDone(intDict, p, visited);
      return Ok(visited);
    }

    /** The `for neighbour in int_dict[x]` loop of `extract_CC`, in the
        dictionary's (unspecified) set order. */
    method Expand(x: string, visited: seq<string>, queue: seq<string>) returns (queue': seq<string>)
      requires x in intDict && Distinct(visited + queue)
      ensures Expanded(intDict, x, visited, queue, queue')
    {
      queue' := queue;
      var rest := intDict[x];
      ExpandingStart(intDict, x, visited, queue);
      while rest != {}
        invariant Expanding(intDict, x, visited, queue, queue', rest)
        decreases |rest|
      {
        var y :| y in rest;
        ExpandingStep(intDict, x, visited, queue, queue', rest, y);
        if y !in queue' && y !in visited {
          queue' := queue' + [y];
        }
        rest := rest - {y};
      }
      ExpandingDone(intDict, x, visited, queue, queue');
    }

    /** `compute_CC()`: one id per protein, handed out from 1 in the order of
        `proteins`, equal exactly for proteins of one component. */
    method ComputeCC() returns (lcc: seq<int>)
      requires Valid() && Distinct(proteins)
      ensures IsLabelling(intDict, proteins, lcc)
    {
      lcc := seq(|proteins|, _ => -1);
      var c := 1;
      for i := 0 to |proteins|
        invariant (lcc, c) == Labels(intDict, proteins, i)
      {
        if lcc[i] == -1 {
          var comp := ExtractCC(proteins[i]);
          ComponentWithin(intDict, proteins, proteins[i], comp.value);
          var stamped := Stamp(proteins, lcc, comp.value, c);
          LabelsStamp(intDict, proteins, i, lcc, c, comp.value, stamped);
          lcc := stamped;
          c := c + 1;
        } else {
          LabelsSkip(intDict, proteins, i, lcc, c);
        }
      }
      AdjSymmetric(intDict, intList);
      LabelsDone(intDict, proteins);
    }

    /** The inner loop of `compute_CC`: `lcc[proteins.index(x)] = c` for
        every member `x` of a component. */
    static method Stamp(ps: seq<string>, lcc: seq<int>, comp: seq<string>, c: int) returns (lcc': seq<int>)
      requires Distinct(ps) && |lcc| == |ps| && forall x | x in comp :: x in ps
      ensures StampOf(ps, lcc, lcc', comp, c)
    {
      lcc' := lcc;
      for k := 0 to |comp|
        invariant StampedBy(ps, lcc, lcc', comp, k, c)
      {
        StampedByStep(ps, lcc, lcc', comp, k, c);
        lcc' := lcc'[IndexOf(ps, comp[k]) := c];
      }
      assert comp[..|comp|] == comp;
    }

    /** `count_CC()`: the number of components and their sizes, read off
        the labelling; `max` of the empty labelling raises ValueError. Every
        size is positive and the sizes add up to the number of proteins. */
    method CountCC() returns (r: Result<(nat, seq<nat>)>)
      requires Valid() && Distinct(proteins)
      ensures r.Err? <==> proteins == []
      ensures r.Err? ==> r.error == ValueError
      ensures r.Ok? ==> forall lcc | IsLabelling(intDict, proteins, lcc) ::
        r.value.0 == Max(lcc) && r.value.1 == Histogram(lcc, Max(lcc))
      ensures r.Ok? ==> var (nb, sizes) := r.value;
        && nb >= 1 && |sizes| == nb
        && (forall c | 0 <= c < nb :: sizes[c] >= 1)
        && Sum(sizes) == |proteins|
    {
      var lcc := ComputeCC();
      if lcc == [] {
        return Err(ValueError);
      }
      ComponentSizes(intDict, proteins, lcc);
      var nb: nat := Max(lcc);
      var sizes := Sizes(lcc, nb);
      return Ok((nb, sizes));
    }

    /** The `CC_sizes_list[id_CC - 1] += 1` loop of `count_CC`. */
    static method Sizes(lcc: seq<int>, nb: nat) returns (sizes: seq<nat>)
      requires forall i | 0 <= i < |lcc| :: 1 <= lcc[i] <= nb
      ensures sizes == Histogram(lcc, nb)
    {
      sizes := seq(nb, _ => 0);
      HistogramZero(nb);
      for k := 0 to |lcc|
        invariant sizes == Histogram(lcc[..k], nb)
      {
        var x := lcc[k];
        assert lcc[..k + 1] == lcc[..k] + [x];
        HistogramBump(lcc[..k], x, nb);
        sizes := sizes[x - 1 := sizes[x - 1] + 1];
      }
      assert lcc[..|lcc|] == lcc;
    }

    /** The lines `write_CC()` joins into CCs.txt: for each component its
        size, then a tab and the name of each member, in the order of
        `proteins`. */
    method WriteCC() returns (r: Result<seq<string>>)
      requires Valid() && Distinct(proteins)
      ensures r.Err? <==> proteins == []
      ensures r.Err? ==> r.error == ValueError
      ensures r.Ok? ==> forall lcc | IsLabelling(intDict, proteins, lcc) ::
        |r.value| == Max(lcc) && forall c | 0 <= c < |r.value| :: r.value[c] == CCLine(proteins, lcc, c + 1)
    {
      var counted := CountCC();
      if counted.Err? {
        return Err(counted.error);
      }
      var sizes := counted.value.1;
      var lcc := ComputeCC();
      ComponentSizes(intDict, proteins, lcc);
      var content := AppendMembers(proteins, lcc, sizes);
      return Ok(content);
    }

    /** The loop of `write_CC` over `enumerate(compute_CC())`: each line
        starts as its size and gets a tab and the name of each member. */
    static method AppendMembers(ps: seq<string>, lcc: seq<int>, sizes: seq<nat>) returns (content: seq<string>)
      requires |ps| == |lcc| && forall i | 0 <= i < |lcc| :: 1 <= lcc[i] <= |sizes|
      ensures |content| == |sizes|
      ensures forall c | 0 <= c < |sizes| :: content[c] == ToDecimal(sizes[c]) + Members(MemberNames(ps, lcc, c + 1))
    {
      content := seq(|sizes|, c requires 0 <= c < |sizes| => ToDecimal(sizes[c]));
      LinesStart(ps, lcc, sizes);
      for j := 0 to |lcc|
        invariant LinesAfter(ps, lcc, sizes, content, j)
      {
        LinesStep(ps, lcc, sizes, content, j);
        content := content[lcc[j] - 1 := content[lcc[j] - 1] + "\t" + ps[j]];
      }
      assert ps[..|ps|] == ps && lcc[..|ps|] == lcc;
    }
  }

  /** The keys of a degree, read from the dictionary in key order or from
      the edge list over the proteins, are the same names. */
  lemma SameDegreeSet(ps: seq<string>, d: Adj, l: seq<Entry>, ks: seq<string>, m: int)
    requires Consistent(ps, d, l) && Listed(ks, d) && Elems(ks) == d.Keys
    ensures (set p | p in ks && |d[p]| == m) == set p | p in ps && |Nbrs(l, p)| == m
  {
    forall p ensures p in ks && |d[p]| == m <==> p in ps && |Nbrs(l, p)| == m {
      assert p in ks <==> p in Elems(ks);
      assert p in ps <==> p in Elems(ps);
    }
  }

  /** The first pairs `(i, i + 1) .. (i, j - 1)` of row `i`. */
  function RowPrefix(i: nat, j: nat): (r: seq<(nat, nat)>)
    requires i < j
    ensures |r| == j - i - 1 && forall t | 0 <= t < |r| :: r[t] == (i, i + 1 + t)
  {
    seq(j - i - 1, t requires 0 <= t < j - i - 1 => (i, i + 1 + t))
  }

  lemma RowPrefixSnoc(i: nat, j: nat)
    requires i < j
    ensures RowPrefix(i, j + 1) == RowPrefix(i, j) + [(i, j)]
  {
    var r, r' := RowPrefix(i, j), RowPrefix(i, j + 1);
    assert forall t | 0 <= t < |r'| :: r'[t] == (r + [(i, j)])[t];
  }

  lemma RowsWithin(i: nat, n: nat)
    requires i <= n
    ensures PairsWithin(Rows(i, n), n)
  {
    RowsBounds(i, n);
  }

  /** Before its first pair, row `i` adds nothing to the rows before it. */
  lemma RowStart(i: nat, n: nat)
    requires i < n
    ensures Rows(i, n) + RowPrefix(i, i + 1) == Rows(i, n)
  {
    assert RowPrefix(i, i + 1) == [];
  }

  /** After its last pair, row `i` completes the rows before `i + 1`. */
  lemma RowClose(i: nat, n: nat, pairs: seq<(nat, nat)>)
    requires i < n && pairs == Rows(i, n) + RowPrefix(i, n)
    ensures pairs == Rows(i + 1, n) && |Rows(i + 1, n)| == |pairs|
    ensures PairsWithin(Rows(i + 1, n), n)
  {
    assert RowPrefix(i, n) == RowPairs(i, n);
    RowsWithin(i + 1, n);
  }

  /** Pair `(i, j)` of the uniform generator, stated for the lists before
      and after its draw. */
  lemma RandomNext(ps: seq<string>, i: nat, j: nat, pairs: seq<(nat, nat)>, q: real, draws: Draws,
                   base: seq<Entry>, l: seq<Entry>, l': seq<Entry>)
    requires i < j < |ps| && pairs == Rows(i, |ps|) + RowPrefix(i, j) && PairsWithin(pairs, |ps|)
    requires l == base + Select(ps, pairs, q, draws)
    requires l' == if draws(|pairs|) < q then l + [Pair(ps[i], ps[j])] else l
    ensures pairs + [(i, j)] == Rows(i, |ps|) + RowPrefix(i, j + 1)
    ensures PairsWithin(pairs + [(i, j)], |ps|)
    ensures l' == base + Select(ps, pairs + [(i, j)], q, draws)
  {
    RowPrefixSnoc(i, j);
    ConcatAssoc(Rows(i, |ps|), RowPrefix(i, j), [(i, j)]);
    SelectSnoc(ps, pairs, (i, j), q, draws);
    var s := Select(ps, pairs, q, draws);
    if draws(|pairs|) < q {
      ConcatAssoc(base, s, [Pair(ps[i], ps[j])]);
    } else {
      assert s + [] == s;
    }
  }

  /** A file build whose matrix fill succeeds leaves a consistent object:
      every line has two tokens and there are as many lines as slots. */
  lemma FileValid(f: File, ps: seq<string>, d: Adj, l: seq<Entry>)
    requires BuildError(f).None? && FileState(f.lines, |f.lines|, ps, d)
    requires ps == FileProteins(f) && Ok(l) == ListSpec(f) && MatrixError(ps, l) == None
    requires MatrixError(ps, l) == (if !AllPairs(f.lines, f.header.value) then Some(ValueError)
      else if |f.lines| < f.header.value then Some(TypeError) else None)
    ensures Consistent(ps, d, l) && FileError(f).None?
  {
    assert |f.lines| == f.header.value;
    assert l == Slots(f.lines, |f.lines|);
    forall t | 0 <= t < |l| ensures IsPair(l[t]) && l[t].items[0] in ps && l[t].items[1] in ps {
      MatrixErrorPair(ps, l, t);
    }
  }
}
