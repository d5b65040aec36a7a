/** Edge lists (`int_list`) and the adjacency they induce: neighbour sets,
    symmetry, the degree-sum identity for simple edge lists, and the
    neighbour-pair count behind the clustering coefficient. */
module Graph {
  import opened Common

  /** An element of `int_list`: the `0` placeholder of `[0] * N`, or the tuple
      of tokens of one line (or of one generated pair). */
  datatype Entry = Zero | Tuple(items: seq<string>)

  /** A 2-tuple, the only entry `for x, y in int_list` can unpack. */
  predicate IsPair(e: Entry) {
    e.Tuple? && |e.items| == 2
  }

  function Pair(u: string, v: string): (e: Entry)
    ensures IsPair(e)
  {
    Tuple([u, v])
  }

  /** What one entry adds to the neighbour set of `u`: the builders read only
      the first two tokens and add each endpoint to the other's set. */
  function Contrib(e: Entry, u: string): set<string> {
    if e.Tuple? && |e.items| >= 2 then
      (if e.items[0] == u then {e.items[1]} else {}) + (if e.items[1] == u then {e.items[0]} else {})
    else {}
  }

  /** The neighbours of `u` according to an edge list. */
  function Nbrs(l: seq<Entry>, u: string): set<string> {
    if l == [] then {} else Nbrs(l[..|l| - 1], u) + Contrib(l[|l| - 1], u)
  }

  lemma NbrsSnoc(l: seq<Entry>, e: Entry, u: string)
    ensures Nbrs(l + [e], u) == Nbrs(l, u) + Contrib(e, u)
  {
    assert (l + [e])[..|l|] == l;
  }

  /** The adjacency an edge list induces is symmetric. */
  lemma {:induction false} NbrsSymmetric(l: seq<Entry>, u: string, v: string)
    ensures v in Nbrs(l, u) <==> u in Nbrs(l, v)
  {
    if l != [] {
      NbrsSymmetric(l[..|l| - 1], u, v);
    }
  }

  /** A neighbour is always contributed by some entry of the list. */
  lemma {:induction false} NbrsWitness(l: seq<Entry>, u: string, v: string)
    requires v in Nbrs(l, u)
    ensures exists k :: 0 <= k < |l| && v in Contrib(l[k], u)
  {
    var p := l[..|l| - 1];
    if v !in Contrib(l[|l| - 1], u) {
      NbrsWitness(p, u, v);
      var k :| 0 <= k < |p| && v in Contrib(p[k], u);
      assert l[k] == p[k];
    }
  }

  /** Each entry adds at most one neighbour to a given vertex. */
  lemma {:induction false} NbrsSize(l: seq<Entry>, u: string)
    ensures |Nbrs(l, u)| <= |l|
  {
    if l != [] {
      var p := l[..|l| - 1];
      NbrsSize(p, u);
      var c := Contrib(l[|l| - 1], u);
      assert |c| <= 1 by {
        var e := l[|l| - 1];
        if e.Tuple? && |e.items| >= 2 && e.items[0] == u && e.items[1] == u {
          assert c == {u};
        }
      }
    }
  }

  /** The endpoints of the entries, two per entry that has at least two
      tokens, in list order: the order in which `build_from_file` meets them. */
  function Endpoints(l: seq<Entry>): seq<string> {
    if l == [] then []
    else
      var e := l[|l| - 1];
      Endpoints(l[..|l| - 1]) + (if e.Tuple? && |e.items| >= 2 then [e.items[0], e.items[1]] else [])
  }

  /** Both ends of every adjacency are endpoints of the edge list. */
  lemma {:induction false} NbrsInEndpoints(l: seq<Entry>, u: string, v: string)
    requires v in Nbrs(l, u)
    ensures u in Endpoints(l) && v in Endpoints(l)
  {
    var p := l[..|l| - 1];
    if v !in Contrib(l[|l| - 1], u) {
      NbrsInEndpoints(p, u, v);
    }
  }

  /** Two entries name the same unordered interaction. */
  predicate SameEdge(a: Entry, b: Entry)
    requires IsPair(a) && IsPair(b)
  {
    (a.items[0] == b.items[0] && a.items[1] == b.items[1])
    || (a.items[0] == b.items[1] && a.items[1] == b.items[0])
  }

  /** A simple edge list: 2-tuples only, no self-pair, and no interaction
      listed twice in either orientation. */
  predicate Simple(l: seq<Entry>) {
    && (forall i | 0 <= i < |l| :: IsPair(l[i]) && l[i].items[0] != l[i].items[1])
    && (forall i, j | 0 <= i < j < |l| :: !SameEdge(l[i], l[j]))
  }

  /** The sum of the degrees of the vertices listed in `ks`. */
  function SumDeg(ks: seq<string>, l: seq<Entry>): nat {
    if ks == [] then 0 else |Nbrs(l, ks[0])| + SumDeg(ks[1..], l)
  }

  lemma {:induction false} SumDegSnoc(ks: seq<string>, l: seq<Entry>, a: string, b: string)
    requires Distinct(ks) && a != b
    requires b !in Nbrs(l, a) && a !in Nbrs(l, b)
    ensures SumDeg(ks, l + [Pair(a, b)]) == SumDeg(ks, l) + (if a in ks then 1 else 0) + (if b in ks then 1 else 0)
  {
    if ks != [] {
      DegSnoc(l, a, b, ks[0]);
      SumDegSnoc(ks[1..], l, a, b);
      assert a in ks <==> a == ks[0] || a in ks[1..];
      assert b in ks <==> b == ks[0] || b in ks[1..];
    }
  }

  /** A new edge `(a, b)` raises the degrees of `a` and `b` by one and no
      other. */
  lemma DegSnoc(l: seq<Entry>, a: string, b: string, u: string)
    requires a != b && b !in Nbrs(l, a) && a !in Nbrs(l, b)
    ensures |Nbrs(l + [Pair(a, b)], u)| == |Nbrs(l, u)| + (if u == a then 1 else 0) + (if u == b then 1 else 0)
  {
    NbrsSnoc(l, Pair(a, b), u);
    if u == a {
      assert Contrib(Pair(a, b), u) == {b};
    } else if u == b {
      assert Contrib(Pair(a, b), u) == {a};
    } else {
      assert Contrib(Pair(a, b), u) == {};
    }
  }

  /** The degree-sum identity: over a duplicate-free vertex list holding every
      endpoint, the degrees of a simple edge list add up to twice its length. */
  lemma {:induction false} DegreeSum(ks: seq<string>, l: seq<Entry>)
    requires Distinct(ks) && Simple(l)
    requires forall x | x in Endpoints(l) :: x in ks
    ensures SumDeg(ks, l) == 2 * |l|
  {
    if l == [] {
      SumDegEmpty(ks);
    } else {
      var p := l[..|l| - 1];
      var e := l[|l| - 1];
      var a, b := e.items[0], e.items[1];
      assert e == Pair(a, b);
      assert l == p + [e];
      assert Simple(p);
      assert forall x | x in Endpoints(p) :: x in Endpoints(l);
      DegreeSum(ks, p);
      if b in Nbrs(p, a) {
        NbrsWitness(p, a, b);
        var k :| 0 <= k < |p| && b in Contrib(p[k], a);
        assert SameEdge(l[k], l[|l| - 1]);
      }
      NbrsSymmetric(p, a, b);
      SumDegSnoc(ks, p, a, b);
    }
  }

  /** One listed vertex's degree is at most the sum over the list. */
  lemma {:induction false} SumDegAtLeast(ks: seq<string>, l: seq<Entry>, u: string)
    requires u in ks
    ensures |Nbrs(l, u)| <= SumDeg(ks, l)
  {
    if ks[0] != u {
      SumDegAtLeast(ks[1..], l, u);
    }
  }

  /** When every entry is a pair of names from `s`, so is every endpoint. */
  lemma {:induction false} EndpointsWithin(l: seq<Entry>, s: seq<string>)
    requires forall t | 0 <= t < |l| :: IsPair(l[t]) && l[t].items[0] in s && l[t].items[1] in s
    ensures forall x | x in Endpoints(l) :: x in s
  {
    if l != [] {
      EndpointsWithin(l[..|l| - 1], s);
    }
  }

  lemma {:induction false} SumDegEmpty(ks: seq<string>)
    ensures SumDeg(ks, []) == 0
  {
    if ks != [] {
      SumDegEmpty(ks[1..]);
    }
  }

  /** The ordered pairs `(n, nn)` with `n` in `d`, `nn` a neighbour of `n` and
      `nn` in `nb`: the double loop of `clustering` counts these. */
  function NbrPairs(adj: map<string, set<string>>, d: set<string>, nb: set<string>): set<(string, string)> {
    set n, nn | n in d && n in adj && nn in adj[n] && nn in nb :: (n, nn)
  }

  /** All ordered pairs of distinct elements of `s`. */
  function OffDiagonal(s: set<string>): set<(string, string)> {
    set a, b | a in s && b in s && a != b :: (a, b)
  }

  function Row(x: string, s: set<string>): set<(string, string)> {
    set b | b in s :: (x, b)
  }

  function Column(x: string, s: set<string>): set<(string, string)> {
    set a | a in s :: (a, x)
  }

  lemma {:induction false} RowCard(x: string, s: set<string>)
    ensures |Row(x, s)| == |s| && |Column(x, s)| == |s|
    decreases |s|
  {
    if s != {} {
      var y :| y in s;
      RowCard(x, s - {y});
      assert Row(x, s) == Row(x, s - {y}) + {(x, y)};
      assert Column(x, s) == Column(x, s - {y}) + {(y, x)};
    }
  }

  lemma OffDiagonalSplit(s: set<string>, x: string)
    requires x in s
    ensures OffDiagonal(s) == OffDiagonal(s - {x}) + Row(x, s - {x}) + Column(x, s - {x})
  {
    var t := s - {x};
    forall p | p in OffDiagonal(s)
      ensures p in OffDiagonal(t) + Row(x, t) + Column(x, t)
    {
      if p.0 == x { assert p in Row(x, t); }
      else if p.1 == x { assert p in Column(x, t); }
      else { assert p in OffDiagonal(t); }
    }
  }

  /** A set of k elements has k(k-1) ordered pairs of distinct elements. */
  lemma {:induction false} OffDiagonalCard(s: set<string>)
    ensures |OffDiagonal(s)| == |s| * (|s| - 1)
    decreases |s|
  {
    if s != {} {
      var x :| x in s;
      var t := s - {x};
      OffDiagonalCard(t);
      RowCard(x, t);
      OffDiagonalSplit(s, x);
      OffDiagonalParts(t, x);
      DisjointCard(OffDiagonal(t), Row(x, t), Column(x, t));
      PairCountStep(|t|, |s|);
    }
  }

  /** The pairs without `x`, those leaving `x` and those entering it do not
      overlap. */
  lemma OffDiagonalParts(t: set<string>, x: string)
    requires x !in t
    ensures OffDiagonal(t) !! Row(x, t) && (OffDiagonal(t) + Row(x, t)) !! Column(x, t)
  {
    var a, b, c := OffDiagonal(t), Row(x, t), Column(x, t);
    forall p | p in b ensures p !in a { assert p.0 == x; }
    forall p | p in c ensures p !in a + b { assert p.1 == x && p.0 != x; }
  }

  lemma DisjointCard<T>(a: set<T>, b: set<T>, c: set<T>)
    requires a !! b && (a + b) !! c
    ensures |a + b + c| == |a| + |b| + |c|
  {
  }

  lemma PairCountStep(k: int, m: int)
    requires m == k + 1
    ensures k * (k - 1) + k + k == m * (m - 1)
  {
  }

  /** When no vertex of `nb` is its own neighbour, the pair count of `clustering`
      is at most k(k-1), so the coefficient lies in [0, 1]. */
  lemma NbrPairsBound(adj: map<string, set<string>>, nb: set<string>)
    requires forall n | n in nb && n in adj :: n !in adj[n]
    ensures |NbrPairs(adj, nb, nb)| <= |nb| * (|nb| - 1)
  {
    forall p | p in NbrPairs(adj, nb, nb) ensures p in OffDiagonal(nb) {
      assert p.1 in adj[p.0];
    }
    SubsetCard(NbrPairs(adj, nb, nb), OffDiagonal(nb));
    OffDiagonalCard(nb);
  }
}
