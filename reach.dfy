/** Reachability over the adjacency dictionary, and the facts the
    connected-component functions rely on: reachability is an equivalence on
    a symmetric adjacency, a set closed under adjacency holds everything
    reachable from it, and a component labelling numbered in order of first
    appearance is unique. */
module Reach {
  import opened Common

  type Adj = map<string, set<string>>

  /** Every neighbour of a vertex is a vertex that has it as a neighbour. */
  predicate Symmetric(adj: Adj) {
    forall u, v | u in adj && v in adj[u] :: v in adj && u in adj[v]
  }

  /** A walk along the adjacency through vertices of the dictionary. */
  ghost predicate IsPath(adj: Adj, path: seq<string>) {
    && |path| >= 1
    && (forall k | 0 <= k < |path| :: path[k] in adj)
    && (forall k | 0 <= k < |path| - 1 :: path[k + 1] in adj[path[k]])
  }

  ghost predicate Reachable(adj: Adj, a: string, b: string) {
    exists path :: IsPath(adj, path) && path[0] == a && path[|path| - 1] == b
  }

  lemma ReachRefl(adj: Adj, a: string)
    requires a in adj
    ensures Reachable(adj, a, a)
  {
    assert IsPath(adj, [a]);
  }

  /** Reachability extends along one adjacency. */
  lemma ReachStep(adj: Adj, a: string, b: string, c: string)
    requires Reachable(adj, a, b) && b in adj && c in adj[b] && c in adj
    ensures Reachable(adj, a, c)
  {
    var p :| IsPath(adj, p) && p[0] == a && p[|p| - 1] == b;
    var q := p + [c];
    assert q[|p| - 1] == b;
    assert IsPath(adj, q);
  }

  lemma ReachSymmetric(adj: Adj, a: string, b: string)
    requires Symmetric(adj) && Reachable(adj, a, b)
    ensures Reachable(adj, b, a)
  {
    var p :| IsPath(adj, p) && p[0] == a && p[|p| - 1] == b;
    var n := |p|;
    var q := seq(n, k requires 0 <= k < n => p[n - 1 - k]);
    forall k | 0 <= k < n - 1 ensures q[k + 1] in adj[q[k]] {
      assert p[n - 1 - k] in adj[p[n - 2 - k]];
    }
    assert IsPath(adj, q);
  }

  lemma ReachTransitive(adj: Adj, a: string, b: string, c: string)
    requires Reachable(adj, a, b) && Reachable(adj, b, c)
    ensures Reachable(adj, a, c)
  {
    var p :| IsPath(adj, p) && p[0] == a && p[|p| - 1] == b;
    var q :| IsPath(adj, q) && q[0] == b && q[|q| - 1] == c;
    var r := p + q[1..];
    forall k | 0 <= k < |r| - 1 ensures r[k + 1] in adj[r[k]] {
      if k >= |p| - 1 {
        assert r[k] == q[k - |p| + 1] && r[k + 1] == q[k - |p| + 2];
      }
    }
    assert IsPath(adj, r);
  }

  /** A vertex set that contains the neighbours of each of its members. */
  ghost predicate Closed(adj: Adj, s: set<string>) {
    forall x | x in s :: x in adj && adj[x] <= s
  }

  lemma {:induction false} PathInside(adj: Adj, s: set<string>, p: seq<string>, k: nat)
    requires Closed(adj, s) && IsPath(adj, p) && p[0] in s && k < |p|
    ensures p[k] in s
  {
    if k > 0 {
      PathInside(adj, s, p, k - 1);
    }
  }

  /** Whatever is reachable from a member of a closed set is in the set. */
  lemma ClosedReach(adj: Adj, s: set<string>, a: string, b: string)
    requires Closed(adj, s) && a in s && Reachable(adj, a, b)
    ensures b in s
  {
    var p :| IsPath(adj, p) && p[0] == a && p[|p| - 1] == b;
    PathInside(adj, s, p, |p| - 1);
  }

  /** The largest element, 0 for the empty sequence (`max` over ids >= 1). */
  function Max(s: seq<int>): (m: int)
    ensures forall i | 0 <= i < |s| :: s[i] <= m
    ensures s != [] ==> m in s
  {
    if s == [] then 0
    else
      var m := Max(s[..|s| - 1]);
      assert s == s[..|s| - 1] + [s[|s| - 1]];
      if |s| == 1 || s[|s| - 1] > m then s[|s| - 1] else m
  }

  /** Ids start at 1 and each new id is one more than an id already used:
      ids are handed out in order of first appearance. */
  ghost predicate Numbered(lcc: seq<int>) {
    && (forall i | 0 <= i < |lcc| :: lcc[i] >= 1)
    && (forall i {:trigger lcc[..i]} | 0 <= i < |lcc| :: lcc[i] > 1 ==> lcc[i] - 1 in lcc[..i])
  }

  /** The result of `compute_CC`: one id per protein, numbered in order of first
      appearance, with equal ids exactly for mutually reachable proteins. */
  ghost predicate IsLabelling(adj: Adj, ps: seq<string>, lcc: seq<int>) {
    && |lcc| == |ps|
    && Numbered(lcc)
    && (forall i, j | 0 <= i < |lcc| && 0 <= j < |lcc| :: lcc[i] == lcc[j] <==> Reachable(adj, ps[i], ps[j]))
  }

  lemma NumberedPrefix(s: seq<int>, n: nat)
    requires Numbered(s) && n <= |s|
    ensures Numbered(s[..n])
  {
    forall i | 0 <= i < n ensures s[..n][..i] == s[..i] { }
  }

  lemma MaxSnoc(p: seq<int>, x: int)
    ensures Max(p + [x]) == if p == [] || x > Max(p) then x else Max(p)
  {
    assert (p + [x])[..|p|] == p;
  }

  /** The ids of a numbered sequence are exactly 1..max. */
  lemma {:induction false} Contiguous(s: seq<int>)
    requires Numbered(s)
    ensures forall c :: c in s <==> 1 <= c <= Max(s)
  {
    if s != [] {
      var p := s[..|s| - 1];
      var x := s[|s| - 1];
      NumberedPrefix(s, |s| - 1);
      Contiguous(p);
      LastId(s);
      ContiguousSnoc(p, x);
      assert s == p + [x];
    }
  }

  lemma LastId(s: seq<int>)
    requires Numbered(s) && s != []
    ensures 1 <= s[|s| - 1] && (s[|s| - 1] > 1 ==> s[|s| - 1] - 1 in s[..|s| - 1])
  {
  }

  lemma ContiguousSnoc(p: seq<int>, x: int)
    requires forall c :: c in p <==> 1 <= c <= Max(p)
    requires 1 <= x && (x > 1 ==> x - 1 in p)
    ensures forall c :: c in p + [x] <==> 1 <= c <= Max(p + [x])
  {
    MaxSnoc(p, x);
    assert p == [] ==> x == 1;
  }

  /** An id met for the first time is one more than every id before it. */
  lemma NewId(s: seq<int>, n: nat)
    requires Numbered(s) && n < |s| && s[n] !in s[..n]
    ensures s[n] == Max(s[..n]) + 1
  {
    NumberedPrefix(s, n);
    Contiguous(s[..n]);
  }

  /** There is only one labelling: `compute_CC` returns the same list whatever
      order its traversal visits neighbours in. */
  lemma LabellingUnique(adj: Adj, ps: seq<string>, l1: seq<int>, l2: seq<int>)
    requires IsLabelling(adj, ps, l1) && IsLabelling(adj, ps, l2)
    ensures l1 == l2
  {
    forall j, m | 0 <= j < |ps| && 0 <= m < |ps| ensures l1[j] == l1[m] <==> l2[j] == l2[m] {
      if l1[j] == l1[m] { SameIdTransfer(adj, ps, l1, l2, j, m); }
      if l2[j] == l2[m] { SameIdTransfer(adj, ps, l2, l1, j, m); }
    }
    PrefixesAgree(l1, l2, |ps|);
    assert l1 == l1[..|ps|] && l2 == l2[..|ps|];
  }

  /** Two numbered sequences that group positions alike agree on every prefix. */
  lemma {:induction false} PrefixesAgree(l1: seq<int>, l2: seq<int>, n: nat)
    requires Numbered(l1) && Numbered(l2) && |l1| == |l2| && n <= |l1|
    requires forall j, m | 0 <= j < |l1| && 0 <= m < |l1| :: l1[j] == l1[m] <==> l2[j] == l2[m]
    ensures l1[..n] == l2[..n]
  {
    if n > 0 {
      var m := n - 1;
      PrefixesAgree(l1, l2, m);
      NextAgrees(l1, l2, m);
      assert l1[..n] == l1[..m] + [l1[m]];
      assert l2[..n] == l2[..m] + [l2[m]];
    }
  }

  lemma NextAgrees(l1: seq<int>, l2: seq<int>, m: nat)
    requires Numbered(l1) && Numbered(l2) && |l1| == |l2| && m < |l1|
    requires forall j, k | 0 <= j < |l1| && 0 <= k < |l1| :: l1[j] == l1[k] <==> l2[j] == l2[k]
    requires l1[..m] == l2[..m]
    ensures l1[m] == l2[m]
  {
    if l1[m] in l1[..m] {
      var j :| 0 <= j < m && l1[..m][j] == l1[m];
      assert l2[j] == l2[m];
      assert l2[..m][j] == l1[..m][j];
    } else {
      forall j | 0 <= j < m ensures l2[..m][j] != l2[m] {
        assert l1[..m][j] == l1[j] != l1[m];
      }
      NewId(l1, m);
      NewId(l2, m);
    }
  }

  lemma SameIdTransfer(adj: Adj, ps: seq<string>, l1: seq<int>, l2: seq<int>, j: nat, m: nat)
    requires IsLabelling(adj, ps, l1) && IsLabelling(adj, ps, l2)
    requires j < |ps| && m < |ps| && l1[j] == l1[m]
    ensures l2[j] == l2[m]
  {
    assert Reachable(adj, ps[j], ps[m]);
  }

  /** Number of positions holding `c`. */
  function Count(s: seq<int>, c: int): nat {
    if s == [] then 0 else Count(s[..|s| - 1], c) + (if s[|s| - 1] == c then 1 else 0)
  }

  lemma {:induction false} CountPositive(s: seq<int>, c: int)
    requires c in s
    ensures Count(s, c) >= 1
  {
    var p := s[..|s| - 1];
    if s[|s| - 1] != c {
      assert s == p + [s[|s| - 1]];
      CountPositive(p, c);
    }
  }

  /** The sizes list of `count_CC`: entry c-1 counts the positions holding id c. */
  function Histogram(s: seq<int>, m: nat): (h: seq<nat>)
    ensures |h| == m
    ensures forall c | 0 <= c < m :: h[c] == Count(s, c + 1)
  {
    if m == 0 then [] else Histogram(s, m - 1) + [Count(s, m)]
  }

  function Sum(h: seq<nat>): nat {
    if h == [] then 0 else Sum(h[..|h| - 1]) + h[|h| - 1]
  }

  lemma {:induction false} HistogramSnoc(p: seq<int>, x: int, m: nat)
    ensures Sum(Histogram(p + [x], m)) == Sum(Histogram(p, m)) + (if 1 <= x <= m then 1 else 0)
  {
    assert (p + [x])[..|p|] == p;
    if m > 0 {
      HistogramSnoc(p, x, m - 1);
      assert Histogram(p + [x], m)[..m - 1] == Histogram(p + [x], m - 1);
      assert Histogram(p, m)[..m - 1] == Histogram(p, m - 1);
    }
  }

  lemma {:induction false} HistogramEmpty(m: nat)
    ensures Sum(Histogram([], m)) == 0
  {
    if m > 0 {
      HistogramEmpty(m - 1);
      assert Histogram([], m)[..m - 1] == Histogram([], m - 1);
    }
  }

  /** When every id lies in 1..m, the sizes add up to the number of proteins. */
  lemma {:induction false} HistogramSum(s: seq<int>, m: nat)
    requires forall i | 0 <= i < |s| :: 1 <= s[i] <= m
    ensures Sum(Histogram(s, m)) == |s|
  {
    if s == [] {
      HistogramEmpty(m);
    } else {
      var p := s[..|s| - 1];
      assert s == p + [s[|s| - 1]];
      HistogramSum(p, m);
      HistogramSnoc(p, s[|s| - 1], m);
    }
  }

  /** For a numbered sequence every one of the Max ids is used at least once. */
  lemma HistogramPositive(s: seq<int>)
    requires Numbered(s)
    ensures Max(s) >= 0
    ensures forall c | 0 <= c < Max(s) :: Histogram(s, Max(s))[c] >= 1
  {
    MaxOfNumbered(s);
    var h := Histogram(s, Max(s));
    forall c | 0 <= c < Max(s) ensures h[c] >= 1 {
      Contiguous(s);
      CountPositive(s, c + 1);
    }
  }

  lemma MaxOfNumbered(s: seq<int>)
    requires Numbered(s)
    ensures Max(s) >= 0 && forall i | 0 <= i < |s| :: 1 <= s[i] <= Max(s)
  {
    if s != [] { assert s[0] >= 1; }
  }
}
