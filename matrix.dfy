/** The 0/1 adjacency matrix both the `Interactome` constructor and
    `read_interaction_file_mat` fill from an edge list: a zero n-by-n matrix,
    then for every `x, y` unpacked from the list, ones at
    `[index(x), index(y)]` and `[index(y), index(x)]`. */
module Matrix {
  import opened Common
  import opened Graph

  /** The exception the fill loop raises on entry `e`, if any: a `0`
      placeholder cannot be unpacked (TypeError), a tuple of other than two
      tokens cannot be unpacked into `x, y` (ValueError), and `list.index`
      raises ValueError for a name that is not listed. */
  function EntryError(ps: seq<string>, e: Entry): Option<Error> {
    if e.Zero? then Some(TypeError)
    else if |e.items| != 2 then Some(ValueError)
    else if e.items[0] !in ps || e.items[1] !in ps then Some(ValueError)
    else None
  }

  /** The exception of the first offending entry, in list order. */
  function MatrixError(ps: seq<string>, l: seq<Entry>): Option<Error> {
    if l == [] then None
    else
      var p := MatrixError(ps, l[..|l| - 1]);
      if p.Some? then p else EntryError(ps, l[|l| - 1])
  }

  /** Entry `e` sets cell `(i, j)`. */
  predicate Hits(ps: seq<string>, e: Entry, i: nat, j: nat) {
    && IsPair(e) && e.items[0] in ps && e.items[1] in ps
    && ((IndexOf(ps, e.items[0]) == i && IndexOf(ps, e.items[1]) == j)
        || (IndexOf(ps, e.items[1]) == i && IndexOf(ps, e.items[0]) == j))
  }

  /** Some entry of `l` sets cell `(i, j)`. */
  predicate Linked(ps: seq<string>, l: seq<Entry>, i: nat, j: nat) {
    l != [] && (Linked(ps, l[..|l| - 1], i, j) || Hits(ps, l[|l| - 1], i, j))
  }

  lemma {:induction false} MatrixErrorSticky(ps: seq<string>, l: seq<Entry>, k: nat)
    requires k <= |l| && MatrixError(ps, l[..k]).Some?
    ensures MatrixError(ps, l) == MatrixError(ps, l[..k])
  {
    if k < |l| {
      var p := l[..|l| - 1];
      assert p[..k] == l[..k];
      MatrixErrorSticky(ps, p, k);
    } else {
      assert l[..k] == l;
    }
  }

  lemma MatrixErrorPair(ps: seq<string>, l: seq<Entry>, k: nat)
    requires MatrixError(ps, l) == None && k < |l|
    ensures EntryError(ps, l[k]) == None
  {
    assert l[..k + 1][..k] == l[..k];
    if MatrixError(ps, l[..k + 1]).Some? {
      MatrixErrorSticky(ps, l, k + 1);
    }
  }

  /** Fill the matrix (interactome.py:49-56, project.py:76-83). On success the
      matrix is n-by-n and holds 1 exactly at the cells some entry sets. */
  method FillMatrix(ps: seq<string>, l: seq<Entry>) returns (err: Option<Error>, m: array2<int>)
    ensures fresh(m) && m.Length0 == |ps| && m.Length1 == |ps|
    ensures err == MatrixError(ps, l)
    ensures err.None? ==>
      forall i, j | 0 <= i < |ps| && 0 <= j < |ps| :: m[i, j] == if Linked(ps, l, i, j) then 1 else 0
  {
    var n := |ps|;
    m := new int[n, n]((i, j) => 0);
    var k := 0;
    while k < |l|
      invariant 0 <= k <= |l|
      invariant MatrixError(ps, l[..k]) == None
      invariant forall i, j | 0 <= i < n && 0 <= j < n :: m[i, j] == if Linked(ps, l[..k], i, j) then 1 else 0
    {
      var e := l[k];
      assert l[..k + 1][..k] == l[..k];
      var bad := EntryError(ps, e);
      if bad.Some? {
        MatrixErrorSticky(ps, l, k + 1);
        return bad, m;
      }
      var a := IndexOf(ps, e.items[0]);
      var b := IndexOf(ps, e.items[1]);
      m[a, b] := 1;
      m[b, a] := 1;
      k := k + 1;
    }
    assert l[..k] == l;
    err := None;
  }

  /** The matrix is symmetric. */
  lemma {:induction false} LinkedSymmetric(ps: seq<string>, l: seq<Entry>, i: nat, j: nat)
    ensures Linked(ps, l, i, j) <==> Linked(ps, l, j, i)
  {
    if l != [] {
      LinkedSymmetric(ps, l[..|l| - 1], i, j);
    }
  }

  /** Over a duplicate-free vertex list the matrix agrees with the adjacency
      the edge list induces: cell (i, j) is set exactly when `ps[j]` is a
      neighbour of `ps[i]`. */
  lemma {:induction false} LinkedIsAdjacent(ps: seq<string>, l: seq<Entry>, i: nat, j: nat)
    requires Distinct(ps) && MatrixError(ps, l) == None && i < |ps| && j < |ps|
    ensures Linked(ps, l, i, j) <==> ps[j] in Nbrs(l, ps[i])
  {
    if l != [] {
      var p := l[..|l| - 1];
      var e := l[|l| - 1];
      LinkedIsAdjacent(ps, p, i, j);
      var x, y := e.items[0], e.items[1];
      IndexOfDistinct(ps, i);
      IndexOfDistinct(ps, j);
      assert Hits(ps, e, i, j) <==> ps[j] in Contrib(e, ps[i]);
    }
  }
}
