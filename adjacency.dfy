/** The adjacency dictionary `int_dict` of the `Interactome` class, kept in
    step with the edge list `int_list`: every builder records an interaction
    `(a, b)` by `int_dict[a].add(b)` and `int_dict[b].add(a)`. */
module Adjacency {
  import opened Common
  import opened Graph
  import opened Reach

  /** `d[k].add(v)`, or `d[k] = {v}` when `k` is not a key yet. */
  function Link(d: Adj, k: string, v: string): Adj {
    d[k := (if k in d then d[k] else {}) + {v}]
  }

  /** Recording the interaction `(a, b)` in both directions. */
  function AddEdge(d: Adj, a: string, b: string): Adj {
    Link(Link(d, a, b), b, a)
  }

  /** The dictionary maps each key to its neighbours in `l`, and every
      endpoint of `l` is a key. */
  predicate AdjOf(d: Adj, l: seq<Entry>) {
    && (forall u | u in d :: d[u] == Nbrs(l, u))
    && (forall x | x in Endpoints(l) :: x in d)
  }

  /** `dict([(prot, set()) for prot in proteins])`. */
  function EmptyAdj(ps: seq<string>): Adj {
    map p | p in ps :: {}
  }

  /** One empty set per protein is in step with the empty list. */
  lemma AdjEmpty(ps: seq<string>)
    ensures AdjOf(EmptyAdj(ps), []) && EmptyAdj(ps).Keys == Elems(ps)
  {
  }

  lemma EndpointsSnoc(l: seq<Entry>, e: Entry)
    requires e.Tuple? && |e.items| >= 2
    ensures Endpoints(l + [e]) == Endpoints(l) + [e.items[0], e.items[1]]
  {
    assert (l + [e])[..|l|] == l;
  }

  /** Recording the first two tokens of an entry in both directions keeps the
      dictionary in step with the list extended by that entry, and adds just
      those two names as keys. */
  lemma AdjSnoc(d: Adj, l: seq<Entry>, e: Entry)
    requires AdjOf(d, l) && e.Tuple? && |e.items| >= 2
    ensures AdjOf(AddEdge(d, e.items[0], e.items[1]), l + [e])
    ensures AddEdge(d, e.items[0], e.items[1]).Keys == d.Keys + {e.items[0], e.items[1]}
  {
    var a, b := e.items[0], e.items[1];
    var d2 := AddEdge(d, a, b);
    EndpointsSnoc(l, e);
    forall u | u in d2 ensures d2[u] == Nbrs(l + [e], u) {
      NbrsSnoc(l, e, u);
      if u !in d && Nbrs(l, u) != {} {
        var v :| v in Nbrs(l, u);
        NbrsInEndpoints(l, u, v);
      }
    }
  }

  /** A dictionary in step with an edge list is symmetric: `v` is a
      neighbour of `u` exactly when `u` is one of `v`. */
  lemma AdjSymmetric(d: Adj, l: seq<Entry>)
    requires AdjOf(d, l)
    ensures Symmetric(d)
  {
    forall u, v | u in d && v in d[u] ensures v in d && u in d[v] {
      NbrsInEndpoints(l, u, v);
      NbrsSymmetric(l, u, v);
    }
  }
}
