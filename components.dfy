/** The connected-component queries of the `Interactome` class: the state of
    the breadth-first traversal of `extract_CC`, the partial labelling
    `compute_CC` stamps component by component, and the sizes and member lines
    of `count_CC` and `write_CC`. */
module Components {
  import opened Common
  import opened Reach

  // ---- extract_CC ----

  /** The traversal state of `extract_CC(p)`: `visited + queue` starts with
      `p`, lists reachable keys once each, and holds every neighbour of every
      visited protein. */
  ghost predicate Frontier(adj: Adj, p: string, visited: seq<string>, queue: seq<string>) {
    var s := visited + queue;
    && s != [] && s[0] == p
    && Distinct(s)
    && (forall x | x in s :: x in adj && Reachable(adj, p, x))
    && (forall x | x in visited :: adj[x] <= Elems(s))
  }

  /** The inner loop of `extract_CC` on the head `x` of the queue: names are
      only appended, each one a neighbour of `x` met for the first time, and
      afterwards every neighbour of `x` is visited or queued. */
  predicate Expanded(adj: Adj, x: string, visited: seq<string>, queue: seq<string>, queue': seq<string>)
    requires x in adj
  {
    && |queue'| >= |queue| && queue'[..|queue|] == queue
    && Distinct(visited + queue')
    && (forall y | y in queue'[|queue|..] :: y in adj[x])
    && adj[x] <= Elems(visited + queue')
  }

  lemma FrontierStart(adj: Adj, p: string)
    requires p in adj
    ensures Frontier(adj, p, [], [p])
  {
    ReachRefl(adj, p);
  }

  /** Expanding the head of the queue and moving it to `visited` keeps the
      traversal state. */
  lemma FrontierStep(adj: Adj, p: string, visited: seq<string>, queue: seq<string>, queue': seq<string>)
    requires Symmetric(adj) && Frontier(adj, p, visited, queue) && queue != []
    requires queue[0] in adj && Expanded(adj, queue[0], visited, queue, queue')
    ensures Frontier(adj, p, visited + [queue[0]], queue'[1..])
  {
    var x := queue[0];
    var s, s' := visited + queue, visited + queue';
    assert (visited + [x]) + queue'[1..] == s';
    assert s'[..|s|] == s;
    assert Elems(s) <= Elems(s') by {
      forall y | y in Elems(s) ensures y in Elems(s') {
        var k :| 0 <= k < |s| && s[k] == y;
        assert s'[k] == y;
      }
    }
    forall y | y in s' ensures y in adj && Reachable(adj, p, y) {
      var k :| 0 <= k < |s'| && s'[k] == y;
      if k >= |s| {
        assert y == queue'[k - |visited|];
        assert y in queue'[|queue|..];
        assert y in adj[x];
        assert x in s;
        ReachStep(adj, p, x, y);
      } else {
        assert y in s;
      }
    }
  }

  /** The state of the inner loop of `extract_CC` with the neighbours in
      `rest` still to be looked at. */
  ghost predicate Expanding(adj: Adj, x: string, visited: seq<string>, queue: seq<string>,
                            queue': seq<string>, rest: set<string>) {
    && x in adj && rest <= adj[x]
    && |queue'| >= |queue| && queue'[..|queue|] == queue
    && Distinct(visited + queue')
    && (forall y | y in queue'[|queue|..] :: y in adj[x])
    && adj[x] - rest <= Elems(visited + queue')
  }

  lemma ExpandingStart(adj: Adj, x: string, visited: seq<string>, queue: seq<string>)
    requires x in adj && Distinct(visited + queue)
    ensures Expanding(adj, x, visited, queue, queue, adj[x])
  {
  }

  /** Looking at one more neighbour `y`: it is appended when it is neither
      queued nor visited. */
  lemma ExpandingStep(adj: Adj, x: string, visited: seq<string>, queue: seq<string>,
                      queue': seq<string>, rest: set<string>, y: string)
    requires Expanding(adj, x, visited, queue, queue', rest) && y in rest
    ensures Expanding(adj, x, visited, queue,
                      if y !in queue' && y !in visited then queue' + [y] else queue', rest - {y})
  {
    var s := visited + queue';
    if y !in queue' && y !in visited {
      var q := queue' + [y];
      assert visited + q == s + [y];
      assert q[..|queue|] == queue'[..|queue|];
      assert q[|queue|..] == queue'[|queue|..] + [y];
      forall z | z in Elems(s) ensures z in Elems(s + [y]) {
        var k :| 0 <= k < |s| && s[k] == z;
        assert (s + [y])[k] == z;
      }
      assert (s + [y])[|s|] == y;
    } else {
      assert y in s;
    }
  }

  lemma ExpandingDone(adj: Adj, x: string, visited: seq<string>, queue: seq<string>, queue': seq<string>)
    requires Expanding(adj, x, visited, queue, queue', {})
    ensures Expanded(adj, x, visited, queue, queue')
  {
  }

  /** What `extract_CC(p)` returns: `p` first, then, once each, every
      other key reachable from it and nothing else. */
  ghost predicate IsComponent(adj: Adj, p: string, v: seq<string>) {
    && v != [] && v[0] == p && Distinct(v)
    && (forall x | x in v :: x in adj)
    && (forall x :: x in v <==> Reachable(adj, p, x))
  }

  lemma ComponentWithin(adj: Adj, ps: seq<string>, p: string, v: seq<string>)
    requires adj.Keys == Elems(ps) && IsComponent(adj, p, v)
    ensures forall x | x in v :: x in ps
  {
  }

  /** A finished traversal has visited exactly what is reachable from `p`. */
  lemma FrontierDone(adj: Adj, p: string, visited: seq<string>)
    requires Frontier(adj, p, visited, [])
    ensures forall x :: x in visited <==> Reachable(adj, p, x)
  {
    assert visited + [] == visited;
    assert Closed(adj, Elems(visited));
    forall x | Reachable(adj, p, x) ensures x in visited {
      ClosedReach(adj, Elems(visited), p, x);
    }
  }

  /** The number of visited names is bounded by the number of keys: the
      traversal terminates. */
  lemma FrontierBound(adj: Adj, p: string, visited: seq<string>, queue: seq<string>)
    requires Frontier(adj, p, visited, queue)
    ensures |visited + queue| <= |adj|
  {
    var s := visited + queue;
    DistinctCard(s);
    assert Elems(s) <= adj.Keys;
    SubsetCard(Elems(s), adj.Keys);
  }

  // ---- compute_CC ----

  /** The labels after the first `i` proteins with next id `c`: every
      examined protein is labelled, labels are -1 or ids below `c`, a
      labelled protein shares its id exactly with what it reaches, every id
      used first appears among the examined proteins, and an id above 1 has
      its predecessor earlier in the list. */
  ghost predicate Partial(adj: Adj, ps: seq<string>, lcc: seq<int>, i: nat, c: int) {
    && |lcc| == |ps| && i <= |ps| && c >= 1
    && Examined(lcc, i) && InRange(lcc, c) && Classes(adj, ps, lcc)
    && IdsSeen(lcc, i, c) && IdsOrdered(lcc)
  }

  predicate Examined(lcc: seq<int>, i: nat)
    requires i <= |lcc|
  {
    forall j | 0 <= j < i :: lcc[j] != -1
  }

  predicate InRange(lcc: seq<int>, c: int) {
    forall j | 0 <= j < |lcc| :: lcc[j] == -1 || 1 <= lcc[j] < c
  }

  ghost predicate Classes(adj: Adj, ps: seq<string>, lcc: seq<int>)
    requires |lcc| == |ps|
  {
    forall j, k | 0 <= j < |ps| && 0 <= k < |ps| && lcc[j] != -1 ::
      lcc[k] == lcc[j] <==> Reachable(adj, ps[j], ps[k])
  }

  predicate IdsSeen(lcc: seq<int>, i: nat, c: int)
    requires i <= |lcc|
  {
    forall e | 1 <= e < c :: Seen(lcc, i, e)
  }

  predicate IdsOrdered(lcc: seq<int>) {
    forall j | 0 <= j < |lcc| && lcc[j] > 1 :: Seen(lcc, j, lcc[j] - 1)
  }

  /** Id `e` is among the first `i` labels. */
  predicate Seen(lcc: seq<int>, i: nat, e: int)
    requires i <= |lcc|
  {
    e in lcc[..i]
  }

  lemma PartialStart(adj: Adj, ps: seq<string>)
    ensures Partial(adj, ps, seq(|ps|, _ => -1), 0, 1)
  {
  }

  /** A protein labelled earlier is skipped. */
  lemma PartialSkip(adj: Adj, ps: seq<string>, lcc: seq<int>, i: nat, c: int)
    requires Partial(adj, ps, lcc, i, c) && i < |ps| && lcc[i] != -1
    ensures Partial(adj, ps, lcc, i + 1, c)
  {
    var i' := i + 1;
    forall e | 1 <= e < c ensures Seen(lcc, i', e) {
      assert IdsSeen(lcc, i, c);
      assert Seen(lcc, i, e);
      var k :| 0 <= k < i && lcc[..i][k] == e;
      assert lcc[..i + 1][k] == e;
    }
  }

  /** The positions the next id goes to: those reachable from `ps[i]`. */
  ghost predicate StampedAt(adj: Adj, ps: seq<string>, lcc: seq<int>, lcc': seq<int>, i: nat, c: int)
    requires i < |ps|
  {
    && |lcc'| == |lcc| == |ps|
    && forall j | 0 <= j < |ps| :: lcc'[j] == if Reachable(adj, ps[i], ps[j]) then c else lcc[j]
  }

  /** The stamped positions were unlabelled and lie at `i` or later. */
  lemma StampedFresh(adj: Adj, ps: seq<string>, lcc: seq<int>, i: nat, c: int, j: nat)
    requires Symmetric(adj) && Partial(adj, ps, lcc, i, c) && i < |ps| && lcc[i] == -1
    requires j < |ps| && Reachable(adj, ps[i], ps[j])
    ensures lcc[j] == -1 && j >= i
  {
    ReachSymmetric(adj, ps[i], ps[j]);
  }

  /** Stamping leaves the examined prefix alone and labels `ps[i]`. */
  lemma StampedPrefix(adj: Adj, ps: seq<string>, lcc: seq<int>, lcc': seq<int>, i: nat, c: int)
    requires Symmetric(adj) && Partial(adj, ps, lcc, i, c) && i < |ps| && lcc[i] == -1 && ps[i] in adj
    requires StampedAt(adj, ps, lcc, lcc', i, c)
    ensures lcc'[..i] == lcc[..i] && lcc'[i] == c
  {
    forall j | 0 <= j < i ensures lcc'[j] == lcc[j] {
      if Reachable(adj, ps[i], ps[j]) {
        StampedFresh(adj, ps, lcc, i, c, j);
      }
    }
    ReachRefl(adj, ps[i]);
  }

  /** After stamping, a labelled position shares its id exactly with the
      positions it reaches. */
  lemma StampedClasses(adj: Adj, ps: seq<string>, lcc: seq<int>, lcc': seq<int>, i: nat, c: int, j: nat, k: nat)
    requires Symmetric(adj) && Partial(adj, ps, lcc, i, c) && i < |ps| && lcc[i] == -1
    requires StampedAt(adj, ps, lcc, lcc', i, c)
    requires j < |ps| && k < |ps| && lcc'[j] != -1
    ensures lcc'[k] == lcc'[j] <==> Reachable(adj, ps[j], ps[k])
  {
    var a, b, x := ps[j], ps[k], ps[i];
    if Reachable(adj, x, a) {
      StampedFresh(adj, ps, lcc, i, c, j);
      if Reachable(adj, x, b) {
        ReachSymmetric(adj, x, a);
        ReachTransitive(adj, a, x, b);
      } else {
        assert lcc'[k] == lcc[k] && lcc[k] < c;
        if Reachable(adj, a, b) {
          ReachTransitive(adj, x, a, b);
        }
      }
    } else {
      assert lcc'[j] == lcc[j] && lcc[j] != -1 && lcc[j] < c;
      if Reachable(adj, x, b) {
        StampedFresh(adj, ps, lcc, i, c, k);
        assert lcc'[k] == c;
        if Reachable(adj, a, b) {
          ReachSymmetric(adj, x, b);
          ReachTransitive(adj, a, b, x);
          ReachSymmetric(adj, a, x);
        }
      } else {
        assert lcc'[k] == lcc[k];
      }
    }
  }

  /** What `StampedFresh` gives for every position at once. */
  ghost predicate FreshAt(adj: Adj, ps: seq<string>, lcc: seq<int>, i: nat)
    requires i < |ps| == |lcc|
  {
    forall j | 0 <= j < |ps| && Reachable(adj, ps[i], ps[j]) :: lcc[j] == -1 && j >= i
  }

  lemma StampedFreshAll(adj: Adj, ps: seq<string>, lcc: seq<int>, i: nat, c: int)
    requires Symmetric(adj) && Partial(adj, ps, lcc, i, c) && i < |ps| && lcc[i] == -1
    ensures FreshAt(adj, ps, lcc, i)
  {
    forall j | 0 <= j < |ps| && Reachable(adj, ps[i], ps[j]) ensures lcc[j] == -1 && j >= i {
      StampedFresh(adj, ps, lcc, i, c, j);
    }
  }

  /** Stamping keeps every id's predecessor before it. */
  lemma StampedOrder(adj: Adj, ps: seq<string>, lcc: seq<int>, lcc': seq<int>, i: nat, c: int, j: nat)
    requires i < |ps| == |lcc| && IdsSeen(lcc, i, c) && IdsOrdered(lcc) && FreshAt(adj, ps, lcc, i)
    requires StampedAt(adj, ps, lcc, lcc', i, c)
    requires j < |ps| && lcc'[j] > 1
    ensures Seen(lcc', j, lcc'[j] - 1)
  {
    if Reachable(adj, ps[i], ps[j]) {
      assert lcc'[j] == c && j >= i;
      assert Seen(lcc, i, c - 1);
      var k :| 0 <= k < i && lcc[..i][k] == c - 1;
      assert !Reachable(adj, ps[i], ps[k]);
      assert lcc'[..j][k] == c - 1;
    } else {
      assert lcc'[j] == lcc[j];
      var e := lcc[j] - 1;
      assert Seen(lcc, j, e);
      var k :| 0 <= k < j && lcc[..j][k] == e;
      assert lcc[k] == e && e >= 1;
      assert !Reachable(adj, ps[i], ps[k]);
      assert lcc'[..j][k] == e;
    }
  }

  /** The new id joins the ids seen so far. */
  lemma StampedIds(lcc: seq<int>, lcc': seq<int>, i: nat, c: int, i': nat)
    requires i < |lcc| == |lcc'| && lcc'[..i] == lcc[..i] && lcc'[i] == c && i' == i + 1
    requires IdsSeen(lcc, i, c)
    ensures IdsSeen(lcc', i', c + 1)
  {
    forall e | 1 <= e <= c ensures Seen(lcc', i', e) {
      if e < c {
        assert Seen(lcc, i, e);
        var k :| 0 <= k < i && lcc[..i][k] == e;
        assert lcc'[..i + 1][k] == e;
      } else {
        assert lcc'[..i + 1][i] == c;
      }
    }
  }

  /** Stamping the component of the next unlabelled protein with a new id. */
  lemma PartialStep(adj: Adj, ps: seq<string>, lcc: seq<int>, lcc': seq<int>, i: nat, c: int)
    requires Symmetric(adj) && Partial(adj, ps, lcc, i, c) && i < |ps| && lcc[i] == -1 && ps[i] in adj
    requires StampedAt(adj, ps, lcc, lcc', i, c)
    ensures Partial(adj, ps, lcc', i + 1, c + 1)
  {
    StampedPrefix(adj, ps, lcc, lcc', i, c);
    StampedFreshAll(adj, ps, lcc, i, c);
    StampedExamined(lcc, lcc', i, c);
    StampedRange(adj, ps, lcc, lcc', i, c);
    StampedClassesAll(adj, ps, lcc, lcc', i, c);
    StampedIds(lcc, lcc', i, c, i + 1);
    StampedOrderAll(adj, ps, lcc, lcc', i, c);
  }

  lemma StampedExamined(lcc: seq<int>, lcc': seq<int>, i: nat, c: int)
    requires i < |lcc| == |lcc'| && Examined(lcc, i) && lcc'[..i] == lcc[..i] && lcc'[i] == c && c >= 1
    ensures Examined(lcc', i + 1)
  {
    forall j | 0 <= j < i + 1 ensures lcc'[j] != -1 {
      if j < i {
        assert lcc'[..i][j] == lcc[..i][j];
      }
    }
  }

  lemma StampedRange(adj: Adj, ps: seq<string>, lcc: seq<int>, lcc': seq<int>, i: nat, c: int)
    requires i < |ps| && InRange(lcc, c) && StampedAt(adj, ps, lcc, lcc', i, c) && c >= 1
    ensures InRange(lcc', c + 1)
  {
  }

  lemma StampedClassesAll(adj: Adj, ps: seq<string>, lcc: seq<int>, lcc': seq<int>, i: nat, c: int)
    requires Symmetric(adj) && Partial(adj, ps, lcc, i, c) && i < |ps| && lcc[i] == -1
    requires StampedAt(adj, ps, lcc, lcc', i, c)
    ensures Classes(adj, ps, lcc')
  {
    forall j, k | 0 <= j < |ps| && 0 <= k < |ps| && lcc'[j] != -1
      ensures lcc'[k] == lcc'[j] <==> Reachable(adj, ps[j], ps[k])
    {
      StampedClasses(adj, ps, lcc, lcc', i, c, j, k);
    }
  }

  lemma StampedOrderAll(adj: Adj, ps: seq<string>, lcc: seq<int>, lcc': seq<int>, i: nat, c: int)
    requires i < |ps| == |lcc| && IdsSeen(lcc, i, c) && IdsOrdered(lcc) && FreshAt(adj, ps, lcc, i)
    requires StampedAt(adj, ps, lcc, lcc', i, c)
    ensures IdsOrdered(lcc')
  {
    forall j | 0 <= j < |ps| && lcc'[j] > 1 ensures Seen(lcc', j, lcc'[j] - 1) {
      StampedOrder(adj, ps, lcc, lcc', i, c, j);
    }
  }

  /** The labels after the inner loop of `compute_CC` has stamped the
      first `k` members of `comp` with `c`. */
  predicate StampedBy(ps: seq<string>, lcc: seq<int>, lcc': seq<int>, comp: seq<string>, k: nat, c: int)
    requires k <= |comp|
  {
    && |lcc'| == |lcc| == |ps|
    && forall j | 0 <= j < |ps| :: lcc'[j] == if ps[j] in comp[..k] then c else lcc[j]
  }

  /** The labels after stamping every member of `comp` with `c`. */
  predicate StampOf(ps: seq<string>, lcc: seq<int>, lcc': seq<int>, comp: seq<string>, c: int) {
    && |lcc'| == |lcc| == |ps|
    && forall j | 0 <= j < |ps| :: lcc'[j] == if ps[j] in comp then c else lcc[j]
  }

  /** `lcc[proteins.index(x)] = c` for the next member `x`. */
  lemma StampedByStep(ps: seq<string>, lcc: seq<int>, lcc': seq<int>, comp: seq<string>, k: nat, c: int)
    requires Distinct(ps) && k < |comp| && comp[k] in ps && StampedBy(ps, lcc, lcc', comp, k, c)
    ensures StampedBy(ps, lcc, lcc'[IndexOf(ps, comp[k]) := c], comp, k + 1, c)
  {
    var t := IndexOf(ps, comp[k]);
    assert comp[..k + 1] == comp[..k] + [comp[k]];
    forall j | 0 <= j < |ps| ensures j == t <==> ps[j] == comp[k] {
      IndexOfDistinct(ps, j);
    }
  }

  // ---- count_CC ----

  /** `CC_sizes_list[id_CC - 1] += 1` for one more label `x`. */
  lemma HistogramBump(p: seq<int>, x: int, m: nat)
    requires 1 <= x <= m
    ensures Histogram(p + [x], m) == Histogram(p, m)[x - 1 := Histogram(p, m)[x - 1] + 1]
  {
    assert (p + [x])[..|p|] == p;
  }

  /** `[0] * nb_CC` counts the empty prefix. */
  lemma HistogramZero(m: nat)
    ensures Histogram([], m) == seq(m, _ => 0)
  {
  }

  /** The sizes of the components of a labelling: one positive size per id,
      adding up to the number of proteins; and no other labelling exists. */
  lemma ComponentSizes(adj: Adj, ps: seq<string>, lcc: seq<int>)
    requires IsLabelling(adj, ps, lcc) && lcc != []
    ensures Max(lcc) >= 1 && forall i | 0 <= i < |lcc| :: 1 <= lcc[i] <= Max(lcc)
    ensures forall c | 0 <= c < Max(lcc) :: Histogram(lcc, Max(lcc))[c] >= 1
    ensures Sum(Histogram(lcc, Max(lcc))) == |ps|
    ensures forall l2 | IsLabelling(adj, ps, l2) :: l2 == lcc
  {
    MaxOfNumbered(lcc);
    HistogramPositive(lcc);
    HistogramSum(lcc, Max(lcc));
    forall l2 | IsLabelling(adj, ps, l2) ensures l2 == lcc {
      LabellingUnique(adj, ps, l2, lcc);
    }
  }

  // ---- write_CC ----

  /** The proteins whose label is `id`, in the order of `ps`. */
  function MemberNames(ps: seq<string>, lcc: seq<int>, id: int): (r: seq<string>)
    requires |lcc| == |ps|
    ensures |r| == Count(lcc, id)
    ensures forall x :: x in r <==> exists j | 0 <= j < |ps| :: ps[j] == x && lcc[j] == id
  {
    if ps == [] then []
    else
      var n := |ps| - 1;
      var r := MemberNames(ps[..n], lcc[..n], id);
      assert forall j | 0 <= j < n :: ps[..n][j] == ps[j] && lcc[..n][j] == lcc[j];
      if lcc[n] == id then r + [ps[n]] else r
  }

  /** The tab-prefixed names of the members of component `id`. */
  function Members(names: seq<string>): string {
    if names == [] then "" else Members(names[..|names| - 1]) + "\t" + names[|names| - 1]
  }

  /** The line `write_CC` writes for component `id`: its size, then a tab
      before each of its members. */
  function CCLine(ps: seq<string>, lcc: seq<int>, id: int): string
    requires |lcc| == |ps|
  {
    ToDecimal(Count(lcc, id)) + Members(MemberNames(ps, lcc, id))
  }

  /** The labels and the next id `compute_CC` holds after examining the
      first `i` proteins: an unlabelled protein gets the next id on every
      protein it reaches. */
  ghost function Labels(adj: Adj, ps: seq<string>, i: nat): (r: (seq<int>, int))
    requires i <= |ps|
    ensures |r.0| == |ps|
  {
    if i == 0 then (seq(|ps|, _ => -1), 1)
    else
      var (l, c) := Labels(adj, ps, i - 1);
      if l[i - 1] == -1 then
        (seq(|ps|, j requires 0 <= j < |ps| => if Reachable(adj, ps[i - 1], ps[j]) then c else l[j]), c + 1)
      else (l, c)
  }

  /** The labels of `Labels` are the partial labelling. */
  lemma LabelsPartial(adj: Adj, ps: seq<string>, i: nat)
    requires Symmetric(adj) && Elems(ps) <= adj.Keys && i <= |ps|
    ensures Partial(adj, ps, Labels(adj, ps, i).0, i, Labels(adj, ps, i).1)
  {
    var l, c := LabelsAt(adj, ps, i);
  }

  /** The induction behind `LabelsPartial`, handing back the labels so that
      each step speaks of plain values. */
  lemma {:induction false} LabelsAt(adj: Adj, ps: seq<string>, i: nat) returns (l: seq<int>, c: int)
    requires Symmetric(adj) && Elems(ps) <= adj.Keys && i <= |ps|
    ensures (l, c) == Labels(adj, ps, i) && Partial(adj, ps, l, i, c)
  {
    l, c := Labels(adj, ps, i).0, Labels(adj, ps, i).1;
    if i == 0 {
      PartialStart(adj, ps);
    } else {
      var l0, c0 := LabelsAt(adj, ps, i - 1);
      LabelsNext(adj, ps, i, l0, c0, l, c);
      PartialNext(adj, ps, i - 1, l0, c0, l, c);
    }
  }

  /** Examining protein `i`: stamping it when unlabelled, skipping it
      otherwise, keeps the labels partial. */
  lemma PartialNext(adj: Adj, ps: seq<string>, i: nat, l: seq<int>, c: int, l': seq<int>, c': int)
    requires Symmetric(adj) && Elems(ps) <= adj.Keys && i < |ps| && Partial(adj, ps, l, i, c)
    requires l[i] == -1 ==> StampedAt(adj, ps, l, l', i, c) && c' == c + 1
    requires l[i] != -1 ==> l' == l && c' == c
    ensures Partial(adj, ps, l', i + 1, c')
  {
    if l[i] == -1 {
      assert ps[i] in Elems(ps);
      PartialStep(adj, ps, l, l', i, c);
    } else {
      PartialSkip(adj, ps, l, i, c);
    }
  }

  /** One more protein: stamped with the next id when unlabelled, else
      skipped. */
  lemma LabelsNext(adj: Adj, ps: seq<string>, i: nat, l: seq<int>, c: int, l': seq<int>, c': int)
    requires 0 < i <= |ps| && (l, c) == Labels(adj, ps, i - 1) && (l', c') == Labels(adj, ps, i)
    ensures l[i - 1] == -1 ==> StampedAt(adj, ps, l, l', i - 1, c) && c' == c + 1
    ensures l[i - 1] != -1 ==> l' == l && c' == c
  {
  }

  /** Stamping the component of an unlabelled protein is the next step of
      `Labels`. */
  lemma LabelsStamp(adj: Adj, ps: seq<string>, i: nat, lcc: seq<int>, c: int, comp: seq<string>, lcc': seq<int>)
    requires i < |ps| && (lcc, c) == Labels(adj, ps, i) && lcc[i] == -1
    requires IsComponent(adj, ps[i], comp) && StampOf(ps, lcc, lcc', comp, c)
    ensures (lcc', c + 1) == Labels(adj, ps, i + 1)
  {
    var next := seq(|ps|, j requires 0 <= j < |ps| => if Reachable(adj, ps[i], ps[j]) then c else lcc[j]);
    assert Labels(adj, ps, i + 1) == (next, c + 1);
    forall j | 0 <= j < |ps| ensures lcc'[j] == next[j] {
      assert ps[j] in comp <==> Reachable(adj, ps[i], ps[j]);
    }
    assert lcc' == next;
  }

  /** A labelled protein leaves `Labels` as it is. */
  lemma LabelsSkip(adj: Adj, ps: seq<string>, i: nat, lcc: seq<int>, c: int)
    requires i < |ps| && (lcc, c) == Labels(adj, ps, i) && lcc[i] != -1
    ensures (lcc, c) == Labels(adj, ps, i + 1)
  {
  }

  /** After every protein, `Labels` is the labelling. */
  lemma LabelsDone(adj: Adj, ps: seq<string>)
    requires Symmetric(adj) && Elems(ps) <= adj.Keys
    ensures IsLabelling(adj, ps, Labels(adj, ps, |ps|).0)
  {
    LabelsPartial(adj, ps, |ps|);
    PartialDone(adj, ps, Labels(adj, ps, |ps|).0, Labels(adj, ps, |ps|).1);
  }

  /** Once every protein is examined the labels are the labelling. */
  lemma PartialDone(adj: Adj, ps: seq<string>, lcc: seq<int>, c: int)
    requires Partial(adj, ps, lcc, |ps|, c)
    ensures IsLabelling(adj, ps, lcc)
  {
    assert Examined(lcc, |ps|) && InRange(lcc, c) && Classes(adj, ps, lcc);
    assert forall i | 0 <= i < |lcc| :: lcc[i] >= 1;
  }

  /** The lines of `write_CC` once the proteins before `j` have been
      appended to the line of their component. */
  predicate LinesAfter(ps: seq<string>, lcc: seq<int>, sizes: seq<nat>, content: seq<string>, j: nat)
    requires j <= |ps| == |lcc|
  {
    && |content| == |sizes|
    && forall c | 0 <= c < |sizes| ::
         content[c] == ToDecimal(sizes[c]) + Members(MemberNames(ps[..j], lcc[..j], c + 1))
  }

  lemma LinesStart(ps: seq<string>, lcc: seq<int>, sizes: seq<nat>)
    requires |ps| == |lcc|
    ensures LinesAfter(ps, lcc, sizes, seq(|sizes|, c requires 0 <= c < |sizes| => ToDecimal(sizes[c])), 0)
  {
  }

  /** `content[id_CC - 1] += "\t" + proteins[j]`. */
  lemma LinesStep(ps: seq<string>, lcc: seq<int>, sizes: seq<nat>, content: seq<string>, j: nat)
    requires j < |ps| == |lcc| && 1 <= lcc[j] <= |sizes| && LinesAfter(ps, lcc, sizes, content, j)
    ensures LinesAfter(ps, lcc, sizes, content[lcc[j] - 1 := content[lcc[j] - 1] + "\t" + ps[j]], j + 1)
  {
    var content' := content[lcc[j] - 1 := content[lcc[j] - 1] + "\t" + ps[j]];
    forall c | 0 <= c < |sizes|
      ensures content'[c] == ToDecimal(sizes[c]) + Members(MemberNames(ps[..j + 1], lcc[..j + 1], c + 1))
    {
      LineStep(ps, lcc, j, c + 1, content[c], content'[c], ToDecimal(sizes[c]));
    }
  }

  /** Line `id` before and after protein `j`: it gains `"\t" + ps[j]`
      exactly when `j` is in component `id`. */
  lemma LineStep(ps: seq<string>, lcc: seq<int>, j: nat, id: int, line: string, line': string, a: string)
    requires j < |ps| == |lcc|
    requires line == a + Members(MemberNames(ps[..j], lcc[..j], id))
    requires line' == if lcc[j] == id then line + "\t" + ps[j] else line
    ensures line' == a + Members(MemberNames(ps[..j + 1], lcc[..j + 1], id))
  {
    var r := MemberNames(ps[..j], lcc[..j], id);
    MemberNamesSnoc(ps, lcc, j, id);
    if lcc[j] == id {
      MembersSnoc(r, ps[j]);
      assert (a + Members(r)) + "\t" + ps[j] == a + (Members(r) + "\t" + ps[j]);
    }
  }

  /** The members of `id` among one more protein. */
  lemma MemberNamesSnoc(ps: seq<string>, lcc: seq<int>, j: nat, id: int)
    requires j < |ps| == |lcc|
    ensures MemberNames(ps[..j + 1], lcc[..j + 1], id)
      == if lcc[j] == id then MemberNames(ps[..j], lcc[..j], id) + [ps[j]] else MemberNames(ps[..j], lcc[..j], id)
  {
    assert ps[..j + 1][..j] == ps[..j] && lcc[..j + 1][..j] == lcc[..j];
  }

  lemma MembersSnoc(names: seq<string>, x: string)
    ensures Members(names + [x]) == Members(names) + "\t" + x
  {
    assert (names + [x])[..|names|] == names;
  }
}
