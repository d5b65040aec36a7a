/** The filename-based readers and writers of project.py: the dictionary,
    list and matrix readings of an interaction file, the vertex and edge
    counts, the list writer and the cleaning filter. */
module Project {
  import opened Common
  import opened EdgeFile
  import opened Graph
  import opened Matrix
  import opened FileList

  /** A Python dict of lists: its keys in insertion order, and the values. */
  datatype ListDict = ListDict(keys: seq<string>, values: map<string, seq<string>>)

  /** The list the dictionary reader builds for `u`: for every entry in order,
      the second endpoint when `u` is the first, then the first endpoint when
      `u` is the second. Duplicates are kept. */
  function Partners(l: seq<Entry>, u: string): seq<string> {
    if l == [] then []
    else
      var e := l[|l| - 1];
      Partners(l[..|l| - 1], u)
      + (if e.Tuple? && |e.items| >= 2 && e.items[0] == u then [e.items[1]] else [])
      + (if e.Tuple? && |e.items| >= 2 && e.items[1] == u then [e.items[0]] else [])
  }

  /** Some data line has fewer than two tokens, so `split[1]` raises. */
  predicate ShortLine(lines: seq<string>) {
    exists k | 0 <= k < |lines| :: |Tokens(lines[k])| < 2
  }

  lemma ShortLineAt(lines: seq<string>, k: nat)
    requires k < |lines| && |Tokens(lines[k])| < 2
    ensures ShortLine(lines)
  {
  }

  /** The first `k` lines all have two tokens or more. */
  predicate LongUpTo(lines: seq<string>, k: nat)
    requires k <= |lines|
  {
    k == 0 || (LongUpTo(lines, k - 1) && |Tokens(lines[k - 1])| >= 2)
  }

  lemma {:induction false} LongUpToAll(lines: seq<string>, k: nat)
    requires k <= |lines| && LongUpTo(lines, k)
    ensures forall j | 0 <= j < k :: |Tokens(lines[j])| >= 2
  {
    if k > 0 {
      LongUpToAll(lines, k - 1);
    }
  }

  /** Every line read without a short one: no short line at all. */
  lemma LongNotShort(lines: seq<string>)
    requires LongUpTo(lines, |lines|)
    ensures !ShortLine(lines)
  {
    LongUpToAll(lines, |lines|);
  }

  /** What `read_interaction_file_dict` returns: keyed by the endpoints in
      order of first appearance, each mapped to its partner list. The header
      line is skipped unread. */
  function DictSpec(f: File): Result<ListDict> {
    if ShortLine(f.lines) then Err(IndexError)
    else
      var es := Slots(f.lines, |f.lines|);
      Ok(ListDict(Dedup(Endpoints(es)), map u | u in Endpoints(es) :: Partners(es, u)))
  }

  lemma SlotsSnoc(lines: seq<string>, k: nat)
    requires k < |lines|
    ensures Slots(lines, k + 1) == Slots(lines, k) + [LineEntry(lines[k])]
  {
  }

  lemma EntrySnoc(l: seq<Entry>, e: Entry, u: string)
    requires e.Tuple? && |e.items| >= 2
    ensures Endpoints(l + [e]) == Endpoints(l) + [e.items[0], e.items[1]]
    ensures Partners(l + [e], u) == Partners(l, u)
      + (if e.items[0] == u then [e.items[1]] else []) + (if e.items[1] == u then [e.items[0]] else [])
  {
    assert (l + [e])[..|l|] == l;
  }

  /** A vertex that is no endpoint has no partners. */
  lemma {:induction false} PartnersAbsent(l: seq<Entry>, u: string)
    requires u !in Endpoints(l)
    ensures Partners(l, u) == []
  {
    if l != [] {
      PartnersAbsent(l[..|l| - 1], u);
    }
  }

  /** One `if k in dict: dict[k].append(v) else: dict[k] = [v]` step. */
  function Add(d: ListDict, k: string, v: string): ListDict {
    if k in d.values then ListDict(d.keys, d.values[k := d.values[k] + [v]])
    else ListDict(d.keys + [k], d.values[k := [v]])
  }

  /** The dictionary read from the entries `s`, as the reader's loop keeps it. */
  predicate DictOf(s: seq<Entry>, d: ListDict) {
    && d.keys == Dedup(Endpoints(s))
    && d.values.Keys == Elems(d.keys)
    && forall u | u in d.values :: d.values[u] == Partners(s, u)
  }

  lemma DictStepKeys(s: seq<Entry>, e: Entry, d: ListDict)
    requires DictOf(s, d) && e.Tuple? && |e.items| >= 2
    ensures Add(Add(d, e.items[0], e.items[1]), e.items[1], e.items[0]).keys == Dedup(Endpoints(s + [e]))
  {
    var a, b := e.items[0], e.items[1];
    var x := Endpoints(s);
    DedupElems(x);
    EntrySnoc(s, e, a);
    assert x + [a, b] == (x + [a]) + [b];
    DedupSnoc(x, a);
    DedupSnoc(x + [a], b);
  }

  lemma DictStepValues(s: seq<Entry>, e: Entry, d: ListDict, u: string)
    requires DictOf(s, d) && e.Tuple? && |e.items| >= 2
    requires u in Add(Add(d, e.items[0], e.items[1]), e.items[1], e.items[0]).values
    ensures Add(Add(d, e.items[0], e.items[1]), e.items[1], e.items[0]).values[u] == Partners(s + [e], u)
  {
    var a, b := e.items[0], e.items[1];
    var d1 := Add(d, a, b);
    var p := if u in d.values then d.values[u] else [];
    assert p == Partners(s, u) by {
      if u !in d.values {
        DedupElems(Endpoints(s));
        PartnersAbsent(s, u);
      }
    }
    var x: seq<string> := if u == a then [b] else [];
    var y: seq<string> := if u == b then [a] else [];
    AddValue(d1, b, a, u);
    if u in d1.values {
      AddValue(d, a, b, u);
    } else {
      assert p == [] && x == [];
      assert [] + y == (p + x) + y;
    }
    EntrySnoc(s, e, u);
  }

  /** The list an addition leaves at `u`. */
  lemma AddValue(d: ListDict, k: string, v: string, u: string)
    requires u in Add(d, k, v).values
    ensures Add(d, k, v).values[u] == (if u in d.values then d.values[u] else []) + (if u == k then [v] else [])
  {
  }

  /** An addition keeps the mapping's keys those of the key list. */
  lemma AddDomain(d: ListDict, k: string, v: string)
    requires d.values.Keys == Elems(d.keys)
    ensures Add(d, k, v).values.Keys == Elems(Add(d, k, v).keys)
  {
    if k !in d.values {
      assert Elems(d.keys + [k]) == Elems(d.keys) + {k};
    }
  }

  /** Reading one more line keeps the dictionary in step with the entries. */
  lemma DictStep(s: seq<Entry>, e: Entry, d: ListDict)
    requires DictOf(s, d) && e.Tuple? && |e.items| >= 2
    ensures DictOf(s + [e], Add(Add(d, e.items[0], e.items[1]), e.items[1], e.items[0]))
  {
    var d2 := Add(Add(d, e.items[0], e.items[1]), e.items[1], e.items[0]);
    DictStepKeys(s, e, d);
    AddDomain(d, e.items[0], e.items[1]);
    AddDomain(Add(d, e.items[0], e.items[1]), e.items[1], e.items[0]);
    forall u | u in d2.values
      ensures d2.values[u] == Partners(s + [e], u)
    {
      DictStepValues(s, e, d, u);
    }
  }

  lemma ReadDictStep(lines: seq<string>, k: nat, k': nat, t: seq<string>, d: ListDict, d': ListDict)
    requires k < |lines| && k' == k + 1 && t == Tokens(lines[k]) && |t| >= 2 && DictOf(Slots(lines, k), d)
    requires d' == Add(Add(d, t[0], t[1]), t[1], t[0])
    ensures DictOf(Slots(lines, k'), d')
  {
    SlotsSnoc(lines, k);
    DictStep(Slots(lines, k), LineEntry(lines[k]), d);
  }

  lemma DictSpecOk(f: File, d: ListDict)
    requires !ShortLine(f.lines) && DictOf(Slots(f.lines, |f.lines|), d)
    ensures DictSpec(f) == Ok(d)
  {
    var es := Slots(f.lines, |f.lines|);
    var m := map u | u in Endpoints(es) :: Partners(es, u);
    DedupElems(Endpoints(es));
    assert d.values.Keys == m.Keys;
    assert forall u | u in m :: d.values[u] == m[u];
    assert d.values == m;
  }

  /** The dictionary reader (project.py:16-32). */
  method ReadDict(f: File) returns (r: Result<ListDict>)
    ensures r == DictSpec(f)
  {
    var d := ListDict([], map[]);
    var k: nat := 0;
    while k < |f.lines|
      invariant k <= |f.lines|
      invariant DictLoop(f.lines, k) == Ok(d)
    {
      var split := Tokens(f.lines[k]);
      if |split| < 2 {
        ShortLineAt(f.lines, k);
        return Err(IndexError);
      }
      DictLoopNext(f.lines, k, d, split);
      d := Add(d, split[0], split[1]);
      d := Add(d, split[1], split[0]);
      k := k + 1;
    }
    DictLoopDone(f);
    r := Ok(d);
  }

  /** The state of the dictionary reader's loop after `k` lines: an
      IndexError at the first short line, else the dictionary so far. */
  function DictLoop(lines: seq<string>, k: nat): Result<ListDict>
    requires k <= |lines|
  {
    if k == 0 then Ok(ListDict([], map[]))
    else
      var r := DictLoop(lines, k - 1);
      var t := Tokens(lines[k - 1]);
      if r.Err? then r
      else if |t| < 2 then Err(IndexError)
      else Ok(Add(Add(r.value, t[0], t[1]), t[1], t[0]))
  }

  /** A line of two tokens or more extends the dictionary. */
  lemma DictLoopNext(lines: seq<string>, k: nat, d: ListDict, t: seq<string>)
    requires k < |lines| && DictLoop(lines, k) == Ok(d) && t == Tokens(lines[k]) && |t| >= 2
    ensures DictLoop(lines, k + 1) == Ok(Add(Add(d, t[0], t[1]), t[1], t[0]))
  {
  }

  /** The last line a loop got past had two tokens or more. */
  lemma DictLoopLast(lines: seq<string>, k: nat)
    requires 0 < k <= |lines| && DictLoop(lines, k).Ok?
    ensures DictLoop(lines, k - 1).Ok? && |Tokens(lines[k - 1])| >= 2
    ensures var t := Tokens(lines[k - 1]);
      DictLoop(lines, k).value == Add(Add(DictLoop(lines, k - 1).value, t[0], t[1]), t[1], t[0])
  {
  }

  /** A loop that got past line `k` read only lines of two tokens or more. */
  lemma {:induction false} DictLoopPairs(lines: seq<string>, k: nat)
    requires k <= |lines| && DictLoop(lines, k).Ok?
    ensures LongUpTo(lines, k)
  {
    if k > 0 {
      DictLoopLast(lines, k);
      DictLoopPairs(lines, k - 1);
    }
  }

  /** ... and holds the dictionary of their entries. */
  lemma {:induction false} DictLoopOk(lines: seq<string>, k: nat)
    requires k <= |lines| && DictLoop(lines, k).Ok?
    ensures DictOf(Slots(lines, k), DictLoop(lines, k).value)
  {
    if k > 0 {
      var j := k - 1;
      var t := Tokens(lines[j]);
      DictLoopLast(lines, k);
      DictLoopOk(lines, j);
      ReadDictStep(lines, j, k, t, DictLoop(lines, j).value, DictLoop(lines, k).value);
    }
  }

  lemma DictLoopDone(f: File)
    requires DictLoop(f.lines, |f.lines|).Ok?
    ensures DictLoop(f.lines, |f.lines|) == DictSpec(f)
  {
    DictLoopPairs(f.lines, |f.lines|);
    LongNotShort(f.lines);
    DictLoopOk(f.lines, |f.lines|);
    DictSpecOk(f, DictLoop(f.lines, |f.lines|).value);
  }

  /** The dictionary's keys: every endpoint once, in order of first
      appearance, and exactly the keys of the mapping. */
  lemma DictKeys(f: File)
    requires DictSpec(f).Ok?
    ensures var d := DictSpec(f).value; var x := Endpoints(Slots(f.lines, |f.lines|));
      && Distinct(d.keys)
      && d.values.Keys == Elems(d.keys)
      && (forall u :: u in d.keys <==> u in x)
      && (forall i, j | 0 <= i < j < |d.keys| :: IndexOf(x, d.keys[i]) < IndexOf(x, d.keys[j]))
  {
    var x := Endpoints(Slots(f.lines, |f.lines|));
    DedupElems(x);
    DedupOrder(x);
  }

  /** The dictionary read from a file whose entries are `l`. */
  lemma DictSpecOf(f: File, l: seq<Entry>)
    requires !ShortLine(f.lines) && Slots(f.lines, |f.lines|) == l
    ensures DictSpec(f).Ok?
    ensures var d := DictSpec(f).value;
      && d.keys == Dedup(Endpoints(l)) && d.values.Keys == Elems(Endpoints(l))
      && forall u | u in d.values :: d.values[u] == Partners(l, u)
  {
  }

  /** A partner list holds exactly the neighbours the entries induce. */
  lemma {:induction false} PartnersElems(l: seq<Entry>, u: string)
    ensures Elems(Partners(l, u)) == Nbrs(l, u)
  {
    if l != [] {
      var p := l[..|l| - 1];
      PartnersElems(p, u);
      var e := l[|l| - 1];
      var a := if e.Tuple? && |e.items| >= 2 && e.items[0] == u then [e.items[1]] else [];
      var b := if e.Tuple? && |e.items| >= 2 && e.items[1] == u then [e.items[0]] else [];
      assert Elems(Partners(p, u) + a + b) == Elems(Partners(p, u)) + Elems(a) + Elems(b);
    }
  }

  /** The dictionary's value lists, read as sets, give a symmetric adjacency:
      the same one the edge list induces. */
  lemma DictAdjacency(f: File, u: string, v: string)
    requires DictSpec(f).Ok? && u in DictSpec(f).value.values && v in DictSpec(f).value.values
    ensures var d := DictSpec(f).value;
      && Elems(d.values[u]) == Nbrs(Slots(f.lines, |f.lines|), u)
      && (v in d.values[u] <==> u in d.values[v])
  {
    var es := Slots(f.lines, |f.lines|);
    PartnersElems(es, u);
    PartnersElems(es, v);
    NbrsSymmetric(es, u, v);
  }

  /** The total length of the value lists of the keys `ks`. */
  function ValueCount(ks: seq<string>, m: map<string, seq<string>>): nat {
    if ks == [] then 0 else (if ks[0] in m then |m[ks[0]]| else 0) + ValueCount(ks[1..], m)
  }

  /** The total partner count of the vertices `ks`. */
  function PartnerCount(ks: seq<string>, l: seq<Entry>): nat {
    if ks == [] then 0 else |Partners(l, ks[0])| + PartnerCount(ks[1..], l)
  }

  lemma {:induction false} PartnerCountSnoc(ks: seq<string>, l: seq<Entry>, e: Entry)
    requires Distinct(ks) && e.Tuple? && |e.items| >= 2
    ensures PartnerCount(ks, l + [e]) == PartnerCount(ks, l)
      + (if e.items[0] in ks then 1 else 0) + (if e.items[1] in ks then 1 else 0)
  {
    if ks != [] {
      EntrySnoc(l, e, ks[0]);
      PartnerCountSnoc(ks[1..], l, e);
      assert ks == [ks[0]] + ks[1..];
    }
  }

  lemma {:induction false} PartnerCountEmpty(ks: seq<string>)
    ensures PartnerCount(ks, []) == 0
  {
    if ks != [] {
      PartnerCountEmpty(ks[1..]);
    }
  }

  /** Over a duplicate-free list of all endpoints, every entry is counted
      twice: once for each endpoint. */
  lemma {:induction false} PartnerTotal(ks: seq<string>, l: seq<Entry>)
    requires Distinct(ks)
    requires forall i | 0 <= i < |l| :: l[i].Tuple? && |l[i].items| >= 2
    requires forall x | x in Endpoints(l) :: x in ks
    ensures PartnerCount(ks, l) == 2 * |l|
  {
    if l == [] {
      PartnerCountEmpty(ks);
    } else {
      var p := l[..|l| - 1];
      var e := l[|l| - 1];
      assert l == p + [e];
      EntrySnoc(p, e, e.items[0]);
      PartnerTotal(ks, p);
      PartnerCountSnoc(ks, p, e);
    }
  }

  lemma {:induction false} ValueCountIsPartnerCount(ks: seq<string>, m: map<string, seq<string>>, l: seq<Entry>)
    requires forall u | u in ks :: u in m && m[u] == Partners(l, u)
    ensures ValueCount(ks, m) == PartnerCount(ks, l)
  {
    if ks != [] {
      ValueCountIsPartnerCount(ks[1..], m, l);
    }
  }

  /** Each data line appends once to each endpoint's list: the value lists
      hold twice as many names as there are data lines. */
  lemma DictTotal(f: File)
    requires DictSpec(f).Ok?
    ensures ValueCount(DictSpec(f).value.keys, DictSpec(f).value.values) == 2 * |f.lines|
  {
    var es := Slots(f.lines, |f.lines|);
    var d := DictSpec(f).value;
    DedupElems(Endpoints(es));
    forall i | 0 <= i < |es| ensures es[i].Tuple? && |es[i].items| >= 2 {
      assert !(|Tokens(f.lines[i])| < 2);
    }
    PartnerTotal(d.keys, es);
    ValueCountIsPartnerCount(d.keys, d.values, es);
  }

  /** The list reader (project.py:45-53): `[0] * N` filled by index. */
  method ReadList(f: File) returns (r: Result<seq<Entry>>)
    ensures r == ListSpec(f)
  {
    if f.header.None? {
      return Err(ValueError);
    }
    var n := f.header.value;
    var l := seq(n, i => Zero);
    var index := 0;
    while index < |f.lines|
      invariant 0 <= index <= |f.lines| && index <= n && |l| == n
      invariant forall i | 0 <= i < n :: l[i] == if i < index then LineEntry(f.lines[i]) else Zero
    {
      if index >= |l| {
        return Err(IndexError);
      }
      l := l[index := Tuple(Tokens(f.lines[index]))];
      index := index + 1;
    }
    assert l == Slots(f.lines, n);
    r := Ok(l);
  }

  /** Every token of every data line (the set the matrix reader collects). */
  function TokenSet(lines: seq<string>): set<string> {
    if lines == [] then {} else TokenSet(lines[..|lines| - 1]) + Elems(Tokens(lines[|lines| - 1]))
  }

  lemma {:induction false} TokenSetHas(lines: seq<string>, k: nat, t: nat)
    requires k < |lines| && t < |Tokens(lines[k])|
    ensures Tokens(lines[k])[t] in TokenSet(lines)
  {
    if k < |lines| - 1 {
      TokenSetHas(lines[..|lines| - 1], k, t);
    }
  }

  lemma TokenSetNames(ps: seq<string>, lines: seq<string>)
    requires Elems(ps) == TokenSet(lines)
    ensures NamesIn(ps, lines)
  {
    forall k | 0 <= k < |lines| && |Tokens(lines[k])| >= 2
      ensures Tokens(lines[k])[0] in ps && Tokens(lines[k])[1] in ps
    {
      TokenSetHas(lines, k, 0);
      TokenSetHas(lines, k, 1);
    }
  }

  /** How `read_interaction_file_mat` fails: as the list reader does, then
      with ValueError at a line without exactly two tokens (it cannot be
      unpacked into `i, j`), then with TypeError at a `0` placeholder. */
  function MatError(f: File): Option<Error> {
    if ListSpec(f).Err? then Some(ListSpec(f).error)
    else if !AllPairs(f.lines, f.header.value) then Some(ValueError)
    else if |f.lines| < f.header.value then Some(TypeError)
    else None
  }

  /** The matrix reader (project.py:67-85). The node list is `list(set)`,
      whose order Python leaves unspecified: any enumeration may be chosen. */
  method ReadMat(f: File) returns (r: Result<(array2<int>, seq<string>)>)
    ensures r.Err? <==> MatError(f).Some?
    ensures r.Err? ==> r.error == MatError(f).value
    ensures r.Ok? ==>
      var (m, nodes) := r.value;
      && fresh(m) && Distinct(nodes) && Elems(nodes) == TokenSet(f.lines)
      && m.Length0 == |nodes| && m.Length1 == |nodes|
      && forall i, j | 0 <= i < |nodes| && 0 <= j < |nodes| ::
           m[i, j] == if nodes[j] in Nbrs(ListSpec(f).value, nodes[i]) then 1 else 0
  {
    var tokens := CollectTokens(f.lines);
    var nodes := Enumerate(tokens);
    var list := ReadList(f);
    if list.Err? {
      return Err(list.error);
    }
    TokenSetNames(nodes, f.lines);
    SlotsMatrixError(nodes, f.lines, f.header.value);
    var err, m := FillMatrix(nodes, list.value);
    if err.Some? {
      return Err(err.value);
    }
    forall i, j | 0 <= i < |nodes| && 0 <= j < |nodes|
      ensures m[i, j] == if nodes[j] in Nbrs(list.value, nodes[i]) then 1 else 0
    {
      LinkedIsAdjacent(nodes, list.value, i, j);
    }
    r := Ok((m, nodes));
  }

  /** The loop collecting every token of every line into a set. */
  method CollectTokens(lines: seq<string>) returns (tokens: set<string>)
    ensures tokens == TokenSet(lines)
  {
    tokens := {};
    var k := 0;
    while k < |lines|
      invariant 0 <= k <= |lines|
      invariant tokens == TokenSet(lines[..k])
    {
      assert lines[..k + 1][..k] == lines[..k];
      tokens := tokens + Elems(Tokens(lines[k]));
      k := k + 1;
    }
    assert lines[..k] == lines;
  }

  /** `list(s)`: the elements of a set, each once, in an order left open. */
  method Enumerate(s: set<string>) returns (nodes: seq<string>)
    ensures Distinct(nodes) && Elems(nodes) == s
  {
    nodes := [];
    var rest := s;
    while rest != {}
      invariant Distinct(nodes) && Elems(nodes) !! rest && Elems(nodes) + rest == s
      decreases |rest|
    {
      var x :| x in rest;
      nodes := nodes + [x];
      rest := rest - {x};
    }
  }

  /** With the matrix read, the dictionary and list readers cannot fail. */
  lemma MatOkReaders(f: File)
    requires MatError(f).None?
    ensures DictSpec(f).Ok? && ListSpec(f).Ok?
  {
  }

  /** `read_interaction_file` (project.py:88-106): the matrix reading first,
      then the dictionary and the list. */
  method ReadAll(f: File) returns (r: Result<(ListDict, seq<Entry>, array2<int>, seq<string>)>)
    ensures r.Err? <==> MatError(f).Some?
    ensures r.Err? ==> r.error == MatError(f).value
    ensures r.Ok? ==>
      var (d, l, m, nodes) := r.value;
      && d == DictSpec(f).value && l == ListSpec(f).value
      && fresh(m) && m.Length0 == |nodes| && m.Length1 == |nodes|
      && Distinct(nodes) && Elems(nodes) == TokenSet(f.lines)
      && forall i, j | 0 <= i < |nodes| && 0 <= j < |nodes| ::
           m[i, j] == if nodes[j] in Nbrs(l, nodes[i]) then 1 else 0
  {
    var mat := ReadMat(f);
    if mat.Err? {
      return Err(mat.error);
    }
    MatOkReaders(f);
    var d := ReadDict(f);
    var l := ReadList(f);
    r := Ok((d.value, l.value, mat.value.0, mat.value.1));
  }

  /** `count_vertices` (project.py:114-124): the number of dictionary keys,
      that is of distinct names among the first two tokens of the lines. */
  method CountVertices(f: File) returns (r: Result<nat>)
    ensures r.Err? <==> ShortLine(f.lines)
    ensures r.Err? ==> r.error == IndexError
    ensures r.Ok? ==> r.value == |Elems(Endpoints(Slots(f.lines, |f.lines|)))|
  {
    var d := ReadDict(f);
    if d.Err? {
      return Err(d.error);
    }
    var x := Endpoints(Slots(f.lines, |f.lines|));
    DedupElems(x);
    DistinctCard(Dedup(x));
    assert Elems(Dedup(x)) == Elems(x);
    r := Ok(|d.value.keys|);
  }

  /** `count_edges` (project.py:127-137): the length of the list, which is
      the header's count, placeholders included. */
  method CountEdges(f: File) returns (r: Result<nat>)
    ensures r.Err? <==> ListSpec(f).Err?
    ensures r.Err? ==> r.error == ListSpec(f).error
    ensures r.Ok? ==> r.value == f.header.value
  {
    var l := ReadList(f);
    if l.Err? {
      return Err(l.error);
    }
    r := Ok(|l.value|);
  }

  /** The exception writing entry `e` raises: `0[0]` is a TypeError, a tuple
      shorter than two an IndexError. */
  function WriteEntryError(e: Entry): Option<Error> {
    if e.Zero? then Some(TypeError) else if |e.items| < 2 then Some(IndexError) else None
  }

  /** The exception of the first entry that cannot be written. */
  function WriteError(l: seq<Entry>): Option<Error> {
    if l == [] then None
    else
      var p := WriteError(l[..|l| - 1]);
      if p.Some? then p else WriteEntryError(l[|l| - 1])
  }

  /** The line written for an entry: its first two items joined by a space. */
  function LineOf(e: Entry): string {
    if e.Tuple? && |e.items| >= 2 then PairLine(e.items[0], e.items[1]) else ""
  }

  function WriteLines(l: seq<Entry>): (r: seq<string>)
    ensures |r| == |l| && forall i | 0 <= i < |l| :: r[i] == LineOf(l[i])
  {
    if l == [] then [] else WriteLines(l[..|l| - 1]) + [LineOf(l[|l| - 1])]
  }

  /** The file `write_interaction_file_list` produces: the list length as
      header, then one line per entry in list order. */
  function WriteSpec(l: seq<Entry>): Result<File> {
    if WriteError(l).Some? then Err(WriteError(l).value) else Ok(File(Some(|l|), WriteLines(l)))
  }

  /** The writer fails exactly when some entry is a placeholder or too short. */
  lemma {:induction false} WriteErrorAt(l: seq<Entry>)
    ensures WriteError(l).None? <==> forall i | 0 <= i < |l| :: l[i].Tuple? && |l[i].items| >= 2
  {
    if l != [] {
      var p := l[..|l| - 1];
      WriteErrorAt(p);
      assert forall i | 0 <= i < |p| :: p[i] == l[i];
    }
  }

  lemma {:induction false} WriteErrorSticky(l: seq<Entry>, k: nat)
    requires k <= |l| && WriteError(l[..k]).Some?
    ensures WriteError(l) == WriteError(l[..k])
  {
    if k < |l| {
      var p := l[..|l| - 1];
      assert p[..k] == l[..k];
      WriteErrorSticky(p, k);
    } else {
      assert l[..k] == l;
    }
  }

  /** `write_interaction_file_list` (project.py:151-154), the content it writes. */
  method WriteList(l: seq<Entry>) returns (r: Result<File>)
    ensures r == WriteSpec(l)
  {
    var lines: seq<string> := [];
    var k := 0;
    while k < |l|
      invariant 0 <= k <= |l|
      invariant WriteError(l[..k]).None? && lines == WriteLines(l[..k])
    {
      var inter := l[k];
      assert l[..k + 1][..k] == l[..k];
      if inter.Zero? {
        WriteErrorSticky(l, k + 1);
        return Err(TypeError);
      }
      if |inter.items| < 2 {
        WriteErrorSticky(l, k + 1);
        return Err(IndexError);
      }
      lines := lines + [inter.items[0] + " " + inter.items[1]];
      k := k + 1;
    }
    assert l[..k] == l;
    r := Ok(File(Some(|l|), lines));
  }

  lemma WrittenLineReads(l: seq<Entry>, i: nat)
    requires i < |l| && IsPair(l[i]) && IsName(l[i].items[0]) && IsName(l[i].items[1])
    ensures LineEntry(WriteLines(l)[i]) == l[i]
  {
    TokensOfPairLine(l[i].items[0], l[i].items[1]);
  }

  /** Writing a list of name pairs and reading it back gives the same list. */
  lemma WriteReadRoundTrip(l: seq<Entry>)
    requires forall i | 0 <= i < |l| :: IsPair(l[i]) && IsName(l[i].items[0]) && IsName(l[i].items[1])
    ensures WriteSpec(l).Ok? && ListSpec(WriteSpec(l).value) == Ok(l)
  {
    WriteErrorAt(l);
    var lines := WriteLines(l);
    forall i | 0 <= i < |l| ensures Slots(lines, |l|)[i] == l[i] {
      WrittenLineReads(l, i);
    }
    assert Slots(lines, |l|) == l;
  }

  /** The reversed pair of an entry's first two items. */
  function Reversed(e: Entry): Entry
    requires e.Tuple? && |e.items| >= 2
  {
    Pair(e.items[1], e.items[0])
  }

  /** The test `clean_interactome` applies to each line: keep its tuple when
      the reversed 2-tuple is not among the tuples kept so far and the two
      names differ. */
  predicate Keep(kept: seq<Entry>, e: Entry) {
    e.Tuple? && |e.items| >= 2 && Reversed(e) !in kept && e.items[1] != e.items[0]
  }

  /** The tuples `clean_interactome` keeps, in input order. */
  function CleanPairs(l: seq<Entry>): seq<Entry> {
    if l == [] then []
    else
      var k := CleanPairs(l[..|l| - 1]);
      if Keep(k, l[|l| - 1]) then k + [l[|l| - 1]] else k
  }

  /** What `clean_interactome` writes: the kept tuples as an edge list file.
      The header of the input is skipped unread. */
  function CleanSpec(f: File): Result<File> {
    if ShortLine(f.lines) then Err(IndexError) else WriteSpec(CleanPairs(Slots(f.lines, |f.lines|)))
  }

  /** The cleaned file of a file whose entries are `l`. */
  lemma CleanSpecOf(f: File, l: seq<Entry>)
    requires !ShortLine(f.lines) && Slots(f.lines, |f.lines|) == l
    ensures CleanSpec(f) == WriteSpec(CleanPairs(l))
  {
  }

  lemma CleanSnoc(l: seq<Entry>, e: Entry)
    ensures CleanPairs(l + [e]) == if Keep(CleanPairs(l), e) then CleanPairs(l) + [e] else CleanPairs(l)
  {
    assert (l + [e])[..|l|] == l;
  }

  /** The cleaning filter's output without the writing (project.py:167-173). */
  method CleanList(f: File) returns (r: Result<seq<Entry>>)
    ensures r.Err? <==> ShortLine(f.lines)
    ensures r.Err? ==> r.error == IndexError
    ensures r.Ok? ==> r.value == CleanPairs(Slots(f.lines, |f.lines|))
  {
    var kept: seq<Entry> := [];
    var k := 0;
    while k < |f.lines|
      invariant 0 <= k <= |f.lines|
      invariant LongUpTo(f.lines, k) && kept == CleanPairs(Slots(f.lines, k))
    {
      var split := Tokens(f.lines[k]);
      if |split| < 2 {
        ShortLineAt(f.lines, k);
        return Err(IndexError);
      }
      SlotsSnoc(f.lines, k);
      CleanSnoc(Slots(f.lines, k), Tuple(split));
      if Pair(split[1], split[0]) !in kept && split[1] != split[0] {
        kept := kept + [Tuple(split)];
      }
      k := k + 1;
    }
    LongNotShort(f.lines);
    r := Ok(kept);
  }

  /** `clean_interactome` (project.py:156-175), the content it writes. */
  method Clean(f: File) returns (r: Result<File>)
    ensures r == CleanSpec(f)
  {
    var kept := CleanList(f);
    if kept.Err? {
      return Err(kept.error);
    }
    r := WriteList(kept.value);
  }

  /** Every kept tuple comes from the input, and the output of a prefix is a
      prefix of the output: input order is preserved. */
  lemma {:induction false} CleanOrder(l: seq<Entry>, k: nat)
    requires k <= |l|
    ensures CleanPairs(l[..k]) <= CleanPairs(l)
    ensures forall e | e in CleanPairs(l) :: e in l
  {
    if l != [] {
      var p := l[..|l| - 1];
      if k < |l| {
        assert p[..k] == l[..k];
        CleanOrder(p, k);
      } else {
        assert l[..k] == l;
        CleanOrder(p, 0);
      }
    }
  }

  /** No kept tuple pairs a name with itself, and no kept tuple is followed
      by its reverse. */
  predicate CleanShape(k: seq<Entry>) {
    && (forall i | 0 <= i < |k| :: k[i].Tuple? && |k[i].items| >= 2 && k[i].items[0] != k[i].items[1])
    && (forall i, j | 0 <= i < j < |k| :: k[i] != Reversed(k[j]))
  }

  /** The output of cleaning has no self-pair and never holds a pair together
      with its reverse. */
  lemma {:induction false} CleanPairsShape(l: seq<Entry>)
    ensures CleanShape(CleanPairs(l))
  {
    if l != [] {
      var p := l[..|l| - 1];
      CleanPairsShape(p);
    }
  }

  /** A pair and its reverse are never both kept. */
  lemma CleanNoBothOrientations(l: seq<Entry>, i: nat, j: nat)
    requires i < |CleanPairs(l)| && j < |CleanPairs(l)|
    requires IsPair(CleanPairs(l)[i]) && IsPair(CleanPairs(l)[j])
    ensures CleanPairs(l)[i] != Reversed(CleanPairs(l)[j])
  {
    var k := CleanPairs(l);
    CleanPairsShape(l);
    if j < i {
      assert k[j] != Reversed(k[i]);
    }
  }

  /** Cleaning keeps every tuple of a list that already has the shape of an output. */
  lemma {:induction false} CleanFixpoint(l: seq<Entry>)
    requires CleanShape(l)
    ensures CleanPairs(l) == l
  {
    if l != [] {
      var p := l[..|l| - 1];
      assert CleanShape(p);
      CleanFixpoint(p);
      assert Reversed(l[|l| - 1]) !in p;
    }
  }

  /** Cleaning twice is cleaning once. */
  lemma CleanIdempotent(l: seq<Entry>)
    ensures CleanPairs(CleanPairs(l)) == CleanPairs(l)
  {
    CleanPairsShape(l);
    CleanFixpoint(CleanPairs(l));
  }

  /** A repeat of an interaction already kept, in the same orientation, is
      kept again. With a 3-token line the repeat of a kept pair can be
      dropped once its reverse is kept, so the repeat must be a 2-tuple. */
  lemma CleanKeepsRepeats(l: seq<Entry>, e: Entry)
    requires IsPair(e) && e in CleanPairs(l)
    ensures CleanPairs(l + [e]) == CleanPairs(l) + [e]
  {
    var k := CleanPairs(l);
    CleanPairsShape(l);
    CleanSnoc(l, e);
    var i :| 0 <= i < |k| && k[i] == e;
    assert Reversed(Reversed(e)) == e;
    forall j | 0 <= j < |k|
      ensures k[j] != Reversed(e)
    {
      if i < j {
        assert k[i] != Reversed(k[j]);
      } else if j < i {
        assert k[j] != Reversed(k[i]);
      } else {
        assert Reversed(e).items[0] != e.items[0];
      }
    }
  }
}
