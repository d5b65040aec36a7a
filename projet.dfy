/** projet.py, the first draft of the readers: its dictionary reader keys
    each line by its first token only; its list reader is the same code as
    project.py's and is modelled by `Project.ReadList`. */
module Projet {
  import opened Common
  import opened EdgeFile
  import opened Graph
  import opened FileList
  import opened Project

  /** The first token of every entry, in order. */
  function Firsts(l: seq<Entry>): seq<string> {
    if l == [] then []
    else
      var e := l[|l| - 1];
      Firsts(l[..|l| - 1]) + (if e.Tuple? && |e.items| >= 2 then [e.items[0]] else [])
  }

  /** The second tokens of the entries whose first token is `u`, in order. */
  function Seconds(l: seq<Entry>, u: string): seq<string> {
    if l == [] then []
    else
      var e := l[|l| - 1];
      Seconds(l[..|l| - 1], u) + (if e.Tuple? && |e.items| >= 2 && e.items[0] == u then [e.items[1]] else [])
  }

  /** What the draft dictionary reader returns: keyed by first tokens in
      order of first appearance. */
  function FirstDictSpec(f: File): Result<ListDict> {
    if ShortLine(f.lines) then Err(IndexError)
    else
      var es := Slots(f.lines, |f.lines|);
      Ok(ListDict(Dedup(Firsts(es)), map u | u in Firsts(es) :: Seconds(es, u)))
  }

  predicate FirstDictOf(s: seq<Entry>, d: ListDict) {
    && d.keys == Dedup(Firsts(s))
    && d.values.Keys == Elems(d.keys)
    && forall u | u in d.values :: d.values[u] == Seconds(s, u)
  }

  lemma FirstSnoc(l: seq<Entry>, e: Entry, u: string)
    requires e.Tuple? && |e.items| >= 2
    ensures Firsts(l + [e]) == Firsts(l) + [e.items[0]]
    ensures Seconds(l + [e], u) == Seconds(l, u) + (if e.items[0] == u then [e.items[1]] else [])
  {
    assert (l + [e])[..|l|] == l;
  }

  lemma {:induction false} SecondsAbsent(l: seq<Entry>, u: string)
    requires u !in Firsts(l)
    ensures Seconds(l, u) == []
  {
    if l != [] {
      SecondsAbsent(l[..|l| - 1], u);
    }
  }

  lemma FirstStepKeys(s: seq<Entry>, e: Entry, d: ListDict)
    requires FirstDictOf(s, d) && e.Tuple? && |e.items| >= 2
    ensures Add(d, e.items[0], e.items[1]).keys == Dedup(Firsts(s + [e]))
  {
    var a := e.items[0];
    DedupElems(Firsts(s));
    DedupSnoc(Firsts(s), a);
    FirstSnoc(s, e, a);
  }

  lemma FirstStepValues(s: seq<Entry>, e: Entry, d: ListDict, u: string)
    requires FirstDictOf(s, d) && e.Tuple? && |e.items| >= 2
    requires u in Add(d, e.items[0], e.items[1]).values
    ensures Add(d, e.items[0], e.items[1]).values[u] == Seconds(s + [e], u)
  {
    DedupElems(Firsts(s));
    FirstSnoc(s, e, u);
    if u !in d.values {
      SecondsAbsent(s, u);
    }
  }

  /** Filing one more entry under its first token. */
  lemma FirstStep(s: seq<Entry>, e: Entry, d: ListDict)
    requires FirstDictOf(s, d) && e.Tuple? && |e.items| >= 2
    ensures FirstDictOf(s + [e], Add(d, e.items[0], e.items[1]))
  {
    var d1 := Add(d, e.items[0], e.items[1]);
    FirstStepKeys(s, e, d);
    AddDomain(d, e.items[0], e.items[1]);
    forall u | u in d1.values ensures d1.values[u] == Seconds(s + [e], u) {
      FirstStepValues(s, e, d, u);
    }
  }

  lemma FirstDictStep(lines: seq<string>, k: nat, k': nat, t: seq<string>, d: ListDict)
    requires k < |lines| && k' == k + 1 && t == Tokens(lines[k]) && |t| >= 2 && FirstDictOf(Slots(lines, k), d)
    ensures FirstDictOf(Slots(lines, k'), Add(d, t[0], t[1]))
  {
    SlotsSnoc(lines, k);
    FirstStep(Slots(lines, k), LineEntry(lines[k]), d);
  }

  lemma FirstDictSpecOk(f: File, d: ListDict)
    requires !ShortLine(f.lines) && FirstDictOf(Slots(f.lines, |f.lines|), d)
    ensures FirstDictSpec(f) == Ok(d)
  {
    var es := Slots(f.lines, |f.lines|);
    DedupElems(Firsts(es));
    assert d.values == map u | u in Firsts(es) :: Seconds(es, u);
  }

  /** The draft dictionary reader (projet.py:3-13). */
  method ReadFirstDict(f: File) returns (r: Result<ListDict>)
    ensures r == FirstDictSpec(f)
  {
    var d := ListDict([], map[]);
    var k := 0;
    while k < |f.lines|
      invariant 0 <= k <= |f.lines|
      invariant FirstDictLoop(f.lines, k) == Ok(d)
    {
      var split := Tokens(f.lines[k]);
      if |split| < 2 {
        ShortLineAt(f.lines, k);
        return Err(IndexError);
      }
      d := Add(d, split[0], split[1]);
      k := k + 1;
    }
    FirstDictLoopDone(f);
    r := Ok(d);
  }

  /** The state of the draft reader's loop after `k` lines. */
  function FirstDictLoop(lines: seq<string>, k: nat): Result<ListDict>
    requires k <= |lines|
  {
    if k == 0 then Ok(ListDict([], map[]))
    else
      var r := FirstDictLoop(lines, k - 1);
      var t := Tokens(lines[k - 1]);
      if r.Err? then r
      else if |t| < 2 then Err(IndexError)
      else Ok(Add(r.value, t[0], t[1]))
  }

  lemma FirstDictLoopLast(lines: seq<string>, k: nat)
    requires 0 < k <= |lines| && FirstDictLoop(lines, k).Ok?
    ensures FirstDictLoop(lines, k - 1).Ok? && |Tokens(lines[k - 1])| >= 2
    ensures var t := Tokens(lines[k - 1]);
      FirstDictLoop(lines, k).value == Add(FirstDictLoop(lines, k - 1).value, t[0], t[1])
  {
  }

  lemma {:induction false} FirstDictLoopPairs(lines: seq<string>, k: nat)
    requires k <= |lines| && FirstDictLoop(lines, k).Ok?
    ensures LongUpTo(lines, k)
  {
    if k > 0 {
      FirstDictLoopLast(lines, k);
      FirstDictLoopPairs(lines, k - 1);
    }
  }

  lemma {:induction false} FirstDictLoopOk(lines: seq<string>, k: nat)
    requires k <= |lines| && FirstDictLoop(lines, k).Ok?
    ensures FirstDictOf(Slots(lines, k), FirstDictLoop(lines, k).value)
  {
    if k > 0 {
      FirstDictLoopLast(lines, k);
      FirstDictLoopOk(lines, k - 1);
      FirstDictStep(lines, k - 1, k, Tokens(lines[k - 1]), FirstDictLoop(lines, k - 1).value);
    }
  }

  lemma FirstDictLoopDone(f: File)
    requires FirstDictLoop(f.lines, |f.lines|).Ok?
    ensures FirstDictLoop(f.lines, |f.lines|) == FirstDictSpec(f)
  {
    FirstDictLoopPairs(f.lines, |f.lines|);
    LongNotShort(f.lines);
    FirstDictLoopOk(f.lines, |f.lines|);
    FirstDictSpecOk(f, FirstDictLoop(f.lines, |f.lines|).value);
  }

  /** The keys are the first tokens, each once, in order of first
      appearance; a name that only ever appears second is no key. */
  lemma FirstDictKeys(f: File, v: string)
    requires FirstDictSpec(f).Ok?
    ensures var d := FirstDictSpec(f).value; var x := Firsts(Slots(f.lines, |f.lines|));
      && Distinct(d.keys) && d.values.Keys == Elems(d.keys)
      && (forall u :: u in d.keys <==> u in x)
      && (v in d.keys <==> exists k | 0 <= k < |f.lines| :: Tokens(f.lines[k])[0] == v)
      && (forall i, j | 0 <= i < j < |d.keys| :: IndexOf(x, d.keys[i]) < IndexOf(x, d.keys[j]))
  {
    var es := Slots(f.lines, |f.lines|);
    DedupElems(Firsts(es));
    DedupOrder(Firsts(es));
    forall i | 0 <= i < |es| ensures es[i].Tuple? && |es[i].items| >= 2 && es[i].items[0] == Tokens(f.lines[i])[0] {
      assert !(|Tokens(f.lines[i])| < 2);
    }
    FirstsAt(es, v);
  }

  /** `u` is a first token exactly when some entry starts with it. */
  lemma {:induction false} FirstsAt(l: seq<Entry>, u: string)
    requires forall i | 0 <= i < |l| :: l[i].Tuple? && |l[i].items| >= 2
    ensures u in Firsts(l) <==> exists k | 0 <= k < |l| :: l[k].items[0] == u
  {
    if l != [] {
      var p := l[..|l| - 1];
      FirstsAt(p, u);
      if u in Firsts(p) {
        var k :| 0 <= k < |p| && p[k].items[0] == u;
        assert l[k] == p[k];
      }
      if exists k | 0 <= k < |l| :: l[k].items[0] == u {
        var k :| 0 <= k < |l| && l[k].items[0] == u;
        if k < |p| {
          assert p[k] == l[k];
        }
      }
    }
  }

  /** The total length of the value lists of the first tokens. */
  function SecondCount(ks: seq<string>, l: seq<Entry>): nat {
    if ks == [] then 0 else |Seconds(l, ks[0])| + SecondCount(ks[1..], l)
  }

  lemma {:induction false} SecondCountSnoc(ks: seq<string>, l: seq<Entry>, e: Entry)
    requires Distinct(ks) && e.Tuple? && |e.items| >= 2
    ensures SecondCount(ks, l + [e]) == SecondCount(ks, l) + (if e.items[0] in ks then 1 else 0)
  {
    if ks != [] {
      FirstSnoc(l, e, ks[0]);
      SecondCountSnoc(ks[1..], l, e);
      assert ks == [ks[0]] + ks[1..];
    }
  }

  lemma {:induction false} SecondCountEmpty(ks: seq<string>)
    ensures SecondCount(ks, []) == 0
  {
    if ks != [] {
      SecondCountEmpty(ks[1..]);
    }
  }

  /** Every entry is filed once, under its first token. */
  lemma {:induction false} SecondTotal(ks: seq<string>, l: seq<Entry>)
    requires Distinct(ks)
    requires forall i | 0 <= i < |l| :: l[i].Tuple? && |l[i].items| >= 2
    requires forall x | x in Firsts(l) :: x in ks
    ensures SecondCount(ks, l) == |l|
  {
    if l == [] {
      SecondCountEmpty(ks);
    } else {
      var p := l[..|l| - 1];
      var e := l[|l| - 1];
      assert l == p + [e];
      FirstSnoc(p, e, e.items[0]);
      SecondTotal(ks, p);
      SecondCountSnoc(ks, p, e);
    }
  }

  lemma {:induction false} ValueCountIsSecondCount(ks: seq<string>, m: map<string, seq<string>>, l: seq<Entry>)
    requires forall u | u in ks :: u in m && m[u] == Seconds(l, u)
    ensures ValueCount(ks, m) == SecondCount(ks, l)
  {
    if ks != [] {
      ValueCountIsSecondCount(ks[1..], m, l);
    }
  }

  /** The value lists hold one name per data line. */
  lemma FirstDictTotal(f: File)
    requires FirstDictSpec(f).Ok?
    ensures ValueCount(FirstDictSpec(f).value.keys, FirstDictSpec(f).value.values) == |f.lines|
  {
    var es := Slots(f.lines, |f.lines|);
    var d := FirstDictSpec(f).value;
    DedupElems(Firsts(es));
    forall i | 0 <= i < |es| ensures es[i].Tuple? && |es[i].items| >= 2 {
      assert !(|Tokens(f.lines[i])| < 2);
    }
    SecondTotal(d.keys, es);
    ValueCountIsSecondCount(d.keys, d.values, es);
  }
}
