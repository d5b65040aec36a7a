/** The five-line example of the project.py test suite (test_project.py:10):
    header 5, then A-B, B-A, A-A, A-C and C-B, tab-separated. */
module ProjectExamples {
  import opened Common
  import opened EdgeFile
  import opened Graph
  import opened FileList
  import opened Project

  const Example := File(Some(5), ["A\tB", "B\tA", "A\tA", "A\tC", "C\tB"])

  lemma ExampleLine0()
    ensures Tokens(Example.lines[0]) == ["A", "B"]
  {
    assert IsName("A") && IsName("B");
    assert Example.lines[0] == "A" + ['\t'] + "B";
    TokensOfJoined("A", '\t', "B");
  }

  lemma ExampleLine1()
    ensures Tokens(Example.lines[1]) == ["B", "A"]
  {
    assert IsName("B") && IsName("A");
    assert Example.lines[1] == "B" + ['\t'] + "A";
    TokensOfJoined("B", '\t', "A");
  }

  lemma ExampleLine2()
    ensures Tokens(Example.lines[2]) == ["A", "A"]
  {
    assert IsName("A");
    assert Example.lines[2] == "A" + ['\t'] + "A";
    TokensOfJoined("A", '\t', "A");
  }

  lemma ExampleLine3()
    ensures Tokens(Example.lines[3]) == ["A", "C"]
  {
    assert IsName("A") && IsName("C");
    assert Example.lines[3] == "A" + ['\t'] + "C";
    TokensOfJoined("A", '\t', "C");
  }

  lemma ExampleLine4()
    ensures Tokens(Example.lines[4]) == ["C", "B"]
  {
    assert IsName("C") && IsName("B");
    assert Example.lines[4] == "C" + ['\t'] + "B";
    TokensOfJoined("C", '\t', "B");
  }

  lemma ExampleTokens()
    ensures Tokens(Example.lines[0]) == ["A", "B"]
    ensures Tokens(Example.lines[1]) == ["B", "A"]
    ensures Tokens(Example.lines[2]) == ["A", "A"]
    ensures Tokens(Example.lines[3]) == ["A", "C"]
    ensures Tokens(Example.lines[4]) == ["C", "B"]
  {
    ExampleLine0();
    ExampleLine1();
    ExampleLine2();
    ExampleLine3();
    ExampleLine4();
  }

  const ExamplePairs := [Pair("A", "B"), Pair("B", "A"), Pair("A", "A"), Pair("A", "C"), Pair("C", "B")]

  /** Five lines fill five slots with their entries. */
  lemma SlotsOfFive(lines: seq<string>, es: seq<Entry>)
    requires |lines| == 5 && |es| == 5
    requires LineEntry(lines[0]) == es[0] && LineEntry(lines[1]) == es[1] && LineEntry(lines[2]) == es[2]
    requires LineEntry(lines[3]) == es[3] && LineEntry(lines[4]) == es[4]
    ensures Slots(lines, 5) == es
  {
  }

  /** Five lines of two tokens each: none is short and all are pairs. */
  lemma PairsOfFive(lines: seq<string>)
    requires |lines| == 5
    requires |Tokens(lines[0])| == 2 && |Tokens(lines[1])| == 2 && |Tokens(lines[2])| == 2
    requires |Tokens(lines[3])| == 2 && |Tokens(lines[4])| == 2
    ensures !ShortLine(lines) && AllPairs(lines, 5)
  {
  }

  lemma ExampleSlots()
    ensures Slots(Example.lines, |Example.lines|) == ExamplePairs
  {
    ExampleTokens();
    SlotsOfFive(Example.lines, ExamplePairs);
  }

  /** The list reading is the five pairs in file order, so `count_edges` is 5
      (test_project.py:36-37, 88). */
  lemma ExampleList()
    ensures ListSpec(Example) == Ok(ExamplePairs)
  {
    ExampleSlots();
  }

  /** Peeling the last entry off the prefix of length `n`. */
  lemma EndpointsPrefix(l: seq<Entry>, n: nat)
    requires 0 < n <= |l| && IsPair(l[n - 1])
    ensures Endpoints(l[..n]) == Endpoints(l[..n - 1]) + [l[n - 1].items[0], l[n - 1].items[1]]
  {
    assert l[..n][..n - 1] == l[..n - 1];
  }

  lemma ExampleEndpoints()
    ensures Endpoints(ExamplePairs) == ["A", "B", "B", "A", "A", "A", "A", "C", "C", "B"]
  {
    var l := ExamplePairs;
    assert l[..0] == [] && l[..5] == l;
    EndpointsPrefix(l, 1);
    EndpointsPrefix(l, 2);
    EndpointsPrefix(l, 3);
    EndpointsPrefix(l, 4);
    EndpointsPrefix(l, 5);
  }

  lemma ExampleEntries()
    ensures Slots(Example.lines, |Example.lines|) == ExamplePairs
    ensures Endpoints(ExamplePairs) == ["A", "B", "B", "A", "A", "A", "A", "C", "C", "B"]
  {
    ExampleSlots();
    ExampleEndpoints();
  }

  lemma ExampleDedup()
    ensures Dedup(["A", "B", "B", "A", "A", "A", "A", "C", "C", "B"]) == ["A", "B", "C"]
  {
    var x := ["A", "B", "B", "A", "A", "A", "A", "C", "C", "B"];
    assert Dedup(x[..1]) == ["A"];
    assert x[..2][..1] == x[..1];
    assert Dedup(x[..2]) == ["A", "B"];
    assert x[..3][..2] == x[..2];
    assert Dedup(x[..3]) == ["A", "B"];
    assert x[..4][..3] == x[..3];
    assert Dedup(x[..4]) == ["A", "B"];
    assert x[..5][..4] == x[..4];
    assert Dedup(x[..5]) == ["A", "B"];
    assert x[..6][..5] == x[..5];
    assert Dedup(x[..6]) == ["A", "B"];
    assert x[..7][..6] == x[..6];
    assert Dedup(x[..7]) == ["A", "B"];
    assert x[..8][..7] == x[..7];
    assert Dedup(x[..8]) == ["A", "B", "C"];
    assert x[..9][..8] == x[..8];
    assert Dedup(x[..9]) == ["A", "B", "C"];
    assert x[..9] == x[..|x| - 1];
  }

  lemma ExamplePartnersA()
    ensures Partners(ExamplePairs, "A") == ["B", "B", "A", "A", "C"]
  {
    var l := ExamplePairs;
    assert l[..1][..0] == [];
    assert l[..1] == [Pair("A", "B")];
    assert l[..2][..1] == l[..1];
    assert l[..3][..2] == l[..2];
    assert l[..4][..3] == l[..3];
    assert l[..4] == l[..|l| - 1];
    assert Partners(l[..1], "A") == ["B"];
    assert Partners(l[..2], "A") == ["B", "B"];
    assert Partners(l[..3], "A") == ["B", "B", "A", "A"];
  }

  lemma ExamplePartnersBC()
    ensures Partners(ExamplePairs, "B") == ["A", "A", "C"]
    ensures Partners(ExamplePairs, "C") == ["A", "B"]
  {
    var l := ExamplePairs;
    assert l[..1][..0] == [];
    assert l[..1] == [Pair("A", "B")];
    assert l[..2][..1] == l[..1];
    assert l[..3][..2] == l[..2];
    assert l[..4][..3] == l[..3];
    assert l[..4] == l[..|l| - 1];
    assert Partners(l[..1], "B") == ["A"];
    assert Partners(l[..2], "B") == ["A", "A"];
    assert Partners(l[..3], "B") == ["A", "A"];
    assert Partners(l[..4], "B") == ["A", "A"];
    assert Partners(l[..1], "C") == [];
    assert Partners(l[..2], "C") == [];
    assert Partners(l[..3], "C") == [];
    assert Partners(l[..4], "C") == ["A"];
  }

  lemma ExampleNoShortLine()
    ensures !ShortLine(Example.lines) && Slots(Example.lines, |Example.lines|) == ExamplePairs
  {
    ExampleSlots();
    ExampleTokens();
    PairsOfFive(Example.lines);
  }

  /** The dictionary reading: keys A, B, C in order of appearance, with the
      partner lists that keep every duplicate; read as sets they are the
      neighbourhoods test_project.py:22-24 expects, and there are three keys,
      so `count_vertices` is 3 (test_project.py:21, 76). */
  lemma ExampleDict()
    ensures DictSpec(Example).Ok?
    ensures var d := DictSpec(Example).value;
      && d.keys == ["A", "B", "C"] && d.values.Keys == {"A", "B", "C"}
      && d.values["A"] == ["B", "B", "A", "A", "C"]
      && d.values["B"] == ["A", "A", "C"]
      && d.values["C"] == ["A", "B"]
  {
    ExampleNoShortLine();
    DictSpecOf(Example, ExamplePairs);
    ExampleEntries();
    EndpointNames("A", "B", "C");
    ExampleDedup();
    ExamplePartnersA();
    ExamplePartnersBC();
  }

  /** Peeling the last line off the prefix of length `n`. */
  lemma TokenSetPrefix(ls: seq<string>, n: nat)
    requires 0 < n <= |ls|
    ensures TokenSet(ls[..n]) == TokenSet(ls[..n - 1]) + Elems(Tokens(ls[n - 1]))
  {
    assert ls[..n][..n - 1] == ls[..n - 1];
  }

  /** The tokens of five lines are those of each line. */
  lemma TokenSetOfFive(ls: seq<string>)
    requires |ls| == 5
    ensures TokenSet(ls) == Elems(Tokens(ls[0])) + Elems(Tokens(ls[1])) + Elems(Tokens(ls[2]))
                            + Elems(Tokens(ls[3])) + Elems(Tokens(ls[4]))
  {
    assert ls[..5] == ls;
    assert ls[..1][..0] == [];
    TokenSetPrefix(ls, 1);
    TokenSetPrefix(ls, 2);
    TokenSetPrefix(ls, 3);
    TokenSetPrefix(ls, 4);
    TokenSetPrefix(ls, 5);
  }

  /** The names of two-name lists. */
  lemma ElemsTwo(u: string, v: string)
    ensures Elems([u, v]) == {u, v}
  {
  }

  lemma ExampleTokenSet()
    ensures TokenSet(Example.lines) == {"A", "B", "C"}
  {
    ExampleTokens();
    TokenSetOfFive(Example.lines);
    ElemsTwo("A", "B");
    ElemsTwo("B", "A");
    ElemsTwo("A", "A");
    ElemsTwo("A", "C");
    ElemsTwo("C", "B");
    UnionOfPairs("A", "B", "C");
  }

  lemma EndpointNames(a: string, b: string, c: string)
    ensures Elems([a, b, b, a, a, a, a, c, c, b]) == {a, b, c}
  {
  }

  lemma UnionOfPairs(a: string, b: string, c: string)
    ensures {a, b} + {b, a} + {a, a} + {a, c} + {c, b} == {a, b, c}
  {
  }

  /** A file whose list reading succeeds, whose lines are all pairs and
      which has no fewer lines than its header says reads as a matrix. */
  lemma MatOk(f: File)
    requires ListSpec(f).Ok? && AllPairs(f.lines, f.header.value) && |f.lines| >= f.header.value
    ensures MatError(f).None?
  {
  }

  /** The matrix reading succeeds over the three names A, B and C: a 3-by-3
      matrix of 9 cells (test_project.py:50, 64). */
  lemma ExampleMat()
    ensures MatError(Example).None?
    ensures TokenSet(Example.lines) == {"A", "B", "C"}
  {
    ExampleNoShortLine();
    ExampleList();
    MatOk(Example);
    ExampleTokenSet();
  }

  lemma ExampleCleanPairs()
    ensures CleanPairs(ExamplePairs) == [Pair("A", "B"), Pair("A", "C"), Pair("C", "B")]
  {
    var l := ExamplePairs;
    var ab, ac, cb := Pair("A", "B"), Pair("A", "C"), Pair("C", "B");
    assert ab != Pair("C", "A") && ab != Pair("B", "C") && ac != Pair("B", "C") by {
      assert ab.items[0] != "C" && ab.items[1] != "C" && ac.items[0] != "B";
    }
    assert l[..1][..0] == [];
    assert l[..1] == [ab];
    assert l[..2][..1] == l[..1];
    assert l[..3][..2] == l[..2];
    assert l[..4][..3] == l[..3];
    assert l[..4] == l[..|l| - 1];
    assert CleanPairs(l[..1]) == [ab];
    assert CleanPairs(l[..2]) == [ab];
    assert CleanPairs(l[..3]) == [ab];
    assert CleanPairs(l[..4]) == [ab, ac];
  }

  lemma ExampleWrite()
    ensures WriteSpec([Pair("A", "B"), Pair("A", "C"), Pair("C", "B")]) == Ok(File(Some(3), ["A B", "A C", "C B"]))
  {
    var k := [Pair("A", "B"), Pair("A", "C"), Pair("C", "B")];
    WriteErrorAt(k);
    assert LineOf(k[0]) == "A B" && LineOf(k[1]) == "A C" && LineOf(k[2]) == "C B";
    assert WriteLines(k) == ["A B", "A C", "C B"];
  }

  /** Cleaning keeps A-B, A-C and C-B: B-A reverses a kept pair and A-A is a
      self-pair. The output is written with a space between the names. */
  lemma ExampleClean()
    ensures CleanSpec(Example) == Ok(File(Some(3), ["A B", "A C", "C B"]))
  {
    ExampleNoShortLine();
    CleanSpecOf(Example, ExamplePairs);
    ExampleCleanPairs();
    ExampleWrite();
  }

  /** An empty file: the dictionary reader gives `{}`, while the list reader,
      and with it the matrix reader and `count_edges`, raise ValueError
      because `int('')` does (test_project.py:31, 44-45 and 83 expect an
      empty result instead). */
  lemma EmptyFile()
    ensures DictSpec(File(None, [])) == Ok(ListDict([], map[]))
    ensures ListSpec(File(None, [])) == Err(ValueError)
    ensures MatError(File(None, [])) == Some(ValueError)
  {
    assert !ShortLine([]);
    assert Slots([], 0) == [];
  }
}
