/** The six-interaction example of the interactome test suite
    (test_interactome.py:7-11): header 6, then A-B, A-C, B-C, B-D, C-E and
    D-E, tab-separated; and the values the suite expects of the object built
    from it. */
module InteractomeExamples {
  import opened Common
  import opened EdgeFile
  import opened Graph
  import opened Reach
  import opened FileList
  import opened Adjacency
  import opened Degrees
  import opened Interactome
  import Project

  const Sample := File(Some(6), ["A\tB", "A\tC", "B\tC", "B\tD", "C\tE", "D\tE"])

  const SampleEdges := [Pair("A", "B"), Pair("A", "C"), Pair("B", "C"), Pair("B", "D"), Pair("C", "E"), Pair("D", "E")]

  const SampleProteins := ["A", "B", "C", "D", "E"]

  const SampleDict: Adj := map["A" := {"B", "C"}, "B" := {"A", "C", "D"}, "C" := {"A", "B", "E"},
                               "D" := {"B", "E"}, "E" := {"C", "D"}]

  lemma SampleLine0()
    ensures Tokens(Sample.lines[0]) == ["A", "B"]
  {
    assert IsName("A") && IsName("B");
    assert Sample.lines[0] == "A" + ['\t'] + "B";
    TokensOfJoined("A", '\t', "B");
  }

  lemma SampleLine1()
    ensures Tokens(Sample.lines[1]) == ["A", "C"]
  {
    assert IsName("A") && IsName("C");
    assert Sample.lines[1] == "A" + ['\t'] + "C";
    TokensOfJoined("A", '\t', "C");
  }

  lemma SampleLine2()
    ensures Tokens(Sample.lines[2]) == ["B", "C"]
  {
    assert IsName("B") && IsName("C");
    assert Sample.lines[2] == "B" + ['\t'] + "C";
    TokensOfJoined("B", '\t', "C");
  }

  lemma SampleLine3()
    ensures Tokens(Sample.lines[3]) == ["B", "D"]
  {
    assert IsName("B") && IsName("D");
    assert Sample.lines[3] == "B" + ['\t'] + "D";
    TokensOfJoined("B", '\t', "D");
  }

  lemma SampleLine4()
    ensures Tokens(Sample.lines[4]) == ["C", "E"]
  {
    assert IsName("C") && IsName("E");
    assert Sample.lines[4] == "C" + ['\t'] + "E";
    TokensOfJoined("C", '\t', "E");
  }

  lemma SampleLine5()
    ensures Tokens(Sample.lines[5]) == ["D", "E"]
  {
    assert IsName("D") && IsName("E");
    assert Sample.lines[5] == "D" + ['\t'] + "E";
    TokensOfJoined("D", '\t', "E");
  }

  lemma SampleTokens()
    ensures Tokens(Sample.lines[0]) == ["A", "B"]
    ensures Tokens(Sample.lines[1]) == ["A", "C"]
    ensures Tokens(Sample.lines[2]) == ["B", "C"]
    ensures Tokens(Sample.lines[3]) == ["B", "D"]
    ensures Tokens(Sample.lines[4]) == ["C", "E"]
    ensures Tokens(Sample.lines[5]) == ["D", "E"]
  {
    SampleLine0();
    SampleLine1();
    SampleLine2();
    SampleLine3();
    SampleLine4();
    SampleLine5();
  }

  /** The list reading is the six pairs in file order
      (test_interactome.py:23-24). */
  lemma SampleList()
    ensures ListSpec(Sample) == Ok(SampleEdges)
    ensures Slots(Sample.lines, |Sample.lines|) == SampleEdges
  {
    SampleTokens();
    SlotsOfSix(Sample.lines, SampleEdges);
  }

  /** Six lines fill six slots with their entries. */
  lemma SlotsOfSix(lines: seq<string>, es: seq<Entry>)
    requires |lines| == 6 && |es| == 6
    requires LineEntry(lines[0]) == es[0] && LineEntry(lines[1]) == es[1] && LineEntry(lines[2]) == es[2]
    requires LineEntry(lines[3]) == es[3] && LineEntry(lines[4]) == es[4] && LineEntry(lines[5]) == es[5]
    ensures Slots(lines, 6) == es
  {
  }

  lemma SampleEndpoints()
    ensures Endpoints(SampleEdges) == ["A", "B", "A", "C", "B", "C", "B", "D", "C", "E", "D", "E"]
  {
    var l := SampleEdges;
    assert l[..1][..0] == [];
    assert l[..2][..1] == l[..1];
    assert l[..3][..2] == l[..2];
    assert l[..4][..3] == l[..3];
    assert l[..5][..4] == l[..4];
    assert l[..5] == l[..|l| - 1];
    assert Endpoints(l[..1]) == ["A", "B"];
    assert Endpoints(l[..2]) == ["A", "B", "A", "C"];
    assert Endpoints(l[..3]) == ["A", "B", "A", "C", "B", "C"];
    assert Endpoints(l[..4]) == ["A", "B", "A", "C", "B", "C", "B", "D"];
    assert Endpoints(l[..5]) == ["A", "B", "A", "C", "B", "C", "B", "D", "C", "E"];
  }

  lemma SampleDedup()
    ensures Dedup(["A", "B", "A", "C", "B", "C", "B", "D", "C", "E", "D", "E"]) == SampleProteins
  {
    DedupOfSample(["A", "B", "A", "C", "B", "C", "B", "D", "C", "E", "D", "E"], "A", "B", "C", "D", "E");
  }

  /** The endpoints of the sample file, for any five different names. */
  lemma DedupOfSample(s: seq<string>, a: string, b: string, c: string, d: string, e: string)
    requires a != b && a != c && a != d && a != e && b != c && b != d && b != e && c != d && c != e && d != e
    requires |s| == 12 && s[0] == a && s[1] == b && s[2] == a && s[3] == c && s[4] == b && s[5] == c
    requires s[6] == b && s[7] == d && s[8] == c && s[9] == e && s[10] == d && s[11] == e
    ensures Dedup(s) == [a, b, c, d, e]
  {
    DedupOfSampleStart(s, a, b, c);
    DedupOfSampleMiddle(s, a, b, c, d);
    DedupOfSampleEnd(s, a, b, c, d, e);
    assert s[..12] == s;
  }

  /** Lines 1 and 2 of the sample file give `a`, `b`, `c`. */
  lemma DedupOfSampleStart(s: seq<string>, a: string, b: string, c: string)
    requires a != b && a != c && b != c
    requires |s| == 12 && s[0] == a && s[1] == b && s[2] == a && s[3] == c
    ensures Dedup(s[..4]) == [a, b, c]
  {
    assert a !in [];
    DedupNew(s, 1, [], [a]);
    assert b !in [a];
    DedupNew(s, 2, [a], [a, b]);
    DedupSeen(s, 3, [a, b]);
    assert c !in [a, b];
    DedupNew(s, 4, [a, b], [a, b, c]);
  }

  /** Lines 5 and 6 of the sample file add only `e`. */
  lemma DedupOfSampleEnd(s: seq<string>, a: string, b: string, c: string, d: string, e: string)
    requires e != a && e != b && e != c && e != d
    requires |s| == 12 && s[9] == e && s[10] == d && s[11] == e
    requires Dedup(s[..9]) == [a, b, c, d]
    ensures Dedup(s[..12]) == [a, b, c, d, e]
  {
    assert e !in [a, b, c, d];
    DedupNew(s, 10, [a, b, c, d], [a, b, c, d, e]);
    DedupSeen(s, 11, [a, b, c, d, e]);
    DedupSeen(s, 12, [a, b, c, d, e]);
  }

  /** Lines 3 to 5 of the sample file add only `d`. */
  lemma DedupOfSampleMiddle(s: seq<string>, a: string, b: string, c: string, d: string)
    requires d != a && d != b && d != c
    requires |s| == 12 && s[4] == b && s[5] == c && s[6] == b && s[7] == d && s[8] == c
    requires Dedup(s[..4]) == [a, b, c]
    ensures Dedup(s[..9]) == [a, b, c, d]
  {
    DedupSeen(s, 5, [a, b, c]);
    DedupSeen(s, 6, [a, b, c]);
    DedupSeen(s, 7, [a, b, c]);
    assert d !in [a, b, c];
    DedupNew(s, 8, [a, b, c], [a, b, c, d]);
    DedupSeen(s, 9, [a, b, c, d]);
  }

  /** Dedup of a longer prefix whose last name was seen before. */
  lemma DedupSeen(s: seq<string>, k: nat, r: seq<string>)
    requires 0 < k <= |s| && Dedup(s[..k - 1]) == r && s[k - 1] in r
    ensures Dedup(s[..k]) == r
  {
    assert s[..k][..k - 1] == s[..k - 1];
  }

  /** Dedup of a longer prefix whose last name is new. */
  lemma DedupNew(s: seq<string>, k: nat, r: seq<string>, r': seq<string>)
    requires 0 < k <= |s| && Dedup(s[..k - 1]) == r && s[k - 1] !in r && r' == r + [s[k - 1]]
    ensures Dedup(s[..k]) == r'
  {
    assert s[..k][..k - 1] == s[..k - 1];
  }

  /** The proteins are A to E in order of appearance
      (test_interactome.py:28-29). */
  lemma SampleFileProteins()
    ensures FileProteins(Sample) == SampleProteins
  {
    SampleList();
    SampleEndpoints();
    SampleDedup();
  }

  /** Every line holds two names and there are as many lines as the header
      says: building the object raises nothing. */
  lemma SampleNoError()
    ensures FileError(Sample) == None
  {
    SampleTokens();
    PairsOfSix(Sample.lines);
  }

  /** Six lines of two tokens each: none is short and all are pairs. */
  lemma PairsOfSix(lines: seq<string>)
    requires |lines| == 6
    requires |Tokens(lines[0])| == 2 && |Tokens(lines[1])| == 2 && |Tokens(lines[2])| == 2
    requires |Tokens(lines[3])| == 2 && |Tokens(lines[4])| == 2 && |Tokens(lines[5])| == 2
    ensures !Project.ShortLine(lines) && AllPairs(lines, 6)
  {
  }

  /** The neighbour set of a six-entry list is the union of what each
      entry contributes. */
  lemma NbrsOfSix(l: seq<Entry>, u: string)
    requires |l| == 6
    ensures Nbrs(l, u) == Contrib(l[0], u) + Contrib(l[1], u) + Contrib(l[2], u)
                          + Contrib(l[3], u) + Contrib(l[4], u) + Contrib(l[5], u)
  {
    assert l[..6] == l;
    NbrsFirst(l, u);
    NbrsPrefix(l, 2, u);
    NbrsPrefix(l, 3, u);
    NbrsPrefix(l, 4, u);
    NbrsPrefix(l, 5, u);
    NbrsPrefix(l, 6, u);
  }

  lemma NbrsFirst(l: seq<Entry>, u: string)
    requires 0 < |l|
    ensures Nbrs(l[..1], u) == Contrib(l[0], u)
  {
    assert l[..1][..0] == [];
    assert Nbrs(l[..1], u) == {} + Contrib(l[0], u);
  }

  /** Peeling the last entry off the prefix of length `n`. */
  lemma NbrsPrefix(l: seq<Entry>, n: nat, u: string)
    requires 0 < n <= |l|
    ensures Nbrs(l[..n], u) == Nbrs(l[..n - 1], u) + Contrib(l[n - 1], u)
  {
    assert l[..n][..n - 1] == l[..n - 1];
  }

  lemma Names()
    ensures "A" != "B" && "A" != "C" && "A" != "D" && "A" != "E"
    ensures "B" != "C" && "B" != "D" && "B" != "E"
    ensures "C" != "D" && "C" != "E" && "D" != "E"
  {
    assert "A"[0] != "B"[0] && "A"[0] != "C"[0] && "A"[0] != "D"[0] && "A"[0] != "E"[0];
    assert "B"[0] != "C"[0] && "B"[0] != "D"[0] && "B"[0] != "E"[0];
    assert "C"[0] != "D"[0] && "C"[0] != "E"[0] && "D"[0] != "E"[0];
  }

  lemma SampleNbrsA()
    ensures Nbrs(SampleEdges, "A") == {"B", "C"}
  {
    Names();
    NbrsOfSix(SampleEdges, "A");
  }

  lemma SampleNbrsB()
    ensures Nbrs(SampleEdges, "B") == {"A", "C", "D"}
  {
    Names();
    NbrsOfSix(SampleEdges, "B");
  }

  lemma SampleNbrsC()
    ensures Nbrs(SampleEdges, "C") == {"A", "B", "E"}
  {
    Names();
    NbrsOfSix(SampleEdges, "C");
  }

  lemma SampleNbrsD()
    ensures Nbrs(SampleEdges, "D") == {"B", "E"}
  {
    Names();
    NbrsOfSix(SampleEdges, "D");
  }

  lemma SampleNbrsE()
    ensures Nbrs(SampleEdges, "E") == {"C", "D"}
  {
    Names();
    NbrsOfSix(SampleEdges, "E");
  }

  lemma SampleNbrs()
    ensures Nbrs(SampleEdges, "A") == {"B", "C"}
    ensures Nbrs(SampleEdges, "B") == {"A", "C", "D"}
    ensures Nbrs(SampleEdges, "C") == {"A", "B", "E"}
    ensures Nbrs(SampleEdges, "D") == {"B", "E"}
    ensures Nbrs(SampleEdges, "E") == {"C", "D"}
  {
    SampleNbrsA();
    SampleNbrsB();
    SampleNbrsC();
    SampleNbrsD();
    SampleNbrsE();
  }

  /** The object built from the sample holds the dictionary
      test_interactome.py:19-20 expects. */
  lemma SampleObject(g: Interactome)
    requires g.Valid() && g.proteins == SampleProteins && g.intList == SampleEdges
    ensures g.intDict == SampleDict
  {
    SampleKeys();
    SampleNbrs();
    SampleDictOf(g.intDict, g.intList);
  }

  /** A dictionary on the five names that maps each to its neighbours in
      a list with the sample's neighbour sets is the expected one. */
  lemma SampleDictOf(d: Adj, l: seq<Entry>)
    requires d.Keys == {"A", "B", "C", "D", "E"}
    requires forall u | u in d :: d[u] == Nbrs(l, u)
    requires Nbrs(l, "A") == {"B", "C"} && Nbrs(l, "B") == {"A", "C", "D"}
    requires Nbrs(l, "C") == {"A", "B", "E"} && Nbrs(l, "D") == {"B", "E"} && Nbrs(l, "E") == {"C", "D"}
    ensures d == SampleDict
  {
    SampleDictAt();
    assert d.Keys == SampleDict.Keys;
    assert d["A"] == SampleDict["A"] && d["B"] == SampleDict["B"] && d["C"] == SampleDict["C"];
    assert d["D"] == SampleDict["D"] && d["E"] == SampleDict["E"];
  }

  lemma SampleDictAt()
    ensures SampleDict.Keys == {"A", "B", "C", "D", "E"}
    ensures SampleDict["A"] == {"B", "C"} && SampleDict["B"] == {"A", "C", "D"}
    ensures SampleDict["C"] == {"A", "B", "E"} && SampleDict["D"] == {"B", "E"} && SampleDict["E"] == {"C", "D"}
  {
    Names();
  }

  lemma SampleKeys()
    ensures Elems(SampleProteins) == {"A", "B", "C", "D", "E"}
  {
    var ps := SampleProteins;
    assert ps[0] == "A" && ps[1] == "B" && ps[2] == "C" && ps[3] == "D" && ps[4] == "E";
  }

  /** Five vertices, six edges, and A has degree 2
      (test_interactome.py:38-50). */
  lemma SampleCounts(g: Interactome)
    requires g.Valid() && g.proteins == SampleProteins && g.intList == SampleEdges
    ensures g.CountVertices() == 5 && g.CountEdges() == 6
  {
  }

  lemma SampleDegreeA(g: Interactome)
    requires g.Valid() && g.proteins == SampleProteins && g.intList == SampleEdges
    ensures g.Degree("A") == Ok(2)
  {
    SampleNbrsA();
    Names();
    assert "A" in g.proteins;
  }

  lemma SampleDistinct()
    ensures Distinct(SampleProteins)
  {
  }

  lemma SampleSuffixes()
    ensures SampleProteins[1..] == ["B", "C", "D", "E"]
    ensures SampleProteins[1..][1..] == ["C", "D", "E"]
    ensures SampleProteins[1..][1..][1..] == ["D", "E"]
    ensures SampleProteins[1..][1..][1..][1..] == ["E"]
    ensures SampleProteins[1..][1..][1..][1..][1..] == []
  {
  }

  /** The sizes of the neighbour sets of the example. */
  lemma SampleDegrees()
    ensures |SampleDict["A"]| == 2 && |SampleDict["B"]| == 3 && |SampleDict["C"]| == 3
    ensures |SampleDict["D"]| == 2 && |SampleDict["E"]| == 2
  {
    SampleDictAt();
    NeighbourSizes();
  }

  /** The sizes of the five neighbour sets of the example. */
  lemma NeighbourSizes()
    ensures |{"B", "C"}| == 2 && |{"A", "C", "D"}| == 3 && |{"A", "B", "E"}| == 3
    ensures |{"B", "E"}| == 2 && |{"C", "D"}| == 2
  {
    Names();
  }

  /** A dictionary whose five keys have the degrees of the example. */
  predicate SampleShaped(d: Adj) {
    && "A" in d && "B" in d && "C" in d && "D" in d && "E" in d
    && |d["A"]| == 2 && |d["B"]| == 3 && |d["C"]| == 3 && |d["D"]| == 2 && |d["E"]| == 2
  }

  lemma SampleDictShaped()
    ensures SampleShaped(SampleDict)
  {
    SampleDictAt();
    SampleDegrees();
  }

  /** The largest degree is 3: B has it and no name has more. */
  lemma SampleMax(d: Adj)
    requires SampleShaped(d)
    ensures MaxDeg(SampleProteins, d) == 3
  {
    var ps := SampleProteins;
    SampleMembers();
    var m := MaxDeg(ps, d);
    assert |d["B"]| <= m;
    var k :| k in ps && |d[k]| == m;
  }

  /** Membership in the protein list. */
  lemma SampleMembers()
    ensures forall k :: k in SampleProteins <==> k == "A" || k == "B" || k == "C" || k == "D" || k == "E"
  {
  }

  /** B and C are the names of degree 3. */
  lemma SampleOfDegree(d: Adj)
    requires SampleShaped(d)
    ensures OfDegree(SampleProteins, d, 3) == ["B", "C"]
  {
    SampleSuffixes();
    assert OfDegree(["E"], d, 3) == [];
    assert OfDegree(["D", "E"], d, 3) == [];
    assert OfDegree(["C", "D", "E"], d, 3) == ["C"];
    assert OfDegree(["B", "C", "D", "E"], d, 3) == ["B", "C"];
  }

  /** A, D and E have degree 2. */
  lemma SampleTwos(d: Adj)
    requires SampleShaped(d)
    ensures CountOf(SampleProteins, d, 2) == 3
  {
    SampleSuffixes();
    assert CountOf(["E"], d, 2) == 1;
    assert CountOf(["D", "E"], d, 2) == 2;
    assert CountOf(["C", "D", "E"], d, 2) == 2;
  }

  /** The sizes of the neighbour sets the edge list gives. */
  lemma SampleNbrSizes()
    ensures |Nbrs(SampleEdges, "A")| == 2 && |Nbrs(SampleEdges, "B")| == 3 && |Nbrs(SampleEdges, "C")| == 3
    ensures |Nbrs(SampleEdges, "D")| == 2 && |Nbrs(SampleEdges, "E")| == 2
  {
    SampleNbrs();
    NeighbourSizes();
  }

  /** The degrees add up to 12. */
  lemma SampleDegreeSum()
    ensures SumDeg(SampleProteins, SampleEdges) == 12
  {
    SampleSuffixes();
    SampleNbrSizes();
    var l := SampleEdges;
    assert SumDeg(["E"], l) == 2;
    assert SumDeg(["D", "E"], l) == 4;
    assert SumDeg(["C", "D", "E"], l) == 7;
    assert SumDeg(["B", "C", "D", "E"], l) == 10;
  }

  /** The maximum degree is 3, held by B and C (test_interactome.py:53-55). */
  lemma SampleMaxDegree(g: Interactome)
    requires g.Valid() && g.proteins == SampleProteins && g.intList == SampleEdges
    ensures g.MaxDegree() == Ok((["B", "C"], 3))
  {
    SampleObject(g);
    SampleDistinct();
    DedupDistinct(SampleProteins);
    SampleDictShaped();
    SampleMax(g.intDict);
    SampleOfDegree(g.intDict);
  }

  /** The five keys of the example dictionary. */
  lemma SampleSize(g: Interactome)
    requires g.Valid() && g.proteins == SampleProteins && g.intList == SampleEdges
    ensures |g.intDict| == 5 && g.KeyOrder() == SampleProteins
  {
    SampleKeys();
    SampleKeyCount();
    assert |g.intDict| == |g.intDict.Keys|;
    SampleDistinct();
    DedupDistinct(SampleProteins);
  }

  lemma SampleKeyCount()
    ensures |Elems(SampleProteins)| == 5
  {
    SampleDistinct();
    DistinctCard(SampleProteins);
  }

  /** The average degree is 12 / 5 = 2.4 (test_interactome.py:58-60). */
  lemma SampleAveDegree(g: Interactome)
    requires g.Valid() && g.proteins == SampleProteins && g.intList == SampleEdges
    ensures g.AveDegree() == Ok(2.4)
  {
    SampleSize(g);
    SampleDegreeSum();
  }

  /** Three proteins have degree 2 (test_interactome.py:63-65). */
  lemma SampleCountDegree(g: Interactome)
    requires g.Valid() && g.proteins == SampleProteins && g.intList == SampleEdges
    ensures g.CountDegree(2) == 3
  {
    SampleSize(g);
    SampleObject(g);
    SampleDictShaped();
    SampleTwos(g.intDict);
  }

  /** The density is 2 * 6 / (5 * 4) = 0.6 (test_interactome.py:72-74). */
  lemma SampleDensity(g: Interactome)
    requires g.proteins == SampleProteins && g.intList == SampleEdges
    ensures g.Density() == Ok(0.6)
  {
  }

  /** The two neighbours B and C of A are linked both ways. */
  lemma SamplePairsOfA()
    ensures NbrPairs(SampleDict, SampleDict["A"], SampleDict["A"]) == {("B", "C"), ("C", "B")}
  {
    Names();
    var d := SampleDict;
    var nb := d["A"];
    assert nb == {"B", "C"};
    forall x | x in NbrPairs(d, nb, nb) ensures x == ("B", "C") || x == ("C", "B") {
      assert x.0 in nb && x.1 in d[x.0] && x.1 in nb;
    }
    assert ("B", "C") in NbrPairs(d, nb, nb) by { assert "C" in d["B"]; }
    assert ("C", "B") in NbrPairs(d, nb, nb) by { assert "B" in d["C"]; }
  }

  /** The clustering coefficient of A is 1: its two neighbours are
      adjacent (test_interactome.py:77-79). `Clustering` returns this
      value by its contract. */
  lemma SampleClustering()
    ensures Coefficient(SampleDict, "A") == Ok(1.0)
  {
    Names();
    SamplePairsOfA();
    var d := SampleDict;
    assert d["A"] == {"B", "C"};
    assert |d["A"]| == 2;
    assert forall n | n in d["A"] :: n in d;
    assert ("B", "C") != ("C", "B");
    assert |{("B", "C"), ("C", "B")}| == 2;
  }
}
