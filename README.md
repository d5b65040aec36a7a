# Protein-interaction network (projet_IPP) in Dafny

This project models the core of a small Python repository that handles
protein-protein interaction networks. A network is an undirected graph whose
vertices are protein names. An interaction file has a header line with the
declared number of interactions, then one line per interaction: two names
separated by a space or a tab.

The model covers three layers:

- **The `Interactome` class of interactome.py** (modules `Interactome`,
  `Generators`, `Degrees`, `Components` and their helpers). An object holds
  the network three ways at once: the edge list `int_list`, the adjacency
  dictionary `int_dict` (name to set of names) and the 0/1 matrix
  `int_matrix`, indexed by the list `proteins`. The class is a Dafny `class`
  with those four fields. Its methods are proved against specification
  functions.
  - `build_from_file` reads a file.
  - `build_from_random` is an Erdős–Rényi generator over the unordered pairs.
  - `build_from_scalefree` attaches each new protein to earlier ones with a
    probability proportional to their degree.
  - The queries are the degree queries, density, the local clustering
    coefficient and connected components: `extract_CC`, `compute_CC`,
    `count_CC` and the line contents of `write_CC`.
- **The draft class of Interactome.py** (modules `GeneratorsDraft` and
  `InteractomeDraft`). Its file builder, matrix fill and queries are the same
  as the final class, so they are modelled once. Its two generators differ:
  - the random one walks ordered pairs;
  - the preferential one raises the degree total after every new edge.
  Both act on an object of the final class's model. The test suite
  `test_interactome.py` imports this draft. The facts it expects of its
  six-line example are proved in `InteractomeExamples`.
- **The file functions of project.py and projet.py** (modules `Project`,
  `Projet`, `FileList`, `EdgeFile`, `Matrix`). These are the dict, list and
  matrix readers, the vertex and edge counts, the list writer and the
  `clean_interactome` filter. `projet.py`'s dict reader keys only on the
  first column. Its list reader is the same code as `project.py`'s and is
  modelled once, by `Project.ReadList`. The facts `test_project.py` expects
  of its five-line example are proved in `ProjectExamples`.

Modelling choices:

- **Files.** A file is `File(header: Option<nat>, lines: seq<string>)`. A
  header that `int()` cannot parse (including an empty file) is `None`.
  Lines come without their newline. The readers apply Python's `rstrip()`
  (the whitespace set written out in `EdgeFile.IsSpace`), then
  `re.split(' |\t', …)` as a split at every single space or tab, so runs of
  separators give empty tokens.
- **Exceptions.** They become a `Result`/`Option` with the Python exception
  that would be raised: `ValueError`, `IndexError`, `TypeError`, `KeyError`,
  `ZeroDivisionError`. Every error path of the code is kept:
  - a line with fewer than two tokens (`split[1]`);
  - more lines than the header announces (`int_list[index]`);
  - a line of three or more tokens in the matrix fill (`for x, y in …`);
  - a `0` placeholder left by a header larger than the line count;
  - `max()` of an empty sequence;
  - division by zero;
  - a missing dictionary key.
- **The `[0] * N` list.** It becomes a sequence of `Entry` values: `Zero` is
  the placeholder, and `Tuple(items)` the tuple of a line's tokens.
- **Random numbers.** `random.random()` becomes a parameter
  `draws: nat -> real`, whose k-th value is the k-th call. Integer divisions
  `/` of Python 3 become exact `real` divisions.
- **Dictionary order.** Iteration over `int_dict` follows insertion order. In
  every object reachable by the builders that order is `Dedup(proteins)`.
  `KeyOrder` is proved to list exactly the keys, once each.

Where the repository's own tests or docstrings expect something the code
does not do, the model follows the code:

- test_project.py:98 expects the cleaned file to separate names by a tab.
  project.py:154 writes a space.
- test_project.py:22-24 expect the dictionary reader to give sets of
  partners. project.py:23-30 builds lists that keep duplicates.
- The `build_from_file` docstring (interactome.py:64) asks for a clean file
  but nothing checks it. The file builders keep self-pairs and repeated
  lines in `int_list`. `count_edges` is the raw list length, and `density`
  uses it.

## Model

| member | source | states |
|---|---|---|
| Interactome.VerticesGenerator | interactome.py:9-10 | the n names are the decimal numerals of 0..n-1, in order, and are pairwise different |
| Common.ToDecimalInjective | interactome.py:10 | `str(i)` on naturals is injective: equal numerals come from equal numbers |
| Common.IndexOf | interactome.py:53-54 | `list.index(x)`: the first position holding x |
| Common.IndexOfDistinct | interactome.py:335 | in a duplicate-free list, `index` of the i-th element is i |
| Common.DedupElems | interactome.py:80-90 | appending on first appearance gives a duplicate-free list with exactly the elements of the input |
| Common.DedupOrder | interactome.py:80-90 | the first-appearance list keeps the order of first appearance in the input |
| EdgeFile.RStrip | interactome.py:73 | `rstrip()` removes exactly the trailing whitespace: the result is a prefix, ends in a non-space, and only spaces were dropped |
| EdgeFile.Split | interactome.py:73 | `re.split(' \|\t', s)` gives at least one token, and no token holds a space or tab |
| EdgeFile.SplitAtSep | interactome.py:73 | splitting at the first separator gives the part before it, then the split of the rest |
| EdgeFile.TokensOfPairLine | project.py:154 | a written line `u v` of two names is read back as the tokens [u, v] |
| FileList.LineEntry | project.py:49-50 | a line's entry is a tuple of at least one token |
| FileList.ListSpecShape | project.py:45-53 | the list reader succeeds iff the header parses and there are at most N lines. Otherwise it raises ValueError or IndexError. On success the list has length N, entry i is the tuple of line i's tokens, and the rest are 0 |
| FileList.SlotsMatrixError | interactome.py:52-56 | over listed names, the matrix fill raises ValueError iff some line does not have exactly two tokens, otherwise TypeError iff a `0` placeholder remains, otherwise nothing |
| FileList.SlotsZeros | project.py:46 | trailing `0` placeholders add no neighbour and no endpoint |
| Graph.Pair | interactome.py:102 | the tuple `(u, v)` is a two-name entry |
| Graph.NbrsSnoc | interactome.py:103-104 | appending an edge adds exactly its contribution to each name's neighbour set |
| Graph.NbrsSymmetric | interactome.py:80-90 | v is a neighbour of u iff u is a neighbour of v |
| Graph.NbrsSize | interactome.py:188 | a degree is at most the number of listed edges |
| Graph.NbrsInEndpoints | interactome.py:80-90 | both ends of a neighbour relation are names that occur in the list |
| Graph.DegreeSum | interactome.py:206 | on a simple list over distinct names, the degrees add up to twice the number of edges |
| Graph.SumDegSnoc | interactome.py:121-124 | appending a new edge between different names raises the degree sum by one per listed endpoint |
| Graph.SumDegAtLeast | interactome.py:120 | one protein's degree is at most the degree sum |
| Graph.OffDiagonalCard | interactome.py:265 | a set of k names has k(k-1) ordered pairs of different names |
| Graph.NbrPairsBound | interactome.py:258-265 | without self-neighbours, the counted neighbour pairs are at most k(k-1) |
| Adjacency.AdjEmpty | interactome.py:40 | `dict([(prot, set()) for prot in proteins])` is the adjacency of the empty list, keyed by the proteins |
| Adjacency.AdjSnoc | interactome.py:102-104 | adding both directions of an edge keeps the dictionary equal to the adjacency of the extended list, with the two names added to the keys |
| Adjacency.AdjSymmetric | interactome.py:80-90 | a dictionary in step with an edge list is symmetric |
| Matrix.FillMatrix | interactome.py:48-56 | the matrix is n×n and raises exactly the fill's error. Otherwise cell (i,j) is 1 iff some listed pair joins proteins[i] and proteins[j] in either orientation, and 0 elsewhere |
| Matrix.MatrixErrorSticky | interactome.py:52-54 | the fill stops at the first entry it cannot unpack or index |
| Matrix.LinkedSymmetric | interactome.py:55-56 | the matrix is symmetric |
| Matrix.LinkedIsAdjacent | interactome.py:48-56 | over distinct proteins, cell (i,j) is set iff proteins[j] is a neighbour of proteins[i] |
| Interactome.ConsistentMatrix | interactome.py:52-56 | a list of pairs of listed proteins fills the matrix without error |
| Interactome.ConsistentSnoc | interactome.py:102-104 | recording a pair of listed proteins keeps the object consistent |
| Interactome.FileStep | interactome.py:72-90 | one data line lists its new names once each, first token first, and links them both ways |
| Interactome.MeetTwice | interactome.py:80-90 | meeting the two names of a line extends the first-appearance list by them |
| Interactome.FileNames | interactome.py:80-90 | the first two tokens of every line are listed proteins |
| Interactome.FileValid | interactome.py:60-90 | after a successful file build the dictionary is in step with the list, keyed by the proteins, and every entry is a pair of proteins |
| Interactome.MaxDegreeShape | interactome.py:196-198 | the maximum over the keys bounds every degree. The proteins reaching it are exactly those listed, at least one, once each, in key order |
| Interactome.Interactome.Init | interactome.py:39-41 | the given proteins, an empty set for each, and no interaction |
| Interactome.Interactome.BuildFromFile | interactome.py:60-90 | raises ValueError on a bad header, and IndexError on too many lines or a one-token line. Otherwise `proteins` lists the names in order of first appearance, `int_list` is the list reader's result, and `int_dict` links each line both ways |
| Interactome.Interactome.BuildMatrix | interactome.py:48-56 | a fresh matrix whose error and cells are those of the fill. The other attributes are unchanged |
| Interactome.Interactome.FromFile | interactome.py:35-56 | `Interactome(filename)` raises exactly the builder's or the fill's error. Otherwise the object is consistent, with the file's proteins and list and the matching matrix |
| Interactome.Interactome.BuildFromRandom | interactome.py:93-104 | appends exactly the Erdős–Rényi selection over the pairs i<j and keeps the object consistent. The proteins and matrix are unchanged |
| Interactome.Interactome.RandomRow | interactome.py:100-104 | row i appends the selection of its pairs (i,j), j>i, one draw each |
| Interactome.Interactome.RandomPair | interactome.py:101-104 | pair (i,j) takes the next draw and is appended when that draw is below q |
| Interactome.Interactome.BuildFromScaleFree | interactome.py:106-125 | IndexError below two proteins. Otherwise the list is the preferential-attachment specification's and the object stays consistent |
| Interactome.Interactome.AttachRound | interactome.py:116-125 | round i appends the round specification's edges and counts them, using i draws |
| Interactome.Interactome.AttachStep | interactome.py:118-124 | candidate j extends the round by one draw |
| Interactome.Interactome.Attach | interactome.py:120-124 | the edge (proteins[i], proteins[j]) is appended iff the draw is below deg(proteins[j]) / total_deg |
| Interactome.Interactome.Record | interactome.py:102-104 | appends the pair and adds each name to the other's set, keeping the object consistent |
| Interactome.Interactome.Generate | interactome.py:38-56 | `Interactome(algo=…, proteins=ps)` raises exactly the generator's error. Otherwise it keeps ps and the generated list, and is consistent with its matrix |
| Interactome.Interactome.KeyOrder | interactome.py:196-197 | the dictionary iterates over each key exactly once |
| Interactome.Interactome.CountVertices | interactome.py:162-168 | `len(proteins)`, which over distinct proteins is the number of keys |
| Interactome.Interactome.CountEdges | interactome.py:170-176 | `len(int_list)`. On a simple list over distinct proteins, twice it is the degree sum |
| Interactome.Interactome.Degree | interactome.py:178-188 | KeyError iff p is not a key. In a valid object p is a key iff it is a protein, and the result is the number of p's neighbours in the list |
| Interactome.Interactome.MaxDegree | interactome.py:190-198 | ValueError on an empty network. Otherwise a bound on every degree and exactly the proteins reaching it, nonempty, once each, in dictionary order |
| Interactome.Interactome.AveDegree | interactome.py:200-206 | ZeroDivisionError on an empty network. Otherwise the degree sum over the number of keys |
| Interactome.Interactome.AveDegreeSimple | interactome.py:200-206 | on a simple list the average degree is 2·edges / vertices |
| Interactome.Interactome.CountDegree | interactome.py:208-217 | the number of proteins whose degree is exactly m |
| Interactome.SameDegreeSet | interactome.py:217 | counting keys of degree m in the dictionary counts the proteins of degree m in the list |
| Interactome.Interactome.DegreeCountsTotal | interactome.py:208-217 | when b exceeds the maximum degree, the counts of degrees 0..b-1 add up to the number of vertices |
| Interactome.Interactome.Density | interactome.py:230-238 | ZeroDivisionError below two proteins. Otherwise density·n(n-1) = 2·edges |
| Interactome.Interactome.DensityAtMostOne | interactome.py:230-238 | a simple network over distinct proteins has density in [0, 1] |
| Interactome.Interactome.Clustering | interactome.py:241-265 | the loops compute the coefficient of Degrees.Coefficient: KeyError for an unknown protein, 0 at degree at most 1, otherwise the adjacent ordered neighbour pairs over k(k-1) |
| Interactome.Interactome.CountCommon | interactome.py:260-262 | the inner loop counts the neighbours of n that are neighbours of p |
| Interactome.Interactome.ClusteringBound | interactome.py:253-265 | in a consistent object without self-pairs the coefficient exists and lies in [0, 1] |
| Degrees.Coefficient | interactome.py:253-265 | every error is KeyError, and a key of degree at most 1 gives 0 |
| Degrees.CoefficientOf | interactome.py:258-265 | above degree 1 the divisor is positive and the result is the counted pairs over k(k-1) |
| Degrees.CoefficientBound | interactome.py:253-265 | without self-neighbours the coefficient lies in [0, 1]. On a symmetric dictionary it exists |
| Degrees.NbrPairsStep | interactome.py:259-262 | visiting one more neighbour n adds the neighbours of n among p's neighbours |
| Degrees.MaxDeg | interactome.py:196 | `max(len(…))` bounds every degree and is reached by some key |
| Degrees.OfDegree | interactome.py:197 | the comprehension keeps exactly the keys of degree m |
| Degrees.OfDegreeOrder | interactome.py:197 | those keys come once each, in key order |
| Degrees.CountOfSet | interactome.py:217 | the generator sum counts the set of keys of degree m |
| Degrees.CountsTotal | interactome.py:217 | when every degree is below b, the counts of degrees 0..b-1 add up to the number of keys |
| Degrees.DegSumOf | interactome.py:206 | the dictionary's degree sum equals the list's |
| Degrees.DegreeBound | interactome.py:188 | without self-pairs a degree is at most n-1 |
| Degrees.EdgeBound | interactome.py:238 | a simple list over n distinct names has at most n(n-1)/2 edges |
| Reach.ReachSymmetric | interactome.py:308-318 | on a symmetric dictionary reachability is symmetric |
| Reach.ReachTransitive | interactome.py:308-318 | reachability is transitive |
| Reach.ClosedReach | interactome.py:308-318 | a neighbour-closed set holds everything reachable from its members |
| Reach.Max | interactome.py:277 | `max(lcc)` bounds every id and is one of them |
| Reach.Contiguous | interactome.py:327-339 | ids numbered by first appearance are exactly 1..max |
| Reach.LabellingUnique | interactome.py:321-339 | there is one labelling with ids in order of first appearance and equal ids for mutually reachable proteins |
| Reach.Histogram | interactome.py:278-280 | entry c of the size list counts the proteins with id c+1 |
| Reach.HistogramSum | interactome.py:278-280 | the sizes add up to the number of labelled proteins |
| Components.FrontierStep | interactome.py:308-316 | one turn of the `extract_CC` loop keeps p first, no repeats, only reachable names, and every visited name's neighbours seen |
| Components.FrontierDone | interactome.py:308-318 | an empty queue means `visited` is exactly what is reachable from p |
| Components.ExpandingStep | interactome.py:310-313 | the inner loop queues each unseen neighbour once, after the old queue |
| Components.ComponentWithin | interactome.py:334-335 | the members of a component are proteins, so `proteins.index` succeeds |
| Components.LabelsPartial | interactome.py:327-339 | after i proteins, the stamped labels are the partial labelling with the next id |
| Components.ComponentSizes | interactome.py:270-281 | the number of components is max(lcc) ≥ 1. Every size is ≥ 1 and the sizes add up to the number of proteins, for the unique labelling |
| Components.MemberNames | interactome.py:289-290 | the names added to line c are exactly the proteins with id c, counted by its size, in protein order |
| Interactome.Interactome.ExtractCC | interactome.py:296-318 | KeyError for an unknown protein. Otherwise p first, each name once, and exactly the names reachable from p |
| Interactome.Interactome.Expand | interactome.py:309-313 | queues the unseen neighbours of the head, keeping the old queue as a prefix |
| Interactome.Interactome.ComputeCC | interactome.py:321-339 | the result is the labelling: ids 1..k in order of each component's first protein, equal exactly for mutually reachable proteins |
| Interactome.Interactome.Stamp | interactome.py:334-335 | every member of the component gets id c, everything else is unchanged |
| Interactome.Interactome.CountCC | interactome.py:270-281 | ValueError on an empty network. Otherwise (max id, sizes by histogram), with every size ≥ 1 and the sizes adding up to the protein count |
| Interactome.Interactome.Sizes | interactome.py:278-280 | the increments give the histogram of the ids |
| Interactome.Interactome.WriteCC | interactome.py:284-291 | ValueError on an empty network. Otherwise one line per component: its size, then a tab and each member's name |
| Interactome.Interactome.AppendMembers | interactome.py:289-290 | line c is the size of component c+1 followed by its members |
| Generators.RowsShape | interactome.py:99-100 | the first i rows enumerate distinct pairs (a,b), a<i, a<b<n, i(2n-i-1)/2 of them |
| Generators.UpperPairsShape | interactome.py:99-100 | the double loop visits every pair i<j exactly once, n(n-1)/2 in all |
| Generators.RowsComplete | interactome.py:99-100 | every pair a<b with a<i is visited by row i |
| Generators.SelectSnoc | interactome.py:101-102 | one more pair appends its edge iff its draw is below q |
| Generators.SelectMembers | interactome.py:101-102 | an edge is appended iff some visited pair's draw was below q |
| Generators.SelectLength | interactome.py:101-102 | at most one edge per pair. q above every draw takes all pairs, and q below every draw takes none |
| Generators.SelectSimple | interactome.py:99-104 | over distinct names, increasing distinct index pairs give a simple list |
| Generators.ErdosRenyiShape | interactome.py:93-104 | every edge is (proteins[a], proteins[b]) with a<b. The list is simple over distinct proteins and has at most n(n-1)/2 edges. q ≥ 1 gives all of them and q ≤ 0 none |
| Generators.Round | interactome.py:118-124 | a round appends at most one edge per candidate |
| Generators.RoundPrefix | interactome.py:118-124 | a round only appends |
| Generators.RoundCases | interactome.py:118-124 | candidate j adds nothing or (proteins[i], proteins[j]) |
| Generators.RoundShape | interactome.py:118-124 | every edge of round i joins proteins[i] to an earlier proteins[j] |
| Generators.RoundDegree | interactome.py:120 | over distinct proteins, the degree of proteins[j] weighed in round i is the one from before the round |
| Generators.RoundSimple | interactome.py:118-124 | a round keeps the list simple |
| Generators.ChanceOf | interactome.py:120 | a candidate is taken iff its draw is below deg/total |
| Generators.AttachAfter | interactome.py:120-124 | after the draw the round specification has advanced by that candidate |
| Generators.GrowthAt | interactome.py:111-125 | at the start of every round total_deg = 2·len(int_list), and the list is nonempty |
| Generators.GrowthNext | interactome.py:116-125 | a round advances the total by twice its new edges and uses i draws |
| Generators.GrowthShape | interactome.py:110-125 | the first edge is (proteins[0], proteins[1]), and every later edge joins a protein to an earlier one |
| Generators.GrowthSimple | interactome.py:111-125 | over distinct proteins the generated list is simple |
| Generators.GrowthDegree | interactome.py:119-120 | at the start of every round, any name's degree is at most total_deg |
| Generators.RatioBound | interactome.py:119-120 | over distinct proteins, every ratio weighed deg(proteins[j]) / total_deg is at most 1 |
| Generators.ScaleFreeShape | interactome.py:106-125 | IndexError iff fewer than two proteins. Otherwise it starts with (p0, p1), joins listed proteins only, and is simple over distinct proteins |
| GeneratorsDraft.Cols | Interactome.py:83 | the inner loop visits (a, 0), …, (a, b-1) in order |
| GeneratorsDraft.VisitedExamined | Interactome.py:82-84 | the pairs the draft has drawn for are the full rows then the current row, minus equal names |
| GeneratorsDraft.FullRowsExamined | Interactome.py:82-84 | after a rows, the drawn pairs are the grid of those rows minus equal names |
| GeneratorsDraft.RowsNext | Interactome.py:83-86 | column b takes a draw iff proteins[a] ≠ proteins[b] |
| GeneratorsDraft.ExaminedMembers | Interactome.py:84 | a pair is drawn for iff it is visited and joins different names |
| GeneratorsDraft.OrderedPairsShape | Interactome.py:82-84 | the draft draws exactly once for every ordered pair of different names, n(n-1) draws over distinct names |
| GeneratorsDraft.DraftRandomShape | Interactome.py:81-89 | no self-pair, only listed names, at most one edge per ordered pair, and all n(n-1) when every draw is below q |
| GeneratorsDraft.DraftRandomTwice | Interactome.py:81-89 | on [A, B] with every draw below q the draft appends both (A, B) and (B, A), giving a non-simple list |
| GeneratorsDraft.DraftRound | Interactome.py:99-106 | a draft round only appends, uses m draws, and raises the total by 2 per new edge |
| GeneratorsDraft.DraftGrowthAt | Interactome.py:92-106 | total_deg = 2·len(int_list) at every round start |
| GeneratorsDraft.DraftRatioBound | Interactome.py:102-106 | after every inner step total_deg = 2·len(int_list), so each ratio weighed is at most 1 |
| InteractomeDraft.DraftBuildFromRandom | Interactome.py:81-89 | appends exactly the draft selection over ordered pairs of different names, and keeps the object consistent (hence symmetric) |
| InteractomeDraft.DraftRow | Interactome.py:82-89 | row a appends the selection of its columns |
| InteractomeDraft.DraftColumn | Interactome.py:83-89 | a column of a different name takes the next draw and appends when it is below q |
| InteractomeDraft.DraftRowNext | Interactome.py:86-87 | the append extends the selection by the pair's draw |
| InteractomeDraft.DraftBuildFromScaleFree | Interactome.py:92-106 | IndexError below two proteins. Otherwise the draft specification's list, with the object consistent |
| InteractomeDraft.DraftAttachRound | Interactome.py:99-106 | round i follows the draft round specification, whose total grows inside the loop |
| InteractomeDraft.DraftRoundNext | Interactome.py:102-106 | one candidate advances the draft round, raising the total at once on a new edge |
| InteractomeDraft.DraftGenerate | Interactome.py:22-44 | the draft constructor raises exactly its generator's error and is otherwise consistent with its matrix |
| Project.ReadDict | project.py:16-32 | the dict reader: IndexError on a one-token line, otherwise the specification dictionary |
| Project.DictSpecOf | project.py:16-32 | keys are the names in order of first appearance. Each value lists the partners of its key line by line, duplicates kept |
| Project.DictKeys | project.py:22-30 | keys are distinct and are exactly the names among the first two tokens of each line, in order of first appearance |
| Project.DictAdjacency | project.py:22-30 | as sets the values are the neighbourhoods, and the relation is symmetric |
| Project.PartnersElems | project.py:22-30 | a partner list holds exactly the neighbours the lines induce |
| Project.DictTotal | project.py:22-30 | the value lists hold 2 × (number of lines) names in all |
| Project.ReadList | project.py:45-53 | the list reader is its specification (see FileList.ListSpecShape). projet.py:15-24 is the same code |
| Project.CollectTokens | project.py:67-71 | the set update collects every token of every line |
| Project.Enumerate | project.py:73 | `list(set)` is a duplicate-free enumeration of the set |
| Project.ReadMat | project.py:56-85 | raises exactly the readers' or the fill's error. Otherwise the node list enumerates the tokens once each, and the matrix is n×n with 1 exactly for listed pairs |
| Project.MatOkReaders | project.py:102-106 | when the matrix reader succeeds so do the dict and list readers |
| Project.ReadAll | project.py:88-106 | the matrix reader's error, or the dict, the list, and the matrix with its node list. The node list enumerates the tokens once each, and a matrix cell is 1 exactly when its two nodes are neighbours in the list |
| Project.CountVertices | project.py:114-124 | IndexError on a one-token line, otherwise the number of distinct names |
| Project.CountEdges | project.py:127-137 | the list reader's error, otherwise the header's count |
| Project.WriteLines | project.py:153-154 | one `u v` line per pair, in list order |
| Project.WriteErrorAt | project.py:154 | writing fails iff some entry is not a tuple of at least two names |
| Project.WriteList | project.py:151-154 | the written file: header = list length, then the lines |
| Project.WriteReadRoundTrip | project.py:151-154 | over names without spaces or tabs, reading a written list gives the list back |
| Project.CleanList | project.py:167-173 | IndexError on a one-token line, otherwise the filter applied to the lines in order |
| Project.Clean | project.py:156-175 | `clean_interactome` writes the filtered list |
| Project.CleanSnoc | project.py:172-173 | a pair is kept iff it is not a self-pair and its reverse was not kept |
| Project.CleanOrder | project.py:170-173 | the filter keeps input order and keeps only input pairs |
| Project.CleanPairsShape | project.py:172 | kept pairs are not self-pairs and no reverse precedes a kept pair |
| Project.CleanNoBothOrientations | project.py:172 | the cleaned list never holds a pair and its reverse |
| Project.CleanIdempotent | project.py:167-175 | cleaning a cleaned list changes nothing |
| Project.CleanKeepsRepeats | project.py:172-173 | after any list, a repeat of a 2-tuple already kept is kept again |
| Projet.ReadFirstDict | projet.py:3-13 | the first-column dict reader is its specification |
| Projet.FirstDictKeys | projet.py:9-12 | keys are distinct first-column tokens in order of first appearance. A name is a key iff it starts some line |
| Projet.FirstsAt | projet.py:9 | a name is a first token iff some line starts with it |
| Projet.FirstDictTotal | projet.py:9-12 | the value lists hold one name per line |
| InteractomeExamples.SampleNoError | test_interactome.py:10-14 | the suite's file builds without error |
| InteractomeExamples.SampleList | test_interactome.py:23-24 | the list is the six lines' pairs in order |
| InteractomeExamples.SampleFileProteins | test_interactome.py:28-29 | the proteins are [A, B, C, D, E] |
| InteractomeExamples.SampleObject | test_interactome.py:19-20 | the dictionary is {A:{B,C}, B:{A,C,D}, C:{A,B,E}, D:{B,E}, E:{C,D}} |
| InteractomeExamples.SampleCounts | test_interactome.py:38-45 | 5 vertices and 6 edges |
| InteractomeExamples.SampleDegreeA | test_interactome.py:48-50 | the degree of A is 2 |
| InteractomeExamples.SampleMaxDegree | test_interactome.py:53-55 | the maximum degree is (["B", "C"], 3) |
| InteractomeExamples.SampleAveDegree | test_interactome.py:58-60 | the average degree is 2.4 |
| InteractomeExamples.SampleCountDegree | test_interactome.py:63-65 | three proteins have degree 2 |
| InteractomeExamples.SampleDensity | test_interactome.py:72-74 | the density is 0.6 |
| InteractomeExamples.SampleClustering | test_interactome.py:77-79 | the clustering coefficient of A is 1 |
| ProjectExamples.ExampleList | test_project.py:34-37 | the list of the five-line example is [(A,B), (B,A), (A,A), (A,C), (C,B)] |
| ProjectExamples.ExampleDict | test_project.py:19-24 | three keys [A, B, C], with value lists that keep duplicates |
| ProjectExamples.ExampleMat | test_project.py:48-64 | the matrix reader succeeds and its node set is {A, B, C} |
| ProjectExamples.ExampleCleanPairs | test_project.py:92-98 | cleaning keeps (A,B), (A,C), (C,B) |
| ProjectExamples.ExampleClean | test_project.py:92-98 | the cleaned file is header 3 and the lines `A B`, `A C`, `C B` |
| ProjectExamples.EmptyFile | test_project.py:14-17 | an empty file gives the empty dict, while the list and matrix readers raise ValueError |

## Left out

- File input and output are not modelled. A file is its header and line
  contents; the writers return the lines they would write, without
  `'\n'.join` or `open`.
- Floating point is not modelled: ratios are exact reals, and IEEE-754
  rounding is not.
- `int()` of a negative or signed header is not modelled: a header is a
  natural number or absent.
- `Interactome(...)` with no file and `proteins=None` raises TypeError in
  Python. The model takes a sequence of proteins, so that case does not
  arise.
- The `algo` string is an `Algo` value. An unknown string builds no edges,
  like `NoAlgo`.
- The probability of `build_from_random` is a real, so a `None` can not be
  passed.
- The setters and getters (interactome.py:131-144) carry no logic, and the
  setters can break the builders' invariants.
- `display` and `histogram_degree` only plot or print.
- The `__main__` blocks and the module-level print of projet.py are not
  modelled.
- project_vlb.py is not part of this model: it does not parse as Python
  (project_vlb.py:142-144) and depends on `csv.Sniffer`.
- The draft's file builder, matrix fill and queries (Interactome.py:22-78,
  137-239) are the same code as the final class's. They have no members of
  their own: the `Interactome` class members model both, and the draft
  examples are stated on them.
- Interactome.Interactome.BuildFromScaleFree: in Python the generator would
  run on a list that already holds edges, but the constructor always calls it
  on an empty one. The method requires an empty list.
- Interactome.Interactome.ComputeCC, CountCC and WriteCC require
  duplicate-free proteins. Duplicates can only come from a caller-supplied
  generator list, and `proteins.index` would then stamp only the first copy.
- Generators.RatioBound holds over distinct proteins only. With a repeated
  name in a caller-supplied protein list, the ratio at interactome.py:120 can
  exceed 1: total_deg keeps its round-start value, while edges the round has
  already added, a self-pair among them, count in a later candidate's degree.
- Set iteration order is not fixed. The clustering loop and the `extract_CC`
  scan of a neighbour set pick elements in an arbitrary order, so the
  contracts state only what holds for every order.
- test_project.py:22-24 expects sets of partners. The code builds lists with
  duplicates, which ProjectExamples.ExampleDict states.
- test_project.py:31, 44-45 and 83 expect an empty file to give an empty
  list and an edge count of 0. `int('')` raises ValueError, which
  ProjectExamples.EmptyFile states.
- test_project.py:98 expects tab-separated output. project.py:154 writes a
  space, which ProjectExamples.ExampleClean states.

## Findings

| source | as written | input that shows it | evidently intended | confidence | as-written member | corrected member |
|---|---|---|---|---|---|---|
| Interactome.py:81-89 | the draft random generator draws once for every ordered pair of different names, so a pair can be appended in both orientations | proteins [A, B] with every draw below q: the list becomes [(A, B), (B, A)], which is not simple and gives each name degree 1 from two edges | one draw per unordered pair, as the final interactome.py:99-104 does, giving a simple list | not executed; high, since the final version changes exactly this loop | GeneratorsDraft.DraftRandomTwice | Generators.ErdosRenyiShape |
