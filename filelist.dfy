/** The edge list every reader derives from a file: `[0] * N` for the header
    N, with slot i holding the token tuple of data line i. */
module FileList {
  import opened Common
  import opened EdgeFile
  import opened Graph
  import opened Matrix

  /** The entry a data line becomes: the tuple of its tokens. */
  function LineEntry(line: string): (e: Entry)
    ensures e.Tuple? && |e.items| >= 1
  {
    Tuple(Tokens(line))
  }

  /** `[0] * n` with its first slots overwritten, in order, by the data lines. */
  function Slots(lines: seq<string>, n: nat): seq<Entry> {
    seq(n, i requires 0 <= i < n => if i < |lines| then LineEntry(lines[i]) else Zero)
  }

  /** What `read_interaction_file_list` returns: ValueError when the header is
      not a number, IndexError when there are more data lines than slots. */
  function ListSpec(f: File): Result<seq<Entry>> {
    if f.header.None? then Err(ValueError)
    else if |f.lines| > f.header.value then Err(IndexError)
    else Ok(Slots(f.lines, f.header.value))
  }

  lemma SlotsPrefix(lines: seq<string>, n: nat, k: nat)
    requires k <= n
    ensures Slots(lines, n)[..k] == Slots(lines, k)
  {
  }

  /** A successful read has exactly the header's length; slot i holds the
      tokens of line i, and the slots past the data lines hold the `0`
      placeholder. Reads fail exactly as the header and line count dictate. */
  lemma ListSpecShape(f: File)
    ensures ListSpec(f).Ok? <==> f.header.Some? && |f.lines| <= f.header.value
    ensures ListSpec(f).Err? ==> ListSpec(f).error == if f.header.None? then ValueError else IndexError
    ensures ListSpec(f).Ok? ==>
      var l := ListSpec(f).value;
      && |l| == f.header.value
      && (forall i | 0 <= i < |f.lines| :: l[i] == Tuple(Tokens(f.lines[i])))
      && (forall i | |f.lines| <= i < |l| :: l[i] == Zero)
  {
  }

  /** Every line before slot `n` has exactly two tokens. */
  predicate AllPairs(lines: seq<string>, n: nat) {
    forall k | 0 <= k < n && k < |lines| :: |Tokens(lines[k])| == 2
  }

  /** The first two tokens of every line are names listed in `ps`. */
  predicate NamesIn(ps: seq<string>, lines: seq<string>) {
    forall k | 0 <= k < |lines| && |Tokens(lines[k])| >= 2 :: Tokens(lines[k])[0] in ps && Tokens(lines[k])[1] in ps
  }

  /** Filling the matrix from the slots fails with ValueError at the first line
      that does not have two tokens, and otherwise with TypeError at the first
      `0` placeholder. */
  lemma {:induction false} SlotsMatrixError(ps: seq<string>, lines: seq<string>, n: nat)
    requires NamesIn(ps, lines)
    ensures MatrixError(ps, Slots(lines, n)) ==
      if !AllPairs(lines, n) then Some(ValueError)
      else if |lines| < n then Some(TypeError)
      else None
  {
    if n > 0 {
      SlotsPrefix(lines, n, n - 1);
      SlotsMatrixError(ps, lines, n - 1);
      assert AllPairs(lines, n) <==> AllPairs(lines, n - 1) && (n - 1 < |lines| ==> |Tokens(lines[n - 1])| == 2);
    }
  }

  /** Appending `0` placeholders changes neither the adjacency nor the endpoints. */
  lemma SlotsZeros(lines: seq<string>, n: nat, u: string)
    requires |lines| <= n
    ensures Nbrs(Slots(lines, n), u) == Nbrs(Slots(lines, |lines|), u)
    ensures Endpoints(Slots(lines, n)) == Endpoints(Slots(lines, |lines|))
  {
    NbrsZeros(lines, n, u);
    EndpointsZeros(lines, n);
  }

  /** The slot past the data lines is a placeholder. */
  lemma SlotsLast(lines: seq<string>, n: nat)
    requires |lines| < n
    ensures Slots(lines, n)[..n - 1] == Slots(lines, n - 1) && Slots(lines, n)[n - 1] == Zero
  {
    SlotsPrefix(lines, n, n - 1);
  }

  lemma {:induction false} NbrsZeros(lines: seq<string>, n: nat, u: string)
    requires |lines| <= n
    ensures Nbrs(Slots(lines, n), u) == Nbrs(Slots(lines, |lines|), u)
  {
    if n > |lines| {
      var l := Slots(lines, n);
      SlotsLast(lines, n);
      assert Nbrs(l, u) == Nbrs(l[..n - 1], u) + Contrib(Zero, u);
      NbrsZeros(lines, n - 1, u);
    }
  }

  lemma {:induction false} EndpointsZeros(lines: seq<string>, n: nat)
    requires |lines| <= n
    ensures Endpoints(Slots(lines, n)) == Endpoints(Slots(lines, |lines|))
  {
    if n > |lines| {
      var l := Slots(lines, n);
      SlotsLast(lines, n);
      assert Endpoints(l) == Endpoints(l[..n - 1]) + [];
      EndpointsZeros(lines, n - 1);
    }
  }
}
