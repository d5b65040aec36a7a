/** The edge-list file format: a first line holding the declared number of
    interactions, then one line per interaction whose tokens are separated by a
    single space or tab (`re.split(' |\t', line.rstrip())`). */
module EdgeFile {
  import opened Common

  /** A file as the readers see it: the value `int()` gives for the first line
      (None when `int()` rejects it, as it does for an empty file) and the
      remaining lines, each without its line terminator. */
  datatype File = File(header: Option<nat>, lines: seq<string>)

  /** The separators of `re.split(' |\t', ...)`. */
  predicate IsSep(c: char) {
    c == ' ' || c == '\t'
  }

  /** Python's `str.isspace` for one character: what `rstrip()` removes. */
  predicate IsSpace(c: char) {
    var n := c as int;
    (0x09 <= n <= 0x0d) || (0x1c <= n <= 0x20) || n == 0x85 || n == 0xa0 || n == 0x1680
    || (0x2000 <= n <= 0x200a) || n == 0x2028 || n == 0x2029 || n == 0x202f
    || n == 0x205f || n == 0x3000
  }

  /** Python's `s.rstrip()`: the longest prefix not ending in whitespace, such
      that only whitespace follows it. */
  function RStrip(s: string): (r: string)
    ensures |r| <= |s| && r == s[..|r|]
    ensures r == [] || !IsSpace(r[|r| - 1])
    ensures forall i | |r| <= i < |s| :: IsSpace(s[i])
  {
    if s != [] && IsSpace(s[|s| - 1]) then RStrip(s[..|s| - 1]) else s
  }

  /** Python's `re.split(' |\t', s)`: cut at every single space or tab, so that
      consecutive separators give empty tokens and "" gives [""]. */
  function Split(s: string): (r: seq<string>)
    ensures |r| >= 1
    ensures forall i, k | 0 <= i < |r| && 0 <= k < |r[i]| :: !IsSep(r[i][k])
  {
    if s == [] then [[]]
    else
      var rest := Split(s[1..]);
      if IsSep(s[0]) then [[]] + rest else [[s[0]] + rest[0]] + rest[1..]
  }

  /** The tokens of one data line, as every reader computes them. */
  function Tokens(line: string): seq<string> {
    Split(RStrip(line))
  }

  predicate SepFree(s: string) {
    forall k | 0 <= k < |s| :: !IsSep(s[k])
  }

  /** A protein name that survives a write-and-read cycle: non-empty, without
      whitespace. */
  predicate IsName(s: string) {
    s != [] && forall k | 0 <= k < |s| :: !IsSpace(s[k])
  }

  lemma {:induction false} SplitSepFree(s: string)
    requires SepFree(s)
    ensures Split(s) == [s]
  {
    if s != [] {
      SplitSepFree(s[1..]);
      assert [s[0]] + s[1..] == s;
    }
  }

  lemma {:induction false} SplitAtSep(u: string, c: char, v: string)
    requires SepFree(u) && IsSep(c)
    ensures Split(u + [c] + v) == [u] + Split(v)
  {
    var s := u + [c] + v;
    if u == [] {
      assert s[1..] == v;
    } else {
      assert s[1..] == u[1..] + [c] + v;
      SplitAtSep(u[1..], c, v);
      assert [u[0]] + u[1..] == u;
    }
  }

  /** The line `write_interaction_file_list` emits for a pair (project.py:154). */
  function PairLine(u: string, v: string): string {
    u + " " + v
  }

  /** Two names joined by one separator read back as exactly those two tokens. */
  lemma TokensOfJoined(u: string, c: char, v: string)
    requires IsName(u) && IsName(v) && IsSep(c)
    ensures Tokens(u + [c] + v) == [u, v]
  {
    var line := u + [c] + v;
    assert !IsSpace(line[|line| - 1]);
    assert RStrip(line) == line;
    SplitSepFree(v);
    SplitAtSep(u, c, v);
  }

  /** A line written for two names reads back as exactly those two tokens. */
  lemma TokensOfPairLine(u: string, v: string)
    requires IsName(u) && IsName(v)
    ensures Tokens(PairLine(u, v)) == [u, v]
  {
    TokensOfJoined(u, ' ', v);
  }
}
