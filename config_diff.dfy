/** compare_configs.py: `find_differences` pairs up the lines of two
    configuration files by position and reports each pair that differs, and
    `write_to_csv` lays the report out as CSV rows. The files are their
    `readlines()` lists, line terminators included; the CSV quoting is left
    to the `csv` module. */
module ConfigDiff {
  import opened Common

  function Min(a: nat, b: nat): nat { if a <= b then a else b }

  /** The positions `zip` reaches at which the two lines differ, in order. */
  function DiffPositions(c1: seq<string>, c2: seq<string>, n: nat): (r: seq<nat>)
    requires n <= |c1| && n <= |c2|
    ensures forall j :: 0 <= j < |r| ==> r[j] < n && c1[r[j]] != c2[r[j]]
    ensures forall j, k :: 0 <= j < k < |r| ==> r[j] < r[k]
    ensures forall i :: 0 <= i < n && c1[i] != c2[i] ==> i in r
  {
    if n == 0 then []
    else if c1[n - 1] != c2[n - 1] then DiffPositions(c1, c2, n - 1) + [n - 1]
    else DiffPositions(c1, c2, n - 1)
  }

  /** The pair reported for two differing lines. */
  function Pair(line1: string, line2: string): (string, string) {
    (Strip(line1), Strip(line2))
  }

  /** The pairs the loop appends after its first `n` steps. */
  function Diffs(c1: seq<string>, c2: seq<string>, n: nat): (r: seq<(string, string)>)
    requires n <= |c1| && n <= |c2|
    ensures |r| <= n
  {
    if n == 0 then []
    else if c1[n - 1] != c2[n - 1] then Diffs(c1, c2, n - 1) + [Pair(c1[n - 1], c2[n - 1])]
    else Diffs(c1, c2, n - 1)
  }

  /** The report lists, in line order, the stripped forms of exactly the
      positions where the raw lines differ; lines past the end of the shorter
      file are never looked at. */
  lemma {:induction false} DiffsMeaning(c1: seq<string>, c2: seq<string>, n: nat)
    requires n <= |c1| && n <= |c2|
    ensures |Diffs(c1, c2, n)| == |DiffPositions(c1, c2, n)|
    ensures forall j :: 0 <= j < |Diffs(c1, c2, n)| ==>
      Diffs(c1, c2, n)[j] == Pair(c1[DiffPositions(c1, c2, n)[j]], c2[DiffPositions(c1, c2, n)[j]])
  {
    if n > 0 {
      DiffsMeaning(c1, c2, n - 1);
      DiffsStep(c1, c2, n, Diffs(c1, c2, n - 1), DiffPositions(c1, c2, n - 1));
    }
  }

  /** One more position keeps the report and the positions in step. */
  lemma DiffsStep(c1: seq<string>, c2: seq<string>, n: nat, d: seq<(string, string)>, pos: seq<nat>)
    requires 0 < n <= |c1| && n <= |c2|
    requires d == Diffs(c1, c2, n - 1) && pos == DiffPositions(c1, c2, n - 1)
    requires |d| == |pos| && forall j :: 0 <= j < |d| ==> pos[j] < n - 1 && d[j] == Pair(c1[pos[j]], c2[pos[j]])
    ensures |Diffs(c1, c2, n)| == |DiffPositions(c1, c2, n)|
    ensures forall j :: 0 <= j < |Diffs(c1, c2, n)| ==>
      Diffs(c1, c2, n)[j] == Pair(c1[DiffPositions(c1, c2, n)[j]], c2[DiffPositions(c1, c2, n)[j]])
  {
    DiffsUnfold(c1, c2, n);
    if c1[n - 1] != c2[n - 1] {
      var d', pos' := d + [Pair(c1[n - 1], c2[n - 1])], pos + [n - 1];
      forall j | 0 <= j < |d'|
        ensures d'[j] == Pair(c1[pos'[j]], c2[pos'[j]])
      {
        if j < |d| {
          assert d'[j] == d[j] && pos'[j] == pos[j];
        }
      }
    }
  }

  lemma DiffsUnfold(c1: seq<string>, c2: seq<string>, n: nat)
    requires 0 < n <= |c1| && n <= |c2|
    ensures c1[n - 1] != c2[n - 1] ==> Diffs(c1, c2, n) == Diffs(c1, c2, n - 1) + [Pair(c1[n - 1], c2[n - 1])]
    ensures c1[n - 1] != c2[n - 1] ==> DiffPositions(c1, c2, n) == DiffPositions(c1, c2, n - 1) + [n - 1]
    ensures c1[n - 1] == c2[n - 1] ==> Diffs(c1, c2, n) == Diffs(c1, c2, n - 1)
    ensures c1[n - 1] == c2[n - 1] ==> DiffPositions(c1, c2, n) == DiffPositions(c1, c2, n - 1)
  {
  }

  /** Lines beyond the shorter file play no part: appending any lines to the
      longer file leaves the report as it is. */
  lemma SurplusIgnored(c1: seq<string>, c2: seq<string>, extra: seq<string>)
    requires |c1| <= |c2|
    ensures Diffs(c1, c2 + extra, Min(|c1|, |c2 + extra|)) == Diffs(c1, c2, Min(|c1|, |c2|))
  {
    DiffsPrefix(c1, c2, c2 + extra, |c1|);
  }

  lemma {:induction false} DiffsPrefix(c1: seq<string>, c2: seq<string>, c3: seq<string>, n: nat)
    requires n <= |c1| && n <= |c2| && n <= |c3|
    requires c2[..n] == c3[..n]
    ensures Diffs(c1, c2, n) == Diffs(c1, c3, n)
  {
    if n > 0 {
      assert c2[n - 1] == c2[..n][n - 1] == c3[n - 1];
      assert c2[..n - 1] == c2[..n][..n - 1];
      assert c3[..n - 1] == c3[..n][..n - 1];
      DiffsPrefix(c1, c2, c3, n - 1);
    }
  }

  /** A file compared with itself has no differences. */
  lemma {:induction false} IdenticalNoDiffs(c: seq<string>, n: nat)
    requires n <= |c|
    ensures Diffs(c, c, n) == []
  {
    if n > 0 {
      IdenticalNoDiffs(c, n - 1);
    }
  }

  /** The comparison sees the raw lines but the report shows them stripped:
      the same text followed by different trailing whitespace (a blank before
      the newline, or "\r\n" against "\n") is reported as two equal-looking
      values. */
  lemma StrippedPairLooksEqual(word: string, pad1: string, pad2: string)
    requires word != [] && Stripped(word) && AllSpace(pad1) && AllSpace(pad2) && pad1 != pad2
    ensures Diffs([word + pad1], [word + pad2], 1) == [(word, word)]
  {
    StripPadded(word, pad1);
    StripPadded(word, pad2);
    assert (word + pad1)[|word|..] == pad1 && (word + pad2)[|word|..] == pad2;
  }

  /** `find_differences`. */
  method FindDifferences(config1: seq<string>, config2: seq<string>) returns (differences: seq<(string, string)>)
    ensures differences == Diffs(config1, config2, Min(|config1|, |config2|))
  {
    differences := [];
    var n := Min(|config1|, |config2|);
    for i := 0 to n
      invariant differences == Diffs(config1, config2, i)
    {
      if config1[i] != config2[i] {
        differences := differences + [Pair(config1[i], config2[i])];
      }
    }
  }

  /** `write_to_csv`: the header row, then one two-cell row per difference. */
  function CsvRows(differences: seq<(string, string)>): (r: seq<seq<string>>)
    ensures |r| == |differences| + 1 && r[0] == ["Config 1", "Config 2"]
    ensures forall k :: 0 <= k < |differences| ==> r[k + 1] == [differences[k].0, differences[k].1]
  {
    [["Config 1", "Config 2"]] + seq(|differences|, k requires 0 <= k < |differences| => [differences[k].0, differences[k].1])
  }
}
