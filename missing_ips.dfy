/** missing_ip_list.py: the lines of list1.txt that are not lines of
    list2.txt, each once, sorted and joined by newlines into
    missing_ips.txt, with their number in the closing message. Both files are
    their text, split with `str.splitlines`. */
module MissingIps {
  import opened Common

  /** `set(file1.read().splitlines()) - set(file2.read().splitlines())`. */
  function MissingSet(text1: string, text2: string): set<string> {
    Elements(SplitLines(text1)) - Elements(SplitLines(text2))
  }

  /** The items of `xs` outside `drop`, in order. */
  function Without(xs: seq<string>, drop: set<string>): (r: seq<string>)
    ensures Elements(r) == Elements(xs) - drop
  {
    if xs == [] then []
    else
      var rest := Without(xs[1..], drop);
      assert Elements(xs) == {xs[0]} + Elements(xs[1..]) by {
        assert forall y :: y in xs <==> y == xs[0] || y in xs[1..];
      }
      if xs[0] in drop then rest
      else
        assert Elements([xs[0]] + rest) == {xs[0]} + Elements(rest) by {
          assert forall y :: y in [xs[0]] + rest <==> y == xs[0] || y in rest;
        }
        [xs[0]] + rest
  }

  /** `sorted(missing_ips)`: the missing lines in ascending string order,
      each once, exactly as many as the set has. */
  function MissingListing(text1: string, text2: string): (r: seq<string>)
    ensures StrictlySorted(r) && Elements(r) == MissingSet(text1, text2)
    ensures |r| == |MissingSet(text1, text2)|
  {
    var r := SortedDistinct(Without(SplitLines(text1), Elements(SplitLines(text2))));
    SortedListingSize(r);
    r
  }

  /** What is written to missing_ips.txt. */
  function Output(text1: string, text2: string): string {
    Join(MissingListing(text1, text2), '\n')
  }

  /** The closing message. */
  function Summary(text1: string, text2: string): string {
    "Found " + NatToString(|MissingSet(text1, text2)|) + " missing IP addresses. Saved to 'missing_ips.txt'."
  }

  /** A line is listed exactly when it is a line of the first file and not,
      character for character, a line of the second; repeated lines appear
      once. The listing is the only ascending one of that set. */
  lemma MissingMeaning(text1: string, text2: string, x: string, other: seq<string>)
    ensures x in MissingListing(text1, text2) <==> x in SplitLines(text1) && x !in SplitLines(text2)
    ensures StrictlySorted(other) && Elements(other) == MissingSet(text1, text2) ==> other == MissingListing(text1, text2)
  {
    assert x in MissingListing(text1, text2) <==> x in Elements(MissingListing(text1, text2));
    if StrictlySorted(other) && Elements(other) == MissingSet(text1, text2) {
      SortedListingUnique(other, MissingListing(text1, text2));
    }
  }

  /** The written text ends without a newline: the last listed line is
      empty only when it is the only one, and no listed line holds a line
      break. */
  lemma OutputEnds(text1: string, text2: string)
    ensures var out := Output(text1, text2);
      out == [] || !IsLineBreak(out[|out| - 1])
  {
    var listing := MissingListing(text1, text2);
    NoBreaksInLines(text1, listing);
    if listing != [] {
      LastLineEnds(listing);
    }
  }

  /** Read back line by line, the written text gives the listing again, so
      the count printed is the number of lines written, unless the last
      listed line is empty. */
  lemma OutputReadsBack(text1: string, text2: string)
    requires var listing := MissingListing(text1, text2);
      listing != [] && listing[|listing| - 1] != []
    ensures SplitLines(Output(text1, text2)) == MissingListing(text1, text2)
    ensures |SplitLines(Output(text1, text2))| == |MissingSet(text1, text2)|
  {
    var listing := MissingListing(text1, text2);
    NoBreaksInLines(text1, listing);
    SplitLinesOfJoin(listing);
  }

  /** A sorted listing without line breaks, joined by newlines, ends in
      something other than a line break. */
  lemma LastLineEnds(listing: seq<string>)
    requires listing != [] && StrictlySorted(listing)
    requires forall k, j :: 0 <= k < |listing| && 0 <= j < |listing[k]| ==> !IsLineBreak(listing[k][j])
    ensures var out := Join(listing, '\n');
      out == [] || !IsLineBreak(out[|out| - 1])
  {
    var last := listing[|listing| - 1];
    var out := Join(listing, '\n');
    if |listing| >= 2 {
      assert StrLess(listing[0], last);
    }
    JoinEndsWithLast(listing, '\n');
    if last != [] {
      assert out[|out| - 1] == last[|last| - 1];
    }
  }

  lemma NoBreaksInLines(text1: string, listing: seq<string>)
    requires Elements(listing) <= Elements(SplitLines(text1))
    ensures forall k, j :: 0 <= k < |listing| && 0 <= j < |listing[k]| ==> !IsLineBreak(listing[k][j])
  {
    forall k, j | 0 <= k < |listing| && 0 <= j < |listing[k]|
      ensures !IsLineBreak(listing[k][j])
    {
      assert listing[k] in Elements(SplitLines(text1));
      var i :| 0 <= i < |SplitLines(text1)| && SplitLines(text1)[i] == listing[k];
    }
  }

  /** A join ends with its last piece. */
  lemma {:induction false} JoinEndsWithLast(parts: seq<string>, sep: char)
    requires parts != []
    ensures var j := Join(parts, sep); var last := parts[|parts| - 1];
      |last| <= |j| && j[|j| - |last|..] == last
  {
    if |parts| > 1 {
      JoinEndsWithLast(parts[1..], sep);
      var rest := Join(parts[1..], sep);
      var pre := parts[0] + [sep];
      assert Join(parts, sep) == pre + rest;
      assert (pre + rest)[|pre + rest| - |parts[|parts| - 1]|..] == rest[|rest| - |parts[|parts| - 1]|..];
    }
  }
}
