/** Python string and collection behaviour shared by every script of the model:
    whitespace and `str.strip`, substring tests, `str.split`, `str.splitlines`,
    decimal text of integers, the code-point order `sorted` uses on strings, and
    the sorted, duplicate-free listing of a collection of strings. */
module Common {

  datatype Option<T> = None | Some(value: T)

  /** Python truthiness of an optional string: present and non-empty. */
  predicate Truthy(o: Option<string>) { o.Some? && o.value != [] }

  // ---------------------------------------------------------------- characters

  /** `str.isspace()` for one character; Python's `\s` and `str.strip()` use it. */
  predicate IsSpace(c: char) {
    || c == ' ' || '\t' <= c <= '\r' || '\U{1C}' <= c <= '\U{1F}' || c == '\U{85}' || c == '\U{A0}'
    || c == '\U{1680}' || '\U{2000}' <= c <= '\U{200A}' || c == '\U{2028}' || c == '\U{2029}'
    || c == '\U{202F}' || c == '\U{205F}' || c == '\U{3000}'
  }

  /** A line boundary of `str.splitlines()`. */
  predicate IsLineBreak(c: char) {
    '\n' <= c <= '\r' || '\U{1C}' <= c <= '\U{1E}' || c == '\U{85}' || c == '\U{2028}' || c == '\U{2029}'
  }

  predicate IsDigit(c: char) { '0' <= c <= '9' }

  predicate IsHexDigit(c: char) { '0' <= c <= '9' || 'a' <= c <= 'f' || 'A' <= c <= 'F' }

  /** ASCII approximation of Python's `\w`. */
  predicate IsWordChar(c: char) { 'a' <= c <= 'z' || 'A' <= c <= 'Z' || '0' <= c <= '9' || c == '_' }

  /** ASCII approximation of `str.lower()` on one character. */
  function LowerChar(c: char): (r: char)
    ensures 'A' <= c <= 'Z' ==> 'a' <= r <= 'z'
    ensures !('A' <= c <= 'Z') ==> r == c
  {
    if 'A' <= c <= 'Z' then (c as int + 32) as char else c
  }

  function Lower(s: string): (r: string)
    ensures |r| == |s|
    ensures forall i :: 0 <= i < |s| ==> r[i] == LowerChar(s[i])
  {
    if s == [] then [] else [LowerChar(s[0])] + Lower(s[1..])
  }

  // ---------------------------------------------------------------- sequences of strings

  predicate AllSpace(s: string) { forall i :: 0 <= i < |s| ==> IsSpace(s[i]) }

  lemma AllSpaceConcat(a: string, b: string)
    ensures AllSpace(a + b) <==> AllSpace(a) && AllSpace(b)
  {
    if AllSpace(a + b) {
      assert forall k :: 0 <= k < |a| ==> a[k] == (a + b)[k];
      assert forall k :: 0 <= k < |b| ==> b[k] == (a + b)[|a| + k];
    }
  }

  /** `needle` occurs in `hay` starting at index `i`. */
  predicate OccursAt(hay: string, needle: string, i: int) {
    0 <= i && i + |needle| <= |hay| && hay[i..i + |needle|] == needle
  }

  /** Python's `needle in hay`. */
  predicate Contains(hay: string, needle: string) {
    exists i | 0 <= i <= |hay| - |needle| :: OccursAt(hay, needle, i)
  }

  predicate StartsWith(s: string, prefix: string) {
    |prefix| <= |s| && s[..|prefix|] == prefix
  }

  lemma StartsWithConcat(a: string, b: string, prefix: string)
    requires StartsWith(a, prefix)
    ensures StartsWith(a + b, prefix)
  {
    assert (a + b)[..|prefix|] == a[..|prefix|];
  }

  /** A needle with a character the haystack lacks does not occur in it. */
  lemma AbsentChar(hay: string, needle: string, j: nat)
    requires j < |needle| && needle[j] !in hay
    ensures !Contains(hay, needle)
  {
    forall i | 0 <= i <= |hay| - |needle|
      ensures !OccursAt(hay, needle, i)
    {
      assert hay[i..i + |needle|][j] != needle[j];
    }
  }

  /** A string occurs in any text that has it in the middle. */
  lemma ContainsMiddle(a: string, b: string, c: string)
    ensures Contains(a + b + c, b)
  {
    assert OccursAt(a + b + c, b, |a|) by {
      assert (a + b + c)[|a|..|a| + |b|] == b;
    }
  }

  function Concat(parts: seq<string>): string {
    if parts == [] then [] else parts[0] + Concat(parts[1..])
  }

  /** The text of a file written line by line: every item followed by a newline. */
  function Lines(items: seq<string>): string {
    if items == [] then [] else items[0] + "\n" + Lines(items[1..])
  }

  /** Writing one more line appends it and its newline. */
  lemma {:induction false} LinesSnoc(items: seq<string>, x: string)
    ensures Lines(items + [x]) == Lines(items) + x + "\n"
  {
    if items != [] {
      assert (items + [x])[1..] == items[1..] + [x];
      LinesSnoc(items[1..], x);
    }
  }

  /** `sep.join(parts)` for a one-character separator. */
  function Join(parts: seq<string>, sep: char): string {
    if parts == [] then []
    else if |parts| == 1 then parts[0]
    else parts[0] + [sep] + Join(parts[1..], sep)
  }

  function Elements(s: seq<string>): set<string> {
    set x | x in s
  }

  // ---------------------------------------------------------------- strip

  function TrimLeft(s: string): (r: string)
    ensures |r| <= |s| && r == s[|s| - |r|..]
    ensures AllSpace(s[..|s| - |r|])
    ensures r == [] || !IsSpace(r[0])
  {
    if s == [] || !IsSpace(s[0]) then s else TrimLeft(s[1..])
  }

  /** `str.rstrip()`: `s` without its trailing whitespace. */
  function TrimRight(s: string): (r: string)
    ensures |r| <= |s| && forall k :: 0 <= k < |r| ==> r[k] == s[k]
    ensures forall k :: |r| <= k < |s| ==> IsSpace(s[k])
    ensures r == [] || !IsSpace(r[|r| - 1])
  {
    if s == [] || !IsSpace(s[|s| - 1]) then s else TrimRight(s[..|s| - 1])
  }

  /** `str.strip()`: the part of `s` left once the leading and trailing
      whitespace is removed. */
  function Strip(s: string): (r: string)
    ensures |r| <= |s|
    ensures r == [] || (!IsSpace(r[0]) && !IsSpace(r[|r| - 1]))
  {
    if s != [] && IsSpace(s[0]) then Strip(s[1..])
    else
      var r := TrimRight(s);
      assert r != [] ==> r[0] == s[0];
      r
  }

  /** Stripping is removing the leading, then the trailing whitespace. */
  lemma {:induction false} StripTrims(s: string)
    ensures Strip(s) == TrimRight(TrimLeft(s))
  {
    if s != [] && IsSpace(s[0]) {
      StripTrims(s[1..]);
    }
  }

  /** No whitespace at either end: what `str.strip()` leaves. */
  predicate Stripped(s: string) {
    s == [] || (!IsSpace(s[0]) && !IsSpace(s[|s| - 1]))
  }

  lemma StripOfStripped(s: string)
    requires s == [] || (!IsSpace(s[0]) && !IsSpace(s[|s| - 1]))
    ensures Strip(s) == s
  {
    assert TrimRight(s) == s;
  }

  /** Trailing whitespace after a stripped, non-empty text is all that
      `str.strip()` removes. */
  lemma StripPadded(word: string, pad: string)
    requires word != [] && Stripped(word) && AllSpace(pad)
    ensures Strip(word + pad) == word
  {
    assert (word + pad)[0] == word[0];
    TrimRightPadded(word, pad);
  }

  lemma {:induction false} TrimRightPadded(word: string, pad: string)
    requires word != [] && !IsSpace(word[|word| - 1]) && AllSpace(pad)
    ensures TrimRight(word + pad) == word
    decreases |pad|
  {
    if pad == [] {
      assert word + pad == word;
    } else {
      var s := word + pad;
      var n := |pad| - 1;
      assert s[|s| - 1] == pad[n];
      assert s[..|s| - 1] == word + pad[..n];
      assert AllSpace(pad[..n]) by {
        assert forall k :: 0 <= k < n ==> pad[..n][k] == pad[k];
      }
      TrimRightPadded(word, pad[..n]);
    }
  }

  /** Stripping leaves a stripped string, which stripping again leaves alone. */
  lemma StripIsStripped(s: string)
    ensures Stripped(Strip(s)) && Strip(Strip(s)) == Strip(s)
  {
    StripOfStripped(Strip(s));
  }

  /** A stripped string is empty exactly when the original was all whitespace. */
  lemma StripEmpty(s: string)
    ensures Strip(s) == [] <==> AllSpace(s)
  {
    StripTrims(s);
    var t := TrimLeft(s);
    var i := |s| - |t|;
    assert t != [] ==> t[0] == s[i];
    if Strip(s) == [] {
      assert s[..i] == s;
    }
  }

  /** `[line.strip() for line in lines]`. */
  function StripAll(lines: seq<string>): (r: seq<string>)
    ensures |r| == |lines|
    ensures forall k :: 0 <= k < |r| ==> r[k] == Strip(lines[k])
  {
    if lines == [] then [] else [Strip(lines[0])] + StripAll(lines[1..])
  }

  /** `[line.strip() for line in lines if line.strip()]`. */
  function StripNonBlank(lines: seq<string>): (r: seq<string>)
    ensures |r| <= |lines|
    ensures forall k :: 0 <= k < |r| ==> r[k] != []
  {
    if lines == [] then []
    else if Strip(lines[0]) == [] then StripNonBlank(lines[1..])
    else [Strip(lines[0])] + StripNonBlank(lines[1..])
  }

  /** The kept lines are the non-empty stripped lines, in their original order. */
  lemma {:induction false} StripNonBlankMembers(lines: seq<string>, x: string)
    ensures x in StripNonBlank(lines) <==> x != [] && x in StripAll(lines)
  {
    if lines != [] {
      StripNonBlankMembers(lines[1..], x);
      assert StripAll(lines) == [Strip(lines[0])] + StripAll(lines[1..]);
    }
  }

  // ---------------------------------------------------------------- split

  function IndexOf(s: string, c: char): (i: nat)
    requires c in s
    ensures i < |s| && s[i] == c
    ensures forall k :: 0 <= k < i ==> s[k] != c
  {
    if s[0] == c then 0 else 1 + IndexOf(s[1..], c)
  }

  /** `s.split(sep)`: never empty, and no piece contains the separator. */
  function Split(s: string, sep: char): (r: seq<string>)
    ensures |r| >= 1
    ensures forall k :: 0 <= k < |r| ==> sep !in r[k]
    decreases |s|
  {
    if sep !in s then [s]
    else
      var i := IndexOf(s, sep);
      [s[..i]] + Split(s[i + 1..], sep)
  }

  /** One step of a split: a piece without the separator, the separator, and
      the rest. */
  lemma SplitStep(a: string, rest: string, sep: char)
    requires sep !in a
    ensures Split(a + [sep] + rest, sep) == [a] + Split(rest, sep)
  {
    var s := a + [sep] + rest;
    assert s == a + ([sep] + rest);
    IndexOfAfter(a, [sep] + rest, sep);
    assert s[..|a|] == a && s[|a| + 1..] == rest;
  }

  /** Joining a first piece onto the rest. */
  lemma JoinCons(a: string, parts: seq<string>, sep: char)
    requires parts != []
    ensures Join([a] + parts, sep) == a + [sep] + Join(parts, sep)
  {
    assert ([a] + parts)[0] == a && ([a] + parts)[1..] == parts;
  }

  /** Joining the pieces of a split with the same separator gives the text back. */
  lemma {:induction false} JoinSplit(s: string, sep: char)
    ensures Join(Split(s, sep), sep) == s
    decreases |s|
  {
    if sep in s {
      var i := IndexOf(s, sep);
      var a, rest := s[..i], s[i + 1..];
      assert s == a + [sep] + rest;
      SplitStep(a, rest, sep);
      JoinSplit(rest, sep);
      JoinCons(a, Split(rest, sep), sep);
    }
  }

  /** Splitting a join of separator-free pieces gives the pieces back. */
  lemma {:induction false} SplitJoin(parts: seq<string>, sep: char)
    requires parts != []
    requires forall k :: 0 <= k < |parts| ==> sep !in parts[k]
    ensures Split(Join(parts, sep), sep) == parts
  {
    if |parts| > 1 {
      var a, rest := parts[0], parts[1..];
      assert forall k :: 0 <= k < |rest| ==> sep !in rest[k] by {
        assert forall k :: 0 <= k < |rest| ==> rest[k] == parts[k + 1];
      }
      SplitJoin(rest, sep);
      assert parts == [a] + rest;
      JoinCons(a, rest, sep);
      SplitStep(a, Join(rest, sep), sep);
    }
  }

  lemma IndexOfAfter(a: string, b: string, c: char)
    requires c !in a && b != [] && b[0] == c
    ensures c in a + b && IndexOf(a + b, c) == |a|
  {
    assert (a + b)[|a|] == c;
    if a != [] {
      assert (a + b)[1..] == a[1..] + b;
      IndexOfAfter(a[1..], b, c);
    }
  }

  /** The index of the first line boundary of `s`, or `|s|` when there is none. */
  function LineEnd(s: string): (i: nat)
    ensures i <= |s|
    ensures forall k :: 0 <= k < i ==> !IsLineBreak(s[k])
    ensures i < |s| ==> IsLineBreak(s[i])
  {
    if s == [] || IsLineBreak(s[0]) then 0 else 1 + LineEnd(s[1..])
  }

  /** `s.splitlines()`: `"\r\n"` is one boundary, a final boundary starts no new line. */
  function SplitLines(s: string): (r: seq<string>)
    ensures forall k, j :: 0 <= k < |r| && 0 <= j < |r[k]| ==> !IsLineBreak(r[k][j])
    ensures |r| <= |s|
    decreases |s|
  {
    if s == [] then []
    else
      var i := LineEnd(s);
      if i == |s| then [s]
      else
        var next := if s[i] == '\r' && i + 1 < |s| && s[i + 1] == '\n' then i + 2 else i + 1;
        [s[..i]] + SplitLines(s[next..])
  }

  /** Lines joined by `'\n'` (no final newline) split back into the same lines. */
  lemma {:induction false} SplitLinesOfJoin(lines: seq<string>)
    requires forall k, j :: 0 <= k < |lines| && 0 <= j < |lines[k]| ==> !IsLineBreak(lines[k][j])
    requires |lines| > 0 ==> lines[|lines| - 1] != []
    ensures SplitLines(Join(lines, '\n')) == lines
  {
    if |lines| == 1 {
      assert LineEnd(lines[0]) == |lines[0]| by { LineEndNone(lines[0]); }
    } else if |lines| > 1 {
      var rest := lines[1..];
      assert forall k, j :: 0 <= k < |rest| && 0 <= j < |rest[k]| ==> !IsLineBreak(rest[k][j]) by {
        assert forall k :: 0 <= k < |rest| ==> rest[k] == lines[k + 1];
      }
      SplitLinesOfJoin(rest);
      SplitLinesStep(lines[0], Join(rest, '\n'));
      assert lines == [lines[0]] + rest;
    }
  }

  /** A line without breaks, a newline, then more text: the line comes first. */
  lemma SplitLinesStep(line: string, rest: string)
    requires forall j :: 0 <= j < |line| ==> !IsLineBreak(line[j])
    requires rest != []
    ensures SplitLines(line + ['\n'] + rest) == [line] + SplitLines(rest)
  {
    var s := line + ['\n'] + rest;
    var i := |line|;
    assert LineEnd(s) == i by {
      assert s == line + (['\n'] + rest);
      LineEndAt(line, ['\n'] + rest);
    }
    assert s[i] == '\n' && s[..i] == line && s[i + 1..] == rest;
  }

  lemma LineEndNone(s: string)
    requires forall j :: 0 <= j < |s| ==> !IsLineBreak(s[j])
    ensures LineEnd(s) == |s|
  {
    if s != [] { LineEndNone(s[1..]); }
  }

  lemma LineEndAt(a: string, b: string)
    requires forall j :: 0 <= j < |a| ==> !IsLineBreak(a[j])
    requires b != [] && IsLineBreak(b[0])
    ensures LineEnd(a + b) == |a|
  {
    if a != [] {
      assert (a + b)[1..] == a[1..] + b;
      LineEndAt(a[1..], b);
    } else {
      assert a + b == b;
    }
  }

  // ---------------------------------------------------------------- decimal text

  function DigitChar(d: nat): (c: char)
    requires d < 10
    ensures IsDigit(c)
  {
    ('0' as int + d) as char
  }

  /** `str(n)` for a natural number. */
  function NatToString(n: nat): (r: string)
    ensures |r| >= 1
    ensures forall i :: 0 <= i < |r| ==> IsDigit(r[i])
    ensures |r| > 1 ==> r[0] != '0'
    decreases n
  {
    if n < 10 then [DigitChar(n)] else NatToString(n / 10) + [DigitChar(n % 10)]
  }

  /** `str(i)` for any integer. */
  function IntToString(i: int): string {
    if i < 0 then "-" + NatToString(-i) else NatToString(i)
  }

  /** `int(s)` for a run of ASCII digits (leading zeros allowed). */
  function DecimalValue(s: string): (v: nat)
    requires forall i :: 0 <= i < |s| ==> IsDigit(s[i])
  {
    if s == [] then 0
    else
      assert IsDigit(s[|s| - 1]);
      DecimalValue(s[..|s| - 1]) * 10 + (s[|s| - 1] as int - '0' as int)
  }

  /** Reading back the decimal text of a number gives the number. */
  lemma {:induction false} DecimalOfNatToString(n: nat)
    ensures DecimalValue(NatToString(n)) == n
    decreases n
  {
    if n >= 10 {
      var s := NatToString(n);
      assert s[..|s| - 1] == NatToString(n / 10);
      DecimalOfNatToString(n / 10);
    }
  }

  /** `'%02d' % n`, the field the timer display uses. */
  function Pad2(n: int): string {
    if 0 <= n < 10 then "0" + NatToString(n) else IntToString(n)
  }

  // ---------------------------------------------------------------- string order

  /** Python's `<` on `str`: lexicographic by code point, a proper prefix first. */
  predicate StrLess(a: string, b: string)
    decreases |a|
  {
    if a == [] then b != []
    else if b == [] then false
    else if a[0] != b[0] then a[0] < b[0]
    else StrLess(a[1..], b[1..])
  }

  lemma {:induction false} StrLessIrreflexive(a: string)
    ensures !StrLess(a, a)
    decreases |a|
  {
    if a != [] { StrLessIrreflexive(a[1..]); }
  }

  lemma {:induction false} StrLessTransitive(a: string, b: string, c: string)
    requires StrLess(a, b) && StrLess(b, c)
    ensures StrLess(a, c)
    decreases |a|
  {
    if a != [] && b != [] && c != [] && a[0] == b[0] && b[0] == c[0] {
      StrLessTransitive(a[1..], b[1..], c[1..]);
    }
  }

  lemma {:induction false} StrLessTotal(a: string, b: string)
    requires a != b
    ensures StrLess(a, b) || StrLess(b, a)
    decreases |a|
  {
    if a != [] && b != [] && a[0] == b[0] {
      assert a == [a[0]] + a[1..] && b == [b[0]] + b[1..];
      StrLessTotal(a[1..], b[1..]);
    }
  }

  lemma StrLessAsymmetric(a: string, b: string)
    requires StrLess(a, b)
    ensures !StrLess(b, a)
  {
    if StrLess(b, a) {
      StrLessTransitive(a, b, a);
      StrLessIrreflexive(a);
    }
  }

  predicate StrictlySorted(s: seq<string>) {
    forall i, j :: 0 <= i < j < |s| ==> StrLess(s[i], s[j])
  }

  // ---------------------------------------------------------------- sorted, duplicate-free listings

  /** Adds `x` to a strictly ascending listing unless it is already there. */
  function Insert(x: string, s: seq<string>): (r: seq<string>)
    requires StrictlySorted(s)
    ensures StrictlySorted(r)
    ensures Elements(r) == Elements(s) + {x}
  {
    if s == [] then [x]
    else if x == s[0] then s
    else if StrLess(x, s[0]) then
      assert forall j :: 0 < j < |s| ==> StrLess(x, s[j]) by {
        forall j | 0 < j < |s| ensures StrLess(x, s[j]) { StrLessTransitive(x, s[0], s[j]); }
      }
      assert StrictlySorted([x] + s);
      assert Elements([x] + s) == Elements(s) + {x} by {
        assert forall y :: y in [x] + s <==> y == x || y in s;
      }
      [x] + s
    else
      StrLessTotal(x, s[0]);
      var tail := Insert(x, s[1..]);
      assert Elements(s[1..]) + {s[0]} == Elements(s) by {
        assert s == [s[0]] + s[1..];
        assert forall y :: y in s <==> y == s[0] || y in s[1..];
      }
      assert forall y :: y in tail ==> StrLess(s[0], y) by {
        forall y | y in tail ensures StrLess(s[0], y) {
          assert y in Elements(tail);
          if y != x {
            var j :| 0 <= j < |s[1..]| && s[1..][j] == y;
            assert s[j + 1] == y;
          }
        }
      }
      var r := [s[0]] + tail;
      assert StrictlySorted(r) by {
        forall i, j | 0 <= i < j < |r| ensures StrLess(r[i], r[j]) {
          if i == 0 { assert r[j] == tail[j - 1]; assert r[j] in tail; }
          else { assert r[i] == tail[i - 1] && r[j] == tail[j - 1]; }
        }
      }
      assert Elements(r) == Elements(tail) + {s[0]} by {
        assert forall y :: y in r <==> y == s[0] || y in tail;
      }
      r
  }

  /** `sorted(set(xs))`: the strictly ascending listing of the distinct items of `xs`. */
  function SortedDistinct(xs: seq<string>): (r: seq<string>)
    ensures StrictlySorted(r)
    ensures Elements(r) == Elements(xs)
  {
    if xs == [] then []
    else
      var r := Insert(xs[|xs| - 1], SortedDistinct(xs[..|xs| - 1]));
      assert Elements(xs) == Elements(xs[..|xs| - 1]) + {xs[|xs| - 1]} by {
        assert xs == xs[..|xs| - 1] + [xs[|xs| - 1]];
        assert forall y :: y in xs <==> y in xs[..|xs| - 1] || y == xs[|xs| - 1];
      }
      r
  }

  /** A strictly ascending listing is determined by its elements, so any two
      listings of one set (as `sorted` of a set produces) are the same. */
  lemma {:induction false} SortedListingUnique(a: seq<string>, b: seq<string>)
    requires StrictlySorted(a) && StrictlySorted(b)
    requires Elements(a) == Elements(b)
    ensures a == b
    decreases |a|
  {
    SortedListingSize(a);
    SortedListingSize(b);
    if a != [] {
      assert a[0] in Elements(b) && b[0] in Elements(a);
      if a[0] != b[0] {
        var i :| 0 <= i < |b| && b[i] == a[0];
        var j :| 0 <= j < |a| && a[j] == b[0];
        assert i != 0 && j != 0;
        assert StrLess(b[0], a[0]) && StrLess(a[0], b[0]);
        StrLessAsymmetric(a[0], b[0]);
      }
      assert Elements(a[1..]) == Elements(b[1..]) by {
        forall y | y in a[1..] ensures y in b[1..] {
          var k :| 0 <= k < |a[1..]| && a[1..][k] == y;
          assert StrLess(a[0], y);
          StrLessIrreflexive(y);
          assert y != b[0];
          assert y in Elements(b);
          var m :| 0 <= m < |b| && b[m] == y;
          assert m != 0;
          assert b[1..][m - 1] == y;
        }
        forall y | y in b[1..] ensures y in a[1..] {
          var k :| 0 <= k < |b[1..]| && b[1..][k] == y;
          assert StrLess(b[0], y);
          StrLessIrreflexive(y);
          assert y != a[0];
          assert y in Elements(a);
          var m :| 0 <= m < |a| && a[m] == y;
          assert m != 0;
          assert a[1..][m - 1] == y;
        }
      }
      SortedListingUnique(a[1..], b[1..]);
      assert a == [a[0]] + a[1..] && b == [b[0]] + b[1..];
    }
  }

  /** A strictly ascending listing repeats nothing: it is as long as its set. */
  lemma {:induction false} SortedListingSize(s: seq<string>)
    requires StrictlySorted(s)
    ensures |Elements(s)| == |s|
    decreases |s|
  {
    if s != [] {
      SortedListingSize(s[1..]);
      assert s[0] !in Elements(s[1..]) by {
        if s[0] in s[1..] {
          var k :| 0 <= k < |s[1..]| && s[1..][k] == s[0];
          assert StrLess(s[0], s[k + 1]);
          StrLessIrreflexive(s[0]);
        }
      }
      assert Elements(s) == Elements(s[1..]) + {s[0]} by {
        assert s == [s[0]] + s[1..];
        assert forall y :: y in s <==> y == s[0] || y in s[1..];
      }
    }
  }

  /** Python's `sorted()` of a set of strings, as the loop that builds the listing. */
  method SortSet(items: set<string>) returns (r: seq<string>)
    ensures StrictlySorted(r)
    ensures Elements(r) == items
    ensures |r| == |items|
  {
    r := [];
    var rest := items;
    while rest != {}
      invariant StrictlySorted(r)
      invariant Elements(r) + rest == items
      invariant Elements(r) !! rest
      decreases rest
    {
      var x :| x in rest;
      r := Insert(x, r);
      rest := rest - {x};
    }
    SortedListingSize(r);
  }
}
