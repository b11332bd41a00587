/** remove_duplicate_ips.py: `extract_unique_ips` collects every dotted
    quad of the input file whose four numbers are at most 255, drops
    duplicates and writes them out one per line in string order. The files
    are their lines on the way in and the written text on the way out. */
module UniqueIps {
  import opened Common

  predicate Digits(s: string) { forall k :: 0 <= k < |s| ==> IsDigit(s[k]) }

  /** The end of the run of digits starting at `i`. */
  function DigitEnd(s: string, i: nat): (e: nat)
    requires i <= |s|
    ensures i <= e <= |s|
    ensures forall k :: i <= k < e ==> IsDigit(s[k])
    ensures e < |s| ==> !IsDigit(s[e])
    decreases |s| - i
  {
    if i == |s| || !IsDigit(s[i]) then i else DigitEnd(s, i + 1)
  }

  /** `\d{1,3}\.` at `i`: the digits must reach the dot, so the whole digit
      run, of one to three digits, followed by '.'; the result is where the
      next group starts. */
  function DottedGroup(s: string, i: nat): (r: Option<nat>)
    requires i <= |s|
    ensures r.Some? ==> i + 2 <= r.value <= i + 4 && r.value <= |s|
  {
    var e := DigitEnd(s, i);
    if i < e <= i + 3 && e < |s| && s[e] == '.' then Some(e + 1) else None
  }

  /** The final greedy `\d{1,3}`: as many digits as there are, up to three. */
  function LastGroup(s: string, i: nat): (r: Option<nat>)
    requires i <= |s|
    ensures r.Some? ==> i < r.value <= i + 3 && r.value <= |s|
  {
    var e := DigitEnd(s, i);
    if e == i then None else Some(if e <= i + 3 then e else i + 3)
  }

  /** `(?:\d{1,3}\.){3}\d{1,3}` tried at `p`: the end of the match. */
  function MatchIp(s: string, p: nat): (r: Option<nat>)
    requires p <= |s|
    ensures r.Some? ==> p < r.value <= |s|
  {
    var g1 := DottedGroup(s, p);
    if g1.None? then None
    else
      var g2 := DottedGroup(s, g1.value);
      if g2.None? then None
      else
        var g3 := DottedGroup(s, g2.value);
        if g3.None? then None else LastGroup(s, g3.value)
  }

  /** An octet as the pattern matches it: one to three ASCII digits. */
  predicate Octet(o: string) { 1 <= |o| <= 3 && Digits(o) }

  /** Four octets joined by dots. */
  predicate DottedQuad(ip: string) {
    var parts := Split(ip, '.');
    |parts| == 4 && forall k :: 0 <= k < 4 ==> Octet(parts[k])
  }

  /** A match is a dotted quad of the line. */
  lemma MatchIsQuad(s: string, p: nat)
    requires p <= |s| && MatchIp(s, p).Some?
    ensures DottedQuad(s[p..MatchIp(s, p).value])
  {
    var a := DottedGroup(s, p).value;
    var b := DottedGroup(s, a).value;
    var c := DottedGroup(s, b).value;
    var e := MatchIp(s, p).value;
    var parts := [s[p..a - 1], s[a..b - 1], s[b..c - 1], s[c..e]];
    forall k | 0 <= k < 4
      ensures Octet(parts[k]) && '.' !in parts[k]
    {
    }
    QuadSlices(s, p, a, b, c, e);
    JoinFour(parts[0], parts[1], parts[2], parts[3]);
    assert [parts[0], parts[1], parts[2], parts[3]] == parts;
    SplitJoin(parts, '.');
  }

  lemma QuadSlices(s: string, p: nat, a: nat, b: nat, c: nat, e: nat)
    requires p < a <= b <= c <= e <= |s|
    requires s[a - 1] == '.' && s[b - 1] == '.' && s[c - 1] == '.'
    requires p < a - 1 && a < b - 1 && b < c - 1
    ensures s[p..e] == s[p..a - 1] + "." + s[a..b - 1] + "." + s[b..c - 1] + "." + s[c..e]
  {
    assert s[p..e] == s[p..a - 1] + [s[a - 1]] + s[a..e];
    assert s[a..e] == s[a..b - 1] + [s[b - 1]] + s[b..e];
    assert s[b..e] == s[b..c - 1] + [s[c - 1]] + s[c..e];
  }

  lemma JoinFour(w: string, x: string, y: string, z: string)
    ensures Join([w, x, y, z], '.') == w + "." + x + "." + y + "." + z
  {
    assert [w, x, y, z][1..] == [x, y, z] && [x, y, z][1..] == [y, z] && [y, z][1..] == [z];
    assert Join([y, z], '.') == y + ['.'] + z;
    assert Join([x, y, z], '.') == x + ['.'] + (y + ['.'] + z);
    assert Join([w, x, y, z], '.') == w + ['.'] + (x + ['.'] + (y + ['.'] + z));
  }

  /** `ip_pattern.findall(line)`, scanning from `p`. */
  function FindIps(s: string, p: nat): (r: seq<string>)
    requires p <= |s|
    ensures forall k :: 0 <= k < |r| ==> DottedQuad(r[k]) && Contains(s, r[k])
    decreases |s| - p
  {
    if p == |s| then []
    else
      var m := MatchIp(s, p);
      if m.Some? then
        MatchIsQuad(s, p);
        assert OccursAt(s, s[p..m.value], p);
        [s[p..m.value]] + FindIps(s, m.value)
      else FindIps(s, p + 1)
  }

  /** The digit run at `i` ends at `e`. */
  lemma {:induction false} DigitEndAt(s: string, i: nat, e: nat)
    requires i <= e <= |s|
    requires forall k :: i <= k < e ==> IsDigit(s[k])
    requires e == |s| || !IsDigit(s[e])
    ensures DigitEnd(s, i) == e
    decreases e - i
  {
    if i < e {
      DigitEndAt(s, i + 1, e);
    }
  }

  /** The last octet is cut after three digits: "1.2.3.4567" yields
      "1.2.3.456", and the digit left over starts no match. */
  lemma LastOctetCut(a: char, b: char, c: char, d: string)
    requires IsDigit(a) && IsDigit(b) && IsDigit(c) && |d| == 4 && Digits(d)
    ensures FindIps([a, '.', b, '.', c, '.'] + d, 0) == [[a, '.', b, '.', c, '.'] + d[..3]]
  {
    var s := [a, '.', b, '.', c, '.'] + d;
    assert forall k :: 6 <= k < 10 ==> s[k] == d[k - 6];
    DigitEndAt(s, 0, 1);
    DigitEndAt(s, 2, 3);
    DigitEndAt(s, 4, 5);
    DigitEndAt(s, 6, 10);
    DigitEndAt(s, 9, 10);
    assert MatchIp(s, 0) == Some(9);
    assert MatchIp(s, 9).None?;
    assert FindIps(s, 9) == FindIps(s, 10) == [];
    assert s[0..9] == [a, '.', b, '.', c, '.'] + d[..3];
  }

  /** A first number of four digits fails where it starts, and the search
      goes on inside it: "1234.5.6.7" yields "234.5.6.7". */
  lemma FirstOctetInsideRun(d: string, x: char, y: char, z: char)
    requires |d| == 4 && Digits(d) && IsDigit(x) && IsDigit(y) && IsDigit(z)
    ensures FindIps(d + ['.', x, '.', y, '.', z], 0) == [d[1..] + ['.', x, '.', y, '.', z]]
  {
    var s := d + ['.', x, '.', y, '.', z];
    assert forall k :: 0 <= k < 4 ==> s[k] == d[k];
    DigitEndAt(s, 0, 4);
    DigitEndAt(s, 1, 4);
    DigitEndAt(s, 5, 6);
    DigitEndAt(s, 7, 8);
    DigitEndAt(s, 9, 10);
    assert MatchIp(s, 0).None?;
    assert MatchIp(s, 1) == Some(10);
    assert FindIps(s, 10) == [];
    assert FindIps(s, 0) == FindIps(s, 1) == [s[1..10]];
    assert s[1..10] == d[1..] + ['.', x, '.', y, '.', z];
  }

  /** `all(0 <= int(octet) <= 255 for octet in ip.split('.'))`. */
  predicate ValidOctets(ip: string) {
    forall o :: o in Split(ip, '.') ==> Digits(o) && DecimalValue(o) <= 255
  }

  /** The addresses one line contributes. */
  function LineIps(line: string): set<string> {
    set ip | ip in FindIps(line, 0) && ValidOctets(ip)
  }

  /** `unique_ips` after the given lines. */
  function UniqueIps(lines: seq<string>): set<string> {
    if lines == [] then {} else UniqueIps(lines[..|lines| - 1]) + LineIps(lines[|lines| - 1])
  }

  /** An address is collected exactly when some line has it as a match and
      its octets are at most 255. */
  lemma {:induction false} UniqueIpsMeaning(lines: seq<string>, ip: string)
    ensures ip in UniqueIps(lines) <==>
      (exists i :: 0 <= i < |lines| && ip in FindIps(lines[i], 0)) && ValidOctets(ip)
  {
    if lines != [] {
      var n := |lines| - 1;
      var init := lines[..n];
      UniqueIpsMeaning(init, ip);
      assert UniqueIps(lines) == UniqueIps(init) + LineIps(lines[n]);
      assert ip in LineIps(lines[n]) <==> ip in FindIps(lines[n], 0) && ValidOctets(ip);
      if exists i :: 0 <= i < |lines| && ip in FindIps(lines[i], 0) {
        var i :| 0 <= i < |lines| && ip in FindIps(lines[i], 0);
        if i < n {
          assert init[i] == lines[i];
        }
      }
      if exists i :: 0 <= i < |init| && ip in FindIps(init[i], 0) {
        var i :| 0 <= i < |init| && ip in FindIps(init[i], 0);
        assert init[i] == lines[i];
      }
    }
  }

  /** Every collected address is a dotted quad that occurs in some line. */
  lemma UniqueIpsFound(lines: seq<string>, ip: string)
    requires ip in UniqueIps(lines)
    ensures DottedQuad(ip) && exists i :: 0 <= i < |lines| && Contains(lines[i], ip)
  {
    UniqueIpsMeaning(lines, ip);
    var i :| 0 <= i < |lines| && ip in FindIps(lines[i], 0);
    var k :| 0 <= k < |FindIps(lines[i], 0)| && FindIps(lines[i], 0)[k] == ip;
  }

  /** A candidate's octets are what `split('.')` yields, so the check reads
      each of the four numbers. */
  lemma ValidOctetsOfQuad(ip: string)
    requires DottedQuad(ip)
    ensures ValidOctets(ip) <==> forall k :: 0 <= k < 4 ==> DecimalValue(Split(ip, '.')[k]) <= 255
  {
    var parts := Split(ip, '.');
    if forall k :: 0 <= k < 4 ==> DecimalValue(parts[k]) <= 255 {
      forall o | o in parts
        ensures Digits(o) && DecimalValue(o) <= 255
      {
        var k :| 0 <= k < 4 && parts[k] == o;
      }
    }
    if ValidOctets(ip) {
      forall k | 0 <= k < 4
        ensures DecimalValue(parts[k]) <= 255
      {
        assert parts[k] in parts;
      }
    }
  }

  /** `extract_unique_ips`: the text written to the output file. */
  method ExtractUniqueIps(lines: seq<string>) returns (written: string, ips: seq<string>)
    ensures StrictlySorted(ips) && Elements(ips) == UniqueIps(lines) && |ips| == |UniqueIps(lines)|
    ensures written == Lines(ips)
  {
    var unique := CollectIps(lines);
    ips := SortSet(unique);
    written := WriteLines(ips);
  }

  /** The loop over the lines of the input file. */
  method CollectIps(lines: seq<string>) returns (unique: set<string>)
    ensures unique == UniqueIps(lines)
  {
    unique := {};
    for n := 0 to |lines|
      invariant unique == UniqueIps(lines[..n])
    {
      assert lines[..n + 1][..n] == lines[..n] && lines[..n + 1][n] == lines[n];
      unique := AddLine(unique, lines[n]);
    }
    assert lines[..|lines|] == lines;
  }

  /** The loop writing one address per line. */
  method WriteLines(ips: seq<string>) returns (written: string)
    ensures written == Lines(ips)
  {
    written := [];
    for k := 0 to |ips|
      invariant written == Lines(ips[..k])
    {
      LinesSnoc(ips[..k], ips[k]);
      assert ips[..k + 1] == ips[..k] + [ips[k]];
      written := written + ips[k] + "\n";
    }
    assert ips[..|ips|] == ips;
  }

  /** The order is that of strings, not of addresses: "10.0.0.1" is written
      before "9.0.0.1". */
  lemma StringOrderNotNumeric()
    ensures StrLess("10.0.0.1", "9.0.0.1")
  {
  }

  /** The loops over the matches of one line. */
  method AddLine(unique: set<string>, line: string) returns (r: set<string>)
    ensures r == unique + LineIps(line)
  {
    var found := FindIps(line, 0);
    r := unique;
    for k := 0 to |found|
      invariant r == unique + ValidAmong(found[..k])
    {
      ValidAmongSnoc(found[..k], found[k]);
      assert found[..k + 1] == found[..k] + [found[k]];
      if ValidOctets(found[k]) {
        r := r + {found[k]};
      }
    }
    assert found[..|found|] == found;
  }

  function ValidAmong(found: seq<string>): set<string> {
    set ip | ip in found && ValidOctets(ip)
  }

  lemma ValidAmongSnoc(found: seq<string>, x: string)
    ensures ValidAmong(found + [x]) == ValidAmong(found) + (if ValidOctets(x) then {x} else {})
  {
    assert forall ip :: ip in found + [x] <==> ip in found || ip == x;
  }
}
