/** `whois_query` of ip_enricher_whois.py: pick the WHOIS server of the
    registry RDAP named, and read the organisation and origin AS out of the
    server's text reply.

    The exchange on port 43 is a parameter: the decoded reply, or `None` when
    the connection or the read raises. */
module Whois {
  import opened Common

  /** `RIR_WHOIS`. */
  const RirWhois: map<string, string> := map[
    "ARIN" := "whois.arin.net", "RIPE NCC" := "whois.ripe.net", "APNIC" := "whois.apnic.net",
    "LACNIC" := "whois.lacnic.net", "AFRINIC" := "whois.afrinic.net"]

  const DefaultServer: string := "whois.arin.net"

  function ServerFor(hint: Option<string>): string {
    if Truthy(hint) && hint.value in RirWhois then RirWhois[hint.value] else DefaultServer
  }

  /** `raw_path`: `"<hint or UNKNOWN>:<server>"`. */
  function RawPath(hint: Option<string>): string {
    (if Truthy(hint) then hint.value else "UNKNOWN") + ":" + ServerFor(hint)
  }

  /** The server is always one of the five registry servers: the hinted
      registry's own when it is one of them, ARIN's otherwise. */
  lemma ServerSelection(hint: Option<string>)
    ensures ServerFor(hint) in RirWhois.Values
    ensures Truthy(hint) && hint.value in RirWhois ==> ServerFor(hint) == RirWhois[hint.value]
    ensures !(Truthy(hint) && hint.value in RirWhois) ==> ServerFor(hint) == "whois.arin.net"
  {
    assert RirWhois["ARIN"] == DefaultServer;
  }

  /** The trace names the hint, or UNKNOWN without one, before the server. */
  lemma RawPathNamesHintAndServer(hint: Option<string>)
    ensures Truthy(hint) ==> StartsWith(RawPath(hint), hint.value + ":")
    ensures !Truthy(hint) ==> StartsWith(RawPath(hint), "UNKNOWN:")
    ensures StartsWith(RawPath(hint), RawPath(hint)[..|RawPath(hint)| - |ServerFor(hint)|])
      && RawPath(hint)[|RawPath(hint)| - |ServerFor(hint)|..] == ServerFor(hint)
  {
    var h := if Truthy(hint) then hint.value else "UNKNOWN";
    StartsWithConcat(h + ":", ServerFor(hint), h + ":");
  }

  // ---------------------------------------------------------------- organisation

  /** The five organisation patterns, as the lower-case text before `\s*(.+)$`. */
  const OrgPatterns: seq<string> := ["orgname:", "org-name:", "owner:", "responsible:", "descr:"]

  /** `s` starts with `prefix` when letters are compared without case. */
  predicate StartsWithNoCase(s: string, prefix: string) {
    |prefix| <= |s| && Lower(s[..|prefix|]) == Lower(prefix)
  }

  /** Group 1 of `\s*(.+)$` on a non-empty rest with no newline: the leading
      whitespace is taken greedily, but one character is left to the group. */
  function OrgGroup(rest: string): (g: string)
    requires rest != []
    ensures g != []
  {
    var t := TrimLeft(rest);
    if t == [] then [rest[|rest| - 1]] else t
  }

  /** The value of the first pattern matching a line, or `None`. */
  function OrgFrom(l: string, pats: seq<string>): Option<string> {
    if pats == [] then None
    else if StartsWithNoCase(l, pats[0]) && |l| > |pats[0]| then Some(Strip(OrgGroup(l[|pats[0]|..])))
    else OrgFrom(l, pats[1..])
  }

  function OrgOfLine(l: string): Option<string> {
    OrgFrom(l, OrgPatterns)
  }

  /** Leading whitespace is all `TrimLeft` removes: a text ending in a
      non-space keeps its last character. */
  lemma {:induction false} TrimLeftKeepsLast(s: string)
    requires s != [] && !IsSpace(s[|s| - 1])
    ensures TrimLeft(s) != [] && TrimLeft(s)[|TrimLeft(s)| - 1] == s[|s| - 1]
  {
    if IsSpace(s[0]) {
      assert |s| > 1;
      assert s[1..][|s| - 2] == s[|s| - 1];
      TrimLeftKeepsLast(s[1..]);
    }
  }

  /** On a stripped line a pattern's value is the rest of the line after the
      pattern and the whitespace that follows it, and it is never empty. */
  lemma OrgValueOfStripped(l: string, p: string)
    requires Stripped(l) && StartsWithNoCase(l, p) && |l| > |p|
    ensures Strip(OrgGroup(l[|p|..])) == TrimLeft(l[|p|..]) && TrimLeft(l[|p|..]) != []
  {
    var rest := l[|p|..];
    assert rest[|rest| - 1] == l[|l| - 1];
    TrimLeftKeepsLast(rest);
    var t := TrimLeft(rest);
    assert Stripped(t);
    StripOfStripped(t);
  }

  // ---------------------------------------------------------------- origin AS

  const AsnWords: seq<string> := ["origin", "originas", "origin-as"]

  /** The length of the leading run of digits of `s`. */
  function DigitRun(s: string): (n: nat)
    ensures n <= |s| && (forall k :: 0 <= k < n ==> IsDigit(s[k])) && (n < |s| ==> !IsDigit(s[n]))
  {
    if s == [] || !IsDigit(s[0]) then 0 else 1 + DigitRun(s[1..])
  }

  lemma {:induction false} DigitRunConcat(a: string, b: string)
    requires forall k :: 0 <= k < |a| ==> IsDigit(a[k])
    requires b == [] || !IsDigit(b[0])
    ensures DigitRun(a + b) == |a|
  {
    if a != [] {
      assert (a + b)[1..] == a[1..] + b;
      DigitRunConcat(a[1..], b);
    } else {
      assert a + b == b;
    }
  }

  predicate AllDigits(s: string) { forall k :: 0 <= k < |s| ==> IsDigit(s[k]) }

  /** `(AS\d+)\b` at the start of `b`: the digits after a case-free "AS",
      when at least one follows and no word character comes after them. */
  function AsnNumber(b: string): (r: Option<string>)
    ensures r.Some? ==> r.value != [] && AllDigits(r.value)
  {
    if |b| < 2 || LowerChar(b[0]) != 'a' || LowerChar(b[1]) != 's' then None
    else
      var n := DigitRun(b[2..]);
      if n == 0 || (2 + n < |b| && IsWordChar(b[2 + n])) then None
      else Some(b[2..2 + n])
  }

  /** `\s*:\s*(AS\d+)\b` at the start of `rest`, giving group 2 upper-cased.
      Each step is forced: greedy whitespace cannot give back a ':' or an
      'A', and fewer digits would put the boundary between two digits. */
  function AsnAfter(rest: string): (r: Option<string>)
    ensures r.Some? ==> |r.value| >= 3 && r.value[..2] == "AS" && AllDigits(r.value[2..])
  {
    var a := TrimLeft(rest);
    if a == [] || a[0] != ':' then None
    else
      match AsnNumber(TrimLeft(a[1..]))
      case None => None
      case Some(d) => assert ("AS" + d)[2..] == d; Some("AS" + d)
  }

  /** The alternatives of `(origin|originas|origin-as)` in order. */
  function AsnFrom(l: string, words: seq<string>): Option<string> {
    if words == [] then None
    else if StartsWithNoCase(l, words[0]) && AsnAfter(l[|words[0]|..]).Some? then AsnAfter(l[|words[0]|..])
    else AsnFrom(l, words[1..])
  }

  function AsnOfLine(l: string): Option<string> {
    AsnFrom(l, AsnWords)
  }

  /** The case of "as" does not matter. */
  lemma AsnNumberIgnoresCase()
    ensures AsnNumber("as16509") == Some("16509")
  {
    var b := "as16509";
    DigitRunConcat(b[2..], []);
    assert b[2..] + [] == b[2..];
    assert DigitRun(b[2..]) == 5;
    assert LowerChar(b[0]) == 'a' && LowerChar(b[1]) == 's';
    assert b[2..7] == "16509";
  }

  /** The number may not run into a word character. */
  lemma AsnNumberNeedsBoundary()
    ensures AsnNumber("AS16509x") == None
  {
    var b := "AS16509x";
    DigitRunConcat(b[2..7], b[7..]);
    assert b[2..7] + b[7..] == b[2..];
  }

  /** Anything that is not a word character may follow the number. */
  lemma AsnNumberBeforeSpace()
    ensures AsnNumber("AS7 (route)") == Some("7")
  {
    var b := "AS7 (route)";
    DigitRunConcat(b[2..3], b[3..]);
    assert b[2..3] + b[3..] == b[2..];
    assert DigitRun(b[2..]) == 1;
    assert LowerChar(b[0]) == 'a' && LowerChar(b[1]) == 's';
    assert !IsWordChar(b[3]);
    assert b[2..3] == "7";
  }

  // ---------------------------------------------------------------- the parse

  /** The value of the first line `f` gives one for. */
  function FirstSome<T>(ls: seq<string>, f: string -> Option<T>): Option<T> {
    if ls == [] then None
    else
      var before := FirstSome(ls[..|ls| - 1], f);
      if before.Some? then before else f(ls[|ls| - 1])
  }

  /** The value of the last line `f` gives one for. */
  function LastSome<T>(ls: seq<string>, f: string -> Option<T>): Option<T> {
    if ls == [] then None
    else
      var here := f(ls[|ls| - 1]);
      if here.Some? then here else LastSome(ls[..|ls| - 1], f)
  }

  /** The organisation: the value of the first line some pattern matches. */
  function FirstOrg(ls: seq<string>): Option<string> {
    FirstSome(ls, OrgOfLine)
  }

  /** The AS number: the match of the last line that has one. */
  function LastAsn(ls: seq<string>): Option<string> {
    LastSome(ls, AsnOfLine)
  }

  lemma {:induction false} FirstSomeNone<T>(ls: seq<string>, f: string -> Option<T>)
    ensures FirstSome(ls, f).None? <==> forall j :: 0 <= j < |ls| ==> f(ls[j]).None?
    decreases |ls|
  {
    if ls != [] {
      var n := |ls| - 1;
      FirstSomeNone(ls[..n], f);
      assert forall j :: 0 <= j < n ==> ls[..n][j] == ls[j];
    }
  }

  lemma {:induction false} FirstSomeIsFirst<T>(ls: seq<string>, f: string -> Option<T>, k: nat)
    requires k < |ls| && f(ls[k]).Some?
    requires forall j :: 0 <= j < k ==> f(ls[j]).None?
    ensures FirstSome(ls, f) == f(ls[k])
    decreases |ls|
  {
    var n := |ls| - 1;
    if k < n {
      assert forall j :: 0 <= j <= k ==> ls[..n][j] == ls[j];
      FirstSomeIsFirst(ls[..n], f, k);
    } else {
      assert forall j :: 0 <= j < n ==> ls[..n][j] == ls[j];
      FirstSomeNone(ls[..n], f);
    }
  }

  lemma {:induction false} LastSomeIsLast<T>(ls: seq<string>, f: string -> Option<T>, k: nat)
    requires k < |ls| && f(ls[k]).Some?
    requires forall j :: k < j < |ls| ==> f(ls[j]).None?
    ensures LastSome(ls, f) == f(ls[k])
    decreases |ls|
  {
    var n := |ls| - 1;
    if k < n {
      assert forall j :: k <= j < n ==> ls[..n][j] == ls[j];
      LastSomeIsLast(ls[..n], f, k);
    }
  }

  /** The first matching line decides the organisation: later matches, the
      "more specific" ARIN and RIPE patterns included, never replace it; and
      there is none exactly when no line matches. */
  lemma FirstOrgIsFirstMatch(ls: seq<string>, k: nat)
    requires k < |ls| && OrgOfLine(ls[k]).Some?
    requires forall j :: 0 <= j < k ==> OrgOfLine(ls[j]).None?
    ensures FirstOrg(ls) == OrgOfLine(ls[k])
  {
    FirstSomeIsFirst(ls, OrgOfLine, k);
  }

  lemma FirstOrgNone(ls: seq<string>)
    ensures FirstOrg(ls).None? <==> forall j :: 0 <= j < |ls| ==> OrgOfLine(ls[j]).None?
  {
    FirstSomeNone(ls, OrgOfLine);
  }

  /** A later AS match overrides an earlier one: the last matching line decides. */
  lemma LastAsnIsLastMatch(ls: seq<string>, k: nat)
    requires k < |ls| && AsnOfLine(ls[k]).Some?
    requires forall j :: k < j < |ls| ==> AsnOfLine(ls[j]).None?
    ensures LastAsn(ls) == AsnOfLine(ls[k])
  {
    LastSomeIsLast(ls, AsnOfLine, k);
  }

  /** `(org, asn, raw_path)`. */
  datatype WhoisInfo = WhoisInfo(org: Option<string>, asn: Option<string>, rawPath: string)

  /** `whois_query`: `reply` is the server's decoded text, or `None` when the
      exchange raised. */
  method WhoisQuery(hint: Option<string>, reply: Option<string>) returns (w: WhoisInfo)
    ensures reply.None? ==> w == WhoisInfo(None, None, RawPath(hint))
    ensures reply.Some? ==>
      var ls := StripAll(SplitLines(reply.value));
      w == WhoisInfo(FirstOrg(ls), LastAsn(ls), RawPath(hint))
  {
    var server: string;
    if hint.Some? && hint.value != [] && hint.value in RirWhois {
      server := RirWhois[hint.value];
    } else {
      server := DefaultServer;
    }
    var path := (if hint.Some? && hint.value != [] then hint.value else "UNKNOWN") + ":" + server;
    if reply.None? {
      return WhoisInfo(None, None, path);
    }
    var org, asn := ScanLines(StripAll(SplitLines(reply.value)));
    w := WhoisInfo(org, asn, path);
  }

  /** The loop over the stripped reply lines: the first organisation match is
      kept, a later AS match replaces an earlier one. */
  method ScanLines(ls: seq<string>) returns (org: Option<string>, asn: Option<string>)
    ensures org == FirstOrg(ls) && asn == LastAsn(ls)
  {
    org, asn := None, None;
    var k := 0;
    while k < |ls|
      invariant 0 <= k <= |ls|
      invariant org == FirstOrg(ls[..k]) && asn == LastAsn(ls[..k])
      decreases |ls| - k
    {
      var l := ls[k];
      assert ls[..k + 1][..k] == ls[..k] && ls[..k + 1][k] == l;
      var m := MatchPatterns(l);
      if m.Some? && org.None? {
        org := m;
      }
      var mAs := AsnOfLine(l);
      if mAs.Some? {
        asn := mAs;
      }
      k := k + 1;
    }
    assert ls[..k] == ls;
  }

  /** The inner loop over the patterns, stopping at the first that matches. */
  method MatchPatterns(l: string) returns (m: Option<string>)
    ensures m == OrgOfLine(l)
  {
    m := MatchFrom(l, OrgPatterns);
  }

  /** The same loop over any pattern list. */
  method MatchFrom(l: string, pats: seq<string>) returns (m: Option<string>)
    ensures m == OrgFrom(l, pats)
  {
    var i := 0;
    while i < |pats|
      invariant 0 <= i <= |pats|
      invariant OrgFrom(l, pats[i..]) == OrgFrom(l, pats)
      decreases |pats| - i
    {
      var pat := pats[i];
      assert pats[i..][0] == pat && pats[i..][1..] == pats[i + 1..];
      if StartsWithNoCase(l, pat) && |l| > |pat| {
        return Some(Strip(OrgGroup(l[|pat|..])));
      }
      i := i + 1;
    }
    return None;
  }
}
