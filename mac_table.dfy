/** access_session_oui.py: `find_mac_addresses_and_ports` pulls
    (VLAN, MAC, port) triples out of `show mac address-table` output with one
    `findall`, and `main` appends one line per triple to the switch's output
    file. The SSH session and the OUI database are parameters of the model. */
module MacTable {
  import opened Common

  /** Python's `\S`. */
  predicate NonSpace(c: char) { !IsSpace(c) }

  /** The end of the longest run of characters satisfying `f` from `p`: the
      extent of a greedy `x+` (or `x*`) at `p`. */
  function Run(s: string, p: nat, f: char -> bool): (e: nat)
    requires p <= |s|
    ensures p <= e <= |s|
    decreases |s| - p
  {
    if p == |s| || !f(s[p]) then p else Run(s, p + 1, f)
  }

  /** The run holds only `f` characters and stops at a non-`f` one or at
      the end. */
  lemma {:induction false} RunSpan(s: string, p: nat, f: char -> bool)
    requires p <= |s|
    ensures forall k :: p <= k < Run(s, p, f) ==> f(s[k])
    ensures Run(s, p, f) < |s| ==> !f(s[Run(s, p, f)])
    decreases |s| - p
  {
    if p < |s| && f(s[p]) {
      RunSpan(s, p + 1, f);
    }
  }

  /** A run is determined by where it ends: any stretch of `f` characters
      that stops at a non-`f` character or the end is the greedy run. */
  lemma {:induction false} RunUnique(s: string, p: nat, e: nat, f: char -> bool)
    requires p <= e <= |s|
    requires forall k :: p <= k < e ==> f(s[k])
    requires e < |s| ==> !f(s[e])
    ensures Run(s, p, f) == e
    decreases e - p
  {
    if p < e {
      RunUnique(s, p + 1, e, f);
    }
  }

  /** `[0-9A-Fa-f]{4}\.[0-9A-Fa-f]{4}\.[0-9A-Fa-f]{4}`: three groups of four
      hex digits joined by dots, the form IOS prints a MAC address in. */
  predicate IsMac(m: string) {
    |m| == 14 && m[4] == '.' && m[9] == '.'
    && forall k :: 0 <= k < 14 && k != 4 && k != 9 ==> IsHexDigit(m[k])
  }

  predicate AllOf(s: string, f: char -> bool) { forall k :: 0 <= k < |s| ==> f(s[k]) }

  /** One match's groups. */
  datatype Entry = Entry(vlan: string, mac: string, port: string)

  datatype Hit = Hit(entry: Entry, end: nat)

  /** The pattern `(\d+)\s+(MAC)\s+\S+\s+(\S+)` tried at position `p`. Every
      repetition is followed by a character it cannot contain, so greedy
      matching never backtracks into it and each run is the longest one; the
      final `\S+` simply takes the whole token. */
  function MatchAt(s: string, p: nat): (r: Option<Hit>)
    requires p <= |s|
    ensures r.Some? ==> p < r.value.end <= |s|
  {
    var a := Run(s, p, IsDigit);
    var b := Run(s, a, IsSpace);
    if a == p || b == a || b + 14 > |s| || !IsMac(s[b..b + 14]) then None
    else
      var c := Run(s, b + 14, IsSpace);
      var d := Run(s, c, NonSpace);
      var e := Run(s, d, IsSpace);
      var f := Run(s, e, NonSpace);
      if c == b + 14 || d == c || e == d || f == e then None
      else Some(Hit(Entry(s[p..a], s[b..b + 14], s[e..f]), f))
  }

  predicate AllIn(s: string, i: nat, j: nat, f: char -> bool)
    requires i <= j <= |s|
  {
    forall k :: i <= k < j ==> f(s[k])
  }

  /** Where the pieces of a match of the pattern at `p` lie: digits in
      [p, a), whitespace in [a, b), the MAC address in [b, b + 14),
      whitespace up to `c`, the type token up to `d`, whitespace up to `e`
      and the port token in [e, f). */
  predicate Segments(s: string, p: nat, a: nat, b: nat, c: nat, d: nat, e: nat, f: nat) {
    && p < a < b && b + 14 < c < d < e < f <= |s|
    && AllIn(s, p, a, IsDigit) && AllIn(s, a, b, IsSpace) && IsMac(s[b..b + 14])
    && AllIn(s, b + 14, c, IsSpace) && AllIn(s, c, d, NonSpace) && AllIn(s, d, e, IsSpace)
    && AllIn(s, e, f, NonSpace)
  }

  /** A match covers exactly a VLAN number, whitespace, a MAC address,
      whitespace, one discarded type token, whitespace and the port token, and
      the port token is not cut short. */
  lemma MatchSound(s: string, p: nat)
    requires p <= |s|
    requires MatchAt(s, p).Some?
    ensures var h := MatchAt(s, p).value;
      && (exists a: nat, b: nat, c: nat, d: nat, e: nat :: Segments(s, p, a, b, c, d, e, h.end)
            && h.entry == Entry(s[p..a], s[b..b + 14], s[e..h.end]))
      && (h.end < |s| ==> IsSpace(s[h.end]))
  {
    var a := Run(s, p, IsDigit);
    var b := Run(s, a, IsSpace);
    var c := Run(s, b + 14, IsSpace);
    var d := Run(s, c, NonSpace);
    var e := Run(s, d, IsSpace);
    var f := Run(s, e, NonSpace);
    var h := MatchAt(s, p).value;
    assert h.end == f && h.entry == Entry(s[p..a], s[b..b + 14], s[e..f]);
    RunsAreSegments(s, p, a, b, c, d, e, f);
    RunSpan(s, e, NonSpace);
  }

  lemma RunsAreSegments(s: string, p: nat, a: nat, b: nat, c: nat, d: nat, e: nat, f: nat)
    requires p < a < b && b + 14 < c < d < e < f <= |s| && IsMac(s[b..b + 14])
    requires a == Run(s, p, IsDigit) && b == Run(s, a, IsSpace) && c == Run(s, b + 14, IsSpace)
    requires d == Run(s, c, NonSpace) && e == Run(s, d, IsSpace) && f == Run(s, e, NonSpace)
    ensures Segments(s, p, a, b, c, d, e, f)
  {
    RunSpan(s, p, IsDigit);
    RunSpan(s, a, IsSpace);
    RunSpan(s, b + 14, IsSpace);
    RunSpan(s, c, NonSpace);
    RunSpan(s, d, IsSpace);
    RunSpan(s, e, NonSpace);
  }

  /** Conversely, wherever such pieces start the pattern matches there,
      with the same VLAN and MAC and a port token that extends the given one. */
  lemma MatchComplete(s: string, p: nat, a: nat, b: nat, c: nat, d: nat, e: nat, f: nat)
    requires Segments(s, p, a, b, c, d, e, f)
    ensures MatchAt(s, p).Some?
    ensures var h := MatchAt(s, p).value;
      h.entry.vlan == s[p..a] && h.entry.mac == s[b..b + 14] && h.end >= f && h.entry.port == s[e..h.end]
  {
    RunUnique(s, p, a, IsDigit);
    RunUnique(s, a, b, IsSpace);
    RunUnique(s, b + 14, c, IsSpace);
    RunUnique(s, c, d, NonSpace);
    RunUnique(s, d, e, IsSpace);
    RunCovers(s, e, f, NonSpace);
  }

  /** A greedy run reaches at least as far as any stretch it could take. */
  lemma {:induction false} RunCovers(s: string, p: nat, e: nat, f: char -> bool)
    requires p <= e <= |s|
    requires forall k :: p <= k < e ==> f(s[k])
    ensures Run(s, p, f) >= e
    decreases e - p
  {
    if p < e {
      RunCovers(s, p + 1, e, f);
    }
  }

  /** `re.findall`: matches tried from left to right, each search resuming
      where the previous match ended. */
  function FindAll(s: string, p: nat): (r: seq<Entry>)
    requires p <= |s|
    ensures forall k :: 0 <= k < |r| ==> Groups(r[k])
    decreases |s| - p
  {
    if p == |s| then []
    else
      var h := MatchAt(s, p);
      if h.Some? then
        MatchGroups(s, p);
        [h.value.entry] + FindAll(s, h.value.end)
      else FindAll(s, p + 1)
  }

  lemma MatchGroups(s: string, p: nat)
    requires p <= |s| && MatchAt(s, p).Some?
    ensures Groups(MatchAt(s, p).value.entry)
  {
    var a := Run(s, p, IsDigit);
    var b := Run(s, a, IsSpace);
    var e := Run(s, Run(s, Run(s, b + 14, IsSpace), NonSpace), IsSpace);
    var f := Run(s, e, NonSpace);
    RunSpan(s, p, IsDigit);
    RunSpan(s, e, NonSpace);
    assert AllOf(s[p..a], IsDigit) by {
      forall k | 0 <= k < a - p
        ensures IsDigit(s[p..a][k])
      {
        assert s[p..a][k] == s[p + k];
      }
    }
    assert AllOf(s[e..f], NonSpace) by {
      forall k | 0 <= k < f - e
        ensures NonSpace(s[e..f][k])
      {
        assert s[e..f][k] == s[e + k];
      }
    }
  }

  /** The three groups' forms: a non-empty digit run, a dotted MAC address
      and a non-empty token without whitespace. */
  predicate Groups(e: Entry) {
    e.vlan != [] && AllOf(e.vlan, IsDigit) && IsMac(e.mac) && e.port != [] && AllOf(e.port, NonSpace)
  }

  function FindMacAddressesAndPorts(output: string): (r: seq<Entry>)
    ensures forall k :: 0 <= k < |r| ==> Groups(r[k])
  {
    FindAll(output, 0)
  }

  /** The line `main` appends for one triple; `manufacturer` is what the OUI
      lookup prints as. */
  function MacLine(e: Entry, manufacturer: string): string {
    "VLAN: " + e.vlan + ", MAC Address: " + e.mac + ", Port: " + e.port + ", Manufacturer: " + manufacturer + "\n"
  }

  /** One append: the file name and the text. */
  datatype Append = Append(file: string, text: string)

  /** The appends for one switch: none when the session failed, and otherwise
      one line per triple, in match order, all to `<ip>_output.txt`. */
  function DeviceAppends(ip: string, output: Option<string>, manuf: string -> string): seq<Append> {
    if output.None? then [] else EntryAppends(ip, FindMacAddressesAndPorts(output.value), manuf)
  }

  function EntryAppends(ip: string, es: seq<Entry>, manuf: string -> string): (r: seq<Append>)
    ensures |r| == |es|
    ensures forall k :: 0 <= k < |es| ==> r[k] == Append(ip + "_output.txt", MacLine(es[k], manuf(es[k].mac)))
  {
    if es == [] then []
    else
      var last := es[|es| - 1];
      EntryAppends(ip, es[..|es| - 1], manuf) + [Append(ip + "_output.txt", MacLine(last, manuf(last.mac)))]
  }

  /** Every switch's appends, in the order of the address file. */
  function AllAppends(ips: seq<string>, ssh: nat -> Option<string>, manuf: string -> string): seq<Append> {
    if ips == [] then []
    else AllAppends(ips[..|ips| - 1], ssh, manuf) + DeviceAppends(ips[|ips| - 1], ssh(|ips| - 1), manuf)
  }

  /** `main`: `lines` are the lines of ip_addresses.txt, `ssh(k)` the output of
      the command on the k-th address (None when `ssh_and_run_command` caught
      an exception) and `manuf` the OUI lookup. Blank lines are not skipped. */
  method RunSwitches(lines: seq<string>, ssh: nat -> Option<string>, manuf: string -> string) returns (appends: seq<Append>)
    ensures appends == AllAppends(StripAll(lines), ssh, manuf)
  {
    var ips := StripAll(lines);
    appends := VisitSwitches(ips, ssh, manuf);
  }

  /** The `for ip in ip_addresses` loop. */
  method VisitSwitches(ips: seq<string>, ssh: nat -> Option<string>, manuf: string -> string) returns (appends: seq<Append>)
    ensures appends == AllAppends(ips, ssh, manuf)
  {
    appends := [];
    var n := 0;
    while n < |ips|
      invariant n <= |ips|
      invariant appends == AllAppends(ips[..n], ssh, manuf)
    {
      AllAppendsStep(ips, n, ssh, manuf);
      var output := ssh(n);
      if output.Some? {
        var written := WriteEntries(ips[n], FindMacAddressesAndPorts(output.value), manuf);
        appends := appends + written;
      }
      n := n + 1;
    }
    assert ips[..n] == ips;
  }

  lemma AllAppendsStep(ips: seq<string>, n: nat, ssh: nat -> Option<string>, manuf: string -> string)
    requires n < |ips|
    ensures AllAppends(ips[..n + 1], ssh, manuf) == AllAppends(ips[..n], ssh, manuf) + DeviceAppends(ips[n], ssh(n), manuf)
  {
    assert ips[..n + 1][..n] == ips[..n] && ips[..n + 1][n] == ips[n];
  }

  /** The inner `for vlan, mac, port in mac_ports` loop. */
  method WriteEntries(ip: string, es: seq<Entry>, manuf: string -> string) returns (r: seq<Append>)
    ensures r == EntryAppends(ip, es, manuf)
  {
    r := [];
    for k := 0 to |es|
      invariant r == EntryAppends(ip, es[..k], manuf)
    {
      assert es[..k + 1][..k] == es[..k] && es[..k + 1][k] == es[k];
      r := r + [Append(ip + "_output.txt", MacLine(es[k], manuf(es[k].mac)))];
    }
    assert es[..|es|] == es;
  }
}
