/** Hostname_To_IP.py: every host name of hostnames.txt is pinged once, the
    address is taken from between the first pair of parentheses of ping's
    output, and a line "<host>: <address>" or "<host>: Failed to get IP" is
    written to ips.txt. Running ping is an oracle: the decoded output, or
    None when ping exits with an error or its output is not UTF-8. */
module HostnameIp {
  import opened Common

  /** `.*?(?=\))` from `q`: the nearest ')' at or after `q` with no newline
      before it, since '.' does not match a newline. */
  function CloseFrom(s: string, q: nat): (r: Option<nat>)
    requires q <= |s|
    ensures r.Some? ==> q <= r.value < |s| && s[r.value] == ')'
    ensures r.Some? ==> forall k :: q <= k < r.value ==> s[k] != ')' && s[k] != '\n'
    ensures r.None? ==> forall e :: q <= e < |s| && s[e] == ')' ==> exists k :: q <= k < e && s[k] == '\n'
    decreases |s| - q
  {
    if q == |s| || s[q] == '\n' then None
    else if s[q] == ')' then Some(q)
    else CloseFrom(s, q + 1)
  }

  /** The pattern `(?<=\().*?(?=\))` matches at `p`. */
  predicate Opens(s: string, p: nat)
    requires p <= |s|
  {
    p >= 1 && s[p - 1] == '(' && CloseFrom(s, p).Some?
  }

  /** `re.search` from `p`: the leftmost position where the pattern matches. */
  function SearchFrom(s: string, p: nat): (r: Option<nat>)
    requires p <= |s|
    ensures r.Some? ==> p <= r.value <= |s| && Opens(s, r.value)
    ensures r.Some? ==> forall k :: p <= k < r.value ==> !Opens(s, k)
    ensures r.None? ==> forall k :: p <= k <= |s| ==> !Opens(s, k)
    decreases |s| - p
  {
    if Opens(s, p) then Some(p)
    else if p == |s| then None
    else SearchFrom(s, p + 1)
  }

  /** `get_ip_address`: None when ping failed or nothing matched (the
      `AttributeError` of `.group` on no match is caught), otherwise the text
      between the leftmost '(' that has a ')' later on its line and the
      nearest such ')'. */
  function GetIpAddress(response: Option<string>): (r: Option<string>)
    ensures response.None? ==> r.None?
    ensures r.Some? ==> ')' !in r.value && '\n' !in r.value
    ensures r.Some? ==> exists p: nat | p <= |response.value| :: (
      && Opens(response.value, p) && CloseFrom(response.value, p) == Some(p + |r.value|)
      && response.value[p..p + |r.value|] == r.value
      && forall k :: 0 <= k < p ==> !Opens(response.value, k))
    ensures response.Some? && r.None? ==> forall k :: 0 <= k <= |response.value| ==> !Opens(response.value, k)
  {
    if response.None? then None
    else
      var s := response.value;
      var p := SearchFrom(s, 0);
      if p.None? then None
      else
        var e := CloseFrom(s, p.value).value;
        var ip := s[p.value..e];
        assert forall k :: 0 <= k < |ip| ==> ip[k] == s[p.value + k];
        assert ')' !in ip && '\n' !in ip;
        assert e == p.value + |ip| && s[p.value..p.value + |ip|] == ip;
        Some(ip)
  }

  /** Ping's usual "PING host (address) ..." form: with no '(' before the
      address and no ')' or newline inside it, the address comes back whole. */
  lemma FirstParenthesised(pre: string, ip: string, post: string)
    requires '(' !in pre && ')' !in ip && '\n' !in ip
    ensures GetIpAddress(Some(pre + "(" + ip + ")" + post)) == Some(ip)
  {
    var s := pre + "(" + ip + ")" + post;
    var p := |pre| + 1;
    assert s[p - 1] == '(' && s[p + |ip|] == ')';
    forall k | 0 <= k < |ip|
      ensures s[p + k] == ip[k]
    {
    }
    assert s[p..p + |ip|] == ip;
    CloseAt(s, p, p + |ip|);
    forall k | 0 <= k < p
      ensures !Opens(s, k)
    {
      if k >= 1 {
        assert s[k - 1] == pre[k - 1];
      }
    }
    SearchAt(s, 0, p);
  }

  lemma {:induction false} SearchAt(s: string, q: nat, p: nat)
    requires q <= p <= |s| && Opens(s, p)
    requires forall k :: q <= k < p ==> !Opens(s, k)
    ensures SearchFrom(s, q) == Some(p)
    decreases p - q
  {
    if q < p {
      SearchAt(s, q + 1, p);
    }
  }

  lemma {:induction false} CloseAt(s: string, q: nat, e: nat)
    requires q <= e < |s| && s[e] == ')'
    requires forall k :: q <= k < e ==> s[k] != ')' && s[k] != '\n'
    ensures CloseFrom(s, q) == Some(e)
    decreases e - q
  {
    if q < e {
      CloseAt(s, q + 1, e);
    }
  }

  /** One line of ips.txt, without its newline: an empty match is falsy,
      like no match. */
  function ReportLine(hostname: string, ip: Option<string>): string {
    if Truthy(ip) then hostname + ": " + ip.value else hostname + ": Failed to get IP"
  }

  /** Output such as "PING h () ..." gives an empty address, and the host is
      reported as failed. */
  lemma EmptyParenthesesFail(hostname: string, pre: string, post: string)
    requires '(' !in pre
    ensures GetIpAddress(Some(pre + "()" + post)) == Some([])
    ensures ReportLine(hostname, GetIpAddress(Some(pre + "()" + post))) == hostname + ": Failed to get IP"
  {
    FirstParenthesised(pre, [], post);
    assert pre + "(" + [] + ")" + post == pre + "()" + post;
  }

  /** The lines of ips.txt after the first hosts; `ping(i)` is the outcome of
      pinging the i-th host. */
  function Reports(hostnames: seq<string>, ping: nat -> Option<string>): seq<string> {
    if hostnames == [] then []
    else
      var n := |hostnames| - 1;
      Reports(hostnames[..n], ping) + [ReportLine(hostnames[n], GetIpAddress(ping(n)))]
  }

  /** One line per host, in file order: the i-th line reports the i-th host
      with the outcome of its own ping. */
  lemma {:induction false} ReportsMeaning(hostnames: seq<string>, ping: nat -> Option<string>)
    ensures |Reports(hostnames, ping)| == |hostnames|
    ensures forall i :: 0 <= i < |hostnames| ==>
      Reports(hostnames, ping)[i] == ReportLine(hostnames[i], GetIpAddress(ping(i)))
  {
    if hostnames != [] {
      var n := |hostnames| - 1;
      ReportsMeaning(hostnames[..n], ping);
      assert forall i :: 0 <= i < n ==> hostnames[..n][i] == hostnames[i];
    }
  }

  /** What ips.txt holds. */
  function Output(hostnames: seq<string>, ping: nat -> Option<string>): string {
    Lines(Reports(hostnames, ping))
  }

  /** `main`: the text written to ips.txt for the lines of hostnames.txt. */
  method RunHostnames(lines: seq<string>, ping: nat -> Option<string>) returns (written: string)
    ensures written == Output(StripAll(lines), ping)
  {
    written := WriteReports(StripAll(lines), ping);
  }

  /** The loop of `main` over the stripped host names. */
  method WriteReports(hostnames: seq<string>, ping: nat -> Option<string>) returns (written: string)
    ensures written == Output(hostnames, ping)
  {
    written := [];
    for n := 0 to |hostnames|
      invariant written == Lines(Reports(hostnames[..n], ping))
    {
      assert hostnames[..n + 1][..n] == hostnames[..n] && hostnames[..n + 1][n] == hostnames[n];
      var hostname := hostnames[n];
      var ipAddress := GetIpAddress(ping(n));
      var line: string;
      if ipAddress.Some? && ipAddress.value != [] {
        line := hostname + ": " + ipAddress.value;
      } else {
        line := hostname + ": Failed to get IP";
      }
      LinesSnoc(Reports(hostnames[..n], ping), line);
      written := written + line + "\n";
    }
    assert hostnames[..|hostnames|] == hostnames;
  }
}
