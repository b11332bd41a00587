/** `RDAPClient` of ip_enricher_whois.py: `_parse_rdap` reads the owner,
    handle, network type and registry out of an RDAP document, and `lookup_ip`
    fetches the document with a backoff on 429/503 and caches it by address.

    The document is the part of the decoded JSON the parser looks at, and the
    HTTP exchange is a parameter: `http(i)` is how the `i`-th `http_get` call
    of one lookup ends. */
module Rdap {
  import opened Common
  import opened Ipv4

  /** An element of `vcardArray[1]`: a list of strings, or a value that cannot
      be indexed (a string item counts as this one: its `item[0]` is one
      character, never "fn"). */
  datatype VItem = Fields(fields: seq<string>) | NotIndexable

  /** An entity: its roles, and the items of its `vcardArray` when that is a
      two-element list whose second element is a list. */
  datatype Entity = Entity(roles: seq<string>, vcard: Option<seq<VItem>>)

  datatype Doc = Doc(finalUrl: Option<string>, handle: Option<string>, netType: Option<string>,
                     name: Option<string>, entities: seq<Entity>)

  /** `(owner, handle, net_type, registry, rdap_url)`. */
  datatype RdapInfo = RdapInfo(owner: Option<string>, handle: Option<string>, netType: Option<string>,
                               registry: Option<string>, rdapUrl: Option<string>)

  // ---------------------------------------------------------------- registry

  predicate IsSchemeChar(c: char) {
    'a' <= c <= 'z' || 'A' <= c <= 'Z' || '0' <= c <= '9' || c == '+' || c == '-' || c == '.'
  }

  /** What `urlsplit` leaves once it has taken off a scheme: the scheme is the
      text before the first ':' when it is non-empty, starts with an ASCII
      letter and has only scheme characters. */
  function AfterScheme(url: string): (r: string)
    ensures |r| <= |url|
  {
    if ':' !in url then url
    else
      var i := IndexOf(url, ':');
      if i > 0 && ('a' <= url[0] <= 'z' || 'A' <= url[0] <= 'Z') && forall k :: 0 <= k < i ==> IsSchemeChar(url[k])
      then url[i + 1..] else url
  }

  /** The length of the longest prefix of `s` without '/', '?' or '#'. */
  function NetlocEnd(s: string): (n: nat)
    ensures n <= |s|
    ensures forall k :: 0 <= k < n ==> s[k] != '/' && s[k] != '?' && s[k] != '#'
    ensures n < |s| ==> s[n] == '/' || s[n] == '?' || s[n] == '#'
  {
    if s == [] || s[0] == '/' || s[0] == '?' || s[0] == '#' then 0 else 1 + NetlocEnd(s[1..])
  }

  /** `urlparse(url).netloc`. */
  function Netloc(url: string): (r: string)
    ensures '/' !in r && '?' !in r && '#' !in r
  {
    var rest := AfterScheme(url);
    if |rest| >= 2 && rest[..2] == "//" then rest[2..2 + NetlocEnd(rest[2..])] else []
  }

  /** The registry named by a lower-cased host: the five tests in their order,
      the host itself when none holds. */
  function RegistryOfHost(host: string): string {
    if Contains(host, "arin.net") then "ARIN"
    else if Contains(host, "ripe.net") then "RIPE NCC"
    else if Contains(host, "apnic.net") then "APNIC"
    else if Contains(host, "lacnic.net") then "LACNIC"
    else if Contains(host, "afrinic.net") then "AFRINIC"
    else host
  }

  function Registry(url: Option<string>): Option<string> {
    if !Truthy(url) then None else Some(RegistryOfHost(Lower(Netloc(url.value))))
  }

  /** The registry is `None` exactly without a URL; otherwise it is the first
      registry in the fixed order whose domain the host holds, and the host
      itself only when it holds none of them. */
  lemma RegistryClassification(url: Option<string>)
    ensures Registry(url).None? <==> !Truthy(url)
    ensures Truthy(url) ==>
      var host := Lower(Netloc(url.value));
      (Contains(host, "arin.net") ==> Registry(url) == Some("ARIN"))
      && (!Contains(host, "arin.net") && Contains(host, "ripe.net") ==> Registry(url) == Some("RIPE NCC"))
      && ((!Contains(host, "arin.net") && !Contains(host, "ripe.net") && !Contains(host, "apnic.net")
           && !Contains(host, "lacnic.net") && !Contains(host, "afrinic.net")) ==> Registry(url) == Some(host))
  {
  }

  /** A host that holds "arin.net" is ARIN even when it also holds a later
      registry's domain: the tests are tried in order. */
  lemma RegistryOrderExample()
    ensures RegistryOfHost("rdap.arin.net.ripe.net") == "ARIN"
    ensures RegistryOfHost("ripe.net") == "RIPE NCC"
    ensures RegistryOfHost("rdap.example.org") == "rdap.example.org"
  {
    var a := "rdap.arin.net.ripe.net";
    assert OccursAt(a, "arin.net", 5);
    var b := "ripe.net";
    assert OccursAt(b, "ripe.net", 0);
    AbsentChar(b, "arin.net", 0);
    var c := "rdap.example.org";
    AbsentChar(c, "arin.net", 7);
    AbsentChar(c, "ripe.net", 7);
    AbsentChar(c, "apnic.net", 8);
    AbsentChar(c, "lacnic.net", 9);
    AbsentChar(c, "afrinic.net", 10);
  }

  // ---------------------------------------------------------------- owner

  const ListedRoles: seq<string> := ["registrant", "administrative", "technical", "abuse", "noc", "organization"]

  predicate HasListedRole(e: Entity) {
    exists i :: 0 <= i < |ListedRoles| && ListedRoles[i] in e.roles
  }

  /** What the inner loop over the vCard items assigns before its `break`: the
      fourth field of the first item whose first field is "fn" and that has a
      fourth field (an item too short for either raises and is skipped). */
  function FnValue(items: seq<VItem>): Option<string> {
    if items == [] then None
    else
      match items[0]
      case Fields(f) => if |f| >= 4 && f[0] == "fn" then Some(f[3]) else FnValue(items[1..])
      case NotIndexable => FnValue(items[1..])
  }

  /** The loop over the entities from the current one on, with `owner` as it
      stands: a listed entity with an `fn` value replaces it, and a truthy
      owner ends the loop. */
  function OwnerFrom(entities: seq<Entity>, owner: Option<string>): Option<string> {
    if entities == [] then owner
    else
      var e := entities[0];
      if HasListedRole(e) then
        var o := if e.vcard.Some? && FnValue(e.vcard.value).Some? then FnValue(e.vcard.value) else owner;
        if Truthy(o) then o else OwnerFrom(entities[1..], o)
      else OwnerFrom(entities[1..], owner)
  }

  /** The owner `_parse_rdap` reports: the loop's, or the document's name. */
  function Owner(doc: Doc): Option<string> {
    var o := OwnerFrom(doc.entities, None);
    if Truthy(o) then o else doc.name
  }

  function InfoOf(doc: Doc): RdapInfo {
    RdapInfo(Owner(doc), doc.handle, doc.netType, Registry(doc.finalUrl), doc.finalUrl)
  }

  /** The reference definition: the non-empty `fn` value of the first listed
      entity that has one. */
  function FirstTruthyFn(entities: seq<Entity>): (r: Option<string>)
    ensures r.Some? ==> r.value != []
  {
    if entities == [] then None
    else
      var e := entities[0];
      if HasListedRole(e) && e.vcard.Some? && Truthy(FnValue(e.vcard.value)) then FnValue(e.vcard.value)
      else FirstTruthyFn(entities[1..])
  }

  lemma {:induction false} OwnerFromIsFirstTruthyFn(entities: seq<Entity>, owner: Option<string>)
    requires !Truthy(owner)
    ensures Truthy(OwnerFrom(entities, owner)) <==> FirstTruthyFn(entities).Some?
    ensures FirstTruthyFn(entities).Some? ==> OwnerFrom(entities, owner) == FirstTruthyFn(entities)
  {
    if entities != [] {
      var e := entities[0];
      if HasListedRole(e) {
        var o := if e.vcard.Some? && FnValue(e.vcard.value).Some? then FnValue(e.vcard.value) else owner;
        if !Truthy(o) {
          OwnerFromIsFirstTruthyFn(entities[1..], o);
        }
      } else {
        OwnerFromIsFirstTruthyFn(entities[1..], owner);
      }
    }
  }

  /** The owner is the first non-empty `fn` of a listed entity, else the name. */
  lemma OwnerIsFirstFnOrName(doc: Doc)
    ensures Owner(doc) == if FirstTruthyFn(doc.entities).Some? then FirstTruthyFn(doc.entities) else doc.name
  {
    OwnerFromIsFirstTruthyFn(doc.entities, None);
  }

  /** `_parse_rdap`, with its two loops over entities and vCard items. */
  method ParseRdap(doc: Doc) returns (info: RdapInfo)
    ensures info == InfoOf(doc)
  {
    var registry := Registry(doc.finalUrl);
    var owner: Option<string> := None;
    var k := 0;
    while k < |doc.entities|
      invariant 0 <= k <= |doc.entities|
      invariant OwnerFrom(doc.entities[k..], owner) == OwnerFrom(doc.entities, None)
      invariant !Truthy(owner)
      decreases |doc.entities| - k
    {
      var e := doc.entities[k];
      assert doc.entities[k..][1..] == doc.entities[k + 1..];
      if HasListedRole(e) {
        if e.vcard.Some? {
          owner := ScanItems(e.vcard.value, owner);
        }
        if owner.Some? && owner.value != [] {
          return RdapInfo(owner, doc.handle, doc.netType, registry, doc.finalUrl);
        }
      }
      k := k + 1;
    }
    if !(owner.Some? && owner.value != []) {
      owner := doc.name;
    }
    info := RdapInfo(owner, doc.handle, doc.netType, registry, doc.finalUrl);
  }

  /** The inner loop: stops at the first `fn` item, skipping the items whose
      indexing raises. */
  method ScanItems(items: seq<VItem>, owner: Option<string>) returns (o: Option<string>)
    ensures o == if FnValue(items).Some? then FnValue(items) else owner
  {
    var j := 0;
    while j < |items|
      invariant 0 <= j <= |items|
      invariant FnValue(items[j..]) == FnValue(items)
      decreases |items| - j
    {
      assert items[j..][1..] == items[j + 1..];
      if items[j].Fields? {
        var f := items[j].fields;
        if |f| >= 1 && f[0] == "fn" && |f| >= 4 {
          return Some(f[3]);
        }
      }
      j := j + 1;
    }
    return owner;
  }

  // ---------------------------------------------------------------- lookup_ip

  /** How one `http_get` ends: a status, the body decoded as a document (`None`
      when `json.loads` raises), and the final URL; or an exception. */
  datatype HttpReply = Reply(code: int, json: Option<Doc>, finalUrl: string) | HttpRaised

  datatype Fetch = Fetched(doc: Doc) | NoDocument | Raised

  /** The fetch loop from request `i` on with the current backoff: the
      outcome, the sleeps it makes, and the requests it sends. */
  datatype FetchRun = FetchRun(outcome: Fetch, sleeps: seq<nat>, requests: nat)

  const Attempts: nat := 5

  const Backoffs: seq<nat> := [2, 4, 8, 16, 30]

  function FetchFrom(http: nat -> HttpReply, i: nat, backoff: nat): FetchRun
    requires i <= Attempts
    decreases Attempts - i
  {
    if i == Attempts then FetchRun(NoDocument, [], 0)
    else
      match http(i)
      case HttpRaised => FetchRun(Raised, [], 1)
      case Reply(code, json, final) =>
        if code == 200 then
          if json.None? then FetchRun(NoDocument, [], 1)
          else FetchRun(Fetched(json.value.(finalUrl := Some(final))), [], 1)
        else if code == 429 || code == 503 then
          var rest := FetchFrom(http, i + 1, Min(backoff * 2, 30));
          FetchRun(rest.outcome, [backoff] + rest.sleeps, rest.requests + 1)
        else FetchRun(NoDocument, [], 1)
  }

  /** The backoff in force before request `i` of the schedule. */
  function BackoffAt(i: nat): nat {
    if i < Attempts then Backoffs[i] else 30
  }

  /** Doubling the current backoff, capped at 30, gives the next one. */
  lemma BackoffDoubles(i: nat)
    requires i < Attempts
    ensures Min(BackoffAt(i) * 2, 30) == BackoffAt(i + 1)
  {
    if i == 0 {
    } else if i == 1 {
    } else if i == 2 {
    } else if i == 3 {
    } else {
    }
  }

  /** At most five requests; the sleeps come from the doubling schedule capped
      at 30, one before each retry; a document comes only from a 200 reply. */
  lemma {:induction false} FetchSchedule(http: nat -> HttpReply, i: nat)
    requires i <= Attempts
    ensures var f := FetchFrom(http, i, BackoffAt(i));
      f.requests <= Attempts - i
      && i + |f.sleeps| <= Attempts
      && (forall k :: 0 <= k < |f.sleeps| ==> f.sleeps[k] == Backoffs[i + k])
      && (f.outcome.Fetched? ==> f.requests == |f.sleeps| + 1)
    decreases Attempts - i
  {
    if i < Attempts {
      FetchSchedule(http, i + 1);
      if http(i).Reply? && http(i).code != 200 && (http(i).code == 429 || http(i).code == 503) {
        BackoffDoubles(i);
        var rest := FetchFrom(http, i + 1, BackoffAt(i + 1));
        var f := FetchFrom(http, i, BackoffAt(i));
        assert f.sleeps == [Backoffs[i]] + rest.sleeps;
        forall k | 0 <= k < |f.sleeps|
          ensures f.sleeps[k] == Backoffs[i + k]
        {
          if k > 0 {
            assert f.sleeps[k] == rest.sleeps[k - 1];
          }
        }
      }
    }
  }

  /** The cached document of a fetch records where the reply came from. */
  lemma FetchedRecordsFinalUrl(http: nat -> HttpReply, i: nat, backoff: nat)
    requires i <= Attempts
    ensures FetchFrom(http, i, backoff).outcome.Fetched? ==>
      exists j :: i <= j < Attempts && http(j).Reply? && http(j).code == 200
        && FetchFrom(http, i, backoff).outcome.doc.finalUrl == Some(http(j).finalUrl)
    decreases Attempts - i
  {
    if i < Attempts && http(i).Reply? && (http(i).code == 429 || http(i).code == 503) && http(i).code != 200 {
      FetchedRecordsFinalUrl(http, i + 1, Min(backoff * 2, 30));
    }
  }

  datatype Lookup = Found(info: RdapInfo) | NotFound | LookupRaised

  /** The client and its cache of documents by `"rdap:" + address`. */
  class RdapClient {
    var cache: map<string, Doc>

    constructor()
      ensures cache == map[]
    {
      cache := map[];
    }

    static function Key(ip: Addr): string {
      "rdap:" + FormatAddr(ip)
    }

    /** `lookup_ip`: a cached document is parsed without a request; otherwise
        the fetch loop runs, and a fetched document is cached and parsed. */
    method LookupIp(ip: Addr, http: nat -> HttpReply) returns (r: Lookup, sleeps: seq<nat>, requests: nat)
      modifies this
      ensures Key(ip) in old(cache) ==>
        r == Found(InfoOf(old(cache)[Key(ip)])) && cache == old(cache) && sleeps == [] && requests == 0
      ensures Key(ip) !in old(cache) ==>
        var f := FetchFrom(http, 0, 2);
        sleeps == f.sleeps && requests == f.requests
        && (f.outcome.Fetched? ==> r == Found(InfoOf(f.outcome.doc)) && cache == old(cache)[Key(ip) := f.outcome.doc])
        && (f.outcome.NoDocument? ==> r == NotFound && cache == old(cache))
        && (f.outcome.Raised? ==> r == LookupRaised && cache == old(cache))
    {
      var key := Key(ip);
      if key in cache {
        var info := ParseRdap(cache[key]);
        return Found(info), [], 0;
      }
      var f := FetchDocument(http);
      sleeps, requests := f.sleeps, f.requests;
      match f.outcome
      case Fetched(doc) =>
        cache := cache[key := doc];
        var info := ParseRdap(doc);
        r := Found(info);
      case NoDocument =>
        r := NotFound;
      case Raised =>
        r := LookupRaised;
    }
  }

  /** The `for` loop of `lookup_ip`: up to five requests, sleeping the current
      backoff and doubling it (capped at 30) after a 429 or a 503. */
  method FetchDocument(http: nat -> HttpReply) returns (f: FetchRun)
    ensures f == FetchFrom(http, 0, 2)
  {
    ghost var whole := FetchFrom(http, 0, 2);
    var backoff: nat := 2;
    var sleeps: seq<nat> := [];
    var requests: nat := 0;
    var i := 0;
    while i < Attempts
      invariant 0 <= i <= Attempts
      invariant FetchFrom(http, i, backoff).outcome == whole.outcome
      invariant sleeps + FetchFrom(http, i, backoff).sleeps == whole.sleeps
      invariant requests + FetchFrom(http, i, backoff).requests == whole.requests
      decreases Attempts - i
    {
      var reply := http(i);
      requests := requests + 1;
      assert sleeps + [] == sleeps;
      match reply
      case HttpRaised =>
        return FetchRun(Raised, sleeps, requests);
      case Reply(code, json, final) =>
        if code == 200 {
          if json.None? {
            return FetchRun(NoDocument, sleeps, requests);
          }
          return FetchRun(Fetched(json.value.(finalUrl := Some(final))), sleeps, requests);
        } else if code == 429 || code == 503 {
          ghost var rest := FetchFrom(http, i + 1, Min(backoff * 2, 30));
          assert sleeps + ([backoff] + rest.sleeps) == (sleeps + [backoff]) + rest.sleeps;
          sleeps := sleeps + [backoff];
          backoff := Min(backoff * 2, 30);
          i := i + 1;
        } else {
          return FetchRun(NoDocument, sleeps, requests);
        }
    }
    assert sleeps + [] == sleeps;
    f := FetchRun(NoDocument, sleeps, requests);
  }
}
