/** `AWSRanges` of ip_enricher_whois.py: loads the IPv4 prefixes of AWS's
    ip-ranges.json once, and reports whether candidate networks or addresses
    overlap any of them, with the sorted services and regions of those that do.

    The GET of ip-ranges.json is a parameter: `RangesReply` is how it ends. */
module AwsRanges {
  import opened Common
  import opened Ipv4

  /** One element of "prefixes": its "ip_prefix" read as an IPv4 network
      (`None` when the text is not one), and "service"/"region" when present. */
  datatype PrefixEntry = PrefixEntry(net: Option<Block>, service: Option<string>, region: Option<string>)

  /** An element of `prefixes_v4`. */
  datatype AwsPrefix = AwsPrefix(net: Block, service: string, region: string)

  /** The GET: its status and, for a 200, the decoded "prefixes" (`None` when
      `json.loads` raises); or an exception. */
  datatype RangesReply = Ranges(code: int, entries: Option<seq<PrefixEntry>>) | GetRaised

  /** The entry `ensure_loaded` appends for one element: `ip_network` is
      strict, so a prefix with host bits set raises and is skipped; a missing
      service or region takes its default. */
  function KeptOne(e: PrefixEntry): seq<AwsPrefix> {
    if e.net.Some? && Aligned(e.net.value) then
      [AwsPrefix(e.net.value, if e.service.Some? then e.service.value else "AMAZON",
                 if e.region.Some? then e.region.value else "GLOBAL")]
    else []
  }

  /** What the loop over "prefixes" appends, in order. */
  function Kept(es: seq<PrefixEntry>): (r: seq<AwsPrefix>)
    ensures |r| <= |es|
  {
    if es == [] then [] else Kept(es[..|es| - 1]) + KeptOne(es[|es| - 1])
  }

  /** Every kept prefix is a strict network. */
  lemma {:induction false} KeptAligned(es: seq<PrefixEntry>)
    ensures forall i :: 0 <= i < |Kept(es)| ==> Aligned(Kept(es)[i].net)
  {
    if es != [] {
      var n := |es| - 1;
      KeptAligned(es[..n]);
      AlignedAppend(Kept(es[..n]), KeptOne(es[n]));
    }
  }

  lemma AlignedAppend(a: seq<AwsPrefix>, b: seq<AwsPrefix>)
    requires forall i :: 0 <= i < |a| ==> Aligned(a[i].net)
    requires forall i :: 0 <= i < |b| ==> Aligned(b[i].net)
    ensures forall i :: 0 <= i < |a + b| ==> Aligned((a + b)[i].net)
  {
    forall i | 0 <= i < |a + b|
      ensures Aligned((a + b)[i].net)
    {
      if i < |a| {
        assert (a + b)[i] == a[i];
      } else {
        assert (a + b)[i] == b[i - |a|];
      }
    }
  }

  lemma KeptStep(es: seq<PrefixEntry>, k: nat)
    requires k < |es|
    ensures Kept(es[..k + 1]) == Kept(es[..k]) + KeptOne(es[k])
  {
    assert es[..k + 1][..k] == es[..k];
  }

  /** The entries `ensure_loaded` keeps are exactly the aligned ones, each with
      its own service and region or the defaults. */
  lemma KeptMembers(es: seq<PrefixEntry>, p: AwsPrefix)
    ensures p in Kept(es) <==> exists k :: 0 <= k < |es| && KeptOne(es[k]) == [p]
  {
    if p in Kept(es) {
      var k := KeptFrom(es, p);
    }
    if exists k :: 0 <= k < |es| && KeptOne(es[k]) == [p] {
      var k :| 0 <= k < |es| && KeptOne(es[k]) == [p];
      KeptHas(es, k, p);
    }
  }

  lemma {:induction false} KeptHas(es: seq<PrefixEntry>, k: nat, p: AwsPrefix)
    requires k < |es| && KeptOne(es[k]) == [p]
    ensures p in Kept(es)
    decreases |es|
  {
    var n := |es| - 1;
    assert Kept(es) == Kept(es[..n]) + KeptOne(es[n]);
    if k < n {
      assert es[..n][k] == es[k];
      KeptHas(es[..n], k, p);
    }
  }

  lemma {:induction false} KeptFrom(es: seq<PrefixEntry>, p: AwsPrefix) returns (k: nat)
    requires p in Kept(es)
    ensures k < |es| && KeptOne(es[k]) == [p]
    decreases |es|
  {
    var n := |es| - 1;
    assert Kept(es) == Kept(es[..n]) + KeptOne(es[n]);
    if p in KeptOne(es[n]) {
      k := n;
    } else {
      k := KeptFrom(es[..n], p);
      assert es[..n][k] == es[k];
    }
  }

  /** A candidate of `match`: a network, or a bare address. */
  datatype Candidate = Net(block: Block) | Host(addr: Addr)

  /** A bare address is compared as its /32. */
  function CandidateBlock(c: Candidate): Block {
    match c
    case Net(b) => b
    case Host(a) => Block(a, 32)
  }

  /** A /32 overlaps a block exactly when its address lies in the block. */
  lemma HostIsSlash32(a: Addr, b: Block)
    ensures Overlaps(CandidateBlock(Host(a)), b) <==> InBlock(a, b)
  {
    assert BlockSize(32) == 1;
  }

  /** The prefixes that overlap one candidate block, in list order. */
  function HitsOf(cb: Block, ps: seq<AwsPrefix>): seq<AwsPrefix> {
    if ps == [] then []
    else
      var last := ps[|ps| - 1];
      HitsOf(cb, ps[..|ps| - 1]) + (if Overlaps(cb, last.net) then [last] else [])
  }

  /** The hits of one block are the prefixes it overlaps. */
  lemma {:induction false} HitsOfMembers(cb: Block, ps: seq<AwsPrefix>, p: AwsPrefix)
    ensures p in HitsOf(cb, ps) <==> p in ps && Overlaps(cb, p.net)
  {
    if ps != [] {
      var last := ps[|ps| - 1];
      assert ps == ps[..|ps| - 1] + [last];
      HitsOfMembers(cb, ps[..|ps| - 1], p);
    }
  }

  /** The hits of each candidate, one candidate after another. */
  function Gather(cands: seq<Candidate>, hitsOf: Candidate -> seq<AwsPrefix>): seq<AwsPrefix> {
    if cands == [] then []
    else
      var n := |cands| - 1;
      Gather(cands[..n], hitsOf) + hitsOf(cands[n])
  }

  /** A hit of any candidate is gathered. */
  lemma {:induction false} GatherHas(cands: seq<Candidate>, hitsOf: Candidate -> seq<AwsPrefix>, i: nat, p: AwsPrefix)
    requires i < |cands| && p in hitsOf(cands[i])
    ensures p in Gather(cands, hitsOf)
    decreases |cands|
  {
    var n := |cands| - 1;
    if i < n {
      assert cands[..n][i] == cands[i];
      GatherHas(cands[..n], hitsOf, i, p);
    }
  }

  /** Whatever is gathered is a hit of some candidate. */
  lemma {:induction false} GatherFrom(cands: seq<Candidate>, hitsOf: Candidate -> seq<AwsPrefix>, p: AwsPrefix) returns (i: nat)
    requires p in Gather(cands, hitsOf)
    ensures i < |cands| && p in hitsOf(cands[i])
    decreases |cands|
  {
    var n := |cands| - 1;
    if p in hitsOf(cands[n]) {
      i := n;
    } else {
      i := GatherFrom(cands[..n], hitsOf, p);
      assert cands[..n][i] == cands[i];
    }
  }

  /** Every overlapping (candidate, prefix) pair, in the order the two loops meet them. */
  function Hits(cands: seq<Candidate>, ps: seq<AwsPrefix>): seq<AwsPrefix> {
    Gather(cands, c => HitsOf(CandidateBlock(c), ps))
  }

  /** The hits are the prefixes some candidate overlaps. */
  lemma HitsMembers(cands: seq<Candidate>, ps: seq<AwsPrefix>, p: AwsPrefix)
    ensures p in Hits(cands, ps) <==> p in ps && exists i :: 0 <= i < |cands| && Overlaps(CandidateBlock(cands[i]), p.net)
  {
    var hitsOf := c => HitsOf(CandidateBlock(c), ps);
    if p in Hits(cands, ps) {
      var i := GatherFrom(cands, hitsOf, p);
      HitsOfMembers(CandidateBlock(cands[i]), ps, p);
    }
    if p in ps && exists i :: 0 <= i < |cands| && Overlaps(CandidateBlock(cands[i]), p.net) {
      var i :| 0 <= i < |cands| && Overlaps(CandidateBlock(cands[i]), p.net);
      HitsOfMembers(CandidateBlock(cands[i]), ps, p);
      GatherHas(cands, hitsOf, i, p);
    }
  }

  function ServicesOf(hits: seq<AwsPrefix>): set<string> {
    set p | p in hits :: p.service
  }

  function RegionsOf(hits: seq<AwsPrefix>): set<string> {
    set p | p in hits :: p.region
  }

  /** Matched means some candidate overlaps some prefix. */
  lemma MatchedIffOverlap(cands: seq<Candidate>, ps: seq<AwsPrefix>)
    ensures Hits(cands, ps) != [] <==>
      exists i, j :: 0 <= i < |cands| && 0 <= j < |ps| && Overlaps(CandidateBlock(cands[i]), ps[j].net)
  {
    var h := Hits(cands, ps);
    if h != [] {
      assert h[0] in h;
      HitsMembers(cands, ps, h[0]);
      var j :| 0 <= j < |ps| && ps[j] == h[0];
    }
    if exists i, j :: 0 <= i < |cands| && 0 <= j < |ps| && Overlaps(CandidateBlock(cands[i]), ps[j].net) {
      var i, j :| 0 <= i < |cands| && 0 <= j < |ps| && Overlaps(CandidateBlock(cands[i]), ps[j].net);
      InHits(cands, ps, i, j);
    }
  }

  /** A service is reported exactly when a prefix carrying it overlaps some candidate. */
  lemma ServiceIffOverlap(cands: seq<Candidate>, ps: seq<AwsPrefix>, s: string)
    ensures s in ServicesOf(Hits(cands, ps)) <==>
      exists i, j :: 0 <= i < |cands| && 0 <= j < |ps| && ps[j].service == s && Overlaps(CandidateBlock(cands[i]), ps[j].net)
  {
    var h := Hits(cands, ps);
    if s in ServicesOf(h) {
      var p :| p in h && p.service == s;
      HitsMembers(cands, ps, p);
      var i :| 0 <= i < |cands| && Overlaps(CandidateBlock(cands[i]), p.net);
      var j :| 0 <= j < |ps| && ps[j] == p;
    }
    if exists i, j :: 0 <= i < |cands| && 0 <= j < |ps| && ps[j].service == s && Overlaps(CandidateBlock(cands[i]), ps[j].net) {
      var i, j :| 0 <= i < |cands| && 0 <= j < |ps| && ps[j].service == s && Overlaps(CandidateBlock(cands[i]), ps[j].net);
      InHits(cands, ps, i, j);
    }
  }

  /** A region is reported exactly when a prefix carrying it overlaps some candidate. */
  lemma RegionIffOverlap(cands: seq<Candidate>, ps: seq<AwsPrefix>, s: string)
    ensures s in RegionsOf(Hits(cands, ps)) <==>
      exists i, j :: 0 <= i < |cands| && 0 <= j < |ps| && ps[j].region == s && Overlaps(CandidateBlock(cands[i]), ps[j].net)
  {
    var h := Hits(cands, ps);
    if s in RegionsOf(h) {
      var p :| p in h && p.region == s;
      HitsMembers(cands, ps, p);
      var i :| 0 <= i < |cands| && Overlaps(CandidateBlock(cands[i]), p.net);
      var j :| 0 <= j < |ps| && ps[j] == p;
    }
    if exists i, j :: 0 <= i < |cands| && 0 <= j < |ps| && ps[j].region == s && Overlaps(CandidateBlock(cands[i]), ps[j].net) {
      var i, j :| 0 <= i < |cands| && 0 <= j < |ps| && ps[j].region == s && Overlaps(CandidateBlock(cands[i]), ps[j].net);
      InHits(cands, ps, i, j);
    }
  }

  lemma InHits(cands: seq<Candidate>, ps: seq<AwsPrefix>, i: nat, j: nat)
    requires i < |cands| && j < |ps| && Overlaps(CandidateBlock(cands[i]), ps[j].net)
    ensures ps[j] in Hits(cands, ps)
  {
    HitsMembers(cands, ps, ps[j]);
  }

  /** How `match` ends: its triple, or the exception `ensure_loaded` lets out. */
  datatype MatchReply = Results(matched: bool, services: seq<string>, regions: seq<string>) | LoadRaised

  /** `ensure_loaded` raises: the GET raises, or a 200 body is not JSON. */
  predicate LoadRaises(reply: RangesReply) {
    reply.GetRaised? || (reply.code == 200 && reply.entries.None?)
  }

  class AwsRangesTable {
    var loaded: bool
    var prefixes: seq<AwsPrefix>

    /** Nothing is kept before a load, and every kept prefix is a strict network. */
    ghost predicate Valid()
      reads this
    {
      (!loaded ==> prefixes == []) && forall i :: 0 <= i < |prefixes| ==> Aligned(prefixes[i].net)
    }

    constructor()
      ensures Valid() && !loaded && prefixes == []
    {
      loaded := false;
      prefixes := [];
    }

    /** `ensure_loaded`: a loaded table is left alone; otherwise a 200 reply
        fills it and marks it loaded, and any other status leaves it unloaded. */
    method EnsureLoaded(reply: RangesReply) returns (raised: bool)
      requires Valid()
      modifies this
      ensures Valid()
      ensures old(loaded) ==> !raised && loaded && prefixes == old(prefixes)
      ensures !old(loaded) ==> (raised <==> LoadRaises(reply))
      ensures !old(loaded) && raised ==> !loaded && prefixes == old(prefixes)
      ensures !old(loaded) && !raised ==>
        (loaded <==> reply.code == 200) && prefixes == old(prefixes) + (if loaded then Kept(reply.entries.value) else [])
    {
      if loaded {
        return false;
      }
      match reply
      case GetRaised =>
        return true;
      case Ranges(code, entries) =>
        if code == 200 {
          if entries.None? {
            return true;
          }
          ghost var before := prefixes;
          AppendPrefixes(entries.value);
          KeptAligned(entries.value);
          AlignedAppend(before, Kept(entries.value));
          loaded := true;
        }
        return false;
    }

    /** The loop of `ensure_loaded` over "prefixes", appending to `prefixes_v4`. */
    method AppendPrefixes(es: seq<PrefixEntry>)
      modifies this
      ensures loaded == old(loaded) && prefixes == old(prefixes) + Kept(es)
    {
      var k := 0;
      while k < |es|
        invariant 0 <= k <= |es| && loaded == old(loaded)
        invariant prefixes == old(prefixes) + Kept(es[..k])
        decreases |es| - k
      {
        KeptStep(es, k);
        var kept := KeepEntry(es[k]);
        prefixes := prefixes + kept;
        k := k + 1;
      }
      assert es[..k] == es;
    }

    /** `match`: after `ensure_loaded`, an unloaded table gives (False, [], []);
        otherwise the verdict and the sorted, duplicate-free services and
        regions of every prefix some candidate overlaps. */
    method Match(cands: seq<Candidate>, reply: RangesReply) returns (m: MatchReply)
      requires Valid()
      modifies this
      ensures Valid()
      ensures old(loaded) ==> loaded && prefixes == old(prefixes)
      ensures !old(loaded) && !LoadRaises(reply) ==>
        (loaded <==> reply.code == 200) && prefixes == old(prefixes) + (if loaded then Kept(reply.entries.value) else [])
      ensures m.LoadRaised? <==> !old(loaded) && LoadRaises(reply)
      ensures m.Results? && !loaded ==> m == Results(false, [], [])
      ensures m.Results? && loaded ==>
        (m.matched <==> Hits(cands, prefixes) != [])
        && StrictlySorted(m.services) && Elements(m.services) == ServicesOf(Hits(cands, prefixes))
        && StrictlySorted(m.regions) && Elements(m.regions) == RegionsOf(Hits(cands, prefixes))
    {
      var raised := EnsureLoaded(reply);
      if raised {
        return LoadRaised;
      }
      if !loaded {
        return Results(false, [], []);
      }
      var services: set<string> := {};
      var regions: set<string> := {};
      var matched := false;
      ghost var hits: seq<AwsPrefix> := [];
      var ps := prefixes;
      var i := 0;
      while i < |cands|
        invariant 0 <= i <= |cands|
        invariant loaded && prefixes == ps
        invariant hits == Hits(cands[..i], ps)
        invariant matched <==> hits != []
        invariant services == ServicesOf(hits) && regions == RegionsOf(hits)
        decreases |cands| - i
      {
        assert cands[..i + 1][..i] == cands[..i];
        var cnet := CandidateBlock(cands[i]);
        matched, services, regions := ScanPrefixes(cnet, ps, matched, services, regions);
        SetsOfAppend(hits, HitsOf(cnet, ps));
        hits := hits + HitsOf(cnet, ps);
        i := i + 1;
      }
      assert cands[..i] == cands;
      var sortedServices := SortSet(services);
      var sortedRegions := SortSet(regions);
      m := Results(matched, sortedServices, sortedRegions);
    }
  }

  /** The body of the loop of `ensure_loaded` for one element: the
      `ip_network` call, whose failure skips the element, and the defaults. */
  method KeepEntry(e: PrefixEntry) returns (kept: seq<AwsPrefix>)
    ensures kept == KeptOne(e)
  {
    kept := [];
    if e.net.Some? && Aligned(e.net.value) {
      var svc := if e.service.Some? then e.service.value else "AMAZON";
      var reg := if e.region.Some? then e.region.value else "GLOBAL";
      kept := [AwsPrefix(e.net.value, svc, reg)];
    }
  }

  lemma SetsOfAppend(a: seq<AwsPrefix>, b: seq<AwsPrefix>)
    ensures ServicesOf(a + b) == ServicesOf(a) + ServicesOf(b)
    ensures RegionsOf(a + b) == RegionsOf(a) + RegionsOf(b)
  {
    assert forall x :: x in a + b <==> x in a || x in b;
  }

  /** What the inner loop has gathered after the first `j` prefixes, starting
      from `matched`, `services` and `regions`. */
  predicate Scanned(cnet: Block, ps: seq<AwsPrefix>, j: nat, matched: bool, services: set<string>, regions: set<string>,
                    matched': bool, services': set<string>, regions': set<string>)
    requires j <= |ps|
  {
    && (matched' <==> matched || HitsOf(cnet, ps[..j]) != [])
    && services' == services + ServicesOf(HitsOf(cnet, ps[..j]))
    && regions' == regions + RegionsOf(HitsOf(cnet, ps[..j]))
  }

  /** One more prefix: an overlapping one adds its service and region. */
  lemma ScanStep(cnet: Block, ps: seq<AwsPrefix>, j: nat, matched: bool, services: set<string>, regions: set<string>,
                 matched': bool, services': set<string>, regions': set<string>)
    requires j < |ps| && Scanned(cnet, ps, j, matched, services, regions, matched', services', regions')
    ensures Overlaps(cnet, ps[j].net) ==>
      Scanned(cnet, ps, j + 1, matched, services, regions, true, services' + {ps[j].service}, regions' + {ps[j].region})
    ensures !Overlaps(cnet, ps[j].net) ==>
      Scanned(cnet, ps, j + 1, matched, services, regions, matched', services', regions')
  {
    var p := ps[j];
    var before, after := HitsOf(cnet, ps[..j]), HitsOf(cnet, ps[..j + 1]);
    if Overlaps(cnet, p.net) {
      assert after == before + [p] by { HitsOfStep(cnet, ps, j); }
      SetsOfAppend(before, [p]);
      SetsOfOne(p);
    } else {
      assert after == before by { HitsOfStep(cnet, ps, j); }
    }
  }

  lemma SetsOfOne(p: AwsPrefix)
    ensures ServicesOf([p]) == {p.service} && RegionsOf([p]) == {p.region}
  {
    assert forall x :: x in [p] <==> x == p;
  }

  lemma HitsOfStep(cnet: Block, ps: seq<AwsPrefix>, j: nat)
    requires j < |ps|
    ensures HitsOf(cnet, ps[..j + 1]) == HitsOf(cnet, ps[..j]) + (if Overlaps(cnet, ps[j].net) then [ps[j]] else [])
  {
    assert ps[..j + 1][..j] == ps[..j] && ps[..j + 1][j] == ps[j];
  }

  /** The inner loop of `match` over the prefixes, for one candidate block:
      it adds the services and regions of the prefixes the block overlaps. */
  method ScanPrefixes(cnet: Block, ps: seq<AwsPrefix>, matched: bool, services: set<string>, regions: set<string>)
    returns (matched': bool, services': set<string>, regions': set<string>)
    ensures matched' <==> matched || HitsOf(cnet, ps) != []
    ensures services' == services + ServicesOf(HitsOf(cnet, ps))
    ensures regions' == regions + RegionsOf(HitsOf(cnet, ps))
  {
    matched', services', regions' := matched, services, regions;
    var j := 0;
    while j < |ps|
      invariant 0 <= j <= |ps|
      invariant Scanned(cnet, ps, j, matched, services, regions, matched', services', regions')
      decreases |ps| - j
    {
      var p := ps[j];
      ScanStep(cnet, ps, j, matched, services, regions, matched', services', regions');
      if Overlaps(cnet, p.net) {
        matched' := true;
        services' := services' + {p.service};
        regions' := regions' + {p.region};
      }
      j := j + 1;
    }
    assert ps[..j] == ps;
  }
}
