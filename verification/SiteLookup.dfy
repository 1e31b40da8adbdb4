/** The plan serves every site, and host lookup agrees with certificate selection. */
module SiteLookup {
  import opened Basics
  import opened Characters
  import opened Config
  import opened Listen

  ghost predicate KeyedByAddress(sites: Sites) {
    forall k :: k in sites ==> sites[k].address == k
  }

  // ---------------------------------------------------------------------------
  // Listener plan correctness
  // ---------------------------------------------------------------------------

  lemma {:induction false} GroupNamesDistinct(parse: SocketParser, sites: Sites, order: seq<string>, s: SocketAddr)
    requires SocketsOk(parse, sites) && Enumerates(order, sites.Keys) && KeyedByAddress(sites)
    requires AllTls(OnSocket(parse, sites, order, s))
    ensures DistinctNames(OnSocket(parse, sites, order, s)) && NoRepeats(OnSocket(parse, sites, order, s))
  {
    var group := OnSocket(parse, sites, order, s);
    OnSocketExactly(parse, sites, order, s);
    OnSocketNoRepeats(parse, sites, order, s);
    forall i, j | 0 <= i < j < |group| ensures Sni(group[i]) != Sni(group[j]) {
      assert group[i] in group && group[j] in group;
      assert Compatible(parse, sites[group[i].address], sites[group[j].address]);
      SameSni(group[i], group[j]);
    }
  }

  /** Every site of an accepted configuration is served by exactly one listener, of its own kind; a TLS listener has
      one table entry per site and presents a site's own certificate for its hostname in any letter case. */
  lemma {:induction false} PlanServesSite(parse: SocketParser, load: Loader, sites: Sites, order: seq<string>,
      plan: ListenPlan, key: string)
    requires SocketsOk(parse, sites) && Enumerates(order, sites.Keys) && KeyedByAddress(sites)
    requires PlanFor(parse, load, sites, order, plan) && key in sites
    ensures var site, socket := sites[key], Socket(parse, sites[key]);
            && socket.Some? && socket.value in plan
            && site in plan[socket.value].sites && NoRepeats(plan[socket.value].sites)
            && (forall s :: s in plan && site in plan[s].sites ==> s == socket.value)
            && (plan[socket.value].Https? <==> site.tls.Some?)
            && (site.tls.Some? ==>
                  var r := plan[socket.value].resolver;
                  && |r.entries| == |plan[socket.value].sites|
                  && FallbackIsLeast(r)
                  && forall name :: SameText(name, ExtractHostname(site.address)) ==>
                                      Resolve(r, Some(name)) == Some(load(site.tls.value)))
  {
    var site, socket := sites[key], Socket(parse, sites[key]).value;
    forall s ensures site in OnSocket(parse, sites, order, s) <==> s == socket {
      OnSocketExactly(parse, sites, order, s);
    }
    var group := OnSocket(parse, sites, order, socket);
    OnSocketNoRepeats(parse, sites, order, socket);
    assert plan[socket].sites == group;
    if site.tls.Some? {
      assert AllTls(group);
      GroupNamesDistinct(parse, sites, order, socket);
      SniEntriesExactly(load, group);
      var i :| 0 <= i < |group| && group[i] == site;
      forall name | SameText(name, ExtractHostname(site.address)) ensures Lower(name) == Sni(site) {
        LowerSameText(name, ExtractHostname(site.address));
      }
    }
  }

  /** A site whose address is a socket address is served at exactly that address. */
  lemma {:induction false} ServedWhereItSays(parse: SocketParser, load: Loader, sites: Sites, order: seq<string>,
      plan: ListenPlan, key: string, socket: SocketAddr)
    requires SocketsOk(parse, sites) && Enumerates(order, sites.Keys) && KeyedByAddress(sites)
    requires PlanFor(parse, load, sites, order, plan) && key in sites && parse(key) == Some(socket)
    ensures forall s :: s in plan && sites[key] in plan[s].sites <==> s == socket
  {
    ResolvesExactly(parse, key, socket);
    PlanServesSite(parse, load, sites, order, plan, key);
  }

  /** No listener serves anything else. */
  lemma {:induction false} PlanServesOnlySites(parse: SocketParser, load: Loader, sites: Sites, order: seq<string>,
      plan: ListenPlan, s: SocketAddr, site: SiteConfig)
    requires Enumerates(order, sites.Keys) && PlanFor(parse, load, sites, order, plan)
    requires s in plan && site in plan[s].sites
    ensures exists k :: k in sites && sites[k] == site && Socket(parse, site) == Some(s)
  {
    OnSocketExactly(parse, sites, order, s);
    assert site in OnSocket(parse, sites, order, s);
  }

  // ---------------------------------------------------------------------------
  // Site lookup
  // ---------------------------------------------------------------------------

  predicate Bracketed(host: string) { |host| > 0 && host[0] == '[' }

  predicate HasPort(host: string) {
    if Bracketed(host) then ']' in host && ':' in host[|BeforeFirst(host, ']')|..] else ':' in host
  }

  /** The host without its port, as step 4 of the lookup takes it. */
  function WithoutPort(host: string): string
    requires HasPort(host)
  {
    if Bracketed(host) then BeforeFirst(host, ']')[1..]
    else var port := AfterLast(host, ':'); if |port| < |host| then host[..|host| - |port| - 1] else host
  }

  /** The host has a port behind it: behind a bracketed name, or behind its last colon. */
  ghost predicate HostWithPort(host: string, bare: string) {
    if "[" <= host then ']' !in bare && exists rest :: host == "[" + bare + "]" + rest && ':' in rest
    else exists last :: ':' !in last && host == bare + ":" + last
  }

  lemma {:induction false} BracketedSplits(host: string, bare: string)
    requires "[" <= host
    ensures HostWithPort(host, bare) <==> HasPort(host) && WithoutPort(host) == bare
  {
    if ']' in host {
      var before := BeforeFirst(host, ']');
      var rest := host[|before| + 1..];
      assert before[0] == '[' && host == "[" + before[1..] + "]" + rest;
      assert host[|before|..] == "]" + rest;
      forall r | ']' !in bare && host == "[" + bare + "]" + r ensures bare == before[1..] && r == rest {
        NamedInsideBrackets(bare, r);
        assert ExtractHostname(host) == bare;
      }
    }
  }

  lemma {:induction false} PlainSplits(host: string, bare: string)
    requires !("[" <= host)
    ensures HostWithPort(host, bare) <==> HasPort(host) && WithoutPort(host) == bare
  {
    var last := AfterLast(host, ':');
    if ':' in host {
      AfterLastSplits(host, ':');
      assert host == host[..|host| - |last| - 1] + ":" + last;
    }
    forall other | ':' !in other && host == bare + ":" + other
      ensures other == last && bare == host[..|host| - |last| - 1]
    {
      AfterLastOf(bare, ':', other);
    }
  }

  lemma {:induction false} HostSplitsExactly(host: string, bare: string)
    ensures HostWithPort(host, bare) <==> HasPort(host) && WithoutPort(host) == bare
  {
    if "[" <= host { BracketedSplits(host, bare); } else { PlainSplits(host, bare); }
  }

  predicate TlsNamed(site: SiteConfig, host: string) {
    site.tls.Some? && Lower(ExtractHostname(site.address)) == Lower(host)
  }

  /** `values().filter(..)`: the matching sites in iteration order. */
  function Matching(sites: Sites, order: seq<string>, host: string): seq<string>
    requires forall k :: k in order ==> k in sites
  {
    if order == [] then []
    else (if TlsNamed(sites[order[0]], host) then [order[0]] else []) + Matching(sites, order[1..], host)
  }

  function DefaultPort(isTls: bool): string { if isTls then "443" else "80" }

  lemma {:induction false} MatchingMembers(sites: Sites, order: seq<string>, host: string)
    requires forall k :: k in order ==> k in sites
    ensures forall k :: k in Matching(sites, order, host) <==> k in order && TlsNamed(sites[k], host)
  {
    if order != [] {
      MatchingMembers(sites, order[1..], host);
      assert order == [order[0]] + order[1..];
    }
  }

  /** `find_site`, for the iteration order `order` of the site map. */
  function FindSite(sites: Sites, order: seq<string>, host: string, isTls: bool): Option<SiteConfig>
    requires forall k :: k in order ==> k in sites
  {
    if host in sites then Some(sites[host])
    else if HasPort(host) then
      if WithoutPort(host) in sites then Some(sites[WithoutPort(host)]) else None
    else if host + ":" + DefaultPort(isTls) in sites then Some(sites[host + ":" + DefaultPort(isTls)])
    else if isTls && |Matching(sites, order, host)| == 1 then
      MatchingMembers(sites, order, host);
      assert Matching(sites, order, host)[0] in Matching(sites, order, host);
      Some(sites[Matching(sites, order, host)[0]])
    else None
  }

  lemma {:induction false} MatchingNoRepeats(sites: Sites, order: seq<string>, host: string)
    requires (forall k :: k in order ==> k in sites) && NoRepeats(order)
    ensures NoRepeats(Matching(sites, order, host))
  {
    if order != [] {
      MatchingNoRepeats(sites, order[1..], host);
      MatchingMembers(sites, order[1..], host);
    }
  }

  /** A TLS site whose hostname is the host, up to letter case. */
  predicate BearsName(site: SiteConfig, host: string) {
    site.tls.Some? && SameText(host, ExtractHostname(site.address))
  }

  lemma {:induction false} NamedExactly(site: SiteConfig, host: string)
    ensures TlsNamed(site, host) <==> BearsName(site, host)
  {
    LowerSameText(host, ExtractHostname(site.address));
  }

  /** `k` is the one TLS site with this hostname. */
  ghost predicate OnlyTlsSite(sites: Sites, host: string, k: string) {
    && k in sites && BearsName(sites[k], host)
    && forall k' :: k' in sites && BearsName(sites[k'], host) ==> k' == k
  }

  lemma FirstTwoDiffer(m: seq<string>)
    requires NoRepeats(m) && |m| >= 2
    ensures m[0] in m && m[1] in m && m[0] != m[1]
  {
  }

  lemma {:induction false} AllAlike(m: seq<string>, k: string)
    requires NoRepeats(m) && k in m && forall x :: x in m ==> x == k
    ensures m == [k]
  {
    if |m| >= 2 { FirstTwoDiffer(m); }
  }

  lemma SoleMember(m: seq<string>, k: string)
    requires |m| == 1
    ensures k in m <==> k == m[0]
  {
  }

  lemma {:induction false} OneMatchIsOnly(sites: Sites, order: seq<string>, host: string, k: string)
    requires Enumerates(order, sites.Keys) && Matching(sites, order, host) == [k]
    ensures OnlyTlsSite(sites, host, k)
  {
    MatchingMembers(sites, order, host);
    forall x ensures x in [k] <==> x == k { SoleMember([k], x); }
    forall x | x in sites ensures TlsNamed(sites[x], host) <==> BearsName(sites[x], host) { NamedExactly(sites[x], host); }
  }

  lemma {:induction false} OnlyIsOneMatch(sites: Sites, order: seq<string>, host: string, k: string)
    requires Enumerates(order, sites.Keys) && OnlyTlsSite(sites, host, k)
    ensures Matching(sites, order, host) == [k]
  {
    MatchingMembers(sites, order, host);
    MatchingNoRepeats(sites, order, host);
    forall x | x in sites ensures TlsNamed(sites[x], host) <==> BearsName(sites[x], host) { NamedExactly(sites[x], host); }
    AllAlike(Matching(sites, order, host), k);
  }

  lemma {:induction false} MatchingExactly(sites: Sites, order: seq<string>, host: string)
    requires Enumerates(order, sites.Keys)
    ensures forall k :: OnlyTlsSite(sites, host, k) ==> Matching(sites, order, host) == [k]
    ensures |Matching(sites, order, host)| == 1 ==> exists k :: OnlyTlsSite(sites, host, k)
  {
    var m := Matching(sites, order, host);
    if |m| == 1 {
      assert m == [m[0]];
      OneMatchIsOnly(sites, order, host, m[0]);
    }
    forall k | OnlyTlsSite(sites, host, k) ensures Matching(sites, order, host) == [k] {
      OnlyIsOneMatch(sites, order, host, k);
    }
  }

  /** The answer does not depend on the iteration order: an exact key first; for a host with a port, the key without it;
      else the key with the default port, 443 for TLS and 80 without; else the only TLS site with that hostname. */
  lemma {:induction false} FindSiteIsFirstMatch(sites: Sites, order: seq<string>, host: string, isTls: bool)
    requires Enumerates(order, sites.Keys)
    ensures var r := FindSite(sites, order, host, isTls);
            var withPort := host + if isTls then ":443" else ":80";
            && (host in sites ==> r == Some(sites[host]))
            && (forall bare :: host !in sites && HostWithPort(host, bare) ==>
                                 r == if bare in sites then Some(sites[bare]) else None)
            && (host !in sites && (forall bare :: !HostWithPort(host, bare)) && withPort in sites ==>
                  r == Some(sites[withPort]))
            && (host !in sites && (forall bare :: !HostWithPort(host, bare)) && withPort !in sites ==>
                  && (forall k :: isTls && OnlyTlsSite(sites, host, k) ==> r == Some(sites[k]))
                  && (r.Some? ==> isTls && exists k :: OnlyTlsSite(sites, host, k)))
  {
    forall bare ensures HostWithPort(host, bare) <==> HasPort(host) && WithoutPort(host) == bare {
      HostSplitsExactly(host, bare);
    }
    if HasPort(host) { assert HostWithPort(host, WithoutPort(host)); }
    assert host + ":" + DefaultPort(isTls) == host + if isTls then ":443" else ":80";
    MatchingExactly(sites, order, host);
  }

  /** A bare TLS host that is no key, with or without `:443`, finds a site exactly when one TLS site bears the name, and
      that site's listener presents that site's certificate for the very same name. */
  lemma {:induction false} LookupAgreesWithSni(parse: SocketParser, load: Loader, sites: Sites, order: seq<string>,
      order': seq<string>, plan: ListenPlan, host: string)
    requires SocketsOk(parse, sites)
    requires Enumerates(order, sites.Keys) && Enumerates(order', sites.Keys) && KeyedByAddress(sites)
    requires PlanFor(parse, load, sites, order, plan)
    requires (forall bare :: !HostWithPort(host, bare)) && host !in sites && host + ":443" !in sites
    ensures var r := FindSite(sites, order', host, true);
            && (r.Some? <==> exists k :: OnlyTlsSite(sites, host, k))
            && (r.Some? ==>
                  var site := r.value;
                  && site.tls.Some? && Socket(parse, site).Some? && Socket(parse, site).value in plan
                  && plan[Socket(parse, site).value].Https?
                  && Resolve(plan[Socket(parse, site).value].resolver, Some(host)) == Some(load(site.tls.value)))
  {
    FindSiteIsFirstMatch(sites, order', host, true);
    var r := FindSite(sites, order', host, true);
    if r.Some? {
      var k :| OnlyTlsSite(sites, host, k);
      assert r == Some(sites[k]);
      PlanServesSite(parse, load, sites, order, plan, k);
    }
  }
}
