/** Addresses, listener planning, certificate selection and site lookup
    (src/config/address.rs, src/config/parser.rs, src/proxy/proxy.rs, src/proxy/tls.rs, src/proxy/handler.rs). */
module Listen {
  import opened Basics
  import opened Characters
  import opened Config

  datatype SocketAddr = SocketAddr(ip: string, port: nat)

  const ANY_IP := "0.0.0.0"

  /** `str::parse::<SocketAddr>` is library code: any partial function. */
  type SocketParser = string -> Option<SocketAddr>

  /** `resolve_listen_addr`. */
  function ResolveListenAddr(parse: SocketParser, address: string): Option<SocketAddr> {
    var direct := parse(address);
    if direct.Some? then direct
    else
      var port := ParseUnsigned(AfterLast(address, ':'), U16_LIMIT);
      if port.Some? then Some(SocketAddr(ANY_IP, port.value)) else None
  }

  /** `extract_hostname`: inside the brackets of an IPv6 literal, else in front of the first colon. */
  function ExtractHostname(address: string): string {
    if |address| > 0 && address[0] == '[' && ']' in address then BeforeFirst(address, ']')[1..]
    else BeforeFirst(address, ':')
  }

  /** A site address `host:port` that is no socket address itself listens on that port of all interfaces. */
  lemma {:induction false} ResolvesToPort(parse: SocketParser, host: string, port: nat)
    requires port < U16_LIMIT && parse(host + ":" + PrintNat(port)).None?
    ensures ResolveListenAddr(parse, host + ":" + PrintNat(port)) == Some(SocketAddr(ANY_IP, port))
  {
    AfterLastOf(host, ':', PrintNat(port));
    PrintThenParse(port, U16_LIMIT);
  }

  /** The text behind the last colon, or the whole text without one. */
  ghost predicate LastPiece(address: string, last: string) {
    ':' !in last && (address == last || exists front :: address == front + ":" + last)
  }

  lemma {:induction false} LastPieceExactly(address: string, last: string)
    ensures LastPiece(address, last) <==> last == AfterLast(address, ':')
  {
    var text := AfterLast(address, ':');
    if ':' in address {
      AfterLastSplits(address, ':');
      assert address == address[..|address| - |text| - 1] + ":" + text;
    }
    forall front | ':' !in last && address == front + ":" + last ensures last == text { AfterLastOf(front, ':', last); }
  }

  /** It is a port number. */
  ghost predicate PortText(address: string, port: nat) {
    port <= 65535
    && exists last :: LastPiece(address, last) && (Numeral(last, port) || ("+" <= last && Numeral(last[1..], port)))
  }

  lemma {:induction false} PortTextExactly(address: string, port: nat)
    ensures PortText(address, port) <==> ParseUnsigned(AfterLast(address, ':'), U16_LIMIT) == Some(port)
  {
    forall last ensures LastPiece(address, last) <==> last == AfterLast(address, ':') { LastPieceExactly(address, last); }
    assert LastPiece(address, AfterLast(address, ':'));
    ParsesExactly(AfterLast(address, ':'), U16_LIMIT, port);
  }

  /** A socket address listens where it says; any other text on the port behind its last colon, on all interfaces; and a
      text with neither cannot be used. */
  lemma {:induction false} ResolvesExactly(parse: SocketParser, address: string, socket: SocketAddr)
    ensures parse(address) == Some(socket) ==> ResolveListenAddr(parse, address) == Some(socket)
    ensures parse(address).None? ==>
              (ResolveListenAddr(parse, address) == Some(socket) <==>
               socket.ip == "0.0.0.0" && PortText(address, socket.port))
    ensures ResolveListenAddr(parse, address).None? <==>
            parse(address).None? && forall port: nat :: !PortText(address, port)
  {
    forall port: nat ensures PortText(address, port) <==> ParseUnsigned(AfterLast(address, ':'), U16_LIMIT) == Some(port) {
      PortTextExactly(address, port);
    }
    var parsed := ParseUnsigned(AfterLast(address, ':'), U16_LIMIT);
    if parsed.Some? { assert PortText(address, parsed.value); }
  }

  /** It is named by its host. */
  lemma {:induction false} NamedByHost(host: string, port: string)
    requires ':' !in host && !("[" <= host)
    ensures ExtractHostname(host + ":" + port) == host
  {
    var address := host + ":" + port;
    BeforeFirstOf(host, port, ':');
    assert address[0] == if host == "" then ':' else host[0];
  }

  /** A bracketed host is named without its brackets. */
  lemma {:induction false} NamedInsideBrackets(host: string, rest: string)
    requires ']' !in host
    ensures ExtractHostname("[" + host + "]" + rest) == host
  {
    var address := ("[" + host) + "]" + rest;
    BeforeFirstOf("[" + host, rest, ']');
    assert address[|"[" + host|] == ']';
    assert ("[" + host)[1..] == host;
  }

  /** The hostname is what the brackets enclose, or else the text in front of the first colon. */
  lemma {:induction false} HostnameExactly(address: string, name: string)
    ensures ExtractHostname(address) == name <==>
            if "[" <= address && ']' in address then ']' !in name && exists rest :: address == "[" + name + "]" + rest
            else ':' !in name && (address == name || exists rest :: address == name + ":" + rest)
  {
    if "[" <= address && ']' in address {
      var before := BeforeFirst(address, ']');
      assert before[0] == '[' && address == "[" + before[1..] + "]" + address[|before| + 1..];
      forall rest, n | ']' !in n && address == "[" + n + "]" + rest ensures n == before[1..] {
        NamedInsideBrackets(n, rest);
      }
    } else {
      var before := BeforeFirst(address, ':');
      if ':' in address { assert address == before + ":" + address[|before| + 1..]; }
      forall rest, n | ':' !in n && address == n + ":" + rest ensures n == before {
        BeforeFirstOf(n, rest, ':');
      }
    }
  }

  /** `tls_redirect_port`, with its saturating subtraction; the addition cannot saturate. */
  function RedirectPort(port: nat): nat { (if port < 443 then 0 else port - 443) + 80 }

  function RedirectSocket(tls: SocketAddr): SocketAddr { SocketAddr(tls.ip, RedirectPort(tls.port)) }

  /** Two TLS sockets share their redirect socket exactly when they are on one interface and both below 444: the
      documented formula, port - 443 + 80, is one to one only from 443 on. */
  lemma RedirectsClashExactly(a: SocketAddr, b: SocketAddr)
    requires a != b && a.port < U16_LIMIT && b.port < U16_LIMIT
    ensures RedirectSocket(a) == RedirectSocket(b) <==> a.ip == b.ip && a.port <= 443 && b.port <= 443
    ensures RedirectPort(a.port) == a.port - 443 + 80 <==> a.port >= 443
    ensures RedirectPort(a.port) < U16_LIMIT
  {
  }

  function Sni(site: SiteConfig): string { Lower(ExtractHostname(site.address)) }

  // ---------------------------------------------------------------------------
  // The validator
  // ---------------------------------------------------------------------------

  function Socket(parse: SocketParser, site: SiteConfig): Option<SocketAddr> {
    ResolveListenAddr(parse, site.address)
  }

  /** Two sites can be served side by side: on one socket they agree on TLS, and if both use it their hostnames differ by
      more than letter case. */
  predicate Compatible(parse: SocketParser, a: SiteConfig, b: SiteConfig) {
    Socket(parse, a).Some? && Socket(parse, a) == Socket(parse, b) ==>
      && (a.tls.Some? <==> b.tls.Some?)
      && (a.tls.Some? ==> !SameText(ExtractHostname(a.address), ExtractHostname(b.address)))
  }

  lemma {:induction false} SameSni(a: SiteConfig, b: SiteConfig)
    ensures Sni(a) == Sni(b) <==> SameText(ExtractHostname(a.address), ExtractHostname(b.address))
  {
    LowerSameText(ExtractHostname(a.address), ExtractHostname(b.address));
  }

  /** Two sites that cannot be on one socket. */
  predicate MixesTls(parse: SocketParser, a: SiteConfig, b: SiteConfig) {
    Socket(parse, a).Some? && Socket(parse, a) == Socket(parse, b) && a.tls.Some? && b.tls.None?
  }

  ghost predicate SocketsOk(parse: SocketParser, sites: Sites) {
    && (forall k :: k in sites ==> Socket(parse, sites[k]).Some?)
    && (forall k, k' :: k in sites && k' in sites && k != k' ==> Compatible(parse, sites[k], sites[k']))
  }

  datatype ListenError = CannotParse(address: string) | MixedTls(socket: SocketAddr) | DuplicateSni(sni: string,
      socket: SocketAddr)

  /** What the error of the validator means. */
  ghost predicate ErrorIsTrue(parse: SocketParser, sites: Sites, e: ListenError) {
    match e
    case CannotParse(address) =>
      exists k :: k in sites && sites[k].address == address && Socket(parse, sites[k]).None?
    case MixedTls(socket) =>
      exists k, k' :: k in sites && k' in sites && MixesTls(parse, sites[k], sites[k'])
                      && Socket(parse, sites[k]) == Some(socket)
    case DuplicateSni(sni, socket) =>
      exists k, k' :: k in sites && k' in sites && k != k' && sites[k].tls.Some? && sites[k'].tls.Some?
                      && Socket(parse, sites[k]) == Some(socket) && Socket(parse, sites[k']) == Some(socket)
                      && Sni(sites[k]) == sni && Sni(sites[k']) == sni
  }

  type TlsTable = map<SocketAddr, bool>
  type SniTable = map<SocketAddr, map<string, string>>

  /** `socket_tls` describes exactly the sites already visited. */
  ghost predicate TlsRecorded(parse: SocketParser, sites: Sites, seen: set<string>, table: TlsTable)
    requires seen <= sites.Keys
  {
    && (forall k :: k in seen ==> Socket(parse, sites[k]).Some? && Socket(parse, sites[k]).value in table)
    && (forall k :: k in seen ==> table[Socket(parse, sites[k]).value] == sites[k].tls.Some?)
    && (forall s :: s in table ==> exists k :: k in seen && Socket(parse, sites[k]) == Some(s))
  }

  predicate Taken(table: SniTable, s: SocketAddr, n: string) { s in table && n in table[s] }

  predicate Names(parse: SocketParser, site: SiteConfig, s: SocketAddr, n: string) {
    site.tls.Some? && Socket(parse, site) == Some(s) && Sni(site) == n
  }

  /** `socket_sni` describes exactly the TLS sites already visited. */
  ghost predicate SniRecorded(parse: SocketParser, sites: Sites, seen: set<string>, table: SniTable)
    requires seen <= sites.Keys
  {
    forall s, n :: Taken(table, s, n) <==> exists k :: k in seen && Names(parse, sites[k], s, n)
  }

  lemma {:induction false} SniStep(parse: SocketParser, sites: Sites, seen: set<string>, key: string, table: SniTable,
      table': SniTable)
    requires seen <= sites.Keys && key in sites && SniRecorded(parse, sites, seen, table)
    requires forall s, n :: Taken(table', s, n) <==> Taken(table, s, n) || Names(parse, sites[key], s, n)
    ensures SniRecorded(parse, sites, seen + {key}, table')
  {
    forall s, n ensures Taken(table', s, n) <==> exists k :: k in seen + {key} && Names(parse, sites[k], s, n) {
      if Taken(table, s, n) { var k :| k in seen && Names(parse, sites[k], s, n); assert k in seen + {key}; }
      if Names(parse, sites[key], s, n) { assert key in seen + {key}; }
    }
  }

  /** The visited sites can be served side by side. */
  ghost predicate SoundSoFar(parse: SocketParser, sites: Sites, seen: set<string>)
    requires seen <= sites.Keys
  {
    forall k, k' :: k in seen && k' in seen && k != k' ==> Compatible(parse, sites[k], sites[k'])
  }

  lemma {:induction false} SoundStep(parse: SocketParser, sites: Sites, seen: set<string>, key: string, socket: SocketAddr,
      tls: TlsTable, sni: SniTable)
    requires seen <= sites.Keys && key in sites && key !in seen && Socket(parse, sites[key]) == Some(socket)
    requires TlsRecorded(parse, sites, seen, tls) && SniRecorded(parse, sites, seen, sni) && SoundSoFar(parse, sites, seen)
    requires socket in tls ==> tls[socket] == sites[key].tls.Some?
    requires sites[key].tls.Some? ==> !Taken(sni, socket, Sni(sites[key]))
    ensures SoundSoFar(parse, sites, seen + {key})
  {
    forall k | k in seen ensures Compatible(parse, sites[key], sites[k]) && Compatible(parse, sites[k], sites[key]) {
      SameSni(sites[key], sites[k]);
      SameSni(sites[k], sites[key]);
      if Socket(parse, sites[k]) == Some(socket) && sites[k].tls.Some? {
        assert Names(parse, sites[k], socket, Sni(sites[k]));
        assert Taken(sni, socket, Sni(sites[k]));
      }
    }
  }

  function Visited(order: seq<string>, i: nat): set<string>
    requires i <= |order|
  {
    set k | k in order[..i]
  }

  function Record(table: SniTable, socket: SocketAddr, sni: string, address: string): SniTable {
    var names := if socket in table then table[socket] else map[];
    table[socket := names[sni := address]]
  }

  lemma {:induction false} TlsStep(parse: SocketParser, sites: Sites, seen: set<string>, key: string, socket: SocketAddr,
      tls: TlsTable)
    requires seen <= sites.Keys && key in sites && Socket(parse, sites[key]) == Some(socket) && TlsRecorded(parse, sites,
        seen, tls)
    requires socket in tls ==> tls[socket] == sites[key].tls.Some?
    ensures TlsRecorded(parse, sites, seen + {key}, tls[socket := sites[key].tls.Some?])
  {
    var tls' := tls[socket := sites[key].tls.Some?];
    forall s | s in tls' ensures exists k :: k in seen + {key} && Socket(parse, sites[k]) == Some(s) {
      if s == socket {
        assert key in seen + {key};
      } else {
        var k :| k in seen && Socket(parse, sites[k]) == Some(s);
        assert k in seen + {key};
      }
    }
  }

  /** A site that the tables reject clashes with one of the visited sites. */
  lemma {:induction false} RejectionIsRight(parse: SocketParser, sites: Sites, seen: set<string>, key: string,
      socket: SocketAddr, tls: TlsTable, sni: SniTable)
    requires seen <= sites.Keys && key in sites && key !in seen && Socket(parse, sites[key]) == Some(socket)
    requires TlsRecorded(parse, sites, seen, tls) && SniRecorded(parse, sites, seen, sni)
    requires (socket in tls && tls[socket] != sites[key].tls.Some?) || (sites[key].tls.Some? && Taken(sni, socket,
        Sni(sites[key])))
    ensures !SocketsOk(parse, sites)
    ensures ErrorIsTrue(parse, sites, if socket in tls && tls[socket] != sites[key].tls.Some? then MixedTls(socket)
                          else DuplicateSni(Sni(sites[key]), socket))
  {
    if socket in tls && tls[socket] != sites[key].tls.Some? {
      var other :| other in seen && Socket(parse, sites[other]) == Some(socket);
      assert !Compatible(parse, sites[key], sites[other]);
      assert MixesTls(parse, sites[key], sites[other]) || MixesTls(parse, sites[other], sites[key]);
    } else {
      var other :| other in seen && Names(parse, sites[other], socket, Sni(sites[key]));
      SameSni(sites[key], sites[other]);
      assert !Compatible(parse, sites[key], sites[other]);
    }
  }

  ghost predicate Validated(parse: SocketParser, sites: Sites, seen: set<string>, tls: TlsTable, sni: SniTable) {
    && seen <= sites.Keys
    && TlsRecorded(parse, sites, seen, tls) && SniRecorded(parse, sites, seen, sni)
    && SoundSoFar(parse, sites, seen)
  }

  lemma {:induction false} ValidateStep(parse: SocketParser, sites: Sites, seen: set<string>, key: string,
      socket: SocketAddr, tls: TlsTable, sni: SniTable)
    requires Validated(parse, sites, seen, tls, sni) && key in sites && key !in seen
    requires Socket(parse, sites[key]) == Some(socket)
    requires socket in tls ==> tls[socket] == sites[key].tls.Some?
    requires sites[key].tls.Some? ==> !Taken(sni, socket, Sni(sites[key]))
    ensures Validated(parse, sites, seen + {key}, tls[socket := sites[key].tls.Some?],
                      if sites[key].tls.Some? then Record(sni, socket, Sni(sites[key]), sites[key].address) else sni)
  {
    SoundStep(parse, sites, seen, key, socket, tls, sni);
    TlsStep(parse, sites, seen, key, socket, tls);
    SniStep(parse, sites, seen, key, sni,
        if sites[key].tls.Some? then Record(sni, socket, Sni(sites[key]), sites[key].address) else sni);
  }

  lemma {:induction false} VisitNext(order: seq<string>, i: nat)
    requires i < |order|
    ensures Visited(order, i + 1) == Visited(order, i) + {order[i]}
  {
    assert order[..i + 1] == order[..i] + [order[i]];
  }

  /** `validate_listen_sockets`, for any iteration order of the site map: it accepts exactly the sound maps. */
  method ValidateListenSockets(parse: SocketParser, sites: Sites, order: seq<string>) returns (r: Result<(), ListenError>)
    requires Enumerates(order, sites.Keys)
    ensures r.Ok? <==> SocketsOk(parse, sites)
    ensures r.Err? ==> ErrorIsTrue(parse, sites, r.error)
  {
    var socketTls: TlsTable := map[];
    var socketSni: SniTable := map[];
    for i := 0 to |order|
      invariant Validated(parse, sites, Visited(order, i), socketTls, socketSni)
    {
      var key := order[i];
      var site := sites[key];
      VisitNext(order, i);
      assert key !in Visited(order, i);
      var listen := Socket(parse, site);
      if listen.None? {
        return Err(CannotParse(site.address));
      }
      var socket, isTls := listen.value, site.tls.Some?;
      if socket in socketTls && socketTls[socket] != isTls {
        RejectionIsRight(parse, sites, Visited(order, i), key, socket, socketTls, socketSni);
        return Err(MixedTls(socket));
      }
      if isTls && Taken(socketSni, socket, Sni(site)) {
        RejectionIsRight(parse, sites, Visited(order, i), key, socket, socketTls, socketSni);
        return Err(DuplicateSni(Sni(site), socket));
      }
      ValidateStep(parse, sites, Visited(order, i), key, socket, socketTls, socketSni);
      socketTls := socketTls[socket := isTls];
      if isTls {
        socketSni := Record(socketSni, socket, Sni(site), site.address);
      }
    }
    assert Visited(order, |order|) == sites.Keys by { assert order[..|order|] == order; }
    r := Ok(());
  }

  // ---------------------------------------------------------------------------
  // Grouping sites by socket
  // ---------------------------------------------------------------------------

  /** The sites of one socket, in the order in which the map was iterated. */
  function OnSocket(parse: SocketParser, sites: Sites, order: seq<string>, socket: SocketAddr): seq<SiteConfig>
    requires forall k :: k in order ==> k in sites
  {
    if order == [] then []
    else
      var last := sites[order[|order| - 1]];
      OnSocket(parse, sites, order[..|order| - 1], socket) + if Socket(parse, last) == Some(socket) then [last] else []
  }

  lemma {:induction false} OnSocketExactly(parse: SocketParser, sites: Sites, order: seq<string>, socket: SocketAddr)
    requires forall k :: k in order ==> k in sites
    ensures forall site :: site in OnSocket(parse, sites, order, socket) <==>
              exists k :: k in order && sites[k] == site && Socket(parse, site) == Some(socket)
  {
    if order != [] {
      var before, last := order[..|order| - 1], order[|order| - 1];
      assert order == before + [last];
      OnSocketExactly(parse, sites, before, socket);
    }
  }

  lemma {:induction false} OnSocketNoRepeats(parse: SocketParser, sites: Sites, order: seq<string>, socket: SocketAddr)
    requires (forall k :: k in order ==> k in sites) && NoRepeats(order)
    requires forall k :: k in sites ==> sites[k].address == k
    ensures NoRepeats(OnSocket(parse, sites, order, socket))
  {
    if order != [] {
      var before, last := order[..|order| - 1], order[|order| - 1];
      OnSocketNoRepeats(parse, sites, before, socket);
      OnSocketExactly(parse, sites, before, socket);
      assert last !in before;
    }
  }

  type Groups = map<SocketAddr, seq<SiteConfig>>

  ghost predicate GroupsFor(parse: SocketParser, sites: Sites, order: seq<string>, groups: Groups) {
    && (forall k :: k in order ==> k in sites && Socket(parse, sites[k]).Some?)
    && (forall s :: s in groups <==> OnSocket(parse, sites, order, s) != [])
    && (forall s :: s in groups ==> groups[s] == OnSocket(parse, sites, order, s))
  }

  /** `groups.entry(socket).or_default().push(site)` */
  function Push(groups: Groups, socket: SocketAddr, site: SiteConfig): Groups {
    groups[socket := (if socket in groups then groups[socket] else []) + [site]]
  }

  lemma {:induction false} GroupsStep(parse: SocketParser, sites: Sites, before: seq<string>, key: string, groups: Groups,
      socket: SocketAddr)
    requires GroupsFor(parse, sites, before, groups) && key in sites && Socket(parse, sites[key]) == Some(socket)
    ensures GroupsFor(parse, sites, before + [key], Push(groups, socket, sites[key]))
  {
    var order := before + [key];
    assert order[..|order| - 1] == before;
    assert forall s :: OnSocket(parse, sites, order, s) == OnSocket(parse, sites, before, s) + if s == socket
        then [sites[key]] else [];
  }

  /** The first loop of `start_all`. */
  method GroupBySocket(parse: SocketParser, sites: Sites, order: seq<string>) returns (r: Option<Groups>)
    requires Enumerates(order, sites.Keys)
    ensures r.Some? <==> forall k :: k in sites ==> Socket(parse, sites[k]).Some?
    ensures r.Some? ==> GroupsFor(parse, sites, order, r.value)
  {
    var groups: Groups := map[];
    for i := 0 to |order|
      invariant GroupsFor(parse, sites, order[..i], groups)
    {
      var site := sites[order[i]];
      var socket := Socket(parse, site);
      if socket.None? {
        return None;
      }
      GroupsStep(parse, sites, order[..i], order[i], groups, socket.value);
      TakeNext(order, i);
      groups := Push(groups, socket.value, site);
    }
    TakeAll(order);
    r := Some(groups);
  }

  // ---------------------------------------------------------------------------
  // Certificates
  // ---------------------------------------------------------------------------

  datatype CertifiedKey = CertifiedKey(chain: string, key: string)

  /** Loading PEM files is outside the model: a total function of the paths. */
  type Loader = TlsConfig -> CertifiedKey

  datatype Resolver = Resolver(entries: map<string, CertifiedKey>, fallback: Option<CertifiedKey>)

  /** `SniCertResolver::resolve`. */
  function Resolve(r: Resolver, serverName: Option<string>): Option<CertifiedKey> {
    if serverName.Some? && Lower(serverName.value) in r.entries then Some(r.entries[Lower(serverName.value)])
        else r.fallback
  }

  /** A name finds the entry that it equals up to letter case; an unknown name, and none at all, get the fallback. */
  lemma {:induction false} ResolveExactly(r: Resolver, name: string, key: string)
    requires forall k :: k in r.entries ==> forall c :: c in k ==> c !in UPPER_LETTERS
    ensures key in r.entries && SameText(name, key) ==> Resolve(r, Some(name)) == Some(r.entries[key])
    ensures (forall k :: k in r.entries ==> !SameText(name, k)) ==> Resolve(r, Some(name)) == r.fallback
    ensures Resolve(r, None) == r.fallback
  {
    LowerHasNoUpper(name, key);
    LowerHasNoUpper(name, Lower(name));
  }

  predicate AllTls(group: seq<SiteConfig>) { forall site :: site in group ==> site.tls.Some? }

  /** The SNI table as it is filled: a later entry under the same name replaces an earlier one. */
  function SniEntries(load: Loader, group: seq<SiteConfig>): map<string, CertifiedKey>
    requires AllTls(group)
  {
    if group == [] then map[]
    else
      var last := group[|group| - 1];
      SniEntries(load, group[..|group| - 1])[Sni(last) := load(last.tls.value)]
  }

  /** The fallback is the certificate of the first name in sorted order. */
  ghost predicate FallbackIsLeast(r: Resolver) {
    exists n :: n in r.entries && r.fallback == Some(r.entries[n]) && forall m :: m in r.entries ==> LexLe(n, m)
  }

  /** `build_tls_acceptor` without a default hostname, on the entries of one group. */
  method BuildTlsAcceptor(load: Loader, group: seq<SiteConfig>) returns (r: Resolver)
    requires group != [] && AllTls(group)
    ensures r.entries == SniEntries(load, group) && FallbackIsLeast(r)
  {
    var entries: map<string, CertifiedKey> := map[];
    for i := 0 to |group|
      invariant entries == SniEntries(load, group[..i])
      invariant i > 0 ==> entries != map[]
    {
      assert group[..i + 1][..i] == group[..i];
      var hostname := ExtractHostname(group[i].address);
      entries := entries[Lower(hostname) := load(group[i].tls.value)];
      assert Lower(hostname) in entries;
    }
    assert group[..|group|] == group;
    var names := InSomeOrder(entries.Keys);
    ghost var some :| some in entries.Keys;
    assert some in names;
    var first := Least(names);
    forall m | m in entries ensures LexLe(first, m) { LeastIsLeast(names, m); }
    r := Resolver(entries, Some(entries[first]));
  }

  predicate DistinctNames(group: seq<SiteConfig>) {
    forall i, j :: 0 <= i < j < |group| ==> Sni(group[i]) != Sni(group[j])
  }

  lemma {:induction false} SniEntriesNames(load: Loader, group: seq<SiteConfig>, n: string)
    requires AllTls(group) && n in SniEntries(load, group)
    ensures exists i :: 0 <= i < |group| && Sni(group[i]) == n
  {
    var before := group[..|group| - 1];
    if Sni(group[|group| - 1]) != n {
      SniEntriesNames(load, before, n);
      var i :| 0 <= i < |before| && Sni(before[i]) == n;
      assert group[i] == before[i];
    }
  }

  /** With distinct names the table has one entry per site, each with that site's own certificate. */
  lemma {:induction false} SniEntriesExactly(load: Loader, group: seq<SiteConfig>)
    requires AllTls(group) && DistinctNames(group)
    ensures |SniEntries(load, group)| == |group|
    ensures forall i :: 0 <= i < |group| ==>
              Sni(group[i]) in SniEntries(load, group) && SniEntries(load, group)[Sni(group[i])] == load(group[i].tls.value)
  {
    if group != [] {
      var before, last := group[..|group| - 1], Sni(group[|group| - 1]);
      SniEntriesExactly(load, before);
      if last in SniEntries(load, before) {
        SniEntriesNames(load, before, last);
        assert false;
      }
      forall i | 0 <= i < |group| - 1 ensures Sni(group[i]) in SniEntries(load, before) && SniEntries(load,
          before)[Sni(group[i])] == load(group[i].tls.value) {
        assert before[i] == group[i];
      }
    }
  }

  /** Without that, the last site of a name has the entry. */
  lemma {:induction false} LastSiteOfName(load: Loader, group: seq<SiteConfig>, i: nat)
    requires AllTls(group) && i < |group| && forall j :: i < j < |group| ==> Sni(group[j]) != Sni(group[i])
    ensures Sni(group[i]) in SniEntries(load, group)
    ensures SniEntries(load, group)[Sni(group[i])] == load(group[i].tls.value)
  {
    if i < |group| - 1 {
      var before := group[..|group| - 1];
      LastSiteOfName(load, before, i);
    }
  }

  // ---------------------------------------------------------------------------
  // The listener plan
  // ---------------------------------------------------------------------------

  datatype Listener = PlainHttp(sites: seq<SiteConfig>) | Https(sites: seq<SiteConfig>, resolver: Resolver)

  datatype StartError = CannotResolve | MixedSocket(socket: SocketAddr)

  predicate AllPlain(group: seq<SiteConfig>) { forall site :: site in group ==> site.tls.None? }

  ghost predicate ListenerFor(load: Loader, group: seq<SiteConfig>, l: Listener) {
    && l.sites == group
    && match l
       case PlainHttp(_) => AllPlain(group)
       case Https(_, resolver) => AllTls(group) && resolver.entries == SniEntries(load, group) && FallbackIsLeast(resolver)
  }

  type ListenPlan = map<SocketAddr, Listener>

  ghost predicate PlanFor(parse: SocketParser, load: Loader, sites: Sites, order: seq<string>, plan: ListenPlan) {
    && (forall k :: k in order ==> k in sites && Socket(parse, sites[k]).Some?)
    && (forall s :: s in plan <==> OnSocket(parse, sites, order, s) != [])
    && (forall s :: s in plan ==> ListenerFor(load, OnSocket(parse, sites, order, s), plan[s]))
  }

  ghost predicate SomeMixed(groups: Groups) {
    exists s :: s in groups && !AllTls(groups[s]) && !AllPlain(groups[s])
  }

  /** The second loop of `start_all`, over the groups in any order. */
  method BuildListeners(load: Loader, groups: Groups) returns (r: Result<ListenPlan, StartError>)
    requires forall s :: s in groups ==> groups[s] != []
    ensures r.Err? <==> SomeMixed(groups)
    ensures r.Err? ==> r.error.MixedSocket? && r.error.socket in groups
                       && !AllTls(groups[r.error.socket]) && !AllPlain(groups[r.error.socket])
    ensures r.Ok? ==> r.value.Keys == groups.Keys && forall s :: s in groups ==> ListenerFor(load, groups[s], r.value[s])
  {
    var plan: ListenPlan := map[];
    var left := groups.Keys;
    while left != {}
      invariant left <= groups.Keys && plan.Keys == groups.Keys - left
      invariant forall s :: s in plan ==> ListenerFor(load, groups[s], plan[s])
      decreases left
    {
      var socket :| socket in left;
      var group := groups[socket];
      if !AllTls(group) && !AllPlain(group) {
        return Err(MixedSocket(socket));
      }
      if AllTls(group) {
        var resolver := BuildTlsAcceptor(load, group);
        plan := plan[socket := Https(group, resolver)];
      } else {
        plan := plan[socket := PlainHttp(group)];
      }
      left := left - {socket};
    }
    forall s | s in groups ensures AllTls(groups[s]) || AllPlain(groups[s]) {
      assert ListenerFor(load, groups[s], plan[s]);
    }
    r := Ok(plan);
  }

  /** All addresses resolve and no socket has both kinds of site; names may be repeated. */
  ghost predicate Servable(parse: SocketParser, sites: Sites) {
    && (forall k :: k in sites ==> Socket(parse, sites[k]).Some?)
    && (forall k, k' :: k in sites && k' in sites ==> !MixesTls(parse, sites[k], sites[k']))
  }

  lemma SoundIsServable(parse: SocketParser, sites: Sites)
    requires SocketsOk(parse, sites)
    ensures Servable(parse, sites)
  {
    forall k, k' | k in sites && k' in sites ensures !MixesTls(parse, sites[k], sites[k']) {
      assert k != k' ==> Compatible(parse, sites[k], sites[k']);
    }
  }

  lemma {:induction false} MixedExactly(parse: SocketParser, sites: Sites, order: seq<string>, groups: Groups)
    requires Enumerates(order, sites.Keys) && GroupsFor(parse, sites, order, groups)
    ensures SomeMixed(groups) <==> !Servable(parse, sites)
  {
    forall s | s in groups && !AllTls(groups[s]) && !AllPlain(groups[s]) ensures !Servable(parse, sites) {
      OnSocketExactly(parse, sites, order, s);
      var a :| a in groups[s] && a.tls.Some?;
      var b :| b in groups[s] && b.tls.None?;
      var ka :| ka in order && sites[ka] == a;
      var kb :| kb in order && sites[kb] == b;
      assert MixesTls(parse, sites[ka], sites[kb]);
    }
    forall k, k' | k in sites && k' in sites && MixesTls(parse, sites[k], sites[k']) ensures SomeMixed(groups) {
      var s := Socket(parse, sites[k]).value;
      OnSocketExactly(parse, sites, order, s);
      assert sites[k] in OnSocket(parse, sites, order, s) && sites[k'] in OnSocket(parse, sites, order, s);
    }
  }

  /** The planning part of `start_all`: it refuses an unresolvable address or a mixed socket, and nothing else. */
  method PlanListeners(parse: SocketParser, load: Loader, sites: Sites, order: seq<string>) returns (r: Result<ListenPlan,
      StartError>)
    requires Enumerates(order, sites.Keys)
    ensures r.Ok? <==> Servable(parse, sites)
    ensures r.Ok? ==> PlanFor(parse, load, sites, order, r.value)
  {
    var grouped := GroupBySocket(parse, sites, order);
    if grouped.None? {
      return Err(CannotResolve);
    }
    MixedExactly(parse, sites, order, grouped.value);
    r := BuildListeners(load, grouped.value);
  }

  // ---------------------------------------------------------------------------
  // Redirect listeners
  // ---------------------------------------------------------------------------

  /** The redirect listener of one socket would bind another that serves plain HTTP. */
  ghost predicate RedirectTaken(plan: ListenPlan, tls: SocketAddr) {
    tls in plan && plan[tls].Https? && RedirectSocket(tls) in plan && plan[RedirectSocket(tls)].PlainHttp?
  }

  /** A plain site sits where the redirects of a TLS site go: port 80 for TLS ports up to 443, then 363 below. */
  predicate BelowTls(parse: SocketParser, site: SiteConfig, plain: SiteConfig) {
    && site.tls.Some? && plain.tls.None? && Socket(parse, site).Some? && Socket(parse, plain).Some?
    && var s, p := Socket(parse, site).value, Socket(parse, plain).value;
       s.ip == p.ip && p.port + 363 == if s.port < 443 then 443 else s.port
  }

  lemma {:induction false} ListenerOf(parse: SocketParser, load: Loader, sites: Sites, order: seq<string>,
      plan: ListenPlan, k: string)
    requires Enumerates(order, sites.Keys) && PlanFor(parse, load, sites, order, plan) && k in sites
    ensures var s := Socket(parse, sites[k]).value;
            Socket(parse, sites[k]).Some? && s in plan && (plan[s].Https? <==> sites[k].tls.Some?)
  {
    var s := Socket(parse, sites[k]).value;
    OnSocketExactly(parse, sites, order, s);
    assert sites[k] in OnSocket(parse, sites, order, s);
  }

  lemma {:induction false} SomeSiteOn(parse: SocketParser, load: Loader, sites: Sites, order: seq<string>,
      plan: ListenPlan, s: SocketAddr) returns (k: string)
    requires Enumerates(order, sites.Keys) && PlanFor(parse, load, sites, order, plan) && s in plan
    ensures k in sites && Socket(parse, sites[k]) == Some(s) && (plan[s].Https? <==> sites[k].tls.Some?)
  {
    var group := OnSocket(parse, sites, order, s);
    OnSocketExactly(parse, sites, order, s);
    assert group[0] in group;
    k :| k in order && sites[k] == group[0] && Socket(parse, group[0]) == Some(s);
  }

  /** A plan binds one socket twice, for redirects and for plain HTTP, exactly when some plain site sits below a TLS site;
      a plain site on port 80 beside a TLS site on port 443 does. */
  lemma {:induction false} RedirectMeetsPlainExactly(parse: SocketParser, load: Loader, sites: Sites, order: seq<string>,
      plan: ListenPlan)
    requires Enumerates(order, sites.Keys) && PlanFor(parse, load, sites, order, plan)
    ensures (exists s :: RedirectTaken(plan, s)) <==>
            exists k, k' :: k in sites && k' in sites && BelowTls(parse, sites[k], sites[k'])
  {
    forall s | RedirectTaken(plan, s)
      ensures exists k, k' :: k in sites && k' in sites && BelowTls(parse, sites[k], sites[k'])
    {
      var k := SomeSiteOn(parse, load, sites, order, plan, s);
      var k' := SomeSiteOn(parse, load, sites, order, plan, RedirectSocket(s));
      assert BelowTls(parse, sites[k], sites[k']);
    }
    forall k, k' | k in sites && k' in sites && BelowTls(parse, sites[k], sites[k'])
      ensures exists s :: RedirectTaken(plan, s)
    {
      ListenerOf(parse, load, sites, order, plan, k);
      ListenerOf(parse, load, sites, order, plan, k');
      assert RedirectSocket(Socket(parse, sites[k]).value) == Socket(parse, sites[k']).value;
      assert RedirectTaken(plan, Socket(parse, sites[k]).value);
    }
  }
}
