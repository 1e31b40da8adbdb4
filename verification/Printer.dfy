/** The configurations that can be written down, and a canonical way to write them. */
module Printer {
  import opened Basics
  import opened Http
  import opened Config
  import opened Listen
  import opened Text
  import opened Parser

  // ---------------------------------------------------------------------------
  // Expressible configurations
  // ---------------------------------------------------------------------------

  predicate OkTimeout(t: Option<nat>) { t.Some? ==> t.value < U64_LIMIT }

  /** Words separated by single blanks that do not look like a block opening. */
  predicate OkLineText(s: string) {
    s != "" && Join(Words(s)) == s && Last(s) != '{'
  }

  /** A block argument: a word, but not the opening brace itself. */
  predicate OkArg(s: string) { IsToken(s) && s != "{" }

  predicate OkHeaderUp(h: HeaderDirective) {
    IsToken(h.name) && (h.value.Some? ==> !("-" <= h.name) && OkLineText(h.value.value))
  }

  ghost predicate OkAuth(uri: UriParser, a: ForwardAuthConfig) {
    && (exists raw :: IsToken(raw) && Endpoint(uri, raw) == Some(a.endpoint))
    && a.requestHeaders != []
    && (forall n :: n in a.requestHeaders ==> ValidName(n))
    && (forall n :: n in a.responseHeaders ==> ValidName(n))
    && a.timeoutSecs < U64_LIMIT
  }

  predicate NoOptions(d: Directive)
    requires d.ReverseProxy?
  {
    d.connectTimeout.None? && d.readTimeout.None? && d.headerUp == []
  }

  ghost predicate OkDirective(uri: UriParser, d: Directive)
    decreases d
  {
    match d
    case ReverseProxy(to, connect, read, headerUp) =>
      && (to == "" || IsToken(to)) && (to == "{" ==> NoOptions(d))
      && OkTimeout(connect) && OkTimeout(read) && forall h :: h in headerUp ==> OkHeaderUp(h)
    case HandlePath(pattern, ds) => (pattern == "" || OkArg(pattern)) && forall x :: x in ds ==> OkDirective(uri, x)
    case Method(methods, ds) => (forall m :: m in methods ==> OkArg(m)) && forall x :: x in ds ==> OkDirective(uri, x)
    case UriReplace(find, replace) => IsToken(find) && IsToken(replace)
    case Header(name, value) => IsToken(name) && (value.Some? ==> !("-" <= name) && IsToken(value.value))
    case StripPrefix(prefix) => IsToken(prefix)
    case Redirect(status, url) => status < U16_LIMIT && OkLineText(url)
    case Respond(status, body) => status < U16_LIMIT && (body == "" || IsToken(body))
    case ForwardAuth(auth) => OkAuth(uri, auth)
  }

  ghost predicate OkDirectives(uri: UriParser, ds: seq<Directive>) {
    forall d :: d in ds ==> OkDirective(uri, d)
  }

  predicate OkTls(tls: Option<TlsConfig>) {
    tls.Some? ==> IsToken(tls.value.certPath) && IsToken(tls.value.keyPath)
  }

  predicate OkAddress(a: string) { IsToken(a) && a[0] != '#' }

  ghost predicate OkSite(uri: UriParser, s: SiteConfig) {
    OkAddress(s.address) && OkTls(s.tls) && OkDirectives(uri, s.directives)
  }

  /** The configurations that some text describes (`ParsedIsExpressible` and `PrintThenParseConfig`). */
  ghost predicate Expressible(parse: SocketParser, uri: UriParser, sites: Sites) {
    SocketsOk(parse, sites) && forall a :: a in sites ==> sites[a].address == a && OkSite(uri, sites[a])
  }

  // ---------------------------------------------------------------------------
  // Canonical lines
  // ---------------------------------------------------------------------------

  type Line = seq<string>

  /** A line whose trailing words are ignored gets one more if it would look like a block opening. */
  function Pad(ts: Line): Line { if OpensBlock(ts) then ts + ["_"] else ts }

  /** A directive name and its arguments. */
  function Cmd(name: string, args: Line): (l: Line)
    ensures l != [] && l[0] == name && l[1..] == args
  {
    [name] + args
  }

  function Optional(s: string): Line { if s == "" then [] else [s] }

  function TimeoutLines(name: string, t: Option<nat>): seq<Line> {
    if t.Some? then [Cmd(name, [PrintNat(t.value)])] else []
  }

  function HeaderUpLineOf(h: HeaderDirective): Line {
    if h.value.None? then Pad(Cmd("header_up", ["-" + h.name])) else Cmd("header_up", [h.name] + Words(h.value.value))
  }

  function HeaderUpLines(hs: seq<HeaderDirective>): seq<Line> {
    if hs == [] then [] else [HeaderUpLineOf(hs[0])] + HeaderUpLines(hs[1..])
  }

  function ModeWord(m: FailureMode): string { if m.Open? then "open" else "closed" }

  ghost function EndpointWord(uri: UriParser, e: Uri): (raw: string)
    requires exists raw :: IsToken(raw) && Endpoint(uri, raw) == Some(e)
    ensures IsToken(raw) && Endpoint(uri, raw) == Some(e)
  {
    var raw :| IsToken(raw) && Endpoint(uri, raw) == Some(e);
    raw
  }

  ghost function AuthLines(uri: UriParser, a: ForwardAuthConfig): seq<Line>
    requires OkAuth(uri, a)
  {
    [Pad(Cmd("to", [EndpointWord(uri, a.endpoint)]))]
    + [Cmd("request_headers", a.requestHeaders)]
    + (if a.responseHeaders == [] then [] else [Cmd("response_headers", a.responseHeaders)])
    + [Cmd("failure_mode", [ModeWord(a.failureMode)])]
    + [Cmd("timeout", [PrintNat(a.timeoutSecs)])]
  }

  function ProxyLines(d: Directive): seq<Line>
    requires d.ReverseProxy?
  {
    TimeoutLines("connect_timeout", d.connectTimeout) + TimeoutLines("read_timeout", d.readTimeout)
        + HeaderUpLines(d.headerUp)
  }

  ghost function Block(head: Line, body: seq<Line>): seq<Line> { [head + ["{"]] + body + [["}"]] }

  /** The lines of a directive other than a block with nested directives. */
  ghost function LeafLines(uri: UriParser, d: Directive): seq<Line>
    requires OkDirective(uri, d) && !d.HandlePath? && !d.Method?
  {
    match d
    case ReverseProxy(to, _, _, _) =>
      if to != "" && NoOptions(d) then [Pad(Cmd("reverse_proxy", [to]))]
          else Block(Cmd("reverse_proxy", Optional(to)), ProxyLines(d))
    case UriReplace(find, replace) => [Pad(Cmd("uri_replace", [find, replace]))]
    case Header(name, value) => if value.None? then [Pad(Cmd("header", ["-" + name]))]
        else [Pad(Cmd("header", [name, value.value]))]
    case StripPrefix(prefix) => [Pad(Cmd("strip_prefix", [prefix]))]
    case Redirect(status, url) => [Cmd("redirect", [PrintNat(status)] + Words(url))]
    case Respond(status, body) => [Pad(Cmd("respond", [PrintNat(status)] + Optional(body)))]
    case ForwardAuth(auth) => Block(Cmd("forward_auth", []), AuthLines(uri, auth))
  }

  ghost function DirectivesLines(uri: UriParser, ds: seq<Directive>): seq<Line>
    requires OkDirectives(uri, ds)
    decreases ds
  {
    if ds == [] then []
    else
      assert ds[0] in ds;
      (match ds[0]
       case HandlePath(pattern, nested) => Block(Cmd("handle_path", Optional(pattern)), DirectivesLines(uri, nested))
       case Method(methods, nested) => Block(Cmd("method", methods), DirectivesLines(uri, nested))
       case d => LeafLines(uri, d)) + DirectivesLines(uri, ds[1..])
  }

  function TlsLines(tls: Option<TlsConfig>): seq<Line> {
    if tls.Some? then [Pad(Cmd("tls", [tls.value.certPath, tls.value.keyPath]))] else []
  }

  ghost function SiteLines(uri: UriParser, s: SiteConfig): seq<Line>
    requires OkSite(uri, s)
  {
    Block([s.address], TlsLines(s.tls) + DirectivesLines(uri, s.directives))
  }

  ghost function SitesLines(uri: UriParser, sites: Sites, order: seq<string>): seq<Line>
    requires forall a :: a in order ==> a in sites && OkSite(uri, sites[a])
  {
    if order == [] then [] else SiteLines(uri, sites[order[0]]) + SitesLines(uri, sites, order[1..])
  }

  /** The canonical text of a configuration, its sites in any order. */
  ghost function PrintConfig(uri: UriParser, sites: Sites, order: seq<string>): string
    requires forall a :: a in order ==> a in sites && OkSite(uri, sites[a])
  {
    PrintLines(SitesLines(uri, sites, order))
  }

  // ---------------------------------------------------------------------------
  // Printed lines consist of words
  // ---------------------------------------------------------------------------

  predicate AllWords(lines: seq<Line>) { forall l :: l in lines ==> AllTokens(l) }

  lemma {:induction false} NameIsToken(n: string)
    requires ValidName(n)
    ensures IsToken(n) && Last(n) != '{'
  {
    assert n[|n| - 1] in n;
  }

  lemma {:induction false} NumberIsToken(n: nat)
    ensures IsToken(PrintNat(n)) && Last(PrintNat(n)) != '{'
  {
    var s := PrintNat(n);
    assert forall c :: c in s ==> IsDigit(c) && !IsSpace(c);
    assert s[|s| - 1] in s;
  }

  lemma CmdWords(name: string, args: seq<string>)
    requires IsToken(name) && AllTokens(args)
    ensures AllTokens(Cmd(name, args)) && AllTokens(Pad(Cmd(name, args)))
    ensures AllWords([Cmd(name, args)]) && AllWords([Pad(Cmd(name, args))])
  {
  }

  lemma AuthKeywords()
    ensures IsToken("to") && IsToken("request_headers") && IsToken("response_headers")
    ensures IsToken("failure_mode") && IsToken("timeout")
    ensures IsToken("open") && IsToken("closed")
  {
  }

  lemma DirectiveKeywords()
    ensures IsToken("reverse_proxy") && IsToken("uri_replace") && IsToken("header") && IsToken("strip_prefix")
  {
  }

  lemma MoreKeywords()
    ensures IsToken("redirect") && IsToken("respond") && IsToken("forward_auth")
  {
  }

  lemma {:induction false} BlockWords(head: Line, body: seq<Line>)
    requires AllTokens(head) && AllWords(body)
    ensures AllWords(Block(head, body))
  {
    assert IsToken("{") && IsToken("}");
    assert AllTokens(head + ["{"]) && AllTokens(["}"]);
  }

  lemma {:induction false} HeaderUpWords(hs: seq<HeaderDirective>)
    requires forall h :: h in hs ==> OkHeaderUp(h)
    ensures AllWords(HeaderUpLines(hs))
  {
    if hs != [] {
      assert hs[0] in hs;
      HeaderUpWords(hs[1..]);
    }
  }

  lemma {:induction false} TimeoutWords(name: string, t: Option<nat>)
    requires IsToken(name)
    ensures AllWords(TimeoutLines(name, t))
  {
    if t.Some? { NumberIsToken(t.value); }
  }

  lemma {:induction false} ProxyWords(d: Directive)
    requires d.ReverseProxy? && forall h :: h in d.headerUp ==> OkHeaderUp(h)
    ensures AllWords(ProxyLines(d))
  {
    HeaderUpWords(d.headerUp);
    TimeoutWords("connect_timeout", d.connectTimeout);
    TimeoutWords("read_timeout", d.readTimeout);
  }

  lemma {:induction false} AuthWords(uri: UriParser, a: ForwardAuthConfig)
    requires OkAuth(uri, a)
    ensures AllWords(AuthLines(uri, a))
  {
    AuthKeywords();
    NumberIsToken(a.timeoutSecs);
    forall n | n in a.requestHeaders || n in a.responseHeaders ensures IsToken(n) { NameIsToken(n); }
    CmdWords("to", [EndpointWord(uri, a.endpoint)]);
    CmdWords("request_headers", a.requestHeaders);
    CmdWords("response_headers", a.responseHeaders);
    CmdWords("failure_mode", [ModeWord(a.failureMode)]);
    CmdWords("timeout", [PrintNat(a.timeoutSecs)]);
  }

  lemma {:induction false} LeafWords(uri: UriParser, d: Directive)
    requires OkDirective(uri, d) && !d.HandlePath? && !d.Method?
    ensures AllWords(LeafLines(uri, d))
  {
    DirectiveKeywords();
    MoreKeywords();
    match d
    case ReverseProxy(to, _, _, _) =>
      ProxyWords(d);
      CmdWords("reverse_proxy", Optional(to));
      BlockWords(Cmd("reverse_proxy", Optional(to)), ProxyLines(d));
    case ForwardAuth(auth) =>
      AuthWords(uri, auth);
      BlockWords(Cmd("forward_auth", []), AuthLines(uri, auth));
    case UriReplace(find, replace) => CmdWords("uri_replace", [find, replace]);
    case Header(name, value) => CmdWords("header", if value.None? then ["-" + name] else [name, value.value]);
    case StripPrefix(prefix) => CmdWords("strip_prefix", [prefix]);
    case Redirect(status, url) =>
      NumberIsToken(status);
      CmdWords("redirect", [PrintNat(status)] + Words(url));
    case Respond(status, body) =>
      NumberIsToken(status);
      CmdWords("respond", [PrintNat(status)] + Optional(body));
  }

  lemma {:induction false} DirectivesWords(uri: UriParser, ds: seq<Directive>)
    requires OkDirectives(uri, ds)
    ensures AllWords(DirectivesLines(uri, ds))
    decreases ds
  {
    if ds != [] {
      assert ds[0] in ds;
      DirectivesWords(uri, ds[1..]);
      match ds[0]
      case HandlePath(pattern, nested) =>
        DirectivesWords(uri, nested);
        BlockWords(Cmd("handle_path", Optional(pattern)), DirectivesLines(uri, nested));
      case Method(methods, nested) =>
        DirectivesWords(uri, nested);
        BlockWords(Cmd("method", methods), DirectivesLines(uri, nested));
      case d => LeafWords(uri, d);
    }
  }

  lemma {:induction false} SitesWords(uri: UriParser, sites: Sites, order: seq<string>)
    requires forall a :: a in order ==> a in sites && OkSite(uri, sites[a])
    ensures AllWords(SitesLines(uri, sites, order))
  {
    if order != [] {
      var site := sites[order[0]];
      DirectivesWords(uri, site.directives);
      if site.tls.Some? { CmdWords("tls", [site.tls.value.certPath, site.tls.value.keyPath]); }
      BlockWords([site.address], TlsLines(site.tls) + DirectivesLines(uri, site.directives));
      SitesWords(uri, sites, order[1..]);
    }
  }
}
