/** Parsing what was printed gives the configuration back. */
module RoundTrip {
  import opened Basics
  import opened Http
  import opened Config
  import opened Listen
  import opened Text
  import opened Parser
  import opened Printer

  // ---------------------------------------------------------------------------
  // Running lines
  // ---------------------------------------------------------------------------

  /** Lines that lead from one state to another, whatever comes after them. */
  ghost predicate Leads(uri: UriParser, st: PState, lines: seq<Line>, st': PState) {
    RunLines(uri, st, lines) == Ok(st')
  }

  lemma {:induction false} RunConcat(uri: UriParser, st: PState, a: seq<Line>, b: seq<Line>)
    ensures RunLines(uri, st, a + b) == (var mid := RunLines(uri, st, a); if mid.Err? then mid
        else RunLines(uri, mid.value, b))
    decreases |a|
  {
    if a == [] {
      assert a + b == b;
    } else {
      assert (a + b)[0] == a[0] && (a + b)[1..] == a[1..] + b;
      var next := Step(uri, st, a[0]);
      if next.Ok? { RunConcat(uri, next.value, a[1..], b); }
    }
  }

  lemma {:induction false} Then(uri: UriParser, st: PState, a: seq<Line>, mid: PState, b: seq<Line>, end: PState)
    requires Leads(uri, st, a, mid) && Leads(uri, mid, b, end)
    ensures Leads(uri, st, a + b, end)
  {
    RunConcat(uri, st, a, b);
  }

  lemma {:induction false} OneLine(uri: UriParser, st: PState, line: Line, st': PState)
    requires Step(uri, st, line) == Ok(st')
    ensures Leads(uri, st, [line], st')
  {
    assert [line][1..] == [];
  }

  // ---------------------------------------------------------------------------
  // Lines
  // ---------------------------------------------------------------------------

  /** Directives can be added here: a site is open, and the innermost block holds directives. */
  predicate Accepting(st: PState) {
    && st.address.Some? && |st.directives| == |st.blocks| + 1
    && (st.blocks != [] ==>
          st.blocks[|st.blocks| - 1].kind != "forward_auth" && st.blocks[|st.blocks| - 1].kind != "reverse_proxy")
  }

  function Adding(st: PState, ds: seq<Directive>): PState
    requires st.directives != []
  {
    st.(directives := st.directives[|st.directives| - 1 := st.directives[|st.directives| - 1] + ds])
  }

  /** A directive name: not a comment, and no brace. */
  predicate Word(name: string) {
    name != "" && name[0] != '#' && name != "}"
  }

  /** A command line is read as its name and arguments, with or without padding. */
  lemma {:induction false} CmdStep(uri: UriParser, st: PState, name: string, args: Line)
    requires Word(name) && name[|name| - 1] != '{'
    ensures var line := Pad(Cmd(name, args));
            Step(uri, st, line) == PlainLine(st, name, if OpensBlock(Cmd(name, args)) then args + ["_"] else args)
    ensures !OpensBlock(Cmd(name, args)) ==> Step(uri, st, Cmd(name, args)) == PlainLine(st, name, args)
  {
    var line := Cmd(name, args);
    assert line == [name] + args;
    assert (line + ["_"])[1..] == args + ["_"];
    assert "_"[0] != '{';
  }

  lemma {:induction false} CloseRefused(uri: UriParser, st: PState, rest: seq<Line>)
    requires CloseBrace(uri, st).Err?
    ensures RunLines(uri, st, [["}"]] + rest) == Err(CloseBrace(uri, st).error)
  {
    assert ([["}"]] + rest)[0] == ["}"];
  }

  lemma {:induction false} SimpleLine(uri: UriParser, st: PState, name: string, args: Line, d: Directive)
    requires Accepting(st) && Word(name) && name[|name| - 1] != '{' && name != "tls"
    requires SimpleDirective(name, args) == Ok(d) && SimpleDirective(name, args + ["_"]) == Ok(d)
    ensures Leads(uri, st, [Pad(Cmd(name, args))], Adding(st, [d]))
  {
    CmdStep(uri, st, name, args);
    OneLine(uri, st, Pad(Cmd(name, args)), Adding(st, [d]));
  }

  // ---------------------------------------------------------------------------
  // Blocks
  // ---------------------------------------------------------------------------

  /** The state inside a block that has just been opened. */
  function Inside(st: PState, b: PendingBlock): PState {
    st.(blocks := st.blocks + [b], directives := st.directives + [[]])
  }

  lemma {:induction false} BracesDropped(args: Line)
    requires forall t :: t in args ==> t != "{"
    ensures WithoutBraces(args + ["{"]) == args
  {
    if args == [] {
      assert args + ["{"] == ["{"];
      assert ["{"][1..] == [];
    } else {
      assert (args + ["{"])[1..] == args[1..] + ["{"];
      assert args[0] in args && forall t :: t in args[1..] ==> t in args;
      BracesDropped(args[1..]);
      assert args == [args[0]] + args[1..];
    }
  }

  lemma {:induction false} OpensInside(uri: UriParser, st: PState, name: string, args: Line)
    requires st.address.Some? && Word(name) && forall t :: t in args ==> t != "{"
    ensures Leads(uri, st, [Cmd(name, args) + ["{"]], Inside(st, FreshBlock(name, args)))
  {
    var line := Cmd(name, args) + ["{"];
    BracesDropped(args);
    assert line[1..] == args + ["{"] && line[0] == name;
    OneLine(uri, st, line, Inside(st, FreshBlock(name, args)));
  }

  lemma {:induction false} ClosesTo(uri: UriParser, st: PState, b: PendingBlock, ds: seq<Directive>, d: Directive)
    requires st.directives != [] && Finish(uri, b, ds) == Ok(d)
    ensures Leads(uri, Adding(Inside(st, b), ds), [["}"]], Adding(st, [d]))
  {
    var inner := Adding(Inside(st, b), ds);
    assert inner.directives[..|inner.directives| - 1] == st.directives;
    assert inner.directives[|inner.directives| - 1] == ds;
    assert inner.blocks[..|inner.blocks| - 1] == st.blocks && inner.blocks[|inner.blocks| - 1] == b;
    OneLine(uri, inner, ["}"], Adding(st, [d]));
  }

  /** A whole block, given what its body does. */
  lemma {:induction false} BlockLeads(uri: UriParser, st: PState, name: string, args: Line, body: seq<Line>,
      b: PendingBlock, ds: seq<Directive>, d: Directive)
    requires st.address.Some? && st.directives != [] && Word(name) && forall t :: t in args ==> t != "{"
    requires Leads(uri, Inside(st, FreshBlock(name, args)), body, Adding(Inside(st, b), ds))
    requires Finish(uri, b, ds) == Ok(d)
    ensures Leads(uri, st, Block(Cmd(name, args), body), Adding(st, [d]))
  {
    OpensInside(uri, st, name, args);
    ClosesTo(uri, st, b, ds, d);
    var open := [Cmd(name, args) + ["{"]];
    Then(uri, st, open, Inside(st, FreshBlock(name, args)), body, Adding(Inside(st, b), ds));
    Then(uri, st, open + body, Adding(Inside(st, b), ds), [["}"]], Adding(st, [d]));
  }

  lemma {:induction false} AddingNothing(st: PState)
    requires st.directives != []
    ensures Adding(st, []) == st
  {
    assert st.directives[|st.directives| - 1] + [] == st.directives[|st.directives| - 1];
  }

  // ---------------------------------------------------------------------------
  // reverse_proxy
  // ---------------------------------------------------------------------------

  lemma {:induction false} ProxyLine(uri: UriParser, st: PState, b: PendingBlock, name: string, args: Line,
      b': PendingBlock)
    requires b.kind == "reverse_proxy" && Word(name) && name[|name| - 1] != '{'
    requires ProxySetting(b, name, args) == Ok(b')
    requires OpensBlock(Cmd(name, args)) ==> ProxySetting(b, name, args + ["_"]) == Ok(b')
    ensures Leads(uri, Inside(st, b), [Pad(Cmd(name, args))], Inside(st, b'))
  {
    CmdStep(uri, Inside(st, b), name, args);
    var inner := Inside(st, b);
    assert inner.blocks[|inner.blocks| - 1] == b;
    assert inner.blocks[|inner.blocks| - 1 := b'] == st.blocks + [b'];
    OneLine(uri, Inside(st, b), Pad(Cmd(name, args)), Inside(st, b'));
  }

  lemma {:induction false} NumberArg(name: string, n: nat)
    requires n < U64_LIMIT
    ensures ParseDuration(PrintNat(n)) == Some(n) && Pad(Cmd(name, [PrintNat(n)])) == Cmd(name, [PrintNat(n)])
  {
    PrintThenParse(n, U64_LIMIT);
    NumberIsToken(n);
  }

  lemma {:induction false} TimeoutLeads(uri: UriParser, st: PState, b: PendingBlock, name: string, t: Option<nat>,
      b': PendingBlock)
    requires b.kind == "reverse_proxy" && OkTimeout(t)
    requires (name == "connect_timeout" && b.connectTimeout.None? && b' == b.(connectTimeout := t))
             || (name == "read_timeout" && b.readTimeout.None? && b' == b.(readTimeout := t))
    ensures Leads(uri, Inside(st, b), TimeoutLines(name, t), Inside(st, b'))
  {
    if t.Some? {
      NumberArg(name, t.value);
      ProxyLine(uri, st, b, name, [PrintNat(t.value)], b');
    }
  }

  /** A line that ends in free text does not look like a block opening. */
  lemma {:induction false} TextLine(name: string, args: Line, text: string)
    requires OkLineText(text)
    ensures !OpensBlock(Cmd(name, args + Words(text))) && Words(text) != []
  {
    var words := Words(text);
    JoinEnds(words);
    var line := Cmd(name, args + words);
    assert line == [name] + (args + words);
    assert line[|line| - 1] == words[|words| - 1];
  }

  lemma {:induction false} HeaderUpLeads(uri: UriParser, st: PState, b: PendingBlock, h: HeaderDirective)
    requires b.kind == "reverse_proxy" && OkHeaderUp(h)
    ensures Leads(uri, Inside(st, b), [HeaderUpLineOf(h)], Inside(st, b.(headerUp := b.headerUp + [h])))
  {
    var b' := b.(headerUp := b.headerUp + [h]);
    if h.value.None? {
      var word := "-" + h.name;
      assert word[1..] == h.name;
      assert ([word] + ["_"])[0] == word;
      ProxyLine(uri, st, b, "header_up", [word], b');
    } else {
      var words := Words(h.value.value);
      var args := [h.name] + words;
      assert args[1..] == words && words != [];
      TextLine("header_up", [h.name], h.value.value);
      ProxyLine(uri, st, b, "header_up", args, b');
    }
  }

  lemma {:induction false} HeaderUpsLead(uri: UriParser, st: PState, b: PendingBlock, hs: seq<HeaderDirective>)
    requires b.kind == "reverse_proxy" && forall h :: h in hs ==> OkHeaderUp(h)
    ensures Leads(uri, Inside(st, b), HeaderUpLines(hs), Inside(st, b.(headerUp := b.headerUp + hs)))
    decreases |hs|
  {
    if hs == [] {
      assert b.headerUp + hs == b.headerUp;
    } else {
      var b' := b.(headerUp := b.headerUp + [hs[0]]);
      HeaderUpLeads(uri, st, b, hs[0]);
      HeaderUpsLead(uri, st, b', hs[1..]);
      assert b'.headerUp + hs[1..] == b.headerUp + hs;
      Then(uri, Inside(st, b), [HeaderUpLineOf(hs[0])], Inside(st, b'), HeaderUpLines(hs[1..]),
          Inside(st, b.(headerUp := b.headerUp + hs)));
    }
  }

  lemma {:induction false} ProxyBodyLeads(uri: UriParser, st: PState, d: Directive, args: Line)
    requires d.ReverseProxy? && OkTimeout(d.connectTimeout) && OkTimeout(d.readTimeout)
    requires forall h :: h in d.headerUp ==> OkHeaderUp(h)
    ensures Leads(uri, Inside(st, FreshBlock("reverse_proxy", args)), ProxyLines(d),
                  Inside(st, PendingBlock("reverse_proxy", args, d.connectTimeout, d.readTimeout, d.headerUp, None)))
  {
    var b0 := FreshBlock("reverse_proxy", args);
    var b1 := b0.(connectTimeout := d.connectTimeout);
    var b2 := b1.(readTimeout := d.readTimeout);
    var b3 := PendingBlock("reverse_proxy", args, d.connectTimeout, d.readTimeout, d.headerUp, None);
    TimeoutLeads(uri, st, b0, "connect_timeout", d.connectTimeout, b1);
    TimeoutLeads(uri, st, b1, "read_timeout", d.readTimeout, b2);
    HeaderUpsLead(uri, st, b2, d.headerUp);
    assert b2.(headerUp := b2.headerUp + d.headerUp) == b3;
    Then(uri, Inside(st, b0), TimeoutLines("connect_timeout", d.connectTimeout), Inside(st, b1),
        TimeoutLines("read_timeout", d.readTimeout), Inside(st, b2));
    Then(uri, Inside(st, b0), TimeoutLines("connect_timeout", d.connectTimeout)
        + TimeoutLines("read_timeout", d.readTimeout), Inside(st, b2),
         HeaderUpLines(d.headerUp), Inside(st, b3));
  }

  lemma {:induction false} ProxyLeads(uri: UriParser, st: PState, d: Directive)
    requires Accepting(st) && d.ReverseProxy? && OkDirective(uri, d)
    ensures Leads(uri, st, LeafLines(uri, d), Adding(st, [d]))
  {
    if d.to != "" && NoOptions(d) {
      SimpleLine(uri, st, "reverse_proxy", [d.to], d);
    } else {
      var args := Optional(d.to);
      var b := PendingBlock("reverse_proxy", args, d.connectTimeout, d.readTimeout, d.headerUp, None);
      ProxyBodyLeads(uri, st, d, args);
      AddingNothing(Inside(st, b));
      BlockLeads(uri, st, "reverse_proxy", args, ProxyLines(d), b, [], d);
    }
  }

  // ---------------------------------------------------------------------------
  // forward_auth
  // ---------------------------------------------------------------------------

  function AuthPending(a: ForwardAuthBlock): PendingBlock {
    PendingBlock("forward_auth", [], None, None, [], Some(a))
  }

  lemma {:induction false} AuthLine(uri: UriParser, st: PState, a: ForwardAuthBlock, name: string, args: Line,
      a': ForwardAuthBlock)
    requires Word(name) && name[|name| - 1] != '{'
    requires AuthSetting(a, name, args) == Ok(a')
    requires OpensBlock(Cmd(name, args)) ==> AuthSetting(a, name, args + ["_"]) == Ok(a')
    ensures Leads(uri, Inside(st, AuthPending(a)), [Pad(Cmd(name, args))], Inside(st, AuthPending(a')))
  {
    var inner := Inside(st, AuthPending(a));
    CmdStep(uri, inner, name, args);
    assert inner.blocks[|inner.blocks| - 1] == AuthPending(a);
    assert inner.blocks[|inner.blocks| - 1 := AuthPending(a')] == st.blocks + [AuthPending(a')];
    OneLine(uri, inner, Pad(Cmd(name, args)), Inside(st, AuthPending(a')));
  }

  /** Names that are already valid need no padding and parse to themselves. */
  lemma {:induction false} NamesParse(names: seq<string>)
    requires forall n :: n in names ==> ValidName(n)
    ensures ParseNames(names) == Some(names)
  {
    if names != [] {
      ValidNameParses(names[0]);
      NamesParse(names[1..]);
      assert names == [names[0]] + names[1..];
    }
  }

  lemma {:induction false} NamesLine(name: string, names: seq<string>)
    requires names != [] && forall n :: n in names ==> ValidName(n)
    ensures Pad(Cmd(name, names)) == Cmd(name, names) && !OpensBlock(Cmd(name, names))
  {
    var line := Cmd(name, names);
    assert line == [name] + names;
    assert line[|line| - 1] == names[|names| - 1];
    NameIsToken(names[|names| - 1]);
  }

  lemma {:induction false} AuthHeadersLead(uri: UriParser, st: PState, cfg: ForwardAuthConfig,
      raw: string) returns (a: ForwardAuthBlock)
    requires OkAuth(uri, cfg) && raw == EndpointWord(uri, cfg.endpoint)
    ensures a == ForwardAuthBlock(Some(raw), Some(cfg.requestHeaders), if cfg.responseHeaders == [] then None
        else Some(cfg.responseHeaders), None, None)
    ensures Leads(uri, Inside(st, AuthPending(NEW_AUTH_BLOCK)),
                  [Pad(Cmd("to", [raw]))] + [Cmd("request_headers", cfg.requestHeaders)]
                  + (if cfg.responseHeaders == [] then [] else [Cmd("response_headers", cfg.responseHeaders)]),
                  Inside(st, AuthPending(a)))
  {
    var a1 := NEW_AUTH_BLOCK.(to := Some(raw));
    var a2 := a1.(requestHeaders := Some(cfg.requestHeaders));
    var l1, l2 := [Pad(Cmd("to", [raw]))], [Cmd("request_headers", cfg.requestHeaders)];
    assert ([raw] + ["_"])[0] == raw;
    AuthLine(uri, st, NEW_AUTH_BLOCK, "to", [raw], a1);
    NamesLine("request_headers", cfg.requestHeaders);
    AuthLine(uri, st, a1, "request_headers", cfg.requestHeaders, a2);
    Then(uri, Inside(st, AuthPending(NEW_AUTH_BLOCK)), l1, Inside(st, AuthPending(a1)), l2, Inside(st, AuthPending(a2)));
    if cfg.responseHeaders == [] {
      a := a2;
      assert l1 + l2 + [] == l1 + l2;
    } else {
      a := a2.(responseHeaders := Some(cfg.responseHeaders));
      NamesLine("response_headers", cfg.responseHeaders);
      AuthLine(uri, st, a2, "response_headers", cfg.responseHeaders, a);
      Then(uri, Inside(st, AuthPending(NEW_AUTH_BLOCK)), l1 + l2, Inside(st, AuthPending(a2)),
           [Cmd("response_headers", cfg.responseHeaders)], Inside(st, AuthPending(a)));
    }
  }

  lemma {:induction false} ModeLine(uri: UriParser, st: PState, a: ForwardAuthBlock, m: FailureMode)
    ensures Leads(uri, Inside(st, AuthPending(a)), [Cmd("failure_mode", [ModeWord(m)])],
        Inside(st, AuthPending(a.(failureMode := Some(m)))))
  {
    assert Cmd("failure_mode", [ModeWord(m)])[1] == ModeWord(m);
    AuthLine(uri, st, a, "failure_mode", [ModeWord(m)], a.(failureMode := Some(m)));
  }

  lemma {:induction false} AuthBodyLeads(uri: UriParser, st: PState, cfg: ForwardAuthConfig) returns (a: ForwardAuthBlock)
    requires OkAuth(uri, cfg)
    ensures Leads(uri, Inside(st, AuthPending(NEW_AUTH_BLOCK)), AuthLines(uri, cfg), Inside(st, AuthPending(a)))
    ensures BuildForwardAuth(uri, a) == Ok(ForwardAuth(cfg))
  {
    var raw := EndpointWord(uri, cfg.endpoint);
    var a3 := AuthHeadersLead(uri, st, cfg, raw);
    var a4 := a3.(failureMode := Some(cfg.failureMode));
    a := a4.(timeout := Some(cfg.timeoutSecs));
    var start, mode := Inside(st, AuthPending(NEW_AUTH_BLOCK)), ModeWord(cfg.failureMode);
    var headers := [Pad(Cmd("to", [raw]))] + [Cmd("request_headers", cfg.requestHeaders)]
                   + (if cfg.responseHeaders == [] then [] else [Cmd("response_headers", cfg.responseHeaders)]);
    ModeLine(uri, st, a3, cfg.failureMode);
    NumberArg("timeout", cfg.timeoutSecs);
    AuthLine(uri, st, a4, "timeout", [PrintNat(cfg.timeoutSecs)], a);
    Then(uri, start, headers, Inside(st, AuthPending(a3)), [Cmd("failure_mode", [mode])], Inside(st, AuthPending(a4)));
    Then(uri, start, headers + [Cmd("failure_mode", [mode])], Inside(st, AuthPending(a4)),
         [Cmd("timeout", [PrintNat(cfg.timeoutSecs)])], Inside(st, AuthPending(a)));
    NamesParse(cfg.requestHeaders);
    NamesParse(cfg.responseHeaders);
  }

  lemma {:induction false} AuthLeads(uri: UriParser, st: PState, cfg: ForwardAuthConfig)
    requires Accepting(st) && OkAuth(uri, cfg)
    ensures Leads(uri, st, LeafLines(uri, ForwardAuth(cfg)), Adding(st, [ForwardAuth(cfg)]))
  {
    var a := AuthBodyLeads(uri, st, cfg);
    AddingNothing(Inside(st, AuthPending(a)));
    BlockLeads(uri, st, "forward_auth", [], AuthLines(uri, cfg), AuthPending(a), [], ForwardAuth(cfg));
  }

  /** A forward_auth block that only names its endpoint forwards credentials, takes over no header, fails closed and
      waits five seconds. */
  lemma {:induction false} AuthDefaults(uri: UriParser, st: PState, raw: string, endpoint: Uri)
    requires Accepting(st) && IsToken(raw) && Endpoint(uri, raw) == Some(endpoint)
    ensures Leads(uri, st, Block(Cmd("forward_auth", []), [Pad(Cmd("to", [raw]))]),
                  Adding(st, [ForwardAuth(ForwardAuthConfig(endpoint, ["authorization", "cookie"], [], FailureMode.Closed,
                      5))]))
  {
    var a := NEW_AUTH_BLOCK.(to := Some(raw));
    assert ([raw] + ["_"])[0] == raw;
    AuthLine(uri, st, NEW_AUTH_BLOCK, "to", [raw], a);
    AddingNothing(Inside(st, AuthPending(a)));
    BlockLeads(uri, st, "forward_auth", [], [Pad(Cmd("to", [raw]))], AuthPending(a), [],
               ForwardAuth(ForwardAuthConfig(endpoint, ["authorization", "cookie"], [], FailureMode.Closed, 5)));
  }

  // ---------------------------------------------------------------------------
  // All directives
  // ---------------------------------------------------------------------------

  lemma {:induction false} StatusParses(n: nat)
    requires n < U16_LIMIT
    ensures ParseUnsigned(PrintNat(n), U16_LIMIT) == Some(n)
  {
    PrintThenParse(n, U16_LIMIT);
  }

  lemma {:induction false} RedirectLeads(uri: UriParser, st: PState, status: nat, url: string)
    requires Accepting(st) && status < U16_LIMIT && OkLineText(url)
    ensures Leads(uri, st, [Cmd("redirect", [PrintNat(status)] + Words(url))], Adding(st, [Redirect(status, url)]))
  {
    var args := [PrintNat(status)] + Words(url);
    StatusParses(status);
    TextLine("redirect", [PrintNat(status)], url);
    assert args[1..] == Words(url);
    CmdStep(uri, st, "redirect", args);
    OneLine(uri, st, Cmd("redirect", args), Adding(st, [Redirect(status, url)]));
  }

  /** A redirect with a target only is permanent. */
  lemma {:induction false} RedirectDefault(uri: UriParser, st: PState, url: string)
    requires Accepting(st) && IsToken(url) && Last(url) != '{'
    ensures Leads(uri, st, [Cmd("redirect", [url])], Adding(st, [Redirect(301, url)]))
  {
    CmdStep(uri, st, "redirect", [url]);
    OneLine(uri, st, Cmd("redirect", [url]), Adding(st, [Redirect(301, url)]));
  }

  lemma {:induction false} RespondLeads(uri: UriParser, st: PState, status: nat, body: string)
    requires Accepting(st) && status < U16_LIMIT && (body == "" || IsToken(body))
    ensures Leads(uri, st, [Pad(Cmd("respond", [PrintNat(status)] + Optional(body)))], Adding(st, [Respond(status, body)]))
  {
    StatusParses(status);
    if body == "" {
      NumberArg("respond", status);
      assert [PrintNat(status)] + Optional(body) == [PrintNat(status)];
      CmdStep(uri, st, "respond", [PrintNat(status)]);
      OneLine(uri, st, Cmd("respond", [PrintNat(status)]), Adding(st, [Respond(status, body)]));
    } else {
      SimpleLine(uri, st, "respond", [PrintNat(status)] + [body], Respond(status, body));
    }
  }

  lemma {:induction false} HeaderLeads(uri: UriParser, st: PState, name: string, value: Option<string>)
    requires Accepting(st) && OkDirective(uri, Header(name, value))
    ensures Leads(uri, st, LeafLines(uri, Header(name, value)), Adding(st, [Header(name, value)]))
  {
    if value.None? {
      assert ("-" + name)[1..] == name;
      SimpleLine(uri, st, "header", ["-" + name], Header(name, value));
    } else {
      SimpleLine(uri, st, "header", [name, value.value], Header(name, value));
    }
  }

  lemma {:induction false} LeafLeads(uri: UriParser, st: PState, d: Directive)
    requires Accepting(st) && OkDirective(uri, d) && !d.HandlePath? && !d.Method?
    ensures Leads(uri, st, LeafLines(uri, d), Adding(st, [d]))
  {
    match d
    case ReverseProxy(_, _, _, _) => ProxyLeads(uri, st, d);
    case ForwardAuth(cfg) => AuthLeads(uri, st, cfg);
    case UriReplace(find, replace) => SimpleLine(uri, st, "uri_replace", [find, replace], d);
    case Header(name, value) => HeaderLeads(uri, st, name, value);
    case StripPrefix(prefix) => SimpleLine(uri, st, "strip_prefix", [prefix], d);
    case Redirect(status, url) => RedirectLeads(uri, st, status, url);
    case Respond(status, body) => RespondLeads(uri, st, status, body);
  }

  lemma {:induction false} AddingTwice(st: PState, a: seq<Directive>, b: seq<Directive>)
    requires st.directives != []
    ensures Adding(Adding(st, a), b) == Adding(st, a + b)
  {
    var top := st.directives[|st.directives| - 1];
    assert top + a + b == top + (a + b);
  }

  /** Printed directives, at any nesting depth, are added in order to the innermost open block. */
  lemma {:induction false} DirectivesLead(uri: UriParser, st: PState, ds: seq<Directive>)
    requires Accepting(st) && OkDirectives(uri, ds)
    ensures Leads(uri, st, DirectivesLines(uri, ds), Adding(st, ds))
    decreases ds
  {
    if ds == [] {
      AddingNothing(st);
    } else {
      var first, rest, mid := ds[0], ds[1..], Adding(st, [ds[0]]);
      assert first in ds;
      var head := FirstLead(uri, st, ds);
      DirectivesLead(uri, mid, rest);
      AddingTwice(st, [first], rest);
      assert [first] + rest == ds;
      Then(uri, st, head, mid, DirectivesLines(uri, rest), Adding(st, ds));
    }
  }

  lemma {:induction false} FirstLead(uri: UriParser, st: PState, ds: seq<Directive>) returns (head: seq<Line>)
    requires ds != [] && Accepting(st) && OkDirectives(uri, ds)
    ensures Leads(uri, st, head, Adding(st, [ds[0]]))
    ensures DirectivesLines(uri, ds) == head + DirectivesLines(uri, ds[1..])
    decreases ds, 0
  {
    assert ds[0] in ds;
    match ds[0]
    case HandlePath(pattern, nested) =>
      var b := FreshBlock("handle_path", Optional(pattern));
      DirectivesLead(uri, Inside(st, b), nested);
      head := Block(Cmd("handle_path", Optional(pattern)), DirectivesLines(uri, nested));
      BlockLeads(uri, st, "handle_path", Optional(pattern), DirectivesLines(uri, nested), b, nested, ds[0]);
    case Method(methods, nested) =>
      var b := FreshBlock("method", methods);
      DirectivesLead(uri, Inside(st, b), nested);
      head := Block(Cmd("method", methods), DirectivesLines(uri, nested));
      BlockLeads(uri, st, "method", methods, DirectivesLines(uri, nested), b, nested, ds[0]);
    case d =>
      LeafLeads(uri, st, d);
      head := LeafLines(uri, d);
  }

  /** A forward_auth block refuses nested directives, whatever they are and whatever else it holds. */
  lemma {:induction false} NestingInAuthRefused(uri: UriParser, st: PState, pattern: string, ds: seq<Directive>,
      rest: seq<Line>)
    requires Accepting(st) && OkArg(pattern) && OkDirectives(uri, ds)
    ensures RunLines(uri, st, [Cmd("forward_auth", []) + ["{"]]
        + Block(Cmd("handle_path", [pattern]), DirectivesLines(uri, ds)) + ([["}"]] + rest))
            == Err(NestedInForwardAuth)
  {
    var auth, path := AuthPending(NEW_AUTH_BLOCK), FreshBlock("handle_path", [pattern]);
    var open, nested := [Cmd("forward_auth", []) + ["{"]], Block(Cmd("handle_path", [pattern]), DirectivesLines(uri, ds));
    OpensInside(uri, st, "forward_auth", []);
    DirectivesLead(uri, Inside(Inside(st, auth), path), ds);
    BlockLeads(uri, Inside(st, auth), "handle_path", [pattern], DirectivesLines(uri, ds), path, ds,
        HandlePath(pattern, ds));
    var inner := Adding(Inside(st, auth), [HandlePath(pattern, ds)]);
    Then(uri, st, open, Inside(st, auth), nested, inner);
    RunConcat(uri, st, open + nested, [["}"]] + rest);
    assert inner.blocks[|inner.blocks| - 1] == auth && inner.directives[|inner.directives| - 1] == [HandlePath(pattern,
        ds)];
    CloseRefused(uri, inner, rest);
  }

  // ---------------------------------------------------------------------------
  // Sites
  // ---------------------------------------------------------------------------

  /** Between two sites. */
  function BetweenSites(sites: Sites): PState { PState(sites, None, None, [[]], []) }

  lemma {:induction false} TlsLeads(uri: UriParser, st: PState, tls: Option<TlsConfig>)
    requires st.address.Some? && st.blocks == [] && st.tls.None? && OkTls(tls)
    ensures Leads(uri, st, TlsLines(tls), st.(tls := tls))
  {
    if tls.Some? {
      var args := [tls.value.certPath, tls.value.keyPath];
      CmdStep(uri, st, "tls", args);
      OneLine(uri, st, Pad(Cmd("tls", args)), st.(tls := tls));
    }
  }

  lemma {:induction false} SiteBodyLeads(uri: UriParser, sites: Sites, site: SiteConfig) returns (open: PState)
    requires OkSite(uri, site)
    ensures open == PState(sites, Some(site.address), site.tls, [site.directives], [])
    ensures Leads(uri, BetweenSites(sites), [[site.address] + ["{"]]
        + (TlsLines(site.tls) + DirectivesLines(uri, site.directives)), open)
  {
    var body := TlsLines(site.tls) + DirectivesLines(uri, site.directives);
    var s0 := BetweenSites(sites);
    var s1 := s0.(address := Some(site.address));
    var s2 := s1.(tls := site.tls);
    open := Adding(s2, site.directives);
    OneLine(uri, s0, [site.address] + ["{"], s1);
    TlsLeads(uri, s1, site.tls);
    DirectivesLead(uri, s2, site.directives);
    assert open.directives == [site.directives] by { assert [] + site.directives == site.directives; }
    Then(uri, s1, TlsLines(site.tls), s2, DirectivesLines(uri, site.directives), open);
    Then(uri, s0, [[site.address] + ["{"]], s1, body, open);
  }

  lemma {:induction false} SiteLeads(uri: UriParser, sites: Sites, site: SiteConfig)
    requires OkSite(uri, site) && site.address !in sites
    ensures Leads(uri, BetweenSites(sites), SiteLines(uri, site), BetweenSites(sites[site.address := site]))
  {
    var body := TlsLines(site.tls) + DirectivesLines(uri, site.directives);
    var s3 := SiteBodyLeads(uri, sites, site);
    OneLine(uri, s3, ["}"], BetweenSites(sites[site.address := site]));
    Then(uri, BetweenSites(sites), [[site.address] + ["{"]] + body, s3, [["}"]], BetweenSites(sites[site.address := site]));
  }

  lemma Regroup(a: seq<Line>, b: seq<Line>, c: seq<Line>)
    ensures (a + b) + c == a + (b + c)
  {
  }

  /** A second site with the same address is refused when it closes. */
  lemma {:induction false} RepeatedSiteRefused(uri: UriParser, sites: Sites, site: SiteConfig, rest: seq<Line>)
    requires OkSite(uri, site) && site.address in sites
    ensures RunLines(uri, BetweenSites(sites), SiteLines(uri, site) + rest) == Err(DuplicateSite(site.address))
  {
    var head := [[site.address] + ["{"]] + (TlsLines(site.tls) + DirectivesLines(uri, site.directives));
    var s3 := SiteBodyLeads(uri, sites, site);
    CloseRefused(uri, s3, rest);
    RunConcat(uri, BetweenSites(sites), head, [["}"]] + rest);
    Regroup(head, [["}"]], rest);
  }

  function WithSites(before: Sites, all: Sites, order: seq<string>): Sites
    requires forall a :: a in order ==> a in all
    decreases |order|
  {
    if order == [] then before else WithSites(before[order[0] := all[order[0]]], all, order[1..])
  }

  lemma {:induction false} WithSitesExactly(before: Sites, all: Sites, order: seq<string>)
    requires forall a :: a in order ==> a in all
    ensures WithSites(before, all, order).Keys == before.Keys + set a | a in order
    ensures forall a :: a in order ==> WithSites(before, all, order)[a] == all[a]
    ensures forall a :: a in before && a !in order ==> WithSites(before, all, order)[a] == before[a]
    decreases |order|
  {
    if order != [] {
      WithSitesExactly(before[order[0] := all[order[0]]], all, order[1..]);
      assert order == [order[0]] + order[1..];
    }
  }

  lemma {:induction false} SitesLead(uri: UriParser, all: Sites, before: Sites, order: seq<string>)
    requires forall a :: a in order ==> a in all && all[a].address == a && OkSite(uri, all[a]) && a !in before
    requires NoRepeats(order)
    ensures Leads(uri, BetweenSites(before), SitesLines(uri, all, order), BetweenSites(WithSites(before, all, order)))
    decreases |order|
  {
    if order != [] {
      var a, rest := order[0], order[1..];
      var next := before[a := all[a]];
      SiteLeads(uri, before, all[a]);
      SitesLead(uri, all, next, rest);
      Then(uri, BetweenSites(before), SiteLines(uri, all[a]), BetweenSites(next), SitesLines(uri, all, rest),
          BetweenSites(WithSites(next, all, rest)));
    }
  }

  lemma {:induction false} WithAllSites(sites: Sites, order: seq<string>)
    requires Enumerates(order, sites.Keys)
    ensures WithSites(map[], sites, order) == sites
  {
    WithSitesExactly(map[], sites, order);
  }

  /** Round trip: the canonical text of every expressible configuration, whatever the order of its sites and the depth
      of its blocks, parses to exactly that configuration. */
  lemma {:induction false} PrintThenParseConfig(parse: SocketParser, uri: UriParser, sites: Sites, order: seq<string>)
    requires Expressible(parse, uri, sites) && Enumerates(order, sites.Keys)
    ensures ParseText(parse, uri, PrintConfig(uri, sites, order)) == Ok(sites)
  {
    SitesWords(uri, sites, order);
    LinesOfPrint(SitesLines(uri, sites, order));
    SitesLead(uri, sites, map[], order);
    WithAllSites(sites, order);
  }

}
