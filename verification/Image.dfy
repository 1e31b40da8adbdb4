/** Every configuration that the parser returns is expressible, so expressible configurations are exactly its results. */
module Image {
  import opened Basics
  import opened Http
  import opened Config
  import opened Listen
  import opened Text
  import opened Parser
  import opened Printer
  import opened RoundTrip
  import opened Conservation

  predicate OkAuthBlock(a: ForwardAuthBlock) {
    && (a.to.Some? ==> IsToken(a.to.value))
    && (a.requestHeaders.Some? ==> a.requestHeaders.value != [])
    && OkTimeout(a.timeout)
  }

  predicate OkBlock(b: PendingBlock) {
    && (forall t :: t in b.args ==> OkArg(t))
    && OkTimeout(b.connectTimeout) && OkTimeout(b.readTimeout)
    && (forall h :: h in b.headerUp ==> OkHeaderUp(h))
    && (b.auth.Some? ==> OkAuthBlock(b.auth.value))
  }

  /** Everything that the parser has collected can be written down. */
  ghost predicate OkState(uri: UriParser, st: PState) {
    && (forall level :: level in st.directives ==> OkDirectives(uri, level))
    && (forall b :: b in st.blocks ==> OkBlock(b))
    && (st.address.Some? ==> OkAddress(st.address.value))
    && OkTls(st.tls)
    && (forall a :: a in st.sites ==> OkSite(uri, st.sites[a]))
  }

  lemma DurationFits(s: string)
    ensures OkTimeout(ParseDuration(s))
  {
  }

  lemma {:induction false} JoinedText(ts: seq<string>)
    requires AllTokens(ts) && ts != [] && Last(ts[|ts| - 1]) != '{'
    ensures OkLineText(Join(ts))
  {
    WordsOfJoin(ts);
    JoinEnds(ts);
  }

  lemma {:induction false} HeaderUpOk(args: seq<string>)
    requires AllTokens(args) && (args != [] ==> Last(args[|args| - 1]) != '{')
    ensures HeaderUpLine(args).Ok? ==> OkHeaderUp(HeaderUpLine(args).value)
  {
    if HeaderUpLine(args).Ok? {
      assert IsToken(args[0]);
      if "-" <= args[0] {
        assert forall c :: c in args[0][1..] ==> c in args[0];
      } else {
        assert args[1..] != [];
        JoinedText(args[1..]);
      }
    }
  }

  lemma {:induction false} SimpleOk(uri: UriParser, name: string, args: seq<string>)
    requires AllTokens(args) && (args != [] ==> Last(args[|args| - 1]) != '{')
    ensures SimpleDirective(name, args).Ok? ==> OkDirective(uri, SimpleDirective(name, args).value)
  {
    if args != [] {
      assert IsToken(args[0]);
      assert "-" <= args[0] ==> forall c :: c in args[0][1..] ==> c in args[0];
      if |args| > 1 {
        assert IsToken(args[1]);
        JoinedText(args[1..]);
      } else {
        JoinedText(args);
      }
    }
  }

  lemma {:induction false} DefaultsAreNames()
    ensures forall n :: n in DEFAULT_REQUEST_HEADERS ==> ValidName(n)
  {
    assert Lower("authorization") == "authorization" && Lower("cookie") == "cookie";
  }

  lemma {:induction false} FinishOk(uri: UriParser, b: PendingBlock, ds: seq<Directive>)
    requires OkBlock(b) && OkDirectives(uri, ds)
    ensures Finish(uri, b, ds).Ok? ==> OkDirective(uri, Finish(uri, b, ds).value)
  {
    assert b.args != [] ==> b.args[0] in b.args;
    if Finish(uri, b, ds).Ok? && b.kind == "forward_auth" {
      var auth := b.auth.value;
      assert Endpoint(uri, auth.to.value).Some? && IsToken(auth.to.value);
      DefaultsAreNames();
    }
  }

  lemma {:induction false} AuthSettingOk(a: ForwardAuthBlock, name: string, args: seq<string>)
    requires OkAuthBlock(a) && AllTokens(args)
    ensures AuthSetting(a, name, args).Ok? ==> OkAuthBlock(AuthSetting(a, name, args).value)
  {
    if args != [] {
      assert IsToken(args[0]);
      DurationFits(args[0]);
    }
  }

  lemma {:induction false} ProxySettingOk(b: PendingBlock, name: string, args: seq<string>)
    requires OkBlock(b) && AllTokens(args) && (args != [] ==> Last(args[|args| - 1]) != '{')
    ensures ProxySetting(b, name, args).Ok? ==> OkBlock(ProxySetting(b, name, args).value)
  {
    HeaderUpOk(args);
    if args != [] { DurationFits(args[0]); }
  }

  lemma {:induction false} ReplaceTopOk(uri: UriParser, st: PState, b: PendingBlock)
    requires OkState(uri, st) && st.blocks != [] && OkBlock(b)
    ensures OkState(uri, ReplaceTop(st, b))
  {
    var blocks := st.blocks[|st.blocks| - 1 := b];
    forall x | x in blocks ensures OkBlock(x) {
      var i :| 0 <= i < |blocks| && blocks[i] == x;
      assert i < |blocks| - 1 ==> st.blocks[i] in st.blocks;
    }
  }

  lemma {:induction false} AppendOk(uri: UriParser, stack: seq<seq<Directive>>, d: Directive)
    requires stack != [] && (forall level :: level in stack ==> OkDirectives(uri, level)) && OkDirective(uri, d)
    ensures forall level :: level in Append(stack, d) ==> OkDirectives(uri, level)
  {
    var top := stack[|stack| - 1];
    assert top in stack;
    assert OkDirectives(uri, top + [d]);
    forall level | level in Append(stack, d) ensures OkDirectives(uri, level) {
      var i :| 0 <= i < |stack| && Append(stack, d)[i] == level;
      assert i < |stack| - 1 ==> stack[i] in stack;
    }
  }

  lemma {:induction false} PlainLineOk(uri: UriParser, st: PState, name: string, args: seq<string>)
    requires OkState(uri, st) && AllTokens(args) && (args != [] ==> Last(args[|args| - 1]) != '{')
    ensures PlainLine(st, name, args).Ok? ==> OkState(uri, PlainLine(st, name, args).value)
  {
    if PlainLine(st, name, args).Ok? {
      if st.blocks != [] && st.blocks[|st.blocks| - 1].kind == "forward_auth" {
        var top := st.blocks[|st.blocks| - 1];
        assert top in st.blocks;
        AuthSettingOk(top.auth.value, name, args);
        ReplaceTopOk(uri, st, top.(auth := Some(AuthSetting(top.auth.value, name, args).value)));
      } else if st.blocks != [] && st.blocks[|st.blocks| - 1].kind == "reverse_proxy" {
        var top := st.blocks[|st.blocks| - 1];
        assert top in st.blocks;
        ProxySettingOk(top, name, args);
        ReplaceTopOk(uri, st, ProxySetting(top, name, args).value);
      } else if name == "tls" && st.blocks == [] {
        assert args[0] in args && args[1] in args;
      } else {
        SimpleOk(uri, name, args);
        AppendOk(uri, st.directives, SimpleDirective(name, args).value);
      }
    }
  }

  lemma {:induction false} CloseBraceOk(uri: UriParser, st: PState)
    requires OkState(uri, st)
    ensures CloseBrace(uri, st).Ok? ==> OkState(uri, CloseBrace(uri, st).value)
  {
    if CloseBrace(uri, st).Ok? {
      if |st.directives| > 1 {
        var b, ds := st.blocks[|st.blocks| - 1], st.directives[|st.directives| - 1];
        assert b in st.blocks && ds in st.directives;
        FinishOk(uri, b, ds);
        assert forall level :: level in st.directives[..|st.directives| - 1] ==> level in st.directives;
        assert forall x :: x in st.blocks[..|st.blocks| - 1] ==> x in st.blocks;
        AppendOk(uri, st.directives[..|st.directives| - 1], Finish(uri, b, ds).value);
      } else if st.address.Some? {
        assert st.directives[0] in st.directives;
      }
    }
  }

  lemma {:induction false} OpenBraceOk(uri: UriParser, st: PState, ts: seq<string>)
    requires OkState(uri, st) && AllTokens(ts) && ts != [] && !Skipped(ts)
    ensures OkState(uri, OpenBrace(st, ts))
  {
    assert IsToken(ts[0]);
    var b := NewBlock(ts);
    forall t | t in b.args ensures OkArg(t) { assert t in ts[1..]; }
    assert OkBlock(b);
  }

  lemma {:induction false} StepOk(uri: UriParser, st: PState, ts: seq<string>)
    requires OkState(uri, st) && AllTokens(ts)
    ensures Step(uri, st, ts).Ok? ==> OkState(uri, Step(uri, st, ts).value)
  {
    if !Skipped(ts) {
      if OpensBlock(ts) { OpenBraceOk(uri, st, ts); }
      else if ts == ["}"] { CloseBraceOk(uri, st); }
      else {
        assert |ts| > 1 ==> ts[1..][|ts[1..]| - 1] == ts[|ts| - 1];
        PlainLineOk(uri, st, ts[0], ts[1..]);
      }
    }
  }

  lemma {:induction false} RunOk(uri: UriParser, st: PState, lines: seq<Line>)
    requires OkState(uri, st) && AllWords(lines)
    ensures RunLines(uri, st, lines).Ok? ==> OkState(uri, RunLines(uri, st, lines).value)
    decreases |lines|
  {
    if lines != [] {
      assert lines[0] in lines;
      StepOk(uri, st, lines[0]);
      var next := Step(uri, st, lines[0]);
      if next.Ok? { RunOk(uri, next.value, lines[1..]); }
    }
  }

  lemma {:induction false} ParsedIsExpressible(parse: SocketParser, uri: UriParser, content: string)
    ensures var r := ParseText(parse, uri, content); r.Ok? ==> Expressible(parse, uri, r.value)
  {
    RunOk(uri, INITIAL, Lines(content));
    ParserIsSafe(uri, INITIAL, Lines(content));
  }

  /** A configuration is the result of parsing some text exactly when it is expressible. */
  lemma {:induction false} ExpressibleExactly(parse: SocketParser, uri: UriParser, sites: Sites, order: seq<string>)
    requires Enumerates(order, sites.Keys)
    ensures Expressible(parse, uri, sites) <==> exists content :: ParseText(parse, uri, content) == Ok(sites)
  {
    if Expressible(parse, uri, sites) { PrintThenParseConfig(parse, uri, sites, order); }
    forall content | ParseText(parse, uri, content) == Ok(sites) ensures Expressible(parse, uri, sites) {
      ParsedIsExpressible(parse, uri, content);
    }
  }

  /** Whatever text a configuration came from, printing it canonically and parsing it again changes nothing. */
  lemma {:induction false} ReprintingIsStable(parse: SocketParser, uri: UriParser, content: string, order: seq<string>)
    requires var r := ParseText(parse, uri, content); r.Ok? && Enumerates(order, r.value.Keys)
    ensures var sites := ParseText(parse, uri, content).value;
            Expressible(parse, uri, sites) && ParseText(parse, uri, PrintConfig(uri, sites, order)) == Ok(sites)
  {
    ParsedIsExpressible(parse, uri, content);
    PrintThenParseConfig(parse, uri, ParseText(parse, uri, content).value, order);
  }

  /** Every leaf of an expressible tree is expressible. */
  lemma {:induction false} LeavesAreOk(uri: UriParser, chain: seq<Frame>, ds: seq<Directive>, leaf: Leaf)
    requires OkDirectives(uri, ds) && leaf in Leaves(chain, ds)
    ensures OkDirective(uri, leaf.directive)
    decreases ds
  {
    assert ds[0] in ds;
    if leaf in Leaves(chain, ds[1..]) {
      LeavesAreOk(uri, chain, ds[1..], leaf);
    } else if ds[0].HandlePath? {
      LeavesAreOk(uri, chain + [PathFrame(ds[0].pattern)], ds[0].directives, leaf);
    } else if ds[0].Method? {
      LeavesAreOk(uri, chain + [MethodFrame(ds[0].methods)], ds[0].directives, leaf);
    }
  }

  /** Validation happens at load time: every forward_auth anywhere in a parsed configuration has an absolute http or
      https endpoint with a host and a path, and stored header names only. */
  lemma {:induction false} ParsedAuthIsUsable(parse: SocketParser, uri: UriParser, content: string, address: string,
      leaf: Leaf)
    requires var r := ParseText(parse, uri, content);
             r.Ok? && address in r.value && leaf in Leaves([], r.value[address].directives) && leaf.directive.ForwardAuth?
    ensures var a := leaf.directive.auth;
            && (a.endpoint.scheme == Some("http") || a.endpoint.scheme == Some("https"))
            && a.endpoint.authority.Some? && a.endpoint.pathAndQuery.Some?
            && (forall n :: n in a.requestHeaders || n in a.responseHeaders ==> ValidName(n))
  {
    ParsedIsExpressible(parse, uri, content);
    var sites := ParseText(parse, uri, content).value;
    LeavesAreOk(uri, [], sites[address].directives, leaf);
    assert OkAuth(uri, leaf.directive.auth);
  }
}
