/** What single lines of a configuration mean, whatever stands around them: comments, openings and closings, settings
    and directives (src/config/parser.rs). */
module Grammar {
  import opened Basics
  import opened Characters
  import opened Http
  import opened Config
  import opened Listen
  import opened Text
  import opened Parser

  type Line = seq<string>

  // ---------------------------------------------------------------------------
  // Blank lines and comments
  // ---------------------------------------------------------------------------

  /** A line without words, or one whose first word begins with a number sign. */
  predicate SaysNothing(l: Line) { l == [] || (l[0] != "" && l[0][0] == '#') }

  lemma {:induction false} RunsBefore(uri: UriParser, st: PState, a: seq<Line>, b: seq<Line>)
    ensures RunLines(uri, st, a + b) ==
            if RunLines(uri, st, a).Ok? then RunLines(uri, RunLines(uri, st, a).value, b) else RunLines(uri, st, a)
    decreases |a|
  {
    if a == [] {
      assert a + b == b;
    } else {
      assert (a + b)[0] == a[0] && (a + b)[1..] == a[1..] + b;
      var next := Step(uri, st, a[0]);
      if next.Ok? { RunsBefore(uri, next.value, a[1..], b); }
    }
  }

  lemma {:induction false} OneStep(uri: UriParser, st: PState, l: Line)
    ensures RunLines(uri, st, [l]) == Step(uri, st, l)
  {
    assert [l][1..] == [];
  }

  /** Such a line can be put anywhere: before, between and inside blocks, in accepted and in refused configurations. */
  lemma {:induction false} NothingSaid(uri: UriParser, st: PState, a: seq<Line>, l: Line, b: seq<Line>)
    requires SaysNothing(l)
    ensures RunLines(uri, st, a + [l] + b) == RunLines(uri, st, a + b)
  {
    assert a + [l] + b == a + ([l] + b) && ([l] + b)[0] == l && ([l] + b)[1..] == b;
    RunsBefore(uri, st, a, [l] + b);
    RunsBefore(uri, st, a, b);
  }

  predicate Blank(s: string) { forall c :: c in s ==> IsSpace(c) }

  lemma {:induction false} BlankHasNoWords(pad: string, s: string)
    requires Blank(pad)
    ensures Words(pad + s) == Words(s)
  {
    if pad == "" {
      assert pad + s == s;
    } else {
      assert pad[0] in pad && (pad + s)[1..] == pad[1..] + s;
      BlankHasNoWords(pad[1..], s);
    }
  }

  lemma {:induction false} CommentSaysNothing(pad: string, note: string)
    requires Blank(pad) && (note != "" ==> note[0] == '#')
    ensures SaysNothing(Words(pad + note))
  {
    BlankHasNoWords(pad, note);
    if note != "" {
      BlanksExactly('#');
      var word, rest := CutWord(note);
      FirstWord(word, rest);
    }
  }

  predicate EndsLine(s: string) { s == "" || s[|s| - 1] == '\n' }

  lemma {:induction false} CutLine(a: string) returns (line: string, rest: string)
    requires a != "" && EndsLine(a)
    ensures '\n' !in line && a == line + "\n" + rest && EndsLine(rest) && |rest| < |a|
  {
    line := BeforeFirst(a, '\n');
    assert a[|a| - 1] in a;
    rest := a[|line| + 1..];
  }

  /** Lines as they stand in the text, each with its end. */
  function Raw(lines: seq<string>): string {
    if lines == [] then "" else lines[0] + "\n" + Raw(lines[1..])
  }

  function WordsOf(lines: seq<string>): seq<Line> {
    if lines == [] then [] else [Words(lines[0])] + WordsOf(lines[1..])
  }

  lemma {:induction false} CutLines(a: string) returns (lines: seq<string>)
    requires EndsLine(a)
    ensures a == Raw(lines) && forall l :: l in lines ==> '\n' !in l
    decreases |a|
  {
    if a == "" {
      lines := [];
    } else {
      var line, rest := CutLine(a);
      var more := CutLines(rest);
      lines := [line] + more;
      assert lines[1..] == more;
    }
  }

  lemma Onward(a: string, b: string, c: string)
    ensures a + "\n" + b + c == a + "\n" + (b + c)
  {
  }

  lemma {:induction false} LinesBehind(lines: seq<string>, b: string)
    requires forall l :: l in lines ==> '\n' !in l
    ensures Lines(Raw(lines) + b) == WordsOf(lines) + Lines(b)
    decreases |lines|
  {
    if lines == [] {
      assert Raw(lines) + b == b;
    } else {
      var first, rest := lines[0], lines[1..];
      assert first in lines && forall l :: l in rest ==> l in lines;
      LinesBehind(rest, b);
      Onward(first, Raw(rest), b);
      FirstLine(first, Raw(rest) + b);
    }
  }

  /** In a text: a blank line, or a comment behind any white space, changes nothing wherever it stands. */
  lemma {:induction false} CommentsChangeNothing(parse: SocketParser, uri: UriParser, before: string, pad: string,
      note: string, after: string)
    requires EndsLine(before) && Blank(pad) && '\n' !in pad && '\n' !in note && (note != "" ==> note[0] == '#')
    ensures ParseText(parse, uri, before + ((pad + note) + "\n" + after)) == ParseText(parse, uri, before + after)
  {
    var lines := CutLines(before);
    LinesBehind(lines, (pad + note) + "\n" + after);
    LinesBehind(lines, after);
    FirstLine(pad + note, after);
    CommentSaysNothing(pad, note);
    NothingSaid(uri, INITIAL, WordsOf(lines), Words(pad + note), Lines(after));
    assert WordsOf(lines) + ([Words(pad + note)] + Lines(after)) == WordsOf(lines) + [Words(pad + note)] + Lines(after);
  }

  // ---------------------------------------------------------------------------
  // Openings
  // ---------------------------------------------------------------------------

  /** The line ends in an opening brace, on its own or glued to the last word, and is no comment. */
  predicate Opening(l: Line) {
    !SaysNothing(l) && l[|l| - 1] != "" && l[|l| - 1][|l[|l| - 1]| - 1] == '{'
  }

  lemma {:induction false} BracesTakenOut(a: Line, b: Line)
    ensures WithoutBraces(a + b) == WithoutBraces(a) + WithoutBraces(b)
    decreases |a|
  {
    if a == [] {
      assert a + b == b;
    } else {
      assert (a + b)[0] == a[0] && (a + b)[1..] == a[1..] + b;
      BracesTakenOut(a[1..], b);
    }
  }

  /** Outside of a site an opening names one; inside, it pushes a block of the kind that it names, with its other words
      except lone braces as arguments, and with no settings yet. */
  lemma {:induction false} OpeningRule(uri: UriParser, st: PState, l: Line)
    requires Inv(st) && AllTokens(l) && Opening(l)
    ensures st.blocks == [] && st.address.None? ==> Step(uri, st, l) == Ok(st.(address := Some(l[0])))
    ensures st.blocks != [] || st.address.Some? ==>
              var b := PendingBlock(l[0], WithoutBraces(l[1..]), None, None, [], if l[0] == "forward_auth"
                  then Some(ForwardAuthBlock(None, None, None, None, None)) else None);
              Step(uri, st, l) == Ok(st.(blocks := st.blocks + [b], directives := st.directives + [[]]))
  {
    assert OpensBlock(l);
  }

  // ---------------------------------------------------------------------------
  // Closings
  // ---------------------------------------------------------------------------

  function FirstWordOr(args: seq<string>): string { if |args| >= 1 then args[0] else "" }

  /** A closing brace turns the innermost block into its directive at the end of the list around it; further arguments of
      a path or a backend are ignored, and so is a closing brace with nothing open. */
  lemma {:induction false} ClosingRule(uri: UriParser, st: PState, outer: seq<PendingBlock>, b: PendingBlock,
      lists: seq<seq<Directive>>, around: seq<Directive>, inner: seq<Directive>)
    ensures var open := st.(blocks := outer + [b], directives := lists + [around, inner]);
            var closed := (d: Directive) => Ok(st.(blocks := outer, directives := lists + [around + [d]]));
            && (b.kind == "handle_path" ==>
                  Step(uri, open, ["}"]) == closed(HandlePath(FirstWordOr(b.args), inner)))
            && (b.kind == "method" ==> Step(uri, open, ["}"]) == closed(Method(b.args, inner)))
            && (b.kind == "reverse_proxy" ==>
                  Step(uri, open, ["}"]) ==
                  closed(ReverseProxy(FirstWordOr(b.args), b.connectTimeout, b.readTimeout, b.headerUp)))
            && (b.kind == "forward_auth" && b.auth.Some? ==>
                  Step(uri, open, ["}"]) ==
                  if inner != [] then Err(NestedInForwardAuth)
                  else if BuildForwardAuth(uri, b.auth.value).Ok? then closed(BuildForwardAuth(uri, b.auth.value).value)
                  else Err(BuildForwardAuth(uri, b.auth.value).error))
            && (b.kind !in ["handle_path", "method", "reverse_proxy", "forward_auth"] ==>
                  Step(uri, open, ["}"]) == Err(UnknownBlock(b.kind)))
    ensures st.address.None? && |st.directives| == 1 ==> Step(uri, st, ["}"]) == Ok(st)
  {
    var open := st.(blocks := outer + [b], directives := lists + [around, inner]);
    assert open.blocks[..|open.blocks| - 1] == outer && open.blocks[|open.blocks| - 1] == b;
    assert open.directives[..|open.directives| - 1] == lists + [around];
    assert open.directives[|open.directives| - 1] == inner;
    forall d ensures Append(lists + [around], d) == lists + [around + [d]] { }
  }

  /** The closing brace of a site stores it under its address with all that was collected since the last one, unless the
      address is taken. */
  lemma {:induction false} SiteClosingRule(uri: UriParser, sites: Sites, address: string, tls: Option<TlsConfig>,
      ds: seq<Directive>)
    ensures Step(uri, PState(sites, Some(address), tls, [ds], []), ["}"]) ==
            if address in sites then Err(DuplicateSite(address))
            else Ok(PState(sites[address := SiteConfig(address, ds, tls)], None, None, [[]], []))
  {
  }

  /** Words are joined by single blanks. */
  lemma {:induction false} JoinRule(words: Line)
    requires words != []
    ensures Join(words) == Glue(words, " ")
    decreases |words|
  {
    if |words| > 1 { JoinRule(words[1..]); }
  }

  // ---------------------------------------------------------------------------
  // Directives on one line
  // ---------------------------------------------------------------------------

  /** The line with this name and these arguments is one way to write the directive. */
  predicate Writes(name: string, args: seq<string>, d: Directive) {
    match d
    case ReverseProxy(to, connect, read, ups) =>
      name == "reverse_proxy" && [to] <= args && connect.None? && read.None? && ups == []
    case UriReplace(find, replace) => name == "uri_replace" && [find, replace] <= args
    case StripPrefix(prefix) => name == "strip_prefix" && [prefix] <= args
    case Header(field, None) => name == "header" && ["-" + field] <= args && field != ""
    case Header(field, Some(text)) => name == "header" && [field, text] <= args && !("-" <= field)
    case Respond(status, body) =>
      && name == "respond" && args != [] && ParseUnsigned(args[0], 65536) == Some(status)
      && body == if |args| == 1 then "" else args[1]
    case Redirect(status, url) =>
      && name == "redirect"
      && ((args == [url] && status == 301)
          || (|args| >= 2 && ParseUnsigned(args[0], 65536) == Some(status) && url == Join(args[1..])))
    case _ => false
  }

  /** Every accepted line of this kind writes its directive, and every line that writes one is accepted. */
  lemma {:induction false} DirectiveRule(name: string, args: seq<string>, d: Directive)
    ensures SimpleDirective(name, args) == Ok(d) <==> Writes(name, args, d)
  {
    match d
    case ReverseProxy(to, _, _, _) => if [to] <= args { assert [to][0] == args[0]; }
    case UriReplace(find, replace) => if [find, replace] <= args { assert args[0] == find && args[1] == replace; }
    case StripPrefix(prefix) => if [prefix] <= args { assert args[0] == prefix; }
    case Header(field, None) => if ["-" + field] <= args { assert args[0] == "-" + field && args[0][1..] == field; }
        if args != [] && "-" <= args[0] { assert args[0] == "-" + args[0][1..]; }
    case Header(field, Some(text)) => if [field, text] <= args { assert args[0] == field && args[1] == text; }
    case _ =>
  }

  /** A line that is neither skipped nor a brace. */
  predicate Statement(l: Line) { !SaysNothing(l) && !Opening(l) && l != ["}"] && AllTokens(l) }

  lemma {:induction false} StatementStep(uri: UriParser, st: PState, l: Line)
    requires Statement(l)
    ensures Step(uri, st, l) == PlainLine(st, l[0], l[1..])
  {
    assert l[|l| - 1] in l && !OpensBlock(l);
  }

  lemma {:induction false} StatementsKeepSites(uri: UriParser, st: PState, lines: seq<Line>)
    requires forall l :: l in lines ==> Statement(l)
    ensures var run := RunLines(uri, st, lines); run.Ok? ==> run.value.sites == st.sites
    decreases |lines|
  {
    if lines != [] {
      assert lines[0] in lines && forall l :: l in lines[1..] ==> l in lines;
      StatementStep(uri, st, lines[0]);
      var next := Step(uri, st, lines[0]);
      if next.Ok? { StatementsKeepSites(uri, next.value, lines[1..]); }
    }
  }

  /** A site that is opened and not closed again is dropped, with all that stands in it. */
  lemma {:induction false} UnclosedSiteIsDropped(uri: UriParser, st: PState, address: string, lines: seq<Line>)
    requires Inv(st) && st.blocks == [] && st.address.None? && IsToken(address) && address[0] != '#'
    requires forall l :: l in lines ==> Statement(l)
    ensures var run := RunLines(uri, st, [[address, "{"]] + lines); run.Ok? ==> run.value.sites == st.sites
  {
    var open := [address, "{"];
    assert IsToken("{") && Opening(open);
    OpeningRule(uri, st, open);
    OneStep(uri, st, open);
    RunsBefore(uri, st, [open], lines);
    StatementsKeepSites(uri, st.(address := Some(address)), lines);
  }

  /** In a site, or in a block that holds directives, such a line adds the directive that it writes to the innermost list,
      or is refused. */
  lemma {:induction false} DirectiveLineRule(uri: UriParser, st: PState, l: Line, lists: seq<seq<Directive>>,
      inner: seq<Directive>, d: Directive)
    requires Statement(l) && st.directives == lists + [inner] && (l[0] == "tls" ==> st.blocks != [])
    requires st.blocks != [] ==> st.blocks[|st.blocks| - 1].kind !in ["forward_auth", "reverse_proxy"]
    ensures Writes(l[0], l[1..], d) ==> Step(uri, st, l) == Ok(st.(directives := lists + [inner + [d]]))
    ensures (forall other :: !Writes(l[0], l[1..], other)) ==> Step(uri, st, l).Err?
  {
    StatementStep(uri, st, l);
    DirectiveRule(l[0], l[1..], d);
    var parsed := SimpleDirective(l[0], l[1..]);
    if parsed.Ok? { DirectiveRule(l[0], l[1..], parsed.value); }
    assert Append(lists + [inner], d) == lists + [inner + [d]];
  }

  /** A certificate belongs to a site: once, outside of blocks, with two paths; further words are ignored. */
  lemma {:induction false} TlsRule(uri: UriParser, st: PState, cert: string, key: string, more: Line)
    requires Statement(["tls", cert, key] + more)
    ensures st.blocks == [] ==>
              Step(uri, st, ["tls", cert, key] + more) ==
              if st.tls.Some? then Err(DuplicateTls) else Ok(st.(tls := Some(TlsConfig(cert, key))))
    ensures st.blocks != [] && st.blocks[|st.blocks| - 1].kind !in ["forward_auth", "reverse_proxy"] ==>
              Step(uri, st, ["tls", cert, key] + more) == Err(UnknownDirective("tls"))
  {
    var l := ["tls", cert, key] + more;
    StatementStep(uri, st, l);
    assert l[0] == "tls" && l[1..] == [cert, key] + more;
  }

  // ---------------------------------------------------------------------------
  // Values
  // ---------------------------------------------------------------------------

  /** A number of seconds, or a number with one of four units, each product modulo 2^64. */
  ghost predicate Seconds(s: string, v: nat) {
    || ParseUnsigned(s, 18446744073709551616) == Some(v)
    || exists digits, n :: ParseUnsigned(digits, 18446744073709551616) == Some(n)
                           && ((s == digits + "s" && v == n)
                               || (s == digits + "m" && v == (n * 60) % 18446744073709551616)
                               || (s == digits + "h" && v == (n * 3600) % 18446744073709551616)
                               || (s == digits + "d" && v == (n * 86400) % 18446744073709551616))
  }

  lemma {:induction false} UnitIsNoDigit(digits: string, c: char)
    requires c in "smhd"
    ensures ParseUnsigned(digits + [c], U64_LIMIT).None?
  {
    var s := digits + [c];
    assert s[|s| - 1] == c && !IsDigit(c) && c in s;
    assert |s| > 1 ==> c in s[1..];
  }

  lemma {:induction false} SuffixRule(digits: string, c: char, v: nat)
    ensures ParseDuration(digits + [c]) == Some(v) <==>
            || ParseUnsigned(digits + [c], U64_LIMIT) == Some(v)
            || exists n :: ParseUnsigned(digits, U64_LIMIT) == Some(n)
                           && ((c == 's' && v == n) || (c == 'm' && v == (n * 60) % U64_LIMIT)
                               || (c == 'h' && v == (n * 3600) % U64_LIMIT) || (c == 'd' && v == (n * 86400) % U64_LIMIT))
  {
    var s := digits + [c];
    assert s[..|s| - 1] == digits && s[|s| - 1] == c;
    if c in "smhd" { UnitIsNoDigit(digits, c); }
  }

  lemma {:induction false} DurationRule(s: string, v: nat)
    ensures ParseDuration(s) == Some(v) <==> Seconds(s, v)
  {
    if s != "" {
      var digits, c := s[..|s| - 1], s[|s| - 1];
      assert s == digits + [c];
      forall other, unit: char | s == other + [unit] ensures other == digits && unit == c { assert other == s[..|s| - 1]; }
      SuffixRule(digits, c, v);
    }
  }

  /** An endpoint has the scheme http or https and a host; without a path it gets the root. */
  lemma {:induction false} EndpointRule(uri: UriParser, raw: string, e: Uri)
    ensures Endpoint(uri, raw) == Some(e) <==>
            exists path :: uri(raw) == Some(Uri(e.scheme, e.authority, path))
                           && (e.scheme == Some("http") || e.scheme == Some("https")) && e.authority.Some?
                           && e.pathAndQuery == Some(if path.Some? then path.value else "/")
  {
    if Endpoint(uri, raw) == Some(e) { assert uri(raw) == Some(Uri(e.scheme, e.authority, uri(raw).value.pathAndQuery)); }
  }

  lemma {:induction false} NamesRule(names: seq<string>, ns: seq<string>)
    ensures ParseNames(names) == Some(ns) <==>
            |ns| == |names| && forall i :: 0 <= i < |names| ==> HeaderName(names[i]) == Some(ns[i])
    decreases |names|
  {
    if names != [] && ns != [] {
      NamesRule(names[1..], ns[1..]);
      assert ns == [ns[0]] + ns[1..];
      if |ns| == |names| && forall i :: 0 <= i < |names| ==> HeaderName(names[i]) == Some(ns[i]) {
        forall i | 0 <= i < |names[1..]| ensures HeaderName(names[1..][i]) == Some(ns[1..][i]) {
          assert names[1..][i] == names[i + 1] && ns[1..][i] == ns[i + 1];
        }
      }
      if ParseNames(names) == Some(ns) {
        forall i | 0 <= i < |names| ensures HeaderName(names[i]) == Some(ns[i]) {
          if i > 0 { assert names[i] == names[1..][i - 1] && ns[i] == ns[1..][i - 1]; }
        }
      }
    }
  }

  // ---------------------------------------------------------------------------
  // Settings of a forward_auth block
  // ---------------------------------------------------------------------------

  /** The last line with the keyword, without it. */
  function LastWith(lines: seq<Line>, keyword: string): Option<Line> {
    if lines == [] then None
    else
      var last := lines[|lines| - 1];
      if last != [] && last[0] == keyword then Some(last[1..]) else LastWith(lines[..|lines| - 1], keyword)
  }

  predicate AuthLineOk(l: Line) {
    && |l| >= 2
    && (|| l[0] == "to" || l[0] == "request_headers" || l[0] == "response_headers"
        || (l[0] == "failure_mode" && (l[1] == "open" || l[1] == "closed"))
        || (l[0] == "timeout" && ParseDuration(l[1]).Some?))
  }

  function HeadOf(l: Option<Line>): Option<string> { if l.Some? && l.value != [] then Some(l.value[0]) else None }

  /** The last line of each kind decides, and a kind without a line is unset. */
  predicate AuthSays(lines: seq<Line>, b: ForwardAuthBlock) {
    var mode, timeout := HeadOf(LastWith(lines, "failure_mode")), HeadOf(LastWith(lines, "timeout"));
    && b.to == HeadOf(LastWith(lines, "to"))
    && b.requestHeaders == LastWith(lines, "request_headers")
    && b.responseHeaders == LastWith(lines, "response_headers")
    && b.failureMode == (if mode == Some("open") then Some(Open) else if mode == Some("closed") then Some(Closed) else None)
    && b.timeout == if timeout.Some? then ParseDuration(timeout.value) else None
  }

  lemma {:induction false} AuthLineRule(lines: seq<Line>, b: ForwardAuthBlock, l: Line)
    requires AuthSays(lines, b) && l != []
    ensures AuthSetting(b, l[0], l[1..]).Ok? <==> AuthLineOk(l)
    ensures AuthLineOk(l) ==> AuthSays(lines + [l], AuthSetting(b, l[0], l[1..]).value)
  {
    var more := lines + [l];
    assert more[|more| - 1] == l && more[..|more| - 1] == lines;
    if |l| >= 2 { assert l[1..][0] == l[1]; }
  }

  function AuthBlock(args: seq<string>, b: ForwardAuthBlock): PendingBlock {
    PendingBlock("forward_auth", args, None, None, [], Some(b))
  }

  function WithTop(st: PState, outer: seq<PendingBlock>, b: PendingBlock): PState { st.(blocks := outer + [b]) }

  lemma {:induction false} AuthStepRule(uri: UriParser, st: PState, outer: seq<PendingBlock>, args: seq<string>,
      b: ForwardAuthBlock, l: Line)
    requires Statement(l)
    ensures var r := AuthSetting(b, l[0], l[1..]);
            Step(uri, WithTop(st, outer, AuthBlock(args, b)), l) ==
            if r.Ok? then Ok(WithTop(st, outer, AuthBlock(args, r.value))) else Err(r.error)
  {
    var open := WithTop(st, outer, AuthBlock(args, b));
    StatementStep(uri, open, l);
    forall x ensures ReplaceTop(open, x) == WithTop(st, outer, x) {
      assert open.blocks[|open.blocks| - 1 := x] == outer + [x];
    }
  }

  /** The lines of a forward_auth block are accepted exactly when each is a setting with a usable value, and then the last
      one of each kind counts. */
  lemma {:induction false} AuthSettingsRule(uri: UriParser, st: PState, outer: seq<PendingBlock>, args: seq<string>,
      lines: seq<Line>) returns (b: ForwardAuthBlock)
    requires forall l :: l in lines ==> Statement(l)
    ensures var run := RunLines(uri, WithTop(st, outer, AuthBlock(args, NEW_AUTH_BLOCK)), lines);
            && (run.Ok? <==> forall l :: l in lines ==> AuthLineOk(l))
            && (run.Ok? ==> AuthSays(lines, b) && run == Ok(WithTop(st, outer, AuthBlock(args, b))))
    decreases |lines|
  {
    b := NEW_AUTH_BLOCK;
    if lines != [] {
      var front, last := lines[..|lines| - 1], lines[|lines| - 1];
      assert lines == front + [last] && last in lines && forall l :: l in front ==> l in lines;
      var before := AuthSettingsRule(uri, st, outer, args, front);
      RunsBefore(uri, WithTop(st, outer, AuthBlock(args, NEW_AUTH_BLOCK)), front, [last]);
      if forall l :: l in front ==> AuthLineOk(l) {
        AuthLineRule(front, before, last);
        AuthStepRule(uri, st, outer, args, before, last);
        OneStep(uri, WithTop(st, outer, AuthBlock(args, before)), last);
        if AuthLineOk(last) { b := AuthSetting(before, last[0], last[1..]).value; }
      }
    }
  }

  /** When such a block closes, it needs a usable endpoint and header names; what it leaves out has its default. */
  lemma {:induction false} AuthBlockRule(uri: UriParser, b: ForwardAuthBlock, cfg: ForwardAuthConfig)
    ensures BuildForwardAuth(uri, b) == Ok(ForwardAuth(cfg)) <==>
            && b.to.Some? && Endpoint(uri, b.to.value) == Some(cfg.endpoint)
            && (if b.requestHeaders.Some? then ParseNames(b.requestHeaders.value) == Some(cfg.requestHeaders)
                else cfg.requestHeaders == ["authorization", "cookie"])
            && (if b.responseHeaders.Some? then ParseNames(b.responseHeaders.value) == Some(cfg.responseHeaders)
                else cfg.responseHeaders == [])
            && cfg.failureMode == (if b.failureMode.Some? then b.failureMode.value else Closed)
            && cfg.timeoutSecs == (if b.timeout.Some? then b.timeout.value else 5)
  {
  }

  // ---------------------------------------------------------------------------
  // Settings of a reverse_proxy block
  // ---------------------------------------------------------------------------

  /** The words write the header operation: a removal, or a name and a text. */
  predicate WritesUp(args: Line, h: HeaderDirective) {
    if h.value.None? then ["-" + h.name] <= args && h.name != ""
    else |args| >= 2 && args[0] == h.name && !("-" <= h.name) && h.value.value == Join(args[1..])
  }

  lemma {:induction false} HeaderUpRule(args: Line, h: HeaderDirective)
    requires AllTokens(args)
    ensures HeaderUpLine(args) == Ok(h) <==> WritesUp(args, h)
  {
    if args != [] {
      if "-" <= args[0] {
        assert args[0] == "-" + args[0][1..];
      } else if |args| >= 2 {
        assert IsToken(args[1]) && forall t :: t in args[1..] ==> t in args;
        JoinEnds(args[1..]);
      } else {
        assert args[1..] == [];
      }
      if h.value.None? && ["-" + h.name] <= args { assert args[0] == "-" + h.name && args[0][1..] == h.name; }
    }
  }

  ghost predicate ProxyLineOk(l: Line) {
    || (|l| >= 2 && (l[0] == "connect_timeout" || l[0] == "read_timeout") && ParseDuration(l[1]).Some?)
    || (l != [] && l[0] == "header_up" && exists h :: WritesUp(l[1..], h))
  }

  function DurationOf(l: Option<Line>): Option<nat> {
    if l.Some? && l.value != [] then ParseDuration(l.value[0]) else None
  }

  /** The header operations of the lines, in order. */
  ghost predicate UpsOf(lines: seq<Line>, ups: seq<HeaderDirective>)
    decreases |lines|
  {
    if lines == [] then ups == []
    else
      var front, last := lines[..|lines| - 1], lines[|lines| - 1];
      if last != [] && last[0] == "header_up" then
        ups != [] && WritesUp(last[1..], ups[|ups| - 1]) && UpsOf(front, ups[..|ups| - 1])
      else UpsOf(front, ups)
  }

  /** The last line of each timeout decides, and every header operation counts. */
  ghost predicate ProxySays(args: seq<string>, lines: seq<Line>, b: PendingBlock) {
    && b.kind == "reverse_proxy" && b.args == args && b.auth.None?
    && b.connectTimeout == DurationOf(LastWith(lines, "connect_timeout"))
    && b.readTimeout == DurationOf(LastWith(lines, "read_timeout"))
    && UpsOf(lines, b.headerUp)
  }

  lemma {:induction false} ProxyLineRule(args: seq<string>, lines: seq<Line>, b: PendingBlock, l: Line)
    requires ProxySays(args, lines, b) && Statement(l)
    ensures ProxySetting(b, l[0], l[1..]).Ok? <==> ProxyLineOk(l)
    ensures ProxyLineOk(l) ==> ProxySays(args, lines + [l], ProxySetting(b, l[0], l[1..]).value)
  {
    var more := lines + [l];
    assert more[|more| - 1] == l && more[..|more| - 1] == lines;
    assert AllTokens(l[1..]);
    if |l| >= 2 { assert l[1..][0] == l[1]; }
    var h := HeaderUpLine(l[1..]);
    if h.Ok? {
      HeaderUpRule(l[1..], h.value);
      assert (b.headerUp + [h.value])[..|b.headerUp|] == b.headerUp;
    }
    if g :| WritesUp(l[1..], g) { HeaderUpRule(l[1..], g); }
  }

  lemma {:induction false} ProxyStepRule(uri: UriParser, st: PState, outer: seq<PendingBlock>, b: PendingBlock, l: Line)
    requires Statement(l) && b.kind == "reverse_proxy"
    ensures var r := ProxySetting(b, l[0], l[1..]);
            Step(uri, WithTop(st, outer, b), l) == if r.Ok? then Ok(WithTop(st, outer, r.value)) else Err(r.error)
  {
    var open := WithTop(st, outer, b);
    StatementStep(uri, open, l);
    forall x ensures ReplaceTop(open, x) == WithTop(st, outer, x) {
      assert open.blocks[|open.blocks| - 1 := x] == outer + [x];
    }
  }

  /** The lines of a reverse_proxy block are accepted exactly when each is a setting with a usable value. */
  lemma {:induction false} ProxySettingsRule(uri: UriParser, st: PState, outer: seq<PendingBlock>, args: seq<string>,
      lines: seq<Line>) returns (b: PendingBlock)
    requires forall l :: l in lines ==> Statement(l)
    ensures var run := RunLines(uri, WithTop(st, outer, PendingBlock("reverse_proxy", args, None, None, [], None)), lines);
            && (run.Ok? <==> forall l :: l in lines ==> ProxyLineOk(l))
            && (run.Ok? ==> ProxySays(args, lines, b) && run == Ok(WithTop(st, outer, b)))
    decreases |lines|
  {
    var empty := PendingBlock("reverse_proxy", args, None, None, [], None);
    b := empty;
    if lines != [] {
      var front, last := lines[..|lines| - 1], lines[|lines| - 1];
      assert lines == front + [last] && last in lines && forall l :: l in front ==> l in lines;
      var before := ProxySettingsRule(uri, st, outer, args, front);
      RunsBefore(uri, WithTop(st, outer, empty), front, [last]);
      if forall l :: l in front ==> ProxyLineOk(l) {
        ProxyLineRule(args, front, before, last);
        ProxyStepRule(uri, st, outer, before, last);
        OneStep(uri, WithTop(st, outer, before), last);
        if ProxyLineOk(last) { b := ProxySetting(before, last[0], last[1..]).value; }
      }
    }
  }
}
