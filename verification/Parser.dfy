/** The configuration parser: a line-driven machine with two stacks (src/config/parser.rs). */
module Parser {
  import opened Basics
  import opened Http
  import opened Config
  import opened Listen
  import opened Text

  datatype ForwardAuthBlock = ForwardAuthBlock(
    to: Option<string>,
    requestHeaders: Option<seq<string>>,
    responseHeaders: Option<seq<string>>,
    failureMode: Option<FailureMode>,
    timeout: Option<nat>)

  const NEW_AUTH_BLOCK := ForwardAuthBlock(None, None, None, None, None)

  datatype PendingBlock = PendingBlock(
    kind: string,
    args: seq<string>,
    connectTimeout: Option<nat>,
    readTimeout: Option<nat>,
    headerUp: seq<HeaderDirective>,
    auth: Option<ForwardAuthBlock>)

  /** `Panic` stands for a failed `expect`, `InternalError` for the "internal error" branches. */
  datatype ParseError =
    | Panic
    | InternalError
    | UnknownBlock(kind: string)
    | NestedInForwardAuth
    | InvalidForwardAuth
    | DuplicateSite(address: string)
    | Missing(directive: string)
    | InvalidValue(directive: string)
    | Unexpected(directive: string)
    | UnknownDirective(directive: string)
    | DuplicateTls
    | InvalidSockets

  /** The five variables of the parsing loop. */
  datatype PState = PState(
    sites: Sites,
    address: Option<string>,
    tls: Option<TlsConfig>,
    directives: seq<seq<Directive>>,
    blocks: seq<PendingBlock>)

  const INITIAL := PState(map[], None, None, [[]], [])

  /** `str::parse::<Uri>` is library code: any partial function. */
  type UriParser = string -> Option<Uri>

  // ---------------------------------------------------------------------------
  // Values
  // ---------------------------------------------------------------------------

  function Scaled(digits: string, multiplier: nat): Option<nat> {
    var n := ParseUnsigned(digits, U64_LIMIT);
    if n.Some? then Some((n.value * multiplier) % U64_LIMIT) else None
  }

  function SuffixMultiplier(c: char): Option<nat> {
    match c
    case 's' => Some(1)
    case 'm' => Some(60)
    case 'h' => Some(3600)
    case 'd' => Some(86400)
    case _ => None
  }

  /** `parse_duration` on a word; the product wraps as unchecked 64-bit arithmetic does. */
  function ParseDuration(s: string): Option<nat> {
    if s == "" then None
    else
      var plain := ParseUnsigned(s, U64_LIMIT);
      if plain.Some? then plain
      else
        var m := SuffixMultiplier(s[|s| - 1]);
        if m.Some? then Scaled(s[..|s| - 1], m.value) else None
  }

  lemma {:induction false} SuffixedDuration(n: nat, c: char)
    requires n < U64_LIMIT && SuffixMultiplier(c).Some?
    ensures ParseDuration(PrintNat(n) + [c]) == Scaled(PrintNat(n), SuffixMultiplier(c).value)
    ensures ParseUnsigned(PrintNat(n), U64_LIMIT) == Some(n)
  {
    var s := PrintNat(n) + [c];
    PrintThenParse(n, U64_LIMIT);
    assert s[..|s| - 1] == PrintNat(n) && s[|s| - 1] == c;
    assert c in s[1..] && c in s && !IsDigit(c);
  }

  lemma WrapsExactly(x: nat)
    ensures x % U64_LIMIT == x <==> x < U64_LIMIT
  {
  }

  lemma {:induction false} ScaledExactly(n: nat, c: char, unit: nat)
    requires n < U64_LIMIT && SuffixMultiplier(c) == Some(unit)
    ensures ParseDuration(PrintNat(n) + [c]) == Some(n * unit) <==> n * unit < U64_LIMIT
  {
    SuffixedDuration(n, c);
    WrapsExactly(n * unit);
  }

  /** A plain number is seconds, and a suffixed one is what it says exactly when the product fits 64 bits. */
  lemma {:induction false} DurationExact(n: nat)
    requires n < U64_LIMIT
    ensures ParseDuration(PrintNat(n)) == Some(n)
    ensures ParseDuration(PrintNat(n) + "s") == Some(n)
    ensures ParseDuration(PrintNat(n) + "m") == Some(n * 60) <==> n * 60 < U64_LIMIT
    ensures ParseDuration(PrintNat(n) + "h") == Some(n * 3600) <==> n * 3600 < U64_LIMIT
    ensures ParseDuration(PrintNat(n) + "d") == Some(n * 86400) <==> n * 86400 < U64_LIMIT
  {
    PrintThenParse(n, U64_LIMIT);
    ScaledExactly(n, 's', 1);
    ScaledExactly(n, 'm', 60);
    ScaledExactly(n, 'h', 3600);
    ScaledExactly(n, 'd', 86400);
  }

  /** `normalize_auth_endpoint` */
  function NormalizeEndpoint(u: Uri): Option<Uri> {
    if u.scheme != Some("http") && u.scheme != Some("https") then None
    else if u.authority.None? then None
    else if u.pathAndQuery.None? then Some(u.(pathAndQuery := Some("/")))
    else Some(u)
  }

  function Endpoint(uri: UriParser, raw: string): Option<Uri> {
    var u := uri(raw);
    if u.Some? then NormalizeEndpoint(u.value) else None
  }

  function ParseNames(names: seq<string>): (r: Option<seq<string>>)
    ensures r.Some? ==> |r.value| == |names| && forall n :: n in r.value ==> ValidName(n)
  {
    if names == [] then Some([])
    else
      var first, rest := HeaderName(names[0]), ParseNames(names[1..]);
      if first.Some? && rest.Some? then Some([first.value] + rest.value) else None
  }

  /** `build_forward_auth` */
  function BuildForwardAuth(uri: UriParser, b: ForwardAuthBlock): Result<Directive, ParseError> {
    if b.to.None? then Err(InvalidForwardAuth)
    else
      var endpoint := Endpoint(uri, b.to.value);
      var request := if b.requestHeaders.Some? then ParseNames(b.requestHeaders.value) else Some(DEFAULT_REQUEST_HEADERS);
      var response := if b.responseHeaders.Some? then ParseNames(b.responseHeaders.value) else Some([]);
      if endpoint.None? || request.None? || response.None? then Err(InvalidForwardAuth)
      else Ok(ForwardAuth(ForwardAuthConfig(
                            endpoint.value, request.value, response.value,
                            if b.failureMode.Some? then b.failureMode.value else Closed,
                            if b.timeout.Some? then b.timeout.value else DEFAULT_AUTH_TIMEOUT)))
  }

  // ---------------------------------------------------------------------------
  // One line
  // ---------------------------------------------------------------------------

  predicate Skipped(ts: seq<string>) {
    ts == [] || (ts[0] != "" && ts[0][0] == '#')
  }

  predicate OpensBlock(ts: seq<string>) {
    ts != [] && Last(ts[|ts| - 1]) == '{'
  }

  function WithoutBraces(ts: seq<string>): (r: seq<string>)
    ensures forall t :: t in r ==> t in ts && t != "{"
  {
    if ts == [] then [] else (if ts[0] == "{" then [] else [ts[0]]) + WithoutBraces(ts[1..])
  }

  function FreshBlock(kind: string, args: seq<string>): PendingBlock {
    PendingBlock(kind, args, None, None, [], if kind == "forward_auth" then Some(NEW_AUTH_BLOCK) else None)
  }

  /** The block that a line opens. */
  function NewBlock(ts: seq<string>): PendingBlock
    requires ts != []
  {
    FreshBlock(ts[0], WithoutBraces(ts[1..]))
  }

  function OpenBrace(st: PState, ts: seq<string>): PState
    requires ts != []
  {
    if |st.directives| == 1 && st.address.None? then st.(address := Some(ts[0]))
    else st.(blocks := st.blocks + [NewBlock(ts)], directives := st.directives + [[]])
  }

  function FirstOr(args: seq<string>, default: string): string {
    if args == [] then default else args[0]
  }

  /** The directive that a closed block becomes. */
  function Finish(uri: UriParser, b: PendingBlock, ds: seq<Directive>): Result<Directive, ParseError> {
    if b.kind == "handle_path" then Ok(HandlePath(FirstOr(b.args, ""), ds))
    else if b.kind == "method" then Ok(Method(b.args, ds))
    else if b.kind == "reverse_proxy" then Ok(ReverseProxy(FirstOr(b.args, ""), b.connectTimeout, b.readTimeout,
        b.headerUp))
    else if b.kind == "forward_auth" then
      if ds != [] then Err(NestedInForwardAuth)
      else if b.auth.None? then Err(InternalError)
      else BuildForwardAuth(uri, b.auth.value)
    else Err(UnknownBlock(b.kind))
  }

  function Append(stack: seq<seq<Directive>>, d: Directive): seq<seq<Directive>>
    requires stack != []
  {
    stack[|stack| - 1 := stack[|stack| - 1] + [d]]
  }

  function CloseBrace(uri: UriParser, st: PState): Result<PState, ParseError> {
    if |st.directives| > 1 then
      if st.blocks == [] then Err(Panic)
      else
        var done := Finish(uri, st.blocks[|st.blocks| - 1], st.directives[|st.directives| - 1]);
        if done.Err? then Err(done.error)
        else Ok(st.(directives := Append(st.directives[..|st.directives| - 1], done.value),
            blocks := st.blocks[..|st.blocks| - 1]))
    else if st.address.None? then Ok(st)
    else if st.directives == [] then Err(Panic)
    else if st.address.value in st.sites then Err(DuplicateSite(st.address.value))
    else Ok(PState(st.sites[st.address.value := SiteConfig(st.address.value, st.directives[0], st.tls)], None, None, [[]],
        st.blocks))
  }

  /** A line inside a forward_auth block. */
  function AuthSetting(b: ForwardAuthBlock, name: string, args: seq<string>): Result<ForwardAuthBlock, ParseError> {
    if name == "to" then
      if args == [] then Err(Missing(name)) else Ok(b.(to := Some(args[0])))
    else if name == "request_headers" then
      if args == [] then Err(Missing(name)) else Ok(b.(requestHeaders := Some(args)))
    else if name == "response_headers" then
      if args == [] then Err(Missing(name)) else Ok(b.(responseHeaders := Some(args)))
    else if name == "failure_mode" then
      if args == [] then Err(Missing(name))
      else if args[0] == "closed" then Ok(b.(failureMode := Some(Closed)))
      else if args[0] == "open" then Ok(b.(failureMode := Some(Open)))
      else Err(InvalidValue(name))
    else if name == "timeout" then
      if args == [] then Err(Missing(name))
      else
        var secs := ParseDuration(args[0]);
        if secs.None? then Err(InvalidValue(name)) else Ok(b.(timeout := secs))
    else Err(Unexpected(name))
  }

  function HeaderUpLine(args: seq<string>): Result<HeaderDirective, ParseError> {
    if args == [] then Err(Missing("header_up"))
    else if "-" <= args[0] then
      if args[0] == "-" then Err(Missing("header_up")) else Ok(HeaderDirective(args[0][1..], None))
    else
      var value := Join(args[1..]);
      if value == "" then Err(Missing("header_up")) else Ok(HeaderDirective(args[0], Some(value)))
  }

  /** A line inside a reverse_proxy block. */
  function ProxySetting(b: PendingBlock, name: string, args: seq<string>): Result<PendingBlock, ParseError> {
    if name == "connect_timeout" then
      if args == [] then Err(Missing(name))
      else var secs := ParseDuration(args[0]); if secs.None? then Err(InvalidValue(name))
          else Ok(b.(connectTimeout := secs))
    else if name == "read_timeout" then
      if args == [] then Err(Missing(name))
      else var secs := ParseDuration(args[0]); if secs.None? then Err(InvalidValue(name)) else Ok(b.(readTimeout := secs))
    else if name == "header_up" then
      var h := HeaderUpLine(args);
      if h.Err? then Err(h.error) else Ok(b.(headerUp := b.headerUp + [h.value]))
    else Err(Unexpected(name))
  }

  /** A directive on a line of its own. */
  function SimpleDirective(name: string, args: seq<string>): Result<Directive, ParseError> {
    if name == "reverse_proxy" then
      if args == [] then Err(Missing(name)) else Ok(ReverseProxy(args[0], None, None, []))
    else if name == "uri_replace" then
      if |args| < 2 then Err(Missing(name)) else Ok(UriReplace(args[0], args[1]))
    else if name == "header" then
      if args == [] then Err(Missing(name))
      else if "-" <= args[0] then
        if args[0] == "-" then Err(Missing(name)) else Ok(Header(args[0][1..], None))
      else if |args| < 2 then Err(Missing(name))
      else Ok(Header(args[0], Some(args[1])))
    else if name == "respond" then
      var status := if args == [] then None else ParseUnsigned(args[0], U16_LIMIT);
      if status.None? then Err(InvalidValue(name)) else Ok(Respond(status.value, if |args| > 1 then args[1] else ""))
    else if name == "strip_prefix" then
      if args == [] then Err(Missing(name)) else Ok(StripPrefix(args[0]))
    else if name == "redirect" then
      if |args| >= 2 then
        var status := ParseUnsigned(args[0], U16_LIMIT);
        if status.None? then Err(InvalidValue(name)) else Ok(Redirect(status.value, Join(args[1..])))
      else if args == [] then Err(Missing(name))
      else Ok(Redirect(301, args[0]))
    else Err(UnknownDirective(name))
  }

  function TlsLine(st: PState, args: seq<string>): Result<PState, ParseError> {
    if |args| < 2 then Err(Missing("tls"))
    else if st.tls.Some? then Err(DuplicateTls)
    else Ok(st.(tls := Some(TlsConfig(args[0], args[1]))))
  }

  function ReplaceTop(st: PState, b: PendingBlock): PState
    requires st.blocks != []
  {
    st.(blocks := st.blocks[|st.blocks| - 1 := b])
  }

  function PlainLine(st: PState, name: string, args: seq<string>): Result<PState, ParseError> {
    if st.blocks != [] && st.blocks[|st.blocks| - 1].kind == "forward_auth" then
      var top := st.blocks[|st.blocks| - 1];
      if top.auth.None? then Err(InternalError)
      else
        var auth := AuthSetting(top.auth.value, name, args);
        if auth.Err? then Err(auth.error) else Ok(ReplaceTop(st, top.(auth := Some(auth.value))))
    else if st.blocks != [] && st.blocks[|st.blocks| - 1].kind == "reverse_proxy" then
      var b := ProxySetting(st.blocks[|st.blocks| - 1], name, args);
      if b.Err? then Err(b.error) else Ok(ReplaceTop(st, b.value))
    else if name == "tls" && st.blocks == [] then TlsLine(st, args)
    else
      var d := SimpleDirective(name, args);
      if d.Err? then Err(d.error)
      else if st.directives == [] then Err(Panic)
      else Ok(st.(directives := Append(st.directives, d.value)))
  }

  /** One iteration of the loop in `from_str`, on the words of a line. */
  function Step(uri: UriParser, st: PState, ts: seq<string>): Result<PState, ParseError> {
    if Skipped(ts) then Ok(st)
    else if OpensBlock(ts) then Ok(OpenBrace(st, ts))
    else if ts == ["}"] then CloseBrace(uri, st)
    else PlainLine(st, ts[0], ts[1..])
  }

  function RunLines(uri: UriParser, st: PState, lines: seq<seq<string>>): Result<PState, ParseError>
    decreases |lines|
  {
    if lines == [] then Ok(st)
    else
      var next := Step(uri, st, lines[0]);
      if next.Err? then next else RunLines(uri, next.value, lines[1..])
  }

  /** The whole of `from_str`. */
  ghost function ParseText(parse: SocketParser, uri: UriParser, content: string): Result<Sites, ParseError> {
    var end := RunLines(uri, INITIAL, Lines(content));
    if end.Err? then Err(end.error)
    else if SocketsOk(parse, end.value.sites) then Ok(end.value.sites)
    else Err(InvalidSockets)
  }

  // ---------------------------------------------------------------------------
  // Stack safety
  // ---------------------------------------------------------------------------

  /** What holds of the parser's variables at every line of every text. */
  ghost predicate Inv(st: PState) {
    && |st.directives| == |st.blocks| + 1
    && (st.blocks != [] ==> st.address.Some?)
    && (forall b :: b in st.blocks ==> (b.auth.Some? <==> b.kind == "forward_auth"))
    && (forall a :: a in st.sites ==> st.sites[a].address == a)
  }

  predicate IsBug(e: ParseError) { e.Panic? || e.InternalError? }

  lemma {:induction false} ReplaceTopKeeps(st: PState, b: PendingBlock)
    requires Inv(st) && st.blocks != [] && (b.auth.Some? <==> b.kind == "forward_auth")
    ensures Inv(ReplaceTop(st, b))
  {
    var blocks := st.blocks[|st.blocks| - 1 := b];
    forall x | x in blocks ensures x.auth.Some? <==> x.kind == "forward_auth" {
      var i :| 0 <= i < |blocks| && blocks[i] == x;
      assert i < |blocks| - 1 ==> st.blocks[i] in st.blocks;
    }
  }

  lemma {:induction false} PlainLineKeeps(st: PState, name: string, args: seq<string>)
    requires Inv(st)
    ensures var r := PlainLine(st, name, args); if r.Ok? then Inv(r.value) else !IsBug(r.error)
  {
    var r := PlainLine(st, name, args);
    if st.blocks != [] {
      var top := st.blocks[|st.blocks| - 1];
      assert top in st.blocks;
      if r.Ok? {
        if top.kind == "forward_auth" {
          ReplaceTopKeeps(st, top.(auth := Some(AuthSetting(top.auth.value, name, args).value)));
        } else if top.kind == "reverse_proxy" {
          ReplaceTopKeeps(st, ProxySetting(top, name, args).value);
        }
      }
    }
  }

  lemma OpenBraceKeeps(st: PState, ts: seq<string>)
    requires Inv(st) && ts != []
    ensures Inv(OpenBrace(st, ts))
  {
  }

  lemma {:induction false} CloseBraceKeeps(uri: UriParser, st: PState)
    requires Inv(st)
    ensures var r := CloseBrace(uri, st); if r.Ok? then Inv(r.value) else !IsBug(r.error)
  {
    if st.blocks != [] {
      assert st.blocks[|st.blocks| - 1] in st.blocks;
      assert forall b :: b in st.blocks[..|st.blocks| - 1] ==> b in st.blocks;
    }
  }

  lemma {:induction false} StepIsSafe(uri: UriParser, st: PState, ts: seq<string>)
    requires Inv(st)
    ensures var r := Step(uri, st, ts); if r.Ok? then Inv(r.value) else !IsBug(r.error)
  {
    if !Skipped(ts) {
      if OpensBlock(ts) { OpenBraceKeeps(st, ts); }
      else if ts == ["}"] { CloseBraceKeeps(uri, st); }
      else { PlainLineKeeps(st, ts[0], ts[1..]); }
    }
  }

  /** On every text the invariant holds at every line, so no `expect` fails and no "internal error" is reported. */
  lemma {:induction false} ParserIsSafe(uri: UriParser, st: PState, lines: seq<seq<string>>)
    requires Inv(st)
    ensures var r := RunLines(uri, st, lines); if r.Ok? then Inv(r.value) else !IsBug(r.error)
    decreases |lines|
  {
    if lines != [] {
      StepIsSafe(uri, st, lines[0]);
      var next := Step(uri, st, lines[0]);
      if next.Ok? { ParserIsSafe(uri, next.value, lines[1..]); }
    }
  }
}
