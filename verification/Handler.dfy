/** The directive interpreter (src/proxy/handler.rs, src/proxy/directives.rs) and its straight-line form. */
module Handler {
  import opened Basics
  import opened Http
  import opened Config
  import opened Paths
  import opened ForwardAuth

  datatype ActionResult =
    | RespondWith(status: nat, body: string)
    | ProxyTo(backendUrl: string, pathToSend: string, connectTimeout: Option<nat>, readTimeout: Option<nat>,
        headerUp: seq<HeaderDirective>)
    | RedirectTo(status: nat, url: string)
    | AuthDenied(status: nat, wwwAuthenticate: Option<string>)

  /** An action, or the path for which no action directive was found. */
  type Answer = Result<ActionResult, string>

  const SERVICE_UNAVAILABLE: ActionResult := AuthDenied(503, None)

  /** Everything a run changes: the request headers, the subrequests sent and the UUIDs drawn. */
  datatype State = State(headers: HeaderMap, calls: seq<AuthCall>, draws: nat)

  // ---------------------------------------------------------------------------
  // Single directives
  // ---------------------------------------------------------------------------

  /** `handle_header`; every error leaves the headers as they were. */
  function SetHeader(o: Oracles, name: string, value: Option<string>, st: State): State {
    var n := HeaderName(name);
    if n.None? then st
    else if value.None? then st.(headers := Remove(st.headers, n.value))
    else
      var text := o.subst(value.value, st.headers, o.uuid(st.draws));
      if text.None? then st
      else if o.validValue(text.value) then State(Insert(st.headers, n.value, text.value), st.calls, st.draws + 1)
      else st.(draws := st.draws + 1)
  }

  method HandleHeader(o: Oracles, name: string, value: Option<string>, req: Request, world: Outside)
    modifies req, world`draws
    ensures State(req.headers, world.calls, world.draws) == SetHeader(o, name, value,
        State(old(req.headers), world.calls, old(world.draws)))
  {
    var n := HeaderName(name);
    if n.None? { return; }
    if value.None? {
      req.headers := Remove(req.headers, n.value);
      return;
    }
    var text := o.subst(value.value, req.headers, o.uuid(world.draws));
    if text.None? { return; }
    world.draws := world.draws + 1;
    if o.validValue(text.value) {
      req.headers := Insert(req.headers, n.value, text.value);
    }
  }

  /** `handle_method`. */
  predicate HandleMethod(methods: seq<string>, verb: string) {
    exists m :: m in methods && Lower(m) == Lower(verb)
  }

  datatype Verdict = Pass | Block(action: ActionResult)

  /** One forward_auth: scrub, ask, then apply the identity, deny, or follow the failure mode. */
  function AuthStep(o: Oracles, ctx: AuthCtx, verb: string, cfg: ForwardAuthConfig, st: State): (r: (State, Verdict))
    ensures |r.0.calls| == |st.calls| + 1 && st.calls <= r.0.calls
  {
    var scrubbed := st.headers - NameSet(cfg.responseHeaders);
    var calls := st.calls + [BuildCall(o, ctx, verb, scrubbed, cfg)];
    match Classify(cfg, o.service(calls))
    case Allowed(identity) => (State(scrubbed + identity, calls, st.draws), Pass)
    case Denied(status, www) => (State(scrubbed, calls, st.draws), Block(AuthDenied(status, www)))
    case Failed(_) => (State(scrubbed, calls, st.draws), if cfg.failureMode.Closed? then Block(SERVICE_UNAVAILABLE)
        else Pass)
  }

  // ---------------------------------------------------------------------------
  // The tree interpreter
  // ---------------------------------------------------------------------------

  /** `process_directives` on the remaining directives of a block entered with path `entry`. */
  function Process(o: Oracles, ctx: AuthCtx, verb: string, ds: seq<Directive>, st: State, path: string,
      entry: string): (State, Answer)
    decreases ds
  {
    if ds == [] then (st, Err(entry))
    else
      var rest := ds[1..];
      match ds[0]
      case Header(name, value) => Process(o, ctx, verb, rest, SetHeader(o, name, value, st), path, entry)
      case UriReplace(find, replace) => Process(o, ctx, verb, rest, st, Replace(path, find, replace), entry)
      case StripPrefix(prefix) => Process(o, ctx, verb, rest, st, StripPrefixFrom(prefix, path), entry)
      case HandlePath(pattern, nested) =>
        var remaining := MatchPattern(pattern, path);
        if remaining.Some? then Process(o, ctx, verb, nested, st, remaining.value, remaining.value)
        else Process(o, ctx, verb, rest, st, path, entry)
      case Method(methods, nested) =>
        if HandleMethod(methods, verb) then Process(o, ctx, verb, nested, st, path, path)
        else Process(o, ctx, verb, rest, st, path, entry)
      case Redirect(status, url) => (st, Ok(RedirectTo(status, url)))
      case Respond(status, body) => (st, Ok(RespondWith(status, body)))
      case ReverseProxy(to, connect, read, headerUp) => (st, Ok(ProxyTo(to, path, connect, read, headerUp)))
      case ForwardAuth(cfg) =>
        var (st', verdict) := AuthStep(o, ctx, verb, cfg, st);
        if verdict.Block? then (st', Ok(verdict.action)) else Process(o, ctx, verb, rest, st', path, entry)
  }

  method RunForwardAuth(o: Oracles, ctx: AuthCtx, cfg: ForwardAuthConfig, req: Request,
      world: Outside) returns (verdict: Verdict)
    modifies req, world`calls
    ensures (State(req.headers, world.calls, world.draws), verdict) ==
            AuthStep(o, ctx, req.verb, cfg, State(old(req.headers), old(world.calls), world.draws))
  {
    ScrubIdentityHeaders(req, cfg);
    var result := ResolveAuth(o, ctx, req, world, cfg);
    match result
    case Allowed(identity) =>
      var order := InSomeOrder(identity.Keys);
      ApplyIdentityHeaders(req, identity, order);
      return Pass;
    case Denied(status, www) =>
      return Block(AuthDenied(status, www));
    case Failed(_) =>
      return if cfg.failureMode.Closed? then Block(SERVICE_UNAVAILABLE) else Pass;
  }

  /** The imperative form: one loop over the directives, changing the request in place. */
  method ProcessDirectives(o: Oracles, ctx: AuthCtx, ds: seq<Directive>, req: Request, world: Outside, path: string)
    returns (answer: Answer)
    modifies req, world
    ensures (State(req.headers, world.calls, world.draws), answer) ==
            Process(o, ctx, req.verb, ds, State(old(req.headers), old(world.calls), old(world.draws)), path, path)
    decreases ds
  {
    ghost var start := State(req.headers, world.calls, world.draws);
    var modified := path;
    for i := 0 to |ds|
      invariant Process(o, ctx, req.verb, ds, start, path, path) ==
                Process(o, ctx, req.verb, ds[i..], State(req.headers, world.calls, world.draws), modified, path)
    {
      assert ds[i..][1..] == ds[i + 1..];
      match ds[i]
      case Header(name, value) =>
        HandleHeader(o, name, value, req, world);
      case UriReplace(find, replace) =>
        modified := Replace(modified, find, replace);
      case StripPrefix(prefix) =>
        modified := StripPrefixFrom(prefix, modified);
      case HandlePath(pattern, nested) =>
        var remaining := MatchPattern(pattern, modified);
        if remaining.Some? {
          answer := ProcessDirectives(o, ctx, nested, req, world, remaining.value);
          return;
        }
      case Method(methods, nested) =>
        if HandleMethod(methods, req.verb) {
          answer := ProcessDirectives(o, ctx, nested, req, world, modified);
          return;
        }
      case Redirect(status, url) =>
        return Ok(RedirectTo(status, url));
      case Respond(status, body) =>
        return Ok(RespondWith(status, body));
      case ReverseProxy(to, connect, read, headerUp) =>
        return Ok(ProxyTo(to, modified, connect, read, headerUp));
      case ForwardAuth(cfg) =>
        var verdict := RunForwardAuth(o, ctx, cfg, req, world);
        if verdict.Block? {
          return Ok(verdict.action);
        }
    }
    answer := Err(path);
  }

  // ---------------------------------------------------------------------------
  // The straight-line form
  // ---------------------------------------------------------------------------

  datatype Op = PutHeader(name: string, value: Option<string>) | Authorize(auth: ForwardAuthConfig)

  /** What is left of a tree once path and method have chosen the way through it. */
  datatype Plan = Plan(moves: seq<Move>, ops: seq<Op>, end: Answer)

  function Moving(m: Move, p: Plan): Plan { p.(moves := [m] + p.moves) }

  function Doing(op: Op, p: Plan): Plan { p.(ops := [op] + p.ops) }

  /** The pure router: it sees neither headers nor auth answers. */
  function Route(ds: seq<Directive>, verb: string, path: string, entry: string): Plan
    decreases ds
  {
    if ds == [] then Plan([], [], Err(entry))
    else
      var rest := ds[1..];
      match ds[0]
      case Header(name, value) => Doing(PutHeader(name, value), Route(rest, verb, path, entry))
      case ForwardAuth(cfg) => Doing(Authorize(cfg), Route(rest, verb, path, entry))
      case UriReplace(find, replace) => Moving(Replaced(find, replace),
          Route(rest, verb, Replace(path, find, replace), entry))
      case StripPrefix(prefix) => Moving(Stripped(prefix), Route(rest, verb, StripPrefixFrom(prefix, path), entry))
      case HandlePath(pattern, nested) =>
        var remaining := MatchPattern(pattern, path);
        if remaining.Some? then Moving(Entered(pattern), Route(nested, verb, remaining.value, remaining.value))
        else Route(rest, verb, path, entry)
      case Method(methods, nested) =>
        if HandleMethod(methods, verb) then Route(nested, verb, path, path) else Route(rest, verb, path, entry)
      case Redirect(status, url) => Plan([], [], Ok(RedirectTo(status, url)))
      case Respond(status, body) => Plan([], [], Ok(RespondWith(status, body)))
      case ReverseProxy(to, connect, read, headerUp) => Plan([], [], Ok(ProxyTo(to, path, connect, read, headerUp)))
  }

  /** The state after one operation, whatever its verdict. */
  function Perform(o: Oracles, ctx: AuthCtx, verb: string, op: Op, st: State): State {
    match op
    case PutHeader(name, value) => SetHeader(o, name, value, st)
    case Authorize(cfg) => AuthStep(o, ctx, verb, cfg, st).0
  }

  function VerdictOf(o: Oracles, ctx: AuthCtx, verb: string, op: Op, st: State): Verdict {
    if op.Authorize? then AuthStep(o, ctx, verb, op.auth, st).1 else Pass
  }

  /** Runs the operations in order until one blocks. */
  function Execute(o: Oracles, ctx: AuthCtx, verb: string, ops: seq<Op>, end: Answer, st: State): (State, Answer) {
    if ops == [] then (st, end)
    else
      var st', verdict := Perform(o, ctx, verb, ops[0], st), VerdictOf(o, ctx, verb, ops[0], st);
      if verdict.Block? then (st', Ok(verdict.action)) else Execute(o, ctx, verb, ops[1..], end, st')
  }

  /** Flattening preserves meaning, for every tree, request and outside world. */
  lemma {:induction false} FlatteningPreservesMeaning(o: Oracles, ctx: AuthCtx, verb: string, ds: seq<Directive>, st: State,
      path: string, entry: string)
    ensures var plan := Route(ds, verb, path, entry);
            Process(o, ctx, verb, ds, st, path, entry) == Execute(o, ctx, verb, plan.ops, plan.end, st)
    decreases ds
  {
    if ds != [] {
      var rest := ds[1..];
      match ds[0]
      case Header(name, value) =>
        var st' := SetHeader(o, name, value, st);
        FlatteningPreservesMeaning(o, ctx, verb, rest, st', path, entry);
        assert Route(ds, verb, path, entry).ops[1..] == Route(rest, verb, path, entry).ops;
      case ForwardAuth(cfg) =>
        var st' := AuthStep(o, ctx, verb, cfg, st).0;
        FlatteningPreservesMeaning(o, ctx, verb, rest, st', path, entry);
        assert Route(ds, verb, path, entry).ops[1..] == Route(rest, verb, path, entry).ops;
      case UriReplace(find, replace) => FlatteningPreservesMeaning(o, ctx, verb, rest, st, Replace(path, find, replace),
          entry);
      case StripPrefix(prefix) => FlatteningPreservesMeaning(o, ctx, verb, rest, st, StripPrefixFrom(prefix, path), entry);
      case HandlePath(pattern, nested) =>
        var remaining := MatchPattern(pattern, path);
        if remaining.Some? {
          FlatteningPreservesMeaning(o, ctx, verb, nested, st, remaining.value, remaining.value);
        } else {
          FlatteningPreservesMeaning(o, ctx, verb, rest, st, path, entry);
        }
      case Method(methods, nested) =>
        if HandleMethod(methods, verb) {
          FlatteningPreservesMeaning(o, ctx, verb, nested, st, path, path);
        } else {
          FlatteningPreservesMeaning(o, ctx, verb, rest, st, path, entry);
        }
      case _ =>
    }
  }
}
