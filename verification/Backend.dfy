/** The request that leaves for a backend: default headers, then `header_up` (src/proxy/handler.rs, src/proxy/directives.rs). */
module Backend {
  import opened Basics
  import opened Http
  import opened Config
  import opened ForwardAuth
  import opened Handler
  import opened AuthSafety

  /** What `header_up` placeholders can name besides headers, environment and UUID. */
  datatype Upstream = Upstream(host: string, requestUri: string, remoteIp: string)

  /** Substitution for `header_up` values; it fails on an unclosed placeholder. */
  datatype UpOracles = UpOracles(
    subst: (string, HeaderMap, string, Upstream) -> Option<string>,
    uuid: nat -> string,
    validValue: string -> bool)

  datatype Outgoing = Outgoing(headers: HeaderMap, draws: nat)

  // ---------------------------------------------------------------------------
  // Default headers
  // ---------------------------------------------------------------------------

  function DefaultHeaders(o: UpOracles, h: HeaderMap, authority: Option<string>, peerIp: string, isTls: bool): HeaderMap {
    var h1 := PutOption(Remove(h, HOST), HOST, OnlyIf(o.validValue, authority));
    var h2 := PutOption(h1, X_FORWARDED_HOST, Get(h, HOST));
    var h3 := Insert(h2, X_FORWARDED_PROTO, Scheme(isTls));
    var h4 := PutOption(h3, X_FORWARDED_FOR, OnlyIf(o.validValue, Some(peerIp)));
    Remove(Remove(h4, CONNECTION), ACCEPT_ENCODING)
  }

  predicate Defaulted(n: string) {
    n in ["host", "x-forwarded-host", "x-forwarded-proto", "x-forwarded-for", "connection", "accept-encoding"]
  }

  lemma {:induction false} DefaultNamesDistinct()
    ensures HOST != X_FORWARDED_HOST && HOST != X_FORWARDED_PROTO
    ensures HOST != X_FORWARDED_FOR && HOST != CONNECTION && HOST != ACCEPT_ENCODING
    ensures X_FORWARDED_HOST != X_FORWARDED_PROTO && X_FORWARDED_HOST != X_FORWARDED_FOR && X_FORWARDED_HOST != CONNECTION
    ensures X_FORWARDED_HOST != ACCEPT_ENCODING && X_FORWARDED_PROTO != X_FORWARDED_FOR && X_FORWARDED_PROTO != CONNECTION
    ensures X_FORWARDED_PROTO != ACCEPT_ENCODING && X_FORWARDED_FOR != CONNECTION && X_FORWARDED_FOR != ACCEPT_ENCODING
    ensures CONNECTION != ACCEPT_ENCODING
  {
    assert X_FORWARDED_FOR[0] != ACCEPT_ENCODING[0];
  }

  /** The defaulting stage, name by name: Host names the backend or nothing, the client's Host moves to
      X-Forwarded-Host, Connection and Accept-Encoding are gone, and every other header is untouched. */
  lemma {:induction false} DefaultStage(o: UpOracles, h: HeaderMap, authority: Option<string>, peerIp: string, isTls: bool,
      n: string)
    ensures var out := DefaultHeaders(o, h, authority, peerIp, isTls);
            && AllValues(out, "host") == Sole(OnlyIf(o.validValue, authority))
            && AllValues(out, "x-forwarded-host") ==
               (if Get(h, "host").Some? then Sole(Get(h, "host")) else AllValues(h, "x-forwarded-host"))
            && AllValues(out, "x-forwarded-proto") == Some([if isTls then "https" else "http"])
            && AllValues(out, "x-forwarded-for") ==
               (if o.validValue(peerIp) then Some([peerIp]) else AllValues(h, "x-forwarded-for"))
            && "connection" !in out && "accept-encoding" !in out
            && (!Defaulted(n) ==> AllValues(out, n) == AllValues(h, n))
  {
    DefaultNamesDistinct();
  }

  // ---------------------------------------------------------------------------
  // header_up
  // ---------------------------------------------------------------------------

  function UpStep(o: UpOracles, up: Upstream, d: HeaderDirective, out: Outgoing): Outgoing {
    var n := HeaderName(d.name);
    if n.None? then out
    else if d.value.None? then out.(headers := Remove(out.headers, n.value))
    else
      var text := o.subst(d.value.value, out.headers, o.uuid(out.draws), up);
      if text.None? then out
      else if o.validValue(text.value) then Outgoing(Insert(out.headers, n.value, text.value), out.draws + 1)
      else out.(draws := out.draws + 1)
  }

  /** The request after the first `k` directives. */
  function UpState(o: UpOracles, up: Upstream, ds: seq<HeaderDirective>, out: Outgoing, k: nat): Outgoing
    requires k <= |ds|
  {
    if k == 0 then out else UpStep(o, up, ds[k - 1], UpState(o, up, ds, out, k - 1))
  }

  /** `apply_header_up`. */
  method ApplyHeaderUp(o: UpOracles, up: Upstream, ds: seq<HeaderDirective>, req: Request, world: Outside)
    modifies req, world`draws
    ensures Outgoing(req.headers, world.draws) == UpState(o, up, ds, Outgoing(old(req.headers), old(world.draws)), |ds|)
  {
    for i := 0 to |ds|
      invariant Outgoing(req.headers, world.draws) == UpState(o, up, ds, Outgoing(old(req.headers), old(world.draws)), i)
    {
      var n := HeaderName(ds[i].name);
      if n.Some? {
        if ds[i].value.None? {
          req.headers := Remove(req.headers, n.value);
        } else {
          var text := o.subst(ds[i].value.value, req.headers, o.uuid(world.draws), up);
          if text.Some? {
            world.draws := world.draws + 1;
            if o.validValue(text.value) {
              req.headers := Insert(req.headers, n.value, text.value);
            }
          }
        }
      }
    }
  }

  /** What directive `k` does to name `n` in the state left by the earlier ones, if it does anything. */
  function UpEffect(o: UpOracles, up: Upstream, ds: seq<HeaderDirective>, out: Outgoing, k: nat,
      n: string): Option<Option<string>>
    requires k < |ds|
  {
    var before := UpState(o, up, ds, out, k);
    if HeaderName(ds[k].name) != Some(n) then None
    else if ds[k].value.None? then Some(None)
    else
      var text := o.subst(ds[k].value.value, before.headers, o.uuid(before.draws), up);
      if text.Some? && o.validValue(text.value) then Some(text) else None
  }

  /** The last directive that does something to a name decides it; with none, the name is as it was. */
  lemma {:induction false} LastHeaderUpWins(o: UpOracles, up: Upstream, ds: seq<HeaderDirective>, out: Outgoing, end: nat,
      n: string) returns (last: int)
    requires end <= |ds|
    ensures -1 <= last < end
    ensures forall k :: last < k < end ==> UpEffect(o, up, ds, out, k, n).None?
    ensures last >= 0 ==> var effect := UpEffect(o, up, ds, out, last, n);
                          effect.Some? && AllValues(UpState(o, up, ds, out, end).headers, n) ==
                                          if effect.value.Some? then Some([effect.value.value]) else None
    ensures last < 0 ==> AllValues(UpState(o, up, ds, out, end).headers, n) == AllValues(out.headers, n)
    decreases end
  {
    if end == 0 {
      last := -1;
    } else if UpEffect(o, up, ds, out, end - 1, n).Some? {
      last := end - 1;
    } else {
      last := LastHeaderUpWins(o, up, ds, out, end - 1, n);
    }
  }

  // ---------------------------------------------------------------------------
  // The whole stage
  // ---------------------------------------------------------------------------

  function ToBackend(o: UpOracles, up: Upstream, ds: seq<HeaderDirective>, h: HeaderMap, draws: nat,
                     authority: Option<string>, peerIp: string, isTls: bool): Outgoing
  {
    UpState(o, up, ds, Outgoing(DefaultHeaders(o, h, authority, peerIp, isTls), draws), |ds|)
  }

  /** The reverse-proxy rewriting stage of `proxy`, step by step on the request. */
  method PrepareForBackend(o: UpOracles, up: Upstream, ds: seq<HeaderDirective>, req: Request, world: Outside,
                           authority: Option<string>, peerIp: string, isTls: bool)
    modifies req, world`draws
    ensures Outgoing(req.headers, world.draws) == ToBackend(o, up, ds, old(req.headers), old(world.draws), authority,
        peerIp, isTls)
  {
    var originalHost := Get(req.headers, HOST);
    req.headers := Remove(req.headers, HOST);
    if authority.Some? && o.validValue(authority.value) {
      req.headers := Insert(req.headers, HOST, authority.value);
    }
    if originalHost.Some? {
      req.headers := Insert(req.headers, X_FORWARDED_HOST, originalHost.value);
    }
    req.headers := Insert(req.headers, X_FORWARDED_PROTO, if isTls then "https" else "http");
    if o.validValue(peerIp) {
      req.headers := Insert(req.headers, X_FORWARDED_FOR, peerIp);
    }
    req.headers := Remove(req.headers, CONNECTION);
    req.headers := Remove(req.headers, ACCEPT_ENCODING);
    ApplyHeaderUp(o, up, ds, req, world);
  }

  /** Hop-by-hop headers reach the backend only if a `header_up` directive puts them there; a name that no
      `header_up` directive mentions has its default-stage value. */
  lemma {:induction false} BackendHeaders(o: UpOracles, up: Upstream, ds: seq<HeaderDirective>, h: HeaderMap, draws: nat,
                       authority: Option<string>, peerIp: string, isTls: bool, n: string)
    ensures var out := ToBackend(o, up, ds, h, draws, authority, peerIp, isTls).headers;
            && (n in out && (n == "connection" || n == "accept-encoding") ==>
                  exists d :: d in ds && HeaderName(d.name) == Some(n) && d.value.Some?)
            && ((forall d :: d in ds ==> HeaderName(d.name) != Some(n)) ==>
                  AllValues(out, n) == AllValues(DefaultHeaders(o, h, authority, peerIp, isTls), n))
  {
    var start := Outgoing(DefaultHeaders(o, h, authority, peerIp, isTls), draws);
    DefaultStage(o, h, authority, peerIp, isTls, n);
    var last := LastHeaderUpWins(o, up, ds, start, |ds|, n);
    if last >= 0 { assert ds[last] in ds; }
  }

  /** The operation can change what is under the name. */
  predicate Mentions(op: Op, n: string) {
    match op
    case PutHeader(name, _) => HeaderName(name) == Some(n)
    case Authorize(cfg) => n in cfg.responseHeaders
  }

  lemma {:induction false} UnmentionedStep(o: Oracles, ctx: AuthCtx, verb: string, op: Op, st: State, n: string)
    requires !Mentions(op, n)
    ensures AllValues(Perform(o, ctx, verb, op, st).headers, n) == AllValues(st.headers, n)
  {
    if op.Authorize? { ClassifyExact(op.auth, o.service(Perform(o, ctx, verb, op, st).calls)); }
  }

  lemma {:induction false} UnmentionedStays(o: Oracles, ctx: AuthCtx, verb: string, ops: seq<Op>, st: State, i: nat, k: nat,
      n: string)
    requires i <= k <= |ops| && forall j :: i <= j < k ==> !Mentions(ops[j], n)
    ensures AllValues(StateAt(o, ctx, verb, ops, st, k).headers, n) == AllValues(StateAt(o, ctx, verb, ops, st, i).headers, n)
    decreases k
  {
    if i < k {
      UnmentionedStays(o, ctx, verb, ops, st, i, k - 1, n);
      StateAtStep(o, ctx, verb, ops, st, k - 1);
      UnmentionedStep(o, ctx, verb, ops[k - 1], StateAt(o, ctx, verb, ops, st, k - 1), n);
    }
  }

  /** After a forward_auth, a listed name holds the one value that the approving response said, or none, until something
      mentions it again. */
  lemma {:induction false} IdentityAtEnd(o: Oracles, ctx: AuthCtx, verb: string, ops: seq<Op>, st: State, i: nat, n: string)
    requires i < |ops| && ops[i].Authorize? && n in ops[i].auth.responseHeaders
    requires forall j :: i < j < |ops| ==> !Mentions(ops[j], n)
    ensures var out := OutcomeAt(o, ctx, verb, ops, st, i);
            AllValues(StateAt(o, ctx, verb, ops, st, |ops|).headers, n) ==
            if Approves(out) then Sole(Get(out.headers, n)) else None
  {
    ClassifyExact(ops[i].auth, OutcomeAt(o, ctx, verb, ops, st, i));
    StateAtStep(o, ctx, verb, ops, st, i);
    UnmentionedStays(o, ctx, verb, ops, st, i + 1, |ops|, n);
  }

  /** From the auth service to the backend: when a run proxies, an identity name that nothing later mentions and that
      the proxy does not set itself arrives with exactly the one value that the approving response said, or not at all. */
  lemma {:induction false} IdentityReachesBackend(o: Oracles, ctx: AuthCtx, verb: string, ds: seq<Directive>, st: State,
      path: string, i: nat, n: string,
                               uo: UpOracles, up: Upstream, authority: Option<string>)
    requires var ops := Route(ds, verb, path, path).ops;
             && i < |ops| && ops[i].Authorize? && n in ops[i].auth.responseHeaders
             && forall j :: i < j < |ops| ==> !Mentions(ops[j], n)
    requires var answer := Process(o, ctx, verb, ds, st, path, path).1;
             answer.Ok? && answer.value.ProxyTo? && forall d :: d in answer.value.headerUp ==> HeaderName(d.name) != Some(n)
    requires !Defaulted(n)
    ensures var out := OutcomeAt(o, ctx, verb, Route(ds, verb, path, path).ops, st, i);
            var (st', answer) := Process(o, ctx, verb, ds, st, path, path);
            AllValues(ToBackend(uo, up, answer.value.headerUp, st'.headers, st'.draws, authority, ctx.remoteIp,
                ctx.isTls).headers, n) ==
            if Approves(out) then Sole(Get(out.headers, n)) else None
  {
    var k := AuthGate(o, ctx, verb, ds, st, path, path);
    IdentityAtEnd(o, ctx, verb, Route(ds, verb, path, path).ops, st, i, n);
    var (st', answer) := Process(o, ctx, verb, ds, st, path, path);
    BackendHeaders(uo, up, answer.value.headerUp, st'.headers, st'.draws, authority, ctx.remoteIp, ctx.isTls, n);
    DefaultStage(uo, st'.headers, authority, ctx.remoteIp, ctx.isTls, n);
  }
}
