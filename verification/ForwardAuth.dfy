/** The forward-auth subrequest and its outcome (src/proxy/forward_auth.rs). */
module ForwardAuth {
  import opened Basics
  import opened Http
  import opened Config

  datatype AuthCtx = AuthCtx(originalUri: string, remoteIp: string, isTls: bool)

  /** A body frame as the client library delivers it: data, or a broken stream. */
  datatype Frame = Data | Broken(error: string)

  /** What the outside world answers to one subrequest within its timeout. */
  datatype ServiceOutcome =
    | Response(status: nat, headers: HeaderMap, frames: seq<Frame>)
    | ClientError(isConnect: bool, message: string)
    | Elapsed

  /** The GET subrequest; it never has a body. */
  datatype AuthCall = AuthCall(endpoint: Uri, headers: HeaderMap, timeoutSecs: nat)

  datatype AuthFailure = Connect(message: string) | Timeout | ServerError(status: nat) | Malformed(message: string)

  datatype AuthResult =
    | Allowed(identity: HeaderMap)
    | Denied(status: nat, wwwAuthenticate: Option<string>)
    | Failed(reason: AuthFailure)

  /** The parts of the outside world a request can observe, as arbitrary functions. `service` sees every
      subrequest of the request so far, so it may be stateful. `subst` is placeholder substitution of a
      template over the current headers with a fresh UUID; it fails on an unclosed placeholder. */
  datatype Oracles = Oracles(
    service: seq<AuthCall> -> ServiceOutcome,
    uuid: nat -> string,
    subst: (string, HeaderMap, string) -> Option<string>,
    validValue: string -> bool)

  predicate IsSuccess(status: nat) { 200 <= status < 300 }

  predicate IsClientError(status: nat) { 400 <= status < 500 }

  // ---------------------------------------------------------------------------
  // Identity headers
  // ---------------------------------------------------------------------------

  function NameSet(names: seq<string>): set<string> {
    set n | n in names
  }

  /** `scrub_identity_headers`: afterwards no configured name is left and every other header is untouched. */
  method ScrubIdentityHeaders(req: Request, cfg: ForwardAuthConfig)
    modifies req
    ensures req.headers == old(req.headers) - NameSet(cfg.responseHeaders)
  {
    var names := cfg.responseHeaders;
    for i := 0 to |names|
      invariant req.headers == old(req.headers) - NameSet(names[..i])
    {
      assert NameSet(names[..i + 1]) == NameSet(names[..i]) + {names[i]};
      req.headers := Remove(req.headers, names[i]);
    }
    assert names[..|names|] == names;
  }

  /** What is left under a name after iterating over a multimap and inserting pair by pair: its last value. */
  function Overwrite(h: HeaderMap, n: string, values: seq<string>): HeaderMap {
    if values == [] then h else h[n := [values[|values| - 1]]]
  }

  function OverwriteAll(h: HeaderMap, identity: HeaderMap, order: seq<string>): HeaderMap
    requires forall n :: n in order ==> n in identity
  {
    if order == [] then h
    else
      var n := order[|order| - 1];
      Overwrite(OverwriteAll(h, identity, order[..|order| - 1]), n, identity[n])
  }

  method InsertEach(req: Request, n: string, values: seq<string>)
    modifies req
    ensures req.headers == Overwrite(old(req.headers), n, values)
  {
    for k := 0 to |values|
      invariant req.headers == Overwrite(old(req.headers), n, values[..k])
    {
      req.headers := Insert(req.headers, n, values[k]);
    }
    assert values[..|values|] == values;
  }

  predicate Singletons(h: HeaderMap) {
    forall n :: n in h ==> |h[n]| == 1
  }

  lemma OneMore(h: HeaderMap, identity: HeaderMap, rest: seq<string>, n: string)
    requires n in identity && forall m :: m in rest ==> m in identity
    ensures (h + (map m | m in rest :: identity[m]))[n := identity[n]] == h + (map m | m in rest + [n] :: identity[m])
  {
  }

  lemma {:induction false} ApplyingIsOrderFree(h: HeaderMap, identity: HeaderMap, order: seq<string>)
    requires Singletons(identity)
    requires forall n :: n in order ==> n in identity
    ensures OverwriteAll(h, identity, order) == h + (map n | n in order :: identity[n])
  {
    if order != [] {
      var rest, n := order[..|order| - 1], order[|order| - 1];
      ApplyingIsOrderFree(h, identity, rest);
      assert order == rest + [n];
      assert [identity[n][0]] == identity[n];
      OneMore(h, identity, rest, n);
    }
  }

  /** Under each name of the identity its last value alone is left, and no other name changes. */
  lemma {:induction false} OverwrittenExactly(h: HeaderMap, identity: HeaderMap, order: seq<string>, n: string)
    requires forall m :: m in order ==> m in identity
    ensures AllValues(OverwriteAll(h, identity, order), n) ==
            if n in order && identity[n] != [] then Some([identity[n][|identity[n]| - 1]]) else AllValues(h, n)
  {
    if order != [] {
      var front, last := order[..|order| - 1], order[|order| - 1];
      assert order == front + [last];
      OverwrittenExactly(h, identity, front, n);
    }
  }

  /** `apply_identity_headers`, for any iteration order of the map. */
  method ApplyIdentityHeaders(req: Request, identity: HeaderMap, order: seq<string>)
    requires Enumerates(order, identity.Keys)
    modifies req
    ensures req.headers == OverwriteAll(old(req.headers), identity, order)
    ensures Singletons(identity) ==> req.headers == old(req.headers) + identity
  {
    for i := 0 to |order|
      invariant req.headers == OverwriteAll(old(req.headers), identity, order[..i])
    {
      assert order[..i + 1][..i] == order[..i];
      InsertEach(req, order[i], identity[order[i]]);
    }
    assert order[..|order|] == order;
    if Singletons(identity) {
      ApplyingIsOrderFree(old(req.headers), identity, order);
      assert (map n | n in order :: identity[n]) == identity;
    }
  }

  // ---------------------------------------------------------------------------
  // Building the subrequest
  // ---------------------------------------------------------------------------

  /** The first client value of each listed name that the client sent. */
  function CopyListed(names: seq<string>, h: HeaderMap): HeaderMap {
    map n | n in names && Get(h, n).Some? :: [Get(h, n).value]
  }

  function PutOption(h: HeaderMap, name: string, value: Option<string>): HeaderMap {
    if value.Some? then Insert(h, name, value.value) else h
  }

  function Scheme(isTls: bool): string { if isTls then "https" else "http" }

  function AuthHeaders(o: Oracles, ctx: AuthCtx, verb: string, h: HeaderMap, cfg: ForwardAuthConfig): HeaderMap {
    var h0 := CopyListed(cfg.requestHeaders, h);
    var h1 := PutOption(h0, HOST, OnlyIf(o.validValue, cfg.endpoint.authority));
    var h2 := PutOption(h1, X_ORIGINAL_URI, OnlyIf(o.validValue, Some(ctx.originalUri)));
    var h3 := PutOption(h2, X_ORIGINAL_METHOD, OnlyIf(o.validValue, Some(verb)));
    var h4 := PutOption(h3, X_FORWARDED_FOR, OnlyIf(o.validValue, Some(ctx.remoteIp)));
    var h5 := PutOption(h4, X_FORWARDED_HOST, Get(h, HOST));
    var h6 := PutOption(h5, X_FORWARDED_PROTO, OnlyIf(o.validValue, Some(Scheme(ctx.isTls))));
    PutOption(h6, X_REQUEST_ID, Get(h, X_REQUEST_ID))
  }

  function BuildCall(o: Oracles, ctx: AuthCtx, verb: string, h: HeaderMap, cfg: ForwardAuthConfig): AuthCall {
    AuthCall(cfg.endpoint, AuthHeaders(o, ctx, verb, h, cfg), cfg.timeoutSecs)
  }

  /** `build_auth_request`. */
  method BuildAuthRequest(o: Oracles, ctx: AuthCtx, req: Request, cfg: ForwardAuthConfig) returns (call: AuthCall)
    ensures call == BuildCall(o, ctx, req.verb, req.headers, cfg)
  {
    var headers: HeaderMap := map[];
    var names := cfg.requestHeaders;
    for i := 0 to |names|
      invariant headers == CopyListed(names[..i], req.headers)
    {
      var value := Get(req.headers, names[i]);
      assert names[..i + 1] == names[..i] + [names[i]];
      if value.Some? {
        headers := Insert(headers, names[i], value.value);
      }
    }
    assert names[..|names|] == names;
    headers := PutOption(headers, HOST, OnlyIf(o.validValue, cfg.endpoint.authority));
    headers := PutOption(headers, X_ORIGINAL_URI, OnlyIf(o.validValue, Some(ctx.originalUri)));
    headers := PutOption(headers, X_ORIGINAL_METHOD, OnlyIf(o.validValue, Some(req.verb)));
    headers := PutOption(headers, X_FORWARDED_FOR, OnlyIf(o.validValue, Some(ctx.remoteIp)));
    headers := PutOption(headers, X_FORWARDED_HOST, Get(req.headers, HOST));
    headers := PutOption(headers, X_FORWARDED_PROTO, OnlyIf(o.validValue, Some(Scheme(ctx.isTls))));
    headers := PutOption(headers, X_REQUEST_ID, Get(req.headers, X_REQUEST_ID));
    call := AuthCall(cfg.endpoint, headers, cfg.timeoutSecs);
  }

  /** What the proxy itself says under a system name, when it has something valid to say. */
  function SystemValue(o: Oracles, ctx: AuthCtx, verb: string, h: HeaderMap, cfg: ForwardAuthConfig,
      n: string): Option<string> {
    if n == "host" then OnlyIf(o.validValue, cfg.endpoint.authority)
    else if n == "x-original-uri" then OnlyIf(o.validValue, Some(ctx.originalUri))
    else if n == "x-original-method" then OnlyIf(o.validValue, Some(verb))
    else if n == "x-forwarded-for" then OnlyIf(o.validValue, Some(ctx.remoteIp))
    else if n == "x-forwarded-host" then Get(h, "host")
    else if n == "x-forwarded-proto" then OnlyIf(o.validValue, Some(if ctx.isTls then "https" else "http"))
    else if n == "x-request-id" then Get(h, "x-request-id")
    else None
  }

  /** What is under a name after one more layer. */
  lemma Layer(h: HeaderMap, name: string, value: Option<string>, n: string)
    ensures AllValues(PutOption(h, name, value), n) == if n == name && value.Some? then Sole(value) else AllValues(h, n)
  {
  }

  lemma {:induction false} SystemNamesDistinct()
    ensures HOST != X_ORIGINAL_URI && HOST != X_ORIGINAL_METHOD && HOST != X_FORWARDED_FOR
    ensures HOST != X_FORWARDED_HOST && HOST != X_FORWARDED_PROTO && HOST != X_REQUEST_ID
    ensures X_ORIGINAL_URI != X_ORIGINAL_METHOD && X_ORIGINAL_URI != X_FORWARDED_FOR && X_ORIGINAL_URI != X_FORWARDED_HOST
    ensures X_ORIGINAL_URI != X_FORWARDED_PROTO && X_ORIGINAL_URI != X_REQUEST_ID
    ensures X_ORIGINAL_METHOD != X_FORWARDED_FOR && X_ORIGINAL_METHOD != X_FORWARDED_HOST
    ensures X_ORIGINAL_METHOD != X_FORWARDED_PROTO && X_ORIGINAL_METHOD != X_REQUEST_ID
    ensures X_FORWARDED_FOR != X_FORWARDED_HOST && X_FORWARDED_FOR != X_FORWARDED_PROTO && X_FORWARDED_FOR != X_REQUEST_ID
    ensures X_FORWARDED_HOST != X_FORWARDED_PROTO && X_FORWARDED_HOST != X_REQUEST_ID && X_FORWARDED_PROTO != X_REQUEST_ID
  {
    assert X_ORIGINAL_METHOD[2] != X_FORWARDED_PROTO[2];
  }

  /** The subrequest goes to the configured endpoint with the configured timeout, and never copies blindly: under each
      name it carries the system's value alone if there is one, else the client's first value alone if the name is
      listed, else nothing. */
  lemma {:induction false} SubrequestHeaders(o: Oracles, ctx: AuthCtx, verb: string, h: HeaderMap, cfg: ForwardAuthConfig,
      n: string)
    ensures BuildCall(o, ctx, verb, h, cfg).endpoint == cfg.endpoint
    ensures BuildCall(o, ctx, verb, h, cfg).timeoutSecs == cfg.timeoutSecs
    ensures AllValues(BuildCall(o, ctx, verb, h, cfg).headers, n) ==
            var system := SystemValue(o, ctx, verb, h, cfg, n);
            Sole(if system.Some? then system else if n in cfg.requestHeaders then Get(h, n) else None)
  {
    SystemNamesDistinct();
    var h0 := CopyListed(cfg.requestHeaders, h);
    var h1 := PutOption(h0, HOST, OnlyIf(o.validValue, cfg.endpoint.authority));
    var h2 := PutOption(h1, X_ORIGINAL_URI, OnlyIf(o.validValue, Some(ctx.originalUri)));
    var h3 := PutOption(h2, X_ORIGINAL_METHOD, OnlyIf(o.validValue, Some(verb)));
    var h4 := PutOption(h3, X_FORWARDED_FOR, OnlyIf(o.validValue, Some(ctx.remoteIp)));
    var h5 := PutOption(h4, X_FORWARDED_HOST, Get(h, HOST));
    var h6 := PutOption(h5, X_FORWARDED_PROTO, OnlyIf(o.validValue, Some(Scheme(ctx.isTls))));
    Layer(h0, HOST, OnlyIf(o.validValue, cfg.endpoint.authority), n);
    Layer(h1, X_ORIGINAL_URI, OnlyIf(o.validValue, Some(ctx.originalUri)), n);
    Layer(h2, X_ORIGINAL_METHOD, OnlyIf(o.validValue, Some(verb)), n);
    Layer(h3, X_FORWARDED_FOR, OnlyIf(o.validValue, Some(ctx.remoteIp)), n);
    Layer(h4, X_FORWARDED_HOST, Get(h, HOST), n);
    Layer(h5, X_FORWARDED_PROTO, OnlyIf(o.validValue, Some(Scheme(ctx.isTls))), n);
    Layer(h6, X_REQUEST_ID, Get(h, X_REQUEST_ID), n);
  }

  // ---------------------------------------------------------------------------
  // Outcomes
  // ---------------------------------------------------------------------------

  function FirstError(frames: seq<Frame>): (r: Option<string>)
    ensures r.None? <==> forall f :: f in frames ==> f.Data?
  {
    if frames == [] then None
    else if frames[0].Broken? then assert frames[0] in frames; Some(frames[0].error)
    else FirstError(frames[1..])
  }

  lemma {:induction false} FirstBroken(frames: seq<Frame>, i: nat)
    requires i < |frames| && frames[i].Broken? && forall j :: 0 <= j < i ==> frames[j].Data?
    ensures FirstError(frames) == Some(frames[i].error)
  {
    if i > 0 { FirstBroken(frames[1..], i - 1); }
  }

  /** The drain loop: it stops at the first broken frame and reports it. */
  method DrainBody(frames: seq<Frame>) returns (bodyErr: Option<string>)
    ensures bodyErr.None? <==> forall f :: f in frames ==> f.Data?
    ensures bodyErr.Some? ==> exists i :: 0 <= i < |frames| && frames[i] == Broken(bodyErr.value)
                                          && forall j :: 0 <= j < i ==> frames[j].Data?
    ensures bodyErr == FirstError(frames)
  {
    bodyErr := None;
    var i := 0;
    while i < |frames|
      invariant i <= |frames| && bodyErr.None?
      invariant forall j :: 0 <= j < i ==> frames[j].Data?
      invariant FirstError(frames) == FirstError(frames[i..])
    {
      if frames[i].Broken? {
        bodyErr := Some(frames[i].error);
        break;
      }
      i := i + 1;
    }
  }

  /** A trustworthy yes: 2xx with a body that was read to its end. */
  predicate Approves(out: ServiceOutcome) {
    out.Response? && IsSuccess(out.status) && forall f :: f in out.frames ==> f.Data?
  }

  /** A decision to deny: any 4xx that completed in time, whatever became of its body. */
  predicate Denies(out: ServiceOutcome) {
    out.Response? && IsClientError(out.status)
  }

  /** No decision at all. */
  predicate Breaks(out: ServiceOutcome) {
    !Approves(out) && !Denies(out)
  }

  function Identity(cfg: ForwardAuthConfig, out: ServiceOutcome): HeaderMap
    requires out.Response?
  {
    CopyListed(cfg.responseHeaders, out.headers)
  }

  /** The outcome classification of `resolve_auth`. */
  function Classify(cfg: ForwardAuthConfig, out: ServiceOutcome): AuthResult {
    match out
    case Response(status, headers, frames) =>
      if IsSuccess(status) then
        var bodyErr := FirstError(frames);
        if bodyErr.Some? then Failed(Malformed(bodyErr.value)) else Allowed(Identity(cfg, out))
      else if IsClientError(status) then Denied(status, Get(headers, WWW_AUTHENTICATE))
      else Failed(ServerError(status))
    case ClientError(isConnect, message) => Failed(if isConnect then Connect(message) else Malformed(message))
    case Elapsed => Failed(Timeout)
  }

  /** The three kinds of result are told apart by the outcome alone, never by the directive. */
  lemma ClassifyExact(cfg: ForwardAuthConfig, out: ServiceOutcome)
    ensures Classify(cfg, out).Allowed? <==> Approves(out)
    ensures Classify(cfg, out).Denied? <==> Denies(out)
    ensures Classify(cfg, out).Failed? <==> Breaks(out)
    ensures Denies(out) ==> Classify(cfg, out) == Denied(out.status, Get(out.headers, WWW_AUTHENTICATE))
    ensures Approves(out) ==> forall n :: n in Classify(cfg, out).identity ==> n in cfg.responseHeaders
    ensures Approves(out) ==> forall n :: n in cfg.responseHeaders ==>
                                AllValues(Classify(cfg, out).identity, n) == Sole(Get(out.headers, n))
  {
  }

  /** The three kinds of result by the numbers: 200 to 299 with an unbroken body approves, 400 to 499 denies whatever
      the body, and everything else is a failure that keeps its reason. */
  lemma {:induction false} VerdictByStatus(cfg: ForwardAuthConfig, out: ServiceOutcome)
    ensures Classify(cfg, out).Allowed? <==>
            out.Response? && 200 <= out.status <= 299 && forall f :: f in out.frames ==> f.Data?
    ensures Classify(cfg, out).Denied? <==> out.Response? && 400 <= out.status <= 499
    ensures out.Response? && !(200 <= out.status <= 299) && !(400 <= out.status <= 499) ==>
              Classify(cfg, out) == Failed(ServerError(out.status))
    ensures out.Response? && 200 <= out.status <= 299 ==>
              forall i :: 0 <= i < |out.frames| && out.frames[i].Broken? && (forall j :: 0 <= j < i ==> out.frames[j].Data?) ==>
                            Classify(cfg, out) == Failed(Malformed(out.frames[i].error))
    ensures out.ClientError? ==>
              Classify(cfg, out) == Failed(if out.isConnect then Connect(out.message) else Malformed(out.message))
    ensures out.Elapsed? ==> Classify(cfg, out) == Failed(Timeout)
  {
    if out.Response? && 200 <= out.status <= 299 {
      forall i | 0 <= i < |out.frames| && out.frames[i].Broken? && forall j :: 0 <= j < i ==> out.frames[j].Data?
        ensures FirstError(out.frames) == Some(out.frames[i].error)
      {
        FirstBroken(out.frames, i);
      }
    }
  }

  /** The shared client and the other effects of a request: subrequests sent and UUIDs drawn. */
  class Outside {
    var calls: seq<AuthCall>
    var draws: nat

    constructor ()
      ensures calls == [] && draws == 0
    {
      calls, draws := [], 0;
    }

    method Send(o: Oracles, call: AuthCall) returns (out: ServiceOutcome)
      modifies this`calls
      ensures calls == old(calls) + [call]
      ensures out == o.service(calls)
    {
      calls := calls + [call];
      out := o.service(calls);
    }
  }

  /** `resolve_auth`: one subrequest, built from the current headers, and its classification. */
  method ResolveAuth(o: Oracles, ctx: AuthCtx, req: Request, world: Outside, cfg: ForwardAuthConfig) returns (r: AuthResult)
    modifies world`calls
    ensures world.calls == old(world.calls) + [BuildCall(o, ctx, req.verb, req.headers, cfg)]
    ensures r == Classify(cfg, o.service(world.calls))
  {
    var call := BuildAuthRequest(o, ctx, req, cfg);
    var out := world.Send(o, call);
    match out
    case Response(status, headers, frames) =>
      var identity: HeaderMap := map[];
      if IsSuccess(status) {
        var names := cfg.responseHeaders;
        for i := 0 to |names|
          invariant identity == CopyListed(names[..i], headers)
        {
          assert names[..i + 1] == names[..i] + [names[i]];
          var value := Get(headers, names[i]);
          if value.Some? {
            identity := Insert(identity, names[i], value.value);
          }
        }
        assert names[..|names|] == names;
      }
      var bodyErr := DrainBody(frames);
      if IsSuccess(status) {
        r := if bodyErr.Some? then Failed(Malformed(bodyErr.value)) else Allowed(identity);
      } else if IsClientError(status) {
        r := Denied(status, Get(headers, WWW_AUTHENTICATE));
      } else {
        r := Failed(ServerError(status));
      }
    case ClientError(isConnect, message) =>
      r := Failed(if isConnect then Connect(message) else Malformed(message));
    case Elapsed =>
      r := Failed(Timeout);
  }
}
