/** What each directive does to a request, in terms of characters, numbers and header values: the rules that the
    documentation gives for one directive in front of any others (src/proxy/handler.rs, src/proxy/directives.rs). */
module Rules {
  import opened Basics
  import opened Characters
  import opened Http
  import opened Config
  import opened Paths
  import opened ForwardAuth
  import opened Handler

  lemma {:induction false} FirstOf(d: Directive, rest: seq<Directive>)
    ensures ([d] + rest)[0] == d && ([d] + rest)[1..] == rest
  {
  }

  // ---------------------------------------------------------------------------
  // Blocks
  // ---------------------------------------------------------------------------

  /** A `method` block is entered, with the path as it is, by the requests whose method is one of its words in any letter
      case; the others go on behind it. */
  lemma {:induction false} MethodRule(o: Oracles, ctx: AuthCtx, verb: string, methods: seq<string>,
      nested: seq<Directive>, rest: seq<Directive>, st: State, path: string, entry: string)
    ensures Process(o, ctx, verb, [Method(methods, nested)] + rest, st, path, entry) ==
            if exists m :: m in methods && SameText(m, verb) then Process(o, ctx, verb, nested, st, path, path)
            else Process(o, ctx, verb, rest, st, path, entry)
  {
    FirstOf(Method(methods, nested), rest);
    forall m ensures Lower(m) == Lower(verb) <==> SameText(m, verb) { LowerSameText(m, verb); }
  }

  /** A `handle_path` block whose pattern ends in slash and star is entered with what follows the rest of the pattern. */
  lemma {:induction false} WildcardRule(o: Oracles, ctx: AuthCtx, verb: string, prefix: string, nested: seq<Directive>,
      rest: seq<Directive>, st: State, path: string, entry: string)
    ensures var run := Process(o, ctx, verb, [HandlePath(prefix + "/*", nested)] + rest, st, path, entry);
            && (forall tail :: path == prefix + tail ==> run == Process(o, ctx, verb, nested, st, tail, tail))
            && (!(prefix <= path) ==> run == Process(o, ctx, verb, rest, st, path, entry))
  {
    var pattern := prefix + "/*";
    FirstOf(HandlePath(pattern, nested), rest);
    forall tail | path == prefix + tail ensures MatchPattern(pattern, path) == Some(tail) {
      MatchExactly(pattern, path, tail);
    }
    if MatchPattern(pattern, path).Some? {
      MatchExactly(pattern, path, MatchPattern(pattern, path).value);
      assert forall other :: pattern == other + "/*" ==> other == pattern[..|pattern| - 2] == prefix;
    }
  }

  /** Any other pattern is compared with the whole path, and the block is entered with a lone slash. */
  lemma {:induction false} ExactRule(o: Oracles, ctx: AuthCtx, verb: string, pattern: string, nested: seq<Directive>,
      rest: seq<Directive>, st: State, path: string, entry: string)
    requires forall prefix :: pattern != prefix + "/*"
    ensures Process(o, ctx, verb, [HandlePath(pattern, nested)] + rest, st, path, entry) ==
            if path == pattern then Process(o, ctx, verb, nested, st, "/", "/")
            else Process(o, ctx, verb, rest, st, path, entry)
  {
    FirstOf(HandlePath(pattern, nested), rest);
    MatchExactly(pattern, path, "/");
    if MatchPattern(pattern, path).Some? { MatchExactly(pattern, path, MatchPattern(pattern, path).value); }
  }

  // ---------------------------------------------------------------------------
  // Rewriting the path
  // ---------------------------------------------------------------------------

  /** `strip_prefix` takes the prefix away and puts a slash in front where none is left; another path stays as it is. */
  lemma {:induction false} StripRule(o: Oracles, ctx: AuthCtx, verb: string, prefix: string, rest: seq<Directive>,
      st: State, path: string, entry: string)
    ensures var run := Process(o, ctx, verb, [StripPrefix(prefix)] + rest, st, path, entry);
            && (forall tail :: path == prefix + tail ==>
                  run == Process(o, ctx, verb, rest, st, if "/" <= tail then tail else "/" + tail, entry))
            && (!(prefix <= path) ==> run == Process(o, ctx, verb, rest, st, path, entry))
  {
    FirstOf(StripPrefix(prefix), rest);
    forall tail | path == prefix + tail
      ensures StripPrefixFrom(prefix, path) == if "/" <= tail then tail else "/" + tail
    {
      StripPrefixExactly(prefix, tail);
    }
  }

  /** `uri_replace` glues the path together with the new text where it is cut at the old one, from left to right. */
  lemma {:induction false} ReplaceRule(o: Oracles, ctx: AuthCtx, verb: string, find: string, replace: string,
      rest: seq<Directive>, st: State, path: string, entry: string) returns (pieces: seq<string>)
    ensures pieces != [] && path == Glue(pieces, find)
    ensures if find == "" then pieces == [""] + Singles(path) else CutLeftmost(pieces, find)
    ensures Process(o, ctx, verb, [UriReplace(find, replace)] + rest, st, path, entry) ==
            Process(o, ctx, verb, rest, st, Glue(pieces, replace), entry)
  {
    FirstOf(UriReplace(find, replace), rest);
    pieces := ReplaceGlues(path, find, replace);
  }

  // ---------------------------------------------------------------------------
  // Headers
  // ---------------------------------------------------------------------------

  /** `header -Name` removes all values of the name in any letter case, and changes nothing else; with a text that is no
      header name it does nothing. */
  lemma {:induction false} RemovalRule(o: Oracles, ctx: AuthCtx, verb: string, name: string, rest: seq<Directive>,
      st: State, path: string, entry: string) returns (st': State)
    ensures st'.calls == st.calls && st'.draws == st.draws
    ensures forall n :: HeaderName(name) == Some(n) ==>
                          AllValues(st'.headers, n).None?
                          && forall m :: m != n ==> AllValues(st'.headers, m) == AllValues(st.headers, m)
    ensures HeaderName(name).None? ==> st' == st
    ensures Process(o, ctx, verb, [Header(name, None)] + rest, st, path, entry) ==
            Process(o, ctx, verb, rest, st', path, entry)
  {
    FirstOf(Header(name, None), rest);
    st' := SetHeader(o, name, None, st);
  }

  /** `header Name text` leaves the substituted text as the only value of the name, if it is a valid header value; a name
      or a substitution that fails changes nothing. Each substitution that succeeds draws a UUID of its own. */
  lemma {:induction false} SettingRule(o: Oracles, ctx: AuthCtx, verb: string, name: string, template: string,
      rest: seq<Directive>, st: State, path: string, entry: string) returns (st': State)
    ensures st'.calls == st.calls
    ensures var text := o.subst(template, st.headers, o.uuid(st.draws));
            && st'.draws == st.draws + (if HeaderName(name).Some? && text.Some? then 1 else 0)
            && (forall n :: HeaderName(name) == Some(n) && text.Some? && o.validValue(text.value) ==>
                              AllValues(st'.headers, n) == Some([text.value])
                              && forall m :: m != n ==> AllValues(st'.headers, m) == AllValues(st.headers, m))
            && (HeaderName(name).None? || text.None? || !o.validValue(text.value) ==> st'.headers == st.headers)
    ensures Process(o, ctx, verb, [Header(name, Some(template))] + rest, st, path, entry) ==
            Process(o, ctx, verb, rest, st', path, entry)
  {
    FirstOf(Header(name, Some(template)), rest);
    st' := SetHeader(o, name, Some(template), st);
  }

  // ---------------------------------------------------------------------------
  // Actions
  // ---------------------------------------------------------------------------

  /** An action ends the run with what its directive says and the path as it is, and changes nothing; a list without an
      action reports the path with which it was entered. */
  lemma {:induction false} ActionRule(o: Oracles, ctx: AuthCtx, verb: string, rest: seq<Directive>, st: State,
      path: string, entry: string, text: string, status: nat, connect: Option<nat>, read: Option<nat>,
      ups: seq<HeaderDirective>)
    ensures Process(o, ctx, verb, [Respond(status, text)] + rest, st, path, entry) == (st, Ok(RespondWith(status, text)))
    ensures Process(o, ctx, verb, [Redirect(status, text)] + rest, st, path, entry) == (st, Ok(RedirectTo(status, text)))
    ensures Process(o, ctx, verb, [ReverseProxy(text, connect, read, ups)] + rest, st, path, entry) ==
            (st, Ok(ProxyTo(text, path, connect, read, ups)))
    ensures Process(o, ctx, verb, [], st, path, entry) == (st, Err(entry))
  {
    FirstOf(Respond(status, text), rest);
    FirstOf(Redirect(status, text), rest);
    FirstOf(ReverseProxy(text, connect, read, ups), rest);
  }

  // ---------------------------------------------------------------------------
  // Authorization
  // ---------------------------------------------------------------------------

  predicate Unbroken(out: ServiceOutcome) {
    out.Response? && forall f :: f in out.frames ==> f.Data?
  }

  /** `forward_auth` by the numbers. The request's identity headers are removed before anything else; the service is asked
      once, about what is left. 200 to 299 with an unbroken body: go on, with the first value that the answer gives for
      each identity header. 400 to 499: deny with that status and challenge. Anything else: 503 under closed, and under
      open go on without identity headers. */
  lemma {:induction false} AuthRule(o: Oracles, ctx: AuthCtx, verb: string, cfg: ForwardAuthConfig, rest: seq<Directive>,
      st: State, path: string, entry: string) returns (out: ServiceOutcome, st': State)
    ensures st'.draws == st.draws
    ensures st'.calls == st.calls + [BuildCall(o, ctx, verb, st.headers - NameSet(cfg.responseHeaders), cfg)]
    ensures out == o.service(st'.calls)
    ensures forall n :: n !in cfg.responseHeaders ==> AllValues(st'.headers, n) == AllValues(st.headers, n)
    ensures var run := Process(o, ctx, verb, [ForwardAuth(cfg)] + rest, st, path, entry);
            var goOn := Process(o, ctx, verb, rest, st', path, entry);
            if Unbroken(out) && 200 <= out.status <= 299 then
              && (forall n :: n in cfg.responseHeaders ==> AllValues(st'.headers, n) == Sole(Get(out.headers, n)))
              && run == goOn
            else
              && (forall n :: n in cfg.responseHeaders ==> AllValues(st'.headers, n).None?)
              && run == if out.Response? && 400 <= out.status <= 499 then
                          (st', Ok(AuthDenied(out.status, Get(out.headers, "www-authenticate"))))
                        else if cfg.failureMode.Open? then goOn
                        else (st', Ok(AuthDenied(503, None)))
  {
    FirstOf(ForwardAuth(cfg), rest);
    st' := AuthStep(o, ctx, verb, cfg, st).0;
    out := o.service(st'.calls);
    VerdictByStatus(cfg, out);
    ClassifyExact(cfg, out);
  }
}
