/** The interpreter and the backend stage joined with the code's own substitution: what `header` and `header_up`
    directives put into a request, and what a client can make them read. */
module HeaderTexts {
  import opened Basics
  import opened Http
  import opened Config
  import opened ForwardAuth
  import opened Handler
  import opened AuthSafety
  import opened Backend
  import opened Substitution
  import opened Templates

  // ---------------------------------------------------------------------------
  // Worlds that substitute like the code
  // ---------------------------------------------------------------------------

  /** Wherever the code's substitution returns, the oracle answers the same. */
  ghost predicate LikeCode(o: Oracles, env: Lookup, isText: string -> bool) {
    forall template: string, h: HeaderMap, u: string ::
      Returns(HeaderLookup(h, isText), env, template) ==>
        o.subst(template, h, u) == HeaderSubstitution(HeaderLookup(h, isText), env, u, template)
  }

  ghost predicate LikeUpCode(o: UpOracles, env: Lookup, isText: string -> bool) {
    forall template: string, h: HeaderMap, u: string, up: Upstream ::
      Returns(HeaderLookup(h, isText), env, template) ==>
        o.subst(template, h, u, up) ==
        UpstreamSubstitution(HeaderLookup(h, isText), env, u, up.host, up.requestUri, up.remoteIp, template)
  }

  /** There are such worlds, for every environment, auth service, UUID supply and notion of a valid value. */
  lemma {:induction false} LikeCodeExists(service: seq<AuthCall> -> ServiceOutcome, uuid: nat -> string,
      validValue: string -> bool, env: Lookup, isText: string -> bool) returns (o: Oracles, up: UpOracles)
    ensures LikeCode(o, env, isText) && o.service == service && o.uuid == uuid && o.validValue == validValue
    ensures LikeUpCode(up, env, isText) && up.uuid == uuid && up.validValue == validValue
  {
    o := Oracles(service, uuid,
        (template: string, h: HeaderMap, u: string) =>
          if Returns(HeaderLookup(h, isText), env, template)
          then HeaderSubstitution(HeaderLookup(h, isText), env, u, template) else None,
        validValue);
    up := UpOracles(
        (template: string, h: HeaderMap, u: string, up: Upstream) =>
          if Returns(HeaderLookup(h, isText), env, template)
          then UpstreamSubstitution(HeaderLookup(h, isText), env, u, up.host, up.requestUri, up.remoteIp, template)
          else None,
        uuid, validValue);
  }

  /** A `header` directive sets its header to its template with every placeholder replaced at once. */
  lemma {:induction false} HeaderDirectiveMeans(o: Oracles, env: Lookup, isText: string -> bool, name: string,
      t: seq<Segment>, st: State) returns (filled: seq<Segment>)
    requires LikeCode(o, env, isText) && WellFormed(t) && HeaderName(name).Some?
    requires NamesLack("header.", HeaderLookup(st.headers, isText), t) && NamesLack("env.", env, t)
    ensures |filled| == |t|
    ensures forall i :: 0 <= i < |t| ==>
              filled[i] == HeaderMeaning(HeaderLookup(st.headers, isText), env, o.uuid(st.draws), t[i])
    ensures SetHeader(o, name, Some(Render(t)), st).headers ==
            if o.validValue(Render(filled)) then Insert(st.headers, HeaderName(name).value, Render(filled))
            else st.headers
  {
    filled := HeaderSubstitutionIsSimultaneous(HeaderLookup(st.headers, isText), env, o.uuid(st.draws), t);
  }

  /** A `header_up` directive does so with all six kinds of placeholder. */
  lemma {:induction false} HeaderUpMeans(o: UpOracles, up: Upstream, env: Lookup, isText: string -> bool, name: string,
      t: seq<Segment>, out: Outgoing)
    requires LikeUpCode(o, env, isText) && WellFormed(t) && HeaderName(name).Some?
    requires NamesLack("header.", HeaderLookup(out.headers, isText), t) && NamesLack("env.", env, t)
    requires '{' !in o.uuid(out.draws) && '{' !in up.host && '{' !in up.requestUri
    ensures var text := Render(Simultaneous(HeaderLookup(out.headers, isText), env, o.uuid(out.draws), up.host,
                up.requestUri, up.remoteIp, t));
            UpStep(o, up, HeaderDirective(name, Some(Render(t))), out).headers ==
            if o.validValue(text) then Insert(out.headers, HeaderName(name).value, text) else out.headers
  {
    SubstitutionIsSimultaneous(HeaderLookup(out.headers, isText), env, o.uuid(out.draws), up.host, up.requestUri,
        up.remoteIp, t);
  }

  // ---------------------------------------------------------------------------
  // Copies of identity headers
  // ---------------------------------------------------------------------------

  function HeaderRef(name: string): string { Braced("header." + name) }

  lemma {:induction false} NameHasNoBrace(n: string)
    requires ValidName(n)
    ensures '{' !in n && '}' !in n && '{' !in "header." + n && '}' !in "header." + n
  {
    assert !IsTokenChar('{') && !IsTokenChar('}');
  }

  /** A reference names a header in any letter case, and reads its first value if that is plain text. */
  lemma {:induction false} NamedValue(h: HeaderMap, isText: string -> bool, name: string, n: string, v: string)
    ensures HeaderName(name).None? ==> HeaderLookup(h, isText)(name).None?
    ensures HeaderName(name) == Some(n) ==>
              (HeaderLookup(h, isText)(name) == Some(v) <==> Get(h, n) == Some(v) && isText(v))
  {
  }

  /** A lone reference reads its header. */
  lemma {:induction false} ReferenceReads(h: HeaderMap, isText: string -> bool, env: Lookup, u: string, name: string,
      v: string)
    requires ValidName(name) && Get(h, name) == Some(v) && isText(v) && '{' !in v
    ensures Returns(HeaderLookup(h, isText), env, HeaderRef(name))
    ensures HeaderSubstitution(HeaderLookup(h, isText), env, u, HeaderRef(name)) == Some(v)
  {
    var body := "header." + name;
    var t := [Hole(body)];
    NameHasNoBrace(name);
    ValidNameParses(name);
    NamedValue(h, isText, name, name, v);
    assert body[7..] == name && body[0] == 'h' && "env."[0] == 'e';
    HoleRenders(body);
    var filled := HeaderSubstitutionIsSimultaneous(HeaderLookup(h, isText), env, u, t);
    assert "header." <= body && t[0] == Hole(body);
    assert HeaderMeaning(HeaderLookup(h, isText), env, u, Hole(body)) == Plain(v);
    assert filled == [Plain(v)];
    PlainRenders(v);
  }

  lemma {:induction false} ReferenceComesTo(h: HeaderMap, isText: string -> bool, name: string, v: string)
    requires IsKey(HEADER_KEY) && ValidName(name) && Get(h, name) == Some(v) && isText(v)
    ensures ComesTo(HEADER_KEY, HeaderLookup(h, isText), HeaderRef(name), v)
  {
    NameHasNoBrace(name);
    ValidNameParses(name);
    NamedValue(h, isText, name, name, v);
    LoneReference("header.", HeaderLookup(h, isText), name);
  }

  /** A text that the header loop comes to has the same substitution. */
  lemma SameSubstitution(headers: Lookup, env: Lookup, u: string, s: string, s': string)
    requires IsKey(HEADER_KEY) && ComesTo(HEADER_KEY, headers, s, s') && Returns(headers, env, s')
    ensures Returns(headers, env, s) && HeaderSubstitution(headers, env, u, s) == HeaderSubstitution(headers, env, u, s')
  {
    SameResult(HEADER_KEY, headers, s, s');
  }

  /** A reference to a header whose value is a reference reads the second header: the loop scans what it wrote. */
  lemma {:induction false} ReferenceReadsThrough(h: HeaderMap, isText: string -> bool, env: Lookup, u: string,
      other: string, user: string, v: string)
    requires ValidName(other) && Get(h, other) == Some(HeaderRef(user)) && isText(HeaderRef(user))
    requires ValidName(user) && Get(h, user) == Some(v) && isText(v) && '{' !in v
    ensures Returns(HeaderLookup(h, isText), env, HeaderRef(other))
    ensures HeaderSubstitution(HeaderLookup(h, isText), env, u, HeaderRef(other)) == Some(v)
  {
    KeysAreKeys();
    ReferenceComesTo(h, isText, other, HeaderRef(user));
    ReferenceReads(h, isText, env, u, user, v);
    SameSubstitution(HeaderLookup(h, isText), env, u, HeaderRef(other), HeaderRef(user));
  }

  /** A `header` directive in front of a forward_auth, one behind it, and a backend. */
  function Around(copy: string, x: string, auth: ForwardAuthConfig, user: string, to: string): seq<Directive> {
    [Header(copy, Some(x)), ForwardAuth(auth), Header(user, Some(HeaderRef(copy))), ReverseProxy(to, None, None, [])]
  }

  lemma {:induction false} ProcessAround(o: Oracles, ctx: AuthCtx, verb: string, copy: string, x: string,
      auth: ForwardAuthConfig, user: string, to: string, st: State, path: string)
    requires AuthStep(o, ctx, verb, auth, SetHeader(o, copy, Some(x), st)).1 == Pass
    ensures Process(o, ctx, verb, Around(copy, x, auth, user, to), st, path, path) ==
            (SetHeader(o, user, Some(HeaderRef(copy)), AuthStep(o, ctx, verb, auth, SetHeader(o, copy, Some(x), st)).0),
             Ok(ProxyTo(to, path, None, None, [])))
  {
    var ds := Around(copy, x, auth, user, to);
    var s1 := SetHeader(o, copy, Some(x), st);
    var s2 := AuthStep(o, ctx, verb, auth, s1).0;
    var s3 := SetHeader(o, user, Some(HeaderRef(copy)), s2);
    assert ds[1..][1..] == ds[2..] && ds[2..][1..] == ds[3..];
    assert Process(o, ctx, verb, ds[3..], s3, path, path) == (s3, Ok(ProxyTo(to, path, None, None, [])));
    assert Process(o, ctx, verb, ds[1..], s1, path, path) == Process(o, ctx, verb, ds[2..], s2, path, path);
  }

  lemma {:induction false} CopySets(o: Oracles, env: Lookup, isText: string -> bool, to: string, from: string, st: State,
      v: string)
    requires LikeCode(o, env, isText) && ValidName(to) && ValidName(from)
    requires Get(st.headers, from) == Some(v) && '{' !in v && isText(v) && o.validValue(v)
    ensures SetHeader(o, to, Some(HeaderRef(from)), st).headers == Insert(st.headers, to, v)
  {
    ValidNameParses(to);
    ReferenceReads(st.headers, isText, env, o.uuid(st.draws), from, v);
  }

  /** What the first directive copied survives the forward_auth, and the second one puts it back. */
  lemma {:induction false} CopyComesBack(o: Oracles, env: Lookup, isText: string -> bool, ctx: AuthCtx, verb: string,
      copy: string, x: string, auth: ForwardAuthConfig, user: string, to: string, st: State, path: string, v: string)
    requires LikeCode(o, env, isText) && ValidName(copy) && ValidName(user) && copy !in auth.responseHeaders
    requires o.subst(x, st.headers, o.uuid(st.draws)) == Some(v) && '{' !in v && isText(v) && o.validValue(v)
    requires AuthStep(o, ctx, verb, auth, SetHeader(o, copy, Some(x), st)).1 == Pass
    ensures var (st', answer) := Process(o, ctx, verb, Around(copy, x, auth, user, to), st, path, path);
            answer == Ok(ProxyTo(to, path, None, None, [])) && AllValues(st'.headers, user) == Some([v])
  {
    ValidNameParses(copy);
    var s1 := SetHeader(o, copy, Some(x), st);
    UnmentionedStep(o, ctx, verb, Authorize(auth), s1, copy);
    CopySets(o, env, isText, user, copy, AuthStep(o, ctx, verb, auth, s1).0, v);
    ProcessAround(o, ctx, verb, copy, x, auth, user, to, st, path);
  }

  /** The limit of provenance: a `header` directive that copies an identity header before the forward_auth and one that
      copies it back afterwards hand the client's own value to the backend, whenever the forward_auth lets the request
      through, and whatever identity the service gave. */
  lemma {:induction false} CopiedValueReturns(o: Oracles, env: Lookup, isText: string -> bool, ctx: AuthCtx, verb: string,
      user: string, copy: string, auth: ForwardAuthConfig, to: string, st: State, path: string, v: string)
    requires LikeCode(o, env, isText) && ValidName(copy) && ValidName(user)
    requires user in auth.responseHeaders && copy !in auth.responseHeaders
    requires Get(st.headers, user) == Some(v) && '{' !in v && isText(v) && o.validValue(v)
    requires AuthStep(o, ctx, verb, auth, SetHeader(o, copy, Some(HeaderRef(user)), st)).1 == Pass
    ensures var (st', answer) := Process(o, ctx, verb, Around(copy, HeaderRef(user), auth, user, to), st, path, path);
            answer == Ok(ProxyTo(to, path, None, None, [])) && AllValues(st'.headers, user) == Some([v])
  {
    ReferenceReads(st.headers, isText, env, o.uuid(st.draws), user, v);
    CopyComesBack(o, env, isText, ctx, verb, copy, HeaderRef(user), auth, user, to, st, path, v);
  }

  /** The same happens although the directive in front names another header only, if the client sends a reference in
      that header: naming no identity header is not enough to be safe from them. */
  lemma {:induction false} UnnamedValueReturns(o: Oracles, env: Lookup, isText: string -> bool, ctx: AuthCtx, verb: string,
      user: string, other: string, copy: string, auth: ForwardAuthConfig, to: string, st: State, path: string, v: string)
    requires LikeCode(o, env, isText) && ValidName(copy) && ValidName(user) && ValidName(other)
    requires user in auth.responseHeaders && copy !in auth.responseHeaders && other !in auth.responseHeaders
    requires Get(st.headers, other) == Some(HeaderRef(user)) && isText(HeaderRef(user))
    requires Get(st.headers, user) == Some(v) && '{' !in v && isText(v) && o.validValue(v)
    requires AuthStep(o, ctx, verb, auth, SetHeader(o, copy, Some(HeaderRef(other)), st)).1 == Pass
    ensures var (st', answer) := Process(o, ctx, verb, Around(copy, HeaderRef(other), auth, user, to), st, path, path);
            answer == Ok(ProxyTo(to, path, None, None, [])) && AllValues(st'.headers, user) == Some([v])
  {
    ReferenceReadsThrough(st.headers, isText, env, o.uuid(st.draws), other, user, v);
    CopyComesBack(o, env, isText, ctx, verb, copy, HeaderRef(other), auth, user, to, st, path, v);
  }

  // ---------------------------------------------------------------------------
  // Templates without header references
  // ---------------------------------------------------------------------------

  /** The template refers to no header, and its environment references come to an end. */
  ghost predicate Literal(env: Lookup, template: string) {
    KeysAreKeys();
    Find(template, HEADER_KEY).None? && Ends(ENV_KEY, env, template)
  }

  lemma {:induction false} LiteralReadsNothing(o: Oracles, env: Lookup, isText: string -> bool, template: string,
      h: HeaderMap, h': HeaderMap, u: string)
    requires LikeCode(o, env, isText) && Literal(env, template)
    ensures o.subst(template, h, u) == o.subst(template, h', u)
  {
    KeysAreKeys();
    NoReferenceEnds(HEADER_KEY, HeaderLookup(h, isText), template);
    NoReferenceEnds(HEADER_KEY, HeaderLookup(h', isText), template);
    assert Returns(HeaderLookup(h, isText), env, template) && Returns(HeaderLookup(h', isText), env, template);
  }

  lemma {:induction false} LiteralsAgree(o: Oracles, env: Lookup, isText: string -> bool, pre: seq<Op>, st: State,
      st': State)
    requires LikeCode(o, env, isText)
    requires forall op :: op in pre ==> op.PutHeader? && (op.value.Some? ==> Literal(env, op.value.value))
    ensures SameTexts(o, pre, st, st')
    decreases |pre|
  {
    if pre != [] {
      var op := pre[0];
      assert op in pre;
      if op.value.Some? {
        LiteralReadsNothing(o, env, isText, op.value.value, st.headers, st'.headers, o.uuid(st.draws));
      }
      LiteralsAgree(o, env, isText, pre[1..], SetHeader(o, op.name, op.value, st), SetHeader(o, op.name, op.value, st'));
    }
  }

  /** Behind `header` directives without a header reference the client's identity headers have no effect, whatever else
      the client sends. */
  lemma {:induction false} LiteralsHideSpoofing(o: Oracles, env: Lookup, isText: string -> bool, ctx: AuthCtx,
      verb: string, ds: seq<Directive>, path: string, entry: string, i: nat, st: State, st': State)
    requires LikeCode(o, env, isText)
    requires var ops := Route(ds, verb, path, entry).ops;
             && i < |ops| && ops[i].Authorize? && SameBut(NameSet(ops[i].auth.responseHeaders), st, st')
             && forall op :: op in ops[..i] ==> op.PutHeader? && (op.value.Some? ==> Literal(env, op.value.value))
    ensures Process(o, ctx, verb, ds, st, path, entry) == Process(o, ctx, verb, ds, st', path, entry)
  {
    LiteralsAgree(o, env, isText, Route(ds, verb, path, entry).ops[..i], st, st');
    SameTextsSuffice(o, ctx, verb, ds, path, entry, i, st, st');
  }

  // ---------------------------------------------------------------------------
  // Templates that read other headers
  // ---------------------------------------------------------------------------

  predicate SettledParts(t: seq<Segment>) {
    WellFormed(t) && forall seg :: seg in t ==> !Refers("header.", seg) && !Refers("env.", seg)
  }

  /** A text that no loop would rewrite, wherever it is spliced in. */
  ghost predicate Settled(v: string) {
    exists t :: SettledParts(t) && Render(t) == v
  }

  lemma {:induction false} BracelessIsSettled(v: string)
    requires '{' !in v
    ensures Settled(v)
  {
    PlainRenders(v);
    assert SettledParts([Plain(v)]);
  }

  lemma {:induction false} SettledIsClean(word: string, t: seq<Segment>)
    requires IsKey("{" + word) && WellFormed(t) && forall seg :: seg in t ==> !Refers(word, seg)
    ensures Clean(Render(t), "{" + word)
    decreases |t|
  {
    if t != [] {
      var seg := t[0];
      assert seg in t && SegmentOk(seg);
      if seg.Hole? { OtherHoleIsClean(seg.body, word); } else { BracelessIsClean(seg.text, "{" + word); }
      SettledIsClean(word, t[1..]);
      CleanJoin(RenderOne(seg), Render(t[1..]), "{" + word);
    }
  }

  ghost predicate NamesSettled(headers: Lookup, t: seq<Segment>) {
    forall seg :: seg in t && Refers("header.", seg) ==> Settled(ValueOr(headers, NameOf("header.", seg)))
  }

  /** The template after the header loop, with the settled values taken apart. */
  lemma {:induction false} Unfold(headers: Lookup, t: seq<Segment>) returns (t': seq<Segment>)
    requires WellFormed(t) && NamesSettled(headers, t)
    ensures WellFormed(t') && Render(t') == Render(FillReferences("header.", headers, t))
    ensures forall seg :: seg in t' ==> !Refers("header.", seg) && (Refers("env.", seg) ==> seg in t)
    decreases |t|
  {
    if t == [] {
      t' := [];
    } else {
      var seg, rest := t[0], t[1..];
      assert seg in t && SegmentOk(seg) && forall other :: other in rest ==> other in t;
      var more := Unfold(headers, rest);
      var first := [seg];
      if Refers("header.", seg) {
        first :| SettledParts(first) && Render(first) == ValueOr(headers, NameOf("header.", seg));
      } else {
        RenderCons(seg, []);
      }
      t' := first + more;
      RenderJoin(first, more);
      RenderCons(FillReference("header.", headers, seg), FillReferences("header.", headers, rest));
    }
  }

  lemma {:induction false} HeaderLoopSettles(headers: Lookup, t: seq<Segment>)
    requires IsKey(HEADER_KEY) && WellFormed(t) && NamesSettled(headers, t)
    ensures Ends(HEADER_KEY, headers, Render(t))
    ensures RewriteAll(HEADER_KEY, headers, Render(t)) == Some(Render(FillReferences("header.", headers, t)))
  {
    WellFormedIsReadable("header.", t);
    forall seg | seg in t && Refers("header.", seg)
      ensures Clean(ValueOr(headers, NameOf("header.", seg)), HEADER_KEY)
    {
      var parts :| SettledParts(parts) && Render(parts) == ValueOr(headers, NameOf("header.", seg));
      SettledIsClean("header.", parts);
    }
    LoopFillsReferences("header.", headers, "", t);
    assert "" + Render(t) == Render(t);
    assert "" + Render(FillReferences("header.", headers, t)) == Render(FillReferences("header.", headers, t));
  }

  /** The later passes leave a settled text behind. */
  lemma {:induction false} LaterPassesSettle(env: Lookup, u: string, t: seq<Segment>)
    requires IsKey(ENV_KEY) && WellFormed(t) && NamesLack("env.", env, t) && '{' !in u
    requires forall seg :: seg in t ==> !Refers("header.", seg)
    ensures Ends(ENV_KEY, env, Render(t)) && RewriteAll(ENV_KEY, env, Render(t)).Some?
    ensures Settled(Replace(RewriteAll(ENV_KEY, env, Render(t)).value, Braced("uuid"), u))
  {
    LoopFills("env.", env, t);
    FilledIsWellFormed("env.", env, t);
    var t2 := FillReferences("env.", env, t);
    ReplaceFillsWord("uuid", u, t2);
    WordsAreWellFormed("uuid", u, t2);
    var t3 := FillWord("uuid", u, t2);
    forall seg | seg in t3 ensures !Refers("header.", seg) && !Refers("env.", seg) {
      var i :| 0 <= i < |t3| && t3[i] == seg;
      assert t2[i] in t2;
    }
    assert SettledParts(t3);
  }

  /** On settled values the substitution returns, and its text is settled again. */
  lemma {:induction false} SubstitutionSettles(headers: Lookup, env: Lookup, u: string, t: seq<Segment>)
    requires WellFormed(t) && NamesSettled(headers, t) && NamesLack("env.", env, t) && '{' !in u
    ensures Returns(headers, env, Render(t))
    ensures var text := HeaderSubstitution(headers, env, u, Render(t)); text.Some? && Settled(text.value)
  {
    KeysAreKeys();
    HeaderLoopSettles(headers, t);
    var t1 := Unfold(headers, t);
    LaterPassesSettle(env, u, t1);
  }

  /** What is substituted depends on the headers that the template names, and on no others. */
  lemma {:induction false} SameReads(headers: Lookup, headers': Lookup, env: Lookup, u: string, t: seq<Segment>)
    requires WellFormed(t) && NamesSettled(headers, t) && NamesLack("env.", env, t) && '{' !in u
    requires forall seg :: seg in t && Refers("header.", seg) ==>
               ValueOr(headers, NameOf("header.", seg)) == ValueOr(headers', NameOf("header.", seg))
    ensures Returns(headers, env, Render(t)) && Returns(headers', env, Render(t))
    ensures HeaderSubstitution(headers, env, u, Render(t)) == HeaderSubstitution(headers', env, u, Render(t))
  {
    KeysAreKeys();
    SubstitutionSettles(headers, env, u, t);
    HeaderLoopSettles(headers, t);
    HeaderLoopSettles(headers', t);
    assert FillReferences("header.", headers, t) == FillReferences("header.", headers', t);
  }

  /** The template names only headers in `read`, and environment values without braces. */
  predicate TemplateReads(env: Lookup, read: set<string>, t: seq<Segment>) {
    && WellFormed(t) && NamesLack("env.", env, t)
    && forall seg :: seg in t && Refers("header.", seg) ==>
         var n := HeaderName(NameOf("header.", seg)); n.Some? ==> n.value in read
  }

  ghost predicate ReadsOnly(env: Lookup, read: set<string>, template: string) {
    exists t :: TemplateReads(env, read, t) && Render(t) == template
  }

  ghost predicate ReadSettled(read: set<string>, h: HeaderMap) {
    forall n :: n in read && Get(h, n).Some? ==> Settled(Get(h, n).value)
  }

  lemma {:induction false} ReadValueSettled(read: set<string>, h: HeaderMap, isText: string -> bool, env: Lookup,
      t: seq<Segment>)
    requires TemplateReads(env, read, t) && ReadSettled(read, h)
    ensures NamesSettled(HeaderLookup(h, isText), t)
  {
    BracelessIsSettled("");
  }

  lemma {:induction false} SameValues(names: set<string>, read: set<string>, h: HeaderMap, h': HeaderMap,
      isText: string -> bool, env: Lookup, t: seq<Segment>)
    requires read !! names && h - names == h' - names && TemplateReads(env, read, t)
    ensures forall seg :: seg in t && Refers("header.", seg) ==>
              ValueOr(HeaderLookup(h, isText), NameOf("header.", seg)) ==
              ValueOr(HeaderLookup(h', isText), NameOf("header.", seg))
  {
    forall seg | seg in t && Refers("header.", seg)
      ensures HeaderLookup(h, isText)(NameOf("header.", seg)) == HeaderLookup(h', isText)(NameOf("header.", seg))
    {
      var name := NameOf("header.", seg);
      if HeaderName(name).Some? {
        var n := HeaderName(name).value;
        assert AllValues(h, n) == AllValues(h - names, n) && AllValues(h', n) == AllValues(h' - names, n);
      }
      assert GetByText(h, name) == GetByText(h', name);
    }
  }

  /** One directive: the two runs set the same text, and what may be read stays settled. */
  lemma {:induction false} SameText(o: Oracles, env: Lookup, isText: string -> bool, names: set<string>,
      read: set<string>, template: string, st: State, st': State)
    requires LikeCode(o, env, isText) && '{' !in o.uuid(st.draws)
    requires read !! names && SameBut(names, st, st') && ReadsOnly(env, read, template) && ReadSettled(read, st.headers)
    ensures var text := o.subst(template, st.headers, o.uuid(st.draws));
            text == o.subst(template, st'.headers, o.uuid(st.draws)) && text.Some? && Settled(text.value)
  {
    var t :| TemplateReads(env, read, t) && Render(t) == template;
    var look, look' := HeaderLookup(st.headers, isText), HeaderLookup(st'.headers, isText);
    ReadValueSettled(read, st.headers, isText, env, t);
    SameValues(names, read, st.headers, st'.headers, isText, env, t);
    SubstitutionSettles(look, env, o.uuid(st.draws), t);
    SameReads(look, look', env, o.uuid(st.draws), t);
  }

  lemma {:induction false} OthersAgree(o: Oracles, env: Lookup, isText: string -> bool, names: set<string>,
      read: set<string>, pre: seq<Op>, st: State, st': State)
    requires LikeCode(o, env, isText) && (forall k :: '{' !in o.uuid(k))
    requires read !! names && SameBut(names, st, st') && ReadSettled(read, st.headers)
    requires forall op :: op in pre ==> op.PutHeader? && (op.value.Some? ==> ReadsOnly(env, read, op.value.value))
    ensures SameTexts(o, pre, st, st')
    decreases |pre|
  {
    if pre != [] {
      var op := pre[0];
      assert op in pre;
      if op.value.Some? { SameText(o, env, isText, names, read, op.value.value, st, st'); }
      assert SameTexts(o, [op], st, st');
      PutKeepsSameBut(o, op, names, st, st');
      OthersAgree(o, env, isText, names, read, pre[1..], SetHeader(o, op.name, op.value, st),
          SetHeader(o, op.name, op.value, st'));
    }
  }

  /** Behind `header` directives whose templates name only headers outside the identity set, the client's identity
      headers have no effect, if the named headers arrive without a `{`. */
  lemma {:induction false} UnreadHeadersDoNotMatter(o: Oracles, env: Lookup, isText: string -> bool, ctx: AuthCtx,
      verb: string, ds: seq<Directive>, path: string, entry: string, i: nat, read: set<string>, st: State, st': State)
    requires LikeCode(o, env, isText) && forall k :: '{' !in o.uuid(k)
    requires var ops := Route(ds, verb, path, entry).ops;
             && i < |ops| && ops[i].Authorize? && SameBut(NameSet(ops[i].auth.responseHeaders), st, st')
             && read !! NameSet(ops[i].auth.responseHeaders)
             && forall op :: op in ops[..i] ==> op.PutHeader? && (op.value.Some? ==> ReadsOnly(env, read, op.value.value))
    requires forall n :: n in read && Get(st.headers, n).Some? ==> '{' !in Get(st.headers, n).value
    ensures Process(o, ctx, verb, ds, st, path, entry) == Process(o, ctx, verb, ds, st', path, entry)
  {
    var ops := Route(ds, verb, path, entry).ops;
    forall n | n in read && Get(st.headers, n).Some? ensures Settled(Get(st.headers, n).value) {
      BracelessIsSettled(Get(st.headers, n).value);
    }
    OthersAgree(o, env, isText, NameSet(ops[i].auth.responseHeaders), read, ops[..i], st, st');
    SameTextsSuffice(o, ctx, verb, ds, path, entry, i, st, st');
  }
}
