/** What holds of every run of the directive interpreter: the auth gate, the origin of identity headers,
    independence from spoofed headers, and the effect of the failure mode. */
module AuthSafety {
  import opened Basics
  import opened Http
  import opened Config
  import opened Paths
  import opened ForwardAuth
  import opened Handler

  // ---------------------------------------------------------------------------
  // The states of a run
  // ---------------------------------------------------------------------------

  /** The state before operation `k`, provided that none before it blocks. */
  function StateAt(o: Oracles, ctx: AuthCtx, verb: string, ops: seq<Op>, st: State, k: nat): State
    requires k <= |ops|
  {
    if k == 0 then st else StateAt(o, ctx, verb, ops[1..], Perform(o, ctx, verb, ops[0], st), k - 1)
  }

  lemma {:induction false} StateAtStep(o: Oracles, ctx: AuthCtx, verb: string, ops: seq<Op>, st: State, k: nat)
    requires k < |ops|
    ensures StateAt(o, ctx, verb, ops, st, k + 1) == Perform(o, ctx, verb, ops[k], StateAt(o, ctx, verb, ops, st, k))
  {
    if k > 0 { StateAtStep(o, ctx, verb, ops[1..], Perform(o, ctx, verb, ops[0], st), k - 1); }
  }

  predicate Blocks(o: Oracles, ctx: AuthCtx, verb: string, ops: seq<Op>, st: State, k: nat)
    requires k < |ops|
  {
    VerdictOf(o, ctx, verb, ops[k], StateAt(o, ctx, verb, ops, st, k)).Block?
  }

  /** `k` is the first operation that blocks, or `|ops|` when none does. */
  predicate FirstBlock(o: Oracles, ctx: AuthCtx, verb: string, ops: seq<Op>, st: State, k: nat) {
    && k <= |ops|
    && (forall j :: 0 <= j < k ==> !Blocks(o, ctx, verb, ops, st, j))
    && (k < |ops| ==> Blocks(o, ctx, verb, ops, st, k))
  }

  lemma {:induction false} ExecuteStopsAtFirstBlock(o: Oracles, ctx: AuthCtx, verb: string, ops: seq<Op>, end: Answer,
      st: State) returns (k: nat)
    ensures FirstBlock(o, ctx, verb, ops, st, k)
    ensures Execute(o, ctx, verb, ops, end, st) ==
            if k == |ops| then (StateAt(o, ctx, verb, ops, st, k), end)
            else (StateAt(o, ctx, verb, ops, st, k + 1),
                Ok(VerdictOf(o, ctx, verb, ops[k], StateAt(o, ctx, verb, ops, st, k)).action))
  {
    if ops == [] {
      k := 0;
    } else {
      var st' := Perform(o, ctx, verb, ops[0], st);
      if VerdictOf(o, ctx, verb, ops[0], st).Block? {
        k := 0;
        assert StateAt(o, ctx, verb, ops[1..], st', 0) == st';
      } else {
        var rest := ExecuteStopsAtFirstBlock(o, ctx, verb, ops[1..], end, st');
        k := rest + 1;
        forall j | 0 <= j < k ensures !Blocks(o, ctx, verb, ops, st, j) {
          if j > 0 { assert !Blocks(o, ctx, verb, ops[1..], st', j - 1); }
        }
      }
    }
  }

  /** The subrequest that operation `k` sends, built from headers already scrubbed by the same directive. */
  function CallAt(o: Oracles, ctx: AuthCtx, verb: string, ops: seq<Op>, st: State, k: nat): AuthCall
    requires k < |ops| && ops[k].Authorize?
  {
    var cfg := ops[k].auth;
    BuildCall(o, ctx, verb, StateAt(o, ctx, verb, ops, st, k).headers - NameSet(cfg.responseHeaders), cfg)
  }

  function OutcomeAt(o: Oracles, ctx: AuthCtx, verb: string, ops: seq<Op>, st: State, k: nat): ServiceOutcome
    requires k < |ops| && ops[k].Authorize?
  {
    o.service(StateAt(o, ctx, verb, ops, st, k).calls + [CallAt(o, ctx, verb, ops, st, k)])
  }

  /** The subrequests of the first `k` operations, in order. */
  function CallsOf(o: Oracles, ctx: AuthCtx, verb: string, ops: seq<Op>, st: State, k: nat): seq<AuthCall>
    requires k <= |ops|
  {
    if k == 0 then []
    else CallsOf(o, ctx, verb, ops, st, k - 1) + if ops[k - 1].Authorize? then [CallAt(o, ctx, verb, ops, st, k - 1)]
        else []
  }

  lemma PerformCalls(o: Oracles, ctx: AuthCtx, verb: string, op: Op, st: State)
    ensures Perform(o, ctx, verb, op, st).calls ==
            st.calls + if op.Authorize? then [BuildCall(o, ctx, verb, st.headers - NameSet(op.auth.responseHeaders),
                op.auth)] else []
  {
  }

  lemma {:induction false} CallsSoFar(o: Oracles, ctx: AuthCtx, verb: string, ops: seq<Op>, st: State, k: nat)
    requires k <= |ops|
    ensures StateAt(o, ctx, verb, ops, st, k).calls == st.calls + CallsOf(o, ctx, verb, ops, st, k)
  {
    if k > 0 {
      CallsSoFar(o, ctx, verb, ops, st, k - 1);
      StateAtStep(o, ctx, verb, ops, st, k - 1);
      PerformCalls(o, ctx, verb, ops[k - 1], StateAt(o, ctx, verb, ops, st, k - 1));
    }
  }

  // ---------------------------------------------------------------------------
  // The auth gate
  // ---------------------------------------------------------------------------

  /** An operation lets the request through exactly when it is no forward_auth, or the service approved, or the
      service gave no decision and the directive says open. */
  lemma {:induction false} PassesExactly(o: Oracles, ctx: AuthCtx, verb: string, ops: seq<Op>, st: State, k: nat)
    requires k < |ops|
    ensures !Blocks(o, ctx, verb, ops, st, k) <==>
            ops[k].PutHeader?
            || Approves(OutcomeAt(o, ctx, verb, ops, st, k))
            || (Breaks(OutcomeAt(o, ctx, verb, ops, st, k)) && ops[k].auth.failureMode.Open?)
    ensures Blocks(o, ctx, verb, ops, st, k) ==>
            var out := OutcomeAt(o, ctx, verb, ops, st, k);
            VerdictOf(o, ctx, verb, ops[k], StateAt(o, ctx, verb, ops, st, k)).action ==
            if Denies(out) then AuthDenied(out.status, Get(out.headers, "www-authenticate")) else AuthDenied(503, None)
  {
    if ops[k].Authorize? { ClassifyExact(ops[k].auth, OutcomeAt(o, ctx, verb, ops, st, k)); }
  }

  /** A denial never comes out of the configuration itself. */
  lemma {:induction false} EndIsNoDenial(ds: seq<Directive>, verb: string, path: string, entry: string)
    ensures var end := Route(ds, verb, path, entry).end; end.Err? || !end.value.AuthDenied?
    decreases ds
  {
    if ds != [] {
      var rest := ds[1..];
      match ds[0]
      case UriReplace(find, replace) => EndIsNoDenial(rest, verb, Replace(path, find, replace), entry);
      case StripPrefix(prefix) => EndIsNoDenial(rest, verb, StripPrefixFrom(prefix, path), entry);
      case HandlePath(pattern, nested) =>
        var remaining := MatchPattern(pattern, path);
        if remaining.Some? {
          EndIsNoDenial(nested, verb, remaining.value, remaining.value);
        } else {
          EndIsNoDenial(rest, verb, path, entry);
        }
      case Method(methods, nested) =>
        if HandleMethod(methods, verb) {
          EndIsNoDenial(nested, verb, path, path);
        } else {
          EndIsNoDenial(rest, verb, path, entry);
        }
      case _ => EndIsNoDenial(rest, verb, path, entry);
    }
  }

  /** The gate over whole runs. Either every forward_auth on the executed chain was asked, in order, and let the
      request through, and the answer is the chain's own end; or the first one that did not is the last one asked
      and its denial is the answer. */
  lemma {:induction false} AuthGate(o: Oracles, ctx: AuthCtx, verb: string, ds: seq<Directive>, st: State, path: string,
      entry: string) returns (k: nat)
    ensures var plan := Route(ds, verb, path, entry);
            var (st', answer) := Process(o, ctx, verb, ds, st, path, entry);
            && FirstBlock(o, ctx, verb, plan.ops, st, k)
            && (answer.Ok? && answer.value.AuthDenied? <==> k < |plan.ops|)
            && (k == |plan.ops| ==>
                  && answer == plan.end
                  && st' == StateAt(o, ctx, verb, plan.ops, st, k)
                  && st'.calls == st.calls + CallsOf(o, ctx, verb, plan.ops, st, k))
            && (k < |plan.ops| ==>
                  && plan.ops[k].Authorize?
                  && st'.calls == st.calls + CallsOf(o, ctx, verb, plan.ops, st, k)
                      + [CallAt(o, ctx, verb, plan.ops, st, k)]
                  && var out := OutcomeAt(o, ctx, verb, plan.ops, st, k);
                     answer == Ok(if Denies(out) then AuthDenied(out.status, Get(out.headers, "www-authenticate"))
                         else AuthDenied(503, None)))
  {
    var plan := Route(ds, verb, path, entry);
    FlatteningPreservesMeaning(o, ctx, verb, ds, st, path, entry);
    EndIsNoDenial(ds, verb, path, entry);
    k := ExecuteStopsAtFirstBlock(o, ctx, verb, plan.ops, plan.end, st);
    CallsSoFar(o, ctx, verb, plan.ops, st, k);
    if k < |plan.ops| {
      PassesExactly(o, ctx, verb, plan.ops, st, k);
      StateAtStep(o, ctx, verb, plan.ops, st, k);
      CallsSoFar(o, ctx, verb, plan.ops, st, k + 1);
    }
  }

  /** The gate by the numbers: where no denial is the answer, every forward_auth on the executed chain was answered with
      a status from 200 to 299 and an unbroken body, or says open and was not answered with a status from 400 to 499. */
  lemma {:induction false} GateByStatus(o: Oracles, ctx: AuthCtx, verb: string, ds: seq<Directive>, st: State,
      path: string, entry: string, i: nat)
    requires i < |Route(ds, verb, path, entry).ops| && Route(ds, verb, path, entry).ops[i].Authorize?
    requires var answer := Process(o, ctx, verb, ds, st, path, entry).1; answer.Err? || !answer.value.AuthDenied?
    ensures var ops := Route(ds, verb, path, entry).ops;
            var out := OutcomeAt(o, ctx, verb, ops, st, i);
            || (out.Response? && 200 <= out.status <= 299 && forall f :: f in out.frames ==> f.Data?)
            || (ops[i].auth.failureMode.Open? && !(out.Response? && 400 <= out.status <= 499))
  {
    var ops := Route(ds, verb, path, entry).ops;
    var k := AuthGate(o, ctx, verb, ds, st, path, entry);
    assert !Blocks(o, ctx, verb, ops, st, i);
    PassesExactly(o, ctx, verb, ops, st, i);
    VerdictByStatus(ops[i].auth, OutcomeAt(o, ctx, verb, ops, st, i));
    ClassifyExact(ops[i].auth, OutcomeAt(o, ctx, verb, ops, st, i));
  }

  // ---------------------------------------------------------------------------
  // Provenance of identity headers
  // ---------------------------------------------------------------------------

  /** Operation `j` put value `v` under name `n`: a `header` directive whose text is `v`, or a forward_auth whose
      approving, fully drained response carries `v`. */
  predicate Wrote(o: Oracles, ctx: AuthCtx, verb: string, ops: seq<Op>, st: State, j: nat, n: string, v: string)
    requires j < |ops|
  {
    match ops[j]
    case PutHeader(name, value) =>
      var before := StateAt(o, ctx, verb, ops, st, j);
      && HeaderName(name) == Some(n) && value.Some? && o.validValue(v)
      && o.subst(value.value, before.headers, o.uuid(before.draws)) == Some(v)
    case Authorize(cfg) =>
      var out := OutcomeAt(o, ctx, verb, ops, st, j);
      n in cfg.responseHeaders && Approves(out) && Get(out.headers, n) == Some(v)
  }

  /** `v` was written under `n` by operation `j`, and is the only value there ever since until operation `k`. */
  ghost predicate HeldSince(o: Oracles, ctx: AuthCtx, verb: string, ops: seq<Op>, st: State, j: nat, k: nat, n: string,
      v: string)
    requires j < k <= |ops|
  {
    && Wrote(o, ctx, verb, ops, st, j, n, v)
    && forall m :: j < m <= k ==> AllValues(StateAt(o, ctx, verb, ops, st, m).headers, n) == Some([v])
  }

  /** What an operation leaves under a name it wrote there, alone, or was there before and the operation does not scrub
      that name. */
  lemma {:induction false} WrittenOrKept(o: Oracles, ctx: AuthCtx, verb: string, ops: seq<Op>, st: State, k: nat,
      n: string) returns (v: string)
    requires k < |ops| && n in StateAt(o, ctx, verb, ops, st, k + 1).headers
    ensures var before, after := StateAt(o, ctx, verb, ops, st, k).headers, StateAt(o, ctx, verb, ops, st, k + 1).headers;
            || (Wrote(o, ctx, verb, ops, st, k, n, v) && after[n] == [v])
            || (AllValues(before, n) == Some(after[n]) && (ops[k].Authorize? ==> n !in ops[k].auth.responseHeaders))
  {
    StateAtStep(o, ctx, verb, ops, st, k);
    var after := StateAt(o, ctx, verb, ops, st, k + 1).headers;
    v := if after[n] == [] then "" else after[n][0];
    if ops[k].Authorize? { ClassifyExact(ops[k].auth, OutcomeAt(o, ctx, verb, ops, st, k)); }
  }

  lemma JustWritten(o: Oracles, ctx: AuthCtx, verb: string, ops: seq<Op>, st: State, j: nat, n: string, v: string)
    requires j < |ops| && Wrote(o, ctx, verb, ops, st, j, n, v)
    requires AllValues(StateAt(o, ctx, verb, ops, st, j + 1).headers, n) == Some([v])
    ensures HeldSince(o, ctx, verb, ops, st, j, j + 1, n, v)
  {
  }

  lemma StillHeld(o: Oracles, ctx: AuthCtx, verb: string, ops: seq<Op>, st: State, j: nat, k: nat, n: string, v: string)
    requires j < k - 1 < |ops| && HeldSince(o, ctx, verb, ops, st, j, k - 1, n, v)
    requires AllValues(StateAt(o, ctx, verb, ops, st, k).headers, n) == Some([v])
    ensures HeldSince(o, ctx, verb, ops, st, j, k, n, v)
  {
  }

  /** All that an identity name of forward_auth `i` holds before a later operation `k` is one value, written at or
      after `i`. */
  lemma {:induction false} WrittenSince(o: Oracles, ctx: AuthCtx, verb: string, ops: seq<Op>, st: State, i: nat, k: nat,
      n: string)
    returns (j: nat, v: string)
    requires i < k <= |ops| && ops[i].Authorize? && n in ops[i].auth.responseHeaders
    requires n in StateAt(o, ctx, verb, ops, st, k).headers
    ensures i <= j < k && StateAt(o, ctx, verb, ops, st, k).headers[n] == [v]
    ensures HeldSince(o, ctx, verb, ops, st, j, k, n, v)
    decreases k
  {
    v := WrittenOrKept(o, ctx, verb, ops, st, k - 1, n);
    if Wrote(o, ctx, verb, ops, st, k - 1, n, v) && StateAt(o, ctx, verb, ops, st, k).headers[n] == [v] {
      j := k - 1;
      JustWritten(o, ctx, verb, ops, st, j, n, v);
    } else {
      j, v := WrittenSince(o, ctx, verb, ops, st, i, k - 1, n);
      StillHeld(o, ctx, verb, ops, st, j, k, n, v);
    }
  }

  /** A run that is not denied ends in the state behind all operations of its chain. */
  lemma {:induction false} PassedState(o: Oracles, ctx: AuthCtx, verb: string, ds: seq<Directive>, st: State,
      path: string, entry: string)
    requires var answer := Process(o, ctx, verb, ds, st, path, entry).1; answer.Err? || !answer.value.AuthDenied?
    ensures var ops := Route(ds, verb, path, entry).ops;
            Process(o, ctx, verb, ds, st, path, entry).0 == StateAt(o, ctx, verb, ops, st, |ops|)
  {
    var k := AuthGate(o, ctx, verb, ds, st, path, entry);
  }

  /** Identity provenance: when a run hands the request on, a name listed by a forward_auth it passed is absent, or holds
      one value only: what the drained 2xx response of that or a later forward_auth said, or what a later `header`
      directive set; and nothing has touched it since operation `j` wrote it. */
  lemma {:induction false} IdentityProvenance(o: Oracles, ctx: AuthCtx, verb: string, ds: seq<Directive>, st: State,
      path: string, entry: string, i: nat, n: string)
    returns (j: nat, v: string)
    requires i < |Route(ds, verb, path, entry).ops|
    requires var op := Route(ds, verb, path, entry).ops[i]; op.Authorize? && n in op.auth.responseHeaders
    requires var answer := Process(o, ctx, verb, ds, st, path, entry).1; answer.Err? || !answer.value.AuthDenied?
    ensures var ops := Route(ds, verb, path, entry).ops;
            var held := AllValues(Process(o, ctx, verb, ds, st, path, entry).0.headers, n);
            i <= j < |ops| && (held.Some? ==> held == Some([v]) && HeldSince(o, ctx, verb, ops, st, j, |ops|, n, v))
  {
    var ops := Route(ds, verb, path, entry).ops;
    PassedState(o, ctx, verb, ds, st, path, entry);
    j, v := i, "";
    if n in StateAt(o, ctx, verb, ops, st, |ops|).headers {
      j, v := WrittenSince(o, ctx, verb, ops, st, i, |ops|, n);
    }
  }

  // ---------------------------------------------------------------------------
  // Non-interference
  // ---------------------------------------------------------------------------

  /** Two states that only the headers in `names` tell apart. */
  predicate SameBut(names: set<string>, st: State, st': State) {
    st.headers - names == st'.headers - names && st.calls == st'.calls && st.draws == st'.draws
  }

  /** The operations are `header` directives, and from the two states they come to the same texts. */
  predicate SameTexts(o: Oracles, pre: seq<Op>, st: State, st': State)
    decreases |pre|
  {
    pre != [] ==>
      var op, u := pre[0], o.uuid(st.draws);
      && op.PutHeader?
      && (op.value.Some? ==> o.subst(op.value.value, st.headers, u) == o.subst(op.value.value, st'.headers, u))
      && SameTexts(o, pre[1..], SetHeader(o, op.name, op.value, st), SetHeader(o, op.name, op.value, st'))
  }

  lemma {:induction false} PutKeepsSameBut(o: Oracles, op: Op, names: set<string>, st: State, st': State)
    requires SameTexts(o, [op], st, st') && SameBut(names, st, st')
    ensures SameBut(names, SetHeader(o, op.name, op.value, st), SetHeader(o, op.name, op.value, st'))
  {
    assert [op][0] == op;
    var n := HeaderName(op.name);
    if n.Some? {
      assert Remove(st.headers, n.value) - names == (st.headers - names) - {n.value};
      assert Remove(st'.headers, n.value) - names == (st'.headers - names) - {n.value};
      if op.value.Some? {
        var text := o.subst(op.value.value, st.headers, o.uuid(st.draws));
        if text.Some? {
          var one: HeaderMap := map[n.value := [text.value]];
          assert Insert(st.headers, n.value, text.value) - names == (st.headers - names) + (one - names);
          assert Insert(st'.headers, n.value, text.value) - names == (st'.headers - names) + (one - names);
        }
      }
    }
  }

  lemma {:induction false} PrefixKeepsSameBut(o: Oracles, ctx: AuthCtx, verb: string, pre: seq<Op>, post: seq<Op>,
      end: Answer, names: set<string>, st: State, st': State)
    requires SameTexts(o, pre, st, st') && SameBut(names, st, st')
    requires post != [] && post[0].Authorize? && names <= NameSet(post[0].auth.responseHeaders)
    ensures Execute(o, ctx, verb, pre + post, end, st) == Execute(o, ctx, verb, pre + post, end, st')
    decreases |pre|
  {
    if pre == [] {
      assert pre + post == post;
      var scrub := NameSet(post[0].auth.responseHeaders);
      assert st.headers - scrub == (st.headers - names) - scrub == st'.headers - scrub;
    } else {
      var op := pre[0];
      assert (pre + post)[0] == op && (pre + post)[1..] == pre[1..] + post;
      PutKeepsSameBut(o, op, names, st, st');
      PrefixKeepsSameBut(o, ctx, verb, pre[1..], post, end, names, SetHeader(o, op.name, op.value, st),
          SetHeader(o, op.name, op.value, st'));
    }
  }

  /** Two client requests that differ only in the identity headers of the first forward_auth have the same run, answer,
      headers, subrequests and all, if the `header` directives in front of it come to the same texts. */
  lemma {:induction false} SameTextsSuffice(o: Oracles, ctx: AuthCtx, verb: string, ds: seq<Directive>, path: string,
      entry: string, i: nat, st: State, st': State)
    requires var ops := Route(ds, verb, path, entry).ops;
             && i < |ops| && ops[i].Authorize? && SameTexts(o, ops[..i], st, st')
             && SameBut(NameSet(ops[i].auth.responseHeaders), st, st')
    ensures Process(o, ctx, verb, ds, st, path, entry) == Process(o, ctx, verb, ds, st', path, entry)
  {
    var plan := Route(ds, verb, path, entry);
    FlatteningPreservesMeaning(o, ctx, verb, ds, st, path, entry);
    FlatteningPreservesMeaning(o, ctx, verb, ds, st', path, entry);
    assert plan.ops == plan.ops[..i] + plan.ops[i..];
    PrefixKeepsSameBut(o, ctx, verb, plan.ops[..i], plan.ops[i..], plan.end, NameSet(plan.ops[i].auth.responseHeaders),
        st, st');
  }

  predicate OnlyRemoves(op: Op) { op.PutHeader? && op.value.None? }

  lemma {:induction false} RemovalsAgree(o: Oracles, pre: seq<Op>, st: State, st': State)
    requires forall op :: op in pre ==> OnlyRemoves(op)
    ensures SameTexts(o, pre, st, st')
    decreases |pre|
  {
    if pre != [] {
      var op := pre[0];
      assert op in pre;
      RemovalsAgree(o, pre[1..], SetHeader(o, op.name, op.value, st), SetHeader(o, op.name, op.value, st'));
    }
  }

  /** Spoofing has no effect at all: if only path, method and routing directives and header removals run before the first
      forward_auth, two client requests that differ only in its identity headers give the same subrequests, the same
      answer and the same headers. */
  lemma {:induction false} SpoofedHeadersDoNotMatter(o: Oracles, ctx: AuthCtx, verb: string, ds: seq<Directive>,
      path: string, entry: string, i: nat, st: State, st': State)
    requires var ops := Route(ds, verb, path, entry).ops;
             && i < |ops| && ops[i].Authorize? && (forall op :: op in ops[..i] ==> OnlyRemoves(op))
             && SameBut(NameSet(ops[i].auth.responseHeaders), st, st')
    ensures Process(o, ctx, verb, ds, st, path, entry) == Process(o, ctx, verb, ds, st', path, entry)
  {
    RemovalsAgree(o, Route(ds, verb, path, entry).ops[..i], st, st');
    SameTextsSuffice(o, ctx, verb, ds, path, entry, i, st, st');
  }

  // ---------------------------------------------------------------------------
  // Failure mode
  // ---------------------------------------------------------------------------

  predicate TighterAuth(cfg: ForwardAuthConfig, cfg': ForwardAuthConfig) {
    cfg' == cfg || (cfg.failureMode.Open? && cfg' == cfg.(failureMode := Closed))
  }

  /** The second directive is the first with any number of failure modes changed from open to closed. */
  predicate Tighter(d: Directive, d': Directive)
    decreases d, 0
  {
    match d
    case HandlePath(pattern, nested) => d'.HandlePath? && d'.pattern == pattern && AllTighter(nested, d'.directives)
    case Method(methods, nested) => d'.Method? && d'.methods == methods && AllTighter(nested, d'.directives)
    case ForwardAuth(cfg) => d'.ForwardAuth? && TighterAuth(cfg, d'.auth)
    case _ => d' == d
  }

  predicate AllTighter(ds: seq<Directive>, ds': seq<Directive>)
    decreases ds, 1
  {
    |ds| == |ds'| && (ds != [] ==> Tighter(ds[0], ds'[0]) && AllTighter(ds[1..], ds'[1..]))
  }

  predicate TighterOps(ops: seq<Op>, ops': seq<Op>) {
    && |ops| == |ops'|
    && forall i :: 0 <= i < |ops| ==>
         ops'[i] == ops[i] || (ops[i].Authorize? && ops'[i].Authorize? && TighterAuth(ops[i].auth, ops'[i].auth))
  }

  lemma {:induction false} TighterRoute(ds: seq<Directive>, ds': seq<Directive>, verb: string, path: string, entry: string)
    requires AllTighter(ds, ds')
    ensures TighterOps(Route(ds, verb, path, entry).ops, Route(ds', verb, path, entry).ops)
    ensures Route(ds, verb, path, entry).end == Route(ds', verb, path, entry).end
    decreases ds
  {
    if ds != [] {
      var rest, rest' := ds[1..], ds'[1..];
      match ds[0]
      case UriReplace(find, replace) => TighterRoute(rest, rest', verb, Replace(path, find, replace), entry);
      case StripPrefix(prefix) => TighterRoute(rest, rest', verb, StripPrefixFrom(prefix, path), entry);
      case HandlePath(pattern, nested) =>
        var remaining := MatchPattern(pattern, path);
        if remaining.Some? {
          TighterRoute(nested, ds'[0].directives, verb, remaining.value, remaining.value);
        } else {
          TighterRoute(rest, rest', verb, path, entry);
        }
      case Method(methods, nested) =>
        if HandleMethod(methods, verb) {
          TighterRoute(nested, ds'[0].directives, verb, path, path);
        } else {
          TighterRoute(rest, rest', verb, path, entry);
        }
      case _ => TighterRoute(rest, rest', verb, path, entry);
    }
  }

  /** What the service said to the subrequest at position `j` of a run's history. */
  function OutcomeOf(o: Oracles, calls: seq<AuthCall>, j: nat): ServiceOutcome
    requires j < |calls|
  {
    o.service(calls[..j + 1])
  }

  /** Some subrequest of the run, among those after the first `from`, got no decision. */
  predicate SomeBreaks(o: Oracles, calls: seq<AuthCall>, from: nat) {
    exists j :: from <= j < |calls| && Breaks(OutcomeOf(o, calls, j))
  }

  lemma {:induction false} TighterStep(o: Oracles, ctx: AuthCtx, verb: string, op: Op, op': Op, st: State)
    requires TighterOps([op], [op'])
    ensures Perform(o, ctx, verb, op', st) == Perform(o, ctx, verb, op, st)
    ensures var v, v' := VerdictOf(o, ctx, verb, op, st), VerdictOf(o, ctx, verb, op', st);
            v' == v || (op.Authorize? && v == Pass && v' == Block(AuthDenied(503, None)) && Breaks(o.service(Perform(o, ctx,
                verb, op, st).calls)))
  {
    assert [op][0] == op && [op'][0] == op';
    if op.Authorize? { ClassifyExact(op.auth, o.service(Perform(o, ctx, verb, op, st).calls)); }
  }

  lemma {:induction false} ExecuteExtendsCalls(o: Oracles, ctx: AuthCtx, verb: string, ops: seq<Op>, end: Answer, st: State)
    ensures st.calls <= Execute(o, ctx, verb, ops, end, st).0.calls
  {
    if ops != [] { ExecuteExtendsCalls(o, ctx, verb, ops[1..], end, Perform(o, ctx, verb, ops[0], st)); }
  }

  lemma {:induction false} TighterExecute(o: Oracles, ctx: AuthCtx, verb: string, ops: seq<Op>, ops': seq<Op>, end: Answer,
      st: State)
    requires TighterOps(ops, ops')
    ensures var r, r' := Execute(o, ctx, verb, ops, end, st), Execute(o, ctx, verb, ops', end, st);
            && st.calls <= r'.0.calls <= r.0.calls
            && (r' == r
                || (r'.1 == Ok(AuthDenied(503, None)) && |st.calls| < |r'.0.calls| && Breaks(o.service(r'.0.calls))))
  {
    ExecuteExtendsCalls(o, ctx, verb, ops, end, st);
    if ops != [] {
      var st' := Perform(o, ctx, verb, ops[0], st);
      TighterStep(o, ctx, verb, ops[0], ops'[0], st);
      ExecuteExtendsCalls(o, ctx, verb, ops[1..], end, st');
      if VerdictOf(o, ctx, verb, ops'[0], st) == Pass {
        TighterExecute(o, ctx, verb, ops[1..], ops'[1..], end, st');
      }
    }
  }

  lemma {:induction false} BreakIsSeen(o: Oracles, calls: seq<AuthCall>, asked: seq<AuthCall>, from: nat)
    requires from < |asked| && asked <= calls && Breaks(o.service(asked))
    ensures SomeBreaks(o, calls, from)
  {
    assert calls[..|asked| - 1 + 1] == asked;
    assert Breaks(OutcomeOf(o, calls, |asked| - 1));
  }

  /** Failure-mode monotonicity: closing any set of forward_auth directives changes nothing, or turns the answer into
      503, and then the last subrequest of the tighter run is one that got no decision. The tighter run asks nothing
      that the other does not, and if every subrequest of the original run got a decision the two runs are the same. */
  lemma {:induction false} ClosingOnlyAdds503(o: Oracles, ctx: AuthCtx, verb: string, ds: seq<Directive>,
      ds': seq<Directive>, st: State, path: string, entry: string)
    requires AllTighter(ds, ds')
    ensures var r, r' := Process(o, ctx, verb, ds, st, path, entry), Process(o, ctx, verb, ds', st, path, entry);
            && st.calls <= r'.0.calls <= r.0.calls
            && (r' == r
                || (r'.1 == Ok(AuthDenied(503, None)) && |st.calls| < |r'.0.calls| && Breaks(o.service(r'.0.calls))))
            && (!SomeBreaks(o, r.0.calls, |st.calls|) ==> r' == r)
  {
    TighterRoute(ds, ds', verb, path, entry);
    FlatteningPreservesMeaning(o, ctx, verb, ds, st, path, entry);
    FlatteningPreservesMeaning(o, ctx, verb, ds', st, path, entry);
    var plan, plan' := Route(ds, verb, path, entry), Route(ds', verb, path, entry);
    TighterExecute(o, ctx, verb, plan.ops, plan'.ops, plan.end, st);
    var r, r' := Execute(o, ctx, verb, plan.ops, plan.end, st), Execute(o, ctx, verb, plan'.ops, plan.end, st);
    if r' != r { BreakIsSeen(o, r.0.calls, r'.0.calls, |st.calls|); }
  }

  // ---------------------------------------------------------------------------
  // Paths and queries
  // ---------------------------------------------------------------------------

  /** The path sent to a backend is the client's path after the moves of the executed chain. */
  lemma {:induction false} PathFollowsMoves(ds: seq<Directive>, verb: string, path: string, entry: string)
    ensures var plan := Route(ds, verb, path, entry);
            plan.end.Ok? && plan.end.value.ProxyTo? ==> plan.end.value.pathToSend == ApplyMoves(plan.moves, path)
    decreases ds
  {
    if ds != [] {
      var rest, plan := ds[1..], Route(ds, verb, path, entry);
      match ds[0]
      case UriReplace(find, replace) =>
        PathFollowsMoves(rest, verb, Replace(path, find, replace), entry);
        assert plan.moves[1..] == Route(rest, verb, Replace(path, find, replace), entry).moves;
      case StripPrefix(prefix) =>
        PathFollowsMoves(rest, verb, StripPrefixFrom(prefix, path), entry);
        assert plan.moves[1..] == Route(rest, verb, StripPrefixFrom(prefix, path), entry).moves;
      case HandlePath(pattern, nested) =>
        var remaining := MatchPattern(pattern, path);
        if remaining.Some? {
          PathFollowsMoves(nested, verb, remaining.value, remaining.value);
          assert plan.moves[1..] == Route(nested, verb, remaining.value, remaining.value).moves;
        } else {
          PathFollowsMoves(rest, verb, path, entry);
        }
      case Method(methods, nested) =>
        if HandleMethod(methods, verb) {
          PathFollowsMoves(nested, verb, path, path);
        } else {
          PathFollowsMoves(rest, verb, path, entry);
        }
      case _ => PathFollowsMoves(rest, verb, path, entry);
    }
  }

  /** Every block that a run enters matched where it was entered. */
  lemma {:induction false} EnteredBlocksMatch(ds: seq<Directive>, verb: string, path: string, entry: string)
    requires forall m :: m in Route(ds, verb, path, entry).moves ==> m.Entered? && WildcardPrefix(m.pattern).Some?
    ensures OnlyWildcards(Route(ds, verb, path, entry).moves, path)
    decreases ds
  {
    if ds != [] {
      var rest, plan := ds[1..], Route(ds, verb, path, entry);
      match ds[0]
      case UriReplace(find, replace) =>
      case StripPrefix(prefix) =>
      case HandlePath(pattern, nested) =>
        var remaining := MatchPattern(pattern, path);
        if remaining.Some? {
          assert plan.moves[1..] == Route(nested, verb, remaining.value, remaining.value).moves;
          assert forall m :: m in plan.moves[1..] ==> m in plan.moves;
          assert plan.moves[0] == Entered(pattern);
          EnteredBlocksMatch(nested, verb, remaining.value, remaining.value);
        } else {
          EnteredBlocksMatch(rest, verb, path, entry);
        }
      case Method(methods, nested) =>
        if HandleMethod(methods, verb) {
          EnteredBlocksMatch(nested, verb, path, path);
        } else {
          EnteredBlocksMatch(rest, verb, path, entry);
        }
      case Header(_, _) => EnteredBlocksMatch(rest, verb, path, entry);
      case ForwardAuth(_) => EnteredBlocksMatch(rest, verb, path, entry);
      case Redirect(_, _) =>
      case Respond(_, _) =>
      case ReverseProxy(_, _, _, _) =>
    }
  }

  /** Path conservation: if the executed chain only enters wildcard blocks, the stripped prefixes followed by the path
      sent are the client's path. */
  lemma {:induction false} PathConserved(o: Oracles, ctx: AuthCtx, verb: string, ds: seq<Directive>, st: State,
      path: string)
    requires var answer := Process(o, ctx, verb, ds, st, path, path).1; answer.Ok? && answer.value.ProxyTo?
    requires forall m :: m in Route(ds, verb, path, path).moves ==> m.Entered? && WildcardPrefix(m.pattern).Some?
    ensures var sent := Process(o, ctx, verb, ds, st, path, path).1.value.pathToSend;
            StrippedText(Route(ds, verb, path, path).moves) + sent == path
  {
    var k := AuthGate(o, ctx, verb, ds, st, path, path);
    PathFollowsMoves(ds, verb, path, path);
    EnteredBlocksMatch(ds, verb, path, path);
    WildcardsConservePath(Route(ds, verb, path, path).moves, path);
  }

  /** Query conservation: if no executed `uri_replace` brings in a `?`, the forwarded target reads back as exactly the
      rewritten path and the client's query. */
  lemma {:induction false} QueryConserved(o: Oracles, ctx: AuthCtx, verb: string, ds: seq<Directive>, st: State,
      path: string, query: Option<string>)
    requires '?' !in path
    requires var answer := Process(o, ctx, verb, ds, st, path, path).1; answer.Ok? && answer.value.ProxyTo?
    requires forall m :: m in Route(ds, verb, path, path).moves && m.Replaced? ==> '?' !in m.replace
    ensures var sent := Process(o, ctx, verb, ds, st, path, path).1.value.pathToSend;
            SplitTarget(PathWithQuery(sent, query)) == (sent, query)
  {
    var k := AuthGate(o, ctx, verb, ds, st, path, path);
    PathFollowsMoves(ds, verb, path, path);
    MovesAddNothing(Route(ds, verb, path, path).moves, path, '?');
    QueryConservedExactly(Process(o, ctx, verb, ds, st, path, path).1.value.pathToSend, query);
  }
}
