/** The configuration swap (src/proxy/proxy.rs, src/api/endpoints.rs) as a machine whose steps interleave freely:
    connections stay open over many requests, and each request loads its own snapshot. */
module Reload {
  import opened Basics

  /** What the management API receives: only a body that is read, decoded and parsed carries a configuration. */
  datatype PostBody<C> = Unreadable | NotUtf8 | InvalidJson | Parsed(config: C)

  datatype Step<C, Q> =
    | UpdateConfig(config: C)
    | Post(body: PostBody<C>)
    | Connect(connection: nat)
    | Disconnect(connection: nat)
    | Load(connection: nat, id: nat, request: Q)
    | Answer(id: nat)

  /** A request between its load and its answer. */
  datatype Loaded<C, Q> = Loaded(connection: nat, request: Q, snapshot: C)

  datatype Logged<Q, A> = Logged(connection: nat, request: Q, answer: A)

  datatype State<C, Q, A> =
    State(config: C, open: set<nat>, loaded: map<nat, Loaded<C, Q>>, log: seq<Logged<Q, A>>)

  /** `handle_post_config`: the status it answers with, and the shared configuration afterwards. */
  function HandlePost<C>(body: PostBody<C>, config: C): (nat, C) {
    match body
    case Unreadable => (400, config)
    case NotUtf8 => (400, config)
    case InvalidJson => (400, config)
    case Parsed(next) => (200, next)
  }

  /** Requests arrive on open connections, and only a loaded one whose connection is still open is answered. */
  predicate Enabled<C, Q, A>(st: State<C, Q, A>, step: Step<C, Q>) {
    match step
    case UpdateConfig(_) => true
    case Post(_) => true
    case Connect(connection) => connection !in st.open
    case Disconnect(connection) => connection in st.open
    case Load(connection, id, _) => connection in st.open && id !in st.loaded
    case Answer(id) => id in st.loaded && st.loaded[id].connection in st.open
  }

  /** A step that is not enabled does nothing; `serve` computes an answer from a configuration and a request. */
  function Next<C, Q, A>(serve: (C, Q) -> A, st: State<C, Q, A>, step: Step<C, Q>): State<C, Q, A> {
    if !Enabled(st, step) then st
    else
      match step
      case UpdateConfig(config) => st.(config := config)
      case Post(body) => st.(config := HandlePost(body, st.config).1)
      case Connect(connection) => st.(open := st.open + {connection})
      case Disconnect(connection) =>
        st.(open := st.open - {connection},
            loaded := map id | id in st.loaded && st.loaded[id].connection != connection :: st.loaded[id])
      case Load(connection, id, request) => st.(loaded := st.loaded[id := Loaded(connection, request, st.config)])
      case Answer(id) =>
        var l := st.loaded[id];
        st.(loaded := st.loaded - {id},
            log := st.log + [Logged(l.connection, l.request, serve(l.snapshot, l.request))])
  }

  function Start<C, Q, A>(init: C): State<C, Q, A> { State(init, {}, map[], []) }

  /** The state after the first `k` steps. */
  function After<C, Q, A>(serve: (C, Q) -> A, init: C, steps: seq<Step<C, Q>>, k: nat): State<C, Q, A>
    requires k <= |steps|
  {
    if k == 0 then Start(init) else Next(serve, After(serve, init, steps, k - 1), steps[k - 1])
  }

  /** The configuration that a step puts in force, if it does: a POST answered with 400 puts none. */
  function Stored<C, Q>(step: Step<C, Q>): Option<C> {
    match step
    case UpdateConfig(config) => Some(config)
    case Post(Parsed(config)) => Some(config)
    case _ => None
  }

  /** Step `i` is the last one before `k` that stores, and stores `c`. */
  ghost predicate LastStore<C, Q>(steps: seq<Step<C, Q>>, k: nat, i: nat, c: C)
    requires k <= |steps|
  {
    i < k && Stored(steps[i]) == Some(c) && forall j :: i < j < k ==> Stored(steps[j]).None?
  }

  /** `c` is the configuration in force before step `k`: the last one stored, or the initial one. */
  ghost predicate InForce<C, Q>(init: C, steps: seq<Step<C, Q>>, k: nat, c: C)
    requires k <= |steps|
  {
    || (c == init && forall i :: 0 <= i < k ==> Stored(steps[i]).None?)
    || exists i :: LastStore(steps, k, i, c)
  }

  lemma {:induction false} ConfigIsInForce<C, Q, A>(serve: (C, Q) -> A, init: C, steps: seq<Step<C, Q>>, k: nat)
    requires k <= |steps|
    ensures InForce(init, steps, k, After(serve, init, steps, k).config)
  {
    if k > 0 {
      ConfigIsInForce(serve, init, steps, k - 1);
      var c, before := After(serve, init, steps, k).config, After(serve, init, steps, k - 1).config;
      if Stored(steps[k - 1]).Some? {
        assert LastStore(steps, k, k - 1, c);
      } else {
        assert c == before;
        var n := k - 1;
        if i :| LastStore(steps, n, i, before) { assert LastStore(steps, k, i, c); }
      }
    }
  }

  /** The request is held, with what its load step gave it, on an open connection. */
  ghost predicate Holds<C, Q, A>(st: State<C, Q, A>, id: nat, l: Loaded<C, Q>) {
    id in st.loaded && st.loaded[id] == l && l.connection in st.open
  }

  /** A request that waits for its answer was loaded, and has been held on its open connection ever since. */
  lemma {:induction false} LoadedSince<C, Q, A>(serve: (C, Q) -> A, init: C, steps: seq<Step<C, Q>>, k: nat,
      id: nat) returns (j: nat)
    requires k <= |steps| && id in After(serve, init, steps, k).loaded
    ensures j < k && Enabled(After(serve, init, steps, j), steps[j])
    ensures var l := After(serve, init, steps, k).loaded[id];
            && steps[j] == Load(l.connection, id, l.request) && l.snapshot == After(serve, init, steps, j).config
            && forall m :: j < m <= k ==> Holds(After(serve, init, steps, m), id, l)
    decreases k
  {
    var before, last := After(serve, init, steps, k - 1), steps[k - 1];
    if id !in before.loaded {
      j := k - 1;
    } else {
      j := LoadedSince(serve, init, steps, k - 1, id);
      assert Holds(before, id, before.loaded[id]);
    }
  }

  /** Each answer is computed from one configuration: the one in force when its request was loaded, on the connection
      that the request came on, which is open from the load to the answer. */
  lemma {:induction false} AnswerUsesItsLoad<C, Q, A>(serve: (C, Q) -> A, init: C, steps: seq<Step<C, Q>>, k: nat,
      x: nat) returns (j: nat, a: nat, c: C)
    requires k <= |steps| && x < |After(serve, init, steps, k).log|
    ensures j < a < k && steps[j].Load? && steps[a] == Answer(steps[j].id)
    ensures forall m :: j < m <= a ==> steps[j].connection in After(serve, init, steps, m).open
    ensures InForce(init, steps, j, c)
    ensures After(serve, init, steps, k).log[x] ==
            Logged(steps[j].connection, steps[j].request, serve(c, steps[j].request))
    decreases k
  {
    var before, last := After(serve, init, steps, k - 1), steps[k - 1];
    if x < |before.log| {
      j, a, c := AnswerUsesItsLoad(serve, init, steps, k - 1, x);
    } else {
      a := k - 1;
      j := LoadedSince(serve, init, steps, a, last.id);
      c := before.loaded[last.id].snapshot;
      ConfigIsInForce(serve, init, steps, j);
      forall m | j < m <= a ensures steps[j].connection in After(serve, init, steps, m).open {
        assert Holds(After(serve, init, steps, m), last.id, before.loaded[last.id]);
      }
    }
  }

  /** No stale answers: if a configuration was stored before the load of an answered request, on a new connection or one
      that was open before, the answer is computed from that configuration or one stored later, but before the load. */
  lemma {:induction false} NoStaleAnswer<C, Q, A>(serve: (C, Q) -> A, init: C, steps: seq<Step<C, Q>>, k: nat, x: nat,
      i: nat) returns (j: nat, m: nat, c: C)
    requires k <= |steps| && x < |After(serve, init, steps, k).log|
    requires i < |steps| && Stored(steps[i]).Some?
    ensures j < k && steps[j].Load? && After(serve, init, steps, k).log[x] ==
                                       Logged(steps[j].connection, steps[j].request, serve(c, steps[j].request))
    ensures i < j ==> i <= m && LastStore(steps, j, m, c)
  {
    var a: nat;
    j, a, c := AnswerUsesItsLoad(serve, init, steps, k, x);
    m := 0;
    if i < j { m :| LastStore(steps, j, m, c); }
  }

  /** A POST is answered with 200 and changes the configuration exactly when its body is read, is text and parses; every
      other POST is answered with 400 and changes nothing. */
  lemma {:induction false} PostRule<C>(body: PostBody<C>, config: C)
    ensures forall next :: body == Parsed(next) ==> HandlePost(body, config) == (200, next)
    ensures !body.Parsed? ==> HandlePost(body, config) == (400, config)
  {
  }

  /** A connection that is closed takes its waiting requests with it: none of them can be answered any more. */
  lemma {:induction false} ClosedConnectionAnswersNothing<C, Q, A>(serve: (C, Q) -> A, st: State<C, Q, A>,
      connection: nat, id: nat)
    requires connection in st.open && id in st.loaded && st.loaded[id].connection == connection
    ensures var st' := Next(serve, st, Disconnect(connection));
            && connection !in st'.open && id !in st'.loaded && !Enabled(st', Answer(id)) && st'.log == st.log
            && forall other :: other in st.loaded && st.loaded[other].connection != connection ==>
                                 other in st'.loaded && st'.loaded[other] == st.loaded[other]
  {
  }

  /** The same request twice on one connection, with an update while the first one is being answered. */
  function ReloadBetween<C, Q>(next: C, connection: nat, request: Q): seq<Step<C, Q>> {
    [Connect(connection), Load(connection, 0, request), UpdateConfig(next), Answer(0), Load(connection, 1, request),
     Answer(1)]
  }

  /** A request in flight keeps its snapshot, and the next one on the same connection is answered from the new
      configuration: the two answers to one request on one connection differ exactly when the configurations do on it. */
  lemma {:induction false} KeptConnectionSeesUpdate<C, Q, A>(serve: (C, Q) -> A, init: C, next: C, connection: nat,
      request: Q)
    ensures After(serve, init, ReloadBetween(next, connection, request), 6).log ==
            [Logged(connection, request, serve(init, request)), Logged(connection, request, serve(next, request))]
  {
    var steps := ReloadBetween(next, connection, request);
    var s0 := After(serve, init, steps, 0);
    var s1 := After(serve, init, steps, 1);
    assert s1 == Next(serve, s0, steps[0]);
    var s2 := After(serve, init, steps, 2);
    assert s2 == Next(serve, s1, steps[1]);
    var s3 := After(serve, init, steps, 3);
    assert s3 == Next(serve, s2, steps[2]);
    var s4 := After(serve, init, steps, 4);
    assert s4 == Next(serve, s3, steps[3]);
    assert s4.log == [Logged(connection, request, serve(init, request))] && 1 !in s4.loaded;
    var s5 := After(serve, init, steps, 5);
    assert s5 == Next(serve, s4, steps[4]);
    assert After(serve, init, steps, 6) == Next(serve, s5, steps[5]);
  }
}
