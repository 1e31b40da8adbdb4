/** From configuration text to running listeners, and from requests to answers while the configuration changes. */
module Startup {
  import opened Basics
  import opened Http
  import opened Config
  import opened ForwardAuth
  import opened Handler
  import opened Listen
  import opened SiteLookup
  import opened Parser
  import opened ParserLoop
  import opened Image
  import Reload

  /** Load a text and plan its listeners: whatever `from_str` accepts, `start_all` can serve, and the plan serves it. */
  method LoadAndPlan(parse: SocketParser, uri: UriParser, load: Loader, content: string)
    returns (r: Result<ListenPlan, ParseError>, ghost order: seq<string>)
    ensures r.Ok? <==> ParseText(parse, uri, content).Ok?
    ensures r.Ok? ==> var sites := ParseText(parse, uri, content).value;
                      && SocketsOk(parse, sites) && KeyedByAddress(sites) && Enumerates(order, sites.Keys)
                      && PlanFor(parse, load, sites, order, r.value)
  {
    order := [];
    var parsed := FromStr(parse, uri, content);
    if parsed.Err? {
      return Err(parsed.error), order;
    }
    ParsedIsExpressible(parse, uri, content);
    var iteration := InSomeOrder(parsed.value.Keys);
    order := iteration;
    SoundIsServable(parse, parsed.value);
    var plan := PlanListeners(parse, load, parsed.value, iteration);
    r := Ok(plan.value);
  }

  // ---------------------------------------------------------------------------
  // Answers while the configuration is exchanged
  // ---------------------------------------------------------------------------

  /** A client request as it enters `proxy`, together with the outside world it meets. */
  datatype Client = Client(verb: string, path: string, headers: HeaderMap, ctx: AuthCtx, world: Oracles,
    isText: string -> bool)

  /** The Host header if it is plain text, else a default. */
  function HostOf(q: Client): string {
    var host := OnlyIf(q.isText, Get(q.headers, HOST));
    if host.Some? then host.value else "localhost"
  }

  datatype Outcome = NoSite(host: string) | Ran(state: State, answer: Answer)

  /** `proxy` up to its action: find the site by host, then run its directives. */
  function ServeIn(sites: Sites, order: seq<string>, q: Client): Outcome
    requires forall k :: k in order ==> k in sites
  {
    var site := FindSite(sites, order, HostOf(q), q.ctx.isTls);
    if site.None? then NoSite(HostOf(q))
    else
      var (st, answer) := Process(q.world, q.ctx, q.verb, site.value.directives, State(q.headers, [], 0), q.path, q.path);
      Ran(st, answer)
  }

  /** The site is looked up by the first Host value if it is plain text, and by `localhost` if there is none. */
  lemma {:induction false} HostRule(q: Client, host: string, more: seq<string>)
    ensures AllValues(q.headers, "host") == Some([host] + more) && q.isText(host) ==> HostOf(q) == host
    ensures AllValues(q.headers, "host") == Some([host] + more) && !q.isText(host) ==> HostOf(q) == "localhost"
    ensures AllValues(q.headers, "host").None? ==> HostOf(q) == "localhost"
  {
    assert ([host] + more)[0] == host;
  }

  /** A request is run on the directives of its site with its own headers, path and method and nothing asked or drawn yet;
      without a site it is not found. */
  lemma {:induction false} ServeRule(sites: Sites, order: seq<string>, q: Client, site: SiteConfig, to: string)
    requires forall k :: k in order ==> k in sites
    ensures FindSite(sites, order, HostOf(q), q.ctx.isTls).None? ==> ServeIn(sites, order, q) == NoSite(HostOf(q))
    ensures FindSite(sites, order, HostOf(q), q.ctx.isTls) == Some(site)
            && site.directives == [Method([q.verb], [ReverseProxy(to, None, None, [])])] ==>
              ServeIn(sites, order, q) == Ran(State(q.headers, [], 0), Ok(ProxyTo(to, q.path, None, None, [])))
    ensures FindSite(sites, order, HostOf(q), q.ctx.isTls) == Some(site) && site.directives == [] ==>
              ServeIn(sites, order, q) == Ran(State(q.headers, [], 0), Err(q.path))
  {
    var st := State(q.headers, [], 0);
    assert [ReverseProxy(to, None, None, [])][0] == ReverseProxy(to, None, None, []);
    assert q.verb in [q.verb];
    assert Process(q.world, q.ctx, q.verb, [ReverseProxy(to, None, None, [])], st, q.path, q.path) ==
           (st, Ok(ProxyTo(to, q.path, None, None, [])));
  }

  ghost function SomeOrder(keys: set<string>): (order: seq<string>)
    ensures Enumerates(order, keys)
  {
    if keys == {} then []
    else
      var k :| k in keys;
      SomeOrder(keys - {k}) + [k]
  }

  ghost function Serve(sites: Sites, q: Client): Outcome { ServeIn(sites, SomeOrder(sites.Keys), q) }

  /** The answer does not depend on how the site map is iterated. */
  lemma {:induction false} ServeIsOrderFree(sites: Sites, order: seq<string>, q: Client)
    requires Enumerates(order, sites.Keys)
    ensures ServeIn(sites, order, q) == Serve(sites, q)
  {
    HostSplitsExactly(HostOf(q), if HasPort(HostOf(q)) then WithoutPort(HostOf(q)) else "");
    FindSiteIsFirstMatch(sites, order, HostOf(q), q.ctx.isTls);
    FindSiteIsFirstMatch(sites, SomeOrder(sites.Keys), HostOf(q), q.ctx.isTls);
  }

  /** Every answer of every interleaving is the run of the directives of the site found in one configuration, in any
      iteration order of it: the configuration in force when that request was loaded. */
  lemma {:induction false} AnswersFollowReload(init: Sites, steps: seq<Reload.Step<Sites, Client>>, k: nat, x: nat)
    returns (j: nat, sites: Sites)
    requires k <= |steps| && x < |Reload.After(Serve, init, steps, k).log|
    ensures j < k && steps[j].Load? && Reload.InForce(init, steps, j, sites)
    ensures forall order :: Enumerates(order, sites.Keys) ==>
              Reload.After(Serve, init, steps, k).log[x] ==
              Reload.Logged(steps[j].connection, steps[j].request, ServeIn(sites, order, steps[j].request))
  {
    var a: nat;
    j, a, sites := Reload.AnswerUsesItsLoad(Serve, init, steps, k, x);
    forall order | Enumerates(order, sites.Keys)
      ensures ServeIn(sites, order, steps[j].request) == Serve(sites, steps[j].request)
    {
      ServeIsOrderFree(sites, order, steps[j].request);
    }
  }

  function OneSite(address: string, body: string): Sites {
    map[address := SiteConfig(address, [Respond(200, body)], None)]
  }

  /** With real configurations: one client sends the same request twice on one connection and sees both of them. */
  lemma {:induction false} ReloadChangesAnswers(address: string, body: string, next: string, connection: nat, q: Client)
    requires HostOf(q) == address
    ensures var log := Reload.After(Serve, OneSite(address, body),
                           Reload.ReloadBetween(OneSite(address, next), connection, q), 6).log;
            && |log| == 2 && log[0].connection == log[1].connection == connection
            && log[0].answer.Ran? && log[0].answer.answer == Ok(RespondWith(200, body))
            && log[1].answer.Ran? && log[1].answer.answer == Ok(RespondWith(200, next))
  {
    Reload.KeptConnectionSeesUpdate(Serve, OneSite(address, body), OneSite(address, next), connection, q);
    var st := State(q.headers, [], 0);
    assert Process(q.world, q.ctx, q.verb, [Respond(200, body)], st, q.path, q.path).1 == Ok(RespondWith(200, body));
    assert Process(q.world, q.ctx, q.verb, [Respond(200, next)], st, q.path, q.path).1 == Ok(RespondWith(200, next));
  }
}
