/** Which directives of a tree a request executes, said without an interpreter: a chain of positions, one per
    nesting level, each the first directive of its level that a request does not simply walk past. */
module Chains {
  import opened Basics
  import opened Config
  import opened Paths
  import opened Handler

  predicate IsTerminal(d: Directive) {
    d.Redirect? || d.Respond? || d.ReverseProxy?
  }

  predicate EntersBlock(d: Directive, verb: string, path: string) {
    (d.HandlePath? && MatchPattern(d.pattern, path).Some?) || (d.Method? && HandleMethod(d.methods, verb))
  }

  function Rewritten(d: Directive, path: string): string {
    match d
    case UriReplace(find, replace) => Replace(path, find, replace)
    case StripPrefix(prefix) => StripPrefixFrom(prefix, path)
    case _ => path
  }

  /** The path in front of directive `i`. */
  function PathAt(ds: seq<Directive>, i: nat, path: string): string
    requires i <= |ds|
  {
    if i == 0 then path else PathAt(ds[1..], i - 1, Rewritten(ds[0], path))
  }

  function PathInside(d: Directive, verb: string, path: string): string
    requires EntersBlock(d, verb, path)
  {
    if d.HandlePath? then MatchPattern(d.pattern, path).value else path
  }

  ghost predicate ExecutedChain(ds: seq<Directive>, verb: string, path: string, chain: seq<nat>)
    decreases |chain|
  {
    && chain != [] && chain[0] <= |ds|
    && (forall j :: 0 <= j < chain[0] ==> !IsTerminal(ds[j]) && !EntersBlock(ds[j], verb, PathAt(ds, j, path)))
    && if chain[0] == |ds| || IsTerminal(ds[chain[0]]) then |chain| == 1
       else
         var d, here := ds[chain[0]], PathAt(ds, chain[0], path);
         EntersBlock(d, verb, here) && ExecutedChain(d.directives, verb, PathInside(d, verb, here), chain[1..])
  }

  function OwnOps(d: Directive): seq<Op> {
    match d
    case Header(name, value) => [PutHeader(name, value)]
    case ForwardAuth(cfg) => [Authorize(cfg)]
    case _ => []
  }

  /** The header and auth directives at one level, in order. */
  function LevelOps(ds: seq<Directive>): seq<Op> {
    if ds == [] then [] else OwnOps(ds[0]) + LevelOps(ds[1..])
  }

  /** The header and auth directives in front of the chain's positions, outermost level first. */
  ghost function OpsAlong(ds: seq<Directive>, verb: string, path: string, chain: seq<nat>): seq<Op>
    requires ExecutedChain(ds, verb, path, chain)
    decreases |chain|, 1
  {
    LevelOps(ds[..chain[0]]) + DeeperOps(ds, verb, path, chain)
  }

  /** The operations in front of the deeper positions of a chain. */
  ghost function DeeperOps(ds: seq<Directive>, verb: string, path: string, chain: seq<nat>): seq<Op>
    requires ExecutedChain(ds, verb, path, chain)
    decreases |chain|, 0
  {
    if |chain| == 1 then []
    else
      var d, here := ds[chain[0]], PathAt(ds, chain[0], path);
      OpsAlong(d.directives, verb, PathInside(d, verb, here), chain[1..])
  }

  /** A request has one chain only. */
  lemma {:induction false} ChainIsUnique(ds: seq<Directive>, verb: string, path: string, chain: seq<nat>, chain': seq<nat>)
    requires ExecutedChain(ds, verb, path, chain) && ExecutedChain(ds, verb, path, chain')
    ensures chain == chain'
    decreases |chain|
  {
    assert chain[0] == chain'[0];
    if |chain| > 1 {
      var d, here := ds[chain[0]], PathAt(ds, chain[0], path);
      ChainIsUnique(d.directives, verb, PathInside(d, verb, here), chain[1..], chain'[1..]);
    }
    assert chain == [chain[0]] + chain[1..] && chain' == [chain'[0]] + chain'[1..];
  }

  function Shifted(rest: seq<nat>): seq<nat>
    requires rest != []
  {
    [rest[0] + 1] + rest[1..]
  }

  lemma {:induction false} WalkPastFirst(ds: seq<Directive>, verb: string, path: string, i: nat)
    requires ds != [] && i < |ds| && !IsTerminal(ds[0]) && !EntersBlock(ds[0], verb, path)
    requires forall j :: 0 <= j < i ==>
               !IsTerminal(ds[1..][j]) && !EntersBlock(ds[1..][j], verb, PathAt(ds[1..], j, Rewritten(ds[0], path)))
    ensures forall j :: 0 <= j < i + 1 ==> !IsTerminal(ds[j]) && !EntersBlock(ds[j], verb, PathAt(ds, j, path))
  {
    forall j | 0 <= j < i + 1 ensures !IsTerminal(ds[j]) && !EntersBlock(ds[j], verb, PathAt(ds, j, path)) {
      if j > 0 { assert ds[1..][j - 1] == ds[j]; }
    }
  }

  /** Prefixing a directive that the request walks past moves its chain by one. */
  lemma {:induction false} WalkPast(ds: seq<Directive>, verb: string, path: string, rest: seq<nat>)
    requires ds != [] && !IsTerminal(ds[0]) && !EntersBlock(ds[0], verb, path)
    requires ExecutedChain(ds[1..], verb, Rewritten(ds[0], path), rest)
    ensures ExecutedChain(ds, verb, path, Shifted(rest))
  {
    var chain := Shifted(rest);
    assert chain[1..] == rest[1..];
    WalkPastFirst(ds, verb, path, rest[0]);
  }

  lemma {:induction false} LevelOpsShift(ds: seq<Directive>, i: nat)
    requires ds != [] && i < |ds|
    ensures LevelOps(ds[..i + 1]) == OwnOps(ds[0]) + LevelOps(ds[1..][..i])
  {
    assert ds[..i + 1][0] == ds[0] && ds[..i + 1][1..] == ds[1..][..i];
  }

  lemma Associate(a: seq<Op>, b: seq<Op>, c: seq<Op>)
    ensures (a + b) + c == a + (b + c)
  {
  }

  lemma {:induction false} DeeperOpsShift(ds: seq<Directive>, verb: string, path: string, rest: seq<nat>)
    requires ds != [] && ExecutedChain(ds[1..], verb, Rewritten(ds[0], path), rest) && ExecutedChain(ds, verb, path,
        Shifted(rest))
    ensures DeeperOps(ds, verb, path, Shifted(rest)) == DeeperOps(ds[1..], verb, Rewritten(ds[0], path), rest)
  {
    assert Shifted(rest)[1..] == rest[1..];
    if |rest| > 1 { assert ds[rest[0] + 1] == ds[1..][rest[0]]; }
  }

  lemma {:induction false} WalkPastOps(ds: seq<Directive>, verb: string, path: string, rest: seq<nat>)
    requires ds != [] && ExecutedChain(ds[1..], verb, Rewritten(ds[0], path), rest) && ExecutedChain(ds, verb, path,
        Shifted(rest))
    ensures OpsAlong(ds, verb, path, Shifted(rest)) == OwnOps(ds[0]) + OpsAlong(ds[1..], verb, Rewritten(ds[0], path), rest)
  {
    LevelOpsShift(ds, rest[0]);
    DeeperOpsShift(ds, verb, path, rest);
    Associate(OwnOps(ds[0]), LevelOps(ds[1..][..rest[0]]), DeeperOps(ds[1..], verb, Rewritten(ds[0], path), rest));
  }

  /** The router finds exactly the executed chain: its operations are the header and auth directives in front of it. */
  lemma {:induction false} RouteFollowsChain(ds: seq<Directive>, verb: string, path: string,
      entry: string) returns (chain: seq<nat>)
    ensures ExecutedChain(ds, verb, path, chain)
    ensures Route(ds, verb, path, entry).ops == OpsAlong(ds, verb, path, chain)
    decreases ds
  {
    if ds == [] || IsTerminal(ds[0]) {
      chain := [0];
    } else if EntersBlock(ds[0], verb, path) {
      var inside := PathInside(ds[0], verb, path);
      var nested := RouteFollowsChain(ds[0].directives, verb, inside, inside);
      chain := [0] + nested;
      assert chain[1..] == nested;
    } else {
      var rest := RouteFollowsChain(ds[1..], verb, Rewritten(ds[0], path), entry);
      WalkPast(ds, verb, path, rest);
      WalkPastOps(ds, verb, path, rest);
      chain := Shifted(rest);
    }
  }
}
