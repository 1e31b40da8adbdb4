/** Names that refer to names: chains of references, their depth, and circular ones. */
module Graphs {
  import opened Basics

  type Edges = string -> set<string>

  /** Names that can be followed one after the other, starting among `from`. */
  predicate Chain(edges: Edges, from: set<string>, p: seq<string>)
    decreases |p|
  {
    p == [] || (p[0] in from && Chain(edges, edges(p[0]), p[1..]))
  }

  /** No more than `d` names can be followed one after the other. */
  predicate Shallow(edges: Edges, from: set<string>, d: nat)
    decreases d
  {
    forall x :: x in from ==> d > 0 && Shallow(edges, edges(x), d - 1)
  }

  /** Following names, some name comes back: it reaches itself. */
  ghost predicate Circular(edges: Edges, from: set<string>) {
    exists p :: Chain(edges, from, p) && !NoRepeats(p)
  }

  lemma {:induction false} ShallowStays(edges: Edges, from: set<string>, d: nat)
    requires Shallow(edges, from, d)
    ensures Shallow(edges, from, d + 1)
    decreases d
  {
    forall x | x in from ensures Shallow(edges, edges(x), d) { ShallowStays(edges, edges(x), d - 1); }
  }

  lemma {:induction false} ChainCons(edges: Edges, from: set<string>, x: string, p: seq<string>)
    requires x in from && Chain(edges, edges(x), p)
    ensures Chain(edges, from, [x] + p)
  {
    assert ([x] + p)[1..] == p;
  }

  /** Every name that can be reached passes the test. */
  ghost predicate AllReached(edges: Edges, from: set<string>, ok: string -> bool) {
    forall p :: p != [] && Chain(edges, from, p) ==> ok(p[|p| - 1])
  }

  lemma {:induction false} ReachedBelow(edges: Edges, from: set<string>, ok: string -> bool, x: string)
    requires AllReached(edges, from, ok) && x in from
    ensures ok(x) && AllReached(edges, edges(x), ok)
  {
    ChainCons(edges, from, x, []);
    assert ([x] + [])[|[x] + []| - 1] == x;
    forall p | p != [] && Chain(edges, edges(x), p) ensures ok(p[|p| - 1]) {
      ChainCons(edges, from, x, p);
      assert ([x] + p)[|[x] + p| - 1] == p[|p| - 1];
    }
  }

  lemma {:induction false} FewerAreShallow(edges: Edges, from: set<string>, from': set<string>, d: nat)
    requires Shallow(edges, from, d) && from' <= from
    ensures Shallow(edges, from', d)
  {
  }

  lemma {:induction false} FewerReachLess(edges: Edges, from: set<string>, from': set<string>, ok: string -> bool)
    requires AllReached(edges, from, ok) && from' <= from
    ensures AllReached(edges, from', ok)
  {
    forall p | p != [] && Chain(edges, from', p) ensures ok(p[|p| - 1]) { assert Chain(edges, from, p); }
  }

  lemma {:induction false} ShallowBelow(edges: Edges, from: set<string>, x: string, d: nat)
    requires Shallow(edges, from, d) && x in from
    ensures d > 0 && Shallow(edges, edges(x), d - 1)
  {
  }

  lemma {:induction false} ShallowChains(edges: Edges, from: set<string>, p: seq<string>, d: nat)
    requires Shallow(edges, from, d) && Chain(edges, from, p)
    ensures |p| <= d
    decreases |p|
  {
    if p != [] { ShallowChains(edges, edges(p[0]), p[1..], d - 1); }
  }

  lemma {:induction false} ChainJoin(edges: Edges, from: set<string>, p: seq<string>, x: string, p': seq<string>)
    requires p != [] && p[|p| - 1] == x && Chain(edges, from, p) && Chain(edges, edges(x), p')
    ensures Chain(edges, from, p + p')
    decreases |p|
  {
    assert (p + p')[1..] == p[1..] + p';
    if |p| > 1 {
      ChainJoin(edges, edges(p[0]), p[1..], x, p');
    } else {
      assert p[1..] + p' == p';
    }
  }

  lemma {:induction false} ChainTail(edges: Edges, from: set<string>, p: seq<string>, i: nat)
    requires Chain(edges, from, p) && i < |p|
    ensures Chain(edges, edges(p[i]), p[i + 1..])
    decreases i
  {
    if i > 0 {
      ChainTail(edges, edges(p[0]), p[1..], i - 1);
      assert p[1..][i..] == p[i + 1..];
    }
  }

  lemma {:induction false} ChainHead(edges: Edges, from: set<string>, p: seq<string>, i: nat)
    requires Chain(edges, from, p) && i <= |p|
    ensures Chain(edges, from, p[..i])
    decreases i
  {
    if i > 0 {
      ChainHead(edges, edges(p[0]), p[1..], i - 1);
      assert p[..i][1..] == p[1..][..i - 1];
    }
  }

  /** A name that leads back to itself can be followed for ever. */
  lemma {:induction false} GoRound(edges: Edges, x: string, loop: seq<string>, n: nat) returns (p: seq<string>)
    requires loop != [] && Chain(edges, edges(x), loop) && loop[|loop| - 1] == x
    ensures |p| >= n && Chain(edges, edges(x), p)
    decreases n
  {
    if n == 0 {
      p := [];
    } else {
      var more := GoRound(edges, x, loop, n - 1);
      ChainJoin(edges, edges(x), loop, x, more);
      p := loop + more;
    }
  }

  lemma {:induction false} CircularIsDeep(edges: Edges, from: set<string>, d: nat)
    requires Circular(edges, from)
    ensures !Shallow(edges, from, d)
  {
    var p :| Chain(edges, from, p) && !NoRepeats(p);
    var i, j :| 0 <= i < j < |p| && p[i] == p[j];
    ChainTail(edges, from, p, i);
    ChainHead(edges, edges(p[i]), p[i + 1..], j - i);
    var rounds := GoRound(edges, p[i], p[i + 1..][..j - i], d);
    ChainHead(edges, from, p, i + 1);
    ChainJoin(edges, from, p[..i + 1], p[i], rounds);
    if Shallow(edges, from, d) {
      ShallowChains(edges, from, p[..i + 1] + rounds, d);
      assert false;
    }
  }

  lemma {:induction false} DeepHasChain(edges: Edges, from: set<string>, d: nat) returns (p: seq<string>)
    requires !Shallow(edges, from, d)
    ensures |p| == d + 1 && Chain(edges, from, p)
    decreases d
  {
    var x :| x in from && (d == 0 || !Shallow(edges, edges(x), d - 1));
    var rest := [];
    if d > 0 { rest := DeepHasChain(edges, edges(x), d - 1); }
    p := [x] + rest;
    ChainCons(edges, from, x, rest);
  }

  lemma {:induction false} ChainStaysIn(edges: Edges, from: set<string>, p: seq<string>, names: set<string>)
    requires Chain(edges, from, p) && from <= names && forall x :: edges(x) <= names
    ensures forall x :: x in p ==> x in names
    decreases |p|
  {
    if p != [] {
      ChainStaysIn(edges, edges(p[0]), p[1..], names);
      assert p == [p[0]] + p[1..];
    }
  }

  /** Among finitely many names, the depth is bounded if and only if no name that can be reached reaches itself. */
  lemma {:induction false} ShallowUnlessCircular(edges: Edges, from: set<string>, names: set<string>)
    requires forall x :: edges(x) <= names
    ensures (exists d: nat :: Shallow(edges, from, d)) <==> !Circular(edges, from)
  {
    if Circular(edges, from) {
      forall d: nat ensures !Shallow(edges, from, d) { CircularIsDeep(edges, from, d); }
    } else {
      var all := names + from;
      if !Shallow(edges, from, |all|) {
        var p := DeepHasChain(edges, from, |all|);
        ChainStaysIn(edges, from, p, all);
        assert NoRepeats(p);
        NoRepeatsFit(p, all);
        assert false;
      }
      assert Shallow(edges, from, |all|);
    }
  }
}
