/** Nothing that the parser accepts is lost, moved or reordered. */
module Conservation {
  import opened Basics
  import opened Config
  import opened Text
  import opened Parser
  import opened Printer
  import opened RoundTrip

  /** A block that encloses a directive. */
  datatype Frame = PathFrame(pattern: string) | MethodFrame(methods: seq<string>) | OtherFrame(kind: string)

  /** A directive without nested directives, under its chain of enclosing blocks, outermost first. */
  datatype Leaf = Leaf(chain: seq<Frame>, directive: Directive)

  // ---------------------------------------------------------------------------
  // The leaves of trees and of the parser's stacks
  // ---------------------------------------------------------------------------

  function Leaves(chain: seq<Frame>, ds: seq<Directive>): seq<Leaf>
    decreases ds
  {
    if ds == [] then []
    else
      (if ds[0].HandlePath? then Leaves(chain + [PathFrame(ds[0].pattern)], ds[0].directives)
       else if ds[0].Method? then Leaves(chain + [MethodFrame(ds[0].methods)], ds[0].directives)
       else [Leaf(chain, ds[0])]) + Leaves(chain, ds[1..])
  }

  lemma {:induction false} LeavesConcat(chain: seq<Frame>, a: seq<Directive>, b: seq<Directive>)
    ensures Leaves(chain, a + b) == Leaves(chain, a) + Leaves(chain, b)
    decreases |a|
  {
    if a == [] {
      assert a + b == b;
    } else {
      assert (a + b)[0] == a[0] && (a + b)[1..] == a[1..] + b;
      LeavesConcat(chain, a[1..], b);
    }
  }

  lemma {:induction false} LeavesOfOne(chain: seq<Frame>, d: Directive)
    ensures Leaves(chain, [d]) ==
            if d.HandlePath? then Leaves(chain + [PathFrame(d.pattern)], d.directives)
            else if d.Method? then Leaves(chain + [MethodFrame(d.methods)], d.directives)
            else [Leaf(chain, d)]
  {
    assert Leaves(chain, [d][1..]) == [];
  }

  function FrameOf(b: PendingBlock): Frame {
    if b.kind == "handle_path" then PathFrame(FirstOr(b.args, ""))
    else if b.kind == "method" then MethodFrame(b.args)
    else OtherFrame(b.kind)
  }

  function Chain(blocks: seq<PendingBlock>): seq<Frame> {
    if blocks == [] then [] else Chain(blocks[..|blocks| - 1]) + [FrameOf(blocks[|blocks| - 1])]
  }

  /** The directive stack, bottom to top, each level under the blocks below it. */
  function StackLeaves(blocks: seq<PendingBlock>, stack: seq<seq<Directive>>): seq<Leaf>
    requires |stack| == |blocks| + 1
    decreases |blocks|
  {
    if blocks == [] then Leaves([], stack[0])
    else StackLeaves(blocks[..|blocks| - 1], stack[..|stack| - 1]) + Leaves(Chain(blocks), stack[|stack| - 1])
  }

  lemma {:induction false} AppendLeaves(blocks: seq<PendingBlock>, stack: seq<seq<Directive>>, d: Directive)
    requires |stack| == |blocks| + 1
    ensures StackLeaves(blocks, Append(stack, d)) == StackLeaves(blocks, stack) + Leaves(Chain(blocks), [d])
  {
    LeavesConcat(Chain(blocks), stack[|stack| - 1], [d]);
    assert Append(stack, d)[..|stack| - 1] == stack[..|stack| - 1];
  }

  lemma {:induction false} SameFrames(blocks: seq<PendingBlock>, b: PendingBlock, stack: seq<seq<Directive>>)
    requires blocks != [] && |stack| == |blocks| + 1 && FrameOf(b) == FrameOf(blocks[|blocks| - 1])
    ensures StackLeaves(blocks[|blocks| - 1 := b], stack) == StackLeaves(blocks, stack)
  {
    var blocks' := blocks[|blocks| - 1 := b];
    assert blocks'[..|blocks| - 1] == blocks[..|blocks| - 1];
  }

  // ---------------------------------------------------------------------------
  // What one line contributes
  // ---------------------------------------------------------------------------

  predicate ClosesBlock(st: PState, ts: seq<string>) {
    !Skipped(ts) && !OpensBlock(ts) && ts == ["}"] && |st.directives| > 1 && st.blocks != []
  }

  predicate ClosesSite(st: PState, ts: seq<string>) {
    !Skipped(ts) && !OpensBlock(ts) && ts == ["}"] && |st.directives| == 1 && st.address.Some?
  }

  /** The site that a line closes, if it does. */
  function SitesClosed(st: PState, ts: seq<string>): seq<SiteConfig> {
    if ClosesSite(st, ts) then [SiteConfig(st.address.value, st.directives[0], st.tls)] else []
  }

  predicate IsSetting(st: PState, name: string) {
    || (st.blocks != []
        && (st.blocks[|st.blocks| - 1].kind == "forward_auth" || st.blocks[|st.blocks| - 1].kind == "reverse_proxy"))
    || (name == "tls" && st.blocks == [])
  }

  /** The directive that a line completes, under the blocks that enclose the line: a directive of its own, or a
      reverse_proxy or forward_auth block that it closes. */
  function Accepted(uri: UriParser, st: PState, ts: seq<string>): seq<Leaf> {
    if Skipped(ts) || OpensBlock(ts) then []
    else if ts == ["}"] then
      if !ClosesBlock(st, ts) then []
      else
        var top := st.blocks[|st.blocks| - 1];
        var done := Finish(uri, top, st.directives[|st.directives| - 1]);
        if (top.kind == "reverse_proxy" || top.kind == "forward_auth") && done.Ok?
        then [Leaf(Chain(st.blocks[..|st.blocks| - 1]), done.value)] else []
    else if IsSetting(st, ts[0]) then []
    else
      var d := SimpleDirective(ts[0], ts[1..]);
      if d.Ok? then [Leaf(Chain(st.blocks), d.value)] else []
  }

  /** The leaves that a line drops: those inside a reverse_proxy block that it closes. */
  function Dropped(st: PState, ts: seq<string>): seq<Leaf> {
    if ClosesBlock(st, ts) && st.blocks[|st.blocks| - 1].kind == "reverse_proxy"
    then Leaves(Chain(st.blocks), st.directives[|st.directives| - 1]) else []
  }

  function SiteLeaves(closed: seq<SiteConfig>): seq<Leaf> {
    if closed == [] then [] else Leaves([], closed[0].directives) + SiteLeaves(closed[1..])
  }

  function Pending(st: PState): seq<Leaf>
    requires |st.directives| == |st.blocks| + 1
  {
    StackLeaves(st.blocks, st.directives)
  }

  lemma {:induction false} CloseConserves(uri: UriParser, st: PState)
    requires Inv(st) && st.blocks != [] && CloseBrace(uri, st).Ok?
    ensures var st', n := CloseBrace(uri, st).value, |st.blocks| - 1;
            var kept := StackLeaves(st.blocks[..n], st.directives[..n + 1]);
            var inner := Leaves(Chain(st.blocks), st.directives[n + 1]);
            && Pending(st) == kept + inner
            && Pending(st') == kept + (if st.blocks[n].kind == "handle_path" || st.blocks[n].kind == "method" then inner
                                       else [Leaf(Chain(st.blocks[..n]),
                                           Finish(uri, st.blocks[n], st.directives[n + 1]).value)])
            && (st.blocks[n].kind == "forward_auth" ==> inner == [])
  {
    var n := |st.blocks| - 1;
    var done := Finish(uri, st.blocks[n], st.directives[n + 1]).value;
    AppendLeaves(st.blocks[..n], st.directives[..n + 1], done);
    LeavesOfOne(Chain(st.blocks[..n]), done);
  }

  lemma SimpleIsLeaf(name: string, args: seq<string>)
    requires SimpleDirective(name, args).Ok?
    ensures !SimpleDirective(name, args).value.HandlePath? && !SimpleDirective(name, args).value.Method?
  {
  }

  lemma ProxySettingKeepsFrame(b: PendingBlock, name: string, args: seq<string>)
    requires ProxySetting(b, name, args).Ok?
    ensures FrameOf(ProxySetting(b, name, args).value) == FrameOf(b)
  {
  }

  lemma {:induction false} PlainConserves(uri: UriParser, st: PState, name: string, args: seq<string>)
    requires Inv(st) && PlainLine(st, name, args).Ok?
    ensures var st' := PlainLine(st, name, args).value;
            |st'.directives| == |st'.blocks| + 1 &&
            Pending(st') == Pending(st) + if IsSetting(st, name) then []
                else [Leaf(Chain(st.blocks), SimpleDirective(name, args).value)]
  {
    if st.blocks != [] && IsSetting(st, name) {
      var top := st.blocks[|st.blocks| - 1];
      if top.kind == "forward_auth" {
        SameFrames(st.blocks, top.(auth := Some(AuthSetting(top.auth.value, name, args).value)), st.directives);
      } else {
        ProxySettingKeepsFrame(top, name, args);
        SameFrames(st.blocks, ProxySetting(top, name, args).value, st.directives);
      }
    } else if !IsSetting(st, name) {
      var d := SimpleDirective(name, args).value;
      SimpleIsLeaf(name, args);
      AppendLeaves(st.blocks, st.directives, d);
      LeavesOfOne(Chain(st.blocks), d);
    }
  }

  lemma {:induction false} PushLeaves(blocks: seq<PendingBlock>, stack: seq<seq<Directive>>, b: PendingBlock)
    requires |stack| == |blocks| + 1
    ensures StackLeaves(blocks + [b], stack + [[]]) == StackLeaves(blocks, stack)
  {
    assert (blocks + [b])[..|blocks|] == blocks && (stack + [[]])[..|stack|] == stack && (stack + [[]])[|stack|] == [];
    assert StackLeaves(blocks, stack) + [] == StackLeaves(blocks, stack);
  }

  lemma {:induction false} OpenConserves(st: PState, ts: seq<string>)
    requires Inv(st) && ts != []
    ensures Pending(OpenBrace(st, ts)) == Pending(st)
  {
    PushLeaves(st.blocks, st.directives, NewBlock(ts));
  }

  /** What was pending, and what is completed, is afterwards closed or pending, in the same order, unless leaves are
      dropped; and dropped leaves are really missing. */
  predicate Balanced(closed: seq<Leaf>, after: seq<Leaf>, before: seq<Leaf>, accepted: seq<Leaf>, dropped: seq<Leaf>) {
    && (dropped == [] ==> closed + after == before + accepted)
    && |closed| + |after| + |dropped| == |before| + |accepted|
  }

  lemma {:induction false} CloseBlockBalanced(uri: UriParser, st: PState)
    requires Inv(st) && st.blocks != [] && CloseBrace(uri, st).Ok?
    ensures Inv(CloseBrace(uri, st).value)
    ensures Balanced([], Pending(CloseBrace(uri, st).value), Pending(st), Accepted(uri, st, ["}"]), Dropped(st, ["}"]))
  {
    CloseBraceKeeps(uri, st);
    CloseConserves(uri, st);
    assert ClosesBlock(st, ["}"]);
    var n := |st.blocks| - 1;
    var kept := StackLeaves(st.blocks[..n], st.directives[..n + 1]);
    assert kept + [] == kept;
  }

  lemma {:induction false} CloseSiteBalanced(uri: UriParser, st: PState)
    requires Inv(st) && st.blocks == [] && CloseBrace(uri, st).Ok?
    ensures Inv(CloseBrace(uri, st).value)
    ensures Balanced(SiteLeaves(SitesClosed(st, ["}"])), Pending(CloseBrace(uri, st).value), Pending(st), [], [])
  {
    CloseBraceKeeps(uri, st);
    var closed := SitesClosed(st, ["}"]);
    if st.address.Some? {
      assert ClosesSite(st, ["}"]);
      assert SiteLeaves(closed[1..]) == [];
    }
  }

  lemma {:induction false} StepConserves(uri: UriParser, st: PState, ts: seq<string>)
    requires Inv(st) && Step(uri, st, ts).Ok?
    ensures Inv(Step(uri, st, ts).value)
    ensures Balanced(SiteLeaves(SitesClosed(st, ts)), Pending(Step(uri, st, ts).value), Pending(st),
        Accepted(uri, st, ts), Dropped(st, ts))
  {
    StepIsSafe(uri, st, ts);
    if Skipped(ts) {
    } else if OpensBlock(ts) {
      OpenConserves(st, ts);
    } else if ts == ["}"] {
      if st.blocks != [] { CloseBlockBalanced(uri, st); } else { CloseSiteBalanced(uri, st); }
    } else {
      PlainConserves(uri, st, ts[0], ts[1..]);
    }
  }

  // ---------------------------------------------------------------------------
  // Whole runs
  // ---------------------------------------------------------------------------

  /** What a run of the parser over some lines closed (in closing order), accepted and dropped. */
  datatype History = History(closed: seq<SiteConfig>, accepted: seq<Leaf>, dropped: seq<Leaf>)

  function HistoryOf(uri: UriParser, st: PState, lines: seq<Line>): History
    decreases |lines|
  {
    if lines == [] || Step(uri, st, lines[0]).Err? then History([], [], [])
    else
      var rest := HistoryOf(uri, Step(uri, st, lines[0]).value, lines[1..]);
      History(SitesClosed(st, lines[0]) + rest.closed, Accepted(uri, st, lines[0]) + rest.accepted, Dropped(st, lines[0])
          + rest.dropped)
  }

  lemma {:induction false} SiteLeavesConcat(a: seq<SiteConfig>, b: seq<SiteConfig>)
    ensures SiteLeaves(a + b) == SiteLeaves(a) + SiteLeaves(b)
  {
    if a == [] {
      assert a + b == b;
    } else {
      assert (a + b)[1..] == a[1..] + b;
      SiteLeavesConcat(a[1..], b);
    }
  }

  lemma {:induction false} Assemble(c: seq<Leaf>, c': seq<Leaf>, end: seq<Leaf>, mid: seq<Leaf>, start: seq<Leaf>,
      a: seq<Leaf>, a': seq<Leaf>, d: seq<Leaf>, d': seq<Leaf>)
    requires Balanced(c, mid, start, a, d) && Balanced(c', end, mid, a', d')
    ensures Balanced(c + c', end, start, a + a', d + d')
  {
    if d + d' == [] {
      assert d == [] && d' == [];
      calc {
        (c + c') + end;
        c + (c' + end);
        c + (mid + a');
        (c + mid) + a';
        (start + a) + a';
        start + (a + a');
      }
    }
  }

  lemma {:induction false} RunConserves(uri: UriParser, st: PState, lines: seq<Line>)
    requires Inv(st) && RunLines(uri, st, lines).Ok?
    ensures var end, h := RunLines(uri, st, lines).value, HistoryOf(uri, st, lines);
            Inv(end) && Balanced(SiteLeaves(h.closed), Pending(end), Pending(st), h.accepted, h.dropped)
    decreases |lines|
  {
    if lines != [] {
      var ts := lines[0];
      StepConserves(uri, st, ts);
      var mid := Step(uri, st, ts).value;
      RunConserves(uri, mid, lines[1..]);
      var end, rest := RunLines(uri, st, lines).value, HistoryOf(uri, mid, lines[1..]);
      SiteLeavesConcat(SitesClosed(st, ts), rest.closed);
      Assemble(SiteLeaves(SitesClosed(st, ts)), SiteLeaves(rest.closed), Pending(end), Pending(mid), Pending(st),
          Accepted(uri, st, ts), rest.accepted,
               Dropped(st, ts), rest.dropped);
    }
  }

  /** Source-order conservation, over every text: the leaves of the closed sites in closing order, followed by the
      stack from bottom to top, are the accepted directives in source order under their enclosing blocks,
      if and only if no reverse_proxy block was closed over nested directives. */
  lemma {:induction false} SourceOrderConserved(uri: UriParser, content: string)
    requires RunLines(uri, INITIAL, Lines(content)).Ok?
    ensures var end, h := RunLines(uri, INITIAL, Lines(content)).value, HistoryOf(uri, INITIAL, Lines(content));
            && Inv(end)
            && (SiteLeaves(h.closed) + Pending(end) == h.accepted <==> h.dropped == [])
  {
    RunConserves(uri, INITIAL, Lines(content));
    assert Pending(INITIAL) == [];
    assert [] + HistoryOf(uri, INITIAL, Lines(content)).accepted == HistoryOf(uri, INITIAL, Lines(content)).accepted;
  }

  lemma SitesAfterStep(uri: UriParser, st: PState, ts: seq<string>)
    requires Inv(st) && Step(uri, st, ts).Ok?
    ensures Step(uri, st, ts).value.sites ==
            if ClosesSite(st, ts) then st.sites[st.address.value := SitesClosed(st, ts)[0]] else st.sites
    ensures ClosesSite(st, ts) ==> st.address.value !in st.sites
  {
  }

  /** `after` has the entries of `before` and the closed sites, each under its own address, and nothing else. */
  ghost predicate Stored(before: Sites, closed: seq<SiteConfig>, after: Sites) {
    && (forall site :: site in closed ==> site.address in after && after[site.address] == site)
    && (forall a :: a in before ==> a in after && after[a] == before[a])
    && (forall a :: a in after && a !in before ==> after[a] in closed)
    && |after| == |before| + |closed|
  }

  lemma {:induction false} StoreOne(before: Sites, site: SiteConfig, closed: seq<SiteConfig>, after: Sites)
    requires site.address !in before && Stored(before[site.address := site], closed, after)
    ensures Stored(before, [site] + closed, after)
  {
    var mid := before[site.address := site];
    assert site.address in mid && mid[site.address] == site;
    forall a | a in after && a !in before ensures after[a] in [site] + closed {
      if a != site.address { assert a !in mid; }
    }
  }

  /** The closed sites of a run are exactly the entries it adds to the site map, each under its own address. */
  lemma {:induction false} ClosedSitesAreStored(uri: UriParser, st: PState, lines: seq<Line>)
    requires Inv(st) && RunLines(uri, st, lines).Ok?
    ensures Stored(st.sites, HistoryOf(uri, st, lines).closed, RunLines(uri, st, lines).value.sites)
    decreases |lines|
  {
    if lines != [] {
      var mid := Step(uri, st, lines[0]).value;
      StepIsSafe(uri, st, lines[0]);
      SitesAfterStep(uri, st, lines[0]);
      ClosedSitesAreStored(uri, mid, lines[1..]);
      var closed := HistoryOf(uri, mid, lines[1..]).closed;
      if ClosesSite(st, lines[0]) {
        StoreOne(st.sites, SitesClosed(st, lines[0])[0], closed, RunLines(uri, st, lines).value.sites);
      } else {
        assert [] + closed == closed;
      }
    }
  }

  // ---------------------------------------------------------------------------
  // When leaves are dropped
  // ---------------------------------------------------------------------------

  /** No line of the run opens a block directly inside a reverse_proxy block. */
  predicate NothingNestedInProxy(uri: UriParser, st: PState, lines: seq<Line>)
    decreases |lines|
  {
    lines == [] ||
    (&& (!Skipped(lines[0]) && OpensBlock(lines[0]) && st.blocks != [] ==>
        st.blocks[|st.blocks| - 1].kind != "reverse_proxy")
     && (Step(uri, st, lines[0]).Ok? ==> NothingNestedInProxy(uri, Step(uri, st, lines[0]).value, lines[1..])))
  }

  /** The reverse_proxy blocks on the stack hold no directives. */
  predicate EmptyProxies(st: PState) {
    && |st.directives| == |st.blocks| + 1
    && forall i :: 0 <= i < |st.blocks| && st.blocks[i].kind == "reverse_proxy" ==>
         st.directives[i + 1] == [] && i == |st.blocks| - 1
  }

  lemma {:induction false} EmptyProxiesKept(uri: UriParser, st: PState, ts: seq<string>)
    requires Inv(st) && EmptyProxies(st) && Step(uri, st, ts).Ok?
    requires !Skipped(ts) && OpensBlock(ts) && st.blocks != [] ==> st.blocks[|st.blocks| - 1].kind != "reverse_proxy"
    ensures EmptyProxies(Step(uri, st, ts).value) && Dropped(st, ts) == []
  {
    if ClosesBlock(st, ts) && st.blocks[|st.blocks| - 1].kind == "reverse_proxy" {
      assert st.directives[|st.blocks|] == [];
    }
  }

  /** Without a block inside a reverse_proxy block nothing is dropped. */
  lemma {:induction false} NothingDropped(uri: UriParser, st: PState, lines: seq<Line>)
    requires Inv(st) && EmptyProxies(st) && NothingNestedInProxy(uri, st, lines)
    ensures HistoryOf(uri, st, lines).dropped == []
    decreases |lines|
  {
    if lines != [] && Step(uri, st, lines[0]).Ok? {
      StepIsSafe(uri, st, lines[0]);
      EmptyProxiesKept(uri, st, lines[0]);
      NothingDropped(uri, Step(uri, st, lines[0]).value, lines[1..]);
    }
  }

  /** With one, everything in it disappears: the same reverse_proxy directive results whatever the block holds. */
  lemma {:induction false} NestedBlockDisappears(uri: UriParser, st: PState, to: string, pattern: string,
      ds: seq<Directive>)
    requires Accepting(st) && OkArg(to) && OkArg(pattern) && OkDirectives(uri, ds)
    ensures Leads(uri, st, Block(Cmd("reverse_proxy", [to]),
        Block(Cmd("handle_path", [pattern]), DirectivesLines(uri, ds))),
                  Adding(st, [ReverseProxy(to, None, None, [])]))
  {
    var proxy, path := FreshBlock("reverse_proxy", [to]), FreshBlock("handle_path", [pattern]);
    DirectivesLead(uri, Inside(Inside(st, proxy), path), ds);
    BlockLeads(uri, Inside(st, proxy), "handle_path", [pattern], DirectivesLines(uri, ds), path, ds,
        HandlePath(pattern, ds));
    BlockLeads(uri, st, "reverse_proxy", [to], Block(Cmd("handle_path", [pattern]), DirectivesLines(uri, ds)), proxy,
               [HandlePath(pattern, ds)], ReverseProxy(to, None, None, []));
  }
}
