/** The parsing loop of `from_str`, changing its variables in place. */
module ParserLoop {
  import opened Basics
  import opened Config
  import opened Listen
  import opened Text
  import opened Parser

  type Outcome = Result<(), ParseError>

  /** The error of a step, if it has one. */
  function Refused(r: Result<PState, ParseError>): Outcome {
    if r.Ok? then Ok(()) else Err(r.error)
  }

  class ParserState {
    var sites: Sites
    var address: Option<string>
    var tls: Option<TlsConfig>
    var directiveStack: seq<seq<Directive>>
    var blockStack: seq<PendingBlock>

    function View(): PState
      reads this
    {
      PState(sites, address, tls, directiveStack, blockStack)
    }

    ghost predicate Valid()
      reads this
    {
      Inv(View())
    }

    constructor ()
      ensures View() == INITIAL && Valid()
    {
      sites, address, tls := map[], None, None;
      directiveStack, blockStack := [[]], [];
    }

    /** A line that ends in `{`. */
    method Open(parts: seq<string>)
      requires Valid() && parts != []
      modifies this
      ensures View() == OpenBrace(old(View()), parts)
    {
      if |directiveStack| == 1 && address.None? {
        address := Some(parts[0]);
      } else {
        blockStack := blockStack + [NewBlock(parts)];
        directiveStack := directiveStack + [[]];
      }
    }

    /** A line that is `}`: both stacks are popped together, and neither pop can fail. */
    method Close(uri: UriParser) returns (r: Outcome)
      requires Valid()
      modifies this
      ensures r == Refused(CloseBrace(uri, old(View())))
      ensures r.Ok? ==> Ok(View()) == CloseBrace(uri, old(View()))
    {
      if |directiveStack| > 1 {
        var finished := directiveStack[|directiveStack| - 1];
        var block := blockStack[|blockStack| - 1];
        directiveStack := directiveStack[..|directiveStack| - 1];
        blockStack := blockStack[..|blockStack| - 1];
        var done := Finish(uri, block, finished);
        if done.Err? {
          return Err(done.error);
        }
        directiveStack := Append(directiveStack, done.value);
      } else if address.Some? {
        var closed := address.value;
        var directives := directiveStack[|directiveStack| - 1];
        directiveStack := directiveStack[..|directiveStack| - 1];
        if closed in sites {
          return Err(DuplicateSite(closed));
        }
        sites := sites[closed := SiteConfig(closed, directives, tls)];
        address, tls := None, None;
        directiveStack := directiveStack + [[]];
        assert directiveStack == [[]];
      }
      r := Ok(());
    }

    /** Any other line. */
    method Plain(name: string, args: seq<string>) returns (r: Outcome)
      requires Valid()
      modifies this
      ensures r == Refused(PlainLine(old(View()), name, args))
      ensures r.Ok? ==> Ok(View()) == PlainLine(old(View()), name, args)
    {
      if blockStack != [] {
        var top := blockStack[|blockStack| - 1];
        assert top in blockStack;
        if top.kind == "forward_auth" {
          var auth := AuthSetting(top.auth.value, name, args);
          if auth.Err? { return Err(auth.error); }
          blockStack := blockStack[|blockStack| - 1 := top.(auth := Some(auth.value))];
          return Ok(());
        }
        if top.kind == "reverse_proxy" {
          var b := ProxySetting(top, name, args);
          if b.Err? { return Err(b.error); }
          blockStack := blockStack[|blockStack| - 1 := b.value];
          return Ok(());
        }
      }
      if name == "tls" && blockStack == [] {
        if |args| < 2 { return Err(Missing("tls")); }
        if tls.Some? { return Err(DuplicateTls); }
        tls := Some(TlsConfig(args[0], args[1]));
        return Ok(());
      }
      var d := SimpleDirective(name, args);
      if d.Err? { return Err(d.error); }
      directiveStack := Append(directiveStack, d.value);
      r := Ok(());
    }

    method ParseLine(uri: UriParser, ts: seq<string>) returns (r: Outcome)
      requires Valid()
      modifies this
      ensures r == Refused(Step(uri, old(View()), ts))
      ensures r.Ok? ==> Valid() && Ok(View()) == Step(uri, old(View()), ts)
    {
      StepIsSafe(uri, View(), ts);
      if Skipped(ts) {
        return Ok(());
      }
      if OpensBlock(ts) {
        Open(ts);
        return Ok(());
      }
      if ts == ["}"] {
        r := Close(uri);
      } else {
        r := Plain(ts[0], ts[1..]);
      }
    }
  }

  /** `Config::from_str` */
  method FromStr(parse: SocketParser, uri: UriParser, content: string) returns (r: Result<Sites, ParseError>)
    ensures r == ParseText(parse, uri, content)
    ensures r.Err? ==> !IsBug(r.error)
    ensures r.Ok? ==> forall a :: a in r.value ==> r.value[a].address == a
  {
    var lines := Lines(content);
    var state := new ParserState();
    ParserIsSafe(uri, INITIAL, lines);
    for i := 0 to |lines|
      invariant state.Valid() && fresh(state)
      invariant RunLines(uri, INITIAL, lines) == RunLines(uri, state.View(), lines[i..])
    {
      assert lines[i..][1..] == lines[i + 1..];
      var next := state.ParseLine(uri, lines[i]);
      if next.Err? {
        return Err(next.error);
      }
    }
    var order := InSomeOrder(state.sites.Keys);
    var sound := ValidateListenSockets(parse, state.sites, order);
    r := if sound.Ok? then Ok(state.sites) else Err(InvalidSockets);
  }
}
