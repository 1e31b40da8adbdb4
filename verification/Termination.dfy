/** When a rewriting loop of src/auth/headers.rs ends: exactly when the references among the values are not circular. */
module Termination {
  import opened Basics
  import opened Http
  import opened Substitution
  import opened Templates
  import opened Graphs

  // ---------------------------------------------------------------------------
  // The references of a text
  // ---------------------------------------------------------------------------

  /** The text up to its first closed reference and that reference, and what follows it; or the whole text. */
  function FirstParts(word: string, s: string): (r: (seq<Segment>, Option<string>))
    requires IsKey("{" + word)
    ensures r.1.Some? ==> |r.1.value| < |s|
  {
    match ScanFor(s, "{" + word)
    case Reference(i, e) => ([Plain(s[..i]), Hole(s[i + 1..e])], Some(s[e + 1..]))
    case _ => ([Plain(s)], None)
  }

  /** A text taken apart at its closed references. */
  function Parts(word: string, s: string): seq<Segment>
    requires IsKey("{" + word)
    decreases |s|
  {
    var (front, rest) := FirstParts(word, s);
    if rest.Some? then front + Parts(word, rest.value) else front
  }

  lemma {:induction false} RenderPair(before: string, body: string, rest: seq<Segment>)
    ensures Render([Plain(before), Hole(body)] + rest) == before + Braced(body) + Render(rest)
  {
    RenderCons(Plain(before), [Hole(body)] + rest);
    RenderCons(Hole(body), rest);
    assert [Plain(before), Hole(body)] + rest == [Plain(before)] + ([Hole(body)] + rest);
    Associate(before, Braced(body), Render(rest));
  }

  lemma {:induction false} CutAtHole(s: string, i: nat, e: nat)
    requires i < e < |s| && s[i] == '{' && s[e] == '}'
    ensures s == s[..i] + Braced(s[i + 1..e]) + s[e + 1..]
  {
    assert s[i..e + 1] == Braced(s[i + 1..e]);
  }

  lemma {:induction false} FirstPartsRender(word: string, s: string)
    requires IsKey("{" + word)
    ensures var (front, rest) := FirstParts(word, s);
            if rest.Some? then |front| == 2 && front[0].Plain? && front[1].Hole?
                               && s == front[0].text + Braced(front[1].body) + rest.value
            else front == [Plain(s)]
  {
    var scan := ScanFor(s, "{" + word);
    if scan.Reference? { CutAtHole(s, scan.start, scan.end); }
  }

  lemma {:induction false} PartsRender(word: string, s: string)
    requires IsKey("{" + word)
    ensures Render(Parts(word, s)) == s
    decreases |s|
  {
    var (front, rest) := FirstParts(word, s);
    FirstPartsRender(word, s);
    if rest.Some? {
      PartsRender(word, rest.value);
      RenderPair(front[0].text, front[1].body, Parts(word, rest.value));
      assert front == [Plain(front[0].text), Hole(front[1].body)];
    } else {
      PlainRenders(s);
    }
  }

  /** Every reference of the text is closed and encloses no other brace, and none begins without being completed. */
  predicate Neat(word: string, s: string)
    requires IsKey("{" + word)
  {
    Readable(word, Parts(word, s))
  }

  /** The names that a template refers to by its keyword. */
  function NamesIn(word: string, t: seq<Segment>): set<string> {
    set seg | seg in t && Refers(word, seg) :: NameOf(word, seg)
  }

  lemma {:induction false} FirstAndRest(word: string, t: seq<Segment>)
    requires t != []
    ensures Refers(word, t[0]) ==> NameOf(word, t[0]) in NamesIn(word, t)
    ensures NamesIn(word, t[1..]) <= NamesIn(word, t)
    ensures NamesIn(word, t) == NamesIn(word, t[1..]) + if Refers(word, t[0]) then {NameOf(word, t[0])} else {}
  {
    assert t == [t[0]] + t[1..];
  }

  /** The names that a text refers to. */
  function References(word: string, s: string): set<string>
    requires IsKey("{" + word)
  {
    NamesIn(word, Parts(word, s))
  }

  /** The names that the value of a name refers to. */
  function Links(word: string, look: Lookup): Edges
    requires IsKey("{" + word)
  {
    x => References(word, ValueOr(look, x))
  }

  function NeatValues(word: string, look: Lookup): string -> bool
    requires IsKey("{" + word)
  {
    x => Neat(word, ValueOr(look, x))
  }

  /** The parts are readable, and every value that can be reached from them is neat. */
  ghost predicate NeatFrom(word: string, look: Lookup, t: seq<Segment>)
    requires IsKey("{" + word)
  {
    Readable(word, t) && AllReached(Links(word, look), NamesIn(word, t), NeatValues(word, look))
  }

  /** The text and every value that can be reached from it are neat. */
  ghost predicate NeatThroughout(word: string, look: Lookup, s: string)
    requires IsKey("{" + word)
  {
    NeatFrom(word, look, Parts(word, s))
  }

  lemma {:induction false} NeatFirst(word: string, look: Lookup, t: seq<Segment>)
    requires IsKey("{" + word) && NeatFrom(word, look, t) && t != [] && Refers(word, t[0])
    ensures '{' !in t[0].body && '}' !in t[0].body
    ensures NeatFrom(word, look, Parts(word, ValueOr(look, NameOf(word, t[0]))))
  {
    assert t[0] in t;
    FirstAndRest(word, t);
    ReachedBelow(Links(word, look), NamesIn(word, t), NeatValues(word, look), NameOf(word, t[0]));
  }

  lemma {:induction false} NeatRest(word: string, look: Lookup, t: seq<Segment>)
    requires IsKey("{" + word) && NeatFrom(word, look, t) && t != []
    ensures NeatFrom(word, look, t[1..])
  {
    assert forall seg :: seg in t[1..] ==> seg in t;
    FirstAndRest(word, t);
    FewerReachLess(Links(word, look), NamesIn(word, t), NamesIn(word, t[1..]), NeatValues(word, look));
  }

  /** A part that is no reference is clean text. */
  lemma {:induction false} OtherPartIsClean(word: string, t: seq<Segment>)
    requires IsKey("{" + word) && Readable(word, t) && t != [] && !Refers(word, t[0])
    ensures Clean(RenderOne(t[0]), "{" + word)
  {
    assert t[0] in t;
    if t[0].Hole? { OtherHoleIsClean(t[0].body, word); }
  }

  // ---------------------------------------------------------------------------
  // Templates are neat
  // ---------------------------------------------------------------------------

  lemma {:induction false} CleanIsNeat(word: string, s: string)
    requires IsKey("{" + word) && Clean(s, "{" + word)
    ensures Parts(word, s) == [Plain(s)] && Neat(word, s) && References(word, s) == {}
  {
    NothingToRewrite(s, "{" + word, _ => None);
  }

  lemma {:induction false} SlicesAtHole(q: string, body: string, tail: string)
    ensures var s, end := q + Braced(body) + tail, |q| + 1 + |body|;
            s[..|q|] == q && s[|q| + 1..end] == body && s[end + 1..] == tail
  {
    NameInHole(q, body, tail, 0);
  }

  lemma {:induction false} FirstPartsBehind(word: string, q: string, body: string, tail: string)
    requires IsKey("{" + word) && Clean(q, "{" + word) && '{' !in body && '}' !in body && word <= body
    ensures FirstParts(word, q + Braced(body) + tail) == ([Plain(q), Hole(body)], Some(tail))
  {
    FirstRewrite(word, _ => None, q, body, tail);
    SlicesAtHole(q, body, tail);
  }

  /** Behind clean text, a reference is the next part. */
  lemma {:induction false} PartsBehind(word: string, q: string, body: string, tail: string)
    requires IsKey("{" + word) && Clean(q, "{" + word) && '{' !in body && '}' !in body && word <= body
    ensures Parts(word, q + Braced(body) + tail) == [Plain(q), Hole(body)] + Parts(word, tail)
  {
    FirstPartsBehind(word, q, body, tail);
  }

  lemma {:induction false} JoinedParts(word: string, q: string, seg: Segment, tail: string, s: string)
    requires IsKey("{" + word) && Clean(q, "{" + word) && Refers(word, seg) && '{' !in seg.body && '}' !in seg.body
    requires Parts(word, s) == [Plain(q), seg] + Parts(word, tail) && Neat(word, tail)
    ensures Neat(word, s) && References(word, s) == {NameOf(word, seg)} + References(word, tail)
  {
    var t := Parts(word, s);
    assert t[0] == Plain(q) && t[1] == seg;
    assert forall part :: part in t ==> part == Plain(q) || part == seg || part in Parts(word, tail);
    assert forall part :: part in Parts(word, tail) ==> part in t;
    assert t[1] in t;
  }

  /** A template that the loop can take apart is neat, and its references are those of its holes. */
  lemma {:induction false} TemplateIsNeat(word: string, q: string, t: seq<Segment>)
    requires IsKey("{" + word) && Clean(q, "{" + word) && Readable(word, t)
    ensures Neat(word, q + Render(t)) && References(word, q + Render(t)) == NamesIn(word, t)
    decreases |t|
  {
    if t == [] {
      assert q + Render(t) == q;
      CleanIsNeat(word, q);
    } else {
      var seg, rest := t[0], t[1..];
      assert seg in t && forall other :: other in rest ==> other in t;
      FirstAndRest(word, t);
      Associate(q, RenderOne(seg), Render(rest));
      if Refers(word, seg) {
        PartsBehind(word, q, seg.body, Render(rest));
        TemplateIsNeat(word, "", rest);
        assert "" + Render(rest) == Render(rest);
        JoinedParts(word, q, seg, Render(rest), q + Render(t));
      } else {
        OtherPartIsClean(word, t);
        CleanJoin(q, RenderOne(seg), "{" + word);
        TemplateIsNeat(word, q + RenderOne(seg), rest);
      }
    }
  }

  /** If the value of every name is such a template, every text that can be reached is neat. */
  lemma {:induction false} TemplateValuesAreNeat(word: string, look: Lookup, values: string -> seq<Segment>,
      t: seq<Segment>)
    requires IsKey("{" + word) && Readable(word, t)
    requires forall x :: Readable(word, values(x)) && Render(values(x)) == ValueOr(look, x)
    ensures NeatThroughout(word, look, Render(t))
  {
    TemplateIsNeat(word, "", t);
    assert "" + Render(t) == Render(t);
    forall x ensures Neat(word, ValueOr(look, x)) {
      TemplateIsNeat(word, "", values(x));
      assert "" + Render(values(x)) == ValueOr(look, x);
    }
  }

  // ---------------------------------------------------------------------------
  // Bounded depth
  // ---------------------------------------------------------------------------

  /** No more than `d` references can be followed one after the other from these parts. */
  predicate ShallowFrom(word: string, look: Lookup, t: seq<Segment>, d: nat)
    requires IsKey("{" + word)
  {
    Shallow(Links(word, look), NamesIn(word, t), d)
  }

  lemma {:induction false} ShallowFirst(word: string, look: Lookup, t: seq<Segment>, d: nat)
    requires IsKey("{" + word) && ShallowFrom(word, look, t, d) && t != [] && Refers(word, t[0])
    ensures d > 0 && ShallowFrom(word, look, Parts(word, ValueOr(look, NameOf(word, t[0]))), d - 1)
  {
    FirstAndRest(word, t);
    ShallowBelow(Links(word, look), NamesIn(word, t), NameOf(word, t[0]), d);
  }

  lemma {:induction false} ShallowRest(word: string, look: Lookup, t: seq<Segment>, d: nat)
    requires IsKey("{" + word) && ShallowFrom(word, look, t, d) && t != []
    ensures ShallowFrom(word, look, t[1..], d)
  {
    FirstAndRest(word, t);
    FewerAreShallow(Links(word, look), NamesIn(word, t), NamesIn(word, t[1..]), d);
  }

  lemma {:induction false} ShallowAgain(word: string, look: Lookup, t: seq<Segment>, d: nat)
    requires IsKey("{" + word) && t != [] && ShallowFrom(word, look, t[1..], d)
    requires Refers(word, t[0]) ==> d > 0 && ShallowFrom(word, look, Parts(word, ValueOr(look, NameOf(word, t[0]))), d - 1)
    ensures ShallowFrom(word, look, t, d)
  {
    var links := Links(word, look);
    FirstAndRest(word, t);
    forall x | x in NamesIn(word, t) ensures d > 0 && Shallow(links, links(x), d - 1) {
      if x in NamesIn(word, t[1..]) { ShallowBelow(links, NamesIn(word, t[1..]), x, d); }
    }
  }

  lemma Split(q: string, first: string, rest: string, tail: string)
    ensures q + (first + rest) + tail == q + first + (rest + tail)
  {
  }

  /** Shallow references are used up from left to right: the loop comes to a text in which they have left only clean
      text behind. */
  lemma {:induction false} UsedUp(word: string, look: Lookup, q: string, t: seq<Segment>, tail: string, d: nat)
    returns (q': string)
    requires IsKey("{" + word) && Clean(q, "{" + word) && NeatFrom(word, look, t) && ShallowFrom(word, look, t, d)
    ensures Clean(q', "{" + word) && ComesTo("{" + word, look, q + Render(t) + tail, q' + tail)
    decreases d, |t|
  {
    if t == [] {
      q' := q;
      assert q + Render(t) + tail == q + tail;
      Loop.StaysThere(Rewriter("{" + word, look), q + tail);
    } else {
      var first, rest := RenderOne(t[0]), Render(t[1..]);
      NeatRest(word, look, t);
      ShallowRest(word, look, t, d);
      Split(q, first, rest, tail);
      if Refers(word, t[0]) {
        var q1 := FirstUsedUp(word, look, q, t, rest + tail, d);
        q' := UsedUp(word, look, q1, t[1..], tail, d);
        Associate(q1, rest, tail);
        Loop.ComesToTransitive(Rewriter("{" + word, look), q + first + (rest + tail), q1 + (rest + tail), q' + tail);
      } else {
        OtherPartIsClean(word, t);
        CleanJoin(q, first, "{" + word);
        q' := UsedUp(word, look, q + first, t[1..], tail, d);
        Associate(q + first, rest, tail);
      }
    }
  }

  /** One reference, with everything that its value refers to. */
  lemma {:induction false} FirstUsedUp(word: string, look: Lookup, q: string, t: seq<Segment>, tail: string, d: nat)
    returns (q': string)
    requires IsKey("{" + word) && Clean(q, "{" + word) && NeatFrom(word, look, t) && ShallowFrom(word, look, t, d)
    requires t != [] && Refers(word, t[0])
    ensures Clean(q', "{" + word) && ComesTo("{" + word, look, q + RenderOne(t[0]) + tail, q' + tail)
    decreases d, 0
  {
    var v := ValueOr(look, NameOf(word, t[0]));
    NeatFirst(word, look, t);
    ShallowFirst(word, look, t, d);
    FirstRewrite(word, look, q, t[0].body, tail);
    q' := UsedUp(word, look, q, Parts(word, v), tail, d - 1);
    PartsRender(word, v);
    Loop.ComesToTransitive(Rewriter("{" + word, look), q + RenderOne(t[0]) + tail, q + v + tail, q' + tail);
  }

  lemma {:induction false} StopsBehindFirst(word: string, look: Lookup, q: string, body: string, tail: string, n: nat)
    requires IsKey("{" + word) && Clean(q, "{" + word) && '{' !in body && '}' !in body && word <= body
    requires !RunsFor("{" + word, look, q + Braced(body) + tail, n)
    ensures n > 0 && !RunsFor("{" + word, look, q + ValueOr(look, body[|word|..]) + tail, n - 1)
  {
    FirstRewrite(word, look, q, body, tail);
  }

  /** Conversely, a loop that stops after `n` rewrites has met no more than `n` references in a row. */
  lemma {:induction false} StopsShallow(word: string, look: Lookup, q: string, t: seq<Segment>, tail: string, n: nat)
    requires IsKey("{" + word) && Clean(q, "{" + word) && NeatFrom(word, look, t)
    requires !RunsFor("{" + word, look, q + Render(t) + tail, n)
    ensures ShallowFrom(word, look, t, n)
    decreases n, |t|
  {
    if t != [] {
      var first, rest := RenderOne(t[0]), Render(t[1..]);
      NeatRest(word, look, t);
      Split(q, first, rest, tail);
      if Refers(word, t[0]) {
        NeatFirst(word, look, t);
        StopsBehindFirst(word, look, q, t[0].body, rest + tail, n);
        var q1 := StopsInside(word, look, q, ValueOr(look, NameOf(word, t[0])), rest + tail, n - 1);
        Associate(q1, rest, tail);
        StopsShallow(word, look, q1, t[1..], tail, n - 1);
        ShallowStays(Links(word, look), NamesIn(word, t[1..]), n - 1);
      } else {
        OtherPartIsClean(word, t);
        CleanJoin(q, first, "{" + word);
        Associate(q + first, rest, tail);
        StopsShallow(word, look, q + first, t[1..], tail, n);
      }
      ShallowAgain(word, look, t, n);
    }
  }

  /** The value that was spliced in is shallow, and behind it the loop stops as soon. */
  lemma {:induction false} StopsInside(word: string, look: Lookup, q: string, v: string, tail: string, n: nat)
    returns (q': string)
    requires IsKey("{" + word) && Clean(q, "{" + word) && NeatThroughout(word, look, v)
    requires !RunsFor("{" + word, look, q + v + tail, n)
    ensures ShallowFrom(word, look, Parts(word, v), n)
    ensures Clean(q', "{" + word) && !RunsFor("{" + word, look, q' + tail, n)
    decreases n, |Parts(word, v)| + 1
  {
    PartsRender(word, v);
    StopsShallow(word, look, q, Parts(word, v), tail, n);
    q' := UsedUp(word, look, q, Parts(word, v), tail, n);
    StopsNoLater("{" + word, look, q + v + tail, q' + tail, n);
  }

  lemma Alone(s: string)
    ensures "" + s + "" == s && s + "" == s
  {
  }

  lemma {:induction false} ShallowEnds(word: string, look: Lookup, s: string, d: nat)
    requires IsKey("{" + word) && NeatThroughout(word, look, s) && Shallow(Links(word, look), References(word, s), d)
    ensures Ends("{" + word, look, s)
  {
    var q := UsedUp(word, look, "", Parts(word, s), "", d);
    assert ComesTo("{" + word, look, s, q) by {
      PartsRender(word, s);
      Alone(s);
      Alone(q);
    }
    NothingToRewrite(q, "{" + word, look);
    SameResult("{" + word, look, s, q);
  }

  /** The loop ends exactly when the references that can be followed have bounded depth. */
  lemma {:induction false} EndsExactlyWhenShallow(word: string, look: Lookup, s: string)
    requires IsKey("{" + word) && NeatThroughout(word, look, s)
    ensures Ends("{" + word, look, s) <==> exists d: nat :: Shallow(Links(word, look), References(word, s), d)
  {
    if Ends("{" + word, look, s) {
      var n: nat :| !Loop.RunsFor(Rewriter("{" + word, look), s, n);
      Alone(s);
      var q := StopsInside(word, look, "", s, "", n);
      assert Shallow(Links(word, look), References(word, s), n);
    } else {
      forall d: nat ensures !Shallow(Links(word, look), References(word, s), d) {
        if Shallow(Links(word, look), References(word, s), d) { ShallowEnds(word, look, s, d); }
      }
    }
  }

  /** Where the values refer to finitely many names altogether, the loop ends if and only if no name that can be reached
      reaches itself. */
  lemma {:induction false} EndsExactlyUnlessCircular(word: string, look: Lookup, s: string, names: set<string>)
    requires IsKey("{" + word) && NeatThroughout(word, look, s)
    requires forall x :: References(word, ValueOr(look, x)) <= names
    ensures Ends("{" + word, look, s) <==> !Circular(Links(word, look), References(word, s))
  {
    EndsExactlyWhenShallow(word, look, s);
    ShallowUnlessCircular(Links(word, look), References(word, s), names);
  }

  // ---------------------------------------------------------------------------
  // Header maps
  // ---------------------------------------------------------------------------

  /** All names that the header values refer to. */
  function ReferredNames(h: HeaderMap): set<string> {
    KeysAreKeys();
    set n, x | n in h && Get(h, n).Some? && x in References("header.", Get(h, n).value) :: x
  }

  lemma {:induction false} HeadersReferFinitely(h: HeaderMap, isText: string -> bool, x: string)
    requires IsKey(HEADER_KEY)
    ensures References("header.", ValueOr(HeaderLookup(h, isText), x)) <= ReferredNames(h)
  {
    var v := HeaderLookup(h, isText)(x);
    if v.Some? {
      var n := HeaderName(x).value;
      assert n in h && Get(h, n) == v;
    } else {
      CleanIsNeat("header.", "");
    }
  }

  /** The header loop on a request: given that the texts it can reach are neat, it ends if and only if no header reaches
      itself through references in header values. */
  lemma {:induction false} HeaderLoopEndsExactly(h: HeaderMap, isText: string -> bool, template: string)
    requires IsKey(HEADER_KEY) && NeatThroughout("header.", HeaderLookup(h, isText), template)
    ensures Ends(HEADER_KEY, HeaderLookup(h, isText), template) <==>
            !Circular(Links("header.", HeaderLookup(h, isText)), References("header.", template))
  {
    KeysAreKeys();
    forall x ensures References("header.", ValueOr(HeaderLookup(h, isText), x)) <= ReferredNames(h) {
      HeadersReferFinitely(h, isText, x);
    }
    EndsExactlyUnlessCircular("header.", HeaderLookup(h, isText), template, ReferredNames(h));
  }

  // ---------------------------------------------------------------------------
  // A value that refers to itself
  // ---------------------------------------------------------------------------

  lemma Regroup(q: string, p: string, ref: string, r: string, tail: string)
    ensures q + (p + ref + r) + tail == (q + p) + ref + (r + tail)
  {
  }

  /** Whatever follows such a reference, neat or not, no number of rewrites suffices. */
  lemma {:induction false} SelfReferenceNeverEnds(word: string, name: string, look: Lookup, p: string, r: string, q: string,
      tail: string, n: nat)
    requires IsKey("{" + word) && '{' !in name && '}' !in name && Clean(p, "{" + word) && Clean(q, "{" + word)
    requires look(name) == Some(p + Braced(word + name) + r)
    ensures RunsFor("{" + word, look, q + Braced(word + name) + tail, n)
    decreases n
  {
    KeyBody(word);
    assert (word + name)[|word|..] == name;
    FirstRewrite(word, look, q, word + name, tail);
    Regroup(q, p, Braced(word + name), r, tail);
    if n > 0 {
      CleanJoin(q, p, "{" + word);
      SelfReferenceNeverEnds(word, name, look, p, r, q + p, r + tail, n - 1);
    }
  }
}
