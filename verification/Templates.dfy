/** Templates: what the passes of a substitution mean on texts made of literals and placeholders. */
module Templates {
  import opened Basics
  import opened Substitution

  // ---------------------------------------------------------------------------
  // Texts in which no reference begins
  // ---------------------------------------------------------------------------

  /** No reference begins in `q`, whatever follows: nowhere does `q` go on with the key, or end in a piece of it. */
  predicate Clean(q: string, key: string) {
    forall i :: 0 <= i < |q| ==> !(key <= q[i..]) && !(q[i..] <= key)
  }

  /** Two texts that begin the same way: one is the beginning of the other. */
  lemma PrefixesCompare(a: string, b: string, rest: string)
    ensures a <= b + rest ==> a <= b || b <= a
  {
  }

  lemma {:induction false} CleanMatchesNowhere(q: string, key: string, tail: string, i: nat)
    requires Clean(q, key) && i < |q|
    ensures !MatchesAt(q + tail, key, i)
  {
    var onward := (q + tail)[i..];
    assert onward == q[i..] + tail;
    PrefixesCompare(key, q[i..], tail);
    assert MatchesAt(q + tail, key, i) ==> key <= onward;
  }

  lemma {:induction false} CleanJoin(q: string, text: string, key: string)
    requires Clean(q, key) && Clean(text, key)
    ensures Clean(q + text, key)
  {
    forall i | 0 <= i < |q + text| ensures !(key <= (q + text)[i..]) && !((q + text)[i..] <= key) {
      if i < |q| {
        assert (q + text)[i..] == q[i..] + text;
        assert q[i..] <= q[i..] + text;
        PrefixesCompare(key, q[i..], text);
      } else {
        assert (q + text)[i..] == text[i - |q|..];
      }
    }
  }

  lemma {:induction false} BracelessIsClean(text: string, key: string)
    requires IsKey(key) && '{' !in text
    ensures Clean(text, key)
  {
    forall i | 0 <= i < |text| ensures !(key <= text[i..]) && !(text[i..] <= key) {
      assert text[i..][0] == text[i] != key[0];
    }
  }

  /** A word that is no prefix of the body differs from it at the latest at its closing brace. */
  lemma {:induction false} FirstDifference(word: string, body: string) returns (k: nat)
    requires '}' !in word && !(word <= body)
    ensures k < |word| && k <= |body| && word[k] != (body + "}")[k]
  {
    k := 0;
    while k < |word| && k < |body| && word[k] == body[k]
      invariant k <= |word| && k <= |body| && word[..k] == body[..k]
    {
      k := k + 1;
    }
    assert k == |word| ==> word <= body;
  }

  lemma {:induction false} OtherHoleIsClean(body: string, word: string)
    requires IsKey("{" + word) && '{' !in body && '}' !in body && !(word <= body)
    ensures Clean(Braced(body), "{" + word)
  {
    var key, hole := "{" + word, Braced(body);
    var k := FirstDifference(word, body);
    forall i | 0 <= i < |hole| ensures !(key <= hole[i..]) && !(hole[i..] <= key) {
      if i == 0 {
        assert hole[0..] == hole && hole[1 + k] == (body + "}")[k] && key[1 + k] == word[k];
        assert hole[|hole| - 1] == '}' && '}' in hole && '}' !in key;
      } else {
        assert hole[i..][0] == hole[i] == (body + "}")[i - 1] != '{';
      }
    }
  }

  lemma {:induction false} KeyBody(word: string)
    requires IsKey("{" + word)
    ensures '{' !in word && '}' !in word
  {
    assert ("{" + word)[1..] == word;
  }

  lemma {:induction false} NothingToRewrite(q: string, key: string, look: Lookup)
    requires IsKey(key) && Clean(q, key)
    ensures ScanFor(q, key).NoReference? && Ends(key, look, q) && RewriteAll(key, look, q) == Some(q)
  {
    forall i | 0 <= i <= |q| ensures !MatchesAt(q, key, i) {
      if i < |q| { CleanMatchesNowhere(q, key, "", i); assert q + "" == q; }
    }
    NoReferenceEnds(key, look, q);
  }

  // ---------------------------------------------------------------------------
  // The first reference of a text
  // ---------------------------------------------------------------------------

  lemma {:induction false} HoleFound(word: string, q: string, body: string, tail: string)
    requires IsKey("{" + word) && Clean(q, "{" + word) && word <= body
    ensures Find(q + Braced(body) + tail, "{" + word) == Some(|q|)
  {
    var key, hole := "{" + word, Braced(body);
    var s := q + hole + tail;
    assert s == q + (hole + tail);
    assert s[|q|..|q| + |key|] == hole[..|key|] == "{" + body[..|word|];
    assert MatchesAt(s, key, |q|);
    forall i | 0 <= i < |q| ensures !MatchesAt(s, key, i) { CleanMatchesNowhere(q, key, hole + tail, i); }
  }

  lemma {:induction false} CloseFound(q: string, body: string, tail: string)
    requires '}' !in body
    ensures FindFrom(q + Braced(body) + tail, "}", |q|) == Some(|q| + 1 + |body|)
  {
    var hole := Braced(body);
    var s, end := q + hole + tail, |q| + 1 + |body|;
    assert s[end..end + 1] == "}";
    assert MatchesAt(s, "}", end);
    forall j | |q| <= j < end ensures !MatchesAt(s, "}", j) {
      MatchChars(s, "}", j);
      assert s[j] == hole[j - |q|] != '}';
    }
  }

  lemma {:induction false} SpliceHole(q: string, body: string, tail: string, value: string)
    ensures var s := q + Braced(body) + tail;
            Splice(s, |q|, |q| + 1 + |body|, value) == q + value + tail
  {
    var s := q + Braced(body) + tail;
    assert s[..|q|] == q && s[|q| + 1 + |body| + 1..] == tail;
  }

  lemma {:induction false} NameInHole(q: string, body: string, tail: string, n: nat)
    requires n <= |body|
    ensures (q + Braced(body) + tail)[|q| + 1 + n..|q| + 1 + |body|] == body[n..]
  {
    var hole := Braced(body);
    assert (q + hole + tail)[|q| + 1 + n..|q| + 1 + |body|] == hole[1 + n..1 + |body|] == body[n..];
  }

  lemma {:induction false} HoleScanned(word: string, q: string, body: string, tail: string)
    requires IsKey("{" + word) && Clean(q, "{" + word) && '}' !in body && word <= body
    ensures ScanFor(q + Braced(body) + tail, "{" + word) == Reference(|q|, |q| + 1 + |body|)
  {
    HoleFound(word, q, body, tail);
    CloseFound(q, body, tail);
  }

  lemma {:induction false} HoleRewritten(word: string, look: Lookup, q: string, body: string, tail: string)
    requires IsKey("{" + word) && word <= body
    requires ScanFor(q + Braced(body) + tail, "{" + word) == Reference(|q|, |q| + 1 + |body|)
    ensures RewriteOnce("{" + word, look, q + Braced(body) + tail) == q + ValueOr(look, body[|word|..]) + tail
  {
    NameInHole(q, body, tail, |word|);
    SpliceHole(q, body, tail, ValueOr(look, body[|word|..]));
    assert |q| + |"{" + word| == |q| + 1 + |word|;
  }

  /** Behind a clean text the first reference is the next hole, and one rewrite replaces it by its value. */
  lemma {:induction false} FirstRewrite(word: string, look: Lookup, q: string, body: string, tail: string)
    requires IsKey("{" + word) && Clean(q, "{" + word) && '{' !in body && '}' !in body && word <= body
    ensures var s := q + Braced(body) + tail;
            && ScanFor(s, "{" + word) == Reference(|q|, |q| + 1 + |body|)
            && RewriteOnce("{" + word, look, s) == q + ValueOr(look, body[|word|..]) + tail
            && ComesTo("{" + word, look, s, q + ValueOr(look, body[|word|..]) + tail)
  {
    HoleScanned(word, q, body, tail);
    HoleRewritten(word, look, q, body, tail);
    RewriteComesTo("{" + word, look, q + Braced(body) + tail);
  }

  /** A text that is one reference comes to its value. */
  lemma {:induction false} LoneReference(word: string, look: Lookup, name: string)
    requires IsKey("{" + word) && '{' !in name && '}' !in name
    ensures ComesTo("{" + word, look, Braced(word + name), ValueOr(look, name))
  {
    KeyBody(word);
    assert (word + name)[|word|..] == name;
    FirstRewrite(word, look, "", word + name, "");
    assert "" + Braced(word + name) + "" == Braced(word + name) && "" + ValueOr(look, name) + "" == ValueOr(look, name);
  }

  /** A reference that is never closed makes the loop fail. */
  lemma {:induction false} UnclosedIsRefused(word: string, look: Lookup, q: string, tail: string)
    requires IsKey("{" + word) && Clean(q, "{" + word) && '}' !in tail
    ensures Ends("{" + word, look, q + ("{" + word) + tail)
    ensures RewriteAll("{" + word, look, q + ("{" + word) + tail) == None
  {
    var key := "{" + word;
    var s := q + key + tail;
    assert s == q + (key + tail) && s[|q|..|q| + |key|] == key;
    assert MatchesAt(s, key, |q|);
    forall i | 0 <= i < |q| ensures !MatchesAt(s, key, i) { CleanMatchesNowhere(q, key, key + tail, i); }
    forall i | |q| <= i <= |s| ensures !MatchesAt(s, "}", i) {
      MatchChars(s, "}", i);
      assert i < |s| ==> s[i] == (key + tail)[i - |q|];
    }
    UnclosedEnds(key, look, s);
  }

  // ---------------------------------------------------------------------------
  // Templates and their meaning
  // ---------------------------------------------------------------------------

  /** A template is text without `{`, and closed placeholders. */
  datatype Segment = Plain(text: string) | Hole(body: string)

  predicate SegmentOk(seg: Segment) {
    match seg case Plain(text) => '{' !in text case Hole(body) => '{' !in body && '}' !in body
  }

  predicate WellFormed(t: seq<Segment>) {
    forall seg :: seg in t ==> SegmentOk(seg)
  }

  /** What a loop can take apart: text in which none of its references begins, and closed placeholders. */
  predicate Readable(word: string, t: seq<Segment>) {
    forall seg :: seg in t ==>
      match seg case Plain(text) => Clean(text, "{" + word) case Hole(body) => '{' !in body && '}' !in body
  }

  lemma {:induction false} WellFormedIsReadable(word: string, t: seq<Segment>)
    requires IsKey("{" + word) && WellFormed(t)
    ensures Readable(word, t)
  {
    forall seg | seg in t && seg.Plain? ensures Clean(seg.text, "{" + word) {
      assert SegmentOk(seg);
      BracelessIsClean(seg.text, "{" + word);
    }
  }

  function RenderOne(seg: Segment): string {
    match seg case Plain(text) => text case Hole(body) => Braced(body)
  }

  function Render(t: seq<Segment>): string {
    if t == [] then "" else RenderOne(t[0]) + Render(t[1..])
  }

  lemma {:induction false} RenderCons(seg: Segment, t: seq<Segment>)
    ensures Render([seg] + t) == RenderOne(seg) + Render(t)
  {
    assert ([seg] + t)[1..] == t;
  }

  lemma {:induction false} RenderJoin(t: seq<Segment>, t': seq<Segment>)
    ensures Render(t + t') == Render(t) + Render(t')
    decreases |t|
  {
    if t == [] {
      assert t + t' == t';
    } else {
      assert (t + t')[0] == t[0] && (t + t')[1..] == t[1..] + t';
      RenderJoin(t[1..], t');
    }
  }

  lemma {:induction false} HoleRenders(body: string)
    ensures Render([Hole(body)]) == Braced(body)
  {
    assert Render([Hole(body)][1..]) == "";
  }

  lemma {:induction false} PlainRenders(text: string)
    ensures Render([Plain(text)]) == text
  {
    assert Render([Plain(text)][1..]) == "";
  }

  /** The segment refers to a name by this keyword. */
  predicate Refers(word: string, seg: Segment) {
    seg.Hole? && word <= seg.body
  }

  function NameOf(word: string, seg: Segment): string
    requires Refers(word, seg)
  {
    seg.body[|word|..]
  }

  /** The rewriting loop of a keyword fills the holes that start with it. */
  function FillReference(word: string, look: Lookup, seg: Segment): Segment {
    if Refers(word, seg) then Plain(ValueOr(look, NameOf(word, seg))) else seg
  }

  function FillReferences(word: string, look: Lookup, t: seq<Segment>): (r: seq<Segment>)
    ensures |r| == |t| && forall i :: 0 <= i < |t| ==> r[i] == FillReference(word, look, t[i])
  {
    if t == [] then [] else [FillReference(word, look, t[0])] + FillReferences(word, look, t[1..])
  }

  /** Every value that the template names by this keyword is clean for its loop. */
  predicate NamesClean(word: string, look: Lookup, t: seq<Segment>) {
    forall seg :: seg in t && Refers(word, seg) ==> Clean(ValueOr(look, NameOf(word, seg)), "{" + word)
  }

  /** Every value that the template names by this keyword lacks the opening brace; other values do not matter. */
  predicate NamesLack(word: string, look: Lookup, t: seq<Segment>) {
    forall seg :: seg in t && Refers(word, seg) ==> '{' !in ValueOr(look, NameOf(word, seg))
  }

  lemma {:induction false} LackingIsClean(word: string, look: Lookup, t: seq<Segment>)
    requires IsKey("{" + word) && NamesLack(word, look, t)
    ensures NamesClean(word, look, t)
  {
    forall seg | seg in t && Refers(word, seg) ensures Clean(ValueOr(look, NameOf(word, seg)), "{" + word) {
      BracelessIsClean(ValueOr(look, NameOf(word, seg)), "{" + word);
    }
  }

  /** A plain `replace` fills the holes that are the word. */
  function FillWord(word: string, value: string, t: seq<Segment>): (r: seq<Segment>)
    ensures |r| == |t| && forall i :: 0 <= i < |t| ==> r[i] == if t[i] == Hole(word) then Plain(value) else t[i]
  {
    if t == [] then [] else [if t[0] == Hole(word) then Plain(value) else t[0]] + FillWord(word, value, t[1..])
  }

  /** What each placeholder stands for, all of them at once: an absent value for nothing, an unknown word for itself. */
  function Meaning(headers: Lookup, env: Lookup, uuid: string, host: string, uri: string, ip: string,
      seg: Segment): Segment {
    match seg
    case Plain(_) => seg
    case Hole(body) =>
      if "header." <= body then Plain(if headers(body[7..]).Some? then headers(body[7..]).value else "")
      else if "env." <= body then Plain(if env(body[4..]).Some? then env(body[4..]).value else "")
      else if body == "uuid" then Plain(uuid)
      else if body == "upstream_host" then Plain(host)
      else if body == "request.uri" then Plain(uri)
      else if body == "remote_ip" then Plain(ip)
      else seg
  }

  function Simultaneous(headers: Lookup, env: Lookup, uuid: string, host: string, uri: string, ip: string,
      t: seq<Segment>): (r: seq<Segment>)
    ensures |r| == |t| && forall i :: 0 <= i < |t| ==> r[i] == Meaning(headers, env, uuid, host, uri, ip, t[i])
  {
    seq(|t|, i requires 0 <= i < |t| => Meaning(headers, env, uuid, host, uri, ip, t[i]))
  }

  // ---------------------------------------------------------------------------
  // The loops fill references
  // ---------------------------------------------------------------------------

  lemma Associate(a: string, b: string, c: string)
    ensures a + (b + c) == a + b + c
  {
  }

  /** The loop treats the first segment as it should and is then concerned with the rest. */
  lemma {:induction false} Advance(word: string, look: Lookup, q: string, seg: Segment, tail: string)
    requires IsKey("{" + word) && Clean(q, "{" + word) && Readable(word, [seg]) && NamesClean(word, look, [seg])
    ensures var filled := RenderOne(FillReference(word, look, seg));
            && Clean(q + filled, "{" + word)
            && ComesTo("{" + word, look, q + RenderOne(seg) + tail, q + filled + tail)
  {
    assert seg in [seg];
    if Refers(word, seg) {
      FirstRewrite(word, look, q, seg.body, tail);
    } else {
      if seg.Hole? { OtherHoleIsClean(seg.body, word); }
      Loop.StaysThere(Rewriter("{" + word, look), q + RenderOne(seg) + tail);
    }
    CleanJoin(q, RenderOne(FillReference(word, look, seg)), "{" + word);
  }

  /** The rewriting loop fills exactly the holes of its keyword, from left to right, and nothing else. */
  lemma {:induction false} LoopFillsReferences(word: string, look: Lookup, q: string, t: seq<Segment>)
    requires IsKey("{" + word) && Clean(q, "{" + word) && Readable(word, t) && NamesClean(word, look, t)
    ensures Ends("{" + word, look, q + Render(t))
    ensures RewriteAll("{" + word, look, q + Render(t)) == Some(q + Render(FillReferences(word, look, t)))
    decreases |t|
  {
    if t == [] {
      assert q + "" == q;
      NothingToRewrite(q, "{" + word, look);
    } else {
      var rest, was, filled := t[1..], RenderOne(t[0]), RenderOne(FillReference(word, look, t[0]));
      assert t[0] in t && forall seg :: seg in rest ==> seg in t;
      Advance(word, look, q, t[0], Render(rest));
      SameResult("{" + word, look, q + was + Render(rest), q + filled + Render(rest));
      LoopFillsReferences(word, look, q + filled, rest);
      RenderCons(FillReference(word, look, t[0]), FillReferences(word, look, rest));
      Associate(q, was, Render(rest));
      Associate(q, filled, Render(FillReferences(word, look, rest)));
    }
  }

  // ---------------------------------------------------------------------------
  // Replacing fills words
  // ---------------------------------------------------------------------------

  lemma {:induction false} ReplaceSkipsPlain(text: string, rest: string, find: string, with: string)
    requires find != "" && find[0] == '{' && '{' !in text
    ensures ReplaceAll(text + rest, find, with) == text + ReplaceAll(rest, find, with)
  {
    if text == "" {
      assert text + rest == rest;
    } else {
      var s := text + rest;
      assert s[0] == text[0] != find[0];
      assert s[1..] == text[1..] + rest;
      ReplaceSkipsPlain(text[1..], rest, find, with);
      assert [text[0]] + (text[1..] + ReplaceAll(rest, find, with)) == text + ReplaceAll(rest, find, with);
    }
  }

  lemma {:induction false} ClosedWordsDiffer(word: string, body: string) returns (k: nat)
    requires '}' !in body && '}' !in word && body != word
    ensures k <= |word| && k <= |body| && (word + "}")[k] != (body + "}")[k]
  {
    k := 0;
    while k < |word| && k < |body| && word[k] == body[k]
      invariant k <= |word| && k <= |body| && word[..k] == body[..k]
    {
      k := k + 1;
    }
    assert k == |word| && k == |body| ==> word == body;
  }

  lemma {:induction false} ReplaceOtherHole(word: string, body: string, rest: string, with: string)
    requires '{' !in body && '}' !in body && '}' !in word && body != word
    ensures ReplaceAll("{" + body + "}" + rest, "{" + word + "}", with) == "{" + body + "}"
        + ReplaceAll(rest, "{" + word + "}", with)
  {
    var find, s := "{" + word + "}", "{" + body + "}" + rest;
    var k := ClosedWordsDiffer(word, body);
    assert s[1 + k] == (body + "}")[k] && find[1 + k] == (word + "}")[k];
    assert !(find <= s);
    assert s[1..] == (body + "}") + rest;
    ReplaceSkipsPlain(body + "}", rest, find, with);
    assert [s[0]] + ((body + "}") + ReplaceAll(rest, find, with)) == "{" + body + "}" + ReplaceAll(rest, find, with);
  }

  lemma {:induction false} ReplaceFillsWord(word: string, value: string, t: seq<Segment>)
    requires '}' !in word && WellFormed(t)
    ensures Replace(Render(t), Braced(word), value) == Render(FillWord(word, value, t))
    decreases |t|
  {
    if t != [] {
      var find, rest := "{" + word + "}", t[1..];
      assert t[0] in t && forall seg :: seg in rest ==> seg in t;
      ReplaceFillsWord(word, value, rest);
      RenderCons(if t[0] == Hole(word) then Plain(value) else t[0], FillWord(word, value, rest));
      match t[0]
      case Plain(text) => ReplaceSkipsPlain(text, Render(rest), find, value);
      case Hole(body) =>
        if body == word {
          assert Render(t)[|find|..] == Render(rest);
        } else {
          ReplaceOtherHole(word, body, Render(rest), value);
        }
    }
  }

  // ---------------------------------------------------------------------------
  // All passes together
  // ---------------------------------------------------------------------------

  lemma {:induction false} WordsAreWellFormed(word: string, value: string, t: seq<Segment>)
    requires WellFormed(t) && '{' !in value
    ensures WellFormed(FillWord(word, value, t))
  {
    var filled := FillWord(word, value, t);
    forall seg | seg in filled ensures SegmentOk(seg) {
      var i :| 0 <= i < |t| && filled[i] == seg;
      assert t[i] in t;
    }
  }

  lemma {:induction false} TwoWords(a: string, va: string, b: string, vb: string, t: seq<Segment>)
    requires WellFormed(t) && '}' !in a && '}' !in b && '{' !in va
    ensures Replace(Replace(Render(t), Braced(a), va), Braced(b), vb) == Render(FillWord(b, vb, FillWord(a, va, t)))
    ensures '{' !in vb ==> WellFormed(FillWord(b, vb, FillWord(a, va, t)))
  {
    ReplaceFillsWord(a, va, t);
    WordsAreWellFormed(a, va, t);
    ReplaceFillsWord(b, vb, FillWord(a, va, t));
    if '{' !in vb { WordsAreWellFormed(b, vb, FillWord(a, va, t)); }
  }

  lemma {:induction false} WordPasses(uuid: string, host: string, uri: string, ip: string, t: seq<Segment>)
    requires WellFormed(t) && '{' !in uuid && '{' !in host && '{' !in uri
    ensures Replace(Replace(Replace(Replace(Render(t), Braced("uuid"), uuid), Braced("upstream_host"), host),
        Braced("request.uri"), uri), Braced("remote_ip"), ip)
            == Render(FillWord("remote_ip", ip,
                FillWord("request.uri", uri, FillWord("upstream_host", host, FillWord("uuid", uuid, t)))))
  {
    TwoWords("uuid", uuid, "upstream_host", host, t);
    TwoWords("request.uri", uri, "remote_ip", ip, FillWord("upstream_host", host, FillWord("uuid", uuid, t)));
  }

  lemma {:induction false} FilledIsWellFormed(word: string, look: Lookup, t: seq<Segment>)
    requires WellFormed(t) && NamesLack(word, look, t)
    ensures WellFormed(FillReferences(word, look, t))
    ensures forall seg :: seg in FillReferences(word, look, t) && seg.Hole? ==> seg in t && !Refers(word, seg)
  {
    var filled := FillReferences(word, look, t);
    forall seg | seg in filled ensures SegmentOk(seg) && (seg.Hole? ==> seg in t && !Refers(word, seg)) {
      var i :| 0 <= i < |t| && filled[i] == seg;
      assert t[i] in t;
    }
  }

  /** On a whole template whose named values lack the brace, the loop ends and fills the holes. */
  lemma {:induction false} LoopFills(word: string, look: Lookup, t: seq<Segment>)
    requires IsKey("{" + word) && WellFormed(t) && NamesLack(word, look, t)
    ensures Ends("{" + word, look, Render(t))
    ensures RewriteAll("{" + word, look, Render(t)) == Some(Render(FillReferences(word, look, t)))
  {
    WellFormedIsReadable(word, t);
    LackingIsClean(word, look, t);
    LoopFillsReferences(word, look, "", t);
    assert "" + Render(t) == Render(t);
    assert "" + Render(FillReferences(word, look, t)) == Render(FillReferences(word, look, t));
  }

  lemma {:induction false} ReferencePasses(headers: Lookup, env: Lookup, t: seq<Segment>)
    requires WellFormed(t) && NamesLack("header.", headers, t) && NamesLack("env.", env, t)
    requires IsKey(HEADER_KEY) && IsKey(ENV_KEY)
    ensures var t1 := FillReferences("header.", headers, t);
            && Ends(HEADER_KEY, headers, Render(t)) && RewriteAll(HEADER_KEY, headers, Render(t)) == Some(Render(t1))
            && Ends(ENV_KEY, env, Render(t1))
            && RewriteAll(ENV_KEY, env, Render(t1)) == Some(Render(FillReferences("env.", env, t1)))
            && WellFormed(FillReferences("env.", env, t1))
  {
    var t1 := FillReferences("header.", headers, t);
    LoopFills("header.", headers, t);
    FilledIsWellFormed("header.", headers, t);
    LoopFills("env.", env, t1);
    FilledIsWellFormed("env.", env, t1);
  }

  lemma PassesAreDisjoint(headers: Lookup, env: Lookup, uuid: string, host: string, uri: string, ip: string,
      t: seq<Segment>)
    ensures FillWord("remote_ip", ip, FillWord("request.uri", uri, FillWord("upstream_host", host, FillWord("uuid", uuid,
              FillReferences("env.", env, FillReferences("header.", headers, t)))))) ==
            Simultaneous(headers, env, uuid, host, uri, ip, t)
  {
  }

  /** The six passes, one after the other, end and mean the same as replacing every placeholder at once, when no value
      that the template names has a `{`. */
  lemma {:induction false} SubstitutionIsSimultaneous(headers: Lookup, env: Lookup, uuid: string, host: string, uri: string,
      ip: string, t: seq<Segment>)
    requires WellFormed(t) && NamesLack("header.", headers, t) && NamesLack("env.", env, t)
    requires '{' !in uuid && '{' !in host && '{' !in uri
    ensures Returns(headers, env, Render(t))
    ensures UpstreamSubstitution(headers, env, uuid, host, uri, ip, Render(t)) ==
            Some(Render(Simultaneous(headers, env, uuid, host, uri, ip, t)))
  {
    KeysAreKeys();
    var t2 := FillReferences("env.", env, FillReferences("header.", headers, t));
    ReferencePasses(headers, env, t);
    WordPasses(uuid, host, uri, ip, t2);
    PassesAreDisjoint(headers, env, uuid, host, uri, ip, t);
  }

  /** For `header` directives only the first three kinds of placeholder have a meaning. */
  function HeaderMeaning(headers: Lookup, env: Lookup, uuid: string, seg: Segment): Segment {
    match seg
    case Plain(_) => seg
    case Hole(body) =>
      if "header." <= body then Plain(if headers(body[7..]).Some? then headers(body[7..]).value else "")
      else if "env." <= body then Plain(if env(body[4..]).Some? then env(body[4..]).value else "")
      else if body == "uuid" then Plain(uuid)
      else seg
  }

  lemma HeaderPassesAreDisjoint(headers: Lookup, env: Lookup, uuid: string, t: seq<Segment>)
    ensures var filled := FillWord("uuid", uuid, FillReferences("env.", env, FillReferences("header.", headers, t)));
            forall i :: 0 <= i < |t| ==> filled[i] == HeaderMeaning(headers, env, uuid, t[i])
  {
  }

  lemma {:induction false} HeaderSubstitutionIsSimultaneous(headers: Lookup, env: Lookup, uuid: string,
      t: seq<Segment>) returns (filled: seq<Segment>)
    requires WellFormed(t) && NamesLack("header.", headers, t) && NamesLack("env.", env, t)
    ensures |filled| == |t| && forall i :: 0 <= i < |t| ==> filled[i] == HeaderMeaning(headers, env, uuid, t[i])
    ensures Returns(headers, env, Render(t))
    ensures HeaderSubstitution(headers, env, uuid, Render(t)) == Some(Render(filled))
  {
    KeysAreKeys();
    var t2 := FillReferences("env.", env, FillReferences("header.", headers, t));
    ReferencePasses(headers, env, t);
    ReplaceFillsWord("uuid", uuid, t2);
    HeaderPassesAreDisjoint(headers, env, uuid, t);
    filled := FillWord("uuid", uuid, t2);
  }

  // ---------------------------------------------------------------------------
  // Values with braces are read again
  // ---------------------------------------------------------------------------

  lemma {:induction false} ReplaceLoneWord(word: string, value: string, other: string)
    requires '}' !in word && '{' !in other && '}' !in other
    ensures Replace(Braced(other), Braced(word), value) == if other == word then value else Braced(other)
  {
    var t := [Hole(other)];
    HoleRenders(other);
    ReplaceFillsWord(word, value, t);
    assert FillWord(word, value, t) == [if other == word then Plain(value) else Hole(other)];
    PlainRenders(value);
  }

  lemma {:induction false} LoneWordIsNoReference(headers: Lookup, env: Lookup, word: string)
    requires IsKey(HEADER_KEY) && IsKey(ENV_KEY)
    requires '{' !in word && '}' !in word && !("header." <= word) && !("env." <= word)
    ensures Ends(HEADER_KEY, headers, Braced(word)) && Ends(ENV_KEY, env, Braced(word))
    ensures RewriteAll(HEADER_KEY, headers, Braced(word)) == Some(Braced(word))
    ensures RewriteAll(ENV_KEY, env, Braced(word)) == Some(Braced(word))
  {
    var t := [Hole(word)];
    HoleRenders(word);
    ReferencePasses(headers, env, t);
    assert FillReferences("header.", headers, t) == t && FillReferences("env.", env, t) == t;
  }

  /** A request URI may contain braces, and a later pass reads them: the passes are then not simultaneous. */
  lemma {:induction false} UriIsReadAgain(headers: Lookup, env: Lookup, uuid: string, host: string, ip: string)
    ensures Returns(headers, env, Braced("request.uri"))
    ensures UpstreamSubstitution(headers, env, uuid, host, Braced("remote_ip"), ip, Braced("request.uri")) == Some(ip)
  {
    KeysAreKeys();
    assert "request.uri"[0] != "header."[0] && "request.uri"[0] != "env."[0];
    LoneWordIsNoReference(headers, env, "request.uri");
    ReplaceLoneWord("uuid", uuid, "request.uri");
    ReplaceLoneWord("upstream_host", host, "request.uri");
    ReplaceLoneWord("request.uri", Braced("remote_ip"), "request.uri");
    ReplaceLoneWord("remote_ip", ip, "remote_ip");
  }

  // ---------------------------------------------------------------------------
  // Unclosed references
  // ---------------------------------------------------------------------------

  lemma {:induction false} EnvIsNoHeader(q: string, tail: string)
    requires IsKey(HEADER_KEY) && '{' !in q && '{' !in tail
    ensures Clean(q + ENV_KEY + tail, HEADER_KEY)
  {
    BracelessIsClean(q, HEADER_KEY);
    BracelessIsClean(tail, HEADER_KEY);
    assert ENV_KEY[1] != HEADER_KEY[1] && '{' !in ENV_KEY[1..];
    forall i | 0 <= i < |ENV_KEY| ensures !(HEADER_KEY <= ENV_KEY[i..]) && !(ENV_KEY[i..] <= HEADER_KEY) {
      assert i > 0 ==> ENV_KEY[i..][0] == ENV_KEY[1..][i - 1];
      assert i == 0 ==> ENV_KEY[i..] == ENV_KEY;
    }
    CleanJoin(q, ENV_KEY, HEADER_KEY);
    CleanJoin(q + ENV_KEY, tail, HEADER_KEY);
  }

  /** A header or environment reference that is never closed makes the whole substitution fail, for `header` and for
      `header_up`. */
  lemma {:induction false} UnclosedFails(headers: Lookup, env: Lookup, uuid: string, host: string, uri: string, ip: string,
      q: string, tail: string)
    requires '{' !in q && '{' !in tail && '}' !in tail
    ensures var s := q + HEADER_KEY + tail;
            Returns(headers, env, s) && HeaderSubstitution(headers, env, uuid, s).None?
            && UpstreamSubstitution(headers, env, uuid, host, uri, ip, s).None?
    ensures var s := q + ENV_KEY + tail;
            Returns(headers, env, s) && HeaderSubstitution(headers, env, uuid, s).None?
            && UpstreamSubstitution(headers, env, uuid, host, uri, ip, s).None?
  {
    KeysAreKeys();
    BracelessIsClean(q, HEADER_KEY);
    BracelessIsClean(q, ENV_KEY);
    UnclosedIsRefused("header.", headers, q, tail);
    UnclosedIsRefused("env.", env, q, tail);
    EnvIsNoHeader(q, tail);
    NothingToRewrite(q + ENV_KEY + tail, HEADER_KEY, headers);
  }
}
