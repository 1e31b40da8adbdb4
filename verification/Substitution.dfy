/** Placeholder substitution (src/auth/headers.rs): the rewriting loops and the passes around them. */
module Substitution {
  import opened Basics
  import opened Http
  import Loop = Iteration

  const HEADER_KEY := "{" + "header."
  const ENV_KEY := "{" + "env."

  /** A placeholder that is just a word. */
  function Braced(word: string): string { "{" + word + "}" }

  type Lookup = string -> Option<string>

  /** `{header.Name}` reads the first value of the header, if it is plain text (`HeaderValue::to_str`). */
  function HeaderLookup(h: HeaderMap, isText: string -> bool): Lookup {
    name => OnlyIf(isText, GetByText(h, name))
  }

  // ---------------------------------------------------------------------------
  // One rewrite
  // ---------------------------------------------------------------------------

  /** A reference that the loop would rewrite next. */
  datatype Scan = NoReference | Unclosed(start: nat) | Reference(start: nat, end: nat)

  predicate IsKey(key: string) {
    key != "" && key[0] == '{' && '{' !in key[1..] && '}' !in key
  }

  lemma KeysAreKeys()
    ensures IsKey(HEADER_KEY) && IsKey(ENV_KEY)
  {
  }

  function ScanFor(s: string, key: string): (r: Scan)
    requires IsKey(key)
    ensures r.Reference? ==> MatchesAt(s, key, r.start) && r.start + |key| <= r.end < |s|
    ensures r.Reference? ==> s[r.start] == '{' && s[r.end] == '}'
  {
    match Find(s, key)
    case None => NoReference
    case Some(start) =>
      match FindFrom(s, "}", start)
      case None => Unclosed(start)
      case Some(end) =>
        MatchChars(s, key, start);
        MatchChars(s, "}", end);
        Reference(start, end)
  }

  function ValueOr(look: Lookup, name: string): string {
    var v := look(name);
    if v.Some? then v.value else ""
  }

  /** `s.replace_range(i..=e, value)` */
  function Splice(s: string, i: nat, e: nat, value: string): string
    requires i <= e < |s|
  {
    s[..i] + value + s[e + 1..]
  }

  /** The text with its first reference replaced by the value it names, or by nothing. */
  function RewriteOnce(key: string, look: Lookup, s: string): string
    requires IsKey(key) && ScanFor(s, key).Reference?
  {
    var ref := ScanFor(s, key);
    Splice(s, ref.start, ref.end, ValueOr(look, s[ref.start + |key|..ref.end]))
  }

  // ---------------------------------------------------------------------------
  // The loop
  // ---------------------------------------------------------------------------

  /** One turn of the loop: its first closed reference rewritten, if there is one. */
  function Rewriter(key: string, look: Lookup): string -> Option<string>
    requires IsKey(key)
  {
    s => if ScanFor(s, key).Reference? then Some(RewriteOnce(key, look, s)) else None
  }

  /** The loop can make `n` rewrites and still finds a closed reference. */
  ghost predicate RunsFor(key: string, look: Lookup, s: string, n: nat)
    requires IsKey(key)
  {
    Loop.RunsFor(Rewriter(key, look), s, n)
  }

  /** The loop comes to an end, with a result or with the error for an unclosed reference. */
  ghost predicate Ends(key: string, look: Lookup, s: string)
    requires IsKey(key)
  {
    Loop.Ends(Rewriter(key, look), s)
  }

  /** From `s` the loop comes to `s'`. */
  ghost predicate ComesTo(key: string, look: Lookup, s: string, s': string)
    requires IsKey(key)
  {
    Loop.ComesTo(Rewriter(key, look), s, s')
  }

  /** What the loop computes where it ends: all references replaced, or nothing when one is not closed. */
  ghost function RewriteAll(key: string, look: Lookup, s: string): Option<string>
    requires IsKey(key) && Ends(key, look, s)
  {
    var last := Loop.Final(Rewriter(key, look), s);
    if ScanFor(last, key).NoReference? then Some(last) else None
  }

  /** One of the two `while let` loops of `process_header_substitution`, wherever it ends. */
  method RewriteLoop(key: string, look: Lookup, value: string) returns (r: Option<string>)
    requires IsKey(key) && Ends(key, look, value)
    ensures r == RewriteAll(key, look, value)
  {
    ghost var next := Rewriter(key, look);
    ghost var bound: nat :| !Loop.RunsFor(next, value, bound);
    Loop.WithinIsFinal(next, value, bound);
    var result := value;
    while true
      invariant !Loop.RunsFor(next, result, bound)
      invariant Loop.FinalWithin(next, result, bound) == Loop.Final(next, value)
      decreases bound
    {
      match ScanFor(result, key)
      case NoReference =>
        return Some(result);
      case Unclosed(_) =>
        return None;
      case Reference(start, end) =>
        result := RewriteOnce(key, look, result);
        bound := bound - 1;
    }
  }

  lemma {:induction false} RewriteComesTo(key: string, look: Lookup, s: string)
    requires IsKey(key) && ScanFor(s, key).Reference?
    ensures ComesTo(key, look, s, RewriteOnce(key, look, s))
  {
    Loop.StepComesTo(Rewriter(key, look), s);
  }

  /** The loop ends on both or on neither, and with the same result. */
  lemma {:induction false} SameResult(key: string, look: Lookup, s: string, s': string)
    requires IsKey(key) && ComesTo(key, look, s, s')
    ensures Ends(key, look, s) <==> Ends(key, look, s')
    ensures Ends(key, look, s) ==> RewriteAll(key, look, s) == RewriteAll(key, look, s')
  {
    var n: nat :| Loop.After(Rewriter(key, look), s, n) == Some(s');
    Loop.LaterKeepsFinal(Rewriter(key, look), s, s', n);
  }

  /** On the later text it stops no later. */
  lemma {:induction false} StopsNoLater(key: string, look: Lookup, s: string, s': string, n: nat)
    requires IsKey(key) && ComesTo(key, look, s, s') && !RunsFor(key, look, s, n)
    ensures !RunsFor(key, look, s', n)
  {
    var m: nat :| Loop.After(Rewriter(key, look), s, m) == Some(s');
    Loop.LaterStopsSooner(Rewriter(key, look), s, s', m, n);
  }

  lemma {:induction false} NoReferenceEnds(key: string, look: Lookup, s: string)
    requires IsKey(key) && ScanFor(s, key).NoReference?
    ensures Ends(key, look, s) && RewriteAll(key, look, s) == Some(s)
  {
    Loop.NothingToDo(Rewriter(key, look), s);
  }

  lemma {:induction false} UnclosedEnds(key: string, look: Lookup, s: string)
    requires IsKey(key) && ScanFor(s, key).Unclosed?
    ensures Ends(key, look, s) && RewriteAll(key, look, s) == None
  {
    Loop.NothingToDo(Rewriter(key, look), s);
  }

  // ---------------------------------------------------------------------------
  // A measure for tame values
  // ---------------------------------------------------------------------------

  ghost predicate Lacks(look: Lookup, c: char) {
    forall name :: look(name).Some? ==> c !in look(name).value
  }

  /** No value has a `{`, or none has a `}`. */
  ghost predicate Tame(look: Lookup) {
    Lacks(look, '{') || Lacks(look, '}')
  }

  lemma ValueLacks(look: Lookup, name: string, c: char)
    requires Lacks(look, c)
    ensures c !in ValueOr(look, name)
  {
  }

  lemma {:induction false} CutCounts(s: string, i: nat, e: nat, value: string, c: char)
    requires i <= e < |s| && c !in value && (s[i] == c || s[e] == c)
    ensures multiset(Splice(s, i, e, value))[c] < multiset(s)[c]
  {
    var middle := s[i..e + 1];
    assert middle[0] == s[i] && middle[|middle| - 1] == s[e];
    assert c in middle;
    assert s == s[..i] + middle + s[e + 1..];
  }

  /** Each rewrite removes a brace that no value brings back. */
  lemma {:induction false} RewriteShrinks(key: string, look: Lookup, s: string, brace: char)
    requires IsKey(key) && (brace == '{' || brace == '}') && Lacks(look, brace) && ScanFor(s, key).Reference?
    ensures multiset(RewriteOnce(key, look, s))[brace] < multiset(s)[brace]
  {
    var ref := ScanFor(s, key);
    var name := s[ref.start + |key|..ref.end];
    ValueLacks(look, name, brace);
    CutCounts(s, ref.start, ref.end, ValueOr(look, name), brace);
  }

  /** With tame values the loop ends on every text, well-formed or not. */
  lemma {:induction false} TameEnds(key: string, look: Lookup, s: string)
    requires IsKey(key) && Tame(look)
    ensures Ends(key, look, s)
  {
    var brace := if Lacks(look, '{') then '{' else '}';
    var measure: string -> nat := x => multiset(x)[brace];
    forall x | Rewriter(key, look)(x).Some? ensures measure(Rewriter(key, look)(x).value) < measure(x) {
      RewriteShrinks(key, look, x, brace);
    }
    Loop.MeasureEnds(Rewriter(key, look), measure, s, measure(s));
  }

  // ---------------------------------------------------------------------------
  // The whole substitution
  // ---------------------------------------------------------------------------

  /** Both loops end, the second on what the first one leaves. */
  ghost predicate Returns(headers: Lookup, env: Lookup, value: string) {
    KeysAreKeys();
    && Ends(HEADER_KEY, headers, value)
    && var s := RewriteAll(HEADER_KEY, headers, value);
       s.Some? ==> Ends(ENV_KEY, env, s.value)
  }

  ghost function HeaderSubstitution(headers: Lookup, env: Lookup, uuid: string, value: string): Option<string>
    requires Returns(headers, env, value)
  {
    KeysAreKeys();
    match RewriteAll(HEADER_KEY, headers, value)
    case None => None
    case Some(s) =>
      match RewriteAll(ENV_KEY, env, s)
      case None => None
      case Some(t) => Some(Replace(t, Braced("uuid"), uuid))
  }

  /** `process_header_substitution`, wherever it returns. */
  method ProcessHeaderSubstitution(headers: Lookup, env: Lookup, uuid: string, value: string) returns (r: Option<string>)
    requires Returns(headers, env, value)
    ensures r == HeaderSubstitution(headers, env, uuid, value)
  {
    KeysAreKeys();
    r := RewriteLoop(HEADER_KEY, headers, value);
    if r.None? { return; }
    r := RewriteLoop(ENV_KEY, env, r.value);
    if r.None? { return; }
    r := Some(Replace(r.value, Braced("uuid"), uuid));
  }

  ghost function UpstreamSubstitution(headers: Lookup, env: Lookup, uuid: string, host: string, uri: string, ip: string,
      value: string): Option<string>
    requires Returns(headers, env, value)
  {
    match HeaderSubstitution(headers, env, uuid, value)
    case None => None
    case Some(s) => Some(Replace(Replace(Replace(s, Braced("upstream_host"), host), Braced("request.uri"), uri),
        Braced("remote_ip"), ip))
  }

  /** `process_upstream_substitution`, wherever it returns. */
  method ProcessUpstreamSubstitution(headers: Lookup, env: Lookup, uuid: string, host: string, uri: string, ip: string,
      value: string)
    returns (r: Option<string>)
    requires Returns(headers, env, value)
    ensures r == UpstreamSubstitution(headers, env, uuid, host, uri, ip, value)
  {
    r := ProcessHeaderSubstitution(headers, env, uuid, value);
    if r.None? { return; }
    var result := r.value;
    result := Replace(result, Braced("upstream_host"), host);
    result := Replace(result, Braced("request.uri"), uri);
    result := Replace(result, Braced("remote_ip"), ip);
    r := Some(result);
  }
}
