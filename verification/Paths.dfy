/** Path matching and rewriting, and the request target sent to a backend. */
module Paths {
  import opened Basics

  const WILDCARD := "/*"

  /** The literal prefix of a wildcard pattern, or nothing for an exact pattern. */
  function WildcardPrefix(pattern: string): Option<string> {
    if EndsWith(pattern, WILDCARD) then Some(pattern[..|pattern| - 2]) else None
  }

  /** `match_pattern`: what is left of the path when the pattern matches. */
  function MatchPattern(pattern: string, path: string): (r: Option<string>) {
    match WildcardPrefix(pattern)
    case Some(prefix) => if prefix <= path then Some(path[|prefix|..]) else None
    case None => if pattern == path then Some("/") else None
  }

  /** A pattern that ends in slash and star splits the path behind the rest of the pattern, with no regard to segments;
      any other pattern must be the whole path and leaves a slash. */
  lemma {:induction false} MatchExactly(pattern: string, path: string, rest: string)
    ensures MatchPattern(pattern, path) == Some(rest) <==>
            || (exists prefix :: pattern == prefix + "/*" && path == prefix + rest)
            || (path == pattern && rest == "/" && forall prefix :: pattern != prefix + "/*")
  {
    if EndsWith(pattern, WILDCARD) {
      var prefix := pattern[..|pattern| - 2];
      assert pattern == prefix + "/*";
      if path == prefix + rest { assert path[|prefix|..] == rest; }
      forall other | pattern == other + "/*" ensures other == prefix { assert other == pattern[..|pattern| - 2]; }
    } else {
      forall prefix ensures pattern != prefix + "/*" { assert (prefix + "/*")[|prefix|..] == WILDCARD; }
    }
  }

  /** `handle_strip_prefix`: the result of a successful strip always starts with `/`. */
  function StripPrefixFrom(prefix: string, path: string): (r: string)
    ensures prefix <= path ==> "/" <= r && (prefix + r == path || prefix + r[1..] == path)
    ensures !(prefix <= path) ==> r == path
  {
    if prefix <= path then
      var rest := path[|prefix|..];
      if rest == "" || rest[0] != '/' then "/" + rest else rest
    else path
  }

  /** What is sent on is what follows the prefix, with a slash in front only where there is none. */
  lemma {:induction false} StripPrefixExactly(prefix: string, rest: string)
    ensures StripPrefixFrom(prefix, prefix + rest) == if "/" <= rest then rest else "/" + rest
  {
    assert (prefix + rest)[|prefix|..] == rest;
  }

  // ---------------------------------------------------------------------------
  // The moves that a run makes on the path
  // ---------------------------------------------------------------------------

  datatype Move = Entered(pattern: string) | Replaced(find: string, replace: string) | Stripped(prefix: string)

  function ApplyMove(m: Move, path: string): string {
    match m
    case Entered(pattern) => var rest := MatchPattern(pattern, path); if rest.Some? then rest.value else path
    case Replaced(find, replace) => Replace(path, find, replace)
    case Stripped(prefix) => StripPrefixFrom(prefix, path)
  }

  function ApplyMoves(moves: seq<Move>, path: string): string {
    if moves == [] then path else ApplyMoves(moves[1..], ApplyMove(moves[0], path))
  }

  /** Every move enters a wildcard block, and each of them matches where it is made. */
  predicate OnlyWildcards(moves: seq<Move>, path: string) {
    moves == [] ||
    (&& moves[0].Entered? && WildcardPrefix(moves[0].pattern).Some?
     && MatchPattern(moves[0].pattern, path).Some?
     && OnlyWildcards(moves[1..], ApplyMove(moves[0], path)))
  }

  function StrippedText(moves: seq<Move>): string {
    if moves == [] then ""
    else
      (match moves[0]
       case Entered(pattern) => if WildcardPrefix(pattern).Some? then WildcardPrefix(pattern).value else ""
       case _ => "") + StrippedText(moves[1..])
  }

  lemma {:induction false} WildcardsConservePath(moves: seq<Move>, path: string)
    requires OnlyWildcards(moves, path)
    ensures StrippedText(moves) + ApplyMoves(moves, path) == path
  {
    if moves != [] { WildcardsConservePath(moves[1..], ApplyMove(moves[0], path)); }
  }

  /** Only a replacement text can bring a new character into the path; `/` is the one the other moves add. */
  lemma {:induction false} MovesAddNothing(moves: seq<Move>, path: string, c: char)
    requires c != '/' && c !in path
    requires forall m :: m in moves && m.Replaced? ==> c !in m.replace
    ensures c !in ApplyMoves(moves, path)
  {
    if moves != [] {
      var m := moves[0];
      if m.Replaced? { ReplaceAddsNothing(path, m.find, m.replace, c); }
      MovesAddNothing(moves[1..], ApplyMove(m, path), c);
    }
  }

  // ---------------------------------------------------------------------------
  // The forwarded target
  // ---------------------------------------------------------------------------

  /** The client's query is attached again unless the rewritten path already has one. */
  function PathWithQuery(path: string, query: Option<string>): string {
    if query.Some? && '?' !in path then path + "?" + query.value else path
  }

  /** A request target read back: the path, and the query after the first `?`. */
  function SplitTarget(target: string): (string, Option<string>) {
    var path := BeforeFirst(target, '?');
    if |path| < |target| then (path, Some(target[|path| + 1..])) else (path, None)
  }

  /** Nothing is lost or invented exactly when the rewritten path holds no `?` of its own; else the client's query is not
      sent at all. */
  lemma {:induction false} QueryConservedExactly(path: string, query: Option<string>)
    ensures SplitTarget(PathWithQuery(path, query)) == (path, query) <==> '?' !in path
    ensures '?' in path ==> PathWithQuery(path, query) == path
  {
    if '?' !in path && query.Some? {
      BeforeFirstOf(path, query.value, '?');
      assert (path + "?" + query.value)[|path| + 1..] == query.value;
    }
  }
}
