/** Lines and words of a configuration text, and printing them back. */
module Text {
  import opened Basics

  /** Unicode White_Space, as `trim` and `split_whitespace` use it. */
  predicate IsSpace(c: char) {
    var n := c as int;
    0x09 <= n <= 0x0D || n == 0x20 || n == 0x85 || n == 0xA0 || n == 0x1680 || 0x2000 <= n <= 0x200A
    || n == 0x2028 || n == 0x2029 || n == 0x202F || n == 0x205F || n == 0x3000
  }

  /** The 25 code points of White_Space. */
  const WHITE_SPACE := [9, 10, 11, 12, 13, 32, 133, 160, 5760, 8192, 8193, 8194, 8195, 8196, 8197, 8198, 8199, 8200,
    8201, 8202, 8232, 8233, 8239, 8287, 12288]

  lemma {:induction false} BlanksExactly(c: char)
    ensures IsSpace(c) <==> c as int in WHITE_SPACE
  {
    var n := c as int;
    if 9 <= n <= 13 { assert WHITE_SPACE[n - 9] == n; }
    if 8192 <= n <= 8202 { assert WHITE_SPACE[n - 8183] == n; }
    assert WHITE_SPACE[5] == 32 && WHITE_SPACE[6] == 133 && WHITE_SPACE[7] == 160 && WHITE_SPACE[8] == 5760;
    assert WHITE_SPACE[20] == 8232 && WHITE_SPACE[21] == 8233 && WHITE_SPACE[22] == 8239;
    assert WHITE_SPACE[23] == 8287 && WHITE_SPACE[24] == 12288;
  }

  /** What `split_whitespace` yields: a non-empty word without white space. */
  predicate IsToken(s: string) {
    s != "" && forall c :: c in s ==> !IsSpace(c)
  }

  predicate AllTokens(ts: seq<string>) {
    forall t :: t in ts ==> IsToken(t)
  }

  // ---------------------------------------------------------------------------
  // Words
  // ---------------------------------------------------------------------------

  /** The length of the longest prefix without white space. */
  function WordLength(s: string): (n: nat)
    ensures n <= |s|
    ensures forall i :: 0 <= i < n ==> !IsSpace(s[i])
    ensures n < |s| ==> IsSpace(s[n])
  {
    if s == "" || IsSpace(s[0]) then 0 else 1 + WordLength(s[1..])
  }

  /** `s.split_whitespace().collect()` */
  function Words(s: string): (r: seq<string>)
    ensures AllTokens(r)
  {
    if s == "" then []
    else if IsSpace(s[0]) then Words(s[1..])
    else
      var n := WordLength(s);
      assert AllTokens([s[..n]]);
      [s[..n]] + Words(s[n..])
  }

  /** `ts.join(" ")` */
  function Join(ts: seq<string>): string {
    if ts == [] then "" else if |ts| == 1 then ts[0] else ts[0] + " " + Join(ts[1..])
  }

  lemma {:induction false} TokenLength(t: string, rest: string)
    requires IsToken(t) && (rest == "" || IsSpace(rest[0]))
    ensures WordLength(t + rest) == |t|
  {
    var n := WordLength(t + rest);
    assert forall i :: 0 <= i < |t| ==> (t + rest)[i] == t[i] && t[i] in t;
    assert rest != "" ==> (t + rest)[|t|] == rest[0];
  }

  lemma {:induction false} FirstWord(t: string, rest: string)
    requires IsToken(t) && (rest == "" || IsSpace(rest[0]))
    ensures Words(t + rest) == [t] + Words(rest)
  {
    assert t[0] in t && (t + rest)[0] == t[0];
    TokenLength(t, rest);
    assert (t + rest)[..|t|] == t && (t + rest)[|t|..] == rest;
  }

  /** A text that does not begin with white space begins with a word. */
  lemma {:induction false} CutWord(a: string) returns (word: string, rest: string)
    requires a != "" && !IsSpace(a[0])
    ensures IsToken(word) && a == word + rest && (rest == "" || IsSpace(rest[0])) && |rest| < |a|
  {
    var n := WordLength(a);
    word, rest := a[..n], a[n..];
  }

  /** White space anywhere separates words, and nothing else does. */
  lemma {:induction false} WordsSplit(a: string, c: char, b: string)
    requires IsSpace(c)
    ensures Words(a + [c] + b) == Words(a) + Words(b)
    decreases |a|
  {
    var s := a + [c] + b;
    if a == "" {
      assert s[1..] == b;
    } else if IsSpace(a[0]) {
      assert s[1..] == a[1..] + [c] + b;
      WordsSplit(a[1..], c, b);
    } else {
      var word, rest := CutWord(a);
      FirstWord(word, rest);
      WordsSplit(rest, c, b);
      assert s == word + (rest + [c] + b);
      FirstWord(word, rest + [c] + b);
    }
  }

  lemma {:induction false} LeadingBlank(s: string)
    ensures Words(" " + s) == Words(s)
  {
    assert (" " + s)[1..] == s;
  }

  lemma {:induction false} WordsOfJoin(ts: seq<string>)
    requires AllTokens(ts)
    ensures Words(Join(ts)) == ts
  {
    if ts != [] {
      assert IsToken(ts[0]) && ts == [ts[0]] + ts[1..];
      if |ts| == 1 {
        FirstWord(ts[0], "");
        assert ts[0] + "" == ts[0];
      } else {
        var rest := Join(ts[1..]);
        assert Join(ts) == ts[0] + (" " + rest);
        FirstWord(ts[0], " " + rest);
        LeadingBlank(rest);
        WordsOfJoin(ts[1..]);
      }
    }
  }

  function Last(s: string): char { if s == "" then ' ' else s[|s| - 1] }

  /** A joined line ends as its last word does. */
  lemma {:induction false} JoinEnds(ts: seq<string>)
    requires AllTokens(ts) && ts != []
    ensures Join(ts) != "" && Last(Join(ts)) == Last(ts[|ts| - 1])
  {
    assert IsToken(ts[|ts| - 1]);
    if |ts| > 1 { JoinEnds(ts[1..]); }
  }

  // ---------------------------------------------------------------------------
  // Lines
  // ---------------------------------------------------------------------------

  /** `content.lines()`, each line as its words; a line's end-of-line characters are white space. */
  function Lines(content: string): (r: seq<seq<string>>)
    ensures forall l :: l in r ==> AllTokens(l)
  {
    if content == "" then []
    else
      var line := BeforeFirst(content, '\n');
      [Words(line)] + if |line| < |content| then Lines(content[|line| + 1..]) else []
  }

  function PrintLines(lines: seq<seq<string>>): string {
    if lines == [] then "" else Join(lines[0]) + "\n" + PrintLines(lines[1..])
  }

  lemma {:induction false} JoinHasNoNewline(ts: seq<string>)
    requires AllTokens(ts)
    ensures '\n' !in Join(ts)
  {
    if ts != [] {
      assert IsToken(ts[0]);
      if |ts| > 1 { JoinHasNoNewline(ts[1..]); }
    }
  }

  lemma {:induction false} FirstLine(line: string, rest: string)
    requires '\n' !in line
    ensures Lines(line + "\n" + rest) == [Words(line)] + Lines(rest)
  {
    BeforeFirstOf(line, rest, '\n');
    assert (line + "\n" + rest)[|line| + 1..] == rest;
  }

  /** The last line needs no end, and an end adds no line. */
  lemma {:induction false} LastLine(line: string)
    requires '\n' !in line && line != ""
    ensures Lines(line) == [Words(line)] && Lines(line + "\n") == [Words(line)] && Lines("") == []
  {
    FirstLine(line, "");
    assert line + "\n" + "" == line + "\n";
  }

  /** Printed lines read back as the same words. */
  lemma {:induction false} LinesOfPrint(lines: seq<seq<string>>)
    requires forall l :: l in lines ==> AllTokens(l)
    ensures Lines(PrintLines(lines)) == lines
  {
    if lines != [] {
      var line, rest := Join(lines[0]), PrintLines(lines[1..]);
      assert AllTokens(lines[0]);
      JoinHasNoNewline(lines[0]);
      WordsOfJoin(lines[0]);
      assert forall l :: l in lines[1..] ==> l in lines;
      LinesOfPrint(lines[1..]);
      FirstLine(line, rest);
      assert lines == [lines[0]] + lines[1..];
    }
  }
}
