/** Options, results, and the string operations the proxy takes from its standard library. */
module Basics {

  datatype Option<+T> = None | Some(value: T)

  datatype Result<+T, +E> = Ok(value: T) | Err(error: E)

  // ---------------------------------------------------------------------------
  // Iteration over hash maps
  // ---------------------------------------------------------------------------

  /** `order` lists each element once, in whatever order a hash map is iterated. */
  ghost predicate Enumerates<T(!new)>(order: seq<T>, elements: set<T>) {
    && (forall x :: x in order <==> x in elements)
    && (forall i, j :: 0 <= i < j < |order| ==> order[i] != order[j])
  }

  predicate NoRepeats<T(==)>(s: seq<T>) {
    forall i, j :: 0 <= i < j < |s| ==> s[i] != s[j]
  }

  /** Different elements of a set are no more than the set has. */
  lemma {:induction false} NoRepeatsFit<T>(s: seq<T>, elements: set<T>)
    requires NoRepeats(s) && forall x :: x in s ==> x in elements
    ensures |s| <= |elements|
  {
    if s != [] {
      var last, before := s[|s| - 1], s[..|s| - 1];
      NoRepeatsFit(before, elements - {last});
    }
  }

  lemma TakeNext<T>(s: seq<T>, i: nat)
    requires i < |s|
    ensures s[..i + 1] == s[..i] + [s[i]]
  {
  }

  lemma TakeAll<T>(s: seq<T>)
    ensures s[..|s|] == s
  {
  }

  method InSomeOrder<T(==,!new)>(elements: set<T>) returns (order: seq<T>)
    ensures Enumerates(order, elements)
  {
    order := [];
    var left := elements;
    while left != {}
      invariant left <= elements && Enumerates(order, elements - left)
      decreases left
    {
      var x :| x in left;
      order, left := order + [x], left - {x};
    }
  }

  // ---------------------------------------------------------------------------
  // Searching
  // ---------------------------------------------------------------------------

  predicate MatchesAt(s: string, pattern: string, i: nat) {
    i + |pattern| <= |s| && s[i..i + |pattern|] == pattern
  }

  lemma {:induction false} MatchChars(s: string, pattern: string, i: nat)
    ensures MatchesAt(s, pattern, i) ==> forall j :: i <= j < i + |pattern| ==> s[j] == pattern[j - i]
  {
    if MatchesAt(s, pattern, i) {
      forall j | i <= j < i + |pattern| ensures s[j] == pattern[j - i] {
        assert s[i..i + |pattern|][j - i] == s[j];
      }
    }
  }

  function FindFrom(s: string, pattern: string, i: nat): (r: Option<nat>)
    requires i <= |s|
    ensures r.Some? ==> i <= r.value && MatchesAt(s, pattern, r.value)
    ensures r.Some? ==> forall j :: i <= j < r.value ==> !MatchesAt(s, pattern, j)
    ensures r.None? ==> forall j :: i <= j <= |s| ==> !MatchesAt(s, pattern, j)
    decreases |s| - i
  {
    if MatchesAt(s, pattern, i) then Some(i)
    else if i == |s| then None
    else FindFrom(s, pattern, i + 1)
  }

  /** `s.find(pattern)`: the least index at which the pattern occurs. */
  function Find(s: string, pattern: string): (r: Option<nat>)
    ensures r.Some? ==> MatchesAt(s, pattern, r.value)
    ensures r.Some? ==> forall j :: 0 <= j < r.value ==> !MatchesAt(s, pattern, j)
    ensures r.None? ==> forall j :: 0 <= j <= |s| ==> !MatchesAt(s, pattern, j)
  {
    FindFrom(s, pattern, 0)
  }

  predicate EndsWith(s: string, suffix: string) {
    |suffix| <= |s| && s[|s| - |suffix|..] == suffix
  }

  /** The text after the last occurrence of `c`, or all of `s`. */
  function AfterLast(s: string, c: char): (r: string)
    ensures c !in r && EndsWith(s, r)
    ensures c !in s ==> r == s
  {
    if s == "" then ""
    else if s[|s| - 1] == c then ""
    else AfterLast(s[..|s| - 1], c) + [s[|s| - 1]]
  }

  /** The text before the first occurrence of `c`, or all of `s`. */
  function BeforeFirst(s: string, c: char): (r: string)
    ensures c !in r && r <= s
    ensures c !in s ==> r == s
    ensures c in s ==> |r| < |s| && s[|r|] == c
  {
    if s == "" || s[0] == c then "" else [s[0]] + BeforeFirst(s[1..], c)
  }

  lemma {:induction false} BeforeFirstOf(path: string, rest: string, c: char)
    requires c !in path
    ensures BeforeFirst(path + [c] + rest, c) == path
  {
    if path == "" {
      assert (path + [c] + rest)[0] == c;
    } else {
      BeforeFirstOf(path[1..], rest, c);
      assert (path + [c] + rest)[1..] == path[1..] + [c] + rest;
    }
  }

  lemma {:induction false} AfterLastOf(s: string, c: char, rest: string)
    requires c !in rest
    ensures AfterLast(s + [c] + rest, c) == rest
  {
    var whole := s + [c] + rest;
    if rest == "" {
      assert whole[|whole| - 1] == c;
    } else {
      assert whole[..|whole| - 1] == s + [c] + rest[..|rest| - 1];
      AfterLastOf(s, c, rest[..|rest| - 1]);
    }
  }

  lemma {:induction false} AfterLastSplits(s: string, c: char)
    requires c in s
    ensures |AfterLast(s, c)| < |s| && s == s[..|s| - |AfterLast(s, c)| - 1] + [c] + AfterLast(s, c)
  {
    if s[|s| - 1] != c {
      var front := s[..|s| - 1];
      assert s == front + [s[|s| - 1]];
      AfterLastSplits(front, c);
    }
  }

  // ---------------------------------------------------------------------------
  // Replacing
  // ---------------------------------------------------------------------------

  function Interleave(s: string, with: string): string {
    if s == "" then "" else [s[0]] + with + Interleave(s[1..], with)
  }

  function ReplaceAll(s: string, find: string, with: string): string
    requires find != ""
  {
    if s == "" then ""
    else if find <= s then with + ReplaceAll(s[|find|..], find, with)
    else [s[0]] + ReplaceAll(s[1..], find, with)
  }

  /** `s.replace(find, with)`: leftmost, non-overlapping; an empty `find` matches around every character. */
  function Replace(s: string, find: string, with: string): string {
    if find == "" then with + Interleave(s, with) else ReplaceAll(s, find, with)
  }

  lemma {:induction false} InterleaveAddsNothing(s: string, with: string, c: char)
    requires c !in s && c !in with
    ensures c !in Interleave(s, with)
  {
    if s != "" { InterleaveAddsNothing(s[1..], with, c); }
  }

  lemma {:induction false} ReplaceAllAddsNothing(s: string, find: string, with: string, c: char)
    requires find != "" && c !in s && c !in with
    ensures c !in ReplaceAll(s, find, with)
  {
    if s != "" {
      if find <= s {
        ReplaceAllAddsNothing(s[|find|..], find, with, c);
      } else {
        ReplaceAllAddsNothing(s[1..], find, with, c);
      }
    }
  }

  /** Replacing introduces no character that is in neither the text nor the replacement. */
  lemma {:induction false} ReplaceAddsNothing(s: string, find: string, with: string, c: char)
    requires c !in s && c !in with
    ensures c !in Replace(s, find, with)
  {
    if find == "" { InterleaveAddsNothing(s, with, c); } else { ReplaceAllAddsNothing(s, find, with, c); }
  }

  // ---------------------------------------------------------------------------
  // ASCII case
  // ---------------------------------------------------------------------------

  function LowerChar(c: char): char {
    if 'A' <= c <= 'Z' then (c as int + 32) as char else c
  }

  /** `to_ascii_lowercase`; `a.eq_ignore_ascii_case(b)` is `Lower(a) == Lower(b)`. */
  function Lower(s: string): (r: string)
    ensures |r| == |s|
    ensures forall i :: 0 <= i < |s| ==> r[i] == LowerChar(s[i])
  {
    seq(|s|, i requires 0 <= i < |s| => LowerChar(s[i]))
  }

  // ---------------------------------------------------------------------------
  // Lexicographic order
  // ---------------------------------------------------------------------------

  predicate LexLe(a: string, b: string) {
    a == "" || (b != "" && (a[0] < b[0] || (a[0] == b[0] && LexLe(a[1..], b[1..]))))
  }

  lemma {:induction false} LexTotal(a: string, b: string)
    ensures LexLe(a, a) && (LexLe(a, b) || LexLe(b, a))
    ensures LexLe(a, b) && LexLe(b, a) ==> a == b
  {
    if a != "" {
      LexTotal(a[1..], if b == "" then "" else b[1..]);
      assert a == [a[0]] + a[1..];
      assert b != "" ==> b == [b[0]] + b[1..];
    }
  }

  lemma {:induction false} LexTransitive(a: string, b: string, c: string)
    requires LexLe(a, b) && LexLe(b, c)
    ensures LexLe(a, c)
  {
    if a != "" && a[0] == b[0] == c[0] { LexTransitive(a[1..], b[1..], c[1..]); }
  }

  /** The first of the names once sorted. */
  function Least(names: seq<string>): (r: string)
    requires names != []
    ensures r in names
  {
    if |names| == 1 then names[0]
    else var m := Least(names[1..]); if LexLe(names[0], m) then names[0] else m
  }

  lemma {:induction false} LeastIsLeast(names: seq<string>, n: string)
    requires n in names
    ensures LexLe(Least(names), n)
  {
    LexTotal(names[0], n);
    if |names| > 1 {
      var m := Least(names[1..]);
      LexTotal(names[0], m);
      if n in names[1..] {
        LeastIsLeast(names[1..], n);
        if LexLe(names[0], m) { LexTransitive(names[0], m, n); }
      }
    }
  }

  // ---------------------------------------------------------------------------
  // Decimal numbers
  // ---------------------------------------------------------------------------

  const U16_LIMIT := 0x1_0000
  const U64_LIMIT := 0x1_0000_0000_0000_0000

  predicate IsDigit(c: char) { '0' <= c <= '9' }

  function DigitValue(c: char): nat
    requires IsDigit(c)
  {
    c as int - '0' as int
  }

  function DigitChar(d: nat): (c: char)
    requires d < 10
    ensures IsDigit(c) && DigitValue(c) == d
  {
    ('0' as int + d) as char
  }

  function DecimalValue(s: string): nat
    requires forall c :: c in s ==> IsDigit(c)
  {
    if s == "" then 0 else 10 * DecimalValue(s[..|s| - 1]) + DigitValue(s[|s| - 1])
  }

  /** `s.parse::<uN>()`: an optional `+`, at least one digit, and a value below the type's limit. */
  function ParseUnsigned(s: string, limit: nat): (r: Option<nat>)
    ensures r.Some? ==> r.value < limit
  {
    var digits := if |s| > 0 && s[0] == '+' then s[1..] else s;
    if digits == "" || (exists c :: c in digits && !IsDigit(c)) then None
    else if DecimalValue(digits) < limit then Some(DecimalValue(digits))
    else None
  }

  function PrintNat(n: nat): (s: string)
    ensures s != "" && forall c :: c in s ==> IsDigit(c)
  {
    if n < 10 then [DigitChar(n)] else PrintNat(n / 10) + [DigitChar(n % 10)]
  }

  lemma {:induction false} PrintedValue(n: nat)
    ensures DecimalValue(PrintNat(n)) == n
  {
    if n >= 10 {
      PrintedValue(n / 10);
      var s := PrintNat(n);
      assert s[..|s| - 1] == PrintNat(n / 10);
    }
  }

  lemma {:induction false} PrintThenParse(n: nat, limit: nat)
    ensures ParseUnsigned(PrintNat(n), limit) == if n < limit then Some(n) else None
  {
    PrintedValue(n);
    assert IsDigit(PrintNat(n)[0]);
  }
}
