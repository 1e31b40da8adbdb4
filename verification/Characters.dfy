/** The library operations of `Basics` and `Http`, said character by character: case, order, numbers, replacement, names. */
module Characters {
  import opened Basics
  import opened Http

  const UPPER_LETTERS := "ABCDEFGHIJKLMNOPQRSTUVWXYZ"
  const LOWER_LETTERS := "abcdefghijklmnopqrstuvwxyz"
  const DIGITS := "0123456789"
  const NAME_SIGNS := "!#$%&'*+-.^_`|~"

  // ---------------------------------------------------------------------------
  // Case
  // ---------------------------------------------------------------------------

  /** The same character, or the same ASCII letter in the other case. */
  predicate SameLetter(a: char, b: char) {
    || a == b
    || exists k :: 0 <= k < 26 && ((a == UPPER_LETTERS[k] && b == LOWER_LETTERS[k])
                                   || (a == LOWER_LETTERS[k] && b == UPPER_LETTERS[k]))
  }

  /** Equal character by character, up to ASCII case. */
  predicate SameText(a: string, b: string) {
    |a| == |b| && forall i :: 0 <= i < |a| ==> SameLetter(a[i], b[i])
  }

  lemma LetterAt(k: nat)
    requires k < 26
    ensures UPPER_LETTERS[k] as int == 'A' as int + k && LOWER_LETTERS[k] as int == 'a' as int + k
  {
  }

  lemma {:induction false} LowerLetter(c: char)
    ensures forall k :: 0 <= k < 26 && c == UPPER_LETTERS[k] ==> LowerChar(c) == LOWER_LETTERS[k]
    ensures c !in UPPER_LETTERS ==> LowerChar(c) == c
    ensures LowerChar(c) !in UPPER_LETTERS
  {
    forall k | 0 <= k < 26
      ensures UPPER_LETTERS[k] as int == 'A' as int + k && LOWER_LETTERS[k] as int == 'a' as int + k
    {
      LetterAt(k);
    }
    if 'A' <= c <= 'Z' { assert UPPER_LETTERS[c as int - 'A' as int] == c; }
  }

  lemma {:induction false} SameLetterNumbers(a: char, b: char)
    ensures SameLetter(a, b) <==>
            || a == b
            || ('A' <= a <= 'Z' && b as int == a as int + 32)
            || ('A' <= b <= 'Z' && a as int == b as int + 32)
  {
    forall k | 0 <= k < 26
      ensures UPPER_LETTERS[k] as int == 'A' as int + k && LOWER_LETTERS[k] as int == 'a' as int + k
    {
      LetterAt(k);
    }
    if 'A' <= a <= 'Z' { assert UPPER_LETTERS[a as int - 'A' as int] == a; }
    if 'A' <= b <= 'Z' { assert UPPER_LETTERS[b as int - 'A' as int] == b; }
  }

  lemma {:induction false} LowerSameLetter(a: char, b: char)
    ensures LowerChar(a) == LowerChar(b) <==> SameLetter(a, b)
  {
    SameLetterNumbers(a, b);
  }

  /** `eq_ignore_ascii_case` */
  lemma {:induction false} LowerSameText(a: string, b: string)
    ensures Lower(a) == Lower(b) <==> SameText(a, b)
  {
    forall i | 0 <= i < |a| && i < |b| ensures Lower(a)[i] == Lower(b)[i] <==> SameLetter(a[i], b[i]) {
      LowerSameLetter(a[i], b[i]);
    }
    if SameText(a, b) { assert Lower(a) == Lower(b); }
    if Lower(a) == Lower(b) { assert |a| == |b|; }
  }

  // ---------------------------------------------------------------------------
  // Order
  // ---------------------------------------------------------------------------

  /** The order of strings: a beginning comes first, else the first different character decides. */
  lemma {:induction false} LexExactly(a: string, b: string)
    ensures LexLe(a, b) <==>
            a <= b || exists k :: 0 <= k < |a| && k < |b| && a[..k] == b[..k] && a[k] < b[k]
  {
    if a != "" && b != "" {
      if a[0] == b[0] {
        LexExactly(a[1..], b[1..]);
        assert a <= b <==> a[1..] <= b[1..];
        if k :| 0 <= k < |a[1..]| && k < |b[1..]| && a[1..][..k] == b[1..][..k] && a[1..][k] < b[1..][k] {
          assert a[..k + 1] == [a[0]] + a[1..][..k] && b[..k + 1] == [b[0]] + b[1..][..k];
          assert a[k + 1] < b[k + 1];
        }
        if k :| 0 <= k < |a| && k < |b| && a[..k] == b[..k] && a[k] < b[k] {
          assert a[1..][..k - 1] == a[..k][1..] && b[1..][..k - 1] == b[..k][1..];
          assert a[1..][k - 1] < b[1..][k - 1];
        }
      } else {
        if a[0] < b[0] { assert a[..0] == b[..0]; }
        forall k | 0 < k < |a| && k < |b| ensures a[..k] != b[..k] { assert a[..k][0] != b[..k][0]; }
      }
    }
  }

  // ---------------------------------------------------------------------------
  // Numbers
  // ---------------------------------------------------------------------------

  lemma {:induction false} DigitsExactly(c: char)
    ensures IsDigit(c) <==> c in DIGITS
    ensures IsDigit(c) ==> DIGITS[DigitValue(c)] == c
  {
    if IsDigit(c) { assert DIGITS[c as int - '0' as int] == c; }
  }

  predicate AllZeros(s: string) { forall c :: c in s ==> c == '0' }

  /** The decimal digits of a number behind any number of zeros. */
  ghost predicate Numeral(s: string, v: nat) {
    exists z :: AllZeros(z) && s == z + PrintNat(v)
  }

  lemma {:induction false} LastDigit(front: string, c: char)
    requires IsDigit(c) && forall d :: d in front ==> IsDigit(d)
    ensures DecimalValue(front + [c]) == 10 * DecimalValue(front) + DigitValue(c)
    ensures DigitChar(DigitValue(c)) == c
  {
    assert (front + [c])[..|front|] == front;
  }

  lemma {:induction false} PrintMore(v: nat, d: nat)
    requires d < 10
    ensures PrintNat(10 * v + d) == if v == 0 then [DigitChar(d)] else PrintNat(v) + [DigitChar(d)]
  {
    assert (10 * v + d) / 10 == v && (10 * v + d) % 10 == d;
  }

  lemma {:induction false} OneMoreDigit(front: string, c: char, z: string) returns (z': string)
    requires IsDigit(c) && (forall d :: d in front ==> IsDigit(d))
    requires AllZeros(z) && front == z + PrintNat(DecimalValue(front))
    ensures AllZeros(z') && front + [c] == z' + PrintNat(DecimalValue(front + [c]))
  {
    LastDigit(front, c);
    PrintMore(DecimalValue(front), DigitValue(c));
    if DecimalValue(front) == 0 {
      z' := z + ['0'];
      assert PrintNat(0) == ['0'];
    } else {
      z' := z;
      assert z + PrintNat(DecimalValue(front)) + [c] == z + (PrintNat(DecimalValue(front)) + [c]);
    }
  }

  lemma {:induction false} DigitsAreNumeral(s: string) returns (z: string)
    requires s != "" && forall c :: c in s ==> IsDigit(c)
    ensures AllZeros(z) && s == z + PrintNat(DecimalValue(s))
    decreases |s|
  {
    var front, last := s[..|s| - 1], s[|s| - 1];
    assert s == front + [last] && last in s && forall c :: c in front ==> c in s;
    if front == "" {
      z := "";
      LastDigit("", last);
      PrintMore(0, DigitValue(last));
    } else {
      var before := DigitsAreNumeral(front);
      z := OneMoreDigit(front, last, before);
    }
  }

  lemma {:induction false} ZerosAreNothing(z: string)
    requires AllZeros(z)
    ensures (forall c :: c in z ==> IsDigit(c)) && DecimalValue(z) == 0
  {
    if z != "" {
      var front := z[..|z| - 1];
      assert z[|z| - 1] in z && z == front + [z[|z| - 1]];
      forall c | c in front ensures c == '0' { assert c in z; }
      ZerosAreNothing(front);
    }
  }

  lemma {:induction false} ZerosAddNothing(z: string, s: string)
    requires AllZeros(z) && forall c :: c in s ==> IsDigit(c)
    ensures (forall c :: c in z + s ==> IsDigit(c)) && DecimalValue(z + s) == DecimalValue(s)
    decreases |s|
  {
    if s == "" {
      ZerosAreNothing(z);
      assert z + s == z;
    } else {
      ZerosAddNothing(z, s[..|s| - 1]);
      assert (z + s)[..|z + s| - 1] == z + s[..|s| - 1];
    }
  }

  lemma {:induction false} NumeralValue(z: string, v: nat)
    requires AllZeros(z)
    ensures var s := z + PrintNat(v); s[0] != '+' && (forall c :: c in s ==> IsDigit(c)) && DecimalValue(s) == v
  {
    ZerosAddNothing(z, PrintNat(v));
    PrintedValue(v);
    var s := z + PrintNat(v);
    assert s[0] in s;
  }

  /** `parse::<uN>` accepts exactly the decimal numerals below the limit, with or without a plus sign in front. */
  lemma {:induction false} ParsesExactly(s: string, limit: nat, v: nat)
    ensures ParseUnsigned(s, limit) == Some(v) <==>
            v < limit && (Numeral(s, v) || ("+" <= s && Numeral(s[1..], v)))
  {
    var digits := if |s| > 0 && s[0] == '+' then s[1..] else s;
    if ParseUnsigned(s, limit) == Some(v) { var z := DigitsAreNumeral(digits); }
    forall z | AllZeros(z) ensures var n := z + PrintNat(v); n[0] != '+' && ParseUnsigned(n, limit) ==
                                                             if v < limit then Some(v) else None
    {
      NumeralValue(z, v);
    }
    if Numeral(digits, v) { var z :| AllZeros(z) && digits == z + PrintNat(v); NumeralValue(z, v); }
  }

  // ---------------------------------------------------------------------------
  // Replacing
  // ---------------------------------------------------------------------------

  /** Pieces put together with a separator. */
  function Glue(pieces: seq<string>, sep: string): string
    requires pieces != []
  {
    if |pieces| == 1 then pieces[0] else pieces[0] + sep + Glue(pieces[1..], sep)
  }

  /** The pieces end at the first occurrences, from left to right, and the last piece holds none. */
  predicate CutLeftmost(pieces: seq<string>, find: string)
    requires pieces != []
  {
    if |pieces| == 1 then forall j :: 0 <= j <= |pieces[0]| ==> !MatchesAt(pieces[0], find, j)
    else (forall j :: 0 <= j < |pieces[0]| ==> !MatchesAt(Glue(pieces, find), find, j)) && CutLeftmost(pieces[1..], find)
  }

  lemma MatchShifts(s: string, find: string, j: nat)
    requires s != ""
    ensures j == 0 ==> (MatchesAt(s, find, 0) <==> find <= s)
    ensures j > 0 ==> (MatchesAt(s, find, j) <==> MatchesAt(s[1..], find, j - 1))
  {
    if j > 0 && j + |find| <= |s| { assert s[1..][j - 1..j - 1 + |find|] == s[j..j + |find|]; }
  }

  lemma {:induction false} GlueBehind(c: char, rest: seq<string>, sep: string)
    requires rest != []
    ensures Glue([[c] + rest[0]] + rest[1..], sep) == [c] + Glue(rest, sep)
  {
    var pieces := [[c] + rest[0]] + rest[1..];
    assert pieces[1..] == rest[1..];
    if |rest| > 1 { assert [c] + (rest[0] + sep + Glue(rest[1..], sep)) == ([c] + rest[0]) + sep + Glue(rest[1..], sep); }
  }

  lemma {:induction false} CutBehind(c: char, rest: seq<string>, find: string)
    requires rest != [] && CutLeftmost(rest, find) && !(find <= [c] + Glue(rest, find))
    ensures CutLeftmost([[c] + rest[0]] + rest[1..], find)
  {
    var pieces, s := [[c] + rest[0]] + rest[1..], [c] + Glue(rest, find);
    assert pieces[1..] == rest[1..] && s[1..] == Glue(rest, find);
    GlueBehind(c, rest, find);
    forall j | 0 <= j < |pieces[0]| ensures !MatchesAt(s, find, j) { MatchShifts(s, find, j); }
    if |pieces| == 1 { MatchShifts(s, find, |pieces[0]|); }
  }

  lemma {:induction false} GlueInFront(rest: seq<string>, sep: string, find: string)
    requires rest != []
    ensures Glue([""] + rest, sep) == sep + Glue(rest, sep)
    ensures CutLeftmost(rest, find) ==> CutLeftmost([""] + rest, find)
  {
    assert ([""] + rest)[1..] == rest;
  }

  lemma {:induction false} ReplaceAllGlues(s: string, find: string, with: string) returns (pieces: seq<string>)
    requires find != ""
    ensures pieces != [] && CutLeftmost(pieces, find)
    ensures s == Glue(pieces, find) && ReplaceAll(s, find, with) == Glue(pieces, with)
  {
    if s == "" {
      pieces := [""];
    } else if find <= s {
      var rest := ReplaceAllGlues(s[|find|..], find, with);
      assert s == find + s[|find|..];
      GlueInFront(rest, find, find);
      GlueInFront(rest, with, find);
      pieces := [""] + rest;
    } else {
      var rest := ReplaceAllGlues(s[1..], find, with);
      assert s == [s[0]] + s[1..];
      GlueBehind(s[0], rest, find);
      GlueBehind(s[0], rest, with);
      CutBehind(s[0], rest, find);
      pieces := [[s[0]] + rest[0]] + rest[1..];
    }
  }

  /** A cut around every character, for an empty text to find. */
  function Singles(s: string): seq<string> {
    if s == "" then [""] else [[s[0]]] + Singles(s[1..])
  }

  lemma {:induction false} SinglesGlue(s: string, with: string)
    ensures Glue(Singles(s), "") == s && Glue(Singles(s), with) == Interleave(s, with)
  {
    if s != "" {
      SinglesGlue(s[1..], with);
      assert Singles(s)[1..] == Singles(s[1..]);
    }
  }

  /** `str::replace`: the text is cut at the leftmost occurrences, or around every character when there is nothing to
      find, and glued together with the replacement. */
  lemma {:induction false} ReplaceGlues(s: string, find: string, with: string) returns (pieces: seq<string>)
    ensures pieces != [] && s == Glue(pieces, find) && Replace(s, find, with) == Glue(pieces, with)
    ensures if find == "" then pieces == [""] + Singles(s) else CutLeftmost(pieces, find)
  {
    if find == "" {
      SinglesGlue(s, with);
      pieces := [""] + Singles(s);
      assert pieces[1..] == Singles(s);
    } else {
      pieces := ReplaceAllGlues(s, find, with);
    }
  }

  // ---------------------------------------------------------------------------
  // Header names and values
  // ---------------------------------------------------------------------------

  predicate NameChar(c: char) {
    c in LOWER_LETTERS || c in UPPER_LETTERS || c in DIGITS || c in NAME_SIGNS
  }

  lemma {:induction false} NameCharExactly(c: char)
    ensures IsTokenChar(c) <==> NameChar(c)
  {
    DigitsExactly(c);
    forall k | 0 <= k < 26
      ensures UPPER_LETTERS[k] as int == 'A' as int + k && LOWER_LETTERS[k] as int == 'a' as int + k
    {
      LetterAt(k);
    }
    if 'A' <= c <= 'Z' { assert UPPER_LETTERS[c as int - 'A' as int] == c; }
    if 'a' <= c <= 'z' { assert LOWER_LETTERS[c as int - 'a' as int] == c; }
  }

  lemma {:induction false} LowerHasNoUpper(s: string, n: string)
    ensures n == Lower(s) <==> SameText(s, n) && forall c :: c in n ==> c !in UPPER_LETTERS
  {
    forall i | 0 <= i < |s| ensures LowerChar(s[i]) !in UPPER_LETTERS { LowerLetter(s[i]); }
    forall c | c !in UPPER_LETTERS ensures LowerChar(c) == c { LowerLetter(c); }
    LowerSameText(s, n);
    if n == Lower(s) {
      forall i | 0 <= i < |n| ensures LowerChar(n[i]) == n[i] { assert n[i] == LowerChar(s[i]); }
      assert Lower(n) == n;
    }
    if SameText(s, n) && forall c :: c in n ==> c !in UPPER_LETTERS {
      forall i | 0 <= i < |n| ensures LowerChar(n[i]) == n[i] { assert n[i] in n; }
      assert Lower(n) == n;
    }
  }

  /** A header name is one or more name characters; it is stored in lower case, so spellings that differ only in case
      name one header. */
  lemma {:induction false} HeaderNameExactly(s: string, n: string)
    ensures HeaderName(s) == Some(n) <==>
            && 1 <= |s| <= 65535 && (forall c :: c in s ==> NameChar(c))
            && SameText(s, n) && forall c :: c in n ==> c !in UPPER_LETTERS
  {
    forall c ensures IsTokenChar(c) <==> NameChar(c) { NameCharExactly(c); }
    LowerHasNoUpper(s, n);
  }

  /** `get` reads the first value of a name, `insert` leaves one value, `remove` none, and no other name changes. */
  lemma {:induction false} MultimapLaws(h: HeaderMap, n: string, v: string, more: seq<string>, m: string)
    ensures AllValues(h, n) == Some([v] + more) ==> Get(h, n) == Some(v)
    ensures AllValues(h, n).None? ==> Get(h, n).None?
    ensures AllValues(Insert(h, n, v), m) == if m == n then Some([v]) else AllValues(h, m)
    ensures AllValues(Remove(h, n), m) == if m == n then None else AllValues(h, m)
  {
    assert ([v] + more)[0] == v;
  }
}
