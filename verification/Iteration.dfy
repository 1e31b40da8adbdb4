/** Loops that may not end: a step function applied until it has nothing to do. */
module Iteration {
  import opened Basics

  /** From `s` the loop can make `n` steps and still finds something to do. */
  ghost predicate RunsFor<T>(next: T -> Option<T>, s: T, n: nat)
    decreases n
  {
    next(s).Some? && (n > 0 ==> RunsFor(next, next(s).value, n - 1))
  }

  ghost predicate Ends<T>(next: T -> Option<T>, s: T) {
    exists n: nat :: !RunsFor(next, s, n)
  }

  ghost function FinalWithin<T>(next: T -> Option<T>, s: T, n: nat): T
    requires !RunsFor(next, s, n)
    decreases n
  {
    if next(s).None? then s else FinalWithin(next, next(s).value, n - 1)
  }

  lemma {:induction false} BoundIsFree<T>(next: T -> Option<T>, s: T, n: nat, m: nat)
    requires !RunsFor(next, s, n) && !RunsFor(next, s, m)
    ensures FinalWithin(next, s, n) == FinalWithin(next, s, m)
    decreases n
  {
    if next(s).Some? { BoundIsFree(next, next(s).value, n - 1, m - 1); }
  }

  /** The state in which the loop ends. */
  ghost function Final<T>(next: T -> Option<T>, s: T): T
    requires Ends(next, s)
  {
    var n: nat :| !RunsFor(next, s, n);
    FinalWithin(next, s, n)
  }

  lemma {:induction false} WithinIsFinal<T>(next: T -> Option<T>, s: T, n: nat)
    requires !RunsFor(next, s, n)
    ensures Ends(next, s) && Final(next, s) == FinalWithin(next, s, n)
  {
    var m: nat :| !RunsFor(next, s, m) && Final(next, s) == FinalWithin(next, s, m);
    BoundIsFree(next, s, n, m);
  }

  lemma {:induction false} StopsAlsoLater<T>(next: T -> Option<T>, s: T, n: nat, m: nat)
    requires n <= m && !RunsFor(next, s, n)
    ensures !RunsFor(next, s, m)
    decreases n
  {
    if n > 0 && next(s).Some? { StopsAlsoLater(next, next(s).value, n - 1, m - 1); }
  }

  /** The state after `n` steps, if there are so many. */
  ghost function After<T>(next: T -> Option<T>, s: T, n: nat): Option<T>
    decreases n
  {
    if n == 0 then Some(s) else if next(s).None? then None else After(next, next(s).value, n - 1)
  }

  /** From `s` the loop comes to `s'`. */
  ghost predicate ComesTo<T>(next: T -> Option<T>, s: T, s': T) {
    exists n: nat :: After(next, s, n) == Some(s')
  }

  lemma {:induction false} AfterJoin<T>(next: T -> Option<T>, a: T, n: nat, b: T, m: nat)
    requires After(next, a, n) == Some(b)
    ensures After(next, a, n + m) == After(next, b, m)
    decreases n
  {
    if n > 0 { AfterJoin(next, next(a).value, n - 1, b, m); }
  }

  lemma {:induction false} ComesToTransitive<T>(next: T -> Option<T>, a: T, b: T, c: T)
    requires ComesTo(next, a, b) && ComesTo(next, b, c)
    ensures ComesTo(next, a, c)
  {
    var n: nat :| After(next, a, n) == Some(b);
    var m: nat :| After(next, b, m) == Some(c);
    AfterJoin(next, a, n, b, m);
  }

  lemma {:induction false} StepComesTo<T>(next: T -> Option<T>, s: T)
    requires next(s).Some?
    ensures ComesTo(next, s, next(s).value)
  {
    assert After(next, s, 1) == After(next, next(s).value, 0);
  }

  lemma StaysThere<T>(next: T -> Option<T>, s: T)
    ensures ComesTo(next, s, s)
  {
    assert After(next, s, 0) == Some(s);
  }

  /** The loop ends on a state exactly when it ends on the next one, and in the same state. */
  lemma {:induction false} StepKeepsFinal<T>(next: T -> Option<T>, s: T)
    requires next(s).Some?
    ensures Ends(next, s) <==> Ends(next, next(s).value)
    ensures Ends(next, s) ==> Final(next, s) == Final(next, next(s).value)
  {
    var s' := next(s).value;
    if n: nat :| !RunsFor(next, s', n) {
      assert !RunsFor(next, s, n + 1);
      WithinIsFinal(next, s', n);
      WithinIsFinal(next, s, n + 1);
    }
    if n: nat :| !RunsFor(next, s, n) {
      assert !RunsFor(next, s', n - 1);
    }
  }

  lemma {:induction false} LaterKeepsFinal<T>(next: T -> Option<T>, s: T, s': T, n: nat)
    requires After(next, s, n) == Some(s')
    ensures Ends(next, s) <==> Ends(next, s')
    ensures Ends(next, s) ==> Final(next, s) == Final(next, s')
    decreases n
  {
    if n > 0 {
      StepKeepsFinal(next, s);
      LaterKeepsFinal(next, next(s).value, s', n - 1);
    }
  }

  /** A later state stops no later. */
  lemma {:induction false} LaterStopsSooner<T>(next: T -> Option<T>, s: T, s': T, n: nat, m: nat)
    requires After(next, s, n) == Some(s') && !RunsFor(next, s, m)
    ensures !RunsFor(next, s', m)
    decreases n
  {
    if n > 0 {
      StopsAlsoLater(next, next(s).value, m - 1, m);
      LaterStopsSooner(next, next(s).value, s', n - 1, m);
    }
  }

  lemma {:induction false} NothingToDo<T>(next: T -> Option<T>, s: T)
    requires next(s).None?
    ensures Ends(next, s) && Final(next, s) == s
  {
    WithinIsFinal(next, s, 0);
  }

  /** A measure that every step lowers makes the loop end. */
  lemma {:induction false} MeasureEnds<T(!new)>(next: T -> Option<T>, measure: T -> nat, s: T, n: nat)
    requires forall x :: next(x).Some? ==> measure(next(x).value) < measure(x)
    requires measure(s) <= n
    ensures !RunsFor(next, s, n)
    decreases n
  {
    if next(s).Some? { MeasureEnds(next, measure, next(s).value, n - 1); }
  }
}
