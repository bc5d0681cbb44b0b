/** Option and Result values, and finite sums. */
module Basics {

  datatype Option<+T> = None | Some(value: T)

  datatype Result<+T, +E> = Ok(value: T) | Err(error: E)

  function Max(a: int, b: int): int {
    if a < b then b else a
  }

  /** The sum of `f` over the indices below `n`: how a total over the rows of a table is computed. */
  function SumUpTo(n: nat, f: nat -> nat): nat {
    if n == 0 then 0 else SumUpTo(n - 1, f) + f(n - 1)
  }

  lemma {:induction false} SumSame(n: nat, f: nat -> nat, g: nat -> nat)
    requires forall i: nat | i < n :: f(i) == g(i)
    ensures SumUpTo(n, f) == SumUpTo(n, g)
  {
    if n > 0 {
      SumSame(n - 1, f, g);
    }
  }

  lemma {:induction false} SumBelow(n: nat, f: nat -> nat, g: nat -> nat)
    requires forall i: nat | i < n :: f(i) <= g(i)
    ensures SumUpTo(n, f) <= SumUpTo(n, g)
  {
    if n > 0 {
      SumBelow(n - 1, f, g);
    }
  }

  /** Two families of weights that differ at one index only have sums that differ by that one weight. */
  lemma {:induction false} SumPoint(n: nat, f: nat -> nat, g: nat -> nat, k: nat)
    requires k < n
    requires forall i: nat | i < n && i != k :: f(i) == g(i)
    ensures SumUpTo(n, g) + f(k) == SumUpTo(n, f) + g(k)
  {
    if k == n - 1 {
      SumSame(n - 1, f, g);
    } else {
      SumPoint(n - 1, f, g, k);
    }
  }

  lemma {:induction false} SumAtLeast(n: nat, f: nat -> nat, k: nat)
    requires k < n
    ensures f(k) <= SumUpTo(n, f)
  {
    if k < n - 1 {
      SumAtLeast(n - 1, f, k);
    }
  }

  lemma {:induction false} SumZero(n: nat, f: nat -> nat)
    requires forall i: nat | i < n :: f(i) == 0
    ensures SumUpTo(n, f) == 0
  {
    if n > 0 {
      SumZero(n - 1, f);
    }
  }

  /** The sum of `f` over a finite set of names. */
  ghost function SumOver(s: set<string>, f: string -> nat): nat
  {
    if s == {} then 0 else
      var x :| x in s;
      f(x) + SumOver(s - {x}, f)
  }

  /** The order in which the names are taken does not matter. */
  lemma {:induction false} SumTake(s: set<string>, f: string -> nat, x: string)
    requires x in s
    ensures SumOver(s, f) == f(x) + SumOver(s - {x}, f)
    decreases s
  {
    var y :| y in s && SumOver(s, f) == f(y) + SumOver(s - {y}, f);
    if y != x {
      SumTake(s - {y}, f, x);
      SumTake(s - {x}, f, y);
      assert s - {y} - {x} == s - {x} - {y};
    }
  }

  lemma {:induction false} SumOverSame(s: set<string>, f: string -> nat, g: string -> nat)
    requires forall x | x in s :: f(x) == g(x)
    ensures SumOver(s, f) == SumOver(s, g)
    decreases s
  {
    if s != {} {
      var x :| x in s;
      SumTake(s, f, x);
      SumTake(s, g, x);
      SumOverSame(s - {x}, f, g);
    }
  }

  /** Where one family of weights is nowhere above another, neither is its sum; and the sums
      agree only when the weights agree everywhere. */
  lemma {:induction false} SumOverBelow(s: set<string>, f: string -> nat, g: string -> nat)
    requires forall x | x in s :: f(x) <= g(x)
    ensures SumOver(s, f) <= SumOver(s, g)
    ensures SumOver(s, f) == SumOver(s, g) <==> forall x | x in s :: f(x) == g(x)
    decreases s
  {
    if s != {} {
      var x :| x in s;
      SumTake(s, f, x);
      SumTake(s, g, x);
      SumOverBelow(s - {x}, f, g);
    }
  }
}
