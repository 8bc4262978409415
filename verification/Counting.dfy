/** Counting up from zero carries sums and products along. */
module Counting {
  ghost predicate Follows<T(!new)>(c: nat -> T, next: T -> T, n: nat) {
    c(n + 1) == next(c(n))
  }

  /** c counts up from zero. */
  ghost predicate Counts<T(!new)>(c: nat -> T, next: T -> T, zero: T) {
    c(0) == zero && forall n: nat {:trigger Follows(c, next, n)} :: Follows(c, next, n)
  }

  /** What addition does with zero and with the next number; and multiplication. */
  ghost predicate Sums<T(!new)>(next: T -> T, zero: T, plus: (T, T) -> T) {
    && (forall x :: plus(x, zero) == x)
    && (forall x, y :: plus(x, next(y)) == next(plus(x, y)))
  }

  ghost predicate Products<T(!new)>(next: T -> T, zero: T, plus: (T, T) -> T, times: (T, T) -> T) {
    && (forall x :: times(x, zero) == zero)
    && (forall x, y :: times(x, next(y)) == plus(times(x, y), x))
  }

  lemma {:induction false} Sum<T(!new)>(c: nat -> T, next: T -> T, zero: T, plus: (T, T) -> T, a: nat, b: nat)
    requires Counts(c, next, zero) && Sums(next, zero, plus)
    ensures c(a + b) == plus(c(a), c(b))
  {
    if b != 0 {
      Sum(c, next, zero, plus, a, b - 1);
      assert Follows(c, next, b - 1) && Follows(c, next, a + (b - 1));
      assert plus(c(a), next(c(b - 1))) == next(plus(c(a), c(b - 1)));
    }
  }

  lemma {:induction false} Product<T(!new)>(
    c: nat -> T, next: T -> T, zero: T, plus: (T, T) -> T, times: (T, T) -> T, a: nat, b: nat)
    requires Counts(c, next, zero) && Sums(next, zero, plus) && Products(next, zero, plus, times)
    ensures c(a * b) == times(c(a), c(b))
  {
    if b != 0 {
      Product(c, next, zero, plus, times, a, b - 1);
      OneMore(a, b);
      Sum(c, next, zero, plus, a * (b - 1), a);
      assert Follows(c, next, b - 1);
      assert times(c(a), next(c(b - 1))) == plus(times(c(a), c(b - 1)), c(a));
    }
  }

  lemma OneMore(a: nat, b: nat)
    requires b != 0
    ensures a * b == a * (b - 1) + a
  {
  }
}
