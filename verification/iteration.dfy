/** Iterating a transition function, and stuttering simulations between two of them. */
module Iteration {

  /** n applications of f to x. */
  function Iterate<T>(f: T -> T, x: T, n: nat): T
    decreases n
  {
    if n == 0 then x else Iterate(f, f(x), n - 1)
  }

  lemma {:induction false} IterateCompose<T>(f: T -> T, x: T, i: nat, j: nat)
    ensures Iterate(f, Iterate(f, x, i), j) == Iterate(f, x, i + j)
    decreases i
  {
    if i > 0 {
      IterateCompose(f, f(x), i - 1, j);
    }
  }

  /** One application more. */
  lemma IterateLast<T>(f: T -> T, x: T, n: nat)
    ensures Iterate(f, x, n + 1) == f(Iterate(f, x, n))
  {
    IterateCompose(f, x, n, 1);
    assert Iterate(f, Iterate(f, x, n), 1) == Iterate(f, f(Iterate(f, x, n)), 0);
  }

  lemma {:induction false} IterateFixed<T>(f: T -> T, x: T, n: nat)
    requires f(x) == x
    ensures Iterate(f, x, n) == x
  {
    if n > 0 {
      IterateFixed(f, x, n - 1);
    }
  }

  /** f from a reaches, in n steps, something related to b; n is 0 only if b ranks below top. */
  ghost predicate Catches<A(!new), B(!new)>(f: A -> A, rel: (A, B) -> bool, rank: B -> nat, a: A, b: B, top: nat,
                            n: nat) {
    rel(Iterate(f, a, n), b) && (n == 0 ==> rank(b) < top)
  }

  /** Until `stop`, every step of g is matched by some steps of f; f stands still only while the rank falls. */
  ghost predicate Simulates<A(!new), B(!new)>(f: A -> A, g: B -> B, rel: (A, B) -> bool, stop: A -> bool,
                              rank: B -> nat) {
    forall a, b :: rel(a, b) && !stop(a) ==> exists n: nat :: Catches(f, rel, rank, a, g(b), rank(b), n)
  }

  /** Wherever g goes, f follows, unless it stops. */
  lemma {:induction false} Follow<A(!new), B(!new)>(f: A -> A, g: B -> B, rel: (A, B) -> bool, stop: A -> bool,
                                    rank: B -> nat, a: A, b: B, N: nat)
    returns (n: nat)
    requires Simulates(f, g, rel, stop, rank) && rel(a, b)
    ensures rel(Iterate(f, a, n), Iterate(g, b, N)) || stop(Iterate(f, a, n))
    decreases N
  {
    n := 0;
    if N > 0 && !stop(a) {
      var i: nat :| Catches(f, rel, rank, a, g(b), rank(b), i);
      var j := Follow(f, g, rel, stop, rank, Iterate(f, a, i), g(b), N - 1);
      IterateCompose(f, a, i, j);
      n := i + j;
    }
  }

  /** Wherever f comes to stop for good, g arrives too. */
  lemma {:induction false} Arrive<A(!new), B(!new)>(f: A -> A, g: B -> B, rel: (A, B) -> bool, stop: A -> bool,
                                    rank: B -> nat, a: A, b: B, n: nat)
    returns (N: nat)
    requires Simulates(f, g, rel, stop, rank) && rel(a, b)
    requires stop(Iterate(f, a, n)) && forall x :: stop(x) ==> f(x) == x
    ensures rel(Iterate(f, a, n), Iterate(g, b, N))
    decreases n, rank(b)
  {
    N := 0;
    if stop(a) {
      IterateFixed(f, a, n);
    } else {
      var i: nat :| Catches(f, rel, rank, a, g(b), rank(b), i);
      if n < i {
        IterateCompose(f, a, n, i - n);
        IterateFixed(f, Iterate(f, a, n), i - n);
        N := 1;
        assert Iterate(g, b, 1) == Iterate(g, g(b), 0);
      } else {
        IterateCompose(f, a, i, n - i);
        N := Arrive(f, g, rel, stop, rank, Iterate(f, a, i), g(b), n - i);
        N := N + 1;
      }
    }
  }

  /** What holds at first and is kept by every step holds throughout. */
  lemma {:induction false} Invariant<T(!new)>(f: T -> T, inv: T -> bool, x: T, n: nat)
    requires inv(x) && forall y :: inv(y) ==> inv(f(y))
    ensures inv(Iterate(f, x, n))
    decreases n
  {
    if n > 0 {
      Invariant(f, inv, f(x), n - 1);
    }
  }
}
