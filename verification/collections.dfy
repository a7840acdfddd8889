/** Small facts about numbers, sequences and sets that several components share. */
module Collections {
  function Least(a: nat, b: nat): nat { if a <= b then a else b }

  /** The first `n` items, or all of them. */
  function Take<T>(s: seq<T>, n: nat): seq<T> { if |s| <= n then s else s[..n] }

  function Reversed<T>(s: seq<T>): seq<T> {
    seq(|s|, i requires 0 <= i < |s| => s[|s| - 1 - i])
  }

  /** So many steps from a start. */
  function Iterate<T>(step: T -> T, x: T, n: nat): T
    decreases n
  {
    if n == 0 then x else Iterate(step, step(x), n - 1)
  }

  /** If each step of one machine looks like a step of another, so does any number of them. */
  lemma {:induction false} Simulates<S(!new), T>(step: S -> S, other: T -> T, view: S -> T, x: S, n: nat)
    requires forall s :: view(step(s)) == other(view(s))
    ensures view(Iterate(step, x, n)) == Iterate(other, view(x), n)
    decreases n
  {
    if n > 0 {
      Simulates(step, other, view, step(x), n - 1);
    }
  }

  lemma Associative<T>(a: seq<T>, b: seq<T>, c: seq<T>)
    ensures a + b + c == a + (b + c)
  {
  }

  lemma SubsetCount<T>(all: set<T>, some: set<T>)
    requires some <= all
    ensures |all - some| == |all| - |some|
  {
    assert all == (all - some) + some;
  }
}
