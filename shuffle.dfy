/**
 * The in-place Fisher–Yates shuffle that parseAmount runs on its bill and
 * coin queues (app.js:785-796). `Math.random()` is a parameter: a stream of
 * draws in [0, 1), indexed by how many draws were made before.
 */
module FisherYates {

  /** A value `Math.random()` can return. */
  type Unit = u: real | 0.0 <= u < 1.0

  /** `Math.floor(u * (i + 1))`: the partner index chosen for position `i`. */
  function RandomIndex(u: Unit, i: nat): (j: nat)
    ensures j <= i
  {
    var n := (i + 1) as real;
    var x := u * n;
    assert x < n by {
      assert n - x == (1.0 - u) * n;
      PositiveProduct(1.0 - u, n);
    }
    x.Floor
  }

  lemma PositiveProduct(a: real, b: real)
    requires a > 0.0 && b > 0.0
    ensures a * b > 0.0
  {
  }

  function Swap<T>(s: seq<T>, i: nat, j: nat): (r: seq<T>)
    requires i < |s| && j < |s|
  {
    s[i := s[j]][j := s[i]]
  }

  /** Number of draws one shuffle of `n` elements consumes. */
  function DrawsFor(n: nat): nat
  {
    if n == 0 then 0 else n - 1
  }

  /**
   * The shuffle as a function: positions `i`, `i - 1`, ..., `1` are each
   * swapped with a random position not after them, using draws `draw`,
   * `draw + 1`, ....
   */
  function Shuffled<T>(s: seq<T>, i: int, rng: nat -> Unit, draw: nat): seq<T>
    requires i < |s|
    decreases i
  {
    if i <= 0 then s
    else Shuffled(Swap(s, i, RandomIndex(rng(draw), i)), i - 1, rng, draw + 1)
  }

  /** One step of the shuffle: swap position `i` with its drawn partner, then shuffle below `i`. */
  lemma ShuffledStep<T>(s: seq<T>, i: nat, rng: nat -> Unit, draw: nat)
    requires 0 < i < |s|
    ensures Shuffled(s, i, rng, draw) == Shuffled(Swap(s, i, RandomIndex(rng(draw), i)), i - 1, rng, draw + 1)
  {
  }

  lemma SwapPermutes<T>(s: seq<T>, i: nat, j: nat)
    requires i < |s| && j < |s|
    ensures |Swap(s, i, j)| == |s|
    ensures multiset(Swap(s, i, j)) == multiset(s)
  {
    var t := s[i := s[j]];
    assert multiset(t) == multiset(s) - multiset{s[i]} + multiset{s[j]};
    assert multiset(t[j := s[i]]) == multiset(t) - multiset{t[j]} + multiset{s[i]};
  }

  /** The shuffle only reorders: the result is a permutation of its input. */
  lemma {:induction false} ShuffledPermutes<T>(s: seq<T>, i: int, rng: nat -> Unit, draw: nat)
    requires i < |s|
    ensures |Shuffled(s, i, rng, draw)| == |s|
    ensures multiset(Shuffled(s, i, rng, draw)) == multiset(s)
    decreases i
  {
    if i > 0 {
      var j := RandomIndex(rng(draw), i);
      SwapPermutes(s, i, j);
      ShuffledPermutes(Swap(s, i, j), i - 1, rng, draw + 1);
    }
  }

  /** Every element of the shuffled sequence comes from the input. */
  lemma ShuffledMembers<T>(s: seq<T>, i: int, rng: nat -> Unit, draw: nat)
    requires i < |s|
    ensures |Shuffled(s, i, rng, draw)| == |s|
    ensures forall x :: x in Shuffled(s, i, rng, draw) ==> x in s
  {
    ShuffledPermutes(s, i, rng, draw);
    forall x | x in Shuffled(s, i, rng, draw) ensures x in s {
      assert x in multiset(Shuffled(s, i, rng, draw));
    }
  }

  /**
   * Shuffles `a` in place, scanning from the last position down to 1, and
   * returns the index of the next unused draw.
   */
  method ShuffleInPlace<T>(a: array<T>, rng: nat -> Unit, draw: nat) returns (next: nat)
    modifies a
    ensures a[..] == Shuffled(old(a[..]), a.Length - 1, rng, draw)
    ensures multiset(a[..]) == multiset(old(a[..]))
    ensures next == draw + DrawsFor(a.Length)
  {
    var i := a.Length - 1;
    next := draw;
    while i > 0
      invariant -1 <= i < a.Length && (i == -1 ==> a.Length == 0)
      invariant next == draw + (a.Length - 1 - i)
      invariant Shuffled(a[..], i, rng, next) == Shuffled(old(a[..]), a.Length - 1, rng, draw)
    {
      var j := RandomIndex(rng(next), i);
      ghost var before := a[..];
      SwapInPlace(a, i, j);
      ShuffledStep(before, i, rng, next);
      assert Shuffled(a[..], i - 1, rng, next + 1) == Shuffled(before, i, rng, next);
      i := i - 1;
      next := next + 1;
    }
    ShuffledPermutes(old(a[..]), a.Length - 1, rng, draw);
  }

  /** `[arr[i], arr[j]] = [arr[j], arr[i]]`. */
  method SwapInPlace<T>(a: array<T>, i: nat, j: nat)
    requires i < a.Length && j < a.Length
    modifies a
    ensures a[..] == Swap(old(a[..]), i, j)
  {
    var t := a[i];
    a[i] := a[j];
    a[j] := t;
  }
}
