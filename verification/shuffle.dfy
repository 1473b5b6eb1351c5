/**
  Fisher–Yates shuffle as the quote service runs it: walk the positions from
  the last one down to position 1 and swap each with a position drawn
  uniformly from the ones at or before it.

  The random source is a parameter: `draws` lists the successive values of
  the random generator, each in [0, 1), consumed one per step.
 */
module Shuffle {

  /** Every draw is a value the random generator can return. */
  ghost predicate ValidDraws(draws: seq<real>) {
    forall k :: 0 <= k < |draws| ==> 0.0 <= draws[k] < 1.0
  }

  /** Scaling a positive number by a draw in [0, 1) keeps it below that number. */
  lemma ScaleBelow(r: real, n: real)
    requires 0.0 <= r < 1.0 && n > 0.0
    ensures 0.0 <= r * n < n
  {
    assert n - r * n == (1.0 - r) * n;
  }

  /** The swap partner chosen for position `i` from the draw `r`: floor(r * (i + 1)). */
  function DrawIndex(r: real, i: nat): (j: nat)
    requires 0.0 <= r < 1.0
    ensures j <= i
  {
    ScaleBelow(r, (i + 1) as real);
    (r * (i + 1) as real).Floor
  }

  /** Every position in [0, i] is the partner of some draw, so no swap the shuffle may need is ruled out. */
  lemma DrawIndexReachesEveryPosition(i: nat, j: nat)
    requires j <= i
    ensures 0.0 <= j as real / (i + 1) as real < 1.0
    ensures DrawIndex(j as real / (i + 1) as real, i) == j
  {
    var r := j as real / (i + 1) as real;
    assert r * (i + 1) as real == j as real;
  }

  /** Dropping draws from the front leaves valid draws. */
  lemma DrawsSuffix(draws: seq<real>, k: nat)
    requires ValidDraws(draws) && k <= |draws|
    ensures ValidDraws(draws[k..])
  {
    forall m | 0 <= m < |draws| - k
      ensures 0.0 <= draws[k..][m] < 1.0
    {
      assert draws[k..][m] == draws[k + m];
    }
  }

  /** `s` with the elements at positions `i` and `j` exchanged. */
  function Swap<T>(s: seq<T>, i: nat, j: nat): (r: seq<T>)
    requires i < |s| && j < |s|
    ensures |r| == |s|
    ensures r[i] == s[j] && r[j] == s[i]
    ensures multiset(r) == multiset(s)
  {
    s[i := s[j]][j := s[i]]
  }

  /** A swap changes no position other than the two it exchanges. */
  lemma SwapLeavesOthers<T>(s: seq<T>, i: nat, j: nat)
    requires i < |s| && j < |s|
    ensures forall k :: 0 <= k < |s| && k != i && k != j ==> Swap(s, i, j)[k] == s[k]
  {
  }

  /**
    The steps of the shuffle for positions n - 1 down to 1, in that order,
    the step for position n - 1 using the first draw.
   */
  function ShuffleDown<T>(a: seq<T>, n: nat, draws: seq<real>): (r: seq<T>)
    requires n <= |a| && n <= |draws| + 1
    requires ValidDraws(draws)
    ensures |r| == |a|
    ensures multiset(r) == multiset(a)
    ensures forall k :: n <= k < |a| ==> r[k] == a[k]
    decreases n
  {
    if n <= 1 then a
    else
      var j := DrawIndex(draws[0], n - 1);
      SwapLeavesOthers(a, n - 1, j);
      ShuffleDown(Swap(a, n - 1, j), n - 1, draws[1..])
  }

  /** One step of the shuffle: swap position n - 1 with its drawn partner, then shuffle the rest. */
  lemma ShuffleDownStep<T>(a: seq<T>, n: nat, draws: seq<real>)
    requires 1 < n <= |a| && n <= |draws| + 1
    requires ValidDraws(draws)
    ensures ValidDraws(draws[1..])
    ensures ShuffleDown(a, n, draws)
            == ShuffleDown(Swap(a, n - 1, DrawIndex(draws[0], n - 1)), n - 1, draws[1..])
  {
    DrawsSuffix(draws, 1);
  }

  /**
    After the step for position n - 1, taken with draw k, the steps still to
    do (positions n - 2 down to 1, from draw k + 1 on) finish the same shuffle.
   */
  lemma StepLeavesRemainder<T>(before: seq<T>, after: seq<T>, n: nat, draws: seq<real>, k: nat)
    requires 1 < n <= |before| && k + n <= |draws| + 1
    requires ValidDraws(draws)
    requires after == Swap(before, n - 1, DrawIndex(draws[k], n - 1))
    ensures ValidDraws(draws[k..]) && ValidDraws(draws[k + 1..])
    ensures ShuffleDown(after, n - 1, draws[k + 1..]) == ShuffleDown(before, n, draws[k..])
  {
    DrawsSuffix(draws, k);
    DrawsSuffix(draws, k + 1);
    assert draws[k..][1..] == draws[k + 1..];
    ShuffleDownStep(before, n, draws[k..]);
  }

  /** The whole shuffle of `s`: it needs one draw per position except the first. */
  function FisherYates<T>(s: seq<T>, draws: seq<real>): (r: seq<T>)
    requires |s| <= |draws| + 1
    requires ValidDraws(draws)
    ensures |r| == |s|
    ensures multiset(r) == multiset(s)
  {
    ShuffleDown(s, |s|, draws)
  }

  /** `[...array]`: a fresh array holding the elements of `s`. */
  method CopyToArray<T>(s: seq<T>) returns (a: array<T>)
    ensures fresh(a) && a[..] == s
  {
    a := new T[|s|](k requires 0 <= k < |s| => s[k]);
  }

  /** The destructuring swap `[a[i], a[j]] = [a[j], a[i]]` on an array. */
  method SwapInPlace<T>(a: array<T>, i: nat, j: nat)
    requires i < a.Length && j < a.Length
    modifies a
    ensures a[..] == Swap(old(a[..]), i, j)
  {
    a[i], a[j] := a[j], a[i];
  }

  /**
    The shuffle as the service writes it: copy the input into a fresh array,
    swap in place from the last position down, and hand back the array's
    contents. The caller's sequence is a value and cannot change.
   */
  method ShuffleArray<T>(s: seq<T>, draws: seq<real>) returns (r: seq<T>)
    requires |s| <= |draws| + 1
    requires ValidDraws(draws)
    ensures |r| == |s|
    ensures multiset(r) == multiset(s)
    ensures r == FisherYates(s, draws)
  {
    var a := CopyToArray(s);
    var n := |s|;
    var k := 0;
    while n > 1
      invariant 0 <= n <= |s| && k + n == |s| && k <= |draws|
      invariant ValidDraws(draws[k..])
      invariant a.Length == |s|
      invariant multiset(a[..]) == multiset(s)
      invariant ShuffleDown(a[..], n, draws[k..]) == FisherYates(s, draws)
    {
      var j := DrawIndex(draws[k], n - 1);
      ghost var before := a[..];
      SwapInPlace(a, n - 1, j);
      StepLeavesRemainder(before, a[..], n, draws, k);
      n, k := n - 1, k + 1;
    }
    r := a[..];
  }

  /** A shuffle never duplicates an element: an element occurs in the result as often as in the input. */
  lemma ShuffleKeepsOccurrences<T>(s: seq<T>, draws: seq<real>, x: T)
    requires |s| <= |draws| + 1
    requires ValidDraws(draws)
    ensures x in FisherYates(s, draws) <==> x in s
    ensures multiset(FisherYates(s, draws))[x] == multiset(s)[x]
  {
    var r := FisherYates(s, draws);
    assert x in r <==> x in multiset(r);
    assert x in s <==> x in multiset(s);
  }
}
