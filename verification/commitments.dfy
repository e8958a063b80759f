/** Running sums of blinding factors, amounts and commitments, and the balancing factor
    that closes a sum of blinding factors onto a target mod n. */
module Commitments {
  import opened ModArith
  import opened Group

  function Sum(xs: seq<int>): int {
    if xs == [] then 0 else xs[0] + Sum(xs[1..])
  }

  function SumPoints(ps: seq<Point>): Point {
    if ps == [] then Infinity else Add(ps[0], SumPoints(ps[1..]))
  }

  lemma SumPrepend(x: int, xs: seq<int>)
    ensures Sum([x] + xs) == x + Sum(xs)
  {
    assert ([x] + xs)[1..] == xs;
  }

  lemma {:induction false} SumAppend(xs: seq<int>, x: int)
    ensures Sum(xs + [x]) == Sum(xs) + x
  {
    if xs == [] {
      assert [] + [x] == [x];
    } else {
      assert (xs + [x])[1..] == xs[1..] + [x];
      SumAppend(xs[1..], x);
    }
  }

  /** Adding x to a running sum kept mod m keeps it the sum of the sequence mod m. */
  lemma RunningSum(xs: seq<int>, x: int, sum: int, m: int)
    requires m > 0 && sum == Sum(xs) % m
    ensures (sum + x) % m == Sum(xs + [x]) % m
  {
    SumAppend(xs, x);
    AddModLeft(Sum(xs), x, m);
  }

  /** The blinding factor that makes a running sum (already reduced mod n) reach the
      target mod n: (n - sum) + target, or target - sum when that exceeds n. It is never
      0, and it is at most n when the target is itself reduced. */
  function BalancingFactor(sum: nat, target: nat): (f: nat)
    requires sum < N
    ensures f >= 1
    ensures (sum + f) % N == target % N
    ensures target < N ==> f <= N
  {
    var f := (N - sum) + target;
    if f > N then
      target - sum
    else
      assert (sum + f) % N == target % N by {
        ModMultipleAdd(1, target, N);
      }
      f
  }

  /** A sum of commitments commits to the sum of the blinding factors and the sum of the
      amounts. */
  lemma {:induction false} SumOfCommitments(cs: seq<Point>, bfs: seq<int>, amounts: seq<int>)
    requires |cs| == |bfs| == |amounts|
    requires forall i :: 0 <= i < |cs| ==> cs[i] == Commit(bfs[i], amounts[i])
    ensures SumPoints(cs) == Commit(Sum(bfs), Sum(amounts))
  {
    if cs != [] {
      SumOfCommitments(cs[1..], bfs[1..], amounts[1..]);
      CommitAdd(bfs[0], amounts[0], Sum(bfs[1..]), Sum(amounts[1..]));
    }
  }

  /** Commitments to congruent openings are the same point. */
  lemma CommitCongruent(a: int, b: int, a': int, b': int)
    requires a % N == a' % N && b % N == b' % N
    ensures Commit(a, b) == Commit(a', b')
  {
  }
}
