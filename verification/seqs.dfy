/** Small facts about sequences shared by the seeding and layout code. */
module Seqs {

  predicate Distinct<T(==)>(s: seq<T>) {
    forall p, q | 0 <= p < q < |s| :: s[p] != s[q]
  }

  lemma TailIndex<T>(s: seq<T>, m: nat)
    requires m + 1 < |s|
    ensures s[1..][m] == s[m + 1]
  {
  }

  /** Dropping the head of a list without repeats leaves a list without repeats that misses it. */
  lemma DistinctTail<T>(s: seq<T>)
    requires |s| > 0 && Distinct(s)
    ensures Distinct(s[1..]) && s[0] !in s[1..]
  {
    forall m | 0 <= m < |s[1..]| ensures s[1..][m] != s[0] {
      assert s[1..][m] == s[m + 1];
    }
  }

  lemma DistinctConcat<T>(a: seq<T>, b: seq<T>)
    requires Distinct(a) && Distinct(b)
    requires forall x | x in a :: x !in b
    ensures Distinct(a + b)
  {
    var ab := a + b;
    forall p, q | 0 <= p < q < |ab| ensures ab[p] != ab[q] {
      if q >= |a| && p < |a| {
        assert ab[p] == a[p] && ab[q] == b[q - |a|];
        assert a[p] in a && b[q - |a|] in b;
      } else if p >= |a| {
        assert ab[p] == b[p - |a|] && ab[q] == b[q - |a|];
      }
    }
  }

  /** `n` copies of `x`: Python's `[x] * n` for a non-negative `n`. */
  function Repeat<T>(x: T, n: nat): (r: seq<T>)
    ensures |r| == n
    ensures forall k | 0 <= k < n :: r[k] == x
  {
    seq(n, _ => x)
  }

  /** The number of `true` entries, as `np.sum` of a boolean array. */
  function CountTrue(a: seq<bool>): nat
    decreases |a|
  {
    if |a| == 0 then 0 else CountTrue(a[..|a| - 1]) + (if a[|a| - 1] then 1 else 0)
  }

  lemma {:induction false} CountTrueConcat(a: seq<bool>, b: seq<bool>)
    ensures CountTrue(a + b) == CountTrue(a) + CountTrue(b)
    decreases |b|
  {
    if |b| > 0 {
      var n := |b| - 1;
      assert (a + b)[..|a + b| - 1] == a + b[..n];
      CountTrueConcat(a, b[..n]);
    } else {
      assert a + b == a;
    }
  }

  lemma {:induction false} CountTrueRepeat(x: bool, n: nat)
    ensures CountTrue(Repeat(x, n)) == if x then n else 0
    decreases n
  {
    if n > 0 {
      assert Repeat(x, n)[..n - 1] == Repeat(x, n - 1);
      CountTrueRepeat(x, n - 1);
    }
  }

  /** The count of `true` entries is the multiplicity of `true`, so it is invariant under any
      rearrangement of the entries. */
  lemma {:induction false} CountTrueIsMultiplicity(a: seq<bool>)
    ensures CountTrue(a) == multiset(a)[true]
    decreases |a|
  {
    if |a| > 0 {
      var n := |a| - 1;
      assert a == a[..n] + [a[n]];
      CountTrueIsMultiplicity(a[..n]);
    }
  }

  /** Setting a `false` entry to `true` adds one to the count. */
  lemma {:induction false} CountTrueSet(a: seq<bool>, i: nat)
    requires i < |a| && !a[i]
    ensures CountTrue(a[i := true]) == CountTrue(a) + 1
    decreases |a|
  {
    var n := |a| - 1;
    var b := a[i := true];
    if i == n {
      assert b[..n] == a[..n];
    } else {
      assert b[..n] == a[..n][i := true];
      CountTrueSet(a[..n], i);
    }
  }
}
