// The two pandas/NumPy column reductions the engine relies on: `np.sum` over a
// slice of a column and `Series.cumsum()`.

module Columns {

  /** `np.sum`: the total of a column slice, added up from the front. */
  function Sum(s: seq<real>): real
  {
    if |s| == 0 then 0.0 else Sum(s[..|s| - 1]) + s[|s| - 1]
  }

  /** Two columns whose rows add up to the same amount total that amount times
      the number of rows. */
  lemma {:induction false} SumOfComplements(a: seq<real>, b: seq<real>, total: real)
    requires |a| == |b|
    requires forall k :: 0 <= k < |a| ==> a[k] + b[k] == total
    ensures Sum(a) + Sum(b) == |a| as real * total
  {
    if |a| > 0 {
      var n := |a|;
      SumOfComplements(a[..n - 1], b[..n - 1], total);
      OneMore(Sum(a), Sum(b), Sum(a[..n - 1]), Sum(b[..n - 1]), a[n - 1], b[n - 1], total,
              (n - 1) as real, n as real);
    }
  }

  /** The same over any run lo..hi-1 of two such columns. */
  lemma SliceOfComplements(a: seq<real>, b: seq<real>, total: real, lo: nat, hi: nat)
    requires |a| == |b| && lo <= hi <= |a|
    requires forall k :: 0 <= k < |a| ==> a[k] + b[k] == total
    ensures Sum(a[lo..hi]) + Sum(b[lo..hi]) == (hi - lo) as real * total
  {
    var a', b' := a[lo..hi], b[lo..hi];
    assert forall k :: 0 <= k < |a'| ==> a'[k] + b'[k] == total by {
      forall k | 0 <= k < |a'|
        ensures a'[k] + b'[k] == total
      {
        assert a'[k] == a[lo + k] && b'[k] == b[lo + k];
      }
    }
    SumOfComplements(a', b', total);
  }

  lemma OneMore(sumA: real, sumB: real, sumABefore: real, sumBBefore: real,
                lastA: real, lastB: real, total: real, rowsBefore: real, rows: real)
    requires sumA == sumABefore + lastA && sumB == sumBBefore + lastB && lastA + lastB == total
    requires sumABefore + sumBBefore == rowsBefore * total && rows == rowsBefore + 1.0
    ensures sumA + sumB == rows * total
  {
  }

  /** A column assigned one scalar, as `df[col] = x` does. */
  function Repeat(x: real, n: nat): (s: seq<real>)
    ensures |s| == n
    ensures forall i :: 0 <= i < n ==> s[i] == x
  {
    seq(n, _ => x)
  }

  lemma {:induction false} SumRepeat(x: real, n: nat)
    ensures Sum(Repeat(x, n)) == n as real * x
  {
    if n > 0 {
      assert Repeat(x, n)[..n - 1] == Repeat(x, n - 1);
      SumRepeat(x, n - 1);
    }
  }

  /** `Series.cumsum()`: entry i is the sum of entries 0..i of the column. */
  function Cumsum(s: seq<real>): (c: seq<real>)
    ensures |c| == |s|
    ensures forall i :: 0 <= i < |s| ==> c[i] == Sum(s[..i + 1])
  {
    if |s| == 0 then []
    else
      assert s[..|s|] == s;
      assert forall j :: 0 <= j < |s| ==> s[..|s| - 1][..j] == s[..j];
      Cumsum(s[..|s| - 1]) + [Sum(s)]
  }

  /** The running total of a constant column grows linearly. */
  lemma CumsumRepeat(x: real, n: nat, i: nat)
    requires i < n
    ensures Cumsum(Repeat(x, n))[i] == (i + 1) as real * x
  {
    assert Repeat(x, n)[..i + 1] == Repeat(x, i + 1);
    SumRepeat(x, i + 1);
  }

  /** `cumsum` of a column assigned one scalar: entry i is (i + 1) times it. */
  function CumsumOfConstant(x: real, n: nat): (c: seq<real>)
    ensures |c| == n
    ensures forall i :: 0 <= i < n ==> c[i] == (i + 1) as real * x
  {
    var c := Cumsum(Repeat(x, n));
    assert forall i :: 0 <= i < n ==> c[i] == (i + 1) as real * x by {
      forall i | 0 <= i < n
        ensures c[i] == (i + 1) as real * x
      {
        CumsumRepeat(x, n, i);
      }
    }
    c
  }
}
