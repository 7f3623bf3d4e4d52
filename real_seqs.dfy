/**
 * Sequences of reals: the sums, maxima and sorting that the loss-function code performs
 * with loops over `double[]`, defined once here and shared by the other modules.
 * `double` is read as an exact real throughout.
 */
module RealSeqs {

  function Max(a: real, b: real): real
  {
    if a >= b then a else b
  }

  /** Sum of `s`, accumulated left to right as the source's `+=` loops do. */
  function Sum(s: seq<real>): real
  {
    if |s| == 0 then 0.0 else Sum(s[..|s| - 1]) + s[|s| - 1]
  }

  /** Overwriting one entry changes the sum by exactly the difference. */
  lemma {:induction false} SumUpdate(s: seq<real>, k: nat, v: real)
    requires k < |s|
    ensures Sum(s[k := v]) == Sum(s) - s[k] + v
  {
    var n := |s|;
    if k == n - 1 {
      assert s[k := v][..n - 1] == s[..n - 1];
    } else {
      assert s[k := v][..n - 1] == s[..n - 1][k := v];
      SumUpdate(s[..n - 1], k, v);
    }
  }

  /** The sum of `n` copies of `c` is `n * c`. */
  lemma {:induction false} SumConstant(n: nat, c: real)
    ensures Sum(seq(n, _ => c)) == n as real * c
  {
    if n > 0 {
      assert seq(n, _ => c)[..n - 1] == seq(n - 1, _ => c);
      SumConstant(n - 1, c);
    }
  }

  /** Every entry of `s` divided by `t`. */
  function Scaled(s: seq<real>, t: real): (r: seq<real>)
    requires t != 0.0
    ensures |r| == |s|
  {
    seq(|s|, i requires 0 <= i < |s| => s[i] / t)
  }

  /** Dividing every entry by `t` divides the sum by `t`: normalising by the total gives sum 1. */
  lemma {:induction false} SumScaled(s: seq<real>, t: real)
    requires t != 0.0
    ensures Sum(Scaled(s, t)) == Sum(s) / t
  {
    var n := |s|;
    if n > 0 {
      assert Scaled(s, t)[..n - 1] == Scaled(s[..n - 1], t);
      SumScaled(s[..n - 1], t);
    }
  }

  /** Dividing positive entries by their total leaves positive entries that sum to 1. */
  lemma Normalised(s: seq<real>)
    requires |s| > 0
    requires forall i :: 0 <= i < |s| ==> s[i] > 0.0
    ensures Sum(s) > 0.0
    ensures forall i :: 0 <= i < |s| ==> Scaled(s, Sum(s))[i] > 0.0
    ensures Sum(Scaled(s, Sum(s))) == 1.0
  {
    SumPositive(s);
    var t := Sum(s);
    SumScaled(s, t);
    SelfQuotient(t);
    ScaledPositive(s, t);
  }

  /** A non-zero real divided by itself is one. */
  lemma SelfQuotient(t: real)
    requires t != 0.0
    ensures t / t == 1.0
  {
  }

  /** Positive entries divided by a positive total stay positive. */
  lemma ScaledPositive(s: seq<real>, t: real)
    requires t > 0.0
    requires forall i :: 0 <= i < |s| ==> s[i] > 0.0
    ensures forall i :: 0 <= i < |s| ==> Scaled(s, t)[i] > 0.0
  {
    forall i | 0 <= i < |s|
      ensures Scaled(s, t)[i] > 0.0
    {
      DividePositive(s[i], t);
    }
  }


  /** The quotient of two positive reals is positive. */
  lemma DividePositive(a: real, b: real)
    requires a > 0.0 && b > 0.0
    ensures a / b > 0.0
  {
  }

  /** `Math.round` on a double (ties round up): the floor of `x + 1/2`. */
  function Round(x: real): (r: int)
    ensures r as real - 0.5 <= x < r as real + 0.5
  {
    (x + 0.5).Floor
  }

  /** Division by a positive real keeps the order. */
  lemma DivideMonotone(a: real, b: real, n: real)
    requires n > 0.0 && a <= b
    ensures a / n <= b / n
  {
    assert b / n - a / n == (b - a) / n;
  }

  /** Sum over a prefix grows by the next entry. */
  lemma SumPrefixStep(s: seq<real>, k: nat)
    requires k < |s|
    ensures Sum(s[..k + 1]) == Sum(s[..k]) + s[k]
  {
    assert s[..k + 1][..k] == s[..k];
  }

  /** A sequence of positive entries has a positive sum as soon as it is non-empty. */
  lemma {:induction false} SumPositive(s: seq<real>)
    requires |s| > 0
    requires forall i :: 0 <= i < |s| ==> s[i] > 0.0
    ensures Sum(s) > 0.0
  {
    if |s| > 1 {
      SumPositive(s[..|s| - 1]);
    }
  }

  predicate Sorted(s: seq<real>)
  {
    forall i, j :: 0 <= i < j < |s| ==> s[i] <= s[j]
  }

  /** A rearrangement keeps every lower bound of the entries. */
  lemma MultisetLowerBound(lo: real, a: seq<real>, b: seq<real>)
    requires multiset(a) == multiset(b)
    requires forall k :: 0 <= k < |b| ==> lo <= b[k]
    ensures forall k :: 0 <= k < |a| ==> lo <= a[k]
  {
    forall k | 0 <= k < |a|
      ensures lo <= a[k]
    {
      assert a[k] in multiset(b);
    }
  }

  /** Inserts `x` into the ascending sequence `s`. */
  function Insert(x: real, s: seq<real>): (r: seq<real>)
    requires Sorted(s)
    ensures |r| == |s| + 1
    ensures Sorted(r)
    ensures multiset(r) == multiset(s) + multiset{x}
  {
    if |s| == 0 || x <= s[0] then
      [x] + s
    else
      var rest := Insert(x, s[1..]);
      assert s == [s[0]] + s[1..];
      MultisetLowerBound(s[0], rest, s[1..] + [x]);
      [s[0]] + rest
  }

  /** Insertion sort: the ascending arrangement of `s` (what `Arrays.sort` leaves in the array). */
  function Sort(s: seq<real>): (r: seq<real>)
    ensures |r| == |s|
    ensures Sorted(r)
    ensures multiset(r) == multiset(s)
  {
    if |s| == 0 then
      []
    else
      assert s == s[..|s| - 1] + [s[|s| - 1]];
      Insert(s[|s| - 1], Sort(s[..|s| - 1]))
  }

  /** Two ascending sequences holding the same multiset are equal: sorting has one result. */
  lemma {:induction false} SortedUnique(a: seq<real>, b: seq<real>)
    requires Sorted(a) && Sorted(b)
    requires multiset(a) == multiset(b)
    ensures a == b
    decreases |a|
  {
    assert |b| == |multiset(b)| == |multiset(a)| == |a|;
    if |a| > 0 {
      SortedSameHead(a, b);
      SortedUnique(a[1..], b[1..]);
      assert a == [a[0]] + a[1..];
      assert b == [b[0]] + b[1..];
    }
  }

  /** Two ascending arrangements of one multiset start alike, and so do their tails. */
  lemma SortedSameHead(a: seq<real>, b: seq<real>)
    requires Sorted(a) && Sorted(b) && |a| > 0 && |b| > 0
    requires multiset(a) == multiset(b)
    ensures a[0] == b[0]
    ensures Sorted(a[1..]) && Sorted(b[1..])
    ensures multiset(a[1..]) == multiset(b[1..])
  {
    assert a[0] in multiset(b);
    var i :| 0 <= i < |b| && b[i] == a[0];
    assert b[0] <= a[0] by {
      if i > 0 {
        assert b[0] <= b[i];
      }
    }
    assert b[0] in multiset(a);
    var j :| 0 <= j < |a| && a[j] == b[0];
    assert a[0] <= b[0] by {
      if j > 0 {
        assert a[0] <= a[j];
      }
    }
    MultisetTail(a);
    MultisetTail(b);
  }

  /** The multiset of a tail: the whole less its head. */
  lemma MultisetTail(a: seq<real>)
    requires |a| > 0
    ensures multiset(a[1..]) == multiset(a) - multiset{a[0]}
  {
    assert a == [a[0]] + a[1..];
  }



  /** `Math.max` folded over `s` starting from 0, as the source's maximum loops do. */
  function MaxFromZero(s: seq<real>): (r: real)
    ensures r >= 0.0
    ensures forall i :: 0 <= i < |s| ==> s[i] <= r
    ensures r == 0.0 || exists i :: 0 <= i < |s| && s[i] == r
  {
    if |s| == 0 then
      0.0
    else
      var m := MaxFromZero(s[..|s| - 1]);
      assert forall i :: 0 <= i < |s| - 1 ==> s[..|s| - 1][i] == s[i];
      Max(m, s[|s| - 1])
  }

  /** Every entry of a sequence of non-negative reals is at most its sum. */
  lemma {:induction false} SumBoundsEntry(s: seq<real>, k: nat)
    requires k < |s|
    requires forall i :: 0 <= i < |s| ==> s[i] >= 0.0
    ensures s[k] <= Sum(s)
  {
    var n := |s|;
    if k < n - 1 {
      SumBoundsEntry(s[..n - 1], k);
    }
    SumNonNegative(s[..n - 1]);
  }

  /** A sum of non-negative reals is non-negative. */
  lemma {:induction false} SumNonNegative(s: seq<real>)
    requires forall i :: 0 <= i < |s| ==> s[i] >= 0.0
    ensures Sum(s) >= 0.0
  {
    if |s| > 0 {
      SumNonNegative(s[..|s| - 1]);
    }
  }

  /** Exchanges two entries of `a`; the multiset of entries is unchanged. */
  method Swap(a: array<real>, i: nat, j: nat)
    requires i < j < a.Length
    modifies a
    ensures a[..] == old(a[..])[i := old(a[j])][j := old(a[i])]
    ensures multiset(a[..]) == multiset(old(a[..]))
  {
    a[i], a[j] := a[j], a[i];
  }

  /**
   * `Arrays.sort` on a `double[]`: sorts the array in place (here by insertion), leaving an
   * ascending permutation of its former contents.
   */
  method SortInPlace(a: array<real>)
    modifies a
    ensures Sorted(a[..])
    ensures multiset(a[..]) == multiset(old(a[..]))
  {
    var i := 0;
    while i < a.Length
      invariant 0 <= i <= a.Length
      invariant forall p, q :: 0 <= p < q < i ==> a[p] <= a[q]
      invariant multiset(a[..]) == multiset(old(a[..]))
    {
      SinkLast(a, i);
      i := i + 1;
    }
  }

  /** One insertion step: moves `a[i]` left past the larger entries of the sorted prefix `a[..i]`. */
  method SinkLast(a: array<real>, i: nat)
    requires i < a.Length
    requires forall p, q :: 0 <= p < q < i ==> a[p] <= a[q]
    modifies a
    ensures forall p, q :: 0 <= p < q <= i ==> a[p] <= a[q]
    ensures multiset(a[..]) == multiset(old(a[..]))
  {
    var j := i;
    while j > 0 && a[j - 1] > a[j]
      invariant 0 <= j <= i
      invariant multiset(a[..]) == multiset(old(a[..]))
      invariant forall p, q :: 0 <= p < q <= i && p != j && q != j ==> a[p] <= a[q]
      invariant forall q :: j < q <= i ==> a[j] <= a[q]
    {
      Swap(a, j - 1, j);
      j := j - 1;
    }
  }
}
