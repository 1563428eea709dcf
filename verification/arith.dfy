/** Integer and sequence helpers shared by the layout model: sums, Python's truncating
    `int()` of a quotient, index ranges and concatenation of nested sequences. */
module Arith {

  /** Sum of a sequence of integers (Python's `sum`). */
  function Sum(s: seq<int>): int
  {
    if |s| == 0 then 0 else s[0] + Sum(s[1..])
  }

  predicate NonNegative(s: seq<int>)
  {
    forall j :: 0 <= j < |s| ==> s[j] >= 0
  }

  lemma {:induction false} SumAppend(a: seq<int>, b: seq<int>)
    ensures Sum(a + b) == Sum(a) + Sum(b)
  {
    if |a| == 0 {
      assert a + b == b;
    } else {
      assert (a + b)[1..] == a[1..] + b;
      SumAppend(a[1..], b);
    }
  }

  /** The running total of a slice grows by the next element. */
  lemma SumSliceStep(s: seq<int>, lo: nat, hi: nat)
    requires lo <= hi < |s|
    ensures Sum(s[lo..hi + 1]) == Sum(s[lo..hi]) + s[hi]
  {
    assert s[lo..hi + 1] == s[lo..hi] + [s[hi]];
    SumAppend(s[lo..hi], [s[hi]]);
    assert Sum([s[hi]]) == s[hi] + Sum([s[hi]][1..]);
  }

  lemma {:induction false} SumNonNegative(s: seq<int>)
    requires NonNegative(s)
    ensures Sum(s) >= 0
  {
    if |s| > 0 {
      SumNonNegative(s[1..]);
    }
  }

  lemma SumPrefixBound(s: seq<int>, j: nat)
    requires NonNegative(s) && j <= |s|
    ensures Sum(s[..j]) <= Sum(s)
  {
    assert s == s[..j] + s[j..];
    SumAppend(s[..j], s[j..]);
    SumNonNegative(s[j..]);
  }

  lemma {:induction false} SumPointwiseBound(a: seq<int>, b: seq<int>)
    requires |a| == |b|
    requires forall j :: 0 <= j < |a| ==> a[j] <= b[j]
    ensures Sum(a) <= Sum(b)
  {
    if |a| > 0 {
      SumPointwiseBound(a[1..], b[1..]);
    }
  }

  /** The sum of items that all equal `c`. */
  lemma {:induction false} SumUniform(s: seq<int>, c: int)
    requires forall i :: 0 <= i < |s| ==> s[i] == c
    ensures Sum(s) == |s| * c
  {
    if |s| > 0 {
      SumUniform(s[1..], c);
    }
  }

  /** Python's `a // b`: the quotient rounded toward negative infinity, for a divisor of
      either sign. */
  function FloorDiv(a: int, b: int): (q: int)
    requires b != 0
    ensures b > 0 ==> q * b <= a < q * b + b
    ensures b < 0 ==> q * b >= a > q * b + b
  {
    if b > 0 then
      assert a == (a / b) * b + a % b;
      a / b
    else
      assert -a == ((-a) / (-b)) * (-b) + (-a) % (-b);
      (-a) / (-b)
  }

  /** Python's `int(a / b)` for a positive divisor, computed exactly: the quotient is
      truncated toward zero, so it is the floor for `a >= 0` and the ceiling for `a < 0`. */
  function TruncDiv(a: int, b: int): (q: int)
    requires b > 0
    ensures a >= 0 ==> 0 <= q && q * b <= a < q * b + b
    ensures a < 0 ==> q <= 0 && -q * b <= -a < -q * b + b
  {
    if a >= 0 then DivBounds(a, b); a / b
    else DivBounds(-a, b); -((-a) / b)
  }

  lemma DivBounds(a: int, b: int)
    requires a >= 0 && b > 0
    ensures 0 <= a / b && (a / b) * b <= a < (a / b) * b + b
  {
    assert a == (a / b) * b + a % b;
  }

  /** Cancelling a positive factor from both sides of an inequality. */
  lemma MulCancelLe(x: int, y: int, t: int)
    requires t > 0 && x * t <= y * t
    ensures x <= y
  {
  }

  lemma MulCancelLt(x: int, y: int, t: int)
    requires t > 0 && x * t < y * t
    ensures x < y
  {
    if x >= y {
      MulMonotone(y, x, t);
    }
  }

  lemma MulMonotone(x: int, y: int, t: int)
    requires t >= 0 && x <= y
    ensures x * t <= y * t
  {
    MulNonNegative(y - x, t);
    MulDistributes(y - x, x, t);
  }

  lemma MulDistributes(x: int, y: int, t: int)
    ensures (x + y) * t == x * t + y * t
  {
  }

  /** `c` items of size `n` with a gap `g` between neighbours fit wherever `q >= c` items
      each charged `n + g` do. */
  lemma UniformRunFits(c: int, q: int, n: int, g: int, length: int)
    requires 1 <= c <= q && n >= 0 && g >= 0 && q * (n + g) <= length
    ensures c * n + (c - 1) * g <= length
  {
    MulMonotone(c, q, n + g);
    assert c * (n + g) == c * n + c * g;
    assert (c - 1) * g == c * g - g;
  }

  lemma MulNonNegative(x: int, y: int)
    requires x >= 0 && y >= 0
    ensures x * y >= 0
  {
  }

  /** The indices `lo, lo + 1, ..., hi - 1`. */
  function Range(lo: int, hi: int): (r: seq<int>)
    requires lo <= hi
    ensures |r| == hi - lo
    ensures forall j :: 0 <= j < |r| ==> r[j] == lo + j
  {
    seq(hi - lo, j => lo + j)
  }

  lemma RangeAppend(lo: int, mid: int, hi: int)
    requires lo <= mid <= hi
    ensures Range(lo, mid) + Range(mid, hi) == Range(lo, hi)
  {
  }

  /** Concatenation of a sequence of sequences, in order. */
  function Flatten<T>(xss: seq<seq<T>>): seq<T>
  {
    if |xss| == 0 then [] else xss[0] + Flatten(xss[1..])
  }

  lemma {:induction false} FlattenAppend<T>(a: seq<seq<T>>, b: seq<seq<T>>)
    ensures Flatten(a + b) == Flatten(a) + Flatten(b)
  {
    if |a| == 0 {
      assert a + b == b;
    } else {
      assert (a + b)[1..] == a[1..] + b;
      FlattenAppend(a[1..], b);
    }
  }

  lemma {:induction false} FlattenMembers<T>(xss: seq<seq<T>>)
    ensures forall p, x :: 0 <= p < |xss| && x in xss[p] ==> x in Flatten(xss)
  {
    if |xss| > 0 {
      FlattenMembers(xss[1..]);
      assert forall p :: 1 <= p < |xss| ==> xss[p] == xss[1..][p - 1];
    }
  }
}
