/**
 * The aggregates the endpoints compute over the values of the selected
 * readings: MIN, MAX and AVG as the store computes them, and median, mode
 * and quartiles as Python's statistics module computes them, each turned
 * into an integer (or null) the way the endpoints do.
 */
module Stats {
  import opened Common

  // ---------------------------------------------------------------------
  // Arithmetic helpers
  // ---------------------------------------------------------------------

  function Sum(s: seq<int>): int
  {
    if s == [] then 0 else Sum(s[..|s| - 1]) + s[|s| - 1]
  }

  lemma {:induction false} SumConcat(a: seq<int>, b: seq<int>)
    ensures Sum(a + b) == Sum(a) + Sum(b)
  {
    if b == [] {
      assert a + b == a;
    } else {
      var init := b[..|b| - 1];
      assert (a + b)[..|a + b| - 1] == a + init;
      SumConcat(a, init);
    }
  }

  /** Removing the value at position k takes exactly that value off the sum. */
  lemma SumRemoveAt(b: seq<int>, k: nat)
    requires k < |b|
    ensures Sum(b) == Sum(b[..k] + b[k + 1..]) + b[k]
  {
    var left, pre, right := b[..k], b[..k + 1], b[k + 1..];
    assert Sum(b) == Sum(pre) + Sum(right) by {
      assert b == pre + right;
      SumConcat(pre, right);
    }
    assert Sum(pre) == Sum(left) + b[k] by {
      assert pre[..k] == left;
    }
    SumConcat(left, right);
  }

  /** The sum of a list depends only on which values it holds. */
  lemma {:induction false} SumOrderIndependent(a: seq<int>, b: seq<int>)
    requires multiset(a) == multiset(b)
    ensures Sum(a) == Sum(b)
  {
    if a != [] {
      var n := |a| - 1;
      assert a[n] in multiset(b);
      var k :| 0 <= k < |b| && b[k] == a[n];
      var rest := b[..k] + b[k + 1..];
      assert multiset(a[..n]) == multiset(rest) by {
        RemoveAt(b, k);
        RemoveAt(a, n);
        assert a[..n] + a[n + 1..] == a[..n];
      }
      SumOrderIndependent(a[..n], rest);
      SumRemoveAt(b, k);
    }
  }

  /** Python's int() applied to the exact quotient a / b: it rounds toward zero. */
  function TruncDiv(a: int, b: int): (q: int)
    requires b > 0
    ensures 0 <= a ==> 0 <= q * b <= a < q * b + b
    ensures a < 0 ==> q * b - b < a <= q * b <= 0
  {
    if a >= 0 then
      DivBounds(a, b);
      a / b
    else
      DivBounds(-a, b);
      NegateProduct((-a) / b, b);
      -((-a) / b)
  }

  lemma DivBounds(a: nat, b: int)
    requires b > 0
    ensures 0 <= (a / b) * b <= a < (a / b) * b + b
  {
    var m, r := a / b, a % b;
    assert a == m * b + r && 0 <= r < b;
    assert m >= 0;
    MulNonNegative(m, b);
  }

  lemma MulNonNegative(m: int, b: int)
    requires m >= 0 && b > 0
    ensures m * b >= 0
  {
  }

  lemma NegateProduct(m: int, b: int)
    ensures (-m) * b == -(m * b)
  {
  }

  lemma TruncDivMonotone4(a: int, b: int)
    requires a <= b
    ensures TruncDiv(a, 4) <= TruncDiv(b, 4)
  {
  }

  lemma TruncDivExact4(x: int)
    ensures TruncDiv(4 * x, 4) == x
  {
  }

  // ---------------------------------------------------------------------
  // Sorting (Python's sorted, used inside median and quantiles)
  // ---------------------------------------------------------------------

  predicate Ascending(s: seq<int>)
  {
    forall i, j :: 0 <= i < j < |s| ==> s[i] <= s[j]
  }

  /** Inserts x into the ascending sequence s. */
  function Insert(x: int, s: seq<int>): (r: seq<int>)
    requires Ascending(s)
    ensures Ascending(r)
    ensures multiset(r) == multiset(s) + multiset{x}
  {
    if s == [] || x <= s[0] then
      PrependLeast(x, s);
      [x] + s
    else
      AscendingTail(s);
      var rest := Insert(x, s[1..]);
      KeepHead(x, s, rest);
      [s[0]] + rest
  }

  lemma PrependLeast(x: int, s: seq<int>)
    requires Ascending(s) && (s == [] || x <= s[0])
    ensures Ascending([x] + s)
  {
  }

  lemma KeepHead(x: int, s: seq<int>, rest: seq<int>)
    requires Ascending(s) && s != [] && s[0] < x
    requires Ascending(rest) && multiset(rest) == multiset(s[1..]) + multiset{x}
    ensures Ascending([s[0]] + rest)
    ensures multiset([s[0]] + rest) == multiset(s) + multiset{x}
  {
    assert s == [s[0]] + s[1..];
    LeastOfInsert(s[0], x, s[1..], rest);
  }

  lemma LeastOfInsert(h: int, x: int, s: seq<int>, rest: seq<int>)
    requires h <= x && forall k :: 0 <= k < |s| ==> h <= s[k]
    requires multiset(rest) == multiset(s) + multiset{x}
    ensures forall k :: 0 <= k < |rest| ==> h <= rest[k]
  {
    forall k | 0 <= k < |rest|
      ensures h <= rest[k]
    {
      assert rest[k] in multiset(rest);
      if rest[k] != x {
        assert rest[k] in multiset(s);
      }
    }
  }

  /** The values of s in ascending order: an ascending permutation of s. */
  function Sort(s: seq<int>): (r: seq<int>)
    ensures Ascending(r)
    ensures multiset(r) == multiset(s)
    ensures |r| == |s|
  {
    if s == [] then []
    else
      assert s == [s[0]] + s[1..];
      var r := Insert(s[0], Sort(s[1..]));
      assert |multiset(r)| == |multiset(s)|;
      r
  }

  lemma AscendingHeadIsLeast(s: seq<int>, x: int)
    requires Ascending(s) && x in s
    ensures s[0] <= x
  {
  }

  lemma AscendingTail(s: seq<int>)
    requires Ascending(s) && s != []
    ensures Ascending(s[1..])
  {
    assert forall i :: 0 <= i < |s| - 1 ==> s[1..][i] == s[i + 1];
  }

  /** Two ascending sequences with the same elements are the same sequence. */
  lemma {:induction false} AscendingPermutationUnique(a: seq<int>, b: seq<int>)
    requires Ascending(a) && Ascending(b)
    requires multiset(a) == multiset(b)
    ensures a == b
    decreases |a|
  {
    assert |a| == |multiset(a)| == |multiset(b)| == |b|;
    if a != [] {
      assert a[0] == b[0] by {
        assert a[0] in multiset(b) && b[0] in multiset(a);
        assert a[0] in b && b[0] in a;
        AscendingHeadIsLeast(b, a[0]);
        AscendingHeadIsLeast(a, b[0]);
      }
      DropFirst(a);
      DropFirst(b);
      assert multiset(a[1..]) == multiset(b[1..]);
      AscendingTail(a);
      AscendingTail(b);
      AscendingPermutationUnique(a[1..], b[1..]);
      assert a == [a[0]] + a[1..];
      assert b == [b[0]] + b[1..];
    }
  }

  /** Sorting forgets the order of the input: only its elements matter. */
  lemma SortOrderIndependent(a: seq<int>, b: seq<int>)
    requires multiset(a) == multiset(b)
    ensures Sort(a) == Sort(b)
  {
    AscendingPermutationUnique(Sort(a), Sort(b));
  }

  // ---------------------------------------------------------------------
  // MIN and MAX (computed by the store; NULL when no row is selected)
  // ---------------------------------------------------------------------

  /** SQL MAX(value): null when no row is selected, otherwise the greatest value. */
  function Max(s: seq<int>): (r: Option<int>)
    ensures r.None? <==> s == []
    ensures r.Some? ==> r.value in s && forall x :: x in s ==> x <= r.value
  {
    if s == [] then None
    else
      assert s == [s[0]] + s[1..];
      match Max(s[1..])
      case None => Some(s[0])
      case Some(m) => Some(if s[0] >= m then s[0] else m)
  }

  /** The greatest value depends only on which values there are, not on their order. */
  lemma MaxOrderIndependent(a: seq<int>, b: seq<int>)
    requires multiset(a) == multiset(b)
    ensures Max(a) == Max(b)
  {
    SameElements(a, b);
  }

  /** SQL MIN(value): null when no row is selected, otherwise the least value. */
  function Min(s: seq<int>): (r: Option<int>)
    ensures r.None? <==> s == []
    ensures r.Some? ==> r.value in s && forall x :: x in s ==> r.value <= x
  {
    if s == [] then None
    else
      assert s == [s[0]] + s[1..];
      match Min(s[1..])
      case None => Some(s[0])
      case Some(m) => Some(if s[0] <= m then s[0] else m)
  }

  // ---------------------------------------------------------------------
  // Means
  // ---------------------------------------------------------------------

  /**
   * The mean endpoint: int(AVG(value)). AVG is null on no rows, and the
   * endpoint also answers null when the average is 0, because it tests the
   * average for truthiness before converting it.
   */
  function Mean(s: seq<int>): (r: Option<int>)
    ensures r.None? <==> s == [] || Sum(s) == 0
    ensures r.Some? && Sum(s) > 0 ==> r.value * |s| <= Sum(s) < r.value * |s| + |s|
    ensures r.Some? && Sum(s) < 0 ==> r.value * |s| - |s| < Sum(s) <= r.value * |s|
  {
    if s == [] || Sum(s) == 0 then None else Some(TruncDiv(Sum(s), |s|))
  }

  /** The summary's mean: sum(v) // len(v), Python floor division. */
  function FloorMean(s: seq<int>): (r: int)
    requires s != []
    ensures r * |s| <= Sum(s) < r * |s| + |s|
  {
    Sum(s) / |s|
  }

  lemma {:induction false} SumNonNegative(s: seq<int>)
    requires forall i :: 0 <= i < |s| ==> 0 <= s[i]
    ensures 0 <= Sum(s)
  {
    if s != [] {
      SumNonNegative(s[..|s| - 1]);
    }
  }

  /**
   * On the values the store holds (never negative), the mean endpoint and
   * the summary's mean agree whenever the endpoint answers at all.
   */
  lemma MeanAgreesWithFloorMean(s: seq<int>)
    requires s != []
    requires forall i :: 0 <= i < |s| ==> 0 <= s[i]
    ensures Mean(s).Some? ==> Mean(s).value == FloorMean(s)
    ensures Mean(s).None? ==> FloorMean(s) == 0
  {
    SumNonNegative(s);
  }

  // ---------------------------------------------------------------------
  // Median
  // ---------------------------------------------------------------------

  /**
   * The median endpoint: int(statistics.median(values)), null on no rows.
   * The median of an even number of values is the average of the two middle
   * ones, truncated toward zero.
   */
  function Median(s: seq<int>): (r: Option<int>)
    ensures r.None? <==> s == []
    ensures r.Some? ==> Sort(s)[(|s| - 1) / 2] <= r.value <= Sort(s)[|s| / 2]
    ensures r.Some? && |s| % 2 == 1 ==> r.value == Sort(s)[|s| / 2]
  {
    if s == [] then None else Some(Middle(Sort(s)))
  }

  /**
   * For an even count the median is the average of the two middle sorted
   * values, truncated toward zero: twice the median is within 1 of their
   * sum, on the side of zero.
   */
  lemma MedianOfEvenCount(s: seq<int>)
    requires s != [] && |s| % 2 == 0
    ensures var t := Sort(s);
            var x := t[|s| / 2 - 1] + t[|s| / 2];
            var m := Median(s).value;
            (0 <= x ==> 2 * m <= x < 2 * m + 2) && (x < 0 ==> 2 * m - 2 < x <= 2 * m)
  {
    var t := Sort(s);
    assert |t| == |s|;
  }

  /** The middle of an ascending list: its middle value, or the truncated average of its two middle values. */
  function Middle(t: seq<int>): (m: int)
    requires Ascending(t) && t != []
    ensures t[(|t| - 1) / 2] <= m <= t[|t| / 2]
    ensures |t| % 2 == 1 ==> m == t[|t| / 2]
    ensures |t| % 2 == 0 ==>
              var x := t[|t| / 2 - 1] + t[|t| / 2];
              (0 <= x ==> 2 * m <= x < 2 * m + 2) && (x < 0 ==> 2 * m - 2 < x <= 2 * m)
  {
    var n := |t|;
    if n % 2 == 1 then t[n / 2]
    else
      MidpointBetween(t[n / 2 - 1], t[n / 2]);
      TruncDiv(t[n / 2 - 1] + t[n / 2], 2)
  }

  lemma MidpointBetween(x: int, y: int)
    requires x <= y
    ensures x <= TruncDiv(x + y, 2) <= y
  {
    var q := TruncDiv(x + y, 2);
    if x + y >= 0 {
      assert q * 2 <= x + y < q * 2 + 2;
    } else {
      assert q * 2 - 2 < x + y <= q * 2;
    }
  }

  /** The median lies between the least and the greatest value. */
  lemma MedianWithinRange(s: seq<int>)
    requires s != []
    ensures Min(s).value <= Median(s).value <= Max(s).value
  {
    var t := Sort(s);
    var lo, hi := t[(|s| - 1) / 2], t[|s| / 2];
    assert lo in multiset(s) && hi in multiset(s);
    assert lo in s && hi in s;
  }

  /** The median depends only on the values, not on the order the store returns them in. */
  lemma MedianOrderIndependent(a: seq<int>, b: seq<int>)
    requires multiset(a) == multiset(b)
    ensures Median(a) == Median(b)
  {
    SortOrderIndependent(a, b);
    assert |a| == |multiset(a)| == |multiset(b)| == |b|;
  }

  // ---------------------------------------------------------------------
  // Mode
  // ---------------------------------------------------------------------

  /** The first position of x in s. */
  function FirstIndex(s: seq<int>, x: int): (k: nat)
    requires x in s
    ensures k < |s| && s[k] == x && x !in s[..k]
  {
    if s[0] == x then 0
    else
      assert s == [s[0]] + s[1..];
      var k := FirstIndex(s[1..], x);
      assert s[..k + 1] == [s[0]] + s[1..][..k];
      1 + k
  }

  lemma {:induction false} FirstIndexUnique(s: seq<int>, x: int, k: nat)
    requires k < |s| && s[k] == x && x !in s[..k]
    ensures FirstIndex(s, x) == k
  {
    if k > 0 {
      assert s[0] in s[..k];
      assert s[1..][..k - 1] == s[1..k];
      assert s[..k] == [s[0]] + s[1..k];
      FirstIndexUnique(s[1..], x, k - 1);
    }
  }

  /**
   * Scans s from position i on, where best is the first position (before i)
   * whose value is the most frequent of those seen so far; the result is the
   * first position whose value is most frequent in all of s.
   */
  function ModeIndexFrom(s: seq<int>, i: nat, best: nat): (k: nat)
    requires best < |s| && best <= i <= |s|
    requires forall j :: 0 <= j < i ==> multiset(s)[s[j]] <= multiset(s)[s[best]]
    requires forall j :: 0 <= j < best ==> multiset(s)[s[j]] < multiset(s)[s[best]]
    ensures k < |s|
    ensures forall j :: 0 <= j < |s| ==> multiset(s)[s[j]] <= multiset(s)[s[k]]
    ensures forall j :: 0 <= j < k ==> multiset(s)[s[j]] < multiset(s)[s[k]]
    decreases |s| - i
  {
    if i == |s| then best
    else if multiset(s)[s[i]] > multiset(s)[s[best]] then ModeIndexFrom(s, i + 1, i)
    else ModeIndexFrom(s, i + 1, best)
  }

  /**
   * The mode endpoint: statistics.mode(values), null on no rows. Since
   * Python 3.8 mode returns the most frequent value and, among equally
   * frequent ones, the one encountered first.
   */
  function Mode(s: seq<int>): (r: Option<int>)
    ensures r.None? <==> s == []
    ensures r.Some? ==> r.value in s
    ensures r.Some? ==> forall x :: x in s ==> multiset(s)[x] <= multiset(s)[r.value]
    ensures r.Some? ==> forall x :: x in s && multiset(s)[x] == multiset(s)[r.value] ==>
                          FirstIndex(s, r.value) <= FirstIndex(s, x)
  {
    if s == [] then None
    else
      var k := ModeIndexFrom(s, 0, 0);
      assert s[k] !in s[..k];
      FirstIndexUnique(s, s[k], k);
      assert forall x :: x in s ==> multiset(s)[x] <= multiset(s)[s[k]] by {
        forall x | x in s ensures multiset(s)[x] <= multiset(s)[s[k]] {
          var f := FirstIndex(s, x);
        }
      }
      assert forall x :: x in s && multiset(s)[x] == multiset(s)[s[k]] ==> k <= FirstIndex(s, x) by {
        forall x | x in s && multiset(s)[x] == multiset(s)[s[k]] ensures k <= FirstIndex(s, x) {
          var f := FirstIndex(s, x);
          assert multiset(s)[s[f]] == multiset(s)[s[k]];
        }
      }
      Some(s[k])
  }

  /** When the first value is among the most common, the mode is the first value. */
  lemma ModeOfLeadingMostCommon(s: seq<int>)
    requires s != []
    requires forall x :: x in s ==> multiset(s)[x] <= multiset(s)[s[0]]
    ensures Mode(s) == Some(s[0])
  {
    var r := Mode(s).value;
    assert multiset(s)[r] == multiset(s)[s[0]];
    assert FirstIndex(s, s[0]) == 0 by {
      assert s[0] in s[..FirstIndex(s, s[0])] || FirstIndex(s, s[0]) == 0;
    }
    assert s[FirstIndex(s, r)] == r;
  }

  // ---------------------------------------------------------------------
  // Quartiles
  // ---------------------------------------------------------------------

  function Clamp(j: int, lo: int, hi: int): int
  {
    if j < lo then lo else if j > hi then hi else j
  }

  /** (a * (n - delta) + b * delta) / n for n = 4, then int(), as the exclusive method interpolates. */
  function Interpolate(a: int, b: int, delta: int): int
  {
    TruncDiv(a * (4 - delta) + b * delta, 4)
  }

  /**
   * Cut point i (of 1..3) of statistics.quantiles(data, n=4,
   * method='exclusive') on the ascending data t, in the library's exact
   * integer arithmetic: the position i*(len+1)/4 is clamped to [1, len-1],
   * and delta may then fall outside [0, 4], so the result extrapolates.
   */
  function Quantile(t: seq<int>, i: int): (q: int)
    requires |t| >= 2 && 1 <= i <= 3
    ensures |t| >= 3 && Ascending(t) ==> t[0] <= q <= t[|t| - 1]
    ensures |t| == 2 ==> q == Interpolate(t[0], t[1], 3 * i - 4)
  {
    var m := |t| + 1;
    var j := Clamp(i * m / 4, 1, |t| - 1);
    var delta := i * m - j * 4;
    CutWithin(|t|, i);
    InterpolateWithin(t[j - 1], t[j], delta);
    Interpolate(t[j - 1], t[j], delta)
  }

  /** From three values on, every cut point falls on or between two positions: no extrapolation. */
  lemma CutWithin(n: int, i: int)
    requires n >= 2 && 1 <= i <= 3
    ensures var j := Clamp(i * (n + 1) / 4, 1, n - 1);
            n >= 3 ==> 0 <= i * (n + 1) - j * 4 <= 4
  {
    var m := n + 1;
    if n == 3 {
      assert i * m / 4 == i;
    } else if n >= 4 {
      var q, r := m / 4, m % 4;
      assert m == 4 * q + r && 0 <= r < 4;
      assert i * m == 4 * (i * q) + i * r;
      assert i * m / 4 == i * q + (i * r) / 4;
    }
  }

  /** Interpolating with a weight in [0, 4] stays between the two neighbours. */
  lemma InterpolateWithin(a: int, b: int, delta: int)
    ensures a <= b && 0 <= delta <= 4 ==> a <= Interpolate(a, b, delta) <= b
  {
    if a <= b && 0 <= delta <= 4 {
      InterpolateBetween(a, b, delta);
    }
  }

  lemma InterpolateBetween(a: int, b: int, delta: int)
    requires a <= b && 0 <= delta <= 4
    ensures a <= Interpolate(a, b, delta) <= b
  {
    var n := a * (4 - delta) + b * delta;
    if delta == 0 {
      assert n == 4 * a;
    } else if delta == 1 {
      assert n == 3 * a + b;
    } else if delta == 2 {
      assert n == 2 * a + 2 * b;
    } else if delta == 3 {
      assert n == a + 3 * b;
    } else {
      assert n == 4 * b;
    }
    QuarterBetween(n, a, b);
  }

  lemma QuarterBetween(n: int, a: int, b: int)
    requires 4 * a <= n <= 4 * b
    ensures a <= TruncDiv(n, 4) <= b
  {
    var q := TruncDiv(n, 4);
    if n >= 0 {
      assert q * 4 <= n < q * 4 + 4;
    } else {
      assert q * 4 - 4 < n <= q * 4;
    }
  }

  /**
   * The quartiles endpoint: quartile_1 and quartile_3 of the values, both
   * null when fewer than two values are selected.
   */
  function Quartiles(s: seq<int>): (r: (Option<int>, Option<int>))
    ensures r.0.None? <==> |s| < 2
    ensures r.1.None? <==> |s| < 2
  {
    if |s| < 2 then (None, None)
    else
      var t := Sort(s);
      (Some(Quantile(t, 1)), Some(Quantile(t, 3)))
  }

  /** The first and last sorted values are the least and the greatest. */
  lemma SortEnds(s: seq<int>)
    requires s != []
    ensures Sort(s)[0] == Min(s).value
    ensures Sort(s)[|s| - 1] == Max(s).value
  {
    var t := Sort(s);
    AscendingEnds(t);
    SameElements(s, t);
    var lo, hi := Min(s).value, Max(s).value;
    assert lo in t && hi in t;
    assert t[0] in s && t[|t| - 1] in s;
  }

  lemma SameElements(s: seq<int>, t: seq<int>)
    requires multiset(s) == multiset(t)
    ensures forall x :: x in s <==> x in t
  {
    forall x ensures x in s <==> x in t {
      assert x in s <==> x in multiset(s);
      assert x in t <==> x in multiset(t);
    }
  }

  lemma AscendingEnds(t: seq<int>)
    requires Ascending(t) && t != []
    ensures forall x :: x in t ==> t[0] <= x <= t[|t| - 1]
  {
  }

  lemma QuantilesOfAtLeastThree(t: seq<int>)
    requires Ascending(t) && |t| >= 3
    ensures t[0] <= Quantile(t, 1) <= Quantile(t, 3) <= t[|t| - 1]
  {
    var n := |t|;
    var m := n + 1;
    var j1, j3 := Clamp(1 * m / 4, 1, n - 1), Clamp(3 * m / 4, 1, n - 1);
    var d1, d3 := 1 * m - j1 * 4, 3 * m - j3 * 4;
    if n == 3 {
      assert j1 == 1 && d1 == 0;
      assert j3 == 2 && d3 == 4;
    } else {
      CutPoints(m);
      assert 1 <= j1 < j3 <= n - 1;
      assert 0 <= d1 <= 3 && 0 <= d3 <= 3;
    }
    QuantileAt(t, 1, j1, d1);
    QuantileAt(t, 3, j3, d3);
    assert t[0] <= t[j1 - 1] && t[j1] <= t[j3 - 1] && t[j3] <= t[n - 1];
  }

  /** A cut point that falls between positions j - 1 and j lies between their values. */
  lemma QuantileAt(t: seq<int>, i: int, j: int, delta: int)
    requires Ascending(t) && |t| >= 2 && 1 <= i <= 3
    requires j == Clamp(i * (|t| + 1) / 4, 1, |t| - 1) && delta == i * (|t| + 1) - j * 4
    requires 0 <= delta <= 4
    ensures t[j - 1] <= Quantile(t, i) <= t[j]
  {
    InterpolateBetween(t[j - 1], t[j], delta);
  }

  /**
   * The value of a cut point: the weighted sum of its two neighbours,
   * t[j - 1] with weight 4 - delta and t[j] with weight delta, divided by 4
   * and truncated toward zero, at the clamped position j.
   */
  lemma QuantileValue(t: seq<int>, i: int)
    requires |t| >= 2 && 1 <= i <= 3
    ensures var j := Clamp(i * (|t| + 1) / 4, 1, |t| - 1);
            var delta := i * (|t| + 1) - j * 4;
            var x := t[j - 1] * (4 - delta) + t[j] * delta;
            var q := Quantile(t, i);
            (0 <= x ==> 4 * q <= x < 4 * q + 4) && (x < 0 ==> 4 * q - 4 < x <= 4 * q)
  {
  }

  /** From five positions on, the cut points of quartiles 1 and 3 are distinct inner positions. */
  lemma CutPoints(m: int)
    requires m >= 5
    ensures 1 <= 1 * m / 4 < 3 * m / 4 <= m - 2
    ensures 0 <= 1 * m - (1 * m / 4) * 4 <= 3
    ensures 0 <= 3 * m - (3 * m / 4) * 4 <= 3
  {
    var q, r := m / 4, m % 4;
    assert m == 4 * q + r && 0 <= r < 4;
    var q3, r3 := 3 * m / 4, (3 * m) % 4;
    assert 3 * m == 4 * q3 + r3 && 0 <= r3 < 4;
  }

  /**
   * From three values on, the quartiles interpolate: they lie between the
   * least and the greatest value, the first not above the third.
   */
  lemma QuartilesWithinRange(s: seq<int>)
    requires |s| >= 3
    ensures Min(s).value <= Quartiles(s).0.value <= Quartiles(s).1.value <= Max(s).value
  {
    var t := Sort(s);
    SortedEnds(s, t);
    QuartilesBetweenEnds(s, t);
  }

  lemma SortedEnds(s: seq<int>, t: seq<int>)
    requires s != [] && t == Sort(s)
    ensures |t| == |s| && t[0] == Min(s).value && t[|t| - 1] == Max(s).value
  {
    SortEnds(s);
  }

  lemma QuartilesBetweenEnds(s: seq<int>, t: seq<int>)
    requires Sort(s) == t && |t| >= 3
    ensures Quartiles(s).0.Some? && Quartiles(s).1.Some?
    ensures t[0] <= Quartiles(s).0.value <= Quartiles(s).1.value <= t[|t| - 1]
  {
    QuartilesOfSorted(s, t);
    QuantilesOfAtLeastThree(t);
  }

  lemma QuantilesOfTwo(t: seq<int>)
    requires |t| == 2
    ensures Quantile(t, 1) == TruncDiv(5 * t[0] - t[1], 4)
    ensures Quantile(t, 3) == TruncDiv(5 * t[1] - t[0], 4)
  {
    var a, b := t[0], t[1];
    assert Clamp(1 * 3 / 4, 1, 1) == 1 && Clamp(3 * 3 / 4, 1, 1) == 1;
    assert a * (4 - -1) + b * -1 == 5 * a - b;
    assert a * (4 - 5) + b * 5 == 5 * b - a;
  }

  /**
   * With exactly two values a <= b the position is clamped and the
   * quartiles extrapolate: (5a - b) / 4 and (5b - a) / 4, truncated, which
   * lie at or outside the two values.
   */
  lemma QuartilesOfTwoExtrapolate(s: seq<int>, a: int, b: int)
    requires a <= b && |s| == 2 && multiset(s) == multiset{a, b}
    ensures Quartiles(s) == (Some(TruncDiv(5 * a - b, 4)), Some(TruncDiv(5 * b - a, 4)))
    ensures TruncDiv(5 * a - b, 4) <= a && b <= TruncDiv(5 * b - a, 4)
  {
    var t := Sort(s);
    SortOfTwo(s, a, b);
    QuartilesOfSorted(s, t);
    QuantilesOfTwo(t);
    ExtrapolationBounds(a, b);
  }

  lemma SortOfTwo(s: seq<int>, a: int, b: int)
    requires a <= b && multiset(s) == multiset{a, b}
    ensures Sort(s) == [a, b]
  {
    assert multiset([a, b]) == multiset{a, b};
    SortIs(s, [a, b]);
  }

  /** The extrapolated quartiles of two values lie at or outside them. */
  lemma ExtrapolationBounds(a: int, b: int)
    requires a <= b
    ensures TruncDiv(5 * a - b, 4) <= a && b <= TruncDiv(5 * b - a, 4)
    ensures TruncDiv(5 * a - b, 4) <= TruncDiv(5 * b - a, 4)
  {
    TruncDivMonotone4(5 * a - b, 4 * a);
    TruncDivMonotone4(4 * b, 5 * b - a);
    TruncDivMonotone4(5 * a - b, 5 * b - a);
    TruncDivExact4(a);
    TruncDivExact4(b);
  }

  /** The quartiles depend only on the values, not on their order. */
  lemma QuartilesOrderIndependent(a: seq<int>, b: seq<int>)
    requires multiset(a) == multiset(b)
    ensures Quartiles(a) == Quartiles(b)
  {
    SortOrderIndependent(a, b);
    assert |a| == |multiset(a)| == |multiset(b)| == |b|;
  }

  // ---------------------------------------------------------------------
  // The values of the reference scenario: one device with temperature
  // readings 22, 50 and 100 and a humidity reading 73.
  // ---------------------------------------------------------------------

  /** An ascending rearrangement of s is what sorting s gives. */
  lemma SortIs(s: seq<int>, t: seq<int>)
    requires Ascending(t) && multiset(s) == multiset(t)
    ensures Sort(s) == t
  {
    AscendingPermutationUnique(Sort(s), t);
  }

  lemma SumOfTwo(s: seq<int>)
    requires |s| == 2
    ensures Sum(s) == s[0] + s[1]
  {
    var b := s[..1];
    assert Sum(s) == Sum(b) + s[1];
    assert Sum(b) == Sum(b[..0]) + b[0];
  }

  lemma SumOfThree(s: seq<int>)
    requires |s| == 3
    ensures Sum(s) == s[0] + s[1] + s[2]
  {
    SumOfTwo(s[..2]);
  }

  lemma SumOfFour(s: seq<int>)
    requires |s| == 4
    ensures Sum(s) == s[0] + s[1] + s[2] + s[3]
  {
    SumOfThree(s[..3]);
  }

  lemma QuartilesOfSorted(s: seq<int>, t: seq<int>)
    requires Sort(s) == t && |t| >= 2
    ensures Quartiles(s) == (Some(Quantile(t, 1)), Some(Quantile(t, 3)))
  {
  }

  lemma QuantilesOfFour(t: seq<int>)
    requires |t| == 4
    ensures Quantile(t, 1) == Interpolate(t[0], t[1], 1)
    ensures Quantile(t, 3) == Interpolate(t[2], t[3], 3)
  {
  }

  lemma QuantilesOfThree(t: seq<int>)
    requires |t| == 3
    ensures Quantile(t, 1) == Interpolate(t[0], t[1], 0)
    ensures Quantile(t, 3) == Interpolate(t[1], t[2], 4)
  {
  }

  lemma MedianOfFour(s: seq<int>, t: seq<int>)
    requires Sort(s) == t && |t| == 4
    ensures Median(s) == Some(TruncDiv(t[1] + t[2], 2))
  {
  }

  lemma MedianOfThree(s: seq<int>, t: seq<int>)
    requires Sort(s) == t && |t| == 3
    ensures Median(s) == Some(t[1])
  {
  }
}
