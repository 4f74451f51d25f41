/** The C++ table interpolation at `uint32_t`: every operation wraps at 2^32, and
    the table is indexed by an evenly spaced ADC reading. */
module AdcLut {
  const UINT32: int := 0x1_0000_0000

  function Wrap(n: int): (w: nat)
    ensures w < UINT32
  {
    n % UINT32
  }

  lemma WrapFits(n: int)
    requires 0 <= n < UINT32
    ensures Wrap(n) == n
  {
  }

  datatype Spacing = Spacing(start: nat, step: nat, size: nat) {
    /** The reading that belongs to a table index. */
    function At(index: nat): (x: nat)
      ensures x < UINT32
    {
      Wrap(step * index + start)
    }
  }

  /** What the source demands: unsigned 32-bit values, a step to divide by, and at
      least two entries. */
  predicate Usable(sp: Spacing, ys: seq<int>, x: nat) {
    && |ys| >= 2 && 0 < sp.step < UINT32 && sp.start < UINT32 && x < UINT32
    && forall i | 0 <= i < |ys| :: 0 <= ys[i] < UINT32
  }

  function Clamp(v: nat, lo: nat, hi: nat): (r: nat)
    requires lo <= hi
    ensures lo <= r <= hi
  {
    if v < lo then lo else if hi < v then hi else v
  }

  /** The upper table index of the segment. */
  function Index(sp: Spacing, n: nat, x: nat): (i: nat)
    requires sp.step > 0 && n >= 2
    ensures 1 <= i <= n - 1
  {
    Clamp(Wrap(x - sp.start + sp.step / 2) / sp.step, 1, n - 1)
  }

  /** Rise over run, where the run is from the reading `step` above `x1` back to `x1`. */
  function Slope(x1: nat, step: nat, y0: int, y1: int): nat
    requires x1 < UINT32 && 0 < step < UINT32
  {
    var x0 := Wrap(x1 + step);
    RunIsNegative(x1, step);
    Wrap(y1 - y0) / Wrap(x1 - x0)
  }

  function Interpolate(sp: Spacing, ys: seq<int>, x: nat): nat
    requires Usable(sp, ys, x)
  {
    var i := Index(sp, |ys|, x);
    var x1 := sp.At(i);
    var x0 := Wrap(x1 + sp.step);
    Wrap(ys[i - 1] + Wrap(Slope(x1, sp.step, ys[i - 1], ys[i]) * Wrap(x - x0)))
  }

  // ----- the slope

  /** The divisor is minus the step, and wraps to a huge number. */
  lemma RunIsNegative(x1: nat, step: nat)
    requires x1 < UINT32 && 0 < step < UINT32
    ensures Wrap(x1 - Wrap(x1 + step)) == UINT32 - step
  {
    if x1 + step < UINT32 {
      assert Wrap(x1 + step) == x1 + step;
    } else {
      assert Wrap(x1 + step) == x1 + step - UINT32;
    }
  }

  lemma SmallQuotient(n: nat, d: nat)
    requires d > 0 && n < 2 * d
    ensures n / d == if n < d then 0 else 1
  {
    var q := n / d;
    assert n == d * q + n % d;
    assert d * q < d * 2;
    LessFactor(d, q, 2);
    if n >= d {
      assert d * 0 < d * q;
      LessFactor(d, 0, q);
    }
  }

  lemma LessFactor(d: nat, p: nat, q: nat)
    requires d * p < d * q
    ensures p < q
  {
  }

  /** How far it falls from `y0` to `y1`, modulo 2^32. */
  function Drop(y0: int, y1: int): (d: nat)
    ensures d < UINT32
  {
    Wrap(y0 - y1)
  }

  lemma RiseOfDrop(y0: int, y1: int)
    requires 0 <= y0 < UINT32 && 0 <= y1 < UINT32
    ensures Wrap(y1 - y0) == if y0 == y1 then 0 else UINT32 - Drop(y0, y1)
    ensures y0 != y1 ==> Drop(y0, y1) > 0
  {
  }

  lemma WrapKeepsSum(a: int, b: int)
    ensures Wrap(a + Wrap(b)) == Wrap(a + b)
  {
  }

  lemma QuotientIsOne(n: nat, d: nat)
    requires d > 0
    ensures n / d == 0 <==> n < d
    ensures n / d == 1 <==> d <= n < 2 * d
  {
    if n < 2 * d {
      SmallQuotient(n, d);
    } else {
      var q := n / d;
      assert n == d * q + n % d;
      assert d * 1 < d * q;
      LessFactor(d, 1, q);
    }
  }

  /** The slope a table gets where it falls by `drop`, modulo 2^32. */
  function StepSlope(step: nat, drop: nat): nat
    requires step < UINT32 && drop < UINT32
  {
    if drop == 0 || drop > step then 0 else (UINT32 - drop) / (UINT32 - step)
  }

  /** The slope is 0 unless the table falls a little, by at least one and at most the
      step; then it is 1, unless the step is so large that it is more.  It is never
      more for a step up to 2^31. */
  lemma SlopeExactly(x1: nat, step: nat, y0: int, y1: int)
    requires x1 < UINT32 && 0 < step < UINT32 && 0 <= y0 < UINT32 && 0 <= y1 < UINT32
    ensures var s, drop := Slope(x1, step, y0, y1), Drop(y0, y1);
            && s == StepSlope(step, drop)
            && (s == 0 <==> y0 == y1 || drop > step)
            && (s == 1 <==> y0 != y1 && drop <= step && 2 * step < UINT32 + drop)
            && (2 * step <= UINT32 ==> s <= 1)
  {
    RunIsNegative(x1, step);
    RiseOfDrop(y0, y1);
    DropIsZero(y0, y1);
    hide Wrap, Drop;
    QuotientIsOne(Wrap(y1 - y0), UINT32 - step);
  }

  lemma DropIsZero(y0: int, y1: int)
    requires 0 <= y0 < UINT32 && 0 <= y1 < UINT32
    ensures Drop(y0, y1) == 0 <==> y0 == y1
  {
  }

  /** With any step, the slope vanishes on a table that falls by more. */
  lemma SlopeVanishes(x1: nat, step: nat, y0: int, y1: int)
    requires x1 < UINT32 && 0 < step < UINT32 && 0 <= y0 < UINT32 && 0 <= y1 < UINT32
    requires y0 == y1 || Drop(y0, y1) > step
    ensures Slope(x1, step, y0, y1) == 0
  {
    RunIsNegative(x1, step);
    RiseOfDrop(y0, y1);
    hide Wrap, Drop;
    SmallQuotient(Wrap(y1 - y0), UINT32 - step);
  }

  /** A table that falls by more than the step from each entry to the next. */
  predicate Steep(sp: Spacing, ys: seq<int>) {
    forall i | 1 <= i < |ys| :: ys[i - 1] - ys[i] > sp.step
  }

  /** On such a table there is no interpolation: the result is a table entry. */
  lemma SteepIsLookup(sp: Spacing, ys: seq<int>, x: nat)
    requires Usable(sp, ys, x) && Steep(sp, ys)
    ensures Interpolate(sp, ys, x) == ys[Index(sp, |ys|, x) - 1]
  {
    hide Index, Slope, Spacing.At;
    var i := Index(sp, |ys|, x);
    SlopeVanishes(sp.At(i), sp.step, ys[i - 1], ys[i]);
    assert Drop(ys[i - 1], ys[i]) == ys[i - 1] - ys[i];
    assert ys[i - 1] < UINT32;
  }

  lemma {:induction false} SteepFalls(sp: Spacing, ys: seq<int>, i: nat, j: nat)
    requires Steep(sp, ys) && i <= j < |ys|
    ensures ys[j] <= ys[i] && (i < j ==> ys[j] < ys[i])
    decreases j - i
  {
    if i < j {
      SteepFalls(sp, ys, i, j - 1);
      assert ys[j - 1] - ys[j] > sp.step;
    }
  }

  lemma WrapKeepsProduct(s: nat, b: int)
    ensures Wrap(s * Wrap(b)) == Wrap(s * b)
  {
    var q := b / UINT32;
    assert b == UINT32 * q + Wrap(b);
    assert s * b == UINT32 * (s * q) + s * Wrap(b);
    MultipleVanishes(s * q, s * Wrap(b));
  }

  lemma MultipleVanishes(m: int, n: int)
    ensures Wrap(UINT32 * m + n) == Wrap(n)
  {
  }

  /** The result for every table: the lower entry, plus the slope for each reading
      past `x0`.  Where the slope is 1 that is one more for each, although the table
      falls there. */
  lemma ResultExactly(sp: Spacing, ys: seq<int>, x: nat)
    requires Usable(sp, ys, x)
    ensures var i := Index(sp, |ys|, x);
            var y0, x0, drop := ys[i - 1], Wrap(sp.At(i) + sp.step), Drop(ys[i - 1], ys[i]);
            && Interpolate(sp, ys, x) == Wrap(y0 + StepSlope(sp.step, drop) * (x - x0))
            && (drop == 0 || drop > sp.step ==> Interpolate(sp, ys, x) == y0)
            && (0 < drop <= sp.step && 2 * sp.step < UINT32 + drop ==> Interpolate(sp, ys, x) == Wrap(y0 + (x - x0)))
  {
    hide Index, Slope, Spacing.At, Wrap, Drop, StepSlope;
    var i := Index(sp, |ys|, x);
    var y0, run := ys[i - 1], x - Wrap(sp.At(i) + sp.step);
    assert 0 <= y0 < UINT32 && 0 <= ys[i] < UINT32;
    SlopeExactly(sp.At(i), sp.step, y0, ys[i]);
    DropIsZero(y0, ys[i]);
    var s := StepSlope(sp.step, Drop(y0, ys[i]));
    WrapKeepsProduct(s, run);
    WrapKeepsSum(y0, s * run);
    WrapFits(y0);
    if s == 0 {
      assert s * run == 0;
    }
  }

  // ----- the whole range

  /** The rounded offset fits in 32 bits. */
  predicate Fits(sp: Spacing, x: nat) { x - sp.start + sp.step / 2 < UINT32 }

  lemma NoMultipleBetween(d: int, t: int)
    requires -d < d * t < d
    ensures t == 0
  {
  }

  lemma DivideMonotone(a: nat, b: nat, d: nat)
    requires a <= b && d > 0
    ensures a / d <= b / d
  {
    var q, r := a / d, b / d;
    assert a == d * q + a % d && b == d * r + b % d;
    assert d * (r + 1) == d * r + d;
    LessFactor(d, q, r + 1);
  }

  lemma QuotientOf(k: nat, d: nat, r: nat)
    requires r < d
    ensures (d * k + r) / d == k
  {
    var n := d * k + r;
    var q := n / d;
    assert n == d * q + n % d;
    assert d * (k - q) == n % d - r;
    NoMultipleBetween(d, k - q);
  }

  lemma IndexRises(sp: Spacing, n: nat, x: nat, x': nat)
    requires n >= 2 && 0 < sp.step && sp.start <= sp.step / 2
    requires x <= x' && Fits(sp, x')
    ensures Index(sp, n, x) <= Index(sp, n, x')
  {
    hide Wrap;
    var a, b := x - sp.start + sp.step / 2, x' - sp.start + sp.step / 2;
    WrapFits(a);
    WrapFits(b);
    DivideMonotone(a, b, sp.step);
  }

  /** The result never rises as the reading rises, and lies between the first entry
      and the last but one: the last entry of a steep table is never returned. */
  lemma NeverRises(sp: Spacing, ys: seq<int>, x: nat, x': nat)
    requires Usable(sp, ys, x) && Usable(sp, ys, x') && Steep(sp, ys) && sp.start <= sp.step / 2
    requires x <= x' && Fits(sp, x')
    ensures Interpolate(sp, ys, x') <= Interpolate(sp, ys, x)
    ensures ys[|ys| - 1] < ys[|ys| - 2] <= Interpolate(sp, ys, x) <= ys[0]
  {
    hide Interpolate, Index;
    var n := |ys|;
    SteepIsLookup(sp, ys, x);
    SteepIsLookup(sp, ys, x');
    IndexRises(sp, n, x, x');
    SteepFalls(sp, ys, Index(sp, n, x) - 1, Index(sp, n, x') - 1);
    SteepFalls(sp, ys, Index(sp, n, x) - 1, n - 2);
    SteepFalls(sp, ys, 0, Index(sp, n, x) - 1);
    SteepFalls(sp, ys, n - 2, n - 1);
  }

  /** The last reading of the spacing, rounded, fits in 32 bits. */
  predicate Spaced(sp: Spacing, n: nat) { sp.step * (n - 1) + sp.start + sp.step < UINT32 }

  /** The condition on `start` is exact: with a larger one the offset of reading 0
      wraps to the far end of the table, and the result rises from reading 0 to
      reading `start`.  A table of two entries has only one result. */
  lemma NeverRisesExactly(sp: Spacing, ys: seq<int>)
    requires Usable(sp, ys, 0) && Steep(sp, ys) && Spaced(sp, |ys|)
    ensures (forall x: nat, x': nat | x <= x' < UINT32 && Fits(sp, x') ::
               Interpolate(sp, ys, x') <= Interpolate(sp, ys, x))
            <==> sp.start <= sp.step / 2 || |ys| == 2
  {
    hide Interpolate;
    if sp.start > sp.step / 2 && |ys| > 2 {
      RisesFromZero(sp, ys);
    } else {
      forall x: nat, x': nat | x <= x' < UINT32 && Fits(sp, x')
        ensures Interpolate(sp, ys, x') <= Interpolate(sp, ys, x)
      {
        if |ys| == 2 {
          SteepIsLookup(sp, ys, x);
          SteepIsLookup(sp, ys, x');
        } else {
          NeverRises(sp, ys, x, x');
        }
      }
    }
  }

  lemma IndexOfZero(sp: Spacing, n: nat)
    requires n >= 3 && 0 < sp.step && sp.start > sp.step / 2 && Spaced(sp, n)
    ensures Index(sp, n, 0) == n - 1
  {
    var far := UINT32 - (sp.start - sp.step / 2);
    assert sp.step * (n - 1) >= 0;
    assert Wrap(0 - sp.start + sp.step / 2) == far;
    DivideMonotone(sp.step * (n - 1), far, sp.step);
    QuotientOf(n - 1, sp.step, 0);
  }

  lemma IndexOfStart(sp: Spacing, n: nat)
    requires n >= 2 && 0 < sp.step && Spaced(sp, n)
    ensures Index(sp, n, sp.start) == 1
  {
    assert sp.step * (n - 1) >= 0;
    assert Wrap(sp.start - sp.start + sp.step / 2) == sp.step / 2;
    QuotientOf(0, sp.step, sp.step / 2);
  }

  lemma RisesFromZero(sp: Spacing, ys: seq<int>)
    requires Usable(sp, ys, 0) && Steep(sp, ys) && |ys| >= 3 && Spaced(sp, |ys|)
    requires sp.start > sp.step / 2
    ensures Fits(sp, sp.start) && Interpolate(sp, ys, 0) < Interpolate(sp, ys, sp.start)
  {
    hide Interpolate, Index, Spaced;
    IndexOfZero(sp, |ys|);
    IndexOfStart(sp, |ys|);
    SteepIsLookup(sp, ys, 0);
    SteepIsLookup(sp, ys, sp.start);
    SteepFalls(sp, ys, 0, |ys| - 2);
  }

  // ----- readings of the table

  lemma KnotFits(sp: Spacing, n: nat, k: nat)
    requires k < n && Spaced(sp, n)
    ensures 0 <= sp.step * k && sp.step * k + sp.start + sp.step < UINT32
    ensures k + 1 < n ==> sp.step * k + sp.start + 2 * sp.step < UINT32
  {
    MoreSteps(sp.step, k, n - 1);
    if k + 1 < n {
      MoreSteps(sp.step, k + 1, n - 1);
    }
  }

  lemma MoreSteps(step: nat, k: nat, m: nat)
    requires k <= m
    ensures 0 <= step * k <= step * m && step * (k + 1) == step * k + step
  {
    assert step * (m - k) >= 0;
  }

  /** For a reading `r` past the `k`-th table reading, the offset rounds to the
      nearer of the two. */
  lemma IndexBetween(sp: Spacing, n: nat, k: nat, r: nat)
    requires n >= 2 && k < n && r < sp.step && (k + 1 < n || r == 0) && Spaced(sp, n)
    ensures var nearest := if r + sp.step / 2 < sp.step then k else k + 1;
            Index(sp, n, sp.step * k + sp.start + r) == Clamp(nearest, 1, n - 1)
  {
    hide Wrap;
    var half := sp.step / 2;
    var base := sp.step * k;
    KnotFits(sp, n, k);
    WrapFits(base + r + half);
    assert base + sp.start + r - sp.start + half == base + r + half;
    if r + half < sp.step {
      QuotientOf(k, sp.step, r + half);
    } else {
      assert base + r + half == sp.step * (k + 1) + (r + half - sp.step);
      QuotientOf(k + 1, sp.step, r + half - sp.step);
    }
  }

  lemma IndexAtReading(sp: Spacing, n: nat, k: nat)
    requires n >= 2 && k < n && 0 < sp.step && Spaced(sp, n)
    ensures 0 <= sp.step * k && sp.At(k) == sp.step * k + sp.start
    ensures Index(sp, n, sp.At(k)) == if k == 0 then 1 else k
  {
    hide Index, Spaced;
    KnotFits(sp, n, k);
    WrapFits(sp.step * k + sp.start);
    IndexBetween(sp, n, k, 0);
  }

  /** The table is not reproduced at its own readings: each but the first gives the
      entry before it. */
  lemma OffByOneAtReadings(sp: Spacing, ys: seq<int>, k: nat)
    requires k < |ys| && Spaced(sp, |ys|) && Usable(sp, ys, sp.step * k + sp.start) && Steep(sp, ys)
    ensures sp.At(k) == sp.step * k + sp.start
    ensures Interpolate(sp, ys, sp.At(k)) == ys[if k == 0 then 0 else k - 1]
    ensures Interpolate(sp, ys, sp.At(k)) == ys[k] <==> k == 0
  {
    hide Interpolate, Index, Spaced, Steep, Spacing.At;
    IndexAtReading(sp, |ys|, k);
    SteepIsLookup(sp, ys, sp.At(k));
    if k > 0 {
      SteepFalls(sp, ys, k - 1, k);
    }
  }

  /** Between two readings the result lies between their entries, as interpolation
      should, exactly in the first segment and on the upper half of the others. */
  lemma BetweenEntriesExactly(sp: Spacing, ys: seq<int>, k: nat, r: nat)
    requires k + 1 < |ys| && r < sp.step && Spaced(sp, |ys|)
    requires Usable(sp, ys, sp.step * k + sp.start + r) && Steep(sp, ys)
    ensures ys[k + 1] <= Interpolate(sp, ys, sp.step * k + sp.start + r) <= ys[k]
            <==> k == 0 || r + sp.step / 2 >= sp.step
  {
    hide Interpolate, Index, Spaced, Steep;
    var x := sp.step * k + sp.start + r;
    IndexBetween(sp, |ys|, k, r);
    SteepIsLookup(sp, ys, x);
    SteepFalls(sp, ys, k, k + 1);
    if k > 0 {
      SteepFalls(sp, ys, k - 1, k);
    }
  }

  // ----- the table shipped

  const SHIPPED: Spacing := Spacing(8, 32, 128)

  /** For the spacing and the 12-bit converter of the example, no reading overflows
      and the result is the entry before the nearest reading, for any steep table. */
  lemma ShippedLookup(ys: seq<int>, x: nat, x': nat)
    requires |ys| == SHIPPED.size && Steep(SHIPPED, ys) && x <= x' <= 4095
    requires forall i | 0 <= i < |ys| :: 0 <= ys[i] < UINT32
    ensures Interpolate(SHIPPED, ys, x) == ys[Clamp((x + 8) / 32, 1, 127) - 1]
    ensures Interpolate(SHIPPED, ys, x') <= Interpolate(SHIPPED, ys, x)
  {
    assert Index(SHIPPED, |ys|, x) == Clamp((x + 8) / 32, 1, 127);
    hide Interpolate, Index;
    SteepIsLookup(SHIPPED, ys, x);
    NeverRises(SHIPPED, ys, x, x');
  }
}
