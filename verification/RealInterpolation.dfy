/** The notebook's table interpolation over a binary search, in real arithmetic. */
module RealInterpolation {

  ghost predicate Sorted(a: seq<real>) {
    forall i, j | 0 <= i < j < |a| :: a[i] <= a[j]
  }

  ghost predicate StrictlySorted(a: seq<real>) {
    forall i, j | 0 <= i < j < |a| :: a[i] < a[j]
  }

  /** The first position whose element is not below `x`. */
  function Position(a: seq<real>, x: real): (i: nat)
    ensures i <= |a|
    ensures forall j | 0 <= j < i :: a[j] < x
    ensures i < |a| ==> a[i] >= x
  {
    if a == [] || a[0] >= x then 0 else 1 + Position(a[1..], x)
  }

  /** The binary search finds it in a sorted sequence. */
  method BisectLeft(a: seq<real>, x: real) returns (lo: nat)
    requires Sorted(a)
    ensures lo == Position(a, x)
  {
    lo := 0;
    var hi := |a|;
    while lo < hi
      invariant lo <= Position(a, x) <= hi <= |a|
    {
      var mid := (lo + hi) / 2;
      if a[mid] < x {
        assert forall j | 0 <= j <= mid :: a[j] < x;
        lo := mid + 1;
      } else {
        hi := mid;
      }
    }
  }

  datatype Result = BadTable | Value(y: real)

  predicate GoodTable(xs: seq<real>, ys: seq<real>) { |xs| == |ys| && |xs| >= 2 }

  /** The line through two points. */
  function Line(x0: real, y0: real, x1: real, y1: real, x: real): real
    requires x0 < x1
  {
    y0 + (y1 - y0) / (x1 - x0) * (x - x0)
  }

  function At(xs: seq<real>, ys: seq<real>, x: real): real
    requires GoodTable(xs, ys) && Sorted(xs)
  {
    var i := Position(xs, x);
    if i == 0 then ys[0]
    else if i == |xs| then ys[|ys| - 1]
    else Line(xs[i - 1], ys[i - 1], xs[i], ys[i], x)
  }

  lemma SlopeAndRun(x0: real, y0: real, x1: real, y1: real, x: real, slope: real)
    requires x0 < x1 && slope == (y1 - y0) / (x1 - x0)
    ensures y0 + slope * (x - x0) == Line(x0, y0, x1, y1, x)
  {
  }

  /** `interpolate`: raises for a malformed table; the x values of any other must be sorted. */
  method Interpolate(xs: seq<real>, ys: seq<real>, x: real) returns (r: Result)
    requires GoodTable(xs, ys) ==> Sorted(xs)
    ensures r == if GoodTable(xs, ys) then Value(At(xs, ys, x)) else BadTable
    ensures r == BadTable <==> |xs| != |ys| || |xs| < 2
  {
    if !(|xs| == |ys| && |xs| >= 2) {
      return BadTable;
    }
    hide Position;
    var i := BisectLeft(xs, x);
    if i == 0 {
      return Value(ys[0]);
    }
    if i == |xs| {
      return Value(ys[|ys| - 1]);
    }
    var x0, x1 := xs[i - 1], xs[i];
    var y0, y1 := ys[i - 1], ys[i];
    var slope := (y1 - y0) / (x1 - x0);
    var y := y0 + slope * (x - x0);
    SlopeAndRun(x0, y0, x1, y1, x, slope);
    hide Line;
    return Value(y);
  }

  // ----- one segment

  /** The height climbed from `a` to `b` at a given slope. */
  function Climb(slope: real, a: real, b: real): real { slope * (b - a) }

  lemma ClimbAdds(slope: real, a: real, b: real, c: real)
    ensures Climb(slope, a, b) + Climb(slope, b, c) == Climb(slope, a, c)
  {
    Distribute(slope, b - a, c - b);
    assert (b - a) + (c - b) == c - a;
  }

  lemma Distribute(s: real, p: real, q: real)
    ensures s * (p + q) == s * p + s * q
  {
  }

  lemma ClimbGrows(s: real, t: real, a: real, b: real)
    requires s <= t && a <= b
    ensures Climb(s, a, b) <= Climb(t, a, b)
  {
    var d := b - a;
    assert s * d <= t * d;
  }

  lemma ClimbUp(slope: real, a: real, b: real)
    requires slope >= 0.0 && a <= b
    ensures Climb(slope, a, b) >= 0.0
  {
    ClimbGrows(0.0, slope, a, b);
  }

  lemma SlopeAtMost(dx: real, dy: real, bound: real)
    requires dx > 0.0 && dy <= bound * dx
    ensures dy / dx <= bound
  {
    var q := dy / dx;
    assert q * dx == dy;
    assert (q - bound) * dx == q * dx - bound * dx;
    Cancel(q - bound, dx);
  }

  lemma Cancel(a: real, b: real)
    requires a * b <= 0.0 && b > 0.0
    ensures a <= 0.0
  {
  }

  lemma LineEnds(x0: real, y0: real, x1: real, y1: real)
    requires x0 < x1
    ensures Line(x0, y0, x1, y1, x0) == y0 && Line(x0, y0, x1, y1, x1) == y1
  {
    var q := (y1 - y0) / (x1 - x0);
    assert q * (x1 - x0) == y1 - y0;
  }

  /** A line no steeper than `bound` rises by at most that slope's climb. */
  lemma LineRise(x0: real, y0: real, x1: real, y1: real, x: real, x': real, bound: real)
    requires x0 < x1 && x <= x' && y1 - y0 <= Climb(bound, x0, x1)
    ensures Line(x0, y0, x1, y1, x') - Line(x0, y0, x1, y1, x) <= Climb(bound, x, x')
  {
    var q := (y1 - y0) / (x1 - x0);
    SlopeAtMost(x1 - x0, y1 - y0, bound);
    ClimbGrows(q, bound, x, x');
    ClimbAdds(q, x0, x, x');
  }

  // ----- the whole table

  /** No segment is steeper upwards than `bound`. */
  ghost predicate RisesAtMost(xs: seq<real>, ys: seq<real>, bound: real)
    requires |xs| == |ys|
  {
    forall i | 0 < i < |xs| :: ys[i] - ys[i - 1] <= Climb(bound, xs[i - 1], xs[i])
  }

  lemma {:induction false} KnotsRise(xs: seq<real>, ys: seq<real>, bound: real, i: nat, j: nat)
    requires |xs| == |ys| && i <= j < |xs| && RisesAtMost(xs, ys, bound)
    ensures ys[j] - ys[i] <= Climb(bound, xs[i], xs[j])
    decreases j - i
  {
    if i == j {
    } else {
      KnotsRise(xs, ys, bound, i, j - 1);
      ClimbAdds(bound, xs[i], xs[j - 1], xs[j]);
      hide Climb;
    }
  }

  lemma RiseToKnot(xs: seq<real>, ys: seq<real>, bound: real, x: real)
    requires GoodTable(xs, ys) && Sorted(xs) && RisesAtMost(xs, ys, bound) && bound >= 0.0
    requires Position(xs, x) < |xs|
    ensures var i := Position(xs, x); ys[i] - At(xs, ys, x) <= Climb(bound, x, xs[i])
  {
    hide Climb, Line;
    var i := Position(xs, x);
    if i == 0 {
      ClimbUp(bound, x, xs[0]);
    } else {
      LineRise(xs[i - 1], ys[i - 1], xs[i], ys[i], x, xs[i], bound);
      LineEnds(xs[i - 1], ys[i - 1], xs[i], ys[i]);
    }
  }

  lemma RiseFromKnot(xs: seq<real>, ys: seq<real>, bound: real, x: real)
    requires GoodTable(xs, ys) && Sorted(xs) && RisesAtMost(xs, ys, bound) && bound >= 0.0
    requires Position(xs, x) > 0
    ensures var i := Position(xs, x); At(xs, ys, x) - ys[i - 1] <= Climb(bound, xs[i - 1], x)
  {
    hide Climb, Line;
    var i := Position(xs, x);
    if i == |xs| {
      ClimbUp(bound, xs[i - 1], x);
    } else {
      LineRise(xs[i - 1], ys[i - 1], xs[i], ys[i], xs[i - 1], x, bound);
      LineEnds(xs[i - 1], ys[i - 1], xs[i], ys[i]);
    }
  }

  lemma {:induction false} PositionsInOrder(xs: seq<real>, x: real, x': real)
    requires x <= x'
    ensures Position(xs, x) <= Position(xs, x')
  {
    if xs != [] && xs[0] < x {
      PositionsInOrder(xs[1..], x, x');
    }
  }

  /** Across all segments and both clamped ends the interpolation never rises
      faster than the steepest segment. */
  lemma RiseIsBounded(xs: seq<real>, ys: seq<real>, bound: real, x: real, x': real)
    requires GoodTable(xs, ys) && Sorted(xs) && RisesAtMost(xs, ys, bound) && bound >= 0.0
    requires x <= x'
    ensures At(xs, ys, x') - At(xs, ys, x) <= Climb(bound, x, x')
  {
    hide Climb, Line;
    var i, i' := Position(xs, x), Position(xs, x');
    PositionsInOrder(xs, x, x');
    if i < i' {
      hide At, Sorted, RisesAtMost;
      RiseToKnot(xs, ys, bound, x);
      KnotsRise(xs, ys, bound, i, i' - 1);
      RiseFromKnot(xs, ys, bound, x');
      ClimbAdds(bound, x, xs[i], xs[i' - 1]);
      ClimbAdds(bound, x, xs[i' - 1], x');
    } else if 0 < i < |xs| {
      LineRise(xs[i - 1], ys[i - 1], xs[i], ys[i], x, x', bound);
    } else {
      ClimbUp(bound, x, x');
    }
  }

  // ----- what that says

  function Negated(ys: seq<real>): (n: seq<real>)
    ensures |n| == |ys| && forall i | 0 <= i < |ys| :: n[i] == -ys[i]
  {
    seq(|ys|, i requires 0 <= i < |ys| => -ys[i])
  }

  lemma NegatedTable(xs: seq<real>, ys: seq<real>, x: real)
    requires GoodTable(xs, ys) && Sorted(xs)
    ensures At(xs, Negated(ys), x) == -At(xs, ys, x)
  {
    var i := Position(xs, x);
    if 0 < i < |xs| {
      NegatedLine(xs[i - 1], ys[i - 1], xs[i], ys[i], x);
    }
  }

  lemma NegatedLine(x0: real, y0: real, x1: real, y1: real, x: real)
    requires x0 < x1
    ensures Line(x0, -y0, x1, -y1, x) == -Line(x0, y0, x1, y1, x)
  {
    var p, q := (y1 - y0) / (x1 - x0), (-y1 - -y0) / (x1 - x0);
    assert p * (x1 - x0) == y1 - y0;
    assert q * (x1 - x0) == y0 - y1;
    assert (p + q) * (x1 - x0) == 0.0;
    assert p == -q;
  }

  /** Continuity: two readings differ by at most the steepest slope times the
      distance between the arguments. */
  lemma Lipschitz(xs: seq<real>, ys: seq<real>, bound: real, x: real, x': real)
    requires GoodTable(xs, ys) && Sorted(xs) && bound >= 0.0 && x <= x'
    requires RisesAtMost(xs, ys, bound) && RisesAtMost(xs, Negated(ys), bound)
    ensures -Climb(bound, x, x') <= At(xs, ys, x') - At(xs, ys, x) <= Climb(bound, x, x')
  {
    hide At, Climb, RisesAtMost;
    RiseIsBounded(xs, ys, bound, x, x');
    RiseIsBounded(xs, Negated(ys), bound, x, x');
    NegatedTable(xs, ys, x);
    NegatedTable(xs, ys, x');
  }

  /** A falling table never rises as `x` does; a rising one never falls. */
  lemma Monotone(xs: seq<real>, ys: seq<real>, x: real, x': real)
    requires GoodTable(xs, ys) && Sorted(xs) && x <= x'
    ensures Sorted(ys) ==> At(xs, ys, x) <= At(xs, ys, x')
    ensures Sorted(Negated(ys)) ==> At(xs, ys, x) >= At(xs, ys, x')
  {
    hide At;
    if Sorted(Negated(ys)) {
      FallingTable(xs, ys);
      RiseIsBounded(xs, ys, 0.0, x, x');
    }
    if Sorted(ys) {
      NegatedTwice(ys);
      FallingTable(xs, Negated(ys));
      RiseIsBounded(xs, Negated(ys), 0.0, x, x');
      NegatedTable(xs, ys, x);
      NegatedTable(xs, ys, x');
    }
  }

  lemma NegatedTwice(ys: seq<real>)
    ensures Negated(Negated(ys)) == ys
  {
  }

  lemma FallingTable(xs: seq<real>, ys: seq<real>)
    requires |xs| == |ys| && Sorted(Negated(ys))
    ensures RisesAtMost(xs, ys, 0.0)
  {
    assert forall i | 0 < i < |ys| :: Negated(ys)[i - 1] <= Negated(ys)[i];
  }

  lemma PositionOfKnot(xs: seq<real>, k: nat)
    requires StrictlySorted(xs) && k < |xs|
    ensures Position(xs, xs[k]) == k
  {
  }

  /** Every table entry is reproduced. */
  lemma ExactAtKnots(xs: seq<real>, ys: seq<real>, k: nat)
    requires GoodTable(xs, ys) && StrictlySorted(xs) && k < |xs|
    ensures At(xs, ys, xs[k]) == ys[k]
  {
    PositionOfKnot(xs, k);
    if k > 0 {
      LineEnds(xs[k - 1], ys[k - 1], xs[k], ys[k]);
    }
  }

  /** Up to the first reading the value is the first entry, and past the last reading
      it stays at the last entry. */
  lemma ClampedAtEnds(xs: seq<real>, ys: seq<real>, x: real)
    requires GoodTable(xs, ys) && Sorted(xs)
    ensures x <= xs[0] ==> At(xs, ys, x) == ys[0]
    ensures x > xs[|xs| - 1] ==> At(xs, ys, x) == ys[|xs| - 1]
  {
  }

  /** (x, y) lies on the line through two points. */
  predicate OnLine(x0: real, y0: real, x1: real, y1: real, x: real, y: real) {
    (y - y0) * (x1 - x0) == (y1 - y0) * (x - x0)
  }

  /** In between, the value lies on the line through the two neighbouring entries. */
  lemma OnTheLine(xs: seq<real>, ys: seq<real>, k: nat, x: real)
    requires GoodTable(xs, ys) && StrictlySorted(xs) && k + 1 < |xs| && xs[k] <= x <= xs[k + 1]
    ensures OnLine(xs[k], ys[k], xs[k + 1], ys[k + 1], x, At(xs, ys, x))
  {
    hide OnLine, Line, Position;
    if x == xs[k] {
      ExactAtKnots(xs, ys, k);
      StartIsOnLine(xs[k], ys[k], xs[k + 1], ys[k + 1]);
    } else {
      PositionInside(xs, k, x);
      SlopeTimesRun(xs[k], ys[k], xs[k + 1], ys[k + 1], x);
    }
  }

  lemma StartIsOnLine(x0: real, y0: real, x1: real, y1: real)
    ensures OnLine(x0, y0, x1, y1, x0, y0)
  {
  }

  lemma SlopeTimesRun(x0: real, y0: real, x1: real, y1: real, x: real)
    requires x0 < x1
    ensures OnLine(x0, y0, x1, y1, x, Line(x0, y0, x1, y1, x))
  {
    var q, run, d := (y1 - y0) / (x1 - x0), x1 - x0, x - x0;
    assert q * run == y1 - y0;
    assert Line(x0, y0, x1, y1, x) - y0 == q * d;
    Reorder(q, d, run);
  }

  lemma Reorder(p: real, q: real, r: real)
    ensures (p * q) * r == (p * r) * q
  {
  }

  /** A point of a line over `x0` to `x1` is no higher than the higher end. */
  lemma LineBelow(x0: real, y0: real, x1: real, y1: real, x: real, top: real)
    requires x0 < x1 && x0 <= x <= x1 && y0 <= top && y1 <= top
    ensures Line(x0, y0, x1, y1, x) <= top
  {
    hide Line;
    LineEnds(x0, y0, x1, y1);
    if y1 <= y0 {
      ClimbIsFlat(x0, x1);
      ClimbIsFlat(x0, x);
      LineRise(x0, y0, x1, y1, x0, x, 0.0);
    } else {
      NegatedLine(x0, y0, x1, y1, x);
      NegatedLine(x0, y0, x1, y1, x1);
      ClimbIsFlat(x0, x1);
      ClimbIsFlat(x, x1);
      LineRise(x0, -y0, x1, -y1, x, x1, 0.0);
    }
  }

  lemma ClimbIsFlat(a: real, b: real)
    ensures Climb(0.0, a, b) == 0.0
  {
  }

  function Higher(a: real, b: real): real { if a < b then b else a }
  function Lower(a: real, b: real): real { if a < b then a else b }

  /** Between two neighbouring readings the result lies between their entries, for
      any table. */
  lemma BetweenNeighbours(xs: seq<real>, ys: seq<real>, k: nat, x: real)
    requires GoodTable(xs, ys) && StrictlySorted(xs) && k + 1 < |xs| && xs[k] <= x <= xs[k + 1]
    ensures Lower(ys[k], ys[k + 1]) <= At(xs, ys, x) <= Higher(ys[k], ys[k + 1])
  {
    if x == xs[k] {
      ExactAtKnots(xs, ys, k);
    } else {
      PositionInside(xs, k, x);
      hide Line, Position;
      LineBelow(xs[k], ys[k], xs[k + 1], ys[k + 1], x, Higher(ys[k], ys[k + 1]));
      LineBelow(xs[k], -ys[k], xs[k + 1], -ys[k + 1], x, -Lower(ys[k], ys[k + 1]));
      NegatedLine(xs[k], ys[k], xs[k + 1], ys[k + 1], x);
    }
  }

  lemma PositionInside(xs: seq<real>, k: nat, x: real)
    requires StrictlySorted(xs) && k + 1 < |xs| && xs[k] < x <= xs[k + 1]
    ensures Position(xs, x) == k + 1
  {
  }

  function Linear(slope: real, offset: real, x: real): real { slope * x + offset }

  /** A table of a linear function is interpolated without error inside its range. */
  lemma LinearIsExact(xs: seq<real>, ys: seq<real>, slope: real, offset: real, x: real)
    requires GoodTable(xs, ys) && Sorted(xs) && xs[0] <= x <= xs[|xs| - 1]
    requires forall i | 0 <= i < |xs| :: ys[i] == Linear(slope, offset, xs[i])
    ensures At(xs, ys, x) == Linear(slope, offset, x)
  {
    hide Line, Linear;
    var i := Position(xs, x);
    assert i < |xs|;
    if i > 0 {
      assert xs[i - 1] < x <= xs[i];
      LineOnLine(xs[i - 1], xs[i], slope, offset, x);
    }
  }

  lemma LineOnLine(x0: real, x1: real, slope: real, offset: real, x: real)
    requires x0 < x1
    ensures Line(x0, Linear(slope, offset, x0), x1, Linear(slope, offset, x1), x) == Linear(slope, offset, x)
  {
    var run := x1 - x0;
    Distribute(slope, x0, run);
    assert Linear(slope, offset, x1) - Linear(slope, offset, x0) == slope * run;
    QuotientOfProduct(slope, run);
    Distribute(slope, x0, x - x0);
  }

  lemma QuotientOfProduct(p: real, q: real)
    requires q != 0.0
    ensures p * q / q == p
  {
  }
}
