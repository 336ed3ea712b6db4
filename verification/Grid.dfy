/** Rounding to a grid of `unit` byte windows. */
module Grid {

  function Multiple(k: int, unit: nat): int {
    k * unit
  }

  /** `x` sits on the grid. Stated with a witness so that proofs stay linear. */
  ghost predicate OnGrid(x: int, unit: nat) {
    unit > 0 && exists k: int :: x == Multiple(k, unit)
  }

  lemma OnGridMod(x: nat, unit: nat)
    requires unit > 0
    ensures OnGrid(x, unit) <==> x % unit == 0
  {
    if x % unit == 0 {
      assert x == Multiple(x / unit, unit);
    }
    if OnGrid(x, unit) {
      var k :| x == Multiple(k, unit);
      MultipleMod(k, unit, x);
    }
  }

  lemma MultipleMod(k: int, unit: nat, x: nat)
    requires unit > 0 && x == k * unit
    ensures x % unit == 0
  {
    var d := x / unit - k;
    assert x == x / unit * unit + x % unit;
    assert d * unit == -(x % unit) by {
      assert d * unit == x / unit * unit - k * unit;
    }
    SmallMultiple(d, unit);
  }

  /** A multiple of `unit` strictly between `-unit` and `unit` is zero. */
  lemma SmallMultiple(d: int, unit: nat)
    requires unit > 0
    ensures -(unit as int) < d * unit < unit ==> d == 0
  {
    MulSign(d, unit);
  }

  lemma MulSign(d: int, unit: nat)
    requires unit > 0
    ensures d >= 1 ==> d * unit >= unit
    ensures d == 0 ==> d * unit == 0
    ensures d <= -1 ==> d * unit <= -(unit as int)
  {
  }

  lemma UnitOnGrid(unit: nat)
    requires unit > 0
    ensures OnGrid(unit, unit) && OnGrid(0, unit)
  {
    assert unit == Multiple(1, unit);
    assert 0 == Multiple(0, unit);
  }

  lemma GridSum(x: int, y: int, unit: nat)
    requires OnGrid(x, unit) && OnGrid(y, unit)
    ensures OnGrid(x + y, unit) && OnGrid(x - y, unit)
  {
    var i :| x == Multiple(i, unit);
    var j :| y == Multiple(j, unit);
    assert x + y == Multiple(i + j, unit);
    assert x - y == Multiple(i - j, unit);
  }

  /** Two grid points closer than one unit coincide. */
  lemma GridGap(x: int, y: int, unit: nat)
    requires OnGrid(x, unit) && OnGrid(y, unit) && x < y
    ensures x + unit <= y
  {
    var i :| x == Multiple(i, unit);
    var j :| y == Multiple(j, unit);
    var d := j - i;
    assert d * unit == j * unit - i * unit;
    MulSign(d, unit);
  }

  /** The grid point at or below `x`. */
  function Floor(x: nat, unit: nat): (r: nat)
    requires unit > 0
    ensures r <= x < r + unit && OnGrid(r, unit)
  {
    FloorBounds(x, unit);
    x - x % unit
  }

  lemma FloorBounds(x: nat, unit: nat)
    requires unit > 0
    ensures 0 <= x % unit < unit && x % unit <= x && OnGrid(x - x % unit, unit)
  {
    assert x - x % unit == Multiple(x / unit, unit);
    assert x / unit * unit >= 0;
  }

  /** `next_multiple_of`: the grid point at or above `x`. */
  function Ceil(x: nat, unit: nat): (r: nat)
    requires unit > 0
    ensures x <= r < x + unit && OnGrid(r, unit)
  {
    OnGridMod(x, unit);
    UnitOnGrid(unit);
    GridSum(Floor(x, unit), unit, unit);
    if x % unit == 0 then x else Floor(x, unit) + unit
  }

  lemma CeilUnique(x: nat, e: nat, unit: nat)
    requires unit > 0 && OnGrid(e, unit) && x <= e < x + unit
    ensures Ceil(x, unit) == e
  {
    var c := Ceil(x, unit);
    if c < e {
      GridGap(c, e, unit);
    } else if e < c {
      GridGap(e, c, unit);
    }
  }

  lemma FloorUnique(x: nat, e: nat, unit: nat)
    requires unit > 0 && OnGrid(e, unit) && e <= x < e + unit
    ensures Floor(x, unit) == e
  {
    var c := Floor(x, unit);
    if c < e {
      GridGap(c, e, unit);
    } else if e < c {
      GridGap(e, c, unit);
    }
  }

  /** Rounding up never leaves a region that ends on the grid. */
  lemma CeilWithin(x: nat, end: nat, unit: nat)
    requires unit > 0 && x <= end && OnGrid(end, unit)
    ensures Ceil(x, unit) <= end
  {
    var c := Ceil(x, unit);
    if end < c {
      GridGap(end, c, unit);
    }
  }
}
