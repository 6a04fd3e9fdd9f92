// bigIntSqrt of issuer-service/scripts/v3_pool.ts and sqrt of v4_pool.ts: the same Newton
// iteration over bigints, proved to return the exact floor of the square root.
module IntSqrt {
  import opened Prelude

  predicate IsFloorSqrt(x: int, v: int) {
    0 <= x && x * x <= v < (x + 1) * (x + 1)
  }

  // Two floors of the square root of the same number are equal; of a larger number, not smaller.
  lemma FloorSqrtMonotone(x: int, v: int, y: int, w: int)
    requires IsFloorSqrt(x, v) && IsFloorSqrt(y, w) && v <= w
    ensures x <= y
  {
  }

  lemma SquareMonotone(a: int, b: int)
    requires 0 <= a
    ensures a <= b ==> a * a <= b * b
    ensures a * a <= b * b && 0 <= b ==> a <= b
  {
  }

  // The specification: counts up to the root.
  function FloorSqrt(v: nat): nat {
    if v == 0 then 0 else
      var s := FloorSqrt(v - 1);
      if (s + 1) * (s + 1) <= v then s + 1 else s
  }

  lemma {:induction false} FloorSqrtIsRoot(v: nat)
    ensures IsFloorSqrt(FloorSqrt(v), v)
  {
    if v > 0 {
      FloorSqrtIsRoot(v - 1);
    }
  }

  lemma RootIsUnique(x: int, v: nat)
    requires IsFloorSqrt(x, v)
    ensures x == FloorSqrt(v)
  {
    FloorSqrtIsRoot(v);
    FloorSqrtMonotone(x, v, FloorSqrt(v), v);
    FloorSqrtMonotone(FloorSqrt(v), v, x, v);
  }

  // The mean of x and v/x, rounded down.
  function Newton(v: nat, x: nat): nat
    requires x >= 1
  {
    (x + v / x) / 2
  }

  ghost predicate AtOrAboveRoot(v: nat, x: nat) {
    v < (x + 1) * (x + 1)
  }

  // One Newton step from any x >= 1 lands at or above the root.
  lemma NewtonStaysAbove(v: nat, x: nat)
    requires x >= 1 && v >= 1
    ensures AtOrAboveRoot(v, Newton(v, x)) && Newton(v, x) >= 1
  {
    var q, r := DivMod(v, x);
    assert v < (q + 1) * x by { assert (q + 1) * x == q * x + x; }
    MeanAboveRoot(v, q + 1, x, Newton(v, x));
  }

  lemma MeanAboveRoot(v: nat, a: nat, b: nat, y: nat)
    requires 1 <= v < a * b && a + b <= 2 * (y + 1)
    ensures v < (y + 1) * (y + 1) && y >= 1
  {
    SquareMonotone(a + b, 2 * (y + 1));
    SquareOfSum(a, b);
    assert (2 * (y + 1)) * (2 * (y + 1)) == 4 * ((y + 1) * (y + 1));
  }

  lemma SquareOfSum(a: nat, b: nat)
    ensures (a + b) * (a + b) >= 4 * (a * b)
  {
    var d := if a <= b then b - a else a - b;
    assert d * d >= 0;
    assert (a + b) * (a + b) == 4 * (a * b) + d * d;
  }

  // Stopping when the next iterate is not smaller means x*x <= v.
  lemma NewtonStops(v: nat, x: nat)
    requires x >= 1 && x <= Newton(v, x)
    ensures x * x <= v
  {
    var q, r := DivMod(v, x);
    ProductLe(x, q, x);
  }

  method BigIntSqrt(value: int) returns (r: int)
    ensures value < 0 ==> r == value
    ensures 0 <= value ==> IsFloorSqrt(r, value) && r == FloorSqrt(value)
  {
    if value < 2 {
      if value >= 0 { RootIsUnique(value, value); }
      return value;
    }
    r := Iterate(value);
    RootIsUnique(r, value);
  }

  // The loop, on the values it is reached with.
  method Iterate(value: nat) returns (x: nat)
    requires value >= 2
    ensures IsFloorSqrt(x, value)
  {
    x := value;
    var y := (x + 1) / 2;
    FirstIterate(value);
    while y < x
      invariant 1 <= x && y == Newton(value, x)
      invariant AtOrAboveRoot(value, x) && AtOrAboveRoot(value, y) && 1 <= y
      decreases x
    {
      x := y;
      y := (x + value / x) / 2;
      NewtonStaysAbove(value, x);
    }
    NewtonStops(value, x);
  }

  lemma FirstIterate(value: nat)
    requires value >= 2
    ensures Newton(value, value) == (value + 1) / 2
    ensures AtOrAboveRoot(value, value) && AtOrAboveRoot(value, Newton(value, value)) && 1 <= Newton(value, value)
  {
  }
}
