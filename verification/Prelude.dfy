// Vocabulary shared by the other modules: optional values, powers of ten as the Go helpers
// compute them, and the few facts about real division and rounding that the prices rest on.
module Prelude {

  datatype Option<+T> = None | Some(value: T)

  const SECOND: int := 1_000_000_000

  // int64 arithmetic.
  function Wrap64(x: int): int {
    (x + 0x8000_0000_0000_0000) % 0x1_0000_0000_0000_0000 - 0x8000_0000_0000_0000
  }

  // The int64 congruent to x.
  lemma Wrap64IsCongruent(x: int)
    ensures -0x8000_0000_0000_0000 <= Wrap64(x) < 0x8000_0000_0000_0000
    ensures (x - Wrap64(x)) % 0x1_0000_0000_0000_0000 == 0
  {
  }

  function Max(a: int, b: int): int { if a < b then b else a }

  function MaxReal(a: real, b: real): real { if a < b then b else a }

  function Abs(x: real): real { if x < 0.0 then -x else x }

  function LowerChar(c: char): char {
    if 'A' <= c <= 'Z' then c - 'A' + 'a' else c
  }

  function Lower(s: string): string {
    seq(|s|, i requires 0 <= i < |s| => LowerChar(s[i]))
  }

  // Letter by letter, capitals become small and everything else stays.
  lemma LowerIs(s: string)
    ensures |Lower(s)| == |s|
    ensures forall i :: 0 <= i < |s| ==>
      Lower(s)[i] as int == s[i] as int + if 'A' <= s[i] <= 'Z' then 32 else 0
  {
  }

  // Multiplication and division by name, so that equal operands give equal results at a glance.
  function Product(x: real, y: real): real { x * y }

  function Quotient(a: real, b: real): real
    requires b != 0.0
  {
    a / b
  }

  function Tens(n: nat): (p: real)
    ensures p > 0.0
  {
    if n == 0 then 1.0 else 10.0 * Tens(n - 1)
  }

  // 10^n over the reals.
  function Pow10(n: int): real {
    if n >= 0 then Tens(n) else 1.0 / Tens(-n)
  }

  lemma Pow10Positive(n: int)
    ensures Pow10(n) > 0.0
  {
    if n < 0 { PositiveQuotient(1.0, Tens(-n)); }
  }

  lemma PositiveQuotient(a: real, b: real)
    requires a > 0.0 && b > 0.0
    ensures a / b > 0.0
  {
    var x := a / b;
    assert x * b == a;
  }

  lemma Pow10Step(n: int)
    ensures Pow10(n + 1) == 10.0 * Pow10(n) && Pow10(0) == 1.0
  {
    if n < 0 { TenfoldInverse(Tens(-n - 1), Tens(-n)); }
  }

  lemma TenfoldInverse(p: real, q: real)
    requires p > 0.0 && q == 10.0 * p
    ensures 1.0 / p == 10.0 * (1.0 / q)
  {
    var x, y := 1.0 / p, 1.0 / q;
    assert x * p == 1.0 && y * q == 1.0;
    assert (10.0 * y) * p == y * (10.0 * p);
    CancelRight(x, 10.0 * y, p);
  }

  lemma CancelRight(x: real, y: real, k: real)
    requires k > 0.0 && x * k == y * k
    ensures x == y
  {
    MulLe(x, y, k);
    MulLe(y, x, k);
  }

  // The pow10 of uniswap/math.go and strategy/engine.go: one loop for each sign of the exponent.
  method Pow10Signed(n: int) returns (r: real)
    ensures r == Pow10(n)
  {
    r := 1.0;
    if n > 0 {
      for i := 0 to n
        invariant r == Pow10(i)
      {
        Pow10Step(i);
        r := r * 10.0;
      }
    } else {
      for i := 0 to -n
        invariant r == Pow10(-i)
      {
        Pow10Step(-i - 1);
        r := r / 10.0;
      }
    }
  }

  // The pow10 of execution/v4_executor.go has no second loop: a negative exponent gives 1.
  method Pow10Upward(n: int) returns (r: real)
    ensures n >= 0 ==> r == Pow10(n)
    ensures n < 0 ==> r == 1.0
  {
    r := 1.0;
    var i := 0;
    while i < n
      invariant 0 <= i <= Max(n, 0)
      invariant r == Pow10(i)
    {
      Pow10Step(i);
      r := r * 10.0;
      i := i + 1;
    }
  }

  // Scaling by the difference of two exponents is scaling by the ratio of the powers.
  lemma {:induction false} Pow10Difference(a: nat, b: nat)
    ensures Product(Pow10(a - b), Pow10(b)) == Pow10(a)
    decreases b
  {
    if b > 0 {
      Pow10Difference(a, b - 1);
      Pow10Step(a - b);
      Pow10Step(b - 1);
      TenMoves(Pow10(a - (b - 1)), Pow10(a - b), Pow10(b), Pow10(b - 1), Pow10(a));
    } else {
      assert Pow10(0) == 1.0;
    }
  }

  lemma TenMoves(p10: real, p: real, q10: real, q: real, product: real)
    requires p10 == 10.0 * p && q10 == 10.0 * q && Product(p10, q) == product
    ensures Product(p, q10) == product
  {
    assert p * (10.0 * q) == (10.0 * p) * q;
  }

  // a/b <= c/d, checked by multiplying across.
  lemma QuotientLe(a: real, b: real, c: real, d: real)
    requires b > 0.0 && d > 0.0
    ensures a / b <= c / d <==> a * d <= c * b
  {
  }

  lemma MulLe(x: real, y: real, k: real)
    requires k > 0.0
    ensures x <= y <==> x * k <= y * k
  {
  }

  lemma ProductLe(a: int, b: int, k: int)
    requires a <= b && 0 <= k
    ensures a * k <= b * k
  {
  }

  lemma ProductStep(a: int, b: int, k: nat)
    requires a < b
    ensures a * k + k <= b * k
  {
    ProductLe(a + 1, b, k);
    assert (a + 1) * k == a * k + k;
  }

  lemma MonotoneTimes(x: real, y: real, u: real)
    requires x <= y && u >= 0.0
    ensures x * u <= y * u
  {
  }

  lemma DivMod(total: nat, n: nat) returns (q: nat, r: nat)
    requires n > 0
    ensures q == total / n && r == total % n && r < n && total == q * n + r
  {
    q, r := total / n, total % n;
  }

  // Rounding down: an integer is below a real exactly when it is below the floor.
  lemma FloorIsGreatest(x: real, m: int)
    ensures m <= x.Floor <==> m as real <= x
  {
  }
}
