// Q64.96 square-root prices, written by the pool scripts (issuer-service/scripts/v3_pool.ts and
// v4_pool.ts) and read back by the market maker (market-maker-service/internal/uniswap).
// Bigints are integers; big.Float and float64 are exact reals.
module PriceCodec {
  import opened Prelude
  import opened IntSqrt

  const Q96: int := 0x1_0000_0000_0000_0000_0000_0000
  const Q192: int := Q96 * Q96

  // ----- writing a price -----

  // The square root of the ratio of raw reserves in Q64.96. Dividing by a zero reserve throws
  // in the scripts.
  function Encoded(reserve1: nat, reserve0: nat): Option<nat> {
    if reserve0 == 0 then None else Some(FloorSqrt(reserve1 * Q192 / reserve0))
  }

  method EncodePriceSqrt(reserve1: nat, reserve0: nat) returns (e: Option<nat>)
    ensures e == Encoded(reserve1, reserve0)
    ensures e.None? <==> reserve0 == 0
    ensures e.Some? ==> IsExactFloor(e.value, reserve1 * Q192, reserve0)
  {
    if reserve0 == 0 {
      return None;
    }
    var ratioX192 := reserve1 * Q192 / reserve0;
    var root := BigIntSqrt(ratioX192);
    EncodedIsExactFloor(reserve1, reserve0);
    e := Some(root);
  }

  // e^2 <= numerator / denominator < (e + 1)^2.
  ghost predicate IsExactFloor(e: nat, numerator: nat, denominator: nat) {
    e * e * denominator <= numerator < (e + 1) * (e + 1) * denominator
  }

  // What the two roundings of the encoder leave: e is the exact floor of the root of the
  // unrounded ratio.
  lemma EncodedIsExactFloor(reserve1: nat, reserve0: nat)
    requires reserve0 > 0
    ensures IsExactFloor(Encoded(reserve1, reserve0).value, reserve1 * Q192, reserve0)
  {
    var n := reserve1 * Q192 / reserve0;
    FloorSqrtIsRoot(n);
    ExactFloorOf(FloorSqrt(n), n, reserve1 * Q192, reserve0);
  }

  lemma ExactFloorOf(e: nat, n: nat, numerator: nat, denominator: nat)
    requires denominator > 0 && n == numerator / denominator && IsFloorSqrt(e, n)
    ensures IsExactFloor(e, numerator, denominator)
  {
    var q, r := DivMod(numerator, denominator);
    assert (n + 1) * denominator == n * denominator + denominator;
    ProductLe(e * e, n, denominator);
    ProductLe(n + 1, (e + 1) * (e + 1), denominator);
  }

  lemma QuotientMonotone(a: nat, b: nat, c: nat, d: nat)
    requires a <= c && 0 < d <= b
    ensures a / b <= c / d
  {
    var q := a / b;
    ProductLe(d, b, q);
    assert q * d <= c < (c / d + 1) * d;
    if q > c / d { ProductLe(c / d + 1, q, d); }
  }

  // Raising reserve1 never lowers the encoded price; raising reserve0 never raises it.
  lemma EncodedMonotone(r1: nat, r0: nat, s1: nat, s0: nat)
    requires r1 <= s1 && 0 < s0 <= r0
    ensures Encoded(r1, r0).value <= Encoded(s1, s0).value
  {
    ProductLe(r1, s1, Q192);
    var v, w := r1 * Q192 / r0, s1 * Q192 / s0;
    QuotientMonotone(r1 * Q192, r0, s1 * Q192, s0);
    FloorSqrtIsRoot(v);
    FloorSqrtIsRoot(w);
    FloorSqrtMonotone(FloorSqrt(v), v, FloorSqrt(w), w);
  }

  // Encoding the swapped reserves gives the reciprocal price to within one unit on each side.
  lemma SwappedReservesAreReciprocal(r1: nat, r0: nat)
    requires r1 > 0 && r0 > 0
    ensures var e, f := Encoded(r1, r0).value, Encoded(r0, r1).value;
      e * f <= Q192 < (e + 1) * (f + 1)
  {
    EncodedIsExactFloor(r1, r0);
    EncodedIsExactFloor(r0, r1);
    var e, f := Encoded(r1, r0).value, Encoded(r0, r1).value;
    ReciprocalBounds(e, f, r1, r0, Q192);
  }

  lemma ReciprocalBounds(e: nat, f: nat, r1: nat, r0: nat, q: nat)
    requires r1 > 0 && r0 > 0
    requires IsExactFloor(e, r1 * q, r0)
    requires IsExactFloor(f, r0 * q, r1)
    ensures e * f <= q < (e + 1) * (f + 1)
  {
    assert r0 * r1 > 0;
    SquaresOfProduct(e, f, r1, r0, q);
    RootOfScaled(e * f, q, r0 * r1);
    SquaresAboveProduct(e + 1, f + 1, r1, r0, q);
    if (e + 1) * (f + 1) <= q {
      SquareMonotone((e + 1) * (f + 1), q);
      ProductLe(((e + 1) * (f + 1)) * ((e + 1) * (f + 1)), q * q, r0 * r1);
    }
  }

  lemma SquaresOfProduct(e: nat, f: nat, r1: nat, r0: nat, q: nat)
    requires e * e * r0 <= r1 * q && f * f * r1 <= r0 * q
    ensures (e * f) * (e * f) * (r0 * r1) <= q * q * (r0 * r1)
  {
  }

  lemma SquaresAboveProduct(e: nat, f: nat, r1: nat, r0: nat, q: nat)
    requires r1 * q < e * e * r0 && r0 * q < f * f * r1
    ensures q * q * (r0 * r1) < (e * f) * (e * f) * (r0 * r1)
  {
  }

  lemma RootOfScaled(a: nat, b: nat, k: nat)
    requires a * a * k <= b * b * k && k > 0
    ensures a <= b
  {
    if b < a {
      assert b * b < a * a;
      ProductLe(b * b + 1, a * a, k);
    }
  }

  // ----- reading it back -----

  // A Q64.96 number as a real: divided by 2^96.
  function Root(e: nat): real {
    e as real / 79228162514264337593543950336.0
  }

  function RootSquare(e: nat): real { Root(e) * Root(e) }

  // sqrtPriceToFloat: token1 per token0 in whole tokens.
  function SqrtPriceToReal(sqrtPriceX96: nat, dec0: nat, dec1: nat): real {
    Product(RootSquare(sqrtPriceX96), Pow10(dec0 - dec1))
  }

  // The price the scripts mean: the ratio of the raw reserves in whole tokens.
  function ReserveRatio(reserve1: nat, reserve0: nat, dec0: nat, dec1: nat): real
    requires reserve0 > 0
  {
    Product(Quotient(reserve1 as real, reserve0 as real), Pow10(dec0 - dec1))
  }

  // The distance from one encodable ratio to the next: (2e + 1) / 2^192.
  function RootStep(e: nat): (step: real)
    ensures step == RootSquare(e + 1) - RootSquare(e)
  {
    SquareOfRoot(e);
    SquareOfRoot(e + 1);
    SuccessorSquare(e);
    (2 * e + 1) as real / 6277101735386680763835789423207666416102355444464034512896.0
  }

  lemma SuccessorSquare(e: nat)
    ensures ((e + 1) * (e + 1)) as real == (e * e) as real + (2 * e + 1) as real
  {
  }

  lemma SquareOfRoot(e: nat)
    ensures RootSquare(e) == (e * e) as real / 6277101735386680763835789423207666416102355444464034512896.0
  {
  }

  // Without decimals: the ratio lies between the squares of e and e + 1.
  lemma EncodedRatioBounds(r1: nat, r0: nat)
    requires r0 > 0
    ensures var e := Encoded(r1, r0).value;
      RootSquare(e) <= Quotient(r1 as real, r0 as real) < RootSquare(e + 1)
  {
    EncodedIsExactFloor(r1, r0);
    RatioBounds(Encoded(r1, r0).value, r1, r0);
  }

  lemma RatioBounds(e: nat, r1: nat, r0: nat)
    requires r0 > 0 && IsExactFloor(e, r1 * Q192, r0)
    ensures RootSquare(e) <= Quotient(r1 as real, r0 as real) < RootSquare(e + 1)
  {
    SquareOfRoot(e);
    SquareOfRoot(e + 1);
    RatioBetweenSquares(e * e, (e + 1) * (e + 1), r1, r0);
  }

  lemma RatioBetweenSquares(lo: nat, hi: nat, r1: nat, r0: nat)
    requires r0 > 0
    requires lo * r0 <= r1 * Q192 < hi * r0
    ensures lo as real / 6277101735386680763835789423207666416102355444464034512896.0
         <= Quotient(r1 as real, r0 as real)
    ensures Quotient(r1 as real, r0 as real) < hi as real / 6277101735386680763835789423207666416102355444464034512896.0
  {
    var q := 6277101735386680763835789423207666416102355444464034512896.0;
    CastProduct(lo, r0);
    CastProduct(hi, r0);
    QuotientLe(lo as real, q, r1 as real, r0 as real);
    QuotientLe(hi as real, q, r1 as real, r0 as real);
  }

  lemma CastProduct(a: int, b: int)
    ensures (a * b) as real == a as real * b as real
  {
  }

  // Round trip: the price read back is never above the price written, and short of it by less
  // than one step of the encoding.
  lemma RoundTrip(r1: nat, r0: nat, dec0: nat, dec1: nat)
    requires r0 > 0
    ensures var e := Encoded(r1, r0).value;
      0.0 <= ReserveRatio(r1, r0, dec0, dec1) - SqrtPriceToReal(e, dec0, dec1)
          < Product(RootStep(e), Pow10(dec0 - dec1))
  {
    var e := Encoded(r1, r0).value;
    EncodedRatioBounds(r1, r0);
    Pow10Positive(dec0 - dec1);
    ScaleBetween(RootSquare(e), Quotient(r1 as real, r0 as real), RootStep(e), Pow10(dec0 - dec1));
  }

  lemma ScaleBetween(lo: real, x: real, step: real, t: real)
    requires lo <= x < lo + step && t > 0.0
    ensures 0.0 <= Product(x, t) - Product(lo, t) < Product(step, t)
  {
    assert x * t - lo * t == (x - lo) * t;
    MulLe(step, x - lo, t);
    MulLe(lo, x, t);
  }

  // ----- the storage word of a V4 pool -----

  type Byte = b: int | 0 <= b < 256

  // SetBytes: big-endian.
  function BigEndian(bs: seq<Byte>): nat {
    if bs == [] then 0 else BigEndian(bs[..|bs| - 1]) * 256 + bs[|bs| - 1]
  }

  function Pow256(n: nat): (p: nat)
    ensures p > 0
  {
    if n == 0 then 1 else 256 * Pow256(n - 1)
  }

  lemma {:induction false} BigEndianSplits(a: seq<Byte>, b: seq<Byte>)
    ensures BigEndian(a + b) == BigEndian(a) * Pow256(|b|) + BigEndian(b)
    ensures BigEndian(b) < Pow256(|b|)
    decreases |b|
  {
    if b == [] {
      assert a + b == a;
    } else {
      var n := |b| - 1;
      BigEndianSplits(a, b[..n]);
      assert (a + b)[..|a + b| - 1] == a + b[..n];
      ShiftOneByte(BigEndian(a), Pow256(n), BigEndian(b[..n]), b[n], Pow256(n + 1), BigEndian(a + b[..n]));
    }
  }

  lemma ShiftOneByte(x: nat, p: nat, low: nat, byte: Byte, p256: nat, value: nat)
    requires value == x * p + low && low < p && p256 == 256 * p
    ensures value * 256 + byte == x * p256 + (low * 256 + byte)
    ensures low * 256 + byte < p256
  {
    assert (x * p) * 256 == x * (256 * p);
  }

  lemma {:induction false} ZeroBytesAreZero(bs: seq<Byte>)
    requires forall i :: 0 <= i < |bs| ==> bs[i] == 0
    ensures BigEndian(bs) == 0
  {
    if bs != [] {
      ZeroBytesAreZero(bs[..|bs| - 1]);
    }
  }

  // Read's extraction: bytes 12 to 32 of the word are copied into a zeroed 32-byte buffer.
  // A short answer from the node gives no price.
  method ReadSqrtWord(data: array<Byte>) returns (sqrtPriceX96: Option<nat>)
    ensures sqrtPriceX96.None? <==> data.Length < 32
    ensures sqrtPriceX96.Some? ==> sqrtPriceX96.value == BigEndian(data[..32]) % Pow256(20)
  {
    if data.Length < 32 {
      return None;
    }
    var buffer := new Byte[32](i => 0);
    forall i | 12 <= i < 32 {
      buffer[i] := data[i];
    }
    ClearedTopIsRemainder(data[..32], buffer[..], 12);
    sqrtPriceX96 := Some(BigEndian(buffer[..]));
  }

  lemma LeadingZeros(zeros: seq<Byte>, low: seq<Byte>)
    requires forall i :: 0 <= i < |zeros| ==> zeros[i] == 0
    ensures BigEndian(zeros + low) == BigEndian(low)
  {
    BigEndianSplits(zeros, low);
    ZeroBytesAreZero(zeros);
  }

  // Clearing the top k bytes of a word takes the remainder by the weight of the rest.
  lemma ClearedTopIsRemainder(word: seq<Byte>, cleared: seq<Byte>, k: nat)
    requires k <= |word| == |cleared| && cleared[k..] == word[k..]
    requires forall i :: 0 <= i < k ==> cleared[i] == 0
    ensures BigEndian(cleared) == BigEndian(word) % Pow256(|word| - k)
  {
    var low := word[k..];
    assert word == word[..k] + low && cleared == cleared[..k] + low;
    LowBytes(word[..k], low);
    LeadingZeros(cleared[..k], low);
  }

  lemma LowPart(hi: nat, lo: nat, m: nat)
    requires lo < m
    ensures (hi * m + lo) % m == lo
  {
    var a := hi * m + lo;
    var d := hi - a / m;
    assert a == (a / m) * m + a % m;
    assert d * m == a % m - lo;
    if d >= 1 { ProductLe(1, d, m); }
    if d <= -1 { ProductLe(d, -1, m); }
  }

  lemma LowBytes(upper: seq<Byte>, low: seq<Byte>)
    ensures BigEndian(upper + low) % Pow256(|low|) == BigEndian(low)
    ensures (upper + low)[|upper|..] == low
  {
    BigEndianSplits(upper, low);
    LowPart(BigEndian(upper), BigEndian(low), Pow256(|low|));
  }

  // The n low bytes of a number, big-endian.
  function Bytes(e: nat, n: nat): (bs: seq<Byte>)
    ensures |bs| == n
  {
    if n == 0 then [] else Bytes(e / 256, n - 1) + [e % 256]
  }

  lemma {:induction false} BytesRoundTrip(e: nat, n: nat)
    requires e < Pow256(n)
    ensures BigEndian(Bytes(e, n)) == e
  {
    if n > 0 {
      BytesRoundTrip(e / 256, n - 1);
      assert Bytes(e, n)[..n - 1] == Bytes(e / 256, n - 1);
    }
  }

  // Slot 0 of a V4 pool: tick and fees in the upper 96 bits, the price in the low 160.
  function PackedWord(upper: nat, e: nat): (word: seq<Byte>)
    ensures |word| == 32
  {
    Bytes(upper, 12) + Bytes(e, 20)
  }

  // Whatever the upper fields hold, the word gives back the price packed into it.
  lemma PackedWordGivesPrice(upper: nat, e: nat)
    requires e < Pow256(20)
    ensures BigEndian(PackedWord(upper, e)) % Pow256(20) == e
    ensures BigEndian(PackedWord(upper, e)[12..]) == e
  {
    BytesRoundTrip(e, 20);
    LowBytes(Bytes(upper, 12), Bytes(e, 20));
  }
}
