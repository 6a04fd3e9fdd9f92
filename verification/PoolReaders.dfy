// The V2, V3 and V4 price readers of market-maker-service/internal/uniswap, which turn pool
// state into "quote per base", and the reserve choice of the pool scripts they undo.
// An address is its 160-bit number.
module PoolReaders {
  import opened Prelude
  import opened PriceCodec

  type Address = nat

  datatype Token = Token(symbol: string, address: Address, decimals: nat)
  datatype Instrument = Instrument(base: Token, quote: Token)

  // sortTokens of math.go: by number, the second argument first when they are equal.
  function SortTokens(a: Address, b: Address): (Address, Address) {
    if a < b then (a, b) else (b, a)
  }

  function DecimalsFor(inst: Instrument, address: Address): nat {
    if address == inst.base.address then inst.base.decimals
    else if address == inst.quote.address then inst.quote.decimals
    else 18
  }

  function Inverse(x: real): real
    requires x != 0.0
  {
    1.0 / x
  }

  // applyQuoteDirection: rawPrice is token1 per token0.
  function ApplyQuoteDirection(rawPrice: real, token0: Address, base: Address): real {
    if rawPrice <= 0.0 then 0.0
    else if token0 == base then rawPrice
    else Inverse(rawPrice)
  }

  function V2Price(inst: Instrument, reserve0: nat, reserve1: nat): real {
    if reserve0 == 0 then 0.0 else
      var (t0, t1) := SortTokens(inst.base.address, inst.quote.address);
      var raw := ReserveRatio(reserve1, reserve0, DecimalsFor(inst, t0), DecimalsFor(inst, t1));
      ApplyQuoteDirection(raw, t0, inst.base.address)
  }

  // Shared by V3 (tokens in sorted order) and V4 (tokens in the order of the pool key).
  function SqrtPrice(inst: Instrument, sqrtPriceX96: nat, t0: Address, t1: Address): real {
    if sqrtPriceX96 == 0 then 0.0 else
      var raw := SqrtPriceToReal(sqrtPriceX96, DecimalsFor(inst, t0), DecimalsFor(inst, t1));
      ApplyQuoteDirection(raw, t0, inst.base.address)
  }

  function V3Price(inst: Instrument, sqrtPriceX96: nat): real {
    var (t0, t1) := SortTokens(inst.base.address, inst.quote.address);
    SqrtPrice(inst, sqrtPriceX96, t0, t1)
  }

  // A raw amount in whole tokens.
  function Whole(amount: nat, decimals: nat): real {
    Pow10Positive(decimals);
    Quotient(amount as real, Pow10(decimals))
  }

  lemma WholeIsPositive(amount: nat, decimals: nat)
    ensures amount > 0 ==> Whole(amount, decimals) > 0.0
  {
    Pow10Positive(decimals);
    if amount > 0 { PositiveQuotient(amount as real, Pow10(decimals)); }
  }

  // The price a pair of raw reserves means: whole quote tokens per whole base token.
  function HumanPrice(inst: Instrument, baseReserve: nat, quoteReserve: nat): real
    requires baseReserve > 0
  {
    WholeIsPositive(baseReserve, inst.base.decimals);
    Quotient(Whole(quoteReserve, inst.quote.decimals), Whole(baseReserve, inst.base.decimals))
  }

  // The reserves in pool order, whichever of the two tokens sorts first.
  function PoolOrder(inst: Instrument, baseReserve: nat, quoteReserve: nat): (nat, nat) {
    if inst.base.address < inst.quote.address then (baseReserve, quoteReserve) else (quoteReserve, baseReserve)
  }

  // The price both pool scripts initialise a pool with.
  function ScriptEncoding(inst: Instrument, baseReserve: nat, quoteReserve: nat): Option<nat> {
    var (reserve0, reserve1) := PoolOrder(inst, baseReserve, quoteReserve);
    Encoded(reserve1, reserve0)
  }

  lemma HumanPriceIsRatio(inst: Instrument, baseReserve: nat, quoteReserve: nat)
    requires baseReserve > 0
    ensures HumanPrice(inst, baseReserve, quoteReserve)
         == ReserveRatio(quoteReserve, baseReserve, inst.base.decimals, inst.quote.decimals)
  {
    var db: int, dq: int := inst.base.decimals, inst.quote.decimals;
    Pow10Difference(db, dq);
    Pow10Positive(db);
    Pow10Positive(dq);
    RatioOfScaled(quoteReserve as real, baseReserve as real, Pow10(db), Pow10(dq), Pow10(db - dq));
  }

  lemma InverseRatioIsHumanPrice(inst: Instrument, baseReserve: nat, quoteReserve: nat)
    requires baseReserve > 0 && quoteReserve > 0
    ensures HumanPrice(inst, baseReserve, quoteReserve) > 0.0
    ensures ReserveRatio(baseReserve, quoteReserve, inst.quote.decimals, inst.base.decimals)
         == Inverse(HumanPrice(inst, baseReserve, quoteReserve))
  {
    var x, y := Whole(quoteReserve, inst.quote.decimals), Whole(baseReserve, inst.base.decimals);
    WholeIsPositive(quoteReserve, inst.quote.decimals);
    WholeIsPositive(baseReserve, inst.base.decimals);
    HumanPriceIsRatio(Instrument(inst.quote, inst.base), quoteReserve, baseReserve);
    InverseOfRatio(x, y);
  }

  // (q / tq) / (b / tb) = q / b * t when t * tq = tb.
  lemma RatioOfScaled(q: real, b: real, tb: real, tq: real, t: real)
    requires b > 0.0 && tb > 0.0 && tq > 0.0 && Product(t, tq) == tb
    ensures Quotient(b, tb) > 0.0 && Quotient(Quotient(q, tq), Quotient(b, tb)) == Product(Quotient(q, b), t)
  {
    var x, y := q / tq, b / tb;
    assert x * tq == q && y * tb == b;
    PositiveQuotient(b, tb);
    var z, w := x / y, q / b;
    assert z * y == x && w * b == q;
    assert (w * t) * b == t * q by { Swap3(w, t, b); }
    assert t * q == x * tb by { Swap3(x, tq, t); }
    assert z * b == x * tb by { Swap3(z, y, tb); }
    CancelRight(z, w * t, b);
  }

  lemma Swap3(a: real, b: real, c: real)
    ensures (a * b) * c == (a * c) * b
    ensures (a * b) * c == a * (b * c)
  {
  }

  lemma InverseOfRatio(x: real, y: real)
    requires x > 0.0 && y > 0.0
    ensures Quotient(x, y) > 0.0 && Quotient(y, x) == Inverse(Quotient(x, y))
  {
    PositiveQuotient(x, y);
    var r := x / y;
    assert y * r == x;
    QuotientLe(1.0, r, y, x);
    QuotientLe(y, x, 1.0, r);
  }

  // The V2 reader returns exactly the price the reserves mean, whichever token sorts first.
  lemma V2ReadsHumanPrice(inst: Instrument, baseReserve: nat, quoteReserve: nat)
    requires inst.base.address != inst.quote.address
    requires baseReserve > 0 && quoteReserve > 0
    ensures var (r0, r1) := PoolOrder(inst, baseReserve, quoteReserve);
      V2Price(inst, r0, r1) == HumanPrice(inst, baseReserve, quoteReserve)
  {
    HumanPriceIsRatio(inst, baseReserve, quoteReserve);
    InverseRatioIsHumanPrice(inst, baseReserve, quoteReserve);
    InverseTwice(HumanPrice(inst, baseReserve, quoteReserve));
  }

  // The same by multiplication only: the reading times the base reserve in whole tokens is the quote
  // reserve in whole tokens.
  lemma V2ReadingBalances(inst: Instrument, baseReserve: nat, quoteReserve: nat)
    requires inst.base.address != inst.quote.address
    requires baseReserve > 0 && quoteReserve > 0
    ensures var (r0, r1) := PoolOrder(inst, baseReserve, quoteReserve);
      var b, q := Pow10(inst.base.decimals), Pow10(inst.quote.decimals);
      Product(Product(V2Price(inst, r0, r1), baseReserve as real), q) == Product(quoteReserve as real, b)
  {
    V2ReadsHumanPrice(inst, baseReserve, quoteReserve);
    Pow10Positive(inst.base.decimals);
    Pow10Positive(inst.quote.decimals);
    PriceBalances(quoteReserve as real, baseReserve as real, Pow10(inst.base.decimals), Pow10(inst.quote.decimals));
  }

  lemma PriceBalances(q: real, b: real, tb: real, tq: real)
    requires b > 0.0 && tb > 0.0 && tq > 0.0
    ensures Quotient(b, tb) > 0.0
    ensures Product(Product(Quotient(Quotient(q, tq), Quotient(b, tb)), b), tq) == Product(q, tb)
  {
    PositiveQuotient(b, tb);
    var x, y := q / tq, b / tb;
    var z := x / y;
    assert x * tq == q && y * tb == b && z * y == x;
    assert (z * b) * tq == ((z * y) * tb) * tq by { Swap3(z, y, tb); }
    assert (x * tb) * tq == (x * tq) * tb by { Swap3(x, tb, tq); }
  }

  // A token of the pair has its own decimals, any other 18; the base goes by its address first.
  lemma DecimalsAre(inst: Instrument, address: Address)
    ensures address == inst.base.address ==> DecimalsFor(inst, address) == inst.base.decimals
    ensures address == inst.quote.address != inst.base.address ==> DecimalsFor(inst, address) == inst.quote.decimals
    ensures address != inst.base.address && address != inst.quote.address ==> DecimalsFor(inst, address) == 18
  {
  }

  // Whichever way a pool key names the two tokens, its price is read as quote per base: directly if
  // the base comes first, inverted otherwise.
  lemma KeyOrderDecides(inst: Instrument, e: nat)
    requires e > 0 && inst.base.address != inst.quote.address
    ensures var b, q, db, dq := inst.base.address, inst.quote.address, inst.base.decimals, inst.quote.decimals;
      && SqrtPrice(inst, e, b, q) == Product(RootSquare(e), Pow10(db - dq)) > 0.0
      && Product(SqrtPrice(inst, e, q, b), Product(RootSquare(e), Pow10(dq - db))) == 1.0
      && SqrtPrice(inst, 0, b, q) == 0.0 == SqrtPrice(inst, 0, q, b)
  {
    var db: int, dq: int := inst.base.decimals, inst.quote.decimals;
    RootPositive(e);
    Pow10Positive(db - dq);
    Pow10Positive(dq - db);
    PositiveProduct(RootSquare(e), Pow10(db - dq));
    PositiveProduct(RootSquare(e), Pow10(dq - db));
    InverseBalances(Product(RootSquare(e), Pow10(dq - db)));
  }

  lemma PositiveProduct(x: real, y: real)
    requires x > 0.0 && y > 0.0
    ensures Product(x, y) > 0.0
  {
    MulLe(x, 0.0, y);
  }

  lemma InverseBalances(x: real)
    requires x > 0.0
    ensures Product(Inverse(x), x) == 1.0
  {
  }

  lemma InverseTwice(p: real)
    requires p > 0.0
    ensures Inverse(p) > 0.0 && Inverse(Inverse(p)) == p
  {
  }

  // With an empty reserve on either side the reader returns 0.
  lemma V2EmptyReserveReadsZero(inst: Instrument, r0: nat, r1: nat)
    requires inst.base.address != inst.quote.address
    ensures V2Price(inst, r0, r1) == 0.0 <==> r0 == 0 || r1 == 0
  {
    var (t0, t1) := SortTokens(inst.base.address, inst.quote.address);
    var d0, d1 := DecimalsFor(inst, t0), DecimalsFor(inst, t1);
    if r0 > 0 {
      RatioSign(r1, r0, d0, d1);
      if r1 > 0 { PositiveQuotient(1.0, ReserveRatio(r1, r0, d0, d1)); }
    }
  }

  lemma RatioSign(r1: nat, r0: nat, d0: nat, d1: nat)
    requires r0 > 0
    ensures if r1 > 0 then ReserveRatio(r1, r0, d0, d1) > 0.0 else ReserveRatio(r1, r0, d0, d1) == 0.0
  {
    Pow10Positive(d0 - d1);
    if r1 > 0 {
      PositiveQuotient(r1 as real, r0 as real);
      MulLe(Quotient(r1 as real, r0 as real), 0.0, Pow10(d0 - d1));
    }
  }

  // The V4 reader's answer on the storage word: short words and a zero price read as 0.
  method V4Read(inst: Instrument, key0: Address, key1: Address, data: array<Byte>) returns (price: real)
    ensures data.Length < 32 ==> price == 0.0
    ensures data.Length >= 32 ==> price == SqrtPrice(inst, BigEndian(data[..32]) % Pow256(20), key0, key1)
  {
    var sqrtPriceX96 := ReadSqrtWord(data);
    if sqrtPriceX96.None? || sqrtPriceX96.value == 0 {
      return 0.0;
    }
    var raw := SqrtPriceToReal(sqrtPriceX96.value, DecimalsFor(inst, key0), DecimalsFor(inst, key1));
    price := ApplyQuoteDirection(raw, key0, inst.base.address);
  }

  // With a sorted key, what V4Read returns for a word is what the V3 reader returns for the
  // price packed in it, whatever the other fields of the word hold.
  lemma V4WordReadsLikeV3(inst: Instrument, upper: nat, e: nat)
    requires e < Pow256(20)
    ensures var (key0, key1) := SortTokens(inst.base.address, inst.quote.address);
      SqrtPrice(inst, BigEndian(PackedWord(upper, e)) % Pow256(20), key0, key1) == V3Price(inst, e)
  {
    PackedWordGivesPrice(upper, e);
  }

  // p and q agree up to the rounding of the encoded root e: p <= q, and q is below p times
  // ((e + 1) / e)^2.
  ghost predicate WithinOneRootStep(p: real, q: real, e: nat) {
    p <= q && Product(q, RootSquare(e)) < Product(p, RootSquare(e + 1))
  }

  // Across the two services: initialise a pool from reserves, read it back through the V3 reader
  // (or the V4 reader with a sorted key). The price errs by less than one step of the root, down
  // when the base token sorts first and up when it is inverted on the way out; it is 0 exactly
  // when the encoding is 0.
  lemma ScriptPriceReadBack(inst: Instrument, baseReserve: nat, quoteReserve: nat)
    requires inst.base.address != inst.quote.address
    requires baseReserve > 0 && quoteReserve > 0
    ensures var e := ScriptEncoding(inst, baseReserve, quoteReserve).value;
      var exact, read := HumanPrice(inst, baseReserve, quoteReserve), V3Price(inst, e);
      if e == 0 then read == 0.0
      else if inst.base.address < inst.quote.address then WithinOneRootStep(read, exact, e)
      else WithinOneRootStep(exact, read, e)
  {
    var (r0, r1) := PoolOrder(inst, baseReserve, quoteReserve);
    var e := Encoded(r1, r0).value;
    if e > 0 {
      var exact, read := HumanPrice(inst, baseReserve, quoteReserve), V3Price(inst, e);
      if inst.base.address < inst.quote.address {
        ReadBackBaseFirst(inst, baseReserve, quoteReserve);
      } else {
        ReadBackQuoteFirst(inst, baseReserve, quoteReserve);
      }
    }
  }

  lemma ReadBackBaseFirst(inst: Instrument, baseReserve: nat, quoteReserve: nat)
    requires inst.base.address < inst.quote.address && baseReserve > 0 && quoteReserve > 0
    requires Encoded(quoteReserve, baseReserve).value > 0
    ensures var e := Encoded(quoteReserve, baseReserve).value;
      WithinOneRootStep(V3Price(inst, e), HumanPrice(inst, baseReserve, quoteReserve), e)
  {
    HumanPriceIsRatio(inst, baseReserve, quoteReserve);
    RawReadBack(quoteReserve, baseReserve, inst.base.decimals, inst.quote.decimals);
  }

  lemma ReadBackQuoteFirst(inst: Instrument, baseReserve: nat, quoteReserve: nat)
    requires inst.quote.address < inst.base.address && baseReserve > 0 && quoteReserve > 0
    requires Encoded(baseReserve, quoteReserve).value > 0
    ensures var e := Encoded(baseReserve, quoteReserve).value;
      WithinOneRootStep(HumanPrice(inst, baseReserve, quoteReserve), V3Price(inst, e), e)
  {
    var e := Encoded(baseReserve, quoteReserve).value;
    var dq, db := inst.quote.decimals, inst.base.decimals;
    RawReadBack(baseReserve, quoteReserve, dq, db);
    InverseRatioIsHumanPrice(inst, baseReserve, quoteReserve);
    InvertedWithin(SqrtPriceToReal(e, dq, db), ReserveRatio(baseReserve, quoteReserve, dq, db), e,
                   HumanPrice(inst, baseReserve, quoteReserve));
    ReadInverted(inst, e);
  }

  lemma ReadInverted(inst: Instrument, e: nat)
    requires inst.quote.address < inst.base.address && e > 0
    requires SqrtPriceToReal(e, inst.quote.decimals, inst.base.decimals) > 0.0
    ensures V3Price(inst, e) == Inverse(SqrtPriceToReal(e, inst.quote.decimals, inst.base.decimals))
  {
  }

  lemma InvertedWithin(p: real, x: real, e: nat, h: real)
    requires 0.0 < p && e > 0 && WithinOneRootStep(p, x, e) && h > 0.0 && x == Inverse(h)
    ensures WithinOneRootStep(h, Inverse(p), e)
  {
    InverseTwice(h);
    RootPositive(e);
    InvertBounds(p, x, RootSquare(e), RootSquare(e + 1));
  }

  lemma RootPositive(e: nat)
    requires e > 0
    ensures RootSquare(e) > 0.0
  {
    MulLe(Root(e), 0.0, Root(e));
  }

  lemma RawReadBack(r1: nat, r0: nat, d0: nat, d1: nat)
    requires r0 > 0 && Encoded(r1, r0).value > 0
    ensures var e := Encoded(r1, r0).value;
      0.0 < SqrtPriceToReal(e, d0, d1) && WithinOneRootStep(SqrtPriceToReal(e, d0, d1), ReserveRatio(r1, r0, d0, d1), e)
  {
    EncodedRatioBounds(r1, r0);
    RawReadBackOf(Encoded(r1, r0).value, r1, r0, d0, d1);
  }

  lemma RawReadBackOf(e: nat, r1: nat, r0: nat, d0: nat, d1: nat)
    requires r0 > 0 && e > 0
    requires RootSquare(e) <= Quotient(r1 as real, r0 as real) < RootSquare(e + 1)
    ensures 0.0 < SqrtPriceToReal(e, d0, d1)
    ensures WithinOneRootStep(SqrtPriceToReal(e, d0, d1), ReserveRatio(r1, r0, d0, d1), e)
  {
    RootPositive(e);
    Pow10Positive(d0 - d1);
    ScaleBounds(RootSquare(e), Quotient(r1 as real, r0 as real), RootSquare(e + 1), Pow10(d0 - d1));
  }

  lemma ScaleBounds(lo: real, x: real, hi: real, t: real)
    requires 0.0 < lo <= x < hi && t > 0.0
    ensures 0.0 < Product(lo, t) <= Product(x, t) && Product(Product(x, t), lo) < Product(Product(lo, t), hi)
  {
    MulLe(lo, x, t);
    MulLe(lo, 0.0, t);
    MulLe(hi, x, lo * t);
    assert (x * t) * lo == x * (lo * t) by { Swap3(x, t, lo); }
  }

  lemma InvertBounds(p: real, x: real, lo: real, hi: real)
    requires 0.0 < p <= x && 0.0 < lo && Product(x, lo) < Product(p, hi)
    ensures Inverse(x) <= Inverse(p) && Product(Inverse(p), lo) < Product(Inverse(x), hi)
  {
    var u, v := Inverse(x), Inverse(p);
    assert u * x == 1.0 && v * p == 1.0;
    QuotientLe(1.0, x, 1.0, p);
    PositiveQuotient(1.0, x);
    PositiveQuotient(1.0, p);
    var k := u * v;
    assert k > 0.0 by { MulLe(u, 0.0, v); }
    MulLe(p * hi, x * lo, k);
    assert (x * lo) * k == v * lo by { Cancel(u, v, x, lo); }
    assert (p * hi) * k == u * hi by { Cancel(v, u, p, hi); }
  }

  lemma Cancel(u: real, v: real, x: real, a: real)
    requires u * x == 1.0
    ensures (x * a) * (u * v) == v * a
    ensures (x * a) * (v * u) == v * a
  {
  }
}
