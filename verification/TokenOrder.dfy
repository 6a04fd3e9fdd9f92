// Three places order the two tokens of a pool: the pool script compares lower-cased strings
// (issuer-service/scripts/v4_pool.ts), the legacy pool key compares lower-cased hex renderings
// (market-maker-service/internal/config/config.go), and the readers compare 160-bit numbers
// (market-maker-service/internal/uniswap/math.go). They pick the same pair.
module TokenOrder {
  import opened Prelude
  import opened PoolReaders

  predicate IsHexDigit(c: char) {
    '0' <= c <= '9' || 'a' <= c <= 'f' || 'A' <= c <= 'F'
  }

  function DigitValue(c: char): (v: nat)
    requires IsHexDigit(c)
    ensures v < 16
  {
    if c <= '9' then (c - '0') as nat
    else if c <= 'F' then (c - 'A') as nat + 10
    else (c - 'a') as nat + 10
  }

  // The string order of Go and JavaScript: the first difference decides, a prefix comes first.
  predicate StringLess(a: string, b: string) {
    if b == [] then false
    else if a == [] then true
    else a[0] < b[0] || (a[0] == b[0] && StringLess(a[1..], b[1..]))
  }

  predicate AllHex(s: string) {
    forall i :: 0 <= i < |s| ==> IsHexDigit(s[i])
  }

  function Pow16(n: nat): (p: nat)
    ensures p > 0
  {
    if n == 0 then 1 else 16 * Pow16(n - 1)
  }

  function HexValue(digits: string): nat
    requires AllHex(digits)
  {
    if digits == [] then 0 else DigitValue(digits[0]) * Pow16(|digits| - 1) + HexValue(digits[1..])
  }

  lemma HexDigitsAre(c: char)
    ensures IsHexDigit(c) <==> c in "0123456789abcdefABCDEF"
  {
  }

  // One digit more on the right is sixteen times the value and the digit.
  lemma {:induction false} HexValueAppends(digits: string, c: char)
    requires AllHex(digits) && IsHexDigit(c)
    ensures AllHex(digits + [c]) && HexValue(digits + [c]) == 16 * HexValue(digits) + DigitValue(c)
  {
    if digits != [] {
      HexValueAppends(digits[1..], c);
      assert (digits + [c])[1..] == digits[1..] + [c];
      SixteenMoves(DigitValue(digits[0]), Pow16(|digits| - 1));
    } else {
      assert (digits + [c])[1..] == [];
    }
  }

  lemma SixteenMoves(d: nat, p: nat)
    ensures d * (16 * p) == 16 * (d * p)
  {
  }

  // An address as text: "0x" and forty hex digits in any mixture of cases.
  predicate IsAddressText(s: string) {
    |s| == 42 && s[0] == '0' && s[1] == 'x' && AllHex(s[2..])
  }

  function AddressOf(s: string): Address
    requires IsAddressText(s)
  {
    HexValue(s[2..])
  }

  lemma AddressTextIs(digits: string)
    ensures IsAddressText("0x" + digits) <==> |digits| == 40 && AllHex(digits)
    ensures |digits| == 40 && AllHex(digits) ==> AddressOf("0x" + digits) == HexValue(digits)
  {
    assert ("0x" + digits)[2..] == digits;
  }

  // The order is total: of two different strings exactly one comes first, and a proper prefix does.
  lemma {:induction false} StringOrderIsTotal(a: string, b: string)
    ensures a == b <==> !StringLess(a, b) && !StringLess(b, a)
    ensures !(StringLess(a, b) && StringLess(b, a))
    ensures a < b ==> StringLess(a, b)
  {
    if a != [] && b != [] {
      StringOrderIsTotal(a[1..], b[1..]);
      assert a == [a[0]] + a[1..] && b == [b[0]] + b[1..];
    }
  }

  // sortTokens of v4_pool.ts.
  function ScriptOrder(a: string, b: string): (string, string) {
    if StringLess(Lower(a), Lower(b)) then (a, b) else (b, a)
  }

  // The legacy branch of parseV4Key: swap when the base renders above the quote.
  function LegacyKeyOrder(base: string, quote: string): (string, string) {
    if StringLess(Lower(quote), Lower(base)) then (quote, base) else (base, quote)
  }

  lemma {:induction false} HexValueBound(s: string)
    requires AllHex(s)
    ensures HexValue(s) < Pow16(|s|)
  {
    if s != [] {
      HexValueBound(s[1..]);
      var d, p := DigitValue(s[0]), Pow16(|s| - 1);
      ProductStep(d, 16, p);
    }
  }

  // Among strings of one length, lower-cased string order is number order.
  lemma {:induction false} StringOrderIsNumberOrder(a: string, b: string)
    requires AllHex(a) && AllHex(b) && |a| == |b|
    ensures StringLess(Lower(a), Lower(b)) <==> HexValue(a) < HexValue(b)
  {
    if a != [] {
      assert Lower(a)[1..] == Lower(a[1..]) && Lower(b)[1..] == Lower(b[1..]);
      StringOrderIsNumberOrder(a[1..], b[1..]);
      HexValueBound(a[1..]);
      HexValueBound(b[1..]);
      var x, y, p := DigitValue(a[0]), DigitValue(b[0]), Pow16(|a| - 1);
      assert LowerChar(a[0]) < LowerChar(b[0]) <==> x < y;
      assert LowerChar(a[0]) == LowerChar(b[0]) <==> x == y;
      if x < y { ProductStep(x, y, p); }
      if y < x { ProductStep(y, x, p); }
    }
  }

  lemma AddressOrder(a: string, b: string)
    requires IsAddressText(a) && IsAddressText(b)
    ensures StringLess(Lower(a), Lower(b)) <==> AddressOf(a) < AddressOf(b)
  {
    StringOrderIsNumberOrder(a[2..], b[2..]);
    assert Lower(a)[1..][1..] == Lower(a[2..]) && Lower(b)[1..][1..] == Lower(b[2..]);
    assert LowerChar('0') == '0' && LowerChar('x') == 'x';
    assert StringLess(Lower(a), Lower(b)) <==> StringLess(Lower(a)[1..], Lower(b)[1..]);
  }

  // The pool the script creates, the key the market maker synthesises and the tokens its readers
  // assume are the same pair of addresses.
  lemma OrdersAgree(a: string, b: string)
    requires IsAddressText(a) && IsAddressText(b)
    ensures var (s0, s1) := ScriptOrder(a, b);
      (AddressOf(s0), AddressOf(s1)) == SortTokens(AddressOf(a), AddressOf(b))
    ensures var (k0, k1) := LegacyKeyOrder(a, b);
      (AddressOf(k0), AddressOf(k1)) == SortTokens(AddressOf(a), AddressOf(b))
  {
    AddressOrder(a, b);
    AddressOrder(b, a);
  }
}
