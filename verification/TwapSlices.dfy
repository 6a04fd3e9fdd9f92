// executeTWAP of market-maker-service/internal/execution/service.go: one order split into slices
// sent one after the other, with the checks the V3 and V4 executors make on each slice.
module TwapSlices {
  import opened Prelude
  import opened PoolReaders
  import opened SwapChecks

  datatype Venue = V3 | V4
  datatype Status = Submitted | Failed

  // A decision as executeTWAP sees it; None is a decimal string that does not parse.
  datatype Order = Order(action: Action, poolPrice: real, amountIn: Option<int>, minOut: Option<int>)

  // One call of Executor.Execute and its outcome.
  datatype Attempt = Attempt(amountIn: Option<int>, minOut: Option<int>, status: Status)

  // The amount checks of the two executors.
  predicate Admits(venue: Venue, inst: Instrument, o: Order) {
    match venue
    case V3 => o.amountIn.Some? && o.minOut.Some? && o.amountIn.value > 0
    case V4 => V4Precheck(inst, o.action, o.poolPrice, o.amountIn, o.minOut) == Pass
  }

  // chainOk stands for the approval, the preflight and the broadcast of this attempt.
  function Execute(venue: Venue, inst: Instrument, o: Order, chainOk: bool): Attempt {
    Attempt(o.amountIn, o.minOut, if Admits(venue, inst, o) && chainOk then Submitted else Failed)
  }

  // An attempt carries the order's amounts, and is submitted exactly if the executor's checks and its
  // chain side both pass.
  lemma AttemptIs(venue: Venue, inst: Instrument, o: Order, chainOk: bool)
    ensures var a := Execute(venue, inst, o, chainOk);
      a.amountIn == o.amountIn && a.minOut == o.minOut && (a.status == Submitted <==> Admits(venue, inst, o) && chainOk)
  {
  }

  // The share of slice i when total is split in n.
  function Part(total: nat, n: nat, i: nat): nat
    requires n > 0
  {
    (total + i) / n
  }

  function SliceOf(o: Order, n: nat, i: nat): Order
    requires n > 0 && o.amountIn.Some? && o.amountIn.value >= 0
  {
    o.(amountIn := Some(Part(o.amountIn.value, n, i)), minOut := Some(Part(EffectiveMin(o.minOut), n, i)))
  }

  // A minimum that does not parse, or is negative, is treated as no minimum.
  function EffectiveMin(minOut: Option<int>): nat {
    if minOut.Some? then Max(minOut.value, 0) else 0
  }

  predicate IsSliced(o: Order, slices: int) {
    slices > 1 && o.amountIn.Some? && o.amountIn.value > 0
  }

  function SumParts(total: nat, n: nat, i: nat): nat
    requires n > 0
  {
    if i == 0 then 0 else SumParts(total, n, i - 1) + Part(total, n, i - 1)
  }

  // total is n shares of q and a rest of r.
  ghost predicate IsSplit(total: nat, n: nat, q: nat, r: nat) {
    r < n && total == q * n + r
  }

  lemma PartIs(total: nat, n: nat, i: nat, q: nat, r: nat)
    requires i < n && IsSplit(total, n, q, r)
    ensures Part(total, n, i) == q + if r + i < n then 0 else 1
  {
    if r + i < n {
      QuotientIs(total + i, q, r + i, n);
    } else {
      assert (q + 1) * n == q * n + n;
      QuotientIs(total + i, q + 1, r + i - n, n);
    }
  }

  lemma PartValue(total: nat, n: nat, i: nat)
    requires i < n
    ensures Part(total, n, i) == total / n + (if total % n + i < n then 0 else 1)
  {
    var q, r := DivMod(total, n);
    PartIs(total, n, i, q, r);
  }

  lemma QuotientIs(a: nat, q: nat, r: nat, n: nat)
    requires a == q * n + r && r < n
    ensures a / n == q
  {
    var d := q - a / n;
    assert a == (a / n) * n + a % n;
    assert d * n == a % n - r;
    if d >= 1 { ProductLe(1, d, n); }
    if d <= -1 { ProductLe(d, -1, n); }
  }

  lemma {:induction false} SumPartsIs(total: nat, n: nat, i: nat, q: nat, r: nat)
    requires i <= n && IsSplit(total, n, q, r)
    ensures SumParts(total, n, i) == i * q + Max(r + i - n, 0)
  {
    if i > 0 {
      SumPartsIs(total, n, i - 1, q, r);
      PartIs(total, n, i - 1, q, r);
      OneShareMore(i - 1, i, q);
    }
  }

  lemma OneShareMore(i: nat, j: nat, q: nat)
    requires j == i + 1
    ensures j * q == i * q + q
  {
  }

  // All n shares add up to the total, and the first i of them to at most i/n of it.
  lemma PartsConserve(total: nat, n: nat, i: nat)
    requires i <= n && n > 0
    ensures SumParts(total, n, n) == total
    ensures n * SumParts(total, n, i) <= i * total
  {
    var q, r := DivMod(total, n);
    SumPartsIs(total, n, n, q, r);
    SumPartsIs(total, n, i, q, r);
    SharesBound(total, q, r, n, i);
  }

  lemma SharesBound(total: nat, q: nat, r: nat, n: nat, i: nat)
    requires i <= n && r < n && total == q * n + r
    ensures n * q + r == total
    ensures n * (i * q + Max(r + i - n, 0)) <= i * total
  {
  }

  // What is left after i slices, divided by the slices still to come, is the share of slice i.
  lemma RemainderShare(total: nat, n: nat, i: nat, rest: int)
    requires i < n && rest == total - SumParts(total, n, i)
    ensures rest / (n - i) == Part(total, n, i)
  {
    var q, r := DivMod(total, n);
    SumPartsIs(total, n, i, q, r);
    PartIs(total, n, i, q, r);
    RestDivided(total, q, r, n, i, rest);
  }

  lemma RestDivided(total: nat, q: nat, r: nat, n: nat, i: nat, rest: int)
    requires i < n && r < n && total == q * n + r
    requires rest == total - (i * q + Max(r + i - n, 0))
    ensures rest / (n - i) == q + if r + i < n then 0 else 1
  {
    var m := n - i;
    assert q * n - i * q == q * m;
    if r + i < n {
      QuotientIs(q * m + r, q, r, m);
    } else {
      assert (q + 1) * m == q * m + m;
      QuotientIs((q + 1) * m, q + 1, 0, m);
    }
  }

  lemma {:induction false} SumPartsAtMost(total: nat, n: nat, i: nat, j: nat)
    requires i <= j && n > 0
    ensures SumParts(total, n, i) <= SumParts(total, n, j)
    decreases j
  {
    if i < j {
      SumPartsAtMost(total, n, i, j - 1);
    }
  }

  lemma StillEnough(total: nat, n: nat, i: nat)
    requires i <= n && n > 0
    ensures SumParts(total, n, i) <= total
  {
    SumPartsAtMost(total, n, i, n);
    PartsConserve(total, n, n);
  }

  // One turn of the loop: the floor division yields the share and leaves what the rest needs.
  lemma ShareStep(total: nat, n: nat, i: nat, rest: int)
    requires i < n && rest == total - SumParts(total, n, i)
    ensures 0 <= rest && rest / (n - i) == Part(total, n, i)
    ensures 0 <= rest - Part(total, n, i) == total - SumParts(total, n, i + 1)
  {
    RemainderShare(total, n, i, rest);
    StillEnough(total, n, i);
    StillEnough(total, n, i + 1);
  }

  // The slicing loop. chain(i) tells whether the chain side of attempt i succeeds, cancelled(i)
  // whether the context ends in the pause after it.
  method SendSlices(venue: Venue, inst: Instrument, o: Order, slices: nat, chain: nat -> bool, cancelled: nat -> bool)
    returns (status: Status, attempts: seq<Attempt>)
    requires IsSliced(o, slices)
    ensures 1 <= |attempts| <= slices
    ensures forall i :: 0 <= i < |attempts| ==> attempts[i] == Execute(venue, inst, SliceOf(o, slices, i), chain(i))
    ensures forall i :: 0 <= i < |attempts| - 1 ==> attempts[i].status == Submitted && !cancelled(i)
    ensures status == Submitted ==> |attempts| == slices && attempts[slices - 1].status == Submitted
    ensures status == Failed ==>
      attempts[|attempts| - 1].status == Failed || (|attempts| < slices && cancelled(|attempts| - 1))
  {
    var amountIn: nat := o.amountIn.value;
    ghost var minOut := EffectiveMin(o.minOut);
    var remainingIn := amountIn;
    var remainingOut := 0;
    if o.minOut.Some? {
      remainingOut := o.minOut.value;
    }
    attempts := [];
    for i := 0 to slices
      invariant |attempts| == i
      invariant remainingIn == amountIn - SumParts(amountIn, slices, i)
      invariant Max(remainingOut, 0) == minOut - SumParts(minOut, slices, i)
      invariant forall k :: 0 <= k < i ==> attempts[k] == Execute(venue, inst, SliceOf(o, slices, k), chain(k))
      invariant forall k :: 0 <= k < i ==> attempts[k].status == Submitted && (k < slices - 1 ==> !cancelled(k))
    {
      ShareStep(amountIn, slices, i, remainingIn);
      ShareStep(minOut, slices, i, Max(remainingOut, 0));
      var partIn := remainingIn / (slices - i);
      var partOut := 0;
      if remainingOut > 0 {
        partOut := remainingOut / (slices - i);
      }
      var last := Execute(venue, inst, o.(amountIn := Some(partIn), minOut := Some(partOut)), chain(i));
      attempts := attempts + [last];
      if last.status == Failed {
        return Failed, attempts;
      }
      remainingIn := remainingIn - partIn;
      if remainingOut > 0 {
        remainingOut := remainingOut - partOut;
      }
      if i < slices - 1 {
        if cancelled(i) {
          return Failed, attempts;
        }
      }
    }
    status := Submitted;
  }

  // Every slice was sent and submitted, going by the last.
  predicate Completed(n: nat, attempts: seq<Attempt>) {
    n > 0 && |attempts| == n && attempts[n - 1].status == Submitted
  }

  // executeTWAP; slices is the configured count after overrides.
  method ExecuteTwap(venue: Venue, inst: Instrument, o: Order, slices: int, chain: nat -> bool, cancelled: nat -> bool)
    returns (status: Status, attempts: seq<Attempt>)
    ensures IsSliced(o, slices) <==> 2 <= slices && o.amountIn.Some? && 1 <= o.amountIn.value
    ensures !IsSliced(o, slices) ==>
      attempts == [Execute(venue, inst, o, chain(0))] && status == attempts[0].status
    ensures IsSliced(o, slices) ==> SlicedRun(o, slices, attempts) && attempts != []
    ensures IsSliced(o, slices) ==>
      forall i :: 0 <= i < |attempts| ==>
        attempts[i].status == Execute(venue, inst, SliceOf(o, slices, i), chain(i)).status
    ensures IsSliced(o, slices) ==> (status == Submitted <==> Completed(slices, attempts))
    ensures IsSliced(o, slices) ==>
      (status == Submitted <==>
         (forall i :: 0 <= i < slices ==> Execute(venue, inst, SliceOf(o, slices, i), chain(i)).status == Submitted)
         && (forall i :: 0 <= i < slices - 1 ==> !cancelled(i)))
  {
    if slices <= 1 {
      var only := Execute(venue, inst, o, chain(0));
      return only.status, [only];
    }
    if o.amountIn.None? || o.amountIn.value <= 0 {
      var only := Execute(venue, inst, o, chain(0));
      return only.status, [only];
    }
    status, attempts := SendSlices(venue, inst, o, slices, chain, cancelled);
    if status == Failed {
      var last := |attempts| - 1;
      assert attempts[last].status == Execute(venue, inst, SliceOf(o, slices, last), chain(last)).status;
    }
  }

  // Which slices V3 takes: it needs a positive amount and no minimum, so all n of them exactly if the
  // amount has at least n units. An unparsed minimum stops the order as a whole, not its slices.
  lemma V3TakesSlicesExactlyWhen(inst: Instrument, o: Order, n: nat)
    requires n > 1 && o.amountIn.Some? && o.amountIn.value > 0
    ensures (forall i :: 0 <= i < n ==> Admits(V3, inst, SliceOf(o, n, i))) <==> n <= o.amountIn.value
    ensures Admits(V3, inst, o) <==> o.minOut.Some?
  {
    OneEachNeedsN(o.amountIn.value, n);
    if n <= o.amountIn.value {
      forall i | 0 <= i < n ensures Admits(V3, inst, SliceOf(o, n, i)) {
        PartValue(o.amountIn.value, n, i);
      }
    } else {
      PartValue(o.amountIn.value, n, 0);
      assert !Admits(V3, inst, SliceOf(o, n, 0));
    }
  }

  lemma V3NeedsAnAmount(inst: Instrument, o: Order)
    requires o.amountIn.None? || o.amountIn.value <= 0
    ensures !Admits(V3, inst, o) && !Admits(V4, inst, o)
  {
  }

  // ----- what a run amounts to -----

  function SpentIn(attempts: seq<Attempt>): int {
    if attempts == [] then 0 else
      var a := attempts[|attempts| - 1];
      SpentIn(attempts[..|attempts| - 1]) + (if a.status == Submitted && a.amountIn.Some? then a.amountIn.value else 0)
  }

  function GuardedOut(attempts: seq<Attempt>): int {
    if attempts == [] then 0 else
      var a := attempts[|attempts| - 1];
      GuardedOut(attempts[..|attempts| - 1]) + (if a.status == Submitted && a.minOut.Some? then a.minOut.value else 0)
  }

  // The attempts of a sliced run, as ExecuteTwap promises them.
  ghost predicate SlicedRun(o: Order, n: nat, attempts: seq<Attempt>) {
    && n > 1 && o.amountIn.Some? && o.amountIn.value > 0 && |attempts| <= n
    && (forall i :: 0 <= i < |attempts| ==>
          attempts[i].amountIn == SliceOf(o, n, i).amountIn && attempts[i].minOut == SliceOf(o, n, i).minOut)
    && (forall i :: 0 <= i < |attempts| - 1 ==> attempts[i].status == Submitted)
  }

  lemma {:induction false} SubmittedSums(o: Order, n: nat, attempts: seq<Attempt>)
    requires SlicedRun(o, n, attempts)
    requires forall i :: 0 <= i < |attempts| ==> attempts[i].status == Submitted
    ensures SpentIn(attempts) == SumParts(o.amountIn.value, n, |attempts|)
    ensures GuardedOut(attempts) == SumParts(EffectiveMin(o.minOut), n, |attempts|)
  {
    if attempts != [] {
      SubmittedSums(o, n, attempts[..|attempts| - 1]);
    }
  }

  // A run of which all slices were submitted spends exactly the order's amount behind minimums
  // that add up to exactly its minimum.
  lemma CompletedRunConserves(o: Order, n: nat, attempts: seq<Attempt>)
    requires SlicedRun(o, n, attempts) && |attempts| == n && attempts[n - 1].status == Submitted
    ensures SpentIn(attempts) == o.amountIn.value
    ensures GuardedOut(attempts) == if o.minOut.Some? && o.minOut.value > 0 then o.minOut.value else 0
  {
    SubmittedSums(o, n, attempts);
    PartsConserve(o.amountIn.value, n, n);
    PartsConserve(EffectiveMin(o.minOut), n, n);
  }

  // A run that stops early, with s slices submitted, has spent at most s/n of the order.
  lemma StoppedRunSpendsItsShare(o: Order, n: nat, attempts: seq<Attempt>)
    requires SlicedRun(o, n, attempts) && |attempts| > 0
    ensures var s := if attempts[|attempts| - 1].status == Submitted then |attempts| else |attempts| - 1;
      n * SpentIn(attempts) <= s * o.amountIn.value
  {
    var k := |attempts| - 1;
    if attempts[k].status == Submitted {
      SubmittedSums(o, n, attempts);
      PartsConserve(o.amountIn.value, n, k + 1);
    } else {
      SubmittedSums(o, n, attempts[..k]);
      PartsConserve(o.amountIn.value, n, k);
    }
  }

  function Sum(xs: seq<int>): int {
    if xs == [] then 0 else Sum(xs[..|xs| - 1]) + xs[|xs| - 1]
  }

  // Every submitted slice fills exactly its minimum, and nothing else comes in.
  ghost predicate FillsAreMinimums(attempts: seq<Attempt>, fills: seq<int>) {
    |fills| == |attempts|
    && forall i :: 0 <= i < |fills| ==>
      fills[i] == if attempts[i].status == Submitted && attempts[i].minOut.Some? then attempts[i].minOut.value else 0
  }

  // If each swap honours its own minimum, the swaps together honour the order's.
  lemma {:induction false} FillsHonourMinimums(attempts: seq<Attempt>, fills: seq<int>)
    requires |fills| == |attempts|
    requires forall i :: 0 <= i < |fills| ==>
      fills[i] >= if attempts[i].status == Submitted && attempts[i].minOut.Some? then attempts[i].minOut.value else 0
    ensures Sum(fills) >= GuardedOut(attempts)
    ensures FillsAreMinimums(attempts, fills) ==> Sum(fills) == GuardedOut(attempts)
  {
    if fills != [] {
      var k := |fills| - 1;
      FillsHonourMinimums(attempts[..k], fills[..k]);
    }
  }

  lemma CompletedRunReceivesMinimum(o: Order, n: nat, attempts: seq<Attempt>, fills: seq<int>)
    requires SlicedRun(o, n, attempts) && |attempts| == n && attempts[n - 1].status == Submitted
    requires |fills| == n && forall i :: 0 <= i < n ==> fills[i] >= attempts[i].minOut.value
    ensures Sum(fills) >= 0 && (o.minOut.Some? ==> Sum(fills) >= o.minOut.value)
  {
    CompletedRunConserves(o, n, attempts);
    FillsHonourMinimums(attempts, fills);
  }

  // ----- slicing against the V4 precheck -----

  // The last slice that gets the smaller share.
  function LastSmallSlice(total: nat, n: nat): (k: nat)
    requires n > 0
    ensures k < n
  {
    n - 1 - total % n
  }

  // Whether every slice of an order passes the V4 precheck is decided by its size and by two of
  // its slices: the last one with the smaller amount and the last one of all.
  lemma SlicesPassExactlyWhen(inst: Instrument, o: Order, n: nat)
    requires n > 1 && o.amountIn.Some? && o.amountIn.value > 0
    ensures var total, least := o.amountIn.value, EffectiveMin(o.minOut);
      (forall i :: 0 <= i < n ==> Admits(V4, inst, SliceOf(o, n, i)))
      <==> (n <= total && n <= least
            && Admits(V4, inst, SliceOf(o, n, LastSmallSlice(total, n)))
            && Admits(V4, inst, SliceOf(o, n, n - 1)))
  {
    var total: nat, least := o.amountIn.value, EffectiveMin(o.minOut);
    var k := LastSmallSlice(total, n);
    if forall i :: 0 <= i < n ==> Admits(V4, inst, SliceOf(o, n, i)) {
      assert Admits(V4, inst, SliceOf(o, n, 0)) && Admits(V4, inst, SliceOf(o, n, k));
      assert Part(total, n, 0) >= 1 && Part(least, n, 0) >= 1;
      OneEachNeedsN(total, n);
      OneEachNeedsN(least, n);
    }
    if n <= total && n <= least && Admits(V4, inst, SliceOf(o, n, k)) && Admits(V4, inst, SliceOf(o, n, n - 1)) {
      forall i | 0 <= i < n ensures Admits(V4, inst, SliceOf(o, n, i)) {
        var twin := if i <= k then k else n - 1;
        PartValue(total, n, i);
        PartValue(total, n, twin);
        PartValue(least, n, i);
        PartValue(least, n, twin);
        OneEachNeedsN(total, n);
        OneEachNeedsN(least, n);
        assert SliceOf(o, n, i).amountIn == SliceOf(o, n, twin).amountIn;
        assert SliceOf(o, n, i).minOut.value <= SliceOf(o, n, twin).minOut.value;
      }
    }
  }

  lemma OneEachNeedsN(total: nat, n: nat)
    requires n > 0
    ensures total / n >= 1 <==> n <= total
  {
  }

  // q whole input units, at unit price u, leave room under slippage s for one output unit of
  // rounding: q*u*s >= u*(1 - s) + 1.
  ghost predicate HasSlack(q: nat, u: real, s: real) {
    Worth(q, u) * s >= u * (1.0 - s) + 1.0
  }

  // Enough slippage absorbs the rounding of the slices: with the smaller share as q and the
  // clamped slippage as s, every slice of a strategy order with a minimum of at least n passes.
  lemma EnoughSlippageLetsSlicesPass(inst: Instrument, action: Action, poolPrice: real, amountIn: nat,
                                     slippage: real, n: nat)
    requires n > 1 && poolPrice > 0.0 && amountIn > 0
    requires n <= MinOut(inst, action, poolPrice, amountIn, slippage)
    requires HasSlack(amountIn / n, UnitPrice(inst, action, poolPrice), ClampSlippage(slippage))
    ensures var minOut := MinOut(inst, action, poolPrice, amountIn, slippage);
      var o := Order(action, poolPrice, Some(amountIn), Some(minOut));
      forall i :: 0 <= i < n ==> Admits(V4, inst, SliceOf(o, n, i))
  {
    MinOutBelowShare(inst, action, poolPrice, amountIn, slippage);
    var o := Order(action, poolPrice, Some(amountIn), Some(MinOut(inst, action, poolPrice, amountIn, slippage)));
    forall i | 0 <= i < n ensures Admits(V4, inst, SliceOf(o, n, i)) {
      OneSlicePasses(inst, action, poolPrice, amountIn, EffectiveMin(o.minOut), ClampSlippage(slippage), n, i);
    }
  }

  lemma OneSlicePasses(inst: Instrument, action: Action, poolPrice: real, amountIn: nat, minOut: nat,
                       s: real, n: nat, i: nat)
    requires poolPrice > 0.0 && i < n && n <= minOut && 0.0 <= s <= 1.0
    requires BelowShare(minOut, amountIn, UnitPrice(inst, action, poolPrice), s)
    requires HasSlack(amountIn / n, UnitPrice(inst, action, poolPrice), s)
    ensures V4Precheck(inst, action, poolPrice, Some(Part(amountIn, n, i)), Some(Part(minOut, n, i))) == Pass
  {
    SliceNumbers(amountIn, minOut, UnitPrice(inst, action, poolPrice), s, n, i);
    SliceClears(inst, action, poolPrice, Part(amountIn, n, i), Part(minOut, n, i), amountIn / n);
  }

  lemma SliceNumbers(amountIn: nat, minOut: nat, u: real, s: real, n: nat, i: nat)
    requires i < n && n <= minOut && 0.0 <= s <= 1.0
    requires BelowShare(minOut, amountIn, u, s) && HasSlack(amountIn / n, u, s)
    ensures 1 <= amountIn / n <= Part(amountIn, n, i) && 1 <= Part(minOut, n, i)
    ensures Part(minOut, n, i) as real <= Worth(amountIn / n, u)
  {
    var q, r := DivMod(amountIn, n);
    var p, t := DivMod(minOut, n);
    PartIs(amountIn, n, i, q, r);
    PartIs(minOut, n, i, p, t);
    AtLeastOne(minOut, n, p, t);
    SharesHaveSlack(amountIn, minOut, n, p, t, q, r, u, s);
  }

  lemma AtLeastOne(total: nat, n: nat, q: nat, r: nat)
    requires IsSplit(total, n, q, r) && n <= total
    ensures 1 <= q
  {
    if q <= 0 { ProductLe(q, 0, n); }
  }

  // The minimum of an order is at most amountIn*u*(1 - s).
  ghost predicate BelowShare(minOut: int, amountIn: nat, u: real, s: real) {
    u >= 0.0 && minOut as real <= Worth(amountIn, u * (1.0 - s))
  }

  lemma MinOutBelowShare(inst: Instrument, action: Action, poolPrice: real, amountIn: nat, slippage: real)
    requires poolPrice > 0.0
    ensures BelowShare(MinOut(inst, action, poolPrice, amountIn, slippage), amountIn,
                       UnitPrice(inst, action, poolPrice), ClampSlippage(slippage))
  {
    var u, c := UnitPrice(inst, action, poolPrice), 1.0 - ClampSlippage(slippage);
    ExpectedIsLinear(inst, action, poolPrice, amountIn);
    Swap3(amountIn as real, u, c);
    FloorIsGreatest(ExpectedOut(inst, action, poolPrice, amountIn) * c,
                    MinOut(inst, action, poolPrice, amountIn, slippage));
  }

  lemma SharesHaveSlack(amountIn: nat, minOut: nat, n: nat, p: nat, t: nat, q: nat, r: nat, u: real, s: real)
    requires IsSplit(amountIn, n, q, r) && IsSplit(minOut, n, p, t) && 0.0 <= s <= 1.0
    requires BelowShare(minOut, amountIn, u, s) && HasSlack(q, u, s)
    ensures q >= 1 && (p + 1) as real <= Worth(q, u)
  {
    SlackNeedsUnits(q, u, s);
    EvenShare(p, t, minOut, q, r, amountIn, n, u * (1.0 - s));
  }

  lemma SlackNeedsUnits(q: nat, u: real, s: real)
    requires u >= 0.0 && 0.0 <= s <= 1.0 && HasSlack(q, u, s)
    ensures q >= 1 && u * (1.0 - s) >= 0.0 && Worth(q + 1, u * (1.0 - s)) + 1.0 <= Worth(q, u)
  {
  }

  lemma SliceClears(inst: Instrument, action: Action, poolPrice: real, a: nat, m: nat, q: nat)
    requires poolPrice > 0.0 && 1 <= q <= a && 1 <= m
    requires m as real <= Worth(q, UnitPrice(inst, action, poolPrice))
    ensures V4Precheck(inst, action, poolPrice, Some(a), Some(m)) == Pass
  {
    ExpectedIsLinear(inst, action, poolPrice, a);
    MoreCoversTheSame(q, a, m, UnitPrice(inst, action, poolPrice), ExpectedOut(inst, action, poolPrice, a));
  }

  lemma MoreCoversTheSame(q: nat, a: nat, m: int, u: real, out: real)
    requires q <= a && u >= 0.0 && m as real <= Worth(q, u) && out == Worth(a, u)
    ensures m <= out.Floor
  {
  }

  // The even share of the minimum is at most (q + 1)*w.
  lemma EvenShare(p: nat, t: nat, minOut: nat, q: nat, r: nat, amountIn: nat, n: nat, w: real)
    requires n > 0 && w >= 0.0 && r < n
    requires minOut == p * n + t && amountIn == q * n + r && minOut as real <= Worth(amountIn, w)
    ensures p as real <= Worth(q + 1, w)
  {
  }

  // Without that slack slicing can turn a passing order into a failing one: five satoshis sold at
  // 60000 with a tolerance of 1% pass whole, and fail as two slices.
  lemma SlicingCanFailThePrecheck()
    ensures var inst := Instrument(Token("BTC-Beta", 1, 8), Token("USDT-Beta", 2, 6));
      var o := Order(Sell, 60000.0, Some(5), Some(MinOut(inst, Sell, 60000.0, 5, 0.01)));
      Admits(V4, inst, o) && !Admits(V4, inst, SliceOf(o, 2, 0))
  {
    var inst := Instrument(Token("BTC-Beta", 1, 8), Token("USDT-Beta", 2, 6));
    PowersOfPair();
    assert ExpectedOut(inst, Sell, 60000.0, 5) == 3000.0;
    assert ExpectedOut(inst, Sell, 60000.0, 2) == 1200.0;
    assert MinOut(inst, Sell, 60000.0, 5, 0.01) == 2970;
    var o := Order(Sell, 60000.0, Some(5), Some(2970));
    assert SliceOf(o, 2, 0) == Order(Sell, 60000.0, Some(2), Some(1485));
  }

  lemma PowersOfPair()
    ensures Pow10(8) == 100000000.0 && Pow10(6) == 1000000.0
  {
    assert Pow10(6) == 1000000.0;
  }
}
