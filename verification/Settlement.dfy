// What execute of market-maker-service/internal/execution/service.go does with the outcome of
// executeTWAP: the cooldown, the failure count and the position book, against what was spent.
module Settlement {
  import opened Prelude
  import opened PoolReaders
  import opened SwapChecks
  import T = TwapSlices
  import P = Positions
  import RiskGuard
  import Strategy

  // The result executeTWAP returns: the status of the run with the amount of its last attempt and
  // the notional of the whole order.
  function ResultOf(id: string, o: T.Order, notional: real, status: T.Status, attempts: seq<T.Attempt>): P.Result
    requires attempts != []
  {
    var last := attempts[|attempts| - 1];
    P.Result(id, if status == T.Submitted then P.Submitted else P.Failed, o.action,
             if last.amountIn.Some? then Some(last.amountIn.value as real) else None, notional)
  }

  function Failed(states: map<string, RiskGuard.InstrumentState>, id: string, now: int)
    : map<string, RiskGuard.InstrumentState>
  {
    states[id := RiskGuard.AfterFailure(RiskGuard.Look(states, id), now)]
  }

  // One more failure, and a back-off for it from now on; the circuit and other instruments as before.
  ghost predicate FailureCounted(before: map<string, RiskGuard.InstrumentState>,
                                 after: map<string, RiskGuard.InstrumentState>, id: string, now: int)
  {
    && id in after
    && after[id].consecutiveFails == RiskGuard.Look(before, id).consecutiveFails + 1
    && after[id].backoffUntil == Some(now + RiskGuard.Backoff(after[id].consecutiveFails))
    && after[id].circuitOpen == RiskGuard.Look(before, id).circuitOpen
    && (forall k :: k != id ==> RiskGuard.Look(after, k) == RiskGuard.Look(before, k))
  }

  // The part of execute after executeTWAP; the executors return submitted or failed.
  method Settle(id: string, o: T.Order, notional: real, status: T.Status, attempts: seq<T.Attempt>, now: int,
                strat: Strategy.Engine, guard: RiskGuard.Guard, store: P.Store, baseOk: bool, quoteOk: bool)
    requires attempts != []
    modifies strat, guard`states, store
    ensures strat.lastTrade == if status == T.Submitted then old(strat.lastTrade)[id := now] else old(strat.lastTrade)
    ensures guard.states == if status == T.Submitted then old(guard.states)
                            else Failed(old(guard.states), id, now)
    ensures status == T.Failed ==> FailureCounted(old(guard.states), guard.states, id, now)
    ensures store.book == P.Applied(old(store.book), ResultOf(id, o, notional, status, attempts), baseOk, quoteOk)
    ensures status == T.Failed ==> store.book == old(store.book)
  {
    match status {
      case Failed => guard.RecordFailure(id, now);
      case Submitted => strat.MarkExecuted(id, now);
    }
    store.UpdateAccountPositions(ResultOf(id, o, notional, status, attempts), baseOk, quoteOk);
  }

  // Slice i goes out if it is tried.
  ghost predicate Goes(venue: T.Venue, inst: Instrument, o: T.Order, n: nat, chain: nat -> bool, i: nat)
    requires n > 0 && o.amountIn.Some? && o.amountIn.value >= 0
  {
    T.Admits(venue, inst, T.SliceOf(o, n, i)) && chain(i)
  }

  // Every slice goes out and the context lasts through the pauses.
  ghost predicate Completes(venue: T.Venue, inst: Instrument, o: T.Order, n: nat,
                            chain: nat -> bool, cancelled: nat -> bool)
    requires n > 0 && o.amountIn.Some? && o.amountIn.value >= 0
  {
    && (forall i :: 0 <= i < n ==> Goes(venue, inst, o, n, chain, i))
    && (forall i :: 0 <= i < n - 1 ==> !cancelled(i))
  }

  // A sliced run as ExecuteTwap promises it.
  ghost predicate IsRun(venue: T.Venue, inst: Instrument, o: T.Order, n: nat,
                        chain: nat -> bool, cancelled: nat -> bool, status: T.Status, attempts: seq<T.Attempt>)
  {
    && T.SlicedRun(o, n, attempts) && attempts != []
    && (status == T.Submitted <==> T.Completed(n, attempts))
    && (status == T.Submitted <==> Completes(venue, inst, o, n, chain, cancelled))
    && (forall i :: 0 <= i < |attempts| ==>
          (attempts[i].status == T.Submitted <==> Goes(venue, inst, o, n, chain, i)))
  }

  // execute, once the risk gate has passed: the run and its settlement.
  method Execute(venue: T.Venue, inst: Instrument, id: string, o: T.Order, notional: real, slices: int,
                 chain: nat -> bool, cancelled: nat -> bool, now: int,
                 strat: Strategy.Engine, guard: RiskGuard.Guard, store: P.Store, baseOk: bool, quoteOk: bool)
    returns (status: T.Status, attempts: seq<T.Attempt>)
    modifies strat, guard`states, store
    ensures attempts != []
    ensures T.IsSliced(o, slices) ==> IsRun(venue, inst, o, slices, chain, cancelled, status, attempts)
    ensures strat.lastTrade == if status == T.Submitted then old(strat.lastTrade)[id := now] else old(strat.lastTrade)
    ensures guard.states == if status == T.Submitted then old(guard.states)
                            else Failed(old(guard.states), id, now)
    ensures status == T.Failed ==> FailureCounted(old(guard.states), guard.states, id, now)
    ensures store.book == P.Applied(old(store.book), ResultOf(id, o, notional, status, attempts), baseOk, quoteOk)
  {
    status, attempts := T.ExecuteTwap(venue, inst, o, slices, chain, cancelled);
    if T.IsSliced(o, slices) {
      GoesIsSubmitted(venue, inst, o, slices, chain);
    }
    Settle(id, o, notional, status, attempts, now, strat, guard, store, baseOk, quoteOk);
  }

  lemma GoesIsSubmitted(venue: T.Venue, inst: Instrument, o: T.Order, n: nat, chain: nat -> bool)
    requires n > 0 && o.amountIn.Some? && o.amountIn.value >= 0
    ensures forall i: nat ::
      T.Execute(venue, inst, T.SliceOf(o, n, i), chain(i)).status == T.Submitted <==> Goes(venue, inst, o, n, chain, i)
  {
  }

  // The part of the notional that the submitted slices sold.
  function SpentValue(o: T.Order, notional: real, attempts: seq<T.Attempt>): real
    requires o.amountIn.Some? && o.amountIn.value > 0
  {
    notional * T.SpentIn(attempts) as real / o.amountIn.value as real
  }

  function BookedValue(id: string, o: T.Order, notional: real, status: T.Status, attempts: seq<T.Attempt>): real
    requires attempts != []
  {
    if P.Moves(ResultOf(id, o, notional, status, attempts)) then notional else 0.0
  }

  // ... is what the book moves from one token of the pair to the other.
  lemma BookMovesBookedValue(b: P.Book, id: string, o: T.Order, notional: real,
                             status: T.Status, attempts: seq<T.Attempt>)
    requires attempts != [] && o.action != Hold
    ensures var r := ResultOf(id, o, notional, status, attempts);
      var booked := BookedValue(id, o, notional, status, attempts);
      var base, quote := P.TokenFromInstrument(id, true), P.TokenFromInstrument(id, false);
      var now := P.Applied(b, r, true, true);
      && P.ValueOf(now, base) - P.ValueOf(b, base) == (if o.action == Buy then booked else -booked)
      && P.ValueOf(now, quote) - P.ValueOf(b, quote) == (if o.action == Buy then -booked else booked)
  {
    var r := ResultOf(id, o, notional, status, attempts);
    if P.Moves(r) {
      P.ResultMovesNotional(b, r, P.TokenFromInstrument(id, true));
      P.ResultMovesNotional(b, r, P.TokenFromInstrument(id, false));
    }
  }

  lemma {:induction false} SpentAtLeastFirst(venue: T.Venue, inst: Instrument, o: T.Order, n: nat,
                                             attempts: seq<T.Attempt>)
    requires T.SlicedRun(o, n, attempts) && attempts != []
    requires attempts[0].status == T.Submitted && T.Admits(venue, inst, T.SliceOf(o, n, 0))
    ensures T.SpentIn(attempts) > 0
  {
    if |attempts| > 1 {
      SpentAtLeastFirst(venue, inst, o, n, attempts[..|attempts| - 1]);
    } else {
      assert attempts[..0] == [];
    }
  }

  lemma SpentValueIs(o: T.Order, notional: real, attempts: seq<T.Attempt>)
    requires o.amountIn.Some? && o.amountIn.value > 0
    ensures T.SpentIn(attempts) == o.amountIn.value ==> SpentValue(o, notional, attempts) == notional
    ensures SpentValue(o, notional, attempts) == 0.0 <==> notional == 0.0 || T.SpentIn(attempts) == 0
  {
    ShareOf(notional, T.SpentIn(attempts) as real, o.amountIn.value as real, SpentValue(o, notional, attempts));
  }

  lemma ShareOf(x: real, s: real, a: real, y: real)
    requires a > 0.0 && y == x * s / a
    ensures s == a ==> y == x
    ensures y == 0.0 <==> x == 0.0 || s == 0.0
  {
    assert y * a == x * s;
  }

  // What was spent and booked, case by case.
  lemma SpentAndBooked(venue: T.Venue, inst: Instrument, id: string, o: T.Order, n: nat, notional: real,
                       chain: nat -> bool, cancelled: nat -> bool, status: T.Status, attempts: seq<T.Attempt>)
    requires IsRun(venue, inst, o, n, chain, cancelled, status, attempts) && o.action != Hold
    ensures BookedValue(id, o, notional, status, attempts) == if status == T.Submitted then notional else 0.0
    ensures status == T.Submitted ==> T.SpentIn(attempts) == o.amountIn.value
    ensures status == T.Failed ==> (T.SpentIn(attempts) == 0 <==> !Goes(venue, inst, o, n, chain, 0))
  {
    if status == T.Submitted {
      assert Goes(venue, inst, o, n, chain, n - 1);
      T.CompletedRunConserves(o, n, attempts);
    } else if attempts[0].status == T.Submitted {
      assert Goes(venue, inst, o, n, chain, 0);
      SpentAtLeastFirst(venue, inst, o, n, attempts);
    } else {
      assert |attempts| == 1 && attempts[..0] == [];
    }
  }

  // Whatever order, checks, chain and cancellations: the book holds what a sliced run spent exactly
  // if there is no value to book, the first slice does not go out, or all of them do. A run that
  // stops in between is returned as failed, and the slices it submitted are never booked.
  lemma BookMatchesSpendingExactlyWhen(venue: T.Venue, inst: Instrument, id: string, o: T.Order, n: nat,
                                       notional: real, chain: nat -> bool, cancelled: nat -> bool,
                                       status: T.Status, attempts: seq<T.Attempt>)
    requires IsRun(venue, inst, o, n, chain, cancelled, status, attempts) && o.action != Hold
    ensures BookedValue(id, o, notional, status, attempts) == SpentValue(o, notional, attempts)
       <==> (notional == 0.0 || !Goes(venue, inst, o, n, chain, 0) || Completes(venue, inst, o, n, chain, cancelled))
  {
    SpentAndBooked(venue, inst, id, o, n, notional, chain, cancelled, status, attempts);
    SpentValueIs(o, notional, attempts);
  }

  // Such a run: two raw units in two slices, of which the second fails on chain. Half of the
  // notional is spent and none of it booked.
  lemma HalfwayRunIsNotBooked(inst: Instrument, id: string)
    ensures var o := T.Order(Sell, 1.0, Some(2), Some(2));
      var attempts := [T.Attempt(Some(1), Some(1), T.Submitted), T.Attempt(Some(1), Some(1), T.Failed)];
      && IsRun(T.V3, inst, o, 2, i => i == 0, i => false, T.Failed, attempts)
      && BookedValue(id, o, 10.0, T.Failed, attempts) == 0.0 && SpentValue(o, 10.0, attempts) == 5.0
  {
    var o := T.Order(Sell, 1.0, Some(2), Some(2));
    var first, second := T.Attempt(Some(1), Some(1), T.Submitted), T.Attempt(Some(1), Some(1), T.Failed);
    var attempts := [first, second];
    var chain: nat -> bool := i => i == 0;
    assert T.Part(2, 2, 0) == 1 && T.Part(2, 2, 1) == 1;
    assert Goes(T.V3, inst, o, 2, chain, 0) && !Goes(T.V3, inst, o, 2, chain, 1);
    assert attempts[..1] == [first] && [first][..0] == [];
    assert T.SpentIn([first]) == 1;
    assert T.SpentIn(attempts) == 1;
  }
}
