// The pruned price history behind GetTWAP in market-maker-service/internal/binance/ws_client.go.
// Times are Unix milliseconds; a sample carries the exchange's time, the wall clock prunes. Only
// GetTWAP reads the clock in nanoseconds.
module PriceHistory {
  import opened Prelude
  import opened RuntimeConfig

  datatype PriceUpdate = PriceUpdate(price: real, time: int)

  const KEEP_MS: int := 5 * 60 * 1000

  // Drops samples from the front up to the first one that is not older than the cutoff.
  function Pruned(h: seq<PriceUpdate>, cutoff: int): seq<PriceUpdate> {
    if h == [] || h[0].time >= cutoff then h else Pruned(h[1..], cutoff)
  }

  // A stream message: without an exchange time it is stamped with the wall clock.
  function Stamped(price: real, exchangeTime: int, now: int): PriceUpdate {
    PriceUpdate(price, if exchangeTime <= 0 then now else exchangeTime)
  }

  function AfterMessage(h: seq<PriceUpdate>, price: real, exchangeTime: int, now: int): seq<PriceUpdate> {
    if price <= 0.0 then h else Pruned(h + [Stamped(price, exchangeTime, now)], now - KEEP_MS)
  }

  // The REST fallback appends and does not prune.
  function AfterRest(h: seq<PriceUpdate>, price: real, now: int): seq<PriceUpdate> {
    if price > 0.0 then h + [PriceUpdate(price, now)] else h
  }

  // GetTWAP's walk from the newest sample back to the first one older than the cutoff: the sum and
  // the number of the prices passed.
  function Walk(h: seq<PriceUpdate>, cutoff: int): (real, nat) {
    if h == [] || h[|h| - 1].time < cutoff then (0.0, 0) else
      var (sum, n) := Walk(h[..|h| - 1], cutoff);
      if h[|h| - 1].price > 0.0 then (sum + h[|h| - 1].price, n + 1) else (sum, n)
  }

  function Window(windowSec: int): int { if windowSec <= 0 then 45 else windowSec }

  const MILLISECOND: int := 1_000_000

  // The duration GetTWAP adds to the clock: minus the window in nanoseconds, unless that overflows.
  function Shift(windowSec: int): int { Wrap64(-Window(windowSec) * SECOND) }

  function Cutoff(windowSec: int, nowNs: int): int { (nowNs + Shift(windowSec)) / MILLISECOND }

  function Mean(sum: real, n: nat): real
    requires n > 0
  {
    sum / n as real
  }

  function Twap(h: seq<PriceUpdate>, windowSec: int, nowNs: int): Option<real> {
    var (sum, n) := Walk(h, Cutoff(windowSec, nowNs));
    if n == 0 then None else Some(Mean(sum, n))
  }

  class Client {
    var prices: map<string, real>
    var history: map<string, seq<PriceUpdate>>

    constructor ()
      ensures prices == map[] && history == map[]
    {
      prices, history := map[], map[];
    }

    function HistoryOf(symbol: string): seq<PriceUpdate>
      reads this
    {
      if symbol in history then history[symbol] else []
    }

    // The pruning loop of handleMessage.
    method FirstRecent(h: seq<PriceUpdate>, cutoff: int) returns (idx: nat)
      ensures idx <= |h| && h[idx..] == Pruned(h, cutoff)
    {
      idx := 0;
      while idx < |h| && h[idx].time < cutoff
        invariant idx <= |h|
        invariant Pruned(h, cutoff) == Pruned(h[idx..], cutoff)
      {
        assert h[idx..][1..] == h[idx + 1..];
        idx := idx + 1;
      }
    }

    // handleMessage, once the payload is decoded.
    method HandleMessage(symbol: string, price: real, exchangeTime: int, now: int)
      modifies this
      ensures price <= 0.0 ==> prices == old(prices) && history == old(history)
      ensures price > 0.0 ==>
        prices == old(prices)[symbol := price]
        && history == old(history)[symbol := AfterMessage(old(HistoryOf(symbol)), price, exchangeTime, now)]
    {
      if price <= 0.0 {
        return;
      }
      prices := prices[symbol := price];
      var updateTime := exchangeTime;
      if updateTime <= 0 {
        updateTime := now;
      }
      var h := HistoryOf(symbol) + [PriceUpdate(price, updateTime)];
      history := history[symbol := h];
      var idx := FirstRecent(h, now - 5 * 60 * 1000);
      if idx > 0 {
        history := history[symbol := h[idx..]];
      }
    }

    // One symbol of fetchRESTPrices.
    method FetchREST(symbol: string, price: real, now: int)
      modifies this
      ensures price <= 0.0 ==> prices == old(prices) && history == old(history)
      ensures price > 0.0 ==>
        prices == old(prices)[symbol := price]
        && history == old(history)[symbol := AfterRest(old(HistoryOf(symbol)), price, now)]
        && HistoryOf(symbol) == old(HistoryOf(symbol)) + [PriceUpdate(price, now)]
    {
      if price > 0.0 {
        prices := prices[symbol := price];
        history := history[symbol := HistoryOf(symbol) + [PriceUpdate(price, now)]];
      }
    }

    method GetTWAP(symbol: string, windowSec: int, nowNs: int) returns (twap: Option<real>)
      ensures twap == Twap(HistoryOf(symbol), windowSec, nowNs)
    {
      var window := windowSec;
      if window <= 0 {
        window := 45;
      }
      var h := HistoryOf(symbol);
      if |h| == 0 {
        return None;
      }
      var cutoff := (nowNs + Wrap64(-window * SECOND)) / MILLISECOND;
      var sum, n := 0.0, 0;
      var i := |h| - 1;
      assert h[..|h|] == h;
      while i >= 0
        invariant -1 <= i < |h| && n >= 0
        invariant var (rest, m) := Walk(h[..i + 1], cutoff); Walk(h, cutoff) == (sum + rest, n + m)
      {
        assert h[..i + 1][..i] == h[..i];
        if h[i].time < cutoff {
          break;
        }
        if h[i].price > 0.0 {
          sum := sum + h[i].price;
          n := n + 1;
        }
        i := i - 1;
      }
      if n == 0 {
        return None;
      }
      return Some(Mean(sum, n));
    }
  }

  // A message without an exchange time is stamped with the wall clock, any other keeps its own.
  lemma StampIs(price: real, exchangeTime: int, now: int)
    ensures Stamped(price, exchangeTime, now).price == price
    ensures exchangeTime > 0 ==> Stamped(price, exchangeTime, now).time == exchangeTime
    ensures exchangeTime <= 0 ==> Stamped(price, exchangeTime, now).time == now
  {
  }

  // The window reaches back as many seconds as asked, or 45 if none are asked for.
  lemma CutoffIs(windowSec: int, nowNs: int)
    ensures 1 <= windowSec <= 9_223_372_036 ==>
      Cutoff(windowSec, nowNs) == (nowNs - windowSec * 1_000_000_000) / 1_000_000
    ensures windowSec <= 0 ==> Cutoff(windowSec, nowNs) == Cutoff(45, nowNs)
  {
  }

  // Sample i has a positive price, and it and all later ones are in the window.
  ghost predicate Reached(h: seq<PriceUpdate>, cutoff: int, i: nat) {
    i < |h| && h[i].price > 0.0 && forall j :: i <= j < |h| ==> h[j].time >= cutoff
  }

  lemma {:induction false} WalkCountsReached(h: seq<PriceUpdate>, cutoff: int)
    ensures Walk(h, cutoff).1 > 0 <==> exists i: nat :: Reached(h, cutoff, i)
  {
    if h != [] {
      var n := |h| - 1;
      WalkCountsReached(h[..n], cutoff);
      if h[n].time >= cutoff {
        forall i: nat | Reached(h[..n], cutoff, i) ensures Reached(h, cutoff, i) {
          assert forall j :: i <= j < n ==> h[j] == h[..n][j];
        }
        forall i: nat | Reached(h, cutoff, i) && i < n ensures Reached(h[..n], cutoff, i) {
        }
        if h[n].price > 0.0 {
          assert Reached(h, cutoff, n);
        }
      } else {
        assert forall i: nat :: i < |h| ==> !Reached(h, cutoff, i);
      }
    }
  }

  // GetTWAP has a value exactly if, going back from the newest sample, it meets a positive price
  // before one that is too old.
  lemma ValueExactlyWhen(h: seq<PriceUpdate>, windowSec: int, nowNs: int)
    ensures Twap(h, windowSec, nowNs).Some? <==>
      exists i: nat :: Reached(h, Cutoff(windowSec, nowNs), i)
  {
    WalkCountsReached(h, Cutoff(windowSec, nowNs));
  }

  // ----- pruning is invisible -----

  datatype Arrival = Message(price: real, exchangeTime: int, now: int) | Rest(price: real, now: int)

  // The history the client keeps, and the one it would have without pruning.
  function Kept(arrivals: seq<Arrival>): seq<PriceUpdate> {
    if arrivals == [] then [] else
      var h := Kept(arrivals[..|arrivals| - 1]);
      match arrivals[|arrivals| - 1]
      case Message(price, exchangeTime, now) => AfterMessage(h, price, exchangeTime, now)
      case Rest(price, now) => AfterRest(h, price, now)
  }

  function Full(arrivals: seq<Arrival>): seq<PriceUpdate> {
    if arrivals == [] then [] else
      var h := Full(arrivals[..|arrivals| - 1]);
      match arrivals[|arrivals| - 1]
      case Message(price, exchangeTime, now) => if price <= 0.0 then h else h + [Stamped(price, exchangeTime, now)]
      case Rest(price, now) => AfterRest(h, price, now)
  }

  // The wall clock does not go back, and the reading comes last. Exchange times are arbitrary.
  ghost predicate ClockOrdered(arrivals: seq<Arrival>, now: int) {
    && (forall i, j :: 0 <= i < j < |arrivals| ==> arrivals[i].now <= arrivals[j].now)
    && (forall i :: 0 <= i < |arrivals| ==> arrivals[i].now <= now)
  }

  // What is missing from kept is a prefix of full, all of it older than the limit.
  ghost predicate OldPrefixMissing(kept: seq<PriceUpdate>, full: seq<PriceUpdate>, limit: int) {
    && |kept| <= |full| && full[|full| - |kept|..] == kept
    && (forall i :: 0 <= i < |full| - |kept| ==> full[i].time < limit)
  }

  lemma {:induction false} PrunedDropsOldPrefix(h: seq<PriceUpdate>, cutoff: int)
    ensures OldPrefixMissing(Pruned(h, cutoff), h, cutoff)
  {
    if h != [] && h[0].time < cutoff {
      PrunedDropsOldPrefix(h[1..], cutoff);
      var k := Pruned(h[1..], cutoff);
      assert h[|h| - |k|..] == h[1..][|h| - 1 - |k|..];
    }
  }

  lemma {:induction false} PrunedStartsRecent(h: seq<PriceUpdate>, cutoff: int)
    ensures Pruned(h, cutoff) == [] || Pruned(h, cutoff)[0].time >= cutoff
  {
    if h != [] && h[0].time < cutoff {
      PrunedStartsRecent(h[1..], cutoff);
    }
  }

  // A positive price is appended, and everything before the first sample that is not older than five
  // minutes goes; any other price changes nothing.
  lemma MessageDoes(h: seq<PriceUpdate>, price: real, exchangeTime: int, now: int)
    ensures var after, u := AfterMessage(h, price, exchangeTime, now), Stamped(price, exchangeTime, now);
      if price <= 0.0 then after == h
      else OldPrefixMissing(after, h + [u], now - 300_000) && (after == [] || after[0].time >= now - 300_000)
  {
    if price > 0.0 {
      PrunedDropsOldPrefix(h + [Stamped(price, exchangeTime, now)], now - KEEP_MS);
      PrunedStartsRecent(h + [Stamped(price, exchangeTime, now)], now - KEEP_MS);
    }
  }

  lemma {:induction false} KeptMissesOldPrefix(arrivals: seq<Arrival>, now: int)
    requires ClockOrdered(arrivals, now)
    ensures OldPrefixMissing(Kept(arrivals), Full(arrivals), now - KEEP_MS)
  {
    if arrivals != [] {
      var n := |arrivals| - 1;
      var before, last := arrivals[..n], arrivals[n];
      assert ClockOrdered(before, last.now);
      KeptMissesOldPrefix(before, last.now);
      match last
      case Message(price, exchangeTime, at) =>
        MessageKeepsPrefix(Kept(before), Full(before), price, exchangeTime, at, now);
      case Rest(price, at) => RestKeepsPrefix(Kept(before), Full(before), price, at, now);
    }
  }

  lemma RestKeepsPrefix(kept: seq<PriceUpdate>, full: seq<PriceUpdate>, price: real, at: int, now: int)
    requires OldPrefixMissing(kept, full, at - KEEP_MS) && at <= now
    ensures OldPrefixMissing(AfterRest(kept, price, at), AfterRest(full, price, at), now - KEEP_MS)
  {
    LaterLimit(kept, full, at - KEEP_MS, now - KEEP_MS);
    AppendKeepsPrefix(kept, full, PriceUpdate(price, at), now - KEEP_MS);
  }

  lemma LaterLimit(kept: seq<PriceUpdate>, full: seq<PriceUpdate>, limit: int, later: int)
    requires OldPrefixMissing(kept, full, limit) && limit <= later
    ensures OldPrefixMissing(kept, full, later)
  {
  }

  lemma PruningKeepsPrefix(kept: seq<PriceUpdate>, full: seq<PriceUpdate>, limit: int, later: int)
    requires OldPrefixMissing(kept, full, limit) && limit <= later
    ensures OldPrefixMissing(Pruned(kept, limit), full, later)
  {
    PrunedDropsOldPrefix(kept, limit);
    PrefixesCompose(Pruned(kept, limit), kept, full, limit);
    LaterLimit(Pruned(kept, limit), full, limit, later);
  }

  lemma MessageKeepsPrefix(kept: seq<PriceUpdate>, full: seq<PriceUpdate>, price: real, exchangeTime: int,
                           at: int, now: int)
    requires OldPrefixMissing(kept, full, at - KEEP_MS) && at <= now
    ensures OldPrefixMissing(AfterMessage(kept, price, exchangeTime, at),
                             if price <= 0.0 then full else full + [Stamped(price, exchangeTime, at)], now - KEEP_MS)
  {
    if price > 0.0 {
      var u, limit := Stamped(price, exchangeTime, at), at - KEEP_MS;
      AppendKeepsPrefix(kept, full, u, limit);
      PruningKeepsPrefix(kept + [u], full + [u], limit, now - KEEP_MS);
    } else {
      LaterLimit(kept, full, at - KEEP_MS, now - KEEP_MS);
    }
  }

  lemma AppendKeepsPrefix(kept: seq<PriceUpdate>, full: seq<PriceUpdate>, u: PriceUpdate, limit: int)
    requires OldPrefixMissing(kept, full, limit)
    ensures OldPrefixMissing(kept + [u], full + [u], limit)
  {
  }

  lemma PrefixesCompose(a: seq<PriceUpdate>, b: seq<PriceUpdate>, c: seq<PriceUpdate>, limit: int)
    requires OldPrefixMissing(a, b, limit) && OldPrefixMissing(b, c, limit)
    ensures OldPrefixMissing(a, c, limit)
  {
  }

  // Samples older than the cutoff at the front do not change the walk.
  lemma {:induction false} WalkIgnoresOldPrefix(kept: seq<PriceUpdate>, full: seq<PriceUpdate>, limit: int, cutoff: int)
    requires OldPrefixMissing(kept, full, limit) && limit <= cutoff
    ensures Walk(kept, cutoff) == Walk(full, cutoff)
    decreases |kept|
  {
    if kept != [] {
      var d := |full| - |kept|;
      assert kept[|kept| - 1] == full[d..][|kept| - 1] == full[|full| - 1];
      assert full[..|full| - 1][d..] == full[d..][..|kept| - 1];
      WalkIgnoresOldPrefix(kept[..|kept| - 1], full[..|full| - 1], limit, cutoff);
    }
  }

  // The window, as the duration the code computes, is at most five minutes.
  predicate ShortWindow(windowSec: int) { Shift(windowSec) >= -300 * SECOND }

  lemma PruningInvisible(arrivals: seq<Arrival>, windowSec: int, nowNs: int)
    requires ClockOrdered(arrivals, nowNs / MILLISECOND) && ShortWindow(windowSec)
    ensures Twap(Kept(arrivals), windowSec, nowNs) == Twap(Full(arrivals), windowSec, nowNs)
  {
    var now := nowNs / MILLISECOND;
    KeptMissesOldPrefix(arrivals, now);
    WalkIgnoresOldPrefix(Kept(arrivals), Full(arrivals), now - KEEP_MS, Cutoff(windowSec, nowNs));
  }

  // A longer window can miss a sample that was pruned.
  lemma LongWindowSeesPruning(windowSec: int) returns (arrivals: seq<Arrival>, nowNs: int)
    requires !ShortWindow(windowSec)
    ensures ClockOrdered(arrivals, nowNs / MILLISECOND)
    ensures Twap(Kept(arrivals), windowSec, nowNs) != Twap(Full(arrivals), windowSec, nowNs)
  {
    var now := KEEP_MS + 2;
    nowNs := now * MILLISECOND;
    arrivals := TwoArrivals(now);
    TwapsDiffer(Kept(arrivals), Full(arrivals), PriceUpdate(1.0, 1), PriceUpdate(2.0, now), windowSec, nowNs);
  }

  lemma TwoArrivals(now: int) returns (arrivals: seq<Arrival>)
    requires now == KEEP_MS + 2
    ensures ClockOrdered(arrivals, now)
    ensures Kept(arrivals) == [] + [PriceUpdate(2.0, now)]
    ensures Full(arrivals) == [] + [PriceUpdate(1.0, 1)] + [PriceUpdate(2.0, now)]
  {
    var a, b := Message(1.0, 1, 1), Message(2.0, now, now);
    var u, v := PriceUpdate(1.0, 1), PriceUpdate(2.0, now);
    HistoriesExtend([], a);
    HistoriesExtend([] + [a], b);
    assert Stamped(1.0, 1, 1) == u && Stamped(2.0, now, now) == v;
    assert Kept([] + [a]) == [] + [u] && Full([] + [a]) == [] + [u];
    DropOne(u, v, now - KEEP_MS);
    arrivals := [] + [a] + [b];
  }

  lemma TwapsDiffer(kept: seq<PriceUpdate>, full: seq<PriceUpdate>, u: PriceUpdate, v: PriceUpdate,
                    windowSec: int, nowNs: int)
    requires kept == [] + [v] && full == [] + [u] + [v] && u.price == 1.0 && v.price == 2.0
    requires Cutoff(windowSec, nowNs) <= u.time && Cutoff(windowSec, nowNs) <= v.time
    ensures Twap(kept, windowSec, nowNs) != Twap(full, windowSec, nowNs)
  {
    var cutoff := Cutoff(windowSec, nowNs);
    WalkOne(v, cutoff);
    WalkTwo(u, v, cutoff);
    MeansDiffer();
  }

  lemma WalkOne(u: PriceUpdate, cutoff: int)
    requires u.time >= cutoff && u.price > 0.0
    ensures Walk([] + [u], cutoff) == (u.price, 1)
  {
    WalkExtends([], u, cutoff);
  }

  lemma WalkTwo(u: PriceUpdate, v: PriceUpdate, cutoff: int)
    requires u.time >= cutoff && u.price > 0.0 && v.time >= cutoff && v.price > 0.0
    ensures Walk([] + [u] + [v], cutoff) == (u.price + v.price, 2)
  {
    WalkOne(u, cutoff);
    WalkExtends([] + [u], v, cutoff);
  }

  lemma MeansDiffer()
    ensures Mean(2.0, 1) != Mean(3.0, 2)
  {
  }

  lemma DropOne(u: PriceUpdate, v: PriceUpdate, cutoff: int)
    requires u.time < cutoff <= v.time
    ensures Pruned([] + [u] + [v], cutoff) == [] + [v]
  {
  }

  lemma HistoriesExtend(arrivals: seq<Arrival>, a: Arrival)
    requires a.Message? && a.price > 0.0
    ensures Kept(arrivals + [a]) == AfterMessage(Kept(arrivals), a.price, a.exchangeTime, a.now)
    ensures Full(arrivals + [a]) == Full(arrivals) + [Stamped(a.price, a.exchangeTime, a.now)]
  {
  }

  lemma WalkExtends(h: seq<PriceUpdate>, u: PriceUpdate, cutoff: int)
    requires u.time >= cutoff && u.price > 0.0
    ensures var (sum, n) := Walk(h, cutoff); Walk(h + [u], cutoff) == (sum + u.price, n + 1)
  {
  }

  ghost predicate PruningNeverShows(windowSec: int) {
    forall arrivals, nowNs :: ClockOrdered(arrivals, nowNs / MILLISECOND) ==>
      Twap(Kept(arrivals), windowSec, nowNs) == Twap(Full(arrivals), windowSec, nowNs)
  }

  // Over every arrival order, GetTWAP cannot tell the pruned history from the full one exactly
  // when its duration is at most five minutes; for windows that do not overflow, when the window is.
  lemma PruningInvisibleExactlyWhen(windowSec: int)
    ensures PruningNeverShows(windowSec) <==> ShortWindow(windowSec)
    ensures Window(windowSec) <= 9_223_372_036 ==> (PruningNeverShows(windowSec) <==> Window(windowSec) <= 300)
  {
    if ShortWindow(windowSec) {
      forall arrivals, nowNs | ClockOrdered(arrivals, nowNs / MILLISECOND)
        ensures Twap(Kept(arrivals), windowSec, nowNs) == Twap(Full(arrivals), windowSec, nowNs)
      {
        PruningInvisible(arrivals, windowSec, nowNs);
      }
    } else {
      var arrivals, nowNs := LongWindowSeesPruning(windowSec);
    }
  }

  // One second more and the duration wraps: the cutoff lies centuries ahead.
  lemma WrappedWindowLooksAhead(nowNs: int)
    ensures ShortWindow(9_223_372_037) && Cutoff(9_223_372_037, nowNs) > nowNs / MILLISECOND + 9_000_000_000_000
  {
  }

  // Every window the runtime parameters can choose is short enough.
  lemma RuntimeWindowIsShort(overrides: map<string, real>, configured: int)
    requires forall k :: k in overrides ==> IsParamInSafeRange(k, overrides[k])
    requires configured <= 300
    ensures Window(TwapWindow(overrides, configured)) <= 300 && ShortWindow(TwapWindow(overrides, configured))
  {
    SafeOverridesBound(overrides, configured, 1);
  }

  // ----- what the value is -----

  // n times k, by addition.
  function Times(n: nat, k: real): real {
    if n == 0 then 0.0 else Times(n - 1, k) + k
  }

  lemma {:induction false} TimesIsProduct(n: nat, k: real)
    ensures Times(n, k) == n as real * k
  {
    if n > 0 {
      TimesIsProduct(n - 1, k);
      OneMoreTime((n - 1) as real, n as real, k);
    }
  }

  lemma OneMoreTime(x: real, y: real, k: real)
    requires y == x + 1.0
    ensures y * k == x * k + k
  {
  }

  // lo and hi bound the prices in the window.
  ghost predicate BoundedInWindow(h: seq<PriceUpdate>, cutoff: int, lo: real, hi: real) {
    forall i :: 0 <= i < |h| && h[i].time >= cutoff && h[i].price > 0.0 ==> lo <= h[i].price <= hi
  }

  lemma {:induction false} WalkBounds(h: seq<PriceUpdate>, cutoff: int, lo: real, hi: real)
    requires BoundedInWindow(h, cutoff, lo, hi)
    ensures var (sum, n) := Walk(h, cutoff); Times(n, lo) <= sum <= Times(n, hi)
  {
    if h != [] && h[|h| - 1].time >= cutoff {
      WalkBounds(h[..|h| - 1], cutoff, lo, hi);
    }
  }

  // The value lies between any bounds on the prices in the window.
  lemma TwapWithinWindowPrices(h: seq<PriceUpdate>, windowSec: int, nowNs: int, lo: real, hi: real)
    requires BoundedInWindow(h, Cutoff(windowSec, nowNs), lo, hi)
    requires Twap(h, windowSec, nowNs).Some?
    ensures lo <= Twap(h, windowSec, nowNs).value <= hi
  {
    var cutoff := Cutoff(windowSec, nowNs);
    WalkBounds(h, cutoff, lo, hi);
    var (sum, n) := Walk(h, cutoff);
    TimesIsProduct(n, lo);
    TimesIsProduct(n, hi);
    MeanWithin(sum, n, lo, hi);
  }

  lemma MeanWithin(sum: real, n: nat, lo: real, hi: real)
    requires n > 0 && n as real * lo <= sum <= n as real * hi
    ensures lo <= Mean(sum, n) <= hi
  {
    var mean, k := Mean(sum, n), n as real;
    assert mean * k == sum;
    MulLe(lo, mean, k);
    MulLe(mean, hi, k);
  }

  // Sum and number of all prices in the window.
  function InWindow(h: seq<PriceUpdate>, cutoff: int): (real, nat) {
    if h == [] then (0.0, 0) else
      var (sum, n) := InWindow(h[..|h| - 1], cutoff);
      var u := h[|h| - 1];
      if u.time >= cutoff && u.price > 0.0 then (sum + u.price, n + 1) else (sum, n)
  }

  // No sample in the window comes before one that is older than the window.
  ghost predicate OldOnesFirst(h: seq<PriceUpdate>, cutoff: int) {
    forall i, j :: 0 <= i < j < |h| && h[i].time >= cutoff ==> h[j].time >= cutoff
  }

  ghost predicate AllPositive(h: seq<PriceUpdate>) {
    forall i :: 0 <= i < |h| ==> h[i].price > 0.0
  }

  // The walk adds up the whole window exactly if no sample in it precedes one too old for it. A
  // history in time order satisfies that for every cutoff.
  lemma {:induction false} WalkIsWindowExactlyWhen(h: seq<PriceUpdate>, cutoff: int)
    requires AllPositive(h)
    ensures Walk(h, cutoff) == InWindow(h, cutoff) <==> OldOnesFirst(h, cutoff)
  {
    if h != [] {
      var n := |h| - 1;
      WalkIsWindowExactlyWhen(h[..n], cutoff);
      if h[n].time < cutoff {
        EmptyWindow(h[..n], cutoff);
        if InWindow(h[..n], cutoff).1 > 0 {
          var i :| 0 <= i < n && h[..n][i].time >= cutoff;
          assert h[i].time >= cutoff;
        }
      } else {
        assert OldOnesFirst(h[..n], cutoff) <==> OldOnesFirst(h, cutoff) by {
          assert forall i :: 0 <= i < n ==> h[..n][i] == h[i];
        }
      }
    }
  }

  lemma {:induction false} EmptyWindow(h: seq<PriceUpdate>, cutoff: int)
    requires AllPositive(h)
    ensures InWindow(h, cutoff).1 == 0 <==> forall i :: 0 <= i < |h| ==> h[i].time < cutoff
    ensures InWindow(h, cutoff).1 == 0 ==> InWindow(h, cutoff).0 == 0.0
  {
    if h != [] {
      var n := |h| - 1;
      EmptyWindow(h[..n], cutoff);
      assert forall i :: 0 <= i < n ==> h[..n][i] == h[i];
    }
  }

  lemma {:induction false} PruningKeepsPositive(h: seq<PriceUpdate>, cutoff: int)
    requires AllPositive(h)
    ensures AllPositive(Pruned(h, cutoff))
  {
    if h != [] && h[0].time < cutoff {
      assert forall i :: 0 <= i < |h| - 1 ==> h[1..][i] == h[i + 1];
      PruningKeepsPositive(h[1..], cutoff);
    }
  }

  // The client stores positive prices only.
  lemma {:induction false} StoredPricesArePositive(arrivals: seq<Arrival>)
    ensures AllPositive(Full(arrivals)) && AllPositive(Kept(arrivals))
  {
    if arrivals != [] {
      var before := arrivals[..|arrivals| - 1];
      StoredPricesArePositive(before);
      match arrivals[|arrivals| - 1] {
        case Message(price, exchangeTime, now) =>
          if price > 0.0 {
            PruningKeepsPositive(Kept(before) + [Stamped(price, exchangeTime, now)], now - KEEP_MS);
          }
        case Rest(price, now) =>
      }
    }
  }

  // In time order the walk adds up exactly the window, whatever the prices.
  lemma {:induction false} SortedWalkIsWindow(h: seq<PriceUpdate>, cutoff: int)
    requires forall i, j :: 0 <= i < j < |h| ==> h[i].time <= h[j].time
    ensures Walk(h, cutoff) == InWindow(h, cutoff)
  {
    if h != [] {
      SortedWalkIsWindow(h[..|h| - 1], cutoff);
      if h[|h| - 1].time < cutoff {
        assert |h| > 1 ==> h[|h| - 2].time <= h[|h| - 1].time;
      }
    }
  }

  // Out of order a late old sample hides newer ones: a price stamped now, then one stamped 100
  // seconds ago, and GetTWAP has no value for its default window.
  lemma LateSampleHidesWindow() returns (arrivals: seq<Arrival>, nowNs: int)
    ensures ClockOrdered(arrivals, nowNs / MILLISECOND)
    ensures InWindow(Kept(arrivals), Cutoff(45, nowNs)) == (1.0, 1) && Twap(Kept(arrivals), 45, nowNs) == None
  {
    nowNs := 200_000 * MILLISECOND;
    var a, b := Message(1.0, 200_000, 200_000), Message(2.0, 100_000, 200_000);
    var u, v := PriceUpdate(1.0, 200_000), PriceUpdate(2.0, 100_000);
    HistoriesExtend([], a);
    HistoriesExtend([] + [a], b);
    assert Kept([] + [a]) == [] + [u];
    arrivals := [] + [a] + [b];
    assert Kept(arrivals) == [] + [u] + [v];
    HiddenByLater(Kept(arrivals), u, v, Cutoff(45, nowNs));
  }

  lemma HiddenByLater(h: seq<PriceUpdate>, u: PriceUpdate, v: PriceUpdate, cutoff: int)
    requires h == [] + [u] + [v] && v.time < cutoff <= u.time && u.price > 0.0
    ensures Walk(h, cutoff) == (0.0, 0) && InWindow(h, cutoff) == (u.price, 1)
  {
    assert h[..1] == [] + [u] && h[..1][..0] == [];
    assert InWindow(h[..1], cutoff) == (u.price, 1);
  }
}
