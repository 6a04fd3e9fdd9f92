// The evaluation of one instrument in market-maker-service/internal/strategy/engine.go: quality
// gates, deadband, cooldown, sizing and the conversion to raw token amounts. Prices and notionals
// are exact reals, durations nanoseconds.
module Strategy {
  import opened Prelude
  import opened PoolReaders
  import opened SwapChecks
  import opened RuntimeConfig

  datatype Params = Params(deadband: real, gain: real, minNotional: real, maxNotional: real,
                           cooldownSec: int, circuitBreaker: real, maxSlippage: real)

  // The part of an instrument snapshot that evaluate reads.
  datatype Snapshot = Snapshot(poolMid: real, targetMid: real, deviation: real, poolFresh: bool, targetFresh: bool)

  datatype Decision = Decision(action: Action, amountIn: int, minAmountOut: int, targetPrice: real,
                               poolPrice: real, deviation: real, notionalUSD: real)

  // The per-instrument deadband, raised by a positive trigger in basis points.
  function EffectiveDeadband(p: Params, triggerBps: real): real {
    if triggerBps > 0.0 then MaxReal(p.deadband, triggerBps / 10000.0) else p.deadband
  }

  function EffectiveCooldown(p: Params, overrides: map<string, real>): int {
    var rc := Truncate(GetFloat(overrides, "cooldown_sec", p.cooldownSec as real));
    if rc > 0 then rc else p.cooldownSec
  }

  // Raised to the minimum, then cut to the maximum.
  function Clip(x: real, lo: real, hi: real): real {
    var raised := if x < lo then lo else x;
    if raised > hi then hi else raised
  }

  function Proportional(p: Params, deviation: real): real {
    Abs(p.gain * deviation * p.maxNotional)
  }

  function Notional(p: Params, deviation: real): real {
    Clip(Proportional(p, deviation), p.minNotional, p.maxNotional)
  }

  function TokenUSDPrice(symbol: string, binance: map<string, real>): Option<real> {
    match symbol
    case "USDT-Beta" => Some(1.0)
    case "BTC-Beta" => PositiveQuote("BTCUSDT", binance)
    case "ETH-Beta" => PositiveQuote("ETHUSDT", binance)
    case _ => None
  }

  function PositiveQuote(symbol: string, binance: map<string, real>): Option<real> {
    if symbol in binance && binance[symbol] > 0.0 then Some(binance[symbol]) else None
  }

  function FloatToWei(amount: real, decimals: nat): int {
    if amount <= 0.0 then 0 else (amount * Pow10(decimals)).Floor
  }

  // computeAmountIn for the two actions evaluate can choose.
  function AmountIn(action: Action, inst: Instrument, notional: real, baseUSD: real, quoteUSD: real): int
    requires baseUSD > 0.0 && quoteUSD > 0.0
  {
    match action
    case Sell => FloatToWei(Quotient(notional, baseUSD), inst.base.decimals)
    case Buy => FloatToWei(Quotient(notional, quoteUSD), inst.quote.decimals)
    case Hold => 0
  }

  // lastTrade is None for an instrument that has not traded.
  function Evaluate(inst: Instrument, p: Params, s: Snapshot, binance: map<string, real>,
                    overrides: map<string, real>, triggerBps: real,
                    lastTrade: Option<int>, now: int): Option<Decision>
  {
    if !s.poolFresh || !s.targetFresh then None
    else if s.poolMid <= 0.0 || s.targetMid <= 0.0 then None
    else if p.circuitBreaker > 0.0 && Abs(s.deviation) >= p.circuitBreaker then None
    else if Abs(s.deviation) < EffectiveDeadband(p, GetFloat(overrides, "trigger_bps", triggerBps)) then None
    else
      var cooldown := EffectiveCooldown(p, overrides);
      if cooldown > 0 && lastTrade.Some? && now - lastTrade.value < Wrap64(cooldown * SECOND) then None
      else
        var notional := Notional(p, s.deviation);
        var action := if s.poolMid < s.targetMid then Buy else Sell;
        var quoteUSD, baseUSD := TokenUSDPrice(inst.quote.symbol, binance), TokenUSDPrice(inst.base.symbol, binance);
        if quoteUSD.None? || baseUSD.None? then None
        else if quoteUSD.value <= 0.0 || baseUSD.value <= 0.0 then None
        else
          var amountIn := AmountIn(action, inst, notional, baseUSD.value, quoteUSD.value);
          if amountIn <= 0 then None
          else
            Some(Decision(action, amountIn, MinOut(inst, action, s.poolMid, amountIn, p.maxSlippage),
                          s.targetMid, s.poolMid, s.deviation, notional))
  }

  // ----- exactly when a decision is emitted -----

  // Freshness, positive prices, the circuit threshold, the deadband and a positive trigger.
  ghost predicate GatesClear(p: Params, s: Snapshot, overrides: map<string, real>, triggerBps: real) {
    var d, c := s.deviation, p.circuitBreaker;
    var trigger := if "trigger_bps" in overrides then overrides["trigger_bps"] else triggerBps;
    && s.poolFresh && s.targetFresh && s.poolMid > 0.0 && s.targetMid > 0.0
    && (c > 0.0 ==> -c < d < c)
    && (d >= p.deadband || d <= -p.deadband)
    && (trigger > 0.0 ==> d * 10000.0 >= trigger || d * 10000.0 <= -trigger)
  }

  // sec is the cooldown in force: an override of at least one second, cut to whole seconds, or the
  // instrument's own.
  ghost predicate IsCooldown(p: Params, overrides: map<string, real>, sec: int) {
    if "cooldown_sec" in overrides && overrides["cooldown_sec"] >= 1.0
    then sec as real <= overrides["cooldown_sec"] < sec as real + 1.0
    else sec == p.cooldownSec
  }

  lemma CooldownIs(p: Params, overrides: map<string, real>)
    ensures IsCooldown(p, overrides, EffectiveCooldown(p, overrides))
    ensures forall sec :: IsCooldown(p, overrides, sec) ==> sec == EffectiveCooldown(p, overrides)
  {
  }

  // The cooldown in force has passed since the last trade, as an int64 duration.
  ghost predicate CooledDown(p: Params, overrides: map<string, real>, last: int, now: int) {
    forall sec :: IsCooldown(p, overrides, sec) && sec > 0 ==> now >= last + Wrap64(sec * SECOND)
  }

  // u is the USD price of a token: USDT is worth one dollar, BTC and ETH their positive quotes.
  ghost predicate IsUSDPrice(symbol: string, binance: map<string, real>, u: real) {
    || (symbol == "USDT-Beta" && u == 1.0)
    || (symbol == "BTC-Beta" && "BTCUSDT" in binance && u == binance["BTCUSDT"] && u > 0.0)
    || (symbol == "ETH-Beta" && "ETHUSDT" in binance && u == binance["ETHUSDT"] && u > 0.0)
  }

  lemma USDPriceExactlyWhen(symbol: string, binance: map<string, real>, u: real)
    ensures TokenUSDPrice(symbol, binance) == Some(u) <==> IsUSDPrice(symbol, binance, u)
  {
  }

  // Both tokens have a USD price, and the notional buys at least one raw unit of the one sold:
  // quote below the target, base otherwise.
  ghost predicate Affords(inst: Instrument, p: Params, s: Snapshot, binance: map<string, real>) {
    && (exists b :: IsUSDPrice(inst.base.symbol, binance, b))
    && (exists q :: IsUSDPrice(inst.quote.symbol, binance, q))
    && (if s.poolMid < s.targetMid then OneUnitAt(inst.quote, Notional(p, s.deviation), binance)
        else OneUnitAt(inst.base, Notional(p, s.deviation), binance))
  }

  // The notional is worth a raw unit of the token or more.
  ghost predicate OneUnitAt(token: Token, notional: real, binance: map<string, real>) {
    forall u :: IsUSDPrice(token.symbol, binance, u) ==> u <= Product(notional, Pow10(token.decimals))
  }

  lemma EmitsExactlyWhen(inst: Instrument, p: Params, s: Snapshot, binance: map<string, real>,
                         overrides: map<string, real>, triggerBps: real, lastTrade: Option<int>, now: int)
    ensures Evaluate(inst, p, s, binance, overrides, triggerBps, lastTrade, now).Some? <==>
      (GatesClear(p, s, overrides, triggerBps)
       && (lastTrade.Some? ==> CooledDown(p, overrides, lastTrade.value, now))
       && Affords(inst, p, s, binance))
  {
    CooldownIs(p, overrides);
    GatesAre(p, s, overrides, triggerBps);
    AffordsExactlyWhen(inst, p, s, binance);
  }

  lemma GatesAre(p: Params, s: Snapshot, overrides: map<string, real>, triggerBps: real)
    ensures GatesClear(p, s, overrides, triggerBps) <==>
      (s.poolFresh && s.targetFresh && s.poolMid > 0.0 && s.targetMid > 0.0
       && !(p.circuitBreaker > 0.0 && Abs(s.deviation) >= p.circuitBreaker)
       && Abs(s.deviation) >= EffectiveDeadband(p, GetFloat(overrides, "trigger_bps", triggerBps)))
  {
  }

  function ActionOf(s: Snapshot): Action { if s.poolMid < s.targetMid then Buy else Sell }

  lemma AffordsExactlyWhen(inst: Instrument, p: Params, s: Snapshot, binance: map<string, real>)
    ensures Affords(inst, p, s, binance) <==>
      var b, q := TokenUSDPrice(inst.base.symbol, binance), TokenUSDPrice(inst.quote.symbol, binance);
      b.Some? && q.Some? && b.value > 0.0 && q.value > 0.0
      && AmountIn(ActionOf(s), inst, Notional(p, s.deviation), b.value, q.value) >= 1
  {
    var b, q := TokenUSDPrice(inst.base.symbol, binance), TokenUSDPrice(inst.quote.symbol, binance);
    ThePriceIs(inst.base.symbol, binance);
    ThePriceIs(inst.quote.symbol, binance);
    if b.Some? && q.Some? {
      var notional := Notional(p, s.deviation);
      if s.poolMid < s.targetMid {
        OneUnitExactlyWhen(notional, q.value, inst.quote.decimals, Quotient(notional, q.value));
      } else {
        OneUnitExactlyWhen(notional, b.value, inst.base.decimals, Quotient(notional, b.value));
      }
    }
  }

  lemma ThePriceIs(symbol: string, binance: map<string, real>)
    ensures match TokenUSDPrice(symbol, binance)
      case None => forall u :: !IsUSDPrice(symbol, binance, u)
      case Some(v) => v > 0.0 && IsUSDPrice(symbol, binance, v) && forall u :: IsUSDPrice(symbol, binance, u) ==> u == v
  {
  }

  lemma OneUnitExactlyWhen(notional: real, usd: real, decimals: nat, amount: real)
    requires usd > 0.0 && amount == Quotient(notional, usd)
    ensures 1 <= FloatToWei(amount, decimals) <==> usd <= Product(notional, Pow10(decimals))
  {
    var t := Pow10(decimals);
    assert amount * usd == notional;
    Pow10Positive(decimals);
    FloorIsGreatest(amount * t, 1);
    assert (amount * t) * usd == notional * t by { ScaledProduct(amount, t, usd, notional); }
    MulLe(1.0, amount * t, usd);
    if amount <= 0.0 { MulLe(amount, 0.0, t); }
  }

  // An entry of a market snapshot; the instrument may be missing.
  datatype Entry = Entry(instrument: Option<Instrument>, params: Params, snapshot: Snapshot)

  datatype Market = Market(entries: map<string, Entry>, binance: map<string, real>, generatedAt: int)

  datatype Emission = Emission(id: string, decision: Decision)

  function Lookup(lastTrade: map<string, int>, id: string): Option<int> {
    if id in lastTrade then Some(lastTrade[id]) else None
  }

  function EvaluateEntry(market: Market, overrides: map<string, real>, triggerBps: real, lastTrade: map<string, int>,
                         id: string): Option<Decision>
    requires id in market.entries
  {
    var entry := market.entries[id];
    if entry.instrument.None? then None else
      Evaluate(entry.instrument.value, entry.params, entry.snapshot, market.binance, overrides,
               triggerBps, Lookup(lastTrade, id), market.generatedAt)
  }

  // What an entry needs to be emitted, gate by gate.
  ghost predicate EntryClears(market: Market, overrides: map<string, real>, triggerBps: real,
                              lastTrade: map<string, int>, id: string)
  {
    && id in market.entries && market.entries[id].instrument.Some?
    && (var entry := market.entries[id];
        && GatesClear(entry.params, entry.snapshot, overrides, triggerBps)
        && (id in lastTrade ==> CooledDown(entry.params, overrides, lastTrade[id], market.generatedAt))
        && Affords(entry.instrument.value, entry.params, entry.snapshot, market.binance))
  }

  lemma EntryEmitsExactlyWhen(market: Market, overrides: map<string, real>, triggerBps: real,
                              lastTrade: map<string, int>, id: string)
    requires id in market.entries
    ensures EvaluateEntry(market, overrides, triggerBps, lastTrade, id).Some?
       <==> EntryClears(market, overrides, triggerBps, lastTrade, id)
  {
    var entry := market.entries[id];
    if entry.instrument.Some? {
      EmitsExactlyWhen(entry.instrument.value, entry.params, entry.snapshot, market.binance, overrides, triggerBps,
                       Lookup(lastTrade, id), market.generatedAt);
    }
  }

  class Engine {
    var lastTrade: map<string, int>
    const triggerBps: real

    constructor (triggerBps: real)
      ensures this.triggerBps == triggerBps && lastTrade == map[]
    {
      this.triggerBps := triggerBps;
      lastTrade := map[];
    }

    method MarkExecuted(id: string, when: int)
      modifies this
      ensures lastTrade == old(lastTrade)[id := when]
    {
      lastTrade := lastTrade[id := when];
    }

    // The entries in any order: each that clears its gates is emitted once with its decision, no
    // other is. An instrument that has traded is among them only once it has cooled down.
    method Decide(market: Market, overrides: map<string, real>) returns (out: seq<Emission>)
      ensures forall k :: 0 <= k < |out| ==>
        out[k].id in market.entries
        && EvaluateEntry(market, overrides, triggerBps, lastTrade, out[k].id) == Some(out[k].decision)
      ensures forall j, k :: 0 <= j < k < |out| ==> out[j].id != out[k].id
      ensures forall id :: Emits(out, id) <==> EntryClears(market, overrides, triggerBps, lastTrade, id)
      ensures forall k :: 0 <= k < |out| && out[k].id in lastTrade ==>
        CooledDown(market.entries[out[k].id].params, overrides, lastTrade[out[k].id], market.generatedAt)
    {
      out := [];
      var left := market.entries.Keys;
      while left != {}
        invariant left <= market.entries.Keys
        invariant forall k :: 0 <= k < |out| ==> out[k].id in market.entries.Keys - left
        invariant forall k :: 0 <= k < |out| ==>
          EvaluateEntry(market, overrides, triggerBps, lastTrade, out[k].id) == Some(out[k].decision)
        invariant forall j, k :: 0 <= j < k < |out| ==> out[j].id != out[k].id
        invariant forall id :: id in market.entries.Keys - left ==>
          (EvaluateEntry(market, overrides, triggerBps, lastTrade, id).Some? ==> Emits(out, id))
      {
        var id :| id in left;
        left := left - {id};
        var d := EvaluateEntry(market, overrides, triggerBps, lastTrade, id);
        if d.Some? {
          ghost var before := out;
          out := out + [Emission(id, d.value)];
          assert out[|before|].id == id;
          forall other | Emits(before, other) ensures Emits(out, other) {
            var k :| 0 <= k < |before| && before[k].id == other;
            assert out[k].id == other;
          }
        }
      }
      forall id ensures Emits(out, id) <==> EntryClears(market, overrides, triggerBps, lastTrade, id) {
        if id in market.entries {
          EntryEmitsExactlyWhen(market, overrides, triggerBps, lastTrade, id);
        }
      }
      forall k | 0 <= k < |out| && out[k].id in lastTrade
        ensures CooledDown(market.entries[out[k].id].params, overrides, lastTrade[out[k].id], market.generatedAt)
      {
        assert Emits(out, out[k].id);
      }
    }
  }

  ghost predicate Emits(out: seq<Emission>, id: string) {
    exists k :: 0 <= k < |out| && out[k].id == id
  }

  // ----- runs of marks and decisions -----

  datatype Act = Marked(id: string, when: int) | Decided(market: Market, overrides: map<string, real>)

  // The field after a run that started empty.
  function Trades(acts: seq<Act>): map<string, int> {
    if acts == [] then map[] else
      var before := Trades(acts[..|acts| - 1]);
      match acts[|acts| - 1]
      case Marked(id, when) => before[id := when]
      case Decided(_, _) => before
  }

  // Act j is the last mark of the instrument among the first n.
  ghost predicate LastMark(acts: seq<Act>, n: nat, id: string, j: nat) {
    && j < n <= |acts| && acts[j].Marked? && acts[j].id == id
    && (forall i :: j < i < n ==> !(acts[i].Marked? && acts[i].id == id))
  }

  lemma {:induction false} TradesHoldLastMark(acts: seq<Act>, n: nat, id: string, j: nat)
    requires LastMark(acts, n, id, j)
    ensures id in Trades(acts[..n]) && Trades(acts[..n])[id] == acts[j].when
    decreases n
  {
    assert acts[..n][..n - 1] == acts[..n - 1];
    if j < n - 1 {
      TradesHoldLastMark(acts, n - 1, id, j);
    }
  }

  // In every run, a decision for an instrument falls in a snapshot generated no earlier than the
  // cooldown after its last mark; and a cooled-down instrument whose other gates are clear gets one.
  lemma DecisionsKeepCooldown(acts: seq<Act>, j: nat, k: nat, id: string, triggerBps: real)
    requires k < |acts| && acts[k].Decided? && LastMark(acts, k, id, j) && id in acts[k].market.entries
    ensures var market, overrides, params := acts[k].market, acts[k].overrides, acts[k].market.entries[id].params;
      EvaluateEntry(market, overrides, triggerBps, Trades(acts[..k]), id).Some? <==>
        (EntryClears(market, overrides, triggerBps, map[], id)
         && CooledDown(params, overrides, acts[j].when, market.generatedAt))
  {
    TradesHoldLastMark(acts, k, id, j);
    EntryEmitsExactlyWhen(acts[k].market, acts[k].overrides, triggerBps, Trades(acts[..k]), id);
  }

  // The notional stays between its bounds, is proportional to the deviation where that fits, and
  // never falls as the deviation grows.
  lemma NotionalIsClamped(p: Params, deviation: real)
    requires 0.0 <= p.minNotional <= p.maxNotional
    ensures p.minNotional <= Notional(p, deviation) <= p.maxNotional
    ensures var n := Proportional(p, deviation);
      p.minNotional <= n <= p.maxNotional ==> Notional(p, deviation) == n
  {
  }

  // The size of gain * deviation * maximum where that fits, the nearer bound where it does not.
  lemma NotionalIs(p: Params, deviation: real, x: real)
    requires 0.0 <= p.minNotional <= p.maxNotional && x == p.gain * deviation * p.maxNotional
    ensures p.minNotional <= x <= p.maxNotional ==> Notional(p, deviation) == x
    ensures p.minNotional <= -x <= p.maxNotional ==> Notional(p, deviation) == -x
    ensures -p.minNotional <= x <= p.minNotional ==> Notional(p, deviation) == p.minNotional
    ensures x >= p.maxNotional || x <= -p.maxNotional ==> Notional(p, deviation) == p.maxNotional
  {
    assert Proportional(p, deviation) == Abs(x);
  }

  lemma NotionalMonotone(p: Params, d: real, e: real)
    requires Abs(d) <= Abs(e)
    ensures Notional(p, d) <= Notional(p, e)
  {
    ProportionalMonotone(p, d, e);
    ClipMonotone(Proportional(p, d), Proportional(p, e), p.minNotional, p.maxNotional);
  }

  lemma ClipMonotone(x: real, y: real, lo: real, hi: real)
    requires x <= y
    ensures Clip(x, lo, hi) <= Clip(y, lo, hi)
  {
  }

  lemma ProportionalMonotone(p: Params, d: real, e: real)
    requires Abs(d) <= Abs(e)
    ensures Proportional(p, d) <= Proportional(p, e)
  {
    AbsOfProduct3(p.gain, d, p.maxNotional);
    AbsOfProduct3(p.gain, e, p.maxNotional);
    MonotoneTimes(Abs(d), Abs(e), Abs(p.gain) * Abs(p.maxNotional));
  }

  lemma AbsOfProduct3(g: real, d: real, m: real)
    ensures Abs(g * d * m) == Abs(d) * (Abs(g) * Abs(m)) && Abs(g) * Abs(m) >= 0.0
  {
    AbsOfProduct(g, d);
    AbsOfProduct(g * d, m);
    assert Abs(g) * Abs(d) * Abs(m) == Abs(d) * (Abs(g) * Abs(m));
  }

  lemma AbsOfProduct(x: real, y: real)
    ensures Abs(x * y) == Abs(x) * Abs(y)
  {
  }

  // a is the largest number of raw units, of a token with this USD price, that the notional buys.
  ghost predicate TightlySized(a: int, usd: real, notional: real, decimals: nat) {
    a as real * usd <= notional * Pow10(decimals) < (a + 1) as real * usd
  }

  lemma SizingIsTight(notional: real, usd: real, decimals: nat)
    requires usd > 0.0 && notional >= 0.0
    ensures TightlySized(FloatToWei(Quotient(notional, usd), decimals), usd, notional, decimals)
  {
    var amount := notional / usd;
    assert amount * usd == notional;
    if amount <= 0.0 {
      assert amount == 0.0 by { MulLe(0.0, amount, usd); }
      assert notional * Pow10(decimals) == 0.0;
    } else {
      var x := amount * Pow10(decimals);
      ScaledProduct(amount, Pow10(decimals), usd, notional);
      FloorTimesPrice(x, FloatToWei(amount, decimals), usd, notional * Pow10(decimals));
    }
  }

  lemma ScaledProduct(amount: real, t: real, usd: real, notional: real)
    requires amount * usd == notional
    ensures (amount * t) * usd == notional * t
  {
  }

  lemma FloorTimesPrice(x: real, a: int, usd: real, value: real)
    requires usd > 0.0 && a == x.Floor && x * usd == value
    ensures a as real * usd <= value < (a + 1) as real * usd
  {
    ProductOrder(a as real, x, (a + 1) as real, usd, value);
  }

  lemma ProductOrder(lo: real, x: real, hi: real, k: real, value: real)
    requires lo <= x < hi && k > 0.0 && x * k == value
    ensures lo * k <= value < hi * k
  {
  }

  // The token a decision sells, and its USD price.
  function SoldToken(inst: Instrument, action: Action): Token {
    if action == Sell then inst.base else inst.quote
  }

  // A decision that is sound for its inputs: it rests on fresh prices, comes at least the cooldown
  // after the last trade, sells the dear side, clears deadband and trigger below the circuit
  // threshold, is sized tightly within the bounds, asks for the expected output less the slippage
  // rounded down, and passes the unsliced V4 precheck exactly if that minimum is positive.
  ghost predicate Sound(inst: Instrument, p: Params, s: Snapshot, binance: map<string, real>,
                        overrides: map<string, real>, triggerBps: real, lastTrade: Option<int>, now: int, d: Decision)
  {
    && s.poolFresh && s.targetFresh && s.poolMid > 0.0 && s.targetMid > 0.0
    && d.poolPrice == s.poolMid && d.targetPrice == s.targetMid && d.deviation == s.deviation
    && (var cooldown := EffectiveCooldown(p, overrides);
        cooldown > 0 && lastTrade.Some? ==> now >= lastTrade.value + Wrap64(cooldown * SECOND))
    && GatesClear(p, s, overrides, triggerBps)
    && GetFloat(overrides, "trigger_bps", triggerBps) <= Abs(d.deviation) * 10000.0
    && (d.action == Buy <==> s.poolMid < s.targetMid) && (d.action == Sell <==> s.poolMid >= s.targetMid)
    && p.deadband <= Abs(d.deviation) && (p.circuitBreaker > 0.0 ==> Abs(d.deviation) < p.circuitBreaker)
    && d.notionalUSD == Notional(p, s.deviation) && p.minNotional <= d.notionalUSD <= p.maxNotional
    && (var sold := SoldToken(inst, d.action);
        var usd := TokenUSDPrice(sold.symbol, binance);
        usd.Some? && d.amountIn >= 1 && TightlySized(d.amountIn, usd.value, d.notionalUSD, sold.decimals))
    && (var least := LessSlippage(ExpectedOut(inst, d.action, d.poolPrice, d.amountIn), p.maxSlippage);
        d.minAmountOut as real <= least < d.minAmountOut as real + 1.0)
    && (V4Precheck(inst, d.action, d.poolPrice, Some(d.amountIn), Some(d.minAmountOut)) == Pass
        <==> 1 <= d.minAmountOut)
  }

  // The duration is the cooldown up to 9223372036 s; one second more and it blocks nothing.
  lemma CooldownDuration(cooldown: int)
    ensures 0 < cooldown <= 9_223_372_036 ==> Wrap64(cooldown * SECOND) == cooldown * SECOND
    ensures cooldown == 9_223_372_037 ==> Wrap64(cooldown * SECOND) < 0
  {
  }

  lemma EmittedDecisionIsSound(inst: Instrument, p: Params, s: Snapshot, binance: map<string, real>,
                               overrides: map<string, real>, triggerBps: real, lastTrade: Option<int>, now: int)
    requires 0.0 <= p.minNotional <= p.maxNotional
    ensures var d := Evaluate(inst, p, s, binance, overrides, triggerBps, lastTrade, now);
      d.Some? ==> Sound(inst, p, s, binance, overrides, triggerBps, lastTrade, now, d.value)
  {
    var r := Evaluate(inst, p, s, binance, overrides, triggerBps, lastTrade, now);
    if r.Some? {
      var d := r.value;
      GatesAre(p, s, overrides, triggerBps);
      NotionalIsClamped(p, s.deviation);
      var sold := SoldToken(inst, d.action);
      SizingIsTight(d.notionalUSD, TokenUSDPrice(sold.symbol, binance).value, sold.decimals);
      UnslicedOrderPasses(inst, d.action, d.poolPrice, d.amountIn, p.maxSlippage);
    }
  }

  // The strategy does emit orders that V4 then rejects: 0.000000000000003 USD of ETH at 3000.
  lemma EmittedOrderCanBeRejected()
    ensures var inst := Instrument(Token("ETH-Beta", 1, 18), Token("USDT-Beta", 2, 6));
      var p := Params(0.0, 0.0, 0.000000000000003, 2000.0, 0, 0.0, 0.01);
      var s := Snapshot(3000.0, 3000.0, 0.0, true, true);
      var d := Evaluate(inst, p, s, map["ETHUSDT" := 3000.0], map[], 0.0, None, 0);
      && d.Some? && d.value.action == Sell && d.value.amountIn == 1 && d.value.minAmountOut == 0
      && V4Precheck(inst, Sell, d.value.poolPrice, Some(d.value.amountIn), Some(d.value.minAmountOut)) == MissingMinOut
  {
    var inst := Instrument(Token("ETH-Beta", 1, 18), Token("USDT-Beta", 2, 6));
    var p := Params(0.0, 0.0, 0.000000000000003, 2000.0, 0, 0.0, 0.01);
    PowerOfEighteen();
    assert Notional(p, 0.0) == 0.000000000000003;
    var amount := 0.000000000000003 / 3000.0;
    assert amount == 0.000000000000000001;
    assert FloatToWei(amount, 18) == 1;
    ZeroMinimumIsRejected();
  }
}
