// The risk gate of market-maker-service/internal/risk/guard.go, with checkBreakers of
// internal/sync/engine.go as the only caller of TripCircuit. Clock readings are nanoseconds,
// days are UTC day numbers, money is exact reals; one mutex-protected body is one step.
module RiskGuard {
  import opened Prelude

  // time.Duration: int64 nanoseconds. Every sum and product below is checked to fit.
  newtype Duration = x: int | -0x8000_0000_0000_0000 <= x < 0x8000_0000_0000_0000

  datatype InstrumentState = InstrumentState(circuitOpen: bool, consecutiveFails: nat, backoffUntil: Option<int>)

  const FRESH := InstrumentState(false, 0, None)

  function Look(states: map<string, InstrumentState>, id: string): InstrumentState {
    if id in states then states[id] else FRESH
  }

  // ----- back-off -----

  function Pow3(n: nat): (p: nat)
    ensures p >= 1
  {
    if n == 0 then 1 else 3 * Pow3(n - 1)
  }

  // The documented schedule: 5 s, 15 s, 45 s, ... capped at 5 minutes.
  function Backoff(fails: nat): int
    requires fails >= 1
  {
    var b := 5 * Pow3(fails - 1);
    (if b > 300 then 300 else b) * SECOND
  }

  lemma {:induction false} Pow3Monotone(m: nat, n: nat)
    requires m <= n
    ensures Pow3(m) <= Pow3(n)
    decreases n
  {
    if m < n {
      Pow3Monotone(m, n - 1);
    }
  }

  // The loop of RecordFailure, over int64 nanoseconds.
  method ComputeBackoff(fails: nat) returns (backoff: Duration)
    requires fails >= 1
    ensures backoff as int == Backoff(fails)
  {
    var fiveMinutes: Duration := 300_000_000_000;
    backoff := 5_000_000_000;
    var i := 1;
    while i < fails && backoff < fiveMinutes
      invariant 1 <= i <= fails
      invariant 0 < backoff < 900_000_000_000
      invariant backoff as int == 5 * Pow3(i - 1) * SECOND
    {
      backoff := backoff * 3;
      i := i + 1;
    }
    Pow3Monotone(i - 1, fails - 1);
    if backoff > fiveMinutes {
      backoff := fiveMinutes;
    }
  }

  function AfterFailure(st: InstrumentState, now: int): InstrumentState {
    var f := st.consecutiveFails + 1;
    st.(consecutiveFails := f, backoffUntil := Some(now + Backoff(f)))
  }

  function AfterSuccess(st: InstrumentState): InstrumentState {
    st.(consecutiveFails := 0, backoffUntil := None)
  }

  // ----- the circuit -----

  // What checkBreakers reads of an instrument.
  datatype Reading = Reading(usable: bool, deviation: real, threshold: real, cooldownSec: int)

  function Cooldown(cooldownSec: int): int {
    var cd := Wrap64(cooldownSec * SECOND);
    if cd <= 0 then 120 * SECOND else cd
  }

  predicate Trips(r: Reading) {
    r.usable && r.threshold > 0.0 && Abs(r.deviation) >= r.threshold
  }

  // The deviation is at least the threshold away from zero, on either side.
  predicate MustTrip(r: Reading) {
    r.usable && r.threshold > 0.0 && (r.deviation >= r.threshold || r.deviation <= -r.threshold)
  }

  // ----- Allow -----

  datatype Candidate = Candidate(poolPrice: real, targetPrice: real, notionalUSD: real, deviation: real)

  // The gas price in wei, None without a client or an answer; the ETH price, None if unavailable.
  datatype Market = Market(gasPrice: Option<nat>, ethPrice: Option<real>)

  datatype Limits = Limits(gasCapGwei: int, maxGasUSD: real, dailyBudget: real, minNetEdge: real)

  datatype Reason = QualityInvalid | BackingOff | CircuitOpen | GasCap | GasUSDCap | DailyBudget | NetEdge
  datatype Verdict = Allowed | Denied(reason: Reason)

  // dayKey and dayGas.
  datatype Meter = Meter(day: Option<int>, gas: real)

  function GasUSD(gasPrice: nat, ethPrice: real): real {
    (gasPrice * 250_000) as real / 1000000000000000000.0 * ethPrice
  }

  // In multiplied-out form: 250000 units of gas at the price, in ether of 10^18 wei, in dollars.
  lemma GasUSDIs(gasPrice: nat, ethPrice: real)
    ensures Product(GasUSD(gasPrice, ethPrice), 1000000000000000000.0) == Product(gasPrice as real * 250000.0, ethPrice)
  {
    var x := (gasPrice * 250_000) as real / 1000000000000000000.0;
    assert x * 1000000000000000000.0 == gasPrice as real * 250000.0;
    assert (x * ethPrice) * 1000000000000000000.0 == (x * 1000000000000000000.0) * ethPrice;
  }

  // A new day starts from nothing.
  lemma RolledIs(m: Meter, day: int)
    ensures Rolled(m, day).day == Some(day) && (m.day == Some(day) ==> Rolled(m, day).gas == m.gas)
    ensures m.day != Some(day) ==> Rolled(m, day).gas == 0.0
  {
  }

  function Rolled(m: Meter, day: int): Meter {
    if m.day == Some(day) then m else Meter(Some(day), 0.0)
  }

  // consumeDailyBudget.
  function Consume(m: Meter, day: int, amount: real, budget: real): (bool, Meter) {
    var r := Rolled(m, day);
    if r.gas + amount > budget then (false, r) else (true, r.(gas := r.gas + amount))
  }

  // Whether a decision that gets that far is charged to the daily budget.
  predicate Metered(mk: Market, lim: Limits) {
    mk.gasPrice.Some? && lim.maxGasUSD > 0.0 && mk.ethPrice.Some? && mk.ethPrice.value > 0.0 && lim.dailyBudget > 0.0
  }

  // Allow reads backoffUntil, then circuitOpen, then charges the meter, with no lock around them:
  // each argument is what it finds at that moment.
  function Judge(backoffUntil: Option<int>, circuitOpen: bool, m: Meter,
                 d: Candidate, mk: Market, lim: Limits, now: int, day: int): (Verdict, Meter)
  {
    if d.poolPrice <= 0.0 || d.targetPrice <= 0.0 then (Denied(QualityInvalid), m)
    else if backoffUntil.Some? && now < backoffUntil.value then (Denied(BackingOff), m)
    else if circuitOpen then (Denied(CircuitOpen), m)
    else if mk.gasPrice.None? then (Allowed, m)
    else if mk.gasPrice.value > lim.gasCapGwei * 1_000_000_000 then (Denied(GasCap), m)
    else if lim.maxGasUSD <= 0.0 || mk.ethPrice.None? || mk.ethPrice.value <= 0.0 then (Allowed, m)
    else
      var gasUSD := GasUSD(mk.gasPrice.value, mk.ethPrice.value);
      if gasUSD > lim.maxGasUSD then (Denied(GasUSDCap), m)
      else
        var (within, m1) := if lim.dailyBudget > 0.0 then Consume(m, day, gasUSD, lim.dailyBudget) else (true, m);
        if !within then (Denied(DailyBudget), m1)
        else if d.notionalUSD * Abs(d.deviation) - gasUSD < lim.minNetEdge then (Denied(NetEdge), m1)
        else (Allowed, m1)
  }

  datatype Interference = Interference(states: map<string, InstrumentState>, clears: map<string, seq<int>>,
                                       meter: Meter)

  class Guard {
    var states: map<string, InstrumentState>
    var clears: map<string, seq<int>> // due times of the pending clearing goroutines
    var dayKey: Option<int>
    var dayGas: real

    constructor ()
      ensures states == map[] && clears == map[] && dayKey == None && dayGas == 0.0
    {
      states, clears, dayKey, dayGas := map[], map[], None, 0.0;
    }

    method StateOf(id: string) returns (st: InstrumentState)
      modifies this`states
      ensures st == Look(old(states), id) && states == old(states)[id := st]
    {
      if id !in states {
        states := states[id := FRESH];
      }
      st := states[id];
    }

    method RecordSuccess(id: string)
      modifies this`states
      ensures states == old(states)[id := AfterSuccess(Look(old(states), id))]
      ensures states[id] == InstrumentState(old(Look(states, id).circuitOpen), 0, None)
    {
      var st := StateOf(id);
      states := states[id := st.(consecutiveFails := 0, backoffUntil := None)];
    }

    method RecordFailure(id: string, now: int)
      modifies this`states
      ensures states == old(states)[id := AfterFailure(Look(old(states), id), now)]
      ensures var fails := old(Look(states, id).consecutiveFails) + 1;
        states[id] == InstrumentState(old(Look(states, id).circuitOpen), fails, Some(now + Backoff(fails)))
    {
      var st := StateOf(id);
      var fails := st.consecutiveFails + 1;
      var backoff := ComputeBackoff(fails);
      states := states[id := st.(consecutiveFails := fails, backoffUntil := Some(now + backoff as int))];
    }

    method TripCircuit(id: string, now: int, openFor: int)
      modifies this`states, this`clears
      ensures states == old(states)[id := Look(old(states), id).(circuitOpen := true)]
      ensures clears == old(clears)[id := (if id in old(clears) then old(clears)[id] else []) + [now + openFor]]
    {
      var st := StateOf(id);
      states := states[id := st.(circuitOpen := true)];
      var pending := if id in clears then clears[id] else [];
      clears := clears[id := pending + [now + openFor]];
    }

    // The goroutine TripCircuit started wakes up after its sleep.
    method ClearFires(id: string, k: nat)
      requires id in clears && k < |clears[id]|
      modifies this`states, this`clears
      ensures states == old(states)[id := Look(old(states), id).(circuitOpen := false)]
      ensures clears == old(clears)[id := old(clears)[id][..k] + old(clears)[id][k + 1..]]
    {
      var st := StateOf(id);
      states := states[id := st.(circuitOpen := false)];
      clears := clears[id := clears[id][..k] + clears[id][k + 1..]];
    }

    // The due times of the pending clearing timers of an instrument.
    function DueOf(id: string): seq<int>
      reads this`clears
    {
      if id in clears then clears[id] else []
    }

    ghost function CircuitOf(id: string): Circuit
      reads this`states, this`clears
    {
      Circuit(Look(states, id).circuitOpen, DueOf(id))
    }

    method CheckBreaker(id: string, r: Reading, now: int)
      modifies this`states, this`clears
      ensures CircuitOf(id) == PolledCircuit(old(CircuitOf(id)), r, now)
      ensures MustTrip(r) ==> Look(states, id).circuitOpen
      ensures forall k :: k != id ==> CircuitOf(k) == old(CircuitOf(k))
      ensures forall k :: SameBackoff(Look(states, k), Look(old(states), k))
    {
      if r.usable && r.threshold > 0.0 && Abs(r.deviation) >= r.threshold {
        var st := StateOf(id);
        if !st.circuitOpen {
          var cd := Wrap64(r.cooldownSec * SECOND);
          if cd <= 0 {
            cd := 120 * SECOND;
          }
          TripCircuit(id, now, cd);
        }
      }
    }

    // checkBreakers: every instrument of the snapshot, in any order.
    method CheckBreakers(snap: map<string, Reading>, now: int)
      modifies this`states, this`clears
      ensures forall id :: CircuitOf(id) == PolledIn(snap, snap.Keys, id, old(CircuitOf(id)), now)
      ensures forall id :: id in snap && MustTrip(snap[id]) ==> Look(states, id).circuitOpen
      ensures forall id :: PolledAsDue(snap, id, old(CircuitOf(id)), CircuitOf(id), now)
      ensures forall id :: SameBackoff(Look(states, id), Look(old(states), id))
    {
      var left := snap.Keys;
      while left != {}
        invariant left <= snap.Keys
        invariant forall id :: CircuitOf(id) == PolledIn(snap, snap.Keys - left, id, old(CircuitOf(id)), now)
        invariant forall id :: SameBackoff(Look(states, id), Look(old(states), id))
      {
        var id :| id in left;
        CheckBreaker(id, snap[id], now);
        left := left - {id};
      }
      forall id ensures PolledAsDue(snap, id, old(CircuitOf(id)), CircuitOf(id), now) {
        if id in snap {
          PolledCircuitIs(old(CircuitOf(id)), snap[id], now);
        }
      }
      forall id | id in snap && MustTrip(snap[id]) ensures Look(states, id).circuitOpen {
        assert PolledAsDue(snap, id, old(CircuitOf(id)), CircuitOf(id), now);
      }
    }

    method ConsumeDailyBudget(day: int, amount: real, budget: real) returns (ok: bool)
      modifies this`dayKey, this`dayGas
      ensures (ok, Meter(dayKey, dayGas)) == Consume(old(Meter(dayKey, dayGas)), day, amount, budget)
    {
      if dayKey != Some(day) {
        dayKey := Some(day);
        dayGas := 0.0;
      }
      if dayGas + amount > budget {
        return false;
      }
      dayGas := dayGas + amount;
      return true;
    }

    // others is what the other goroutines have made of the states and the meter between this
    // call's read of the back-off and its later steps; entries are never removed.
    method Allow(id: string, d: Candidate, mk: Market, lim: Limits, now: int, day: int, others: Interference)
      returns (v: Verdict)
      requires id in others.states
      modifies this
      ensures (v, Meter(dayKey, dayGas))
        == Judge(Look(old(states), id).backoffUntil, others.states[id].circuitOpen, others.meter, d, mk, lim, now, day)
      ensures states == others.states && clears == others.clears
    {
      var st := StateOf(id);
      var backoffUntil := st.backoffUntil;
      states, clears, dayKey, dayGas := others.states, others.clears, others.meter.day, others.meter.gas;
      st := states[id];
      if d.poolPrice <= 0.0 || d.targetPrice <= 0.0 {
        return Denied(QualityInvalid);
      }
      if backoffUntil.Some? && now < backoffUntil.value {
        return Denied(BackingOff);
      }
      if st.circuitOpen {
        return Denied(CircuitOpen);
      }
      if mk.gasPrice.Some? {
        if mk.gasPrice.value > lim.gasCapGwei * 1_000_000_000 {
          return Denied(GasCap);
        }
        if lim.maxGasUSD > 0.0 && mk.ethPrice.Some? && mk.ethPrice.value > 0.0 {
          var gasUSD := GasUSD(mk.gasPrice.value, mk.ethPrice.value);
          if gasUSD > lim.maxGasUSD {
            return Denied(GasUSDCap);
          }
          if lim.dailyBudget > 0.0 {
            var within := ConsumeDailyBudget(day, gasUSD, lim.dailyBudget);
            if !within {
              return Denied(DailyBudget);
            }
          }
          if d.notionalUSD * Abs(d.deviation) - gasUSD < lim.minNetEdge {
            return Denied(NetEdge);
          }
        }
      }
      return Allowed;
    }
  }

  // ----- every run of failures -----

  // The state after failures at the given times, with no success in between.
  function FailedAt(times: seq<int>): InstrumentState {
    if times == [] then FRESH else AfterFailure(FailedAt(times[..|times| - 1]), times[|times| - 1])
  }

  // After f failures in a row the back-off runs for min(300, 5 * 3^(f-1)) seconds from the last
  // one, and as long as the clock does not go back it never ends earlier than it did before.
  lemma {:induction false} BackoffNeverMovesEarlier(times: seq<int>, k: nat)
    requires 0 < k <= |times|
    requires forall i, j :: 0 <= i <= j < |times| ==> times[i] <= times[j]
    ensures FailedAt(times).consecutiveFails == |times|
    ensures FailedAt(times).backoffUntil == Some(times[|times| - 1] + Backoff(|times|))
    ensures FailedAt(times[..k]).backoffUntil.Some?
    ensures FailedAt(times[..k]).backoffUntil.value <= FailedAt(times).backoffUntil.value
    decreases |times|
  {
    var n := |times|;
    if k < n {
      assert times[..n - 1][..k] == times[..k];
      BackoffNeverMovesEarlier(times[..n - 1], k);
      Pow3Monotone(n - 2, n - 1);
    } else {
      assert times[..k] == times;
      if n > 1 {
        BackoffNeverMovesEarlier(times[..n - 1], n - 1);
      }
    }
  }

  // Everything that can happen to an instrument's state.
  datatype Touch = Succeeded | FailedNow(at: int) | SetCircuit(open: bool) | Asked

  function Touched(touches: seq<Touch>): InstrumentState {
    if touches == [] then FRESH else
      var st := Touched(touches[..|touches| - 1]);
      match touches[|touches| - 1]
      case Succeeded => AfterSuccess(st)
      case FailedNow(at) => AfterFailure(st, at)
      case SetCircuit(open) => st.(circuitOpen := open)
      case Asked => st
  }

  // The failures since the last success.
  function FailTimes(touches: seq<Touch>): seq<int> {
    if touches == [] then [] else
      var times := FailTimes(touches[..|touches| - 1]);
      match touches[|touches| - 1]
      case Succeeded => []
      case FailedNow(at) => times + [at]
      case _ => times
  }

  // Trips, clears and Allow calls in between do not matter.
  lemma {:induction false} BackoffFollowsFailures(touches: seq<Touch>)
    ensures SameBackoff(Touched(touches), FailedAt(FailTimes(touches)))
  {
    if touches != [] {
      var before := touches[..|touches| - 1];
      BackoffFollowsFailures(before);
      if touches[|touches| - 1].FailedNow? {
        var times := FailTimes(before);
        assert (times + [touches[|touches| - 1].at])[..|times|] == times;
      }
    }
  }

  // In every run, no decision is allowed before the back-off of any failure since the last success
  // has ended, whatever happens after the back-off is read.
  lemma NothingAllowedWhileBackingOff(touches: seq<Touch>, k: nat, circuitOpen: bool, m: Meter,
                                      d: Candidate, mk: Market, lim: Limits, now: int, day: int)
    requires var times := FailTimes(touches);
      && 0 < k <= |times| && (forall i, j :: 0 <= i <= j < |times| ==> times[i] <= times[j])
      && now < times[k - 1] + Backoff(k)
    ensures Judge(Touched(touches).backoffUntil, circuitOpen, m, d, mk, lim, now, day).0.Denied?
  {
    var times := FailTimes(touches);
    BackoffFollowsFailures(touches);
    BackoffNeverMovesEarlier(times, k);
    BackoffNeverMovesEarlier(times[..k], k);
  }

  // ----- every run of an instrument's circuit -----

  // circuitOpen, and the due times of the pending clearing timers.
  datatype Circuit = Circuit(open: bool, due: seq<int>)

  function Tripped(c: Circuit, now: int, openFor: int): Circuit {
    Circuit(true, c.due + [now + openFor])
  }

  function PolledCircuit(c: Circuit, r: Reading, now: int): Circuit {
    if Trips(r) && !c.open then Tripped(c, now, Cooldown(r.cooldownSec)) else c
  }

  // The circuit of instrument id after the polls of the instruments in done.
  function PolledIn(snap: map<string, Reading>, done: set<string>, id: string, c: Circuit, now: int): Circuit {
    if id in snap && id in done then PolledCircuit(c, snap[id], now) else c
  }

  // After a trip at now: one more timer, due after the cooldown, or after two minutes if none is
  // configured. Cooldowns beyond 9223372036 s overflow.
  ghost predicate TripTimer(before: seq<int>, after: seq<int>, cooldownSec: int, now: int) {
    && (0 < cooldownSec <= 9_223_372_036 ==> after == before + [now + cooldownSec * 1_000_000_000])
    && (-9_223_372_036 <= cooldownSec <= 0 ==> after == before + [now + 120_000_000_000])
  }

  // An instrument in the snapshot over its threshold has its closed circuit opened with one timer;
  // every other circuit, open ones included, is as before.
  ghost predicate PolledAsDue(snap: map<string, Reading>, id: string, before: Circuit, after: Circuit, now: int) {
    if id in snap && MustTrip(snap[id]) && !before.open
    then after.open && TripTimer(before.due, after.due, snap[id].cooldownSec, now)
    else after == before
  }

  // A poll trips exactly a closed circuit over its threshold.
  lemma PolledCircuitIs(c: Circuit, r: Reading, now: int)
    ensures var d := PolledCircuit(c, r, now);
      if MustTrip(r) && !c.open then d.open && TripTimer(c.due, d.due, r.cooldownSec, now)
      else d == c
  {
  }

  predicate SameBackoff(a: InstrumentState, b: InstrumentState) {
    a.backoffUntil == b.backoffUntil && a.consecutiveFails == b.consecutiveFails
  }

  // The poll loop polls, any timer that is due may fire, time passes; openedAt and cooldown
  // remember the last trip.
  datatype Watch = Watch(now: int, circuit: Circuit, openedAt: int, cooldown: int)
  datatype Happening = Poll(reading: Reading) | Fire(timer: nat) | Wait(elapsed: nat)

  function Happen(w: Watch, h: Happening): Watch {
    match h
    case Poll(r) =>
      var c := PolledCircuit(w.circuit, r, w.now);
      if c == w.circuit then w else Watch(w.now, c, w.now, Cooldown(r.cooldownSec))
    case Fire(k) =>
      if k < |w.circuit.due| && w.circuit.due[k] <= w.now then
        w.(circuit := Circuit(false, w.circuit.due[..k] + w.circuit.due[k + 1..]))
      else w
    case Wait(elapsed) => w.(now := w.now + elapsed)
  }

  function Watched(w: Watch, hs: seq<Happening>): Watch {
    if hs == [] then w else Happen(Watched(w, hs[..|hs| - 1]), hs[|hs| - 1])
  }

  // Open exactly when one clearing timer is pending, and that timer is the last trip's.
  ghost predicate OneTimer(w: Watch) {
    if w.circuit.open then w.circuit.due == [w.openedAt + w.cooldown] else w.circuit.due == []
  }

  lemma {:induction false} CircuitHasOneTimer(start: int, hs: seq<Happening>)
    ensures OneTimer(Watched(Watch(start, Circuit(false, []), start, 0), hs))
  {
    if hs != [] {
      CircuitHasOneTimer(start, hs[..|hs| - 1]);
    }
  }

  // From a trip on, whatever happens, the circuit stays open until its full cooldown has passed.
  lemma {:induction false} TripLastsItsCooldown(w: Watch, hs: seq<Happening>)
    requires OneTimer(w) && w.circuit.open
    requires Watched(w, hs).now < w.openedAt + w.cooldown
    ensures Watched(w, hs).circuit == w.circuit && OneTimer(Watched(w, hs)) && Watched(w, hs).openedAt == w.openedAt
  {
    if hs != [] {
      TripLastsItsCooldown(w, hs[..|hs| - 1]);
    }
  }

  // Once the cooldown has passed the timer is due, and closes the circuit when it fires.
  lemma TimerCloses(w: Watch)
    requires OneTimer(w) && w.circuit.open
    ensures w.openedAt + w.cooldown <= w.now <==> Happen(w, Fire(0)).circuit == Circuit(false, [])
  {
  }

  lemma OpenCircuitDenies(backoffUntil: Option<int>, m: Meter,
                          d: Candidate, mk: Market, lim: Limits, now: int, day: int)
    ensures Judge(backoffUntil, true, m, d, mk, lim, now, day).0.Denied?
    ensures Judge(backoffUntil, true, m, d, mk, lim, now, day).1 == m
  {
  }

  // ... and an Allow that reads the circuit in that time denies the instrument and charges nothing,
  // whatever happens around the read.
  lemma TripDeniesForItsCooldown(w: Watch, hs: seq<Happening>, backoffUntil: Option<int>, circuitOpen: bool,
                                 m: Meter, d: Candidate, mk: Market, lim: Limits, now: int, day: int)
    requires OneTimer(w) && w.circuit.open
    requires Watched(w, hs).now < w.openedAt + w.cooldown
    requires circuitOpen == Watched(w, hs).circuit.open
    ensures Judge(backoffUntil, circuitOpen, m, d, mk, lim, now, day).0.Denied?
    ensures Judge(backoffUntil, circuitOpen, m, d, mk, lim, now, day).1 == m
  {
    TripLastsItsCooldown(w, hs);
    OpenCircuitDenies(backoffUntil, m, d, mk, lim, now, day);
  }

  // checkBreakers' test before tripping is what this rests on: a trip keeps the one-timer state
  // exactly when the circuit was closed. On an open circuit the older timer would cut it short.
  lemma TripNeedsClosedCircuit(w: Watch, openFor: int)
    requires OneTimer(w)
    ensures OneTimer(Watch(w.now, Tripped(w.circuit, w.now, openFor), w.now, openFor)) <==> !w.circuit.open
  {
    if w.circuit.open {
      assert |Tripped(w.circuit, w.now, openFor).due| == 2;
    }
  }

  // ----- which decisions pass -----

  // The gates that need the gas price, and those that need the ETH price and a positive cap too.
  predicate GasClears(m: Meter, d: Candidate, mk: Market, lim: Limits, day: int) {
    mk.gasPrice.Some? ==>
      && mk.gasPrice.value <= lim.gasCapGwei * 1_000_000_000
      && (lim.maxGasUSD > 0.0 && mk.ethPrice.Some? && mk.ethPrice.value > 0.0 ==>
            var gasUSD := GasUSD(mk.gasPrice.value, mk.ethPrice.value);
            && gasUSD <= lim.maxGasUSD
            && (lim.dailyBudget > 0.0 ==> Rolled(m, day).gas + gasUSD <= lim.dailyBudget)
            && gasUSD + lim.minNetEdge <= d.notionalUSD * Abs(d.deviation))
  }

  // Allowed exactly when every gate is clear, whatever the order they are tried in.
  lemma AllowedExactlyWhen(backoffUntil: Option<int>, circuitOpen: bool, m: Meter,
                           d: Candidate, mk: Market, lim: Limits, now: int, day: int)
    ensures Judge(backoffUntil, circuitOpen, m, d, mk, lim, now, day).0 == Allowed <==>
      (d.poolPrice > 0.0 && d.targetPrice > 0.0 && !circuitOpen
       && (backoffUntil.Some? ==> backoffUntil.value <= now) && GasClears(m, d, mk, lim, day))
  {
  }

  // Why it is denied otherwise: the first gate, in this order, that is not clear.
  lemma DeniedBecause(backoffUntil: Option<int>, circuitOpen: bool, m: Meter,
                      d: Candidate, mk: Market, lim: Limits, now: int, day: int)
    requires Judge(backoffUntil, circuitOpen, m, d, mk, lim, now, day).0 != Allowed
    ensures var priced := mk.gasPrice.Some? && mk.ethPrice.Some?;
      var usd := if priced then GasUSD(mk.gasPrice.value, mk.ethPrice.value) else 0.0;
      Judge(backoffUntil, circuitOpen, m, d, mk, lim, now, day).0 == Denied(
        if d.poolPrice <= 0.0 || d.targetPrice <= 0.0 then QualityInvalid
        else if backoffUntil.Some? && now < backoffUntil.value then BackingOff
        else if circuitOpen then CircuitOpen
        else if mk.gasPrice.Some? && mk.gasPrice.value > lim.gasCapGwei * 1_000_000_000 then GasCap
        else if usd > lim.maxGasUSD then GasUSDCap
        else if lim.dailyBudget > 0.0 && Rolled(m, day).gas + usd > lim.dailyBudget then DailyBudget
        else NetEdge)
  {
  }

  // The documented schedule.
  lemma BackoffSchedule()
    ensures Backoff(1) == 5 * SECOND && Backoff(2) == 15 * SECOND && Backoff(3) == 45 * SECOND
    ensures Backoff(4) == 135 * SECOND && Backoff(5) == 300 * SECOND
    ensures forall f: nat :: f >= 5 ==> Backoff(f) == 300 * SECOND
  {
    assert Pow3(2) == 9 && Pow3(3) == 27 && Pow3(4) == 81;
    forall f: nat | f >= 5 ensures Backoff(f) == 300 * SECOND {
      Pow3Monotone(4, f - 1);
    }
  }

  // ----- the daily budget under interleaving -----

  // An allowed decision is charged its gas estimate exactly when it is metered; a decision denied
  // for its net edge has been charged too; nothing else moves the meter within a day.
  lemma AllowedIsChargedWhenMetered(backoffUntil: Option<int>, circuitOpen: bool, m: Meter,
                                    d: Candidate, mk: Market, lim: Limits, now: int, day: int)
    ensures var (v, m1) := Judge(backoffUntil, circuitOpen, m, d, mk, lim, now, day);
      && (!Metered(mk, lim) ==> m1 == m)
      && (Metered(mk, lim) && (v == Allowed || v == Denied(NetEdge)) ==>
            m1 == Meter(Some(day), Rolled(m, day).gas + GasUSD(mk.gasPrice.value, mk.ethPrice.value))
            && m1.gas <= lim.dailyBudget)
      && (v != Allowed && v != Denied(NetEdge) ==> m1 == m || m1 == Rolled(m, day))
  {
  }

  // Allow reads the budget in force first and consumes later, with overrides, other calls and
  // midnight possibly in between. inFlight holds the budgets read and not yet used with the day of
  // reading; peak is the largest budget in force today, carried the largest budget used today by
  // a call that had read it on an earlier day; allowed sums today's charged and allowed estimates.
  datatype Read = Read(budget: real, day: int)
  datatype Ledger = Ledger(today: int, budget: real, meter: Meter, inFlight: map<nat, Read>,
                           peak: real, carried: real, allowed: real)

  datatype Move =
    | Override(budget: real)
    | Midnight(days: nat)
    | ReadBudget(call: nat)
    | Charge(call: nat, amount: real, edgeOk: bool)

  function Advance(l: Ledger, mv: Move): Ledger {
    match mv
    case Override(b) => l.(budget := b, peak := MaxReal(l.peak, b))
    case Midnight(days) =>
      if days == 0 then l else l.(today := l.today + days, peak := l.budget, carried := 0.0, allowed := 0.0)
    case ReadBudget(call) => l.(inFlight := l.inFlight[call := Read(l.budget, l.today)])
    case Charge(call, amount, edgeOk) =>
      if call !in l.inFlight then l else
        var r := l.inFlight[call];
        var rest := l.inFlight - {call};
        if r.budget <= 0.0 then l.(inFlight := rest) else
          var (ok, meter) := Consume(l.meter, l.today, amount, r.budget);
          l.(inFlight := rest, meter := meter,
             carried := if r.day < l.today then MaxReal(l.carried, r.budget) else l.carried,
             allowed := if ok && edgeOk then l.allowed + amount else l.allowed)
  }

  function Advanced(l: Ledger, moves: seq<Move>): Ledger {
    if moves == [] then l else Advance(Advanced(l, moves[..|moves| - 1]), moves[|moves| - 1])
  }

  ghost predicate NonNegative(moves: seq<Move>) {
    forall k :: 0 <= k < |moves| && moves[k].Charge? ==> moves[k].amount >= 0.0
  }

  // What has been charged today: nothing if the meter is still on an earlier day.
  function ChargedToday(l: Ledger): real {
    if l.meter.day == Some(l.today) then l.meter.gas else 0.0
  }

  ghost predicate BudgetInv(l: Ledger) {
    && 0.0 <= l.allowed <= ChargedToday(l)
    && ChargedToday(l) <= MaxReal(l.peak, l.carried)
    && l.carried >= 0.0
    && (l.meter.day.Some? ==> l.meter.day.value <= l.today)
    && (forall c :: c in l.inFlight ==> l.inFlight[c].day <= l.today)
    && (forall c :: c in l.inFlight && l.inFlight[c].day == l.today ==> l.inFlight[c].budget <= l.peak)
    && l.budget <= l.peak
  }

  lemma AdvanceKeepsBudget(l: Ledger, mv: Move)
    requires BudgetInv(l) && (mv.Charge? ==> mv.amount >= 0.0)
    ensures BudgetInv(Advance(l, mv))
  {
  }

  function OpeningLedger(today: int, budget: real): Ledger {
    Ledger(today, budget, Meter(None, 0.0), map[], budget, 0.0, 0.0)
  }

  // On every day of every interleaving: the estimates of the charged decisions that were allowed
  // sum to at most the meter, and the meter to at most the largest budget in force that day or,
  // if larger, carried over midnight by a call in flight.
  lemma {:induction false} DailyBudgetHolds(today: int, budget: real, moves: seq<Move>)
    requires NonNegative(moves)
    ensures BudgetInv(Advanced(OpeningLedger(today, budget), moves))
  {
    if moves != [] {
      var k := |moves| - 1;
      DailyBudgetHolds(today, budget, moves[..k]);
      AdvanceKeepsBudget(Advanced(OpeningLedger(today, budget), moves[..k]), moves[k]);
    }
  }

  // A charge uses a budget read on the same day.
  ghost predicate ReadToday(l: Ledger, mv: Move) {
    mv.Charge? && mv.call in l.inFlight ==> l.inFlight[mv.call].day == l.today
  }

  // Without a call that straddles midnight nothing is carried, and the meter stays within the
  // largest budget in force that day.
  lemma {:induction false} SameDayReadsStayWithinPeak(today: int, budget: real, moves: seq<Move>)
    requires NonNegative(moves)
    requires forall k :: 0 <= k < |moves| ==> ReadToday(Advanced(OpeningLedger(today, budget), moves[..k]), moves[k])
    ensures var l := Advanced(OpeningLedger(today, budget), moves);
      l.carried == 0.0 && l.allowed <= ChargedToday(l) && (ChargedToday(l) <= l.peak || ChargedToday(l) == 0.0)
  {
    DailyBudgetHolds(today, budget, moves);
    if moves != [] {
      var n := |moves| - 1;
      assert forall k :: 0 <= k < n ==> moves[..n][..k] == moves[..k];
      SameDayReadsStayWithinPeak(today, budget, moves[..n]);
      assert Advanced(OpeningLedger(today, budget), moves)
        == Advance(Advanced(OpeningLedger(today, budget), moves[..n]), moves[n]);
    }
  }

  // Exactly which calls can break the day's bound: while it holds, every amount a call can charge
  // keeps it if and only if the budget the call has read is not above the largest one in force
  // today, or switches metering off.
  lemma ChargesStayWithinPeakExactlyWhen(l: Ledger, call: nat)
    requires call in l.inFlight && WithinPeak(l)
    ensures (forall amount, edgeOk :: amount >= 0.0 ==> WithinPeak(Advance(l, Charge(call, amount, edgeOk))))
       <==> (l.inFlight[call].budget <= l.peak || l.inFlight[call].budget <= 0.0)
  {
    var budget := l.inFlight[call].budget;
    if budget > l.peak && budget > 0.0 {
      var amount := budget - ChargedToday(l);
      assert ChargedToday(Advance(l, Charge(call, amount, true))) == budget;
    }
  }

  ghost predicate WithinPeak(l: Ledger) {
    ChargedToday(l) <= l.peak || ChargedToday(l) == 0.0
  }

  // The charge fits the budget its call has read and takes the meter over the day's largest.
  predicate Overdraws(l: Ledger, mv: Move) {
    mv.Charge? && mv.call in l.inFlight
    && var total := ChargedToday(l) + mv.amount;
      0.0 < l.inFlight[mv.call].budget && total <= l.inFlight[mv.call].budget && l.peak < total && total != 0.0
  }

  lemma PeakKeptExactlyWhen(l: Ledger, mv: Move)
    requires BudgetInv(l) && WithinPeak(l)
    ensures WithinPeak(Advance(l, mv)) <==> !Overdraws(l, mv)
  {
  }

  ghost predicate WithinPeakThroughout(l: Ledger, moves: seq<Move>) {
    forall k :: 0 <= k <= |moves| ==> WithinPeak(Advanced(l, moves[..k]))
  }

  ghost predicate NeverOverdraws(l: Ledger, moves: seq<Move>) {
    forall k :: 0 <= k < |moves| ==> !Overdraws(Advanced(l, moves[..k]), moves[k])
  }

  // Over every interleaving: the meter stays within the day's largest budget at all times exactly
  // if no charge overdraws it.
  lemma WithinPeakThroughoutExactlyWhen(today: int, budget: real, moves: seq<Move>)
    requires NonNegative(moves)
    ensures var l := OpeningLedger(today, budget); WithinPeakThroughout(l, moves) <==> NeverOverdraws(l, moves)
  {
    var l := OpeningLedger(today, budget);
    if WithinPeakThroughout(l, moves) {
      forall k | 0 <= k < |moves| ensures !Overdraws(Advanced(l, moves[..k]), moves[k]) {
        assert WithinPeak(Advanced(l, moves[..k])) && WithinPeak(Advanced(l, moves[..k + 1]));
        PeakOneMore(today, budget, moves, k);
      }
    }
    if NeverOverdraws(l, moves) {
      forall k | 0 <= k <= |moves| ensures WithinPeak(Advanced(l, moves[..k])) {
        NoOverdraftStaysWithin(today, budget, moves, k);
      }
    }
  }

  lemma PeakOneMore(today: int, budget: real, moves: seq<Move>, k: nat)
    requires NonNegative(moves) && k < |moves|
    requires WithinPeak(Advanced(OpeningLedger(today, budget), moves[..k]))
    ensures WithinPeak(Advanced(OpeningLedger(today, budget), moves[..k + 1]))
       <==> !Overdraws(Advanced(OpeningLedger(today, budget), moves[..k]), moves[k])
  {
    DailyBudgetHolds(today, budget, moves[..k]);
    assert moves[..k + 1][..k] == moves[..k];
    PeakKeptExactlyWhen(Advanced(OpeningLedger(today, budget), moves[..k]), moves[k]);
  }

  lemma {:induction false} NoOverdraftStaysWithin(today: int, budget: real, moves: seq<Move>, n: nat)
    requires NonNegative(moves) && NeverOverdraws(OpeningLedger(today, budget), moves) && n <= |moves|
    ensures WithinPeak(Advanced(OpeningLedger(today, budget), moves[..n]))
  {
    if n > 0 {
      NoOverdraftStaysWithin(today, budget, moves, n - 1);
      PeakOneMore(today, budget, moves, n - 1);
    }
  }

  // The carried term is needed: a call that reads a budget of 100, an override down to 10 and
  // midnight let any amount in between be charged on a day on which at most 10 was ever in force.
  lemma BudgetReadBeforeMidnightOverspends(amount: real)
    requires 10.0 < amount <= 100.0
    ensures exists moves :: NonNegative(moves) && Overspent(Advanced(OpeningLedger(1, 100.0), moves), 10.0, amount)
  {
    var a, b, c, e := ReadBudget(0), Override(10.0), Midnight(1), Charge(0, amount, true);
    var l0 := OpeningLedger(1, 100.0);
    AdvancedExtends(l0, [], a);
    AdvancedExtends(l0, [] + [a], b);
    AdvancedExtends(l0, [] + [a] + [b], c);
    AdvancedExtends(l0, [] + [a] + [b] + [c], e);
    var moves := [] + [a] + [b] + [c] + [e];
    assert NonNegative(moves);
    assert Overspent(Advanced(l0, moves), 10.0, amount);
  }

  ghost predicate Overspent(l: Ledger, peak: real, charged: real) {
    l.peak == peak && ChargedToday(l) == charged > peak
  }

  lemma AdvancedExtends(l: Ledger, moves: seq<Move>, mv: Move)
    ensures Advanced(l, moves + [mv]) == Advance(Advanced(l, moves), mv)
  {
  }
}
