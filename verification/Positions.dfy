// The operator's position book: updateAccountPositions and bumpPosition of
// market-maker-service/internal/execution/service.go over the upsert of internal/db/sqlite.go.
// Only the value_usd column is modelled.
module Positions {
  import opened Prelude
  import opened SwapChecks

  datatype Status = Submitted | Confirmed | Failed | Skipped

  // amountIn is None if the decimal string does not parse.
  datatype Result = Result(instrument: string, status: Status, action: Action,
                           amountIn: Option<real>, notionalUSD: real)

  type Book = map<string, real>

  function TokenFromInstrument(id: string, base: bool): string {
    match id
    case "v3:BTCUSDT" => if base then "BTC-Beta" else "USDT-Beta"
    case "v4:BTCUSDT" => if base then "BTC-Beta" else "USDT-Beta"
    case "v4:ETHUSDT" => if base then "ETH-Beta" else "USDT-Beta"
    case "v4:ETHBTC" => if base then "ETH-Beta" else "BTC-Beta"
    case _ => if base then "BASE" else "QUOTE"
  }

  function ValueOf(b: Book, token: string): real { if token in b then b[token] else 0.0 }

  // bumpPosition: read the row, then upsert it; the write may fail.
  function Bumped(b: Book, token: string, delta: real, ok: bool): Book {
    if ok then b[token := ValueOf(b, token) + delta] else b
  }

  predicate Moves(r: Result) {
    (r.status == Confirmed || r.status == Submitted) && r.amountIn.Some? && r.amountIn.value > 0.0 && r.action != Hold
  }

  // What the base side gains; the quote side gains the opposite.
  function BaseDelta(r: Result): real { if r.action == Buy then r.notionalUSD else -r.notionalUSD }

  function Applied(b: Book, r: Result, baseOk: bool, quoteOk: bool): Book {
    if !Moves(r) then b else
      Bumped(Bumped(b, TokenFromInstrument(r.instrument, true), BaseDelta(r), baseOk),
             TokenFromInstrument(r.instrument, false), -BaseDelta(r), quoteOk)
  }

  class Store {
    var book: Book

    constructor ()
      ensures book == map[]
    {
      book := map[];
    }

    method ValueOfRow(token: string) returns (value: real)
      ensures value == ValueOf(book, token)
    {
      value := if token in book then book[token] else 0.0;
    }

    method UpsertAccountPosition(token: string, value: real, ok: bool)
      modifies this
      ensures book == if ok then old(book)[token := value] else old(book)
    {
      if ok {
        book := book[token := value];
      }
    }

    // Nothing runs between the two statements here; the interleavings are below.
    method BumpPosition(token: string, deltaValue: real, ok: bool)
      modifies this
      ensures book == Bumped(old(book), token, deltaValue, ok)
    {
      var value := ValueOfRow(token);
      UpsertAccountPosition(token, value + deltaValue, ok);
    }

    method UpdateAccountPositions(r: Result, baseOk: bool, quoteOk: bool)
      modifies this
      ensures book == Applied(old(book), r, baseOk, quoteOk)
    {
      if r.status != Confirmed && r.status != Submitted {
        return;
      }
      if r.amountIn.None? || r.amountIn.value <= 0.0 {
        return;
      }
      if r.action == Buy {
        BumpPosition(TokenFromInstrument(r.instrument, true), r.notionalUSD, baseOk);
        BumpPosition(TokenFromInstrument(r.instrument, false), -r.notionalUSD, quoteOk);
      } else if r.action == Sell {
        BumpPosition(TokenFromInstrument(r.instrument, true), -r.notionalUSD, baseOk);
        BumpPosition(TokenFromInstrument(r.instrument, false), r.notionalUSD, quoteOk);
      }
    }
  }

  // ----- the total value -----

  ghost function Total(b: Book): real
    decreases |b|
  {
    if b == map[] then 0.0 else
      var t :| t in b;
      b[t] + Total(b - {t})
  }

  // The total does not depend on the order of summation.
  lemma {:induction false} TotalSplits(b: Book, t: string)
    requires t in b
    ensures Total(b) == b[t] + Total(b - {t})
    decreases |b|
  {
    var first :| first in b && Total(b) == b[first] + Total(b - {first});
    if first != t {
      TotalSplits(b - {first}, t);
      TotalSplits(b - {t}, first);
      assert b - {first} - {t} == b - {t} - {first};
    }
  }

  lemma BumpShiftsTotal(b: Book, token: string, delta: real)
    ensures Total(Bumped(b, token, delta, true)) == Total(b) + delta
  {
    var now := Bumped(b, token, delta, true);
    TotalSplits(now, token);
    if token in b {
      TotalSplits(b, token);
      assert now - {token} == b - {token};
    } else {
      assert now - {token} == b;
    }
  }

  // A result that moves value keeps the total exactly when both writes succeed, both fail, or
  // there is no value to move.
  lemma ConservedExactlyWhen(b: Book, r: Result, baseOk: bool, quoteOk: bool)
    requires Moves(r)
    ensures Total(Applied(b, r, baseOk, quoteOk)) == Total(b) <==> (baseOk == quoteOk || r.notionalUSD == 0.0)
  {
    var base, quote := TokenFromInstrument(r.instrument, true), TokenFromInstrument(r.instrument, false);
    var d := BaseDelta(r);
    BumpShiftsTotal(b, base, d);
    BumpShiftsTotal(b, quote, -d);
    BumpShiftsTotal(Bumped(b, base, d, true), quote, -d);
  }

  function BookAfter(results: seq<Result>): Book {
    if results == [] then map[] else Applied(BookAfter(results[..|results| - 1]), results[|results| - 1], true, true)
  }

  // Whatever results are persisted, one after the other with their writes succeeding, the
  // positions' values add up to zero ...
  lemma {:induction false} TotalStaysZero(results: seq<Result>)
    ensures Total(BookAfter(results)) == 0.0
  {
    if results != [] {
      var before, r := BookAfter(results[..|results| - 1]), results[|results| - 1];
      TotalStaysZero(results[..|results| - 1]);
      if Moves(r) {
        ConservedExactlyWhen(before, r, true, true);
      }
    }
  }

  // ... while each result moves its notional from one side of its pair to the other and leaves
  // every other token alone.
  lemma ResultMovesNotional(b: Book, r: Result, token: string)
    requires Moves(r)
    ensures ValueOf(Applied(b, r, true, true), token) - ValueOf(b, token)
         == if token == TokenFromInstrument(r.instrument, true) then BaseDelta(r)
            else if token == TokenFromInstrument(r.instrument, false) then -BaseDelta(r)
            else 0.0
  {
    assert TokenFromInstrument(r.instrument, true) != TokenFromInstrument(r.instrument, false);
  }

  // The configured instruments and the tokens their results move.
  lemma TokensAre()
    ensures forall base: bool :: TokenFromInstrument("v3:BTCUSDT", base) == TokenFromInstrument("v4:BTCUSDT", base)
    ensures TokenFromInstrument("v3:BTCUSDT", true) == "BTC-Beta"
    ensures TokenFromInstrument("v3:BTCUSDT", false) == "USDT-Beta"
    ensures TokenFromInstrument("v4:ETHUSDT", true) == "ETH-Beta"
    ensures TokenFromInstrument("v4:ETHUSDT", false) == "USDT-Beta"
    ensures TokenFromInstrument("v4:ETHBTC", true) == "ETH-Beta"
    ensures TokenFromInstrument("v4:ETHBTC", false) == "BTC-Beta"
    ensures forall id :: id !in {"v3:BTCUSDT", "v4:BTCUSDT", "v4:ETHUSDT", "v4:ETHBTC"} ==>
      TokenFromInstrument(id, true) == "BASE" && TokenFromInstrument(id, false) == "QUOTE"
  {
  }

  // Every result, field by field: a confirmed or submitted purchase adds its notional to the base
  // token and takes it from the quote token, a sale the other way round, each unless its own write
  // fails. Any other result, and one whose amount does not parse or is not positive, moves nothing.
  lemma ResultMoves(b: Book, r: Result, baseOk: bool, quoteOk: bool)
    ensures var base, quote := TokenFromInstrument(r.instrument, true), TokenFromInstrument(r.instrument, false);
      var booked := (r.status == Confirmed || r.status == Submitted) && r.amountIn.Some? && r.amountIn.value > 0.0;
      var gain := if r.action == Buy then r.notionalUSD else if r.action == Sell then -r.notionalUSD else 0.0;
      var now := Applied(b, r, baseOk, quoteOk);
      && ValueOf(now, base) == ValueOf(b, base) + (if booked && baseOk then gain else 0.0)
      && ValueOf(now, quote) == ValueOf(b, quote) - (if booked && quoteOk then gain else 0.0)
      && (forall t :: t != base && t != quote ==> ValueOf(now, t) == ValueOf(b, t))
  {
  }

  // ----- interleaved bumps -----

  // A bump reads its row and later writes the sum, with no lock in between: executions of
  // different instruments run side by side and share rows.
  datatype Pending = Pending(token: string, delta: real, read: real)
  datatype Desk = Desk(book: Book, pending: map<nat, Pending>)
  datatype Event = Read(bump: nat, token: string, delta: real) | Write(bump: nat, ok: bool)

  function Act(d: Desk, e: Event): Desk {
    match e
    case Read(bump, token, delta) => d.(pending := d.pending[bump := Pending(token, delta, ValueOf(d.book, token))])
    case Write(bump, ok) =>
      if bump !in d.pending then d else
        var p := d.pending[bump];
        Desk(if ok then d.book[p.token := p.read + p.delta] else d.book, d.pending - {bump})
  }

  function Run(events: seq<Event>): Desk {
    if events == [] then Desk(map[], map[]) else Act(Run(events[..|events| - 1]), events[|events| - 1])
  }

  // The event is a write that takes effect, and what it is meant to add.
  predicate Lands(d: Desk, e: Event) { e.Write? && e.ok && e.bump in d.pending }

  function Meant(d: Desk, e: Event): real { if Lands(d, e) then d.pending[e.bump].delta else 0.0 }

  function MeantTotal(events: seq<Event>): real {
    if events == [] then 0.0 else
      MeantTotal(events[..|events| - 1]) + Meant(Run(events[..|events| - 1]), events[|events| - 1])
  }

  // The row a landing write overwrites still holds what the bump read.
  predicate Fresh(d: Desk, e: Event) {
    Lands(d, e) ==> ValueOf(d.book, d.pending[e.bump].token) == d.pending[e.bump].read
  }

  // A write is off by exactly what happened to its row since the read.
  lemma WriteMovesTotal(b: Book, token: string, read: real, delta: real)
    ensures Total(b[token := read + delta]) == Total(b) + delta + (read - ValueOf(b, token))
  {
    var moved := read + delta - ValueOf(b, token);
    assert b[token := read + delta] == Bumped(b, token, moved, true);
    BumpShiftsTotal(b, token, moved);
  }

  lemma MovesByDeltaExactlyWhen(d: Desk, e: Event)
    ensures Total(Act(d, e).book) == Total(d.book) + Meant(d, e) <==> Fresh(d, e)
  {
    if Lands(d, e) {
      var p := d.pending[e.bump];
      WriteMovesTotal(d.book, p.token, p.read, p.delta);
    }
  }

  // Over every interleaving of bumps, the total is what the writes were meant to add, at all
  // times, exactly if every write finds its row as it was read.
  lemma TotalTracksExactlyWhen(events: seq<Event>)
    ensures (forall k :: 0 <= k <= |events| ==> Total(Run(events[..k]).book) == MeantTotal(events[..k]))
       <==> (forall k :: 0 <= k < |events| ==> Fresh(Run(events[..k]), events[k]))
  {
    if forall k :: 0 <= k <= |events| ==> Total(Run(events[..k]).book) == MeantTotal(events[..k]) {
      forall k | 0 <= k < |events| ensures Fresh(Run(events[..k]), events[k]) {
        assert events[..k + 1][..k] == events[..k];
        assert Total(Run(events[..k + 1]).book) == MeantTotal(events[..k + 1]);
        MovesByDeltaExactlyWhen(Run(events[..k]), events[k]);
      }
    }
    if forall k :: 0 <= k < |events| ==> Fresh(Run(events[..k]), events[k]) {
      forall k | 0 <= k <= |events| ensures Total(Run(events[..k]).book) == MeantTotal(events[..k]) {
        FreshKeepsTotal(events, k);
      }
    }
  }

  lemma {:induction false} FreshKeepsTotal(events: seq<Event>, n: nat)
    requires n <= |events| && forall k :: 0 <= k < |events| ==> Fresh(Run(events[..k]), events[k])
    ensures Total(Run(events[..n]).book) == MeantTotal(events[..n])
  {
    if n > 0 {
      FreshKeepsTotal(events, n - 1);
      assert events[..n][..n - 1] == events[..n - 1];
      MovesByDeltaExactlyWhen(Run(events[..n - 1]), events[n - 1]);
    }
  }

  // No row is read for a bump while another bump of it is pending, as one lock per row, or one
  // consumer of all results, would have it.
  ghost predicate Exclusive(d: Desk, e: Event) {
    e.Read? ==> forall k :: k in d.pending && k != e.bump ==> d.pending[k].token != e.token
  }

  ghost predicate PendingIsFresh(d: Desk) {
    && (forall k :: k in d.pending ==> ValueOf(d.book, d.pending[k].token) == d.pending[k].read)
    && (forall j, k :: j in d.pending && k in d.pending && j != k ==> d.pending[j].token != d.pending[k].token)
  }

  // That is enough: bumps of one row one after the other, of different rows in any interleaving.
  lemma {:induction false} ExclusiveRowsKeepTotal(events: seq<Event>)
    requires forall k :: 0 <= k < |events| ==> Exclusive(Run(events[..k]), events[k])
    ensures PendingIsFresh(Run(events)) && Total(Run(events).book) == MeantTotal(events)
  {
    if events != [] {
      var n := |events| - 1;
      assert forall k :: 0 <= k < n ==> events[..n][..k] == events[..k];
      ExclusiveRowsKeepTotal(events[..n]);
      var d := Run(events[..n]);
      assert Exclusive(d, events[n]) && Fresh(d, events[n]);
      MovesByDeltaExactlyWhen(d, events[n]);
    }
  }

  // Without it value is lost. Results of these two instruments share the USDT row: if both read it
  // before either writes, the first result's quote side is gone, and the total is off by its
  // notional.
  lemma InterleavedResultsLoseValue(b: Book, r1: Result, r2: Result)
    requires r1.instrument == "v3:BTCUSDT" && r2.instrument == "v4:ETHUSDT" && Moves(r1) && Moves(r2)
    ensures var quote := "USDT-Beta";
      && TokenFromInstrument(r1.instrument, false) == quote == TokenFromInstrument(r2.instrument, false)
      && var based := Bumped(Bumped(b, "BTC-Beta", BaseDelta(r1), true), "ETH-Beta", BaseDelta(r2), true);
      Total(OverlappingBumps(based, quote, -BaseDelta(r1), -BaseDelta(r2))) == Total(b) + BaseDelta(r1)
  {
    var b1 := Bumped(b, "BTC-Beta", BaseDelta(r1), true);
    var based := Bumped(b1, "ETH-Beta", BaseDelta(r2), true);
    BumpShiftsTotal(b, "BTC-Beta", BaseDelta(r1));
    BumpShiftsTotal(b1, "ETH-Beta", BaseDelta(r2));
    InterleavedBumpsLoseValue(based, "USDT-Beta", -BaseDelta(r1), -BaseDelta(r2));
  }

  // Two bumps of one row that both read before either writes.
  function OverlappingBumps(b: Book, token: string, first: real, second: real): Book {
    var d1 := Act(Desk(b, map[]), Read(0, token, first));
    var d2 := Act(d1, Read(1, token, second));
    var d3 := Act(d2, Write(0, true));
    Act(d3, Write(1, true)).book
  }

  lemma InterleavedBumpsLoseValue(b: Book, token: string, first: real, second: real)
    ensures Total(OverlappingBumps(b, token, first, second)) == Total(b) + second
  {
    var read := ValueOf(b, token);
    assert OverlappingBumps(b, token, first, second) == b[token := read + first][token := read + second];
    assert b[token := read + first][token := read + second] == Bumped(b, token, second, true);
    BumpShiftsTotal(b, token, second);
  }
}
