// aggregateKlines of market-maker-service/internal/db/sqlite.go: bars merged, in one pass, into
// the buckets of a coarser interval.
module Klines {
  import opened Prelude

  datatype PricePoint = PricePoint(time: int, pair: string, interval: string,
                                   open: real, high: real, low: real, close: real)

  // The intervals that are computed; 1m bars, and any other name, are returned as stored.
  datatype Coarse = M5 | M15

  function CoarseOf(interval: string): Option<Coarse> {
    match interval
    case "5m" => Some(M5)
    case "15m" => Some(M15)
    case _ => None
  }

  function NameOf(c: Coarse): string {
    match c
    case M5 => "5m"
    case M15 => "15m"
  }

  // Go's integer division truncates toward zero.
  function TruncDiv(a: int, b: int): int
    requires b > 0
  {
    if a >= 0 then a / b else -((-a) / b)
  }

  // (time / step) * step, with the step in seconds.
  function Bucket(time: int, c: Coarse): int {
    match c
    case M5 => TruncDiv(time, 300) * 300
    case M15 => TruncDiv(time, 900) * 900
  }

  function FirstOf(p: PricePoint, c: Coarse): PricePoint {
    p.(time := Bucket(p.time, c), interval := NameOf(c))
  }

  function Merge(cur: PricePoint, p: PricePoint): PricePoint {
    cur.(high := if p.high > cur.high then p.high else cur.high,
         low := if p.low < cur.low then p.low else cur.low,
         close := p.close)
  }

  // One point more: merged into the last bar if it is in the same bucket, a new bar otherwise.
  function AddPoint(bars: seq<PricePoint>, p: PricePoint, c: Coarse): (r: seq<PricePoint>)
    ensures r != []
  {
    if bars != [] && bars[|bars| - 1].time == Bucket(p.time, c) then
      bars[..|bars| - 1] + [Merge(bars[|bars| - 1], p)]
    else
      bars + [FirstOf(p, c)]
  }

  function Bars(points: seq<PricePoint>, c: Coarse): (bars: seq<PricePoint>)
    ensures bars == [] <==> points == []
  {
    if points == [] then []
    else AddPoint(Bars(points[..|points| - 1], c), points[|points| - 1], c)
  }

  function Aggregated(points: seq<PricePoint>, interval: string): seq<PricePoint> {
    if CoarseOf(interval).None? then points else Bars(points, CoarseOf(interval).value)
  }

  method AggregateKlines(points: seq<PricePoint>, interval: string) returns (bars: seq<PricePoint>)
    ensures bars == Aggregated(points, interval)
  {
    if |points| == 0 {
      return points;
    }
    var step: Coarse;
    match interval {
      case "5m" => step := M5;
      case "15m" => step := M15;
      case _ => return points;
    }
    var out: seq<PricePoint> := [];
    var cur: Option<PricePoint> := None;
    for i := 0 to |points|
      invariant Bars(points[..i], step) == if cur.Some? then out + [cur.value] else out
      invariant cur.None? ==> out == []
    {
      assert points[..i + 1][..i] == points[..i];
      var p := points[i];
      var bucket := Bucket(p.time, step);
      if cur.None? || cur.value.time != bucket {
        if cur.Some? {
          out := out + [cur.value];
        }
        cur := Some(PricePoint(bucket, p.pair, interval, p.open, p.high, p.low, p.close));
        continue;
      }
      var c := cur.value;
      if p.high > c.high {
        c := c.(high := p.high);
      }
      if p.low < c.low {
        c := c.(low := p.low);
      }
      cur := Some(c.(close := p.close));
    }
    assert points[..|points|] == points;
    if cur.Some? {
      out := out + [cur.value];
    }
    bars := out;
  }

  // A bucket is a multiple of its five or fifteen minutes; the times in it are those less than one
  // length away from it, on the side away from zero.
  lemma BucketIs(time: int, c: Coarse)
    ensures var step := if c == M5 then 300 else 900;
      && Bucket(time, c) % step == 0
      && (time >= 0 ==> Bucket(time, c) <= time < Bucket(time, c) + step)
      && (time <= 0 ==> Bucket(time, c) - step < time <= Bucket(time, c))
  {
  }

  // Only the two coarse names aggregate.
  lemma NamesThatAggregate(points: seq<PricePoint>, interval: string)
    ensures Aggregated(points, interval) ==
      if interval == "5m" then Bars(points, M5) else if interval == "15m" then Bars(points, M15) else points
    ensures NameOf(M5) == "5m" && NameOf(M15) == "15m"
  {
  }

  // ----- the query -----

  // The rows of one pair in time order, as the SELECT returns them before LIMIT.
  function InRange(rows: seq<PricePoint>, interval: string, from: int, to: int): seq<PricePoint> {
    if rows == [] then [] else
      var rest := InRange(rows[..|rows| - 1], interval, from, to);
      var p := rows[|rows| - 1];
      if p.interval == interval && from <= p.time <= to then rest + [p] else rest
  }

  function Limited(points: seq<PricePoint>, n: nat): seq<PricePoint> {
    if |points| <= n then points else points[..n]
  }

  function EffectiveLimit(limit: int): (n: nat)
    ensures n > 0
  {
    if limit <= 0 || limit > 5000 then 2000 else limit
  }

  // The stored interval a query reads.
  function StoredInterval(interval: string): string {
    if interval == "5m" || interval == "15m" then interval else "1m"
  }

  // GetPrices of a pair with these rows. Every answer is stored rows as they are: the names that
  // reach aggregateKlines are ones it does not aggregate.
  method GetPrices(rows: seq<PricePoint>, interval: string, from: int, to: int, limit: int)
    returns (points: seq<PricePoint>)
    ensures points == Limited(InRange(rows, StoredInterval(interval), from, to), EffectiveLimit(limit) * 5)
  {
    var wanted := interval;
    if wanted == "" {
      wanted := "1m";
    }
    var n := limit;
    if n <= 0 || n > 5000 {
      n := 2000;
    }
    var baseInterval := wanted;
    if wanted != "1m" && wanted != "5m" && wanted != "15m" {
      baseInterval := "1m";
    }
    points := Limited(InRange(rows, baseInterval, from, to), n * 5);
    if wanted == "1m" || wanted == "" || wanted == baseInterval {
      return points;
    }
    points := AggregateKlines(points, wanted);
  }

  lemma {:induction false} InRangeMembers(rows: seq<PricePoint>, interval: string, from: int, to: int)
    ensures InRange(rows, interval, from, to) == [] <==>
      forall i :: 0 <= i < |rows| ==> !(rows[i].interval == interval && from <= rows[i].time <= to)
  {
    if rows != [] {
      var n := |rows| - 1;
      InRangeMembers(rows[..n], interval, from, to);
      assert forall i :: 0 <= i < n ==> rows[..n][i] == rows[i];
    }
  }

  // What a query reads: for each name its stored interval, a limit of its own or 2000, and of the rows
  // in range all, in order, up to five times that limit.
  lemma QueryReads(rows: seq<PricePoint>, interval: string, from: int, to: int, limit: int)
    ensures StoredInterval("5m") == "5m" && StoredInterval("15m") == "15m"
    ensures interval != "5m" && interval != "15m" ==> StoredInterval(interval) == "1m"
    ensures EffectiveLimit(limit) == if 1 <= limit <= 5000 then limit else 2000
    ensures forall p :: p in InRange(rows, interval, from, to) <==>
      (p in rows && p.interval == interval && from <= p.time && p.time <= to)
  {
    InRangeHas(rows, interval, from, to);
  }

  lemma {:induction false} InRangeHas(rows: seq<PricePoint>, interval: string, from: int, to: int)
    ensures forall p :: p in InRange(rows, interval, from, to) <==>
      (p in rows && p.interval == interval && from <= p.time && p.time <= to)
  {
    if rows != [] {
      var n := |rows| - 1;
      InRangeHas(rows[..n], interval, from, to);
      assert rows == rows[..n] + [rows[n]];
    }
  }

  lemma {:induction false} InRangeKeepsOrder(a: seq<PricePoint>, b: seq<PricePoint>,
                                             interval: string, from: int, to: int)
    ensures InRange(a + b, interval, from, to) == InRange(a, interval, from, to) + InRange(b, interval, from, to)
    decreases |b|
  {
    if b == [] {
      assert a + b == a;
    } else {
      var n := |b| - 1;
      InRangeKeepsOrder(a, b[..n], interval, from, to);
      assert (a + b)[..|a + b| - 1] == a + b[..n];
    }
  }

  lemma LimitedIs(points: seq<PricePoint>, n: nat)
    ensures Limited(points, n) <= points && |Limited(points, n)| == if |points| < n then |points| else n
  {
  }

  // With only one-minute rows stored, which is all the engine writes, a query for coarse bars is
  // answered with none, so it is the aggregate of the minute bars exactly when no minute bar lies
  // in the range.
  lemma CoarseQueryAggregatesExactlyWhen(rows: seq<PricePoint>, c: Coarse, from: int, to: int, limit: int)
    requires forall i :: 0 <= i < |rows| ==> rows[i].interval == "1m"
    ensures var n := EffectiveLimit(limit) * 5;
      var minutes := Limited(InRange(rows, "1m", from, to), n);
      Limited(InRange(rows, StoredInterval(NameOf(c)), from, to), n) == Aggregated(minutes, NameOf(c))
      <==> (forall i :: 0 <= i < |rows| ==> !(from <= rows[i].time <= to))
  {
    InRangeMembers(rows, NameOf(c), from, to);
    InRangeMembers(rows, "1m", from, to);
    assert NameOf(c) != "1m";
  }

  // ----- aggregation composes -----

  lemma BucketOfBucket(time: int)
    ensures Bucket(Bucket(time, M5), M15) == Bucket(time, M15)
    ensures Bucket(Bucket(time, M15), M15) == Bucket(time, M15)
  {
    FloorOfFloor(if time >= 0 then time else -time);
  }

  lemma FloorOfFloor(a: nat)
    ensures ((a / 300) * 300) / 900 == a / 900
    ensures ((a / 900) * 900) / 900 == a / 900
  {
  }

  // A point enters a coarse bar the same way alone and merged into a fine bar of its fine bucket.
  lemma MergeThenAdd(bars: seq<PricePoint>, fine: PricePoint, p: PricePoint)
    requires fine.time == Bucket(p.time, M5)
    ensures AddPoint(AddPoint(bars, fine, M15), p, M15) == AddPoint(bars, Merge(fine, p), M15)
  {
    BucketOfBucket(p.time);
    BucketOfBucket(fine.time);
    var bucket := Bucket(p.time, M15);
    assert Bucket(fine.time, M15) == bucket == Bucket(Merge(fine, p).time, M15);
    if bars != [] && bars[|bars| - 1].time == bucket {
      var n := |bars| - 1;
      assert AddPoint(bars, fine, M15) == bars[..n] + [Merge(bars[n], fine)];
      assert (bars[..n] + [Merge(bars[n], fine)])[..n] == bars[..n];
    } else {
      assert AddPoint(bars, fine, M15) == bars + [FirstOf(fine, M15)];
      assert (bars + [FirstOf(fine, M15)])[..|bars|] == bars;
    }
  }

  lemma AddFirst(bars: seq<PricePoint>, p: PricePoint)
    ensures AddPoint(bars, FirstOf(p, M5), M15) == AddPoint(bars, p, M15)
  {
    BucketOfBucket(p.time);
  }

  // For every sequence of points, in any order and with any times, aggregating to 5m and then to
  // 15m is aggregating straight to 15m.
  lemma {:induction false} AggregationComposes(points: seq<PricePoint>)
    ensures Aggregated(Aggregated(points, "5m"), "15m") == Aggregated(points, "15m")
  {
    if points != [] {
      var before, p := points[..|points| - 1], points[|points| - 1];
      AggregationComposes(before);
      var fine, coarse := Bars(before, M5), Bars(before, M15);
      assert Bars(fine, M15) == coarse;
      if fine != [] && fine[|fine| - 1].time == Bucket(p.time, M5) {
        var n := |fine| - 1;
        var merged := fine[..n] + [Merge(fine[n], p)];
        assert merged[..n] == fine[..n];
        MergeThenAdd(Bars(fine[..n], M15), fine[n], p);
      } else {
        var longer := fine + [FirstOf(p, M5)];
        assert longer[..|fine|] == fine;
        AddFirst(coarse, p);
      }
    }
  }

  // ----- what the bars of time-sorted points are -----

  function InBucket(points: seq<PricePoint>, c: Coarse, bucket: int): seq<PricePoint> {
    if points == [] then [] else
      var rest := InBucket(points[..|points| - 1], c, bucket);
      var p := points[|points| - 1];
      if Bucket(p.time, c) == bucket then rest + [p] else rest
  }

  // The bar of a group of points: first open, last close, extreme high and low.
  ghost predicate IsBarOf(bar: PricePoint, group: seq<PricePoint>) {
    && group != []
    && bar.pair == group[0].pair && bar.open == group[0].open && bar.close == group[|group| - 1].close
    && (forall i :: 0 <= i < |group| ==> group[i].low >= bar.low && group[i].high <= bar.high)
    && (exists i :: 0 <= i < |group| && group[i].high == bar.high)
    && (exists i :: 0 <= i < |group| && group[i].low == bar.low)
  }

  ghost predicate TimeSorted(points: seq<PricePoint>) {
    forall i, j :: 0 <= i < j < |points| ==> points[i].time <= points[j].time
  }

  lemma BucketMonotone(s: int, t: int, c: Coarse)
    requires s <= t
    ensures Bucket(s, c) <= Bucket(t, c)
  {
    match c
    case M5 =>
      if s >= 0 { By300(s, t); } else if t < 0 { By300(-t, -s); }
    case M15 =>
      if s >= 0 { By900(s, t); } else if t < 0 { By900(-t, -s); }
  }

  lemma By300(a: nat, b: nat)
    requires a <= b
    ensures a / 300 * 300 <= b / 300 * 300
  {
  }

  lemma By900(a: nat, b: nat)
    requires a <= b
    ensures a / 900 * 900 <= b / 900 * 900
  {
  }

  lemma {:induction false} InBucketMembers(points: seq<PricePoint>, c: Coarse, bucket: int)
    ensures forall i :: 0 <= i < |points| && Bucket(points[i].time, c) == bucket ==> InBucket(points, c, bucket) != []
    ensures InBucket(points, c, bucket) != [] ==> exists i :: 0 <= i < |points| && Bucket(points[i].time, c) == bucket
  {
    if points != [] {
      var n := |points| - 1;
      InBucketMembers(points[..n], c, bucket);
      if InBucket(points, c, bucket) != [] && Bucket(points[n].time, c) != bucket {
        var i :| 0 <= i < n && Bucket(points[..n][i].time, c) == bucket;
        assert Bucket(points[i].time, c) == bucket;
      }
    }
  }

  lemma MergedBar(bar: PricePoint, group: seq<PricePoint>, p: PricePoint)
    requires IsBarOf(bar, group)
    ensures IsBarOf(Merge(bar, p), group + [p])
  {
    var i :| 0 <= i < |group| && group[i].high == bar.high;
    var j :| 0 <= j < |group| && group[j].low == bar.low;
    var g, m := group + [p], Merge(bar, p);
    assert g[i] == group[i] && g[j] == group[j] && g[|group|] == p;
    assert g[if p.high > bar.high then |group| else i].high == m.high;
    assert g[if p.low < bar.low then |group| else j].low == m.low;
  }

  ghost predicate HasBar(bars: seq<PricePoint>, time: int) {
    exists i :: 0 <= i < |bars| && bars[i].time == time
  }

  // Every point has a bar.
  ghost predicate Covers(bars: seq<PricePoint>, points: seq<PricePoint>, c: Coarse) {
    forall k :: 0 <= k < |points| ==> HasBar(bars, Bucket(points[k].time, c))
  }

  ghost predicate Increasing(bars: seq<PricePoint>) {
    forall i, j :: 0 <= i < j < |bars| ==> bars[i].time < bars[j].time
  }

  // Each bar is the bar of exactly the points of its bucket.
  ghost predicate Faithful(bars: seq<PricePoint>, points: seq<PricePoint>, c: Coarse) {
    forall i :: 0 <= i < |bars| ==> bars[i].interval == NameOf(c) && IsBarOf(bars[i], InBucket(points, c, bars[i].time))
  }

  ghost predicate EndsAt(bars: seq<PricePoint>, points: seq<PricePoint>, c: Coarse) {
    if points == [] then bars == [] else bars != [] && bars[|bars| - 1].time == Bucket(points[|points| - 1].time, c)
  }

  ghost predicate OneBarPerBucket(bars: seq<PricePoint>, points: seq<PricePoint>, c: Coarse) {
    Increasing(bars) && Faithful(bars, points, c) && Covers(bars, points, c) && EndsAt(bars, points, c)
  }

  // In any order: a point opens a bar exactly if it is the first or its bucket is not that of the
  // point before it.
  lemma BarOpensExactlyWhen(points: seq<PricePoint>, p: PricePoint, c: Coarse)
    ensures |Bars(points + [p], c)| == |Bars(points, c)|
      + if points == [] || Bucket(points[|points| - 1].time, c) != Bucket(p.time, c) then 1 else 0
  {
    assert (points + [p])[..|points|] == points;
    BarsEndAt(points, c);
  }

  lemma {:induction false} BarsEndAt(points: seq<PricePoint>, c: Coarse)
    ensures EndsAt(Bars(points, c), points, c)
  {
    if points != [] {
      var n := |points| - 1;
      assert points == points[..n] + [points[n]];
      AddEndsAt(Bars(points[..n], c), points[..n], points[n], c);
    }
  }

  // Time-sorted points give one bar for each bucket that has points, in strictly increasing order
  // of step-aligned times, each the bar of exactly the points of its bucket.
  lemma {:induction false} SortedPointsGiveOneBarPerBucket(points: seq<PricePoint>, c: Coarse)
    requires TimeSorted(points)
    ensures OneBarPerBucket(Bars(points, c), points, c)
  {
    if points != [] {
      var before, p := points[..|points| - 1], points[|points| - 1];
      SortedPointsGiveOneBarPerBucket(before, c);
      assert before + [p] == points;
      AddKeepsOneBarPerBucket(Bars(before, c), before, p, c);
    }
  }

  lemma AddKeepsOneBarPerBucket(bars: seq<PricePoint>, before: seq<PricePoint>, p: PricePoint, c: Coarse)
    requires TimeSorted(before + [p]) && OneBarPerBucket(bars, before, c)
    ensures OneBarPerBucket(AddPoint(bars, p, c), before + [p], c)
  {
    LastNotAfter(bars, before, p, c);
    AddKeepsIncreasing(bars, p, c);
    AddKeepsCover(bars, before, p, c);
    AddKeepsFaithful(bars, before, p, c);
    AddEndsAt(bars, before, p, c);
  }

  lemma AddEndsAt(bars: seq<PricePoint>, before: seq<PricePoint>, p: PricePoint, c: Coarse)
    ensures EndsAt(AddPoint(bars, p, c), before + [p], c)
  {
    var points := before + [p];
    assert points[|points| - 1] == p;
  }

  lemma LastNotAfter(bars: seq<PricePoint>, before: seq<PricePoint>, p: PricePoint, c: Coarse)
    requires TimeSorted(before + [p]) && EndsAt(bars, before, c)
    ensures bars == [] || bars[|bars| - 1].time <= Bucket(p.time, c)
  {
    if before != [] {
      var points, n := before + [p], |before|;
      assert points[n - 1] == before[n - 1] && points[n] == p;
      BucketMonotone(before[n - 1].time, p.time, c);
    }
  }

  lemma AddKeepsFaithful(bars: seq<PricePoint>, before: seq<PricePoint>, p: PricePoint, c: Coarse)
    requires TimeSorted(before + [p]) && Increasing(bars) && Faithful(bars, before, c) && EndsAt(bars, before, c)
    ensures Faithful(AddPoint(bars, p, c), before + [p], c)
  {
    if bars != [] && bars[|bars| - 1].time == Bucket(p.time, c) {
      MergeKeepsFaithful(bars, before, p, c);
    } else {
      NoEarlierPoint(before, p, c);
      NewBarKeepsFaithful(bars, before, p, c);
    }
  }

  lemma AddKeepsIncreasing(bars: seq<PricePoint>, p: PricePoint, c: Coarse)
    requires Increasing(bars) && (bars == [] || bars[|bars| - 1].time <= Bucket(p.time, c))
    ensures Increasing(AddPoint(bars, p, c))
  {
  }

  lemma AddKeepsCover(bars: seq<PricePoint>, before: seq<PricePoint>, p: PricePoint, c: Coarse)
    requires Covers(bars, before, c)
    ensures Covers(AddPoint(bars, p, c), before + [p], c)
  {
    var points, now := before + [p], AddPoint(bars, p, c);
    assert now[|now| - 1].time == Bucket(p.time, c);
    assert HasBar(now, Bucket(p.time, c));
    forall k | 0 <= k < |before| ensures HasBar(now, Bucket(before[k].time, c)) {
      assert HasBar(bars, Bucket(before[k].time, c));
      var i :| 0 <= i < |bars| && bars[i].time == Bucket(before[k].time, c);
      assert now[i].time == bars[i].time;
    }
  }

  lemma InBucketAdd(before: seq<PricePoint>, p: PricePoint, c: Coarse, bucket: int)
    ensures InBucket(before + [p], c, bucket)
         == if Bucket(p.time, c) == bucket then InBucket(before, c, bucket) + [p] else InBucket(before, c, bucket)
  {
  }

  lemma MergeKeepsFaithful(bars: seq<PricePoint>, before: seq<PricePoint>, p: PricePoint, c: Coarse)
    requires Increasing(bars) && Faithful(bars, before, c)
    requires bars != [] && bars[|bars| - 1].time == Bucket(p.time, c)
    ensures Faithful(AddPoint(bars, p, c), before + [p], c)
  {
    var k, now := |bars| - 1, AddPoint(bars, p, c);
    forall i | 0 <= i < |now|
      ensures now[i].interval == NameOf(c) && IsBarOf(now[i], InBucket(before + [p], c, now[i].time))
    {
      InBucketAdd(before, p, c, now[i].time);
      if i < k {
        assert now[i] == bars[i] && bars[i].time < bars[k].time;
      } else {
        MergedBar(bars[k], InBucket(before, c, bars[k].time), p);
      }
    }
  }

  lemma NewBarKeepsFaithful(bars: seq<PricePoint>, before: seq<PricePoint>, p: PricePoint, c: Coarse)
    requires Increasing(bars) && Faithful(bars, before, c)
    requires bars == [] || bars[|bars| - 1].time < Bucket(p.time, c)
    requires InBucket(before, c, Bucket(p.time, c)) == []
    ensures Faithful(AddPoint(bars, p, c), before + [p], c)
  {
    var now := bars + [FirstOf(p, c)];
    assert AddPoint(bars, p, c) == now;
    forall i | 0 <= i < |now|
      ensures now[i].interval == NameOf(c) && IsBarOf(now[i], InBucket(before + [p], c, now[i].time))
    {
      InBucketAdd(before, p, c, now[i].time);
      if i < |bars| {
        assert bars[i].time <= bars[|bars| - 1].time < Bucket(p.time, c);
        assert InBucket(before + [p], c, now[i].time) == InBucket(before, c, bars[i].time);
      } else {
        assert InBucket(before + [p], c, now[i].time) == [p];
        SingleBar(now[i], p);
      }
    }
  }

  lemma SingleBar(bar: PricePoint, p: PricePoint)
    requires bar.pair == p.pair && bar.open == p.open && bar.high == p.high && bar.low == p.low && bar.close == p.close
    ensures IsBarOf(bar, [p])
  {
  }

  // A point in a new bucket finds no earlier point there, and comes after all of them.
  lemma NoEarlierPoint(before: seq<PricePoint>, p: PricePoint, c: Coarse)
    requires TimeSorted(before + [p])
    requires before == [] || Bucket(before[|before| - 1].time, c) != Bucket(p.time, c)
    ensures InBucket(before, c, Bucket(p.time, c)) == []
    ensures before != [] ==> Bucket(before[|before| - 1].time, c) < Bucket(p.time, c)
  {
    if before != [] {
      var points, n := before + [p], |before|;
      assert points[n - 1] == before[n - 1] && points[n] == p;
      BucketMonotone(before[n - 1].time, p.time, c);
      forall i | 0 <= i < n ensures Bucket(before[i].time, c) != Bucket(p.time, c) {
        assert points[i] == before[i] && points[i].time <= points[n - 1].time;
        BucketMonotone(before[i].time, before[n - 1].time, c);
      }
      InBucketMembers(before, c, Bucket(p.time, c));
    }
  }
}
