// Live one-minute bars: the bucket building of OnSnapshot and the periodic flushing of klineLoop
// in market-maker-service/internal/sync/engine.go, writing through the upsert of InsertKline in
// internal/db/sqlite.go. Writes succeed; times are Unix seconds as the clock gives them, in any
// order.
module LiveKlines {
  import opened Prelude

  datatype Sample = Sample(at: int, price: real)
  datatype Ohlc = Ohlc(open: real, high: real, low: real, close: real)
  datatype Bucket = Bucket(startedAt: int, bar: Ohlc)

  // One instrument: its bucket in progress and its stored 1m rows by bucket time.
  datatype Line = Line(bucket: Option<Bucket>, rows: map<int, Ohlc>)

  function Single(price: real): Ohlc { Ohlc(price, price, price, price) }

  function Extended(bar: Ohlc, price: real): Ohlc {
    Ohlc(bar.open, if price > bar.high then price else bar.high, if price < bar.low then price else bar.low, price)
  }

  function Flushed(l: Line): Line {
    if l.bucket.None? then l else l.(rows := l.rows[l.bucket.value.startedAt := l.bucket.value.bar])
  }

  function Sampled(l: Line, s: Sample): Line {
    if s.price <= 0.0 then l
    else if l.bucket.None? || s.at - l.bucket.value.startedAt >= 60 then
      Line(Some(Bucket(s.at, Single(s.price))), Flushed(l).rows)
    else
      l.(bucket := Some(Bucket(l.bucket.value.startedAt, Extended(l.bucket.value.bar, s.price))))
  }

  // The line of instrument id after the prices of the instruments in done.
  function SampledIn(mids: map<string, real>, done: set<string>, id: string, l: Line, now: int): Line {
    if id in mids && id in done then Sampled(l, Sample(now, mids[id])) else l
  }

  class Engine {
    var klines: map<string, Bucket>
    var rows: map<string, map<int, Ohlc>> // market_klines: pair, then bucket_ts

    constructor ()
      ensures forall id :: LineOf(id) == Line(None, map[])
    {
      klines, rows := map[], map[];
    }

    ghost function LineOf(id: string): Line
      reads this
    {
      Line(if id in klines then Some(klines[id]) else None, RowsOf(id))
    }

    function RowsOf(id: string): map<int, Ohlc>
      reads this
    {
      if id in rows then rows[id] else map[]
    }

    // flushKline and the upsert: a row with the same key is overwritten.
    method FlushKline(id: string, b: Bucket)
      modifies this`rows
      ensures rows == old(rows)[id := old(RowsOf(id))[b.startedAt := b.bar]]
    {
      rows := rows[id := RowsOf(id)[b.startedAt := b.bar]];
    }

    method OnPrice(id: string, mid: real, now: int)
      modifies this
      ensures LineOf(id) == Sampled(old(LineOf(id)), Sample(now, mid))
      ensures forall k :: k != id ==> LineOf(k) == old(LineOf(k))
    {
      if mid <= 0.0 {
        return;
      }
      if id !in klines || now - klines[id].startedAt >= 60 {
        if id in klines {
          FlushKline(id, klines[id]);
        }
        klines := klines[id := Bucket(now, Ohlc(mid, mid, mid, mid))];
        return;
      }
      var b := klines[id].bar;
      b := b.(close := mid);
      if mid > b.high {
        b := b.(high := mid);
      }
      if mid < b.low {
        b := b.(low := mid);
      }
      klines := klines[id := klines[id].(bar := b)];
    }

    // One snapshot: all its instruments, in any order, at one clock reading.
    method OnSnapshot(mids: map<string, real>, now: int)
      modifies this
      ensures forall id :: id in mids ==> LineOf(id) == Sampled(old(LineOf(id)), Sample(now, mids[id]))
      ensures forall id :: id !in mids ==> LineOf(id) == old(LineOf(id))
    {
      var left := mids.Keys;
      while left != {}
        invariant left <= mids.Keys
        invariant forall id :: LineOf(id) == SampledIn(mids, mids.Keys - left, id, old(LineOf(id)), now)
      {
        var id :| id in left;
        OnPrice(id, mids[id], now);
        left := left - {id};
      }
    }

    // One tick of klineLoop.
    method FlushAll()
      modifies this
      ensures forall id :: LineOf(id) == Flushed(old(LineOf(id)))
    {
      var left := klines.Keys;
      while left != {}
        invariant left <= klines.Keys && klines == old(klines)
        invariant forall id :: LineOf(id) == if id in left then old(LineOf(id)) else Flushed(old(LineOf(id)))
      {
        var id :| id in left;
        FlushKline(id, klines[id]);
        left := left - {id};
      }
    }
  }

  // ----- every interleaving of snapshots and flushes -----

  datatype Event = Snapshot(sample: Sample) | Flush

  function Run(events: seq<Event>): Line {
    if events == [] then Line(None, map[]) else
      var l := Run(events[..|events| - 1]);
      match events[|events| - 1]
      case Snapshot(s) => Sampled(l, s)
      case Flush => Flushed(l)
  }

  // The positive samples of a run, in order.
  function Samples(events: seq<Event>): seq<Sample> {
    if events == [] then [] else
      var rest := Samples(events[..|events| - 1]);
      match events[|events| - 1]
      case Snapshot(s) => if s.price > 0.0 then rest + [s] else rest
      case Flush => rest
  }

  // The specification of the buckets: a sample 60 seconds or more after the first of the current
  // group starts a new one.
  function AddSample(groups: seq<seq<Sample>>, s: Sample): seq<seq<Sample>> {
    if StartsGroup(groups, s) then groups + [[s]]
    else groups[..|groups| - 1] + [groups[|groups| - 1] + [s]]
  }

  predicate StartsGroup(groups: seq<seq<Sample>>, s: Sample) {
    groups == [] || groups[|groups| - 1] == [] || s.at - groups[|groups| - 1][0].at >= 60
  }

  function Groups(samples: seq<Sample>): seq<seq<Sample>> {
    if samples == [] then [] else AddSample(Groups(samples[..|samples| - 1]), samples[|samples| - 1])
  }

  function Flatten(groups: seq<seq<Sample>>): seq<Sample> {
    if groups == [] then [] else Flatten(groups[..|groups| - 1]) + groups[|groups| - 1]
  }

  // Consecutive non-empty groups, their starts at least 60 seconds apart.
  ghost predicate Spaced(groups: seq<seq<Sample>>) {
    && (forall i :: 0 <= i < |groups| ==> groups[i] != [])
    && (forall i, j :: 0 <= i < j < |groups| ==> groups[j][0].at - groups[i][0].at >= 60)
  }

  ghost predicate WithinMinute(groups: seq<seq<Sample>>) {
    forall i, k :: 0 <= i < |groups| && 0 <= k < |groups[i]| && k > 0 ==> groups[i][k].at - groups[i][0].at < 60
  }

  ghost predicate Split(groups: seq<seq<Sample>>, samples: seq<Sample>) {
    Flatten(groups) == samples && Spaced(groups) && WithinMinute(groups)
  }

  // The groups cut the samples into contiguous, well-spaced pieces shorter than a minute.
  lemma {:induction false} GroupsSplitSamples(samples: seq<Sample>)
    ensures Split(Groups(samples), samples)
  {
    if samples != [] {
      var before, s := samples[..|samples| - 1], samples[|samples| - 1];
      GroupsSplitSamples(before);
      AddKeepsSplit(Groups(before), before, s);
      assert samples == before + [s];
    }
  }

  lemma AddKeepsSplit(groups: seq<seq<Sample>>, samples: seq<Sample>, s: Sample)
    requires Split(groups, samples)
    ensures Split(AddSample(groups, s), samples + [s])
  {
    AddKeepsSpacing(groups, s);
    AddKeepsWithinMinute(groups, s);
    AddAppends(groups, s);
  }

  lemma AddAppends(groups: seq<seq<Sample>>, s: Sample)
    ensures Flatten(AddSample(groups, s)) == Flatten(groups) + [s]
  {
  }

  lemma AddKeepsSpacing(groups: seq<seq<Sample>>, s: Sample)
    requires Spaced(groups)
    ensures Spaced(AddSample(groups, s))
  {
  }

  lemma AddKeepsWithinMinute(groups: seq<seq<Sample>>, s: Sample)
    requires WithinMinute(groups)
    ensures WithinMinute(AddSample(groups, s))
  {
  }

  // The OHLC of a group, as the engine accumulates it ...
  function BarOf(group: seq<Sample>): Ohlc
    requires group != []
  {
    if |group| == 1 then Single(group[0].price)
    else Extended(BarOf(group[..|group| - 1]), group[|group| - 1].price)
  }

  // ... is first, maximum, minimum and last price.
  lemma {:induction false} BarIsOhlc(group: seq<Sample>)
    requires group != []
    ensures var b := BarOf(group);
      && b.open == group[0].price && b.close == group[|group| - 1].price
      && (forall i :: 0 <= i < |group| ==> b.low <= group[i].price <= b.high)
      && (exists i :: 0 <= i < |group| && group[i].price == b.high)
      && (exists i :: 0 <= i < |group| && group[i].price == b.low)
  {
    if |group| > 1 {
      var n := |group| - 1;
      BarIsOhlc(group[..n]);
      var b := BarOf(group[..n]);
      var i :| 0 <= i < n && group[..n][i].price == b.high;
      var j :| 0 <= j < n && group[..n][j].price == b.low;
      assert group[if group[n].price > b.high then n else i].price == BarOf(group).high;
      assert group[if group[n].price < b.low then n else j].price == BarOf(group).low;
    }
  }

  // Some group starts at time t.
  ghost predicate IsStart(groups: seq<seq<Sample>>, t: int) {
    exists i :: 0 <= i < |groups| && groups[i] != [] && groups[i][0].at == t
  }

  // The row of group i holds exactly its bar.
  ghost predicate RowHolds(rows: map<int, Ohlc>, group: seq<Sample>) {
    group != [] && group[0].at in rows && rows[group[0].at] == BarOf(group)
  }

  // What the line holds: the last group in the bucket, every closed group's bar in the row of its
  // start, and no row that is not some group's.
  ghost predicate BucketIsLast(l: Line, groups: seq<seq<Sample>>) {
    if groups == [] then l.bucket == None
    else
      var g := groups[|groups| - 1];
      g != [] && l.bucket == Some(Bucket(g[0].at, BarOf(g)))
  }

  ghost predicate RowsRefine(rows: map<int, Ohlc>, groups: seq<seq<Sample>>) {
    && (forall i :: 0 <= i < |groups| - 1 ==> RowHolds(rows, groups[i]))
    && (forall t :: t in rows ==> IsStart(groups, t))
  }

  lemma FlushKeepsRows(l: Line, groups: seq<seq<Sample>>)
    requires Spaced(groups) && BucketIsLast(l, groups) && RowsRefine(l.rows, groups)
    ensures BucketIsLast(Flushed(l), groups) && RowsRefine(Flushed(l).rows, groups)
    ensures groups != [] ==> RowHolds(Flushed(l).rows, groups[|groups| - 1])
  {
  }

  lemma StartsStay(groups: seq<seq<Sample>>, s: Sample, t: int)
    requires IsStart(groups, t)
    ensures IsStart(AddSample(groups, s), t)
  {
    var i :| 0 <= i < |groups| && groups[i] != [] && groups[i][0].at == t;
    assert AddSample(groups, s)[i] != [] && AddSample(groups, s)[i][0].at == t;
  }

  lemma SampleKeepsBucket(l: Line, groups: seq<seq<Sample>>, s: Sample)
    requires BucketIsLast(l, groups) && s.price > 0.0
    ensures BucketIsLast(Sampled(l, s), AddSample(groups, s))
  {
  }

  lemma SampleKeepsRows(l: Line, groups: seq<seq<Sample>>, s: Sample)
    requires Spaced(groups) && BucketIsLast(l, groups) && RowsRefine(l.rows, groups) && s.price > 0.0
    ensures RowsRefine(Sampled(l, s).rows, AddSample(groups, s))
  {
    var rows, now := Sampled(l, s).rows, AddSample(groups, s);
    FlushKeepsRows(l, groups);
    forall i | 0 <= i < |now| - 1 ensures RowHolds(rows, now[i]) {
      assert now[i] == groups[i];
    }
    forall t | t in rows ensures IsStart(now, t) {
      StartsStay(groups, s, t);
    }
  }

  // In every interleaving the bucket and the stored rows are those of the sample groups: each
  // closed bucket's row is exactly the bar of its samples, and no flush or upsert touches another
  // bucket's row.
  lemma {:induction false} RunRefinesGroups(events: seq<Event>)
    ensures BucketIsLast(Run(events), Groups(Samples(events)))
    ensures RowsRefine(Run(events).rows, Groups(Samples(events)))
  {
    if events != [] {
      var before, samples := events[..|events| - 1], Samples(events[..|events| - 1]);
      RunRefinesGroups(before);
      GroupsSplitSamples(samples);
      match events[|events| - 1] {
        case Snapshot(s) =>
          if s.price > 0.0 {
            SampleKeepsBucket(Run(before), Groups(samples), s);
            SampleKeepsRows(Run(before), Groups(samples), s);
            assert (samples + [s])[..|samples|] == samples;
          }
        case Flush =>
          FlushKeepsRows(Run(before), Groups(samples));
      }
    }
  }

  // Right after a flush the row of the bucket in progress is current too.
  lemma FlushStoresCurrentBucket(events: seq<Event>)
    ensures var groups := Groups(Samples(events));
      groups != [] ==> RowHolds(Run(events + [Flush]).rows, groups[|groups| - 1])
  {
    assert (events + [Flush])[..|events|] == events;
    RunRefinesGroups(events);
    GroupsSplitSamples(Samples(events));
    FlushKeepsRows(Run(events), Groups(Samples(events)));
  }
}
