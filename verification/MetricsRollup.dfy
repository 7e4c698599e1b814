/**
  The metrics history of game servers: counters are normalised when a sample is stored,
  and fine-grained samples are rolled up into one row per server and hour. Times are
  seconds; the hourly rows are kept by server and hour, as their unique index demands.

  Line numbers refer to `internal/db/metrics-history.go`.
 */
module MetricsRollup {
  import opened Wrappers

  const SECONDS_PER_HOUR := 3600

  datatype Counters = Counters(
    samples: int, available: int, cpu: int, query: int, duration: int, fps: int, frameTime: int,
    volume: int, io: int, connection: int)

  datatype Sample = Sample(
    server: string, recordedAt: nat, granularity: int, counters: Counters,
    cpuPercent: real, memory: int, memoryMin: Option<int>, memoryMax: Option<int>)

  // ----- storing one sample

  /** What a caller hands in; the flags say which optional values it has. */
  datatype Input = Input(
    sample: Sample, status: string, cpuValid: bool, cpuValidSet: bool, querySuccess: bool,
    hasDuration: bool, hasFps: bool, hasFrameTime: bool, volumeValid: bool, ioSet: bool, connectionSet: bool)

  function Min(a: int, b: int): int { if a < b then a else b }
  function Max(a: int, b: int): int { if a < b then b else a }

  /** Sub-counts never exceed what they are counted among. */
  predicate Nested(c: Counters) { NestedQuery(c) && NestedSamples(c) }

  predicate NestedQuery(c: Counters) {
    && 0 <= c.duration <= c.query && 0 <= c.fps <= c.query && 0 <= c.frameTime <= c.query
    && 0 <= c.query <= c.samples
  }

  predicate NestedSamples(c: Counters) {
    && 1 <= c.samples && 0 <= c.cpu <= c.samples && 0 <= c.volume <= c.samples
    && 0 <= c.available && 0 <= c.io && 0 <= c.connection
  }

  /** With the I/O and connection counts as well, as callers get it that set these counts. */
  predicate FullyNested(c: Counters) { Nested(c) && c.io <= c.samples && c.connection <= c.samples }

  /** A query sub-count is filled in only where there is a measured value to count. */
  predicate QueryFromInput(input: Input, c: Counters) {
    var given := input.sample.counters;
    && (c.query > 0 ==> given.query > 0 || input.querySuccess)
    && (c.duration > 0 ==> given.duration > 0 || input.hasDuration)
    && (c.fps > 0 ==> given.fps > 0 || input.hasFps)
    && (c.frameTime > 0 ==> given.frameTime > 0 || input.hasFrameTime)
  }

  function StatusOf(input: Input): string { if input.status == "" then "available" else input.status }

  /** So are the others; what is in range already is kept. */
  predicate SamplesFromInput(input: Input, c: Counters) {
    var given := input.sample.counters;
    && c.samples == (if given.samples <= 0 then 1 else given.samples)
    && (c.cpu > 0 ==> given.cpu > 0 || input.cpuValid || (!input.cpuValidSet && StatusOf(input) == "available"))
    && (c.volume > 0 ==> given.volume > 0 || input.volumeValid)
    && (c.io <= c.samples <==> input.ioSet || given.io > 0 || given.available <= c.samples)
    && (c.connection <= c.samples <==> input.connectionSet || given.connection > 0 || given.available <= c.samples)
    && (given.available > 0 ==> c.available == given.available)
  }

  /** Positive counts, nested as they should be, are stored as they are. */
  predicate QueryKept(given: Counters, c: Counters) {
    0 < given.query <= c.samples ==>
      && c.query == given.query
      && (0 < given.duration <= given.query ==> c.duration == given.duration)
      && (0 < given.fps <= given.query ==> c.fps == given.fps)
      && (0 < given.frameTime <= given.query ==> c.frameTime == given.frameTime)
  }

  predicate SamplesKept(given: Counters, c: Counters) {
    && (0 < given.cpu <= c.samples ==> c.cpu == given.cpu)
    && (0 < given.volume <= c.samples ==> c.volume == given.volume)
    && (0 < given.io <= c.samples ==> c.io == given.io)
    && (0 < given.connection <= c.samples ==> c.connection == given.connection)
  }

  /** A count above its bound is the bound; one that is not positive stands for all, if it may, or none. */
  ghost function Within(given: int, bound: int, fill: bool): int {
    if given > bound then bound else if given > 0 then given else if fill then bound else 0
  }

  /** Every query count, from what was handed in and the number of samples. */
  ghost predicate QueryExactly(input: Input, c: Counters) {
    var given := input.sample.counters;
    && c.query == Within(given.query, c.samples, input.querySuccess)
    && c.duration == Within(given.duration, c.query, input.hasDuration)
    && c.fps == Within(given.fps, c.query, input.hasFps)
    && c.frameTime == Within(given.frameTime, c.query, input.hasFrameTime)
  }

  /** And every other count. */
  ghost predicate SamplesExactly(input: Input, c: Counters) {
    var given, reachable := input.sample.counters, input.status == "" || input.status == "available";
    var rest := if given.available > 0 then given.available else 0;
    && c.samples == (if given.samples > 0 then given.samples else 1)
    && c.available == (if given.available == 0 && reachable then 1 else rest)
    && c.cpu == Within(given.cpu, c.samples, input.cpuValid || (!input.cpuValidSet && reachable))
    && c.volume == Within(given.volume, c.samples, input.volumeValid)
    && c.io == (if given.io > 0 then Min(given.io, c.samples) else if input.ioSet then 0 else rest)
    && c.connection == (if given.connection > 0 then Min(given.connection, c.samples) else if input.connectionSet then 0 else rest)
  }

  /**
    Lines 168-217. Whatever the input, the counters come out nested; sensible counts are
    stored as they are, and an absent count is filled in only where its flag allows.
    Only the I/O and connection counts can exceed the samples, and exactly when an
    available count larger than the samples stands in for them.
   */
  method Normalize(input: Input) returns (row: Sample)
    ensures row == input.sample.(counters := row.counters, granularity := row.granularity)
    ensures row.granularity == if input.sample.granularity > 0 then input.sample.granularity else 60
    ensures Nested(row.counters)
    ensures input.ioSet && input.connectionSet ==> FullyNested(row.counters)
    ensures QueryFromInput(input, row.counters) && SamplesFromInput(input, row.counters)
    ensures QueryKept(input.sample.counters, row.counters) && SamplesKept(input.sample.counters, row.counters)
    ensures QueryExactly(input, row.counters) && SamplesExactly(input, row.counters)
  {
    var granularity := input.sample.granularity;
    if granularity <= 0 {
      granularity := 60;
    }
    var counters := SampleCounts(input);
    counters := QueryCounts(input, counters);
    row := input.sample.(counters := counters, granularity := granularity);
  }

  /** Lines 172-187 and 204-217. */
  method SampleCounts(input: Input) returns (c: Counters)
    ensures c.query == c.duration == c.fps == c.frameTime == 0
    ensures NestedSamples(c) && SamplesFromInput(input, c) && SamplesKept(input.sample.counters, c)
    ensures SamplesExactly(input, c)
  {
    var given := input.sample.counters;
    var samples := given.samples;
    if samples <= 0 {
      samples := 1;
    }
    var available := Max(given.available, 0);
    var cpu := CpuCount(input, samples);
    var volume := CountWithin(given.volume, samples, input.volumeValid);
    var io := CountOrAvailable(given.io, samples, input.ioSet, available);
    var connection := CountOrAvailable(given.connection, samples, input.connectionSet, available);
    if given.available == 0 && StatusOf(input) == "available" {
      available := 1;
    }
    c := Counters(samples, available, cpu, 0, 0, 0, 0, volume, io, connection);
    SampleCountsAreSensible(input, c);
  }

  /** Lines 178-189. */
  method CpuCount(input: Input, samples: int) returns (cpu: int)
    requires 0 < samples
    ensures cpu == Within(input.sample.counters.cpu, samples,
                          input.cpuValid || (!input.cpuValidSet && (input.status == "" || input.status == "available")))
  {
    var cpuValid := input.cpuValid;
    if !input.cpuValidSet && StatusOf(input) == "available" {
      cpuValid := true;
    }
    cpu := CountWithin(input.sample.counters.cpu, samples, cpuValid);
  }

  lemma SampleCountsAreSensible(input: Input, c: Counters)
    requires SamplesExactly(input, c)
    ensures NestedSamples(c) && SamplesFromInput(input, c) && SamplesKept(input.sample.counters, c)
  {
  }

  /** Lines 188-203. */
  method QueryCounts(input: Input, before: Counters) returns (c: Counters)
    requires 0 <= before.samples
    ensures c == before.(query := c.query, duration := c.duration, fps := c.fps, frameTime := c.frameTime)
    ensures NestedQuery(c) && QueryFromInput(input, c) && QueryKept(input.sample.counters, c)
    ensures QueryExactly(input, c)
  {
    var given := input.sample.counters;
    var query := CountWithin(given.query, before.samples, input.querySuccess);
    var duration := CountWithin(given.duration, query, input.hasDuration);
    var fps := CountWithin(given.fps, query, input.hasFps);
    var frameTime := CountWithin(given.frameTime, query, input.hasFrameTime);
    c := before.(query := query, duration := duration, fps := fps, frameTime := frameTime);
  }

  /** A count clamped into `0..bound`; an absent one stands for all if `fill` says so. */
  method CountWithin(given: int, bound: int, fill: bool) returns (count: int)
    requires 0 <= bound
    ensures 0 <= count <= bound
    ensures count == Within(given, bound, fill)
  {
    count := Min(Max(given, 0), bound);
    if count == 0 && fill {
      count := bound;
    }
  }

  /** A count clamped into `0..bound`; an absent one that was not set is the available count. */
  method CountOrAvailable(given: int, bound: int, isSet: bool, available: int) returns (count: int)
    requires 0 < bound && 0 <= available
    ensures 0 <= count
    ensures given > 0 ==> count == Min(given, bound)
    ensures given <= 0 ==> count == if isSet then 0 else available
  {
    count := Min(Max(given, 0), bound);
    if !isSet && count == 0 && available > 0 {
      count := available;
    }
  }

  // ----- rolling up

  datatype Bucket = Bucket(server: string, hour: nat)

  function BucketOf(r: Sample): Bucket { Bucket(r.server, r.recordedAt / SECONDS_PER_HOUR) }

  /** `loose` are the rows as stored; `hourly` the rows made by rolling up. */
  datatype Table = Table(loose: seq<Sample>, hourly: map<Bucket, Sample>)

  predicate Eligible(r: Sample, cutoff: nat) { r.recordedAt < cutoff && r.granularity < SECONDS_PER_HOUR }

  /** The eligible rows of one group. */
  function GroupOf(rows: seq<Sample>, cutoff: nat, b: Bucket): seq<Sample> {
    if rows == [] then [] else
    var last := rows[|rows| - 1];
    GroupOf(rows[..|rows| - 1], cutoff, b) + if Eligible(last, cutoff) && BucketOf(last) == b then [last] else []
  }

  function Remaining(rows: seq<Sample>, cutoff: nat): seq<Sample> {
    if rows == [] then [] else
    var last := rows[|rows| - 1];
    Remaining(rows[..|rows| - 1], cutoff) + if Eligible(last, cutoff) then [] else [last]
  }

  function Buckets(rows: seq<Sample>, cutoff: nat): set<Bucket> {
    set i | 0 <= i < |rows| && Eligible(rows[i], cutoff) :: BucketOf(rows[i])
  }

  // ----- totals

  datatype Counter = Samples | AvailableSamples | Cpu | Query | Duration | Fps | FrameTime | Volume | Io | Connection

  function Count(c: Counters, k: Counter): int {
    match k
    case Samples => c.samples
    case AvailableSamples => c.available
    case Cpu => c.cpu
    case Query => c.query
    case Duration => c.duration
    case Fps => c.fps
    case FrameTime => c.frameTime
    case Volume => c.volume
    case Io => c.io
    case Connection => c.connection
  }

  /** What is to be conserved: every counter, and the CPU percentage weighted by valid samples. */
  datatype Measure = OfCounter(k: Counter) | CpuWeighted

  function Of(r: Sample, m: Measure): real {
    match m
    case OfCounter(k) => Count(r.counters, k) as real
    case CpuWeighted => r.cpuPercent * r.counters.cpu as real
  }

  function Sum(rows: seq<Sample>, m: Measure): real {
    if rows == [] then 0.0 else Sum(rows[..|rows| - 1], m) + Of(rows[|rows| - 1], m)
  }

  function SumCount(rows: seq<Sample>, k: Counter): int {
    if rows == [] then 0 else SumCount(rows[..|rows| - 1], k) + Count(rows[|rows| - 1].counters, k)
  }

  function SumCounters(rows: seq<Sample>): Counters {
    Counters(SumCount(rows, Samples), SumCount(rows, AvailableSamples), SumCount(rows, Cpu), SumCount(rows, Query),
             SumCount(rows, Duration), SumCount(rows, Fps), SumCount(rows, FrameTime), SumCount(rows, Volume),
             SumCount(rows, Io), SumCount(rows, Connection))
  }

  function PlusCounters(a: Counters, b: Counters): Counters {
    Counters(a.samples + b.samples, a.available + b.available, a.cpu + b.cpu, a.query + b.query,
             a.duration + b.duration, a.fps + b.fps, a.frameTime + b.frameTime, a.volume + b.volume,
             a.io + b.io, a.connection + b.connection)
  }

  function SumCpu(rows: seq<Sample>): real {
    if rows == [] then 0.0 else SumCpu(rows[..|rows| - 1]) + rows[|rows| - 1].cpuPercent
  }

  function SumMemory(rows: seq<Sample>): int {
    if rows == [] then 0 else SumMemory(rows[..|rows| - 1]) + rows[|rows| - 1].memory
  }

  /** Memory weighted by available samples. */
  function WeighMemory(rows: seq<Sample>): int {
    if rows == [] then 0
    else WeighMemory(rows[..|rows| - 1]) + rows[|rows| - 1].memory * rows[|rows| - 1].counters.available
  }

  // ----- one group becomes one row

  /** Integer division of the database: towards zero. */
  function Truncated(a: int, b: int): int
    requires b > 0
  {
    if a >= 0 then a / b else -((-a) / b)
  }

  /** Rounding of the database: halves away from zero. */
  function Rounded(x: real): int {
    if x >= 0.0 then (x + 0.5).Floor else -((-x + 0.5).Floor)
  }

  /** The least and greatest bounds of the rows that had the measurement and the bound. */
  function LeastBound(rows: seq<Sample>): Option<int> {
    if rows == [] then None else
    var last := rows[|rows| - 1];
    var least := LeastBound(rows[..|rows| - 1]);
    if last.counters.available > 0 && last.memoryMin.Some? && (least.None? || last.memoryMin.value < least.value)
    then last.memoryMin else least
  }

  function GreatestBound(rows: seq<Sample>): Option<int> {
    if rows == [] then None else
    var last := rows[|rows| - 1];
    var greatest := GreatestBound(rows[..|rows| - 1]);
    if last.counters.available > 0 && last.memoryMax.Some? && (greatest.None? || last.memoryMax.value > greatest.value)
    then last.memoryMax else greatest
  }

  /** Weighted by valid samples if there are any, else the plain average. */
  function MeanCpu(rows: seq<Sample>): real {
    var weight := SumCount(rows, Cpu);
    if weight != 0 then Sum(rows, CpuWeighted) / weight as real
    else if rows != [] then SumCpu(rows) / |rows| as real
    else 0.0
  }

  function MeanMemory(rows: seq<Sample>): int {
    var weight := SumCount(rows, AvailableSamples);
    if weight > 0 then Truncated(WeighMemory(rows), weight)
    else if rows != [] then Rounded(SumMemory(rows) as real / |rows| as real)
    else 0
  }

  function Aggregate(b: Bucket, rows: seq<Sample>): Sample {
    Sample(b.server, b.hour * SECONDS_PER_HOUR, SECONDS_PER_HOUR, SumCounters(rows),
           MeanCpu(rows), MeanMemory(rows), LeastBound(rows), GreatestBound(rows))
  }

  /** The first statement of the transaction: one hourly row per group, replacing any older one. */
  function Inserted(t: Table, cutoff: nat): Table {
    t.(hourly := t.hourly + map b | b in Buckets(t.loose, cutoff) :: Aggregate(b, GroupOf(t.loose, cutoff, b)))
  }

  /** The second: what was rolled up is deleted. */
  function Deleted(t: Table, cutoff: nat): Table { t.(loose := Remaining(t.loose, cutoff)) }

  function Rolled(t: Table, cutoff: nat): Table { Deleted(Inserted(t, cutoff), cutoff) }

  class MetricsHistory {
    var table: Table

    constructor ()
      ensures table == Table([], map[])
    {
      table := Table([], map[]);
    }

    method Insert(input: Input) returns (ghost row: Sample)
      modifies this
      ensures Nested(row.counters) && table == old(table).(loose := old(table).loose + [row])
      ensures input.ioSet && input.connectionSet ==> FullyNested(row.counters)
      ensures row == input.sample.(counters := row.counters, granularity := row.granularity)
      ensures row.granularity == if input.sample.granularity > 0 then input.sample.granularity else 60
      ensures QueryExactly(input, row.counters) && SamplesExactly(input, row.counters)
    {
      var stored := Normalize(input);
      row := stored;
      table := table.(loose := table.loose + [stored]);
    }

    /** Lines 522-673; `fails` says whether each statement or the commit fails. */
    method RollupToHourly(cutoff: nat, fails: seq<bool>) returns (ok: bool)
      requires |fails| == 4
      modifies this
      ensures ok <==> fails == [false, false, false, false]
      ensures table == if ok then Rolled(old(table), cutoff) else old(table)
    {
      if fails[0] {
        return false;
      }
      var inTransaction := table;
      if fails[1] {
        return false;
      }
      inTransaction := Inserted(inTransaction, cutoff);
      if fails[2] {
        return false;
      }
      inTransaction := Deleted(inTransaction, cutoff);
      if fails[3] {
        return false;
      }
      table := inTransaction;
      ok := true;
    }
  }

  // ----- conservation

  /** Everything known about one server in one hour, rolled up or not. */
  function RowsTotal(rows: seq<Sample>, b: Bucket, m: Measure): real {
    if rows == [] then 0.0 else
    var last := rows[|rows| - 1];
    RowsTotal(rows[..|rows| - 1], b, m) + if BucketOf(last) == b then Of(last, m) else 0.0
  }

  function BucketTotal(t: Table, b: Bucket, m: Measure): real {
    RowsTotal(t.loose, b, m) + if b in t.hourly then Of(t.hourly[b], m) else 0.0
  }

  ghost predicate AllNested(rows: seq<Sample>) {
    forall i :: 0 <= i < |rows| ==> Nested(rows[i].counters)
  }

  lemma {:induction false} GroupAndRest(rows: seq<Sample>, cutoff: nat, b: Bucket, m: Measure)
    ensures RowsTotal(rows, b, m) == RowsTotal(Remaining(rows, cutoff), b, m) + Sum(GroupOf(rows, cutoff, b), m)
  {
    if rows != [] {
      var n := |rows| - 1;
      var last := rows[n];
      GroupAndRest(rows[..n], cutoff, b, m);
      var rest, group := Remaining(rows[..n], cutoff), GroupOf(rows[..n], cutoff, b);
      if Eligible(last, cutoff) {
        assert Remaining(rows, cutoff) == rest;
        if BucketOf(last) == b {
          assert (group + [last])[..|group|] == group;
        } else {
          assert GroupOf(rows, cutoff, b) == group;
        }
      } else {
        assert (rest + [last])[..|rest|] == rest;
        assert GroupOf(rows, cutoff, b) == group;
      }
    }
  }

  lemma {:induction false} GroupNonempty(rows: seq<Sample>, cutoff: nat, b: Bucket)
    ensures b in Buckets(rows, cutoff) <==> GroupOf(rows, cutoff, b) != []
    ensures AllNested(rows) ==> AllNested(GroupOf(rows, cutoff, b))
  {
    if rows != [] {
      var n := |rows| - 1;
      GroupNonempty(rows[..n], cutoff, b);
      if b in Buckets(rows[..n], cutoff) {
        var i :| 0 <= i < n && Eligible(rows[..n][i], cutoff) && BucketOf(rows[..n][i]) == b;
        assert Eligible(rows[i], cutoff) && BucketOf(rows[i]) == b;
      }
      if b in Buckets(rows, cutoff) && BucketOf(rows[n]) != b {
        var i :| 0 <= i < |rows| && Eligible(rows[i], cutoff) && BucketOf(rows[i]) == b;
        assert rows[..n][i] == rows[i];
      }
    }
  }

  lemma {:induction false} SumIsCount(rows: seq<Sample>, k: Counter)
    ensures Sum(rows, OfCounter(k)) == SumCount(rows, k) as real
  {
    if rows != [] {
      SumIsCount(rows[..|rows| - 1], k);
    }
  }

  /** Sums of nested counters are nested. */
  lemma {:induction false} SumNested(rows: seq<Sample>)
    requires AllNested(rows) && rows != []
    ensures Nested(SumCounters(rows))
  {
    var front := rows[..|rows| - 1];
    if front == [] {
      assert forall k :: SumCount(front, k) == 0;
    } else {
      SumNested(front);
    }
    assert SumCounters(rows) == PlusCounters(SumCounters(front), rows[|rows| - 1].counters);
  }

  /** No valid sample means nothing weighted. */
  lemma {:induction false} NoWeight(rows: seq<Sample>)
    requires AllNested(rows)
    ensures SumCount(rows, Cpu) >= 0
    ensures SumCount(rows, Cpu) == 0 ==> Sum(rows, CpuWeighted) == 0.0
  {
    if rows != [] {
      NoWeight(rows[..|rows| - 1]);
    }
  }

  /** An hourly row stands for exactly the totals of its group. */
  lemma {:induction false} AggregateTotals(b: Bucket, rows: seq<Sample>, m: Measure)
    requires AllNested(rows)
    ensures Of(Aggregate(b, rows), m) == Sum(rows, m)
  {
    match m
    case OfCounter(k) => SumIsCount(rows, k);
    case CpuWeighted =>
      NoWeight(rows);
      var weight := SumCount(rows, Cpu) as real;
      if weight != 0.0 {
        assert Sum(rows, CpuWeighted) / weight * weight == Sum(rows, CpuWeighted);
      }
  }

  /** What a rollup loses in a bucket: the hourly row that it replaces. */
  function Replaced(t: Table, cutoff: nat, b: Bucket, m: Measure): real {
    if b in Buckets(t.loose, cutoff) && b in t.hourly then Of(t.hourly[b], m) else 0.0
  }

  /** A rollup keeps the totals of every server and hour but for what it replaces. */
  lemma RollupAccounts(t: Table, cutoff: nat, b: Bucket, m: Measure)
    requires AllNested(t.loose)
    ensures BucketTotal(t, b, m) == BucketTotal(Rolled(t, cutoff), b, m) + Replaced(t, cutoff, b, m)
  {
    GroupAndRest(t.loose, cutoff, b, m);
    GroupNonempty(t.loose, cutoff, b);
    AggregateTotals(b, GroupOf(t.loose, cutoff, b), m);
  }

  ghost predicate TableNested(t: Table) {
    AllNested(t.loose) && forall b :: b in t.hourly ==> Nested(t.hourly[b].counters)
  }

  /** No sample to be rolled up belongs to an hour that was rolled up before. */
  predicate NoLateSample(t: Table, cutoff: nat) { Buckets(t.loose, cutoff) !! t.hourly.Keys }

  /**
    The totals of every server and hour are conserved exactly when no sample is late;
    a late one makes the sample count of its hour fall.
   */
  lemma ConservedExactly(t: Table, cutoff: nat)
    requires TableNested(t)
    ensures NoLateSample(t, cutoff) <==> forall b, m :: BucketTotal(Rolled(t, cutoff), b, m) == BucketTotal(t, b, m)
  {
    if NoLateSample(t, cutoff) {
      forall b, m ensures BucketTotal(Rolled(t, cutoff), b, m) == BucketTotal(t, b, m) {
        RollupAccounts(t, cutoff, b, m);
      }
    } else {
      var b :| b in Buckets(t.loose, cutoff) && b in t.hourly;
      RollupAccounts(t, cutoff, b, OfCounter(Samples));
      assert Of(t.hourly[b], OfCounter(Samples)) >= 1.0;
    }
  }

  /** The totals of a server over its first `hours` hours. */
  function ServerTotal(t: Table, server: string, hours: nat, m: Measure): real {
    if hours == 0 then 0.0
    else ServerTotal(t, server, hours - 1, m) + BucketTotal(t, Bucket(server, hours - 1), m)
  }

  lemma {:induction false} ServerConserved(t: Table, cutoff: nat, server: string, hours: nat, m: Measure)
    requires TableNested(t) && NoLateSample(t, cutoff)
    ensures ServerTotal(Rolled(t, cutoff), server, hours, m) == ServerTotal(t, server, hours, m)
  {
    if hours > 0 {
      ServerConserved(t, cutoff, server, hours - 1, m);
      ConservedExactly(t, cutoff);
    }
  }

  lemma {:induction false} RollupNested(t: Table, cutoff: nat)
    requires TableNested(t)
    ensures TableNested(Rolled(t, cutoff))
  {
    RemainingFrom(t.loose, cutoff);
    var rest := Remaining(t.loose, cutoff);
    forall i | 0 <= i < |rest| ensures Nested(rest[i].counters) {
      assert rest[i] in rest;
    }
    forall b | b in Buckets(t.loose, cutoff) ensures Nested(Aggregate(b, GroupOf(t.loose, cutoff, b)).counters) {
      GroupNonempty(t.loose, cutoff, b);
      SumNested(GroupOf(t.loose, cutoff, b));
    }
  }

  ghost predicate TableFullyNested(t: Table) {
    && (forall i :: 0 <= i < |t.loose| ==> FullyNested(t.loose[i].counters))
    && (forall b :: b in t.hourly ==> FullyNested(t.hourly[b].counters))
  }

  lemma {:induction false} GroupFullyNested(rows: seq<Sample>, cutoff: nat, b: Bucket)
    requires forall i :: 0 <= i < |rows| ==> FullyNested(rows[i].counters)
    ensures forall i :: 0 <= i < |GroupOf(rows, cutoff, b)| ==> FullyNested(GroupOf(rows, cutoff, b)[i].counters)
  {
    if rows != [] {
      GroupFullyNested(rows[..|rows| - 1], cutoff, b);
    }
  }

  lemma {:induction false} SumFullyNested(rows: seq<Sample>)
    requires rows != [] && forall i :: 0 <= i < |rows| ==> FullyNested(rows[i].counters)
    ensures FullyNested(SumCounters(rows))
  {
    SumNested(rows);
    var front := rows[..|rows| - 1];
    if front == [] {
      assert forall k :: SumCount(front, k) == 0;
    } else {
      SumFullyNested(front);
    }
    assert SumCounters(rows) == PlusCounters(SumCounters(front), rows[|rows| - 1].counters);
  }

  /** Where every count was set, a rollup keeps also these within the samples. */
  lemma RollupFullyNested(t: Table, cutoff: nat)
    requires TableFullyNested(t)
    ensures TableFullyNested(Rolled(t, cutoff))
  {
    RemainingFrom(t.loose, cutoff);
    var rest := Remaining(t.loose, cutoff);
    forall i | 0 <= i < |rest| ensures FullyNested(rest[i].counters) {
      assert rest[i] in rest;
    }
    forall b | b in Buckets(t.loose, cutoff) ensures FullyNested(Aggregate(b, GroupOf(t.loose, cutoff, b)).counters) {
      GroupNonempty(t.loose, cutoff, b);
      GroupFullyNested(t.loose, cutoff, b);
      SumFullyNested(GroupOf(t.loose, cutoff, b));
    }
  }

  /** What remains was there before, and is not eligible. */
  lemma {:induction false} RemainingFrom(rows: seq<Sample>, cutoff: nat)
    ensures forall r :: r in Remaining(rows, cutoff) <==> r in rows && !Eligible(r, cutoff)
  {
    if rows != [] {
      var n := |rows| - 1;
      RemainingFrom(rows[..n], cutoff);
      assert forall r :: r in rows <==> r in rows[..n] || r == rows[n];
    }
  }

  // ----- rolling up in steps

  predicate HourAligned(time: nat) { time % SECONDS_PER_HOUR == 0 }

  /** With an aligned cutoff, an hour is rolled up as a whole or not at all. */
  lemma WholeHours(r: Sample, cutoff: nat)
    requires HourAligned(cutoff)
    ensures r.recordedAt < cutoff <==> BucketOf(r).hour < cutoff / SECONDS_PER_HOUR
  {
  }

  lemma {:induction false} GroupsInSteps(rows: seq<Sample>, first: nat, second: nat, b: Bucket)
    requires HourAligned(first) && first <= second
    ensures b.hour < first / SECONDS_PER_HOUR ==>
      GroupOf(rows, first, b) == GroupOf(rows, second, b) && GroupOf(Remaining(rows, first), second, b) == []
    ensures b.hour >= first / SECONDS_PER_HOUR ==>
      GroupOf(rows, first, b) == [] && GroupOf(Remaining(rows, first), second, b) == GroupOf(rows, second, b)
  {
    if rows != [] {
      var n := |rows| - 1;
      GroupsInSteps(rows[..n], first, second, b);
      WholeHours(rows[n], first);
      RemainingNext(rows, first);
      GroupNext(Remaining(rows[..n], first), rows[n], second, b);
    }
  }

  lemma RemainingNext(rows: seq<Sample>, cutoff: nat)
    requires rows != []
    ensures Remaining(rows, cutoff) ==
      Remaining(rows[..|rows| - 1], cutoff) + if Eligible(rows[|rows| - 1], cutoff) then [] else [rows[|rows| - 1]]
  {
  }

  lemma GroupNext(rows: seq<Sample>, r: Sample, cutoff: nat, b: Bucket)
    ensures GroupOf(rows + [r], cutoff, b) ==
      GroupOf(rows, cutoff, b) + if Eligible(r, cutoff) && BucketOf(r) == b then [r] else []
    ensures rows + [] == rows
  {
    assert (rows + [r])[..|rows|] == rows;
  }

  lemma {:induction false} RemainingInSteps(rows: seq<Sample>, first: nat, second: nat)
    requires first <= second
    ensures Remaining(Remaining(rows, first), second) == Remaining(rows, second)
  {
    if rows != [] {
      var n := |rows| - 1;
      RemainingInSteps(rows[..n], first, second);
      var rest := Remaining(rows[..n], first);
      assert (rest + [rows[n]])[..|rest|] == rest;
      assert rest + [] == rest;
    }
  }

  /** Rolling up to an aligned cutoff and then further is rolling up once. */
  lemma RollupInSteps(t: Table, first: nat, second: nat)
    requires HourAligned(first) && first <= second
    ensures Rolled(Rolled(t, first), second) == Rolled(t, second)
  {
    RemainingInSteps(t.loose, first, second);
    var stepwise, once := Rolled(Rolled(t, first), second).hourly, Rolled(t, second).hourly;
    forall b ensures (b in stepwise <==> b in once) && (b in once ==> stepwise[b] == once[b]) {
      BucketInSteps(t, first, second, b);
      assert HourOf(Rolled(t, second), b) == HourOf(Rolled(Rolled(t, first), second), b);
    }
    assert stepwise == once;
  }

  /** The hourly row of a bucket after a rollup: its group's, or the one there was. */
  function HourAfter(t: Table, group: seq<Sample>, b: Bucket): Option<Sample> {
    if group != [] then Some(Aggregate(b, group)) else HourOf(t, b)
  }

  function HourOf(t: Table, b: Bucket): Option<Sample> { if b in t.hourly then Some(t.hourly[b]) else None }

  lemma RolledHour(t: Table, cutoff: nat, b: Bucket)
    ensures HourOf(Rolled(t, cutoff), b) == HourAfter(t, GroupOf(t.loose, cutoff, b), b)
  {
    GroupNonempty(t.loose, cutoff, b);
  }

  lemma BucketInSteps(t: Table, first: nat, second: nat, b: Bucket)
    requires HourAligned(first) && first <= second
    ensures HourOf(Rolled(Rolled(t, first), second), b) == HourOf(Rolled(t, second), b)
  {
    var once := Rolled(t, first);
    RolledHour(t, first, b);
    RolledHour(t, second, b);
    RolledHour(once, second, b);
    GroupsInSteps(t.loose, first, second, b);
    assert once.loose == Remaining(t.loose, first);
  }

  lemma RollupTwiceIsOnce(t: Table, cutoff: nat)
    requires HourAligned(cutoff)
    ensures Rolled(Rolled(t, cutoff), cutoff) == Rolled(t, cutoff)
  {
    RollupInSteps(t, cutoff, cutoff);
  }

  // ----- integer means

  lemma TruncatedBounds(a: int, n: int)
    requires n > 0
    ensures var q := Truncated(a, n);
      && (a >= 0 ==> n * q <= a < n * (q + 1))
      && (a < 0 ==> n * (q - 1) < a <= n * q)
  {
    if a >= 0 {
      DivisionBounds(a, n);
    } else {
      DivisionBounds(-a, n);
      assert n * (-((-a) / n)) == -(n * ((-a) / n));
      assert n * (-((-a) / n) - 1) == -(n * ((-a) / n + 1));
    }
  }

  lemma TruncatedWithin(a: int, n: int, least: int, greatest: int)
    requires n > 0 && n * least <= a <= n * greatest
    ensures least <= Truncated(a, n) <= greatest
  {
    var q := Truncated(a, n);
    TruncatedBounds(a, n);
    if q < least {
      Scaled(n, q + 1, least);
    }
    if q > greatest {
      Scaled(n, greatest, q - 1);
    }
    if a >= 0 && q > greatest { Scaled(n, greatest + 1, q); }
    if a < 0 && q < least { Scaled(n, q, least - 1); }
  }

  /** The mean stored for memory is the weighted mean, cut towards zero. */
  lemma MeanMemoryIsFloor(rows: seq<Sample>)
    requires SumCount(rows, AvailableSamples) > 0
    ensures var n, sum, mean := SumCount(rows, AvailableSamples), WeighMemory(rows), MeanMemory(rows);
      && (sum >= 0 ==> n * mean <= sum < n * (mean + 1))
      && (sum < 0 ==> n * (mean - 1) < sum <= n * mean)
  {
    TruncatedBounds(WeighMemory(rows), SumCount(rows, AvailableSamples));
  }

  lemma DivisionBounds(a: int, n: int)
    requires a >= 0 && n > 0
    ensures n * (a / n) <= a < n * (a / n + 1)
  {
  }

  /** Every weighted row has bounds, and they contain its value. */
  ghost predicate Bounded(r: Sample) {
    r.counters.available > 0 ==>
      r.memoryMin.Some? && r.memoryMax.Some? && r.memoryMin.value <= r.memory <= r.memoryMax.value
  }

  /** The rows' weighted sum lies between the least and the greatest bound times the weight. */
  ghost predicate Between(least: Option<int>, greatest: Option<int>, n: int, sum: int) {
    if n == 0 then least == None && greatest == None && sum == 0
    else n > 0 && least.Some? && greatest.Some? && n * least.value <= sum <= n * greatest.value
  }

  lemma {:induction false} BoundsOfRows(rows: seq<Sample>)
    requires forall i :: 0 <= i < |rows| ==> rows[i].counters.available >= 0 && Bounded(rows[i])
    ensures Between(LeastBound(rows), GreatestBound(rows), SumCount(rows, AvailableSamples), WeighMemory(rows))
  {
    if rows != [] {
      var front, last := rows[..|rows| - 1], rows[|rows| - 1];
      BoundsOfRows(front);
      if last.counters.available > 0 {
        BetweenNext(
          LeastBound(front), GreatestBound(front), SumCount(front, AvailableSamples), WeighMemory(front),
          LeastBound(rows).value, GreatestBound(rows).value, last.counters.available, last.memory);
      } else {
        assert last.memory * 0 == 0;
      }
    }
  }

  /** Row `i` had the measurement and a lower, an upper bound. */
  predicate HasMin(rows: seq<Sample>, i: nat) {
    i < |rows| && rows[i].counters.available > 0 && rows[i].memoryMin.Some?
  }

  predicate HasMax(rows: seq<Sample>, i: nat) {
    i < |rows| && rows[i].counters.available > 0 && rows[i].memoryMax.Some?
  }

  /** The stored lower bound is the least one there is among rows that had the measurement. */
  lemma {:induction false} LeastBoundIsLeast(rows: seq<Sample>)
    ensures LeastBound(rows).Some? <==> exists i: nat :: HasMin(rows, i)
    ensures LeastBound(rows).Some? ==>
      && (exists i: nat :: HasMin(rows, i) && rows[i].memoryMin == LeastBound(rows))
      && (forall i: nat :: HasMin(rows, i) ==> LeastBound(rows).value <= rows[i].memoryMin.value)
  {
    if rows != [] {
      var n := |rows| - 1;
      LeastBoundIsLeast(rows[..n]);
      assert forall i: nat :: HasMin(rows[..n], i) ==> HasMin(rows, i);
      assert forall i: nat :: HasMin(rows, i) ==> i == n || HasMin(rows[..n], i);
      assert LeastBound(rows) == LeastBound(rows[..n]) || (HasMin(rows, n) && LeastBound(rows) == rows[n].memoryMin);
    }
  }

  /** And the stored upper bound the greatest. */
  lemma {:induction false} GreatestBoundIsGreatest(rows: seq<Sample>)
    ensures GreatestBound(rows).Some? <==> exists i: nat :: HasMax(rows, i)
    ensures GreatestBound(rows).Some? ==>
      && (exists i: nat :: HasMax(rows, i) && rows[i].memoryMax == GreatestBound(rows))
      && (forall i: nat :: HasMax(rows, i) ==> rows[i].memoryMax.value <= GreatestBound(rows).value)
  {
    if rows != [] {
      var n := |rows| - 1;
      GreatestBoundIsGreatest(rows[..n]);
      assert forall i: nat :: HasMax(rows[..n], i) ==> HasMax(rows, i);
      assert forall i: nat :: HasMax(rows, i) ==> i == n || HasMax(rows[..n], i);
      assert GreatestBound(rows) == GreatestBound(rows[..n]) || (HasMax(rows, n) && GreatestBound(rows) == rows[n].memoryMax);
    }
  }

  lemma BetweenNext(
    least: Option<int>, greatest: Option<int>, n: int, sum: int, newLeast: int, newGreatest: int, a: int, value: int)
    requires Between(least, greatest, n, sum) && a > 0
    requires newLeast <= value <= newGreatest
    requires n > 0 ==> newLeast <= least.value && greatest.value <= newGreatest
    ensures Between(Some(newLeast), Some(newGreatest), n + a, sum + value * a)
  {
    Scaled(a, newLeast, value);
    Scaled(a, value, newGreatest);
    if n > 0 {
      Scaled(n, newLeast, least.value);
      Scaled(n, greatest.value, newGreatest);
    }
    assert (n + a) * newLeast == n * newLeast + a * newLeast;
    assert (n + a) * newGreatest == n * newGreatest + a * newGreatest;
  }

  lemma Scaled(n: int, x: int, y: int)
    requires n >= 0 && x <= y
    ensures n * x <= n * y
  {
  }

  /** The rolled-up mean lies between the rolled-up bounds. */
  lemma MeanMemoryWithinBounds(b: Bucket, rows: seq<Sample>)
    requires AllNested(rows) && SumCount(rows, AvailableSamples) > 0
    requires forall i :: 0 <= i < |rows| ==> Bounded(rows[i])
    ensures var row := Aggregate(b, rows);
      row.memoryMin.Some? && row.memoryMax.Some? && row.memoryMin.value <= row.memory <= row.memoryMax.value
  {
    BoundsOfRows(rows);
    var least, greatest := LeastBound(rows).value, GreatestBound(rows).value;
    TruncatedWithin(WeighMemory(rows), SumCount(rows, AvailableSamples), least, greatest);
  }

  // ----- whole runs

  /** A stored sample, already normalised, or a rollup. */
  datatype Op = Store(row: Sample) | RollUp(cutoff: nat)

  datatype History = History(table: Table, lastCutoff: nat, stored: seq<Sample>)

  const EMPTY := History(Table([], map[]), 0, [])

  /** Cutoffs are whole hours and never go back, and samples are not older than the last one. */
  predicate Timely(h: History, op: Op) {
    match op
    case Store(r) => Nested(r.counters) && r.recordedAt >= h.lastCutoff
    case RollUp(c) => HourAligned(c) && h.lastCutoff <= c
  }

  function Apply(h: History, op: Op): History {
    match op
    case Store(r) => h.(table := h.table.(loose := h.table.loose + [r]), stored := h.stored + [r])
    case RollUp(c) => h.(table := Rolled(h.table, c), lastCutoff := c)
  }

  function Run(ops: seq<Op>): History {
    if ops == [] then EMPTY else Apply(Run(ops[..|ops| - 1]), ops[|ops| - 1])
  }

  ghost predicate TimelyRun(ops: seq<Op>) {
    ops == [] || (TimelyRun(ops[..|ops| - 1]) && Timely(Run(ops[..|ops| - 1]), ops[|ops| - 1]))
  }

  /** Rolled-up hours lie before the last cutoff, fine-grained samples after it. */
  ghost predicate Settled(h: History) {
    && HourAligned(h.lastCutoff) && TableNested(h.table)
    && (forall b :: b in h.table.hourly ==> b.hour < h.lastCutoff / SECONDS_PER_HOUR)
    && (forall r :: r in h.table.loose && r.granularity < SECONDS_PER_HOUR ==> r.recordedAt >= h.lastCutoff)
  }

  lemma SettledNoLateSample(h: History, cutoff: nat)
    requires Settled(h)
    ensures NoLateSample(h.table, cutoff)
  {
    forall b | b in Buckets(h.table.loose, cutoff) ensures b !in h.table.hourly {
      var i :| 0 <= i < |h.table.loose| && Eligible(h.table.loose[i], cutoff) && BucketOf(h.table.loose[i]) == b;
      assert h.table.loose[i] in h.table.loose;
      WholeHours(h.table.loose[i], h.lastCutoff);
    }
  }

  lemma RollupSettles(h: History, cutoff: nat)
    requires Settled(h) && Timely(h, RollUp(cutoff))
    ensures Settled(Apply(h, RollUp(cutoff)))
  {
    RollupNested(h.table, cutoff);
    RemainingFrom(h.table.loose, cutoff);
    forall b | b in Rolled(h.table, cutoff).hourly ensures b.hour < cutoff / SECONDS_PER_HOUR {
      if b in Buckets(h.table.loose, cutoff) {
        var i :| 0 <= i < |h.table.loose| && Eligible(h.table.loose[i], cutoff) && BucketOf(h.table.loose[i]) == b;
        WholeHours(h.table.loose[i], cutoff);
      }
    }
  }

  lemma RowsTotalNext(rows: seq<Sample>, r: Sample, b: Bucket, m: Measure)
    ensures RowsTotal(rows + [r], b, m) == RowsTotal(rows, b, m) + if BucketOf(r) == b then Of(r, m) else 0.0
  {
    assert (rows + [r])[..|rows|] == rows;
  }

  lemma StoreSettles(h: History, r: Sample)
    requires Settled(h) && Timely(h, Store(r))
    ensures Settled(Apply(h, Store(r)))
  {
  }

  lemma StepConserves(h: History, op: Op, b: Bucket, m: Measure)
    requires Settled(h) && Timely(h, op)
    requires BucketTotal(h.table, b, m) == RowsTotal(h.stored, b, m)
    ensures var after := Apply(h, op);
      BucketTotal(after.table, b, m) == RowsTotal(after.stored, b, m)
  {
    match op
    case Store(r) =>
      RowsTotalNext(h.table.loose, r, b, m);
      RowsTotalNext(h.stored, r, b, m);
    case RollUp(c) =>
      SettledNoLateSample(h, c);
      RollupAccounts(h.table, c, b, m);
  }

  /**
    Over any timely run, every counter and the weighted CPU percentage of every server
    and hour add up to what was stored, and all counters stay nested.
   */
  lemma {:induction false} ConservedOverRuns(ops: seq<Op>, b: Bucket, m: Measure)
    requires TimelyRun(ops)
    ensures Settled(Run(ops))
    ensures BucketTotal(Run(ops).table, b, m) == RowsTotal(Run(ops).stored, b, m)
  {
    if ops != [] {
      var before, op := Run(ops[..|ops| - 1]), ops[|ops| - 1];
      ConservedOverRuns(ops[..|ops| - 1], b, m);
      StepConserves(before, op, b, m);
      if op.Store? { StoreSettles(before, op.row); } else { RollupSettles(before, op.cutoff); }
    }
  }

  /**
    A run in which a sample comes after its hour was rolled up: the second rollup replaces
    the hourly row, and a sample that was stored is no longer counted.
   */
  lemma LateSampleIsLost(r: Sample)
    requires Nested(r.counters) && r.recordedAt < SECONDS_PER_HOUR && r.granularity < SECONDS_PER_HOUR
    ensures var late := Run([Store(r), RollUp(SECONDS_PER_HOUR), Store(r), RollUp(SECONDS_PER_HOUR)]);
      && RowsTotal(late.stored, BucketOf(r), OfCounter(Samples)) == 2.0 * r.counters.samples as real
      && BucketTotal(late.table, BucketOf(r), OfCounter(Samples)) == r.counters.samples as real
  {
    FourSteps(Store(r), RollUp(SECONDS_PER_HOUR), Store(r), RollUp(SECONDS_PER_HOUR));
    LateHistory(r);
  }

  lemma FourSteps(a: Op, b: Op, c: Op, d: Op)
    ensures Run([a, b, c, d]) == Apply(Apply(Apply(Apply(EMPTY, a), b), c), d)
  {
    TwoSteps([], a, b);
    TwoSteps([] + [a, b], c, d);
    assert [] + [a, b] + [c, d] == [a, b, c, d];
  }

  lemma TwoSteps(ops: seq<Op>, a: Op, b: Op)
    ensures Run(ops + [a, b]) == Apply(Apply(Run(ops), a), b)
  {
    RunNext(ops, a);
    RunNext(ops + [a], b);
    assert ops + [a] + [b] == ops + [a, b];
  }

  lemma LateHistory(r: Sample)
    requires Nested(r.counters) && r.recordedAt < SECONDS_PER_HOUR && r.granularity < SECONDS_PER_HOUR
    ensures var roll := RollUp(SECONDS_PER_HOUR);
      var h := Apply(Apply(Apply(Apply(EMPTY, Store(r)), roll), Store(r)), roll);
      && RowsTotal(h.stored, BucketOf(r), OfCounter(Samples)) == 2.0 * r.counters.samples as real
      && BucketTotal(h.table, BucketOf(r), OfCounter(Samples)) == r.counters.samples as real
  {
    var cutoff := SECONDS_PER_HOUR;
    var first := Apply(EMPTY, Store(r));
    var second := Apply(Apply(first, RollUp(cutoff)), Store(r));
    assert first.table.loose == [r];
    RolledAlone(first.table, r, cutoff);
    assert second.table.loose == [r];
    RolledAlone(second.table, r, cutoff);
    HourTotal(Apply(second, RollUp(cutoff)).table, r);
    assert second.stored == [r] + [r];
    TwiceTotal(r);
  }

  /** A sample alone in its hour is what the hourly row then counts. */
  lemma RolledAlone(t: Table, r: Sample, cutoff: nat)
    requires t.loose == [r] && Eligible(r, cutoff)
    ensures Rolled(t, cutoff).loose == [] && HourOf(Rolled(t, cutoff), BucketOf(r)) == Some(Aggregate(BucketOf(r), [r]))
  {
    OneRowGroup(r, cutoff, BucketOf(r));
    RolledHour(t, cutoff, BucketOf(r));
  }

  lemma HourTotal(t: Table, r: Sample)
    requires Nested(r.counters) && t.loose == [] && HourOf(t, BucketOf(r)) == Some(Aggregate(BucketOf(r), [r]))
    ensures BucketTotal(t, BucketOf(r), OfCounter(Samples)) == r.counters.samples as real
  {
    AggregateTotals(BucketOf(r), [r], OfCounter(Samples));
    assert [r][..0] == [];
  }

  lemma TwiceTotal(r: Sample)
    ensures RowsTotal([r] + [r], BucketOf(r), OfCounter(Samples)) == 2.0 * r.counters.samples as real
  {
    RowsTotalNext([], r, BucketOf(r), OfCounter(Samples));
    RowsTotalNext([r], r, BucketOf(r), OfCounter(Samples));
    assert [] + [r] == [r];
  }

  lemma RunNext(ops: seq<Op>, op: Op)
    ensures Run(ops + [op]) == Apply(Run(ops), op)
  {
    assert (ops + [op])[..|ops|] == ops;
  }

  lemma OneRowGroup(r: Sample, cutoff: nat, b: Bucket)
    requires Eligible(r, cutoff) && BucketOf(r) == b
    ensures GroupOf([r], cutoff, b) == [r] && Remaining([r], cutoff) == []
  {
    assert [r][..0] == [];
  }
}
