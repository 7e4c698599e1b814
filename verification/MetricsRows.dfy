/**
  What a rollup makes of single rows: which ones it takes, and what the row of an hour says
  about server, time, CPU and memory.
 */
module MetricsRows {
  import opened MetricsRollup
  import opened Wrappers

  /** A sample of less than an hour from before the cutoff. */
  predicate IsTaken(r: Sample, cutoff: nat) { r.recordedAt < cutoff && r.granularity < 3600 }

  predicate InHour(r: Sample, b: Bucket) { r.server == b.server && r.recordedAt / 3600 == b.hour }

  lemma {:induction false} GroupFrom(rows: seq<Sample>, cutoff: nat, b: Bucket)
    ensures forall r :: r in GroupOf(rows, cutoff, b) <==> r in rows && IsTaken(r, cutoff) && InHour(r, b)
  {
    if rows != [] {
      var n := |rows| - 1;
      GroupFrom(rows[..n], cutoff, b);
      assert forall r :: r in rows <==> r in rows[..n] || r == rows[n];
    }
  }

  ghost predicate HasTaken(rows: seq<Sample>, cutoff: nat, b: Bucket) {
    exists i :: 0 <= i < |rows| && IsTaken(rows[i], cutoff) && InHour(rows[i], b)
  }

  /** A rollup takes exactly the samples before the cutoff; an hour that had one gets a row of its server and time. */
  lemma RolledExactly(t: Table, cutoff: nat)
    ensures var after := Rolled(t, cutoff);
      && (forall r :: r in after.loose <==> r in t.loose && !IsTaken(r, cutoff))
      && (forall b :: b in after.hourly <==> b in t.hourly || HasTaken(t.loose, cutoff, b))
      && (forall b :: b in t.hourly && !HasTaken(t.loose, cutoff, b) ==> after.hourly[b] == t.hourly[b])
      && (forall b :: HasTaken(t.loose, cutoff, b) ==>
          var row := after.hourly[b];
          row.server == b.server && row.recordedAt == 3600 * b.hour && row.granularity == 3600)
  {
    RemainingFrom(t.loose, cutoff);
    forall b ensures b in Buckets(t.loose, cutoff) <==> HasTaken(t.loose, cutoff, b) {
      if HasTaken(t.loose, cutoff, b) {
        var i :| 0 <= i < |t.loose| && IsTaken(t.loose[i], cutoff) && InHour(t.loose[i], b);
        assert Eligible(t.loose[i], cutoff) && BucketOf(t.loose[i]) == b;
      }
    }
  }

  // ----- the sums behind the means

  lemma {:induction false} SumsAdd(a: seq<Sample>, b: seq<Sample>)
    ensures WeighMemory(a + b) == WeighMemory(a) + WeighMemory(b)
    ensures SumMemory(a + b) == SumMemory(a) + SumMemory(b)
    ensures SumCpu(a + b) == SumCpu(a) + SumCpu(b)
    ensures Sum(a + b, CpuWeighted) == Sum(a, CpuWeighted) + Sum(b, CpuWeighted)
    ensures forall k :: SumCount(a + b, k) == SumCount(a, k) + SumCount(b, k)
  {
    if b == [] {
      assert a + b == a;
    } else {
      var n := |b| - 1;
      SumsAdd(a, b[..n]);
      assert (a + b)[..|a + b| - 1] == a + b[..n];
    }
  }

  /** Each row counts with its value, weighted by its available samples, or by its samples with a valid CPU value. */
  lemma SumsOfOne(r: Sample)
    ensures WeighMemory([r]) == r.memory * r.counters.available && SumMemory([r]) == r.memory
    ensures SumCpu([r]) == r.cpuPercent && Sum([r], CpuWeighted) == r.cpuPercent * r.counters.cpu as real
    ensures SumCounters([r]) == r.counters
  {
    assert [r][..0] == [];
    assert forall k :: SumCount([r], k) == Count(r.counters, k);
  }

  // ----- the means

  /** The CPU value of an hour: the weighted mean if any sample had a valid value, else the plain one. */
  lemma CpuOfHour(b: Bucket, rows: seq<Sample>)
    requires rows != []
    ensures var row, weight := Aggregate(b, rows), SumCount(rows, Cpu);
      if weight != 0 then row.cpuPercent * weight as real == Sum(rows, CpuWeighted)
      else row.cpuPercent * |rows| as real == SumCpu(rows)
  {
  }

  /** Without any available sample, memory is the plain mean rounded to the nearest, halves away from zero. */
  lemma MemoryWithoutWeight(b: Bucket, rows: seq<Sample>)
    requires rows != [] && SumCount(rows, AvailableSamples) <= 0
    ensures var row, mean := Aggregate(b, rows), SumMemory(rows) as real / |rows| as real;
      && (mean >= 0.0 ==> row.memory as real - 0.5 <= mean < row.memory as real + 0.5)
      && (mean < 0.0 ==> row.memory as real - 0.5 < mean <= row.memory as real + 0.5)
  {
  }

  lemma {:induction false} WeighedWithin(rows: seq<Sample>, least: int, greatest: int)
    requires forall i :: 0 <= i < |rows| ==> rows[i].counters.available >= 0 && least <= rows[i].memory <= greatest
    ensures var n := SumCount(rows, AvailableSamples); n >= 0 && n * least <= WeighMemory(rows) <= n * greatest
  {
    if rows != [] {
      var front, last := rows[..|rows| - 1], rows[|rows| - 1];
      WeighedWithin(front, least, greatest);
      WeighedNext(SumCount(front, AvailableSamples), WeighMemory(front), last.counters.available, last.memory, least, greatest);
    }
  }

  lemma WeighedNext(n: int, sum: int, a: int, value: int, least: int, greatest: int)
    requires a >= 0 && least <= value <= greatest && n * least <= sum <= n * greatest
    ensures (n + a) * least <= sum + value * a <= (n + a) * greatest
  {
    Scaled(a, least, value);
    Scaled(a, value, greatest);
    assert (n + a) * least == n * least + a * least && (n + a) * greatest == n * greatest + a * greatest;
  }

  /** The mean lies between any bounds that the measured values keep; equal values are their own mean. */
  lemma MemoryWithinMeasured(b: Bucket, rows: seq<Sample>, least: int, greatest: int)
    requires SumCount(rows, AvailableSamples) > 0
    requires forall i :: 0 <= i < |rows| ==> rows[i].counters.available >= 0 && least <= rows[i].memory <= greatest
    ensures least <= Aggregate(b, rows).memory <= greatest
  {
    WeighedWithin(rows, least, greatest);
    TruncatedWithin(WeighMemory(rows), SumCount(rows, AvailableSamples), least, greatest);
  }
}
