/**
  What becomes of jobs once the alert pool has stopped: which were processed, how often each
  was sent, and what its history row says.
 */
module AlertOutcomes {
  import opened AlertPipeline
  import opened Wrappers

  // ----- processed exactly if accepted in time

  /** The last worker left an empty channel, and nothing is taken from it afterwards. */
  predicate StoppedEmpty(s: System) { Stopped(s) ==> s.acceptedAtStop == s.taken }

  /** A worker exits only when it finds the channel empty. */
  lemma ExitsOnEmpty(s: System, w: nat, ok: bool, pick: bool)
    requires s.taken <= |s.accepted| && w < |s.workers| && CanWork(s, s.workers[w])
    requires WorkOn(s, w, ok, pick).workers[w].Exited?
    ensures s.taken == |s.accepted| == WorkOn(s, w, ok, pick).taken
  {
  }

  lemma StoppedEmptyKept(s: System, step: Step)
    requires Good(s) && StoppedEmpty(s) && Enabled(s, step)
    ensures StoppedEmpty(Apply(s, step))
  {
    if step.Work? {
      var after := WorkOn(s, step.worker, step.ok, step.pick);
      if Stopped(after) {
        assert after.workers[step.worker].Exited?;
        ExitsOnEmpty(s, step.worker, step.ok, step.pick);
      }
    }
  }

  // ----- at most one notification

  /** 1 if the worker has taken `j` and not yet tried to deliver it. */
  function Untried(w: Worker, j: Job): nat {
    match w
    case Received(job) => if job == j then 1 else 0
    case Running(job, stage, _) => if job == j && (stage.Lookup? || stage.InsertPending? || stage.Dispatch?) then 1 else 0
    case _ => 0
  }

  function UntriedBy(workers: seq<Worker>, j: Job): nat {
    if workers == [] then 0 else UntriedBy(workers[..|workers| - 1], j) + Untried(workers[|workers| - 1], j)
  }

  lemma {:induction false} UntriedChanges(workers: seq<Worker>, w: nat, x: Worker, j: Job)
    requires w < |workers|
    ensures UntriedBy(workers[w := x], j) == UntriedBy(workers, j) - Untried(workers[w], j) + Untried(x, j)
  {
    var n := |workers| - 1;
    var after := workers[w := x];
    if w == n {
      assert after[..n] == workers[..n];
    } else {
      assert after[..n] == workers[..n][w := x];
      UntriedChanges(workers[..n], w, x, j);
    }
  }

  /**
    Whenever a job was taken, it was tried, or its notification channel could not be looked
    up, or a worker is about to try it, and only one of these, unless a store call failed.
   */
  ghost predicate TriedOnce(s: System, j: Job)
    requires s.taken <= |s.accepted|
  {
    var settled := Times(s.dispatched, j) + Times(s.unresolved, j) + UntriedBy(s.workers, j);
    && settled <= Times(s.accepted[..s.taken], j)
    && (!s.storeFailed ==> settled == Times(s.accepted[..s.taken], j))
    && Times(s.delivered, j) <= Times(s.dispatched, j)
  }

  lemma ReactTries(x: Worker, cancelled: bool, head: Option<Job>, nextRow: nat, ok: bool, pick: bool, j: Job)
    ensures var e := React(x, cancelled, head, nextRow, ok, pick);
      var settled := (if Attempted(x) == Some(j) then 1 else 0) + (if !ok && LookedUp(x) == Some(j) then 1 else 0);
      && (e.takes ==> head.Some?)
      && Untried(e.to, j) + settled <= Untried(x, j) + (if e.takes && head.value == j then 1 else 0)
      && ((CallsStore(x) && !ok) ||
          Untried(e.to, j) + settled == Untried(x, j) + (if e.takes && head.value == j then 1 else 0))
  {
  }

  lemma WorkTriesOnce(s: System, w: nat, ok: bool, pick: bool, j: Job)
    requires s.taken <= |s.accepted| && w < |s.workers| && TriedOnce(s, j)
    ensures WorkOn(s, w, ok, pick).taken <= |s.accepted| && TriedOnce(WorkOn(s, w, ok, pick), j)
  {
    var e := React(s.workers[w], s.cancelled, Head(s), |s.rows|, ok, pick);
    ReactTries(s.workers[w], s.cancelled, Head(s), |s.rows|, ok, pick, j);
    UntriedChanges(s.workers, w, e.to, j);
    TimesAppended(s.dispatched, Attempted(s.workers[w]), j);
    TimesAppended(s.delivered, if ok then Attempted(s.workers[w]) else None, j);
    TimesAppended(s.unresolved, if ok then None else LookedUp(s.workers[w]), j);
    TakenAfter(s, w, ok, pick, j);
  }

  // ----- delivered means marked as sent

  ghost predicate MarksSent(s: System, w: nat, j: Job) {
    && w < |s.workers| && s.workers[w].Running? && s.workers[w].job == j
    && s.workers[w].stage.Update? && s.workers[w].stage.outcome == Sent
  }

  ghost predicate MarkedSent(s: System, r: nat, j: Job) { r < |s.rows| && s.rows[r] == Row(j, Sent) }

  /** Unless a store call failed, a delivered job has its row marked, or is about to. */
  ghost predicate DeliveredMarked(s: System, j: Job) {
    j in s.delivered && !s.storeFailed ==> (exists w: nat :: MarksSent(s, w, j)) || (exists r: nat :: MarkedSent(s, r, j))
  }

  lemma WorkMarks(s: System, w: nat, ok: bool, pick: bool, j: Job)
    requires s.taken <= |s.accepted| && w < |s.workers| && WorkerGood(s, s.workers[w]) && DeliveredMarked(s, j)
    ensures DeliveredMarked(WorkOn(s, w, ok, pick), j)
  {
    var after := WorkOn(s, w, ok, pick);
    if j in after.delivered && !after.storeFailed {
      if j !in s.delivered {
        assert MarksSent(after, w, j);
      } else if exists r: nat :: MarkedSent(s, r, j) {
        var r: nat :| MarkedSent(s, r, j);
        assert MarkedSent(after, r, j);
      } else {
        var v: nat :| MarksSent(s, v, j);
        if v == w {
          assert MarkedSent(after, s.workers[w].stage.row, j);
        } else {
          assert MarksSent(after, v, j);
        }
      }
    }
  }

  lemma OfferMarks(s: System, l: nat, ok: bool, j: Job)
    requires Enabled(s, Offer(l, ok)) && DeliveredMarked(s, j)
    ensures DeliveredMarked(Apply(s, Offer(l, ok)), j)
  {
    var after := Apply(s, Offer(l, ok));
    if j in after.delivered && !after.storeFailed {
      if exists r: nat :: MarkedSent(s, r, j) {
        var r: nat :| MarkedSent(s, r, j);
        assert MarkedSent(after, r, j);
      } else {
        var v: nat :| MarksSent(s, v, j);
        assert MarksSent(after, v, j);
      }
    }
  }

  // ----- whole runs

  ghost predicate Settling(s: System)
    requires s.taken <= |s.accepted|
  {
    StoppedEmpty(s) && forall j :: TriedOnce(s, j) && DeliveredMarked(s, j)
  }

  lemma StepSettles(s: System, step: Step)
    requires Good(s) && Settling(s) && Enabled(s, step)
    ensures Good(Apply(s, step)) && Settling(Apply(s, step))
  {
    var after := Apply(s, step);
    StepKeeps(s, step);
    StoppedEmptyKept(s, step);
    forall j ensures TriedOnce(after, j) && DeliveredMarked(after, j) {
      assert TriedOnce(s, j) && DeliveredMarked(s, j);
      match step
      case Work(w, ok, pick) =>
        WorkTriesOnce(s, w, ok, pick, j);
        WorkMarks(s, w, ok, pick, j);
      case Offer(l, ok) =>
        TakenSame(s.accepted, s.taken, s.listeners[l][0]);
        OfferMarks(s, l, ok, j);
      case _ => StillMarked(s, after, j);
    }
  }

  lemma StillMarked(s: System, after: System, j: Job)
    requires after.workers == s.workers && after.rows == s.rows && after.delivered == s.delivered
    requires after.storeFailed == s.storeFailed && DeliveredMarked(s, j)
    ensures DeliveredMarked(after, j)
  {
    if j in s.delivered && !s.storeFailed {
      if exists r: nat :: MarkedSent(s, r, j) {
        var r: nat :| MarkedSent(s, r, j);
        assert MarkedSent(after, r, j);
      } else {
        var v: nat :| MarksSent(s, v, j);
        assert MarksSent(after, v, j);
      }
    }
  }

  lemma {:induction false} NothingUntried(workers: seq<Worker>, j: Job)
    requires forall w :: 0 <= w < |workers| ==> Untried(workers[w], j) == 0
    ensures UntriedBy(workers, j) == 0
  {
    if workers != [] {
      NothingUntried(workers[..|workers| - 1], j);
    }
  }

  lemma {:induction false} EveryRunSettles(listeners: nat, steps: seq<Step>, s: System)
    requires Reaches(listeners, steps, s)
    ensures Good(s) && Settling(s)
  {
    if steps == [] {
      InitialGood(listeners);
      assert !s.workers[0].Exited?;
      forall j ensures TriedOnce(s, j) { NothingUntried(s.workers, j); }
    } else {
      var before :| Leads(listeners, steps, before, s);
      EveryRunSettles(listeners, steps[..|steps| - 1], before);
      StepSettles(before, steps[|steps| - 1]);
    }
  }

  /**
    Once the pool has stopped, a job was processed exactly once if it was accepted before the
    last worker exited, and not at all, then or later, if it was accepted afterwards.
   */
  lemma ProcessedExactlyIfInTime(listeners: nat, steps: seq<Step>, s: System, i: nat)
    requires Reaches(listeners, steps, s) && Stopped(s) && i < |s.accepted|
    ensures Times(s.finished, s.accepted[i]) == if i < s.acceptedAtStop then 1 else 0
    ensures s.acceptedAtCancel <= s.acceptedAtStop
  {
    EveryRunSettles(listeners, steps, s);
    var j := s.accepted[i];
    assert Conserved(s, j) && WorkerGood(s, s.workers[0]);
    IdleHoldNothing(s.workers, j);
    TimesSplit(s.accepted, s.taken, j);
    if i < s.taken {
      TimesIn(s.accepted[..s.taken], i);
    } else {
      TimesIn(s.accepted[s.taken..], i - s.taken);
    }
  }

  /** In no run is a notification for a job tried twice. */
  lemma TriedAtMostOnce(listeners: nat, steps: seq<Step>, s: System, j: Job)
    requires Reaches(listeners, steps, s)
    ensures Times(s.dispatched, j) <= 1
  {
    EveryRunSettles(listeners, steps, s);
    assert Conserved(s, j) && TriedOnce(s, j);
    TimesSplit(s.accepted, s.taken, j);
  }

  lemma {:induction false} SomeRow(rows: seq<Row>, r: nat, j: Job)
    requires r < |rows| && rows[r].job == j
    ensures RowsFor(rows, j) >= 1
  {
    if r < |rows| - 1 {
      SomeRow(rows[..|rows| - 1], r, j);
    }
  }

  lemma {:induction false} OneRow(rows: seq<Row>, q: nat, r: nat, j: Job)
    requires q < r < |rows| && rows[q].job == j && rows[r].job == j
    ensures RowsFor(rows, j) >= 2
  {
    var n := |rows| - 1;
    if r < n {
      OneRow(rows[..n], q, r, j);
    } else {
      SomeRow(rows[..n], q, j);
    }
  }

  /**
    If no store call failed, then once the pool has stopped a row is marked as sent exactly
    if its job was delivered.
   */
  lemma SentExactlyIfDelivered(listeners: nat, steps: seq<Step>, s: System, r: nat)
    requires Reaches(listeners, steps, s) && Stopped(s) && !s.storeFailed && r < |s.rows|
    ensures s.rows[r].status == Sent <==> s.rows[r].job in s.delivered
  {
    EveryRunSettles(listeners, steps, s);
    var j := s.rows[r].job;
    assert RowGood(s, r) && DeliveredMarked(s, j);
    if j in s.delivered {
      assert forall w: nat :: !MarksSent(s, w, j);
      var q: nat :| MarkedSent(s, q, j);
      assert Conserved(s, j) && Recorded(s, j);
      IdleHoldNothing(s.workers, j);
      TimesSplit(s.accepted, s.taken, j);
      if q < r { OneRow(s.rows, q, r, j); } else if r < q { OneRow(s.rows, r, q, j); }
    }
  }

  /**
    If no store call failed, then once the pool has stopped every processed or dropped job
    has exactly one row, which says sent if the job was delivered and failed otherwise; and
    nothing was delivered twice.
   */
  lemma FinalRowTellsOutcome(listeners: nat, steps: seq<Step>, s: System, j: Job)
    requires Reaches(listeners, steps, s) && Stopped(s) && !s.storeFailed
    ensures j in s.finished || j in s.dropped || j in s.delivered ==> RowsFor(s.rows, j) == 1
    ensures forall r: nat :: r < |s.rows| && s.rows[r].job == j ==> s.rows[r].status == if j in s.delivered then Sent else Failed
    ensures Times(s.dispatched, j) <= 1
  {
    OneFinalRowEach(listeners, steps, s, j);
    TriedAtMostOnce(listeners, steps, s, j);
    forall r: nat | r < |s.rows| && s.rows[r].job == j ensures s.rows[r].status == if j in s.delivered then Sent else Failed {
      SentExactlyIfDelivered(listeners, steps, s, r);
    }
    if j in s.delivered {
      EveryRunSettles(listeners, steps, s);
      assert DeliveredMarked(s, j) && forall w: nat :: !MarksSent(s, w, j);
      var q: nat :| MarkedSent(s, q, j);
      SomeRow(s.rows, q, j);
      assert Conserved(s, j) && Recorded(s, j);
      IdleHoldNothing(s.workers, j);
      TimesSplit(s.accepted, s.taken, j);
    }
  }

  /**
    If no store call failed, then once the pool has stopped every processed job was sent
    exactly once, unless its notification channel could not be looked up, and then never.
    Dropped jobs were never sent.
   */
  lemma AttemptedExactlyOnce(listeners: nat, steps: seq<Step>, s: System, j: Job)
    requires Reaches(listeners, steps, s) && Stopped(s) && !s.storeFailed
    ensures j in s.finished ==> Times(s.dispatched, j) == if j in s.unresolved then 0 else 1
    ensures j !in s.finished ==> j !in s.dispatched && j !in s.unresolved
    ensures j in s.dropped ==> j !in s.finished
  {
    EveryRunSettles(listeners, steps, s);
    assert Conserved(s, j) && TriedOnce(s, j);
    IdleHoldNothing(s.workers, j);
    NothingUntried(s.workers, j);
    TimesSplit(s.accepted, s.taken, j);
  }

  /**
    If no store call failed, then once the pool has stopped a row says failed exactly if its
    job was dropped, its notification channel could not be looked up, or sending it failed.
   */
  lemma FailedExactly(listeners: nat, steps: seq<Step>, s: System, r: nat)
    requires Reaches(listeners, steps, s) && Stopped(s) && !s.storeFailed && r < |s.rows|
    ensures var j := s.rows[r].job;
            s.rows[r].status == Failed <==> j in s.dropped || j in s.unresolved || (j in s.dispatched && j !in s.delivered)
  {
    var j := s.rows[r].job;
    FinalRowTellsOutcome(listeners, steps, s, j);
    AttemptedExactlyOnce(listeners, steps, s, j);
    EveryRunSettles(listeners, steps, s);
    assert Recorded(s, j) && TriedOnce(s, j);
    IdleHoldNothing(s.workers, j);
    SomeRow(s.rows, r, j);
  }

  // ----- a job that comes too late

  lemma Extends(listeners: nat, steps: seq<Step>, s: System, step: Step)
    requires Reaches(listeners, steps, s) && Enabled(s, step)
    ensures Reaches(listeners, steps + [step], Apply(s, step))
  {
    assert (steps + [step])[..|steps|] == steps;
    assert Leads(listeners, steps + [step], s, Apply(s, step));
  }

  /** One worker after the other finds the context cancelled and the channel empty. */
  lemma ExitOne(steps: seq<Step>, s: System, w: nat) returns (longer: seq<Step>, after: System)
    requires Reaches(1, steps, s) && w < |s.workers| && s.workers[w] == Top && s.cancelled && s.accepted == []
    requires s.taken == 0
    ensures Reaches(1, longer, after)
    ensures after.workers == s.workers[w := Exited] && after.cancelled && after.accepted == [] && after.taken == 0
    ensures after.listeners == s.listeners && after.matched == s.matched && after.finished == s.finished
    ensures AllExited(after.workers) ==> after.acceptedAtStop == 0
  {
    var drain := Apply(s, Work(w, true, true));
    Extends(1, steps, s, Work(w, true, true));
    Extends(1, steps + [Work(w, true, true)], drain, Work(w, true, true));
    longer, after := steps + [Work(w, true, true)] + [Work(w, true, true)], Apply(drain, Work(w, true, true));
  }

  /** A run in which a job is put on the channel after the last worker has exited, and is never processed. */
  lemma LateJobIsLost() returns (steps: seq<Step>, s: System)
    ensures Reaches(1, steps, s) && Stopped(s)
    ensures |s.accepted| == 1 && s.acceptedAtStop == 0 && Times(s.finished, s.accepted[0]) == 0
  {
    var start := Initial(1);
    steps := [];
    Extends(1, steps, start, Cancel);
    steps, s := steps + [Cancel], Apply(start, Cancel);
    steps, s := ExitOne(steps, s, 0);
    steps, s := ExitOne(steps, s, 1);
    steps, s := ExitOne(steps, s, 2);
    assert s.workers == [Exited, Exited, Exited];
    Extends(1, steps, s, Match(0, 1));
    var matched := Apply(s, Match(0, 1));
    Extends(1, steps + [Match(0, 1)], matched, Offer(0, true));
    steps, s := steps + [Match(0, 1)] + [Offer(0, true)], Apply(matched, Offer(0, true));
    ProcessedExactlyIfInTime(1, steps, s, 0);
  }
}
