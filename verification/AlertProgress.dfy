/**
  What the steps of the alert pipeline achieve: jobs get onto the channel, workers take them
  in order, and each is looked up, recorded, sent and marked.
 */
module AlertProgress {
  import opened AlertPipeline
  import opened AlertOutcomes
  import opened Wrappers

  /** A matched job goes onto the channel exactly if fewer than 256 are queued, and is otherwise recorded as failed. */
  lemma OfferedExactly(listeners: nat, steps: seq<Step>, s: System, l: nat, ok: bool)
    requires Reaches(listeners, steps, s) && Enabled(s, Offer(l, ok))
    ensures var job, after := s.listeners[l][0], Apply(s, Offer(l, ok));
            && after.listeners == s.listeners[l := s.listeners[l][1..]]
            && if |s.accepted| - s.taken < 256
               then after.accepted == s.accepted + [job] && after.dropped == s.dropped && after.rows == s.rows
               else after.accepted == s.accepted && after.dropped == s.dropped + [job]
                    && after.rows == (if ok then s.rows + [Row(job, Failed)] else s.rows) && (after.storeFailed <==> s.storeFailed || !ok)
  {
  }

  /** A match hands its listener new jobs, numbered in order. */
  lemma MatchedExactly(s: System, l: nat, n: nat)
    requires Enabled(s, Match(l, n))
    ensures var after := Apply(s, Match(l, n));
            && |after.listeners| == |s.listeners| && |after.listeners[l]| == n && after.matched == s.matched + n
            && (forall i :: 0 <= i < n ==> after.listeners[l][i] == s.matched + i)
            && (forall k :: 0 <= k < |s.listeners| && k != l ==> after.listeners[k] == s.listeners[k])
  {
  }

  lemma Works(listeners: nat, steps: seq<Step>, s: System, w: nat, ok: bool) returns (longer: seq<Step>, after: System)
    requires Reaches(listeners, steps, s) && Enabled(s, Work(w, ok, false))
    ensures Reaches(listeners, longer, after) && after == WorkOn(s, w, ok, false)
  {
    longer, after := steps + [Work(w, ok, false)], Apply(s, Work(w, ok, false));
    Extends(listeners, steps, s, Work(w, ok, false));
  }

  /** An idle worker takes the next job of the channel. */
  lemma TakesNext(listeners: nat, steps: seq<Step>, s: System, w: nat) returns (longer: seq<Step>, after: System)
    requires Reaches(listeners, steps, s) && w < |s.workers| && s.taken < |s.accepted|
    requires (s.workers[w] == Top && !s.cancelled) || s.workers[w] == Draining
    ensures Reaches(listeners, longer, after)
    ensures after == s.(taken := s.taken + 1,
                        workers := s.workers[w := Running(s.accepted[s.taken], Lookup, s.workers[w] == Draining)])
  {
    if s.workers[w] == Draining {
      longer, after := Works(listeners, steps, s, w, true);
    } else {
      var one := s.(workers := s.workers[w := Selecting]);
      longer, after := Works(listeners, steps, s, w, true);
      NotAllExited(s.workers, w, Selecting);
      assert after == one;
      NotAllExited(one.workers, w, Received(s.accepted[s.taken]));
      longer, after := Works(listeners, longer, after, w, true);
      NotAllExited(after.workers, w, Running(s.accepted[s.taken], Lookup, false));
      longer, after := Works(listeners, longer, after, w, true);
    }
    assert after.workers == s.workers[w := Running(s.accepted[s.taken], Lookup, s.workers[w] == Draining)];
    NotAllExited(s.workers, w, Running(s.accepted[s.taken], Lookup, s.workers[w] == Draining));
  }

  lemma NotAllExited(workers: seq<Worker>, w: nat, x: Worker)
    requires w < |workers| && !x.Exited?
    ensures !AllExited(workers[w := x])
  {
    assert workers[w := x][w] == x;
  }

  // ----- one job, one call after the other

  ghost predicate Holding(s: System, w: nat, job: Job, stage: Stage, draining: bool) {
    w < |s.workers| && s.workers[w] == Running(job, stage, draining)
  }

  lemma LookupStep(s: System, w: nat, job: Job, draining: bool, found: bool)
    requires Holding(s, w, job, Lookup, draining)
    ensures WorkOn(s, w, found, false) == s.(
      workers := s.workers[w := Running(job, if found then InsertPending else InsertFailed, draining)],
      unresolved := s.unresolved + if found then [] else [job])
  {
    NotAllExited(s.workers, w, Running(job, if found then InsertPending else InsertFailed, draining));
  }

  lemma InsertStep(s: System, w: nat, job: Job, draining: bool, found: bool)
    requires Holding(s, w, job, if found then InsertPending else InsertFailed, draining)
    ensures WorkOn(s, w, true, false) == s.(
      workers := s.workers[w := Running(job, if found then Dispatch(|s.rows|) else Update(|s.rows|, Failed), draining)],
      rows := s.rows + [Row(job, if found then Pending else Failed)])
  {
    NotAllExited(s.workers, w, Running(job, if found then Dispatch(|s.rows|) else Update(|s.rows|, Failed), draining));
  }

  lemma SendStep(s: System, w: nat, job: Job, draining: bool, r: nat, sent: bool)
    requires Holding(s, w, job, Dispatch(r), draining)
    ensures WorkOn(s, w, sent, false) == s.(
      workers := s.workers[w := Running(job, Update(r, if sent then Sent else Failed), draining)],
      dispatched := s.dispatched + [job], delivered := s.delivered + if sent then [job] else [])
  {
    NotAllExited(s.workers, w, Running(job, Update(r, if sent then Sent else Failed), draining));
  }

  lemma MarkStep(s: System, w: nat, job: Job, draining: bool, r: nat, outcome: Status)
    requires Holding(s, w, job, Update(r, outcome), draining) && r < |s.rows|
    ensures WorkOn(s, w, true, false) == s.(
      workers := s.workers[w := if draining then Draining else Top],
      rows := s.rows[r := s.rows[r].(status := outcome)], finished := s.finished + [job])
  {
    NotAllExited(s.workers, w, if draining then Draining else Top);
  }

  /**
    A taken job is looked up, given a row, sent and marked with what became of it. `found` is
    whether its notification channel was found, `sent` whether sending succeeds.
   */
  lemma JobGoesOut(listeners: nat, steps: seq<Step>, s: System, w: nat, job: Job, draining: bool, found: bool, sent: bool)
    returns (longer: seq<Step>, after: System)
    requires Reaches(listeners, steps, s) && Holding(s, w, job, Lookup, draining)
    ensures Reaches(listeners, longer, after)
    ensures after == s.(workers := s.workers[w := if draining then Draining else Top],
                        rows := s.rows + [Row(job, if found && sent then Sent else Failed)],
                        unresolved := s.unresolved + if found then [] else [job],
                        dispatched := s.dispatched + if found then [job] else [],
                        delivered := s.delivered + if found && sent then [job] else [],
                        finished := s.finished + [job])
  {
    var r := |s.rows|;
    longer, after := GetsRow(listeners, steps, s, w, job, draining, found);
    if found {
      SendStep(after, w, job, draining, r, sent);
      longer, after := Works(listeners, longer, after, w, sent);
    }
    MarkStep(after, w, job, draining, r, if found && sent then Sent else Failed);
    longer, after := Works(listeners, longer, after, w, true);
  }

  lemma GetsRow(listeners: nat, steps: seq<Step>, s: System, w: nat, job: Job, draining: bool, found: bool)
    returns (longer: seq<Step>, after: System)
    requires Reaches(listeners, steps, s) && Holding(s, w, job, Lookup, draining)
    ensures Reaches(listeners, longer, after) && after.taken <= |after.accepted|
    ensures after == s.(
      workers := s.workers[w := Running(job, if found then Dispatch(|s.rows|) else Update(|s.rows|, Failed), draining)],
      rows := s.rows + [Row(job, if found then Pending else Failed)],
      unresolved := s.unresolved + if found then [] else [job])
  {
    EveryRunIsGood(listeners, steps, s);
    LookupStep(s, w, job, draining, found);
    longer, after := Works(listeners, steps, s, w, found);
    InsertStep(after, w, job, draining, found);
    longer, after := Works(listeners, longer, after, w, true);
  }
}
