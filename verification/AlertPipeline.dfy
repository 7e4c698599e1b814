/**
  The alert pipeline as a transition system. Listeners offer the jobs they matched to a
  bounded channel, workers take them, and cancellation turns workers into drainers. A
  step is one select, one poll of the context or one call of a store or sender; any
  interleaving is a run. Jobs are numbered in the order in which they are matched.
 */
module AlertPipeline {
  import opened Wrappers

  const CHANNEL_SIZE := 256
  const WORKER_COUNT := 3

  type Job = nat

  datatype Status = Pending | Sent | Failed
  datatype Row = Row(job: Job, status: Status)

  /** Where `processJob` has got to; a number is the history row it inserted. */
  datatype Stage =
    | Lookup
    | InsertPending
    | Dispatch(row: nat)
    | Update(row: nat, outcome: Status)
    | InsertFailed

  datatype Worker =
    | Top
    | Selecting
    | Received(job: Job)
    | Running(job: Job, stage: Stage, draining: bool)
    | Draining
    | Exited

  /**
    `accepted`, `dropped`, `dispatched`, `delivered` and `finished` are histories: jobs
    put on the channel, jobs given to the drop recorder, attempted and successful
    deliveries, and ends of `processJob`; `unresolved` are the jobs whose notification
    channel could not be looked up. The channel holds the jobs accepted but not taken. `acceptedAtCancel` is how many were accepted when the context was cancelled,
    `acceptedAtStop` how many when the last worker exited, and `storeFailed` whether a
    history store call ever failed.
   */
  datatype System = System(
    listeners: seq<seq<Job>>, workers: seq<Worker>, taken: nat, matched: nat,
    accepted: seq<Job>, dropped: seq<Job>, dispatched: seq<Job>, delivered: seq<Job>, finished: seq<Job>,
    unresolved: seq<Job>, rows: seq<Row>, cancelled: bool, acceptedAtCancel: nat, acceptedAtStop: nat, storeFailed: bool)
  {
    function Queued(): nat
      requires taken <= |accepted|
    {
      |accepted| - taken
    }
  }

  function Initial(listeners: nat): System {
    System(seq(listeners, _ => []), seq(WORKER_COUNT, _ => Top), 0, 0, [], [], [], [], [], [], [], false, 0, 0, false)
  }

  function Numbers(from: nat, count: nat): seq<Job> { seq(count, i requires 0 <= i < count => from + i) }

  /** `ok` is whether the call made by the step succeeds, `pick` the choice of a select. */
  datatype Step =
    | Match(listener: nat, count: nat)
    | Offer(listener: nat, ok: bool)
    | Cancel
    | Work(worker: nat, ok: bool, pick: bool)

  predicate Enabled(s: System, step: Step) {
    && s.taken <= |s.accepted|
    && match step
       case Match(l, n) => l < |s.listeners| && s.listeners[l] == []
       case Offer(l, ok) => l < |s.listeners| && s.listeners[l] != []
       case Cancel => !s.cancelled
       case Work(w, ok, pick) => w < |s.workers| && CanWork(s, s.workers[w])
  }

  predicate CanWork(s: System, w: Worker)
    requires s.taken <= |s.accepted|
  {
    match w
    case Selecting => s.cancelled || s.Queued() > 0
    case Exited => false
    case _ => true
  }

  function Apply(s: System, step: Step): System
    requires Enabled(s, step)
  {
    match step
    case Match(l, n) => s.(listeners := s.listeners[l := Numbers(s.matched, n)], matched := s.matched + n)
    case Offer(l, ok) => OfferJob(s, l, ok)
    case Cancel => s.(cancelled := true, acceptedAtCancel := |s.accepted|)
    case Work(w, ok, pick) => WorkOn(s, w, ok, pick)
  }

  /** `handleServerEvent`, `handleNodeEvent`: send if there is room, else record the drop. */
  function OfferJob(s: System, l: nat, ok: bool): System
    requires s.taken <= |s.accepted| && l < |s.listeners| && s.listeners[l] != []
  {
    var job := s.listeners[l][0];
    var rest := s.(listeners := s.listeners[l := s.listeners[l][1..]]);
    if s.Queued() < CHANNEL_SIZE then rest.(accepted := s.accepted + [job])
    else if ok then rest.(dropped := s.dropped + [job], rows := s.rows + [Row(job, Failed)])
    else rest.(dropped := s.dropped + [job], storeFailed := true)
  }

  datatype Write = NoWrite | Insert(row: Row) | SetStatus(index: nat, status: Status)

  /** What one step of a worker does: its next place, and its traces elsewhere. */
  datatype Effect = Effect(to: Worker, takes: bool, write: Write, ended: Option<Job>)

  function Moves(to: Worker): Effect { Effect(to, false, NoWrite, None) }

  function Ends(job: Job, draining: bool, write: Write): Effect {
    Effect(if draining then Draining else Top, false, write, Some(job))
  }

  /** The job whose notification channel the worker's next step looks up. */
  function LookedUp(x: Worker): Option<Job> { if x.Running? && x.stage.Lookup? then Some(x.job) else None }

  /** The job that the worker's next step sends. */
  function Attempted(x: Worker): Option<Job> { if x.Running? && x.stage.Dispatch? then Some(x.job) else None }

  /** The worker's next step calls the history store. */
  predicate CallsStore(x: Worker) {
    x.Running? && (x.stage.InsertPending? || x.stage.Update? || x.stage.InsertFailed?)
  }

  /** `worker` and `drainPendingJobs`, one select or poll at a time; `head` is the next job queued. */
  function React(x: Worker, cancelled: bool, head: Option<Job>, nextRow: nat, ok: bool, pick: bool): Effect {
    match x
    case Top => Moves(if cancelled then Draining else Selecting)
    case Selecting =>
      if head.None? || (cancelled && pick) then Moves(Draining)
      else Moves(Received(head.value)).(takes := true)
    case Received(job) => Moves(Running(job, Lookup, cancelled))
    case Draining =>
      if head.None? then Moves(Exited) else Moves(Running(head.value, Lookup, true)).(takes := true)
    case Running(job, stage, draining) => Process(job, stage, draining, nextRow, ok)
    case Exited => Moves(Exited)
  }

  /** `processJob`, one call at a time. */
  function Process(job: Job, stage: Stage, draining: bool, nextRow: nat, ok: bool): Effect {
    match stage
    case Lookup => Moves(Running(job, if ok then InsertPending else InsertFailed, draining))
    case InsertPending =>
      if ok then Moves(Running(job, Dispatch(nextRow), draining)).(write := Insert(Row(job, Pending)))
      else Ends(job, draining, NoWrite)
    case Dispatch(row) =>
      Moves(Running(job, Update(row, if ok then Sent else Failed), draining))
    case Update(row, outcome) => Ends(job, draining, if ok then SetStatus(row, outcome) else NoWrite)
    case InsertFailed =>
      if ok then Moves(Running(job, Update(nextRow, Failed), draining)).(write := Insert(Row(job, Failed)))
      else Ends(job, draining, NoWrite)
  }

  function Written(rows: seq<Row>, write: Write): seq<Row> {
    match write
    case NoWrite => rows
    case Insert(row) => rows + [row]
    case SetStatus(r, status) => if r < |rows| then rows[r := rows[r].(status := status)] else rows
  }

  function Appended(jobs: seq<Job>, job: Option<Job>): seq<Job> {
    if job.Some? then jobs + [job.value] else jobs
  }

  function Head(s: System): Option<Job> {
    if s.taken < |s.accepted| then Some(s.accepted[s.taken]) else None
  }

  function WorkOn(s: System, w: nat, ok: bool, pick: bool): System
    requires w < |s.workers|
  {
    var x := s.workers[w];
    var e := React(x, s.cancelled, Head(s), |s.rows|, ok, pick);
    s.(workers := s.workers[w := e.to],
       taken := if e.takes then s.taken + 1 else s.taken,
       rows := Written(s.rows, e.write),
       unresolved := Appended(s.unresolved, if ok then None else LookedUp(x)),
       dispatched := Appended(s.dispatched, Attempted(x)),
       delivered := Appended(s.delivered, if ok then Attempted(x) else None),
       finished := Appended(s.finished, e.ended),
       acceptedAtStop := if AllExited(s.workers[w := e.to]) then |s.accepted| else s.acceptedAtStop,
       storeFailed := s.storeFailed || (CallsStore(x) && !ok))
  }

  predicate AllExited(workers: seq<Worker>) { forall w :: 0 <= w < |workers| ==> workers[w].Exited? }

  // ----- where a job can be

  function Times(jobs: seq<Job>, j: Job): nat { multiset(jobs)[j] }

  /** 1 if the worker has taken `j` and not finished it. */
  function Holds(w: Worker, j: Job): nat {
    match w
    case Received(job) => if job == j then 1 else 0
    case Running(job, _, _) => if job == j then 1 else 0
    case _ => 0
  }

  /** 1 if the worker has inserted a history row for `j` and not finished it. */
  function HasRow(w: Worker, j: Job): nat {
    if w.Running? && (w.stage.Dispatch? || w.stage.Update?) && w.job == j then 1 else 0
  }

  function InHand(workers: seq<Worker>, j: Job): nat {
    if workers == [] then 0 else InHand(workers[..|workers| - 1], j) + Holds(workers[|workers| - 1], j)
  }

  function WithRow(workers: seq<Worker>, j: Job): nat {
    if workers == [] then 0 else WithRow(workers[..|workers| - 1], j) + HasRow(workers[|workers| - 1], j)
  }

  function Waiting(listeners: seq<seq<Job>>, j: Job): nat {
    if listeners == [] then 0
    else Waiting(listeners[..|listeners| - 1], j) + Times(listeners[|listeners| - 1], j)
  }

  function RowsFor(rows: seq<Row>, j: Job): nat {
    if rows == [] then 0
    else RowsFor(rows[..|rows| - 1], j) + if rows[|rows| - 1].job == j then 1 else 0
  }

  lemma {:induction false} WorkerChanges(workers: seq<Worker>, w: nat, x: Worker, j: Job)
    requires w < |workers|
    ensures InHand(workers[w := x], j) == InHand(workers, j) - Holds(workers[w], j) + Holds(x, j)
    ensures WithRow(workers[w := x], j) == WithRow(workers, j) - HasRow(workers[w], j) + HasRow(x, j)
  {
    var n := |workers| - 1;
    var after := workers[w := x];
    if w == n {
      assert after[..n] == workers[..n];
    } else {
      assert after[..n] == workers[..n][w := x];
      WorkerChanges(workers[..n], w, x, j);
    }
  }

  lemma {:induction false} ListenerChanges(listeners: seq<seq<Job>>, l: nat, jobs: seq<Job>, j: Job)
    requires l < |listeners|
    ensures Waiting(listeners[l := jobs], j) == Waiting(listeners, j) - Times(listeners[l], j) + Times(jobs, j)
  {
    var n := |listeners| - 1;
    var after := listeners[l := jobs];
    if l == n {
      assert after[..n] == listeners[..n];
    } else {
      assert after[..n] == listeners[..n][l := jobs];
      ListenerChanges(listeners[..n], l, jobs, j);
    }
  }

  lemma RowAdded(rows: seq<Row>, row: Row, j: Job)
    ensures RowsFor(rows + [row], j) == RowsFor(rows, j) + if row.job == j then 1 else 0
  {
    assert (rows + [row])[..|rows|] == rows;
  }

  lemma {:induction false} RowUpdated(rows: seq<Row>, r: nat, status: Status, j: Job)
    requires r < |rows|
    ensures RowsFor(rows[r := rows[r].(status := status)], j) == RowsFor(rows, j)
  {
    var n := |rows| - 1;
    var after := rows[r := rows[r].(status := status)];
    if r == n {
      assert after[..n] == rows[..n];
    } else {
      assert after[..n] == rows[..n][r := rows[r].(status := status)];
      RowUpdated(rows[..n], r, status, j);
    }
  }

  // ----- what every run keeps

  /** Every job matched so far is in exactly one place, once; later numbers are nowhere. */
  ghost predicate Conserved(s: System, j: Job)
    requires s.taken <= |s.accepted|
  {
    && Waiting(s.listeners, j) + Times(s.accepted, j) + Times(s.dropped, j) == (if j < s.matched then 1 else 0)
    && Times(s.accepted[..s.taken], j) == Times(s.finished, j) + InHand(s.workers, j)
  }

  /** With working stores, one row for each job dropped, finished, or past its insertion. */
  ghost predicate Recorded(s: System, j: Job) {
    !s.storeFailed ==> RowsFor(s.rows, j) == Times(s.dropped, j) + Times(s.finished, j) + WithRow(s.workers, j)
  }

  /** A worker past its insertion has its row, still pending, and dispatches only then. */
  ghost predicate WorkerGood(s: System, w: Worker)
    requires s.taken <= |s.accepted|
  {
    match w
    case Running(job, Dispatch(r), d) => r < |s.rows| && s.rows[r] == Row(job, Pending) && (d ==> s.cancelled)
    case Running(job, Update(r, outcome), d) =>
      && r < |s.rows| && s.rows[r].job == job && outcome != Pending && (d ==> s.cancelled)
      && (outcome == Sent ==> job in s.delivered)
      && (s.rows[r].status == Pending || (s.rows[r].status == Failed && outcome == Failed))
    case Running(_, _, d) => d ==> s.cancelled
    case Draining => s.cancelled
    case Exited => s.cancelled && s.taken >= s.acceptedAtCancel
    case _ => true
  }

  ghost predicate HasPending(w: Worker, r: nat) {
    w.Running? && ((w.stage.Dispatch? && w.stage.row == r) || (w.stage.Update? && w.stage.row == r))
  }

  /** A row is pending only while a worker is busy with it, and sent only if delivered. */
  ghost predicate RowGood(s: System, r: nat)
    requires r < |s.rows|
  {
    && (s.rows[r].status == Sent ==> s.rows[r].job in s.delivered)
    && (!s.storeFailed && s.rows[r].status == Pending ==>
        exists w :: 0 <= w < |s.workers| && HasPending(s.workers[w], r))
  }

  ghost predicate Good(s: System) {
    && s.taken <= |s.accepted| && s.acceptedAtCancel <= |s.accepted| && (!s.cancelled ==> s.acceptedAtCancel == 0)
    && |s.workers| == 3
    && s.Queued() <= 256
    && (forall j :: Conserved(s, j))
    && (forall j :: Recorded(s, j))
    && (forall w :: 0 <= w < |s.workers| ==> WorkerGood(s, s.workers[w]))
    && (forall v, w, r :: 0 <= v < w < |s.workers| ==> !(HasPending(s.workers[v], r) && HasPending(s.workers[w], r)))
    && (forall r: nat :: r < |s.rows| ==> RowGood(s, r))
    && (forall j :: j in s.dispatched ==> Exists(s.rows, j))
  }

  ghost predicate Exists(rows: seq<Row>, j: Job) {
    exists r :: 0 <= r < |rows| && rows[r].job == j
  }

  // ----- one step

  lemma TimesNext(jobs: seq<Job>, job: Job, j: Job)
    ensures Times(jobs + [job], j) == Times(jobs, j) + if job == j then 1 else 0
  {
  }

  lemma TimesAppended(jobs: seq<Job>, job: Option<Job>, j: Job)
    ensures Times(Appended(jobs, job), j) == Times(jobs, j) + if job == Some(j) then 1 else 0
  {
  }

  lemma TakenNext(jobs: seq<Job>, taken: nat, j: Job)
    requires taken < |jobs|
    ensures Times(jobs[..taken + 1], j) == Times(jobs[..taken], j) + if jobs[taken] == j then 1 else 0
  {
    assert jobs[..taken + 1] == jobs[..taken] + [jobs[taken]];
  }

  lemma TakenSame(jobs: seq<Job>, taken: nat, job: Job)
    requires taken <= |jobs|
    ensures (jobs + [job])[..taken] == jobs[..taken]
  {
  }

  lemma TimesSplit(jobs: seq<Job>, taken: nat, j: Job)
    requires taken <= |jobs|
    ensures Times(jobs, j) == Times(jobs[..taken], j) + Times(jobs[taken..], j)
  {
    assert jobs == jobs[..taken] + jobs[taken..];
  }

  lemma TimesIn(jobs: seq<Job>, i: nat)
    requires i < |jobs|
    ensures Times(jobs, jobs[i]) >= 1
  {
    assert jobs[i] in jobs;
  }

  lemma TimesFirst(jobs: seq<Job>, j: Job)
    requires jobs != []
    ensures Times(jobs, j) == Times(jobs[1..], j) + if jobs[0] == j then 1 else 0
  {
    assert jobs == [jobs[0]] + jobs[1..];
  }

  lemma {:induction false} TimesNumbers(from: nat, count: nat, j: Job)
    ensures Times(Numbers(from, count), j) == if from <= j < from + count then 1 else 0
  {
    if count > 0 {
      TimesNumbers(from, count - 1, j);
      assert Numbers(from, count) == Numbers(from, count - 1) + [from + count - 1];
    }
  }

  lemma MatchConserved(s: System, l: nat, n: nat, j: Job)
    requires s.taken <= |s.accepted| && Conserved(s, j) && Enabled(s, Match(l, n))
    ensures Conserved(Apply(s, Match(l, n)), j)
  {
    TimesNumbers(s.matched, n, j);
    ListenerChanges(s.listeners, l, Numbers(s.matched, n), j);
  }

  lemma OfferConserved(s: System, l: nat, ok: bool, j: Job)
    requires s.taken <= |s.accepted| && Conserved(s, j) && Enabled(s, Offer(l, ok))
    ensures Conserved(Apply(s, Offer(l, ok)), j)
  {
    TakenSame(s.accepted, s.taken, s.listeners[l][0]);
    OfferMovesJob(s, l, ok, j);
  }

  /** The offered job leaves its listener for the channel or the drop recorder. */
  lemma OfferMovesJob(s: System, l: nat, ok: bool, j: Job)
    requires s.taken <= |s.accepted| && l < |s.listeners| && s.listeners[l] != []
    ensures var after := OfferJob(s, l, ok);
      Waiting(after.listeners, j) + Times(after.accepted, j) + Times(after.dropped, j)
      == Waiting(s.listeners, j) + Times(s.accepted, j) + Times(s.dropped, j)
  {
    var job := s.listeners[l][0];
    TimesFirst(s.listeners[l], j);
    ListenerChanges(s.listeners, l, s.listeners[l][1..], j);
    TimesNext(s.accepted, job, j);
    TimesNext(s.dropped, job, j);
  }

  /** A worker's step neither loses nor duplicates a job. */
  lemma ReactConserves(x: Worker, cancelled: bool, head: Option<Job>, nextRow: nat, ok: bool, pick: bool, j: Job)
    ensures var e := React(x, cancelled, head, nextRow, ok, pick);
      && (e.takes ==> head.Some?)
      && Holds(x, j) + (if e.takes && head.value == j then 1 else 0) == Holds(e.to, j) + (if e.ended == Some(j) then 1 else 0)
  {
  }

  /** Unless a store call fails, a row appears exactly for a job that gets one or ends. */
  lemma ReactRecords(x: Worker, cancelled: bool, head: Option<Job>, nextRow: nat, ok: bool, pick: bool, j: Job)
    ensures var e := React(x, cancelled, head, nextRow, ok, pick);
      && (e.write.SetStatus? ==> x.Running? && x.stage == Update(e.write.index, e.write.status))
      && ((CallsStore(x) && !ok) ||
          HasRow(x, j) + (if e.write.Insert? && e.write.row.job == j then 1 else 0)
          == HasRow(e.to, j) + (if e.ended == Some(j) then 1 else 0))
  {
  }

  /** How often a job was taken grows by one with the step that takes it. */
  lemma TakenAfter(s: System, w: nat, ok: bool, pick: bool, j: Job)
    requires s.taken <= |s.accepted| && w < |s.workers|
    ensures var e := React(s.workers[w], s.cancelled, Head(s), |s.rows|, ok, pick);
      var after := WorkOn(s, w, ok, pick);
      && after.taken <= |s.accepted| && (e.takes ==> Head(s).Some?)
      && Times(s.accepted[..after.taken], j)
         == Times(s.accepted[..s.taken], j) + if e.takes && Head(s).value == j then 1 else 0
  {
    var e := React(s.workers[w], s.cancelled, Head(s), |s.rows|, ok, pick);
    ReactConserves(s.workers[w], s.cancelled, Head(s), |s.rows|, ok, pick, j);
    if e.takes { TakenNext(s.accepted, s.taken, j); }
  }

  lemma WorkStepConserved(s: System, w: nat, ok: bool, pick: bool, j: Job)
    requires s.taken <= |s.accepted| && Conserved(s, j) && w < |s.workers|
    ensures WorkOn(s, w, ok, pick).taken <= |s.accepted| && Conserved(WorkOn(s, w, ok, pick), j)
  {
    var e := React(s.workers[w], s.cancelled, Head(s), |s.rows|, ok, pick);
    ReactConserves(s.workers[w], s.cancelled, Head(s), |s.rows|, ok, pick, j);
    WorkerChanges(s.workers, w, e.to, j);
    TakenAfter(s, w, ok, pick, j);
    TimesAppended(s.finished, e.ended, j);
  }

  lemma WorkStepRecorded(s: System, w: nat, ok: bool, pick: bool, j: Job)
    requires s.taken <= |s.accepted| && Recorded(s, j) && w < |s.workers| && WorkerGood(s, s.workers[w])
    ensures Recorded(WorkOn(s, w, ok, pick), j)
  {
    var e := React(s.workers[w], s.cancelled, Head(s), |s.rows|, ok, pick);
    ReactRecords(s.workers[w], s.cancelled, Head(s), |s.rows|, ok, pick, j);
    WorkerChanges(s.workers, w, e.to, j);
    match e.write {
      case NoWrite =>
      case Insert(row) => RowAdded(s.rows, row, j);
      case SetStatus(r, status) => RowUpdated(s.rows, r, status, j);
    }
    TimesAppended(s.finished, e.ended, j);
  }

  lemma OfferRecorded(s: System, l: nat, ok: bool, j: Job)
    requires Recorded(s, j) && Enabled(s, Offer(l, ok))
    ensures Recorded(Apply(s, Offer(l, ok)), j)
  {
    TimesNext(s.dropped, s.listeners[l][0], j);
    RowAdded(s.rows, Row(s.listeners[l][0], Failed), j);
  }

  /** Which row a worker is busy with after a step: a fresh one, or the one it had. */
  lemma ReactPending(x: Worker, cancelled: bool, head: Option<Job>, nextRow: nat, ok: bool, pick: bool, r: nat)
    ensures var e := React(x, cancelled, head, nextRow, ok, pick);
      && (HasPending(e.to, r) ==> (r == nextRow && e.write.Insert?) || (HasPending(x, r) && !e.write.SetStatus?))
      && (HasPending(x, r) ==> HasPending(e.to, r) || e.write == SetStatus(r, x.stage.outcome) || (CallsStore(x) && !ok))
      && (e.write.Insert? && e.write.row.status == Pending ==> HasPending(e.to, nextRow))
      && (e.write.Insert? ==> e.write.row.status != Sent)
  {
  }

  lemma NewWorkerGood(s: System, w: nat, ok: bool, pick: bool)
    requires s.taken <= |s.accepted| && s.acceptedAtCancel <= |s.accepted| && w < |s.workers|
    requires WorkerGood(s, s.workers[w]) && CanWork(s, s.workers[w])
    ensures var after := WorkOn(s, w, ok, pick); after.taken <= |s.accepted| && WorkerGood(after, after.workers[w])
  {
  }

  lemma OtherWorkerGood(s: System, w: nat, v: nat, ok: bool, pick: bool)
    requires s.taken <= |s.accepted| && w < |s.workers| && v < |s.workers| && v != w
    requires WorkerGood(s, s.workers[w]) && WorkerGood(s, s.workers[v])
    requires forall r :: !(HasPending(s.workers[v], r) && HasPending(s.workers[w], r))
    ensures var after := WorkOn(s, w, ok, pick); after.taken <= |s.accepted| && WorkerGood(after, after.workers[v])
  {
    var e := React(s.workers[w], s.cancelled, Head(s), |s.rows|, ok, pick);
    ReactRecords(s.workers[w], s.cancelled, Head(s), |s.rows|, ok, pick, 0);
    if e.write.SetStatus? {
      assert HasPending(s.workers[w], e.write.index);
      assert !HasPending(s.workers[v], e.write.index);
    }
  }

  lemma BusyApart(s: System, w: nat, v: nat, ok: bool, pick: bool, r: nat)
    requires s.taken <= |s.accepted| && w < |s.workers| && v < |s.workers| && v != w
    requires WorkerGood(s, s.workers[v])
    requires !(HasPending(s.workers[v], r) && HasPending(s.workers[w], r))
    ensures var after := WorkOn(s, w, ok, pick);
      !(HasPending(after.workers[v], r) && HasPending(after.workers[w], r))
  {
    ReactPending(s.workers[w], s.cancelled, Head(s), |s.rows|, ok, pick, r);
  }

  lemma RowStaysGood(s: System, w: nat, ok: bool, pick: bool, r: nat)
    requires s.taken <= |s.accepted| && w < |s.workers| && WorkerGood(s, s.workers[w])
    requires r < |s.rows| ==> RowGood(s, r)
    requires r < |WorkOn(s, w, ok, pick).rows|
    ensures RowGood(WorkOn(s, w, ok, pick), r)
  {
    var after := WorkOn(s, w, ok, pick);
    var e := React(s.workers[w], s.cancelled, Head(s), |s.rows|, ok, pick);
    ReactPending(s.workers[w], s.cancelled, Head(s), |s.rows|, ok, pick, r);
    ReactRecords(s.workers[w], s.cancelled, Head(s), |s.rows|, ok, pick, 0);
    if !after.storeFailed && after.rows[r].status == Pending {
      if r == |s.rows| {
        assert HasPending(after.workers[w], r);
      } else {
        assert s.rows[r].status == Pending;
        var v :| 0 <= v < |s.workers| && HasPending(s.workers[v], r);
        assert HasPending(after.workers[v], r);
      }
    }
  }

  lemma AttemptedHaveRows(s: System, w: nat, ok: bool, pick: bool, j: Job)
    requires s.taken <= |s.accepted| && w < |s.workers| && WorkerGood(s, s.workers[w])
    requires j in s.dispatched ==> Exists(s.rows, j)
    requires j in WorkOn(s, w, ok, pick).dispatched
    ensures Exists(WorkOn(s, w, ok, pick).rows, j)
  {
    var after := WorkOn(s, w, ok, pick);
    if j in s.dispatched {
      var r :| 0 <= r < |s.rows| && s.rows[r].job == j;
      assert after.rows[r].job == j;
    } else {
      assert s.workers[w].Running? && s.workers[w].stage.Dispatch? && s.workers[w].job == j;
      assert after.rows[s.workers[w].stage.row].job == j;
    }
  }

  lemma WorkKeeps(s: System, w: nat, ok: bool, pick: bool)
    requires Good(s) && Enabled(s, Work(w, ok, pick))
    ensures Good(WorkOn(s, w, ok, pick))
  {
    var after := WorkOn(s, w, ok, pick);
    WorkStepConserved(s, w, ok, pick, 0);
    forall j ensures Conserved(after, j) { WorkStepConserved(s, w, ok, pick, j); }
    forall j ensures Recorded(after, j) { WorkStepRecorded(s, w, ok, pick, j); }
    forall v | 0 <= v < |after.workers| ensures WorkerGood(after, after.workers[v]) {
      if v == w { NewWorkerGood(s, w, ok, pick); } else { OtherWorkerGood(s, w, v, ok, pick); }
    }
    forall u, v, r: nat | 0 <= u < v < |after.workers|
      ensures !(HasPending(after.workers[u], r) && HasPending(after.workers[v], r))
    {
      if u == w { BusyApart(s, w, v, ok, pick, r); } else if v == w { BusyApart(s, w, u, ok, pick, r); }
    }
    forall r: nat | r < |after.rows| ensures RowGood(after, r) { RowStaysGood(s, w, ok, pick, r); }
    forall j | j in after.dispatched ensures Exists(after.rows, j) { AttemptedHaveRows(s, w, ok, pick, j); }
  }

  lemma OfferKeeps(s: System, l: nat, ok: bool)
    requires Good(s) && Enabled(s, Offer(l, ok))
    ensures Good(Apply(s, Offer(l, ok)))
  {
    var after := Apply(s, Offer(l, ok));
    forall j ensures Conserved(after, j) {
      assert Conserved(s, j);
      OfferConserved(s, l, ok, j);
    }
    forall j ensures Recorded(after, j) {
      assert Recorded(s, j);
      OfferRecorded(s, l, ok, j);
    }
    forall r: nat | r < |after.rows| ensures RowGood(after, r) {
      assert r < |s.rows| ==> RowGood(s, r);
    }
    forall j | j in after.dispatched ensures Exists(after.rows, j) {
      var r :| 0 <= r < |s.rows| && s.rows[r].job == j;
      assert after.rows[r].job == j;
    }
    forall w | 0 <= w < |after.workers| ensures WorkerGood(after, after.workers[w]) {
      assert WorkerGood(s, s.workers[w]);
    }
  }

  lemma MatchKeeps(s: System, l: nat, n: nat)
    requires Good(s) && Enabled(s, Match(l, n))
    ensures Good(Apply(s, Match(l, n)))
  {
    var after := Apply(s, Match(l, n));
    forall j ensures Conserved(after, j) {
      assert Conserved(s, j);
      MatchConserved(s, l, n, j);
    }
    SameButListeners(s, after);
  }

  lemma CancelKeeps(s: System)
    requires Good(s) && Enabled(s, Cancel)
    ensures Good(Apply(s, Cancel))
  {
    var after := Apply(s, Cancel);
    forall j ensures Conserved(after, j) { assert Conserved(s, j); }
    forall w | 0 <= w < |s.workers| ensures WorkerGood(after, s.workers[w]) { assert WorkerGood(s, s.workers[w]); }
    SameRows(s, after);
  }

  lemma SameRows(s: System, after: System)
    requires after.rows == s.rows && after.workers == s.workers && after.delivered == s.delivered
    requires after.dropped == s.dropped && after.finished == s.finished && after.storeFailed == s.storeFailed
    ensures forall j :: Recorded(s, j) ==> Recorded(after, j)
    ensures forall r: nat :: r < |s.rows| && RowGood(s, r) ==> RowGood(after, r)
  {
  }

  lemma SameButListeners(s: System, after: System)
    requires Good(s) && after == s.(listeners := after.listeners, matched := after.matched)
    requires forall j :: Conserved(after, j)
    ensures Good(after)
  {
    SameRows(s, after);
    forall w | 0 <= w < |s.workers| ensures WorkerGood(after, s.workers[w]) { assert WorkerGood(s, s.workers[w]); }
  }

  lemma StepKeeps(s: System, step: Step)
    requires Good(s) && Enabled(s, step)
    ensures Good(Apply(s, step))
  {
    match step
    case Match(l, n) => MatchKeeps(s, l, n);
    case Offer(l, ok) => OfferKeeps(s, l, ok);
    case Cancel => CancelKeeps(s);
    case Work(w, ok, pick) => WorkKeeps(s, w, ok, pick);
  }

  // ----- whole runs

  /** The state after the steps, each enabled when it is taken. */
  ghost predicate Reaches(listeners: nat, steps: seq<Step>, s: System)
    decreases |steps|, 1
  {
    if steps == [] then s == Initial(listeners)
    else exists before :: Leads(listeners, steps, before, s)
  }

  ghost predicate Leads(listeners: nat, steps: seq<Step>, before: System, s: System)
    requires steps != []
    decreases |steps|, 0
  {
    var step := steps[|steps| - 1];
    Reaches(listeners, steps[..|steps| - 1], before) && Enabled(before, step) && s == Apply(before, step)
  }

  lemma {:induction false} NothingWaiting(listeners: seq<seq<Job>>, j: Job)
    requires forall l :: 0 <= l < |listeners| ==> listeners[l] == []
    ensures Waiting(listeners, j) == 0
  {
    if listeners != [] {
      NothingWaiting(listeners[..|listeners| - 1], j);
    }
  }

  lemma {:induction false} IdleHoldNothing(workers: seq<Worker>, j: Job)
    requires forall w :: 0 <= w < |workers| ==> Holds(workers[w], j) == 0
    ensures InHand(workers, j) == 0 && WithRow(workers, j) == 0
  {
    if workers != [] {
      IdleHoldNothing(workers[..|workers| - 1], j);
    }
  }

  lemma InitialGood(listeners: nat)
    ensures Good(Initial(listeners))
  {
    var s := Initial(listeners);
    forall j ensures Conserved(s, j) && Recorded(s, j) {
      NothingWaiting(s.listeners, j);
      IdleHoldNothing(s.workers, j);
    }
  }

  lemma {:induction false} EveryRunIsGood(listeners: nat, steps: seq<Step>, s: System)
    requires Reaches(listeners, steps, s)
    ensures Good(s)
  {
    if steps == [] {
      InitialGood(listeners);
    } else {
      var before :| Leads(listeners, steps, before, s);
      EveryRunIsGood(listeners, steps[..|steps| - 1], before);
      StepKeeps(before, steps[|steps| - 1]);
    }
  }

  /** `Wait` returns. */
  predicate Stopped(s: System) { AllExited(s.workers) }

  /**
    Every matched job is still with its listener, or was accepted once, or was dropped
    once, and never two of these.
   */
  lemma EachJobOnce(listeners: nat, steps: seq<Step>, s: System, j: Job)
    requires Reaches(listeners, steps, s) && j < s.matched
    ensures Waiting(s.listeners, j) + Times(s.accepted, j) + Times(s.dropped, j) == 1
    ensures Times(s.finished, j) <= Times(s.accepted, j)
  {
    EveryRunIsGood(listeners, steps, s);
    assert Conserved(s, j);
    TimesSplit(s.accepted, s.taken, j);
  }

  /** Once the pool has stopped, every job accepted before cancellation was processed exactly once. */
  lemma DrainComplete(listeners: nat, steps: seq<Step>, s: System, i: nat)
    requires Reaches(listeners, steps, s) && Stopped(s) && i < s.acceptedAtCancel
    ensures i < |s.accepted| && Times(s.finished, s.accepted[i]) == 1
  {
    EveryRunIsGood(listeners, steps, s);
    var j := s.accepted[i];
    assert WorkerGood(s, s.workers[0]);
    assert Conserved(s, j);
    IdleHoldNothing(s.workers, j);
    TimesIn(s.accepted[..s.taken], i);
    TimesSplit(s.accepted, s.taken, j);
  }

  /** No delivery was ever attempted for a job without a history row. */
  lemma RowBeforeDispatch(listeners: nat, steps: seq<Step>, s: System, j: Job)
    requires Reaches(listeners, steps, s) && j in s.dispatched
    ensures Exists(s.rows, j)
  {
    EveryRunIsGood(listeners, steps, s);
  }

  /**
    If no store call failed, then once the pool has stopped every processed or dropped
    job has exactly one row, none is left pending, and one marked sent was delivered.
   */
  lemma OneFinalRowEach(listeners: nat, steps: seq<Step>, s: System, j: Job)
    requires Reaches(listeners, steps, s) && Stopped(s) && !s.storeFailed
    ensures j in s.finished || j in s.dropped ==> RowsFor(s.rows, j) == 1
    ensures forall r :: 0 <= r < |s.rows| ==> s.rows[r].status != Pending
    ensures forall r :: 0 <= r < |s.rows| && s.rows[r].status == Sent ==> s.rows[r].job in s.delivered
  {
    EveryRunIsGood(listeners, steps, s);
    assert Recorded(s, j) && Conserved(s, j);
    IdleHoldNothing(s.workers, j);
    TimesSplit(s.accepted, s.taken, j);
    assert j in s.finished ==> Times(s.finished, j) >= 1;
    assert j in s.dropped ==> Times(s.dropped, j) >= 1;
    forall r: nat | r < |s.rows| ensures s.rows[r].status != Pending { assert RowGood(s, r); }
    forall r: nat | r < |s.rows| && s.rows[r].status == Sent ensures s.rows[r].job in s.delivered { assert RowGood(s, r); }
  }
}
