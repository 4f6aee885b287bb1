/** Executing transfer records with any number of background workers (`transfer_execution_monitor_service` over the
    conditional claim in `account_repository`). */
module TransferWorkers {
  import opened Prelude

  datatype ExecuteStatus = PendingExecute | Executing | Processed

  datatype ResultStatus = NoResult | Success | Failure

  /** A row of `account_transfer_records`; its id is its place in the table. */
  datatype Record = Record(workerEnabled: bool, execute: ExecuteStatus, result: ResultStatus)

  predicate Claimable(r: Record) { r.workerEnabled && r.execute == PendingExecute }

  /** `list_pending_worker_transfer_records` without its limit. */
  function Pending(records: seq<Record>): (ids: seq<nat>)
    ensures forall i :: 0 <= i < |ids| ==> ids[i] < |records| && Claimable(records[ids[i]])
    ensures Increasing(ids)
  {
    if records == [] then []
    else
      var n := |records| - 1;
      Pending(records[..n]) + if Claimable(records[n]) then [n] else []
  }

  /** Every record that can be claimed is listed. */
  lemma {:induction false} PendingAreAll(records: seq<Record>, id: nat)
    ensures id in Pending(records) <==> id < |records| && records[id].workerEnabled && records[id].execute == PendingExecute
  {
    if records != [] {
      var n := |records| - 1;
      PendingAreAll(records[..n], id);
      assert id in Pending(records) <==> id in Pending(records[..n]) || (id == n && Claimable(records[n]));
    }
  }

  function Batch(records: seq<Record>, limit: nat): seq<nat> {
    if limit < |Pending(records)| then Pending(records)[..limit] else Pending(records)
  }

  /** A batch holds the first pending records, all of them unless there are more than the limit. */
  lemma BatchIsFirst(records: seq<Record>, limit: nat)
    ensures Batch(records, limit) <= Pending(records) && |Batch(records, limit)| <= limit
    ensures |Batch(records, limit)| == limit || Batch(records, limit) == Pending(records)
  {
  }

  function Claimed(r: Record): Record { r.(execute := Executing, result := NoResult) }

  function Finished(r: Record, result: ResultStatus): Record { r.(execute := Processed, result := result) }

  // ---------------------------------------------------------- all interleavings

  /** Where a worker is: between records with the rest of its batch, holding a record it has claimed, or holding one
      whose transfer has been attempted. */
  datatype Phase = Idle | Holding(id: nat) | Attempted(id: nat, result: ResultStatus)

  datatype Worker = Worker(batch: seq<nat>, phase: Phase)

  /** The records, the workers, and every transfer that was really attempted, in order. */
  datatype World = World(records: seq<Record>, workers: seq<Worker>, attempts: seq<nat>)

  /** What can happen: a record is created, a worker starts or dies, and the atomic steps of one worker. A record whose
      accounts are gone is given up without an attempt. */
  datatype Step =
    | Create(workerEnabled: bool)
    | Start
    | Die(worker: nat)
    | List(worker: nat, limit: nat)
    | Claim(worker: nat)
    | Attempt(worker: nat, result: ResultStatus)
    | GiveUp(worker: nat)
    | Finish(worker: nat)

  predicate Enabled(w: World, step: Step) {
    match step
    case Create(_) => true
    case Start => true
    case Die(k) => k < |w.workers|
    case List(k, _) => k < |w.workers| && w.workers[k].phase == Idle && w.workers[k].batch == []
    case Claim(k) => k < |w.workers| && w.workers[k].phase == Idle && w.workers[k].batch != []
    case Attempt(k, _) => k < |w.workers| && w.workers[k].phase.Holding?
    case GiveUp(k) => k < |w.workers| && w.workers[k].phase.Holding?
    case Finish(k) => k < |w.workers| && w.workers[k].phase.Attempted?
  }

  function SetWorker(w: World, k: nat, worker: Worker): World
    requires k < |w.workers|
  {
    w.(workers := w.workers[k := worker])
  }

  function SetRecord(w: World, id: nat, r: Record): World {
    if id < |w.records| then w.(records := w.records[id := r]) else w
  }

  function Take(w: World, step: Step): World
    requires Enabled(w, step)
  {
    match step
    case Create(enabled) => w.(records := w.records + [Record(enabled, PendingExecute, NoResult)])
    case Start => w.(workers := w.workers + [Worker([], Idle)])
    case Die(k) => SetWorker(w, k, Worker([], Idle))
    case List(k, limit) => SetWorker(w, k, Worker(Batch(w.records, limit), Idle))
    case Claim(k) =>
      var id, rest := w.workers[k].batch[0], w.workers[k].batch[1..];
      if id < |w.records| && Claimable(w.records[id])
      then SetRecord(SetWorker(w, k, Worker(rest, Holding(id))), id, Claimed(w.records[id]))
      else SetWorker(w, k, Worker(rest, Idle))
    case Attempt(k, result) =>
      var worker := w.workers[k];
      SetWorker(w, k, Worker(worker.batch, Attempted(worker.phase.id, result))).(attempts := w.attempts + [worker.phase.id])
    case GiveUp(k) => Finishing(w, k, Failure)
    case Finish(k) => Finishing(w, k, w.workers[k].phase.result)
  }

  function Finishing(w: World, k: nat, result: ResultStatus): World
    requires k < |w.workers| && !w.workers[k].phase.Idle?
  {
    var id := w.workers[k].phase.id;
    var rested := SetWorker(w, k, Worker(w.workers[k].batch, Idle));
    if id < |w.records| then SetRecord(rested, id, Finished(w.records[id], result)) else rested
  }

  /** Steps that are not enabled do not happen. */
  function After(steps: seq<Step>): World {
    if steps == [] then World([], [], [])
    else
      var before := After(steps[..|steps| - 1]);
      if Enabled(before, steps[|steps| - 1]) then Take(before, steps[|steps| - 1]) else before
  }

  function Count(attempts: seq<nat>, id: nat): nat {
    if attempts == [] then 0 else Count(attempts[..|attempts| - 1], id) + if attempts[|attempts| - 1] == id then 1 else 0
  }

  predicate Holds(worker: Worker, id: nat) { !worker.phase.Idle? && worker.phase.id == id }

  /** What keeps workers apart: the record a worker holds is being executed and held by nobody else, it has been attempted
      only if the worker says so, and records nobody has claimed have not been attempted at all. */
  ghost predicate Apart(w: World) {
    && (forall k :: 0 <= k < |w.workers| ==> WorkerFits(w, w.workers[k].phase))
    && (forall j, k :: 0 <= j < k < |w.workers| && !w.workers[j].phase.Idle? ==> !Holds(w.workers[k], w.workers[j].phase.id))
    && (forall id: nat :: RecordFits(w, id))
  }

  predicate WorkerFits(w: World, phase: Phase) {
    phase.Idle?
    || (phase.id < |w.records| && w.records[phase.id].workerEnabled && w.records[phase.id].execute == Executing
        && (phase.Holding? ==> Count(w.attempts, phase.id) == 0))
  }

  predicate RecordFits(w: World, id: nat) {
    && Count(w.attempts, id) <= 1
    && (Count(w.attempts, id) > 0 ==> id < |w.records| && w.records[id].workerEnabled && w.records[id].execute != PendingExecute)
  }

  lemma CountNext(attempts: seq<nat>, id: nat)
    ensures forall other :: Count(attempts + [id], other) == Count(attempts, other) + if other == id then 1 else 0
  {
    assert (attempts + [id])[..|attempts|] == attempts;
  }

  lemma StepKeepsApart(w: World, step: Step)
    requires Apart(w) && Enabled(w, step)
    ensures Apart(Take(w, step))
  {
    match step
    case Attempt(k, result) => AttemptKeepsApart(w, k, result);
    case Claim(k) => ClaimKeepsApart(w, k);
    case GiveUp(k) => FinishingKeepsApart(w, k, Failure);
    case Finish(k) => FinishingKeepsApart(w, k, w.workers[k].phase.result);
    case _ => QuietStepKeepsApart(w, step);
  }

  lemma QuietStepKeepsApart(w: World, step: Step)
    requires Apart(w) && Enabled(w, step) && (step.Create? || step.Start? || step.Die? || step.List?)
    ensures Apart(Take(w, step))
  {
    var t := Take(w, step);
    forall k | 0 <= k < |t.workers| ensures WorkerFits(t, t.workers[k].phase) {
      if k < |w.workers| { assert WorkerFits(w, w.workers[k].phase); }
    }
    forall id: nat ensures RecordFits(t, id) { assert RecordFits(w, id); }
  }

  lemma AttemptKeepsApart(w: World, k: nat, result: ResultStatus)
    requires Apart(w) && Enabled(w, Attempt(k, result))
    ensures Apart(Take(w, Attempt(k, result)))
  {
    var t, id := Take(w, Attempt(k, result)), w.workers[k].phase.id;
    CountNext(w.attempts, id);
    assert WorkerFits(w, w.workers[k].phase);
    forall j | 0 <= j < |t.workers| ensures WorkerFits(t, t.workers[j].phase) {
      assert WorkerFits(w, w.workers[j].phase);
      if j != k { assert !Holds(w.workers[j], id); }
    }
    forall other: nat ensures RecordFits(t, other) { assert RecordFits(w, other); }
  }

  lemma ClaimKeepsApart(w: World, k: nat)
    requires Apart(w) && Enabled(w, Claim(k))
    ensures Apart(Take(w, Claim(k)))
  {
    var t := Take(w, Claim(k));
    forall j | 0 <= j < |t.workers| ensures WorkerFits(t, t.workers[j].phase) {
      assert WorkerFits(w, w.workers[j].phase);
      assert RecordFits(w, w.workers[k].batch[0]);
    }
    forall id: nat ensures RecordFits(t, id) { assert RecordFits(w, id); }
  }

  lemma FinishingKeepsApart(w: World, k: nat, result: ResultStatus)
    requires Apart(w) && k < |w.workers| && !w.workers[k].phase.Idle?
    ensures Apart(Finishing(w, k, result))
  {
    var t, id := Finishing(w, k, result), w.workers[k].phase.id;
    forall j | 0 <= j < |t.workers| ensures WorkerFits(t, t.workers[j].phase) {
      assert WorkerFits(w, w.workers[j].phase);
      if j != k { assert !Holds(w.workers[j], id); }
    }
    forall other: nat ensures RecordFits(t, other) { assert RecordFits(w, other); }
  }

  lemma {:induction false} WorkersStayApart(steps: seq<Step>)
    ensures Apart(After(steps))
  {
    if steps != [] {
      WorkersStayApart(steps[..|steps| - 1]);
      var before := After(steps[..|steps| - 1]);
      if Enabled(before, steps[|steps| - 1]) { StepKeepsApart(before, steps[|steps| - 1]); }
    }
  }

  /** Whatever the number of workers and however their steps interleave, no transfer is attempted twice, and only records
      meant for workers are. */
  lemma AttemptedAtMostOnce(steps: seq<Step>, id: nat)
    ensures Count(After(steps).attempts, id) <= 1
    ensures Count(After(steps).attempts, id) > 0 ==> id < |After(steps).records| && After(steps).records[id].workerEnabled
  {
    WorkersStayApart(steps);
    assert RecordFits(After(steps), id);
  }

  function Rank(s: ExecuteStatus): nat {
    match s
    case PendingExecute => 0
    case Executing => 1
    case Processed => 2
  }

  /** Every step leaves a record's status or moves it on by exactly one: pending, executing, processed. */
  lemma StatusMovesForward(steps: seq<Step>, step: Step, id: nat)
    requires Enabled(After(steps), step) && id < |After(steps).records|
    ensures var was, now := After(steps).records[id].execute, Take(After(steps), step).records;
            id < |now| && (now[id].execute == was || Rank(now[id].execute) == Rank(was) + 1)
  {
    WorkersStayApart(steps);
  }

  /** Only the worker that holds a record can finish it. */
  lemma OnlyHolderFinishes(steps: seq<Step>, step: Step, id: nat)
    requires Enabled(After(steps), step) && id < |After(steps).records| && After(steps).records[id].execute == Executing
    ensures Take(After(steps), step).records[id].execute == Processed
            <==> (step.GiveUp? || step.Finish?) && Holds(After(steps).workers[step.worker], id)
  {
    WorkersStayApart(steps);
  }

  // ------------------------------------------------- results are told truly

  /** The step attempts the transfer of that record, with that result. */
  ghost predicate TriesAt(steps: seq<Step>, i: nat, id: nat, result: ResultStatus)
    requires i < |steps|
  {
    var w := After(steps[..i]);
    steps[i].Attempt? && Enabled(w, steps[i]) && w.workers[steps[i].worker].phase.id == id && steps[i].result == result
  }

  ghost predicate Tried(steps: seq<Step>, id: nat, result: ResultStatus) {
    exists i :: 0 <= i < |steps| && TriesAt(steps, i, id, result)
  }

  lemma TriedNext(steps: seq<Step>, step: Step, id: nat, result: ResultStatus)
    ensures Tried(steps, id, result) ==> Tried(steps + [step], id, result)
    ensures step.Attempt? && Enabled(After(steps), step) && After(steps).workers[step.worker].phase.id == id && step.result == result
            ==> Tried(steps + [step], id, result)
  {
    var more := steps + [step];
    if Tried(steps, id, result) {
      var i :| 0 <= i < |steps| && TriesAt(steps, i, id, result);
      assert more[..i] == steps[..i] && TriesAt(more, i, id, result);
    }
    assert more[..|steps|] == steps;
    if step.Attempt? && Enabled(After(steps), step) && After(steps).workers[step.worker].phase.id == id && step.result == result {
      assert TriesAt(more, |steps|, id, result);
    }
  }

  /** A worker that has attempted a transfer knows its result. */
  ghost predicate PhaseIsTrue(steps: seq<Step>, w: World, phase: Phase) {
    phase.Attempted? ==> Count(w.attempts, phase.id) > 0 && Tried(steps, phase.id, phase.result)
  }

  ghost predicate RecordIsTrue(steps: seq<Step>, w: World, id: nat)
    requires id < |w.records|
  {
    if w.records[id].execute != Processed then w.records[id].result == NoResult
    else if Count(w.attempts, id) > 0 then Tried(steps, id, w.records[id].result)
    else w.records[id].result == Failure
  }

  ghost predicate AllIsTrue(steps: seq<Step>, w: World) {
    && (forall k :: 0 <= k < |w.workers| ==> PhaseIsTrue(steps, w, w.workers[k].phase))
    && (forall id :: 0 <= id < |w.records| ==> RecordIsTrue(steps, w, id))
  }

  lemma StepStaysTrue(steps: seq<Step>, step: Step)
    requires AllIsTrue(steps, After(steps)) && Enabled(After(steps), step)
    ensures AllIsTrue(steps + [step], Take(After(steps), step))
  {
    var w, t, more := After(steps), Take(After(steps), step), steps + [step];
    WorkersStayApart(steps);
    if step.Attempt? { CountNext(w.attempts, w.workers[step.worker].phase.id); }
    forall k | 0 <= k < |t.workers| ensures PhaseIsTrue(more, t, t.workers[k].phase) {
      if t.workers[k].phase.Attempted? { TriedNext(steps, step, t.workers[k].phase.id, t.workers[k].phase.result); }
      if k < |w.workers| { assert PhaseIsTrue(steps, w, w.workers[k].phase); }
    }
    forall id | 0 <= id < |t.records| ensures RecordIsTrue(more, t, id) {
      if id < |w.records| { RecordStaysTrue(steps, step, id); }
    }
  }

  lemma RecordStaysTrue(steps: seq<Step>, step: Step, id: nat)
    requires AllIsTrue(steps, After(steps)) && Enabled(After(steps), step) && Apart(After(steps)) && id < |After(steps).records|
    requires id < |Take(After(steps), step).records|
    ensures RecordIsTrue(steps + [step], Take(After(steps), step), id)
  {
    var w := After(steps);
    forall result | Tried(steps, id, result) ensures Tried(steps + [step], id, result) { TriedNext(steps, step, id, result); }
    assert RecordIsTrue(steps, w, id);
    if step.Attempt? {
      CountNext(w.attempts, w.workers[step.worker].phase.id);
      assert WorkerFits(w, w.workers[step.worker].phase);
    }
    if step.GiveUp? || step.Finish? {
      assert WorkerFits(w, w.workers[step.worker].phase) && PhaseIsTrue(steps, w, w.workers[step.worker].phase);
    }
  }

  /** Over all interleavings: what is recorded of a processed record is what became of the one attempt at it, or `failure` if
      there was none, and of any other record nothing is. */
  lemma {:induction false} ResultIsOfItsAttempt(steps: seq<Step>)
    ensures AllIsTrue(steps, After(steps))
  {
    if steps != [] {
      var before, step := steps[..|steps| - 1], steps[|steps| - 1];
      ResultIsOfItsAttempt(before);
      assert steps == before + [step];
      if Enabled(After(before), step) {
        StepStaysTrue(before, step);
      } else {
        NothingElseTried(before, step);
      }
    }
  }

  lemma NothingElseTried(steps: seq<Step>, step: Step)
    requires AllIsTrue(steps, After(steps))
    ensures AllIsTrue(steps + [step], After(steps))
  {
    var w := After(steps);
    forall k | 0 <= k < |w.workers| ensures PhaseIsTrue(steps + [step], w, w.workers[k].phase) {
      assert PhaseIsTrue(steps, w, w.workers[k].phase);
      if w.workers[k].phase.Attempted? { TriedNext(steps, step, w.workers[k].phase.id, w.workers[k].phase.result); }
    }
    forall id | 0 <= id < |w.records| ensures RecordIsTrue(steps + [step], w, id) {
      assert RecordIsTrue(steps, w, id);
      TriedNext(steps, step, id, w.records[id].result);
    }
  }

  predicate Orphan(w: World, id: nat) {
    id < |w.records| && w.records[id].execute == Executing && forall k :: 0 <= k < |w.workers| ==> !Holds(w.workers[k], id)
  }

  /** The price of at most once: a record whose worker died stays `executing` for good and is never attempted again. */
  lemma {:induction false} OrphansStay(steps: seq<Step>, more: seq<Step>, id: nat)
    requires Orphan(After(steps), id)
    ensures Orphan(After(steps + more), id)
    ensures Count(After(steps + more).attempts, id) == Count(After(steps).attempts, id)
  {
    if more == [] {
      assert steps + more == steps;
    } else {
      var before := more[..|more| - 1];
      OrphansStay(steps, before, id);
      assert (steps + more)[..|steps + more| - 1] == steps + before;
      OrphanStep(After(steps + before), more[|more| - 1], id);
    }
  }

  lemma OrphanStep(w: World, step: Step, id: nat)
    requires Orphan(w, id)
    ensures Enabled(w, step) ==> Orphan(Take(w, step), id) && Count(Take(w, step).attempts, id) == Count(w.attempts, id)
  {
    if Enabled(w, step) && step.Attempt? { CountNext(w.attempts, w.workers[step.worker].phase.id); }
  }

  // ------------------------------------------------------------ one worker's scan

  /** What executing a record comes to: its accounts are gone, the transfer succeeds, or it fails. */
  datatype Outcome = ContextGone | Succeeded | Failed

  function ResultOf(o: Outcome): ResultStatus { if o == Succeeded then Success else Failure }

  /** The records of a batch whose transfer is attempted, in order. */
  function Attempts(ids: seq<nat>, outcomes: seq<Outcome>): seq<nat>
    requires |ids| == |outcomes|
  {
    if ids == [] then []
    else
      var n := |ids| - 1;
      Attempts(ids[..n], outcomes[..n]) + if outcomes[n] == ContextGone then [] else [ids[n]]
  }

  class TransferStore {
    var records: seq<Record>
    var attempts: seq<nat>

    constructor ()
      ensures records == [] && attempts == []
    {
      records, attempts := [], [];
    }

    /** `mark_transfer_record_processing`: the claim succeeds only on a record that is still pending. */
    method MarkProcessing(id: nat) returns (claimed: bool)
      modifies this`records
      ensures claimed == (id < |old(records)| && Claimable(old(records)[id]))
      ensures records == if claimed then old(records)[id := Claimed(old(records)[id])] else old(records)
    {
      claimed := id < |records| && Claimable(records[id]);
      if claimed { records := records[id := Claimed(records[id])]; }
    }

    /** `update_transfer_record_status`, which does not look at the status it overwrites. */
    method UpdateStatus(id: nat, result: ResultStatus)
      modifies this`records
      ensures records == if id < |old(records)| then old(records)[id := Finished(old(records)[id], result)] else old(records)
    {
      if id < |records| { records := records[id := Finished(records[id], result)]; }
    }

    /** `_execute_record`. */
    method ExecuteRecord(id: nat, outcome: Outcome)
      requires id < |records|
      modifies this
      ensures records == old(records)[id := Finished(old(records)[id], ResultOf(outcome))]
      ensures attempts == old(attempts) + if outcome == ContextGone then [] else [id]
    {
      match outcome
      case ContextGone =>
        UpdateStatus(id, Failure);
      case Succeeded =>
        attempts := attempts + [id];
        UpdateStatus(id, Success);
      case Failed =>
        attempts := attempts + [id];
        UpdateStatus(id, Failure);
    }

    /** `_scan_pending_records` with nobody interfering: every claim succeeds. */
    method ScanPendingRecords(limit: nat, outcomes: seq<Outcome>) returns (handled: nat)
      requires |outcomes| == |Batch(records, limit)|
      modifies this
      ensures var batch := Batch(old(records), limit);
              && handled == |batch| && attempts == old(attempts) + Attempts(batch, outcomes)
              && records == Executed(old(records), batch, outcomes)
    {
      var batch := Batch(records, limit);
      handled := 0;
      ghost var before := records;
      for i := 0 to |batch|
        invariant handled == i
        invariant Progress(before, old(attempts), batch, outcomes, i, records, attempts)
      {
        StillClaimable(before, batch, outcomes, i);
        ghost var now, tried := records, attempts;
        var claimed := MarkProcessing(batch[i]);
        if !claimed { continue; }
        handled := handled + 1;
        ExecuteRecord(batch[i], outcomes[i]);
        ProgressNext(before, old(attempts), batch, outcomes, i, now, tried);
      }
      assert batch[..|batch|] == batch && outcomes[..|batch|] == outcomes;
    }
  }

  /** The records and attempts when `i` records of the batch are done. */
  ghost predicate Progress(records: seq<Record>, attempts: seq<nat>, batch: seq<nat>, outcomes: seq<Outcome>, i: nat,
                           now: seq<Record>, tried: seq<nat>)
    requires i <= |batch| == |outcomes|
  {
    now == Executed(records, batch[..i], outcomes[..i]) && tried == attempts + Attempts(batch[..i], outcomes[..i])
  }

  lemma ProgressNext(records: seq<Record>, attempts: seq<nat>, batch: seq<nat>, outcomes: seq<Outcome>, i: nat,
                     now: seq<Record>, tried: seq<nat>)
    requires i < |batch| == |outcomes| && Progress(records, attempts, batch, outcomes, i, now, tried) && batch[i] < |now|
    ensures Progress(records, attempts, batch, outcomes, i + 1,
                     now[batch[i] := Finished(Claimed(now[batch[i]]), ResultOf(outcomes[i]))],
                     tried + if outcomes[i] == ContextGone then [] else [batch[i]])
  {
    assert batch[..i + 1][..i] == batch[..i] && outcomes[..i + 1][..i] == outcomes[..i];
  }

  /** The records after a batch has been claimed and executed, one by one. */
  function Executed(records: seq<Record>, ids: seq<nat>, outcomes: seq<Outcome>): seq<Record>
    requires |ids| == |outcomes|
  {
    if ids == [] then records
    else
      var n := |ids| - 1;
      var before := Executed(records, ids[..n], outcomes[..n]);
      if ids[n] < |before| then before[ids[n] := Finished(Claimed(before[ids[n]]), ResultOf(outcomes[n]))] else before
  }

  /** Exactly the records of the batch are processed, with their own outcomes, and every other record is left alone. */
  lemma {:induction false} BatchIsProcessed(records: seq<Record>, ids: seq<nat>, outcomes: seq<Outcome>, id: nat)
    requires |ids| == |outcomes| && id < |records| && Increasing(ids)
    ensures var after := Executed(records, ids, outcomes);
            && |after| == |records|
            && (id !in ids ==> after[id] == records[id])
            && (forall i :: 0 <= i < |ids| && ids[i] == id && outcomes[i] == Succeeded ==>
                              after[id] == records[id].(execute := Processed, result := Success))
            && (forall i :: 0 <= i < |ids| && ids[i] == id && outcomes[i] != Succeeded ==>
                              after[id] == records[id].(execute := Processed, result := Failure))
  {
    if ids != [] {
      var n := |ids| - 1;
      BatchIsProcessed(records, ids[..n], outcomes[..n], id);
      assert ids == ids[..n] + [ids[n]];
      LastIsGreatest(ids);
    }
  }

  ghost predicate Increasing(ids: seq<nat>) {
    forall i, j :: 0 <= i < j < |ids| ==> ids[i] < ids[j]
  }

  lemma LastIsGreatest(ids: seq<nat>)
    requires ids != [] && Increasing(ids)
    ensures Increasing(ids[..|ids| - 1]) && ids[|ids| - 1] !in ids[..|ids| - 1]
  {
  }

  lemma StillClaimable(records: seq<Record>, batch: seq<nat>, outcomes: seq<Outcome>, i: nat)
    requires i < |batch| == |outcomes| && Increasing(batch)
    requires batch[i] < |records| && Claimable(records[batch[i]])
    ensures var now := Executed(records, batch[..i], outcomes[..i]);
            |now| == |records| && Claimable(now[batch[i]])
  {
    assert batch[i] !in batch[..i];
    BatchIsProcessed(records, batch[..i], outcomes[..i], batch[i]);
  }
}
