/**
 What the clients of a batch are told (rust-core/src/runtime.rs, the end of execute_write_batch;
 rust-core/src/runtime_utils.rs, with_bookmark).
 */
module Answers {
  import opened Wrappers
  import opened Database
  import opened Protocol
  import opened ProtocolSteps
  import opened ProtocolTheorems

  /** What a slot's client is sent once the flush has succeeded or failed. */
  function Respond(slot: Slot, flush: Result<(), ApiError>, bookmark: Option<nat>): Result<Value, ApiError> {
    match slot.result
    case Failure(e) => Failure(e)
    case Success(v) =>
      if slot.committed && flush.Failure? then Failure(flush.error)
      else if slot.committed && bookmark.Some? then Success(WithBookmark(v, bookmark.value))
      else Success(v)
  }

  /** A batch that ran: the state it started from, its slots, and how its flush ended. */
  datatype Ran = Ran(start: Project, slots: seq<Slot>, flush: Result<(), ApiError>)

  /** Every client is answered as the flush went, with the new bookmark if it went well. */
  ghost predicate BatchAnswered(r: Ran, responses: seq<Result<Value, ApiError>>, before: nat, after: nat)
    requires |responses| == |r.slots|
  {
    var flushed := CommittedSlots(r.slots) > 0 && r.flush.Success?;
    && (CommittedSlots(r.slots) == 0 ==> r.flush.Success?)
    && (flushed ==> after == SatInc(before))
    && (forall i :: 0 <= i < |responses| ==>
          responses[i] == Respond(r.slots[i], r.flush, if flushed then Some(after) else None))
  }

  /** A flushed batch is in the durable log, slot by slot; nobody else is acknowledged. */
  ghost predicate BatchDurable(r: Ran, before: Sys, after: Sys, mark: nat) {
    if CommittedSlots(r.slots) > 0 && r.flush.Success? then
      && SlotsOk(r.slots, DurableLog(after), mark)
      && exists v :: after.acks == before.acks + AcksOf(r.slots, mark, v)
    else after.acks == before.acks
  }

  /** Only the acknowledgements before the batch matter. */
  lemma SameAcks(r: Ran, a: Sys, b: Sys, after: Sys, mark: nat)
    requires BatchDurable(r, a, after, mark) && a.acks == b.acks
    ensures BatchDurable(r, b, after, mark)
  {
    hide AcksOf, SlotsOk, DurableLog;
  }

  /** No committed job of a batch whose flush failed is answered Ok. */
  lemma FailedFlushAnswersErrors(r: Ran, responses: seq<Result<Value, ApiError>>, before: nat, after: nat, i: nat)
    requires |responses| == |r.slots| && BatchAnswered(r, responses, before, after)
    requires r.flush.Failure? && i < |r.slots| && r.slots[i].committed
    ensures responses[i].Failure?
  {
    assert responses[i] == Respond(r.slots[i], r.flush, None);
  }

  /** Slot `i` of a batch holds what its job answered on the log that the jobs before it left. */
  lemma {:induction false} SlotOfJob(p: Project, jobs: seq<Job>, i: nat)
    requires i < |jobs|
    ensures
      var slots, before := RunJobs(p, jobs).slots, RunJobs(p, jobs[..i]).project.Content();
      && |slots| == |jobs| && slots[i].job == jobs[i]
      && slots[i].result == ExecJob(before, p.commitSeq, jobs[i]).result
      && slots[i].committed == ExecJob(before, p.commitSeq, jobs[i]).committed
      && before <= RunJobs(p, jobs).project.Content()
  {
    hide ExecJob, Committed;
    var n := |jobs| - 1;
    RunJobsCount(p, jobs[..n]);
    RunJobsSeq(p, jobs[..n]);
    RunJobContent(RunJobs(p, jobs[..n]), jobs[n]);
    if i < n {
      SlotOfJob(p, jobs[..n], i);
      assert jobs[..n][..i] == jobs[..i];
    } else {
      assert jobs[..i] == jobs[..n];
    }
  }

  lemma {:induction false} RunJobsCount(p: Project, jobs: seq<Job>)
    ensures |RunJobs(p, jobs).slots| == |jobs|
  {
    hide ExecJob, Committed;
    if |jobs| > 0 {
      RunJobsCount(p, jobs[..|jobs| - 1]);
    }
  }

  lemma {:induction false} CountedWhenCommitted(slots: seq<Slot>, i: nat)
    requires i < |slots| && slots[i].committed
    ensures CommittedSlots(slots) > 0
  {
    if i < |slots| - 1 {
      CountedWhenCommitted(slots[..|slots| - 1], i);
    }
  }

  // ---- The same, told of the job alone ------------------------------------------------

  ghost predicate NoRow(log: Log, key: string) {
    forall at :: 0 <= at < |log| && log[at].Record? ==> log[at].row.key != key
  }

  ghost predicate HasRow(log: Log, row: Row) {
    exists at :: 0 <= at < |log| && log[at] == Record(row)
  }

  /**
   What a job that reaches SQLite is told. A flushed Ok is the job's own value with the new number
   as its bookmark, which is the number it is acknowledged under; an Ok that needs no flush is
   the value as it is.
   */
  ghost predicate ToldRan(job: Job, flushed: bool, flush: Result<(), ApiError>, mark: nat, acks: seq<Ack>,
                          response: Result<Value, ApiError>)
  {
    match job.outcome
    case Reject(e, _, _) => response == Failure(e)
    case Done(v, _, _) =>
      if !flushed then response == Success(v)
      else if flush.Failure? then response == Failure(flush.error)
      else
        && response.Success? && Carries(response.value, v, mark)
        && exists i :: 0 <= i < |acks| && acks[i].job == job && acks[i].mark == mark
  }

  /**
   What any job is told, on the log before it and at the number before the batch: 400 for a malformed
   key; for a key that has a row 409 if the row is another request's, 425 if it is ahead of the
   number, else the row's response, which shows the row's own number.
   */
  ghost predicate Told(job: Job, log: Log, number: nat, flush: Result<(), ApiError>, mark: nat, acks: seq<Ack>,
                       response: Result<Value, ApiError>)
  {
    match job.idempotency
    case None => ToldRan(job, job.outcome.committed, flush, mark, acks, response)
    case Some(idem) =>
      if !ValidIdempotency(idem) then response == Failure(ApiError(400))
      else if NoRow(log, idem.key) then ToldRan(job, true, flush, mark, acks, response)
      else
        exists row: Row ::
          && HasRow(log, row) && row.key == idem.key && ShowsMark(row.response, row.mark)
          && response == if row.hash != idem.requestHash then Failure(ApiError(409))
                         else if number < row.mark then Failure(ApiError(425))
                         else Success(row.response)
  }

  lemma LookupIsRow(log: Log, key: string)
    ensures FindRecord(log, key).None? <==> NoRow(log, key)
    ensures FindRecord(log, key).Some? ==> HasRow(log, FindRecord(log, key).value)
  {
    if FindRecord(log, key).Some? {
      var i := FoundAt(log, key);
    } else {
      forall at | 0 <= at < |log| && log[at].Record?
        ensures log[at].row.key != key
      {
        RowIsFound(log, at);
      }
    }
  }

  lemma {:induction false} AckedSlot(slots: seq<Slot>, mark: nat, version: nat, i: nat) returns (k: nat)
    requires i < |slots| && slots[i].committed && slots[i].result.Success?
    ensures k < |AcksOf(slots, mark, version)|
    ensures AcksOf(slots, mark, version)[k].job == slots[i].job && AcksOf(slots, mark, version)[k].mark == mark
  {
    var n := |slots| - 1;
    if i < n {
      k := AckedSlot(slots[..n], mark, version, i);
    } else {
      k := |AcksOf(slots[..n], mark, version)|;
    }
  }

  /** One slot: from the answer the code computes to what its job is told. */
  lemma SlotTold(job: Job, log: Log, number: nat, slot: Slot, flush: Result<(), ApiError>, mark: nat, acks: seq<Ack>)
    requires RowsUpTo(log, SatInc(number)) && (slot.committed && flush.Success? ==> mark == SatInc(number))
    requires
      var r := ExecJob(log, number, job);
      slot.job == job && slot.result == r.result && slot.committed == r.committed
    requires slot.committed && slot.result.Success? && flush.Success? ==>
               exists i :: 0 <= i < |acks| && acks[i].job == job && acks[i].mark == mark
    ensures Told(job, log, number, flush, mark, acks,
                 Respond(slot, flush, if slot.committed && flush.Success? then Some(mark) else None))
  {
    hide ValidIdempotency, FindRecord, JobFrames, WithBookmark, Carries;
    if job.outcome.Done? {
      WithBookmarkCarries(job.outcome.value, mark);
    }
    if job.idempotency.Some? {
      LookupIsRow(log, job.idempotency.value.key);
    }
  }

  /** Every job of a batch is told so. */
  lemma BatchTold(r: Ran, jobs: seq<Job>, responses: seq<Result<Value, ApiError>>, before: nat, after: nat, s: Sys, t: Sys)
    requires RunJobs(r.start, jobs).slots == r.slots && |r.slots| == |jobs| == |responses|
    requires BatchAnswered(r, responses, before, after) && BatchDurable(r, s, t, after)
    requires r.start.commitSeq == before
    requires Accounted(r.start.Content()) && RowsUpTo(r.start.Content(), SatInc(before))
    ensures forall i :: 0 <= i < |jobs| ==>
              Told(jobs[i], RunJobs(r.start, jobs[..i]).project.Content(), before, r.flush, after, t.acks, responses[i])
  {
    hide RunJobs, ExecJob, Told, RowsUpTo, Accounted, BatchDurable, Respond, Committed;
    forall i | 0 <= i < |jobs|
      ensures Told(jobs[i], RunJobs(r.start, jobs[..i]).project.Content(), before, r.flush, after, t.acks, responses[i])
    {
      SlotOfJob(r.start, jobs, i);
      RowsOfBatch(r.start, jobs[..i]);
      var slot := r.slots[i];
      if slot.committed {
        CountedWhenCommitted(r.slots, i);
        if slot.result.Success? && r.flush.Success? {
          AckedInBatch(r, s, t, after, i);
        }
      }
      SlotTold(jobs[i], RunJobs(r.start, jobs[..i]).project.Content(), before, slot, r.flush, after, t.acks);
      SameAnswer(slot, r.flush, after, CommittedSlots(r.slots) > 0 && r.flush.Success?);
    }
  }

  lemma AckedInBatch(r: Ran, s: Sys, t: Sys, mark: nat, i: nat)
    requires BatchDurable(r, s, t, mark) && r.flush.Success?
    requires i < |r.slots| && r.slots[i].committed && r.slots[i].result.Success?
    ensures exists k :: 0 <= k < |t.acks| && t.acks[k].job == r.slots[i].job && t.acks[k].mark == mark
  {
    hide AcksOf, SlotsOk, DurableLog;
    CountedWhenCommitted(r.slots, i);
    var v :| t.acks == s.acks + AcksOf(r.slots, mark, v);
    var k := AckedSlot(r.slots, mark, v, i);
    assert t.acks[|s.acks| + k] == AcksOf(r.slots, mark, v)[k];
  }

  /** The bookmark only matters to a committed slot. */
  lemma SameAnswer(slot: Slot, flush: Result<(), ApiError>, mark: nat, flushed: bool)
    requires slot.committed ==> flushed == flush.Success?
    ensures Respond(slot, flush, if flushed then Some(mark) else None)
         == Respond(slot, flush, if slot.committed && flush.Success? then Some(mark) else None)
  {
  }

  lemma RowsOfBatch(p: Project, jobs: seq<Job>)
    requires Accounted(p.Content()) && RowsUpTo(p.Content(), SatInc(p.commitSeq))
    ensures RowsUpTo(RunJobs(p, jobs).project.Content(), SatInc(p.commitSeq))
  {
    hide RunJobs, Accounted, Committed;
    RunJobsOk(p, jobs);
    MarksGrow(p.Content(), RunJobs(p, jobs).project.Content(), SatInc(p.commitSeq));
  }
}
