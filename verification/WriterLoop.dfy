/** The writer thread of a project: it takes jobs off its queue in batches (rust-core/src/runtime.rs, writer_loop). */
module WriterLoop {
  import opened Wrappers
  import opened Database
  import opened Storage
  import opened Protocol
  import opened ProtocolSteps
  import opened ProtocolTheorems
  import opened Answers
  import opened WriteRuntime

  /**
   What an Ok answer means once the loop has moved on. Without a key: the write is in the durable
   log and the answer is its value with its bookmark, or it changed nothing and the answer is its
   value. With a key: the first, or the answer is the one stored with the key.
   */
  ghost predicate Kept(job: Job, response: Result<Value, ApiError>, durable: Log, live: Log) {
    response.Success? ==>
      if job.idempotency.Some? then
        InLog(job, response.value, durable) || FromRow(job.idempotency.value, response.value, live)
      else
        && job.outcome.Done?
        && if job.outcome.committed then InLog(job, response.value, durable) else response.value == job.outcome.value
  }

  /** The job's transactions are in the log, and the answer is its value with the bookmark they were flushed under. */
  ghost predicate InLog(job: Job, answer: Value, log: Log) {
    && job.outcome.Done?
    && exists at: nat, mark: nat :: LogHas(log, at, JobTxs(mark, job)) && Carries(answer, job.outcome.value, mark)
  }

  predicate FromRow(idem: Idempotency, response: Value, live: Log) {
    var row := FindRecord(live, idem.key);
    row.Some? && row.value.hash == idem.requestHash && row.value.response == response
  }

  ghost predicate AllKept(jobs: seq<Job>, responses: seq<Result<Value, ApiError>>, durable: Log, live: Log) {
    && |jobs| == |responses|
    && forall i :: 0 <= i < |jobs| ==> Kept(jobs[i], responses[i], durable, live)
  }

  lemma KeptGrows(job: Job, response: Result<Value, ApiError>, a: Log, x: Log, b: Log, y: Log)
    requires Kept(job, response, a, x) && a <= b && x <= y
    ensures Kept(job, response, b, y)
  {
    hide JobTxs, Carries;
    if response.Success? && InLog(job, response.value, a) {
      var at: nat, mark: nat :| LogHas(a, at, JobTxs(mark, job)) && Carries(response.value, job.outcome.value, mark);
      var txs := JobTxs(mark, job);
      assert b[at..at + |txs|] == a[at..at + |txs|];
      assert LogHas(b, at, txs);
    }
    if job.idempotency.Some? {
      FindRecordConcat(x, y[|x|..], job.idempotency.value.key);
      assert x + y[|x|..] == y;
    }
  }

  lemma AllKeptGrows(jobs: seq<Job>, responses: seq<Result<Value, ApiError>>, a: Log, x: Log, b: Log, y: Log)
    requires AllKept(jobs, responses, a, x) && a <= b && x <= y
    ensures AllKept(jobs, responses, b, y)
  {
    hide Kept;
    forall i | 0 <= i < |jobs|
      ensures Kept(jobs[i], responses[i], b, y)
    {
      KeptGrows(jobs[i], responses[i], a, x, b, y);
    }
  }

  lemma AllKeptConcat(jobs: seq<Job>, rs: seq<Result<Value, ApiError>>,
                      more: seq<Job>, rs': seq<Result<Value, ApiError>>, durable: Log, live: Log)
    requires AllKept(jobs, rs, durable, live) && AllKept(more, rs', durable, live)
    ensures AllKept(jobs + more, rs + rs', durable, live)
  {
    hide Kept;
  }

  /** An Ok that needs no flush: nothing changed, or the key's stored response. */
  lemma UncommittedOk(log: Log, commitSeq: nat, job: Job)
    requires ExecJob(log, commitSeq, job).result.Success? && !ExecJob(log, commitSeq, job).committed
    ensures job.idempotency.None? ==>
              && job.outcome.Done? && !job.outcome.committed
              && ExecJob(log, commitSeq, job).result.value == job.outcome.value
    ensures job.idempotency.Some? ==> FromRow(job.idempotency.value, ExecJob(log, commitSeq, job).result.value, log)
  {
    hide ValidIdempotency, FindRecord, JobFrames, WithBookmark;
  }

  lemma UnkeyedFlag(log: Log, commitSeq: nat, job: Job)
    requires ExecJob(log, commitSeq, job).committed && ExecJob(log, commitSeq, job).result.Success?
    ensures job.idempotency.None? ==> job.outcome.Done? && job.outcome.committed
  {
  }

  /** What a batch promises, told of its jobs one by one. */
  lemma BatchKept(r: Ran, jobs: seq<Job>, responses: seq<Result<Value, ApiError>>, before: nat, after: nat, s: Sys, t: Sys)
    requires RunJobs(r.start, jobs).slots == r.slots && |r.slots| == |jobs| == |responses|
    requires BatchAnswered(r, responses, before, after) && BatchDurable(r, s, t, after)
    ensures AllKept(jobs, responses, DurableLog(t), RunJobs(r.start, jobs).project.Content())
  {
    hide RunJobs, DurableLog, JobTxs, LogHas, ExecJob, FromRow, FindRecord, Carries, WithBookmark, ValidIdempotency, Committed;
    var live := RunJobs(r.start, jobs).project.Content();
    forall i | 0 <= i < |jobs|
      ensures Kept(jobs[i], responses[i], DurableLog(t), live)
    {
      var log := RunJobs(r.start, jobs[..i]).project.Content();
      SlotOfJob(r.start, jobs, i);
      if responses[i].Success? {
        if r.slots[i].committed {
          CountedWhenCommitted(r.slots, i);
          assert SlotOk(r.slots[i], DurableLog(t), after);
          assert LogHas(DurableLog(t), r.slots[i].at, JobTxs(after, jobs[i]));
          WithBookmarkCarries(jobs[i].outcome.value, after);
          assert responses[i].value == WithBookmark(r.slots[i].result.value, after);
          UnkeyedFlag(log, r.start.commitSeq, jobs[i]);
        } else {
          UncommittedOk(log, r.start.commitSeq, jobs[i]);
          if jobs[i].idempotency.Some? {
            StoredGrows(jobs[i].idempotency.value, responses[i].value, log, live);
          }
        }
      }
    }
  }

  lemma StoredGrows(idem: Idempotency, response: Value, a: Log, b: Log)
    requires FromRow(idem, response, a) && a <= b
    ensures FromRow(idem, response, b)
  {
    FindRecordConcat(a, b[|a|..], idem.key);
    assert a + b[|a|..] == b;
  }

  lemma RefusedBatchKept(jobs: seq<Job>, responses: seq<Result<Value, ApiError>>, durable: Log, live: Log)
    requires |responses| == |jobs| && forall i :: 0 <= i < |jobs| ==> responses[i].Failure?
    ensures AllKept(jobs, responses, durable, live)
  {
  }

  lemma LogGrows(a: seq<Event>, s: Sys, b: seq<Event>, t: Sys)
    requires a <= b && Run(Init(), a) == Some(s) && Run(Init(), b) == Some(t)
    ensures DurableLog(s) <= DurableLog(t)
  {
    hide Run;
    assert a + b[|a|..] == b;
    DurableLogGrows(a, b[|a|..]);
  }

  /** The only errors of a job that are its own doing: what SQLite rejects it with, and what its key is refused with. */
  predicate OwnFault(job: Job, response: Result<Value, ApiError>) {
    response.Failure? ==>
      || (job.outcome.Reject? && response.error == job.outcome.error)
      || (job.idempotency.Some? && response.error in {ApiError(400), ApiError(409), ApiError(425)})
  }

  predicate OwnFaults(jobs: seq<Job>, responses: seq<Result<Value, ApiError>>) {
    |jobs| == |responses| && forall i :: 0 <= i < |jobs| ==> OwnFault(jobs[i], responses[i])
  }

  /** A batch that ran and was flushed, or had nothing to flush, refuses nobody but for his own fault. */
  lemma ToldFaults(jobs: seq<Job>, r: Ran, number: nat, mark: nat, acks: seq<Ack>, responses: seq<Result<Value, ApiError>>)
    requires |jobs| == |responses| && r.flush.Success?
    requires forall i :: 0 <= i < |jobs| ==>
               Told(jobs[i], RunJobs(r.start, jobs[..i]).project.Content(), number, r.flush, mark, acks, responses[i])
    ensures OwnFaults(jobs, responses)
  {
    hide RunJobs, Carries, ShowsMark, NoRow, HasRow, ValidIdempotency;
    forall i | 0 <= i < |jobs|
      ensures OwnFault(jobs[i], responses[i])
    {
      assert Told(jobs[i], RunJobs(r.start, jobs[..i]).project.Content(), number, r.flush, mark, acks, responses[i]);
    }
  }

  /**
   `writer_loop` over every job that ever reaches the queue; `*` stands for a wait that timed out
   or an empty queue. Every job is answered once and in order, in batches of at most `maxOps`,
   and every Ok still means what it meant, however many later batches failed or compacted. If no
   store operation fails and no lease is refused, nobody gets an error but for his own fault.
   */
  method ServeQueue(runtime: ProjectRuntime, queue: seq<Job>, maxOps: nat)
      returns (responses: seq<Result<Value, ApiError>>)
    requires runtime.Valid() && runtime.open && runtime.sys.phase == Idle && runtime.currentSnapshot.Some?
    requires forall i :: 0 <= i < |queue| ==> HonestJob(queue[i])
    modifies runtime, runtime.store
    ensures runtime.Valid() && runtime.open && runtime.sys.phase == Idle
    ensures AllKept(queue, responses, DurableLog(runtime.sys), runtime.View().Content())
    ensures runtime.Trouble() == old(runtime.Trouble()) ==> OwnFaults(queue, responses)
  {
    hide Inv, Run, DurableLog, AllKept, HonestJob, Committed, OwnFault;
    var limit := if maxOps == 0 then 1 else maxOps;
    var taken := 0;
    responses := [];
    RefusedBatchKept([], [], DurableLog(runtime.sys), runtime.View().Content());
    while taken < |queue|
      invariant 0 <= taken <= |queue|
      invariant runtime.Valid() && runtime.open && runtime.sys.phase == Idle && runtime.currentSnapshot.Some?
      invariant AllKept(queue[..taken], responses, DurableLog(runtime.sys), runtime.View().Content())
      invariant runtime.Trouble() >= old(runtime.Trouble())
      invariant runtime.Trouble() == old(runtime.Trouble()) ==> OwnFaults(queue[..taken], responses)
    {
      var first := taken;
      taken := taken + 1;
      while taken < |queue| && taken - first < limit
        invariant first < taken <= |queue| && taken - first <= limit
      {
        var timedOut: bool := *;
        if timedOut {
          break;
        }
        taken := taken + 1;
      }
      var answers := ServeBatch(runtime, queue[..first], responses, queue[first..taken]);
      responses := responses + answers;
      assert queue[..first] + queue[first..taken] == queue[..taken];
    }
    assert queue[..taken] == queue;
  }

  /** One batch, after others. */
  method ServeBatch(runtime: ProjectRuntime, ghost jobs: seq<Job>, ghost earlier: seq<Result<Value, ApiError>>,
                    batch: seq<Job>)
      returns (answers: seq<Result<Value, ApiError>>)
    requires runtime.Valid() && runtime.open && runtime.sys.phase == Idle && runtime.currentSnapshot.Some?
    requires forall i :: 0 <= i < |batch| ==> HonestJob(batch[i])
    requires AllKept(jobs, earlier, DurableLog(runtime.sys), runtime.View().Content())
    modifies runtime, runtime.store
    ensures runtime.Valid() && runtime.open && runtime.sys.phase == Idle && runtime.currentSnapshot.Some?
    ensures AllKept(jobs + batch, earlier + answers, DurableLog(runtime.sys), runtime.View().Content())
    ensures runtime.Trouble() >= old(runtime.Trouble())
    ensures runtime.Trouble() == old(runtime.Trouble()) ==> OwnFaults(batch, answers)
  {
    hide Inv, Run, DurableLog, AllKept, RunJobs, BatchAnswered, BatchDurable, HonestJob, Committed, Told, OwnFaults;
    ghost var before, trace, seqNo, live := runtime.sys, runtime.trace, runtime.commitSeq, runtime.View().Content();
    var timeUp: bool := *;
    ghost var ran;
    answers, ran := runtime.ExecuteWriteBatch(batch, timeUp);
    ghost var durable, now := DurableLog(runtime.sys), runtime.View().Content();
    LogGrows(trace, before, runtime.trace, runtime.sys);
    if ran.Some? {
      RunJobsExtend(ran.value.start, batch);
      if ran.value.flush.Success? {
        ToldFaults(batch, ran.value, seqNo, runtime.commitSeq, runtime.sys.acks, answers);
      }
      BatchKept(ran.value, batch, answers, seqNo, runtime.commitSeq, before, runtime.sys);
    } else {
      RefusedBatchKept(batch, answers, durable, now);
    }
    AllKeptGrows(jobs, earlier, DurableLog(before), live, durable, now);
    AllKeptConcat(jobs, earlier, batch, answers, durable, now);
  }

  lemma {:induction false} RunJobsExtend(p: Project, jobs: seq<Job>)
    ensures p.Content() <= RunJobs(p, jobs).project.Content()
  {
    hide ExecJob, Committed;
    if |jobs| > 0 {
      var n := |jobs| - 1;
      RunJobsExtend(p, jobs[..n]);
      RunJobContent(RunJobs(p, jobs[..n]), jobs[n]);
    }
  }
}
