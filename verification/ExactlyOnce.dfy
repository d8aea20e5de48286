/**
 Exactly once: when the mutation and the idempotency row of a key are in the log together
 (rust-core/src/runtime.rs, execute_idempotent_write_kind), over whole runs.
 */
module ExactlyOnce {
  import opened Wrappers
  import opened Database
  import opened Storage
  import opened Protocol
  import opened ProtocolSteps
  import opened ProtocolTheorems

  /** No job of this key in the event changes rows and is then answered with an error. */
  predicate Untorn(e: Event, key: string) {
    e.Execute? ==> NoneTorn(e.jobs, key)
  }

  predicate NoneTorn(jobs: seq<Job>, key: string) {
    forall i :: 0 <= i < |jobs| && Torn(jobs[i]) ==> jobs[i].idempotency.value.key != key
  }

  /** No log, live or published, holds a torn mutation of the key. */
  ghost predicate Clean(s: Sys, key: string) {
    && (s.project.Some? ==> CountTorn(s.project.value.Content(), key) == 0)
    && (forall i :: 0 <= i < |s.published| ==> CountTorn(s.published[i].log, key) == 0)
  }

  /** Only running a batch makes new log: else the live log is the old one, the durable one or empty. */
  lemma LiveLogSource(s: Sys, e: Event)
    requires Inv(s) && Apply(s, e).Some? && !e.Execute?
    ensures
      var t := Apply(s, e).value;
      t.project.Some? ==>
        || t.project.value.Content() == []
        || t.project.value.Content() == DurableLog(s)
        || (s.project.Some? && t.project.value.Content() == s.project.value.Content())
  {
    hide Inv, Restore, AcksOf, Committed, Vacuum, Shipped, RunJobs;
    match e
    case Open =>
      if |s.published| > 0 {
        OpensDurableLog(s);
      } else {
        NothingToOpen(s);
      }
    case SwapCache =>
      SwapKeepsContent(s.project.value);
    case OpenFresh =>
      FreshIsEmpty();
    case _ =>
  }

  lemma OpensDurableLog(s: Sys)
    requires Inv(s) && Apply(s, Open).Some? && |s.published| > 0
    ensures Apply(s, Open).value.project.Some? && Apply(s, Open).value.project.value.Content() == DurableLog(s)
  {
    hide WarmOk, HistoryOk, AckOk, ManifestOk;
    RecoveryFindsDurableLog(s);
  }

  lemma NothingToOpen(s: Sys)
    requires Inv(s) && |s.published| == 0
    ensures Apply(s, Open).None?
  {
    hide WarmOk, HistoryOk, AckOk, ManifestOk;
  }

  /** What is published is the live log of that moment. */
  lemma PublishedSource(s: Sys, e: Event)
    requires Inv(s) && Apply(s, e).Some?
    ensures
      var t := Apply(s, e).value;
      || t.published == s.published
      || (&& s.project.Some? && |t.published| == |s.published| + 1 && s.published <= t.published
          && t.published[|s.published|].log == s.project.value.Content())
  {
    hide Inv, Apply, Committed;
    var t := Apply(s, e).value;
    if e.PutManifest? {
      ManifestStep(s, e);
      if t.published != s.published {
        StepKeepsInv(s, e);
        DurableIsLive(t);
      }
    } else if e.PutSwitch? {
      SwitchStep(s, e);
    } else {
      PublishesNothing(s, e);
    }
  }

  lemma ManifestStep(s: Sys, e: Event)
    requires Apply(s, e).Some? && e.PutManifest?
    ensures
      var t := Apply(s, e).value;
      || t.published == s.published
      || (&& t.phase.Durable? && t.project == s.project && s.project.Some?
          && |t.published| == |s.published| + 1 && s.published <= t.published)
  {
    hide Committed, Shipped, ShippedImage;
  }

  lemma SwitchStep(s: Sys, e: Event)
    requires Apply(s, e).Some? && e.PutSwitch?
    ensures
      var t := Apply(s, e).value;
      || t.published == s.published
      || (&& s.project.Some? && |t.published| == |s.published| + 1 && s.published <= t.published
          && t.published[|s.published|].log == s.project.value.Content())
  {
    hide Vacuum, Committed, Shipped, ShippedImage, CompactSnapshot;
    if s.project.Some? {
      SwapNamesLive(s.project.value);
    }
  }

  lemma PublishesNothing(s: Sys, e: Event)
    requires Apply(s, e).Some? && !e.PutManifest? && !e.PutSwitch?
    ensures Apply(s, e).value.published == s.published
  {
    hide RunJobs, Restore, AcksOf, Committed, Vacuum, Shipped, AfterShip, AfterSwap;
  }

  lemma {:induction false} BatchStaysClean(p: Project, jobs: seq<Job>, key: string)
    requires Accounted(p.Content()) && CountTorn(p.Content(), key) == 0 && NoneTorn(jobs, key)
    ensures CountTorn(RunJobs(p, jobs).project.Content(), key) == 0
  {
    if |jobs| > 0 {
      hide Accounted, CountTorn, Committed, ExecJob, Reaches;
      var front, job := jobs[..|jobs| - 1], jobs[|jobs| - 1];
      BatchStaysClean(p, front, key);
      RunJobsOk(p, front);
      var b := RunJobs(p, front);
      RunJobContent(b, job);
      ExecKeepsKey(b.project.Content(), b.project.commitSeq, job, key);
    }
  }

  lemma ExecuteStep(s: Sys, e: Event)
    requires Apply(s, e).Some? && e.Execute?
    ensures s.project.Some? && Apply(s, e).value.project == Some(RunJobs(s.project.value, e.jobs).project)
  {
    hide RunJobs, Committed;
  }

  lemma StepKeepsClean(s: Sys, e: Event, key: string)
    requires Inv(s) && Apply(s, e).Some? && Clean(s, key) && Untorn(e, key)
    ensures Clean(Apply(s, e).value, key)
  {
    hide Inv, Apply, Committed, RunJobs;
    PublishedSource(s, e);
    if e.Execute? {
      ExecuteStep(s, e);
      LiveFacts(s);
      BatchStaysClean(s.project.value, e.jobs, key);
    } else {
      LiveLogSource(s, e);
    }
  }

  lemma {:induction false} RunKeepsClean(es: seq<Event>, key: string)
    requires Run(Init(), es).Some? && forall i :: 0 <= i < |es| ==> Untorn(es[i], key)
    ensures Clean(Run(Init(), es).value, key)
  {
    hide Inv, Apply, Untorn;
    if |es| > 0 {
      var front := es[..|es| - 1];
      RunKeepsInv(front);
      RunKeepsClean(front, key);
      StepKeepsClean(Run(Init(), front).value, es[|es| - 1], key);
    }
  }

  /**
   Live or recovered, a key's mutation and record are there together and once, exactly unless a job
   of that key changed rows and was then answered with an error; and so in every run without such a job.
   */
  lemma AlwaysExactlyOnce(es: seq<Event>, key: string)
    requires Run(Init(), es).Some?
    ensures
      var s := Run(Init(), es).value;
      && (OncePerKey(DurableLog(s), key) <==> CountTorn(DurableLog(s), key) == 0)
      && (s.project.Some? ==>
            (OncePerKey(s.project.value.Content(), key) <==> CountTorn(s.project.value.Content(), key) == 0))
      && ((forall i :: 0 <= i < |es| ==> Untorn(es[i], key)) ==>
            OncePerKey(DurableLog(s), key) && (s.project.Some? ==> OncePerKey(s.project.value.Content(), key)))
  {
    RunKeepsInv(es);
    var s := Run(Init(), es).value;
    DurableAccounted(s);
    OnceIffNotTorn(DurableLog(s), key);
    if s.project.Some? {
      LiveFacts(s);
      OnceIffNotTorn(s.project.value.Content(), key);
    }
    if forall i :: 0 <= i < |es| ==> Untorn(es[i], key) {
      hide Run, Inv, Untorn, OncePerKey;
      RunKeepsClean(es, key);
    }
  }

  lemma DurableAccounted(s: Sys)
    requires Inv(s)
    ensures Accounted(DurableLog(s))
  {
    hide AckOk, StoreOk, WarmOk, AccountedKey;
    EmptyLogAccounted();
    if |s.published| > 0 {
      assert Accounted(s.published[|s.published| - 1].log);
    }
  }

  // ---- A torn write --------------------------------------------------------------------

  /** A job that fails after it changed rows, in a batch with another that is flushed. */
  function TornFlush(job: Job): seq<Event> {
    [Execute([job, PlainJob(0)]), ShipSegment(true), PutManifest(true)]
  }

  /**
   From any settled state, every keyed job that fails after it changed rows leaves its changes
   durable without a row, so its retry runs again.
   */
  lemma TornWriteIsDurable(s: Sys, job: Job)
    requires Ready(s) && Torn(job) && Reaches(s.project.value.Content(), job)
    requires OncePerKey(s.project.value.Content(), job.idempotency.value.key)
    ensures
      var t := Run(s, TornFlush(job));
      && t.Some? && t.value.phase.Durable? && t.value.project.Some?
      && var log := t.value.project.value.Content();
         && DurableLog(t.value) == log == s.project.value.Content() + [JobMutation(job), JobMutation(PlainJob(0))]
         && !OncePerKey(log, job.idempotency.value.key)
         && var retry := ExecJob(log, t.value.project.value.commitSeq, job);
            && retry.result == Failure(job.outcome.error)
            && Committed(retry.frames) == [JobMutation(job)]
  {
    var p, key := s.project.value, job.idempotency.value.key;
    TornStored(s, job);
    var t := Run(s, TornFlush(job)).value;
    var log := t.project.value.Content();
    RunFromKeepsInv(s, TornFlush(job));
    DurableIsLive(t);
    LiveFacts(t);
    OnceIffNotTorn(log, key);
    hide Run, Inv, Accounted, OncePerKey, ExecJob, RunJobs, Committed, FindRecord, ValidIdempotency;
    TornCounts(p.Content(), job);
    TornRetry(p.Content(), t.project.value.commitSeq, job);
  }

  lemma DurableIsLive(t: Sys)
    requires Inv(t) && t.phase.Durable? && t.project.Some?
    ensures |t.published| > 0 && DurableLog(t) == t.project.value.Content()
  {
    hide HistoryOk, AckOk, LiveOk, Accounted, ManifestOk, Vacuum, Committed, Shipped, PendingOk;
  }

  lemma TornCounts(log: Log, job: Job)
    requires Torn(job)
    ensures CountTorn(log + [JobMutation(job), JobMutation(PlainJob(0))], job.idempotency.value.key) > 0
  {
    var one := log + [JobMutation(job)];
    CountsSnoc(log, JobMutation(job), job.idempotency.value.key);
    CountsSnoc(one, JobMutation(PlainJob(0)), job.idempotency.value.key);
    assert log + [JobMutation(job), JobMutation(PlainJob(0))] == one + [JobMutation(PlainJob(0))];
  }

  lemma TornRetry(log: Log, commitSeq: nat, job: Job)
    requires Torn(job) && Reaches(log, job)
    ensures
      var retry := ExecJob(log + [JobMutation(job), JobMutation(PlainJob(0))], commitSeq, job);
      retry.result == Failure(job.outcome.error) && Committed(retry.frames) == [JobMutation(job)]
  {
    hide ValidIdempotency, Committed;
    var more := [JobMutation(job), JobMutation(PlainJob(0))];
    FindRecordConcat(log, more, job.idempotency.value.key);
    var tail := [JobMutation(PlainJob(0))];
    assert more[1..] == tail && tail[1..] == [];
    assert FindRecord(more, job.idempotency.value.key) == FindRecord(tail, job.idempotency.value.key);
    assert Reaches(log + more, job);
    assert ExecTxs(log + more, commitSeq, job) == [JobMutation(job)];
    ExecAppends(log + more, commitSeq, job);
  }

  lemma TornBatch(p: Project, job: Job)
    requires Torn(job) && Reaches(p.Content(), job)
    ensures
      var b := RunJobs(p, [job, PlainJob(0)]);
      && b.project == p.(image := b.project.image) && |b.project.image.wal| > |p.image.wal|
      && b.project.Content() == p.Content() + [JobMutation(job), JobMutation(PlainJob(0))]
      && CommittedSlots(b.slots) > 0
  {
    hide Committed, ValidIdempotency, FindRecord;
    var jobs := [job, PlainJob(0)];
    assert jobs[..1] == [job] && [job][..0] == [];
    assert RunJobs(p, []) == Batch(p, []);
    var one := RunJob(Batch(p, []), job);
    assert RunJobs(p, [job]) == one;
    var b := RunJobs(p, jobs);
    assert b == RunJob(one, PlainJob(0));
    RunJobContent(Batch(p, []), job);
    RunJobContent(one, PlainJob(0));
    assert b.slots[..1] == one.slots && |b.slots| == 2 && b.slots[1].committed;
  }

  lemma TornStored(s: Sys, job: Job)
    requires Ready(s) && Torn(job) && Reaches(s.project.value.Content(), job)
    ensures
      var t := Run(s, TornFlush(job));
      && t.Some? && t.value.phase.Durable? && t.value.project.Some?
      && t.value.project.value.Content() == s.project.value.Content() + [JobMutation(job), JobMutation(PlainJob(0))]
  {
    hide HistoryOk, AckOk, ManifestOk, SegmentsHold, ChainOk, Shipped, ShippedImage, Committed, VolatileAhead, SlotsOk,
      RowsUpTo, RunJobs, ExecJob, Accounted, Run, Inv, ValidIdempotency, FindRecord;
    TornBatch(s.project.value, job);
    ReadyFacts(s);
    Run3(s, Execute([job, PlainJob(0)]), ShipSegment(true), PutManifest(true));
  }

  /** From the empty store: for every such job with a valid key there is such a run. */
  lemma TornWriteExists(job: Job)
    requires Torn(job) && ValidIdempotency(job.idempotency.value)
    ensures exists es: seq<Event> ::
              && Run(Init(), es).Some?
              && !OncePerKey(DurableLog(Run(Init(), es).value), job.idempotency.value.key)
  {
    hide Inv, Run, ExecJob, ValidIdempotency, DurableLog;
    FirstOpenIsReady();
    FirstOpenPublishes();
    var s := Run(Init(), FirstOpen()).value;
    assert OncePerKey([], job.idempotency.value.key);
    TornWriteIsDurable(s, job);
    RunConcat(Init(), FirstOpen(), TornFlush(job));
    assert !OncePerKey(DurableLog(Run(Init(), FirstOpen() + TornFlush(job)).value), job.idempotency.value.key);
  }
}
