/** What the write path promises over every run: durability, integrity, exactly-once. */
module ProtocolTheorems {
  import opened Wrappers
  import opened Database
  import opened Storage
  import opened Protocol
  import opened ProtocolSteps

  // ---- Durability -------------------------------------------------------------

  /** The manifest in the store; the invariant says there is one once something was published. */
  function Stored(s: Sys): Manifest
    requires ManifestKey in s.store && s.store[ManifestKey].Doc?
  {
    s.store[ManifestKey].manifest
  }

  lemma RecoveryFindsDurableLog(s: Sys)
    requires Inv(s) && |s.published| > 0
    ensures LoadManifest(s.store) == Success(Some(Stored(s)))
    ensures Restore(s.store, Stored(s)).Success?
    ensures Restore(s.store, Stored(s)).value.Content() == DurableLog(s)
  {
    hide WarmOk, HistoryOk, AckOk;
    ManifestRestores(s.store, Stored(s));
  }

  /**
   In every run, whatever PUTs failed and wherever it crashed: recovery from the stored
   manifest succeeds, and every job ever answered Ok is in the recovered log, with all its
   transactions, at the place it was committed.
   */
  lemma AckedWritesSurvive(es: seq<Event>, i: nat)
    requires Run(Init(), es).Some? && i < |Run(Init(), es).value.acks|
    ensures
      var s := Run(Init(), es).value;
      var a := s.acks[i];
      && ManifestKey in s.store && s.store[ManifestKey].Doc?
      && LoadManifest(s.store) == Success(Some(Stored(s)))
      && Restore(s.store, Stored(s)).Success?
      && a.job.outcome.Done?
      && LogHas(Restore(s.store, Stored(s)).value.Content(), a.at, JobTxs(a.mark, a.job))
  {
    RunKeepsInv(es);
    var s := Run(Init(), es).value;
    RecoveryFindsDurableLog(s);
    AckInDurableLog(s, i);
  }

  lemma AckInDurableLog(s: Sys, i: nat)
    requires Inv(s) && i < |s.acks|
    ensures |s.published| > 0 && s.acks[i].job.outcome.Done?
    ensures LogHas(DurableLog(s), s.acks[i].at, JobTxs(s.acks[i].mark, s.acks[i].job))
    ensures s.acks[i].mark <= s.published[|s.published| - 1].mark
  {
    hide WarmOk, ManifestOk, Accounted;
    var a := s.acks[i];
    assert AckOk(a, s.published);
    assert s.published[a.version].log <= DurableLog(s);
  }

  /** A recovered project holds exactly the durable log, and no counter runs behind it. */
  lemma ReopenRestores(s: Sys)
    requires Inv(s) && |s.published| > 0
    ensures
      var c := Apply(s, Crash).value;
      var o := Apply(c, Open);
      && o.Some?
      && o.value.project.Some?
      && o.value.project.value.Content() == DurableLog(s)
      && o.value.project.value.commitSeq == s.published[|s.published| - 1].mark
  {
    hide WarmOk, HistoryOk, AckOk, ManifestOk;
    RecoveryFindsDurableLog(s);
  }

  /** Nothing of the live log is missing from the store. */
  predicate AllDurable(s: Sys) {
    match s.phase
    case Durable(_) => true
    case Compact(stage, waiting) => waiting.Some? || stage.Swap? || stage.Sweep?
    case _ => false
  }

  /**
   Crash points. What a crash and an open recover is the durable log, always a part of the live
   one. Before the flush manifest is stored every committed job of the batch lies past its end,
   so the batch is lost, and nothing that was published. From that PUT on, and from the manifest
   of a compaction on, it is the whole live log.
   */
  lemma CrashPoints(s: Sys)
    requires Inv(s) && s.project.Some? && |s.published| > 0
    ensures
      var recovered := Apply(Apply(s, Crash).value, Open);
      && recovered.Some? && recovered.value.project.Some?
      && var log, live := recovered.value.project.value.Content(), s.project.value.Content();
         && log == DurableLog(s) && log <= live
         && (s.phase.Flush? || s.phase.Sent? ==> SlotsAfter(s.phase.slots, |log|))
         && (AllDurable(s) ==> log == live)
         && (s.phase.Durable? ==> SlotsOk(s.phase.pending.slots, log, s.project.value.commitSeq))
         && (s.phase.Compact? && s.phase.waiting.Some? ==>
               SlotsOk(s.phase.waiting.value.slots, log, s.project.value.commitSeq))
  {
    hide ManifestOk, SlotOk, Accounted, AckOk, ChainOk, SegmentsHold, VolatileAhead, Committed, Shipped, Vacuum;
    ReopenRestores(s);
    LiveFacts(s);
    if s.phase.Compact? && s.phase.stage.Swap? {
      SwapNamesLive(s.project.value);
    }
    if s.phase.Durable? {
      PendingInDurableLog(s, s.phase.pending);
    } else if s.phase.Compact? && s.phase.waiting.Some? {
      PendingInDurableLog(s, s.phase.waiting.value);
    }
  }

  /** What holds of the live log in every phase. */
  lemma LiveFacts(s: Sys)
    requires Inv(s) && s.project.Some?
    ensures DurableLog(s) <= s.project.value.Content()
    ensures Accounted(s.project.value.Content())
    ensures RowsUpTo(s.project.value.Content(), SatInc(s.project.value.commitSeq))
  {
    hide ManifestOk, PhaseOk, HistoryOk, AckOk, AccountedKey, ChainOk, SegmentsHold, VolatileAhead, Committed, Shipped, Vacuum;
    EmptyLogAccounted();
    FreshIsEmpty();
    if |s.published| > 0 {
      if s.phase.Compact? && s.phase.stage.Swap? {
        SwapNamesLive(s.project.value);
      } else {
        ManifestBehindLive(s.store, s.project.value, Stored(s));
      }
    }
  }

  lemma SwapNamesLive(p: Project)
    ensures ShippedImage(CompactManifest(p)).Content() == p.Content()
  {
    VacuumKeepsLog(p.Content());
  }

  lemma PendingInDurableLog(s: Sys, pending: Pending)
    requires HistoryOk(s.published) && s.project.Some?
    requires PendingOk(pending, s.published, s.project.value.commitSeq)
    ensures SlotsOk(pending.slots, DurableLog(s), s.project.value.commitSeq)
  {
    assert s.published[pending.version].log <= DurableLog(s);
    SlotsGrow(pending.slots, s.published[pending.version].log, DurableLog(s), s.project.value.commitSeq);
  }

  lemma StepGrowsHistory(s: Sys, e: Event)
    requires Apply(s, e).Some?
    ensures s.published <= Apply(s, e).value.published && s.acks <= Apply(s, e).value.acks
  {
    hide RunJobs, Restore, AcksOf, Committed, Vacuum, Shipped, AfterShip, AfterSwap;
  }

  /** Nothing published or acknowledged is ever taken back: the durable log of a run only grows. */
  lemma {:induction false} DurableLogGrows(es: seq<Event>, more: seq<Event>)
    requires Run(Init(), es + more).Some?
    ensures Run(Init(), es).Some?
    ensures
      var s, t := Run(Init(), es).value, Run(Init(), es + more).value;
      s.published <= t.published && s.acks <= t.acks && DurableLog(s) <= DurableLog(t)
  {
    hide Apply, Inv;
    var all := es + more;
    if |more| == 0 {
      assert all == es;
    } else {
      assert all[..|all| - 1] == es + more[..|more| - 1];
      DurableLogGrows(es, more[..|more| - 1]);
      StepGrowsHistory(Run(Init(), all[..|all| - 1]).value, all[|all| - 1]);
      RunKeepsInv(all);
      LaterLogIsLonger(Run(Init(), es).value, Run(Init(), all).value);
    }
  }

  lemma LaterLogIsLonger(s: Sys, t: Sys)
    requires Inv(t) && s.published <= t.published
    ensures DurableLog(s) <= DurableLog(t)
  {
    hide WarmOk, StoreOk, AckOk, Accounted, RowsUpTo;
    if |s.published| > 0 {
      assert t.published[|s.published| - 1] == s.published[|s.published| - 1];
    }
  }

  // ---- Referential integrity ----------------------------------------------------

  ghost predicate Names(m: Manifest, key: Key) {
    key == m.snapshot.key || exists i :: 0 <= i < |m.segments| && m.segments[i].key == key
  }

  /** The keys a step's PUT or delete is aimed at, whether or not it succeeds. */
  function Targets(s: Sys, e: Event): set<Key>
    requires s.project.Some?
  {
    var p := s.project.value;
    match e
    case ShipSegment(_) => if p.durable < |p.image.wal| then {WalKey(p.nextId)} else {}
    case PutManifest(_) => {ManifestKey}
    case PutSwitch(_) => {ManifestKey}
    case PutLog(entry, _) => {ChangeLogKey(entry)}
    case PutSnapshot(_) => {SnapshotKey(p.generation + 1)}
    case DeleteSegments(gone) => gone
    case _ => {}
  }

  /** A step changes the store only at its targets. */
  lemma OnlyTargetsChange(s: Sys, e: Event, key: Key)
    requires s.project.Some? && Apply(s, e).Some? && key !in Targets(s, e)
    ensures key in Apply(s, e).value.store <==> key in s.store
    ensures key in s.store ==> Apply(s, e).value.store[key] == s.store[key]
  {
    hide RunJobs, Restore, AcksOf, Committed, Vacuum, Shipped;
  }

  /**
   No PUT and no delete is ever aimed at an object the stored manifest names, although
   segment ids restart at 0 after compaction and orphan keys are written again.
   */
  lemma NamedKeysAreSpared(s: Sys, e: Event, key: Key)
    requires Inv(s) && s.project.Some? && Apply(s, e).Some?
    requires |s.published| > 0 && Names(Stored(s), key)
    ensures key !in Targets(s, e)
  {
    hide Accounted, HistoryOk, AckOk, PendingOk, SlotsOk, Shipped, Committed, VolatileAhead, SegmentsHold, Intact;
    var p, m := s.project.value, Stored(s);
    if !(s.phase.Compact? && s.phase.stage.Swap?) {
      if key != m.snapshot.key {
        var i :| 0 <= i < |m.segments| && m.segments[i].key == key;
        assert m.segments[i] == p.segments[i];
      }
    }
  }

  /** In every reachable state the stored manifest is contiguous and everything it names is intact. */
  lemma ReferentialIntegrity(es: seq<Event>)
    requires Run(Init(), es).Some?
    ensures
      var s := Run(Init(), es).value;
      if |s.published| == 0 then LoadManifest(s.store) == Success(None)
      else
        && ManifestKey in s.store && s.store[ManifestKey].Doc?
        && var m := Stored(s);
           && Intact(s.store, m) && Contiguous(m)
           && (forall i :: 0 <= i < |m.segments| ==> m.segments[i].id == i && m.segments[i].key == WalKey(i))
           && |Shipped(m.segments)| == m.durableBytes
           && m.snapshot.key == SnapshotKey(m.generation)
  {
    RunKeepsInv(es);
    hide WarmOk, HistoryOk, AckOk;
    var s := Run(Init(), es).value;
    if |s.published| > 0 {
      ChainIsContiguous(Stored(s));
    }
  }

  // ---- Retries ----------------------------------------------------------------

  /**
   A retry of an acknowledged keyed job, anywhere in any later batch, changes nothing and
   returns the acknowledged response.
   */
  lemma AckedRetryIsReplayed(s: Sys, i: nat, before: seq<Job>, retry: Job)
    requires Inv(s) && s.phase.Idle? && s.project.Some?
    requires i < |s.acks| && s.acks[i].job.idempotency.Some?
    requires retry.idempotency == s.acks[i].job.idempotency
    ensures
      var a := s.acks[i];
      var b := RunJobs(s.project.value, before);
      && a.job.outcome.Done?
      && ExecJob(b.project.Content(), b.project.commitSeq, retry)
         == JobResult([], Success(WithBookmark(a.job.outcome.value, a.mark)), false)
      && Carries(WithBookmark(a.job.outcome.value, a.mark), a.job.outcome.value, a.mark)
  {
    hide ManifestOk, PhaseOk, AccountedKey, ChainOk, SegmentsHold, Shipped, VolatileAhead, Committed,
      Accounted, ExecJob, RunJobs;
    var p, a := s.project.value, s.acks[i];
    var b := RunJobs(p, before);
    AckInDurableLog(s, i);
    assert AckOk(a, s.published);
    ManifestBehindLive(s.store, p, Stored(s));
    RunJobsOk(p, before);
    AckedRow(b.project.Content(), a);
    RetryIsReplayed(b.project.Content(), p.commitSeq, RowPlace(a), retry);
    WithBookmarkCarries(a.job.outcome.value, a.mark);
  }

  /** Where an acknowledged job's idempotency row sits. */
  function RowPlace(a: Ack): nat
    requires a.job.outcome.Done?
  {
    a.at + (if a.job.outcome.writes.Some? then 1 else 0)
  }

  lemma AckedRow(log: Log, a: Ack)
    requires a.job.outcome.Done? && a.job.idempotency.Some?
    requires LogHas(log, a.at, JobTxs(a.mark, a.job))
    ensures RowPlace(a) < |log| && log[RowPlace(a)] == Record(JobRow(a.mark, a.job))
  {
    var txs := JobTxs(a.mark, a.job);
    assert log[RowPlace(a)] == log[a.at..a.at + |txs|][RowPlace(a) - a.at];
  }

  // ---- When a replay is durable ------------------------------------------------------

  /**
   Every keyed retry that would be answered Ok without running finds its row in the durable log
   as well, the same row.
   */
  ghost predicate ReplaysAreDurable(s: Sys)
    requires s.project.Some?
  {
    var p := s.project.value;
    forall retry: Job {:trigger ExecJob(p.Content(), p.commitSeq, retry)} ::
      retry.idempotency.Some? && Replayed(ExecJob(p.Content(), p.commitSeq, retry)) ==>
        var key := retry.idempotency.value.key;
        FindRecord(DurableLog(s), key).Some? && FindRecord(DurableLog(s), key) == FindRecord(p.Content(), key)
  }

  predicate Replayed(r: JobResult) {
    r.result.Success? && !r.committed
  }

  /** The same, told of the rows: those past the durable log are not ready to be replayed. */
  ghost predicate RowsAreDurable(s: Sys)
    requires s.project.Some?
  {
    var p := s.project.value;
    forall i :: |DurableLog(s)| <= i < |p.Content()| && p.Content()[i].Record? ==> p.commitSeq < p.Content()[i].row.mark
  }

  lemma ReplaysAreRows(s: Sys)
    requires Inv(s) && s.project.Some?
    ensures ReplaysAreDurable(s) <==> RowsAreDurable(s)
  {
    hide Inv, ExecJob, AccountedKey, Accounted, Committed;
    LiveFacts(s);
    var p := s.project.value;
    var live, durable := p.Content(), DurableLog(s);
    if RowsAreDurable(s) {
      forall retry: Job | retry.idempotency.Some? && Replayed(ExecJob(live, p.commitSeq, retry))
        ensures
          var key := retry.idempotency.value.key;
          FindRecord(durable, key).Some? && FindRecord(durable, key) == FindRecord(live, key)
      {
        ReplayHasRow(live, p.commitSeq, retry);
        var key := retry.idempotency.value.key;
        var i := FoundAt(live, key);
        assert i < |durable|;
        FindRecordConcat(durable, live[|durable|..], key);
        assert durable + live[|durable|..] == live;
        RowIsFound(durable, i);
      }
    }
    if ReplaysAreDurable(s) {
      forall i | |durable| <= i < |live| && live[i].Record?
        ensures p.commitSeq < live[i].row.mark
      {
        if live[i].row.mark <= p.commitSeq {
          var row := live[i].row;
          assert RowOk(row);
          var retry := Job(0, Some(Idempotency(row.key, row.hash)), Reject(ApiError(500), None, false));
          RetryIsReplayed(live, p.commitSeq, i, retry);
          assert Replayed(ExecJob(live, p.commitSeq, retry));
          var j := FoundAt(durable, row.key);
          assert live[j] == durable[j];
          TwoRecords(live, j, i);
          OneRecordEach(live, row.key);
        }
      }
    }
  }

  lemma OneRecordEach(log: Log, key: string)
    requires Accounted(log)
    ensures CountRecords(log, key) <= 1
  {
    assert AccountedKey(log, key);
  }

  /** An Ok answer that ran nothing comes from the key's row, which is not ahead of the counter. */
  lemma ReplayHasRow(log: Log, commitSeq: nat, retry: Job)
    requires retry.idempotency.Some? && Replayed(ExecJob(log, commitSeq, retry))
    ensures
      var row := FindRecord(log, retry.idempotency.value.key);
      row.Some? && row.value.mark <= commitSeq
  {
    hide ValidIdempotency, FindRecord, JobFrames, WithBookmark;
  }

  lemma FoundAt(log: Log, key: string) returns (i: nat)
    requires FindRecord(log, key).Some?
    ensures i < |log| && log[i] == Record(FindRecord(log, key).value)
    decreases |log|
  {
    if log[0].Record? && log[0].row.key == key {
      i := 0;
    } else {
      var j := FoundAt(log[1..], key);
      i := j + 1;
    }
  }

  lemma {:induction false} RowIsFound(log: Log, i: nat)
    requires i < |log| && log[i].Record?
    ensures FindRecord(log, log[i].row.key).Some?
  {
    if i > 0 {
      RowIsFound(log[1..], i - 1);
    }
  }

  /** The writer is not ahead of the store. */
  ghost predicate InStep(s: Sys) {
    s.project.Some? && |s.published| > 0 ==>
      s.project.value.commitSeq == s.published[|s.published| - 1].mark || s.phase.Sent?
  }

  predicate NoManifestFails(es: seq<Event>) {
    PutManifest(false) !in es
  }

  lemma StepKeepsInStep(s: Sys, e: Event)
    requires Inv(s) && InStep(s) && Apply(s, e).Some? && e != PutManifest(false)
    ensures InStep(Apply(s, e).value)
  {
    if e.Open? || e.OpenFresh? {
      hide Apply, Inv;
      OpensInStep(s, e);
    } else if e.Execute? && s.project.Some? {
      hide RunJobs, Inv;
      RunJobsSeq(s.project.value, e.jobs);
    } else {
      hide Inv, Shipped, ShippedImage, Committed, Vacuum, AcksOf, Restore, RunJobs, CompactSnapshot, NewSegment;
      if s.phase.Sent? && s.project.Some? {
        SentHasSnapshot(s);
      }
    }
  }

  lemma SentHasSnapshot(s: Sys)
    requires Inv(s) && s.phase.Sent? && s.project.Some?
    ensures s.project.value.snapshot.Some?
  {
    hide HistoryOk, AckOk, ManifestOk, Accounted, SegmentsHold, ChainOk, VolatileAhead, RowsUpTo, SlotsOk, Shipped, ShippedImage;
  }

  lemma OpensInStep(s: Sys, e: Event)
    requires Inv(s) && (e.Open? || e.OpenFresh?) && Apply(s, e).Some?
    ensures InStep(Apply(s, e).value)
  {
    hide HistoryOk, AckOk, WarmOk, ManifestOk, Restore, Committed, ShippedImage;
  }

  lemma {:induction false} RunJobsSeq(p: Project, jobs: seq<Job>)
    ensures RunJobs(p, jobs).project.commitSeq == p.commitSeq
  {
    if |jobs| > 0 {
      RunJobsSeq(p, jobs[..|jobs| - 1]);
    }
  }

  lemma {:induction false} RunKeepsInStep(es: seq<Event>)
    requires Run(Init(), es).Some? && NoManifestFails(es)
    ensures InStep(Run(Init(), es).value)
  {
    if |es| > 0 {
      var front := es[..|es| - 1];
      RunKeepsInStep(front);
      RunKeepsInv(front);
      StepKeepsInStep(Run(Init(), front).value, es[|es| - 1]);
    }
  }

  /**
   In a run where no flush manifest PUT failed, whatever a retry is answered Ok is durable;
   once the 64-bit counter has saturated, exactly while no row is waiting for a flush.
   */
  lemma ReplayOkIsDurable(es: seq<Event>)
    requires Run(Init(), es).Some? && NoManifestFails(es)
    requires Run(Init(), es).value.phase.Idle? && Run(Init(), es).value.project.Some?
    ensures
      var s := Run(Init(), es).value;
      var live := s.project.value.Content();
      ReplaysAreDurable(s) <==>
        s.project.value.commitSeq < U64_MAX || forall i :: |DurableLog(s)| <= i < |live| ==> !live[i].Record?
  {
    hide Run, Inv, ReplaysAreDurable, Committed;
    var s := Run(Init(), es).value;
    RunKeepsInv(es);
    RunKeepsInStep(es);
    ReplaysAreRows(s);
    if s.project.value.commitSeq < U64_MAX {
      InStepReplays(s);
    } else {
      LiveFacts(s);
    }
  }

  lemma InStepReplays(s: Sys)
    requires Inv(s) && InStep(s) && !s.phase.Sent?
    requires s.project.Some? && s.project.value.commitSeq < U64_MAX
    ensures RowsAreDurable(s)
  {
    hide Accounted, HistoryOk, AckOk, PhaseOk, ManifestOk, SegmentsHold, ChainOk, Shipped, Committed, RowOk;
    FreshIsEmpty();
    if s.phase.Compact? && s.phase.stage.Swap? {
      SwapNamesLive(s.project.value);
    }
  }

  /**
   A failed flush manifest PUT is the exception, and exactly when the bytes it would have
   published hold an idempotency row: the counter was advanced before the PUT.
   */
  lemma FailedManifestReplays(s: Sys)
    requires Inv(s) && s.phase.Sent? && s.project.Some? && |s.published| > 0
    ensures
      var log, t := s.project.value.Content(), s.(phase := Idle);
      && Apply(s, PutManifest(false)) == Some(t)
      && (ReplaysAreDurable(t)
      <==> forall i :: |DurableLog(s)| <= i < |log| ==> !log[i].Record?)
  {
    hide Accounted, HistoryOk, AckOk, ManifestOk, SegmentsHold, ChainOk, Shipped, Committed, VolatileAhead, SlotsOk,
      ReplaysAreDurable, RowOk;
    var p := s.project.value;
    var t := s.(phase := Idle);
    StepKeepsInv(s, PutManifest(false));
    assert t.project == s.project && DurableLog(t) == DurableLog(s);
    ReplaysAreRows(t);
    assert RowsUpTo(p.Content(), p.commitSeq);
  }

  /**
   A retry is told to come back later exactly when its row was written for the next flush: the
   counter is one behind the row, whether or not the row is durable by now.
   */
  lemma RefusedRetry(s: Sys, retry: Job)
    requires Inv(s) && s.project.Some? && retry.idempotency.Some? && ValidIdempotency(retry.idempotency.value)
    requires
      var row := FindRecord(s.project.value.Content(), retry.idempotency.value.key);
      row.Some? && row.value.hash == retry.idempotency.value.requestHash
    ensures
      var p := s.project.value;
      ExecJob(p.Content(), p.commitSeq, retry).result == Failure(ApiError(425))
      <==> FindRecord(p.Content(), retry.idempotency.value.key).value.mark == p.commitSeq + 1
  {
    hide Inv, Accounted, Committed, ValidIdempotency;
    LiveFacts(s);
    var i := FoundAt(s.project.value.Content(), retry.idempotency.value.key);
  }

  /** A batch of one job whose segment PUT fails, and then a compaction. */
  function KeptUnflushed(job: Job): seq<Event> {
    [Execute([job]), ShipSegment(false), StartCompaction]
    + ([PutSnapshot(true), PutSwitch(true)] + [SwapCache, FinishCompaction])
  }

  /** So a keyed write can be durable and still be refused: it came in with a compaction, not a flush. */
  lemma DurableRowIsRefused(s: Sys, job: Job)
    requires Inv(s) && s.phase.Idle? && s.project.Some? && |s.published| > 0
    requires s.project.value.commitSeq < U64_MAX
    requires job.idempotency.Some? && Runs(s.project.value.Content(), job) && HonestJob(job)
    ensures
      var t := Run(s, KeptUnflushed(job));
      && t.Some? && t.value.phase.Idle? && t.value.project.Some?
      && var p := t.value.project.value;
         && FindRecord(DurableLog(t.value), job.idempotency.value.key).Some?
         && ExecJob(p.Content(), p.commitSeq, job).result == Failure(ApiError(425))
  {
    hide Inv, Run, ExecJob, Committed, Vacuum, Accounted, RunJobs, FindRecord;
    var p := s.project.value;
    var key := job.idempotency.value.key;
    OneJob(p, job);
    UnflushedState(s, job);
    var q := RunJobs(p, [job]).project;
    var u := Run(s, [Execute([job]), ShipSegment(false), StartCompaction]).value;
    CompactsThere(u);
    RunConcat(s, [Execute([job]), ShipSegment(false), StartCompaction],
              [PutSnapshot(true), PutSwitch(true)] + [SwapCache, FinishCompaction]);
    var t := Run(s, KeptUnflushed(job)).value;
    RunFromKeepsInv(s, KeptUnflushed(job));
    var row := JobRow(SatInc(p.commitSeq), job);
    NewRowFound(p.Content(), SatInc(p.commitSeq), job);
    RefusedRetry(t, job);
  }

  lemma NewRowFound(log: Log, mark: nat, job: Job)
    requires job.idempotency.Some? && Runs(log, job)
    ensures FindRecord(log + JobTxs(mark, job), job.idempotency.value.key) == Some(JobRow(mark, job))
  {
    var txs, key := JobTxs(mark, job), job.idempotency.value.key;
    FindRecordConcat(log, txs, key);
    if |txs| == 2 {
      assert FindRecord(txs, key) == FindRecord(txs[1..], key) && txs[1..] == [txs[1]];
    }
  }

  lemma UnflushedState(s: Sys, job: Job)
    requires Inv(s) && s.phase.Idle? && s.project.Some? && |s.published| > 0
    requires job.idempotency.Some? && Runs(s.project.value.Content(), job) && HonestJob(job)
    ensures
      var t := Run(s, [Execute([job]), ShipSegment(false), StartCompaction]);
      && t.Some? && t.value.project == Some(RunJobs(s.project.value, [job]).project)
      && t.value.phase == Compact(Upload, None)
      && t.value.project.value.snapshot.Some?
      && t.value.project.value.commitSeq == s.project.value.commitSeq
  {
    hide HistoryOk, AckOk, ManifestOk, SegmentsHold, ChainOk, Shipped, Committed, VolatileAhead, SlotsOk, RowsUpTo,
      RunJobs, ExecJob, Accounted, Run;
    OneJob(s.project.value, job);
    RunJobsOk(s.project.value, [job]);
    LiveAccounted(s);
    LongerByJob(s.project.value, job);
    Run3(s, Execute([job]), ShipSegment(false), StartCompaction);
  }

  /** A keyed job that runs always writes to the WAL. */
  lemma LongerByJob(p: Project, job: Job)
    requires job.idempotency.Some? && Runs(p.Content(), job)
    ensures |RunJobs(p, [job]).project.image.wal| > |p.image.wal|
  {
    hide ValidIdempotency, Committed, FindRecord;
    assert [job][..0] == [];
    assert RunJobs(p, [job][..0]) == Batch(p, []);
  }

  lemma CompactsThere(u: Sys)
    requires u.project.Some? && u.phase == Compact(Upload, None) && u.project.value.snapshot.Some?
    ensures
      var t := Run(u, [PutSnapshot(true), PutSwitch(true)] + [SwapCache, FinishCompaction]);
      var p := u.project.value;
      && t.Some? && t.value.phase.Idle? && t.value.project == Some(AfterSwap(p))
      && t.value.published == u.published + [Version(p.commitSeq, ShippedImage(CompactManifest(p)).Content())]
      && AfterSwap(p).Content() == p.Content() == DurableLog(t.value)
  {
    hide Run, Vacuum, Committed, Shipped;
    var p := u.project.value;
    SwapNamesLive(p);
    Run2(u, PutSnapshot(true), PutSwitch(true));
    var mid := Run(u, [PutSnapshot(true), PutSwitch(true)]).value;
    Run2(mid, SwapCache, FinishCompaction);
    RunConcat(u, [PutSnapshot(true), PutSwitch(true)], [SwapCache, FinishCompaction]);
    SwapKeepsContent(p);
  }

  lemma SwapKeepsContent(p: Project)
    ensures AfterSwap(p).Content() == p.Content()
  {
    VacuumKeepsLog(p.Content());
  }

  /** The steps of a batch with one job whose segment is stored and whose manifest PUT fails. */
  function LostBatch(job: Job): seq<Event> {
    [Execute([job]), ShipSegment(true), PutManifest(false)]
  }

  /**
   The failing family: from any idle state that is in step, a new keyed job whose manifest
   PUT fails is answered Ok when it is retried, and is gone after a crash and a reopen.
   */
  lemma ReplayedThenLost(s: Sys, job: Job)
    requires Inv(s) && InStep(s) && s.phase.Idle? && s.project.Some? && |s.published| > 0
    requires s.project.value.commitSeq < U64_MAX
    requires job.idempotency.Some? && Runs(s.project.value.Content(), job) && HonestJob(job)
    ensures
      var t := Run(s, LostBatch(job));
      && t.Some? && t.value.phase.Idle? && t.value.project.Some?
      && var live := t.value.project.value;
         var retry := ExecJob(live.Content(), live.commitSeq, job);
         && retry.result.Success? && !retry.committed
         && var reopened := Run(t.value, [Crash, Open]);
            && reopened.Some? && reopened.value.project.Some?
            && FindRecord(reopened.value.project.value.Content(), job.idempotency.value.key).None?
  {
    hide HistoryOk, AckOk, ManifestOk, LiveOk, PhaseOk, Shipped, Committed, ExecJob, Accounted;
    var p := s.project.value;
    var log, key := p.Content(), job.idempotency.value.key;
    LostBatchState(s, job);
    var t := Run(s, LostBatch(job)).value;
    var live := t.project.value;
    RunFromKeepsInv(s, LostBatch(job));
    LiveAccounted(t);
    assert live.Content()[|live.Content()| - 1] == Record(JobRow(SatInc(p.commitSeq), job));
    RetryIsReplayed(live.Content(), live.commitSeq, |live.Content()| - 1, job);
    ManifestBehindLive(s.store, p, Stored(s));
    FindRecordPrefix(DurableLog(s), log, key);
    ReopenAfter(t);
  }

  lemma LiveAccounted(s: Sys)
    requires Inv(s) && s.project.Some? && |s.published| > 0
    ensures Accounted(s.project.value.Content())
  {
    hide Accounted, HistoryOk, AckOk, ManifestOk, PhaseOk, Shipped, Committed, ChainOk;
  }

  lemma LostBatchState(s: Sys, job: Job)
    requires Inv(s) && s.phase.Idle? && s.project.Some? && |s.published| > 0
    requires job.idempotency.Some? && Runs(s.project.value.Content(), job) && HonestJob(job)
    ensures
      var p := s.project.value;
      var t := Run(s, LostBatch(job));
      && t.Some? && t.value.phase.Idle? && t.value.project.Some? && t.value.published == s.published
      && t.value.project.value.commitSeq == SatInc(p.commitSeq)
      && t.value.project.value.Content() == p.Content() + JobTxs(SatInc(p.commitSeq), job)
  {
    hide HistoryOk, AckOk, ManifestOk, SegmentsHold, ChainOk, Shipped, Committed, VolatileAhead, SlotsOk, RowsUpTo,
      RunJobs, ExecJob, Accounted, PhaseOk;
    OneJob(s.project.value, job);
    RunJobsOk(s.project.value, [job]);
    LiveAccounted(s);
    Run3(s, Execute([job]), ShipSegment(true), PutManifest(false));
  }

  lemma OneJob(p: Project, job: Job)
    requires job.idempotency.Some? && Runs(p.Content(), job)
    ensures
      var b := RunJobs(p, [job]);
      && b == RunJob(Batch(p, []), job)
      && b.project.Content() == p.Content() + JobTxs(SatInc(p.commitSeq), job)
      && CommittedSlots(b.slots) == 1
  {
    assert [job][..0] == [];
    assert RunJobs(p, []) == Batch(p, []);
    RunJobContent(Batch(p, []), job);
    var b := RunJob(Batch(p, []), job);
    assert |b.slots| == 1 && b.slots[0].committed && b.slots[..0] == [];
  }

  lemma Run3(s: Sys, a: Event, b: Event, c: Event)
    ensures Run(s, [a, b, c]) ==
              (match Apply(s, a) case None => None
               case Some(t) => match Apply(t, b) case None => None
                               case Some(u) => Apply(u, c))
  {
    assert [a, b, c][..2] == [a, b] && [a, b][..1] == [a] && [a][..0] == [];
    assert Run(s, []) == Some(s);
    assert Run(s, [a]) == Apply(s, a);
    assert Run(s, [a, b]) == (match Apply(s, a) case None => None case Some(t) => Apply(t, b));
  }

  lemma FindRecordPrefix(a: Log, b: Log, key: string)
    requires a <= b && FindRecord(b, key).None?
    ensures FindRecord(a, key).None?
  {
    FindRecordConcat(a, b[|a|..], key);
    assert a + b[|a|..] == b;
  }

  lemma ReopenAfter(t: Sys)
    requires Inv(t) && |t.published| > 0
    ensures
      var r := Run(t, [Crash, Open]);
      r.Some? && r.value.project.Some? && r.value.project.value.Content() == DurableLog(t)
  {
    ReopenRestores(t);
    assert [Crash, Open][..1] == [Crash] && [Crash][..0] == [];
    assert Run(t, []) == Some(t);
    assert Run(t, [Crash]) == Apply(t, Crash);
  }

  /** The store operations of a project's first open (`ensure_project`, then `persist_snapshot`). */
  function FirstOpen(): seq<Event> {
    [OpenFresh, PutSnapshot(true), PutSwitch(true)] + [SwapCache, FinishCompaction]
  }

  /** The first open ends idle, empty and in step, so the failing family above starts there. */
  lemma FirstOpenIsReady()
    ensures
      var t := Run(Init(), FirstOpen());
      && t.Some? && t.value.phase.Idle? && t.value.project.Some? && |t.value.published| == 1
      && t.value.project.value.Content() == [] && t.value.project.value.commitSeq == 0
      && Inv(t.value) && InStep(t.value)
  {
    hide Inv, InStep, Run;
    FirstOpenStores();
    var u := Run(Init(), [OpenFresh, PutSnapshot(true), PutSwitch(true)]).value;
    FirstOpenSwaps(u);
    RunConcat(Init(), [OpenFresh, PutSnapshot(true), PutSwitch(true)], [SwapCache, FinishCompaction]);
    RunKeepsInv(FirstOpen());
    var t := Run(Init(), FirstOpen()).value;
    assert InStep(t) by {
      FreshInStep(t);
    }
  }

  lemma FreshInStep(t: Sys)
    requires t.project.Some? && |t.published| == 1
    requires t.project.value.commitSeq == t.published[0].mark
    ensures InStep(t)
  {
  }

  lemma FirstOpenStores()
    ensures
      var u := Run(Init(), [OpenFresh, PutSnapshot(true), PutSwitch(true)]);
      && u.Some? && u.value.project == Some(FreshProject()) && u.value.phase == Compact(Swap, None)
      && |u.value.published| == 1 && u.value.published[0].mark == 0
  {
    hide Run, Vacuum, Committed, Shipped;
    Run3(Init(), OpenFresh, PutSnapshot(true), PutSwitch(true));
  }

  lemma FirstOpenSwaps(u: Sys)
    requires u.project == Some(FreshProject()) && u.phase == Compact(Swap, None)
    ensures
      var t := Run(u, [SwapCache, FinishCompaction]);
      && t.Some? && t.value.phase.Idle? && t.value.published == u.published
      && t.value.project == Some(AfterSwap(FreshProject())) && AfterSwap(FreshProject()).Content() == []
  {
    hide Run, Vacuum, Committed, Shipped;
    SwapsToEmpty();
    Run2(u, SwapCache, FinishCompaction);
  }

  lemma SwapsToEmpty()
    ensures AfterSwap(FreshProject()).Content() == []
  {
    assert FreshProject().Content() == [];
    assert Vacuum([]) == [];
  }

  lemma Run2(s: Sys, a: Event, b: Event)
    ensures Run(s, [a, b]) == (match Apply(s, a) case None => None case Some(t) => Apply(t, b))
  {
    hide Apply;
    assert [a, b][..1] == [a] && [a][..0] == [];
    assert Run(s, []) == Some(s);
    assert Run(s, [a]) == Apply(s, a);
  }

  /** A keyed job that SQLite accepts runs there, and loses its acknowledged write. */
  lemma LostWriteExists(job: Job)
    requires job.idempotency.Some? && ValidIdempotency(job.idempotency.value) && job.outcome.Done? && HonestJob(job)
    ensures exists s: Sys ::
              && Run(Init(), FirstOpen()) == Some(s) && s.phase.Idle?
              && Run(s, LostBatch(job)).Some?
              && var t := Run(s, LostBatch(job)).value;
              && t.project.Some?
              && ExecJob(t.project.value.Content(), t.project.value.commitSeq, job).result.Success?
              && Run(t, [Crash, Open]).Some?
              && var r := Run(t, [Crash, Open]).value;
              && r.project.Some? && FindRecord(r.project.value.Content(), job.idempotency.value.key).None?
  {
    hide Inv, InStep, Run, ExecJob, ValidIdempotency;
    FirstOpenIsReady();
    var s := Run(Init(), FirstOpen()).value;
    ReplayedThenLost(s, job);
  }

  // ---- The counter can run to its end --------------------------------------------------------

  /** A job without a key that changes one row. */
  function PlainJob(tag: nat): Job {
    Job(tag, None, Done(Scalar(""), Some(0), true))
  }

  /** One batch of one job that goes well. */
  function GoodFlush(tag: nat): seq<Event> {
    [Execute([PlainJob(tag)]), ShipSegment(true)] + [PutManifest(true), Answer]
  }

  /** Idle, with everything flushed. */
  ghost predicate Ready(s: Sys) {
    && Inv(s) && s.phase.Idle? && s.project.Some? && |s.published| > 0
    && s.published[|s.published| - 1].mark == s.project.value.commitSeq
  }

  lemma PlainJobRuns(p: Project, tag: nat)
    ensures
      var b := RunJobs(p, [PlainJob(tag)]);
      && b.project == p.(image := Image(p.image.base, p.image.wal + JobFrames(SatInc(p.commitSeq), PlainJob(tag))))
      && b.slots == [Slot(PlainJob(tag), Success(Scalar("")), true, |p.Content()|)]
      && CommittedSlots(b.slots) == 1
      && |JobFrames(SatInc(p.commitSeq), PlainJob(tag))| > 0
      && b.project.Content() == p.Content() + [Mutation(tag, None, false)]
  {
    hide Committed;
    var job := PlainJob(tag);
    assert [job][..0] == [] && RunJobs(p, [job][..0]) == Batch(p, []);
    RunJobContent(Batch(p, []), job);
    var b := RunJobs(p, [job]);
    assert b == RunJob(Batch(p, []), job);
    assert b.slots[..0] == [];
  }

  lemma GoodFlushAdvances(s: Sys, tag: nat)
    requires Ready(s)
    ensures
      var t := Run(s, GoodFlush(tag));
      && t.Some? && Ready(t.value)
      && t.value.project.value.commitSeq == SatInc(s.project.value.commitSeq)
      && |t.value.published| == |s.published| + 1 && s.published <= t.value.published
      && t.value.acks
         == s.acks + [Ack(PlainJob(tag), SatInc(s.project.value.commitSeq), |s.project.value.Content()|, |s.published|)]
      && t.value.project.value.Content() == s.project.value.Content() + [Mutation(tag, None, false)]
  {
    hide HistoryOk, AckOk, ManifestOk, SegmentsHold, ChainOk, Shipped, ShippedImage, Committed, VolatileAhead, SlotsOk,
      RowsUpTo, RunJobs, ExecJob, Accounted, Run, Inv;
    var p := s.project.value;
    PlainJobRuns(p, tag);
    ReadyFacts(s);
    Run2(s, Execute([PlainJob(tag)]), ShipSegment(true));
    var mid := Run(s, [Execute([PlainJob(tag)]), ShipSegment(true)]).value;
    Run2(mid, PutManifest(true), Answer);
    RunConcat(s, [Execute([PlainJob(tag)]), ShipSegment(true)], [PutManifest(true), Answer]);
    RunFromKeepsInv(s, GoodFlush(tag));
    OneAck(RunJobs(p, [PlainJob(tag)]).slots[0], SatInc(p.commitSeq), |s.published|);
  }

  lemma ReadyFacts(s: Sys)
    requires Ready(s)
    ensures s.project.value.durable <= |s.project.value.image.wal| && s.project.value.snapshot.Some?
  {
    hide HistoryOk, AckOk, ManifestOk, SegmentsHold, ChainOk, Shipped, Committed, VolatileAhead, RowsUpTo, Accounted;
  }

  lemma OneAck(slot: Slot, mark: nat, version: nat)
    requires slot.committed && slot.result.Success?
    ensures AcksOf([slot], mark, version) == [Ack(slot.job, mark, slot.at, version)]
  {
    assert [slot][..0] == [];
  }

  /** From any settled state every larger sequence number is reached by flushes that go well. */
  lemma {:induction false} FlushesReach(s: Sys, n: nat) returns (es: seq<Event>)
    requires Ready(s) && s.project.value.commitSeq <= n <= U64_MAX
    ensures
      var t := Run(s, es);
      && t.Some? && Ready(t.value) && t.value.project.value.commitSeq == n
      && s.project.value.Content() <= t.value.project.value.Content()
    decreases n - s.project.value.commitSeq
  {
    hide Run, Inv, Apply, Committed;
    if s.project.value.commitSeq == n {
      es := [];
      NothingRuns(s);
    } else {
      GoodFlushAdvances(s, 0);
      var t := Run(s, GoodFlush(0)).value;
      var rest := FlushesReach(t, n);
      RunConcat(s, GoodFlush(0), rest);
      es := GoodFlush(0) + rest;
    }
  }

  lemma NothingRuns(s: Sys)
    ensures Run(s, []) == Some(s)
  {
  }

  /** Every sequence number is reached by a run in which nothing fails. */
  lemma EveryMarkIsReached(n: nat) returns (es: seq<Event>)
    requires n <= U64_MAX
    ensures
      var s := Run(Init(), es);
      s.Some? && Ready(s.value) && s.value.project.value.commitSeq == n
  {
    hide Run, Inv, Apply;
    FirstOpenIsReady();
    FirstOpenPublishes();
    var rest := FlushesReach(Run(Init(), FirstOpen()).value, n);
    RunConcat(Init(), FirstOpen(), rest);
    es := FirstOpen() + rest;
  }

  lemma FirstOpenPublishes()
    ensures
      var t := Run(Init(), FirstOpen());
      t.Some? && |t.value.published| == 1 && t.value.published[0].mark == 0
  {
    hide Run, Apply;
    FirstOpenStores();
    var u := Run(Init(), [OpenFresh, PutSnapshot(true), PutSwitch(true)]).value;
    FirstOpenSwaps(u);
    RunConcat(Init(), [OpenFresh, PutSnapshot(true), PutSwitch(true)], [SwapCache, FinishCompaction]);
  }
}
