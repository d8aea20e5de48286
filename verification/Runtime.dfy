/**
 The runtime's write path as it is written (rust-core/src/runtime.rs): one object whose fields
 are updated around store PUTs and deletes that may fail. Every store operation is matched, in
 order, with a step of the machine in Protocol, so whatever Protocol proves of its runs holds
 of every state this code passes through, and of a crash between any two store operations.
 */
module WriteRuntime {
  import opened Wrappers
  import opened Database
  import opened Storage
  import opened Protocol
  import opened ProtocolSteps
  import opened ProtocolTheorems
  import opened Answers

  datatype Options = Options(snapshotEveryOps: nat, metadataEveryOps: nat, maxDurableWalBytes: nat)

  class ProjectRuntime {
    const store: ObjectStore
    const options: Options

    // ProjectState; `db` and `wal` are the local database and WAL files. `open` says
    // whether there is a handle at all.
    var open: bool
    var generation: nat
    var commitSeq: nat
    var currentSnapshot: Option<SnapshotRef>
    var walSegments: seq<SegmentRef>
    var lastDurableWalBytes: nat
    var nextWalSegmentId: nat
    var opsSinceSnapshot: nat
    var fencingToken: Option<nat>
    var db: Blob
    var wal: Blob

    ghost var sys: Sys
    ghost var trace: seq<Event>
    /** Times the writer lease was not granted. */
    ghost var refusals: nat

    /** What went wrong around this object so far: store operations that failed, and leases refused. */
    ghost function Trouble(): nat
      reads this`refusals, store`readFaults, store`writeFaults
    {
      refusals + store.readFaults + store.writeFaults
    }

    function View(): Project
      reads this
    {
      Project(generation, commitSeq, currentSnapshot, walSegments, lastDurableWalBytes,
              nextWalSegmentId, opsSinceSnapshot, Image(db, wal))
    }

    /** The machine has run `trace` from the empty store and stands where this object stands. */
    ghost predicate Valid()
      reads this, store`objects
    {
      && Run(Init(), trace) == Some(sys)
      && store.objects == sys.store
      && sys.project == (if open then Some(View()) else None)
    }

    constructor (s: ObjectStore, o: Options)
      requires s.objects == map[]
      ensures Valid() && !open && store == s && options == o && trace == []
    {
      store, options := s, o;
      open := false;
      generation, commitSeq, currentSnapshot, walSegments := 0, 0, None, [];
      lastDurableWalBytes, nextWalSegmentId, opsSinceSnapshot, fencingToken := 0, 0, 0, None;
      db, wal := [], [];
      sys, trace := Init(), [];
    }

    ghost method Step(e: Event)
      requires Run(Init(), trace) == Some(sys) && Apply(sys, e).Some?
      modifies this`sys, this`trace
      ensures Run(Init(), trace) == Some(sys)
      ensures sys == Apply(old(sys), e).value && trace == old(trace) + [e]
      ensures Inv(old(sys)) && Inv(sys)
    {
      hide Apply, Inv;
      RunKeepsInv(trace);
      StepKeepsInv(sys, e);
      assert (trace + [e])[..|trace|] == trace;
      sys := Apply(sys, e).value;
      trace := trace + [e];
    }

    // ---- Leases -----------------------------------------------------------

    /** `ensure_writer_lease_for_state`: any outcome; the protocol itself is in Lease. */
    method EnsureWriterLease() returns (r: Result<(), ApiError>)
      modifies this`fencingToken, this`refusals
      ensures refusals == old(refusals) + if r.Success? then 0 else 1
      ensures r.Failure? ==> r == Failure(ApiError(423))
    {
      var held: bool := *;
      if !held {
        refusals := refusals + 1;
        return Failure(ApiError(423));
      }
      var token: nat := *;
      fencingToken := Some(token);
      return Success(());
    }

    // ---- Manifests ----------------------------------------------------------

    method ReadManifest() returns (r: Result<Option<Manifest>, ApiError>)
      modifies store`readFaults
      ensures r.Success? ==> LoadManifest(store.objects) == r
      ensures store.readFaults == old(store.readFaults) ==> r == LoadManifest(store.objects)
      ensures store.readFaults >= old(store.readFaults)
    {
      var found := store.Exists(ManifestKey);
      if found.Failure? {
        return Failure(found.error);
      }
      if !found.value {
        return Success(None);
      }
      var doc := store.Read(ManifestKey);
      if doc.Failure? {
        return Failure(doc.error);
      }
      match doc.value
      case Doc(m) => return Success(Some(m));
      case _ => return Failure(UNAVAILABLE);
    }

    /**
     `put_manifest`. A newer generation in the store is refused when it can be read; otherwise
     the manifest is stored or nothing changes. The check after the PUT cannot fire, since
     nobody else writes in between.
     */
    method PutManifest(m: Manifest) returns (r: Result<(), ApiError>)
      modifies store
      ensures store.objects == if r.Success? then old(store.objects)[ManifestKey := Doc(m)] else old(store.objects)
      ensures
        (match LoadManifest(old(store.objects))
         case Success(Some(existing)) =>
           existing.generation > m.generation && store.readFaults == old(store.readFaults)
           ==> r == Failure(ApiError(409))
         case _ => true)
      ensures Untroubled(LoadManifest(old(store.objects)), m.generation) && r.Failure?
              ==> store.writeFaults > old(store.writeFaults)
      ensures store.writeFaults >= old(store.writeFaults) && store.readFaults >= old(store.readFaults)
    {
      var existing := ReadManifest();
      if existing.Success? && existing.value.Some? && existing.value.value.generation > m.generation {
        return Failure(ApiError(409));
      }
      var ok := store.Put(ManifestKey, Doc(m));
      if !ok {
        return Failure(IO_ERROR);
      }
      var stored := ReadManifest();
      if stored.Success? && stored.value.Some? && stored.value.value.generation != m.generation {
        assert false;
      }
      return Success(());
    }

    /** `write_manifest`: publishes the counters and the segment list as they stand. */
    method WriteManifest() returns (r: Result<(), ApiError>)
      requires currentSnapshot.Some?
      modifies store
      ensures Untroubled(LoadManifest(old(store.objects)), generation) && r.Failure?
              ==> store.writeFaults > old(store.writeFaults)
      ensures store.writeFaults >= old(store.writeFaults) && store.readFaults >= old(store.readFaults)
      ensures store.objects == if r.Success? then old(store.objects)[ManifestKey := Doc(ManifestOf(View()))]
                               else old(store.objects)
    {
      r := PutManifest(Manifest(generation, commitSeq, currentSnapshot.value, lastDurableWalBytes,
                                walSegments, opsSinceSnapshot));
    }

    // ---- Compaction -----------------------------------------------------------

    /** The first half of `persist_snapshot`: upload, then the manifest that names the upload. */
    method PublishSnapshot(tmp: Blob, ghost waiting: Option<Pending>) returns (r: Result<SnapshotRef, ApiError>)
      requires Valid() && open && sys.phase == Compact(Upload, waiting)
      requires tmp == SnapshotBlob(View())
      requires waiting.Some? ==> currentSnapshot.Some?
      modifies this`sys, this`trace, this`open, store
      ensures Valid() && old(trace) <= trace && sys.acks == old(sys.acks)
      ensures r.Success? ==> r.value == CompactSnapshot(View()) && open && sys.phase == Compact(Swap, waiting)
      ensures Trouble() >= old(Trouble()) && (r.Failure? ==> Trouble() > old(Trouble()))
      ensures r.Failure? ==> open == old(currentSnapshot).Some?
      ensures r.Failure? ==> sys.phase == (if waiting.Some? then Durable(waiting.value) else Idle)
    {
      hide Inv, Run, Apply, Publish, SnapshotBlob, LoadManifest;
      var next := generation + 1;
      var ok := store.Put(SnapshotKey(next), Data(tmp));
      UploadStep(sys, View(), ok);
      Step(PutSnapshot(ok));
      if !ok {
        if currentSnapshot.None? { open := false; }
        return Failure(IO_ERROR);
      }
      StoredIsNotNewer(sys);
      var snapshot := SnapshotRef(SnapshotKey(next), |tmp|, Digest(tmp));
      var published := PutManifest(Manifest(next, commitSeq, snapshot, 0, [], 0));
      SwitchStep(sys, View(), published.Success?);
      Step(PutSwitch(published.Success?));
      if published.Failure? {
        if currentSnapshot.None? { open := false; }
        return Failure(published.error);
      }
      return Success(snapshot);
    }

    /** The second half: replace the local files and reset the counters, then sweep. */
    method ReplaceCache(tmp: Blob, snapshot: SnapshotRef, ghost waiting: Option<Pending>) returns (ok: bool)
      requires Valid() && open && sys.phase == Compact(Swap, waiting)
      requires tmp == SnapshotBlob(View()) && snapshot == CompactSnapshot(View())
      modifies this, store
      ensures Valid() && open && old(trace) <= trace && sys.acks == old(sys.acks)
      ensures Trouble() >= old(Trouble()) && (!ok ==> Trouble() > old(Trouble()))
      ensures View() == AfterSwap(old(View()))
      ensures sys.phase == (if waiting.Some? then Durable(waiting.value) else Idle)
    {
      hide Inv, Run, Vacuum, Apply, Committed, SnapshotBlob, AfterSwap;
      ResetCounters(tmp, snapshot, waiting);
      ok := SweepSegments(waiting);
    }

    /** The new local file, and every counter back to the start of a generation. */
    method ResetCounters(tmp: Blob, snapshot: SnapshotRef, ghost waiting: Option<Pending>)
      requires Valid() && open && sys.phase == Compact(Swap, waiting)
      requires tmp == SnapshotBlob(View()) && snapshot == CompactSnapshot(View())
      modifies this
      ensures Valid() && open && currentSnapshot.Some? && View() == AfterSwap(old(View()))
      ensures old(trace) <= trace && sys.acks == old(sys.acks) && sys.phase == Compact(Sweep, waiting)
      ensures refusals == old(refusals)
    {
      hide Inv, Run, Vacuum, Apply, Committed, SnapshotBlob, CompactSnapshot, LeaveCompaction, AfterSwap;
      CompactionSteps(sys, View());
      AdoptSnapshot(tmp, snapshot);
      Step(SwapCache);
    }

    method AdoptSnapshot(tmp: Blob, snapshot: SnapshotRef)
      requires tmp == SnapshotBlob(View()) && snapshot == CompactSnapshot(View())
      modifies this`db, this`wal, this`generation, this`currentSnapshot, this`walSegments, this`lastDurableWalBytes,
        this`nextWalSegmentId, this`opsSinceSnapshot
      ensures View() == AfterSwap(old(View())) && currentSnapshot.Some?
    {
      hide Vacuum, Committed;
      db, wal := tmp, [];
      generation, currentSnapshot := generation + 1, Some(snapshot);
      walSegments, lastDurableWalBytes, nextWalSegmentId, opsSinceSnapshot := [], 0, 0, 0;
    }

    /** Delete the old segments, ignoring failures, and log the compaction. */
    method SweepSegments(ghost waiting: Option<Pending>) returns (ok: bool)
      requires Valid() && open && sys.phase == Compact(Sweep, waiting) && currentSnapshot.Some?
      modifies this`sys, this`trace, store
      ensures Valid() && old(trace) <= trace && sys.acks == old(sys.acks)
      ensures Trouble() >= old(Trouble()) && (!ok ==> Trouble() > old(Trouble()))
      ensures sys.phase == (if waiting.Some? then Durable(waiting.value) else Idle)
    {
      hide Inv, Run, Apply;
      ghost var gone;
      ok, gone := store.DeleteWalPrefix();
      DeleteStep(sys, gone);
      Step(DeleteSegments(gone));
      ok := store.Put(ChangeLogKey(opsSinceSnapshot), Note);
      LogStep(sys, opsSinceSnapshot, ok);
      Step(PutLog(opsSinceSnapshot, ok));
      CompactionSteps(sys, View());
      Step(FinishCompaction);
    }

    /**
     `persist_snapshot`. The live content never changes; on success the next generation is
     durable with an empty WAL chain. A failed first snapshot of a project leaves no handle.
     */
    method PersistSnapshot(ghost waiting: Option<Pending>) returns (r: Result<(), ApiError>)
      requires Valid() && open && sys.phase == Compact(Upload, waiting)
      requires waiting.Some? ==> currentSnapshot.Some?
      modifies this, store
      ensures Valid() && old(trace) <= trace && sys.acks == old(sys.acks)
      ensures old(currentSnapshot).Some? ==> open
      ensures open ==> View().Content() == old(View()).Content() && commitSeq == old(commitSeq)
      ensures open ==> View() == old(View()) || View() == AfterSwap(old(View()))
      ensures open ==> currentSnapshot.Some?
      ensures sys.phase == (if waiting.Some? then Durable(waiting.value) else Idle)
      ensures r.Success? ==> open && View() == AfterSwap(old(View()))
      ensures Trouble() >= old(Trouble()) && (r.Failure? ==> Trouble() > old(Trouble()))
    {
      hide Run, Apply, Vacuum, Committed, Inv;
      var tmp := Vacuum(Image(db, wal).Content());
      SameAfterSwap(View());
      var published := PublishSnapshot(tmp, waiting);
      if published.Failure? {
        return Failure(published.error);
      }
      var ok := ReplaceCache(tmp, published.value, waiting);
      return if ok then Success(()) else Failure(IO_ERROR);
    }

    /** `ensure_wal_budget`: compacts first when the WAL has grown past its budget. */
    method EnsureWalBudget() returns (r: Result<(), ApiError>)
      requires Valid() && open && sys.phase == Idle && currentSnapshot.Some?
      modifies this, store
      ensures Valid() && open && sys.phase == Idle && currentSnapshot.Some? && old(trace) <= trace
      ensures View().Content() == old(View()).Content() && commitSeq == old(commitSeq)
      ensures sys.acks == old(sys.acks)
      ensures r.Success? ==> options.maxDurableWalBytes == 0 || lastDurableWalBytes < options.maxDurableWalBytes
      ensures r.Failure? ==> r == Failure(ApiError(507))
      ensures old(options.maxDurableWalBytes == 0 || lastDurableWalBytes < options.maxDurableWalBytes) ==>
                View() == old(View()) && r.Success?
      ensures Trouble() >= old(Trouble()) && (r.Failure? ==> Trouble() > old(Trouble()))
    {
      hide Inv, Run;
      if options.maxDurableWalBytes == 0 || lastDurableWalBytes < options.maxDurableWalBytes {
        return Success(());
      }
      Step(StartCompaction);
      r := PersistSnapshot(None);
      if r.Failure? {
        return Failure(ApiError(507));
      }
    }

    // ---- Flushing a batch -----------------------------------------------------

    /**
     `durabilize_wal`: ship the new WAL bytes as one segment, advance the counters, publish
     the manifest; then the change log, and compaction when it is due, whose failure is
     swallowed. `timeUp` stands for the snapshot interval having passed.
     */
    method DurabilizeWal(committedOps: nat, timeUp: bool, ghost slots: seq<Slot>) returns (r: Result<(), ApiError>)
      requires Valid() && open && sys.phase == Flush(slots) && currentSnapshot.Some?
      requires committedOps == CommittedSlots(slots)
      modifies this, store
      ensures Valid() && open && currentSnapshot.Some? && old(trace) <= trace && sys.acks == old(sys.acks)
      ensures View().Content() == old(View()).Content()
      ensures r.Failure? ==> sys.phase == Idle
      ensures r.Success? ==> sys.phase.Durable? && sys.phase.pending.slots == slots
      ensures r.Success? ==> commitSeq == SatInc(old(commitSeq))
      ensures r.Failure? ==> commitSeq == old(commitSeq) || commitSeq == SatInc(old(commitSeq))
      ensures Trouble() >= old(Trouble()) && (r.Failure? ==> Trouble() > old(Trouble()))
      ensures old(lastDurableWalBytes <= |wal|)
      ensures Trouble() == old(Trouble()) ==>
                var shipped := AfterShip(old(View()), slots);
                View() == if Due(shipped.ops, timeUp) then AfterSwap(shipped) else shipped
    {
      hide Inv, Run, Apply, Committed, AfterSwap;
      RunKeepsInv(trace);
      NeverShrinks(sys);
      assert lastDurableWalBytes <= |wal|;
      KeepsSnapshot(View(), slots);
      r := ShipAndPublish(committedOps, slots);
      if r.Failure? {
        return;
      }
      if options.metadataEveryOps > 0 && opsSinceSnapshot % options.metadataEveryOps == 0 {
        var ok := store.Put(ChangeLogKey(opsSinceSnapshot), Note);
        LogStep(sys, opsSinceSnapshot, ok);
        Step(PutLog(opsSinceSnapshot, ok));
        if !ok {
          DurableSteps(sys, View());
          Step(FailFlush);
          return Failure(IO_ERROR);
        }
      }
      CompactIfDue(timeUp);
      return Success(());
    }

    /** Compaction is due by the number of operations since the last one, or by the clock. */
    predicate Due(ops: nat, timeUp: bool) {
      timeUp || (options.snapshotEveryOps > 0 && ops >= options.snapshotEveryOps)
    }

    method CompactIfDue(timeUp: bool)
      requires Valid() && open && sys.phase.Durable? && currentSnapshot.Some?
      modifies this, store
      ensures Valid() && open && currentSnapshot.Some? && old(trace) <= trace && sys.acks == old(sys.acks)
      ensures View().Content() == old(View()).Content() && commitSeq == old(commitSeq)
      ensures sys.phase == old(sys.phase)
      ensures View() == old(View()) || View() == AfterSwap(old(View()))
      ensures Trouble() >= old(Trouble())
      ensures !Due(old(opsSinceSnapshot), timeUp) ==> View() == old(View()) && Trouble() == old(Trouble())
      ensures Due(old(opsSinceSnapshot), timeUp) && Trouble() == old(Trouble()) ==> View() == AfterSwap(old(View()))
    {
      hide Inv, Run, Apply, Committed, Vacuum;
      if (options.snapshotEveryOps > 0 && opsSinceSnapshot >= options.snapshotEveryOps) || timeUp {
        DurableSteps(sys, View());
        Step(StartCompaction);
        var compacted := PersistSnapshot(sys.phase.waiting);
        if compacted.Failure? {
          var ok := store.Put(ChangeLogKey(opsSinceSnapshot), Note);
          LogStep(sys, opsSinceSnapshot, ok);
          Step(PutLog(opsSinceSnapshot, ok));
        }
      }
    }

    /** The segment PUT, when there are new bytes, and the counters that follow it. */
    method ShipSegmentBytes(committedOps: nat, ghost slots: seq<Slot>) returns (r: Result<(), ApiError>)
      requires Valid() && open && sys.phase == Flush(slots)
      requires committedOps == CommittedSlots(slots) && lastDurableWalBytes <= |wal|
      modifies this, store
      ensures Valid() && open && old(trace) <= trace && sys.acks == old(sys.acks)
      ensures r.Success? ==> View() == AfterShip(old(View()), slots) && sys.phase == Sent(slots)
      ensures r.Failure? ==> View() == old(View()) && sys.phase == Idle
      ensures Trouble() >= old(Trouble()) && (r.Failure? ==> Trouble() > old(Trouble()))
    {
      hide Inv, Run, Apply, CommittedSlots, Committed, Shipped, LoadManifest;
      FlushStep(sys, View(), slots);
      var walBytes := |wal|;
      if walBytes < lastDurableWalBytes {
        assert false;
      }
      if walBytes > lastDurableWalBytes {
        var segment := wal[lastDurableWalBytes..];
        if segment != [] {
          var key := WalKey(nextWalSegmentId);
          var ok := store.Put(key, Data(segment));
          if !ok {
            Step(ShipSegment(false));
            return Failure(IO_ERROR);
          }
          walSegments := walSegments
            + [SegmentRef(nextWalSegmentId, key, lastDurableWalBytes, |segment|, Digest(segment))];
          nextWalSegmentId := nextWalSegmentId + 1;
        }
      }
      lastDurableWalBytes := walBytes;
      opsSinceSnapshot := opsSinceSnapshot + (if committedOps < 1 then 1 else committedOps);
      commitSeq := SatInc(commitSeq);
      Step(ShipSegment(true));
      return Success(());
    }

    method ShipAndPublish(committedOps: nat, ghost slots: seq<Slot>) returns (r: Result<(), ApiError>)
      requires Valid() && open && sys.phase == Flush(slots) && currentSnapshot.Some?
      requires committedOps == CommittedSlots(slots) && lastDurableWalBytes <= |wal|
      modifies this, store
      ensures Valid() && open && old(trace) <= trace && sys.acks == old(sys.acks)
      ensures View() == old(View()) || View() == AfterShip(old(View()), slots)
      ensures r.Success? ==> View() == AfterShip(old(View()), slots)
      ensures r.Success? ==> sys.phase.Durable? && sys.phase.pending.slots == slots
      ensures r.Failure? ==> sys.phase == Idle
      ensures r.Success? ==> store.objects[ManifestKey := Doc(ManifestOf(View()))] == store.objects
      ensures Trouble() >= old(Trouble()) && (r.Failure? ==> Trouble() > old(Trouble()))
    {
      hide Inv, Run, Apply, CommittedSlots, Committed, Shipped, ShippedImage, LoadManifest, AfterShip;
      KeepsSnapshot(View(), slots);
      r := ShipSegmentBytes(committedOps, slots);
      if r.Failure? {
        return;
      }
      RunKeepsInv(trace);
      StoredIsNotNewer(sys);
      r := WriteManifest();
      PublishStep(sys, View(), slots);
      Step(Event.PutManifest(r.Success?));
    }

    // ---- Batches -------------------------------------------------------------

    /** `execute_write_kind`: SQLite runs the job; a transaction lands in the WAL if rows changed. */
    method ExecuteWriteKind(job: Job) returns (result: Result<Value, ApiError>, committed: bool)
      modifies this`wal
      ensures wal == old(wal) + (if job.outcome.writes.Some? then Frames(JobMutation(job), job.outcome.writes.value) else [])
      ensures
        (match job.outcome
         case Reject(e, _, _) => result == Failure(e) && !committed
         case Done(v, _, c) => result == Success(v) && committed == c)
    {
      if job.outcome.writes.Some? {
        wal := wal + Frames(JobMutation(job), job.outcome.writes.value);
      }
      match job.outcome
      case Reject(e, _, _) =>
        return Failure(e), false;
      case Done(v, _, c) =>
        return Success(v), c;
    }

    /** `execute_idempotent_write_kind`: validate, look the key up, run, store the record. */
    method ExecuteIdempotentWriteKind(job: Job, idem: Idempotency) returns (result: Result<Value, ApiError>, committed: bool)
      requires job.idempotency == Some(idem)
      modifies this`wal
      ensures
        var r := ExecJob(old(View()).Content(), commitSeq, job);
        result == r.result && committed == r.committed && wal == old(wal) + r.frames
      ensures result.Success? && committed ==>
                && job.outcome.Done? && Carries(result.value, job.outcome.value, SatInc(commitSeq))
                && wal[|wal| - 1].Commit?
                && wal[|wal| - 1].tx == Record(Row(idem.key, idem.requestHash, result.value, SatInc(commitSeq),
                                                   job.outcome.writes.Some?))
    {
      hide FindRecord, Committed;
      if !ValidIdempotency(idem) {
        return Failure(ApiError(400)), false;
      }
      var known := LoadRecord(Image(db, wal).Content(), commitSeq, idem);
      if known.Some? {
        return known.value, false;
      }
      var pending := SatInc(commitSeq);
      var ran, _ := ExecuteWriteKind(job);
      match ran
      case Failure(e) =>
        // The flag of a rejected keyed job is set when only storing its row failed.
        return Failure(e), job.outcome.committed;
      case Success(v) =>
        var response := WithBookmark(v, pending);
        WithBookmarkCarries(v, pending);
        var row := Row(idem.key, idem.requestHash, response, pending, job.outcome.writes.Some?);
        wal := wal + Frames(Record(row), 0);
        return Success(response), true;
    }

    method ExecuteWriteJob(job: Job) returns (result: Result<Value, ApiError>, committed: bool)
      modifies this`wal
      ensures
        var r := ExecJob(old(View()).Content(), commitSeq, job);
        result == r.result && committed == r.committed && wal == old(wal) + r.frames
    {
      hide LoadRecord, Frames, Committed;
      match job.idempotency
      case Some(idem) =>
        result, committed := ExecuteIdempotentWriteKind(job, idem);
      case None =>
        result, committed := ExecuteWriteKind(job);
    }

    /** The job loop of `execute_write_batch`. */
    method RunBatch(jobs: seq<Job>) returns (slots: seq<Slot>, committedOps: nat)
      modifies this`wal
      ensures Batch(View(), slots) == RunJobs(old(View()), jobs)
      ensures |slots| == |jobs| && committedOps == CommittedSlots(slots)
    {
      hide ExecJob, Committed, RunJobs, CommittedSlots;
      slots, committedOps := [], 0;
      var i := 0;
      NoJobs(View(), jobs);
      while i < |jobs|
        invariant 0 <= i <= |jobs| && |slots| == i
        invariant Batch(View(), slots) == RunJobs(old(View()), jobs[..i])
        invariant committedOps == CommittedSlots(slots)
      {
        OneMoreJob(old(View()), jobs, i, View(), slots);
        var at := |Image(db, wal).Content()|;
        var result, committed := ExecuteWriteJob(jobs[i]);
        var slot := Slot(jobs[i], result, committed, at);
        slots := slots + [slot];
        committedOps := committedOps + (if committed then 1 else 0);
        i := i + 1;
      }
      assert jobs[..|jobs|] == jobs;
    }

    /**
     `execute_write_batch`. Either no job runs and every client gets the same error (lease or
     budget), or all jobs run: then each client is sent what `Respond` says. If the flush
     succeeds, every committed job answered Ok is in the durable log when its client hears of
     it; if it fails, no committed job is answered Ok.
     */
    method ExecuteWriteBatch(jobs: seq<Job>, timeUp: bool)
        returns (responses: seq<Result<Value, ApiError>>, ghost ran: Option<Ran>)
      requires Valid() && open && sys.phase == Idle && currentSnapshot.Some?
      requires forall i :: 0 <= i < |jobs| ==> HonestJob(jobs[i])
      modifies this, store
      ensures Valid() && open && sys.phase == Idle && currentSnapshot.Some? && old(trace) <= trace
      ensures |responses| == |jobs|
      ensures ran.None? ==>
                && View().Content() == old(View()).Content() && commitSeq == old(commitSeq)
                && sys.acks == old(sys.acks)
                && (forall i :: 0 <= i < |jobs| ==> responses[i].Failure? && responses[i] == responses[0])
                && Trouble() > old(Trouble())
      ensures ran.Some? ==>
                var r := ran.value;
                && r.start.Content() == old(View()).Content() && r.start.commitSeq == old(commitSeq)
                && RunJobs(r.start, jobs).slots == r.slots && |r.slots| == |jobs|
                && View().Content() == RunJobs(r.start, jobs).project.Content()
                && BatchAnswered(r, responses, old(commitSeq), commitSeq)
                && BatchDurable(r, old(sys), sys, commitSeq)
                && Trouble() >= old(Trouble()) && (r.flush.Failure? ==> Trouble() > old(Trouble()))
                && forall i :: 0 <= i < |jobs| ==>
                     Told(jobs[i], RunJobs(r.start, jobs[..i]).project.Content(), old(commitSeq), r.flush, commitSeq,
                          sys.acks, responses[i])
    {
      hide Inv, Run, Apply, RunJobs, Committed, AcksOf, HonestJob, Told, BatchAnswered, BatchDurable;
      var lease := EnsureWriterLease();
      if lease.Failure? {
        return seq(|jobs|, _ => Failure(lease.error)), None;
      }
      var budget := EnsureWalBudget();
      if budget.Failure? {
        return seq(|jobs|, _ => Failure(budget.error)), None;
      }
      ghost var before := sys;
      ghost var r;
      responses, r := RunAndAnswer(jobs, timeUp);
      SameAcks(r, before, old(sys), sys, commitSeq);
      ran := Some(r);
    }

    /** The rest, with the lease and within the budget: the jobs, the flush, the answers. */
    method RunAndAnswer(jobs: seq<Job>, timeUp: bool)
        returns (responses: seq<Result<Value, ApiError>>, ghost r: Ran)
      requires Valid() && open && sys.phase == Idle && currentSnapshot.Some?
      requires forall i :: 0 <= i < |jobs| ==> HonestJob(jobs[i])
      modifies this, store
      ensures Valid() && open && sys.phase == Idle && currentSnapshot.Some? && old(trace) <= trace
      ensures |responses| == |jobs| == |r.slots|
      ensures r.start == old(View()) && RunJobs(r.start, jobs).slots == r.slots
      ensures View().Content() == RunJobs(r.start, jobs).project.Content()
      ensures BatchAnswered(r, responses, old(commitSeq), commitSeq)
      ensures BatchDurable(r, old(sys), sys, commitSeq)
      ensures Trouble() >= old(Trouble()) && (r.flush.Failure? ==> Trouble() > old(Trouble()))
      ensures forall i :: 0 <= i < |jobs| ==>
                Told(jobs[i], RunJobs(r.start, jobs[..i]).project.Content(), old(commitSeq), r.flush, commitSeq,
                     sys.acks, responses[i])
    {
      hide Inv, Run, Apply, RunJobs, Committed, AcksOf, HonestJob, Told;
      ghost var start, before := View(), sys;
      RunKeepsInv(trace);
      LiveFacts(sys);
      ExecuteStep(sys, start, jobs);
      var slots, committedOps := RunBatch(jobs);
      Step(Execute(jobs));
      var flush: Result<(), ApiError> := Success(());
      var bookmark: Option<nat> := None;
      if committedOps > 0 {
        flush := FlushBatch(committedOps, timeUp, slots);
        if flush.Success? {
          bookmark := Some(commitSeq);
        }
      }
      responses := seq(|slots|, i requires 0 <= i < |slots| => Respond(slots[i], flush, bookmark));
      r := Ran(start, slots, flush);
      BatchTold(r, jobs, responses, start.commitSeq, commitSeq, before, sys);
    }

    /** The lease check and the flush of a committed batch, then the answers. */
    method FlushBatch(committedOps: nat, timeUp: bool, slots: seq<Slot>) returns (flush: Result<(), ApiError>)
      requires Valid() && open && sys.phase == Flush(slots) && currentSnapshot.Some?
      requires committedOps == CommittedSlots(slots)
      modifies this, store
      ensures Valid() && open && sys.phase == Idle && currentSnapshot.Some? && old(trace) <= trace
      ensures View().Content() == old(View()).Content()
      ensures flush.Failure? ==> sys.acks == old(sys.acks)
      ensures Trouble() >= old(Trouble()) && (flush.Failure? ==> Trouble() > old(Trouble()))
      ensures flush.Success? ==>
                && commitSeq == SatInc(old(commitSeq))
                && SlotsOk(slots, DurableLog(sys), commitSeq)
                && exists v :: sys.acks == old(sys.acks) + AcksOf(slots, commitSeq, v)
    {
      hide Inv, Run, Apply, Committed, AcksOf, CommittedSlots;
      RunKeepsInv(trace);
      NeverShrinks(sys);
      FlushStep(sys, View(), slots);
      flush := EnsureWriterLease();
      if flush.Failure? {
        Step(LoseLease);
        return;
      }
      flush := DurabilizeWal(committedOps, timeUp, slots);
      if flush.Success? {
        RunKeepsInv(trace);
        DurableNamesBatch(sys);
        DurableSteps(sys, View());
        ghost var version := sys.phase.pending.version;
        ghost var acks := sys.acks;
        Step(Answer);
        assert sys.acks == acks + AcksOf(slots, commitSeq, version);
      }
    }

    // ---- Opening -------------------------------------------------------------

    /** `read_verified_object`: length first, then digest. */
    method ReadVerifiedObject(key: Key, len: nat, sha: Digest) returns (r: Result<Blob, ApiError>)
      modifies store`readFaults
      ensures r.Success? ==> r == ReadVerified(store.objects, key, len, sha)
      ensures store.readFaults == old(store.readFaults) ==> r == ReadVerified(store.objects, key, len, sha)
      ensures store.readFaults >= old(store.readFaults)
    {
      var doc := store.Read(key);
      if doc.Failure? || !doc.value.Data? {
        return Failure(UNAVAILABLE);
      }
      var bytes := doc.value.blob;
      if |bytes| != len {
        return Failure(UNAVAILABLE);
      }
      if Digest(bytes) != sha {
        return Failure(UNAVAILABLE);
      }
      return Success(bytes);
    }

    /** `restore_manifest_wal`: checks ids and offsets, and appends each verified segment. */
    method RestoreManifestWal(m: Manifest) returns (r: Result<Blob, ApiError>)
      modifies store`readFaults
      ensures r.Success? ==> r == RestoreWal(store.objects, m)
      ensures store.readFaults == old(store.readFaults) ==> r == RestoreWal(store.objects, m)
      ensures store.readFaults >= old(store.readFaults)
    {
      hide ReadVerified;
      var file: Blob := [];
      var expectedOffset := 0;
      var expectedId: Option<nat> := None;
      var i := 0;
      assert m.segments[0..] == m.segments;
      PrependNothing(RestoreSegments(store.objects, m.segments, 0, None));
      while i < |m.segments|
        invariant 0 <= i <= |m.segments| && |file| == expectedOffset
        invariant store.readFaults >= old(store.readFaults)
        invariant RestoreSegments(store.objects, m.segments, 0, None)
               == Prepend(file, RestoreSegments(store.objects, m.segments[i..], expectedOffset, expectedId))
      {
        var segment := m.segments[i];
        assert m.segments[i..][0] == segment && m.segments[i..][1..] == m.segments[i + 1..];
        if expectedId.Some? && segment.id != expectedId.value {
          return Failure(UNAVAILABLE);
        }
        if segment.offset != expectedOffset {
          return Failure(UNAVAILABLE);
        }
        var bytes := ReadVerifiedObject(segment.key, segment.len, segment.sha);
        if bytes.Failure? {
          ReadFailsOneWay(store.objects, segment.key, segment.len, segment.sha);
          return bytes;
        }
        VerifiedLength(store.objects, segment.key, segment.len, segment.sha);
        PrependTwice(file, bytes.value,
          RestoreSegments(store.objects, m.segments[i + 1..], expectedOffset + segment.len, Some(segment.id + 1)));
        file := file + bytes.value;
        expectedOffset := expectedOffset + segment.len;
        expectedId := Some(segment.id + 1);
        i := i + 1;
      }
      assert m.segments[i..] == [] && file + [] == file;
      if expectedOffset != m.durableBytes {
        return Failure(UNAVAILABLE);
      }
      return Success(file);
    }

    /** The restored files become the local cache, and the counters the manifest's. */
    method LayDown(m: Manifest, base: Blob, bytes: Blob)
      requires Valid() && !open && LoadManifest(store.objects) == Success(Some(m))
      requires Restore(store.objects, m) == Success(Image(base, bytes))
      modifies this
      ensures refusals == old(refusals)
      ensures Valid() && open && View() == OpenProject(m, Image(base, bytes))
      ensures sys.phase == Idle && sys.published == old(sys.published) && trace == old(trace) + [Open]
    {
      hide Inv, Run, Apply, Restore, NextId, TotalLen, LoadManifest;
      OpenStep(sys, m, Image(base, bytes));
      AdoptManifest(m, base, bytes);
      Step(Open);
    }

    method AdoptManifest(m: Manifest, base: Blob, bytes: Blob)
      modifies this`open, this`db, this`wal, this`generation, this`commitSeq, this`currentSnapshot, this`walSegments,
        this`lastDurableWalBytes, this`nextWalSegmentId, this`opsSinceSnapshot
      ensures open && View() == OpenProject(m, Image(base, bytes))
    {
      hide NextId, TotalLen;
      open, db, wal := true, base, bytes;
      generation, commitSeq, currentSnapshot := m.generation, m.commitSeq, Some(m.snapshot);
      walSegments, opsSinceSnapshot := m.segments, m.ops;
      lastDurableWalBytes := TotalLen(m.segments);
      nextWalSegmentId := NextId(m.segments);
    }

    /** Lay the files down from a manifest and reset every counter to it. */
    method OpenFrom(m: Manifest) returns (r: Result<(), ApiError>)
      requires Valid() && !open && LoadManifest(store.objects) == Success(Some(m))
      modifies this, store`readFaults
      ensures Valid() && old(trace) <= trace && store.readFaults >= old(store.readFaults)
      ensures r.Success? ==> open && sys.phase == Idle && currentSnapshot.Some? && sys.published == old(sys.published)
      ensures r.Failure? ==> !open && sys == old(sys) && trace == old(trace)
      ensures store.readFaults == old(store.readFaults) ==> r.Success?
      ensures refusals == old(refusals)
      ensures r.Success? ==> View().Content() == DurableLog(old(sys)) && commitSeq == m.commitSeq && opsSinceSnapshot == m.ops
      ensures r.Success? ==> |sys.published| > 0 && commitSeq == sys.published[|sys.published| - 1].mark
    {
      hide Inv, Run, Apply, Committed, Shipped, Restore, RestoreWal, ReadVerified, NextId, TotalLen,
        LoadManifest, DurableLog;
      RunKeepsInv(trace);
      ManifestIsPublished(sys);
      RecoveryFindsDurableLog(sys);
      var base := ReadVerifiedObject(m.snapshot.key, m.snapshot.bytes, m.snapshot.sha);
      RestoreParts(store.objects, m);
      if base.Failure? {
        return Failure(base.error);
      }
      var bytes := RestoreManifestWal(m);
      if bytes.Failure? {
        return Failure(bytes.error);
      }
      LayDown(m, base.value, bytes.value);
      return Success(());
    }

    /**
     `ensure_project`. A project that was ever published reopens as exactly its durable log;
     when no read fails, only the change-log PUT can make that fail. A new project
     publishes its first snapshot before anybody gets a handle.
     */
    method EnsureProject() returns (r: Result<(), ApiError>)
      requires Valid() && (open ==> sys.phase == Idle && currentSnapshot.Some?)
      modifies this, store
      ensures Valid() && old(trace) <= trace
      ensures r.Success? ==> open && sys.phase == Idle && currentSnapshot.Some?
      ensures old(open) ==> r.Success? && View() == old(View())
      ensures !old(open) && r.Failure? ==> !open
      ensures !old(open) && r.Success? && |old(sys).published| > 0 ==>
                && View().Content() == DurableLog(old(sys))
                && commitSeq == old(sys).published[|old(sys).published| - 1].mark
      ensures !old(open) && |old(sys).published| > 0 && store.readFaults == old(store.readFaults) && r.Failure?
              ==> r == Failure(IO_ERROR)
      ensures Trouble() >= old(Trouble()) && (r.Failure? ==> Trouble() > old(Trouble()))
    {
      hide Inv, Run, Apply, Committed;
      if open {
        return Success(());
      }
      RunKeepsInv(trace);
      StoredIffPublished(sys);
      var manifest := ReadManifest();
      if manifest.Failure? {
        return Failure(manifest.error);
      }
      if manifest.value.Some? {
        r := OpenFrom(manifest.value.value);
        if r.Success? && lastDurableWalBytes > 0 {
          var ok := store.Put(ChangeLogKey(opsSinceSnapshot), Note);
          LogStep(sys, opsSinceSnapshot, ok);
          Step(PutLog(opsSinceSnapshot, ok));
          if !ok {
            CloseProject();
            return Failure(IO_ERROR);
          }
        }
      } else {
        r := OpenFresh();
      }
    }

    /** An empty database and zeroed counters, waiting for the first snapshot. */
    method StartFresh()
      requires Valid() && !open && LoadManifest(store.objects) == Success(None)
      modifies this
      ensures Valid() && open && View() == FreshProject() && trace == old(trace) + [Event.OpenFresh]
      ensures sys.phase == Compact(Upload, None) && refusals == old(refusals)
    {
      hide Inv, Run, Apply, LoadManifest;
      FreshStep(sys);
      open, db, wal := true, [], [];
      generation, commitSeq, currentSnapshot, walSegments := 0, 0, None, [];
      lastDurableWalBytes, nextWalSegmentId, opsSinceSnapshot := 0, 0, 0;
      Step(Event.OpenFresh);
    }

    method OpenFresh() returns (r: Result<(), ApiError>)
      requires Valid() && !open && LoadManifest(store.objects) == Success(None)
      modifies this, store
      ensures Valid() && old(trace) <= trace
      ensures r.Success? ==> open && sys.phase == Idle && currentSnapshot.Some?
      ensures r.Failure? ==> !open
      ensures Trouble() >= old(Trouble()) && (r.Failure? ==> Trouble() > old(Trouble()))
    {
      hide Inv, Run, Apply, Committed, Vacuum, AfterSwap, LoadManifest, FreshProject;
      StartFresh();
      r := EnsureWriterLease();
      if r.Success? {
        r := PersistSnapshot(None);
      }
      if r.Failure? && open {
        CloseProject();
      }
    }

    /** Dropping the handle and the local cache: eviction, hibernation's last step, or a crash. */
    method CloseProject()
      requires Valid()
      modifies this`open, this`sys, this`trace
      ensures Valid() && !open && old(trace) <= trace && sys.acks == old(sys.acks)
      ensures sys.published == old(sys.published)
    {
      hide Inv, Run;
      open := false;
      Step(Crash);
    }

    /** `hibernate`: one last compaction; the cache goes away whether or not it succeeds. */
    method Hibernate() returns (r: Result<(), ApiError>)
      requires Valid() && (open ==> sys.phase == Idle && currentSnapshot.Some?)
      modifies this, store
      ensures Valid() && !open && old(trace) <= trace && sys.acks == old(sys.acks)
      ensures r.Success? && old(open) ==> DurableLog(sys) == old(View()).Content()
      ensures Trouble() >= old(Trouble()) && (r.Failure? ==> Trouble() > old(Trouble()))
    {
      hide Inv, Run, Apply, Committed, Vacuum;
      r := Success(());
      if open {
        r := EnsureWriterLease();
        if r.Success? {
          IdleStep(sys);
          Step(StartCompaction);
          ghost var before := View();
          r := PersistSnapshot(None);
          if r.Success? {
            RunKeepsInv(trace);
            EmptyChainIsDurable(sys);
          }
        }
      }
      CloseProject();
    }
  }

  function Prepend(file: Blob, r: Result<Blob, ApiError>): Result<Blob, ApiError> {
    match r
    case Success(rest) => Success(file + rest)
    case Failure(e) => Failure(e)
  }

  lemma PrependNothing(r: Result<Blob, ApiError>)
    ensures Prepend([], r) == r
  {
    if r.Success? {
      assert [] + r.value == r.value;
    }
  }

  lemma PrependTwice(a: Blob, b: Blob, r: Result<Blob, ApiError>)
    ensures Prepend(a, Prepend(b, r)) == Prepend(a + b, r)
  {
    if r.Success? {
      assert a + (b + r.value) == a + b + r.value;
    }
  }

  lemma VerifiedLength(store: Store, key: Key, len: nat, sha: Digest)
    ensures ReadVerified(store, key, len, sha).Success? ==> |ReadVerified(store, key, len, sha).value| == len
  {
  }

  lemma ReadFailsOneWay(store: Store, key: Key, len: nat, sha: Digest)
    ensures ReadVerified(store, key, len, sha).Failure? ==> ReadVerified(store, key, len, sha).error == UNAVAILABLE
  {
  }

  lemma ManifestIsPublished(s: Sys)
    requires Inv(s) && LoadManifest(s.store).Success? && LoadManifest(s.store).value.Some?
    ensures |s.published| > 0 && LoadManifest(s.store) == Success(Some(Stored(s)))
    ensures s.published[|s.published| - 1].mark == Stored(s).commitSeq
  {
    hide WarmOk, HistoryOk, AckOk, ManifestOk;
  }

  lemma StoredIffPublished(s: Sys)
    requires Inv(s)
    ensures |s.published| > 0 ==> LoadManifest(s.store) == Success(Some(Stored(s)))
    ensures |s.published| == 0 ==> LoadManifest(s.store) == Success(None)
  {
    hide WarmOk, HistoryOk, AckOk, ManifestOk;
  }

  lemma RestoreParts(store: Store, m: Manifest)
    ensures
      var base, wal := ReadVerified(store, m.snapshot.key, m.snapshot.bytes, m.snapshot.sha), RestoreWal(store, m);
      && (Restore(store, m).Success? <==> base.Success? && wal.Success?)
      && (Restore(store, m).Success? ==> Restore(store, m).value == Image(base.value, wal.value))
  {
    hide ReadVerified, RestoreWal;
  }

  /** The stored manifest, when there is a readable one, is not of a newer generation. */
  predicate Untroubled(stored: Result<Option<Manifest>, ApiError>, generation: nat) {
    stored.Success? && stored.value.Some? ==> stored.value.value.generation <= generation
  }

  /** Until the switch of a compaction the stored manifest is of the writer's generation. */
  lemma StoredIsNotNewer(s: Sys)
    requires Inv(s) && s.project.Some? && !(s.phase.Compact? && (s.phase.stage.Swap? || s.phase.stage.Sweep?))
    ensures Untroubled(LoadManifest(s.store), s.project.value.generation)
  {
    hide ManifestOk, PhaseOk, HistoryOk, AckOk, Accounted, SegmentsHold, ChainOk, VolatileAhead, Committed, Shipped;
  }

  lemma OpenStep(s: Sys, m: Manifest, image: Image)
    requires s.project.None? && LoadManifest(s.store) == Success(Some(m)) && Restore(s.store, m) == Success(image)
    ensures Apply(s, Open) == Some(s.(project := Some(OpenProject(m, image)), phase := Idle))
  {
  }

  lemma FreshStep(s: Sys)
    requires s.project.None? && LoadManifest(s.store) == Success(None)
    ensures Apply(s, OpenFresh) == Some(s.(project := Some(FreshProject()), phase := Compact(Upload, None)))
  {
  }

  lemma IdleStep(s: Sys)
    requires s.project.Some? && s.phase == Idle
    ensures Apply(s, StartCompaction) == Some(s.(phase := Compact(Upload, None)))
  {
  }

  /** With no WAL at all, the live log is the durable one. */
  lemma EmptyChainIsDurable(s: Sys)
    requires Inv(s) && s.phase.Idle? && s.project.Some? && s.project.value.image.wal == []
    ensures s.project.value.Content() == DurableLog(s)
  {
    hide HistoryOk, AckOk, ManifestOk, Accounted, SegmentsHold, ChainOk, VolatileAhead;
    var p := s.project.value;
    ManifestBehindLive(s.store, p, Stored(s));
    ShippedPrefix(Stored(s).segments, p.segments);
    assert Shipped(Stored(s).segments) == [];
  }

  lemma ExecuteStep(s: Sys, p: Project, jobs: seq<Job>)
    requires s.project == Some(p) && s.phase == Idle
    requires forall i :: 0 <= i < |jobs| ==> HonestJob(jobs[i])
    ensures
      var b := RunJobs(p, jobs);
      Apply(s, Execute(jobs))
      == Some(s.(project := Some(b.project), phase := if CommittedSlots(b.slots) > 0 then Flush(b.slots) else Idle))
  {
  }

  lemma DurableNamesBatch(s: Sys)
    requires Inv(s) && s.phase.Durable? && s.project.Some?
    ensures SlotsOk(s.phase.pending.slots, DurableLog(s), s.project.value.commitSeq)
  {
    hide ManifestOk, LiveOk, AckOk, SlotOk;
    PendingInDurableLog(s, s.phase.pending);
  }

  lemma NoJobs(p: Project, jobs: seq<Job>)
    ensures RunJobs(p, jobs[..0]) == Batch(p, []) && CommittedSlots([]) == 0
  {
  }

  lemma OneMoreJob(p: Project, jobs: seq<Job>, i: nat, q: Project, slots: seq<Slot>)
    requires i < |jobs| && RunJobs(p, jobs[..i]) == Batch(q, slots)
    ensures
      var r := ExecJob(q.Content(), q.commitSeq, jobs[i]);
      var slot := Slot(jobs[i], r.result, r.committed, |q.Content()|);
      && RunJobs(p, jobs[..i + 1])
         == Batch(q.(image := Image(q.image.base, q.image.wal + r.frames)), slots + [slot])
      && CommittedSlots(slots + [slot]) == CommittedSlots(slots) + if slot.committed then 1 else 0
  {
    hide ExecJob, Committed;
    var more := jobs[..i + 1];
    assert more[..|more| - 1] == jobs[..i] && more[|more| - 1] == jobs[i];
    assert RunJobs(p, more) == RunJob(Batch(q, slots), jobs[i]);
    hide RunJobs;
    var r := ExecJob(q.Content(), q.commitSeq, jobs[i]);
    var slot := Slot(jobs[i], r.result, r.committed, |q.Content()|);
    assert (slots + [slot])[..|slots|] == slots;
  }

  /** The shrink branch of `durabilize_wal` cannot be reached: the WAL only grows in a generation. */
  lemma NeverShrinks(s: Sys)
    requires Inv(s) && s.project.Some? && s.phase.Flush?
    ensures s.project.value.durable <= |s.project.value.image.wal|
  {
    hide ManifestOk, HistoryOk, AckOk, SlotsOk, Accounted, VolatileAhead, ChainOk, Shipped, Committed;
  }

  lemma FlushStep(s: Sys, p: Project, slots: seq<Slot>)
    requires s.project == Some(p) && s.phase == Flush(slots) && p.durable <= |p.image.wal|
    ensures
      var store := if p.durable < |p.image.wal|
                   then s.store[WalKey(p.nextId) := Data(p.image.wal[p.durable..])] else s.store;
      && Apply(s, ShipSegment(true)) == Some(s.(store := store, project := Some(AfterShip(p, slots)), phase := Sent(slots)))
      && (p.durable < |p.image.wal| ==> Apply(s, ShipSegment(false)) == Some(s.(phase := Idle)))
      && Apply(s, LoseLease) == Some(s.(phase := Idle))
  {
  }

  lemma KeepsSnapshot(p: Project, slots: seq<Slot>)
    requires p.durable <= |p.image.wal|
    ensures AfterShip(p, slots).snapshot == p.snapshot
  {
  }

  lemma PublishStep(s: Sys, p: Project, slots: seq<Slot>)
    requires s.project == Some(p) && s.phase == Sent(slots) && p.snapshot.Some?
    ensures Apply(s, PutManifest(false)) == Some(s.(phase := Idle))
    ensures Apply(s, PutManifest(true))
            == Some(Publish(s, ManifestOf(p)).(phase := Durable(Pending(slots, |s.published|))))
  {
  }

  lemma DurableSteps(s: Sys, p: Project)
    requires s.project == Some(p) && s.phase.Durable?
    ensures
      var pending := s.phase.pending;
      && Apply(s, FailFlush) == Some(s.(phase := Idle))
      && Apply(s, StartCompaction) == Some(s.(phase := Compact(Upload, Some(pending))))
      && Apply(s, Answer)
         == Some(s.(acks := s.acks + AcksOf(pending.slots, p.commitSeq, pending.version), phase := Idle))
  {
  }

  lemma UploadStep(s: Sys, p: Project, ok: bool)
    requires s.project == Some(p) && s.phase.Compact? && s.phase.stage.Upload?
    ensures
      Apply(s, PutSnapshot(ok)) ==
        Some(if !ok then LeaveCompaction(s)
             else s.(store := s.store[SnapshotKey(p.generation + 1) := Data(SnapshotBlob(p))],
                     phase := Compact(Switch, s.phase.waiting)))
  {
    hide SnapshotBlob;
  }

  lemma SwitchStep(s: Sys, p: Project, ok: bool)
    requires s.project == Some(p) && s.phase.Compact? && s.phase.stage.Switch?
    ensures
      var t := Apply(s, PutSwitch(ok));
      && t.Some?
      && (!ok ==> t.value == LeaveCompaction(s))
      && (ok ==>
            && t.value.store == s.store[ManifestKey := Doc(CompactManifest(p))] && t.value.acks == s.acks
            && t.value.project == s.project && t.value.phase == Compact(Swap, s.phase.waiting))
  {
    hide CompactManifest, ShippedImage, Committed;
  }

  lemma CompactionSteps(s: Sys, p: Project)
    requires s.project == Some(p) && s.phase.Compact?
    ensures s.phase.stage.Swap? ==>
              Apply(s, SwapCache) == Some(s.(project := Some(AfterSwap(p)), phase := Compact(Sweep, s.phase.waiting)))
    ensures s.phase.stage.Sweep? ==> Apply(s, FinishCompaction) == Some(LeaveCompaction(s))
  {
  }

  lemma DeleteStep(s: Sys, gone: set<Key>)
    requires s.project.Some? && s.phase.Compact? && s.phase.stage.Sweep? && forall k :: k in gone ==> k.WalKey?
    ensures Apply(s, DeleteSegments(gone)) == Some(s.(store := s.store - gone))
  {
  }

  lemma LogStep(s: Sys, entry: nat, ok: bool)
    requires s.project.Some?
    requires s.phase.Idle? || s.phase.Durable? || (s.phase.Compact? && s.phase.stage.Sweep?)
    ensures Apply(s, PutLog(entry, ok)) == Some(Logged(s, entry, ok))
  {
  }

  lemma SameAfterSwap(p: Project)
    ensures AfterSwap(p).Content() == p.Content()
  {
    VacuumKeepsLog(p.Content());
  }
}
