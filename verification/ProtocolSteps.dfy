/** Every step of the write-path machine keeps its invariant. */
module ProtocolSteps {
  import opened Wrappers
  import opened Database
  import opened Storage
  import opened Protocol

  // ---- Segments ----------------------------------------------------------

  lemma ChainPrefix(a: seq<SegmentRef>, b: seq<SegmentRef>)
    requires ChainOk(b) && a <= b
    ensures ChainOk(a)
  {
    forall i | 0 <= i < |a|
      ensures a[i].offset == |Shipped(a[..i])|
    {
      assert a[..i] == b[..i];
    }
  }

  lemma ChainSnoc(segs: seq<SegmentRef>, s: SegmentRef)
    requires ChainOk(segs)
    requires s.id == |segs| && s.key == WalKey(s.id) && s.len == |s.sha.of| && s.offset == |Shipped(segs)|
    ensures ChainOk(segs + [s])
    ensures Shipped(segs + [s]) == Shipped(segs) + s.sha.of
  {
    hide Shipped;
    var all := segs + [s];
    forall i | 0 <= i < |all|
      ensures all[..i] == if i < |segs| then segs[..i] else segs
    {
    }
    ShippedConcat(segs, [s]);
    ShippedOne(s);
  }

  lemma {:induction false} ChainTotals(segs: seq<SegmentRef>)
    requires ChainOk(segs)
    ensures TotalLen(segs) == |Shipped(segs)| && NextId(segs) == |segs|
  {
    if |segs| > 0 {
      ChainPrefix(segs[..|segs| - 1], segs);
      ChainTotals(segs[..|segs| - 1]);
    }
  }

  lemma ChainIsContiguous(m: Manifest)
    requires ChainOk(m.segments) && m.durableBytes == |Shipped(m.segments)|
    ensures Contiguous(m)
  {
    ChainTotals(m.segments);
    forall i | 0 <= i < |m.segments|
      ensures m.segments[i].offset == TotalLen(m.segments[..i])
    {
      ChainPrefix(m.segments[..i], m.segments);
      ChainTotals(m.segments[..i]);
    }
  }

  /** A stored manifest that satisfies the invariant always restores. */
  lemma ManifestRestores(store: Store, m: Manifest)
    requires ManifestOk(store, m)
    ensures Restore(store, m) == Success(ShippedImage(m))
  {
    ChainIsContiguous(m);
    RestoreFailsClosed(store, m);
  }

  // ---- Logs ----------------------------------------------------------------

  lemma LongerWal(base: Blob, a: Blob, b: Blob)
    requires a <= b
    ensures Image(base, a).Content() <= Image(base, b).Content()
  {
    CommittedPrefix(a, b);
  }

  /** What the manifest names is a prefix of the live log. */
  lemma ManifestBehindLive(store: Store, p: Project, m: Manifest)
    requires LiveOk(store, p, m)
    ensures ShippedImage(m).Content() <= p.Content()
  {
    ShippedPrefix(m.segments, p.segments);
    assert Shipped(p.segments) <= p.image.wal;
    LongerWal(p.image.base, Shipped(m.segments), p.image.wal);
  }

  lemma SlotsGrow(slots: seq<Slot>, a: Log, b: Log, mark: nat)
    requires SlotsOk(slots, a, mark) && a <= b
    ensures SlotsOk(slots, b, mark)
  {
    forall i | 0 <= i < |slots|
      ensures SlotOk(slots[i], b, mark)
    {
      assert SlotOk(slots[i], a, mark);
    }
  }

  // ---- Running a batch -------------------------------------------------------

  ghost predicate BatchOk(p: Project, b: Batch) {
    var q := b.project;
    && q == p.(image := q.image) && q.image.base == p.image.base
    && p.image.wal <= q.image.wal
    && p.Content() <= q.Content()
    && Accounted(q.Content())
    && SlotsOk(b.slots, q.Content(), SatInc(p.commitSeq))
    && SlotsAfter(b.slots, |p.Content()|)
    && (forall i :: |p.Content()| <= i < |q.Content()| && q.Content()[i].Record? ==>
          q.Content()[i].row.mark == SatInc(p.commitSeq) && RowOk(q.Content()[i].row))
  }

  lemma RunJobContent(b: Batch, job: Job)
    ensures RunJob(b, job).project.Content()
         == b.project.Content() + ExecTxs(b.project.Content(), b.project.commitSeq, job)
  {
    var p := b.project;
    var r := ExecJob(p.Content(), p.commitSeq, job);
    CommittedConcat(p.image.wal, r.frames);
    ExecAppends(p.Content(), p.commitSeq, job);
  }

  lemma NewSlotOk(log: Log, commitSeq: nat, job: Job)
    ensures
      var r := ExecJob(log, commitSeq, job);
      SlotOk(Slot(job, r.result, r.committed, |log|), log + ExecTxs(log, commitSeq, job), SatInc(commitSeq))
  {
    if job.outcome.Done? {
      WithBookmarkCarries(job.outcome.value, SatInc(commitSeq));
    }
    var txs := ExecTxs(log, commitSeq, job);
    assert (log + txs)[|log|..|log| + |txs|] == txs;
  }

  lemma RunJobOk(p: Project, b: Batch, job: Job)
    requires BatchOk(p, b)
    ensures BatchOk(p, RunJob(b, job))
  {
    var log := b.project.Content();
    var txs := ExecTxs(log, p.commitSeq, job);
    var c := RunJob(b, job);
    RunJobContent(b, job);
    assert c.project.Content() == log + txs;
    ExecKeepsAccounts(log, p.commitSeq, job);
    SlotsGrow(b.slots, log, log + txs, SatInc(p.commitSeq));
    NewSlotOk(log, p.commitSeq, job);
    if Records(job) {
      WithBookmarkCarries(job.outcome.value, SatInc(p.commitSeq));
    }
    forall i | |log| <= i < |log + txs| && (log + txs)[i].Record?
      ensures (log + txs)[i].row.mark == SatInc(p.commitSeq) && RowOk((log + txs)[i].row)
    {
      assert (log + txs)[i] == txs[i - |log|];
    }
  }

  lemma {:induction false} RunJobsOk(p: Project, jobs: seq<Job>)
    requires Accounted(p.Content())
    ensures BatchOk(p, RunJobs(p, jobs))
  {
    if |jobs| > 0 {
      RunJobsOk(p, jobs[..|jobs| - 1]);
      RunJobOk(p, RunJobs(p, jobs[..|jobs| - 1]), jobs[|jobs| - 1]);
    }
  }

  // ---- The steps ---------------------------------------------------------------

  lemma ExecuteLive(store: Store, p: Project, m: Manifest, b: Batch)
    requires LiveOk(store, p, m) && BatchOk(p, b)
    ensures LiveOk(store, b.project, m)
  {
    hide Accounted, Committed, ChainOk, SlotsOk;
    var q := b.project;
    assert q.image.wal[..q.durable] == p.image.wal[..p.durable];
    VolatileGrows(p.Content(), q.Content(), |ShippedImage(m).Content()|, m.commitSeq, p.commitSeq);
    MarksGrow(p.Content(), q.Content(), SatInc(p.commitSeq));
  }

  lemma MarksGrow(a: Log, b: Log, bound: nat)
    requires a <= b && RowsUpTo(a, bound)
    requires forall i :: |a| <= i < |b| && b[i].Record? ==> b[i].row.mark <= bound && RowOk(b[i].row)
    ensures RowsUpTo(b, bound)
  {
    hide RowOk;
    forall i | 0 <= i < |b| && b[i].Record? ensures b[i].row.mark <= bound && RowOk(b[i].row) {
      if i < |a| {
        assert b[i] == a[i];
      }
    }
  }

  lemma VolatileGrows(a: Log, b: Log, durable: nat, mark: nat, live: nat)
    requires a <= b && mark <= live <= U64_MAX && VolatileAhead(a, durable, mark)
    requires forall i :: |a| <= i < |b| && b[i].Record? ==> b[i].row.mark == SatInc(live)
    ensures VolatileAhead(b, durable, mark)
  {
    forall i | durable <= i < |b| && b[i].Record?
      ensures mark < b[i].row.mark || b[i].row.mark == U64_MAX
    {
      if i < |a| {
        assert b[i] == a[i];
      }
    }
  }

  lemma ExecuteKeeps(s: Sys, jobs: seq<Job>)
    requires Inv(s) && Apply(s, Execute(jobs)).Some?
    ensures Inv(Apply(s, Execute(jobs)).value)
  {
    hide RowsUpTo, Accounted, HistoryOk, AckOk, Shipped, Committed, ChainOk, ManifestOk, ExecJob, RunJobs,
      VolatileAhead, SlotsOk;
    var p := s.project.value;
    var m := s.store[ManifestKey].manifest;
    RunJobsOk(p, jobs);
    ExecuteLive(s.store, p, m, RunJobs(p, jobs));
    ManifestBehindLive(s.store, p, m);
    assert |DurableLog(s)| <= |p.Content()|;
  }

  lemma ShipLive(store: Store, p: Project, m: Manifest, slots: seq<Slot>)
    requires LiveOk(store, p, m) && ManifestOk(store, m)
    ensures
      var q := AfterShip(p, slots);
      var store' := if p.durable < |p.image.wal|
                    then store[WalKey(p.nextId) := Data(p.image.wal[p.durable..])] else store;
      && LiveOk(store', q, m) && ManifestOk(store', m)
      && q.Content() == p.Content() && q.durable == |q.image.wal|
      && RowsUpTo(q.Content(), q.commitSeq)
  {
    hide Accounted, Committed, VolatileAhead, CommittedSlots, Shipped, ChainOk, ManifestOk, SegmentsHold, RowsUpTo;
    var wal := p.image.wal;
    assert wal[..p.durable] + wal[p.durable..] == wal == wal[..|wal|];
    MarksMono(p.Content(), SatInc(p.commitSeq), SatInc(SatInc(p.commitSeq)));
    if p.durable < |wal| {
      ChainGrows(p);
      StoreNewSegment(store, p, m);
    }
  }

  lemma MarksMono(log: Log, a: nat, b: nat)
    requires RowsUpTo(log, a) && a <= b
    ensures RowsUpTo(log, b)
  {
  }

  lemma ChainGrows(p: Project)
    requires ChainOk(p.segments) && p.durable < |p.image.wal|
    requires Shipped(p.segments) == p.image.wal[..p.durable] && p.nextId == |p.segments|
    ensures ChainOk(p.segments + [NewSegment(p)])
    ensures Shipped(p.segments + [NewSegment(p)]) == p.image.wal[..p.durable] + p.image.wal[p.durable..]
  {
    ChainSnoc(p.segments, NewSegment(p));
  }

  lemma ShipKeeps(s: Sys, ok: bool)
    requires Inv(s) && Apply(s, ShipSegment(ok)).Some?
    ensures Inv(Apply(s, ShipSegment(ok)).value)
  {
    hide Accounted, HistoryOk, AckOk, Shipped, Committed, ChainOk, ManifestOk, VolatileAhead, SlotsOk,
      SegmentsHold, RowsUpTo;
    var p := s.project.value;
    var m := s.store[ManifestKey].manifest;
    ShipLive(s.store, p, m, s.phase.slots);
  }

  /** The new segment's key is not one the manifest, or the live segment list, names. */
  lemma StoreNewSegment(store0: Store, p: Project, m: Manifest)
    requires LiveOk(store0, p, m) && ManifestOk(store0, m)
    requires p.durable <= |p.image.wal|
    ensures
      var store := store0[WalKey(p.nextId) := Data(p.image.wal[p.durable..])];
      ManifestOk(store, m) && SegmentsHold(store, p.segments + [NewSegment(p)])
  {
    hide Shipped, ShippedImage, Committed, Accounted, RowsUpTo, VolatileAhead;
    var store := store0[WalKey(p.nextId) := Data(p.image.wal[p.durable..])];
    forall i | 0 <= i < |p.segments|
      ensures Holds(store, p.segments[i].key, p.segments[i].len, p.segments[i].sha)
    {
      assert Holds(store0, p.segments[i].key, p.segments[i].len, p.segments[i].sha);
    }
    forall i | 0 <= i < |m.segments|
      ensures Holds(store, m.segments[i].key, m.segments[i].len, m.segments[i].sha)
    {
      assert m.segments[i] == p.segments[i];
    }
  }

  lemma PublishHistory(pub: seq<Version>, v: Version)
    requires HistoryOk(pub) && Accounted(v.log) && RowsUpTo(v.log, SatInc(v.mark))
    requires |pub| > 0 ==> pub[|pub| - 1].mark <= v.mark && pub[|pub| - 1].log <= v.log
    ensures HistoryOk(pub + [v])
  {
    var all := pub + [v];
    forall i, j | 0 <= i <= j < |all|
      ensures all[i].mark <= all[j].mark && all[i].log <= all[j].log
    {
      if i < |pub| && j == |pub| {
        assert pub[i].mark <= pub[|pub| - 1].mark && pub[i].log <= pub[|pub| - 1].log;
      }
    }
  }

  lemma AcksSurvive(acks: seq<Ack>, pub: seq<Version>, v: Version)
    requires forall i :: 0 <= i < |acks| ==> AckOk(acks[i], pub)
    ensures forall i :: 0 <= i < |acks| ==> AckOk(acks[i], pub + [v])
  {
    forall i | 0 <= i < |acks| ensures AckOk(acks[i], pub + [v]) {
      assert AckOk(acks[i], pub);
    }
  }

  lemma PutManifestKeeps(s: Sys, ok: bool)
    requires Inv(s) && Apply(s, PutManifest(ok)).Some?
    ensures Inv(Apply(s, PutManifest(ok)).value)
  {
    hide Inv, Apply;
    PutManifestState(s, ok);
    if ok && s.project.value.snapshot.Some? {
      FlushPublishes(s);
    } else {
      UnpublishedStays(s);
    }
  }

  lemma PutManifestState(s: Sys, ok: bool)
    requires Apply(s, PutManifest(ok)).Some?
    ensures s.phase.Sent? && s.project.Some?
    ensures
      var p := s.project.value;
      Apply(s, PutManifest(ok)).value ==
        if p.snapshot.None? || !ok then s.(phase := Idle)
        else Publish(s, ManifestOf(p)).(phase := Durable(Pending(s.phase.slots, |s.published|)))
  {
    hide Committed, Shipped, ShippedImage;
  }

  lemma UnpublishedStays(s: Sys)
    requires Inv(s) && s.phase.Sent? && s.project.Some?
    ensures Inv(s.(phase := Idle))
  {
    hide RowsUpTo, Accounted, AckOk, SlotsOk, Committed, ManifestOk, LiveOk, HistoryOk, Shipped, ShippedImage;
  }

  lemma FlushPublishes(s: Sys)
    requires Inv(s) && s.phase.Sent? && s.project.Some? && s.project.value.snapshot.Some?
    ensures Inv(Publish(s, ManifestOf(s.project.value)).(phase := Durable(Pending(s.phase.slots, |s.published|))))
  {
    hide RowsUpTo, Accounted, AckOk, SlotsOk, Committed, ManifestOk, VolatileAhead, ChainOk, Shipped, SegmentsHold, ShippedImage;
    var p, m := s.project.value, s.store[ManifestKey].manifest;
    FlushManifest(s.store, p, m);
    MarksMono(p.Content(), p.commitSeq, SatInc(p.commitSeq));
    hide LiveOk;
    PublishHistory(s.published, Version(p.commitSeq, p.Content()));
    AcksSurvive(s.acks, s.published, Version(p.commitSeq, p.Content()));
  }

  lemma FlushManifest(store: Store, p: Project, m: Manifest)
    requires LiveOk(store, p, m) && ManifestOk(store, m) && p.durable == |p.image.wal|
    ensures
      var n := ManifestOf(p);
      var store' := store[ManifestKey := Doc(n)];
      && ManifestOk(store', n) && LiveOk(store', p, n)
      && ShippedImage(n).Content() == p.Content()
      && ShippedImage(m).Content() <= p.Content()
  {
    hide Accounted, Committed, Shipped, ChainOk;
    ManifestBehindLive(store, p, m);
    assert p.image.wal[..p.durable] == p.image.wal;
    StoreKeepsSegments(store, store[ManifestKey := Doc(ManifestOf(p))], p.segments);
  }

  lemma StoreKeepsSegments(a: Store, b: Store, segs: seq<SegmentRef>)
    requires SegmentsHold(a, segs) && ChainOk(segs)
    requires forall k: Key :: k.WalKey? && k in a ==> k in b && b[k] == a[k]
    ensures SegmentsHold(b, segs)
  {
    forall i | 0 <= i < |segs| ensures Holds(b, segs[i].key, segs[i].len, segs[i].sha) {
      assert Holds(a, segs[i].key, segs[i].len, segs[i].sha);
    }
  }

  lemma PutLogKeeps(s: Sys, entry: nat, ok: bool)
    requires Inv(s) && Apply(s, PutLog(entry, ok)).Some?
    ensures Inv(Apply(s, PutLog(entry, ok)).value)
  {
    hide RowsUpTo, Accounted, VolatileAhead, HistoryOk, AckOk, PendingOk, SlotsOk, Shipped, Committed, ChainOk;
    if ok && s.published != [] {
      var t := Apply(s, PutLog(entry, ok)).value;
      var p := s.project.value;
      var m := s.store[ManifestKey].manifest;
      StoreKeepsSegments(s.store, t.store, m.segments);
      if LiveOk(s.store, p, m) {
        StoreKeepsSegments(s.store, t.store, p.segments);
        assert LiveOk(t.store, p, m);
      }
    }
  }

  lemma AnswerKeeps(s: Sys)
    requires Inv(s) && Apply(s, Answer).Some?
    ensures Inv(Apply(s, Answer).value)
  {
    hide Inv, Apply, AckOk, AcksOf, PendingOk;
    AnswerState(s);
    PendingIsOk(s);
    var p, pending := s.project.value, s.phase.pending;
    assert PendingOk(pending, s.published, p.commitSeq);
    var more := AcksOf(pending.slots, p.commitSeq, pending.version);
    AcksOfPending(pending, s.published, p.commitSeq);
    MoreAcks(s, more);
  }

  lemma AnswerState(s: Sys)
    requires Apply(s, Answer).Some?
    ensures s.phase.Durable? && s.project.Some?
    ensures
      var p, pending := s.project.value, s.phase.pending;
      Apply(s, Answer).value == s.(acks := s.acks + AcksOf(pending.slots, p.commitSeq, pending.version), phase := Idle)
  {
    hide AcksOf;
  }

  /** An idle state with more acknowledgements that are fine is as fine as before. */
  lemma MoreAcks(s: Sys, more: seq<Ack>)
    requires Inv(s) && s.phase.Durable? && s.project.Some? && |s.published| > 0
    requires forall i :: 0 <= i < |more| ==> AckOk(more[i], s.published)
    ensures Inv(s.(acks := s.acks + more, phase := Idle))
  {
    hide RowsUpTo, Accounted, HistoryOk, AckOk, SlotsOk, Committed, ManifestOk, LiveOk, Shipped, ShippedImage, PendingOk;
  }

  lemma AcksOfPending(pending: Pending, pub: seq<Version>, mark: nat)
    requires PendingOk(pending, pub, mark)
    ensures forall i :: 0 <= i < |AcksOf(pending.slots, mark, pending.version)| ==>
              AckOk(AcksOf(pending.slots, mark, pending.version)[i], pub)
  {
    hide AckOk, AcksOf, FirstWith, SlotsOk, SlotsAfter;
    AcksOfOk(pending.slots, pub, mark, pending.version);
  }

  lemma PendingIsOk(s: Sys)
    requires Inv(s) && s.phase.Durable? && s.project.Some?
    ensures |s.published| > 0 && PendingOk(s.phase.pending, s.published, s.project.value.commitSeq)
  {
    hide RowsUpTo, Accounted, HistoryOk, AckOk, Committed, ManifestOk, LiveOk, Shipped, ShippedImage, PendingOk;
  }

  lemma {:induction false} AcksOfOk(slots: seq<Slot>, pub: seq<Version>, mark: nat, version: nat)
    requires FirstWith(pub, version, mark) && SlotsOk(slots, pub[version].log, mark)
    requires SlotsAfter(slots, LogBefore(pub, version))
    ensures forall i :: 0 <= i < |AcksOf(slots, mark, version)| ==> AckOk(AcksOf(slots, mark, version)[i], pub)
  {
    if |slots| > 0 {
      AcksOfOk(slots[..|slots| - 1], pub, mark, version);
      assert SlotOk(slots[|slots| - 1], pub[version].log, mark);
    }
  }

  lemma SnapshotKeeps(s: Sys, ok: bool)
    requires Inv(s) && Apply(s, PutSnapshot(ok)).Some?
    ensures Inv(Apply(s, PutSnapshot(ok)).value)
  {
    hide RowsUpTo, Accounted, VolatileAhead, HistoryOk, AckOk, PendingOk, SlotsOk, Shipped, Committed, ChainOk;
    if ok && s.published != [] {
      var t := Apply(s, PutSnapshot(ok)).value;
      var p := s.project.value;
      var m := s.store[ManifestKey].manifest;
      StoreKeepsSegments(s.store, t.store, m.segments);
      StoreKeepsSegments(s.store, t.store, p.segments);
      assert ManifestOk(t.store, m);
      assert LiveOk(t.store, p, m);
    }
  }

  lemma SwitchManifest(store: Store, p: Project)
    requires Holds(store, SnapshotKey(p.generation + 1), |SnapshotBlob(p)|, Digest(SnapshotBlob(p)))
    requires p.commitSeq <= U64_MAX
    ensures
      var n := CompactManifest(p);
      ManifestOk(store[ManifestKey := Doc(n)], n) && ShippedImage(n).Content() == p.Content()
  {
    VacuumKeepsLog(p.Content());
  }

  /** Publishing the compacted manifest, once the state it names is known to be sound. */
  lemma SwitchPublishes(s: Sys)
    requires Inv(s) && Apply(s, PutSwitch(true)).Some? && s.project.Some?
    requires Accounted(s.project.value.Content())
    requires RowsUpTo(s.project.value.Content(), SatInc(s.project.value.commitSeq))
    requires s.project.value.commitSeq <= U64_MAX
    requires |s.published| > 0 ==>
               && s.published[|s.published| - 1].mark <= s.project.value.commitSeq
               && s.published[|s.published| - 1].log <= s.project.value.Content()
    requires var p := s.project.value;
             Holds(s.store, SnapshotKey(p.generation + 1), |SnapshotBlob(p)|, Digest(SnapshotBlob(p)))
    ensures Inv(Apply(s, PutSwitch(true)).value)
  {
    hide RowsUpTo, AckOk, SlotsOk, Committed, Vacuum, ManifestOk, ShippedImage, Accounted, HistoryOk,
      LiveOk, FirstWith,
      Holds;
    var p := s.project.value;
    var v := Version(p.commitSeq, p.Content());
    SwitchManifest(s.store, p);
    PublishHistory(s.published, v);
    AcksSurvive(s.acks, s.published, v);
    if s.phase.waiting.Some? {
      PendingSurvives(s.phase.waiting.value, s.published, v, p.commitSeq);
    }
  }

  lemma PendingSurvives(pending: Pending, pub: seq<Version>, v: Version, mark: nat)
    requires PendingOk(pending, pub, mark)
    ensures PendingOk(pending, pub + [v], mark)
  {
    hide SlotsOk;
  }

  lemma SwitchKeeps(s: Sys, ok: bool)
    requires Inv(s) && Apply(s, PutSwitch(ok)).Some?
    ensures Inv(Apply(s, PutSwitch(ok)).value)
  {
    hide RowsUpTo, AckOk, SlotsOk, Committed, Vacuum, ManifestOk, ShippedImage, VolatileAhead, SegmentsHold,
      AccountedKey,
      ChainOk, Shipped, PendingOk, Accounted, HistoryOk;
    if ok {
      if s.published == [] {
        EmptyLogAccounted();
        FreshIsEmpty();
      } else {
        ManifestBehindLive(s.store, s.project.value, s.store[ManifestKey].manifest);
      }
      SwitchPublishes(s);
    }
  }

  lemma FreshIsEmpty()
    ensures FreshProject().Content() == [] && RowsUpTo([], 1)
  {
  }

  lemma EmptyLogAccounted()
    ensures Accounted([])
  {
    forall key: string ensures AccountedKey([], key) {
    }
  }

  lemma SwapLive(store: Store, p: Project)
    requires ManifestOk(store, CompactManifest(p)) && Accounted(p.Content())
    requires RowsUpTo(p.Content(), SatInc(p.commitSeq))
    ensures LiveOk(store, AfterSwap(p), CompactManifest(p))
  {
    hide Accounted;
    VacuumKeepsLog(p.Content());
    assert AfterSwap(p).Content() == p.Content() == ShippedImage(CompactManifest(p)).Content();
  }

  lemma SwapKeeps(s: Sys)
    requires Inv(s) && Apply(s, SwapCache).Some?
    ensures Inv(Apply(s, SwapCache).value)
  {
    hide RowsUpTo, Accounted, AckOk, SlotsOk, Committed, Vacuum, HistoryOk, PendingOk, ManifestOk, LiveOk;
    SwapLive(s.store, s.project.value);
  }

  lemma DeleteKeeps(s: Sys, gone: set<Key>)
    requires Inv(s) && Apply(s, DeleteSegments(gone)).Some?
    ensures Inv(Apply(s, DeleteSegments(gone)).value)
  {
    hide RowsUpTo, Accounted, VolatileAhead, HistoryOk, AckOk, PendingOk, SlotsOk, Shipped, Committed, ChainOk;
    var t := Apply(s, DeleteSegments(gone)).value;
    if s.published != [] {
      var p := s.project.value;
      var m := s.store[ManifestKey].manifest;
      assert m.segments == [];
      assert ManifestOk(t.store, m);
      assert LiveOk(t.store, p, m);
    }
  }

  lemma OpenKeeps(s: Sys)
    requires Inv(s) && Apply(s, Open).Some?
    ensures Inv(Apply(s, Open).value)
  {
    var t := Apply(s, Open).value;
    var m := s.store[ManifestKey].manifest;
    ManifestRestores(s.store, m);
    ChainTotals(m.segments);
    var p := t.project.value;
    assert p.image.wal[..p.durable] == p.image.wal;
    assert LiveOk(t.store, p, m);
  }

  /** Giving up on a flush, or on a lease. */
  lemma GivingUpKeeps(s: Sys, e: Event)
    requires Inv(s) && Apply(s, e).Some? && (e.LoseLease? || e.FailFlush?)
    ensures Inv(Apply(s, e).value)
  {
    hide LiveOk, ManifestOk, HistoryOk, AckOk, PendingOk, RowsUpTo, Accounted, Restore, RunJobs, Committed,
      Shipped, SlotsOk, SlotsAfter, Holds, Vacuum, AcksOf, ShippedImage;
  }

  lemma CompactionKeeps(s: Sys, e: Event)
    requires Inv(s) && Apply(s, e).Some? && (e.StartCompaction? || e.FinishCompaction?)
    ensures Inv(Apply(s, e).value)
  {
    hide LiveOk, ManifestOk, HistoryOk, AckOk, PendingOk, RowsUpTo, Accounted, Restore, RunJobs, Committed,
      Shipped, SlotsOk, SlotsAfter, Holds, Vacuum, AcksOf, ShippedImage;
  }

  lemma CrashKeeps(s: Sys, e: Event)
    requires Inv(s) && Apply(s, e).Some? && (e.Crash? || e.OpenFresh?)
    ensures Inv(Apply(s, e).value)
  {
    hide LiveOk, ManifestOk, HistoryOk, AckOk, PendingOk, RowsUpTo, Accounted, Restore, RunJobs, Committed,
      Shipped, SlotsOk, SlotsAfter, Holds, Vacuum, AcksOf, ShippedImage;
  }

  /** The invariant of every step. */
  lemma StepKeepsInv(s: Sys, e: Event)
    requires Inv(s) && Apply(s, e).Some?
    ensures Inv(Apply(s, e).value)
  {
    hide *;
    match e
    case Execute(jobs) => ExecuteKeeps(s, jobs);
    case ShipSegment(ok) => ShipKeeps(s, ok);
    case PutManifest(ok) => PutManifestKeeps(s, ok);
    case PutLog(entry, ok) => PutLogKeeps(s, entry, ok);
    case Answer => AnswerKeeps(s);
    case PutSnapshot(ok) => SnapshotKeeps(s, ok);
    case PutSwitch(ok) => SwitchKeeps(s, ok);
    case SwapCache => SwapKeeps(s);
    case DeleteSegments(gone) => DeleteKeeps(s, gone);
    case Open => OpenKeeps(s);
    case LoseLease => GivingUpKeeps(s, e);
    case FailFlush => GivingUpKeeps(s, e);
    case StartCompaction => CompactionKeeps(s, e);
    case FinishCompaction => CompactionKeeps(s, e);
    case _ => CrashKeeps(s, e);
  }

  lemma {:induction false} RunFromKeepsInv(s: Sys, es: seq<Event>)
    requires Inv(s) && Run(s, es).Some?
    ensures Inv(Run(s, es).value)
  {
    hide Inv, Apply;
    if |es| > 0 {
      RunFromKeepsInv(s, es[..|es| - 1]);
      StepKeepsInv(Run(s, es[..|es| - 1]).value, es[|es| - 1]);
    }
  }

  /** The invariant holds in every state a run from the empty store reaches. */
  lemma RunKeepsInv(es: seq<Event>)
    requires Run(Init(), es).Some?
    ensures Inv(Run(Init(), es).value)
  {
    RunFromKeepsInv(Init(), es);
  }
}
