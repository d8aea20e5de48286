/**
 The durable write path as a state machine whose steps are the single store operations of
 execute_write_batch, durabilize_wal, persist_snapshot and ensure_project
 (rust-core/src/runtime.rs). A crash may happen between any two steps.
 */
module Protocol {
  import opened Wrappers
  import opened Database
  import opened Storage

  // ---- State ------------------------------------------------------------

  /** `ProjectState`, with the local database and WAL files as an image. */
  datatype Project = Project(
    generation: nat,
    commitSeq: nat,
    snapshot: Option<SnapshotRef>,
    segments: seq<SegmentRef>,
    durable: nat,
    nextId: nat,
    ops: nat,
    image: Image)
  {
    function Content(): Log {
      image.Content()
    }
  }

  /** One job of a batch with its result and the place its transactions took in the log. */
  datatype Slot = Slot(job: Job, result: Result<Value, ApiError>, committed: bool, at: nat)

  datatype Pending = Pending(slots: seq<Slot>, version: nat)

  datatype Stage = Upload | Switch | Swap | Sweep

  /**
   Where the writer stands. Flush: committed locally only. Sent: segment stored, counters
   advanced. Durable: manifest stored, nobody answered yet. Compact: inside persist_snapshot,
   with the batch that waits for it, if any.
   */
  datatype Phase =
    | Idle
    | Flush(slots: seq<Slot>)
    | Sent(slots: seq<Slot>)
    | Durable(pending: Pending)
    | Compact(stage: Stage, waiting: Option<Pending>)

  /** One manifest that was stored: its sequence number and the log it names. */
  datatype Version = Version(mark: nat, log: Log)

  /** A committed job that was answered Ok, and the version that made it durable. */
  datatype Ack = Ack(job: Job, mark: nat, at: nat, version: nat)

  datatype Sys = Sys(
    store: Store,
    project: Option<Project>,
    phase: Phase,
    acks: seq<Ack>,
    published: seq<Version>)

  datatype Event =
    | Open
    | OpenFresh
    | Execute(jobs: seq<Job>)
    | LoseLease
    | ShipSegment(ok: bool)
    | PutManifest(ok: bool)
    | PutLog(entry: nat, ok: bool)
    | FailFlush
    | Answer
    | StartCompaction
    | PutSnapshot(ok: bool)
    | PutSwitch(ok: bool)
    | SwapCache
    | DeleteSegments(gone: set<Key>)
    | FinishCompaction
    | Crash

  // ---- What the steps compute -------------------------------------------

  datatype Batch = Batch(project: Project, slots: seq<Slot>)

  function RunJob(b: Batch, job: Job): Batch {
    var p := b.project;
    var r := ExecJob(p.Content(), p.commitSeq, job);
    Batch(p.(image := Image(p.image.base, p.image.wal + r.frames)),
          b.slots + [Slot(job, r.result, r.committed, |p.Content()|)])
  }

  function RunJobs(p: Project, jobs: seq<Job>): Batch {
    if |jobs| == 0 then Batch(p, [])
    else RunJob(RunJobs(p, jobs[..|jobs| - 1]), jobs[|jobs| - 1])
  }

  function CommittedSlots(slots: seq<Slot>): nat {
    if |slots| == 0 then 0
    else CommittedSlots(slots[..|slots| - 1]) + (if slots[|slots| - 1].committed then 1 else 0)
  }

  function NextId(segs: seq<SegmentRef>): nat {
    if |segs| == 0 then 0
    else
      var before := NextId(segs[..|segs| - 1]);
      if segs[|segs| - 1].id + 1 > before then segs[|segs| - 1].id + 1 else before
  }

  function FreshProject(): Project {
    Project(0, 0, None, [], 0, 0, 0, Image([], []))
  }

  function OpenProject(m: Manifest, image: Image): Project {
    Project(m.generation, m.commitSeq, Some(m.snapshot), m.segments, TotalLen(m.segments),
            NextId(m.segments), m.ops, image)
  }

  function ManifestOf(p: Project): Manifest
    requires p.snapshot.Some?
  {
    Manifest(p.generation, p.commitSeq, p.snapshot.value, p.durable, p.segments, p.ops)
  }

  function NewSegment(p: Project): SegmentRef
    requires p.durable <= |p.image.wal|
  {
    var bytes := p.image.wal[p.durable..];
    SegmentRef(p.nextId, WalKey(p.nextId), p.durable, |bytes|, Digest(bytes))
  }

  /** The state after the segment is stored (or there was nothing to ship). */
  function AfterShip(p: Project, slots: seq<Slot>): Project
    requires p.durable <= |p.image.wal|
  {
    var n := CommittedSlots(slots);
    var q := if p.durable < |p.image.wal|
             then p.(segments := p.segments + [NewSegment(p)], nextId := p.nextId + 1)
             else p;
    q.(durable := |p.image.wal|, ops := p.ops + (if n < 1 then 1 else n), commitSeq := SatInc(p.commitSeq))
  }

  function SnapshotBlob(p: Project): Blob {
    Vacuum(p.Content())
  }

  function CompactSnapshot(p: Project): SnapshotRef {
    SnapshotRef(SnapshotKey(p.generation + 1), |SnapshotBlob(p)|, Digest(SnapshotBlob(p)))
  }

  function CompactManifest(p: Project): Manifest {
    Manifest(p.generation + 1, p.commitSeq, CompactSnapshot(p), 0, [], 0)
  }

  function AfterSwap(p: Project): Project {
    Project(p.generation + 1, p.commitSeq, Some(CompactSnapshot(p)), [], 0, 0, 0, Image(SnapshotBlob(p), []))
  }

  function Publish(s: Sys, m: Manifest): Sys {
    s.(store := s.store[ManifestKey := Doc(m)],
       published := s.published + [Version(m.commitSeq, ShippedImage(m).Content())])
  }

  /** Leaving persist_snapshot, by success or failure: back to the batch that waits, if any. */
  function LeaveCompaction(s: Sys): Sys
    requires s.phase.Compact?
  {
    if s.phase.waiting.Some? then s.(phase := Durable(s.phase.waiting.value))
    else if s.project.Some? && s.project.value.snapshot.None? then s.(project := None, phase := Idle)
    else s.(phase := Idle)
  }

  function AcksOf(slots: seq<Slot>, mark: nat, version: nat): seq<Ack> {
    if |slots| == 0 then []
    else
      var last := slots[|slots| - 1];
      AcksOf(slots[..|slots| - 1], mark, version)
      + (if last.committed && last.result.Success? then [Ack(last.job, mark, last.at, version)] else [])
  }

  // ---- Steps --------------------------------------------------------------

  /** The state after an event, or None when the event cannot happen there. */
  function Apply(s: Sys, e: Event): Option<Sys> {
    match e
    case Crash => Some(s.(project := None, phase := Idle))
    case Open =>
      if s.project.Some? then None
      else
        (match LoadManifest(s.store)
         case Success(Some(m)) =>
           (match Restore(s.store, m)
            case Success(image) => Some(s.(project := Some(OpenProject(m, image)), phase := Idle))
            case Failure(_) => None)
         case _ => None)
    case OpenFresh =>
      if s.project.Some? || LoadManifest(s.store) != Success(None) then None
      else Some(s.(project := Some(FreshProject()), phase := Compact(Upload, None)))
    case _ =>
      if s.project.None? then None else ApplyWarm(s, s.project.value, e)
  }

  function ApplyWarm(s: Sys, p: Project, e: Event): Option<Sys>
    requires s.project == Some(p)
  {
    match s.phase
    case Idle => ApplyIdle(s, p, e)
    case Flush(slots) => ApplyFlush(s, p, slots, e)
    case Sent(slots) => ApplySent(s, p, slots, e)
    case Durable(pending) => ApplyDurable(s, p, pending, e)
    case Compact(stage, waiting) => ApplyCompact(s, p, stage, e)
  }

  function ApplyIdle(s: Sys, p: Project, e: Event): Option<Sys> {
    match e
    case Execute(jobs) =>
      if !forall i :: 0 <= i < |jobs| ==> HonestJob(jobs[i]) then None
      else
        var b := RunJobs(p, jobs);
        Some(s.(project := Some(b.project),
                phase := if CommittedSlots(b.slots) > 0 then Flush(b.slots) else Idle))
    case StartCompaction => Some(s.(phase := Compact(Upload, None)))
    case PutLog(entry, ok) => Some(Logged(s, entry, ok))
    case _ => None
  }

  function ApplyFlush(s: Sys, p: Project, slots: seq<Slot>, e: Event): Option<Sys> {
    match e
    case LoseLease => Some(s.(phase := Idle))
    case ShipSegment(ok) =>
      if |p.image.wal| < p.durable then None
      else if p.durable < |p.image.wal| && !ok then Some(s.(phase := Idle))
      else
        var store := if p.durable < |p.image.wal|
                     then s.store[WalKey(p.nextId) := Data(p.image.wal[p.durable..])]
                     else s.store;
        Some(s.(store := store, project := Some(AfterShip(p, slots)), phase := Sent(slots)))
    case _ => None
  }

  function ApplySent(s: Sys, p: Project, slots: seq<Slot>, e: Event): Option<Sys> {
    match e
    case PutManifest(ok) =>
      if p.snapshot.None? || !ok then Some(s.(phase := Idle))
      else Some(Publish(s, ManifestOf(p)).(phase := Durable(Pending(slots, |s.published|))))
    case _ => None
  }

  function ApplyDurable(s: Sys, p: Project, pending: Pending, e: Event): Option<Sys> {
    match e
    case PutLog(entry, ok) => Some(Logged(s, entry, ok))
    case FailFlush => Some(s.(phase := Idle))
    case StartCompaction => Some(s.(phase := Compact(Upload, Some(pending))))
    case Answer =>
      Some(s.(acks := s.acks + AcksOf(pending.slots, p.commitSeq, pending.version), phase := Idle))
    case _ => None
  }

  function ApplyCompact(s: Sys, p: Project, stage: Stage, e: Event): Option<Sys>
    requires s.phase.Compact?
  {
    match (stage, e)
    case (Upload, PutSnapshot(ok)) =>
      if !ok then Some(LeaveCompaction(s))
      else Some(s.(store := s.store[SnapshotKey(p.generation + 1) := Data(SnapshotBlob(p))],
                   phase := s.phase.(stage := Switch)))
    case (Switch, PutSwitch(ok)) =>
      if !ok then Some(LeaveCompaction(s))
      else Some(Publish(s, CompactManifest(p)).(phase := s.phase.(stage := Swap)))
    case (Swap, SwapCache) =>
      Some(s.(project := Some(AfterSwap(p)), phase := s.phase.(stage := Sweep)))
    case (Sweep, DeleteSegments(gone)) =>
      if forall k :: k in gone ==> k.WalKey? then Some(s.(store := s.store - gone)) else None
    case (Sweep, PutLog(entry, ok)) => Some(Logged(s, entry, ok))
    case (Sweep, FinishCompaction) => Some(LeaveCompaction(s))
    case _ => None
  }

  function Logged(s: Sys, entry: nat, ok: bool): Sys {
    if ok then s.(store := s.store[ChangeLogKey(entry) := Note]) else s
  }

  function Init(): Sys {
    Sys(map[], None, Idle, [], [])
  }

  /** A run: the state after a sequence of events, or None when one of them cannot happen. */
  function Run(s: Sys, es: seq<Event>): Option<Sys> {
    if |es| == 0 then Some(s)
    else
      match Run(s, es[..|es| - 1])
      case None => None
      case Some(t) => Apply(t, es[|es| - 1])
  }

  lemma {:induction false} RunConcat(s: Sys, a: seq<Event>, b: seq<Event>)
    requires Run(s, a).Some?
    ensures Run(s, a + b) == Run(Run(s, a).value, b)
  {
    if |b| == 0 {
      assert a + b == a;
    } else {
      RunConcat(s, a, b[..|b| - 1]);
      assert (a + b)[..|a + b| - 1] == a + b[..|b| - 1];
    }
  }

  // ---- Invariant ----------------------------------------------------------

  /** Segments as the writer numbers them: ids and keys from 0, offsets running totals. */
  ghost predicate ChainOk(segs: seq<SegmentRef>) {
    forall i :: 0 <= i < |segs| ==>
      && segs[i].id == i && segs[i].key == WalKey(i)
      && segs[i].len == |segs[i].sha.of|
      && segs[i].offset == |Shipped(segs[..i])|
  }

  ghost predicate ManifestOk(store: Store, m: Manifest) {
    && m.snapshot.key == SnapshotKey(m.generation)
    && ChainOk(m.segments)
    && m.durableBytes == |Shipped(m.segments)|
    && m.commitSeq <= U64_MAX
    && Intact(store, m)
  }

  ghost predicate RowsUpTo(log: Log, bound: nat) {
    forall i :: 0 <= i < |log| && log[i].Record? ==> log[i].row.mark <= bound && RowOk(log[i].row)
  }

  /** A row is only stored for a key and hash that were validated, with a response that shows its mark. */
  ghost predicate RowOk(row: Row) {
    ValidIdempotency(Idempotency(row.key, row.hash)) && ShowsMark(row.response, row.mark)
  }

  ghost predicate HistoryOk(pub: seq<Version>) {
    && (forall i, j :: 0 <= i <= j < |pub| ==> pub[i].mark <= pub[j].mark && pub[i].log <= pub[j].log)
    && (forall i :: 0 <= i < |pub| ==> Accounted(pub[i].log) && RowsUpTo(pub[i].log, SatInc(pub[i].mark)))
  }

  ghost predicate LogHas(log: Log, at: nat, txs: Log) {
    at + |txs| <= |log| && log[at..at + |txs|] == txs
  }

  /** Everything published before `version` carries a smaller mark (until the counter saturates). */
  ghost predicate FirstWith(pub: seq<Version>, version: nat, mark: nat) {
    && version < |pub| && pub[version].mark == mark
    && (forall j :: 0 <= j < version ==> pub[j].mark < mark || mark == U64_MAX)
  }

  /** How much log was published before this version. */
  function LogBefore(pub: seq<Version>, version: nat): nat
    requires version <= |pub|
  {
    if version == 0 then 0 else |pub[version - 1].log|
  }

  ghost predicate AckOk(a: Ack, pub: seq<Version>) {
    && FirstWith(pub, a.version, a.mark)
    && LogBefore(pub, a.version) <= a.at
    && a.job.outcome.Done?
    && LogHas(pub[a.version].log, a.at, JobTxs(a.mark, a.job))
    && (a.job.idempotency.Some? ==> ValidIdempotency(a.job.idempotency.value))
  }

  ghost predicate SlotOk(slot: Slot, log: Log, mark: nat) {
    slot.committed && slot.result.Success? ==>
      && slot.job.outcome.Done?
      && LogHas(log, slot.at, JobTxs(mark, slot.job))
      && WithBookmark(slot.result.value, mark) == WithBookmark(slot.job.outcome.value, mark)
      && (slot.job.idempotency.Some? ==> ValidIdempotency(slot.job.idempotency.value))
  }

  ghost predicate SlotsOk(slots: seq<Slot>, log: Log, mark: nat) {
    forall i :: 0 <= i < |slots| ==> SlotOk(slots[i], log, mark)
  }

  /** Every committed job of the batch wrote past the end of what was published by then. */
  ghost predicate SlotsAfter(slots: seq<Slot>, published: nat) {
    forall i :: 0 <= i < |slots| && slots[i].committed ==> published <= slots[i].at
  }

  ghost predicate PendingOk(pending: Pending, pub: seq<Version>, mark: nat) {
    && FirstWith(pub, pending.version, mark)
    && SlotsAfter(pending.slots, LogBefore(pub, pending.version))
    && SlotsOk(pending.slots, pub[pending.version].log, mark)
  }

  /** Records not yet named by the manifest carry a mark the manifest has not reached. */
  ghost predicate VolatileAhead(log: Log, durable: nat, mark: nat) {
    forall i :: durable <= i < |log| && log[i].Record? ==> mark < log[i].row.mark || log[i].row.mark == U64_MAX
  }

  /** The live state is the manifest's state plus what was written since. */
  ghost predicate LiveOk(store: Store, p: Project, m: Manifest) {
    && p.generation == m.generation
    && p.snapshot == Some(m.snapshot)
    && p.image.base == m.snapshot.sha.of
    && m.segments <= p.segments
    && ChainOk(p.segments)
    && SegmentsHold(store, p.segments)
    && p.durable <= |p.image.wal|
    && Shipped(p.segments) == p.image.wal[..p.durable]
    && p.nextId == |p.segments|
    && m.commitSeq <= p.commitSeq <= U64_MAX
    && Accounted(p.Content())
    && RowsUpTo(p.Content(), SatInc(p.commitSeq))
    && VolatileAhead(p.Content(), |ShippedImage(m).Content()|, m.commitSeq)
  }

  ghost predicate PhaseOk(s: Sys, p: Project, m: Manifest) {
    match s.phase
    case Idle => true
    case Flush(slots) =>
      SlotsOk(slots, p.Content(), SatInc(p.commitSeq)) && SlotsAfter(slots, |DurableLog(s)|)
    case Sent(slots) =>
      && p.durable == |p.image.wal|
      && SlotsOk(slots, p.Content(), p.commitSeq) && SlotsAfter(slots, |DurableLog(s)|)
      && RowsUpTo(p.Content(), p.commitSeq)
      && (m.commitSeq < p.commitSeq || p.commitSeq == U64_MAX)
    case Durable(pending) => PendingOk(pending, s.published, p.commitSeq) && p.Content() == DurableLog(s)
    case Compact(stage, waiting) =>
      && (waiting.Some? ==> PendingOk(waiting.value, s.published, p.commitSeq))
      && (stage.Switch? ==> Holds(s.store, SnapshotKey(p.generation + 1), |SnapshotBlob(p)|, Digest(SnapshotBlob(p))))
      && (stage.Sweep? ==> p.segments == [])
      && (waiting.Some? || stage.Sweep? ==> p.Content() == DurableLog(s))
  }

  ghost predicate FreshOk(s: Sys, p: Project) {
    && p == FreshProject()
    && s.phase.Compact? && s.phase.waiting.None?
    && (s.phase.stage.Upload? || s.phase.stage.Switch?)
    && (s.phase.stage.Switch? ==>
          Holds(s.store, SnapshotKey(1), |SnapshotBlob(p)|, Digest(SnapshotBlob(p))))
  }

  ghost predicate WarmOk(s: Sys, p: Project) {
    if s.published == [] then FreshOk(s, p)
    else
      && ManifestKey in s.store && s.store[ManifestKey].Doc?
      && var m := s.store[ManifestKey].manifest;
         if s.phase.Compact? && s.phase.stage.Swap? then
           && m == CompactManifest(p) && Accounted(p.Content())
           && RowsUpTo(p.Content(), SatInc(p.commitSeq))
           && (s.phase.waiting.Some? ==> PendingOk(s.phase.waiting.value, s.published, p.commitSeq))
         else LiveOk(s.store, p, m) && PhaseOk(s, p, m)
  }

  /** The log that an open would find now. */
  function DurableLog(s: Sys): Log {
    if |s.published| == 0 then [] else s.published[|s.published| - 1].log
  }

  ghost predicate StoreOk(s: Sys) {
    if s.published == [] then ManifestKey !in s.store && s.acks == []
    else
      && ManifestKey in s.store && s.store[ManifestKey].Doc?
      && var m := s.store[ManifestKey].manifest;
         && ManifestOk(s.store, m)
         && s.published[|s.published| - 1] == Version(m.commitSeq, ShippedImage(m).Content())
  }

  ghost predicate Inv(s: Sys) {
    && StoreOk(s)
    && HistoryOk(s.published)
    && (forall i :: 0 <= i < |s.acks| ==> AckOk(s.acks[i], s.published))
    && (if s.project.Some? then WarmOk(s, s.project.value) else s.phase == Idle)
  }
}
