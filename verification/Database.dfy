/**
 The project database as an append-only log of committed transactions, and the
 execution of write jobs against it, with and without an idempotency key
 (rust-core/src/runtime.rs, execute_write_job and the functions it calls).
 */
module Database {
  import opened Strings
  import opened Wrappers

  /** The largest unsigned 64-bit value, at which `saturating_add` stops. */
  const U64_MAX: nat := 0xFFFF_FFFF_FFFF_FFFF

  function SatInc(n: nat): nat {
    if n < U64_MAX then n + 1 else n
  }

  // ---- JSON responses -------------------------------------------------

  datatype Value =
    | Object(fields: map<string, Value>)
    | Bookmark(mark: nat)
    | Scalar(text: string)

  /** Objects get a `bookmark` field; anything else is wrapped first. */
  function WithBookmark(v: Value, mark: nat): Value {
    match v
    case Object(fields) => Object(fields["bookmark" := Bookmark(mark)])
    case _ => Object(map["value" := v, "bookmark" := Bookmark(mark)])
  }

  /** The value with this bookmark in it: its own fields otherwise as they were, or itself under `value`. */
  predicate Carries(answer: Value, v: Value, mark: nat) {
    && ShowsMark(answer, mark)
    && answer.fields - {"bookmark"} == (if v.Object? then v.fields - {"bookmark"} else map["value" := v])
  }

  predicate ShowsMark(answer: Value, mark: nat) {
    answer.Object? && "bookmark" in answer.fields && answer.fields["bookmark"] == Bookmark(mark)
  }

  /** However often it is added, the answer carries that bookmark and nothing else is lost. */
  lemma WithBookmarkCarries(v: Value, mark: nat)
    ensures Carries(WithBookmark(v, mark), v, mark)
    ensures WithBookmark(WithBookmark(v, mark), mark) == WithBookmark(v, mark)
  {
    assert "bookmark" != "value" by {
      assert |"bookmark"| != |"value"|;
    }
    match v
    case Object(fields) =>
      assert fields["bookmark" := Bookmark(mark)]["bookmark" := Bookmark(mark)] == fields["bookmark" := Bookmark(mark)];
      assert fields["bookmark" := Bookmark(mark)] - {"bookmark"} == fields - {"bookmark"};
    case _ =>
      var w := map["value" := v, "bookmark" := Bookmark(mark)];
      assert w["bookmark" := Bookmark(mark)] == w;
      assert w - {"bookmark"} == map["value" := v];
  }

  // ---- Transactions and frames ----------------------------------------

  /**
   A row of the idempotency table. `mark` is the number in its bookmark. `wrote` is
   bookkeeping of the model: whether the job that stored the row changed user rows at all.
   */
  datatype Row = Row(key: string, hash: string, response: Value, mark: nat, wrote: bool)

  /**
   One committed SQLite transaction: what a write kind does to user rows, or a stored row. `torn` is
   bookkeeping of the model: whether the job that changed the rows was answered with an error.
   */
  datatype Tx =
    | Mutation(tag: nat, key: Option<string>, torn: bool)
    | Record(row: Row)

  /** A WAL file is a run of page frames per transaction, the last one marking the commit. */
  datatype Frame = Page | Commit(tx: Tx)

  type Blob = seq<Frame>
  type Log = seq<Tx>

  function Frames(tx: Tx, pages: nat): Blob {
    seq(pages, _ => Page) + [Commit(tx)]
  }

  /** The transactions SQLite replays from a file: those whose commit frame is there. */
  function Committed(b: Blob): Log {
    if |b| == 0 then []
    else Committed(b[..|b| - 1]) + (if b[|b| - 1].Commit? then [b[|b| - 1].tx] else [])
  }

  lemma {:induction false} CommittedConcat(a: Blob, b: Blob)
    ensures Committed(a + b) == Committed(a) + Committed(b)
  {
    if |b| == 0 {
      assert a + b == a;
    } else {
      CommittedConcat(a, b[..|b| - 1]);
      assert (a + b)[..|a + b| - 1] == a + b[..|b| - 1];
    }
  }

  lemma CommittedPrefix(a: Blob, b: Blob)
    requires a <= b
    ensures Committed(a) <= Committed(b)
  {
    CommittedConcat(a, b[|a|..]);
    assert a + b[|a|..] == b;
  }

  lemma {:induction false} CommittedPages(n: nat)
    ensures Committed(seq(n, _ => Page)) == []
  {
    if n > 0 {
      CommittedPages(n - 1);
      assert seq(n, _ => Page)[..n - 1] == seq(n - 1, _ => Page);
    }
  }

  lemma CommittedFrames(tx: Tx, pages: nat)
    ensures Committed(Frames(tx, pages)) == [tx]
    ensures |Frames(tx, pages)| == pages + 1 && forall i :: 0 <= i < pages ==> Frames(tx, pages)[i] == Page
  {
    CommittedPages(pages);
    CommittedConcat(seq(pages, _ => Page), [Commit(tx)]);
    assert Committed([Commit(tx)]) == [tx] by {
      assert [Commit(tx)][..0] == [];
    }
  }

  /** `VACUUM INTO`: a file that holds exactly the transactions of the log. */
  function Vacuum(log: Log): (b: Blob) {
    seq(|log|, i requires 0 <= i < |log| => Commit(log[i]))
  }

  lemma {:induction false} VacuumKeepsLog(log: Log)
    ensures Committed(Vacuum(log)) == log
  {
    if |log| > 0 {
      var front := log[..|log| - 1];
      VacuumKeepsLog(front);
      assert Vacuum(log)[..|log| - 1] == Vacuum(front);
      assert log == front + [log[|log| - 1]];
    }
  }

  // ---- Write jobs -----------------------------------------------------

  datatype Idempotency = Idempotency(key: string, requestHash: string)

  /**
   What the write kind answers when SQLite runs it. `writes` is None when no row changed,
   else the page frames written before the commit frame; a rejected job may have committed
   rows before it failed, as an object delete does. `committed` is the flag the write loop
   uses to decide whether to flush; a keyed job is rejected with it when only its idempotency
   row could not be stored.
   */
  datatype Outcome =
    | Reject(error: ApiError, writes: Option<nat>, committed: bool)
    | Done(value: Value, writes: Option<nat>, committed: bool)

  datatype Job = Job(tag: nat, idempotency: Option<Idempotency>, outcome: Outcome)

  /** A write kind that changes rows reports it (proved for logout in AuthStore). */
  predicate HonestJob(job: Job) {
    job.outcome.Done? && job.outcome.writes.Some? ==> job.outcome.committed
  }

  datatype JobResult = JobResult(frames: Blob, result: Result<Value, ApiError>, committed: bool)

  // Idempotency keys are validated after trimming, but stored as given.

  predicate KeyChar(c: char) {
    'a' <= c <= 'z' || 'A' <= c <= 'Z' || '0' <= c <= '9' || c in "-_.:"
  }

  predicate HexDigit(c: char) {
    'a' <= c <= 'f' || 'A' <= c <= 'F' || '0' <= c <= '9'
  }

  predicate ValidIdempotency(idem: Idempotency) {
    var key := Trim(idem.key);
    && 0 < |key| <= 256
    && (forall i :: 0 <= i < |key| ==> KeyChar(key[i]))
    && |idem.requestHash| == 64
    && (forall i :: 0 <= i < 64 ==> HexDigit(idem.requestHash[i]))
  }

  /** The row of the idempotency table with this key, if any. */
  function FindRecord(log: Log, key: string): (r: Option<Row>)
    ensures r.Some? ==> r.value.key == key
  {
    if |log| == 0 then None
    else if log[0].Record? && log[0].row.key == key then Some(log[0].row)
    else FindRecord(log[1..], key)
  }

  /** `load_idempotency_record`: None means the job has to run. */
  function LoadRecord(log: Log, commitSeq: nat, idem: Idempotency): Option<Result<Value, ApiError>> {
    match FindRecord(log, idem.key)
    case None => None
    case Some(r) =>
      if r.hash != idem.requestHash then Some(Failure(ApiError(409)))
      else if commitSeq < r.mark then Some(Failure(ApiError(425)))
      else Some(Success(r.response))
  }

  /** `store_idempotency_record`: the row for a keyed job that just ran. */
  function JobRow(mark: nat, job: Job): Row
    requires job.idempotency.Some? && job.outcome.Done?
  {
    Row(job.idempotency.value.key, job.idempotency.value.requestHash,
        WithBookmark(job.outcome.value, mark), mark, job.outcome.writes.Some?)
  }

  /** The row changes of a job. */
  function JobMutation(job: Job): Tx {
    Mutation(job.tag, if job.idempotency.Some? then Some(job.idempotency.value.key) else None, job.outcome.Reject?)
  }

  /** Whether a job that runs stores an idempotency row: a rejected one does not. */
  predicate Records(job: Job) {
    job.idempotency.Some? && job.outcome.Done?
  }

  /** The transactions of a job that runs: its row changes, then its idempotency row. */
  function JobTxs(mark: nat, job: Job): Log {
    (if job.outcome.writes.Some? then [JobMutation(job)] else [])
    + (if Records(job) then [Record(JobRow(mark, job))] else [])
  }

  function JobFrames(mark: nat, job: Job): Blob {
    (if job.outcome.writes.Some? then Frames(JobMutation(job), job.outcome.writes.value) else [])
    + (if Records(job) then Frames(Record(JobRow(mark, job)), 0) else [])
  }

  lemma FramesHoldTxs(mark: nat, job: Job)
    ensures Committed(JobFrames(mark, job)) == JobTxs(mark, job)
  {
    var a := if job.outcome.writes.Some? then Frames(JobMutation(job), job.outcome.writes.value) else [];
    var b := if Records(job) then Frames(Record(JobRow(mark, job)), 0) else [];
    if job.outcome.writes.Some? { CommittedFrames(JobMutation(job), job.outcome.writes.value); }
    if Records(job) { CommittedFrames(Record(JobRow(mark, job)), 0); }
    CommittedConcat(a, b);
  }

  /** One job of a batch, run on the live database while `commitSeq` batches are flushed. */
  function ExecJob(log: Log, commitSeq: nat, job: Job): JobResult {
    match job.idempotency
    case None =>
      (match job.outcome
       case Reject(e, _, _) => JobResult(JobFrames(SatInc(commitSeq), job), Failure(e), false)
       case Done(v, _, committed) => JobResult(JobFrames(SatInc(commitSeq), job), Success(v), committed))
    case Some(idem) =>
      if !ValidIdempotency(idem) then JobResult([], Failure(ApiError(400)), false)
      else
        match LoadRecord(log, commitSeq, idem)
        case Some(answer) => JobResult([], answer, false)
        case None =>
          match job.outcome
          case Reject(e, _, committed) => JobResult(JobFrames(SatInc(commitSeq), job), Failure(e), committed)
          case Done(v, _, _) =>
            JobResult(JobFrames(SatInc(commitSeq), job), Success(WithBookmark(v, SatInc(commitSeq))), true)
  }

  /** Whether the job reaches SQLite. */
  predicate Reaches(log: Log, job: Job) {
    job.idempotency.Some? ==>
      && ValidIdempotency(job.idempotency.value)
      && FindRecord(log, job.idempotency.value.key).None?
  }

  /** Whether the job reaches SQLite and is not rejected there. */
  predicate Runs(log: Log, job: Job) {
    job.outcome.Done? && Reaches(log, job)
  }

  /** A keyed job that changed rows and was answered with an error: no row remembers it. */
  predicate Torn(job: Job) {
    job.idempotency.Some? && job.outcome.Reject? && job.outcome.writes.Some?
  }

  /** A key of 1 to 256 letters, digits and `-_.:` but for blanks around it, and a hash of 64 hex digits; else 400. */
  lemma KeysInPlain(log: Log, commitSeq: nat, job: Job)
    requires job.idempotency.Some?
    ensures
      var key, hash := Trim(job.idempotency.value.key), job.idempotency.value.requestHash;
      !( && 1 <= |key| <= 256 && |hash| == 64
         && (forall c :: c in key ==> 'a' <= c <= 'z' || 'A' <= c <= 'Z' || '0' <= c <= '9' || c in "-_.:")
         && (forall c :: c in hash ==> '0' <= c <= '9' || 'a' <= c <= 'f' || 'A' <= c <= 'F'))
      ==> ExecJob(log, commitSeq, job) == JobResult([], Failure(ApiError(400)), false)
    ensures
      var key, hash := Trim(job.idempotency.value.key), job.idempotency.value.requestHash;
      ( && 1 <= |key| <= 256 && |hash| == 64
        && (forall c :: c in key ==> 'a' <= c <= 'z' || 'A' <= c <= 'Z' || '0' <= c <= '9' || c in "-_.:")
        && (forall c :: c in hash ==> '0' <= c <= '9' || 'a' <= c <= 'f' || 'A' <= c <= 'F'))
      ==> ValidIdempotency(job.idempotency.value)
  {
    hide Trim;
    var key, hash := Trim(job.idempotency.value.key), job.idempotency.value.requestHash;
    assert forall i :: 0 <= i < |key| ==> key[i] in key;
    assert forall i :: 0 <= i < |hash| ==> hash[i] in hash;
    assert forall c: char :: KeyChar(c) <==> 'a' <= c <= 'z' || 'A' <= c <= 'Z' || '0' <= c <= '9' || c in "-_.:";
  }

  // ---- Exactly-once bookkeeping ---------------------------------------

  function CountRecords(log: Log, key: string): nat {
    if |log| == 0 then 0
    else CountRecords(log[..|log| - 1], key)
         + (if log[|log| - 1].Record? && log[|log| - 1].row.key == key then 1 else 0)
  }

  function CountMutations(log: Log, key: string): nat {
    if |log| == 0 then 0
    else CountMutations(log[..|log| - 1], key)
         + (if log[|log| - 1].Mutation? && log[|log| - 1].key == Some(key) then 1 else 0)
  }

  function CountTorn(log: Log, key: string): nat {
    if |log| == 0 then 0
    else CountTorn(log[..|log| - 1], key)
         + (if log[|log| - 1].Mutation? && log[|log| - 1].key == Some(key) && log[|log| - 1].torn then 1 else 0)
  }

  /**
   A key has at most one record, and its keyed mutation is in the log exactly when the
   record is (and was stored by a job that wrote rows), once.
   */
  ghost predicate OncePerKey(log: Log, key: string) {
    match FindRecord(log, key)
    case None => CountRecords(log, key) == 0 && CountMutations(log, key) == 0
    case Some(r) =>
      && r.key == key
      && CountRecords(log, key) == 1
      && CountMutations(log, key) == (if r.wrote then 1 else 0)
  }

  /** The same, but for mutations whose job was answered with an error, which are counted. */
  ghost predicate AccountedKey(log: Log, key: string) {
    match FindRecord(log, key)
    case None => CountRecords(log, key) == 0 && CountMutations(log, key) == CountTorn(log, key)
    case Some(r) =>
      && r.key == key
      && CountRecords(log, key) == 1
      && CountMutations(log, key) == CountTorn(log, key) + (if r.wrote then 1 else 0)
  }

  ghost predicate Accounted(log: Log) {
    forall key: string :: AccountedKey(log, key)
  }

  /** A key is exactly-once in an accounted log iff no job of that key changed rows and then failed. */
  lemma OnceIffNotTorn(log: Log, key: string)
    requires Accounted(log)
    ensures OncePerKey(log, key) <==> CountTorn(log, key) == 0
  {
    assert AccountedKey(log, key);
  }

  lemma {:induction false} FindRecordConcat(a: Log, b: Log, key: string)
    ensures FindRecord(a + b, key) == (if FindRecord(a, key).Some? then FindRecord(a, key) else FindRecord(b, key))
  {
    if |a| == 0 {
      assert a + b == b;
    } else {
      FindRecordConcat(a[1..], b, key);
      assert (a + b)[1..] == a[1..] + b;
    }
  }

  lemma {:induction false} CountsSnoc(a: Log, tx: Tx, key: string)
    ensures CountRecords(a + [tx], key) == CountRecords(a, key) + (if tx.Record? && tx.row.key == key then 1 else 0)
    ensures CountMutations(a + [tx], key) == CountMutations(a, key) + (if tx.Mutation? && tx.key == Some(key) then 1 else 0)
    ensures CountTorn(a + [tx], key)
         == CountTorn(a, key) + (if tx.Mutation? && tx.key == Some(key) && tx.torn then 1 else 0)
  {
    assert (a + [tx])[..|a|] == a;
  }

  /** What one job appends to the log, as transactions. */
  function ExecTxs(log: Log, commitSeq: nat, job: Job): Log {
    if Reaches(log, job) then JobTxs(SatInc(commitSeq), job) else []
  }

  lemma ExecAppends(log: Log, commitSeq: nat, job: Job)
    ensures Committed(ExecJob(log, commitSeq, job).frames) == ExecTxs(log, commitSeq, job)
  {
    if Reaches(log, job) {
      FramesHoldTxs(SatInc(commitSeq), job);
    }
  }

  /** Whatever a job does to the live database, every key stays accounted for. */
  lemma ExecKeepsAccounts(log: Log, commitSeq: nat, job: Job)
    requires Accounted(log)
    ensures Accounted(log + ExecTxs(log, commitSeq, job))
  {
    forall key: string ensures AccountedKey(log + ExecTxs(log, commitSeq, job), key) {
      ExecKeepsKey(log, commitSeq, job, key);
    }
  }

  /**
   A key that was exactly-once stays so iff the job is not one of that key which reaches SQLite,
   changes rows and is then answered with an error.
   */
  lemma ExecKeepsExactlyOnce(log: Log, commitSeq: nat, job: Job, key: string)
    requires Accounted(log) && OncePerKey(log, key)
    ensures
      OncePerKey(log + ExecTxs(log, commitSeq, job), key)
      <==> !(Torn(job) && Reaches(log, job) && job.idempotency.value.key == key)
  {
    ExecKeepsAccounts(log, commitSeq, job);
    OnceIffNotTorn(log, key);
    OnceIffNotTorn(log + ExecTxs(log, commitSeq, job), key);
    ExecKeepsKey(log, commitSeq, job, key);
  }

  lemma ExecKeepsKey(log: Log, commitSeq: nat, job: Job, key: string)
    requires Accounted(log)
    ensures AccountedKey(log + ExecTxs(log, commitSeq, job), key)
    ensures CountTorn(log + ExecTxs(log, commitSeq, job), key)
         == CountTorn(log, key) + (if Torn(job) && Reaches(log, job) && job.idempotency.value.key == key then 1 else 0)
  {
    hide WithBookmark, Trim, ValidIdempotency, CountRecords, CountMutations, CountTorn;
    var txs := ExecTxs(log, commitSeq, job);
    assert AccountedKey(log, key);
    FindRecordConcat(log, txs, key);
    if |txs| == 0 {
      assert log + txs == log;
    } else if |txs| == 1 {
      CountsSnoc(log, txs[0], key);
      assert log + txs == log + [txs[0]];
      assert txs[1..] == [];
    } else {
      CountsSnoc(log, txs[0], key);
      CountsSnoc(log + [txs[0]], txs[1], key);
      assert log + txs == log + [txs[0]] + [txs[1]];
      assert txs[1..] == [txs[1]] && txs[1..][1..] == [];
      assert FindRecord(txs, key) == FindRecord([txs[1]], key);
      assert FindRecord([txs[1]], key) == if txs[1].row.key == key then Some(txs[1].row) else None;
    }
  }

  /** The record of an applied key answers every retry with the same response, unchanged. */
  lemma RetryIsReplayed(log: Log, commitSeq: nat, at: nat, retry: Job)
    requires Accounted(log)
    requires at < |log| && log[at].Record? && log[at].row.mark <= commitSeq
    requires retry.idempotency.Some? && ValidIdempotency(retry.idempotency.value)
    requires retry.idempotency.value == Idempotency(log[at].row.key, log[at].row.hash)
    ensures ExecJob(log, commitSeq, retry) == JobResult([], Success(log[at].row.response), false)
  {
    assert AccountedKey(log, log[at].row.key);
    OnlyRecord(log, at);
  }

  /**
   The other two answers a stored key gives, whatever the job would do: another request's key is
   refused, and a row that is ahead of the counter has to wait. Neither adds anything.
   */
  lemma StoredKeyRefuses(log: Log, commitSeq: nat, at: nat, job: Job)
    requires Accounted(log)
    requires at < |log| && log[at].Record?
    requires job.idempotency.Some? && ValidIdempotency(job.idempotency.value) && job.idempotency.value.key == log[at].row.key
    ensures job.idempotency.value.requestHash != log[at].row.hash ==>
              ExecJob(log, commitSeq, job) == JobResult([], Failure(ApiError(409)), false)
    ensures job.idempotency.value.requestHash == log[at].row.hash && commitSeq < log[at].row.mark ==>
              ExecJob(log, commitSeq, job) == JobResult([], Failure(ApiError(425)), false)
  {
    assert AccountedKey(log, log[at].row.key);
    OnlyRecord(log, at);
  }

  lemma {:induction false} OnlyRecord(log: Log, at: nat)
    requires at < |log| && log[at].Record? && CountRecords(log, log[at].row.key) <= 1
    ensures FindRecord(log, log[at].row.key) == Some(log[at].row)
  {
    var key := log[at].row.key;
    var before, after := log[..at], log[at..];
    FindRecordConcat(before, after, key);
    assert log == before + after;
    if FindRecord(before, key).Some? {
      var i := RecordIndex(before, key);
      TwoRecords(log, i, at);
    }
  }

  lemma {:induction false} RecordIndex(log: Log, key: string) returns (i: nat)
    requires FindRecord(log, key).Some?
    ensures i < |log| && log[i].Record? && log[i].row.key == key
  {
    if log[0].Record? && log[0].row.key == key {
      i := 0;
    } else {
      var j := RecordIndex(log[1..], key);
      i := j + 1;
    }
  }

  lemma {:induction false} TwoRecords(log: Log, i: nat, j: nat)
    requires i < j < |log|
    requires log[i].Record? && log[j].Record? && log[i].row.key == log[j].row.key
    ensures CountRecords(log, log[i].row.key) >= 2
  {
    var front := log[..|log| - 1];
    if j == |log| - 1 {
      OneRecord(front, i);
    } else {
      TwoRecords(front, i, j);
    }
  }

  lemma {:induction false} OneRecord(log: Log, i: nat)
    requires i < |log| && log[i].Record?
    ensures CountRecords(log, log[i].row.key) >= 1
  {
    if i < |log| - 1 {
      OneRecord(log[..|log| - 1], i);
    }
  }
}
