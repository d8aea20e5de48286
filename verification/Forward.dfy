/** Forwarding a request to the primary: which requests are tried again, and what that can do (rust-core/src/http.rs). */
module Forward {
  import opened Database
  import opened Wrappers

  datatype Method = Get | Head | Post | Put | Patch | Delete

  /** What one attempt brings back: a response, or an error with the status it is classified as. */
  datatype Answer = Response(status: nat) | Broken(status: nat)

  predicate RetryAllowed(m: Method, keyed: bool) {
    m.Get? || m.Head? || keyed
  }

  /** `forward_attempts`; the configured number counts as at least one. */
  function MaxAttempts(m: Method, keyed: bool, configured: nat): nat {
    if RetryAllowed(m, keyed) then (if configured == 0 then 1 else configured) else 1
  }

  predicate EndpointFailure(status: nat) {
    status == 408 || status == 429 || status == 502 || status == 503 || status == 504
  }

  predicate ShouldRetryResponse(status: nat, attempt: nat, max: nat, m: Method) {
    attempt < max && RetryAllowed(m, max > 1) && EndpointFailure(status)
  }

  predicate ShouldRetryError(status: nat, attempt: nat, max: nat, m: Method) {
    attempt < max && RetryAllowed(m, max > 1) && (status == 502 || status == 504)
  }

  /** Answers that may mean the endpoint was not well. */
  predicate Transient(a: Answer) {
    match a
    case Response(status) => EndpointFailure(status)
    case Broken(status) => status == 502 || status == 504
  }

  function Verdict(a: Answer): Result<(), ApiError> {
    match a
    case Response(status) => if 200 <= status < 300 then Success(()) else Failure(ApiError(status))
    case Broken(status) => Failure(ApiError(status))
  }

  /**
   `forward_json_to_url`: tries until an answer is not transient or the attempts are used up, and
   reports the last one. Without an idempotency key only GET and HEAD are ever sent twice.
   */
  method ForwardJson(m: Method, keyed: bool, configured: nat, answers: nat -> Answer)
    returns (r: Result<(), ApiError>, sends: nat)
    ensures 1 <= sends <= MaxAttempts(m, keyed, configured)
    ensures r == Verdict(answers(sends))
    ensures forall a :: 1 <= a < sends ==> Transient(answers(a))
    ensures sends < MaxAttempts(m, keyed, configured) ==> !Transient(answers(sends))
    ensures !RetryAllowed(m, keyed) ==> sends == 1
  {
    var max := MaxAttempts(m, keyed, configured);
    var attempt := 1;
    while true
      invariant 1 <= attempt <= max
      invariant forall a :: 1 <= a < attempt ==> Transient(answers(a))
      decreases max - attempt
    {
      var answer := answers(attempt);
      match answer
      case Response(status) =>
        if ShouldRetryResponse(status, attempt, max, m) {
          attempt := attempt + 1;
        } else {
          return Verdict(answer), attempt;
        }
      case Broken(status) =>
        if ShouldRetryError(status, attempt, max, m) {
          attempt := attempt + 1;
        } else {
          return Verdict(answer), attempt;
        }
    }
  }

  // ---- What the retries can do at the primary ------------------------------------------

  /** One delivered copy of the request: the primary's sequence then, and how the write kind goes this time. */
  datatype Delivery = Delivery(commitSeq: nat, outcome: Outcome)

  function Attempt(job: Job, d: Delivery): Job {
    job.(outcome := d.outcome)
  }

  /** Each delivered copy of the request runs as a job. */
  function Delivered(log: Log, ds: seq<Delivery>, job: Job): Log {
    if |ds| == 0 then log
    else
      var before := Delivered(log, ds[..|ds| - 1], job);
      before + ExecTxs(before, ds[|ds| - 1].commitSeq, Attempt(job, ds[|ds| - 1]))
  }

  /** The deliveries that reached SQLite, changed rows there and were then answered with an error. */
  function TornDeliveries(log: Log, ds: seq<Delivery>, job: Job): nat {
    if |ds| == 0 then 0
    else
      var last := Attempt(job, ds[|ds| - 1]);
      TornDeliveries(log, ds[..|ds| - 1], job)
      + (if Torn(last) && Reaches(Delivered(log, ds[..|ds| - 1], job), last) then 1 else 0)
  }

  function CountTag(log: Log, tag: nat): nat {
    if |log| == 0 then 0
    else CountTag(log[..|log| - 1], tag) + (if log[|log| - 1].Mutation? && log[|log| - 1].tag == tag then 1 else 0)
  }

  lemma {:induction false} CountTagConcat(a: Log, b: Log, tag: nat)
    ensures CountTag(a + b, tag) == CountTag(a, tag) + CountTag(b, tag)
  {
    if |b| == 0 {
      assert a + b == a;
    } else {
      CountTagConcat(a, b[..|b| - 1], tag);
      assert (a + b)[..|a + b| - 1] == a + b[..|b| - 1];
    }
  }

  /** The mutations of one attempt. */
  lemma AttemptTags(log: Log, mark: nat, job: Job)
    ensures CountTag(ExecTxs(log, mark, job), job.tag) == (if Reaches(log, job) && job.outcome.writes.Some? then 1 else 0)
  {
    hide Reaches;
    var txs := ExecTxs(log, mark, job);
    if |txs| == 1 {
      assert txs == [] + [txs[0]];
      CountTagConcat([], [txs[0]], job.tag);
      assert [txs[0]][..0] == [];
    } else if |txs| == 2 {
      assert txs == [txs[0]] + [txs[1]] && txs[1].Record?;
      CountTagConcat([txs[0]], [txs[1]], job.tag);
      assert [txs[0]][..0] == [] && [txs[1]][..0] == [];
    }
  }

  /** A keyed attempt that SQLite does not reject is the last one to reach it. */
  lemma RunsNoMore(log: Log, mark: nat, job: Job)
    requires job.idempotency.Some? && Reaches(log, job)
    ensures Reaches(log + ExecTxs(log, mark, job), job) <==> job.outcome.Reject?
  {
    hide ValidIdempotency;
    var txs, key := ExecTxs(log, mark, job), job.idempotency.value.key;
    FindRecordConcat(log, txs, key);
    if |txs| == 2 {
      assert FindRecord(txs, key) == FindRecord(txs[1..], key);
      assert txs[1..] == [txs[1]];
    } else if |txs| == 1 {
      assert txs[1..] == [];
    }
  }

  /**
   A keyed request, delivered any number of times and going differently each time: every delivery
   that fails after changing rows changes them, and one more at most does; none does after that.
   */
  lemma {:induction false} KeyedRetriesApplyOnce(log: Log, ds: seq<Delivery>, job: Job)
    requires job.idempotency.Some?
    ensures
      var torn := TornDeliveries(log, ds, job);
      var after := CountTag(Delivered(log, ds, job), job.tag) - CountTag(log, job.tag);
      && torn <= after <= torn + 1
      && (Reaches(Delivered(log, ds, job), job) ==> after == torn)
  {
    hide ValidIdempotency, JobTxs, WithBookmark, Reaches;
    if |ds| > 0 {
      var d := ds[|ds| - 1];
      var last, before := Attempt(job, d), Delivered(log, ds[..|ds| - 1], job);
      KeyedRetriesApplyOnce(log, ds[..|ds| - 1], job);
      CountTagConcat(before, ExecTxs(before, d.commitSeq, last), job.tag);
      AttemptTags(before, d.commitSeq, last);
      OutcomeDoesNotReach(before, job, d);
      OutcomeDoesNotReach(Delivered(log, ds, job), job, d);
      if Reaches(before, last) {
        RunsNoMore(before, d.commitSeq, last);
      } else {
        assert before + [] == before;
      }
    }
  }

  /** Whether a job reaches SQLite is settled before its outcome is known. */
  lemma OutcomeDoesNotReach(log: Log, job: Job, d: Delivery)
    ensures Reaches(log, Attempt(job, d)) == Reaches(log, job)
  {
  }

  /** If every delivery fails after changing rows, every one of them changes rows. */
  lemma {:induction false} TornRetriesRepeat(log: Log, ds: seq<Delivery>, job: Job)
    requires job.idempotency.Some? && Reaches(log, job)
    requires forall i :: 0 <= i < |ds| ==> Torn(Attempt(job, ds[i]))
    ensures CountTag(Delivered(log, ds, job), job.tag) == CountTag(log, job.tag) + |ds|
    ensures Reaches(Delivered(log, ds, job), job)
  {
    if |ds| > 0 {
      hide ValidIdempotency, JobTxs, WithBookmark, Reaches, FindRecord;
      var d := ds[|ds| - 1];
      var last, before := Attempt(job, d), Delivered(log, ds[..|ds| - 1], job);
      TornRetriesRepeat(log, ds[..|ds| - 1], job);
      CountTagConcat(before, ExecTxs(before, d.commitSeq, last), job.tag);
      AttemptTags(before, d.commitSeq, last);
      OutcomeDoesNotReach(before, job, d);
      RunsNoMore(before, d.commitSeq, last);
      OutcomeDoesNotReach(Delivered(log, ds, job), job, d);
    }
  }

  lemma {:induction false} NoneIsTorn(log: Log, ds: seq<Delivery>, job: Job)
    requires forall i :: 0 <= i < |ds| ==> !Torn(Attempt(job, ds[i]))
    ensures TornDeliveries(log, ds, job) == 0
  {
    if |ds| > 0 {
      NoneIsTorn(log, ds[..|ds| - 1], job);
    }
  }

  /**
   However the answers fall, a forwarded write changes rows at most once, unless it has a key and an
   attempt fails after changing rows: `delivered` of its sends reach the primary.
   */
  lemma ForwardedWriteAppliesOnce(m: Method, job: Job, configured: nat, sends: nat, log: Log, delivered: seq<Delivery>)
    requires !m.Get? && !m.Head?
    requires sends <= MaxAttempts(m, job.idempotency.Some?, configured) && |delivered| <= sends
    requires forall i :: 0 <= i < |delivered| ==> !Torn(Attempt(job, delivered[i]))
    ensures CountTag(Delivered(log, delivered, job), job.tag) <= CountTag(log, job.tag) + 1
  {
    if job.idempotency.Some? {
      KeyedRetriesApplyOnce(log, delivered, job);
      NoneIsTorn(log, delivered, job);
    } else if |delivered| == 1 {
      var d := delivered[0];
      assert delivered[..0] == [];
      CountTagConcat(log, ExecTxs(log, d.commitSeq, Attempt(job, d)), job.tag);
      AttemptTags(log, d.commitSeq, Attempt(job, d));
    }
  }

  // ---- The retry rules, in plain numbers --------------------------------------------------------

  /** Only these answers are tried again, and a request that may change something only with a key. */
  lemma RetriesInPlain(m: Method, keyed: bool, configured: nat, status: nat)
    ensures Transient(Response(status)) <==> status in {408, 429, 502, 503, 504}
    ensures Transient(Broken(status)) <==> status in {502, 504}
    ensures (Verdict(Response(status)) == Success(()) <==> 200 <= status <= 299) && Verdict(Broken(status)).Failure?
    ensures (m == Get || m == Head || keyed) && configured > 0 ==> MaxAttempts(m, keyed, configured) == configured
    ensures !(m == Get || m == Head || keyed) || configured == 0 ==> MaxAttempts(m, keyed, configured) == 1
  {
  }
}
