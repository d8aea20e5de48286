/**
 One read after another: a read answers with a bookmark too (rust-core/src/runtime.rs,
 select_rows_at_bookmark), and a later read may ask for it.
 */
module RepeatedReads {
  import opened Wrappers
  import opened Database
  import opened Storage
  import opened Protocol
  import opened ProtocolSteps
  import opened ProtocolTheorems

  ghost predicate IsVersion(pub: seq<Version>, mark: nat, log: Log) {
    exists j :: 0 <= j < |pub| && pub[j] == Version(mark, log)
  }

  /** What some read may see, with the number it answers: a published version, or the idle writer's own state. */
  ghost predicate Seen(s: Sys, mark: nat, log: Log) {
    || IsVersion(s.published, mark, log)
    || (&& s.project.Some? && s.phase.Idle?
        && s.project.value.commitSeq == mark && s.project.value.Content() == log)
  }

  /** It is published, and no version that has reached the number holds less. */
  ghost predicate Settled(s: Sys, mark: nat, log: Log) {
    && log <= DurableLog(s)
    && forall k :: 0 <= k < |s.published| && mark <= s.published[k].mark ==> |log| <= |s.published[k].log|
  }

  /** Whatever happens next, every read that has reached the number sees all of it. */
  ghost predicate Kept(s: Sys, mark: nat, log: Log) {
    forall es: seq<Event>, later: nat, seen: Log {:trigger Seen(Run(s, es).value, later, seen)} ::
      Run(s, es).Some? && Seen(Run(s, es).value, later, seen) && mark <= later ==> log <= seen
  }

  lemma {:induction false} RunGrowsHistory(s: Sys, es: seq<Event>)
    requires Run(s, es).Some?
    ensures s.published <= Run(s, es).value.published
  {
    hide Apply;
    if |es| > 0 {
      var front := es[..|es| - 1];
      RunGrowsHistory(s, front);
      StepGrowsHistory(Run(s, front).value, es[|es| - 1]);
    }
  }

  /** A settled log is part of every version that has reached its number, now or later. */
  lemma SettledInVersions(s: Sys, pub: seq<Version>, mark: nat, log: Log, later: nat, seen: Log)
    requires Settled(s, mark, log) && s.published <= pub && HistoryOk(pub)
    requires IsVersion(pub, later, seen) && mark <= later
    ensures log <= seen
  {
    hide Accounted, RowsUpTo;
    var k :| 0 <= k < |pub| && pub[k] == Version(later, seen);
    if |s.published| > 0 {
      var last := |s.published| - 1;
      assert pub[last] == s.published[last];
      if k < |s.published| {
        assert pub[k] == s.published[k] && pub[k].log <= pub[last].log;
      } else {
        assert pub[last].log <= pub[k].log;
      }
    }
  }

  /** What is settled stays settled. */
  lemma SettledStays(s: Sys, mark: nat, log: Log, t: Sys)
    requires Settled(s, mark, log) && s.published <= t.published && HistoryOk(t.published)
    ensures Settled(t, mark, log)
  {
    hide Accounted, RowsUpTo;
    if |s.published| > 0 {
      var last := |s.published| - 1;
      assert t.published[last] == s.published[last];
      forall k | 0 <= k < |t.published| && mark <= t.published[k].mark
        ensures |log| <= |t.published[k].log|
      {
        if k < |s.published| {
          assert t.published[k] == s.published[k];
        } else {
          assert t.published[last].log <= t.published[k].log;
        }
      }
      assert t.published[last].log <= DurableLog(t);
    }
  }

  lemma SettledIsKept(s: Sys, mark: nat, log: Log)
    requires Inv(s) && Settled(s, mark, log)
    ensures Kept(s, mark, log)
  {
    hide Run, Inv, Settled, Committed;
    forall es: seq<Event>, later: nat, seen: Log
      | Run(s, es).Some? && Seen(Run(s, es).value, later, seen) && mark <= later
      ensures log <= seen
    {
      var t := Run(s, es).value;
      RunFromKeepsInv(s, es);
      RunGrowsHistory(s, es);
      HistoryHolds(t);
      if IsVersion(t.published, later, seen) {
        SettledInVersions(s, t.published, mark, log, later, seen);
      } else {
        SettledIsDurable(s, mark, log);
        LaterLogIsLonger(s, t);
        LiveFacts(t);
      }
    }
  }

  lemma SettledIsDurable(s: Sys, mark: nat, log: Log)
    requires Settled(s, mark, log)
    ensures log <= DurableLog(s)
  {
  }

  lemma HistoryHolds(s: Sys)
    requires Inv(s)
    ensures HistoryOk(s.published)
  {
  }

  // ---- The reads that are not kept -----------------------------------------------------

  /** Some later run in which a read that has reached the number misses a part. */
  lemma UnsettledIsLost(s: Sys, mark: nat, log: Log) returns (es: seq<Event>, later: nat, seen: Log)
    requires Inv(s) && Seen(s, mark, log) && !Settled(s, mark, log)
    ensures Run(s, es).Some? && Seen(Run(s, es).value, later, seen) && mark <= later && !(log <= seen)
  {
    hide Run, Inv, Committed, HistoryOk;
    NothingRuns(s);
    if k: nat :| k < |s.published| && mark <= s.published[k].mark && |s.published[k].log| < |log| {
      es, later, seen := [], s.published[k].mark, s.published[k].log;
      assert s.published[k] == Version(later, seen);
    } else {
      HistoryHolds(s);
      if IsVersion(s.published, mark, log) {
        VersionIsDurable(s.published, mark, log);
      } else {
        LiveFacts(s);
        es, later, seen := LosesUnpublished(s);
      }
    }
  }

  lemma VersionIsDurable(pub: seq<Version>, mark: nat, log: Log)
    requires HistoryOk(pub) && IsVersion(pub, mark, log)
    ensures |pub| > 0 && log <= pub[|pub| - 1].log
  {
    hide Accounted, RowsUpTo;
  }

  /** What the idle writer holds past the durable log is gone after a crash, whatever number it had reached. */
  lemma LosesUnpublished(s: Sys) returns (es: seq<Event>, later: nat, seen: Log)
    requires Inv(s) && s.project.Some? && s.phase.Idle? && DurableLog(s) < s.project.value.Content()
    ensures Run(s, es).Some? && Seen(Run(s, es).value, later, seen) && s.project.value.commitSeq <= later
    ensures !(s.project.value.Content() <= seen)
  {
    hide Run, Inv, Committed;
    var mark, log := s.project.value.commitSeq, s.project.value.Content();
    IdleIsPublished(s);
    ReopensReady(s);
    var t := Run(s, [Crash, Open]).value;
    if mark <= t.project.value.commitSeq {
      es, later, seen := [Crash, Open], t.project.value.commitSeq, DurableLog(s);
    } else {
      var lost := log[|DurableLog(s)|];
      var tag := if lost.Mutation? then lost.tag + 1 else 0;
      GoodFlushAdvances(t, tag);
      var u := Run(t, GoodFlush(tag)).value;
      var rest := FlushesReach(u, mark);
      RunConcat(t, GoodFlush(tag), rest);
      RunConcat(s, [Crash, Open], GoodFlush(tag) + rest);
      var v := Run(u, rest).value;
      es, later, seen := [Crash, Open] + (GoodFlush(tag) + rest), mark, v.project.value.Content();
      assert seen[|DurableLog(s)|] == u.project.value.Content()[|DurableLog(s)|] == Mutation(tag, None, false);
      ReadyIsSeen(v);
    }
  }

  lemma ReadyIsSeen(v: Sys)
    requires Ready(v)
    ensures Seen(v, v.project.value.commitSeq, v.project.value.Content())
  {
  }

  lemma IdleIsPublished(s: Sys)
    requires Inv(s) && s.project.Some? && s.phase.Idle?
    ensures |s.published| > 0 && s.project.value.commitSeq <= U64_MAX
    ensures s.published[|s.published| - 1].mark <= s.project.value.commitSeq
  {
    hide ManifestOk, HistoryOk, AckOk, Accounted, SegmentsHold, ChainOk, VolatileAhead, RowsUpTo, Shipped, Committed;
  }

  lemma OpenKeepsHistory(s: Sys)
    ensures Apply(s, Crash).Some?
    ensures
      Apply(Apply(s, Crash).value, Open).Some? ==>
      var t := Apply(Apply(s, Crash).value, Open).value;
      t.published == s.published && t.phase.Idle?
  {
    hide Restore, LoadManifest, Committed, TotalLen, NextId;
  }

  lemma ReopensReady(s: Sys)
    requires Inv(s) && |s.published| > 0
    ensures
      var t := Run(s, [Crash, Open]);
      && t.Some? && Ready(t.value) && t.value.published == s.published
      && t.value.project.value.Content() == DurableLog(s)
      && t.value.project.value.commitSeq == s.published[|s.published| - 1].mark
  {
    hide Inv, Apply, Run, Restore, LoadManifest, Committed;
    ReopenRestores(s);
    OpenKeepsHistory(s);
    Run2(s, Crash, Open);
    RunFromKeepsInv(s, [Crash, Open]);
  }

  /**
   Read after read. What an Ok read saw is in every later Ok read that has reached the number it
   answered, in every run from there, exactly when it was settled: none of it was waiting to be
   published, and no version of that number holds less.
   */
  lemma ReadsAreMonotone(s: Sys, mark: nat, log: Log)
    requires Inv(s) && Seen(s, mark, log)
    ensures Kept(s, mark, log) <==> Settled(s, mark, log)
    ensures Settled(s, mark, log) <==>
              && |log| <= |DurableLog(s)|
              && forall k :: 0 <= k < |s.published| && s.published[k].mark == mark ==> |log| <= |s.published[k].log|
  {
    hide Run, Inv, Settled;
    if Settled(s, mark, log) {
      SettledIsKept(s, mark, log);
    } else {
      var es, later, seen := UnsettledIsLost(s, mark, log);
    }
    SettledByLength(s, mark, log);
  }

  /** For what a read saw it is enough to look at the versions of its own number, and at lengths. */
  lemma SettledByLength(s: Sys, mark: nat, log: Log)
    requires Inv(s) && Seen(s, mark, log)
    ensures Settled(s, mark, log) <==>
              && |log| <= |DurableLog(s)|
              && forall k :: 0 <= k < |s.published| && s.published[k].mark == mark ==> |log| <= |s.published[k].log|
  {
    hide Inv, Committed;
    HistoryHolds(s);
    if IsVersion(s.published, mark, log) {
      VersionIsDurable(s.published, mark, log);
      HigherHoldMore(s.published, mark, log);
    } else {
      IdleIsPublished(s);
      LiveFacts(s);
      NoHigherMarks(s.published, mark);
    }
  }

  lemma HigherHoldMore(pub: seq<Version>, mark: nat, log: Log)
    requires HistoryOk(pub) && IsVersion(pub, mark, log)
    ensures forall k :: 0 <= k < |pub| && mark < pub[k].mark ==> |log| <= |pub[k].log|
  {
    hide Accounted, RowsUpTo;
    var j :| 0 <= j < |pub| && pub[j] == Version(mark, log);
    forall k | 0 <= k < |pub| && mark < pub[k].mark
      ensures |log| <= |pub[k].log|
    {
      assert pub[j].log <= pub[k].log;
    }
  }

  lemma NoHigherMarks(pub: seq<Version>, mark: nat)
    requires HistoryOk(pub) && |pub| > 0 && pub[|pub| - 1].mark <= mark
    ensures forall k :: 0 <= k < |pub| ==> pub[k].mark <= mark
  {
    hide Accounted, RowsUpTo;
  }

  /**
   Both halves of the condition are needed. A compaction that publishes what a failed flush left
   behind gives the same number to a longer version.
   */
  lemma CompactionRepeatsNumber(s: Sys, job: Job)
    requires Ready(s)
    requires job.idempotency.Some? && Runs(s.project.value.Content(), job) && HonestJob(job)
    ensures
      var t := Run(s, KeptUnflushed(job));
      && t.Some? && Inv(t.value) && Seen(t.value, s.project.value.commitSeq, DurableLog(t.value))
      && !Settled(t.value, s.project.value.commitSeq, DurableLog(t.value))
  {
    hide Inv, Run, ExecJob, Committed, Vacuum, Accounted, RunJobs, FindRecord;
    var p := s.project.value;
    OneJob(p, job);
    UnflushedState(s, job);
    var u := Run(s, [Execute([job]), ShipSegment(false), StartCompaction]).value;
    CompactsThere(u);
    RunConcat(s, [Execute([job]), ShipSegment(false), StartCompaction],
              [PutSnapshot(true), PutSwitch(true)] + [SwapCache, FinishCompaction]);
    RunFromKeepsInv(s, KeptUnflushed(job));
    var t := Run(s, KeptUnflushed(job)).value;
    RunGrowsHistory(s, KeptUnflushed(job));
    LiveFacts(s);
    var k := |s.published| - 1;
    assert t.published[k] == s.published[k];
    assert t.published[|t.published| - 1] == Version(p.commitSeq, DurableLog(t));
  }
}
