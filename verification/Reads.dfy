/**
 Reads that ask for a bookmark, on a runtime that may be a read replica or simply stale
 (rust-core/src/runtime.rs, ensure_project_for_read to rehydrate_state_from_manifest). The
 primary keeps running its write path between any two store reads.
 */
module Reads {
  import opened Wrappers
  import opened Database
  import opened Storage
  import opened Protocol
  import opened ProtocolSteps
  import opened ProtocolTheorems
  import opened RepeatedReads

  // ---- The primary, seen from outside -------------------------------------

  /** A primary in any state its write path can be in, and any number of its steps. */
  class Primary {
    var sys: Sys
    /** Steps taken so far. */
    ghost var moves: nat

    ghost predicate Valid()
      reads this
    {
      Inv(sys)
    }

    constructor ()
      ensures Valid() && sys == Init() && moves == 0
    {
      sys, moves := Init(), 0;
    }

    /** One step that somebody is known to take. */
    method Perform(e: Event)
      requires Valid() && Apply(sys, e).Some?
      modifies this
      ensures Valid() && sys == Apply(old(sys), e).value && moves == old(moves) + 1
      ensures old(sys.published) <= sys.published && old(sys.acks) <= sys.acks
    {
      hide Inv, Apply;
      StepKeepsInv(sys, e);
      StepGrowsHistory(sys, e);
      sys, moves := Apply(sys, e).value, moves + 1;
    }

    method Advance()
      requires Valid()
      modifies this
      ensures Valid() && old(sys.published) <= sys.published && old(sys.acks) <= sys.acks
      ensures moves >= old(moves) && (moves == old(moves) ==> sys == old(sys))
    {
      hide Inv, Apply;
      var steps: nat := *;
      while steps > 0
        invariant Valid() && old(sys.published) <= sys.published && old(sys.acks) <= sys.acks
        invariant moves >= old(moves) && (moves == old(moves) ==> sys == old(sys))
      {
        var e: Event := *;
        var next := Apply(sys, e);
        if next.Some? {
          StepKeepsInv(sys, e);
          StepGrowsHistory(sys, e);
          sys, moves := next.value, moves + 1;
        }
        steps := steps - 1;
      }
    }
  }

  // ---- What a version contains ------------------------------------------------

  /** A version whose number has reached an acknowledged bookmark contains that write. */
  lemma NewerVersionHasAck(s: Sys, i: nat, j: nat)
    requires Inv(s) && i < |s.acks| && j < |s.published|
    requires s.acks[i].mark <= s.published[j].mark && s.acks[i].mark < U64_MAX
    ensures s.acks[i].job.outcome.Done?
    ensures LogHas(s.published[j].log, s.acks[i].at, JobTxs(s.acks[i].mark, s.acks[i].job))
  {
    hide WarmOk, StoreOk, Accounted, RowsUpTo;
    var a := s.acks[i];
    assert AckOk(a, s.published);
    assert j >= a.version;
    assert s.published[a.version].log <= s.published[j].log;
  }

  /** The versions that contain an acknowledged write are its own and the later ones. */
  lemma VersionsWithAck(s: Sys, i: nat, j: nat)
    requires Inv(s) && i < |s.acks| && j < |s.published|
    requires JobTxs(s.acks[i].mark, s.acks[i].job) != []
    ensures LogHas(s.published[j].log, s.acks[i].at, JobTxs(s.acks[i].mark, s.acks[i].job)) <==> j >= s.acks[i].version
  {
    hide WarmOk, StoreOk, Accounted, RowsUpTo, JobTxs;
    var a := s.acks[i];
    assert AckOk(a, s.published);
    if j < a.version {
      assert |s.published[j].log| <= |s.published[a.version - 1].log| <= a.at;
    } else {
      assert s.published[a.version].log <= s.published[j].log;
    }
  }

  /**
   Exactly when a bookmark can be trusted: every version that has reached it contains the write,
   if and only if the version before the write had not reached it yet. That fails only for the
   largest 64-bit number, which a saturated counter repeats.
   */
  lemma BookmarkIsTrustworthy(s: Sys, i: nat)
    requires Inv(s) && i < |s.acks| && JobTxs(s.acks[i].mark, s.acks[i].job) != []
    ensures
      var a := s.acks[i];
      && a.version < |s.published|
      && ((forall j :: 0 <= j < |s.published| && a.mark <= s.published[j].mark ==>
             LogHas(s.published[j].log, a.at, JobTxs(a.mark, a.job)))
          <==> a.version == 0 || s.published[a.version - 1].mark < a.mark)
      && (a.mark < U64_MAX ==> a.version == 0 || s.published[a.version - 1].mark < a.mark)
  {
    hide WarmOk, StoreOk, Accounted, RowsUpTo, JobTxs, LogHas, LogBefore;
    var a := s.acks[i];
    assert AckOk(a, s.published);
    forall j | 0 <= j < |s.published|
      ensures LogHas(s.published[j].log, a.at, JobTxs(a.mark, a.job)) <==> j >= a.version
    {
      VersionsWithAck(s, i, j);
    }
    if a.version > 0 && s.published[a.version - 1].mark < a.mark {
      forall j | 0 <= j < a.version
        ensures s.published[j].mark < a.mark
      {
        assert s.published[j].mark <= s.published[a.version - 1].mark;
      }
    }
  }

  /** A run whose last write was acknowledged with a bookmark that an earlier version carries too. */
  lemma SaturatedBookmarkMisses() returns (es: seq<Event>, i: nat, j: nat)
    ensures
      var s := Run(Init(), es);
      && s.Some? && i < |s.value.acks| && j < |s.value.published| && s.value.acks[i].job == PlainJob(0)
      && s.value.acks[i].mark <= s.value.published[j].mark
      && !LogHas(s.value.published[j].log, s.value.acks[i].at, JobTxs(s.value.acks[i].mark, s.value.acks[i].job))
  {
    hide Run, Inv, LogHas;
    var front := EveryMarkIsReached(U64_MAX);
    var s := Run(Init(), front).value;
    GoodFlushAdvances(s, 0);
    RunConcat(Init(), front, GoodFlush(0));
    es, i, j := front + GoodFlush(0), |s.acks|, |s.published| - 1;
    var t := Run(Init(), es).value;
    assert t.acks[i] == Ack(PlainJob(0), U64_MAX, |s.project.value.Content()|, |s.published|);
    assert t.published[j] == s.published[j];
    VersionsWithAck(t, i, j);
  }

  /** On the writing runtime itself every acknowledged write is in the live database. */
  lemma WriterSeesItsWrites(s: Sys, i: nat)
    requires Inv(s) && s.project.Some? && i < |s.acks|
    ensures s.acks[i].job.outcome.Done?
    ensures LogHas(s.project.value.Content(), s.acks[i].at, JobTxs(s.acks[i].mark, s.acks[i].job))
  {
    hide ManifestOk, PhaseOk, HistoryOk, AckOk, Accounted, VolatileAhead, ChainOk, Shipped, Committed, Vacuum;
    AckInDurableLog(s, i);
    var p := s.project.value;
    if s.phase.Compact? && s.phase.stage.Swap? {
      SwapNamesLive(p);
    } else {
      ManifestBehindLive(s.store, p, Stored(s));
    }
  }

  lemma StoredIsVersion(s: Sys)
    requires Inv(s) && LoadManifest(s.store).Success? && LoadManifest(s.store).value.Some?
    ensures
      var m := LoadManifest(s.store).value.value;
      && |s.published| > 0 && s.published[|s.published| - 1] == Version(m.commitSeq, ShippedImage(m).Content())
      && IsVersion(s.published, m.commitSeq, ShippedImage(m).Content())
      && m.commitSeq == LastMark(s.published)
  {
    hide WarmOk, HistoryOk, AckOk, ManifestOk;
  }

  function LastMark(pub: seq<Version>): nat {
    if |pub| == 0 then 0 else pub[|pub| - 1].mark
  }

  lemma LaterHistory(a: seq<Version>, b: seq<Version>, mark: nat, log: Log)
    requires a <= b && HistoryOk(b)
    ensures LastMark(a) <= LastMark(b)
    ensures IsVersion(a, mark, log) ==> IsVersion(b, mark, log)
    ensures IsVersion(b, mark, log) ==> mark <= LastMark(b)
  {
    hide Accounted, RowsUpTo;
    if |a| > 0 {
      assert b[|a| - 1] == a[|a| - 1];
    }
    if IsVersion(a, mark, log) {
      var j :| 0 <= j < |a| && a[j] == Version(mark, log);
      assert b[j] == Version(mark, log);
    }
  }

  // ---- The reading runtime -------------------------------------------------------

  const NOT_YET := ApiError(425)
  const NOT_ON_REPLICA := ApiError(404)

  class ReadRuntime {
    const primary: Primary
    const readReplica: bool

    // The handle's state; `image` is None while the connection is the empty in-memory
    // placeholder that a failed rehydration leaves behind.
    var open: bool
    var commitSeq: nat
    var image: Option<Image>
    /** Reads and PUTs of this runtime that failed, and leases it was refused. */
    ghost var faults: nat

    /**
     An open handle holds exactly some published version, or it is a replica that a failed
     rehydration left without data, and then the primary is strictly ahead of its number.
     */
    ghost predicate Valid()
      reads this, primary
    {
      && primary.Valid()
      && (open && image.Some? ==> IsVersion(primary.sys.published, commitSeq, image.value.Content()))
      && (open && image.None? ==> readReplica && commitSeq < LastMark(primary.sys.published))
    }

    constructor (p: Primary, replica: bool)
      requires p.Valid()
      ensures Valid() && primary == p && readReplica == replica && !open
    {
      primary, readReplica := p, replica;
      open, commitSeq, image, faults := false, 0, None, 0;
    }

    /** Nothing of the past is lost while others act. */
    twostate predicate Later()
      reads this, primary
    {
      && old(primary.sys.published) <= primary.sys.published
      && old(primary.sys.acks) <= primary.sys.acks
      && old(faults) <= faults && old(primary.moves) <= primary.moves
      && (primary.moves == old(primary.moves) ==> primary.sys == old(primary.sys))
    }

    /** Nothing failed meanwhile, and the primary stood still. */
    twostate predicate Calm()
      reads this, primary
    {
      faults == old(faults) && primary.moves == old(primary.moves)
    }

    method Wait()
      requires Valid()
      modifies primary
      ensures Valid() && Later() && faults == old(faults)
    {
      hide Inv;
      primary.Advance();
      StayValid(primary.sys);
      if open && image.Some? {
        LaterHistory(old(primary.sys.published), primary.sys.published, commitSeq, image.value.Content());
      } else {
        LaterHistory(old(primary.sys.published), primary.sys.published, 0, []);
      }
    }

    /** One manifest read. Any store read may fail. */
    method ReadManifest() returns (r: Result<Option<Manifest>, ApiError>)
      modifies this`faults
      ensures faults >= old(faults)
      ensures r.Success? || faults == old(faults) ==> r == LoadManifest(primary.sys.store)
    {
      var fault: bool := *;
      faults := faults + if fault then 1 else 0;
      r := if fault then Failure(IO_ERROR) else LoadManifest(primary.sys.store);
    }

    method ReadVerifiedObject(key: Key, len: nat, sha: Digest) returns (r: Result<Blob, ApiError>)
      modifies this`faults
      ensures faults >= old(faults)
      ensures r.Success? ==> r.value == sha.of
      ensures faults == old(faults) ==> r == ReadVerified(primary.sys.store, key, len, sha)
      ensures r.Failure? ==> r.error == UNAVAILABLE
    {
      var fault: bool := *;
      faults := faults + if fault then 1 else 0;
      r := if fault then Failure(UNAVAILABLE) else ReadVerified(primary.sys.store, key, len, sha);
    }

    /**
     Snapshot and segments are fetched one by one while the primary may compact and reuse
     keys. The digests make that safe: what comes back is the manifest's own content or an
     error, and no error when nothing disturbs it.
     */
    method RestoreImage(m: Manifest) returns (r: Result<Image, ApiError>)
      requires Valid()
      modifies primary, this`faults
      ensures Valid() && Later()
      ensures r.Success? ==> r.value == ShippedImage(m)
      ensures r.Failure? ==> r.error == UNAVAILABLE
      ensures Calm() && LoadManifest(old(primary.sys.store)) == Success(Some(m)) ==> r.Success?
    {
      hide Inv, ReadVerified, LoadManifest, ManifestOk, Holds, ChainOk;
      ghost var stored := LoadManifest(primary.sys.store) == Success(Some(m));
      ghost var store := primary.sys.store;
      if stored { StoredManifestOk(primary.sys); }
      var base := ReadVerifiedObject(m.snapshot.key, m.snapshot.bytes, m.snapshot.sha);
      if base.Failure? {
        if stored { ManifestFits(store, m); }
        return Failure(base.error);
      }
      var file: Blob := [];
      var i := 0;
      while i < |m.segments|
        invariant 0 <= i <= |m.segments| && file == Shipped(m.segments[..i])
        invariant Valid() && Later()
      {
        Wait();
        if stored { SegmentFits(store, m, i); }
        var s := m.segments[i];
        if s.offset != |file| || (i > 0 && s.id != m.segments[i - 1].id + 1) {
          return Failure(UNAVAILABLE);
        }
        var bytes := ReadVerifiedObject(s.key, s.len, s.sha);
        if bytes.Failure? {
          return Failure(bytes.error);
        }
        assert m.segments[..i + 1][..i] == m.segments[..i];
        file := file + bytes.value;
        i := i + 1;
      }
      assert m.segments[..i] == m.segments;
      if |file| != m.durableBytes {
        if stored { ManifestFits(store, m); }
        return Failure(UNAVAILABLE);
      }
      return Success(Image(base.value, file));
    }

    /**
     `refresh_replica_state`: rehydrates exactly when the manifest is ahead of the local
     number; the requested number makes no difference. The number never decreases and after
     an Ok refresh is the larger of the two.
     */
    method RefreshReplicaState(requestedSeq: nat) returns (r: Result<bool, ApiError>, ghost remote: nat)
      requires Valid() && open
      modifies this`commitSeq, this`image, this`faults, primary
      ensures Valid() && Later()
      ensures remote == old(LastMark(primary.sys.published)) <= LastMark(primary.sys.published)
      ensures r.Success? && readReplica ==> commitSeq == if remote > old(commitSeq) then remote else old(commitSeq)
      ensures r.Success? && readReplica ==> r.value == (remote > old(commitSeq))
      ensures r.Success? ==> image.Some?
      ensures r.Failure? || !readReplica ==> commitSeq == old(commitSeq)
      ensures Calm() ==> r.Success?
      ensures r.Failure? ==> r.error == UNAVAILABLE || r.error == IO_ERROR
    {
      hide Inv;
      remote := LastMark(primary.sys.published);
      LaterHistory(primary.sys.published, primary.sys.published, 0, []) by {
        StayValid(primary.sys);
      }
      if !readReplica {
        return Success(false), remote;
      }
      var manifest := ReadManifest();
      if manifest.Failure? {
        ManifestReadable(primary.sys);
        return Failure(IO_ERROR), remote;
      }
      if manifest.value.None? {
        NoManifestNoVersions(primary.sys);
        return Success(false), remote;
      }
      var m := manifest.value.value;
      StoredIsVersion(primary.sys);
      if commitSeq >= m.commitSeq && commitSeq >= requestedSeq {
        return Success(false), remote;
      }
      if m.commitSeq <= commitSeq && m.commitSeq < requestedSeq {
        return Success(false), remote;
      }
      r := RehydrateStateFromManifest(m);
    }

    /** `rehydrate_state_from_manifest`: the old connection is gone before the new data arrives. */
    method RehydrateStateFromManifest(m: Manifest) returns (r: Result<bool, ApiError>)
      requires Valid() && open && readReplica && commitSeq < m.commitSeq
      requires LoadManifest(primary.sys.store) == Success(Some(m))
      modifies this`commitSeq, this`image, this`faults, primary
      ensures Valid() && Later()
      ensures r.Success? ==> r.value && commitSeq == m.commitSeq && image == Some(ShippedImage(m))
      ensures r.Failure? ==> r.error == UNAVAILABLE && commitSeq == old(commitSeq) && image.None?
      ensures old(LastMark(primary.sys.published)) <= LastMark(primary.sys.published)
      ensures Calm() ==> r.Success?
    {
      hide Inv;
      image := None;
      StoredIsVersion(primary.sys);
      LaterHistory(primary.sys.published, primary.sys.published, m.commitSeq, ShippedImage(m).Content()) by {
        StayValid(primary.sys);
      }
      var restored := RestoreImage(m);
      LaterHistory(old(primary.sys.published), primary.sys.published, m.commitSeq, ShippedImage(m).Content()) by {
        StayValid(primary.sys);
      }
      if restored.Failure? {
        return Failure(restored.error);
      }
      image, commitSeq := Some(restored.value), m.commitSeq;
      return Success(true);
    }

    /** Time passes without the handle's lock: the primary moves on, background refreshes run. */
    method Interfere()
      requires Valid() && open
      modifies this`commitSeq, this`image, this`faults, primary
      ensures Valid() && Later()
      ensures commitSeq >= old(commitSeq)
      ensures Calm() && old(image).Some? ==> image.Some?
    {
      hide Inv;
      var rounds: nat := *;
      while rounds > 0
        invariant Valid() && Later()
        invariant commitSeq >= old(commitSeq)
        invariant Calm() && old(image).Some? ==> image.Some?
      {
        Wait();
        if readReplica {
          var refreshed, _ := RefreshReplicaState(0);
        }
        rounds := rounds - 1;
      }
    }

    /**
     `wait_for_replica_bookmark`: refresh until the number is reached or time is up, which is
     not an error. `patience` bounds the rounds that fit in the timeout.
     */
    method WaitForReplicaBookmark(requestedSeq: nat, patience: nat)
        returns (r: Result<(), ApiError>, ghost timedOut: bool)
      requires Valid() && open && readReplica
      modifies this`commitSeq, this`image, this`faults, primary
      ensures Valid() && Later()
      ensures commitSeq >= old(commitSeq)
      ensures Calm() ==> r.Success? && image.Some? && commitSeq >= LastMark(primary.sys.published)
      ensures r.Success? && !timedOut ==> commitSeq >= requestedSeq
      ensures timedOut ==> r.Success?
      ensures r.Failure? ==> r.error != NOT_YET
    {
      hide Inv;
      timedOut := false;
      var left := patience;
      while true
        invariant Valid() && Later() && commitSeq >= old(commitSeq)
        invariant !timedOut
        decreases left
      {
        var refreshed, _ := RefreshReplicaState(requestedSeq);
        if refreshed.Failure? {
          return Failure(refreshed.error), false;
        }
        Interfere();
        if commitSeq >= requestedSeq {
          return Success(()), false;
        }
        if left == 0 {
          return Success(()), true;
        }
        Interfere();
        left := left - 1;
      }
    }

    /**
     The first open of a project that nobody has published, on a runtime that may write: the
     writer lease, which is refused while the primary is at work, then the first generation.
     Whatever goes wrong, other readers see a sound store.
     */
    method CreateProject() returns (r: Result<(), ApiError>)
      requires Valid() && !open && !readReplica && LoadManifest(primary.sys.store) == Success(None)
      modifies this, primary
      ensures Valid() && Later()
      ensures r.Success? <==> open
      ensures open ==> commitSeq == 0 && image.Some? && image.value.Content() == []
      ensures r.Failure? ==> r.error == ApiError(423) || r.error == IO_ERROR
      ensures !Calm()
      ensures old(primary.sys.project).None? && faults == old(faults) ==> r.Success?
      ensures old(primary.sys.project).Some? ==> r == Failure(ApiError(423)) && primary.sys == old(primary.sys)
    {
      hide Inv, Apply, Vacuum, Committed;
      NoManifestNoVersions(primary.sys);
      var held: bool := *;
      if !held || primary.sys.project.Some? {
        faults := faults + 1;
        return Failure(ApiError(423));
      }
      NoManifestIdle(primary.sys);
      CreationSteps(primary.sys);
      primary.Perform(OpenFresh);
      var ok: bool := *;
      UploadStep(primary.sys, ok);
      primary.Perform(PutSnapshot(ok));
      if !ok {
        faults := faults + 1;
        return Failure(IO_ERROR);
      }
      ok := *;
      PublishFirstStep(primary.sys, ok);
      primary.Perform(PutSwitch(ok));
      if !ok {
        faults := faults + 1;
        return Failure(IO_ERROR);
      }
      FirstVersion();
      ok := *;
      LastSteps(primary.sys, ok);
      primary.Perform(SwapCache);
      primary.Perform(PutLog(0, ok));
      primary.Perform(FinishCompaction);
      CrashStep(primary.sys);
      primary.Perform(Crash);
      if !ok {
        faults := faults + 1;
        return Failure(IO_ERROR);
      }
      assert primary.sys.published[0] == Version(0, []);
      open, commitSeq, image := true, 0, Some(Image(SnapshotBlob(FreshProject()), []));
      return Success(());
    }

    /**
     `ensure_project` on a runtime that reads: restore the current manifest. Without one a replica
     answers 404, any other runtime creates the project.
     */
    method EnsureProject() returns (r: Result<(), ApiError>)
      requires Valid()
      modifies this, primary
      ensures Valid() && Later()
      ensures Calm() ==> (r.Success? <==> old(open) || |primary.sys.published| > 0)
      ensures Calm() && r.Failure? ==> r == Failure(NOT_ON_REPLICA)
      ensures r.Success? <==> open
      ensures old(open) ==> open && commitSeq == old(commitSeq) && image == old(image)
      ensures open && !old(open) ==> image.Some? && commitSeq >= old(LastMark(primary.sys.published))
      ensures r == Failure(NOT_ON_REPLICA) ==> readReplica && old(|primary.sys.published|) == 0
      ensures r.Failure? ==> r.error != NOT_YET
    {
      hide Inv;
      if open {
        return Success(());
      }
      var manifest := ReadManifest();
      if manifest.Failure? {
        ManifestReadable(primary.sys);
        return Failure(IO_ERROR);
      }
      if manifest.value.None? {
        NoManifestNoVersions(primary.sys);
        if readReplica {
          return Failure(NOT_ON_REPLICA);
        }
        r := CreateProject();
        return;
      }
      var m := manifest.value.value;
      StoredIsVersion(primary.sys);
      var restored := RestoreImage(m);
      LaterHistory(old(primary.sys.published), primary.sys.published, m.commitSeq, ShippedImage(m).Content()) by {
        StayValid(primary.sys);
      }
      if restored.Failure? {
        return Failure(restored.error);
      }
      open, commitSeq, image := true, m.commitSeq, Some(restored.value);
      return Success(());
    }

    /**
     `ensure_project_for_read`, with others acting whenever the handle's lock is free. An Ok
     answer means the local number has reached the requested one; 425 is the answer when it has
     not, even from the current manifest, and nothing else is. Without a bookmark a replica, and
     any handle opened for the read, has reached what was published when the read began. When no
     read fails and the primary stands still, only a project or a number that is not there is refused.
     */
    method EnsureProjectForRead(minBookmark: Option<nat>, patience: nat) returns (r: Result<(), ApiError>)
      requires Valid()
      modifies this, primary
      ensures Valid() && Later()
      ensures r.Success? ==> open && (minBookmark.Some? ==> commitSeq >= minBookmark.value)
      ensures r.Success? && minBookmark.None? && (readReplica || !old(open)) ==>
                commitSeq >= old(LastMark(primary.sys.published))
      ensures r == Failure(NOT_YET) ==> minBookmark.Some? && open && commitSeq < minBookmark.value
      ensures r == Failure(NOT_ON_REPLICA) ==> readReplica
      ensures Calm() && r.Success? ==> image.Some?
      ensures Calm() && |primary.sys.published| > 0 && (minBookmark.Some? ==> minBookmark.value <= LastMark(primary.sys.published))
              ==> r.Success?
      ensures Calm() && r.Failure? ==>
                r == Failure(if |primary.sys.published| > 0 then NOT_YET else NOT_ON_REPLICA)
    {
      hide Inv, IsVersion, LastMark, LoadManifest;
      r := EnsureProject();
      if r.Failure? {
        return;
      }
      StayValid(primary.sys);
      LaterHistory(old(primary.sys.published), primary.sys.published, 0, []);
      if minBookmark.None? {
        if readReplica {
          var refreshed, _ := RefreshReplicaState(0);
          if refreshed.Failure? {
            return Failure(refreshed.error);
          }
        }
        return Success(());
      }
      r := ReachBookmark(minBookmark.value, patience);
    }

    /** The rest, for a bookmark: wait for it on a replica, and if it is not reached open the project again. */
    method ReachBookmark(requested: nat, patience: nat) returns (r: Result<(), ApiError>)
      requires Valid() && open
      modifies this, primary
      ensures Valid() && Later()
      ensures r.Success? ==> open && commitSeq >= requested
      ensures r == Failure(NOT_YET) ==> open && commitSeq < requested
      ensures r == Failure(NOT_ON_REPLICA) ==> readReplica
      ensures Calm() && r.Success? ==> image.Some?
      ensures Calm() && |primary.sys.published| > 0 && requested <= LastMark(primary.sys.published) ==> r.Success?
      ensures Calm() && r.Failure? ==>
                r == Failure(if |primary.sys.published| > 0 then NOT_YET else NOT_ON_REPLICA)
    {
      hide Inv, IsVersion, LastMark, LoadManifest;
      if readReplica {
        var waited, _ := WaitForReplicaBookmark(requested, patience);
        if waited.Failure? {
          return waited;
        }
      }
      Interfere();
      if commitSeq >= requested {
        return Success(());
      }
      open, image := false, None;
      r := EnsureProject();
      if r.Failure? {
        return;
      }
      Interfere();
      if commitSeq >= requested {
        return Success(());
      }
      return Failure(NOT_YET);
    }

    /**
     A read, to the end: the handle, some interference, then the query, which fails on the
     placeholder since it has no tables. An Ok read sees one published version. With a bookmark
     it sees every write acknowledged with that one or an earlier one, and whatever a read
     answered with it had seen, if that was settled by now. Without one, on a replica or a
     handle opened for it, it sees every write acknowledged before it began.
     */
    method Read(bookmark: Option<nat>, patience: nat) returns (r: Result<Log, ApiError>)
      requires Valid()
      modifies this, primary
      ensures Valid() && Later()
      ensures r.Success? ==> IsVersion(primary.sys.published, commitSeq, r.value)
      ensures r.Success? && bookmark.Some? ==> bookmark.value <= commitSeq
      ensures r.Success? && bookmark.Some? ==> SeesAcksUpTo(primary.sys, r.value, bookmark.value)
      ensures r.Success? && bookmark.Some? ==>
                forall seen: Log :: old(Settled(primary.sys, bookmark.value, seen)) ==> seen <= r.value
      ensures r.Success? && bookmark.None? && (readReplica || !old(open)) ==>
                && old(LastMark(primary.sys.published)) <= commitSeq
                && SeesAcksUpTo(primary.sys, r.value, old(LastMark(primary.sys.published)))
      ensures Calm() && |primary.sys.published| > 0 && (bookmark.Some? ==> bookmark.value <= LastMark(primary.sys.published))
              ==> r.Success?
      ensures Calm() && r.Failure? ==>
                r == Failure(if |primary.sys.published| > 0 then NOT_YET else NOT_ON_REPLICA)
    {
      hide Inv, Settled;
      ghost var before := primary.sys;
      var handle := EnsureProjectForRead(bookmark, patience);
      if handle.Failure? {
        return Failure(handle.error);
      }
      Interfere();
      if image.None? {
        return Failure(NOT_ON_REPLICA);
      }
      if bookmark.Some? {
        VersionSeesAcks(primary.sys, commitSeq, image.value.Content(), bookmark.value);
        StayValid(primary.sys);
        forall seen: Log | Settled(before, bookmark.value, seen)
          ensures seen <= image.value.Content()
        {
          SettledInVersions(before, primary.sys.published, bookmark.value, seen, commitSeq, image.value.Content());
        }
      } else if readReplica || !old(open) {
        VersionSeesAcks(primary.sys, commitSeq, image.value.Content(), LastMark(before.published));
      }
      return Success(image.value.Content());
    }
  }

  /** Every write acknowledged with a bookmark up to `mark` is in the log, where it was committed. */
  ghost predicate SeesAcksUpTo(s: Sys, log: Log, mark: nat) {
    forall i :: 0 <= i < |s.acks| && s.acks[i].mark <= mark && s.acks[i].mark < U64_MAX ==>
      s.acks[i].job.outcome.Done? && LogHas(log, s.acks[i].at, JobTxs(s.acks[i].mark, s.acks[i].job))
  }

  /** Read your writes, for any version a reader may hold. */
  lemma VersionSeesAcks(s: Sys, have: nat, log: Log, mark: nat)
    requires Inv(s) && IsVersion(s.published, have, log) && mark <= have
    ensures SeesAcksUpTo(s, log, mark)
  {
    hide Inv;
    var j :| 0 <= j < |s.published| && s.published[j] == Version(have, log);
    forall i | 0 <= i < |s.acks| && s.acks[i].mark <= mark && s.acks[i].mark < U64_MAX
      ensures s.acks[i].job.outcome.Done? && LogHas(log, s.acks[i].at, JobTxs(s.acks[i].mark, s.acks[i].job))
    {
      NewerVersionHasAck(s, i, j);
    }
  }

  lemma StoredManifestOk(s: Sys)
    requires Inv(s) && LoadManifest(s.store).Success? && LoadManifest(s.store).value.Some?
    ensures ManifestOk(s.store, LoadManifest(s.store).value.value)
  {
    hide WarmOk, HistoryOk, AckOk, ManifestOk;
  }

  lemma ManifestReadable(s: Sys)
    requires Inv(s)
    ensures LoadManifest(s.store).Success?
  {
    hide WarmOk, HistoryOk, AckOk, ManifestOk;
  }

  lemma ManifestFits(store: Store, m: Manifest)
    requires ManifestOk(store, m)
    ensures ReadVerified(store, m.snapshot.key, m.snapshot.bytes, m.snapshot.sha) == Success(m.snapshot.sha.of)
    ensures |Shipped(m.segments)| == m.durableBytes
  {
  }

  lemma SegmentFits(store: Store, m: Manifest, i: nat)
    requires ManifestOk(store, m) && i < |m.segments|
    ensures m.segments[i].offset == |Shipped(m.segments[..i])|
    ensures i > 0 ==> m.segments[i].id == m.segments[i - 1].id + 1
    ensures ReadVerified(store, m.segments[i].key, m.segments[i].len, m.segments[i].sha) == Success(m.segments[i].sha.of)
  {
    assert Holds(store, m.segments[i].key, m.segments[i].len, m.segments[i].sha);
  }

  lemma StayValid(s: Sys)
    requires Inv(s)
    ensures HistoryOk(s.published)
  {
  }

  lemma NoManifestNoVersions(s: Sys)
    requires Inv(s) && LoadManifest(s.store) == Success(None)
    ensures |s.published| == 0
  {
    hide WarmOk, HistoryOk, AckOk, ManifestOk;
  }

  // ---- Creating a project -------------------------------------------------------------

  lemma NoManifestIdle(s: Sys)
    requires Inv(s) && s.project.None?
    ensures s.phase == Idle
  {
  }

  lemma CreationSteps(s: Sys)
    requires s.project.None? && LoadManifest(s.store) == Success(None)
    ensures Apply(s, OpenFresh) == Some(s.(project := Some(FreshProject()), phase := Compact(Upload, None)))
  {
  }

  lemma UploadStep(s: Sys, ok: bool)
    requires s.project == Some(FreshProject()) && s.phase == Compact(Upload, None)
    ensures
      var t := Apply(s, PutSnapshot(ok));
      && t.Some? && t.value.published == s.published
      && (ok ==> t.value.project == Some(FreshProject()) && t.value.phase == Compact(Switch, None))
  {
    hide Vacuum;
  }

  lemma PublishFirstStep(s: Sys, ok: bool)
    requires s.project == Some(FreshProject()) && s.phase == Compact(Switch, None)
    ensures
      var t := Apply(s, PutSwitch(ok));
      && t.Some?
      && (ok ==>
            && t.value.project == Some(FreshProject()) && t.value.phase == Compact(Swap, None)
            && t.value.published == s.published + [Version(0, ShippedImage(CompactManifest(FreshProject())).Content())])
  {
    hide Vacuum, Committed;
  }

  lemma FirstVersion()
    ensures ShippedImage(CompactManifest(FreshProject())).Content() == []
    ensures Image(SnapshotBlob(FreshProject()), []).Content() == []
  {
    SwapNamesLive(FreshProject());
    assert FreshProject().Content() == [];
    VacuumKeepsLog([]);
  }

  /** From the swap on nothing is published any more. */
  lemma LastSteps(s: Sys, ok: bool)
    requires s.project == Some(FreshProject()) && s.phase == Compact(Swap, None)
    ensures
      var a := Apply(s, SwapCache);
      && a.Some? && a.value.published == s.published
      && var b := Apply(a.value, PutLog(0, ok));
      && b.Some? && b.value.published == s.published
      && var c := Apply(b.value, FinishCompaction);
      && c.Some? && c.value.published == s.published
  {
    hide Vacuum, Committed;
  }

  lemma CrashStep(s: Sys)
    ensures Apply(s, Crash) == Some(s.(project := None, phase := Idle))
  {
  }
}
