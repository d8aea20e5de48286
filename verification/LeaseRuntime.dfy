/**
 `ensure_writer_lease` as it is written, with the other runtimes acting between its store
 operations, each of which may also answer with an error.
 */
module LeaseRuntime {
  import opened Wrappers
  import opened Database
  import opened Leases

  const HELD := ApiError(423)
  const IO_ERROR := ApiError(500)

  class Race {
    const start: World
    const ttl: nat
    /** No runtime's clock shows more while this race lasts. */
    const latest: nat
    // The lease and claim objects and the local variables of every runtime.
    var w: World
    ghost var trace: seq<Event>
    /** Store operations that answered with an error. */
    ghost var faults: nat

    ghost predicate Valid()
      reads this
    {
      w == Leases.Run(start, trace, ttl) && CollectsBy(trace, latest)
    }

    /** Whatever the runtimes have done so far, at most one of them holds an Ok answer. */
    lemma HoldersAreAlone(stale: nat)
      requires Valid() && RaceStart(start, stale, ttl) && Calm(start, stale, ttl, latest)
      ensures AtMostOneWon(start, stale, w, ttl)
    {
      AtMostOneHolder(start, stale, ttl, latest, trace);
    }

    constructor (s: World, t: nat, clock: nat)
      ensures Valid() && start == s && ttl == t && latest == clock && w == s
    {
      start, ttl, latest, w, trace, faults := s, t, clock, s, [], 0;
    }

    /** One store operation of runtime `i`. */
    method Operate(i: nat)
      requires Valid() && i < |w.contenders|
      modifies this`w, this`trace
      ensures Valid() && w == StepOne(old(w), i, ttl) && old(trace) <= trace
    {
      assert (trace + [Step(i)])[..|trace|] == trace;
      w := StepOne(w, i, ttl);
      trace := trace + [Step(i)];
    }

    /** `gc_lease_claims` of any runtime, at one claim. */
    method CollectClaim(token: nat, now: nat)
      requires Valid() && now <= latest
      modifies this`w, this`trace
      ensures Valid() && old(trace) <= trace && w.contenders == old(w).contenders
    {
      assert (trace + [Collect(token, now)])[..|trace|] == trace;
      if token in w.claims && w.claims[token].expiresAt + GC_GRACE_MS < now {
        w := w.(claims := w.claims - {token});
      }
      trace := trace + [Collect(token, now)];
    }

    /** Runtime `i` goes no further. */
    method StopRuntime(i: nat)
      requires Valid() && i < |w.contenders|
      modifies this`w, this`trace
      ensures Valid() && old(trace) <= trace && w == Set(old(w), i, old(w).contenders[i].(pc := Stopped))
    {
      assert (trace + [Stop(i)])[..|trace|] == trace;
      w := Set(w, i, w.contenders[i].(pc := Stopped));
      trace := trace + [Stop(i)];
    }

    /** One store operation of runtime `i` that may fail, whether or not it took effect; the error ends the call. */
    method TryOperate(i: nat) returns (ok: bool)
      requires Valid() && i < |w.contenders|
      modifies this
      ensures Valid() && old(trace) <= trace && |w.contenders| == |old(w).contenders|
      ensures ok ==> w == StepOne(old(w), i, ttl)
      ensures !ok ==> w.contenders[i].pc == Stopped
      ensures ok <==> faults == old(faults)
      ensures faults >= old(faults)
    {
      StepsAreOwn(w, i, ttl);
      ok := *;
      var takesEffect: bool := *;
      if ok || takesEffect {
        Operate(i);
      }
      if !ok {
        StopRuntime(i);
        faults := faults + 1;
      }
    }

    /** Any operations of any other runtimes, any of which may stop, and any collections of claims. */
    method Others(i: nat)
      requires Valid() && i < |w.contenders|
      modifies this`w, this`trace
      ensures Valid() && old(trace) <= trace
      ensures |w.contenders| == |old(w).contenders| && w.contenders[i] == old(w).contenders[i]
    {
      var n: nat := *;
      while n > 0
        invariant Valid() && old(trace) <= trace
        invariant |w.contenders| == |old(w).contenders| && w.contenders[i] == old(w).contenders[i]
      {
        var j: nat := *;
        var collect, stop: bool := *, *;
        if collect {
          var token: nat := *;
          var now: nat := *;
          if now <= latest {
            CollectClaim(token, now);
          }
        } else if j < |w.contenders| && j != i {
          if stop {
            StopsAreOwn(w, j);
            StopRuntime(j);
          } else {
            StepsAreOwn(w, j, ttl);
            Operate(j);
          }
        }
        n := n - 1;
      }
    }

    /** What a call answers and where its runtime then stands. */
    ghost predicate Answered(c: Contender, r: Result<Lease, ApiError>) {
      && (r.Success? <==> c.pc.Won?)
      && (r.Success? ==> c.pc.lease == r.value)
      && (r == Failure(HELD) <==> c.pc == Denied)
      && (r == Failure(IO_ERROR) <==> c.pc == Failed || c.pc == Stopped)
      && (r.Failure? ==> r.error == HELD || r.error == IO_ERROR)
    }

    /** The lease of a creator: its clock, or one more on the second attempt, cut to 64 bits is the token. */
    function CreatedBy(c: Contender, later: nat): Lease {
      Lease(c.id, (c.now + later) % 0x1_0000_0000_0000_0000, c.now, c.now + ttl)
    }

    /**
     `ensure_writer_lease`: create the lease object or, when it exists, read it; renew it if it is ours and
     live, refuse if it is live or if this runtime lost it, else try to take it over.
     */
    method EnsureWriterLease(i: nat) returns (r: Result<Lease, ApiError>)
      requires Valid() && i < |w.contenders| && w.contenders[i].pc == Start
      modifies this
      ensures Valid() && old(trace) <= trace && |w.contenders| == |old(w).contenders|
      ensures Answered(w.contenders[i], r)
      ensures w.contenders[i].pc.Stopped? ==> faults > old(faults)
      ensures r.Success? ==> r.value.owner == old(w).contenders[i].id
      ensures !old(w).present && r.Success? ==> r.value == CreatedBy(old(w).contenders[i], 0)
    {
      var c := w.contenders[i];
      var present := w.present;
      var ok := TryOperate(i);
      if !ok {
        return Failure(IO_ERROR);
      }
      if !present {
        return Success(FirstLease(c, 0, ttl));
      }
      Others(i);
      var found, current := w.present, w.lease;
      ok := TryOperate(i);
      if !ok {
        return Failure(IO_ERROR);
      }
      if !found {
        r := RetryCreate(i, c);
        return;
      }
      if current.owner == c.id && current.expiresAt > c.now {
        r := InstallLease(i, Renewal(c, current, ttl));
        return;
      }
      if current.expiresAt <= c.now {
        if c.known.Some? && current.owner != c.id {
          return Failure(HELD);
        }
        r := ClaimExpiredWriterLease(i, current, c.now);
        return;
      }
      return Failure(HELD);
    }

    /** The lease object vanished between the conditional PUT and the read: one more conditional PUT. */
    method RetryCreate(i: nat, c: Contender) returns (r: Result<Lease, ApiError>)
      requires Valid() && i < |w.contenders| && w.contenders[i] == c.(pc := Retry)
      modifies this
      ensures Valid() && old(trace) <= trace && |w.contenders| == |old(w).contenders|
      ensures Answered(w.contenders[i], r)
      ensures w.contenders[i].pc.Stopped? ==> faults > old(faults)
      ensures r.Success? ==> r.value == CreatedBy(c, 1)
    {
      Others(i);
      var created := !w.present;
      var ok := TryOperate(i);
      if !ok {
        return Failure(IO_ERROR);
      }
      if created {
        return Success(FirstLease(c, 1, ttl));
      }
      return Failure(HELD);
    }

    /** The unconditional PUT of the lease object. */
    method InstallLease(i: nat, lease: Lease) returns (r: Result<Lease, ApiError>)
      requires Valid() && i < |w.contenders| && w.contenders[i].pc == Install(lease)
      modifies this
      ensures Valid() && old(trace) <= trace && |w.contenders| == |old(w).contenders|
      ensures Answered(w.contenders[i], r)
      ensures w.contenders[i].pc.Stopped? ==> faults > old(faults)
      ensures r.Success? ==> r.value == lease
    {
      Others(i);
      var ok := TryOperate(i);
      if !ok {
        return Failure(IO_ERROR);
      }
      return Success(lease);
    }

    /** `claim_expired_writer_lease`: at most four conditional PUTs, walking past expired claims. */
    method ClaimExpiredWriterLease(i: nat, baseLease: Lease, now: nat) returns (r: Result<Lease, ApiError>)
      requires Valid() && i < |w.contenders|
      requires w.contenders[i].pc == TryClaim && w.contenders[i].round == 0
      requires w.contenders[i].base == baseLease && w.contenders[i].now == now
      modifies this
      ensures Valid() && old(trace) <= trace && |w.contenders| == |old(w).contenders|
      ensures Answered(w.contenders[i], r)
      ensures w.contenders[i].pc.Stopped? ==> faults > old(faults)
      ensures r.Success? ==> r.value.owner == old(w).contenders[i].id
    {
      hide Leases.Run, CollectsBy;
      var me := w.contenders[i].id;
      var base := baseLease;
      for n := 0 to ROUNDS
        invariant Valid() && old(trace) <= trace && |w.contenders| == |old(w).contenders| && faults == old(faults)
        invariant w.contenders[i] == old(w).contenders[i].(base := base, round := n, pc := TryClaim)
      {
        Others(i);
        var lease := Lease(me, SatInc(base.token), now, now + ttl);
        var free := lease.token !in w.claims;
        var ok := TryOperate(i);
        if !ok {
          return Failure(IO_ERROR);
        }
        if free {
          r := InstallLease(i, lease);
          return;
        }
        Others(i);
        var there := lease.token in w.claims;
        var claimed := if there then w.claims[lease.token] else lease;
        ok := TryOperate(i);
        if !ok || !there {
          return Failure(IO_ERROR);
        }
        if claimed.owner == me {
          r := InstallLease(i, claimed);
          return;
        }
        if claimed.expiresAt > now {
          return Failure(HELD);
        }
        base := claimed;
      }
      // The bound is reached: no store operation is left to make.
      Operate(i);
      return Failure(HELD);
    }
  }
}
