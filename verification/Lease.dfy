/**
 Writer leases: creating, renewing and taking over (rust-core/src/runtime.rs, ensure_writer_lease
 and claim_expired_writer_lease). Any number of runtimes race; each store operation is one step.
 A claim object is created with a conditional PUT (If-None-Match, section 13.1.2 of RFC 9110).
 */
module Leases {
  import opened Wrappers
  import opened Database

  datatype Lease = Lease(owner: nat, token: nat, acquiredAt: nat, expiresAt: nat)

  /** Where a runtime stands between two store operations. */
  datatype Pc =
    | Start
    | ReadLease
    | Retry
    | TryClaim
    | ReadClaim
    | Install(lease: Lease)
    | Won(lease: Lease)
    | Denied
    | Failed
    | Stopped

  /** One runtime: its id, its clock reading, the fencing token it knows, its loop variables. */
  datatype Contender = Contender(id: nat, now: nat, known: Option<nat>, base: Lease, round: nat, pc: Pc)

  /** The lease object (when `present`), the claim objects by fencing token, and the runtimes. */
  datatype World = World(present: bool, lease: Lease, claims: map<nat, Lease>, contenders: seq<Contender>)

  /** The retry bound of the claim loop. */
  const ROUNDS: nat := 4

  /** Claims may be removed an hour after they expired. */
  const GC_GRACE_MS: nat := 3_600_000

  /**
   A store operation of one runtime, a claim removed by any runtime, or the end of a runtime: a
   crash, or a store operation that answers with an error, whether or not it took effect.
   */
  datatype Event = Step(i: nat) | Collect(token: nat, now: nat) | Stop(i: nat)

  function NewLease(c: Contender, ttl: nat): Lease {
    LeaseOf(c, SatInc(c.base.token), ttl)
  }

  function LeaseOf(c: Contender, token: nat, ttl: nat): Lease {
    Lease(c.id, token, c.now, c.now + ttl)
  }

  /** The very first lease takes its token from the clock, `later` on the second attempt. */
  function FirstLease(c: Contender, later: nat, ttl: nat): Lease {
    LeaseOf(c, (c.now + later) % (U64_MAX + 1), ttl)
  }

  /** A runtime that still holds the lease renews it under the next token. */
  function Renewal(c: Contender, held: Lease, ttl: nat): Lease {
    LeaseOf(c, SatInc(held.token), ttl)
  }

  predicate Finished(c: Contender) {
    c.pc.Won? || c.pc.Denied? || c.pc.Failed?
  }

  /** What one runtime's next store operation does. */
  function StepOne(w: World, i: nat, ttl: nat): World
    requires i < |w.contenders|
  {
    var c := w.contenders[i];
    match c.pc
    case Start =>
      // The conditional PUT of the lease object creates it, or finds it there.
      if w.present then Set(w, i, c.(pc := ReadLease)) else Create(w, i, FirstLease(c, 0, ttl))
    case ReadLease =>
      if !w.present then Set(w, i, c.(pc := Retry))
      else if w.lease.expiresAt > c.now then
        Set(w, i, c.(pc := if w.lease.owner == c.id then Install(Renewal(c, w.lease, ttl)) else Denied))
      else if c.known.Some? && w.lease.owner != c.id then Set(w, i, c.(pc := Denied))
      else Set(w, i, c.(base := w.lease, round := 0, pc := TryClaim))
    case Retry =>
      if w.present then Set(w, i, c.(pc := Denied)) else Create(w, i, FirstLease(c, 1, ttl))
    case TryClaim =>
      if c.round >= ROUNDS then Set(w, i, c.(pc := Denied))
      else if SatInc(c.base.token) in w.claims then Set(w, i, c.(pc := ReadClaim))
      else
        var lease := NewLease(c, ttl);
        Set(w, i, c.(pc := Install(lease))).(claims := w.claims[lease.token := lease])
    case ReadClaim =>
      if SatInc(c.base.token) !in w.claims then Set(w, i, c.(pc := Failed))
      else
        var claimed := w.claims[SatInc(c.base.token)];
        if claimed.owner == c.id then Set(w, i, c.(pc := Install(claimed)))
        else if claimed.expiresAt > c.now then Set(w, i, c.(pc := Denied))
        else Set(w, i, c.(base := claimed, round := c.round + 1, pc := TryClaim))
    case Install(lease) => Set(w, i, c.(pc := Won(lease))).(lease := lease)
    case _ => w
  }

  function Set(w: World, i: nat, c: Contender): World
    requires i < |w.contenders|
  {
    w.(contenders := w.contenders[i := c])
  }

  /** Runtime `i` creates the lease object. */
  function Create(w: World, i: nat, lease: Lease): World
    requires i < |w.contenders|
  {
    Set(w, i, w.contenders[i].(pc := Won(lease))).(present := true, lease := lease)
  }

  lemma StepsAreOwn(w: World, i: nat, ttl: nat)
    requires i < |w.contenders|
    ensures |StepOne(w, i, ttl).contenders| == |w.contenders|
    ensures forall j :: 0 <= j < |w.contenders| && j != i ==> StepOne(w, i, ttl).contenders[j] == w.contenders[j]
  {
  }

  lemma StopsAreOwn(w: World, i: nat)
    requires i < |w.contenders|
    ensures
      var t := Set(w, i, w.contenders[i].(pc := Stopped));
      && |t.contenders| == |w.contenders|
      && forall j :: 0 <= j < |w.contenders| && j != i ==> t.contenders[j] == w.contenders[j]
  {
  }

  function Next(w: World, e: Event, ttl: nat): World {
    match e
    case Step(i) => if i < |w.contenders| then StepOne(w, i, ttl) else w
    case Collect(token, now) =>
      if token in w.claims && w.claims[token].expiresAt + GC_GRACE_MS < now
      then w.(claims := w.claims - {token}) else w
    case Stop(i) => if i < |w.contenders| then Set(w, i, w.contenders[i].(pc := Stopped)) else w
  }

  function Run(w: World, es: seq<Event>, ttl: nat): World {
    if |es| == 0 then w else Next(Run(w, es[..|es| - 1], ttl), es[|es| - 1], ttl)
  }

  /** Every collection in the run happens when its runtime's clock shows at most `latest`. */
  predicate CollectsBy(es: seq<Event>, latest: nat) {
    forall i :: 0 <= i < |es| && es[i].Collect? ==> es[i].now <= latest
  }

  /** Everybody got an answer: nobody was stopped. */
  predicate AllFinished(w: World) {
    forall i :: 0 <= i < |w.contenders| ==> Finished(w.contenders[i])
  }

  // ---- The race ------------------------------------------------------------

  /** The token that decides the race: the first one that nobody has claimed yet. */
  function Deciding(start: World, stale: nat): nat {
    start.lease.token + stale + 1
  }

  /** Reads the lease as expired and is not turned away: it knows no token, or owned the lease itself. */
  predicate Eligible(start: World, c: Contender) {
    start.lease.expiresAt <= c.now && (c.known.None? || start.lease.owner == c.id)
  }

  predicate SomeEligible(start: World) {
    exists i :: 0 <= i < |start.contenders| && Eligible(start, start.contenders[i])
  }

  /** The owner, whose clock still reads the lease as live. */
  predicate Renews(start: World, c: Contender) {
    start.lease.expiresAt > c.now && start.lease.owner == c.id
  }

  predicate SomeRenews(start: World) {
    exists i :: 0 <= i < |start.contenders| && Renews(start, start.contenders[i])
  }

  /** Eligible, with every claim on the way expired at its clock. */
  ghost predicate Candidate(start: World, stale: nat, c: Contender) {
    && Eligible(start, c)
    && forall t :: start.lease.token < t < Deciding(start, stale) ==> t in start.claims && start.claims[t].expiresAt <= c.now
  }

  ghost predicate SomeCandidate(start: World, stale: nat) {
    exists i :: 0 <= i < |start.contenders| && Candidate(start, stale, start.contenders[i])
  }

  /** Runtimes with their own ids and clocks less than one TTL apart, none of which has begun. */
  ghost predicate Rivals(w: World, ttl: nat) {
    && (forall i, j :: 0 <= i < j < |w.contenders| ==> w.contenders[i].id != w.contenders[j].id)
    && (forall i, j :: 0 <= i < |w.contenders| && 0 <= j < |w.contenders| ==>
          w.contenders[i].now < w.contenders[j].now + ttl)
    && (forall i :: 0 <= i < |w.contenders| ==> w.contenders[i].pc == Start)
  }

  /**
   The start of a race: a lease object, `stale` claims by anybody at the tokens after it and none at
   the next one (four on the way stop everybody). If anybody sees the lease as expired and may take
   part, then somebody such sees those claims as expired too.
   */
  ghost predicate RaceStart(w: World, stale: nat, ttl: nat) {
    && w.present && stale <= ROUNDS && Rivals(w, ttl)
    && Deciding(w, stale) <= U64_MAX
    && (stale < ROUNDS ==> Deciding(w, stale) !in w.claims)
    && (stale == ROUNDS ==> !SomeRenews(w))
    && (forall t :: w.lease.token < t < Deciding(w, stale) ==> t in w.claims && w.claims[t].token == t)
    && (SomeEligible(w) ==> SomeCandidate(w, stale))
  }

  /** Collected by a runtime whose clock shows `latest`. */
  predicate Collectable(lease: Lease, latest: nat) {
    lease.expiresAt + GC_GRACE_MS < latest
  }

  /** An expired claim that the race has to walk past can be collected. */
  predicate StaleCollectable(start: World, stale: nat, latest: nat) {
    exists t :: start.lease.token < t < Deciding(start, stale) && t in start.claims && Collectable(start.claims[t], latest)
  }

  /** Two runtimes can reach the deciding token, and the claim the first would make can be collected. */
  ghost predicate FreshCollectable(start: World, stale: nat, ttl: nat, latest: nat) {
    exists i, j :: 0 <= i < |start.contenders| && 0 <= j < |start.contenders| && i != j
      && Candidate(start, stale, start.contenders[i]) && Candidate(start, stale, start.contenders[j])
      && start.contenders[i].now + ttl + GC_GRACE_MS < latest
  }

  /** Somebody else's claim that has expired: it is walked past. */
  predicate Passes(c: Contender, claim: Lease) {
    claim.owner != c.id && claim.expiresAt <= c.now
  }

  /** The first `round` claims are walked past. */
  ghost predicate PathClear(start: World, c: Contender, round: nat) {
    forall t :: start.lease.token < t <= start.lease.token + round ==> t in start.claims && Passes(c, start.claims[t])
  }

  /** The claim after `round` that are walked past is the runtime's own, from an earlier attempt. */
  ghost predicate ReachesOwn(start: World, stale: nat, c: Contender, round: nat) {
    && round < stale && Eligible(start, c) && PathClear(start, c, round)
    && start.lease.token + round + 1 in start.claims && start.claims[start.lease.token + round + 1].owner == c.id
  }

  ghost predicate OwnClaim(start: World, stale: nat) {
    exists i, round: nat :: 0 <= i < |start.contenders| && ReachesOwn(start, stale, start.contenders[i], round)
  }

  /**
   Nothing spoils a takeover: nobody still renews, nobody finds a claim of its own, and no claim
   that decides between runtimes, or leads them there, can be collected.
   */
  ghost predicate Calm(start: World, stale: nat, ttl: nat, latest: nat) {
    SomeEligible(start) ==>
      && !SomeRenews(start) && !OwnClaim(start, stale)
      && !StaleCollectable(start, stale, latest) && !FreshCollectable(start, stale, ttl, latest)
  }

  /** And there are fewer claims on the way than the loop walks past. */
  ghost predicate Safe(start: World, stale: nat, ttl: nat, latest: nat) {
    Calm(start, stale, ttl, latest) && (SomeEligible(start) ==> stale < ROUNDS)
  }

  ghost predicate SameRuntime(a: Contender, b: Contender) {
    a.id == b.id && a.now == b.now && a.known == b.known
  }

  /** The base a runtime holds after `round` stale claims. */
  function BaseAt(start: World, round: nat): Lease
    requires round == 0 || start.lease.token + round in start.claims
  {
    if round == 0 then start.lease else start.claims[start.lease.token + round]
  }

  ghost predicate WalkOk(start: World, stale: nat, c: Contender) {
    && c.round <= stale && PathClear(start, c, c.round)
    && (c.round > 0 ==> start.lease.token + c.round in start.claims)
    && c.base == BaseAt(start, c.round)
  }

  /** A runtime that has not won: still walking, or denied because it cannot win or somebody has. */
  ghost predicate LoserOk(start: World, stale: nat, c: Contender, decided: bool) {
    match c.pc
    case Start | ReadLease | Stopped => true
    case TryClaim => WalkOk(start, stale, c) && Eligible(start, c)
    case ReadClaim => WalkOk(start, stale, c) && Eligible(start, c) && (c.round == stale ==> decided)
    case Denied => decided || stale == ROUNDS || !Candidate(start, stale, c)
    case _ => false
  }

  /** The winner's claim stands, unless nobody else could reach it; the lease object changes only to its lease. */
  ghost predicate WinnerOk(start: World, stale: nat, ttl: nat, w: World, k: nat)
    requires k < |w.contenders| && |w.contenders| == |start.contenders|
  {
    var c := w.contenders[k];
    var lease := LeaseOf(c, Deciding(start, stale), ttl);
    && Candidate(start, stale, c) && stale < ROUNDS
    && (Deciding(start, stale) in w.claims ==> w.claims[Deciding(start, stale)] == lease)
    && (Deciding(start, stale) !in w.claims ==>
          forall j :: 0 <= j < |start.contenders| && j != k ==> !Candidate(start, stale, start.contenders[j]))
    && (w.lease == start.lease || w.lease == lease)
    && (c.pc.Stopped? || (c.pc == Install(lease) && w.lease == start.lease) || (c.pc == Won(lease) && w.lease == lease))
  }

  ghost predicate StaleClaimsStand(start: World, stale: nat, w: World) {
    forall t :: start.lease.token < t < Deciding(start, stale) && t in start.claims ==>
      t in w.claims && w.claims[t] == start.claims[t]
  }

  ghost predicate RaceInv(start: World, stale: nat, ttl: nat, w: World, winner: Option<nat>) {
    && w.present && |w.contenders| == |start.contenders|
    && (forall i :: 0 <= i < |w.contenders| ==> SameRuntime(w.contenders[i], start.contenders[i]))
    && (SomeEligible(start) ==> StaleClaimsStand(start, stale, w))
    && (winner.None? && stale < ROUNDS ==> Deciding(start, stale) !in w.claims)
    && (winner.Some? ==> winner.value < |w.contenders| && WinnerOk(start, stale, ttl, w, winner.value))
    && (winner.None? ==> w.lease == start.lease)
    && (forall i :: 0 <= i < |w.contenders| && winner != Some(i) ==> LoserOk(start, stale, w.contenders[i], winner.Some?))
  }

  /** A race in which nobody renews and nobody finds a claim of its own. */
  ghost predicate Contest(start: World, stale: nat, ttl: nat) {
    RaceStart(start, stale, ttl) && !SomeRenews(start) && !OwnClaim(start, stale)
  }

  /** The winner after one more operation of runtime `i`. */
  function NextWinner(start: World, stale: nat, w: World, i: nat, winner: Option<nat>): Option<nat>
    requires i < |w.contenders|
  {
    var c := w.contenders[i];
    if winner.None? && c.pc.TryClaim? && c.round == stale < ROUNDS then Some(i) else winner
  }

  /** Changing one runtime that is not the winner into another state that is fine. */
  lemma SetLoser(start: World, stale: nat, ttl: nat, w: World, winner: Option<nat>, i: nat, c: Contender)
    requires RaceInv(start, stale, ttl, w, winner) && i < |w.contenders| && winner != Some(i)
    requires SameRuntime(c, start.contenders[i]) && LoserOk(start, stale, c, winner.Some?)
    ensures RaceInv(start, stale, ttl, Set(w, i, c), winner)
  {
    hide LoserOk, SameRuntime, Candidate;
  }

  /** What a runtime may do depends on its id, clock and known token only. */
  lemma SameMay(start: World, stale: nat, a: Contender, b: Contender)
    requires SameRuntime(a, b)
    ensures Eligible(start, a) == Eligible(start, b) && Renews(start, a) == Renews(start, b)
    ensures Candidate(start, stale, a) == Candidate(start, stale, b)
  {
  }

  /** The token a walking runtime tries next. */
  lemma NextToken(start: World, stale: nat, ttl: nat, c: Contender)
    requires RaceStart(start, stale, ttl) && WalkOk(start, stale, c)
    ensures SatInc(c.base.token) == start.lease.token + c.round + 1
    ensures NewLease(c, ttl) == LeaseOf(c, start.lease.token + c.round + 1, ttl)
  {
    hide Rivals, SomeEligible, SomeCandidate, SomeRenews;
  }

  lemma RivalsApart(start: World, stale: nat, ttl: nat, i: nat, k: nat)
    requires RaceStart(start, stale, ttl) && i < |start.contenders| && k < |start.contenders| && i != k
    ensures start.contenders[i].now < start.contenders[k].now + ttl && start.contenders[i].id != start.contenders[k].id
  {
  }

  lemma ReadLeaseKeeps(start: World, stale: nat, ttl: nat, w: World, winner: Option<nat>, i: nat)
    requires Contest(start, stale, ttl) && RaceInv(start, stale, ttl, w, winner) && i < |w.contenders|
    requires w.contenders[i].pc.ReadLease? && winner != Some(i)
    ensures RaceInv(start, stale, ttl, StepOne(w, i, ttl), winner)
  {
    var c := w.contenders[i];
    var d := StepOne(w, i, ttl).contenders[i];
    SameMay(start, stale, c, start.contenders[i]);
    assert !Renews(start, start.contenders[i]);
    if winner.Some? {
      assert SameRuntime(w.contenders[winner.value], start.contenders[winner.value]);
      RivalsApart(start, stale, ttl, i, winner.value);
    }
    assert LoserOk(start, stale, d, winner.Some?) by {
      hide Rivals, SomeEligible, SomeCandidate, OwnClaim;
    }
    SetLoser(start, stale, ttl, w, winner, i, d);
  }

  lemma TryKeeps(start: World, stale: nat, ttl: nat, w: World, winner: Option<nat>, i: nat)
    requires Contest(start, stale, ttl) && RaceInv(start, stale, ttl, w, winner) && i < |w.contenders|
    requires w.contenders[i].pc.TryClaim? && winner != Some(i)
    ensures RaceInv(start, stale, ttl, StepOne(w, i, ttl), NextWinner(start, stale, w, i, winner))
  {
    hide Rivals, SomeCandidate, OwnClaim, SomeRenews;
    var c := w.contenders[i];
    assert LoserOk(start, stale, c, winner.Some?);
    SameMay(start, stale, c, start.contenders[i]);
    NextToken(start, stale, ttl, c);
    if c.round >= ROUNDS {
      SetLoser(start, stale, ttl, w, winner, i, c.(pc := Denied));
    } else if c.round == stale && winner.None? {
      Decides(start, stale, ttl, w, i);
    } else {
      ClaimIsThere(start, stale, ttl, w, winner, i);
      SetLoser(start, stale, ttl, w, winner, i, c.(pc := ReadClaim));
    }
  }

  lemma ClaimIsThere(start: World, stale: nat, ttl: nat, w: World, winner: Option<nat>, i: nat)
    requires RaceStart(start, stale, ttl) && RaceInv(start, stale, ttl, w, winner) && i < |w.contenders|
    requires winner != Some(i) && WalkOk(start, stale, w.contenders[i]) && Eligible(start, w.contenders[i])
    requires w.contenders[i].round < stale || winner.Some?
    ensures start.lease.token + w.contenders[i].round + 1 in w.claims
  {
    hide Rivals, LoserOk, SomeRenews, SomeCandidate;
    var c := w.contenders[i];
    SameMay(start, stale, c, start.contenders[i]);
    if c.round == stale {
      assert Candidate(start, stale, c);
    } else {
      assert Eligible(start, start.contenders[i]);
      assert start.lease.token + c.round + 1 in start.claims;
    }
  }

  lemma Decides(start: World, stale: nat, ttl: nat, w: World, i: nat)
    requires RaceStart(start, stale, ttl) && RaceInv(start, stale, ttl, w, None) && i < |w.contenders|
    requires w.contenders[i].pc.TryClaim? && w.contenders[i].round == stale < ROUNDS
    ensures RaceInv(start, stale, ttl, StepOne(w, i, ttl), Some(i))
  {
    hide Rivals, SomeCandidate, SomeRenews;
    var c := w.contenders[i];
    assert LoserOk(start, stale, c, false);
    NextToken(start, stale, ttl, c);
    var t := StepOne(w, i, ttl);
    forall k | 0 <= k < |t.contenders| && k != i
      ensures LoserOk(start, stale, t.contenders[k], true)
    {
      assert LoserOk(start, stale, w.contenders[k], false);
    }
  }

  /** The claim read is the winner's: it is somebody else's and has not expired. */
  lemma ReadsWinner(start: World, stale: nat, ttl: nat, w: World, k: nat, i: nat)
    requires RaceStart(start, stale, ttl) && RaceInv(start, stale, ttl, w, Some(k)) && i < |w.contenders| && i != k
    requires w.contenders[i].pc.ReadClaim? && w.contenders[i].round == stale
    ensures StepOne(w, i, ttl) == Set(w, i, w.contenders[i].(pc := Denied))
  {
    hide StaleClaimsStand, RaceStart;
    var c := w.contenders[i];
    assert LoserOk(start, stale, c, true);
    assert SameRuntime(c, start.contenders[i]) && SameRuntime(w.contenders[k], start.contenders[k]);
    ClaimIsThere(start, stale, ttl, w, Some(k), i);
    NextToken(start, stale, ttl, c);
    RivalsApart(start, stale, ttl, i, k);
  }

  /** The claim read is one the race began with: it is walked past, or it is live and nobody else's loss. */
  lemma ReadsStale(start: World, stale: nat, ttl: nat, w: World, winner: Option<nat>, i: nat)
    requires Contest(start, stale, ttl) && RaceInv(start, stale, ttl, w, winner) && i < |w.contenders|
    requires w.contenders[i].pc.ReadClaim? && winner != Some(i) && w.contenders[i].round < stale
    ensures
      var c, token := w.contenders[i], start.lease.token + w.contenders[i].round + 1;
      && token in start.claims && Eligible(start, c) && WalkOk(start, stale, c)
      && start.claims[token].owner != c.id
      && StepOne(w, i, ttl) == Set(w, i,
           if start.claims[token].expiresAt > c.now then c.(pc := Denied)
           else c.(base := start.claims[token], round := c.round + 1, pc := TryClaim))
  {
    hide WinnerOk, Rivals, SomeCandidate, SomeRenews, PathClear;
    var c := w.contenders[i];
    assert LoserOk(start, stale, c, winner.Some?);
    SameMay(start, stale, c, start.contenders[i]);
    NextToken(start, stale, ttl, c);
    var token := start.lease.token + c.round + 1;
    assert Eligible(start, start.contenders[i]);
    assert token in start.claims && w.claims[token] == start.claims[token];
    SamePath(start, c, start.contenders[i], c.round);
    assert !ReachesOwn(start, stale, start.contenders[i], c.round);
  }

  lemma SamePath(start: World, a: Contender, b: Contender, round: nat)
    requires SameRuntime(a, b)
    ensures PathClear(start, a, round) == PathClear(start, b, round)
  {
  }

  lemma ReadKeeps(start: World, stale: nat, ttl: nat, w: World, winner: Option<nat>, i: nat)
    requires Contest(start, stale, ttl) && RaceInv(start, stale, ttl, w, winner) && i < |w.contenders|
    requires w.contenders[i].pc.ReadClaim? && winner != Some(i)
    ensures RaceInv(start, stale, ttl, StepOne(w, i, ttl), winner)
  {
    hide StepOne, WinnerOk, RaceStart, StaleClaimsStand, OwnClaim;
    var c := w.contenders[i];
    assert LoserOk(start, stale, c, winner.Some?);
    assert SameRuntime(c, start.contenders[i]);
    var token := start.lease.token + c.round + 1;
    if c.round == stale {
      ReadsWinner(start, stale, ttl, w, winner.value, i);
      SetLoser(start, stale, ttl, w, winner, i, c.(pc := Denied));
    } else {
      ReadsStale(start, stale, ttl, w, winner, i);
      if start.claims[token].expiresAt > c.now {
        assert token < Deciding(start, stale) && !Candidate(start, stale, c);
        SetLoser(start, stale, ttl, w, winner, i, c.(pc := Denied));
      } else {
        SetLoser(start, stale, ttl, w, winner, i, c.(base := start.claims[token], round := c.round + 1, pc := TryClaim));
      }
    }
  }

  lemma StepKeepsRace(start: World, stale: nat, ttl: nat, w: World, winner: Option<nat>, i: nat)
    requires Contest(start, stale, ttl) && RaceInv(start, stale, ttl, w, winner) && i < |w.contenders|
    ensures RaceInv(start, stale, ttl, StepOne(w, i, ttl), NextWinner(start, stale, w, i, winner))
  {
    var c := w.contenders[i];
    if winner == Some(i) {
      WinnerKeeps(start, stale, ttl, w, i);
    } else {
      hide Contest, StepOne, WinnerOk;
      assert LoserOk(start, stale, c, winner.Some?);
      match c.pc
      case Start => FindsLease(start, stale, ttl, w, winner, i);
      case ReadLease => ReadLeaseKeeps(start, stale, ttl, w, winner, i);
      case TryClaim => TryKeeps(start, stale, ttl, w, winner, i);
      case ReadClaim => ReadKeeps(start, stale, ttl, w, winner, i);
      case _ => EndStays(w, i, ttl);
    }
  }

  lemma FindsLease(start: World, stale: nat, ttl: nat, w: World, winner: Option<nat>, i: nat)
    requires RaceInv(start, stale, ttl, w, winner) && i < |w.contenders| && winner != Some(i) && w.contenders[i].pc.Start?
    ensures RaceInv(start, stale, ttl, StepOne(w, i, ttl), winner)
  {
    assert SameRuntime(w.contenders[i], start.contenders[i]);
    SetLoser(start, stale, ttl, w, winner, i, w.contenders[i].(pc := ReadLease));
  }

  lemma EndStays(w: World, i: nat, ttl: nat)
    requires i < |w.contenders| && (Finished(w.contenders[i]) || w.contenders[i].pc.Stopped?)
    ensures StepOne(w, i, ttl) == w
  {
  }

  lemma WinnerKeeps(start: World, stale: nat, ttl: nat, w: World, i: nat)
    requires RaceInv(start, stale, ttl, w, Some(i)) && i < |w.contenders|
    ensures RaceInv(start, stale, ttl, StepOne(w, i, ttl), Some(i))
  {
    hide LoserOk, Candidate;
    var v := StepOne(w, i, ttl);
    assert SameRuntime(w.contenders[i], start.contenders[i]) && SameRuntime(v.contenders[i], start.contenders[i]);
    SameMay(start, stale, v.contenders[i], w.contenders[i]);
    StepsAreOwn(w, i, ttl);
    assert WinnerOk(start, stale, ttl, v, i);
  }

  /** A runtime may stop at any moment, the winner too. */
  lemma StopKeeps(start: World, stale: nat, ttl: nat, w: World, winner: Option<nat>, i: nat)
    requires RaceInv(start, stale, ttl, w, winner)
    ensures RaceInv(start, stale, ttl, Next(w, Stop(i), ttl), winner)
  {
    if i < |w.contenders| {
      var c := w.contenders[i].(pc := Stopped);
      assert SameRuntime(c, start.contenders[i]);
      if winner == Some(i) {
        hide LoserOk, SomeEligible, StaleClaimsStand;
        SameMay(start, stale, c, w.contenders[i]);
        hide Candidate;
      } else {
        SetLoser(start, stale, ttl, w, winner, i, c);
      }
    }
  }

  lemma RaceBegins(start: World, stale: nat, ttl: nat)
    requires RaceStart(start, stale, ttl)
    ensures RaceInv(start, stale, ttl, start, None)
  {
    hide SomeEligible, SomeCandidate, SomeRenews;
  }

  /** A collection that cannot reach a claim in use changes nothing that matters. */
  lemma CollectKeeps(start: World, stale: nat, ttl: nat, latest: nat, w: World, winner: Option<nat>, token: nat, now: nat)
    requires RaceStart(start, stale, ttl) && Calm(start, stale, ttl, latest) && now <= latest
    requires RaceInv(start, stale, ttl, w, winner)
    ensures RaceInv(start, stale, ttl, Next(w, Collect(token, now), ttl), winner)
  {
    hide LoserOk, Rivals, SomeRenews, OwnClaim, Candidate;
    var v := Next(w, Collect(token, now), ttl);
    if winner.Some? {
      var k := winner.value;
      SameMay(start, stale, w.contenders[k], start.contenders[k]);
      assert Eligible(start, start.contenders[k]) by {
        CandidateIsEligible(start, stale, start.contenders[k]);
      }
    }
    if SomeEligible(start) && start.lease.token < token < Deciding(start, stale) && token in start.claims {
      assert !Collectable(start.claims[token], latest);
    }
    forall i | 0 <= i < |v.contenders| && winner != Some(i)
      ensures LoserOk(start, stale, v.contenders[i], winner.Some?)
    {
      assert LoserOk(start, stale, w.contenders[i], winner.Some?);
    }
  }

  lemma CandidateIsEligible(start: World, stale: nat, c: Contender)
    requires Candidate(start, stale, c)
    ensures Eligible(start, c)
  {
  }

  lemma {:induction false} RunKeepsRace(start: World, stale: nat, ttl: nat, latest: nat, es: seq<Event>)
      returns (winner: Option<nat>)
    requires Contest(start, stale, ttl) && Calm(start, stale, ttl, latest) && CollectsBy(es, latest)
    ensures RaceInv(start, stale, ttl, Run(start, es, ttl), winner)
  {
    hide RaceStart, RaceInv, StepOne, Calm;
    if |es| == 0 {
      RaceBegins(start, stale, ttl);
      winner := None;
    } else {
      var front, last := es[..|es| - 1], es[|es| - 1];
      winner := RunKeepsRace(start, stale, ttl, latest, front);
      var w := Run(start, front, ttl);
      match last
      case Step(i) =>
        if i < |w.contenders| {
          StepKeepsRace(start, stale, ttl, w, winner, i);
          winner := NextWinner(start, stale, w, i, winner);
        }
      case Collect(token, now) =>
        CollectKeeps(start, stale, ttl, latest, w, winner, token, now);
      case Stop(i) =>
        StopKeeps(start, stale, ttl, w, winner, i);
    }
  }

  // ---- A renewal that nobody contests ----------------------------------------------------

  /** Runtime `r` renews; the lease object stays as it was until then, and nobody else can do more than look. */
  ghost predicate RenewInv(start: World, ttl: nat, r: nat, w: World)
    requires r < |start.contenders|
  {
    var renewed := Renewal(start.contenders[r], start.lease, ttl);
    && w.present && |w.contenders| == |start.contenders|
    && (forall i :: 0 <= i < |w.contenders| ==> SameRuntime(w.contenders[i], start.contenders[i]))
    && (w.lease == start.lease || w.lease == renewed)
    && RenewerOk(start, renewed, w.contenders[r], w.lease)
    && (forall i :: 0 <= i < |w.contenders| && i != r ==> OnlyLooks(w.contenders[i]))
  }

  predicate RenewerOk(start: World, renewed: Lease, c: Contender, lease: Lease) {
    match c.pc
    case Start | ReadLease => lease == start.lease
    case Install(l) => l == renewed && lease == start.lease
    case Won(l) => l == renewed && lease == renewed
    case Stopped => true
    case _ => false
  }

  predicate OnlyLooks(c: Contender) {
    c.pc.Start? || c.pc.ReadLease? || c.pc.Denied? || c.pc.Stopped?
  }

  lemma StepKeepsRenewal(start: World, stale: nat, ttl: nat, r: nat, w: World, i: nat)
    requires RaceStart(start, stale, ttl) && !SomeEligible(start)
    requires r < |start.contenders| && Renews(start, start.contenders[r])
    requires RenewInv(start, ttl, r, w) && i < |w.contenders|
    ensures RenewInv(start, ttl, r, StepOne(w, i, ttl))
  {
    hide SomeCandidate, SomeRenews;
    var c, v := w.contenders[i], StepOne(w, i, ttl);
    SameMay(start, stale, c, start.contenders[i]);
    assert !Eligible(start, start.contenders[i]);
    StepsAreOwn(w, i, ttl);
    if i != r {
      RivalsApart(start, stale, ttl, i, r);
      assert OnlyLooks(c);
      assert v.lease == w.lease && OnlyLooks(v.contenders[i]);
    }
  }

  lemma {:induction false} RunKeepsRenewal(start: World, stale: nat, ttl: nat, r: nat, es: seq<Event>)
    requires RaceStart(start, stale, ttl) && !SomeEligible(start)
    requires r < |start.contenders| && Renews(start, start.contenders[r])
    ensures RenewInv(start, ttl, r, Run(start, es, ttl))
  {
    hide SomeCandidate, SomeRenews, SomeEligible;
    if |es| > 0 {
      hide RaceStart, StepOne;
      var front := es[..|es| - 1];
      RunKeepsRenewal(start, stale, ttl, r, front);
      match es[|es| - 1]
      case Step(i) =>
        if i < |start.contenders| {
          StepKeepsRenewal(start, stale, ttl, r, Run(start, front, ttl), i);
        }
      case _ =>
    }
  }

  // ---- One winner --------------------------------------------------------------------

  /** Runtime `k` won: its lease is live by its clock, under the next token that nobody had claimed. */
  ghost predicate WinsLive(start: World, stale: nat, w: World, ttl: nat, k: nat) {
    && k < |w.contenders| && w.contenders[k].pc == Won(w.lease)
    && w.lease.owner == w.contenders[k].id
    && start.lease.token < w.lease.token
    && w.lease.token == (if SomeRenews(start) then start.lease.token + 1 else Deciding(start, stale))
    && w.lease.acquiredAt == w.contenders[k].now && w.lease.expiresAt == w.contenders[k].now + ttl
  }

  /** And everybody else was refused. */
  ghost predicate WinsAlone(start: World, stale: nat, w: World, ttl: nat, k: nat) {
    WinsLive(start, stale, w, ttl, k) && forall i :: 0 <= i < |w.contenders| && i != k ==> w.contenders[i].pc == Denied
  }

  /** What a race promises: one winner if anybody could take part, and 423 for all others. */
  ghost predicate OneWinner(start: World, stale: nat, w: World, ttl: nat) {
    if SomeEligible(start) || SomeRenews(start) then exists k: nat :: WinsAlone(start, stale, w, ttl, k)
    else w.lease == start.lease && forall i :: 0 <= i < |w.contenders| ==> w.contenders[i].pc == Denied
  }

  /** At most one runtime holds an Ok answer, that lease is the lease object, and nobody was told 500. */
  ghost predicate AtMostOneWon(start: World, stale: nat, w: World, ttl: nat) {
    && (forall i :: 0 <= i < |w.contenders| && w.contenders[i].pc.Won? ==> WinsLive(start, stale, w, ttl, i))
    && (forall i, j :: 0 <= i < j < |w.contenders| ==> !(w.contenders[i].pc.Won? && w.contenders[j].pc.Won?))
    && (forall i :: 0 <= i < |w.contenders| ==> !w.contenders[i].pc.Failed?)
  }

  /**
   Safety in every reachable state, not only at the end: however the store operations interleave,
   whoever stops on the way or has one fail, and whatever claims are collected that the race does
   not depend on, never do two runtimes hold an Ok answer, and the one that does has a live lease
   that is the lease object.
   */
  lemma AtMostOneHolder(start: World, stale: nat, ttl: nat, latest: nat, es: seq<Event>)
    requires RaceStart(start, stale, ttl) && Calm(start, stale, ttl, latest) && CollectsBy(es, latest)
    ensures AtMostOneWon(start, stale, Run(start, es, ttl), ttl)
  {
    if SomeRenews(start) {
      var r :| 0 <= r < |start.contenders| && Renews(start, start.contenders[r]);
      assert !SomeEligible(start);
      RunKeepsRenewal(start, stale, ttl, r, es);
      hide RaceStart, Calm, SomeEligible, Run;
      RenewerHolds(start, stale, ttl, r, Run(start, es, ttl));
    } else {
      NobodyReachesOwn(start, stale, ttl, latest);
      hide RaceStart, Calm, SomeEligible, Run;
      var winner := RunKeepsRace(start, stale, ttl, latest, es);
      WinnerHolds(start, stale, ttl, Run(start, es, ttl), winner);
    }
  }

  lemma RenewerHolds(start: World, stale: nat, ttl: nat, r: nat, w: World)
    requires r < |start.contenders| && Renews(start, start.contenders[r])
    requires RenewInv(start, ttl, r, w) && start.lease.token < U64_MAX
    ensures AtMostOneWon(start, stale, w, ttl)
  {
    assert SameRuntime(w.contenders[r], start.contenders[r]);
  }

  lemma WinnerHolds(start: World, stale: nat, ttl: nat, w: World, winner: Option<nat>)
    requires RaceInv(start, stale, ttl, w, winner) && !SomeRenews(start)
    ensures AtMostOneWon(start, stale, w, ttl)
  {
    hide Candidate, SomeEligible, StaleClaimsStand;
    forall i | 0 <= i < |w.contenders| && winner != Some(i)
      ensures !w.contenders[i].pc.Won? && !w.contenders[i].pc.Failed?
    {
      assert LoserOk(start, stale, w.contenders[i], winner.Some?);
    }
  }

  /** Who is not eligible reads no claims, so a calm race without renewals is a contest. */
  lemma NobodyReachesOwn(start: World, stale: nat, ttl: nat, latest: nat)
    requires RaceStart(start, stale, ttl) && Calm(start, stale, ttl, latest) && !SomeRenews(start)
    ensures Contest(start, stale, ttl)
  {
    hide RaceStart, SomeRenews, PathClear;
    if !SomeEligible(start) {
      forall i, round: nat | 0 <= i < |start.contenders|
        ensures !ReachesOwn(start, stale, start.contenders[i], round)
      {
        assert !Eligible(start, start.contenders[i]);
      }
    }
  }

  /**
   One winner. However the store operations interleave, and whatever claims are collected that
   the race does not depend on: when every runtime has its answer, if any of them could take
   part then exactly one was answered Ok, its live lease is the lease object with a strictly
   larger fencing token, and everybody else was answered 423; else all were.
   */
  lemma TakeoverHasOneWinner(start: World, stale: nat, ttl: nat, latest: nat, es: seq<Event>)
    requires RaceStart(start, stale, ttl) && Safe(start, stale, ttl, latest) && CollectsBy(es, latest)
    requires AllFinished(Run(start, es, ttl))
    ensures OneWinner(start, stale, Run(start, es, ttl), ttl)
  {
    var w := Run(start, es, ttl);
    if SomeRenews(start) {
      var r :| 0 <= r < |start.contenders| && Renews(start, start.contenders[r]);
      assert !SomeEligible(start);
      RenewalEnds(start, stale, ttl, r, es);
    } else {
      NobodyReachesOwn(start, stale, ttl, latest);
      hide Run;
      ContestEnds(start, stale, ttl, latest, es);
      if SomeEligible(start) {
        var i :| 0 <= i < |start.contenders| && Candidate(start, stale, start.contenders[i]);
      } else {
        forall k | 0 <= k < |start.contenders|
          ensures !Candidate(start, stale, start.contenders[k])
        {
          assert !Eligible(start, start.contenders[k]);
        }
      }
    }
  }

  lemma RenewalEnds(start: World, stale: nat, ttl: nat, r: nat, es: seq<Event>)
    requires RaceStart(start, stale, ttl) && !SomeEligible(start)
    requires r < |start.contenders| && Renews(start, start.contenders[r])
    requires AllFinished(Run(start, es, ttl))
    ensures WinsAlone(start, stale, Run(start, es, ttl), ttl, r)
  {
    RunKeepsRenewal(start, stale, ttl, r, es);
    var w := Run(start, es, ttl);
    hide Run, SomeCandidate, SomeEligible, SomeRenews;
    assert Finished(w.contenders[r]) && SameRuntime(w.contenders[r], start.contenders[r]);
    forall i | 0 <= i < |w.contenders| && i != r
      ensures w.contenders[i].pc == Denied
    {
      assert Finished(w.contenders[i]) && OnlyLooks(w.contenders[i]);
    }
  }

  /** A contest ends with one candidate as its winner, or with nobody able to win. */
  lemma ContestEnds(start: World, stale: nat, ttl: nat, latest: nat, es: seq<Event>)
    requires Contest(start, stale, ttl) && Calm(start, stale, ttl, latest) && CollectsBy(es, latest)
    requires AllFinished(Run(start, es, ttl))
    ensures
      var w := Run(start, es, ttl);
      && |w.contenders| == |start.contenders|
      && ((stale < ROUNDS && exists k: nat :: WinsAlone(start, stale, w, ttl, k) && k < |start.contenders| && Candidate(start, stale, start.contenders[k]))
          || (w.lease == start.lease
              && (forall i :: 0 <= i < |w.contenders| ==> w.contenders[i].pc == Denied)
              && (stale == ROUNDS || !SomeCandidate(start, stale))))
  {
    var w := Run(start, es, ttl);
    var winner := RunKeepsRace(start, stale, ttl, latest, es);
    hide Run, RaceStart, Calm, OwnClaim, SomeEligible, SomeRenews, StaleClaimsStand, Candidate;
    forall i | 0 <= i < |w.contenders| && winner != Some(i)
      ensures w.contenders[i].pc == Denied
      ensures winner.Some? || stale == ROUNDS || !Candidate(start, stale, start.contenders[i])
    {
      assert LoserOk(start, stale, w.contenders[i], winner.Some?) && Finished(w.contenders[i]);
      SameMay(start, stale, w.contenders[i], start.contenders[i]);
    }
    if winner.Some? {
      var k := winner.value;
      assert Finished(w.contenders[k]);
      SameMay(start, stale, w.contenders[k], start.contenders[k]);
      assert WinsAlone(start, stale, w, ttl, k);
    }
  }

  // ---- The race ends -----------------------------------------------------------

  /** Store operations a runtime still has to make, at most. */
  function Left(c: Contender): nat {
    match c.pc
    case Start => 2 * ROUNDS + 4
    case ReadLease => 2 * ROUNDS + 3
    case TryClaim => if c.round < ROUNDS then 2 * (ROUNDS - c.round) + 2 else 1
    case ReadClaim => if c.round < ROUNDS then 2 * (ROUNDS - c.round) + 1 else 3
    case Install(_) | Retry => 1
    case _ => 0
  }

  /** Every operation of an unfinished runtime brings it closer to its end, and moves nobody else. */
  lemma StepsRunOut(w: World, i: nat, ttl: nat)
    requires i < |w.contenders| && !Finished(w.contenders[i]) && !w.contenders[i].pc.Stopped?
    ensures
      var t := StepOne(w, i, ttl);
      && |t.contenders| == |w.contenders|
      && Left(t.contenders[i]) < Left(w.contenders[i])
      && !t.contenders[i].pc.Stopped?
      && (forall j :: 0 <= j < |w.contenders| && j != i ==> t.contenders[j] == w.contenders[j])
  {
  }

  // ---- The first lease ---------------------------------------------------------------

  /** Nobody has moved, or runtime `k` created the lease object and the others can only be refused. */
  ghost predicate FirstInv(start: World, ttl: nat, w: World, winner: Option<nat>) {
    && |w.contenders| == |start.contenders|
    && (forall i :: 0 <= i < |w.contenders| ==> SameRuntime(w.contenders[i], start.contenders[i]))
    && (w.present <==> winner.Some?)
    && (winner.Some? ==>
          && winner.value < |w.contenders|
          && w.lease == FirstLease(start.contenders[winner.value], 0, ttl)
          && (w.contenders[winner.value].pc == Won(w.lease) || w.contenders[winner.value].pc.Stopped?))
    && (forall i :: 0 <= i < |w.contenders| && winner != Some(i) ==>
          var pc := w.contenders[i].pc;
          pc.Start? || pc.Stopped? || (winner.Some? && (pc.ReadLease? || pc.Denied?)))
  }

  lemma StepKeepsFirst(start: World, ttl: nat, w: World, winner: Option<nat>, e: Event) returns (next: Option<nat>)
    requires Rivals(start, ttl) && FirstInv(start, ttl, w, winner)
    ensures FirstInv(start, ttl, Next(w, e, ttl), next)
  {
    next := winner;
    if e.Stop? && e.i < |w.contenders| {
      hide Rivals, FirstLease;
      StopsAreOwn(w, e.i);
    }
    if e.Step? && e.i < |w.contenders| {
      StepsAreOwn(w, e.i, ttl);
      assert SameRuntime(w.contenders[e.i], start.contenders[e.i]);
      if winner.None? {
        next := if w.contenders[e.i].pc.Start? then Some(e.i) else None;
      } else if winner != Some(e.i) {
        var k := winner.value;
        assert start.contenders[e.i].now < start.contenders[k].now + ttl;
        assert start.contenders[e.i].id != start.contenders[k].id;
      }
    }
  }

  lemma {:induction false} RunKeepsFirst(start: World, ttl: nat, es: seq<Event>) returns (winner: Option<nat>)
    requires !start.present && Rivals(start, ttl)
    ensures FirstInv(start, ttl, Run(start, es, ttl), winner)
  {
    hide Rivals, FirstInv, Next;
    if |es| == 0 {
      winner := None;
      NobodyMoved(start, ttl);
    } else {
      winner := RunKeepsFirst(start, ttl, es[..|es| - 1]);
      winner := StepKeepsFirst(start, ttl, Run(start, es[..|es| - 1], ttl), winner, es[|es| - 1]);
    }
  }

  lemma NobodyMoved(start: World, ttl: nat)
    requires !start.present && Rivals(start, ttl)
    ensures FirstInv(start, ttl, start, None)
  {
  }

  /**
   Of any number of runtimes that find no lease object at most one ever holds an Ok answer, for the
   live lease it created; when all have their answers exactly one does, and the others got 423.
   */
  lemma FirstLeaseHasOneWinner(start: World, ttl: nat, es: seq<Event>)
    requires !start.present && Rivals(start, ttl)
    ensures
      var w := Run(start, es, ttl);
      && (forall i :: 0 <= i < |w.contenders| && w.contenders[i].pc.Won? ==> HoldsFirst(w, i, ttl))
      && (forall i, j :: 0 <= i < j < |w.contenders| ==> !(w.contenders[i].pc.Won? && w.contenders[j].pc.Won?))
      && (AllFinished(w) && |w.contenders| > 0 ==>
            exists k: nat :: HoldsFirst(w, k, ttl)
              && forall i :: 0 <= i < |w.contenders| && i != k ==> w.contenders[i].pc == Denied)
  {
    var w := Run(start, es, ttl);
    var winner := RunKeepsFirst(start, ttl, es);
    hide Rivals, Run;
    if winner.Some? {
      var k := winner.value;
      assert SameRuntime(w.contenders[k], start.contenders[k]);
      if AllFinished(w) {
        forall i | 0 <= i < |w.contenders| && i != k
          ensures w.contenders[i].pc == Denied
        {
          assert Finished(w.contenders[i]);
        }
        assert Finished(w.contenders[k]) && HoldsFirst(w, k, ttl);
      }
    } else if |w.contenders| > 0 {
      assert !Finished(w.contenders[0]);
    }
  }

  ghost predicate HoldsFirst(w: World, k: nat, ttl: nat) {
    && k < |w.contenders| && w.present && w.contenders[k].pc == Won(w.lease)
    && w.lease.owner == w.contenders[k].id
    && w.lease.token == w.contenders[k].now % 0x1_0000_0000_0000_0000
    && w.lease.acquiredAt == w.contenders[k].now && w.lease.expiresAt == w.contenders[k].now + ttl
  }

  /** The token of a created lease is its creator's clock, cut to 64 bits. */
  lemma CreatedToken(start: World, es: seq<Event>, k: nat, ttl: nat)
    requires !start.present && Rivals(start, ttl)
    requires k < |start.contenders| && k < |Run(start, es, ttl).contenders| && Run(start, es, ttl).contenders[k].pc.Won?
    ensures Run(start, es, ttl).contenders[k].pc.lease.token == start.contenders[k].now % 0x1_0000_0000_0000_0000
  {
    FirstLeaseHasOneWinner(start, ttl, es);
    KeepsClock(start, es, k, ttl);
    hide Run, Rivals;
    assert HoldsFirst(Run(start, es, ttl), k, ttl);
  }

  /**
   A lease that is removed and created again is recognized as a newer one exactly when the creator's
   clock, cut to 64 bits, has passed the old token, which counts up with every renewal. So it is
   newer than one created under an earlier clock and removed before it was renewed.
   */
  lemma RecreatedIsNewer(old_: Lease, again: World, es: seq<Event>, k: nat, ttl: nat)
    requires !again.present && Rivals(again, ttl)
    requires k < |again.contenders| && k < |Run(again, es, ttl).contenders| && Run(again, es, ttl).contenders[k].pc.Won?
    ensures
      old_.token < Run(again, es, ttl).contenders[k].pc.lease.token
      <==> old_.token < again.contenders[k].now % 0x1_0000_0000_0000_0000
    ensures forall start: World, before: seq<Event>, i: nat ::
              && !start.present && Rivals(start, ttl) && i < |start.contenders|
              && i < |Run(start, before, ttl).contenders| && Run(start, before, ttl).contenders[i].pc == Won(old_)
              && start.contenders[i].now < again.contenders[k].now < 0x1_0000_0000_0000_0000
              ==> old_.token < Run(again, es, ttl).contenders[k].pc.lease.token
  {
    hide Run, Rivals;
    CreatedToken(again, es, k, ttl);
    forall start: World, before: seq<Event>, i: nat
      | && !start.present && Rivals(start, ttl) && i < |start.contenders|
        && i < |Run(start, before, ttl).contenders| && Run(start, before, ttl).contenders[i].pc == Won(old_)
        && start.contenders[i].now < again.contenders[k].now < 0x1_0000_0000_0000_0000
      ensures old_.token < Run(again, es, ttl).contenders[k].pc.lease.token
    {
      CreatedToken(start, before, i, ttl);
    }
  }

  // ---- Building runs ---------------------------------------------------

  lemma {:induction false} RunAppend(w: World, a: seq<Event>, b: seq<Event>, ttl: nat)
    ensures Run(w, a + b, ttl) == Run(Run(w, a, ttl), b, ttl)
  {
    if |b| == 0 {
      assert a + b == a;
    } else {
      RunAppend(w, a, b[..|b| - 1], ttl);
      assert (a + b)[..|a + b| - 1] == a + b[..|b| - 1];
    }
  }

  lemma RunOne(w: World, e: Event, ttl: nat)
    ensures Run(w, [e], ttl) == Next(w, e, ttl)
  {
    assert [e][..0] == [] && Run(w, [], ttl) == w;
  }

  /** One more operation of a runtime at the end of a run. */
  lemma ThenStep(w: World, es: seq<Event>, i: nat, ttl: nat)
    requires i < |Run(w, es, ttl).contenders|
    ensures Run(w, es + [Step(i)], ttl) == StepOne(Run(w, es, ttl), i, ttl)
  {
    hide StepOne;
    RunAppend(w, es, [Step(i)], ttl);
    RunOne(Run(w, es, ttl), Step(i), ttl);
  }

  /** One runtime runs to its end by itself. */
  lemma {:induction false} FinishOne(w: World, i: nat, ttl: nat, latest: nat) returns (es: seq<Event>)
    requires i < |w.contenders| && !w.contenders[i].pc.Stopped?
    ensures CollectsBy(es, latest)
    ensures
      var v := Run(w, es, ttl);
      && |v.contenders| == |w.contenders| && Finished(v.contenders[i])
      && (Finished(w.contenders[i]) ==> v == w)
      && (forall j :: 0 <= j < |w.contenders| && j != i ==> v.contenders[j] == w.contenders[j])
    decreases Left(w.contenders[i])
  {
    hide StepOne;
    if Finished(w.contenders[i]) {
      es := [];
    } else {
      StepsRunOut(w, i, ttl);
      var rest := FinishOne(StepOne(w, i, ttl), i, ttl, latest);
      es := [Step(i)] + rest;
      RunOne(w, Step(i), ttl);
      RunAppend(w, [Step(i)], rest, ttl);
    }
  }

  /** Any state in which nobody stopped can be run to the end; those who had finished stay as they were. */
  lemma {:induction false} FinishAll(w: World, n: nat, ttl: nat, latest: nat) returns (es: seq<Event>)
    requires n <= |w.contenders| && forall i :: 0 <= i < n ==> !w.contenders[i].pc.Stopped?
    ensures CollectsBy(es, latest)
    ensures
      var v := Run(w, es, ttl);
      && |v.contenders| == |w.contenders|
      && (forall i :: 0 <= i < n ==> Finished(v.contenders[i]))
      && (forall i :: 0 <= i < |w.contenders| && (n <= i || Finished(w.contenders[i])) ==>
            v.contenders[i] == w.contenders[i])
  {
    hide Finished;
    if n == 0 {
      es := [];
    } else {
      var front := FinishAll(w, n - 1, ttl, latest);
      var last := FinishOne(Run(w, front, ttl), n - 1, ttl, latest);
      es := front + last;
      RunAppend(w, front, last, ttl);
    }
  }

  /** The rest of the race after a run that stopped nobody. */
  lemma FinishRace(start: World, front: seq<Event>, ttl: nat, latest: nat) returns (es: seq<Event>)
    requires CollectsBy(front, latest)
    requires forall i :: 0 <= i < |Run(start, front, ttl).contenders| ==> !Run(start, front, ttl).contenders[i].pc.Stopped?
    ensures CollectsBy(es, latest)
    ensures
      var mid, w := Run(start, front, ttl), Run(start, es, ttl);
      && AllFinished(w) && |w.contenders| == |mid.contenders|
      && (forall i :: 0 <= i < |w.contenders| && Finished(mid.contenders[i]) ==> w.contenders[i] == mid.contenders[i])
  {
    hide Run, Finished;
    var mid := Run(start, front, ttl);
    var rest := FinishAll(mid, |mid.contenders|, ttl, latest);
    RunAppend(start, front, rest, ttl);
    es := front + rest;
  }

  /** `n` operations of one runtime. */
  function Steps(i: nat, n: nat): seq<Event> {
    if n == 0 then [] else Steps(i, n - 1) + [Step(i)]
  }

  lemma {:induction false} StepsCollectNothing(i: nat, n: nat, latest: nat)
    ensures CollectsBy(Steps(i, n), latest)
  {
    if n > 0 {
      StepsCollectNothing(i, n - 1, latest);
    }
  }

  /** A runtime that read the lease, after walking past `round` expired claims. */
  function Walker(start: World, i: nat, round: nat): Contender
    requires i < |start.contenders| && (round == 0 || start.lease.token + round in start.claims)
  {
    start.contenders[i].(base := BaseAt(start, round), round := round, pc := TryClaim)
  }

  /** The claims of the first `round` tokens are still the ones the race began with. */
  ghost predicate ClaimsUpTo(start: World, w: World, round: nat) {
    forall t :: start.lease.token < t <= start.lease.token + round ==>
      t in start.claims && t in w.claims && w.claims[t] == start.claims[t]
  }

  /** A runtime that finds the expired lease and may take part goes on to claim. */
  lemma ReadsLease(start: World, stale: nat, ttl: nat, w: World, i: nat)
    requires RaceStart(start, stale, ttl) && i < |w.contenders| == |start.contenders|
    requires w.present && w.lease == start.lease
    requires w.contenders[i] == start.contenders[i] && Eligible(start, w.contenders[i])
    ensures Run(w, Steps(i, 2), ttl) == Set(w, i, Walker(start, i, 0))
  {
    assert w.contenders[i].pc.Start?;
    var mid := Set(w, i, w.contenders[i].(pc := ReadLease));
    assert StepOne(w, i, ttl) == mid;
    assert StepOne(mid, i, ttl) == Set(mid, i, Walker(start, i, 0)) == Set(w, i, Walker(start, i, 0));
    hide RaceStart, StepOne;
    assert Steps(i, 2) == Steps(i, 1) + [Step(i)] && Steps(i, 1) == [] + [Step(i)] && Steps(i, 0) == [];
    ThenStep(w, [], i, ttl);
    ThenStep(w, [Step(i)], i, ttl);
  }

  lemma {:induction false} WalkTo(start: World, stale: nat, ttl: nat, w: World, i: nat, round: nat)
    requires RaceStart(start, stale, ttl) && i < |w.contenders| == |start.contenders| && round <= stale
    requires w.contenders[i] == Walker(start, i, 0) && ClaimsUpTo(start, w, round)
    requires PathClear(start, start.contenders[i], round)
    ensures round > 0 ==> start.lease.token + round in start.claims
    ensures Run(w, Steps(i, 2 * round), ttl) == Set(w, i, Walker(start, i, round))
  {
    hide RaceStart, StepOne, Next, Run;
    if round == 0 {
      assert Set(w, i, w.contenders[i]) == w;
      NoSteps(w, i, ttl);
    } else {
      WalkTo(start, stale, ttl, w, i, round - 1);
      var at := Set(w, i, Walker(start, i, round - 1));
      assert start.lease.token + round in start.claims;
      WalkStep(start, stale, ttl, at, i, round);
      assert Set(at, i, Walker(start, i, round)) == Set(w, i, Walker(start, i, round));
      TwoMore(i, 2 * round - 2);
      RunAppend(w, Steps(i, 2 * round - 2), [Step(i)] + [Step(i)], ttl);
    }
  }

  lemma NoSteps(w: World, i: nat, ttl: nat)
    ensures Run(w, Steps(i, 0), ttl) == w
  {
  }

  lemma TwoMore(i: nat, n: nat)
    ensures Steps(i, n + 2) == Steps(i, n) + ([Step(i)] + [Step(i)])
  {
    assert Steps(i, n + 2) == Steps(i, n) + [Step(i)] + [Step(i)];
  }

  /** Finding one more expired claim by somebody else takes two operations. */
  lemma WalkStep(start: World, stale: nat, ttl: nat, w: World, i: nat, round: nat)
    requires RaceStart(start, stale, ttl) && i < |w.contenders| == |start.contenders| && 0 < round <= stale
    requires round > 1 ==> start.lease.token + round - 1 in start.claims
    requires w.contenders[i] == Walker(start, i, round - 1) && ClaimsUpTo(start, w, round)
    requires PathClear(start, start.contenders[i], round)
    ensures start.lease.token + round in start.claims
    ensures Run(w, [Step(i)] + [Step(i)], ttl) == Set(w, i, Walker(start, i, round))
  {
    var c := w.contenders[i];
    var token := start.lease.token + round;
    assert token in start.claims && token in w.claims && w.claims[token] == start.claims[token];
    WalkerToken(start, stale, ttl, i, round - 1);
    hide RaceStart;
    var mid := Set(w, i, c.(pc := ReadClaim));
    assert StepOne(w, i, ttl) == mid;
    assert Passes(start.contenders[i], start.claims[token]);
    assert StepOne(mid, i, ttl) == Set(mid, i, Walker(start, i, round)) == Set(w, i, Walker(start, i, round));
    RunOne(w, Step(i), ttl);
    RunOne(mid, Step(i), ttl);
    RunAppend(w, [Step(i)], [Step(i)], ttl);
  }

  lemma WalkerToken(start: World, stale: nat, ttl: nat, i: nat, round: nat)
    requires RaceStart(start, stale, ttl) && i < |start.contenders| && round <= stale
    requires round > 0 ==> start.lease.token + round in start.claims
    ensures SatInc(Walker(start, i, round).base.token) == start.lease.token + round + 1
  {
    hide Rivals, SomeEligible, SomeCandidate, SomeRenews;
    if round > 0 {
      assert start.claims[start.lease.token + round].token == start.lease.token + round;
    }
  }

  /** A runtime whose next token is free claims it and installs its lease. */
  lemma ClaimsFree(start: World, stale: nat, ttl: nat, w: World, i: nat, round: nat)
    requires RaceStart(start, stale, ttl) && i < |w.contenders| == |start.contenders| && round <= stale && round < ROUNDS
    requires round > 0 ==> start.lease.token + round in start.claims
    requires w.contenders[i] == Walker(start, i, round) && start.lease.token + round + 1 !in w.claims
    ensures
      var token := start.lease.token + round + 1;
      var lease := LeaseOf(w.contenders[i], token, ttl);
      Run(w, [Step(i)] + [Step(i)], ttl)
      == Set(w, i, w.contenders[i].(pc := Won(lease))).(claims := w.claims[token := lease], lease := lease)
  {
    var c := w.contenders[i];
    var token := start.lease.token + round + 1;
    var lease := LeaseOf(c, token, ttl);
    WalkerToken(start, stale, ttl, i, round);
    hide RaceStart;
    var mid := Set(w, i, c.(pc := Install(lease))).(claims := w.claims[token := lease]);
    assert StepOne(w, i, ttl) == mid;
    RunOne(w, Step(i), ttl);
    RunOne(mid, Step(i), ttl);
    RunAppend(w, [Step(i)], [Step(i)], ttl);
  }

  /** The way of one runtime from its walk to its win at the free token after `round` claims. */
  lemma WalksAndWins(start: World, stale: nat, ttl: nat, latest: nat, w: World, i: nat, round: nat) returns (es: seq<Event>)
    requires RaceStart(start, stale, ttl) && i < |w.contenders| == |start.contenders| && round <= stale && round < ROUNDS
    requires w.contenders[i] == Walker(start, i, 0) && ClaimsUpTo(start, w, round)
    requires PathClear(start, start.contenders[i], round)
    requires start.lease.token + round + 1 !in w.claims
    ensures CollectsBy(es, latest)
    ensures
      var token := start.lease.token + round + 1;
      var lease := LeaseOf(start.contenders[i], token, ttl);
      var v := Run(w, es, ttl);
      && v.claims == w.claims[token := lease] && |v.contenders| == |w.contenders|
      && v.contenders[i].pc == Won(lease)
      && (forall j :: 0 <= j < |w.contenders| && j != i ==> v.contenders[j] == w.contenders[j])
  {
    hide Run, RaceStart, StepOne;
    WalkTo(start, stale, ttl, w, i, round);
    var at := Set(w, i, Walker(start, i, round));
    ClaimsFree(start, stale, ttl, at, i, round);
    es := Steps(i, 2 * round) + ([Step(i)] + [Step(i)]);
    RunAppend(w, Steps(i, 2 * round), [Step(i)] + [Step(i)], ttl);
    StepsCollectNothing(i, 2 * round, latest);
  }

  /** A runtime that finds a claim of its own on the way installs it, whether or not it has expired. */
  lemma TakesOwn(start: World, stale: nat, ttl: nat, latest: nat, w: World, i: nat, round: nat) returns (es: seq<Event>)
    requires RaceStart(start, stale, ttl) && i < |w.contenders| == |start.contenders|
    requires w.contenders[i] == Walker(start, i, 0) && w.claims == start.claims
    requires ReachesOwn(start, stale, start.contenders[i], round)
    ensures CollectsBy(es, latest)
    ensures
      var v := Run(w, es, ttl);
      && v.claims == w.claims && |v.contenders| == |w.contenders|
      && v.contenders[i].pc == Won(start.claims[start.lease.token + round + 1])
      && (forall j :: 0 <= j < |w.contenders| && j != i ==> v.contenders[j] == w.contenders[j])
  {
    hide RaceStart, Run, StepOne;
    assert ClaimsUpTo(start, w, round);
    WalkTo(start, stale, ttl, w, i, round);
    InstallsOwn(start, stale, ttl, Set(w, i, Walker(start, i, round)), i, round);
    es := Steps(i, 2 * round) + ([Step(i)] + [Step(i)] + [Step(i)]);
    RunAppend(w, Steps(i, 2 * round), [Step(i)] + [Step(i)] + [Step(i)], ttl);
    StepsCollectNothing(i, 2 * round, latest);
  }

  lemma InstallsOwn(start: World, stale: nat, ttl: nat, w: World, i: nat, round: nat)
    requires RaceStart(start, stale, ttl) && i < |w.contenders| == |start.contenders|
    requires round > 0 ==> start.lease.token + round in start.claims
    requires w.contenders[i] == Walker(start, i, round) && w.claims == start.claims
    requires ReachesOwn(start, stale, start.contenders[i], round)
    ensures
      var own := start.claims[start.lease.token + round + 1];
      Run(w, [Step(i)] + [Step(i)] + [Step(i)], ttl)
      == Set(w, i, w.contenders[i].(pc := Won(own))).(lease := own)
  {
    var c, own := w.contenders[i], start.claims[start.lease.token + round + 1];
    WalkerToken(start, stale, ttl, i, round);
    assert round < ROUNDS;
    hide RaceStart, Run, PathClear;
    var looks, installs := Set(w, i, c.(pc := ReadClaim)), Set(w, i, c.(pc := Install(own)));
    assert StepOne(w, i, ttl) == looks;
    assert StepOne(looks, i, ttl) == installs;
    RunOne(w, Step(i), ttl);
    ThenStep(w, [Step(i)], i, ttl);
    ThenStep(w, [Step(i)] + [Step(i)], i, ttl);
  }

  // ---- What breaks the promise ---------------------------------------------------

  /** Two runtimes that may take part have both read the expired lease. */
  lemma BothRead(start: World, stale: nat, ttl: nat, i: nat, j: nat) returns (es: seq<Event>)
    requires RaceStart(start, stale, ttl) && i < |start.contenders| && j < |start.contenders| && i != j
    requires Eligible(start, start.contenders[i]) && Eligible(start, start.contenders[j])
    ensures forall k :: 0 <= k < |es| ==> es[k].Step?
    ensures Run(start, es, ttl) == Set(Set(start, i, Walker(start, i, 0)), j, Walker(start, j, 0))
  {
    hide Run, StepOne, Eligible;
    ReadsLease(start, stale, ttl, start, i);
    ReadsLease(start, stale, ttl, Set(start, i, Walker(start, i, 0)), j);
    RunAppend(start, Steps(i, 2), Steps(j, 2), ttl);
    es := Steps(i, 2) + Steps(j, 2);
    OnlySteps(i, 2);
    OnlySteps(j, 2);
  }

  lemma {:induction false} OnlySteps(i: nat, n: nat)
    ensures forall k :: 0 <= k < |Steps(i, n)| ==> Steps(i, n)[k].Step?
  {
    if n > 0 {
      OnlySteps(i, n - 1);
    }
  }

  /**
   Collected claims. From every start of a race with two eligible runtimes in which a claim on the
   way, or the first winner's own claim, can be collected, some run ends with both answered Ok.
   */
  lemma CollectionAllowsTwoWinners(start: World, stale: nat, ttl: nat, latest: nat, i: nat, j: nat, token: nat)
      returns (es: seq<Event>)
    requires RaceStart(start, stale, ttl) && i < |start.contenders| && j < |start.contenders| && i != j && stale < ROUNDS
    requires Eligible(start, start.contenders[i]) && Eligible(start, start.contenders[j])
    requires PathClear(start, start.contenders[i], stale) && PathClear(start, start.contenders[j], stale)
    requires start.lease.token < token <= Deciding(start, stale)
    requires token < Deciding(start, stale) ==> token in start.claims && Collectable(start.claims[token], latest)
    requires token == Deciding(start, stale) ==> start.contenders[i].now + ttl + GC_GRACE_MS < latest
    ensures CollectsBy(es, latest)
    ensures
      var w := Run(start, es, ttl);
      && AllFinished(w) && |w.contenders| == |start.contenders|
      && w.contenders[i].pc.Won? && w.contenders[j].pc.Won?
      && w.contenders[j].pc.lease.token <= w.contenders[i].pc.lease.token
  {
    hide Run, StepOne;
    assert forall k :: 0 <= k < |start.contenders| ==> start.contenders[k].pc == Start;
    var round := token - start.lease.token - 1;
    assert Deciding(start, stale) !in start.claims && ClaimsUpTo(start, start, stale) && round <= stale;
    hide RaceStart, Eligible;
    var looks := BothRead(start, stale, ttl, i, j);
    var two := Run(start, looks, ttl);
    var first := WalksAndWins(start, stale, ttl, latest, two, i, stale);
    var won := Run(two, first, ttl);
    RunOne(won, Collect(token, latest), ttl);
    var less := won.(claims := won.claims - {token});
    assert Next(won, Collect(token, latest), ttl) == less;
    assert ClaimsUpTo(start, less, round);
    var second := WalksAndWins(start, stale, ttl, latest, less, j, round);
    RunAppend(start, looks, first, ttl);
    RunAppend(start, looks + first, [Collect(token, latest)], ttl);
    RunAppend(start, looks + first + [Collect(token, latest)], second, ttl);
    es := FinishRace(start, looks + first + [Collect(token, latest)] + second, ttl, latest);
  }

  /** From the start of a race, one eligible runtime by itself walks past the first `round` claims. */
  lemma WalksFromStart(start: World, stale: nat, ttl: nat, latest: nat, i: nat, round: nat) returns (es: seq<Event>)
    requires RaceStart(start, stale, ttl) && i < |start.contenders| && round <= stale
    requires Eligible(start, start.contenders[i]) && PathClear(start, start.contenders[i], round)
    ensures round > 0 ==> start.lease.token + round in start.claims
    ensures CollectsBy(es, latest) && Run(start, es, ttl) == Set(start, i, Walker(start, i, round))
  {
    var one := Set(start, i, Walker(start, i, 0));
    assert ClaimsUpTo(start, one, round);
    hide RaceStart, Run, StepOne, PathClear, ClaimsUpTo;
    ReadsLease(start, stale, ttl, start, i);
    WalkTo(start, stale, ttl, one, i, round);
    assert Set(one, i, Walker(start, i, round)) == Set(start, i, Walker(start, i, round));
    RunAppend(start, Steps(i, 2), Steps(i, 2 * round), ttl);
    StepsCollectNothing(i, 2, latest);
    StepsCollectNothing(i, 2 * round, latest);
    es := Steps(i, 2) + Steps(i, 2 * round);
  }

  /**
   A runtime whose claim to read has just been collected fails with an error, so even alone it
   does not get the lease.
   */
  lemma CollectionFailsARuntime(start: World, stale: nat, ttl: nat, latest: nat, i: nat, token: nat)
      returns (es: seq<Event>)
    requires RaceStart(start, stale, ttl) && i < |start.contenders| && Eligible(start, start.contenders[i])
    requires start.lease.token < token < Deciding(start, stale)
    requires PathClear(start, start.contenders[i], token - 1 - start.lease.token)
    requires token in start.claims && Collectable(start.claims[token], latest)
    ensures CollectsBy(es, latest)
    ensures
      var w := Run(start, es, ttl);
      AllFinished(w) && |w.contenders| == |start.contenders| && w.contenders[i].pc == Failed
  {
    assert forall k :: 0 <= k < |start.contenders| ==> start.contenders[k].pc == Start;
    hide Run, RaceStart, PathClear, Eligible, Collectable;
    var front := WalksAndFails(start, stale, ttl, latest, i, token - start.lease.token - 1);
    es := FinishRace(start, front, ttl, latest);
  }

  lemma WalksAndFails(start: World, stale: nat, ttl: nat, latest: nat, i: nat, round: nat) returns (es: seq<Event>)
    requires RaceStart(start, stale, ttl) && i < |start.contenders| && Eligible(start, start.contenders[i])
    requires round < stale && PathClear(start, start.contenders[i], round)
    requires start.lease.token + round + 1 in start.claims
    requires Collectable(start.claims[start.lease.token + round + 1], latest)
    ensures CollectsBy(es, latest)
    ensures
      var w := Run(start, es, ttl);
      && |w.contenders| == |start.contenders| && w.contenders[i].pc == Failed
      && forall j :: 0 <= j < |w.contenders| && j != i ==> w.contenders[j] == start.contenders[j]
  {
    hide Run, StepOne, RaceStart, PathClear, Eligible, Collectable, BaseAt;
    var walk := WalksFromStart(start, stale, ttl, latest, i, round);
    LooksInVain(start, stale, ttl, Set(start, i, Walker(start, i, round)), i, round, latest);
    var found := [Step(i)] + [Collect(start.lease.token + round + 1, latest)] + [Step(i)];
    assert CollectsBy(found, latest);
    RunAppend(start, walk, found, ttl);
    es := walk + found;
  }

  lemma LooksInVain(start: World, stale: nat, ttl: nat, w: World, i: nat, round: nat, latest: nat)
    requires RaceStart(start, stale, ttl) && i < |w.contenders| == |start.contenders| && round < stale
    requires round > 0 ==> start.lease.token + round in start.claims
    requires w.contenders[i] == Walker(start, i, round)
    requires start.lease.token + round + 1 in w.claims && Collectable(w.claims[start.lease.token + round + 1], latest)
    ensures
      var token := start.lease.token + round + 1;
      var v := Run(w, [Step(i)] + [Collect(token, latest)] + [Step(i)], ttl);
      && |v.contenders| == |w.contenders| && v.contenders[i].pc == Failed
      && forall j :: 0 <= j < |w.contenders| && j != i ==> v.contenders[j] == w.contenders[j]
  {
    var c := w.contenders[i];
    var token := start.lease.token + round + 1;
    WalkerToken(start, stale, ttl, i, round);
    assert round < ROUNDS;
    hide RaceStart;
    var looking := Set(w, i, c.(pc := ReadClaim));
    assert StepOne(w, i, ttl) == looking;
    RunOne(w, Step(i), ttl);
    var gone := looking.(claims := looking.claims - {token});
    RunOne(looking, Collect(token, latest), ttl);
    RunOne(gone, Step(i), ttl);
    RunAppend(w, [Step(i)], [Collect(token, latest)], ttl);
    RunAppend(w, [Step(i)] + [Collect(token, latest)], [Step(i)], ttl);
  }

  /**
   An own claim from an earlier attempt. Whatever else happens, the runtime that finds it is
   answered Ok for a lease that is older than a fresh one.
   */
  lemma OwnClaimIsTaken(start: World, stale: nat, ttl: nat, latest: nat, i: nat, round: nat) returns (es: seq<Event>)
    requires RaceStart(start, stale, ttl) && i < |start.contenders|
    requires ReachesOwn(start, stale, start.contenders[i], round)
    ensures CollectsBy(es, latest)
    ensures
      var w := Run(start, es, ttl);
      && AllFinished(w) && |w.contenders| == |start.contenders|
      && w.contenders[i].pc == Won(start.claims[start.lease.token + round + 1])
      && start.claims[start.lease.token + round + 1].expiresAt < w.contenders[i].now + ttl
  {
    hide Run, StepOne;
    assert forall k :: 0 <= k < |start.contenders| ==> start.contenders[k].pc == Start;
    OwnClaimIsOld(start, stale, ttl, i, round);
    hide RaceStart;
    ReadsLease(start, stale, ttl, start, i);
    var one := Set(start, i, Walker(start, i, 0));
    var takes := TakesOwn(start, stale, ttl, latest, one, i, round);
    RunAppend(start, Steps(i, 2), takes, ttl);
    StepsCollectNothing(i, 2, latest);
    var front := Steps(i, 2) + takes;
    es := FinishRace(start, front, ttl, latest);
    KeepsClock(start, es, i, ttl);
  }

  /** A claim that a rival sees as expired cannot be as young as one made now. */
  lemma OwnClaimIsOld(start: World, stale: nat, ttl: nat, i: nat, round: nat)
    requires RaceStart(start, stale, ttl) && i < |start.contenders|
    requires ReachesOwn(start, stale, start.contenders[i], round)
    ensures start.claims[start.lease.token + round + 1].expiresAt < start.contenders[i].now + ttl
  {
    assert SomeEligible(start);
    var b :| 0 <= b < |start.contenders| && Candidate(start, stale, start.contenders[b]);
    assert start.lease.token + round + 1 < Deciding(start, stale);
    assert start.contenders[b].now < start.contenders[i].now + ttl;
  }

  lemma {:induction false} KeepsClock(start: World, es: seq<Event>, i: nat, ttl: nat)
    requires i < |start.contenders|
    ensures |Run(start, es, ttl).contenders| == |start.contenders|
    ensures SameRuntime(Run(start, es, ttl).contenders[i], start.contenders[i])
  {
    if |es| > 0 {
      KeepsClock(start, es[..|es| - 1], i, ttl);
      StepKeepsClock(Run(start, es[..|es| - 1], ttl), es[|es| - 1], i, ttl);
      hide Next;
    }
  }

  lemma StepKeepsClock(w: World, e: Event, i: nat, ttl: nat)
    requires i < |w.contenders|
    ensures |Next(w, e, ttl).contenders| == |w.contenders| && SameRuntime(Next(w, e, ttl).contenders[i], w.contenders[i])
  {
  }

  /** And a second eligible runtime gets an Ok of its own, under a larger token. */
  lemma OwnClaimAllowsTwoWinners(start: World, stale: nat, ttl: nat, latest: nat, i: nat, round: nat, j: nat)
      returns (es: seq<Event>)
    requires RaceStart(start, stale, ttl) && i < |start.contenders| && j < |start.contenders| && i != j && stale < ROUNDS
    requires ReachesOwn(start, stale, start.contenders[i], round)
    requires Eligible(start, start.contenders[j]) && PathClear(start, start.contenders[j], stale)
    ensures CollectsBy(es, latest)
    ensures
      var w := Run(start, es, ttl);
      && AllFinished(w) && |w.contenders| == |start.contenders|
      && w.contenders[i].pc.Won? && w.contenders[j].pc.Won?
      && w.contenders[i].pc.lease.token < w.contenders[j].pc.lease.token
  {
    hide Run, StepOne;
    assert forall k :: 0 <= k < |start.contenders| ==> start.contenders[k].pc == Start;
    assert Deciding(start, stale) !in start.claims && ClaimsUpTo(start, start, stale);
    assert start.claims[start.lease.token + round + 1].token == start.lease.token + round + 1;
    hide RaceStart;
    var looks := BothRead(start, stale, ttl, i, j);
    var two := Run(start, looks, ttl);
    var first := TakesOwn(start, stale, ttl, latest, two, i, round);
    var won := Run(two, first, ttl);
    assert ClaimsUpTo(start, won, stale);
    var second := WalksAndWins(start, stale, ttl, latest, won, j, stale);
    RunAppend(start, looks, first, ttl);
    RunAppend(start, looks + first, second, ttl);
    es := FinishRace(start, looks + first + second, ttl, latest);
  }

  /**
   A renewal beside a takeover. While the owner that still reads its lease as live is about to
   install its renewal, a rival whose clock reads it as expired wins the takeover; both are answered Ok.
   */
  lemma RenewalAllowsTwoWinners(start: World, stale: nat, ttl: nat, latest: nat, i: nat, j: nat) returns (es: seq<Event>)
    requires RaceStart(start, stale, ttl) && i < |start.contenders| && j < |start.contenders| && stale < ROUNDS
    requires Renews(start, start.contenders[i])
    requires Eligible(start, start.contenders[j]) && PathClear(start, start.contenders[j], stale)
    ensures CollectsBy(es, latest)
    ensures
      var w := Run(start, es, ttl);
      && AllFinished(w) && |w.contenders| == |start.contenders| && i != j
      && w.contenders[i].pc.Won? && w.contenders[j].pc.Won?
      && w.contenders[i].pc.lease.token <= w.contenders[j].pc.lease.token
  {
    assert forall k :: 0 <= k < |start.contenders| ==> start.contenders[k].pc == Start;
    hide Run, StepOne, RaceStart, PathClear;
    var front := RivalWinsFirst(start, stale, ttl, latest, i, j);
    ThenStep(start, front, i, ttl);
    InstallsIt(Run(start, front, ttl), i, ttl);
    es := FinishRace(start, front + [Step(i)], ttl, latest);
  }

  lemma RivalWinsFirst(start: World, stale: nat, ttl: nat, latest: nat, i: nat, j: nat) returns (es: seq<Event>)
    requires RaceStart(start, stale, ttl) && i < |start.contenders| && j < |start.contenders| && stale < ROUNDS
    requires Renews(start, start.contenders[i])
    requires Eligible(start, start.contenders[j]) && PathClear(start, start.contenders[j], stale)
    ensures CollectsBy(es, latest) && i != j
    ensures
      var w := Run(start, es, ttl);
      && |w.contenders| == |start.contenders|
      && w.contenders[i].pc == Install(Renewal(start.contenders[i], start.lease, ttl))
      && w.contenders[j].pc == Won(LeaseOf(start.contenders[j], Deciding(start, stale), ttl))
      && (forall k :: 0 <= k < |w.contenders| && k != i && k != j ==> w.contenders[k] == start.contenders[k])
  {
    ReadsLive(start, stale, ttl, i);
    var one := Set(start, i, start.contenders[i].(pc := Install(Renewal(start.contenders[i], start.lease, ttl))));
    var two := Set(one, j, Walker(start, j, 0));
    assert Deciding(start, stale) !in start.claims && ClaimsUpTo(start, two, stale);
    hide Run, StepOne, RaceStart, PathClear, ClaimsUpTo;
    ReadsLease(start, stale, ttl, one, j);
    RunAppend(start, Steps(i, 2), Steps(j, 2), ttl);
    var second := WalksAndWins(start, stale, ttl, latest, two, j, stale);
    RunAppend(start, Steps(i, 2) + Steps(j, 2), second, ttl);
    StepsCollectNothing(i, 2, latest);
    StepsCollectNothing(j, 2, latest);
    es := Steps(i, 2) + Steps(j, 2) + second;
  }

  lemma InstallsIt(w: World, i: nat, ttl: nat)
    requires i < |w.contenders| && w.contenders[i].pc.Install?
    ensures
      var v := StepOne(w, i, ttl);
      && |v.contenders| == |w.contenders| && v.contenders[i].pc == Won(w.contenders[i].pc.lease)
      && forall j :: 0 <= j < |w.contenders| && j != i ==> v.contenders[j] == w.contenders[j]
  {
  }

  lemma ReadsLive(start: World, stale: nat, ttl: nat, i: nat)
    requires RaceStart(start, stale, ttl) && i < |start.contenders| && Renews(start, start.contenders[i])
    ensures Run(start, Steps(i, 2), ttl)
      == Set(start, i, start.contenders[i].(pc := Install(Renewal(start.contenders[i], start.lease, ttl))))
  {
    var mid := Set(start, i, start.contenders[i].(pc := ReadLease));
    assert StepOne(start, i, ttl) == mid;
    assert Steps(i, 2) == Steps(i, 1) + [Step(i)] && Steps(i, 1) == [] + [Step(i)] && Steps(i, 0) == [];
    hide RaceStart;
    ThenStep(start, [], i, ttl);
    ThenStep(start, [Step(i)], i, ttl);
  }

  // ---- Exactly when the promise holds ------------------------------------------

  /** Every finished run with collections up to this clock keeps the promise. */
  ghost predicate AlwaysOneWinner(start: World, stale: nat, ttl: nat, latest: nat) {
    forall es :: CollectsBy(es, latest) && AllFinished(Run(start, es, ttl)) ==> OneWinner(start, stale, Run(start, es, ttl), ttl)
  }

  /** Who sees the claims as expired and finds none of its own walks past all of them. */
  lemma {:induction false} WalksPast(start: World, stale: nat, i: nat, round: nat)
    requires i < |start.contenders| && Candidate(start, stale, start.contenders[i]) && !OwnClaim(start, stale) && round <= stale
    ensures PathClear(start, start.contenders[i], round)
  {
    if round > 0 {
      WalksPast(start, stale, i, round - 1);
      var c, t := start.contenders[i], start.lease.token + round;
      assert start.lease.token < t < Deciding(start, stale);
      assert !ReachesOwn(start, stale, c, round - 1);
      assert Passes(c, start.claims[t]);
    }
  }

  /**
   Exactly when a race has one winner in every run: nobody may take over; or nobody still renews, no
   runtime finds a claim of its own, fewer than four claims are on the way, none of them can be
   collected, nor can the winner's claim while somebody else may still reach it.
   */
  lemma OneWinnerIffClaimsStand(start: World, stale: nat, ttl: nat, latest: nat)
    requires RaceStart(start, stale, ttl)
    ensures AlwaysOneWinner(start, stale, ttl, latest) <==> Safe(start, stale, ttl, latest)
  {
    if Safe(start, stale, ttl, latest) {
      hide RaceStart, Run, Safe;
      forall es | CollectsBy(es, latest) && AllFinished(Run(start, es, ttl))
        ensures OneWinner(start, stale, Run(start, es, ttl), ttl)
      {
        TakeoverHasOneWinner(start, stale, ttl, latest, es);
      }
    } else {
      var es := BreaksPromise(start, stale, ttl, latest);
    }
  }

  /** A run that breaks the promise, when the condition fails. */
  lemma BreaksPromise(start: World, stale: nat, ttl: nat, latest: nat) returns (es: seq<Event>)
    requires RaceStart(start, stale, ttl) && !Safe(start, stale, ttl, latest)
    ensures CollectsBy(es, latest) && AllFinished(Run(start, es, ttl)) && !OneWinner(start, stale, Run(start, es, ttl), ttl)
  {
    var j :| 0 <= j < |start.contenders| && Candidate(start, stale, start.contenders[j]);
    hide RaceStart, Run, PathClear, SomeCandidate;
    if OwnClaim(start, stale) {
      var i, round: nat :| 0 <= i < |start.contenders| && ReachesOwn(start, stale, start.contenders[i], round);
      es := OwnClaimIsTaken(start, stale, ttl, latest, i, round);
      OldLeaseIsNotAlone(start, stale, Run(start, es, ttl), ttl, i);
    } else {
      WalksPast(start, stale, j, stale);
      if SomeRenews(start) {
        assert stale < ROUNDS by { NobodyRenewsAtFour(start, stale, ttl); }
        var i :| 0 <= i < |start.contenders| && Renews(start, start.contenders[i]);
        es := RenewalAllowsTwoWinners(start, stale, ttl, latest, i, j);
        TwoAreNotAlone(start, stale, Run(start, es, ttl), ttl, i, j);
      } else if stale == ROUNDS {
        es := FourClaimsStopEverybody(start, ttl, latest, j);
      } else {
        es := BreaksByCollection(start, stale, ttl, latest, j);
      }
    }
  }

  lemma NobodyRenewsAtFour(start: World, stale: nat, ttl: nat)
    requires RaceStart(start, stale, ttl) && SomeRenews(start)
    ensures stale < ROUNDS
  {
  }

  lemma OldLeaseIsNotAlone(start: World, stale: nat, w: World, ttl: nat, i: nat)
    requires SomeEligible(start) && i < |w.contenders| && w.contenders[i].pc.Won?
    requires w.contenders[i].pc.lease.expiresAt < w.contenders[i].now + ttl
    ensures !OneWinner(start, stale, w, ttl)
  {
  }

  lemma TwoAreNotAlone(start: World, stale: nat, w: World, ttl: nat, i: nat, j: nat)
    requires i < |w.contenders| && j < |w.contenders| && i != j && w.contenders[i].pc.Won? && w.contenders[j].pc.Won?
    ensures !OneWinner(start, stale, w, ttl)
  {
  }

  lemma BreaksByCollection(start: World, stale: nat, ttl: nat, latest: nat, j: nat) returns (es: seq<Event>)
    requires RaceStart(start, stale, ttl) && !OwnClaim(start, stale) && stale < ROUNDS
    requires j < |start.contenders| && Candidate(start, stale, start.contenders[j])
    requires StaleCollectable(start, stale, latest) || FreshCollectable(start, stale, ttl, latest)
    ensures CollectsBy(es, latest) && AllFinished(Run(start, es, ttl)) && !OneWinner(start, stale, Run(start, es, ttl), ttl)
  {
    hide RaceStart, Run, OwnClaim, PathClear;
    if StaleCollectable(start, stale, latest) {
      var t :| start.lease.token < t < Deciding(start, stale) && t in start.claims && Collectable(start.claims[t], latest);
      WalksPast(start, stale, j, t - 1 - start.lease.token);
      es := CollectionFailsARuntime(start, stale, ttl, latest, j, t);
    } else {
      var a, b :| 0 <= a < |start.contenders| && 0 <= b < |start.contenders| && a != b
        && Candidate(start, stale, start.contenders[a]) && Candidate(start, stale, start.contenders[b])
        && start.contenders[a].now + ttl + GC_GRACE_MS < latest;
      WalksPast(start, stale, a, stale);
      WalksPast(start, stale, b, stale);
      es := CollectionAllowsTwoWinners(start, stale, ttl, latest, a, b, Deciding(start, stale));
      TwoAreNotAlone(start, stale, Run(start, es, ttl), ttl, a, b);
    }
  }

  /** With four expired claims on the way the loop gives up, so nobody gets the lease. */
  lemma FourClaimsStopEverybody(start: World, ttl: nat, latest: nat, j: nat) returns (es: seq<Event>)
    requires RaceStart(start, 4, ttl) && !SomeRenews(start) && !OwnClaim(start, 4)
    requires j < |start.contenders| && Candidate(start, 4, start.contenders[j])
    ensures CollectsBy(es, latest) && AllFinished(Run(start, es, ttl)) && !OneWinner(start, 4, Run(start, es, ttl), ttl)
    ensures forall i :: 0 <= i < |Run(start, es, ttl).contenders| ==> Run(start, es, ttl).contenders[i].pc == Denied
  {
    assert Run(start, [], ttl) == start;
    assert forall k :: 0 <= k < |start.contenders| ==> start.contenders[k].pc == Start;
    es := FinishRace(start, [], ttl, 0);
    assert Calm(start, ROUNDS, ttl, 0) && Contest(start, ROUNDS, ttl);
    hide RaceStart, Run, Calm, OwnClaim;
    ContestEnds(start, ROUNDS, ttl, 0, es);
    assert Eligible(start, start.contenders[j]);
  }
  // ---- Such races exist ----------------------------------------------------------------

  function Fresh(id: nat, now: nat): Contender {
    Contender(id, now, None, Lease(0, 0, 0, 0), 0, Start)
  }

  /** Two runtimes, an expired lease with token 5, and one claim (token 6) that expired over an hour ago. */
  function OldClaimWorld(): World {
    World(true, Lease(9, 5, 0, 10), map[6 := Lease(8, 6, 0, 20)], [Fresh(1, 4_000_000), Fresh(2, 4_000_000)])
  }

  /** The race is safe for collections until that hour is over, and not after it. */
  lemma OldClaimsExist()
    ensures RaceStart(OldClaimWorld(), 1, 30_000)
    ensures Safe(OldClaimWorld(), 1, 30_000, 3_600_020) && !Safe(OldClaimWorld(), 1, 30_000, 3_600_021)
  {
    var w := OldClaimWorld();
    assert Candidate(w, 1, w.contenders[0]);
    assert 6 in w.claims && Collectable(w.claims[6], 3_600_021);
    forall i, round: nat | 0 <= i < 2
      ensures !ReachesOwn(w, 1, w.contenders[i], round)
    {
    }
  }

  /** Runtime 1 claims token 6 of an expired lease and stops before it installs it. */
  function StoppedBefore(): World {
    World(true, Lease(9, 5, 0, 10), map[], [Fresh(1, 20)])
  }

  function Later(w: World, contenders: seq<Contender>): World {
    World(w.present, w.lease, w.claims, contenders)
  }

  /** What such a runtime leaves behind is, two TTLs later, the start of a race with an own claim. */
  lemma OwnClaimsArise()
    ensures
      var left := Run(StoppedBefore(), [Step(0)] + [Step(0)] + [Step(0)] + [Stop(0)], 50);
      var start := Later(left, [Fresh(1, 120), Fresh(2, 120)]);
      RaceStart(start, 1, 50) && ReachesOwn(start, 1, start.contenders[0], 0)
  {
    var w := StoppedBefore();
    RunOne(w, Step(0), 50);
    ThenStep(w, [Step(0)], 0, 50);
    ThenStep(w, [Step(0)] + [Step(0)], 0, 50);
    var made := Run(w, [Step(0)] + [Step(0)] + [Step(0)], 50);
    RunAppend(w, [Step(0)] + [Step(0)] + [Step(0)], [Stop(0)], 50);
    RunOne(made, Stop(0), 50);
    assert made.claims == map[6 := Lease(1, 6, 20, 70)];
    var start := World(true, w.lease, made.claims, [Fresh(1, 120), Fresh(2, 120)]);
    assert Candidate(start, 1, start.contenders[0]);
  }

  /** The owner's clock is one millisecond short of the lease's end, the other runtime's is not. */
  lemma LateRenewalsExist()
    ensures
      var start := World(true, Lease(1, 5, 0, 100), map[], [Fresh(1, 99), Fresh(2, 100)]);
      RaceStart(start, 0, 50) && Renews(start, start.contenders[0]) && Eligible(start, start.contenders[1])
  {
    var start := World(true, Lease(1, 5, 0, 100), map[], [Fresh(1, 99), Fresh(2, 100)]);
    assert Candidate(start, 0, start.contenders[1]);
  }
}
