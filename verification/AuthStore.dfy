/**
 Sessions and refresh tokens: issue, rotate, and the three logout scopes, each one transaction
 over two tables (rust-core/src/auth_store.rs).
 */
module AuthTables {
  import opened Wrappers

  datatype Session = Session(user: string, createdAt: int, expiresAt: int, revokedAt: Option<int>)

  datatype Token = Token(
    user: string, session: string, parent: Option<string>,
    createdAt: int, expiresAt: int, revokedAt: Option<int>)

  datatype Tables = Tables(users: set<string>, sessions: map<string, Session>, tokens: map<string, Token>)

  datatype AuthError = Constraint | UserAlreadyRegistered | InvalidRefreshToken | SessionRequired

  datatype Scope = Global | Local | Others

  // ---- Queries --------------------------------------------------------------

  predicate SessionLive(s: Session, now: int) {
    s.revokedAt.None? && s.expiresAt > now
  }

  /** The join of token, user and session that a lookup and a rotation both make. */
  predicate Active(t: Tables, token: string, now: int) {
    && token in t.tokens
    && var k := t.tokens[token];
    && k.user in t.users && k.session in t.sessions
    && k.revokedAt.None? && k.expiresAt > now && SessionLive(t.sessions[k.session], now)
  }

  /** What a logout of `user` with the given scope and current session is meant to reach. */
  predicate Reaches(scope: Scope, user: string, current: string, owner: string, session: string) {
    owner == user && (scope.Global? || (scope.Local? && session == current) || (scope.Others? && session != current))
  }

  // ---- Writes: the answer and the tables after it ------------------------------

  function CreateUser(t: Tables, id: string): (Result<string, AuthError>, Tables) {
    if id in t.users then (Failure(UserAlreadyRegistered), t)
    else (Success(id), t.(users := t.users + {id}))
  }

  function Issue(t: Tables, token: string, user: string, session: string, now: int, expires: int)
    : (Result<string, AuthError>, Tables)
  {
    if user !in t.users || token in t.tokens then (Failure(Constraint), t)
    else
      var row := if session in t.sessions then t.sessions[session].(expiresAt := expires)
                 else Session(user, now, expires, None);
      (Success(token),
       t.(sessions := t.sessions[session := row],
          tokens := t.tokens[token := Token(user, session, None, now, expires, None)]))
  }

  function Rotate(t: Tables, old_: string, new_: string, now: int, expires: int): (Result<string, AuthError>, Tables) {
    if !Active(t, old_, now) then (Failure(InvalidRefreshToken), t)
    else if new_ in t.tokens then (Failure(Constraint), t)
    else
      var k := t.tokens[old_];
      (Success(k.session),
       t.(sessions := t.sessions[k.session := t.sessions[k.session].(expiresAt := expires)],
          tokens := t.tokens[old_ := k.(revokedAt := Some(now))]
                            [new_ := Token(k.user, k.session, Some(old_), now, expires, None)]))
  }

  /** The sessions an update with this scope finds unrevoked. */
  function Hit(t: Tables, scope: Scope, user: string, current: string): set<string> {
    set s | s in t.sessions && Reaches(scope, user, current, t.sessions[s].user, s) && t.sessions[s].revokedAt.None?
  }

  function RevokeSessionRows(t: Tables, scope: Scope, user: string, current: string, at: int): map<string, Session> {
    map s | s in t.sessions ::
      if Reaches(scope, user, current, t.sessions[s].user, s) && t.sessions[s].revokedAt.None?
      then t.sessions[s].(revokedAt := Some(at)) else t.sessions[s]
  }

  function RevokeTokenRows(t: Tables, scope: Scope, user: string, current: string, at: int): map<string, Token> {
    map k | k in t.tokens ::
      if Reaches(scope, user, current, t.tokens[k].user, t.tokens[k].session) && t.tokens[k].revokedAt.None?
      then t.tokens[k].(revokedAt := Some(at)) else t.tokens[k]
  }

  function Revoke(t: Tables, user: string, current: Option<string>, scope: Scope, at: int)
    : (Result<nat, AuthError>, Tables)
  {
    if !scope.Global? && current.None? then (Failure(SessionRequired), t)
    else
      var session := if current.Some? then current.value else "";
      (Success(|Hit(t, scope, user, session)|),
       t.(sessions := RevokeSessionRows(t, scope, user, session, at),
          tokens := RevokeTokenRows(t, scope, user, session, at)))
  }

  // ---- Operations and runs --------------------------------------------------------

  datatype AuthOp =
    | NewUser(id: string)
    | IssueToken(token: string, user: string, session: string, now: int, expires: int)
    | RotateToken(old_: string, new_: string, now: int, expires: int)
    | RevokeSessions(user: string, current: Option<string>, scope: Scope, now: int)

  function Apply(t: Tables, op: AuthOp): Tables {
    match op
    case NewUser(id) => CreateUser(t, id).1
    case IssueToken(token, user, session, now, expires) => Issue(t, token, user, session, now, expires).1
    case RotateToken(o, n, now, expires) => Rotate(t, o, n, now, expires).1
    case RevokeSessions(user, current, scope, now) => Revoke(t, user, current, scope, now).1
  }

  /** The flag the write loop gets: whether this job has to be made durable. */
  predicate Committed(t: Tables, op: AuthOp) {
    match op
    case NewUser(id) => CreateUser(t, id).0.Success?
    case IssueToken(token, user, session, now, expires) => Issue(t, token, user, session, now, expires).0.Success?
    case RotateToken(o, n, now, expires) => Rotate(t, o, n, now, expires).0.Success?
    case RevokeSessions(user, current, scope, now) =>
      var r := Revoke(t, user, current, scope, now).0;
      r.Success? && r.value > 0
  }

  function Run(t: Tables, ops: seq<AuthOp>): Tables {
    if |ops| == 0 then t else Apply(Run(t, ops[..|ops| - 1]), ops[|ops| - 1])
  }

  /** New sessions get an id that no session has yet. */
  predicate FreshSession(t: Tables, op: AuthOp) {
    op.IssueToken? ==> op.session !in t.sessions
  }

  predicate FreshSessions(t: Tables, ops: seq<AuthOp>) {
    forall i :: 0 <= i < |ops| ==> FreshSession(Run(t, ops[..i]), ops[i])
  }

  const EMPTY := Tables({}, map[], map[])

  /** No session has two tokens that could be used. */
  predicate OneToken(t: Tables) {
    forall a, b :: a in t.tokens && b in t.tokens && BothUsable(t.tokens[a], t.tokens[b]) ==> a == b
  }

  predicate BothUsable(a: Token, b: Token) {
    a.session == b.session && a.revokedAt.None? && b.revokedAt.None?
  }

  // ---- The invariant ------------------------------------------------------------------

  /** Entry `i` of a session's chain: its owner, its parent, and whether it may still be used. */
  predicate Link(t: Tables, s: string, chain: seq<string>, i: nat)
    requires s in t.sessions && i < |chain|
  {
    && chain[i] in t.tokens
    && var k := t.tokens[chain[i]];
    && k.session == s && k.user == t.sessions[s].user
    && k.parent == (if i == 0 then None else Some(chain[i - 1]))
    && (i < |chain| - 1 ==> k.revokedAt.Some?)
    && (i == |chain| - 1 ==>
          && (k.revokedAt.None? <==> t.sessions[s].revokedAt.None?)
          && (k.revokedAt.None? ==> k.expiresAt == t.sessions[s].expiresAt))
  }

  predicate Distinct(chain: seq<string>) {
    forall i, j :: 0 <= i < j < |chain| ==> chain[i] != chain[j]
  }

  /**
   `chain` lists the tokens of session `s` in the order they were issued: each is the child of the
   one before, all but the last are revoked, and the last one shares the session's fate.
   */
  predicate ChainOf(t: Tables, s: string, chain: seq<string>)
    requires s in t.sessions
  {
    && |chain| > 0 && Distinct(chain)
    && t.sessions[s].user in t.users
    && (forall k :: k in t.tokens && t.tokens[k].session == s ==> k in chain)
    && (forall i :: 0 <= i < |chain| ==> Link(t, s, chain, i))
  }

  ghost predicate Inv(t: Tables) {
    && (forall k :: k in t.tokens ==> t.tokens[k].session in t.sessions)
    && (forall s :: s in t.sessions ==> exists chain :: ChainOf(t, s, chain))
  }

  lemma LocateIn(t: Tables, s: string, chain: seq<string>, token: string) returns (i: nat)
    requires s in t.sessions && ChainOf(t, s, chain) && token in t.tokens && t.tokens[token].session == s
    ensures i < |chain| && chain[i] == token && Link(t, s, chain, i)
    ensures i > 0 ==> Link(t, s, chain, i - 1)
    ensures t.sessions[s].user in t.users
  {
    assert token in chain;
    i :| 0 <= i < |chain| && chain[i] == token;
  }

  lemma Locate(t: Tables, token: string) returns (chain: seq<string>, i: nat)
    requires Inv(t) && token in t.tokens
    ensures
      var s := t.tokens[token].session;
      && s in t.sessions && ChainOf(t, s, chain) && t.sessions[s].user in t.users
      && i < |chain| && chain[i] == token && Link(t, s, chain, i)
  {
    chain :| ChainOf(t, t.tokens[token].session, chain);
    i := LocateIn(t, t.tokens[token].session, chain, token);
  }

  lemma ChainKept(t: Tables, u: Tables, s: string, chain: seq<string>)
    requires s in t.sessions && ChainOf(t, s, chain)
    requires s in u.sessions && u.sessions[s] == t.sessions[s] && t.users <= u.users
    requires forall k :: k in t.tokens && t.tokens[k].session == s ==> k in u.tokens && u.tokens[k] == t.tokens[k]
    requires forall k :: k in u.tokens && u.tokens[k].session == s ==> k in t.tokens && u.tokens[k] == t.tokens[k]
    ensures ChainOf(u, s, chain)
  {
    forall i | 0 <= i < |chain|
      ensures Link(u, s, chain, i)
    {
      assert Link(t, s, chain, i);
    }
  }

  /** An operation that leaves a session and its tokens alone keeps its chain. */
  lemma SessionKept(t: Tables, u: Tables, s: string)
    requires Inv(t) && s in t.sessions
    requires s in u.sessions && u.sessions[s] == t.sessions[s] && t.users <= u.users
    requires forall k :: k in t.tokens && t.tokens[k].session == s ==> k in u.tokens && u.tokens[k] == t.tokens[k]
    requires forall k :: k in u.tokens && u.tokens[k].session == s ==> k in t.tokens && u.tokens[k] == t.tokens[k]
    ensures exists chain :: ChainOf(u, s, chain)
  {
    hide ChainOf;
    var chain :| ChainOf(t, s, chain);
    ChainKept(t, u, s, chain);
  }

  lemma NewUserKeepsInv(t: Tables, id: string)
    requires Inv(t)
    ensures Inv(CreateUser(t, id).1)
  {
    hide ChainOf;
    var u := CreateUser(t, id).1;
    forall s | s in u.sessions
      ensures exists chain :: ChainOf(u, s, chain)
    {
      SessionKept(t, u, s);
    }
  }

  lemma FirstLink(t: Tables, s: string, token: string)
    requires s in t.sessions && t.sessions[s].user in t.users && token in t.tokens
    requires forall k :: k in t.tokens && t.tokens[k].session == s ==> k == token
    requires t.tokens[token].session == s && t.tokens[token].user == t.sessions[s].user
    requires t.tokens[token].parent.None? && t.tokens[token].expiresAt == t.sessions[s].expiresAt
    requires t.tokens[token].revokedAt.None? && t.sessions[s].revokedAt.None?
    ensures ChainOf(t, s, [token])
  {
    assert Link(t, s, [token], 0);
  }

  lemma IssueFresh(t: Tables, token: string, user: string, session: string, now: int, expires: int)
    requires Inv(t) && Issue(t, token, user, session, now, expires).0.Success? && session !in t.sessions
    ensures Inv(Issue(t, token, user, session, now, expires).1)
  {
    hide ChainOf;
    var u := Issue(t, token, user, session, now, expires).1;
    FirstLink(u, session, token);
    forall s | s in u.sessions
      ensures exists chain :: ChainOf(u, s, chain)
    {
      if s != session {
        SessionKept(t, u, s);
      }
    }
  }

  lemma IssueReused(t: Tables, token: string, user: string, session: string, now: int, expires: int)
    requires Inv(t) && Issue(t, token, user, session, now, expires).0.Success? && session in t.sessions
    ensures !Inv(Issue(t, token, user, session, now, expires).1)
  {
    hide ChainOf;
    var u := Issue(t, token, user, session, now, expires).1;
    if Inv(u) {
      var chain :| ChainOf(t, session, chain);
      var first := ChainStart(t, session, chain);
      assert u.tokens[first] == t.tokens[first];
      ChainFacts(u, first, token);
    }
  }

  lemma ChainStart(t: Tables, s: string, chain: seq<string>) returns (first: string)
    requires s in t.sessions && ChainOf(t, s, chain)
    ensures first in t.tokens && t.tokens[first].session == s && t.tokens[first].parent.None?
  {
    first := chain[0];
    assert Link(t, s, chain, 0);
  }

  /** Issuing keeps the invariant exactly when the session id is new. */
  lemma IssueKeepsInv(t: Tables, token: string, user: string, session: string, now: int, expires: int)
    requires Inv(t)
    ensures
      var r := Issue(t, token, user, session, now, expires);
      Inv(r.1) <==> r.0.Failure? || session !in t.sessions
  {
    hide Inv;
    if Issue(t, token, user, session, now, expires).0.Success? {
      if session !in t.sessions {
        IssueFresh(t, token, user, session, now, expires);
      } else {
        IssueReused(t, token, user, session, now, expires);
      }
    }
  }

  /** Issuing on a session that exists keeps that rule exactly when the session has no unrevoked token. */
  lemma IssueKeepsOneToken(t: Tables, token: string, user: string, session: string, now: int, expires: int)
    requires Inv(t)
    ensures OneToken(t)
    ensures
      var r := Issue(t, token, user, session, now, expires);
      OneToken(r.1) <==>
        r.0.Failure? || forall k :: k in t.tokens && t.tokens[k].session == session ==> t.tokens[k].revokedAt.Some?
  {
    hide Inv;
    forall a, b | a in t.tokens && b in t.tokens && BothUsable(t.tokens[a], t.tokens[b])
      ensures a == b
    {
      ChainFacts(t, a, b);
    }
    var r := Issue(t, token, user, session, now, expires);
    if r.0.Success? && OneToken(r.1) {
      forall k | k in t.tokens && t.tokens[k].session == session
        ensures t.tokens[k].revokedAt.Some?
      {
        assert k in r.1.tokens && r.1.tokens[k] == t.tokens[k] && token in r.1.tokens && k != token;
      }
    }
  }

  lemma RotateKeepsInv(t: Tables, old_: string, new_: string, now: int, expires: int)
    requires Inv(t)
    ensures Inv(Rotate(t, old_, new_, now, expires).1)
  {
    hide ChainOf;
    var r := Rotate(t, old_, new_, now, expires);
    var u := r.1;
    if r.0.Success? {
      var session := r.0.value;
      var chain, i := Locate(t, old_);
      RotateExtends(t, old_, new_, now, expires, chain);
      forall s | s in u.sessions
        ensures exists c :: ChainOf(u, s, c)
      {
        if s != session {
          SessionKept(t, u, s);
        } else {
          assert ChainOf(u, s, chain + [new_]);
        }
      }
    }
  }

  lemma RotateExtends(t: Tables, old_: string, new_: string, now: int, expires: int, chain: seq<string>)
    requires Rotate(t, old_, new_, now, expires).0.Success?
    requires ChainOf(t, t.tokens[old_].session, chain) && old_ == chain[|chain| - 1]
    ensures ChainOf(Rotate(t, old_, new_, now, expires).1, t.tokens[old_].session, chain + [new_])
  {
    var u, s := Rotate(t, old_, new_, now, expires).1, t.tokens[old_].session;
    var longer := chain + [new_];
    assert Link(t, s, chain, |chain| - 1);
    forall i | 0 <= i < |longer|
      ensures Link(u, s, longer, i)
      ensures i < |chain| ==> longer[i] != new_
    {
      if i < |chain| {
        assert Link(t, s, chain, i);
        if i < |chain| - 1 {
          assert chain[i] != chain[|chain| - 1];
        }
      }
    }
    forall k | k in u.tokens && u.tokens[k].session == s
      ensures k in longer
    {
      if k != new_ {
        assert k in t.tokens && t.tokens[k].session == s;
        assert k in chain;
      }
    }
  }

  lemma RevokeKeepsInv(t: Tables, user: string, current: Option<string>, scope: Scope, at: int)
    requires Inv(t)
    ensures Inv(Revoke(t, user, current, scope, at).1)
  {
    hide ChainOf, Reaches;
    var u := Revoke(t, user, current, scope, at).1;
    if u != t {
      var session := if current.Some? then current.value else "";
      forall s | s in u.sessions
        ensures exists chain :: ChainOf(u, s, chain)
      {
        var chain :| ChainOf(t, s, chain);
        RevokeChain(t, user, session, scope, at, s, chain);
        assert ChainOf(t.(sessions := RevokeSessionRows(t, scope, user, session, at),
                          tokens := RevokeTokenRows(t, scope, user, session, at)), s, chain);
      }
    }
  }

  lemma RevokeChain(t: Tables, user: string, session: string, scope: Scope, at: int, s: string, chain: seq<string>)
    requires s in t.sessions && ChainOf(t, s, chain)
    ensures
      var u := t.(sessions := RevokeSessionRows(t, scope, user, session, at),
                  tokens := RevokeTokenRows(t, scope, user, session, at));
      s in u.sessions && ChainOf(u, s, chain)
  {
    hide Reaches;
    var u := t.(sessions := RevokeSessionRows(t, scope, user, session, at),
                tokens := RevokeTokenRows(t, scope, user, session, at));
    forall i | 0 <= i < |chain|
      ensures Link(u, s, chain, i)
    {
      assert Link(t, s, chain, i);
    }
  }

  lemma StepKeepsInv(t: Tables, op: AuthOp)
    requires Inv(t) && FreshSession(t, op)
    ensures Inv(Apply(t, op))
  {
    hide Inv, CreateUser, Issue, Rotate, Revoke;
    match op
    case NewUser(id) => NewUserKeepsInv(t, id);
    case IssueToken(token, user, session, now, expires) => IssueKeepsInv(t, token, user, session, now, expires);
    case RotateToken(o, n, now, expires) => RotateKeepsInv(t, o, n, now, expires);
    case RevokeSessions(user, current, scope, now) => RevokeKeepsInv(t, user, current, scope, now);
  }

  lemma {:induction false} RunKeepsInv(t: Tables, ops: seq<AuthOp>)
    requires Inv(t) && FreshSessions(t, ops)
    ensures Inv(Run(t, ops))
  {
    hide Inv, Apply, FreshSession;
    if |ops| > 0 {
      var front := ops[..|ops| - 1];
      forall i | 0 <= i < |front|
        ensures FreshSession(Run(t, front[..i]), front[i])
      {
        assert front[..i] == ops[..i];
      }
      RunKeepsInv(t, front);
      StepKeepsInv(Run(t, front), ops[|ops| - 1]);
    }
  }

  // ---- What the invariant gives -----------------------------------------------------------

  /** One unrevoked token a session, expiring with it; one child a token; no way back up. */
  lemma ChainFacts(t: Tables, a: string, b: string)
    requires Inv(t) && a in t.tokens && b in t.tokens
    ensures t.tokens[a].session in t.sessions
    ensures t.tokens[a].revokedAt.None? ==> t.tokens[a].expiresAt == t.sessions[t.tokens[a].session].expiresAt
    ensures BothUsable(t.tokens[a], t.tokens[b]) ==> a == b
    ensures t.tokens[a].session == t.tokens[b].session && t.tokens[a].parent == t.tokens[b].parent ==> a == b
    ensures t.tokens[a].parent.Some? && t.tokens[a].parent == t.tokens[b].parent ==> a == b
    ensures t.tokens[a].parent == Some(b) ==>
              t.tokens[b].session == t.tokens[a].session && t.tokens[b].user == t.tokens[a].user
              && t.tokens[b].revokedAt.Some?
  {
    hide ChainOf;
    var chain, i := Locate(t, a);
    if t.tokens[b].session == t.tokens[a].session {
      var j := LocateIn(t, t.tokens[a].session, chain, b);
      DistinctIn(t, t.tokens[a].session, chain);
    }
    if t.tokens[a].parent.Some? {
      ParentInSession(t, a);
    }
    if t.tokens[b].parent.Some? {
      ParentInSession(t, b);
    }
  }

  lemma DistinctIn(t: Tables, s: string, chain: seq<string>)
    requires s in t.sessions && ChainOf(t, s, chain)
    ensures Distinct(chain)
  {
  }

  lemma ParentInSession(t: Tables, a: string)
    requires Inv(t) && a in t.tokens && t.tokens[a].parent.Some?
    ensures
      var p := t.tokens[a].parent.value;
      && p in t.tokens && t.tokens[p].session == t.tokens[a].session
      && t.tokens[p].user == t.tokens[a].user && t.tokens[p].revokedAt.Some?
  {
    hide ChainOf;
    var chain, i := Locate(t, a);
    var j := LocateIn(t, t.tokens[a].session, chain, a);
    DistinctIn(t, t.tokens[a].session, chain);
  }

  /** `n` steps from a token towards the first of its session. */
  function Ancestor(t: Tables, token: string, n: nat): Option<string> {
    if n == 0 then Some(token)
    else
      match Ancestor(t, token, n - 1)
      case None => None
      case Some(a) => if a in t.tokens then t.tokens[a].parent else None
  }

  /** Following parents never comes back to where it started. */
  lemma ParentsAreAcyclic(t: Tables, token: string, n: nat)
    requires Inv(t) && token in t.tokens && n > 0
    ensures Ancestor(t, token, n) != Some(token)
  {
    var chain, i := Locate(t, token);
    AncestorAt(t, t.tokens[token].session, chain, i, n);
  }

  lemma {:induction false} AncestorAt(t: Tables, s: string, chain: seq<string>, i: nat, n: nat)
    requires s in t.sessions && ChainOf(t, s, chain) && i < |chain|
    ensures Ancestor(t, chain[i], n) == if n <= i then Some(chain[i - n]) else None
  {
    if n > 0 {
      AncestorAt(t, s, chain, i, n - 1);
      if n - 1 <= i {
        assert Link(t, s, chain, i - (n - 1));
      }
    }
  }

  // ---- Inactive for good -------------------------------------------------------------------

  /** Why a token is inactive; none of the three reasons ever goes away. */
  predicate Spent(t: Tables, token: string, now: int) {
    && token in t.tokens && t.tokens[token].session in t.sessions
    && (|| t.tokens[token].revokedAt.Some?
        || t.tokens[token].expiresAt <= now
        || t.sessions[t.tokens[token].session].revokedAt.Some?)
  }

  lemma InactiveIsSpent(t: Tables, token: string, now: int)
    requires Inv(t) && token in t.tokens
    ensures !Active(t, token, now) <==> Spent(t, token, now)
  {
    hide ChainOf;
    ChainFacts(t, token, token);
    var chain, i := Locate(t, token);
  }

  lemma SpentStays(t: Tables, op: AuthOp, token: string, now: int, later: int)
    requires Spent(t, token, now) && now <= later
    ensures Spent(Apply(t, op), token, later)
  {
    hide Reaches;
  }

  /** Under a clock that does not go back, a token that is inactive once is never active again. */
  lemma {:induction false} InactiveForever(t: Tables, ops: seq<AuthOp>, token: string, now: int, later: int)
    requires Inv(t) && FreshSessions(t, ops) && token in t.tokens && !Active(t, token, now) && now <= later
    ensures token in Run(t, ops).tokens && !Active(Run(t, ops), token, later)
  {
    hide Inv, Apply, FreshSession, Active;
    InactiveIsSpent(t, token, now);
    SpentForever(t, ops, token, now, later);
    RunKeepsInv(t, ops);
    InactiveIsSpent(Run(t, ops), token, later);
  }

  lemma {:induction false} SpentForever(t: Tables, ops: seq<AuthOp>, token: string, now: int, later: int)
    requires Spent(t, token, now) && now <= later
    ensures Spent(Run(t, ops), token, later)
  {
    hide Apply;
    if |ops| > 0 {
      SpentForever(t, ops[..|ops| - 1], token, now, later);
      SpentStays(Run(t, ops[..|ops| - 1]), ops[|ops| - 1], token, later, later);
    }
  }

  // ---- Rotation and logout ---------------------------------------------------------------------

  /**
   Issuing works for a user that exists and a token that does not. It then opens the new token until it
   expires, unless its session was revoked, and moves the end of the session and no other token.
   */
  lemma IssueOpensToken(t: Tables, token: string, user: string, session: string, now: int, expires: int, at: int)
    ensures
      var (r, u) := Issue(t, token, user, session, now, expires);
      && (r.Success? <==> user in t.users && token !in t.tokens)
      && (r.Failure? ==> r.error == Constraint && u == t)
      && (r.Success? ==>
            && r.value == token && token in u.tokens
            && u.tokens[token].user == user && u.tokens[token].session == session && u.tokens[token].parent == None
            && (Active(u, token, at) <==>
                  at < expires && !(session in t.sessions && t.sessions[session].revokedAt.Some?))
            && (forall k :: k in t.tokens && t.tokens[k].session != session ==>
                  (Active(u, k, at) <==> Active(t, k, at))))
  {
  }

  /** A token is good for nothing once it has expired, was revoked, or its session has or was. */
  lemma ActiveInPlain(t: Tables, token: string, now: int)
    ensures Active(t, token, now) ==>
              && token in t.tokens && t.tokens[token].user in t.users && t.tokens[token].session in t.sessions
              && now < t.tokens[token].expiresAt && now < t.sessions[t.tokens[token].session].expiresAt
              && t.tokens[token].revokedAt == None && t.sessions[t.tokens[token].session].revokedAt == None
  {
  }

  /** A rotation works for an active token and a new text, keeps session and user, and names its parent. */
  lemma RotateInPlain(t: Tables, old_: string, new_: string, now: int, expires: int)
    ensures
      var (r, u) := Rotate(t, old_, new_, now, expires);
      && (r.Success? <==> Active(t, old_, now) && new_ !in t.tokens)
      && (r.Failure? ==> u == t && r.error == if Active(t, old_, now) then Constraint else InvalidRefreshToken)
      && (r.Success? ==>
            && r.value == t.tokens[old_].session
            && new_ in u.tokens && u.tokens[new_].user == t.tokens[old_].user
            && u.tokens[new_].session == t.tokens[old_].session && u.tokens[new_].parent == Some(old_)
            && u.tokens[new_].expiresAt == expires == u.sessions[r.value].expiresAt
            && old_ in u.tokens && u.tokens[old_].revokedAt == Some(now))
  {
  }

  /** A rotation spends the old token, opens exactly the new one, and leaves all others alone. */
  lemma RotateMovesActivity(t: Tables, old_: string, new_: string, now: int, expires: int, token: string, at: int)
    requires Inv(t) && Rotate(t, old_, new_, now, expires).0.Success? && now <= at < expires
    ensures
      var u := Rotate(t, old_, new_, now, expires).1;
      Active(u, token, at) <==> token == new_ || (token != old_ && Active(t, token, at))
  {
    hide ChainOf;
    if token in t.tokens {
      ChainFacts(t, token, old_);
      ChainFacts(t, old_, old_);
    }
  }

  /** A logout takes away exactly the active tokens its scope reaches. */
  lemma RevokeRemovesScope(t: Tables, user: string, current: Option<string>, scope: Scope, at: int, token: string, now: int)
    requires Inv(t) && Revoke(t, user, current, scope, at).0.Success?
    ensures
      var u := Revoke(t, user, current, scope, at).1;
      var session := if current.Some? then current.value else "";
      Active(u, token, now) <==>
        Active(t, token, now) && !Reaches(scope, user, session, t.tokens[token].user, t.tokens[token].session)
  {
    hide ChainOf, Reaches;
    if token in t.tokens {
      var chain, i := Locate(t, token);
    }
  }

  /** No row of another user changes. */
  lemma RevokeSparesOthers(t: Tables, user: string, current: Option<string>, scope: Scope, at: int)
    ensures
      var u := Revoke(t, user, current, scope, at).1;
      && u.users == t.users && u.sessions.Keys == t.sessions.Keys && u.tokens.Keys == t.tokens.Keys
      && (forall s :: s in t.sessions && t.sessions[s].user != user ==> u.sessions[s] == t.sessions[s])
      && (forall k :: k in t.tokens && t.tokens[k].user != user ==> u.tokens[k] == t.tokens[k])
  {
  }

  /** The count is zero exactly when neither table changed. */
  lemma ZeroMeansUnchanged(t: Tables, user: string, current: Option<string>, scope: Scope, at: int)
    requires Inv(t) && Revoke(t, user, current, scope, at).0.Success?
    ensures Revoke(t, user, current, scope, at).0.value == 0 <==> Revoke(t, user, current, scope, at).1 == t
  {
    hide Reaches, ChainOf;
    var session := if current.Some? then current.value else "";
    var hit := Hit(t, scope, user, session);
    var u := Revoke(t, user, current, scope, at).1;
    if hit == {} {
      forall s | s in t.sessions
        ensures u.sessions[s] == t.sessions[s]
      {
        assert s !in hit;
      }
      forall k | k in t.tokens
        ensures u.tokens[k] == t.tokens[k]
      {
        var chain, i := Locate(t, k);
        assert t.tokens[k].session !in hit;
      }
      assert u.sessions == t.sessions && u.tokens == t.tokens;
    } else {
      var s :| s in hit;
      assert u.sessions[s] != t.sessions[s];
    }
  }

  /** The write loop may skip the flush of a job exactly when it left the tables as they were. */
  lemma FlagIsHonest(t: Tables, op: AuthOp)
    requires Inv(t)
    ensures Committed(t, op) <==> Apply(t, op) != t
  {
    match op
    case NewUser(id) =>
      assert id in CreateUser(t, id).1.users;
    case IssueToken(token, user, session, now, expires) =>
      if Committed(t, op) {
        assert token in Apply(t, op).tokens;
      }
    case RotateToken(o, n, now, expires) =>
      if Committed(t, op) {
        assert n in Apply(t, op).tokens;
      }
    case RevokeSessions(user, current, scope, now) =>
      if Revoke(t, user, current, scope, now).0.Success? {
        ZeroMeansUnchanged(t, user, current, scope, now);
      }
  }
}

/** The store itself: every method one transaction, rolled back when a statement fails. */
module AuthStoreRuntime {
  import opened Wrappers
  import opened AuthTables

  /** The update of a scope's sessions, row by row. */
  lemma SessionRows(t: Tables, scope: Scope, user: string, current: string, at: int,
                    hit: set<string>, sessions: map<string, Session>)
    requires forall s ::
      s in hit <==>
      s in t.sessions && Reaches(scope, user, current, t.sessions[s].user, s) && t.sessions[s].revokedAt.None?
    requires sessions.Keys == t.sessions.Keys
    requires forall s :: s in sessions ==>
      sessions[s] == if s in hit then t.sessions[s].(revokedAt := Some(at)) else t.sessions[s]
    ensures hit == Hit(t, scope, user, current)
    ensures sessions == RevokeSessionRows(t, scope, user, current, at)
  {
  }

  /** The update of a scope's tokens, row by row. */
  lemma TokenRows(t: Tables, scope: Scope, user: string, current: string, at: int, tokens: map<string, Token>)
    requires tokens.Keys == t.tokens.Keys
    requires forall k :: k in tokens ==>
      tokens[k] == if Reaches(scope, user, current, t.tokens[k].user, t.tokens[k].session) && t.tokens[k].revokedAt.None?
                   then t.tokens[k].(revokedAt := Some(at)) else t.tokens[k]
    ensures tokens == RevokeTokenRows(t, scope, user, current, at)
  {
  }

  class AuthStore {
    var users: set<string>
    var sessions: map<string, Session>
    var tokens: map<string, Token>

    constructor ()
      ensures Contents() == EMPTY && Inv(Contents())
    {
      users, sessions, tokens := {}, map[], map[];
    }

    function Contents(): Tables
      reads this
    {
      Tables(users, sessions, tokens)
    }

    method GetActiveRefreshToken(token: string, now: int) returns (r: Result<(string, string), AuthError>)
      ensures r.Success? <==> Active(Contents(), token, now)
      ensures r.Success? ==> r.value == (tokens[token].session, tokens[token].user)
      ensures r.Failure? ==> r.error == InvalidRefreshToken
    {
      if token !in tokens {
        return Failure(InvalidRefreshToken);
      }
      var row := tokens[token];
      if row.user !in users || row.session !in sessions {
        return Failure(InvalidRefreshToken);
      }
      var session := sessions[row.session];
      if row.revokedAt.None? && row.expiresAt > now && session.revokedAt.None? && session.expiresAt > now {
        r := Success((row.session, row.user));
      } else {
        r := Failure(InvalidRefreshToken);
      }
    }

    method CreateUserRow(id: string) returns (r: Result<string, AuthError>)
      modifies this
      ensures (r, Contents()) == CreateUser(old(Contents()), id)
    {
      if id in users {
        return Failure(UserAlreadyRegistered);
      }
      users := users + {id};
      r := Success(id);
    }

    method IssueRefreshToken(token: string, user: string, session: string, createdAt: int, expiresAt: int)
      returns (r: Result<string, AuthError>)
      modifies this
      ensures (r, Contents()) == Issue(old(Contents()), token, user, session, createdAt, expiresAt)
      ensures old(Inv(Contents())) && session !in old(sessions) ==> Inv(Contents())
    {
      ghost var before := Contents();
      var inSessions, inTokens := sessions, tokens;
      if session in inSessions {
        inSessions := inSessions[session := inSessions[session].(expiresAt := expiresAt)];
      } else {
        if user !in users {
          return Failure(Constraint);
        }
        inSessions := inSessions[session := Session(user, createdAt, expiresAt, None)];
      }
      if token in inTokens || user !in users {
        return Failure(Constraint);
      }
      inTokens := inTokens[token := Token(user, session, None, createdAt, expiresAt, None)];
      sessions, tokens := inSessions, inTokens;
      r := Success(token);
      if Inv(before) {
        IssueKeepsInv(before, token, user, session, createdAt, expiresAt);
      }
    }

    method RotateRefreshToken(oldToken: string, newToken: string, createdAt: int, expiresAt: int)
      returns (r: Result<string, AuthError>)
      modifies this
      ensures (r, Contents()) == Rotate(old(Contents()), oldToken, newToken, createdAt, expiresAt)
      ensures old(Inv(Contents())) ==> Inv(Contents())
    {
      ghost var before := Contents();
      if Inv(before) {
        RotateKeepsInv(before, oldToken, newToken, createdAt, expiresAt);
      }
      var existing := GetActiveRefreshToken(oldToken, createdAt);
      if existing.Failure? {
        return Failure(InvalidRefreshToken);
      }
      var (session, user) := existing.value;
      var inSessions, inTokens := sessions, tokens;
      inTokens := inTokens[oldToken := inTokens[oldToken].(revokedAt := Some(createdAt))];
      inSessions := inSessions[session := inSessions[session].(expiresAt := expiresAt)];
      if newToken in inTokens {
        return Failure(Constraint);
      }
      inTokens := inTokens[newToken := Token(user, session, Some(oldToken), createdAt, expiresAt, None)];
      sessions, tokens := inSessions, inTokens;
      r := Success(session);
    }

    /** The two updates of one scope: sessions by owner and id, tokens by owner and session. */
    method RevokeRows(user: string, scope: Scope, session: string, revokedAt: int) returns (changed: nat)
      modifies this
      ensures
        var before := old(Contents());
        && changed == |Hit(before, scope, user, session)|
        && Contents() == before.(sessions := RevokeSessionRows(before, scope, user, session, revokedAt),
                                 tokens := RevokeTokenRows(before, scope, user, session, revokedAt))
    {
      hide Hit, RevokeSessionRows, RevokeTokenRows;
      changed := UpdateSessions(user, scope, session, revokedAt);
      UpdateTokens(user, scope, session, revokedAt);
    }

    method UpdateSessions(user: string, scope: Scope, session: string, revokedAt: int) returns (changed: nat)
      modifies this`sessions
      ensures
        var before := old(Contents());
        && changed == |Hit(before, scope, user, session)|
        && sessions == RevokeSessionRows(before, scope, user, session, revokedAt)
    {
      ghost var before := Contents();
      var hit: set<string>;
      match scope {
        case Global =>
          hit := set s | s in sessions && sessions[s].user == user && sessions[s].revokedAt.None?;
        case Local =>
          hit := set s | s in sessions && sessions[s].user == user && s == session && sessions[s].revokedAt.None?;
        case Others =>
          hit := set s | s in sessions && sessions[s].user == user && s != session && sessions[s].revokedAt.None?;
      }
      sessions := map s | s in sessions :: if s in hit then sessions[s].(revokedAt := Some(revokedAt)) else sessions[s];
      SessionRows(before, scope, user, session, revokedAt, hit, sessions);
      changed := |hit|;
    }

    method UpdateTokens(user: string, scope: Scope, session: string, revokedAt: int)
      modifies this`tokens
      ensures
        forall t: Tables :: t.tokens == old(tokens) ==> tokens == RevokeTokenRows(t, scope, user, session, revokedAt)
    {
      ghost var before := Contents();
      match scope {
        case Global =>
          tokens := map k | k in tokens ::
            if tokens[k].user == user && tokens[k].revokedAt.None?
            then tokens[k].(revokedAt := Some(revokedAt)) else tokens[k];
        case Local =>
          tokens := map k | k in tokens ::
            if tokens[k].user == user && tokens[k].session == session && tokens[k].revokedAt.None?
            then tokens[k].(revokedAt := Some(revokedAt)) else tokens[k];
        case Others =>
          tokens := map k | k in tokens ::
            if tokens[k].user == user && tokens[k].session != session && tokens[k].revokedAt.None?
            then tokens[k].(revokedAt := Some(revokedAt)) else tokens[k];
      }
      TokenRows(before, scope, user, session, revokedAt, tokens);
    }

    method RevokeUserSessions(user: string, current: Option<string>, scope: Scope, revokedAt: int)
      returns (r: Result<nat, AuthError>)
      modifies this
      ensures (r, Contents()) == Revoke(old(Contents()), user, current, scope, revokedAt)
      ensures old(Inv(Contents())) ==> Inv(Contents())
      ensures old(Inv(Contents())) && r.Success? && r.value == 0 ==> Contents() == old(Contents())
    {
      hide Inv, Hit, RevokeSessionRows, RevokeTokenRows;
      ghost var before := Contents();
      if Inv(before) {
        RevokeKeepsInv(before, user, current, scope, revokedAt);
        if Revoke(before, user, current, scope, revokedAt).0.Success? {
          ZeroMeansUnchanged(before, user, current, scope, revokedAt);
        }
      }
      match scope {
        case Global =>
          var changed := RevokeRows(user, Global, if current.Some? then current.value else "", revokedAt);
          r := Success(changed);
        case Local =>
          if current.None? {
            return Failure(SessionRequired);
          }
          var changed := RevokeRows(user, Local, current.value, revokedAt);
          r := Success(changed);
        case Others =>
          if current.None? {
            return Failure(SessionRequired);
          }
          var changed := RevokeRows(user, Others, current.value, revokedAt);
          r := Success(changed);
      }
    }
  }
}
