// Sessions and refresh tokens over every run of operations.
module SessionSafety {
  import opened Wrappers
  import opened Accounts

  // ---------------------------------------------------------------- the invariant

  ghost predicate Owned(db: Db) {
    forall h :: h in db.tokens ==>
      && db.tokens[h].user in db.users
      && (db.tokens[h].session.Some? ==>
            && db.tokens[h].session.value in db.sessions
            && db.sessions[db.tokens[h].session.value].user == db.tokens[h].user)
  }

  // A revoked session has no live token.
  ghost predicate Closed(db: Db) {
    forall h ::
      (h in db.tokens && db.tokens[h].session.Some? && db.tokens[h].session.value in db.sessions
       && db.sessions[db.tokens[h].session.value].revokedAt.Some?) ==> !Live(db.tokens[h])
  }

  ghost predicate OneLivePerSession(db: Db) {
    forall g, h ::
      (g in db.tokens && h in db.tokens && db.tokens[g].session.Some? && db.tokens[g].session == db.tokens[h].session
       && Live(db.tokens[g]) && Live(db.tokens[h])) ==> g == h
  }

  ghost predicate Inv(db: Db) {
    Owned(db) && Closed(db) && OneLivePerSession(db)
  }

  // ---------------------------------------------------------------- what never changes

  // Rows are never removed, owners never change, and a revocation time once set stays.
  predicate SameToken(a: RefreshToken, b: RefreshToken) {
    a == b || (Live(a) && b == a.(revokedAt := b.revokedAt))
  }

  ghost predicate Extends(a: Db, b: Db) {
    && (forall u :: u in a.users ==> u in b.users)
    && (forall s :: s in a.sessions ==>
          s in b.sessions && b.sessions[s].user == a.sessions[s].user
          && (a.sessions[s].revokedAt.Some? ==> b.sessions[s] == a.sessions[s]))
    && (forall h :: h in a.tokens ==> h in b.tokens && SameToken(a.tokens[h], b.tokens[h]))
  }

  ghost function LiveTokens(db: Db): set<string> {
    set h | h in db.tokens && Live(db.tokens[h])
  }

  ghost function OpenSessions(db: Db): set<nat> {
    set s | s in db.sessions && db.sessions[s].revokedAt.None?
  }

  // ---------------------------------------------------------------- the pieces of a step

  lemma RevokingKeeps(a: Db, b: Db)
    requires Inv(a) && Extends(a, b)
    requires b.tokens.Keys == a.tokens.Keys && b.sessions.Keys == a.sessions.Keys
    requires Closed(b)
    ensures Inv(b)
  {
    forall h | h in b.tokens ensures SameToken(a.tokens[h], b.tokens[h]) {}
  }

  // Revoking a family keeps the invariant and all history, and exactly its live tokens stop being live.
  lemma RevokeFamilyKeeps(db: Db, family: nat, now: int)
    requires Inv(db)
    ensures Inv(RevokeFamily(db, family, now)) && Extends(db, RevokeFamily(db, family, now))
    ensures LiveTokens(RevokeFamily(db, family, now))
         == (set h | h in LiveTokens(db) && db.tokens[h].family != family)
  {
    RevokingKeeps(db, RevokeFamily(db, family, now));
  }

  lemma RevokeOneSessionKeeps(db: Db, session: nat, user: string, now: int)
    requires Inv(db)
    ensures Inv(RevokeOneSession(db, session, user, now)) && Extends(db, RevokeOneSession(db, session, user, now))
  {
    RevokingKeeps(db, RevokeOneSession(db, session, user, now));
  }

  lemma RevokeOtherSessionsKeeps(db: Db, user: string, current: nat, now: int)
    requires Inv(db)
    ensures Inv(RevokeOtherSessions(db, user, current, now)) && Extends(db, RevokeOtherSessions(db, user, current, now))
  {
    RevokingKeeps(db, RevokeOtherSessions(db, user, current, now));
  }

  lemma RevokeUserKeeps(db: Db, user: string, now: int)
    requires Inv(db)
    ensures Inv(RevokeUser(db, user, now)) && Extends(db, RevokeUser(db, user, now))
  {
    RevokingKeeps(db, RevokeUser(db, user, now));
  }

  // So does revoking everything of a user; what stays live or open is exactly what others have.
  lemma RevokeUserExact(db: Db, user: string, now: int)
    requires Inv(db)
    ensures Inv(RevokeUser(db, user, now)) && Extends(db, RevokeUser(db, user, now))
    ensures LiveTokens(RevokeUser(db, user, now)) == (set h | h in LiveTokens(db) && db.tokens[h].user != user)
    ensures OpenSessions(RevokeUser(db, user, now))
         == (set s | s in OpenSessions(db) && db.sessions[s].user != user)
  {
    RevokeUserKeeps(db, user, now);
    RevokeUserLeaves(db, user, now);
  }

  lemma RevokeUserLeaves(db: Db, user: string, now: int)
    ensures LiveTokens(RevokeUser(db, user, now)) == (set h | h in LiveTokens(db) && db.tokens[h].user != user)
    ensures OpenSessions(RevokeUser(db, user, now))
         == (set s | s in OpenSessions(db) && db.sessions[s].user != user)
  {
  }

  // Issuing a token for a session needs that the session is open and has no other live token.
  ghost predicate Vacant(db: Db, user: string, session: Option<nat>) {
    session.Some? ==>
      && session.value in db.sessions && db.sessions[session.value].user == user
      && db.sessions[session.value].revokedAt.None?
      && forall h :: h in db.tokens && db.tokens[h].session == session ==> !Live(db.tokens[h])
  }

  lemma IssueKeeps(cfg: Settings, db: Db, user: string, session: Option<nat>, draw: Draw, now: int)
    requires Inv(db) && user in db.users && Vacant(db, user, session) && CanIssue(cfg, db, session, draw)
    ensures Inv(Issue(cfg, db, user, session, draw, now)) && Extends(db, Issue(cfg, db, user, session, draw, now))
  {
    var db' := Issue(cfg, db, user, session, draw, now);
    forall h | h in db.tokens ensures h in db'.tokens && db'.tokens[h] == db.tokens[h] {}
    forall h | h in db.tokens && db.tokens[h].session.Some?
      ensures db.tokens[h].session != db'.tokens[draw.token].session || !Live(db.tokens[h])
    {
      assert db.tokens[h].session.value in db.sessions;
    }
  }

  // After a live token's family is revoked, its session has room for the next one.
  lemma RotationVacates(db: Db, token: string, now: int)
    requires Inv(db) && token in db.tokens && Live(db.tokens[token])
    ensures Vacant(RevokeFamily(db, db.tokens[token].family, now), db.tokens[token].user, db.tokens[token].session)
  {
    var t := db.tokens[token];
    var db' := RevokeFamily(db, t.family, now);
    if t.session.Some? {
      assert db.sessions[t.session.value].revokedAt.None?;
      forall h | h in db'.tokens && db'.tokens[h].session == t.session
        ensures !Live(db'.tokens[h])
      {
        assert Live(db.tokens[h]) ==> h == token;
      }
    }
  }

  lemma UsersOnlyKeeps(a: Db, b: Db)
    requires Inv(a) && b.tokens == a.tokens && b.sessions == a.sessions && a.users.Keys <= b.users.Keys
    ensures Inv(b) && Extends(a, b)
  {
  }

  lemma ExtendsTransitive(a: Db, b: Db, c: Db)
    requires Extends(a, b) && Extends(b, c)
    ensures Extends(a, c)
  {
  }

  // ---------------------------------------------------------------- one step

  lemma LoginKeeps(cfg: Settings, db: Db, email: string, password: string, draw: Draw, now: int)
    requires Inv(db)
    ensures Inv(LoginStep(cfg, db, email, password, draw, now).0)
        && Extends(db, LoginStep(cfg, db, email, password, draw, now).0)
  {
    var (after, outcome) := LoginStep(cfg, db, email, password, draw, now);
    if email in db.users {
      var db' := db.(users := db.users[email := AfterSuccess(cfg, db.users[email])]);
      UsersOnlyKeeps(db, db');
      UsersOnlyKeeps(db, db.(users := db.users[email := AfterFailure(cfg, db.users[email], now)]));
      if outcome.LoggedIn? {
        IssueKeeps(cfg, db', email, None, draw, now);
        ExtendsTransitive(db, db', after);
      }
    }
  }

  lemma RefreshKeeps(cfg: Settings, db: Db, token: string, draw: Draw, now: int)
    requires Inv(db)
    ensures Inv(RefreshStep(cfg, db, token, draw, now).0) && Extends(db, RefreshStep(cfg, db, token, draw, now).0)
  {
    var (after, outcome) := RefreshStep(cfg, db, token, draw, now);
    if token in db.tokens {
      var t := db.tokens[token];
      var db' := RevokeFamily(db, t.family, now);
      RevokeFamilyKeeps(db, t.family, now);
      if outcome.Redeemed? {
        RotationVacates(db, token, now);
        IssueKeeps(cfg, db', t.user, t.session, draw, now);
        ExtendsTransitive(db, db', after);
      }
    }
  }

  lemma LogoutKeeps(cfg: Settings, db: Db, token: string, now: int)
    requires Inv(db)
    ensures Inv(LogoutStep(cfg, db, token, now).0) && Extends(db, LogoutStep(cfg, db, token, now).0)
  {
    if token in db.tokens {
      var t := db.tokens[token];
      var db' := RevokeFamily(db, t.family, now);
      RevokeFamilyKeeps(db, t.family, now);
      if cfg.sessionManagement && t.session.Some? {
        RevokeOneSessionKeeps(db', t.session.value, t.user, now);
        ExtendsTransitive(db, db', RevokeOneSession(db', t.session.value, t.user, now));
      }
    }
  }

  lemma ResetKeeps(cfg: Settings, db: Db, email: string, codeHash: string, row: nat, passwordHash: string, now: int)
    requires Inv(db)
    ensures
      var after := Step(cfg, db, ResetPassword(email, codeHash, row, passwordHash), now).0;
      Inv(after) && Extends(db, after)
  {
    if cfg.passwordReset && Accepts(db, email, PasswordReset, codeHash, row, now) {
      var db' := Consume(db, email, PasswordReset, codeHash, row, now);
      var db'' := db'.(users := db.users[email := db.users[email].(passwordHash := Some(passwordHash))]);
      UsersOnlyKeeps(db, db'');
      RevokeUserKeeps(db'', email, now);
      ExtendsTransitive(db, db'', RevokeUser(db'', email, now));
    }
  }

  lemma StepKeeps(cfg: Settings, db: Db, op: Operation, now: int)
    requires Inv(db)
    ensures Inv(Step(cfg, db, op, now).0) && Extends(db, Step(cfg, db, op, now).0)
  {
    match op
    case Login(email, password, draw) => LoginKeeps(cfg, db, email, password, draw, now);
    case Refresh(token, draw) => RefreshKeeps(cfg, db, token, draw, now);
    case Logout(token) => LogoutKeeps(cfg, db, token, now);
    case RevokeSession(user, session) => RevokeOneSessionKeeps(db, session, user, now);
    case RevokeOthers(user, current) =>
      if current.Some? { RevokeOtherSessionsKeeps(db, user, current.value, now); }
    case ResetPassword(email, codeHash, row, passwordHash) =>
      ResetKeeps(cfg, db, email, codeHash, row, passwordHash, now);
    case _ => UserOpsKeep(cfg, db, op, now);
  }

  predicate TouchesTokens(op: Operation) {
    op.Login? || op.Refresh? || op.Logout? || op.RevokeSession? || op.RevokeOthers? || op.ResetPassword?
  }

  lemma UserOpsKeep(cfg: Settings, db: Db, op: Operation, now: int)
    requires Inv(db) && !TouchesTokens(op)
    ensures Inv(Step(cfg, db, op, now).0) && Extends(db, Step(cfg, db, op, now).0)
  {
    UsersOnlyKeeps(db, Step(cfg, db, op, now).0);
  }

  // ---------------------------------------------------------------- runs

  lemma {:induction false} RunSafe(calls: seq<Call>)
    ensures Inv(Run(calls).db)
  {
    if calls != [] {
      var n := |calls| - 1;
      RunSafe(calls[..n]);
      StepKeeps(calls[n].cfg, Run(calls[..n]).db, calls[n].op, calls[n].now);
    }
  }

  // A run is its prefix and the rest: earlier log entries are never rewritten.
  lemma {:induction false} RunPrefix(calls: seq<Call>, k: nat)
    requires k <= |calls|
    ensures Run(calls[..k]).log == Run(calls).log[..k]
  {
    if k == |calls| {
      assert calls[..k] == calls;
    } else {
      RunPrefix(calls[..|calls| - 1], k);
      assert calls[..|calls| - 1][..k] == calls[..k];
    }
  }

  // Call k is one step from the tables before it to the tables after it.
  lemma StepAt(calls: seq<Call>, k: nat)
    requires k < |calls|
    ensures Step(calls[k].cfg, DbAt(calls, k), calls[k].op, calls[k].now) == (DbAt(calls, k + 1), OutcomeAt(calls, k))
    ensures Inv(DbAt(calls, k)) && Inv(DbAt(calls, k + 1))
  {
    RunSafe(calls[..k]);
    RunSafe(calls[..k + 1]);
    assert calls[..k + 1][..k] == calls[..k];
    RunPrefix(calls, k + 1);
    assert Run(calls[..k + 1]).log[k] == Run(calls).log[k];
  }

  // Between any two points of any run, rows stay, owners stay and revocation times stay.
  lemma {:induction false} RunExtends(calls: seq<Call>, j: nat, k: nat)
    requires j <= k <= |calls|
    ensures Extends(DbAt(calls, j), DbAt(calls, k))
    decreases k
  {
    if j < k {
      RunExtends(calls, j, k - 1);
      StepExtends(calls, k - 1);
      ExtendsTransitive(DbAt(calls, j), DbAt(calls, k - 1), DbAt(calls, k));
    }
  }

  lemma StepExtends(calls: seq<Call>, k: nat)
    requires k < |calls|
    ensures Extends(DbAt(calls, k), DbAt(calls, k + 1))
  {
    StepAt(calls, k);
    StepKeeps(calls[k].cfg, DbAt(calls, k), calls[k].op, calls[k].now);
  }

  // ---------------------------------------------------------------- session revocation is final

  ghost predicate SessionRevoked(db: Db, session: nat) {
    session in db.sessions && db.sessions[session].revokedAt.Some?
  }

  // Once a session is revoked, no token of it is redeemed by any later call, whenever it was issued.
  lemma RevokedSessionStaysClosed(calls: seq<Call>, k: nat, session: nat, later: nat, h: string, draw: Draw)
    requires k <= later < |calls|
    requires SessionRevoked(DbAt(calls, k), session)
    requires calls[later].op == Refresh(h, draw)
    requires h in DbAt(calls, later).tokens && DbAt(calls, later).tokens[h].session == Some(session)
    ensures OutcomeAt(calls, later) == Refused(RefreshTokenReplay)
  {
    RunExtends(calls, k, later);
    StepAt(calls, later);
    assert !Live(DbAt(calls, later).tokens[h]);
  }

  lemma LogoutRevokesSession(cfg: Settings, db: Db, token: string, now: int)
    requires Inv(db) && cfg.sessionManagement && token in db.tokens && db.tokens[token].session.Some?
    ensures SessionRevoked(LogoutStep(cfg, db, token, now).0, db.tokens[token].session.value)
  {
    assert db.tokens[token].session.value in db.sessions;
  }

  // Logging out with any token ever issued in a session, even a rotated one, ends the session: no
  // token of it can be redeemed by any later call.
  lemma LogoutIsFinal(calls: seq<Call>, k: nat, token: string, session: nat, later: nat, h: string, draw: Draw)
    requires k < later < |calls|
    requires calls[k].op == Logout(token) && calls[k].cfg.sessionManagement
    requires token in DbAt(calls, k).tokens && DbAt(calls, k).tokens[token].session == Some(session)
    requires calls[later].op == Refresh(h, draw)
    requires h in DbAt(calls, later).tokens && DbAt(calls, later).tokens[h].session == Some(session)
    ensures OutcomeAt(calls, later) == Refused(RefreshTokenReplay)
  {
    StepAt(calls, k);
    LogoutRevokesSession(calls[k].cfg, DbAt(calls, k), token, calls[k].now);
    RevokedSessionStaysClosed(calls, k + 1, session, later, h, draw);
  }

  // Revoking a session ends it, and revoking the others ends every other session of the user.
  lemma RevocationIsFinal(calls: seq<Call>, k: nat, user: string, session: nat, current: nat, later: nat, h: string,
                          draw: Draw)
    requires k < later < |calls|
    requires OutcomeAt(calls, k) == SessionsRevoked
    requires session in DbAt(calls, k).sessions && DbAt(calls, k).sessions[session].user == user
    requires calls[k].op == RevokeSession(user, session)
        || (calls[k].op == RevokeOthers(user, Some(current)) && session != current)
    requires calls[later].op == Refresh(h, draw)
    requires h in DbAt(calls, later).tokens && DbAt(calls, later).tokens[h].session == Some(session)
    ensures OutcomeAt(calls, later) == Refused(RefreshTokenReplay)
  {
    StepAt(calls, k);
    var db := DbAt(calls, k);
    assert db.sessions[session].revokedAt.None? && session != current ==> session in Others(db, user, current);
    assert SessionRevoked(DbAt(calls, k + 1), session);
    RevokedSessionStaysClosed(calls, k + 1, session, later, h, draw);
  }

  // ---------------------------------------------------------------- rotation

  lemma OtherSources(cfg: Settings, db: Db, op: Operation, now: int)
    requires !op.Login? && !op.Refresh?
    ensures Step(cfg, db, op, now).0.tokens.Keys == db.tokens.Keys
    ensures !Step(cfg, db, op, now).1.Redeemed? && !Step(cfg, db, op, now).1.LoggedIn?
  {
  }

  lemma LoginSources(cfg: Settings, db: Db, email: string, password: string, draw: Draw, now: int, h: string)
    requires h in LoginStep(cfg, db, email, password, draw, now).0.tokens
    ensures
      var (after, outcome) := LoginStep(cfg, db, email, password, draw, now);
      && !outcome.Redeemed?
      && (if h in db.tokens then outcome.LoggedIn? ==> outcome.token != h
          else outcome == LoggedIn(after.tokens[h].user, h))
  {
  }

  lemma RefreshSources(cfg: Settings, db: Db, token: string, draw: Draw, now: int, h: string)
    requires var after := RefreshStep(cfg, db, token, draw, now).0; h in after.tokens && Live(after.tokens[h])
    ensures
      var (after, outcome) := RefreshStep(cfg, db, token, draw, now);
      if h in db.tokens then outcome.Redeemed? ==> outcome.old_ != h && outcome.token != h
      else
        && outcome == Redeemed(token, h) && token in db.tokens && Live(db.tokens[token])
        && db.tokens[token].user == after.tokens[h].user
  {
  }

  // Where a live token of the new state comes from.
  lemma TokenSources(cfg: Settings, db: Db, op: Operation, now: int, h: string)
    requires Inv(db)
    requires var after := Step(cfg, db, op, now).0; h in after.tokens && Live(after.tokens[h])
    ensures
      var (after, outcome) := Step(cfg, db, op, now);
      if h in db.tokens then
        && Live(db.tokens[h]) && after.tokens[h] == db.tokens[h]
        && (outcome.Redeemed? ==> outcome.old_ != h && outcome.token != h)
        && (outcome.LoggedIn? ==> outcome.token != h)
      else if outcome.Redeemed? then
        && outcome.token == h && outcome.old_ in db.tokens && Live(db.tokens[outcome.old_])
        && db.tokens[outcome.old_].user == after.tokens[h].user
      else outcome == LoggedIn(after.tokens[h].user, h)
  {
    StepKeeps(cfg, db, op, now);
    match op
    case Login(email, password, draw) => LoginSources(cfg, db, email, password, draw, now, h);
    case Refresh(token, draw) => RefreshSources(cfg, db, token, draw, now, h);
    case _ => OtherSources(cfg, db, op, now);
  }

  lemma RedeemedIsDead(cfg: Settings, db: Db, op: Operation, now: int)
    requires Step(cfg, db, op, now).1.Redeemed?
    ensures
      var (after, outcome) := Step(cfg, db, op, now);
      && op.Refresh? && op.token == outcome.old_ && Redeemable(db, outcome.old_, now) && outcome.token !in db.tokens
      && outcome.old_ in after.tokens && !Live(after.tokens[outcome.old_])
  {
  }

  // A refresh gets through exactly for a live, unexpired token of an active user, and the token is
  // dead afterwards whether it did or not. The next token takes its place: it belongs to the same user
  // and to an open session of that user, and it is the only live token there.
  lemma RefreshExact(cfg: Settings, db: Db, token: string, draw: Draw, now: int)
    requires Inv(db)
    ensures
      var (after, outcome) := RefreshStep(cfg, db, token, draw, now);
      && ((outcome.Redeemed? || outcome.Conflict?) <==> Redeemable(db, token, now))
      && token !in LiveTokens(after)
      && (outcome.Redeemed? ==> Succeeds(db, after, token, outcome.token))
      && (outcome.Redeemed? && cfg.sessionManagement ==> after.tokens[outcome.token].session.Some?)
  {
    if RefreshStep(cfg, db, token, draw, now).1.Redeemed? {
      RefreshSucceeds(cfg, db, token, draw, now);
    }
  }

  lemma RefreshSucceeds(cfg: Settings, db: Db, token: string, draw: Draw, now: int)
    requires Inv(db) && RefreshStep(cfg, db, token, draw, now).1.Redeemed?
    ensures
      var (after, outcome) := RefreshStep(cfg, db, token, draw, now);
      Succeeds(db, after, token, outcome.token) && (cfg.sessionManagement ==> after.tokens[outcome.token].session.Some?)
  {
    RefreshKeeps(cfg, db, token, draw, now);
    var (after, outcome) := RefreshStep(cfg, db, token, draw, now);
    if after.tokens[outcome.token].session.Some? {
      assert !(after.sessions[after.tokens[outcome.token].session.value].revokedAt.Some?);
    }
  }

  ghost predicate Succeeds(before: Db, after: Db, old_: string, next: string) {
    && old_ in before.tokens && next in LiveTokens(after) && next !in before.tokens
    && after.tokens[next].user == before.tokens[old_].user
    && (before.tokens[old_].session.Some? ==> after.tokens[next].session == before.tokens[old_].session)
    && (after.tokens[next].session.Some? ==>
          && after.tokens[next].session.value in OpenSessions(after)
          && after.sessions[after.tokens[next].session.value].user == after.tokens[next].user
          && forall h :: h in LiveTokens(after) && after.tokens[h].session == after.tokens[next].session ==> h == next)
  }

  ghost predicate Issues(outcome: Outcome, h: string) {
    (outcome.LoggedIn? && outcome.token == h) || (outcome.Redeemed? && outcome.token == h)
  }

  ghost predicate Redeems(outcome: Outcome, h: string) {
    outcome.Redeemed? && outcome.old_ == h
  }

  lemma IssuedIsNew(cfg: Settings, db: Db, op: Operation, now: int, h: string)
    requires Issues(Step(cfg, db, op, now).1, h)
    ensures h !in db.tokens && h in Step(cfg, db, op, now).0.tokens
  {
  }

  lemma IssuedExpiry(cfg: Settings, db: Db, op: Operation, now: int, h: string)
    requires Issues(Step(cfg, db, op, now).1, h)
    ensures h in Step(cfg, db, op, now).0.tokens
        && Step(cfg, db, op, now).0.tokens[h].expiresAt == now + cfg.tokenLifetime
  {
  }

  // A token is only ever redeemed within its lifetime, counted from the call that issued it.
  lemma RedeemedInTime(calls: seq<Call>, i: nat, j: nat, h: string)
    requires i < j < |calls|
    requires Issues(OutcomeAt(calls, i), h)
    requires OutcomeAt(calls, j).Redeemed? && OutcomeAt(calls, j).old_ == h
    ensures calls[j].now < calls[i].now + calls[i].cfg.tokenLifetime
  {
    StepAt(calls, i);
    IssuedExpiry(calls[i].cfg, DbAt(calls, i), calls[i].op, calls[i].now, h);
    RunExtends(calls, i + 1, j);
    assert DbAt(calls, j).tokens[h].expiresAt == calls[i].now + calls[i].cfg.tokenLifetime;
    StepAt(calls, j);
    RedeemedIsDead(calls[j].cfg, DbAt(calls, j), calls[j].op, calls[j].now);
  }

  // Every refresh token is redeemed at most once, and no token is issued twice.
  lemma RedeemedOnce(calls: seq<Call>, i: nat, j: nat, h: string)
    requires i < j < |calls|
    ensures Redeems(OutcomeAt(calls, i), h) ==> !Redeems(OutcomeAt(calls, j), h)
    ensures Issues(OutcomeAt(calls, i), h) ==> !Issues(OutcomeAt(calls, j), h)
  {
    StepAt(calls, i);
    StepAt(calls, j);
    RunExtends(calls, i + 1, j);
    if Redeems(OutcomeAt(calls, i), h) && Redeems(OutcomeAt(calls, j), h) {
      RedeemedIsDead(calls[i].cfg, DbAt(calls, i), calls[i].op, calls[i].now);
      RedeemedIsDead(calls[j].cfg, DbAt(calls, j), calls[j].op, calls[j].now);
      assert false;
    }
    if Issues(OutcomeAt(calls, i), h) && Issues(OutcomeAt(calls, j), h) {
      IssuedIsNew(calls[i].cfg, DbAt(calls, i), calls[i].op, calls[i].now, h);
      IssuedIsNew(calls[j].cfg, DbAt(calls, j), calls[j].op, calls[j].now, h);
      assert false;
    }
  }

  function Logins(log: seq<Entry>): nat {
    if log == [] then 0
    else Logins(log[..|log| - 1]) + (if log[|log| - 1].outcome.LoggedIn? then 1 else 0)
  }

  lemma StepLiveCount(cfg: Settings, db: Db, op: Operation, now: int)
    requires Inv(db)
    ensures
      var (after, outcome) := Step(cfg, db, op, now);
      |LiveTokens(after)| <= |LiveTokens(db)| + (if outcome.LoggedIn? then 1 else 0)
  {
    var (after, outcome) := Step(cfg, db, op, now);
    forall h | h in LiveTokens(after) ensures h in LiveTokens(db) || Issues(outcome, h) {
      TokenSources(cfg, db, op, now, h);
    }
    if outcome.Redeemed? {
      RedeemedIsDead(cfg, db, op, now);
      var rest := LiveTokens(db) - {outcome.old_};
      assert LiveTokens(after) <= rest + {outcome.token};
      Smaller(LiveTokens(after), rest + {outcome.token});
      assert |rest| == |LiveTokens(db)| - 1;
    } else if outcome.LoggedIn? {
      Smaller(LiveTokens(after), LiveTokens(db) + {outcome.token});
    } else {
      Smaller(LiveTokens(after), LiveTokens(db));
    }
  }

  lemma {:induction false} Smaller<T>(a: set<T>, b: set<T>)
    requires a <= b
    ensures |a| <= |b|
  {
    if a != {} {
      var x :| x in a;
      Smaller(a - {x}, b - {x});
    }
  }

  // Rotation never multiplies tokens: there are never more live tokens than there were logins, and
  // never two in one session.
  lemma {:induction false} LiveTokensBounded(calls: seq<Call>)
    ensures |LiveTokens(Run(calls).db)| <= Logins(Run(calls).log)
    ensures OneLivePerSession(Run(calls).db)
  {
    RunSafe(calls);
    if calls != [] {
      var n := |calls| - 1;
      LiveTokensBounded(calls[..n]);
      RunSafe(calls[..n]);
      StepLiveCount(calls[n].cfg, Run(calls[..n]).db, calls[n].op, calls[n].now);
      var outcome := Step(calls[n].cfg, Run(calls[..n]).db, calls[n].op, calls[n].now).1;
      assert Run(calls).log[..n] == Run(calls[..n]).log;
    }
  }

  // ---------------------------------------------------------------- the password reset cut

  // The login a token descends from, followed back through the refreshes of the log.
  function Origin(log: seq<Entry>, h: string): Option<nat> {
    if log == [] then None
    else
      var n := |log| - 1;
      match log[n].outcome
      case LoggedIn(_, t) => if t == h then Some(n) else Origin(log[..n], h)
      case Redeemed(o, t) => if t == h then Origin(log[..n], o) else Origin(log[..n], h)
      case _ => Origin(log[..n], h)
  }

  ghost predicate DescendsFrom(log: seq<Entry>, h: string, user: string, after: nat) {
    var i := Origin(log, h);
    i.Some? && after < i.value < |log| && log[i.value].outcome.LoggedIn? && log[i.value].outcome.user == user
  }

  lemma OriginSnoc(log: seq<Entry>, e: Entry, g: string, h: string, user: string, after: nat)
    requires DescendsFrom(log, g, user, after)
    requires match e.outcome
             case LoggedIn(_, t) => t != g && h == g
             case Redeemed(o, t) => if t == h then o == g else h == g
             case _ => h == g
    ensures DescendsFrom(log + [e], h, user, after)
  {
    assert (log + [e])[..|log|] == log;
  }

  // After a successful reset every live token of the user descends, through refreshes, from a login
  // that happened after the reset.
  lemma {:induction false} ResetCut(calls: seq<Call>, k: nat, user: string, h: string)
    requires k < |calls| && OutcomeAt(calls, k) == CodeUsed(user, PasswordReset)
    requires h in Run(calls).db.tokens && Live(Run(calls).db.tokens[h]) && Run(calls).db.tokens[h].user == user
    ensures DescendsFrom(Run(calls).log, h, user, k)
  {
    var n := |calls| - 1;
    var before := Run(calls[..n]);
    var e := Run(calls).log[n];
    RunSafe(calls[..n]);
    if k == n {
      ResetLeavesNoLive(calls[n].cfg, before.db, calls[n].op, calls[n].now, user, h);
    } else {
      assert Run(calls).log == before.log + [e];
      assert OutcomeAt(calls[..n], k) == OutcomeAt(calls, k);
      TokenSources(calls[n].cfg, before.db, calls[n].op, calls[n].now, h);
      if h in before.db.tokens {
        ResetCut(calls[..n], k, user, h);
        OriginSnoc(before.log, e, h, h, user, k);
      } else if e.outcome.Redeemed? {
        ResetCut(calls[..n], k, user, e.outcome.old_);
        OriginSnoc(before.log, e, e.outcome.old_, h, user, k);
      } else {
        assert Origin(Run(calls).log, h) == Some(n);
      }
    }
  }

  lemma ResetLeavesNoLive(cfg: Settings, db: Db, op: Operation, now: int, user: string, h: string)
    requires Inv(db) && Step(cfg, db, op, now).1 == CodeUsed(user, PasswordReset)
    requires h in Step(cfg, db, op, now).0.tokens && Step(cfg, db, op, now).0.tokens[h].user == user
    ensures !Live(Step(cfg, db, op, now).0.tokens[h])
  {
  }
}
