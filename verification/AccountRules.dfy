// What each operation reports and what it leaves in the rows it touches, stated on the rows alone.
module AccountRules {
  import opened Wrappers
  import opened Accounts
  import opened SessionSafety

  // ---------------------------------------------------------------- login

  ghost predicate Locked(cfg: Settings, db: Db, email: string, now: int) {
    email in db.users && cfg.lockout && db.users[email].lockedUntil.Some? && db.users[email].lockedUntil.value > now
  }

  // A password hash that the check accepts, and a status that may log in.
  ghost predicate Admitted(cfg: Settings, user: User, password: string) {
    && user.passwordHash.Some? && cfg.verifyPassword(password, user.passwordHash.value)
    && (user.status == Active || (user.status == PendingVerification && cfg.emailVerification))
  }

  ghost predicate StillUnverified(cfg: Settings, user: User) {
    cfg.emailVerification && user.emailVerifiedAt.None?
  }

  // The outcome of a login, case by case: a user gets through exactly when known, not locked, admitted
  // with that password, and verified if verification is on.
  lemma LoginExact(cfg: Settings, db: Db, email: string, password: string, draw: Draw, now: int)
    ensures
      var outcome := LoginStep(cfg, db, email, password, draw, now).1;
      var known := email in db.users;
      var locked := Locked(cfg, db, email, now);
      var through := known && !locked && Admitted(cfg, db.users[email], password)
                     && !StillUnverified(cfg, db.users[email]);
      && (outcome == Refused(UnknownCredentials) <==> !known)
      && (outcome == Refused(AccountLocked) <==> locked)
      && (outcome == InvalidCredentials(email) <==> known && !locked && !Admitted(cfg, db.users[email], password))
      && (outcome == Refused(EmailVerificationRequired)
          <==> known && !locked && Admitted(cfg, db.users[email], password) && StillUnverified(cfg, db.users[email]))
      && (outcome == LoggedIn(email, draw.token) || outcome == Conflict(email, true) <==> through)
      && (outcome == Conflict(email, true)
          <==> through && (draw.token in db.tokens || (cfg.sessionManagement && draw.session in db.sessions)))
  {
  }

  // What a login writes to the user: a failure counts one up and locks from the maximum on, a success
  // clears both, and without lockout nothing is written; no other user is touched.
  lemma LoginWritesUser(cfg: Settings, db: Db, email: string, password: string, draw: Draw, now: int)
    ensures
      var (after, outcome) := LoginStep(cfg, db, email, password, draw, now);
      && after.users.Keys == db.users.Keys && after.codes == db.codes
      && (forall u :: u in db.users && u != email ==> after.users[u] == db.users[u])
      && (email in db.users ==>
            var was, row := db.users[email], after.users[email];
            && row.passwordHash == was.passwordHash && row.status == was.status
            && row.emailVerifiedAt == was.emailVerifiedAt
            && (if !cfg.lockout || outcome.Refused? then row == was
                else if outcome.InvalidCredentials? then
                  && row.failedLoginAttempts == was.failedLoginAttempts + 1
                  && row.lockedUntil == (if row.failedLoginAttempts < cfg.maxAttempts then was.lockedUntil
                                        else Some(now + cfg.lockoutTime))
                else row.failedLoginAttempts == 0 && row.lockedUntil == None))
  {
  }

  // What a login issues: one live token of the drawn values, in a session of its own exactly when
  // sessions are managed; otherwise, and when it does not get through, no token or session changes.
  lemma LoginIssues(cfg: Settings, db: Db, email: string, password: string, draw: Draw, now: int)
    ensures
      var (after, outcome) := LoginStep(cfg, db, email, password, draw, now);
      if outcome.LoggedIn? then
        && IssuedOne(db, after, draw.token)
        && var t := after.tokens[draw.token];
        && t.user == email && t.family == draw.family && t.expiresAt == now + cfg.tokenLifetime && Live(t)
        && (if cfg.sessionManagement then t.session == Some(draw.session) && OpenedOne(db, after, draw.session, email)
            else t.session == None && after.sessions == db.sessions)
      else after.tokens == db.tokens && after.sessions == db.sessions
  {
  }

  ghost predicate IssuedOne(before: Db, after: Db, token: string) {
    && token !in before.tokens && after.tokens.Keys == before.tokens.Keys + {token}
    && forall h :: h in before.tokens ==> after.tokens[h] == before.tokens[h]
  }

  ghost predicate OpenedOne(before: Db, after: Db, session: nat, user: string) {
    && session !in before.sessions && after.sessions.Keys == before.sessions.Keys + {session}
    && (forall s :: s in before.sessions ==> after.sessions[s] == before.sessions[s])
    && after.sessions[session].user == user && after.sessions[session].revokedAt.None?
  }

  // ---------------------------------------------------------------- refresh and logout

  // The outcome of a refresh, case by case.
  lemma RefreshReports(cfg: Settings, db: Db, token: string, draw: Draw, now: int)
    ensures
      var outcome := RefreshStep(cfg, db, token, draw, now).1;
      var known := token in db.tokens;
      var usable := known && db.tokens[token].revokedAt.None? && now < db.tokens[token].expiresAt
                    && db.tokens[token].user in db.users && db.users[db.tokens[token].user].status == Active;
      && (outcome == Refused(RefreshTokenReplay) <==> known && db.tokens[token].revokedAt.Some?)
      && (outcome == Refused(InvalidRefreshToken) <==> !usable && !(known && db.tokens[token].revokedAt.Some?))
      && (outcome.Redeemed? || outcome.Conflict? <==> usable)
      && (outcome.Redeemed? ==> outcome == Redeemed(token, draw.token))
      && (usable ==>
            (outcome.Conflict?
             <==> draw.token in db.tokens
                  || (cfg.sessionManagement && db.tokens[token].session.None? && draw.session in db.sessions)))
  {
  }

  // What a refresh writes: the live tokens of the presented one's family die, and one new token takes
  // its user and session, opening a session only if sessions are managed and it had none.
  lemma RefreshWrites(cfg: Settings, db: Db, token: string, draw: Draw, now: int)
    requires token in db.tokens
    ensures
      var (after, outcome) := RefreshStep(cfg, db, token, draw, now);
      var old_ := db.tokens[token];
      var rest := set h | h in LiveTokens(db) && db.tokens[h].family != old_.family;
      && after.users == db.users && after.codes == db.codes
      && LiveTokens(after) == rest + (if outcome.Redeemed? then {draw.token} else {})
      && (if outcome.Redeemed? then
            && draw.token !in db.tokens && draw.token in after.tokens
            && var t := after.tokens[draw.token];
            && t.user == old_.user && t.family == draw.family && t.expiresAt == now + cfg.tokenLifetime
            && (if cfg.sessionManagement && old_.session.None? then
                  t.session == Some(draw.session) && OpenedOne(db, after, draw.session, old_.user)
                else t.session == old_.session && after.sessions == db.sessions)
          else after.tokens.Keys == db.tokens.Keys && after.sessions == db.sessions)
  {
  }

  // An unknown token changes nothing, whether it is presented for a refresh or for a logout.
  lemma UnknownToken(cfg: Settings, db: Db, token: string, draw: Draw, now: int)
    requires token !in db.tokens
    ensures RefreshStep(cfg, db, token, draw, now) == (db, Refused(InvalidRefreshToken))
    ensures LogoutStep(cfg, db, token, now) == (db, LoggedOut)
  {
  }

  // What a logout ends: the live tokens of the family, and with sessions managed the open session of the
  // token's user with all its tokens; nothing else.
  lemma LogoutEnds(cfg: Settings, db: Db, token: string, now: int)
    requires token in db.tokens
    ensures
      var (after, outcome) := LogoutStep(cfg, db, token, now);
      var t := db.tokens[token];
      var ended := set s | s in OpenSessions(db) && cfg.sessionManagement && t.session == Some(s)
                           && db.sessions[s].user == t.user;
      && outcome == LoggedOut && after.users == db.users && after.codes == db.codes
      && LiveTokens(after) == (set h | h in LiveTokens(db) && db.tokens[h].family != t.family
                                       && (db.tokens[h].session.Some? ==> db.tokens[h].session.value !in ended))
      && OpenSessions(after) == OpenSessions(db) - ended
  {
  }

  // ---------------------------------------------------------------- session revocation

  // Revoking a session succeeds exactly for an open session of that user, and ends it with its tokens.
  lemma RevokeSessionEnds(cfg: Settings, db: Db, user: string, session: nat, now: int)
    ensures
      var (after, outcome) := Step(cfg, db, RevokeSession(user, session), now);
      var mine := session in OpenSessions(db) && db.sessions[session].user == user;
      && (outcome == Refused(SessionManagementDisabled) <==> !cfg.sessionManagement)
      && (outcome == SessionsRevoked <==> cfg.sessionManagement && mine)
      && (outcome == Refused(SessionNotFound) <==> cfg.sessionManagement && !mine)
      && after.users == db.users && after.codes == db.codes
      && (outcome.Refused? ==> after == db)
      && (outcome == SessionsRevoked ==>
            && OpenSessions(after) == OpenSessions(db) - {session}
            && LiveTokens(after) == (set h | h in LiveTokens(db) && db.tokens[h].session != Some(session)))
  {
  }

  lemma OthersEnd(db: Db, user: string, current: nat, now: int)
    requires Inv(db)
    ensures
      var after := RevokeOtherSessions(db, user, current, now);
      var others := set s | s in OpenSessions(db) && s != current && db.sessions[s].user == user;
      && after.users == db.users && after.codes == db.codes
      && OpenSessions(after) == OpenSessions(db) - others
      && LiveTokens(after) == (set h | h in LiveTokens(db)
                                       && (db.tokens[h].session.Some? ==> db.tokens[h].session.value !in others))
  {
    var after := RevokeOtherSessions(db, user, current, now);
    forall h | h in LiveTokens(db) && db.tokens[h].session.Some?
      ensures db.tokens[h].session.value in OpenSessions(db)
           && db.sessions[db.tokens[h].session.value].user == db.tokens[h].user
    {
    }
    var others := set s | s in OpenSessions(db) && s != current && db.sessions[s].user == user;
    assert Others(db, user, current) == others;
    assert forall s :: s in OpenSessions(after) <==> s in OpenSessions(db) && s !in others;
  }

  // Revoking the others ends every other open session of the user; the current one, other users' and
  // tokens without a session stay. If no other session is open, nothing changes.
  lemma RevokeOthersEnds(cfg: Settings, db: Db, user: string, current: nat, now: int)
    requires Inv(db)
    ensures Step(cfg, db, RevokeOthers(user, None), now) == (db, Refused(CurrentSessionUnavailable))
    ensures
      var (after, outcome) := Step(cfg, db, RevokeOthers(user, Some(current)), now);
      var others := set s | s in OpenSessions(db) && s != current && db.sessions[s].user == user;
      && outcome == (if cfg.sessionManagement then SessionsRevoked else Refused(SessionManagementDisabled))
      && after.users == db.users && after.codes == db.codes
      && (!cfg.sessionManagement ==> after == db)
      && (cfg.sessionManagement ==>
            && OpenSessions(after) == OpenSessions(db) - others
            && LiveTokens(after) == (set h | h in LiveTokens(db)
                                             && (db.tokens[h].session.Some? ==> db.tokens[h].session.value !in others)))
  {
    OthersEnd(db, user, current, now);
  }

  // ---------------------------------------------------------------- accounts and codes

  // Registering adds one user with that hash, pending exactly when verification is on.
  lemma RegisterAdds(cfg: Settings, db: Db, email: string, passwordHash: string, now: int)
    ensures
      var (after, outcome) := Step(cfg, db, Register(email, passwordHash), now);
      if email in db.users then outcome == Refused(UserAlreadyExists) && after == db
      else
        && outcome == Registered(email)
        && after.users.Keys == db.users.Keys + {email}
        && (forall u :: u in db.users ==> after.users[u] == db.users[u])
        && var user := after.users[email];
        && user.passwordHash == Some(passwordHash) && user.emailVerifiedAt.None?
        && user.status == (if cfg.emailVerification then PendingVerification else Active)
        && user.failedLoginAttempts == 0 && user.lockedUntil.None?
        && after.sessions == db.sessions && after.tokens == db.tokens && after.codes == db.codes
  {
  }

  // Issuing a code appends one unconsumed row for a known user, and does nothing else.
  lemma IssueCodeAdds(cfg: Settings, db: Db, email: string, purpose: Purpose, codeHash: string, now: int)
    ensures
      var (after, outcome) := Step(cfg, db, IssueCode(email, purpose, codeHash), now);
      if email !in db.users then outcome == Refused(NoSuchUser) && after == db
      else
        && outcome == CodeIssued(email, purpose)
        && |after.codes| == |db.codes| + 1 && after.codes[..|db.codes|] == db.codes
        && var c := after.codes[|db.codes|];
        && c.user == email && c.purpose == purpose && c.codeHash == codeHash
        && c.expiresAt == now + cfg.codeLifetime && c.consumedAt.None?
        && after.users == db.users && after.sessions == db.sessions && after.tokens == db.tokens
  {
  }

  // A row the query for a code may return.
  ghost predicate Matches(c: VerificationCode, email: string, purpose: Purpose, codeHash: string) {
    c.user == email && c.purpose == purpose && c.codeHash == codeHash && c.consumedAt == None
  }

  // Exactly one matching, unexpired row is consumed; nothing else in the codes changes.
  ghost predicate ConsumedOne(before: Db, after: Db, email: string, purpose: Purpose, codeHash: string, now: int) {
    && |after.codes| == |before.codes|
    && exists i :: && 0 <= i < |before.codes| && Matches(before.codes[i], email, purpose, codeHash)
                   && before.codes[i].expiresAt > now
                   && after.codes[i] == before.codes[i].(consumedAt := Some(now))
                   && forall k :: 0 <= k < |before.codes| && k != i ==> after.codes[k] == before.codes[k]
  }

  // Whether the code is accepted: for certain when every matching row is unexpired and there is one, and
  // for certain not when there is none that is; in between it depends on the row the query returns.
  lemma AcceptsExact(db: Db, email: string, purpose: Purpose, codeHash: string, row: nat, now: int)
    ensures
      var accepted := Accepts(db, email, purpose, codeHash, row, now);
      && (accepted ==>
            && email in db.users
            && ConsumedOne(db, Consume(db, email, purpose, codeHash, row, now), email, purpose, codeHash, now))
      && (email in db.users && row < |db.codes| && Matches(db.codes[row], email, purpose, codeHash) ==>
            (accepted <==> db.codes[row].expiresAt > now))
      && (email in db.users && (exists i :: 0 <= i < |db.codes| && Matches(db.codes[i], email, purpose, codeHash))
          && (forall i :: 0 <= i < |db.codes| && Matches(db.codes[i], email, purpose, codeHash) ==>
                db.codes[i].expiresAt > now)
          ==> accepted)
  {
    var picked := PickCode(db.codes, email, purpose, codeHash, row);
    forall i | 0 <= i < |db.codes|
      ensures Usable(db.codes[i], email, purpose, codeHash) <==> Matches(db.codes[i], email, purpose, codeHash)
    {
    }
    if Accepts(db, email, purpose, codeHash, row, now) {
      var after := Consume(db, email, purpose, codeHash, row, now);
      var i := picked.value;
      assert Matches(db.codes[i], email, purpose, codeHash) && after.codes[i] == db.codes[i].(consumedAt := Some(now));
    }
  }

  // Verifying an e-mail address marks the user verified and active, and nothing else of the tables but
  // the code; a refusal changes nothing.
  lemma VerifyMarks(cfg: Settings, db: Db, email: string, codeHash: string, row: nat, now: int)
    ensures
      var (after, outcome) := Step(cfg, db, VerifyEmail(email, codeHash, row), now);
      && (outcome == CodeUsed(email, EmailVerification)
          <==> cfg.emailVerification && Accepts(db, email, EmailVerification, codeHash, row, now))
      && (outcome == Refused(FeatureNotAvailable) <==> !cfg.emailVerification)
      && (outcome.CodeUsed? || outcome == Refused(FeatureNotAvailable) || outcome == Refused(InvalidVerificationCode))
      && (outcome.Refused? ==> after == db)
      && (outcome.CodeUsed? ==>
            && ConsumedOne(db, after, email, EmailVerification, codeHash, now)
            && after.sessions == db.sessions && after.tokens == db.tokens
            && OnlyUser(db, after, email)
            && after.users[email] == db.users[email].(emailVerifiedAt := Some(now), status := Active))
  {
    AcceptsExact(db, email, EmailVerification, codeHash, row, now);
  }

  // Resetting a password stores the new hash, and ends all sessions and tokens of that user and of
  // nobody else; a refusal changes nothing.
  lemma ResetStores(cfg: Settings, db: Db, email: string, codeHash: string, row: nat, passwordHash: string, now: int)
    ensures
      var (after, outcome) := Step(cfg, db, ResetPassword(email, codeHash, row, passwordHash), now);
      && (outcome == CodeUsed(email, PasswordReset)
          <==> cfg.passwordReset && Accepts(db, email, PasswordReset, codeHash, row, now))
      && (outcome == Refused(FeatureNotAvailable) <==> !cfg.passwordReset)
      && (outcome.CodeUsed? || outcome == Refused(FeatureNotAvailable) || outcome == Refused(InvalidVerificationCode))
      && (outcome.Refused? ==> after == db)
      && (outcome.CodeUsed? ==>
            && ConsumedOne(db, after, email, PasswordReset, codeHash, now)
            && OnlyUser(db, after, email)
            && after.users[email] == db.users[email].(passwordHash := Some(passwordHash))
            && LiveTokens(after) == (set h | h in LiveTokens(db) && db.tokens[h].user != email)
            && OpenSessions(after) == (set s | s in OpenSessions(db) && db.sessions[s].user != email))
  {
    AcceptsExact(db, email, PasswordReset, codeHash, row, now);
    if cfg.passwordReset && Accepts(db, email, PasswordReset, codeHash, row, now) {
      var consumed := Consume(db, email, PasswordReset, codeHash, row, now);
      var user := db.users[email].(passwordHash := Some(passwordHash));
      RevokeUserLeaves(consumed.(users := db.users[email := user]), email, now);
      assert LiveTokens(consumed) == LiveTokens(db) && OpenSessions(consumed) == OpenSessions(db);
    }
  }

  ghost predicate OnlyUser(before: Db, after: Db, email: string) {
    && email in before.users && after.users.Keys == before.users.Keys
    && forall u :: u in before.users && u != email ==> after.users[u] == before.users[u]
  }

  // Whatever token a step revokes carries the time of that step; nothing else of a token ever changes.
  lemma TokensStamped(cfg: Settings, db: Db, op: Operation, now: int, h: string)
    requires h in db.tokens
    ensures
      var after := Step(cfg, db, op, now).0;
      && h in after.tokens
      && (after.tokens[h] == db.tokens[h]
          || (db.tokens[h].revokedAt.None? && after.tokens[h] == db.tokens[h].(revokedAt := Some(now))))
  {
  }

  // The same for sessions.
  lemma SessionsStamped(cfg: Settings, db: Db, op: Operation, now: int, s: nat)
    requires s in db.sessions
    ensures
      var after := Step(cfg, db, op, now).0;
      && s in after.sessions
      && (after.sessions[s] == db.sessions[s]
          || (db.sessions[s].revokedAt.None? && after.sessions[s] == db.sessions[s].(revokedAt := Some(now))))
  {
  }

  // ---------------------------------------------------------------- over runs: the new password

  // A known user's password hash changes only by a successful reset, and then to the one given.
  lemma StepHash(cfg: Settings, db: Db, op: Operation, now: int, user: string)
    requires user in db.users
    ensures
      var (after, outcome) := Step(cfg, db, op, now);
      && user in after.users
      && (if outcome == CodeUsed(user, PasswordReset) then
            op.ResetPassword? && after.users[user].passwordHash == Some(op.passwordHash)
          else after.users[user].passwordHash == db.users[user].passwordHash)
  {
  }

  lemma {:induction false} HashStays(calls: seq<Call>, k: nat, later: nat, user: string)
    requires k < later <= |calls| && OutcomeAt(calls, k) == CodeUsed(user, PasswordReset)
    requires forall i :: k < i < later ==> OutcomeAt(calls, i) != CodeUsed(user, PasswordReset)
    ensures calls[k].op.ResetPassword?
    ensures user in DbAt(calls, later).users
         && DbAt(calls, later).users[user].passwordHash == Some(calls[k].op.passwordHash)
    decreases later
  {
    if k < later - 1 {
      HashStays(calls, k, later - 1, user);
      HashAfter(calls, later - 1, user);
    } else {
      ResetKnows(calls, k, user);
      HashAfter(calls, k, user);
    }
  }

  lemma HashAfter(calls: seq<Call>, k: nat, user: string)
    requires k < |calls| && user in DbAt(calls, k).users
    ensures user in DbAt(calls, k + 1).users
    ensures DbAt(calls, k + 1).users[user].passwordHash
         == if OutcomeAt(calls, k) == CodeUsed(user, PasswordReset) && calls[k].op.ResetPassword?
            then Some(calls[k].op.passwordHash) else DbAt(calls, k).users[user].passwordHash
  {
    StepAt(calls, k);
    StepHash(calls[k].cfg, DbAt(calls, k), calls[k].op, calls[k].now, user);
  }

  lemma ResetKnows(calls: seq<Call>, k: nat, user: string)
    requires k < |calls| && OutcomeAt(calls, k) == CodeUsed(user, PasswordReset)
    ensures calls[k].op.ResetPassword? && user in DbAt(calls, k).users
  {
    StepAt(calls, k);
  }

  // From a reset until the next one, a user gets in with a password exactly as the new hash allows it:
  // no login with a password it refuses gets through.
  lemma NewPasswordHolds(calls: seq<Call>, k: nat, later: nat, user: string)
    requires k < later < |calls| && OutcomeAt(calls, k) == CodeUsed(user, PasswordReset)
    requires forall i :: k < i < later ==> OutcomeAt(calls, i) != CodeUsed(user, PasswordReset)
    requires calls[later].op.Login? && calls[later].op.email == user
    requires OutcomeAt(calls, later).LoggedIn? || OutcomeAt(calls, later).Conflict?
    ensures calls[k].op.ResetPassword?
    ensures calls[later].cfg.verifyPassword(calls[later].op.password, calls[k].op.passwordHash)
  {
    HashStays(calls, k, later, user);
    StepAt(calls, later);
    var call := calls[later];
    LoginExact(call.cfg, DbAt(calls, later), user, call.op.password, call.op.draw, call.now);
  }

  // ---------------------------------------------------------------- over runs: families

  function DrawnFamily(op: Operation): Option<nat> {
    match op
    case Login(_, _, draw) => Some(draw.family)
    case Refresh(_, draw) => Some(draw.family)
    case _ => None
  }

  // Every login and refresh draws a family no other one draws.
  ghost predicate FreshFamilies(calls: seq<Call>) {
    forall i, j :: 0 <= i < j < |calls| && DrawnFamily(calls[i].op).Some? ==>
      DrawnFamily(calls[i].op) != DrawnFamily(calls[j].op)
  }

  ghost predicate Singletons(db: Db) {
    forall g, h :: g in db.tokens && h in db.tokens && db.tokens[g].family == db.tokens[h].family ==> g == h
  }

  ghost predicate FamiliesDrawn(calls: seq<Call>, db: Db) {
    forall h :: h in db.tokens ==> exists i :: 0 <= i < |calls| && DrawnFamily(calls[i].op) == Some(db.tokens[h].family)
  }

  // A step keeps the families of the tokens there are, and gives a new token the family it drew.
  lemma StepFamilies(cfg: Settings, db: Db, op: Operation, now: int)
    ensures
      var after := Step(cfg, db, op, now).0;
      && (forall h :: h in db.tokens ==> h in after.tokens && after.tokens[h].family == db.tokens[h].family)
      && (forall h :: h in after.tokens && h !in db.tokens ==> DrawnFamily(op) == Some(after.tokens[h].family))
      && (forall g, h :: g in after.tokens && h in after.tokens && g !in db.tokens && h !in db.tokens ==> g == h)
  {
  }

  lemma {:induction false} RunFamilies(calls: seq<Call>)
    requires FreshFamilies(calls)
    ensures Singletons(Run(calls).db) && FamiliesDrawn(calls, Run(calls).db)
  {
    if calls != [] {
      var n := |calls| - 1;
      var before, after := Run(calls[..n]).db, Run(calls).db;
      RunFamilies(calls[..n]);
      StepFamilies(calls[n].cfg, before, calls[n].op, calls[n].now);
      forall h | h in after.tokens
        ensures exists i :: 0 <= i < |calls| && DrawnFamily(calls[i].op) == Some(after.tokens[h].family)
        ensures h in before.tokens ==> Some(after.tokens[h].family) != DrawnFamily(calls[n].op)
      {
        if h in before.tokens {
          var i :| 0 <= i < n && DrawnFamily(calls[..n][i].op) == Some(before.tokens[h].family);
          assert DrawnFamily(calls[i].op) == Some(after.tokens[h].family);
        } else {
          assert DrawnFamily(calls[n].op) == Some(after.tokens[h].family);
        }
      }
    }
  }

  // So a family is one token: in any run a refresh replaces just the token it is given, and a logout
  // without managed sessions ends just that token.
  lemma RotationTouchesOne(calls: seq<Call>, k: nat, token: string)
    requires FreshFamilies(calls) && k < |calls| && token in DbAt(calls, k).tokens
    ensures calls[k].op.Refresh? && calls[k].op.token == token ==>
      LiveTokens(DbAt(calls, k + 1))
      == LiveTokens(DbAt(calls, k)) - {token}
         + (if OutcomeAt(calls, k).Redeemed? then {OutcomeAt(calls, k).token} else {})
    ensures calls[k].op == Logout(token) && !calls[k].cfg.sessionManagement ==>
      LiveTokens(DbAt(calls, k + 1)) == LiveTokens(DbAt(calls, k)) - {token}
  {
    var db := DbAt(calls, k);
    StepAt(calls, k);
    RunFamilies(calls[..k]);
    if calls[k].op.Refresh? && calls[k].op.token == token {
      RefreshTouchesOne(calls[k].cfg, db, token, calls[k].op.draw, calls[k].now);
    }
    if calls[k].op == Logout(token) && !calls[k].cfg.sessionManagement {
      LogoutTouchesOne(calls[k].cfg, db, token, calls[k].now);
    }
  }

  lemma RefreshTouchesOne(cfg: Settings, db: Db, token: string, draw: Draw, now: int)
    requires Singletons(db) && token in db.tokens
    ensures
      var (after, outcome) := RefreshStep(cfg, db, token, draw, now);
      LiveTokens(after) == LiveTokens(db) - {token} + (if outcome.Redeemed? then {outcome.token} else {})
  {
    RefreshWrites(cfg, db, token, draw, now);
    RefreshReports(cfg, db, token, draw, now);
    assert (set h | h in LiveTokens(db) && db.tokens[h].family != db.tokens[token].family) == LiveTokens(db) - {token};
  }

  lemma LogoutTouchesOne(cfg: Settings, db: Db, token: string, now: int)
    requires Singletons(db) && token in db.tokens && !cfg.sessionManagement
    ensures LiveTokens(LogoutStep(cfg, db, token, now).0) == LiveTokens(db) - {token}
  {
    LogoutEnds(cfg, db, token, now);
  }
}
