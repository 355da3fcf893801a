// The auth repository and service as they run: queries, bulk updates and assignments on the tables,
// each proved to be the step of the account model.
module Auth {
  import opened Wrappers
  import opened Accounts

  // The sessions after the listed ones, but for the current one, were marked.
  ghost function Marked(sessions: map<nat, AuthSession>, ids: seq<nat>, current: nat, now: int): map<nat, AuthSession> {
    map s | s in sessions :: if s in ids && s != current then sessions[s].(revokedAt := Some(now)) else sessions[s]
  }

  ghost predicate Lists(ids: seq<nat>, sessions: map<nat, AuthSession>, user: string) {
    && (forall i, j :: 0 <= i < j < |ids| ==> ids[i] != ids[j])
    && (forall s :: s in ids <==> s in sessions && sessions[s].user == user && sessions[s].revokedAt.None?)
  }

  lemma MarkNext(sessions: map<nat, AuthSession>, ids: seq<nat>, i: nat, current: nat, now: int)
    requires i < |ids| && ids[i] in sessions
    requires forall j, k :: 0 <= j < k < |ids| ==> ids[j] != ids[k]
    ensures Marked(sessions, ids[..i], current, now)[ids[i]] == sessions[ids[i]]
    ensures Marked(sessions, ids[..i + 1], current, now)
         == if ids[i] == current then Marked(sessions, ids[..i], current, now)
            else Marked(sessions, ids[..i], current, now)[ids[i] := sessions[ids[i]].(revokedAt := Some(now))]
  {
    assert ids[..i + 1] == ids[..i] + [ids[i]];
    assert ids[i] !in ids[..i];
  }

  function OtherIds(ids: seq<nat>, current: nat): set<nat> {
    set s | s in ids && s != current
  }

  lemma OtherIdsNext(ids: seq<nat>, i: nat, current: nat)
    requires i < |ids|
    requires forall j, k :: 0 <= j < k < |ids| ==> ids[j] != ids[k]
    ensures |OtherIds(ids[..i + 1], current)| == |OtherIds(ids[..i], current)| + (if ids[i] == current then 0 else 1)
  {
    assert ids[..i + 1] == ids[..i] + [ids[i]];
    var before := OtherIds(ids[..i], current);
    if ids[i] == current {
      assert OtherIds(ids[..i + 1], current) == before;
    } else {
      assert OtherIds(ids[..i + 1], current) == before + {ids[i]};
      assert ids[i] !in before;
    }
  }

  class AuthRepository {
    var users: map<string, User>
    var sessions: map<nat, AuthSession>
    var tokens: map<string, RefreshToken>
    var codes: seq<VerificationCode>

    constructor ()
      ensures Tables() == EMPTY_DB
    {
      users, sessions, tokens, codes := map[], map[], map[], [];
    }

    ghost function Tables(): Db
      reads this
    {
      Db(users, sessions, tokens, codes)
    }

    method RevokeTokens(family: nat, now: int)
      modifies this`tokens
      ensures Tables() == RevokeFamily(old(Tables()), family, now)
      ensures tokens.Keys == old(tokens).Keys
      ensures forall h :: h in tokens && tokens[h].family == family ==> !Live(tokens[h])
      ensures forall h :: h in tokens && (old(tokens)[h].family != family || !Live(old(tokens)[h])) ==>
                tokens[h] == old(tokens)[h]
    {
      tokens := RevokeWhere(tokens, (t: RefreshToken) => t.family == family, now);
    }

    method RevokeAuthSession(session: nat, user: string, now: int) returns (revoked: bool)
      modifies this`sessions, this`tokens
      ensures revoked == CanRevokeSession(old(Tables()), session, user)
      ensures Tables() == RevokeOneSession(old(Tables()), session, user, now)
    {
      if session !in sessions || sessions[session].user != user || sessions[session].revokedAt.Some? {
        return false;
      }
      sessions := sessions[session := sessions[session].(revokedAt := Some(now))];
      tokens := RevokeWhere(tokens, (t: RefreshToken) => t.session == Some(session), now);
      return true;
    }

    // The open sessions of a user, in some order.
    method AuthSessions(user: string) returns (listed: seq<nat>)
      ensures Lists(listed, sessions, user)
    {
      var open := set s | s in sessions && sessions[s].user == user && sessions[s].revokedAt.None?;
      ghost var all := open;
      listed := [];
      while open != {}
        invariant open <= all
        invariant forall i, j :: 0 <= i < j < |listed| ==> listed[i] != listed[j]
        invariant forall s :: s in listed <==> s in all && s !in open
        decreases open
      {
        var s :| s in open;
        open := open - {s};
        listed := listed + [s];
      }
    }

    // The open sessions are marked one by one; the tokens follow only if any session was marked.
    method RevokeOtherAuthSessions(user: string, current: nat, now: int) returns (count: nat)
      modifies this`sessions, this`tokens
      ensures Tables() == RevokeOtherSessions(old(Tables()), user, current, now)
      ensures count == |Others(old(Tables()), user, current)|
    {
      ghost var before := sessions;
      var listed := AuthSessions(user);
      count := 0;
      assert Marked(before, listed[..0], current, now) == before;
      for i := 0 to |listed|
        invariant sessions == Marked(before, listed[..i], current, now)
        invariant count == |OtherIds(listed[..i], current)|
        invariant tokens == old(tokens)
      {
        MarkNext(before, listed, i, current, now);
        OtherIdsNext(listed, i, current);
        if listed[i] != current {
          sessions := sessions[listed[i] := sessions[listed[i]].(revokedAt := Some(now))];
          count := count + 1;
        }
      }
      assert listed[..|listed|] == listed;
      assert OtherIds(listed, current) == Others(old(Tables()), user, current);
      if count > 0 {
        assert sessions == RevokeSessionsWhere(before, (s, a: AuthSession) => a.user == user && s != current, now);
        tokens := RevokeWhere(tokens,
                              (t: RefreshToken) => t.user == user && t.session.Some? && t.session != Some(current),
                              now);
      } else {
        assert forall s :: s in before ==> s !in OtherIds(listed, current);
        assert sessions == before;
      }
    }

    method FindVerificationCode(user: string, purpose: Purpose, codeHash: string, row: nat) returns (found: Option<nat>)
      ensures found == PickCode(codes, user, purpose, codeHash, row)
      ensures found.Some? ==> found.value < |codes| && Usable(codes[found.value], user, purpose, codeHash)
      ensures found.None? ==> forall i :: 0 <= i < |codes| ==> !Usable(codes[i], user, purpose, codeHash)
    {
      found := PickCode(codes, user, purpose, codeHash, row);
    }

    method RevokeUserTokens(user: string, now: int)
      modifies this`sessions, this`tokens
      ensures Tables() == RevokeUser(old(Tables()), user, now)
      ensures tokens.Keys == old(tokens).Keys && sessions.Keys == old(sessions).Keys
      ensures forall h :: h in tokens && tokens[h].user == user ==> !Live(tokens[h])
      ensures forall s :: s in sessions && sessions[s].user == user ==> sessions[s].revokedAt.Some?
      ensures forall h :: h in tokens && (old(tokens)[h].user != user || !Live(old(tokens)[h])) ==>
                tokens[h] == old(tokens)[h]
      ensures forall s :: s in sessions && (old(sessions)[s].user != user || old(sessions)[s].revokedAt.Some?) ==>
                sessions[s] == old(sessions)[s]
    {
      tokens := RevokeWhere(tokens, (t: RefreshToken) => t.user == user, now);
      sessions := RevokeSessionsWhere(sessions, (s, a: AuthSession) => a.user == user, now);
    }
  }

  class AuthService {
    const repository: AuthRepository
    const settings: Settings

    constructor (repository: AuthRepository, settings: Settings)
      ensures this.repository == repository && this.settings == settings
    {
      this.repository, this.settings := repository, settings;
    }

    // The state and report of an operation, as the account model has them.
    twostate predicate Did(op: Operation, now: int, outcome: Outcome)
      reads repository
    {
      (repository.Tables(), outcome) == Step(settings, old(repository.Tables()), op, now)
    }

    method Register(email: string, passwordHash: string) returns (outcome: Outcome)
      modifies repository
      ensures forall now :: Did(Operation.Register(email, passwordHash), now, outcome)
    {
      if email in repository.users {
        return Refused(UserAlreadyExists);
      }
      var status := if settings.emailVerification then PendingVerification else Active;
      repository.users := repository.users[email := User(Some(passwordHash), status, None, 0, None)];
      return Registered(email);
    }

    // None when the user may log in.
    method Authenticate(email: string, password: string, now: int) returns (failure: Option<Outcome>)
      modifies repository`users
      ensures failure.Some? ==> forall draw ::
        (repository.Tables(), failure.value)
            == LoginStep(settings, old(repository.Tables()), email, password, draw, now)
      ensures failure.None? ==>
        && email in old(repository.users) && Passes(settings, old(repository.users)[email], password, now)
        && repository.users == old(repository.users)[email := AfterSuccess(settings, old(repository.users)[email])]
    {
      if email !in repository.users {
        return Some(Refused(UnknownCredentials));
      }
      var user := repository.users[email];
      if settings.lockout && user.lockedUntil.Some? && user.lockedUntil.value > now {
        return Some(Refused(AccountLocked));
      }
      if user.passwordHash.None? || !settings.verifyPassword(password, user.passwordHash.value)
         || (user.status != Active && !(settings.emailVerification && user.status == PendingVerification))
      {
        if settings.lockout {
          user := user.(failedLoginAttempts := user.failedLoginAttempts + 1);
          if user.failedLoginAttempts >= settings.maxAttempts {
            user := user.(lockedUntil := Some(now + settings.lockoutTime));
          }
          repository.users := repository.users[email := user];
        } else {
          assert repository.users == repository.users[email := user];
        }
        return Some(InvalidCredentials(email));
      }
      if settings.emailVerification && user.emailVerifiedAt.None? {
        return Some(Refused(EmailVerificationRequired));
      }
      if settings.lockout {
        user := user.(failedLoginAttempts := 0);
        user := user.(lockedUntil := None);
        repository.users := repository.users[email := user];
      } else {
        assert repository.users == repository.users[email := user];
      }
      return None;
    }

    // A draw that collides with a stored value rolls the new session back as well.
    method IssueTokens(user: string, session: Option<nat>, draw: Draw, now: int) returns (ok: bool)
      modifies repository`sessions, repository`tokens
      ensures ok == CanIssue(settings, old(repository.Tables()), session, draw)
      ensures repository.Tables()
          == if ok then Issue(settings, old(repository.Tables()), user, session, draw, now)
             else old(repository.Tables())
    {
      var committed := repository.sessions;
      var sessionId := session;
      if settings.sessionManagement && session.None? {
        if draw.session in repository.sessions {
          return false;
        }
        repository.sessions := repository.sessions[draw.session := AuthSession(user, None)];
        sessionId := Some(draw.session);
      }
      if draw.token in repository.tokens {
        repository.sessions := committed;
        return false;
      }
      repository.tokens := repository.tokens[draw.token :=
        RefreshToken(user, sessionId, draw.family, now + settings.tokenLifetime, None)];
      return true;
    }

    method Login(email: string, password: string, draw: Draw, now: int) returns (outcome: Outcome)
      modifies repository
      ensures Did(Operation.Login(email, password, draw), now, outcome)
    {
      var failure := Authenticate(email, password, now);
      if failure.Some? {
        return failure.value;
      }
      var ok := IssueTokens(email, None, draw, now);
      return if ok then LoggedIn(email, draw.token) else Conflict(email, true);
    }

    method Refresh(token: string, draw: Draw, now: int) returns (outcome: Outcome)
      modifies repository
      ensures Did(Operation.Refresh(token, draw), now, outcome)
    {
      if token !in repository.tokens {
        return Refused(InvalidRefreshToken);
      }
      var t := repository.tokens[token];
      if t.revokedAt.Some? || t.expiresAt <= now {
        repository.RevokeTokens(t.family, now);
        return Refused(if t.revokedAt.Some? then RefreshTokenReplay else InvalidRefreshToken);
      }
      repository.RevokeTokens(t.family, now);
      if t.user !in repository.users || repository.users[t.user].status != Active {
        return Refused(InvalidRefreshToken);
      }
      var ok := IssueTokens(t.user, t.session, draw, now);
      return if ok then Redeemed(token, draw.token) else Conflict(t.user, false);
    }

    method Logout(token: string, now: int) returns (outcome: Outcome)
      modifies repository
      ensures Did(Operation.Logout(token), now, outcome)
    {
      if token in repository.tokens {
        var t := repository.tokens[token];
        repository.RevokeTokens(t.family, now);
        if settings.sessionManagement && t.session.Some? {
          var _ := repository.RevokeAuthSession(t.session.value, t.user, now);
        }
      }
      return LoggedOut;
    }

    method RevokeSession(user: string, session: nat, now: int) returns (outcome: Outcome)
      modifies repository
      ensures Did(Operation.RevokeSession(user, session), now, outcome)
    {
      if !settings.sessionManagement {
        return Refused(SessionManagementDisabled);
      }
      var revoked := repository.RevokeAuthSession(session, user, now);
      return if revoked then SessionsRevoked else Refused(SessionNotFound);
    }

    method RevokeOthers(user: string, current: Option<nat>, now: int) returns (outcome: Outcome)
      modifies repository
      ensures Did(Operation.RevokeOthers(user, current), now, outcome)
    {
      if current.None? {
        return Refused(CurrentSessionUnavailable);
      }
      if !settings.sessionManagement {
        return Refused(SessionManagementDisabled);
      }
      var _ := repository.RevokeOtherAuthSessions(user, current.value, now);
      return SessionsRevoked;
    }

    method IssueCode(email: string, purpose: Purpose, codeHash: string, now: int) returns (outcome: Outcome)
      modifies repository
      ensures Did(Operation.IssueCode(email, purpose, codeHash), now, outcome)
    {
      if email !in repository.users {
        return Refused(NoSuchUser);
      }
      repository.codes := repository.codes
          + [VerificationCode(email, purpose, codeHash, now + settings.codeLifetime, None)];
      return CodeIssued(email, purpose);
    }

    method VerifyEmail(email: string, codeHash: string, row: nat, now: int) returns (outcome: Outcome)
      modifies repository
      ensures Did(Operation.VerifyEmail(email, codeHash, row), now, outcome)
    {
      if !settings.emailVerification {
        return Refused(FeatureNotAvailable);
      }
      var found: Option<nat> := None;
      if email in repository.users {
        found := repository.FindVerificationCode(email, EmailVerification, codeHash, row);
      }
      if found.None? || repository.codes[found.value].expiresAt <= now {
        return Refused(InvalidVerificationCode);
      }
      var i := found.value;
      repository.codes := repository.codes[i := repository.codes[i].(consumedAt := Some(now))];
      var user := repository.users[email];
      user := user.(emailVerifiedAt := Some(now));
      user := user.(status := Active);
      repository.users := repository.users[email := user];
      return CodeUsed(email, EmailVerification);
    }

    method ResetPassword(email: string, codeHash: string, row: nat, passwordHash: string, now: int)
      returns (outcome: Outcome)
      modifies repository
      ensures Did(Operation.ResetPassword(email, codeHash, row, passwordHash), now, outcome)
    {
      if !settings.passwordReset {
        return Refused(FeatureNotAvailable);
      }
      var found: Option<nat> := None;
      if email in repository.users {
        found := repository.FindVerificationCode(email, PasswordReset, codeHash, row);
      }
      if found.None? || repository.codes[found.value].expiresAt <= now {
        return Refused(InvalidVerificationCode);
      }
      var i := found.value;
      repository.codes := repository.codes[i := repository.codes[i].(consumedAt := Some(now))];
      repository.users := repository.users[email := repository.users[email].(passwordHash := Some(passwordHash))];
      repository.RevokeUserTokens(email, now);
      return CodeUsed(email, PasswordReset);
    }
  }
}
