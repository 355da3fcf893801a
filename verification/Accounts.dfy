// Accounts, sessions, refresh tokens and one-time codes: what each operation does to the tables.
//
// A user is named by the e-mail address, which is unique and never changes; addresses are lower case.
// A refresh token is named by its hash, which is unique. Each operation is one step at one instant,
// and carries the random values it draws: a token hash or session id that is already taken makes the
// commit fail, as the unique columns do.
module Accounts {
  import opened Wrappers

  datatype Settings = Settings(
    sessionManagement: bool, passwordReset: bool, emailVerification: bool, lockout: bool,
    maxAttempts: nat, lockoutTime: nat, tokenLifetime: nat, codeLifetime: nat,
    verifyPassword: (string, string) -> bool)

  datatype UserStatus = Active | PendingVerification | Disabled

  datatype User = User(
    passwordHash: Option<string>, status: UserStatus, emailVerifiedAt: Option<int>,
    failedLoginAttempts: nat, lockedUntil: Option<int>)

  datatype AuthSession = AuthSession(user: string, revokedAt: Option<int>)

  datatype RefreshToken = RefreshToken(
    user: string, session: Option<nat>, family: nat, expiresAt: int, revokedAt: Option<int>)

  datatype Purpose = EmailVerification | PasswordReset

  datatype VerificationCode = VerificationCode(
    user: string, purpose: Purpose, codeHash: string, expiresAt: int, consumedAt: Option<int>)

  datatype Db = Db(
    users: map<string, User>, sessions: map<nat, AuthSession>,
    tokens: map<string, RefreshToken>, codes: seq<VerificationCode>)

  const EMPTY_DB := Db(map[], map[], map[], [])

  // The random values of one issue_tokens call.
  datatype Draw = Draw(session: nat, token: string, family: nat)

  datatype Operation =
    | Register(email: string, passwordHash: string)
    | Login(email: string, password: string, draw: Draw)
    | Refresh(token: string, draw: Draw)
    | Logout(token: string)
    | RevokeSession(user: string, session: nat)
    | RevokeOthers(user: string, current: Option<nat>)
    | IssueCode(email: string, purpose: Purpose, codeHash: string)
    | VerifyEmail(email: string, codeHash: string, row: nat)
    | ResetPassword(email: string, codeHash: string, row: nat, passwordHash: string)
    | Provision(email: string)
    | SetStatus(email: string, status: UserStatus)

  datatype Error =
    | UserAlreadyExists | AccountLocked | UnknownCredentials | EmailVerificationRequired
    | InvalidRefreshToken | RefreshTokenReplay | SessionManagementDisabled | SessionNotFound
    | CurrentSessionUnavailable | FeatureNotAvailable | InvalidVerificationCode | NoSuchUser

  // What an operation reports. InvalidCredentials is the failed login of a known user; Conflict is a
  // login or refresh that got past its checks and then drew a value already in use.
  datatype Outcome =
    | Registered(user: string)
    | LoggedIn(user: string, token: string)
    | Redeemed(old_: string, token: string)
    | InvalidCredentials(user: string)
    | Conflict(user: string, login: bool)
    | LoggedOut
    | SessionsRevoked
    | CodeIssued(user: string, purpose: Purpose)
    | CodeUsed(user: string, purpose: Purpose)
    | Administered
    | Refused(error: Error)

  // ---------------------------------------------------------------- bulk updates of the repository

  predicate Live(t: RefreshToken) {
    t.revokedAt.None?
  }

  function RevokeWhere(tokens: map<string, RefreshToken>, p: RefreshToken -> bool,
                       now: int): map<string, RefreshToken> {
    map h | h in tokens :: if p(tokens[h]) && Live(tokens[h]) then tokens[h].(revokedAt := Some(now)) else tokens[h]
  }

  function RevokeSessionsWhere(sessions: map<nat, AuthSession>, p: (nat, AuthSession) -> bool,
                               now: int): map<nat, AuthSession> {
    map s | s in sessions ::
      if p(s, sessions[s]) && sessions[s].revokedAt.None? then sessions[s].(revokedAt := Some(now)) else sessions[s]
  }

  function RevokeFamily(db: Db, family: nat, now: int): Db {
    db.(tokens := RevokeWhere(db.tokens, (t: RefreshToken) => t.family == family, now))
  }

  predicate CanRevokeSession(db: Db, session: nat, user: string) {
    session in db.sessions && db.sessions[session].user == user && db.sessions[session].revokedAt.None?
  }

  function RevokeOneSession(db: Db, session: nat, user: string, now: int): Db {
    if !CanRevokeSession(db, session, user) then db
    else db.(sessions := db.sessions[session := db.sessions[session].(revokedAt := Some(now))],
             tokens := RevokeWhere(db.tokens, (t: RefreshToken) => t.session == Some(session), now))
  }

  function Others(db: Db, user: string, current: nat): set<nat> {
    set s | s in db.sessions && s != current && db.sessions[s].user == user && db.sessions[s].revokedAt.None?
  }

  // A token without a session is not among those with another session.
  function RevokeOtherSessions(db: Db, user: string, current: nat, now: int): Db {
    if Others(db, user, current) == {} then db
    else db.(sessions := RevokeSessionsWhere(db.sessions, (s, a: AuthSession) => a.user == user && s != current, now),
             tokens := RevokeWhere(db.tokens,
                                   (t: RefreshToken) => t.user == user && t.session.Some? && t.session != Some(current),
                                   now))
  }

  function RevokeUser(db: Db, user: string, now: int): Db {
    db.(tokens := RevokeWhere(db.tokens, (t: RefreshToken) => t.user == user, now),
        sessions := RevokeSessionsWhere(db.sessions, (s, a: AuthSession) => a.user == user, now))
  }

  // ---------------------------------------------------------------- codes

  predicate Usable(code: VerificationCode, user: string, purpose: Purpose, codeHash: string) {
    code.user == user && code.purpose == purpose && code.codeHash == codeHash && code.consumedAt.None?
  }

  function FirstUsable(codes: seq<VerificationCode>, user: string, purpose: Purpose, codeHash: string): (r: Option<nat>)
    ensures r.Some? ==> r.value < |codes| && Usable(codes[r.value], user, purpose, codeHash)
    ensures r.None? ==> forall i :: 0 <= i < |codes| ==> !Usable(codes[i], user, purpose, codeHash)
  {
    if codes == [] then None
    else
      var n := |codes| - 1;
      var earlier := FirstUsable(codes[..n], user, purpose, codeHash);
      if earlier.Some? then earlier else if Usable(codes[n], user, purpose, codeHash) then Some(n) else None
  }

  // The query returns any usable row; `row` says which one when it is usable.
  function PickCode(codes: seq<VerificationCode>, user: string, purpose: Purpose, codeHash: string,
                    row: nat): (r: Option<nat>)
    ensures row < |codes| && Usable(codes[row], user, purpose, codeHash) ==> r == Some(row)
    ensures r.Some? ==> r.value < |codes| && Usable(codes[r.value], user, purpose, codeHash)
    ensures r.None? ==> forall i :: 0 <= i < |codes| ==> !Usable(codes[i], user, purpose, codeHash)
  {
    if row < |codes| && Usable(codes[row], user, purpose, codeHash) then Some(row)
    else FirstUsable(codes, user, purpose, codeHash)
  }

  predicate Accepts(db: Db, email: string, purpose: Purpose, codeHash: string, row: nat, now: int) {
    email in db.users
    && var picked := PickCode(db.codes, email, purpose, codeHash, row);
       picked.Some? && db.codes[picked.value].expiresAt > now
  }

  function Consume(db: Db, email: string, purpose: Purpose, codeHash: string, row: nat, now: int): Db
    requires Accepts(db, email, purpose, codeHash, row, now)
  {
    var i := PickCode(db.codes, email, purpose, codeHash, row).value;
    db.(codes := db.codes[i := db.codes[i].(consumedAt := Some(now))])
  }

  // ---------------------------------------------------------------- logging in and issuing tokens

  predicate LockedOut(cfg: Settings, user: User, now: int) {
    cfg.lockout && user.lockedUntil.Some? && user.lockedUntil.value > now
  }

  predicate CredentialsHold(cfg: Settings, user: User, password: string) {
    && user.passwordHash.Some? && cfg.verifyPassword(password, user.passwordHash.value)
    && (user.status == Active || (cfg.emailVerification && user.status == PendingVerification))
  }

  // Whether a login gets through to the issuing of tokens.
  predicate Passes(cfg: Settings, user: User, password: string, now: int) {
    !LockedOut(cfg, user, now) && CredentialsHold(cfg, user, password)
        && !(cfg.emailVerification && user.emailVerifiedAt.None?)
  }

  function AfterFailure(cfg: Settings, user: User, now: int): User {
    if !cfg.lockout then user
    else
      var n := user.failedLoginAttempts + 1;
      user.(failedLoginAttempts := n,
            lockedUntil := if n >= cfg.maxAttempts then Some(now + cfg.lockoutTime) else user.lockedUntil)
  }

  function AfterSuccess(cfg: Settings, user: User): User {
    if cfg.lockout then user.(failedLoginAttempts := 0, lockedUntil := None) else user
  }

  predicate NeedsSession(cfg: Settings, session: Option<nat>) {
    cfg.sessionManagement && session.None?
  }

  // Whether the commit of an issue_tokens call goes through.
  predicate CanIssue(cfg: Settings, db: Db, session: Option<nat>, draw: Draw) {
    draw.token !in db.tokens && (NeedsSession(cfg, session) ==> draw.session !in db.sessions)
  }

  function Issue(cfg: Settings, db: Db, user: string, session: Option<nat>, draw: Draw, now: int): Db
    requires CanIssue(cfg, db, session, draw)
  {
    var sid := if NeedsSession(cfg, session) then Some(draw.session) else session;
    db.(sessions := if NeedsSession(cfg, session) then db.sessions[draw.session := AuthSession(user, None)]
                    else db.sessions,
        tokens := db.tokens[draw.token := RefreshToken(user, sid, draw.family, now + cfg.tokenLifetime, None)])
  }

  predicate Redeemable(db: Db, token: string, now: int) {
    token in db.tokens && Live(db.tokens[token]) && db.tokens[token].expiresAt > now
    && db.tokens[token].user in db.users && db.users[db.tokens[token].user].status == Active
  }

  // ---------------------------------------------------------------- one operation

  function LoginStep(cfg: Settings, db: Db, email: string, password: string, draw: Draw, now: int): (Db, Outcome) {
    if email !in db.users then (db, Refused(UnknownCredentials))
    else
      var user := db.users[email];
      if LockedOut(cfg, user, now) then (db, Refused(AccountLocked))
      else if !CredentialsHold(cfg, user, password) then
        (db.(users := db.users[email := AfterFailure(cfg, user, now)]), InvalidCredentials(email))
      else if cfg.emailVerification && user.emailVerifiedAt.None? then (db, Refused(EmailVerificationRequired))
      else
        var db' := db.(users := db.users[email := AfterSuccess(cfg, user)]);
        if CanIssue(cfg, db', None, draw) then (Issue(cfg, db', email, None, draw, now), LoggedIn(email, draw.token))
        else (db', Conflict(email, true))
  }

  function RefreshStep(cfg: Settings, db: Db, token: string, draw: Draw, now: int): (Db, Outcome) {
    if token !in db.tokens then (db, Refused(InvalidRefreshToken))
    else
      var t := db.tokens[token];
      var db' := RevokeFamily(db, t.family, now);
      if !Live(t) then (db', Refused(RefreshTokenReplay))
      else if t.expiresAt <= now then (db', Refused(InvalidRefreshToken))
      else if t.user !in db.users || db.users[t.user].status != Active then (db', Refused(InvalidRefreshToken))
      else if CanIssue(cfg, db', t.session, draw) then
          (Issue(cfg, db', t.user, t.session, draw, now), Redeemed(token, draw.token))
      else (db', Conflict(t.user, false))
  }

  function LogoutStep(cfg: Settings, db: Db, token: string, now: int): (Db, Outcome) {
    if token !in db.tokens then (db, LoggedOut)
    else
      var t := db.tokens[token];
      var db' := RevokeFamily(db, t.family, now);
      (if cfg.sessionManagement && t.session.Some? then RevokeOneSession(db', t.session.value, t.user, now) else db',
       LoggedOut)
  }

  function Step(cfg: Settings, db: Db, op: Operation, now: int): (Db, Outcome) {
    match op
    case Register(email, passwordHash) =>
      if email in db.users then (db, Refused(UserAlreadyExists))
      else
        var status := if cfg.emailVerification then PendingVerification else Active;
        (db.(users := db.users[email := User(Some(passwordHash), status, None, 0, None)]), Registered(email))
    case Login(email, password, draw) => LoginStep(cfg, db, email, password, draw, now)
    case Refresh(token, draw) => RefreshStep(cfg, db, token, draw, now)
    case Logout(token) => LogoutStep(cfg, db, token, now)
    case RevokeSession(user, session) =>
      if !cfg.sessionManagement then (db, Refused(SessionManagementDisabled))
      else if !CanRevokeSession(db, session, user) then (db, Refused(SessionNotFound))
      else (RevokeOneSession(db, session, user, now), SessionsRevoked)
    case RevokeOthers(user, current) =>
      if current.None? then (db, Refused(CurrentSessionUnavailable))
      else if !cfg.sessionManagement then (db, Refused(SessionManagementDisabled))
      else (RevokeOtherSessions(db, user, current.value, now), SessionsRevoked)
    case IssueCode(email, purpose, codeHash) =>
      if email !in db.users then (db, Refused(NoSuchUser))
      else (db.(codes := db.codes + [VerificationCode(email, purpose, codeHash, now + cfg.codeLifetime, None)]),
            CodeIssued(email, purpose))
    case VerifyEmail(email, codeHash, row) =>
      if !cfg.emailVerification then (db, Refused(FeatureNotAvailable))
      else if !Accepts(db, email, EmailVerification, codeHash, row, now) then (db, Refused(InvalidVerificationCode))
      else
        var db' := Consume(db, email, EmailVerification, codeHash, row, now);
        (db'.(users := db.users[email := db.users[email].(emailVerifiedAt := Some(now), status := Active)]),
         CodeUsed(email, EmailVerification))
    case ResetPassword(email, codeHash, row, passwordHash) =>
      if !cfg.passwordReset then (db, Refused(FeatureNotAvailable))
      else if !Accepts(db, email, PasswordReset, codeHash, row, now) then (db, Refused(InvalidVerificationCode))
      else
        var db' := Consume(db, email, PasswordReset, codeHash, row, now);
        (RevokeUser(db'.(users := db.users[email := db.users[email].(passwordHash := Some(passwordHash))]), email, now),
         CodeUsed(email, PasswordReset))
    // a local account without a password, made on first use
    case Provision(email) =>
      if email in db.users then (db, Administered)
      else (db.(users := db.users[email := User(None, Active, None, 0, None)]), Administered)
    // a status written from outside these operations, such as disabling an account
    case SetStatus(email, status) =>
      if email !in db.users then (db, Refused(NoSuchUser))
      else (db.(users := db.users[email := db.users[email].(status := status)]), Administered)
  }

  // ---------------------------------------------------------------- runs

  // Settings may differ from call to call; time never runs backwards.
  datatype Call = Call(cfg: Settings, now: int, op: Operation)

  datatype Entry = Entry(now: int, outcome: Outcome)

  datatype World = World(db: Db, log: seq<Entry>)

  function Perform(w: World, call: Call): World {
    var (db, outcome) := Step(call.cfg, w.db, call.op, call.now);
    World(db, w.log + [Entry(call.now, outcome)])
  }

  function Run(calls: seq<Call>): (w: World)
    ensures |w.log| == |calls|
  {
    if calls == [] then World(EMPTY_DB, [])
    else Perform(Run(calls[..|calls| - 1]), calls[|calls| - 1])
  }

  // The tables before call k.
  function DbAt(calls: seq<Call>, k: nat): Db
    requires k <= |calls|
  {
    Run(calls[..k]).db
  }

  function OutcomeAt(calls: seq<Call>, k: nat): Outcome
    requires k < |calls|
  {
    Run(calls).log[k].outcome
  }

  ghost predicate Monotone(calls: seq<Call>) {
    forall i, j :: 0 <= i < j < |calls| ==> calls[i].now <= calls[j].now
  }
}
