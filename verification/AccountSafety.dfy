// Lockout and one-time codes over every run of operations.
module AccountSafety {
  import opened Wrappers
  import opened Accounts
  import opened SessionSafety

  // ---------------------------------------------------------------- the lockout bound

  // When the logins of a known user failed since the last time one got through.
  function Failures(log: seq<Entry>, user: string): seq<int> {
    if log == [] then []
    else
      var n := |log| - 1;
      match log[n].outcome
      case InvalidCredentials(u) => Failures(log[..n], user) + (if u == user then [log[n].now] else [])
      case LoggedIn(u, _) => if u == user then [] else Failures(log[..n], user)
      case Conflict(u, login) => if u == user && login then [] else Failures(log[..n], user)
      case _ => Failures(log[..n], user)
  }

  ghost predicate LockoutThroughout(calls: seq<Call>, max: nat, lock: nat) {
    forall i :: 0 <= i < |calls| ==>
        calls[i].cfg.lockout && calls[i].cfg.maxAttempts == max && calls[i].cfg.lockoutTime == lock
  }

  // From the max-th failure on, every further failure waits for the lock of the one before it.
  ghost predicate Spaced(times: seq<int>, max: nat, lock: nat) {
    forall i :: max <= i < |times| && i > 0 ==> times[i] >= times[i - 1] + lock
  }

  ghost predicate CounterFits(user: User, times: seq<int>, max: nat, lock: nat) {
    && user.failedLoginAttempts == |times|
    && Spaced(times, max, lock)
    && user.lockedUntil == if |times| >= max && |times| > 0 then Some(times[|times| - 1] + lock) else None
  }

  ghost predicate CountersFit(w: World, max: nat, lock: nat) {
    && (forall u :: u in w.db.users ==> CounterFits(w.db.users[u], Failures(w.log, u), max, lock))
    && (forall u :: u !in w.db.users ==> Failures(w.log, u) == [])
  }

  lemma FailuresSnoc(log: seq<Entry>, e: Entry, user: string)
    ensures Failures(log + [e], user)
         == match e.outcome
            case InvalidCredentials(u) => Failures(log, user) + (if u == user then [e.now] else [])
            case LoggedIn(u, _) => if u == user then [] else Failures(log, user)
            case Conflict(u, login) => if u == user && login then [] else Failures(log, user)
            case _ => Failures(log, user)
  {
    assert (log + [e])[..|log|] == log;
  }

  // Which users a step touches, and how.
  lemma StepCounters(cfg: Settings, db: Db, op: Operation, now: int, u: string)
    requires cfg.lockout
    ensures
      var (after, outcome) := Step(cfg, db, op, now);
      && (u in db.users ==> u in after.users)
      && (u !in db.users && u in after.users ==>
          after.users[u].failedLoginAttempts == 0 && after.users[u].lockedUntil == None)
      && (u !in db.users ==> outcome != InvalidCredentials(u))
      && (u in db.users ==>
            if outcome == InvalidCredentials(u) then
              !LockedOut(cfg, db.users[u], now) && after.users[u] == AfterFailure(cfg, db.users[u], now)
            else if (outcome.LoggedIn? && outcome.user == u) || outcome == Conflict(u, true) then
              after.users[u].failedLoginAttempts == 0 && after.users[u].lockedUntil == None
            else
              after.users[u].failedLoginAttempts == db.users[u].failedLoginAttempts
              && after.users[u].lockedUntil == db.users[u].lockedUntil)
  {
  }

  lemma PerformKeepsCounters(w: World, call: Call, max: nat, lock: nat)
    requires CountersFit(w, max, lock)
    requires call.cfg.lockout && call.cfg.maxAttempts == max && call.cfg.lockoutTime == lock
    ensures CountersFit(Perform(w, call), max, lock)
  {
    var w' := Perform(w, call);
    forall u ensures u in w'.db.users ==> CounterFits(w'.db.users[u], Failures(w'.log, u), max, lock)
             ensures u !in w'.db.users ==> Failures(w'.log, u) == []
    {
      CounterNext(w, call, max, lock, u);
    }
  }

  lemma CounterNext(w: World, call: Call, max: nat, lock: nat, u: string)
    requires u in w.db.users ==> CounterFits(w.db.users[u], Failures(w.log, u), max, lock)
    requires u !in w.db.users ==> Failures(w.log, u) == []
    requires call.cfg.lockout && call.cfg.maxAttempts == max && call.cfg.lockoutTime == lock
    ensures
      var w' := Perform(w, call);
      && (u in w'.db.users ==> CounterFits(w'.db.users[u], Failures(w'.log, u), max, lock))
      && (u !in w'.db.users ==> Failures(w'.log, u) == [])
  {
    var (after, outcome) := Step(call.cfg, w.db, call.op, call.now);
    StepCounters(call.cfg, w.db, call.op, call.now, u);
    FailuresSnoc(w.log, Entry(call.now, outcome), u);
    if u in w.db.users {
      CounterMoves(call.cfg, w.db.users[u], after.users[u], w.log, Entry(call.now, outcome), u, max, lock);
    }
  }

  // One log entry, on the counters of one user.
  lemma CounterMoves(cfg: Settings, was: User, row: User, log: seq<Entry>, e: Entry, u: string, max: nat, lock: nat)
    requires CounterFits(was, Failures(log, u), max, lock)
    requires cfg.lockout && cfg.maxAttempts == max && cfg.lockoutTime == lock
    requires
      if e.outcome == InvalidCredentials(u) then !LockedOut(cfg, was, e.now) && row == AfterFailure(cfg, was, e.now)
      else if (e.outcome.LoggedIn? && e.outcome.user == u) || e.outcome == Conflict(u, true) then
        row.failedLoginAttempts == 0 && row.lockedUntil == None
      else row.failedLoginAttempts == was.failedLoginAttempts && row.lockedUntil == was.lockedUntil
    ensures CounterFits(row, Failures(log + [e], u), max, lock)
  {
    FailuresSnoc(log, e, u);
  }

  lemma {:induction false} RunKeepsCounters(calls: seq<Call>, max: nat, lock: nat)
    requires LockoutThroughout(calls, max, lock)
    ensures CountersFit(Run(calls), max, lock)
  {
    if calls != [] {
      RunKeepsCounters(calls[..|calls| - 1], max, lock);
      PerformKeepsCounters(Run(calls[..|calls| - 1]), calls[|calls| - 1], max, lock);
    }
  }

  lemma {:induction false} SpacedBound(times: seq<int>, max: nat, lock: nat, k: nat)
    requires Spaced(times, max, lock) && 0 < max <= k <= |times|
    ensures (k - max) * lock <= times[k - 1] - times[max - 1]
  {
    if k > max {
      SpacedBound(times, max, lock, k - 1);
      assert times[k - 1] >= times[k - 2] + lock;
      assert (k - max) * lock == (k - 1 - max) * lock + lock;
    }
  }

  lemma {:induction false} FailuresInPast(calls: seq<Call>, user: string, i: nat)
    requires Monotone(calls) && i < |Failures(Run(calls).log, user)|
    ensures calls != [] && Failures(Run(calls).log, user)[i] <= calls[|calls| - 1].now
  {
    if calls != [] {
      var n := |calls| - 1;
      var before := Run(calls[..n]);
      var e := Run(calls).log[n];
      assert Run(calls).log == before.log + [e];
      FailuresSnoc(before.log, e, user);
      if i < |Failures(before.log, user)| {
        FailuresInPast(calls[..n], user, i);
      }
    }
  }

  // With lockout on and fixed settings, k failures since the last success reach from the max-th one
  // over at least (k - max) lockout times: guessing never gets faster than one try per lockout.
  lemma LockoutBound(calls: seq<Call>, user: string, max: nat, lock: nat)
    requires LockoutThroughout(calls, max, lock) && Monotone(calls) && max > 0
    requires |Failures(Run(calls).log, user)| >= max
    ensures
      var times := Failures(Run(calls).log, user);
      calls != [] && (|times| - max) * lock <= calls[|calls| - 1].now - times[max - 1]
  {
    var times := Failures(Run(calls).log, user);
    RunKeepsCounters(calls, max, lock);
    assert user in Run(calls).db.users;
    SpacedBound(times, max, lock, |times|);
    FailuresInPast(calls, user, |times| - 1);
  }

  // No account is locked for less: with fixed settings a login is refused as locked exactly when the user
  // failed at least max times since the last success, and the last failure is less than a lock time ago.
  lemma LockIsEarned(calls: seq<Call>, k: nat, max: nat, lock: nat)
    requires LockoutThroughout(calls, max, lock) && k < |calls| && calls[k].op.Login?
    ensures
      var times := Failures(Run(calls[..k]).log, calls[k].op.email);
      OutcomeAt(calls, k) == Refused(AccountLocked)
      <==> |times| >= max && |times| > 0 && calls[k].now < times[|times| - 1] + lock
  {
    var user := calls[k].op.email;
    StepAt(calls, k);
    assert LockoutThroughout(calls[..k], max, lock);
    RunKeepsCounters(calls[..k], max, lock);
    var db := DbAt(calls, k);
    if user in db.users {
      assert CounterFits(db.users[user], Failures(Run(calls[..k]).log, user), max, lock);
    }
  }

  // ---------------------------------------------------------------- one-time codes

  predicate CodeFor(c: VerificationCode, user: string, purpose: Purpose) {
    c.user == user && c.purpose == purpose
  }

  function CountCodes(codes: seq<VerificationCode>, user: string, purpose: Purpose, consumed: bool): nat {
    if codes == [] then 0
    else
      var n := |codes| - 1;
      CountCodes(codes[..n], user, purpose, consumed)
      + (if CodeFor(codes[n], user, purpose) && (consumed ==> codes[n].consumedAt.Some?) then 1 else 0)
  }

  function CountOutcome(log: seq<Entry>, outcome: Outcome): nat {
    if log == [] then 0
    else CountOutcome(log[..|log| - 1], outcome) + (if log[|log| - 1].outcome == outcome then 1 else 0)
  }

  lemma {:induction false} ConsumedAtMostIssued(codes: seq<VerificationCode>, user: string, purpose: Purpose)
    ensures CountCodes(codes, user, purpose, true) <= CountCodes(codes, user, purpose, false)
  {
    if codes != [] { ConsumedAtMostIssued(codes[..|codes| - 1], user, purpose); }
  }

  lemma {:induction false} ConsumeCounts(codes: seq<VerificationCode>, i: nat, now: int, user: string, purpose: Purpose)
    requires i < |codes| && codes[i].consumedAt.None?
    ensures
      var after := codes[i := codes[i].(consumedAt := Some(now))];
      && CountCodes(after, user, purpose, false) == CountCodes(codes, user, purpose, false)
      && CountCodes(after, user, purpose, true)
          == CountCodes(codes, user, purpose, true) + (if CodeFor(codes[i], user, purpose) then 1 else 0)
  {
    var n := |codes| - 1;
    var after := codes[i := codes[i].(consumedAt := Some(now))];
    if i < n {
      ConsumeCounts(codes[..n], i, now, user, purpose);
      assert after[..n] == codes[..n][i := codes[i].(consumedAt := Some(now))];
    } else {
      assert after[..n] == codes[..n];
    }
  }

  lemma AcceptedCounts(db: Db, email: string, p: Purpose, codeHash: string, row: nat, now: int, user: string,
                       purpose: Purpose)
    requires Accepts(db, email, p, codeHash, row, now)
    ensures
      var after := Consume(db, email, p, codeHash, row, now);
      && CountCodes(after.codes, user, purpose, false) == CountCodes(db.codes, user, purpose, false)
      && CountCodes(after.codes, user, purpose, true)
         == CountCodes(db.codes, user, purpose, true) + (if CodeUsed(email, p) == CodeUsed(user, purpose) then 1 else 0)
  {
    ConsumeCounts(db.codes, PickCode(db.codes, email, p, codeHash, row).value, now, user, purpose);
  }

  // Every other operation leaves the codes alone.
  lemma OtherCodes(cfg: Settings, db: Db, op: Operation, now: int)
    requires !op.IssueCode? && !op.VerifyEmail? && !op.ResetPassword?
    ensures Step(cfg, db, op, now).0.codes == db.codes
    ensures !Step(cfg, db, op, now).1.CodeIssued? && !Step(cfg, db, op, now).1.CodeUsed?
  {
  }

  // How a step changes the codes.
  lemma StepCodes(cfg: Settings, db: Db, op: Operation, now: int, user: string, purpose: Purpose)
    ensures
      var (after, outcome) := Step(cfg, db, op, now);
      && CountCodes(after.codes, user, purpose, false)
         == CountCodes(db.codes, user, purpose, false) + (if outcome == CodeIssued(user, purpose) then 1 else 0)
      && CountCodes(after.codes, user, purpose, true)
         == CountCodes(db.codes, user, purpose, true) + (if outcome == CodeUsed(user, purpose) then 1 else 0)
  {
    var (after, outcome) := Step(cfg, db, op, now);
    match op
    case IssueCode(email, p, codeHash) =>
      if outcome.CodeIssued? { assert after.codes[..|db.codes|] == db.codes; }
    case VerifyEmail(email, codeHash, row) =>
      if outcome.CodeUsed? { AcceptedCounts(db, email, EmailVerification, codeHash, row, now, user, purpose); }
    case ResetPassword(email, codeHash, row, _) =>
      if outcome.CodeUsed? { AcceptedCounts(db, email, PasswordReset, codeHash, row, now, user, purpose); }
    case _ => OtherCodes(cfg, db, op, now);
  }

  // Every use of a code consumes one issued code for that user and purpose, so verifications and
  // resets never outnumber the codes issued.
  lemma {:induction false} CodesUsedAtMostIssued(calls: seq<Call>, user: string, purpose: Purpose)
    ensures
      var w := Run(calls);
      && CountOutcome(w.log, CodeIssued(user, purpose)) == CountCodes(w.db.codes, user, purpose, false)
      && CountOutcome(w.log, CodeUsed(user, purpose)) == CountCodes(w.db.codes, user, purpose, true)
      && CountOutcome(w.log, CodeUsed(user, purpose)) <= CountOutcome(w.log, CodeIssued(user, purpose))
  {
    ConsumedAtMostIssued(Run(calls).db.codes, user, purpose);
    if calls != [] {
      var n := |calls| - 1;
      CodesUsedAtMostIssued(calls[..n], user, purpose);
      StepCodes(calls[n].cfg, Run(calls[..n]).db, calls[n].op, calls[n].now, user, purpose);
      assert Run(calls).log[..n] == Run(calls[..n]).log;
    }
  }

  // The call that issued a stored code.
  ghost predicate IssuedAt(calls: seq<Call>, i: nat, c: VerificationCode) {
    && i < |calls|
    && calls[i].op == IssueCode(c.user, c.purpose, c.codeHash)
    && c.expiresAt == calls[i].now + calls[i].cfg.codeLifetime
  }

  ghost predicate WasIssued(calls: seq<Call>, c: VerificationCode) {
    exists i :: IssuedAt(calls, i, c)
  }

  ghost predicate CodesIssued(calls: seq<Call>, codes: seq<VerificationCode>) {
    forall r :: 0 <= r < |codes| ==> WasIssued(calls, codes[r])
  }

  // A code row is written once; afterwards only its consumption is marked.
  lemma StepRows(cfg: Settings, db: Db, op: Operation, now: int, r: nat)
    requires r < |Step(cfg, db, op, now).0.codes|
    ensures
      var c := Step(cfg, db, op, now).0.codes[r];
      if r < |db.codes| then c == db.codes[r].(consumedAt := c.consumedAt)
      else op == IssueCode(c.user, c.purpose, c.codeHash) && c.expiresAt == now + cfg.codeLifetime
  {
  }

  lemma {:induction false} RunIssuesCodes(calls: seq<Call>)
    ensures CodesIssued(calls, Run(calls).db.codes)
  {
    if calls != [] {
      var n := |calls| - 1;
      var before := Run(calls[..n]).db;
      var after := Run(calls).db;
      RunIssuesCodes(calls[..n]);
      forall r | 0 <= r < |after.codes| ensures WasIssued(calls, after.codes[r]) {
        StepRows(calls[n].cfg, before, calls[n].op, calls[n].now, r);
        if r < |before.codes| {
          assert WasIssued(calls[..n], before.codes[r]);
          var i :| IssuedAt(calls[..n], i, before.codes[r]);
          assert IssuedAt(calls, i, after.codes[r]);
        } else {
          assert IssuedAt(calls, n, after.codes[r]);
        }
      }
    }
  }

  // A verification or reset succeeds only with a code that was issued to that user for that purpose
  // and is still within its lifetime.
  lemma CodeUsedInTime(calls: seq<Call>, j: nat, user: string, purpose: Purpose) returns (i: nat)
    requires j < |calls| && OutcomeAt(calls, j) == CodeUsed(user, purpose)
    ensures i < j && calls[i].op.IssueCode? && calls[i].op.email == user && calls[i].op.purpose == purpose
    ensures (calls[j].op.VerifyEmail? && calls[j].op.codeHash == calls[i].op.codeHash)
         || (calls[j].op.ResetPassword? && calls[j].op.codeHash == calls[i].op.codeHash)
    ensures calls[j].now < calls[i].now + calls[i].cfg.codeLifetime
  {
    StepAt(calls, j);
    RunIssuesCodes(calls[..j]);
    var db := DbAt(calls, j);
    var op := calls[j].op;
    assert op.VerifyEmail? || op.ResetPassword?;
    var r := PickCode(db.codes, user, purpose, op.codeHash, op.row).value;
    assert WasIssued(calls[..j], db.codes[r]);
    i :| IssuedAt(calls[..j], i, db.codes[r]);
  }

  // ---------------------------------------------------------------- the verification chain

  ghost predicate VerificationThroughout(calls: seq<Call>) {
    forall i :: 0 <= i < |calls| ==> calls[i].cfg.emailVerification
  }

  ghost predicate ConsumedCodeFor(codes: seq<VerificationCode>, user: string) {
    exists i :: 0 <= i < |codes| && CodeFor(codes[i], user, EmailVerification) && codes[i].consumedAt.Some?
  }

  ghost predicate Verified(db: Db, user: string) {
    user in db.users && db.users[user].emailVerifiedAt.Some?
  }

  ghost predicate VerifiedByCode(db: Db) {
    forall u :: Verified(db, u) ==> ConsumedCodeFor(db.codes, u)
  }

  ghost predicate TokensVerified(db: Db) {
    forall h :: h in db.tokens ==> Verified(db, db.tokens[h].user)
  }

  lemma ConsumedCodeStays(cfg: Settings, db: Db, op: Operation, now: int, user: string)
    requires ConsumedCodeFor(db.codes, user)
    ensures ConsumedCodeFor(Step(cfg, db, op, now).0.codes, user)
  {
    var after := Step(cfg, db, op, now).0;
    var i :| 0 <= i < |db.codes| && CodeFor(db.codes[i], user, EmailVerification) && db.codes[i].consumedAt.Some?;
    assert CodeFor(after.codes[i], user, EmailVerification) && after.codes[i].consumedAt.Some?;
  }

  lemma StepKeepsVerified(cfg: Settings, db: Db, op: Operation, now: int)
    requires VerifiedByCode(db)
    ensures VerifiedByCode(Step(cfg, db, op, now).0)
    ensures forall u :: Verified(db, u) ==> Verified(Step(cfg, db, op, now).0, u)
  {
    var (after, outcome) := Step(cfg, db, op, now);
    forall u | Verified(after, u) ensures ConsumedCodeFor(after.codes, u) {
      if op.VerifyEmail? && outcome.CodeUsed? && op.email == u {
        var i := PickCode(db.codes, u, EmailVerification, op.codeHash, op.row).value;
        assert CodeFor(after.codes[i], u, EmailVerification) && after.codes[i].consumedAt.Some?;
      } else {
        assert Verified(db, u);
        ConsumedCodeStays(cfg, db, op, now, u);
      }
    }
  }

  lemma StepKeepsTokensVerified(cfg: Settings, db: Db, op: Operation, now: int)
    requires cfg.emailVerification && VerifiedByCode(db) && TokensVerified(db)
    ensures TokensVerified(Step(cfg, db, op, now).0)
  {
    var (after, outcome) := Step(cfg, db, op, now);
    StepKeepsVerified(cfg, db, op, now);
    forall h | h in after.tokens ensures Verified(after, after.tokens[h].user) {
      TokenOwner(cfg, db, op, now, h);
    }
  }

  // A token belongs to a user who had one already, or who has just logged in as verified.
  lemma TokenOwner(cfg: Settings, db: Db, op: Operation, now: int, h: string)
    requires cfg.emailVerification && h in Step(cfg, db, op, now).0.tokens
    ensures
      var owner := Step(cfg, db, op, now).0.tokens[h].user;
      Verified(db, owner) || exists g :: g in db.tokens && db.tokens[g].user == owner
  {
    var after := Step(cfg, db, op, now).0;
    if h in db.tokens {
      assert after.tokens[h].user == db.tokens[h].user;
    } else if op.Refresh? {
      assert db.tokens[op.token].user == after.tokens[h].user;
    }
  }

  // With e-mail verification on throughout, whoever holds a refresh token is verified, and whoever is
  // verified has used a verification code that was issued to them.
  lemma {:induction false} VerificationChain(calls: seq<Call>)
    requires VerificationThroughout(calls)
    ensures TokensVerified(Run(calls).db) && VerifiedByCode(Run(calls).db)
  {
    if calls != [] {
      var n := |calls| - 1;
      VerificationChain(calls[..n]);
      StepKeepsVerified(calls[n].cfg, Run(calls[..n]).db, calls[n].op, calls[n].now);
      StepKeepsTokensVerified(calls[n].cfg, Run(calls[..n]).db, calls[n].op, calls[n].now);
    }
  }
}
