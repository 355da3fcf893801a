// The run and lock protocol of start_run and execute_run, as interleaved steps of any number of
// callers and workers over the runs table and the Redis locks.
module RunProtocol {
  datatype Status = Running | Succeeded | Partial | Failed
  datatype Run = Run(source: nat, status: Status)

  // A caller of start_run past the check for an active run, and past the lock.
  datatype StarterPoint = Checked | Cleared
  datatype Starter = Starter(source: nat, at: StarterPoint)

  // A worker in execute_run, before and after it wrote the final status.
  datatype WorkerPoint = Executing | Finishing
  datatype Worker = Worker(run: nat, source: nat, at: WorkerPoint)

  datatype State = State(
    locks: set<nat>, runs: map<nat, Run>, starters: map<nat, Starter>,
    workers: map<nat, Worker>, delivered: set<nat>)

  const EMPTY := State({}, map[], map[], map[], {})

  // What a deployment allows: callers built without Redis, a lock that expires, a task delivered to
  // more than one worker, an execution that dies of something else than an adapter error, an insert of
  // the run row that fails, and a lock that is not given back after the run finished, because its
  // deletion fails or the worker is killed before it.
  datatype Deployment = Deployment(
    callerWithoutRedis: bool, lockExpires: bool, redelivery: bool, strayFault: bool, insertFails: bool,
    unlockFails: bool)

  datatype Step =
    | Check(starter: nat, source: nat)
    | TryLock(starter: nat)
    | SkipLock(starter: nat)
    | CreateRun(starter: nat, run: nat)
    | CreateFails(starter: nat)
    | Deliver(worker: nat, run: nat)
    | Finish(worker: nat, status: Status)
    | Fault(worker: nat)
    | Unlock(worker: nat)
    | UnlockFails(worker: nat)
    | Expire(source: nat)

  predicate HasRunning(st: State, s: nat) {
    exists r :: r in st.runs && st.runs[r] == Run(s, Running)
  }

  // One step; a step that is not enabled leaves the state as it is.
  function Apply(d: Deployment, st: State, step: Step): State {
    match step
    case Check(p, s) =>
      if p in st.starters || HasRunning(st, s) then st
      else st.(starters := st.starters[p := Starter(s, Checked)])
    case TryLock(p) =>
      if p !in st.starters || st.starters[p].at != Checked then st
      else if st.starters[p].source in st.locks then st.(starters := st.starters - {p})
      else st.(starters := st.starters[p := Starter(st.starters[p].source, Cleared)],
               locks := st.locks + {st.starters[p].source})
    case SkipLock(p) =>
      if !d.callerWithoutRedis || p !in st.starters || st.starters[p].at != Checked then st
      else st.(starters := st.starters[p := Starter(st.starters[p].source, Cleared)])
    case CreateRun(p, r) =>
      if p !in st.starters || st.starters[p].at != Cleared || r in st.runs then st
      else st.(starters := st.starters - {p}, runs := st.runs[r := Run(st.starters[p].source, Running)])
    case CreateFails(p) =>
      if !d.insertFails || p !in st.starters || st.starters[p].at != Cleared then st
      else st.(starters := st.starters - {p})
    case Deliver(w, r) =>
      if w in st.workers || r !in st.runs || (r in st.delivered && !d.redelivery) then st
      else st.(workers := st.workers[w := Worker(r, st.runs[r].source, Executing)],
               delivered := st.delivered + {r})
    case Finish(w, status) =>
      if w !in st.workers || st.workers[w].at != Executing || status == Running || st.workers[w].run !in st.runs then st
      else
        var worker := st.workers[w];
        st.(runs := st.runs[worker.run := Run(st.runs[worker.run].source, status)],
            workers := st.workers[w := worker.(at := Finishing)])
    case Fault(w) =>
      if !d.strayFault || w !in st.workers || st.workers[w].at != Executing then st
      else st.(workers := st.workers[w := st.workers[w].(at := Finishing)])
    case Unlock(w) =>
      if w !in st.workers || st.workers[w].at != Finishing then st
      else st.(locks := st.locks - {st.workers[w].source}, workers := st.workers - {w})
    case UnlockFails(w) =>
      if !d.unlockFails || w !in st.workers || st.workers[w].at != Finishing then st
      else st.(workers := st.workers - {w})
    case Expire(s) =>
      if !d.lockExpires then st else st.(locks := st.locks - {s})
  }

  function Exec(d: Deployment, st: State, steps: seq<Step>): State {
    if steps == [] then st
    else Apply(d, Exec(d, st, steps[..|steps| - 1]), steps[|steps| - 1])
  }

  // ---------------------------------------------------------------- what is wanted

  ghost predicate OneRunning(st: State) {
    forall r1, r2 ::
      (r1 in st.runs && r2 in st.runs && st.runs[r1].status == Running && st.runs[r2] == st.runs[r1]) ==> r1 == r2
  }

  // Whoever is between taking the lock of a source and giving it back.
  datatype Holder = Creator(starter: nat) | Active(run: nat) | Finisher(worker: nat)

  ghost predicate Holds(st: State, h: Holder, s: nat) {
    match h
    case Creator(p) => p in st.starters && st.starters[p] == Starter(s, Cleared)
    case Active(r) => r in st.runs && st.runs[r] == Run(s, Running)
    case Finisher(w) => w in st.workers && st.workers[w].source == s && st.workers[w].at == Finishing
  }

  ghost predicate OneHolder(st: State) {
    forall h1, h2, s :: Holds(st, h1, s) && Holds(st, h2, s) ==> h1 == h2
  }

  ghost predicate HoldersLocked(st: State) {
    forall h, s :: Holds(st, h, s) ==> s in st.locks
  }

  ghost predicate LocksHeld(st: State) {
    forall s :: s in st.locks ==> exists h :: Holds(st, h, s)
  }

  // The lock is there exactly while one creator, running run or finisher is in flight.
  ghost predicate LockExact(st: State) {
    OneHolder(st) && HoldersLocked(st) && LocksHeld(st)
  }

  // ---------------------------------------------------------------- the invariant

  predicate Sound(d: Deployment) {
    !d.callerWithoutRedis && !d.lockExpires && !d.redelivery && !d.strayFault
  }

  ghost predicate WorkersKnown(st: State) {
    forall w :: w in st.workers ==>
      var worker := st.workers[w];
      && worker.run in st.runs && worker.run in st.delivered
      && st.runs[worker.run].source == worker.source
      && (worker.at == Executing <==> st.runs[worker.run].status == Running)
  }

  ghost predicate OneWorkerPerRun(st: State) {
    forall w1, w2 :: w1 in st.workers && w2 in st.workers && st.workers[w1].run == st.workers[w2].run ==> w1 == w2
  }

  ghost predicate DeliveredKnown(st: State) {
    && (forall r :: r in st.delivered ==> r in st.runs)
    && (forall r :: r in st.runs && r !in st.delivered ==> st.runs[r].status == Running)
  }

  ghost predicate Inv(st: State) {
    && OneHolder(st) && HoldersLocked(st)
    && WorkersKnown(st) && OneWorkerPerRun(st) && DeliveredKnown(st)
  }

  // A step that passes a lock from one holder to the next leaves it with one holder.
  lemma HandOver(st: State, st': State, from_: Holder, to: Holder, source: nat)
    requires OneHolder(st) && HoldersLocked(st) && st'.locks == st.locks
    requires Holds(st, from_, source)
    requires forall h, s :: Holds(st', h, s) ==> (Holds(st, h, s) && h != from_) || (h == to && s == source)
    ensures OneHolder(st') && HoldersLocked(st')
  {
  }

  // No step gives a lock a second holder, or a holder no lock.
  lemma StepKeepsHolders(d: Deployment, st: State, step: Step)
    requires Sound(d) && Inv(st)
    ensures OneHolder(Apply(d, st, step)) && HoldersLocked(Apply(d, st, step))
  {
    var st' := Apply(d, st, step);
    match step
    case Check(p, s) => assert forall h, s' :: Holds(st', h, s') ==> Holds(st, h, s');
    case TryLock(p) => TryLockKeepsHolders(d, st, p);
    case SkipLock(p) =>
    case CreateRun(p, r) =>
      if st' != st { HandOver(st, st', Creator(p), Active(r), st.starters[p].source); }
    case CreateFails(p) => assert forall h, s' :: Holds(st', h, s') ==> Holds(st, h, s');
    case Deliver(w, r) => assert forall h, s' :: Holds(st', h, s') ==> Holds(st, h, s');
    case Finish(w, status) =>
      if st' != st { HandOver(st, st', Active(st.workers[w].run), Finisher(w), st.workers[w].source); }
    case Fault(w) =>
    case Unlock(w) => UnlockKeepsHolders(d, st, w);
    case UnlockFails(w) => assert forall h, s' :: Holds(st', h, s') ==> Holds(st, h, s');
    case Expire(s) =>
  }

  lemma TryLockKeepsHolders(d: Deployment, st: State, p: nat)
    requires Inv(st)
    ensures OneHolder(Apply(d, st, TryLock(p))) && HoldersLocked(Apply(d, st, TryLock(p)))
  {
    var st' := Apply(d, st, TryLock(p));
    if st'.locks != st.locks {
      assert forall h, s :: Holds(st', h, s) ==> Holds(st, h, s) || (h == Creator(p) && s == st.starters[p].source);
    } else {
      assert forall h, s :: Holds(st', h, s) ==> Holds(st, h, s);
    }
  }

  lemma UnlockKeepsHolders(d: Deployment, st: State, w: nat)
    requires Inv(st)
    ensures OneHolder(Apply(d, st, Unlock(w))) && HoldersLocked(Apply(d, st, Unlock(w)))
  {
    var st' := Apply(d, st, Unlock(w));
    if st' != st {
      assert Holds(st, Finisher(w), st.workers[w].source);
      assert forall h, s :: Holds(st', h, s) ==> Holds(st, h, s) && h != Finisher(w);
    }
  }

  lemma StepKeepsInv(d: Deployment, st: State, step: Step)
    requires Sound(d) && Inv(st)
    ensures Inv(Apply(d, st, step))
  {
    StepKeepsHolders(d, st, step);
  }

  lemma {:induction false} RunKeepsInv(d: Deployment, steps: seq<Step>)
    requires Sound(d)
    ensures Inv(Exec(d, EMPTY, steps))
  {
    if steps != [] {
      RunKeepsInv(d, steps[..|steps| - 1]);
      StepKeepsInv(d, Exec(d, EMPTY, steps[..|steps| - 1]), steps[|steps| - 1]);
    }
  }

  // With every insert and every release succeeding, a lock never outlives its holder either.
  lemma StepKeepsLocksHeld(d: Deployment, st: State, step: Step)
    requires Sound(d) && !d.insertFails && !d.unlockFails && Inv(st) && LocksHeld(st)
    ensures LocksHeld(Apply(d, st, step))
  {
    var st' := Apply(d, st, step);
    forall s | s in st'.locks
      ensures exists h :: Holds(st', h, s)
    {
      if s in st.locks {
        var h :| Holds(st, h, s);
        if !Holds(st', h, s) {
          match step
          case CreateRun(p, r) => assert Holds(st', Active(r), s);
          case Finish(w, status) =>
            assert h == Active(st.workers[w].run);
            assert Holds(st', Finisher(w), s);
          case _ => assert false;
        }
      } else {
        assert step.TryLock?;
        assert Holds(st', Creator(step.starter), s);
      }
    }
  }

  lemma {:induction false} RunKeepsLocksHeld(d: Deployment, steps: seq<Step>)
    requires Sound(d) && !d.insertFails && !d.unlockFails
    ensures LocksHeld(Exec(d, EMPTY, steps))
  {
    if steps != [] {
      RunKeepsLocksHeld(d, steps[..|steps| - 1]);
      RunKeepsInv(d, steps[..|steps| - 1]);
      StepKeepsLocksHeld(d, Exec(d, EMPTY, steps[..|steps| - 1]), steps[|steps| - 1]);
    }
  }

  // ---------------------------------------------------------------- runs that break it

  lemma ExecSnoc(d: Deployment, st: State, steps: seq<Step>, step: Step)
    ensures Exec(d, st, steps + [step]) == Apply(d, Exec(d, st, steps), step)
  {
    assert (steps + [step])[..|steps|] == steps;
  }

  ghost predicate Reaches(d: Deployment, st: State) {
    exists steps :: Exec(d, EMPTY, steps) == st
  }

  lemma ReachesEmpty(d: Deployment)
    ensures Reaches(d, EMPTY)
  {
    assert Exec(d, EMPTY, []) == EMPTY;
  }

  lemma ReachesNext(d: Deployment, st: State, step: Step)
    requires Reaches(d, st)
    ensures Reaches(d, Apply(d, st, step))
  {
    var steps :| Exec(d, EMPTY, steps) == st;
    ExecSnoc(d, EMPTY, steps, step);
  }

  // Follows a concrete list of steps, keeping each state reachable.
  lemma Follow(d: Deployment, st: State, step: Step, st': State)
    requires Reaches(d, st) && Apply(d, st, step) == st'
    ensures Reaches(d, st')
  {
    ReachesNext(d, st, step);
  }

  // Two callers have passed the check for one source.
  const BOTH_CHECKED := EMPTY.(starters := map[1 := Starter(0, Checked), 2 := Starter(0, Checked)])

  lemma ReachesBothChecked(d: Deployment)
    ensures Reaches(d, BOTH_CHECKED)
  {
    ReachesEmpty(d);
    var s1 := EMPTY.(starters := map[1 := Starter(0, Checked)]);
    Follow(d, EMPTY, Check(1, 0), s1);
    Follow(d, s1, Check(2, 0), BOTH_CHECKED);
  }

  // Two callers pass the check, then both create a run.
  lemma WithoutRedis(d: Deployment) returns (bad: State)
    requires d.callerWithoutRedis
    ensures Reaches(d, bad) && !OneRunning(bad) && !LockExact(bad)
  {
    ReachesBothChecked(d);
    var s1 := EMPTY.(starters := map[1 := Starter(0, Cleared), 2 := Starter(0, Checked)]);
    var s2 := EMPTY.(starters := map[1 := Starter(0, Cleared), 2 := Starter(0, Cleared)]);
    Follow(d, BOTH_CHECKED, SkipLock(1), s1);
    Follow(d, s1, SkipLock(2), s2);
    bad := BothCreate(d, s2);
  }

  lemma BothCreate(d: Deployment, st: State) returns (bad: State)
    requires Reaches(d, st) && st.runs == map[]
    requires st.starters == map[1 := Starter(0, Cleared), 2 := Starter(0, Cleared)]
    ensures Reaches(d, bad) && !OneRunning(bad) && !LockExact(bad)
  {
    var next := st.(starters := map[2 := Starter(0, Cleared)], runs := map[1 := Run(0, Running)]);
    bad := st.(starters := map[], runs := map[1 := Run(0, Running), 2 := Run(0, Running)]);
    Follow(d, st, CreateRun(1, 1), next);
    Follow(d, next, CreateRun(2, 2), bad);
    TwoRunning(bad, 0, 1, 2);
  }

  lemma TwoRunning(st: State, s: nat, r1: nat, r2: nat)
    requires r1 != r2 && r1 in st.runs && r2 in st.runs && st.runs[r1] == st.runs[r2] == Run(s, Running)
    ensures !OneRunning(st) && !LockExact(st)
  {
    assert Holds(st, Active(r1), s) && Holds(st, Active(r2), s);
  }

  // The state in which caller 2 has checked and run 1 of caller 1 is going on under the lock.
  const ONE_STARTED := State({0}, map[1 := Run(0, Running)], map[2 := Starter(0, Checked)], map[], {})

  lemma ReachesOneStarted(d: Deployment)
    ensures Reaches(d, ONE_STARTED)
  {
    ReachesBothChecked(d);
    var s1 := EMPTY.(starters := map[1 := Starter(0, Cleared), 2 := Starter(0, Checked)], locks := {0});
    Follow(d, BOTH_CHECKED, TryLock(1), s1);
    Follow(d, s1, CreateRun(1, 1), ONE_STARTED);
  }

  lemma LateCaller(d: Deployment, st: State) returns (bad: State)
    requires Reaches(d, st)
    requires st.locks == {} && st.runs == map[1 := Run(0, Running)] && st.starters == map[2 := Starter(0, Checked)]
    ensures Reaches(d, bad) && !OneRunning(bad) && !LockExact(bad)
  {
    var next := st.(locks := {0}, starters := map[2 := Starter(0, Cleared)]);
    bad := next.(starters := map[], runs := map[1 := Run(0, Running), 2 := Run(0, Running)]);
    Follow(d, st, TryLock(2), next);
    Follow(d, next, CreateRun(2, 2), bad);
    TwoRunning(bad, 0, 1, 2);
  }

  lemma WithExpiry(d: Deployment) returns (bad: State)
    requires d.lockExpires
    ensures Reaches(d, bad) && !OneRunning(bad) && !LockExact(bad)
  {
    ReachesOneStarted(d);
    var free := ONE_STARTED.(locks := {});
    Follow(d, ONE_STARTED, Expire(0), free);
    bad := LateCaller(d, free);
  }

  // An execution dies, gives the lock back, and leaves its run marked running.
  lemma WithStrayFault(d: Deployment) returns (bad: State)
    requires d.strayFault
    ensures Reaches(d, bad) && !OneRunning(bad) && !LockExact(bad)
  {
    ReachesOneStarted(d);
    var s1 := ONE_STARTED.(workers := map[1 := Worker(1, 0, Executing)], delivered := {1});
    var s2 := s1.(workers := map[1 := Worker(1, 0, Finishing)]);
    var s3 := s2.(workers := map[], locks := {});
    Follow(d, ONE_STARTED, Deliver(1, 1), s1);
    Follow(d, s1, Fault(1), s2);
    Follow(d, s2, Unlock(1), s3);
    bad := LateCaller(d, s3);
  }

  // Run 1 was delivered twice.
  const TWICE_DELIVERED := ONE_STARTED.(workers := map[1 := Worker(1, 0, Executing), 2 := Worker(1, 0, Executing)],
      delivered := {1})

  lemma ReachesTwiceDelivered(d: Deployment)
    requires d.redelivery
    ensures Reaches(d, TWICE_DELIVERED)
  {
    ReachesOneStarted(d);
    var s1 := ONE_STARTED.(workers := map[1 := Worker(1, 0, Executing)], delivered := {1});
    Follow(d, ONE_STARTED, Deliver(1, 1), s1);
    Follow(d, s1, Deliver(2, 1), TWICE_DELIVERED);
  }

  // Its first worker is done, its second is not.
  const FIRST_DONE := State({}, map[1 := Run(0, Succeeded)], map[2 := Starter(0, Checked)],
                            map[2 := Worker(1, 0, Executing)], {1})

  lemma ReachesFirstDone(d: Deployment)
    requires d.redelivery
    ensures Reaches(d, FIRST_DONE)
  {
    ReachesTwiceDelivered(d);
    var s1 := TWICE_DELIVERED.(workers := map[1 := Worker(1, 0, Finishing), 2 := Worker(1, 0, Executing)],
                               runs := map[1 := Run(0, Succeeded)]);
    Follow(d, TWICE_DELIVERED, Finish(1, Succeeded), s1);
    Follow(d, s1, Unlock(1), FIRST_DONE);
  }

  // Besides, two callers passed the check in between.
  const HALF_DONE := State({}, map[1 := Run(0, Succeeded)], map[2 := Starter(0, Checked), 3 := Starter(0, Checked)],
                          map[2 := Worker(1, 0, Executing)], {1})

  lemma ReachesHalfDone(d: Deployment)
    requires d.redelivery
    ensures Reaches(d, HALF_DONE)
  {
    ReachesFirstDone(d);
    Follow(d, FIRST_DONE, Check(3, 0), HALF_DONE);
  }

  // The second worker of run 1 gives back the lock that run 2 holds.
  lemma WithRedelivery(d: Deployment) returns (bad: State)
    requires d.redelivery
    ensures Reaches(d, bad) && !OneRunning(bad) && !LockExact(bad)
  {
    ReachesSecondRunning(d);
    bad := StrayUnlock(d, SECOND_RUNNING);
  }

  const SECOND_RUNNING := HALF_DONE.(starters := map[3 := Starter(0, Checked)], locks := {0},
                                     runs := map[1 := Run(0, Succeeded), 2 := Run(0, Running)])

  lemma ReachesSecondRunning(d: Deployment)
    requires d.redelivery
    ensures Reaches(d, SECOND_RUNNING)
  {
    ReachesHalfDone(d);
    var s1 := HALF_DONE.(starters := map[2 := Starter(0, Cleared), 3 := Starter(0, Checked)], locks := {0});
    Follow(d, HALF_DONE, TryLock(2), s1);
    Follow(d, s1, CreateRun(2, 2), SECOND_RUNNING);
  }

  lemma StrayUnlock(d: Deployment, st: State) returns (bad: State)
    requires Reaches(d, st)
    requires st.locks == {0} && st.runs == map[1 := Run(0, Succeeded), 2 := Run(0, Running)]
    requires st.starters == map[3 := Starter(0, Checked)] && st.workers == map[2 := Worker(1, 0, Executing)]
    ensures Reaches(d, bad) && !OneRunning(bad) && !LockExact(bad)
  {
    var s1 := st.(workers := map[2 := Worker(1, 0, Finishing)]);
    var s2 := s1.(workers := map[], locks := {});
    Follow(d, st, Finish(2, Succeeded), s1);
    Follow(d, s1, Unlock(2), s2);
    bad := SecondRun(d, s2);
  }

  lemma SecondRun(d: Deployment, st: State) returns (bad: State)
    requires Reaches(d, st)
    requires st.locks == {} && st.runs == map[1 := Run(0, Succeeded), 2 := Run(0, Running)]
        && st.starters == map[3 := Starter(0, Checked)]
    ensures Reaches(d, bad) && !OneRunning(bad) && !LockExact(bad)
  {
    var next := st.(starters := map[3 := Starter(0, Cleared)], locks := {0});
    bad := next.(starters := map[], runs := map[1 := Run(0, Succeeded), 2 := Run(0, Running), 3 := Run(0, Running)]);
    Follow(d, st, TryLock(3), next);
    Follow(d, next, CreateRun(3, 3), bad);
    TwoRunning(bad, 0, 2, 3);
  }

  // The insert of the run row fails after the lock was taken.
  lemma WithFailingInsert(d: Deployment) returns (bad: State)
    requires d.insertFails
    ensures Reaches(d, bad) && !LockExact(bad)
  {
    ReachesEmpty(d);
    var s1 := EMPTY.(starters := map[1 := Starter(0, Checked)]);
    var s2 := EMPTY.(starters := map[1 := Starter(0, Cleared)], locks := {0});
    bad := EMPTY.(locks := {0});
    Follow(d, EMPTY, Check(1, 0), s1);
    Follow(d, s1, TryLock(1), s2);
    Follow(d, s2, CreateFails(1), bad);
    assert 0 in bad.locks;
    forall h ensures !Holds(bad, h, 0) {}
  }

  // The run is finished, and the lock it held is not given back.
  lemma WithFailingUnlock(d: Deployment) returns (bad: State)
    requires d.unlockFails
    ensures Reaches(d, bad) && !LockExact(bad)
  {
    ReachesOneStarted(d);
    var s1 := ONE_STARTED.(workers := map[1 := Worker(1, 0, Executing)], delivered := {1});
    var s2 := s1.(workers := map[1 := Worker(1, 0, Finishing)], runs := map[1 := Run(0, Succeeded)]);
    bad := s2.(workers := map[]);
    Follow(d, ONE_STARTED, Deliver(1, 1), s1);
    Follow(d, s1, Finish(1, Succeeded), s2);
    Follow(d, s2, UnlockFails(1), bad);
    assert 0 in bad.locks;
    forall h ensures !Holds(bad, h, 0) {}
  }

  // ---------------------------------------------------------------- the main results

  // Mutual exclusion holds over every interleaving exactly in the deployments in which every caller
  // has Redis, no lock expires, no task is delivered twice and no execution dies half way.
  lemma MutualExclusion(d: Deployment)
    ensures (forall steps :: OneRunning(Exec(d, EMPTY, steps))) <==> Sound(d)
  {
    if Sound(d) {
      forall steps ensures OneRunning(Exec(d, EMPTY, steps)) {
        RunKeepsInv(d, steps);
        var st := Exec(d, EMPTY, steps);
        forall r1, r2 | r1 in st.runs && r2 in st.runs && st.runs[r1].status == Running && st.runs[r2] == st.runs[r1]
          ensures r1 == r2
        {
          assert Holds(st, Active(r1), st.runs[r1].source) && Holds(st, Active(r2), st.runs[r1].source);
        }
      }
    } else {
      var bad;
      if d.callerWithoutRedis { bad := WithoutRedis(d); }
      else if d.lockExpires { bad := WithExpiry(d); }
      else if d.redelivery { bad := WithRedelivery(d); }
      else { bad := WithStrayFault(d); }
      var steps :| Exec(d, EMPTY, steps) == bad;
      assert !OneRunning(Exec(d, EMPTY, steps));
    }
  }

  // The lock is an exact record of who is in flight exactly when, besides, no insert and no
  // release of a lock fails.
  lemma LockIsExact(d: Deployment)
    ensures (forall steps :: LockExact(Exec(d, EMPTY, steps))) <==> Sound(d) && !d.insertFails && !d.unlockFails
  {
    if Sound(d) && !d.insertFails && !d.unlockFails {
      forall steps ensures LockExact(Exec(d, EMPTY, steps)) {
        RunKeepsInv(d, steps);
        RunKeepsLocksHeld(d, steps);
      }
    } else {
      var bad;
      if d.callerWithoutRedis { bad := WithoutRedis(d); }
      else if d.lockExpires { bad := WithExpiry(d); }
      else if d.redelivery { bad := WithRedelivery(d); }
      else if d.strayFault { bad := WithStrayFault(d); }
      else if d.insertFails { bad := WithFailingInsert(d); }
      else { bad := WithFailingUnlock(d); }
      var steps :| Exec(d, EMPTY, steps) == bad;
      assert !LockExact(Exec(d, EMPTY, steps));
    }
  }
}
