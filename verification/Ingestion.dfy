// The ingestion service: starting a run, executing it, and the scheduler's pass over due sources.
module Ingestion {
  import opened Wrappers
  import opened Catalog
  import opened Normalizer
  import opened Fetching
  import opened Jobs
  import P = RunProtocol

  datatype Source = Source(userId: nat, kind: string, name: string)

  datatype ErrorSummary = NoErrors | MalformedRecords(count: nat) | Message(text: string)

  datatype IngestionRun = IngestionRun(
    sourceId: nat, startedAt: int, status: P.Status, completedAt: Option<int>, fetchedCount: nat, normalizedCount: nat,
    createdCount: nat, updatedCount: nat, duplicateCount: nat, errorCount: nat, errorSummary: ErrorSummary)

  function NewRun(sourceId: nat, now: int): IngestionRun {
    IngestionRun(sourceId, now, P.Running, None, 0, 0, 0, 0, 0, 0, NoErrors)
  }

  datatype StartOutcome =
    | SourceNotFound
    | UnsupportedSourceKind
    | AlreadyRunning(runId: nat)
    | LockTaken
    | InsertFailed
    | Started(runId: nat)

  // ---------------------------------------------------------------- a batch on the whole store

  function UpsertBatch(store: Store, source: nat, batch: seq<JobCandidate>, sha256: string -> string): Store {
    if batch == [] then store
    else
      var n := |batch| - 1;
      UpsertStore(UpsertBatch(store, source, batch[..n], sha256), source, batch[n], sha256)
  }

  lemma {:induction false} UpsertBatchCatalog(store: Store, source: nat, batch: seq<JobCandidate>,
                                              sha256: string -> string)
    requires Deduplicated(store)
    ensures
      var after := UpsertBatch(store, source, batch, sha256);
      && Deduplicated(after)
      && CatalogOf(after) == Ingest(CatalogOf(store), source, batch)
      && store.records <= after.records && |after.records| == |store.records| + |batch|
  {
    if batch != [] {
      var n := |batch| - 1;
      UpsertBatchCatalog(store, source, batch[..n], sha256);
      UpsertStoreCatalog(UpsertBatch(store, source, batch[..n], sha256), source, batch[n], sha256);
      UpsertKeepsDeduplicated(UpsertBatch(store, source, batch[..n], sha256), source, batch[n], sha256);
    }
  }

  // A source record written for a candidate.
  ghost predicate RecordOf(r: SourceRecord, source: nat, c: JobCandidate, sha256: string -> string) {
    && r.sourceId == source && r.externalId == c.externalId && r.sourceUrl == c.applicationUrl
    && r.rawPayload == c.rawPayload
    && r.rawPayloadHash == sha256(if c.rawPayload.Some? then c.rawPayload.value else "None")
  }

  lemma UpsertAppends(store: Store, source: nat, c: JobCandidate, sha256: string -> string)
    ensures
      var after := UpsertStore(store, source, c, sha256).records;
      |after| == |store.records| + 1 && after[..|store.records|] == store.records
      && RecordOf(after[|store.records|], source, c, sha256)
  {
  }

  lemma {:induction false} BatchAppends(store: Store, source: nat, batch: seq<JobCandidate>, sha256: string -> string)
    ensures
      var after := UpsertBatch(store, source, batch, sha256).records;
      && |after| == |store.records| + |batch| && after[..|store.records|] == store.records
      && forall k :: 0 <= k < |batch| ==> RecordOf(after[|store.records| + k], source, batch[k], sha256)
  {
    if batch != [] {
      var n := |batch| - 1;
      var prior := UpsertBatch(store, source, batch[..n], sha256);
      var after := UpsertBatch(store, source, batch, sha256).records;
      BatchAppends(store, source, batch[..n], sha256);
      UpsertAppends(prior, source, batch[n], sha256);
      assert after[..|prior.records|] == prior.records;
      forall k | 0 <= k < |batch| ensures RecordOf(after[|store.records| + k], source, batch[k], sha256) {
        if k < n { assert RecordOf(prior.records[|store.records| + k], source, batch[..n][k], sha256); }
      }
      assert after[..|store.records|] == prior.records[..|store.records|];
    }
  }

  // One source record is appended for every fetched record, in order, with what was fetched.
  lemma RecordsAppended(codec: Codec, store: Store, source: nat, records: seq<RawJobRecord>, company: string,
                        sha256: string -> string, k: nat)
    requires k < |records|
    ensures
      var after := UpsertBatch(store, source, NormalizeAll(codec, records, company), sha256).records;
      var raw := records[k];
      && |after| == |store.records| + |records| && after[..|store.records|] == store.records
      && var r := after[|store.records| + k];
      && r.sourceId == source && r.externalId == raw.externalId && r.sourceUrl == raw.applicationUrl
      && r.rawPayload == raw.rawPayload
      && r.rawPayloadHash == sha256(if raw.rawPayload.Some? then raw.rawPayload.value else "None")
  {
    var batch := NormalizeAll(codec, records, company);
    BatchAppends(store, source, batch, sha256);
    assert batch[k] == NormalizeRecord(codec, records[k], company);
  }

  // The finished row of a run whose fetch succeeded: every fetched record was created, updated or a
  // duplicate, and nothing was counted twice.
  ghost predicate Accounts(run: IngestionRun, before: Catalog, source: nat, batch: seq<JobCandidate>) {
    && run.fetchedCount == run.normalizedCount == |batch|
    && run.createdCount + run.updatedCount + run.duplicateCount == |batch|
    && run.createdCount == CreatedCount(before, source, batch)
    && run.updatedCount == UpdatedCount(before, source, batch)
    && |Ingest(before, source, batch).jobs| == |before.jobs| + run.createdCount
  }

  // What a retried run stores: the jobs of the final list alone, and one source record for every
  // record of every attempt.
  lemma RetriedRunStores(codec: Codec, store: Store, source: nat, company: string, provider: Provider, f: Fetched,
                         sha256: string -> string)
    requires Deduplicated(store)
    requires Outcome(provider, ATTEMPTS, f)
    requires forall i :: 0 <= i < f.made - 1 ==> provider(i).records <= provider(f.made - 1).records
    ensures
      var all := UpsertBatch(store, source, NormalizeAll(codec, f.records, company), sha256);
      var alone := UpsertBatch(store, source, NormalizeAll(codec, provider(f.made - 1).records, company), sha256);
      && all.jobs == alone.jobs && CatalogOf(all) == CatalogOf(alone)
      && |all.records| == |store.records| + |f.records|
  {
    UpsertBatchCatalog(store, source, NormalizeAll(codec, f.records, company), sha256);
    UpsertBatchCatalog(store, source, NormalizeAll(codec, provider(f.made - 1).records, company), sha256);
    RetriedFetch(codec, CatalogOf(store), source, company, provider, ATTEMPTS, f);
  }

  // The store and the counters after i candidates of a batch.
  ghost predicate Progress(start: Store, source: nat, batch: seq<JobCandidate>, sha256: string -> string, i: nat,
                           store: Store, created: nat, updated: nat)
    requires i <= |batch|
  {
    && store == UpsertBatch(start, source, batch[..i], sha256)
    && created == CreatedCount(CatalogOf(start), source, batch[..i])
    && updated == UpdatedCount(CatalogOf(start), source, batch[..i])
  }

  lemma BatchStep(start: Store, source: nat, batch: seq<JobCandidate>, sha256: string -> string, i: nat,
                  store: Store, created: nat, updated: nat)
    requires Deduplicated(start) && i < |batch|
    requires Progress(start, source, batch, sha256, i, store, created, updated)
    ensures Progress(start, source, batch, sha256, i + 1, UpsertStore(store, source, batch[i], sha256),
                     created + (if Creates(CatalogOf(store), source, batch[i]) then 1 else 0),
                     updated + (if Changes(CatalogOf(store), source, batch[i]) then 1 else 0))
  {
    UpsertBatchCatalog(start, source, batch[..i], sha256);
    assert batch[..i + 1][..i] == batch[..i];
  }

  // ---------------------------------------------------------------- the tables of a service

  datatype Tables = Tables(runs: map<nat, IngestionRun>, locks: set<nat>)

  predicate IsActive(run: IngestionRun, source: nat) {
    run.sourceId == source && run.status == P.Running
  }

  predicate HasActive(runs: map<nat, IngestionRun>, source: nat) {
    exists r :: r in runs && IsActive(runs[r], source)
  }

  // A running run of the source that no other one started after.
  predicate IsLatest(runs: map<nat, IngestionRun>, source: nat, r: nat) {
    r in runs && IsActive(runs[r], source)
    && forall q :: q in runs && IsActive(runs[q], source) ==> runs[q].startedAt <= runs[r].startedAt
  }

  lemma {:induction false} LatestExists(runs: map<nat, IngestionRun>, source: nat)
    requires HasActive(runs, source)
    ensures exists r :: IsLatest(runs, source, r)
    decreases |runs|
  {
    var r :| r in runs && IsActive(runs[r], source);
    var rest := runs - {r};
    if HasActive(rest, source) {
      LatestExists(rest, source);
      var q :| IsLatest(rest, source, q);
      var best := if runs[r].startedAt <= runs[q].startedAt then q else r;
      forall k | k in runs && IsActive(runs[k], source) ensures runs[k].startedAt <= runs[best].startedAt {
        if k != r { assert k in rest; }
      }
      assert IsLatest(runs, source, best);
    } else {
      forall k | k in runs && IsActive(runs[k], source) ensures k == r {
        assert k == r || k in rest;
      }
      assert IsLatest(runs, source, r);
    }
  }

  // The tables as a state of the protocol with nobody in flight.
  function Quiet(t: Tables): P.State {
    P.State(t.locks, map r | r in t.runs :: P.Run(t.runs[r].sourceId, t.runs[r].status), map[], map[], {})
  }

  function DeploymentOf(hasRedis: bool): P.Deployment {
    P.Deployment(!hasRedis, true, true, true, true, true)
  }

  // Taking the lock is the last step that can refuse; the insert may still fail.
  function TablesAfterStart(t: Tables, source: nat, newId: nat, hasRedis: bool, insertFails: bool, now: int): Tables {
    if HasActive(t.runs, source) || (hasRedis && source in t.locks) then t
    else
      Tables(if insertFails then t.runs else t.runs[newId := NewRun(source, now)],
             if hasRedis then t.locks + {source} else t.locks)
  }

  // The check: a caller gets past it exactly when the source has no running run.
  lemma CheckStep(t: Tables, source: nat, d: P.Deployment)
    ensures P.Apply(d, Quiet(t), P.Check(0, source))
         == if HasActive(t.runs, source) then Quiet(t)
            else Quiet(t).(starters := map[0 := P.Starter(source, P.Checked)])
  {
    var st := Quiet(t);
    if HasActive(t.runs, source) {
      var r :| r in t.runs && IsActive(t.runs[r], source);
      assert st.runs[r] == P.Run(source, P.Running);
    } else {
      assert !P.HasRunning(st, source);
    }
  }

  // The lock: with Redis only a free one is taken.
  lemma LockStep(st: P.State, source: nat, hasRedis: bool)
    requires st.starters == map[0 := P.Starter(source, P.Checked)]
    ensures P.Apply(DeploymentOf(hasRedis), st, if hasRedis then P.TryLock(0) else P.SkipLock(0))
         == if hasRedis && source in st.locks then st.(starters := map[])
            else st.(starters := map[0 := P.Starter(source, P.Cleared)],
                     locks := if hasRedis then st.locks + {source} else st.locks)
  {
    assert st.starters - {0} == map[];
    assert st.starters[0 := P.Starter(source, P.Cleared)] == map[0 := P.Starter(source, P.Cleared)];
  }

  // The insert, or its failure, of a caller that is past the lock; nobody else is in flight.
  lemma InsertStep(st: P.State, source: nat, newId: nat, insertFails: bool, hasRedis: bool)
    requires newId !in st.runs
    requires st.starters == map[] || st.starters == map[0 := P.Starter(source, P.Cleared)]
    ensures P.Apply(DeploymentOf(hasRedis), st, if insertFails then P.CreateFails(0) else P.CreateRun(0, newId))
         == if st.starters == map[] || insertFails then st.(starters := map[])
            else st.(starters := map[], runs := st.runs[newId := P.Run(source, P.Running)])
  {
    assert st.starters - {0} == map[];
  }

  // An uninterrupted start is the protocol's check, lock and insert steps.
  lemma StartFollowsProtocol(t: Tables, source: nat, newId: nat, hasRedis: bool, insertFails: bool, now: int)
    requires newId !in t.runs
    ensures Quiet(TablesAfterStart(t, source, newId, hasRedis, insertFails, now))
         == P.Exec(DeploymentOf(hasRedis), Quiet(t),
                   [P.Check(0, source), if hasRedis then P.TryLock(0) else P.SkipLock(0),
                    if insertFails then P.CreateFails(0) else P.CreateRun(0, newId)])
  {
    var d := DeploymentOf(hasRedis);
    var st := Quiet(t);
    var take := if hasRedis then P.TryLock(0) else P.SkipLock(0);
    var insert := if insertFails then P.CreateFails(0) else P.CreateRun(0, newId);
    ThreeSteps(d, st, P.Check(0, source), take, insert);
    CheckStep(t, source, d);
    if HasActive(t.runs, source) {
      assert P.Apply(d, st, take) == st;
      InsertStep(st, source, newId, insertFails, hasRedis);
    } else {
      var checked := st.(starters := map[0 := P.Starter(source, P.Checked)]);
      LockStep(checked, source, hasRedis);
      InsertStep(P.Apply(d, checked, take), source, newId, insertFails, hasRedis);
      QuietInsert(t, newId, NewRun(source, now));
    }
  }

  lemma QuietInsert(t: Tables, id: nat, run: IngestionRun)
    ensures Quiet(t.(runs := t.runs[id := run])).runs == Quiet(t).runs[id := P.Run(run.sourceId, run.status)]
  {
  }

  function FinishedRun(run: IngestionRun, status: P.Status, fetched: nat, errors: nat, summary: ErrorSummary,
                       created: nat, updated: nat, duplicate: nat, now: int): IngestionRun {
    IngestionRun(run.sourceId, run.startedAt, status, Some(now), fetched, fetched,
                 created, updated, duplicate, errors, summary)
  }

  // What may go wrong around a fetch: the database fails after that many records were stored, or in
  // writing the final status when there are no more; and giving the lock back fails.
  datatype Trouble = Trouble(database: Option<nat>, unlock: bool)

  function SuccessStatus(f: Fetched): P.Status {
    if f.malformed > 0 then P.Partial else P.Succeeded
  }

  function SuccessSummary(f: Fetched): ErrorSummary {
    if f.malformed > 0 then MalformedRecords(f.malformed) else NoErrors
  }

  function RunAfterSuccess(run: IngestionRun, f: Fetched, created: nat, updated: nat, duplicate: nat,
                           now: int): IngestionRun {
    FinishedRun(run, SuccessStatus(f), |f.records|, f.malformed, SuccessSummary(f), created, updated, duplicate, now)
  }

  function RunAfterFailure(run: IngestionRun, f: Fetched, message: string, now: int): IngestionRun {
    FinishedRun(run, P.Failed, |f.records|, 1, Message(message), 0, 0, 0, now)
  }

  // Whether the execution dies of something that is not an adapter error.
  predicate Dies(f: Fetched, trouble: Trouble) {
    f.fault == Some(OtherError) || trouble.database.Some?
  }

  // Only a success or an adapter error finishes the run.
  function RunsAfterExecution(runs: map<nat, IngestionRun>, runId: nat, f: Fetched, trouble: Trouble,
                              created: nat, updated: nat, duplicate: nat, now: int): map<nat, IngestionRun> {
    if runId !in runs || Dies(f, trouble) then runs
    else if f.fault.None? then runs[runId := RunAfterSuccess(runs[runId], f, created, updated, duplicate, now)]
    else runs[runId := RunAfterFailure(runs[runId], f, f.fault.value.message, now)]
  }

  // The lock is given back however the execution ended.
  function TablesAfterExecution(t: Tables, runId: nat, f: Fetched, trouble: Trouble, source: Option<nat>,
                                hasRedis: bool, created: nat, updated: nat, duplicate: nat, now: int): Tables {
    Tables(
      RunsAfterExecution(t.runs, runId, f, trouble, created, updated, duplicate, now),
      if hasRedis && source.Some? && !trouble.unlock then t.locks - {source.value} else t.locks)
  }

  // An uninterrupted execution is the protocol's delivery, finish (or fault) and unlock (or its failure).
  lemma ExecutionFollowsProtocol(t: Tables, runId: nat, f: Fetched, trouble: Trouble,
                                 created: nat, updated: nat, duplicate: nat, now: int)
    requires runId in t.runs
    ensures
      var source := t.runs[runId].sourceId;
      var after := TablesAfterExecution(t, runId, f, trouble, Some(source), true, created, updated, duplicate, now);
      var ending := if Dies(f, trouble) then P.Fault(0) else P.Finish(0, after.runs[runId].status);
      var release := if trouble.unlock then P.UnlockFails(0) else P.Unlock(0);
      Quiet(after).(delivered := {runId})
          == P.Exec(DeploymentOf(true), Quiet(t), [P.Deliver(0, runId), ending, release])
  {
    var d := DeploymentOf(true);
    var st := Quiet(t);
    var source := t.runs[runId].sourceId;
    var after := TablesAfterExecution(t, runId, f, trouble, Some(source), true, created, updated, duplicate, now);
    var ending := if Dies(f, trouble) then P.Fault(0) else P.Finish(0, after.runs[runId].status);
    var release := if trouble.unlock then P.UnlockFails(0) else P.Unlock(0);
    ThreeSteps(d, st, P.Deliver(0, runId), ending, release);
    var working := st.(workers := map[0 := P.Worker(runId, source, P.Executing)], delivered := {runId});
    assert P.Apply(d, st, P.Deliver(0, runId)) == working;
    if !Dies(f, trouble) { QuietInsert(t, runId, after.runs[runId]); }
    EndingStep(working, runId, source, ending, Quiet(after).runs);
    var ended := working.(workers := map[0 := P.Worker(runId, source, P.Finishing)], runs := Quiet(after).runs);
    assert ended.workers - {0} == map[];
    assert P.Apply(d, ended, release) == Quiet(after).(delivered := {runId});
  }

  lemma EndingStep(st: P.State, runId: nat, source: nat, ending: P.Step, runs: map<nat, P.Run>)
    requires st.workers == map[0 := P.Worker(runId, source, P.Executing)] && runId in st.runs
    requires || (ending == P.Fault(0) && runs == st.runs)
             || (ending.Finish? && ending.worker == 0 && ending.status != P.Running
                 && runs == st.runs[runId := P.Run(st.runs[runId].source, ending.status)])
    ensures P.Apply(DeploymentOf(true), st, ending)
         == st.(workers := map[0 := P.Worker(runId, source, P.Finishing)], runs := runs)
  {
    assert st.workers[0 := P.Worker(runId, source, P.Finishing)] == map[0 := P.Worker(runId, source, P.Finishing)];
  }

  // ---------------------------------------------------------------- what an execution stores

  // Of the fetched records, those before the database fails.
  function Reached(f: Fetched, trouble: Trouble): seq<RawJobRecord> {
    if trouble.database.Some? && trouble.database.value < |f.records| then f.records[..trouble.database.value]
    else f.records
  }

  // The store and the counters after these records; without a source or a company nothing is stored.
  ghost predicate Stores(codec: Codec, sha256: string -> string, before: Store, after: Store,
                         records: seq<RawJobRecord>, source: Option<nat>, company: Option<string>,
                         created: nat, updated: nat, duplicate: nat) {
    if source.Some? && company.Some? then
      StoresBatch(before, after, source.value, NormalizeAll(codec, records, company.value), sha256,
                  created, updated, duplicate)
    else after == before && created == updated == duplicate == 0
  }

  ghost predicate StoresBatch(before: Store, after: Store, source: nat, batch: seq<JobCandidate>,
                              sha256: string -> string, created: nat, updated: nat, duplicate: nat) {
    && after == UpsertBatch(before, source, batch, sha256)
    && created == CreatedCount(CatalogOf(before), source, batch)
    && updated == UpdatedCount(CatalogOf(before), source, batch)
    && created + updated + duplicate == |batch|
    && |after.jobs| == |before.jobs| + created
    && |after.records| == |before.records| + |batch|
  }

  // How the runs table ends, field by field: a success or an adapter error finishes exactly this run;
  // anything else, and any failure of the database, leaves the table as it was.
  ghost predicate RunEnded(before: map<nat, IngestionRun>, after: map<nat, IngestionRun>, runId: nat, f: Fetched,
                           trouble: Trouble, created: nat, updated: nat, duplicate: nat, now: int) {
    if runId !in before || f.fault == Some(OtherError) || trouble.database.Some? then after == before
    else
      && runId in after && after == before[runId := after[runId]]
      && var run := after[runId];
      && run.sourceId == before[runId].sourceId && run.startedAt == before[runId].startedAt
      && run.completedAt == Some(now) && run.fetchedCount == run.normalizedCount == |f.records|
      && (f.fault.None? ==>
            && run.status == (if f.malformed > 0 then P.Partial else P.Succeeded)
            && run.errorCount == f.malformed
            && run.errorSummary == (if f.malformed > 0 then MalformedRecords(f.malformed) else NoErrors)
            && run.createdCount == created && run.updatedCount == updated && run.duplicateCount == duplicate)
      && (f.fault.Some? ==>
            && run.status == P.Failed && run.errorCount == 1
            && run.errorSummary == Message(f.fault.value.message)
            && run.createdCount == run.updatedCount == run.duplicateCount == 0)
  }

  // How the store ends: with the fetched records upserted in order, up to a failure of the database,
  // when the fetch succeeded, the run is there and source and company are given; otherwise as it was.
  ghost predicate StoreEnded(codec: Codec, sha256: string -> string, before: Store, after: Store, present: bool,
                             f: Fetched, trouble: Trouble, source: Option<nat>, company: Option<string>,
                             created: nat, updated: nat, duplicate: nat) {
    if f.fault.None? && present && source.Some? && company.Some? then
      var n := if trouble.database.Some? && trouble.database.value < |f.records| then trouble.database.value
               else |f.records|;
      StoresBatch(before, after, source.value, NormalizeAll(codec, f.records[..n], company.value), sha256,
                  created, updated, duplicate)
    else after == before && created == updated == duplicate == 0
  }

  lemma RunEndsInFields(runs: map<nat, IngestionRun>, runId: nat, f: Fetched, trouble: Trouble,
                        created: nat, updated: nat, duplicate: nat, now: int)
    ensures RunEnded(runs, RunsAfterExecution(runs, runId, f, trouble, created, updated, duplicate, now),
                     runId, f, trouble, created, updated, duplicate, now)
  {
  }

  lemma ReachedInFields(f: Fetched, trouble: Trouble)
    ensures Reached(f, trouble)
         == f.records[..if trouble.database.Some? && trouble.database.value < |f.records| then trouble.database.value
                        else |f.records|]
  {
    assert f.records[..|f.records|] == f.records;
  }

  lemma BatchAccounts(before: Catalog, source: nat, batch: seq<JobCandidate>, run: IngestionRun)
    requires run.fetchedCount == run.normalizedCount == |batch|
    requires run.createdCount == CreatedCount(before, source, batch)
    requires run.updatedCount == UpdatedCount(before, source, batch)
    requires run.createdCount + run.updatedCount + run.duplicateCount == |batch|
    ensures Accounts(run, before, source, batch)
  {
    CountsAddUp(before, source, batch);
  }

  // The finished row of a run that ended well accounts for all that was fetched.
  ghost predicate Accounted(codec: Codec, before: Store, runs: map<nat, IngestionRun>, runId: nat, f: Fetched,
                            trouble: Trouble, source: Option<nat>, company: Option<string>) {
    f.fault.None? && trouble.database.None? && runId in runs && source.Some? && company.Some? ==>
      Accounts(runs[runId], CatalogOf(before), source.value, NormalizeAll(codec, f.records, company.value))
  }

  lemma EndedAccounts(codec: Codec, sha256: string -> string, before: Store, after: Store,
                      runs: map<nat, IngestionRun>, runId: nat, f: Fetched, trouble: Trouble,
                      source: Option<nat>, company: Option<string>,
                      created: nat, updated: nat, duplicate: nat, now: int)
    requires Stores(codec, sha256, before, after, Reached(f, trouble), source, company, created, updated, duplicate)
    requires runId in runs && runs[runId] == RunAfterSuccess(runs[runId], f, created, updated, duplicate, now)
    ensures Accounted(codec, before, runs, runId, f, trouble, source, company)
  {
    if trouble.database.None? && source.Some? && company.Some? {
      BatchAccounts(CatalogOf(before), source.value, NormalizeAll(codec, f.records, company.value), runs[runId]);
    }
  }


  // A run that dies after some records of a batch, and is executed again with the whole of it, leaves
  // the jobs of one complete execution, and both together create as many jobs as that one would.
  lemma InterruptedRunRecovers(store: Store, source: nat, batch: seq<JobCandidate>, m: nat, sha256: string -> string)
    requires Deduplicated(store) && m <= |batch|
    ensures
      var died := UpsertBatch(store, source, batch[..m], sha256);
      var again := UpsertBatch(died, source, batch, sha256);
      var alone := UpsertBatch(store, source, batch, sha256);
      && again.jobs == alone.jobs && CatalogOf(again) == CatalogOf(alone)
      && CreatedCount(CatalogOf(store), source, batch[..m]) + CreatedCount(CatalogOf(died), source, batch)
         == CreatedCount(CatalogOf(store), source, batch)
      && |again.records| == |store.records| + m + |batch|
  {
    var cat := CatalogOf(store);
    var died := UpsertBatch(store, source, batch[..m], sha256);
    UpsertBatchCatalog(store, source, batch[..m], sha256);
    UpsertBatchCatalog(died, source, batch, sha256);
    UpsertBatchCatalog(store, source, batch, sha256);
    IngestAppend(cat, source, batch[..m], batch);
    AbsorbPrefix(cat, source, batch[..m], batch);
    CountsAddUp(cat, source, batch[..m]);
    CountsAddUp(CatalogOf(died), source, batch);
    CountsAddUp(cat, source, batch);
  }

  lemma ThreeSteps(d: P.Deployment, st: P.State, a: P.Step, b: P.Step, c: P.Step)
    ensures P.Exec(d, st, [a, b, c]) == P.Apply(d, P.Apply(d, P.Apply(d, st, a), b), c)
  {
    P.ExecSnoc(d, st, [], a);
    P.ExecSnoc(d, st, [a], b);
    P.ExecSnoc(d, st, [a, b], c);
    assert [] + [a] == [a] && [a] + [b] == [a, b] && [a, b] + [c] == [a, b, c];
  }

  // The new runs are exactly the queued ones, each queued once under its source and not yet executed;
  // the earlier runs are as before.
  ghost predicate Queued(before: map<nat, IngestionRun>, runs: map<nat, IngestionRun>, queue: seq<(nat, nat)>,
                         now: int) {
    && (forall r :: r in before ==> r in runs && runs[r] == before[r])
    && (forall r :: r in runs && r !in before ==> exists k :: 0 <= k < |queue| && queue[k].1 == r)
    && (forall k :: 0 <= k < |queue| ==>
        queue[k].1 !in before && queue[k].1 in runs && runs[queue[k].1] == NewRun(queue[k].0, now))
    && (forall k, m :: 0 <= k < m < |queue| ==> queue[k].1 != queue[m].1)
  }

  lemma QueueOne(before: map<nat, IngestionRun>, runs: map<nat, IngestionRun>, queue: seq<(nat, nat)>, now: int,
                 source: nat, id: nat)
    requires Queued(before, runs, queue, now) && id !in runs
    ensures Queued(before, runs[id := NewRun(source, now)], queue + [(source, id)], now)
  {
    var after := runs[id := NewRun(source, now)];
    var longer := queue + [(source, id)];
    forall r | r in after && r !in before ensures exists k :: 0 <= k < |longer| && longer[k].1 == r {
      if r == id {
        assert longer[|queue|].1 == r;
      } else {
        var k :| 0 <= k < |queue| && queue[k].1 == r;
        assert longer[k].1 == r;
      }
    }
  }

  class IngestionService {
    const jobRepository: JobRepository
    const codec: Codec
    const adapters: set<string>
    const hasRedis: bool
    var sources: map<nat, Source>
    var runs: map<nat, IngestionRun>
    var locks: set<nat>
    var tasks: seq<(nat, nat)>

    constructor (jobRepository: JobRepository, codec: Codec, adapters: set<string>, hasRedis: bool,
                 sources: map<nat, Source>)
      ensures this.jobRepository == jobRepository && this.codec == codec && this.adapters == adapters
          && this.hasRedis == hasRedis
      ensures this.sources == sources && runs == map[] && locks == {} && tasks == []
    {
      this.jobRepository, this.codec, this.adapters, this.hasRedis := jobRepository, codec, adapters, hasRedis;
      this.sources := sources;
      runs, locks, tasks := map[], {}, [];
    }

    ghost function Held(): Tables
      reads this
    {
      Tables(runs, locks)
    }

    static predicate Refused(outcome: StartOutcome) {
      outcome == SourceNotFound || outcome == UnsupportedSourceKind
    }

    predicate Visible(sourceId: nat, userId: Option<nat>)
      reads this`sources
    {
      sourceId in sources && (userId.Some? ==> sources[sourceId].userId == userId.value)
    }

    method GetActiveRun(sourceId: nat) returns (active: Option<nat>)
      ensures active.Some? <==> HasActive(runs, sourceId)
      ensures active.Some? ==> IsLatest(runs, sourceId, active.value)
      ensures active.None? ==> forall r :: r in runs && runs[r].sourceId == sourceId ==> runs[r].status != P.Running
      ensures active.Some? ==>
        && active.value in runs && runs[active.value].sourceId == sourceId && runs[active.value].status == P.Running
        && forall r :: r in runs && runs[r].sourceId == sourceId && runs[r].status == P.Running ==>
             runs[r].startedAt <= runs[active.value].startedAt
    {
      if !HasActive(runs, sourceId) {
        return None;
      }
      LatestExists(runs, sourceId);
      assert exists r :: r in runs && IsLatest(runs, sourceId, r);
      var r :| r in runs && IsLatest(runs, sourceId, r);
      return Some(r);
    }

    // The run row is inserted only after the lock was taken, and inserting it may fail.
    method StartRun(sourceId: nat, userId: Option<nat>, newId: nat, insertFails: bool, now: int)
      returns (outcome: StartOutcome)
      requires newId !in runs
      modifies this`runs, this`locks
      ensures outcome == SourceNotFound
         <==> sourceId !in sources || (userId.Some? && sources[sourceId].userId != userId.value)
      ensures outcome == UnsupportedSourceKind
         <==> outcome != SourceNotFound && sources[sourceId].kind !in adapters
      ensures Refused(outcome) ==> Held() == old(Held())
      ensures !Refused(outcome) ==>
        && Held() == TablesAfterStart(old(Held()), sourceId, newId, hasRedis, insertFails, now)
        && (outcome.AlreadyRunning? <==> HasActive(old(runs), sourceId))
        && (outcome.AlreadyRunning? ==> IsLatest(old(runs), sourceId, outcome.runId))
        && (outcome == LockTaken <==> !HasActive(old(runs), sourceId) && hasRedis && sourceId in old(locks))
        && (!outcome.AlreadyRunning? && outcome != LockTaken ==>
              outcome == if insertFails then InsertFailed else Started(newId))
      ensures runs == if outcome != Started(newId) then old(runs)
                      else old(runs)[newId := IngestionRun(sourceId, now, P.Running, None, 0, 0, 0, 0, 0, 0, NoErrors)]
      ensures locks == if hasRedis && outcome in {Started(newId), InsertFailed} then old(locks) + {sourceId}
                       else old(locks)
    {
      if !Visible(sourceId, userId) {
        return SourceNotFound;
      }
      if sources[sourceId].kind !in adapters {
        return UnsupportedSourceKind;
      }
      var active := GetActiveRun(sourceId);
      if active.Some? {
        return AlreadyRunning(active.value);
      }
      if hasRedis {
        if sourceId in locks {
          return LockTaken;
        }
        locks := locks + {sourceId};
      }
      if insertFails {
        return InsertFailed;
      }
      runs := runs[newId := NewRun(sourceId, now)];
      return Started(newId);
    }

    method FinishRun(runId: nat, status: P.Status, fetchedCount: nat, errorCount: nat, errorSummary: ErrorSummary,
                     createdCount: nat, updatedCount: nat, duplicateCount: nat, now: int)
      requires runId in runs
      modifies this`runs
      ensures runs == old(runs)[runId := FinishedRun(old(runs)[runId], status, fetchedCount, errorCount, errorSummary,
                                                     createdCount, updatedCount, duplicateCount, now)]
    {
      var run := runs[runId];
      run := run.(status := status, completedAt := Some(now));
      run := run.(fetchedCount := fetchedCount, normalizedCount := fetchedCount);
      run := run.(errorCount := errorCount, errorSummary := errorSummary);
      run := run.(createdCount := createdCount, updatedCount := updatedCount, duplicateCount := duplicateCount);
      runs := runs[runId := run];
    }

    // What happens after a fetch that succeeded, for a run that is still there.
    method StoreFetched(runId: nat, f: Fetched, trouble: Trouble, sourceId: Option<nat>, companyName: Option<string>,
                        now: int)
      returns (created: nat, updated: nat, duplicate: nat)
      requires Deduplicated(jobRepository.Stored())
      requires f.fault.None? && runId in runs
      modifies this`runs, jobRepository
      ensures Deduplicated(jobRepository.Stored())
      ensures runs == if trouble.database.Some? then old(runs)
                      else old(runs)[runId := RunAfterSuccess(old(runs)[runId], f, created, updated, duplicate, now)]
      ensures StoreEnded(codec, jobRepository.sha256, old(jobRepository.Stored()), jobRepository.Stored(),
                         true, f, trouble, sourceId, companyName, created, updated, duplicate)
      ensures Accounted(codec, old(jobRepository.Stored()), runs, runId, f, trouble, sourceId, companyName)
    {
      ReachedInFields(f, trouble);
      ghost var store := jobRepository.Stored();
      created, updated, duplicate := IngestFor(Reached(f, trouble), sourceId, companyName);
      if trouble.database.None? {
        FinishRun(runId, SuccessStatus(f), |f.records|, f.malformed, SuccessSummary(f),
                  created, updated, duplicate, now);
        EndedAccounts(codec, jobRepository.sha256, store, jobRepository.Stored(), runs, runId, f, trouble,
                      sourceId, companyName, created, updated, duplicate, now);
      }
    }

    // Nothing is ingested for a run without a source or a company.
    method IngestFor(fetched: seq<RawJobRecord>, sourceId: Option<nat>, companyName: Option<string>)
      returns (created: nat, updated: nat, duplicate: nat)
      requires Deduplicated(jobRepository.Stored())
      modifies jobRepository
      ensures Deduplicated(jobRepository.Stored())
      ensures Stores(codec, jobRepository.sha256, old(jobRepository.Stored()), jobRepository.Stored(),
                     fetched, sourceId, companyName, created, updated, duplicate)
    {
      created, updated, duplicate := 0, 0, 0;
      if sourceId.Some? && companyName.Some? {
        created, updated, duplicate := IngestRecords(fetched, sourceId.value, companyName.value);
      }
    }

    // What happens between the fetch and the release of the lock.
    method Conclude(runId: nat, f: Fetched, trouble: Trouble, sourceId: Option<nat>, companyName: Option<string>,
                    now: int)
      returns (created: nat, updated: nat, duplicate: nat)
      requires Deduplicated(jobRepository.Stored())
      modifies this`runs, jobRepository
      ensures Deduplicated(jobRepository.Stored())
      ensures runs == RunsAfterExecution(old(runs), runId, f, trouble, created, updated, duplicate, now)
      ensures RunEnded(old(runs), runs, runId, f, trouble, created, updated, duplicate, now)
      ensures StoreEnded(codec, jobRepository.sha256, old(jobRepository.Stored()), jobRepository.Stored(),
                         runId in old(runs), f, trouble, sourceId, companyName, created, updated, duplicate)
      ensures runId in old(runs) ==>
        Accounted(codec, old(jobRepository.Stored()), runs, runId, f, trouble, sourceId, companyName)
    {
      if f.fault.None? && runId in runs {
        created, updated, duplicate := StoreFetched(runId, f, trouble, sourceId, companyName, now);
      } else {
        created, updated, duplicate := 0, 0, 0;
        if f.fault.Some? && f.fault.value.AdapterError? && runId in runs && trouble.database.None? {
          FinishRun(runId, P.Failed, |f.records|, 1, Message(f.fault.value.message), 0, 0, 0, now);
        }
      }
      RunEndsInFields(old(runs), runId, f, trouble, created, updated, duplicate, now);
    }

    method ExecuteRun(runId: nat, provider: Provider, trouble: Trouble, kind: string, sourceId: Option<nat>,
                      companyName: Option<string>, now: int)
      returns (f: Fetched, created: nat, updated: nat, duplicate: nat)
      requires Deduplicated(jobRepository.Stored())
      modifies this`runs, this`locks, jobRepository
      ensures Deduplicated(jobRepository.Stored())
      ensures kind !in adapters ==> Held() == old(Held()) && jobRepository.Stored() == old(jobRepository.Stored())
      ensures kind in adapters ==>
        && Outcome(provider, 3, f) && f.records == Accumulated(provider, f.made)
        && Held() == TablesAfterExecution(old(Held()), runId, f, trouble, sourceId, hasRedis,
                                          created, updated, duplicate, now)
        && RunEnded(old(runs), runs, runId, f, trouble, created, updated, duplicate, now)
        && StoreEnded(codec, jobRepository.sha256, old(jobRepository.Stored()), jobRepository.Stored(),
                      runId in old(runs), f, trouble, sourceId, companyName, created, updated, duplicate)
        && locks == old(locks) - (if hasRedis && !trouble.unlock && sourceId.Some? then {sourceId.value} else {})
      ensures kind in adapters && runId in old(runs) ==>
        runId in runs && Accounted(codec, old(jobRepository.Stored()), runs, runId, f, trouble, sourceId, companyName)
    {
      created, updated, duplicate := 0, 0, 0;
      if kind !in adapters {
        f := Fetched([], 0, 0, Some(OtherError));
        return;
      }
      f := WithRetries(provider, ATTEMPTS);
      created, updated, duplicate := Conclude(runId, f, trouble, sourceId, companyName, now);
      if hasRedis && sourceId.Some? && !trouble.unlock {
        locks := locks - {sourceId.value};
      }
    }

    method IngestRecords(fetched: seq<RawJobRecord>, sourceId: nat, companyName: string)
      returns (created: nat, updated: nat, duplicate: nat)
      requires Deduplicated(jobRepository.Stored())
      modifies jobRepository
      ensures Deduplicated(jobRepository.Stored())
      ensures StoresBatch(old(jobRepository.Stored()), jobRepository.Stored(), sourceId,
                          NormalizeAll(codec, fetched, companyName), jobRepository.sha256, created, updated, duplicate)
    {
      ghost var batch := NormalizeAll(codec, fetched, companyName);
      ghost var start := jobRepository.Stored();
      created, updated, duplicate := 0, 0, 0;
      for i := 0 to |fetched|
        invariant Deduplicated(jobRepository.Stored())
        invariant Progress(start, sourceId, batch, jobRepository.sha256, i, jobRepository.Stored(), created, updated)
        invariant created + updated + duplicate == i
      {
        BatchStep(start, sourceId, batch, jobRepository.sha256, i, jobRepository.Stored(), created, updated);
        var candidate := NormalizeRecord(codec, fetched[i], companyName);
        var _, isNew, changed := jobRepository.Upsert(sourceId, candidate);
        created := created + (if isNew then 1 else 0);
        updated := updated + (if changed then 1 else 0);
        duplicate := duplicate + (if !isNew && !changed then 1 else 0);
      }
      assert batch[..|fetched|] == batch;
      UpsertBatchCatalog(start, sourceId, batch, jobRepository.sha256);
      CountsAddUp(CatalogOf(start), sourceId, batch);
    }

    // One pass of the scheduler: every run it starts is queued exactly once. A failing insert ends the
    // pass; the sources that cannot be started do not.
    method ScheduleDueSources(due: seq<nat>, newIds: seq<nat>, insertFails: nat -> bool, now: int)
      returns (scheduled: nat)
      requires |newIds| == |due|
      requires forall i :: 0 <= i < |newIds| ==> newIds[i] !in runs
      requires forall i, j :: 0 <= i < j < |newIds| ==> newIds[i] != newIds[j]
      modifies this`runs, this`locks, this`tasks
      ensures old(tasks) <= tasks && |tasks| == old(|tasks|) + scheduled
      ensures Queued(old(runs), runs, tasks[old(|tasks|)..], now)
      ensures PassDone(Situation(sources, adapters, hasRedis, old(runs), old(locks)), due, insertFails,
                       tasks[old(|tasks|)..])
    {
      ghost var before := tasks;
      ghost var first := Situation(sources, adapters, hasRedis, runs, locks);
      ghost var queue := [];
      scheduled := 0;
      for i := 0 to |due|
        invariant tasks == before + queue && |queue| == scheduled
        invariant PassFits(first, due, i, runs, locks, queue, now)
        invariant forall k :: i <= k < |newIds| ==> newIds[k] !in runs
      {
        var outcome := ScheduleOne(first, due, i, queue, newIds[i], insertFails(i), now);
        if outcome == InsertFailed {
          PassEnds(first, due, i, insertFails, queue);
          assert tasks[|before|..] == queue;
          return;
        }
        if outcome.Started? {
          scheduled := scheduled + 1;
          queue := queue + [(due[i], newIds[i])];
        }
      }
      PassEnds(first, due, |due|, insertFails, queue);
      assert tasks[|before|..] == queue;
    }

    // One due source: a run that could be started is queued.
    method ScheduleOne(ghost first: Situation, due: seq<nat>, i: nat, ghost queue: seq<(nat, nat)>, newId: nat,
                       insertFails: bool, now: int)
      returns (outcome: StartOutcome)
      requires i < |due| && newId !in runs
      requires first.sources == sources && first.adapters == adapters && first.hasRedis == hasRedis
      requires PassFits(first, due, i, runs, locks, queue, now)
      modifies this`runs, this`locks, this`tasks
      ensures outcome == InsertFailed ==>
        && insertFails && runs == old(runs) && tasks == old(tasks)
        && PassKeeps(first, due, i, queue) && Queued(first.runs, runs, queue, now)
      ensures outcome.Started? ==>
        && runs.Keys == old(runs).Keys + {newId} && tasks == old(tasks) + [(due[i], newId)]
        && PassFits(first, due, i + 1, runs, locks, queue + [(due[i], newId)], now)
      ensures outcome != InsertFailed && !outcome.Started? ==>
        runs == old(runs) && tasks == old(tasks) && PassFits(first, due, i + 1, runs, locks, queue, now)
    {
      var owner := if due[i] in sources then Some(sources[due[i]].userId) else None;
      ghost var priorRuns, priorLocks := runs, locks;
      outcome := StartRun(due[i], owner, newId, insertFails, now);
      if outcome.Started? {
        tasks := tasks + [(due[i], outcome.runId)];
        PassStarts(first, due, i, priorRuns, priorLocks, queue, now, newId);
      } else if outcome != InsertFailed {
        PassSkips(first, due, i, priorRuns, priorLocks, queue, now);
      }
    }
  }

  // ---------------------------------------------------------------- a pass of the scheduler

  // What a pass finds when it begins.
  datatype Situation = Situation(
    sources: map<nat, Source>, adapters: set<string>, hasRedis: bool, runs: map<nat, IngestionRun>, locks: set<nat>)

  // Whether the pass starts a run for a source: it is due, it is there and of a known kind, no run of
  // it was going on and nobody held its lock.
  ghost predicate CanStart(first: Situation, due: seq<nat>, s: nat) {
    && s in due && s in first.sources && first.sources[s].kind in first.adapters
    && !HasActive(first.runs, s) && !(first.hasRedis && s in first.locks)
  }

  ghost predicate NoFailureUpTo(insertFails: nat -> bool, i: nat) {
    forall m: nat :: m <= i ==> !insertFails(m)
  }

  ghost predicate Queues(queue: seq<(nat, nat)>, s: nat) {
    exists k :: 0 <= k < |queue| && queue[k].0 == s
  }

  // Where a pass is after the first i due sources.
  ghost predicate PassKeeps(first: Situation, due: seq<nat>, i: nat, queue: seq<(nat, nat)>) {
    && i <= |due|
    && (forall k :: 0 <= k < |queue| ==> CanStart(first, due, queue[k].0))
    && (forall k, m :: 0 <= k < m < |queue| ==> queue[k].0 != queue[m].0)
    && (forall k :: 0 <= k < i && CanStart(first, due, due[k]) ==> Queues(queue, due[k]))
  }

  ghost predicate PassFits(first: Situation, due: seq<nat>, i: nat, runs: map<nat, IngestionRun>, locks: set<nat>,
                           queue: seq<(nat, nat)>, now: int) {
    && PassKeeps(first, due, i, queue) && Queued(first.runs, runs, queue, now)
    && (forall s :: s in locks <==> s in first.locks || (first.hasRedis && Queues(queue, s)))
  }

  // What a pass did: it queued only sources that could be started, each once, and all of these up to the
  // first failing insert.
  ghost predicate PassDone(first: Situation, due: seq<nat>, insertFails: nat -> bool, queue: seq<(nat, nat)>) {
    && (forall k :: 0 <= k < |queue| ==> CanStart(first, due, queue[k].0))
    && (forall k, m :: 0 <= k < m < |queue| ==> queue[k].0 != queue[m].0)
    && (forall i :: 0 <= i < |due| && NoFailureUpTo(insertFails, i) && CanStart(first, due, due[i]) ==>
          Queues(queue, due[i]))
  }

  lemma PassEnds(first: Situation, due: seq<nat>, i: nat, insertFails: nat -> bool, queue: seq<(nat, nat)>)
    requires PassKeeps(first, due, i, queue)
    requires i == |due| || insertFails(i)
    ensures PassDone(first, due, insertFails, queue)
  {
  }

  lemma QueuesNext(queue: seq<(nat, nat)>, source: nat, id: nat)
    ensures forall s :: Queues(queue + [(source, id)], s) <==> Queues(queue, s) || s == source
  {
    var longer := queue + [(source, id)];
    assert longer[|queue|].0 == source;
    forall s ensures Queues(longer, s) <==> Queues(queue, s) || s == source {
      if Queues(queue, s) {
        var k :| 0 <= k < |queue| && queue[k].0 == s;
        assert longer[k].0 == s;
      }
    }
  }

  lemma ActiveOrQueued(before: map<nat, IngestionRun>, runs: map<nat, IngestionRun>, queue: seq<(nat, nat)>, now: int,
                       s: nat)
    requires Queued(before, runs, queue, now)
    ensures HasActive(runs, s) <==> HasActive(before, s) || Queues(queue, s)
  {
    if HasActive(before, s) {
      var r :| r in before && IsActive(before[r], s);
      assert r in runs && IsActive(runs[r], s);
    }
    if Queues(queue, s) {
      var k :| 0 <= k < |queue| && queue[k].0 == s;
      assert queue[k].1 in runs && IsActive(runs[queue[k].1], s);
    }
    if HasActive(runs, s) {
      var r :| r in runs && IsActive(runs[r], s);
      if r !in before {
        var k :| 0 <= k < |queue| && queue[k].1 == r;
        assert queue[k].0 == s;
      }
    }
  }

  // A source that cannot be started now could not be started when the pass began, or it was queued.
  lemma PassSkips(first: Situation, due: seq<nat>, i: nat, runs: map<nat, IngestionRun>, locks: set<nat>,
                  queue: seq<(nat, nat)>, now: int)
    requires i < |due| && PassFits(first, due, i, runs, locks, queue, now)
    requires !CanStart(Situation(first.sources, first.adapters, first.hasRedis, runs, locks), due, due[i])
    ensures PassFits(first, due, i + 1, runs, locks, queue, now)
  {
    ActiveOrQueued(first.runs, runs, queue, now, due[i]);
  }

  lemma PassStarts(first: Situation, due: seq<nat>, i: nat, runs: map<nat, IngestionRun>, locks: set<nat>,
                   queue: seq<(nat, nat)>, now: int, id: nat)
    requires i < |due| && PassFits(first, due, i, runs, locks, queue, now) && id !in runs
    requires CanStart(Situation(first.sources, first.adapters, first.hasRedis, runs, locks), due, due[i])
    ensures PassFits(first, due, i + 1, runs[id := NewRun(due[i], now)],
                     if first.hasRedis then locks + {due[i]} else locks, queue + [(due[i], id)], now)
  {
    ActiveOrQueued(first.runs, runs, queue, now, due[i]);
    QueueOne(first.runs, runs, queue, now, due[i], id);
    QueuesNext(queue, due[i], id);
    assert !Queues(queue, due[i]);
  }
}
