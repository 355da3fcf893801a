// The job repository: jobs and append-only source records.
module Jobs {
  import opened Wrappers
  import opened Catalog

  datatype Store = Store(jobs: seq<Job>, records: seq<SourceRecord>)

  function KeyOf(r: SourceRecord): SourceKey {
    (r.sourceId, r.externalId)
  }

  function IndexOf(records: seq<SourceRecord>): map<SourceKey, nat> {
    if records == [] then map[]
    else
      var n := |records| - 1;
      IndexOf(records[..n])[KeyOf(records[n]) := records[n].jobId]
  }

  function CatalogOf(store: Store): Catalog {
    Catalog(store.jobs, IndexOf(store.records))
  }

  function PayloadText(payload: Option<string>): string {
    if payload.Some? then payload.value else "None"
  }

  function RecordFor(job: nat, source: nat, c: JobCandidate, sha256: string -> string): SourceRecord {
    SourceRecord(job, source, c.externalId, c.applicationUrl, c.rawPayload, sha256(PayloadText(c.rawPayload)))
  }

  function UpsertStore(store: Store, source: nat, c: JobCandidate, sha256: string -> string): Store {
    var cat := CatalogOf(store);
    Store(Merge(cat, source, c).jobs, store.records + [RecordFor(Target(cat, source, c), source, c, sha256)])
  }

  // All records of one (source, external id) name one stored job, and no two jobs are one listing.
  ghost predicate Deduplicated(store: Store) {
    && Valid(CatalogOf(store))
    && (forall i :: 0 <= i < |store.records| ==>
          KeyOf(store.records[i]) in IndexOf(store.records)
          && IndexOf(store.records)[KeyOf(store.records[i])] == store.records[i].jobId)
  }

  lemma {:induction false} IndexHasRecord(records: seq<SourceRecord>, k: SourceKey)
    ensures k in IndexOf(records) <==> exists i :: 0 <= i < |records| && KeyOf(records[i]) == k
  {
    if records != [] {
      var n := |records| - 1;
      IndexHasRecord(records[..n], k);
      if k in IndexOf(records[..n]) {
        var i :| 0 <= i < n && KeyOf(records[..n][i]) == k;
        assert KeyOf(records[i]) == k;
      }
      if exists i :: 0 <= i < |records| && KeyOf(records[i]) == k {
        var i :| 0 <= i < |records| && KeyOf(records[i]) == k;
        if i < n { assert KeyOf(records[..n][i]) == k; }
      }
    }
  }

  lemma UpsertStoreCatalog(store: Store, source: nat, c: JobCandidate, sha256: string -> string)
    ensures CatalogOf(UpsertStore(store, source, c, sha256)) == Merge(CatalogOf(store), source, c)
  {
    var r := RecordFor(Target(CatalogOf(store), source, c), source, c, sha256);
    assert (store.records + [r])[..|store.records|] == store.records;
  }

  lemma UpsertKeepsDeduplicated(store: Store, source: nat, c: JobCandidate, sha256: string -> string)
    requires Deduplicated(store)
    ensures Deduplicated(UpsertStore(store, source, c, sha256))
  {
    UpsertStoreCatalog(store, source, c, sha256);
    MergeKeepsValid(CatalogOf(store), source, c);
    var after := UpsertStore(store, source, c, sha256);
    forall i | 0 <= i < |after.records|
      ensures KeyOf(after.records[i]) in IndexOf(after.records)
      ensures IndexOf(after.records)[KeyOf(after.records[i])] == after.records[i].jobId
    {
      if i < |store.records| {
        assert KeyOf(after.records[i]) in CatalogOf(store).index;
      }
    }
  }

  // Which job a candidate belongs to, on the stored rows: that of any record with its source and external
  // id; without one, that of any job with its URL and normalized company; otherwise none.
  ghost predicate Resolves(store: Store, source: nat, c: JobCandidate, found: Option<nat>) {
    && (forall i :: 0 <= i < |store.records| && SameRecord(store.records[i], source, c) ==>
          found == Some(store.records[i].jobId))
    && ((forall i :: 0 <= i < |store.records| ==> !SameRecord(store.records[i], source, c)) ==>
          && (forall j :: 0 <= j < |store.jobs| && SameJob(store.jobs[j], c) ==> found == Some(j))
          && (found.Some? ==> found.value < |store.jobs| && SameJob(store.jobs[found.value], c)))
  }

  ghost predicate SameRecord(r: SourceRecord, source: nat, c: JobCandidate) {
    r.sourceId == source && r.externalId == c.externalId
  }

  ghost predicate SameJob(job: Job, c: JobCandidate) {
    job.applicationUrl == c.applicationUrl && job.companyNormalized == c.companyNormalized
  }

  // What one upsert leaves, field by field: a created job is the candidate, a changed one takes over its
  // title, description, hash and locations, and exactly one record is appended.
  ghost predicate Upserted(before: Store, after: Store, source: nat, c: JobCandidate, sha256: string -> string,
                           job: nat, created: bool, changed: bool) {
    && |after.jobs| == |before.jobs| + (if created then 1 else 0)
    && (if created then job == |before.jobs| && !changed else job < |before.jobs|)
    && (forall j :: 0 <= j < |before.jobs| && j != job ==> after.jobs[j] == before.jobs[j])
    && var row := after.jobs[job];
    && (created || changed ==>
          && row.title == c.title && row.description == c.description
          && row.descriptionHash == c.descriptionHash && row.locations == c.locations)
    && (created ==>
          && row.companyName == c.companyName && row.companyNormalized == c.companyNormalized
          && row.applicationUrl == c.applicationUrl)
    && (changed ==>
          && before.jobs[job].descriptionHash != c.descriptionHash
          && row.companyName == before.jobs[job].companyName
          && row.companyNormalized == before.jobs[job].companyNormalized
          && row.applicationUrl == before.jobs[job].applicationUrl)
    && (!created && !changed ==> row == before.jobs[job] && row.descriptionHash == c.descriptionHash)
    && |after.records| == |before.records| + 1 && after.records[..|before.records|] == before.records
    && var r := after.records[|before.records|];
    && r.jobId == job && r.sourceId == source && r.externalId == c.externalId
    && r.sourceUrl == c.applicationUrl && r.rawPayload == c.rawPayload
    && r.rawPayloadHash == sha256(if c.rawPayload.Some? then c.rawPayload.value else "None")
  }

  lemma FindResolves(store: Store, source: nat, c: JobCandidate)
    requires Deduplicated(store)
    ensures Resolves(store, source, c, Find(CatalogOf(store), source, c))
  {
    IndexHasRecord(store.records, (source, c.externalId));
    forall i | 0 <= i < |store.records| && SameRecord(store.records[i], source, c)
      ensures Find(CatalogOf(store), source, c) == Some(store.records[i].jobId)
    {
      assert KeyOf(store.records[i]) == (source, c.externalId);
    }
    if (source, c.externalId) !in IndexOf(store.records) {
      forall j | 0 <= j < |store.jobs| && SameJob(store.jobs[j], c) ensures JobByListing(store.jobs, c) == Some(j) {
        assert SameListing(store.jobs[j], NewJob(c));
        var k := JobByListing(store.jobs, c).value;
        assert SameListing(store.jobs[k], store.jobs[j]) && SameListing(store.jobs[j], store.jobs[k]);
      }
    } else {
      var i :| 0 <= i < |store.records| && KeyOf(store.records[i]) == (source, c.externalId);
      assert SameRecord(store.records[i], source, c);
    }
  }

  lemma UpsertInFields(store: Store, source: nat, c: JobCandidate, sha256: string -> string)
    requires Deduplicated(store)
    ensures
      var cat := CatalogOf(store);
      && Upserted(store, UpsertStore(store, source, c, sha256), source, c, sha256,
                  Target(cat, source, c), Creates(cat, source, c), Changes(cat, source, c))
      && Resolves(store, source, c, if Creates(cat, source, c) then None else Some(Target(cat, source, c)))
  {
    FindResolves(store, source, c);
    MergeKeepsValid(CatalogOf(store), source, c);
  }

  datatype Arrival = Arrival(source: nat, candidate: JobCandidate)

  function UpsertAll(arrivals: seq<Arrival>, sha256: string -> string): Store {
    if arrivals == [] then Store([], [])
    else
      var n := |arrivals| - 1;
      UpsertStore(UpsertAll(arrivals[..n], sha256), arrivals[n].source, arrivals[n].candidate, sha256)
  }

  lemma {:induction false} ReachableDeduplicated(arrivals: seq<Arrival>, sha256: string -> string)
    ensures Deduplicated(UpsertAll(arrivals, sha256))
    ensures |UpsertAll(arrivals, sha256).records| == |arrivals|
  {
    if arrivals != [] {
      var n := |arrivals| - 1;
      ReachableDeduplicated(arrivals[..n], sha256);
      UpsertKeepsDeduplicated(UpsertAll(arrivals[..n], sha256), arrivals[n].source, arrivals[n].candidate, sha256);
    }
  }

  // Whatever arrives from whichever sources, both deduplication keys are functional.
  lemma DedupKeysFunctional(arrivals: seq<Arrival>, sha256: string -> string)
    ensures
      var store := UpsertAll(arrivals, sha256);
      && (forall a, b :: (0 <= a < |store.records| && 0 <= b < |store.records|
                          && store.records[a].sourceId == store.records[b].sourceId
                          && store.records[a].externalId == store.records[b].externalId) ==>
            store.records[a].jobId == store.records[b].jobId)
      && (forall a :: 0 <= a < |store.records| ==> store.records[a].jobId < |store.jobs|)
      && (forall i, j :: 0 <= i < j < |store.jobs| ==>
            || store.jobs[i].applicationUrl != store.jobs[j].applicationUrl
            || store.jobs[i].companyNormalized != store.jobs[j].companyNormalized)
  {
    ReachableDeduplicated(arrivals, sha256);
    var store := UpsertAll(arrivals, sha256);
    forall i, j | 0 <= i < j < |store.jobs|
      ensures store.jobs[i].applicationUrl != store.jobs[j].applicationUrl
           || store.jobs[i].companyNormalized != store.jobs[j].companyNormalized
    {
      assert !SameListing(store.jobs[i], store.jobs[j]);
    }
    forall a, b | 0 <= a < |store.records| && 0 <= b < |store.records|
                  && store.records[a].sourceId == store.records[b].sourceId
                  && store.records[a].externalId == store.records[b].externalId
      ensures store.records[a].jobId == store.records[b].jobId
    {
      assert KeyOf(store.records[a]) == KeyOf(store.records[b]);
    }
    forall a | 0 <= a < |store.records| ensures store.records[a].jobId < |store.jobs| {
      assert KeyOf(store.records[a]) in CatalogOf(store).index;
    }
  }

  class JobRepository {
    const sha256: string -> string
    var jobs: seq<Job>
    var records: seq<SourceRecord>

    constructor (sha256: string -> string)
      ensures this.sha256 == sha256 && Stored() == Store([], [])
      ensures Deduplicated(Stored())
    {
      this.sha256 := sha256;
      jobs, records := [], [];
    }

    ghost function Stored(): Store
      reads this
    {
      Store(jobs, records)
    }

    // Both queries may return any matching row; in a deduplicated store there is only one answer.
    method FindExisting(sourceId: nat, candidate: JobCandidate) returns (job: Option<nat>)
      requires Deduplicated(Stored())
      ensures job == Find(CatalogOf(Stored()), sourceId, candidate)
      ensures Resolves(Stored(), sourceId, candidate, job)
    {
      FindResolves(Stored(), sourceId, candidate);
      IndexHasRecord(records, (sourceId, candidate.externalId));
      if i :| 0 <= i < |records| && KeyOf(records[i]) == (sourceId, candidate.externalId) {
        return Some(records[i].jobId);
      }
      if j :| 0 <= j < |jobs| && SameListing(jobs[j], NewJob(candidate)) {
        return Some(j);
      }
      return None;
    }

    method Upsert(sourceId: nat, candidate: JobCandidate) returns (job: nat, created: bool, changed: bool)
      requires Deduplicated(Stored())
      modifies this
      ensures Stored() == UpsertStore(old(Stored()), sourceId, candidate, sha256)
      ensures Deduplicated(Stored())
      ensures job == Target(old(CatalogOf(Stored())), sourceId, candidate)
      ensures created == Creates(old(CatalogOf(Stored())), sourceId, candidate)
      ensures changed == Changes(old(CatalogOf(Stored())), sourceId, candidate)
      ensures Upserted(old(Stored()), Stored(), sourceId, candidate, sha256, job, created, changed)
      ensures Resolves(old(Stored()), sourceId, candidate, if created then None else Some(job))
    {
      ghost var before := Stored();
      var existing := FindExisting(sourceId, candidate);
      created, changed := existing.None?, false;
      if existing.None? {
        job := |jobs|;
        jobs := jobs + [NewJob(candidate)];
      } else {
        job := existing.value;
        MergeKeepsValid(CatalogOf(before), sourceId, candidate);
        if jobs[job].descriptionHash != candidate.descriptionHash {
          var row := jobs[job];
          row := row.(title := candidate.title);
          row := row.(description := candidate.description);
          row := row.(descriptionHash := candidate.descriptionHash);
          row := row.(locations := candidate.locations);
          jobs := jobs[job := row];
          changed := true;
        }
      }
      assert jobs == Merge(CatalogOf(before), sourceId, candidate).jobs;
      records := records + [RecordFor(job, sourceId, candidate, sha256)];
      UpsertKeepsDeduplicated(before, sourceId, candidate, sha256);
      UpsertInFields(before, sourceId, candidate, sha256);
    }
  }
}
