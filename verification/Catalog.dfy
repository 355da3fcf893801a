// The canonical jobs table and its two-level deduplication.
//
// A job id is the position of the job in creation order, so two tables are equal exactly when they
// hold the same rows, in the same order, with the same fields.
module Catalog {
  import opened Wrappers

  datatype JobCandidate = JobCandidate(
    title: string, companyName: string, companyNormalized: string, description: string,
    descriptionHash: string, locations: seq<string>, applicationUrl: string,
    externalId: string, rawPayload: Option<string>)

  datatype Job = Job(
    title: string, companyName: string, companyNormalized: string, description: string,
    descriptionHash: string, locations: seq<string>, applicationUrl: string)

  datatype SourceRecord = SourceRecord(
    jobId: nat, sourceId: nat, externalId: string, sourceUrl: string,
    rawPayload: Option<string>, rawPayloadHash: string)

  type SourceKey = (nat, string)

  // What decides every later lookup: the jobs, and the job each (source, external id) belongs to.
  datatype Catalog = Catalog(jobs: seq<Job>, index: map<SourceKey, nat>)

  // ---------------------------------------------------------------- one upsert

  predicate SameListing(a: Job, b: Job) {
    a.applicationUrl == b.applicationUrl && a.companyNormalized == b.companyNormalized
  }

  ghost predicate Valid(cat: Catalog) {
    && (forall k :: k in cat.index ==> cat.index[k] < |cat.jobs|)
    && (forall i, j :: 0 <= i < j < |cat.jobs| ==> !SameListing(cat.jobs[i], cat.jobs[j]))
  }

  function NewJob(c: JobCandidate): Job {
    Job(c.title, c.companyName, c.companyNormalized, c.description, c.descriptionHash, c.locations, c.applicationUrl)
  }

  function Overwrite(job: Job, c: JobCandidate): Job {
    job.(title := c.title, description := c.description, descriptionHash := c.descriptionHash, locations := c.locations)
  }

  function Apply(job: Job, c: JobCandidate): Job {
    if job.descriptionHash != c.descriptionHash then Overwrite(job, c) else job
  }

  // The second lookup: by application URL and normalized company.
  function JobByListing(jobs: seq<Job>, c: JobCandidate): (r: Option<nat>)
    ensures r.Some? ==> r.value < |jobs| && SameListing(jobs[r.value], NewJob(c))
    ensures r.None? ==> forall i :: 0 <= i < |jobs| ==> !SameListing(jobs[i], NewJob(c))
  {
    if jobs == [] then None
    else
      var n := |jobs| - 1;
      var earlier := JobByListing(jobs[..n], c);
      if earlier.Some? then earlier
      else if SameListing(jobs[n], NewJob(c)) then Some(n)
      else None
  }

  function Find(cat: Catalog, source: nat, c: JobCandidate): Option<nat> {
    if (source, c.externalId) in cat.index then Some(cat.index[(source, c.externalId)])
    else JobByListing(cat.jobs, c)
  }

  predicate Creates(cat: Catalog, source: nat, c: JobCandidate) {
    Find(cat, source, c).None?
  }

  predicate Changes(cat: Catalog, source: nat, c: JobCandidate) {
    var found := Find(cat, source, c);
    found.Some? && found.value < |cat.jobs| && cat.jobs[found.value].descriptionHash != c.descriptionHash
  }

  function Target(cat: Catalog, source: nat, c: JobCandidate): nat {
    var found := Find(cat, source, c);
    if found.Some? then found.value else |cat.jobs|
  }

  function Merge(cat: Catalog, source: nat, c: JobCandidate): Catalog {
    var j := Target(cat, source, c);
    Catalog(
      if Creates(cat, source, c) then cat.jobs + [NewJob(c)]
      else if j < |cat.jobs| then cat.jobs[j := Apply(cat.jobs[j], c)]
      else cat.jobs,
      cat.index[(source, c.externalId) := j])
  }

  lemma MergeKeepsValid(cat: Catalog, source: nat, c: JobCandidate)
    requires Valid(cat)
    ensures Valid(Merge(cat, source, c))
    ensures |cat.jobs| <= |Merge(cat, source, c).jobs|
    ensures Target(cat, source, c) < |Merge(cat, source, c).jobs|
    ensures forall k :: k in cat.index ==>
        k in Merge(cat, source, c).index && Merge(cat, source, c).index[k] == cat.index[k]
  {
  }

  // ---------------------------------------------------------------- a batch from one source

  function Ingest(cat: Catalog, source: nat, batch: seq<JobCandidate>): Catalog {
    if batch == [] then cat
    else Merge(Ingest(cat, source, batch[..|batch| - 1]), source, batch[|batch| - 1])
  }

  lemma {:induction false} IngestAppend(cat: Catalog, source: nat, a: seq<JobCandidate>, b: seq<JobCandidate>)
    ensures Ingest(cat, source, a + b) == Ingest(Ingest(cat, source, a), source, b)
  {
    if b == [] {
      assert a + b == a;
    } else {
      IngestAppend(cat, source, a, b[..|b| - 1]);
      assert (a + b)[..|a + b| - 1] == a + b[..|b| - 1];
      assert (a + b)[|a + b| - 1] == b[|b| - 1];
    }
  }

  ghost predicate Covers(index: map<SourceKey, nat>, source: nat, batch: seq<JobCandidate>) {
    forall i :: 0 <= i < |batch| ==> (source, batch[i].externalId) in index
  }

  lemma {:induction false} IngestKeepsValid(cat: Catalog, source: nat, batch: seq<JobCandidate>)
    requires Valid(cat)
    ensures Valid(Ingest(cat, source, batch))
    ensures Covers(Ingest(cat, source, batch).index, source, batch)
    ensures |cat.jobs| <= |Ingest(cat, source, batch).jobs|
    ensures forall k :: k in cat.index ==>
        k in Ingest(cat, source, batch).index && Ingest(cat, source, batch).index[k] == cat.index[k]
  {
    if batch != [] {
      var n := |batch| - 1;
      IngestKeepsValid(cat, source, batch[..n]);
      MergeKeepsValid(Ingest(cat, source, batch[..n]), source, batch[n]);
    }
  }

  // ---------------------------------------------------------------- what a batch does to one job

  // The candidates of a batch that belong to job j, in batch order.
  ghost function Hits(index: map<SourceKey, nat>, source: nat, batch: seq<JobCandidate>, j: nat): seq<JobCandidate> {
    if batch == [] then []
    else
      var n := |batch| - 1;
      var k := (source, batch[n].externalId);
      Hits(index, source, batch[..n], j) + (if k in index && index[k] == j then [batch[n]] else [])
  }

  // Where the last run of candidates with one description hash starts.
  ghost function LastBlock(hits: seq<JobCandidate>): (k: nat)
    requires hits != []
    ensures k < |hits|
    ensures forall i :: k <= i < |hits| ==> hits[i].descriptionHash == hits[|hits| - 1].descriptionHash
    ensures k > 0 ==> hits[k - 1].descriptionHash != hits[k].descriptionHash
  {
    var n := |hits| - 1;
    if n == 0 || hits[n - 1].descriptionHash != hits[n].descriptionHash then n else LastBlock(hits[..n])
  }

  // The closed form: a job ends with the fields of the first candidate of the last block of equal
  // hashes, unless that block carries on the hash the job already had.
  ghost function Settle(job: Job, hits: seq<JobCandidate>): Job {
    if hits == [] then job
    else
      var k := LastBlock(hits);
      if k == 0 && hits[0].descriptionHash == job.descriptionHash then job else Overwrite(job, hits[k])
  }

  lemma SettleStep(job: Job, hits: seq<JobCandidate>, c: JobCandidate)
    ensures Settle(job, hits + [c]) == Apply(Settle(job, hits), c)
  {
    var all := hits + [c];
    var n := |hits|;
    assert all[..n] == hits;
    if hits != [] {
      var k := LastBlock(hits);
      assert Settle(job, hits).descriptionHash == hits[n - 1].descriptionHash by {
        assert hits[k].descriptionHash == hits[n - 1].descriptionHash;
      }
      assert LastBlock(all) == if hits[n - 1].descriptionHash != c.descriptionHash then n else k;
    }
  }

  lemma SettleTwice(job: Job, hits: seq<JobCandidate>)
    ensures Settle(Settle(job, hits), hits) == Settle(job, hits)
    ensures hits != [] ==> Settle(job, hits).descriptionHash == hits[|hits| - 1].descriptionHash
  {
    if hits != [] {
      var k := LastBlock(hits);
      assert hits[k].descriptionHash == hits[|hits| - 1].descriptionHash;
    }
  }

  lemma {:induction false} HitsStable(old_: map<SourceKey, nat>, new_: map<SourceKey, nat>, source: nat,
                                      batch: seq<JobCandidate>, j: nat)
    requires Covers(old_, source, batch)
    requires forall k :: k in old_ ==> k in new_ && new_[k] == old_[k]
    ensures Hits(old_, source, batch, j) == Hits(new_, source, batch, j)
  {
    if batch != [] {
      HitsStable(old_, new_, source, batch[..|batch| - 1], j);
    }
  }

  lemma {:induction false} NoHits(index: map<SourceKey, nat>, source: nat, batch: seq<JobCandidate>, j: nat)
    requires forall k :: k in index ==> index[k] < j
    ensures Hits(index, source, batch, j) == []
  {
    if batch != [] {
      NoHits(index, source, batch[..|batch| - 1], j);
    }
  }

  // The row job j starts a batch from: the stored one, or the one its first candidate creates.
  ghost predicate StartsFrom(cat: Catalog, j: nat, hits: seq<JobCandidate>, start: Job) {
    if j < |cat.jobs| then start == cat.jobs[j]
    else hits != [] && start == NewJob(hits[0])
  }

  // One upsert moves the closed form of an existing row one candidate further.
  lemma HistoryStep(before: Catalog, source: nat, prior: seq<JobCandidate>, c: JobCandidate, j: nat, start: Job)
    requires Valid(before) && j < |before.jobs|
    requires before.jobs[j] == Settle(start, prior)
    ensures
      var after := Merge(before, source, c);
      j < |after.jobs| && after.jobs[j] == Settle(start, prior + (if Target(before, source, c) == j then [c] else []))
  {
    if Target(before, source, c) == j {
      SettleStep(start, prior, c);
    } else {
      assert prior + [] == prior;
    }
  }

  // The candidates of a batch that belong to j, one candidate further.
  lemma HitsStep(before: Catalog, source: nat, batch: seq<JobCandidate>, c: JobCandidate, j: nat)
    requires Valid(before) && Covers(before.index, source, batch)
    ensures Hits(Merge(before, source, c).index, source, batch + [c], j)
         == Hits(before.index, source, batch, j) + (if Target(before, source, c) == j then [c] else [])
  {
    var index := Merge(before, source, c).index;
    MergeKeepsValid(before, source, c);
    HitsStable(before.index, index, source, batch, j);
    HitsSnoc(index, source, batch, c, j);
    assert (source, c.externalId) in index && index[(source, c.externalId)] == Target(before, source, c);
  }

  lemma HitsSnoc(index: map<SourceKey, nat>, source: nat, batch: seq<JobCandidate>, c: JobCandidate, j: nat)
    requires (source, c.externalId) in index
    ensures Hits(index, source, batch + [c], j)
         == Hits(index, source, batch, j) + (if index[(source, c.externalId)] == j then [c] else [])
  {
    assert (batch + [c])[..|batch|] == batch;
  }

  // Every row after a batch is the closed form of the candidates that resolved to it.
  lemma {:induction false} JobHistory(cat: Catalog, source: nat, batch: seq<JobCandidate>, j: nat) returns (start: Job)
    requires Valid(cat)
    requires j < |Ingest(cat, source, batch).jobs|
    ensures
      var after := Ingest(cat, source, batch);
      var hits := Hits(after.index, source, batch, j);
      StartsFrom(cat, j, hits, start) && after.jobs[j] == Settle(start, hits)
  {
    if batch == [] {
      start := cat.jobs[j];
    } else {
      var n := |batch| - 1;
      var c := batch[n];
      var before := Ingest(cat, source, batch[..n]);
      IngestKeepsValid(cat, source, batch[..n]);
      assert batch == batch[..n] + [c];
      HitsStep(before, source, batch[..n], c, j);
      if j < |before.jobs| {
        start := JobHistory(cat, source, batch[..n], j);
        HistoryStep(before, source, Hits(before.index, source, batch[..n], j), c, j, start);
      } else {
        start := NewestRow(before, source, batch[..n], c, j);
      }
    }
  }

  // A row that the last candidate creates has that candidate as its only hit.
  lemma NewestRow(before: Catalog, source: nat, batch: seq<JobCandidate>, c: JobCandidate, j: nat) returns (start: Job)
    requires Valid(before) && |before.jobs| <= j < |Merge(before, source, c).jobs|
    ensures
      var hits := Hits(before.index, source, batch, j) + (if Target(before, source, c) == j then [c] else []);
      hits == [c] && start == NewJob(c) && Merge(before, source, c).jobs[j] == Settle(start, hits)
  {
    NoHits(before.index, source, batch, j);
    start := NewJob(c);
  }

  // ---------------------------------------------------------------- the main laws

  // A batch whose external ids are all known resolves every candidate without creating anything.
  lemma {:induction false} CoveredBatch(cat: Catalog, source: nat, batch: seq<JobCandidate>)
    requires Valid(cat) && Covers(cat.index, source, batch)
    ensures Ingest(cat, source, batch).index == cat.index
    ensures |Ingest(cat, source, batch).jobs| == |cat.jobs|
    ensures CreatedCount(cat, source, batch) == 0
  {
    if batch != [] {
      var n := |batch| - 1;
      CoveredBatch(cat, source, batch[..n]);
      assert (source, batch[n].externalId) in cat.index;
    }
  }

  // Ingesting a batch again from the same source changes no row of the jobs table.
  lemma RerunIdempotent(cat: Catalog, source: nat, batch: seq<JobCandidate>)
    requires Valid(cat)
    ensures Ingest(Ingest(cat, source, batch), source, batch) == Ingest(cat, source, batch)
    ensures CreatedCount(Ingest(cat, source, batch), source, batch) == 0
  {
    var once := Ingest(cat, source, batch);
    var twice := Ingest(once, source, batch);
    IngestKeepsValid(cat, source, batch);
    CoveredBatch(once, source, batch);
    forall j | 0 <= j < |once.jobs|
      ensures twice.jobs[j] == once.jobs[j]
    {
      var first := JobHistory(cat, source, batch, j);
      var second := JobHistory(once, source, batch, j);
      SettleTwice(first, Hits(once.index, source, batch, j));
    }
    assert twice.jobs == once.jobs;
  }

  ghost function Joined(parts: seq<seq<JobCandidate>>): seq<JobCandidate> {
    if parts == [] then [] else Joined(parts[..|parts| - 1]) + parts[|parts| - 1]
  }

  // A prefix ingested before the whole list changes nothing.
  lemma AbsorbPrefix(cat: Catalog, source: nat, p: seq<JobCandidate>, full: seq<JobCandidate>)
    requires Valid(cat) && p <= full
    ensures Ingest(cat, source, p + full) == Ingest(cat, source, full)
  {
    var rest := full[|p|..];
    var once := Ingest(cat, source, p);
    assert full == p + rest;
    calc {
      Ingest(cat, source, p + full);
      { IngestAppend(cat, source, p, full); }
      Ingest(once, source, full);
      { IngestAppend(once, source, p, rest); }
      Ingest(Ingest(once, source, p), source, rest);
      { RerunIdempotent(cat, source, p); }
      Ingest(once, source, rest);
      { IngestAppend(cat, source, p, rest); }
      Ingest(cat, source, full);
    }
  }

  // Failed attempts that delivered prefixes of the list that finally arrived leave no trace in the
  // jobs table or in any later lookup, whatever the store held before.
  lemma {:induction false} RetryAbsorption(cat: Catalog, source: nat, failed: seq<seq<JobCandidate>>,
                                           full: seq<JobCandidate>)
    requires Valid(cat)
    requires forall i :: 0 <= i < |failed| ==> failed[i] <= full
    ensures Ingest(cat, source, Joined(failed) + full) == Ingest(cat, source, full)
    ensures CreatedCount(cat, source, Joined(failed) + full) == CreatedCount(cat, source, full)
  {
    if failed == [] {
      assert Joined(failed) + full == full;
    } else {
      var n := |failed| - 1;
      var earlier := Joined(failed[..n]);
      var mid := Ingest(cat, source, earlier);
      IngestKeepsValid(cat, source, earlier);
      calc {
        Ingest(cat, source, Joined(failed) + full);
        {
          assert Joined(failed) == earlier + failed[n];
          assert Joined(failed) + full == earlier + (failed[n] + full);
          IngestAppend(cat, source, earlier, failed[n] + full);
        }
        Ingest(mid, source, failed[n] + full);
        { AbsorbPrefix(mid, source, failed[n], full); }
        Ingest(mid, source, full);
        { IngestAppend(cat, source, earlier, full); }
        Ingest(cat, source, earlier + full);
        { RetryAbsorption(cat, source, failed[..n], full); }
        Ingest(cat, source, full);
      }
    }
    CountsAddUp(cat, source, Joined(failed) + full);
    CountsAddUp(cat, source, full);
  }

  // ---------------------------------------------------------------- counters

  function CreatedCount(cat: Catalog, source: nat, batch: seq<JobCandidate>): nat {
    if batch == [] then 0
    else
      var n := |batch| - 1;
      CreatedCount(cat, source, batch[..n])
          + (if Creates(Ingest(cat, source, batch[..n]), source, batch[n]) then 1 else 0)
  }

  function UpdatedCount(cat: Catalog, source: nat, batch: seq<JobCandidate>): nat {
    if batch == [] then 0
    else
      var n := |batch| - 1;
      UpdatedCount(cat, source, batch[..n])
          + (if Changes(Ingest(cat, source, batch[..n]), source, batch[n]) then 1 else 0)
  }

  // Created and updated never overlap, so what is left over counts the duplicates; the table grows
  // by exactly the created ones.
  lemma {:induction false} CountsAddUp(cat: Catalog, source: nat, batch: seq<JobCandidate>)
    ensures CreatedCount(cat, source, batch) + UpdatedCount(cat, source, batch) <= |batch|
    ensures |Ingest(cat, source, batch).jobs| == |cat.jobs| + CreatedCount(cat, source, batch)
  {
    if batch != [] {
      CountsAddUp(cat, source, batch[..|batch| - 1]);
    }
  }

  ghost predicate AddsJob(cat: Catalog, source: nat, batch: seq<JobCandidate>, i: nat)
    requires i < |batch|
  {
    |Ingest(cat, source, batch[..i + 1]).jobs| > |Ingest(cat, source, batch[..i]).jobs|
  }

  ghost predicate AltersJob(cat: Catalog, source: nat, batch: seq<JobCandidate>, i: nat)
    requires i < |batch|
  {
    var before, after := Ingest(cat, source, batch[..i]).jobs, Ingest(cat, source, batch[..i + 1]).jobs;
    |after| == |before| && after != before
  }

  ghost function Adding(cat: Catalog, source: nat, batch: seq<JobCandidate>): set<nat> {
    set i: nat | i < |batch| && AddsJob(cat, source, batch, i)
  }

  ghost function Altering(cat: Catalog, source: nat, batch: seq<JobCandidate>): set<nat> {
    set i: nat | i < |batch| && AltersJob(cat, source, batch, i)
  }

  lemma PositionsNext(cat: Catalog, source: nat, batch: seq<JobCandidate>)
    requires batch != []
    ensures
      var n := |batch| - 1;
      && Adding(cat, source, batch) - {n} == Adding(cat, source, batch[..n])
      && Altering(cat, source, batch) - {n} == Altering(cat, source, batch[..n])
  {
    var n := |batch| - 1;
    var prior := batch[..n];
    forall i: nat | i < n
      ensures AddsJob(cat, source, prior, i) == AddsJob(cat, source, batch, i)
      ensures AltersJob(cat, source, prior, i) == AltersJob(cat, source, batch, i)
    {
      assert prior[..i] == batch[..i] && prior[..i + 1] == batch[..i + 1];
    }
  }

  // What the counters count: the candidates that add a job, and those that alter one. All the others,
  // the duplicates, leave the jobs table as it is.
  lemma {:induction false} CountersMean(cat: Catalog, source: nat, batch: seq<JobCandidate>)
    requires Valid(cat)
    ensures CreatedCount(cat, source, batch) == |Adding(cat, source, batch)|
    ensures UpdatedCount(cat, source, batch) == |Altering(cat, source, batch)|
  {
    if batch != [] {
      var n := |batch| - 1;
      CountersMean(cat, source, batch[..n]);
      PositionsNext(cat, source, batch);
      LastPosition(cat, source, batch);
    }
  }

  lemma LastPosition(cat: Catalog, source: nat, batch: seq<JobCandidate>)
    requires Valid(cat) && batch != []
    ensures
      var n := |batch| - 1;
      var before := Ingest(cat, source, batch[..n]);
      && (n in Adding(cat, source, batch) <==> Creates(before, source, batch[n]))
      && (n in Altering(cat, source, batch) <==> Changes(before, source, batch[n]))
  {
    var n := |batch| - 1;
    assert batch[..n + 1] == batch;
    IngestKeepsValid(cat, source, batch[..n]);
    MergeAlters(Ingest(cat, source, batch[..n]), source, batch[n]);
  }

  lemma MergeAlters(cat: Catalog, source: nat, c: JobCandidate)
    requires Valid(cat)
    ensures Creates(cat, source, c) <==> |Merge(cat, source, c).jobs| > |cat.jobs|
    ensures Changes(cat, source, c)
        <==> |Merge(cat, source, c).jobs| == |cat.jobs| && Merge(cat, source, c).jobs != cat.jobs
  {
    if Changes(cat, source, c) {
      var j := Target(cat, source, c);
      assert Merge(cat, source, c).jobs[j].descriptionHash != cat.jobs[j].descriptionHash;
    }
  }

  // Every hit is a candidate of the batch that belongs to the job.
  lemma {:induction false} HitFrom(index: map<SourceKey, nat>, source: nat, batch: seq<JobCandidate>, j: nat, k: nat)
    returns (i: nat)
    requires k < |Hits(index, source, batch, j)|
    ensures i < |batch| && batch[i] == Hits(index, source, batch, j)[k]
    ensures (source, batch[i].externalId) in index && index[(source, batch[i].externalId)] == j
  {
    var n := |batch| - 1;
    if k < |Hits(index, source, batch[..n], j)| {
      i := HitFrom(index, source, batch[..n], j, k);
    } else {
      i := n;
    }
  }

  // The description hash of every touched job is that of the last candidate that resolved to it.
  lemma TouchedJobHash(cat: Catalog, source: nat, batch: seq<JobCandidate>, i: nat)
    requires Valid(cat)
    requires i < |batch|
    ensures
      var after := Ingest(cat, source, batch);
      && (source, batch[i].externalId) in after.index
      && var j := after.index[(source, batch[i].externalId)];
      && j < |after.jobs|
      && ((forall m :: i < m < |batch| ==>
          (source, batch[m].externalId) in after.index && after.index[(source, batch[m].externalId)] != j)
          ==> after.jobs[j].descriptionHash == batch[i].descriptionHash)
  {
    var after := Ingest(cat, source, batch);
    IngestKeepsValid(cat, source, batch);
    var j := after.index[(source, batch[i].externalId)];
    if forall m :: i < m < |batch| ==>
        (source, batch[m].externalId) in after.index && after.index[(source, batch[m].externalId)] != j {
      LastHit(after.index, source, batch, j, i);
      var start := JobHistory(cat, source, batch, j);
      SettleTwice(start, Hits(after.index, source, batch, j));
    }
  }

  lemma {:induction false} LastHit(index: map<SourceKey, nat>, source: nat, batch: seq<JobCandidate>, j: nat, i: nat)
    requires i < |batch|
    requires (source, batch[i].externalId) in index && index[(source, batch[i].externalId)] == j
    requires forall m :: i < m < |batch| ==>
        (source, batch[m].externalId) in index && index[(source, batch[m].externalId)] != j
    ensures Hits(index, source, batch, j) != []
    ensures var h := Hits(index, source, batch, j); h[|h| - 1] == batch[i]
  {
    if i < |batch| - 1 {
      LastHit(index, source, batch[..|batch| - 1], j, i);
    }
  }
}
