// Fetching from a provider with retries. A provider is any script of attempts: what each attempt
// delivered before it ended, and how it ended.
module Fetching {
  import opened Wrappers
  import opened Normalizer
  import opened Catalog

  datatype Fault = AdapterError(message: string, retryable: bool) | OtherError

  datatype Attempt = Attempt(records: seq<RawJobRecord>, malformed: nat, fault: Option<Fault>)

  type Provider = nat -> Attempt

  // The shared list after the last attempt made, the malformed count of that attempt, and its fault.
  datatype Fetched = Fetched(records: seq<RawJobRecord>, malformed: nat, made: nat, fault: Option<Fault>)

  const ATTEMPTS := 3

  predicate Retryable(a: Attempt) {
    a.fault.Some? && a.fault.value.AdapterError? && a.fault.value.retryable
  }

  // What the first n attempts appended to the shared list.
  function Accumulated(provider: Provider, n: nat): seq<RawJobRecord> {
    if n == 0 then [] else Accumulated(provider, n - 1) + provider(n - 1).records
  }

  // An adapter error that was raised as retryable.
  ghost predicate Transient(a: Attempt) {
    exists message :: a.fault == Some(AdapterError(message, true))
  }

  lemma RetryableMeans(a: Attempt)
    ensures Retryable(a) <==> Transient(a)
  {
    if Retryable(a) { assert a.fault == Some(AdapterError(a.fault.value.message, true)); }
  }

  // The outcome is fixed by the first attempt that is not retried.
  ghost predicate Outcome(provider: Provider, attempts: nat, f: Fetched) {
    && 0 < f.made <= attempts
    && (forall i :: 0 <= i < f.made - 1 ==> Transient(provider(i)))
    && (f.made < attempts ==> !Transient(provider(f.made - 1)))
    && f.fault == provider(f.made - 1).fault
    && f.malformed == provider(f.made - 1).malformed
    && f.records == Accumulated(provider, f.made)
  }

  lemma OutcomeUnique(provider: Provider, attempts: nat, f: Fetched, g: Fetched)
    requires Outcome(provider, attempts, f) && Outcome(provider, attempts, g)
    ensures f == g
  {
    var i: nat, j: nat := f.made - 1, g.made - 1;
    assert i < j ==> Transient(provider(i));
    assert j < i ==> Transient(provider(j));
  }

  method WithRetries(provider: Provider, attempts: nat) returns (f: Fetched)
    ensures attempts > 0 ==> Outcome(provider, attempts, f)
    ensures attempts == 0 ==> f == Fetched([], 0, 0, Some(OtherError))
  {
    var fetched: seq<RawJobRecord> := [];
    var attempt := 0;
    while attempt < attempts
      invariant attempt <= attempts
      invariant attempt > 0 ==> attempt < attempts
      invariant fetched == Accumulated(provider, attempt)
      invariant forall i :: 0 <= i < attempt ==> Transient(provider(i))
    {
      RetryableMeans(provider(attempt));
      var a := provider(attempt);
      fetched := fetched + a.records;
      if a.fault.None? {
        return Fetched(fetched, a.malformed, attempt + 1, None);
      }
      if !Retryable(a) || attempt == attempts - 1 {
        return Fetched(fetched, a.malformed, attempt + 1, a.fault);
      }
      attempt := attempt + 1;
    }
    return Fetched([], 0, 0, Some(OtherError));
  }

  lemma {:induction false} NormalizeAppend(codec: Codec, a: seq<RawJobRecord>, b: seq<RawJobRecord>, company: string)
    ensures NormalizeAll(codec, a + b, company) == NormalizeAll(codec, a, company) + NormalizeAll(codec, b, company)
  {
    forall i | 0 <= i < |a + b|
      ensures NormalizeAll(codec, a + b, company)[i]
          == (NormalizeAll(codec, a, company) + NormalizeAll(codec, b, company))[i]
    {}
  }

  lemma NormalizePrefix(codec: Codec, a: seq<RawJobRecord>, b: seq<RawJobRecord>, company: string)
    requires a <= b
    ensures NormalizeAll(codec, a, company) <= NormalizeAll(codec, b, company)
  {
    assert b == a + b[|a|..];
    NormalizeAppend(codec, a, b[|a|..], company);
  }

  ghost function Batches(codec: Codec, provider: Provider, n: nat, company: string): seq<seq<JobCandidate>> {
    seq(n, i requires 0 <= i => NormalizeAll(codec, provider(i).records, company))
  }

  lemma BatchesLast(codec: Codec, provider: Provider, n: nat, company: string)
    requires n > 0
    ensures Joined(Batches(codec, provider, n, company))
         == Joined(Batches(codec, provider, n - 1, company)) + NormalizeAll(codec, provider(n - 1).records, company)
  {
    var parts := Batches(codec, provider, n, company);
    assert parts[..n - 1] == Batches(codec, provider, n - 1, company);
  }

  lemma {:induction false} AccumulatedBatches(codec: Codec, provider: Provider, n: nat, company: string)
    ensures NormalizeAll(codec, Accumulated(provider, n), company) == Joined(Batches(codec, provider, n, company))
  {
    if n > 0 {
      var a, b := Accumulated(provider, n - 1), provider(n - 1).records;
      calc {
        NormalizeAll(codec, Accumulated(provider, n), company);
        NormalizeAll(codec, a + b, company);
        { NormalizeAppend(codec, a, b, company); }
        NormalizeAll(codec, a, company) + NormalizeAll(codec, b, company);
        { AccumulatedBatches(codec, provider, n - 1, company); }
        Joined(Batches(codec, provider, n - 1, company)) + NormalizeAll(codec, b, company);
        { BatchesLast(codec, provider, n, company); }
        Joined(Batches(codec, provider, n, company));
      }
    }
  }

  // A fetch that succeeds after failed attempts, each of which delivered a prefix of the final list,
  // leaves the jobs table that the final list alone would have left.
  lemma RetriedFetch(codec: Codec, cat: Catalog, source: nat, company: string, provider: Provider, attempts: nat,
                     f: Fetched)
    requires Valid(cat)
    requires Outcome(provider, attempts, f)
    requires forall i :: 0 <= i < f.made - 1 ==> provider(i).records <= provider(f.made - 1).records
    ensures
      var all := NormalizeAll(codec, f.records, company);
      var last := NormalizeAll(codec, provider(f.made - 1).records, company);
      Ingest(cat, source, all) == Ingest(cat, source, last)
          && CreatedCount(cat, source, all) == CreatedCount(cat, source, last)
  {
    var last := NormalizeAll(codec, provider(f.made - 1).records, company);
    var failed := Batches(codec, provider, f.made - 1, company);
    AccumulatedBatches(codec, provider, f.made - 1, company);
    NormalizeAppend(codec, Accumulated(provider, f.made - 1), provider(f.made - 1).records, company);
    forall i | 0 <= i < |failed| ensures failed[i] <= last {
      NormalizePrefix(codec, provider(i).records, provider(f.made - 1).records, company);
    }
    RetryAbsorption(cat, source, failed, last);
  }
}
