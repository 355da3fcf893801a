// From a fetched record to a job candidate. Case folding and SHA-256 are arbitrary functions.
module Normalizer {
  import opened Wrappers
  import opened Text
  import opened Catalog

  datatype RawJobRecord = RawJobRecord(
    externalId: string, title: string, description: Option<string>, applicationUrl: string,
    location: Option<string>, rawPayload: Option<string>)

  datatype Codec = Codec(casefold: string -> string, sha256: string -> string)

  predicate NotAlphanumeric(c: char) {
    !('a' <= c <= 'z') && !('0' <= c <= '9')
  }

  function NormalizeTitle(title: string): string {
    Join(Words(title, IsSpace))
  }

  function NormalizeCompany(codec: Codec, name: string): string {
    Strip(Squeeze(codec.casefold(name), NotAlphanumeric))
  }

  function DescriptionHash(codec: Codec, description: string): string {
    codec.sha256(Strip(description))
  }

  function NormalizeRecord(codec: Codec, record: RawJobRecord, companyName: string): JobCandidate {
    var description := if record.description.Some? then record.description.value else "";
    JobCandidate(
      NormalizeTitle(record.title), Strip(companyName), NormalizeCompany(codec, companyName),
      description, DescriptionHash(codec, description),
      if record.location.Some? && record.location.value != "" then [record.location.value] else [],
      record.applicationUrl, record.externalId, record.rawPayload)
  }

  function NormalizeAll(codec: Codec, records: seq<RawJobRecord>, companyName: string): (r: seq<JobCandidate>)
    ensures |r| == |records|
    ensures forall i :: 0 <= i < |r| ==> r[i] == NormalizeRecord(codec, records[i], companyName)
  {
    if records == [] then []
    else
      var n := |records| - 1;
      NormalizeAll(codec, records[..n], companyName) + [NormalizeRecord(codec, records[n], companyName)]
  }

  // Two company names get one key exactly when their case-folded alphanumeric words agree, so
  // punctuation, spacing and case never separate two listings and nothing else ever joins them.
  lemma CompanyKeysAgree(codec: Codec, a: string, b: string)
    ensures NormalizeCompany(codec, a) == NormalizeCompany(codec, b)
       <==> Words(codec.casefold(a), NotAlphanumeric) == Words(codec.casefold(b), NotAlphanumeric)
  {
    StripSqueeze(codec.casefold(a), NotAlphanumeric);
    StripSqueeze(codec.casefold(b), NotAlphanumeric);
    WordsAreWords(codec.casefold(a), NotAlphanumeric);
    WordsAreWords(codec.casefold(b), NotAlphanumeric);
    WordsOfJoin(Words(codec.casefold(a), NotAlphanumeric), NotAlphanumeric);
    WordsOfJoin(Words(codec.casefold(b), NotAlphanumeric), NotAlphanumeric);
  }

  ghost predicate FixesKeys(casefold: string -> string) {
    forall s: string :: (forall i :: 0 <= i < |s| ==> s[i] == ' ' || !NotAlphanumeric(s[i])) ==> casefold(s) == s
  }

  lemma {:induction false} JoinedKey(ws: seq<string>)
    requires AreWords(ws, NotAlphanumeric)
    ensures forall i :: 0 <= i < |Join(ws)| ==> Join(ws)[i] == ' ' || !NotAlphanumeric(Join(ws)[i])
  {
    if |ws| > 1 {
      JoinedKey(ws[1..]);
    }
  }

  predicate NotLetter(c: char) {
    !('a' <= c <= 'z' || '0' <= c <= '9')
  }

  // A company key is made of the letters a to z, digits and single inner spaces, and it holds exactly
  // the letters and digits of the folded name, in order. A title keeps all but its white space.
  lemma KeysKeepText(codec: Codec, title: string, company: string)
    ensures
      var key := NormalizeCompany(codec, company);
      && Without(key, NotLetter) == Without(codec.casefold(company), NotLetter)
      && (forall i :: 0 <= i < |key| ==> key[i] == ' ' || !NotLetter(key[i]))
    ensures Without(NormalizeTitle(title), IsSpace) == Without(title, IsSpace)
  {
    var folded := codec.casefold(company);
    StripSqueeze(folded, NotAlphanumeric);
    WordsAreWords(folded, NotAlphanumeric);
    JoinedKey(Words(folded, NotAlphanumeric));
    WordsKeep(folded, NotAlphanumeric);
    SameSeparators(folded, NotAlphanumeric, NotLetter);
    SameSeparators(NormalizeCompany(codec, company), NotAlphanumeric, NotLetter);
    WordsKeep(title, IsSpace);
  }

  lemma {:induction false} SameSeparators(s: string, a: char -> bool, b: char -> bool)
    requires forall c :: a(c) == b(c)
    ensures Without(s, a) == Without(s, b)
  {
    if s != [] { SameSeparators(s[..|s| - 1], a, b); }
  }

  // Titles and company keys are canonical: normalizing them again changes nothing.
  lemma NormalizationIsProjection(codec: Codec, title: string, company: string)
    requires FixesKeys(codec.casefold)
    ensures NormalizeTitle(NormalizeTitle(title)) == NormalizeTitle(title)
    ensures NormalizeCompany(codec, NormalizeCompany(codec, company)) == NormalizeCompany(codec, company)
  {
    WordsAreWords(title, IsSpace);
    WordsOfJoin(Words(title, IsSpace), IsSpace);
    var ws := Words(codec.casefold(company), NotAlphanumeric);
    var key := NormalizeCompany(codec, company);
    StripSqueeze(codec.casefold(company), NotAlphanumeric);
    WordsAreWords(codec.casefold(company), NotAlphanumeric);
    JoinedKey(ws);
    assert codec.casefold(key) == key;
    StripSqueeze(key, NotAlphanumeric);
    WordsOfJoin(ws, NotAlphanumeric);
  }

  // ---------------------------------------------------------------- stored rows

  // What a fetched record contributes to the row it creates or changes.
  ghost predicate TakenFrom(codec: Codec, row: Job, r: RawJobRecord) {
    && row.title == Join(Words(r.title, IsSpace))
    && row.description == (if r.description.Some? then r.description.value else "")
    && row.descriptionHash == codec.sha256(Strip(row.description))
    && row.locations == (if r.location.Some? && r.location.value != "" then [r.location.value] else [])
  }

  ghost predicate BelongsTo(cat: Catalog, source: nat, r: RawJobRecord, j: nat) {
    (source, r.externalId) in cat.index && cat.index[(source, r.externalId)] == j
  }

  // Where every row after a batch comes from: it is the row that was there, or its contents are those
  // of one fetched record that belongs to it; and who created it gave it its URL and company for good.
  lemma StoredRows(codec: Codec, cat: Catalog, source: nat, records: seq<RawJobRecord>, companyName: string, j: nat)
    requires Valid(cat)
    requires j < |Ingest(cat, source, NormalizeAll(codec, records, companyName)).jobs|
    ensures
      var after := Ingest(cat, source, NormalizeAll(codec, records, companyName));
      var row := after.jobs[j];
      && ((j < |cat.jobs| && row == cat.jobs[j])
          || (exists i :: 0 <= i < |records| && BelongsTo(after, source, records[i], j)
                          && TakenFrom(codec, row, records[i])))
      && (if j < |cat.jobs| then
            && row.applicationUrl == cat.jobs[j].applicationUrl && row.companyName == cat.jobs[j].companyName
            && row.companyNormalized == cat.jobs[j].companyNormalized
          else
            && (exists i :: 0 <= i < |records| && BelongsTo(after, source, records[i], j)
                            && row.applicationUrl == records[i].applicationUrl)
            && row.companyName == Strip(companyName)
            && row.companyNormalized == Strip(Squeeze(codec.casefold(companyName), NotAlphanumeric)))
  {
    var batch := NormalizeAll(codec, records, companyName);
    var after := Ingest(cat, source, batch);
    var hits := Hits(after.index, source, batch, j);
    var start := JobHistory(cat, source, batch, j);
    if j >= |cat.jobs| {
      var first := HitFrom(after.index, source, batch, j, 0);
      assert BelongsTo(after, source, records[first], j);
      assert TakenFrom(codec, start, records[first]);
    }
    if hits != [] {
      var last := HitFrom(after.index, source, batch, j, LastBlock(hits));
      assert BelongsTo(after, source, records[last], j);
    }
  }

  // ---------------------------------------------------------------- stored hashes

  ghost predicate HashFits(codec: Codec, cat: Catalog) {
    forall j :: 0 <= j < |cat.jobs| ==> cat.jobs[j].descriptionHash == DescriptionHash(codec, cat.jobs[j].description)
  }

  lemma MergeKeepsHashes(codec: Codec, cat: Catalog, source: nat, record: RawJobRecord, companyName: string)
    requires HashFits(codec, cat)
    ensures HashFits(codec, Merge(cat, source, NormalizeRecord(codec, record, companyName)))
  {
  }

  // Every job's stored hash is always the hash of its stored description.
  lemma {:induction false} IngestKeepsHashes(codec: Codec, cat: Catalog, source: nat, records: seq<RawJobRecord>,
                                             companyName: string)
    requires HashFits(codec, cat)
    ensures HashFits(codec, Ingest(cat, source, NormalizeAll(codec, records, companyName)))
  {
    if records != [] {
      var n := |records| - 1;
      var batch := NormalizeAll(codec, records, companyName);
      IngestKeepsHashes(codec, cat, source, records[..n], companyName);
      assert batch[..n] == NormalizeAll(codec, records[..n], companyName);
      MergeKeepsHashes(codec, Ingest(cat, source, batch[..n]), source, records[n], companyName);
    }
  }
}
