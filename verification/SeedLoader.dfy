/**
 The incremental corpus load: services/intelligence/app/services/seed_loader.py and
 services/intelligence/app/repositories/package_embeddings.py.
 The full rebuild it stands in for re-embeds and overwrites every record.
 */
module SeedLoader {
  import opened Common
  import opened PackageNames

  type Instant = int
  type Vector = seq<real>
  type RowKey = (string, string)

  datatype SeedRecord = SeedRecord(
    ecosystem: string,
    package: string,
    description: Option<string>,
    source: string,
    sourceQuery: Option<string>,
    sourceRank: Option<int>,
    scoreFinal: Option<real>,
    collectedAt: Instant,
    sourceRecordHash: string)

  datatype Content = Content(
    description: Option<string>,
    embedding: Vector,
    embeddingModel: string,
    source: string,
    sourceQuery: Option<string>,
    sourceRank: Option<int>,
    scoreFinal: Option<real>,
    searchEligible: bool,
    metadataHash: string,
    sourceRecordHash: string,
    active: bool)

  datatype Stamps = Stamps(collectedAt: Instant, createdByRun: int, updatedByRun: int, embeddedAt: Instant,
                           updatedAt: Instant)

  datatype Row = Row(content: Content, stamps: Stamps)

  type Table = map<RowKey, Row>

  datatype Metadata = Metadata(
    source: string,
    sourceQuery: Option<string>,
    sourceRank: Option<int>,
    scoreFinal: Option<real>,
    searchEligible: bool)

  /** SHA-256 of the embedding text and of the metadata payload, and the embedding service of each model. */
  datatype Services = Services(
    hashText: string -> string,
    hashMetadata: Metadata -> string,
    embed: (string, string) -> Vector)

  /** No two texts, and no two metadata payloads, share a hash. */
  ghost predicate CollisionFree(sv: Services) {
    && (forall x, y :: sv.hashText(x) == sv.hashText(y) ==> x == y)
    && (forall x, y :: sv.hashMetadata(x) == sv.hashMetadata(y) ==> x == y)
  }

  function KeyOf(r: SeedRecord): RowKey { (r.ecosystem, r.package) }

  /** build_embedding_text */
  function EmbeddingText(key: RowKey, description: Option<string>): string {
    var desc := Strip(if description.Some? then description.value else "");
    if desc != [] then key.0 + ": " + key.1 + " - " + desc else key.0 + ": " + key.1
  }

  /** What the description validator leaves: nothing, or stripped text. */
  predicate CleanDescription(d: Option<string>) { d.None? || (d.value != [] && Strip(d.value) == d.value) }

  /** For a given package, the embedding text determines a clean description. */
  lemma TextDeterminesDescription(key: RowKey, d: Option<string>, e: Option<string>)
    requires CleanDescription(d) && CleanDescription(e)
    requires EmbeddingText(key, d) == EmbeddingText(key, e)
    ensures d == e
  {
    var head := key.0 + ": " + key.1;
    assert Strip("") == "";
    assert d.Some? ==> EmbeddingText(key, d)[|head| + 3..] == d.value;
    assert e.Some? ==> EmbeddingText(key, e)[|head| + 3..] == e.value;
  }

  /** get_corpus_policy(ecosystem).is_search_eligible */
  function SearchEligible(r: SeedRecord): bool {
    if r.ecosystem != "npm" then true
    else
      var rankOk := r.sourceRank.Some? && r.sourceRank.value <= 100;
      var scoreOk := r.scoreFinal.Some? && r.scoreFinal.value >= 250.0;
      var description := Lower(Strip(if r.description.Some? then r.description.value else ""));
      (rankOk || scoreOk) && !Contains(description, "typo")
  }

  function MetadataOf(r: SeedRecord): Metadata {
    Metadata(r.source, r.sourceQuery, r.sourceRank, r.scoreFinal, SearchEligible(r))
  }

  datatype ExistingState = ExistingState(sourceRecordHash: string, metadataHash: string)

  /** fetch_existing_seed_records: the query crosses the ecosystems and the packages of the records. */
  function FetchExisting(table: Table, records: seq<SeedRecord>): map<RowKey, ExistingState> {
    map key | key in table && (exists r :: r in records && r.ecosystem == key.0)
        && (exists r :: r in records && r.package == key.1)
      :: ExistingState(table[key].content.sourceRecordHash, table[key].content.metadataHash)
  }

  function ExistingFor(existing: map<RowKey, ExistingState>, key: RowKey): Option<ExistingState> {
    if key in existing then Some(existing[key]) else None
  }

  function SourceMatches(state: Option<ExistingState>, r: SeedRecord): bool {
    state.Some? && state.value.sourceRecordHash == r.sourceRecordHash
  }

  function MetadataMatches(state: Option<ExistingState>, r: SeedRecord, sv: Services): bool {
    state.Some? && state.value.metadataHash == sv.hashMetadata(MetadataOf(r))
  }

  datatype Run = Run(id: int, model: string, now: Instant)

  /** The columns of the insert, which on conflict overwrite all but the creating run. */
  function FullContent(r: SeedRecord, embedding: Vector, run: Run, sv: Services): Content {
    Content(r.description, embedding, run.model, r.source, r.sourceQuery, r.sourceRank, r.scoreFinal, SearchEligible(r),
            sv.hashMetadata(MetadataOf(r)), r.sourceRecordHash, true)
  }

  function WriteFull(table: Table, r: SeedRecord, embedding: Vector, run: Run, sv: Services): Table {
    var created := if KeyOf(r) in table then table[KeyOf(r)].stamps.createdByRun else run.id;
    table[KeyOf(r) := Row(FullContent(r, embedding, run, sv), Stamps(r.collectedAt, created, run.id, run.now, run.now))]
  }

  /** The metadata-only update: description, embedding, model and source hash stay. */
  function WriteMetadata(table: Table, r: SeedRecord, run: Run, sv: Services): Table {
    if KeyOf(r) !in table then table
    else
      var row := table[KeyOf(r)];
      table[KeyOf(r) := Row(
        row.content.(source := r.source, sourceQuery := r.sourceQuery, sourceRank := r.sourceRank,
                     scoreFinal := r.scoreFinal, searchEligible := SearchEligible(r),
                     metadataHash := sv.hashMetadata(MetadataOf(r)), active := true),
        row.stamps.(collectedAt := r.collectedAt, updatedByRun := run.id, updatedAt := run.now))]
  }

  datatype Counts = Counts(inserted: nat, updated: nat, skipped: nat)

  /** What a load can raise: itself, the embedding service, or the table of runs. */
  datatype LoadError = MissingEmbedding(key: RowKey) | EmbedderError | RunStoreError

  datatype Progress = Progress(table: Table, counts: Counts)

  function ApplyRecord(p: Progress, r: SeedRecord, existing: map<RowKey, ExistingState>,
                       embeddings: map<RowKey, Vector>, run: Run, sv: Services): Result<Progress, LoadError> {
    var state := ExistingFor(existing, KeyOf(r));
    if SourceMatches(state, r) && MetadataMatches(state, r, sv) then
      Ok(p.(counts := p.counts.(skipped := p.counts.skipped + 1)))
    else
      var counts := if state.None? then p.counts.(inserted := p.counts.inserted + 1)
          else p.counts.(updated := p.counts.updated + 1);
      if SourceMatches(state, r) then Ok(Progress(WriteMetadata(p.table, r, run, sv), counts))
      else if KeyOf(r) !in embeddings then Err(MissingEmbedding(KeyOf(r)))
      else Ok(Progress(WriteFull(p.table, r, embeddings[KeyOf(r)], run, sv), counts))
  }

  function ApplyAll(table: Table, records: seq<SeedRecord>, existing: map<RowKey, ExistingState>,
                    embeddings: map<RowKey, Vector>, run: Run, sv: Services): Result<Progress, LoadError> {
    if records == [] then Ok(Progress(table, Counts(0, 0, 0)))
    else
      match ApplyAll(table, records[..|records| - 1], existing, embeddings, run, sv)
      case Err(e) => Err(e)
      case Ok(p) => ApplyRecord(p, records[|records| - 1], existing, embeddings, run, sv)
  }

  function Upsert(table: Table, records: seq<SeedRecord>, embeddings: map<RowKey, Vector>, run: Run, sv: Services)
      : Result<Progress, LoadError> {
    ApplyAll(table, records, FetchExisting(table, records), embeddings, run, sv)
  }

  function NeedsEmbedding(existing: map<RowKey, ExistingState>): SeedRecord -> bool {
    (r: SeedRecord) => !SourceMatches(ExistingFor(existing, KeyOf(r)), r)
  }

  function RecordEmbedding(r: SeedRecord, model: string, sv: Services): Vector {
    sv.embed(model, EmbeddingText(KeyOf(r), r.description))
  }

  /** The vector of each record, from the embedding service of one model. */
  function Embedder(model: string, sv: Services): SeedRecord -> Vector {
    (r: SeedRecord) => RecordEmbedding(r, model, sv)
  }

  /** The entries that the records leave, a later one of the same package in place of an earlier one. */
  function Entries(records: seq<SeedRecord>, embed: SeedRecord -> Vector): map<RowKey, Vector> {
    if records == [] then map[]
    else
      var last := records[|records| - 1];
      Entries(records[..|records| - 1], embed)[KeyOf(last) := embed(last)]
  }

  function EmbeddingsOf(records: seq<SeedRecord>, model: string, sv: Services): map<RowKey, Vector> {
    Entries(records, Embedder(model, sv))
  }

  lemma OneMoreEntry(before: seq<SeedRecord>, batch: seq<SeedRecord>, k: nat, embed: SeedRecord -> Vector)
    requires k < |batch|
    ensures Entries(before + batch[..k + 1], embed)
            == Entries(before + batch[..k], embed)[KeyOf(batch[k]) := embed(batch[k])]
  {
    var all := before + batch[..k + 1];
    assert all[..|all| - 1] == before + batch[..k] && all[|all| - 1] == batch[k];
  }

  /** load_records without the run bookkeeping. */
  function Load(table: Table, records: seq<SeedRecord>, run: Run, sv: Services): Result<Progress, LoadError> {
    var toEmbed := Filter(records, NeedsEmbedding(FetchExisting(table, records)));
    Upsert(table, records, EmbeddingsOf(toEmbed, run.model, sv), run, sv)
  }

  // ----- errors from outside -----

  const BATCH_SIZE := 50

  /** The batch at which the embedding service raises, and whether marking the run succeeded or failed raises. */
  datatype Faults = Faults(embedder: Option<nat>, success: bool, failure: bool)

  function NoFaults(): Faults { Faults(None, false, false) }

  predicate EmbedderRaises(n: nat, faults: Faults) { faults.embedder.Some? && faults.embedder.value * BATCH_SIZE < n }

  function ToEmbed(table: Table, records: seq<SeedRecord>): seq<SeedRecord> {
    Filter(records, NeedsEmbedding(FetchExisting(table, records)))
  }

  /** The load up to the completion of the run. */
  function Attempt(table: Table, records: seq<SeedRecord>, run: Run, sv: Services, faults: Faults)
      : Result<Progress, LoadError> {
    if EmbedderRaises(|ToEmbed(table, records)|, faults) then Err(EmbedderError) else Load(table, records, run, sv)
  }

  /** The table after an attempt, whatever becomes of the run. */
  function TableAfter(table: Table, attempt: Result<Progress, LoadError>): Table {
    if attempt.Ok? then attempt.value.table else table
  }

  /** What the caller sees. */
  function Raised(attempt: Result<Progress, LoadError>, faults: Faults): Result<Counts, LoadError> {
    if attempt.Ok? && !faults.success then Ok(attempt.value.counts)
    else if attempt.Ok? || faults.failure then Err(RunStoreError)
    else Err(attempt.error)
  }

  datatype RunStatus =
    | Running
    | Succeeded(seen: nat, counts: Counts)
    | Failed(seen: nat, error: LoadError)

  /** What the run's row says: a run whose success could not be recorded is recorded as failed. */
  function Ended(seen: nat, attempt: Result<Progress, LoadError>, faults: Faults): RunStatus {
    if attempt.Ok? && !faults.success then Succeeded(seen, attempt.value.counts)
    else if faults.failure then Running
    else if attempt.Ok? then Failed(seen, RunStoreError)
    else Failed(seen, attempt.error)
  }

  // ----- the service and its table -----

  /** A transaction's outcome: all of its writes, or none. */
  ghost predicate Committed(outcome: Result<Progress, LoadError>, result: Result<Counts, LoadError>, before: Table,
                            after: Table) {
    match outcome
    case Ok(p) => result == Ok(p.counts) && after == p.table
    case Err(e) => result == Err(e) && after == before
  }

  class SeedLoaderService {
    var table: Table
    var runs: map<int, RunStatus>
    const services: Services

    constructor (services: Services)
      ensures this.services == services && table == map[] && runs == map[]
    {
      this.services := services;
      table, runs := map[], map[];
    }

    /** _build_embeddings, in batches of fifty. */
    method BuildEmbeddings(records: seq<SeedRecord>, model: string, faults: Faults)
      returns (result: Result<map<RowKey, Vector>, LoadError>)
      ensures result == if EmbedderRaises(|records|, faults) then Err(EmbedderError)
              else Ok(EmbeddingsOf(records, model, services))
    {
      var embeddings: map<RowKey, Vector> := map[];
      var start, batch := 0, 0;
      while start < |records|
        invariant 0 <= start <= |records| && (start < |records| ==> start == batch * BATCH_SIZE)
        invariant embeddings == Entries(records[..start], Embedder(model, services))
        invariant faults.embedder.Some? && start > 0 ==> faults.embedder.value >= batch
        invariant start == |records| ==> !EmbedderRaises(|records|, faults)
        decreases |records| - start
      {
        if faults.embedder == Some(batch) {
          return Err(EmbedderError);
        }
        var end := if start + BATCH_SIZE < |records| then start + BATCH_SIZE else |records|;
        embeddings := EmbedBatch(records, start, end, Embedder(model, services), embeddings);
        start, batch := end, batch + 1;
      }
      assert records[..start] == records;
      return Ok(embeddings);
    }

    /** One batch: its vectors, and their entries. */
    method EmbedBatch(records: seq<SeedRecord>, start: nat, end: nat, embed: SeedRecord -> Vector,
                      embeddings: map<RowKey, Vector>)
      returns (embeddings': map<RowKey, Vector>)
      requires start <= end <= |records| && embeddings == Entries(records[..start], embed)
      ensures embeddings' == Entries(records[..end], embed)
    {
      var before, batch := records[..start], records[start..end];
      var vectors := Map(batch, embed);
      embeddings' := embeddings;
      assert before + batch[..0] == before;
      for i := 0 to |batch|
        invariant embeddings' == Entries(before + batch[..i], embed)
      {
        OneMoreEntry(before, batch, i, embed);
        embeddings' := embeddings'[KeyOf(batch[i]) := vectors[i]];
      }
      assert before + batch[..|batch|] == records[..end];
    }

    /** upsert_seed_records: one transaction, so an error leaves the table as it was. */
    method UpsertSeedRecords(records: seq<SeedRecord>, embeddings: map<RowKey, Vector>, run: Run)
      returns (result: Result<Counts, LoadError>)
      modifies this`table
      ensures Committed(Upsert(old(table), records, embeddings, run, services), result, old(table), table)
    {
      if records == [] {
        return Ok(Counts(0, 0, 0));
      }
      var existing := FetchExisting(table, records);
      var progress := Progress(table, Counts(0, 0, 0));
      for i := 0 to |records|
        invariant ApplyAll(old(table), records[..i], existing, embeddings, run, services) == Ok(progress)
        invariant table == old(table)
      {
        OneMoreApplied(table, records, i, existing, embeddings, run, services);
        var next := UpsertRecord(progress, records[i], existing, embeddings, run);
        if next.Err? {
          ErrorStays(table, records, i + 1, existing, embeddings, run, services);
          return Err(next.error);
        }
        progress := next.value;
      }
      assert records[..|records|] == records;
      table := progress.table;
      result := Ok(progress.counts);
    }

    /** The body of its loop, with the counts and the rows written so far. */
    method UpsertRecord(p: Progress, r: SeedRecord, existing: map<RowKey, ExistingState>,
                        embeddings: map<RowKey, Vector>, run: Run)
      returns (result: Result<Progress, LoadError>)
      ensures result == ApplyRecord(p, r, existing, embeddings, run, services)
    {
      var state, counts := ExistingFor(existing, KeyOf(r)), p.counts;
      if SourceMatches(state, r) && MetadataMatches(state, r, services) {
        return Ok(Progress(p.table, counts.(skipped := counts.skipped + 1)));
      }
      if state.None? {
        counts := counts.(inserted := counts.inserted + 1);
      } else {
        counts := counts.(updated := counts.updated + 1);
      }
      if SourceMatches(state, r) {
        return Ok(Progress(WriteMetadata(p.table, r, run, services), counts));
      }
      if KeyOf(r) !in embeddings {
        return Err(MissingEmbedding(KeyOf(r)));
      }
      return Ok(Progress(WriteFull(p.table, r, embeddings[KeyOf(r)], run, services), counts));
    }

    /** load_records */
    method LoadRecords(records: seq<SeedRecord>, run: Run, faults: Faults) returns (result: Result<Counts, LoadError>)
      requires run.id !in runs
      modifies this
      ensures var attempt := Attempt(old(table), records, run, services, faults);
              && table == TableAfter(old(table), attempt)
              && result == Raised(attempt, faults)
              && runs == old(runs)[run.id := Ended(|records|, attempt, faults)]
    {
      ghost var attempt := Attempt(table, records, run, services, faults);
      runs := runs[run.id := Running];
      var loaded := LoadInto(records, run, faults);
      result := CompleteRun(run.id, |records|, loaded, faults, attempt);
    }

    /** The completion of the run: as succeeded, or in the handler of whatever was raised, that included. */
    method CompleteRun(id: int, seen: nat, loaded: Result<Counts, LoadError>, faults: Faults,
                       ghost attempt: Result<Progress, LoadError>)
      returns (result: Result<Counts, LoadError>)
      requires loaded == if attempt.Ok? then Ok(attempt.value.counts) else Err(attempt.error)
      requires id in runs && runs[id] == Running
      modifies this`runs
      ensures result == Raised(attempt, faults) && runs == old(runs)[id := Ended(seen, attempt, faults)]
    {
      result := loaded;
      if loaded.Ok? {
        if !faults.success {
          runs := runs[id := Succeeded(seen, loaded.value)];
          return;
        }
        result := Err(RunStoreError);
      }
      if faults.failure {
        return Err(RunStoreError);
      }
      runs := runs[id := Failed(seen, result.error)];
    }

    /** What load_records does between creating the run row and completing it. */
    method LoadInto(records: seq<SeedRecord>, run: Run, faults: Faults) returns (result: Result<Counts, LoadError>)
      modifies this`table
      ensures Committed(Attempt(old(table), records, run, services, faults), result, old(table), table)
    {
      var existing := FetchExisting(table, records);
      var toEmbed := Filter(records, NeedsEmbedding(existing));
      var embeddings := BuildEmbeddings(toEmbed, run.model, faults);
      if embeddings.Err? {
        return Err(embeddings.error);
      }
      assert Load(table, records, run, services) == Upsert(table, records, embeddings.value, run, services);
      result := UpsertSeedRecords(records, embeddings.value, run);
    }
  }

  lemma OneMoreApplied(table: Table, records: seq<SeedRecord>, n: nat, existing: map<RowKey, ExistingState>,
                       embeddings: map<RowKey, Vector>, run: Run, sv: Services)
    requires n < |records| && ApplyAll(table, records[..n], existing, embeddings, run, sv).Ok?
    ensures ApplyAll(table, records[..n + 1], existing, embeddings, run, sv)
         == ApplyRecord(ApplyAll(table, records[..n], existing, embeddings, run, sv).value, records[n], existing,
                        embeddings, run, sv)
  {
    assert records[..n + 1][..n] == records[..n];
  }

  lemma {:induction false} ErrorStays(table: Table, records: seq<SeedRecord>, n: nat,
                                      existing: map<RowKey, ExistingState>, embeddings: map<RowKey, Vector>, run: Run,
                                      sv: Services)
    requires n <= |records| && ApplyAll(table, records[..n], existing, embeddings, run, sv).Err?
    ensures ApplyAll(table, records, existing, embeddings, run, sv)
            == ApplyAll(table, records[..n], existing, embeddings, run, sv)
    decreases |records|
  {
    if n < |records| {
      var front := records[..|records| - 1];
      assert front[..n] == records[..n];
      ErrorStays(table, front, n, existing, embeddings, run, sv);
    } else {
      assert records[..n] == records;
    }
  }
}
