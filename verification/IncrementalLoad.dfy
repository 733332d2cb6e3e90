/** The incremental load against the full rebuild it stands in for. */
module IncrementalLoad {
  import opened Common
  import opened SeedLoader

  ghost predicate DistinctKeys(records: seq<SeedRecord>) {
    forall i, j :: 0 <= i < j < |records| ==> KeyOf(records[i]) != KeyOf(records[j])
  }

  /** What the normaliser and the record validators deliver. */
  ghost predicate WellHashed(records: seq<SeedRecord>, sv: Services) {
    forall r :: r in records ==>
      CleanDescription(r.description) && r.sourceRecordHash == sv.hashText(EmbeddingText(KeyOf(r), r.description))
  }

  function StoredMetadata(c: Content): Metadata {
    Metadata(c.source, c.sourceQuery, c.sourceRank, c.scoreFinal, c.searchEligible)
  }

  /** A row whose hashes match its own columns and whose embedding is its model's, of its own text. */
  ghost predicate RowConsistent(key: RowKey, c: Content, sv: Services) {
    && CleanDescription(c.description)
    && c.sourceRecordHash == sv.hashText(EmbeddingText(key, c.description))
    && c.metadataHash == sv.hashMetadata(StoredMetadata(c))
    && c.embedding == sv.embed(c.embeddingModel, EmbeddingText(key, c.description))
  }

  ghost predicate TableConsistent(table: Table, sv: Services) {
    forall key :: key in table ==> RowConsistent(key, table[key].content, sv)
  }

  // ----- what a load does to each key -----

  lemma ExistingOfRecord(table: Table, records: seq<SeedRecord>, r: SeedRecord)
    requires r in records
    ensures ExistingFor(FetchExisting(table, records), KeyOf(r)) ==
            if KeyOf(r) in table
            then Some(ExistingState(table[KeyOf(r)].content.sourceRecordHash, table[KeyOf(r)].content.metadataHash))
            else None
  {
  }

  lemma EmbeddingOfRecord(records: seq<SeedRecord>, model: string, sv: Services, r: SeedRecord)
    requires r in records && DistinctKeys(records)
    ensures KeyOf(r) in EmbeddingsOf(records, model, sv)
    ensures EmbeddingsOf(records, model, sv)[KeyOf(r)] == RecordEmbedding(r, model, sv)
  {
    EntryOfRecord(records, Embedder(model, sv), r);
  }

  lemma {:induction false} EntryOfRecord(records: seq<SeedRecord>, embed: SeedRecord -> Vector, r: SeedRecord)
    requires r in records && DistinctKeys(records)
    ensures KeyOf(r) in Entries(records, embed) && Entries(records, embed)[KeyOf(r)] == embed(r)
  {
    var front, last := records[..|records| - 1], records[|records| - 1];
    if r != last {
      assert r in front;
      EntryOfRecord(front, embed, r);
      var i :| 0 <= i < |front| && front[i] == r;
      assert records[i] == r && KeyOf(records[i]) != KeyOf(records[|records| - 1]);
    }
  }

  /** The row that a record's key has after the load, from the row it had before. */
  function LoadedContent(table: Table, r: SeedRecord, run: SeedLoader.Run, sv: Services): Content {
    var full := FullContent(r, RecordEmbedding(r, run.model, sv), run, sv);
    if KeyOf(r) !in table then full
    else
      var stored := table[KeyOf(r)].content;
      if stored.sourceRecordHash != r.sourceRecordHash then full
      else if stored.metadataHash == sv.hashMetadata(MetadataOf(r)) then stored
      else
        stored.(source := r.source, sourceQuery := r.sourceQuery, sourceRank := r.sourceRank,
                scoreFinal := r.scoreFinal, searchEligible := SearchEligible(r),
                metadataHash := sv.hashMetadata(MetadataOf(r)), active := true)
  }

  function KeysOf(records: seq<SeedRecord>): set<RowKey> { set r | r in records :: KeyOf(r) }

  predicate RowIs(table: Table, key: RowKey, content: Content) { key in table && table[key].content == content }

  predicate SameRow(table: Table, work: Table, key: RowKey) {
    (key in work <==> key in table) && (key in table ==> work[key] == table[key])
  }

  /** The records are loaded, and the rows of other keys have not changed at all. */
  ghost predicate Loaded(table: Table, work: Table, records: seq<SeedRecord>, run: SeedLoader.Run, sv: Services) {
    && (forall r :: r in records ==> RowIs(work, KeyOf(r), LoadedContent(table, r, run, sv)))
    && (forall key :: key !in KeysOf(records) ==> SameRow(table, work, key))
  }

  /** A record that is not skipped or updated in place has its embedding at hand. */
  ghost predicate EmbeddingAtHand(table: Table, r: SeedRecord, embeddings: map<RowKey, Vector>, run: SeedLoader.Run,
                                  sv: Services) {
    (KeyOf(r) in table ==> table[KeyOf(r)].content.sourceRecordHash != r.sourceRecordHash) ==>
      KeyOf(r) in embeddings && embeddings[KeyOf(r)] == RecordEmbedding(r, run.model, sv)
  }

  function Total(c: Counts): nat { c.inserted + c.updated + c.skipped }

  /** One record writes its own row, as LoadedContent says, and is counted once. */
  lemma RecordWritesItsRow(table: Table, p: Progress, r: SeedRecord, existing: map<RowKey, ExistingState>,
                           embeddings: map<RowKey, Vector>, run: SeedLoader.Run, sv: Services)
    requires SameRow(table, p.table, KeyOf(r)) && Prepared(table, existing, embeddings, r, run, sv)
    ensures var next := ApplyRecord(p, r, existing, embeddings, run, sv);
            && next.Ok? && Total(next.value.counts) == Total(p.counts) + 1
            && RowIs(next.value.table, KeyOf(r), LoadedContent(table, r, run, sv))
            && forall key :: key != KeyOf(r) ==> SameRow(p.table, next.value.table, key)
  {
  }

  lemma LoadedOneMore(table: Table, work: Table, next: Table, front: seq<SeedRecord>, r: SeedRecord,
                      run: SeedLoader.Run, sv: Services)
    requires Loaded(table, work, front, run, sv) && KeyOf(r) !in KeysOf(front)
    requires RowIs(next, KeyOf(r), LoadedContent(table, r, run, sv))
    requires forall key :: key != KeyOf(r) ==> SameRow(work, next, key)
    ensures Loaded(table, next, front + [r], run, sv)
  {
    forall x | x in front + [r] ensures RowIs(next, KeyOf(x), LoadedContent(table, x, run, sv)) {
      if x in front {
        assert KeyOf(x) in KeysOf(front);
        assert SameRow(work, next, KeyOf(x));
      }
    }
    forall key | key !in KeysOf(front + [r]) ensures SameRow(table, next, key) {
      assert r in front + [r] && forall x :: x in front ==> x in front + [r];
      assert SameRow(work, next, key) && SameRow(table, work, key);
    }
  }

  lemma LastKeyIsNew(front: seq<SeedRecord>, r: SeedRecord)
    requires DistinctKeys(front + [r])
    ensures DistinctKeys(front) && KeyOf(r) !in KeysOf(front)
  {
    var records := front + [r];
    assert forall i :: 0 <= i < |front| ==> records[i] == front[i];
    forall x | x in front ensures KeyOf(x) != KeyOf(r) {
      var i :| 0 <= i < |front| && front[i] == x;
      assert records[i] == x && records[|front|] == r;
    }
  }

  /** What the load relies on for a record: what it read of its row, and its embedding. */
  ghost predicate Prepared(table: Table, existing: map<RowKey, ExistingState>, embeddings: map<RowKey, Vector>,
                           r: SeedRecord, run: SeedLoader.Run, sv: Services) {
    && EmbeddingAtHand(table, r, embeddings, run, sv)
    && ExistingFor(existing, KeyOf(r)) ==
         (if KeyOf(r) in table
          then Some(ExistingState(table[KeyOf(r)].content.sourceRecordHash, table[KeyOf(r)].content.metadataHash))
          else None)
  }

  /** The loop over these records succeeds, counts each once and loads them all. */
  ghost predicate LoadsAll(table: Table, records: seq<SeedRecord>, existing: map<RowKey, ExistingState>,
                           embeddings: map<RowKey, Vector>, run: SeedLoader.Run, sv: Services) {
    var p := ApplyAll(table, records, existing, embeddings, run, sv);
    p.Ok? && Total(p.value.counts) == |records| && Loaded(table, p.value.table, records, run, sv)
  }

  lemma {:induction false} LoadPrefix(table: Table, records: seq<SeedRecord>, existing: map<RowKey, ExistingState>,
                                      embeddings: map<RowKey, Vector>, run: SeedLoader.Run, sv: Services)
    requires DistinctKeys(records) && forall r :: r in records ==> Prepared(table, existing, embeddings, r, run, sv)
    ensures LoadsAll(table, records, existing, embeddings, run, sv)
  {
    if records == [] {
      LoadNone(table, existing, embeddings, run, sv);
    } else {
      var front, r := records[..|records| - 1], records[|records| - 1];
      assert records == front + [r];
      LastKeyIsNew(front, r);
      LoadPrefix(table, front, existing, embeddings, run, sv);
      LoadOneMore(table, front, r, existing, embeddings, run, sv);
    }
  }

  lemma LoadNone(table: Table, existing: map<RowKey, ExistingState>, embeddings: map<RowKey, Vector>,
                 run: SeedLoader.Run, sv: Services)
    ensures LoadsAll(table, [], existing, embeddings, run, sv)
  {
    assert ApplyAll(table, [], existing, embeddings, run, sv) == Ok(Progress(table, Counts(0, 0, 0)));
    NothingLoaded(table, run, sv);
  }

  lemma NothingLoaded(table: Table, run: SeedLoader.Run, sv: Services)
    ensures Loaded(table, table, [], run, sv)
  {
    forall key ensures SameRow(table, table, key) {
    }
  }

  lemma LoadOneMore(table: Table, front: seq<SeedRecord>, r: SeedRecord, existing: map<RowKey, ExistingState>,
                    embeddings: map<RowKey, Vector>, run: SeedLoader.Run, sv: Services)
    requires LoadsAll(table, front, existing, embeddings, run, sv) && KeyOf(r) !in KeysOf(front)
    requires Prepared(table, existing, embeddings, r, run, sv)
    ensures LoadsAll(table, front + [r], existing, embeddings, run, sv)
  {
    var p := ApplyAll(table, front, existing, embeddings, run, sv).value;
    assert SameRow(table, p.table, KeyOf(r));
    RecordWritesItsRow(table, p, r, existing, embeddings, run, sv);
    var next := ApplyRecord(p, r, existing, embeddings, run, sv);
    LoadedOneMore(table, p.table, next.value.table, front, r, run, sv);
    assert (front + [r])[..|front|] == front;
    assert ApplyAll(table, front + [r], existing, embeddings, run, sv) == next;
  }

  lemma EmbeddedWhatIsNeeded(table: Table, records: seq<SeedRecord>, run: SeedLoader.Run, sv: Services, r: SeedRecord)
    requires DistinctKeys(records) && r in records
    ensures EmbeddingAtHand(table, r,
              EmbeddingsOf(Filter(records, NeedsEmbedding(FetchExisting(table, records))), run.model, sv), run, sv)
  {
    var needs := NeedsEmbedding(FetchExisting(table, records));
    FilterKeepsDistinct(records, KeyOf, needs);
    ExistingOfRecord(table, records, r);
    if KeyOf(r) in table ==> table[KeyOf(r)].content.sourceRecordHash != r.sourceRecordHash {
      assert needs(r);
      EmbeddingOfRecord(Filter(records, needs), run.model, sv, r);
    }
  }

  /**
   With distinct keys the missing-embedding error is never reached, every record is counted once,
   each record's row is as LoadedContent says, and all other rows keep even their timestamps.
   */
  lemma LoadSucceeds(table: Table, records: seq<SeedRecord>, run: SeedLoader.Run, sv: Services)
    requires DistinctKeys(records)
    ensures var p := Load(table, records, run, sv);
            p.Ok? && Total(p.value.counts) == |records| && Loaded(table, p.value.table, records, run, sv)
  {
    var embeddings := EmbeddingsOf(Filter(records, NeedsEmbedding(FetchExisting(table, records))), run.model, sv);
    forall r | r in records ensures Prepared(table, FetchExisting(table, records), embeddings, r, run, sv) {
      EmbeddedWhatIsNeeded(table, records, run, sv, r);
      ExistingOfRecord(table, records, r);
    }
    LoadPrefix(table, records, FetchExisting(table, records), embeddings, run, sv);
  }

  // ----- the full rebuild -----

  /** Re-embed and overwrite every record. */
  function Rebuild(table: Table, records: seq<SeedRecord>, run: SeedLoader.Run, sv: Services): Table {
    if records == [] then table
    else
      var last := records[|records| - 1];
      WriteFull(Rebuild(table, records[..|records| - 1], run, sv), last, RecordEmbedding(last, run.model, sv), run, sv)
  }

  function RebuiltContent(r: SeedRecord, run: SeedLoader.Run, sv: Services): Content {
    FullContent(r, RecordEmbedding(r, run.model, sv), run, sv)
  }

  lemma {:induction false} RebuildWrites(table: Table, records: seq<SeedRecord>, run: SeedLoader.Run, sv: Services)
    requires DistinctKeys(records)
    ensures forall r :: r in records ==> RowIs(Rebuild(table, records, run, sv), KeyOf(r), RebuiltContent(r, run, sv))
    ensures forall key :: key !in KeysOf(records) ==> SameRow(table, Rebuild(table, records, run, sv), key)
  {
    if records != [] {
      var front, last := records[..|records| - 1], records[|records| - 1];
      assert records == front + [last];
      LastKeyIsNew(front, last);
      RebuildWrites(table, front, run, sv);
      var before, full := Rebuild(table, front, run, sv), Rebuild(table, records, run, sv);
      assert forall key :: key != KeyOf(last) ==> SameRow(before, full, key);
      forall r | r in records ensures RowIs(full, KeyOf(r), RebuiltContent(r, run, sv)) {
        if r in front {
          assert KeyOf(r) in KeysOf(front);
          assert SameRow(before, full, KeyOf(r));
        }
      }
      forall key | key !in KeysOf(records) ensures SameRow(table, full, key) {
        assert last in records && forall x :: x in front ==> x in records;
        assert SameRow(table, before, key) && SameRow(before, full, key);
      }
    }
  }

  function Contents(table: Table): map<RowKey, Content> { map key | key in table :: table[key].content }

  /**
   The stored row makes the load reuse columns that a rebuild would replace: its text is current but
   another model embedded it, or it is skipped although it is inactive.
   */
  predicate ReusesStale(table: Table, r: SeedRecord, model: string, sv: Services) {
    && KeyOf(r) in table
    && var stored := table[KeyOf(r)].content;
       stored.sourceRecordHash == r.sourceRecordHash
       && (stored.embeddingModel != model || (stored.metadataHash == sv.hashMetadata(MetadataOf(r)) && !stored.active))
  }

  /** For one record: the load leaves the rebuild's columns exactly when it reuses nothing stale. */
  lemma RecordEqualsRebuildIff(table: Table, r: SeedRecord, run: SeedLoader.Run, sv: Services)
    requires CollisionFree(sv) && TableConsistent(table, sv)
    requires CleanDescription(r.description)
             && r.sourceRecordHash == sv.hashText(EmbeddingText(KeyOf(r), r.description))
    ensures LoadedContent(table, r, run, sv) == RebuiltContent(r, run, sv) <==>
            !ReusesStale(table, r, run.model, sv)
  {
    if KeyOf(r) in table && table[KeyOf(r)].content.sourceRecordHash == r.sourceRecordHash {
      var stored := table[KeyOf(r)].content;
      assert RowConsistent(KeyOf(r), stored, sv);
      TextDeterminesDescription(KeyOf(r), stored.description, r.description);
      if stored.metadataHash == sv.hashMetadata(MetadataOf(r)) {
        assert StoredMetadata(stored) == MetadataOf(r);
      }
    }
  }

  /**
   The incremental load leaves the same content columns as the full rebuild if and only if no record
   meets a stored row of the same text that was embedded by another model, or is skipped while inactive.
   */
  lemma IncrementalEqualsRebuildIff(table: Table, records: seq<SeedRecord>, run: SeedLoader.Run, sv: Services)
    requires CollisionFree(sv) && TableConsistent(table, sv)
    requires DistinctKeys(records) && WellHashed(records, sv)
    ensures Load(table, records, run, sv).Ok?
    ensures Contents(Load(table, records, run, sv).value.table) == Contents(Rebuild(table, records, run, sv)) <==>
            forall r :: r in records ==> !ReusesStale(table, r, run.model, sv)
  {
    LoadSucceeds(table, records, run, sv);
    forall r | r in records
      ensures LoadedContent(table, r, run, sv) == RebuiltContent(r, run, sv) <==> !ReusesStale(table, r, run.model, sv)
    {
      RecordEqualsRebuildIff(table, r, run, sv);
    }
    SameContentsIff(table, Load(table, records, run, sv).value.table, records, run, sv);
  }

  lemma SameContentsIff(table: Table, loaded: Table, records: seq<SeedRecord>, run: SeedLoader.Run, sv: Services)
    requires Loaded(table, loaded, records, run, sv) && DistinctKeys(records)
    ensures Contents(loaded) == Contents(Rebuild(table, records, run, sv)) <==>
            forall r :: r in records ==> LoadedContent(table, r, run, sv) == RebuiltContent(r, run, sv)
  {
    RebuildWrites(table, records, run, sv);
    var full := Rebuild(table, records, run, sv);
    if forall r :: r in records ==> LoadedContent(table, r, run, sv) == RebuiltContent(r, run, sv) {
      forall key ensures (key in loaded <==> key in full)
          && (key in loaded ==> loaded[key].content == full[key].content) {
        if key in KeysOf(records) {
          var r :| r in records && KeyOf(r) == key;
          assert RowIs(loaded, key, LoadedContent(table, r, run, sv)) && RowIs(full, key, RebuiltContent(r, run, sv));
        } else {
          assert SameRow(table, loaded, key) && SameRow(table, full, key);
        }
      }
    }
    if r :| r in records && LoadedContent(table, r, run, sv) != RebuiltContent(r, run, sv) {
      assert RowIs(loaded, KeyOf(r), LoadedContent(table, r, run, sv))
             && RowIs(full, KeyOf(r), RebuiltContent(r, run, sv));
      assert Contents(loaded)[KeyOf(r)] != Contents(full)[KeyOf(r)];
    }
  }

  /** Two records with one key can make the load keep the first where a rebuild would keep the last. */
  lemma DuplicateKeysDiverge(first: SeedRecord, second: SeedRecord, row: Row, run: SeedLoader.Run, sv: Services)
    requires KeyOf(first) == KeyOf(second) && first.sourceRecordHash != second.sourceRecordHash
    requires row.content == FullContent(second, RecordEmbedding(second, run.model, sv), run, sv)
    ensures var table := map[KeyOf(second) := row];
            var records := [first, second];
            && Load(table, records, run, sv).Ok?
            && Contents(Load(table, records, run, sv).value.table) != Contents(Rebuild(table, records, run, sv))
  {
    var table := map[KeyOf(second) := row];
    var records := [first, second];
    var existing := FetchExisting(table, records);
    ExistingOfRecord(table, records, first);
    ExistingOfRecord(table, records, second);
    var needs := NeedsEmbedding(existing);
    assert needs(first) && !needs(second);
    FilterAppend([first], [second], needs);
    assert [first] + [second] == records;
    var embeddings := EmbeddingsOf(Filter(records, needs), run.model, sv);
    assert Filter(records, needs) == [first];
    OnlyFirstLoaded(table, first, second, existing, embeddings, run, sv);
    assert records[..1] == [first];
    var rebuilt := Rebuild(table, records, run, sv);
    assert RowIs(rebuilt, KeyOf(second), RebuiltContent(second, run, sv));
    var loaded := Load(table, records, run, sv).value.table;
    assert Contents(loaded)[KeyOf(first)].sourceRecordHash != Contents(rebuilt)[KeyOf(first)].sourceRecordHash;
  }

  lemma OnlyFirstLoaded(table: Table, first: SeedRecord, second: SeedRecord, existing: map<RowKey, ExistingState>,
                        embeddings: map<RowKey, Vector>, run: SeedLoader.Run, sv: Services)
    requires KeyOf(first) == KeyOf(second) && KeyOf(first) in embeddings
    requires !SourceMatches(ExistingFor(existing, KeyOf(first)), first)
    requires SourceMatches(ExistingFor(existing, KeyOf(second)), second)
    requires MetadataMatches(ExistingFor(existing, KeyOf(second)), second, sv)
    ensures var p := ApplyAll(table, [first, second], existing, embeddings, run, sv);
            p.Ok? && KeyOf(first) in p.value.table
                && p.value.table[KeyOf(first)].content.sourceRecordHash == first.sourceRecordHash
  {
    assert [first, second][..1] == [first] && [first][..0] == [];
    assert ApplyAll(table, [], existing, embeddings, run, sv) == Ok(Progress(table, Counts(0, 0, 0)));
    var one := ApplyAll(table, [first], existing, embeddings, run, sv);
    assert one == ApplyRecord(Progress(table, Counts(0, 0, 0)), first, existing, embeddings, run, sv);
  }

  // ----- repeated loads -----

  /** The stored row already has the record's hashes. */
  predicate UpToDate(table: Table, r: SeedRecord, sv: Services) {
    && KeyOf(r) in table
    && table[KeyOf(r)].content.sourceRecordHash == r.sourceRecordHash
    && table[KeyOf(r)].content.metadataHash == sv.hashMetadata(MetadataOf(r))
  }

  lemma {:induction false} AllSkipped(table: Table, all: seq<SeedRecord>, records: seq<SeedRecord>,
                                      embeddings: map<RowKey, Vector>, run: SeedLoader.Run, sv: Services)
    requires forall r :: r in records ==> r in all && UpToDate(table, r, sv)
    ensures ApplyAll(table, records, FetchExisting(table, all), embeddings, run, sv)
            == Ok(Progress(table, Counts(0, 0, |records|)))
  {
    if records != [] {
      var front, r := records[..|records| - 1], records[|records| - 1];
      AllSkipped(table, all, front, embeddings, run, sv);
      ExistingOfRecord(table, all, r);
    }
  }

  /** Loading the same records again skips every one and changes nothing, whatever the run and its model. */
  lemma RepeatSkipsAll(table: Table, records: seq<SeedRecord>, run: SeedLoader.Run, again: SeedLoader.Run, sv: Services)
    requires DistinctKeys(records)
    ensures Load(table, records, run, sv).Ok?
    ensures var loaded := Load(table, records, run, sv).value.table;
            Load(loaded, records, again, sv) == Ok(Progress(loaded, Counts(0, 0, |records|)))
  {
    LoadSucceeds(table, records, run, sv);
    var loaded := Load(table, records, run, sv).value.table;
    forall r | r in records ensures UpToDate(loaded, r, sv) {
      assert RowIs(loaded, KeyOf(r), LoadedContent(table, r, run, sv));
    }
    var embeddings := EmbeddingsOf(Filter(records, NeedsEmbedding(FetchExisting(loaded, records))), again.model, sv);
    AllSkipped(loaded, records, records, embeddings, again, sv);
  }

  /**
   A run recorded as failed has loaded its records exactly if what was recorded is that its success
   could not be; any other failed run has left the table as it was.
   */
  lemma RecordedErrorTells(table: Table, records: seq<SeedRecord>, run: SeedLoader.Run, sv: Services, faults: Faults)
    ensures
      var attempt := Attempt(table, records, run, sv, faults);
      var status := Ended(|records|, attempt, faults);
      var load := Load(table, records, run, sv);
      && (status.Failed? && status.error == RunStoreError ==>
          load.Ok? && TableAfter(table, attempt) == load.value.table)
      && (status.Failed? && status.error != RunStoreError ==> TableAfter(table, attempt) == table)
      && (status.Succeeded? ==> load.Ok? && TableAfter(table, attempt) == load.value.table)
  {
    LoadRaisesOnlyMissing(table, records, run, sv);
  }

  lemma LoadRaisesOnlyMissing(table: Table, records: seq<SeedRecord>, run: SeedLoader.Run, sv: Services)
    ensures Load(table, records, run, sv).Err? ==> Load(table, records, run, sv).error.MissingEmbedding?
  {
    ApplyRaisesOnlyMissing(table, records, FetchExisting(table, records),
                           EmbeddingsOf(ToEmbed(table, records), run.model, sv), run, sv);
  }

  lemma {:induction false} ApplyRaisesOnlyMissing(table: Table, records: seq<SeedRecord>,
                                                  existing: map<RowKey, ExistingState>,
                                                  embeddings: map<RowKey, Vector>, run: SeedLoader.Run, sv: Services)
    ensures var p := ApplyAll(table, records, existing, embeddings, run, sv); p.Err? ==> p.error.MissingEmbedding?
    decreases |records|
  {
    if records != [] {
      ApplyRaisesOnlyMissing(table, records[..|records| - 1], existing, embeddings, run, sv);
    }
  }

  /** Loading the records again, undisturbed, gives the content of one undisturbed load, whatever went wrong before. */
  lemma RetryRepairs(table: Table, records: seq<SeedRecord>, run: SeedLoader.Run, again: SeedLoader.Run, sv: Services,
                     faults: Faults)
    requires DistinctKeys(records) && again.model == run.model
    ensures
      var left := TableAfter(table, Attempt(table, records, run, sv, faults));
      var retried := Attempt(left, records, again, sv, NoFaults());
      && Load(table, records, run, sv).Ok? && retried.Ok?
      && Contents(retried.value.table) == Contents(Load(table, records, run, sv).value.table)
  {
    var loaded := Load(table, records, run, sv);
    LoadSucceeds(table, records, run, sv);
    if EmbedderRaises(|ToEmbed(table, records)|, faults) {
      LoadSucceeds(table, records, again, sv);
      SameModelSameContents(table, records, run, again, sv);
    } else {
      RepeatSkipsAll(table, records, run, again, sv);
    }
  }

  lemma SameModelSameContents(table: Table, records: seq<SeedRecord>, run: SeedLoader.Run, again: SeedLoader.Run,
                              sv: Services)
    requires DistinctKeys(records) && again.model == run.model
    ensures Load(table, records, run, sv).Ok? && Load(table, records, again, sv).Ok?
    ensures Contents(Load(table, records, again, sv).value.table) == Contents(Load(table, records, run, sv).value.table)
  {
    LoadSucceeds(table, records, run, sv);
    LoadSucceeds(table, records, again, sv);
    LoadedAlike(table, Load(table, records, again, sv).value.table, Load(table, records, run, sv).value.table,
                records, run, again, sv);
  }

  lemma LoadedAlike(table: Table, x: Table, y: Table, records: seq<SeedRecord>, run: SeedLoader.Run,
                    again: SeedLoader.Run, sv: Services)
    requires again.model == run.model && Loaded(table, x, records, again, sv) && Loaded(table, y, records, run, sv)
    ensures Contents(x) == Contents(y)
  {
    forall key ensures (key in x <==> key in y) && (key in x ==> x[key].content == y[key].content) {
      if key in KeysOf(records) {
        var r :| r in records && KeyOf(r) == key;
        assert RowIs(x, key, LoadedContent(table, r, again, sv)) && RowIs(y, key, LoadedContent(table, r, run, sv));
      } else {
        assert SameRow(table, x, key) && SameRow(table, y, key);
      }
    }
  }

  /** A load keeps every row's hashes and embedding true to its own columns. */
  lemma LoadKeepsConsistent(table: Table, records: seq<SeedRecord>, run: SeedLoader.Run, sv: Services)
    requires TableConsistent(table, sv) && DistinctKeys(records) && WellHashed(records, sv)
    ensures Load(table, records, run, sv).Ok? && TableConsistent(Load(table, records, run, sv).value.table, sv)
  {
    LoadSucceeds(table, records, run, sv);
    var loaded := Load(table, records, run, sv).value.table;
    forall key | key in loaded ensures RowConsistent(key, loaded[key].content, sv) {
      if key in KeysOf(records) {
        var r :| r in records && KeyOf(r) == key;
        assert RowIs(loaded, key, LoadedContent(table, r, run, sv));
        LoadedRowConsistent(table, r, run, sv);
      } else {
        assert SameRow(table, loaded, key);
      }
    }
  }

  lemma LoadedRowConsistent(table: Table, r: SeedRecord, run: SeedLoader.Run, sv: Services)
    requires TableConsistent(table, sv)
    requires CleanDescription(r.description)
             && r.sourceRecordHash == sv.hashText(EmbeddingText(KeyOf(r), r.description))
    ensures RowConsistent(KeyOf(r), LoadedContent(table, r, run, sv), sv)
  {
    if KeyOf(r) in table {
      assert RowConsistent(KeyOf(r), table[KeyOf(r)].content, sv);
    }
  }

  datatype Batch = Batch(records: seq<SeedRecord>, run: SeedLoader.Run)

  function LoadMany(table: Table, batches: seq<Batch>, sv: Services): Result<Table, LoadError>
    decreases |batches|
  {
    if batches == [] then Ok(table)
    else
      match Load(table, batches[0].records, batches[0].run, sv)
      case Err(e) => Err(e)
      case Ok(p) => LoadMany(p.table, batches[1..], sv)
  }

  /** Over every sequence of loads: no error, and a consistent table. */
  lemma {:induction false} RunsStayConsistent(table: Table, batches: seq<Batch>, sv: Services)
    requires TableConsistent(table, sv)
    requires forall b :: b in batches ==> DistinctKeys(b.records) && WellHashed(b.records, sv)
    ensures LoadMany(table, batches, sv).Ok? && TableConsistent(LoadMany(table, batches, sv).value, sv)
    decreases |batches|
  {
    if batches != [] {
      var b := batches[0];
      LoadKeepsConsistent(table, b.records, b.run, sv);
      RunsStayConsistent(Load(table, b.records, b.run, sv).value.table, batches[1..], sv);
    }
  }
}
