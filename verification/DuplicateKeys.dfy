/**
 Loads in which several records may have one key: what the incremental load leaves then, and exactly
 when that is what a rebuild leaves.
 */
module DuplicateKeys {
  import opened Common
  import opened SeedLoader
  import opened IncrementalLoad

  /** The last record with the key. */
  function LastWith(records: seq<SeedRecord>, key: RowKey): (last: Option<SeedRecord>)
    ensures last.Some? <==> key in KeysOf(records)
    ensures last.Some? ==> last.value in records && KeyOf(last.value) == key
  {
    if records == [] then None
    else
      var front, r := records[..|records| - 1], records[|records| - 1];
      assert records == front + [r];
      if KeyOf(r) == key then Some(r) else LastWith(front, key)
  }

  // ----- the rebuild -----

  /** A rebuild leaves a key the content of its last record, and other keys alone. */
  lemma {:induction false} RebuildKeepsLast(table: Table, records: seq<SeedRecord>, run: SeedLoader.Run, sv: Services,
                                            key: RowKey)
    ensures var rebuilt := Rebuild(table, records, run, sv);
            if key in KeysOf(records) then RowIs(rebuilt, key, RebuiltContent(LastWith(records, key).value, run, sv))
            else SameRow(table, rebuilt, key)
    decreases |records|
  {
    if records != [] {
      var front, r := records[..|records| - 1], records[|records| - 1];
      assert records == front + [r];
      RebuildKeepsLast(table, front, run, sv, key);
    }
  }

  // ----- the load, one key -----

  /** The state of one key's row, as the load meets it. */
  function StoredState(table: Table, key: RowKey): Option<ExistingState> {
    if key in table then Some(ExistingState(table[key].content.sourceRecordHash, table[key].content.metadataHash))
    else None
  }

  function WithMetadata(c: Content, r: SeedRecord, sv: Services): Content {
    c.(source := r.source, sourceQuery := r.sourceQuery, sourceRank := r.sourceRank, scoreFinal := r.scoreFinal,
       searchEligible := SearchEligible(r), metadataHash := sv.hashMetadata(MetadataOf(r)), active := true)
  }

  /** One record of the key, met with the state the row had at the start and the key's embedding. */
  function StepContent(c: Option<Content>, r: SeedRecord, state: Option<ExistingState>, embedding: Vector,
                       run: SeedLoader.Run, sv: Services)
    : Option<Content>
  {
    if !SourceMatches(state, r) then Some(FullContent(r, embedding, run, sv))
    else if MetadataMatches(state, r, sv) || c.None? then c
    else Some(WithMetadata(c.value, r, sv))
  }

  /** The content of a key after the records. */
  function KeyContent(start: Option<Content>, records: seq<SeedRecord>, key: RowKey, state: Option<ExistingState>,
                      embedding: Vector, run: SeedLoader.Run, sv: Services): Option<Content> {
    if records == [] then start
    else
      var r := records[|records| - 1];
      var before := KeyContent(start, records[..|records| - 1], key, state, embedding, run, sv);
      if KeyOf(r) == key then StepContent(before, r, state, embedding, run, sv) else before
  }

  function ContentAt(table: Table, key: RowKey): Option<Content> {
    if key in table then Some(table[key].content) else None
  }

  function EmbeddingAt(embeddings: map<RowKey, Vector>, key: RowKey): Vector {
    if key in embeddings then embeddings[key] else []
  }

  /** Each record is met with its row's stored state, and has its embedding if it needs one. */
  ghost predicate Met(table: Table, records: seq<SeedRecord>, existing: map<RowKey, ExistingState>,
                      embeddings: map<RowKey, Vector>) {
    forall r :: r in records ==>
      && ExistingFor(existing, KeyOf(r)) == StoredState(table, KeyOf(r))
      && (!SourceMatches(StoredState(table, KeyOf(r)), r) ==> KeyOf(r) in embeddings)
  }

  /** The loop comes through, counts every record, and leaves each key the content that its own records make. */
  ghost predicate KeyApplied(table: Table, records: seq<SeedRecord>, existing: map<RowKey, ExistingState>,
                             embeddings: map<RowKey, Vector>, run: SeedLoader.Run, sv: Services, key: RowKey) {
    var p := ApplyAll(table, records, existing, embeddings, run, sv);
    && p.Ok? && Total(p.value.counts) == |records|
    && ContentAt(p.value.table, key) ==
       KeyContent(ContentAt(table, key), records, key, StoredState(table, key), EmbeddingAt(embeddings, key), run, sv)
  }

  lemma ApplyOneMore(table: Table, front: seq<SeedRecord>, r: SeedRecord, existing: map<RowKey, ExistingState>,
                     embeddings: map<RowKey, Vector>, run: SeedLoader.Run, sv: Services, key: RowKey)
    requires Met(table, front + [r], existing, embeddings)
             && KeyApplied(table, front, existing, embeddings, run, sv, key)
    ensures KeyApplied(table, front + [r], existing, embeddings, run, sv, key)
  {
    var records := front + [r];
    assert records[..|records| - 1] == front && records[|records| - 1] == r && r in records;
  }

  lemma NothingApplied(table: Table, existing: map<RowKey, ExistingState>, embeddings: map<RowKey, Vector>,
                       run: SeedLoader.Run, sv: Services, key: RowKey)
    ensures KeyApplied(table, [], existing, embeddings, run, sv, key)
  {
  }

  lemma {:induction false} ApplyKey(table: Table, records: seq<SeedRecord>, existing: map<RowKey, ExistingState>,
                                    embeddings: map<RowKey, Vector>, run: SeedLoader.Run, sv: Services, key: RowKey)
    requires Met(table, records, existing, embeddings)
    ensures KeyApplied(table, records, existing, embeddings, run, sv, key)
    decreases |records|
  {
    if records == [] {
      NothingApplied(table, existing, embeddings, run, sv, key);
    } else {
      var front, r := records[..|records| - 1], records[|records| - 1];
      assert records == front + [r];
      ApplyKey(table, front, existing, embeddings, run, sv, key);
      ApplyOneMore(table, front, r, existing, embeddings, run, sv, key);
    }
  }

  // ----- the embeddings -----

  /** A key's embedding is that of its last record among those embedded. */
  lemma EmbeddingIsLast(records: seq<SeedRecord>, model: string, sv: Services, key: RowKey)
    ensures key in EmbeddingsOf(records, model, sv) <==> LastWith(records, key).Some?
    ensures LastWith(records, key).Some? ==>
              EmbeddingsOf(records, model, sv)[key] == RecordEmbedding(LastWith(records, key).value, model, sv)
  {
    EntryIsLast(records, Embedder(model, sv), key);
  }

  lemma {:induction false} EntryIsLast(records: seq<SeedRecord>, embed: SeedRecord -> Vector, key: RowKey)
    ensures key in Entries(records, embed) <==> LastWith(records, key).Some?
    ensures LastWith(records, key).Some? ==> Entries(records, embed)[key] == embed(LastWith(records, key).value)
  {
    if records != [] {
      EntryIsLast(records[..|records| - 1], embed, key);
    }
  }

  lemma LastOfMore(front: seq<SeedRecord>, r: SeedRecord, key: RowKey)
    ensures LastWith(front + [r], key) == if KeyOf(r) == key then Some(r) else LastWith(front, key)
  {
    assert (front + [r])[..|front|] == front;
  }

  /** Leaving records out keeps the last one with a key, if it stays. */
  lemma {:induction false} FilterKeepsLast(records: seq<SeedRecord>, p: SeedRecord -> bool, key: RowKey)
    requires LastWith(records, key).Some? && p(LastWith(records, key).value)
    ensures LastWith(Filter(records, p), key) == LastWith(records, key)
    decreases |records|
  {
    var front, r := records[..|records| - 1], records[|records| - 1];
    assert records == front + [r];
    LastOfMore(front, r, key);
    FilterOneMore(front, r, p);
    LastOfMore(Filter(front, p), r, key);
    if KeyOf(r) != key {
      FilterKeepsLast(front, p, key);
    }
  }

  lemma LoadMeets(table: Table, records: seq<SeedRecord>, run: SeedLoader.Run, sv: Services)
    ensures Met(table, records, FetchExisting(table, records), EmbeddingsOf(ToEmbed(table, records), run.model, sv))
  {
    var existing, toEmbed := FetchExisting(table, records), ToEmbed(table, records);
    forall r | r in records
      ensures ExistingFor(existing, KeyOf(r)) == StoredState(table, KeyOf(r))
      ensures !SourceMatches(StoredState(table, KeyOf(r)), r) ==> KeyOf(r) in EmbeddingsOf(toEmbed, run.model, sv)
    {
      ExistingOfRecord(table, records, r);
      if !SourceMatches(StoredState(table, KeyOf(r)), r) {
        assert NeedsEmbedding(existing)(r);
        assert r in toEmbed && KeyOf(r) in KeysOf(toEmbed);
        EmbeddingIsLast(toEmbed, run.model, sv, KeyOf(r));
      }
    }
  }

  // ----- what the records of a key make of it -----

  predicate AllMatch(records: seq<SeedRecord>, key: RowKey, state: Option<ExistingState>) {
    forall r :: r in records && KeyOf(r) == key ==> SourceMatches(state, r)
  }

  predicate AllSkip(records: seq<SeedRecord>, key: RowKey, state: Option<ExistingState>, sv: Services) {
    forall r :: r in records && KeyOf(r) == key ==> MetadataMatches(state, r, sv)
  }

  /** The last record was written in full, so it decides. */
  lemma {:induction false} LastNeededDecides(start: Option<Content>, records: seq<SeedRecord>, key: RowKey,
                                             state: Option<ExistingState>, embedding: Vector, run: SeedLoader.Run,
                                             sv: Services)
    requires LastWith(records, key).Some? && !SourceMatches(state, LastWith(records, key).value)
    ensures KeyContent(start, records, key, state, embedding, run, sv) ==
            Some(FullContent(LastWith(records, key).value, embedding, run, sv))
    decreases |records|
  {
    if KeyOf(records[|records| - 1]) != key {
      LastNeededDecides(start, records[..|records| - 1], key, state, embedding, run, sv);
    }
  }

  lemma MatchFront(front: seq<SeedRecord>, r: SeedRecord, key: RowKey, state: Option<ExistingState>, sv: Services)
    ensures AllMatch(front + [r], key, state) <==>
            AllMatch(front, key, state) && (KeyOf(r) == key ==> SourceMatches(state, r))
    ensures AllSkip(front + [r], key, state, sv) <==>
            AllSkip(front, key, state, sv) && (KeyOf(r) == key ==> MetadataMatches(state, r, sv))
  {
    var all := front + [r];
    assert r in all && forall x :: x in front ==> x in all;
  }

  /** Some record was written in full: the stored source hash is gone for good. */
  lemma {:induction false} FullWriteLeavesItsHash(start: Option<Content>, records: seq<SeedRecord>, key: RowKey,
                                                  state: ExistingState, embedding: Vector, run: SeedLoader.Run,
                                                  sv: Services)
    requires start.Some? && !AllMatch(records, key, Some(state))
    ensures var c := KeyContent(start, records, key, Some(state), embedding, run, sv);
            c.Some? && c.value.sourceRecordHash != state.sourceRecordHash
    decreases |records|
  {
    var front, r := records[..|records| - 1], records[|records| - 1];
    assert records == front + [r];
    MatchFront(front, r, key, Some(state), sv);
    if !AllMatch(front, key, Some(state)) {
      FullWriteLeavesItsHash(start, front, key, state, embedding, run, sv);
    }
  }

  /** No record was written in full: the content is the stored one, with the metadata of the last that differed. */
  ghost predicate Patched(c0: Content, c: Option<Content>, records: seq<SeedRecord>, key: RowKey, state: ExistingState,
                          sv: Services) {
    && c.Some?
    && (AllSkip(records, key, Some(state), sv) ==> c.value == c0)
    && (!AllSkip(records, key, Some(state), sv) ==>
          c.value.metadataHash != state.metadataHash && exists r :: c.value == WithMetadata(c0, r, sv))
    && (LastWith(records, key).Some? && !MetadataMatches(Some(state), LastWith(records, key).value, sv) ==>
          c.value == WithMetadata(c0, LastWith(records, key).value, sv))
  }

  lemma {:induction false} NothingWrittenInFull(c0: Content, records: seq<SeedRecord>, key: RowKey,
                                                state: ExistingState, embedding: Vector, run: SeedLoader.Run,
                                                sv: Services)
    requires AllMatch(records, key, Some(state))
    ensures Patched(c0, KeyContent(Some(c0), records, key, Some(state), embedding, run, sv), records, key, state, sv)
    decreases |records|
  {
    if records != [] {
      var front, r := records[..|records| - 1], records[|records| - 1];
      assert records == front + [r];
      MatchFront(front, r, key, Some(state), sv);
      NothingWrittenInFull(c0, front, key, state, embedding, run, sv);
      PatchOneMore(c0, KeyContent(Some(c0), front, key, Some(state), embedding, run, sv), front, r, key, state,
                   embedding, run, sv);
    }
  }

  lemma PatchOneMore(c0: Content, c: Option<Content>, front: seq<SeedRecord>, r: SeedRecord, key: RowKey,
                     state: ExistingState, embedding: Vector, run: SeedLoader.Run, sv: Services)
    requires Patched(c0, c, front, key, state, sv) && (KeyOf(r) == key ==> SourceMatches(Some(state), r))
    ensures var next := if KeyOf(r) == key then StepContent(c, r, Some(state), embedding, run, sv) else c;
            Patched(c0, next, front + [r], key, state, sv)
  {
    var all := front + [r];
    MatchFront(front, r, key, Some(state), sv);
    assert all[..|all| - 1] == front && all[|all| - 1] == r;
    if KeyOf(r) == key && !MetadataMatches(Some(state), r, sv) {
      assert WithMetadata(c.value, r, sv) == WithMetadata(c0, r, sv);
    }
  }

  // ----- when the load agrees with a rebuild -----

  /**
   The last record of the key is written in full; or all of its records have the stored text, embedded
   by the same model, and the last one is written, or all are skipped and the row is active.
   */
  predicate KeyAgrees(table: Table, records: seq<SeedRecord>, key: RowKey, model: string, sv: Services)
    requires LastWith(records, key).Some?
  {
    var state, last := StoredState(table, key), LastWith(records, key).value;
    || !SourceMatches(state, last)
    || (&& AllMatch(records, key, state) && table[key].content.embeddingModel == model
        && (!MetadataMatches(state, last, sv) || (AllSkip(records, key, state, sv) && table[key].content.active)))
  }

  /** A stored row whose text the record repeats, with the record's metadata, against the record's rebuild. */
  lemma PatchedEqualsRebuildIff(key: RowKey, c0: Content, r: SeedRecord, run: SeedLoader.Run, sv: Services)
    requires CollisionFree(sv) && RowConsistent(key, c0, sv) && KeyOf(r) == key
             && c0.sourceRecordHash == r.sourceRecordHash
    requires CleanDescription(r.description) && r.sourceRecordHash == sv.hashText(EmbeddingText(key, r.description))
    ensures WithMetadata(c0, r, sv) == RebuiltContent(r, run, sv) <==> c0.embeddingModel == run.model
    ensures c0.metadataHash == sv.hashMetadata(MetadataOf(r)) ==> (c0 == WithMetadata(c0, r, sv) <==> c0.active)
  {
    TextDeterminesDescription(key, c0.description, r.description);
    if c0.metadataHash == sv.hashMetadata(MetadataOf(r)) {
      assert StoredMetadata(c0) == MetadataOf(r);
    }
  }

  lemma MatchedKeyAgreesIff(table: Table, records: seq<SeedRecord>, key: RowKey, embedding: Vector,
                            run: SeedLoader.Run, sv: Services)
    requires CollisionFree(sv) && TableConsistent(table, sv) && WellHashed(records, sv)
    requires LastWith(records, key).Some? && SourceMatches(StoredState(table, key), LastWith(records, key).value)
    ensures KeyContent(ContentAt(table, key), records, key, StoredState(table, key), embedding, run, sv) ==
            Some(RebuiltContent(LastWith(records, key).value, run, sv))
            <==> KeyAgrees(table, records, key, run.model, sv)
  {
    var c0, state, last := table[key].content, StoredState(table, key).value, LastWith(records, key).value;
    assert RowConsistent(key, c0, sv);
    PatchedEqualsRebuildIff(key, c0, last, run, sv);
    if AllMatch(records, key, Some(state)) {
      NothingWrittenInFull(c0, records, key, state, embedding, run, sv);
      if MetadataMatches(Some(state), last, sv) && !AllSkip(records, key, Some(state), sv) {
        assert RebuiltContent(last, run, sv).metadataHash == state.metadataHash;
      }
    } else {
      FullWriteLeavesItsHash(Some(c0), records, key, state, embedding, run, sv);
    }
  }

  ghost predicate SameContent(table: Table, work: Table, key: RowKey) { ContentAt(table, key) == ContentAt(work, key) }

  lemma KeyAgreesIff(table: Table, records: seq<SeedRecord>, run: SeedLoader.Run, sv: Services, key: RowKey)
    requires CollisionFree(sv) && TableConsistent(table, sv) && WellHashed(records, sv)
    ensures Load(table, records, run, sv).Ok?
    ensures SameContent(Load(table, records, run, sv).value.table, Rebuild(table, records, run, sv), key) <==>
            (LastWith(records, key).Some? ==> KeyAgrees(table, records, key, run.model, sv))
  {
    var toEmbed, existing := ToEmbed(table, records), FetchExisting(table, records);
    var embeddings := EmbeddingsOf(toEmbed, run.model, sv);
    LoadMeets(table, records, run, sv);
    ApplyKey(table, records, existing, embeddings, run, sv, key);
    RebuildKeepsLast(table, records, run, sv, key);
    if LastWith(records, key).None? {
      OtherKeysStay(ContentAt(table, key), records, key, StoredState(table, key), EmbeddingAt(embeddings, key),
                    run, sv);
    } else {
      var last := LastWith(records, key).value;
      if SourceMatches(StoredState(table, key), last) {
        MatchedKeyAgreesIff(table, records, key, EmbeddingAt(embeddings, key), run, sv);
      } else {
        ExistingOfRecord(table, records, last);
        assert NeedsEmbedding(existing)(last);
        FilterKeepsLast(records, NeedsEmbedding(existing), key);
        EmbeddingIsLast(toEmbed, run.model, sv, key);
        LastNeededDecides(ContentAt(table, key), records, key, StoredState(table, key), EmbeddingAt(embeddings, key),
                          run, sv);
      }
    }
  }

  lemma {:induction false} OtherKeysStay(start: Option<Content>, records: seq<SeedRecord>, key: RowKey,
                                         state: Option<ExistingState>, embedding: Vector, run: SeedLoader.Run,
                                         sv: Services)
    requires LastWith(records, key).None?
    ensures KeyContent(start, records, key, state, embedding, run, sv) == start
    decreases |records|
  {
    if records != [] {
      OtherKeysStay(start, records[..|records| - 1], key, state, embedding, run, sv);
    }
  }

  /**
   For any records, keys repeated or not: the load raises nothing, counts every record, and leaves the
   content of a full rebuild exactly if it does so for each key.
   */
  lemma LoadEqualsRebuildIff(table: Table, records: seq<SeedRecord>, run: SeedLoader.Run, sv: Services)
    requires CollisionFree(sv) && TableConsistent(table, sv) && WellHashed(records, sv)
    ensures Load(table, records, run, sv).Ok? && Total(Load(table, records, run, sv).value.counts) == |records|
    ensures Contents(Load(table, records, run, sv).value.table) == Contents(Rebuild(table, records, run, sv)) <==>
            forall r :: r in records ==> KeyAgrees(table, records, KeyOf(r), run.model, sv)
  {
    LoadMeets(table, records, run, sv);
    ApplyKey(table, records, FetchExisting(table, records), EmbeddingsOf(ToEmbed(table, records), run.model, sv),
             run, sv, ("", ""));
    var loaded, rebuilt := Load(table, records, run, sv).value.table, Rebuild(table, records, run, sv);
    forall key
      ensures SameContent(loaded, rebuilt, key) <==>
              (LastWith(records, key).Some? ==> KeyAgrees(table, records, key, run.model, sv))
    {
      KeyAgreesIff(table, records, run, sv, key);
    }
    SameContentsByKey(loaded, rebuilt);
    if forall r :: r in records ==> KeyAgrees(table, records, KeyOf(r), run.model, sv) {
      forall key ensures SameContent(loaded, rebuilt, key) {
        if key in KeysOf(records) {
          var r :| r in records && KeyOf(r) == key;
        }
      }
    }
    if r :| r in records && !KeyAgrees(table, records, KeyOf(r), run.model, sv) {
      assert !SameContent(loaded, rebuilt, KeyOf(r));
    }
  }

  lemma SameContentsByKey(x: Table, y: Table)
    ensures Contents(x) == Contents(y) <==> forall key :: SameContent(x, y, key)
  {
    if Contents(x) == Contents(y) {
      forall key ensures SameContent(x, y, key) {
        assert key in Contents(x) <==> key in Contents(y);
      }
    }
    if forall key :: SameContent(x, y, key) {
      forall key ensures (key in x <==> key in y) && (key in x ==> x[key].content == y[key].content) {
        assert SameContent(x, y, key);
      }
    }
  }
}
