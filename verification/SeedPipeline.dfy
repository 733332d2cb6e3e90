/**
 From parsed search results to seed records: services/intelligence/sources/npm/parsing.py,
 services/intelligence/sources/npm/normalize.py and the validators of
 services/intelligence/app/models/seed_records.py. They establish what the loader relies on.
 */
module SeedPipeline {
  import opened Common
  import opened Sorting
  import opened PackageNames
  import SeedLoader
  import IncrementalLoad

  datatype PackageRecord = PackageRecord(
    ecosystem: string,
    package: string,
    description: Option<string>,
    scoreFinal: Option<real>,
    searchQuery: string,
    sourceRank: Option<int>)

  function Score(r: PackageRecord): real { if r.scoreFinal.Some? then r.scoreFinal.value else -1.0 }

  /** Python's string order. */
  predicate StringLe(a: string, b: string) {
    a == [] || (b != [] && (a[0] < b[0] || (a[0] == b[0] && StringLe(a[1..], b[1..]))))
  }

  lemma {:induction false} StringLeTotal(a: string, b: string)
    ensures StringLe(a, b) || StringLe(b, a)
    ensures StringLe(a, b) && StringLe(b, a) ==> a == b
  {
    if a != [] && b != [] {
      StringLeTotal(a[1..], b[1..]);
      if a[0] == b[0] && a[1..] == b[1..] {
        assert a == [a[0]] + a[1..] && b == [b[0]] + b[1..];
      }
    }
  }

  lemma {:induction false} StringLeTransitive(a: string, b: string, c: string)
    requires StringLe(a, b) && StringLe(b, c)
    ensures StringLe(a, c)
  {
    if a != [] && a[0] == b[0] == c[0] {
      StringLeTransitive(a[1..], b[1..], c[1..]);
    }
  }

  function ByPackage(): (PackageRecord, PackageRecord) -> bool {
    (x: PackageRecord, y: PackageRecord) => StringLe(x.package, y.package)
  }

  lemma ByPackageTotal()
    ensures TotalPreorder(ByPackage())
  {
    forall x: PackageRecord, y: PackageRecord ensures ByPackage()(x, y) || ByPackage()(y, x) {
      StringLeTotal(x.package, y.package);
    }
    forall x: PackageRecord, y: PackageRecord, z: PackageRecord | ByPackage()(x, y) && ByPackage()(y, z)
      ensures ByPackage()(x, z) {
      StringLeTransitive(x.package, y.package, z.package);
    }
  }

  /** best is a record of its package with the highest score, and described if one such record is. */
  ghost predicate BestOf(seen: seq<PackageRecord>, best: PackageRecord) {
    && best in seen
    && (forall r :: r in seen && r.package == best.package ==> Score(r) <= Score(best))
    && (best.description.None? ==>
          forall r :: r in seen && r.package == best.package && Score(r) == Score(best) ==> r.description.None?)
  }

  ghost predicate HoldsBest(byName: map<string, PackageRecord>, seen: seq<PackageRecord>) {
    && (forall p :: p in byName ==> byName[p].package == p && BestOf(seen, byName[p]))
    && (forall r :: r in seen ==> r.package in byName)
  }

  /** The record replaces the one held under its name. */
  predicate Replaces(byName: map<string, PackageRecord>, r: PackageRecord) {
    || r.package !in byName
    || Score(r) > Score(byName[r.package])
    || (Score(r) == Score(byName[r.package]) && byName[r.package].description.None?)
  }

  lemma OneMoreRecord(byName: map<string, PackageRecord>, seen: seq<PackageRecord>, r: PackageRecord)
    requires HoldsBest(byName, seen)
    ensures HoldsBest(if Replaces(byName, r) then byName[r.package := r] else byName, seen + [r])
  {
    var next := if Replaces(byName, r) then byName[r.package := r] else byName;
    var more := seen + [r];
    assert forall x :: x in more <==> x in seen || x == r;
    forall p | p in next ensures next[p].package == p && BestOf(more, next[p]) {
      if p in byName {
        assert BestOf(seen, byName[p]);
      }
    }
  }

  /** The values of the dictionary, given its keys in insertion order. */
  function Values(byName: map<string, PackageRecord>, order: seq<string>): seq<PackageRecord>
    requires forall p :: p in order ==> p in byName
  {
    seq(|order|, i requires 0 <= i < |order| && order[i] in byName => byName[order[i]])
  }

  /** One record a package, each the best of its package, in order of name. */
  ghost predicate Deduped(unique: seq<PackageRecord>, records: seq<PackageRecord>) {
    && (forall i, j :: 0 <= i < j < |unique| ==>
        unique[i].package != unique[j].package && StringLe(unique[i].package, unique[j].package))
    && (forall u :: u in unique ==> BestOf(records, u))
    && (forall r :: r in records ==> exists u :: u in unique && u.package == r.package)
  }

  /** dedupe_records */
  method DedupeRecords(records: seq<PackageRecord>) returns (unique: seq<PackageRecord>)
    ensures Deduped(unique, records)
  {
    var byName: map<string, PackageRecord> := map[];
    var order: seq<string> := [];
    for i := 0 to |records|
      invariant HoldsBest(byName, records[..i])
      invariant Distinct(order) && forall p :: p in order <==> p in byName
    {
      var r := records[i];
      OneMoreRecord(byName, records[..i], r);
      assert records[..i + 1] == records[..i] + [r];
      if r.package !in byName {
        order := order + [r.package];
        byName := byName[r.package := r];
        continue;
      }
      if Score(r) > Score(byName[r.package]) {
        byName := byName[r.package := r];
        continue;
      }
      if Score(r) == Score(byName[r.package]) && byName[r.package].description.None? {
        byName := byName[r.package := r];
      }
    }
    assert records[..|records|] == records;
    unique := StableSort(Values(byName, order), ByPackage());
    SortedValuesDeduped(byName, order, records);
  }

  function HasName(name: string): PackageRecord -> bool { (r: PackageRecord) => r.package == name }

  lemma SortedValuesDeduped(byName: map<string, PackageRecord>, order: seq<string>, records: seq<PackageRecord>)
    requires HoldsBest(byName, records) && Distinct(order) && forall p :: p in order <==> p in byName
    ensures Deduped(StableSort(Values(byName, order), ByPackage()), records)
  {
    var values := Values(byName, order);
    var unique := StableSort(values, ByPackage());
    SortPermutes(values, ByPackage());
    forall i | 0 <= i < |values| ensures values[i].package == order[i] && BestOf(records, values[i]) {
      assert order[i] in order;
    }
    forall r | r in records ensures exists u :: u in unique && u.package == r.package {
      var i :| 0 <= i < |order| && order[i] == r.package;
      assert values[i] in unique;
    }
    SortedDistinctNames(values, order);
  }

  lemma SortedDistinctNames(values: seq<PackageRecord>, order: seq<string>)
    requires |values| == |order| && Distinct(order) && forall i :: 0 <= i < |values| ==> values[i].package == order[i]
    ensures var unique := StableSort(values, ByPackage());
            forall i, j :: 0 <= i < j < |unique| ==>
              unique[i].package != unique[j].package && StringLe(unique[i].package, unique[j].package)
  {
    var unique := StableSort(values, ByPackage());
    SortPermutes(values, ByPackage());
    ByPackageTotal();
    SortSorts(values, ByPackage());
    forall i, j | 0 <= i < j < |unique|
      ensures unique[i].package != unique[j].package && StringLe(unique[i].package, unique[j].package) {
      assert ByPackage()(unique[i], unique[j]);
      var name := unique[i].package;
      CountPermutes(unique, values, HasName(name));
      DistinctCount(values, HasName(name));
      if unique[j].package == name {
        CountTwo(unique, HasName(name), i, j);
      }
    }
  }

  // ----- normalisation -----

  /** What normalize_package_name leaves: lower case, no white space, not empty. */
  predicate ParsedName(name: string) {
    name != [] && Lower(name) == name && forall c :: c in name ==> !IsSpace(c)
  }

  /** A description as the parser leaves it. */
  predicate Parsed(r: PackageRecord) { ParsedName(r.package) && SeedLoader.CleanDescription(r.description) }

  /** The validator of optional text. */
  function OptionalText(value: string): Option<string> { if Strip(value) == [] then None else Some(Strip(value)) }

  /** _to_normalized_seed_record, through the validators. */
  function ToSeedRecord(r: PackageRecord, collectedAt: int, sv: SeedLoader.Services): SeedLoader.SeedRecord {
    SeedLoader.SeedRecord(
      r.ecosystem,
      Lower(Strip(r.package)),
      if r.description.Some? then OptionalText(r.description.value) else None,
      "seed_npm",
      OptionalText(r.searchQuery),
      r.sourceRank,
      r.scoreFinal,
      collectedAt,
      sv.hashText(SeedLoader.EmbeddingText((r.ecosystem, r.package), r.description)))
  }

  function ToSeedRecords(records: seq<PackageRecord>, collectedAt: int, sv: SeedLoader.Services)
      : seq<SeedLoader.SeedRecord> {
    Map(records, (r: PackageRecord) => ToSeedRecord(r, collectedAt, sv))
  }

  lemma ValidatorsKeepParsed(r: PackageRecord, collectedAt: int, sv: SeedLoader.Services)
    requires Parsed(r)
    ensures SeedLoader.KeyOf(ToSeedRecord(r, collectedAt, sv)) == (r.ecosystem, r.package)
    ensures ToSeedRecord(r, collectedAt, sv).description == r.description
  {
    assert r.package[0] in r.package && r.package[|r.package| - 1] in r.package;
    assert Strip(r.package) == r.package;
  }

  /** Deduplicated and normalised records meet the loader's precondition: distinct keys, honest hashes. */
  lemma PipelineFeedsLoader(records: seq<PackageRecord>, unique: seq<PackageRecord>, collectedAt: int,
                            sv: SeedLoader.Services)
    requires Deduped(unique, records) && forall r :: r in records ==> Parsed(r)
    ensures IncrementalLoad.DistinctKeys(ToSeedRecords(unique, collectedAt, sv))
    ensures IncrementalLoad.WellHashed(ToSeedRecords(unique, collectedAt, sv), sv)
  {
    var seeds := ToSeedRecords(unique, collectedAt, sv);
    forall i | 0 <= i < |seeds|
      ensures SeedLoader.KeyOf(seeds[i]) == (unique[i].ecosystem, unique[i].package)
      ensures seeds[i].description == unique[i].description && Parsed(unique[i])
    {
      assert BestOf(records, unique[i]) by { assert unique[i] in unique; }
      ValidatorsKeepParsed(unique[i], collectedAt, sv);
    }
  }
}
