/** The connector result cache: services/api/src/connectors/cache.ts. Instants are milliseconds. */
module ConnectorCache {
  import opened Common

  type Id = nat
  type Instant = int

  datatype Severity = Critical | High | Medium | Low | NoSeverity

  datatype Finding = Finding(findingId: string, severity: Severity, title: Option<string>,
                             publishedAt: Option<Instant>, attributes: string)

  datatype SeverityCounts = SeverityCounts(critical: nat, high: nat, medium: nat, low: nat)

  datatype Vulnerability = Vulnerability(
    maxSeverity: Severity,
    findingCount: int,
    fixAvailable: bool,
    bestFixVersion: Option<string>,
    severityCounts: Option<SeverityCounts>)

  datatype Risk = Risk(tier: Severity, score: Option<int>)
  datatype Remediation = Remediation(available: bool, best: Option<string>)

  datatype Summary = Summary(
    risk: Option<Risk>,
    findingsCount: Option<int>,
    remediation: Option<Remediation>,
    vulnerability: Option<Vulnerability>)

  /** The fields by which a result of the old shape is told: maxSeverity and vulnCount. */
  datatype Legacy = Legacy(
    maxSeverity: Severity,
    vulnCount: int,
    fixAvailable: bool,
    bestFixVersion: Option<string>,
    severityCounts: Option<SeverityCounts>)

  datatype ConnectorResult = ConnectorResult(
    findings: seq<Finding>,
    summary: Option<Summary>,
    legacy: Option<Legacy>,
    ttlSeconds: Option<int>)

  /** The finding shape of the JSONB column. */
  datatype CacheFinding = CacheFinding(id: string, severity: Severity, title: Option<string>,
                                       publishedAt: Option<Instant>, attributes: string)

  datatype CacheData = CacheData(findings: seq<CacheFinding>, summary: Option<Summary>)

  datatype CacheRow = CacheRow(
    id: Id,
    connectorId: string,
    packageId: Id,
    packageVersionId: Option<Id>,
    riskTier: Severity,
    riskScore: Option<int>,
    findingCount: int,
    remediationAvailable: bool,
    bestRemediation: Option<string>,
    data: CacheData,
    ttlSeconds: Option<int>,
    queriedAt: Instant)

  datatype EventKind = ArtifactRequest | PackageMetadata

  datatype Event = Event(kind: EventKind, packageId: Id, packageVersionId: Option<Id>)

  datatype Connector = Connector(id: string, cacheTtlSeconds: int, readSnapshots: bool)

  // ----- what is written -----

  function Index(s: Severity): nat {
    match s
    case Critical => 0
    case High => 1
    case Medium => 2
    case Low => 3
    case NoSeverity => 4
  }

  /** s is the most severe of the findings' severities, or none when there are no findings. */
  ghost predicate IsHighest(findings: seq<Finding>, s: Severity) {
    && (s == NoSeverity || exists f :: f in findings && f.severity == s)
    && (forall f :: f in findings ==> Index(s) <= Index(f.severity))
  }

  function Highest(findings: seq<Finding>): (s: Severity)
    ensures IsHighest(findings, s)
  {
    if findings == [] then NoSeverity
    else
      var last := findings[|findings| - 1];
      var earlier := Highest(findings[..|findings| - 1]);
      assert findings == findings[..|findings| - 1] + [last];
      if Index(last.severity) < Index(earlier) then last.severity else earlier
  }

  /** highestFindingSeverity */
  method HighestFindingSeverity(findings: seq<Finding>) returns (highest: Severity)
    ensures IsHighest(findings, highest) && highest == Highest(findings)
  {
    highest := NoSeverity;
    for i := 0 to |findings|
      invariant highest == Highest(findings[..i])
    {
      assert findings[..i + 1][..i] == findings[..i];
      if Index(findings[i].severity) < Index(highest) {
        highest := findings[i].severity;
      }
    }
    assert findings[..|findings|] == findings;
  }

  function VulnerabilityOf(r: ConnectorResult): Vulnerability {
    if r.summary.Some? && r.summary.value.vulnerability.Some? then r.summary.value.vulnerability.value
    else if r.legacy.Some? then
      var legacy := r.legacy.value;
      Vulnerability(legacy.maxSeverity, legacy.vulnCount, legacy.fixAvailable, legacy.bestFixVersion,
                    legacy.severityCounts)
    else Vulnerability(Highest(r.findings), |r.findings|, false, None, None)
  }

  function RiskOf(r: ConnectorResult): Risk {
    if r.summary.Some? && r.summary.value.risk.Some? then r.summary.value.risk.value
    else Risk(VulnerabilityOf(r).maxSeverity, None)
  }

  function CountOf(r: ConnectorResult): int {
    if r.summary.Some? && r.summary.value.findingsCount.Some? then r.summary.value.findingsCount.value
    else if r.summary.Some? && r.summary.value.vulnerability.Some? then r.summary.value.vulnerability.value.findingCount
    else |r.findings|
  }

  function RemediationOf(r: ConnectorResult): Remediation {
    if r.summary.Some? && r.summary.value.remediation.Some? then r.summary.value.remediation.value
    else Remediation(VulnerabilityOf(r).fixAvailable, VulnerabilityOf(r).bestFixVersion)
  }

  /** The summary stored: the result's own, or one made of the fallbacks. */
  function SummaryOf(r: ConnectorResult): Summary {
    if r.summary.Some? then r.summary.value
    else Summary(Some(RiskOf(r)), Some(CountOf(r)), Some(RemediationOf(r)), Some(VulnerabilityOf(r)))
  }

  function Stored(f: Finding): CacheFinding {
    CacheFinding(f.findingId, f.severity, f.title, f.publishedAt, f.attributes)
  }
  function Restored(f: CacheFinding): Finding { Finding(f.id, f.severity, f.title, f.publishedAt, f.attributes) }

  function RowFor(id: Id, connector: Connector, e: Event, r: ConnectorResult, ttl: Option<int>, now: Instant)
      : CacheRow {
    CacheRow(id, connector.id, e.packageId, e.packageVersionId, RiskOf(r).tier, RiskOf(r).score, CountOf(r),
             RemediationOf(r).available, RemediationOf(r).best,
             CacheData(Map(r.findings, Stored), Some(SummaryOf(r))),
             if ttl.Some? then ttl else r.ttlSeconds, now)
  }

  /** A result without a summary is summarised by its findings, or by its old fields if it has them. */
  lemma SummaryIsDerived(r: ConnectorResult)
    requires r.summary.None?
    ensures var s := SummaryOf(r); s.risk.Some? && s.remediation.Some? && s.vulnerability.Some?
    ensures var s := SummaryOf(r);
            && s.findingsCount == Some(|r.findings|)
            && s.risk.value == Risk(s.vulnerability.value.maxSeverity, None)
            && s.remediation.value
            == Remediation(s.vulnerability.value.fixAvailable, s.vulnerability.value.bestFixVersion)
    ensures var v := SummaryOf(r).vulnerability.value;
            if r.legacy.Some? then
              v.maxSeverity == r.legacy.value.maxSeverity && v.findingCount == r.legacy.value.vulnCount
            else
              IsHighest(r.findings, v.maxSeverity) && v.findingCount == |r.findings| && !v.fixAvailable
  {
  }

  /** A row as it was before summaries were stored beside the aggregate columns. */
  function WithoutSummary(row: CacheRow): CacheRow { row.(data := row.data.(summary := None)) }

  /**
   For a result without a summary, the aggregate columns alone give back the stored summary's risk,
   count and remediation; and the vulnerability count too exactly if an old count, where there is one,
   is the number of findings.
   */
  lemma ColumnsCarrySummary(id: Id, connector: Connector, e: Event, r: ConnectorResult, ttl: Option<int>, now: Instant)
    requires r.summary.None?
    ensures var read, s :=
            Interpret(WithoutSummary(RowFor(id, connector, e, r, ttl, now)), true, false).value.summary, SummaryOf(r);
            && read.risk == s.risk && read.findingsCount == s.findingsCount && read.remediation == s.remediation
            && read.vulnerability.value.maxSeverity == s.vulnerability.value.maxSeverity
            && (read.vulnerability.value.findingCount == s.vulnerability.value.findingCount <==>
                r.legacy.None? || r.legacy.value.vulnCount == |r.findings|)
  {
    SummaryIsDerived(r);
  }

  // ----- the table -----

  /** The two partial unique indexes. */
  datatype Key = Versioned(connectorId: string, packageVersionId: Id)
    | PackageScoped(connectorId: string, packageId: Id)

  function KeyOf(row: CacheRow): Key {
    if row.packageVersionId.Some? then Versioned(row.connectorId, row.packageVersionId.value)
    else PackageScoped(row.connectorId, row.packageId)
  }

  /** The conflict target of the upsert. */
  function WriteKey(connector: Connector, e: Event): Key {
    if e.packageVersionId.Some? then Versioned(connector.id, e.packageVersionId.value)
    else PackageScoped(connector.id, e.packageId)
  }

  /** The rows a lookup may use; an unversioned event reads the package scope only if it is a metadata event. */
  function ReadKey(connector: Connector, e: Event): Option<Key> {
    if e.packageVersionId.Some? then Some(Versioned(connector.id, e.packageVersionId.value))
    else if e.kind == PackageMetadata then Some(PackageScoped(connector.id, e.packageId))
    else None
  }

  datatype Table = Table(rows: seq<CacheRow>, nextId: Id)

  function HasKey(key: Key): CacheRow -> bool { (row: CacheRow) => KeyOf(row) == key }

  function Upsert(t: Table, connector: Connector, e: Event, r: ConnectorResult, ttl: Option<int>, now: Instant): Table {
    var key := WriteKey(connector, e);
    if exists row :: row in t.rows && KeyOf(row) == key then
      t.(rows := seq(|t.rows|, i requires 0 <= i < |t.rows| =>
        if KeyOf(t.rows[i]) == key then RowFor(t.rows[i].id, connector, e, r, ttl, now) else t.rows[i]))
    else Table(t.rows + [RowFor(t.nextId, connector, e, r, ttl, now)], t.nextId + 1)
  }

  function EffectiveTtl(row: CacheRow, connector: Connector): int {
    if row.ttlSeconds.Some? then row.ttlSeconds.value else connector.cacheTtlSeconds
  }

  /** findFreshCacheRow */
  function FindFresh(t: Table, connector: Connector, e: Event, now: Instant): Option<CacheRow> {
    var key := ReadKey(connector, e);
    if key.None? then None
    else
      var rows := Filter(t.rows, HasKey(key.value));
      if rows == [] then None
      else if rows[0].queriedAt <= now - EffectiveTtl(rows[0], connector) * 1000 then None
      else Some(rows[0])
  }

  datatype Interpreted = Interpreted(summary: Summary, resultFindings: seq<Finding>, findings: seq<Finding>)

  function CountSeverity(findings: seq<CacheFinding>, s: Severity): nat {
    Count(findings, (f: CacheFinding) => f.severity == s)
  }

  /** interpretCacheRow; rows written before summaries were stored fall back to the aggregate columns. */
  function Interpret(row: CacheRow, includeFindings: bool, brokenIsMiss: bool): Option<Interpreted> {
    var findings := row.data.findings;
    if brokenIsMiss && row.findingCount > 0 && findings == [] then None
    else
      var counts := SeverityCounts(CountSeverity(findings, Critical), CountSeverity(findings, High),
                                   CountSeverity(findings, Medium), CountSeverity(findings, Low));
      var fallback := Summary(
        Some(Risk(row.riskTier, row.riskScore)), Some(row.findingCount),
        Some(Remediation(row.remediationAvailable, row.bestRemediation)),
        Some(Vulnerability(row.riskTier, row.findingCount, row.remediationAvailable, row.bestRemediation,
                           if findings != [] then Some(counts) else None)));
      Some(Interpreted(if row.data.summary.Some? then row.data.summary.value else fallback,
                       if includeFindings then Map(findings, Restored) else [], Map(findings, Restored)))
  }

  function GetPackageScoped(t: Table, connector: Connector, e: Event, now: Instant): Option<Interpreted> {
    match FindFresh(t, connector, e, now)
    case None => None
    case Some(row) => Interpret(row, true, false)
  }

  function BuildCachedSnapshot(t: Table, connector: Connector, e: Event, now: Instant): Option<Interpreted> {
    if !connector.readSnapshots then None
    else
      match FindFresh(t, connector, e, now)
      case None => None
      case Some(row) => Interpret(row, true, true)
  }

  class ConnectorCacheTable {
    var rows: seq<CacheRow>
    var nextId: Id

    function State(): Table
      reads this
    {
      Table(rows, nextId)
    }

    constructor ()
      ensures State() == Table([], 0)
    {
      rows, nextId := [], 0;
    }

    /** upsertCachedResult */
    method UpsertCachedResult(connector: Connector, e: Event, r: ConnectorResult, ttl: Option<int>, now: Instant)
      modifies this
      ensures State() == Upsert(old(State()), connector, e, r, ttl, now)
    {
      var key := WriteKey(connector, e);
      if exists row :: row in rows && KeyOf(row) == key {
        rows := seq(|rows|, i requires 0 <= i < |rows| reads this =>
          if KeyOf(rows[i]) == key then RowFor(rows[i].id, connector, e, r, ttl, now) else rows[i]);
      } else {
        rows := rows + [RowFor(nextId, connector, e, r, ttl, now)];
        nextId := nextId + 1;
      }
    }
  }

  // ----- last write with expiry -----

  datatype Write = Write(connector: Connector, event: Event, result: ConnectorResult, ttl: Option<int>, at: Instant)

  function Run(writes: seq<Write>): Table {
    if writes == [] then Table([], 0)
    else
      var w := writes[|writes| - 1];
      Upsert(Run(writes[..|writes| - 1]), w.connector, w.event, w.result, w.ttl, w.at)
  }

  /** The latest write under a key. */
  function LastWrite(writes: seq<Write>, key: Key): Option<Write> {
    if writes == [] then None
    else
      var w := writes[|writes| - 1];
      if WriteKey(w.connector, w.event) == key then Some(w) else LastWrite(writes[..|writes| - 1], key)
  }

  /** row is what w wrote, whatever id the row has. */
  predicate WrittenBy(row: CacheRow, w: Write) {
    row == RowFor(row.id, w.connector, w.event, w.result, w.ttl, w.at)
  }

  /** Under each key the table has one row, the one of the latest write, or none. */
  ghost predicate HoldsLast(t: Table, writes: seq<Write>) {
    && (forall i, j :: 0 <= i < j < |t.rows| ==> KeyOf(t.rows[i]) != KeyOf(t.rows[j]))
    && (forall row :: row in t.rows ==>
        LastWrite(writes, KeyOf(row)).Some? && WrittenBy(row, LastWrite(writes, KeyOf(row)).value))
    && (forall key :: LastWrite(writes, key).Some? ==> Has(t.rows, key))
  }

  ghost predicate Has(rows: seq<CacheRow>, key: Key) { exists row :: row in rows && KeyOf(row) == key }

  lemma {:induction false} RunHoldsLast(writes: seq<Write>)
    ensures HoldsLast(Run(writes), writes)
  {
    if writes != [] {
      var front, w := writes[..|writes| - 1], writes[|writes| - 1];
      RunHoldsLast(front);
      UpsertHoldsLast(Run(front), front, w);
      assert front + [w] == writes;
    }
  }

  lemma UpsertedRow(t: Table, front: seq<Write>, w: Write, row: CacheRow)
    requires HoldsLast(t, front) && row in Upsert(t, w.connector, w.event, w.result, w.ttl, w.at).rows
    ensures LastWrite(front + [w], KeyOf(row)).Some? && WrittenBy(row, LastWrite(front + [w], KeyOf(row)).value)
  {
    assert (front + [w])[..|front|] == front;
    var t' := Upsert(t, w.connector, w.event, w.result, w.ttl, w.at);
    var i :| 0 <= i < |t'.rows| && t'.rows[i] == row;
    if KeyOf(row) != WriteKey(w.connector, w.event) {
      assert row in t.rows;
    }
  }

  lemma UpsertedKey(t: Table, front: seq<Write>, w: Write, k: Key)
    requires HoldsLast(t, front) && LastWrite(front + [w], k).Some?
    ensures Has(Upsert(t, w.connector, w.event, w.result, w.ttl, w.at).rows, k)
  {
    assert (front + [w])[..|front|] == front;
    var t' := Upsert(t, w.connector, w.event, w.result, w.ttl, w.at);
    if k == WriteKey(w.connector, w.event) && !Has(t.rows, k) {
      assert KeyOf(t'.rows[|t.rows|]) == k;
    } else {
      assert Has(t.rows, k);
      var row :| row in t.rows && KeyOf(row) == k;
      var i :| 0 <= i < |t.rows| && t.rows[i] == row;
      assert t'.rows[i] in t'.rows && KeyOf(t'.rows[i]) == k;
    }
  }

  lemma UpsertHoldsLast(t: Table, front: seq<Write>, w: Write)
    requires HoldsLast(t, front)
    ensures HoldsLast(Upsert(t, w.connector, w.event, w.result, w.ttl, w.at), front + [w])
  {
    var writes, t' := front + [w], Upsert(t, w.connector, w.event, w.result, w.ttl, w.at);
    forall row | row in t'.rows
      ensures LastWrite(writes, KeyOf(row)).Some? && WrittenBy(row, LastWrite(writes, KeyOf(row)).value)
    {
      UpsertedRow(t, front, w, row);
    }
    forall k | LastWrite(writes, k).Some? ensures Has(t'.rows, k) {
      UpsertedKey(t, front, w, k);
    }
  }

  /** The write that a lookup may answer from, if it is younger than its time to live. */
  function FreshWrite(writes: seq<Write>, connector: Connector, e: Event, now: Instant): Option<Write> {
    match ReadKey(connector, e)
    case None => None
    case Some(key) =>
      match LastWrite(writes, key)
      case None => None
      case Some(w) =>
        var ttl := if w.ttl.Some? then w.ttl.value
                   else if w.result.ttlSeconds.Some? then w.result.ttlSeconds.value
                   else connector.cacheTtlSeconds;
        if now - w.at < ttl * 1000 then Some(w) else None
  }

  /**
   After any writes, a lookup hits exactly when the latest write under its key is younger than that
   write's time to live, or the connector's if the write has none; and then returns that write's row.
   */
  lemma LookupIsFreshLastWrite(writes: seq<Write>, connector: Connector, e: Event, now: Instant)
    ensures
      var found := FindFresh(Run(writes), connector, e, now);
      var w := FreshWrite(writes, connector, e, now);
      found.Some? == w.Some? && (found.Some? ==> WrittenBy(found.value, w.value))
  {
    RunHoldsLast(writes);
    var t := Run(writes);
    var key := ReadKey(connector, e);
    if key.Some? {
      var rows := Filter(t.rows, HasKey(key.value));
      if rows != [] {
        assert rows[0] in rows;
      }
    }
  }

  lemma StoredRestores(findings: seq<Finding>)
    ensures Map(Map(findings, Stored), Restored) == findings
  {
  }

  /** A package-scoped read returns the findings and the summary that were written. */
  lemma ReadsBackWhatWasWritten(writes: seq<Write>, connector: Connector, e: Event, now: Instant)
    ensures
      var read := GetPackageScoped(Run(writes), connector, e, now);
      var w := FreshWrite(writes, connector, e, now);
      && read.Some? == w.Some?
      && (read.Some? ==>
            && read.value.resultFindings == w.value.result.findings
            && read.value.findings == w.value.result.findings
            && read.value.summary == SummaryOf(w.value.result))
  {
    LookupIsFreshLastWrite(writes, connector, e, now);
    var w := FreshWrite(writes, connector, e, now);
    if w.Some? {
      StoredRestores(w.value.result.findings);
    }
  }

  /** A snapshot read also misses exactly when findings are counted but none is stored. */
  lemma SnapshotReads(writes: seq<Write>, connector: Connector, e: Event, now: Instant)
    ensures
      var read := BuildCachedSnapshot(Run(writes), connector, e, now);
      var w := FreshWrite(writes, connector, e, now);
      && (read.Some? <==>
            connector.readSnapshots && w.Some? && !(CountOf(w.value.result) > 0 && w.value.result.findings == []))
      && (read.Some? ==>
            read.value.resultFindings == w.value.result.findings && read.value.summary == SummaryOf(w.value.result))
  {
    LookupIsFreshLastWrite(writes, connector, e, now);
    var w := FreshWrite(writes, connector, e, now);
    if w.Some? {
      StoredRestores(w.value.result.findings);
      assert |Map(w.value.result.findings, Stored)| == |w.value.result.findings|;
    }
  }
}
