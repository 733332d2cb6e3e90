/**
 The flat field map of an evaluation: services/api/src/policy/resolver.ts, and the completion of the
 connector snapshots in collectConnectorEvaluationFields (services/api/src/connect/check-service.ts).
 */
module FieldResolver {
  import opened Common
  import opened Expression

  datatype Meta = Meta(
    status: string,
    responseTimeMs: real,
    cacheAgeHours: Option<real>,
    isCacheHit: bool,
    errorCode: Option<string>)

  datatype FieldEntry = FieldEntry(key: string, value: Json)

  datatype ConnectorSnapshot = ConnectorSnapshot(connectorKey: string, meta: Meta, fields: seq<FieldEntry>)

  datatype Asset = Asset(
    ecosystem: string,
    package: string,
    version: string,
    versionPublishedAt: Option<string>,
    versionAgeDays: Option<real>,
    latestVersionPublishedAt: Option<string>)

  function OrNull(s: Option<string>): Json { if s.Some? then JStr(s.value) else JNull }
  function NumberOrNull(n: Option<real>): Json { if n.Some? then JNum(n.value) else JNull }

  function BuiltIns(asset: Asset, timestamp: string): Fields {
    map[
      "asset.ecosystem" := JStr(asset.ecosystem),
      "asset.package" := JStr(asset.package),
      "asset.version" := JStr(asset.version),
      "asset.version_published_at" := OrNull(asset.versionPublishedAt),
      "asset.version_age_days" := NumberOrNull(asset.versionAgeDays),
      "asset.latest_version_published_at" := OrNull(asset.latestVersionPublishedAt),
      "runtime.request_timestamp" := JStr(timestamp)]
  }

  function MetaKey(connector: string, name: string): string { "source." + connector + "._meta." + name }
  function DataKey(connector: string, key: string): string { "source." + connector + "." + key }

  function WithMeta(fields: Fields, s: ConnectorSnapshot): Fields {
    var always := fields[MetaKey(s.connectorKey, "status") := JStr(s.meta.status)]
                        [MetaKey(s.connectorKey, "response_time_ms") := JNum(s.meta.responseTimeMs)]
                        [MetaKey(s.connectorKey, "cache_age_hours") := NumberOrNull(s.meta.cacheAgeHours)]
                        [MetaKey(s.connectorKey, "is_cache_hit") := JBool(s.meta.isCacheHit)];
    if s.meta.errorCode.Some? then always[MetaKey(s.connectorKey, "error_code") := JStr(s.meta.errorCode.value)]
    else always
  }

  function WithData(fields: Fields, connector: string, entries: seq<FieldEntry>): Fields {
    if entries == [] then fields
    else
      var last := entries[|entries| - 1];
      WithData(fields, connector, entries[..|entries| - 1])[DataKey(connector, last.key) := last.value]
  }

  function WithSnapshots(fields: Fields, snapshots: seq<ConnectorSnapshot>): Fields {
    if snapshots == [] then fields
    else
      var last := snapshots[|snapshots| - 1];
      WithData(WithMeta(WithSnapshots(fields, snapshots[..|snapshots| - 1]), last), last.connectorKey, last.fields)
  }

  /** resolveFields: the writes, in order. */
  method ResolveFields(snapshots: seq<ConnectorSnapshot>, asset: Asset, timestamp: string) returns (fields: Fields)
    ensures fields == WithSnapshots(BuiltIns(asset, timestamp), snapshots)
  {
    fields := BuiltIns(asset, timestamp);
    for i := 0 to |snapshots|
      invariant fields == WithSnapshots(BuiltIns(asset, timestamp), snapshots[..i])
    {
      var s := snapshots[i];
      assert snapshots[..i + 1][..i] == snapshots[..i];
      fields := WithMeta(fields, s);
      ghost var before := fields;
      for j := 0 to |s.fields|
        invariant fields == WithData(before, s.connectorKey, s.fields[..j])
      {
        assert s.fields[..j + 1][..j] == s.fields[..j];
        fields := fields[DataKey(s.connectorKey, s.fields[j].key) := s.fields[j].value];
      }
      assert s.fields[..|s.fields|] == s.fields;
    }
    assert snapshots[..|snapshots|] == snapshots;
  }

  function UnavailableSnapshot(connector: string): ConnectorSnapshot {
    ConnectorSnapshot(connector, Meta("unavailable", 0.0, None, false, None), [])
  }

  /** Every supported connector without a stored snapshot gets an unavailable one. */
  function Completed(snapshots: seq<ConnectorSnapshot>, connectors: seq<string>): seq<ConnectorSnapshot> {
    if connectors == [] then snapshots
    else
      var before := Completed(snapshots, connectors[..|connectors| - 1]);
      var id := connectors[|connectors| - 1];
      if exists s :: s in before && s.connectorKey == id then before else before + [UnavailableSnapshot(id)]
  }

  lemma {:induction false} CompletedCovers(snapshots: seq<ConnectorSnapshot>, connectors: seq<string>)
    ensures snapshots <= Completed(snapshots, connectors)
    ensures forall id :: id in connectors ==> exists s :: s in Completed(snapshots, connectors) && s.connectorKey == id
    ensures forall s :: s in Completed(snapshots, connectors) && s !in snapshots ==>
            s == UnavailableSnapshot(s.connectorKey)
    ensures DistinctConnectors(snapshots) ==> DistinctConnectors(Completed(snapshots, connectors))
  {
    if connectors != [] {
      var front, id := connectors[..|connectors| - 1], connectors[|connectors| - 1];
      CompletedCovers(snapshots, front);
      var before, after := Completed(snapshots, front), Completed(snapshots, connectors);
      assert forall c :: c in connectors ==> c in front || c == id;
      forall c | c in connectors ensures exists s :: s in after && s.connectorKey == c {
        if c == id && after != before {
          assert UnavailableSnapshot(id) == after[|after| - 1];
        } else {
          var s :| s in before && s.connectorKey == c;
          assert s in after;
        }
      }
      if DistinctConnectors(snapshots) && after != before {
        assert forall i :: 0 <= i < |before| ==> before[i] in before && before[i].connectorKey != id;
      }
    }
  }

  ghost predicate DistinctConnectors(snapshots: seq<ConnectorSnapshot>) {
    forall i, j :: 0 <= i < j < |snapshots| ==> snapshots[i].connectorKey != snapshots[j].connectorKey
  }

  lemma {:induction false} DataKeepsKeys(fields: Fields, connector: string, entries: seq<FieldEntry>)
    ensures forall k :: k in fields ==> k in WithData(fields, connector, entries)
  {
    if entries != [] {
      DataKeepsKeys(fields, connector, entries[..|entries| - 1]);
    }
  }

  /** A connector with a snapshot always has a status field. */
  lemma {:induction false} StatusAlwaysPresent(fields: Fields, snapshots: seq<ConnectorSnapshot>, s: ConnectorSnapshot)
    requires s in snapshots
    ensures MetaKey(s.connectorKey, "status") in WithSnapshots(fields, snapshots)
  {
    var front, last := snapshots[..|snapshots| - 1], snapshots[|snapshots| - 1];
    var before := WithSnapshots(fields, front);
    DataKeepsKeys(WithMeta(before, last), last.connectorKey, last.fields);
    if s != last {
      assert s in front;
      StatusAlwaysPresent(fields, front, s);
    }
  }

  /** No data field of a snapshot is spelled like the status field of this connector. */
  ghost predicate NoCollision(s: ConnectorSnapshot, connector: string) {
    forall e :: e in s.fields ==> DataKey(s.connectorKey, e.key) != MetaKey(connector, "status")
  }

  lemma MetaKeysDiffer(a: string, b: string, name: string)
    requires name in {"response_time_ms", "cache_age_hours", "is_cache_hit", "error_code"}
    ensures MetaKey(a, name) != MetaKey(b, "status")
  {
    var x, y := MetaKey(a, name), MetaKey(b, "status");
    assert x[|x| - 2] == name[|name| - 2];
    assert y[|y| - 2] == 'u';
  }

  lemma StatusKeyNamesConnector(a: string, b: string)
    requires MetaKey(a, "status") == MetaKey(b, "status")
    ensures a == b
  {
    var x, y := MetaKey(a, "status"), MetaKey(b, "status");
    assert |a| == |b|;
    assert x[|"source."|..|"source."| + |a|] == a;
    assert y[|"source."|..|"source."| + |b|] == b;
  }

  lemma {:induction false} DataKeepsStatus(fields: Fields, s: ConnectorSnapshot, entries: seq<FieldEntry>,
                                           connector: string)
    requires NoCollision(s, connector) && forall e :: e in entries ==> e in s.fields
    requires MetaKey(connector, "status") in fields
    ensures MetaKey(connector, "status") in WithData(fields, s.connectorKey, entries)
    ensures WithData(fields, s.connectorKey, entries)[MetaKey(connector, "status")]
            == fields[MetaKey(connector, "status")]
  {
    if entries != [] {
      assert entries[|entries| - 1] in entries;
      DataKeepsStatus(fields, s, entries[..|entries| - 1], connector);
    }
  }

  lemma MetaKeepsStatus(fields: Fields, s: ConnectorSnapshot, connector: string)
    requires s.connectorKey != connector && MetaKey(connector, "status") in fields
    ensures WithMeta(fields, s)[MetaKey(connector, "status")] == fields[MetaKey(connector, "status")]
  {
    if MetaKey(s.connectorKey, "status") == MetaKey(connector, "status") {
      StatusKeyNamesConnector(s.connectorKey, connector);
    }
    MetaKeysDiffer(s.connectorKey, connector, "response_time_ms");
    MetaKeysDiffer(s.connectorKey, connector, "cache_age_hours");
    MetaKeysDiffer(s.connectorKey, connector, "is_cache_hit");
    MetaKeysDiffer(s.connectorKey, connector, "error_code");
  }

  lemma MetaWritesStatus(fields: Fields, s: ConnectorSnapshot)
    ensures MetaKey(s.connectorKey, "status") in WithMeta(fields, s)
    ensures WithMeta(fields, s)[MetaKey(s.connectorKey, "status")] == JStr(s.meta.status)
  {
    MetaKeysDiffer(s.connectorKey, s.connectorKey, "response_time_ms");
    MetaKeysDiffer(s.connectorKey, s.connectorKey, "cache_age_hours");
    MetaKeysDiffer(s.connectorKey, s.connectorKey, "is_cache_hit");
    MetaKeysDiffer(s.connectorKey, s.connectorKey, "error_code");
  }

  /** The connector's snapshot that comes last. */
  function LastOf(snapshots: seq<ConnectorSnapshot>, connector: string): (last: Option<ConnectorSnapshot>)
    ensures last.Some? <==> exists s :: s in snapshots && s.connectorKey == connector
    ensures last.Some? ==> last.value in snapshots && last.value.connectorKey == connector
  {
    if snapshots == [] then None
    else
      var front, s := snapshots[..|snapshots| - 1], snapshots[|snapshots| - 1];
      assert snapshots == front + [s];
      if s.connectorKey == connector then Some(s) else LastOf(front, connector)
  }

  lemma LastWriteStatus(before: Fields, s: ConnectorSnapshot)
    requires NoCollision(s, s.connectorKey)
    ensures var after, key :=
            WithData(WithMeta(before, s), s.connectorKey, s.fields), MetaKey(s.connectorKey, "status");
            key in after && after[key] == JStr(s.meta.status)
  {
    MetaWritesStatus(before, s);
    DataKeepsStatus(WithMeta(before, s), s, s.fields, s.connectorKey);
  }

  lemma OtherKeepsStatus(before: Fields, s: ConnectorSnapshot, connector: string)
    requires s.connectorKey != connector && NoCollision(s, connector) && MetaKey(connector, "status") in before
    ensures var after, key := WithData(WithMeta(before, s), s.connectorKey, s.fields), MetaKey(connector, "status");
            key in after && after[key] == before[key]
  {
    MetaKeepsStatus(before, s, connector);
    DataKeepsStatus(WithMeta(before, s), s, s.fields, connector);
  }

  /** Where no data field is spelled like it, a connector's status field is the status of its last snapshot. */
  lemma {:induction false} StatusIsLastSnapshots(fields: Fields, snapshots: seq<ConnectorSnapshot>, connector: string)
    requires LastOf(snapshots, connector).Some?
    requires forall other :: other in snapshots ==> NoCollision(other, connector)
    ensures MetaKey(connector, "status") in WithSnapshots(fields, snapshots)
    ensures WithSnapshots(fields, snapshots)[MetaKey(connector, "status")]
            == JStr(LastOf(snapshots, connector).value.meta.status)
    decreases |snapshots|
  {
    var front, last := snapshots[..|snapshots| - 1], snapshots[|snapshots| - 1];
    var before := WithSnapshots(fields, front);
    assert last in snapshots;
    if last.connectorKey == connector {
      LastWriteStatus(before, last);
    } else {
      StatusIsLastSnapshots(fields, front, connector);
      OtherKeepsStatus(before, last, connector);
    }
  }

  /** With one snapshot a connector, that is its status. */
  lemma StatusIsSnapshots(fields: Fields, snapshots: seq<ConnectorSnapshot>, s: ConnectorSnapshot)
    requires s in snapshots && DistinctConnectors(snapshots)
    requires forall other :: other in snapshots ==> NoCollision(other, s.connectorKey)
    ensures MetaKey(s.connectorKey, "status") in WithSnapshots(fields, snapshots)
    ensures WithSnapshots(fields, snapshots)[MetaKey(s.connectorKey, "status")] == JStr(s.meta.status)
  {
    StatusIsLastSnapshots(fields, snapshots, s.connectorKey);
    var last := LastOf(snapshots, s.connectorKey).value;
    var i :| 0 <= i < |snapshots| && snapshots[i] == s;
    var j :| 0 <= j < |snapshots| && snapshots[j] == last;
  }
}
