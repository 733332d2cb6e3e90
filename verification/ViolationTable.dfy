/**
 The violation table: the second half of recordPolicyEvaluationWithViolations in
 services/api/src/connect/check-service.ts, with the outside changes made by
 services/api/src/features/violations/project-shared.ts and
 services/api/src/features/violation-suppressions/write-routes.ts.
 Transactions are serialised.
 */
module ViolationTable {
  import opened Common
  import opened Sorting
  import opened PolicyData

  datatype Status = Open | Suppressed | Resolved

  datatype Row = Row(
    id: Id,
    tenantId: Id,
    projectId: Id,
    entityType: string,
    packageId: Option<Id>,
    packageVersionId: Option<Id>,
    policyId: Option<Id>,
    ruleId: Option<Id>,
    policyRuleBindingId: Option<Id>,
    policyProjectBindingId: Option<Id>,
    enforcementMode: string,
    code: string,
    severity: string,
    message: string,
    recommendedRemediation: Option<string>,
    blocked: bool,
    status: Status,
    firstSeenAt: Instant,
    lastSeenAt: Instant)

  datatype Artifact = Artifact(packageId: Option<Id>, packageVersionId: Option<Id>)

  /** A violation collected by an evaluation, about to be written. */
  datatype Collected = Collected(
    tenantId: Id,
    projectId: Id,
    entityType: string,
    policyId: Option<Id>,
    ruleId: Option<Id>,
    ruleKey: Option<Id>,
    policyRuleBindingId: Option<Id>,
    policyProjectBindingId: Option<Id>,
    enforcementMode: string,
    code: string,
    severity: string,
    message: string,
    recommendedRemediation: Option<string>,
    blocked: bool,
    evaluationId: Id,
    evaluatedAt: Instant)

  datatype Suppression = Suppression(
    id: Id,
    tenantId: Id,
    projectId: Option<Id>,
    packageId: Option<Id>,
    packageVersionId: Option<Id>,
    ruleKey: Option<Id>,
    expiresAt: Option<Instant>)

  datatype Occurrence = Occurrence(
    violationId: Id,
    evaluationId: Id,
    statusAtOccurrence: Status,
    suppressionId: Option<Id>,
    occurredAt: Instant)

  /** The columns of the unique index on open and suppressed rows. */
  datatype Key = Key(
    tenantId: Id,
    projectId: Id,
    entityType: string,
    packageId: Option<Id>,
    packageVersionId: Option<Id>,
    policyId: Option<Id>,
    ruleId: Option<Id>,
    policyRuleBindingId: Option<Id>,
    policyProjectBindingId: Option<Id>,
    enforcementMode: string,
    code: string)

  function KeyOf(r: Row): Key {
    Key(r.tenantId, r.projectId, r.entityType, r.packageId, r.packageVersionId, r.policyId, r.ruleId,
        r.policyRuleBindingId, r.policyProjectBindingId, r.enforcementMode, r.code)
  }

  function KeyFor(v: Collected, a: Artifact): Key {
    Key(v.tenantId, v.projectId, v.entityType, a.packageId, a.packageVersionId, v.policyId, v.ruleId,
        v.policyRuleBindingId, v.policyProjectBindingId, v.enforcementMode, v.code)
  }

  predicate IsActive(r: Row) { r.status != Resolved }

  datatype Tables = Tables(rows: seq<Row>, occurrences: seq<Occurrence>, suppressions: seq<Suppression>, nextId: Id)

  // ----- one evaluation -----

  predicate Applies(s: Suppression, tenant: Id, a: Artifact, at: Instant) {
    && s.tenantId == tenant
    && s.packageId == a.packageId
    && s.packageVersionId == a.packageVersionId
    && (s.expiresAt.None? || s.expiresAt.value > at)
  }

  predicate Covers(s: Suppression, v: Collected) {
    && (s.projectId.None? || s.projectId.value == v.projectId)
    && (s.ruleKey.None? || s.ruleKey == v.ruleKey)
  }

  /** matchingSuppression */
  function MatchingSuppression(suppressed: seq<Suppression>, v: Collected): Option<Suppression> {
    if suppressed == [] then None
    else if Covers(suppressed[0], v) then Some(suppressed[0])
    else MatchingSuppression(suppressed[1..], v)
  }

  /** Suppressed before open, then latest first. */
  function LookupOrder(): (Row, Row) -> bool {
    (x: Row, y: Row) =>
      if (x.status == Suppressed) != (y.status == Suppressed) then x.status == Suppressed
      else x.lastSeenAt >= y.lastSeenAt
  }

  function ActiveWith(key: Key): Row -> bool { (r: Row) => IsActive(r) && KeyOf(r) == key }

  /** The row that the lookup query returns, if any. */
  function ActiveRow(rows: seq<Row>, key: Key): Option<Row> {
    var found := StableSort(Filter(rows, ActiveWith(key)), LookupOrder());
    if found == [] then None else Some(found[0])
  }

  function SuppressionId(suppression: Option<Suppression>): Option<Id> {
    if suppression.Some? then Some(suppression.value.id) else None
  }

  function StatusFor(suppression: Option<Suppression>): Status { if suppression.Some? then Suppressed else Open }

  /** The columns that the update writes. */
  function Refreshed(r: Row, v: Collected, a: Artifact, status: Status): Row {
    r.(ruleId := v.ruleId, policyId := v.policyId, policyRuleBindingId := v.policyRuleBindingId,
       policyProjectBindingId := v.policyProjectBindingId, recommendedRemediation := v.recommendedRemediation,
       packageId := a.packageId, packageVersionId := a.packageVersionId, severity := v.severity, message := v.message,
       blocked := v.blocked, status := status, lastSeenAt := v.evaluatedAt)
  }

  function Created(id: Id, v: Collected, a: Artifact, status: Status): Row {
    Row(id, v.tenantId, v.projectId, v.entityType, a.packageId, a.packageVersionId, v.policyId, v.ruleId,
        v.policyRuleBindingId, v.policyProjectBindingId, v.enforcementMode, v.code, v.severity, v.message,
        v.recommendedRemediation, v.blocked, status, v.evaluatedAt, v.evaluatedAt)
  }

  /** UPDATE ... WHERE id = id */
  function UpdateWhere(rows: seq<Row>, id: Id, change: Row -> Row): seq<Row> {
    seq(|rows|, i requires 0 <= i < |rows| => if rows[i].id == id then change(rows[i]) else rows[i])
  }

  function RecordOne(t: Tables, v: Collected, a: Artifact, suppressed: seq<Suppression>): Tables {
    var suppression := MatchingSuppression(suppressed, v);
    var status := StatusFor(suppression);
    var active := ActiveRow(t.rows, KeyFor(v, a));
    var violationId := if active.Some? then active.value.id else t.nextId;
    var rows :=
      if active.Some? then UpdateWhere(t.rows, violationId, (r: Row) => Refreshed(r, v, a, status))
      else t.rows + [Created(t.nextId, v, a, status)];
    var occurrence := Occurrence(violationId, v.evaluationId, status, SuppressionId(suppression), v.evaluatedAt);
    t.(rows := rows, occurrences := t.occurrences + [occurrence],
       nextId := if active.Some? then t.nextId else t.nextId + 1)
  }

  function RecordFrom(t: Tables, vs: seq<Collected>, a: Artifact, suppressed: seq<Suppression>): Tables {
    if vs == [] then t else RecordOne(RecordFrom(t, vs[..|vs| - 1], a, suppressed), vs[|vs| - 1], a, suppressed)
  }

  /** The suppressions in force, as the transaction reads them before its loop. */
  function InForceFor(t: Tables, tenant: Id, a: Artifact, at: Instant): seq<Suppression> {
    Filter(t.suppressions, (s: Suppression) => Applies(s, tenant, a, at))
  }

  /** The row that the occurrence of a violation will point to. */
  function Target(t: Tables, v: Collected, a: Artifact): Id {
    var active := ActiveRow(t.rows, KeyFor(v, a));
    if active.Some? then active.value.id else t.nextId
  }

  /**
   There is one occurrence for a row and an evaluation: a unique index refuses a second one. The
   evaluation's id is fresh, so only occurrences from base on, its own, can stand in the way.
   */
  predicate Refused(t: Tables, base: nat, v: Collected, a: Artifact) {
    exists c :: base <= c < |t.occurrences| && t.occurrences[c].violationId == Target(t, v, a)
  }

  /** One more violation of an evaluation whose occurrences begin at base. */
  function RecordNext(t: Tables, base: nat, v: Collected, a: Artifact, suppressed: seq<Suppression>): Option<Tables> {
    if Refused(t, base, v, a) then None else Some(RecordOne(t, v, a, suppressed))
  }

  /** The loop; None when an insert is refused. */
  function RecordAll(t: Tables, vs: seq<Collected>, a: Artifact, suppressed: seq<Suppression>): Option<Tables> {
    if vs == [] then Some(t)
    else
      match RecordAll(t, vs[..|vs| - 1], a, suppressed)
      case None => None
      case Some(before) => RecordNext(before, |t.occurrences|, vs[|vs| - 1], a, suppressed)
  }

  /** One transaction: a refused insert rolls all of it back. */
  function RecordEvaluation(t: Tables, vs: seq<Collected>, a: Artifact, tenant: Id, at: Instant): Tables {
    var all := RecordAll(t, vs, a, InForceFor(t, tenant, a, at));
    if all.Some? then all.value else t
  }

  // ----- the invariant -----

  ghost predicate HasRow(rows: seq<Row>, id: Id) { exists i :: 0 <= i < |rows| && rows[i].id == id }

  ghost predicate Consistent(t: Tables) {
    && (forall i :: 0 <= i < |t.rows| ==> t.rows[i].id < t.nextId)
    && (forall i, j :: 0 <= i < j < |t.rows| ==> t.rows[i].id != t.rows[j].id)
    && (forall i, j :: 0 <= i < j < |t.rows| && IsActive(t.rows[i]) && IsActive(t.rows[j]) ==>
        KeyOf(t.rows[i]) != KeyOf(t.rows[j]))
    && (forall k :: 0 <= k < |t.occurrences| ==> HasRow(t.rows, t.occurrences[k].violationId))
  }

  /** Every row was last seen by now, and not before it was first seen. */
  ghost predicate SeenBy(t: Tables, now: Instant) {
    forall i :: 0 <= i < |t.rows| ==> t.rows[i].firstSeenAt <= t.rows[i].lastSeenAt <= now
  }

  /** The lookup finds a row exactly when there is one, and then the only one. */
  lemma ActiveRowFinds(rows: seq<Row>, key: Key)
    ensures ActiveRow(rows, key).Some? <==> exists i :: 0 <= i < |rows| && IsActive(rows[i]) && KeyOf(rows[i]) == key
    ensures ActiveRow(rows, key).Some? ==>
              exists i :: 0 <= i < |rows| && rows[i] == ActiveRow(rows, key).value && IsActive(rows[i])
                  && KeyOf(rows[i]) == key
  {
    var matching := Filter(rows, ActiveWith(key));
    var found := StableSort(matching, LookupOrder());
    SortPermutes(matching, LookupOrder());
    if found != [] {
      assert found[0] in matching;
      var i :| 0 <= i < |rows| && rows[i] == found[0];
    }
    if i :| 0 <= i < |rows| && IsActive(rows[i]) && KeyOf(rows[i]) == key {
      assert rows[i] in matching;
    }
  }

  /** The violation is written at position k, which is past the end for a new row. */
  ghost predicate WrittenAt(t: Tables, t': Tables, v: Collected, a: Artifact, suppression: Option<Suppression>,
                            k: nat) {
    var status := StatusFor(suppression);
    && k < |t'.rows|
    && KeyOf(t'.rows[k]) == KeyFor(v, a)
    && t'.rows[k].status == status
    && (if k < |t.rows|
        then |t'.rows| == |t.rows| && IsActive(t.rows[k]) && t'.rows[k] == Refreshed(t.rows[k], v, a, status)
             && KeyOf(t.rows[k]) == KeyFor(v, a)
        else |t'.rows| == |t.rows| + 1 && t'.rows[k] == Created(t.nextId, v, a, status))
    && (forall i :: 0 <= i < |t.rows| && i != k ==> t'.rows[i] == t.rows[i])
    && t'.suppressions == t.suppressions
    && t'.occurrences ==
       t.occurrences + [Occurrence(t'.rows[k].id, v.evaluationId, status, SuppressionId(suppression), v.evaluatedAt)]
  }

  lemma RefreshedAt(t: Tables, v: Collected, a: Artifact, suppressed: seq<Suppression>) returns (k: nat)
    requires Consistent(t) && ActiveRow(t.rows, KeyFor(v, a)).Some?
    ensures k < |t.rows| && WrittenAt(t, RecordOne(t, v, a, suppressed), v, a, MatchingSuppression(suppressed, v), k)
  {
    var key := KeyFor(v, a);
    var active := ActiveRow(t.rows, key).value;
    ActiveRowFinds(t.rows, key);
    k :| 0 <= k < |t.rows| && t.rows[k] == active && IsActive(t.rows[k]) && KeyOf(t.rows[k]) == key;
  }

  lemma CreatedAtEnd(t: Tables, v: Collected, a: Artifact, suppressed: seq<Suppression>)
    requires ActiveRow(t.rows, KeyFor(v, a)).None?
    ensures WrittenAt(t, RecordOne(t, v, a, suppressed), v, a, MatchingSuppression(suppressed, v), |t.rows|)
  {
  }

  /**
   Recording a violation touches one row: the active row with its key, or a new one. It adds one
   occurrence, which points to that row and carries its status. No other row changes, and no row's
   key changes.
   */
  lemma RecordOneWrites(t: Tables, v: Collected, a: Artifact, suppressed: seq<Suppression>) returns (k: nat)
    requires Consistent(t)
    ensures WrittenAt(t, RecordOne(t, v, a, suppressed), v, a, MatchingSuppression(suppressed, v), k)
    ensures k == |t.rows| <==> forall i :: 0 <= i < |t.rows| && IsActive(t.rows[i]) ==> KeyOf(t.rows[i]) != KeyFor(v, a)
  {
    ActiveRowFinds(t.rows, KeyFor(v, a));
    if ActiveRow(t.rows, KeyFor(v, a)).Some? {
      k := RefreshedAt(t, v, a, suppressed);
    } else {
      k := |t.rows|;
      CreatedAtEnd(t, v, a, suppressed);
    }
  }

  lemma OccurrencesOnRows(t: Tables, v: Collected, a: Artifact, suppressed: seq<Suppression>, c: nat)
    requires Consistent(t) && c < |RecordOne(t, v, a, suppressed).occurrences|
    ensures var t' := RecordOne(t, v, a, suppressed); HasRow(t'.rows, t'.occurrences[c].violationId)
  {
    var k := RecordOneWrites(t, v, a, suppressed);
    var t' := RecordOne(t, v, a, suppressed);
    if c < |t.occurrences| {
      assert HasRow(t.rows, t.occurrences[c].violationId);
      var i :| 0 <= i < |t.rows| && t.rows[i].id == t.occurrences[c].violationId;
      assert t'.rows[i].id == t.rows[i].id;
    } else {
      assert t'.rows[k].id == t'.occurrences[c].violationId;
    }
  }

  lemma RecordOneConsistent(t: Tables, v: Collected, a: Artifact, suppressed: seq<Suppression>)
    requires Consistent(t)
    ensures Consistent(RecordOne(t, v, a, suppressed))
  {
    var k := RecordOneWrites(t, v, a, suppressed);
    var t' := RecordOne(t, v, a, suppressed);
    forall c | 0 <= c < |t'.occurrences| ensures HasRow(t'.rows, t'.occurrences[c].violationId) {
      OccurrencesOnRows(t, v, a, suppressed, c);
    }
    forall i, j | 0 <= i < j < |t'.rows| && IsActive(t'.rows[i]) && IsActive(t'.rows[j])
      ensures KeyOf(t'.rows[i]) != KeyOf(t'.rows[j])
    {
    }
  }

  lemma {:induction false} RecordFromConsistent(t: Tables, vs: seq<Collected>, a: Artifact,
                                                suppressed: seq<Suppression>)
    requires Consistent(t)
    ensures Consistent(RecordFrom(t, vs, a, suppressed))
    ensures RecordFrom(t, vs, a, suppressed).suppressions == t.suppressions
    ensures |RecordFrom(t, vs, a, suppressed).occurrences| == |t.occurrences| + |vs|
  {
    if vs != [] {
      RecordFromConsistent(t, vs[..|vs| - 1], a, suppressed);
      RecordOneConsistent(RecordFrom(t, vs[..|vs| - 1], a, suppressed), vs[|vs| - 1], a, suppressed);
    }
  }

  predicate DistinctKeys(vs: seq<Collected>, a: Artifact) {
    forall i, j :: 0 <= i < j < |vs| ==> KeyFor(vs[i], a) != KeyFor(vs[j], a)
  }

  /** Occurrence c of t points to a row with this key and the occurrence's status. */
  ghost predicate PointsTo(t: Tables, c: nat, key: Key, status: Status) {
    && c < |t.occurrences|
    && t.occurrences[c].statusAtOccurrence == status
    && RowIs(t.rows, t.occurrences[c].violationId, key, status)
  }

  ghost predicate RowIs(rows: seq<Row>, id: Id, key: Key, status: Status) {
    exists i :: 0 <= i < |rows| && rows[i].id == id && KeyOf(rows[i]) == key && rows[i].status == status
  }

  /** The i-th collected violation has the i-th occurrence from base on, and that points home. */
  ghost predicate PointHome(t: Tables, base: nat, vs: seq<Collected>, a: Artifact, suppressed: seq<Suppression>) {
    forall i :: 0 <= i < |vs| ==>
      PointsTo(t, base + i, KeyFor(vs[i], a), StatusFor(MatchingSuppression(suppressed, vs[i])))
  }

  /**
   When the loop is through, the i-th collected violation has the i-th new occurrence, which points
   to the row with its key, and row and occurrence carry the same status.
   */
  lemma {:induction false} OccurrencesPointHome(t: Tables, vs: seq<Collected>, a: Artifact,
                                                suppressed: seq<Suppression>)
    requires Consistent(t) && DistinctKeys(vs, a)
    ensures PointHome(RecordFrom(t, vs, a, suppressed), |t.occurrences|, vs, a, suppressed)
  {
    if vs != [] {
      var front, last := vs[..|vs| - 1], vs[|vs| - 1];
      assert vs == front + [last];
      assert DistinctKeys(front, a) by {
        assert forall i :: 0 <= i < |front| ==> vs[i] == front[i];
      }
      OccurrencesPointHome(t, front, a, suppressed);
      RecordFromConsistent(t, front, a, suppressed);
      LastPointsHome(t, front, last, a, suppressed);
    }
  }

  lemma LastPointsHome(t: Tables, front: seq<Collected>, last: Collected, a: Artifact, suppressed: seq<Suppression>)
    requires Consistent(RecordFrom(t, front, a, suppressed)) && DistinctKeys(front + [last], a)
    requires |RecordFrom(t, front, a, suppressed).occurrences| == |t.occurrences| + |front|
    requires PointHome(RecordFrom(t, front, a, suppressed), |t.occurrences|, front, a, suppressed)
    ensures PointHome(RecordFrom(t, front + [last], a, suppressed), |t.occurrences|, front + [last], a, suppressed)
  {
    var before := RecordFrom(t, front, a, suppressed);
    var k := RecordOneWrites(before, last, a, suppressed);
    assert (front + [last])[..|front|] == front;
    assert RecordFrom(t, front + [last], a, suppressed) == RecordOne(before, last, a, suppressed);
    OneMorePointsHome(before, RecordOne(before, last, a, suppressed), |t.occurrences|, front, last, a, suppressed, k);
  }

  lemma OneMorePointsHome(t: Tables, t': Tables, base: nat, front: seq<Collected>, last: Collected, a: Artifact,
                          suppressed: seq<Suppression>, k: nat)
    requires WrittenAt(t, t', last, a, MatchingSuppression(suppressed, last), k)
    requires PointHome(t, base, front, a, suppressed) && |t.occurrences| == base + |front|
    requires DistinctKeys(front + [last], a)
    ensures PointHome(t', base, front + [last], a, suppressed)
  {
    var vs := front + [last];
    forall i | 0 <= i < |vs|
      ensures PointsTo(t', base + i, KeyFor(vs[i], a), StatusFor(MatchingSuppression(suppressed, vs[i])))
    {
      if i < |front| {
        assert vs[i] == front[i] && vs[|front|] == last;
        OtherKeysStay(t, t', last, a, suppressed, k, base + i, KeyFor(vs[i], a),
                      StatusFor(MatchingSuppression(suppressed, vs[i])));
      } else {
        assert t'.rows[k].id == t'.occurrences[base + i].violationId;
        assert RowIs(t'.rows, t'.rows[k].id, KeyFor(vs[i], a), t'.rows[k].status);
      }
    }
  }

  lemma OtherKeysStay(t: Tables, t': Tables, v: Collected, a: Artifact, suppressed: seq<Suppression>, k: nat,
                      c: nat, key: Key, status: Status)
    requires WrittenAt(t, t', v, a, MatchingSuppression(suppressed, v), k)
    requires PointsTo(t, c, key, status) && key != KeyFor(v, a)
    ensures PointsTo(t', c, key, status)
  {
    assert RowIs(t.rows, t.occurrences[c].violationId, key, status);
    var i :| 0 <= i < |t.rows| && t.rows[i].id == t.occurrences[c].violationId
      && KeyOf(t.rows[i]) == key && t.rows[i].status == status;
    assert t'.rows[i] == t.rows[i];
  }

  // ----- refused inserts -----

  /** Some violation in vs has the key. */
  predicate HasKey(vs: seq<Collected>, a: Artifact, key: Key) { exists i :: 0 <= i < |vs| && KeyFor(vs[i], a) == key }

  lemma SameKeySameTarget(t: Tables, c: nat, status: Status, v: Collected, a: Artifact)
    requires Consistent(t) && PointsTo(t, c, KeyFor(v, a), status) && status != Resolved
    ensures t.occurrences[c].violationId == Target(t, v, a)
  {
    ActiveRowFinds(t.rows, KeyFor(v, a));
  }

  lemma SameTargetSameKey(t: Tables, c: nat, key: Key, status: Status, v: Collected, a: Artifact)
    requires Consistent(t) && PointsTo(t, c, key, status) && t.occurrences[c].violationId == Target(t, v, a)
    ensures key == KeyFor(v, a)
  {
    ActiveRowFinds(t.rows, KeyFor(v, a));
  }

  /** now holds the occurrences of front, from base on. */
  ghost predicate Holds(now: Tables, base: nat, front: seq<Collected>, a: Artifact, suppressed: seq<Suppression>) {
    Consistent(now) && |now.occurrences| == base + |front| && PointHome(now, base, front, a, suppressed)
  }

  lemma RepeatedKeyRefused(now: Tables, base: nat, front: seq<Collected>, last: Collected, a: Artifact,
                           suppressed: seq<Suppression>)
    requires Holds(now, base, front, a, suppressed) && HasKey(front, a, KeyFor(last, a))
    ensures Refused(now, base, last, a)
  {
    var i :| 0 <= i < |front| && KeyFor(front[i], a) == KeyFor(last, a);
    SameKeySameTarget(now, base + i, StatusFor(MatchingSuppression(suppressed, front[i])), last, a);
  }

  lemma RefusedRepeatsKey(now: Tables, base: nat, front: seq<Collected>, last: Collected, a: Artifact,
                          suppressed: seq<Suppression>)
    requires Holds(now, base, front, a, suppressed) && Refused(now, base, last, a)
    ensures HasKey(front, a, KeyFor(last, a))
  {
    var c :| base <= c < |now.occurrences| && now.occurrences[c].violationId == Target(now, last, a);
    var i := c - base;
    var status := StatusFor(MatchingSuppression(suppressed, front[i]));
    assert PointsTo(now, base + i, KeyFor(front[i], a), status);
    SameTargetSameKey(now, c, KeyFor(front[i], a), status, last, a);
  }

  /** The insert for one more violation is refused exactly if an earlier one of the evaluation has its key. */
  lemma RefusedIff(now: Tables, base: nat, front: seq<Collected>, last: Collected, a: Artifact,
                   suppressed: seq<Suppression>)
    requires Holds(now, base, front, a, suppressed)
    ensures Refused(now, base, last, a) <==> HasKey(front, a, KeyFor(last, a))
  {
    if HasKey(front, a, KeyFor(last, a)) {
      RepeatedKeyRefused(now, base, front, last, a, suppressed);
    }
    if Refused(now, base, last, a) {
      RefusedRepeatsKey(now, base, front, last, a, suppressed);
    }
  }

  lemma DistinctOneMore(front: seq<Collected>, last: Collected, a: Artifact)
    ensures DistinctKeys(front + [last], a) <==> DistinctKeys(front, a) && !HasKey(front, a, KeyFor(last, a))
  {
    var vs := front + [last];
    assert vs[|front|] == last && forall i :: 0 <= i < |front| ==> vs[i] == front[i];
    if DistinctKeys(vs, a) {
      forall i | 0 <= i < |front| ensures KeyFor(front[i], a) != KeyFor(last, a) {
        assert KeyFor(vs[i], a) != KeyFor(vs[|front|], a);
      }
      assert DistinctKeys(front, a);
    }
  }

  /** All of vs is recorded if its keys are distinct, and nothing otherwise. */
  ghost predicate RecordedWhenDistinct(t: Tables, vs: seq<Collected>, a: Artifact, suppressed: seq<Suppression>) {
    RecordAll(t, vs, a, suppressed) == if DistinctKeys(vs, a) then Some(RecordFrom(t, vs, a, suppressed)) else None
  }

  lemma FrontHeld(t: Tables, front: seq<Collected>, a: Artifact, suppressed: seq<Suppression>)
    requires Consistent(t) && DistinctKeys(front, a)
    ensures Holds(RecordFrom(t, front, a, suppressed), |t.occurrences|, front, a, suppressed)
  {
    RecordFromConsistent(t, front, a, suppressed);
    OccurrencesPointHome(t, front, a, suppressed);
  }

  lemma RecordedOneMore(t: Tables, front: seq<Collected>, last: Collected, a: Artifact, suppressed: seq<Suppression>)
    requires Consistent(t) && RecordedWhenDistinct(t, front, a, suppressed)
    ensures RecordedWhenDistinct(t, front + [last], a, suppressed)
  {
    var vs := front + [last];
    assert vs[..|vs| - 1] == front && vs[|vs| - 1] == last;
    DistinctOneMore(front, last, a);
    if DistinctKeys(front, a) {
      FrontHeld(t, front, a, suppressed);
      RefusedIff(RecordFrom(t, front, a, suppressed), |t.occurrences|, front, last, a, suppressed);
    }
  }

  lemma NothingRecorded(t: Tables, a: Artifact, suppressed: seq<Suppression>)
    ensures RecordedWhenDistinct(t, [], a, suppressed)
  {
  }

  /** An evaluation is recorded, all of it, exactly if no two of its violations have the same key. */
  lemma {:induction false} RecordedIffDistinct(t: Tables, vs: seq<Collected>, a: Artifact, suppressed: seq<Suppression>)
    requires Consistent(t)
    ensures RecordedWhenDistinct(t, vs, a, suppressed)
    decreases |vs|
  {
    if vs == [] {
      NothingRecorded(t, a, suppressed);
    } else {
      var front, last := vs[..|vs| - 1], vs[|vs| - 1];
      assert vs == front + [last];
      RecordedIffDistinct(t, front, a, suppressed);
      RecordedOneMore(t, front, last, a, suppressed);
    }
  }

  // ----- every run -----

  datatype Event =
    | Evaluation(violations: seq<Collected>, artifact: Artifact, tenant: Id, at: Instant)
    | AddSuppression(suppression: Suppression)
    | RemoveSuppression(id: Id)
    | SetStatus(violationId: Id, status: Status)

  /** The unique index refuses a status change that would leave two active rows with one key. */
  function ChangeStatus(t: Tables, id: Id, status: Status): Tables {
    var rows := UpdateWhere(t.rows, id, (r: Row) => r.(status := status));
    if forall i, j :: 0 <= i < j < |rows| && IsActive(rows[i]) && IsActive(rows[j]) ==> KeyOf(rows[i]) != KeyOf(rows[j])
    then t.(rows := rows)
    else t
  }

  function Step(t: Tables, e: Event): Tables {
    match e
    case Evaluation(vs, a, tenant, at) => RecordEvaluation(t, vs, a, tenant, at)
    case AddSuppression(s) => t.(suppressions := t.suppressions + [s])
    case RemoveSuppression(id) => t.(suppressions := Filter(t.suppressions, (s: Suppression) => s.id != id))
    case SetStatus(id, status) => ChangeStatus(t, id, status)
  }

  function Run(t: Tables, events: seq<Event>): Tables {
    if events == [] then t else Step(Run(t, events[..|events| - 1]), events[|events| - 1])
  }

  /** An evaluation whose transaction is not rolled back. */
  predicate Commits(e: Event) { e.Evaluation? && DistinctKeys(e.violations, e.artifact) }

  /** How many violations the recorded evaluations of a run collect. */
  function CollectedIn(events: seq<Event>): nat {
    if events == [] then 0
    else
      var last := events[|events| - 1];
      CollectedIn(events[..|events| - 1]) + if Commits(last) then |last.violations| else 0
  }

  function NoTables(): Tables { Tables([], [], [], 0) }

  /**
   In every run, whatever the clock: at most one active row a key, every occurrence on an existing
   row, and as many occurrences as violations recorded. So the unique index on active rows never
   refuses what an evaluation writes.
   */
  lemma {:induction false} RunsStayConsistent(events: seq<Event>)
    ensures Consistent(Run(NoTables(), events))
    ensures |Run(NoTables(), events).occurrences| == CollectedIn(events)
    decreases |events|
  {
    if events != [] {
      var front, last := events[..|events| - 1], events[|events| - 1];
      RunsStayConsistent(front);
      var t := Run(NoTables(), front);
      StepConsistent(t, last);
      if last.Evaluation? {
        EvaluationCounts(t, last.violations, last.artifact, last.tenant, last.at);
      }
    }
  }

  lemma EvaluationCounts(t: Tables, vs: seq<Collected>, a: Artifact, tenant: Id, at: Instant)
    requires Consistent(t)
    ensures |RecordEvaluation(t, vs, a, tenant, at).occurrences| ==
            |t.occurrences| + if DistinctKeys(vs, a) then |vs| else 0
  {
    var suppressed := InForceFor(t, tenant, a, at);
    RecordedIffDistinct(t, vs, a, suppressed);
    RecordFromConsistent(t, vs, a, suppressed);
  }

  lemma StatusChangeConsistent(t: Tables, id: Id, status: Status)
    requires Consistent(t)
    ensures Consistent(ChangeStatus(t, id, status))
  {
    var rows := UpdateWhere(t.rows, id, (r: Row) => r.(status := status));
    forall c | 0 <= c < |t.occurrences|
      ensures HasRow(rows, t.occurrences[c].violationId)
    {
      assert HasRow(t.rows, t.occurrences[c].violationId);
      var i :| 0 <= i < |t.rows| && t.rows[i].id == t.occurrences[c].violationId;
      assert rows[i].id == t.rows[i].id;
    }
  }

  /** The keys of the violations that a run's recorded evaluations collect, in order. */
  function KeysIn(events: seq<Event>): seq<Key> {
    if events == [] then []
    else
      var last := events[|events| - 1];
      KeysIn(events[..|events| - 1]) + if Commits(last) then KeysFor(last.violations, last.artifact) else []
  }

  function KeysFor(vs: seq<Collected>, a: Artifact): seq<Key> {
    if vs == [] then [] else KeysFor(vs[..|vs| - 1], a) + [KeyFor(vs[|vs| - 1], a)]
  }

  ghost predicate RowHasKey(rows: seq<Row>, id: Id, key: Key) {
    exists i :: 0 <= i < |rows| && rows[i].id == id && KeyOf(rows[i]) == key
  }

  /** The c-th occurrence is on a row with the c-th key. */
  ghost predicate KeyedBy(t: Tables, keys: seq<Key>) {
    && |t.occurrences| == |keys|
    && forall c :: 0 <= c < |keys| ==> RowHasKey(t.rows, t.occurrences[c].violationId, keys[c])
  }

  lemma RecordOneKeyed(t: Tables, v: Collected, a: Artifact, suppressed: seq<Suppression>, keys: seq<Key>)
    requires Consistent(t) && KeyedBy(t, keys)
    ensures KeyedBy(RecordOne(t, v, a, suppressed), keys + [KeyFor(v, a)])
  {
    var t', all := RecordOne(t, v, a, suppressed), keys + [KeyFor(v, a)];
    var k := RecordOneWrites(t, v, a, suppressed);
    forall c | 0 <= c < |all| ensures RowHasKey(t'.rows, t'.occurrences[c].violationId, all[c]) {
      if c < |keys| {
        assert RowHasKey(t.rows, t.occurrences[c].violationId, keys[c]);
      var i :| 0 <= i < |t.rows| && t.rows[i].id == t.occurrences[c].violationId && KeyOf(t.rows[i]) == keys[c];
        assert t'.rows[i].id == t.rows[i].id && KeyOf(t'.rows[i]) == keys[c];
      } else {
        assert t'.rows[k].id == t'.occurrences[c].violationId;
      }
    }
  }

  lemma {:induction false} RecordFromKeyed(t: Tables, vs: seq<Collected>, a: Artifact, suppressed: seq<Suppression>,
                                           keys: seq<Key>)
    requires Consistent(t) && KeyedBy(t, keys)
    ensures KeyedBy(RecordFrom(t, vs, a, suppressed), keys + KeysFor(vs, a))
    decreases |vs|
  {
    if vs == [] {
      assert keys + [] == keys;
    } else {
      var front, last := vs[..|vs| - 1], vs[|vs| - 1];
      RecordFromConsistent(t, front, a, suppressed);
      RecordFromKeyed(t, front, a, suppressed, keys);
      RecordOneKeyed(RecordFrom(t, front, a, suppressed), last, a, suppressed, keys + KeysFor(front, a));
      assert keys + KeysFor(front, a) + [KeyFor(last, a)] == keys + KeysFor(vs, a);
    }
  }

  lemma StatusChangeKeyed(t: Tables, id: Id, status: Status, keys: seq<Key>)
    requires KeyedBy(t, keys)
    ensures KeyedBy(ChangeStatus(t, id, status), keys)
  {
    var rows := UpdateWhere(t.rows, id, (r: Row) => r.(status := status));
    forall c | 0 <= c < |keys| ensures RowHasKey(rows, t.occurrences[c].violationId, keys[c]) {
      assert RowHasKey(t.rows, t.occurrences[c].violationId, keys[c]);
      var i :| 0 <= i < |t.rows| && t.rows[i].id == t.occurrences[c].violationId && KeyOf(t.rows[i]) == keys[c];
      assert rows[i].id == t.rows[i].id && KeyOf(rows[i]) == keys[c];
    }
  }

  lemma StepConsistent(t: Tables, e: Event)
    requires Consistent(t)
    ensures Consistent(Step(t, e))
  {
    match e {
      case Evaluation(vs, a, tenant, at) =>
        RecordedIffDistinct(t, vs, a, InForceFor(t, tenant, a, at));
        RecordFromConsistent(t, vs, a, InForceFor(t, tenant, a, at));
      case SetStatus(id, status) => StatusChangeConsistent(t, id, status);
      case _ =>
    }
  }

  /**
   Over every run, whatever the clock: the c-th occurrence is that of the c-th violation recorded,
   and the row it points to has that violation's key. No update ever moves a row to another key.
   */
  lemma {:induction false} OccurrencesKeepKeys(events: seq<Event>)
    ensures Consistent(Run(NoTables(), events)) && KeyedBy(Run(NoTables(), events), KeysIn(events))
    decreases |events|
  {
    if events != [] {
      var front, last := events[..|events| - 1], events[|events| - 1];
      OccurrencesKeepKeys(front);
      var t := Run(NoTables(), front);
      StepConsistent(t, last);
      match last {
        case Evaluation(vs, a, tenant, at) =>
          RecordedIffDistinct(t, vs, a, InForceFor(t, tenant, a, at));
          RecordFromKeyed(t, vs, a, InForceFor(t, tenant, a, at), KeysIn(front));
        case SetStatus(id, status) => StatusChangeKeyed(t, id, status, KeysIn(front));
        case _ =>
      }
    }
  }

  // ----- first and last seen -----

  /** The readings of a row's occurrences, in the order in which they were written. */
  function TimesOf(occurrences: seq<Occurrence>, id: Id): seq<Instant> {
    if occurrences == [] then []
    else
      var front, last := TimesOf(occurrences[..|occurrences| - 1], id), occurrences[|occurrences| - 1];
      if last.violationId == id then front + [last.occurredAt] else front
  }

  lemma OneMoreTime(occurrences: seq<Occurrence>, last: Occurrence, id: Id)
    ensures TimesOf(occurrences + [last], id) ==
            TimesOf(occurrences, id) + if last.violationId == id then [last.occurredAt] else []
  {
    assert (occurrences + [last])[..|occurrences|] == occurrences;
  }

  lemma {:induction false} NoTimes(occurrences: seq<Occurrence>, id: Id)
    requires forall c :: 0 <= c < |occurrences| ==> occurrences[c].violationId != id
    ensures TimesOf(occurrences, id) == []
  {
    if occurrences != [] {
      NoTimes(occurrences[..|occurrences| - 1], id);
    }
  }

  /** First and last seen are the readings of the first and the last occurrence. */
  ghost predicate Timed(row: Row, occurrences: seq<Occurrence>) {
    var times := TimesOf(occurrences, row.id);
    times != [] && row.firstSeenAt == times[0] && row.lastSeenAt == times[|times| - 1]
  }

  ghost predicate AllTimed(t: Tables) { forall i :: 0 <= i < |t.rows| ==> Timed(t.rows[i], t.occurrences) }

  lemma NewRowHasNoTimes(t: Tables)
    requires Consistent(t)
    ensures TimesOf(t.occurrences, t.nextId) == []
  {
    forall c | 0 <= c < |t.occurrences| ensures t.occurrences[c].violationId != t.nextId {
      assert HasRow(t.rows, t.occurrences[c].violationId);
    }
    NoTimes(t.occurrences, t.nextId);
  }

  lemma WrittenRowTimed(t: Tables, t': Tables, v: Collected, a: Artifact, suppression: Option<Suppression>, k: nat)
    requires Consistent(t) && AllTimed(t) && WrittenAt(t, t', v, a, suppression, k)
    ensures Timed(t'.rows[k], t'.occurrences)
  {
    OneMoreTime(t.occurrences, t'.occurrences[|t.occurrences|], t'.rows[k].id);
    if k < |t.rows| {
      assert Timed(t.rows[k], t.occurrences);
    } else {
      NewRowHasNoTimes(t);
    }
  }

  lemma OtherRowTimed(t: Tables, t': Tables, v: Collected, a: Artifact, suppression: Option<Suppression>, k: nat,
                      i: nat)
    requires AllTimed(t) && WrittenAt(t, t', v, a, suppression, k)
    requires i < |t.rows| && t.rows[i].id != t'.rows[k].id && t'.rows[i] == t.rows[i]
    ensures Timed(t'.rows[i], t'.occurrences)
  {
    OneMoreTime(t.occurrences, t'.occurrences[|t.occurrences|], t.rows[i].id);
    assert Timed(t.rows[i], t.occurrences);
  }

  lemma RecordOneTimed(t: Tables, v: Collected, a: Artifact, suppressed: seq<Suppression>)
    requires Consistent(t) && AllTimed(t)
    ensures AllTimed(RecordOne(t, v, a, suppressed))
  {
    var k := RecordOneWrites(t, v, a, suppressed);
    var t' := RecordOne(t, v, a, suppressed);
    forall i | 0 <= i < |t'.rows| ensures Timed(t'.rows[i], t'.occurrences) {
      if i == k {
        WrittenRowTimed(t, t', v, a, MatchingSuppression(suppressed, v), k);
      } else {
        OtherRowTimed(t, t', v, a, MatchingSuppression(suppressed, v), k, i);
      }
    }
  }

  lemma {:induction false} RecordFromTimed(t: Tables, vs: seq<Collected>, a: Artifact, suppressed: seq<Suppression>)
    requires Consistent(t) && AllTimed(t)
    ensures AllTimed(RecordFrom(t, vs, a, suppressed))
    decreases |vs|
  {
    if vs != [] {
      var front := vs[..|vs| - 1];
      RecordFromTimed(t, front, a, suppressed);
      RecordFromConsistent(t, front, a, suppressed);
      RecordOneTimed(RecordFrom(t, front, a, suppressed), vs[|vs| - 1], a, suppressed);
    }
  }

  lemma StatusChangeTimed(t: Tables, id: Id, status: Status)
    requires AllTimed(t)
    ensures AllTimed(ChangeStatus(t, id, status))
  {
    var rows := UpdateWhere(t.rows, id, (r: Row) => r.(status := status));
    forall i | 0 <= i < |rows| ensures Timed(rows[i], t.occurrences) {
      assert Timed(t.rows[i], t.occurrences);
    }
  }

  /**
   Over every run, whatever the clock: a row was first seen at the reading of its first occurrence
   and last seen at that of its last.
   */
  lemma {:induction false} SeenAtOccurrences(events: seq<Event>)
    ensures AllTimed(Run(NoTables(), events))
    decreases |events|
  {
    if events != [] {
      var front, last := events[..|events| - 1], events[|events| - 1];
      RunsStayConsistent(front);
      SeenAtOccurrences(front);
      var t := Run(NoTables(), front);
      match last {
        case Evaluation(vs, a, tenant, at) =>
          RecordedIffDistinct(t, vs, a, InForceFor(t, tenant, a, at));
          RecordFromTimed(t, vs, a, InForceFor(t, tenant, a, at));
        case SetStatus(id, status) => StatusChangeTimed(t, id, status);
        case _ =>
      }
    }
  }

  /** So it was first seen no later than last seen exactly if those two readings are in order. */
  lemma SeenInOrderIff(events: seq<Event>, i: nat)
    requires i < |Run(NoTables(), events).rows|
    ensures var t := Run(NoTables(), events);
            var times := TimesOf(t.occurrences, t.rows[i].id);
            && times != []
            && (t.rows[i].firstSeenAt <= t.rows[i].lastSeenAt <==> times[0] <= times[|times| - 1])
  {
    SeenAtOccurrences(events);
    assert Timed(Run(NoTables(), events).rows[i], Run(NoTables(), events).occurrences);
  }

  /** The readings of the violations that a run's recorded evaluations collect, in order. */
  function ReadingsIn(events: seq<Event>): seq<Instant> {
    if events == [] then []
    else
      var last := events[|events| - 1];
      ReadingsIn(events[..|events| - 1]) + if Commits(last) then Map(last.violations, ReadingOf) else []
  }

  function ReadingOf(v: Collected): Instant { v.evaluatedAt }

  function OccurredAt(o: Occurrence): Instant { o.occurredAt }

  lemma {:induction false} RecordFromReads(t: Tables, vs: seq<Collected>, a: Artifact, suppressed: seq<Suppression>)
    requires Consistent(t)
    ensures Map(RecordFrom(t, vs, a, suppressed).occurrences, OccurredAt) ==
            Map(t.occurrences, OccurredAt) + Map(vs, ReadingOf)
    decreases |vs|
  {
    if vs == [] {
      assert Map(t.occurrences, OccurredAt) + [] == Map(t.occurrences, OccurredAt);
    } else {
      var front, last := vs[..|vs| - 1], vs[|vs| - 1];
      RecordFromReads(t, front, a, suppressed);
      RecordFromConsistent(t, front, a, suppressed);
      RecordOneReads(RecordFrom(t, front, a, suppressed), last, a, suppressed);
      MapOneMore(front, last, ReadingOf);
      assert vs == front + [last];
    }
  }

  lemma RecordOneReads(t: Tables, v: Collected, a: Artifact, suppressed: seq<Suppression>)
    requires Consistent(t)
    ensures Map(RecordOne(t, v, a, suppressed).occurrences, OccurredAt) ==
            Map(t.occurrences, OccurredAt) + [v.evaluatedAt]
  {
    var k := RecordOneWrites(t, v, a, suppressed);
  }

  /** The c-th occurrence carries the c-th reading. */
  lemma {:induction false} OccurrencesCarryReadings(events: seq<Event>)
    ensures Map(Run(NoTables(), events).occurrences, OccurredAt) == ReadingsIn(events)
    decreases |events|
  {
    if events != [] {
      var front, last := events[..|events| - 1], events[|events| - 1];
      RunsStayConsistent(front);
      OccurrencesCarryReadings(front);
      if last.Evaluation? {
        var t := Run(NoTables(), front);
        RecordedIffDistinct(t, last.violations, last.artifact, InForceFor(t, last.tenant, last.artifact, last.at));
        RecordFromReads(t, last.violations, last.artifact, InForceFor(t, last.tenant, last.artifact, last.at));
      }
    }
  }

  ghost predicate Ascending(times: seq<Instant>) { forall i, j :: 0 <= i < j < |times| ==> times[i] <= times[j] }

  lemma {:induction false} TimesAscend(occurrences: seq<Occurrence>, id: Id, now: Instant)
    requires Ascending(Map(occurrences, OccurredAt))
    requires forall c :: 0 <= c < |occurrences| ==> occurrences[c].occurredAt <= now
    ensures Ascending(TimesOf(occurrences, id)) && forall x :: x in TimesOf(occurrences, id) ==> x <= now
    decreases |occurrences|
  {
    if occurrences != [] {
      var front, last := occurrences[..|occurrences| - 1], occurrences[|occurrences| - 1];
      var all := Map(occurrences, OccurredAt);
      forall c | 0 <= c < |front| ensures front[c].occurredAt <= last.occurredAt {
        assert all[c] <= all[|front|];
      }
      assert Map(front, OccurredAt) == all[..|front|];
      TimesAscend(front, id, last.occurredAt);
      var times := TimesOf(front, id);
      assert forall i :: 0 <= i < |times| ==> times[i] in times;
    }
  }

  /** Where the recorded readings are written in order, every row was first seen no later than last seen. */
  lemma OrderedReadingsOrderRows(events: seq<Event>, now: Instant)
    requires Ascending(ReadingsIn(events)) && forall x :: x in ReadingsIn(events) ==> x <= now
    ensures SeenBy(Run(NoTables(), events), now)
  {
    var t := Run(NoTables(), events);
    OccurrencesCarryReadings(events);
    SeenAtOccurrences(events);
    forall c | 0 <= c < |t.occurrences| ensures t.occurrences[c].occurredAt <= now {
      assert ReadingsIn(events)[c] in ReadingsIn(events);
    }
    forall i | 0 <= i < |t.rows| ensures t.rows[i].firstSeenAt <= t.rows[i].lastSeenAt <= now {
      assert Timed(t.rows[i], t.occurrences);
      TimesAscend(t.occurrences, t.rows[i].id, now);
      var times := TimesOf(t.occurrences, t.rows[i].id);
      assert times[|times| - 1] in times;
    }
  }

  lemma SingleEvaluation(t: Tables, v: Collected, a: Artifact, tenant: Id, at: Instant) returns (k: nat)
    requires Consistent(t)
    ensures var suppressed := InForceFor(t, tenant, a, at);
            WrittenAt(t, RecordEvaluation(t, [v], a, tenant, at), v, a, MatchingSuppression(suppressed, v), k)
    ensures k == |t.rows| <==> forall i :: 0 <= i < |t.rows| && IsActive(t.rows[i]) ==> KeyOf(t.rows[i]) != KeyFor(v, a)
    ensures Consistent(RecordEvaluation(t, [v], a, tenant, at))
  {
    var suppressed := InForceFor(t, tenant, a, at);
    RecordedIffDistinct(t, [v], a, suppressed);
    RecordFromConsistent(t, [v], a, suppressed);
    assert [v][..0] == [];
    k := RecordOneWrites(t, v, a, suppressed);
  }

  /** Readings precede transactions: an earlier one, written second, leaves a row last seen before first seen. */
  lemma LateWriterDisorders(v: Collected, a: Artifact, tenant: Id, early: Instant, late: Instant)
    requires early < late
    ensures
      var first := Evaluation([v.(evaluatedAt := late)], a, tenant, late);
      var second := Evaluation([v.(evaluatedAt := early)], a, tenant, early);
      var t := Run(NoTables(), [first, second]);
      |t.rows| == 1 && t.rows[0].lastSeenAt == early < late == t.rows[0].firstSeenAt
  {
    var first := Evaluation([v.(evaluatedAt := late)], a, tenant, late);
    var second := Evaluation([v.(evaluatedAt := early)], a, tenant, early);
    assert [first][..0] == [] && [first, second][..1] == [first];
    var t := RecordEvaluation(NoTables(), [v.(evaluatedAt := late)], a, tenant, late);
    assert Run(NoTables(), [first]) == t;
    var i := SingleEvaluation(NoTables(), v.(evaluatedAt := late), a, tenant, late);
    var k := SingleEvaluation(t, v.(evaluatedAt := early), a, tenant, early);
    assert IsActive(t.rows[0]) && k == 0;
  }

  /** Nothing an evaluation does touches a resolved row: a recurrence opens a new one. */
  lemma {:induction false} ResolvedRowsStay(t: Tables, vs: seq<Collected>, a: Artifact, suppressed: seq<Suppression>,
                                            i: nat)
    requires Consistent(t) && i < |t.rows| && !IsActive(t.rows[i])
    ensures i < |RecordFrom(t, vs, a, suppressed).rows| && RecordFrom(t, vs, a, suppressed).rows[i] == t.rows[i]
  {
    if vs != [] {
      var front := vs[..|vs| - 1];
      ResolvedRowsStay(t, front, a, suppressed, i);
      RecordFromConsistent(t, front, a, suppressed);
      var k := RecordOneWrites(RecordFrom(t, front, a, suppressed), vs[|vs| - 1], a, suppressed);
    }
  }

  /** The tables as the transaction updates them. */
  class ViolationStore {
    var rows: seq<Row>
    var occurrences: seq<Occurrence>
    var suppressions: seq<Suppression>
    var nextId: Id

    function State(): Tables
      reads this
    {
      Tables(rows, occurrences, suppressions, nextId)
    }

    constructor ()
      ensures State() == NoTables()
    {
      rows, occurrences, suppressions, nextId := [], [], [], 0;
    }

    /** The loop over the collected violations; a refused insert leaves everything as it was. */
    method Record(vs: seq<Collected>, a: Artifact, tenant: Id, at: Instant) returns (recorded: bool)
      modifies this
      ensures State() == RecordEvaluation(old(State()), vs, a, tenant, at)
      ensures recorded == RecordAll(old(State()), vs, a, InForceFor(old(State()), tenant, a, at)).Some?
    {
      var before := State();
      var suppressed := InForceFor(before, tenant, a, at);
      for n := 0 to |vs|
        invariant RecordAll(before, vs[..n], a, suppressed) == Some(State())
      {
        var refused := Refused(State(), |before.occurrences|, vs[n], a);
        RecordAllOneMore(before, vs, n, a, suppressed);
        if refused {
          RefusalStays(before, vs, n + 1, a, suppressed);
          RollBack(before);
          return false;
        }
        RecordViolation(vs[n], a, suppressed);
      }
      assert vs[..|vs|] == vs;
      return true;
    }

    method RollBack(before: Tables)
      modifies this
      ensures State() == before
    {
      rows, occurrences, suppressions, nextId := before.rows, before.occurrences, before.suppressions, before.nextId;
    }

    /** The body of the loop, when the index has no objection. */
    method RecordViolation(v: Collected, a: Artifact, suppressed: seq<Suppression>)
      modifies this
      ensures State() == RecordOne(old(State()), v, a, suppressed)
    {
      var suppression := MatchingSuppression(suppressed, v);
      var status := if suppression.Some? then Suppressed else Open;
      var active := ActiveRow(rows, KeyFor(v, a));
      var violationId := nextId;
      if active.Some? {
        violationId := active.value.id;
        rows := UpdateWhere(rows, violationId, (r: Row) => Refreshed(r, v, a, status));
      } else {
        rows := rows + [Created(nextId, v, a, status)];
        nextId := nextId + 1;
      }
      occurrences := occurrences
          + [Occurrence(violationId, v.evaluationId, status, SuppressionId(suppression), v.evaluatedAt)];
    }
  }

  lemma RecordAllOneMore(t: Tables, vs: seq<Collected>, n: nat, a: Artifact, suppressed: seq<Suppression>)
    requires n < |vs| && RecordAll(t, vs[..n], a, suppressed).Some?
    ensures RecordAll(t, vs[..n + 1], a, suppressed) ==
            RecordNext(RecordAll(t, vs[..n], a, suppressed).value, |t.occurrences|, vs[n], a, suppressed)
  {
    assert vs[..n + 1][..n] == vs[..n];
  }

  lemma {:induction false} RefusalStays(t: Tables, vs: seq<Collected>, n: nat, a: Artifact,
                                        suppressed: seq<Suppression>)
    requires n <= |vs| && RecordAll(t, vs[..n], a, suppressed).None?
    ensures RecordAll(t, vs, a, suppressed).None?
    decreases |vs|
  {
    if n < |vs| {
      var front := vs[..|vs| - 1];
      assert front[..n] == vs[..n];
      RefusalStays(t, front, n, a, suppressed);
    } else {
      assert vs[..n] == vs;
    }
  }
}
