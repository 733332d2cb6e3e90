/** What handleCheck hands to the violation table: services/api/src/connect/check-service.ts. */
module Recording {
  import opened Common
  import opened Expression
  import opened PolicyData
  import opened Effective
  import opened Resolution
  import opened Decision
  import opened Audit
  import Table = ViolationTable

  /** One evaluation: whose it is, its id, and the clock reading of each violation. */
  datatype Context = Context(tenant: Id, project: Id, evaluationId: Id)

  function ToCollected(v: Violation, c: Context, at: Instant): Table.Collected {
    Table.Collected(
      c.tenant, c.project, "artifact", Some(v.policyId), Some(v.ruleId), Some(v.ruleKey),
      Some(v.policyRuleBindingId), v.policyProjectBindingId, v.enforcementMode, v.code, v.severity,
      v.message, v.recommendedRemediation, v.blocked, c.evaluationId, at)
  }

  function CollectedFrom(violations: seq<Violation>, c: Context, times: seq<Instant>): seq<Table.Collected>
    requires |times| == |violations|
  {
    seq(|violations|, i requires 0 <= i < |violations| => ToCollected(violations[i], c, times[i]))
  }

  function BindingOf(r: ResolvedRule): Id { r.policyRuleBindingId }

  ghost predicate DistinctViolations(violations: seq<Violation>) {
    forall i, j :: 0 <= i < j < |violations| ==> violations[i].policyRuleBindingId != violations[j].policyRuleBindingId
  }

  lemma ViolationsDistinct(rules: seq<ResolvedRule>, fields: Fields, engine: Engine)
    requires DistinctBindings(rules)
    ensures DistinctViolations(Map(Filter(rules, Reports(engine, fields)), ToViolation(engine, fields)))
  {
    FilterKeepsDistinct(rules, BindingOf, Reports(engine, fields));
  }

  lemma KeysDistinct(violations: seq<Violation>, c: Context, times: seq<Instant>, a: Table.Artifact)
    requires DistinctViolations(violations) && |times| == |violations|
    ensures Table.DistinctKeys(CollectedFrom(violations, c, times), a)
  {
  }

  /** No two violations of one decision have the same key: they come from different rule bindings. */
  lemma DecisionsHaveDistinctKeys(db: Database, tenant: Id, project: Id, at: Instant, fields: Fields, ttl: int,
                                  serveMode: ServeMode, engine: Engine, c: Context, times: seq<Instant>,
                                  a: Table.Artifact)
    requires WellKeyed(db)
    requires |times| == |Decide(EffectiveSnapshot(db, tenant, project, at).allRules, fields, ttl, serveMode,
                                engine).violations|
    ensures
      var d := Decide(EffectiveSnapshot(db, tenant, project, at).allRules, fields, ttl, serveMode, engine);
      Table.DistinctKeys(CollectedFrom(d.violations, c, times), a)
  {
    var rules := EffectiveSnapshot(db, tenant, project, at).allRules;
    BindingIdsDistinct(db, tenant, project, at);
    ViolationsDistinct(rules, fields, engine);
    DecidedViolations(rules, fields, ttl, serveMode, engine);
    KeysDistinct(Decide(rules, fields, ttl, serveMode, engine).violations, c, times, a);
  }

  /**
   Any decision can be recorded in any consistent tables: no insert is refused, and each violation has
   one new occurrence, which points to the row with the violation's key and carries that row's status.
   */
  lemma DecisionsAreRecorded(db: Database, tenant: Id, project: Id, at: Instant, fields: Fields, ttl: int,
                             serveMode: ServeMode, engine: Engine, c: Context, times: seq<Instant>, a: Table.Artifact,
                             t: Table.Tables, suppressed: seq<Table.Suppression>)
    requires WellKeyed(db) && Table.Consistent(t)
    requires |times| == |Decide(EffectiveSnapshot(db, tenant, project, at).allRules, fields, ttl, serveMode,
                                engine).violations|
    ensures
      var d := Decide(EffectiveSnapshot(db, tenant, project, at).allRules, fields, ttl, serveMode, engine);
      var vs := CollectedFrom(d.violations, c, times);
      var recorded := Table.RecordAll(t, vs, a, suppressed);
      recorded.Some? && Table.PointHome(recorded.value, |t.occurrences|, vs, a, suppressed)
  {
    var d := Decide(EffectiveSnapshot(db, tenant, project, at).allRules, fields, ttl, serveMode, engine);
    var vs := CollectedFrom(d.violations, c, times);
    DecisionsHaveDistinctKeys(db, tenant, project, at, fields, ttl, serveMode, engine, c, times, a);
    Table.RecordedIffDistinct(t, vs, a, suppressed);
    Table.OccurrencesPointHome(t, vs, a, suppressed);
  }
}
