/** Loading and resolving the policies of a project: services/api/src/policy/effective.ts. */
module Effective {
  import opened Common
  import opened Sorting
  import opened Expression
  import opened PolicyData

  datatype Source = Global | Project | Assigned

  datatype EffectivePolicy = EffectivePolicy(policy: Policy, source: Source, binding: Option<ProjectBinding>)

  datatype JoinedRow = JoinedRow(bindingId: Id, policyId: Id, enabled: bool, orderIndex: int, rule: Rule)

  datatype ResolvedRule = ResolvedRule(
    id: Id,
    ruleKey: Id,
    policyId: Id,
    policyRuleBindingId: Id,
    policyProjectBindingId: Option<Id>,
    policyName: string,
    name: string,
    condition: Json,
    action: Action,
    effectiveEnforcementMode: string,
    orderIndex: int,
    policyPriority: int)

  datatype ResolvedPolicy = ResolvedPolicy(
    id: Id,
    policyKey: Id,
    name: string,
    scope: string,
    enforcementMode: string,
    priority: int,
    source: Source,
    policyProjectBindingId: Option<Id>,
    rules: seq<ResolvedRule>)

  datatype Snapshot = Snapshot(policies: seq<ResolvedPolicy>, allRules: seq<ResolvedRule>)

  const ENFORCING := "enforcing"
  const ADVISORY := "advisory"
  const DISABLED := "disabled"

  /** resolveEnforcementMode */
  function ResolveEnforcementMode(base: string, override: Option<string>): string {
    if override.None? || override.value == "" then base
    else if base == ENFORCING && override.value == ADVISORY then ADVISORY
    else if override.value == DISABLED then DISABLED
    else base
  }

  /** The override makes every rule of the policy non-enforcing. */
  predicate SoftensMode(override: Option<string>) {
    override == Some(ADVISORY) || override == Some(DISABLED)
  }

  /** An assignment may soften but never harden. */
  lemma ModeOnlySoftens(base: string, override: Option<string>)
    ensures ResolveEnforcementMode(base, override) == ENFORCING <==> base == ENFORCING && !SoftensMode(override)
  {
  }

  predicate IsCurrentPolicy(p: Policy, tenant: Id, at: Instant) {
    p.tenantId == tenant && p.status == "active" && InForce(p.effectiveFrom, p.effectiveTo, at)
  }

  predicate IsGlobalPolicy(p: Policy, tenant: Id, at: Instant) {
    IsCurrentPolicy(p, tenant, at) && p.scope == "global" && p.projectId == None
  }

  predicate IsProjectPolicy(p: Policy, tenant: Id, project: Id, at: Instant) {
    IsCurrentPolicy(p, tenant, at) && p.scope == "project" && p.projectId == Some(project)
  }

  function PolicyPriority(): (Policy, Policy) -> bool {
    (x: Policy, y: Policy) => x.priority <= y.priority
  }

  function EntryPriority(): (EffectivePolicy, EffectivePolicy) -> bool {
    (x: EffectivePolicy, y: EffectivePolicy) => x.policy.priority <= y.policy.priority
  }

  function RowOrder(): (JoinedRow, JoinedRow) -> bool {
    (x: JoinedRow, y: JoinedRow) => x.orderIndex <= y.orderIndex
  }

  function RuleOrder(): (ResolvedRule, ResolvedRule) -> bool {
    (x: ResolvedRule, y: ResolvedRule) =>
      if x.policyPriority != y.policyPriority then x.policyPriority < y.policyPriority else x.orderIndex <= y.orderIndex
  }

  function IsGlobalAt(tenant: Id, at: Instant): Policy -> bool { (p: Policy) => IsGlobalPolicy(p, tenant, at) }

  function IsProjectAt(tenant: Id, project: Id, at: Instant): Policy -> bool {
    (p: Policy) => IsProjectPolicy(p, tenant, project, at)
  }

  function GlobalPolicies(db: Database, tenant: Id, at: Instant): seq<Policy> {
    StableSort(Filter(db.policies, IsGlobalAt(tenant, at)), PolicyPriority())
  }

  function ProjectPolicies(db: Database, tenant: Id, project: Id, at: Instant): seq<Policy> {
    StableSort(Filter(db.policies, IsProjectAt(tenant, project, at)), PolicyPriority())
  }

  /** new Map(rows): a later row replaces an earlier one with the same key. */
  function ByPolicyKey(rows: seq<ProjectBinding>): map<Id, ProjectBinding> {
    if rows == [] then map[]
    else var last := rows[|rows| - 1]; ByPolicyKey(rows[..|rows| - 1])[last.policyKey := last]
  }

  function CurrentBindings(db: Database, tenant: Id, project: Id, at: Instant): map<Id, ProjectBinding> {
    ByPolicyKey(Filter(db.projectBindings, (b: ProjectBinding) =>
      b.tenantId == tenant && b.projectId == project && InForce(b.effectiveFrom, b.effectiveTo, at)))
  }

  predicate OptsOut(b: ProjectBinding) { !b.enabled || b.inheritanceMode == "disabled" }

  function GlobalEntry(bindings: map<Id, ProjectBinding>): Policy -> seq<EffectivePolicy> {
    (p: Policy) =>
      if p.policyKey in bindings then
        var b := bindings[p.policyKey];
        if OptsOut(b) then [] else [EffectivePolicy(p, Assigned, Some(b))]
      else [EffectivePolicy(p, Global, None)]
  }

  function ProjectEntry(p: Policy): EffectivePolicy { EffectivePolicy(p, Project, None) }

  /** The applicable policies, given the current bindings by policy key. */
  function Entries(db: Database, bindings: map<Id, ProjectBinding>, tenant: Id, project: Id, at: Instant)
      : seq<EffectivePolicy> {
    StableSort(
      FlatMap(GlobalPolicies(db, tenant, at), GlobalEntry(bindings))
        + Map(ProjectPolicies(db, tenant, project, at), ProjectEntry),
      EntryPriority())
  }

  function Join(db: Database): RuleBinding -> seq<JoinedRow> {
    (rb: RuleBinding) =>
      if rb.ruleId in db.rules
      then [JoinedRow(rb.id, rb.policyId, rb.enabled, rb.orderIndex, db.rules[rb.ruleId])]
      else []
  }

  predicate IsLive(row: JoinedRow, at: Instant) {
    row.enabled && InForce(row.rule.effectiveFrom, row.rule.effectiveTo, at)
  }

  function Wanted(policyIds: seq<Id>, at: Instant): JoinedRow -> bool {
    (row: JoinedRow) => row.policyId in policyIds && IsLive(row, at)
  }

  function BindingRows(db: Database, policyIds: seq<Id>, at: Instant): seq<JoinedRow> {
    StableSort(Filter(FlatMap(db.ruleBindings, Join(db)), Wanted(policyIds, at)), RowOrder())
  }

  function OwnedBy(policyId: Id): JoinedRow -> bool { (row: JoinedRow) => row.policyId == policyId }

  function RowsOf(rows: seq<JoinedRow>, policyId: Id): seq<JoinedRow> {
    Filter(rows, OwnedBy(policyId))
  }

  /** getRuleOverride */
  function OverrideOf(binding: Option<ProjectBinding>, ruleKey: Id): Option<RuleOverride> {
    if binding.Some? && ruleKey in binding.value.ruleOverrides then Some(binding.value.ruleOverrides[ruleKey]) else None
  }

  function ModeOverride(binding: Option<ProjectBinding>): Option<string> {
    if binding.Some? then binding.value.enforcementModeOverride else None
  }

  predicate SwitchedOff(o: Option<RuleOverride>) { o.Some? && o.value.enabled == Some(false) }

  predicate ReplacesCondition(o: Option<RuleOverride>) {
    o.Some? && o.value.condition.Some? && o.value.condition.value.mode == Some("replace")
  }

  predicate MergesAction(o: Option<RuleOverride>) {
    o.Some? && o.value.action.Some? && o.value.action.value.mode == Some("merge")
  }

  function ResolvedCondition(o: Option<RuleOverride>, rule: Rule): Json {
    if ReplacesCondition(o) then o.value.condition.value.value else rule.condition
  }

  function ResolvedAction(o: Option<RuleOverride>, rule: Rule): Action {
    if MergesAction(o) then Merge(rule.action, o.value.action.value.patch) else rule.action
  }

  function ResolveRow(entry: EffectivePolicy, row: JoinedRow): ResolvedRule {
    var o := OverrideOf(entry.binding, row.rule.ruleKey);
    var action := ResolvedAction(o, row.rule);
    var base := if action.enforcementMode.Some? then action.enforcementMode.value else entry.policy.enforcementMode;
    ResolvedRule(
      row.rule.id, row.rule.ruleKey, entry.policy.id, row.bindingId,
      if entry.binding.Some? then Some(entry.binding.value.id) else None,
      entry.policy.name, row.rule.name, ResolvedCondition(o, row.rule), action,
      ResolveEnforcementMode(base, ModeOverride(entry.binding)), row.orderIndex, entry.policy.priority)
  }

  function ResolveRows(entry: EffectivePolicy): JoinedRow -> seq<ResolvedRule> {
    (row: JoinedRow) =>
      if SwitchedOff(OverrideOf(entry.binding, row.rule.ruleKey)) then [] else [ResolveRow(entry, row)]
  }

  function RulesOf(rows: seq<JoinedRow>): EffectivePolicy -> seq<ResolvedRule> {
    (entry: EffectivePolicy) => FlatMap(RowsOf(rows, entry.policy.id), ResolveRows(entry))
  }

  function ResolvePolicy(rows: seq<JoinedRow>): EffectivePolicy -> ResolvedPolicy {
    (entry: EffectivePolicy) =>
      ResolvedPolicy(
        entry.policy.id, entry.policy.policyKey, entry.policy.name, entry.policy.scope,
        ResolveEnforcementMode(entry.policy.enforcementMode, ModeOverride(entry.binding)),
        entry.policy.priority, entry.source,
        if entry.binding.Some? then Some(entry.binding.value.id) else None,
        RulesOf(rows)(entry))
  }

  function PolicyIds(entries: seq<EffectivePolicy>): seq<Id> { Map(entries, (e: EffectivePolicy) => e.policy.id) }

  function SnapshotOf(db: Database, entries: seq<EffectivePolicy>, at: Instant): Snapshot {
    var rows := BindingRows(db, PolicyIds(entries), at);
    Snapshot(Map(entries, ResolvePolicy(rows)), StableSort(FlatMap(entries, RulesOf(rows)), RuleOrder()))
  }

  /** The snapshot that the loader below computes. */
  function EffectiveSnapshot(db: Database, tenant: Id, project: Id, at: Instant): Snapshot {
    SnapshotOf(db, Entries(db, CurrentBindings(db, tenant, project, at), tenant, project, at), at)
  }

  // ----- the loader -----

  ghost predicate Grouped(byPolicy: map<Id, seq<JoinedRow>>, rows: seq<JoinedRow>) {
    forall p :: RowsOf(rows, p) == if p in byPolicy then byPolicy[p] else []
  }

  lemma GroupedOneMore(byPolicy: map<Id, seq<JoinedRow>>, rows: seq<JoinedRow>, row: JoinedRow)
    requires Grouped(byPolicy, rows)
    ensures var list := if row.policyId in byPolicy then byPolicy[row.policyId] else [];
            Grouped(byPolicy[row.policyId := list + [row]], rows + [row])
  {
    var list := if row.policyId in byPolicy then byPolicy[row.policyId] else [];
    var next := byPolicy[row.policyId := list + [row]];
    forall p ensures RowsOf(rows + [row], p) == if p in next then next[p] else [] {
      FilterAppend(rows, [row], OwnedBy(p));
      assert RowsOf(rows, p) == if p in byPolicy then byPolicy[p] else [];
    }
  }

  /** The grouping loop. */
  method GroupByPolicy(rows: seq<JoinedRow>) returns (byPolicy: map<Id, seq<JoinedRow>>)
    ensures Grouped(byPolicy, rows)
  {
    byPolicy := map[];
    for i := 0 to |rows|
      invariant Grouped(byPolicy, rows[..i])
    {
      GroupedOneMore(byPolicy, rows[..i], rows[i]);
      assert rows[..i] + [rows[i]] == rows[..i + 1];
      var list := if rows[i].policyId in byPolicy then byPolicy[rows[i].policyId] else [];
      byPolicy := byPolicy[rows[i].policyId := list + [rows[i]]];
    }
    assert rows[..|rows|] == rows;
  }

  /** The policies and the unsorted rule list for the entries handled so far. */
  ghost predicate Resolved(policies: seq<ResolvedPolicy>, rules: seq<ResolvedRule>, entries: seq<EffectivePolicy>,
                           rows: seq<JoinedRow>) {
    policies == Map(entries, ResolvePolicy(rows)) && rules == FlatMap(entries, RulesOf(rows))
  }

  lemma ResolvedOneMore(policies: seq<ResolvedPolicy>, rules: seq<ResolvedRule>, entries: seq<EffectivePolicy>,
                        rows: seq<JoinedRow>, i: nat)
    requires i < |entries| && Resolved(policies, rules, entries[..i], rows)
    ensures Resolved(policies + [ResolvePolicy(rows)(entries[i])], rules + RulesOf(rows)(entries[i]),
                     entries[..i + 1], rows)
  {
    var entry := entries[i];
    FlatMapAppend(entries[..i], [entry], RulesOf(rows));
    assert FlatMap([entry], RulesOf(rows)) == RulesOf(rows)(entry) + FlatMap([], RulesOf(rows));
    assert entries[..i + 1] == entries[..i] + [entry];
  }

  /** The loop over the applicable policies. */
  method ResolveAll(entries: seq<EffectivePolicy>, ghost rows: seq<JoinedRow>, byPolicy: map<Id, seq<JoinedRow>>)
    returns (policies: seq<ResolvedPolicy>, allRules: seq<ResolvedRule>)
    requires Grouped(byPolicy, rows)
    ensures Resolved(policies, allRules, entries, rows)
  {
    policies, allRules := [], [];
    for i := 0 to |entries|
      invariant Resolved(policies, allRules, entries[..i], rows)
    {
      var entry := entries[i];
      var policyRules := if entry.policy.id in byPolicy then byPolicy[entry.policy.id] else [];
      assert policyRules == RowsOf(rows, entry.policy.id);
      var resolved := FlatMap(policyRules, ResolveRows(entry));
      var policy := ResolvedPolicy(
        entry.policy.id, entry.policy.policyKey, entry.policy.name, entry.policy.scope,
        ResolveEnforcementMode(entry.policy.enforcementMode, ModeOverride(entry.binding)),
        entry.policy.priority, entry.source,
        if entry.binding.Some? then Some(entry.binding.value.id) else None,
        resolved);
      assert resolved == RulesOf(rows)(entry) && policy == ResolvePolicy(rows)(entry);
      ResolvedOneMore(policies, allRules, entries, rows, i);
      policies := policies + [policy];
      allRules := allRules + resolved;
    }
    assert entries[..|entries|] == entries;
  }

  /** loadEffectivePolicy, from the rows the queries return. */
  method LoadEffectivePolicy(db: Database, tenant: Id, project: Id, at: Instant) returns (snapshot: Snapshot)
    ensures snapshot == EffectiveSnapshot(db, tenant, project, at)
  {
    var entries := Entries(db, CurrentBindings(db, tenant, project, at), tenant, project, at);
    if |entries| == 0 {
      return Snapshot([], []);
    }
    var rows := BindingRows(db, PolicyIds(entries), at);
    var byPolicy := GroupByPolicy(rows);
    var policies, allRules := ResolveAll(entries, rows, byPolicy);
    snapshot := Snapshot(policies, StableSort(allRules, RuleOrder()));
  }
}
