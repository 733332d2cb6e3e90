/** The policy tables: services/api/src/db/schema/policies.ts. UUIDs are numbers; instants are integers. */
module PolicyData {
  import opened Common
  import opened Expression

  type Id = nat
  type Instant = int

  /** The end of an effective window. */
  datatype Until = Forever | At(t: Instant)

  /** lte(effective_from, at) and gt(effective_to, at) */
  predicate InForce(start: Instant, end: Until, at: Instant) {
    start <= at && (end.Forever? || end.t > at)
  }

  /** A rule's action; None stands for a missing or null property. */
  datatype Action = Action(
    kind: Option<string>,
    severity: Option<string>,
    code: Option<string>,
    messageTemplate: Option<string>,
    recommendedRemediation: Option<string>,
    enforcementMode: Option<string>)

  /** The properties a merge writes: Some(None) writes null over the rule's own value. */
  datatype ActionPatch = ActionPatch(
    kind: Option<Option<string>>,
    severity: Option<Option<string>>,
    code: Option<Option<string>>,
    messageTemplate: Option<Option<string>>,
    recommendedRemediation: Option<Option<string>>,
    enforcementMode: Option<Option<string>>)

  function Patched(own: Option<string>, patch: Option<Option<string>>): Option<string> {
    if patch.Some? then patch.value else own
  }

  /** { ...action, ...patch } */
  function Merge(a: Action, p: ActionPatch): Action {
    Action(Patched(a.kind, p.kind), Patched(a.severity, p.severity), Patched(a.code, p.code),
           Patched(a.messageTemplate, p.messageTemplate),
           Patched(a.recommendedRemediation, p.recommendedRemediation),
           Patched(a.enforcementMode, p.enforcementMode))
  }

  datatype ConditionOverride = ConditionOverride(mode: Option<string>, value: Json)
  datatype ActionOverride = ActionOverride(mode: Option<string>, patch: ActionPatch)
  datatype RuleOverride = RuleOverride(
    enabled: Option<bool>,
    condition: Option<ConditionOverride>,
    action: Option<ActionOverride>)

  datatype Policy = Policy(
    id: Id,
    policyKey: Id,
    tenantId: Id,
    projectId: Option<Id>,
    name: string,
    scope: string,
    status: string,
    enforcementMode: string,
    priority: int,
    effectiveFrom: Instant,
    effectiveTo: Until)

  datatype ProjectBinding = ProjectBinding(
    id: Id,
    policyKey: Id,
    projectId: Id,
    tenantId: Id,
    enabled: bool,
    inheritanceMode: string,
    ruleOverrides: map<Id, RuleOverride>,
    enforcementModeOverride: Option<string>,
    effectiveFrom: Instant,
    effectiveTo: Until)

  datatype Rule = Rule(
    id: Id,
    ruleKey: Id,
    tenantId: Id,
    name: string,
    condition: Json,
    action: Action,
    effectiveFrom: Instant,
    effectiveTo: Until)

  datatype RuleBinding = RuleBinding(
    id: Id,
    tenantId: Id,
    policyId: Id,
    ruleId: Id,
    enabled: bool,
    required: bool,
    orderIndex: int)

  /** The tables, each in storage order. Rules are looked up by primary key. */
  datatype Database = Database(
    policies: seq<Policy>,
    projectBindings: seq<ProjectBinding>,
    rules: map<Id, Rule>,
    ruleBindings: seq<RuleBinding>)

  /** Primary keys are primary keys. */
  ghost predicate WellKeyed(db: Database) {
    && (forall i, j :: 0 <= i < j < |db.policies| ==> db.policies[i].id != db.policies[j].id)
    && (forall i, j :: 0 <= i < j < |db.ruleBindings| ==> db.ruleBindings[i].id != db.ruleBindings[j].id)
    && (forall id :: id in db.rules ==> db.rules[id].id == id)
  }
}
