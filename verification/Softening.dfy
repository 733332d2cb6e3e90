/**
 A project binding customises an inherited policy. Two runs are compared: one under the project's
 bindings, one with some of those bindings taken away
 (services/api/src/policy/effective.ts, services/api/src/connect/check-service.ts).
 */
module Softening {
  import opened Common
  import opened Expression
  import opened PolicyData
  import opened Effective
  import opened Resolution
  import opened Decision

  function Bound(policy: Policy, b: ProjectBinding): EffectivePolicy { EffectivePolicy(policy, Assigned, Some(b)) }
  function Unbound(policy: Policy): EffectivePolicy { EffectivePolicy(policy, Global, None) }

  /**
   The binding does not make the rule of this row any stricter: it switches the rule off, or leaves
   it unable to block, or keeps its condition while the rule could already block.
   */
  predicate SoftOn(policy: Policy, b: ProjectBinding, row: JoinedRow) {
    var o := OverrideOf(Some(b), row.rule.ruleKey);
    || SwitchedOff(o)
    || !Enforces(ResolveRow(Bound(policy, b), row))
    || (!ReplacesCondition(o) && Enforces(ResolveRow(Unbound(policy), row)))
  }

  /** A binding without condition replacements and action merges is soft on every rule. */
  lemma PlainBindingIsSoft(policy: Policy, b: ProjectBinding, row: JoinedRow)
    requires !ReplacesCondition(OverrideOf(Some(b), row.rule.ruleKey))
    requires !MergesAction(OverrideOf(Some(b), row.rule.ruleKey))
    ensures SoftOn(policy, b, row)
  {
  }

  /** A binding that makes the policy advisory or disabled is soft whatever else it overrides. */
  lemma SofteningModeIsSoft(policy: Policy, b: ProjectBinding, row: JoinedRow)
    requires SoftensMode(b.enforcementModeOverride)
    ensures SoftOn(policy, b, row)
  {
    var r := ResolveRow(Bound(policy, b), row);
    var base := if r.action.enforcementMode.Some? then r.action.enforcementMode.value else policy.enforcementMode;
    ModeOnlySoftens(base, b.enforcementModeOverride);
  }

  // ----- one policy: exactly which bindings soften -----

  function Reconditioned(rows: seq<JoinedRow>, conditions: seq<Json>): seq<JoinedRow>
    requires |rows| == |conditions|
  {
    seq(|rows|, i requires 0 <= i < |rows| => rows[i].(rule := rows[i].rule.(condition := conditions[i])))
  }

  predicate BlocksUnder(entry: EffectivePolicy, rows: seq<JoinedRow>, fields: Fields, engine: Engine) {
    exists r :: r in FlatMap(rows, ResolveRows(entry)) && Blocks(engine, fields)(r)
  }

  /** With these conditions and fields, a block under the binding is a block without it. */
  predicate SoftensAt(policy: Policy, b: ProjectBinding, rows: seq<JoinedRow>, conditions: seq<Json>, fields: Fields,
                      engine: Engine)
    requires |rows| == |conditions|
  {
    var actual := Reconditioned(rows, conditions);
    BlocksUnder(Bound(policy, b), actual, fields, engine) ==> BlocksUnder(Unbound(policy), actual, fields, engine)
  }

  ghost predicate Softens(policy: Policy, b: ProjectBinding, rows: seq<JoinedRow>, engine: Engine) {
    forall conditions: seq<Json>, fields: Fields | |conditions| == |rows| ::
      SoftensAt(policy, b, rows, conditions, fields, engine)
  }

  function Always(): Json { JObj(Some(JArr([])), None, None, None, None, None) }
  function Never(): Json { JObj(None, Some(JArr([])), None, None, None, None) }

  lemma ResolvedMember(entry: EffectivePolicy, rows: seq<JoinedRow>, r: ResolvedRule)
    ensures r in FlatMap(rows, ResolveRows(entry)) <==>
            exists i :: 0 <= i < |rows| && !SwitchedOff(OverrideOf(entry.binding, rows[i].rule.ruleKey))
                && r == ResolveRow(entry, rows[i])
  {
    FlatMapMember(rows, ResolveRows(entry), r);
    if i :| 0 <= i < |rows| && r in ResolveRows(entry)(rows[i]) {
      assert r == ResolveRow(entry, rows[i]);
    }
    if i :| 0 <= i < |rows| && !SwitchedOff(OverrideOf(entry.binding, rows[i].rule.ruleKey))
                && r == ResolveRow(entry, rows[i]) {
      assert r in ResolveRows(entry)(rows[i]);
    }
  }

  /** Whether a rule can block does not depend on its condition. */
  lemma SoftnessIgnoresCondition(policy: Policy, b: ProjectBinding, row: JoinedRow, condition: Json)
    ensures var other := row.(rule := row.rule.(condition := condition));
            && Enforces(ResolveRow(Bound(policy, b), other)) == Enforces(ResolveRow(Bound(policy, b), row))
            && Enforces(ResolveRow(Unbound(policy), other)) == Enforces(ResolveRow(Unbound(policy), row))
            && (!ReplacesCondition(OverrideOf(Some(b), row.rule.ruleKey)) ==>
                ResolveRow(Bound(policy, b), other).condition == condition)
            && ResolveRow(Unbound(policy), other).condition == condition
  {
  }

  /** The condition that the binding puts in place of the rule's own matches on no field map. */
  ghost predicate ReplacementSilent(b: ProjectBinding, row: JoinedRow, engine: Engine) {
    var o := OverrideOf(Some(b), row.rule.ruleKey);
    && ReplacesCondition(o)
    && forall fields: Fields :: Evaluate(ResolvedCondition(o, row.rule), fields, engine.js) != Result(true)
  }

  /** Either the binding makes the rule no stricter, or it replaces its condition by one that never matches. */
  ghost predicate HarmlessOn(policy: Policy, b: ProjectBinding, row: JoinedRow, engine: Engine) {
    SoftOn(policy, b, row) || ReplacementSilent(b, row, engine)
  }

  /** A replacing condition stays, whatever the rule's own was. */
  lemma ReplacementStays(policy: Policy, b: ProjectBinding, row: JoinedRow, condition: Json)
    requires ReplacesCondition(OverrideOf(Some(b), row.rule.ruleKey))
    ensures var other := row.(rule := row.rule.(condition := condition));
            ResolveRow(Bound(policy, b), other).condition
                == ResolvedCondition(OverrideOf(Some(b), row.rule.ruleKey), row.rule)
  {
  }

  lemma SoftRowSoftens(policy: Policy, b: ProjectBinding, row: JoinedRow, condition: Json, fields: Fields,
                       engine: Engine)
    requires SoftOn(policy, b, row) && !SwitchedOff(OverrideOf(Some(b), row.rule.ruleKey))
    requires Blocks(engine, fields)(ResolveRow(Bound(policy, b), row.(rule := row.rule.(condition := condition))))
    ensures Blocks(engine, fields)(ResolveRow(Unbound(policy), row.(rule := row.rule.(condition := condition))))
  {
    var other := row.(rule := row.rule.(condition := condition));
    SoftnessIgnoresCondition(policy, b, row, condition);
    BlocksMeans(engine, fields, ResolveRow(Bound(policy, b), other));
    BlocksMeans(engine, fields, ResolveRow(Unbound(policy), other));
  }

  lemma SilentRowNeverBlocks(policy: Policy, b: ProjectBinding, row: JoinedRow, condition: Json, fields: Fields,
                             engine: Engine)
    requires ReplacementSilent(b, row, engine)
    ensures !Blocks(engine, fields)(ResolveRow(Bound(policy, b), row.(rule := row.rule.(condition := condition))))
  {
    ReplacementStays(policy, b, row, condition);
    BlocksMeans(engine, fields, ResolveRow(Bound(policy, b), row.(rule := row.rule.(condition := condition))));
  }

  lemma HarmlessRowsSoften(policy: Policy, b: ProjectBinding, rows: seq<JoinedRow>, conditions: seq<Json>,
                           fields: Fields, engine: Engine)
    requires |rows| == |conditions| && forall row :: row in rows ==> HarmlessOn(policy, b, row, engine)
    ensures SoftensAt(policy, b, rows, conditions, fields, engine)
  {
    var actual := Reconditioned(rows, conditions);
    if r :| r in FlatMap(actual, ResolveRows(Bound(policy, b))) && Blocks(engine, fields)(r) {
      ResolvedMember(Bound(policy, b), actual, r);
      var i :| 0 <= i < |actual| && !SwitchedOff(OverrideOf(Some(b), actual[i].rule.ruleKey))
          && r == ResolveRow(Bound(policy, b), actual[i]);
      assert HarmlessOn(policy, b, rows[i], engine);
      if !SoftOn(policy, b, rows[i]) {
        SilentRowNeverBlocks(policy, b, rows[i], conditions[i], fields, engine);
      }
      SoftRowSoftens(policy, b, rows[i], conditions[i], fields, engine);
      ResolvedMember(Unbound(policy), actual, ResolveRow(Unbound(policy), actual[i]));
    }
  }

  lemma NeverNeverMatches(fields: Fields, engine: Engine)
    ensures Evaluate(Never(), fields, engine.js) == Result(false)
            && Evaluate(Always(), fields, engine.js) == Result(true)
  {
  }

  /** Without the binding, rules whose condition never matches do not block. */
  lemma NothingBlocksUnbound(policy: Policy, rows: seq<JoinedRow>, fields: Fields, engine: Engine)
    requires forall i :: 0 <= i < |rows| && Evaluate(rows[i].rule.condition, fields, engine.js) == Result(true) ==>
               !Enforces(ResolveRow(Unbound(policy), rows[i]))
    ensures !BlocksUnder(Unbound(policy), rows, fields, engine)
  {
    forall r | r in FlatMap(rows, ResolveRows(Unbound(policy))) ensures !Blocks(engine, fields)(r) {
      ResolvedMember(Unbound(policy), rows, r);
      BlocksMeans(engine, fields, r);
      var i :| 0 <= i < |rows| && r == ResolveRow(Unbound(policy), rows[i]);
      assert r.condition == rows[i].rule.condition;
    }
  }

  lemma RowBlocksBound(policy: Policy, b: ProjectBinding, rows: seq<JoinedRow>, k: nat, fields: Fields, engine: Engine)
    requires k < |rows| && !SwitchedOff(OverrideOf(Some(b), rows[k].rule.ruleKey))
    requires Enforces(ResolveRow(Bound(policy, b), rows[k]))
    requires Evaluate(ResolveRow(Bound(policy, b), rows[k]).condition, fields, engine.js) == Result(true)
    ensures BlocksUnder(Bound(policy, b), rows, fields, engine)
  {
    var hard := ResolveRow(Bound(policy, b), rows[k]);
    ResolvedMember(Bound(policy, b), rows, hard);
    BlocksMeans(engine, fields, hard);
  }

  /** A rule that the binding makes enforcing: its own condition always matches, the others never do. */
  lemma StricterModeHardens(policy: Policy, b: ProjectBinding, rows: seq<JoinedRow>, k: nat, engine: Engine)
    returns (conditions: seq<Json>, fields: Fields)
    requires k < |rows| && !SoftOn(policy, b, rows[k])
    requires !ReplacesCondition(OverrideOf(Some(b), rows[k].rule.ruleKey))
    ensures |conditions| == |rows| && !SoftensAt(policy, b, rows, conditions, fields, engine)
  {
    conditions, fields := seq(|rows|, i => if i == k then Always() else Never()), map[];
    var actual := Reconditioned(rows, conditions);
    NeverNeverMatches(fields, engine);
    SoftnessIgnoresCondition(policy, b, rows[k], conditions[k]);
    RowBlocksBound(policy, b, actual, k, fields, engine);
    NothingBlocksUnbound(policy, actual, fields, engine);
  }

  /** A rule whose condition is replaced by one that can match: where it does, no rule's own condition matches. */
  lemma ReplacementHardens(policy: Policy, b: ProjectBinding, rows: seq<JoinedRow>, k: nat, engine: Engine)
    returns (conditions: seq<Json>, fields: Fields)
    requires k < |rows| && !HarmlessOn(policy, b, rows[k], engine)
    requires ReplacesCondition(OverrideOf(Some(b), rows[k].rule.ruleKey))
    ensures |conditions| == |rows| && !SoftensAt(policy, b, rows, conditions, fields, engine)
  {
    var o := OverrideOf(Some(b), rows[k].rule.ruleKey);
    conditions := seq(|rows|, i => Never());
    fields :| Evaluate(ResolvedCondition(o, rows[k].rule), fields, engine.js) == Result(true);
    var actual := Reconditioned(rows, conditions);
    NeverNeverMatches(fields, engine);
    SoftnessIgnoresCondition(policy, b, rows[k], conditions[k]);
    ReplacementStays(policy, b, rows[k], conditions[k]);
    RowBlocksBound(policy, b, actual, k, fields, engine);
    NothingBlocksUnbound(policy, actual, fields, engine);
  }

  /**
   A binding softens a policy, for all conditions of its rules and all fields, if and only if on each
   rule it is soft or replaces the condition by one that never matches.
   */
  lemma SoftensIff(policy: Policy, b: ProjectBinding, rows: seq<JoinedRow>, engine: Engine)
    ensures Softens(policy, b, rows, engine) <==> forall row :: row in rows ==> HarmlessOn(policy, b, row, engine)
  {
    if forall row :: row in rows ==> HarmlessOn(policy, b, row, engine) {
      forall conditions: seq<Json>, fields: Fields | |conditions| == |rows| {
        HarmlessRowsSoften(policy, b, rows, conditions, fields, engine);
      }
    }
    if row :| row in rows && !HarmlessOn(policy, b, row, engine) {
      var k :| 0 <= k < |rows| && rows[k] == row;
      var conditions, fields := HardRowHardens(policy, b, rows, k, engine);
      assert !SoftensAt(policy, b, rows, conditions, fields, engine);
    }
  }

  lemma HardRowHardens(policy: Policy, b: ProjectBinding, rows: seq<JoinedRow>, k: nat, engine: Engine)
    returns (conditions: seq<Json>, fields: Fields)
    requires k < |rows| && !HarmlessOn(policy, b, rows[k], engine)
    ensures |conditions| == |rows| && !SoftensAt(policy, b, rows, conditions, fields, engine)
  {
    if ReplacesCondition(OverrideOf(Some(b), rows[k].rule.ruleKey)) {
      conditions, fields := ReplacementHardens(policy, b, rows, k, engine);
    } else {
      conditions, fields := StricterModeHardens(policy, b, rows, k, engine);
    }
  }

  function NoPatch(): ActionPatch { ActionPatch(None, None, None, None, None, None) }

  /** A merge that makes an advisory rule enforcing, with no mode override, blocks where the rule did not. */
  lemma MergeCanHarden(policy: Policy, b: ProjectBinding, row: JoinedRow, fields: Fields, engine: Engine)
    requires !SoftensMode(b.enforcementModeOverride)
    requires row.rule.ruleKey in b.ruleOverrides
    requires b.ruleOverrides[row.rule.ruleKey] ==
             RuleOverride(None, None,
                          Some(ActionOverride(Some("merge"), NoPatch().(enforcementMode := Some(Some(ENFORCING))))))
    requires row.rule.action.kind == Some("violation") && row.rule.action.enforcementMode == Some(ADVISORY)
    requires Evaluate(row.rule.condition, fields, engine.js) == Result(true)
    ensures BlocksUnder(Bound(policy, b), [row], fields, engine) && !BlocksUnder(Unbound(policy), [row], fields, engine)
  {
    assert [row][0] == row;
    RowBlocksBound(policy, b, [row], 0, fields, engine);
    NothingBlocksUnbound(policy, [row], fields, engine);
  }

  /** A replaced condition can block where the rule's own condition never did. */
  lemma ReplaceCanHarden(policy: Policy, b: ProjectBinding, row: JoinedRow, fields: Fields, engine: Engine)
    requires !SoftensMode(b.enforcementModeOverride)
    requires row.rule.ruleKey in b.ruleOverrides
    requires b.ruleOverrides[row.rule.ruleKey]
             == RuleOverride(None, Some(ConditionOverride(Some("replace"), Always())), None)
    requires row.rule.condition == Never()
    requires row.rule.action.kind == Some("violation") && row.rule.action.enforcementMode == Some(ENFORCING)
    ensures BlocksUnder(Bound(policy, b), [row], fields, engine) && !BlocksUnder(Unbound(policy), [row], fields, engine)
  {
    assert [row][0] == row;
    NeverNeverMatches(fields, engine);
    RowBlocksBound(policy, b, [row], 0, fields, engine);
    NothingBlocksUnbound(policy, [row], fields, engine);
  }

  // ----- the whole project -----

  function RowIn(policy: Policy, at: Instant): JoinedRow -> bool {
    (row: JoinedRow) => row.policyId == policy.id && IsLive(row, at)
  }

  /** Each binding under a key to be taken away is harmless on the live rules of the policy it customises. */
  ghost predicate HarmlessBindings(db: Database, bindings: map<Id, ProjectBinding>, keys: set<Id>, tenant: Id,
                                   at: Instant, engine: Engine) {
    forall p, rb, row ::
      p in db.policies && IsGlobalPolicy(p, tenant, at) && p.policyKey in keys && p.policyKey in bindings
      && rb in db.ruleBindings && row in Join(db)(rb) && RowIn(p, at)(row)
      ==> HarmlessOn(p, bindings[p.policyKey], row, engine)
  }

  /** No override of the binding replaces a condition or merges an action. */
  predicate PlainBinding(b: ProjectBinding) {
    forall key :: key in b.ruleOverrides ==>
      !ReplacesCondition(Some(b.ruleOverrides[key])) && !MergesAction(Some(b.ruleOverrides[key]))
  }

  /** Plain bindings, and those that soften the mode, are harmless. */
  lemma PlainBindingsAreHarmless(db: Database, bindings: map<Id, ProjectBinding>, keys: set<Id>, tenant: Id,
                                 at: Instant, engine: Engine)
    requires forall key :: key in keys && key in bindings ==>
               PlainBinding(bindings[key]) || SoftensMode(bindings[key].enforcementModeOverride)
    ensures HarmlessBindings(db, bindings, keys, tenant, at, engine)
  {
    forall p, rb, row |
      p in db.policies && IsGlobalPolicy(p, tenant, at) && p.policyKey in keys && p.policyKey in bindings
      && rb in db.ruleBindings && row in Join(db)(rb) && RowIn(p, at)(row)
      ensures HarmlessOn(p, bindings[p.policyKey], row, engine)
    {
      if SoftensMode(bindings[p.policyKey].enforcementModeOverride) {
        SofteningModeIsSoft(p, bindings[p.policyKey], row);
      } else {
        PlainBindingIsSoft(p, bindings[p.policyKey], row);
      }
    }
  }

  /** The rule list under the given bindings. */
  function RulesUnder(db: Database, bindings: map<Id, ProjectBinding>, tenant: Id, project: Id, at: Instant)
      : seq<ResolvedRule> {
    SnapshotOf(db, Entries(db, bindings, tenant, project, at), at).allRules
  }

  lemma RowCarriesOver(db: Database, entries: seq<EffectivePolicy>, others: seq<EffectivePolicy>, at: Instant,
                       row: JoinedRow, e: EffectivePolicy)
    requires row in BindingRows(db, PolicyIds(entries), at) && e in others && e.policy.id == row.policyId
    ensures row in BindingRows(db, PolicyIds(others), at)
    ensures exists rb :: rb in db.ruleBindings && row in Join(db)(rb)
  {
    RowMember(db, PolicyIds(entries), at, row);
    RowMember(db, PolicyIds(others), at, row);
    var i :| 0 <= i < |others| && others[i] == e;
    assert PolicyIds(others)[i] == row.policyId;
  }

  /** The entry that stands for e once the bindings under keys are gone. */
  function Released(e: EffectivePolicy, keys: set<Id>, tenant: Id, at: Instant): EffectivePolicy {
    if IsGlobalPolicy(e.policy, tenant, at) && e.policy.policyKey in keys then Unbound(e.policy) else e
  }

  lemma ReleasedApplies(db: Database, bindings: map<Id, ProjectBinding>, keys: set<Id>, tenant: Id, project: Id,
                        at: Instant, e: EffectivePolicy)
    requires e in Entries(db, bindings, tenant, project, at)
    ensures Released(e, keys, tenant, at) in Entries(db, bindings - keys, tenant, project, at)
    ensures Released(e, keys, tenant, at) == e
            || (&& e.policy in db.policies && IsGlobalPolicy(e.policy, tenant, at) && e.policy.policyKey in keys
                && e.policy.policyKey in bindings && e == Bound(e.policy, bindings[e.policy.policyKey]))
  {
    EntryMember(db, bindings, tenant, project, at, e);
    EntryMember(db, bindings - keys, tenant, project, at, Released(e, keys, tenant, at));
  }

  /** If the bound form of a rule blocks and the binding is harmless on it, so does the rule itself. */
  lemma SoftBlocker(policy: Policy, b: ProjectBinding, row: JoinedRow, r: ResolvedRule, fields: Fields, engine: Engine)
    requires HarmlessOn(policy, b, row, engine) && ComesFrom(r, Bound(policy, b), row) && Blocks(engine, fields)(r)
    ensures ComesFrom(ResolveRow(Unbound(policy), row), Unbound(policy), row)
    ensures Blocks(engine, fields)(ResolveRow(Unbound(policy), row))
  {
    BlocksMeans(engine, fields, r);
    BlocksMeans(engine, fields, ResolveRow(Unbound(policy), row));
  }

  /** A rule that blocks under the bindings has a counterpart that blocks without those taken away. */
  lemma BlockerSurvives(db: Database, bindings: map<Id, ProjectBinding>, keys: set<Id>, tenant: Id, project: Id,
                        at: Instant, fields: Fields, engine: Engine, r: ResolvedRule) returns (plain: ResolvedRule)
    requires HarmlessBindings(db, bindings, keys, tenant, at, engine)
    requires r in RulesUnder(db, bindings, tenant, project, at) && Blocks(engine, fields)(r)
    ensures plain in RulesUnder(db, bindings - keys, tenant, project, at) && Blocks(engine, fields)(plain)
  {
    var entries := Entries(db, bindings, tenant, project, at);
    var others := Entries(db, bindings - keys, tenant, project, at);
    SnapshotHolds(db, entries, at, r);
    var e, row :| e in entries && row in BindingRows(db, PolicyIds(entries), at) && ComesFrom(r, e, row);
    var e' := Released(e, keys, tenant, at);
    ReleasedApplies(db, bindings, keys, tenant, project, at, e);
    RowCarriesOver(db, entries, others, at, row, e');
    RowMember(db, PolicyIds(entries), at, row);
    plain := r;
    if e' != e {
      var b := bindings[e.policy.policyKey];
      var rb :| rb in db.ruleBindings && row in Join(db)(rb);
      assert RowIn(e.policy, at)(row);
      assert HarmlessOn(e.policy, b, row, engine);
      SoftBlocker(e.policy, b, row, r, fields, engine);
      plain := ResolveRow(e', row);
    }
    assert ComesFrom(plain, e', row);
    SnapshotHolds(db, others, at, plain);
  }

  ghost predicate SomeBlocks(rules: seq<ResolvedRule>, fields: Fields, engine: Engine) {
    exists r :: r in rules && Blocks(engine, fields)(r)
  }

  lemma BlockersSurvive(db: Database, bindings: map<Id, ProjectBinding>, keys: set<Id>, tenant: Id, project: Id,
                        at: Instant, fields: Fields, engine: Engine)
    requires HarmlessBindings(db, bindings, keys, tenant, at, engine)
    ensures SomeBlocks(RulesUnder(db, bindings, tenant, project, at), fields, engine) ==>
            SomeBlocks(RulesUnder(db, bindings - keys, tenant, project, at), fields, engine)
  {
    var rules := RulesUnder(db, bindings, tenant, project, at);
    if r :| r in rules && Blocks(engine, fields)(r) {
      var plain := BlockerSurvives(db, bindings, keys, tenant, project, at, fields, engine, r);
    }
  }

  /**
   Bindings only soften: if the check blocks under the project's bindings, then it does not allow
   once harmless bindings are taken away; it blocks, unless a malformed stored condition stops it.
   */
  lemma BindingsOnlySoften(db: Database, bindings: map<Id, ProjectBinding>, keys: set<Id>, tenant: Id, project: Id,
                           at: Instant, fields: Fields, ttl: int, serveMode: ServeMode, engine: Engine)
    requires HarmlessBindings(db, bindings, keys, tenant, at, engine)
    ensures
      var under := Evaluated(RulesUnder(db, bindings, tenant, project, at), fields, ttl, serveMode, engine);
      var without := Evaluated(RulesUnder(db, bindings - keys, tenant, project, at), fields, ttl, serveMode, engine);
      under.Ok? && under.value.verdict == Block ==>
        if NoneThrows(RulesUnder(db, bindings - keys, tenant, project, at), engine, fields)
        then without.Ok? && without.value.verdict == Block
        else without.Err?
  {
    BlockersSurvive(db, bindings, keys, tenant, project, at, fields, engine);
    SoftenedOutcome(RulesUnder(db, bindings, tenant, project, at), RulesUnder(db, bindings - keys, tenant, project, at),
                    fields, ttl, serveMode, engine);
  }

  lemma SoftenedOutcome(rules: seq<ResolvedRule>, plainRules: seq<ResolvedRule>, fields: Fields, ttl: int,
                        serveMode: ServeMode, engine: Engine)
    requires SomeBlocks(rules, fields, engine) ==> SomeBlocks(plainRules, fields, engine)
    ensures
      var under := Evaluated(rules, fields, ttl, serveMode, engine);
      var without := Evaluated(plainRules, fields, ttl, serveMode, engine);
      under.Ok? && under.value.verdict == Block ==>
        if NoneThrows(plainRules, engine, fields) then without.Ok? && without.value.verdict == Block else without.Err?
  {
    BlockIff(rules, fields, ttl, serveMode, engine);
    BlockIff(plainRules, fields, ttl, serveMode, engine);
  }
}
