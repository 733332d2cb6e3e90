/**
 The audit rows of one evaluation: recordPolicyEvaluationWithViolations in
 services/api/src/connect/check-service.ts, up to the violation table.
 */
module Audit {
  import opened Common
  import opened Expression
  import opened PolicyData
  import opened Effective
  import opened Resolution
  import opened Decision
  import opened Softening

  datatype RowResult = RowPass | RowAdvisory | RowBlock

  datatype PolicyRow = PolicyRow(policyId: Id, policyProjectBindingId: Option<Id>, enforcementMode: string,
                                 result: Verdict, orderIndex: nat)

  datatype RuleRow = RuleRow(
    policyId: Id,
    policyRuleBindingId: Id,
    ruleId: Id,
    policyProjectBindingId: Option<Id>,
    matched: bool,
    result: RowResult)

  /** A later violation with the same rule binding replaces an earlier one. */
  function ByBindingId(violations: seq<Violation>): map<Id, Violation> {
    if violations == [] then map[]
    else
      var last := violations[|violations| - 1];
      ByBindingId(violations[..|violations| - 1])[last.policyRuleBindingId := last]
  }

  function BlockingPolicies(violations: seq<Violation>): set<Id> {
    set v | v in violations && v.blocked :: v.policyId
  }

  function PolicyRows(policies: seq<ResolvedPolicy>, violations: seq<Violation>): seq<PolicyRow> {
    seq(|policies|, i requires 0 <= i < |policies| =>
      PolicyRow(policies[i].id, policies[i].policyProjectBindingId, policies[i].enforcementMode,
                if policies[i].id in BlockingPolicies(violations) then Block else Allow, i))
  }

  function RuleRowOf(byBinding: map<Id, Violation>): ResolvedRule -> RuleRow {
    (rule: ResolvedRule) =>
      var found := rule.policyRuleBindingId in byBinding;
      RuleRow(rule.policyId, rule.policyRuleBindingId, rule.id, rule.policyProjectBindingId, found,
              if !found then RowPass else if byBinding[rule.policyRuleBindingId].blocked then RowBlock else RowAdvisory)
  }

  /** The two inserts of the transaction. */
  method AuditRows(snapshot: Snapshot, violations: seq<Violation>)
      returns (policyRows: seq<PolicyRow>, ruleRows: seq<RuleRow>)
    ensures policyRows == PolicyRows(snapshot.policies, violations)
    ensures ruleRows == Map(snapshot.allRules, RuleRowOf(ByBindingId(violations)))
  {
    var byBinding: map<Id, Violation> := map[];
    for i := 0 to |violations|
      invariant byBinding == ByBindingId(violations[..i])
    {
      assert violations[..i + 1][..i] == violations[..i];
      byBinding := byBinding[violations[i].policyRuleBindingId := violations[i]];
    }
    assert violations[..|violations|] == violations;
    policyRows := PolicyRows(snapshot.policies, violations);
    ruleRows := Map(snapshot.allRules, RuleRowOf(byBinding));
  }

  lemma {:induction false} ByBindingIdMember(violations: seq<Violation>, id: Id)
    ensures id in ByBindingId(violations) <==> exists v :: v in violations && v.policyRuleBindingId == id
    ensures id in ByBindingId(violations) ==>
              ByBindingId(violations)[id] in violations && ByBindingId(violations)[id].policyRuleBindingId == id
  {
    if violations != [] {
      var front := violations[..|violations| - 1];
      ByBindingIdMember(front, id);
      assert violations == front + [violations[|violations| - 1]];
    }
  }

  ghost predicate DistinctBindings(rules: seq<ResolvedRule>) {
    forall i, j :: 0 <= i < j < |rules| ==> rules[i].policyRuleBindingId != rules[j].policyRuleBindingId
  }

  lemma ReportedMember(rules: seq<ResolvedRule>, fields: Fields, engine: Engine, v: Violation)
    ensures v in Map(Filter(rules, Reports(engine, fields)), ToViolation(engine, fields)) <==>
            exists i :: 0 <= i < |rules| && Reports(engine, fields)(rules[i])
                && v == ToViolation(engine, fields)(rules[i])
  {
    var reported := Filter(rules, Reports(engine, fields));
    var violations := Map(reported, ToViolation(engine, fields));
    if v in violations {
      var k :| 0 <= k < |violations| && violations[k] == v;
      assert reported[k] in reported;
      var i :| 0 <= i < |rules| && rules[i] == reported[k];
    }
    if i :| 0 <= i < |rules| && Reports(engine, fields)(rules[i]) && v == ToViolation(engine, fields)(rules[i]) {
      assert rules[i] in reported;
      var k :| 0 <= k < |reported| && reported[k] == rules[i];
      assert violations[k] == v;
    }
  }

  /** A rule's row says whether that very rule was reported, and whether it blocked. */
  lemma RuleRowFaithful(rules: seq<ResolvedRule>, fields: Fields, ttl: int, serveMode: ServeMode, engine: Engine,
                        k: nat)
    requires k < |rules| && DistinctBindings(rules)
    ensures
      var row := RuleRowOf(ByBindingId(Decide(rules, fields, ttl, serveMode, engine).violations))(rules[k]);
      && (row.matched <==> Reports(engine, fields)(rules[k]))
      && (row.result == RowBlock <==> Blocks(engine, fields)(rules[k]))
      && (row.result == RowPass <==> !Reports(engine, fields)(rules[k]))
  {
    var violations := Decide(rules, fields, ttl, serveMode, engine).violations;
    var id := rules[k].policyRuleBindingId;
    ByBindingIdMember(violations, id);
    if id in ByBindingId(violations) {
      var v := ByBindingId(violations)[id];
      ReportedMember(rules, fields, engine, v);
      var i :| 0 <= i < |rules| && Reports(engine, fields)(rules[i]) && v == ToViolation(engine, fields)(rules[i]);
      assert i == k;
    }
    if Reports(engine, fields)(rules[k]) {
      ReportedMember(rules, fields, engine, ToViolation(engine, fields)(rules[k]));
    }
    BlocksMeans(engine, fields, rules[k]);
  }

  // ----- matched, and recorded as matched -----

  /** The action types that the evaluation collects; any other matches in silence. */
  predicate Reportable(r: ResolvedRule) { ActionType(r) in {"violation", "warning", "info"} }

  function IsMatched(row: RuleRow): bool { row.matched }

  /** A rule's row has the right flag exactly if the rule does not match or its action type is reported. */
  lemma MatchedFlagIff(rules: seq<ResolvedRule>, fields: Fields, ttl: int, serveMode: ServeMode, engine: Engine, k: nat)
    requires k < |rules| && DistinctBindings(rules)
    ensures
      var row := RuleRowOf(ByBindingId(Decide(rules, fields, ttl, serveMode, engine).violations))(rules[k]);
      (row.matched <==> Matches(engine, fields)(rules[k])) <==>
        (Matches(engine, fields)(rules[k]) ==> Reportable(rules[k]))
  {
    RuleRowFaithful(rules, fields, ttl, serveMode, engine, k);
    ReportsMeans(engine, fields, rules[k]);
  }

  lemma MatchedRowsAreReported(ruleRows: seq<RuleRow>, rules: seq<ResolvedRule>, fields: Fields, engine: Engine)
    requires RuleRowsAgree(ruleRows, rules, fields, engine)
    ensures Count(ruleRows, IsMatched) == Count(rules, Reports(engine, fields))
  {
    SamePlaces(ruleRows, IsMatched, rules, Reports(engine, fields));
  }

  lemma {:induction false} SamePlaces<T(!new), U(!new)>(s: seq<T>, p: T -> bool, t: seq<U>, q: U -> bool)
    requires |s| == |t| && forall i :: 0 <= i < |s| ==> p(s[i]) == q(t[i])
    ensures Count(s, p) == Count(t, q)
  {
    if s != [] {
      SamePlaces(s[1..], p, t[1..], q);
    }
  }

  /**
   The rows recorded as matched are the violations collected. They are as many as the evaluation's
   rules_matched exactly if every rule that matches has an action type that is reported.
   */
  lemma MatchedRowsIff(db: Database, tenant: Id, project: Id, at: Instant, fields: Fields, ttl: int,
                       serveMode: ServeMode, engine: Engine)
    requires WellKeyed(db)
    ensures
      var rules := EffectiveSnapshot(db, tenant, project, at).allRules;
      var d := Decide(rules, fields, ttl, serveMode, engine);
      var matched := Count(Map(rules, RuleRowOf(ByBindingId(d.violations))), IsMatched);
      && matched == |d.violations| <= d.rulesMatched
      && (matched == d.rulesMatched <==> forall r :: r in rules && Matches(engine, fields)(r) ==> Reportable(r))
  {
    var rules := EffectiveSnapshot(db, tenant, project, at).allRules;
    BindingIdsDistinct(db, tenant, project, at);
    RuleRowsFaithful(rules, fields, ttl, serveMode, engine);
    var ruleRows := Map(rules, RuleRowOf(ByBindingId(Decide(rules, fields, ttl, serveMode, engine).violations)));
    MatchedRowsAreReported(ruleRows, rules, fields, engine);
    ReportedCountIff(rules, fields, engine);
    DecidedViolations(rules, fields, ttl, serveMode, engine);
    DecidedCounts(rules, fields, ttl, serveMode, engine);
  }

  lemma ReportedCountIff(rules: seq<ResolvedRule>, fields: Fields, engine: Engine)
    ensures
      var reported, matched := Count(rules, Reports(engine, fields)), Count(rules, Matches(engine, fields));
      && reported <= matched
      && (reported == matched <==> forall r :: r in rules && Matches(engine, fields)(r) ==> Reportable(r))
  {
    forall r { ReportsMeans(engine, fields, r); }
    CountMonotone(rules, Reports(engine, fields), Matches(engine, fields));
    SameCountIff(rules, Reports(engine, fields), Matches(engine, fields));
  }

  /** A binding that merges another action type into a rule makes it match in silence: its row says that it passed. */
  lemma OtherTypeMatchesInSilence(policy: Policy, b: ProjectBinding, row: JoinedRow, kind: string, fields: Fields,
                                  ttl: int, serveMode: ServeMode, engine: Engine)
    requires kind !in {"violation", "warning", "info"} && row.rule.ruleKey in b.ruleOverrides
    requires b.ruleOverrides[row.rule.ruleKey] ==
             RuleOverride(None, None, Some(ActionOverride(Some("merge"), NoPatch().(kind := Some(Some(kind))))))
    requires Evaluate(row.rule.condition, fields, engine.js) == Result(true)
    ensures
      var rule := ResolveRow(Bound(policy, b), row);
      var d := Decide([rule], fields, ttl, serveMode, engine);
      var ruleRow := RuleRowOf(ByBindingId(d.violations))(rule);
      d.rulesMatched == 1 && d.violations == [] && !ruleRow.matched && ruleRow.result == RowPass
  {
    var rule := ResolveRow(Bound(policy, b), row);
    assert rule.action.kind == Some(kind) && rule.condition == row.rule.condition;
    DecidedViolations([rule], fields, ttl, serveMode, engine);
    DecidedCounts([rule], fields, ttl, serveMode, engine);
    ReportsMeans(engine, fields, rule);
    FilterNone([rule], Reports(engine, fields));
    FilterAll([rule], Matches(engine, fields));
  }

  lemma BlockingPolicyMember(rules: seq<ResolvedRule>, fields: Fields, ttl: int, serveMode: ServeMode, engine: Engine,
                             policyId: Id)
    ensures policyId in BlockingPolicies(Decide(rules, fields, ttl, serveMode, engine).violations) <==>
            exists k :: 0 <= k < |rules| && rules[k].policyId == policyId && Blocks(engine, fields)(rules[k])
  {
    var violations := Decide(rules, fields, ttl, serveMode, engine).violations;
    if policyId in BlockingPolicies(violations) {
      var v :| v in violations && v.blocked && v.policyId == policyId;
      ReportedMember(rules, fields, engine, v);
    }
    if k :| 0 <= k < |rules| && rules[k].policyId == policyId && Blocks(engine, fields)(rules[k]) {
      ReportedMember(rules, fields, engine, ToViolation(engine, fields)(rules[k]));
      assert ToViolation(engine, fields)(rules[k]) in violations;
    }
  }

  /** One rule row a rule, in rule order, each with its own binding and saying block exactly when its rule blocked. */
  ghost predicate RuleRowsAgree(ruleRows: seq<RuleRow>, rules: seq<ResolvedRule>, fields: Fields, engine: Engine) {
    && |ruleRows| == |rules|
    && (forall i :: 0 <= i < |rules| ==>
          && ruleRows[i].policyId == rules[i].policyId
          && ruleRows[i].policyRuleBindingId == rules[i].policyRuleBindingId
          && (ruleRows[i].result == RowBlock <==> Blocks(engine, fields)(rules[i]))
          && (ruleRows[i].matched <==> Reports(engine, fields)(rules[i])))
    && (forall i, j :: 0 <= i < j < |ruleRows| ==> ruleRows[i].policyRuleBindingId != ruleRows[j].policyRuleBindingId)
  }

  /** A policy row says block exactly when one of its rule rows does. */
  ghost predicate PolicyRowsAgree(policyRows: seq<PolicyRow>, ruleRows: seq<RuleRow>) {
    forall p :: 0 <= p < |policyRows| ==>
      (policyRows[p].result == Block <==>
       exists i :: 0 <= i < |ruleRows| && ruleRows[i].policyId == policyRows[p].policyId
           && ruleRows[i].result == RowBlock)
  }

  lemma RuleRowsFaithful(rules: seq<ResolvedRule>, fields: Fields, ttl: int, serveMode: ServeMode, engine: Engine)
    requires DistinctBindings(rules)
    ensures RuleRowsAgree(Map(rules, RuleRowOf(ByBindingId(Decide(rules, fields, ttl, serveMode, engine).violations))),
                          rules, fields, engine)
  {
    forall i | 0 <= i < |rules| {
      RuleRowFaithful(rules, fields, ttl, serveMode, engine, i);
    }
  }

  lemma PolicyRowsFaithful(policies: seq<ResolvedPolicy>, rules: seq<ResolvedRule>, ruleRows: seq<RuleRow>,
                           fields: Fields, ttl: int, serveMode: ServeMode, engine: Engine)
    requires RuleRowsAgree(ruleRows, rules, fields, engine)
    ensures PolicyRowsAgree(PolicyRows(policies, Decide(rules, fields, ttl, serveMode, engine).violations), ruleRows)
  {
    var policyRows := PolicyRows(policies, Decide(rules, fields, ttl, serveMode, engine).violations);
    forall p | 0 <= p < |policyRows|
      ensures policyRows[p].result == Block <==>
              exists i :: 0 <= i < |ruleRows| && ruleRows[i].policyId == policyRows[p].policyId
                  && ruleRows[i].result == RowBlock
    {
      BlockingPolicyMember(rules, fields, ttl, serveMode, engine, policyRows[p].policyId);
      if k :| 0 <= k < |rules| && rules[k].policyId == policyRows[p].policyId && Blocks(engine, fields)(rules[k]) {
        assert ruleRows[k].result == RowBlock;
      }
    }
  }

  lemma VerdictInRows(policies: seq<ResolvedPolicy>, policyRows: seq<PolicyRow>, rules: seq<ResolvedRule>,
                      ruleRows: seq<RuleRow>, fields: Fields, ttl: int, serveMode: ServeMode, engine: Engine)
    requires RuleRowsAgree(ruleRows, rules, fields, engine) && PolicyRowsAgree(policyRows, ruleRows)
    requires policyRows == PolicyRows(policies, Decide(rules, fields, ttl, serveMode, engine).violations)
    requires forall r :: r in rules ==> exists p :: p in policies && p.id == r.policyId
    ensures Decide(rules, fields, ttl, serveMode, engine).verdict == Block <==>
            exists p :: 0 <= p < |policyRows| && policyRows[p].result == Block
  {
    BlockIff(rules, fields, ttl, serveMode, engine);
    if r :| r in rules && Blocks(engine, fields)(r) {
      var k :| 0 <= k < |rules| && rules[k] == r;
      var policy :| policy in policies && policy.id == r.policyId;
      var p :| 0 <= p < |policies| && policies[p] == policy;
      assert ruleRows[k].result == RowBlock && policyRows[p].policyId == ruleRows[k].policyId;
      assert policyRows[p].result == Block;
    }
    if p :| 0 <= p < |policyRows| && policyRows[p].result == Block {
      var i :| 0 <= i < |ruleRows| && ruleRows[i].policyId == policyRows[p].policyId && ruleRows[i].result == RowBlock;
      assert Blocks(engine, fields)(rules[i]) && rules[i] in rules;
    }
  }

  /** Row for row, the audit trail of an evaluation tells the story of its decision. */
  lemma AuditAgreesWithDecision(db: Database, tenant: Id, project: Id, at: Instant, fields: Fields, ttl: int,
                                serveMode: ServeMode, engine: Engine)
    requires WellKeyed(db)
    ensures
      var s := EffectiveSnapshot(db, tenant, project, at);
      var d := Decide(s.allRules, fields, ttl, serveMode, engine);
      var ruleRows := Map(s.allRules, RuleRowOf(ByBindingId(d.violations)));
      var policyRows := PolicyRows(s.policies, d.violations);
      && RuleRowsAgree(ruleRows, s.allRules, fields, engine)
      && PolicyRowsAgree(policyRows, ruleRows)
      && (d.verdict == Block <==> exists p :: 0 <= p < |policyRows| && policyRows[p].result == Block)
  {
    var s := EffectiveSnapshot(db, tenant, project, at);
    var violations := Decide(s.allRules, fields, ttl, serveMode, engine).violations;
    var ruleRows := Map(s.allRules, RuleRowOf(ByBindingId(violations)));
    BindingIdsDistinct(db, tenant, project, at);
    RulesBelongToPolicies(db, tenant, project, at);
    RuleRowsFaithful(s.allRules, fields, ttl, serveMode, engine);
    PolicyRowsFaithful(s.policies, s.allRules, ruleRows, fields, ttl, serveMode, engine);
    VerdictInRows(s.policies, PolicyRows(s.policies, violations), s.allRules, ruleRows, fields, ttl, serveMode, engine);
  }
}
