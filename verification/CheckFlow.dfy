/** The request path of a policy check: handleCheck in services/api/src/connect/check-service.ts. */
module CheckFlow {
  import opened Common
  import opened Expression
  import opened PolicyData
  import opened Effective
  import opened Resolution
  import opened Decision
  import opened FieldResolver
  import Softening

  datatype Proxy = Proxy(tenantId: Id, allTenants: bool)

  /** A token row joined with its current project. */
  datatype Token = Token(id: Id, tenantId: Id, projectId: Id, revokedAt: Option<Instant>, expiresAt: Option<Instant>)

  datatype Entitlement = Entitlement(allowedEcosystems: Option<seq<string>>, serveMode: string, cacheTtlSeconds: int)

  /** The normalised request; an empty version is a metadata request. */
  datatype Request = Request(ecosystem: string, package: string, version: string)

  datatype CheckOutcome = CheckOutcome(
    verdict: Verdict,
    reason: string,
    detail: string,
    cacheTtlSeconds: int,
    serveMode: ServeMode,
    tenantId: Option<Id>,
    projectId: Option<Id>)

  /** loadAuthorizedProjectToken */
  predicate Authorized(proxy: Proxy, token: Option<Token>, now: Instant) {
    && token.Some?
    && (proxy.allTenants || token.value.tenantId == proxy.tenantId)
    && token.value.revokedAt.None?
    && (token.value.expiresAt.None? || token.value.expiresAt.value > now)
  }

  function DefaultTtl(e: Option<Entitlement>): int { if e.Some? then e.value.cacheTtlSeconds else 300 }

  function DefaultServeMode(e: Option<Entitlement>): ServeMode {
    if e.Some? && e.value.serveMode == "pull" then Pull else Redirect
  }

  predicate Entitled(e: Option<Entitlement>, ecosystem: string) {
    e.None? || e.value.allowedEcosystems.None? || ecosystem in e.value.allowedEcosystems.value
  }

  function InvalidToken(): CheckOutcome {
    CheckOutcome(Block, "invalid_token", "Token not found, expired, or has been revoked", 0, Unspecified, None, None)
  }

  /** handleCheck: rules and fields are what the loaders deliver when the path gets that far. */
  function HandleCheck(proxy: Proxy, token: Option<Token>, entitlement: Option<Entitlement>, req: Request, now: Instant,
                       rules: seq<ResolvedRule>, fields: Fields, engine: Engine)
    : Common.Result<CheckOutcome, EvaluationError>
  {
    if !Authorized(proxy, token, now) then Ok(InvalidToken())
    else
      var tenant, project := Some(token.value.tenantId), Some(token.value.projectId);
      var ttl, serveMode := DefaultTtl(entitlement), DefaultServeMode(entitlement);
      if !Entitled(entitlement, req.ecosystem) then
        Ok(CheckOutcome(Block, "ecosystem_not_permitted", req.ecosystem + " is not available on your current plan",
                        ttl, Unspecified, tenant, project))
      else if req.version == "" then
        Ok(CheckOutcome(Allow, "metadata_request", "Package metadata request — no version to evaluate", ttl, serveMode,
                        tenant, project))
      else if rules == [] then
        Ok(CheckOutcome(Block, "no_policy", "No active policy configured for this project or tenant", 0, Unspecified,
                        tenant, project))
      else
        match Evaluated(rules, fields, ttl, serveMode, engine)
        case Err(e) => Err(e)
        case Ok(d) => Ok(CheckOutcome(d.verdict, d.reason, d.detail, d.cacheTtl, d.serveMode, tenant, project))
  }

  /** The condition of the starter rule that blocks when OSV data is unavailable. */
  function OsvUnavailableCondition(): Json {
    JObj(None, None, None, Some(JStr("source.osv._meta.status")), Some(JStr("in")),
         Some(JArr([JStr("background_pending"), JStr("unavailable"), JStr("error")])))
  }

  lemma EvaluatedAllowIff(rules: seq<ResolvedRule>, fields: Fields, ttl: int, serveMode: ServeMode, engine: Engine)
    ensures var e := Evaluated(rules, fields, ttl, serveMode, engine);
            e.Ok? && e.value.verdict == Allow <==>
              NoneThrows(rules, engine, fields) && forall r :: r in rules ==> !Blocks(engine, fields)(r)
  {
    BlockIff(rules, fields, ttl, serveMode, engine);
  }

  /**
   A versioned request is allowed only with an authorised token, an entitled ecosystem, at least one
   rule, and no rule that matches and enforces; and exactly then.
   */
  lemma AllowIff(proxy: Proxy, token: Option<Token>, entitlement: Option<Entitlement>, req: Request, now: Instant,
                 rules: seq<ResolvedRule>, fields: Fields, engine: Engine)
    requires req.version != ""
    ensures
      var outcome := HandleCheck(proxy, token, entitlement, req, now, rules, fields, engine);
      outcome.Ok? && outcome.value.verdict == Allow <==>
        && Authorized(proxy, token, now)
        && Entitled(entitlement, req.ecosystem)
        && rules != []
        && NoneThrows(rules, engine, fields)
        && forall r :: r in rules ==> !Blocks(engine, fields)(r)
  {
    EvaluatedAllowIff(rules, fields, DefaultTtl(entitlement), DefaultServeMode(entitlement), engine);
  }

  /** With the enforcing starter rule in force, an allowed package had OSV data, supported connectors being complete. */
  lemma AllowMeansOsvAnswered(proxy: Proxy, token: Option<Token>, entitlement: Option<Entitlement>, req: Request,
                              now: Instant, rules: seq<ResolvedRule>, engine: Engine, starter: ResolvedRule,
                              stored: seq<ConnectorSnapshot>, connectors: seq<string>, asset: Asset, timestamp: string)
    requires req.version != "" && starter in rules
    requires starter.condition == OsvUnavailableCondition() && Enforces(starter)
    requires "osv" in connectors
    requires forall s :: s in stored ==> NoCollision(s, "osv")
    ensures
      var fields := WithSnapshots(BuiltIns(asset, timestamp), Completed(stored, connectors));
      var outcome := HandleCheck(proxy, token, entitlement, req, now, rules, fields, engine);
      outcome.Ok? && outcome.value.verdict == Allow ==>
        exists s :: s in stored && s.connectorKey == "osv"
            && s.meta.status !in {"background_pending", "unavailable", "error"}
  {
    var snapshots := Completed(stored, connectors);
    var fields := WithSnapshots(BuiltIns(asset, timestamp), snapshots);
    var outcome := HandleCheck(proxy, token, entitlement, req, now, rules, fields, engine);
    if outcome.Ok? && outcome.value.verdict == Allow {
      AllowIff(proxy, token, entitlement, req, now, rules, fields, engine);
      CompletedCovers(stored, connectors);
      StatusIsLastSnapshots(BuiltIns(asset, timestamp), snapshots, "osv");
      var s := LastOf(snapshots, "osv").value;
      StarterRuleReadsOsvStatus(fields, s.meta.status, engine);
      BlocksMeans(engine, fields, starter);
    }
  }

  lemma StarterRuleReadsOsvStatus(fields: Fields, status: string, engine: Engine)
    requires MetaKey("osv", "status") in fields && fields[MetaKey("osv", "status")] == JStr(status)
    ensures Evaluate(OsvUnavailableCondition(), fields, engine.js) ==
            Result(status in {"background_pending", "unavailable", "error"})
  {
    assert MetaKey("osv", "status") == "source.osv._meta.status";
    var c := OsvUnavailableCondition();
    var items := [JStr("background_pending"), JStr("unavailable"), JStr("error")];
    assert c.value.value.items == items;
    assert Lookup(fields, c.field.value, engine.js) == JStr(status);
    UnansweredStatuses(status);
  }

  lemma UnansweredStatuses(status: string)
    ensures Includes([JStr("background_pending"), JStr("unavailable"), JStr("error")], JStr(status)) <==>
            status in {"background_pending", "unavailable", "error"}
  {
    var items := [JStr("background_pending"), JStr("unavailable"), JStr("error")];
    assert JStr(status) in items <==> JStr(status) == items[0] || JStr(status) == items[1] || JStr(status) == items[2];
  }

  /** An authorised, entitled, versioned check that nothing blocks is blocked only for want of rules. */
  lemma BlockedOnlyWhenEmpty(proxy: Proxy, token: Option<Token>, entitlement: Option<Entitlement>, req: Request,
                             now: Instant, rules: seq<ResolvedRule>, fields: Fields, engine: Engine)
    requires Authorized(proxy, token, now) && Entitled(entitlement, req.ecosystem) && req.version != ""
    requires !Softening.SomeBlocks(rules, fields, engine)
    ensures var outcome := HandleCheck(proxy, token, entitlement, req, now, rules, fields, engine);
            && (outcome.Ok? && outcome.value.verdict == Block <==> rules == [])
            && (rules == [] ==> outcome.value.reason == "no_policy")
  {
    BlockIff(rules, fields, DefaultTtl(entitlement), DefaultServeMode(entitlement), engine);
  }

  /** One check against two rule lists, where a blocker in the first means one in the second. */
  lemma HardensIffEmptied(proxy: Proxy, token: Option<Token>, entitlement: Option<Entitlement>, req: Request,
                          now: Instant, rules: seq<ResolvedRule>, plainRules: seq<ResolvedRule>, fields: Fields,
                          engine: Engine)
    requires req.version != ""
    requires Softening.SomeBlocks(rules, fields, engine) ==> Softening.SomeBlocks(plainRules, fields, engine)
    ensures
      var under := HandleCheck(proxy, token, entitlement, req, now, rules, fields, engine);
      var without := HandleCheck(proxy, token, entitlement, req, now, plainRules, fields, engine);
      without.Ok? && without.value.verdict == Allow ==>
        && (under.Ok? && under.value.verdict == Block <==> rules == [])
        && (rules == [] ==> under.value.reason == "no_policy")
  {
    var without := HandleCheck(proxy, token, entitlement, req, now, plainRules, fields, engine);
    if without.Ok? && without.value.verdict == Allow {
      AllowIff(proxy, token, entitlement, req, now, plainRules, fields, engine);
      BlockedOnlyWhenEmpty(proxy, token, entitlement, req, now, rules, fields, engine);
    }
  }

  /**
   A versioned request that is allowed without some harmless bindings is blocked under them exactly
   if they leave no rule at all; and then with no_policy. (Without a version rules are not looked at.)
   */
  lemma OnlyNoPolicyHardens(db: Database, bindings: map<Id, ProjectBinding>, keys: set<Id>, tenant: Id, project: Id,
                            at: Instant, proxy: Proxy, token: Option<Token>, entitlement: Option<Entitlement>,
                            req: Request, fields: Fields, engine: Engine)
    requires Softening.HarmlessBindings(db, bindings, keys, tenant, at, engine) && req.version != ""
    ensures
      var rules := Softening.RulesUnder(db, bindings, tenant, project, at);
      var plainRules := Softening.RulesUnder(db, bindings - keys, tenant, project, at);
      var under := HandleCheck(proxy, token, entitlement, req, at, rules, fields, engine);
      var without := HandleCheck(proxy, token, entitlement, req, at, plainRules, fields, engine);
      without.Ok? && without.value.verdict == Allow ==>
        && (under.Ok? && under.value.verdict == Block <==> rules == [])
        && (rules == [] ==> under.value.reason == "no_policy")
  {
    Softening.BlockersSurvive(db, bindings, keys, tenant, project, at, fields, engine);
    HardensIffEmptied(proxy, token, entitlement, req, at, Softening.RulesUnder(db, bindings, tenant, project, at),
                      Softening.RulesUnder(db, bindings - keys, tenant, project, at), fields, engine);
  }

  // ----- a project that opts out of its only policy -----

  /** A tenant with one policy, one live rule, and a project binding. */
  function OnePolicy(p: Policy, rule: Rule, rb: RuleBinding, b: ProjectBinding): Database {
    Database([p], [b], map[rb.ruleId := rule], [rb])
  }

  ghost predicate OptedOut(p: Policy, rule: Rule, rb: RuleBinding, b: ProjectBinding, tenant: Id, project: Id,
                           at: Instant) {
    && IsGlobalPolicy(p, tenant, at)
    && rb.policyId == p.id && rb.enabled && InForce(rule.effectiveFrom, rule.effectiveTo, at)
    && b.tenantId == tenant && b.projectId == project && b.policyKey == p.policyKey
    && InForce(b.effectiveFrom, b.effectiveTo, at) && OptsOut(b) && b.ruleOverrides == map[]
  }

  lemma OptOutLeavesNoRule(p: Policy, rule: Rule, rb: RuleBinding, b: ProjectBinding, tenant: Id, project: Id,
                           at: Instant)
    requires OptedOut(p, rule, rb, b, tenant, project, at)
    ensures var db := OnePolicy(p, rule, rb, b);
            && CurrentBindings(db, tenant, project, at) == map[p.policyKey := b]
            && EffectiveSnapshot(db, tenant, project, at).allRules == []
  {
    var db := OnePolicy(p, rule, rb, b);
    OnlyBinding(db, b, tenant, project, at);
    var entries := Entries(db, CurrentBindings(db, tenant, project, at), tenant, project, at);
    forall e ensures e !in entries {
      EntryMember(db, CurrentBindings(db, tenant, project, at), tenant, project, at, e);
    }
    EmptyOrNot(entries);
    var rules := EffectiveSnapshot(db, tenant, project, at).allRules;
    forall r ensures r !in rules {
      SnapshotHolds(db, entries, at, r);
    }
    EmptyOrNot(rules);
  }

  lemma OnlyBinding(db: Database, b: ProjectBinding, tenant: Id, project: Id, at: Instant)
    requires db.projectBindings == [b] && b.tenantId == tenant && b.projectId == project
    requires InForce(b.effectiveFrom, b.effectiveTo, at)
    ensures CurrentBindings(db, tenant, project, at) == map[b.policyKey := b]
  {
    var current := (x: ProjectBinding) =>
      x.tenantId == tenant && x.projectId == project && InForce(x.effectiveFrom, x.effectiveTo, at);
    FilterAll([b], current);
    assert [b][..0] == [];
    assert ByPolicyKey([b]) == map[b.policyKey := b];
  }

  lemma EmptyOrNot<T>(s: seq<T>)
    ensures s == [] || exists x :: x in s
  {
    if s != [] {
      assert s[0] in s;
    }
  }

  /** Without the binding the policy's rule is resolved. */
  lemma PolicyAppliesWithout(p: Policy, rule: Rule, rb: RuleBinding, b: ProjectBinding, tenant: Id, project: Id,
                             at: Instant)
    requires OptedOut(p, rule, rb, b, tenant, project, at)
    ensures Softening.RulesUnder(OnePolicy(p, rule, rb, b), map[], tenant, project, at) != []
  {
    var db := OnePolicy(p, rule, rb, b);
    var entries := Entries(db, map[], tenant, project, at);
    var e, row := Softening.Unbound(p), JoinedRow(rb.id, rb.policyId, rb.enabled, rb.orderIndex, rule);
    EntryMember(db, map[], tenant, project, at, e);
    assert row in Join(db)(rb);
    var i :| 0 <= i < |entries| && entries[i] == e;
    assert PolicyIds(entries)[i] == p.id;
    RowMember(db, PolicyIds(entries), at, row);
    assert ComesFrom(ResolveRow(e, row), e, row);
    SnapshotHolds(db, entries, at, ResolveRow(e, row));
  }

  lemma ConditionKept(p: Policy, rule: Rule, rb: RuleBinding, b: ProjectBinding, tenant: Id, project: Id, at: Instant,
                      r: ResolvedRule)
    requires r in Softening.RulesUnder(OnePolicy(p, rule, rb, b), map[], tenant, project, at)
    ensures r.condition == rule.condition
  {
    var db := OnePolicy(p, rule, rb, b);
    var entries := Entries(db, map[], tenant, project, at);
    SnapshotHolds(db, entries, at, r);
    var e, row :| e in entries && row in BindingRows(db, PolicyIds(entries), at) && ComesFrom(r, e, row);
    NoBindingNoOverride(db, tenant, project, at, e);
    OnlyRule(p, rule, rb, b, PolicyIds(entries), at, row);
    UnboundKeeps(e, row, r);
  }

  lemma NoBindingNoOverride(db: Database, tenant: Id, project: Id, at: Instant, e: EffectivePolicy)
    requires e in Entries(db, map[], tenant, project, at)
    ensures e.binding.None?
  {
    EntryMember(db, map[], tenant, project, at, e);
  }

  lemma OnlyRule(p: Policy, rule: Rule, rb: RuleBinding, b: ProjectBinding, ids: seq<Id>, at: Instant, row: JoinedRow)
    requires row in BindingRows(OnePolicy(p, rule, rb, b), ids, at)
    ensures row.rule == rule
  {
    RowMember(OnePolicy(p, rule, rb, b), ids, at, row);
  }

  lemma UnboundKeeps(e: EffectivePolicy, row: JoinedRow, r: ResolvedRule)
    requires e.binding.None? && ComesFrom(r, e, row)
    ensures r.condition == row.rule.condition
  {
  }

  /**
   Opting out of its only policy, whose rule does not match, turns a project's allow into a block: the
   binding that does it overrides nothing.
   */
  lemma OptOutHardens(p: Policy, rule: Rule, rb: RuleBinding, b: ProjectBinding, tenant: Id, project: Id, at: Instant,
                      proxy: Proxy, token: Option<Token>, entitlement: Option<Entitlement>, req: Request,
                      fields: Fields, engine: Engine)
    requires OptedOut(p, rule, rb, b, tenant, project, at)
    requires Evaluate(rule.condition, fields, engine.js) == Result(false)
    requires Authorized(proxy, token, at) && Entitled(entitlement, req.ecosystem) && req.version != ""
    ensures
      var db := OnePolicy(p, rule, rb, b);
      var rules := EffectiveSnapshot(db, tenant, project, at).allRules;
      var plainRules := Softening.RulesUnder(db, CurrentBindings(db, tenant, project, at) - {p.policyKey}, tenant,
                                             project, at);
      var under := HandleCheck(proxy, token, entitlement, req, at, rules, fields, engine);
      var without := HandleCheck(proxy, token, entitlement, req, at, plainRules, fields, engine);
      && under.Ok? && under.value.verdict == Block && under.value.reason == "no_policy"
      && without.Ok? && without.value.verdict == Allow
  {
    var db := OnePolicy(p, rule, rb, b);
    OptOutLeavesNoRule(p, rule, rb, b, tenant, project, at);
    assert map[p.policyKey := b] - {p.policyKey} == map[];
    NoRuleBlocks(proxy, token, entitlement, req, at, fields, engine);
    AllowedWithout(p, rule, rb, b, tenant, project, at, proxy, token, entitlement, req, fields, engine);
  }

  lemma NoRuleBlocks(proxy: Proxy, token: Option<Token>, entitlement: Option<Entitlement>, req: Request, now: Instant,
                     fields: Fields, engine: Engine)
    requires Authorized(proxy, token, now) && Entitled(entitlement, req.ecosystem) && req.version != ""
    ensures var outcome := HandleCheck(proxy, token, entitlement, req, now, [], fields, engine);
            outcome.Ok? && outcome.value.verdict == Block && outcome.value.reason == "no_policy"
  {
  }

  lemma AllowedWithout(p: Policy, rule: Rule, rb: RuleBinding, b: ProjectBinding, tenant: Id, project: Id, at: Instant,
                       proxy: Proxy, token: Option<Token>, entitlement: Option<Entitlement>, req: Request,
                       fields: Fields, engine: Engine)
    requires OptedOut(p, rule, rb, b, tenant, project, at)
    requires Evaluate(rule.condition, fields, engine.js) == Result(false)
    requires Authorized(proxy, token, at) && Entitled(entitlement, req.ecosystem) && req.version != ""
    ensures
      var rules := Softening.RulesUnder(OnePolicy(p, rule, rb, b), map[], tenant, project, at);
      var outcome := HandleCheck(proxy, token, entitlement, req, at, rules, fields, engine);
      outcome.Ok? && outcome.value.verdict == Allow
  {
    var rules := Softening.RulesUnder(OnePolicy(p, rule, rb, b), map[], tenant, project, at);
    PolicyAppliesWithout(p, rule, rb, b, tenant, project, at);
    forall r | r in rules ensures r.condition == rule.condition {
      ConditionKept(p, rule, rb, b, tenant, project, at, r);
    }
    UnmatchedRulesAllow(proxy, token, entitlement, req, at, rules, rule.condition, fields, engine);
  }

  lemma UnmatchedRulesAllow(proxy: Proxy, token: Option<Token>, entitlement: Option<Entitlement>, req: Request,
                            now: Instant, rules: seq<ResolvedRule>, condition: Json, fields: Fields, engine: Engine)
    requires rules != [] && forall r :: r in rules ==> r.condition == condition
    requires Evaluate(condition, fields, engine.js) == Result(false)
    requires Authorized(proxy, token, now) && Entitled(entitlement, req.ecosystem) && req.version != ""
    ensures var outcome := HandleCheck(proxy, token, entitlement, req, now, rules, fields, engine);
            outcome.Ok? && outcome.value.verdict == Allow
  {
    forall r | r in rules ensures !Blocks(engine, fields)(r) && Outcome(engine, fields)(r) != Throws {
      BlocksMeans(engine, fields, r);
    }
    AllowIff(proxy, token, entitlement, req, now, rules, fields, engine);
  }
}
