/**
 What copied templates decide, compared with the templates themselves. The copy of a rule starts a
 window of its own (services/api/src/bootstrap/tenant-provisioning.ts), so it also brings back rules
 that the platform has let expire.
 */
module CopyDecisions {
  import opened Common
  import opened Sorting
  import opened Expression
  import opened PolicyData
  import opened Effective
  import opened Decision
  import opened Meaning
  import opened Provisioning

  function ExpiredBinding(db: Database, p: Policy, now: Instant): RuleBinding -> seq<RuleMeaning> {
    (rb: RuleBinding) =>
      if rb.policyId == p.id && rb.enabled && rb.ruleId in db.rules
         && !InForce(db.rules[rb.ruleId].effectiveFrom, db.rules[rb.ruleId].effectiveTo, now)
      then [PlainMeaning(p, db.rules[rb.ruleId])] else []
  }

  /** A policy's enabled rules that are outside their effective windows. */
  function ExpiredMeanings(db: Database, now: Instant): Policy -> seq<RuleMeaning> {
    (p: Policy) => FlatMap(db.ruleBindings, ExpiredBinding(db, p, now))
  }

  function ExpiredRules(db: Database, templates: seq<Policy>, now: Instant): seq<RuleMeaning> {
    FlatMap(templates, ExpiredMeanings(db, now))
  }

  /** The meaning of an enabled rule of the template that is not in force. */
  predicate MeansExpired(db: Database, t: Policy, rb: RuleBinding, now: Instant, m: RuleMeaning) {
    && rb.policyId == t.id && rb.enabled && rb.ruleId in db.rules
    && !InForce(db.rules[rb.ruleId].effectiveFrom, db.rules[rb.ruleId].effectiveTo, now)
    && m == PlainMeaning(t, db.rules[rb.ruleId])
  }

  lemma ExpiredOfPolicy(db: Database, t: Policy, now: Instant, m: RuleMeaning)
    ensures m in ExpiredMeanings(db, now)(t) <==> exists rb :: rb in db.ruleBindings && MeansExpired(db, t, rb, now, m)
  {
    FlatMapMember(db.ruleBindings, ExpiredBinding(db, t, now), m);
    if rb :| rb in db.ruleBindings && MeansExpired(db, t, rb, now, m) {
      var j :| 0 <= j < |db.ruleBindings| && db.ruleBindings[j] == rb;
      assert m in ExpiredBinding(db, t, now)(db.ruleBindings[j]);
    }
    if j :| 0 <= j < |db.ruleBindings| && m in ExpiredBinding(db, t, now)(db.ruleBindings[j]) {
      assert MeansExpired(db, t, db.ruleBindings[j], now, m);
    }
  }

  lemma ExpiredMember(db: Database, templates: seq<Policy>, now: Instant, m: RuleMeaning)
    ensures m in ExpiredRules(db, templates, now) <==>
            exists t, rb :: t in templates && rb in db.ruleBindings && MeansExpired(db, t, rb, now, m)
  {
    FlatMapMember(templates, ExpiredMeanings(db, now), m);
    if i :| 0 <= i < |templates| && m in ExpiredMeanings(db, now)(templates[i]) {
      ExpiredOfPolicy(db, templates[i], now, m);
    }
    if t, rb :| t in templates && rb in db.ruleBindings && MeansExpired(db, t, rb, now, m) {
      ExpiredOfPolicy(db, t, now, m);
      var i :| 0 <= i < |templates| && templates[i] == t;
    }
  }

  lemma EnabledIsLiveOrExpired(db: Database, templates: seq<Policy>, now: Instant)
    ensures multiset(FlatMap(templates, EnabledMeanings(db))) ==
            multiset(FlatMap(templates, LiveMeanings(db, now))) + multiset(ExpiredRules(db, templates, now))
  {
    forall p ensures multiset(EnabledMeanings(db)(p)) ==
                     multiset(LiveMeanings(db, now)(p)) + multiset(ExpiredMeanings(db, now)(p)) {
      FlatMapSum(db.ruleBindings, EnabledBinding(db, p), LiveBinding(db, p, now), ExpiredBinding(db, p, now));
    }
    FlatMapSum(templates, EnabledMeanings(db), LiveMeanings(db, now), ExpiredMeanings(db, now));
  }

  // ----- more rules -----

  /** The same error or none, and then the same verdict, codes and modes. */
  ghost predicate Alike(rules: seq<ResolvedRule>, others: seq<ResolvedRule>, fields: Fields, ttl: int,
                        serveMode: ServeMode, engine: Engine) {
    var x, y := Evaluated(rules, fields, ttl, serveMode, engine), Evaluated(others, fields, ttl, serveMode, engine);
    && x.Ok? == y.Ok?
    && (x.Ok? ==>
          && x.value.verdict == y.value.verdict
          && multiset(Map(x.value.violations, ReportedOf)) == multiset(Map(y.value.violations, ReportedOf)))
  }

  /** The rule neither throws nor reports. */
  predicate Silent(m: RuleMeaning, fields: Fields, engine: Engine) {
    Evaluate(m.condition, fields, engine.js) != Throws && !MeaningReports(engine, fields)(m)
  }

  function Representatives(ms: seq<RuleMeaning>): seq<ResolvedRule> { Map(ms, Representative) }

  lemma RepresentativesMean(rules: seq<ResolvedRule>, ms: seq<RuleMeaning>)
    ensures Map(rules + Representatives(ms), MeaningOf) == Map(rules, MeaningOf) + ms
  {
    MapAppend(rules, Representatives(ms), MeaningOf);
  }

  lemma MoreThrow(rules: seq<ResolvedRule>, more: seq<ResolvedRule>, fields: Fields, engine: Engine)
    ensures SomeThrows(rules + more, fields, engine) <==>
            SomeThrows(rules, fields, engine) || SomeThrows(more, fields, engine)
  {
    if r :| r in rules && Outcome(engine, fields)(r) == Throws {
      assert r in rules + more;
    }
    if r :| r in more && Outcome(engine, fields)(r) == Throws {
      assert r in rules + more;
    }
  }

  lemma MoreReported(rules: seq<ResolvedRule>, more: seq<ResolvedRule>, fields: Fields, ttl: int, serveMode: ServeMode,
                     engine: Engine)
    ensures Map(Decide(rules + more, fields, ttl, serveMode, engine).violations, ReportedOf) ==
            Map(Decide(rules, fields, ttl, serveMode, engine).violations, ReportedOf) +
            Map(Decide(more, fields, ttl, serveMode, engine).violations, ReportedOf)
  {
    DecidedViolations(rules + more, fields, ttl, serveMode, engine);
    DecidedViolations(rules, fields, ttl, serveMode, engine);
    DecidedViolations(more, fields, ttl, serveMode, engine);
    FilterAppend(rules, more, Reports(engine, fields));
    MapAppend(Filter(rules, Reports(engine, fields)), Filter(more, Reports(engine, fields)),
              ToViolation(engine, fields));
    MapAppend(Decide(rules, fields, ttl, serveMode, engine).violations,
              Decide(more, fields, ttl, serveMode, engine).violations, ReportedOf);
  }

  /** What is not reported does not block. */
  lemma UnreportedVerdict(rules: seq<ResolvedRule>, more: seq<ResolvedRule>, fields: Fields, ttl: int,
                          serveMode: ServeMode, engine: Engine)
    requires forall r :: r in more ==> !Reports(engine, fields)(r)
    ensures Decide(rules + more, fields, ttl, serveMode, engine).verdict ==
            Decide(rules, fields, ttl, serveMode, engine).verdict
  {
    forall r | r in more ensures !Blocks(engine, fields)(r) {
      ReportsMeans(engine, fields, r);
      BlocksMeans(engine, fields, r);
    }
    DecidedCounts(rules + more, fields, ttl, serveMode, engine);
    DecidedCounts(rules, fields, ttl, serveMode, engine);
    CountAppend(rules, more, Blocks(engine, fields));
    FilterNone(more, Blocks(engine, fields));
  }

  lemma NothingReported(more: seq<ResolvedRule>, fields: Fields, ttl: int, serveMode: ServeMode, engine: Engine)
    ensures |Decide(more, fields, ttl, serveMode, engine).violations| == 0 <==>
            forall r :: r in more ==> !Reports(engine, fields)(r)
  {
    DecidedViolations(more, fields, ttl, serveMode, engine);
    var reported := Filter(more, Reports(engine, fields));
    assert reported == [] <==> forall r :: r !in reported by {
      if reported != [] {
        assert reported[0] in reported;
      }
    }
  }

  lemma SumIsLeft<T>(a: multiset<T>, b: seq<T>)
    ensures a + multiset(b) == a <==> b == []
  {
    assert |a + multiset(b)| == |a| + |multiset(b)| && |multiset(b)| == |b|;
  }

  /** More rules decide alike exactly if the first ones throw anyway, or none of the others throws or reports. */
  lemma MoreRulesAlikeIff(rules: seq<ResolvedRule>, more: seq<ResolvedRule>, fields: Fields, ttl: int,
                          serveMode: ServeMode, engine: Engine)
    ensures Alike(rules + more, rules, fields, ttl, serveMode, engine) <==>
            || SomeThrows(rules, fields, engine)
            || (!SomeThrows(more, fields, engine) && forall r :: r in more ==> !Reports(engine, fields)(r))
  {
    EvaluatedIsDecided(rules + more, fields, ttl, serveMode, engine);
    EvaluatedIsDecided(rules, fields, ttl, serveMode, engine);
    MoreThrow(rules, more, fields, engine);
    MoreReported(rules, more, fields, ttl, serveMode, engine);
    NothingReported(more, fields, ttl, serveMode, engine);
    SumIsLeft(multiset(Map(Decide(rules, fields, ttl, serveMode, engine).violations, ReportedOf)),
              Map(Decide(more, fields, ttl, serveMode, engine).violations, ReportedOf));
    if forall r :: r in more ==> !Reports(engine, fields)(r) {
      UnreportedVerdict(rules, more, fields, ttl, serveMode, engine);
    }
  }

  lemma SilentRepresentatives(ms: seq<RuleMeaning>, fields: Fields, engine: Engine)
    ensures (!SomeThrows(Representatives(ms), fields, engine)
             && forall r :: r in Representatives(ms) ==> !Reports(engine, fields)(r)) <==>
            forall m :: m in ms ==> Silent(m, fields, engine)
  {
    var reps := Representatives(ms);
    forall m | m in ms ensures Representative(m) in reps {
      var i :| 0 <= i < |ms| && ms[i] == m;
      assert reps[i] == Representative(m);
    }
    forall r | r in reps ensures exists m :: m in ms && r == Representative(m) {
      var i :| 0 <= i < |reps| && reps[i] == r;
      assert ms[i] in ms;
    }
  }

  /** Rules that mean what others mean, and some more. */
  lemma MoreMeaningsAlikeIff(rules: seq<ResolvedRule>, others: seq<ResolvedRule>, more: seq<RuleMeaning>,
                             fields: Fields, ttl: int, serveMode: ServeMode, engine: Engine)
    requires multiset(Map(rules, MeaningOf)) == multiset(Map(others, MeaningOf)) + multiset(more)
    ensures Alike(rules, others, fields, ttl, serveMode, engine) <==>
            || SomeThrows(others, fields, engine)
            || forall m :: m in more ==> Silent(m, fields, engine)
  {
    var all := others + Representatives(more);
    RepresentativesMean(others, more);
    SameMeaningsSameDecision(rules, all, fields, ttl, serveMode, engine);
    MoreRulesAlikeIff(others, Representatives(more), fields, ttl, serveMode, engine);
    SilentRepresentatives(more, fields, engine);
  }

  // ----- copies -----

  /** The copies mean what the templates mean, and the expired rules besides. */
  lemma CopyMeansExpiredToo(s: Store, platform: Id, target: Id, now: Instant, platformProject: Id, project: Id,
                            at: Instant)
    requires FreshTenant(s, platform, target, Templates(s.db, platform, now), now) && now <= at
    requires forall b :: b in s.db.projectBindings ==> b.tenantId != target
    requires InheritsEverything(s.db, platform, platformProject, now)
    ensures
      var db' := CopyTemplates(s, platform, target, now).store.db;
      multiset(Map(EffectiveSnapshot(db', target, project, at).allRules, MeaningOf)) ==
      multiset(Map(EffectiveSnapshot(s.db, platform, platformProject, now).allRules, MeaningOf)) +
      multiset(ExpiredRules(s.db, Templates(s.db, platform, now), now))
  {
    var templates := Templates(s.db, platform, now);
    var db' := CopyTemplates(s, platform, target, now).store.db;
    CopyAllMeans(s, platform, target, templates, now, at);
    CopiesInherited(s, platform, target, templates, now, project, at);
    SnapshotMeansTenant(db', target, project, at);
    SnapshotMeansTenant(s.db, platform, platformProject, now);
    SortFlatMap(Filter(s.db.policies, IsGlobalAt(platform, now)), PolicyPriority(), LiveMeanings(s.db, now));
    EnabledIsLiveOrExpired(s.db, templates, now);
  }

  /**
   On a field map, copies and templates decide alike exactly if some template rule throws there, or no
   enabled rule outside its window throws or reports there.
   */
  lemma CopyDecidesAlikeIff(s: Store, platform: Id, target: Id, now: Instant, platformProject: Id, project: Id,
                            at: Instant, fields: Fields, ttl: int, serveMode: ServeMode, engine: Engine)
    requires FreshTenant(s, platform, target, Templates(s.db, platform, now), now) && now <= at
    requires forall b :: b in s.db.projectBindings ==> b.tenantId != target
    requires InheritsEverything(s.db, platform, platformProject, now)
    ensures
      var db' := CopyTemplates(s, platform, target, now).store.db;
      var templateRules := EffectiveSnapshot(s.db, platform, platformProject, now).allRules;
      var copiedRules := EffectiveSnapshot(db', target, project, at).allRules;
      Alike(copiedRules, templateRules, fields, ttl, serveMode, engine) <==>
      || SomeThrows(templateRules, fields, engine)
      || ExpiredAreSilent(s.db, Templates(s.db, platform, now), now, fields, engine)
  {
    var templates := Templates(s.db, platform, now);
    CopyMeansExpiredToo(s, platform, target, now, platformProject, project, at);
    MoreMeaningsAlikeIff(
      EffectiveSnapshot(CopyTemplates(s, platform, target, now).store.db, target, project, at).allRules,
      EffectiveSnapshot(s.db, platform, platformProject, now).allRules,
      ExpiredRules(s.db, templates, now), fields, ttl, serveMode, engine);
    SilentIffExpired(s.db, templates, now, fields, engine);
  }

  /** No enabled rule of the templates that is outside its window throws or reports. */
  ghost predicate ExpiredAreSilent(db: Database, templates: seq<Policy>, now: Instant, fields: Fields, engine: Engine) {
    forall t, rb, m :: t in templates && rb in db.ruleBindings && MeansExpired(db, t, rb, now, m) ==>
      Silent(m, fields, engine)
  }

  lemma SilentIffExpired(db: Database, templates: seq<Policy>, now: Instant, fields: Fields, engine: Engine)
    ensures (forall m :: m in ExpiredRules(db, templates, now) ==> Silent(m, fields, engine)) <==>
            ExpiredAreSilent(db, templates, now, fields, engine)
  {
    forall m { ExpiredMember(db, templates, now, m); }
  }

  // ----- a rule that has expired -----

  /** A platform with one template, whose one rule is bound and enabled but no longer in force. */
  function OneTemplate(p: Policy, rule: Rule, rb: RuleBinding, nextId: Id): Store {
    Store(Database([p], [], map[rb.ruleId := rule], [rb]), nextId)
  }

  ghost predicate Expired(p: Policy, rule: Rule, rb: RuleBinding, platform: Id, now: Instant) {
    && IsGlobalPolicy(p, platform, now)
    && rb.policyId == p.id && rb.enabled && rb.tenantId == platform && rule.tenantId == platform
    && !InForce(rule.effectiveFrom, rule.effectiveTo, now)
  }

  lemma OneTemplateMeans(p: Policy, rule: Rule, rb: RuleBinding, nextId: Id, platform: Id, now: Instant)
    requires Expired(p, rule, rb, platform, now)
    ensures var db := OneTemplate(p, rule, rb, nextId).db;
            && Templates(db, platform, now) == [p]
            && TenantMeanings(db, platform, now) == []
            && ExpiredRules(db, [p], now) == [PlainMeaning(p, rule)]
  {
    var db := OneTemplate(p, rule, rb, nextId).db;
    FilterAll([p], IsGlobalAt(platform, now));
    SortOne(p);
    FlatMapOne(p, LiveMeanings(db, now));
    FlatMapOne(p, ExpiredMeanings(db, now));
    FlatMapOne(rb, LiveBinding(db, p, now));
    FlatMapOne(rb, ExpiredBinding(db, p, now));
  }

  lemma FlatMapOne<T, U>(x: T, f: T -> seq<U>)
    ensures FlatMap([x], f) == f(x)
  {
    assert FlatMap([x], f) == f(x) + FlatMap([], f);
  }

  lemma SortOne(p: Policy)
    ensures StableSort([p], PolicyPriority()) == [p]
  {
    SortPermutes([p], PolicyPriority());
    SameMultiset(StableSort([p], PolicyPriority()), [p]);
    assert p in [p];
  }

  lemma NothingElse(p: Policy, rule: Rule, rb: RuleBinding, nextId: Id, platform: Id, project: Id, now: Instant)
    requires Expired(p, rule, rb, platform, now)
    ensures var db := OneTemplate(p, rule, rb, nextId).db;
            && InheritsEverything(db, platform, project, now)
            && EffectiveSnapshot(db, platform, project, now).allRules == []
  {
    var db := OneTemplate(p, rule, rb, nextId).db;
    FilterNone([p], IsProjectAt(platform, project, now));
    SortPermutes(Filter([p], IsProjectAt(platform, project, now)), PolicyPriority());
    SnapshotMeansTenant(db, platform, project, now);
    OneTemplateMeans(p, rule, rb, nextId, platform, now);
    SameMultiset(Map(EffectiveSnapshot(db, platform, project, now).allRules, MeaningOf), []);
  }

  /** A rule that the platform has let expire blocks for the new tenant, where the platform's own project is allowed. */
  lemma ExpiredRuleBlocksInCopy(p: Policy, rule: Rule, rb: RuleBinding, nextId: Id, platform: Id, target: Id,
                                now: Instant, platformProject: Id, project: Id, at: Instant, fields: Fields, ttl: int,
                                serveMode: ServeMode, engine: Engine)
    requires Expired(p, rule, rb, platform, now) && Numbered(OneTemplate(p, rule, rb, nextId))
    requires platform != target && now <= at
    requires MeaningBlocks(engine, fields)(PlainMeaning(p, rule))
    ensures
      var s := OneTemplate(p, rule, rb, nextId);
      var db' := CopyTemplates(s, platform, target, now).store.db;
      var template := Evaluated(EffectiveSnapshot(s.db, platform, platformProject, now).allRules, fields, ttl,
                                serveMode, engine);
      var copy := Evaluated(EffectiveSnapshot(db', target, project, at).allRules, fields, ttl, serveMode, engine);
      && template.Ok? && template.value.verdict == Allow
      && copy.Ok? && copy.value.verdict == Block
  {
    var s := OneTemplate(p, rule, rb, nextId);
    NothingElse(p, rule, rb, nextId, platform, platformProject, now);
    NoRulesAllow(fields, ttl, serveMode, engine);
    OneCopyMeans(p, rule, rb, nextId, platform, target, now, platformProject, project, at);
    OneBlocks(EffectiveSnapshot(CopyTemplates(s, platform, target, now).store.db, target, project, at).allRules,
              PlainMeaning(p, rule), fields, ttl, serveMode, engine);
  }

  lemma NoRulesAllow(fields: Fields, ttl: int, serveMode: ServeMode, engine: Engine)
    ensures var e := Evaluated([], fields, ttl, serveMode, engine); e.Ok? && e.value.verdict == Allow
  {
  }

  lemma OneCopyMeans(p: Policy, rule: Rule, rb: RuleBinding, nextId: Id, platform: Id, target: Id, now: Instant,
                     platformProject: Id, project: Id, at: Instant)
    requires Expired(p, rule, rb, platform, now) && Numbered(OneTemplate(p, rule, rb, nextId))
    requires platform != target && now <= at
    ensures var db' := CopyTemplates(OneTemplate(p, rule, rb, nextId), platform, target, now).store.db;
            multiset(Map(EffectiveSnapshot(db', target, project, at).allRules, MeaningOf)) ==
            multiset{PlainMeaning(p, rule)}
  {
    OneTemplateMeans(p, rule, rb, nextId, platform, now);
    NothingElse(p, rule, rb, nextId, platform, platformProject, now);
    CopyMeansExpiredToo(OneTemplate(p, rule, rb, nextId), platform, target, now, platformProject, project, at);
  }

  lemma OneBlocks(rules: seq<ResolvedRule>, m: RuleMeaning, fields: Fields, ttl: int, serveMode: ServeMode,
                  engine: Engine)
    requires multiset(Map(rules, MeaningOf)) == multiset{m} && MeaningBlocks(engine, fields)(m)
    ensures var e := Evaluated(rules, fields, ttl, serveMode, engine); e.Ok? && e.value.verdict == Block
  {
    var one := [Representative(m)];
    assert Map(one, MeaningOf) == [m];
    SameMeaningsSameDecision(rules, one, fields, ttl, serveMode, engine);
    BlocksMeans(engine, fields, Representative(m));
    assert Representative(m) in one;
    BlockIff(one, fields, ttl, serveMode, engine);
  }
}
