/**
 What a tenant's global policies mean, apart from ids, names and order: the conditions, actions and
 modes of the rules they put in force. Used to compare platform templates with their copies.
 */
module Meaning {
  import opened Common
  import opened Sorting
  import opened Expression
  import opened PolicyData
  import opened Effective
  import opened Decision
  import Resolution

  datatype RuleMeaning = RuleMeaning(condition: Json, action: Action, mode: string)

  function MeaningOf(r: ResolvedRule): RuleMeaning { RuleMeaning(r.condition, r.action, r.effectiveEnforcementMode) }

  /** What a rule means under a policy that nothing overrides. */
  function PlainMeaning(p: Policy, rule: Rule): RuleMeaning {
    RuleMeaning(rule.condition, rule.action,
                if rule.action.enforcementMode.Some? then rule.action.enforcementMode.value else p.enforcementMode)
  }

  function LiveBinding(db: Database, p: Policy, at: Instant): RuleBinding -> seq<RuleMeaning> {
    (rb: RuleBinding) =>
      if rb.policyId == p.id && rb.enabled && rb.ruleId in db.rules
         && InForce(db.rules[rb.ruleId].effectiveFrom, db.rules[rb.ruleId].effectiveTo, at)
      then [PlainMeaning(p, db.rules[rb.ruleId])] else []
  }

  /** The rules that a policy has in force, in storage order. */
  function LiveMeanings(db: Database, at: Instant): Policy -> seq<RuleMeaning> {
    (p: Policy) => FlatMap(db.ruleBindings, LiveBinding(db, p, at))
  }

  function TenantMeanings(db: Database, tenant: Id, at: Instant): seq<RuleMeaning> {
    FlatMap(Filter(db.policies, IsGlobalAt(tenant, at)), LiveMeanings(db, at))
  }

  /** The project has neither policies nor current bindings of its own. */
  predicate InheritsEverything(db: Database, tenant: Id, project: Id, at: Instant) {
    CurrentBindings(db, tenant, project, at) == map[] && ProjectPolicies(db, tenant, project, at) == []
  }

  function Plain(p: Policy): EffectivePolicy { EffectivePolicy(p, Global, None) }

  function EntryMeanings(rows: seq<JoinedRow>): EffectivePolicy -> seq<RuleMeaning> {
    (e: EffectivePolicy) => Map(RulesOf(rows)(e), MeaningOf)
  }

  function PolicyMeanings(rows: seq<JoinedRow>): Policy -> seq<RuleMeaning> {
    (p: Policy) => EntryMeanings(rows)(Plain(p))
  }

  function Singleton(r: ResolvedRule): seq<RuleMeaning> { [MeaningOf(r)] }

  lemma MapIsFlatMap(rules: seq<ResolvedRule>)
    ensures Map(rules, MeaningOf) == FlatMap(rules, Singleton)
  {
    MapAsFlatMap(rules, MeaningOf, Singleton);
  }

  function RowMeaning(p: Policy): JoinedRow -> seq<RuleMeaning> { (row: JoinedRow) => [PlainMeaning(p, row.rule)] }

  function OwnMeaning(p: Policy): JoinedRow -> seq<RuleMeaning> {
    (row: JoinedRow) => if row.policyId == p.id then [PlainMeaning(p, row.rule)] else []
  }

  function OwnLiveMeaning(p: Policy, policyIds: seq<Id>, at: Instant): JoinedRow -> seq<RuleMeaning> {
    (row: JoinedRow) => if row.policyId in policyIds && IsLive(row, at) then OwnMeaning(p)(row) else []
  }

  function Joined(db: Database): seq<JoinedRow> { FlatMap(db.ruleBindings, Join(db)) }

  lemma RowMeansOneRule(p: Policy, row: JoinedRow)
    ensures RowMeaning(p)(row) == FlatMap(ResolveRows(Plain(p))(row), Singleton)
  {
    var r := ResolveRow(Plain(p), row);
    assert ResolveRows(Plain(p))(row) == [r];
    assert FlatMap([r], Singleton) == Singleton(r) + FlatMap([], Singleton);
    assert MeaningOf(r) == PlainMeaning(p, row.rule);
  }

  lemma MeaningsOfRows(rows: seq<JoinedRow>, p: Policy)
    ensures PolicyMeanings(rows)(p) == FlatMap(rows, OwnMeaning(p))
  {
    MapIsFlatMap(RulesOf(rows)(Plain(p)));
    forall row { RowMeansOneRule(p, row); }
    FlatMapCompose(RowsOf(rows, p.id), ResolveRows(Plain(p)), Singleton, RowMeaning(p));
    forall row: JoinedRow ensures OwnMeaning(p)(row) == if OwnedBy(p.id)(row) then RowMeaning(p)(row) else [] {
    }
    FlatMapFilter(rows, OwnedBy(p.id), RowMeaning(p), OwnMeaning(p));
    assert PolicyMeanings(rows)(p) == EntryMeanings(rows)(Plain(p));
    assert EntryMeanings(rows)(Plain(p)) == Map(RulesOf(rows)(Plain(p)), MeaningOf);
    assert RulesOf(rows)(Plain(p)) == FlatMap(RowsOf(rows, p.id), ResolveRows(Plain(p)));
  }

  lemma MeaningsOfJoin(db: Database, p: Policy, policyIds: seq<Id>, at: Instant)
    requires p.id in policyIds
    ensures FlatMap(Joined(db), OwnLiveMeaning(p, policyIds, at)) == LiveMeanings(db, at)(p)
  {
    forall rb | rb in db.ruleBindings
      ensures LiveBinding(db, p, at)(rb) == FlatMap(Join(db)(rb), OwnLiveMeaning(p, policyIds, at))
    {
      if rb.ruleId in db.rules {
        var row := JoinedRow(rb.id, rb.policyId, rb.enabled, rb.orderIndex, db.rules[rb.ruleId]);
        assert Join(db)(rb) == [row];
        assert FlatMap([row], OwnLiveMeaning(p, policyIds, at))
               == OwnLiveMeaning(p, policyIds, at)(row) + FlatMap([], OwnLiveMeaning(p, policyIds, at));
        assert OwnMeaning(p)(row) == if row.policyId == p.id then [PlainMeaning(p, row.rule)] else [];
      }
    }
    FlatMapCompose(db.ruleBindings, Join(db), OwnLiveMeaning(p, policyIds, at), LiveBinding(db, p, at));
  }

  /** What an unbound policy resolves to is what its live rules mean. */
  lemma PolicyMeansItsLiveRules(db: Database, p: Policy, policyIds: seq<Id>, at: Instant)
    requires p.id in policyIds
    ensures multiset(PolicyMeanings(BindingRows(db, policyIds, at))(p)) == multiset(LiveMeanings(db, at)(p))
  {
    var wanted := Filter(Joined(db), Wanted(policyIds, at));
    MeaningsOfRows(BindingRows(db, policyIds, at), p);
    SortFlatMap(wanted, RowOrder(), OwnMeaning(p));
    FlatMapFilter(Joined(db), Wanted(policyIds, at), OwnMeaning(p), OwnLiveMeaning(p, policyIds, at));
    MeaningsOfJoin(db, p, policyIds, at);
  }

  /** A project that inherits everything sees exactly what its tenant's live global rules mean. */
  lemma SnapshotMeansTenant(db: Database, tenant: Id, project: Id, at: Instant)
    requires InheritsEverything(db, tenant, project, at)
    ensures multiset(Map(EffectiveSnapshot(db, tenant, project, at).allRules, MeaningOf)) ==
            multiset(TenantMeanings(db, tenant, at))
  {
    var entries := Entries(db, map[], tenant, project, at);
    var rows := BindingRows(db, PolicyIds(entries), at);
    var rules := FlatMap(entries, RulesOf(rows));
    MapIsFlatMap(StableSort(rules, RuleOrder()));
    SortFlatMap(rules, RuleOrder(), Singleton);
    forall e { MapIsFlatMap(RulesOf(rows)(e)); }
    FlatMapCompose(entries, RulesOf(rows), Singleton, EntryMeanings(rows));
    EntriesMeanPolicies(db, tenant, project, at, rows);
    GlobalsMeanTenant(db, tenant, project, at);
  }

  lemma EntriesMeanPolicies(db: Database, tenant: Id, project: Id, at: Instant, rows: seq<JoinedRow>)
    requires ProjectPolicies(db, tenant, project, at) == []
    ensures multiset(FlatMap(Entries(db, map[], tenant, project, at), EntryMeanings(rows))) ==
            multiset(FlatMap(Filter(db.policies, IsGlobalAt(tenant, at)), PolicyMeanings(rows)))
  {
    var globals := GlobalPolicies(db, tenant, at);
    var listed := FlatMap(globals, GlobalEntry(map[]));
    var ours := Filter(db.policies, IsGlobalAt(tenant, at));
    assert listed + Map(ProjectPolicies(db, tenant, project, at), ProjectEntry) == listed;
    SortFlatMap(listed, EntryPriority(), EntryMeanings(rows));
    forall p | p in globals ensures PolicyMeanings(rows)(p) == FlatMap(GlobalEntry(map[])(p), EntryMeanings(rows)) {
      assert GlobalEntry(map[])(p) == [Plain(p)];
      assert FlatMap([Plain(p)], EntryMeanings(rows))
             == EntryMeanings(rows)(Plain(p)) + FlatMap([], EntryMeanings(rows));
    }
    FlatMapCompose(globals, GlobalEntry(map[]), EntryMeanings(rows), PolicyMeanings(rows));
    SortFlatMap(ours, PolicyPriority(), PolicyMeanings(rows));
  }

  lemma GlobalsMeanTenant(db: Database, tenant: Id, project: Id, at: Instant)
    ensures var rows := BindingRows(db, PolicyIds(Entries(db, map[], tenant, project, at)), at);
            multiset(FlatMap(Filter(db.policies, IsGlobalAt(tenant, at)), PolicyMeanings(rows))) ==
            multiset(TenantMeanings(db, tenant, at))
  {
    var entries := Entries(db, map[], tenant, project, at);
    var ids := PolicyIds(entries);
    var globals := Filter(db.policies, IsGlobalAt(tenant, at));
    forall p | p in globals
      ensures multiset(PolicyMeanings(BindingRows(db, ids, at))(p)) == multiset(LiveMeanings(db, at)(p))
    {
      Resolution.EntryMember(db, map[], tenant, project, at, Plain(p));
      var i :| 0 <= i < |entries| && entries[i] == Plain(p);
      assert ids[i] == p.id;
      PolicyMeansItsLiveRules(db, p, ids, at);
    }
    FlatMapCongruent(globals, PolicyMeanings(BindingRows(db, ids, at)), LiveMeanings(db, at));
  }

  // ----- rules that mean the same decide the same -----

  datatype Reported = Reported(code: string, mode: string)

  function ReportedOf(v: Violation): Reported { Reported(v.code, v.enforcementMode) }

  function Representative(m: RuleMeaning): ResolvedRule {
    ResolvedRule(0, 0, 0, 0, None, "", "", m.condition, m.action, m.mode, 0, 0)
  }

  function AsReported(m: RuleMeaning): Reported { Reported(GetOr(m.action.code, "RULE_MATCHED"), m.mode) }

  lemma MapCons<T, U>(x: T, s: seq<T>, f: T -> U)
    ensures Map([x] + s, f) == [f(x)] + Map(s, f)
  {
  }

  lemma {:induction false} FilterThenMap<T(!new), U(!new)>(s: seq<T>, f: T -> U, p: T -> bool, q: U -> bool)
    requires forall x :: x in s ==> p(x) == q(f(x))
    ensures Map(Filter(s, p), f) == Filter(Map(s, f), q)
  {
    if s == [] {
      assert Map(s, f) == [];
    } else {
      FilterThenMap(s[1..], f, p, q);
      assert s == [s[0]] + s[1..];
      MapCons(s[0], s[1..], f);
      MapCons(s[0], Filter(s[1..], p), f);
      assert Map(s, f)[1..] == Map(s[1..], f);
    }
  }

  function MeaningBlocks(engine: Engine, fields: Fields): RuleMeaning -> bool {
    (m: RuleMeaning) => Blocks(engine, fields)(Representative(m))
  }
  function MeaningReports(engine: Engine, fields: Fields): RuleMeaning -> bool {
    (m: RuleMeaning) => Reports(engine, fields)(Representative(m))
  }

  lemma MeaningDecides(r: ResolvedRule, engine: Engine, fields: Fields)
    ensures Blocks(engine, fields)(r) == MeaningBlocks(engine, fields)(MeaningOf(r))
    ensures Reports(engine, fields)(r) == MeaningReports(engine, fields)(MeaningOf(r))
    ensures ReportedOf(ToViolation(engine, fields)(r)) == AsReported(MeaningOf(r))
  {
    BlocksMeans(engine, fields, r);
    BlocksMeans(engine, fields, Representative(MeaningOf(r)));
    ReportsMeans(engine, fields, r);
    ReportsMeans(engine, fields, Representative(MeaningOf(r)));
  }

  lemma ReportedAlike(reported: seq<ResolvedRule>, fields: Fields, engine: Engine)
    ensures Map(Map(reported, ToViolation(engine, fields)), ReportedOf) == Map(Map(reported, MeaningOf), AsReported)
  {
    forall i | 0 <= i < |reported|
      ensures ReportedOf(ToViolation(engine, fields)(reported[i])) == AsReported(MeaningOf(reported[i]))
    {
      MeaningDecides(reported[i], engine, fields);
    }
  }

  /** The codes and modes of the violations that a rule list reports, from its meanings alone. */
  lemma ReportedFromMeanings(rules: seq<ResolvedRule>, fields: Fields, ttl: int, serveMode: ServeMode, engine: Engine)
    ensures Map(Decide(rules, fields, ttl, serveMode, engine).violations, ReportedOf) ==
            Map(Filter(Map(rules, MeaningOf), MeaningReports(engine, fields)), AsReported)
  {
    DecidedViolations(rules, fields, ttl, serveMode, engine);
    ReportedAlike(Filter(rules, Reports(engine, fields)), fields, engine);
    forall r { MeaningDecides(r, engine, fields); }
    FilterThenMap(rules, MeaningOf, Reports(engine, fields), MeaningReports(engine, fields));
  }

  lemma ThrowsFromMeanings(rules: seq<ResolvedRule>, others: seq<ResolvedRule>, fields: Fields, engine: Engine)
    requires multiset(Map(rules, MeaningOf)) == multiset(Map(others, MeaningOf))
    requires SomeThrows(rules, fields, engine)
    ensures SomeThrows(others, fields, engine)
  {
    var a, b := Map(rules, MeaningOf), Map(others, MeaningOf);
    SameMultiset(a, b);
    var r :| r in rules && Outcome(engine, fields)(r) == Throws;
    var i :| 0 <= i < |rules| && rules[i] == r;
    assert a[i] in a;
    var j :| 0 <= j < |b| && b[j] == a[i];
    assert others[j].condition == r.condition;
    assert others[j] in others && Outcome(engine, fields)(others[j]) == Throws;
  }

  lemma EvaluatedIsDecided(rules: seq<ResolvedRule>, fields: Fields, ttl: int, serveMode: ServeMode, engine: Engine)
    ensures var e := Evaluated(rules, fields, ttl, serveMode, engine);
            && (e.Ok? <==> !SomeThrows(rules, fields, engine))
            && (e.Ok? ==> e.value == Decide(rules, fields, ttl, serveMode, engine))
  {
  }

  ghost predicate SomeThrows(rules: seq<ResolvedRule>, fields: Fields, engine: Engine) {
    exists r :: r in rules && Outcome(engine, fields)(r) == Throws
  }

  /** Rule lists of the same meanings give the same verdict and report the same codes and modes, on every field map. */
  lemma SameMeaningsSameDecision(rules: seq<ResolvedRule>, others: seq<ResolvedRule>, fields: Fields, ttl: int,
                                 serveMode: ServeMode, engine: Engine)
    requires multiset(Map(rules, MeaningOf)) == multiset(Map(others, MeaningOf))
    ensures
      var x, y := Evaluated(rules, fields, ttl, serveMode, engine), Evaluated(others, fields, ttl, serveMode, engine);
      && x.Ok? == y.Ok?
      && (x.Ok? ==>
            && x.value.verdict == y.value.verdict
            && multiset(Map(x.value.violations, ReportedOf)) == multiset(Map(y.value.violations, ReportedOf)))
  {
    SameMeaningsSameThrow(rules, others, fields, engine);
    EvaluatedIsDecided(rules, fields, ttl, serveMode, engine);
    EvaluatedIsDecided(others, fields, ttl, serveMode, engine);
    SameMeaningsSameVerdict(rules, others, fields, ttl, serveMode, engine);
    SameMeaningsSameReport(rules, others, fields, ttl, serveMode, engine);
  }

  lemma SameMeaningsSameThrow(rules: seq<ResolvedRule>, others: seq<ResolvedRule>, fields: Fields, engine: Engine)
    requires multiset(Map(rules, MeaningOf)) == multiset(Map(others, MeaningOf))
    ensures SomeThrows(rules, fields, engine) <==> SomeThrows(others, fields, engine)
  {
    if SomeThrows(rules, fields, engine) {
      ThrowsFromMeanings(rules, others, fields, engine);
    }
    if SomeThrows(others, fields, engine) {
      ThrowsFromMeanings(others, rules, fields, engine);
    }
  }

  lemma BlockersFromMeanings(rules: seq<ResolvedRule>, fields: Fields, engine: Engine)
    ensures Count(rules, Blocks(engine, fields)) == Count(Map(rules, MeaningOf), MeaningBlocks(engine, fields))
  {
    forall r { MeaningDecides(r, engine, fields); }
    CountMap(rules, MeaningOf, MeaningBlocks(engine, fields), Blocks(engine, fields));
  }

  lemma SameMeaningsSameVerdict(rules: seq<ResolvedRule>, others: seq<ResolvedRule>, fields: Fields, ttl: int,
                                serveMode: ServeMode, engine: Engine)
    requires multiset(Map(rules, MeaningOf)) == multiset(Map(others, MeaningOf))
    ensures Decide(rules, fields, ttl, serveMode, engine).verdict
            == Decide(others, fields, ttl, serveMode, engine).verdict
  {
    BlockersFromMeanings(rules, fields, engine);
    BlockersFromMeanings(others, fields, engine);
    CountPermutes(Map(rules, MeaningOf), Map(others, MeaningOf), MeaningBlocks(engine, fields));
  }

  lemma SameMeaningsSameReport(rules: seq<ResolvedRule>, others: seq<ResolvedRule>, fields: Fields, ttl: int,
                               serveMode: ServeMode, engine: Engine)
    requires multiset(Map(rules, MeaningOf)) == multiset(Map(others, MeaningOf))
    ensures multiset(Map(Decide(rules, fields, ttl, serveMode, engine).violations, ReportedOf)) ==
            multiset(Map(Decide(others, fields, ttl, serveMode, engine).violations, ReportedOf))
  {
    var a, b, reports := Map(rules, MeaningOf), Map(others, MeaningOf), MeaningReports(engine, fields);
    ReportedFromMeanings(rules, fields, ttl, serveMode, engine);
    ReportedFromMeanings(others, fields, ttl, serveMode, engine);
    FilterPermutes(a, b, reports);
    forall v { MapPermutes(Filter(a, reports), Filter(b, reports), AsReported, v); }
  }
}
