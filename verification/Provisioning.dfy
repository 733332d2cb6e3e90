/** Copying platform policy templates to a tenant: services/api/src/bootstrap/tenant-provisioning.ts. */
module Provisioning {
  import opened Common
  import opened Sorting
  import opened Expression
  import opened PolicyData
  import opened Effective
  import opened Decision
  import opened Meaning

  /** The policy tables with the source of fresh UUIDs: every id in use is below nextId. */
  datatype Store = Store(db: Database, nextId: Id)

  datatype TemplateRow = TemplateRow(binding: RuleBinding, rule: Rule)

  function TemplateJoin(db: Database, platform: Id, template: Policy): RuleBinding -> seq<TemplateRow> {
    (rb: RuleBinding) =>
      if rb.tenantId == platform && rb.policyId == template.id && rb.ruleId in db.rules
          && db.rules[rb.ruleId].tenantId == platform
      then [TemplateRow(rb, db.rules[rb.ruleId])] else []
  }

  function TemplateOrder(): (TemplateRow, TemplateRow) -> bool {
    (x: TemplateRow, y: TemplateRow) => x.binding.orderIndex <= y.binding.orderIndex
  }

  /** The rules bound to a template, enabled or not, in force or not. */
  function TemplateRows(db: Database, platform: Id, template: Policy): seq<TemplateRow> {
    StableSort(FlatMap(db.ruleBindings, TemplateJoin(db, platform, template)), TemplateOrder())
  }

  function Templates(db: Database, platform: Id, now: Instant): seq<Policy> {
    StableSort(Filter(db.policies, IsGlobalAt(platform, now)), PolicyPriority())
  }

  /** The tenant already has a policy of this name, in force or not. */
  predicate NameTaken(db: Database, target: Id, name: string) {
    exists p :: p in db.policies && p.tenantId == target && p.projectId == None && p.name == name
  }

  function CopiedPolicy(template: Policy, target: Id, id: Id, now: Instant): Policy {
    Policy(id, id + 1, target, None, template.name, "global", template.status, template.enforcementMode,
           template.priority, now, Forever)
  }

  /** The copy starts a window of its own: the rule's effective window is not looked at. */
  function CopiedRule(rule: Rule, target: Id, id: Id, key: Id, now: Instant): Rule {
    Rule(id, key, target, rule.name, rule.condition, rule.action, now, Forever)
  }

  predicate IsNewRuleId(id: Id, first: Id, n: nat) { first <= id < first + n }

  function CopiedRules(rows: seq<TemplateRow>, target: Id, first: Id, now: Instant): (r: map<Id, Rule>)
    ensures forall id :: id in r <==> IsNewRuleId(id, first, |rows|)
  {
    map id: Id | id < first + |rows| && IsNewRuleId(id, first, |rows|) ::
      CopiedRule(rows[id - first].rule, target, id, id + |rows|, now)
  }

  function CopiedBinding(row: TemplateRow, target: Id, policyId: Id, ruleId: Id, id: Id): RuleBinding {
    RuleBinding(id, target, policyId, ruleId, row.binding.enabled, row.binding.required, row.binding.orderIndex)
  }

  function CopiedBindings(rows: seq<TemplateRow>, target: Id, policyId: Id, first: Id): (r: seq<RuleBinding>)
    ensures forall rb :: rb in r ==>
            rb.policyId == policyId && IsNewRuleId(rb.ruleId, first, |rows|) && rb.id < first + 3 * |rows|
  {
    seq(|rows|, i requires 0 <= i < |rows| =>
      CopiedBinding(rows[i], target, policyId, first + i, first + 2 * |rows| + i))
  }

  function WithCopy(db: Database, target: Id, template: Policy, policyId: Id, rows: seq<TemplateRow>, now: Instant)
      : Database {
    db.(policies := db.policies + [CopiedPolicy(template, target, policyId, now)],
        rules := db.rules + CopiedRules(rows, target, policyId + 2, now),
        ruleBindings := db.ruleBindings + CopiedBindings(rows, target, policyId, policyId + 2))
  }

  /** Ids: the policy's id and key, then the rules' ids and keys, then the bindings' ids. */
  function CopyOne(s: Store, platform: Id, target: Id, template: Policy, now: Instant): Store {
    var rows := TemplateRows(s.db, platform, template);
    var first := s.nextId + 2;
    Store(WithCopy(s.db, target, template, s.nextId, rows, now), first + 3 * |rows|)
  }

  datatype Copying = Copying(store: Store, copied: nat)

  function CopyStep(c: Copying, platform: Id, target: Id, template: Policy, now: Instant): Copying {
    if NameTaken(c.store.db, target, template.name) then c
    else Copying(CopyOne(c.store, platform, target, template, now), c.copied + 1)
  }

  function CopyAll(s: Store, platform: Id, target: Id, templates: seq<Policy>, now: Instant): Copying {
    if templates == [] then Copying(s, 0)
    else CopyStep(CopyAll(s, platform, target, templates[..|templates| - 1], now), platform, target,
                  templates[|templates| - 1], now)
  }

  function CopyTemplates(s: Store, platform: Id, target: Id, now: Instant): Copying {
    if platform == target then Copying(s, 0)
    else CopyAll(s, platform, target, Templates(s.db, platform, now), now)
  }

  /** The transaction's view of the policy tables. */
  class PolicyTables {
    var db: Database
    var nextId: Id

    function State(): Store
      reads this
    {
      Store(db, nextId)
    }

    constructor (s: Store)
      ensures State() == s
    {
      db, nextId := s.db, s.nextId;
    }

    /** copyPlatformPolicyTemplatesToTenant */
    method CopyPlatformPolicyTemplatesToTenant(platform: Id, target: Id, now: Instant) returns (copied: nat)
      modifies this
      ensures Copying(State(), copied) == CopyTemplates(old(State()), platform, target, now)
    {
      copied := 0;
      if platform == target {
        return;
      }
      var templates := Templates(db, platform, now);
      for i := 0 to |templates|
        invariant Copying(State(), copied) == CopyAll(old(State()), platform, target, templates[..i], now)
      {
        assert templates[..i + 1][..i] == templates[..i];
        var template := templates[i];
        if NameTaken(db, target, template.name) {
          continue;
        }
        CopyTemplate(platform, target, template, now);
        copied := copied + 1;
      }
      assert templates[..|templates|] == templates;
    }

    method InsertCopies(rows: seq<TemplateRow>, target: Id, template: Policy, policyId: Id, now: Instant)
      modifies this`db
      ensures db == WithCopy(old(db), target, template, policyId, rows, now)
    {
      var rules, ruleBindings := db.rules, db.ruleBindings;
      db := db.(policies := db.policies + [CopiedPolicy(template, target, policyId, now)]);
      db := db.(rules := rules + CopiedRules(rows, target, policyId + 2, now));
      db := db.(ruleBindings := ruleBindings + CopiedBindings(rows, target, policyId, policyId + 2));
    }

    /** The inserts for one template. */
    method CopyTemplate(platform: Id, target: Id, template: Policy, now: Instant)
      modifies this
      ensures State() == CopyOne(old(State()), platform, target, template, now)
    {
      var rows := TemplateRows(db, platform, template);
      var policyId, first := nextId, nextId + 2;
      InsertCopies(rows, target, template, policyId, now);
      nextId := first + 3 * |rows|;
    }
  }

  // ----- what a copy means -----

  ghost predicate Numbered(s: Store) {
    && (forall p :: p in s.db.policies ==> p.id < s.nextId && p.policyKey < s.nextId)
    && (forall id :: id in s.db.rules ==> id < s.nextId)
    && (forall rb :: rb in s.db.ruleBindings ==> rb.id < s.nextId && rb.policyId < s.nextId && rb.ruleId < s.nextId)
  }

  /** Rules bound to the platform's policies belong to the platform, as foreign keys and writers keep it. */
  ghost predicate OwnsItsRules(db: Database, platform: Id) {
    forall p, rb :: p in db.policies && p.tenantId == platform && rb in db.ruleBindings && rb.policyId == p.id ==>
      rb.tenantId == platform && (rb.ruleId in db.rules ==> db.rules[rb.ruleId].tenantId == platform)
  }

  function EnabledBinding(db: Database, p: Policy): RuleBinding -> seq<RuleMeaning> {
    (rb: RuleBinding) =>
      if rb.policyId == p.id && rb.enabled && rb.ruleId in db.rules then [PlainMeaning(p, db.rules[rb.ruleId])] else []
  }

  /** The enabled rules of a policy, whatever their effective windows. */
  function EnabledMeanings(db: Database): Policy -> seq<RuleMeaning> {
    (p: Policy) => FlatMap(db.ruleBindings, EnabledBinding(db, p))
  }

  function EnabledRow(template: Policy): TemplateRow -> seq<RuleMeaning> {
    (row: TemplateRow) => if row.binding.enabled then [PlainMeaning(template, row.rule)] else []
  }

  /** The rows the copy reads are the template's enabled and disabled rules. */
  lemma TemplateRowsMean(db: Database, platform: Id, template: Policy)
    requires OwnsItsRules(db, platform) && template in db.policies && template.tenantId == platform
    ensures multiset(FlatMap(TemplateRows(db, platform, template), EnabledRow(template)))
            == multiset(EnabledMeanings(db)(template))
  {
    SortFlatMap(FlatMap(db.ruleBindings, TemplateJoin(db, platform, template)), TemplateOrder(), EnabledRow(template));
    forall rb | rb in db.ruleBindings
      ensures EnabledBinding(db, template)(rb)
              == FlatMap(TemplateJoin(db, platform, template)(rb), EnabledRow(template))
    {
      if rb.policyId == template.id && rb.ruleId in db.rules {
        var row := TemplateRow(rb, db.rules[rb.ruleId]);
        assert TemplateJoin(db, platform, template)(rb) == [row];
        assert FlatMap([row], EnabledRow(template)) == EnabledRow(template)(row) + FlatMap([], EnabledRow(template));
      } else {
        assert TemplateJoin(db, platform, template)(rb) == [];
      }
    }
    FlatMapCompose(db.ruleBindings, TemplateJoin(db, platform, template), EnabledRow(template),
                   EnabledBinding(db, template));
  }

  lemma {:induction false} FlatMapNone<T, U>(s: seq<T>, f: T -> seq<U>)
    requires forall x :: x in s ==> f(x) == []
    ensures FlatMap(s, f) == []
  {
    if s != [] {
      FlatMapNone(s[1..], f);
    }
  }

  lemma {:induction false} FlatMapSame<T, U>(s: seq<T>, f: T -> seq<U>, g: T -> seq<U>)
    requires forall x :: x in s ==> f(x) == g(x)
    ensures FlatMap(s, f) == FlatMap(s, g)
  {
    if s != [] {
      FlatMapSame(s[1..], f, g);
    }
  }

  lemma {:induction false} FlatMapPointwise<T, T'(!new), U>(s: seq<T>, t: seq<T'>, f: T -> seq<U>, g: T' -> seq<U>)
    requires |s| == |t| && forall i :: 0 <= i < |s| ==> f(s[i]) == g(t[i])
    ensures FlatMap(s, f) == FlatMap(t, g)
  {
    if s != [] {
      FlatMapPointwise(s[1..], t[1..], f, g);
    }
  }

  /** The bindings before a copy say nothing about the new policy. */
  lemma OlderBindingsSilent(older: seq<RuleBinding>, db': Database, copy: Policy, at: Instant)
    requires forall rb :: rb in older ==> rb.policyId < copy.id
    ensures FlatMap(older, LiveBinding(db', copy, at)) == []
  {
    forall rb | rb in older ensures LiveBinding(db', copy, at)(rb) == [] {
      assert rb.policyId < copy.id;
    }
    FlatMapNone(older, LiveBinding(db', copy, at));
  }

  lemma CopiedRuleAt(db: Database, db': Database, rows: seq<TemplateRow>, target: Id, id: Id, now: Instant, i: nat)
    requires db'.rules == db.rules + CopiedRules(rows, target, id + 2, now) && i < |rows|
    ensures var ruleId := id + 2 + i;
            ruleId in db'.rules && db'.rules[ruleId] == CopiedRule(rows[i].rule, target, ruleId, ruleId + |rows|, now)
  {
    assert IsNewRuleId(id + 2 + i, id + 2, |rows|);
  }

  /** One copied binding says of the new policy what the template's row says of the template. */
  lemma NewBindingMeansRow(db: Database, db': Database, rows: seq<TemplateRow>, template: Policy, target: Id, id: Id,
                           now: Instant, at: Instant, i: nat)
    requires db'.rules == db.rules + CopiedRules(rows, target, id + 2, now) && now <= at && i < |rows|
    ensures var copy := CopiedPolicy(template, target, id, now);
            LiveBinding(db', copy, at)(CopiedBindings(rows, target, id, id + 2)[i]) == EnabledRow(template)(rows[i])
  {
    CopiedRuleAt(db, db', rows, target, id, now, i);
  }

  lemma NewBindingsMeanRows(db: Database, db': Database, rows: seq<TemplateRow>, template: Policy, target: Id, id: Id,
                            now: Instant, at: Instant)
    requires db'.rules == db.rules + CopiedRules(rows, target, id + 2, now) && now <= at
    ensures var copy := CopiedPolicy(template, target, id, now);
            FlatMap(CopiedBindings(rows, target, id, id + 2), LiveBinding(db', copy, at))
                == FlatMap(rows, EnabledRow(template))
  {
    var copy, bindings := CopiedPolicy(template, target, id, now), CopiedBindings(rows, target, id, id + 2);
    forall i | 0 <= i < |rows| ensures LiveBinding(db', copy, at)(bindings[i]) == EnabledRow(template)(rows[i]) {
      NewBindingMeansRow(db, db', rows, template, target, id, now, at, i);
    }
    FlatMapPointwise(bindings, rows, LiveBinding(db', copy, at), EnabledRow(template));
  }

  /** The new policy's live rules are the template's enabled rules. */
  lemma CopyMeansTemplate(s: Store, platform: Id, target: Id, template: Policy, now: Instant, at: Instant)
    requires Numbered(s) && OwnsItsRules(s.db, platform)
    requires template in s.db.policies && template.tenantId == platform && now <= at
    ensures var copy := CopiedPolicy(template, target, s.nextId, now);
            multiset(LiveMeanings(CopyOne(s, platform, target, template, now).db, at)(copy)) ==
            multiset(EnabledMeanings(s.db)(template))
  {
    var db' := CopyOne(s, platform, target, template, now).db;
    var rows := TemplateRows(s.db, platform, template);
    CopyMeansRows(s.db, db', rows, template, target, s.nextId, now, at);
    TemplateRowsMean(s.db, platform, template);
  }

  lemma MeaningsOfNewer(db: Database, p: Policy, at: Instant, older: seq<RuleBinding>, newer: seq<RuleBinding>,
                        meanings: seq<RuleMeaning>)
    requires db.ruleBindings == older + newer && FlatMap(older, LiveBinding(db, p, at)) == []
    requires FlatMap(newer, LiveBinding(db, p, at)) == meanings
    ensures LiveMeanings(db, at)(p) == meanings
  {
    FlatMapAppend(older, newer, LiveBinding(db, p, at));
  }

  lemma CopyMeansRows(db: Database, db': Database, rows: seq<TemplateRow>, template: Policy, target: Id, id: Id,
                      now: Instant, at: Instant)
    requires now <= at && forall rb :: rb in db.ruleBindings ==> rb.policyId < id
    requires db'.rules == db.rules + CopiedRules(rows, target, id + 2, now)
    requires db'.ruleBindings == db.ruleBindings + CopiedBindings(rows, target, id, id + 2)
    ensures LiveMeanings(db', at)(CopiedPolicy(template, target, id, now)) == FlatMap(rows, EnabledRow(template))
  {
    var copy, newer := CopiedPolicy(template, target, id, now), CopiedBindings(rows, target, id, id + 2);
    OlderBindingsSilent(db.ruleBindings, db', copy, at);
    NewBindingsMeanRows(db, db', rows, template, target, id, now, at);
    MeaningsOfNewer(db', copy, at, db.ruleBindings, newer, FlatMap(rows, EnabledRow(template)));
  }

  /** Copying leaves what older policies mean untouched. */
  lemma CopyKeepsOlder(s: Store, platform: Id, target: Id, template: Policy, now: Instant, at: Instant, p: Policy)
    requires Numbered(s) && p in s.db.policies
    ensures LiveMeanings(CopyOne(s, platform, target, template, now).db, at)(p) == LiveMeanings(s.db, at)(p)
    ensures EnabledMeanings(CopyOne(s, platform, target, template, now).db)(p) == EnabledMeanings(s.db)(p)
  {
    var db' := CopyOne(s, platform, target, template, now).db;
    var rows := TemplateRows(s.db, platform, template);
    var bindings := CopiedBindings(rows, target, s.nextId, s.nextId + 2);
    OlderRulesKept(s, db', rows, target, now);
    OlderLive(s, db', bindings, p, at);
    OlderEnabled(s, db', bindings, p);
  }

  lemma OlderRulesKept(s: Store, db': Database, rows: seq<TemplateRow>, target: Id, now: Instant)
    requires Numbered(s) && db'.rules == s.db.rules + CopiedRules(rows, target, s.nextId + 2, now)
    ensures RulesKept(s.db, db')
  {
    forall rb | rb in s.db.ruleBindings
      ensures (rb.ruleId in db'.rules <==> rb.ruleId in s.db.rules)
      ensures rb.ruleId in s.db.rules ==> db'.rules[rb.ruleId] == s.db.rules[rb.ruleId]
    {
      assert rb.ruleId < s.nextId;
      assert !IsNewRuleId(rb.ruleId, s.nextId + 2, |rows|);
    }
  }

  ghost predicate RulesKept(db: Database, db': Database) {
    forall rb :: rb in db.ruleBindings ==>
      (rb.ruleId in db'.rules <==> rb.ruleId in db.rules)
          && (rb.ruleId in db.rules ==> db'.rules[rb.ruleId] == db.rules[rb.ruleId])
  }

  lemma OlderLive(s: Store, db': Database, bindings: seq<RuleBinding>, p: Policy, at: Instant)
    requires RulesKept(s.db, db') && db'.ruleBindings == s.db.ruleBindings + bindings
    requires Numbered(s) && p in s.db.policies && forall rb :: rb in bindings ==> rb.policyId == s.nextId
    ensures LiveMeanings(db', at)(p) == LiveMeanings(s.db, at)(p)
  {
    FlatMapAppend(s.db.ruleBindings, bindings, LiveBinding(db', p, at));
    FlatMapNone(bindings, LiveBinding(db', p, at));
    FlatMapSame(s.db.ruleBindings, LiveBinding(db', p, at), LiveBinding(s.db, p, at));
  }

  lemma OlderEnabled(s: Store, db': Database, bindings: seq<RuleBinding>, p: Policy)
    requires RulesKept(s.db, db') && db'.ruleBindings == s.db.ruleBindings + bindings
    requires Numbered(s) && p in s.db.policies && forall rb :: rb in bindings ==> rb.policyId == s.nextId
    ensures EnabledMeanings(db')(p) == EnabledMeanings(s.db)(p)
  {
    FlatMapAppend(s.db.ruleBindings, bindings, EnabledBinding(db', p));
    FlatMapNone(bindings, EnabledBinding(db', p));
    FlatMapSame(s.db.ruleBindings, EnabledBinding(db', p), EnabledBinding(s.db, p));
  }

  lemma CopyKeepsNumbering(s: Store, platform: Id, target: Id, template: Policy, now: Instant)
    requires Numbered(s) && OwnsItsRules(s.db, platform) && platform != target
    ensures Numbered(CopyOne(s, platform, target, template, now))
    ensures OwnsItsRules(CopyOne(s, platform, target, template, now).db, platform)
  {
    var s' := CopyOne(s, platform, target, template, now);
    var rows := TemplateRows(s.db, platform, template);
    var bindings := CopiedBindings(rows, target, s.nextId, s.nextId + 2);
    forall p, rb | p in s'.db.policies && p.tenantId == platform && rb in s'.db.ruleBindings && rb.policyId == p.id
      ensures rb in s.db.ruleBindings && p in s.db.policies
    {
      assert p in s.db.policies;
      assert rb !in bindings;
    }
    forall p, rb | p in s.db.policies && p.tenantId == platform && rb in s.db.ruleBindings && rb.policyId == p.id
      ensures rb.ruleId in s'.db.rules ==> s'.db.rules[rb.ruleId].tenantId == platform
    {
      assert !IsNewRuleId(rb.ruleId, s.nextId + 2, |rows|);
    }
  }

  /** One step adds the template's enabled rules to what the tenant means. */
  lemma CopyExtendsTenant(s: Store, platform: Id, target: Id, template: Policy, now: Instant, at: Instant)
    requires Numbered(s) && OwnsItsRules(s.db, platform) && platform != target
    requires template in s.db.policies && IsGlobalPolicy(template, platform, now) && now <= at
    ensures multiset(TenantMeanings(CopyOne(s, platform, target, template, now).db, target, at)) ==
            multiset(TenantMeanings(s.db, target, at)) + multiset(EnabledMeanings(s.db)(template))
  {
    var db' := CopyOne(s, platform, target, template, now).db;
    var copy := CopiedPolicy(template, target, s.nextId, now);
    var ours := IsGlobalAt(target, at);
    FilterAppend(s.db.policies, [copy], ours);
    assert Filter([copy], ours) == [copy];
    var older := Filter(s.db.policies, ours);
    FlatMapLast(older, copy, LiveMeanings(db', at));
    forall p | p in older ensures LiveMeanings(db', at)(p) == LiveMeanings(s.db, at)(p) {
      CopyKeepsOlder(s, platform, target, template, now, at, p);
    }
    FlatMapSame(older, LiveMeanings(db', at), LiveMeanings(s.db, at));
    CopyMeansTemplate(s, platform, target, template, now, at);
  }

  // ----- the whole copy -----

  /** The tenant has no policies yet, and the templates have distinct names. */
  ghost predicate FreshTenant(s: Store, platform: Id, target: Id, templates: seq<Policy>, now: Instant) {
    && Numbered(s) && OwnsItsRules(s.db, platform) && platform != target
    && (forall p :: p in s.db.policies ==> p.tenantId != target)
    && (forall t :: t in templates ==> t in s.db.policies && IsGlobalPolicy(t, platform, now))
    && (forall i, j :: 0 <= i < j < |templates| ==> templates[i].name != templates[j].name)
  }

  /** What stays as it was, and what the tenant has, after copying some templates. */
  ghost predicate CopiedSoFar(s: Store, c: Copying, platform: Id, target: Id, templates: seq<Policy>) {
    && Numbered(c.store) && OwnsItsRules(c.store.db, platform)
    && c.copied == |templates|
    && (forall p :: p in s.db.policies ==>
        p in c.store.db.policies && EnabledMeanings(c.store.db)(p) == EnabledMeanings(s.db)(p))
    && (forall p :: p in c.store.db.policies && p.tenantId == target ==>
          p.scope == "global" && p.projectId == None && exists i :: 0 <= i < |templates| && templates[i].name == p.name)
    && c.store.db.projectBindings == s.db.projectBindings
  }

  lemma CopiedOneMore(s: Store, c: Copying, platform: Id, target: Id, front: seq<Policy>, last: Policy, now: Instant)
    requires CopiedSoFar(s, c, platform, target, front) && platform != target
    requires last in s.db.policies && forall i :: 0 <= i < |front| ==> front[i].name != last.name
    ensures !NameTaken(c.store.db, target, last.name)
    ensures CopiedSoFar(s, CopyStep(c, platform, target, last, now), platform, target, front + [last])
  {
    var c' := CopyStep(c, platform, target, last, now);
    assert !NameTaken(c.store.db, target, last.name);
    CopyKeepsNumbering(c.store, platform, target, last, now);
    forall p | p in s.db.policies
      ensures p in c'.store.db.policies && EnabledMeanings(c'.store.db)(p) == EnabledMeanings(s.db)(p) {
      CopyKeepsOlder(c.store, platform, target, last, now, now, p);
    }
    forall p | p in c'.store.db.policies && p.tenantId == target
      ensures exists i :: 0 <= i < |front + [last]| && (front + [last])[i].name == p.name
    {
      if p in c.store.db.policies {
        var i :| 0 <= i < |front| && front[i].name == p.name;
        assert (front + [last])[i].name == p.name;
      } else {
        assert (front + [last])[|front|].name == p.name;
      }
    }
  }

  lemma {:induction false} CopyAllKeeps(s: Store, platform: Id, target: Id, templates: seq<Policy>, now: Instant)
    requires FreshTenant(s, platform, target, templates, now)
    ensures CopiedSoFar(s, CopyAll(s, platform, target, templates, now), platform, target, templates)
  {
    if templates != [] {
      var front, last := templates[..|templates| - 1], templates[|templates| - 1];
      assert templates == front + [last];
      CopyAllKeeps(s, platform, target, front, now);
      CopiedOneMore(s, CopyAll(s, platform, target, front, now), platform, target, front, last, now);
    }
  }

  lemma NothingCopied(s: Store, target: Id, at: Instant)
    requires forall p :: p in s.db.policies ==> p.tenantId != target
    ensures TenantMeanings(s.db, target, at) == []
  {
    FilterNone(s.db.policies, IsGlobalAt(target, at));
  }

  lemma FreshFront(s: Store, platform: Id, target: Id, front: seq<Policy>, last: Policy, now: Instant)
    requires FreshTenant(s, platform, target, front + [last], now)
    ensures FreshTenant(s, platform, target, front, now)
    ensures last in s.db.policies && IsGlobalPolicy(last, platform, now)
    ensures forall i :: 0 <= i < |front| ==> front[i].name != last.name
  {
    var all := front + [last];
    assert all[|front|] == last && forall i :: 0 <= i < |front| ==> all[i] == front[i];
    assert last in all;
  }

  /** The tenant's rules mean the templates' enabled rules. */
  lemma {:induction false} CopyAllMeans(s: Store, platform: Id, target: Id, templates: seq<Policy>, now: Instant,
                                        at: Instant)
    requires FreshTenant(s, platform, target, templates, now) && now <= at
    ensures multiset(TenantMeanings(CopyAll(s, platform, target, templates, now).store.db, target, at)) ==
            multiset(FlatMap(templates, EnabledMeanings(s.db)))
    decreases |templates|
  {
    if templates == [] {
      NothingCopied(s, target, at);
    } else {
      var front, last := templates[..|templates| - 1], templates[|templates| - 1];
      assert templates == front + [last];
      FreshFront(s, platform, target, front, last, now);
      CopyAllMeans(s, platform, target, front, now, at);
      CopyAllKeeps(s, platform, target, front, now);
      LastCopyMeans(s, CopyAll(s, platform, target, front, now), platform, target, front, last, now, at);
    }
  }

  lemma LastCopyMeans(s: Store, c: Copying, platform: Id, target: Id, front: seq<Policy>, last: Policy, now: Instant,
                      at: Instant)
    requires CopiedSoFar(s, c, platform, target, front) && platform != target && now <= at
    requires last in s.db.policies && IsGlobalPolicy(last, platform, now)
    requires forall i :: 0 <= i < |front| ==> front[i].name != last.name
    requires multiset(TenantMeanings(c.store.db, target, at)) == multiset(FlatMap(front, EnabledMeanings(s.db)))
    ensures multiset(TenantMeanings(CopyStep(c, platform, target, last, now).store.db, target, at)) ==
            multiset(FlatMap(front + [last], EnabledMeanings(s.db)))
  {
    CopiedOneMore(s, c, platform, target, front, last, now);
    CopyExtendsTenant(c.store, platform, target, last, now, at);
    FlatMapLast(front, last, EnabledMeanings(s.db));
    assert EnabledMeanings(c.store.db)(last) == EnabledMeanings(s.db)(last);
    assert CopyStep(c, platform, target, last, now).store == CopyOne(c.store, platform, target, last, now);
  }

  /** Every enabled rule of the templates is inside its effective window. */
  ghost predicate BoundRulesInForce(db: Database, templates: seq<Policy>, now: Instant) {
    forall t, rb ::
      t in templates && rb in db.ruleBindings && rb.policyId == t.id && rb.enabled && rb.ruleId in db.rules ==>
        InForce(db.rules[rb.ruleId].effectiveFrom, db.rules[rb.ruleId].effectiveTo, now)
  }

  lemma {:induction false} FewerWhenPartial<T(!new), U(!new)>(s: seq<T>, f: T -> seq<U>, g: T -> seq<U>)
    requires forall x :: x in s ==> |f(x)| <= |g(x)|
    ensures |FlatMap(s, f)| <= |FlatMap(s, g)|
    ensures (exists x :: x in s && |f(x)| < |g(x)|) ==> |FlatMap(s, f)| < |FlatMap(s, g)|
  {
    if s != [] {
      FewerWhenPartial(s[1..], f, g);
      if x :| x in s && |f(x)| < |g(x)| {
        assert x == s[0] || x in s[1..];
      }
    }
  }

  /** A policy's live rules are its enabled ones exactly when all of those are in force. */
  lemma LiveIsEnabledIff(db: Database, p: Policy, now: Instant)
    ensures |LiveMeanings(db, now)(p)| <= |EnabledMeanings(db)(p)|
    ensures |LiveMeanings(db, now)(p)| < |EnabledMeanings(db)(p)| <==> !BoundRulesInForce(db, [p], now)
    ensures BoundRulesInForce(db, [p], now) ==> LiveMeanings(db, now)(p) == EnabledMeanings(db)(p)
  {
    assert p in [p];
    var live, enabled := LiveBinding(db, p, now), EnabledBinding(db, p);
    FewerWhenPartial(db.ruleBindings, live, enabled);
    if BoundRulesInForce(db, [p], now) {
      FlatMapSame(db.ruleBindings, live, enabled);
    } else {
      var t, rb :| t in [p] && rb in db.ruleBindings && rb.policyId == t.id && rb.enabled && rb.ruleId in db.rules
        && !InForce(db.rules[rb.ruleId].effectiveFrom, db.rules[rb.ruleId].effectiveTo, now);
      assert |live(rb)| < |enabled(rb)|;
    }
  }

  lemma TemplatesMeanEnabledIff(db: Database, templates: seq<Policy>, now: Instant)
    ensures multiset(FlatMap(templates, LiveMeanings(db, now)))
            == multiset(FlatMap(templates, EnabledMeanings(db))) <==>
            BoundRulesInForce(db, templates, now)
  {
    forall p { LiveIsEnabledIff(db, p, now); }
    var live, enabled := LiveMeanings(db, now), EnabledMeanings(db);
    FewerWhenPartial(templates, live, enabled);
    if BoundRulesInForce(db, templates, now) {
      forall p | p in templates ensures live(p) == enabled(p) {
        assert BoundRulesInForce(db, [p], now);
      }
      FlatMapSame(templates, live, enabled);
    } else {
      var t, rb :| t in templates && rb in db.ruleBindings && rb.policyId == t.id && rb.enabled && rb.ruleId in db.rules
        && !InForce(db.rules[rb.ruleId].effectiveFrom, db.rules[rb.ruleId].effectiveTo, now);
      assert t in [t];
      assert !BoundRulesInForce(db, [t], now);
      assert |multiset(FlatMap(templates, live))| == |FlatMap(templates, live)|;
      assert |multiset(FlatMap(templates, enabled))| == |FlatMap(templates, enabled)|;
    }
  }

  /** Nothing of the tenant's own stands between it and the copies. */
  lemma CopiesInherited(s: Store, platform: Id, target: Id, templates: seq<Policy>, now: Instant, project: Id,
                        at: Instant)
    requires FreshTenant(s, platform, target, templates, now) && now <= at
    requires forall b :: b in s.db.projectBindings ==> b.tenantId != target
    ensures InheritsEverything(CopyAll(s, platform, target, templates, now).store.db, target, project, at)
  {
    CopyAllKeeps(s, platform, target, templates, now);
    var db' := CopyAll(s, platform, target, templates, now).store.db;
    FilterNone(db'.policies, IsProjectAt(target, project, at));
    FilterNone(db'.projectBindings, (b: ProjectBinding) =>
      b.tenantId == target && b.projectId == project && InForce(b.effectiveFrom, b.effectiveTo, at));
  }

  /**
   For a tenant with no policies yet and templates with distinct names: the copied rules mean what
   the templates' rules mean if and only if every enabled rule of the templates is in force.
   */
  lemma CopyPreservesMeaningIff(s: Store, platform: Id, target: Id, now: Instant, platformProject: Id, project: Id,
                                at: Instant)
    requires FreshTenant(s, platform, target, Templates(s.db, platform, now), now) && now <= at
    requires forall b :: b in s.db.projectBindings ==> b.tenantId != target
    requires InheritsEverything(s.db, platform, platformProject, now)
    ensures
      var db' := CopyTemplates(s, platform, target, now).store.db;
      var templateRules := EffectiveSnapshot(s.db, platform, platformProject, now).allRules;
      var copiedRules := EffectiveSnapshot(db', target, project, at).allRules;
      multiset(Map(copiedRules, MeaningOf)) == multiset(Map(templateRules, MeaningOf)) <==>
      BoundRulesInForce(s.db, Templates(s.db, platform, now), now)
  {
    var templates := Templates(s.db, platform, now);
    var db' := CopyTemplates(s, platform, target, now).store.db;
    CopyAllMeans(s, platform, target, templates, now, at);
    CopiesInherited(s, platform, target, templates, now, project, at);
    SnapshotMeansTenant(db', target, project, at);
    SnapshotMeansTenant(s.db, platform, platformProject, now);
    SortFlatMap(Filter(s.db.policies, IsGlobalAt(platform, now)), PolicyPriority(), LiveMeanings(s.db, now));
    TemplatesMeanEnabledIff(s.db, templates, now);
  }

  /** With the templates' enabled rules in force, tenant and platform decide alike on every field map. */
  lemma CopyDecidesAlike(s: Store, platform: Id, target: Id, now: Instant, platformProject: Id, project: Id,
                         at: Instant, fields: Fields, ttl: int, serveMode: ServeMode, engine: Engine)
    requires FreshTenant(s, platform, target, Templates(s.db, platform, now), now) && now <= at
    requires forall b :: b in s.db.projectBindings ==> b.tenantId != target
    requires InheritsEverything(s.db, platform, platformProject, now)
    requires BoundRulesInForce(s.db, Templates(s.db, platform, now), now)
    ensures
      var db' := CopyTemplates(s, platform, target, now).store.db;
      var template := Evaluated(EffectiveSnapshot(s.db, platform, platformProject, now).allRules, fields, ttl,
                                serveMode, engine);
      var copy := Evaluated(EffectiveSnapshot(db', target, project, at).allRules, fields, ttl, serveMode, engine);
      && copy.Ok? == template.Ok?
      && (copy.Ok? ==>
            && copy.value.verdict == template.value.verdict
            && multiset(Map(copy.value.violations, ReportedOf)) == multiset(Map(template.value.violations, ReportedOf)))
  {
    CopyPreservesMeaningIff(s, platform, target, now, platformProject, project, at);
    var db' := CopyTemplates(s, platform, target, now).store.db;
    SameMeaningsSameDecision(EffectiveSnapshot(db', target, project, at).allRules,
                             EffectiveSnapshot(s.db, platform, platformProject, now).allRules, fields, ttl, serveMode,
                             engine);
  }
}
