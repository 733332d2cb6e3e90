/** What a resolved snapshot contains: the declarative form of services/api/src/policy/effective.ts. */
module Resolution {
  import opened Common
  import opened Sorting
  import opened PolicyData
  import opened Effective

  // ----- which policies apply -----

  lemma GlobalMember(db: Database, tenant: Id, at: Instant, p: Policy)
    ensures p in GlobalPolicies(db, tenant, at) <==> p in db.policies && IsGlobalPolicy(p, tenant, at)
  {
    SortPermutes(Filter(db.policies, IsGlobalAt(tenant, at)), PolicyPriority());
  }

  lemma ProjectMember(db: Database, tenant: Id, project: Id, at: Instant, p: Policy)
    ensures p in ProjectPolicies(db, tenant, project, at) <==>
            p in db.policies && IsProjectPolicy(p, tenant, project, at)
  {
    SortPermutes(Filter(db.policies, IsProjectAt(tenant, project, at)), PolicyPriority());
  }

  lemma GlobalEntryMember(globals: seq<Policy>, bindings: map<Id, ProjectBinding>, e: EffectivePolicy)
    ensures e in FlatMap(globals, GlobalEntry(bindings)) <==>
            e.policy in globals && e in GlobalEntry(bindings)(e.policy)
  {
    FlatMapMember(globals, GlobalEntry(bindings), e);
    if i :| 0 <= i < |globals| && e in GlobalEntry(bindings)(globals[i]) {
      assert globals[i] == e.policy;
    }
    if e.policy in globals {
      var i :| 0 <= i < |globals| && globals[i] == e.policy;
    }
  }

  lemma ProjectEntryMember(projects: seq<Policy>, e: EffectivePolicy)
    ensures e in Map(projects, ProjectEntry) <==> e.policy in projects && e == ProjectEntry(e.policy)
  {
    var right := Map(projects, ProjectEntry);
    if e in right {
      var i :| 0 <= i < |right| && right[i] == e;
      assert projects[i] in projects;
    }
    if e.policy in projects && e == ProjectEntry(e.policy) {
      var i :| 0 <= i < |projects| && projects[i] == e.policy;
      assert right[i] == e;
    }
  }

  /** A policy applies when it is a current global one that the project has not opted out of, or the project's own. */
  lemma EntryMember(db: Database, bindings: map<Id, ProjectBinding>, tenant: Id, project: Id, at: Instant,
                    e: EffectivePolicy)
    ensures e in Entries(db, bindings, tenant, project, at) <==>
            && e.policy in db.policies
            && (|| (IsGlobalPolicy(e.policy, tenant, at) && e in GlobalEntry(bindings)(e.policy))
                || (IsProjectPolicy(e.policy, tenant, project, at) && e == ProjectEntry(e.policy)))
  {
    var left := FlatMap(GlobalPolicies(db, tenant, at), GlobalEntry(bindings));
    var right := Map(ProjectPolicies(db, tenant, project, at), ProjectEntry);
    SortPermutes(left + right, EntryPriority());
    GlobalMember(db, tenant, at, e.policy);
    ProjectMember(db, tenant, project, at, e.policy);
    GlobalEntryMember(GlobalPolicies(db, tenant, at), bindings, e);
    ProjectEntryMember(ProjectPolicies(db, tenant, project, at), e);
  }

  function HasPolicyId(id: Id): Policy -> bool { (p: Policy) => p.id == id }
  function EntryHasId(id: Id): EffectivePolicy -> bool { (e: EffectivePolicy) => e.policy.id == id }

  /** No policy applies twice. */
  lemma EntriesDistinct(db: Database, bindings: map<Id, ProjectBinding>, tenant: Id, project: Id, at: Instant)
    requires WellKeyed(db)
    ensures var entries := Entries(db, bindings, tenant, project, at);
            forall i, j :: 0 <= i < j < |entries| ==> entries[i].policy.id != entries[j].policy.id
  {
    var entries := Entries(db, bindings, tenant, project, at);
    forall i, j | 0 <= i < j < |entries| ensures entries[i].policy.id != entries[j].policy.id {
      var id := entries[i].policy.id;
      EntryCountAtMostOne(db, bindings, tenant, project, at, id);
      if entries[j].policy.id == id {
        CountTwo(entries, EntryHasId(id), i, j);
      }
    }
  }

  function GlobalWithId(tenant: Id, at: Instant, id: Id): Policy -> bool {
    (p: Policy) => IsGlobalAt(tenant, at)(p) && p.id == id
  }

  function ProjectWithId(tenant: Id, project: Id, at: Instant, id: Id): Policy -> bool {
    (p: Policy) => IsProjectAt(tenant, project, at)(p) && p.id == id
  }

  lemma GlobalEntriesWithId(db: Database, bindings: map<Id, ProjectBinding>, tenant: Id, at: Instant, id: Id)
    ensures Count(FlatMap(GlobalPolicies(db, tenant, at), GlobalEntry(bindings)), EntryHasId(id)) <=
            Count(db.policies, GlobalWithId(tenant, at, id))
  {
    var isGlobal := IsGlobalAt(tenant, at);
    var globals := Filter(db.policies, isGlobal);
    var kept := (p: Policy) => p.id == id && GlobalEntry(bindings)(p) != [];
    SortPermutes(globals, PolicyPriority());
    CountFlatMap(GlobalPolicies(db, tenant, at), GlobalEntry(bindings), EntryHasId(id), kept);
    CountPermutes(GlobalPolicies(db, tenant, at), globals, kept);
    CountMonotone(globals, kept, HasPolicyId(id));
    CountFilter(db.policies, isGlobal, HasPolicyId(id), GlobalWithId(tenant, at, id));
  }

  lemma ProjectEntriesWithId(db: Database, tenant: Id, project: Id, at: Instant, id: Id)
    ensures Count(Map(ProjectPolicies(db, tenant, project, at), ProjectEntry), EntryHasId(id)) ==
            Count(db.policies, ProjectWithId(tenant, project, at, id))
  {
    var isProject := IsProjectAt(tenant, project, at);
    var projects := Filter(db.policies, isProject);
    SortPermutes(projects, PolicyPriority());
    CountMap(ProjectPolicies(db, tenant, project, at), ProjectEntry, EntryHasId(id), HasPolicyId(id));
    CountPermutes(ProjectPolicies(db, tenant, project, at), projects, HasPolicyId(id));
    CountFilter(db.policies, isProject, HasPolicyId(id), ProjectWithId(tenant, project, at, id));
  }

  lemma EntryCountAtMostOne(db: Database, bindings: map<Id, ProjectBinding>, tenant: Id, project: Id, at: Instant,
                            id: Id)
    requires WellKeyed(db)
    ensures Count(Entries(db, bindings, tenant, project, at), EntryHasId(id)) <= 1
  {
    var left := FlatMap(GlobalPolicies(db, tenant, at), GlobalEntry(bindings));
    var right := Map(ProjectPolicies(db, tenant, project, at), ProjectEntry);
    SortPermutes(left + right, EntryPriority());
    CountPermutes(StableSort(left + right, EntryPriority()), left + right, EntryHasId(id));
    CountAppend(left, right, EntryHasId(id));
    GlobalEntriesWithId(db, bindings, tenant, at, id);
    ProjectEntriesWithId(db, tenant, project, at, id);
    CountExclusive(db.policies, GlobalWithId(tenant, at, id), ProjectWithId(tenant, project, at, id), HasPolicyId(id));
    DistinctCount(db.policies, HasPolicyId(id));
  }

  lemma {:induction false} CountExclusive<T(!new)>(s: seq<T>, p: T -> bool, q: T -> bool, r: T -> bool)
    requires forall x :: x in s ==> !(p(x) && q(x)) && (p(x) || q(x) ==> r(x))
    ensures Count(s, p) + Count(s, q) <= Count(s, r)
  {
    if s != [] {
      CountExclusive(s[1..], p, q, r);
    }
  }

  // ----- which rules a snapshot holds -----

  lemma RowMember(db: Database, policyIds: seq<Id>, at: Instant, row: JoinedRow)
    ensures row in BindingRows(db, policyIds, at) <==>
            && row.policyId in policyIds && IsLive(row, at)
            && exists rb :: rb in db.ruleBindings && row in Join(db)(rb)
  {
    var joined := FlatMap(db.ruleBindings, Join(db));
    var keep := Wanted(policyIds, at);
    SortPermutes(Filter(joined, keep), RowOrder());
    FlatMapMember(db.ruleBindings, Join(db), row);
    if rb :| rb in db.ruleBindings && row in Join(db)(rb) {
      var i :| 0 <= i < |db.ruleBindings| && db.ruleBindings[i] == rb;
      assert row in joined;
    }
  }

  /** rule comes from entry and row. */
  predicate ComesFrom(rule: ResolvedRule, entry: EffectivePolicy, row: JoinedRow) {
    && row.policyId == entry.policy.id
    && !SwitchedOff(OverrideOf(entry.binding, row.rule.ruleKey))
    && rule == ResolveRow(entry, row)
  }

  lemma RuleMemberOfEntry(rows: seq<JoinedRow>, entry: EffectivePolicy, rule: ResolvedRule)
    ensures rule in RulesOf(rows)(entry) <==> exists row :: row in rows && ComesFrom(rule, entry, row)
  {
    var own := RowsOf(rows, entry.policy.id);
    FlatMapMember(own, ResolveRows(entry), rule);
    if rule in RulesOf(rows)(entry) {
      var i :| 0 <= i < |own| && rule in ResolveRows(entry)(own[i]);
      assert own[i] in own;
      assert ComesFrom(rule, entry, own[i]);
    }
    if row :| row in rows && ComesFrom(rule, entry, row) {
      assert row in own;
      var i :| 0 <= i < |own| && own[i] == row;
      assert rule in ResolveRows(entry)(own[i]);
    }
  }

  lemma FlatRuleMember(entries: seq<EffectivePolicy>, rows: seq<JoinedRow>, rule: ResolvedRule)
    ensures rule in FlatMap(entries, RulesOf(rows)) <==>
            exists e, row :: e in entries && row in rows && ComesFrom(rule, e, row)
  {
    FlatMapMember(entries, RulesOf(rows), rule);
    if rule in FlatMap(entries, RulesOf(rows)) {
      var i :| 0 <= i < |entries| && rule in RulesOf(rows)(entries[i]);
      RuleMemberOfEntry(rows, entries[i], rule);
    }
    if e, row :| e in entries && row in rows && ComesFrom(rule, e, row) {
      RuleMemberOfEntry(rows, e, rule);
      var i :| 0 <= i < |entries| && entries[i] == e;
      assert rule in RulesOf(rows)(entries[i]);
    }
  }

  /**
   A snapshot's rule list holds exactly the rules that come from an applicable policy and one of
   its enabled, in-force rules, unless an override switches the rule off.
   */
  lemma SnapshotHolds(db: Database, entries: seq<EffectivePolicy>, at: Instant, rule: ResolvedRule)
    ensures rule in SnapshotOf(db, entries, at).allRules <==>
            exists e, row :: e in entries && row in BindingRows(db, PolicyIds(entries), at) && ComesFrom(rule, e, row)
  {
    var rows := BindingRows(db, PolicyIds(entries), at);
    SortPermutes(FlatMap(entries, RulesOf(rows)), RuleOrder());
    FlatRuleMember(entries, rows, rule);
  }

  lemma RuleOrderTotal()
    ensures TotalPreorder(RuleOrder())
  {
  }

  function RulesField(p: ResolvedPolicy): seq<ResolvedRule> { p.rules }

  lemma {:induction false} PerPolicyRules(entries: seq<EffectivePolicy>, rows: seq<JoinedRow>)
    ensures FlatMap(Map(entries, ResolvePolicy(rows)), RulesField) == FlatMap(entries, RulesOf(rows))
  {
    if entries != [] {
      PerPolicyRules(entries[1..], rows);
      assert Map(entries, ResolvePolicy(rows))[1..] == Map(entries[1..], ResolvePolicy(rows));
    }
  }

  /** The flat list is the per-policy lists rearranged, sorted by priority and then order index. */
  lemma FlatListSorted(db: Database, entries: seq<EffectivePolicy>, at: Instant)
    ensures var s := SnapshotOf(db, entries, at);
            && multiset(s.allRules) == multiset(FlatMap(s.policies, RulesField))
            && Sorted(s.allRules, RuleOrder())
            && forall k ::
                 Filter(s.allRules, Tied(RuleOrder(), k)) ==
                 Filter(FlatMap(s.policies, RulesField), Tied(RuleOrder(), k))
  {
    var rows := BindingRows(db, PolicyIds(entries), at);
    var flat := FlatMap(entries, RulesOf(rows));
    PerPolicyRules(entries, rows);
    SortPermutes(flat, RuleOrder());
    RuleOrderTotal();
    SortSorts(flat, RuleOrder());
    forall k { SortIsStable(flat, RuleOrder(), k); }
  }

  // ----- each rule binding once -----

  function HasBindingId(id: Id): ResolvedRule -> bool { (r: ResolvedRule) => r.policyRuleBindingId == id }
  function RowHasId(id: Id): JoinedRow -> bool { (row: JoinedRow) => row.bindingId == id }

  /** How often entry resolves the row with this id. */
  function YieldsFor(entry: EffectivePolicy, id: Id): JoinedRow -> bool {
    (row: JoinedRow) =>
      row.policyId == entry.policy.id && row.bindingId == id
          && !SwitchedOff(OverrideOf(entry.binding, row.rule.ruleKey))
  }

  lemma CountInEntry(rows: seq<JoinedRow>, entry: EffectivePolicy, id: Id)
    ensures Count(RulesOf(rows)(entry), HasBindingId(id)) == Count(rows, YieldsFor(entry, id))
  {
    var produces := (row: JoinedRow) => row.bindingId == id
        && !SwitchedOff(OverrideOf(entry.binding, row.rule.ruleKey));
    forall row | row in RowsOf(rows, entry.policy.id)
      ensures Count(ResolveRows(entry)(row), HasBindingId(id)) == if produces(row) then 1 else 0
    {
      var r := ResolveRow(entry, row);
      assert Filter([r], HasBindingId(id)) == if r.policyRuleBindingId == id then [r] else [];
    }
    CountFlatMap(RowsOf(rows, entry.policy.id), ResolveRows(entry), HasBindingId(id), produces);
    CountFilter(rows, OwnedBy(entry.policy.id), produces, YieldsFor(entry, id));
  }

  lemma RowCountAtMostOne(db: Database, policyIds: seq<Id>, at: Instant, id: Id)
    requires WellKeyed(db)
    ensures Count(BindingRows(db, policyIds, at), RowHasId(id)) <= 1
  {
    var joined := FlatMap(db.ruleBindings, Join(db));
    var keep := Wanted(policyIds, at);
    var both := (r: JoinedRow) => keep(r) && r.bindingId == id;
    SortPermutes(Filter(joined, keep), RowOrder());
    CountPermutes(BindingRows(db, policyIds, at), Filter(joined, keep), RowHasId(id));
    CountFilter(joined, keep, RowHasId(id), both);
    CountMonotone(joined, both, RowHasId(id));
    var hasId := (rb: RuleBinding) => rb.id == id;
    var joins := (rb: RuleBinding) => rb.id == id && rb.ruleId in db.rules;
    CountFlatMap(db.ruleBindings, Join(db), RowHasId(id), joins);
    CountMonotone(db.ruleBindings, joins, hasId);
    DistinctCount(db.ruleBindings, hasId);
  }

  lemma {:induction false} CountFlatMapAt<T(!new), U(!new)>(s: seq<T>, f: T -> seq<U>, p: U -> bool, k: nat)
    requires k < |s| && forall i :: 0 <= i < |s| && i != k ==> Count(f(s[i]), p) == 0
    ensures Count(FlatMap(s, f), p) == Count(f(s[k]), p)
  {
    CountAppend(f(s[0]), FlatMap(s[1..], f), p);
    if k == 0 {
      CountFlatMapNone(s[1..], f, p);
    } else {
      CountFlatMapAt(s[1..], f, p, k - 1);
    }
  }

  lemma {:induction false} CountFlatMapNone<T(!new), U(!new)>(s: seq<T>, f: T -> seq<U>, p: U -> bool)
    requires forall x :: x in s ==> Count(f(x), p) == 0
    ensures Count(FlatMap(s, f), p) == 0
  {
    if s != [] {
      CountAppend(f(s[0]), FlatMap(s[1..], f), p);
      CountFlatMapNone(s[1..], f, p);
    }
  }

  /**
   Each enabled, in-force rule binding of an applicable policy yields exactly one resolved rule,
   unless an override switches it off; no other binding id appears.
   */
  lemma OneRulePerBinding(db: Database, entries: seq<EffectivePolicy>, at: Instant, id: Id)
    requires WellKeyed(db)
    requires forall i, j :: 0 <= i < j < |entries| ==> entries[i].policy.id != entries[j].policy.id
    ensures Count(SnapshotOf(db, entries, at).allRules, HasBindingId(id)) ==
            if exists e, row :: e in entries && row in BindingRows(db, PolicyIds(entries), at) && YieldsFor(e, id)(row)
            then 1 else 0
  {
    var rows := BindingRows(db, PolicyIds(entries), at);
    var flat := FlatMap(entries, RulesOf(rows));
    SortPermutes(flat, RuleOrder());
    CountPermutes(SnapshotOf(db, entries, at).allRules, flat, HasBindingId(id));
    RowCountAtMostOne(db, PolicyIds(entries), at, id);
    if e, row :| e in entries && row in rows && YieldsFor(e, id)(row) {
      var k :| 0 <= k < |entries| && entries[k] == e;
      forall i | 0 <= i < |entries| && i != k ensures Count(RulesOf(rows)(entries[i]), HasBindingId(id)) == 0 {
        CountInEntry(rows, entries[i], id);
        OnlyOneOwner(rows, e, row, entries[i], id);
      }
      CountFlatMapAt(entries, RulesOf(rows), HasBindingId(id), k);
      CountInEntry(rows, e, id);
      CountMonotone(rows, YieldsFor(e, id), RowHasId(id));
      assert row in Filter(rows, YieldsFor(e, id));
    } else {
      forall e | e in entries ensures Count(RulesOf(rows)(e), HasBindingId(id)) == 0 {
        CountInEntry(rows, e, id);
        FilterNone(rows, YieldsFor(e, id));
      }
      CountFlatMapNone(entries, RulesOf(rows), HasBindingId(id));
    }
  }

  lemma OnlyOneOwner(rows: seq<JoinedRow>, e: EffectivePolicy, row: JoinedRow, other: EffectivePolicy, id: Id)
    requires Count(rows, RowHasId(id)) <= 1
    requires row in rows && YieldsFor(e, id)(row) && other.policy.id != e.policy.id
    ensures Count(rows, YieldsFor(other, id)) == 0
  {
    forall r | r in rows ensures !YieldsFor(other, id)(r) {
      if r.bindingId == id && r.policyId == other.policy.id {
        var i :| 0 <= i < |rows| && rows[i] == r;
        var j :| 0 <= j < |rows| && rows[j] == row;
        if i < j { CountTwo(rows, RowHasId(id), i, j); } else { CountTwo(rows, RowHasId(id), j, i); }
      }
    }
    FilterNone(rows, YieldsFor(other, id));
  }

  /** The audit trail can key rows by rule binding: no two resolved rules share one. */
  lemma BindingIdsDistinct(db: Database, tenant: Id, project: Id, at: Instant)
    requires WellKeyed(db)
    ensures var rules := EffectiveSnapshot(db, tenant, project, at).allRules;
            forall i, j :: 0 <= i < j < |rules| ==> rules[i].policyRuleBindingId != rules[j].policyRuleBindingId
  {
    var bindings := CurrentBindings(db, tenant, project, at);
    var entries := Entries(db, bindings, tenant, project, at);
    EntriesDistinct(db, bindings, tenant, project, at);
    var rules := EffectiveSnapshot(db, tenant, project, at).allRules;
    forall i, j | 0 <= i < j < |rules| ensures rules[i].policyRuleBindingId != rules[j].policyRuleBindingId {
      var id := rules[i].policyRuleBindingId;
      OneRulePerBinding(db, entries, at, id);
      if rules[j].policyRuleBindingId == id {
        CountTwo(rules, HasBindingId(id), i, j);
      }
    }
  }

  /** Every rule of a snapshot belongs to one of its policies. */
  lemma RuleHasPolicy(db: Database, entries: seq<EffectivePolicy>, at: Instant, rule: ResolvedRule)
    requires rule in SnapshotOf(db, entries, at).allRules
    ensures exists p :: p in SnapshotOf(db, entries, at).policies && p.id == rule.policyId
  {
    SnapshotHolds(db, entries, at, rule);
    var e, row :| e in entries && row in BindingRows(db, PolicyIds(entries), at) && ComesFrom(rule, e, row);
    var i :| 0 <= i < |entries| && entries[i] == e;
    var p := SnapshotOf(db, entries, at).policies[i];
    assert p in SnapshotOf(db, entries, at).policies && p.id == rule.policyId;
  }

  lemma RulesBelongToPolicies(db: Database, tenant: Id, project: Id, at: Instant)
    ensures var s := EffectiveSnapshot(db, tenant, project, at);
            forall rule :: rule in s.allRules ==> exists p :: p in s.policies && p.id == rule.policyId
  {
    var entries := Entries(db, CurrentBindings(db, tenant, project, at), tenant, project, at);
    forall rule | rule in SnapshotOf(db, entries, at).allRules
      ensures exists p :: p in SnapshotOf(db, entries, at).policies && p.id == rule.policyId
    {
      RuleHasPolicy(db, entries, at, rule);
    }
  }
}
