/** Folding resolved rules into a decision: evaluatePolicyDecision in services/api/src/connect/check-service.ts. */
module Decision {
  import opened Common
  import opened Expression
  import opened PolicyData
  import opened Effective
  import Sorting

  datatype Verdict = Allow | Block

  datatype ServeMode = Unspecified | Redirect | Pull

  datatype Violation = Violation(
    ruleId: Id,
    ruleKey: Id,
    policyId: Id,
    policyRuleBindingId: Id,
    policyProjectBindingId: Option<Id>,
    recommendedRemediation: Option<string>,
    severity: string,
    code: string,
    message: string,
    enforcementMode: string,
    blocked: bool)

  datatype PolicyDecision = PolicyDecision(
    verdict: Verdict,
    reason: string,
    detail: string,
    cacheTtl: int,
    serveMode: ServeMode,
    rulesEvaluated: nat,
    rulesMatched: nat,
    violations: seq<Violation>)

  /** A malformed condition makes the whole evaluation throw. */
  datatype EvaluationError = MalformedCondition

  /** Language services the fold uses: JavaScript's conversions and message rendering. */
  datatype Engine = Engine(js: Coercions, render: (string, Fields) -> string)

  function GetOr(o: Option<string>, default: string): string { if o.Some? then o.value else default }

  function ActionType(r: ResolvedRule): string { GetOr(r.action.kind, "violation") }

  function Outcome(engine: Engine, fields: Fields): ResolvedRule -> Evaluation {
    (r: ResolvedRule) => Evaluate(r.condition, fields, engine.js)
  }

  function Matches(engine: Engine, fields: Fields): ResolvedRule -> bool {
    (r: ResolvedRule) => Evaluate(r.condition, fields, engine.js) == Result(true)
  }

  /** The rule blocks whenever its condition matches. */
  predicate Enforces(r: ResolvedRule) { ActionType(r) == "violation" && r.effectiveEnforcementMode == ENFORCING }

  function Blocks(engine: Engine, fields: Fields): ResolvedRule -> bool {
    (r: ResolvedRule) => Matches(engine, fields)(r) && Enforces(r)
  }

  lemma BlocksMeans(engine: Engine, fields: Fields, r: ResolvedRule)
    ensures Blocks(engine, fields)(r) <==> Evaluate(r.condition, fields, engine.js) == Result(true) && Enforces(r)
  {
    assert Matches(engine, fields)(r) == (Evaluate(r.condition, fields, engine.js) == Result(true));
  }

  function Reports(engine: Engine, fields: Fields): ResolvedRule -> bool {
    (r: ResolvedRule) => Matches(engine, fields)(r) && ActionType(r) in {"violation", "warning", "info"}
  }

  lemma ReportsMeans(engine: Engine, fields: Fields, r: ResolvedRule)
    ensures Reports(engine, fields)(r) <==>
            Evaluate(r.condition, fields, engine.js) == Result(true)
                && ActionType(r) in {"violation", "warning", "info"}
  {
    assert Matches(engine, fields)(r) == (Evaluate(r.condition, fields, engine.js) == Result(true));
  }

  function Message(engine: Engine, fields: Fields, r: ResolvedRule): string {
    if r.action.messageTemplate.Some? && r.action.messageTemplate.value != ""
    then engine.render(r.action.messageTemplate.value, fields)
    else "Rule \"" + r.name + "\" matched"
  }

  function ToViolation(engine: Engine, fields: Fields): ResolvedRule -> Violation {
    (r: ResolvedRule) =>
      Violation(r.id, r.ruleKey, r.policyId, r.policyRuleBindingId, r.policyProjectBindingId,
                r.action.recommendedRemediation, GetOr(r.action.severity, "high"), GetOr(r.action.code, "RULE_MATCHED"),
                Message(engine, fields, r), r.effectiveEnforcementMode, Enforces(r))
  }

  /** The reason string and the violation row give a missing code different names. */
  function ReasonCode(r: ResolvedRule): string { GetOr(r.action.code, "policy_violation") }

  /** codes.join(",") */
  function JoinCodes(codes: seq<string>): string {
    if codes == [] then ""
    else if |codes| == 1 then codes[0]
    else JoinCodes(codes[..|codes| - 1]) + "," + codes[|codes| - 1]
  }

  ghost predicate NoneThrows(rules: seq<ResolvedRule>, engine: Engine, fields: Fields) {
    forall r :: r in rules ==> Outcome(engine, fields)(r) != Throws
  }

  /** The decision in terms of the rules that match, report and block, in rule order. */
  function Decide(rules: seq<ResolvedRule>, fields: Fields, ttl: int, serveMode: ServeMode, engine: Engine)
      : PolicyDecision {
    var matched := Filter(rules, Matches(engine, fields));
    var blocking := Filter(rules, Blocks(engine, fields));
    var violations := Map(Filter(rules, Reports(engine, fields)), ToViolation(engine, fields));
    if blocking != [] then
      PolicyDecision(Block, JoinCodes(Map(blocking, ReasonCode)), Message(engine, fields, blocking[0]), 0, Unspecified,
                     |rules|, |matched|, violations)
    else if matched == [] then
      PolicyDecision(Allow, "allowed", "No policy rules matched — package allowed", ttl, serveMode, |rules|, 0,
                     violations)
    else
      PolicyDecision(Allow, "advisory_only", "Rules matched in advisory mode only — package allowed", ttl, serveMode,
                     |rules|, |matched|, violations)
  }

  /** The evaluation in full: the first malformed condition reached ends it. */
  function Evaluated(rules: seq<ResolvedRule>, fields: Fields, ttl: int, serveMode: ServeMode, engine: Engine)
    : Common.Result<PolicyDecision, EvaluationError>
  {
    if exists r :: r in rules && Outcome(engine, fields)(r) == Throws then Err(MalformedCondition)
    else Ok(Decide(rules, fields, ttl, serveMode, engine))
  }

  // ----- the fold -----

  /** What the loop's variables hold after the rules seen. */
  ghost predicate Folded(seen: seq<ResolvedRule>, fields: Fields, engine: Engine,
                         verdict: Verdict, detail: string, codes: seq<string>,
                         violations: seq<Violation>, matched: nat) {
    var blocking := Filter(seen, Blocks(engine, fields));
    && NoneThrows(seen, engine, fields)
    && (verdict == Block <==> blocking != [])
    && (blocking != [] ==> detail == Message(engine, fields, blocking[0]))
    && codes == Map(blocking, ReasonCode)
    && violations == Map(Filter(seen, Reports(engine, fields)), ToViolation(engine, fields))
    && matched == Count(seen, Matches(engine, fields))
  }

  lemma FoldedOneMore(seen: seq<ResolvedRule>, r: ResolvedRule, fields: Fields, engine: Engine,
                      verdict: Verdict, detail: string, codes: seq<string>,
                      violations: seq<Violation>, matched: nat)
    requires Folded(seen, fields, engine, verdict, detail, codes, violations, matched)
    requires Outcome(engine, fields)(r) != Throws
    ensures
      var m, b := Matches(engine, fields)(r), Blocks(engine, fields)(r);
      Folded(seen + [r], fields, engine,
             if b then Block else verdict,
             if b && verdict == Allow then Message(engine, fields, r) else detail,
             if b then codes + [ReasonCode(r)] else codes,
             if Reports(engine, fields)(r) then violations + [ToViolation(engine, fields)(r)] else violations,
             if m then matched + 1 else matched)
  {
    FilterOneMore(seen, r, Blocks(engine, fields));
    FilterOneMore(seen, r, Matches(engine, fields));
    FilterOneMore(seen, r, Reports(engine, fields));
    MapOneMore(Filter(seen, Blocks(engine, fields)), r, ReasonCode);
    MapOneMore(Filter(seen, Reports(engine, fields)), r, ToViolation(engine, fields));
  }

  lemma FoldedIsDecided(rules: seq<ResolvedRule>, fields: Fields, ttl: int, serveMode: ServeMode, engine: Engine,
                        verdict: Verdict, detail: string, codes: seq<string>, violations: seq<Violation>, matched: nat)
    requires Folded(rules, fields, engine, verdict, detail, codes, violations, matched)
    ensures Evaluated(rules, fields, ttl, serveMode, engine) == Ok(
      if verdict == Block
      then PolicyDecision(Block, JoinCodes(codes), detail, 0, Unspecified, |rules|, matched, violations)
      else if matched == 0
      then PolicyDecision(Allow, "allowed", "No policy rules matched — package allowed", ttl, serveMode, |rules|, 0,
                          violations)
      else PolicyDecision(Allow, "advisory_only", "Rules matched in advisory mode only — package allowed", ttl,
                          serveMode, |rules|, matched, violations))
  {
  }

  /** The loop's variables. */
  datatype Progress = Progress(
    verdict: Verdict,
    detail: string,
    cacheTtl: int,
    serveMode: ServeMode,
    codes: seq<string>,
    violations: seq<Violation>,
    matched: nat)

  ghost predicate Reached(p: Progress, seen: seq<ResolvedRule>, fields: Fields, ttl: int, serveMode: ServeMode,
                          engine: Engine) {
    && Folded(seen, fields, engine, p.verdict, p.detail, p.codes, p.violations, p.matched)
    && p.cacheTtl == (if p.verdict == Block then 0 else ttl)
    && p.serveMode == (if p.verdict == Block then Unspecified else serveMode)
  }

  /** What the loop's variables come to, for so many rules. */
  function Concluded(p: Progress, rulesEvaluated: nat): PolicyDecision {
    var (reason, detail) :=
      if p.verdict == Block then (JoinCodes(p.codes), p.detail)
      else if p.matched == 0 then ("allowed", "No policy rules matched — package allowed")
      else ("advisory_only", "Rules matched in advisory mode only — package allowed");
    PolicyDecision(p.verdict, reason, detail, p.cacheTtl, p.serveMode, rulesEvaluated, p.matched, p.violations)
  }

  lemma ReachedIsDecided(p: Progress, rules: seq<ResolvedRule>, fields: Fields, ttl: int, serveMode: ServeMode,
                         engine: Engine)
    requires Reached(p, rules, fields, ttl, serveMode, engine)
    ensures Evaluated(rules, fields, ttl, serveMode, engine) == Ok(Concluded(p, |rules|))
  {
    FoldedIsDecided(rules, fields, ttl, serveMode, engine, p.verdict, p.detail, p.codes, p.violations, p.matched);
  }

  lemma ThrowEnds(rules: seq<ResolvedRule>, i: nat, fields: Fields, ttl: int, serveMode: ServeMode, engine: Engine)
    requires i < |rules| && Outcome(engine, fields)(rules[i]) == Throws
    ensures Evaluated(rules, fields, ttl, serveMode, engine) == Err(MalformedCondition)
  {
    assert rules[i] in rules;
  }

  /** One iteration of the loop, for a rule whose condition matched. */
  method FoldMatch(rule: ResolvedRule, fields: Fields, engine: Engine, p: Progress) returns (p': Progress)
    ensures
      var b := Enforces(rule);
      && p'.verdict == (if b then Block else p.verdict)
      && p'.detail == (if b && p.verdict == Allow then Message(engine, fields, rule) else p.detail)
      && p'.cacheTtl == (if b && p.verdict == Allow then 0 else p.cacheTtl)
      && p'.serveMode == (if b && p.verdict == Allow then Unspecified else p.serveMode)
      && p'.codes == (if b then p.codes + [ReasonCode(rule)] else p.codes)
      && p'.violations == (if ActionType(rule) in {"violation", "warning", "info"}
                           then p.violations + [ToViolation(engine, fields)(rule)] else p.violations)
      && p'.matched == p.matched + 1
  {
    p' := p.(matched := p.matched + 1);
    var actionType := GetOr(rule.action.kind, "violation");
    var message := Message(engine, fields, rule);
    if actionType == "violation" || actionType == "warning" || actionType == "info" {
      var violation := Violation(
        rule.id, rule.ruleKey, rule.policyId, rule.policyRuleBindingId, rule.policyProjectBindingId,
        rule.action.recommendedRemediation, GetOr(rule.action.severity, "high"),
        GetOr(rule.action.code, "RULE_MATCHED"), message, rule.effectiveEnforcementMode,
        actionType == "violation" && rule.effectiveEnforcementMode == ENFORCING);
      p' := p'.(violations := p'.violations + [violation]);
    }
    if actionType == "violation" && rule.effectiveEnforcementMode == ENFORCING {
      if p'.verdict == Allow {
        p' := p'.(detail := message, cacheTtl := 0, serveMode := Unspecified);
      }
      p' := p'.(verdict := Block, codes := p'.codes + [GetOr(rule.action.code, "policy_violation")]);
    }
  }

  lemma ReachedNext(p: Progress, p': Progress, seen: seq<ResolvedRule>, r: ResolvedRule,
                    fields: Fields, ttl: int, serveMode: ServeMode, engine: Engine)
    requires Reached(p, seen, fields, ttl, serveMode, engine)
    requires Outcome(engine, fields)(r) != Throws
    requires
      var m, b := Matches(engine, fields)(r), Blocks(engine, fields)(r);
      && p'.verdict == (if b then Block else p.verdict)
      && p'.detail == (if b && p.verdict == Allow then Message(engine, fields, r) else p.detail)
      && p'.cacheTtl == (if b && p.verdict == Allow then 0 else p.cacheTtl)
      && p'.serveMode == (if b && p.verdict == Allow then Unspecified else p.serveMode)
      && p'.codes == (if b then p.codes + [ReasonCode(r)] else p.codes)
      && p'.violations == (if Reports(engine, fields)(r) then p.violations + [ToViolation(engine, fields)(r)]
                           else p.violations)
      && p'.matched == if m then p.matched + 1 else p.matched
    ensures Reached(p', seen + [r], fields, ttl, serveMode, engine)
  {
    FoldedOneMore(seen, r, fields, engine, p.verdict, p.detail, p.codes, p.violations, p.matched);
  }

  /** evaluatePolicyDecision */
  method EvaluatePolicyDecision(rules: seq<ResolvedRule>, fields: Fields, defaultTtl: int, defaultServeMode: ServeMode,
                                engine: Engine)
    returns (result: Common.Result<PolicyDecision, EvaluationError>)
    ensures result == Evaluated(rules, fields, defaultTtl, defaultServeMode, engine)
  {
    var p := Progress(Allow, "No policy rules matched", defaultTtl, defaultServeMode, [], [], 0);
    for i := 0 to |rules|
      invariant Reached(p, rules[..i], fields, defaultTtl, defaultServeMode, engine)
    {
      var rule := rules[i];
      assert rules[..i + 1] == rules[..i] + [rule];
      var outcome := Outcome(engine, fields)(rule);
      if outcome == Throws {
        ThrowEnds(rules, i, fields, defaultTtl, defaultServeMode, engine);
        return Err(MalformedCondition);
      }
      ghost var before := p;
      if outcome.b {
        p := FoldMatch(rule, fields, engine, p);
      }
      ReachedNext(before, p, rules[..i], rule, fields, defaultTtl, defaultServeMode, engine);
    }
    assert rules[..|rules|] == rules;
    ReachedIsDecided(p, rules, fields, defaultTtl, defaultServeMode, engine);
    var decision := Conclude(p, |rules|);
    return Ok(decision);
  }

  /** Its last part: the reason, and the detail of a package that is allowed. */
  method Conclude(p: Progress, rulesEvaluated: nat) returns (d: PolicyDecision)
    ensures d == Concluded(p, rulesEvaluated)
  {
    var reason, detail := "no_match", p.detail;
    if p.verdict == Block {
      reason := JoinCodes(p.codes);
    } else if p.matched == 0 {
      reason := "allowed";
      detail := "No policy rules matched — package allowed";
    } else {
      reason := "advisory_only";
      detail := "Rules matched in advisory mode only — package allowed";
    }
    d := PolicyDecision(p.verdict, reason, detail, p.cacheTtl, p.serveMode, rulesEvaluated, p.matched, p.violations);
  }

  // ----- what the decision means -----

  /** Block exactly when some rule both matches and enforces; blocked packages are never cached or served. */
  lemma BlockIff(rules: seq<ResolvedRule>, fields: Fields, ttl: int, serveMode: ServeMode, engine: Engine)
    ensures var d := Decide(rules, fields, ttl, serveMode, engine);
            && (d.verdict == Block <==> exists r :: r in rules && Blocks(engine, fields)(r))
            && (d.verdict == Block ==> d.cacheTtl == 0 && d.serveMode == Unspecified)
            && (d.verdict == Allow ==> d.cacheTtl == ttl && d.serveMode == serveMode)
  {
    var blocking := Filter(rules, Blocks(engine, fields));
    if blocking != [] {
      assert blocking[0] in blocking;
    }
  }

  lemma BlockerIsMarked(rules: seq<ResolvedRule>, fields: Fields, engine: Engine, r: ResolvedRule)
    requires r in rules && Blocks(engine, fields)(r)
    ensures exists v :: v in Map(Filter(rules, Reports(engine, fields)), ToViolation(engine, fields)) && v.blocked
  {
    var reported := Filter(rules, Reports(engine, fields));
    BlocksMeans(engine, fields, r);
    ReportsMeans(engine, fields, r);
    var i :| 0 <= i < |reported| && reported[i] == r;
    var violations := Map(reported, ToViolation(engine, fields));
    assert violations[i] in violations && violations[i].blocked;
  }

  lemma MarkedIsBlocker(rules: seq<ResolvedRule>, fields: Fields, engine: Engine, v: Violation)
    requires v in Map(Filter(rules, Reports(engine, fields)), ToViolation(engine, fields)) && v.blocked
    ensures exists r :: r in rules && Blocks(engine, fields)(r)
  {
    var reported := Filter(rules, Reports(engine, fields));
    var i :| 0 <= i < |reported| && ToViolation(engine, fields)(reported[i]) == v;
    ReportsMeans(engine, fields, reported[i]);
    BlocksMeans(engine, fields, reported[i]);
    assert reported[i] in reported;
  }

  /** The violations handed on say so too: some is marked as blocking exactly on a block. */
  lemma BlockIffViolation(rules: seq<ResolvedRule>, fields: Fields, ttl: int, serveMode: ServeMode, engine: Engine)
    ensures var d := Decide(rules, fields, ttl, serveMode, engine);
            d.verdict == Block <==> exists v :: v in d.violations && v.blocked
  {
    var d := Decide(rules, fields, ttl, serveMode, engine);
    DecidedViolations(rules, fields, ttl, serveMode, engine);
    BlockIff(rules, fields, ttl, serveMode, engine);
    if d.verdict == Block {
      var r :| r in rules && Blocks(engine, fields)(r);
      BlockerIsMarked(rules, fields, engine, r);
    }
    if v :| v in d.violations && v.blocked {
      MarkedIsBlocker(rules, fields, engine, v);
    }
  }

  /** The detail shown is the message of the first rule, in evaluation order, that blocks. */
  lemma DetailIsFirstBlocker(rules: seq<ResolvedRule>, fields: Fields, ttl: int, serveMode: ServeMode, engine: Engine,
                             k: nat)
    requires k < |rules| && Blocks(engine, fields)(rules[k])
    requires forall i :: 0 <= i < k ==> !Blocks(engine, fields)(rules[i])
    ensures Decide(rules, fields, ttl, serveMode, engine).detail == Message(engine, fields, rules[k])
  {
    assert rules == rules[..k] + rules[k..];
    FilterAppend(rules[..k], rules[k..], Blocks(engine, fields));
    FilterNone(rules[..k], Blocks(engine, fields));
  }

  lemma MapPermutes<T(!new), U(!new)>(a: seq<T>, b: seq<T>, f: T -> U, x: U)
    requires multiset(a) == multiset(b)
    ensures multiset(Map(a, f))[x] == multiset(Map(b, f))[x]
  {
    MapMultiplicity(a, f, x);
    MapMultiplicity(b, f, x);
    CountPermutes(a, b, (t: T) => f(t) == x);
  }

  lemma {:induction false} MapMultiplicity<T(!new), U(!new)>(s: seq<T>, f: T -> U, x: U)
    ensures multiset(Map(s, f))[x] == Count(s, (t: T) => f(t) == x)
  {
    if s != [] {
      MapMultiplicity(s[1..], f, x);
      assert Map(s, f) == [f(s[0])] + Map(s[1..], f);
      assert Count(s, (t: T) => f(t) == x) == (if f(s[0]) == x then 1 else 0) + Count(s[1..], (t: T) => f(t) == x);
    }
  }

  lemma SameReported(rules: seq<ResolvedRule>, others: seq<ResolvedRule>, fields: Fields, engine: Engine)
    requires multiset(rules) == multiset(others)
    ensures multiset(Map(Filter(rules, Reports(engine, fields)), ToViolation(engine, fields)))
         == multiset(Map(Filter(others, Reports(engine, fields)), ToViolation(engine, fields)))
  {
    FilterPermutes(rules, others, Reports(engine, fields));
    var x, y := Filter(rules, Reports(engine, fields)), Filter(others, Reports(engine, fields));
    forall v { MapPermutes(x, y, ToViolation(engine, fields), v); }
  }

  lemma DecidedViolations(rules: seq<ResolvedRule>, fields: Fields, ttl: int, serveMode: ServeMode, engine: Engine)
    ensures Decide(rules, fields, ttl, serveMode, engine).violations
         == Map(Filter(rules, Reports(engine, fields)), ToViolation(engine, fields))
  {
  }

  lemma SameViolations(rules: seq<ResolvedRule>, others: seq<ResolvedRule>, fields: Fields, ttl: int,
                       serveMode: ServeMode, engine: Engine)
    requires multiset(rules) == multiset(others)
    ensures multiset(Decide(rules, fields, ttl, serveMode, engine).violations)
         == multiset(Decide(others, fields, ttl, serveMode, engine).violations)
  {
    DecidedViolations(rules, fields, ttl, serveMode, engine);
    DecidedViolations(others, fields, ttl, serveMode, engine);
    SameReported(rules, others, fields, engine);
  }

  lemma SameThrow(rules: seq<ResolvedRule>, others: seq<ResolvedRule>, fields: Fields, ttl: int, serveMode: ServeMode,
                  engine: Engine)
    requires multiset(rules) == multiset(others)
    ensures Evaluated(rules, fields, ttl, serveMode, engine).Ok?
            == Evaluated(others, fields, ttl, serveMode, engine).Ok?
  {
    Sorting.SameMultiset(rules, others);
  }

  /** All but the texts and the violations depends on two counts. */
  lemma DecidedCounts(rules: seq<ResolvedRule>, fields: Fields, ttl: int, serveMode: ServeMode, engine: Engine)
    ensures var d, blocks := Decide(rules, fields, ttl, serveMode, engine), Count(rules, Blocks(engine, fields)) > 0;
            && d.verdict == (if blocks then Block else Allow)
            && d.cacheTtl == (if blocks then 0 else ttl) && d.serveMode == (if blocks then Unspecified else serveMode)
            && d.rulesEvaluated == |rules| && d.rulesMatched == Count(rules, Matches(engine, fields))
  {
  }

  lemma SameCounts(rules: seq<ResolvedRule>, others: seq<ResolvedRule>, fields: Fields, ttl: int, serveMode: ServeMode,
                   engine: Engine)
    requires multiset(rules) == multiset(others)
    ensures var a, b := Decide(rules, fields, ttl, serveMode, engine), Decide(others, fields, ttl, serveMode, engine);
            && a.verdict == b.verdict && a.cacheTtl == b.cacheTtl && a.serveMode == b.serveMode
            && a.rulesEvaluated == b.rulesEvaluated && a.rulesMatched == b.rulesMatched
  {
    DecidedCounts(rules, fields, ttl, serveMode, engine);
    DecidedCounts(others, fields, ttl, serveMode, engine);
    CountPermutes(rules, others, Matches(engine, fields));
    CountPermutes(rules, others, Blocks(engine, fields));
    assert |multiset(rules)| == |multiset(others)|;
  }

  /** Reordering rules changes neither the verdict, the counts nor the violations reported. */
  lemma OrderIrrelevant(rules: seq<ResolvedRule>, others: seq<ResolvedRule>, fields: Fields, ttl: int,
                        serveMode: ServeMode, engine: Engine)
    requires multiset(rules) == multiset(others)
    ensures
      var a, b := Evaluated(rules, fields, ttl, serveMode, engine), Evaluated(others, fields, ttl, serveMode, engine);
      && a.Ok? == b.Ok?
      && (a.Ok? ==>
            && a.value.verdict == b.value.verdict
            && a.value.cacheTtl == b.value.cacheTtl && a.value.serveMode == b.value.serveMode
            && a.value.rulesEvaluated == b.value.rulesEvaluated && a.value.rulesMatched == b.value.rulesMatched
            && multiset(a.value.violations) == multiset(b.value.violations))
  {
    SameThrow(rules, others, fields, ttl, serveMode, engine);
    SameCounts(rules, others, fields, ttl, serveMode, engine);
    SameViolations(rules, others, fields, ttl, serveMode, engine);
  }
}
