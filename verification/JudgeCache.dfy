/**
 The judge and its memo table: services/intelligence/app/checks/judge.py and
 services/intelligence/app/repositories/check_judge_results.py.
 The language model is a function of the prompt; calls are serialised.
 */
module JudgeCache {
  import opened Common
  import opened PackageNames
  import opened Ranking

  datatype JudgeDecision = JudgeDecision(
    suspicious: bool,
    selectedMatch: Option<string>,
    rationale: string,
    confidence: string,
    cached: bool)

  /** What the judge is asked. */
  datatype Query = Query(ecosystem: string, package: string, description: Option<string>, neighbors: seq<Neighbor>)

  datatype Candidate = Candidate(
    package: string,
    description: Option<string>,
    semanticSimilarity: real,
    lexicalSimilarity: real,
    sourceRank: Option<int>,
    sourceScoreFinal: Option<real>)

  datatype Prompt = Prompt(model: string, package: string, description: Option<string>, candidates: seq<Candidate>)

  datatype Response = Response(suspicious: bool, selectedMatch: Option<string>, rationale: string, confidence: string)

  datatype RequestPayload = RequestPayload(judgeModel: string, ecosystem: string, package: string,
                                           description: Option<string>)

  datatype CandidateEntry = CandidateEntry(requestedPackage: string, candidate: Candidate)

  /**
   Rounding to six digits, the two hashes, the model name behind a judge setting, and the model's
   answer; None is an error the caller sees.
   */
  datatype Services = Services(
    round6: real -> real,
    hashRequest: RequestPayload -> string,
    hashCandidates: seq<CandidateEntry> -> string,
    modelName: string -> string,
    ask: Prompt -> Option<Response>)

  ghost predicate CollisionFree(sv: Services) {
    && (forall x, y :: sv.hashRequest(x) == sv.hashRequest(y) ==> x == y)
    && (forall x, y :: sv.hashCandidates(x) == sv.hashCandidates(y) ==> x == y)
  }

  function CandidateOf(package: string, n: Neighbor, sv: Services): Candidate {
    Candidate(n.package, n.description, sv.round6(n.similarityScore),
              sv.round6(LexicalSimilarity(package, n.package)), n.sourceRank, n.sourceScoreFinal)
  }

  function PromptOf(q: Query, model: string, sv: Services): Prompt {
    Prompt(model, q.package, q.description, Map(q.neighbors, (n: Neighbor) => CandidateOf(q.package, n, sv)))
  }

  predicate IsCandidate(neighbors: seq<Neighbor>, name: string) { exists n :: n in neighbors && n.package == name }

  /** OpenAIJudge.judge: a match outside the candidates is dropped. */
  function BaseJudge(q: Query, model: string, sv: Services): Option<JudgeDecision> {
    match sv.ask(PromptOf(q, model, sv))
    case None => None
    case Some(r) =>
      var known := r.selectedMatch.Some? && IsCandidate(q.neighbors, r.selectedMatch.value);
      Some(JudgeDecision(r.suspicious, if known then r.selectedMatch else None, r.rationale, r.confidence, false))
  }

  datatype Key = Key(judgeModel: string, requestHash: string, candidateHash: string)

  function KeyFor(judgeModel: string, q: Query, sv: Services): Key {
    Key(judgeModel,
        sv.hashRequest(RequestPayload(judgeModel, q.ecosystem, q.package, q.description)),
        sv.hashCandidates(Map(q.neighbors, (n: Neighbor) => CandidateEntry(q.package, CandidateOf(q.package, n, sv)))))
  }

  datatype Row = Row(decision: JudgeDecision, hitCount: nat)

  type Rows = map<Key, Row>

  /** fetch_decision reads an empty match as no match. */
  function ReadBack(d: JudgeDecision): JudgeDecision {
    d.(selectedMatch := if d.selectedMatch == Some("") then None else d.selectedMatch, cached := true)
  }

  /** record_decision: insert, or overwrite and count on conflict. */
  function Recorded(rows: Rows, key: Key, d: JudgeDecision): Rows {
    rows[key := Row(d, if key in rows then rows[key].hitCount + 1 else 1)]
  }

  /** bump_hit_count */
  function Bumped(rows: Rows, key: Key): Rows {
    if key in rows then rows[key := rows[key].(hitCount := rows[key].hitCount + 1)] else rows
  }

  datatype Judged = Judged(rows: Rows, decision: Option<JudgeDecision>)

  /** CachedJudge.judge */
  function JudgeStep(rows: Rows, judgeModel: string, q: Query, sv: Services): Judged {
    var key := KeyFor(judgeModel, q, sv);
    if key in rows then Judged(Bumped(rows, key), Some(ReadBack(rows[key].decision)))
    else
      match BaseJudge(q, sv.modelName(judgeModel), sv)
      case None => Judged(rows, None)
      case Some(d) => Judged(Recorded(rows, key, d), Some(d))
  }

  class CheckJudgeResults {
    var rows: Rows

    constructor ()
      ensures rows == map[]
    {
      rows := map[];
    }

    method FetchDecision(key: Key) returns (found: Option<JudgeDecision>)
      ensures found == if key in rows then Some(ReadBack(rows[key].decision)) else None
    {
      if key !in rows {
        return None;
      }
      var d := rows[key].decision;
      var selected := if d.selectedMatch.Some? && d.selectedMatch.value != "" then d.selectedMatch else None;
      found := Some(JudgeDecision(d.suspicious, selected, d.rationale, d.confidence, true));
    }

    method RecordDecision(key: Key, d: JudgeDecision)
      modifies this
      ensures rows == Recorded(old(rows), key, d)
    {
      var hits := 1;
      if key in rows {
        hits := rows[key].hitCount + 1;
      }
      rows := rows[key := Row(d, hits)];
    }

    method BumpHitCount(key: Key)
      modifies this
      ensures rows == Bumped(old(rows), key)
    {
      if key in rows {
        rows := rows[key := rows[key].(hitCount := rows[key].hitCount + 1)];
      }
    }
  }

  class CachedJudge {
    const judgeModel: string
    const services: Services
    const results: CheckJudgeResults

    constructor (judgeModel: string, services: Services, results: CheckJudgeResults)
      ensures this.judgeModel == judgeModel && this.services == services && this.results == results
    {
      this.judgeModel, this.services, this.results := judgeModel, services, results;
    }

    method Judge(q: Query) returns (decision: Option<JudgeDecision>)
      modifies results
      ensures Judged(results.rows, decision) == JudgeStep(old(results.rows), judgeModel, q, services)
    {
      var key := KeyFor(judgeModel, q, services);
      var cached := results.FetchDecision(key);
      if cached.Some? {
        results.BumpHitCount(key);
        return cached;
      }
      decision := BaseJudge(q, services.modelName(judgeModel), services);
      if decision.Some? {
        results.RecordDecision(key, decision.value);
      }
    }
  }

  // ----- transparency -----

  /** Queries with one key are asked with one prompt, over the same candidate names, and get one answer. */
  lemma KeyDeterminesAnswer(judgeModel: string, q: Query, otherModel: string, other: Query, sv: Services)
    requires CollisionFree(sv) && KeyFor(judgeModel, q, sv) == KeyFor(otherModel, other, sv)
    ensures judgeModel == otherModel
    ensures PromptOf(q, sv.modelName(judgeModel), sv) == PromptOf(other, sv.modelName(judgeModel), sv)
    ensures BaseJudge(q, sv.modelName(judgeModel), sv) == BaseJudge(other, sv.modelName(judgeModel), sv)
  {
    var xs := Map(q.neighbors, (n: Neighbor) => CandidateEntry(q.package, CandidateOf(q.package, n, sv)));
    var ys := Map(other.neighbors, (n: Neighbor) => CandidateEntry(other.package, CandidateOf(other.package, n, sv)));
    assert q.package == other.package && xs == ys;
    assert |q.neighbors| == |xs| == |other.neighbors|;
    var model := sv.modelName(judgeModel);
    var cs, ds := PromptOf(q, model, sv).candidates, PromptOf(other, model, sv).candidates;
    forall i | 0 <= i < |cs| ensures cs[i] == ds[i] && q.neighbors[i].package == other.neighbors[i].package {
      assert xs[i] == ys[i];
    }
    assert cs == ds;
    forall name ensures IsCandidate(q.neighbors, name) == IsCandidate(other.neighbors, name) {
      SameNames(q.neighbors, other.neighbors, name);
      SameNames(other.neighbors, q.neighbors, name);
    }
  }

  lemma SameNames(xs: seq<Neighbor>, ys: seq<Neighbor>, name: string)
    requires |xs| == |ys| && forall i :: 0 <= i < |xs| ==> xs[i].package == ys[i].package
    ensures IsCandidate(xs, name) ==> IsCandidate(ys, name)
  {
    if n :| n in xs && n.package == name {
      var i :| 0 <= i < |xs| && xs[i] == n;
      assert ys[i] in ys && ys[i].package == name;
    }
  }

  /** Every row holds the base judge's decision for every query that would find it. */
  ghost predicate HoldsAnswers(rows: Rows, sv: Services) {
    forall judgeModel, q :: KeyFor(judgeModel, q, sv) in rows ==>
      BaseJudge(q, sv.modelName(judgeModel), sv) == Some(rows[KeyFor(judgeModel, q, sv)].decision)
  }

  lemma JudgeKeepsAnswers(rows: Rows, judgeModel: string, q: Query, sv: Services)
    requires CollisionFree(sv) && HoldsAnswers(rows, sv)
    ensures HoldsAnswers(JudgeStep(rows, judgeModel, q, sv).rows, sv)
  {
    var next := JudgeStep(rows, judgeModel, q, sv).rows;
    forall m, other | KeyFor(m, other, sv) in next
      ensures BaseJudge(other, sv.modelName(m), sv) == Some(next[KeyFor(m, other, sv)].decision)
    {
      if KeyFor(m, other, sv) == KeyFor(judgeModel, q, sv) {
        KeyDeterminesAnswer(judgeModel, q, m, other, sv);
      }
    }
  }

  datatype Call = Call(judgeModel: string, query: Query)

  function Run(calls: seq<Call>, sv: Services): Rows {
    if calls == [] then map[]
    else JudgeStep(Run(calls[..|calls| - 1], sv), calls[|calls| - 1].judgeModel, calls[|calls| - 1].query, sv).rows
  }

  lemma {:induction false} RunsHoldAnswers(calls: seq<Call>, sv: Services)
    requires CollisionFree(sv)
    ensures HoldsAnswers(Run(calls, sv), sv)
  {
    if calls != [] {
      RunsHoldAnswers(calls[..|calls| - 1], sv);
      var last := calls[|calls| - 1];
      JudgeKeepsAnswers(Run(calls[..|calls| - 1], sv), last.judgeModel, last.query, sv);
    }
  }

  /** The two decisions differ at most in the cached flag. */
  predicate SameDecision(x: Option<JudgeDecision>, y: Option<JudgeDecision>) {
    x.Some? == y.Some? && (x.Some? ==> x.value.(cached := false) == y.value.(cached := false))
  }

  /** After these calls the cached judge decides like the base judge, apart from the cached flag. */
  predicate TransparentAfter(calls: seq<Call>, judgeModel: string, q: Query, sv: Services) {
    SameDecision(JudgeStep(Run(calls, sv), judgeModel, q, sv).decision, BaseJudge(q, sv.modelName(judgeModel), sv))
  }

  /** One state: the two differ exactly on a hit whose decision selected the empty name. */
  lemma DiffersOnEmptyName(calls: seq<Call>, judgeModel: string, q: Query, sv: Services)
    requires CollisionFree(sv)
    ensures
      var base := BaseJudge(q, sv.modelName(judgeModel), sv);
      var hit := KeyFor(judgeModel, q, sv) in Run(calls, sv);
      && (TransparentAfter(calls, judgeModel, q, sv) <==> !(hit && base.Some? && base.value.selectedMatch == Some("")))
      && (hit ==> base.Some?)
  {
    RunsHoldAnswers(calls, sv);
  }

  /** Whatever the language model answers, and whatever was asked before. */
  ghost predicate Transparent(judgeModel: string, q: Query, sv: Services) {
    forall ask: Prompt -> Option<Response>, calls :: TransparentAfter(calls, judgeModel, q, sv.(ask := ask))
  }

  /** A model that always selects the empty name. */
  function EmptyName(): Prompt -> Option<Response> { (p: Prompt) => Some(Response(true, Some(""), "", "low")) }

  /** Among candidates with an empty name, the second answer loses the match that the first one had. */
  lemma SecondAnswerLosesMatch(judgeModel: string, q: Query, sv: Services)
    requires CollisionFree(sv) && IsCandidate(q.neighbors, "")
    ensures !TransparentAfter([Call(judgeModel, q)], judgeModel, q, sv.(ask := EmptyName()))
  {
    var sv', call := sv.(ask := EmptyName()), Call(judgeModel, q);
    assert [call][..0] == [];
    assert BaseJudge(q, sv'.modelName(judgeModel), sv').value.selectedMatch == Some("");
    assert KeyFor(judgeModel, q, sv') in Run([call], sv');
    DiffersOnEmptyName([call], judgeModel, q, sv');
  }

  /** The cache is transparent to a query, for all models and histories, exactly if every candidate has a name. */
  lemma CacheTransparentIff(judgeModel: string, q: Query, sv: Services)
    requires CollisionFree(sv)
    ensures Transparent(judgeModel, q, sv) <==> forall n :: n in q.neighbors ==> n.package != ""
  {
    if forall n :: n in q.neighbors ==> n.package != "" {
      forall ask: Prompt -> Option<Response>, calls ensures TransparentAfter(calls, judgeModel, q, sv.(ask := ask)) {
        CacheTransparent(calls, judgeModel, q, sv.(ask := ask));
      }
    } else {
      SecondAnswerLosesMatch(judgeModel, q, sv);
    }
  }

  /** So it is transparent for the neighbours that a search returns, which all have names. */
  lemma CacheTransparent(calls: seq<Call>, judgeModel: string, q: Query, sv: Services)
    requires CollisionFree(sv) && forall n :: n in q.neighbors ==> n.package != ""
    ensures TransparentAfter(calls, judgeModel, q, sv)
  {
    DiffersOnEmptyName(calls, judgeModel, q, sv);
  }

  /** How many calls got an answer under this key. */
  function Answered(calls: seq<Call>, key: Key, sv: Services): nat {
    if calls == [] then 0
    else
      var last := calls[|calls| - 1];
      Answered(calls[..|calls| - 1], key, sv) +
      if KeyFor(last.judgeModel, last.query, sv) == key
          && BaseJudge(last.query, sv.modelName(last.judgeModel), sv).Some? then 1 else 0
  }

  function Hits(rows: Rows, key: Key): nat { if key in rows then rows[key].hitCount else 0 }

  /** A row's hit count is the number of answered calls under its key, the recording one included. */
  lemma {:induction false} HitsCountAnsweredCalls(calls: seq<Call>, key: Key, sv: Services)
    requires CollisionFree(sv)
    ensures Hits(Run(calls, sv), key) == Answered(calls, key, sv)
  {
    if calls != [] {
      HitsCountAnsweredCalls(calls[..|calls| - 1], key, sv);
      RunsHoldAnswers(calls[..|calls| - 1], sv);
    }
  }
}
