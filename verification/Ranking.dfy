/** Candidate merging and re-ranking: services/intelligence/app/checks/heuristics.py. */
module Ranking {
  import opened Common
  import opened Sorting
  import opened PackageNames

  datatype Neighbor = Neighbor(
    package: string,
    description: Option<string>,
    similarityScore: real,
    sourceRank: Option<int>,
    sourceScoreFinal: Option<real>)

  datatype Trust = Low | Medium | High

  /** candidate_trust_band */
  function TrustBand(n: Neighbor): Option<Trust> {
    if n.sourceRank.None? && n.sourceScoreFinal.None? then None
    else if (n.sourceRank.Some? && n.sourceRank.value <= 10)
         || (n.sourceScoreFinal.Some? && n.sourceScoreFinal.value >= 1000.0) then Some(High)
    else if (n.sourceRank.Some? && n.sourceRank.value <= 100)
         || (n.sourceScoreFinal.Some? && n.sourceScoreFinal.value >= 250.0) then Some(Medium)
    else Some(Low)
  }

  function TrustBonus(trust: Option<Trust>): real {
    match trust
    case Some(High) => 0.15
    case Some(Medium) => 0.075
    case _ => 0.0
  }

  /** rerank_score */
  function RerankScore(package: string, n: Neighbor): real {
    var lexical := LexicalSimilarity(package, n.package);
    var exactBonus := if lexical == 1.0 then 1.0 else 0.0;
    lexical * 0.65 + n.similarityScore * 0.2 + TrustBonus(TrustBand(n)) + exactBonus
  }

  datatype RankKey = RankKey(score: real, lexical: real, similarity: real)

  function KeyOf(package: string, n: Neighbor): RankKey {
    RankKey(RerankScore(package, n), LexicalSimilarity(package, n.package), n.similarityScore)
  }

  /** Tuple comparison, larger first. */
  predicate AtLeast(x: RankKey, y: RankKey) {
    x.score > y.score || (x.score == y.score &&
      (x.lexical > y.lexical || (x.lexical == y.lexical && x.similarity >= y.similarity)))
  }

  function RankOrder(package: string): (Neighbor, Neighbor) -> bool {
    (x: Neighbor, y: Neighbor) => AtLeast(KeyOf(package, x), KeyOf(package, y))
  }

  lemma RankOrderTotal(package: string)
    ensures TotalPreorder(RankOrder(package))
  {
    var le := RankOrder(package);
    forall x, y, z ensures le(x, y) || le(y, x) ensures le(x, y) && le(y, z) ==> le(x, z) {
      var a, b, c := KeyOf(package, x), KeyOf(package, y), KeyOf(package, z);
      assert le(x, y) == AtLeast(a, b) && le(y, z) == AtLeast(b, c) && le(x, z) == AtLeast(a, c);
    }
  }

  /** rerank_neighbors: reversing a stable sort by key keeps equal candidates in their original order. */
  function RerankNeighbors(package: string, neighbors: seq<Neighbor>): seq<Neighbor> {
    StableSort(neighbors, RankOrder(package))
  }

  predicate NamesAlike(package: string, n: Neighbor) { Normalize(package) == Normalize(n.package) }

  /** A namesake outscores any other candidate, whatever their trust and semantic similarity. */
  lemma NamesakeOutscores(package: string, x: Neighbor, y: Neighbor)
    requires NamesAlike(package, x) && !NamesAlike(package, y)
    requires -1.0 <= x.similarityScore <= 1.0 && -1.0 <= y.similarityScore <= 1.0
    ensures RerankScore(package, x) > RerankScore(package, y)
  {
    SimilarityIsScore(package, x.package);
    SimilarityIsScore(package, y.package);
  }

  /**
   Re-ranking keeps every candidate, orders them by their key, and puts all candidates whose
   name normalises like the requested one ahead of all that do not.
   */
  lemma RerankPutsNamesakesFirst(package: string, neighbors: seq<Neighbor>)
    requires forall n :: n in neighbors ==> -1.0 <= n.similarityScore <= 1.0
    ensures var ranked := RerankNeighbors(package, neighbors);
            && multiset(ranked) == multiset(neighbors)
            && Sorted(ranked, RankOrder(package))
            && forall i, j :: 0 <= i < j < |ranked| && NamesAlike(package, ranked[j]) ==> NamesAlike(package, ranked[i])
  {
    var le := RankOrder(package);
    var ranked := RerankNeighbors(package, neighbors);
    SortPermutes(neighbors, le);
    RankOrderTotal(package);
    SortSorts(neighbors, le);
    forall i, j | 0 <= i < j < |ranked| && NamesAlike(package, ranked[j])
      ensures NamesAlike(package, ranked[i])
    {
      assert ranked[i] in neighbors && ranked[j] in neighbors;
      assert le(ranked[i], ranked[j]);
      if !NamesAlike(package, ranked[i]) {
        NamesakeOutscores(package, ranked[j], ranked[i]);
      }
    }
  }

  /** Candidates with equal keys keep the order in which the searches returned them. */
  lemma RerankKeepsTies(package: string, neighbors: seq<Neighbor>, k: Neighbor)
    ensures var tied := Tied(RankOrder(package), k);
            Filter(RerankNeighbors(package, neighbors), tied) == Filter(neighbors, tied)
  {
    RankOrderTotal(package);
    SortIsStable(neighbors, RankOrder(package), k);
  }

  /** x is the best candidate of its name among seen, and the earliest of the best. */
  ghost predicate FirstBest(seen: seq<Neighbor>, x: Neighbor) {
    exists i :: 0 <= i < |seen| && seen[i] == x
      && (forall j :: 0 <= j < |seen| && seen[j].package == x.package ==> seen[j].similarityScore <= x.similarityScore)
      && (forall j :: 0 <= j < i && seen[j].package == x.package ==> seen[j].similarityScore < x.similarityScore)
  }

  /** What the dictionary holds after the candidates seen so far. */
  ghost predicate HoldsBest(byPackage: map<string, Neighbor>, seen: seq<Neighbor>) {
    && (forall p :: p in byPackage ==> byPackage[p].package == p && FirstBest(seen, byPackage[p]))
    && (forall n :: n in seen ==> n.package in byPackage)
  }

  lemma SeenOneMore(byPackage: map<string, Neighbor>, seen: seq<Neighbor>, n: Neighbor)
    requires HoldsBest(byPackage, seen)
    ensures
      var replace := n.package !in byPackage || n.similarityScore > byPackage[n.package].similarityScore;
      HoldsBest(if replace then byPackage[n.package := n] else byPackage, seen + [n])
  {
    var more := seen + [n];
    var replace := n.package !in byPackage || n.similarityScore > byPackage[n.package].similarityScore;
    var next := if replace then byPackage[n.package := n] else byPackage;
    forall p | p in next ensures next[p].package == p && FirstBest(more, next[p]) {
      if replace && p == n.package {
        assert more[|seen|] == n;
        forall j | 0 <= j < |seen| && seen[j].package == p ensures seen[j].similarityScore < n.similarityScore {
          assert seen[j] in seen;
        }
      } else {
        var x := byPackage[p];
        var i :| 0 <= i < |seen| && seen[i] == x
          && (forall j :: 0 <= j < |seen| && seen[j].package == x.package ==>
              seen[j].similarityScore <= x.similarityScore)
          && (forall j :: 0 <= j < i && seen[j].package == x.package ==> seen[j].similarityScore < x.similarityScore);
        assert more[i] == x;
      }
    }
  }

  /** The names in s, in order of first appearance: the insertion order of the dictionary. */
  function FirstNames(s: seq<Neighbor>): seq<string> {
    if s == [] then []
    else
      var earlier := FirstNames(s[..|s| - 1]);
      var name := s[|s| - 1].package;
      if name in earlier then earlier else earlier + [name]
  }

  /** The dictionary and its insertion order after the candidates seen so far. */
  ghost predicate Merged(byPackage: map<string, Neighbor>, order: seq<string>, seen: seq<Neighbor>) {
    && HoldsBest(byPackage, seen)
    && order == FirstNames(seen)
    && Distinct(order)
    && forall p :: p in order <==> p in byPackage
  }

  lemma MergedOneMore(byPackage: map<string, Neighbor>, order: seq<string>, seen: seq<Neighbor>, n: Neighbor)
    requires Merged(byPackage, order, seen)
    ensures
      var isNew := n.package !in byPackage;
      var replace := isNew || n.similarityScore > byPackage[n.package].similarityScore;
      Merged(if replace then byPackage[n.package := n] else byPackage,
             if isNew then order + [n.package] else order, seen + [n])
  {
    SeenOneMore(byPackage, seen, n);
    assert (seen + [n])[..|seen|] == seen;
  }

  /** The dictionary's values, in insertion order. */
  function Values(byPackage: map<string, Neighbor>, order: seq<string>): seq<Neighbor>
    requires forall p :: p in order ==> p in byPackage
  {
    seq(|order|, k requires 0 <= k < |order| && order[k] in byPackage => byPackage[order[k]])
  }

  /** merged has one candidate a name, the earliest of the best, in order of first appearance. */
  ghost predicate BestOfEachName(merged: seq<Neighbor>, all: seq<Neighbor>) {
    && Map(merged, (n: Neighbor) => n.package) == FirstNames(all)
    && (forall n :: n in merged ==> FirstBest(all, n))
    && (forall i, j :: 0 <= i < j < |merged| ==> merged[i].package != merged[j].package)
    && (forall n :: n in all ==> exists m :: m in merged && m.package == n.package)
  }

  lemma ValuesAreBest(byPackage: map<string, Neighbor>, order: seq<string>, seen: seq<Neighbor>)
    requires Merged(byPackage, order, seen)
    ensures BestOfEachName(Values(byPackage, order), seen)
  {
    var merged := Values(byPackage, order);
    forall k | 0 <= k < |merged| ensures merged[k].package == order[k] && FirstBest(seen, merged[k]) {
      assert order[k] in order;
    }
    forall n | n in seen ensures exists m :: m in merged && m.package == n.package {
      var k :| 0 <= k < |order| && order[k] == n.package;
      assert merged[k] in merged;
    }
  }

  function Itself(s: seq<Neighbor>): seq<Neighbor> { s }

  /** merge_candidate_sets */
  method MergeCandidateSets(sets: seq<seq<Neighbor>>) returns (merged: seq<Neighbor>)
    ensures BestOfEachName(merged, FlatMap(sets, Itself))
  {
    var byPackage: map<string, Neighbor> := map[];
    var order: seq<string> := [];
    ghost var seen: seq<Neighbor> := [];
    for i := 0 to |sets|
      invariant Merged(byPackage, order, seen)
      invariant seen == FlatMap(sets[..i], Itself)
    {
      byPackage, order := MergeSet(sets[i], byPackage, order, seen);
      seen := seen + sets[i];
      FlattenOneMore(sets, i);
    }
    assert sets[..|sets|] == sets;
    ValuesAreBest(byPackage, order, seen);
    merged := Values(byPackage, order);
  }

  lemma PrefixGrows(seen: seq<Neighbor>, candidates: seq<Neighbor>, j: nat)
    requires j < |candidates|
    ensures seen + candidates[..j] + [candidates[j]] == seen + candidates[..j + 1]
  {
  }

  lemma PrefixIsAll(candidates: seq<Neighbor>)
    ensures candidates[..|candidates|] == candidates
  {
  }

  /** The inner loop: one candidate list. */
  method MergeSet(candidates: seq<Neighbor>, byPackage: map<string, Neighbor>, order: seq<string>,
                  ghost seen: seq<Neighbor>)
    returns (byPackage': map<string, Neighbor>, order': seq<string>)
    requires Merged(byPackage, order, seen)
    ensures Merged(byPackage', order', seen + candidates)
  {
    byPackage', order' := byPackage, order;
    ghost var all := seen;
    for j := 0 to |candidates|
      invariant all == seen + candidates[..j] && Merged(byPackage', order', all)
    {
      byPackage', order' := MergeOne(candidates[j], byPackage', order', all);
      all := all + [candidates[j]];
      PrefixGrows(seen, candidates, j);
    }
    PrefixIsAll(candidates);
  }

  /** Its body: the dictionary keeps the place of a name that it replaces. */
  method MergeOne(n: Neighbor, byPackage: map<string, Neighbor>, order: seq<string>, ghost seen: seq<Neighbor>)
    returns (byPackage': map<string, Neighbor>, order': seq<string>)
    requires Merged(byPackage, order, seen)
    ensures Merged(byPackage', order', seen + [n])
  {
    byPackage', order' := byPackage, order;
    MergedOneMore(byPackage, order, seen, n);
    if n.package !in byPackage {
      order' := order + [n.package];
      byPackage' := byPackage[n.package := n];
    } else if n.similarityScore > byPackage[n.package].similarityScore {
      byPackage' := byPackage[n.package := n];
    }
  }

  lemma FlattenOneMore(sets: seq<seq<Neighbor>>, i: nat)
    requires i < |sets|
    ensures FlatMap(sets[..i + 1], Itself) == FlatMap(sets[..i], Itself) + sets[i]
  {
    assert sets[..i + 1] == sets[..i] + [sets[i]];
    FlatMapAppend(sets[..i], [sets[i]], Itself);
    assert FlatMap([sets[i]], Itself) == sets[i] + FlatMap([], Itself);
  }
}
