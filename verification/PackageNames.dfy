/**
 Name normalisation, similarity and the typo test (services/intelligence/app/domain/package_names.py),
 and the corpus scan built on them (services/intelligence/app/repositories/package_embeddings.py).
 Scores are reals; characters are lower-cased one by one.
 */
module PackageNames {
  import opened Common
  import opened EditDistance

  predicate IsSpace(c: char) { c in " \t\n\r" }

  function LowerChar(c: char): char {
    if 'A' <= c <= 'Z' then c - 'A' + 'a' else c
  }

  function Lower(s: string): string { Map(s, LowerChar) }

  /** str.strip */
  function Strip(s: string): (r: string)
    ensures |r| <= |s|
    ensures r == [] || (!IsSpace(r[0]) && !IsSpace(r[|r| - 1]))
  {
    if s == [] then []
    else if IsSpace(s[0]) then Strip(s[1..])
    else if IsSpace(s[|s| - 1]) then Strip(s[..|s| - 1])
    else s
  }

  /** The characters that the pattern [^a-z0-9] keeps. */
  predicate IsNameChar(c: char) { 'a' <= c <= 'z' || '0' <= c <= '9' }

  function NameChars(s: string): string { Filter(s, IsNameChar) }

  /** normalize_package_name_for_similarity */
  function Normalize(value: string): string { NameChars(Lower(Strip(value))) }

  lemma LeadingSpace(s: string)
    requires s != [] && IsSpace(s[0])
    ensures NameChars(Lower(s)) == NameChars(Lower(s[1..]))
  {
    assert Lower(s) == [s[0]] + Lower(s[1..]);
    FilterAppend([s[0]], Lower(s[1..]), IsNameChar);
  }

  lemma TrailingSpace(s: string)
    requires s != [] && IsSpace(s[|s| - 1])
    ensures NameChars(Lower(s)) == NameChars(Lower(s[..|s| - 1]))
  {
    var front := s[..|s| - 1];
    assert Lower(s) == Lower(front) + [s[|s| - 1]];
    FilterAppend(Lower(front), [s[|s| - 1]], IsNameChar);
  }

  lemma {:induction false} StripDropsNoNameChar(s: string)
    ensures NameChars(Lower(Strip(s))) == NameChars(Lower(s))
  {
    if s == [] {
    } else if IsSpace(s[0]) {
      StripDropsNoNameChar(s[1..]);
      LeadingSpace(s);
    } else if IsSpace(s[|s| - 1]) {
      StripDropsNoNameChar(s[..|s| - 1]);
      TrailingSpace(s);
    }
  }

  /** Normalising is idempotent, so a normalised name can be compared with a raw one. */
  lemma NormalizeIdempotent(s: string)
    ensures Normalize(Normalize(s)) == Normalize(s)
    ensures forall c :: c in Normalize(s) ==> IsNameChar(c)
  {
    var n := Normalize(s);
    forall i | 0 <= i < |n| ensures Lower(n)[i] == n[i] {
      assert n[i] in n;
    }
    assert Lower(n) == n;
    StripDropsNoNameChar(n);
    FilterAll(n, IsNameChar);
  }

  function MaxLength(a: string, b: string): nat { if |a| < |b| then |b| else |a| }

  /** lexical_similarity_score */
  function LexicalSimilarity(left: string, right: string): real {
    var l, r := Normalize(left), Normalize(right);
    if l == [] && r == [] then 1.0
    else if l == [] || r == [] then 0.0
    else
      var score := 1.0 - Distance(l, r) as real / MaxLength(l, r) as real;
      if score > 0.0 then score else 0.0
  }

  lemma TimesPositive(a: real, x: real)
    requires x > 0.0
    ensures a > 0.0 ==> a * x > 0.0
    ensures a < 0.0 ==> a * x < 0.0
  {
  }

  /** Comparing after scaling by a positive number is comparing before. */
  lemma ScaleCompares(q: real, r: real, x: real)
    requires x > 0.0
    ensures q <= r <==> q * x <= r * x
  {
    TimesPositive(q - r, x);
    assert (q - r) * x == q * x - r * x;
  }

  lemma QuotientTimes(d: real, x: real)
    requires x > 0.0
    ensures d / x * x == d
  {
  }

  /** q stands for y / x. */
  lemma QuotientCompares(q: real, y: real, x: real)
    requires x > 0.0 && y >= 0.0 && q * x == y
    ensures q >= 0.0
    ensures q <= 1.0 <==> y <= x
    ensures q <= 0.0 <==> y == 0.0
    ensures q <= 0.25 <==> 4.0 * y <= x
  {
    ScaleCompares(0.0, q, x);
    ScaleCompares(q, 0.0, x);
    ScaleCompares(q, 1.0, x);
    assert 1.0 * x == x;
    ScaleCompares(q, 0.25, x);
    assert 4.0 * (0.25 * x) == x;
  }

  lemma WholeCompares(d: nat, n: nat)
    ensures d as real <= n as real <==> d <= n
    ensures 4.0 * (d as real) <= n as real <==> 4 * d <= n
  {
    assert (4 * d) as real == 4.0 * (d as real);
  }

  lemma DivideAtMostOne(d: nat, n: nat)
    requires 0 < n && d <= n
    ensures 0.0 <= d as real / n as real <= 1.0
    ensures d as real / n as real == 0.0 <==> d == 0
    ensures d as real / n as real <= 0.25 <==> 4 * d <= n
  {
    QuotientTimes(d as real, n as real);
    QuotientCompares(d as real / n as real, d as real, n as real);
    WholeCompares(d, n);
  }

  /** Similarity is a symmetric score in [0, 1] that is 1 exactly for names that normalise alike. */
  lemma SimilarityIsScore(left: string, right: string)
    ensures 0.0 <= LexicalSimilarity(left, right) <= 1.0
    ensures LexicalSimilarity(left, right) == 1.0 <==> Normalize(left) == Normalize(right)
    ensures LexicalSimilarity(left, right) == LexicalSimilarity(right, left)
  {
    var l, r := Normalize(left), Normalize(right);
    DistanceBounds(l, r);
    DistanceZeroIffEqual(l, r);
    DistanceSymmetric(l, r);
    if l != [] && r != [] {
      DivideAtMostOne(Distance(l, r), MaxLength(l, r));
    }
  }

  /** looks_like_typo_variant */
  predicate LooksLikeTypoVariant(package: string, candidate: string) {
    var p, c := Normalize(package), Normalize(candidate);
    if p == c then false
    else if p == [] || c == [] then false
    else if |p| - |c| > 2 || |c| - |p| > 2 then false
    else if p[0] != c[0] then false
    else LexicalSimilarity(package, candidate) >= 0.75
  }

  /** The typo test in whole numbers: some edits, at most one for every four characters. */
  lemma TypoVariantMeans(package: string, candidate: string)
    ensures LooksLikeTypoVariant(package, candidate) <==>
            var p, c := Normalize(package), Normalize(candidate);
            && p != [] && c != [] && p[0] == c[0]
            && -2 <= |p| - |c| <= 2
            && 0 < 4 * Distance(p, c) <= MaxLength(p, c)
  {
    var p, c := Normalize(package), Normalize(candidate);
    DistanceBounds(p, c);
    DistanceZeroIffEqual(p, c);
    if p != [] && c != [] {
      DivideAtMostOne(Distance(p, c), MaxLength(p, c));
    }
  }

  lemma TypoVariantSymmetric(package: string, candidate: string)
    ensures LooksLikeTypoVariant(package, candidate) == LooksLikeTypoVariant(candidate, package)
  {
    SimilarityIsScore(package, candidate);
  }

  datatype CorpusRow = CorpusRow(ecosystem: string, package: string, searchEligible: bool)

  /** The length the query compares: it removes characters without lower-casing first. */
  function QueryLength(package: string): nat { |NameChars(package)| }

  predicate Fetched(row: CorpusRow, ecosystem: string, normalized: string) {
    && row.ecosystem == ecosystem
    && row.searchEligible
    && (if |normalized| - 2 > 1 then |normalized| - 2 else 1) <= QueryLength(row.package) <= |normalized| + 2
  }

  /** A row the scan accepts, wherever the query's length window lies. */
  predicate Adjacent(row: CorpusRow, ecosystem: string, package: string, exclude: Option<string>) {
    && row.ecosystem == ecosystem
    && row.searchEligible
    && exclude != Some(row.package)
    && row.package != package
    && LooksLikeTypoVariant(package, row.package)
  }

  /** What the seed record validator stores: stripped and lower-cased. */
  predicate StoredName(name: string) { Lower(name) == name }

  /** The length window never hides a typo variant, because stored names are lower case. */
  lemma WindowHidesNothing(row: CorpusRow, ecosystem: string, package: string, exclude: Option<string>)
    requires StoredName(row.package)
    requires Adjacent(row, ecosystem, package, exclude)
    ensures Fetched(row, ecosystem, Normalize(package))
  {
    TypoVariantMeans(package, row.package);
    StripDropsNoNameChar(row.package);
  }

  predicate Letters(s: string, first: char, last: char) { forall c :: c in s ==> first <= c <= last }

  /** A stored name in capitals would be out of the window of the very name it imitates. */
  lemma WindowNeedsStoredNames(package: string, candidate: string, extra: char, ecosystem: string)
    requires |package| >= 3 && Letters(package + [extra], 'a', 'z')
    requires Letters(candidate, 'A', 'Z') && Lower(candidate) == package + [extra]
    ensures var row := CorpusRow(ecosystem, candidate, true);
            Adjacent(row, ecosystem, package, None) && !Fetched(row, ecosystem, Normalize(package))
  {
    var lowered := package + [extra];
    CapitalsNormalize(candidate, lowered);
    assert forall c :: c in package ==> c in lowered;
    LowerNormalizes(package);
    assert lowered[0] == package[0];
    OneInsertion(package, extra);
    DistanceZeroIffEqual(package, lowered);
    TypoVariantMeans(package, candidate);
  }

  lemma LowerNormalizes(name: string)
    requires Letters(name, 'a', 'z')
    ensures Normalize(name) == name
  {
    StripDropsNoNameChar(name);
    forall i | 0 <= i < |name| ensures Lower(name)[i] == name[i] {
      assert name[i] in name;
    }
    assert Lower(name) == name;
    FilterAll(name, IsNameChar);
  }

  lemma CapitalsNormalize(name: string, lowered: string)
    requires Letters(name, 'A', 'Z') && Letters(lowered, 'a', 'z') && Lower(name) == lowered
    ensures Normalize(name) == lowered && QueryLength(name) == 0
  {
    StripDropsNoNameChar(name);
    FilterAll(lowered, IsNameChar);
    FilterNone(name, IsNameChar);
  }

  lemma OneInsertion(a: string, c: char)
    ensures Distance(a, a + [c]) <= 1
  {
    var b := a + [c];
    assert b[..|b| - 1] == a;
    DistanceZeroIffEqual(a, a);
    DistanceBounds(a, b);
  }

  function Fetch(corpus: seq<CorpusRow>, ecosystem: string, normalized: string): (rows: seq<CorpusRow>)
    ensures forall row :: row in rows <==> row in corpus && Fetched(row, ecosystem, normalized)
  {
    Filter(corpus, (row: CorpusRow) => Fetched(row, ecosystem, normalized))
  }

  /** The scan accepts a row of the query's answer, whatever the window was. */
  predicate Accepts(candidate: string, package: string, exclude: Option<string>) {
    exclude != Some(candidate) && candidate != package && LooksLikeTypoVariant(package, candidate)
  }

  /** has_adjacent_name_in_corpus: whether the query's answer has an adjacent name. */
  method HasAdjacentName(corpus: seq<CorpusRow>, ecosystem: string, package: string, exclude: Option<string>)
    returns (found: bool)
    ensures found <==>
            exists row :: row in corpus && Fetched(row, ecosystem, Normalize(package))
                          && Adjacent(row, ecosystem, package, exclude)
  {
    var normalized := Normalize(package);
    if normalized == [] {
      return false;
    }
    var rows := Fetch(corpus, ecosystem, normalized);
    AcceptedIsAdjacent(corpus, rows, ecosystem, package, exclude);
    found := Scan(rows, package, exclude);
  }

  method Scan(rows: seq<CorpusRow>, package: string, exclude: Option<string>) returns (found: bool)
    ensures found <==> exists k :: 0 <= k < |rows| && Accepts(rows[k].package, package, exclude)
  {
    for i := 0 to |rows|
      invariant forall k :: 0 <= k < i ==> !Accepts(rows[k].package, package, exclude)
    {
      var candidate := rows[i].package;
      if exclude == Some(candidate) || candidate == package {
        continue;
      }
      if LooksLikeTypoVariant(package, candidate) {
        assert Accepts(rows[i].package, package, exclude);
        return true;
      }
    }
    return false;
  }

  lemma AcceptedIsAdjacent(corpus: seq<CorpusRow>, rows: seq<CorpusRow>, ecosystem: string, package: string,
                           exclude: Option<string>)
    requires forall row :: row in rows <==> row in corpus && Fetched(row, ecosystem, Normalize(package))
    ensures (exists k :: 0 <= k < |rows| && Accepts(rows[k].package, package, exclude)) <==>
            exists row :: row in corpus && Fetched(row, ecosystem, Normalize(package))
                && Adjacent(row, ecosystem, package, exclude)
  {
    if row :| row in corpus && Fetched(row, ecosystem, Normalize(package))
                  && Adjacent(row, ecosystem, package, exclude) {
      assert row in rows;
      var k :| 0 <= k < |rows| && rows[k] == row;
      assert Accepts(rows[k].package, package, exclude);
    }
    if k :| 0 <= k < |rows| && Accepts(rows[k].package, package, exclude) {
      assert rows[k] in rows;
      assert Adjacent(rows[k], ecosystem, package, exclude);
    }
  }

  /** Over names as the validator stores them the query loses nothing: the scan answers for the whole corpus. */
  lemma FetchLosesNothing(corpus: seq<CorpusRow>, ecosystem: string, package: string, exclude: Option<string>)
    requires forall row :: row in corpus ==> StoredName(row.package)
    ensures (exists row :: row in corpus && Fetched(row, ecosystem, Normalize(package))
                           && Adjacent(row, ecosystem, package, exclude)) <==>
            exists row :: row in corpus && Adjacent(row, ecosystem, package, exclude)
  {
    if row :| row in corpus && Adjacent(row, ecosystem, package, exclude) {
      WindowHidesNothing(row, ecosystem, package, exclude);
    }
  }
}
