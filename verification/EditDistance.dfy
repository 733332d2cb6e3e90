/**
 The distance behind typosquat detection: services/intelligence/app/domain/package_names.py.
 Edit scripts are the reference definition; the recurrence and the table-filling loop are
 both measured against them.
 */
module EditDistance {
  function Min(x: nat, y: nat): nat { if x < y then x else y }

  /** One move over the text, left to right. No character is touched by two moves. */
  datatype Edit = Keep | Insert(c: char) | Delete | Substitute(c: char) | Swap {
    /** How many characters of the input the move consumes. */
    function Consumes(): nat {
      match this
      case Insert(_) => 0
      case Swap => 2
      case _ => 1
    }

    /** What the move writes for the characters it consumed. */
    function Writes(taken: string): string
      requires |taken| == Consumes()
    {
      match this
      case Keep => taken
      case Insert(c) => [c]
      case Delete => []
      case Substitute(c) => [c]
      case Swap => [taken[1], taken[0]]
    }

    function Cost(): nat { if Keep? then 0 else 1 }
  }

  datatype Outcome = Stuck | Wrote(text: string)

  /** Runs a script over the whole of a. It is stuck when it runs out of input or leaves some over. */
  function Run(script: seq<Edit>, a: string): Outcome {
    if script == [] then if a == [] then Wrote([]) else Stuck
    else
      var last := script[|script| - 1];
      if |a| < last.Consumes() then Stuck
      else
        var split := |a| - last.Consumes();
        match Run(script[..|script| - 1], a[..split])
        case Stuck => Stuck
        case Wrote(text) => Wrote(text + last.Writes(a[split..]))
  }

  function TotalCost(script: seq<Edit>): nat {
    if script == [] then 0
    else TotalCost(script[..|script| - 1]) + script[|script| - 1].Cost()
  }

  /** d is the least cost of a script that rewrites a into b. */
  ghost predicate IsLeastCost(a: string, b: string, d: nat) {
    && (exists script :: Run(script, a) == Wrote(b) && TotalCost(script) == d)
    && (forall script :: Run(script, a) == Wrote(b) ==> d <= TotalCost(script))
  }

  function Mismatch(x: char, y: char): nat { if x == y then 0 else 1 }

  /** The last two characters of a are those of b, exchanged. */
  predicate EndsSwapped(a: string, b: string) {
    && |a| > 1 && |b| > 1
    && a[|a| - 1] == b[|b| - 2]
    && a[|a| - 2] == b[|b| - 1]
  }

  /** The recurrence that the table obeys, on whole prefixes. */
  function Distance(a: string, b: string): nat
    decreases |a| + |b|
  {
    if a == [] then |b|
    else if b == [] then |a|
    else
      var a1, b1 := a[..|a| - 1], b[..|b| - 1];
      var cost := Mismatch(a[|a| - 1], b[|b| - 1]);
      var plain := Min(Min(Distance(a1, b) + 1, Distance(a, b1) + 1), Distance(a1, b1) + cost);
      if EndsSwapped(a, b)
      then Min(plain, Distance(a[..|a| - 2], b[..|b| - 2]) + cost)
      else plain
  }

  /** Appending one move to a script appends what it writes. */
  lemma RunAppend(script: seq<Edit>, a: string, move: Edit, taken: string)
    requires |taken| == move.Consumes()
    ensures Run(script + [move], a + taken) ==
            match Run(script, a) case Stuck => Stuck case Wrote(text) => Wrote(text + move.Writes(taken))
    ensures TotalCost(script + [move]) == TotalCost(script) + move.Cost()
  {
    var s := script + [move];
    assert s[..|s| - 1] == script;
    assert (a + taken)[..|a|] == a && (a + taken)[|a|..] == taken;
  }

  function Inserts(b: string): seq<Edit> { seq(|b|, i requires 0 <= i < |b| => Insert(b[i])) }

  function Deletes(n: nat): seq<Edit> { seq(n, i => Delete) }

  lemma InsertsOneMore(b: string)
    requires b != []
    ensures Inserts(b) == Inserts(b[..|b| - 1]) + [Insert(b[|b| - 1])]
  {
  }

  lemma NothingTaken(b1: string, y: char)
    ensures var none: string := []; none + none == none && b1 + Insert(y).Writes(none) == b1 + [y]
  {
  }

  lemma {:induction false} InsertsRun(b: string)
    ensures Run(Inserts(b), []) == Wrote(b) && TotalCost(Inserts(b)) == |b|
    decreases |b|
  {
    if b != [] {
      var b1, y := b[..|b| - 1], b[|b| - 1];
      InsertsRun(b1);
      RunAppend(Inserts(b1), [], Insert(y), []);
      InsertsOneMore(b);
      NothingTaken(b1, y);
      assert b == b1 + [y];
    }
  }

  lemma {:induction false} DeletesRun(a: string)
    ensures Run(Deletes(|a|), a) == Wrote([]) && TotalCost(Deletes(|a|)) == |a|
  {
    if a != [] {
      var a1 := a[..|a| - 1];
      DeletesRun(a1);
      RunAppend(Deletes(|a1|), a1, Delete, a[|a1|..]);
      assert Deletes(|a|) == Deletes(|a1|) + [Delete];
      assert a == a1 + a[|a1|..];
    }
  }

  /** Some script attains the recurrence's value. */
  lemma {:induction false} Attained(a: string, b: string) returns (script: seq<Edit>)
    ensures Run(script, a) == Wrote(b) && TotalCost(script) == Distance(a, b)
    decreases |a| + |b|
  {
    if a == [] {
      InsertsRun(b);
      return Inserts(b);
    }
    if b == [] {
      DeletesRun(a);
      return Deletes(|a|);
    }
    var x, y := a[|a| - 1], b[|b| - 1];
    var a1, b1 := a[..|a| - 1], b[..|b| - 1];
    assert a == a1 + [x] && b == b1 + [y];
    var d := Distance(a, b);
    if d == Distance(a1, b) + 1 {
      var s := Attained(a1, b);
      RunAppend(s, a1, Delete, [x]);
      assert b + [] == b;
      script := s + [Delete];
    } else if d == Distance(a, b1) + 1 {
      var s := Attained(a, b1);
      RunAppend(s, a, Insert(y), []);
      assert a + [] == a;
      script := s + [Insert(y)];
    } else if d == Distance(a1, b1) + Mismatch(x, y) {
      var s := Attained(a1, b1);
      var move := if x == y then Keep else Substitute(y);
      RunAppend(s, a1, move, [x]);
      script := s + [move];
    } else {
      script := AttainedBySwap(a, b);
    }
  }

  /**
   The exchange branch. When all four characters are equal the code charges the exchange
   nothing, which two kept characters attain.
   */
  lemma {:induction false} AttainedBySwap(a: string, b: string) returns (script: seq<Edit>)
    requires EndsSwapped(a, b)
    ensures Run(script, a) == Wrote(b)
    ensures TotalCost(script) == Distance(a[..|a| - 2], b[..|b| - 2]) + Mismatch(a[|a| - 1], b[|b| - 1])
    decreases |a| + |b|, 0
  {
    var w, x := a[|a| - 2], a[|a| - 1];
    var a2, b2 := a[..|a| - 2], b[..|b| - 2];
    assert a == a2 + [w, x] && b == b2 + [x, w];
    var s := Attained(a2, b2);
    if w == x {
      RunAppend(s, a2, Keep, [w]);
      RunAppend(s + [Keep], a2 + [w], Keep, [x]);
      assert a2 + [w] + [x] == a && b2 + [x] + [w] == b;
      script := s + [Keep] + [Keep];
    } else {
      RunAppend(s, a2, Swap, [w, x]);
      script := s + [Swap];
    }
  }

  lemma OneInsert(a: string, b: string, y: char)
    ensures Distance(a, b + [y]) <= Distance(a, b) + 1
  {
    assert (b + [y])[..|b|] == b;
  }

  lemma OneDelete(a: string, x: char, b: string)
    ensures Distance(a + [x], b) <= Distance(a, b) + 1
  {
    assert (a + [x])[..|a|] == a;
  }

  lemma OneSubstitute(a: string, x: char, b: string, y: char)
    ensures Distance(a + [x], b + [y]) <= Distance(a, b) + Mismatch(x, y)
  {
    assert (a + [x])[..|a|] == a && (b + [y])[..|b|] == b;
  }

  lemma OneSwap(a: string, w: char, x: char, b: string)
    ensures Distance(a + [w, x], b + [x, w]) <= Distance(a, b) + 1
  {
    var a2, b2 := a + [w, x], b + [x, w];
    assert a2[..|a|] == a && b2[..|b|] == b && EndsSwapped(a2, b2);
  }

  /** A last move adds no less than it costs. */
  lemma OneMoveMore(a: string, taken: string, text: string, move: Edit)
    requires |taken| == move.Consumes()
    ensures Distance(a + taken, text + move.Writes(taken)) <= Distance(a, text) + move.Cost()
  {
    match move {
      case Insert(c) =>
        assert a + taken == a;
        OneInsert(a, text, c);
      case Delete =>
        assert text + [] == text && taken == [taken[0]];
        OneDelete(a, taken[0], text);
      case Swap =>
        assert taken == [taken[0], taken[1]];
        OneSwap(a, taken[0], taken[1], text);
      case Keep =>
        assert taken == [taken[0]];
        OneSubstitute(a, taken[0], text, taken[0]);
      case Substitute(c) =>
        assert taken == [taken[0]];
        OneSubstitute(a, taken[0], text, c);
    }
  }

  /** What the script has written before its last move, over what the move leaves of a. */
  ghost predicate BeforeLast(script: seq<Edit>, a: string, b: string, kept: string, taken: string, text: string)
    requires script != []
  {
    var move := script[|script| - 1];
    && |taken| == move.Consumes() && a == kept + taken && b == text + move.Writes(taken)
    && Run(script[..|script| - 1], kept) == Wrote(text)
  }

  lemma LastMove(script: seq<Edit>, a: string, b: string) returns (kept: string, taken: string, text: string)
    requires script != [] && Run(script, a) == Wrote(b)
    ensures BeforeLast(script, a, b, kept, taken, text)
  {
    var split := |a| - script[|script| - 1].Consumes();
    kept, taken := a[..split], a[split..];
    text := Run(script[..|script| - 1], kept).text;
  }

  /** No script is cheaper than the recurrence's value. */
  lemma {:induction false} NoScriptCheaper(script: seq<Edit>, a: string, b: string)
    requires Run(script, a) == Wrote(b)
    ensures Distance(a, b) <= TotalCost(script)
    decreases |script|
  {
    if script != [] {
      var kept, taken, text := LastMove(script, a, b);
      NoScriptCheaper(script[..|script| - 1], kept, text);
      OneMoveMore(kept, taken, text, script[|script| - 1]);
    }
  }

  /** The recurrence is the least cost over all edit scripts. */
  lemma DistanceIsLeastCost(a: string, b: string)
    ensures IsLeastCost(a, b, Distance(a, b))
  {
    var best := Attained(a, b);
    forall script | Run(script, a) == Wrote(b) ensures Distance(a, b) <= TotalCost(script) {
      NoScriptCheaper(script, a, b);
    }
  }

  lemma {:induction false} DistanceBounds(a: string, b: string)
    ensures Distance(a, b) <= if |a| < |b| then |b| else |a|
    ensures |a| - |b| <= Distance(a, b) && |b| - |a| <= Distance(a, b)
    decreases |a| + |b|
  {
    if a != [] && b != [] {
      DistanceBounds(a[..|a| - 1], b);
      DistanceBounds(a, b[..|b| - 1]);
      DistanceBounds(a[..|a| - 1], b[..|b| - 1]);
      if EndsSwapped(a, b) { DistanceBounds(a[..|a| - 2], b[..|b| - 2]); }
    }
  }

  lemma {:induction false} DistanceSymmetric(a: string, b: string)
    ensures Distance(a, b) == Distance(b, a)
    decreases |a| + |b|
  {
    if a != [] && b != [] {
      DistanceSymmetric(a[..|a| - 1], b);
      DistanceSymmetric(a, b[..|b| - 1]);
      DistanceSymmetric(a[..|a| - 1], b[..|b| - 1]);
      if EndsSwapped(a, b) { DistanceSymmetric(a[..|a| - 2], b[..|b| - 2]); }
    }
  }

  lemma {:induction false} DistanceZeroIffEqual(a: string, b: string)
    ensures Distance(a, b) == 0 <==> a == b
    decreases |a| + |b|
  {
    if a != [] && b != [] {
      DistanceZeroIffEqual(a[..|a| - 1], b[..|b| - 1]);
      if EndsSwapped(a, b) {
        DistanceZeroIffEqual(a[..|a| - 2], b[..|b| - 2]);
      }
      ZeroOneMore(a, b);
    }
  }

  predicate ZeroIffEqual(a: string, b: string) { Distance(a, b) == 0 <==> a == b }

  lemma ZeroOneMore(a: string, b: string)
    requires a != [] && b != [] && ZeroIffEqual(a[..|a| - 1], b[..|b| - 1])
    requires EndsSwapped(a, b) ==> ZeroIffEqual(a[..|a| - 2], b[..|b| - 2])
    ensures ZeroIffEqual(a, b)
  {
    assert a == a[..|a| - 1] + [a[|a| - 1]] && b == b[..|b| - 1] + [b[|b| - 1]];
    if EndsSwapped(a, b) {
      assert a == a[..|a| - 2] + [a[|a| - 2], a[|a| - 1]] && b == b[..|b| - 2] + [b[|b| - 2], b[|b| - 1]];
    }
  }

  /** The far side of the detour below. */
  lemma DirectRouteCostsThree(x: char, y: char, z: char)
    requires x != y && x != z && y != z
    ensures Distance([z, x], [x, y, z]) >= 3
  {
    var zx, xyz := [z, x], [x, y, z];
    assert zx[..1] == [z] && xyz[..2] == [x, y];
    DistanceBounds([z], xyz);
    assert Distance([z], [x, y]) >= 2 by {
      assert [z][..0] == [] && [x, y][..1] == [x];
      DistanceZeroIffEqual([z], [x]);
    }
    assert Distance(zx, [x, y]) >= 2 by {
      assert zx[..1] == [z] && [x, y][..1] == [x];
      DistanceZeroIffEqual([z], [x]);
      DistanceBounds(zx, [x]);
    }
  }

  /**
   Restricted distance is not a metric: exchanging and then inserting between the exchanged
   characters takes two single edits, while the direct rewriting takes three.
   */
  lemma TriangleInequalityFails(x: char, y: char, z: char)
    requires x != y && x != z && y != z
    ensures Distance([z, x], [x, y, z]) > Distance([z, x], [x, z]) + Distance([x, z], [x, y, z])
  {
    DirectRouteCostsThree(x, y, z);
    DetourCostsTwo(x, y, z);
  }

  lemma DetourCostsTwo(x: char, y: char, z: char)
    ensures Distance([z, x], [x, z]) <= 1
    ensures Distance([x, z], [x, y, z]) <= 1
  {
    assert [z, x][..0] == [] && [x, z][..0] == [];
    assert Distance([], []) == 0;
    assert [x, z][..1] == [x] && [x, y, z][..2] == [x, y] && [x, y][..1] == [x];
    DistanceZeroIffEqual([x], [x]);
  }

  type Cell = (int, int)

  /**
   damerau_levenshtein_distance. The table is keyed by the index of the last character of each
   prefix, so (-1, -1) is the pair of empty prefixes.
   */
  method DamerauLevenshteinDistance(left: string, right: string) returns (d: nat)
    ensures d == Distance(left, right)
    ensures IsLeastCost(left, right, d)
  {
    DistanceIsLeastCost(left, right);
    DistanceZeroIffEqual(left, right);
    if left == right { return 0; }
    if left == "" { return |right|; }
    if right == "" { return |left|; }

    var distances := Border(left, right);
    for i := 0 to |left|
      invariant Filled(distances, left, right, i, 0)
    {
      for j := 0 to |right|
        invariant Filled(distances, left, right, i, j)
      {
        CellRecurrence(distances, left, right, i, j);
        var cost := if left[i] == right[j] then 0 else 1;
        var best := Min(Min(distances[(i - 1, j)] + 1, distances[(i, j - 1)] + 1), distances[(i - 1, j - 1)] + cost);
        if i > 0 && j > 0 && left[i] == right[j - 1] && left[i - 1] == right[j] {
          best := Min(best, distances[(i - 2, j - 2)] + cost);
        }
        CellStored(distances, left, right, i, j, best);
        distances := distances[(i, j) := best];
      }
      RowDone(distances, left, right, i);
    }
    assert CellRight(distances, left, right, |left| - 1, |right| - 1);
    assert left[..|left| - 1 + 1] == left && right[..|right| - 1 + 1] == right;
    d := distances[(|left| - 1, |right| - 1)];
  }

  method Border(left: string, right: string) returns (distances: map<Cell, nat>)
    ensures Filled(distances, left, right, 0, 0)
  {
    distances := map[];
    for i := -1 to |left| + 1
      invariant forall k :: -1 <= k < i ==> (k, -1) in distances && distances[(k, -1)] == k + 1
    {
      distances := distances[(i, -1) := i + 1];
    }
    for j := -1 to |right| + 1
      invariant forall k :: -1 <= k <= |left| ==> (k, -1) in distances && distances[(k, -1)] == k + 1
      invariant forall k :: -1 <= k < j ==> (-1, k) in distances && distances[(-1, k)] == k + 1
    {
      distances := distances[(-1, j) := j + 1];
    }
    forall k, l | -1 <= k < |left| && -1 <= l < |right| && (k == -1 || l == -1)
      ensures CellRight(distances, left, right, k, l)
    {
    }
  }

  ghost predicate CellRight(distances: map<Cell, nat>, left: string, right: string, k: int, l: int)
    requires -1 <= k < |left| && -1 <= l < |right|
  {
    (k, l) in distances && distances[(k, l)] == Distance(left[..k + 1], right[..l + 1])
  }

  /** Every cell of the border, of the rows before i and of row i before column j is right. */
  ghost predicate Filled(distances: map<Cell, nat>, left: string, right: string, i: nat, j: nat)
    requires i <= |left| && j <= |right|
  {
    forall k, l :: -1 <= k < |left| && -1 <= l < |right| && (k == -1 || l == -1 || k < i || (k == i && l < j))
      ==> CellRight(distances, left, right, k, l)
  }

  lemma CellStored(distances: map<Cell, nat>, left: string, right: string, i: nat, j: nat, best: nat)
    requires i < |left| && j < |right| && Filled(distances, left, right, i, j)
    requires best == Distance(left[..i + 1], right[..j + 1])
    ensures Filled(distances[(i, j) := best], left, right, i, j + 1)
  {
    var next := distances[(i, j) := best];
    forall k, l | -1 <= k < |left| && -1 <= l < |right| && (k == -1 || l == -1 || k < i || (k == i && l < j + 1))
      ensures CellRight(next, left, right, k, l)
    {
      assert (k, l) != (i, j) ==> CellRight(distances, left, right, k, l);
    }
  }

  lemma RowDone(distances: map<Cell, nat>, left: string, right: string, i: nat)
    requires i < |left| && Filled(distances, left, right, i, |right|)
    ensures Filled(distances, left, right, i + 1, 0)
  {
    forall k, l | -1 <= k < |left| && -1 <= l < |right| && (k == -1 || l == -1 || k < i + 1)
      ensures CellRight(distances, left, right, k, l)
    {
    }
  }

  lemma CellRecurrence(distances: map<Cell, nat>, left: string, right: string, i: nat, j: nat)
    requires i < |left| && j < |right| && Filled(distances, left, right, i, j)
    ensures CellRight(distances, left, right, i - 1, j)
    ensures CellRight(distances, left, right, i, j - 1)
    ensures CellRight(distances, left, right, i - 1, j - 1)
    ensures EndsSwapped(left[..i + 1], right[..j + 1]) <==>
            i > 0 && j > 0 && left[i] == right[j - 1] && left[i - 1] == right[j]
    ensures i > 0 && j > 0 ==> CellRight(distances, left, right, i - 2, j - 2)
    ensures
      var a, b := left[..i + 1], right[..j + 1];
      var plain := Min(Min(distances[(i - 1, j)] + 1, distances[(i, j - 1)] + 1),
                       distances[(i - 1, j - 1)] + Mismatch(left[i], right[j]));
      Distance(a, b) == if EndsSwapped(a, b) then Min(plain, distances[(i - 2, j - 2)] + Mismatch(left[i], right[j]))
      else plain
  {
    var a, b := left[..i + 1], right[..j + 1];
    assert a[..|a| - 1] == left[..i] && b[..|b| - 1] == right[..j];
    assert CellRight(distances, left, right, i - 1, j);
    assert CellRight(distances, left, right, i, j - 1);
    assert CellRight(distances, left, right, i - 1, j - 1);
    if i > 0 && j > 0 {
      assert CellRight(distances, left, right, i - 2, j - 2);
      assert a[..|a| - 2] == left[..i - 1] && b[..|b| - 2] == right[..j - 1];
    }
  }
}
