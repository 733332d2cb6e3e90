/**
 When the restricted distance of services/intelligence/app/domain/package_names.py obeys the triangle
 inequality: over two letters always, and over three not.
 */
module Triangle {
  import opened EditDistance

  predicate Over(s: string, letters: set<char>) { forall c :: c in s ==> c in letters }

  /** No three of the letters are different. */
  predicate TwoLetters(letters: set<char>) {
    forall x, y, z :: x in letters && y in letters && z in letters ==> x == y || y == z || x == z
  }

  predicate NoDetour(a: string, b: string, c: string) { Distance(a, c) <= Distance(a, b) + Distance(b, c) }

  predicate AllOver(a: string, b: string, c: string, letters: set<char>) {
    Over(a, letters) && Over(b, letters) && Over(c, letters)
  }

  // ----- the last step of the recurrence -----

  predicate Deletes(a: string, b: string) { a != [] && Distance(a, b) == Distance(a[..|a| - 1], b) + 1 }

  predicate Inserts(a: string, b: string) { b != [] && Distance(a, b) == Distance(a, b[..|b| - 1]) + 1 }

  predicate Replaces(a: string, b: string) {
    && a != [] && b != []
    && Distance(a, b) == Distance(a[..|a| - 1], b[..|b| - 1]) + Mismatch(a[|a| - 1], b[|b| - 1])
  }

  /** Two different characters are exchanged. */
  predicate Exchanges(a: string, b: string) {
    && EndsSwapped(a, b) && a[|a| - 1] != b[|b| - 1]
    && Distance(a, b) == Distance(a[..|a| - 2], b[..|b| - 2]) + 1
  }

  /** Exchanging equal characters is keeping them, so there are four last steps. */
  lemma LastStep(a: string, b: string)
    requires a != [] && b != []
    ensures Deletes(a, b) || Inserts(a, b) || Replaces(a, b) || Exchanges(a, b)
  {
    if EndsSwapped(a, b) && a[|a| - 1] == b[|b| - 1] {
      var a2, b2, x := a[..|a| - 2], b[..|b| - 2], a[|a| - 1];
      OneSubstitute(a2, x, b2, x);
      assert a[..|a| - 1] == a2 + [x] && b[..|b| - 1] == b2 + [x];
    }
  }

  /** From or to the empty string there is one kind of step. */
  lemma EmptySide(a: string, b: string)
    ensures a == [] && b != [] ==> Inserts(a, b)
    ensures b == [] && a != [] ==> Deletes(a, b)
  {
  }

  // ----- steps in the other direction -----

  lemma DropLast(a: string, c: string)
    requires a != []
    ensures Distance(a, c) <= Distance(a[..|a| - 1], c) + 1
  {
    OneDelete(a[..|a| - 1], a[|a| - 1], c);
    assert a == a[..|a| - 1] + [a[|a| - 1]];
  }

  lemma AddLast(a: string, c: string)
    requires c != []
    ensures Distance(a, c) <= Distance(a, c[..|c| - 1]) + 1
  {
    OneInsert(a, c[..|c| - 1], c[|c| - 1]);
    assert c == c[..|c| - 1] + [c[|c| - 1]];
  }

  lemma ReplaceLast(a: string, c: string)
    requires a != [] && c != []
    ensures Distance(a, c) <= Distance(a[..|a| - 1], c[..|c| - 1]) + Mismatch(a[|a| - 1], c[|c| - 1])
  {
  }

  /** The character before the last one is deleted at no more than one edit; three letters could make it two. */
  lemma {:induction false} DeleteBeforeLast(p: string, u: char, z: char, c: string, letters: set<char>)
    requires TwoLetters(letters) && Over(p + [u] + [z], letters) && Over(c, letters)
    ensures Distance(p + [u] + [z], c) <= Distance(p + [z], c) + 1
    decreases |c|
  {
    var short := p + [z];
    if c == [] {
      EmptyTarget(p, u, z);
      return;
    }
    LastStep(short, c);
    ShortParts(p, z, c);
    if Deletes(short, c) {
      DropTwo(p, u, z, c);
    } else if Inserts(short, c) {
      FrontOver(c, |c| - 1, letters);
      DeleteBeforeLast(p, u, z, c[..|c| - 1], letters);
      AddLast(p + [u] + [z], c);
    } else if Replaces(short, c) {
      DropThenReplace(p, u, z, c[..|c| - 1], c[|c| - 1]);
    } else {
      DeleteBeforeExchanged(p, u, z, c, letters);
    }
  }

  lemma EmptyTarget(p: string, u: char, z: char)
    ensures Distance(p + [u] + [z], []) == Distance(p + [z], []) + 1
  {
  }

  lemma ShortParts(p: string, z: char, c: string)
    requires c != []
    ensures (p + [z])[..|p + [z]| - 1] == p && (p + [z])[|p + [z]| - 1] == z && c == c[..|c| - 1] + [c[|c| - 1]]
  {
  }

  lemma DropTwo(p: string, u: char, z: char, c: string)
    ensures Distance(p + [u] + [z], c) <= Distance(p, c) + 2
  {
    OneDelete(p, u, c);
    OneDelete(p + [u], z, c);
  }

  lemma DropThenReplace(p: string, u: char, z: char, c1: string, d: char)
    ensures Distance(p + [u] + [z], c1 + [d]) <= Distance(p, c1) + 1 + Mismatch(z, d)
  {
    OneDelete(p, u, c1);
    OneSubstitute(p + [u], z, c1, d);
  }

  lemma DeleteBeforeExchanged(p: string, u: char, z: char, c: string, letters: set<char>)
    requires TwoLetters(letters) && Over(p + [u] + [z], letters) && Over(c, letters) && Exchanges(p + [z], c)
    ensures Distance(p + [u] + [z], c) <= Distance(p + [z], c) + 1
  {
    EndsExchanged(p + [z], c);
    var q, y, c2 := p[..|p| - 1], p[|p| - 1], c[..|c| - 2];
    assert p == q + [y] && c == c2 + [z] + [y] && (p + [z])[..|p + [z]| - 2] == q;
    Shorter(p + [u] + [z], p + [u], [z], letters);
    Shorter(p + [u], p, [u], letters);
    assert y in p && u in [u] && z in [z];
    if u == z {
      ExchangeThenDrop(q, y, z, c2);
    } else {
      DropThenExchange(q, y, z, c2);
    }
  }

  lemma ExchangeThenDrop(q: string, y: char, z: char, r: string)
    ensures Distance(q + [y] + [z] + [z], r + [z] + [y]) <= Distance(q, r) + 2
  {
    ExchangeLast(q, y, z, r);
    OneDelete(q + [y] + [z], z, r + [z] + [y]);
  }

  lemma DropThenExchange(q: string, y: char, z: char, r: string)
    ensures Distance(q + [y] + [y] + [z], r + [z] + [y]) <= Distance(q, r) + 2
  {
    OneDelete(q, y, r);
    ExchangeLast(q + [y], y, z, r);
  }

  // ----- over two letters -----

  lemma EndsExchanged(b: string, c: string)
    requires Exchanges(b, c)
    ensures var b2, c2, w, x := b[..|b| - 2], c[..|c| - 2], b[|b| - 2], b[|b| - 1];
            b == b2 + [w] + [x] && c == c2 + [x] + [w] && b[..|b| - 1] == b2 + [w] && w != x
  {
  }

  /** Without the last of two exchanged characters. */
  lemma WithoutLast(b: string, c: string)
    requires Exchanges(b, c)
    ensures Distance(b[..|b| - 1], c) <= Distance(b[..|b| - 2], c[..|c| - 2]) + 1
  {
    EndsExchanged(b, c);
    InsertThenKeep(b[..|b| - 2], c[..|c| - 2], b[|b| - 1], b[|b| - 2]);
  }

  lemma InsertThenKeep(b2: string, c2: string, x: char, w: char)
    ensures Distance(b2 + [w], c2 + [x] + [w]) <= Distance(b2, c2) + 1
  {
    OneInsert(b2, c2, x);
    OneSubstitute(b2, w, c2 + [x], w);
  }

  lemma ExchangeLast(a: string, w: char, x: char, b: string)
    ensures Distance(a + [w] + [x], b + [x] + [w]) <= Distance(a, b) + 1
  {
    OneSwap(a, w, x, b);
    assert a + [w] + [x] == a + [w, x] && b + [x] + [w] == b + [x, w];
  }

  lemma Shorter(s: string, front: string, back: string, letters: set<char>)
    requires Over(s, letters) && s == front + back
    ensures Over(front, letters) && Over(back, letters)
  {
    assert forall c :: c in front ==> c in s;
    assert forall c :: c in back ==> c in s;
  }

  lemma FrontOver(s: string, k: nat, letters: set<char>)
    requires Over(s, letters) && k <= |s|
    ensures Over(s[..k], letters)
  {
  }

  /** Over two letters no detour is shorter. */
  lemma {:induction false} NoDetourOverTwo(a: string, b: string, c: string, letters: set<char>)
    requires TwoLetters(letters) && AllOver(a, b, c, letters)
    ensures NoDetour(a, b, c)
    decreases |a| + |b| + |c|, 4
  {
    if a == [] || b == [] || c == [] {
      EmptyNoDetour(a, b, c);
      return;
    }
    LastStep(a, b);
    LastStep(b, c);
    if Exchanges(b, c) {
      BeforeExchange(a, b, c, letters);
    } else if Exchanges(a, b) {
      ExchangesSymmetric(a, b);
      BeforeExchange(c, b, a, letters);
      Turned(a, b, c);
    } else {
      PlainSteps(a, b, c, letters);
    }
  }

  lemma ExchangesSymmetric(a: string, b: string)
    requires Exchanges(a, b)
    ensures Exchanges(b, a)
  {
    DistanceSymmetric(a, b);
    DistanceSymmetric(a[..|a| - 2], b[..|b| - 2]);
  }

  lemma Turned(a: string, b: string, c: string)
    ensures NoDetour(a, b, c) == NoDetour(c, b, a)
  {
    DistanceSymmetric(a, b);
    DistanceSymmetric(b, c);
    DistanceSymmetric(a, c);
  }

  lemma {:induction false} PlainSteps(a: string, b: string, c: string, letters: set<char>)
    requires TwoLetters(letters) && AllOver(a, b, c, letters) && a != [] && b != [] && c != []
    requires Deletes(a, b) || Inserts(a, b) || Replaces(a, b)
    requires Deletes(b, c) || Inserts(b, c) || Replaces(b, c)
    ensures NoDetour(a, b, c)
    decreases |a| + |b| + |c|, 2
  {
    var a1, b1, c1 := a[..|a| - 1], b[..|b| - 1], c[..|c| - 1];
    FrontOver(a, |a| - 1, letters);
    FrontOver(b, |b| - 1, letters);
    FrontOver(c, |c| - 1, letters);
    if Deletes(a, b) {
      NoDetourOverTwo(a1, b, c, letters);
      DropLast(a, c);
    } else if Inserts(b, c) {
      NoDetourOverTwo(a, b, c1, letters);
      AddLast(a, c);
    } else if Inserts(a, b) && Deletes(b, c) {
      NoDetourOverTwo(a, b1, c, letters);
    } else if Inserts(a, b) {
      NoDetourOverTwo(a, b1, c1, letters);
      AddLast(a, c);
    } else if Deletes(b, c) {
      NoDetourOverTwo(a1, b1, c, letters);
      DropLast(a, c);
    } else {
      NoDetourOverTwo(a1, b1, c1, letters);
      ReplaceLast(a, c);
    }
  }

  lemma {:induction false} BeforeExchange(a: string, b: string, c: string, letters: set<char>)
    requires TwoLetters(letters) && AllOver(a, b, c, letters) && a != [] && Exchanges(b, c)
    ensures NoDetour(a, b, c)
    decreases |a| + |b| + |c|, 3
  {
    var a1, b1 := a[..|a| - 1], b[..|b| - 1];
    FrontOver(a, |a| - 1, letters);
    FrontOver(b, |b| - 1, letters);
    LastStep(a, b);
    WithoutLast(b, c);
    if Deletes(a, b) {
      NoDetourOverTwo(a1, b, c, letters);
      DropLast(a, c);
    } else if Inserts(a, b) {
      NoDetourOverTwo(a, b1, c, letters);
    } else if Replaces(a, b) && a[|a| - 1] != b[|b| - 1] {
      NoDetourOverTwo(a1, b1, c, letters);
      DropLast(a, c);
    } else if Replaces(a, b) {
      MatchBeforeExchange(a, b, c, letters);
    } else {
      ExchangeTwice(a, b, c, letters);
    }
  }

  lemma {:induction false} MatchBeforeExchange(a: string, b: string, c: string, letters: set<char>)
    requires TwoLetters(letters) && AllOver(a, b, c, letters) && a != [] && Exchanges(b, c)
    requires Replaces(a, b) && a[|a| - 1] == b[|b| - 1]
    ensures NoDetour(a, b, c)
    decreases |a| + |b| + |c|, 2
  {
    EndsExchanged(b, c);
    assert a == a[..|a| - 1] + [a[|a| - 1]];
    MatchThenExchange(a[..|a| - 1], b[..|b| - 2], c[..|c| - 2], b[|b| - 2], b[|b| - 1], letters);
  }

  lemma {:induction false} ExchangeTwice(a: string, b: string, c: string, letters: set<char>)
    requires TwoLetters(letters) && AllOver(a, b, c, letters) && Exchanges(a, b) && Exchanges(b, c)
    ensures NoDetour(a, b, c)
    decreases |a| + |b| + |c|, 2
  {
    FrontOver(a, |a| - 2, letters);
    FrontOver(b, |b| - 2, letters);
    FrontOver(c, |c| - 2, letters);
    NoDetourOverTwo(a[..|a| - 2], b[..|b| - 2], c[..|c| - 2], letters);
    EndsExchanged(a, b);
    EndsExchanged(b, c);
    TwoKept(a[..|a| - 2], c[..|c| - 2], a[|a| - 2], a[|a| - 1]);
  }

  lemma TwoKept(a2: string, c2: string, x: char, y: char)
    ensures Distance(a2 + [x] + [y], c2 + [x] + [y]) <= Distance(a2, c2)
  {
    OneSubstitute(a2, x, c2, x);
    OneSubstitute(a2 + [x], y, c2 + [x], y);
  }

  /** The last character is kept, and then exchanged with the one before it. */
  lemma {:induction false} MatchThenExchange(a1: string, b2: string, c2: string, w: char, x: char, letters: set<char>)
    requires TwoLetters(letters) && AllOver(a1 + [x], b2 + [w] + [x], c2 + [x] + [w], letters) && w != x
    ensures Distance(a1 + [x], c2 + [x] + [w]) <= Distance(a1, b2 + [w]) + Distance(b2, c2) + 1
    decreases |a1| + |b2| + |c2| + 5, 1
  {
    var b1 := b2 + [w];
    assert b1[..|b1| - 1] == b2;
    Shorter(a1 + [x], a1, [x], letters);
    Shorter(b1 + [x], b1, [x], letters);
    Shorter(b1, b2, [w], letters);
    Shorter(c2 + [x] + [w], c2 + [x], [w], letters);
    Shorter(c2 + [x], c2, [x], letters);
    if a1 == [] {
      EmptySide(a1, b1);
    } else {
      LastStep(a1, b1);
    }
    if Inserts(a1, b1) {
      NoDetourOverTwo(a1, b2, c2, letters);
      KeepThenInsert(a1, c2, x, w);
    } else {
      var a0, v := a1[..|a1| - 1], a1[|a1| - 1];
      assert a1 == a0 + [v];
      Shorter(a1, a0, [v], letters);
      if Deletes(a1, b1) {
        AfterDelete(a0, v, x, b1, c2 + [x] + [w], letters);
        ExchangeLast(b2, w, x, c2);
      } else if Replaces(a1, b1) {
        NoDetourOverTwo(a0, b2, c2, letters);
        TwoReplaced(a0, v, c2, x, w);
      } else {
        AfterExchange(a0, b2, c2, v, w, x, letters);
      }
    }
  }

  lemma KeepThenInsert(a1: string, c2: string, x: char, w: char)
    ensures Distance(a1 + [x], c2 + [x] + [w]) <= Distance(a1, c2) + 1
  {
    OneSubstitute(a1, x, c2, x);
    OneInsert(a1 + [x], c2 + [x], w);
  }

  lemma TwoReplaced(a0: string, v: char, c2: string, x: char, w: char)
    ensures Distance(a0 + [v] + [x], c2 + [x] + [w]) <= Distance(a0, c2) + if v == w then 1 else 2
  {
    if v == w {
      ExchangeLast(a0, w, x, c2);
    } else {
      OneSubstitute(a0, v, c2, x);
      OneSubstitute(a0 + [v], x, c2 + [x], w);
    }
  }

  lemma {:induction false} AfterDelete(a0: string, v: char, x: char, b1: string, c: string, letters: set<char>)
    requires TwoLetters(letters) && AllOver(a0 + [v] + [x], b1 + [x], c, letters)
    ensures Distance(a0 + [v] + [x], c) <= Distance(a0, b1) + Distance(b1 + [x], c) + 1
    decreases |a0| + |b1| + |c| + 3, 0
  {
    Shorter(a0 + [v] + [x], a0 + [v], [x], letters);
    Shorter(a0 + [v], a0, [v], letters);
    assert AllOver(a0 + [x], b1 + [x], c, letters);
    NoDetourOverTwo(a0 + [x], b1 + [x], c, letters);
    OneSubstitute(a0, x, b1, x);
    DeleteBeforeLast(a0, v, x, c, letters);
  }

  /** The first exchange brought w, which the second one takes on: with two letters, v is x. */
  lemma {:induction false} AfterExchange(a0: string, b2: string, c2: string, v: char, w: char, x: char,
                                         letters: set<char>)
    requires TwoLetters(letters) && AllOver(a0 + [v] + [x], b2 + [w] + [x], c2 + [x] + [w], letters) && w != x
    requires Exchanges(a0 + [v], b2 + [w])
    ensures Distance(a0 + [v] + [x], c2 + [x] + [w]) <= Distance(a0 + [v], b2 + [w]) + Distance(b2, c2) + 1
    decreases |a0| + |b2| + |c2| + 6, 0
  {
    EndsExchanged(a0 + [v], b2 + [w]);
    var p, q := a0[..|a0| - 1], b2[..|b2| - 1];
    assert a0 == p + [w] && b2 == q + [v];
    LettersAre(a0, b2, c2, v, w, x, letters);
    OneSubstitute(p, w, q, v);
    NoDetourOverTwo(a0, b2, c2, letters);
    KeepThenReplace(a0, c2, x, w);
  }

  lemma LettersAre(a0: string, b2: string, c2: string, v: char, w: char, x: char, letters: set<char>)
    requires AllOver(a0 + [v] + [x], b2 + [w] + [x], c2 + [x] + [w], letters)
    ensures AllOver(a0, b2, c2, letters) && v in letters && w in letters && x in letters
  {
    Shorter(a0 + [v] + [x], a0 + [v], [x], letters);
    Shorter(a0 + [v], a0, [v], letters);
    Shorter(b2 + [w] + [x], b2 + [w], [x], letters);
    Shorter(b2 + [w], b2, [w], letters);
    Shorter(c2 + [x] + [w], c2 + [x], [w], letters);
    Shorter(c2 + [x], c2, [x], letters);
    assert v in [v] && w in [w] && x in [x];
  }

  lemma KeepThenReplace(a0: string, c2: string, x: char, w: char)
    ensures Distance(a0 + [x] + [x], c2 + [x] + [w]) <= Distance(a0, c2) + 1
  {
    OneSubstitute(a0, x, c2, x);
    OneSubstitute(a0 + [x], x, c2 + [x], w);
  }

  lemma EmptyNoDetour(a: string, b: string, c: string)
    requires a == [] || b == [] || c == []
    ensures NoDetour(a, b, c)
  {
    DistanceBounds(a, b);
    DistanceBounds(b, c);
    DistanceBounds(a, c);
  }

  ghost predicate NoDetours(letters: set<char>) {
    forall a, b, c :: AllOver(a, b, c, letters) ==> NoDetour(a, b, c)
  }

  /** The distance obeys the triangle inequality on the strings over some letters exactly if no three of them differ. */
  lemma TriangleIff(letters: set<char>)
    ensures NoDetours(letters) <==> TwoLetters(letters)
  {
    if TwoLetters(letters) {
      forall a, b, c | AllOver(a, b, c, letters) ensures NoDetour(a, b, c) {
        NoDetourOverTwo(a, b, c, letters);
      }
    }
    if x, y, z :| x in letters && y in letters && z in letters && x != y && y != z && x != z {
      TriangleInequalityFails(x, y, z);
      assert AllOver([z, x], [x, z], [x, y, z], letters);
      assert !NoDetour([z, x], [x, z], [x, y, z]);
    }
  }
}
