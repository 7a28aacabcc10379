/**
 What the syntactic tests must accept: every pattern with a least length, every pattern that matches everything, every
 single-character pattern that matches each character, and every pattern that can only match emptily.
 */
module CatchAllComplete {
  import opened Wrappers
  import opened Regex
  import opened CatchAll
  import opened Selectivity
  import opened CatchAllSound
  import opened CatchAllExact

  // ----- matchesAnyString

  lemma {:induction false} LeastMeansAccepted(re: Tree, start: bool, end: bool)
    requires Least(re, start, end).Some?
    ensures MatchesAnyString(re)
    decreases re, 0, 0
  {
    match re
    case Star(sub) => LoopMeansAccepted(sub, start, end);
    case Plus(sub) => LoopMeansAccepted(sub, start, end);
    case Quest(sub) => LeastMeansAccepted(sub, start, end);
    case Capture(sub) => LeastMeansAccepted(sub, start, end);
    case Concat(subs) => AllMeansAccepted(subs, start, end);
    case Alternate(subs) =>
      var k := LeastBranch(subs, start, end);
      LeastMeansAccepted(subs[k], start, end);
  }

  lemma {:induction false} LoopMeansAccepted(sub: Tree, start: bool, end: bool)
    requires LeastLoop(sub, start, end).Some?
    ensures MatchesAnyChar(sub) || MatchesAnyString(sub)
    decreases sub, 1, 0
  {
    hide Least;
    if !MatchesAnyChar(sub) {
      if Least(sub, start, end).Some? {
        LeastMeansAccepted(sub, start, end);
      } else {
        LeastMeansAccepted(sub, start, false);
      }
    }
  }

  lemma {:induction false} AllMeansAccepted(subs: seq<Tree>, start: bool, end: bool)
    requires LeastAll(subs, start, end).Some?
    ensures SomeAnyString(subs) && Elements(subs)
    decreases subs, 0, 0
  {
    hide Least, NullableAt, MatchesAnyString, Nullable;
    var rest := subs[1..];
    if NullableAt(subs[0], start, false) && LeastAll(rest, start, end).Some? {
      AllMeansAccepted(rest, start, end);
      NullableAtIsNullable(subs[0], start, false);
    } else if AllNullableAt(rest, false, end) && Least(subs[0], start, end).Some? {
      LeastMeansAccepted(subs[0], start, end);
      forall k | 0 <= k < |rest| { NullableAtIsNullable(rest[k], false, end); }
    } else {
      LeastMeansAccepted(subs[0], start, false);
      AllMeansAccepted(rest, false, end);
    }
    FirstAndRest(subs);
  }

  lemma FirstAndRest(subs: seq<Tree>)
    requires subs != [] && (forall k | 0 <= k < |subs[1..]| :: MatchesAnyString(subs[1..][k]) || Nullable(subs[1..][k]))
    requires MatchesAnyString(subs[0]) || (Nullable(subs[0]) && SomeAnyString(subs[1..]))
    ensures SomeAnyString(subs) && Elements(subs)
  {
    hide MatchesAnyString, Nullable;
    assert forall k | 1 <= k < |subs| :: subs[k] == subs[1..][k - 1];
    if !MatchesAnyString(subs[0]) {
      var k :| 0 <= k < |subs[1..]| && MatchesAnyString(subs[1..][k]);
      assert MatchesAnyString(subs[k + 1]);
    }
  }

  lemma {:induction false} NullableAtIsNullable(re: Tree, start: bool, end: bool)
    requires NullableAt(re, start, end)
    ensures Nullable(re)
  {
    match re
    case Capture(sub) => NullableAtIsNullable(sub, start, end);
    case Plus(sub) => NullableAtIsNullable(sub, start, end);
    case Repeat(sub, min, _) =>
      if min > 0 {
        NullableAtIsNullable(sub, start, end);
      }
    case Concat(subs) =>
      forall i | 0 <= i < |subs| { NullableAtIsNullable(subs[i], start, end); }
    case Alternate(subs) =>
      var i :| 0 <= i < |subs| && NullableAt(subs[i], start, end);
      NullableAtIsNullable(subs[i], start, end);
    case _ =>
  }

  /** With anchors at the outer ends only, the trees accepted are exactly those with a least length. */
  lemma AcceptedIffLeast(re: Tree)
    ensures Least(re, true, true).Some? ==> MatchesAnyString(re)
    ensures OuterAnchors(re, true, true) ==> (MatchesAnyString(re) <==> Least(re, true, true).Some?)
  {
    if Least(re, true, true).Some? {
      LeastMeansAccepted(re, true, true);
    }
    if OuterAnchors(re, true, true) && MatchesAnyString(re) {
      AcceptedHasLeast(re, true, true);
    }
  }

  /**
   A pattern that matches even one value made of a character that everything outside its loops leaves out is accepted;
   so is every pattern of that kind that matches all values.
   */
  lemma CatchAllIsAccepted(re: Tree, c: Rune, value: Text)
    requires WellFormed(re) && Boundless(re, c, |value|) && Loops(re, c) && Only(value, c) && value != []
    requires MatchesWhole(re, value)
    ensures MatchesAnyString(re)
  {
    ShorterValuesFail(re, c, value);
    LeastMeansAccepted(re, true, true);
  }

  // ----- matchesAnyChar

  /** One character, whatever it is captured in, with the class bounds in the order the parser leaves them. */
  predicate OneCharLeaf(re: Tree) {
    match StripCaptures(re)
    case AnyChar => true
    case AnyCharNotNL => true
    case CharClass(pairs) => |pairs| % 2 == 0 && SortedByLow(PairUp(pairs))
    case Literal(runes, folds) => |runes| == 1 && folds == map[]
    case _ => false
  }

  /** Such a pattern, or an alternation of them. */
  predicate SingleChar(re: Tree) {
    match StripCaptures(re)
    case Alternate(subs) => forall i | 0 <= i < |subs| :: OneCharLeaf(subs[i])
    case Literal(_, _) => false
    case _ => OneCharLeaf(re)
  }

  ghost predicate MatchesEachChar(re: Tree) {
    forall r: Rune | r != NEWLINE :: Matches(re, [r], 0, 1)
  }

  lemma LeafPairs(re: Tree, r: Rune)
    requires OneCharLeaf(re) && !StripCaptures(re).AnyChar? && r != NEWLINE
    ensures |BranchPairs(re)| % 2 == 0
    ensures Matches(re, [r], 0, 1) ==> Covered(r, PairUp(BranchPairs(re)))
  {
    hide PairUp, Covered;
    StripCapturesMatches(re, [r], 0, 1);
    CoveredInClass(BranchPairs(re), r);
    match StripCaptures(re)
    case AnyCharNotNL =>
      assert InClass(r, BranchPairs(re)) by {
        assert BranchPairs(re)[2 * 0] == 0 && BranchPairs(re)[2 * 1] == NEWLINE + 1;
      }
    case Literal(runes, _) =>
      if Matches(re, [r], 0, 1) {
        assert BranchPairs(re)[2 * 0] <= r <= BranchPairs(re)[2 * 0 + 1];
      }
    case _ =>
  }

  lemma CoveredInEither(r: Rune, a: seq<Range>, b: seq<Range>)
    requires Covered(r, a) || Covered(r, b)
    ensures Covered(r, a + b)
  {
    if k :| 0 <= k < |a| && a[k].lo <= r <= a[k].hi {
      assert (a + b)[k] == a[k];
    } else {
      var k :| 0 <= k < |b| && b[k].lo <= r <= b[k].hi;
      assert (a + b)[|a| + k] == b[k];
    }
  }

  /** A character that some branch matches is in the union. */
  lemma {:induction false} MatchedIsCovered(subs: seq<Tree>, r: Rune, k: nat)
    requires k < |subs| && Matches(subs[k], [r], 0, 1) && r != NEWLINE
    requires forall i | 0 <= i < |subs| :: OneCharLeaf(subs[i]) && !StripCaptures(subs[i]).AnyChar?
    ensures Covered(r, PairUp(AllPairs(subs)))
  {
    hide Matches, BranchPairs, Covered, OneCharLeaf;
    LeafPairs(subs[0], r);
    PairUpSplits(BranchPairs(subs[0]), AllPairs(subs[1..]));
    if k > 0 {
      MatchedIsCovered(subs[1..], r, k - 1);
    }
    CoveredInEither(r, PairUp(BranchPairs(subs[0])), PairUp(AllPairs(subs[1..])));
  }

  lemma EachCharIsCovered(subs: seq<Tree>)
    requires forall i | 0 <= i < |subs| :: OneCharLeaf(subs[i])
    requires MatchesEachChar(Alternate(subs))
    ensures AlternationCovers(subs)
  {
    hide OneCharLeaf;
    if !HasAnyCharBranch(subs) {
      var ranges := PairUp(AllPairs(subs));
      forall r: Rune | r != NEWLINE
        ensures Covered(r, ranges)
      {
        var value: Text := [r];
        assert Matches(Alternate(subs), value, 0, 1);
        var k :| 0 <= k < |subs| && Matches(subs[k], value, 0, 1);
        MatchedIsCovered(subs, r, k);
      }
      SortByLowSorts(ranges);
      AnySortIsExact(ranges, SortByLow(ranges));
    }
  }

  /** On single characters and alternations of them the test is exact. */
  lemma AnyCharExactly(re: Tree)
    requires WellFormed(re) && SingleChar(re)
    ensures MatchesAnyChar(re) <==> MatchesEachChar(re)
  {
    if MatchesAnyChar(re) {
      forall r: Rune | r != NEWLINE
        ensures Matches(re, [r], 0, 1)
      {
        AnyCharSound(re, [r], 0);
      }
    }
    if MatchesEachChar(re) {
      AnyCharIsAccepted(re);
    }
  }

  lemma {:induction false} AnyCharIsAccepted(re: Tree)
    requires WellFormed(re) && SingleChar(re) && MatchesEachChar(re)
    ensures MatchesAnyChar(re)
  {
    match re
    case Capture(sub) =>
      forall r: Rune | r != NEWLINE
        ensures Matches(sub, [r], 0, 1)
      {
        assert Matches(re, [r], 0, 1);
      }
      AnyCharIsAccepted(sub);
    case CharClass(pairs) =>
      forall r: Rune | r != NEWLINE
        ensures Covered(r, PairUp(pairs))
      {
        assert Matches(re, [r], 0, 1);
        CoveredInClass(pairs, r);
      }
      ClassTestIsExact(PairUp(pairs));
    case Alternate(subs) => EachCharIsCovered(subs);
    case _ =>
  }

  // ----- matchesOnlyEmpty

  /** Nothing in the tree consumes a character, looks for a word boundary or fails. */
  predicate AnchorsAlone(re: Tree) {
    match re
    case Capture(sub) => AnchorsAlone(sub)
    case Star(sub) => AnchorsAlone(sub)
    case Plus(sub) => AnchorsAlone(sub)
    case Quest(sub) => AnchorsAlone(sub)
    case Repeat(sub, _, _) => AnchorsAlone(sub)
    case Concat(subs) => forall i | 0 <= i < |subs| :: AnchorsAlone(subs[i])
    case Alternate(subs) => forall i | 0 <= i < |subs| :: AnchorsAlone(subs[i])
    case _ => re in {EmptyMatch, BeginLine, EndLine, BeginText, EndText}
  }

  lemma {:induction false} AnchorsMatchOnlyEmpty(re: Tree)
    requires AnchorsAlone(re)
    ensures MatchesOnlyEmpty(re)
  {
    match re
    case Capture(sub) => AnchorsMatchOnlyEmpty(sub);
    case Star(sub) => AnchorsMatchOnlyEmpty(sub);
    case Plus(sub) => AnchorsMatchOnlyEmpty(sub);
    case Quest(sub) => AnchorsMatchOnlyEmpty(sub);
    case Repeat(sub, _, _) => AnchorsMatchOnlyEmpty(sub);
    case Concat(subs) =>
      forall i | 0 <= i < |subs| { AnchorsMatchOnlyEmpty(subs[i]); }
    case Alternate(subs) =>
      forall i | 0 <= i < |subs| { AnchorsMatchOnlyEmpty(subs[i]); }
    case _ =>
  }

  /** Every part can match something, wherever it stands. */
  ghost predicate Free(re: Tree) {
    match re
    case EmptyMatch => true
    case Literal(runes, _) => runes != []
    case CharClass(pairs) => exists r: Rune :: InClass(r, pairs)
    case AnyCharNotNL => true
    case AnyChar => true
    case Capture(sub) => Free(sub)
    case Star(sub) => Free(sub)
    case Plus(sub) => Free(sub)
    case Quest(sub) => Free(sub)
    case Repeat(sub, min, max) => Free(sub) && (max.Some? ==> max.value >= 1 && min <= max.value)
    case Concat(subs) => forall i | 0 <= i < |subs| :: Free(subs[i])
    case Alternate(subs) => subs != [] && forall i | 0 <= i < |subs| :: Free(subs[i])
    case _ => false
  }

  /** The same characters at another place. */
  ghost predicate SameSpan(t: Text, i: nat, j: nat, u: Text, k: nat) {
    i <= j <= |t| && k + (j - i) <= |u| && forall p | i <= p < j :: t[p] == u[k + (p - i)]
  }

  /** Without anchors a match does not depend on where it stands. */
  lemma {:induction false} FreeMoves(re: Tree, t: Text, i: nat, j: nat, u: Text, k: nat)
    requires Free(re) && SameSpan(t, i, j, u, k) && Matches(re, t, i, j)
    ensures Matches(re, u, k, k + (j - i))
    decreases re, 0, 0
  {
    match re
    case Literal(runes, folds) =>
      forall n | 0 <= n < |runes|
        ensures u[k + n] == runes[n] || (runes[n] in folds && u[k + n] in folds[runes[n]])
      {
        assert t[i + n] == u[k + (i + n - i)];
      }
    case CharClass(_) => assert t[i] == u[k + (i - i)];
    case AnyCharNotNL => assert t[i] == u[k + (i - i)];
    case Capture(sub) => FreeMoves(sub, t, i, j, u, k);
    case Star(sub) =>
      var n: nat :| Times(sub, t, i, j, n);
      TimesMove(sub, t, i, j, u, k, n);
    case Plus(sub) =>
      var n: nat :| n >= 1 && Times(sub, t, i, j, n);
      TimesMove(sub, t, i, j, u, k, n);
    case Quest(sub) =>
      if i != j {
        FreeMoves(sub, t, i, j, u, k);
      }
    case Repeat(sub, min, max) =>
      var n: nat :| min <= n && (max.Some? ==> n <= max.value) && Times(sub, t, i, j, n);
      TimesMove(sub, t, i, j, u, k, n);
    case Concat(subs) => AllMove(subs, t, i, j, u, k);
    case Alternate(subs) =>
      var n :| 0 <= n < |subs| && Matches(subs[n], t, i, j);
      FreeMoves(subs[n], t, i, j, u, k);
    case _ =>
  }

  lemma {:induction false} TimesMove(sub: Tree, t: Text, i: nat, j: nat, u: Text, k: nat, n: nat)
    requires Free(sub) && SameSpan(t, i, j, u, k) && Times(sub, t, i, j, n)
    ensures Times(sub, u, k, k + (j - i), n)
    decreases sub, 1, n
  {
    hide Free, Matches;
    if n > 0 {
      var m := FirstTime(sub, t, i, j, n);
      FreeMoves(sub, t, i, m, u, k);
      assert SameSpan(t, m, j, u, k + (m - i)) by {
        assert forall p | m <= p < j :: t[p] == u[k + (p - i)];
      }
      TimesMove(sub, t, m, j, u, k + (m - i), n - 1);
    }
  }

  lemma {:induction false} AllMove(subs: seq<Tree>, t: Text, i: nat, j: nat, u: Text, k: nat)
    requires (forall n | 0 <= n < |subs| :: Free(subs[n])) && SameSpan(t, i, j, u, k) && MatchesAll(subs, t, i, j)
    ensures MatchesAll(subs, u, k, k + (j - i))
    decreases subs, 0, 0
  {
    hide Free, Matches;
    if subs != [] {
      var m := FirstOf(subs, t, i, j);
      FreeMoves(subs[0], t, i, m, u, k);
      assert SameSpan(t, m, j, u, k + (m - i)) by {
        assert forall p | m <= p < j :: t[p] == u[k + (p - i)];
      }
      AllMove(subs[1..], t, m, j, u, k + (m - i));
    }
  }

  /** A text that the tree matches whole, and not the empty one if it is not taken to match only that. */
  ghost predicate Samples(re: Tree, t: Text) {
    MatchesWhole(re, t) && (!MatchesOnlyEmpty(re) ==> t != [])
  }

  lemma {:induction false} SampleOf(re: Tree) returns (t: Text)
    requires Free(re)
    ensures Samples(re, t)
    decreases re, 0, 0
  {
    match re
    case EmptyMatch => t := [];
    case Literal(runes, _) => t := runes;
    case CharClass(pairs) =>
      var r: Rune :| InClass(r, pairs);
      t := [r];
    case AnyCharNotNL => t := [0];
    case AnyChar => t := [0];
    case Capture(sub) => t := SampleOf(sub);
    case Star(sub) =>
      t := SampleOf(sub);
      Once(sub, t, 0, |t|);
    case Plus(sub) =>
      t := SampleOf(sub);
      Once(sub, t, 0, |t|);
    case Quest(sub) => t := SampleOf(sub);
    case Repeat(sub, min, _) =>
      var n := if min == 0 then 1 else min;
      t := SampleTimes(sub, n);
    case Concat(subs) => t := SampleAll(subs);
    case Alternate(subs) =>
      var k := 0;
      if !MatchesOnlyEmpty(re) {
        k := NotOnlyEmpty(subs);
      }
      t := SampleOf(subs[k]);
      assert Matches(subs[k], t, 0, |t|);
  }

  lemma NotOnlyEmpty(subs: seq<Tree>) returns (k: nat)
    requires exists i :: 0 <= i < |subs| && !MatchesOnlyEmpty(subs[i])
    ensures k < |subs| && !MatchesOnlyEmpty(subs[k])
  {
    k :| 0 <= k < |subs| && !MatchesOnlyEmpty(subs[k]);
  }

  lemma {:induction false} SampleTimes(sub: Tree, n: nat) returns (t: Text)
    requires Free(sub)
    ensures Times(sub, t, 0, |t|, n) && (n > 0 && !MatchesOnlyEmpty(sub) ==> t != [])
    decreases sub, 1, n
  {
    hide Free, Matches, MatchesOnlyEmpty;
    if n == 0 {
      t := [];
    } else {
      var first := SampleOf(sub);
      var rest := SampleTimes(sub, n - 1);
      t := first + rest;
      FreeMoves(sub, first, 0, |first|, t, 0);
      TimesMove(sub, rest, 0, |rest|, t, |first|, n - 1);
    }
  }

  lemma {:induction false} SampleAll(subs: seq<Tree>) returns (t: Text)
    requires forall n | 0 <= n < |subs| :: Free(subs[n])
    ensures MatchesAll(subs, t, 0, |t|)
    ensures (exists k :: 0 <= k < |subs| && !MatchesOnlyEmpty(subs[k])) ==> t != []
    decreases subs, 0, 0
  {
    hide Free, Matches, MatchesOnlyEmpty;
    if subs == [] {
      t := [];
    } else {
      var first := SampleOf(subs[0]);
      var rest := SampleAll(subs[1..]);
      t := first + rest;
      FreeMoves(subs[0], first, 0, |first|, t, 0);
      AllMove(subs[1..], rest, 0, |rest|, t, |first|);
      if k :| 0 <= k < |subs| && !MatchesOnlyEmpty(subs[k]) {
        assert k > 0 ==> subs[1..][k - 1] == subs[k];
      }
    }
  }

  /** On trees without anchors, boundaries and failing parts the test is exact. */
  lemma OnlyEmptyExactly(re: Tree)
    requires Free(re)
    ensures MatchesOnlyEmpty(re) <==> forall t: Text :: MatchesWhole(re, t) ==> t == []
  {
    if MatchesOnlyEmpty(re) {
      forall t: Text | MatchesWhole(re, t)
        ensures t == []
      {
        OnlyEmptyConsumesNothing(re, t, 0, |t|);
      }
    } else {
      var t := SampleOf(re);
    }
  }
}
