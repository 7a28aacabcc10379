/**
 matchesAnyString, matchesOnlyEmpty and nullable, related to the match relation.
 */
module Selectivity {
  import opened Wrappers
  import opened Regex
  import opened CatchAll

  predicate MatchesAnyChar(re: Tree) {
    match re
    case AnyChar => true
    case AnyCharNotNL => true
    case CharClass(pairs) => CoversFrom(PairUp(pairs), 0)
    case Capture(sub) => MatchesAnyChar(sub)
    case Alternate(subs) => AlternationCovers(subs)
    case _ => false
  }

  predicate Nullable(re: Tree) {
    match re
    case EmptyMatch => true
    case Star(_) => true
    case Quest(_) => true
    case BeginLine => true
    case EndLine => true
    case BeginText => true
    case EndText => true
    case Capture(sub) => Nullable(sub)
    case Plus(sub) => Nullable(sub)
    case Concat(subs) => forall i | 0 <= i < |subs| :: Nullable(subs[i])
    case Alternate(subs) => exists i | 0 <= i < |subs| :: Nullable(subs[i])
    case Repeat(sub, min, _) => min == 0 || Nullable(sub)
    case _ => false
  }

  predicate MatchesOnlyEmpty(re: Tree) {
    match re
    case EmptyMatch => true
    case BeginLine => true
    case EndLine => true
    case BeginText => true
    case EndText => true
    case Capture(sub) => MatchesOnlyEmpty(sub)
    case Star(sub) => MatchesOnlyEmpty(sub)
    case Plus(sub) => MatchesOnlyEmpty(sub)
    case Quest(sub) => MatchesOnlyEmpty(sub)
    case Repeat(sub, _, _) => MatchesOnlyEmpty(sub)
    case Concat(subs) => forall i | 0 <= i < |subs| :: MatchesOnlyEmpty(subs[i])
    case Alternate(subs) => forall i | 0 <= i < |subs| :: MatchesOnlyEmpty(subs[i])
    case _ => false
  }

  predicate MatchesAnyString(re: Tree) {
    match re
    case Star(sub) => MatchesAnyChar(sub) || MatchesAnyString(sub)
    case Plus(sub) => MatchesAnyChar(sub) || MatchesAnyString(sub)
    case Quest(sub) => MatchesAnyString(sub)
    case Capture(sub) => MatchesAnyString(sub)
    case Concat(subs) =>
      && (exists i | 0 <= i < |subs| :: MatchesAnyString(subs[i]))
      && (forall i | 0 <= i < |subs| :: MatchesAnyString(subs[i]) || Nullable(subs[i]))
    case Alternate(subs) => exists i | 0 <= i < |subs| :: MatchesAnyString(subs[i])
    case _ => false
  }

  /** regexIsCatchAll on a parsed and simplified pattern; None is a parse error. */
  predicate RegexIsCatchAll(parsed: Option<Tree>) {
    parsed.Some? && (MatchesAnyString(parsed.value) || MatchesOnlyEmpty(parsed.value))
  }

  // ----- matchesOnlyEmpty

  /** Every match of such a tree, anywhere in any text, consumes nothing. */
  lemma {:induction false} OnlyEmptyConsumesNothing(re: Tree, t: Text, i: nat, j: nat)
    requires i <= j <= |t| && MatchesOnlyEmpty(re) && Matches(re, t, i, j)
    ensures i == j
    decreases re, 0, 0
  {
    match re
    case Capture(sub) => OnlyEmptyConsumesNothing(sub, t, i, j);
    case Star(sub) =>
      var n: nat :| Times(sub, t, i, j, n);
      OnlyEmptyTimes(sub, t, i, j, n);
    case Plus(sub) =>
      var n: nat :| n >= 1 && Times(sub, t, i, j, n);
      OnlyEmptyTimes(sub, t, i, j, n);
    case Quest(sub) =>
      if Matches(sub, t, i, j) {
        OnlyEmptyConsumesNothing(sub, t, i, j);
      }
    case Repeat(sub, min, max) =>
      var n: nat :| min <= n && (max.Some? ==> n <= max.value) && Times(sub, t, i, j, n);
      OnlyEmptyTimes(sub, t, i, j, n);
    case Concat(subs) => OnlyEmptyAll(subs, t, i, j);
    case Alternate(subs) =>
      var k :| 0 <= k < |subs| && Matches(subs[k], t, i, j);
      OnlyEmptyConsumesNothing(subs[k], t, i, j);
    case _ =>
  }

  lemma {:induction false} OnlyEmptyTimes(sub: Tree, t: Text, i: nat, j: nat, n: nat)
    requires i <= j <= |t| && MatchesOnlyEmpty(sub) && Times(sub, t, i, j, n)
    ensures i == j
    decreases sub, 1, n
  {
    if n > 0 {
      var k :| i <= k <= j && Matches(sub, t, i, k) && Times(sub, t, k, j, n - 1);
      OnlyEmptyConsumesNothing(sub, t, i, k);
      OnlyEmptyTimes(sub, t, k, j, n - 1);
    }
  }

  lemma {:induction false} OnlyEmptyAll(subs: seq<Tree>, t: Text, i: nat, j: nat)
    requires i <= j <= |t| && MatchesAll(subs, t, i, j)
    requires forall k | 0 <= k < |subs| :: MatchesOnlyEmpty(subs[k])
    ensures i == j
    decreases subs, 0, 0
  {
    if subs != [] {
      var k :| i <= k <= j && Matches(subs[0], t, i, k) && MatchesAll(subs[1..], t, k, j);
      OnlyEmptyConsumesNothing(subs[0], t, i, k);
      OnlyEmptyAll(subs[1..], t, k, j);
    }
  }

  // ----- nullable

  /** Nullable where begin anchors hold only if start does, and end anchors only if end does. */
  predicate NullableAt(re: Tree, start: bool, end: bool) {
    match re
    case EmptyMatch => true
    case Star(_) => true
    case Quest(_) => true
    case BeginLine => start
    case BeginText => start
    case EndLine => end
    case EndText => end
    case Capture(sub) => NullableAt(sub, start, end)
    case Plus(sub) => NullableAt(sub, start, end)
    case Concat(subs) => forall i | 0 <= i < |subs| :: NullableAt(subs[i], start, end)
    case Alternate(subs) => exists i | 0 <= i < |subs| :: NullableAt(subs[i], start, end)
    case Repeat(sub, min, _) => min == 0 || NullableAt(sub, start, end)
    case _ => false
  }

  lemma {:induction false} NullableAtMatches(re: Tree, t: Text, p: nat, start: bool, end: bool)
    requires p <= |t| && WellFormed(re) && NullableAt(re, start, end)
    requires (start ==> p == 0) && (end ==> p == |t|)
    ensures Matches(re, t, p, p)
    decreases re, 0, 0
  {
    match re
    case Capture(sub) => NullableAtMatches(sub, t, p, start, end);
    case Star(sub) => assert Times(sub, t, p, p, 0);
    case Plus(sub) =>
      NullableAtMatches(sub, t, p, start, end);
      NullableTimes(sub, t, p, 1);
    case Repeat(sub, min, max) =>
      if NullableAt(sub, start, end) {
        NullableAtMatches(sub, t, p, start, end);
        NullableTimes(sub, t, p, min);
      } else {
        assert Times(sub, t, p, p, 0);
      }
    case Concat(subs) => NullableAllMatch(subs, t, p, start, end);
    case Alternate(subs) =>
      var i :| 0 <= i < |subs| && NullableAt(subs[i], start, end);
      NullableAtMatches(subs[i], t, p, start, end);
    case _ =>
  }

  lemma {:induction false} NullableTimes(sub: Tree, t: Text, p: nat, n: nat)
    requires p <= |t| && Matches(sub, t, p, p)
    ensures Times(sub, t, p, p, n)
  {
    if n > 0 {
      NullableTimes(sub, t, p, n - 1);
    }
  }

  lemma {:induction false} NullableAllMatch(subs: seq<Tree>, t: Text, p: nat, start: bool, end: bool)
    requires p <= |t| && (start ==> p == 0) && (end ==> p == |t|)
    requires forall i | 0 <= i < |subs| :: WellFormed(subs[i]) && NullableAt(subs[i], start, end)
    ensures MatchesAll(subs, t, p, p)
    decreases subs, 0, 0
  {
    if subs != [] {
      NullableAtMatches(subs[0], t, p, start, end);
      NullableAllMatch(subs[1..], t, p, start, end);
    }
  }

  /** No \B anywhere. It is the one operator that matches the empty text but is not called nullable. */
  predicate NoInnerBoundary(re: Tree) {
    match re
    case NoWordBoundary => false
    case Capture(sub) => NoInnerBoundary(sub)
    case Star(sub) => NoInnerBoundary(sub)
    case Plus(sub) => NoInnerBoundary(sub)
    case Quest(sub) => NoInnerBoundary(sub)
    case Repeat(sub, _, _) => NoInnerBoundary(sub)
    case Concat(subs) => forall i | 0 <= i < |subs| :: NoInnerBoundary(subs[i])
    case Alternate(subs) => forall i | 0 <= i < |subs| :: NoInnerBoundary(subs[i])
    case _ => true
  }

  /** As Nullable, but \B is free as well, which is what the empty text allows. */
  predicate EmptyText(re: Tree) {
    match re
    case EmptyMatch => true
    case Star(_) => true
    case Quest(_) => true
    case BeginLine => true
    case EndLine => true
    case BeginText => true
    case EndText => true
    case NoWordBoundary => true
    case Capture(sub) => EmptyText(sub)
    case Plus(sub) => EmptyText(sub)
    case Concat(subs) => forall i | 0 <= i < |subs| :: EmptyText(subs[i])
    case Alternate(subs) => exists i | 0 <= i < |subs| :: EmptyText(subs[i])
    case Repeat(sub, min, _) => min == 0 || EmptyText(sub)
    case _ => false
  }

  lemma {:induction false} EmptyTextMatches(re: Tree)
    requires WellFormed(re) && EmptyText(re)
    ensures Matches(re, [], 0, 0)
    decreases re, 0, 0
  {
    match re
    case Capture(sub) => EmptyTextMatches(sub);
    case Star(sub) => assert Times(sub, [], 0, 0, 0);
    case Plus(sub) =>
      EmptyTextMatches(sub);
      NullableTimes(sub, [], 0, 1);
    case Repeat(sub, min, max) =>
      if min > 0 {
        EmptyTextMatches(sub);
        NullableTimes(sub, [], 0, min);
      } else {
        assert Times(sub, [], 0, 0, 0);
      }
    case Concat(subs) => EmptyTextMatchesAll(subs);
    case Alternate(subs) =>
      var i :| 0 <= i < |subs| && EmptyText(subs[i]);
      EmptyTextMatches(subs[i]);
    case _ =>
  }

  lemma {:induction false} EmptyTextMatchesAll(subs: seq<Tree>)
    requires forall i | 0 <= i < |subs| :: WellFormed(subs[i]) && EmptyText(subs[i])
    ensures MatchesAll(subs, [], 0, 0)
    decreases subs, 0, 0
  {
    if subs != [] {
      EmptyTextMatches(subs[0]);
      EmptyTextMatchesAll(subs[1..]);
    }
  }

  lemma {:induction false} EmptyTextIsAllowed(re: Tree)
    requires WellFormed(re) && Matches(re, [], 0, 0)
    ensures EmptyText(re)
    decreases re, 0, 0
  {
    match re
    case Capture(sub) => EmptyTextIsAllowed(sub);
    case Plus(sub) =>
      var n: nat :| n >= 1 && Times(sub, [], 0, 0, n);
      EmptyTextIsAllowed(sub);
    case Repeat(sub, min, max) =>
      var n: nat :| min <= n && (max.Some? ==> n <= max.value) && Times(sub, [], 0, 0, n);
      if n > 0 {
        EmptyTextIsAllowed(sub);
      }
    case Concat(subs) => EmptyTextIsAllowedAll(subs);
    case Alternate(subs) =>
      var i :| 0 <= i < |subs| && Matches(subs[i], [], 0, 0);
      EmptyTextIsAllowed(subs[i]);
    case _ =>
  }

  lemma {:induction false} EmptyTextIsAllowedAll(subs: seq<Tree>)
    requires forall i | 0 <= i < |subs| :: WellFormed(subs[i])
    requires MatchesAll(subs, [], 0, 0)
    ensures forall i | 0 <= i < |subs| :: EmptyText(subs[i])
    decreases subs, 0, 0
  {
    if subs != [] {
      EmptyTextIsAllowed(subs[0]);
      EmptyTextIsAllowedAll(subs[1..]);
      assert forall i | 1 <= i < |subs| :: subs[i] == subs[1..][i - 1];
    }
  }

  lemma {:induction false} NullableIsEmptyText(re: Tree)
    ensures Nullable(re) ==> EmptyText(re)
    ensures NoInnerBoundary(re) && EmptyText(re) ==> Nullable(re)
  {
    match re
    case Capture(sub) => NullableIsEmptyText(sub);
    case Plus(sub) => NullableIsEmptyText(sub);
    case Repeat(sub, _, _) => NullableIsEmptyText(sub);
    case Concat(subs) =>
      forall i | 0 <= i < |subs| { NullableIsEmptyText(subs[i]); }
    case Alternate(subs) =>
      forall i | 0 <= i < |subs| { NullableIsEmptyText(subs[i]); }
    case _ =>
  }

  /**
   nullable never claims too much. It is exact, that is, holds if and only if the empty text matches, exactly on
   the trees that do not come to match the empty text by \B alone.
   */
  lemma NullableExactly(re: Tree)
    requires WellFormed(re)
    ensures Nullable(re) ==> MatchesWhole(re, [])
    ensures MatchesWhole(re, []) <==> EmptyText(re)
    ensures (Nullable(re) <==> MatchesWhole(re, [])) <==> (EmptyText(re) ==> Nullable(re))
  {
    NullableIsEmptyText(re);
    if EmptyText(re) {
      EmptyTextMatches(re);
    }
    if MatchesWhole(re, []) {
      EmptyTextIsAllowed(re);
    }
  }

  /** In particular it is exact on trees without any \B; plain word boundaries do not disturb it. */
  lemma NullableIffEmptyTextMatches(re: Tree)
    requires WellFormed(re)
    ensures Nullable(re) ==> MatchesWhole(re, [])
    ensures NoInnerBoundary(re) ==> (Nullable(re) <==> MatchesWhole(re, []))
  {
    NullableIsEmptyText(re);
    NullableExactly(re);
  }

  /** The simplest tree on which it is not. */
  lemma InnerBoundaryIsNotCalledNullable()
    ensures MatchesWhole(NoWordBoundary, []) && !Nullable(NoWordBoundary)
  {
  }
}
