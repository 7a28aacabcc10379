/**
 Exactly when a pattern matches every non-empty value: when its least length is one. Anchors may stand anywhere,
 and alternations and optional parts may be anything that leaves out some one character.
 */
module CatchAllExact {
  import opened Wrappers
  import opened Regex
  import opened Selectivity
  import opened CatchAllSound

  /** No character of the literal, at some place in it, is c. */
  predicate LeavesOut(runes: seq<Rune>, folds: map<Rune, set<Rune>>, c: Rune) {
    exists k | 0 <= k < |runes| :: runes[k] != c && !(runes[k] in folds && c in folds[runes[k]])
  }

  /** What consumes c does so in loops over all characters; literals, classes and the like outside them leave c out. */
  ghost predicate Loops(re: Tree, c: Rune) {
    match re
    case Literal(runes, folds) => LeavesOut(runes, folds, c)
    case CharClass(pairs) => !InClass(c, pairs)
    case AnyCharNotNL => false
    case AnyChar => false
    case Star(sub) => MatchesAnyChar(sub) || Loops(sub, c)
    case Plus(sub) => MatchesAnyChar(sub) || Loops(sub, c)
    case Quest(sub) => Loops(sub, c)
    case Capture(sub) => Loops(sub, c)
    case Repeat(sub, _, _) => MatchesOnlyEmpty(sub)
    case Concat(subs) => forall i | 0 <= i < |subs| :: Loops(subs[i], c)
    case Alternate(subs) => forall i | 0 <= i < |subs| :: Loops(subs[i], c)
    case _ => true
  }

  /**
   No word boundary that comes true in a text of n times c: \b needs a word character, and \B, which needs two of them
   in a row or another character, none alone.
   */
  predicate Boundless(re: Tree, c: Rune, n: nat) {
    match re
    case WordBoundary => !IsWord(c)
    case NoWordBoundary => IsWord(c) && n == 1
    case Star(sub) => Boundless(sub, c, n)
    case Plus(sub) => Boundless(sub, c, n)
    case Quest(sub) => Boundless(sub, c, n)
    case Capture(sub) => Boundless(sub, c, n)
    case Repeat(sub, _, _) => Boundless(sub, c, n)
    case Concat(subs) => forall i | 0 <= i < |subs| :: Boundless(subs[i], c, n)
    case Alternate(subs) => forall i | 0 <= i < |subs| :: Boundless(subs[i], c, n)
    case _ => true
  }

  ghost predicate Only(t: Text, c: Rune) {
    c != NEWLINE && forall i | 0 <= i < |t| :: t[i] == c
  }

  // ----- empty spans

  /** In a text of c alone, a tree matches emptily only where it is nullable with the anchors that hold there. */
  lemma {:induction false} EmptyIsNullable(re: Tree, c: Rune, t: Text, i: nat)
    requires WellFormed(re) && Boundless(re, c, |t|) && Only(t, c) && i <= |t| && Matches(re, t, i, i)
    ensures NullableAt(re, i == 0, i == |t|)
    decreases re, 0, 0
  {
    match re
    case Capture(sub) => EmptyIsNullable(sub, c, t, i);
    case Plus(sub) =>
      var n: nat :| n >= 1 && Times(sub, t, i, i, n);
      var k := FirstTime(sub, t, i, i, n);
      EmptyIsNullable(sub, c, t, i);
    case Repeat(sub, min, max) =>
      var n: nat :| min <= n && (max.Some? ==> n <= max.value) && Times(sub, t, i, i, n);
      if n > 0 {
        var k := FirstTime(sub, t, i, i, n);
        EmptyIsNullable(sub, c, t, i);
      }
    case Concat(subs) => EmptyAllNullable(subs, c, t, i);
    case Alternate(subs) =>
      var k :| 0 <= k < |subs| && Matches(subs[k], t, i, i);
      EmptyIsNullable(subs[k], c, t, i);
    case _ =>
  }

  lemma {:induction false} EmptyAllNullable(subs: seq<Tree>, c: Rune, t: Text, i: nat)
    requires forall k | 0 <= k < |subs| :: WellFormed(subs[k]) && Boundless(subs[k], c, |t|)
    requires Only(t, c) && i <= |t| && MatchesAll(subs, t, i, i)
    ensures AllNullableAt(subs, i == 0, i == |t|)
    decreases subs, 0, 0
  {
    hide Matches, WellFormed, Boundless, NullableAt;
    if subs != [] {
      var k := FirstOf(subs, t, i, i);
      EmptyIsNullable(subs[0], c, t, i);
      EmptyAllNullable(subs[1..], c, t, i);
      assert forall m | 1 <= m < |subs| :: subs[m] == subs[1..][m - 1];
    }
  }

  // ----- spans of at least one character

  ghost predicate Tidy(re: Tree, c: Rune, n: nat) {
    WellFormed(re) && Boundless(re, c, n) && Loops(re, c)
  }

  ghost predicate AllTidy(subs: seq<Tree>, c: Rune, n: nat) {
    forall k | 0 <= k < |subs| :: Tidy(subs[k], c, n)
  }

  /** In a text of c alone, no span shorter than the least length is matched. */
  lemma {:induction false} LeastIsLeast(re: Tree, c: Rune, t: Text, i: nat, j: nat)
    requires Tidy(re, c, |t|) && Only(t, c) && i < j <= |t| && Matches(re, t, i, j)
    ensures LongEnough(Least(re, i == 0, j == |t|), j - i)
    decreases re, 0, 0
  {
    hide Only, NullableAt;
    match re
    case Star(sub) =>
      var n: nat :| Times(sub, t, i, j, n);
      LoopIsLeast(sub, c, t, i, j, n);
    case Plus(sub) =>
      var n: nat :| n >= 1 && Times(sub, t, i, j, n);
      LoopIsLeast(sub, c, t, i, j, n);
    case Quest(sub) => LeastIsLeast(sub, c, t, i, j);
    case Capture(sub) => LeastIsLeast(sub, c, t, i, j);
    case Concat(subs) => AllIsLeast(subs, c, t, i, j);
    case Alternate(subs) =>
      var k :| 0 <= k < |subs| && Matches(subs[k], t, i, j);
      LeastIsLeast(subs[k], c, t, i, j);
      BranchImproves(subs, k, i == 0, j == |t|);
    case _ => NothingElseConsumes(re, c, t, i, j);
  }

  lemma NothingElseConsumes(re: Tree, c: Rune, t: Text, i: nat, j: nat)
    requires Tidy(re, c, |t|) && Only(t, c) && i < j <= |t|
    requires !re.Star? && !re.Plus? && !re.Quest? && !re.Capture? && !re.Concat? && !re.Alternate?
    ensures !Matches(re, t, i, j)
  {
    match re
    case Literal(runes, folds) =>
      var k :| 0 <= k < |runes| && runes[k] != c && !(runes[k] in folds && c in folds[runes[k]]);
      assert i + k < |t| ==> t[i + k] == c;
    case Repeat(sub, min, max) =>
      if Matches(re, t, i, j) {
        OnlyEmptyConsumesNothing(re, t, i, j);
      }
    case _ =>
  }

  /** The two ways in which a loop comes within a length. */
  lemma LoopComesWithin(sub: Tree, start: bool, end: bool, first: int, rest: int)
    requires !MatchesAnyChar(sub) && first >= 0
    requires
      || (LongEnough(Least(sub, start, end), first) && rest == 0)
      || (LongEnough(Least(sub, start, false), first) && LongEnough(LeastLoop(sub, false, end), rest))
    ensures LongEnough(LeastLoop(sub, start, end), first + rest)
  {
    hide Least, MatchesAnyChar;
  }

  lemma AnyCharLoop(sub: Tree, start: bool, end: bool)
    requires MatchesAnyChar(sub)
    ensures LeastLoop(sub, start, end) == Some(1)
  {
  }

  lemma {:induction false} LoopIsLeast(sub: Tree, c: Rune, t: Text, i: nat, j: nat, n: nat)
    requires MatchesAnyChar(sub) || Tidy(sub, c, |t|)
    requires Only(t, c) && i < j <= |t| && Times(sub, t, i, j, n)
    ensures LongEnough(LeastLoop(sub, i == 0, j == |t|), j - i)
    decreases sub, 1, n
  {
    hide Matches, Least, LeastLoop, Tidy, Only, MatchesAnyChar, Times;
    if MatchesAnyChar(sub) {
      AnyCharLoop(sub, i == 0, j == |t|);
    } else {
      SomeTurns(sub, t, i, j, n);
      var k := FirstTime(sub, t, i, j, n);
      if k == i {
        LoopIsLeast(sub, c, t, i, j, n - 1);
      } else {
        LeastIsLeast(sub, c, t, i, k);
        if k < j {
          LoopIsLeast(sub, c, t, k, j, n - 1);
        }
        LoopComesWithin(sub, i == 0, j == |t|, k - i, j - k);
      }
    }
  }

  lemma SomeTurns(sub: Tree, t: Text, i: nat, j: nat, n: nat)
    requires i < j <= |t| && Times(sub, t, i, j, n)
    ensures n > 0
  {
  }

  /** The three ways in which a concatenation comes within a length. */
  lemma ComesWithin(subs: seq<Tree>, start: bool, end: bool, first: int, rest: int)
    requires subs != []
    requires
      || (NullableAt(subs[0], start, false) && first == 0 && LongEnough(LeastAll(subs[1..], start, end), rest))
      || (AllNullableAt(subs[1..], false, end) && LongEnough(Least(subs[0], start, end), first) && rest == 0)
      || (LongEnough(Least(subs[0], start, false), first) && LongEnough(LeastAll(subs[1..], false, end), rest))
    ensures LongEnough(LeastAll(subs, start, end), first + rest)
  {
    hide Least, NullableAt;
  }

  lemma {:induction false} AllIsLeast(subs: seq<Tree>, c: Rune, t: Text, i: nat, j: nat)
    requires AllTidy(subs, c, |t|) && Only(t, c) && i < j <= |t| && MatchesAll(subs, t, i, j)
    ensures LongEnough(LeastAll(subs, i == 0, j == |t|), j - i)
    decreases subs, 0, 0
  {
    hide Matches, Least, LeastAll, WellFormed, Boundless, Loops, NullableAt, Only;
    var rest := subs[1..];
    var k := FirstOf(subs, t, i, j);
    if k == i {
      EmptyIsNullable(subs[0], c, t, i);
      AllIsLeast(rest, c, t, i, j);
    } else {
      LeastIsLeast(subs[0], c, t, i, k);
      if k == j {
        EmptyAllNullable(rest, c, t, j);
      } else {
        AllIsLeast(rest, c, t, k, j);
      }
    }
    ComesWithin(subs, i == 0, j == |t|, k - i, j - k);
  }

  /**
   Exactly when a pattern matches every non-empty newline-free value, whether matchesAnyString accepts it or not:
   when its least length is one. It is enough that some character is left out by everything but the loops, and makes no
   word boundary come true by itself: a word character where there is \B, another one where there is \b.
   */
  lemma CatchAllExactly(re: Tree, c: Rune)
    requires WellFormed(re) && Boundless(re, c, 1) && Loops(re, c) && c != NEWLINE
    ensures Least(re, true, true) == Some(1) <==>
            forall value: Text | NewlineFree(value) && value != [] :: MatchesWhole(re, value)
  {
    if Least(re, true, true) == Some(1) {
      forall value: Text | NewlineFree(value) && value != []
        ensures MatchesWhole(re, value)
      {
        WholeMatches(re, value);
      }
    } else {
      var value: Text := [c];
      if MatchesWhole(re, value) {
        LeastIsLeast(re, c, value, 0, 1);
      }
      assert NewlineFree(value) && value != [];
    }
  }

  /** A pattern without a least length matches no value of c alone, one with a least length none shorter than it. */
  lemma ShorterValuesFail(re: Tree, c: Rune, value: Text)
    requires WellFormed(re) && Boundless(re, c, |value|) && Loops(re, c) && Only(value, c) && value != []
    ensures MatchesWhole(re, value) <==> LongEnough(Least(re, true, true), |value|)
  {
    if MatchesWhole(re, value) {
      LeastIsLeast(re, c, value, 0, |value|);
    }
    if LongEnough(Least(re, true, true), |value|) {
      WholeMatches(re, value);
    }
  }

  /** For any tree with a least length, only values shorter than it are in question. */
  lemma OnlyShortValuesMatter(re: Tree)
    requires WellFormed(re) && Least(re, true, true).Some?
    ensures (forall value: Text | NewlineFree(value) && value != [] :: MatchesWhole(re, value)) <==>
            (forall value: Text | NewlineFree(value) && 0 < |value| < Least(re, true, true).value :: MatchesWhole(re, value))
  {
    forall value: Text | NewlineFree(value) && |value| >= Least(re, true, true).value
      ensures MatchesWhole(re, value)
    {
      WholeMatches(re, value);
    }
  }

  const DotStar := Star(AnyCharNotNL)

  lemma DotStarLeast(start: bool, end: bool)
    ensures Least(DotStar, start, end) == Some(1) && NullableAt(DotStar, start, end) && MatchesAnyString(DotStar)
  {
  }

  /** .*^.* is accepted and matches every value, with an anchor inside; .*^ is accepted and matches only the empty one. */
  lemma InnerAnchorsAreJudged(value: Text)
    requires NewlineFree(value) && value != []
    ensures MatchesAnyString(Concat([DotStar, BeginText, DotStar]))
    ensures MatchesWhole(Concat([DotStar, BeginText, DotStar]), value)
    ensures MatchesAnyString(Concat([DotStar, BeginText])) && !MatchesWhole(Concat([DotStar, BeginText]), value)
  {
    hide Least, MatchesAnyString, NullableAt, Matches;
    AnchoredLeast();
    DotStarLeast(true, true);
    AnchorIsNullable();
    PairAccepted(DotStar, BeginText);
    WholeMatches(Concat([DotStar, BeginText, DotStar]), value);
    if MatchesWhole(Concat([DotStar, BeginText]), value) {
      InnerBeginConsumesNothing(value);
    }
  }

  lemma AnchoredLeast()
    ensures var re := Concat([DotStar, BeginText, DotStar]);
            MatchesAnyString(re) && Least(re, true, true) == Some(1) && WellFormed(re)
  {
    hide Least, NullableAt, MatchesAnyString;
    var subs := [DotStar, BeginText, DotStar];
    DotStarLeast(true, true);
    DotStarLeast(true, false);
    BeginIsFreeAtStart();
    PairLeast(BeginText, DotStar, true, true);
    assert subs[1..] == [BeginText, DotStar];
    ConcatLeast([BeginText, DotStar]);
    ComesWithin(subs, true, true, 0, 1);
    ConcatLeast(subs);
    DotStarsAccepted();
  }

  lemma ConcatLeast(subs: seq<Tree>)
    ensures Least(Concat(subs), true, true) == LeastAll(subs, true, true)
  {
    hide LeastAll;
  }

  lemma BeginIsFreeAtStart()
    ensures NullableAt(BeginText, true, false) && Least(BeginText, true, true) == None == Least(BeginText, true, false)
  {
  }

  lemma AnchorIsNullable()
    ensures Nullable(BeginText)
  {
  }

  lemma DotStarsAccepted()
    ensures MatchesAnyString(Concat([DotStar, BeginText, DotStar])) && WellFormed(Concat([DotStar, BeginText, DotStar]))
  {
    var subs := [DotStar, BeginText, DotStar];
    assert MatchesAnyString(subs[0]) && Nullable(subs[1]) && MatchesAnyString(subs[2]);
  }

  lemma InnerBeginConsumesNothing(value: Text)
    requires MatchesWhole(Concat([DotStar, BeginText]), value)
    ensures value == []
  {
    var k := SplitPair(DotStar, BeginText, value, 0, |value|);
  }
}
