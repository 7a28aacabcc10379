/**
 When a tree that matchesAnyString accepts really does match every long enough value.
 */
module CatchAllSound {
  import opened Wrappers
  import opened Regex
  import opened CatchAll
  import opened Selectivity

  ghost predicate NewlineFree(t: Text) {
    NEWLINE !in t
  }

  // ----- any single character

  lemma {:induction false} StripCapturesMatches(re: Tree, t: Text, i: nat, j: nat)
    requires i <= j <= |t|
    ensures Matches(re, t, i, j) == Matches(StripCaptures(re), t, i, j)
    ensures WellFormed(re) ==> WellFormed(StripCaptures(re))
  {
    if re.Capture? {
      StripCapturesMatches(re.sub, t, i, j);
    }
  }

  lemma CoveredInClass(pairs: seq<Rune>, r: Rune)
    ensures Covered(r, PairUp(pairs)) <==> InClass(r, pairs)
  {
    PairUpFrom(pairs, 0);
    if InClass(r, pairs) {
      var k: nat :| 2 * k + 1 < |pairs| && pairs[2 * k] <= r <= pairs[2 * k + 1];
      assert PairUp(pairs)[k].lo <= r <= PairUp(pairs)[k].hi;
    }
    if Covered(r, PairUp(pairs)) {
      var k :| 0 <= k < |PairUp(pairs)| && PairUp(pairs)[k].lo <= r <= PairUp(pairs)[k].hi;
      assert pairs[2 * k] <= r <= pairs[2 * k + 1];
    }
  }

  lemma {:induction false} PairUpSplits(a: seq<Rune>, b: seq<Rune>)
    requires |a| % 2 == 0
    ensures PairUp(a + b) == PairUp(a) + PairUp(b)
  {
    if a == [] {
      assert a + b == b;
    } else {
      PairUpSplits(a[2..], b);
      assert (a + b)[2..] == a[2..] + b;
    }
  }

  lemma BranchPairsMatch(re: Tree, t: Text, i: nat)
    requires i < |t| && t[i] != NEWLINE && WellFormed(re)
    requires Covered(t[i], PairUp(BranchPairs(re)))
    ensures Matches(re, t, i, i + 1)
  {
    hide PairUp, Covered;
    StripCapturesMatches(re, t, i, i + 1);
    CoveredInClass(BranchPairs(re), t[i]);
    var k: nat :| 2 * k + 1 < |BranchPairs(re)| && BranchPairs(re)[2 * k] <= t[i] <= BranchPairs(re)[2 * k + 1];
    if StripCaptures(re).Literal? {
      assert k == 0;
    }
  }

  lemma CoveredSplits(r: Rune, a: seq<Range>, b: seq<Range>)
    requires Covered(r, a + b)
    ensures Covered(r, a) || Covered(r, b)
  {
    var n :| 0 <= n < |a + b| && (a + b)[n].lo <= r <= (a + b)[n].hi;
    if n < |a| {
      assert a[n].lo <= r <= a[n].hi;
    } else {
      assert b[n - |a|].lo <= r <= b[n - |a|].hi;
    }
  }

  /** The union of the branches' bounds is what the branches match one character of. */
  lemma {:induction false} UnionMatches(subs: seq<Tree>, t: Text, i: nat) returns (k: nat)
    requires i < |t| && t[i] != NEWLINE
    requires forall n | 0 <= n < |subs| :: WellFormed(subs[n])
    requires Covered(t[i], PairUp(AllPairs(subs)))
    ensures k < |subs| && Matches(subs[k], t, i, i + 1)
  {
    hide WellFormed, Matches, BranchPairs, Covered;
    NothingCovered(t[i]);
    assert subs != [];
    BranchPairsEven(subs[0]);
    PairUpSplits(BranchPairs(subs[0]), AllPairs(subs[1..]));
    var first, rest := PairUp(BranchPairs(subs[0])), PairUp(AllPairs(subs[1..]));
    CoveredSplits(t[i], first, rest);
    if Covered(t[i], first) {
      BranchPairsMatch(subs[0], t, i);
      k := 0;
    } else {
      k := UnionMatches(subs[1..], t, i);
      k := k + 1;
    }
  }

  lemma BranchPairsEven(re: Tree)
    requires WellFormed(re)
    ensures |BranchPairs(re)| % 2 == 0
  {
    StripCapturesMatches(re, [], 0, 0);
  }

  lemma NothingCovered(r: Rune)
    ensures !Covered(r, [])
  {
  }

  /** matchesAnyChar is sound: any one character except newline, at any place in any text, matches. */
  lemma {:induction false} AnyCharSound(re: Tree, t: Text, i: nat)
    requires WellFormed(re) && MatchesAnyChar(re) && i < |t| && t[i] != NEWLINE
    ensures Matches(re, t, i, i + 1)
  {
    match re
    case CharClass(pairs) =>
      CoversFromSound(PairUp(pairs), 0, t[i]);
      CoveredInClass(pairs, t[i]);
    case Capture(sub) => AnyCharSound(sub, t, i);
    case Alternate(subs) =>
      if HasAnyCharBranch(subs) {
        var k :| 0 <= k < |subs| && StripCaptures(subs[k]).AnyChar?;
        StripCapturesMatches(subs[k], t, i, i + 1);
      } else {
        var ranges := PairUp(AllPairs(subs));
        SortByLowSorts(ranges);
        AnySortIsExact(ranges, SortByLow(ranges));
        var k := UnionMatches(subs, t, i);
      }
    case _ =>
  }

  // ----- any string

  /**
   Anchors stand only at the outer ends: a begin anchor has nothing but empty-only elements
   before it, an end anchor nothing but empty-only elements after it.
   */
  predicate OuterAnchors(re: Tree, start: bool, end: bool)
    decreases re, 0, 0
  {
    match re
    case BeginLine => start
    case BeginText => start
    case EndLine => end
    case EndText => end
    case Capture(sub) => OuterAnchors(sub, start, end)
    case Star(sub) => OuterAnchors(sub, start, end)
    case Plus(sub) => OuterAnchors(sub, start, end)
    case Quest(sub) => OuterAnchors(sub, start, end)
    case Repeat(sub, _, _) => OuterAnchors(sub, start, end)
    case Concat(subs) => OuterAnchorsAll(subs, start, end)
    case Alternate(subs) => forall i | 0 <= i < |subs| :: OuterAnchors(subs[i], start, end)
    case _ => true
  }

  predicate OuterAnchorsAll(subs: seq<Tree>, start: bool, end: bool)
    decreases subs, 0, 0
  {
    subs == [] ||
    (&& OuterAnchors(subs[0], start, end && forall i | 1 <= i < |subs| :: MatchesOnlyEmpty(subs[i]))
     && OuterAnchorsAll(subs[1..], start && MatchesOnlyEmpty(subs[0]), end))
  }

  predicate SomeAnyString(subs: seq<Tree>) {
    exists i | 0 <= i < |subs| :: MatchesAnyString(subs[i])
  }

  predicate AllNullableAt(subs: seq<Tree>, start: bool, end: bool) {
    forall i | 0 <= i < |subs| :: NullableAt(subs[i], start, end)
  }

  /** The shorter of two lengths; None is no length at all. */
  function Shorter(a: Option<nat>, b: Option<nat>): Option<nat> {
    if a.None? then b else if b.None? || a.value < b.value then a else b
  }

  function Together(a: Option<nat>, b: Option<nat>): Option<nat> {
    if a.Some? && b.Some? then Some(a.value + b.value) else None
  }

  /**
   A length from which on the tree matches every newline-free span that is not empty, given whether the span
   starts where the text does and ends where it does. None if the loops of the tree give no such length.
   */
  function Least(re: Tree, start: bool, end: bool): (r: Option<nat>)
    ensures r.Some? ==> r.value >= 1
    decreases re, 0, 0
  {
    match re
    case Star(sub) => LeastLoop(sub, start, end)
    case Plus(sub) => LeastLoop(sub, start, end)
    case Quest(sub) => Least(sub, start, end)
    case Capture(sub) => Least(sub, start, end)
    case Concat(subs) => LeastAll(subs, start, end)
    case Alternate(subs) => LeastAny(subs, start, end)
    case _ => None
  }

  /** One turn that spans everything, or a first and a last one that share it. */
  function LeastLoop(sub: Tree, start: bool, end: bool): (r: Option<nat>)
    ensures r.Some? ==> r.value >= 1
    decreases sub, 1, 0
  {
    if MatchesAnyChar(sub) then Some(1)
    else Shorter(Least(sub, start, end), Together(Least(sub, start, false), Least(sub, false, end)))
  }

  /** The first element takes nothing, or everything, or shares with the others. */
  function LeastAll(subs: seq<Tree>, start: bool, end: bool): (r: Option<nat>)
    ensures r.Some? ==> r.value >= 1
    decreases subs, 0, 0
  {
    if subs == [] then None
    else
      var none := if NullableAt(subs[0], start, false) then LeastAll(subs[1..], start, end) else None;
      var whole := if AllNullableAt(subs[1..], false, end) then Least(subs[0], start, end) else None;
      Shorter(none, Shorter(whole, Together(Least(subs[0], start, false), LeastAll(subs[1..], false, end))))
  }

  function LeastAny(subs: seq<Tree>, start: bool, end: bool): (r: Option<nat>)
    ensures r.Some? ==> r.value >= 1
    decreases subs, 0, 0
  {
    if subs == [] then None else Shorter(Least(subs[0], start, end), LeastAny(subs[1..], start, end))
  }

  predicate LongEnough(least: Option<nat>, length: int) {
    least.Some? && least.value <= length
  }

  lemma {:induction false} OnlyEmptyIsNotAnyString(re: Tree)
    requires MatchesOnlyEmpty(re)
    ensures !MatchesAnyString(re) && !MatchesAnyChar(re)
  {
    match re
    case Capture(sub) => OnlyEmptyIsNotAnyString(sub);
    case Star(sub) => OnlyEmptyIsNotAnyString(sub);
    case Plus(sub) => OnlyEmptyIsNotAnyString(sub);
    case Quest(sub) => OnlyEmptyIsNotAnyString(sub);
    case Concat(subs) =>
      forall i | 0 <= i < |subs| { OnlyEmptyIsNotAnyString(subs[i]); }
    case Alternate(subs) =>
      forall i | 0 <= i < |subs| { OnlyEmptyIsNotAnyString(subs[i]); }
      OnlyEmptyAddsNoPairs(subs);
    case _ =>
  }

  lemma {:induction false} OnlyEmptyAddsNoPairs(subs: seq<Tree>)
    requires forall i | 0 <= i < |subs| :: MatchesOnlyEmpty(subs[i])
    ensures !AlternationCovers(subs)
  {
    forall i | 0 <= i < |subs|
      ensures BranchPairs(subs[i]) == [] && !StripCaptures(subs[i]).AnyChar?
    {
      OnlyEmptyStripped(subs[i]);
    }
    NoPairs(subs);
  }

  lemma {:induction false} OnlyEmptyStripped(re: Tree)
    requires MatchesOnlyEmpty(re)
    ensures MatchesOnlyEmpty(StripCaptures(re))
  {
    if re.Capture? {
      OnlyEmptyStripped(re.sub);
    }
  }

  lemma {:induction false} NoPairs(subs: seq<Tree>)
    requires forall i | 0 <= i < |subs| :: BranchPairs(subs[i]) == []
    ensures AllPairs(subs) == []
  {
    if subs != [] {
      NoPairs(subs[1..]);
    }
  }

  lemma {:induction false} OuterNullable(re: Tree, start: bool, end: bool)
    requires Nullable(re) && OuterAnchors(re, start, end)
    ensures NullableAt(re, start, end)
    decreases re, 0, 0
  {
    match re
    case Capture(sub) => OuterNullable(sub, start, end);
    case Plus(sub) => OuterNullable(sub, start, end);
    case Repeat(sub, min, _) =>
      if min > 0 {
        OuterNullable(sub, start, end);
      }
    case Concat(subs) => OuterNullableAll(subs, start, end);
    case Alternate(subs) =>
      var i :| 0 <= i < |subs| && Nullable(subs[i]);
      OuterNullable(subs[i], start, end);
    case _ =>
  }

  lemma {:induction false} OuterNullableAll(subs: seq<Tree>, start: bool, end: bool)
    requires OuterAnchorsAll(subs, start, end) && forall i | 0 <= i < |subs| :: Nullable(subs[i])
    ensures forall i | 0 <= i < |subs| :: NullableAt(subs[i], start, end)
    decreases subs, 0, 0
  {
    if subs != [] {
      var end0 := end && forall i | 1 <= i < |subs| :: MatchesOnlyEmpty(subs[i]);
      OuterNullable(subs[0], start, end0);
      NullableAtMonotone(subs[0], start, end0, start, end);
      var start1 := start && MatchesOnlyEmpty(subs[0]);
      OuterNullableAll(subs[1..], start1, end);
      forall i | 1 <= i < |subs|
        ensures NullableAt(subs[i], start, end)
      {
        assert subs[i] == subs[1..][i - 1];
        NullableAtMonotone(subs[i], start1, end, start, end);
      }
    }
  }

  lemma {:induction false} NullableAtMonotone(re: Tree, s0: bool, e0: bool, s1: bool, e1: bool)
    requires NullableAt(re, s0, e0) && (s0 ==> s1) && (e0 ==> e1)
    ensures NullableAt(re, s1, e1)
  {
    match re
    case Capture(sub) => NullableAtMonotone(sub, s0, e0, s1, e1);
    case Plus(sub) => NullableAtMonotone(sub, s0, e0, s1, e1);
    case Repeat(sub, min, _) =>
      if min > 0 {
        NullableAtMonotone(sub, s0, e0, s1, e1);
      }
    case Concat(subs) =>
      forall i | 0 <= i < |subs| { NullableAtMonotone(subs[i], s0, e0, s1, e1); }
    case Alternate(subs) =>
      var i :| 0 <= i < |subs| && NullableAt(subs[i], s0, e0);
      NullableAtMonotone(subs[i], s0, e0, s1, e1);
    case _ =>
  }

  // ----- spans that are long enough

  lemma {:induction false} EachCharTimes(sub: Tree, t: Text, i: nat, j: nat)
    requires i <= j <= |t| && NewlineFree(t[i..j]) && WellFormed(sub) && MatchesAnyChar(sub)
    ensures Times(sub, t, i, j, j - i)
    decreases j - i
  {
    if i < j {
      NewlineFreeWithin(t, i, j, i + 1, j);
      assert t[i..j][0] == t[i];
      AnyCharSound(sub, t, i);
      EachCharTimes(sub, t, i + 1, j);
    }
  }

  lemma Once(sub: Tree, t: Text, i: nat, j: nat)
    requires i <= j <= |t| && Matches(sub, t, i, j)
    ensures Times(sub, t, i, j, 1)
  {
    assert Times(sub, t, j, j, 0);
  }

  lemma NewlineFreeWithin(t: Text, i: nat, j: nat, k: nat, m: nat)
    requires i <= k <= m <= j <= |t| && NewlineFree(t[i..j])
    ensures NewlineFree(t[k..m])
  {
    assert forall n | k <= n < m :: t[n] == t[i..j][n - i];
  }

  /** A newline-free span that is not empty, with flags that hold only where the text starts and ends. */
  ghost predicate SpanFits(t: Text, i: nat, j: nat, start: bool, end: bool) {
    i < j <= |t| && NewlineFree(t[i..j]) && (start ==> i == 0) && (end ==> j == |t|)
  }

  /** Every newline-free span from the least length on is matched, for every tree, accepted or not. */
  lemma {:induction false} LeastSpans(re: Tree, t: Text, i: nat, j: nat, start: bool, end: bool)
    requires WellFormed(re) && SpanFits(t, i, j, start, end) && LongEnough(Least(re, start, end), j - i)
    ensures Matches(re, t, i, j)
    decreases re, 0, 0
  {
    match re
    case Star(sub) =>
      var n := LoopSpans(sub, t, i, j, start, end);
    case Plus(sub) =>
      var n := LoopSpans(sub, t, i, j, start, end);
    case Quest(sub) => LeastSpans(sub, t, i, j, start, end);
    case Capture(sub) => LeastSpans(sub, t, i, j, start, end);
    case Concat(subs) => AllSpan(subs, t, i, j, start, end);
    case Alternate(subs) =>
      var k := LeastBranch(subs, start, end);
      LeastSpans(subs[k], t, i, j, start, end);
  }

  lemma {:induction false} LoopSpans(sub: Tree, t: Text, i: nat, j: nat, start: bool, end: bool) returns (n: nat)
    requires WellFormed(sub) && SpanFits(t, i, j, start, end) && LongEnough(LeastLoop(sub, start, end), j - i)
    ensures n >= 1 && Times(sub, t, i, j, n)
    decreases sub, 1, 0
  {
    hide Matches, WellFormed, Least;
    if MatchesAnyChar(sub) {
      n := j - i;
      EachCharTimes(sub, t, i, j);
    } else if LongEnough(Least(sub, start, end), j - i) {
      n := 1;
      LeastSpans(sub, t, i, j, start, end);
      Once(sub, t, i, j);
    } else {
      n := 2;
      var k := j - Least(sub, false, end).value;
      NewlineFreeWithin(t, i, j, i, k);
      NewlineFreeWithin(t, i, j, k, j);
      LeastSpans(sub, t, i, k, start, false);
      LeastSpans(sub, t, k, j, false, end);
      Once(sub, t, k, j);
    }
  }

  lemma {:induction false} AllSpan(subs: seq<Tree>, t: Text, i: nat, j: nat, start: bool, end: bool)
    requires (forall k | 0 <= k < |subs| :: WellFormed(subs[k])) && SpanFits(t, i, j, start, end)
    requires LongEnough(LeastAll(subs, start, end), j - i)
    ensures MatchesAll(subs, t, i, j)
    decreases subs, 0, 0
  {
    hide Matches, WellFormed, Least, NullableAt;
    var rest := subs[1..];
    if NullableAt(subs[0], start, false) && LongEnough(LeastAll(rest, start, end), j - i) {
      NullableAtMatches(subs[0], t, i, start, false);
      AllSpan(rest, t, i, j, start, end);
    } else if AllNullableAt(rest, false, end) && LongEnough(Least(subs[0], start, end), j - i) {
      LeastSpans(subs[0], t, i, j, start, end);
      NullableAllMatch(rest, t, j, false, end);
    } else {
      var k := j - LeastAll(rest, false, end).value;
      NewlineFreeWithin(t, i, j, i, k);
      NewlineFreeWithin(t, i, j, k, j);
      LeastSpans(subs[0], t, i, k, start, false);
      AllSpan(rest, t, k, j, false, end);
    }
  }

  lemma {:induction false} LeastBranch(subs: seq<Tree>, start: bool, end: bool) returns (k: nat)
    requires LeastAny(subs, start, end).Some?
    ensures k < |subs| && Least(subs[k], start, end) == LeastAny(subs, start, end)
  {
    hide Least;
    if Least(subs[0], start, end) == LeastAny(subs, start, end) {
      k := 0;
    } else {
      k := LeastBranch(subs[1..], start, end);
      k := k + 1;
    }
  }

  // ----- accepted trees have such a length

  ghost predicate Improves(better: Option<nat>, least: Option<nat>) {
    least.Some? ==> better.Some? && better.value <= least.value
  }

  /** Anchors that hold in more places never ask for longer spans. */
  lemma {:induction false} LeastMonotone(re: Tree, s0: bool, e0: bool, s1: bool, e1: bool)
    requires (s0 ==> s1) && (e0 ==> e1)
    ensures Improves(Least(re, s1, e1), Least(re, s0, e0))
    decreases re, 0, 0
  {
    match re
    case Star(sub) => LoopMonotone(sub, s0, e0, s1, e1);
    case Plus(sub) => LoopMonotone(sub, s0, e0, s1, e1);
    case Quest(sub) => LeastMonotone(sub, s0, e0, s1, e1);
    case Capture(sub) => LeastMonotone(sub, s0, e0, s1, e1);
    case Concat(subs) => AllMonotone(subs, s0, e0, s1, e1);
    case Alternate(subs) => AnyMonotone(subs, s0, e0, s1, e1);
    case _ =>
  }

  lemma {:induction false} LoopMonotone(sub: Tree, s0: bool, e0: bool, s1: bool, e1: bool)
    requires (s0 ==> s1) && (e0 ==> e1)
    ensures Improves(LeastLoop(sub, s1, e1), LeastLoop(sub, s0, e0))
    decreases sub, 1, 0
  {
    hide Least, MatchesAnyChar, Shorter, Together;
    LeastMonotone(sub, s0, e0, s1, e1);
    LeastMonotone(sub, s0, false, s1, false);
    LeastMonotone(sub, false, e0, false, e1);
    var first0, first1, last0, last1 := Least(sub, s0, false), Least(sub, s1, false), Least(sub, false, e0), Least(sub, false, e1);
    ShorterImproves(first0, last0, first1, last1);
    ShorterImproves(Least(sub, s0, e0), Together(first0, last0), Least(sub, s1, e1), Together(first1, last1));
  }

  lemma ShorterImproves(a: Option<nat>, b: Option<nat>, a': Option<nat>, b': Option<nat>)
    requires Improves(a', a) && Improves(b', b)
    ensures Improves(Shorter(a', b'), Shorter(a, b)) && Improves(Together(a', b'), Together(a, b))
  {
  }

  lemma {:induction false} AllMonotone(subs: seq<Tree>, s0: bool, e0: bool, s1: bool, e1: bool)
    requires (s0 ==> s1) && (e0 ==> e1)
    ensures Improves(LeastAll(subs, s1, e1), LeastAll(subs, s0, e0))
    decreases subs, 0, 0
  {
    hide Least, NullableAt, Shorter, Together;
    if subs != [] {
      var rest := subs[1..];
      LeastMonotone(subs[0], s0, e0, s1, e1);
      LeastMonotone(subs[0], s0, false, s1, false);
      AllMonotone(rest, s0, e0, s1, e1);
      AllMonotone(rest, false, e0, false, e1);
      var none0 := if NullableAt(subs[0], s0, false) then LeastAll(rest, s0, e0) else None;
      var none1 := if NullableAt(subs[0], s1, false) then LeastAll(rest, s1, e1) else None;
      var whole0 := if AllNullableAt(rest, false, e0) then Least(subs[0], s0, e0) else None;
      var whole1 := if AllNullableAt(rest, false, e1) then Least(subs[0], s1, e1) else None;
      if NullableAt(subs[0], s0, false) {
        NullableAtMonotone(subs[0], s0, false, s1, false);
      }
      if AllNullableAt(rest, false, e0) {
        forall i | 0 <= i < |rest| { NullableAtMonotone(rest[i], false, e0, false, e1); }
      }
      var first0, first1 := Least(subs[0], s0, false), Least(subs[0], s1, false);
      var rest0, rest1 := LeastAll(rest, false, e0), LeastAll(rest, false, e1);
      ShorterImproves(first0, rest0, first1, rest1);
      ShorterImproves(whole0, Together(first0, rest0), whole1, Together(first1, rest1));
      ShorterImproves(none0, Shorter(whole0, Together(first0, rest0)), none1, Shorter(whole1, Together(first1, rest1)));
    }
  }

  lemma {:induction false} AnyMonotone(subs: seq<Tree>, s0: bool, e0: bool, s1: bool, e1: bool)
    requires (s0 ==> s1) && (e0 ==> e1)
    ensures Improves(LeastAny(subs, s1, e1), LeastAny(subs, s0, e0))
    decreases subs, 0, 0
  {
    hide Least;
    if subs != [] {
      LeastMonotone(subs[0], s0, e0, s1, e1);
      AnyMonotone(subs[1..], s0, e0, s1, e1);
    }
  }

  /** Elements of an accepted concatenation. */
  predicate Elements(subs: seq<Tree>) {
    forall k | 0 <= k < |subs| :: MatchesAnyString(subs[k]) || Nullable(subs[k])
  }

  /** What an accepted tree with outer anchors only has; with none needy twice, the least length is one. */
  predicate HasLeast(least: Option<nat>, oneNeedy: bool) {
    least.Some? && (oneNeedy ==> least.value == 1)
  }

  /** No concatenation has two any-string elements that each need a character. */
  predicate OneNeedyElement(re: Tree) {
    match re
    case Capture(sub) => OneNeedyElement(sub)
    case Star(sub) => OneNeedyElement(sub)
    case Plus(sub) => OneNeedyElement(sub)
    case Quest(sub) => OneNeedyElement(sub)
    case Concat(subs) => OneNeedyAmong(subs)
    case Alternate(subs) => forall i | 0 <= i < |subs| :: OneNeedyElement(subs[i])
    case _ => true
  }

  predicate OneNeedyAmong(subs: seq<Tree>) {
    && (forall i | 0 <= i < |subs| :: OneNeedyElement(subs[i]))
    && (forall i, j | 0 <= i < j < |subs| && MatchesAnyString(subs[i]) && MatchesAnyString(subs[j]) ::
          Nullable(subs[i]) || Nullable(subs[j]))
  }

  lemma {:induction false} AcceptedHasLeast(re: Tree, start: bool, end: bool)
    requires MatchesAnyString(re) && OuterAnchors(re, start, end)
    ensures HasLeast(Least(re, start, end), OneNeedyElement(re))
    decreases re, 0, 0
  {
    match re
    case Star(sub) =>
      if !MatchesAnyChar(sub) {
        AcceptedHasLeast(sub, start, end);
      }
    case Plus(sub) =>
      if !MatchesAnyChar(sub) {
        AcceptedHasLeast(sub, start, end);
      }
    case Quest(sub) => AcceptedHasLeast(sub, start, end);
    case Capture(sub) => AcceptedHasLeast(sub, start, end);
    case Concat(subs) => ElementsHaveLeast(subs, start, end);
    case Alternate(subs) =>
      var k :| 0 <= k < |subs| && MatchesAnyString(subs[k]);
      AcceptedHasLeast(subs[k], start, end);
      BranchImproves(subs, k, start, end);
  }

  lemma {:induction false} BranchImproves(subs: seq<Tree>, k: nat, start: bool, end: bool)
    requires k < |subs|
    ensures Improves(LeastAny(subs, start, end), Least(subs[k], start, end))
  {
    hide Least;
    if k > 0 {
      BranchImproves(subs[1..], k - 1, start, end);
    }
  }

  lemma {:induction false} ElementsHaveLeast(subs: seq<Tree>, start: bool, end: bool)
    requires Elements(subs) && SomeAnyString(subs) && OuterAnchorsAll(subs, start, end)
    ensures HasLeast(LeastAll(subs, start, end), OneNeedyAmong(subs))
    decreases subs, 0, 2
  {
    hide Least, LeastAll, OuterAnchorsAll, NullableAt, MatchesOnlyEmpty, MatchesAnyString, Nullable, OneNeedyElement;
    RestOfElements(subs);
    if !SomeAnyString(subs[1..]) {
      LastAnyString(subs, start, end);
    } else {
      RestHasLeast(subs, start, end);
      if Nullable(subs[0]) {
        SkipFirst(subs, start, end);
      } else if OneNeedyAmong(subs) {
        NeedyFirst(subs, start, end);
      } else {
        ShareFirst(subs, start, end);
      }
    }
  }

  lemma {:induction false} RestHasLeast(subs: seq<Tree>, start: bool, end: bool)
    requires Elements(subs) && SomeAnyString(subs) && SomeAnyString(subs[1..]) && OuterAnchorsAll(subs, start, end)
    ensures HasLeast(LeastAll(subs[1..], start, end), OneNeedyAmong(subs))
    ensures OuterAnchors(subs[0], start, false)
    ensures MatchesAnyString(subs[0]) ==> LeastAll(subs[1..], false, end).Some?
    decreases subs, 0, 1
  {
    hide LeastAll, OuterAnchors, MatchesOnlyEmpty, MatchesAnyString, Nullable, OneNeedyElement;
    var rest := subs[1..];
    var start1 := start && MatchesOnlyEmpty(subs[0]);
    RestOfElements(subs);
    NotAllOnlyEmpty(rest);
    ElementsHaveLeast(rest, start1, end);
    AllMonotone(rest, start1, end, start, end);
    if MatchesAnyString(subs[0]) && MatchesOnlyEmpty(subs[0]) {
      OnlyEmptyIsNotAnyString(subs[0]);
    }
  }

  lemma SkipFirst(subs: seq<Tree>, start: bool, end: bool)
    requires subs != [] && Nullable(subs[0]) && OuterAnchors(subs[0], start, false)
    ensures Improves(LeastAll(subs, start, end), LeastAll(subs[1..], start, end))
  {
    hide Least, OuterAnchors, NullableAt, Nullable;
    OuterNullable(subs[0], start, false);
  }

  lemma {:induction false} ShareFirst(subs: seq<Tree>, start: bool, end: bool)
    requires subs != [] && MatchesAnyString(subs[0]) && OuterAnchors(subs[0], start, false)
    requires LeastAll(subs[1..], false, end).Some?
    ensures LeastAll(subs, start, end).Some?
    decreases subs, 0, 0
  {
    hide Least, OuterAnchors, NullableAt, MatchesAnyString;
    AcceptedHasLeast(subs[0], start, false);
  }

  lemma RestOfElements(subs: seq<Tree>)
    requires Elements(subs) && SomeAnyString(subs)
    ensures Elements(subs[1..]) && (OneNeedyAmong(subs) ==> OneNeedyAmong(subs[1..]))
    ensures MatchesAnyString(subs[0]) || SomeAnyString(subs[1..])
  {
    hide MatchesAnyString, Nullable, OneNeedyElement;
    assert forall k | 0 <= k < |subs[1..]| :: subs[1..][k] == subs[k + 1];
    var i :| 0 <= i < |subs| && MatchesAnyString(subs[i]);
    assert i > 0 ==> subs[1..][i - 1] == subs[i];
  }

  lemma NotAllOnlyEmpty(subs: seq<Tree>)
    requires SomeAnyString(subs)
    ensures exists k :: 0 <= k < |subs| && !MatchesOnlyEmpty(subs[k])
  {
    var k :| 0 <= k < |subs| && MatchesAnyString(subs[k]);
    if MatchesOnlyEmpty(subs[k]) {
      OnlyEmptyIsNotAnyString(subs[k]);
    }
  }

  /** The first element spans everything when all others can take nothing. */
  lemma {:induction false} FirstSpans(subs: seq<Tree>, start: bool, end: bool)
    requires subs != [] && MatchesAnyString(subs[0]) && OuterAnchorsAll(subs, start, end)
    requires forall k | 1 <= k < |subs| :: Nullable(subs[k])
    ensures HasLeast(LeastAll(subs, start, end), OneNeedyElement(subs[0]))
    decreases subs, 0, 0
  {
    hide Least, NullableAt, OuterAnchors, MatchesOnlyEmpty, MatchesAnyString, Nullable, OneNeedyElement;
    var end0 := end && forall k | 1 <= k < |subs| :: MatchesOnlyEmpty(subs[k]);
    AcceptedHasLeast(subs[0], start, end0);
    LeastMonotone(subs[0], start, end0, start, end);
    if MatchesOnlyEmpty(subs[0]) {
      OnlyEmptyIsNotAnyString(subs[0]);
    }
    OuterNullableAll(subs[1..], false, end);
  }

  lemma {:induction false} LastAnyString(subs: seq<Tree>, start: bool, end: bool)
    requires subs != [] && Elements(subs) && MatchesAnyString(subs[0]) && !SomeAnyString(subs[1..]) && OuterAnchorsAll(subs, start, end)
    ensures HasLeast(LeastAll(subs, start, end), OneNeedyAmong(subs))
    decreases subs, 0, 1
  {
    hide Least, LeastAll, OuterAnchorsAll, MatchesAnyString, Nullable, OneNeedyElement;
    assert forall k | 1 <= k < |subs| :: subs[k] == subs[1..][k - 1];
    FirstSpans(subs, start, end);
  }

  lemma {:induction false} NeedyFirst(subs: seq<Tree>, start: bool, end: bool)
    requires subs != [] && Elements(subs) && OneNeedyAmong(subs) && MatchesAnyString(subs[0]) && !Nullable(subs[0])
    requires OuterAnchorsAll(subs, start, end)
    ensures HasLeast(LeastAll(subs, start, end), true)
    decreases subs, 0, 1
  {
    hide Least, LeastAll, OuterAnchorsAll, MatchesAnyString, Nullable, OneNeedyElement;
    FirstSpans(subs, start, end);
  }

  /**
   Catch-all soundness: a tree that matchesAnyString accepts, with anchors at its outer ends only, has a
   least length, and matches every newline-free value of that length or more, whole. It matches the empty
   value as well if it is nullable.
   */
  lemma CatchAllMatchesEverything(re: Tree, value: Text)
    requires WellFormed(re) && MatchesAnyString(re) && OuterAnchors(re, true, true)
    requires NewlineFree(value)
    ensures Least(re, true, true).Some?
    ensures |value| >= Least(re, true, true).value || (value == [] && Nullable(re)) ==> MatchesWhole(re, value)
  {
    AcceptedHasLeast(re, true, true);
    if value == [] && Nullable(re) {
      NullableExactly(re);
    } else if |value| >= Least(re, true, true).value {
      WholeMatches(re, value);
    }
  }

  /** The whole of a value is a span that begins and ends with it. */
  lemma WholeMatches(re: Tree, value: Text)
    requires WellFormed(re) && NewlineFree(value) && LongEnough(Least(re, true, true), |value|)
    ensures MatchesWhole(re, value)
  {
    assert value[0..|value|] == value;
    LeastSpans(re, value, 0, |value|, true, true);
  }

  /** Every non-empty newline-free value matches when no concatenation has two needy elements. */
  lemma CatchAllMatchesEveryNonEmptyValue(re: Tree, value: Text)
    requires WellFormed(re) && MatchesAnyString(re) && OuterAnchors(re, true, true) && OneNeedyElement(re)
    requires NewlineFree(value) && value != []
    ensures MatchesWhole(re, value)
  {
    AcceptedHasLeast(re, true, true);
    WholeMatches(re, value);
  }

  const DotPlus := Plus(AnyCharNotNL)

  lemma FirstOf(subs: seq<Tree>, t: Text, i: nat, j: nat) returns (k: nat)
    requires i <= j <= |t| && subs != [] && MatchesAll(subs, t, i, j)
    ensures i <= k <= j && Matches(subs[0], t, i, k) && MatchesAll(subs[1..], t, k, j)
  {
    k :| i <= k <= j && Matches(subs[0], t, i, k) && MatchesAll(subs[1..], t, k, j);
  }

  lemma SplitPair(a: Tree, b: Tree, t: Text, i: nat, j: nat) returns (k: nat)
    requires i <= j <= |t| && MatchesAll([a, b], t, i, j)
    ensures i <= k <= j && Matches(a, t, i, k) && Matches(b, t, k, j)
  {
    k := FirstOf([a, b], t, i, j);
    assert [a, b][1..] == [b];
    var m := FirstOf([b], t, k, j);
    assert [b][1..] == [];
  }

  lemma FirstTime(sub: Tree, t: Text, i: nat, j: nat, n: nat) returns (k: nat)
    requires i <= j <= |t| && n > 0 && Times(sub, t, i, j, n)
    ensures i <= k <= j && Matches(sub, t, i, k) && Times(sub, t, k, j, n - 1)
  {
    k :| i <= k <= j && Matches(sub, t, i, k) && Times(sub, t, k, j, n - 1);
  }

  lemma PlusConsumes(sub: Tree, t: Text, i: nat, j: nat)
    requires i <= j <= |t| && Matches(Plus(sub), t, i, j) && sub.AnyCharNotNL?
    ensures i < j
  {
    var n: nat :| n >= 1 && Times(sub, t, i, j, n);
    var k := FirstTime(sub, t, i, j, n);
  }

  lemma PairLeast(a: Tree, b: Tree, start: bool, end: bool)
    ensures var none := if NullableAt(a, start, false) then Least(b, start, end) else None;
            var whole := if NullableAt(b, false, end) then Least(a, start, end) else None;
            Least(Concat([a, b]), start, end) == Shorter(none, Shorter(whole, Together(Least(a, start, false), Least(b, false, end))))
  {
    hide NullableAt;
    var subs := [a, b];
    assert subs[1..] == [b] && [b][0] == b && [b][1..] == [];
    assert LeastAll([], start, end) == None && LeastAll([], false, end) == None;
    assert LeastAll([b], start, end) == Least(b, start, end) && LeastAll([b], false, end) == Least(b, false, end);
    assert AllNullableAt([b], false, end) == NullableAt(b, false, end);
  }

  lemma PairAccepted(a: Tree, b: Tree)
    requires MatchesAnyString(a) && (MatchesAnyString(b) || Nullable(b))
    ensures MatchesAnyString(Concat([a, b]))
  {
    hide Nullable;
    var subs := [a, b];
    assert subs[0] == a && subs[1] == b;
  }

  lemma DotPlusLeast(start: bool, end: bool)
    ensures Least(DotPlus, start, end) == Some(1) && !NullableAt(DotPlus, start, end) && MatchesAnyString(DotPlus)
  {
  }

  /** .+.+ is accepted, yet no one-character value matches it: the least length of two is needed. */
  lemma TwoNeedyElementsNeedTwoCharacters(c: Rune)
    ensures MatchesAnyString(Concat([DotPlus, DotPlus])) && Least(Concat([DotPlus, DotPlus]), true, true) == Some(2)
    ensures !MatchesWhole(Concat([DotPlus, DotPlus]), [c])
  {
    hide Least, NullableAt, MatchesAnyString;
    DotPlusLeast(true, true);
    DotPlusLeast(true, false);
    DotPlusLeast(false, true);
    PairLeast(DotPlus, DotPlus, true, true);
    PairAccepted(DotPlus, DotPlus);
    if MatchesAll([DotPlus, DotPlus], [c], 0, 1) {
      var k := SplitPair(DotPlus, DotPlus, [c], 0, 1);
      PlusConsumes(AnyCharNotNL, [c], 0, k);
      PlusConsumes(AnyCharNotNL, [c], k, 1);
    }
  }

  /**
   .+^ is accepted, because nullable takes an anchor for freely empty, yet it matches no text at all:
   it has no least length.
   */
  lemma InnerAnchorMatchesNothing(value: Text)
    ensures MatchesAnyString(Concat([DotPlus, BeginText])) && Least(Concat([DotPlus, BeginText]), true, true) == None
    ensures !MatchesWhole(Concat([DotPlus, BeginText]), value)
  {
    var subs := [DotPlus, BeginText];
    PairAccepted(DotPlus, BeginText);
    DotPlusLeast(true, false);
    PairLeast(DotPlus, BeginText, true, true);
    if MatchesAll(subs, value, 0, |value|) {
      var k := SplitPair(DotPlus, BeginText, value, 0, |value|);
      PlusConsumes(AnyCharNotNL, value, 0, k);
    }
  }
}
