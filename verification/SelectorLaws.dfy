/** Which matchers never count as selective, and exactly when a regex does, told without the tests themselves. */
module SelectorLaws {
  import opened Wrappers
  import opened Regex
  import opened Selectivity
  import opened CatchAllSound
  import opened CatchAllExact
  import opened CatchAllComplete
  import opened LogQLMatchers
  import opened Guard

  // ----- matchers that narrow nothing

  /** A part that can be left out of a pattern. */
  predicate Skippable(re: Tree) {
    match re
    case Star(_) => true
    case Quest(_) => true
    case Repeat(_, min, _) => min == 0
    case Capture(sub) => Skippable(sub)
    case _ => re in {EmptyMatch, BeginLine, EndLine, BeginText, EndText}
  }

  /** A loop over any character: captured, optional, among alternatives, or next to parts that can be left out. */
  predicate AnyValue(re: Tree) {
    match re
    case Star(sub) => sub in {AnyChar, AnyCharNotNL}
    case Plus(sub) => sub in {AnyChar, AnyCharNotNL}
    case Quest(sub) => AnyValue(sub)
    case Capture(sub) => AnyValue(sub)
    case Alternate(subs) => exists i | 0 <= i < |subs| :: AnyValue(subs[i])
    case Concat(subs) =>
      && (exists i | 0 <= i < |subs| :: AnyValue(subs[i]))
      && (forall i | 0 <= i < |subs| :: AnyValue(subs[i]) || Skippable(subs[i]))
    case _ => false
  }

  lemma {:induction false} SkippableIsNullable(re: Tree)
    requires Skippable(re)
    ensures Nullable(re)
  {
    if re.Capture? {
      SkippableIsNullable(re.sub);
    }
  }

  lemma {:induction false} AnyValueIsAccepted(re: Tree)
    requires AnyValue(re)
    ensures MatchesAnyString(re)
  {
    match re
    case Quest(sub) => AnyValueIsAccepted(sub);
    case Capture(sub) => AnyValueIsAccepted(sub);
    case Alternate(subs) =>
      var k :| 0 <= k < |subs| && AnyValue(subs[k]);
      AnyValueIsAccepted(subs[k]);
    case Concat(subs) =>
      forall i | 0 <= i < |subs|
        ensures if AnyValue(subs[i]) then MatchesAnyString(subs[i]) else Nullable(subs[i])
      {
        if AnyValue(subs[i]) {
          AnyValueIsAccepted(subs[i]);
        } else {
          SkippableIsNullable(subs[i]);
        }
      }
    case _ =>
  }

  /** Negative, equal to the empty value, or a pattern that matches any value, or anchors alone. */
  predicate Idle(compile: Compiler, matcher: LabelMatcher) {
    match matcher.op
    case Neq => true
    case Nre => true
    case Eq => matcher.value == ""
    case Re =>
      match compile(matcher.value)
      case None => false
      case Some(re) => AnyValue(re) || AnchorsAlone(re)
  }

  lemma IdleIsNotSelected(compile: Compiler, matcher: LabelMatcher)
    requires Idle(compile, matcher)
    ensures !Selects(compile, matcher)
  {
    if matcher.op.Re? {
      var re := compile(matcher.value).value;
      if AnyValue(re) {
        AnyValueIsAccepted(re);
      } else {
        AnchorsMatchOnlyEmpty(re);
      }
    }
  }

  /** Negative matchers alone never make a selector selective, whatever their values. */
  lemma NegativeIsNeverSelective(compile: Compiler, matchers: seq<LabelMatcher>)
    requires forall m | m in matchers :: m.op in {Neq, Nre}
    ensures !Selective(compile, matchers)
  {
    IdleIsNeverSelective(compile, matchers);
  }

  lemma IdleIsNeverSelective(compile: Compiler, matchers: seq<LabelMatcher>)
    requires forall m | m in matchers :: Idle(compile, m)
    ensures !Selective(compile, matchers)
  {
    forall i | 0 <= i < |matchers|
      ensures !Selects(compile, matchers[i])
    {
      IdleIsNotSelected(compile, matchers[i]);
    }
  }

  // ----- exactly when a positive matcher selects

  /** An equality is selected exactly when it rules out the streams without the label. */
  lemma EqualitySelectsExactly(compile: Compiler, matcher: LabelMatcher, text: string -> Text)
    requires matcher.op.Eq? && forall s :: text(s) == [] <==> s == ""
    ensures Selects(compile, matcher) <==> !Accepts(compile, matcher, text, [])
    ensures Selects(compile, matcher) ==> forall value | Accepts(compile, matcher, text, value) :: value != []
  {
    assert text(matcher.value) == [] <==> matcher.value == "";
  }

  /** A pattern that does not parse is left for the server to refuse. */
  lemma UnparsedIsSelected(compile: Compiler, matcher: LabelMatcher)
    requires matcher.op.Re? && compile(matcher.value).None?
    ensures Selects(compile, matcher)
  {
  }

  lemma {:induction false} FreeHasNoAnchors(re: Tree, start: bool, end: bool)
    requires Free(re)
    ensures OuterAnchors(re, start, end)
    decreases re, 0, 0
  {
    match re
    case Capture(sub) => FreeHasNoAnchors(sub, start, end);
    case Star(sub) => FreeHasNoAnchors(sub, start, end);
    case Plus(sub) => FreeHasNoAnchors(sub, start, end);
    case Quest(sub) => FreeHasNoAnchors(sub, start, end);
    case Repeat(sub, _, _) => FreeHasNoAnchors(sub, start, end);
    case Concat(subs) => AllFreeOfAnchors(subs, start, end);
    case Alternate(subs) =>
      forall i | 0 <= i < |subs| { FreeHasNoAnchors(subs[i], start, end); }
    case _ =>
  }

  lemma {:induction false} AllFreeOfAnchors(subs: seq<Tree>, start: bool, end: bool)
    requires forall i | 0 <= i < |subs| :: Free(subs[i])
    ensures OuterAnchorsAll(subs, start, end)
    decreases subs, 0, 0
  {
    hide Free, OuterAnchors, MatchesOnlyEmpty;
    if subs != [] {
      FreeHasNoAnchors(subs[0], start, end && forall i | 1 <= i < |subs| :: MatchesOnlyEmpty(subs[i]));
      AllFreeOfAnchors(subs[1..], start && MatchesOnlyEmpty(subs[0]), end);
    }
  }

  lemma {:induction false} FreeHasNoBoundary(re: Tree, c: Rune, n: nat)
    requires Free(re)
    ensures Boundless(re, c, n)
  {
    match re
    case Capture(sub) => FreeHasNoBoundary(sub, c, n);
    case Star(sub) => FreeHasNoBoundary(sub, c, n);
    case Plus(sub) => FreeHasNoBoundary(sub, c, n);
    case Quest(sub) => FreeHasNoBoundary(sub, c, n);
    case Repeat(sub, _, _) => FreeHasNoBoundary(sub, c, n);
    case Concat(subs) =>
      forall i | 0 <= i < |subs| { FreeHasNoBoundary(subs[i], c, n); }
    case Alternate(subs) =>
      forall i | 0 <= i < |subs| { FreeHasNoBoundary(subs[i], c, n); }
    case _ =>
  }

  /** Some non-empty value is matched, and none that consists of c alone. */
  ghost predicate Narrows(re: Tree, c: Rune) {
    && (exists value: Text :: value != [] && MatchesWhole(re, value))
    && (forall value: Text | Only(value, c) && value != [] :: !MatchesWhole(re, value))
  }

  /**
   A pattern without anchors and boundaries, in which nothing but loops over all characters consumes some character c,
   counts as selective exactly when it matches some non-empty value but none of c alone.
   */
  lemma RegexSelectsExactly(compile: Compiler, matcher: LabelMatcher, c: Rune)
    requires matcher.op.Re? && compile(matcher.value).Some?
    requires var re := compile(matcher.value).value; WellFormed(re) && Free(re) && Loops(re, c) && c != NEWLINE
    ensures Selects(compile, matcher) <==> Narrows(compile(matcher.value).value, c)
  {
    hide Free, Loops, MatchesAnyString, MatchesOnlyEmpty, Matches, Least;
    var re := compile(matcher.value).value;
    OnlyEmptyExactly(re);
    FreeHasNoAnchors(re, true, true);
    AcceptedIffLeast(re);
    if MatchesAnyString(re) {
      var value: Text := seq(Least(re, true, true).value, _ => c);
      WholeMatches(re, value);
      assert Only(value, c) && value != [];
    } else {
      forall value: Text | Only(value, c) && value != []
        ensures !MatchesWhole(re, value)
      {
        FreeHasNoBoundary(re, c, |value|);
        ShorterValuesFail(re, c, value);
      }
    }
  }
}
