/**
 Regular-expression trees as regexp/syntax builds them, and what it means for a tree to
 match a span of a text. Anchors and word boundaries look at the text around the span.
 */
module Regex {
  import opened Wrappers

  const MAX_RUNE := 0x10FFFF
  const NEWLINE: Rune := 10

  type Rune = r: int | 0 <= r <= 0x10FFFF

  type Text = seq<Rune>

  datatype Tree =
    | NoMatch
    | EmptyMatch
    | Literal(runes: seq<Rune>, folds: map<Rune, set<Rune>>)  // folds: other runes that count as equal, (?i)
    | CharClass(pairs: seq<Rune>)                             // low and high bounds, alternating
    | AnyCharNotNL
    | AnyChar
    | BeginLine
    | EndLine
    | BeginText
    | EndText
    | WordBoundary
    | NoWordBoundary
    | Capture(sub: Tree)
    | Star(sub: Tree)
    | Plus(sub: Tree)
    | Quest(sub: Tree)
    | Repeat(sub: Tree, min: nat, max: Option<nat>)
    | Concat(subs: seq<Tree>)
    | Alternate(subs: seq<Tree>)

  /** What the parser guarantees of its trees. */
  predicate WellFormed(re: Tree) {
    match re
    case Literal(runes, _) => runes != []
    case CharClass(pairs) => |pairs| % 2 == 0
    case Repeat(sub, min, max) => WellFormed(sub) && (max.Some? ==> min <= max.value)
    case Capture(sub) => WellFormed(sub)
    case Star(sub) => WellFormed(sub)
    case Plus(sub) => WellFormed(sub)
    case Quest(sub) => WellFormed(sub)
    case Concat(subs) => forall i | 0 <= i < |subs| :: WellFormed(subs[i])
    case Alternate(subs) => forall i | 0 <= i < |subs| :: WellFormed(subs[i])
    case _ => true
  }

  predicate IsWord(r: Rune) {
    48 <= r <= 57 || 65 <= r <= 90 || 97 <= r <= 122 || r == 95
  }

  predicate AtWordBoundary(t: Text, p: nat)
    requires p <= |t|
  {
    (p > 0 && IsWord(t[p - 1])) != (p < |t| && IsWord(t[p]))
  }

  ghost predicate InClass(r: Rune, pairs: seq<Rune>) {
    exists k: nat :: 2 * k + 1 < |pairs| && pairs[2 * k] <= r <= pairs[2 * k + 1]
  }

  /** The tree can consume exactly t[i..j]. */
  ghost predicate Matches(re: Tree, t: Text, i: nat, j: nat)
    requires i <= j <= |t|
    decreases re, 0, 0
  {
    match re
    case NoMatch => false
    case EmptyMatch => i == j
    case Literal(runes, folds) =>
      && j - i == |runes|
      && forall k | 0 <= k < |runes| ::
           t[i + k] == runes[k] || (runes[k] in folds && t[i + k] in folds[runes[k]])
    case CharClass(pairs) => j == i + 1 && InClass(t[i], pairs)
    case AnyCharNotNL => j == i + 1 && t[i] != NEWLINE
    case AnyChar => j == i + 1
    case BeginLine => i == j && (i == 0 || t[i - 1] == NEWLINE)
    case EndLine => i == j && (i == |t| || t[i] == NEWLINE)
    case BeginText => i == j && i == 0
    case EndText => i == j && i == |t|
    case WordBoundary => i == j && AtWordBoundary(t, i)
    case NoWordBoundary => i == j && !AtWordBoundary(t, i)
    case Capture(sub) => Matches(sub, t, i, j)
    case Star(sub) => exists n: nat :: Times(sub, t, i, j, n)
    case Plus(sub) => exists n: nat :: n >= 1 && Times(sub, t, i, j, n)
    case Quest(sub) => i == j || Matches(sub, t, i, j)
    case Repeat(sub, min, max) => exists n: nat :: min <= n && (max.Some? ==> n <= max.value) && Times(sub, t, i, j, n)
    case Concat(subs) => MatchesAll(subs, t, i, j)
    case Alternate(subs) => exists k | 0 <= k < |subs| :: Matches(subs[k], t, i, j)
  }

  /** n matches of sub, one after the other. */
  ghost predicate Times(sub: Tree, t: Text, i: nat, j: nat, n: nat)
    requires i <= j <= |t|
    decreases sub, 1, n
  {
    if n == 0 then i == j
    else exists k :: i <= k <= j && Matches(sub, t, i, k) && Times(sub, t, k, j, n - 1)
  }

  ghost predicate MatchesAll(subs: seq<Tree>, t: Text, i: nat, j: nat)
    requires i <= j <= |t|
    decreases subs, 0, 0
  {
    if subs == [] then i == j
    else exists k :: i <= k <= j && Matches(subs[0], t, i, k) && MatchesAll(subs[1..], t, k, j)
  }

  /** Matcher regexes are anchored: the tree has to consume the whole value. */
  ghost predicate MatchesWhole(re: Tree, t: Text) {
    Matches(re, t, 0, |t|)
  }
}
