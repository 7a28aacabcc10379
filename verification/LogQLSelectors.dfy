/**
 Extraction of stream selectors: brace groups outside literals, found by searches that each
 start afresh, and the matchers of those that parse.
 */
module LogQLSelectors {
  import opened Wrappers
  import opened LogQLLexer
  import opened LogQLMatchers

  /** The first target outside literals at or after i, when the scan stands in state lex before i. */
  function FindFrom(lex: Lex, s: string, i: nat, target: char): (r: Option<nat>)
    requires i <= |s|
    ensures r.Some? ==> i <= r.value < |s| && s[r.value] == target
    decreases |s| - i
  {
    if i == |s| then None
    else if lex.Code? && s[i] == target then Some(i)
    else FindFrom(Step(lex, s[i]), s, i + 1, target)
  }

  /** A search always starts outside literals. */
  function IndexFrom(s: string, from: nat, target: char): (r: Option<nat>)
    requires from <= |s|
    ensures r.Some? ==> from <= r.value < |s| && s[r.value] == target
  {
    FindFrom(Code, s, from, target)
  }

  /** One turn of the search: nothing found yet, or an escape that skips two bytes. */
  method SearchTurn(s: string, i: nat, inStr: Option<char>, target: char) returns (next: nat, after: Option<char>)
    requires i < |s| && !IsQuote(target) && (inStr.None? ==> s[i] != target)
    ensures i < next <= |s| + 1
    ensures FindFrom(LexOf(inStr), s, i, target) ==
            if next <= |s| then FindFrom(LexOf(after), s, next, target) else None
  {
    var c := s[i];
    next, after := i + 1, inStr;
    if inStr.Some? {
      if c == '\\' && inStr.value != '`' {
        next := i + 2;
      } else if c == inStr.value {
        after := None;
      }
    } else if IsQuote(c) {
      after := Some(c);
    }
  }

  /** indexOutsideStrings; None stands for -1. */
  method IndexOutsideStrings(s: string, from: nat, target: char) returns (found: Option<nat>)
    requires from <= |s| && !IsQuote(target)
    ensures found == IndexFrom(s, from, target)
  {
    var inStr: Option<char> := None;
    var i := from;
    while i < |s|
      invariant from <= i <= |s| + 1
      invariant IndexFrom(s, from, target) == if i <= |s| then FindFrom(LexOf(inStr), s, i, target) else None
      decreases |s| - i
    {
      if inStr.None? && s[i] == target {
        return Some(i);
      }
      i, inStr := SearchTurn(s, i, inStr, target);
    }
    return None;
  }

  // ----- brace groups

  datatype Brackets = Brackets(left: char, right: char)

  const BRACES := Brackets('{', '}')
  const SQUARES := Brackets('[', ']')

  /** Brackets are not quote marks, so a search can look for them. */
  predicate Plain(kind: Brackets) {
    !IsQuote(kind.left) && !IsQuote(kind.right)
  }

  datatype Group = Group(open: nat, close: nat)

  predicate InRange(s: string, group: Group) {
    group.open < group.close < |s|
  }

  /** The next brace group at or after i. */
  function NextGroup(kind: Brackets, s: string, i: nat): (r: Option<Group>)
    requires i <= |s|
    ensures r.Some? ==>
              && i <= r.value.open && InRange(s, r.value)
              && IndexFrom(s, i, kind.left) == Some(r.value.open)
              && IndexFrom(s, r.value.open + 1, kind.right) == Some(r.value.close)
  {
    match IndexFrom(s, i, kind.left)
    case None => None
    case Some(open) =>
      match IndexFrom(s, open + 1, kind.right)
      case None => None
      case Some(close) => Some(Group(open, close))
  }

  /** The brace groups found from index i on, one after the other. */
  function GroupsFrom(kind: Brackets, s: string, i: nat): (groups: seq<Group>)
    requires i <= |s|
    ensures forall n | 0 <= n < |groups| :: InRange(s, groups[n])
    decreases |s| - i
  {
    match NextGroup(kind, s, i)
    case None => []
    case Some(group) => [group] + GroupsFrom(kind, s, group.close + 1)
  }

  datatype Selector = Selector(raw: string, matchers: seq<LabelMatcher>)

  /** The parser of selector bodies; extraction itself does not depend on what it accepts. */
  type BodyParser = string -> Option<seq<LabelMatcher>>

  function Bodies(unquote: Unquoter): BodyParser {
    body => ParseMatchers(unquote, body)
  }

  /** A group that does not parse as matchers is skipped. */
  function SelectorOf(parse: BodyParser, s: string, group: Group): Option<Selector>
    requires InRange(s, group)
  {
    match parse(s[group.open + 1..group.close])
    case None => None
    case Some(matchers) => Some(Selector(s[group.open..group.close + 1], matchers))
  }

  function SelectorsOf(parse: BodyParser, s: string, groups: seq<Group>): seq<Option<Selector>>
    requires forall n | 0 <= n < |groups| :: InRange(s, groups[n])
  {
    seq(|groups|, n requires 0 <= n < |groups| => SelectorOf(parse, s, groups[n]))
  }

  /** The present elements, in order. */
  function Present<T>(options: seq<Option<T>>): seq<T> {
    if options == [] then []
    else (if options[0].Some? then [options[0].value] else []) + Present(options[1..])
  }

  lemma {:induction false} PresentAt<T>(options: seq<Option<T>>, n: nat) returns (k: nat)
    requires n < |Present(options)|
    ensures k < |options| && options[k] == Some(Present(options)[n])
  {
    if options[0].Some? && n == 0 {
      k := 0;
    } else {
      k := PresentAt(options[1..], if options[0].Some? then n - 1 else n);
      k := k + 1;
    }
  }

  function SelectorsFrom(parse: BodyParser, s: string, i: nat): seq<Selector>
    requires i <= |s|
  {
    Present(SelectorsOf(parse, s, GroupsFrom(BRACES, s, i)))
  }

  function ParseSelectors(parse: BodyParser, logql: string): seq<Selector> {
    SelectorsFrom(parse, logql, 0)
  }

  function AsSeq<T>(option: Option<T>): seq<T> {
    if option.Some? then [option.value] else []
  }

  lemma SelectorsStep(parse: BodyParser, s: string, i: nat)
    requires i <= |s|
    ensures SelectorsFrom(parse, s, i) ==
            match NextGroup(BRACES, s, i)
            case None => []
            case Some(group) => AsSeq(SelectorOf(parse, s, group)) + SelectorsFrom(parse, s, group.close + 1)
  {
    if NextGroup(BRACES, s, i).Some? {
      var next := NextGroup(BRACES, s, i).value.close + 1;
      assert SelectorsOf(parse, s, GroupsFrom(BRACES, s, i))[1..] == SelectorsOf(parse, s, GroupsFrom(BRACES, s, next));
    }
  }

  method FindGroup(kind: Brackets, s: string, i: nat) returns (group: Option<Group>)
    requires i <= |s| && Plain(kind)
    ensures group == NextGroup(kind, s, i)
  {
    var open := IndexOutsideStrings(s, i, kind.left);
    if open.None? {
      return None;
    }
    var close := IndexOutsideStrings(s, open.value + 1, kind.right);
    if close.None? {
      return None;
    }
    return Some(Group(open.value, close.value));
  }

  method ParseGroup(unquote: Unquoter, s: string, group: Group) returns (parsed: Option<Selector>)
    requires InRange(s, group)
    ensures parsed == SelectorOf(Bodies(unquote), s, group)
  {
    var matchers, ok := ParseMatcherList(unquote, s[group.open + 1..group.close]);
    return if ok then Some(Selector(s[group.open..group.close + 1], matchers)) else None;
  }

  /** One turn of the extraction: the next group's selector, if it parses, and where to go on. */
  method SelectorTurn(unquote: Unquoter, s: string, i: nat) returns (parsed: seq<Selector>, next: Option<nat>)
    requires i <= |s|
    ensures match NextGroup(BRACES, s, i)
            case None => next == None
            case Some(group) => next == Some(group.close + 1) && parsed == AsSeq(SelectorOf(Bodies(unquote), s, group))
  {
    var group := FindGroup(BRACES, s, i);
    if group.None? {
      return [], None;
    }
    var selector := ParseGroup(unquote, s, group.value);
    return AsSeq(selector), Some(group.value.close + 1);
  }

  /** parseLogQLSelectors. */
  method ParseLogQLSelectors(unquote: Unquoter, logql: string) returns (out: seq<Selector>)
    ensures out == ParseSelectors(Bodies(unquote), logql)
  {
    out := [];
    var i := 0;
    ghost var parse := Bodies(unquote);
    while i < |logql|
      invariant i <= |logql|
      invariant ParseSelectors(parse, logql) == out + SelectorsFrom(parse, logql, i)
      decreases |logql| - i
    {
      SelectorsStep(parse, logql, i);
      var parsed, next := SelectorTurn(unquote, logql, i);
      if next.None? {
        return;
      }
      assert out + (parsed + SelectorsFrom(parse, logql, next.value)) == out + parsed + SelectorsFrom(parse, logql, next.value);
      out, i := out + parsed, next.value;
    }
    SelectorsStep(parse, logql, i);
  }

  // ----- agreement with one global scan

  /** One scan of the whole query, from its first byte, stands outside literals before byte n. */
  predicate OutsideAt(s: string, n: nat)
    requires n <= |s|
  {
    LexAfter(Code, s[..n]) == Code
  }

  lemma {:induction false} FindIsFirst(lex: Lex, s: string, i: nat, target: char)
    requires i <= |s|
    ensures match FindFrom(lex, s, i, target)
            case Some(k) =>
              && LexAfter(lex, s[i..k]) == Code
              && forall m | i <= m < k && LexAfter(lex, s[i..m]) == Code :: s[m] != target
            case None => forall m | i <= m < |s| && LexAfter(lex, s[i..m]) == Code :: s[m] != target
    decreases |s| - i
  {
    if i == |s| || (lex.Code? && s[i] == target) {
    } else {
      FindIsFirst(Step(lex, s[i]), s, i + 1, target);
      forall m | i < m <= |s|
        ensures LexAfter(lex, s[i..m]) == LexAfter(Step(lex, s[i]), s[i + 1..m])
      {
        assert s[i..m][1..] == s[i + 1..m];
      }
    }
  }

  lemma OutsideFrom(s: string, i: nat, n: nat)
    requires i <= n <= |s| && OutsideAt(s, i)
    ensures OutsideAt(s, n) <==> LexAfter(Code, s[i..n]) == Code
  {
    assert s[..n] == s[..i] + s[i..n];
    LexAfterConcat(Code, s[..i], s[i..n]);
  }

  ghost predicate NoneOutside(s: string, i: nat, j: nat, target: char)
    requires i <= j <= |s|
  {
    forall m | i <= m < j && OutsideAt(s, m) :: s[m] != target
  }

  /** A fresh search from a place outside literals finds what the global scan would. */
  lemma IndexAgrees(s: string, i: nat, target: char)
    requires i <= |s| && OutsideAt(s, i)
    ensures match IndexFrom(s, i, target)
            case Some(k) => OutsideAt(s, k) && NoneOutside(s, i, k, target)
            case None => NoneOutside(s, i, |s|, target)
  {
    FindIsFirst(Code, s, i, target);
    forall n | i <= n <= |s|
      ensures OutsideAt(s, n) <==> LexAfter(Code, s[i..n]) == Code
    {
      OutsideFrom(s, i, n);
    }
  }

  lemma OutsideAfter(s: string, n: nat)
    requires n < |s| && OutsideAt(s, n) && !IsQuote(s[n])
    ensures OutsideAt(s, n + 1)
  {
    assert s[..n + 1] == s[..n] + [s[n]];
    LexAfterConcat(Code, s[..n], [s[n]]);
  }

  /** The first opener from i on is never closed. */
  ghost predicate UnclosedAt(kind: Brackets, s: string, i: nat, open: nat)
    requires i <= open < |s|
  {
    && s[open] == kind.left && OutsideAt(s, open) && NoneOutside(s, i, open, kind.left)
    && NoneOutside(s, open + 1, |s|, kind.right)
  }

  /** From index i on, the groups are the ones a single scan sees: in order, disjoint, none missed. */
  ghost predicate GroupsOfScan(kind: Brackets, s: string, i: nat, groups: seq<Group>)
    requires i <= |s|
    decreases |groups|
  {
    if groups == [] then
      || NoneOutside(s, i, |s|, kind.left)
      || exists open :: i <= open < |s| && UnclosedAt(kind, s, i, open)
    else
      var Group(open, close) := groups[0];
      && i <= open < close < |s|
      && s[open] == kind.left && OutsideAt(s, open) && NoneOutside(s, i, open, kind.left)
      && s[close] == kind.right && OutsideAt(s, close) && NoneOutside(s, open + 1, close, kind.right)
      && GroupsOfScan(kind, s, close + 1, groups[1..])
  }

  lemma {:induction false} GroupsAgreeWithScan(kind: Brackets, s: string, i: nat)
    requires i <= |s| && OutsideAt(s, i) && Plain(kind)
    ensures GroupsOfScan(kind, s, i, GroupsFrom(kind, s, i))
    decreases |s| - i
  {
    NextGroupAgrees(kind, s, i);
    if NextGroup(kind, s, i).Some? {
      var close := NextGroup(kind, s, i).value.close;
      GroupsAgreeWithScan(kind, s, close + 1);
      assert GroupsFrom(kind, s, i)[1..] == GroupsFrom(kind, s, close + 1);
    }
  }

  lemma NextGroupAgrees(kind: Brackets, s: string, i: nat)
    requires i <= |s| && OutsideAt(s, i) && Plain(kind)
    ensures match NextGroup(kind, s, i)
            case Some(group) =>
              && OutsideAt(s, group.open) && NoneOutside(s, i, group.open, kind.left)
              && OutsideAt(s, group.close) && NoneOutside(s, group.open + 1, group.close, kind.right)
              && OutsideAt(s, group.close + 1)
            case None =>
              || NoneOutside(s, i, |s|, kind.left)
              || exists open :: i <= open < |s| && UnclosedAt(kind, s, i, open)
  {
    IndexAgrees(s, i, kind.left);
    var open := IndexFrom(s, i, kind.left);
    if open.Some? {
      OutsideAfter(s, open.value);
      IndexAgrees(s, open.value + 1, kind.right);
      var close := IndexFrom(s, open.value + 1, kind.right);
      if close.Some? {
        OutsideAfter(s, close.value);
      } else {
        assert UnclosedAt(kind, s, i, open.value);
      }
    }
  }

  // ----- a reported selector parses back to itself

  /** A search sees only what lies between its start and what it finds. */
  lemma {:induction false} FindInSlice(lex: Lex, s: string, i: nat, target: char, a: nat, b: nat)
    requires a <= i <= b <= |s|
    requires FindFrom(lex, s, i, target).Some? && FindFrom(lex, s, i, target).value < b
    ensures FindFrom(lex, s[a..b], i - a, target) == Some(FindFrom(lex, s, i, target).value - a)
    decreases |s| - i
  {
    assert s[a..b][i - a] == s[i];
    if !(lex.Code? && s[i] == target) {
      FindInSlice(Step(lex, s[i]), s, i + 1, target, a, b);
    }
  }

  lemma NextGroupAlone(kind: Brackets, s: string, open: nat, close: nat)
    requires open < |s| && s[open] == kind.left && IndexFrom(s, open + 1, kind.right) == Some(close)
    ensures NextGroup(kind, s[open..close + 1], 0) == Some(Group(0, close - open))
  {
    var raw := s[open..close + 1];
    assert raw[0] == kind.left;
    FindInSlice(Code, s, open + 1, kind.right, open, close + 1);
  }

  lemma {:induction false} GroupsAreFound(kind: Brackets, s: string, i: nat, n: nat) returns (from: nat)
    requires i <= |s| && n < |GroupsFrom(kind, s, i)|
    ensures from <= |s| && NextGroup(kind, s, from) == Some(GroupsFrom(kind, s, i)[n])
    decreases n
  {
    if n == 0 {
      from := i;
    } else {
      from := GroupsAreFound(kind, s, NextGroup(kind, s, i).value.close + 1, n - 1);
    }
  }

  lemma OneGroup(parse: BodyParser, s: string, group: Group)
    requires InRange(s, group) && NextGroup(BRACES, s, 0) == Some(group) && group.close + 1 == |s|
    requires SelectorOf(parse, s, group).Some?
    ensures ParseSelectors(parse, s) == [SelectorOf(parse, s, group).value]
  {
    SelectorsStep(parse, s, 0);
    SelectorsStep(parse, s, |s|);
  }

  lemma SliceOfSlice(s: string, a: nat, b: nat, c: nat, d: nat)
    requires a <= b <= |s| && c <= d <= b - a
    ensures s[a..b][c..d] == s[a + c..a + d]
  {
    assert forall k | 0 <= k < d - c :: s[a..b][c..d][k] == s[a + c + k];
  }

  lemma SliceOfRaw(parse: BodyParser, s: string, group: Group)
    requires InRange(s, group)
    ensures var raw := s[group.open..group.close + 1];
            SelectorOf(parse, raw, Group(0, group.close - group.open)) == SelectorOf(parse, s, group)
  {
    var raw := s[group.open..group.close + 1];
    SliceOfSlice(s, group.open, group.close + 1, 1, group.close - group.open);
    SliceOfSlice(s, group.open, group.close + 1, 0, group.close - group.open + 1);
  }

  lemma RawOfGroup(parse: BodyParser, s: string, group: Group)
    requires InRange(s, group) && s[group.open] == '{' && IndexFrom(s, group.open + 1, '}') == Some(group.close)
    requires SelectorOf(parse, s, group).Some?
    ensures ParseSelectors(parse, SelectorOf(parse, s, group).value.raw) == [SelectorOf(parse, s, group).value]
  {
    NextGroupAlone(BRACES, s, group.open, group.close);
    SliceOfRaw(parse, s, group);
    OneGroup(parse, s[group.open..group.close + 1], Group(0, group.close - group.open));
  }

  /** The raw text reused for the estimate means the same selector again: it parses to exactly itself. */
  lemma RawParsesToItself(parse: BodyParser, logql: string, n: nat)
    requires n < |ParseSelectors(parse, logql)|
    ensures ParseSelectors(parse, ParseSelectors(parse, logql)[n].raw) == [ParseSelectors(parse, logql)[n]]
  {
    var groups := GroupsFrom(BRACES, logql, 0);
    var k := PresentAt(SelectorsOf(parse, logql, groups), n);
    var from := GroupsAreFound(BRACES, logql, 0, k);
    RawOfGroup(parse, logql, groups[k]);
  }
}
