/** A written selector is found where it stands in a query. */
module SelectorRoundTrip {
  import opened Wrappers
  import opened LogQLLexer
  import opened LogQLMatchers
  import opened LogQLSelectors
  import opened MatcherRoundTrip

  /** A scan of a from lex meets no target outside literals. */
  predicate Passes(lex: Lex, a: string, target: char)
    decreases |a|
  {
    a == [] || (!(lex.Code? && a[0] == target) && Passes(Step(lex, a[0]), a[1..], target))
  }

  /** Starts and ends outside literals, with no target there. */
  predicate Quiet(a: string, target: char) {
    Passes(Code, a, target) && LexAfter(Code, a) == Code
  }

  lemma {:induction false} PassesConcat(lex: Lex, a: string, b: string, target: char)
    requires Passes(lex, a, target) && Passes(LexAfter(lex, a), b, target)
    ensures Passes(lex, a + b, target)
    decreases |a|
  {
    if a == [] {
      assert a + b == b;
    } else {
      assert (a + b)[1..] == a[1..] + b;
      PassesConcat(Step(lex, a[0]), a[1..], b, target);
    }
  }

  lemma QuietConcat(a: string, b: string)
    requires Quiet(a, '}') && Quiet(b, '}')
    ensures Quiet(a + b, '}')
  {
    PassesConcat(Code, a, b, '}');
    LexAfterConcat(Code, a, b);
  }

  lemma {:induction false} PlainIsQuiet(a: string)
    requires forall i | 0 <= i < |a| :: !IsQuote(a[i]) && a[i] != '}'
    ensures Quiet(a, '}')
  {
    if a != [] {
      PlainIsQuiet(a[1..]);
    }
  }

  /** Up to its closing quote a literal holds no brace that a scan would see, whatever is in it. */
  lemma {:induction false} LiteralPasses(t: string, q: char, n: nat)
    requires CloseAt(t, q) == Some(n)
    ensures n < |t| && Passes(Str(q), t[..n + 1], '}') && LexAfter(Str(q), t[..n + 1]) == Code
    decreases |t|
  {
    var cut := t[..n + 1];
    if t[0] == '\\' && q != '`' {
      LiteralPasses(t[2..], q, n - 2);
      assert cut[1..][1..] == t[2..][..n - 1];
      assert Step(Step(Str(q), cut[0]), cut[1..][0]) == Str(q);
    } else if t[0] != q {
      LiteralPasses(t[1..], q, n - 1);
      assert cut[1..] == t[1..][..n];
    } else {
      assert cut[1..] == [];
    }
  }

  lemma QuotedIsQuiet(q: char, body: string)
    requires Closed(q, body)
    ensures Quiet([q] + (body + [q]), '}')
  {
    hide CloseAt;
    var text := [q] + (body + [q]);
    BodyCloses(q, body);
    LiteralPasses(body + [q], q, |body|);
    assert (body + [q])[..|body| + 1] == body + [q] == text[1..];
  }

  lemma SpelledIsQuiet(spelling: Spelling)
    requires if spelling.Bare? then Ident(spelling.text) else Closed(spelling.q, spelling.body)
    ensures Quiet(Spell(spelling), '}')
  {
    hide Quiet, Closed;
    if spelling.Bare? {
      PlainIsQuiet(spelling.text);
    } else {
      QuotedIsQuiet(spelling.q, spelling.body);
    }
  }

  lemma BlankIsQuiet(blanks: string)
    requires Blank(blanks)
    ensures Quiet(blanks, '}')
  {
    PlainIsQuiet(blanks);
  }

  lemma OpIsQuiet(op: Op)
    ensures Quiet(OpText(op), '}')
  {
    PlainIsQuiet(OpText(op));
  }

  lemma CommaIsQuiet(w: Written)
    ensures Quiet(CommaText(w), '}')
  {
    PlainIsQuiet(CommaText(w));
  }

  lemma OneIsQuiet(unquote: Unquoter, w: Written, rest: string)
    requires GoodOne(unquote, w) && Quiet(rest, '}')
    ensures Quiet(RenderOne(w, rest), '}')
  {
    hide Quiet, Spell, OpText, CommaText, Blank, Closed, Meaning, Ident;
    BlankIsQuiet(w.beforeName);
    SpelledIsQuiet(w.name);
    BlankIsQuiet(w.beforeOp);
    OpIsQuiet(w.op);
    BlankIsQuiet(w.beforeValue);
    SpelledIsQuiet(w.value);
    BlankIsQuiet(w.afterValue);
    CommaIsQuiet(w);
    QuietConcat(CommaText(w), rest);
    QuietConcat(w.afterValue, CommaText(w) + rest);
    QuietConcat(Spell(w.value), w.afterValue + (CommaText(w) + rest));
    QuietConcat(w.beforeValue, RenderValue(w, rest));
    QuietConcat(OpText(w.op), w.beforeValue + RenderValue(w, rest));
    QuietConcat(w.beforeOp, RenderOp(w, rest));
    QuietConcat(Spell(w.name), w.beforeOp + RenderOp(w, rest));
    QuietConcat(w.beforeName, Spell(w.name) + (w.beforeOp + RenderOp(w, rest)));
  }

  lemma {:induction false} RenderIsQuiet(unquote: Unquoter, ws: seq<Written>, end: string)
    requires GoodList(unquote, ws, end)
    ensures Quiet(Render(ws, end), '}')
    decreases |ws|
  {
    hide Quiet, GoodOne, RenderOne;
    if ws == [] {
      BlankIsQuiet(end);
    } else {
      RenderIsQuiet(unquote, ws[1..], end);
      OneIsQuiet(unquote, ws[0], Render(ws[1..], end));
    }
  }

  // ----- in a query

  lemma {:induction false} FindPast(lex: Lex, s: string, i: nat, j: nat, target: char)
    requires i <= j <= |s| && Passes(lex, s[i..j], target)
    ensures FindFrom(lex, s, i, target) == FindFrom(LexAfter(lex, s[i..j]), s, j, target)
    decreases j - i
  {
    if i < j {
      assert s[i..j][1..] == s[i + 1..j];
      FindPast(Step(lex, s[i]), s, i + 1, j, target);
    }
  }

  lemma FindAfterQuiet(s: string, i: nat, quiet: string, target: char)
    requires i + |quiet| < |s| && s[i..i + |quiet|] == quiet && Quiet(quiet, target) && s[i + |quiet|] == target
    ensures IndexFrom(s, i, target) == Some(i + |quiet|)
  {
    FindPast(Code, s, i, i + |quiet|, target);
  }

  function Shifted(found: Option<nat>, n: nat): Option<nat> {
    match found case Some(k) => Some(n + k) case None => None
  }

  /** A search does not depend on what stands before its start. */
  lemma {:induction false} FindIsForward(lex: Lex, a: string, b: string, i: nat, target: char)
    requires i <= |b|
    ensures FindFrom(lex, a + b, |a| + i, target) == Shifted(FindFrom(lex, b, i, target), |a|)
    decreases |b| - i
  {
    if i < |b| {
      assert (a + b)[|a| + i] == b[i];
      if !(lex.Code? && b[i] == target) {
        FindIsForward(Step(lex, b[i]), a, b, i + 1, target);
      }
    }
  }

  lemma NextGroupIsForward(kind: Brackets, a: string, b: string, i: nat)
    requires i <= |b|
    ensures NextGroup(kind, a + b, |a| + i) ==
            match NextGroup(kind, b, i)
            case None => None
            case Some(group) => Some(Group(|a| + group.open, |a| + group.close))
  {
    FindIsForward(Code, a, b, i, kind.left);
    var open := IndexFrom(b, i, kind.left);
    if open.Some? {
      FindIsForward(Code, a, b, open.value + 1, kind.right);
    }
  }

  lemma SelectorIsForward(parse: BodyParser, a: string, b: string, group: Group)
    requires InRange(b, group)
    ensures SelectorOf(parse, a + b, Group(|a| + group.open, |a| + group.close)) == SelectorOf(parse, b, group)
  {
    assert (a + b)[|a| + group.open + 1..|a| + group.close] == b[group.open + 1..group.close];
    assert (a + b)[|a| + group.open..|a| + group.close + 1] == b[group.open..group.close + 1];
  }

  lemma SameSelector(parse: BodyParser, s: string, from: nat, b: string, i: nat, shifted: Group, group: Group)
    requires i <= |b| && from <= |s| && NextGroup(BRACES, b, i) == Some(group) && NextGroup(BRACES, s, from) == Some(shifted)
    requires SelectorOf(parse, s, shifted) == SelectorOf(parse, b, group)
    requires SelectorsFrom(parse, s, shifted.close + 1) == SelectorsFrom(parse, b, group.close + 1)
    ensures SelectorsFrom(parse, s, from) == SelectorsFrom(parse, b, i)
  {
    hide SelectorsFrom, NextGroup, SelectorOf, FindFrom, IndexFrom;
    SelectorsStep(parse, b, i);
    SelectorsStep(parse, s, from);
  }

  /** Neither does the extraction. */
  lemma {:induction false} SelectorsAreForward(parse: BodyParser, a: string, b: string, i: nat)
    requires i <= |b|
    ensures SelectorsFrom(parse, a + b, |a| + i) == SelectorsFrom(parse, b, i)
    decreases |b| - i
  {
    hide SelectorsFrom, NextGroup, SelectorOf, FindFrom, IndexFrom;
    NextGroupIsForward(BRACES, a, b, i);
    var next := NextGroup(BRACES, b, i);
    if next.Some? {
      var group := next.value;
      var shifted := Group(|a| + group.open, |a| + group.close);
      SelectorsAreForward(parse, a, b, group.close + 1);
      SelectorIsForward(parse, a, b, group);
      SameSelector(parse, a + b, |a| + i, b, i, shifted, group);
    } else {
      SelectorsStep(parse, b, i);
      SelectorsStep(parse, a + b, |a| + i);
    }
  }

  lemma QueryParts(prefix: string, body: string, suffix: string)
    ensures var s := prefix + ("{" + body + "}") + suffix;
            var n := |prefix|;
            && n + |body| + 2 <= |s| && s[0..n] == prefix && s[n] == '{'
            && s[n + 1..n + 1 + |body|] == body && s[n + 1 + |body|] == '}'
            && s[n..n + |body| + 2] == "{" + body + "}"
  {
  }

  lemma BracedBodyIsFound(parse: BodyParser, prefix: string, body: string, suffix: string, matchers: seq<LabelMatcher>)
    requires Quiet(prefix, '{') && Quiet(body, '}') && parse(body) == Some(matchers)
    ensures var raw := "{" + body + "}";
            ParseSelectors(parse, prefix + raw + suffix) == [Selector(raw, matchers)] + ParseSelectors(parse, suffix)
  {
    hide Quiet, FindFrom, SelectorsFrom;
    var raw := "{" + body + "}";
    var s, n := prefix + raw + suffix, |prefix|;
    QueryParts(prefix, body, suffix);
    FindAfterQuiet(s, 0, prefix, '{');
    FindAfterQuiet(s, n + 1, body, '}');
    SelectorsStep(parse, s, 0);
    SelectorsAreForward(parse, prefix + raw, suffix, 0);
  }

  /**
   A written selector is extracted whole, wherever it stands: after anything without a brace outside literals it is
   the first selector reported, with its exact text and the matchers it was written from, whatever braces
   or quotes their values hold, and the rest of the query is extracted as if it stood alone.
   */
  lemma WrittenSelectorIsFound(unquote: Unquoter, prefix: string, ws: seq<Written>, end: string, suffix: string)
    requires GoodList(unquote, ws, end) && Quiet(prefix, '{')
    ensures var raw := "{" + Render(ws, end) + "}";
            ParseSelectors(Bodies(unquote), prefix + raw + suffix) ==
            [Selector(raw, MatchersOf(unquote, ws))] + ParseSelectors(Bodies(unquote), suffix)
  {
    hide Quiet, Render, GoodList, ParseMatchers;
    RenderThenParse(unquote, ws, end);
    RenderIsQuiet(unquote, ws, end);
    BracedBodyIsFound(Bodies(unquote), prefix, Render(ws, end), suffix, MatchersOf(unquote, ws));
  }

  /** Braces around anything that is not a list of matchers are passed over. */
  lemma BracedBodyIsSkipped(parse: BodyParser, prefix: string, body: string, suffix: string)
    requires Quiet(prefix, '{') && Quiet(body, '}') && parse(body) == None
    ensures ParseSelectors(parse, prefix + ("{" + body + "}") + suffix) == ParseSelectors(parse, suffix)
  {
    hide Quiet, FindFrom, SelectorsFrom;
    var raw := "{" + body + "}";
    var s, n := prefix + raw + suffix, |prefix|;
    QueryParts(prefix, body, suffix);
    FindAfterQuiet(s, 0, prefix, '{');
    FindAfterQuiet(s, n + 1, body, '}');
    SelectorsStep(parse, s, 0);
    SelectorsAreForward(parse, prefix + raw, suffix, 0);
  }

  /** Without an opening brace outside literals there is no selector, and none after one that nothing closes. */
  lemma NothingIsSelected(parse: BodyParser, prefix: string, rest: string)
    ensures Passes(Code, prefix, '{') ==> ParseSelectors(parse, prefix) == []
    ensures Quiet(prefix, '{') && Passes(Code, rest, '}') ==> ParseSelectors(parse, prefix + "{" + rest) == []
  {
    hide SelectorsFrom;
    if Passes(Code, prefix, '{') {
      assert prefix[0..|prefix|] == prefix;
      FindPast(Code, prefix, 0, |prefix|, '{');
      SelectorsStep(parse, prefix, 0);
    }
    if Quiet(prefix, '{') && Passes(Code, rest, '}') {
      var s, n := prefix + "{" + rest, |prefix|;
      assert s[0..n] == prefix && s[n] == '{' && s[n + 1..|s|] == rest;
      FindAfterQuiet(s, 0, prefix, '{');
      FindPast(Code, s, n + 1, |s|, '}');
      SelectorsStep(parse, s, 0);
    }
  }
}
