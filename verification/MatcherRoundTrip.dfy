/**
 Writing a list of matchers and parsing it back. Blanks may stand between any two tokens, names may be bare or
 quoted, values in any of the three quotes, with escapes, and a trailing comma is allowed.
 */
module MatcherRoundTrip {
  import opened Wrappers
  import opened LogQLLexer
  import opened LogQLMatchers

  /** How a name or a value is written. */
  datatype Spelling = Bare(text: string) | Quoted(q: char, body: string)

  /** One written matcher, the blanks around its tokens included. */
  datatype Written = Written(beforeName: string, name: Spelling, beforeOp: string, op: Op, beforeValue: string,
                             value: Spelling, afterValue: string, comma: bool)

  predicate Blank(s: string) {
    forall i | 0 <= i < |s| :: IsBlank(s[i])
  }

  predicate Ident(s: string) {
    s != [] && forall i | 0 <= i < |s| :: IsIdentChar(s[i])
  }

  function Spell(spelling: Spelling): string {
    match spelling
    case Bare(text) => text
    case Quoted(q, body) => [q] + (body + [q])
  }

  /** What a spelling stands for; double quotes are unescaped if the library can. */
  function Meaning(unquote: Unquoter, spelling: Spelling): string {
    match spelling
    case Bare(text) => text
    case Quoted(q, body) =>
      if q == '"' && unquote(Spell(spelling)).Some? then unquote(Spell(spelling)).value else body
  }

  /** Bytes other than the quote, and, but for backticks, a backslash with the byte after it. */
  predicate Body(q: char, body: string)
    decreases |body|
  {
    if body == [] then true
    else if body[0] == '\\' && q != '`' then |body| >= 2 && Body(q, body[2..])
    else body[0] != q && Body(q, body[1..])
  }

  predicate Closed(q: char, body: string) {
    q in {'"', '`', '\''} && Body(q, body)
  }

  predicate GoodName(unquote: Unquoter, name: Spelling) {
    match name
    case Bare(text) => Ident(text)
    case Quoted(q, body) => q != '\'' && Closed(q, body) && Meaning(unquote, name) != ""
  }

  predicate GoodValue(value: Spelling) {
    value.Quoted? && Closed(value.q, value.body)
  }

  predicate GoodOne(unquote: Unquoter, w: Written) {
    && Blank(w.beforeName) && Blank(w.beforeOp) && Blank(w.beforeValue) && Blank(w.afterValue)
    && GoodName(unquote, w.name) && GoodValue(w.value)
  }

  /** A comma after each matcher but perhaps the last, and blanks at the end. */
  predicate GoodList(unquote: Unquoter, ws: seq<Written>, end: string)
    decreases |ws|
  {
    if ws == [] then Blank(end)
    else GoodOne(unquote, ws[0]) && (ws[0].comma || (|ws| == 1 && end == "")) && GoodList(unquote, ws[1..], end)
  }

  function MatcherOf(unquote: Unquoter, w: Written): LabelMatcher {
    LabelMatcher(Meaning(unquote, w.name), w.op, Meaning(unquote, w.value))
  }

  function MatchersOf(unquote: Unquoter, ws: seq<Written>): seq<LabelMatcher> {
    if ws == [] then [] else [MatcherOf(unquote, ws[0])] + MatchersOf(unquote, ws[1..])
  }

  function OpText(op: Op): string {
    match op
    case Eq => "="
    case Neq => "!="
    case Re => "=~"
    case Nre => "!~"
  }

  function CommaText(w: Written): string {
    if w.comma then "," else ""
  }

  /** A matcher from its value on, with what follows it. */
  function RenderValue(w: Written, rest: string): string {
    Spell(w.value) + (w.afterValue + (CommaText(w) + rest))
  }

  function RenderOp(w: Written, rest: string): string {
    OpText(w.op) + (w.beforeValue + RenderValue(w, rest))
  }

  function RenderOne(w: Written, rest: string): string {
    w.beforeName + (Spell(w.name) + (w.beforeOp + RenderOp(w, rest)))
  }

  function Render(ws: seq<Written>, end: string): string
    decreases |ws|
  {
    if ws == [] then end else RenderOne(ws[0], Render(ws[1..], end))
  }

  // ----- what is written is parsed

  lemma {:induction false} SkipBlanksOver(blanks: string, s: string)
    requires Blank(blanks) && (s != [] ==> !IsBlank(s[0]))
    ensures SkipBlanks(blanks + s) == s
  {
    if blanks == [] {
      assert blanks + s == s;
    } else {
      assert (blanks + s)[1..] == blanks[1..] + s;
      SkipBlanksOver(blanks[1..], s);
    }
  }

  lemma {:induction false} IdentThen(name: string, s: string)
    requires (forall i | 0 <= i < |name| :: IsIdentChar(name[i])) && (s != [] ==> !IsIdentChar(s[0]))
    ensures IdentLength(name + s) == |name|
  {
    if name == [] {
      assert name + s == s;
    } else {
      assert (name + s)[1..] == name[1..] + s;
      IdentThen(name[1..], s);
    }
  }

  /** Dropping from a text cut after n and continued otherwise. */
  lemma CutAndDrop<T>(t: seq<T>, n: nat, s: seq<T>, k: nat)
    requires k <= n < |t|
    ensures (t[..n + 1] + s)[k..] == t[k..][..n + 1 - k] + s
    ensures forall i | 0 <= i <= n :: (t[..n + 1] + s)[i] == t[i]
  {
  }

  /** The search for the closing quote looks no further than that quote. */
  lemma {:induction false} CloseIsLocal(t: string, q: char, n: nat, s: string)
    requires CloseAt(t, q) == Some(n)
    ensures n < |t| && t[n] == q && CloseAt(t[..n + 1] + s, q) == Some(n)
    decreases |t|
  {
    if t[0] == '\\' && q != '`' {
      CloseIsLocal(t[2..], q, n - 2, s);
      CutAndDrop(t, n, s, 2);
    } else if t[0] != q {
      CloseIsLocal(t[1..], q, n - 1, s);
      CutAndDrop(t, n, s, 1);
    } else {
      CutAndDrop(t, n, s, 0);
    }
  }

  lemma QuoteParts<T>(q: T, body: seq<T>, s: seq<T>)
    ensures var text := [q] + (body + [q]) + s;
            && text[0] == q && text[1..] == body + [q] + s
            && text[..|body| + 2] == [q] + (body + [q]) && text[1..|body| + 1] == body && text[|body| + 2..] == s
  {
  }

  /** Such a body is what the search for the closing quote passes over. */
  lemma {:induction false} BodyCloses(q: char, body: string)
    requires IsQuote(q)
    ensures Body(q, body) <==> CloseAt(body + [q], q) == Some(|body|)
    decreases |body|
  {
    var text := body + [q];
    if body != [] {
      assert text[1..] == body[1..] + [q];
      if body[0] == '\\' && q != '`' {
        if |body| >= 2 {
          assert text[2..] == body[2..] + [q];
          BodyCloses(q, body[2..]);
        } else {
          assert text[2..] == [];
        }
      } else {
        BodyCloses(q, body[1..]);
      }
    }
  }

  lemma ClosesBefore(q: char, body: string, s: string)
    requires Closed(q, body)
    ensures CloseAt(body + [q] + s, q) == Some(|body|)
  {
    hide CloseAt, Body;
    BodyCloses(q, body);
    CloseIsLocal(body + [q], q, |body|, s);
    assert (body + [q])[..|body| + 1] == body + [q];
  }

  lemma QuotedThen(unquote: Unquoter, spelling: Spelling, s: string)
    requires GoodValue(spelling)
    ensures TakeQuoted(unquote, Spell(spelling) + s) == Some((Meaning(unquote, spelling), s))
  {
    hide CloseAt;
    ClosesBefore(spelling.q, spelling.body, s);
    QuoteParts(spelling.q, spelling.body, s);
  }

  lemma NameThen(unquote: Unquoter, name: Spelling, s: string)
    requires GoodName(unquote, name) && s != [] && !IsIdentChar(s[0])
    ensures TakeName(unquote, Spell(name) + s) == Some((Meaning(unquote, name), s))
    ensures Spell(name) != [] && !IsBlank((Spell(name) + s)[0])
  {
    hide TakeQuoted, CloseAt, IdentLength;
    var text := Spell(name) + s;
    if name.Quoted? {
      assert text[0] == name.q;
      QuotedThen(unquote, name, s);
    } else {
      IdentThen(name.text, s);
      assert text[0] == name.text[0];
      assert text[..|name.text|] == name.text && text[|name.text|..] == s;
    }
  }

  lemma OpThen(op: Op, s: string)
    requires s != [] && s[0] != '~'
    ensures TakeOp(OpText(op) + s) == Some((op, s))
  {
    var text := OpText(op) + s;
    assert text[|OpText(op)|..] == s;
  }

  lemma ValueThen(unquote: Unquoter, w: Written, name: string, rest: string)
    requires Blank(w.afterValue) && GoodValue(w.value) && (w.comma || rest == "")
    ensures TakeValue(unquote, name, w.op, RenderValue(w, rest)) == Some((LabelMatcher(name, w.op, Meaning(unquote, w.value)), rest))
  {
    hide TakeQuoted, CloseAt, SkipBlanks, Meaning, Closed;
    var tail := CommaText(w) + rest;
    QuotedThen(unquote, w.value, w.afterValue + tail);
    SkipBlanksOver(w.afterValue, tail);
    if w.comma {
      assert tail[1..] == rest;
    }
  }

  /** A text that begins with blanks or with a non-blank byte of the second part. */
  lemma StartsWith(blanks: string, s: string)
    requires Blank(blanks) && s != []
    ensures (blanks + s)[0] == s[0] || IsBlank((blanks + s)[0])
  {
  }

  lemma OneThen(unquote: Unquoter, w: Written, rest: string)
    requires GoodOne(unquote, w) && (w.comma || rest == "")
    ensures var body := SkipBlanks(RenderOne(w, rest));
            body != [] && TakeMatcher(unquote, body) == Some((MatcherOf(unquote, w), rest))
  {
    hide TakeName, TakeOp, TakeQuoted, TakeComma, TakeValue, SkipBlanks, Closed, Meaning, GoodName;
    var value, op := RenderValue(w, rest), RenderOp(w, rest);
    var name := Spell(w.name) + (w.beforeOp + op);
    assert value[0] == w.value.q && op[0] in {'=', '!'};
    NotBlankQuote(w.value.q, w.value.body);
    StartsWith(w.beforeOp, op);
    StartsWith(w.beforeValue, value);
    NameThen(unquote, w.name, w.beforeOp + op);
    SkipBlanksOver(w.beforeName, name);
    SkipBlanksOver(w.beforeOp, op);
    OpThen(w.op, w.beforeValue + value);
    SkipBlanksOver(w.beforeValue, value);
    ValueThen(unquote, w, Meaning(unquote, w.name), rest);
  }

  lemma NotBlankQuote(q: char, body: string)
    requires Closed(q, body)
    ensures IsQuote(q)
  {
  }

  lemma ParseFirst(unquote: Unquoter, s: string, matcher: LabelMatcher, tail: string, rest: seq<LabelMatcher>)
    requires SkipBlanks(s) != [] && TakeMatcher(unquote, SkipBlanks(s)) == Some((matcher, tail))
    requires ParseMatchers(unquote, tail) == Some(rest)
    ensures ParseMatchers(unquote, s) == Some([matcher] + rest)
  {
  }

  /** Parsing undoes writing, for every list of matchers and every way to write it. */
  lemma {:induction false} RenderThenParse(unquote: Unquoter, ws: seq<Written>, end: string)
    requires GoodList(unquote, ws, end)
    ensures ParseMatchers(unquote, Render(ws, end)) == Some(MatchersOf(unquote, ws))
    decreases |ws|
  {
    hide TakeMatcher, GoodOne, MatcherOf;
    if ws == [] {
      SkipBlanksOver(end, []);
      assert end + [] == end;
    } else {
      var tail := Render(ws[1..], end);
      RenderThenParse(unquote, ws[1..], end);
      OneThen(unquote, ws[0], tail);
      ParseFirst(unquote, Render(ws, end), MatcherOf(unquote, ws[0]), tail, MatchersOf(unquote, ws[1..]));
    }
  }

  // ----- what is parsed was written

  lemma {:induction false} BlanksBefore(s: string) returns (blanks: string)
    ensures Blank(blanks) && s == blanks + SkipBlanks(s)
  {
    if s != [] && IsBlank(s[0]) {
      blanks := BlanksBefore(s[1..]);
      assert s == [s[0]] + s[1..];
      blanks := [s[0]] + blanks;
    } else {
      blanks := [];
    }
  }

  lemma {:induction false} IdentIs(s: string)
    ensures forall i | 0 <= i < IdentLength(s) :: IsIdentChar(s[i])
  {
    if s != [] && IsIdentChar(s[0]) {
      IdentIs(s[1..]);
      assert forall i | 1 <= i < |s| :: s[i] == s[1..][i - 1];
    }
  }

  lemma SpelledQuote(unquote: Unquoter, s: string) returns (spelling: Spelling)
    requires TakeQuoted(unquote, s).Some?
    ensures GoodValue(spelling) && s == Spell(spelling) + TakeQuoted(unquote, s).value.1
    ensures s[0] == spelling.q && Meaning(unquote, spelling) == TakeQuoted(unquote, s).value.0
  {
    hide CloseAt;
    var q, n := s[0], CloseAt(s[1..], s[0]).value;
    spelling := Quoted(q, s[1..n + 1]);
    CloseIsLocal(s[1..], q, n, []);
    assert s[1..][..n + 1] + [] == s[1..n + 1] + [q];
    BodyCloses(q, s[1..n + 1]);
    assert s[..n + 2] == Spell(spelling) && s == s[..n + 2] + s[n + 2..];
  }

  lemma SpelledName(unquote: Unquoter, s: string) returns (name: Spelling)
    requires TakeName(unquote, s).Some?
    ensures GoodName(unquote, name) && s == Spell(name) + TakeName(unquote, s).value.1
    ensures Meaning(unquote, name) == TakeName(unquote, s).value.0
  {
    hide TakeQuoted, CloseAt, IdentLength;
    if s[0] == '"' || s[0] == '`' {
      name := SpelledQuote(unquote, s);
    } else {
      IdentIs(s);
      name := Bare(s[..IdentLength(s)]);
      assert s == s[..IdentLength(s)] + s[IdentLength(s)..];
    }
  }

  lemma SpelledOp(s: string)
    requires TakeOp(s).Some?
    ensures s == OpText(TakeOp(s).value.0) + TakeOp(s).value.1
  {
    var n := |OpText(TakeOp(s).value.0)|;
    assert s == s[..n] + s[n..];
  }

  lemma WrittenValue(unquote: Unquoter, name: string, op: Op, s: string) returns (w: Written)
    requires TakeValue(unquote, name, op, s).Some?
    ensures Blank(w.afterValue) && GoodValue(w.value) && w.op == op
    ensures var (matcher, rest) := TakeValue(unquote, name, op, s).value;
            && s == RenderValue(w, rest) && (w.comma || rest == "")
            && matcher == LabelMatcher(name, op, Meaning(unquote, w.value))
  {
    hide TakeQuoted, SkipBlanks, Closed, Meaning, Spell;
    var value := SpelledQuote(unquote, s);
    var after := TakeQuoted(unquote, s).value.1;
    var blanks := BlanksBefore(after);
    var tail := SkipBlanks(after);
    w := Written("", value, "", op, "", value, blanks, tail != []);
    assert tail != [] ==> tail == "," + tail[1..];
  }

  lemma WrittenOne(unquote: Unquoter, s: string) returns (w: Written)
    requires TakeMatcher(unquote, SkipBlanks(s)).Some?
    ensures GoodOne(unquote, w)
    ensures var (matcher, rest) := TakeMatcher(unquote, SkipBlanks(s)).value;
            s == RenderOne(w, rest) && (w.comma || rest == "") && matcher == MatcherOf(unquote, w)
  {
    hide TakeName, TakeOp, TakeValue, SkipBlanks, GoodName, GoodValue, Meaning, Spell, OpText;
    var beforeName := BlanksBefore(s);
    var name := SpelledName(unquote, SkipBlanks(s));
    var afterName := TakeName(unquote, SkipBlanks(s)).value.1;
    var beforeOp := BlanksBefore(afterName);
    SpelledOp(SkipBlanks(afterName));
    var (op, afterOp) := TakeOp(SkipBlanks(afterName)).value;
    var beforeValue := BlanksBefore(afterOp);
    var v := WrittenValue(unquote, Meaning(unquote, name), op, SkipBlanks(afterOp));
    w := Written(beforeName, name, beforeOp, op, beforeValue, v.value, v.afterValue, v.comma);
  }

  lemma ParseHead(unquote: Unquoter, s: string)
    requires ParseMatchers(unquote, s).Some? && SkipBlanks(s) != []
    ensures TakeMatcher(unquote, SkipBlanks(s)).Some?
    ensures var (matcher, rest) := TakeMatcher(unquote, SkipBlanks(s)).value;
            |rest| < |s| && ParseMatchers(unquote, rest).Some?
            && ParseMatchers(unquote, s).value == [matcher] + ParseMatchers(unquote, rest).value
  {
  }

  /** Every accepted text was written so. */
  lemma {:induction false} ParsedWasWritten(unquote: Unquoter, s: string) returns (ws: seq<Written>, end: string)
    requires ParseMatchers(unquote, s).Some?
    ensures GoodList(unquote, ws, end) && Render(ws, end) == s && MatchersOf(unquote, ws) == ParseMatchers(unquote, s).value
    ensures s == "" ==> ws == [] && end == ""
    decreases |s|
  {
    hide TakeMatcher, GoodOne, MatcherOf, RenderOne;
    if SkipBlanks(s) == [] {
      end := BlanksBefore(s);
      assert end + [] == end;
      ws := [];
    } else {
      ParseHead(unquote, s);
      var rest := TakeMatcher(unquote, SkipBlanks(s)).value.1;
      var w := WrittenOne(unquote, s);
      var more;
      more, end := ParsedWasWritten(unquote, rest);
      ws := [w] + more;
      assert ws[1..] == more;
    }
  }

  /**
   Exactness: a text is accepted with a list of matchers if and only if it is a way to write that list. The way is
   spelled out, so this does not lean on the parser.
   */
  lemma AcceptedIffWritten(unquote: Unquoter, s: string, matchers: seq<LabelMatcher>)
    ensures ParseMatchers(unquote, s) == Some(matchers) <==>
            exists ws, end :: GoodList(unquote, ws, end) && Render(ws, end) == s && MatchersOf(unquote, ws) == matchers
  {
    hide ParseMatchers, GoodList, Render, MatchersOf;
    if ParseMatchers(unquote, s) == Some(matchers) {
      var ws, end := ParsedWasWritten(unquote, s);
    }
    if ws, end :| GoodList(unquote, ws, end) && Render(ws, end) == s && MatchersOf(unquote, ws) == matchers {
      RenderThenParse(unquote, ws, end);
    }
  }

  lemma ByteIs(c: char)
    ensures IsBlank(c) <==> c as int in {9, 10, 13, 32}
    ensures IsIdentChar(c) <==> 48 <= c as int <= 57 || 65 <= c as int <= 90 || 97 <= c as int <= 122 || c as int == 95
  {
    assert c == (c as int) as char;
    assert '\t' == 9 as char && '\n' == 10 as char && '\r' == 13 as char && ' ' == 32 as char && '_' == 95 as char;
  }

  /** The bytes, by number: blanks are tab, newline, return and space; names are of letters, digits and the underscore. */
  lemma BytesAre(s: string)
    ensures Blank(s) <==> forall i | 0 <= i < |s| :: s[i] as int in {9, 10, 13, 32}
    ensures Ident(s) <==> s != "" && forall i | 0 <= i < |s| ::
              48 <= s[i] as int <= 57 || 65 <= s[i] as int <= 90 || 97 <= s[i] as int <= 122 || s[i] as int == 95
  {
    hide IsBlank, IsIdentChar;
    forall i | 0 <= i < |s|
      ensures IsBlank(s[i]) <==> s[i] as int in {9, 10, 13, 32}
      ensures IsIdentChar(s[i]) <==> 48 <= s[i] as int <= 57 || 65 <= s[i] as int <= 90 || 97 <= s[i] as int <= 122 || s[i] as int == 95
    {
      ByteIs(s[i]);
    }
  }
}
