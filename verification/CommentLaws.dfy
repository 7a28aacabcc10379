/**
 Comment stripping, told without the stripper: a query is plain stretches with comments between them, and what is
 left is the plain stretches with a blank or a newline between them.
 */
module CommentLaws {
  import opened Sequences
  import opened Wrappers
  import opened LogQLLexer
  import opened MatcherRoundTrip

  /** What stands between the opener of a comment and its end. */
  datatype Comment =
    | Hash(line: string)
    | Slashes(line: string)
    | Block(body: string)

  /** A stretch outside comments, which may hold whole literals, and the comment that ends it. */
  datatype Piece = Piece(plain: string, comment: Comment)

  /** The last stretch, and the comment that the query ends in the middle of, if there is one. */
  datatype Ending = Ending(plain: string, open: Option<Comment>)

  function Opened(comment: Comment): string {
    match comment
    case Hash(line) => "#" + line
    case Slashes(line) => "//" + line
    case Block(body) => "/*" + body
  }

  function Close(comment: Comment): string {
    if comment.Block? then "*/" else "\n"
  }

  function Trace(comment: Comment): string {
    if comment.Block? then " " else "\n"
  }

  /** No newline in a line comment, and no closing marker in a block comment. */
  predicate Inside(comment: Comment) {
    match comment
    case Hash(line) => '\n' !in line
    case Slashes(line) => '\n' !in line
    case Block(body) => forall i | 0 <= i < |body| - 1 :: !(body[i] == '*' && body[i + 1] == '/')
  }

  /** The opener would not be read one byte earlier. */
  predicate Apart(plain: string, next: string) {
    plain == [] || next == [] || plain[|plain| - 1] != '/' || next[0] !in {'/', '*'}
  }

  /** A stretch without a comment that ends outside literals, and then a comment. */
  predicate Then(plain: string, comment: Comment) {
    Clean(Code, plain) && LexAfter(Code, plain) == Code && Inside(comment) && Apart(plain, Opened(comment))
  }

  predicate Good(pieces: seq<Piece>, end: Ending) {
    && (forall i | 0 <= i < |pieces| :: Then(pieces[i].plain, pieces[i].comment))
    && if end.open.Some? then Then(end.plain, end.open.value) else Clean(Code, end.plain)
  }

  function WriteEnd(end: Ending): string {
    end.plain + if end.open.Some? then Opened(end.open.value) else ""
  }

  /** The query with all its comments. */
  function Write(pieces: seq<Piece>, end: Ending): string {
    if pieces == [] then WriteEnd(end)
    else pieces[0].plain + (Opened(pieces[0].comment) + (Close(pieces[0].comment) + Write(pieces[1..], end)))
  }

  /** A line comment leaves its newline, which it has not reached at the end of the query; a block comment leaves a blank. */
  function Blanked(pieces: seq<Piece>, end: Ending): string {
    if pieces == [] then end.plain + if end.open.Some? && end.open.value.Block? then " " else ""
    else pieces[0].plain + (Trace(pieces[0].comment) + Blanked(pieces[1..], end))
  }

  // ----- what stretches are made of

  lemma {:induction false} ToTheQuote(q: char, body: string)
    requires Body(q, body) && IsQuote(q)
    ensures Clean(Str(q), body + [q]) && LexAfter(Str(q), body + [q]) == Code
    decreases |body|
  {
    var s := body + [q];
    if body == [] {
      assert s == [q] && s[1..] == [];
    } else if body[0] == '\\' && q != '`' {
      assert s[1..][0] == body[1] && s[1..][1..] == body[2..] + [q];
      ToTheQuote(q, body[2..]);
    } else {
      assert s[1..] == body[1..] + [q];
      ToTheQuote(q, body[1..]);
    }
  }

  /** A literal in any of the three quotes is part of a stretch, whatever is in it; comment openers too. */
  lemma LiteralIsPlain(q: char, body: string)
    requires Closed(q, body)
    ensures Clean(Code, [q] + (body + [q])) && LexAfter(Code, [q] + (body + [q])) == Code
  {
    var s := [q] + (body + [q]);
    assert s[1..] == body + [q];
    ToTheQuote(q, body);
  }

  /** So is text without quotes or openers. */
  lemma {:induction false} TextIsPlain(text: string)
    requires forall i | 0 <= i < |text| :: text[i] !in {'"', '\'', '`', '#'}
    requires forall i | 0 < i < |text| :: text[i - 1] == '/' ==> text[i] !in {'/', '*'}
    ensures Clean(Code, text) && LexAfter(Code, text) == Code
  {
    if text != [] {
      assert forall i | 0 <= i < |text[1..]| :: text[1..][i] == text[i + 1];
      TextIsPlain(text[1..]);
    }
  }

  /** And one after the other, unless the two bytes where they meet open a comment. */
  lemma {:induction false} PlainJoined(lex: Lex, a: string, b: string)
    requires Clean(lex, a) && Clean(LexAfter(lex, a), b) && Apart(a, b)
    ensures Clean(lex, a + b) && LexAfter(lex, a + b) == LexAfter(LexAfter(lex, a), b)
    decreases |a|
  {
    hide LineComment, BlockComment, Apart, Step;
    if a == [] {
      assert a + b == b;
    } else {
      FirstByte(a, b);
      PlainJoined(Step(lex, a[0]), a[1..], b);
    }
  }

  // ----- one comment

  lemma FirstByte(plain: string, next: string)
    requires plain != [] && Apart(plain, next)
    ensures (plain + next)[0] == plain[0] && (plain + next)[1..] == plain[1..] + next && Apart(plain[1..], next)
    ensures !LineComment(plain) && !BlockComment(plain) ==> !LineComment(plain + next) && !BlockComment(plain + next)
  {
    assert |plain| > 1 ==> plain[1..][|plain[1..]| - 1] == plain[|plain| - 1] && (plain + next)[1] == plain[1];
    assert |plain| == 1 && next != [] ==> (plain + next)[1] == next[0];
  }

  lemma {:induction false} PlainIsCopied(lex: Lex, plain: string, next: string)
    requires Clean(lex, plain) && Apart(plain, next)
    ensures Strip(lex, plain + next) == plain + Strip(LexAfter(lex, plain), next)
    decreases |plain|
  {
    hide DropLine, DropBlock, LineComment, BlockComment, Apart, Step;
    if plain == [] {
      assert plain + next == next;
    } else {
      FirstByte(plain, next);
      PlainIsCopied(Step(lex, plain[0]), plain[1..], next);
      Regroup([plain[0]], plain[1..], Strip(LexAfter(lex, plain), next));
      assert [plain[0]] + plain[1..] == plain;
    }
  }

  lemma {:induction false} LineEnds(line: string, rest: string)
    requires '\n' !in line && (rest != [] ==> rest[0] == '\n')
    ensures DropLine(line + rest) == rest
  {
    if line == [] {
      assert line + rest == rest;
    } else {
      assert (line + rest)[1..] == line[1..] + rest;
      LineEnds(line[1..], rest);
    }
  }

  lemma {:induction false} BlockEnds(body: string, rest: string)
    requires Inside(Block(body))
    ensures DropBlock(body + ("*/" + rest)) == rest
    ensures DropBlock(body) == []
  {
    var s := body + ("*/" + rest);
    if body == [] {
      assert s == "*/" + rest;
      assert s[2..] == rest;
    } else {
      assert s[1..] == body[1..] + ("*/" + rest);
      assert |body| > 1 ==> s[1] == body[1] && !(body[0] == '*' && body[1] == '/');
      assert forall i | 0 <= i < |body[1..]| :: body[1..][i] == body[i + 1];
      BlockEnds(body[1..], rest);
    }
  }

  lemma LineIsReplaced(s: string, line: string, rest: string)
    requires LineComment(s) && '\n' !in line && s[1..] == line + ("\n" + rest)
    ensures Strip(Code, s) == "\n" + Strip(Code, rest)
  {
    hide DropLine, DropBlock;
    LineEnds(line, "\n" + rest);
    assert ("\n" + rest)[1..] == rest;
  }

  lemma BlockIsReplaced(s: string, body: string, rest: string)
    requires BlockComment(s) && Inside(Block(body)) && s[2..] == body + ("*/" + rest)
    ensures Strip(Code, s) == " " + Strip(Code, rest)
  {
    hide DropLine, DropBlock;
    BlockEnds(body, rest);
  }

  /** A comment goes as far as it is written, and no further. */
  lemma CommentIsReplaced(comment: Comment, rest: string)
    requires Inside(comment)
    ensures Strip(Code, Opened(comment) + (Close(comment) + rest)) == Trace(comment) + Strip(Code, rest)
  {
    hide Strip, Inside;
    match comment
    case Hash(line) => HashIsReplaced(line, rest);
    case Slashes(line) => SlashesAreReplaced(line, rest);
    case Block(body) =>
      Behind("/*", body, "*/" + rest);
      BlockIsReplaced("/*" + body + ("*/" + rest), body, rest);
  }

  lemma HashIsReplaced(line: string, rest: string)
    requires Inside(Hash(line))
    ensures Strip(Code, "#" + line + ("\n" + rest)) == "\n" + Strip(Code, rest)
  {
    hide Strip;
    Behind("#", line, "\n" + rest);
    LineIsReplaced("#" + line + ("\n" + rest), line, rest);
  }

  lemma SlashesAreReplaced(line: string, rest: string)
    requires Inside(Slashes(line))
    ensures Strip(Code, "//" + line + ("\n" + rest)) == "\n" + Strip(Code, rest)
  {
    hide Strip;
    assert "//" + line == "/" + ("/" + line);
    Behind("/", "/" + line, "\n" + rest);
    LineIsReplaced("//" + line + ("\n" + rest), "/" + line, rest);
  }

  lemma OpenCommentIsDropped(comment: Comment)
    requires Inside(comment)
    ensures Strip(Code, Opened(comment)) == if comment.Block? then " " else ""
  {
    hide DropLine, DropBlock;
    var s := Opened(comment);
    match comment
    case Hash(line) =>
      assert s[1..] == line + "";
      LineEnds(line, "");
    case Slashes(line) =>
      assert s[1..] == ("/" + line) + "";
      LineEnds("/" + line, "");
    case Block(body) =>
      assert s[2..] == body;
      BlockEnds(body, "");
  }

  // ----- a whole query

  /** Stripping replaces every comment by its trace and keeps everything else. */
  lemma {:induction false} StrippingBlanksComments(pieces: seq<Piece>, end: Ending)
    requires Good(pieces, end)
    ensures StripComments(Write(pieces, end)) == Blanked(pieces, end)
  {
    hide Strip, Clean, LexAfter, Inside;
    if pieces == [] {
      if end.open.Some? {
        PlainIsCopied(Code, end.plain, Opened(end.open.value));
        OpenCommentIsDropped(end.open.value);
      } else {
        assert end.plain + "" == end.plain;
        CleanIsUntouched(Code, end.plain);
      }
    } else {
      var comment, rest := pieces[0].comment, Write(pieces[1..], end);
      assert Then(pieces[0].plain, comment);
      StrippingBlanksComments(pieces[1..], end);
      PlainIsCopied(Code, pieces[0].plain, Opened(comment) + (Close(comment) + rest));
      CommentIsReplaced(comment, rest);
    }
  }

  predicate InQuotes(lex: Lex) {
    lex.Code? || IsQuote(lex.quote)
  }

  /** Where the first comment opens, or the end. */
  lemma {:induction false} FirstComment(lex: Lex, s: string) returns (n: nat)
    requires InQuotes(lex)
    ensures n <= |s| && Clean(lex, s[..n])
    ensures n < |s| ==> LexAfter(lex, s[..n]) == Code && CommentAt(s, n) && Apart(s[..n], s[n..])
    decreases |s|
  {
    if s == [] || (lex.Code? && CommentAt(s, 0)) {
      n := 0;
      assert s[0..] == s;
    } else {
      assert s[0..] == s;
      n := FirstComment(Step(lex, s[0]), s[1..]);
      assert s[..n + 1][1..] == s[1..][..n] && s[1..][n..] == s[n + 1..];
      if n + 1 < |s| {
        LaterComment(lex, s, n);
      }
      n := n + 1;
    }
  }

  lemma LaterComment(lex: Lex, s: string, n: nat)
    requires n + 1 < |s| && CommentAt(s[1..], n) && (lex.Code? ==> !CommentAt(s, 0))
    requires InQuotes(lex) && Apart(s[1..][..n], s[1..][n..]) && (n == 0 ==> Step(lex, s[0]) == Code)
    ensures CommentAt(s, n + 1) && Apart(s[..n + 1], s[n + 1..])
  {
    assert s[n + 1..] == s[1..][n..] && s[n + 1..][0] == s[n + 1];
    assert n > 0 ==> s[1..][..n][n - 1] == s[n] == s[..n + 1][n];
  }

  lemma {:induction false} SplitLine(s: string) returns (line: string, rest: Option<string>)
    ensures '\n' !in line && s == line + if rest.Some? then "\n" + rest.value else ""
  {
    if s == [] {
      line, rest := [], None;
    } else if s[0] == '\n' {
      line, rest := [], Some(s[1..]);
    } else {
      line, rest := SplitLine(s[1..]);
      line := [s[0]] + line;
    }
  }

  lemma {:induction false} SplitBlock(s: string) returns (body: string, rest: Option<string>)
    ensures Inside(Block(body)) && s == body + if rest.Some? then "*/" + rest.value else ""
  {
    if |s| < 2 {
      body, rest := s, None;
    } else if s[0] == '*' && s[1] == '/' {
      body, rest := [], Some(s[2..]);
    } else {
      var tail;
      tail, rest := SplitBlock(s[1..]);
      body := [s[0]] + tail;
      assert s[1..] == tail + if rest.Some? then "*/" + rest.value else "";
      assert |tail| > 0 ==> tail[0] == s[1];
      assert forall i | 1 <= i < |body| :: body[i] == tail[i - 1];
    }
  }

  lemma SplitComment(s: string) returns (comment: Comment, rest: Option<string>)
    requires s != [] && CommentAt(s, 0)
    ensures Inside(comment) && s == Opened(comment) + if rest.Some? then Close(comment) + rest.value else ""
  {
    if s[0] == '#' {
      var line;
      line, rest := SplitLine(s[1..]);
      comment := Hash(line);
    } else if s[1] == '/' {
      var line;
      line, rest := SplitLine(s[2..]);
      comment := Slashes(line);
      assert s == "//" + s[2..];
    } else {
      var body;
      body, rest := SplitBlock(s[2..]);
      comment := Block(body);
      assert s == "/*" + s[2..];
    }
  }

  /** Every query is written so. */
  lemma {:induction false} EveryQueryIsWritten(query: string) returns (pieces: seq<Piece>, end: Ending)
    ensures Good(pieces, end) && Write(pieces, end) == query
    decreases |query|
  {
    hide Clean, LexAfter, Inside;
    var n := FirstComment(Code, query);
    var plain, rest := query[..n], query[n..];
    assert query == plain + rest;
    if n == |query| {
      assert plain == query;
      pieces, end := [], Ending(query, None);
    } else {
      assert rest[0] == query[n] && (n + 1 < |query| ==> rest[1] == query[n + 1]);
      var comment, after := SplitComment(rest);
      assert rest[0] == Opened(comment)[0];
      assert Then(plain, comment);
      if after.None? {
        pieces, end := [], Ending(plain, Some(comment));
      } else {
        var more;
        more, end := EveryQueryIsWritten(after.value);
        pieces := [Piece(plain, comment)] + more;
        assert pieces[1..] == more;
      }
    }
  }
}
