/**
 The quote-aware scan of a LogQL query, byte by byte, and the comment stripper that runs
 before everything else. A query is a string whose characters stand for its bytes.
 */
module LogQLLexer {
  import opened Wrappers

  /** Where a left-to-right scan stands: outside literals, inside one, or just after its escape. */
  datatype Lex = Code | Str(quote: char) | Esc(quote: char)

  predicate IsQuote(c: char) {
    c == '"' || c == '`' || c == '\''
  }

  function Step(lex: Lex, c: char): Lex {
    match lex
    case Code => if IsQuote(c) then Str(c) else Code
    case Str(q) => if c == '\\' && q != '`' then Esc(q) else if c == q then Code else lex
    case Esc(q) => Str(q)
  }

  /** The scan after all of s. */
  function LexAfter(lex: Lex, s: string): Lex
    decreases |s|
  {
    if s == [] then lex else LexAfter(Step(lex, s[0]), s[1..])
  }

  lemma {:induction false} LexAfterConcat(lex: Lex, a: string, b: string)
    ensures LexAfter(lex, a + b) == LexAfter(LexAfter(lex, a), b)
    decreases |a|
  {
    if a == [] {
      assert a + b == b;
    } else {
      assert (a + b)[1..] == a[1..] + b;
      LexAfterConcat(Step(lex, a[0]), a[1..], b);
    }
  }

  // ----- comments

  predicate LineComment(s: string) {
    s != [] && (s[0] == '#' || (s[0] == '/' && |s| > 1 && s[1] == '/'))
  }

  predicate BlockComment(s: string) {
    |s| > 1 && s[0] == '/' && s[1] == '*'
  }

  /** From the first newline on. */
  function DropLine(s: string): (rest: string)
    ensures |rest| <= |s| && (rest != [] ==> rest[0] == '\n')
  {
    if s == [] || s[0] == '\n' then s else DropLine(s[1..])
  }

  /** What follows the first closing marker; nothing if there is none. */
  function DropBlock(s: string): (rest: string)
    ensures |rest| <= |s|
  {
    if |s| < 2 then []
    else if s[0] == '*' && s[1] == '/' then s[2..]
    else DropBlock(s[1..])
  }

  function Strip(lex: Lex, s: string): string
    decreases |s|
  {
    if s == [] then []
    else if lex.Code? && LineComment(s) then
      assert s[0] != '\n';
      var rest := DropLine(s[1..]);
      if rest == [] then [] else ['\n'] + Strip(Code, rest[1..])
    else if lex.Code? && BlockComment(s) then
      [' '] + Strip(Code, DropBlock(s[2..]))
    else
      [s[0]] + Strip(Step(lex, s[0]), s[1..])
  }

  function StripComments(query: string): string {
    Strip(Code, query)
  }

  /** strings.Index for the closing marker, as an offset into s. */
  method IndexBlockEnd(s: string) returns (found: bool, end: nat)
    ensures found ==> end + 2 <= |s| && DropBlock(s) == s[end + 2..]
    ensures !found ==> DropBlock(s) == []
  {
    end := 0;
    while end + 1 < |s|
      invariant end <= |s|
      invariant DropBlock(s) == DropBlock(s[end..])
    {
      if s[end] == '*' && s[end + 1] == '/' {
        assert s[end..][2..] == s[end + 2..];
        return true, end;
      }
      assert s[end..][1..] == s[end + 1..];
      end := end + 1;
    }
    return false, end;
  }

  method IndexLineEnd(s: string, start: nat) returns (end: nat)
    requires start <= |s|
    ensures start <= end <= |s| && s[end..] == DropLine(s[start..])
  {
    end := start;
    while end < |s| && s[end] != '\n'
      invariant start <= end <= |s|
      invariant DropLine(s[start..]) == DropLine(s[end..])
    {
      assert s[end..][1..] == s[end + 1..];
      end := end + 1;
    }
  }

  /** One byte that opens no comment is copied. */
  lemma StripCopies(lex: Lex, s: string, i: nat)
    requires i < |s| && (lex.Code? ==> !LineComment(s[i..]) && !BlockComment(s[i..]))
    ensures Strip(lex, s[i..]) == [s[i]] + Strip(Step(lex, s[i]), s[i + 1..])
  {
    assert s[i..][1..] == s[i + 1..];
  }

  /** The part of stripLogQLComments that runs inside a literal: an escape copies two bytes. */
  method CopyLiteralByte(s: string, i: nat, quote: char) returns (copied: string, inStr: Option<char>)
    requires i < |s|
    ensures 1 <= |copied| && i + |copied| <= |s|
    ensures Strip(Str(quote), s[i..]) == copied + Strip(LexOf(inStr), s[i + |copied|..])
  {
    var c := s[i];
    StripCopies(Str(quote), s, i);
    inStr := Some(quote);
    if c == '\\' && quote != '`' && i + 1 < |s| {
      StripCopies(Esc(quote), s, i + 1);
      return [c, s[i + 1]], inStr;
    }
    if c == quote {
      inStr := None;
    }
    copied := [c];
    if c == '\\' && quote != '`' {
      assert s[i + 1..] == [];
    }
  }

  /** The part of stripLogQLComments that runs on a comment: it advances past it and emits whitespace. */
  method SkipComment(s: string, i: nat) returns (next: nat, emitted: string)
    requires i < |s| && (LineComment(s[i..]) || BlockComment(s[i..]))
    ensures i < next <= |s| && Strip(Code, s[i..]) == emitted + Strip(Code, s[next..])
  {
    if s[i] == '#' || (i + 1 < |s| && s[i + 1] == '/') {
      var end := IndexLineEnd(s, i + 1);
      assert s[i..][1..] == s[i + 1..];
      if end < |s| {
        assert s[end..][1..] == s[end + 1..];
        next, emitted := end + 1, ['\n'];
      } else {
        next, emitted := end, [];
      }
    } else {
      assert s[i..][2..] == s[i + 2..];
      var found, end := IndexBlockEnd(s[i + 2..]);
      if found {
        assert s[i + 2..][end + 2..] == s[i + 2 + end + 2..];
        next := i + 2 + end + 2;
      } else {
        next := |s|;
      }
      emitted := [' '];
    }
  }

  predicate CommentAt(s: string, i: nat)
    requires i < |s|
    ensures CommentAt(s, i) <==> LineComment(s[i..]) || BlockComment(s[i..])
  {
    s[i] == '#' || (s[i] == '/' && i + 1 < |s| && s[i + 1] in {'/', '*'})
  }

  function LexOf(inStr: Option<char>): Lex {
    if inStr.Some? then Str(inStr.value) else Code
  }

  /** One turn of the loop: what it appends and where it goes on. */
  method StripTurn(s: string, i: nat, inStr: Option<char>) returns (emitted: string, next: nat, after: Option<char>)
    requires i < |s|
    ensures i < next <= |s|
    ensures Strip(LexOf(inStr), s[i..]) == emitted + Strip(LexOf(after), s[next..])
  {
    if inStr.Some? {
      emitted, after := CopyLiteralByte(s, i, inStr.value);
      next := i + |emitted|;
    } else if CommentAt(s, i) {
      next, emitted := SkipComment(s, i);
      after := None;
    } else {
      StripCopies(Code, s, i);
      after := if IsQuote(s[i]) then Some(s[i]) else None;
      next, emitted := i + 1, [s[i]];
    }
  }

  /** stripLogQLComments. */
  method StripLogQLComments(logql: string) returns (b: string)
    ensures b == StripComments(logql)
  {
    if '#' !in logql && '/' !in logql {
      NothingToStrip(Code, logql);
      return logql;
    }
    b := [];
    var inStr: Option<char> := None;
    var i := 0;
    while i < |logql|
      invariant i <= |logql|
      invariant StripComments(logql) == b + Strip(LexOf(inStr), logql[i..])
      decreases |logql| - i
    {
      var emitted, next, after := StripTurn(logql, i, inStr);
      assert b + (emitted + Strip(LexOf(after), logql[next..])) == (b + emitted) + Strip(LexOf(after), logql[next..]);
      b, i, inStr := b + emitted, next, after;
    }
  }

  lemma {:induction false} NothingToStrip(lex: Lex, s: string)
    requires '#' !in s && '/' !in s
    ensures Strip(lex, s) == s
    decreases |s|
  {
    if s != [] {
      NothingToStrip(Step(lex, s[0]), s[1..]);
    }
  }

  // ----- what stripping achieves

  /** No comment opens outside a literal. */
  predicate Clean(lex: Lex, s: string)
    decreases |s|
  {
    s == [] ||
    (&& (lex.Code? ==> !LineComment(s) && !BlockComment(s))
     && Clean(Step(lex, s[0]), s[1..]))
  }

  lemma {:induction false} StrippedIsClean(lex: Lex, s: string)
    ensures Clean(lex, Strip(lex, s))
    decreases |s|
  {
    if s == [] {
    } else if lex.Code? && LineComment(s) {
      var rest := DropLine(s[1..]);
      if rest != [] {
        StrippedIsClean(Code, rest[1..]);
        assert Strip(lex, s)[1..] == Strip(Code, rest[1..]);
      }
    } else if lex.Code? && BlockComment(s) {
      StrippedIsClean(Code, DropBlock(s[2..]));
      assert Strip(lex, s)[1..] == Strip(Code, DropBlock(s[2..]));
    } else {
      StrippedIsClean(Step(lex, s[0]), s[1..]);
      assert Strip(lex, s)[1..] == Strip(Step(lex, s[0]), s[1..]);
      if lex.Code? && s[0] == '/' {
        StrippedHead(s[1..]);
      }
    }
  }

  /** A comment leaves whitespace behind, so it cannot complete an opener with the byte before it. */
  lemma StrippedHead(s: string)
    requires s != [] ==> s[0] !in {'/', '*'}
    ensures Strip(Code, s) != [] ==> Strip(Code, s)[0] !in {'/', '*'}
  {
  }

  lemma {:induction false} CleanIsUntouched(lex: Lex, s: string)
    requires Clean(lex, s)
    ensures Strip(lex, s) == s
    decreases |s|
  {
    if s != [] {
      CleanIsUntouched(Step(lex, s[0]), s[1..]);
    }
  }

  lemma StrippingIsIdempotent(query: string)
    ensures StripComments(StripComments(query)) == StripComments(query)
  {
    StrippedIsClean(Code, query);
    CleanIsUntouched(Code, StripComments(query));
  }

  lemma {:induction false} CleanAt(lex: Lex, s: string, n: nat)
    requires Clean(lex, s) && n <= |s|
    ensures Clean(LexAfter(lex, s[..n]), s[n..])
    decreases |s|
  {
    hide LineComment, BlockComment, Step;
    if n > 0 {
      CleanAt(Step(lex, s[0]), s[1..], n - 1);
      assert s[..n][1..] == s[1..][..n - 1] && s[1..][n - 1..] == s[n..];
    } else {
      assert s[n..] == s;
    }
  }

  /** The same by position: whenever a scan of the output stands outside literals, no marker is there. */
  lemma NoMarkerOutsideLiterals(query: string, n: nat)
    requires n < |StripComments(query)|
    requires LexAfter(Code, StripComments(query)[..n]) == Code
    ensures var out := StripComments(query);
            out[n] != '#' && (out[n] == '/' && n + 1 < |out| ==> out[n + 1] != '/' && out[n + 1] != '*')
  {
    StrippedIsClean(Code, query);
    CleanAt(Code, StripComments(query), n);
    var rest := StripComments(query)[n..];
    assert rest[0] == StripComments(query)[n];
  }

  /** A byte that stripping keeps: one of a literal, quotes included, or a visible one outside literals. */
  datatype Kept = InLiteral(c: char) | InCode(c: char)

  /** What becomes of one byte that is not part of a comment. */
  function KeptByte(lex: Lex, c: char): seq<Kept> {
    if !lex.Code? || !Step(lex, c).Code? then [InLiteral(c)]
    else if c !in {' ', '\n'} then [InCode(c)]
    else []
  }

  /** The literals and the visible code of a query, in order, comments recognised and skipped. */
  function KeptBytes(lex: Lex, s: string): seq<Kept>
    decreases |s|
  {
    if s == [] then []
    else if lex.Code? && LineComment(s) then
      assert s[0] != '\n';
      var rest := DropLine(s[1..]);
      if rest == [] then [] else KeptBytes(Code, rest[1..])
    else if lex.Code? && BlockComment(s) then KeptBytes(Code, DropBlock(s[2..]))
    else KeptByte(lex, s[0]) + KeptBytes(Step(lex, s[0]), s[1..])
  }

  /** The same of a text in which nothing is a comment. */
  function PlainBytes(lex: Lex, s: string): seq<Kept>
    decreases |s|
  {
    if s == [] then [] else KeptByte(lex, s[0]) + PlainBytes(Step(lex, s[0]), s[1..])
  }

  /**
   Every byte of every literal and every visible byte outside literals and comments survives, all in their order,
   and nothing else is there: a scan that knows no comments sees in the output what a
   comment-aware scan sees in the input.
   */
  lemma {:induction false} StrippingKeepsTheRest(lex: Lex, s: string)
    ensures PlainBytes(lex, Strip(lex, s)) == KeptBytes(lex, s)
    decreases |s|
  {
    hide KeptByte;
    if s == [] {
    } else if lex.Code? && LineComment(s) {
      var rest := DropLine(s[1..]);
      if rest != [] {
        StrippingKeepsTheRest(Code, rest[1..]);
        assert Strip(lex, s)[1..] == Strip(Code, rest[1..]);
        BlankIsDropped('\n');
      }
    } else if lex.Code? && BlockComment(s) {
      StrippingKeepsTheRest(Code, DropBlock(s[2..]));
      assert Strip(lex, s)[1..] == Strip(Code, DropBlock(s[2..]));
      BlankIsDropped(' ');
    } else {
      StrippingKeepsTheRest(Step(lex, s[0]), s[1..]);
      assert Strip(lex, s)[1..] == Strip(Step(lex, s[0]), s[1..]);
    }
  }

  lemma BlankIsDropped(c: char)
    requires c in {' ', '\n'}
    ensures KeptByte(Code, c) == [] && Step(Code, c) == Code
  {
  }
}
