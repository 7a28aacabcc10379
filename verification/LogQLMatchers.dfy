/**
 The label matchers of one selector body: name, operator and quoted value, separated by
 commas, with blanks anywhere between.
 */
module LogQLMatchers {
  import opened Wrappers

  datatype Op = Eq | Neq | Re | Nre

  datatype LabelMatcher = LabelMatcher(name: string, op: Op, value: string)

  /** strconv.Unquote, a library function: None is its error result. */
  type Unquoter = string -> Option<string>

  predicate IsBlank(c: char) {
    c == ' ' || c == '\t' || c == '\n' || c == '\r'
  }

  predicate IsIdentChar(c: char) {
    c == '_' || 'a' <= c <= 'z' || 'A' <= c <= 'Z' || '0' <= c <= '9'
  }

  function SkipBlanks(s: string): (rest: string)
    ensures |rest| <= |s| && (rest != [] ==> !IsBlank(rest[0]))
  {
    if s != [] && IsBlank(s[0]) then SkipBlanks(s[1..]) else s
  }

  /** The length of the identifier s starts with. */
  function IdentLength(s: string): (n: nat)
    ensures n <= |s|
  {
    if s != [] && IsIdentChar(s[0]) then 1 + IdentLength(s[1..]) else 0
  }

  /** Where the closing quote is in what follows the opening one. */
  function CloseAt(s: string, q: char): (r: Option<nat>)
    ensures r.Some? ==> r.value < |s|
    decreases |s|
  {
    if s == [] then None
    else if s[0] == '\\' && q != '`' then
      if |s| < 2 then None
      else (match CloseAt(s[2..], q) case Some(n) => Some(n + 2) case None => None)
    else if s[0] == q then Some(0)
    else (match CloseAt(s[1..], q) case Some(n) => Some(n + 1) case None => None)
  }

  /** A quoted value at the head of s, and what follows it. */
  function TakeQuoted(unquote: Unquoter, s: string): (r: Option<(string, string)>)
    ensures r.Some? ==> |r.value.1| + 2 <= |s|
  {
    if s == [] || s[0] !in {'"', '`', '\''} then None
    else match CloseAt(s[1..], s[0])
      case None => None
      case Some(n) =>
        var unquoted := if s[0] == '"' then unquote(s[..n + 2]) else None;
        Some((if unquoted.Some? then unquoted.value else s[1..n + 1], s[n + 2..]))
  }

  function TakeName(unquote: Unquoter, s: string): (r: Option<(string, string)>)
    ensures r.Some? ==> |r.value.1| < |s|
  {
    if s == [] then None
    else if s[0] == '"' || s[0] == '`' then
      (match TakeQuoted(unquote, s)
       case Some((name, rest)) => if name == "" then None else Some((name, rest))
       case None => None)
    else if IdentLength(s) == 0 then None
    else Some((s[..IdentLength(s)], s[IdentLength(s)..]))
  }

  function TakeOp(s: string): (r: Option<(Op, string)>)
    ensures r.Some? ==> |r.value.1| < |s|
  {
    if |s| >= 2 && s[0] == '=' && s[1] == '~' then Some((Re, s[2..]))
    else if |s| >= 2 && s[0] == '!' && s[1] == '=' then Some((Neq, s[2..]))
    else if |s| >= 2 && s[0] == '!' && s[1] == '~' then Some((Nre, s[2..]))
    else if |s| >= 1 && s[0] == '=' then Some((Eq, s[1..]))
    else None
  }

  /** The end of a matcher: nothing more, or a comma. */
  function TakeComma(matcher: LabelMatcher, s: string): (r: Option<(LabelMatcher, string)>)
    ensures r.Some? ==> |r.value.1| <= |s|
  {
    if s == [] then Some((matcher, []))
    else if s[0] != ',' then None
    else Some((matcher, s[1..]))
  }

  function TakeValue(unquote: Unquoter, name: string, op: Op, s: string): (r: Option<(LabelMatcher, string)>)
    ensures r.Some? ==> |r.value.1| <= |s|
  {
    match TakeQuoted(unquote, s)
    case None => None
    case Some((value, rest)) => TakeComma(LabelMatcher(name, op, value), SkipBlanks(rest))
  }

  function TakeOpAndValue(unquote: Unquoter, name: string, s: string): (r: Option<(LabelMatcher, string)>)
    ensures r.Some? ==> |r.value.1| <= |s|
  {
    match TakeOp(s)
    case None => None
    case Some((op, rest)) => TakeValue(unquote, name, op, SkipBlanks(rest))
  }

  /** One matcher at the head of s, up to and including the comma after it. */
  function TakeMatcher(unquote: Unquoter, s: string): (r: Option<(LabelMatcher, string)>)
    ensures r.Some? ==> |r.value.1| < |s|
  {
    match TakeName(unquote, s)
    case None => None
    case Some((name, rest)) => TakeOpAndValue(unquote, name, SkipBlanks(rest))
  }

  function ParseMatchers(unquote: Unquoter, s: string): Option<seq<LabelMatcher>>
    decreases |s|
  {
    var s := SkipBlanks(s);
    if s == [] then Some([])
    else match TakeMatcher(unquote, s)
      case None => None
      case Some((matcher, rest)) =>
        match ParseMatchers(unquote, rest)
        case None => None
        case Some(matchers) => Some([matcher] + matchers)
  }

  // ----- the parser as it runs, on indices

  method SkipSpace(s: string, start: nat) returns (i: nat)
    requires start <= |s|
    ensures start <= i <= |s| && s[i..] == SkipBlanks(s[start..])
  {
    i := start;
    while i < |s| && IsBlank(s[i])
      invariant start <= i <= |s|
      invariant SkipBlanks(s[i..]) == SkipBlanks(s[start..])
    {
      assert s[i..][1..] == s[i + 1..];
      i := i + 1;
    }
  }

  /** The search result seen from n bytes earlier. */
  function Later(found: Option<nat>, n: nat): Option<nat> {
    match found case Some(k) => Some(k + n) case None => None
  }

  /** One turn of the search: on to the next byte, or past an escaped one. */
  lemma CloseStep(s: string, j: nat, q: char)
    requires j < |s|
    ensures CloseAt(s[j..], q) ==
            if s[j] == '\\' && q != '`' then
              if j + 2 <= |s| then Later(CloseAt(s[j + 2..], q), 2) else None
            else if s[j] == q then Some(0)
            else Later(CloseAt(s[j + 1..], q), 1)
  {
    if j + 2 <= |s| {
      assert s[j..][2..] == s[j + 2..];
    }
    assert s[j..][1..] == s[j + 1..];
  }

  /** The search loop of parseQuoted: the index of the closing quote. */
  method FindClose(s: string, start: nat, q: char) returns (found: bool, j: nat)
    requires start <= |s|
    ensures found ==> start <= j < |s| && CloseAt(s[start..], q) == Some(j - start)
    ensures !found ==> CloseAt(s[start..], q) == None
  {
    hide CloseAt;
    j := start;
    while j < |s|
      invariant start <= j <= |s| + 1
      invariant CloseAt(s[start..], q) == if j <= |s| then Later(CloseAt(s[j..], q), j - start) else None
    {
      CloseStep(s, j, q);
      if s[j] == '\\' && q != '`' {
        j := j + 2;
      } else if s[j] == q {
        return true, j;
      } else {
        j := j + 1;
      }
    }
    NothingToClose(q);
    return false, j;
  }

  lemma NothingToClose(q: char)
    ensures CloseAt([], q) == None
  {
  }

  /** parseQuoted. */
  method ParseQuoted(unquote: Unquoter, s: string, i: nat) returns (value: string, next: nat, ok: bool)
    requires i <= |s|
    ensures ok ==> i < next <= |s| && TakeQuoted(unquote, s[i..]) == Some((value, s[next..]))
    ensures !ok ==> TakeQuoted(unquote, s[i..]) == None
  {
    if i >= |s| || s[i] !in {'"', '`', '\''} {
      return "", 0, false;
    }
    var q := s[i];
    assert s[i..][1..] == s[i + 1..];
    var found, j := FindClose(s, i + 1, q);
    if !found {
      return "", 0, false;
    }
    var n := j - i - 1;
    assert s[i..][..n + 2] == s[i..j + 1] && s[i..][1..n + 1] == s[i + 1..j] && s[i..][n + 2..] == s[j + 1..];
    if q == '"' {
      var unquoted := unquote(s[i..j + 1]);
      if unquoted.Some? {
        return unquoted.value, j + 1, true;
      }
    }
    return s[i + 1..j], j + 1, true;
  }

  method CountIdent(s: string, start: nat) returns (i: nat)
    requires start <= |s|
    ensures start <= i <= |s| && IdentLength(s[start..]) == i - start
  {
    i := start;
    while i < |s| && IsIdentChar(s[i])
      invariant start <= i <= |s|
      invariant IdentLength(s[start..]) == i - start + IdentLength(s[i..])
    {
      assert s[i..][1..] == s[i + 1..];
      i := i + 1;
    }
  }

  method ParseName(unquote: Unquoter, s: string, start: nat) returns (name: string, i: nat, ok: bool)
    requires start < |s|
    ensures ok ==> start < i <= |s| && TakeName(unquote, s[start..]) == Some((name, s[i..]))
    ensures !ok ==> TakeName(unquote, s[start..]) == None
  {
    hide IdentLength, TakeQuoted;
    i := start;
    if s[i] == '"' || s[i] == '`' {
      name, i, ok := ParseQuoted(unquote, s, i);
      return name, i, ok && name != "";
    }
    i := CountIdent(s, start);
    if i == start {
      return "", i, false;
    }
    assert s[start..][..i - start] == s[start..i] && s[start..][i - start..] == s[i..];
    return s[start..i], i, true;
  }

  method ParseOp(s: string, start: nat) returns (op: Op, i: nat, ok: bool)
    requires start <= |s|
    ensures ok ==> start < i <= |s| && TakeOp(s[start..]) == Some((op, s[i..]))
    ensures !ok ==> TakeOp(s[start..]) == None
  {
    i := start;
    if i + 1 < |s| && s[i] == '=' && s[i + 1] == '~' {
      op, i, ok := Re, i + 2, true;
    } else if i + 1 < |s| && s[i] == '!' && s[i + 1] == '=' {
      op, i, ok := Neq, i + 2, true;
    } else if i + 1 < |s| && s[i] == '!' && s[i + 1] == '~' {
      op, i, ok := Nre, i + 2, true;
    } else if i < |s| && s[i] == '=' {
      op, i, ok := Eq, i + 1, true;
    } else {
      op, ok := Eq, false;
    }
  }

  function Prepend(first: seq<LabelMatcher>, rest: Option<seq<LabelMatcher>>): (r: Option<seq<LabelMatcher>>)
    ensures first == [] ==> r == rest
  {
    match rest
    case Some(matchers) =>
      assert first == [] ==> first + matchers == matchers;
      Some(first + matchers)
    case None => None
  }

  method ParseComma(s: string, start: nat, matcher: LabelMatcher) returns (i: nat, ok: bool)
    requires start <= |s|
    ensures ok ==> start <= i <= |s| && TakeComma(matcher, s[start..]) == Some((matcher, s[i..]))
    ensures !ok ==> TakeComma(matcher, s[start..]) == None
  {
    i, ok := start, true;
    if i < |s| {
      if s[i] != ',' {
        return i, false;
      }
      assert s[start..][1..] == s[i + 1..];
      i := i + 1;
    }
  }

  method ParseValue(unquote: Unquoter, s: string, start: nat, name: string, op: Op)
    returns (matcher: LabelMatcher, i: nat, ok: bool)
    requires start <= |s|
    ensures ok ==> start <= i <= |s| && TakeValue(unquote, name, op, s[start..]) == Some((matcher, s[i..]))
    ensures !ok ==> TakeValue(unquote, name, op, s[start..]) == None
  {
    var value;
    value, i, ok := ParseQuoted(unquote, s, start);
    matcher := LabelMatcher(name, op, value);
    if ok {
      i := SkipSpace(s, i);
      i, ok := ParseComma(s, i, matcher);
    }
  }

  method ParseOpAndValue(unquote: Unquoter, s: string, start: nat, name: string)
    returns (matcher: LabelMatcher, i: nat, ok: bool)
    requires start <= |s|
    ensures ok ==> start <= i <= |s| && TakeOpAndValue(unquote, name, s[start..]) == Some((matcher, s[i..]))
    ensures !ok ==> TakeOpAndValue(unquote, name, s[start..]) == None
  {
    var op;
    op, i, ok := ParseOp(s, start);
    matcher := LabelMatcher(name, op, "");
    if ok {
      i := SkipSpace(s, i);
      matcher, i, ok := ParseValue(unquote, s, i, name, op);
    }
  }

  /** The body of the parser's loop, once blanks are skipped and something is left. */
  method ParseOne(unquote: Unquoter, s: string, start: nat) returns (matcher: LabelMatcher, i: nat, ok: bool)
    requires start < |s|
    ensures ok ==> start < i <= |s| && TakeMatcher(unquote, s[start..]) == Some((matcher, s[i..]))
    ensures !ok ==> TakeMatcher(unquote, s[start..]) == None
  {
    var name;
    name, i, ok := ParseName(unquote, s, start);
    matcher := LabelMatcher(name, Eq, "");
    if ok {
      i := SkipSpace(s, i);
      matcher, i, ok := ParseOpAndValue(unquote, s, i, name);
    }
  }

  lemma ParseStep(unquote: Unquoter, s: string)
    ensures var body := SkipBlanks(s);
            && (body == [] ==> ParseMatchers(unquote, s) == Some([]))
            && (body != [] ==> match TakeMatcher(unquote, body)
                               case None => ParseMatchers(unquote, s) == None
                               case Some((matcher, rest)) =>
                                 ParseMatchers(unquote, s) == Prepend([matcher], ParseMatchers(unquote, rest)))
  {
  }

  lemma PrependOne(out: seq<LabelMatcher>, matcher: LabelMatcher, rest: Option<seq<LabelMatcher>>)
    ensures Prepend(out, Prepend([matcher], rest)) == Prepend(out + [matcher], rest)
  {
    if rest.Some? {
      assert out + ([matcher] + rest.value) == (out + [matcher]) + rest.value;
    }
  }

  datatype Turn = End | Failed | Parsed(matcher: LabelMatcher, next: nat)

  /** One turn of the parser's loop. */
  method ParseTurn(unquote: Unquoter, s: string, start: nat) returns (turn: Turn)
    requires start <= |s|
    ensures turn.End? ==> ParseMatchers(unquote, s[start..]) == Some([])
    ensures turn.Failed? ==> ParseMatchers(unquote, s[start..]) == None
    ensures turn.Parsed? ==>
              && start < turn.next <= |s|
              && ParseMatchers(unquote, s[start..]) == Prepend([turn.matcher], ParseMatchers(unquote, s[turn.next..]))
  {
    ParseStep(unquote, s[start..]);
    var i := SkipSpace(s, start);
    if i >= |s| {
      return End;
    }
    var matcher, next, ok := ParseOne(unquote, s, i);
    return if ok then Parsed(matcher, next) else Failed;
  }

  /** parseMatchers. */
  method ParseMatcherList(unquote: Unquoter, s: string) returns (out: seq<LabelMatcher>, ok: bool)
    ensures ParseMatchers(unquote, s) == if ok then Some(out) else None
  {
    out := [];
    var i := 0;
    assert s[0..] == s;
    while true
      invariant i <= |s|
      invariant ParseMatchers(unquote, s) == Prepend(out, ParseMatchers(unquote, s[i..]))
      decreases |s| - i
    {
      var turn := ParseTurn(unquote, s, i);
      match turn
      case End =>
        assert out + [] == out;
        return out, true;
      case Failed =>
        return [], false;
      case Parsed(matcher, next) =>
        PrependOne(out, matcher, ParseMatchers(unquote, s[next..]));
        out := out + [matcher];
        i := next;
    }
  }
}
