/**
 Range-vector durations: the digits-and-unit parser with its 64-bit overflow tests, and the
 largest duration in brackets outside literals.
 */
module Durations {
  import opened Wrappers
  import Int64
  import opened LogQLSelectors

  datatype Unit = Milli | Second | Minute | Hour | Day | Week | Year

  function UnitText(unit: Unit): string {
    match unit
    case Milli => "ms"
    case Second => "s"
    case Minute => "m"
    case Hour => "h"
    case Day => "d"
    case Week => "w"
    case Year => "y"
  }

  /** In nanoseconds. */
  function Nanos(unit: Unit): (n: int)
    ensures 0 < n <= Int64.MAX
  {
    match unit
    case Milli => 1_000_000
    case Second => 1_000_000_000
    case Minute => 60_000_000_000
    case Hour => 3_600_000_000_000
    case Day => 86_400_000_000_000
    case Week => 604_800_000_000_000
    case Year => 31_536_000_000_000_000
  }

  predicate IsDigit(c: char) {
    '0' <= c <= '9'
  }

  predicate Digits(s: string) {
    forall i | 0 <= i < |s| :: IsDigit(s[i])
  }

  /** The decimal value of a string of digits, leading zeros included. */
  function Value(digits: string): nat
    requires Digits(digits)
  {
    if digits == [] then 0
    else 10 * Value(digits[..|digits| - 1]) + (digits[|digits| - 1] as int - '0' as int)
  }

  // ----- what a duration means

  datatype Term = Term(digits: string, unit: Unit)

  predicate GoodTerm(term: Term) {
    term.digits != [] && Digits(term.digits)
  }

  function Render(terms: seq<Term>): string {
    if terms == [] then [] else terms[0].digits + UnitText(terms[0].unit) + Render(terms[1..])
  }

  predicate GoodTerms(terms: seq<Term>) {
    forall i | 0 <= i < |terms| :: GoodTerm(terms[i])
  }

  /** What a term amounts to, unbounded. */
  function Worth(term: Term): nat
    requires GoodTerm(term)
  {
    var num := Value(term.digits);
    match term.unit
    case Milli => num * 1_000_000
    case Second => num * 1_000_000_000
    case Minute => num * 60_000_000_000
    case Hour => num * 3_600_000_000_000
    case Day => num * 86_400_000_000_000
    case Week => num * 604_800_000_000_000
    case Year => num * 31_536_000_000_000_000
  }

  lemma WorthIsProduct(term: Term)
    requires GoodTerm(term)
    ensures Worth(term) == Value(term.digits) * Nanos(term.unit) && Value(term.digits) <= Worth(term)
  {
  }

  /** The mathematical sum, unbounded. */
  function Sum(terms: seq<Term>): nat
    requires GoodTerms(terms)
  {
    if terms == [] then 0
    else Worth(terms[0]) + Sum(terms[1..])
  }

  // ----- how it is read

  /** The end of the run of digits that starts at i. */
  function DigitsEnd(s: string, i: nat): (end: nat)
    requires i <= |s|
    ensures i <= end <= |s| && Digits(s[i..end]) && (end < |s| ==> !IsDigit(s[end]))
    decreases |s| - i
  {
    if i < |s| && IsDigit(s[i]) then DigitsEnd(s, i + 1) else i
  }

  /** The unit at i; "ms" is looked for before "m". */
  function UnitAt(s: string, i: nat): (r: Option<Unit>)
    requires i <= |s|
    ensures r.Some? ==> i + |UnitText(r.value)| <= |s| && s[i..i + |UnitText(r.value)|] == UnitText(r.value)
  {
    if i + 1 < |s| && s[i] == 'm' && s[i + 1] == 's' then Some(Milli)
    else if i == |s| then None
    else if s[i] == 's' then Some(Second)
    else if s[i] == 'm' then Some(Minute)
    else if s[i] == 'h' then Some(Hour)
    else if s[i] == 'd' then Some(Day)
    else if s[i] == 'w' then Some(Week)
    else if s[i] == 'y' then Some(Year)
    else None
  }

  /** The term at i and where it ends. */
  function TermAt(s: string, i: nat): (r: Option<(Term, nat)>)
    requires i <= |s|
    ensures r.Some? ==>
              && GoodTerm(r.value.0) && i < r.value.1 <= |s|
              && s[i..r.value.1] == r.value.0.digits + UnitText(r.value.0.unit)
  {
    var end := DigitsEnd(s, i);
    var unit := UnitAt(s, end);
    if end == i || unit.None? then None
    else
      var next := end + |UnitText(unit.value)|;
      assert s[i..next] == s[i..end] + s[end..next];
      Some((Term(s[i..end], unit.value), next))
  }

  /** The terms from i to the end; None if the rest is not a sequence of terms. */
  function TermsFrom(s: string, i: nat): (r: Option<seq<Term>>)
    requires i <= |s|
    ensures r.Some? ==> GoodTerms(r.value)
    decreases |s| - i
  {
    if i == |s| then Some([])
    else match TermAt(s, i)
      case None => None
      case Some((term, next)) =>
        match TermsFrom(s, next)
        case None => None
        case Some(rest) => Some([term] + rest)
  }

  lemma {:induction false} TermsRender(s: string, i: nat)
    requires i <= |s| && TermsFrom(s, i).Some?
    ensures Render(TermsFrom(s, i).value) == s[i..]
    decreases |s| - i
  {
    hide TermAt, UnitText;
    if i < |s| {
      var (term, next) := TermAt(s, i).value;
      TermsRender(s, next);
      assert TermsFrom(s, i).value[1..] == TermsFrom(s, next).value;
      assert s[i..] == s[i..next] + s[next..];
    }
  }

  lemma {:induction false} DigitsEndIs(s: string, i: nat, end: nat)
    requires i <= end <= |s| && (forall k | i <= k < end :: IsDigit(s[k])) && (end < |s| ==> !IsDigit(s[end]))
    ensures DigitsEnd(s, i) == end
    decreases end - i
  {
    if i < end {
      DigitsEndIs(s, i + 1, end);
    }
  }

  lemma UnitIs(s: string, i: nat, unit: Unit)
    requires i + |UnitText(unit)| <= |s| && s[i..i + |UnitText(unit)|] == UnitText(unit)
    requires i + |UnitText(unit)| < |s| ==> IsDigit(s[i + |UnitText(unit)|])
    ensures UnitAt(s, i) == Some(unit)
  {
    var text := UnitText(unit);
    var cut := s[i..i + |text|];
    assert s[i] == cut[0] == text[0];
    if unit.Milli? {
      assert s[i + 1] == cut[1] == text[1];
    }
  }

  lemma TermIs(s: string, i: nat, term: Term, rest: string)
    requires i <= |s| && GoodTerm(term) && s[i..] == term.digits + UnitText(term.unit) + rest
    requires rest != [] ==> IsDigit(rest[0])
    ensures TermAt(s, i) == Some((term, |s| - |rest|))
  {
    hide UnitAt, DigitsEnd;
    var end := i + |term.digits|;
    var next := end + |UnitText(term.unit)|;
    assert s[i..end] == term.digits && s[end..next] == UnitText(term.unit) && s[next..] == rest by {
      assert forall k | 0 <= k < |s| - i :: s[i + k] == s[i..][k];
    }
    assert forall k | i <= k < end :: s[k] == term.digits[k - i];
    assert s[end] == UnitText(term.unit)[0];
    DigitsEndIs(s, i, end);
    UnitIs(s, end, term.unit);
  }

  lemma {:induction false} RenderedTerms(s: string, i: nat, terms: seq<Term>)
    requires i <= |s| && GoodTerms(terms) && s[i..] == Render(terms)
    ensures TermsFrom(s, i) == Some(terms)
    decreases |terms|
  {
    hide TermAt, UnitText, GoodTerm;
    if terms != [] {
      var rest := Render(terms[1..]);
      RenderStarts(terms[1..]);
      TermIs(s, i, terms[0], rest);
      var next := |s| - |rest|;
      assert s[next..] == rest;
      RenderedTerms(s, next, terms[1..]);
      TermsCons(s, i, terms[0], next, terms[1..]);
      assert [terms[0]] + terms[1..] == terms;
    }
  }

  lemma TermsCons(s: string, i: nat, term: Term, next: nat, rest: seq<Term>)
    requires i < next <= |s| && TermAt(s, i) == Some((term, next)) && TermsFrom(s, next) == Some(rest)
    ensures TermsFrom(s, i) == Some([term] + rest)
  {
  }

  lemma RenderStarts(terms: seq<Term>)
    requires GoodTerms(terms)
    ensures Render(terms) != [] ==> IsDigit(Render(terms)[0])
    ensures terms != [] ==> Render(terms) != []
  {
    if terms != [] {
      assert Render(terms)[0] == terms[0].digits[0];
    }
  }

  /** A string is read as terms in exactly one way. */
  lemma TermsAreUnique(s: string, terms: seq<Term>)
    requires GoodTerms(terms)
    ensures Render(terms) == s <==> TermsFrom(s, 0) == Some(terms)
  {
    assert s[0..] == s;
    if Render(terms) == s {
      RenderedTerms(s, 0, terms);
    }
    if TermsFrom(s, 0) == Some(terms) {
      TermsRender(s, 0);
    }
  }

  // ----- the parser as it runs, in 64-bit arithmetic

  /** strconv.ParseInt on digits: an error when the value does not fit. */
  function ParseInt(digits: string): Option<int>
    requires Digits(digits)
  {
    if Value(digits) <= Int64.MAX then Some(Value(digits)) else None
  }

  method CountDigits(s: string, start: nat) returns (i: nat)
    requires start <= |s|
    ensures i == DigitsEnd(s, start)
  {
    i := start;
    while i < |s| && IsDigit(s[i])
      invariant start <= i <= |s|
      invariant DigitsEnd(s, start) == DigitsEnd(s, i)
    {
      i := i + 1;
    }
  }

  method ParseUnit(s: string, start: nat) returns (unit: Option<Unit>, i: nat)
    requires start <= |s|
    ensures unit == UnitAt(s, start)
    ensures unit.Some? ==> i == start + |UnitText(unit.value)|
  {
    i := start;
    if i + 1 < |s| && s[i] == 'm' && s[i + 1] == 's' {
      return Some(Milli), i + 2;
    }
    if i >= |s| {
      return None, i;
    }
    var c := s[i];
    if c == 's' { return Some(Second), i + 1; }
    if c == 'm' { return Some(Minute), i + 1; }
    if c == 'h' { return Some(Hour), i + 1; }
    if c == 'd' { return Some(Day), i + 1; }
    if c == 'w' { return Some(Week), i + 1; }
    if c == 'y' { return Some(Year), i + 1; }
    return None, i;
  }

  /** One turn of the loop up to the product: the wrapped term, or a refusal. */
  method ParseTerm(s: string, start: nat) returns (term: int, i: nat, ok: bool)
    requires start < |s|
    ensures match TermAt(s, start)
            case None => !ok
            case Some((parsed, next)) =>
              && ok == (Worth(parsed) <= Int64.MAX)
              && (ok ==> i == next && term == Worth(parsed))
  {
    i := CountDigits(s, start);
    if i == start {
      return 0, i, false;
    }
    var digits := s[start..i];
    var num := ParseInt(digits);
    var unit, next := ParseUnit(s, i);
    if unit.Some? {
      WorthIsProduct(Term(digits, unit.value));
    }
    if num.None? || unit.None? {
      return 0, i, false;
    }
    i := next;
    Int64.ProductOverflow(num.value, Nanos(unit.value));
    term := Int64.Wrap(num.value * Nanos(unit.value));
    ok := !(term < 0 || (num.value != 0 && term / Nanos(unit.value) != num.value));
  }

  /** The sum of the terms from i on, if there is nothing else. */
  function SumFrom(s: string, i: nat): Option<nat>
    requires i <= |s|
  {
    match TermsFrom(s, i) case None => None case Some(terms) => Some(Sum(terms))
  }

  function Plus(term: int, rest: Option<nat>): Option<int> {
    match rest case None => None case Some(sum) => Some(term + sum)
  }

  lemma SumStep(s: string, i: nat)
    requires i < |s|
    ensures SumFrom(s, i) ==
            match TermAt(s, i)
            case None => None
            case Some((term, next)) => Plus(Worth(term), SumFrom(s, next))
  {
    hide TermAt, Worth;
    var at := TermAt(s, i);
    if at.Some? && TermsFrom(s, at.value.1).Some? {
      TermsCons(s, i, at.value.0, at.value.1, TermsFrom(s, at.value.1).value);
      SumCons(at.value.0, TermsFrom(s, at.value.1).value);
    }
  }

  lemma SumCons(term: Term, terms: seq<Term>)
    requires GoodTerm(term) && GoodTerms(terms)
    ensures Sum([term] + terms) == Worth(term) + Sum(terms)
  {
    assert ([term] + terms)[1..] == terms;
  }

  predicate Within(total: int, rest: Option<nat>) {
    rest.Some? && total + rest.value <= Int64.MAX
  }

  /** The term at i as the sum sees it. */
  method SummandAt(s: string, i: nat) returns (term: int, next: nat, ok: bool)
    requires i < |s|
    ensures ok ==> 0 <= term <= Int64.MAX && i < next <= |s| && SumFrom(s, i) == Plus(term, SumFrom(s, next))
    ensures !ok ==> !Within(0, SumFrom(s, i))
  {
    SumStep(s, i);
    term, next, ok := ParseTerm(s, i);
  }

  /** One turn of the loop: the running total after the term at i. */
  method DurationTurn(s: string, i: nat, total: int) returns (total': int, next: nat, ok: bool)
    requires i < |s| && 0 <= total <= Int64.MAX
    ensures ok ==> 0 <= total' <= Int64.MAX && i < next <= |s|
    ensures ok ==> Within(total, SumFrom(s, i)) == Within(total', SumFrom(s, next))
    ensures ok && Within(total', SumFrom(s, next)) ==> total + SumFrom(s, i).value == total' + SumFrom(s, next).value
    ensures !ok ==> !Within(total, SumFrom(s, i))
  {
    var term;
    term, next, ok := SummandAt(s, i);
    if !ok {
      return 0, next, false;
    }
    Int64.SumOverflow(total, term);
    total' := Int64.Wrap(total + term);
    ok := !(total' < 0);
  }

  /** parsePromStyleDuration. */
  method ParsePromStyleDuration(s: string) returns (total: int, ok: bool)
    ensures ok <==> Within(0, SumFrom(s, 0))
    ensures ok ==> total == SumFrom(s, 0).value
  {
    total := 0;
    var i := 0;
    while i < |s|
      invariant i <= |s| && 0 <= total <= Int64.MAX
      invariant Within(0, SumFrom(s, 0)) == Within(total, SumFrom(s, i))
      invariant Within(0, SumFrom(s, 0)) ==> SumFrom(s, 0).value == total + SumFrom(s, i).value
      decreases |s| - i
    {
      total, i, ok := DurationTurn(s, i, total);
      if !ok {
        return 0, false;
      }
    }
    ok := true;
  }

  /**
   Exactness: a value is accepted precisely when the string reads as digits-plus-unit terms whose true sum
   fits in 63 bits, and it is that sum. The terms are written out, so this does not lean on the parser.
   */
  lemma AcceptedIffSumFits(s: string, total: int)
    ensures Within(0, SumFrom(s, 0)) && total == SumFrom(s, 0).value <==>
            exists terms :: GoodTerms(terms) && Render(terms) == s && total == Sum(terms) <= Int64.MAX
  {
    if Within(0, SumFrom(s, 0)) && total == SumFrom(s, 0).value {
      TermsAreUnique(s, TermsFrom(s, 0).value);
    }
    if terms :| GoodTerms(terms) && Render(terms) == s && total == Sum(terms) <= Int64.MAX {
      TermsAreUnique(s, terms);
    }
  }

  // ----- the largest range vector

  /** time.Duration, in nanoseconds. */
  type Duration = d: int | Int64.Fits(d)

  /** Library functions: strings.TrimSpace and time.ParseDuration, whose error result is None. */
  datatype Library = Library(trimSpace: string -> string, parseGoDuration: string -> Option<Duration>)

  /** A bracket's content as a duration: digits and units, or else a Go duration that is positive. */
  function BracketDuration(lib: Library, content: string): (r: Option<int>)
    ensures r.Some? ==> 0 <= r.value <= Int64.MAX
  {
    var s := lib.trimSpace(content);
    if s == "" then None
    else if Within(0, SumFrom(s, 0)) then SumFrom(s, 0)
    else match lib.parseGoDuration(s)
      case Some(d) => if d > 0 then Some(d) else None
      case None => None
  }

  /** A text that is written as terms whose sum fits. */
  ghost predicate ReadsAs(s: string, d: int) {
    exists terms :: GoodTerms(terms) && Render(terms) == s && d == Sum(terms) <= Int64.MAX
  }

  /**
   Trimmed content counts for d exactly when it is not empty and either reads as terms with that sum, or as no fitting
   terms at all while the library reads it as d, a positive duration.
   */
  lemma BracketDurationIff(lib: Library, content: string, d: int)
    ensures var s := lib.trimSpace(content);
            BracketDuration(lib, content) == Some(d) <==>
            s != "" && (ReadsAs(s, d) || (d > 0 && lib.parseGoDuration(s) == Some(d) && forall sum :: !ReadsAs(s, sum)))
  {
    hide SumFrom;
    var s := lib.trimSpace(content);
    forall sum
      ensures ReadsAs(s, sum) <==> Within(0, SumFrom(s, 0)) && sum == SumFrom(s, 0).value
    {
      AcceptedIffSumFits(s, sum);
    }
    if Within(0, SumFrom(s, 0)) {
      assert ReadsAs(s, SumFrom(s, 0).value);
    }
  }

  /** What the bracket groups from index i on amount to, None for those that are no duration. */
  function VectorDurations(lib: Library, logql: string, i: nat): seq<Option<int>>
    requires i <= |logql|
  {
    var groups := GroupsFrom(SQUARES, logql, i);
    seq(|groups|, n requires 0 <= n < |groups| => BracketDuration(lib, logql[groups[n].open + 1..groups[n].close]))
  }

  lemma VectorStep(lib: Library, logql: string, i: nat)
    requires i <= |logql|
    ensures VectorDurations(lib, logql, i) ==
            match NextGroup(SQUARES, logql, i)
            case None => []
            case Some(group) =>
              [BracketDuration(lib, logql[group.open + 1..group.close])] + VectorDurations(lib, logql, group.close + 1)
  {
    hide BracketDuration;
  }

  /** parseLogQLDuration. */
  method ParseLogQLDuration(lib: Library, content: string) returns (duration: Option<int>)
    ensures duration == BracketDuration(lib, content)
  {
    var s := lib.trimSpace(content);
    if s == "" {
      return None;
    }
    var total, ok := ParsePromStyleDuration(s);
    if ok {
      return Some(total);
    }
    var d := lib.parseGoDuration(s);
    return if d.Some? && d.value > 0 then d else None;
  }

  /** The largest present duration, zero if there is none. */
  function Largest(durations: seq<Option<int>>): (r: int)
    ensures r >= 0
  {
    if durations == [] then 0
    else
      var first := durations[0];
      var rest := Largest(durations[1..]);
      if first.Some? && first.value > rest then first.value else rest
  }

  function VectorDuration(lib: Library, logql: string): int {
    Largest(VectorDurations(lib, logql, 0))
  }

  lemma {:induction false} LargestIsMaximum(durations: seq<Option<int>>, r: int)
    ensures r == Largest(durations) <==>
            && (r == 0 || Some(r) in durations)
            && r >= 0
            && forall n | 0 <= n < |durations| && durations[n].Some? :: durations[n].value <= r
  {
    if durations != [] {
      LargestIsMaximum(durations[1..], Largest(durations[1..]));
      assert forall n | 1 <= n < |durations| :: durations[n] == durations[1..][n - 1];
      assert forall n | 0 <= n < |durations[1..]| :: durations[1..][n] == durations[n + 1];
      assert Some(Largest(durations[1..])) in durations[1..] ==> Some(Largest(durations[1..])) in durations;
    }
  }

  lemma {:induction false} LargestFits(durations: seq<Option<int>>)
    requires forall n | 0 <= n < |durations| && durations[n].Some? :: durations[n].value <= Int64.MAX
    ensures Largest(durations) <= Int64.MAX
  {
    if durations != [] {
      LargestFits(durations[1..]);
    }
  }

  lemma VectorDurationFits(lib: Library, logql: string)
    ensures 0 <= VectorDuration(lib, logql) <= Int64.MAX
  {
    LargestFits(VectorDurations(lib, logql, 0));
  }

  function Larger(out: int, d: Option<int>): int {
    if d.Some? && d.value > out then d.value else out
  }

  lemma LargestCons(first: Option<int>, rest: seq<Option<int>>)
    ensures Largest([first] + rest) == Larger(Largest(rest), first)
  {
    assert ([first] + rest)[1..] == rest;
  }

  /** One turn of the loop: the next bracket's duration and where to go on. */
  method VectorTurn(lib: Library, logql: string, i: nat) returns (d: Option<int>, next: Option<nat>)
    requires i <= |logql|
    ensures next.None? ==> Largest(VectorDurations(lib, logql, i)) == 0
    ensures next.Some? ==>
              && i < next.value <= |logql|
              && Largest(VectorDurations(lib, logql, i)) == Larger(Largest(VectorDurations(lib, logql, next.value)), d)
  {
    hide BracketDuration, VectorDurations;
    VectorStep(lib, logql, i);
    var group := FindGroup(SQUARES, logql, i);
    if group.None? {
      return None, None;
    }
    d := ParseLogQLDuration(lib, logql[group.value.open + 1..group.value.close]);
    next := Some(group.value.close + 1);
    LargestCons(d, VectorDurations(lib, logql, group.value.close + 1));
  }

  /** maxVectorDuration. */
  method MaxVectorDuration(lib: Library, logql: string) returns (out: int)
    ensures out == VectorDuration(lib, logql)
  {
    hide VectorDurations;
    out := 0;
    var i := 0;
    while i < |logql|
      invariant i <= |logql| && out >= 0
      invariant VectorDuration(lib, logql) == Larger(Largest(VectorDurations(lib, logql, i)), Some(out))
      decreases |logql| - i
    {
      var d, next := VectorTurn(lib, logql, i);
      if next.None? {
        return;
      }
      if d.Some? && d.value > out {
        out := d.value;
      }
      i := next.value;
    }
    var _, none := VectorTurn(lib, logql, i);
  }
}
