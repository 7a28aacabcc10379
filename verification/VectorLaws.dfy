/** Where range vectors are found in a query, and what their digits and units are worth. */
module VectorLaws {
  import opened Sequences
  import opened Wrappers
  import Int64
  import opened LogQLLexer
  import opened LogQLSelectors
  import opened SelectorRoundTrip
  import opened Durations

  lemma SameStep(lib: Library, s: string, from: nat, b: string, i: nat, shifted: Group, group: Group)
    requires i <= |b| && from <= |s| && NextGroup(SQUARES, b, i) == Some(group) && NextGroup(SQUARES, s, from) == Some(shifted)
    requires s[shifted.open + 1..shifted.close] == b[group.open + 1..group.close]
    requires VectorDurations(lib, s, shifted.close + 1) == VectorDurations(lib, b, group.close + 1)
    ensures VectorDurations(lib, s, from) == VectorDurations(lib, b, i)
  {
    hide VectorDurations, NextGroup, BracketDuration, FindFrom, IndexFrom, GroupsFrom;
    VectorStep(lib, b, i);
    VectorStep(lib, s, from);
  }

  /** The extraction of durations does not depend on what stands before its start. */
  lemma {:induction false} VectorsAreForward(lib: Library, a: string, b: string, i: nat)
    requires i <= |b|
    ensures VectorDurations(lib, a + b, |a| + i) == VectorDurations(lib, b, i)
    decreases |b| - i
  {
    hide VectorDurations, NextGroup, BracketDuration, FindFrom, IndexFrom, GroupsFrom;
    NextGroupIsForward(SQUARES, a, b, i);
    var next := NextGroup(SQUARES, b, i);
    if next.Some? {
      var group := next.value;
      var shifted := Group(|a| + group.open, |a| + group.close);
      VectorsAreForward(lib, a, b, group.close + 1);
      SliceBehind(a, b, group.open + 1, group.close);
      SameStep(lib, a + b, |a| + i, b, i, shifted, group);
    } else {
      VectorStep(lib, b, i);
      VectorStep(lib, a + b, |a| + i);
    }
  }

  lemma BracketParts(prefix: string, body: string, suffix: string)
    ensures var s, n := prefix + ("[" + body + "]") + suffix, |prefix|;
            && n + |body| + 2 <= |s| && s[0..n] == prefix && s[n] == '['
            && s[n + 1..n + 1 + |body|] == body && s[n + 1 + |body|] == ']'
  {
  }

  /** A bracket outside literals counts with what it contains, next to those after it. */
  lemma WrittenVectorIsFound(lib: Library, prefix: string, body: string, suffix: string)
    requires Quiet(prefix, '[') && Quiet(body, ']')
    ensures var first, rest := BracketDuration(lib, body), VectorDuration(lib, suffix);
            VectorDuration(lib, prefix + ("[" + body + "]") + suffix) == if first.Some? && first.value > rest then first.value else rest
  {
    hide Quiet, FindFrom, VectorDurations, BracketDuration;
    var s, n := prefix + ("[" + body + "]") + suffix, |prefix|;
    BracketParts(prefix, body, suffix);
    FindAfterQuiet(s, 0, prefix, '[');
    FindAfterQuiet(s, n + 1, body, ']');
    VectorStep(lib, s, 0);
    VectorsAreForward(lib, prefix + ("[" + body + "]"), suffix, 0);
    LargestCons(BracketDuration(lib, body), VectorDurations(lib, suffix, 0));
  }

  /** Without an opening bracket outside literals there is none, and none after one that nothing closes. */
  lemma NoVector(lib: Library, prefix: string, rest: string)
    ensures Passes(Code, prefix, '[') ==> VectorDuration(lib, prefix) == 0
    ensures Quiet(prefix, '[') && Passes(Code, rest, ']') ==> VectorDuration(lib, prefix + "[" + rest) == 0
  {
    hide VectorDurations;
    if Passes(Code, prefix, '[') {
      assert prefix[0..|prefix|] == prefix;
      FindPast(Code, prefix, 0, |prefix|, '[');
      VectorStep(lib, prefix, 0);
    }
    if Quiet(prefix, '[') && Passes(Code, rest, ']') {
      var s, n := prefix + "[" + rest, |prefix|;
      assert s[0..n] == prefix && s[n] == '[' && s[n + 1..|s|] == rest;
      FindAfterQuiet(s, 0, prefix, '[');
      FindPast(Code, s, n + 1, |s|, ']');
      VectorStep(lib, s, 0);
    }
  }

  // ----- digits and units

  /** A year is 365 days, a week seven, a day 24 hours, and so on down to a million nanoseconds. */
  lemma UnitsAreMultiples(digits: string)
    requires digits != [] && Digits(digits)
    ensures Worth(Term(digits, Year)) == 365 * Worth(Term(digits, Day))
    ensures Worth(Term(digits, Week)) == 7 * Worth(Term(digits, Day))
    ensures Worth(Term(digits, Day)) == 24 * Worth(Term(digits, Hour))
    ensures Worth(Term(digits, Hour)) == 60 * Worth(Term(digits, Minute))
    ensures Worth(Term(digits, Minute)) == 60 * Worth(Term(digits, Second))
    ensures Worth(Term(digits, Second)) == 1000 * Worth(Term(digits, Milli))
    ensures Worth(Term(digits, Milli)) == 1_000_000 * Value(digits)
  {
  }

  lemma OneTerm(digits: string, unit: Unit, worth: nat)
    requires digits != [] && Digits(digits) && worth == Worth(Term(digits, unit)) <= Int64.MAX
    ensures ReadsAs(digits + UnitText(unit), worth)
  {
    hide Worth, UnitText;
    var terms := [Term(digits, unit)];
    assert terms[1..] == [];
    assert digits + UnitText(unit) + [] == digits + UnitText(unit);
    assert GoodTerms(terms) && Render(terms) == digits + UnitText(unit) && Sum(terms) == worth;
  }

  /** What a number with a unit after it reads as, in nanoseconds, as long as it fits. */
  lemma UnitsAreRead(digits: string)
    requires digits != [] && Digits(digits)
    ensures var n := Value(digits);
            && (n * 1_000_000 <= Int64.MAX ==> ReadsAs(digits + "ms", n * 1_000_000))
            && (n * 1_000_000_000 <= Int64.MAX ==> ReadsAs(digits + "s", n * 1_000_000_000))
            && (n * 60_000_000_000 <= Int64.MAX ==> ReadsAs(digits + "m", n * 60_000_000_000))
            && (n * 3_600_000_000_000 <= Int64.MAX ==> ReadsAs(digits + "h", n * 3_600_000_000_000))
            && (n * 86_400_000_000_000 <= Int64.MAX ==> ReadsAs(digits + "d", n * 86_400_000_000_000))
            && (n * 604_800_000_000_000 <= Int64.MAX ==> ReadsAs(digits + "w", n * 604_800_000_000_000))
            && (n * 31_536_000_000_000_000 <= Int64.MAX ==> ReadsAs(digits + "y", n * 31_536_000_000_000_000))
  {
    hide ReadsAs, Value, Digits;
    forall unit | Worth(Term(digits, unit)) <= Int64.MAX
      ensures ReadsAs(digits + UnitText(unit), Worth(Term(digits, unit)))
    {
      OneTerm(digits, unit, Worth(Term(digits, unit)));
    }
    assert Worth(Term(digits, Milli)) == Value(digits) * 1_000_000 && UnitText(Milli) == "ms";
    assert Worth(Term(digits, Second)) == Value(digits) * 1_000_000_000 && UnitText(Second) == "s";
    assert Worth(Term(digits, Minute)) == Value(digits) * 60_000_000_000 && UnitText(Minute) == "m";
    assert Worth(Term(digits, Hour)) == Value(digits) * 3_600_000_000_000 && UnitText(Hour) == "h";
    assert Worth(Term(digits, Day)) == Value(digits) * 86_400_000_000_000 && UnitText(Day) == "d";
    assert Worth(Term(digits, Week)) == Value(digits) * 604_800_000_000_000 && UnitText(Week) == "w";
    assert Worth(Term(digits, Year)) == Value(digits) * 31_536_000_000_000_000 && UnitText(Year) == "y";
  }

  function Decimal(n: nat): string {
    (if n < 10 then "" else Decimal(n / 10)) + ["0123456789"[n % 10]]
  }

  lemma DigitIs(d: nat)
    requires d < 10
    ensures IsDigit("0123456789"[d]) && "0123456789"[d] as int - '0' as int == d
  {
  }

  lemma OneMoreDigit(digits: string, c: char)
    requires Digits(digits) && IsDigit(c)
    ensures Digits(digits + [c]) && Value(digits + [c]) == 10 * Value(digits) + (c as int - '0' as int)
  {
    assert (digits + [c])[..|digits|] == digits;
  }

  /** What is written in decimal is read as that number, with any zeros in front. */
  lemma {:induction false} DecimalIsRead(n: nat)
    ensures Digits(Decimal(n)) && Value(Decimal(n)) == n
  {
    hide Digits, Value, IsDigit;
    DigitIs(n % 10);
    if n >= 10 {
      DecimalIsRead(n / 10);
      OneMoreDigit(Decimal(n / 10), "0123456789"[n % 10]);
    } else {
      NoDigits();
      OneMoreDigit("", "0123456789"[n % 10]);
    }
  }

  lemma NoDigits()
    ensures Digits("") && Value("") == 0
  {
  }

  lemma {:induction false} ZerosInFront(digits: string)
    requires Digits(digits)
    ensures Value("0" + digits) == Value(digits)
  {
    if digits != [] {
      ZerosInFront(digits[..|digits| - 1]);
      assert ("0" + digits)[..|digits|] == "0" + digits[..|digits| - 1];
    }
  }
}
