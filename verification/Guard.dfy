/**
 The cost guardrail: selective selectors, an effective time range within its cap and an estimated
 scan within its budget, or a verdict that says which of them failed or could not be reached.
 */
module Guard {
  import opened Wrappers
  import Int64
  import opened Regex
  import opened Selectivity
  import opened CatchAllSound
  import opened LogQLLexer
  import opened LogQLMatchers
  import opened LogQLSelectors
  import opened Durations
  import opened ByteSum

  /** Nanoseconds since the zero time. */
  type Time = int

  predicate IsZero(t: Time) {
    t == 0
  }

  /** Time.Sub: the difference as a duration, saturated. */
  function Between(later: Time, earlier: Time): (d: int)
    ensures Int64.Fits(d)
  {
    var d := later - earlier;
    if d > Int64.MAX then Int64.MAX else if d < -Int64.MAX - 1 then -Int64.MAX - 1 else d
  }

  datatype Query = Query(logql: string, start: Time, end: Time, instant: bool)

  /** A field that is not positive disables its check. */
  datatype Policy = Policy(maxBytes: int, maxRange: int, estimateAlways: bool)

  /** The failed check and what its message is made of. */
  datatype Reason =
    | SelectorReason(raw: string)
    | RangeReason(effective: int)
    | BytesReason(total: int)

  datatype Verdict = Allow | Block | Unknown

  datatype Cause = Unparseable | EstimateFailed

  datatype Decision = Decision(
    verdict: Verdict,
    reasons: seq<Reason>,
    cause: Option<Cause>,
    selectors: seq<string>,
    estimatedBytes: int,
    err: Option<string>)

  /** regexp/syntax Parse and Simplify; None is a parse error. */
  type Compiler = string -> Option<Tree>

  /** The caller's index/stats function, over a selector and a window. */
  type StatsFunc = (string, Time, Time) -> Result<int, string>

  /** Library functions and the clock. */
  datatype Env = Env(unquote: Unquoter, library: Library, compile: Compiler, now: Time)

  // ----- selective selectors

  predicate Selects(compile: Compiler, matcher: LabelMatcher) {
    match matcher.op
    case Eq => matcher.value != ""
    case Re => !RegexIsCatchAll(compile(matcher.value))
    case _ => false
  }

  predicate Selective(compile: Compiler, matchers: seq<LabelMatcher>) {
    exists i :: 0 <= i < |matchers| && Selects(compile, matchers[i])
  }

  /** hasSelectivePositiveMatcher. */
  method HasSelectivePositiveMatcher(compile: Compiler, ms: seq<LabelMatcher>) returns (found: bool)
    ensures found == Selective(compile, ms)
  {
    var i := 0;
    while i < |ms|
      invariant i <= |ms| && forall k | 0 <= k < i :: !Selects(compile, ms[k])
    {
      match ms[i].op {
        case Eq =>
          if ms[i].value != "" {
            return true;
          }
        case Re =>
          if !RegexIsCatchAll(compile(ms[i].value)) {
            return true;
          }
        case _ =>
      }
      i := i + 1;
    }
    return false;
  }

  /** What a positive matcher accepts as the label's value; missing labels have the empty value. */
  ghost predicate Accepts(compile: Compiler, matcher: LabelMatcher, text: string -> Text, value: Text) {
    match matcher.op
    case Eq => value == text(matcher.value)
    case Re => compile(matcher.value).Some? && MatchesWhole(compile(matcher.value).value, value)
    case _ => true
  }

  /** What the library's parser guarantees of a pattern's tree. */
  predicate ParsesWell(compile: Compiler, matcher: LabelMatcher) {
    compile(matcher.value).Some? ==> WellFormed(compile(matcher.value).value)
  }

  ghost predicate AcceptsOnlyEmpty(compile: Compiler, matcher: LabelMatcher, text: string -> Text) {
    forall value :: Accepts(compile, matcher, text, value) ==> value == []
  }

  /** All newline-free values that are long enough, the least length being known unless an anchor stands inside. */
  ghost predicate AcceptsLongValues(compile: Compiler, matcher: LabelMatcher, text: string -> Text)
    requires compile(matcher.value).Some?
  {
    var re := compile(matcher.value).value;
    && (OuterAnchors(re, true, true) ==> HasLeast(Least(re, true, true), OneNeedyElement(re)))
    && forall value | NewlineFree(value) && LongEnough(Least(re, true, true), |value|) :: Accepts(compile, matcher, text, value)
  }

  /**
   A matcher that does not count as selective accepts only the empty value, or else is a regex that accepts all
   newline-free values from its least length on; with anchors at its outer ends only it has that length, and
   with one needy element it is one. A regex without a least length may narrow the values down all the same.
   */
  lemma UnselectiveMatcherNarrowsNothing(compile: Compiler, matcher: LabelMatcher, text: string -> Text)
    requires matcher.op in {Eq, Re} && !Selects(compile, matcher) && ParsesWell(compile, matcher) && text("") == []
    ensures
      || AcceptsOnlyEmpty(compile, matcher, text)
      || (matcher.op == Re && compile(matcher.value).Some? && MatchesAnyString(compile(matcher.value).value)
          && AcceptsLongValues(compile, matcher, text))
  {
    if matcher.op == Re {
      var re := compile(matcher.value).value;
      if MatchesAnyString(re) {
        if OuterAnchors(re, true, true) {
          AcceptedHasLeast(re, true, true);
        }
        forall value | NewlineFree(value) && LongEnough(Least(re, true, true), |value|)
          ensures Accepts(compile, matcher, text, value)
        {
          WholeMatches(re, value);
        }
      } else {
        forall value | Accepts(compile, matcher, text, value)
          ensures value == []
        {
          OnlyEmptyConsumesNothing(re, value, 0, |value|);
        }
      }
    }
  }

  // ----- the time range

  predicate HasWindow(q: Query) {
    !q.instant && !IsZero(q.start) && !IsZero(q.end)
  }

  /** Query window plus range vector, saturated. */
  function EffectiveRange(q: Query, vecDur: int): int {
    Min(Int64.MAX, (if HasWindow(q) then Between(q.end, q.start) else 0) + vecDur)
  }

  function RangeReasons(q: Query, p: Policy, vecDur: int): seq<Reason> {
    if p.maxRange > 0 && EffectiveRange(q, vecDur) > p.maxRange then [RangeReason(EffectiveRange(q, vecDur))] else []
  }

  /** checkRange: the guarded addition never wraps. */
  method CheckRange(q: Query, p: Policy, vecDur: int) returns (reason: Option<Reason>)
    requires 0 <= vecDur <= Int64.MAX
    ensures AsSeq(reason) == RangeReasons(q, p, vecDur)
  {
    if p.maxRange <= 0 {
      return None;
    }
    var window := 0;
    if !q.instant && !IsZero(q.start) && !IsZero(q.end) {
      window := Between(q.end, q.start);
    }
    var effective := window;
    if vecDur > 0 && effective > Int64.MAX - vecDur {
      effective := Int64.MAX;
    } else {
      effective := Int64.Wrap(effective + vecDur);
    }
    return if effective <= p.maxRange then None else Some(RangeReason(effective));
  }

  datatype Window = Window(from: Time, to: Time)

  /** What an instant query is anchored at. */
  function Anchor(q: Query, now: Time): Time {
    if !IsZero(q.end) then q.end else if !IsZero(q.start) then q.start else now
  }

  /** statsWindow: None when there is nothing to estimate. */
  function StatsWindow(q: Query, vecDur: int, now: Time): Option<Window> {
    if HasWindow(q) then Some(Window(q.start - vecDur, q.end))
    else if vecDur == 0 then None
    else Some(Window(Anchor(q, now) - vecDur, Anchor(q, now)))
  }

  /**
   The estimate covers the unsaturated query window plus the vector, up to the query's end or the instant it is anchored
   at; there is none exactly for an instant query without a vector. For a window that does not run
   backwards, its width is the range that is held against the cap.
   */
  lemma WindowWidth(q: Query, vecDur: int, now: Time)
    requires 0 <= vecDur <= Int64.MAX
    ensures StatsWindow(q, vecDur, now).None? <==> !HasWindow(q) && vecDur == 0
    ensures match StatsWindow(q, vecDur, now)
            case None => EffectiveRange(q, vecDur) == 0
            case Some(window) =>
              && window.to == (if HasWindow(q) then q.end else Anchor(q, now))
              && window.to - window.from == (if HasWindow(q) then q.end - q.start else 0) + vecDur
              && (!HasWindow(q) || q.start <= q.end ==> EffectiveRange(q, vecDur) == Min(Int64.MAX, window.to - window.from))
  {
  }

  method ComputeStatsWindow(q: Query, vecDur: int, now: Time) returns (window: Option<Window>)
    ensures window == StatsWindow(q, vecDur, now)
  {
    if q.instant || IsZero(q.start) || IsZero(q.end) {
      if vecDur == 0 {
        return None;
      }
      var anchor := q.end;
      if IsZero(anchor) {
        anchor := q.start;
      }
      if IsZero(anchor) {
        anchor := now;
      }
      return Some(Window(anchor - vecDur, anchor));
    }
    return Some(Window(q.start - vecDur, q.end));
  }

  // ----- the decision

  function Raws(selectors: seq<Selector>): seq<string> {
    seq(|selectors|, i requires 0 <= i < |selectors| => selectors[i].raw)
  }

  function SelectorReasons(compile: Compiler, selectors: seq<Selector>): seq<Reason> {
    if selectors == [] then []
    else
      var last := selectors[|selectors| - 1];
      SelectorReasons(compile, selectors[..|selectors| - 1])
      + if Selective(compile, last.matchers) then [] else [SelectorReason(last.raw)]
  }

  /** The stats function over one window. */
  function Over(stats: StatsFunc, window: Window): Stats<string> {
    raw => stats(raw, window.from, window.to)
  }

  function Budget(p: Policy): int {
    if p.maxBytes > 0 then p.maxBytes else Int64.MAX
  }

  predicate WantsEstimate(stats: Option<StatsFunc>, p: Policy, staticOk: bool) {
    stats.Some? && (p.maxBytes > 0 || p.estimateAlways) && (staticOk || p.estimateAlways)
  }

  /** What was estimated; None if nothing was. */
  function Estimated(stats: Option<StatsFunc>, p: Policy, window: Option<Window>, staticOk: bool, raws: seq<string>): Option<Outcome> {
    if WantsEstimate(stats, p, staticOk) && window.Some?
    then Some(SumBytes(Over(stats.value, window.value), raws, Budget(p)))
    else None
  }

  function BytesReasons(p: Policy, total: int): seq<Reason> {
    if p.maxBytes > 0 && total > p.maxBytes then [BytesReason(total)] else []
  }

  function Settle(reasons: seq<Reason>, raws: seq<string>, bytes: int, err: Option<string>): Decision {
    Decision(if reasons != [] then Block else Allow, reasons, None, raws, bytes, err)
  }

  function Finish(p: Policy, raws: seq<string>, statics: seq<Reason>, estimate: Option<Outcome>): Decision {
    match estimate
    case None => Settle(statics, raws, 0, None)
    case Some(Total(total)) => Settle(statics + BytesReasons(p, total), raws, total, None)
    case Some(Partial(total, e)) => Settle(statics + BytesReasons(p, total), raws, total, Some(e))
    case Some(Failed(e)) =>
      if statics == [] && p.maxBytes > 0 then Decision(Unknown, [], Some(EstimateFailed), raws, 0, Some(e))
      else Settle(statics, raws, 0, Some(e))
  }

  /** The verdict on a query of which the selectors and the largest range vector are known. */
  function Judge(env: Env, stats: Option<StatsFunc>, q: Query, p: Policy, selectors: seq<Selector>, vecDur: int): Decision {
    var ranges := RangeReasons(q, p, vecDur);
    if selectors == [] then
      if ranges != [] then Decision(Block, ranges, None, [], 0, None)
      else Decision(Unknown, [], Some(Unparseable), [], 0, None)
    else
      var statics := SelectorReasons(env.compile, selectors) + ranges;
      var window := StatsWindow(q, vecDur, env.now);
      Finish(p, Raws(selectors), statics, Estimated(stats, p, window, statics == [], Raws(selectors)))
  }

  function SelectorsIn(env: Env, q: Query): seq<Selector> {
    ParseSelectors(Bodies(env.unquote), StripComments(q.logql))
  }

  function VectorIn(env: Env, q: Query): int {
    VectorDuration(env.library, StripComments(q.logql))
  }

  function Decide(env: Env, stats: Option<StatsFunc>, q: Query, p: Policy): Decision {
    Judge(env, stats, q, p, SelectorsIn(env, q), VectorIn(env, q))
  }

  // ----- Assess as it runs

  /** The selector loop of Assess. */
  method CheckSelectors(compile: Compiler, selectors: seq<Selector>) returns (raws: seq<string>, reasons: seq<Reason>)
    ensures raws == Raws(selectors) && reasons == SelectorReasons(compile, selectors)
  {
    raws := seq(|selectors|, i requires 0 <= i < |selectors| => selectors[i].raw);
    reasons := [];
    var i := 0;
    while i < |selectors|
      invariant i <= |selectors| && reasons == SelectorReasons(compile, selectors[..i])
    {
      assert selectors[..i + 1][..i] == selectors[..i];
      var selective := HasSelectivePositiveMatcher(compile, selectors[i].matchers);
      if !selective {
        reasons := reasons + [SelectorReason(selectors[i].raw)];
      }
      i := i + 1;
    }
    assert selectors[..i] == selectors;
  }

  /** The estimate and what Assess makes of it, given the decision so far. */
  method CheckBytes(stats: Option<StatsFunc>, p: Policy, window: Option<Window>, d: Decision) returns (r: Decision)
    requires d == Decision(Allow, d.reasons, None, d.selectors, 0, None)
    ensures r == Finish(p, d.selectors, d.reasons, Estimated(stats, p, window, d.reasons == [], d.selectors))
  {
    r := d;
    var staticOk := |r.reasons| == 0;
    if stats.Some? && (p.maxBytes > 0 || p.estimateAlways) && (staticOk || p.estimateAlways) {
      if window.Some? {
        var budget := p.maxBytes;
        if budget <= 0 {
          budget := Int64.MAX;
        }
        var total, ok, err, _ := SumSelectorBytes(Over(stats.value, window.value), r.selectors, budget);
        r := r.(err := err);
        if !ok && staticOk && p.maxBytes > 0 {
          return r.(verdict := Unknown, cause := Some(EstimateFailed));
        } else if !ok {
          // best effort: err still carries the failure
        } else {
          r := r.(estimatedBytes := total);
          if p.maxBytes > 0 && total > p.maxBytes {
            r := r.(reasons := r.reasons + [BytesReason(total)]);
          }
        }
      }
    }
    if |r.reasons| > 0 {
      r := r.(verdict := Block);
    }
  }

  method Assess(env: Env, q: Query, p: Policy, stats: Option<StatsFunc>) returns (d: Decision)
    ensures d == Decide(env, stats, q, p)
  {
    hide StripComments, ParseSelectors, VectorDuration, SelectorReasons, RangeReasons, Finish, Estimated, StatsWindow;
    var logql := StripLogQLComments(q.logql);
    var selectors := ParseLogQLSelectors(env.unquote, logql);
    var vecDur := MaxVectorDuration(env.library, logql);
    VectorDurationFits(env.library, logql);
    var rangeReason := CheckRange(q, p, vecDur);
    if |selectors| == 0 {
      if rangeReason.Some? {
        return Decision(Block, [rangeReason.value], None, [], 0, None);
      }
      return Decision(Unknown, [], Some(Unparseable), [], 0, None);
    }
    var raws, reasons := CheckSelectors(env.compile, selectors);
    assert reasons + [] == reasons;
    if rangeReason.Some? {
      reasons := reasons + [rangeReason.value];
    }
    var window := ComputeStatsWindow(q, vecDur, env.now);
    d := CheckBytes(stats, p, window, Decision(Allow, reasons, None, raws, 0, None));
  }

  // ----- what a verdict means

  lemma {:induction false} VerdictShape(env: Env, stats: Option<StatsFunc>, q: Query, p: Policy)
    ensures var d := Decide(env, stats, q, p);
            && (d.reasons != [] <==> d.verdict.Block?)
            && (d.cause.Some? <==> d.verdict.Unknown?)
  {
    hide SelectorsIn, VectorIn, RangeReasons, SelectorReasons, Estimated, BytesReasons;
  }

  ghost predicate AllSelective(compile: Compiler, selectors: seq<Selector>) {
    forall i | 0 <= i < |selectors| :: Selective(compile, selectors[i].matchers)
  }

  lemma {:induction false} NoReasonIffSelective(compile: Compiler, selectors: seq<Selector>)
    ensures SelectorReasons(compile, selectors) == [] <==> AllSelective(compile, selectors)
    ensures selectors == [] ==> AllSelective(compile, selectors)
  {
    if selectors != [] {
      var before := selectors[..|selectors| - 1];
      NoReasonIffSelective(compile, before);
      assert forall i | 0 <= i < |before| :: before[i] == selectors[i];
    }
  }

  ghost predicate WithinCap(q: Query, p: Policy, vecDur: int) {
    p.maxRange > 0 ==> EffectiveRange(q, vecDur) <= p.maxRange
  }

  /** The byte budget is checked: there is one, somebody to ask, and a window to ask about. */
  predicate ByteCheckApplies(env: Env, stats: Option<StatsFunc>, q: Query, p: Policy) {
    stats.Some? && p.maxBytes > 0 && StatsWindow(q, VectorIn(env, q), env.now).Some?
  }

  function Scan(env: Env, stats: Option<StatsFunc>, q: Query, p: Policy): Outcome
    requires ByteCheckApplies(env, stats, q, p)
  {
    SumBytes(Over(stats.value, StatsWindow(q, VectorIn(env, q), env.now).value), Raws(SelectorsIn(env, q)), p.maxBytes)
  }

  ghost predicate StaticOk(env: Env, q: Query, p: Policy) {
    AllSelective(env.compile, SelectorsIn(env, q)) && WithinCap(q, p, VectorIn(env, q))
  }

  /** Exactly when each verdict is given. */
  lemma VerdictExactly(env: Env, stats: Option<StatsFunc>, q: Query, p: Policy)
    ensures var verdict := Decide(env, stats, q, p).verdict;
            var found := SelectorsIn(env, q) != [];
            var applies := ByteCheckApplies(env, stats, q, p);
            && (verdict.Allow? <==>
                  found && StaticOk(env, q, p)
                  && (applies ==> Scan(env, stats, q, p).Total? && Scan(env, stats, q, p).bytes <= p.maxBytes))
            && (verdict.Block? <==>
                  || !WithinCap(q, p, VectorIn(env, q))
                  || !AllSelective(env.compile, SelectorsIn(env, q))
                  || (found && applies && !Scan(env, stats, q, p).Failed? && Scan(env, stats, q, p).bytes > p.maxBytes))
  {
    hide SelectorsIn, VectorIn, SelectorReasons, AllSelective, EffectiveRange, StatsWindow, SumBytes, Raws, Finish;
    NoReasonIffSelective(env.compile, SelectorsIn(env, q));
    var raws, ranges := Raws(SelectorsIn(env, q)), RangeReasons(q, p, VectorIn(env, q));
    var statics := SelectorReasons(env.compile, SelectorsIn(env, q)) + ranges;
    var window := StatsWindow(q, VectorIn(env, q), env.now);
    FinishVerdict(p, raws, statics, Estimated(stats, p, window, statics == [], raws));
    if stats.Some? && window.Some? {
      PartialIsOver(Over(stats.value, window.value), raws, Budget(p));
    }
  }

  lemma FinishVerdict(p: Policy, raws: seq<string>, statics: seq<Reason>, estimate: Option<Outcome>)
    ensures var verdict := Finish(p, raws, statics, estimate).verdict;
            var over := p.maxBytes > 0 && estimate.Some? && !estimate.value.Failed? && estimate.value.bytes > p.maxBytes;
            && (verdict.Block? <==> statics != [] || over)
            && (verdict.Unknown? <==> statics == [] && p.maxBytes > 0 && estimate.Some? && estimate.value.Failed?)
  {
  }

  lemma PartialIsOver(stats: Stats<string>, raws: seq<string>, maxBytes: int)
    ensures SumBytes(stats, raws, maxBytes).Partial? ==> SumBytes(stats, raws, maxBytes).bytes > maxBytes
  {
    hide SumBytes;
    SumMeans(stats, raws, maxBytes, Estimate(stats));
  }

  /** The saturated scan a query really costs, under estimates that agree with every call that succeeds. */
  ghost predicate TrueScan(env: Env, stats: Option<StatsFunc>, q: Query, p: Policy, estimate: string -> int, bytes: int)
    requires ByteCheckApplies(env, stats, q, p)
  {
    && Completes(Over(stats.value, StatsWindow(q, VectorIn(env, q), env.now).value), Raws(SelectorsIn(env, q)), estimate)
    && bytes == Min(Int64.MAX, FullSum(Raws(SelectorsIn(env, q)), estimate))
  }

  /**
   Verdict soundness: what is allowed has only selective selectors, an effective range within a positive
   cap, and a true scan within a positive budget; what is blocked fails one of the three for certain,
   even when a stats call failed.
   */
  lemma {:induction false} VerdictIsSound(env: Env, stats: Option<StatsFunc>, q: Query, p: Policy, estimate: string -> int, bytes: int)
    requires ByteCheckApplies(env, stats, q, p) ==> TrueScan(env, stats, q, p, estimate, bytes)
    ensures var verdict := Decide(env, stats, q, p).verdict;
            var overBudget := ByteCheckApplies(env, stats, q, p) && bytes > p.maxBytes;
            && (verdict.Allow? ==> SelectorsIn(env, q) != [] && StaticOk(env, q, p) && !overBudget)
            && (verdict.Block? ==> !StaticOk(env, q, p) || overBudget)
  {
    hide Decide, StaticOk, SelectorsIn, VectorIn, SumBytes, FullSum, Raws;
    VerdictExactly(env, stats, q, p);
    StaticOkParts(env, q, p);
    if ByteCheckApplies(env, stats, q, p) {
      var window := StatsWindow(q, VectorIn(env, q), env.now).value;
      SumMeans(Over(stats.value, window), Raws(SelectorsIn(env, q)), p.maxBytes, estimate);
    }
  }

  lemma StaticOkParts(env: Env, q: Query, p: Policy)
    ensures StaticOk(env, q, p) <==> AllSelective(env.compile, SelectorsIn(env, q)) && WithinCap(q, p, VectorIn(env, q))
  {
  }

  /** Each limit is raised, kept or disabled; a disabled one stays disabled. */
  predicate Looser(p: Policy, p': Policy) {
    && (p'.maxRange <= 0 || 0 < p.maxRange <= p'.maxRange)
    && (p'.maxBytes <= 0 || 0 < p.maxBytes <= p'.maxBytes)
  }

  /** Raising or disabling a limit never turns an Allow into anything else. */
  lemma LooserPolicyKeepsAllow(env: Env, stats: Option<StatsFunc>, q: Query, p: Policy, p': Policy)
    requires Looser(p, p') && Decide(env, stats, q, p).verdict.Allow?
    ensures Decide(env, stats, q, p').verdict.Allow?
  {
    hide Decide, AllSelective, SelectorsIn, VectorIn, SumBytes, EffectiveRange, Raws;
    VerdictExactly(env, stats, q, p);
    VerdictExactly(env, stats, q, p');
    if ByteCheckApplies(env, stats, q, p') {
      var window := StatsWindow(q, VectorIn(env, q), env.now).value;
      BudgetDoesNotMatter(Over(stats.value, window), Raws(SelectorsIn(env, q)), p.maxBytes, p'.maxBytes);
    }
  }

  lemma BudgetDoesNotMatter(stats: Stats<string>, raws: seq<string>, m1: int, m2: int)
    requires SumBytes(stats, raws, m1).Total?
    ensures SumBytes(stats, raws, m2) == SumBytes(stats, raws, m1)
  {
    BudgetOnlyJudgesFailures(stats, raws, 0, 0, m1, m2);
  }

  /**
   Asking for the estimate of every query changes no verdict and no cause, whatever the stats
   function answers, and only adds reasons at the end.
   */
  lemma {:induction false} EstimateAlwaysIsHarmless(env: Env, stats: Option<StatsFunc>, q: Query, p: Policy)
    ensures var without := Decide(env, stats, q, p.(estimateAlways := false));
            var with := Decide(env, stats, q, p.(estimateAlways := true));
            with.verdict == without.verdict && with.cause == without.cause && without.reasons <= with.reasons
  {
    hide SelectorsIn, VectorIn, SelectorReasons, SumBytes, EffectiveRange, Raws, StatsWindow, Finish;
    var off, on := p.(estimateAlways := false), p.(estimateAlways := true);
    var raws := Raws(SelectorsIn(env, q));
    var ranges := RangeReasons(q, p, VectorIn(env, q));
    assert RangeReasons(q, off, VectorIn(env, q)) == ranges == RangeReasons(q, on, VectorIn(env, q));
    var statics := SelectorReasons(env.compile, SelectorsIn(env, q)) + ranges;
    var window := StatsWindow(q, VectorIn(env, q), env.now);
    FinishBothWays(p, raws, statics, stats, window);
  }

  lemma FinishBothWays(p: Policy, raws: seq<string>, statics: seq<Reason>, stats: Option<StatsFunc>, window: Option<Window>)
    ensures var off, on := p.(estimateAlways := false), p.(estimateAlways := true);
            var without := Finish(off, raws, statics, Estimated(stats, off, window, statics == [], raws));
            var with := Finish(on, raws, statics, Estimated(stats, on, window, statics == [], raws));
            with.verdict == without.verdict && with.cause == without.cause && without.reasons <= with.reasons
  {
    hide SumBytes;
  }

  /** Comments do not matter to the decision. */
  lemma {:induction false} CommentsDoNotMatter(env: Env, stats: Option<StatsFunc>, q: Query, p: Policy)
    ensures Decide(env, stats, q.(logql := StripComments(q.logql)), p) == Decide(env, stats, q, p)
  {
    hide StripComments, ParseSelectors, VectorDuration, SelectorReasons, Finish, Estimated;
    StrippingIsIdempotent(q.logql);
  }
}
