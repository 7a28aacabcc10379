/** What the verdict of the guardrail amounts to for the selectors, the times and the failed estimates of a query. */
module GuardLaws {
  import opened Wrappers
  import Int64
  import opened LogQLLexer
  import opened LogQLMatchers
  import opened LogQLSelectors
  import opened MatcherRoundTrip
  import opened SelectorRoundTrip
  import opened ByteSum
  import opened Guard
  import opened SelectorLaws

  // ----- why a query is blocked

  /** The reason given for a selector that is not selective. */
  predicate IsReasonFor(compile: Compiler, r: Reason, selector: Selector) {
    r == SelectorReason(selector.raw) && !Selective(compile, selector.matchers)
  }

  lemma {:induction false} SelectorReasonsAre(compile: Compiler, selectors: seq<Selector>, r: Reason)
    ensures r in SelectorReasons(compile, selectors) <==> exists s :: s in selectors && IsReasonFor(compile, r, s)
  {
    hide Selective, IsReasonFor;
    if selectors != [] {
      var before, last := selectors[..|selectors| - 1], selectors[|selectors| - 1];
      SelectorReasonsAre(compile, before, r);
      OneReason(compile, last, r);
      assert selectors == before + [last];
    }
  }

  lemma OneReason(compile: Compiler, selector: Selector, r: Reason)
    ensures r in (if Selective(compile, selector.matchers) then [] else [SelectorReason(selector.raw)]) <==> IsReasonFor(compile, r, selector)
  {
    hide Selective;
  }

  function OverBudget(p: Policy, bytes: int): seq<Reason> {
    if 0 < p.maxBytes < bytes then [BytesReason(bytes)] else []
  }

  lemma FinishReasons(p: Policy, raws: seq<string>, statics: seq<Reason>, estimate: Option<Outcome>)
    ensures var d := Finish(p, raws, statics, estimate); d.reasons == statics + OverBudget(p, d.estimatedBytes)
  {
  }

  lemma ReasonsAre(env: Env, stats: Option<StatsFunc>, q: Query, p: Policy)
    ensures var d := Decide(env, stats, q, p);
            d.reasons == SelectorReasons(env.compile, SelectorsIn(env, q)) + RangeReasons(q, p, VectorIn(env, q))
                         + OverBudget(p, d.estimatedBytes)
  {
    hide SelectorsIn, VectorIn, SelectorReasons, RangeReasons, Estimated, StatsWindow, SumBytes, Raws, Finish;
    var selectors, ranges := SelectorsIn(env, q), RangeReasons(q, p, VectorIn(env, q));
    if selectors == [] {
      assert SelectorReasons(env.compile, selectors) == [] by { NoReasonIffSelective(env.compile, selectors); }
      assert [] + ranges + [] == ranges;
    } else {
      var statics := SelectorReasons(env.compile, selectors) + ranges;
      var window := StatsWindow(q, VectorIn(env, q), env.now);
      FinishReasons(p, Raws(selectors), statics, Estimated(stats, p, window, statics == [], Raws(selectors)));
    }
  }

  /** Every reason says what is so, and whatever is so is among the reasons. */
  lemma ReasonsSayWhy(env: Env, stats: Option<StatsFunc>, q: Query, p: Policy, r: Reason)
    ensures var d, selectors := Decide(env, stats, q, p), SelectorsIn(env, q);
            r in d.reasons <==>
            match r
            case SelectorReason(_) => exists s :: s in selectors && IsReasonFor(env.compile, r, s)
            case RangeReason(effective) => 0 < p.maxRange < effective == EffectiveRange(q, VectorIn(env, q))
            case BytesReason(total) => 0 < p.maxBytes < total == d.estimatedBytes
  {
    hide Decide, SelectorsIn, VectorIn, SelectorReasons, Selective, EffectiveRange;
    SelectorReasonsAre(env.compile, SelectorsIn(env, q), r);
    ReasonsAre(env, stats, q, p);
  }

  /** A query with a selector all of whose matchers are idle is blocked, and told so. */
  lemma IdleSelectorIsBlocked(env: Env, stats: Option<StatsFunc>, q: Query, p: Policy, k: nat)
    requires k < |SelectorsIn(env, q)| && forall m | m in SelectorsIn(env, q)[k].matchers :: Idle(env.compile, m)
    ensures var d := Decide(env, stats, q, p);
            d.verdict.Block? && SelectorReason(SelectorsIn(env, q)[k].raw) in d.reasons
  {
    hide Decide, SelectorsIn, Selective, Idle;
    IdleIsNeverSelective(env.compile, SelectorsIn(env, q)[k].matchers);
    assert IsReasonFor(env.compile, SelectorReason(SelectorsIn(env, q)[k].raw), SelectorsIn(env, q)[k]);
    ReasonsSayWhy(env, stats, q, p, SelectorReason(SelectorsIn(env, q)[k].raw));
    VerdictShape(env, stats, q, p);
  }

  /** The same of the text: a first selector written with idle matchers alone gets the query blocked. */
  lemma WrittenIdleSelectorIsBlocked(env: Env, stats: Option<StatsFunc>, q: Query, p: Policy, prefix: string,
                                     ws: seq<Written>, end: string, suffix: string)
    requires GoodList(env.unquote, ws, end) && Quiet(prefix, '{')
    requires StripComments(q.logql) == prefix + ("{" + MatcherRoundTrip.Render(ws, end) + "}") + suffix
    requires forall m | m in MatchersOf(env.unquote, ws) :: Idle(env.compile, m)
    ensures Decide(env, stats, q, p).verdict.Block?
  {
    hide Decide, StripComments, GoodList, Quiet, MatchersOf, ParseSelectors, Idle;
    WrittenSelectorIsFound(env.unquote, prefix, ws, end, suffix);
    IdleSelectorIsBlocked(env, stats, q, p, 0);
  }

  // ----- the times

  /** What an instant query is taken to be about: the end if there is one, else the start, else now. */
  predicate IsInstantOf(at: Time, q: Query, now: Time) {
    at == (if q.end != 0 then q.end else if q.start != 0 then q.start else now)
  }

  /**
   A query that is instant, or lacks a start or an end, has no window of its own: only its vector counts against the
   cap, and the estimate covers the vector up to its instant, or nothing without one. Otherwise the window counts,
   from its start or, with a vector, that much earlier.
   */
  lemma TimesOfQuery(q: Query, p: Policy, vecDur: int, now: Time)
    requires 0 <= vecDur <= Int64.MAX
    ensures q.instant || q.start == 0 || q.end == 0 ==>
              && EffectiveRange(q, vecDur) == vecDur
              && match StatsWindow(q, vecDur, now)
                 case None => vecDur == 0
                 case Some(window) => vecDur > 0 && IsInstantOf(window.to, q, now) && window.from + vecDur == window.to
    ensures !q.instant && q.start != 0 && q.end != 0 ==>
              && StatsWindow(q, vecDur, now) == Some(Window(q.start - vecDur, q.end))
              && (q.end - q.start >= -Int64.MAX - 1 ==> EffectiveRange(q, vecDur) == Min(Int64.MAX, Min(Int64.MAX, q.end - q.start) + vecDur))
    ensures RangeReasons(q, p, vecDur) == [] <==> (0 < p.maxRange ==> EffectiveRange(q, vecDur) <= p.maxRange)
  {
  }

  // ----- the estimate

  /** Somebody is asked: there is a selector, a window and a need. */
  ghost predicate Asks(env: Env, stats: Option<StatsFunc>, q: Query, p: Policy) {
    && stats.Some? && SelectorsIn(env, q) != [] && StatsWindow(q, VectorIn(env, q), env.now).Some?
    && if p.estimateAlways then true else p.maxBytes > 0 && StaticOk(env, q, p)
  }

  /** Nobody is asked when the answer could not matter. */
  lemma NoRoundTrip(env: Env, stats: Option<StatsFunc>, q: Query, p: Policy)
    requires !Asks(env, stats, q, p)
    ensures Decide(env, stats, q, p) == Decide(env, None, q, p)
  {
    hide SelectorsIn, VectorIn, SelectorReasons, AllSelective, EffectiveRange, StatsWindow, SumBytes, Raws;
    NoReasonIffSelective(env.compile, SelectorsIn(env, q));
  }

  /** The selectors are reported, and what was estimated, and the failure, if anybody was asked. */
  lemma EstimateIsReported(env: Env, stats: Option<StatsFunc>, q: Query, p: Policy)
    ensures var d, raws := Decide(env, stats, q, p), Raws(SelectorsIn(env, q));
            && d.selectors == raws
            && if !Asks(env, stats, q, p) then d.estimatedBytes == 0 && d.err == None
               else
                 var budget := if p.maxBytes > 0 then p.maxBytes else Int64.MAX;
                 match SumBytes(Over(stats.value, StatsWindow(q, VectorIn(env, q), env.now).value), raws, budget)
                 case Total(bytes) => d.estimatedBytes == bytes && d.err == None
                 case Partial(bytes, e) => d.estimatedBytes == bytes && d.err == Some(e)
                 case Failed(e) => d.estimatedBytes == 0 && d.err == Some(e)
  {
    hide SelectorsIn, VectorIn, SelectorReasons, AllSelective, EffectiveRange, StatsWindow, SumBytes;
    NoReasonIffSelective(env.compile, SelectorsIn(env, q));
    if SelectorsIn(env, q) == [] {
      assert Raws(SelectorsIn(env, q)) == [];
    }
  }

  /**
   When a call fails, what was answered before decides: within a positive budget the verdict is unknown, and over it
   the query is blocked, unless the budget is the largest number, which a saturated total does not exceed.
   */
  lemma FailureVerdict(env: Env, stats: Option<StatsFunc>, q: Query, p: Policy, estimate: string -> int, k: nat)
    requires ByteCheckApplies(env, stats, q, p) && p.maxBytes <= Int64.MAX && StaticOk(env, q, p)
    requires var calls := Over(stats.value, StatsWindow(q, VectorIn(env, q), env.now).value);
             var raws := Raws(SelectorsIn(env, q));
             FailsFirstAt(calls, raws, k) && Completes(calls, raws, estimate)
    ensures var d, raws := Decide(env, stats, q, p), Raws(SelectorsIn(env, q));
            var known := SeenSum(raws, estimate, ByteSum.Elements(raws[..k]));
            if known <= p.maxBytes then d.verdict.Unknown? && d.cause == Some(EstimateFailed)
            else
              && d.estimatedBytes == Min(Int64.MAX, known)
              && (p.maxBytes < Int64.MAX ==> d.verdict.Block?) && (p.maxBytes == Int64.MAX ==> d.verdict.Allow?)
  {
    hide Decide, SelectorsIn, VectorIn, StaticOk, StatsWindow, SumBytes, SeenSum, Raws;
    var calls := Over(stats.value, StatsWindow(q, VectorIn(env, q), env.now).value);
    assert SelectorsIn(env, q) != [] by { NoCallsWithoutSelectors(SelectorsIn(env, q), k); }
    FailureMeans(calls, Raws(SelectorsIn(env, q)), p.maxBytes, estimate, k);
    VerdictExactly(env, stats, q, p);
    StaticOkParts(env, q, p);
    EstimateIsReported(env, stats, q, p);
    UnknownCause(env, stats, q, p);
  }

  /**
   A sum that overflows is held to be over any budget. It is, and the query is blocked, exactly when the budget is not
   the largest number itself, to which the sum is saturated.
   */
  lemma OverflowIsBlockedIff(env: Env, stats: Option<StatsFunc>, q: Query, p: Policy)
    requires ByteCheckApplies(env, stats, q, p) && p.maxBytes <= Int64.MAX && StaticOk(env, q, p) && SelectorsIn(env, q) != []
    requires var calls := Over(stats.value, StatsWindow(q, VectorIn(env, q), env.now).value);
             var raws := Raws(SelectorsIn(env, q));
             (forall i | 0 <= i < |raws| :: calls(raws[i]).Ok?) && FullSum(raws, Estimate(calls)) > Int64.MAX
    ensures if p.maxBytes < Int64.MAX then Decide(env, stats, q, p).verdict.Block? else Decide(env, stats, q, p).verdict.Allow?
  {
    hide Decide, SelectorsIn, VectorIn, StaticOk, StatsWindow, SumBytes, FullSum, Raws;
    var calls := Over(stats.value, StatsWindow(q, VectorIn(env, q), env.now).value);
    AllCallsSucceed(calls, Raws(SelectorsIn(env, q)), p.maxBytes);
    VerdictExactly(env, stats, q, p);
    StaticOkParts(env, q, p);
  }

  lemma NoCallsWithoutSelectors(selectors: seq<Selector>, k: nat)
    requires k < |Raws(selectors)|
    ensures selectors != []
  {
  }

  /** The verdict is unknown for want of a selector, or else of an estimate. */
  lemma UnknownCause(env: Env, stats: Option<StatsFunc>, q: Query, p: Policy)
    ensures var d := Decide(env, stats, q, p);
            d.verdict.Unknown? ==> d.cause == Some(if SelectorsIn(env, q) == [] then Unparseable else EstimateFailed)
  {
    hide SelectorsIn, VectorIn, SelectorReasons, EffectiveRange, StatsWindow, SumBytes, Raws;
  }
}
