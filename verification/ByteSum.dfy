/** The byte estimate of a query, summed over its stream selectors with saturation. */
module ByteSum {
  import opened Wrappers
  import Int64

  /** An index/stats call on one selector: an estimate, or the error text. */
  type Stats<!S> = S -> Result<int, string>

  /** What the sum amounts to; a partial total is one that was over the budget when a call failed. */
  datatype Outcome =
    | Total(bytes: int)
    | Partial(bytes: int, err: string)
    | Failed(err: string)

  /** A negative estimate counts for nothing. */
  function Cost(estimate: int): nat {
    if estimate < 0 then 0 else estimate
  }

  function Count<S(==)>(raws: seq<S>, raw: S): nat {
    if raws == [] then 0
    else Count(raws[..|raws| - 1], raw) + if raws[|raws| - 1] == raw then 1 else 0
  }

  /** Every occurrence of every selector counts. */
  function FullSum<S>(raws: seq<S>, estimate: S -> int): nat {
    if raws == [] then 0
    else FullSum(raws[..|raws| - 1], estimate) + Cost(estimate(raws[|raws| - 1]))
  }

  function Min(a: int, b: int): int {
    if a < b then a else b
  }

  /** The sum from selector i on, given the total so far; each selector is asked about where it first occurs. */
  function SumFrom<S(==)>(stats: Stats<S>, raws: seq<S>, i: nat, total: nat, maxBytes: int): Outcome
    requires i <= |raws|
    decreases |raws| - i
  {
    if i == |raws| then Total(total)
    else if raws[i] in raws[..i] then SumFrom(stats, raws, i + 1, total, maxBytes)
    else match stats(raws[i])
      case Err(e) => if total > maxBytes then Partial(total, e) else Failed(e)
      case Ok(estimate) =>
        var sum := total + Count(raws, raws[i]) * Cost(estimate);
        if sum > Int64.MAX then Total(Int64.MAX) else SumFrom(stats, raws, i + 1, sum, maxBytes)
  }

  function SumBytes<S(==)>(stats: Stats<S>, raws: seq<S>, maxBytes: int): Outcome {
    SumFrom(stats, raws, 0, 0, maxBytes)
  }

  // ----- the loop as it runs, in 64-bit arithmetic

  lemma CountIsPositive<S>(raws: seq<S>, k: nat)
    requires k < |raws|
    ensures Count(raws, raws[k]) > 0
  {
    if k < |raws| - 1 {
      CountIsPositive(raws[..|raws| - 1], k);
    }
  }

  method CountSelectors<S(==)>(raws: seq<S>) returns (counts: map<S, int>)
    ensures forall raw | raw in raws :: raw in counts && counts[raw] == Count(raws, raw)
  {
    counts := map[];
    var i := 0;
    while i < |raws|
      invariant i <= |raws|
      invariant forall raw | raw in counts :: counts[raw] == Count(raws[..i], raw)
      invariant forall raw | raw !in counts :: Count(raws[..i], raw) == 0
    {
      assert raws[..i + 1][..i] == raws[..i];
      counts := counts[raws[i] := (if raws[i] in counts then counts[raws[i]] else 0) + 1];
      i := i + 1;
    }
    assert raws[..i] == raws;
    forall raw | raw in raws
      ensures raw in counts
    {
      var k :| 0 <= k < |raws| && raws[k] == raw;
      CountIsPositive(raws, k);
    }
  }

  /** The two overflow tests on one estimate: saturate exactly when the true sum does not fit. */
  method AddSaturating(total: int, estimate: int, count: int) returns (sum: int, over: bool)
    requires 0 <= total <= Int64.MAX && count > 0
    ensures over <==> total + count * Cost(estimate) > Int64.MAX
    ensures !over ==> sum == total + count * Cost(estimate)
  {
    var b := estimate;
    if b < 0 {
      b := 0;
    }
    Int64.DivisionTest(b, count);
    if b > 0 && b > Int64.MAX / count {
      return Int64.MAX, true;
    }
    assert b * count == count * b >= 0;
    Int64.SumOverflow(total, b * count);
    sum := Int64.Wrap(total + b * count);
    return sum, sum < 0;
  }

  ghost predicate Distinct<S>(calls: seq<S>) {
    forall i, j | 0 <= i < j < |calls| :: calls[i] != calls[j]
  }

  /** How the three results of the sum stand for its outcome. */
  predicate Reports(outcome: Outcome, total: int, ok: bool, err: Option<string>) {
    match outcome
    case Total(bytes) => ok && total == bytes && err == None
    case Partial(bytes, e) => ok && total == bytes && err == Some(e)
    case Failed(e) => !ok && total == 0 && err == Some(e)
  }

  /** sumSelectorBytes; calls are the selectors asked about, in order. */
  method SumSelectorBytes<S(==)>(stats: Stats<S>, raws: seq<S>, maxBytes: int)
    returns (total: int, ok: bool, err: Option<string>, ghost calls: seq<S>)
    ensures Reports(SumBytes(stats, raws, maxBytes), total, ok, err)
    ensures Distinct(calls) && forall call | call in calls :: call in raws
  {
    var counts := CountSelectors(raws);
    var seen: set<S> := {};
    total, calls := 0, [];
    var i := 0;
    while i < |raws|
      invariant i <= |raws| && 0 <= total <= Int64.MAX
      invariant forall raw :: raw in seen <==> raw in raws[..i]
      invariant SumBytes(stats, raws, maxBytes) == SumFrom(stats, raws, i, total, maxBytes)
      invariant Distinct(calls) && forall raw :: raw in calls <==> raw in seen
      decreases |raws| - i
    {
      var raw := raws[i];
      assert raws[..i + 1] == raws[..i] + [raw];
      if raw !in seen {
        seen := seen + {raw};
        calls := calls + [raw];
        match stats(raw)
        case Err(e) =>
          if total > maxBytes {
            return total, true, Some(e), calls;
          }
          return 0, false, Some(e), calls;
        case Ok(estimate) =>
          CountIsPositive(raws, i);
          var sum, over := AddSaturating(total, estimate, counts[raw]);
          if over {
            return Int64.MAX, true, None, calls;
          }
          total := sum;
      }
      i := i + 1;
    }
    return total, true, None, calls;
  }

  // ----- what the sum means

  function Elements<S>(raws: seq<S>): set<S> {
    set raw | raw in raws
  }

  /** The part of the full sum that falls on the selectors in seen. */
  ghost function SeenSum<S>(raws: seq<S>, estimate: S -> int, seen: set<S>): nat {
    if raws == [] then 0
    else
      var last := raws[|raws| - 1];
      SeenSum(raws[..|raws| - 1], estimate, seen) + if last in seen then Cost(estimate(last)) else 0
  }

  lemma {:induction false} SeenOneMore<S>(raws: seq<S>, estimate: S -> int, seen: set<S>, raw: S)
    requires raw !in seen
    ensures SeenSum(raws, estimate, seen + {raw}) ==
            SeenSum(raws, estimate, seen) + Count(raws, raw) * Cost(estimate(raw))
  {
    if raws != [] {
      var before := raws[..|raws| - 1];
      SeenOneMore(before, estimate, seen, raw);
      if raws[|raws| - 1] == raw {
        var n, cost := Count(before, raw), Cost(estimate(raw));
        assert (n + 1) * cost == n * cost + cost;
      }
    }
  }

  lemma {:induction false} SeenIsPartOfAll<S>(raws: seq<S>, estimate: S -> int, seen: set<S>)
    ensures SeenSum(raws, estimate, seen) <= FullSum(raws, estimate)
    ensures Elements(raws) <= seen ==> SeenSum(raws, estimate, seen) == FullSum(raws, estimate)
    ensures seen == {} ==> SeenSum(raws, estimate, seen) == 0
  {
    if raws != [] {
      SeenIsPartOfAll(raws[..|raws| - 1], estimate, seen);
      assert Elements(raws) == Elements(raws[..|raws| - 1]) + {raws[|raws| - 1]};
    }
  }

  /** Estimates that agree with every call that succeeds, whatever they say where a call fails. */
  ghost predicate Completes<S>(stats: Stats<S>, raws: seq<S>, estimate: S -> int) {
    forall i | 0 <= i < |raws| && stats(raws[i]).Ok? :: estimate(raws[i]) == stats(raws[i]).value
  }

  ghost predicate SomeCallFails<S>(stats: Stats<S>, raws: seq<S>, err: string) {
    exists i :: 0 <= i < |raws| && stats(raws[i]) == Err(err)
  }

  ghost predicate OutcomeMeans<S(!new)>(outcome: Outcome, stats: Stats<S>, raws: seq<S>, maxBytes: int, estimate: S -> int) {
    var full := Min(Int64.MAX, FullSum(raws, estimate));
    match outcome
    case Total(bytes) => bytes == full
    case Partial(bytes, err) => maxBytes < bytes <= full && SomeCallFails(stats, raws, err)
    case Failed(err) => SomeCallFails(stats, raws, err)
  }

  lemma {:induction false} SumFromMeans<S(!new)>(stats: Stats<S>, raws: seq<S>, i: nat, total: nat, maxBytes: int, estimate: S -> int)
    requires i <= |raws| && Completes(stats, raws, estimate)
    requires total == SeenSum(raws, estimate, Elements(raws[..i])) && total <= Int64.MAX
    ensures OutcomeMeans(SumFrom(stats, raws, i, total, maxBytes), stats, raws, maxBytes, estimate)
    decreases |raws| - i
  {
    hide SeenSum, FullSum, Count;
    SeenIsPartOfAll(raws, estimate, Elements(raws[..i]));
    if i == |raws| {
      assert raws[..i] == raws;
    } else {
      var raw := raws[i];
      assert raws[..i + 1] == raws[..i] + [raw];
      if raw in raws[..i] {
        assert Elements(raws[..i + 1]) == Elements(raws[..i]);
        SumFromMeans(stats, raws, i + 1, total, maxBytes, estimate);
      } else if stats(raw).Ok? {
        assert Elements(raws[..i + 1]) == Elements(raws[..i]) + {raw};
        SeenOneMore(raws, estimate, Elements(raws[..i]), raw);
        var sum := total + Count(raws, raw) * Cost(estimate(raw));
        SeenIsPartOfAll(raws, estimate, Elements(raws[..i + 1]));
        if sum <= Int64.MAX {
          SumFromMeans(stats, raws, i + 1, sum, maxBytes, estimate);
        }
      }
    }
  }

  /**
   A total is the saturated sum over all occurrences, whatever the calls it did not need would have said;
   a partial total is over the budget and no more than any full total.
   */
  lemma SumMeans<S(!new)>(stats: Stats<S>, raws: seq<S>, maxBytes: int, estimate: S -> int)
    requires Completes(stats, raws, estimate)
    ensures OutcomeMeans(SumBytes(stats, raws, maxBytes), stats, raws, maxBytes, estimate)
  {
    assert Elements(raws[..0]) == {};
    SeenIsPartOfAll(raws, estimate, {});
    SumFromMeans(stats, raws, 0, 0, maxBytes, estimate);
  }

  function Estimate<S>(stats: Stats<S>): S -> int {
    raw => match stats(raw) case Ok(estimate) => estimate case Err(_) => 0
  }

  /** With every call succeeding, the result is the saturated sum over all occurrences. */
  lemma AllCallsSucceed<S(!new)>(stats: Stats<S>, raws: seq<S>, maxBytes: int)
    requires forall i | 0 <= i < |raws| :: stats(raws[i]).Ok?
    ensures SumBytes(stats, raws, maxBytes) == Total(Min(Int64.MAX, FullSum(raws, Estimate(stats))))
  {
    SumMeans(stats, raws, maxBytes, Estimate(stats));
  }

  /** The budget decides only what becomes of a failed call. */
  lemma {:induction false} BudgetOnlyJudgesFailures<S>(stats: Stats<S>, raws: seq<S>, i: nat, total: nat, m1: int, m2: int)
    requires i <= |raws|
    ensures SumFrom(stats, raws, i, total, m1).Total? <==> SumFrom(stats, raws, i, total, m2).Total?
    ensures SumFrom(stats, raws, i, total, m1).Total? ==>
              SumFrom(stats, raws, i, total, m1) == SumFrom(stats, raws, i, total, m2)
    decreases |raws| - i
  {
    if i < |raws| {
      if raws[i] in raws[..i] {
        BudgetOnlyJudgesFailures(stats, raws, i + 1, total, m1, m2);
      } else if stats(raws[i]).Ok? {
        BudgetOnlyJudgesFailures(stats, raws, i + 1, total + Count(raws, raws[i]) * Cost(stats(raws[i]).value), m1, m2);
      }
    }
  }

  // ----- a call that fails

  lemma {:induction false} SeenGrows<S>(raws: seq<S>, estimate: S -> int, some: set<S>, more: set<S>)
    requires some <= more
    ensures SeenSum(raws, estimate, some) <= SeenSum(raws, estimate, more)
  {
    if raws != [] {
      SeenGrows(raws[..|raws| - 1], estimate, some, more);
    }
  }

  /** What the calls before the first failure, at place k, have told. */
  ghost predicate FailsFirstAt<S>(stats: Stats<S>, raws: seq<S>, k: nat) {
    k < |raws| && stats(raws[k]).Err? && forall i | 0 <= i < k :: stats(raws[i]).Ok?
  }

  /** The outcome when everything answered before the failure amounts to known bytes. */
  function AfterFailure(known: nat, maxBytes: int, err: string): Outcome {
    if known > Int64.MAX then Total(Int64.MAX) else if known > maxBytes then Partial(known, err) else Failed(err)
  }

  lemma {:induction false} FailureFrom<S(!new)>(stats: Stats<S>, raws: seq<S>, i: nat, total: nat, maxBytes: int, estimate: S -> int, k: nat)
    requires FailsFirstAt(stats, raws, k) && i <= k && Completes(stats, raws, estimate)
    requires total == SeenSum(raws, estimate, Elements(raws[..i])) && total <= Int64.MAX
    ensures SumFrom(stats, raws, i, total, maxBytes) ==
            AfterFailure(SeenSum(raws, estimate, Elements(raws[..k])), maxBytes, stats(raws[k]).error)
    decreases |raws| - i
  {
    hide SeenSum, Count;
    if i < k {
      var raw := raws[i];
      assert raws[..i + 1] == raws[..i] + [raw];
      if raw in raws[..i] {
        assert Elements(raws[..i + 1]) == Elements(raws[..i]);
        FailureFrom(stats, raws, i + 1, total, maxBytes, estimate, k);
      } else {
        assert Elements(raws[..i + 1]) == Elements(raws[..i]) + {raw};
        SeenOneMore(raws, estimate, Elements(raws[..i]), raw);
        var sum := total + Count(raws, raw) * Cost(estimate(raw));
        if sum > Int64.MAX {
          PrefixElements(raws, i + 1, k);
          SeenGrows(raws, estimate, Elements(raws[..i + 1]), Elements(raws[..k]));
        } else {
          FailureFrom(stats, raws, i + 1, sum, maxBytes, estimate, k);
        }
      }
    } else {
      FirstFailureIsNew(stats, raws, k);
    }
  }

  lemma PrefixElements<S>(raws: seq<S>, i: nat, k: nat)
    requires i <= k <= |raws|
    ensures Elements(raws[..i]) <= Elements(raws[..k])
  {
    forall raw | raw in Elements(raws[..i])
      ensures raw in Elements(raws[..k])
    {
      var n :| 0 <= n < i && raws[n] == raw;
      assert raws[..k][n] == raw;
    }
  }

  lemma FirstFailureIsNew<S>(stats: Stats<S>, raws: seq<S>, k: nat)
    requires FailsFirstAt(stats, raws, k)
    ensures raws[k] !in raws[..k]
  {
  }

  /**
   What a failure leaves: with everything asked before it counted at all its occurrences, the saturated total if that
   overflows, a partial total if it is over the budget, and otherwise the failure alone.
   */
  lemma FailureMeans<S(!new)>(stats: Stats<S>, raws: seq<S>, maxBytes: int, estimate: S -> int, k: nat)
    requires FailsFirstAt(stats, raws, k) && Completes(stats, raws, estimate)
    ensures SumBytes(stats, raws, maxBytes) ==
            AfterFailure(SeenSum(raws, estimate, Elements(raws[..k])), maxBytes, stats(raws[k]).error)
  {
    assert Elements(raws[..0]) == {};
    SeenIsPartOfAll(raws, estimate, {});
    FailureFrom(stats, raws, 0, 0, maxBytes, estimate, k);
  }

  /** In particular it stays a plain failure exactly when what is known is within the budget. */
  lemma FailedIff<S(!new)>(stats: Stats<S>, raws: seq<S>, maxBytes: int, estimate: S -> int, k: nat)
    requires FailsFirstAt(stats, raws, k) && Completes(stats, raws, estimate) && maxBytes <= Int64.MAX
    ensures SumBytes(stats, raws, maxBytes).Failed? <==> SeenSum(raws, estimate, Elements(raws[..k])) <= maxBytes
  {
    FailureMeans(stats, raws, maxBytes, estimate, k);
  }

  /** The full sum is a sum: of nothing zero, of one selector its estimate unless that is negative, and it adds up. */
  lemma {:induction false} FullSumAdds<S>(a: seq<S>, b: seq<S>, raw: S, estimate: S -> int)
    ensures FullSum([], estimate) == 0
    ensures FullSum([raw], estimate) == if estimate(raw) > 0 then estimate(raw) else 0
    ensures FullSum(a + b, estimate) == FullSum(a, estimate) + FullSum(b, estimate)
  {
    assert [raw][..0] == [];
    if b == [] {
      assert a + b == a;
    } else {
      assert (a + b)[..|a + b| - 1] == a + b[..|b| - 1];
      FullSumAdds(a, b[..|b| - 1], raw, estimate);
    }
  }
}
