/**
 Every create comes to an end: a thread has at most seven steps to take, so a run to which no request is added
 stops, and it can only stop with all threads finished and the gate map empty.
 */
module GateProgress {
  import opened ExternalConfig
  import opened CreateMachine
  import opened GateInvariant
  import opened GateSafety
  import opened Totals

  const MOST_STEPS := 7

  /** How many steps a thread can still take. */
  function StepsLeft(pc: Pc): (n: nat)
    ensures n <= MOST_STEPS
  {
    match pc
    case Arriving => 7
    case At(_, Waiting) => 6
    case At(_, Sent) => 5
    case At(_, Reading) => 4
    case At(_, Writing(_)) => 3
    case At(_, Unlocking(_)) => 2
    case At(_, Releasing(_)) => 1
    case Finished(_) => 0
  }

  ghost function Weights(threads: map<nat, Thread>): map<nat, nat> {
    map t | t in threads :: StepsLeft(threads[t].pc)
  }

  ghost function Left(s: State): nat {
    Total(Weights(s.threads))
  }

  /** What one step changes for its thread: its steps get fewer, but for a cancellation. */
  ghost predicate Lowers(before: map<nat, Thread>, after: map<nat, Thread>, t: nat, action: Action) {
    && t in before && t in after && after == before[t := after[t]]
    && StepsLeft(after[t].pc) + (if action.Cancel? then 0 else 1) <= StepsLeft(before[t].pc)
  }

  lemma StepLowers(parse: DurationParser, s: State, t: nat, action: Action)
    requires Enabled(s, t, action) && !action.Spawn?
    ensures Lowers(s.threads, Apply(parse, s, t, action).threads, t, action)
  {
    hide Plan, KeyOf, Lookup;
  }

  lemma LowerTotal(before: map<nat, Thread>, after: map<nat, Thread>, t: nat, action: Action)
    requires Lowers(before, after, t, action)
    ensures Total(Weights(after)) + (if action.Cancel? then 0 else 1) <= Total(Weights(before)) && after.Keys == before.Keys
  {
    hide StepsLeft;
    TotalUpdate(Weights(before), t, StepsLeft(after[t].pc));
    assert Weights(after) == Weights(before)[t := StepsLeft(after[t].pc)];
  }

  /** The steps of a run, cancellations aside. */
  function Work(run: seq<(nat, Action)>): nat {
    if run == [] then 0 else Work(run[..|run| - 1]) + if run[|run| - 1].1.Cancel? then 0 else 1
  }

  predicate NoArrivals(run: seq<(nat, Action)>) {
    forall i | 0 <= i < |run| :: !run[i].1.Spawn?
  }

  lemma {:induction false} WorkLowers(parse: DurationParser, store: map<WriteKey, Json>, run: seq<(nat, Action)>, more: seq<(nat, Action)>)
    requires Run(parse, store, run + more).Some? && NoArrivals(more)
    ensures Run(parse, store, run).Some?
    ensures var s, s' := Run(parse, store, run).value, Run(parse, store, run + more).value;
            Work(more) + Left(s') <= Left(s) && s'.threads.Keys == s.threads.Keys
    decreases |more|
  {
    hide Apply, Enabled, Left, Lowers;
    if more == [] {
      assert run + more == run;
    } else {
      var last := |more| - 1;
      assert (run + more)[..|run + more| - 1] == run + more[..last] && (run + more)[|run + more| - 1] == more[last];
      WorkLowers(parse, store, run, more[..last]);
      LastStepLowers(parse, Run(parse, store, run + more[..last]).value, more[last].0, more[last].1);
    }
  }

  lemma LastStepLowers(parse: DurationParser, s: State, t: nat, action: Action)
    requires Enabled(s, t, action) && !action.Spawn?
    ensures var s' := Apply(parse, s, t, action);
            Left(s') + (if action.Cancel? then 0 else 1) <= Left(s) && s'.threads.Keys == s.threads.Keys
  {
    hide Apply, Lowers;
    StepLowers(parse, s, t, action);
    LowerTotal(s.threads, Apply(parse, s, t, action).threads, t, action);
  }

  lemma LeftAtMost(s: State)
    ensures Left(s) <= MOST_STEPS * |s.threads|
  {
    TotalAtMost(Weights(s.threads), MOST_STEPS);
    assert Weights(s.threads).Keys == s.threads.Keys;
  }

  /** Nothing can happen but new requests and cancellations. */
  ghost predicate AtRest(s: State) {
    forall t, action: Action :: Enabled(s, t, action) ==> action.Spawn? || action.Cancel?
  }

  /**
   Without new requests a run takes at most seven steps a thread, however they interleave and whatever is
   cancelled, and where it can go no further every thread is finished and the gate map is empty.
   */
  lemma {:induction false} EveryRunEnds(parse: DurationParser, store: map<WriteKey, Json>, run: seq<(nat, Action)>, more: seq<(nat, Action)>)
    requires Run(parse, store, run + more).Some? && NoArrivals(more)
    ensures Run(parse, store, run).Some? && Work(more) <= MOST_STEPS * |Run(parse, store, run).value.threads|
    ensures var s' := Run(parse, store, run + more).value; AtRest(s') ==> AllFinished(s') && s'.table.gates == map[]
  {
    hide Enabled, Left;
    WorkLowers(parse, store, run, more);
    LeftAtMost(Run(parse, store, run).value);
    RestIsTheEnd(parse, store, run + more);
  }

  lemma {:induction false} RestIsTheEnd(parse: DurationParser, store: map<WriteKey, Json>, run: seq<(nat, Action)>)
    requires Run(parse, store, run).Some?
    ensures var s := Run(parse, store, run).value; AtRest(s) ==> AllFinished(s) && s.table.gates == map[]
  {
    hide Enabled, Run, Counted, ListedIffUsed, UnlockNeverWaits, ReleaseFindsOwnEntry;
    EveryRunIsSafe(parse, store, run);
    if !AllFinished(Run(parse, store, run).value) {
      NoDeadlock(parse, store, run);
    }
  }
}
