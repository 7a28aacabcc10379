/**
 Every request for a client comes to an end: it has at most six steps to take, so a run to which no request is added
 stops, and it can only stop with every request answered and no flight open.
 */
module CacheProgress {
  import opened CacheMachine
  import opened CacheInvariant
  import opened CacheSafety
  import opened Totals

  const MOST_STEPS := 6

  /** How many steps a request can still take. */
  function StepsLeft<K>(pc: Pc<K>): (n: nat)
    ensures n <= MOST_STEPS
  {
    match pc
    case Arriving => 6
    case Missed => 5
    case Leading => 4
    case Creating => 3
    case Storing(_) => 2
    case Finishing(_) => 1
    case Waiting(_) => 1
    case Done(_) => 0
  }

  ghost function Weights<K>(threads: map<nat, Thread<K>>): map<nat, nat> {
    map t | t in threads :: StepsLeft(threads[t].pc)
  }

  ghost function Left<K, S>(s: State<K, S>): nat {
    Total(Weights(s.threads))
  }

  /** What one step changes: its request's steps get fewer; emptying the cache touches no request. */
  ghost predicate Lowers<K>(before: map<nat, Thread<K>>, after: map<nat, Thread<K>>, t: nat, action: Action<K>) {
    if action.Purge? then after == before
    else t in before && t in after && after == before[t := after[t]] && StepsLeft(after[t].pc) < StepsLeft(before[t].pc)
  }

  lemma StoreThreads<K, S>(cfg: Config<K, S>, s: State<K, S>, t: nat)
    requires cfg.max > 0 && t in s.threads && s.threads[t].pc.Storing?
    ensures ApplyStore(cfg, s, t).threads == s.threads[t := s.threads[t].(pc := Finishing(s.threads[t].pc.client))]
  {
  }

  lemma StepLowers<K, S>(cfg: Config<K, S>, s: State<K, S>, t: nat, action: Action<K>)
    requires cfg.max > 0 && Enabled(s, t, action) && !action.Spawn?
    ensures Lowers(s.threads, Apply(cfg, s, t, action).threads, t, action)
  {
    hide LookUp, ApplyStore, KeysOf;
    match action
    case Store => StoreThreads(cfg, s, t);
    case Lookup => LookUpMoves(s, t, client => Done(client), Missed);
    case DoubleCheck => LookUpMoves(s, t, client => Finishing(client), Creating);
    case _ =>
  }

  lemma LowerTotal<K>(before: map<nat, Thread<K>>, after: map<nat, Thread<K>>, t: nat, action: Action<K>)
    requires Lowers(before, after, t, action)
    ensures Total(Weights(after)) + (if action.Purge? then 0 else 1) <= Total(Weights(before)) && after.Keys == before.Keys
  {
    hide StepsLeft;
    if !action.Purge? {
      TotalUpdate(Weights(before), t, StepsLeft(after[t].pc));
      assert Weights(after) == Weights(before)[t := StepsLeft(after[t].pc)];
    }
  }

  /** The steps of a run, purges aside. */
  function Work<K>(run: seq<(nat, Action<K>)>): nat {
    if run == [] then 0 else Work(run[..|run| - 1]) + if run[|run| - 1].1.Purge? then 0 else 1
  }

  predicate NoArrivals<K>(run: seq<(nat, Action<K>)>) {
    forall i | 0 <= i < |run| :: !run[i].1.Spawn?
  }

  lemma {:induction false} WorkLowers<K, S>(cfg: Config<K, S>, run: seq<(nat, Action<K>)>, more: seq<(nat, Action<K>)>)
    requires cfg.max > 0 && Run(cfg, run + more).Some? && NoArrivals(more)
    ensures Run(cfg, run).Some?
    ensures var s, s' := Run(cfg, run).value, Run(cfg, run + more).value;
            Work(more) + Left(s') <= Left(s) && s'.threads.Keys == s.threads.Keys
    decreases |more|
  {
    hide Apply, Enabled, Left, Lowers;
    if more == [] {
      assert run + more == run;
    } else {
      var last := |more| - 1;
      assert (run + more)[..|run + more| - 1] == run + more[..last] && (run + more)[|run + more| - 1] == more[last];
      WorkLowers(cfg, run, more[..last]);
      LastStepLowers(cfg, Run(cfg, run + more[..last]).value, more[last].0, more[last].1);
    }
  }

  lemma LastStepLowers<K, S>(cfg: Config<K, S>, s: State<K, S>, t: nat, action: Action<K>)
    requires cfg.max > 0 && Enabled(s, t, action) && !action.Spawn?
    ensures var s' := Apply(cfg, s, t, action);
            Left(s') + (if action.Purge? then 0 else 1) <= Left(s) && s'.threads.Keys == s.threads.Keys
  {
    hide Apply, Lowers;
    StepLowers(cfg, s, t, action);
    LowerTotal(s.threads, Apply(cfg, s, t, action).threads, t, action);
  }

  lemma LeftAtMost<K, S>(s: State<K, S>)
    ensures Left(s) <= MOST_STEPS * |s.threads|
  {
    TotalAtMost(Weights(s.threads), MOST_STEPS);
    assert Weights(s.threads).Keys == s.threads.Keys;
  }

  ghost predicate AllDone<K, S>(s: State<K, S>) {
    forall t | t in s.threads :: s.threads[t].pc.Done?
  }

  /**
   Without new requests a run takes at most six steps a request, however they interleave and whenever the cache is emptied,
   and where no request can take another step every one is answered and no flight is open.
   */
  lemma {:induction false} EveryRunEnds<K(!new), S>(cfg: Config<K, S>, run: seq<(nat, Action<K>)>, more: seq<(nat, Action<K>)>)
    requires cfg.max > 0 && Run(cfg, run + more).Some? && NoArrivals(more)
    ensures Run(cfg, run).Some? && Work(more) <= MOST_STEPS * |Run(cfg, run).value.threads|
    ensures var s' := Run(cfg, run + more).value; (forall t :: !CanMove(s', t)) ==> AllDone(s') && s'.flights == map[]
  {
    hide Left, CanMove;
    WorkLowers(cfg, run, more);
    LeftAtMost(Run(cfg, run).value);
    RestIsTheEnd(cfg, run + more);
  }

  lemma {:induction false} RestIsTheEnd<K(!new), S>(cfg: Config<K, S>, run: seq<(nat, Action<K>)>)
    requires cfg.max > 0 && Run(cfg, run).Some?
    ensures var s := Run(cfg, run).value; (forall t :: !CanMove(s, t)) ==> AllDone(s) && s.flights == map[]
  {
    hide Run, CanMove, FlightInv, CacheInv, ClientInv;
    var s := Run(cfg, run).value;
    RunKeepsInvariant(cfg, run);
    if !AllDone(s) {
      var t :| t in s.threads && !s.threads[t].pc.Done?;
      NobodyIsStuck(cfg, run, t);
    } else {
      NoFlightIsOpen(cfg, s);
    }
  }

  lemma NoFlightIsOpen<K, S>(cfg: Config<K, S>, s: State<K, S>)
    requires FlightInv(cfg, s) && AllDone(s)
    ensures s.flights == map[]
  {
    if s.flights != map[] {
      SomeLeader(cfg, s);
    }
  }

  lemma SomeLeader<K, S>(cfg: Config<K, S>, s: State<K, S>)
    requires FlightInv(cfg, s) && s.flights != map[]
    ensures !AllDone(s)
  {
    var f :| f in s.flights;
    var leader := s.flights[f];
    assert leader in s.threads && Leads(s.threads[leader].pc);
  }
}
