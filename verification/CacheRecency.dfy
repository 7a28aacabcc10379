/** What a client just used is good for, and where a nil can come from, in every run of the cache. */
module CacheRecency {
  import opened Wrappers
  import opened Lru
  import opened CacheMachine
  import opened CacheInvariant
  import opened CacheSafety

  /** The steps that look a key up or add one, and so may cost other keys a place. */
  function Uses<K>(run: seq<(nat, Action<K>)>): nat {
    if run == [] then 0
    else
      var action := run[|run| - 1].1;
      Uses(run[..|run| - 1]) + if action.Lookup? || action.DoubleCheck? || action.Store? then 1 else 0
  }

  predicate NoPurge<K>(run: seq<(nat, Action<K>)>) {
    forall i | 0 <= i < |run| :: !run[i].1.Purge?
  }

  lemma StepKeepsRecent<K(!new), S>(cfg: Config<K, S>, s: State<K, S>, t: nat, action: Action<K>, key: K, n: nat)
    requires cfg.max > 0 && CacheInv(cfg, s) && Enabled(s, t, action) && !action.Purge?
    requires Recent(s.entries, key, n) && n + 1 < cfg.max
    ensures var uses := action.Lookup? || action.DoubleCheck? || action.Store?;
            Recent(Apply(cfg, s, t, action).entries, key, if uses then n + 1 else n)
  {
    hide LookUp, Conserved, Add, Recent, Find, Touch;
    match action
    case Lookup =>
      LookUpMoves(s, t, client => Done(client), Missed);
      EitherWayRecent(s.entries, key, s.threads[t].key, n);
    case DoubleCheck =>
      LookUpMoves(s, t, client => Finishing(client), Creating);
      EitherWayRecent(s.entries, key, s.threads[t].key, n);
    case Store => AddKeepsRecent(s.entries, cfg.max, key, s.threads[t].key, s.threads[t].pc.client, n);
    case _ =>
  }

  lemma EitherWayRecent<K, V>(entries: Entries<K, V>, key: K, other: K, n: nat)
    requires DistinctKeys(entries) && Recent(entries, key, n)
    ensures Recent(entries, key, n + 1) && Recent(Touch(entries, other), key, n + 1)
  {
    HitKeepsRecent(entries, key, other, n);
  }

  lemma {:induction false} RunKeepsRecent<K(!new), S>(cfg: Config<K, S>, run: seq<(nat, Action<K>)>, more: seq<(nat, Action<K>)>, key: K)
    requires cfg.max > 0 && Run(cfg, run + more).Some? && NoPurge(more) && Uses(more) < cfg.max
    requires Run(cfg, run).Some? ==> Recent(Run(cfg, run).value.entries, key, 0)
    ensures Recent(Run(cfg, run + more).value.entries, key, Uses(more))
    decreases |more|
  {
    hide Apply, Enabled, Recent, CacheInv;
    if more == [] {
      assert run + more == run;
    } else {
      var last := |more| - 1;
      assert (run + more)[..|run + more| - 1] == run + more[..last] && (run + more)[|run + more| - 1] == more[last];
      RunKeepsRecent(cfg, run, more[..last], key);
      var s := Run(cfg, run + more[..last]).value;
      RunKeepsInvariant(cfg, run + more[..last]);
      LastStepKeepsRecent(cfg, s, more[last].0, more[last].1, key, Uses(more[..last]));
    }
  }

  lemma LastStepKeepsRecent<K(!new), S>(cfg: Config<K, S>, s: State<K, S>, t: nat, action: Action<K>, key: K, n: nat)
    requires cfg.max > 0 && CacheInv(cfg, s) && Enabled(s, t, action) && !action.Purge? && Recent(s.entries, key, n)
    requires n + (if action.Lookup? || action.DoubleCheck? || action.Store? then 1 else 0) < cfg.max
    ensures Recent(Apply(cfg, s, t, action).entries, key, n + if action.Lookup? || action.DoubleCheck? || action.Store? then 1 else 0)
  {
    hide CacheInv;
    if action.Lookup? || action.DoubleCheck? || action.Store? {
      StepKeepsRecent(cfg, s, t, action, key, n);
    } else {
      OtherStepsKeepEntries(cfg, s, t, action);
    }
  }

  lemma OtherStepsKeepEntries<K, S>(cfg: Config<K, S>, s: State<K, S>, t: nat, action: Action<K>)
    requires cfg.max > 0 && Enabled(s, t, action) && !action.Purge? && !action.Lookup? && !action.DoubleCheck? && !action.Store?
    ensures Apply(cfg, s, t, action).entries == s.entries
  {
  }

  /**
   Least recently used first: a client just returned from the cache stays in it through any steps of any requests that
   look up or add less often than the cache has places, unless it is emptied.
   */
  lemma {:induction false} JustUsedStays<K(!new), S>(cfg: Config<K, S>, run: seq<(nat, Action<K>)>, t: nat, more: seq<(nat, Action<K>)>)
    requires cfg.max > 0 && Run(cfg, run).Some? && Enabled(Run(cfg, run).value, t, Lookup)
    requires Cached(Run(cfg, run).value.entries, Run(cfg, run).value.threads[t].key)
    requires Run(cfg, run + [(t, Lookup)] + more).Some? && NoPurge(more) && Uses(more) < cfg.max
    ensures Cached(Run(cfg, run + [(t, Lookup)] + more).value.entries, Run(cfg, run).value.threads[t].key)
  {
    hide Uses, Recent, Cached, Find, Touch, LookUp;
    var s := Run(cfg, run).value;
    var key := s.threads[t].key;
    var hit := run + [(t, Lookup)];
    assert hit[..|hit| - 1] == run && hit[|hit| - 1] == (t, Lookup);
    HitStep(cfg, s, t);
    RunKeepsRecent(cfg, hit, more, key);
    RecentIsCached(Run(cfg, hit + more).value.entries, key, Uses(more));
  }

  lemma HitStep<K, S>(cfg: Config<K, S>, s: State<K, S>, t: nat)
    requires cfg.max > 0 && Enabled(s, t, Lookup) && Cached(s.entries, s.threads[t].key)
    ensures Recent(Apply(cfg, s, t, Lookup).entries, s.threads[t].key, 0)
  {
    hide LookUp, Recent, Touch;
    LookUpMoves(s, t, client => Done(client), Missed);
    HitIsRecent(s.entries, s.threads[t].key);
  }

  lemma RecentIsCached<K, V>(entries: Entries<K, V>, key: K, n: nat)
    requires Recent(entries, key, n)
    ensures Cached(entries, key)
  {
  }

  // ----- nil answers

  predicate NoNilCreated<K>(run: seq<(nat, Action<K>)>) {
    forall i | 0 <= i < |run| :: run[i].1.Create? ==> run[i].1.client.Made?
  }

  predicate BearsNil<K>(pc: Pc<K>) {
    (pc.Storing? || pc.Finishing? || pc.Done?) && pc.client.Nil?
  }

  ghost predicate NoNil<K, S>(s: State<K, S>) {
    && (forall e | e in s.entries :: e.value.Made?)
    && (forall t | t in s.threads :: !BearsNil(s.threads[t].pc))
  }

  lemma FoundIsMade<K, S>(s: State<K, S>, key: K)
    requires NoNil(s) && Find(s.entries, key).Some?
    ensures Find(s.entries, key).value.Made?
  {
  }

  lemma StepMakesNoNil<K(!new), S>(cfg: Config<K, S>, s: State<K, S>, t: nat, action: Action<K>)
    requires cfg.max > 0 && CacheInv(cfg, s) && NoNil(s) && Enabled(s, t, action) && (action.Create? ==> action.client.Made?)
    ensures NoNil(Apply(cfg, s, t, action))
  {
    var s' := Apply(cfg, s, t, action);
    StepMovesEntries(cfg, s, t, action);
    StepGivesNoNil(cfg, s, t, action);
  }

  lemma StepGivesNoNil<K, S>(cfg: Config<K, S>, s: State<K, S>, t: nat, action: Action<K>)
    requires cfg.max > 0 && NoNil(s) && Enabled(s, t, action) && (action.Create? ==> action.client.Made?)
    ensures var s' := Apply(cfg, s, t, action); forall u | u in s'.threads :: !BearsNil(s'.threads[u].pc)
  {
    hide LookUp, Find, Touch, Add, KeysOf;
    match action
    case Lookup =>
      LookUpMoves(s, t, client => Done(client), Missed);
      if Find(s.entries, s.threads[t].key).Some? {
        FoundIsMade(s, s.threads[t].key);
      }
    case DoubleCheck =>
      LookUpMoves(s, t, client => Finishing(client), Creating);
      if Find(s.entries, s.threads[t].key).Some? {
        FoundIsMade(s, s.threads[t].key);
      }
    case _ =>
  }

  lemma {:induction false} RunMakesNoNil<K(!new), S>(cfg: Config<K, S>, run: seq<(nat, Action<K>)>)
    requires cfg.max > 0 && Run(cfg, run).Some? && NoNilCreated(run)
    ensures NoNil(Run(cfg, run).value)
  {
    if run != [] {
      hide Apply, Enabled, NoNil, CacheInv;
      var last := |run| - 1;
      RunMakesNoNil(cfg, run[..last]);
      RunKeepsInvariant(cfg, run[..last]);
      StepMakesNoNil(cfg, Run(cfg, run[..last]).value, run[last].0, run[last].1);
    }
  }

  /** Nil comes only from createFn: as long as it returns clients, everybody who is answered gets one, those who waited included. */
  lemma {:induction false} NilOnlyFromCreateFn<K(!new), S>(cfg: Config<K, S>, run: seq<(nat, Action<K>)>, t: nat)
    requires cfg.max > 0 && Run(cfg, run).Some? && NoNilCreated(run)
    requires t in Run(cfg, run).value.threads && Run(cfg, run).value.threads[t].pc.Done?
    ensures Run(cfg, run).value.threads[t].pc.client.Made?
  {
    hide Run;
    RunMakesNoNil(cfg, run);
  }
}
