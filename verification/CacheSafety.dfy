/** What the client cache guarantees in every run. */
module CacheSafety {
  import opened Lru
  import opened CacheMachine
  import opened CacheInvariant

  ghost predicate Invariant<K(!new), S>(cfg: Config<K, S>, s: State<K, S>) {
    FlightInv(cfg, s) && CacheInv(cfg, s) && NilsRetried(cfg, s) && (Separates(cfg) ==> ClientInv(s))
  }

  lemma StepKeepsInvariant<K(!new), S>(cfg: Config<K, S>, s: State<K, S>, t: nat, action: Action<K>)
    requires cfg.max > 0 && Invariant(cfg, s) && Enabled(s, t, action)
    ensures Invariant(cfg, Apply(cfg, s, t, action))
  {
    hide FlightInv, CacheInv, ClientInv, NilsRetried, Apply, Separates, ThreadMove, StoringMove, EntryMove;
    StepKeepsFlights(cfg, s, t, action);
    StepKeepsCache(cfg, s, t, action);
    StepMovesEntries(cfg, s, t, action);
    StepStoresKept(cfg, s, t, action);
    MoveRetriesNils(cfg, s, Apply(cfg, s, t, action), t);
    if Separates(cfg) {
      StepMovesThread(cfg, s, t, action);
      MoveKeepsClients(s, Apply(cfg, s, t, action), t);
    }
  }

  lemma {:induction false} RunKeepsInvariant<K(!new), S>(cfg: Config<K, S>, run: seq<(nat, Action<K>)>)
    requires cfg.max > 0 && Run(cfg, run).Some?
    ensures Invariant(cfg, Run(cfg, run).value)
  {
    if run == [] {
      forall key ensures ConservedAt(Start<K, S>(), key) {}
    } else {
      hide Invariant, Apply;
      var last := |run| - 1;
      RunKeepsInvariant(cfg, run[..last]);
      StepKeepsInvariant(cfg, Run(cfg, run[..last]).value, run[last].0, run[last].1);
    }
  }

  /**
   Conservation in every run: the cache never outgrows its bound, and per key the creations are the
   removals, plus one while it is cached or about to be.
   */
  lemma {:induction false} CacheIsConserved<K(!new), S>(cfg: Config<K, S>, run: seq<(nat, Action<K>)>, key: K)
    requires cfg.max > 0 && Run(cfg, run).Some?
    ensures var s := Run(cfg, run).value;
            && |s.entries| <= cfg.max && DistinctKeys(s.entries)
            && ConservedAt(s, key)
            && s.made[key] <= s.gone[key] + 1
  {
    hide Pending, Cached;
    RunKeepsInvariant(cfg, run);
    var s := Run(cfg, run).value;
    assert ConservedAt(s, key);
    if Cached(s.entries, key) && Pending(s.threads, key) {
      CachedIsNotPending(s, key);
    }
  }

  lemma CachedIsNotPending<K, S>(s: State<K, S>, key: K)
    requires PendingUncached(s) && Cached(s.entries, key)
    ensures !Pending(s.threads, key)
  {
  }

  /** No two requests are ever creating a client for the same key. */
  lemma {:induction false} OneCreationAtATime<K(!new), S>(cfg: Config<K, S>, run: seq<(nat, Action<K>)>, t: nat, u: nat)
    requires cfg.max > 0 && Run(cfg, run).Some?
    requires var threads := Run(cfg, run).value.threads;
             t in threads && u in threads && Making(threads[t].pc) && Making(threads[u].pc) && threads[t].key == threads[u].key
    ensures t == u
  {
    RunKeepsInvariant(cfg, run);
    OneMaker(cfg, Run(cfg, run).value, t, u);
  }

  /** Every client returned was created for the caller's own key. */
  lemma EveryoneGetsTheirOwn<K(!new), S>(cfg: Config<K, S>, run: seq<(nat, Action<K>)>, t: nat)
    requires cfg.max > 0 && Separates(cfg) && Run(cfg, run).Some?
    requires var threads := Run(cfg, run).value.threads; t in threads && threads[t].pc.Done? && threads[t].pc.client.Made?
    ensures var s := Run(cfg, run).value; s.threads[t].pc.client.key == s.threads[t].key
  {
    hide FlightInv, CacheInv;
    RunKeepsInvariant(cfg, run);
  }

  /** Where nil is to be retried it is never cached. */
  lemma {:induction false} NilIsRetried<K(!new), S>(cfg: Config<K, S>, run: seq<(nat, Action<K>)>)
    requires cfg.max > 0 && Run(cfg, run).Some?
    ensures !cfg.keepsNil ==> forall e | e in Run(cfg, run).value.entries :: e.value.Made?
  {
    hide FlightInv, CacheInv;
    RunKeepsInvariant(cfg, run);
  }

  /** Until an entry of their key is evicted or purged, all requests for it get one and the same client. */
  lemma {:induction false} ReusedUntilRemoved<K(!new), S>(cfg: Config<K, S>, run: seq<(nat, Action<K>)>, t: nat, u: nat)
    requires cfg.max > 0 && Separates(cfg) && Run(cfg, run).Some?
    requires var s := Run(cfg, run).value;
             && t in s.threads && s.threads[t].pc.Done? && s.threads[t].pc.client.Made?
             && u in s.threads && s.threads[u].pc.Done? && s.threads[u].pc.client.Made?
             && s.threads[t].key == s.threads[u].key && s.gone[s.threads[t].key] == 0
    ensures var s := Run(cfg, run).value; s.threads[t].pc.client == s.threads[u].pc.client
  {
    hide FlightInv, Conserved;
    RunKeepsInvariant(cfg, run);
    var s := Run(cfg, run).value;
    var key := s.threads[t].key;
    SameEntry(s.entries, Entry(key, s.threads[t].pc.client), Entry(key, s.threads[u].pc.client));
  }

  ghost predicate CanMove<K(!new), S>(s: State<K, S>, t: nat) {
    exists action: Action<K> :: !action.Spawn? && !action.Purge? && Enabled(s, t, action)
  }

  /** While some request is unfinished, it or the request it waits for can move. */
  lemma {:induction false} NobodyIsStuck<K(!new), S>(cfg: Config<K, S>, run: seq<(nat, Action<K>)>, t: nat)
    requires cfg.max > 0 && Run(cfg, run).Some?
    requires var threads := Run(cfg, run).value.threads; t in threads && !threads[t].pc.Done?
    ensures var s := Run(cfg, run).value;
            CanMove(s, t) || (s.threads[t].pc.Waiting? && CanMove(s, s.threads[t].pc.leader))
  {
    hide CacheInv, ClientInv;
    RunKeepsInvariant(cfg, run);
    var s := Run(cfg, run).value;
    if s.threads[t].pc.Waiting? && !s.threads[s.threads[t].pc.leader].pc.Done? {
      MovesOn(s, s.threads[t].pc.leader);
    } else {
      MovesOn(s, t);
    }
  }

  lemma MovesOn<K(!new), S>(s: State<K, S>, t: nat)
    requires t in s.threads && !s.threads[t].pc.Done?
    requires s.threads[t].pc.Waiting? ==> s.threads[t].pc.leader in s.threads && s.threads[s.threads[t].pc.leader].pc.Done?
    ensures CanMove(s, t)
  {
    var action: Action<K> := match s.threads[t].pc
      case Arriving => Lookup
      case Missed => JoinOrLead
      case Leading => DoubleCheck
      case Creating => Create(Nil)
      case Storing(_) => Store
      case Finishing(_) => Finish
      case _ => Wake;
    assert Enabled(s, t, action);
  }
}
