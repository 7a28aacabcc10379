/** The client cache as one caller at a time sees it, and its agreement with the transition system. */
module ClientCache {
  import opened Wrappers
  import opened Lru
  import opened CacheMachine
  import opened CacheInvariant
  import opened CacheSafety
  import CacheKey

  const CLIENT_CACHE_MAX_SIZE: nat := 1000

  /** What the cache holds and what the caller gets after an undisturbed request. */
  function Served<K(==)>(entries: Entries<K, Client<K>>, max: nat, keepsNil: bool, key: K, created: Client<K>): (Entries<K, Client<K>>, Client<K>)
    requires max > 0
  {
    match Find(entries, key)
    case Some(client) => (Touch(entries, key), client)
    case None => if created.Nil? && !keepsNil then (entries, Nil) else (Add(entries, max, key, created).0, created)
  }

  /** What was returned is found by the next request, unless it is a nil that is to be retried, which leaves the cache alone. */
  lemma NextRequestHits<K>(entries: Entries<K, Client<K>>, max: nat, keepsNil: bool, key: K, created: Client<K>)
    requires 0 < max && |entries| <= max && DistinctKeys(entries)
    ensures var (after, client) := Served(entries, max, keepsNil, key, created);
            && (Find(entries, key).Some? ==> Some(client) == Find(entries, key))
            && (Find(entries, key).None? ==> client == created)
            && (Cached(entries, key) || created.Made? || keepsNil ==> Find(after, key) == Some(client) && after[0] == Entry(key, client))
            && (!Cached(entries, key) && created.Nil? && !keepsNil ==> after == entries)
  {
    hide Add, Without;
    if !Cached(entries, key) {
      AddEvictsOldest(entries, max, key, created);
    }
  }

  class Cache<K(==)> {
    const clients: LruCache<K, Client<K>>
    const keepsNil: bool

    constructor (keepsNil: bool)
      ensures clients.Valid() && fresh(clients) && clients.entries == [] && clients.max == CLIENT_CACHE_MAX_SIZE
      ensures this.keepsNil == keepsNil
    {
      this.keepsNil := keepsNil;
      clients := new LruCache(CLIENT_CACHE_MAX_SIZE);
    }

    /** GetOrCreateGrafanaClient with keepsNil, GetOrCreateK8sClient without. */
    method GetOrCreate(key: K, createFn: () -> Client<K>) returns (client: Client<K>)
      requires clients.Valid()
      modifies clients
      ensures clients.Valid()
      ensures (clients.entries, client) == Served(old(clients.entries), clients.max, keepsNil, key, createFn())
    {
      var found := clients.Get(key);
      if found.Some? {
        return found.value;
      }
      found := clients.Get(key);
      if found.Some? {
        assert false; // only another request could have stored it since
      }
      client := createFn();
      if client.Nil? && !keepsNil {
        return Nil;
      }
      var _ := clients.Put(key, client);
    }

    method Close()
      requires clients.Valid()
      modifies clients
      ensures clients.Valid() && clients.entries == []
    {
      clients.Purge();
    }
  }

  /** The steps of a request that nobody disturbs. */
  function LoneRun<K(==), S>(cfg: Config<K, S>, entries: Entries<K, Client<K>>, key: K, created: Client<K>): seq<Action<K>> {
    if Find(entries, key).Some? then [Spawn(key), Lookup]
    else if created.Nil? && !cfg.keepsNil then [Spawn(key), Lookup, JoinOrLead, DoubleCheck, Create(created), Finish]
    else [Spawn(key), Lookup, JoinOrLead, DoubleCheck, Create(created), Store, Finish]
  }

  /** The state after thread t takes the actions in turn; None if one of them was not enabled. */
  function Alone<K(==), S(==)>(cfg: Config<K, S>, s: State<K, S>, t: nat, actions: seq<Action<K>>): Option<State<K, S>>
    requires cfg.max > 0
    decreases |actions|
  {
    if actions == [] then Some(s)
    else if Enabled(s, t, actions[0]) then Alone(cfg, Apply(cfg, s, t, actions[0]), t, actions[1..])
    else None
  }

  lemma AloneStep<K, S>(cfg: Config<K, S>, s: State<K, S>, t: nat, first: Action<K>, rest: seq<Action<K>>)
    requires cfg.max > 0 && Enabled(s, t, first)
    ensures Alone(cfg, s, t, [first] + rest) == Alone(cfg, Apply(cfg, s, t, first), t, rest)
  {
    assert ([first] + rest)[1..] == rest;
  }

  /** An undisturbed request of the transition system does to the cache what the method does. */
  lemma UndisturbedRequest<K, S>(cfg: Config<K, S>, s: State<K, S>, t: nat, key: K, created: Client<K>)
    requires cfg.max > 0 && t !in s.threads && cfg.flightKey(key) !in s.flights
    requires created.Made? ==> created.key == key
    ensures var after := Alone(cfg, s, t, LoneRun(cfg, s.entries, key, created));
            && after.Some?
            && t in after.value.threads && after.value.threads[t].pc.Done?
            && (after.value.entries, after.value.threads[t].pc.client) == Served(s.entries, cfg.max, cfg.keepsNil, key, created)
            && after.value.flights == s.flights
  {
    hide Find, Touch, Add, Alone;
    var s1 := Apply(cfg, s, t, Spawn(key));
    var s2 := Apply(cfg, s1, t, Lookup);
    if Find(s.entries, key).Some? {
      AloneStep(cfg, s, t, Spawn(key), [Lookup]);
      AloneLast(cfg, s1, t, Lookup);
      assert [Spawn(key)] + [Lookup] == [Spawn(key), Lookup];
    } else {
      var rest := LoneRun(cfg, s.entries, key, created)[2..];
      AloneStep(cfg, s, t, Spawn(key), [Lookup] + rest);
      AloneStep(cfg, s1, t, Lookup, rest);
      assert [Spawn(key)] + ([Lookup] + rest) == LoneRun(cfg, s.entries, key, created);
      UndisturbedMiss(cfg, s2, t, created);
      assert s2.flights + map[cfg.flightKey(key) := t] - {cfg.flightKey(key)} == s.flights;
    }
  }

  lemma AloneLast<K, S>(cfg: Config<K, S>, s: State<K, S>, t: nat, last: Action<K>)
    requires cfg.max > 0 && Enabled(s, t, last)
    ensures Alone(cfg, s, t, [last]) == Some(Apply(cfg, s, t, last))
  {
    assert [last][1..] == [];
  }

  lemma UndisturbedMiss<K, S>(cfg: Config<K, S>, s: State<K, S>, t: nat, created: Client<K>)
    requires cfg.max > 0 && t in s.threads && s.threads[t].pc.Missed? && cfg.flightKey(s.threads[t].key) !in s.flights
    requires Find(s.entries, s.threads[t].key).None? && (created.Made? ==> created.key == s.threads[t].key)
    ensures var after := Alone(cfg, s, t, LoneRun(cfg, s.entries, s.threads[t].key, created)[2..]);
            && after.Some?
            && t in after.value.threads && after.value.threads[t].pc.Done?
            && (after.value.entries, after.value.threads[t].pc.client) ==
               Served(s.entries, cfg.max, cfg.keepsNil, s.threads[t].key, created)
            && after.value.flights == s.flights
  {
    hide Find, Touch, Add, Alone;
    var key := s.threads[t].key;
    var s1 := Apply(cfg, s, t, JoinOrLead);
    var s2 := Apply(cfg, s1, t, DoubleCheck);
    var s3 := Apply(cfg, s2, t, Create(created));
    var rest := LoneRun(cfg, s.entries, key, created)[5..];
    assert LoneRun(cfg, s.entries, key, created)[2..] == [JoinOrLead] + ([DoubleCheck] + ([Create(created)] + rest));
    AloneStep(cfg, s, t, JoinOrLead, [DoubleCheck] + ([Create(created)] + rest));
    AloneStep(cfg, s1, t, DoubleCheck, [Create(created)] + rest);
    AloneStep(cfg, s2, t, Create(created), rest);
    UndisturbedEnd(cfg, s3, t);
    assert s1.flights - {cfg.flightKey(key)} == s.flights;
  }

  /** From a creation on, with what is stored. */
  lemma UndisturbedEnd<K, S>(cfg: Config<K, S>, s: State<K, S>, t: nat)
    requires cfg.max > 0 && t in s.threads && (s.threads[t].pc.Storing? || s.threads[t].pc.Finishing?)
    ensures var after := Alone(cfg, s, t, if s.threads[t].pc.Storing? then [Store, Finish] else [Finish]);
            && after.Some?
            && t in after.value.threads && after.value.threads[t].pc == Done(s.threads[t].pc.client)
            && after.value.entries == (if s.threads[t].pc.Storing?
                                       then Add(s.entries, cfg.max, s.threads[t].key, s.threads[t].pc.client).0
                                       else s.entries)
            && after.value.flights == s.flights - {cfg.flightKey(s.threads[t].key)}
  {
    hide Add, Alone;
    if s.threads[t].pc.Storing? {
      var s1 := Apply(cfg, s, t, Store);
      var rest: seq<Action<K>> := [Finish];
      AloneStep(cfg, s, t, Store, rest);
      assert [Store] + rest == [Store, Finish];
      AloneLast(cfg, s1, t, Finish);
    } else {
      AloneLast(cfg, s, t, Finish);
    }
  }

  // ----- the server's caches

  function ServerCache(isPrint: CacheKey.Piece -> bool, keepsNil: bool): Config<CacheKey.Key, CacheKey.Text> {
    Config(CLIENT_CACHE_MAX_SIZE, keepsNil, key => CacheKey.SingleflightKey(isPrint, key))
  }

  lemma ServerSeparates(isPrint: CacheKey.Piece -> bool, keepsNil: bool)
    ensures Separates(ServerCache(isPrint, keepsNil))
  {
    hide CacheKey.SingleflightKey;
    forall a, b | CacheKey.SingleflightKey(isPrint, a) == CacheKey.SingleflightKey(isPrint, b)
      ensures a == b
    {
      CacheKey.FlightsSeparateKeys(isPrint, a, b);
    }
  }

  /**
   In every run of the server's caches, with the flight key as the source formats it: a client is returned
   only to callers of the key it was created for, all of them get the same one until it is removed, there are
   never more than a thousand, creations and removals balance for every key, only one request at a time
   creates for a key, and a nil that is to be retried is never kept.
   */
  lemma {:induction false} ServerClients(isPrint: CacheKey.Piece -> bool, keepsNil: bool, run: seq<(nat, Action<CacheKey.Key>)>,
                                         t: nat, u: nat, key: CacheKey.Key)
    requires Run(ServerCache(isPrint, keepsNil), run).Some?
    requires var threads := Run(ServerCache(isPrint, keepsNil), run).value.threads; t in threads && u in threads
    ensures var s := Run(ServerCache(isPrint, keepsNil), run).value;
            && (Got(s.threads[t]) ==> s.threads[t].pc.client.key == s.threads[t].key)
            && (Got(s.threads[t]) && Got(s.threads[u]) ==> SameClientSameKey(s, t, u))
            && (Making(s.threads[t].pc) && Making(s.threads[u].pc) && s.threads[t].key == s.threads[u].key ==> t == u)
            && |s.entries| <= CLIENT_CACHE_MAX_SIZE && DistinctKeys(s.entries)
            && ConservedAt(s, key) && s.made[key] <= s.gone[key] + 1
            && (!keepsNil ==> forall e | e in s.entries :: e.value.Made?)
  {
    hide Run, Separates, ConservedAt;
    var cfg := ServerCache(isPrint, keepsNil);
    var s := Run(cfg, run).value;
    ServerSeparates(isPrint, keepsNil);
    CacheIsConserved(cfg, run, key);
    NilIsRetried(cfg, run);
    if Got(s.threads[t]) {
      EveryoneGetsTheirOwn(cfg, run, t);
      if Got(s.threads[u]) {
        EveryoneGetsTheirOwn(cfg, run, u);
        if s.threads[t].key == s.threads[u].key && s.gone[s.threads[t].key] == 0 {
          ReusedUntilRemoved(cfg, run, t, u);
        }
      }
    }
    if Making(s.threads[t].pc) && Making(s.threads[u].pc) && s.threads[t].key == s.threads[u].key {
      OneCreationAtATime(cfg, run, t, u);
    }
  }

  /** Two requests with one client have one key, and with one key have one client until it is removed. */
  ghost predicate SameClientSameKey<K, S>(s: State<K, S>, t: nat, u: nat)
    requires t in s.threads && u in s.threads && Got(s.threads[t]) && Got(s.threads[u])
  {
    var first, second := s.threads[t], s.threads[u];
    && (first.pc.client == second.pc.client ==> first.key == second.key)
    && (first.key == second.key && s.gone[first.key] == 0 ==> first.pc.client == second.pc.client)
  }

  /** The request has come back with a client. */
  predicate Got<K>(thread: Thread<K>) {
    thread.pc.Done? && thread.pc.client.Made?
  }
}
