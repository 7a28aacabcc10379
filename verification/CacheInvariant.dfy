/**
 What every step of a request keeps: one leader per flight, entries, creations and removals in balance, and
 clients that belong to their keys.
 */
module CacheInvariant {
  import opened Wrappers
  import opened Lru
  import opened CacheMachine

  // ----- flights

  ghost predicate LeadersFly<K, S>(cfg: Config<K, S>, flights: map<S, nat>, threads: map<nat, Thread<K>>) {
    forall t | t in threads && Leads(threads[t].pc) ::
      cfg.flightKey(threads[t].key) in flights && flights[cfg.flightKey(threads[t].key)] == t
  }

  ghost predicate FlightsAreLed<K, S>(cfg: Config<K, S>, flights: map<S, nat>, threads: map<nat, Thread<K>>) {
    forall f | f in flights ::
      flights[f] in threads && Leads(threads[flights[f]].pc) && cfg.flightKey(threads[flights[f]].key) == f
  }

  /** Who waits, waits for a request of the same flight that leads or is done. */
  ghost predicate WaitersFollow<K, S>(cfg: Config<K, S>, threads: map<nat, Thread<K>>) {
    forall t | t in threads && threads[t].pc.Waiting? ::
      && threads[t].pc.leader in threads
      && cfg.flightKey(threads[threads[t].pc.leader].key) == cfg.flightKey(threads[t].key)
      && (Leads(threads[threads[t].pc.leader].pc) || threads[threads[t].pc.leader].pc.Done?)
  }

  ghost predicate FlightInv<K, S>(cfg: Config<K, S>, s: State<K, S>) {
    && LeadersFly(cfg, s.flights, s.threads)
    && FlightsAreLed(cfg, s.flights, s.threads)
    && WaitersFollow(cfg, s.threads)
  }

  /** A step of t, or of nobody, that neither starts nor ends a flight. */
  ghost predicate QuietMove<K, S>(s: State<K, S>, s': State<K, S>, t: nat) {
    && s'.flights == s.flights
    && (s'.threads == s.threads ||
        (&& t in s'.threads && s'.threads == s.threads[t := s'.threads[t]]
         && !s'.threads[t].pc.Waiting?
         && if t in s.threads
            then && s'.threads[t].key == s.threads[t].key && !s.threads[t].pc.Done?
                 && Leads(s'.threads[t].pc) == Leads(s.threads[t].pc)
            else !Leads(s'.threads[t].pc)))
  }

  lemma QuietKeepsFlights<K, S>(cfg: Config<K, S>, s: State<K, S>, s': State<K, S>, t: nat)
    requires FlightInv(cfg, s) && QuietMove(s, s', t)
    ensures FlightInv(cfg, s')
  {
  }

  lemma LookUpMoves<K, S>(s: State<K, S>, t: nat, found: Client<K> -> Pc<K>, missed: Pc<K>)
    requires t in s.threads
    ensures var s' := LookUp(s, t, found, missed);
            && s'.flights == s.flights && s'.made == s.made && s'.gone == s.gone
            && t in s'.threads && s'.threads == s.threads[t := s'.threads[t]] && s'.threads[t].key == s.threads[t].key
            && match Find(s.entries, s.threads[t].key)
               case None => s'.threads[t].pc == missed && s'.entries == s.entries
               case Some(client) => s'.threads[t].pc == found(client) && s'.entries == Touch(s.entries, s.threads[t].key)
  {
    hide Find, Touch;
  }

  lemma StepIsQuiet<K, S>(cfg: Config<K, S>, s: State<K, S>, t: nat, action: Action<K>)
    requires cfg.max > 0 && Enabled(s, t, action) && !action.JoinOrLead? && !action.Finish?
    ensures QuietMove(s, Apply(cfg, s, t, action), t)
  {
    hide LookUp, Find, Touch, Add, KeysOf;
    match action
    case Lookup => LookUpMoves(s, t, client => Done(client), Missed);
    case DoubleCheck => LookUpMoves(s, t, client => Finishing(client), Creating);
    case _ =>
  }

  lemma JoinKeepsFlights<K, S>(cfg: Config<K, S>, s: State<K, S>, t: nat)
    requires cfg.max > 0 && FlightInv(cfg, s) && Enabled(s, t, JoinOrLead)
    ensures FlightInv(cfg, Apply(cfg, s, t, JoinOrLead))
  {
  }

  lemma FinishKeepsFlights<K, S>(cfg: Config<K, S>, s: State<K, S>, t: nat)
    requires cfg.max > 0 && FlightInv(cfg, s) && Enabled(s, t, Finish)
    ensures FlightInv(cfg, Apply(cfg, s, t, Finish))
  {
  }

  lemma {:induction false} StepKeepsFlights<K, S>(cfg: Config<K, S>, s: State<K, S>, t: nat, action: Action<K>)
    requires cfg.max > 0 && FlightInv(cfg, s) && Enabled(s, t, action)
    ensures FlightInv(cfg, Apply(cfg, s, t, action))
  {
    hide FlightInv, Apply, QuietMove;
    if action.JoinOrLead? {
      JoinKeepsFlights(cfg, s, t);
    } else if action.Finish? {
      FinishKeepsFlights(cfg, s, t);
    } else {
      StepIsQuiet(cfg, s, t, action);
      QuietKeepsFlights(cfg, s, Apply(cfg, s, t, action), t);
    }
  }

  // ----- contents

  ghost predicate Sized<K, S>(cfg: Config<K, S>, entries: Entries<K, Client<K>>) {
    |entries| <= cfg.max && DistinctKeys(entries)
  }

  predicate Making<K>(pc: Pc<K>) {
    pc.Creating? || pc.Storing?
  }

  /** Nobody creates what is cached. */
  ghost predicate PendingUncached<K, S>(s: State<K, S>) {
    forall t | t in s.threads && Making(s.threads[t].pc) :: !Cached(s.entries, s.threads[t].key)
  }

  /** Somebody has created a client for the key and not added it yet. */
  ghost predicate Pending<K>(threads: map<nat, Thread<K>>, key: K) {
    exists t :: t in threads && threads[t].pc.Storing? && threads[t].key == key
  }

  /** Creations for a key are its removals, plus one if it is cached, plus one if a creation is to be added. */
  ghost predicate ConservedAt<K, S>(s: State<K, S>, key: K) {
    s.made[key] == s.gone[key] + (if Cached(s.entries, key) then 1 else 0) + (if Pending(s.threads, key) then 1 else 0)
  }

  ghost predicate Conserved<K(!new), S>(s: State<K, S>) {
    forall key :: ConservedAt(s, key)
  }

  ghost predicate CacheInv<K(!new), S>(cfg: Config<K, S>, s: State<K, S>) {
    Sized(cfg, s.entries) && PendingUncached(s) && Conserved(s)
  }

  ghost predicate SameContent<K, V>(before: Entries<K, V>, after: Entries<K, V>) {
    && |after| == |before| && DistinctKeys(after)
    && (forall e | e in before :: e in after)
    && (forall e | e in after :: e in before)
  }

  lemma SameContentSameKeys<K, V>(before: Entries<K, V>, after: Entries<K, V>, key: K)
    requires SameContent(before, after)
    ensures Cached(after, key) <==> Cached(before, key)
  {
    if i :| 0 <= i < |before| && before[i].key == key {
      assert before[i] in after;
    }
    if i :| 0 <= i < |after| && after[i].key == key {
      assert after[i] in before;
    }
  }

  /** A step that creates, adds and removes nothing. */
  ghost predicate CalmMove<K, S>(s: State<K, S>, s': State<K, S>, t: nat) {
    && SameContent(s.entries, s'.entries)
    && s'.made == s.made && s'.gone == s.gone
    && t in s'.threads && s'.threads == s.threads[t := s'.threads[t]]
    && (t in s.threads ==> !s.threads[t].pc.Storing?)
    && !s'.threads[t].pc.Storing?
    && (s'.threads[t].pc.Creating? ==> !Cached(s.entries, s'.threads[t].key))
  }

  lemma OthersPend<K>(threads: map<nat, Thread<K>>, t: nat, thread: Thread<K>, key: K)
    requires !(t in threads && threads[t].pc.Storing? && threads[t].key == key)
    requires !(thread.pc.Storing? && thread.key == key)
    ensures Pending(threads[t := thread], key) <==> Pending(threads, key)
  {
    var threads' := threads[t := thread];
    if u :| u in threads && threads[u].pc.Storing? && threads[u].key == key {
      assert threads'[u] == threads[u];
    }
  }

  lemma CalmKeepsCache<K(!new), S>(cfg: Config<K, S>, s: State<K, S>, s': State<K, S>, t: nat)
    requires CacheInv(cfg, s) && CalmMove(s, s', t)
    ensures CacheInv(cfg, s')
  {
    hide Pending, Cached;
    forall key
      ensures ConservedAt(s', key)
    {
      assert ConservedAt(s, key);
      SameContentSameKeys(s.entries, s'.entries, key);
      OthersPend(s.threads, t, s'.threads[t], key);
    }
    forall u | u in s'.threads && Making(s'.threads[u].pc)
      ensures !Cached(s'.entries, s'.threads[u].key)
    {
      SameContentSameKeys(s.entries, s'.entries, s'.threads[u].key);
    }
  }

  predicate Calm<K, S>(cfg: Config<K, S>, action: Action<K>) {
    !action.Purge? && !action.Store? && !(action.Create? && (cfg.keepsNil || action.client.Made?))
  }

  lemma StepIsCalm<K, S>(cfg: Config<K, S>, s: State<K, S>, t: nat, action: Action<K>)
    requires cfg.max > 0 && Sized(cfg, s.entries) && Enabled(s, t, action) && Calm(cfg, action)
    ensures CalmMove(s, Apply(cfg, s, t, action), t)
  {
    hide Touch, Add, KeysOf, Cached, Leads;
    if t in s.threads {
      TouchKeepsEntries(s.entries, s.threads[t].key);
    }
  }

  /** Only the leader of a key's flight makes a client for it. */
  lemma OneMaker<K, S>(cfg: Config<K, S>, s: State<K, S>, t: nat, u: nat)
    requires FlightInv(cfg, s) && t in s.threads && u in s.threads
    requires Making(s.threads[t].pc) && Making(s.threads[u].pc) && s.threads[t].key == s.threads[u].key
    ensures t == u
  {
  }

  lemma CreateKeepsCache<K(!new), S>(cfg: Config<K, S>, s: State<K, S>, t: nat, client: Client<K>)
    requires cfg.max > 0 && FlightInv(cfg, s) && CacheInv(cfg, s)
    requires Enabled(s, t, Create(client)) && (cfg.keepsNil || client.Made?)
    ensures CacheInv(cfg, Apply(cfg, s, t, Create(client)))
  {
    hide Cached, Sized, FlightInv;
    var s' := Apply(cfg, s, t, Create(client));
    var mine := s.threads[t].key;
    forall key
      ensures ConservedAt(s', key)
    {
      assert ConservedAt(s, key);
      if key == mine {
        assert s'.threads[t].pc.Storing? && s'.threads[t].key == key;
        if u :| u in s.threads && s.threads[u].pc.Storing? && s.threads[u].key == key {
          OneMaker(cfg, s, t, u);
        }
      } else {
        OthersPend(s.threads, t, s'.threads[t], key);
      }
    }
  }

  lemma PurgeKeepsCache<K(!new), S>(cfg: Config<K, S>, s: State<K, S>, t: nat)
    requires cfg.max > 0 && CacheInv(cfg, s)
    ensures CacheInv(cfg, Apply(cfg, s, t, Purge))
  {
    hide Pending;
    var s' := Apply(cfg, s, t, Purge);
    forall key
      ensures ConservedAt(s', key)
    {
      assert ConservedAt(s, key);
      EachKeyOnce(s.entries, key);
    }
  }

  lemma {:induction false} EachKeyOnce<K, V>(entries: Entries<K, V>, key: K)
    requires DistinctKeys(entries)
    ensures multiset(KeysOf(entries))[key] == if Cached(entries, key) then 1 else 0
  {
    if entries != [] {
      var last := |entries| - 1;
      var before := entries[..last];
      EachKeyOnce(before, key);
      assert KeysOf(entries) == KeysOf(before) + [entries[last].key];
      assert Cached(entries, key) <==> Cached(before, key) || entries[last].key == key;
    }
  }

  lemma StoreKeepsCache<K(!new), S>(cfg: Config<K, S>, s: State<K, S>, t: nat)
    requires cfg.max > 0 && FlightInv(cfg, s) && CacheInv(cfg, s) && Enabled(s, t, Store)
    ensures CacheInv(cfg, Apply(cfg, s, t, Store))
  {
    hide Pending, Add, FlightInv;
    var s' := Apply(cfg, s, t, Store);
    var mine, client := s.threads[t].key, s.threads[t].pc.client;
    AddEvictsOldest(s.entries, cfg.max, mine, client);
    forall key
      ensures ConservedAt(s', key)
    {
      StoreConserves(cfg, s, t, key);
    }
    forall u | u in s'.threads && Making(s'.threads[u].pc)
      ensures !Cached(s'.entries, s'.threads[u].key)
    {
      if s.threads[u].key == mine {
        OneMaker(cfg, s, t, u);
      }
      AddCaches(s.entries, cfg.max, mine, client, s'.threads[u].key);
    }
  }

  /** What is cached after an addition: the new key, and every other key that was and is not evicted. */
  lemma AddCaches<K, V>(entries: Entries<K, V>, max: nat, key: K, value: V, other: K)
    requires 0 < max && |entries| <= max && DistinctKeys(entries) && !Cached(entries, key)
    ensures var (after, evicted) := Add(entries, max, key, value);
            && Cached(after, key)
            && (other != key ==>
                  (Cached(after, other) <==> Cached(entries, other) && !(evicted.Some? && evicted.value.key == other)))
            && (evicted.Some? ==> Cached(entries, evicted.value.key) && evicted.value.key != key)
  {
    hide Add;
    AddEvictsOldest(entries, max, key, value);
    var after := Add(entries, max, key, value).0;
    if other != key && Cached(entries, other) {
      var i :| 0 <= i < |entries| && entries[i].key == other;
      if i + 1 < |after| {
        assert after[i + 1] == entries[i];
      }
    }
    if other != key && Cached(after, other) {
      var i :| 0 <= i < |after| && after[i].key == other;
      assert entries[i - 1] == after[i];
    }
  }

  lemma StoreConserves<K(!new), S>(cfg: Config<K, S>, s: State<K, S>, t: nat, key: K)
    requires cfg.max > 0 && FlightInv(cfg, s) && CacheInv(cfg, s) && Enabled(s, t, Store)
    ensures ConservedAt(Apply(cfg, s, t, Store), key)
  {
    hide Add, Cached, FlightInv;
    var s' := Apply(cfg, s, t, Store);
    var mine, client := s.threads[t].key, s.threads[t].pc.client;
    AddCaches(s.entries, cfg.max, mine, client, key);
    var (after, evicted) := Add(s.entries, cfg.max, mine, client);
    assert ConservedAt(s, key);
    if key == mine {
      assert Pending(s.threads, key);
      if u :| u in s'.threads && s'.threads[u].pc.Storing? && s'.threads[u].key == key {
        OneMaker(cfg, s, t, u);
      }
      assert !Cached(s.entries, key) && Cached(s'.entries, key) && s'.gone[key] == s.gone[key];
    } else {
      OthersPend(s.threads, t, s'.threads[t], key);
      assert s'.gone[key] == s.gone[key] + if evicted.Some? && evicted.value.key == key then 1 else 0;
      assert Cached(s'.entries, key) <==> Cached(s.entries, key) && !(evicted.Some? && evicted.value.key == key);
    }
  }

  lemma StepKeepsCache<K(!new), S>(cfg: Config<K, S>, s: State<K, S>, t: nat, action: Action<K>)
    requires cfg.max > 0 && FlightInv(cfg, s) && CacheInv(cfg, s) && Enabled(s, t, action)
    ensures CacheInv(cfg, Apply(cfg, s, t, action))
  {
    hide FlightInv, Apply, CalmMove, Conserved, PendingUncached;
    if action.Purge? {
      PurgeKeepsCache(cfg, s, t);
    } else if action.Store? {
      StoreKeepsCache(cfg, s, t);
    } else if Calm(cfg, action) {
      StepIsCalm(cfg, s, t, action);
      CalmKeepsCache(cfg, s, Apply(cfg, s, t, action), t);
    } else {
      CreateKeepsCache(cfg, s, t, action.client);
    }
  }

  // ----- which client a request gets

  /** No two keys share a flight. */
  ghost predicate Separates<K(!new), S>(cfg: Config<K, S>) {
    forall a, b :: cfg.flightKey(a) == cfg.flightKey(b) ==> a == b
  }

  /** Clients are built for the key they are kept or returned under. */
  ghost predicate OwnClients<K, S>(s: State<K, S>) {
    && (forall e | e in s.entries :: e.value.Made? ==> e.value.key == e.key)
    && (forall t | t in s.threads && (s.threads[t].pc.Storing? || s.threads[t].pc.Finishing? || s.threads[t].pc.Done?) ::
          s.threads[t].pc.client.Made? ==> s.threads[t].pc.client.key == s.threads[t].key)
  }

  ghost predicate NilsRetried<K, S>(cfg: Config<K, S>, s: State<K, S>) {
    !cfg.keepsNil ==>
      && (forall e | e in s.entries :: e.value.Made?)
      && (forall t | t in s.threads && s.threads[t].pc.Storing? :: s.threads[t].pc.client.Made?)
  }

  /** Until an entry of a key is removed, every client obtained for it is the cached one. */
  ghost predicate Reused<K, S>(s: State<K, S>) {
    forall t | t in s.threads && (s.threads[t].pc.Finishing? || s.threads[t].pc.Done?) ::
      s.threads[t].pc.client.Made? && s.gone[s.threads[t].key] == 0 ==>
        Entry(s.threads[t].key, s.threads[t].pc.client) in s.entries
  }

  ghost predicate ClientInv<K, S>(s: State<K, S>) {
    OwnClients(s) && Reused(s)
  }

  ghost predicate StoredBy<K, S>(s: State<K, S>, t: nat, e: Entry<K, Client<K>>) {
    t in s.threads && s.threads[t].pc.Storing? && e == Entry(s.threads[t].key, s.threads[t].pc.client)
  }

  /** Where the client that a thread bears after a step comes from. */
  ghost predicate Sourced<K, S>(s: State<K, S>, s': State<K, S>, t: nat)
    requires t in s'.threads
  {
    var key, pc := s'.threads[t].key, s'.threads[t].pc;
    && (pc.Storing? && pc.client.Made? ==> pc.client.key == key)
    && (pc.Finishing? || pc.Done? ==> pc.client.Made? ==>
          || (Entry(key, pc.client) in s.entries && Entry(key, pc.client) in s'.entries)
          || (StoredBy(s, t, Entry(key, pc.client)) && Entry(key, pc.client) in s'.entries)
          || exists l :: l in s.threads && s.threads[l].key == key
                         && (s.threads[l].pc.Finishing? || s.threads[l].pc.Done?) && s.threads[l].pc.client == pc.client)
  }

  ghost predicate ThreadMove<K, S>(s: State<K, S>, s': State<K, S>, t: nat) {
    s'.threads == s.threads || (t in s'.threads && s'.threads == s.threads[t := s'.threads[t]] && Sourced(s, s', t))
  }

  /** A thread comes to store only what is to be kept. */
  ghost predicate StoringMove<K, S>(cfg: Config<K, S>, s: State<K, S>, s': State<K, S>, t: nat) {
    s'.threads == s.threads ||
    (&& t in s'.threads && s'.threads == s.threads[t := s'.threads[t]]
     && (s'.threads[t].pc.Storing? ==> cfg.keepsNil || s'.threads[t].pc.client.Made?))
  }

  ghost predicate EntryMove<K(!new), S>(s: State<K, S>, s': State<K, S>, t: nat) {
    && (forall e | e in s'.entries :: e in s.entries || StoredBy(s, t, e))
    && (forall e | e in s.entries && s'.gone[e.key] == 0 :: e in s'.entries)
    && (forall key :: s.gone[key] <= s'.gone[key])
  }

  lemma MoveKeepsClients<K(!new), S>(s: State<K, S>, s': State<K, S>, t: nat)
    requires ClientInv(s) && ThreadMove(s, s', t) && EntryMove(s, s', t)
    ensures ClientInv(s')
  {
    hide ClientInv;
    MoveKeepsOwn(s, s', t);
    MoveKeepsReuse(s, s', t);
    assert ClientInv(s') by {
      ClientParts(s');
    }
  }

  lemma ClientParts<K, S>(s: State<K, S>)
    ensures ClientInv(s) <==> OwnClients(s) && Reused(s)
  {
  }

  lemma MoveKeepsOwn<K(!new), S>(s: State<K, S>, s': State<K, S>, t: nat)
    requires ClientInv(s) && ThreadMove(s, s', t) && EntryMove(s, s', t)
    ensures OwnClients(s')
  {
    hide Reused;
  }

  lemma MoveKeepsReuse<K(!new), S>(s: State<K, S>, s': State<K, S>, t: nat)
    requires ClientInv(s) && ThreadMove(s, s', t) && EntryMove(s, s', t)
    ensures Reused(s')
  {
    hide OwnClients;
  }

  lemma MoveRetriesNils<K(!new), S>(cfg: Config<K, S>, s: State<K, S>, s': State<K, S>, t: nat)
    requires NilsRetried(cfg, s) && StoringMove(cfg, s, s', t) && EntryMove(s, s', t)
    ensures NilsRetried(cfg, s')
  {
  }

  lemma StepStoresKept<K, S>(cfg: Config<K, S>, s: State<K, S>, t: nat, action: Action<K>)
    requires cfg.max > 0 && Enabled(s, t, action)
    ensures StoringMove(cfg, s, Apply(cfg, s, t, action), t)
  {
    hide LookUp, Add;
    match action
    case Lookup => LookUpMoves(s, t, client => Done(client), Missed);
    case DoubleCheck => LookUpMoves(s, t, client => Finishing(client), Creating);
    case _ =>
  }

  lemma StepMovesEntries<K(!new), S>(cfg: Config<K, S>, s: State<K, S>, t: nat, action: Action<K>)
    requires cfg.max > 0 && CacheInv(cfg, s) && Enabled(s, t, action)
    ensures EntryMove(s, Apply(cfg, s, t, action), t)
  {
    hide Conserved, Add, Touch;
    if action.Purge? {
      forall e | e in s.entries
        ensures multiset(KeysOf(s.entries))[e.key] > 0
      {
        EachKeyOnce(s.entries, e.key);
      }
    } else if action.Store? {
      var key, client := s.threads[t].key, s.threads[t].pc.client;
      AddEvictsOldest(s.entries, cfg.max, key, client);
      AddMovesEntries(s.entries, cfg.max, key, client);
    } else if t in s.threads {
      TouchKeepsEntries(s.entries, s.threads[t].key);
    }
  }

  lemma AddMovesEntries<K, V>(entries: Entries<K, V>, max: nat, key: K, value: V)
    requires 0 < max && |entries| <= max && DistinctKeys(entries) && !Cached(entries, key)
    ensures var (after, evicted) := Add(entries, max, key, value);
            && (forall e | e in after :: e in entries || e == Entry(key, value))
            && (forall e | e in entries :: e in after || evicted == Some(e))
  {
    hide Add;
    AddEvictsOldest(entries, max, key, value);
    var after := Add(entries, max, key, value).0;
    forall e | e in entries
      ensures e in after || Add(entries, max, key, value).1 == Some(e)
    {
      var i :| 0 <= i < |entries| && entries[i] == e;
      if i + 1 < |after| {
        assert after[i + 1] == e;
      }
    }
  }

  lemma StoreMovesThread<K(!new), S>(cfg: Config<K, S>, s: State<K, S>, t: nat)
    requires cfg.max > 0 && CacheInv(cfg, s) && Enabled(s, t, Store)
    ensures ThreadMove(s, Apply(cfg, s, t, Store), t)
  {
    hide Conserved, Add;
    AddEvictsOldest(s.entries, cfg.max, s.threads[t].key, s.threads[t].pc.client);
    assert Apply(cfg, s, t, Store).entries[0] == Entry(s.threads[t].key, s.threads[t].pc.client);
  }

  lemma StepMovesThread<K(!new), S>(cfg: Config<K, S>, s: State<K, S>, t: nat, action: Action<K>)
    requires cfg.max > 0 && CacheInv(cfg, s) && FlightInv(cfg, s) && Separates(cfg) && Enabled(s, t, action)
    ensures ThreadMove(s, Apply(cfg, s, t, action), t)
  {
    hide Conserved, Touch, ApplyStore, PendingUncached;
    if action.Store? {
      StoreMovesThread(cfg, s, t);
    } else if t in s.threads {
      TouchKeepsEntries(s.entries, s.threads[t].key);
    }
  }
}
