/**
 The client cache as a transition system: any number of requests, each looking its key up, joining or
 leading the one flight of its key, and storing what it creates; the cache may be emptied at any time.
 */
module CacheMachine {
  import opened Wrappers
  import opened Lru

  /** A client and the key that createFn built it for. */
  datatype Client<+K> = Nil | Made(key: K, serial: nat)

  datatype Pc<+K> =
    | Arriving
    | Missed                       // the fast lookup found nothing
    | Leading                      // won the flight, before the second lookup
    | Creating                     // inside createFn
    | Storing(client: Client<K>)   // before Add
    | Finishing(client: Client<K>) // the flight's function has returned
    | Waiting(leader: nat)         // joined the flight of another request
    | Done(client: Client<K>)

  datatype Thread<+K> = Thread(key: K, pc: Pc<K>)

  /** flightKey groups requests into flights; a Kubernetes cache does not keep nil clients. */
  datatype Config<!K, +S> = Config(max: nat, keepsNil: bool, flightKey: K -> S)

  datatype State<!K, !S> = State(
    entries: Entries<K, Client<K>>,
    flights: map<S, nat>,
    threads: map<nat, Thread<K>>,
    made: multiset<K>,  // creations that are to be cached, by key
    gone: multiset<K>)  // entries evicted or purged, by key

  datatype Action<+K> =
    | Spawn(key: K)
    | Lookup
    | JoinOrLead
    | DoubleCheck
    | Create(client: Client<K>)
    | Store
    | Finish
    | Wake
    | Purge

  /** The thread is inside its flight's function, or about to end the flight. */
  predicate Leads<K>(pc: Pc<K>) {
    pc.Leading? || pc.Creating? || pc.Storing? || pc.Finishing?
  }

  predicate Enabled<K(==), S(==)>(s: State<K, S>, t: nat, action: Action<K>) {
    match action
    case Spawn(_) => t !in s.threads
    case Purge => true
    case Lookup => t in s.threads && s.threads[t].pc.Arriving?
    case JoinOrLead => t in s.threads && s.threads[t].pc.Missed?
    case DoubleCheck => t in s.threads && s.threads[t].pc.Leading?
    case Create(client) => t in s.threads && s.threads[t].pc.Creating? && (client.Made? ==> client.key == s.threads[t].key)
    case Store => t in s.threads && s.threads[t].pc.Storing?
    case Finish => t in s.threads && s.threads[t].pc.Finishing?
    case Wake =>
      && t in s.threads && s.threads[t].pc.Waiting?
      && s.threads[t].pc.leader in s.threads && s.threads[s.threads[t].pc.leader].pc.Done?
  }

  function Goto<K, S>(s: State<K, S>, t: nat, pc: Pc<K>): State<K, S>
    requires t in s.threads
  {
    s.(threads := s.threads[t := s.threads[t].(pc := pc)])
  }

  /** A lookup: a hit is touched and answered by found, a miss goes on at missed. */
  function LookUp<K(==), S>(s: State<K, S>, t: nat, found: Client<K> -> Pc<K>, missed: Pc<K>): State<K, S>
    requires t in s.threads
  {
    var key := s.threads[t].key;
    match Find(s.entries, key)
    case None => Goto(s, t, missed)
    case Some(client) => Goto(s.(entries := Touch(s.entries, key)), t, found(client))
  }

  function ApplyStore<K(==), S>(cfg: Config<K, S>, s: State<K, S>, t: nat): State<K, S>
    requires cfg.max > 0 && t in s.threads && s.threads[t].pc.Storing?
  {
    var (after, evicted) := Add(s.entries, cfg.max, s.threads[t].key, s.threads[t].pc.client);
    var gone := match evicted case None => multiset{} case Some(entry) => multiset{entry.key};
    Goto(s.(entries := after, gone := s.gone + gone), t, Finishing(s.threads[t].pc.client))
  }

  function KeysOf<K, V>(entries: Entries<K, V>): seq<K> {
    seq(|entries|, i requires 0 <= i < |entries| => entries[i].key)
  }

  function Apply<K(==), S(==)>(cfg: Config<K, S>, s: State<K, S>, t: nat, action: Action<K>): State<K, S>
    requires cfg.max > 0 && Enabled(s, t, action)
  {
    match action
    case Spawn(key) => s.(threads := s.threads[t := Thread(key, Arriving)])
    case Purge => s.(entries := [], gone := s.gone + multiset(KeysOf(s.entries)))
    case Lookup => LookUp(s, t, client => Done(client), Missed)
    case JoinOrLead =>
      var flight := cfg.flightKey(s.threads[t].key);
      if flight in s.flights then Goto(s, t, Waiting(s.flights[flight]))
      else Goto(s.(flights := s.flights[flight := t]), t, Leading)
    case DoubleCheck => LookUp(s, t, client => Finishing(client), Creating)
    case Create(client) =>
      if client.Nil? && !cfg.keepsNil then Goto(s, t, Finishing(Nil))
      else Goto(s.(made := s.made + multiset{s.threads[t].key}), t, Storing(client))
    case Store => ApplyStore(cfg, s, t)
    case Finish =>
      Goto(s.(flights := s.flights - {cfg.flightKey(s.threads[t].key)}), t, Done(s.threads[t].pc.client))
    case Wake => Goto(s, t, Done(s.threads[s.threads[t].pc.leader].pc.client))
  }

  function Start<K, S>(): State<K, S> {
    State([], map[], map[], multiset{}, multiset{})
  }

  /** Every interleaving: the state after a run, None if some action was not enabled. */
  function Run<K(==), S(==)>(cfg: Config<K, S>, run: seq<(nat, Action<K>)>): Option<State<K, S>>
    requires cfg.max > 0
  {
    if run == [] then Some(Start())
    else
      var last := |run| - 1;
      match Run(cfg, run[..last])
      case None => None
      case Some(s) =>
        if Enabled(s, run[last].0, run[last].1) then Some(Apply(cfg, s, run[last].0, run[last].1)) else None
  }
}
