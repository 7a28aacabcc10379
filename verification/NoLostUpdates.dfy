/**
 What the gate buys: every interleaving of creates leaves the backend as if the successful
 ones had run one after another, in the order their POSTs applied.
 */
module NoLostUpdates {
  import opened Wrappers
  import opened ExternalConfig
  import opened CreateMachine
  import opened GateInvariant
  import opened GateSafety

  /** Creates run one at a time, each reading what the previous one stored; None if one of them refuses. */
  function Replay(parse: DurationParser, store: map<WriteKey, Json>, reqs: seq<Request>): Option<map<WriteKey, Json>> {
    if reqs == [] then Some(store)
    else
      var last := reqs[|reqs| - 1];
      match Replay(parse, store, reqs[..|reqs| - 1])
      case None => None
      case Some(before) =>
        match Plan(parse, last, Lookup(before, KeyOf(last)))
        case Err(_) => None
        case Ok(doc) => Some(before[KeyOf(last) := doc])
  }

  ghost function Requests(threads: map<nat, Thread>, posted: seq<nat>): (reqs: seq<Request>)
    requires forall i | 0 <= i < |posted| :: posted[i] in threads
    ensures |reqs| == |posted| && forall i | 0 <= i < |posted| :: reqs[i] == threads[posted[i]].req
  {
    seq(|posted|, i requires 0 <= i < |posted| => threads[posted[i]].req)
  }

  predicate Succeeded(pc: Pc) {
    match pc
    case Arriving => false
    case At(_, Unlocking(outcome)) => outcome == Created
    case At(_, Releasing(outcome)) => outcome == Created
    case At(_, _) => false
    case Finished(outcome) => outcome == Created
  }

  /** A planned replacement is still the one the current document calls for. */
  ghost predicate PlansCurrent(parse: DurationParser, s: State) {
    forall t | t in s.threads && s.threads[t].pc.At? && s.threads[t].pc.phase.Writing? ::
      Plan(parse, s.threads[t].req, Lookup(s.store, KeyOf(s.threads[t].req))) == Ok(s.threads[t].pc.phase.doc)
  }

  ghost predicate PostedAreSuccesses(s: State) {
    && (forall i | 0 <= i < |s.posted| :: s.posted[i] in s.threads)
    && (forall i, j | 0 <= i < j < |s.posted| :: s.posted[i] != s.posted[j])
    && (forall t | t in s.threads :: t in s.posted <==> Succeeded(s.threads[t].pc))
  }

  ghost predicate Serial(parse: DurationParser, store: map<WriteKey, Json>, s: State) {
    && PostedAreSuccesses(s)
    && Replay(parse, store, Requests(s.threads, s.posted)) == Some(s.store)
  }

  /** A step that leaves the backend alone and keeps the successes. */
  lemma StepWithoutPost(parse: DurationParser, store: map<WriteKey, Json>, s: State, t: nat, action: Action)
    requires Serial(parse, store, s) && PlansCurrent(parse, s) && Enabled(s, t, action) && !action.Post?
    ensures var s' := Apply(parse, s, t, action); Serial(parse, store, s') && PlansCurrent(parse, s')
  {
    hide Replay, Apply, PlansCurrent, PostedAreSuccesses;
    var s' := Apply(parse, s, t, action);
    OnlyOneMoves(parse, s, t, action);
    SuccessesStay(s, s', t);
    PlansStay(parse, s, s', t);
    assert Requests(s'.threads, s'.posted) == Requests(s.threads, s.posted);
  }

  /** What a step other than a POST does to the rest of the state. */
  ghost predicate QuietMove(parse: DurationParser, s: State, s': State, t: nat) {
    && s'.posted == s.posted && s'.store == s.store
    && t in s'.threads && s'.threads == s.threads[t := s'.threads[t]]
    && (t in s.threads ==> s'.threads[t].req == s.threads[t].req)
    && (Succeeded(s'.threads[t].pc) <==> t in s.threads && Succeeded(s.threads[t].pc))
    && (s'.threads[t].pc.At? && s'.threads[t].pc.phase.Writing? ==>
          || (t in s.threads && s'.threads[t].pc == s.threads[t].pc)
          || Plan(parse, s'.threads[t].req, Lookup(s.store, KeyOf(s'.threads[t].req))) == Ok(s'.threads[t].pc.phase.doc))
  }

  lemma OnlyOneMoves(parse: DurationParser, s: State, t: nat, action: Action)
    requires Enabled(s, t, action) && !action.Post?
    ensures QuietMove(parse, s, Apply(parse, s, t, action), t)
  {
    hide Plan, KeyOf, Lookup;
  }

  lemma SuccessesStay(s: State, s': State, t: nat)
    requires PostedAreSuccesses(s)
    requires s'.posted == s.posted && t in s'.threads && s'.threads == s.threads[t := s'.threads[t]]
    requires Succeeded(s'.threads[t].pc) <==> t in s.threads && Succeeded(s.threads[t].pc)
    ensures PostedAreSuccesses(s')
  {
  }

  lemma PlansStay(parse: DurationParser, s: State, s': State, t: nat)
    requires PlansCurrent(parse, s) && QuietMove(parse, s, s', t)
    ensures PlansCurrent(parse, s')
  {
    hide Plan, KeyOf, Lookup, Succeeded;
  }

  lemma PostStep(parse: DurationParser, store: map<WriteKey, Json>, s: State, t: nat)
    requires GateInv(s) && Serial(parse, store, s) && PlansCurrent(parse, s) && Enabled(s, t, Post)
    ensures var s' := Apply(parse, s, t, Post); Serial(parse, store, s') && PlansCurrent(parse, s')
  {
    hide PlansCurrent, GateInv, PostedAreSuccesses;
    PostIsSuccess(parse, s, t);
    PostKeepsOtherPlans(parse, s, t);
    PostReplays(parse, store, s, t);
  }

  lemma {:induction false} PostReplays(parse: DurationParser, store: map<WriteKey, Json>, s: State, t: nat)
    requires Serial(parse, store, s) && PlansCurrent(parse, s) && Enabled(s, t, Post)
    requires PostedAreSuccesses(Apply(parse, s, t, Post))
    ensures var s' := Apply(parse, s, t, Post); Replay(parse, store, Requests(s'.threads, s'.posted)) == Some(s'.store)
  {
    hide Plan, KeyOf, Succeeded;
    var s' := Apply(parse, s, t, Post);
    var reqs, reqs' := Requests(s.threads, s.posted), Requests(s'.threads, s'.posted);
    assert reqs' == reqs + [s.threads[t].req];
    assert reqs'[..|reqs'| - 1] == reqs;
  }

  lemma PostIsSuccess(parse: DurationParser, s: State, t: nat)
    requires PostedAreSuccesses(s) && Enabled(s, t, Post)
    ensures PostedAreSuccesses(Apply(parse, s, t, Post))
  {
    var s' := Apply(parse, s, t, Post);
    assert t !in s.posted && s'.posted == s.posted + [t];
    forall u | u in s'.threads
      ensures u in s'.posted <==> Succeeded(s'.threads[u].pc)
    {
      assert u in s'.posted <==> u in s.posted || u == t;
    }
  }

  /** Mutual exclusion at work: nobody else can be holding a plan for the same document. */
  lemma {:induction false} PostKeepsOtherPlans(parse: DurationParser, s: State, t: nat)
    requires GateInv(s) && PlansCurrent(parse, s) && Enabled(s, t, Post)
    ensures PlansCurrent(parse, Apply(parse, s, t, Post))
  {
    hide Plan, GateInv;
    var s' := Apply(parse, s, t, Post);
    forall u | u in s'.threads && s'.threads[u].pc.At? && s'.threads[u].pc.phase.Writing?
      ensures Lookup(s'.store, KeyOf(s'.threads[u].req)) == Lookup(s.store, KeyOf(s.threads[u].req))
    {
      if KeyOf(s.threads[u].req) == KeyOf(s.threads[t].req) {
        OneHolderPerKey(s, t, u);
      }
    }
  }

  /**
   Serializability of every run: the backend holds exactly what replaying the successful creates in
   POST order gives, and the successful creates are exactly the threads that report success.
   */
  lemma {:induction false} EveryRunIsSerial(parse: DurationParser, store: map<WriteKey, Json>, run: seq<(nat, Action)>)
    requires Run(parse, store, run).Some?
    ensures Serial(parse, store, Run(parse, store, run).value)
    ensures PlansCurrent(parse, Run(parse, store, run).value)
  {
    if run == [] {
    } else {
      var last := |run| - 1;
      var s := Run(parse, store, run[..last]).value;
      EveryRunIsSerial(parse, store, run[..last]);
      if run[last].1.Post? {
        RunKeepsGateInv(parse, store, run[..last]);
        PostStep(parse, store, s, run[last].0);
      } else {
        StepWithoutPost(parse, store, s, run[last].0, run[last].1);
      }
    }
  }

  // ----- what a serial replay leaves behind

  /** The entries that the requests for one key contribute, in order. */
  function Additions(reqs: seq<Request>, key: WriteKey): seq<Json> {
    if reqs == [] then []
    else
      var last := reqs[|reqs| - 1];
      Additions(reqs[..|reqs| - 1], key) + if KeyOf(last) == key then [Encode(last)] else []
  }

  /** The first request for a key. */
  function FirstFor(reqs: seq<Request>, key: WriteKey): Option<Request> {
    if reqs == [] then None
    else
      var before := FirstFor(reqs[..|reqs| - 1], key);
      var last := reqs[|reqs| - 1];
      if before.None? && KeyOf(last) == key then Some(last) else before
  }

  /** What a group that did not exist is created with: the name and the interval of the first request for it. */
  ghost predicate StartsAsGroup(doc: Option<Json>, reqs: seq<Request>, key: WriteKey) {
    && doc.Some? && FirstFor(reqs, key).Some? && FirstFor(reqs, key).value.CreateRule?
    && Rest(key.receiver, doc.value).0 == NewGroup(FirstFor(reqs, key).value)
  }

  lemma {:induction false} ReplayAppends(parse: DurationParser, store: map<WriteKey, Json>, reqs: seq<Request>, key: WriteKey)
    requires Replay(parse, store, reqs).Some?
    ensures var after := Replay(parse, store, reqs).value;
            && Entries(key.receiver, Lookup(after, key)) == Entries(key.receiver, Lookup(store, key)) + Additions(reqs, key)
            && (key in store ==> key in after && Rest(key.receiver, after[key]) == Rest(key.receiver, store[key]))
            && (Additions(reqs, key) == [] ==> Lookup(after, key) == Lookup(store, key))
  {
    if reqs != [] {
      var last := reqs[|reqs| - 1];
      var before := Replay(parse, store, reqs[..|reqs| - 1]).value;
      ReplayAppends(parse, store, reqs[..|reqs| - 1], key);
      PlanAppends(parse, last, Lookup(before, KeyOf(last)));
    }
  }

  lemma {:induction false} NoRequestNoAddition(reqs: seq<Request>, key: WriteKey)
    ensures FirstFor(reqs, key).None? <==> Additions(reqs, key) == []
  {
    if reqs != [] {
      NoRequestNoAddition(reqs[..|reqs| - 1], key);
    }
  }

  /** A key that was absent gets its group from the first successful request, and keeps its fields from then on. */
  lemma {:induction false} ReplayCreates(parse: DurationParser, store: map<WriteKey, Json>, reqs: seq<Request>, key: WriteKey)
    requires Replay(parse, store, reqs).Some? && key !in store
    ensures var after := Replay(parse, store, reqs).value;
            if Additions(reqs, key) == [] then key !in after else StartsAsGroup(Lookup(after, key), reqs, key)
  {
    hide Plan, Encode, Rest, NewGroup, KeyOf, Entries;
    if reqs != [] {
      var last := reqs[|reqs| - 1];
      var before := Replay(parse, store, reqs[..|reqs| - 1]).value;
      ReplayCreates(parse, store, reqs[..|reqs| - 1], key);
      NoRequestNoAddition(reqs[..|reqs| - 1], key);
      PlanAppends(parse, last, Lookup(before, KeyOf(last)));
      KeyOfReceiver(last);
    }
  }

  lemma KeyOfReceiver(req: Request)
    ensures KeyOf(req).receiver == req.CreateReceiver?
  {
  }

  /** Names of one list that are pairwise different from each other and from everything before them. */
  ghost predicate NamesNewFrom(receiver: bool, entries: seq<Json>, start: nat) {
    forall i, j | 0 <= i < j < |entries| && start <= j ::
      EntryName(receiver, entries[i]) != EntryName(receiver, entries[j])
  }

  lemma {:induction false} ReplayKeepsNamesApart(parse: DurationParser, store: map<WriteKey, Json>, reqs: seq<Request>, key: WriteKey)
    requires Replay(parse, store, reqs).Some?
    ensures var after := Replay(parse, store, reqs).value;
            NamesNewFrom(key.receiver, Entries(key.receiver, Lookup(after, key)), |Entries(key.receiver, Lookup(store, key))|)
  {
    if reqs != [] {
      var last := reqs[|reqs| - 1];
      var before := Replay(parse, store, reqs[..|reqs| - 1]).value;
      ReplayKeepsNamesApart(parse, store, reqs[..|reqs| - 1], key);
      PlanAppends(parse, last, Lookup(before, KeyOf(last)));
      EncodedName(last);
    }
  }

  /**
   No lost updates: after any interleaving, the list stored under a key is the initial list followed by
   the entries of the successful creates in POST order; no created name repeats; every other
   field is as it was, or as the first of them made it; and a key that no create succeeded on is untouched.
   */
  lemma {:induction false} NothingIsLost(parse: DurationParser, store: map<WriteKey, Json>, run: seq<(nat, Action)>, key: WriteKey)
    requires Run(parse, store, run).Some?
    ensures var s := Run(parse, store, run).value;
            && PostedAreSuccesses(s)
            && var added := Additions(Requests(s.threads, s.posted), key);
               var initial := Entries(key.receiver, Lookup(store, key));
               && Entries(key.receiver, Lookup(s.store, key)) == initial + added
               && NamesNewFrom(key.receiver, initial + added, |initial|)
               && (key in store ==> key in s.store && Rest(key.receiver, s.store[key]) == Rest(key.receiver, store[key]))
               && (key !in store && added != [] ==> StartsAsGroup(Lookup(s.store, key), Requests(s.threads, s.posted), key))
               && (added == [] ==> Lookup(s.store, key) == Lookup(store, key))
  {
    EveryRunIsSerial(parse, store, run);
    var s := Run(parse, store, run).value;
    ReplayAppends(parse, store, Requests(s.threads, s.posted), key);
    ReplayKeepsNamesApart(parse, store, Requests(s.threads, s.posted), key);
    if key !in store {
      ReplayCreates(parse, store, Requests(s.threads, s.posted), key);
    }
  }
}
