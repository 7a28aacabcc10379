/**
 What the gate guarantees in every run: mutual exclusion per destination, entries that live exactly as
 long as they are used, unlocks that never wait, and progress.
 */
module GateSafety {
  import opened ExternalConfig
  import opened CreateMachine
  import opened GateInvariant

  /** At most one thread holds a destination, and all threads there share one gate. */
  lemma {:induction false} OneHolderPerKey(s: State, t: nat, u: nat)
    requires GateInv(s) && t in s.threads && u in s.threads && s.threads[t].pc.At? && s.threads[u].pc.At?
    requires KeyOf(s.threads[t].req) == KeyOf(s.threads[u].req)
    ensures s.threads[t].pc.gate == s.threads[u].pc.gate
    ensures Holds(s.threads[t].pc.phase) && Holds(s.threads[u].pc.phase) ==> t == u
  {
    if Holds(s.threads[t].pc.phase) && Holds(s.threads[u].pc.phase) {
      AtMostOne(Holders(s.threads, s.threads[t].pc.gate), t, u);
    }
  }

  lemma {:induction false} AtMostOne(numbers: set<nat>, t: nat, u: nat)
    requires |numbers| <= 1 && t in numbers && u in numbers
    ensures t == u
  {
    assert |numbers - {t}| == 0;
  }

  ghost predicate AllFinished(s: State) {
    forall t | t in s.threads :: s.threads[t].pc.Finished?
  }

  /** An entry is in the map exactly while somebody is counted on it. */
  ghost predicate ListedIffUsed(s: State) {
    forall g | g in s.table.objects ::
      s.table.objects[g].refs > 0 <==> exists key :: key in s.table.gates && s.table.gates[key] == g
  }

  ghost predicate UnlockNeverWaits(s: State) {
    forall t | t in s.threads && s.threads[t].pc.At? && s.threads[t].pc.phase.Unlocking? :: Enabled(s, t, Receive)
  }

  ghost predicate ReleaseFindsOwnEntry(s: State) {
    forall t | t in s.threads && s.threads[t].pc.At? && s.threads[t].pc.phase.Releasing? ::
      && Enabled(s, t, LeaveTable)
      && KeyOf(s.threads[t].req) in s.table.gates
      && s.table.gates[KeyOf(s.threads[t].req)] == s.threads[t].pc.gate
  }

  /**
   In every interleaving, with cancellation anywhere: a gate counts exactly its users, is in the map
   exactly while that count is positive, an unlock never waits, the entry a release deletes is its
   own, and once every thread is finished the map is empty.
   */
  lemma {:induction false} EveryRunIsSafe(parse: DurationParser, store: map<WriteKey, Json>, run: seq<(nat, Action)>)
    requires Run(parse, store, run).Some?
    ensures var s := Run(parse, store, run).value;
            && Counted(s.table.objects, s.threads)
            && ListedIffUsed(s)
            && UnlockNeverWaits(s)
            && ReleaseFindsOwnEntry(s)
            && (AllFinished(s) ==> s.table.gates == map[])
  {
    RunKeepsGateInv(parse, store, run);
    var s := Run(parse, store, run).value;
    ListingFollowsUse(s);
    InsideNeverWaits(s);
    if AllFinished(s) {
      QuietTableEmpty(s);
    }
  }

  lemma {:induction false} InsideNeverWaits(s: State)
    requires GateInv(s)
    ensures UnlockNeverWaits(s) && ReleaseFindsOwnEntry(s)
  {
    forall t | t in s.threads && s.threads[t].pc.At? && s.threads[t].pc.phase.Unlocking?
      ensures Enabled(s, t, Receive)
    {
      HolderCount(s, t);
    }
    forall t | t in s.threads && s.threads[t].pc.At? && s.threads[t].pc.phase.Releasing?
      ensures Enabled(s, t, LeaveTable)
    {
      HolderCount(s, t);
    }
  }

  lemma {:induction false} ListingFollowsUse(s: State)
    requires GateInv(s)
    ensures ListedIffUsed(s)
  {
    forall g | g in s.table.objects && s.table.objects[g].refs > 0
      ensures exists key :: key in s.table.gates && s.table.gates[key] == g
    {
      var t :| t in Users(s.threads, g);
      assert KeyOf(s.threads[t].req) in s.table.gates;
    }
  }

  lemma {:induction false} QuietTableEmpty(s: State)
    requires GateInv(s) && AllFinished(s)
    ensures s.table.gates == map[]
  {
    if s.table.gates != map[] {
      ListedMeansUnfinished(s);
    }
  }

  lemma {:induction false} ListedMeansUnfinished(s: State)
    requires GateInv(s) && s.table.gates != map[]
    ensures !AllFinished(s)
  {
    var key :| key in s.table.gates;
    var t :| t in Users(s.threads, s.table.gates[key]);
  }

  // ----- progress

  /** The set is finite, so some number is outside it. */
  lemma {:induction false} FreshNumber(used: set<nat>) returns (n: nat)
    ensures n !in used
  {
    n := 0;
    var left := used;
    while n in used
      invariant left <= used && forall u | u in used :: u in left <==> n <= u
      decreases left
    {
      left := left - {n};
      n := n + 1;
    }
  }

  /** Whatever was cancelled and whoever holds what, some unfinished thread can always move. */
  lemma {:induction false} NoDeadlock(parse: DurationParser, store: map<WriteKey, Json>, run: seq<(nat, Action)>)
    requires Run(parse, store, run).Some? && !AllFinished(Run(parse, store, run).value)
    ensures exists t, action: Action :: !action.Spawn? && !action.Cancel? && Enabled(Run(parse, store, run).value, t, action)
  {
    RunKeepsGateInv(parse, store, run);
    var s := Run(parse, store, run).value;
    var t :| t in s.threads && !s.threads[t].pc.Finished?;
    if s.threads[t].pc.Arriving? {
      var n := FreshNumber(s.table.objects.Keys);
      assert Enabled(s, t, EnterTable(n));
    } else if s.threads[t].pc.phase.Waiting? {
      HolderCount(s, t);
      var gate := s.threads[t].pc.gate;
      if !s.table.objects[gate].full {
        assert Enabled(s, t, Send);
      } else {
        var u :| u in Holders(s.threads, gate);
        InsideCanMove(s, u);
      }
    } else {
      InsideCanMove(s, t);
    }
  }

  lemma {:induction false} InsideCanMove(s: State, t: nat)
    requires GateInv(s) && t in s.threads && s.threads[t].pc.At? && !s.threads[t].pc.phase.Waiting?
    ensures exists action: Action :: !action.Spawn? && !action.Cancel? && Enabled(s, t, action)
  {
    HolderCount(s, t);
    var next := match s.threads[t].pc.phase
      case Sent => if s.threads[t].cancelled then AbortAfterSend else Proceed
      case Reading => FailRead
      case Writing(_) => FailPost
      case Unlocking(_) => Receive
      case _ => LeaveTable;
    assert Enabled(s, t, next);
  }
}
