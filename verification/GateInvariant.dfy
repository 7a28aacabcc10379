/**
 What every step of a create keeps: the gate map, the gate objects and the threads agree.
 */
module GateInvariant {
  import opened ExternalConfig
  import opened GateTable
  import opened CreateMachine

  predicate UsesGate(pc: Pc, gate: nat) {
    pc.At? && pc.gate == gate
  }

  predicate HoldsGate(pc: Pc, gate: nat) {
    pc.At? && pc.gate == gate && Holds(pc.phase)
  }

  predicate SameStanding(pc: Pc, pc': Pc) {
    && pc.At? == pc'.At?
    && (pc.At? ==> pc.gate == pc'.gate && Holds(pc.phase) == Holds(pc'.phase))
  }

  ghost function Users(threads: map<nat, Thread>, gate: nat): set<nat> {
    set t | t in threads && UsesGate(threads[t].pc, gate)
  }

  ghost function Holders(threads: map<nat, Thread>, gate: nat): set<nat> {
    set t | t in threads && HoldsGate(threads[t].pc, gate)
  }

  /** Whoever waits on, holds or is about to release a gate finds that gate under its own key. */
  ghost predicate UsersPointHome(gates: map<WriteKey, nat>, threads: map<nat, Thread>) {
    forall t | t in threads && threads[t].pc.At? ::
      KeyOf(threads[t].req) in gates && gates[KeyOf(threads[t].req)] == threads[t].pc.gate
  }

  ghost predicate OneKeyPerGate(gates: map<WriteKey, nat>) {
    forall k1, k2 | k1 in gates && k2 in gates && gates[k1] == gates[k2] :: k1 == k2
  }

  /** The reference count and the channel slot agree with the threads. */
  ghost predicate Counted(objects: map<nat, Gate>, threads: map<nat, Thread>) {
    forall g | g in objects ::
      && objects[g].refs == |Users(threads, g)|
      && |Holders(threads, g)| == if objects[g].full then 1 else 0
  }

  ghost predicate ListedAreUsed(table: Table<nat>) {
    forall key | key in table.gates ::
      table.gates[key] in table.objects && table.objects[table.gates[key]].refs > 0
  }

  ghost predicate GateInv(s: State) {
    && UsersPointHome(s.table.gates, s.threads)
    && OneKeyPerGate(s.table.gates)
    && Counted(s.table.objects, s.threads)
    && ListedAreUsed(s.table)
  }

  lemma DifferAtMostAt(before: set<nat>, after: set<nat>, t: nat)
    requires forall u | u != t :: u in before <==> u in after
    ensures |after| == |before| + (if t in after then 1 else 0) - (if t in before then 1 else 0)
  {
    var rest := before - {t};
    assert before == if t in before then rest + {t} else rest;
    assert after == if t in after then rest + {t} else rest;
  }

  /** Only thread t moved: counts change for its old and its new gate, and for no other. */
  lemma OneMoved(threads: map<nat, Thread>, t: nat, thread: Thread, gate: nat)
    ensures |Users(threads[t := thread], gate)| ==
            |Users(threads, gate)|
            + (if UsesGate(thread.pc, gate) then 1 else 0)
            - (if t in threads && UsesGate(threads[t].pc, gate) then 1 else 0)
    ensures |Holders(threads[t := thread], gate)| ==
            |Holders(threads, gate)|
            + (if HoldsGate(thread.pc, gate) then 1 else 0)
            - (if t in threads && HoldsGate(threads[t].pc, gate) then 1 else 0)
  {
    var threads' := threads[t := thread];
    DifferAtMostAt(Users(threads, gate), Users(threads', gate), t);
    DifferAtMostAt(Holders(threads, gate), Holders(threads', gate), t);
  }

  /** Counting after a move of t, given how the one affected gate changed. */
  lemma CountedAfter(objects: map<nat, Gate>, threads: map<nat, Thread>, t: nat, thread: Thread, objects': map<nat, Gate>)
    requires Counted(objects, threads)
    requires forall g | g in objects' ::
               var gate := if g in objects then objects[g] else Gate(|Users(threads, g)|, |Holders(threads, g)| == 1);
               && objects'[g].refs == gate.refs
                  + (if UsesGate(thread.pc, g) then 1 else 0)
                  - (if t in threads && UsesGate(threads[t].pc, g) then 1 else 0)
               && |Holders(threads, g)| <= 1
               && (if objects'[g].full then 1 else 0) == (if gate.full then 1 else 0)
                  + (if HoldsGate(thread.pc, g) then 1 else 0)
                  - (if t in threads && HoldsGate(threads[t].pc, g) then 1 else 0)
    ensures Counted(objects', threads[t := thread])
  {
    forall g | g in objects'
      ensures objects'[g].refs == |Users(threads[t := thread], g)|
      ensures |Holders(threads[t := thread], g)| == if objects'[g].full then 1 else 0
    {
      OneMoved(threads, t, thread, g);
    }
  }

  /** A step that neither enters, leaves, fills nor empties a gate. */
  lemma QuietStep(s: State, s': State, t: nat, thread: Thread)
    requires GateInv(s) && s'.table == s.table && s'.threads == s.threads[t := thread]
    requires if t in s.threads
             then thread.req == s.threads[t].req && SameStanding(thread.pc, s.threads[t].pc)
             else thread.pc.Arriving?
    ensures GateInv(s')
  {
    CountedAfter(s.table.objects, s.threads, t, thread, s.table.objects);
  }

  lemma UnknownGateUnused(s: State, gate: nat)
    requires GateInv(s) && gate !in s.table.objects
    ensures |Users(s.threads, gate)| == 0 && |Holders(s.threads, gate)| == 0
  {
    forall u | u in s.threads
      ensures !UsesGate(s.threads[u].pc, gate)
    {
      if s.threads[u].pc.At? {
        assert KeyOf(s.threads[u].req) in s.table.gates;
      }
    }
    assert Users(s.threads, gate) == {} && Holders(s.threads, gate) == {};
  }

  lemma EnterStep(s: State, t: nat, newGate: nat)
    requires GateInv(s) && t in s.threads && s.threads[t].pc.Arriving? && newGate !in s.table.objects
    requires Closed(s.table)
    ensures GateInv(ApplyEnter(s, t, newGate))
  {
    EnterKeepsTable(s, t, newGate);
    EnterKeepsCounts(s, t, newGate);
  }

  lemma EnterKeepsTable(s: State, t: nat, newGate: nat)
    requires GateInv(s) && t in s.threads && s.threads[t].pc.Arriving? && newGate !in s.table.objects
    requires Closed(s.table)
    ensures var s' := ApplyEnter(s, t, newGate);
            UsersPointHome(s'.table.gates, s'.threads) && OneKeyPerGate(s'.table.gates) && ListedAreUsed(s'.table)
  {
  }

  lemma EnterKeepsCounts(s: State, t: nat, newGate: nat)
    requires GateInv(s) && t in s.threads && s.threads[t].pc.Arriving? && newGate !in s.table.objects
    requires Closed(s.table)
    ensures var s' := ApplyEnter(s, t, newGate); Counted(s'.table.objects, s'.threads)
  {
    var s' := ApplyEnter(s, t, newGate);
    UnknownGateUnused(s, newGate);
    CountedAfter(s.table.objects, s.threads, t, s'.threads[t], s'.table.objects);
  }

  /** The thread fills the empty slot of its gate, or empties the slot it filled. */
  predicate TurnsSlot(s: State, t: nat, pc: Pc) {
    && t in s.threads && s.threads[t].pc.At? && pc.At?
    && var was := s.threads[t].pc;
       && was.gate == pc.gate && Holds(was.phase) != Holds(pc.phase) && pc.gate in s.table.objects
       && s.table.objects[pc.gate].full == Holds(was.phase)
  }

  lemma ChannelStep(s: State, t: nat, pc: Pc)
    requires GateInv(s) && TurnsSlot(s, t, pc)
    ensures GateInv(Goto(s.(table := SetFull(s.table, pc.gate, Holds(pc.phase))), t, pc))
  {
    ChannelKeepsTable(s, t, pc);
    ChannelKeepsCounts(s, t, pc);
  }

  lemma ChannelKeepsTable(s: State, t: nat, pc: Pc)
    requires GateInv(s) && TurnsSlot(s, t, pc)
    ensures var s' := Goto(s.(table := SetFull(s.table, pc.gate, Holds(pc.phase))), t, pc);
            UsersPointHome(s'.table.gates, s'.threads) && OneKeyPerGate(s'.table.gates) && ListedAreUsed(s'.table)
  {
    hide Counted, Holds;
  }

  lemma ChannelKeepsCounts(s: State, t: nat, pc: Pc)
    requires GateInv(s) && TurnsSlot(s, t, pc)
    ensures var s' := Goto(s.(table := SetFull(s.table, pc.gate, Holds(pc.phase))), t, pc);
            Counted(s'.table.objects, s'.threads)
  {
    hide UsersPointHome, OneKeyPerGate, ListedAreUsed, Holds, KeyOf;
    var objects' := SetFull(s.table, pc.gate, Holds(pc.phase)).objects;
    forall g | g in objects'
      ensures |Holders(s.threads, g)| <= 1
    {
      assert g in s.table.objects;
    }
    CountedAfter(s.table.objects, s.threads, t, s.threads[t].(pc := pc), objects');
  }

  lemma LeaveStep(s: State, t: nat)
    requires GateInv(s) && t in s.threads && s.threads[t].pc.At? && s.threads[t].pc.phase.Releasing?
    requires s.threads[t].pc.gate in s.table.objects
    ensures GateInv(ApplyLeave(s, t))
  {
    LeaveKeepsCounts(s, t);
    LeaveKeepsTable(s, t);
  }

  lemma LeaveKeepsCounts(s: State, t: nat)
    requires GateInv(s) && t in s.threads && s.threads[t].pc.At? && s.threads[t].pc.phase.Releasing?
    requires s.threads[t].pc.gate in s.table.objects
    ensures var s' := ApplyLeave(s, t); Counted(s'.table.objects, s'.threads)
  {
    var s' := ApplyLeave(s, t);
    CountedAfter(s.table.objects, s.threads, t, s'.threads[t], s'.table.objects);
  }

  lemma {:induction false} LeaveKeepsTable(s: State, t: nat)
    requires GateInv(s) && t in s.threads && s.threads[t].pc.At? && s.threads[t].pc.phase.Releasing?
    requires s.threads[t].pc.gate in s.table.objects
    requires var s' := ApplyLeave(s, t); Counted(s'.table.objects, s'.threads)
    ensures var s' := ApplyLeave(s, t);
            UsersPointHome(s'.table.gates, s'.threads) && OneKeyPerGate(s'.table.gates) && ListedAreUsed(s'.table)
  {
    var s' := ApplyLeave(s, t);
    var key, gate := KeyOf(s.threads[t].req), s.threads[t].pc.gate;
    forall u | u in s'.threads && s'.threads[u].pc.At?
      ensures KeyOf(s'.threads[u].req) in s'.table.gates
    {
      if KeyOf(s'.threads[u].req) == key {
        assert u in Users(s'.threads, gate);
      }
    }
  }

  lemma {:induction false} UnderStanding(parse: DurationParser, s: State, t: nat, action: Action)
    requires t in s.threads && s.threads[t].pc.At? && s.threads[t].pc.gate in s.table.objects
    requires action !in {Send, Receive, LeaveTable}
    requires PhaseAllows(s.threads[t].pc.phase, s.table.objects[s.threads[t].pc.gate].full, s.threads[t].cancelled, action)
    ensures var s' := ApplyUnder(parse, s, t, action);
            && s'.table == s.table && t in s'.threads && s'.threads == s.threads[t := s'.threads[t]]
            && s'.threads[t].req == s.threads[t].req && SameStanding(s'.threads[t].pc, s.threads[t].pc)
  {
    hide Plan;
  }

  lemma {:induction false} UnderStep(parse: DurationParser, s: State, t: nat, action: Action)
    requires GateInv(s) && t in s.threads && s.threads[t].pc.At? && s.threads[t].pc.gate in s.table.objects
    requires action !in {Send, Receive, LeaveTable}
    requires PhaseAllows(s.threads[t].pc.phase, s.table.objects[s.threads[t].pc.gate].full, s.threads[t].cancelled, action)
    ensures GateInv(ApplyUnder(parse, s, t, action))
  {
    hide ApplyUnder, GateInv, SameStanding;
    UnderStanding(parse, s, t, action);
    var s' := ApplyUnder(parse, s, t, action);
    QuietStep(s, s', t, s'.threads[t]);
  }

  lemma {:induction false} StepKeepsGateInv(parse: DurationParser, s: State, t: nat, action: Action)
    requires GateInv(s) && Enabled(s, t, action)
    ensures GateInv(Apply(parse, s, t, action))
  {
    hide GateInv, ApplyUnder, ApplyLeave, ApplyEnter;
    match action
    case Spawn(req) => QuietStep(s, Apply(parse, s, t, action), t, Thread(req, Arriving, false));
    case Cancel => QuietStep(s, Apply(parse, s, t, action), t, s.threads[t].(cancelled := true));
    case RefuseEntry => QuietStep(s, Apply(parse, s, t, action), t, s.threads[t].(pc := Finished(Cancelled)));
    case EnterTable(newGate) => EnterStep(s, t, newGate);
    case Send => HolderCount(s, t); ChannelStep(s, t, At(s.threads[t].pc.gate, Sent));
    case Receive => HolderCount(s, t); ChannelStep(s, t, At(s.threads[t].pc.gate, Releasing(s.threads[t].pc.phase.outcome)));
    case LeaveTable => LeaveStep(s, t);
    case _ => UnderStep(parse, s, t, action);
  }

  /** A thread inside finds its gate in the table, and the slot full if it holds it. */
  lemma {:induction false} HolderCount(s: State, t: nat)
    requires GateInv(s) && t in s.threads && s.threads[t].pc.At?
    ensures s.threads[t].pc.gate in s.table.objects
    ensures Holds(s.threads[t].pc.phase) ==> s.table.objects[s.threads[t].pc.gate].full
  {
    var gate := s.threads[t].pc.gate;
    assert KeyOf(s.threads[t].req) in s.table.gates;
    if Holds(s.threads[t].pc.phase) {
      assert t in Holders(s.threads, gate);
    }
  }

  lemma {:induction false} RunKeepsGateInv(parse: DurationParser, store: map<WriteKey, Json>, run: seq<(nat, Action)>)
    requires Run(parse, store, run).Some?
    ensures GateInv(Run(parse, store, run).value)
  {
    if run == [] {
    } else {
      var last := |run| - 1;
      RunKeepsGateInv(parse, store, run[..last]);
      StepKeepsGateInv(parse, Run(parse, store, run[..last]).value, run[last].0, run[last].1);
    }
  }
}
