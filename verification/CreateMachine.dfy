/**
 External creates as a transition system: any number of threads, each taking the gate of
 its destination, reading the stored document, planning the replacement and posting it,
 with cancellation possible before any step.
 */
module CreateMachine {
  import opened Wrappers
  import opened ExternalConfig
  import opened GateTable

  datatype Outcome = Created | Cancelled | ReadFailed | Refused(error: Error) | WriteFailed

  /** Where a thread that has been counted at a gate stands. */
  datatype Phase =
    | Waiting                      // in the select
    | Sent                         // slot taken, before the second context check
    | Reading
    | Writing(doc: Json)           // planned replacement in hand
    | Unlocking(outcome: Outcome)  // about to empty the slot
    | Releasing(outcome: Outcome)  // about to be uncounted

  datatype Pc =
    | Arriving                     // before the first context check
    | At(gate: nat, phase: Phase)
    | Finished(outcome: Outcome)

  datatype Thread = Thread(req: Request, pc: Pc, cancelled: bool)

  datatype State = State(
    table: Table<nat>,
    threads: map<nat, Thread>,
    store: map<WriteKey, Json>,  // the backend
    posted: seq<nat>)            // threads whose POST applied, in that order

  datatype Action =
    | Spawn(req: Request)
    | Cancel
    | RefuseEntry            // the first ctx.Err() check fails
    | EnterTable(newGate: nat)
    | Send
    | GiveUp                 // the ctx.Done() arm of the select
    | AbortAfterSend         // the second ctx.Err() check fails
    | Proceed
    | Read
    | FailRead               // transport error or another status
    | Post
    | FailPost
    | Receive
    | LeaveTable

  /** The thread's send has filled the slot and its receive has not emptied it. */
  predicate Holds(phase: Phase) {
    !phase.Waiting? && !phase.Releasing?
  }

  function Lookup(store: map<WriteKey, Json>, key: WriteKey): Option<Json> {
    if key in store then Some(store[key]) else None
  }

  predicate Enabled(s: State, t: nat, action: Action) {
    match action
    case Spawn(_) => t !in s.threads
    case Cancel => t in s.threads
    case RefuseEntry => t in s.threads && s.threads[t].pc.Arriving? && s.threads[t].cancelled
    case EnterTable(newGate) =>
      t in s.threads && s.threads[t].pc.Arriving? && newGate !in s.table.objects && Closed(s.table)
    case _ =>
      && t in s.threads
      && s.threads[t].pc.At?
      && s.threads[t].pc.gate in s.table.objects
      && PhaseAllows(s.threads[t].pc.phase, s.table.objects[s.threads[t].pc.gate].full, s.threads[t].cancelled, action)
  }

  predicate PhaseAllows(phase: Phase, full: bool, cancelled: bool, action: Action) {
    match action
    case Send => phase.Waiting? && !full
    case GiveUp => phase.Waiting? && cancelled
    case AbortAfterSend => phase.Sent? && cancelled
    case Proceed => phase.Sent? && !cancelled
    case Read => phase.Reading?
    case FailRead => phase.Reading?
    case Post => phase.Writing?
    case FailPost => phase.Writing?
    case Receive => phase.Unlocking? && full
    case LeaveTable => phase.Releasing?
    case _ => false
  }

  function Goto(s: State, t: nat, pc: Pc): State
    requires t in s.threads
  {
    s.(threads := s.threads[t := s.threads[t].(pc := pc)])
  }

  function Apply(parse: DurationParser, s: State, t: nat, action: Action): State
    requires Enabled(s, t, action)
  {
    match action
    case Spawn(req) => s.(threads := s.threads[t := Thread(req, Arriving, false)])
    case Cancel => s.(threads := s.threads[t := s.threads[t].(cancelled := true)])
    case RefuseEntry => Goto(s, t, Finished(Cancelled))
    case EnterTable(newGate) => ApplyEnter(s, t, newGate)
    case Send => Goto(s.(table := SetFull(s.table, s.threads[t].pc.gate, true)), t, At(s.threads[t].pc.gate, Sent))
    case Receive =>
      Goto(s.(table := SetFull(s.table, s.threads[t].pc.gate, false)), t,
           At(s.threads[t].pc.gate, Releasing(s.threads[t].pc.phase.outcome)))
    case LeaveTable => ApplyLeave(s, t)
    case _ => ApplyUnder(parse, s, t, action)
  }

  function ApplyEnter(s: State, t: nat, newGate: nat): State
    requires t in s.threads && Closed(s.table)
  {
    var key := KeyOf(s.threads[t].req);
    var table := Enter(s.table, key, newGate);
    Goto(s.(table := table), t, At(table.gates[key], Waiting))
  }

  function ApplyLeave(s: State, t: nat): State
    requires t in s.threads && s.threads[t].pc.At? && s.threads[t].pc.phase.Releasing?
    requires s.threads[t].pc.gate in s.table.objects
  {
    Goto(s.(table := Release(s.table, KeyOf(s.threads[t].req), s.threads[t].pc.gate)), t,
         Finished(s.threads[t].pc.phase.outcome))
  }

  /** The steps that leave the gate table alone. */
  function ApplyUnder(parse: DurationParser, s: State, t: nat, action: Action): State
    requires t in s.threads && s.threads[t].pc.At?
    requires action.Post? ==> s.threads[t].pc.phase.Writing?
  {
    var gate := s.threads[t].pc.gate;
    var key := KeyOf(s.threads[t].req);
    match action
    case GiveUp => Goto(s, t, At(gate, Releasing(Cancelled)))
    case AbortAfterSend => Goto(s, t, At(gate, Unlocking(Cancelled)))
    case Proceed => Goto(s, t, At(gate, Reading))
    case Read =>
      (match Plan(parse, s.threads[t].req, Lookup(s.store, key))
       case Ok(doc) => Goto(s, t, At(gate, Writing(doc)))
       case Err(e) => Goto(s, t, At(gate, Unlocking(Refused(e)))))
    case FailRead => Goto(s, t, At(gate, Unlocking(ReadFailed)))
    case Post =>
      Goto(s.(store := s.store[key := s.threads[t].pc.phase.doc], posted := s.posted + [t]), t, At(gate, Unlocking(Created)))
    case FailPost => Goto(s, t, At(gate, Unlocking(WriteFailed)))
    case _ => s
  }

  function Start(store: map<WriteKey, Json>): State {
    State(Table(map[], map[]), map[], store, [])
  }

  /** Every interleaving: the state after a run, None if some action was not enabled. */
  function Run(parse: DurationParser, store: map<WriteKey, Json>, run: seq<(nat, Action)>): Option<State> {
    if run == [] then Some(Start(store))
    else
      var last := |run| - 1;
      match Run(parse, store, run[..last])
      case None => None
      case Some(s) =>
        if Enabled(s, run[last].0, run[last].1) then Some(Apply(parse, s, run[last].0, run[last].1)) else None
  }
}
