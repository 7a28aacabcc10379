/** How a create ends: what its outcome says has happened, and how it ends when nobody disturbs it. */
module CreateOutcomes {
  import opened Wrappers
  import opened ExternalConfig
  import opened GateTable
  import opened CreateMachine
  import opened NoLostUpdates
  import opened GateInvariant
  import opened GateSafety
  import opened GateProgress

  type History = seq<(nat, Action)>

  // ----- why a thread ended as it did

  function OutcomeOf(pc: Pc): Option<Outcome> {
    match pc
    case Finished(outcome) => Some(outcome)
    case At(_, Unlocking(outcome)) => Some(outcome)
    case At(_, Releasing(outcome)) => Some(outcome)
    case _ => None
  }

  /** The step, at place k of the run, that decided an outcome. */
  ghost predicate Decided(parse: DurationParser, store: map<WriteKey, Json>, run: History, t: nat, req: Request, outcome: Outcome, k: nat) {
    && k < |run| && run[k].0 == t && Run(parse, store, run[..k]).Some?
    && match outcome
       case Created => run[k].1.Post?
       case Cancelled => run[k].1.Cancel?
       case ReadFailed => run[k].1.FailRead?
       case WriteFailed => run[k].1.FailPost?
       case Refused(error) =>
         run[k].1.Read? && Plan(parse, req, Lookup(Run(parse, store, run[..k]).value.store, KeyOf(req))) == Err(error)
  }

  ghost predicate WasCancelled(run: History, t: nat) {
    exists k :: 0 <= k < |run| && run[k] == (t, Cancel)
  }

  /** The thread's state has its causes in the run. */
  ghost predicate Explained(parse: DurationParser, store: map<WriteKey, Json>, run: History, t: nat, thread: Thread) {
    && (thread.cancelled ==> WasCancelled(run, t))
    && (OutcomeOf(thread.pc).Some? ==>
          exists k :: Decided(parse, store, run, t, thread.req, OutcomeOf(thread.pc).value, k))
  }

  lemma DecidedBefore(parse: DurationParser, store: map<WriteKey, Json>, run: History, t: nat, req: Request, outcome: Outcome, k: nat)
    requires run != [] && Decided(parse, store, run[..|run| - 1], t, req, outcome, k)
    ensures Decided(parse, store, run, t, req, outcome, k)
  {
    hide Run;
    assert run[..|run| - 1][..k] == run[..k];
  }

  /** What the last step of a run means for the outcome of a thread. */
  lemma OneStep(parse: DurationParser, s: State, t: nat, action: Action, u: nat)
    requires Enabled(s, t, action) && u in Apply(parse, s, t, action).threads
    ensures var after := Apply(parse, s, t, action).threads[u];
            if u !in s.threads then OutcomeOf(after.pc) == None && !after.cancelled
            else
              var before := s.threads[u];
              && after.req == before.req
              && (u != t ==> after == before)
              && (OutcomeOf(before.pc).Some? ==> OutcomeOf(after.pc) == OutcomeOf(before.pc))
              && after.cancelled == (before.cancelled || (u == t && action.Cancel?))
              && (OutcomeOf(before.pc) == None && OutcomeOf(after.pc).Some? ==>
                    match OutcomeOf(after.pc).value
                    case Created => action.Post?
                    case Cancelled => before.cancelled
                    case ReadFailed => action.FailRead?
                    case WriteFailed => action.FailPost?
                    case Refused(error) => action.Read? && Plan(parse, before.req, Lookup(s.store, KeyOf(before.req))) == Err(error))
  {
    hide Plan, KeyOf, Lookup, Enter, Release, SetFull;
  }

  /** An outcome always has its cause: a POST, a cancellation, a failure, or a document that refuses the entry. */
  lemma {:induction false} OutcomeSaysWhy(parse: DurationParser, store: map<WriteKey, Json>, run: History, t: nat)
    requires Run(parse, store, run).Some? && t in Run(parse, store, run).value.threads
    ensures Explained(parse, store, run, t, Run(parse, store, run).value.threads[t])
  {
    hide Apply, Enabled, Plan, Decided;
    if run != [] {
      var last := |run| - 1;
      var before := run[..last];
      var s := Run(parse, store, before).value;
      OneStep(parse, s, run[last].0, run[last].1, t);
      if t in s.threads {
        OutcomeSaysWhy(parse, store, before, t);
        LastDecides(parse, store, run, t);
      }
    }
  }

  lemma LastDecides(parse: DurationParser, store: map<WriteKey, Json>, run: History, t: nat)
    requires run != [] && Run(parse, store, run).Some?
    requires var s := Run(parse, store, run[..|run| - 1]).value;
             t in s.threads && Explained(parse, store, run[..|run| - 1], t, s.threads[t])
    ensures t in Run(parse, store, run).value.threads
    ensures Explained(parse, store, run, t, Run(parse, store, run).value.threads[t])
  {
    hide Plan, KeyOf, Lookup;
    var last := |run| - 1;
    var s := Run(parse, store, run[..last]).value;
    var action := run[last].1;
    StaysListed(parse, s, run[last].0, action, t);
    OneStep(parse, s, run[last].0, action, t);
    var thread := Run(parse, store, run).value.threads[t];
    if s.threads[t].cancelled {
      CancelledBefore(run, t);
    } else if thread.cancelled {
      assert run[last] == (t, Cancel);
    }
    if OutcomeOf(s.threads[t].pc).Some? {
      var k :| Decided(parse, store, run[..last], t, thread.req, OutcomeOf(thread.pc).value, k);
      DecidedBefore(parse, store, run, t, thread.req, OutcomeOf(thread.pc).value, k);
    } else if OutcomeOf(thread.pc).Some? {
      if OutcomeOf(thread.pc).value.Cancelled? {
        CancelDecides(parse, store, run, t, thread.req);
      } else {
        assert Decided(parse, store, run, t, thread.req, OutcomeOf(thread.pc).value, last);
      }
    }
  }

  lemma StaysListed(parse: DurationParser, s: State, t: nat, action: Action, u: nat)
    requires Enabled(s, t, action) && u in s.threads
    ensures u in Apply(parse, s, t, action).threads
  {
    hide Plan, KeyOf, Lookup;
  }

  lemma CancelledBefore(run: History, t: nat)
    requires run != [] && WasCancelled(run[..|run| - 1], t)
    ensures WasCancelled(run, t)
  {
    var k :| 0 <= k < |run| - 1 && run[..|run| - 1][k] == (t, Cancel);
    assert run[k] == (t, Cancel);
  }

  lemma CancelDecides(parse: DurationParser, store: map<WriteKey, Json>, run: History, t: nat, req: Request)
    requires WasCancelled(run, t) && Run(parse, store, run).Some?
    ensures exists k :: Decided(parse, store, run, t, req, Cancelled, k)
  {
    var k :| 0 <= k < |run| && run[k] == (t, Cancel);
    EveryPrefixRuns(parse, store, run, k);
    assert Decided(parse, store, run, t, req, Cancelled, k);
  }

  lemma {:induction false} EveryPrefixRuns(parse: DurationParser, store: map<WriteKey, Json>, run: History, k: nat)
    requires Run(parse, store, run).Some? && k <= |run|
    ensures Run(parse, store, run[..k]).Some?
  {
    hide Apply, Enabled;
    if k < |run| {
      EveryPrefixRuns(parse, store, run[..|run| - 1], k);
      assert run[..|run| - 1][..k] == run[..k];
    } else {
      assert run[..k] == run;
    }
  }

  // ----- a create that nobody disturbs

  /** Nobody cancels the create, and neither its GET nor its POST fails. */
  predicate Undisturbed(run: History, t: nat) {
    forall k | 0 <= k < |run| && run[k].0 == t :: run[k].1 !in {Cancel, FailRead, FailPost}
  }

  /**
   Whatever the other creates do, and in whatever order: when a run can go no further, a create that was not disturbed
   is done, and has posted its entry unless the document it read refuses it.
   */
  lemma {:induction false} UndisturbedCreate(parse: DurationParser, store: map<WriteKey, Json>, run: History, t: nat)
    requires Run(parse, store, run).Some? && t in Run(parse, store, run).value.threads
    requires Undisturbed(run, t) && AtRest(Run(parse, store, run).value)
    ensures var s := Run(parse, store, run).value;
            var req := s.threads[t].req;
            && s.threads[t].pc.Finished?
            && match s.threads[t].pc.outcome
               case Created => t in s.posted
               case Refused(error) => exists k :: Decided(parse, store, run, t, req, Refused(error), k)
               case _ => false
  {
    hide Run, Enabled, PostedAreSuccesses, AtRest;
    RestIsTheEnd(parse, store, run);
    OutcomeSaysWhy(parse, store, run, t);
    EveryRunIsSerial(parse, store, run);
    var s := Run(parse, store, run).value;
    assert PostedAreSuccesses(s) ==> (t in s.posted <==> Succeeded(s.threads[t].pc)) by { PostedMeans(s, t); }
  }

  lemma PostedMeans(s: State, t: nat)
    requires t in s.threads
    ensures PostedAreSuccesses(s) ==> (t in s.posted <==> Succeeded(s.threads[t].pc))
  {
  }

  // ----- a create cancelled in time

  /** Before the second context check, or on the way out without having read anything. */
  predicate BeforeReading(pc: Pc) {
    match pc
    case Arriving => true
    case At(_, Waiting) => true
    case At(_, Sent) => true
    case _ => OutcomeOf(pc) == Some(Cancelled)
  }

  lemma CancelSticks(parse: DurationParser, s: State, t: nat, action: Action, u: nat)
    requires Enabled(s, t, action) && u in s.threads && s.threads[u].cancelled && BeforeReading(s.threads[u].pc)
    ensures var s' := Apply(parse, s, t, action);
            && u in s'.threads && s'.threads[u].cancelled && BeforeReading(s'.threads[u].pc)
            && (action.Post? ==> t != u)
  {
    hide Plan, KeyOf, Lookup;
  }

  /**
   A create cancelled before it has passed the second context check neither reads nor writes, however
   the run goes on, and ends as cancelled if it ends.
   */
  lemma {:induction false} EarlyCancelNeverWrites(parse: DurationParser, store: map<WriteKey, Json>, run: History, more: History, t: nat)
    requires Run(parse, store, run + more).Some? && Run(parse, store, run).Some?
    requires var s := Run(parse, store, run).value; t in s.threads && s.threads[t].cancelled && BeforeReading(s.threads[t].pc)
    ensures var s := Run(parse, store, run + more).value;
            && t in s.threads && s.threads[t].cancelled && BeforeReading(s.threads[t].pc)
            && (s.threads[t].pc.Finished? ==> s.threads[t].pc.outcome == Cancelled)
            && forall k | 0 <= k < |more| && more[k].0 == t :: more[k].1 !in {Read, Post}
    decreases |more|
  {
    hide Apply, Enabled;
    if more == [] {
      assert run + more == run;
    } else {
      var last := |more| - 1;
      assert (run + more)[..|run + more| - 1] == run + more[..last] && (run + more)[|run + more| - 1] == more[last];
      EarlyCancelNeverWrites(parse, store, run, more[..last], t);
      var s := Run(parse, store, run + more[..last]).value;
      CancelSticks(parse, s, more[last].0, more[last].1, t);
      NoReadYet(s, more[last].0, more[last].1, t);
      assert forall k | 0 <= k < last :: more[..last][k] == more[k];
    }
  }

  lemma NoReadYet(s: State, t: nat, action: Action, u: nat)
    requires Enabled(s, t, action) && u in s.threads && BeforeReading(s.threads[u].pc)
    ensures action in {Read, Post} ==> t != u
  {
  }
}
