/** The lifecycle of a dwio file writer: the states it passes through and the
    only transitions among them that setState accepts. */
module WriterLifecycle {

  datatype State = Init | Running | Finishing | Closed | Aborted

  datatype Outcome = Pass | Fail(error: WriterError)

  datatype WriterError =
    | UnexpectedStateTransition(from: State, to: State)
    | NotRunning(state: State)

  /** Accepts a move from one state to another or fails naming both. */
  function CheckStateTransition(from: State, to: State): (r: Outcome)
    ensures r.Fail? ==> r.error == UnexpectedStateTransition(from, to)
  {
    var legal :=
      match from
      case Init => to == Running
      // A writer with nothing left to do in finish() may close directly.
      case Running => to == Aborted || to == Closed || to == Finishing
      // Finishing is re-entered when a long finish yields part way.
      case Finishing => to == Aborted || to == Closed || to == Finishing
      case Aborted => false
      case Closed => false;
    if legal then Pass else Fail(UnexpectedStateTransition(from, to))
  }

  /** The name of each state, as used in error messages. */
  function StateString(s: State): (name: string)
    ensures |name| > 0
  {
    match s
    case Init => "INIT"
    case Running => "RUNNING"
    case Finishing => "FINISHING"
    case Closed => "CLOSED"
    case Aborted => "ABORTED"
  }

  /** How far along its life a writer is: no legal transition lowers it. */
  function Rank(s: State): nat {
    match s
    case Init => 0
    case Running => 1
    case Finishing => 2
    case Closed => 3
    case Aborted => 3
  }

  /** A sequence of states each of which the check lets follow the one
      before. */
  predicate LegalTrace(trace: seq<State>) {
    forall i :: 0 < i < |trace| ==> CheckStateTransition(trace[i - 1], trace[i]).Pass?
  }

  /** The legal targets of every state, as sets. */
  lemma LegalTargets(from: State, to: State)
    ensures from == Init ==> (CheckStateTransition(from, to).Pass? <==> to == Running)
    ensures from == Running ==> (CheckStateTransition(from, to).Pass? <==> to in {Aborted, Closed, Finishing})
    ensures from == Finishing ==> (CheckStateTransition(from, to).Pass? <==> to in {Aborted, Closed, Finishing})
    ensures from == Closed || from == Aborted ==> CheckStateTransition(from, to).Fail?
  {
  }

  /** Every legal transition raises the rank, except the re-entry of
      Finishing, which keeps it. */
  lemma TransitionRaisesRank(from: State, to: State)
    requires CheckStateTransition(from, to).Pass?
    ensures Rank(from) < Rank(to) || from == to == Finishing
  {
  }

  /** Along a legal trace the rank never drops, so a writer never returns to
      Init, never runs again once finishing, and never leaves Closed or
      Aborted. */
  lemma {:induction false} TraceRankMonotone(trace: seq<State>, i: nat, j: nat)
    requires LegalTrace(trace)
    requires i <= j < |trace|
    ensures Rank(trace[i]) <= Rank(trace[j])
    ensures i < j ==> trace[j] != Init
    ensures trace[i] == Closed || trace[i] == Aborted ==> j == i
    decreases j - i
  {
    if i < j {
      TraceRankMonotone(trace, i, j - 1);
      TransitionRaisesRank(trace[j - 1], trace[j]);
    }
  }

  /** The state names are distinct. */
  lemma StateStringInjective(a: State, b: State)
    ensures StateString(a) == StateString(b) <==> a == b
  {
  }

  /** Each state is reachable from Init along a legal trace. */
  lemma AllStatesReachable()
    ensures LegalTrace([Init, Running, Finishing, Finishing, Closed])
    ensures LegalTrace([Init, Running, Aborted])
  {
  }

  class Writer {
    var state: State
    /** Every state the writer has been in, oldest first. */
    ghost var history: seq<State>

    ghost predicate Valid()
      reads this
    {
      && |history| > 0
      && history[0] == Init
      && history[|history| - 1] == state
      && LegalTrace(history)
    }

    constructor ()
      ensures Valid() && state == Init && history == [Init]
    {
      state := Init;
      history := [Init];
    }

    predicate IsRunning()
      reads this
    {
      state == Running
    }

    predicate IsFinishing()
      reads this
    {
      state == Finishing
    }

    /** Fails, naming the current state, unless the writer is running. */
    method CheckRunning() returns (r: Outcome)
      ensures r.Pass? <==> state == Running
      ensures r.Fail? ==> r.error == NotRunning(state)
    {
      if state == Running {
        r := Pass;
      } else {
        r := Fail(NotRunning(state));
      }
    }

    /** Moves to a new state when the transition check accepts it; otherwise
        fails and leaves the state as it was. */
    method SetState(to: State) returns (r: Outcome)
      requires Valid()
      modifies this
      ensures Valid()
      ensures r == CheckStateTransition(old(state), to)
      ensures state == if r.Pass? then to else old(state)
      ensures history == if r.Pass? then old(history) + [to] else old(history)
    {
      r := CheckStateTransition(state, to);
      if r.Pass? {
        state := to;
        history := history + [to];
      }
    }
  }

  /** A valid writer is running exactly when it has just been started: the
      only way into Running is from Init, and nothing leads back to it. */
  lemma RunningMeansJustStarted(w: Writer)
    requires w.Valid()
    ensures w.IsRunning() <==> w.history == [Init, Running]
  {
    var h, n := w.history, |w.history|;
    if w.IsRunning() {
      assert n >= 2 by {
        if n == 1 { assert h[0] == Init; }
      }
      if n > 2 {
        TraceRankMonotone(h, 0, n - 2);
        LegalTargets(h[n - 2], h[n - 1]);
        assert false;
      }
      LegalTargets(h[0], h[1]);
      assert h == [Init, Running];
    }
  }

  /** A valid writer is finishing exactly when it has been started, run, and
      has been in Finishing ever since. */
  lemma FinishingMeansFinishingSinceRunning(w: Writer)
    requires w.Valid()
    ensures w.IsFinishing() <==>
              |w.history| >= 3 && w.history[..2] == [Init, Running] &&
              forall k :: 2 <= k < |w.history| ==> w.history[k] == Finishing
  {
    var h, n := w.history, |w.history|;
    if w.IsFinishing() {
      assert n >= 2 by {
        if n == 1 { assert h[0] == Init; }
      }
      LegalTargets(h[0], h[1]);
      assert h[1] == Running;
      if n == 2 {
        assert false;
      }
      forall k | 2 <= k < n
        ensures h[k] == Finishing
      {
        TraceRankMonotone(h, 2, k);
        TraceRankMonotone(h, k, n - 1);
        LegalTargets(h[1], h[2]);
        TransitionRaisesRank(h[1], h[2]);
      }
      assert h[..2] == [Init, Running];
    }
  }
}
