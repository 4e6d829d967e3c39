/**
 `mode/utils/futures.py`: stampede protection, with any number of callers and every
 interleaving of the steps between awaits.  A run of `fun`, and the future that shares its
 outcome, are named by the caller that started the run.
 */
module Stampede {

  datatype Option<T> = None | Some(value: T)

  datatype Future = Pending | Result(value: int) | Cancelled

  /** How `fun` ended. */
  datatype End = Returns(value: int) | IsCancelled | Raises

  datatype Outcome = Value(value: int) | CancelledError | InvalidStateError | OtherError

  /** Where a caller stands.  `own` tells whether its own task was cancelled outside `fun`, and
      `cancel` whether that has been asked for and is to happen when the caller runs next. */
  datatype Caller =
    | AtDoor(cancel: bool)
    | InFun
    | AfterResult(value: int, cancel: bool)
    | InFinally(outcome: Outcome, own: bool, cancel: bool)
    | AwaitingFuture(run: nat, own: bool)
    | Finished(of: Option<nat>, outcome: Outcome, own: bool)

  datatype Action =
    | Call(t: nat)              // __call__ up to its first sleep
    | Enter(t: nat)             // from the first sleep to the next await
    | FunEnds(t: nat, end: End) // fun is done; up to the next await
    | AfterSleep(t: nat)        // the sleep after set_result is over
    | FinallyDone(t: nat)       // the sleep in finally is over
    | Wake(t: nat)              // a waiter resumes
    | CancelTask(t: nat)        // cancelling the task is asked for, anywhere but in fun

  /** `runs` and `tampered` record history: how each run ended, and the runs whose shared future
      was cancelled, while pending, because a waiter was. */
  datatype State = State(
    fut: Option<nat>, futures: map<nat, Future>, callers: map<nat, Caller>, runs: map<nat, End>,
    tampered: set<nat>, broken: Option<nat>)

  const INIT := State(None, map[], map[], map[], {}, None)

  function OutcomeOf(f: Future): Outcome {
    match f
    case Result(v) => Value(v)
    case _ => CancelledError
  }

  function Move(s: State, t: nat, c: Caller): State {
    s.(callers := s.callers[t := c])
  }

  function EnterStep(s: State, t: nat): State {
    if t !in s.callers || !s.callers[t].AtDoor? then s
    else if s.callers[t].cancel then Move(s, t, Finished(None, CancelledError, true))
    else match s.fut
      case None => Move(s, t, InFun).(fut := Some(t), futures := s.futures[t := Pending])
      case Some(f) =>
        if f in s.futures && s.futures[f] != Pending then Move(s, t, Finished(Some(f), OutcomeOf(s.futures[f]), false))
        else Move(s, t, AwaitingFuture(f, false))
  }

  function FunEndsStep(s: State, t: nat, end: End): State {
    if t !in s.callers || s.callers[t] != InFun || t !in s.futures then s
    else
      var s' := s.(runs := s.runs[t := end]);
      match end
      case Returns(v) =>
        if s.futures[t] == Pending then Move(s', t, AfterResult(v, false)).(futures := s.futures[t := Result(v)])
        else Move(s', t, InFinally(InvalidStateError, false, false))
      case IsCancelled =>
        Move(s', t, InFinally(CancelledError, false, false)).(
          futures := if s.futures[t] == Pending then s.futures[t := Cancelled] else s.futures)
      case Raises => Move(s', t, InFinally(OtherError, false, false))
  }

  function CancelStep(s: State, t: nat): State {
    if t !in s.callers then s
    else match s.callers[t]
      case AtDoor(_) => Move(s, t, AtDoor(true))
      case AfterResult(v, _) => Move(s, t, AfterResult(v, true))
      case InFinally(o, own, _) => Move(s, t, InFinally(o, own, true))
      case AwaitingFuture(f, own) =>
        if f in s.futures && s.futures[f] == Pending
        then Move(s, t, AwaitingFuture(f, true)).(futures := s.futures[f := Cancelled], tampered := s.tampered + {f})
        else Move(s, t, AwaitingFuture(f, true))
      case _ => s
  }

  /** One step of the system; a step that cannot happen in `s` changes nothing. */
  function Step(s: State, a: Action): State {
    match a
    case Call(t) => if t in s.callers then s else Move(s, t, AtDoor(false))
    case Enter(t) => EnterStep(s, t)
    case FunEnds(t, end) => FunEndsStep(s, t, end)
    case AfterSleep(t) =>
      if t !in s.callers || !s.callers[t].AfterResult? then s
      else if s.callers[t].cancel then Move(s, t, InFinally(CancelledError, true, false))
      else Move(s, t, InFinally(Value(s.callers[t].value), false, false))
    case FinallyDone(t) =>
      if t !in s.callers || !s.callers[t].InFinally? then s
      else if s.callers[t].cancel then Move(s, t, Finished(Some(t), CancelledError, true)).(broken := Some(t))
      else Move(s, t, Finished(Some(t), s.callers[t].outcome, s.callers[t].own)).(fut := None)
    case Wake(t) =>
      if t in s.callers && s.callers[t].AwaitingFuture? && s.callers[t].run in s.futures &&
         s.futures[s.callers[t].run] != Pending
      then
        var outcome := if s.callers[t].own then CancelledError else OutcomeOf(s.futures[s.callers[t].run]);
        Move(s, t, Finished(Some(s.callers[t].run), outcome, s.callers[t].own))
      else s
    case CancelTask(t) => CancelStep(s, t)
  }

  function Run(s: State, actions: seq<Action>): State
    decreases |actions|
  {
    if actions == [] then s else Run(Step(s, actions[0]), actions[1..])
  }

  // ---- What every step keeps ----

  /** The caller is in a run of `fun`, or has not yet left the code that cleans up after it. */
  predicate Active(s: State, t: nat) {
    t in s.callers && (s.callers[t].InFun? || s.callers[t].AfterResult? || s.callers[t].InFinally?)
  }

  /** `self.fut` is set exactly while a run is active; the exception is a caller cancelled in
      `finally`, after which it stays set for ever.  So two runs never overlap. */
  ghost predicate OneOwner(s: State) {
    && (forall t: nat :: Active(s, t) ==> s.fut == Some(t) && s.broken == None)
    && (s.broken.Some? ==> s.fut == s.broken)
    && (s.fut.Some? && s.broken == None ==> Active(s, s.fut.value))
    && (s.fut.Some? ==> s.fut.value in s.futures)
  }

  /** What the shared future of run `f` must hold, given its history. */
  function Shared(s: State, f: nat): Future {
    if f in s.tampered then Cancelled
    else if f !in s.runs then Pending
    else match s.runs[f]
      case Returns(v) => Result(v)
      case IsCancelled => Cancelled
      case Raises => Pending
  }

  ghost predicate FuturesTell(s: State) {
    && (forall f :: f in s.futures ==> s.futures[f] == Shared(s, f))
    && (forall f :: f in s.runs ==> f in s.futures)
    && (forall f :: f in s.tampered ==> f in s.futures)
    && (forall f :: f in s.futures ==> f in s.callers)
  }

  /** What the owner of run `t` gets or is about to get. */
  function OwnerOutcome(s: State, t: nat): Outcome
    requires t in s.runs
  {
    match s.runs[t]
    case Returns(v) => if s.futures.Keys >= {t} && s.futures[t] == Result(v) then Value(v) else InvalidStateError
    case IsCancelled => CancelledError
    case Raises => OtherError
  }

  /** Each caller, by where it stands, gets the outcome of the run it owns or has read. */
  ghost predicate CallerFine(s: State, t: nat)
    requires t in s.callers
  {
    match s.callers[t]
    case AtDoor(_) => t !in s.futures
    case InFun => t in s.futures && t !in s.runs
    case AfterResult(v, _) => t in s.runs && s.runs[t] == Returns(v) && t in s.futures && s.futures[t] == Result(v)
    case InFinally(o, own, _) =>
      t in s.runs && t in s.futures && o == if own then CancelledError else OwnerOutcome(s, t)
    case AwaitingFuture(f, own) => t !in s.futures && f in s.futures && (own ==> s.futures[f] != Pending)
    case Finished(None, o, own) => t !in s.futures && own && o == CancelledError
    case Finished(Some(f), o, own) =>
      && f in s.futures
      && (own ==> o == CancelledError)
      && (!own && f == t ==> t in s.runs && o == OwnerOutcome(s, t))
      && (!own && f != t ==> t !in s.futures && s.futures[f] != Pending && o == OutcomeOf(s.futures[f]))
      && (f == t ==> t in s.runs)
  }

  ghost predicate Inv(s: State) {
    OneOwner(s) && FuturesTell(s) && forall t :: t in s.callers ==> CallerFine(s, t)
  }

  /** A step leaves the other callers where they are, finished runs as they ended, and
      futures that are done as they are: enough for what is known of the other callers. */
  ghost predicate Unmoved(s: State, s': State, t: nat) {
    && (forall u :: u in s.callers && u != t ==> u in s'.callers && s'.callers[u] == s.callers[u])
    && (forall u :: u in s'.callers && u != t ==> u in s.callers)
    && (forall f :: f in s.futures ==> f in s'.futures && (s.futures[f] == Pending || s'.futures[f] == s.futures[f]))
    && (forall f :: f in s'.futures ==> f in s.futures || f == t)
    && (forall f :: f in s.runs ==> f in s'.runs && s'.runs[f] == s.runs[f])
    && (forall f :: f in s'.runs ==> f in s.runs || f == t)
  }

  lemma OthersStayFine(s: State, s': State, t: nat, u: nat)
    requires FuturesTell(s) && u in s.callers && CallerFine(s, u) && u != t && Unmoved(s, s', t)
    requires forall v: int :: u in s'.futures && u in s.runs && s.futures[u] == Pending ==> s.runs[u] != Returns(v)
    ensures u in s'.callers && CallerFine(s', u)
  {}

  lemma OwnerAfterMove(s: State, s': State, t: nat)
    requires OneOwner(s) && Unmoved(s, s', t)
    requires s'.fut.Some? ==> s'.fut.value in s'.futures
    requires
      || (s'.fut == s.fut && s'.broken == s.broken && (Active(s', t) <==> Active(s, t)))
      || (s.fut == None && s'.fut == Some(t) && s'.broken == s.broken && Active(s', t))
      || (Active(s, t) && !Active(s', t) && (s'.fut, s'.broken) in {(None, s.broken), (s.fut, s.fut)})
    ensures OneOwner(s')
  {
    assert forall u: nat :: u != t ==> (Active(s', u) <==> Active(s, u));
  }

  /** What a step must show of the futures and of the caller that moves. */
  ghost predicate Kept(s: State, s': State, t: nat) {
    Unmoved(s, s', t) && FuturesTell(s') && (t in s'.callers ==> CallerFine(s', t))
  }

  lemma EnterKeepsFutures(s: State, t: nat)
    requires OneOwner(s) && FuturesTell(s) && t in s.callers && CallerFine(s, t)
    ensures FuturesTell(EnterStep(s, t))
  {
    hide OneOwner;
    hide EnterStep;
    EnterOpens(s, t);
  }

  /** Entering changes no run, and opens a future only for a caller that had none. */
  lemma EnterOpens(s: State, t: nat)
    requires t in s.callers && CallerFine(s, t)
    ensures var s' := EnterStep(s, t);
            && s'.runs == s.runs && s'.tampered == s.tampered && s'.callers.Keys == s.callers.Keys
            && (s'.futures == s.futures || (t !in s.futures && s'.futures == s.futures[t := Pending]))
  {}

  lemma EnterKeepsOthers(s: State, t: nat)
    requires OneOwner(s) && FuturesTell(s) && t in s.callers && CallerFine(s, t)
    ensures Unmoved(s, EnterStep(s, t), t)
  {}

  lemma EnterKeepsMover(s: State, t: nat)
    requires OneOwner(s) && FuturesTell(s) && t in s.callers && CallerFine(s, t)
    ensures t in EnterStep(s, t).callers ==> CallerFine(EnterStep(s, t), t)
  {}

  lemma FunEndsKeepsFutures(s: State, t: nat, end: End)
    requires FuturesTell(s) && t in s.callers && CallerFine(s, t)
    ensures FuturesTell(FunEndsStep(s, t, end))
  {}

  lemma FunEndsKeepsOthers(s: State, t: nat, end: End)
    requires FuturesTell(s) && t in s.callers && CallerFine(s, t)
    ensures Unmoved(s, FunEndsStep(s, t, end), t)
  {}

  lemma FunEndsKeepsMover(s: State, t: nat, end: End)
    requires FuturesTell(s) && t in s.callers && CallerFine(s, t)
    ensures t in FunEndsStep(s, t, end).callers ==> CallerFine(FunEndsStep(s, t, end), t)
  {}

  lemma FuturesUntouched(s: State, s': State)
    requires FuturesTell(s) && s'.futures == s.futures && s'.runs == s.runs && s'.tampered == s.tampered
    requires s.callers.Keys <= s'.callers.Keys
    ensures FuturesTell(s')
  {}

  lemma FutureTampered(s: State, s': State, f: nat)
    requires FuturesTell(s) && f in s.futures && s.futures[f] == Pending
    requires s'.futures == s.futures[f := Cancelled] && s'.runs == s.runs && s'.tampered == s.tampered + {f}
    requires s.callers.Keys <= s'.callers.Keys
    ensures FuturesTell(s')
  {}

  lemma CancelKeepsFutures(s: State, t: nat)
    requires FuturesTell(s) && t in s.callers
    ensures FuturesTell(CancelStep(s, t))
  {
    hide FuturesTell;
    var s' := CancelStep(s, t);
    if s'.futures == s.futures {
      FuturesUntouched(s, s');
    } else {
      FutureTampered(s, s', s.callers[t].run);
    }
  }

  lemma CancelKeepsOthers(s: State, t: nat)
    requires FuturesTell(s) && t in s.callers && CallerFine(s, t)
    ensures Unmoved(s, CancelStep(s, t), t)
  {}

  lemma CancelKeepsMover(s: State, t: nat)
    requires FuturesTell(s) && t in s.callers && CallerFine(s, t)
    ensures t in CancelStep(s, t).callers ==> CallerFine(CancelStep(s, t), t)
  {}

  lemma OtherStepKeepsFutures(s: State, a: Action)
    requires !a.Enter? && !a.FunEnds? && !a.CancelTask? && FuturesTell(s) && (a.t in s.callers ==> CallerFine(s, a.t))
    ensures FuturesTell(Step(s, a))
  {}

  lemma OtherStepKeepsOthers(s: State, a: Action)
    requires !a.Enter? && !a.FunEnds? && !a.CancelTask? && FuturesTell(s) && (a.t in s.callers ==> CallerFine(s, a.t))
    ensures Unmoved(s, Step(s, a), a.t)
  {}

  lemma OtherStepKeepsMover(s: State, a: Action)
    requires !a.Enter? && !a.FunEnds? && !a.CancelTask? && FuturesTell(s) && (a.t in s.callers ==> CallerFine(s, a.t))
    ensures a.t in Step(s, a).callers ==> CallerFine(Step(s, a), a.t)
  {}

  lemma StepKeepsOwner(s: State, a: Action)
    requires OneOwner(s) && FuturesTell(s) && (a.t in s.callers ==> CallerFine(s, a.t))
    requires Unmoved(s, Step(s, a), a.t)
    ensures OneOwner(Step(s, a))
  {
    hide OneOwner;
    hide Unmoved;
    hide FuturesTell;
    hide OwnerOutcome;
    hide Shared;
    FutHasFuture(s, a);
    OwnerMoves(s, a);
    OwnerAfterMove(s, Step(s, a), a.t);
  }

  lemma FutHasFuture(s: State, a: Action)
    requires OneOwner(s) && Unmoved(s, Step(s, a), a.t)
    ensures Step(s, a).fut.Some? ==> Step(s, a).fut.value in Step(s, a).futures
  {
    assert s.fut.Some? ==> s.fut.value in Step(s, a).futures;
    hide Unmoved;
    hide OneOwner;
  }

  lemma OwnerMoves(s: State, a: Action)
    requires OneOwner(s) && (a.t in s.callers ==> CallerFine(s, a.t))
    ensures var s', t := Step(s, a), a.t;
      || (s'.fut == s.fut && s'.broken == s.broken && (Active(s', t) <==> Active(s, t)))
      || (s.fut == None && s'.fut == Some(t) && s'.broken == s.broken && Active(s', t))
      || (Active(s, t) && !Active(s', t) && (s'.fut, s'.broken) in {(None, s.broken), (s.fut, s.fut)})
  {
    assert Active(s, a.t) ==> s.fut == Some(a.t);
    hide OneOwner;
    hide OwnerOutcome;
  }

  lemma StepKeepsInv(s: State, a: Action)
    requires Inv(s)
    ensures Inv(Step(s, a))
  {
    hide Step;
    hide OneOwner;
    hide CallerFine;
    var s', t := Step(s, a), a.t;
    MoveKeeps(s, a);
    StepKeepsOwner(s, a);
    forall u | u in s'.callers && u != t
      ensures CallerFine(s', u)
    {
      OthersStayFine(s, s', t, u);
    }
  }

  lemma MoveKeeps(s: State, a: Action)
    requires OneOwner(s) && FuturesTell(s) && (a.t in s.callers ==> CallerFine(s, a.t))
    ensures Kept(s, Step(s, a), a.t)
  {
    var t := a.t;
    match a
    case Enter(_) =>
      if t in s.callers {
        EnterKeepsFutures(s, t);
        EnterKeepsOthers(s, t);
        EnterKeepsMover(s, t);
      }
    case FunEnds(_, end) =>
      if t in s.callers {
        FunEndsKeepsFutures(s, t, end);
        FunEndsKeepsOthers(s, t, end);
        FunEndsKeepsMover(s, t, end);
      }
    case CancelTask(_) =>
      if t in s.callers {
        CancelKeepsFutures(s, t);
        CancelKeepsOthers(s, t);
        CancelKeepsMover(s, t);
      }
    case _ =>
      OtherStepKeepsFutures(s, a);
      OtherStepKeepsOthers(s, a);
      OtherStepKeepsMover(s, a);
  }

  lemma {:induction false} RunKeepsInv(s: State, actions: seq<Action>)
    requires Inv(s)
    ensures Inv(Run(s, actions))
    decreases |actions|
  {
    if actions == [] {
    } else {
      StepKeepsInv(s, actions[0]);
      RunKeepsInv(Step(s, actions[0]), actions[1..]);
    }
  }

  /** Cancelling a task again before it has run is the same as cancelling it once. */
  lemma CancelledTwiceIsOnce(s: State, t: nat)
    ensures Step(Step(s, CancelTask(t)), CancelTask(t)) == Step(s, CancelTask(t))
  {
    var s' := Step(s, CancelTask(t));
    if t in s.callers {
      assert s'.callers[t := s'.callers[t]] == s'.callers;
    }
  }

  // ---- What the recorded history means ----

  /** Cancels a caller while it waits for run `f`, which is still going on. */
  predicate CancelsWaiter(s: State, a: Action, f: nat) {
    && a.CancelTask? && a.t in s.callers && s.callers[a.t].AwaitingFuture? && s.callers[a.t].run == f
    && f in s.futures && s.futures[f] == Pending
  }

  /** Resumes a caller in its `finally` with a cancellation that was asked for there. */
  predicate CancelsFinally(s: State, a: Action) {
    a.FinallyDone? && a.t in s.callers && s.callers[a.t].InFinally? && s.callers[a.t].cancel
  }

  /** Somewhere in the schedule a waiter of run `f` is cancelled while its future is pending. */
  ghost predicate WaiterCancelled(actions: seq<Action>, f: nat) {
    exists k :: 0 <= k < |actions| && CancelsWaiter(Run(INIT, actions[..k]), actions[k], f)
  }

  ghost predicate FinallyCancelled(actions: seq<Action>) {
    exists k :: 0 <= k < |actions| && CancelsFinally(Run(INIT, actions[..k]), actions[k])
  }

  lemma {:induction false} HistoryIsTheSchedule(actions: seq<Action>, f: nat)
    ensures f in Run(INIT, actions).tampered <==> WaiterCancelled(actions, f)
    ensures Run(INIT, actions).broken.Some? <==> FinallyCancelled(actions)
    decreases |actions|
  {
    if actions == [] {
    } else {
      var init, a := actions[..|actions| - 1], actions[|actions| - 1];
      HistoryIsTheSchedule(init, f);
      assert actions == init + [a];
      RunConcat(INIT, init, [a]);
      RunOne(Run(INIT, init), a);
      StepRecords(Run(INIT, init), a, f);
      hide Step;
      hide CancelsWaiter;
      hide CancelsFinally;
      assert forall k :: 0 <= k < |init| ==> actions[..k] == init[..k] && actions[k] == init[k];
      assert actions[..|init|] == init;
    }
  }

  lemma StepRecords(s: State, a: Action, f: nat)
    ensures f in Step(s, a).tampered <==> f in s.tampered || CancelsWaiter(s, a, f)
    ensures Step(s, a).broken.Some? <==> s.broken.Some? || CancelsFinally(s, a)
  {}

  /** Asks, anywhere but in `fun`, to cancel a caller that has not finished. */
  predicate CancelsOutside(s: State, a: Action, t: nat) {
    a == CancelTask(t) && t in s.callers && !s.callers[t].InFun? && !s.callers[t].Finished?
  }

  predicate EndsRun(s: State, a: Action, f: nat, end: End) {
    a == FunEnds(f, end) && f in s.callers && s.callers[f].InFun?
  }

  /** Somewhere in the schedule the task of `t` is cancelled at an await other than that of `fun`. */
  ghost predicate CancelledOutside(actions: seq<Action>, t: nat) {
    exists k :: 0 <= k < |actions| && CancelsOutside(Run(INIT, actions[..k]), actions[k], t)
  }

  /** Somewhere in the schedule run `f` ends like this. */
  ghost predicate RunEnds(actions: seq<Action>, f: nat, end: End) {
    exists k :: 0 <= k < |actions| && EndsRun(Run(INIT, actions[..k]), actions[k], f, end)
  }

  /** The caller has been told of a cancellation, or will be when it runs next. */
  predicate Asked(c: Caller) {
    match c
    case AtDoor(cancel) => cancel
    case InFun => false
    case AfterResult(_, cancel) => cancel
    case InFinally(_, own, cancel) => own || cancel
    case AwaitingFuture(_, own) => own
    case Finished(_, _, own) => own
  }

  /** Over every schedule a caller counts as cancelled exactly if the schedule cancels its task
      outside `fun`, and a run has ended exactly as the schedule ends it. */
  lemma {:induction false} CancellationsAndEnds(actions: seq<Action>, t: nat, end: End)
    ensures var s := Run(INIT, actions);
            && (t in s.callers && Asked(s.callers[t]) <==> CancelledOutside(actions, t))
            && (t in s.runs && s.runs[t] == end <==> RunEnds(actions, t, end))
    decreases |actions|
  {
    hide Step;
    hide Inv;
    hide CancelsOutside;
    hide EndsRun;
    hide Asked;
    if actions == [] {
    } else {
      var init, a := actions[..|actions| - 1], actions[|actions| - 1];
      CancellationsAndEnds(init, t, end);
      assert actions == init + [a];
      RunConcat(INIT, init, [a]);
      RunOne(Run(INIT, init), a);
      RunKeepsInv(INIT, init);
      StepAsks(Run(INIT, init), a, t);
      StepEnds(Run(INIT, init), a, t, end);
      assert forall k :: 0 <= k < |init| ==> actions[..k] == init[..k] && actions[k] == init[k];
      assert actions[..|init|] == init;
    }
  }

  lemma StepAsks(s: State, a: Action, t: nat)
    ensures t in Step(s, a).callers && Asked(Step(s, a).callers[t]) <==>
            (t in s.callers && Asked(s.callers[t])) || CancelsOutside(s, a, t)
  {
    hide Step;
    hide Asked;
    if a.t != t {
      OthersStand(s, a, t);
    } else {
      MoverAsks(s, a);
    }
  }

  lemma OthersStand(s: State, a: Action, u: nat)
    requires u != a.t
    ensures u in Step(s, a).callers <==> u in s.callers
    ensures u in s.callers ==> Step(s, a).callers[u] == s.callers[u]
  {}

  lemma MoverAsks(s: State, a: Action)
    ensures a.t in Step(s, a).callers && Asked(Step(s, a).callers[a.t]) <==>
            (a.t in s.callers && Asked(s.callers[a.t])) || CancelsOutside(s, a, a.t)
  {}

  lemma StepEnds(s: State, a: Action, f: nat, end: End)
    requires Inv(s)
    ensures f in Step(s, a).runs && Step(s, a).runs[f] == end <==>
            (f in s.runs && s.runs[f] == end) || EndsRun(s, a, f, end)
  {
    hide Inv;
    InFunHasNotEnded(s, f);
    if !a.FunEnds? {
      hide FunEndsStep;
    }
  }

  lemma InFunHasNotEnded(s: State, f: nat)
    requires Inv(s)
    ensures f in s.callers && s.callers[f].InFun? ==> f in s.futures && f !in s.runs
  {
    hide OneOwner;
    hide FuturesTell;
    assert f in s.callers ==> CallerFine(s, f);
  }

  lemma RunOne(s: State, a: Action)
    ensures Run(s, [a]) == Step(s, a)
  {
    assert [a][1..] == [];
  }

  // ---- Main results, over every schedule ----

  /** Two runs of `fun` never overlap, and `self.fut` is set exactly while one is active, unless
      and only unless a caller was cancelled in `finally`: then it stays set and none is active. */
  lemma RunsDoNotOverlap(actions: seq<Action>, t: nat, u: nat)
    ensures var s := Run(INIT, actions);
            && (Active(s, t) && Active(s, u) ==> t == u)
            && (!FinallyCancelled(actions) ==> (s.fut == Some(t) <==> Active(s, t)))
            && (FinallyCancelled(actions) ==> s.fut.Some? && s.fut == s.broken && !Active(s, t))
  {
    HistoryIsTheSchedule(actions, t);
    RunKeepsInv(INIT, actions);
  }

  /** What a caller gets that has finished, by the schedule alone: a cancellation if it was cancelled
      outside `fun`, and otherwise what the run it owns or read returned, if and only if no waiter
      of that run was cancelled while the run went on. */
  lemma CallersShareTheOutcome(actions: seq<Action>, t: nat)
    requires var s := Run(INIT, actions); t in s.callers && s.callers[t].Finished?
    ensures var c := Run(INIT, actions).callers[t];
            if CancelledOutside(actions, t) then c.outcome == CancelledError
            else c.of.Some? && Shares(actions, t, c.of.value, c.outcome)
  {
    hide Inv;
    hide CancelledOutside;
    hide WaiterCancelled;
    hide RunEnds;
    hide Shares;
    hide Run;
    RunKeepsInv(INIT, actions);
    var s := Run(INIT, actions);
    FinishedFits(s, t);
    CancellationsAndEnds(actions, t, Raises);
    if !s.callers[t].own {
      var f := s.callers[t].of.value;
      HistoryIsTheSchedule(actions, f);
      forall end
        ensures RunEnds(actions, f, end) <==> f in s.runs && s.runs[f] == end
      {
        CancellationsAndEnds(actions, f, end);
      }
      FitsTheSchedule(s, actions, t, f, s.callers[t].outcome);
    }
  }

  /** What a caller `t` of run `f` that was not cancelled has got, by the recorded history. */
  ghost predicate Fits(s: State, t: nat, f: nat, outcome: Outcome) {
    if f !in s.runs then t != f && outcome == CancelledError && f in s.tampered
    else match s.runs[f]
      case Returns(v) =>
        outcome == if f !in s.tampered then Value(v) else if t == f then InvalidStateError else CancelledError
      case IsCancelled => outcome == CancelledError
      case Raises => if t == f then outcome == OtherError else outcome == CancelledError && f in s.tampered
  }

  lemma FinishedFits(s: State, t: nat)
    requires Inv(s) && t in s.callers && s.callers[t].Finished?
    ensures if s.callers[t].own then s.callers[t].outcome == CancelledError
            else s.callers[t].of.Some? && Fits(s, t, s.callers[t].of.value, s.callers[t].outcome)
  {
    hide OneOwner;
    assert CallerFine(s, t);
  }

  lemma FitsTheSchedule(s: State, actions: seq<Action>, t: nat, f: nat, outcome: Outcome)
    requires Fits(s, t, f, outcome) && (f in s.tampered <==> WaiterCancelled(actions, f))
    requires forall end :: RunEnds(actions, f, end) <==> f in s.runs && s.runs[f] == end
    ensures Shares(actions, t, f, outcome)
  {
    hide RunEnds;
    hide WaiterCancelled;
    assert f in s.runs ==> RunEnds(actions, f, s.runs[f]);
  }

  /** What a caller `t` of run `f` gets that was not itself cancelled. */
  ghost predicate Shares(actions: seq<Action>, t: nat, f: nat, outcome: Outcome) {
    && (forall v :: RunEnds(actions, f, Returns(v)) ==>
          outcome == if !WaiterCancelled(actions, f) then Value(v)
                     else if t == f then InvalidStateError
                     else CancelledError)
    && (RunEnds(actions, f, IsCancelled) ==> outcome == CancelledError)
    && (RunEnds(actions, f, Raises) ==>
          if t == f then outcome == OtherError else outcome == CancelledError && WaiterCancelled(actions, f))
    && ((forall end :: !RunEnds(actions, f, end)) ==>
          t != f && outcome == CancelledError && WaiterCancelled(actions, f))
  }

  /** The run that a caller has begun, or waits for, or has got its outcome from. */
  function RunOf(c: Caller, t: nat): Option<nat> {
    match c
    case AtDoor(_) => None
    case AwaitingFuture(f, _) => Some(f)
    case Finished(of, _, _) => of
    case _ => Some(t)
  }

  /** A caller that comes in while a run is active shares that run, and one that comes in while none
      is begins one, unless the wrapper is broken; and so it stays. */
  lemma CallersJoinTheRun(actions: seq<Action>, k: nat, t: nat)
    requires k < |actions| && actions[k] == Enter(t)
    requires var s := Run(INIT, actions[..k]); t in s.callers && s.callers[t] == AtDoor(false)
    ensures var s, end := Run(INIT, actions[..k]), Run(INIT, actions);
            && t in end.callers
            && (forall u: nat :: Active(s, u) ==> RunOf(end.callers[t], t) == Some(u))
            && ((forall u: nat :: !Active(s, u)) && !FinallyCancelled(actions[..k]) ==>
                  RunOf(end.callers[t], t) == Some(t))
  {
    hide Inv;
    hide Step;
    hide Active;
    hide FinallyCancelled;
    hide RunOf;
    var s := Run(INIT, actions[..k]);
    assert actions == actions[..k] + [actions[k]] + actions[k + 1..];
    RunConcat(INIT, actions[..k] + [actions[k]], actions[k + 1..]);
    RunConcat(INIT, actions[..k], [actions[k]]);
    RunOne(s, Enter(t));
    HistoryIsTheSchedule(actions[..k], t);
    InitIsFine();
    RunKeepsInv(INIT, actions[..k]);
    EntersTheRun(s, t);
    RunKeepsRunOf(Step(s, Enter(t)), actions[k + 1..], t);
  }

  /** It gets its outcome at once if and only if by then the run has returned or been cancelled, or one
      of its waiters has been; otherwise it waits. */
  lemma CallersReadWhatIsDone(actions: seq<Action>, t: nat, u: nat)
    requires var s := Run(INIT, actions); Active(s, u) && t in s.callers && s.callers[t] == AtDoor(false)
    ensures var s' := Run(INIT, actions + [Enter(t)]);
            && t in s'.callers
            && (s'.callers[t].Finished? <==>
                  WaiterCancelled(actions, u) || exists end :: RunEnds(actions, u, end) && !end.Raises?)
  {
    hide Inv;
    hide Step;
    hide Active;
    hide WaiterCancelled;
    hide RunEnds;
    var s := Run(INIT, actions);
    InitIsFine();
    RunKeepsInv(INIT, actions);
    RunConcat(INIT, actions, [Enter(t)]);
    RunOne(s, Enter(t));
    ReadsWhatIsDone(s, t, u);
    HistoryIsTheSchedule(actions, u);
    forall end
      ensures RunEnds(actions, u, end) <==> u in s.runs && s.runs[u] == end
    {
      CancellationsAndEnds(actions, u, end);
    }
    assert u in s.runs ==> RunEnds(actions, u, s.runs[u]);
  }

  lemma ReadsWhatIsDone(s: State, t: nat, u: nat)
    requires Inv(s) && Active(s, u) && t in s.callers && s.callers[t] == AtDoor(false)
    ensures var s' := Step(s, Enter(t));
            && t in s'.callers
            && (s'.callers[t].Finished? <==> u in s.tampered || (u in s.runs && !s.runs[u].Raises?))
  {
    hide CallerFine;
    assert s.fut == Some(u);
  }

  lemma EntersTheRun(s: State, t: nat)
    requires Inv(s) && t in s.callers && s.callers[t] == AtDoor(false)
    ensures var s' := Step(s, Enter(t));
            && t in s'.callers && !s'.callers[t].AtDoor?
            && (forall u: nat :: Active(s, u) ==> RunOf(s'.callers[t], t) == Some(u))
            && ((forall u: nat :: !Active(s, u)) && s.broken == None ==> RunOf(s'.callers[t], t) == Some(t))
  {
    hide FuturesTell;
    hide CallerFine;
    assert s.fut.Some? && s.broken == None ==> Active(s, s.fut.value);
  }

  lemma {:induction false} RunKeepsRunOf(s: State, actions: seq<Action>, t: nat)
    requires t in s.callers && !s.callers[t].AtDoor?
    ensures t in Run(s, actions).callers && !Run(s, actions).callers[t].AtDoor?
    ensures RunOf(Run(s, actions).callers[t], t) == RunOf(s.callers[t], t)
    decreases |actions|
  {
    hide Step;
    hide RunOf;
    if actions == [] {
    } else {
      StepKeepsRunOf(s, actions[0], t);
      RunKeepsRunOf(Step(s, actions[0]), actions[1..], t);
    }
  }

  lemma StepKeepsRunOf(s: State, a: Action, t: nat)
    requires t in s.callers && !s.callers[t].AtDoor?
    ensures t in Step(s, a).callers && !Step(s, a).callers[t].AtDoor?
    ensures RunOf(Step(s, a).callers[t], t) == RunOf(s.callers[t], t)
  {
    hide Step;
    hide RunOf;
    if a.t != t {
      OthersStand(s, a, t);
    } else {
      MoverKeepsRunOf(s, a);
    }
  }

  lemma MoverKeepsRunOf(s: State, a: Action)
    requires a.t in s.callers && !s.callers[a.t].AtDoor?
    ensures a.t in Step(s, a).callers && !Step(s, a).callers[a.t].AtDoor?
    ensures RunOf(Step(s, a).callers[a.t], a.t) == RunOf(s.callers[a.t], a.t)
  {}

  /** However `fun` ends, its caller has finished once it has slept twice, and the next one begins a
      new run; what it gets, `CallersShareTheOutcome` says. */
  lemma RunCompletes(actions: seq<Action>, t: nat, end: End)
    requires t in Run(INIT, actions).callers && Run(INIT, actions).callers[t].InFun?
    ensures var s := Run(INIT, actions + [FunEnds(t, end), AfterSleep(t), FinallyDone(t)]);
            && t in s.callers && s.callers[t].Finished? && s.callers[t].of == Some(t) && !s.callers[t].own
            && s.fut == None
  {
    hide Inv;
    hide Step;
    var s := Run(INIT, actions);
    RunKeepsInv(INIT, actions);
    InFunHasNotEnded(s, t);
    RunConcat(INIT, actions, [FunEnds(t, end), AfterSleep(t), FinallyDone(t)]);
    RunThree(s, FunEnds(t, end), AfterSleep(t), FinallyDone(t));
    FunEndsMoves(s, t, end);
    LeavesFinally(Step(s, FunEnds(t, end)), t);
  }

  lemma FunEndsMoves(s: State, t: nat, end: End)
    requires t in s.callers && s.callers[t].InFun? && t in s.futures
    ensures var s' := Step(s, FunEnds(t, end));
            && t in s'.callers && !Asked(s'.callers[t])
            && (s'.callers[t].AfterResult? || s'.callers[t].InFinally?)
  {}

  lemma LeavesFinally(s: State, t: nat)
    requires t in s.callers && !Asked(s.callers[t]) && (s.callers[t].AfterResult? || s.callers[t].InFinally?)
    ensures var s' := Step(Step(s, AfterSleep(t)), FinallyDone(t));
            && t in s'.callers && s'.callers[t].Finished? && s'.callers[t].of == Some(t) && !s'.callers[t].own
            && s'.fut == None
  {}

  const ARRIVE := [Call(0), Call(1), Call(2)]
  const QUEUE := [Enter(0), Enter(1), Enter(2)]
  const SPOIL := [CancelTask(1), FunEnds(0, Returns(7))]
  const LEAVE := [FinallyDone(0), Wake(2)]

  const ARRIVED := State(None, map[], map[0 := AtDoor(false), 1 := AtDoor(false), 2 := AtDoor(false)], map[], {}, None)
  const QUEUED := State(Some(0), map[0 := Pending],
                        map[0 := InFun, 1 := AwaitingFuture(0, false), 2 := AwaitingFuture(0, false)], map[], {}, None)
  const SPOILED := State(Some(0), map[0 := Cancelled],
                         map[0 := InFinally(InvalidStateError, false, false), 1 := AwaitingFuture(0, true),
                             2 := AwaitingFuture(0, false)],
                         map[0 := Returns(7)], {0}, None)

  lemma RunThree(s: State, a: Action, b: Action, c: Action)
    ensures Run(s, [a, b]) == Step(Step(s, a), b)
    ensures Run(s, [a, b, c]) == Step(Step(Step(s, a), b), c)
  {
    assert [a, b, c][1..] == [b, c] && [b, c][1..] == [c] && [a, b][1..] == [b];
    assert [c][1..] == [] && [b][1..] == [];
    assert Run(Step(s, a), [b]) == Step(Step(s, a), b);
    assert Run(Step(Step(s, a), b), [c]) == Step(Step(Step(s, a), b), c);
  }

  lemma QueueUp()
    ensures Run(INIT, ARRIVE) == ARRIVED && Run(ARRIVED, QUEUE) == QUEUED
  {
    RunThree(INIT, Call(0), Call(1), Call(2));
    RunThree(ARRIVED, Enter(0), Enter(1), Enter(2));
  }

  lemma SpoilIt()
    ensures Run(QUEUED, SPOIL) == SPOILED
  {
    RunThree(QUEUED, CancelTask(1), FunEnds(0, Returns(7)), Call(0));
  }

  /** Cancelling one waiter spoils the run for everybody: the owner, whose `fun` returned, gets
      an InvalidStateError, and the other waiter is cancelled. */
  lemma CancelledWaiterSpoilsTheRun()
    ensures var s := Run(INIT, ARRIVE + QUEUE + SPOIL + LEAVE);
            && s.callers.Keys == {0, 1, 2}
            && s.runs == map[0 := Returns(7)]
            && s.callers[0] == Finished(Some(0), InvalidStateError, false)
            && s.callers[2] == Finished(Some(0), CancelledError, false)
  {
    hide Step;
    QueueUp();
    SpoilIt();
    RunConcat(INIT, ARRIVE, QUEUE);
    RunConcat(INIT, ARRIVE + QUEUE, SPOIL);
    RunConcat(INIT, ARRIVE + QUEUE + SPOIL, LEAVE);
    LeaveIt();
  }

  lemma LeaveIt()
    ensures Run(SPOILED, LEAVE) ==
            SPOILED.(fut := None,
                     callers := map[0 := Finished(Some(0), InvalidStateError, false), 1 := AwaitingFuture(0, true),
                                    2 := Finished(Some(0), CancelledError, false)])
  {
    RunThree(SPOILED, FinallyDone(0), Wake(2), Call(0));
  }

  lemma {:induction false} RunConcat(s: State, a: seq<Action>, b: seq<Action>)
    ensures Run(s, a + b) == Run(Run(s, a), b)
    decreases |a|
  {
    if a == [] {
      assert a + b == b;
    } else {
      assert (a + b)[0] == a[0] && (a + b)[1..] == a[1..] + b;
      RunConcat(Step(s, a[0]), a[1..], b);
    }
  }

  /** After a run has ended, a waiter can go on, except when `fun` raised something other than
      a cancellation: then the future stays pending until some waiter is cancelled. */
  lemma WaitersCanGoOn(actions: seq<Action>, t: nat)
    requires var s := Run(INIT, actions);
             t in s.callers && s.callers[t].AwaitingFuture? && s.callers[t].run in s.runs
    ensures var s := Run(INIT, actions);
            var f := s.callers[t].run;
            Step(s, Wake(t)) == s <==> s.runs[f].Raises? && !WaiterCancelled(actions, f)
  {
    HistoryIsTheSchedule(actions, Run(INIT, actions).callers[t].run);
    RunKeepsInv(INIT, actions);
    var s := Run(INIT, actions);
    assert CallerFine(s, t);
  }

  /** ... so without cancellations such a waiter waits for ever; `StrandedWaiter` meets one. */
  lemma {:induction false} RaiseStrandsWaiters(s: State, actions: seq<Action>, t: nat)
    requires Inv(s) && t in s.callers && s.callers[t].AwaitingFuture? && s.callers[t].run in s.runs
    requires s.runs[s.callers[t].run].Raises? && s.callers[t].run !in s.tampered
    requires forall u: nat :: CancelTask(u) !in actions
    ensures t in Run(s, actions).callers && Run(s, actions).callers[t] == s.callers[t]
    decreases |actions|
  {
    hide Inv;
    hide Step;
    if actions == [] {
    } else {
      assert actions[0] in actions && actions == [actions[0]] + actions[1..];
      assert forall u: nat :: CancelTask(u) !in actions[1..];
      StaysStranded(s, actions[0], t);
      RaiseStrandsWaiters(Step(s, actions[0]), actions[1..], t);
    }
  }

  lemma StaysStranded(s: State, a: Action, t: nat)
    requires Inv(s) && t in s.callers && s.callers[t].AwaitingFuture? && s.callers[t].run in s.runs
    requires s.runs[s.callers[t].run].Raises? && s.callers[t].run !in s.tampered && !a.CancelTask?
    ensures var s', f := Step(s, a), s.callers[t].run;
            && Inv(s') && t in s'.callers && s'.callers[t] == s.callers[t]
            && f in s'.runs && s'.runs[f] == s.runs[f] && f !in s'.tampered
  {
    hide Inv;
    hide Step;
    hide CallerFine;
    StepKeepsInv(s, a);
    RunEndsOnce(s, a, s.callers[t].run);
    WaiterStays(s, a, t);
  }

  lemma WaiterStays(s: State, a: Action, t: nat)
    requires Inv(s) && t in s.callers && s.callers[t].AwaitingFuture? && s.callers[t].run in s.runs
    requires s.runs[s.callers[t].run].Raises? && s.callers[t].run !in s.tampered && !a.CancelTask?
    ensures t in Step(s, a).callers && Step(s, a).callers[t] == s.callers[t]
  {
    hide OneOwner;
    assert CallerFine(s, t);
    assert s.futures[s.callers[t].run] == Pending;
  }

  lemma RunEndsOnce(s: State, a: Action, f: nat)
    requires Inv(s) && f in s.runs
    ensures f in Step(s, a).runs && Step(s, a).runs[f] == s.runs[f]
    ensures !a.CancelTask? ==> Step(s, a).tampered == s.tampered
  {
    if a.t in s.callers {
      assert CallerFine(s, a.t);
    }
  }

  const STRAND := [Call(0), Call(1), Enter(0), Enter(1), FunEnds(0, Raises)]

  const STRANDED := State(Some(0), map[0 := Pending],
                          map[0 := InFinally(OtherError, false, false), 1 := AwaitingFuture(0, false)],
                          map[0 := Raises], {}, None)

  lemma StrandIt()
    ensures Run(INIT, STRAND) == STRANDED
  {
    var s2 := State(None, map[], map[0 := AtDoor(false), 1 := AtDoor(false)], map[], {}, None);
    RunThree(INIT, Call(0), Call(1), Call(0));
    RunThree(s2, Enter(0), Enter(1), FunEnds(0, Raises));
    RunConcat(INIT, [Call(0), Call(1)], [Enter(0), Enter(1), FunEnds(0, Raises)]);
    assert STRAND == [Call(0), Call(1)] + [Enter(0), Enter(1), FunEnds(0, Raises)];
  }

  /** Such a waiter comes about when `fun` raises while it waits, and however the schedule goes on
      without cancellations it waits still. */
  lemma StrandedWaiter(actions: seq<Action>)
    requires forall u: nat :: CancelTask(u) !in actions
    ensures Run(INIT, STRAND).runs == map[0 := Raises] && Run(INIT, STRAND).callers[1] == AwaitingFuture(0, false)
    ensures var s := Run(INIT, STRAND + actions); 1 in s.callers && s.callers[1] == AwaitingFuture(0, false)
  {
    hide Step;
    hide Inv;
    StrandIt();
    RunConcat(INIT, STRAND, actions);
    InitIsFine();
    RunKeepsInv(INIT, STRAND);
    RaiseStrandsWaiters(STRANDED, actions, 1);
  }

  lemma InitIsFine()
    ensures Inv(INIT)
  {}

  const BREAK := [Call(0), Enter(0), FunEnds(0, IsCancelled), CancelTask(0), FinallyDone(0)]

  /** A caller that is cancelled in `fun`, and cancelled again in `finally`, leaves `self.fut` set,
      and however the schedule goes on `fun` is never called again. */
  lemma BrokenWrapper(actions: seq<Action>)
    ensures Run(INIT, BREAK).broken == Some(0) && Run(INIT, BREAK).runs == map[0 := IsCancelled]
    ensures Run(INIT, BREAK + actions).fut == Some(0) && Run(INIT, BREAK + actions).runs == map[0 := IsCancelled]
  {
    var s3 := Step(Step(Step(INIT, Call(0)), Enter(0)), FunEnds(0, IsCancelled));
    assert BREAK == [Call(0), Enter(0), FunEnds(0, IsCancelled)] + [CancelTask(0), FinallyDone(0)];
    RunThree(INIT, Call(0), Enter(0), FunEnds(0, IsCancelled));
    RunConcat(INIT, [Call(0), Enter(0), FunEnds(0, IsCancelled)], [CancelTask(0), FinallyDone(0)]);
    RunThree(s3, CancelTask(0), FinallyDone(0), Call(0));
    RunConcat(INIT, BREAK, actions);
    RunKeepsInv(INIT, BREAK);
    BrokenForEver(Run(INIT, BREAK), actions);
  }

  /** A caller cancelled in `finally` leaves `self.fut` set: `fun` never runs again. */
  lemma {:induction false} BrokenForEver(s: State, actions: seq<Action>)
    requires Inv(s) && s.broken.Some?
    ensures Run(s, actions).fut == s.fut && Run(s, actions).runs == s.runs
    decreases |actions|
  {
    hide Inv;
    hide Step;
    if actions == [] {
    } else {
      StepKeepsInv(s, actions[0]);
      StaysBroken(s, actions[0]);
      BrokenForEver(Step(s, actions[0]), actions[1..]);
    }
  }

  lemma StaysBroken(s: State, a: Action)
    requires Inv(s) && s.broken.Some?
    ensures Step(s, a).broken.Some? && Step(s, a).fut == s.fut && Step(s, a).runs == s.runs
  {
    hide FuturesTell;
    hide CallerFine;
    assert !Active(s, a.t);
  }

  // ---- The class ----

  /** `fut` is the wrapper's own field; the rest belongs to the loop it runs on, or is history.
      Each method is the code of `__call__` from one await to the next. */
  class StampedeWrapper {
    var fut: Option<nat>
    var futures: map<nat, Future>
    var callers: map<nat, Caller>
    ghost var runs: map<nat, End>
    ghost var tampered: set<nat>
    ghost var broken: Option<nat>

    ghost function Model(): State
      reads this
    {
      State(fut, futures, callers, runs, tampered, broken)
    }

    constructor ()
      ensures Model() == INIT && Inv(Model())
    {
      fut, futures, callers, runs, tampered, broken := None, map[], map[], map[], {}, None;
    }

    method Arrive(t: nat)
      requires Inv(Model()) && t !in callers
      modifies this
      ensures Model() == Step(old(Model()), Call(t)) && Inv(Model())
    {
      StepKeepsInv(Model(), Call(t));
      hide Inv;
      callers := callers[t := AtDoor(false)];
    }

    method AfterFirstSleep(t: nat)
      requires Inv(Model()) && t in callers && callers[t].AtDoor?
      modifies this
      ensures Model() == Step(old(Model()), Enter(t)) && Inv(Model())
    {
      StepKeepsInv(Model(), Enter(t));
      assert fut.Some? ==> fut.value in futures;
      hide Inv;
      if callers[t].cancel {
        callers := callers[t := Finished(None, CancelledError, true)];
      } else if fut.None? {
        futures := futures[t := Pending];
        fut := Some(t);
        callers := callers[t := InFun];
      } else if futures[fut.value] != Pending {
        callers := callers[t := Finished(fut, OutcomeOf(futures[fut.value]), false)];
      } else {
        callers := callers[t := AwaitingFuture(fut.value, false)];
      }
    }

    method AfterFun(t: nat, end: End)
      requires Inv(Model()) && t in callers && callers[t] == InFun
      modifies this
      ensures Model() == Step(old(Model()), FunEnds(t, end)) && Inv(Model())
    {
      StepKeepsInv(Model(), FunEnds(t, end));
      assert CallerFine(Model(), t);
      hide Inv;
      runs := runs[t := end];
      match end {
        case Returns(result) =>
          if futures[t] == Pending {
            futures := futures[t := Result(result)];
            callers := callers[t := AfterResult(result, false)];
          } else {
            callers := callers[t := InFinally(InvalidStateError, false, false)];
          }
        case IsCancelled =>
          if futures[t] == Pending {
            futures := futures[t := Cancelled];
          }
          callers := callers[t := InFinally(CancelledError, false, false)];
        case Raises =>
          callers := callers[t := InFinally(OtherError, false, false)];
      }
    }

    method AfterSecondSleep(t: nat)
      requires Inv(Model()) && t in callers && callers[t].AfterResult?
      modifies this
      ensures Model() == Step(old(Model()), AfterSleep(t)) && Inv(Model())
    {
      StepKeepsInv(Model(), AfterSleep(t));
      hide Inv;
      if callers[t].cancel {
        callers := callers[t := InFinally(CancelledError, true, false)];
      } else {
        callers := callers[t := InFinally(Value(callers[t].value), false, false)];
      }
    }

    method AfterFinally(t: nat)
      requires Inv(Model()) && t in callers && callers[t].InFinally?
      modifies this
      ensures Model() == Step(old(Model()), FinallyDone(t)) && Inv(Model())
    {
      StepKeepsInv(Model(), FinallyDone(t));
      hide Inv;
      if callers[t].cancel {
        callers := callers[t := Finished(Some(t), CancelledError, true)];
        broken := Some(t);
      } else {
        fut := None;
        callers := callers[t := Finished(Some(t), callers[t].outcome, callers[t].own)];
      }
    }

    method AfterAwait(t: nat)
      requires Inv(Model()) && t in callers && callers[t].AwaitingFuture?
      requires callers[t].run in futures && futures[callers[t].run] != Pending
      modifies this
      ensures Model() == Step(old(Model()), Wake(t)) && Inv(Model())
    {
      StepKeepsInv(Model(), Wake(t));
      hide Inv;
      var run := callers[t].run;
      var outcome := if callers[t].own then CancelledError else OutcomeOf(futures[run]);
      callers := callers[t := Finished(Some(run), outcome, callers[t].own)];
    }

    /** Somebody cancels the task of a caller that is not in `fun`: what it waits for is cancelled
        at once, and it is told when it runs next, once however often it was cancelled. */
    method CancelCaller(t: nat)
      requires Inv(Model()) && t in callers
      modifies this
      ensures Model() == Step(old(Model()), CancelTask(t)) && Inv(Model())
    {
      StepKeepsInv(Model(), CancelTask(t));
      hide Inv;
      match callers[t] {
        case AtDoor(_) =>
          callers := callers[t := AtDoor(true)];
        case AfterResult(value, _) =>
          callers := callers[t := AfterResult(value, true)];
        case InFinally(outcome, own, _) =>
          callers := callers[t := InFinally(outcome, own, true)];
        case AwaitingFuture(run, own) =>
          callers := callers[t := AwaitingFuture(run, true)];
          if run in futures && futures[run] == Pending {
            futures := futures[run := Cancelled];
            tampered := tampered + {run};
          }
        case _ =>
      }
    }
  }
}
