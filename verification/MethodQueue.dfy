/**
 `mode/threads.py`: the method queue, its workers and the flush when it stops, with any
 number of callers and workers and every interleaving of the steps between awaits.
 Queued methods, and their promises, are named by numbers.
 */
module MethodQueues {
  import opened Sequences

  datatype Promise = Pending | Cancelled | Resolved(outcome: int)

  datatype Actor = Worker(index: nat) | Flusher

  /** Where a worker's loop, or the flush, stands. */
  datatype Pc = Idle | AwaitReady | Getting | Processing(id: nat) | Exited

  datatype Action =
    | Call(id: nat)                        // call(): the put is only scheduled on the loop
    | Cast(id: nat)                        // cast(): the put happens at once
    | RunPut                               // the loop runs the oldest scheduled put
    | CancelPromise(id: nat)
    | Check(w: nat, workerStopped: bool)   // the test of the worker's loop
    | Ready(w: nat)                        // wait(queue_ready) is over
    | Get(w: nat)                          // get() returns an item
    | CancelGet(w: nat)                    // the worker's task is cancelled in get()
    | MethodEnds(actor: Actor, outcome: int)
    | RunResolution                        // the loop runs the oldest maybe_set_result/exception
    | Stop                                 // stop(): the flag is set, the flush begins
    | FlushNext                            // one round of the flush up to its await

  /** `put` and `taken` record every put and every get so far; `settled` every resolution ever
      scheduled, of which the first `ran` have run. */
  datatype State = State(
    scheduled: seq<nat>, queue: seq<nat>, queueReady: bool, stopped: bool, actors: map<Actor, Pc>,
    promises: map<nat, Promise>, settled: seq<(nat, int)>, ran: nat,
    put: seq<nat>, taken: seq<nat>, finished: set<nat>)

  function Init(workers: set<nat>): State {
    State([], [], false, false, map w | w in workers :: Worker(w) := Idle, map[], [], 0, [], [], {})
  }

  function Put(s: State, id: nat): State {
    s.(queue := s.queue + [id], put := s.put + [id], queueReady := true)
  }

  predicate At(s: State, a: Actor, pc: Pc) {
    a in s.actors && s.actors[a] == pc
  }

  /** Takes the oldest item and starts processing it; a cancelled promise is skipped. */
  function Take(s: State, a: Actor): State
    requires s.queue != []
  {
    var id := s.queue[0];
    var s' := s.(queue := s.queue[1..], taken := s.taken + [id]);
    if id in s.promises && s.promises[id] == Cancelled
    then s'.(actors := s.actors[a := Idle], finished := s.finished + {id})
    else s'.(actors := s.actors[a := Processing(id)])
  }

  /** maybe_set_result and maybe_set_exception: nothing happens to a promise that is done. */
  function Settle(promises: map<nat, Promise>, id: nat, outcome: int): map<nat, Promise> {
    if id in promises && promises[id] == Pending then promises[id := Resolved(outcome)] else promises
  }

  /** One step of the system; a step that cannot happen in `s` changes nothing. */
  function Step(s: State, a: Action): State {
    match a
    case Call(id) =>
      if id in s.promises then s
      else s.(promises := s.promises[id := Pending], scheduled := s.scheduled + [id])
    case Cast(id) =>
      if id in s.promises then s else Put(s.(promises := s.promises[id := Pending]), id)
    case RunPut =>
      if s.scheduled == [] then s else Put(s.(scheduled := s.scheduled[1..]), s.scheduled[0])
    case CancelPromise(id) =>
      if id in s.promises && s.promises[id] == Pending then s.(promises := s.promises[id := Cancelled]) else s
    case Check(w, workerStopped) =>
      if !At(s, Worker(w), Idle) then s
      else s.(actors := s.actors[Worker(w) := if workerStopped || s.stopped then Exited else AwaitReady])
    case Ready(w) =>
      if !At(s, Worker(w), AwaitReady) || !(s.queueReady || s.stopped) then s
      else s.(actors := s.actors[Worker(w) := if s.stopped then Idle else Getting])
    case Get(w) =>
      if !At(s, Worker(w), Getting) || s.queue == [] then s else Take(s, Worker(w))
    case CancelGet(w) =>
      if !At(s, Worker(w), Getting) then s else s.(actors := s.actors[Worker(w) := Exited])
    case MethodEnds(actor, outcome) =>
      if actor !in s.actors || !s.actors[actor].Processing? then s
      else
        var id := s.actors[actor].id;
        s.(actors := s.actors[actor := Idle], finished := s.finished + {id}, settled := s.settled + [(id, outcome)])
    case RunResolution =>
      if s.ran >= |s.settled| then s
      else s.(promises := Settle(s.promises, s.settled[s.ran].0, s.settled[s.ran].1), ran := s.ran + 1)
    case Stop =>
      if s.stopped then s else s.(stopped := true, actors := s.actors[Flusher := Idle])
    case FlushNext =>
      if !At(s, Flusher, Idle) then s
      else if s.queue == [] then s.(actors := s.actors[Flusher := Exited])
      else Take(s, Flusher)
  }

  function Run(s: State, actions: seq<Action>): State
    decreases |actions|
  {
    if actions == [] then s else Run(Step(s, actions[0]), actions[1..])
  }

  // ---- What every step keeps ----

  ghost predicate InFlight(s: State, id: nat) {
    exists a :: a in s.actors && s.actors[a] == Processing(id)
  }

  /** First in, first out, nothing lost: what was put is what was taken, then what is queued. */
  ghost predicate Fifo(s: State) {
    && s.put == s.taken + s.queue
    && NoDup(s.put) && NoDup(s.scheduled) && (forall id :: id in s.put ==> id !in s.scheduled)
    && (forall id :: id in s.promises <==> id in s.put || id in s.scheduled)
  }

  /** What was taken is in flight, with one actor, or finished, never both. */
  ghost predicate Accounted(s: State) {
    && (forall id :: id in s.taken <==> InFlight(s, id) || id in s.finished)
    && (forall id :: InFlight(s, id) ==> id !in s.finished)
    && (forall a, b ::
          a in s.actors && b in s.actors && s.actors[a].Processing? && s.actors[b] == s.actors[a] ==> a == b)
  }

  /** At most one resolution is ever scheduled for a promise, after its method has finished;
      a promise is resolved only by a resolution that ran, and to its outcome. */
  ghost predicate ResolvedOnce(s: State) {
    && s.ran <= |s.settled|
    && (forall i :: 0 <= i < |s.settled| ==> s.settled[i].0 in s.finished)
    && (forall i, j :: 0 <= i < j < |s.settled| ==> s.settled[i].0 != s.settled[j].0)
    && (forall id :: id in s.promises && s.promises[id].Resolved? ==> RanFor(s, id, s.promises[id].outcome))
  }

  ghost predicate RanFor(s: State, id: nat, outcome: int) {
    exists i :: 0 <= i < s.ran && i < |s.settled| && s.settled[i] == (id, outcome)
  }

  /** The flush begins when the queue stops. */
  ghost predicate Flushing(s: State) {
    Flusher in s.actors <==> s.stopped
  }

  ghost predicate Inv(s: State) {
    Fifo(s) && Accounted(s) && ResolvedOnce(s) && Flushing(s)
  }

  lemma RunPutKeepsFifo(s: State)
    requires Fifo(s) && s.scheduled != []
    ensures Fifo(Step(s, RunPut))
  {
    assert s.scheduled == [s.scheduled[0]] + s.scheduled[1..];
    assert forall i :: 0 <= i < |s.scheduled[1..]| ==> s.scheduled[1..][i] == s.scheduled[i + 1];
    assert s.scheduled[0] in s.scheduled;
    assert NoDup(s.put + [s.scheduled[0]]) && NoDup(s.scheduled[1..]) && s.scheduled[0] !in s.scheduled[1..];
    assert s.put + [s.scheduled[0]] == s.taken + (s.queue + [s.scheduled[0]]);
  }

  lemma CastKeepsFifo(s: State, id: nat)
    requires Fifo(s) && id !in s.promises
    ensures Fifo(Step(s, Cast(id)))
  {
    assert s.put + [id] == s.taken + (s.queue + [id]);
  }

  lemma TakeKeepsFifo(s: State, a: Actor)
    requires Fifo(s) && s.queue != []
    ensures Fifo(Take(s, a))
    ensures s.queue[0] !in s.taken && s.queue[0] in s.promises
  {
    var s' := Take(s, a);
    assert s.put == s'.taken + s'.queue;
    assert s.put[|s.taken|] == s.queue[0];
    assert forall i :: 0 <= i < |s.taken| ==> s.put[i] == s.taken[i];
    assert s.queue[0] in s.put;
    forall i | 0 <= i < |s.taken|
      ensures s.taken[i] != s.queue[0]
    {
      assert s.put[i] == s.taken[i];
    }
  }

  lemma StepKeepsFifo(s: State, a: Action)
    requires Fifo(s)
    ensures Fifo(Step(s, a))
  {
    match a
    case Cast(id) => if id !in s.promises { CastKeepsFifo(s, id); }
    case RunPut => if s.scheduled != [] { RunPutKeepsFifo(s); }
    case Get(w) => if s.queue != [] { TakeKeepsFifo(s, Worker(w)); }
    case FlushNext => if s.queue != [] { TakeKeepsFifo(s, Flusher); }
    case _ =>
  }

  ghost predicate Busy(s: State, a: Actor, id: nat) {
    a in s.actors && s.actors[a] == Processing(id)
  }

  /** When one actor changes its place, only what it was or is processing is affected. */
  lemma InFlightAfterMove(s: State, s': State, a: Actor, pc: Pc)
    requires Accounted(s) && s'.actors == s.actors[a := pc]
    ensures forall id :: InFlight(s', id) <==> pc == Processing(id) || (InFlight(s, id) && !Busy(s, a, id))
  {
    forall id
      ensures InFlight(s', id) <==> pc == Processing(id) || (InFlight(s, id) && !Busy(s, a, id))
    {
      if pc == Processing(id) {
        assert s'.actors[a] == Processing(id);
      }
      if InFlight(s, id) && !Busy(s, a, id) {
        var b :| b in s.actors && s.actors[b] == Processing(id);
        assert s'.actors[b] == Processing(id);
      }
      if InFlight(s', id) {
        var b :| b in s'.actors && s'.actors[b] == Processing(id);
        if b != a {
          assert s.actors[b] == Processing(id);
        }
      }
    }
  }

  lemma TakeKeepsAccounted(s: State, a: Actor)
    requires Fifo(s) && Accounted(s) && s.queue != []
    requires a in s.actors ==> !s.actors[a].Processing?
    ensures Accounted(Take(s, a))
  {
    hide Fifo;
    hide InFlight;
    TakeKeepsFifo(s, a);
    NextIsUntouched(s);
    var s', id := Take(s, a), s.queue[0];
    InFlightAfterMove(s, s', a, s'.actors[a]);
    NobodyElse(s, s', a, id);
  }

  lemma NextIsUntouched(s: State)
    requires Fifo(s) && Accounted(s) && s.queue != []
    ensures !InFlight(s, s.queue[0]) && s.queue[0] !in s.finished && s.queue[0] !in s.taken
  {
    hide InFlight;
    assert s.put[|s.taken|] == s.queue[0];
    assert forall i :: 0 <= i < |s.taken| ==> s.put[i] == s.taken[i];
  }

  lemma NobodyElse(s: State, s': State, a: Actor, id: nat)
    requires Accounted(s) && !InFlight(s, id)
    requires s'.actors == s.actors[a := Idle] || s'.actors == s.actors[a := Processing(id)]
    ensures forall b, c ::
              b in s'.actors && c in s'.actors && s'.actors[b].Processing? && s'.actors[c] == s'.actors[b] ==> b == c
  {
    forall b | b in s.actors
      ensures s.actors[b] != Processing(id)
    {
      assert Busy(s, b, id) ==> InFlight(s, id);
    }
    hide InFlight;
  }

  lemma MoveKeepsAccounted(s: State, s': State, a: Actor, pc: Pc)
    requires Accounted(s) && s'.actors == s.actors[a := pc] && !pc.Processing? && s'.taken == s.taken
    requires s'.finished ==
             if a in s.actors && s.actors[a].Processing? then s.finished + {s.actors[a].id} else s.finished
    ensures Accounted(s')
  {
    InFlightAfterMove(s, s', a, pc);
    forall id | Busy(s, a, id)
      ensures InFlight(s, id)
    {}
    hide InFlight;
  }

  lemma StepKeepsAccounted(s: State, a: Action)
    requires Fifo(s) && Accounted(s) && Flushing(s)
    ensures Accounted(Step(s, a))
  {
    hide Fifo;
    hide Accounted;
    hide Take;
    var s' := Step(s, a);
    match a
    case Get(w) => if At(s, Worker(w), Getting) && s.queue != [] { TakeKeepsAccounted(s, Worker(w)); }
    case FlushNext =>
      if At(s, Flusher, Idle) {
        if s.queue != [] {
          TakeKeepsAccounted(s, Flusher);
        } else {
          MoveKeepsAccounted(s, s', Flusher, Exited);
        }
      }
    case MethodEnds(actor, _) =>
      if actor in s.actors && s.actors[actor].Processing? { MoveKeepsAccounted(s, s', actor, Idle); }
    case Check(w, _) => if At(s, Worker(w), Idle) { MoveKeepsAccounted(s, s', Worker(w), s'.actors[Worker(w)]); }
    case Ready(w) =>
      if At(s, Worker(w), AwaitReady) && (s.queueReady || s.stopped) {
        MoveKeepsAccounted(s, s', Worker(w), s'.actors[Worker(w)]);
      }
    case CancelGet(w) => if At(s, Worker(w), Getting) { MoveKeepsAccounted(s, s', Worker(w), Exited); }
    case Stop => if !s.stopped { MoveKeepsAccounted(s, s', Flusher, Idle); }
    case _ => SameActors(s, s');
  }

  lemma SameActors(s: State, s': State)
    requires Accounted(s) && s'.actors == s.actors && s'.taken == s.taken && s'.finished == s.finished
    ensures Accounted(s')
  {
    assert forall id :: InFlight(s', id) <==> InFlight(s, id);
  }

  lemma RanForStays(s: State, s': State, id: nat, outcome: int)
    requires RanFor(s, id, outcome) && s.settled <= s'.settled && s.ran <= s'.ran
    ensures RanFor(s', id, outcome)
  {
    var i :| 0 <= i < s.ran && i < |s.settled| && s.settled[i] == (id, outcome);
    assert s'.settled[i] == (id, outcome);
  }

  lemma MethodEndKeepsResolved(s: State, a: Actor, outcome: int)
    requires Accounted(s) && ResolvedOnce(s) && a in s.actors && s.actors[a].Processing?
    ensures ResolvedOnce(Step(s, MethodEnds(a, outcome)))
  {
    var s' := Step(s, MethodEnds(a, outcome));
    assert InFlight(s, s.actors[a].id);
    hide Accounted;
    forall id | id in s'.promises && s'.promises[id].Resolved?
      ensures RanFor(s', id, s'.promises[id].outcome)
    {
      RanForStays(s, s', id, s.promises[id].outcome);
    }
    hide RanFor;
  }

  lemma ResolutionKeepsResolved(s: State)
    requires ResolvedOnce(s) && s.ran < |s.settled|
    ensures ResolvedOnce(Step(s, RunResolution))
  {
    var s' := Step(s, RunResolution);
    forall id | id in s'.promises && s'.promises[id].Resolved?
      ensures RanFor(s', id, s'.promises[id].outcome)
    {
      if id in s.promises && s.promises[id] == s'.promises[id] {
        RanForStays(s, s', id, s.promises[id].outcome);
      } else {
        assert s'.settled[s.ran] == (id, s'.promises[id].outcome);
      }
    }
    hide RanFor;
  }

  lemma OtherKeepsResolved(s: State, s': State)
    requires ResolvedOnce(s) && s'.settled == s.settled && s'.ran == s.ran && s.finished <= s'.finished
    requires forall id :: id in s'.promises && s'.promises[id].Resolved? ==>
               id in s.promises && s.promises[id] == s'.promises[id]
    ensures ResolvedOnce(s')
  {
    forall id | id in s'.promises && s'.promises[id].Resolved?
      ensures RanFor(s', id, s'.promises[id].outcome)
    {
      RanForStays(s, s', id, s.promises[id].outcome);
    }
    hide RanFor;
  }

  lemma StepKeepsResolved(s: State, a: Action)
    requires Accounted(s) && ResolvedOnce(s)
    ensures ResolvedOnce(Step(s, a))
  {
    hide Accounted;
    hide ResolvedOnce;
    hide Take;
    hide Put;
    hide Settle;
    match a
    case MethodEnds(actor, outcome) =>
      if actor in s.actors && s.actors[actor].Processing? { MethodEndKeepsResolved(s, actor, outcome); }
    case RunResolution => if s.ran < |s.settled| { ResolutionKeepsResolved(s); }
    case _ =>
      OtherResolvesNothing(s, a);
      OtherKeepsResolved(s, Step(s, a));
  }

  lemma OtherResolvesNothing(s: State, a: Action)
    requires !a.MethodEnds? && !a.RunResolution?
    ensures var s' := Step(s, a);
            && s'.settled == s.settled && s'.ran == s.ran && s.finished <= s'.finished
            && forall id :: id in s'.promises && s'.promises[id].Resolved? ==>
                 id in s.promises && s.promises[id] == s'.promises[id]
  {
    hide At;
    hide Settle;
    match a
    case Get(_) =>
    case FlushNext =>
    case _ => hide Take;
  }

  lemma StepKeepsFlushing(s: State, a: Action)
    requires Flushing(s)
    ensures Flushing(Step(s, a))
  {}

  lemma StepKeepsInv(s: State, a: Action)
    requires Inv(s)
    ensures Inv(Step(s, a))
  {
    hide Fifo;
    hide Accounted;
    hide ResolvedOnce;
    hide Flushing;
    hide Step;
    StepKeepsFifo(s, a);
    StepKeepsAccounted(s, a);
    StepKeepsResolved(s, a);
    StepKeepsFlushing(s, a);
  }

  lemma {:induction false} RunKeepsInv(s: State, actions: seq<Action>)
    requires Inv(s)
    ensures Inv(Run(s, actions))
    decreases |actions|
  {
    if actions == [] {
    } else {
      StepKeepsInv(s, actions[0]);
      RunKeepsInv(Step(s, actions[0]), actions[1..]);
    }
  }

  // ---- Main results, over every schedule ----

  lemma InitIsFine(workers: set<nat>)
    ensures Inv(Init(workers))
  {
    var s := Init(workers);
    assert forall a :: a in s.actors ==> s.actors[a] == Idle;
  }

  /** Conservation: every method that was called or cast is, as one and only one of these,
      scheduled, queued, in flight or finished; nothing is put twice, and gets happen in the
      order of the puts, so each once. */
  lemma NothingIsLost(workers: set<nat>, actions: seq<Action>, id: nat)
    ensures var s := Run(Init(workers), actions);
            && NoDup(s.put) && s.taken <= s.put && s.queue == s.put[|s.taken|..]
            && (id in s.promises <==> id in s.scheduled || id in s.queue || InFlight(s, id) || id in s.finished)
            && (id in s.scheduled ==> id !in s.queue && !InFlight(s, id) && id !in s.finished)
            && (id in s.queue ==> !InFlight(s, id) && id !in s.finished)
            && (InFlight(s, id) ==> id !in s.finished)
  {
    InitIsFine(workers);
    RunKeepsInv(Init(workers), actions);
    var s := Run(Init(workers), actions);
    assert forall i :: 0 <= i < |s.taken| ==> s.put[i] == s.taken[i];
    assert forall i :: 0 <= i < |s.queue| ==> s.put[|s.taken| + i] == s.queue[i];
  }

  /** A resolved promise has the outcome of its own finished method, and no other resolution was
      ever scheduled for it. */
  lemma OneResolution(workers: set<nat>, actions: seq<Action>, id: nat)
    requires var s := Run(Init(workers), actions); id in s.promises && s.promises[id].Resolved?
    ensures var s := Run(Init(workers), actions);
            && id in s.finished && RanFor(s, id, s.promises[id].outcome)
            && forall i, j ::
                 0 <= i < |s.settled| && 0 <= j < |s.settled| && s.settled[i].0 == id && s.settled[j].0 == id ==> i == j
  {
    InitIsFine(workers);
    RunKeepsInv(Init(workers), actions);
  }

  lemma StepKeepsDone(s: State, a: Action, id: nat)
    requires id in s.promises && s.promises[id] != Pending
    ensures id in Step(s, a).promises && Step(s, a).promises[id] == s.promises[id]
  {}

  /** A promise that is resolved or cancelled stays as it is. */
  lemma {:induction false} DonePromisesStay(s: State, actions: seq<Action>, id: nat)
    requires id in s.promises && s.promises[id] != Pending
    ensures id in Run(s, actions).promises && Run(s, actions).promises[id] == s.promises[id]
    decreases |actions|
  {
    hide Step;
    if actions == [] {
    } else {
      StepKeepsDone(s, actions[0], id);
      DonePromisesStay(Step(s, actions[0]), actions[1..], id);
    }
  }

  // ---- What the schedule does to a method and its promise ----

  /** What a step can do to a method, to its promise or to a worker. */
  datatype Happening =
    | Begun(id: nat)                   // it is taken and called
    | Skipped(id: nat)                 // it is taken with a promise that is cancelled
    | Ended(id: nat, outcome: int)
    | PromiseCancelled(id: nat)        // while the promise was pending
    | WorkerLeft(w: nat)

  /** The oldest item is `id`, and the step is a get of an actor that is about to take it. */
  predicate Takes(s: State, a: Action, id: nat) {
    && s.queue != [] && s.queue[0] == id
    && ((a.Get? && At(s, Worker(a.w), Getting)) || (a.FlushNext? && At(s, Flusher, Idle)))
  }

  predicate IsCancelled(s: State, id: nat) {
    id in s.promises && s.promises[id] == Cancelled
  }

  ghost predicate Happens(s: State, a: Action, h: Happening) {
    match h
    case Begun(id) => Takes(s, a, id) && !IsCancelled(s, id)
    case Skipped(id) => Takes(s, a, id) && IsCancelled(s, id)
    case Ended(id, outcome) => a.MethodEnds? && Busy(s, a.actor, id) && a.outcome == outcome
    case PromiseCancelled(id) => a == CancelPromise(id) && id in s.promises && s.promises[id] == Pending
    case WorkerLeft(w) =>
      || (a.Check? && a.w == w && At(s, Worker(w), Idle) && (a.workerStopped || s.stopped))
      || (a == CancelGet(w) && At(s, Worker(w), Getting))
  }

  /** Somewhere in the schedule it happens. */
  ghost predicate Happened(workers: set<nat>, actions: seq<Action>, h: Happening) {
    exists k :: 0 <= k < |actions| && Happens(Run(Init(workers), actions[..k]), actions[k], h)
  }

  lemma OneMoreHappening(workers: set<nat>, actions: seq<Action>, a: Action)
    ensures forall h :: Happened(workers, actions + [a], h) <==>
                        Happened(workers, actions, h) || Happens(Run(Init(workers), actions), a, h)
  {
    hide Step;
    hide Happens;
    var all := actions + [a];
    assert forall k :: 0 <= k <= |actions| ==> all[..k] == actions[..k];
    assert all[..|actions|] == actions && all[|actions|] == a;
    forall h | Happened(workers, actions, h)
      ensures Happened(workers, all, h)
    {
      var k :| 0 <= k < |actions| && Happens(Run(Init(workers), actions[..k]), actions[k], h);
      assert Happens(Run(Init(workers), all[..k]), all[k], h);
    }
    forall h | Happens(Run(Init(workers), actions), a, h)
      ensures Happened(workers, all, h)
    {
      assert Happens(Run(Init(workers), all[..|actions|]), all[|actions|], h);
    }
  }

  ghost predicate HasEnded(workers: set<nat>, actions: seq<Action>, id: nat) {
    exists outcome :: Happened(workers, actions, Ended(id, outcome))
  }

  lemma OneMoreEnd(workers: set<nat>, actions: seq<Action>, a: Action, id: nat)
    ensures HasEnded(workers, actions + [a], id) <==>
            || HasEnded(workers, actions, id)
            || (a.MethodEnds? && Busy(Run(Init(workers), actions), a.actor, id))
  {
    hide Step;
    hide Happened;
    OneMoreHappening(workers, actions, a);
    if a.MethodEnds? && Busy(Run(Init(workers), actions), a.actor, id) {
      assert Happened(workers, actions + [a], Ended(id, a.outcome));
    }
  }

  /** What a step can add to the records of the methods. */
  lemma StepRecords(s: State, a: Action, id: nat)
    requires Inv(s)
    ensures id in Step(s, a).taken <==> id in s.taken || Takes(s, a, id)
    ensures Takes(s, a, id) ==> id !in s.taken && id in s.promises
    ensures id in Step(s, a).finished <==>
            id in s.finished || Happens(s, a, Skipped(id)) || (a.MethodEnds? && Busy(s, a.actor, id))
    ensures a.MethodEnds? && Busy(s, a.actor, id) ==> id in s.taken && id !in s.finished
  {
    hide Inv;
    hide Step;
    if a.MethodEnds? && Busy(s, a.actor, id) {
      BusyIsTaken(s, a.actor, id);
    }
    if s.queue != [] {
      NextIsNew(s);
    }
    StepTakes(s, a, id);
    StepFinishes(s, a, id);
  }

  lemma StepTakes(s: State, a: Action, id: nat)
    ensures id in Step(s, a).taken <==> id in s.taken || Takes(s, a, id)
  {}

  lemma StepFinishes(s: State, a: Action, id: nat)
    ensures id in Step(s, a).finished <==>
            id in s.finished || Happens(s, a, Skipped(id)) || (a.MethodEnds? && Busy(s, a.actor, id))
  {
    match a
    case Get(_) =>
    case FlushNext =>
    case MethodEnds(_, _) =>
    case _ => hide Take;
  }

  lemma BusyIsTaken(s: State, a: Actor, id: nat)
    requires Inv(s) && Busy(s, a, id)
    ensures id in s.taken && id !in s.finished
  {
    hide Fifo;
    hide ResolvedOnce;
    assert InFlight(s, id);
  }

  lemma NextIsNew(s: State)
    requires Inv(s) && s.queue != []
    ensures s.queue[0] !in s.taken && s.queue[0] in s.promises
  {
    TakeKeepsFifo(s, Flusher);
  }

  lemma StepSettles(s: State, a: Action, id: nat, outcome: int)
    ensures (id, outcome) in Step(s, a).settled <==>
            (id, outcome) in s.settled || Happens(s, a, Ended(id, outcome))
  {}

  lemma StepCancels(s: State, a: Action, id: nat)
    ensures IsCancelled(Step(s, a), id) <==> IsCancelled(s, id) || Happens(s, a, PromiseCancelled(id))
  {}

  lemma StepLeaves(s: State, a: Action, w: nat)
    ensures At(Step(s, a), Worker(w), Exited) <==> At(s, Worker(w), Exited) || Happens(s, a, WorkerLeft(w))
  {}

  /** The records of a state are what the schedule did. */
  ghost predicate Recorded(s: State, workers: set<nat>, actions: seq<Action>, id: nat) {
    && (id in s.taken <==> Happened(workers, actions, Begun(id)) || Happened(workers, actions, Skipped(id)))
    && !(Happened(workers, actions, Begun(id)) && Happened(workers, actions, Skipped(id)))
    && (id in s.finished <==> Happened(workers, actions, Skipped(id)) || HasEnded(workers, actions, id))
    && (HasEnded(workers, actions, id) ==> Happened(workers, actions, Begun(id)))
    && (IsCancelled(s, id) <==> Happened(workers, actions, PromiseCancelled(id)))
  }

  lemma {:induction false} RunIsRecorded(workers: set<nat>, actions: seq<Action>, id: nat)
    ensures Recorded(Run(Init(workers), actions), workers, actions, id)
    decreases |actions|
  {
    hide Inv;
    hide Step;
    hide Happened;
    hide HasEnded;
    if actions == [] {
      NothingHappened(workers, id);
    } else {
      var init, a := actions[..|actions| - 1], actions[|actions| - 1];
      var s := Run(Init(workers), init);
      assert actions == init + [a];
      RunIsRecorded(workers, init, id);
      RunOneMore(Init(workers), init, a);
      InitIsFine(workers);
      RunKeepsInv(Init(workers), init);
      OneMoreHappening(workers, init, a);
      OneMoreEnd(workers, init, a, id);
      StepRecords(s, a, id);
      StepCancels(s, a, id);
    }
  }

  lemma NothingHappened(workers: set<nat>, id: nat)
    ensures Recorded(Run(Init(workers), []), workers, [], id)
  {}

  lemma {:induction false} RunOneMore(s: State, actions: seq<Action>, a: Action)
    ensures Run(s, actions + [a]) == Step(Run(s, actions), a)
    decreases |actions|
  {
    hide Step;
    if actions == [] {
      assert [a][1..] == [];
      assert Run(s, [a]) == Run(Step(s, a), []);
    } else {
      assert (actions + [a])[1..] == actions[1..] + [a];
      RunOneMore(Step(s, actions[0]), actions[1..], a);
    }
  }

  lemma {:induction false} SettledIsEnded(workers: set<nat>, actions: seq<Action>, id: nat, outcome: int)
    ensures (id, outcome) in Run(Init(workers), actions).settled <==> Happened(workers, actions, Ended(id, outcome))
    decreases |actions|
  {
    hide Step;
    hide Happens;
    hide Happened;
    if actions == [] {
      NoneSettled(workers, id, outcome);
    } else {
      var init, a := actions[..|actions| - 1], actions[|actions| - 1];
      assert actions == init + [a];
      SettledIsEnded(workers, init, id, outcome);
      RunOneMore(Init(workers), init, a);
      OneMoreHappening(workers, init, a);
      StepSettles(Run(Init(workers), init), a, id, outcome);
    }
  }

  lemma NoneSettled(workers: set<nat>, id: nat, outcome: int)
    ensures Run(Init(workers), []).settled == [] && !Happened(workers, [], Ended(id, outcome))
  {}

  /** Over every schedule: a method is called exactly if it is taken before its promise is cancelled,
      and is then in flight until it ends; it counts as finished exactly if it has ended or was
      taken with a cancelled promise; and exactly the methods that ended have a resolution. */
  lemma MethodsAreCalled(workers: set<nat>, actions: seq<Action>, id: nat)
    ensures var s := Run(Init(workers), actions);
            && (InFlight(s, id) <==> Happened(workers, actions, Begun(id)) && !HasEnded(workers, actions, id))
            && (id in s.finished <==> Happened(workers, actions, Skipped(id)) || HasEnded(workers, actions, id))
            && (HasEnded(workers, actions, id) ==> Happened(workers, actions, Begun(id)))
            && forall outcome ::
                 (id, outcome) in s.settled <==> Happened(workers, actions, Ended(id, outcome))
  {
    hide Step;
    hide Happened;
    hide HasEnded;
    RunIsRecorded(workers, actions, id);
    InitIsFine(workers);
    RunKeepsInv(Init(workers), actions);
    forall outcome
      ensures (id, outcome) in Run(Init(workers), actions).settled <==> Happened(workers, actions, Ended(id, outcome))
    {
      SettledIsEnded(workers, actions, id, outcome);
    }
  }

  // ---- What becomes of a promise ----

  /** A resolution that has run leaves no promise pending. */
  ghost predicate RanAreDone(s: State) {
    && (forall i :: 0 <= i < |s.settled| ==> s.settled[i].0 in s.promises)
    && (forall i :: 0 <= i < s.ran && i < |s.settled| ==>
          s.settled[i].0 in s.promises && s.promises[s.settled[i].0] != Pending)
  }

  lemma StepKeepsRan(s: State, a: Action)
    requires Inv(s) && RanAreDone(s)
    ensures RanAreDone(Step(s, a))
  {
    hide Inv;
    if a.MethodEnds? && a.actor in s.actors && s.actors[a.actor].Processing? {
      BusyIsTaken(s, a.actor, s.actors[a.actor].id);
      TakenHasPromise(s, s.actors[a.actor].id);
    }
    RanInBounds(s);
    hide Take;
  }

  lemma TakenHasPromise(s: State, id: nat)
    requires Inv(s) && id in s.taken
    ensures id in s.promises
  {
    assert forall i :: 0 <= i < |s.taken| ==> s.put[i] == s.taken[i];
  }

  lemma RanInBounds(s: State)
    requires Inv(s)
    ensures s.ran <= |s.settled|
  {}

  lemma {:induction false} RunKeepsRan(s: State, actions: seq<Action>)
    requires Inv(s) && RanAreDone(s)
    ensures RanAreDone(Run(s, actions))
    decreases |actions|
  {
    hide Inv;
    hide Step;
    hide RanAreDone;
    if actions == [] {
    } else {
      StepKeepsInv(s, actions[0]);
      StepKeepsRan(s, actions[0]);
      RunKeepsRan(Step(s, actions[0]), actions[1..]);
    }
  }

  /** Over every schedule: once its resolution has run, the promise of a method has the outcome with
      which the method ended, unless it was cancelled first. */
  lemma RanIsResolved(workers: set<nat>, actions: seq<Action>, i: nat)
    requires i < Run(Init(workers), actions).ran
    ensures var s := Run(Init(workers), actions);
            && i < |s.settled| && s.settled[i].0 in s.promises
            && s.promises[s.settled[i].0] ==
               if Happened(workers, actions, PromiseCancelled(s.settled[i].0)) then Cancelled
               else Resolved(s.settled[i].1)
  {
    hide Step;
    hide Happened;
    hide HasEnded;
    hide Inv;
    var s := Run(Init(workers), actions);
    InitIsFine(workers);
    RunKeepsInv(Init(workers), actions);
    RunKeepsRan(Init(workers), actions);
    RanHasOutcome(s, i);
    RunIsRecorded(workers, actions, s.settled[i].0);
  }

  lemma RanHasOutcome(s: State, i: nat)
    requires Inv(s) && RanAreDone(s) && i < s.ran
    ensures i < |s.settled| && s.settled[i].0 in s.promises
    ensures var (id, outcome) := s.settled[i];
            s.promises[id] == if IsCancelled(s, id) then Cancelled else Resolved(outcome)
  {
    hide Fifo;
    hide Accounted;
  }

  ghost function Resolutions(n: nat): seq<Action> {
    if n == 0 then [] else [RunResolution] + Resolutions(n - 1)
  }

  lemma {:induction false} ResolutionsRun(s: State, n: nat)
    requires s.ran + n <= |s.settled|
    ensures var s' := Run(s, Resolutions(n)); s'.ran == s.ran + n && s'.settled == s.settled
    decreases n
  {
    hide Step;
    if n == 0 {
    } else {
      assert Resolutions(n)[0] == RunResolution && Resolutions(n)[1..] == Resolutions(n - 1);
      OneResolutionRuns(s);
      ResolutionsRun(Step(s, RunResolution), n - 1);
    }
  }

  lemma OneResolutionRuns(s: State)
    requires s.ran < |s.settled|
    ensures Step(s, RunResolution).ran == s.ran + 1 && Step(s, RunResolution).settled == s.settled
  {}

  /** When the loop has run what is scheduled, the promise of every method that has ended is
      resolved to its outcome, unless it was cancelled first. */
  lemma EveryEndResolves(workers: set<nat>, actions: seq<Action>, id: nat, outcome: int)
    requires Happened(workers, actions, Ended(id, outcome))
    ensures var s := Run(Init(workers), actions);
            s.ran <= |s.settled|
    ensures var s := Run(Init(workers), actions);
            var all := actions + Resolutions(|s.settled| - s.ran);
            && id in Run(Init(workers), all).promises
            && Run(Init(workers), all).promises[id] ==
               if Happened(workers, all, PromiseCancelled(id)) then Cancelled else Resolved(outcome)
  {
    hide Step;
    hide Happened;
    var s := Run(Init(workers), actions);
    InitIsFine(workers);
    RunKeepsInv(Init(workers), actions);
    RanInBounds(s);
    hide Inv;
    SettledIsEnded(workers, actions, id, outcome);
    var n := |s.settled| - s.ran;
    ResolutionsRun(s, n);
    RunConcat(Init(workers), actions, Resolutions(n));
    var i :| 0 <= i < |s.settled| && s.settled[i] == (id, outcome);
    RanIsResolved(workers, actions + Resolutions(n), i);
  }

  lemma {:induction false} RunConcat(s: State, a: seq<Action>, b: seq<Action>)
    ensures Run(s, a + b) == Run(Run(s, a), b)
    decreases |a|
  {
    hide Step;
    if a == [] {
      assert a + b == b;
    } else {
      assert (a + b)[0] == a[0] && (a + b)[1..] == a[1..] + b;
      RunConcat(Step(s, a[0]), a[1..], b);
    }
  }

  // ---- The workers ----

  /** Over every schedule: the queue has stopped exactly if `stop` was called, it has become ready
      exactly if something was put, and a worker has left its loop exactly if it was told to stop
      at the test, or was cancelled in `get`. */
  lemma {:induction false} WorkersLeave(workers: set<nat>, actions: seq<Action>, w: nat)
    ensures var s := Run(Init(workers), actions);
            && (s.stopped <==> Stop in actions) && (s.queueReady <==> s.put != [])
            && (At(s, Worker(w), Exited) <==> Happened(workers, actions, WorkerLeft(w)))
    decreases |actions|
  {
    hide Step;
    hide Happens;
    hide Happened;
    hide At;
    if actions == [] {
      NobodyLeft(workers, w);
    } else {
      var init, a := actions[..|actions| - 1], actions[|actions| - 1];
      var s := Run(Init(workers), init);
      assert actions == init + [a];
      WorkersLeave(workers, init, w);
      RunOneMore(Init(workers), init, a);
      OneMoreHappening(workers, init, a);
      StepLeaves(s, a, w);
      StepSignals(s, a);
    }
  }

  lemma NobodyLeft(workers: set<nat>, w: nat)
    ensures var s := Run(Init(workers), []);
            !s.stopped && !s.queueReady && s.put == [] && !At(s, Worker(w), Exited)
    ensures !Happened(workers, [], WorkerLeft(w))
  {}

  lemma StepSignals(s: State, a: Action)
    requires s.queueReady <==> s.put != []
    ensures Step(s, a).queueReady <==> Step(s, a).put != []
    ensures Step(s, a).stopped <==> s.stopped || a == Stop
  {
    hide At;
    hide Settle;
    match a
    case Get(_) =>
    case FlushNext =>
    case _ => hide Take;
  }

  /** While the queue has not stopped, an idle worker that goes on takes the oldest item, and calls its
      method unless the promise is cancelled. */
  lemma WorkerServes(workers: set<nat>, actions: seq<Action>, w: nat)
    requires var s := Run(Init(workers), actions); At(s, Worker(w), Idle) && s.queue != []
    requires Stop !in actions
    ensures var s, s' := Run(Init(workers), actions),
                         Run(Init(workers), actions + [Check(w, false), Ready(w), Get(w)]);
            && s'.taken == s.taken + [s.queue[0]] && s'.queue == s.queue[1..]
            && if IsCancelled(s, s.queue[0]) then At(s', Worker(w), Idle)
               else At(s', Worker(w), Processing(s.queue[0]))
  {
    hide Step;
    hide Inv;
    var s := Run(Init(workers), actions);
    WorkersLeave(workers, actions, w);
    InitIsFine(workers);
    RunKeepsInv(Init(workers), actions);
    QueuedWasPut(s);
    var three := [Check(w, false), Ready(w), Get(w)];
    RunConcat(Init(workers), actions, three);
    RunThree(s, three[0], three[1], three[2]);
    ServesInThree(s, w);
  }

  lemma QueuedWasPut(s: State)
    requires Inv(s)
    ensures s.queue != [] ==> s.put != []
  {}

  lemma RunThree(s: State, a: Action, b: Action, c: Action)
    ensures Run(s, [a, b, c]) == Step(Step(Step(s, a), b), c)
  {
    hide Step;
    assert [a, b, c][1..] == [b, c] && [b, c][1..] == [c] && [c][1..] == [];
    assert Run(Step(s, a), [b, c]) == Run(Step(Step(s, a), b), [c]);
    assert Run(Step(Step(s, a), b), [c]) == Run(Step(Step(Step(s, a), b), c), []);
  }

  lemma ServesInThree(s: State, w: nat)
    requires At(s, Worker(w), Idle) && s.queue != [] && !s.stopped && s.queueReady
    ensures var s' := Step(Step(Step(s, Check(w, false)), Ready(w)), Get(w));
            && s'.taken == s.taken + [s.queue[0]] && s'.queue == s.queue[1..]
            && if IsCancelled(s, s.queue[0]) then At(s', Worker(w), Idle)
               else At(s', Worker(w), Processing(s.queue[0]))
  {}

  // ---- The order of the puts ----

  ghost predicate Asked(actions: seq<Action>, id: nat) {
    Call(id) in actions || Cast(id) in actions
  }

  /** The methods that were called, or those that were cast, in order. */
  ghost function InTurn(actions: seq<Action>, cast: bool): seq<nat> {
    if actions == [] then []
    else
      var init, a := actions[..|actions| - 1], actions[|actions| - 1];
      InTurn(init, cast) + if IsCall(a) && a.Cast? == cast && !Asked(init, a.id) then [a.id] else []
  }

  ghost function Only(s: seq<nat>, keep: set<nat>): seq<nat> {
    if s == [] then []
    else Only(s[..|s| - 1], keep) + if s[|s| - 1] in keep then [s[|s| - 1]] else []
  }

  lemma OneMoreOnly(s: seq<nat>, id: nat, keep: set<nat>)
    ensures Only(s + [id], keep) == Only(s, keep) + if id in keep then [id] else []
  {
    assert (s + [id])[..|s|] == s;
  }

  lemma {:induction false} InTurnWereAsked(actions: seq<Action>, cast: bool)
    ensures forall id :: id in InTurn(actions, cast) ==> Asked(actions, id)
  {
    if actions == [] {
    } else {
      InTurnWereAsked(actions[..|actions| - 1], cast);
    }
  }

  lemma OneMoreTurn(actions: seq<Action>, a: Action, cast: bool)
    ensures InTurn(actions + [a], cast) ==
            InTurn(actions, cast) + if IsCall(a) && a.Cast? == cast && !Asked(actions, a.id) then [a.id] else []
    ensures forall id :: Asked(actions + [a], id) <==> Asked(actions, id) || a == Call(id) || a == Cast(id)
  {
    assert (actions + [a])[..|actions|] == actions;
  }

  /** `calls` holds the methods that were called, and not those that were cast. */
  ghost predicate AreCalls(actions: seq<Action>, calls: set<nat>) {
    && (forall id :: id in InTurn(actions, false) ==> id in calls)
    && (forall id :: id in InTurn(actions, true) ==> id !in calls)
  }

  lemma {:induction false} PutInOrder(workers: set<nat>, actions: seq<Action>, calls: set<nat>, casts: set<nat>)
    requires AreCalls(actions, calls) && forall id :: Asked(actions, id) ==> (id in casts <==> id !in calls)
    ensures var s := Run(Init(workers), actions);
            && (forall id :: id in s.promises <==> Asked(actions, id))
            && Only(s.put, calls) + s.scheduled == InTurn(actions, false)
            && Only(s.put, casts) == InTurn(actions, true)
    decreases |actions|
  {
    hide Step;
    if actions == [] {
    } else {
      var init, a := actions[..|actions| - 1], actions[|actions| - 1];
      var s := Run(Init(workers), init);
      assert actions == init + [a];
      OneMoreTurn(init, a, false);
      OneMoreTurn(init, a, true);
      PutInOrder(workers, init, calls, casts);
      RunOneMore(Init(workers), init, a);
      InTurnWereAsked(init, false);
      StepPutsInOrder(s, a, calls, casts);
      StepPromises(s, a);
    }
  }

  /** Over every schedule the methods that were called are put in the order of the calls, and those that
      were cast in the order of the casts; those that are still to be put come last. */
  lemma PutsFollowTheCalls(workers: set<nat>, actions: seq<Action>)
    ensures var s := Run(Init(workers), actions);
            && (forall id :: id in s.promises <==> Asked(actions, id))
            && Only(s.put, set id | id in InTurn(actions, false)) + s.scheduled == InTurn(actions, false)
            && Only(s.put, set id | id in InTurn(actions, true)) == InTurn(actions, true)
  {
    hide Step;
    EachInOneTurn(actions);
    PutInOrder(workers, actions, set id | id in InTurn(actions, false), set id | id in InTurn(actions, true));
  }

  lemma {:induction false} EachInOneTurn(actions: seq<Action>)
    ensures forall id :: Asked(actions, id) <==> id in InTurn(actions, false) || id in InTurn(actions, true)
    ensures forall id :: id in InTurn(actions, false) ==> id !in InTurn(actions, true)
  {
    if actions == [] {
    } else {
      var init, a := actions[..|actions| - 1], actions[|actions| - 1];
      assert actions == init + [a];
      EachInOneTurn(init);
      OneMoreTurn(init, a, false);
      OneMoreTurn(init, a, true);
    }
  }

  lemma StepPutsInOrder(s: State, a: Action, calls: set<nat>, casts: set<nat>)
    requires forall id :: id in s.scheduled ==> id in calls && id !in casts
    requires IsCall(a) && a.id !in s.promises ==> (a.id in casts <==> a.Cast?) && (a.id in calls <==> a.Call?)
    ensures var s', isNew := Step(s, a), IsCall(a) && a.id !in s.promises;
            && Only(s'.put, calls) + s'.scheduled ==
               Only(s.put, calls) + s.scheduled + (if isNew && a.Call? then [a.id] else [])
            && Only(s'.put, casts) == Only(s.put, casts) + (if isNew && a.Cast? then [a.id] else [])
  {
    hide Step;
    hide Only;
    StepPuts(s, a);
    match a
    case Cast(id) =>
      OneMoreOnly(s.put, id, calls);
      OneMoreOnly(s.put, id, casts);
    case RunPut =>
      if s.scheduled != [] {
        OneMoreOnly(s.put, s.scheduled[0], calls);
        OneMoreOnly(s.put, s.scheduled[0], casts);
        assert s.scheduled == [s.scheduled[0]] + s.scheduled[1..];
      }
    case _ =>
  }

  /** What a step does to the puts. */
  lemma StepPuts(s: State, a: Action)
    ensures var s', isNew := Step(s, a), IsCall(a) && a.id !in s.promises;
            && s'.put == (if isNew && a.Cast? then s.put + [a.id]
                          else if a.RunPut? && s.scheduled != [] then s.put + [s.scheduled[0]]
                          else s.put)
            && s'.scheduled == (if isNew && a.Call? then s.scheduled + [a.id]
                                else if a.RunPut? && s.scheduled != [] then s.scheduled[1..]
                                else s.scheduled)
  {}

  lemma StepPromises(s: State, a: Action)
    ensures forall id :: id in Step(s, a).promises <==> id in s.promises || (IsCall(a) && id == a.id)
  {}

  predicate IsCall(a: Action) {
    a.Call? || a.Cast?
  }

  ghost predicate NoCalls(actions: seq<Action>) {
    forall a :: a in actions ==> !IsCall(a)
  }

  /** When the flush ends the queue is empty; without later calls it stays empty, whatever
      else happens, if and only if no put was still scheduled then. */
  lemma FlushLeavesNothing(s: State)
    requires At(s, Flusher, Idle) && s.queue == []
    ensures At(Step(s, FlushNext), Flusher, Exited) && Step(s, FlushNext).queue == []
    ensures (forall actions :: NoCalls(actions) ==> Run(Step(s, FlushNext), actions).queue == []) <==> s.scheduled == []
  {
    var s' := Step(s, FlushNext);
    if s.scheduled == [] {
      forall actions | NoCalls(actions)
        ensures Run(s', actions).queue == []
      {
        StaysEmpty(s', actions);
      }
    } else {
      assert Run(s', [RunPut]) == Step(s', RunPut) by {
        assert [RunPut][1..] == [];
      }
      assert NoCalls([RunPut]);
    }
  }

  lemma {:induction false} StaysEmpty(s: State, actions: seq<Action>)
    requires s.queue == [] && s.scheduled == [] && NoCalls(actions)
    ensures Run(s, actions).queue == [] && Run(s, actions).scheduled == []
    decreases |actions|
  {
    if actions == [] {
    } else {
      assert actions == [actions[0]] + actions[1..] && !IsCall(actions[0]);
      StaysEmpty(Step(s, actions[0]), actions[1..]);
    }
  }

  /** Over every schedule: what was put before the flush ended has been taken, and stays so. */
  lemma FlushedIsTaken(workers: set<nat>, actions: seq<Action>, k: nat)
    requires k < |actions| && actions[k] == FlushNext
    requires var s := Run(Init(workers), actions[..k]); At(s, Flusher, Idle) && s.queue == []
    ensures Run(Init(workers), actions[..k]).put <= Run(Init(workers), actions).taken
  {
    hide Step;
    var s := Run(Init(workers), actions[..k]);
    assert actions == actions[..k] + actions[k..];
    RunConcat(Init(workers), actions[..k], actions[k..]);
    InitIsFine(workers);
    RunKeepsInv(Init(workers), actions[..k]);
    assert s.taken + [] == s.taken;
    TakenGrows(s, actions[k..]);
  }

  lemma {:induction false} TakenGrows(s: State, actions: seq<Action>)
    ensures s.taken <= Run(s, actions).taken
    decreases |actions|
  {
    hide Step;
    if actions == [] {
    } else {
      StepTakesAtMost(s, actions[0]);
      TakenGrows(Step(s, actions[0]), actions[1..]);
    }
  }

  lemma StepTakesAtMost(s: State, a: Action)
    ensures s.taken <= Step(s, a).taken
  {}

  /** The flush ends only on an empty queue: before that it takes the oldest item. */
  lemma FlushGoesOn(s: State)
    requires At(s, Flusher, Idle)
    ensures At(Step(s, FlushNext), Flusher, Exited) <==> s.queue == []
    ensures s.queue != [] ==> Step(s, FlushNext).queue == s.queue[1..]
  {}

  /** What the flush does when nobody interferes: it takes everything in turn, and ends. */
  ghost function Drain(n: nat): seq<Action> {
    if n == 0 then [FlushNext] else [FlushNext, MethodEnds(Flusher, 0)] + Drain(n - 1)
  }

  lemma {:induction false} FlushDrains(s: State)
    requires At(s, Flusher, Idle)
    ensures var s' := Run(s, Drain(|s.queue|));
            At(s', Flusher, Exited) && s'.queue == [] && s'.taken == s.taken + s.queue && s'.put == s.put
    decreases |s.queue|
  {
    if s.queue == [] {
      assert [FlushNext][1..] == [];
      assert Run(s, [FlushNext]) == Run(Step(s, FlushNext), []);
    } else {
      var s' := Step(Step(s, FlushNext), MethodEnds(Flusher, 0));
      FlushTakes(s);
      FlushDrains(s');
      var all, rest := Drain(|s.queue|), Drain(|s'.queue|);
      assert all[0] == FlushNext && all[1..][0] == MethodEnds(Flusher, 0) && all[1..][1..] == rest;
      assert Run(s, all) == Run(Step(s, FlushNext), all[1..]) == Run(s', rest);
      assert s.taken + s.queue == (s.taken + [s.queue[0]]) + s.queue[1..];
    }
  }

  lemma FlushTakes(s: State)
    requires At(s, Flusher, Idle) && s.queue != []
    ensures var s' := Step(Step(s, FlushNext), MethodEnds(Flusher, 0));
            At(s', Flusher, Idle) && s'.queue == s.queue[1..] && s'.taken == s.taken + [s.queue[0]] && s'.put == s.put
  {}

  // ---- What the flush leaves behind ----

  /** What is queued or still to be put, in the order in which it can be taken. */
  ghost function Waiting(s: State): seq<nat> {
    s.queue + s.scheduled
  }

  /** The workers that wait in `get`, each for one more item. */
  ghost function Takers(s: State): set<Actor> {
    set a | a in s.actors && s.actors[a] == Getting
  }

  ghost predicate FlushDone(s: State) {
    s.stopped && At(s, Flusher, Exited)
  }

  /** The method is neither taken nor is its promise resolved. */
  ghost predicate Stuck(s: State, id: nat) {
    id in Waiting(s) && (id in s.promises ==> !s.promises[id].Resolved?)
  }

  /** When the flush is done a method that is still to be taken stays so for ever, with its
      promise unresolved, if and only if no fewer are ahead of it than workers wait in `get`. */
  lemma LeftBehindExactly(s: State, p: nat)
    requires Inv(s) && FlushDone(s) && p < |Waiting(s)|
    ensures (forall actions :: Stuck(Run(s, actions), Waiting(s)[p])) <==> p >= |Takers(s)|
  {
    var id := Waiting(s)[p];
    WaitingIsDistinct(s);
    if p >= |Takers(s)| {
      forall actions
        ensures Stuck(Run(s, actions), id)
      {
        var p' := StaysBehind(s, p, actions);
        RunKeepsInv(s, actions);
        WaitingIsUnresolved(Run(s, actions), p');
      }
    } else {
      var actions := TakeIt(s, p);
      assert !Stuck(Run(s, actions), id);
    }
  }

  lemma WaitingIsDistinct(s: State)
    requires Inv(s)
    ensures NoDup(Waiting(s))
  {
    hide Accounted;
    hide ResolvedOnce;
    assert forall i :: 0 <= i < |s.queue| ==> s.queue[i] == s.put[|s.taken| + i] && s.queue[i] in s.put;
    assert forall i :: 0 <= i < |s.scheduled| ==> s.scheduled[i] in s.scheduled;
  }

  lemma WaitingIsUnresolved(s: State, p: nat)
    requires Inv(s) && p < |Waiting(s)|
    ensures Stuck(s, Waiting(s)[p])
  {
    hide Fifo;
    assert Waiting(s)[p] in Waiting(s);
    WaitingIsNotTaken(s, p);
  }

  lemma WaitingIsNotTaken(s: State, p: nat)
    requires Inv(s) && p < |Waiting(s)|
    ensures Waiting(s)[p] !in s.taken
  {
    hide Accounted;
    hide ResolvedOnce;
    forall k | 0 <= k < |s.taken|
      ensures s.taken[k] != Waiting(s)[p]
    {
      assert s.put[k] == s.taken[k] && s.put[k] in s.put;
      if p < |s.queue| {
        assert s.put[|s.taken| + p] == Waiting(s)[p];
      } else {
        assert Waiting(s)[p] == s.scheduled[p - |s.queue|] && Waiting(s)[p] in s.scheduled;
      }
    }
  }

  lemma {:induction false} StaysBehind(s: State, p: nat, actions: seq<Action>) returns (p': nat)
    requires FlushDone(s) && p < |Waiting(s)| && p >= |Takers(s)|
    ensures var s' := Run(s, actions); p' < |Waiting(s')| && Waiting(s')[p'] == Waiting(s)[p]
    decreases |actions|
  {
    hide Step;
    if actions == [] {
      p' := p;
    } else {
      p' := StepStaysBehind(s, p, actions[0]);
      p' := StaysBehind(Step(s, actions[0]), p', actions[1..]);
    }
  }

  lemma StepStaysBehind(s: State, p: nat, a: Action) returns (p': nat)
    requires FlushDone(s) && p < |Waiting(s)| && p >= |Takers(s)|
    ensures var s' := Step(s, a);
            && FlushDone(s') && p' < |Waiting(s')| && Waiting(s')[p'] == Waiting(s)[p] && p' >= |Takers(s')|
  {
    var s' := Step(s, a);
    FewerTakers(s, a);
    p' := if a.Cast? && s' != s && p >= |s.queue| then p + 1
          else if a.Get? && s' != s then p - 1
          else p;
  }

  /** No worker begins to wait once the queue has stopped, and one that takes an item waits no more. */
  lemma FewerTakers(s: State, a: Action)
    requires FlushDone(s)
    ensures FlushDone(Step(s, a)) && Takers(Step(s, a)) <= Takers(s)
    ensures |Takers(Step(s, a))| <= |Takers(s)|
    ensures a.Get? && Step(s, a) != s ==>
              && |Takers(Step(s, a))| < |Takers(s)|
              && s.queue != [] && Step(s, a).queue == s.queue[1..] && Step(s, a).scheduled == s.scheduled
  {
    Smaller(Takers(Step(s, a)), Takers(s));
    if a.Get? && Step(s, a) != s {
      assert Worker(a.w) in Takers(s) && Worker(a.w) !in Takers(Step(s, a));
    }
  }

  lemma Smaller<T>(a: set<T>, b: set<T>)
    ensures a <= b ==> |a| <= |b|
    ensures a < b ==> |a| < |b|
  {
    if a <= b {
      assert b == a + (b - a);
      assert a < b ==> b - a != {};
    }
  }

  lemma {:induction false} TakeIt(s: State, p: nat) returns (actions: seq<Action>)
    requires FlushDone(s) && p < |Waiting(s)| && p < |Takers(s)| && NoDup(Waiting(s))
    ensures Waiting(s)[p] !in Waiting(Run(s, actions))
    decreases p, |s.scheduled|
  {
    var a: Action;
    if s.queue == [] {
      a := RunPut;
      PutKeepsWaiting(s);
      actions := TakeIt(Step(s, a), p);
    } else {
      var taker :| taker in Takers(s);
      a := Get(taker.index);
      GetTakesFirst(s, taker.index);
      if p == 0 {
        actions := [];
      } else {
        actions := TakeIt(Step(s, a), p - 1);
      }
    }
    assert ([a] + actions)[1..] == actions;
    actions := [a] + actions;
  }

  lemma PutKeepsWaiting(s: State)
    requires FlushDone(s) && s.scheduled != []
    ensures var s' := Step(s, RunPut);
            FlushDone(s') && Waiting(s') == Waiting(s) && Takers(s') == Takers(s) && |s'.scheduled| < |s.scheduled|
  {}

  lemma GetTakesFirst(s: State, w: nat)
    requires FlushDone(s) && Worker(w) in Takers(s) && s.queue != [] && NoDup(Waiting(s))
    ensures var s' := Step(s, Get(w));
            && FlushDone(s') && Waiting(s') == Waiting(s)[1..] && |Takers(s')| == |Takers(s)| - 1
            && NoDup(Waiting(s')) && Waiting(s)[0] !in Waiting(s')
  {
    var s' := Step(s, Get(w));
    assert Takers(s') == Takers(s) - {Worker(w)};
    assert Waiting(s') == Waiting(s)[1..];
  }

  /** A put that is still scheduled when the flush ends is left behind for ever: here the call
      came before `stop`, and there is no worker. */
  lemma ScheduledCallIsLeftBehind()
    ensures var s := Run(Init({}), [Call(0), Stop, FlushNext, RunPut]);
            At(s, Flusher, Exited) && s.queue == [0] && s.promises == map[0 := Pending]
  {
    var s0 := Init({});
    assert s0.actors == map[];
    var s1 := Step(s0, Call(0));
    var s2 := Step(s1, Stop);
    var s3 := Step(s2, FlushNext);
    var s4 := Step(s3, RunPut);
    assert Run(s0, [Call(0), Stop, FlushNext, RunPut]) == Run(s1, [Stop, FlushNext, RunPut]);
    assert Run(s1, [Stop, FlushNext, RunPut]) == Run(s2, [FlushNext, RunPut]);
    assert Run(s2, [FlushNext, RunPut]) == Run(s3, [RunPut]);
    assert Run(s3, [RunPut]) == Run(s4, []);
  }

  // ---- The class ----

  /** `queue`, `queueReady` and `stopped` are the queue's own; the rest belongs to the loop or is
      history.  Each method is the code from one await to the next. */
  class MethodQueue {
    var scheduled: seq<nat>
    var queue: seq<nat>
    var queueReady: bool
    var stopped: bool
    var actors: map<Actor, Pc>
    var promises: map<nat, Promise>
    var settled: seq<(nat, int)>
    var ran: nat
    ghost var put: seq<nat>
    ghost var taken: seq<nat>
    ghost var finished: set<nat>

    ghost function Model(): State
      reads this
    {
      State(scheduled, queue, queueReady, stopped, actors, promises, settled, ran, put, taken, finished)
    }

    constructor (workers: set<nat>)
      ensures Model() == Init(workers) && Inv(Model())
    {
      InitIsFine(workers);
      scheduled, queue, queueReady, stopped := [], [], false, false;
      actors := map w | w in workers :: Worker(w) := Idle;
      promises, settled, ran := map[], [], 0;
      put, taken, finished := [], [], {};
    }

    method CallMethod(id: nat)
      requires Inv(Model()) && id !in promises
      modifies this
      ensures Model() == Step(old(Model()), Call(id)) && Inv(Model())
    {
      hide Inv;
      StepKeepsInv(Model(), Call(id));
      promises := promises[id := Pending];
      scheduled := scheduled + [id];
    }

    method QueuePut(id: nat)
      modifies this
      ensures Model() == Put(old(Model()), id)
    {
      queue := queue + [id];
      put := put + [id];
      queueReady := true;
    }

    /** The loop runs the put that `call` scheduled. */
    method RunScheduledPut()
      requires Inv(Model()) && scheduled != []
      modifies this
      ensures Model() == Step(old(Model()), RunPut) && Inv(Model())
    {
      hide Inv;
      StepKeepsInv(Model(), RunPut);
      var id := scheduled[0];
      scheduled := scheduled[1..];
      QueuePut(id);
    }

    method CastMethod(id: nat)
      requires Inv(Model()) && id !in promises
      modifies this
      ensures Model() == Step(old(Model()), Cast(id)) && Inv(Model())
    {
      hide Inv;
      StepKeepsInv(Model(), Cast(id));
      promises := promises[id := Pending];
      QueuePut(id);
    }

    /** `_process_enqueued` up to the call of the method; a cancelled promise is skipped. */
    method ProcessEnqueued(actor: Actor)
      requires queue != []
      modifies this
      ensures Model() == Take(old(Model()), actor)
    {
      var id := queue[0];
      queue := queue[1..];
      taken := taken + [id];
      if id in promises && promises[id] == Cancelled {
        actors := actors[actor := Idle];
        finished := finished + {id};
      } else {
        actors := actors[actor := Processing(id)];
      }
    }

    /** The test of the worker's loop, up to `wait`. */
    method WorkerCheck(w: nat, workerStopped: bool)
      requires Inv(Model()) && At(Model(), Worker(w), Idle)
      modifies this
      ensures Model() == Step(old(Model()), Check(w, workerStopped)) && Inv(Model())
    {
      hide Inv;
      StepKeepsInv(Model(), Check(w, workerStopped));
      if !workerStopped && !stopped {
        actors := actors[Worker(w) := AwaitReady];
      } else {
        actors := actors[Worker(w) := Exited];
      }
    }

    /** The worker's loop from `wait` up to `get`, unless the queue has stopped. */
    method WorkerReady(w: nat)
      requires Inv(Model()) && At(Model(), Worker(w), AwaitReady) && (queueReady || stopped)
      modifies this
      ensures Model() == Step(old(Model()), Ready(w)) && Inv(Model())
    {
      hide Inv;
      StepKeepsInv(Model(), Ready(w));
      if !stopped {
        actors := actors[Worker(w) := Getting];
      } else {
        actors := actors[Worker(w) := Idle];
      }
    }

    /** The worker's task is cancelled while it waits in `get`. */
    method WorkerCancelled(w: nat)
      requires Inv(Model()) && At(Model(), Worker(w), Getting)
      modifies this
      ensures Model() == Step(old(Model()), CancelGet(w)) && Inv(Model())
    {
      hide Inv;
      StepKeepsInv(Model(), CancelGet(w));
      actors := actors[Worker(w) := Exited];
    }

    /** The caller cancels its promise: `cancel` does nothing to one that is done. */
    method PromiseCancelled(id: nat)
      requires Inv(Model()) && id in promises
      modifies this
      ensures Model() == Step(old(Model()), CancelPromise(id)) && Inv(Model())
    {
      hide Inv;
      StepKeepsInv(Model(), CancelPromise(id));
      if promises[id] == Pending {
        promises := promises[id := Cancelled];
      }
    }

    /** `stop` up to the first round of the flush. */
    method OnStop()
      requires Inv(Model())
      modifies this
      ensures Model() == Step(old(Model()), Stop) && Inv(Model())
    {
      hide Inv;
      StepKeepsInv(Model(), Stop);
      if !stopped {
        stopped := true;
        actors := actors[Flusher := Idle];
      }
    }

    method WorkerGet(w: nat)
      requires Inv(Model()) && At(Model(), Worker(w), Getting) && queue != []
      modifies this
      ensures Model() == Step(old(Model()), Get(w)) && Inv(Model())
    {
      hide Inv;
      StepKeepsInv(Model(), Get(w));
      ProcessEnqueued(Worker(w));
    }

    /** `_process_enqueued` after the method returned or raised. */
    method ProcessEnd(actor: Actor, outcome: int)
      requires Inv(Model()) && actor in actors && actors[actor].Processing?
      modifies this
      ensures Model() == Step(old(Model()), MethodEnds(actor, outcome)) && Inv(Model())
    {
      hide Inv;
      StepKeepsInv(Model(), MethodEnds(actor, outcome));
      var id := actors[actor].id;
      settled := settled + [(id, outcome)];
      actors := actors[actor := Idle];
      finished := finished + {id};
    }

    method MaybeSet()
      requires Inv(Model()) && ran < |settled|
      modifies this
      ensures Model() == Step(old(Model()), RunResolution) && Inv(Model())
    {
      hide Inv;
      StepKeepsInv(Model(), RunResolution);
      var (id, outcome) := settled[ran];
      if id in promises && promises[id] == Pending {
        promises := promises[id := Resolved(outcome)];
      }
      ran := ran + 1;
    }

    /** One round of `flush`: true when the queue was empty, which ends it. */
    method FlushRound() returns (done: bool)
      requires Inv(Model()) && At(Model(), Flusher, Idle)
      modifies this
      ensures Model() == Step(old(Model()), FlushNext) && Inv(Model())
      ensures done <==> old(queue) == []
    {
      hide Inv;
      StepKeepsInv(Model(), FlushNext);
      done := queue == [];
      if done {
        actors := actors[Flusher := Exited];
      } else {
        ProcessEnqueued(Flusher);
      }
    }
  }
}
