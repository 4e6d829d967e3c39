/** `mode/services.py`: how often the hooks of a service can be called when starts, stops,
    crashes, restarts and resets interleave at every `await`. */
module Lifecycles {

  /** What was called on one service so far, and how many of its coroutines are suspended. */
  datatype State = State(
    started: bool, stopped: bool, crashed: bool, restarts: nat,
    children: seq<nat>, extended: nat,
    firstStarts: nat, starts: nat, starteds: nat, stops: nat, shutdowns: nat,
    inFirstStart: nat, inStart: nat, inChildren: nat, inStop: nat) {

    predicate ShouldStop() {
      stopped || crashed
    }
  }

  /** A step runs from one `await` that suspends to the next.

      `Start` is also what `maybe_start` and the end of `restart` do, and `Reset` is what
      `service_reset` does to each service of a subtree; a step may also be the failure of
      the hook a coroutine is suspended in. */
  datatype Action =
    | Start(dependencies: seq<nat>)
    | FirstStartReturns
    | StartReturns
    | ChildrenStarted
    | StartFails(where: Where)
    | Stop
    | StopReturns(fails: bool)
    | Crash
    | Reset

  datatype Where = InFirstStart | InStart | InChildren

  function New(): State {
    State(false, false, false, 0, [], 0, 0, 0, 0, 0, 0, 0, 0, 0, 0)
  }

  /** `on_start`, unless the service should stop by now. */
  function CallStart(s: State): State {
    if s.ShouldStop() then s else s.(starts := s.starts + 1, inStart := s.inStart + 1)
  }

  function Step(s: State, a: Action): State {
    match a
    case Start(dependencies) =>
      if s.started then s
      else if s.restarts == 0 then
        s.(started := true, children := s.children + dependencies, extended := s.extended + 1,
           firstStarts := s.firstStarts + 1, inFirstStart := s.inFirstStart + 1)
      else CallStart(s.(started := true))
    case FirstStartReturns =>
      if s.inFirstStart == 0 then s else CallStart(s.(inFirstStart := s.inFirstStart - 1))
    case StartReturns =>
      if s.inStart == 0 then s
      else if s.ShouldStop() then s.(inStart := s.inStart - 1)
      else s.(inStart := s.inStart - 1, inChildren := s.inChildren + 1)
    case ChildrenStarted =>
      if s.inChildren == 0 then s else s.(inChildren := s.inChildren - 1, starteds := s.starteds + 1)
    case StartFails(InFirstStart) => if s.inFirstStart == 0 then s else s.(inFirstStart := s.inFirstStart - 1)
    case StartFails(InStart) => if s.inStart == 0 then s else s.(inStart := s.inStart - 1)
    case StartFails(InChildren) => if s.inChildren == 0 then s else s.(inChildren := s.inChildren - 1)
    case Stop => if s.stopped then s else s.(stopped := true, stops := s.stops + 1, inStop := s.inStop + 1)
    case StopReturns(fails) =>
      if s.inStop == 0 then s
      else s.(inStop := s.inStop - 1, shutdowns := if fails then s.shutdowns else s.shutdowns + 1)
    case Crash => s.(crashed := true)
    case Reset => s.(restarts := s.restarts + 1, started := false, stopped := false, crashed := false)
  }

  /** The flags and counters of a service, changed in place by the segments of its coroutines. */
  class Service {
    var started: bool
    var stopped: bool
    var crashed: bool
    var restartCount: nat
    var children: seq<nat>
    ghost var calls: State

    ghost function Now(): State
      reads this
    {
      calls.(started := started, stopped := stopped, crashed := crashed, restarts := restartCount, children := children)
    }

    constructor ()
      ensures Now() == New()
    {
      started, stopped, crashed, restartCount, children := false, false, false, 0, [];
      calls := New();
    }

    predicate ShouldStop()
      reads this
    {
      stopped || crashed
    }

    /** `_default_start` and `_actually_start` up to the first hook. */
    method Start(dependencies: seq<nat>) returns (ok: bool)
      modifies this
      ensures ok <==> !old(started)
      ensures Now() == Step(old(Now()), Action.Start(dependencies))
    {
      ok := !started;
      if !ok {
        return;
      }
      started := true;
      if restartCount == 0 {
        for i := 0 to |dependencies|
          invariant Now() == old(Now()).(started := true, children := old(children) + dependencies[..i])
        {
          children := children + [dependencies[i]];
        }
        assert dependencies[..|dependencies|] == dependencies;
        calls := calls.(extended := calls.extended + 1, firstStarts := calls.firstStarts + 1,
                        inFirstStart := calls.inFirstStart + 1);
        return;
      }
      if ShouldStop() {
        return;
      }
      calls := calls.(starts := calls.starts + 1, inStart := calls.inStart + 1);
    }

    /** `_actually_start` from the return of `on_first_start` to the call of `on_start`. */
    method AfterFirstStart()
      requires Now().inFirstStart > 0
      modifies this
      ensures Now() == Step(old(Now()), FirstStartReturns)
    {
      calls := calls.(inFirstStart := calls.inFirstStart - 1);
      if ShouldStop() {
        return;
      }
      calls := calls.(starts := calls.starts + 1, inStart := calls.inStart + 1);
    }

    /** `_actually_start` from the return of `on_start` to the start of the first child. */
    method AfterStart()
      requires Now().inStart > 0
      modifies this
      ensures Now() == Step(old(Now()), StartReturns)
    {
      calls := calls.(inStart := calls.inStart - 1);
      if ShouldStop() {
        return;
      }
      calls := calls.(inChildren := calls.inChildren + 1);
    }

    /** `_actually_start` from the end of the loop over the children to `on_started`. */
    method AfterChildren()
      requires Now().inChildren > 0
      modifies this
      ensures Now() == Step(old(Now()), ChildrenStarted)
    {
      calls := calls.(inChildren := calls.inChildren - 1, starteds := calls.starteds + 1);
    }

    /** What a start was suspended in fails, and the start with it. */
    method FailStart(where: Where)
      requires match where
               case InFirstStart => Now().inFirstStart > 0
               case InStart => Now().inStart > 0
               case InChildren => Now().inChildren > 0
      modifies this
      ensures Now() == Step(old(Now()), StartFails(where))
    {
      match where {
        case InFirstStart => calls := calls.(inFirstStart := calls.inFirstStart - 1);
        case InStart => calls := calls.(inStart := calls.inStart - 1);
        case InChildren => calls := calls.(inChildren := calls.inChildren - 1);
      }
    }

    /** `stop` up to `on_stop`. */
    method Stop()
      modifies this
      ensures Now() == Step(old(Now()), Action.Stop)
    {
      if !stopped {
        stopped := true;
        calls := calls.(stops := calls.stops + 1, inStop := calls.inStop + 1);
      }
    }

    /** `stop` from the end of `on_stop` to `on_shutdown`, which is not called if `on_stop` failed. */
    method AfterStop(fails: bool)
      requires Now().inStop > 0
      modifies this
      ensures Now() == Step(old(Now()), StopReturns(fails))
    {
      calls := calls.(inStop := calls.inStop - 1);
      if !fails {
        calls := calls.(shutdowns := calls.shutdowns + 1);
      }
    }

    /** `service_reset`, this service's part. */
    method ServiceReset()
      modifies this
      ensures Now() == Step(old(Now()), Reset)
    {
      restartCount := restartCount + 1;
      started, stopped, crashed := false, false, false;
    }

    /** `_crash`, this service's part. */
    method MarkCrashed()
      modifies this
      ensures Now() == Step(old(Now()), Action.Crash)
    {
      crashed := true;
    }
  }

  // ---- Runs ----

  /** Steps of many services; what a step does to other services are steps of their own. */
  ghost function Run(world: map<nat, State>, actions: seq<(nat, Action)>): map<nat, State>
    decreases |actions|
  {
    if actions == [] then world
    else
      var (id, a) := actions[0];
      Run(if id in world then world[id := Step(world[id], a)] else world, actions[1..])
  }

  function OneIf(b: bool): nat {
    if b then 1 else 0
  }

  ghost predicate Inv(s: State) {
    FirstInv(s) && StartInv(s) && StopInv(s)
  }

  ghost predicate FirstInv(s: State) {
    && s.extended == s.firstStarts <= 1
    && (s.restarts == 0 && !s.started ==> s.firstStarts == 0)
    && (s.extended == 0 ==> s.children == [])
  }

  ghost predicate StartInv(s: State) {
    && s.starts + s.inFirstStart <= s.restarts + OneIf(s.started)
    && s.starteds + s.inStart + s.inChildren <= s.starts
  }

  ghost predicate StopInv(s: State) {
    && s.stops <= s.restarts + OneIf(s.stopped)
    && s.shutdowns + s.inStop <= s.stops
  }

  lemma StepKeepsFirst(s: State, a: Action)
    requires FirstInv(s)
    ensures FirstInv(Step(s, a))
  {}

  lemma StepKeepsStart(s: State, a: Action)
    requires StartInv(s)
    ensures StartInv(Step(s, a))
  {}

  lemma StepKeepsStop(s: State, a: Action)
    requires StopInv(s)
    ensures StopInv(Step(s, a))
  {}

  lemma {:induction false} EveryRun(world: map<nat, State>, actions: seq<(nat, Action)>)
    requires forall id :: id in world ==> Inv(world[id])
    ensures Run(world, actions).Keys == world.Keys
    ensures forall id :: id in world ==> Inv(Run(world, actions)[id])
    decreases |actions|
  {
    hide FirstInv;
    hide StartInv;
    hide StopInv;
    hide Step;
    if actions == [] {
    } else {
      var (id, a) := actions[0];
      var next := if id in world then world[id := Step(world[id], a)] else world;
      if id in world {
        StepKeepsFirst(world[id], a);
        StepKeepsStart(world[id], a);
        StepKeepsStop(world[id], a);
      }
      EveryRun(next, actions[1..]);
    }
  }

  /** In every interleaving every service is started for the first time at most once in its
      life, and its dependencies are added at most once; it is started and stopped at most once
      for each time it was reset, and once more. */
  lemma HooksAreBounded(world: map<nat, State>, actions: seq<(nat, Action)>, id: nat)
    requires id in world && forall k :: k in world ==> world[k] == New()
    ensures id in Run(world, actions)
    ensures var s := Run(world, actions)[id];
            && s.firstStarts <= 1 && s.extended <= 1
            && s.starteds <= s.starts <= s.restarts + 1
            && s.shutdowns <= s.stops <= s.restarts + 1
  {
    EveryRun(world, actions);
  }

  ghost function RunOne(s: State, actions: seq<Action>): State
    decreases |actions|
  {
    if actions == [] then s else RunOne(Step(s, actions[0]), actions[1..])
  }

  /** The steps of one service. */
  ghost function Mine(actions: seq<(nat, Action)>, id: nat): seq<Action> {
    if actions == [] then []
    else (if actions[0].0 == id then [actions[0].1] else []) + Mine(actions[1..], id)
  }

  /** In every interleaving a service goes through its own steps. */
  lemma {:induction false} RunIsOwnSteps(world: map<nat, State>, actions: seq<(nat, Action)>, id: nat)
    requires id in world
    ensures id in Run(world, actions) && Run(world, actions)[id] == RunOne(world[id], Mine(actions, id))
    decreases |actions|
  {
    hide Step;
    if actions == [] {
    } else {
      var (k, a) := actions[0];
      var next := if k in world then world[k := Step(world[k], a)] else world;
      RunIsOwnSteps(next, actions[1..], id);
      var rest := Mine(actions[1..], id);
      assert ([a] + rest)[1..] == rest && [] + rest == rest;
    }
  }

  // ---- What a schedule makes of the flags ----

  /** The steps after the last reset. */
  ghost function SinceReset(actions: seq<Action>): seq<Action> {
    if actions == [] then []
    else if actions[|actions| - 1] == Reset then []
    else SinceReset(actions[..|actions| - 1]) + [actions[|actions| - 1]]
  }

  ghost function Resets(actions: seq<Action>): nat {
    if actions == [] then 0
    else Resets(actions[..|actions| - 1]) + if actions[|actions| - 1] == Reset then 1 else 0
  }

  ghost predicate HasStart(actions: seq<Action>) {
    exists dependencies :: Start(dependencies) in actions
  }

  /** Over every schedule the flags tell what has happened since the last reset. */
  lemma {:induction false} FlagsTell(actions: seq<Action>)
    ensures var s, since := RunOne(New(), actions), SinceReset(actions);
            && (s.started <==> HasStart(since)) && (s.stopped <==> Stop in since) && (s.crashed <==> Crash in since)
            && s.restarts == Resets(actions)
    decreases |actions|
  {
    hide Step;
    hide HasStart;
    if actions == [] {
      NoStartYet();
    } else {
      var init, a := actions[..|actions| - 1], actions[|actions| - 1];
      assert actions == init + [a];
      FlagsTell(init);
      RunConcat(New(), init, [a]);
      assert RunOne(RunOne(New(), init), [a]) == RunOne(Step(RunOne(New(), init), a), []);
      StepFlags(RunOne(New(), init), a);
      OneMoreStart(SinceReset(init), a);
      NoStartYet();
    }
  }

  lemma NoStartYet()
    ensures !HasStart([]) && RunOne(New(), []) == New()
  {}

  lemma OneMoreStart(actions: seq<Action>, a: Action)
    ensures HasStart(actions + [a]) <==> HasStart(actions) || a.Start?
  {
    if a.Start? {
      assert Start(a.dependencies) in actions + [a];
    }
    if dependencies :| Start(dependencies) in actions {
      assert Start(dependencies) in actions + [a];
    }
  }

  lemma StepFlags(s: State, a: Action)
    ensures var s' := Step(s, a);
            && (s'.started <==> a != Reset && (s.started || a.Start?))
            && (s'.stopped <==> a != Reset && (s.stopped || a == Stop))
            && (s'.crashed <==> a != Reset && (s.crashed || a == Crash))
            && s'.restarts == s.restarts + OneIf(a == Reset)
  {}

  lemma {:induction false} RunConcat(s: State, a: seq<Action>, b: seq<Action>)
    ensures RunOne(s, a + b) == RunOne(RunOne(s, a), b)
    decreases |a|
  {
    hide Step;
    if a == [] {
      assert a + b == b;
    } else {
      assert (a + b)[0] == a[0] && (a + b)[1..] == a[1..] + b;
      RunConcat(Step(s, a[0]), a[1..], b);
    }
  }

  // ---- What a crash or a stop keeps from happening, and what not ----

  /** After a crash or a stop, `on_start` is not called before the next reset, whatever else happens, and
      `on_started` only for starts that were at their children by then. */
  lemma NoStartsAfterCrash(before: seq<Action>, after: seq<Action>)
    requires (Crash in SinceReset(before) || Stop in SinceReset(before)) && NoReset(after)
    ensures var s, s' := RunOne(New(), before), RunOne(New(), before + after);
            && s'.starts == s.starts
            && s'.starteds + s'.inChildren <= s.starteds + s.inChildren
  {
    FlagsTell(before);
    RunConcat(New(), before, after);
    NoStartsWhenStopping(RunOne(New(), before), after);
  }

  lemma {:induction false} NoStartsWhenStopping(s: State, actions: seq<Action>)
    requires (s.stopped || s.crashed) && NoReset(actions)
    ensures RunOne(s, actions).starts == s.starts
    ensures RunOne(s, actions).starteds + RunOne(s, actions).inChildren <= s.starteds + s.inChildren
    decreases |actions|
  {
    hide Step;
    if actions == [] {
    } else {
      assert actions[0] in actions && NoReset(actions[1..]);
      NoStartWhenStopping(s, actions[0]);
      NoStartsWhenStopping(Step(s, actions[0]), actions[1..]);
    }
  }

  lemma NoStartWhenStopping(s: State, a: Action)
    requires (s.stopped || s.crashed) && a != Reset
    ensures var s' := Step(s, a);
            && (s'.stopped || s'.crashed) && s'.starts == s.starts
            && s'.starteds + s'.inChildren <= s.starteds + s.inChildren
  {}

  /** Left alone, a start that may begin goes through all its hooks: the first one only if the service
      was never reset, and then its dependencies are added. */
  lemma StartGoesThrough(s: State, dependencies: seq<nat>)
    requires !s.started && !s.stopped && !s.crashed
    ensures var first := if s.restarts == 0 then [FirstStartReturns] else [];
            RunOne(s, [Start(dependencies)] + first + [StartReturns, ChildrenStarted]) ==
            s.(started := true, starts := s.starts + 1, starteds := s.starteds + 1,
               firstStarts := s.firstStarts + OneIf(s.restarts == 0), extended := s.extended + OneIf(s.restarts == 0),
               children := s.children + if s.restarts == 0 then dependencies else [])
  {
    hide Step;
    GoesThrough(s, dependencies);
    if s.restarts == 0 {
      RunFour(s, Start(dependencies), FirstStartReturns, StartReturns, ChildrenStarted);
      assert [Start(dependencies)] + [FirstStartReturns] + [StartReturns, ChildrenStarted] ==
             [Start(dependencies), FirstStartReturns, StartReturns, ChildrenStarted];
    } else {
      RunThree(s, Start(dependencies), StartReturns, ChildrenStarted);
      assert [Start(dependencies)] + [] + [StartReturns, ChildrenStarted] ==
             [Start(dependencies), StartReturns, ChildrenStarted];
    }
  }

  lemma GoesThrough(s: State, dependencies: seq<nat>)
    requires !s.started && !s.stopped && !s.crashed
    ensures var s1 := Step(s, Start(dependencies));
            var s2 := if s.restarts == 0 then Step(s1, FirstStartReturns) else s1;
            Step(Step(s2, StartReturns), ChildrenStarted) ==
            s.(started := true, starts := s.starts + 1, starteds := s.starteds + 1,
               firstStarts := s.firstStarts + OneIf(s.restarts == 0), extended := s.extended + OneIf(s.restarts == 0),
               children := s.children + if s.restarts == 0 then dependencies else [])
  {}

  /** The step finds a coroutine suspended there, or for a stop, the service not stopped yet. */
  predicate Ready(s: State, a: Action) {
    match a
    case FirstStartReturns => s.inFirstStart > 0
    case StartReturns => s.inStart > 0
    case ChildrenStarted => s.inChildren > 0
    case StartFails(InFirstStart) => s.inFirstStart > 0
    case StartFails(InStart) => s.inStart > 0
    case StartFails(InChildren) => s.inChildren > 0
    case Stop => !s.stopped
    case StopReturns(_) => s.inStop > 0
    case _ => true
  }

  /** How often the schedule, from `s` on, takes this step when it is ready. */
  ghost function Times(s: State, actions: seq<Action>, a: Action): nat
    decreases |actions|
  {
    if actions == [] then 0
    else OneIf(actions[0] == a && Ready(s, a)) + Times(Step(s, actions[0]), actions[1..], a)
  }

  /** How often `on_start` returns to find that the service should stop by then. */
  ghost function TimesTooLate(s: State, actions: seq<Action>): nat
    decreases |actions|
  {
    if actions == [] then 0
    else OneIf(actions[0] == StartReturns && Ready(s, StartReturns) && (s.stopped || s.crashed)) +
         TimesTooLate(Step(s, actions[0]), actions[1..])
  }

  /** Over every schedule no call is lost: each call of `on_first_start` or `on_start` is going on or
      has returned or failed; a start whose `on_start` has returned has gone on to its children, unless the
      service should have stopped by then; `on_started` is called once for each start whose children
      have started; each stop is going on or has returned, and then `on_shutdown` has been called,
      or failed, and then it has not. */
  lemma {:induction false} CallsAreAccounted(s: State, actions: seq<Action>)
    ensures var s' := RunOne(s, actions);
            && s'.firstStarts - s.firstStarts ==
               s'.inFirstStart - s.inFirstStart +
               Times(s, actions, FirstStartReturns) + Times(s, actions, StartFails(InFirstStart))
            && s'.starts - s.starts ==
               s'.inStart - s.inStart + Times(s, actions, StartReturns) + Times(s, actions, StartFails(InStart))
            && Times(s, actions, StartReturns) ==
               s'.inChildren - s.inChildren + TimesTooLate(s, actions) +
               Times(s, actions, ChildrenStarted) + Times(s, actions, StartFails(InChildren))
            && s'.starteds - s.starteds == Times(s, actions, ChildrenStarted)
            && s'.stops - s.stops == Times(s, actions, Stop)
            && s'.shutdowns - s.shutdowns == Times(s, actions, StopReturns(false))
            && s'.stops - s.stops ==
               s'.inStop - s.inStop + Times(s, actions, StopReturns(false)) + Times(s, actions, StopReturns(true))
    decreases |actions|
  {
    hide Step;
    hide Ready;
    if actions == [] {
    } else {
      StepAccounts(s, actions[0]);
      StepAccountsForStops(s, actions[0]);
      CallsAreAccounted(Step(s, actions[0]), actions[1..]);
    }
  }

  lemma StepAccounts(s: State, a: Action)
    ensures var s' := Step(s, a);
            && s'.firstStarts - s.firstStarts ==
               s'.inFirstStart - s.inFirstStart +
               OneIf(a == FirstStartReturns && Ready(s, a)) + OneIf(a == StartFails(InFirstStart) && Ready(s, a))
            && s'.starts - s.starts ==
               s'.inStart - s.inStart +
               OneIf(a == StartReturns && Ready(s, a)) + OneIf(a == StartFails(InStart) && Ready(s, a))
            && OneIf(a == StartReturns && Ready(s, a)) ==
               s'.inChildren - s.inChildren +
               OneIf(a == StartReturns && Ready(s, StartReturns) && (s.stopped || s.crashed)) +
               OneIf(a == ChildrenStarted && Ready(s, a)) + OneIf(a == StartFails(InChildren) && Ready(s, a))
  {}

  lemma StepAccountsForStops(s: State, a: Action)
    ensures var s' := Step(s, a);
            && s'.starteds - s.starteds == OneIf(a == ChildrenStarted && Ready(s, a))
            && s'.stops - s.stops == OneIf(a == Stop && Ready(s, a))
            && s'.shutdowns - s.shutdowns == OneIf(a == StopReturns(false) && Ready(s, a))
            && s'.stops - s.stops ==
               s'.inStop - s.inStop +
               OneIf(a == StopReturns(false) && Ready(s, a)) + OneIf(a == StopReturns(true) && Ready(s, a))
  {}

  ghost predicate NoReset(actions: seq<Action>) {
    Reset !in actions
  }

  /** How many calls of `on_start` can be going on before the next reset: those that are, and
      unless the service should stop by now, one for each first start that is suspended and one
      for a start that can still begin. */
  function StartsToCome(s: State): nat {
    s.inStart + if s.ShouldStop() then 0 else s.inFirstStart + OneIf(!s.started)
  }

  /** Until the next reset two calls of `on_start` never overlap, whatever else happens, if and
      only if at most one is to come. */
  lemma StartsOverlapExactly(s: State)
    ensures (forall actions :: NoReset(actions) ==> RunOne(s, actions).inStart <= 1) <==> StartsToCome(s) <= 1
  {
    if StartsToCome(s) <= 1 {
      forall actions | NoReset(actions)
        ensures RunOne(s, actions).inStart <= 1
      {
        RunLowersStartsToCome(s, actions);
      }
    } else if s.ShouldStop() {
      assert NoReset([]) && RunOne(s, []).inStart >= 2;
    } else {
      var actions := [Start([]), FirstStartReturns, FirstStartReturns];
      RunThree(s, actions[0], actions[1], actions[2]);
      assert NoReset(actions) && RunOne(s, actions).inStart >= 2;
    }
  }

  /** After a reset that means: no call of `on_start` can overlap another before the next reset
      if and only if the reset found no start suspended in `on_first_start` or `on_start`. */
  lemma ResetIsSafe(s: State)
    ensures (forall actions :: NoReset(actions) ==> RunOne(Step(s, Reset), actions).inStart <= 1) <==>
            s.inFirstStart + s.inStart == 0
  {
    StartsOverlapExactly(Step(s, Reset));
  }

  lemma StepLowersStartsToCome(s: State, a: Action)
    requires a != Reset
    ensures StartsToCome(Step(s, a)) <= StartsToCome(s)
  {}

  lemma {:induction false} RunLowersStartsToCome(s: State, actions: seq<Action>)
    requires NoReset(actions)
    ensures RunOne(s, actions).inStart <= StartsToCome(RunOne(s, actions)) <= StartsToCome(s)
    decreases |actions|
  {
    hide Step;
    if actions == [] {
    } else {
      assert actions[0] in actions && NoReset(actions[1..]);
      StepLowersStartsToCome(s, actions[0]);
      RunLowersStartsToCome(Step(s, actions[0]), actions[1..]);
    }
  }

  lemma RunThree(s: State, a: Action, b: Action, c: Action)
    ensures RunOne(s, [a, b, c]) == Step(Step(Step(s, a), b), c)
  {
    hide Step;
    assert [a, b, c][1..] == [b, c] && [b, c][1..] == [c] && [c][1..] == [];
    assert RunOne(Step(s, a), [b, c]) == RunOne(Step(Step(s, a), b), [c]);
    assert RunOne(Step(Step(s, a), b), [c]) == RunOne(Step(Step(Step(s, a), b), c), []);
  }

  lemma RunFour(s: State, a: Action, b: Action, c: Action, d: Action)
    ensures RunOne(s, [a, b, c, d]) == Step(Step(Step(Step(s, a), b), c), d)
  {
    hide Step;
    assert [a, b, c, d][1..] == [b, c, d];
    RunThree(Step(s, a), b, c, d);
  }

  /** Both kinds of overlap happen: a reset while `on_first_start` is suspended does not keep the
      first start from going on, and one while `on_start` is suspended does not end that call. */
  lemma StartsCanOverlap()
    ensures var s := RunOne(New(), [Start([]), Reset, Start([]), FirstStartReturns]);
            s.restarts == 1 && s.inStart == 2
    ensures var s := RunOne(New(), [Start([]), FirstStartReturns, Reset, Start([])]);
            s.restarts == 1 && s.inStart == 2 && s.inFirstStart == 0
  {
    hide Step;
    RunFour(New(), Start([]), Reset, Start([]), FirstStartReturns);
    RunFour(New(), Start([]), FirstStartReturns, Reset, Start([]));
    FirstStart();
    var s := Step(New(), Start([]));
    ResetStep(s);
    StartAgain(Step(s, Reset));
    FirstReturns(Step(Step(s, Reset), Start([])));
    FirstReturns(s);
    ResetStep(Step(s, FirstStartReturns));
    StartAgain(Step(Step(s, FirstStartReturns), Reset));
  }

  lemma FirstStart()
    ensures Step(New(), Start([])) == New().(started := true, extended := 1, firstStarts := 1, inFirstStart := 1)
  {}

  lemma ResetStep(s: State)
    ensures Step(s, Reset) == s.(restarts := s.restarts + 1, started := false, stopped := false, crashed := false)
  {}

  lemma StartAgain(s: State)
    requires !s.started && s.restarts > 0 && !s.ShouldStop()
    ensures Step(s, Start([])) == s.(started := true, starts := s.starts + 1, inStart := s.inStart + 1)
  {}

  lemma FirstReturns(s: State)
    requires s.inFirstStart > 0 && !s.ShouldStop()
    ensures Step(s, FirstStartReturns) ==
            s.(inFirstStart := s.inFirstStart - 1, starts := s.starts + 1, inStart := s.inStart + 1)
  {}
}
