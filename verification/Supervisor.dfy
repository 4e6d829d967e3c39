/** `mode/supervisors.py`: strategies for a fixed group of services. */
module Supervisors {
  import opened Services
  import opened TokenBuckets

  datatype Strategy = OneForOne | OneForAll | ForfeitOneForOne | ForfeitOneForAll

  datatype Flags = Flags(started: bool, stopped: bool, crashed: bool, restarts: nat)

  ghost function FlagsOf(x: Service): Flags
    reads x
  {
    Flags(x.started, x.stopped, x.crashed, x.restartCount)
  }

  ghost function Snapshot(xs: set<Service>): map<Service, Flags>
    reads xs
  {
    map x | x in xs :: FlagsOf(x)
  }

  // ---- What can have become of a service (and everything below it) since a snapshot ----

  ghost predicate Kept(s: Service, was: map<Service, Flags>)
    reads s.family
  {
    forall x :: x in s.family ==> x in was && FlagsOf(x) == was[x]
  }

  ghost predicate Restarted(s: Service, was: map<Service, Flags>)
    reads s.family
  {
    forall x :: x in s.family ==> x in was && FlagsOf(x) == Flags(true, false, false, was[x].restarts + 1)
  }

  /** How a start finds the services of a snapshot. */
  ghost function SceneIn(was: map<Service, Flags>): Scene {
    Scene(set x | x in was && was[x].restarts == 0, set x | x in was && was[x].started,
          set x | x in was && (was[x].stopped || was[x].crashed))
  }

  ghost function DownIn(was: map<Service, Flags>): set<Service> {
    set x | x in was && was[x].stopped
  }

  /** The flags of a service when `s`, above it, has been started, and then stopped. */
  ghost function WhenBegun(s: Service, x: Service, was: map<Service, Flags>): Flags
    requires x in was
  {
    was[x].(started := was[x].started || x in Reached(s, SceneIn(was)))
  }

  ghost function WhenHalted(s: Service, x: Service, was: map<Service, Flags>): Flags
    requires x in was
  {
    WhenBegun(s, x, was).(stopped := was[x].stopped || x in Cleared(s, DownIn(was)))
  }

  /** Started if it was not, with what a start gets to below it, and otherwise as it was. */
  ghost predicate Begun(s: Service, was: map<Service, Flags>)
    reads s.family
  {
    && s in s.family && s.started
    && forall x :: x in s.family ==> x in was && FlagsOf(x) == WhenBegun(s, x, was)
  }

  /** Stopped if it was not, with what a stop gets to below it, and not restarted. */
  ghost predicate Halted(s: Service, was: map<Service, Flags>)
    reads s.family
  {
    && s in s.family && s.started && s.stopped
    && forall x :: x in s.family ==> x in was && FlagsOf(x) == WhenHalted(s, x, was)
  }

  /** If nothing below was stopped, all of it is now. */
  lemma HaltedAsAWhole(s: Service, was: map<Service, Flags>)
    requires Halted(s, was) && forall x :: x in s.family ==> !was[x].stopped
    ensures forall x :: x in s.family ==> x.stopped
  {
    assert Cleared(s, DownIn(was)) == s.family;
  }

  predicate Dead(f: Flags) {
    f.started && f.crashed
  }

  ghost function Filter(services: seq<Service>, keep: set<Service>): seq<Service> {
    if services == [] then []
    else Filter(services[..|services| - 1], keep) +
         if services[|services| - 1] in keep then [services[|services| - 1]] else []
  }

  /** The services that were started and have crashed, in the order of the group. */
  ghost function DeadOnes(services: seq<Service>, was: map<Service, Flags>): seq<Service>
  {
    Filter(services, DeadSet(services, was))
  }

  ghost function DeadSet(services: seq<Service>, was: map<Service, Flags>): set<Service> {
    set s | s in services && s in was && Dead(was[s])
  }

  ghost function IdleSet(services: seq<Service>, was: map<Service, Flags>): set<Service> {
    set s | s in services && s in was && !was[s].started
  }

  /** The services a pass stops for good, or before it restarts all of them. */
  ghost function ToStop(strategy: Strategy, services: seq<Service>, was: map<Service, Flags>): seq<Service> {
    var dead := DeadOnes(services, was);
    match strategy
    case OneForOne => []
    case ForfeitOneForOne => dead
    case _ => if dead == [] then [] else services
  }

  ghost function ToRestart(strategy: Strategy, services: seq<Service>, was: map<Service, Flags>): seq<Service> {
    var dead := DeadOnes(services, was);
    match strategy
    case OneForOne => dead
    case OneForAll => if dead == [] then [] else services
    case _ => []
  }

  /** What has become of a service when those `restarted` were restarted and those `stopped`
      were stopped. */
  ghost predicate Outcome(s: Service, was: map<Service, Flags>, restarted: seq<Service>, stopped: seq<Service>)
    reads s.family
  {
    && s in was
    && if s in restarted then Restarted(s, was)
       else if s in stopped then Halted(s, was)
       else if was[s].started then Kept(s, was)
       else Begun(s, was)
  }

  /** What is done to services one after the other. */
  datatype Work = Starting(scene: Scene) | Stopping(down: set<Service>) | Restarting(down: set<Service>)

  /** The hooks called when it is done to one, and to several in turn. */
  ghost function Trace(s: Service, work: Work): seq<Event>
    requires s.IsTree()
  {
    match work
    case Starting(scene) => StartTrace(s, scene)
    case Stopping(down) => StopTrace(s, down)
    case Restarting(down) => StopTrace(s, down) + [Event(OnRestart, s)] + StartTrace(s, RESET)
  }

  ghost function Traces(list: seq<Service>, work: Work): seq<Event> {
    if list == [] then []
    else
      var last := list[|list| - 1];
      Traces(list[..|list| - 1], work) + if last.IsTree() then Trace(last, work) else []
  }

  /** The services found stopped by the restarts of a pass: one-for-all has stopped all of them. */
  ghost function DownAtRestart(strategy: Strategy, services: seq<Service>, was: map<Service, Flags>): set<Service> {
    if strategy.OneForAll? then set s | s in services else DownIn(was)
  }

  /** The hooks called by `restart_services`: first those of the services stopped, then those of the
      services restarted. */
  ghost function RestartCalls(strategy: Strategy, services: seq<Service>, was: map<Service, Flags>,
                              restarted: seq<Service>): seq<Event> {
    Traces(ToStop(strategy, services, was), Stopping(DownIn(was))) +
    Traces(restarted, Restarting(DownAtRestart(strategy, services, was)))
  }

  ghost predicate IsGroup(services: seq<Service>, journal: Journal) {
    && (forall s :: s in services ==> s.IsTree() && s.journal == journal)
    && (forall i, j :: 0 <= i < j < |services| ==> services[i].family !! services[j].family)
  }

  ghost function Members(services: seq<Service>): set<Service> {
    set s, x | s in services && x in s.family :: x
  }

  /** A supervisor of a fixed group; `clock` are the readings of the clock, one for each restart. */
  class Supervisor {
    const strategy: Strategy
    const services: seq<Service>
    const journal: Journal
    const bucket: TokenBucket
    const clock: nat -> real
    var restartsTried: nat
    ghost const full: Bucket

    ghost predicate Valid()
      reads this, bucket
    {
      && IsGroup(services, journal)
      && bucket.State() == After(full, Tries(restartsTried))
    }

    ghost function Tries(n: nat): seq<Attempt> {
      seq(n, i requires 0 <= i < n => Attempt(clock(i), 1))
    }

    lemma OneMoreTry(n: nat)
      ensures After(full, Tries(n + 1)) == After(full, Tries(n)).AfterPour(clock(n), 1)
      ensures Poured(full, Tries(n + 1)) ==
              Poured(full, Tries(n)) + if After(full, Tries(n)).CanPour(clock(n), 1) then 1 else 0
    {
      assert Tries(n + 1) == Tries(n) + [Attempt(clock(n), 1)];
      RunOneMore(full, Tries(n), Attempt(clock(n), 1));
    }

    /** Try `i` finds a token. */
    ghost predicate Admits(i: nat) {
      After(full, Tries(i)).CanPour(clock(i), 1)
    }

    /** Each of `due` tries from number `n` on finds a token. */
    ghost predicate Affords(n: nat, due: nat) {
      forall i: nat :: n <= i < n + due ==> Admits(i)
    }

    /** The tries `from`, `from + 1`, ... up to `to` were for `due` restarts, of which `done` were
        let through before one was refused, if one was. */
    ghost predicate Account(from: nat, to: nat, due: nat, done: nat, ok: bool) {
      && done <= due && (ok <==> done == due) && Affords(from, done)
      && to == from + done + (if ok then 0 else 1) && (!ok ==> !Admits(from + done))
    }

    lemma NoTries(n: nat)
      ensures Account(n, n, 0, 0, true)
    {}

    lemma AccountIs(from: nat, to: nat, due: nat, done: nat, ok: bool)
      requires Account(from, to, due, done, ok)
      ensures ok ==> done == due && to == from + done
    {}

    lemma MoreTries(from: nat, mid: nat, to: nat, due: nat, more: nat, done: nat, ok: bool)
      requires Account(from, mid, due, due, true) && Account(mid, to, more, done, ok)
      ensures Account(from, to, due + more, due + done, ok)
    {
      hide Admits;
    }

    lemma Refused(from: nat, to: nat, due: nat, done: nat, all: nat)
      requires Account(from, to, due, done, false) && due <= all
      ensures Account(from, to, all, done, false)
    {}

    /** Everything due was done, or some of what was due is not afforded. */
    lemma AccountSettles(from: nat, to: nat, due: nat, done: nat, ok: bool, all: nat)
      requires Account(from, to, due, done, ok) && due <= all
      ensures due == all ==> (ok <==> Affords(from, all))
      ensures !ok ==> !Affords(from, all)
    {
      hide Admits;
    }

    /** In any window of the clock of length `T` no more than `2 * over + max_restarts * T` of
        the restarts tried are let through. */
    lemma RestartsInWindow(n: nat, m: nat, t0: real)
      requires n < m && full == New(full.rate, full.capacity, t0) && 0.0 <= full.rate && 0.0 <= full.capacity
      requires forall i: nat :: i < m ==> t0 <= clock(i)
      requires forall i: nat, j: nat :: i < j < m ==> clock(i) <= clock(j)
      ensures (Poured(full, Tries(m)) - Poured(full, Tries(n))) as real <=
              2.0 * full.capacity + Earn(full.rate, clock(n), clock(m - 1))
    {
      var window := Tries(m)[n..];
      assert Tries(m) == Tries(n) + window;
      PouredConcat(full, Tries(n), window);
      hide Poured;
      hide After;
      AnyWindow(full.rate, full.capacity, t0, Tries(n), window);
    }

    constructor (strategy: Strategy, services: seq<Service>, journal: Journal,
                 maxRestarts: real, over: real, clock: nat -> real, now: real)
      requires IsGroup(services, journal)
      ensures Valid() && this.strategy == strategy && this.services == services && this.journal == journal
      ensures fresh(bucket) && bucket.raises && restartsTried == 0 && this.clock == clock
      ensures full == New(maxRestarts, over, now)
    {
      this.strategy, this.services, this.journal, this.clock := strategy, services, journal, clock;
      restartsTried := 0;
      bucket := new TokenBucket(maxRestarts, over, true, now);
      full := New(maxRestarts, over, now);
    }

    /** Fails (SystemExit in the source) when there have been too many restarts. */
    method RestartService(service: Service, ghost at: map<Service, Flags>) returns (ok: bool)
      requires Valid() && service.IsTree() && service.journal == journal && bucket.raises && Kept(service, at)
      modifies this, bucket, service.family, journal
      ensures Valid() && restartsTried == old(restartsTried) + 1
      ensures Poured(full, Tries(restartsTried)) == Poured(full, Tries(old(restartsTried))) + if ok then 1 else 0
      ensures if ok then Restarted(service, at) else Kept(service, at)
      ensures Account(old(restartsTried), restartsTried, 1, if ok then 1 else 0, ok)
      ensures journal.log == old(journal.log) + if ok then Trace(service, Restarting(DownIn(at))) else []
    {
      hide StartTrace;
      hide StopTrace;
      hide Called;
      hide After;
      hide Poured;
      hide Service.IsTree;
      OneMoreTry(restartsTried);
      var entry := bucket.Enter(clock(restartsTried));
      restartsTried := restartsTried + 1;
      if entry.Raised? {
        return false;
      }
      AsFound(service, at);
      service.Restart(DownIn(at));
      ok := true;
    }

    /** Restarts one after the other; `done` of them before there were too many restarts. */
    method RestartEach(list: seq<Service>, ghost at: map<Service, Flags>) returns (ok: bool, ghost done: nat)
      requires Valid() && IsGroup(list, journal) && bucket.raises && forall k :: 0 <= k < |list| ==> Kept(list[k], at)
      modifies this, bucket, Members(list), journal
      ensures Valid() && done <= |list| && (ok <==> done == |list|)
      ensures Account(old(restartsTried), restartsTried, |list|, done, ok)
      ensures Poured(full, Tries(restartsTried)) == Poured(full, Tries(old(restartsTried))) + done
      ensures forall k :: 0 <= k < done ==> Restarted(list[k], at)
      ensures forall k :: done <= k < |list| ==> Kept(list[k], at)
      ensures journal.log == old(journal.log) + Traces(list[..done], Restarting(DownIn(at)))
    {
      hide Service.IsTree;
      hide Poured;
      hide Trace;
      hide Traces;
      hide Kept;
      hide Restarted;
      hide Valid;
      hide Account;
      done := 0;
      TracesGrow(list, journal, Restarting(DownIn(at)));
      NoTries(restartsTried);
      ghost var from := restartsTried;
      for i := 0 to |list|
        invariant Valid() && done == i && Account(from, restartsTried, i, i, true)
        invariant Poured(full, Tries(restartsTried)) == Poured(full, Tries(old(restartsTried))) + i
        invariant forall k :: 0 <= k < i ==> Restarted(list[k], at)
        invariant forall k :: i <= k < |list| ==> Kept(list[k], at)
        invariant journal.log == old(journal.log) + Traces(list[..i], Restarting(DownIn(at)))
      {
        InGroup(list, i, journal);
        ghost var mid := restartsTried;
        ok := RestartService(list[i], at);
        MoreTries(from, mid, restartsTried, i, 1, if ok then 1 else 0, ok);
        if !ok {
          Refused(from, restartsTried, i + 1, i, |list|);
          return;
        }
        done := i + 1;
      }
      ok := true;
    }

    /** `stop_services`, one after the other. */
    method StopEach(list: seq<Service>, ghost at: map<Service, Flags>)
      requires IsGroup(list, journal) && forall k :: 0 <= k < |list| ==> Begun(list[k], at)
      modifies Members(list), journal
      ensures forall k :: 0 <= k < |list| ==> Halted(list[k], at)
      ensures journal.log == old(journal.log) + Traces(list, Stopping(DownIn(at)))
    {
      hide Service.IsTree;
      hide Trace;
      hide Traces;
      hide Halted;
      hide Begun;
      TracesGrow(list, journal, Stopping(DownIn(at)));
      for i := 0 to |list|
        invariant forall k :: 0 <= k < i ==> Halted(list[k], at)
        invariant forall k :: i <= k < |list| ==> Begun(list[k], at)
        invariant journal.log == old(journal.log) + Traces(list[..i], Stopping(DownIn(at)))
      {
        InGroup(list, i, journal);
        StopOne(list[i], at);
      }
    }

    /** `OneForAllSupervisor.restart_services`: stops all, then restarts one after the other. */
    method RestartAll(ghost was: map<Service, Flags>) returns (ok: bool, ghost done: nat)
      requires Valid() && bucket.raises && forall k :: 0 <= k < |services| ==> Begun(services[k], was)
      modifies this, bucket, Members(services), journal
      ensures Valid() && done <= |services| && (ok <==> done == |services|)
      ensures Account(old(restartsTried), restartsTried, |services|, done, ok)
      ensures Poured(full, Tries(restartsTried)) == Poured(full, Tries(old(restartsTried))) + done
      ensures forall k :: 0 <= k < done ==> Restarted(services[k], was)
      ensures forall k :: done <= k < |services| ==> Halted(services[k], was)
      ensures journal.log == old(journal.log) + Traces(services, Stopping(DownIn(was))) +
                             Traces(services[..done], Restarting(set s | s in services))
    {
      hide Service.IsTree;
      hide Poured;
      hide Trace;
      hide Traces;
      hide After;
      hide Kept;
      hide Restarted;
      hide Halted;
      hide Begun;
      hide StopsOf;
      hide Account;
      hide Valid;
      hide IsGroup;
      GroupOf();
      StopEach(services, was);
      ghost var at := Snapshot(Members(services));
      TakeSnapshot(services, at, was);
      ok, done := RestartEach(services, at);
      SameRestarts(services[..done], DownIn(at), set s | s in services);
      SinceSnapshot(services, at, was);
    }

    /** `SupervisorStrategy.restart_services`. */
    method RestartDead(dead: seq<Service>, ghost was: map<Service, Flags>)
      returns (ok: bool, ghost restarted: seq<Service>)
      requires Valid() && bucket.raises && dead == DeadOnes(services, was)
      requires forall k :: 0 <= k < |services| ==> Outcome(services[k], was, [], [])
      modifies this, bucket, Members(services), journal
      ensures Valid() && restarted <= dead && (ok <==> restarted == dead)
      ensures Account(old(restartsTried), restartsTried, |dead|, |restarted|, ok)
      ensures Poured(full, Tries(restartsTried)) == Poured(full, Tries(old(restartsTried))) + |restarted|
      ensures forall k :: 0 <= k < |services| ==> Outcome(services[k], was, restarted, [])
      ensures journal.log == old(journal.log) + Traces(restarted, Restarting(DownIn(was)))
    {
      hide Service.IsTree;
      hide Poured;
      hide Trace;
      hide Traces;
      hide After;
      hide Kept;
      hide Restarted;
      hide Begun;
      hide Halted;
      hide Filter;
      hide Account;
      FilterIs(services, DeadSet(services, was), journal);
      DeadWereStarted(services, journal, was);
      ghost var done;
      ok, done := RestartEach(dead, was);
      restarted := dead[..done];
    }

    /** `ForfeitOneForOneSupervisor.restart_services`. */
    method StopDead(dead: seq<Service>, ghost was: map<Service, Flags>)
      requires IsGroup(services, journal) && dead == DeadOnes(services, was)
      requires forall k :: 0 <= k < |services| ==> Outcome(services[k], was, [], [])
      modifies Members(services), journal
      ensures forall k :: 0 <= k < |services| ==> Outcome(services[k], was, [], dead)
      ensures journal.log == old(journal.log) + Traces(dead, Stopping(DownIn(was)))
    {
      hide Service.IsTree;
      hide Trace;
      hide Traces;
      hide Kept;
      hide Restarted;
      hide Begun;
      hide Halted;
      hide Filter;
      FilterIs(services, DeadSet(services, was), journal);
      DeadWereStarted(services, journal, was);
      StopEach(dead, was);
    }

    /** `restart_services` of the four strategies. */
    method RestartServices(dead: seq<Service>, ghost was: map<Service, Flags>)
      returns (ok: bool, ghost restarted: seq<Service>)
      requires Valid() && bucket.raises && dead == DeadOnes(services, was)
      requires forall k :: 0 <= k < |services| ==> Outcome(services[k], was, [], [])
      modifies this, bucket, Members(services), journal
      ensures Valid()
      ensures restarted <= ToRestart(strategy, services, was)
      ensures ok <==> restarted == ToRestart(strategy, services, was)
      ensures Account(old(restartsTried), restartsTried, |ToRestart(strategy, services, was)|, |restarted|, ok)
      ensures Poured(full, Tries(restartsTried)) == Poured(full, Tries(old(restartsTried))) + |restarted|
      ensures forall k :: 0 <= k < |services| ==>
                Outcome(services[k], was, restarted, ToStop(strategy, services, was))
      ensures journal.log == old(journal.log) + RestartCalls(strategy, services, was, restarted)
    {
      hide Service.IsTree;
      hide Poured;
      hide Trace;
      hide Traces;
      hide After;
      hide Kept;
      hide Restarted;
      hide Halted;
      hide Begun;
      hide DeadOnes;
      hide Account;
      NoTries(restartsTried);
      NoTraces();
      WereStarted(services, journal, was);
      ok, restarted := true, [];
      match strategy
      case OneForOne =>
        ok, restarted := RestartDead(dead, was);
      case OneForAll =>
        if dead != [] {
          ghost var done;
          ok, done := RestartAll(was);
          restarted := services[..done];
        }
      case ForfeitOneForOne =>
        if dead != [] {
          StopDead(dead, was);
        }
      case ForfeitOneForAll =>
        if dead != [] {
          StopEach(services, was);
        }
    }

    function ServiceOperational(service: Service): bool
      reads service
    {
      !service.crashed
    }

    /** One round of `_supervisor`; `was` is how it found the group.  `restarted` are exactly the
        services the strategy restarts, unless there were too many restarts: then the first of
        them. */
    method Pass(ghost was: map<Service, Flags>) returns (ok: bool, ghost restarted: seq<Service>)
      requires Valid() && bucket.raises
      requires forall k :: 0 <= k < |services| ==> Kept(services[k], was)
      modifies this, bucket, Members(services), journal
      ensures Valid()
      ensures restarted <= ToRestart(strategy, services, was)
      ensures ok <==> restarted == ToRestart(strategy, services, was)
      ensures Account(old(restartsTried), restartsTried, |ToRestart(strategy, services, was)|, |restarted|, ok)
      ensures Poured(full, Tries(restartsTried)) == Poured(full, Tries(old(restartsTried))) + |restarted|
      ensures forall k :: 0 <= k < |services| ==>
                Outcome(services[k], was, restarted, ToStop(strategy, services, was))
      ensures journal.log == old(journal.log) +
                             Traces(Filter(services, IdleSet(services, was)), Starting(SceneIn(was))) +
                             RestartCalls(strategy, services, was, restarted)
    {
      hide Service.IsTree;
      hide Poured;
      hide Trace;
      hide Traces;
      hide RestartCalls;
      hide After;
      hide Kept;
      hide Begun;
      hide Outcome;
      hide Filter;
      hide IsPart;
      hide IsGroup;
      hide Account;
      ghost var dead, idle := DeadSet(services, was), IdleSet(services, was);
      var toStart: seq<Service>, toRestart: seq<Service> := [], [];
      assert services[..0] == [];
      FilterNone(dead);
      FilterNone(idle);
      for i := 0 to |services|
        modifies {}
        invariant toRestart == Filter(services[..i], dead) && toStart == Filter(services[..i], idle)
      {
        var service := services[i];
        FilterStep(services, i, dead);
        FilterStep(services, i, idle);
        Sorted(services, i, journal, was);
        if service.started {
          if !ServiceOperational(service) {
            toRestart := toRestart + [service];
          }
        } else {
          toStart := toStart + [service];
        }
      }
      assert services[..|services|] == services;
      IdleAreKept(services, toStart, journal, was);
      StartEach(toStart, was);
      BegunOrKept(services, toStart, journal, was);
      ok, restarted := RestartServices(toRestart, was);
    }

    /** `crash` on services that have a supervisor. */
    method CrashEach(list: seq<Service>, reason: int)
      requires IsGroup(services, journal) && forall s :: s in list ==> s in services
      modifies Members(services)`crashed, Members(services)`crashReason
      ensures forall k :: 0 <= k < |services| ==>
                (services[k].crashed <==> old(services[k].crashed) || services[k] in list)
    {
      hide Service.IsTree;
      for i := 0 to |list|
        invariant forall k :: 0 <= k < |services| ==>
                    (services[k].crashed <==> old(services[k].crashed) || services[k] in list[..i])
      {
        assert list[i] in services;
        var j :| 0 <= j < |services| && services[j] == list[i];
        InGroup(services, j, journal);
        EachInOwn(services, journal);
        if !list[i].crashed {
          list[i].MarkCrashed(reason);
        }
      }
      assert list[..|list|] == list;
    }

    /** Those in `now` crash; `at` is how the next round finds the group. */
    method Fall(ghost began: seq<Flags>, ghost past: seq<seq<Service>>, now: seq<Service>)
      returns (ghost at: map<Service, Flags>)
      requires IsGroup(services, journal) && |began| == |services| && forall s :: s in now ==> s in services
      requires forall k :: 0 <= k < |services| ==> Standing(services[k], began[k], strategy, past)
      modifies Members(services)`crashed, Members(services)`crashReason
      ensures forall k :: 0 <= k < |services| ==> services[k].started && Kept(services[k], at)
      ensures forall k :: 0 <= k < |services| ==> Fallen(services[k], at, began[k], strategy, past, now)
    {
      hide *;
      AllStanding(services, began, strategy, past);
      CrashEach(now, 1);
      at := Snapshot(Members(services));
      AllKept(services, journal, at);
      forall k | 0 <= k < |services|
        ensures Fallen(services[k], at, began[k], strategy, past, now)
      {
        HasFallen(services[k], at, began[k], strategy, past, now);
      }
    }

    /** A round of `_supervisor` in a group that is up, after those in `now` have crashed. */
    method Round(ghost began: seq<Flags>, ghost past: seq<seq<Service>>, now: seq<Service>)
      returns (ok: bool, ghost done: nat)
      requires Valid() && bucket.raises && |began| == |services| && forall s :: s in now ==> s in services
      requires forall k :: 0 <= k < |services| ==> Standing(services[k], began[k], strategy, past)
      modifies this, bucket, Members(services), journal
      ensures Valid()
      ensures ok ==> forall k :: 0 <= k < |services| ==> Standing(services[k], began[k], strategy, past + [now])
      ensures Account(old(restartsTried), restartsTried, DueNow(strategy, services, now), done, ok)
      ensures Poured(full, Tries(restartsTried)) == Poured(full, Tries(old(restartsTried))) + done
      ensures Forfeits(strategy) ==> ok && NoStarts(old(journal.log), journal.log)
    {
      hide *;
      GroupOf();
      ghost var at := Fall(began, past, now);
      GroupOf();
      ManyToRestart(services, journal, strategy, began, past, now, at);
      ForfeitsRestartNone(strategy, services, at);
      ghost var restarted, log := [], journal.log;
      NobodyIdle(services, journal, at);
      ok, restarted := Pass(at);
      done := |restarted|;
      if Forfeits(strategy) {
        assert restarted == [] && log + [] == log;
        StopsStartNobody(log, strategy, services, at);
      }
      if ok {
        AfterPass(services, journal, strategy, began, past, now, at);
      }
    }

    lemma GroupOf()
      requires Valid()
      ensures IsGroup(services, journal)
    {}

    /** Rounds of `_supervisor`, in a group that is up: before round `p` those in `schedule[p]`
        crash.  Fails if and only if some restart that falls due finds no token. */
    method Supervise(schedule: seq<seq<Service>>) returns (ok: bool)
      requires Valid() && bucket.raises
      requires forall p, s :: 0 <= p < |schedule| && s in schedule[p] ==> s in services
      requires forall k :: 0 <= k < |services| ==> services[k].started && !services[k].crashed
      modifies this, bucket, Members(services), journal
      ensures Valid()
      ensures ok <==> Affords(old(restartsTried), DueAll(strategy, services, schedule))
      ensures ok ==>
                && restartsTried == old(restartsTried) + DueAll(strategy, services, schedule)
                && Poured(full, Tries(restartsTried)) ==
                   Poured(full, Tries(old(restartsTried))) + DueAll(strategy, services, schedule)
      ensures ok ==> forall k :: 0 <= k < |services| ==>
                && services[k].restartCount == old(services[k].restartCount) + Due(strategy, schedule, services[k])
                && services[k].started
                && (services[k].crashed <==> Forfeits(strategy) && Crashes(schedule, services[k]))
      ensures Forfeits(strategy) ==>
                && ok && NoStarts(old(journal.log), journal.log)
                && forall k :: 0 <= k < |services| ==>
                     (services[k].stopped <==> old(services[k].stopped) || GivenUp(strategy, schedule, services[k]))
    {
      hide Service.IsTree;
      hide Valid;
      hide Called;
      hide Due;
      hide DueAll;
      hide GivenUp;
      hide Crashes;
      hide Standing;
      hide Account;
      hide Affords;
      hide Poured;
      ghost var began, from, poured := AllFlags(services), restartsTried, Poured(full, Tries(restartsTried));
      forall k | 0 <= k < |services|
        ensures Standing(services[k], began[k], strategy, [])
      {
        NothingYet(services[k], strategy);
      }
      assert schedule[..0] == [];
      NoTries(from);
      NoneDue(strategy, services);
      for p := 0 to |schedule|
        invariant Valid()
        invariant forall k :: 0 <= k < |services| ==> Standing(services[k], began[k], strategy, schedule[..p])
        invariant Forfeits(strategy) ==> NoStarts(old(journal.log), journal.log)
        invariant var due := DueAll(strategy, services, schedule[..p]);
                  && Account(from, restartsTried, due, due, true)
                  && Poured(full, Tries(restartsTried)) == poured + due
      {
        assert schedule[..p + 1] == schedule[..p] + [schedule[p]];
        ghost var mid, done := restartsTried, 0;
        ok, done := Round(began, schedule[..p], schedule[p]);
        MoreDue(strategy, services, schedule, p);
        MoreTries(from, mid, restartsTried, DueAll(strategy, services, schedule[..p]),
                  DueNow(strategy, services, schedule[p]), done, ok);
        AccountIs(mid, restartsTried, DueNow(strategy, services, schedule[p]), done, ok);
        if !ok {
          AccountSettles(from, restartsTried, DueAll(strategy, services, schedule[..p + 1]),
                         DueAll(strategy, services, schedule[..p]) + done, ok, DueAll(strategy, services, schedule));
          return;
        }
      }
      assert schedule[..|schedule|] == schedule;
      ghost var due := DueAll(strategy, services, schedule);
      AccountSettles(from, restartsTried, due, due, true, due);
      AccountIs(from, restartsTried, due, due, true);
      ok := true;
      forall k | 0 <= k < |services|
        ensures services[k].started && (services[k].crashed <==> Forfeits(strategy) && Crashes(schedule, services[k]))
        ensures services[k].restartCount == began[k].restarts + Due(strategy, schedule, services[k])
        ensures Forfeits(strategy) ==>
                  (services[k].stopped <==> began[k].stopped || GivenUp(strategy, schedule, services[k]))
      {
        StandingIs(services[k], began[k], strategy, schedule);
      }
    }

    method StopOne(service: Service, ghost at: map<Service, Flags>)
      requires service.IsTree() && service.journal == journal && Begun(service, at)
      modifies service.family, journal
      ensures Halted(service, at)
      ensures journal.log == old(journal.log) + Trace(service, Stopping(DownIn(at)))
    {
      hide Service.IsTree;
      hide StopTrace;
      hide Reached;
      hide Cleared;
      service.Stop(DownIn(at));
    }

    /** `start_services`. */
    method StartEach(list: seq<Service>, ghost at: map<Service, Flags>)
      requires IsGroup(list, journal) && forall k :: 0 <= k < |list| ==> Kept(list[k], at)
      modifies Members(list), journal
      ensures forall k :: 0 <= k < |list| ==> Begun(list[k], at)
      ensures journal.log == old(journal.log) + Traces(list, Starting(SceneIn(at)))
    {
      hide Service.IsTree;
      hide Trace;
      hide Traces;
      hide Kept;
      hide Begun;
      TracesGrow(list, journal, Starting(SceneIn(at)));
      for i := 0 to |list|
        invariant forall k :: 0 <= k < i ==> Begun(list[k], at)
        invariant forall k :: i <= k < |list| ==> Kept(list[k], at)
        invariant journal.log == old(journal.log) + Traces(list[..i], Starting(SceneIn(at)))
      {
        InGroup(list, i, journal);
        StartOne(list[i], at);
      }
    }

    method StartOne(service: Service, ghost at: map<Service, Flags>)
      requires service.IsTree() && service.journal == journal && Kept(service, at)
      modifies service.family, journal
      ensures Begun(service, at)
      ensures journal.log == old(journal.log) + Trace(service, Starting(SceneIn(at)))
    {
      hide Service.IsTree;
      hide StartTrace;
      hide Called;
      hide Reached;
      service.TreeFacts();
      AsFound(service, at);
      var did := service.MaybeStart(SceneIn(at));
    }
  }

  lemma AsFound(s: Service, at: map<Service, Flags>)
    requires Kept(s, at)
    ensures s.AtScene(SceneIn(at)) && s.Down(DownIn(at))
  {}

  /** Between the snapshots `was` and `at` the service was started, if need be, and stopped. */
  ghost predicate StopsOf(s: Service, at: map<Service, Flags>, was: map<Service, Flags>) {
    && s in s.family && s in at && at[s].started && at[s].stopped
    && forall x :: x in s.family ==> x in was && x in at && at[x] == WhenHalted(s, x, was)
  }

  lemma TakeSnapshot(list: seq<Service>, at: map<Service, Flags>, was: map<Service, Flags>)
    requires at == Snapshot(Members(list)) && forall k :: 0 <= k < |list| ==> Halted(list[k], was)
    ensures forall k :: 0 <= k < |list| ==> Kept(list[k], at) && StopsOf(list[k], at, was)
    ensures forall s :: s in list ==> s in DownIn(at)
  {
    hide WhenHalted;
    forall k | 0 <= k < |list|
      ensures Kept(list[k], at) && StopsOf(list[k], at, was)
    {
      assert forall x :: x in list[k].family ==> x in Members(list);
    }
  }

  lemma SinceSnapshot(list: seq<Service>, at: map<Service, Flags>, was: map<Service, Flags>)
    requires forall k :: 0 <= k < |list| ==> StopsOf(list[k], at, was)
    ensures forall k :: 0 <= k < |list| ==> (Restarted(list[k], at) ==> Restarted(list[k], was))
    ensures forall k :: 0 <= k < |list| ==> (Kept(list[k], at) ==> Halted(list[k], was))
  {
    forall k | 0 <= k < |list|
      ensures (Restarted(list[k], at) ==> Restarted(list[k], was)) && (Kept(list[k], at) ==> Halted(list[k], was))
    {
      OneSinceSnapshot(list[k], at, was);
    }
  }

  lemma OneSinceSnapshot(s: Service, at: map<Service, Flags>, was: map<Service, Flags>)
    requires StopsOf(s, at, was)
    ensures Restarted(s, at) ==> Restarted(s, was)
    ensures Kept(s, at) ==> Halted(s, was)
  {}

  // ---- Many rounds ----

  predicate Forfeits(strategy: Strategy) {
    strategy.ForfeitOneForOne? || strategy.ForfeitOneForAll?
  }

  ghost predicate Crashes(schedule: seq<seq<Service>>, s: Service) {
    schedule != [] && (Crashes(schedule[..|schedule| - 1], s) || s in schedule[|schedule| - 1])
  }

  /** Whether a forfeiting supervisor gives up on the service. */
  ghost predicate GivenUp(strategy: Strategy, schedule: seq<seq<Service>>, s: Service) {
    && schedule != []
    && (|| GivenUp(strategy, schedule[..|schedule| - 1], s)
        || if strategy.ForfeitOneForOne? then s in schedule[|schedule| - 1] else schedule[|schedule| - 1] != [])
  }

  /** How often the service is restarted: each time it crashes, or each time anyone does. */
  ghost function Due(strategy: Strategy, schedule: seq<seq<Service>>, s: Service): nat {
    if schedule == [] then 0
    else
      var now := schedule[|schedule| - 1];
      Due(strategy, schedule[..|schedule| - 1], s) +
      match strategy
      case OneForOne => if s in now then 1 else 0
      case OneForAll => if now != [] then 1 else 0
      case _ => 0
  }

  /** How many restarts a round tries, in which those in `now` have crashed. */
  ghost function DueNow(strategy: Strategy, services: seq<Service>, now: seq<Service>): nat {
    match strategy
    case OneForOne => |Filter(services, set s | s in now)|
    case OneForAll => if now == [] then 0 else |services|
    case _ => 0
  }

  ghost function DueAll(strategy: Strategy, services: seq<Service>, schedule: seq<seq<Service>>): nat {
    if schedule == [] then 0
    else DueAll(strategy, services, schedule[..|schedule| - 1]) + DueNow(strategy, services, schedule[|schedule| - 1])
  }

  lemma NoneDue(strategy: Strategy, services: seq<Service>)
    ensures DueAll(strategy, services, []) == 0
  {}

  lemma {:induction false} MoreDue(strategy: Strategy, services: seq<Service>, schedule: seq<seq<Service>>, p: nat)
    requires p < |schedule|
    ensures DueAll(strategy, services, schedule[..p + 1]) ==
            DueAll(strategy, services, schedule[..p]) + DueNow(strategy, services, schedule[p])
    ensures DueAll(strategy, services, schedule[..p + 1]) <= DueAll(strategy, services, schedule)
  {
    hide DueNow;
    assert schedule[..p + 1][..p] == schedule[..p];
    if p + 1 == |schedule| {
      assert schedule[..p + 1] == schedule;
    } else {
      var init := schedule[..|schedule| - 1];
      assert init[..p + 1] == schedule[..p + 1];
      MoreDue(strategy, services, init, p);
    }
  }

  /** The services that fell since the last round are those a round has to restart. */
  lemma ManyToRestart(services: seq<Service>, journal: Journal, strategy: Strategy, began: seq<Flags>,
                      past: seq<seq<Service>>, now: seq<Service>, at: map<Service, Flags>)
    requires IsGroup(services, journal) && |began| == |services| && forall s :: s in now ==> s in services
    requires forall k :: 0 <= k < |services| ==> Fallen(services[k], at, began[k], strategy, past, now)
    ensures |ToRestart(strategy, services, at)| == DueNow(strategy, services, now)
  {
    hide Service.IsTree;
    hide Filter;
    hide Due;
    hide Crashes;
    hide GivenUp;
    assert now != [] ==> now[0] in services;
    DeadOnesAre(services, journal, at);
    if !Forfeits(strategy) {
      forall s | s in services
        ensures s in DeadSet(services, at) <==> s in now
      {
        var k :| 0 <= k < |services| && services[k] == s;
        assert Fallen(services[k], at, began[k], strategy, past, now);
      }
      SameFilter(services, DeadSet(services, at), set s | s in now);
    }
  }

  lemma {:induction false} SameFilter(services: seq<Service>, a: set<Service>, b: set<Service>)
    requires forall s :: s in services ==> (s in a <==> s in b)
    ensures Filter(services, a) == Filter(services, b)
  {
    if services == [] {
    } else {
      SameFilter(services[..|services| - 1], a, b);
    }
  }

  /** The state of a service between two rounds, when it was as `first` at the beginning. */
  ghost predicate Standing(s: Service, first: Flags, strategy: Strategy, past: seq<seq<Service>>)
    reads s
  {
    && s.started && s.restartCount == first.restarts + Due(strategy, past, s)
    && (s.crashed <==> Forfeits(strategy) && Crashes(past, s))
    && (Forfeits(strategy) ==> (s.stopped <==> first.stopped || GivenUp(strategy, past, s)))
  }

  lemma StandingIs(s: Service, first: Flags, strategy: Strategy, past: seq<seq<Service>>)
    requires Standing(s, first, strategy, past)
    ensures s.started && (s.crashed <==> Forfeits(strategy) && Crashes(past, s))
    ensures s.restartCount == first.restarts + Due(strategy, past, s)
    ensures Forfeits(strategy) ==> (s.stopped <==> first.stopped || GivenUp(strategy, past, s))
  {}

  lemma AllStanding(services: seq<Service>, began: seq<Flags>, strategy: Strategy, past: seq<seq<Service>>)
    requires |began| == |services|
    requires forall k :: 0 <= k < |services| ==> Standing(services[k], began[k], strategy, past)
    ensures forall k :: 0 <= k < |services| ==>
              && services[k].started && services[k].restartCount == began[k].restarts + Due(strategy, past, services[k])
              && (services[k].crashed <==> Forfeits(strategy) && Crashes(past, services[k]))
              && (Forfeits(strategy) ==>
                    (services[k].stopped <==> began[k].stopped || GivenUp(strategy, past, services[k])))
  {
    hide Due;
    hide Crashes;
    hide GivenUp;
  }

  /** Its state when a round finds it: those in `now` have crashed since the last one. */
  ghost predicate Fallen(s: Service, at: map<Service, Flags>, first: Flags, strategy: Strategy,
                         past: seq<seq<Service>>, now: seq<Service>) {
    && s in at && at[s].started && at[s].restarts == first.restarts + Due(strategy, past, s)
    && (at[s].crashed <==> (Forfeits(strategy) && Crashes(past, s)) || s in now)
    && (Forfeits(strategy) ==> (at[s].stopped <==> first.stopped || GivenUp(strategy, past, s)))
  }

  lemma HasFallen(s: Service, at: map<Service, Flags>, first: Flags, strategy: Strategy,
                  past: seq<seq<Service>>, now: seq<Service>)
    requires s in at && at[s] == FlagsOf(s)
    requires s.started && s.restartCount == first.restarts + Due(strategy, past, s)
    requires s.crashed <==> (Forfeits(strategy) && Crashes(past, s)) || s in now
    requires Forfeits(strategy) ==> (s.stopped <==> first.stopped || GivenUp(strategy, past, s))
    ensures Fallen(s, at, first, strategy, past, now)
  {}

  ghost function AllFlags(services: seq<Service>): (began: seq<Flags>)
    reads services
    ensures |began| == |services| && forall k :: 0 <= k < |services| ==> began[k] == FlagsOf(services[k])
  {
    if services == [] then [] else AllFlags(services[..|services| - 1]) + [FlagsOf(services[|services| - 1])]
  }

  lemma NothingYet(s: Service, strategy: Strategy)
    requires s.started && !s.crashed
    ensures Standing(s, FlagsOf(s), strategy, [])
  {}

  lemma ForfeitsRestartNone(strategy: Strategy, services: seq<Service>, was: map<Service, Flags>)
    ensures Forfeits(strategy) ==> ToRestart(strategy, services, was) == []
  {}

  lemma EachInOwn(services: seq<Service>, journal: Journal)
    requires IsGroup(services, journal)
    ensures forall j, k :: 0 <= j < |services| && 0 <= k < |services| && services[k] in services[j].family ==> j == k
  {
    hide Service.IsTree;
    forall k | 0 <= k < |services|
      ensures services[k] in services[k].family
    {
      services[k].TreeFacts();
    }
  }

  lemma AllKept(services: seq<Service>, journal: Journal, at: map<Service, Flags>)
    requires IsGroup(services, journal) && at == Snapshot(Members(services))
    ensures forall k :: 0 <= k < |services| ==>
              Kept(services[k], at) && services[k] in at && at[services[k]] == FlagsOf(services[k])
  {
    hide Service.IsTree;
    forall k | 0 <= k < |services|
      ensures Kept(services[k], at) && services[k] in at && at[services[k]] == FlagsOf(services[k])
    {
      services[k].TreeFacts();
      assert forall x :: x in services[k].family ==> x in Members(services);
    }
  }

  /** Exactly the started services that have crashed are dead, and a group without crashes has
      no dead services. */
  lemma DeadOnesAre(services: seq<Service>, journal: Journal, was: map<Service, Flags>)
    requires IsGroup(services, journal) && forall s :: s in services ==> s in was
    ensures forall k :: 0 <= k < |services| ==> (services[k] in DeadOnes(services, was) <==> Dead(was[services[k]]))
    ensures DeadOnes(services, was) == [] <==> forall k :: 0 <= k < |services| ==> !Dead(was[services[k]])
  {
    hide Service.IsTree;
    hide Filter;
    FilterIs(services, DeadSet(services, was), journal);
    var dead := DeadOnes(services, was);
    if dead != [] {
      assert dead[0] in dead;
      var k :| 0 <= k < |services| && services[k] == dead[0];
    }
  }

  lemma AfterPass(services: seq<Service>, journal: Journal, strategy: Strategy, began: seq<Flags>,
                  past: seq<seq<Service>>, now: seq<Service>, at: map<Service, Flags>)
    requires IsGroup(services, journal) && |began| == |services| && forall s :: s in now ==> s in services
    requires forall k :: 0 <= k < |services| ==> Fallen(services[k], at, began[k], strategy, past, now)
    requires forall k :: 0 <= k < |services| ==>
               Outcome(services[k], at, ToRestart(strategy, services, at), ToStop(strategy, services, at))
    ensures forall k :: 0 <= k < |services| ==> Standing(services[k], began[k], strategy, past + [now])
  {
    hide Service.IsTree;
    hide DeadOnes;
    hide Due;
    hide Crashes;
    hide GivenUp;
    DeadOnesAre(services, journal, at);
    assert now != [] ==> now[0] in services;
    forall k | 0 <= k < |services|
      ensures Standing(services[k], began[k], strategy, past + [now])
    {
      services[k].TreeFacts();
      if strategy.ForfeitOneForAll? && DeadOnes(services, at) != [] {
        AllGivenUp(services, began, past, now, at, services[k]);
      }
      OneAfterPass(services[k], services, began[k], strategy, past, now, at);
    }
  }

  /** Under forfeit-one-for-all one dead service is enough for all to be given up. */
  lemma AllGivenUp(services: seq<Service>, began: seq<Flags>, past: seq<seq<Service>>, now: seq<Service>,
                   at: map<Service, Flags>, s: Service)
    requires |began| == |services| && exists k :: 0 <= k < |services| && services[k] in at && Dead(at[services[k]])
    requires forall k :: 0 <= k < |services| ==> Fallen(services[k], at, began[k], ForfeitOneForAll, past, now)
    ensures GivenUp(ForfeitOneForAll, past + [now], s)
  {
    hide Due;
    hide Crashes;
    hide GivenUp;
    var k :| 0 <= k < |services| && services[k] in at && Dead(at[services[k]]);
    assert Fallen(services[k], at, began[k], ForfeitOneForAll, past, now);
    OneMoreRound(ForfeitOneForAll, past, now, s);
    if Crashes(past, services[k]) {
      CrashGivesUpAll(past, services[k], s);
    }
  }

  lemma {:induction false} CrashGivesUpAll(past: seq<seq<Service>>, crashed: Service, s: Service)
    requires Crashes(past, crashed)
    ensures GivenUp(ForfeitOneForAll, past, s)
  {
    if crashed !in past[|past| - 1] {
      CrashGivesUpAll(past[..|past| - 1], crashed, s);
    }
  }

  lemma OneAfterPass(s: Service, services: seq<Service>, first: Flags, strategy: Strategy,
                     past: seq<seq<Service>>, now: seq<Service>, at: map<Service, Flags>)
    requires s in services && s in s.family && Fallen(s, at, first, strategy, past, now)
    requires Outcome(s, at, ToRestart(strategy, services, at), ToStop(strategy, services, at))
    requires s in DeadOnes(services, at) <==> Dead(at[s])
    requires strategy.OneForAll? ==> (DeadOnes(services, at) == [] <==> now == [])
    requires strategy.ForfeitOneForAll? ==>
               if DeadOnes(services, at) == [] then now == [] else GivenUp(strategy, past + [now], s)
    ensures Standing(s, first, strategy, past + [now])
  {
    hide DeadOnes;
    hide Due;
    hide Crashes;
    hide GivenUp;
    OneMoreRound(strategy, past, now, s);
  }

  lemma OneMoreRound(strategy: Strategy, past: seq<seq<Service>>, now: seq<Service>, s: Service)
    ensures Crashes(past + [now], s) <==> Crashes(past, s) || s in now
    ensures GivenUp(strategy, past + [now], s) <==>
            GivenUp(strategy, past, s) || if strategy.ForfeitOneForOne? then s in now else now != []
    ensures strategy.ForfeitOneForOne? ==> (GivenUp(strategy, past, s) <==> Crashes(past, s))
    ensures Due(strategy, past + [now], s) == Due(strategy, past, s) +
            match strategy
            case OneForOne => if s in now then 1 else 0
            case OneForAll => if now != [] then 1 else 0
            case _ => 0
  {
    assert (past + [now])[..|past|] == past;
    GivenUpIsCrashed(past, s);
  }

  lemma {:induction false} GivenUpIsCrashed(past: seq<seq<Service>>, s: Service)
    ensures GivenUp(ForfeitOneForOne, past, s) <==> Crashes(past, s)
  {
    if past == [] {
    } else {
      GivenUpIsCrashed(past[..|past| - 1], s);
    }
  }

  lemma NoTraces()
    ensures forall work :: Traces([], work) == []
  {}

  lemma NobodyIdle(services: seq<Service>, journal: Journal, at: map<Service, Flags>)
    requires IsGroup(services, journal)
    requires forall k :: 0 <= k < |services| ==> services[k].started && Kept(services[k], at)
    ensures Traces(Filter(services, IdleSet(services, at)), Starting(SceneIn(at))) == []
  {
    hide Service.IsTree;
    hide Kept;
    hide Filter;
    IdleAreKept(services, Filter(services, IdleSet(services, at)), journal, at);
  }

  // ---- The hooks of a pass ----

  /** Stopping services calls no other hooks than `on_stop` and `on_shutdown`. */
  lemma {:induction false} StopsCallNoOther(list: seq<Service>, down: set<Service>, hook: Hook)
    requires hook !in {OnStop, OnShutdown}
    ensures Called(Traces(list, Stopping(down)), hook) == []
    decreases |list|
  {
    hide StartTrace;
    hide StopTrace;
    hide Called;
    hide Service.IsTree;
    CalledNone(hook);
    if list == [] {
    } else {
      var init, last := list[..|list| - 1], list[|list| - 1];
      StopsCallNoOther(init, down, hook);
      if last.IsTree() {
        StopCallsNoOther(last, down, hook);
        CalledConcat(Traces(init, Stopping(down)), StopTrace(last, down), hook);
      } else {
        CalledConcat(Traces(init, Stopping(down)), [], hook);
      }
    }
  }

  /** Restarting services calls `on_restart` on each of them once, in order; and `on_stop` on none
      if all of them have been stopped. */
  lemma {:induction false} RestartsCall(list: seq<Service>, down: set<Service>)
    requires forall s :: s in list ==> s.IsTree()
    ensures Called(Traces(list, Restarting(down)), OnRestart) == list
    ensures (forall s :: s in list ==> s in down) ==> Called(Traces(list, Restarting(down)), OnStop) == []
    decreases |list|
  {
    hide Trace;
    hide Called;
    hide Service.IsTree;
    if list == [] {
      CalledNone(OnRestart);
      CalledNone(OnStop);
    } else {
      var init, last := list[..|list| - 1], list[|list| - 1];
      assert list == init + [last];
      RestartsCall(init, down);
      OneRestartCalls(last, down);
      CalledConcat(Traces(init, Restarting(down)), Trace(last, Restarting(down)), OnRestart);
      CalledConcat(Traces(init, Restarting(down)), Trace(last, Restarting(down)), OnStop);
    }
  }

  lemma OneRestartCalls(s: Service, down: set<Service>)
    requires s.IsTree()
    ensures Called(Trace(s, Restarting(down)), OnRestart) == [s]
    ensures s in down ==> Called(Trace(s, Restarting(down)), OnStop) == []
  {
    hide StartTrace;
    hide StopTrace;
    hide Called;
    hide Service.IsTree;
    var stop, restart, start := StopTrace(s, down), [Event(OnRestart, s)], StartTrace(s, RESET);
    CalledNone(OnStop);
    s.StopTraceIs(down);
    StopCallsNoOther(s, down, OnRestart);
    StartCallsNoOther(s, RESET, OnRestart);
    StartCallsNoOther(s, RESET, OnStop);
    CalledOne(Event(OnRestart, s), OnRestart);
    CalledOne(Event(OnRestart, s), OnStop);
    CalledConcat(stop, restart, OnRestart);
    CalledConcat(stop + restart, start, OnRestart);
    CalledConcat(stop, restart, OnStop);
    CalledConcat(stop + restart, start, OnStop);
  }

  lemma {:induction false} NotCalled(log: seq<Event>, hook: Hook, i: nat)
    requires Called(log, hook) == [] && i < |log|
    ensures log[i].hook != hook
    decreases |log|
  {
    if i < |log| - 1 {
      NotCalled(log[..|log| - 1], hook, i);
    }
  }

  /** Under one-for-all every `on_stop` of a pass comes before the first `on_restart`; and those that
      were restarted had `on_restart` called in the order of the group. */
  lemma StopsComeFirst(services: seq<Service>, journal: Journal, was: map<Service, Flags>, restarted: seq<Service>,
                       i: nat, j: nat)
    requires IsGroup(services, journal) && restarted <= services
    requires var log := RestartCalls(OneForAll, services, was, restarted);
             i < |log| && j < |log| && log[i].hook == OnStop && log[j].hook == OnRestart
    ensures i < j
    ensures Called(RestartCalls(OneForAll, services, was, restarted), OnRestart) == restarted
  {
    hide Service.IsTree;
    hide Called;
    hide Traces;
    hide ToStop;
    var stops := Traces(ToStop(OneForAll, services, was), Stopping(DownIn(was)));
    var restarts := Traces(restarted, Restarting(set s | s in services));
    assert forall s :: s in restarted ==> s in services;
    StopsCallNoOther(ToStop(OneForAll, services, was), DownIn(was), OnRestart);
    RestartsCall(restarted, set s | s in services);
    CalledConcat(stops, restarts, OnRestart);
    if j < |stops| {
      NotCalled(stops, OnRestart, j);
    }
    if i >= |stops| {
      NotCalled(restarts, OnStop, i - |stops|);
    }
  }

  /** A strategy that forfeits calls `on_start` on nobody. */
  lemma StopsStartNobody(log: seq<Event>, strategy: Strategy, services: seq<Service>, was: map<Service, Flags>)
    ensures NoStarts(log, log + RestartCalls(strategy, services, was, []))
  {
    hide Called;
    hide ToStop;
    hide Trace;
    var stops := Traces(ToStop(strategy, services, was), Stopping(DownIn(was)));
    StopsCallNoOther(ToStop(strategy, services, was), DownIn(was), OnStart);
    CalledConcat(log, stops, OnStart);
    assert RestartCalls(strategy, services, was, []) == stops;
  }

  lemma WereStarted(services: seq<Service>, journal: Journal, was: map<Service, Flags>)
    requires IsGroup(services, journal)
    requires forall k :: 0 <= k < |services| ==> Outcome(services[k], was, [], [])
    ensures forall k :: 0 <= k < |services| ==> Begun(services[k], was)
  {
    hide Service.IsTree;
    forall k | 0 <= k < |services|
      ensures Begun(services[k], was)
    {
      services[k].TreeFacts();
      assert Outcome(services[k], was, [], []);
    }
  }

  lemma DeadWereStarted(services: seq<Service>, journal: Journal, was: map<Service, Flags>)
    requires IsGroup(services, journal)
    requires forall k :: 0 <= k < |services| ==> Outcome(services[k], was, [], [])
    ensures forall k :: 0 <= k < |DeadOnes(services, was)| ==>
              Kept(DeadOnes(services, was)[k], was) && Begun(DeadOnes(services, was)[k], was)
  {
    hide Service.IsTree;
    hide Kept;
    hide Begun;
    hide Filter;
    FilterIs(services, DeadSet(services, was), journal);
    WereStarted(services, journal, was);
    forall k | 0 <= k < |DeadOnes(services, was)|
      ensures Kept(DeadOnes(services, was)[k], was) && Begun(DeadOnes(services, was)[k], was)
    {
      var s := DeadOnes(services, was)[k];
      assert s in Filter(services, DeadSet(services, was));
      var j :| 0 <= j < |services| && services[j] == s;
      assert Outcome(services[j], was, [], []);
    }
  }

  /** `some` are the services of the group that are in `keep`, and apart from the others. */
  ghost predicate IsPart(some: seq<Service>, services: seq<Service>, keep: set<Service>, journal: Journal) {
    && IsGroup(some, journal)
    && (forall s :: s in some ==> s in services && s in keep)
    && (forall s :: s in services && s in keep ==> s in some)
    && (forall s :: s in services && s !in keep ==> s.family !! Members(some))
    && Members(some) <= Members(services)
  }

  lemma {:induction false} FilterIs(services: seq<Service>, keep: set<Service>, journal: Journal)
    requires IsGroup(services, journal)
    ensures IsPart(Filter(services, keep), services, keep, journal)
  {
    hide Service.IsTree;
    hide IsPart;
    if services == [] {
      NoPart(keep, journal);
    } else {
      var init, last := services[..|services| - 1], services[|services| - 1];
      assert services == init + [last];
      FilterIs(init, keep, journal);
      LastIsApart(services);
      PartGrows(Filter(init, keep), init, last, keep, journal);
    }
  }

  lemma NoPart(keep: set<Service>, journal: Journal)
    ensures IsPart([], [], keep, journal)
  {}

  lemma PartGrows(some: seq<Service>, init: seq<Service>, last: Service, keep: set<Service>, journal: Journal)
    requires IsPart(some, init, keep, journal) && last.IsTree() && last.journal == journal
    requires forall s :: s in init ==> s.family !! last.family
    ensures IsPart(some + if last in keep then [last] else [], init + [last], keep, journal)
  {
    hide Service.IsTree;
    var more := some + if last in keep then [last] else [];
    assert forall s :: s in some ==> s in init;
    assert forall s :: s in more ==> s in some || (s == last && last in keep);
  }

  lemma FilterNone(keep: set<Service>)
    ensures Filter([], keep) == []
  {}

  lemma FilterStep(services: seq<Service>, i: nat, keep: set<Service>)
    requires i < |services|
    ensures Filter(services[..i + 1], keep) ==
            Filter(services[..i], keep) + if services[i] in keep then [services[i]] else []
  {
    assert services[..i + 1][..i] == services[..i];
  }

  lemma Sorted(services: seq<Service>, i: nat, journal: Journal, was: map<Service, Flags>)
    requires i < |services| && IsGroup(services, journal) && Kept(services[i], was)
    ensures services[i] in DeadSet(services, was) <==> services[i].started && services[i].crashed
    ensures services[i] in IdleSet(services, was) <==> !services[i].started
  {
    InGroup(services, i, journal);
  }

  lemma IdleAreKept(services: seq<Service>, idle: seq<Service>, journal: Journal, was: map<Service, Flags>)
    requires IsGroup(services, journal) && idle == Filter(services, IdleSet(services, was))
    requires forall k :: 0 <= k < |services| ==> Kept(services[k], was)
    ensures IsGroup(idle, journal) && Members(idle) <= Members(services)
    ensures forall k :: 0 <= k < |idle| ==> Kept(idle[k], was)
    ensures forall k :: 0 <= k < |services| ==>
              services[k] in IdleSet(services, was) || services[k].family !! Members(idle)
    ensures (forall k :: 0 <= k < |services| ==> services[k].started) ==> idle == []
  {
    hide Service.IsTree;
    hide Kept;
    FilterIs(services, IdleSet(services, was), journal);
    forall k | 0 <= k < |idle|
      ensures Kept(idle[k], was) && !idle[k].started
    {
      assert idle[k] in idle;
      var j :| 0 <= j < |services| && services[j] == idle[k];
      Sorted(services, j, journal, was);
    }
    if idle != [] {
      assert idle[0] in services;
    }
  }

  lemma BegunOrKept(services: seq<Service>, idle: seq<Service>, journal: Journal, was: map<Service, Flags>)
    requires IsGroup(services, journal) && idle == Filter(services, IdleSet(services, was))
    requires forall k :: 0 <= k < |idle| ==> Begun(idle[k], was)
    requires forall k :: 0 <= k < |services| ==> services[k] in IdleSet(services, was) || Kept(services[k], was)
    ensures forall k :: 0 <= k < |services| ==> Outcome(services[k], was, [], [])
  {
    hide Service.IsTree;
    hide Filter;
    FilterIs(services, IdleSet(services, was), journal);
    forall k | 0 <= k < |services|
      ensures Outcome(services[k], was, [], [])
    {
      InGroup(services, k, journal);
      if services[k] in IdleSet(services, was) {
        assert services[k] in idle;
        var j :| 0 <= j < |idle| && idle[j] == services[k];
      }
    }
  }

  lemma LastIsApart(services: seq<Service>)
    requires |services| > 0
    requires forall i, j :: 0 <= i < j < |services| ==> services[i].family !! services[j].family
    ensures forall s :: s in services[..|services| - 1] ==> s.family !! services[|services| - 1].family
  {
    forall s | s in services[..|services| - 1]
      ensures s.family !! services[|services| - 1].family
    {
      var k :| 0 <= k < |services| - 1 && services[k] == s;
    }
  }

  lemma InGroup(list: seq<Service>, i: nat, journal: Journal)
    requires IsGroup(list, journal) && i < |list|
    ensures list[i].IsTree() && list[i].journal == journal
    ensures list[i].family <= Members(list) && list[i] in list[i].family
    ensures forall k :: 0 <= k < |list| && k != i ==> list[k].family !! list[i].family
  {
    hide Service.IsTree;
    list[i].TreeFacts();
  }

  lemma TracesGrow(list: seq<Service>, journal: Journal, work: Work)
    requires IsGroup(list, journal)
    ensures Traces(list[..0], work) == [] && list[..|list|] == list
    ensures forall k {:trigger list[k]} :: 0 <= k < |list| ==>
              && list[k].IsTree()
              && Traces(list[..k + 1], work) == Traces(list[..k], work) + Trace(list[k], work)
  {
    hide Trace;
    hide Service.IsTree;
    forall k | 0 <= k < |list|
      ensures Traces(list[..k + 1], work) == Traces(list[..k], work) + Trace(list[k], work)
    {
      assert list[..k + 1][..k] == list[..k];
    }
  }

  lemma {:induction false} SameRestarts(list: seq<Service>, a: set<Service>, b: set<Service>)
    requires forall s :: s in list ==> s in a && s in b
    ensures Traces(list, Restarting(a)) == Traces(list, Restarting(b))
    decreases |list|
  {
    hide StartTrace;
    hide Service.IsTree;
    if list == [] {
    } else {
      SameRestarts(list[..|list| - 1], a, b);
    }
  }

  /** Under one-for-all the restart counts of a group that began equal stay equal. */
  lemma {:induction false} AllForOneDue(schedule: seq<seq<Service>>, s: Service, t: Service)
    ensures Due(OneForAll, schedule, s) == Due(OneForAll, schedule, t)
  {
    if schedule == [] {
    } else {
      AllForOneDue(schedule[..|schedule| - 1], s, t);
    }
  }

  lemma {:induction false} PouredConcat(b: Bucket, before: seq<Attempt>, after: seq<Attempt>)
    ensures Poured(b, before + after) == Poured(b, before) + Poured(After(b, before), after)
    decreases |before|
  {
    if before == [] {
      assert before + after == after;
    } else {
      assert (before + after)[1..] == before[1..] + after;
      PouredConcat(b.AfterPour(before[0].now, before[0].need), before[1..], after);
    }
  }

  lemma {:induction false} RunOneMore(b: Bucket, run: seq<Attempt>, a: Attempt)
    ensures After(b, run + [a]) == After(b, run).AfterPour(a.now, a.need)
    ensures Poured(b, run + [a]) == Poured(b, run) + if After(b, run).CanPour(a.now, a.need) then a.need else 0
    decreases |run|
  {
    if run == [] {
      assert [a][1..] == [];
    } else {
      assert (run + [a])[1..] == run[1..] + [a];
      RunOneMore(b.AfterPour(run[0].now, run[0].need), run[1..], a);
    }
  }
}
