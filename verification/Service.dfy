/** `mode/services.py`: start, stop, restart and crash over a tree of services. */
module Services {
  import opened Sequences
  import opened Trees

  datatype Hook = OnFirstStart | OnStart | OnStarted | OnStop | OnShutdown | OnRestart

  /** One call of a hook. */
  datatype Event = Event(hook: Hook, service: Service)

  /** The hooks called so far, in order, by all services of a program. */
  class Journal {
    var log: seq<Event>

    constructor ()
      ensures log == []
    {
      log := [];
    }
  }

  /** A service; its children are fixed before it is started, and the hooks leave the flags alone. */
  class Service {
    const children: seq<Service>
    const journal: Journal
    /** The service and everything below it. */
    ghost const family: set<Service>
    ghost const height: nat

    var started: bool
    var stopped: bool
    var shutdown: bool
    var crashed: bool
    var crashReason: int
    var restartCount: nat
    var beacon: Node?<Service>
    var supervised: bool

    constructor (children: seq<Service>, journal: Journal)
      requires forall c :: c in children ==> c.IsTree() && c.journal == journal
      requires forall i, j :: 0 <= i < j < |children| ==> children[i].family !! children[j].family
      ensures this.children == children && this.journal == journal && IsTree() && fresh(this)
      ensures !started && !stopped && !crashed && restartCount == 0 && !supervised
      ensures beacon != null && fresh(beacon) && beacon.data == this && beacon.parent == null && beacon.root == null
    {
      this.children := children;
      this.journal := journal;
      this.family := {this} + set c, x | c in children && x in c.family :: x;
      this.height := MaxHeight(children) + 1;
      started, stopped, shutdown, crashed, restartCount := false, false, false, false, 0;
      supervised, beacon := false, null;
      new;
      beacon := new Node(this, null, null);
      AboveAll(children);
    }

    /** The constants describe a tree: nothing is below itself, and subtrees do not overlap. */
    ghost predicate IsTree()
      decreases height
    {
      && this in family
      && (forall c :: c in children ==>
            c.height < height && c.IsTree() && c.journal == journal && c.family <= family && this !in c.family)
      && (forall i, j :: 0 <= i < j < |children| ==> children[i].family !! children[j].family)
      && (forall x :: x in family ==> x == this || exists c :: c in children && x in c.family)
    }

    predicate ShouldStop()
      reads this
    {
      stopped || crashed
    }

    ghost predicate Untouched()
      reads family
    {
      forall x :: x in family ==> !x.started && !x.stopped && !x.crashed
    }

    ghost predicate AllStarted()
      reads family
    {
      forall x :: x in family ==> x.started
    }

    /** `scene` tells of the services of the family how a start finds them. */
    ghost predicate AtScene(scene: Scene)
      reads family
    {
      forall x :: x in family ==>
        && (x in scene.first <==> x.restartCount == 0)
        && (x in scene.up <==> x.started)
        && (x in scene.halted <==> x.stopped || x.crashed)
    }

    /** Afterwards those the start got to are started too. */
    ghost predicate StartedNow(scene: Scene)
      reads family
    {
      forall x :: x in family ==> (x.started <==> x in scene.up || x in Reached(this, scene))
    }

    lemma ChildrenAtScene(scene: Scene)
      requires IsTree() && AtScene(scene)
      ensures forall c :: c in children ==> c.AtScene(scene)
      ensures (this in scene.first <==> restartCount == 0) && (this in scene.up <==> started)
      ensures this in scene.halted <==> stopped || crashed
      ensures Untouched() ==> forall x :: x in family ==> x !in scene.up && x !in scene.halted
    {}

    /** A service that is started already or should stop keeps the start from what is below it. */
    lemma StartedHere(scene: Scene)
      requires IsTree() && started && (this in scene.up || this in scene.halted)
      requires forall c :: c in children ==> c.AtScene(scene)
      ensures StartedNow(scene)
    {
      hide IsTree;
      hide Reached;
      TreeFacts();
      MembersAreBelow();
      ReachedHere(this, scene);
      forall x | x in family && x != this
        ensures x.started <==> x in scene.up
      {
        var k :| 0 <= k < |children| && x in children[k].family;
        assert children[k] in children;
      }
    }

    lemma StartedBelow(scene: Scene)
      requires IsTree() && started && this !in scene.up && this !in scene.halted
      requires forall c :: c in children ==> c.StartedNow(scene)
      ensures StartedNow(scene)
    {
      hide IsTree;
      hide Reached;
      TreeFacts();
      MembersAreBelow();
      ReachedHere(this, scene);
      forall x | x in family && x != this
        ensures x.started <==> x in scene.up || x in Reached(this, scene)
      {
        var k :| 0 <= k < |children| && x in children[k].family;
        assert children[k] in children;
        InChild(this, children[k], x, scene, {});
      }
    }

    lemma AllStartedNow(scene: Scene)
      requires StartedNow(scene) && forall x :: x in family ==> x !in scene.up && x !in scene.halted
      ensures AllStarted()
    {}

    method Call(hook: Hook)
      modifies journal
      ensures journal.log == old(journal.log) + [Event(hook, this)]
    {
      journal.log := journal.log + [Event(hook, this)];
    }

    /** `_default_start` and `_actually_start`; fails (an AssertionError in the source) when the
        service is started already.  The calls are those of the start trace in the scene found; so
        `on_start` is called on no service that was stopped or had crashed. */
    method Start(ghost scene: Scene) returns (ok: bool)
      requires IsTree() && AtScene(scene)
      modifies family`started, journal
      ensures (ok <==> !old(started)) && started && StartedNow(scene)
      ensures journal.log == old(journal.log) + StartTrace(this, scene)
      ensures old(Untouched()) ==> AllStarted()
      ensures ok && (stopped || crashed) ==>
                journal.log == old(journal.log) + if restartCount == 0 then [Event(OnFirstStart, this)] else []
      ensures forall x :: x in family && (x.stopped || x.crashed) ==>
                x !in Called(StartTrace(this, scene), OnStart)
      decreases height, 1
    {
      hide IsTree;
      hide AtScene;
      hide StartedNow;
      hide StartTrace;
      hide StartAll;
      hide Called;
      TreeFacts();
      StartTraceIs(scene);
      ChildrenAtScene(scene);
      HaltedAreNotStarted(scene);
      ok := !started;
      if !ok {
        StartedHere(scene);
        return;
      }
      ghost var untouched := Untouched();
      started := true;
      if restartCount == 0 {
        Call(OnFirstStart);
        if ShouldStop() {
          StartedHere(scene);
          return;
        }
      }
      if ShouldStop() {
        StartedHere(scene);
        return;
      }
      Call(OnStart);
      StartChildren(scene);
      StartedBelow(scene);
      if untouched {
        AllStartedNow(scene);
      }
      Call(OnStarted);
    }

    lemma HaltedAreNotStarted(scene: Scene)
      requires IsTree() && AtScene(scene)
      ensures forall x :: x in family && (x.stopped || x.crashed) ==>
                x !in Called(StartTrace(this, scene), OnStart)
    {
      hide StartTrace;
      hide Called;
      hide IsTree;
      StartCalls(this, scene, OnStart);
      forall x | x in family && (x.stopped || x.crashed)
        ensures x !in Called(StartTrace(this, scene), OnStart)
      {
        NotCleared(this, x, scene.up + scene.halted);
        assert x !in multiset(Shown(this, scene, OnStart));
        assert x !in multiset(Called(StartTrace(this, scene), OnStart));
      }
    }

    /** The loop of `_actually_start` over the children. */
    method StartChildren(ghost scene: Scene)
      requires IsTree() && !ShouldStop() && forall c :: c in children ==> c.AtScene(scene)
      modifies family`started, journal
      ensures journal.log == old(journal.log) + StartAll(children, scene, height)
      ensures forall c :: c in children ==> c.StartedNow(scene)
      ensures started == old(started)
      decreases height, 0
    {
      hide IsTree;
      hide AtScene;
      hide StartedNow;
      hide StartAll;
      hide StartTrace;
      ghost var log := journal.log;
      TreeFacts();
      StartAllNone(scene);
      var i := 0;
      while i < |children|
        invariant 0 <= i <= |children|
        invariant started == old(started) && !ShouldStop()
        invariant forall k :: i <= k < |children| ==> children[k].AtScene(scene)
        invariant journal.log == log + StartAll(children[..i], scene, height)
        invariant forall k :: 0 <= k < i ==> children[k].StartedNow(scene)
      {
        var child := children[i];
        assert child in children;
        StartAllStep(scene, i);
        var did := child.MaybeStart(scene);
        i := i + 1;
        if ShouldStop() {
          break;
        }
      }
      assert i == |children| ==> children[..i] == children;
    }

    lemma StartTraceIs(scene: Scene)
      requires IsTree()
      ensures StartTrace(this, scene) ==
              if this in scene.up then []
              else (if this in scene.first then [Event(OnFirstStart, this)] else []) +
                   if this in scene.halted then []
                   else [Event(OnStart, this)] + StartAll(children, scene, height) + [Event(OnStarted, this)]
    {}

    lemma TreeFacts()
      requires IsTree()
      ensures this in family
      ensures forall c :: c in children ==>
                c.height < height && c.IsTree() && c.journal == journal && c.family <= family && this !in c.family
      ensures forall i, j :: 0 <= i < j < |children| ==> children[i].family !! children[j].family
      ensures forall i, c :: 0 <= i <= |children| && c in children[..i] ==> c in children
    {}

    lemma StartAllNone(scene: Scene)
      requires IsTree()
      ensures StartAll(children[..0], scene, height) == []
    {}

    lemma StartAllStep(scene: Scene, i: nat)
      requires IsTree() && i < |children|
      ensures forall c :: c in children[..i + 1] ==> c.IsTree() && c.height < height
      ensures StartAll(children[..i + 1], scene, height) ==
              StartAll(children[..i], scene, height) + StartTrace(children[i], scene)
    {
      assert children[..i + 1][..i] == children[..i];
    }

    /** Passes over a service that is started already. */
    method MaybeStart(ghost scene: Scene) returns (did: bool)
      requires IsTree() && AtScene(scene)
      modifies family`started, journal
      ensures (did <==> !old(started)) && started && StartedNow(scene)
      ensures journal.log == old(journal.log) + StartTrace(this, scene)
      ensures old(Untouched()) ==> AllStarted()
      decreases height, 2
    {
      hide IsTree;
      hide AtScene;
      hide StartedNow;
      hide StartTrace;
      hide Called;
      TreeFacts();
      did := false;
      ChildrenAtScene(scene);
      if !started {
        did := Start(scene);
      } else {
        StartTraceIs(scene);
        StartedHere(scene);
      }
    }

    /** `down` holds the services of the family that are stopped already. */
    ghost predicate Down(down: set<Service>)
      reads family
    {
      forall x :: x in family ==> (x in down <==> x.stopped)
    }

    /** Afterwards those the stop got to are stopped too. */
    ghost predicate StoppedNow(down: set<Service>)
      reads family
    {
      forall x :: x in family ==> (x.stopped <==> x in down || x in Cleared(this, down))
    }

    lemma ChildrenDown(down: set<Service>)
      requires IsTree() && Down(down)
      ensures (this in down <==> stopped) && forall c :: c in children ==> c.Down(down)
    {}

    /** A service that is stopped already keeps the stop from what is below it. */
    lemma StoppedHere(down: set<Service>)
      requires IsTree() && Down(down) && this in down
      ensures StoppedNow(down)
    {}

    lemma StoppedBelow(down: set<Service>)
      requires IsTree() && stopped && this !in down
      requires forall c :: c in children ==> c.StoppedNow(down)
      ensures StoppedNow(down)
    {
      hide IsTree;
      hide Cleared;
      TreeFacts();
      MembersAreBelow();
      ClearedHere(this, down);
      forall x | x in family && x != this
        ensures x.stopped <==> x in down || x in Cleared(this, down)
      {
        var k :| 0 <= k < |children| && x in children[k].family;
        assert children[k] in children;
        InChild(this, children[k], x, RESET, down);
      }
    }

    /** A tree in which nothing was stopped is stopped as a whole. */
    lemma AllStoppedNow(down: set<Service>)
      requires StoppedNow(down) && forall x :: x in family ==> x !in down
      ensures forall x :: x in family ==> x.stopped
    {}

    /** `stop`: the calls are those of the stop trace; a service that has been stopped is left alone,
        with what is below it. */
    method Stop(ghost down: set<Service>)
      requires IsTree() && Down(down)
      modifies family`stopped, journal
      ensures stopped && StoppedNow(down)
      ensures journal.log == old(journal.log) + StopTrace(this, down)
      decreases height, 1
    {
      hide IsTree;
      hide Down;
      hide StoppedNow;
      hide StopTrace;
      hide StopAll;
      TreeFacts();
      StopTraceIs(down);
      ChildrenDown(down);
      if !stopped {
        stopped := true;
        Call(OnStop);
        StopChildren(down);
        StoppedBelow(down);
        Call(OnShutdown);
      } else {
        StoppedHere(down);
      }
    }

    /** `_default_stop_children`: the last child first. */
    method StopChildren(ghost down: set<Service>)
      requires IsTree() && forall c :: c in children ==> c.Down(down)
      modifies family`stopped, journal
      ensures stopped == old(stopped)
      ensures journal.log == old(journal.log) + StopAll(children, down, height)
      ensures forall c :: c in children ==> c.StoppedNow(down)
      decreases height, 0
    {
      hide IsTree;
      hide Down;
      hide StoppedNow;
      hide StopAll;
      hide StopTrace;
      ghost var log := journal.log;
      TreeFacts();
      assert children[..|children|] == children;
      StopAllNone(down);
      var i := |children|;
      while i > 0
        invariant 0 <= i <= |children| && stopped == old(stopped)
        invariant forall k :: 0 <= k < i ==> children[k].Down(down)
        invariant journal.log + StopAll(children[..i], down, height) == log + StopAll(children, down, height)
        invariant forall k :: i <= k < |children| ==> children[k].StoppedNow(down)
      {
        i := i - 1;
        var child := children[i];
        assert child in children;
        StopAllStep(down, i);
        child.Stop(down);
      }
    }

    lemma StopTraceIs(down: set<Service>)
      requires IsTree()
      ensures StopTrace(this, down) ==
              if this in down then []
              else [Event(OnStop, this)] + StopAll(children, down, height) + [Event(OnShutdown, this)]
    {}

    lemma StopAllNone(down: set<Service>)
      requires IsTree()
      ensures StopAll(children[..0], down, height) == []
    {}

    lemma StopAllStep(down: set<Service>, i: nat)
      requires IsTree() && i < |children|
      ensures forall c :: c in children[..i + 1] ==> c.IsTree() && c.height < height
      ensures StopAll(children[..i + 1], down, height) ==
              StopTrace(children[i], down) + StopAll(children[..i], down, height)
    {
      assert children[..i + 1][..i] == children[..i];
    }

    /** Every service of the family has `more` restarts more than it had. */
    ghost predicate Restarts(was: map<Service, nat>, more: nat)
      reads family
    {
      forall x :: x in family ==> x in was && x.restartCount == was[x] + more
    }

    /** No service of the family has its shutdown signal set or a reason for a crash. */
    ghost predicate Forgotten()
      reads family
    {
      forall x :: x in family ==> !x.shutdown && x.crashReason == 0
    }

    method SetShutdown()
      modifies this`shutdown
      ensures shutdown
    {
      shutdown := true;
    }

    /** `service_reset`: the whole subtree may be started again. */
    method ServiceReset()
      requires IsTree()
      modifies family`started, family`stopped, family`shutdown, family`crashed, family`crashReason, family`restartCount
      ensures Untouched() && Forgotten()
      ensures forall x :: x in family ==> x.restartCount == old(x.restartCount) + 1
      decreases height
    {
      ResetFrom(map x | x in family :: x.restartCount);
    }

    /** `service_reset`, told what the restart counts were. */
    method ResetFrom(ghost was: map<Service, nat>)
      requires IsTree() && Restarts(was, 0)
      modifies family`started, family`stopped, family`shutdown, family`crashed, family`crashReason, family`restartCount
      ensures Untouched() && Forgotten() && Restarts(was, 1)
      decreases height
    {
      hide IsTree;
      hide Untouched;
      hide Forgotten;
      hide Restarts;
      TreeFacts();
      EachRestarts(was, 0);
      restartCount := restartCount + 1;
      started, stopped, shutdown, crashed := false, false, false, false;
      crashReason := 0;
      for i := 0 to |children|
        invariant !started && !stopped && !shutdown && !crashed && crashReason == 0
        invariant this in was && restartCount == was[this] + 1
        invariant forall k :: 0 <= k < i ==>
                    children[k].Untouched() && children[k].Forgotten() && children[k].Restarts(was, 1)
        invariant forall k :: i <= k < |children| ==> children[k].Restarts(was, 0)
      {
        assert children[i] in children;
        children[i].ResetFrom(was);
      }
      AllReset(was);
    }

    lemma EachRestarts(was: map<Service, nat>, more: nat)
      requires IsTree() && Restarts(was, more)
      ensures this in was && restartCount == was[this] + more
      ensures forall k :: 0 <= k < |children| ==> children[k].Restarts(was, more)
    {
      MembersAreBelow();
    }

    lemma AllReset(was: map<Service, nat>)
      requires IsTree() && !started && !stopped && !shutdown && !crashed && crashReason == 0
      requires this in was && restartCount == was[this] + 1
      requires forall k :: 0 <= k < |children| ==>
                 children[k].Untouched() && children[k].Forgotten() && children[k].Restarts(was, 1)
      ensures Untouched() && Forgotten() && Restarts(was, 1)
    {
      MembersAreBelow();
    }

    lemma MembersAreBelow()
      requires IsTree()
      ensures forall x :: x in family ==> x == this || exists k :: 0 <= k < |children| && x in children[k].family
      ensures forall k :: 0 <= k < |children| ==> this !in children[k].family && children[k].family <= family
    {
      forall x | x in family && x != this
        ensures exists k :: 0 <= k < |children| && x in children[k].family
      {
        var c :| c in children && x in c.family;
        var k :| 0 <= k < |children| && children[k] == c;
      }
    }

    /** `restart`: stop, reset, `on_restart`, start. */
    method Restart(ghost down: set<Service>)
      requires IsTree() && Down(down)
      modifies family, journal
      ensures AllStarted() && !stopped && !crashed && Forgotten()
      ensures forall x :: x in family ==>
                !x.stopped && !x.crashed && x.restartCount == old(x.restartCount) + 1
      ensures journal.log == old(journal.log) + StopTrace(this, down) + [Event(OnRestart, this)] +
                             StartTrace(this, RESET)
    {
      hide IsTree;
      hide Down;
      hide AtScene;
      hide StartedNow;
      hide StoppedNow;
      hide StartTrace;
      hide StopTrace;
      hide Called;
      TreeFacts();
      Stop(down);
      ServiceReset();
      assert AtScene(RESET) by {
        ResetScene();
      }
      Call(OnRestart);
      var ok := Start(RESET);
    }

    lemma ResetScene()
      requires Untouched() && forall x :: x in family ==> x.restartCount > 0
      ensures AtScene(RESET)
    {}

    /** `_crash`: marks the service and everything below it. */
    method MarkCrashed(reason: int)
      requires IsTree()
      modifies family`crashed, family`crashReason
      ensures forall x :: x in family ==> x.crashed && x.crashReason == reason
      decreases height
    {
      hide IsTree;
      TreeFacts();
      MembersAreBelow();
      crashed := true;
      crashReason := reason;
      for i := 0 to |children|
        invariant crashed && crashReason == reason
        invariant forall k, x :: 0 <= k < i && x in children[k].family ==> x.crashed && x.crashReason == reason
      {
        assert children[i] in children;
        children[i].MarkCrashed(reason);
      }
    }

    /** `crash`: without a supervisor everything above is marked as crashed too. The hierarchy
        of beacons need not be a tree: `seen` ends the walk when it comes round.

        `nodes` are the nodes a walk can get to, and `world` the services involved. */
    method Crash(reason: int, ghost nodes: set<Node<Service>>, ghost world: set<Service>)
      returns (woke: bool, ghost seen: set<Node<Service>>)
      requires IsTree() && family <= world
      requires beacon != null && beacon in nodes && Involved(nodes, beacon.root, world)
      modifies world`crashed, world`crashReason
      ensures woke == (!old(crashed) && supervised)
      ensures old(crashed) || supervised ==> seen == {}
      ensures !old(crashed) && !supervised ==> beacon in seen && UpwardClosed(seen) && seen <= nodes
      ensures old(crashed) ==>
                forall x :: x in world ==> x.crashed == old(x.crashed) && x.crashReason == old(x.crashReason)
      ensures !old(crashed) ==> forall x :: x in world ==>
                if x in family || Hit(x, seen, beacon.root) then x.crashed && x.crashReason == reason
                else x.crashed == old(x.crashed) && x.crashReason == old(x.crashReason)
    {
      hide IsTree;
      hide Hit;
      hide Involved;
      hide UpwardClosed;
      woke, seen := false, {};
      if crashed {
        return;
      }
      NoneHit(beacon.root);
      if supervised {
        woke := true;
      } else {
        seen := WalkUp(reason, nodes, world);
        OwnRoot(seen);
      }
      MarkCrashed(reason);
    }

    lemma OwnRoot(seen: set<Node<Service>>)
      requires beacon != null
      ensures beacon.root != null && beacon.root.data == this ==>
                forall x :: Hit(x, seen, beacon.root) <==> Hit(x, seen, null) || (Round(seen) && x in family)
    {}

    /** The loop of `crash` over `beacon.walk()`. */
    method WalkUp(reason: int, ghost nodes: set<Node<Service>>, ghost world: set<Service>)
      returns (seen: set<Node<Service>>)
      requires beacon != null && beacon in nodes && Involved(nodes, beacon.root, world)
      modifies world`crashed, world`crashReason
      ensures beacon in seen && UpwardClosed(seen) && seen <= nodes
      ensures forall x :: x in world ==>
                if Hit(x, seen, if beacon.root == null || beacon.root.data == this then null else beacon.root)
                then x.crashed && x.crashReason == reason
                else x.crashed == old(x.crashed) && x.crashReason == old(x.crashReason)
    {
      hide IsTree;
      hide Carries;
      hide CarriesTrees;
      hide Round;
      hide CarriedBy;
      hide Hit;
      var root := beacon.root;
      seen := {};
      var node: Node?<Service> := beacon;
      NoneCarried();
      while node != null
        invariant node != null ==> node in nodes
        invariant seen <= nodes && (if seen == {} then node == beacon else beacon in seen)
        invariant forall n :: n in seen ==> n.parent in seen || n.parent == node
        invariant node == null ==> !Round(seen)
        invariant forall x :: x in world ==>
                    if CarriedBy(x, seen) then x.crashed && x.crashReason == reason
                    else x.crashed == old(x.crashed) && x.crashReason == old(x.crashReason)
        decreases nodes - seen
      {
        if node in seen {
          CameRound(seen, node, if root == null || root.data == this then null else root);
          if root != null && root.data != this {
            root.data.MarkCrashed(reason);
          }
          return;
        }
        OneMoreCarried(seen, node);
        seen := seen + {node};
        MarkNode(node, reason, world);
        node := node.parent;
      }
      FoundTop(seen, if root == null || root.data == this then null else root);
    }

    /** `node.data` and those children of the node that are services rather than nodes. */
    static method MarkNode(node: Node<Service>, reason: int, ghost world: set<Service>)
      requires CarriesTrees(node, world)
      modifies world`crashed, world`crashReason
      ensures forall x :: x in world ==>
                if Carries(node, x) then x.crashed && x.crashReason == reason
                else x.crashed == old(x.crashed) && x.crashReason == old(x.crashReason)
    {
      hide Service.IsTree;
      node.data.MarkCrashed(reason);
      for i := 0 to |node.children|
        invariant forall x :: x in world ==>
                    if || x in node.data.family
                       || exists k :: 0 <= k < i && node.children[k].Raw? && x in node.children[k].data.family
                    then x.crashed && x.crashReason == reason
                    else x.crashed == old(x.crashed) && x.crashReason == old(x.crashReason)
      {
        if node.children[i].Raw? {
          assert node.children[i] in node.children;
          node.children[i].data.MarkCrashed(reason);
        }
      }
    }
  }

  /** `x` is marked when `crash` comes to the node. */
  ghost predicate Carries(n: Node<Service>, x: Service)
    reads n
  {
    x in n.data.family || exists k :: 0 <= k < |n.children| && n.children[k].Raw? && x in n.children[k].data.family
  }

  ghost predicate CarriedBy(x: Service, seen: set<Node<Service>>)
    reads seen
  {
    exists n :: n in seen && Carries(n, x)
  }

  lemma NoneCarried()
    ensures forall x :: !CarriedBy(x, {})
  {}

  lemma OneMoreCarried(seen: set<Node<Service>>, n: Node<Service>)
    ensures forall x :: CarriedBy(x, seen + {n}) <==> CarriedBy(x, seen) || Carries(n, x)
    ensures n.parent == null ==> !Round(seen + {n})
  {
    hide Carries;
    assert n in seen + {n};
  }


  /** A crash whose walk goes over `seen` marks `x`: a node on the walk carries it or, when the
      walk comes round, it belongs to the root. */
  ghost predicate Hit(x: Service, seen: set<Node<Service>>, root: Node?<Service>)
    reads seen
  {
    CarriedBy(x, seen) || (Round(seen) && root != null && x in root.data.family)
  }

  lemma CameRound(seen: set<Node<Service>>, node: Node<Service>, root: Node?<Service>)
    requires node in seen && forall n :: n in seen ==> n.parent in seen || n.parent == node
    ensures forall x :: Hit(x, seen, root) <==> CarriedBy(x, seen) || (root != null && x in root.data.family)
  {
    hide CarriedBy;
    assert Round(seen);
  }

  lemma FoundTop(seen: set<Node<Service>>, root: Node?<Service>)
    requires !Round(seen)
    ensures forall x :: Hit(x, seen, root) <==> CarriedBy(x, seen)
  {}

  lemma NoneHit(root: Node?<Service>)
    ensures forall x :: !Hit(x, {}, root)
  {}

  ghost predicate CarriesTrees(n: Node<Service>, world: set<Service>)
    reads n
  {
    && n.data.IsTree() && n.data.family <= world
    && forall k :: 0 <= k < |n.children| && n.children[k].Raw? ==>
         n.children[k].data.IsTree() && n.children[k].data.family <= world
  }

  ghost predicate UpwardClosed(nodes: set<Node<Service>>)
    reads nodes
  {
    forall n :: n in nodes && n.parent != null ==> n.parent in nodes
  }

  ghost predicate Involved(nodes: set<Node<Service>>, root: Node?<Service>, world: set<Service>)
    reads nodes
  {
    && UpwardClosed(nodes)
    && (forall n :: n in nodes ==> CarriesTrees(n, world))
    && (root != null ==> root.data.IsTree() && root.data.family <= world)
  }

  /** The walk over `seen` found no top: it came round. */
  ghost predicate Round(seen: set<Node<Service>>)
    reads seen
  {
    seen != {} && forall n :: n in seen ==> n.parent != null
  }

  ghost predicate Marked(services: set<Service>, reason: int)
    reads services
  {
    forall x :: x in services ==> x.crashed && x.crashReason == reason
  }

  /** The beacons hang together as the services do, and have no raw children. */
  ghost predicate Mirrored(top: Service)
    reads top.family, set s | s in top.family :: s.beacon
  {
    && top in top.family && top.beacon != null && top.beacon.parent == null
    && forall s :: s in top.family ==>
         && s.beacon != null && s.beacon.data == s
         && (forall k :: 0 <= k < |s.beacon.children| ==> s.beacon.children[k].Sub?)
         && forall c :: c in s.children && c in top.family ==> c.beacon != null && c.beacon.parent == s.beacon
  }

  lemma {:induction false} SubtreeIsTree(top: Service, s: Service)
    requires top.IsTree() && s in top.family
    ensures s.IsTree() && s.family <= top.family && s.journal == top.journal
    decreases top.height
  {
    if s != top {
      var c :| c in top.children && s in c.family;
      SubtreeIsTree(c, s);
    }
  }

  /** Going up from the beacon of a service one gets to the beacon of the top. */
  lemma {:induction false} UpToTop(top: Service, sub: Service, s: Service, seen: set<Node<Service>>)
    requires top.IsTree() && Mirrored(top) && sub in top.family && sub.IsTree() && s in sub.family
    requires s.beacon in seen && UpwardClosed(seen)
    ensures sub.beacon in seen
    decreases sub.height
  {
    if s != sub {
      var c :| c in sub.children && s in c.family;
      SubtreeIsTree(top, sub);
      assert c in c.family;
      UpToTop(top, c, s, seen);
    }
  }

  ghost function Beacons(top: Service): set<Node<Service>>
    reads top.family
  {
    set s: Service | s in top.family && s.beacon != null :: s.beacon
  }

  lemma BeaconsInvolved(top: Service, s: Service, world: set<Service>)
    requires top.IsTree() && Mirrored(top) && s in top.family && top.family <= world
    requires s.beacon.root != null ==> s.beacon.root.data.IsTree() && s.beacon.root.data.family <= world
    ensures s.beacon in Beacons(top) && Involved(Beacons(top), s.beacon.root, world)
    ensures forall n, x :: n in Beacons(top) && Carries(n, x) ==> x in top.family
  {
    hide Service.IsTree;
    forall x | x in top.family
      ensures CarriesTrees(x.beacon, world)
      ensures x.beacon.parent != null ==> x.beacon.parent in Beacons(top)
    {
      SubtreeIsTree(top, x);
      if x != top {
        ParentIsBeacon(top, top, x);
      }
    }
    forall n, x | n in Beacons(top) && Carries(n, x)
      ensures x in top.family
    {
      SubtreeIsTree(top, n.data);
    }
  }

  lemma {:induction false} ParentIsBeacon(top: Service, sub: Service, s: Service)
    requires top.IsTree() && Mirrored(top) && sub in top.family && sub.IsTree() && s in sub.family && s != sub
    ensures s in top.family && s.beacon.parent in Beacons(top)
    decreases sub.height
  {
    var c :| c in sub.children && s in c.family;
    SubtreeIsTree(top, sub);
    assert c in c.family;
    if s == c {
      assert sub.beacon in Beacons(top);
    } else {
      ParentIsBeacon(top, c, s);
    }
  }

  /** A crash anywhere in a tree of services without supervisors crashes the whole tree, and
      nothing outside it; a supervised service takes only those below it along. */
  method CrashInTree(top: Service, s: Service, reason: int, ghost world: set<Service>)
    requires top.IsTree() && Mirrored(top) && s in top.family && !s.crashed && top.family <= world
    requires s.beacon.root != null ==> s.beacon.root.data.IsTree() && s.beacon.root.data.family <= world
    modifies world`crashed, world`crashReason
    ensures Marked(if s.supervised then s.family else top.family, reason)
    ensures forall x :: x in world && x !in (if s.supervised then s.family else top.family) ==>
              x.crashed == old(x.crashed) && x.crashReason == old(x.crashReason)
  {
    hide Service.IsTree;
    hide Involved;
    hide Carries;
    hide UpwardClosed;
    hide Hit;
    BeaconsInvolved(top, s, world);
    SubtreeIsTree(top, s);
    ghost var nodes := Beacons(top);
    var woke;
    ghost var seen;
    woke, seen := s.Crash(reason, nodes, world);
    if !s.supervised {
      UpToTop(top, top, s, seen);
      BeaconsInvolved(top, s, world);
      assert nodes <= Beacons(top);
      TopHit(top, seen, s.beacon.root);
    } else {
      NoneHit(s.beacon.root);
    }
  }

  lemma TopHit(top: Service, seen: set<Node<Service>>, root: Node?<Service>)
    requires top.beacon != null && top.beacon in seen && top.beacon.parent == null && top.beacon.data == top
    requires forall n, x :: n in seen && Carries(n, x) ==> x in top.family
    ensures forall x :: Hit(x, seen, root) <==> x in top.family
  {
    forall x | x in top.family
      ensures Carries(top.beacon, x)
    {}
  }

  // ---- The order of hooks ----

  /** The services on which `hook` was called, in order. */
  ghost function Called(log: seq<Event>, hook: Hook): seq<Service> {
    if log == [] then []
    else Called(log[..|log| - 1], hook) +
         (if log[|log| - 1].hook == hook then [log[|log| - 1].service] else [])
  }

  lemma {:induction false} CalledConcat(a: seq<Event>, b: seq<Event>, hook: Hook)
    ensures Called(a + b, hook) == Called(a, hook) + Called(b, hook)
  {
    if b == [] {
      assert a + b == a;
    } else {
      assert (a + b)[..|a + b| - 1] == a + b[..|b| - 1];
      CalledConcat(a, b[..|b| - 1], hook);
    }
  }

  /** Between two moments no `on_start` was called. */
  ghost predicate NoStarts(log: seq<Event>, log': seq<Event>) {
    Called(log', OnStart) == Called(log, OnStart)
  }

  /** How a start finds the services: those never restarted, those started already, and those
      that should stop. */
  datatype Scene = Scene(first: set<Service>, up: set<Service>, halted: set<Service>) {
    ghost predicate Calm() {
      up == {} && halted == {}
    }
  }

  /** After a reset: all have been restarted, none is started and none should stop. */
  ghost const RESET: Scene := Scene({}, {}, {})

  /** The hooks called when a tree is started. */
  ghost function StartTrace(s: Service, scene: Scene): seq<Event>
    requires s.IsTree()
    decreases s.height, |s.children| + 1
  {
    if s in scene.up then []
    else (if s in scene.first then [Event(OnFirstStart, s)] else []) +
         if s in scene.halted then []
         else [Event(OnStart, s)] + StartAll(s.children, scene, s.height) + [Event(OnStarted, s)]
  }

  ghost function StartAll(cs: seq<Service>, scene: Scene, h: nat): seq<Event>
    requires forall c :: c in cs ==> c.IsTree() && c.height < h
    decreases h, |cs|
  {
    if cs == [] then []
    else StartAll(cs[..|cs| - 1], scene, h) + StartTrace(cs[|cs| - 1], scene)
  }

  /** The hooks called when a tree is stopped in which those in `down` are stopped already. */
  ghost function StopTrace(s: Service, down: set<Service>): seq<Event>
    requires s.IsTree()
    decreases s.height, |s.children| + 1
  {
    if s in down then []
    else [Event(OnStop, s)] + StopAll(s.children, down, s.height) + [Event(OnShutdown, s)]
  }

  ghost function StopAll(cs: seq<Service>, down: set<Service>, h: nat): seq<Event>
    requires forall c :: c in cs ==> c.IsTree() && c.height < h
    decreases h, |cs|
  {
    if cs == [] then []
    else StopTrace(cs[|cs| - 1], down) + StopAll(cs[..|cs| - 1], down, h)
  }

  /** A stop calls no other hooks than `on_stop` and `on_shutdown`. */
  lemma {:induction false} StopCallsNoOther(s: Service, down: set<Service>, hook: Hook)
    requires s.IsTree() && hook !in {OnStop, OnShutdown}
    ensures Called(StopTrace(s, down), hook) == []
    decreases s.height, |s.children| + 1
  {
    hide StopTrace;
    hide StopAll;
    hide Called;
    hide Service.IsTree;
    s.TreeFacts();
    s.StopTraceIs(down);
    CalledNone(hook);
    StopAllCallsNoOther(s.children, down, s.height, hook);
    var below := StopAll(s.children, down, s.height);
    CalledOne(Event(OnStop, s), hook);
    CalledOne(Event(OnShutdown, s), hook);
    CalledConcat([Event(OnStop, s)], below, hook);
    CalledConcat([Event(OnStop, s)] + below, [Event(OnShutdown, s)], hook);
  }

  lemma {:induction false} StopAllCallsNoOther(cs: seq<Service>, down: set<Service>, h: nat, hook: Hook)
    requires forall c :: c in cs ==> c.IsTree() && c.height < h
    requires hook !in {OnStop, OnShutdown}
    ensures Called(StopAll(cs, down, h), hook) == []
    decreases h, |cs|
  {
    hide StopTrace;
    hide Called;
    hide Service.IsTree;
    if cs == [] {
      CalledNone(hook);
    } else {
      var init, last := cs[..|cs| - 1], cs[|cs| - 1];
      StopAllCallsNoOther(init, down, h, hook);
      StopCallsNoOther(last, down, hook);
      CalledConcat(StopTrace(last, down), StopAll(init, down, h), hook);
    }
  }

  /** A start calls no other hooks than `on_first_start`, `on_start` and `on_started`. */
  lemma {:induction false} StartCallsNoOther(s: Service, scene: Scene, hook: Hook)
    requires s.IsTree() && hook in {OnStop, OnShutdown, OnRestart}
    ensures Called(StartTrace(s, scene), hook) == []
    decreases s.height, |s.children| + 1
  {
    hide StartTrace;
    hide StartAll;
    hide Called;
    hide Service.IsTree;
    s.TreeFacts();
    s.StartTraceIs(scene);
    CalledNone(hook);
    StartAllCallsNoOther(s.children, scene, s.height, hook);
    var first := if s in scene.first then [Event(OnFirstStart, s)] else [];
    var below := StartAll(s.children, scene, s.height);
    CalledOne(Event(OnFirstStart, s), hook);
    CalledOne(Event(OnStart, s), hook);
    CalledOne(Event(OnStarted, s), hook);
    CalledConcat([Event(OnStart, s)], below, hook);
    CalledConcat([Event(OnStart, s)] + below, [Event(OnStarted, s)], hook);
    CalledConcat(first, [Event(OnStart, s)] + below + [Event(OnStarted, s)], hook);
    assert first + [] == first;
  }

  lemma {:induction false} StartAllCallsNoOther(cs: seq<Service>, scene: Scene, h: nat, hook: Hook)
    requires forall c :: c in cs ==> c.IsTree() && c.height < h
    requires hook in {OnStop, OnShutdown, OnRestart}
    ensures Called(StartAll(cs, scene, h), hook) == []
    decreases h, |cs|
  {
    hide StartTrace;
    hide Called;
    hide Service.IsTree;
    if cs == [] {
      CalledNone(hook);
    } else {
      var init, last := cs[..|cs| - 1], cs[|cs| - 1];
      StartAllCallsNoOther(init, scene, h, hook);
      StartCallsNoOther(last, scene, hook);
      CalledConcat(StartAll(init, scene, h), StartTrace(last, scene), hook);
    }
  }

  /** Children are started one after the other, in order, and stopped in the reverse order. */
  lemma {:induction false} ChildrenTakeTurns(a: seq<Service>, b: seq<Service>, scene: Scene, down: set<Service>, h: nat)
    requires forall c :: c in a || c in b ==> c.IsTree() && c.height < h
    ensures StartAll(a + b, scene, h) == StartAll(a, scene, h) + StartAll(b, scene, h)
    ensures StopAll(a + b, down, h) == StopAll(b, down, h) + StopAll(a, down, h)
    decreases |b|
  {
    hide StartTrace;
    hide StopTrace;
    hide Service.IsTree;
    if b == [] {
      assert a + b == a;
    } else {
      var init, last := b[..|b| - 1], b[|b| - 1];
      assert (a + b)[..|a + b| - 1] == a + init && (a + b)[|a + b| - 1] == last;
      ChildrenTakeTurns(a, init, scene, down, h);
    }
  }

  ghost function MaxHeight(children: seq<Service>): nat {
    if children == [] then 0
    else var rest := MaxHeight(children[1..]); if children[0].height > rest then children[0].height else rest
  }

  lemma {:induction false} AboveAll(children: seq<Service>)
    ensures forall c :: c in children ==> c.height <= MaxHeight(children)
  {
    if children == [] {
    } else {
      AboveAll(children[1..]);
      assert children == [children[0]] + children[1..];
    }
  }

  // ---- Stopping mirrors starting ----

  /** The hook that a stop calls where a start calls `hook`. */
  function Mirror(hook: Hook): Hook {
    match hook
    case OnStarted => OnStop
    case OnStart => OnShutdown
    case _ => hook
  }

  /** The services are stopped (`on_stop`) in exactly the reverse of the order in which they
      were started (`on_started`), and shut down (`on_shutdown`) in exactly the reverse of the
      order in which they began to start (`on_start`). */
  lemma {:induction false} StopMirrorsStart(s: Service, scene: Scene, hook: Hook)
    requires s.IsTree() && scene.Calm() && hook in {OnStarted, OnStart}
    ensures Called(StopTrace(s, {}), Mirror(hook)) == Reverse(Called(StartTrace(s, scene), hook))
    decreases s.height, |s.children| + 1
  {
    hide StartTrace;
    hide StartAll;
    hide StopTrace;
    hide StopAll;
    hide Called;
    hide Service.IsTree;
    s.TreeFacts();
    s.StartTraceIs(scene);
    s.StopTraceIs({});
    StopAllMirrorsStartAll(s.children, s.height, scene, hook);
    StartedAround(s, scene, StartAll(s.children, scene, s.height), hook);
    StoppedAround(s, StopAll(s.children, {}, s.height), Mirror(hook));
    var mid := Called(StartAll(s.children, scene, s.height), hook);
    ReverseConcat(mid, [s]);
    ReverseConcat([s], mid);
    assert Reverse([s]) == [s];
  }

  lemma CalledOne(e: Event, hook: Hook)
    ensures Called([e], hook) == if e.hook == hook then [e.service] else []
  {
    assert [e][..0] == [];
  }

  /** A start calls `on_first_start` and `on_start` before, and `on_started` after, everything below. */
  lemma StartedAround(s: Service, scene: Scene, below: seq<Event>, hook: Hook)
    requires hook in {OnFirstStart, OnStart, OnStarted}
    ensures Called((if s in scene.first then [Event(OnFirstStart, s)] else []) +
                   ([Event(OnStart, s)] + below + [Event(OnStarted, s)]), hook) ==
            match hook
            case OnFirstStart => (if s in scene.first then [s] else []) + Called(below, hook)
            case OnStart => [s] + Called(below, hook)
            case _ => Called(below, hook) + [s]
  {
    hide Called;
    var again := [Event(OnStart, s)];
    var begin := if s in scene.first then [Event(OnFirstStart, s)] else [];
    CalledOne(Event(OnFirstStart, s), hook);
    CalledOne(Event(OnStart, s), hook);
    CalledOne(Event(OnStarted, s), hook);
    CalledNone(hook);
    CalledConcat(again, below, hook);
    CalledConcat(again + below, [Event(OnStarted, s)], hook);
    CalledConcat(begin, again + below + [Event(OnStarted, s)], hook);
  }

  lemma CalledNone(hook: Hook)
    ensures Called([], hook) == []
  {}

  lemma StoppedAround(s: Service, below: seq<Event>, hook: Hook)
    requires hook in {OnStop, OnShutdown}
    ensures Called([Event(OnStop, s)] + below + [Event(OnShutdown, s)], hook) ==
            if hook == OnStop then [s] + Called(below, hook) else Called(below, hook) + [s]
  {
    hide Called;
    CalledOne(Event(OnStop, s), hook);
    CalledOne(Event(OnShutdown, s), hook);
    CalledConcat([Event(OnStop, s)], below, hook);
    CalledConcat([Event(OnStop, s)] + below, [Event(OnShutdown, s)], hook);
  }

  lemma {:induction false} StopAllMirrorsStartAll(cs: seq<Service>, h: nat, scene: Scene, hook: Hook)
    requires forall c :: c in cs ==> c.IsTree() && c.height < h
    requires scene.Calm() && hook in {OnStarted, OnStart}
    ensures Called(StopAll(cs, {}, h), Mirror(hook)) == Reverse(Called(StartAll(cs, scene, h), hook))
    decreases h, |cs|
  {
    hide StartTrace;
    hide StopTrace;
    hide Service.IsTree;
    if cs == [] {
    } else {
      var init, last := cs[..|cs| - 1], cs[|cs| - 1];
      StopAllMirrorsStartAll(init, h, scene, hook);
      StopMirrorsStart(last, scene, hook);
      CalledConcat(StopTrace(last, {}), StopAll(init, {}, h), Mirror(hook));
      CalledConcat(StartAll(init, scene, h), StartTrace(last, scene), hook);
      ReverseConcat(Called(StartAll(init, scene, h), hook), Called(StartTrace(last, scene), hook));
    }
  }

  /** A tree that is started and then stopped. */
  method StartThenStop(s: Service) returns (ghost starting: seq<Event>, ghost stopping: seq<Event>)
    requires s.IsTree() && s.Untouched()
    modifies s.family, s.journal
    ensures s.journal.log == old(s.journal.log) + starting + stopping
    ensures Called(stopping, OnStop) == Reverse(Called(starting, OnStarted))
    ensures Called(stopping, OnShutdown) == Reverse(Called(starting, OnStart))
    ensures multiset(Called(starting, OnStart)) == multiset(s.family)
    ensures forall x :: x in s.family ==> x.started && x.stopped
  {
    hide StartTrace;
    hide StopTrace;
    hide Called;
    hide Cleared;
    hide Reached;
    hide Service.IsTree;
    ghost var scene := Scene(set x | x in s.family && x.restartCount == 0, {}, {});
    starting, stopping := StartTrace(s, scene), StopTrace(s, {});
    var ok := s.Start(scene);
    s.Stop({});
    s.AllStoppedNow({});
    StopMirrorsStart(s, scene, OnStarted);
    StopMirrorsStart(s, scene, OnStart);
    StartsTheFamily(s, scene);
  }

  /** A start of a tree that is neither started nor should stop calls `on_start` exactly once on every
      service of the tree, and on no other. */
  lemma StartsTheFamily(s: Service, scene: Scene)
    requires s.IsTree() && scene.Calm()
    ensures multiset(Called(StartTrace(s, scene), OnStart)) == multiset(s.family)
  {
    hide StartTrace;
    hide Called;
    hide Service.IsTree;
    StartCalls(s, scene, OnStart);
    assert Cleared(s, scene.up + scene.halted) == s.family;
  }

  // ---- Which services a start or a stop gets to ----

  /** Those with neither themselves nor a service above them, up to `s`, in `out`. */
  ghost function Cleared(s: Service, out: set<Service>): set<Service> {
    set x | x in s.family && forall y :: y in s.family && x in y.family ==> y !in out
  }

  /** Those not yet started that have no service above them, up to `s`, that is started already
      or should stop. */
  ghost function Reached(s: Service, scene: Scene): set<Service> {
    set x | x in s.family &&
            forall y :: y in s.family && x in y.family ==> y !in scene.up && (y == x || y !in scene.halted)
  }

  /** The services on which a start calls the hook. */
  ghost function Shown(s: Service, scene: Scene, hook: Hook): set<Service> {
    if hook == OnFirstStart then Reached(s, scene) * scene.first else Cleared(s, scene.up + scene.halted)
  }

  lemma NotCleared(s: Service, x: Service, out: set<Service>)
    requires s.IsTree() && x in out
    ensures x !in Cleared(s, out)
  {
    if x in s.family {
      SubtreeIsTree(s, x);
    }
  }

  /** Above a service in the tree of a child there are those above it there, and `s`. */
  lemma AboveInChild(s: Service, c: Service, x: Service)
    requires s.IsTree() && c in s.children && x in c.family
    ensures forall y :: y in s.family && x in y.family <==> y == s || (y in c.family && x in y.family)
  {
    hide Service.IsTree;
    s.TreeFacts();
    s.MembersAreBelow();
    forall y | y in s.family && x in y.family && y != s
      ensures y in c.family
    {
      var k :| 0 <= k < |s.children| && y in s.children[k].family;
      assert s.children[k] in s.children;
      SubtreeIsTree(s.children[k], y);
      var j :| 0 <= j < |s.children| && s.children[j] == c;
    }
  }

  lemma AboveSelf(s: Service)
    requires s.IsTree()
    ensures forall y :: y in s.family && s in y.family <==> y == s
  {
    hide Service.IsTree;
    s.TreeFacts();
    s.MembersAreBelow();
    forall y | y in s.family && s in y.family && y != s
      ensures false
    {
      var k :| 0 <= k < |s.children| && y in s.children[k].family;
      assert s.children[k] in s.children;
      SubtreeIsTree(s.children[k], y);
    }
  }

  lemma ReachedHere(s: Service, scene: Scene)
    requires s.IsTree()
    ensures s in Reached(s, scene) <==> s !in scene.up
    ensures s in scene.up || s in scene.halted ==> forall x :: x in Reached(s, scene) ==> x == s
  {
    hide Service.IsTree;
    s.TreeFacts();
    AboveSelf(s);
  }

  lemma ClearedHere(s: Service, out: set<Service>)
    requires s.IsTree()
    ensures s in Cleared(s, out) <==> s !in out
    ensures s in out ==> Cleared(s, out) == {}
  {
    hide Service.IsTree;
    s.TreeFacts();
    AboveSelf(s);
  }

  lemma InChild(s: Service, c: Service, x: Service, scene: Scene, out: set<Service>)
    requires s.IsTree() && c in s.children && x in c.family
    ensures x in Reached(s, scene) <==> s !in scene.up && s !in scene.halted && x in Reached(c, scene)
    ensures x in Cleared(s, out) <==> s !in out && x in Cleared(c, out)
  {
    hide Service.IsTree;
    s.TreeFacts();
    AboveInChild(s, c, x);
  }

  ghost function ShownAll(cs: seq<Service>, scene: Scene, hook: Hook): set<Service> {
    set c, x | c in cs && x in Shown(c, scene, hook) :: x
  }

  lemma ShownIs(s: Service, scene: Scene, hook: Hook)
    requires s.IsTree()
    ensures s in scene.up || s in scene.halted ==>
              Shown(s, scene, hook) ==
              if hook == OnFirstStart && s !in scene.up && s in scene.first then {s} else {}
    ensures s !in scene.up && s !in scene.halted ==>
              multiset(Shown(s, scene, hook)) ==
              multiset(if hook == OnFirstStart && s !in scene.first then {} else {s}) +
              multiset(ShownAll(s.children, scene, hook))
  {
    hide Service.IsTree;
    hide Reached;
    hide Cleared;
    s.TreeFacts();
    ReachedHere(s, scene);
    ClearedHere(s, scene.up + scene.halted);
    if s !in scene.up && s !in scene.halted {
      var own := if hook == OnFirstStart && s !in scene.first then {} else {s};
      ShownInFamily(s, scene, hook);
      ShownBelow(s, scene, hook);
      OneAndTheRest(Shown(s, scene, hook), s, own, ShownAll(s.children, scene, hook));
    }
  }

  lemma OneAndTheRest<T>(all: set<T>, one: T, own: set<T>, rest: set<T>)
    requires (forall x :: x in all && x != one <==> x in rest) && own == if one in all then {one} else {}
    ensures multiset(all) == multiset(own) + multiset(rest)
  {
    assert all == own + rest && own !! rest;
  }

  lemma ShownInFamily(s: Service, scene: Scene, hook: Hook)
    ensures Shown(s, scene, hook) <= s.family
  {}

  lemma ShownBelow(s: Service, scene: Scene, hook: Hook)
    requires s.IsTree() && s !in scene.up && s !in scene.halted
    ensures forall x :: x in Shown(s, scene, hook) && x != s <==> x in ShownAll(s.children, scene, hook)
  {
    hide Service.IsTree;
    hide Reached;
    hide Cleared;
    s.TreeFacts();
    s.MembersAreBelow();
    var out := scene.up + scene.halted;
    ShownInFamily(s, scene, hook);
    forall c, x | c in s.children && x in c.family
      ensures x in Shown(s, scene, hook) <==> x in Shown(c, scene, hook)
    {
      InChild(s, c, x, scene, out);
    }
    forall x | x in Shown(s, scene, hook) && x != s
      ensures x in ShownAll(s.children, scene, hook)
    {
      var k :| 0 <= k < |s.children| && x in s.children[k].family;
      assert s.children[k] in s.children && x in Shown(s.children[k], scene, hook);
    }
    forall x | x in ShownAll(s.children, scene, hook)
      ensures x in Shown(s, scene, hook) && x != s
    {
      var c :| c in s.children && x in Shown(c, scene, hook);
      ShownInFamily(c, scene, hook);
    }
  }

  /** A start calls each hook exactly once on every service that the scene lets it get to, and on no
      other: `on_first_start` on those reached for the first time, `on_start` and `on_started` on those
      that should not stop either. */
  lemma {:induction false} StartCalls(s: Service, scene: Scene, hook: Hook)
    requires s.IsTree() && hook in {OnFirstStart, OnStart, OnStarted}
    ensures multiset(Called(StartTrace(s, scene), hook)) == multiset(Shown(s, scene, hook))
    decreases s.height, |s.children| + 1
  {
    hide StartTrace;
    hide StartAll;
    hide Called;
    hide Shown;
    hide ShownAll;
    hide Service.IsTree;
    s.TreeFacts();
    s.StartTraceIs(scene);
    CalledNone(hook);
    CalledOne(Event(OnFirstStart, s), hook);
    ShownIs(s, scene, hook);
    var first := if s in scene.first then [Event(OnFirstStart, s)] else [];
    assert first + [] == first;
    if s !in scene.up && s !in scene.halted {
      StartAllCalls(s.children, scene, s.height, hook);
      StartedAround(s, scene, StartAll(s.children, scene, s.height), hook);
    }
  }

  lemma {:induction false} StartAllCalls(cs: seq<Service>, scene: Scene, h: nat, hook: Hook)
    requires forall c :: c in cs ==> c.IsTree() && c.height < h
    requires forall i, j :: 0 <= i < j < |cs| ==> cs[i].family !! cs[j].family
    requires hook in {OnFirstStart, OnStart, OnStarted}
    ensures multiset(Called(StartAll(cs, scene, h), hook)) == multiset(ShownAll(cs, scene, hook))
    decreases h, |cs|
  {
    hide StartTrace;
    hide Called;
    hide Shown;
    hide Service.IsTree;
    if cs == [] {
      CalledNone(hook);
      assert ShownAll(cs, scene, hook) == {};
    } else {
      var init, last := cs[..|cs| - 1], cs[|cs| - 1];
      StartAllCalls(init, scene, h, hook);
      StartCalls(last, scene, hook);
      CalledConcat(StartAll(init, scene, h), StartTrace(last, scene), hook);
      ShownGrows(cs, scene, hook);
    }
  }

  lemma ShownGrows(cs: seq<Service>, scene: Scene, hook: Hook)
    requires |cs| > 0
    requires forall i, j :: 0 <= i < j < |cs| ==> cs[i].family !! cs[j].family
    ensures multiset(ShownAll(cs, scene, hook)) ==
            multiset(ShownAll(cs[..|cs| - 1], scene, hook)) + multiset(Shown(cs[|cs| - 1], scene, hook))
  {
    hide Shown;
    var init, last := cs[..|cs| - 1], cs[|cs| - 1];
    assert cs == init + [last];
    forall c | c in cs
      ensures Shown(c, scene, hook) <= c.family
    {
      ShownInFamily(c, scene, hook);
    }
    assert ShownAll(cs, scene, hook) == ShownAll(init, scene, hook) + Shown(last, scene, hook);
    assert ShownAll(init, scene, hook) !! Shown(last, scene, hook);
  }

  ghost function ClearedAll(cs: seq<Service>, out: set<Service>): set<Service> {
    set c, x | c in cs && x in Cleared(c, out) :: x
  }

  lemma ClearedInFamily(s: Service, out: set<Service>)
    ensures Cleared(s, out) <= s.family
  {}

  lemma ClearedIs(s: Service, out: set<Service>)
    requires s.IsTree()
    ensures s in out ==> Cleared(s, out) == {}
    ensures s !in out ==> multiset(Cleared(s, out)) == multiset{s} + multiset(ClearedAll(s.children, out))
  {
    hide Service.IsTree;
    hide Cleared;
    s.TreeFacts();
    s.MembersAreBelow();
    ClearedHere(s, out);
    ClearedInFamily(s, out);
    if s !in out {
      forall c, x | c in s.children && x in c.family
        ensures x in Cleared(s, out) <==> x in Cleared(c, out)
      {
        InChild(s, c, x, RESET, out);
      }
      forall x | x in Cleared(s, out) && x != s
        ensures x in ClearedAll(s.children, out)
      {
        var k :| 0 <= k < |s.children| && x in s.children[k].family;
        assert s.children[k] in s.children && x in Cleared(s.children[k], out);
      }
      forall x | x in ClearedAll(s.children, out)
        ensures x in Cleared(s, out) && x != s
      {
        var c :| c in s.children && x in Cleared(c, out);
        ClearedInFamily(c, out);
      }
      OneAndTheRest(Cleared(s, out), s, {s}, ClearedAll(s.children, out));
    }
  }

  /** A stop calls `on_stop` and `on_shutdown` exactly once on every service that has neither been
      stopped itself nor hangs below one that has, and on no other. */
  lemma {:induction false} StopCalls(s: Service, down: set<Service>, hook: Hook)
    requires s.IsTree() && hook in {OnStop, OnShutdown}
    ensures multiset(Called(StopTrace(s, down), hook)) == multiset(Cleared(s, down))
    decreases s.height, |s.children| + 1
  {
    hide StopTrace;
    hide StopAll;
    hide Called;
    hide Cleared;
    hide ClearedAll;
    hide Service.IsTree;
    s.TreeFacts();
    s.StopTraceIs(down);
    CalledNone(hook);
    ClearedIs(s, down);
    if s !in down {
      StopAllCalls(s.children, down, s.height, hook);
      StoppedAround(s, StopAll(s.children, down, s.height), hook);
    }
  }

  lemma {:induction false} StopAllCalls(cs: seq<Service>, down: set<Service>, h: nat, hook: Hook)
    requires forall c :: c in cs ==> c.IsTree() && c.height < h
    requires forall i, j :: 0 <= i < j < |cs| ==> cs[i].family !! cs[j].family
    requires hook in {OnStop, OnShutdown}
    ensures multiset(Called(StopAll(cs, down, h), hook)) == multiset(ClearedAll(cs, down))
    decreases h, |cs|
  {
    hide StopTrace;
    hide Called;
    hide Cleared;
    hide Service.IsTree;
    if cs == [] {
      CalledNone(hook);
      assert ClearedAll(cs, down) == {};
    } else {
      var init, last := cs[..|cs| - 1], cs[|cs| - 1];
      StopAllCalls(init, down, h, hook);
      StopCalls(last, down, hook);
      CalledConcat(StopTrace(last, down), StopAll(init, down, h), hook);
      ClearedGrows(cs, down);
    }
  }

  lemma ClearedGrows(cs: seq<Service>, out: set<Service>)
    requires |cs| > 0
    requires forall i, j :: 0 <= i < j < |cs| ==> cs[i].family !! cs[j].family
    ensures multiset(ClearedAll(cs, out)) ==
            multiset(ClearedAll(cs[..|cs| - 1], out)) + multiset(Cleared(cs[|cs| - 1], out))
  {
    hide Cleared;
    var init, last := cs[..|cs| - 1], cs[|cs| - 1];
    assert cs == init + [last];
    forall c | c in cs
      ensures Cleared(c, out) <= c.family
    {
      ClearedInFamily(c, out);
    }
    assert ClearedAll(cs, out) == ClearedAll(init, out) + Cleared(last, out);
    assert ClearedAll(init, out) !! Cleared(last, out);
  }
}
