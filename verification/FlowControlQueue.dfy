/** `mode/utils/queues.py`: pressure callbacks of `FlowControlQueue`. */
module FlowControlQueues {
  import opened Sequences

  /** A pressure-drop callback, by which the queue knows a producer. */
  type Callback = nat

  /** One report: the pressure is high for the producer with this callback, or the callback is
      called; `size` is the size of the queue at that time. */
  datatype Report = High(callback: Callback, size: nat) | Drop(callback: Callback, size: nat)

  function PressureHighSize(maxsize: int): int {
    (maxsize as real / 1.25).Floor
  }

  function PressureDropSize(maxsize: int): int {
    (maxsize as real * 0.40).Floor
  }

  /** The size is at least the high threshold exactly from four fifths of the maximum size on, rounded
      down; and at most the drop threshold exactly up to two fifths. */
  lemma ThresholdsAre(maxsize: int, size: int)
    ensures size >= PressureHighSize(maxsize) <==> 5 * size + 5 > 4 * maxsize
    ensures size <= PressureDropSize(maxsize) <==> 5 * size <= 2 * maxsize
  {
    var m := maxsize as real;
    assert m / 1.25 == 0.8 * m;
    assert PressureHighSize(maxsize) as real <= 0.8 * m < PressureHighSize(maxsize) as real + 1.0;
    assert PressureDropSize(maxsize) as real <= 0.4 * m < PressureDropSize(maxsize) as real + 1.0;
  }

  datatype State<T> = State(maxsize: int, queue: seq<T>, pending: set<Callback>, log: seq<Report>)

  // ---- What each operation does ----

  predicate NowHigh<T>(s: State<T>, callback: Callback) {
    callback !in s.pending && 5 * |s.queue| + 5 > 4 * s.maxsize
  }

  function Enhanced<T>(s: State<T>, value: T, callback: Callback): State<T> {
    var s' := s.(queue := s.queue + [value]);
    if NowHigh(s, callback)
    then s'.(pending := s.pending + {callback}, log := s.log + [High(callback, |s.queue|)])
    else s'
  }

  /** `called` are the callbacks called, in order: those of a set, so in any order. */
  ghost predicate Endorses<T>(s: State<T>, s': State<T>, called: seq<Callback>) {
    && s' == s.(pending := s.pending - (set c | c in called), log := s.log + Drops(called, |s.queue|))
    && NoDup(called) && (forall c :: c in called ==> c in s.pending)
    && if s.queue == [] then s'.pending == {}
       else if 5 * |s.queue| <= 2 * s.maxsize && s.pending != {} then |called| == 1
       else called == []
  }

  function Drops(called: seq<Callback>, size: nat): seq<Report> {
    seq(|called|, i requires 0 <= i < |called| => Drop(called[i], size))
  }

  class FlowControlQueue<T> {
    const maxsize: int
    var queue: seq<T>
    var pending: set<Callback>
    ghost var log: seq<Report>

    ghost function Now(): State<T>
      reads this
    {
      State(maxsize, queue, pending, log)
    }

    constructor (maxsize: int)
      ensures Now() == State(maxsize, [], {}, [])
    {
      this.maxsize := maxsize;
      queue, pending, log := [], {}, [];
    }

    /** True only for the put that finds the pressure high first. */
    method PutNowaitEnhanced(value: T, onPressureDrop: Callback) returns (high: bool)
      modifies this
      ensures high == NowHigh(old(Now()), onPressureDrop)
      ensures Now() == Enhanced(old(Now()), value, onPressureDrop)
    {
      high := InPressureHighState(onPressureDrop);
      queue := queue + [value];
    }

    method InPressureHighState(callback: Callback) returns (high: bool)
      modifies this
      ensures high == NowHigh(old(Now()), callback)
      ensures queue == old(queue)
      ensures pending == if high then old(pending) + {callback} else old(pending)
      ensures log == if high then old(log) + [High(callback, |queue|)] else old(log)
    {
      hide PressureHighSize;
      ThresholdsAre(maxsize, |queue|);
      high := false;
      if callback !in pending {
        if |queue| >= PressureHighSize(maxsize) {
          pending := pending + {callback};
          log := log + [High(callback, |queue|)];
          high := true;
        }
      }
    }

    method MaybeEndorsePressureDrop() returns (ghost called: seq<Callback>)
      modifies this
      ensures Endorses(old(Now()), Now(), called)
    {
      hide PressureDropSize;
      ThresholdsAre(maxsize, |queue|);
      called := [];
      if pending != {} {
        if queue != [] {
          if |queue| <= PressureDropSize(maxsize) {
            var callback :| callback in pending;
            pending := pending - {callback};
            called := [callback];
            log := log + Drops(called, |queue|);
          }
        } else {
          var rest := pending;
          while rest != {}
            invariant rest <= pending == old(pending) && queue == old(queue) == []
            invariant NoDup(called)
            invariant forall c :: c in pending <==> c in called || c in rest
            invariant forall c :: c in called ==> c !in rest
            invariant log == old(log) + Drops(called, 0)
          {
            var callback :| callback in rest;
            rest := rest - {callback};
            called := called + [callback];
            log := log + [Drop(callback, 0)];
          }
          pending := {};
        }
      }
      assert pending == old(pending) - (set c | c in called);
      assert log == old(log) + Drops(called, |queue|);
    }

    /** Fails (QueueEmpty in the source) on an empty queue, having called the callbacks. */
    method GetNowait() returns (value: seq<T>, ghost mid: State<T>, ghost called: seq<Callback>)
      modifies this
      ensures Endorses(old(Now()), mid, called)
      ensures value == if old(queue) == [] then [] else [old(queue)[0]]
      ensures Now() == mid.(queue := if mid.queue == [] then [] else mid.queue[1..])
    {
      called := MaybeEndorsePressureDrop();
      mid := Now();
      if queue == [] {
        return [], mid, called;
      }
      value := [queue[0]];
      queue := queue[1..];
    }

    /** `get` up to where it waits: an item that is there is then taken by `get_nowait`. */
    method GetBegins() returns (ghost called: seq<Callback>)
      modifies this
      ensures if old(queue) == [] then Endorses(old(Now()), Now(), called) else Now() == old(Now())
    {
      called := [];
      if queue == [] {
        called := MaybeEndorsePressureDrop();
      }
    }

    /** `put`, once the flow control and the size of the queue let it. */
    method Put(value: T) returns (ok: bool)
      modifies this
      ensures ok <==> maxsize <= 0 || |old(queue)| < maxsize
      ensures Now() == if ok then old(Now()).(queue := old(queue) + [value]) else old(Now())
    {
      ok := maxsize <= 0 || |queue| < maxsize;
      if ok {
        queue := queue + [value];
      }
    }

    /** The pending callbacks are kept. */
    method Clear()
      modifies this
      ensures Now() == old(Now()).(queue := [])
    {
      queue := [];
    }
  }

  // ---- Runs ----

  ghost predicate Next<T(!new)>(s: State<T>, s': State<T>) {
    || (exists value, callback :: s' == Enhanced(s, value, callback))
    || (exists mid, called :: Endorses(s, mid, called) && s' == mid)
    || (exists mid, called :: Endorses(s, mid, called) && mid.queue != [] && s' == mid.(queue := mid.queue[1..]))
    || (exists value :: (s.maxsize <= 0 || |s.queue| < s.maxsize) && s' == s.(queue := s.queue + [value]))
    || s' == s.(queue := [])
  }

  ghost predicate IsRun<T(!new)>(run: seq<State<T>>, maxsize: int) {
    && run != [] && run[0] == State(maxsize, [], {}, [])
    && forall i :: 0 <= i < |run| - 1 ==> Next(run[i], run[i + 1])
  }

  /** The reports about one callback. */
  ghost function About(log: seq<Report>, c: Callback): seq<Report> {
    if log == [] then []
    else About(log[..|log| - 1], c) + if log[|log| - 1].callback == c then [log[|log| - 1]] else []
  }

  /** A high, a drop, a high, a drop, and so on. */
  ghost predicate Alternates(reports: seq<Report>) {
    forall i :: 0 <= i < |reports| ==> (reports[i].High? <==> i % 2 == 0)
  }

  /** How many reports about `c` are highs, or are drops. */
  ghost function Count(log: seq<Report>, c: Callback, high: bool): nat {
    if log == [] then 0
    else Count(log[..|log| - 1], c, high) +
         if log[|log| - 1].High? == high && log[|log| - 1].callback == c then 1 else 0
  }

  ghost predicate WithinThresholds(maxsize: int, r: Report) {
    if r.High? then 5 * r.size + 5 > 4 * maxsize else r.size == 0 || 5 * r.size <= 2 * maxsize
  }

  ghost predicate Good<T>(s: State<T>) {
    && (forall c :: GoodFor(s, c))
    && (forall i :: 0 <= i < |s.log| ==> WithinThresholds(s.maxsize, s.log[i]))
  }

  ghost predicate GoodFor<T>(s: State<T>, c: Callback) {
    Alternates(About(s.log, c)) && (c in s.pending <==> |About(s.log, c)| % 2 == 1)
  }

  lemma {:induction false} AboutDrops(log: seq<Report>, called: seq<Callback>, size: nat, c: Callback)
    requires NoDup(called)
    ensures About(log + Drops(called, size), c) == About(log, c) + if c in called then [Drop(c, size)] else []
  {
    if called == [] {
      assert log + Drops(called, size) == log;
    } else {
      var init, last := called[..|called| - 1], called[|called| - 1];
      AboutDrops(log, init, size, c);
      var all := log + Drops(called, size);
      assert all[..|all| - 1] == log + Drops(init, size);
      assert all[|all| - 1] == Drop(last, size);
      assert c in called <==> c in init || c == last;
    }
  }

  lemma EnhancedKeepsGood<T>(s: State<T>, value: T, callback: Callback)
    requires Good(s)
    ensures Good(Enhanced(s, value, callback))
  {
    var s' := Enhanced(s, value, callback);
    if NowHigh(s, callback) {
      assert s'.log[..|s'.log| - 1] == s.log;
    }
    forall c
      ensures GoodFor(s', c)
    {
      assert GoodFor(s, c);
    }
  }

  lemma EndorsesKeepsGood<T>(s: State<T>, s': State<T>, called: seq<Callback>)
    requires Good(s) && Endorses(s, s', called)
    ensures Good(s')
  {
    forall c
      ensures GoodFor(s', c)
    {
      assert GoodFor(s, c);
      AboutDrops(s.log, called, |s.queue|, c);
    }
    forall i | 0 <= i < |s'.log|
      ensures WithinThresholds(s.maxsize, s'.log[i])
    {
      if i >= |s.log| {
        assert s'.log[i] == Drop(called[i - |s.log|], |s.queue|);
      }
    }
  }

  lemma QueueKeepsGood<T>(s: State<T>, queue: seq<T>)
    requires Good(s)
    ensures Good(s.(queue := queue))
  {
    forall c
      ensures GoodFor(s.(queue := queue), c)
    {
      assert GoodFor(s, c);
    }
  }

  lemma NextKeepsGood<T(!new)>(s: State<T>, s': State<T>)
    requires Good(s) && Next(s, s')
    ensures Good(s') && s'.maxsize == s.maxsize
  {
    hide Good;
    if value, callback :| s' == Enhanced(s, value, callback) {
      EnhancedKeepsGood(s, value, callback);
    } else if mid, called :| Endorses(s, mid, called) && s' == mid {
      EndorsesKeepsGood(s, s', called);
    } else if mid, called :| Endorses(s, mid, called) && mid.queue != [] && s' == mid.(queue := mid.queue[1..]) {
      EndorsesKeepsGood(s, mid, called);
      QueueKeepsGood(mid, mid.queue[1..]);
    } else {
      QueueKeepsGood(s, s'.queue);
    }
  }

  /** In every run of puts, gets and clears, for every callback: reports of high pressure and
      drop calls strictly alternate, and the callback is pending just when a drop is owed.
      Highs are only reported, and drops only called, on their side of the thresholds. */
  lemma {:induction false} EveryRun<T(!new)>(run: seq<State<T>>, maxsize: int)
    requires IsRun(run, maxsize)
    ensures Good(run[|run| - 1]) && run[|run| - 1].maxsize == maxsize
    decreases |run|
  {
    if |run| > 1 {
      EveryRun(run[..|run| - 1], maxsize);
      NextKeepsGood(run[|run| - 2], run[|run| - 1]);
    } else {
      assert Good(run[0]);
    }
  }

  /** The account: as many highs as drops, and one more while the callback is pending. */
  lemma HighsMinusDrops<T>(s: State<T>, c: Callback)
    requires Good(s)
    ensures Count(s.log, c, true) - Count(s.log, c, false) == if c in s.pending then 1 else 0
  {
    assert GoodFor(s, c);
    CountReports(s.log, c);
  }

  lemma {:induction false} CountReports(log: seq<Report>, c: Callback)
    requires Alternates(About(log, c))
    ensures Count(log, c, true) == (|About(log, c)| + 1) / 2
    ensures Count(log, c, false) == |About(log, c)| / 2
    decreases |log|
  {
    if log == [] {
    } else {
      var init, last := log[..|log| - 1], log[|log| - 1];
      var was, now := About(init, c), About(log, c);
      if last.callback == c {
        assert now == was + [last];
        assert forall i :: 0 <= i < |was| ==> was[i] == now[i];
        assert now[|was|] == last;
      } else {
        assert now == was;
      }
      CountReports(init, c);
    }
  }

  /** The thresholds are in order exactly when the maximum size is at least -1. */
  lemma ThresholdsInOrder(maxsize: int)
    ensures PressureDropSize(maxsize) <= PressureHighSize(maxsize) <==> maxsize >= -1
  {
    var m := maxsize as real;
    assert m / 1.25 == 0.8 * m;
    assert PressureHighSize(maxsize) as real <= 0.8 * m < PressureHighSize(maxsize) as real + 1.0;
    assert PressureDropSize(maxsize) as real <= 0.4 * m < PressureDropSize(maxsize) as real + 1.0;
  }

  /** With a maximum size of 1 or less, and only then, the pressure is high from the first item
      on: for every callback that is not pending, however empty the queue. */
  lemma AlwaysHighUpToOne<T>(s: State<T>, callback: Callback)
    requires callback !in s.pending
    ensures s.queue == [] ==> (NowHigh(s, callback) <==> s.maxsize <= 1)
    ensures s.maxsize <= 1 ==> NowHigh(s, callback)
    ensures PressureHighSize(s.maxsize) <= 0 <==> s.maxsize <= 1
  {
    ThresholdsAre(s.maxsize, 0);
  }
}
