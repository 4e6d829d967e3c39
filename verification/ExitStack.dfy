/** `mode/utils/_py37_contextlib.py`: exit stacks as nested `with` statements. */
module ExitStacks {
  import opened Sequences

  /** An exception object; `context` is its `__context__`. */
  class Exc {
    var context: Exc?

    constructor (context: Exc?)
      ensures this.context == context
    {
      this.context := context;
    }
  }

  // ---- Chains of contexts ----

  /** Following `context` from `s[0]` passes through exactly `s` and then arrives at `end`. */
  ghost predicate Linked(s: seq<Exc>, end: Exc?)
    reads s
  {
    && (forall i :: 0 <= i < |s| - 1 ==> s[i].context == s[i + 1])
    && (s != [] ==> s[|s| - 1].context == end)
  }

  function Head(s: seq<Exc>): Exc? {
    if s == [] then null else s[0]
  }

  lemma LinkedAppend(p: seq<Exc>, q: seq<Exc>, end: Exc?)
    requires p != [] && Linked(p, if q == [] then end else q[0]) && Linked(q, end)
    ensures Linked(p + q, end)
  {}

  /** Chains that end at null and start at the same exception are the same. */
  lemma {:induction false} ChainsAgree(s: seq<Exc>, t: seq<Exc>)
    requires s != [] && t != [] && s[0] == t[0] && Linked(s, null) && Linked(t, null)
    ensures s == t
  {
    assert s == [s[0]] + s[1..] && t == [t[0]] + t[1..];
    assert |s| > 1 ==> s[0].context == s[1];
    assert |t| > 1 ==> t[0].context == t[1];
    if |s| > 1 && |t| > 1 {
      ChainsAgree(s[1..], t[1..]);
    }
  }

  /** A chain that ends at null has no repetition, so no walk along it can run for ever. */
  lemma {:induction false} FiniteChainIsAcyclic(s: seq<Exc>, i: nat, j: nat)
    requires Linked(s, null) && i < j < |s|
    ensures s[i] != s[j]
  {
    if s[i] == s[j] {
      ChainsAgree(s[i..], s[j..]);
    }
  }

  // ---- What callbacks do ----

  datatype Reaction = Returns(truthy: bool) | Raises

  /** A callback reacts to the exception it is given.  If it raises, it raises `own[0]`, whose
      private context is `own[1]`, `own[2]`, ...; a stack calls it only once. */
  datatype Callback = Callback(react: Exc? -> Reaction, own: seq<Exc>)

  /** One block left: the exception that leaves it, with its contexts ([] when none leaves it),
      and every exit call so far with the exception it was given. */
  datatype Run = Run(active: seq<Exc>, calls: seq<(Callback, Exc?)>)

  /** PEP 343: `with cb: BLOCK`, where BLOCK ran as `block`.  The exit call sees the exception
      of the block; its value matters only if there is one; an exception it raises has the one
      it was handling as its context. */
  ghost function With(cb: Callback, block: Run): Run {
    var calls := block.calls + [(cb, Head(block.active))];
    match cb.react(Head(block.active))
    case Returns(truthy) => Run(if block.active != [] && truthy then [] else block.active, calls)
    case Raises => Run(cb.own + block.active, calls)
  }

  /** `with cbs[0]: with cbs[1]: ... BODY`, where BODY ends with the exception `body[0]`, if any. */
  ghost function Nested(cbs: seq<Callback>, body: seq<Exc>): Run {
    if cbs == [] then Run(body, []) else With(cbs[0], Nested(cbs[1..], body))
  }

  /** How `__exit__` ends: by returning a truth value or by raising. */
  datatype Exit = Returned(swallow: bool) | Raised(exc: Exc)

  /** The exception that leaves `with stack: BODY` given how the stack's `__exit__` ended. */
  function Leaves(received: Exc?, exit: Exit): Exc? {
    match exit
    case Raised(e) => e
    case Returned(swallow) => if swallow then null else received
  }

  // ---- What nesting means for the calls and for the chain of contexts ----

  /** What callback `i` is given: the callbacks run from the last to the first. */
  ghost function SeenBy(cbs: seq<Callback>, i: nat, body: seq<Exc>): Exc?
    requires i < |cbs|
  {
    Head(Nested(cbs[i + 1..], body).active)
  }

  lemma {:induction false} CallsAreLifo(cbs: seq<Callback>, body: seq<Exc>, i: nat)
    requires i < |cbs|
    ensures |Nested(cbs, body).calls| == |cbs|
    ensures Nested(cbs, body).calls[|cbs| - 1 - i] == (cbs[i], SeenBy(cbs, i, body))
  {
    if i > 0 {
      CallsAreLifo(cbs[1..], body, i - 1);
      assert cbs[1..][i..] == cbs[i + 1..];
    } else {
      AllAreCalled(cbs[1..], body);
    }
  }

  lemma {:induction false} AllAreCalled(cbs: seq<Callback>, body: seq<Exc>)
    ensures |Nested(cbs, body).calls| == |cbs|
  {
    if cbs == [] {
    } else {
      AllAreCalled(cbs[1..], body);
    }
  }

  ghost predicate Swallows(cbs: seq<Callback>, i: nat, body: seq<Exc>)
    requires i < |cbs|
  {
    SeenBy(cbs, i, body) != null && cbs[i].react(SeenBy(cbs, i, body)) == Returns(true)
  }

  /** The chains raised by callbacks `j - 1` down to `i`, newest first. */
  ghost function RaisedChains(cbs: seq<Callback>, i: nat, j: nat, body: seq<Exc>): seq<Exc>
    requires i <= j <= |cbs|
    decreases j - i
  {
    if i == j then []
    else (if cbs[i].react(SeenBy(cbs, i, body)).Raises? then cbs[i].own else []) + RaisedChains(cbs, i + 1, j, body)
  }

  /** The chain that leaves the blocks: the private chains raised since callback `j` swallowed
      an exception, newest first; or, if nothing was swallowed, those and the body's chain. */
  lemma ChainSinceSwallow(cbs: seq<Callback>, j: nat, body: seq<Exc>)
    requires j <= |cbs| && forall m :: 0 <= m < j ==> !Swallows(cbs, m, body)
    ensures j < |cbs| && Swallows(cbs, j, body) ==> Nested(cbs, body).active == RaisedChains(cbs, 0, j, body)
    ensures j == |cbs| ==> Nested(cbs, body).active == RaisedChains(cbs, 0, j, body) + body
  {
    assert cbs[0..] == cbs;
    ChainGrows(cbs, 0, j, body);
    if j < |cbs| && Swallows(cbs, j, body) {
      assert cbs[j..][0] == cbs[j] && cbs[j..][1..] == cbs[j + 1..];
      assert Nested(cbs[j..], body).active == [];
    }
  }

  lemma {:induction false} ChainGrows(cbs: seq<Callback>, i: nat, j: nat, body: seq<Exc>)
    requires i <= j <= |cbs| && forall m :: i <= m < j ==> !Swallows(cbs, m, body)
    ensures Nested(cbs[i..], body).active == RaisedChains(cbs, i, j, body) + Nested(cbs[j..], body).active
    decreases j - i
  {
    hide Nested;
    hide SeenBy;
    hide Swallows;
    if i == j {
    } else {
      ChainGrows(cbs, i + 1, j, body);
      ActiveStep(cbs, i, body);
    }
  }

  lemma ActiveStep(cbs: seq<Callback>, i: nat, body: seq<Exc>)
    requires i < |cbs| && !Swallows(cbs, i, body)
    ensures Nested(cbs[i..], body).active ==
            (if cbs[i].react(SeenBy(cbs, i, body)).Raises? then cbs[i].own else []) + Nested(cbs[i + 1..], body).active
  {
    assert cbs[i..][0] == cbs[i] && cbs[i..][1..] == cbs[i + 1..];
    assert Nested(cbs[i..], body) == With(cbs[i], Nested(cbs[i + 1..], body));
  }

  // ---- What is assumed of the exceptions callbacks raise ----

  /** No exception of a callback is shared with the body, the surroundings or another callback. */
  ghost predicate Fresh(cbs: seq<Callback>, body: seq<Exc>, frame: Exc?) {
    && (forall i, e :: 0 <= i < |cbs| && e in cbs[i].own ==> e !in body && e != frame)
    && (forall i, j, e :: 0 <= i < |cbs| && 0 <= j < |cbs| && e in cbs[i].own && e in cbs[j].own ==> i == j)
  }

  /** What a callback raises when it is given `seen`: a chain of its own, whose oldest exception
      has as context nothing, the exception being handled around the stack, or `seen`. */
  ghost predicate Private(cb: Callback, seen: Exc?, frame: Exc?)
    reads cb.own
  {
    cb.react(seen).Raises? ==>
      && cb.own != [] && NoDup(cb.own)
      && (forall i :: 0 <= i < |cb.own| - 1 ==> cb.own[i].context == cb.own[i + 1])
      && (var c := cb.own[|cb.own| - 1].context; c == null || c == frame || c == seen)
  }

  /** Callbacks `k`, `k + 1`, ... have run: their exceptions form one chain, and what the others
      would raise is as it was. */
  ghost predicate StillFine(cbs: seq<Callback>, k: nat, body: seq<Exc>, frame: Exc?)
    requires k <= |cbs|
    reads Owned(cbs), Nested(cbs[k..], body).active
  {
    && Linked(Nested(cbs[k..], body).active, null)
    && forall i :: 0 <= i < k ==>
         assert forall e :: e in cbs[i].own ==> e in Owned(cbs);
         PrivateAt(cbs, i, body, frame)
  }

  lemma StartsFine(cbs: seq<Callback>, body: seq<Exc>, frame: Exc?)
    requires Linked(body, null) && forall i :: 0 <= i < |cbs| ==> PrivateAt(cbs, i, body, frame)
    ensures Nested(cbs[|cbs|..], body) == Run(body, []) && StillFine(cbs, |cbs|, body, frame)
  {}

  lemma EndsFine(cbs: seq<Callback>, body: seq<Exc>, frame: Exc?)
    requires StillFine(cbs, 0, body, frame)
    ensures cbs[0..] == cbs && Linked(Nested(cbs, body).active, null)
  {
    assert cbs[0..] == cbs;
  }

  ghost predicate PrivateAt(cbs: seq<Callback>, i: nat, body: seq<Exc>, frame: Exc?)
    requires i < |cbs|
    reads cbs[i].own
  {
    Private(cbs[i], SeenBy(cbs, i, body), frame)
  }

  ghost function Owned(cbs: seq<Callback>): set<Exc> {
    set i, e | 0 <= i < |cbs| && e in cbs[i].own :: e
  }

  /** The exceptions active after callback `k` come from the body and the callbacks since. */
  lemma {:induction false} ActiveIsOwned(cbs: seq<Callback>, k: nat, body: seq<Exc>)
    requires k <= |cbs|
    ensures forall e :: e in Nested(cbs[k..], body).active ==>
              e in body || exists j :: k <= j < |cbs| && e in cbs[j].own
    decreases |cbs| - k
  {
    if k < |cbs| {
      ActiveIsOwned(cbs, k + 1, body);
      assert cbs[k..][0] == cbs[k] && cbs[k..][1..] == cbs[k + 1..];
    }
  }

  /** What callback `k` raises is new to everything active before it and to the other callbacks. */
  lemma OwnIsNew(cbs: seq<Callback>, k: nat, body: seq<Exc>, frame: Exc?)
    requires k < |cbs| && Fresh(cbs, body, frame)
    ensures forall e :: e in cbs[k].own ==>
              e !in Nested(cbs[k + 1..], body).active && e != SeenBy(cbs, k, body) && e != frame && e !in body
    ensures forall i, e :: 0 <= i < k && e in cbs[k].own ==> e !in cbs[i].own
  {
    ActiveIsOwned(cbs, k + 1, body);
    hide Nested;
    var active := Nested(cbs[k + 1..], body).active;
    assert active != [] ==> active[0] in active;
  }

  // ---- Where the walk of _fix_exception_context ends ----

  /** Following `context` from `start` one passes through exactly `w`, in this order. */
  ghost predicate IsPath(w: seq<Exc>, start: Exc)
    reads w
  {
    w != [] && w[0] == start && forall i :: 0 <= i < |w| - 1 ==> w[i].context == w[i + 1]
  }

  /** A walk from `start` may stop at the last of `w`. */
  ghost predicate Stops(w: seq<Exc>, start: Exc, oldExc: Exc?, frameExc: Exc?)
    reads w
  {
    && IsPath(w, start)
    && var c := w[|w| - 1].context; c == null || c == oldExc || c == frameExc
  }

  /** ... and not before. */
  ghost predicate FirstStop(p: seq<Exc>, start: Exc, oldExc: Exc?, frameExc: Exc?)
    reads p
  {
    Stops(p, start, oldExc, frameExc) && forall i :: 1 <= i < |p| ==> p[i] != oldExc && p[i] != frameExc
  }

  /** The chain that passes through `all` and then ends, or comes round to `all[k]`. */
  ghost predicate Chain(all: seq<Exc>, k: nat)
    reads all
  {
    all != [] && k <= |all| && Linked(all, if k == |all| then null else all[k])
  }

  /** The chain ends, or the old or the frame exception is on it behind the first exception. */
  ghost predicate MeetsOldOrFrame(all: seq<Exc>, k: nat, oldExc: Exc?, frameExc: Exc?) {
    k == |all| || exists i :: 0 <= i < |all| && (i > 0 || k == 0) && (all[i] == oldExc || all[i] == frameExc)
  }

  /** The walk ends if and only if the chain of the new exception ends, or the old or the frame
      exception is on it behind the new one. */
  lemma WalkEndsExactly(all: seq<Exc>, k: nat, oldExc: Exc?, frameExc: Exc?)
    requires Chain(all, k)
    ensures (exists w: seq<Exc> :: Stops(w, all[0], oldExc, frameExc)) <==> MeetsOldOrFrame(all, k, oldExc, frameExc)
    ensures (exists p: seq<Exc> :: FirstStop(p, all[0], oldExc, frameExc)) <==>
            MeetsOldOrFrame(all, k, oldExc, frameExc)
  {
    if MeetsOldOrFrame(all, k, oldExc, frameExc) {
      var w := MeetingStops(all, k, oldExc, frameExc);
      var p := StopFirst(w, all[0], oldExc, frameExc);
    } else {
      forall w: seq<Exc> | IsPath(w, all[0])
        ensures !Stops(w, all[0], oldExc, frameExc)
      {
        var i := PathStays(all, k, w);
        assert w[|w| - 1].context == if i + 1 < |all| then all[i + 1] else all[k];
      }
    }
  }

  lemma MeetingStops(all: seq<Exc>, k: nat, oldExc: Exc?, frameExc: Exc?) returns (w: seq<Exc>)
    requires Chain(all, k) && MeetsOldOrFrame(all, k, oldExc, frameExc)
    ensures Stops(w, all[0], oldExc, frameExc)
  {
    if k == |all| {
      w := all;
    } else {
      var i :| 0 <= i < |all| && (i > 0 || k == 0) && (all[i] == oldExc || all[i] == frameExc);
      w := if i == 0 then all else all[..i];
    }
  }

  /** A walk along the chain stays on it. */
  lemma {:induction false} PathStays(all: seq<Exc>, k: nat, w: seq<Exc>) returns (i: nat)
    requires Chain(all, k) && IsPath(w, all[0])
    ensures i < |all| && w[|w| - 1] == all[i]
    decreases |w|
  {
    if |w| == 1 {
      i := 0;
    } else {
      var before := w[..|w| - 1];
      i := PathStays(all, k, before);
      assert before[|before| - 1].context == w[|w| - 1];
      i := if i + 1 < |all| then i + 1 else k;
    }
  }

  /** Where a walk can stop at all, there is a first place where it does. */
  lemma {:induction false} StopFirst(w: seq<Exc>, start: Exc, oldExc: Exc?, frameExc: Exc?) returns (p: seq<Exc>)
    requires Stops(w, start, oldExc, frameExc)
    ensures FirstStop(p, start, oldExc, frameExc) && p <= w
    decreases |w|
  {
    if i :| 1 <= i < |w| && (w[i] == oldExc || w[i] == frameExc) {
      assert w[i - 1].context == w[i];
      p := StopFirst(w[..i], start, oldExc, frameExc);
    } else {
      p := w;
    }
  }

  /** Up to its first stop a walk meets no exception twice. */
  lemma FirstStopIsDistinct(p: seq<Exc>, start: Exc, oldExc: Exc?, frameExc: Exc?)
    requires FirstStop(p, start, oldExc, frameExc)
    ensures NoDup(p)
  {
    forall i, j | 0 <= i < j < |p|
      ensures p[i] != p[j]
    {
      LastIsNew(p, start, oldExc, frameExc, |p| - 1 - (j - i));
      if p[i] == p[j] {
        Repeats(p, start, i, j);
      }
    }
  }

  lemma LastIsNew(p: seq<Exc>, start: Exc, oldExc: Exc?, frameExc: Exc?, m: nat)
    requires FirstStop(p, start, oldExc, frameExc) && m < |p| - 1
    ensures p[m] != p[|p| - 1]
  {
    assert p[m].context == p[m + 1];
  }

  lemma {:induction false} Repeats(p: seq<Exc>, start: Exc, i: nat, j: nat)
    requires IsPath(p, start) && i < j < |p| && p[i] == p[j]
    ensures p[|p| - 1 - (j - i)] == p[|p| - 1]
    decreases |p| - j
  {
    if j < |p| - 1 {
      assert p[i].context == p[i + 1] && p[j].context == p[j + 1];
      Repeats(p, start, i + 1, j + 1);
    }
  }

  /** Among finitely many exceptions every chain ends or comes round. */
  lemma {:induction false} EveryChainEndsOrComesRound(heap: set<Exc>, so: seq<Exc>, start: Exc)
    returns (all: seq<Exc>, k: nat)
    requires forall e :: e in heap && e.context != null ==> e.context in heap
    requires IsPath(so, start) && forall i :: 0 <= i < |so| ==> so[i] in heap
    ensures Chain(all, k) && all[0] == start
    decreases heap - set e | e in so
  {
    var next := so[|so| - 1].context;
    if next == null {
      all, k := so, |so|;
    } else if next in so {
      k :| 0 <= k < |so| && so[k] == next;
      all := so;
    } else {
      var more := so + [next];
      assert next in heap - (set e | e in so) && next in more;
      assert forall e :: e in so ==> e in more;
      all, k := EveryChainEndsOrComesRound(heap, more, start);
    }
  }

  /**
   The walk of `_fix_exception_context` along the chain `p` of `newExc`, up to the first
   exception whose context is `oldExc`, nothing or `frameExc`; `WalkEndsExactly` says when
   there is one.
   Whatever the chain of `oldExc` is, that exception is linked to it.  If the old chain is
   some `q` that ends, the new chain ends if and only if that exception was not itself part
   of `q`.
   */
  method FixExceptionContext(newExc: Exc, oldExc: Exc?, frameExc: Exc?, ghost p: seq<Exc>, ghost q: seq<Exc>)
    requires FirstStop(p, newExc, oldExc, frameExc)
    modifies p[|p| - 1]
    ensures p[|p| - 1].context == oldExc
    ensures old(oldExc == Head(q) && Linked(q, null)) && p[|p| - 1] !in q ==> Linked(p + q, null)
    ensures old(oldExc == Head(q) && Linked(q, null)) && p[|p| - 1] in q ==>
              forall s: seq<Exc> :: s != [] && s[0] == newExc ==> !Linked(s, null)
  {
    FirstStopIsDistinct(p, newExc, oldExc, frameExc);
    ghost var ends := oldExc == Head(q) && Linked(q, null);
    if ends {
      forall j, k | 0 <= j < k < |q|
        ensures q[j] != q[k]
      {
        FiniteChainIsAcyclic(q, j, k);
      }
    }
    var exc, i := newExc, 0;
    while true
      invariant 0 <= i < |p| && exc == p[i]
      invariant p[|p| - 1].context == old(p[|p| - 1].context)
      decreases |p| - i
    {
      var excContext := exc.context;
      assert i < |p| - 1 ==> excContext == p[i + 1];
      if excContext == oldExc {
        break;
      }
      if excContext == null || excContext == frameExc {
        exc.context := oldExc;
        break;
      }
      exc, i := excContext, i + 1;
    }
    assert i == |p| - 1;
    assert Linked(p, oldExc);
    if ends {
      if p[|p| - 1] !in q {
        assert Linked(q, null);
        LinkedAppend(p, q, null);
      } else {
        var k :| 0 <= k < |q| && q[k] == p[|p| - 1];
        forall s: seq<Exc> | s != [] && s[0] == newExc
          ensures !Linked(s, null)
        {
          if Linked(s, null) {
            LoopNeverEnds(p, q[..k + 1], s);
          }
        }
      }
    }
  }

  /** A callback that raises again the very exception it was given, here one without context,
      makes that exception its own context: the chain is a cycle. */
  method ReRaiseMakesCycle(exc: Exc)
    requires exc.context == null
    modifies exc
    ensures exc.context == exc
    ensures forall s: seq<Exc> :: s != [] && s[0] == exc ==> !Linked(s, null)
  {
    FixExceptionContext(exc, exc, null, [exc], [exc]);
  }

  /** If a later exception has a loop behind it that the frame exception is not on, and is in
      turn raised again, the walk of `_fix_exception_context` has no end. */
  lemma ReRaisedWalkNeverEnds(exc: Exc, loop: seq<Exc>, frameExc: Exc?)
    requires loop != [] && exc.context == loop[0] && Linked(loop, loop[0])
    requires exc !in loop && frameExc !in loop
    ensures forall w: seq<Exc> :: !Stops(w, exc, exc, frameExc)
  {
    var all := [exc] + loop;
    assert Chain(all, 1) by {
      LinkedAppend([exc], loop, loop[0]);
    }
    assert forall i :: 0 < i < |all| ==> all[i] == loop[i - 1] && all[i] in loop;
    assert all[0] == exc && !MeetsOldOrFrame(all, 1, exc, frameExc);
    WalkEndsExactly(all, 1, exc, frameExc);
    forall w: seq<Exc>
      ensures !Stops(w, exc, exc, frameExc)
    {
      assert !Stops(w, all[0], exc, frameExc);
    }
  }

  /** This comes about when one callback raises again the exception `x` it was given, and the
      next one raises `e`: if a third one then raises `e` again, its walk has no end. */
  method ReRaiseThenRaise(x: Exc, e: Exc, frameExc: Exc?)
    requires x != e && x.context == null && e.context == null && frameExc != x && frameExc != e
    modifies x, e
    ensures x.context == x && e.context == x
    ensures forall w: seq<Exc> :: !Stops(w, e, e, frameExc)
  {
    FixExceptionContext(x, x, frameExc, [x], [x]);
    FixExceptionContext(e, x, frameExc, [e], [x]);
    ReRaisedWalkNeverEnds(e, [x], frameExc);
  }

  /** A chain that leads into a loop does not end. */
  lemma LoopNeverEnds(p: seq<Exc>, loop: seq<Exc>, s: seq<Exc>)
    requires p != [] && loop != [] && p[|p| - 1] == loop[|loop| - 1]
    requires Linked(p, loop[0]) && Linked(loop, loop[0])
    requires s != [] && s[0] == p[0]
    ensures !Linked(s, null)
  {
    if Linked(s, null) {
      FollowsChain(s, p + loop, loop[0]);
      FiniteChainIsAcyclic(s, |p| - 1, |p| + |loop| - 1);
    }
  }

  /** A finite chain goes wherever the links from its first exception go, and past it. */
  lemma {:induction false} FollowsChain(s: seq<Exc>, t: seq<Exc>, end: Exc)
    requires s != [] && t != [] && s[0] == t[0] && Linked(s, null) && Linked(t, end)
    ensures t <= s && |t| < |s| && s[|t|] == end
  {
    assert |s| > 1 by {
      assert |t| > 1 ==> t[0].context == t[1];
    }
    assert s[0].context == s[1];
    if |t| > 1 {
      FollowsChain(s[1..], t[1..], end);
      assert s == [s[0]] + s[1..] && t == [t[0]] + t[1..];
    }
  }

  class ExitStack {
    var exitCallbacks: seq<Callback>

    constructor ()
      ensures exitCallbacks == []
    {
      exitCallbacks := [];
    }

    method PushExitCallback(callback: Callback)
      modifies this
      ensures exitCallbacks == old(exitCallbacks) + [callback]
    {
      exitCallbacks := exitCallbacks + [callback];
    }

    /** Hands the callbacks to a new stack, so that leaving this one runs none of them. */
    method PopAll() returns (stack: ExitStack)
      modifies this
      ensures fresh(stack) && stack.exitCallbacks == old(exitCallbacks) && exitCallbacks == []
    {
      stack := new ExitStack();
      stack.exitCallbacks := exitCallbacks;
      exitCallbacks := [];
    }

    /** Fixes the context of what callback `k` raised while handling `exc`. */
    static method FixRaised(frameExc: Exc?, exc: Exc?, cbs: seq<Callback>, k: nat, ghost body: seq<Exc>)
      requires k < |cbs| && exc == SeenBy(cbs, k, body) && cbs[k].react(exc).Raises?
      requires Fresh(cbs, body, frameExc) && StillFine(cbs, k + 1, body, frameExc)
      modifies cbs[k].own
      ensures cbs[k].own != []
      ensures Linked(cbs[k].own + Nested(cbs[k + 1..], body).active, null)
      ensures forall i :: 0 <= i < k ==> PrivateAt(cbs, i, body, frameExc)
    {
      var p := cbs[k].own;
      ghost var active := Nested(cbs[k + 1..], body).active;
      OwnIsNew(cbs, k, body, frameExc);
      assert PrivateAt(cbs, k, body, frameExc);
      hide Nested;
      hide Fresh;
      assert forall i :: 0 <= i < |p| ==> p[i] in p;
      FixExceptionContext(p[0], exc, frameExc, p, active);
      forall i | 0 <= i < k
        ensures PrivateAt(cbs, i, body, frameExc)
      {
        assert p[|p| - 1] !in cbs[i].own;
        assert old(PrivateAt(cbs, i, body, frameExc));
      }
    }

    /** Calls callback `k` with `exc`, as the body of the exit loop does: the exception that is
        active after it, and whether the callback swallowed `exc` or raised. */
    static method CallExit(frameExc: Exc?, exc: Exc?, cbs: seq<Callback>, k: nat, ghost body: seq<Exc>)
      returns (exc': Exc?, swallowed: bool, raised: bool)
      requires k < |cbs| && exc == SeenBy(cbs, k, body)
      requires Fresh(cbs, body, frameExc) && StillFine(cbs, k + 1, body, frameExc)
      modifies cbs[k].own
      ensures StillFine(cbs, k, body, frameExc)
      ensures Nested(cbs[k..], body).calls == Nested(cbs[k + 1..], body).calls + [(cbs[k], exc)]
      ensures exc' == Head(Nested(cbs[k..], body).active)
      ensures !swallowed && !raised ==> Nested(cbs[k..], body).active == Nested(cbs[k + 1..], body).active
      ensures swallowed ==> !raised && Nested(cbs[k..], body).active == []
      ensures raised ==> exc' != null && exc' !in body
    {
      assert cbs[k..][0] == cbs[k] && cbs[k..][1..] == cbs[k + 1..];
      OwnIsNew(cbs, k, body, frameExc);
      exc', swallowed, raised := exc, false, false;
      match cbs[k].react(exc) {
        case Returns(cbSuppress) =>
          if cbSuppress {
            exc', swallowed := null, true;
          }
        case Raises =>
          FixRaised(frameExc, exc, cbs, k, body);
          exc', raised := cbs[k].own[0], true;
      }
      hide PrivateAt;
      hide Fresh;
    }

    /** A bare raise resets the context to the exception handled around the call; the saved
        context is put back. */
    static method RaiseKeepingContext(exc: Exc, frameExc: Exc?, ghost chain: seq<Exc>)
      requires Linked(chain, null)
      modifies exc
      ensures exc.context == old(exc.context) && Linked(chain, null)
    {
      var fixedCtx := exc.context;
      exc.context := frameExc;
      exc.context := fixedCtx;
    }

    /** The loop of `__exit__`: pops and calls every callback, last one first. */
    method Unwind(received: Exc?, frameExc: Exc?, ghost body: seq<Exc>)
      returns (exc: Exc?, suppressedExc: bool, pendingRaise: bool, calls: seq<(Callback, Exc?)>)
      requires received == Head(body) && Linked(body, null)
      requires Fresh(exitCallbacks, body, frameExc)
      requires forall i :: 0 <= i < |exitCallbacks| ==> PrivateAt(exitCallbacks, i, body, frameExc)
      modifies this, Owned(exitCallbacks)
      ensures exitCallbacks == []
      ensures calls == Nested(old(exitCallbacks), body).calls
      ensures exc == Head(Nested(old(exitCallbacks), body).active)
      ensures Linked(Nested(old(exitCallbacks), body).active, null)
      ensures !pendingRaise ==> Nested(old(exitCallbacks), body).active == if suppressedExc then [] else body
      ensures pendingRaise ==> exc != null && exc !in body
    {
      hide PrivateAt;
      hide Fresh;
      hide StillFine;
      hide Nested;
      hide Linked;
      exc := received;
      suppressedExc, pendingRaise := false, false;
      calls := [];
      var cbs := exitCallbacks;
      var k := |cbs|;
      assert cbs[..k] == cbs;
      StartsFine(cbs, body, frameExc);
      while exitCallbacks != []
        invariant 0 <= k <= |cbs| && exitCallbacks == cbs[..k]
        invariant calls == Nested(cbs[k..], body).calls
        invariant exc == Head(Nested(cbs[k..], body).active)
        invariant StillFine(cbs, k, body, frameExc)
        invariant !pendingRaise ==> Nested(cbs[k..], body).active == if suppressedExc then [] else body
        invariant pendingRaise ==> exc != null && exc !in body
        decreases |exitCallbacks|
      {
        k := k - 1;
        var cb := exitCallbacks[k];
        calls := calls + [(cb, exc)];
        assert forall e :: e in cb.own ==> e in Owned(cbs);
        var swallowed, raised;
        exc, swallowed, raised := CallExit(frameExc, exc, cbs, k, body);
        if swallowed {
          suppressedExc, pendingRaise := true, false;
        } else if raised {
          pendingRaise := true;
        }
        exitCallbacks := exitCallbacks[..k];
      }
      EndsFine(cbs, body, frameExc);
    }

    /**
     `ExitStack.__exit__` and `AsyncExitStack.__aexit__`, which differ only in awaiting the
     callbacks that are not sync.  `body` is the chain of the received exception, [] for none;
     `frameExc` is the exception being handled around the call.
     */
    method Exit(received: Exc?, frameExc: Exc?, ghost body: seq<Exc>)
      returns (exit: Exit, calls: seq<(Callback, Exc?)>)
      requires received == Head(body) && Linked(body, null)
      requires Fresh(exitCallbacks, body, frameExc)
      requires forall i :: 0 <= i < |exitCallbacks| ==> PrivateAt(exitCallbacks, i, body, frameExc)
      modifies this, Owned(exitCallbacks)
      ensures exitCallbacks == []
      ensures calls == Nested(old(exitCallbacks), body).calls
      ensures Leaves(received, exit) == Head(Nested(old(exitCallbacks), body).active)
      ensures exit.Raised? ==> exit.exc !in body
      ensures exit == Returned(true) ==> received != null
      ensures Linked(Nested(old(exitCallbacks), body).active, null)
    {
      hide Nested;
      hide Fresh;
      hide PrivateAt;
      ghost var cbs := exitCallbacks;
      ActiveIsOwned(cbs, 0, body);
      assert cbs[0..] == cbs;
      assert forall j, e :: 0 <= j < |cbs| && e in cbs[j].own ==> e in Owned(cbs);
      var exc, suppressedExc, pendingRaise;
      exc, suppressedExc, pendingRaise, calls := Unwind(received, frameExc, body);
      if pendingRaise {
        assert exc in Nested(cbs, body).active;
        RaiseKeepingContext(exc, frameExc, Nested(cbs, body).active);
        exit := Raised(exc);
      } else {
        exit := Returned(received != null && suppressedExc);
      }
    }
  }
}
