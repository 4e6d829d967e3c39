/**
 `mode/utils/locks.py`: the event, with any number of `wait` calls and every interleaving of
 the steps between awaits.  A call of `wait` and the future it waits for share one number.
 */
module Events {

  datatype Future = Pending | Done | Cancelled

  /** Where a call of `wait` stands.  `since` counts the calls of `set` made before it queued. */
  datatype Call =
    | Waiting(since: nat, cancelRequested: bool)
    | ReturnedAtOnce
    | ReturnedTrue(since: nat)
    | RaisedCancelled

  datatype State = State(
    value: bool, waiters: seq<nat>, futures: map<nat, Future>, calls: map<nat, Call>, sets: nat)

  datatype Action = Set | Clear | Wait(call: nat) | Cancel(call: nat) | Resume(call: nat)

  const INIT := State(false, [], map[], map[], 0)

  function Resolve(futures: map<nat, Future>, waiters: seq<nat>): map<nat, Future> {
    map t | t in futures :: if t in waiters && futures[t] == Pending then Done else futures[t]
  }

  function Remove(s: seq<nat>, t: nat): seq<nat> {
    if s == [] then [] else if s[0] == t then s[1..] else [s[0]] + Remove(s[1..], t)
  }

  /** A suspended call whose future is done, one way or the other. */
  predicate Resumable(s: State, t: nat) {
    t in s.calls && s.calls[t].Waiting? && t in s.futures && s.futures[t] != Pending
  }

  /** One step of the system; a step that cannot happen in `s` changes nothing. */
  function Step(s: State, a: Action): State {
    match a
    case Set =>
      s.(sets := s.sets + 1, value := true, futures := if s.value then s.futures else Resolve(s.futures, s.waiters))
    case Clear =>
      s.(value := false)
    case Wait(t) =>
      if t in s.calls then s
      else if s.value then s.(calls := s.calls[t := ReturnedAtOnce])
      else s.(waiters := s.waiters + [t], futures := s.futures[t := Pending],
              calls := s.calls[t := Waiting(s.sets, false)])
    case Cancel(t) =>
      if t !in s.calls || !s.calls[t].Waiting? || t !in s.futures then s
      else if s.futures[t] == Pending then s.(futures := s.futures[t := Cancelled])
      else s.(calls := s.calls[t := s.calls[t].(cancelRequested := true)])
    case Resume(t) =>
      if !Resumable(s, t) then s
      else
        var released := s.futures[t] == Done && !s.calls[t].cancelRequested;
        s.(waiters := Remove(s.waiters, t),
           calls := s.calls[t := if released then ReturnedTrue(s.calls[t].since) else RaisedCancelled])
  }

  function Run(s: State, actions: seq<Action>): State
    decreases |actions|
  {
    if actions == [] then s else Run(Step(s, actions[0]), actions[1..])
  }

  // ---- What every step keeps ----

  ghost predicate Queued(s: State) {
    && (forall i, j :: 0 <= i < j < |s.waiters| ==> s.waiters[i] != s.waiters[j])
    && (forall t :: t in s.waiters <==> t in s.calls && s.calls[t].Waiting?)
    && (forall t :: t in s.waiters ==> t in s.futures)
    && (forall t :: t in s.futures ==> t in s.calls)
  }

  /** While the flag is true no queued future is pending; a future is pending exactly as long
      as `set` has not been called since it was queued and nobody cancelled it; and a call
      that returned after queueing did so after a `set`. */
  ghost predicate Inv(s: State) {
    && Queued(s)
    && (s.value ==> forall t :: t in s.waiters && t in s.futures ==> s.futures[t] != Pending)
    && (forall t :: t in s.waiters && t in s.calls && s.calls[t].Waiting? && t in s.futures ==>
          && s.calls[t].since <= s.sets
          && (s.futures[t] == Pending ==> s.sets == s.calls[t].since)
          && (s.futures[t] == Done ==> s.sets > s.calls[t].since))
    && (forall t :: t in s.calls && s.calls[t].ReturnedTrue? ==> s.calls[t].since < s.sets)
  }

  lemma {:induction false} RemoveFirst(s: seq<nat>, t: nat)
    requires forall i, j :: 0 <= i < j < |s| ==> s[i] != s[j]
    ensures forall i, j :: 0 <= i < j < |Remove(s, t)| ==> Remove(s, t)[i] != Remove(s, t)[j]
    ensures forall u :: u in Remove(s, t) <==> u in s && u != t
  {
    if s != [] && s[0] != t {
      RemoveFirst(s[1..], t);
      var rest := Remove(s[1..], t);
      assert s[0] !in s[1..] && s[0] !in rest;
      assert s == [s[0]] + s[1..];
    }
  }

  lemma SetKeepsInv(s: State)
    requires Inv(s)
    ensures Inv(Step(s, Set))
  {
    assert forall t :: t in s.waiters ==> t in s.calls && s.calls[t].Waiting?;
  }

  lemma ResumeKeepsInv(s: State, t: nat)
    requires Inv(s)
    ensures Inv(Step(s, Resume(t)))
  {
    RemoveFirst(s.waiters, t);
  }

  lemma WaitKeepsInv(s: State, t: nat)
    requires Inv(s)
    ensures Inv(Step(s, Wait(t)))
  {}

  lemma CancelKeepsInv(s: State, t: nat)
    requires Inv(s)
    ensures Inv(Step(s, Cancel(t)))
  {}

  lemma StepKeepsInv(s: State, a: Action)
    requires Inv(s)
    ensures Inv(Step(s, a))
  {
    match a
    case Set => SetKeepsInv(s); hide Inv;
    case Clear =>
    case Wait(t) => WaitKeepsInv(s, t); hide Inv;
    case Cancel(t) => CancelKeepsInv(s, t); hide Inv;
    case Resume(t) => ResumeKeepsInv(s, t); hide Inv;
  }

  lemma {:induction false} RunKeepsInv(s: State, actions: seq<Action>)
    requires Inv(s)
    ensures Inv(Run(s, actions))
    decreases |actions|
  {
    if actions == [] {
    } else {
      StepKeepsInv(s, actions[0]);
      RunKeepsInv(Step(s, actions[0]), actions[1..]);
    }
  }

  // ---- What a schedule makes of the flag and of a call ----

  /** Some `set` has no `clear` after it. */
  ghost predicate SetLast(actions: seq<Action>) {
    exists k :: 0 <= k < |actions| && actions[k] == Set && Clear !in actions[k..]
  }

  /** Call `t` enters `wait` at `i`. */
  ghost predicate EntersAt(actions: seq<Action>, t: nat, i: nat) {
    i < |actions| && actions[i] == Wait(t) && Wait(t) !in actions[..i]
  }

  ghost predicate ReleasedBy(actions: seq<Action>, t: nat, i: nat, r: nat) {
    i < r < |actions| && actions[r] == Resume(t) && Set in actions[i..r] && Cancel(t) !in actions[i..r]
  }

  ghost predicate CancelledBy(actions: seq<Action>, t: nat, i: nat, r: nat) {
    i < r < |actions| && actions[r] == Resume(t) && Cancel(t) in actions[i..r]
  }

  /** The call that entered at `i` is resumed after a `set`, before anybody has cancelled it. */
  ghost predicate GetsTrue(actions: seq<Action>, t: nat, i: nat) {
    exists r :: ReleasedBy(actions, t, i, r)
  }

  /** It is resumed after it was cancelled, and not resumed by a `set` before. */
  ghost predicate GetsCancelled(actions: seq<Action>, t: nat, i: nat) {
    !GetsTrue(actions, t, i) && exists r :: CancelledBy(actions, t, i, r)
  }

  /** What has become, by the schedule alone, of the call that entered at `i`. */
  ghost predicate Fate(s: State, actions: seq<Action>, t: nat, i: nat)
    requires i <= |actions|
  {
    && t in s.calls
    && if SetLast(actions[..i]) then s.calls[t] == ReturnedAtOnce
       else if GetsTrue(actions, t, i) then s.calls[t].ReturnedTrue?
       else if GetsCancelled(actions, t, i) then s.calls[t] == RaisedCancelled
       else s.calls[t].Waiting? && FutureFits(s, actions, t, i)
  }

  ghost predicate FutureFits(s: State, actions: seq<Action>, t: nat, i: nat)
    requires i <= |actions| && t in s.calls && s.calls[t].Waiting?
  {
    && t in s.futures
    && if Cancel(t) in actions[i..]
       then s.futures[t] == Cancelled || (s.futures[t] == Done && s.calls[t].cancelRequested)
       else !s.calls[t].cancelRequested && s.futures[t] == if Set in actions[i..] then Done else Pending
  }

  lemma OneMoreFlag(actions: seq<Action>, a: Action)
    ensures SetLast(actions + [a]) <==> a == Set || (a != Clear && SetLast(actions))
  {
    var all := actions + [a];
    forall k | 0 <= k <= |actions|
      ensures all[k..] == actions[k..] + [a]
    {}
    if a == Set {
      assert all[|actions|] == Set && Clear !in all[|actions|..];
    } else if a != Clear && SetLast(actions) {
      var k :| 0 <= k < |actions| && actions[k] == Set && Clear !in actions[k..];
      assert all[k] == Set && Clear !in all[k..];
    }
  }

  lemma OneMoreAction(actions: seq<Action>, a: Action, t: nat, i: nat)
    requires i < |actions|
    ensures EntersAt(actions + [a], t, i) <==> EntersAt(actions, t, i)
    ensures (actions + [a])[..i] == actions[..i] && (actions + [a])[i..] == actions[i..] + [a]
    ensures GetsTrue(actions + [a], t, i) <==>
            GetsTrue(actions, t, i) || (a == Resume(t) && Set in actions[i..] && Cancel(t) !in actions[i..])
    ensures GetsCancelled(actions + [a], t, i) <==>
            && !GetsTrue(actions + [a], t, i)
            && (GetsCancelled(actions, t, i) || (a == Resume(t) && Cancel(t) in actions[i..]))
    ensures GetsCancelled(actions, t, i) ==> Cancel(t) in actions[i..]
  {
    var all := actions + [a];
    forall r | i < r <= |actions|
      ensures all[i..r] == actions[i..r]
    {}
    assert all[i..|actions|] == actions[i..];
    assert forall r :: i < r < |actions| ==> (ReleasedBy(all, t, i, r) <==> ReleasedBy(actions, t, i, r));
    assert forall r :: i < r < |actions| ==> (CancelledBy(all, t, i, r) <==> CancelledBy(actions, t, i, r));
    assert ReleasedBy(all, t, i, |actions|) <==>
           a == Resume(t) && Set in actions[i..] && Cancel(t) !in actions[i..];
    assert CancelledBy(all, t, i, |actions|) <==> a == Resume(t) && Cancel(t) in actions[i..];
  }

  lemma StepKeepsFate(s: State, actions: seq<Action>, a: Action, t: nat, i: nat)
    requires Inv(s) && i < |actions| && EntersAt(actions, t, i) && Fate(s, actions, t, i)
    ensures Fate(Step(s, a), actions + [a], t, i)
  {
    hide Inv;
    hide GetsTrue;
    hide GetsCancelled;
    hide SetLast;
    hide EntersAt;
    OneMoreAction(actions, a, t, i);
    WaiterIsQueued(s, t);
  }

  lemma WaiterIsQueued(s: State, t: nat)
    requires Inv(s)
    ensures t in s.calls && s.calls[t].Waiting? ==>
              t in s.waiters && t in s.futures && (s.value ==> s.futures[t] != Pending)
  {}

  lemma EnteringFate(s: State, actions: seq<Action>, t: nat)
    requires t !in s.calls && (s.value <==> SetLast(actions))
    ensures Fate(Step(s, Wait(t)), actions + [Wait(t)], t, |actions|)
  {
    hide SetLast;
    var all := actions + [Wait(t)];
    assert all[..|actions|] == actions && all[|actions|..] == [Wait(t)];
  }

  /** Over every schedule: the invariant; the flag is true if and only if some `set` has no `clear`
      after it; and a call that enters finds out from the schedule alone what becomes of it.  If
      the flag is true then, it returns at once; otherwise it is queued, returns True if and only if
      it is resumed after a `set` before anybody has cancelled it, and is cancelled if and only
      if instead it is resumed after a cancellation. */
  lemma {:induction false} EveryRun(actions: seq<Action>)
    ensures Inv(Run(INIT, actions))
    ensures Run(INIT, actions).value <==> SetLast(actions)
    ensures forall t :: t in Run(INIT, actions).calls <==> Wait(t) in actions
    ensures forall t: nat, i: nat :: EntersAt(actions, t, i) ==> Fate(Run(INIT, actions), actions, t, i)
    decreases |actions|
  {
    hide Inv;
    hide Step;
    hide Fate;
    hide SetLast;
    if actions == [] {
      NothingYet();
    } else {
      var init, a := actions[..|actions| - 1], actions[|actions| - 1];
      var s := Run(INIT, init);
      assert actions == init + [a];
      EveryRun(init);
      RunOneMore(INIT, init, a);
      StepKeepsInv(s, a);
      OneMoreFlag(init, a);
      StepTells(s, a);
      forall t: nat, i: nat | EntersAt(actions, t, i)
        ensures Fate(Run(INIT, actions), actions, t, i)
      {
        if i < |init| {
          OneMoreAction(init, a, t, i);
          StepKeepsFate(s, init, a, t, i);
        } else {
          assert actions[..i] == init;
          EnteringFate(s, init, t);
        }
      }
    }
  }

  /** Call `t` entered `wait` before call `u` did. */
  ghost predicate EntersBefore(actions: seq<Action>, t: nat, u: nat) {
    exists i: nat, j: nat :: i < j && EntersAt(actions, t, i) && EntersAt(actions, u, j)
  }

  ghost predicate InOrder(waiters: seq<nat>, actions: seq<Action>) {
    forall p, q :: 0 <= p < q < |waiters| ==> EntersBefore(actions, waiters[p], waiters[q])
  }

  /** Over every schedule the calls that wait are queued in the order in which they entered. */
  lemma {:induction false} WaitersInOrder(actions: seq<Action>)
    ensures InOrder(Run(INIT, actions).waiters, actions)
    decreases |actions|
  {
    hide Inv;
    hide InOrder;
    hide SetLast;
    hide Fate;
    if actions == [] {
      NoneInOrder(actions);
    } else {
      var init, a := actions[..|actions| - 1], actions[|actions| - 1];
      var s := Run(INIT, init);
      assert actions == init + [a];
      EveryRun(init);
      WaitersInOrder(init);
      RunOneMore(INIT, init, a);
      StillInOrder(s.waiters, init, a);
      match a
      case Wait(t) =>
        if t !in s.calls {
          QueuedHaveEntered(s);
          LastInOrder(s.waiters, init, t);
        }
      case Resume(t) => RemoveInOrder(s.waiters, t, actions);
      case _ =>
    }
  }

  lemma NoneInOrder(actions: seq<Action>)
    ensures InOrder([], actions)
  {}

  lemma QueuedHaveEntered(s: State)
    requires Inv(s)
    ensures forall t :: t in s.waiters ==> t in s.calls
  {}

  lemma StillEntered(actions: seq<Action>, a: Action, t: nat, i: nat)
    requires EntersAt(actions, t, i)
    ensures EntersAt(actions + [a], t, i)
  {
    assert (actions + [a])[..i] == actions[..i];
  }

  lemma StillInOrder(waiters: seq<nat>, actions: seq<Action>, a: Action)
    requires InOrder(waiters, actions)
    ensures InOrder(waiters, actions + [a])
  {
    forall p, q | 0 <= p < q < |waiters|
      ensures EntersBefore(actions + [a], waiters[p], waiters[q])
    {
      var i: nat, j: nat :| i < j && EntersAt(actions, waiters[p], i) && EntersAt(actions, waiters[q], j);
      StillEntered(actions, a, waiters[p], i);
      StillEntered(actions, a, waiters[q], j);
    }
  }

  lemma {:induction false} FirstEntry(actions: seq<Action>, t: nat) returns (i: nat)
    requires Wait(t) in actions
    ensures EntersAt(actions, t, i)
    decreases |actions|
  {
    var init, a := actions[..|actions| - 1], actions[|actions| - 1];
    assert actions == init + [a];
    if Wait(t) in init {
      i := FirstEntry(init, t);
      StillEntered(init, a, t, i);
    } else {
      i := |init|;
    }
  }

  lemma LastInOrder(waiters: seq<nat>, actions: seq<Action>, t: nat)
    requires InOrder(waiters, actions + [Wait(t)]) && Wait(t) !in actions
    requires forall u :: u in waiters ==> Wait(u) in actions
    ensures InOrder(waiters + [t], actions + [Wait(t)])
  {
    var all := actions + [Wait(t)];
    assert all[..|actions|] == actions;
    forall p | 0 <= p < |waiters|
      ensures EntersBefore(all, waiters[p], t)
    {
      var i := FirstEntry(actions, waiters[p]);
      StillEntered(actions, Wait(t), waiters[p], i);
      assert EntersAt(all, t, |actions|);
    }
  }

  lemma {:induction false} RemoveInOrder(waiters: seq<nat>, t: nat, actions: seq<Action>)
    requires InOrder(waiters, actions)
    ensures InOrder(Remove(waiters, t), actions)
    ensures forall u :: u in Remove(waiters, t) ==> u in waiters
  {
    hide EntersBefore;
    if waiters == [] {
    } else {
      var rest := Remove(waiters[1..], t);
      RemoveInOrder(waiters[1..], t, actions);
      forall q | 0 <= q < |rest|
        ensures rest[q] in waiters && EntersBefore(actions, waiters[0], rest[q])
      {
        assert rest[q] in waiters[1..];
        var k :| 0 < k < |waiters| && waiters[k] == rest[q];
      }
    }
  }

  lemma NothingYet()
    ensures Inv(INIT) && !SetLast([]) && Run(INIT, []) == INIT
  {}

  lemma StepTells(s: State, a: Action)
    ensures Step(s, a).value <==> a == Set || (a != Clear && s.value)
    ensures forall t :: t in Step(s, a).calls <==> t in s.calls || a == Wait(t)
  {}

  lemma {:induction false} RunOneMore(s: State, actions: seq<Action>, a: Action)
    ensures Run(s, actions + [a]) == Step(Run(s, actions), a)
    decreases |actions|
  {
    hide Step;
    if actions == [] {
      assert [a][1..] == [];
      assert Run(s, [a]) == Run(Step(s, a), []);
    } else {
      assert (actions + [a])[1..] == actions[1..] + [a];
      RunOneMore(Step(s, actions[0]), actions[1..], a);
    }
  }

  // ---- A waiter that is queued when set() is called ----

  /** `t` has been released: it returns True as soon as it is resumed, or it has done so. */
  ghost predicate Released(s: State, t: nat) {
    && t in s.calls
    && (s.calls[t].ReturnedTrue? ||
        (s.calls[t].Waiting? && !s.calls[t].cancelRequested && t in s.futures && s.futures[t] == Done))
  }

  lemma StepKeepsReleased(s: State, a: Action, t: nat)
    requires Released(s, t) && a != Cancel(t)
    ensures Released(Step(s, a), t)
    ensures a == Resume(t) ==> Step(s, a).calls[t].ReturnedTrue?
    ensures s.calls[t].ReturnedTrue? ==> Step(s, a).calls[t] == s.calls[t]
  {}

  lemma {:induction false} RunKeepsReleased(s: State, actions: seq<Action>, t: nat)
    requires Released(s, t) && Cancel(t) !in actions
    ensures Released(Run(s, actions), t)
    ensures Resume(t) in actions || s.calls[t].ReturnedTrue? ==> Run(s, actions).calls[t].ReturnedTrue?
    decreases |actions|
  {
    if actions == [] {
    } else {
      assert actions == [actions[0]] + actions[1..];
      StepKeepsReleased(s, actions[0], t);
      RunKeepsReleased(Step(s, actions[0]), actions[1..], t);
    }
  }

  /** A call that waits when `set` is called, and is never cancelled, returns True once it is
      resumed, whatever happens in between: `clear` in particular does not take it back. */
  lemma SetReleasesWaiters(before: seq<Action>, after: seq<Action>, t: nat)
    requires var s := Run(INIT, before);
             t in s.calls && s.calls[t].Waiting? && !s.calls[t].cancelRequested && s.futures.Keys >= {t} &&
             s.futures[t] != Cancelled
    requires Cancel(t) !in after && Resume(t) in after
    ensures var end := Run(Step(Run(INIT, before), Set), after); t in end.calls && end.calls[t].ReturnedTrue?
  {
    EveryRun(before);
    var s := Run(INIT, before);
    RunKeepsReleased(Step(s, Set), after, t);
  }

  /** A call that is resumed without having been cancelled returns True, and only after a set. */
  lemma NoSetNoReturn(s: State, t: nat)
    requires Inv(s) && t in s.calls && s.calls[t].Waiting? && s.sets == s.calls[t].since
    ensures !Step(s, Resume(t)).calls[t].ReturnedTrue?
  {}

  // ---- The class ----

  lemma WaitersHaveFutures(s: State)
    requires Inv(s)
    ensures forall i :: 0 <= i < |s.waiters| ==> s.waiters[i] in s.futures
  {}

  lemma ResolveNone(futures: map<nat, Future>)
    ensures Resolve(futures, []) == futures
  {}

  lemma ResolveOneMore(futures: map<nat, Future>, waiters: seq<nat>, i: nat)
    requires i < |waiters| && waiters[i] in futures
    ensures var before := Resolve(futures, waiters[..i]);
            && waiters[i] in before
            && Resolve(futures, waiters[..i + 1]) ==
               if before[waiters[i]] == Pending then before[waiters[i] := Done] else before
    ensures waiters[..0] == []
  {
    assert waiters[..i + 1] == waiters[..i] + [waiters[i]];
  }

  /** `value` and `waiters` are the event's own; the futures, the suspended calls and the count
      of `set` calls belong to the loop it runs on. */
  class Event {
    var value: bool
    var waiters: seq<nat>
    var futures: map<nat, Future>
    var calls: map<nat, Call>
    var sets: nat

    ghost function Model(): State
      reads this
    {
      State(value, waiters, futures, calls, sets)
    }

    constructor ()
      ensures Model() == INIT
    {
      value, waiters, futures, calls, sets := false, [], map[], map[], 0;
    }

    method SetFlag()
      requires Inv(Model())
      modifies this
      ensures Model() == Step(old(Model()), Set) && Inv(Model())
    {
      hide Inv;
      hide Resolve;
      SetKeepsInv(Model());
      WaitersHaveFutures(Model());
      ResolveNone(futures);
      sets := sets + 1;
      if !value {
        value := true;
        for i := 0 to |waiters|
          invariant value && waiters == old(waiters) && calls == old(calls) && sets == old(sets) + 1
          invariant futures == Resolve(old(futures), waiters[..i])
        {
          var fut := waiters[i];
          ResolveOneMore(old(futures), waiters, i);
          if futures[fut] == Pending {
            futures := futures[fut := Done];
          }
        }
        assert waiters[..|waiters|] == waiters;
      }
    }

    method ClearFlag()
      requires Inv(Model())
      modifies this
      ensures Model() == Step(old(Model()), Clear) && Inv(Model())
    {
      StepKeepsInv(Model(), Clear);
      value := false;
    }

    /** `wait` up to its await: true when it returned at once. */
    method WaitEnter(call: nat) returns (returned: bool)
      requires Inv(Model()) && call !in calls
      modifies this
      ensures Model() == Step(old(Model()), Wait(call)) && Inv(Model())
      ensures returned <==> old(value)
    {
      StepKeepsInv(Model(), Wait(call));
      if value {
        calls := calls[call := ReturnedAtOnce];
        return true;
      }
      futures := futures[call := Pending];
      waiters := waiters + [call];
      calls := calls[call := Waiting(sets, false)];
      return false;
    }

    /** The task is cancelled while it waits: asyncio cancels the future it waits for, or, if
        that is done already, throws when the task runs next. */
    method CancelWait(call: nat)
      requires Inv(Model()) && call in calls && calls[call].Waiting?
      modifies this
      ensures Model() == Step(old(Model()), Cancel(call)) && Inv(Model())
    {
      StepKeepsInv(Model(), Cancel(call));
      assert call in waiters;
      if futures[call] == Pending {
        futures := futures[call := Cancelled];
      } else {
        calls := calls[call := calls[call].(cancelRequested := true)];
      }
    }

    /** `wait` after its await: true when it returns True, false when it is cancelled. */
    method WaitResume(call: nat) returns (result: bool)
      requires Inv(Model()) && Resumable(Model(), call)
      modifies this
      ensures Model() == Step(old(Model()), Resume(call)) && Inv(Model())
      ensures result <==> calls[call].ReturnedTrue?
    {
      StepKeepsInv(Model(), Resume(call));
      result := futures[call] == Done && !calls[call].cancelRequested;
      waiters := Remove(waiters, call);
      calls := calls[call := if result then ReturnedTrue(calls[call].since) else RaisedCancelled];
    }
  }
}
