/** `mode/utils/times.py`: rate limiting with a token bucket, over exact real arithmetic. */
module TokenBuckets {

  /** What a bucket earns between two times. */
  function Earn(rate: real, from: real, to: real): real {
    rate * (to - from)
  }

  /** The state of a bucket; `over` becomes the capacity, and the fill rate is `rate`. */
  datatype Bucket = Bucket(rate: real, capacity: real, tokens: real, lastPour: real) {

    /** What the `tokens` property does to the bucket at time `now`. */
    function Refill(now: real): Bucket {
      if now < lastPour || tokens >= capacity then this
      else
        var full := tokens + Earn(rate, lastPour, now);
        this.(tokens := if capacity <= full then capacity else full, lastPour := now)
    }

    predicate CanPour(now: real, need: int) {
      need as real <= Refill(now).tokens
    }

    function AfterPour(now: real, need: int): Bucket {
      var b := Refill(now);
      if CanPour(now, need) then b.(tokens := b.tokens - need as real) else b
    }

    ghost predicate Sane() {
      0.0 <= rate && 0.0 <= tokens <= capacity
    }
  }

  function New(rate: real, capacity: real, now: real): Bucket {
    Bucket(rate, capacity, capacity, now)
  }

  datatype Wait = Seconds(time: real) | ZeroDivisionError

  /** How an `async with bucket` begins. */
  datatype Entry = Entered | EnteredAfter(sleep: real) | Raised | DividedByZero {
    predicate GetsIn() {
      Entered? || EnteredAfter?
    }
  }

  class TokenBucket {
    const rate: real
    const capacity: real
    const raises: bool
    var tokens: real
    var lastPour: real

    ghost function State(): Bucket
      reads this
    {
      Bucket(rate, capacity, tokens, lastPour)
    }

    constructor (rate: real, over: real, raises: bool, now: real)
      ensures State() == New(rate, over, now) && this.raises == raises
    {
      this.rate, this.capacity, this.raises := rate, over, raises;
      tokens, lastPour := over, now;
    }

    /** The `tokens` property. */
    method Tokens(now: real) returns (have: real)
      modifies this
      ensures State() == old(State()).Refill(now) && have == tokens
    {
      if now < lastPour {
        return tokens;
      }
      if tokens < capacity {
        var delta := rate * (now - lastPour);
        tokens := if tokens + delta < capacity then tokens + delta else capacity;
        lastPour := now;
      }
      have := tokens;
    }

    method Pour(now: real, need: int) returns (ok: bool)
      modifies this
      ensures ok == old(State()).CanPour(now, need) && State() == old(State()).AfterPour(now, need)
    {
      var have := Tokens(now);
      if have < need as real {
        return false;
      }
      tokens := tokens - need as real;
      ok := true;
    }

    /** Counts from the last time the bucket was refilled; see `ExpectedTimeIsExact`. */
    function ExpectedTime(need: int): Wait
      reads this
    {
      WaitFor(Bucket(rate, capacity, tokens, lastPour), need)
    }

    /** `__aenter__`: having slept, it enters without pouring; at rate zero there is no time to
        sleep for, and it fails (a ZeroDivisionError). */
    method Enter(now: real) returns (entry: Entry)
      modifies this
      ensures State() == old(State()).AfterPour(now, 1)
      ensures entry == EntryAt(old(State()), raises, now)
      ensures old(State()).Sane() && old(lastPour) <= now && 1.0 <= capacity && entry.EnteredAfter? ==>
                FindsTokenAfter(State(), now, entry.sleep)
    {
      if old(State()).Sane() && old(lastPour) <= now && 1.0 <= capacity {
        EntrySleepsRight(State(), raises, now);
      }
      hide Bucket.CanPour;
      hide Bucket.AfterPour;
      var ok := Pour(now, 1);
      if ok {
        return Entered;
      }
      if raises {
        return Raised;
      }
      match ExpectedTime(1) {
        case Seconds(time) => entry := EnteredAfter(time);
        case ZeroDivisionError => entry := DividedByZero;
      }
    }
  }

  /** `expected_time`; dividing by a zero rate fails even when nothing is missing. */
  function WaitFor(b: Bucket, need: int): Wait {
    var wanted := if need as real <= b.tokens then b.tokens else need as real;
    if b.rate == 0.0 then ZeroDivisionError
    else
      var timeLeft := (wanted - b.tokens) / b.rate;
      Seconds(if timeLeft < 0.0 then 0.0 else timeLeft)
  }

  /** How an entry at time `now` goes. */
  function EntryAt(b: Bucket, raises: bool, now: real): Entry {
    if b.CanPour(now, 1) then Entered
    else if raises then Raised
    else match WaitFor(b.AfterPour(now, 1), 1)
      case Seconds(time) => EnteredAfter(time)
      case ZeroDivisionError => DividedByZero
  }

  // ---- Runs ----

  /** One attempt to pour. */
  datatype Attempt = Attempt(now: real, need: int)

  /** The clock does not go back, and starts no earlier than `start`. */
  ghost predicate Monotone(run: seq<Attempt>, start: real) {
    && (forall i :: 0 <= i < |run| ==> start <= run[i].now)
    && (forall i, j :: 0 <= i < j < |run| ==> run[i].now <= run[j].now)
  }

  ghost predicate Natural(run: seq<Attempt>) {
    forall i :: 0 <= i < |run| ==> 0 <= run[i].need
  }

  /** The bucket after the attempts. */
  ghost function After(b: Bucket, run: seq<Attempt>): Bucket
    decreases |run|
  {
    if run == [] then b else After(b.AfterPour(run[0].now, run[0].need), run[1..])
  }

  /** The tokens the successful attempts poured. */
  ghost function Poured(b: Bucket, run: seq<Attempt>): int
    decreases |run|
  {
    if run == [] then 0
    else (if b.CanPour(run[0].now, run[0].need) then run[0].need else 0) +
         Poured(b.AfterPour(run[0].now, run[0].need), run[1..])
  }

  function End(run: seq<Attempt>, start: real): real {
    if run == [] then start else run[|run| - 1].now
  }

  lemma Rest(run: seq<Attempt>, start: real)
    requires run != [] && Monotone(run, start) && Natural(run)
    ensures Monotone(run[1..], run[0].now) && start <= run[0].now <= End(run, start)
    ensures End(run[1..], run[0].now) == End(run, start)
    ensures 0 <= run[0].need && Natural(run[1..])
  {}

  lemma Product(x: real, y: real)
    requires 0.0 <= x && 0.0 <= y
    ensures 0.0 <= x * y
  {}

  lemma Earned(rate: real, from: real, mid: real, to: real)
    requires 0.0 <= rate && from <= mid <= to
    ensures 0.0 <= Earn(rate, from, mid) && 0.0 <= Earn(rate, mid, to)
    ensures Earn(rate, from, mid) + Earn(rate, mid, to) == Earn(rate, from, to)
    ensures Earn(rate, from, from) == 0.0
  {
    Product(rate, mid - from);
    Product(rate, to - mid);
    assert rate * (mid - from) + rate * (to - mid) == rate * (to - from);
  }

  /** One attempt keeps the bucket sane and the account straight: what is poured was there, or
      has been earned since the last refill. */
  lemma AttemptAccounts(b: Bucket, now: real, need: int)
    requires b.Sane() && b.lastPour <= now && 0 <= need
    ensures var b' := b.AfterPour(now, need);
            && b'.Sane() && b'.rate == b.rate && b'.capacity == b.capacity && 0.0 <= b.rate
            && b.lastPour <= b'.lastPour <= now
            && (b.tokens < b.capacity ==> b'.lastPour == now)
            && (if b.CanPour(now, need) then need as real else 0.0) + b'.tokens <=
               b.tokens + Earn(b.rate, b.lastPour, b'.lastPour)
  {
    hide Earn;
    Earned(b.rate, b.lastPour, now, now);
  }

  lemma {:induction false} RunAccounts(b: Bucket, run: seq<Attempt>)
    requires b.Sane() && Monotone(run, b.lastPour) && Natural(run)
    ensures Poured(b, run) as real <= b.tokens + Earn(b.rate, b.lastPour, End(run, b.lastPour))
    decreases |run|
  {
    hide *;
    if run == [] {
      NonePoured(b, b.lastPour);
    } else {
      var b', end := b.AfterPour(run[0].now, run[0].need), End(run, b.lastPour);
      Rest(run, b.lastPour);
      AttemptAccounts(b, run[0].now, run[0].need);
      Later(run, b.lastPour, b'.lastPour);
      OnePoured(b, run);
      RunAccounts(b', run[1..]);
      Earned(b.rate, b.lastPour, b'.lastPour, end);
      Earned(b.rate, b'.lastPour, End(run[1..], b'.lastPour), end);
    }
  }

  lemma NonePoured(b: Bucket, start: real)
    requires b.Sane()
    ensures Poured(b, []) == 0 && End([], start) == start && Earn(b.rate, start, start) == 0.0
    ensures 0.0 <= b.tokens <= b.capacity
  {}

  lemma OnePoured(b: Bucket, run: seq<Attempt>)
    requires run != []
    ensures Poured(b, run) == (if b.CanPour(run[0].now, run[0].need) then run[0].need else 0) +
                              Poured(b.AfterPour(run[0].now, run[0].need), run[1..])
  {}

  lemma Later(run: seq<Attempt>, start: real, refilled: real)
    requires run != [] && Monotone(run, start) && refilled <= run[0].now
    ensures Monotone(run[1..], refilled) && refilled <= End(run[1..], refilled) <= End(run, start)
  {}

  /** Since its construction a bucket pours no more than its capacity and what it has earned. */
  lemma PouredSinceConstruction(rate: real, capacity: real, t0: real, run: seq<Attempt>)
    requires 0.0 <= rate && 0.0 <= capacity && Monotone(run, t0) && Natural(run)
    ensures Poured(New(rate, capacity, t0), run) as real <= capacity + Earn(rate, t0, End(run, t0))
  {
    RunAccounts(New(rate, capacity, t0), run);
  }

  /** In any window of length `T` it pours at most twice its capacity plus what it earns in
      the window; the second capacity is that of a bucket whose clock stood still while full. */
  lemma {:induction false} PouredInWindow(b: Bucket, run: seq<Attempt>, start: real)
    requires b.Sane() && b.lastPour <= start && Monotone(run, start) && Natural(run)
    ensures Poured(b, run) as real <= 2.0 * b.capacity + Earn(b.rate, start, End(run, start))
    ensures b.tokens < b.capacity ==> Poured(b, run) as real <= b.capacity + Earn(b.rate, start, End(run, start))
    decreases |run|
  {
    hide *;
    NonePoured(b, start);
    if run == [] {
    } else {
      var t, need := run[0].now, run[0].need;
      var b' := b.AfterPour(t, need);
      Rest(run, start);
      AttemptAccounts(b, t, need);
      OnePoured(b, run);
      Earned(b.rate, start, t, End(run, start));
      if b.tokens < b.capacity {
        RunAccounts(b', run[1..]);
        PouredAtMost(b, t, need);
      } else {
        PouredInWindow(b', run[1..], t);
        FullPour(b, t, need);
      }
    }
  }

  lemma PouredAtMost(b: Bucket, now: real, need: int)
    requires b.Sane() && b.lastPour <= now && 0 <= need
    ensures (if b.CanPour(now, need) then need as real else 0.0) + b.AfterPour(now, need).tokens <= b.capacity
  {
    Earned(b.rate, b.lastPour, now, now);
  }

  /** A full bucket either stays full or has poured at most its capacity. */
  lemma FullPour(b: Bucket, now: real, need: int)
    requires b.Sane() && b.tokens == b.capacity && 0 <= need
    ensures var b' := b.AfterPour(now, need);
            if b.CanPour(now, need) && need > 0 then need as real <= b.capacity && b'.tokens < b.capacity
            else b' == b
  {}

  ghost predicate SingleBound(b: Bucket, run: seq<Attempt>, start: real) {
    Poured(b, run) as real <= b.capacity + Earn(b.rate, start, End(run, start))
  }

  /** One capacity and what it earns in the window bounds what a bucket pours if and only if it is
      not full at the start, or its clock is not behind, or it earns or holds too little to make
      use of that. */
  lemma SingleBoundExactly(b: Bucket, start: real)
    requires b.Sane() && b.lastPour <= start
    ensures (forall run :: Monotone(run, start) && Natural(run) ==> SingleBound(b, run, start)) <==>
            b.tokens < b.capacity || b.lastPour == start || b.rate == 0.0 || b.capacity < 1.0
  {
    if b.tokens < b.capacity || b.lastPour == start || b.rate == 0.0 || b.capacity < 1.0 {
      forall run | Monotone(run, start) && Natural(run)
        ensures SingleBound(b, run, start)
      {
        WithinSingleBound(b, run, start);
      }
    } else {
      var run := BeyondSingleBound(b, start);
    }
  }

  lemma WithinSingleBound(b: Bucket, run: seq<Attempt>, start: real)
    requires b.Sane() && b.lastPour <= start && Monotone(run, start) && Natural(run)
    requires b.tokens < b.capacity || b.lastPour == start || b.rate == 0.0 || b.capacity < 1.0
    ensures SingleBound(b, run, start)
  {
    if b.tokens < b.capacity {
      PouredInWindow(b, run, start);
    } else if b.lastPour == start {
      RunAccounts(b, run);
    } else if b.rate == 0.0 {
      RunAccounts(b, run);
      assert run == [] || End(run, b.lastPour) == End(run, start);
    } else {
      NothingFits(b, run, start);
      EndNotBefore(run, start);
      Earned(b.rate, start, End(run, start), End(run, start));
    }
  }

  lemma EndNotBefore(run: seq<Attempt>, start: real)
    requires Monotone(run, start)
    ensures start <= End(run, start)
  {}

  /** A bucket that holds less than one token pours nothing. */
  lemma {:induction false} NothingFits(b: Bucket, run: seq<Attempt>, start: real)
    requires b.Sane() && b.lastPour <= start && b.capacity < 1.0 && Monotone(run, start) && Natural(run)
    ensures Poured(b, run) == 0
    decreases |run|
  {
    if run == [] {
    } else {
      AttemptAccounts(b, run[0].now, run[0].need);
      PouredAtMost(b, run[0].now, run[0].need);
      Rest(run, start);
      NothingFits(b.AfterPour(run[0].now, run[0].need), run[1..], run[0].now);
    }
  }

  /** A full bucket whose clock is behind pours all its whole tokens at once, and one more before
      that is earned. */
  lemma BeyondSingleBound(b: Bucket, start: real) returns (run: seq<Attempt>)
    requires b.Sane() && b.lastPour < start && b.rate > 0.0 && b.tokens == b.capacity >= 1.0
    ensures Monotone(run, start) && Natural(run) && !SingleBound(b, run, start)
  {
    var whole := b.capacity.Floor;
    var missing := 1.0 - (b.capacity - whole as real);
    var behind := Earn(b.rate, b.lastPour, start);
    var T := if missing <= behind then 0.0 else (missing - behind) / b.rate;
    Behind(b, start, missing, behind, T);
    run := [Attempt(start, whole), Attempt(start + T, 1)];
    var b1 := b.AfterPour(start, whole);
    assert b1 == b.(tokens := b.capacity - whole as real);
    assert b1.CanPour(start + T, 1);
    assert run[1..] == [Attempt(start + T, 1)] && run[1..][1..] == [];
    OnePoured(b, run);
    OnePoured(b1, run[1..]);
  }

  lemma Behind(b: Bucket, start: real, missing: real, behind: real, T: real)
    requires b.lastPour < start && b.rate > 0.0 && 0.0 < missing && behind == Earn(b.rate, b.lastPour, start)
    requires T == if missing <= behind then 0.0 else (missing - behind) / b.rate
    ensures 0.0 <= T && 0.0 < behind
    ensures Earn(b.rate, start, start + T) < missing <= Earn(b.rate, b.lastPour, start + T)
  {
    EarnsSomething(b.rate, b.lastPour, start);
    if missing > behind {
      Quotient(b.rate, missing - behind);
      Earned(b.rate, b.lastPour, start, start + T);
    }
  }

  lemma EarnsSomething(rate: real, from: real, to: real)
    requires 0.0 < rate && from < to
    ensures 0.0 < Earn(rate, from, to)
  {
    Positive(rate, to - from);
    assert Earn(rate, from, to) == rate * (to - from);
  }

  lemma Positive(x: real, y: real)
    requires 0.0 < x && 0.0 < y
    ensures 0.0 < x * y
  {}

  /** The states a run passes through are sane, so the window may start anywhere in it. */
  lemma {:induction false} SaneThroughout(b: Bucket, run: seq<Attempt>, start: real)
    requires b.Sane() && b.lastPour <= start && Monotone(run, start) && Natural(run)
    ensures var b' := After(b, run);
            b'.Sane() && b'.lastPour <= End(run, start) && b'.rate == b.rate && b'.capacity == b.capacity
    decreases |run|
  {
    if run == [] {
    } else {
      AttemptAccounts(b, run[0].now, run[0].need);
      Rest(run, start);
      SaneThroughout(b.AfterPour(run[0].now, run[0].need), run[1..], run[0].now);
    }
  }

  lemma AnyWindow(rate: real, capacity: real, t0: real, before: seq<Attempt>, window: seq<Attempt>)
    requires 0.0 <= rate && 0.0 <= capacity && Natural(before + window) && Monotone(before + window, t0)
    requires window != []
    ensures Poured(After(New(rate, capacity, t0), before), window) as real <=
            2.0 * capacity + Earn(rate, window[0].now, window[|window| - 1].now)
  {
    SplitRun(before, window, t0);
    hide After;
    hide Poured;
    hide Monotone;
    hide Natural;
    SaneThroughout(New(rate, capacity, t0), before, t0);
    PouredInWindow(After(New(rate, capacity, t0), before), window, window[0].now);
  }

  lemma SplitRun(before: seq<Attempt>, window: seq<Attempt>, t0: real)
    requires window != [] && Natural(before + window) && Monotone(before + window, t0)
    ensures Natural(before) && Natural(window)
    ensures Monotone(before, t0) && Monotone(window, window[0].now) && End(before, t0) <= window[0].now
  {
    var all := before + window;
    assert forall i :: 0 <= i < |before| ==> before[i] == all[i];
    assert forall i :: 0 <= i < |window| ==> window[i] == all[|before| + i];
  }

  /** The bound is attained, for every whole capacity and every window in which no more than
      a capacity is earned: a bucket left alone long enough pours its capacity twice at once. */
  lemma WindowBoundIsAttained(rate: real, c: nat, t0: real, n: nat)
    requires 0.0 < rate && 0 < c && n <= c
    ensures var t, T := t0 + c as real / rate, n as real / rate;
            var run := [Attempt(t, c), Attempt(t, c), Attempt(t + T, n)];
            && Monotone(run, t0)
            && Poured(New(rate, c as real, t0), run) as real == 2.0 * c as real + Earn(rate, t, t + T)
  {
    var t, T := t0 + c as real / rate, n as real / rate;
    Quotient(rate, c as real);
    Quotient(rate, n as real);
    assert Earn(rate, t, t + T) == n as real;
    var run := [Attempt(t, c), Attempt(t, c), Attempt(t + T, n)];
    var b0 := New(rate, c as real, t0);
    FullTwice(rate, c, t0, t);
    EarnedBack(rate, c, t, t + T, n);
    var b1 := b0.AfterPour(t, c);
    var b2 := b1.AfterPour(t, c);
    hide *;
    ThreeAttempts(b0, run[0], run[1], run[2]);
  }

  lemma Quotient(rate: real, x: real)
    requires 0.0 < rate && 0.0 <= x
    ensures 0.0 <= x / rate && rate * (x / rate) == x
  {}

  lemma FullTwice(rate: real, c: nat, t0: real, t: real)
    requires 0.0 < rate && 0 < c && t0 <= t && Earn(rate, t0, t) == c as real
    ensures var b0 := New(rate, c as real, t0);
            && b0.CanPour(t, c) && b0.AfterPour(t, c).CanPour(t, c)
            && b0.AfterPour(t, c).AfterPour(t, c) == Bucket(rate, c as real, 0.0, t)
  {}

  lemma EarnedBack(rate: real, c: nat, t: real, t': real, n: nat)
    requires 0.0 < rate && 0 < c && n <= c && t <= t' && Earn(rate, t, t') == n as real
    ensures Bucket(rate, c as real, 0.0, t).CanPour(t', n)
  {}

  lemma ThreeAttempts(b: Bucket, x: Attempt, y: Attempt, z: Attempt)
    ensures var b1 := b.AfterPour(x.now, x.need);
            var b2 := b1.AfterPour(y.now, y.need);
            b.CanPour(x.now, x.need) && b1.CanPour(y.now, y.need) && b2.CanPour(z.now, z.need) ==>
              Poured(b, [x, y, z]) == x.need + y.need + z.need
  {
    hide Bucket.CanPour;
    hide Bucket.AfterPour;
    assert [x, y, z][1..] == [y, z] && [y, z][1..] == [z] && [z][1..] == [];
    OnePoured(b, [x, y, z]);
    OnePoured(b.AfterPour(x.now, x.need), [y, z]);
    OnePoured(b.AfterPour(x.now, x.need).AfterPour(y.now, y.need), [z]);
  }

  /** Pouring a negative amount is never refused, and keeps within the capacity exactly if there
      is room for it; so the bounds need the amounts to be natural numbers. */
  lemma NegativeAmountOverfills(b: Bucket, now: real, need: int)
    requires b.Sane() && b.lastPour <= now && need < 0
    ensures b.CanPour(now, need)
    ensures b.AfterPour(now, need).Sane() <==> b.Refill(now).tokens - need as real <= b.capacity
  {
    hide Earn;
    Earned(b.rate, b.lastPour, now, now);
  }

  /** Looking at the tokens never takes any away or turns the clock of the bucket back, even if the
      clock of the system does; then it gives none either. */
  lemma RefillNeverTakes(b: Bucket, now: real)
    requires b.Sane()
    ensures var b' := b.Refill(now);
            && b'.Sane() && b.tokens <= b'.tokens && b.lastPour <= b'.lastPour
            && (now <= b.lastPour ==> b' == b)
  {
    hide Earn;
    if b.lastPour <= now {
      Earned(b.rate, b.lastPour, now, now);
    }
  }

  // ---- expected_time ----

  /** Pouring succeeds exactly from the expected time on, counted from the last refill, if the
      amount fits into the bucket at all, and never otherwise. */
  lemma ExpectedTimeIsExact(b: Bucket, need: nat, now: real)
    requires b.Sane() && b.rate > 0.0 && b.lastPour <= now
    ensures WaitFor(b, need).Seconds? && 0.0 <= WaitFor(b, need).time
    ensures b.CanPour(now, need) <==>
            need as real <= b.capacity && b.lastPour + WaitFor(b, need).time <= now
  {
    var missing := need as real - b.tokens;
    var passed := now - b.lastPour;
    if missing > 0.0 {
      assert missing / b.rate <= passed <==> missing <= b.rate * passed by {
        assert b.rate * (missing / b.rate) == missing;
        Scale(b.rate, missing / b.rate, passed);
      }
      assert missing / b.rate >= 0.0;
    } else {
      Earned(b.rate, b.lastPour, now, now);
    }
  }

  lemma Scale(r: real, x: real, y: real)
    requires r > 0.0
    ensures x <= y <==> r * x <= r * y
  {}

  /** A pour that failed left the clock of the bucket at the time it failed, unless the amount
      can never be poured: so sleeping for the expected time is exactly right. */
  lemma SleepingIsRight(b: Bucket, need: nat, now: real, sleep: real)
    requires b.Sane() && b.rate > 0.0 && b.lastPour <= now && !b.CanPour(now, need) && 0.0 <= sleep
    requires need as real <= b.capacity
    ensures var b' := b.AfterPour(now, need);
            b'.CanPour(now + sleep, need) <==> WaitFor(b', need).time <= sleep
  {
    AttemptAccounts(b, now, need);
    ExpectedTimeIsExact(b.AfterPour(now, need), need, now + sleep);
  }

  // ---- async with ----

  /** From `now` on, left alone, the bucket lets a token be poured once `sleep` is over, and not before. */
  ghost predicate FindsTokenAfter(b: Bucket, now: real, sleep: real) {
    0.0 <= sleep && forall t: real :: now <= t ==> (b.CanPour(t, 1) <==> now + sleep <= t)
  }

  /** Four ways: with a token it enters, without one it raises if it is told to, and otherwise sleeps for
      exactly as long as it takes until a token can be poured; but at rate zero it fails. */
  lemma EntrySleepsRight(b: Bucket, raises: bool, now: real)
    requires b.Sane() && b.lastPour <= now && 1.0 <= b.capacity
    ensures var entry := EntryAt(b, raises, now);
            && (entry.Entered? <==> b.CanPour(now, 1))
            && (entry.Raised? <==> !b.CanPour(now, 1) && raises)
            && (entry.DividedByZero? <==> !b.CanPour(now, 1) && !raises && b.rate == 0.0)
            && (entry.EnteredAfter? ==> FindsTokenAfter(b.AfterPour(now, 1), now, entry.sleep))
  {
    var b' := b.AfterPour(now, 1);
    AttemptAccounts(b, now, 1);
    if !b.CanPour(now, 1) && !raises && b.rate != 0.0 {
      ExpectedTimeIsExact(b', 1, now);
      forall t: real | now <= t
        ensures b'.CanPour(t, 1) <==> now + WaitFor(b', 1).time <= t
      {
        SleepingIsRight(b, 1, now, t - now);
      }
    }
  }

  /** The number of attempts to enter that get in. */
  ghost function Admitted(b: Bucket, raises: bool, times: seq<real>): nat
    decreases |times|
  {
    if times == [] then 0
    else (if EntryAt(b, raises, times[0]).GetsIn() then 1 else 0) +
         Admitted(b.AfterPour(times[0], 1), raises, times[1..])
  }

  function Ones(times: seq<real>): seq<Attempt> {
    seq(|times|, i requires 0 <= i < |times| => Attempt(times[i], 1))
  }

  /** With `raises`, exactly as many enter as tokens are poured ... */
  lemma {:induction false} AdmittedArePoured(b: Bucket, times: seq<real>)
    ensures Admitted(b, true, times) == Poured(b, Ones(times))
    decreases |times|
  {
    if times == [] {
    } else {
      assert Ones(times)[0] == Attempt(times[0], 1) && Ones(times)[1..] == Ones(times[1..]);
      AdmittedArePoured(b.AfterPour(times[0], 1), times[1..]);
    }
  }

  /** ... but without it everybody gets in, if need be after a sleep that pours nothing: not
      even the entries at one moment are limited.  Only at rate zero, where there is no time to
      sleep for, those who find no token fail. */
  lemma {:induction false} WithoutRaisesAllAreAdmitted(b: Bucket, times: seq<real>)
    ensures b.rate != 0.0 ==> Admitted(b, false, times) == |times|
    ensures b.rate == 0.0 ==> Admitted(b, false, times) == Poured(b, Ones(times))
    decreases |times|
  {
    if times == [] {
    } else {
      assert Ones(times)[0] == Attempt(times[0], 1) && Ones(times)[1..] == Ones(times[1..]);
      WithoutRaisesAllAreAdmitted(b.AfterPour(times[0], 1), times[1..]);
    }
  }
}
