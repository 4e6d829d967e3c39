/** `mode/timers.py`: the drift-correcting timer, over exact real arithmetic. */
module Timers {

  const MAX_DRIFT_PERCENT := 0.30
  const MAX_DRIFT_CEILING := 1.2

  function Min(x: real, y: real): real { if y < x then y else x }

  function Max(x: real, y: real): real { if y > x then y else x }

  function Abs(x: real): real { if x < 0.0 then -x else x }

  datatype Config = Config(interval: real, maxDriftCorrection: real) {

    function MaxDrift(): real {
      Min(interval * MAX_DRIFT_PERCENT, MAX_DRIFT_CEILING)
    }

    function MinInterval(): real {
      if interval > maxDriftCorrection then interval - maxDriftCorrection else interval
    }

    function MaxInterval(): real {
      if interval > maxDriftCorrection then interval + maxDriftCorrection else interval
    }

    function AdjustInterval(drift: real): real {
      var withDrift := interval + drift;
      if withDrift > interval then Min(withDrift, MaxInterval())
      else if withDrift < interval then Max(withDrift, MinInterval())
      else interval
    }

    predicate InRange(sleep: real) {
      MinInterval() <= sleep <= MaxInterval()
    }
  }

  /** What a timer counts. */
  datatype Counters = Counters(iteration: nat, early: nat, late: nat, overlaps: nat)

  datatype State = State(epoch: real, lastWakeupAt: real, lastYieldAt: real) {

    /** The test by which a tick takes itself for the first one. */
    predicate LooksNew() {
      lastYieldAt == epoch
    }
  }

  /** How long to sleep: the drift of the last sleep is made up for, within limits. */
  function SleepFor(c: Config, s: State): real {
    if s.LooksNew() then c.interval
    else c.AdjustInterval(c.interval - (s.lastYieldAt - s.lastWakeupAt))
  }

  function Count(c: Config, s: State, now: real, n: Counters): Counters {
    if s.LooksNew() then n
    else
      var drift := c.interval - (s.lastYieldAt - s.lastWakeupAt);
      var off := c.interval >= 1.0 && Abs(drift) >= c.MaxDrift();
      Counters(
        n.iteration + 1,
        if off && drift >= 0.0 then n.early + 1 else n.early,
        if off && drift < 0.0 then n.late + 1 else n.late,
        if now - s.lastYieldAt > c.interval then n.overlaps + 1 else n.overlaps)
  }

  class Timer {
    const config: Config
    const maxDrift: real
    const minIntervalS: real
    const maxIntervalS: real
    const epoch: real
    var lastWakeupAt: real
    var lastYieldAt: real
    var iteration: nat
    var drifting: nat
    var driftingEarly: nat
    var driftingLate: nat
    var overlaps: nat

    ghost predicate Valid()
      reads this
    {
      && maxDrift == config.MaxDrift()
      && minIntervalS == config.MinInterval() && maxIntervalS == config.MaxInterval()
      && drifting == driftingEarly + driftingLate <= iteration && overlaps <= iteration
    }

    ghost function Now(): State
      reads this
    {
      State(epoch, lastWakeupAt, lastYieldAt)
    }

    ghost function Counted(): Counters
      reads this
    {
      Counters(iteration, driftingEarly, driftingLate, overlaps)
    }

    constructor (interval: real, maxDriftCorrection: real, now: real)
      ensures Valid() && config == Config(interval, maxDriftCorrection)
      ensures Now() == State(now, now, now) && Counted() == Counters(0, 0, 0, 0)
    {
      config := Config(interval, maxDriftCorrection);
      maxDrift := Min(interval * MAX_DRIFT_PERCENT, MAX_DRIFT_CEILING);
      if interval > maxDriftCorrection {
        minIntervalS := interval - maxDriftCorrection;
        maxIntervalS := interval + maxDriftCorrection;
      } else {
        minIntervalS := interval;
        maxIntervalS := interval;
      }
      epoch, lastWakeupAt, lastYieldAt := now, now, now;
      iteration, drifting, driftingEarly, driftingLate, overlaps := 0, 0, 0, 0, 0;
    }

    function AdjustInterval(drift: real): real
      reads this
      requires Valid()
      ensures AdjustInterval(drift) == config.AdjustInterval(drift)
    {
      var withDrift := config.interval + drift;
      if withDrift > config.interval then Min(withDrift, maxIntervalS)
      else if withDrift < config.interval then Max(withDrift, minIntervalS)
      else config.interval
    }

    method Tick(now: real) returns (sleep: real)
      requires Valid()
      modifies this
      ensures Valid()
      ensures sleep == SleepFor(config, old(Now()))
      ensures Now() == old(Now()).(lastWakeupAt := now)
      ensures Counted() == Count(config, old(Now()), now, old(Counted()))
    {
      if lastYieldAt == epoch {
        lastWakeupAt := now;
        return config.interval;
      }
      var timeSpentSleeping := lastYieldAt - lastWakeupAt;
      var timeSpentYielding := now - lastWakeupAt - timeSpentSleeping;
      var drift := config.interval - timeSpentSleeping;
      sleep := AdjustInterval(drift);
      if config.interval >= 1.0 && Abs(drift) >= maxDrift {
        drifting := drifting + 1;
        if drift < 0.0 {
          driftingLate := driftingLate + 1;
        } else {
          driftingEarly := driftingEarly + 1;
        }
      }
      if timeSpentYielding > config.interval {
        overlaps := overlaps + 1;
      }
      iteration := iteration + 1;
      lastWakeupAt := now;
    }

    method OnBeforeYield(now: real)
      requires Valid()
      modifies this
      ensures Valid() && Counted() == old(Counted())
      ensures Now() == old(Now()).(lastYieldAt := now)
    {
      lastYieldAt := now;
    }

    /** As many rounds of `__aiter__` as there are `rounds`: in each the sleep takes longer by
        `over`, and then the consumer runs for `runtime`. */
    method Iterate(start: real, rounds: seq<Round>) returns (sleeps: seq<real>)
      requires Valid()
      modifies this
      ensures Valid() && sleeps == Sleeps(config, old(Now()), start, rounds)
      ensures Counted() == CountedAfter(config, old(Now()), start, rounds, old(Counted()))
    {
      hide Count;
      hide SleepFor;
      var now := start;
      sleeps := [];
      for i := 0 to |rounds|
        invariant Valid()
        invariant Sleeps(config, old(Now()), start, rounds) == sleeps + Sleeps(config, Now(), now, rounds[i..])
        invariant CountedAfter(config, old(Now()), start, rounds, old(Counted())) ==
                  CountedAfter(config, Now(), now, rounds[i..], Counted())
      {
        assert rounds[i..][1..] == rounds[i + 1..];
        var sleepTime := Tick(now);
        now := now + sleepTime + rounds[i].over;
        OnBeforeYield(now);
        sleeps := sleeps + [sleepTime];
        now := now + rounds[i].runtime;
      }
      assert rounds[|rounds|..] == [];
    }
  }

  datatype Round = Round(over: real, runtime: real)

  /** The sleep times handed out from state `s` on. */
  ghost function Sleeps(c: Config, s: State, now: real, rounds: seq<Round>): (sleeps: seq<real>)
    ensures |sleeps| == |rounds|
    decreases |rounds|
  {
    if rounds == [] then []
    else
      var sleep := SleepFor(c, s);
      var woken := now + sleep + rounds[0].over;
      [sleep] + Sleeps(c, State(s.epoch, now, woken), woken + rounds[0].runtime, rounds[1..])
  }

  /** What has been counted after the rounds. */
  ghost function CountedAfter(c: Config, s: State, now: real, rounds: seq<Round>, n: Counters): Counters
    decreases |rounds|
  {
    if rounds == [] then n
    else
      var woken := now + SleepFor(c, s) + rounds[0].over;
      CountedAfter(c, State(s.epoch, now, woken), woken + rounds[0].runtime, rounds[1..], Count(c, s, now, n))
  }

  // ---- The range of the sleep times ----

  /** A correction is made in full if it is within the limit, and otherwise up to the limit; a limit of
      the interval or more leaves no room for any.  With a negative limit it is always made, and is
      always that limit, so that it goes the wrong way. */
  lemma CorrectionIsLimited(c: Config, drift: real)
    ensures var m, corrected := c.maxDriftCorrection, c.AdjustInterval(drift);
            if c.interval <= m then corrected == c.interval
            else if m >= 0.0 then corrected == c.interval + (if drift > m then m else if drift < -m then -m else drift)
            else corrected == c.interval + (if drift > 0.0 then m else if drift < 0.0 then -m else 0.0)
  {}

  ghost predicate AllInRange(c: Config, sleeps: seq<real>) {
    forall i :: 0 <= i < |sleeps| ==> c.InRange(sleeps[i])
  }

  /** Every sleep time handed out is in the range, whatever the sleeps and the consumers took,
      exactly if the correction may not be negative, or does not apply. */
  lemma {:induction false} SleepsInRange(c: Config, s: State, now: real, rounds: seq<Round>)
    ensures AllInRange(c, Sleeps(c, s, now, rounds)) <==>
            rounds == [] || c.maxDriftCorrection >= 0.0 || c.interval <= c.maxDriftCorrection
    decreases |rounds|
  {
    hide Config.InRange;
    hide AllInRange;
    hide SleepFor;
    SleepInRange(c, s);
    if rounds == [] {
      OneMoreInRange(c, [], 0.0, []);
    } else {
      var sleep := SleepFor(c, s);
      var woken := now + sleep + rounds[0].over;
      SleepsInRange(c, State(s.epoch, now, woken), woken + rounds[0].runtime, rounds[1..]);
      OneMoreInRange(c, Sleeps(c, s, now, rounds), sleep,
                     Sleeps(c, State(s.epoch, now, woken), woken + rounds[0].runtime, rounds[1..]));
    }
  }

  lemma OneMoreInRange(c: Config, sleeps: seq<real>, sleep: real, rest: seq<real>)
    ensures AllInRange(c, [])
    ensures sleeps == [sleep] + rest ==> (AllInRange(c, sleeps) <==> c.InRange(sleep) && AllInRange(c, rest))
  {
    hide Config.InRange;
    if sleeps == [sleep] + rest {
      assert sleeps[0] == sleep && forall i :: 0 <= i < |rest| ==> sleeps[i + 1] == rest[i];
      if AllInRange(c, sleeps) {
        forall i | 0 <= i < |rest|
          ensures c.InRange(rest[i])
        {
          assert c.InRange(sleeps[i + 1]);
        }
      }
    }
  }

  lemma SleepInRange(c: Config, s: State)
    ensures c.InRange(SleepFor(c, s)) <==> c.maxDriftCorrection >= 0.0 || c.interval <= c.maxDriftCorrection
  {}

  // ---- Making up for drift ----

  /** `sleeps` were handed out by a timer whose sleeps took longer by `overs`. */
  ghost predicate Corrected(c: Config, sleeps: seq<real>, overs: seq<real>) {
    && |sleeps| == |overs|
    && (sleeps != [] ==> sleeps[0] == c.interval)
    && (forall i :: 0 < i < |sleeps| ==>
          sleeps[i] == c.AdjustInterval(c.interval - (sleeps[i - 1] + overs[i - 1])))
  }

  function Overs(rounds: seq<Round>): seq<real> {
    seq(|rounds|, i requires 0 <= i < |rounds| => rounds[i].over)
  }

  /** Sleeping takes time, and running the consumer does not turn time back. */
  ghost predicate TimePasses(sleeps: seq<real>, rounds: seq<Round>)
    requires |sleeps| == |rounds|
  {
    forall i :: 0 <= i < |rounds| ==> sleeps[i] + rounds[i].over > 0.0 && rounds[i].runtime >= 0.0
  }

  /** The time spent in the sleep before number `i`, when `first` was spent in the one before all. */
  function SleptBefore(sleeps: seq<real>, rounds: seq<Round>, i: nat, first: real): real
    requires i <= |sleeps| == |rounds|
  {
    if i == 0 then first else sleeps[i - 1] + rounds[i - 1].over
  }

  ghost predicate CorrectedAfter(c: Config, first: real, sleeps: seq<real>, rounds: seq<Round>) {
    && |sleeps| == |rounds|
    && forall i :: 0 <= i < |sleeps| ==>
         sleeps[i] == c.AdjustInterval(c.interval - SleptBefore(sleeps, rounds, i, first))
  }

  lemma FirstSleep(c: Config, s: State, now: real, rounds: seq<Round>)
    requires rounds != []
    ensures var sleep := SleepFor(c, s);
            var woken := now + sleep + rounds[0].over;
            Sleeps(c, s, now, rounds) ==
            [sleep] + Sleeps(c, State(s.epoch, now, woken), woken + rounds[0].runtime, rounds[1..])
  {}

  /** From its second round on a timer corrects each sleep by the drift of the one before. */
  lemma EachSleepIsCorrected(c: Config, epoch: real, start: real, rounds: seq<Round>)
    requires start >= epoch
    requires TimePasses(Sleeps(c, State(epoch, epoch, epoch), start, rounds), rounds)
    ensures Corrected(c, Sleeps(c, State(epoch, epoch, epoch), start, rounds), Overs(rounds))
  {
    hide Sleeps;
    hide TimePasses;
    hide CorrectedAfter;
    hide Corrected;
    if rounds == [] {
      NothingToCorrect(c, Sleeps(c, State(epoch, epoch, epoch), start, rounds), Overs(rounds));
    } else {
      FirstSleep(c, State(epoch, epoch, epoch), start, rounds);
      var woken := start + c.interval + rounds[0].over;
      var s := State(epoch, start, woken);
      var rest := Sleeps(c, s, woken + rounds[0].runtime, rounds[1..]);
      TimePassesFirst(c.interval, rest, rounds);
      LaterSleeps(c, s, woken + rounds[0].runtime, rounds[1..]);
      assert woken - start == c.interval + rounds[0].over;
      FromTheFirst(c, rest, rounds);
    }
  }

  lemma NothingToCorrect(c: Config, sleeps: seq<real>, overs: seq<real>)
    requires sleeps == overs == []
    ensures Corrected(c, sleeps, overs)
  {}

  lemma TimePassesFirst(sleep: real, rest: seq<real>, rounds: seq<Round>)
    requires 1 + |rest| == |rounds| && TimePasses([sleep] + rest, rounds)
    ensures sleep + rounds[0].over > 0.0 && rounds[0].runtime >= 0.0 && TimePasses(rest, rounds[1..])
  {
    var sleeps := [sleep] + rest;
    assert sleeps[0] == sleep;
    assert forall i :: 0 <= i < |rest| ==> rest[i] == sleeps[i + 1] && rounds[1..][i] == rounds[i + 1];
  }

  lemma FromTheFirst(c: Config, rest: seq<real>, rounds: seq<Round>)
    requires 1 + |rest| == |rounds| && CorrectedAfter(c, c.interval + rounds[0].over, rest, rounds[1..])
    ensures Corrected(c, [c.interval] + rest, Overs(rounds))
  {
    hide Config.AdjustInterval;
    var sleeps := [c.interval] + rest;
    forall i | 0 < i < |sleeps|
      ensures sleeps[i] == c.AdjustInterval(c.interval - (sleeps[i - 1] + Overs(rounds)[i - 1]))
    {
      var slept := SleptBefore(rest, rounds[1..], i - 1, c.interval + rounds[0].over);
      assert rest[i - 1] == c.AdjustInterval(c.interval - slept);
    }
  }

  lemma OneMoreCorrected(c: Config, first: real, sleep: real, rest: seq<real>, rounds: seq<Round>)
    requires 1 + |rest| == |rounds| && sleep == c.AdjustInterval(c.interval - first)
    requires CorrectedAfter(c, sleep + rounds[0].over, rest, rounds[1..])
    ensures CorrectedAfter(c, first, [sleep] + rest, rounds)
  {
    hide Config.AdjustInterval;
    var sleeps := [sleep] + rest;
    forall i | 0 <= i < |sleeps|
      ensures sleeps[i] == c.AdjustInterval(c.interval - SleptBefore(sleeps, rounds, i, first))
    {
      if i > 0 {
        var slept := SleptBefore(rest, rounds[1..], i - 1, sleep + rounds[0].over);
        assert rest[i - 1] == c.AdjustInterval(c.interval - slept);
      }
    }
  }

  lemma {:induction false} LaterSleeps(c: Config, s: State, now: real, rounds: seq<Round>)
    requires s.epoch < s.lastYieldAt <= now
    requires TimePasses(Sleeps(c, s, now, rounds), rounds)
    ensures CorrectedAfter(c, s.lastYieldAt - s.lastWakeupAt, Sleeps(c, s, now, rounds), rounds)
    decreases |rounds|
  {
    hide Sleeps;
    hide TimePasses;
    hide Config.AdjustInterval;
    if rounds == [] {
    } else {
      hide CorrectedAfter;
      FirstSleep(c, s, now, rounds);
      var sleep := SleepFor(c, s);
      var woken := now + sleep + rounds[0].over;
      var s' := State(s.epoch, now, woken);
      var rest := Sleeps(c, s', woken + rounds[0].runtime, rounds[1..]);
      TimePassesFirst(sleep, rest, rounds);
      LaterSleeps(c, s', woken + rounds[0].runtime, rounds[1..]);
      assert woken - now == sleep + rounds[0].over;
      OneMoreCorrected(c, s.lastYieldAt - s.lastWakeupAt, sleep, rest, rounds);
    }
  }

  // ---- What is counted ----

  /** What is worth counting: a sleep that took longer than the interval, or shorter, by 30 percent of it
      or by 1.2 seconds; and a consumer that ran for longer. */
  datatype Notable = Late | Early | Overlap

  predicate IsNotable(c: Config, what: Notable, time: real) {
    match what
    case Late => c.interval >= 1.0 && (time >= 1.3 * c.interval || time >= c.interval + 1.2)
    case Early => c.interval >= 1.0 && (time <= 0.7 * c.interval || time <= c.interval - 1.2)
    case Overlap => time > c.interval
  }

  function HowMany(times: seq<real>, c: Config, what: Notable): nat {
    if times == [] then 0 else (if IsNotable(c, what, times[0]) then 1 else 0) + HowMany(times[1..], c, what)
  }

  /** How long each sleep took. */
  function SleptTimes(sleeps: seq<real>, rounds: seq<Round>): seq<real>
    requires |sleeps| == |rounds|
  {
    seq(|rounds|, i requires 0 <= i < |rounds| => sleeps[i] + rounds[i].over)
  }

  function Runtimes(rounds: seq<Round>): seq<real> {
    seq(|rounds|, i requires 0 <= i < |rounds| => rounds[i].runtime)
  }

  /** `n'` counts what `n` does and these sleeps and running times of the consumer. */
  ghost predicate Counts(c: Config, n: Counters, n': Counters, slept: seq<real>, runtimes: seq<real>) {
    && n'.iteration == n.iteration + |slept|
    && n'.late == n.late + HowMany(slept, c, Late)
    && n'.early == n.early + HowMany(slept, c, Early)
    && n'.overlaps == n.overlaps + HowMany(runtimes, c, Overlap)
  }

  lemma TickCounts(c: Config, s: State, now: real, n: Counters)
    requires !s.LooksNew()
    ensures Counts(c, n, Count(c, s, now, n), [s.lastYieldAt - s.lastWakeupAt], [now - s.lastYieldAt])
  {
    var slept, runtime := s.lastYieldAt - s.lastWakeupAt, now - s.lastYieldAt;
    assert [slept][1..] == [] && [runtime][1..] == [];
  }

  lemma MoreCounts(c: Config, n: Counters, m: Counters, k: Counters, x: real, y: real, xs: seq<real>, ys: seq<real>)
    requires Counts(c, n, m, [x], [y]) && Counts(c, m, k, xs, ys)
    ensures Counts(c, n, k, [x] + xs, [y] + ys)
  {
    OneMoreNotable(x, xs, c, Late);
    OneMoreNotable(x, xs, c, Early);
    OneMoreNotable(y, ys, c, Overlap);
  }

  lemma OneMoreNotable(time: real, times: seq<real>, c: Config, what: Notable)
    ensures HowMany([time] + times, c, what) == HowMany([time], c, what) + HowMany(times, c, what)
  {
    assert ([time] + times)[1..] == times && [time][1..] == [];
  }

  lemma {:induction false} LaterCounts(c: Config, s: State, now: real, rounds: seq<Round>, n: Counters)
    requires s.epoch < s.lastYieldAt <= now
    requires TimePasses(Sleeps(c, s, now, rounds), rounds)
    ensures Counts(c, n, CountedAfter(c, s, now, rounds, n),
                   ([s.lastYieldAt - s.lastWakeupAt] + SleptTimes(Sleeps(c, s, now, rounds), rounds))[..|rounds|],
                   ([now - s.lastYieldAt] + Runtimes(rounds))[..|rounds|])
    decreases |rounds|
  {
    hide Sleeps;
    hide TimePasses;
    hide Counts;
    hide Count;
    hide SleepFor;
    var slept, runtime := s.lastYieldAt - s.lastWakeupAt, now - s.lastYieldAt;
    if rounds == [] {
      CountsNothing(c, n);
      assert ([slept] + SleptTimes(Sleeps(c, s, now, rounds), rounds))[..0] == [];
      assert ([runtime] + Runtimes(rounds))[..0] == [];
    } else {
      FirstSleep(c, s, now, rounds);
      var sleep := SleepFor(c, s);
      var woken := now + sleep + rounds[0].over;
      var s', now' := State(s.epoch, now, woken), woken + rounds[0].runtime;
      var rest := Sleeps(c, s', now', rounds[1..]);
      TimePassesFirst(sleep, rest, rounds);
      TickCounts(c, s, now, n);
      LaterCounts(c, s', now', rounds[1..], Count(c, s, now, n));
      FirstsAndRests(sleep, rest, rounds, slept, runtime);
      assert woken - now == sleep + rounds[0].over && now' - woken == rounds[0].runtime;
      MoreCounts(c, n, Count(c, s, now, n), CountedAfter(c, s, now, rounds, n), slept, runtime,
                 ([woken - now] + SleptTimes(rest, rounds[1..]))[..|rounds| - 1],
                 ([now' - woken] + Runtimes(rounds[1..]))[..|rounds| - 1]);
    }
  }

  lemma CountsNothing(c: Config, n: Counters)
    ensures Counts(c, n, n, [], [])
  {}

  lemma FirstsAndRests(sleep: real, rest: seq<real>, rounds: seq<Round>, slept: real, runtime: real)
    requires 1 + |rest| == |rounds|
    ensures SleptTimes([sleep] + rest, rounds) == [sleep + rounds[0].over] + SleptTimes(rest, rounds[1..])
    ensures Runtimes(rounds) == [rounds[0].runtime] + Runtimes(rounds[1..])
    ensures ([slept] + SleptTimes([sleep] + rest, rounds))[..|rounds|] ==
            [slept] + ([sleep + rounds[0].over] + SleptTimes(rest, rounds[1..]))[..|rounds| - 1]
    ensures ([runtime] + Runtimes(rounds))[..|rounds|] ==
            [runtime] + ([rounds[0].runtime] + Runtimes(rounds[1..]))[..|rounds| - 1]
  {}

  /** A timer counts every round after the first; those sleeps as late or early that were off by 30
      percent of the interval or by 1.2 seconds, if the interval is a second or more; and as overlaps the
      rounds whose consumer ran for longer than the interval: of all rounds but the last. */
  lemma CountersTell(c: Config, epoch: real, start: real, rounds: seq<Round>)
    requires epoch <= start && rounds != []
    requires TimePasses(Sleeps(c, State(epoch, epoch, epoch), start, rounds), rounds)
    ensures var none, s := Counters(0, 0, 0, 0), State(epoch, epoch, epoch);
            Counts(c, none, CountedAfter(c, s, start, rounds, none),
                   SleptTimes(Sleeps(c, s, start, rounds), rounds)[..|rounds| - 1], Runtimes(rounds)[..|rounds| - 1])
  {
    hide Sleeps;
    hide TimePasses;
    hide Counts;
    var none, s := Counters(0, 0, 0, 0), State(epoch, epoch, epoch);
    FirstSleep(c, s, start, rounds);
    var woken := start + c.interval + rounds[0].over;
    var s' := State(epoch, start, woken);
    var now' := woken + rounds[0].runtime;
    var rest := Sleeps(c, s', now', rounds[1..]);
    TimePassesFirst(c.interval, rest, rounds);
    LaterCounts(c, s', now', rounds[1..], none);
    FirstsAndRests(c.interval, rest, rounds, 0.0, 0.0);
    assert woken - start == c.interval + rounds[0].over && now' - woken == rounds[0].runtime;
  }

  // ---- How much is slept in all ----

  /** The time spent in the first `n` sleeps. */
  ghost function Slept(sleeps: seq<real>, overs: seq<real>, n: nat): real
    requires n <= |sleeps| == |overs|
  {
    if n == 0 then 0.0 else Slept(sleeps, overs, n - 1) + sleeps[n - 1] + overs[n - 1]
  }

  /** No correction before the last of the first `n` sleeps hits the limits. */
  ghost predicate Unclamped(c: Config, sleeps: seq<real>, overs: seq<real>, n: nat)
    requires n <= |sleeps| == |overs|
  {
    forall i :: 0 <= i < n - 1 ==> c.InRange(2.0 * c.interval - (sleeps[i] + overs[i]))
  }

  /** Every other oversleep, counted back from sleep `n`. */
  ghost function EveryOther(overs: seq<real>, n: nat): real
    requires n <= |overs|
  {
    if n == 0 then 0.0 else if n == 1 then overs[0] else EveryOther(overs, n - 2) + overs[n - 1]
  }

  /** The oversleep of one sleep is made up for by the next, so two sleeps in a row add up to
      two intervals and the second oversleep alone. */
  lemma PairOfSleeps(c: Config, sleeps: seq<real>, overs: seq<real>, i: nat)
    requires Corrected(c, sleeps, overs) && i + 1 < |sleeps|
    requires c.InRange(2.0 * c.interval - (sleeps[i] + overs[i]))
    ensures (sleeps[i] + overs[i]) + (sleeps[i + 1] + overs[i + 1]) == 2.0 * c.interval + overs[i + 1]
  {}

  lemma TwoMoreSlept(sleeps: seq<real>, overs: seq<real>, n: nat)
    requires 2 <= n <= |sleeps| == |overs|
    ensures Slept(sleeps, overs, n) ==
            Slept(sleeps, overs, n - 2) + ((sleeps[n - 2] + overs[n - 2]) + (sleeps[n - 1] + overs[n - 1]))
    ensures EveryOther(overs, n) == EveryOther(overs, n - 2) + overs[n - 1]
  {}

  lemma TwoIntervalsMore(n: nat, x: real)
    requires n >= 2
    ensures n as real * x == (n - 2) as real * x + 2.0 * x
  {
    Distribute((n - 2) as real, 2.0, x);
  }

  lemma Distribute(a: real, b: real, x: real)
    ensures (a + b) * x == a * x + b * x
  {}

  /** So the timer drifts by every other oversleep only. */
  lemma {:induction false} DriftOfManySleeps(c: Config, sleeps: seq<real>, overs: seq<real>, n: nat)
    requires n <= |sleeps| == |overs| && Corrected(c, sleeps, overs) && Unclamped(c, sleeps, overs, n)
    ensures Slept(sleeps, overs, n) == n as real * c.interval + EveryOther(overs, n)
  {
    hide Slept;
    hide EveryOther;
    hide Config.AdjustInterval;
    FewSlept(c, sleeps, overs);
    if n < 2 {
    } else {
      DriftOfManySleeps(c, sleeps, overs, n - 2);
      PairOfSleeps(c, sleeps, overs, n - 2);
      TwoMoreSlept(sleeps, overs, n);
      TwoIntervalsMore(n, c.interval);
    }
  }

  lemma FewSlept(c: Config, sleeps: seq<real>, overs: seq<real>)
    requires Corrected(c, sleeps, overs)
    ensures Slept(sleeps, overs, 0) == 0.0 == EveryOther(overs, 0)
    ensures sleeps != [] ==> Slept(sleeps, overs, 1) == c.interval + overs[0] && EveryOther(overs, 1) == overs[0]
  {}

  /** A timer whose sleeps all take longer by the same `e`, within what may be corrected, drifts
      by `e` every other round, whatever its consumer does. */
  lemma ConstantOversleep(c: Config, epoch: real, start: real, rounds: seq<Round>, e: real)
    requires 0.0 <= e <= c.maxDriftCorrection < c.interval && epoch <= start
    requires forall i :: 0 <= i < |rounds| ==> rounds[i].over == e && rounds[i].runtime >= 0.0
    ensures Slept(Sleeps(c, State(epoch, epoch, epoch), start, rounds), Overs(rounds), |rounds|) ==
            |rounds| as real * c.interval + ((|rounds| + 1) / 2) as real * e
  {
    hide *;
    var sleeps, overs := Sleeps(c, State(epoch, epoch, epoch), start, rounds), Overs(rounds);
    SleepsInRange(c, State(epoch, epoch, epoch), start, rounds);
    InRangeTakesTime(c, sleeps, rounds, e);
    EachSleepIsCorrected(c, epoch, start, rounds);
    SteadySleeps(c, sleeps, overs, e);
    DriftOfManySleeps(c, sleeps, overs, |rounds|);
    EveryOtherIsHalf(overs, e, |rounds|);
  }

  lemma InRangeTakesTime(c: Config, sleeps: seq<real>, rounds: seq<Round>, e: real)
    requires 0.0 <= e <= c.maxDriftCorrection < c.interval && |sleeps| == |rounds|
    requires rounds == [] || AllInRange(c, sleeps)
    requires forall i :: 0 <= i < |rounds| ==> rounds[i].over == e && rounds[i].runtime >= 0.0
    ensures TimePasses(sleeps, rounds)
    ensures |Overs(rounds)| == |rounds| && forall i :: 0 <= i < |rounds| ==> Overs(rounds)[i] == e
  {}

  lemma SteadySleeps(c: Config, sleeps: seq<real>, overs: seq<real>, e: real)
    requires 0.0 <= e <= c.maxDriftCorrection < c.interval && Corrected(c, sleeps, overs)
    requires forall i :: 0 <= i < |overs| ==> overs[i] == e
    ensures Unclamped(c, sleeps, overs, |sleeps|)
  {
    for i := 0 to |sleeps|
      invariant forall k :: 0 <= k < i ==> sleeps[k] == if k % 2 == 0 then c.interval else c.interval - e
    {
      assert i > 0 ==> sleeps[i] == c.AdjustInterval(c.interval - (sleeps[i - 1] + overs[i - 1]));
    }
  }

  lemma {:induction false} EveryOtherIsHalf(overs: seq<real>, e: real, n: nat)
    requires n <= |overs| && forall i :: 0 <= i < |overs| ==> overs[i] == e
    ensures EveryOther(overs, n) == ((n + 1) / 2) as real * e
  {
    OneMoreHalf(n, e);
    if n < 2 {
    } else {
      EveryOtherIsHalf(overs, e, n - 2);
    }
  }

  lemma OneMoreHalf(n: nat, e: real)
    ensures n == 0 ==> ((n + 1) / 2) as real * e == 0.0
    ensures n == 1 ==> ((n + 1) / 2) as real * e == e
    ensures n >= 2 ==> ((n + 1) / 2) as real * e == ((n - 1) / 2) as real * e + e
  {
    if n >= 2 {
      assert (n + 1) / 2 == (n - 1) / 2 + 1;
      Distribute(((n - 1) / 2) as real, 1.0, e);
    }
  }
}
