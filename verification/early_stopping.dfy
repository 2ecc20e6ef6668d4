/** The early-stopping callback of the tuner (blobcity/config/tuner.py:33-62).

    The callback keeps two class-level variables, the recorded best score
    (None at start) and an iteration counter, and is invoked once per
    finished trial with the study's running best value. Asking the study to
    stop does not end the callback: the rest of the step still runs, so one
    step yields a new state together with a "stop requested" flag. Trial
    values are modelled as reals; callbacks are modelled as a sequential
    series of invocations. */
module EarlyStopping {
  import opened Wrappers
  import opened Study

  /** Number of non-improving callbacks tolerated in the band (iter_stop). */
  const IterStop: nat := 10
  /** A best value at or above this asks the study to stop at once. */
  const Target: real := 0.99
  /** Lower (exclusive) end of the band in which stalling is counted. */
  const BandFloor: real := 0.90

  /** The class-level state: recorded best score and iteration counter. */
  datatype Stopper = Stopper(best: Option<real>, count: nat)

  /** The state before the first callback (and after a stall-stop). */
  const Fresh: Stopper := Stopper(None, 0)

  datatype StepResult = StepResult(next: Stopper, stop: bool)

  datatype RunResult = RunResult(next: Stopper, stops: seq<bool>)

  /** The band is strict at both ends. */
  predicate InBand(v: real)
  {
    BandFloor < v < Target
  }

  /** The recorded best the comparison sees: an empty record adopts `v`. */
  function Recorded(s: Stopper, v: real): (b: real)
  {
    match s.best
    case None => v
    case Some(b) => b
  }

  /** The callback counts as an improvement when `v` beats the recorded best. */
  predicate Improves(s: Stopper, v: real)
  {
    v > Recorded(s, v)
  }

  /** One callback with the study's best value `v`. */
  function Step(s: Stopper, v: real): (r: StepResult)
    ensures v >= Target ==> r.stop
    ensures r.stop <==> v >= Target || (InBand(v) && !Improves(s, v) && s.count >= IterStop)
    ensures r.stop ==> v > BandFloor
    ensures Improves(s, v) ==> r.next == Stopper(Some(v), 0)
    ensures !Improves(s, v) && InBand(v) && s.count < IterStop ==>
              !r.stop && r.next == Stopper(Some(Recorded(s, v)), s.count + 1)
    ensures !Improves(s, v) && InBand(v) && s.count >= IterStop ==> r.stop && r.next == Fresh
    ensures !Improves(s, v) && !InBand(v) ==> r.next == Stopper(Some(Recorded(s, v)), s.count)
    ensures s.count <= IterStop ==> r.next.count <= IterStop
  {
    var b := Recorded(s, v);
    var reached := v >= Target;
    if v > b then
      StepResult(Stopper(Some(v), 0), reached)
    else if InBand(v) then
      if s.count < IterStop then
        StepResult(Stopper(Some(b), s.count + 1), reached)
      else
        StepResult(Fresh, true)
    else
      StepResult(Stopper(Some(b), s.count), reached)
  }

  /** A series of callbacks, the last value handled last: the final state and
      the stop flag of every callback. */
  function Run(s: Stopper, vs: seq<real>): (r: RunResult)
    ensures |r.stops| == |vs|
    ensures s.count <= IterStop ==> r.next.count <= IterStop
    ensures forall i :: 0 <= i < |vs| && vs[i] >= Target ==> r.stops[i]
    ensures forall i :: 0 <= i < |vs| && r.stops[i] ==> vs[i] > BandFloor
    decreases |vs|
  {
    if |vs| == 0 then RunResult(s, [])
    else
      var prev := Run(s, vs[..|vs| - 1]);
      var step := Step(prev.next, vs[|vs| - 1]);
      RunResult(step.next, prev.stops + [step.stop])
  }

  /** The flag of callback i is the flag of one step from the state the
      first i callbacks left behind. */
  lemma {:induction false} RunStopIsStep(s: Stopper, vs: seq<real>, i: nat)
    requires i < |vs|
    ensures Run(s, vs).stops[i] == Step(Run(s, vs[..i]).next, vs[i]).stop
    decreases |vs|
  {
    var init := vs[..|vs| - 1];
    if i < |vs| - 1 {
      RunStopIsStep(s, init, i);
      assert init[..i] == vs[..i];
    } else {
      assert init == vs[..i];
    }
  }

  /** `n` callbacks that all see the same value. */
  function Repeat(v: real, n: nat): (vs: seq<real>)
    ensures |vs| == n
    ensures forall i :: 0 <= i < n ==> vs[i] == v
  {
    seq(n, _ => v)
  }

  /** A state on a plateau at `v` that has seen `c` non-improving callbacks:
      either it records `v`, or it is empty with a zero counter (which the
      next callback treats exactly as recording `v`). */
  ghost predicate OnPlateau(s: Stopper, v: real, c: nat)
  {
    s.count == c && (s.best == Some(v) || (s.best == None && c == 0))
  }

  /** A constant value inside the band: the counter cycles with period
      IterStop + 1 and a stall-stop is requested exactly when the counter
      has reached IterStop. */
  lemma {:induction false} PlateauRun(s: Stopper, v: real, c: nat, n: nat)
    requires InBand(v)
    requires c <= IterStop
    requires OnPlateau(s, v, c)
    ensures OnPlateau(Run(s, Repeat(v, n)).next, v, (c + n) % (IterStop + 1))
    ensures forall i :: 0 <= i < n ==>
              (Run(s, Repeat(v, n)).stops[i] <==> (c + i) % (IterStop + 1) == IterStop)
  {
    if n > 0 {
      PlateauRun(s, v, c, n - 1);
      assert Repeat(v, n)[..n - 1] == Repeat(v, n - 1);
      var prev := Run(s, Repeat(v, n - 1));
      var step := Step(prev.next, v);
      assert Run(s, Repeat(v, n)) == RunResult(step.next, prev.stops + [step.stop]);
      var k := (c + n - 1) % (IterStop + 1);
      CounterCycle(c + n - 1);
      assert OnPlateau(prev.next, v, k);
      assert !Improves(prev.next, v);
    }
  }

  /** One more callback advances the cycle position by one, wrapping after
      IterStop. */
  lemma CounterCycle(m: nat)
    ensures m % (IterStop + 1) < IterStop ==> (m + 1) % (IterStop + 1) == m % (IterStop + 1) + 1
    ensures m % (IterStop + 1) == IterStop ==> (m + 1) % (IterStop + 1) == 0
  {
  }

  /** From the initial state, a best value that stays strictly inside the
      band first asks to stop on the 11th callback, never earlier. */
  lemma PlateauStopsOnEleventh(v: real, n: nat)
    requires InBand(v)
    requires n > IterStop
    ensures Run(Fresh, Repeat(v, n)).stops[IterStop]
    ensures forall i :: 0 <= i < IterStop ==> !Run(Fresh, Repeat(v, n)).stops[i]
  {
    PlateauRun(Fresh, v, 0, n);
  }

  /** Handling the first callback separately from the rest of the series. */
  lemma {:induction false} RunCons(s: Stopper, x: real, vs: seq<real>)
    ensures Run(s, [x] + vs).next == Run(Step(s, x).next, vs).next
    ensures Run(s, [x] + vs).stops == [Step(s, x).stop] + Run(Step(s, x).next, vs).stops
    decreases |vs|
  {
    var t := Step(s, x).next;
    if |vs| == 0 {
      assert [x] + vs == [x];
      assert [x][..0] == [];
    } else {
      var init := vs[..|vs| - 1];
      var last := vs[|vs| - 1];
      var w := [x] + vs;
      RunCons(s, x, init);
      assert w[..|w| - 1] == [x] + init;
      assert w[|w| - 1] == last;
      var before := Run(s, [x] + init);
      assert Run(s, w) == RunResult(Step(before.next, last).next, before.stops + [Step(before.next, last).stop]);
      var after := Run(t, init);
      assert Run(t, vs) == RunResult(Step(after.next, last).next, after.stops + [Step(after.next, last).stop]);
    }
  }

  /** The improving callback zeroes the counter without counting itself, so
      after it the same in-band value must be seen on 11 further callbacks
      before a stall-stop: the first stop is at index IterStop + 1, one
      later than from the initial state, where the adopting callback counts. */
  lemma ImprovementRestartsPlateau(s: Stopper, v: real, n: nat)
    requires Improves(s, v)
    requires InBand(v)
    requires n > IterStop
    ensures forall i :: 0 <= i <= IterStop ==> !Run(s, [v] + Repeat(v, n)).stops[i]
    ensures Run(s, [v] + Repeat(v, n)).stops[IterStop + 1]
  {
    RunCons(s, v, Repeat(v, n));
    PlateauRun(Stopper(Some(v), 0), v, 0, n);
  }

  /** What the state remembers of the values seen so far, starting fresh,
      when those values are non-decreasing: a recorded best is the latest
      value, and the last `count` values are all equal. */
  ghost predicate Tracks(s: Stopper, vs: seq<real>)
  {
    && s.count <= IterStop
    && s.count <= |vs|
    && (s.best.Some? ==> |vs| > 0 && s.best.value == vs[|vs| - 1])
    && (s.count > 0 ==> s.best.Some?)
    && (forall j :: |vs| - s.count <= j < |vs| ==> vs[j] == vs[|vs| - 1])
  }

  lemma {:induction false} RunTracks(vs: seq<real>)
    requires NonDecreasing(vs)
    ensures Tracks(Run(Fresh, vs).next, vs)
    decreases |vs|
  {
    if |vs| > 0 {
      var init := vs[..|vs| - 1];
      assert NonDecreasing(init);
      RunTracks(init);
      var s := Run(Fresh, init).next;
      var v := vs[|vs| - 1];
      if s.best.Some? {
        assert s.best.value <= v;
      }
      forall j | |vs| - Run(Fresh, vs).next.count <= j < |vs|
        ensures vs[j] == v
      {
        if j < |vs| - 1 {
          assert init[j] == init[|init| - 1];
        }
      }
    }
  }

  /** A stall-stop is never early: on a non-decreasing series from the
      initial state, a stop requested below the target comes after the same
      value was seen on at least IterStop + 1 consecutive callbacks. */
  lemma StallStopNeedsPlateau(vs: seq<real>)
    requires NonDecreasing(vs)
    ensures forall i :: 0 <= i < |vs| && Run(Fresh, vs).stops[i] && vs[i] < Target ==>
              i >= IterStop && forall j :: i - IterStop <= j <= i ==> vs[j] == vs[i]
  {
    forall i | 0 <= i < |vs| && Run(Fresh, vs).stops[i] && vs[i] < Target
      ensures i >= IterStop && forall j :: i - IterStop <= j <= i ==> vs[j] == vs[i]
    {
      var init := vs[..i];
      assert NonDecreasing(init);
      RunTracks(init);
      RunStopIsStep(Fresh, vs, i);
      var s := Run(Fresh, init).next;
      assert s.count == IterStop;
      assert s.best.value == vs[i - 1] <= vs[i];
      forall j | i - IterStop <= j <= i
        ensures vs[j] == vs[i]
      {
        if j < i {
          assert init[j] == init[i - 1];
        }
      }
    }
  }

  ghost predicate StrictlyIncreasing(vs: seq<real>)
  {
    forall i, j :: 0 <= i < j < |vs| ==> vs[i] < vs[j]
  }

  /** A best value that improves on every callback and stays below the
      target never asks the study to stop. */
  lemma StrictImprovementNeverStops(vs: seq<real>)
    requires StrictlyIncreasing(vs)
    requires forall i :: 0 <= i < |vs| ==> vs[i] < Target
    ensures forall i :: 0 <= i < |vs| ==> !Run(Fresh, vs).stops[i]
  {
    StallStopNeedsPlateau(vs);
    forall i | 0 <= i < |vs|
      ensures !Run(Fresh, vs).stops[i]
    {
      if i >= IterStop {
        assert vs[i - 1] < vs[i];
      }
    }
  }

  /** The callback's state lives on the class and no study resets it, so a
      later study starts from whatever the previous one left. A record at or
      above every value seen keeps each in-band callback non-improving, so the
      counter just climbs. */
  lemma {:induction false} CarriedRecordCountsUp(b: real, vs: seq<real>)
    requires |vs| <= IterStop
    requires forall i :: 0 <= i < |vs| ==> InBand(vs[i]) && vs[i] <= b
    ensures Run(Stopper(Some(b), 0), vs).next == Stopper(Some(b), |vs|)
    ensures forall i :: 0 <= i < |vs| ==> !Run(Stopper(Some(b), 0), vs).stops[i]
    decreases |vs|
  {
    if |vs| > 0 {
      var init := vs[..|vs| - 1];
      CarriedRecordCountsUp(b, init);
    }
  }

  /** A record carried over from an earlier study (one stopped at 0.995)
      makes a strictly improving in-band series stop on its 11th callback,
      while the same series never stops from the initial state. */
  lemma CarriedStateStopsImprovingSeries()
    ensures var vs := [0.91, 0.92, 0.93, 0.94, 0.95, 0.96, 0.97, 0.98, 0.985, 0.986, 0.987];
            && StrictlyIncreasing(vs)
            && (forall i :: 0 <= i < |vs| ==> vs[i] < Target)
            && (forall i :: 0 <= i < IterStop ==> !Run(Stopper(Some(0.995), 0), vs).stops[i])
            && Run(Stopper(Some(0.995), 0), vs).stops[IterStop]
            && !Run(Fresh, vs).stops[IterStop]
  {
    var vs := [0.91, 0.92, 0.93, 0.94, 0.95, 0.96, 0.97, 0.98, 0.985, 0.986, 0.987];
    var carried := Stopper(Some(0.995), 0);
    var init := vs[..IterStop];
    assert StrictlyIncreasing(vs);
    assert vs[..|vs| - 1] == init;
    CarriedRecordCountsUp(0.995, init);
    var prev := Run(carried, init);
    assert Run(carried, vs).stops == prev.stops + [Step(prev.next, vs[IterStop]).stop];
    StrictImprovementNeverStops(vs);
  }

  /** Fed with the study's running best, once some trial reaches the target
      every later callback asks the study to stop. */
  lemma TargetReachedStopsEveryLaterCallback(s: Stopper, values: seq<real>, i: nat)
    requires i < |values|
    requires values[i] >= Target
    ensures forall j :: i <= j < |values| ==> Run(s, RunningBest(values)).stops[j]
  {
  }
}
