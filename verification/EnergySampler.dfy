/** The sampler of a cumulative GPU energy counter, in millijoules and seconds over exact reals. */
module EnergySampler {
  import opened Common

  /** One wake-up of the sampling thread: the counter, if it could be read, and the clock. */
  datatype Reading = Reading(mj: Option<real>, now: real)

  /** The anchor (last counter value and its time) and the samples taken so far. */
  datatype Trace = Trace(mjLast: Option<real>, tLast: real, deltas: seq<real>, watts: seq<real>)

  function Step(t: Trace, r: Reading): Trace {
    if r.mj.None? || t.mjLast.None? then t
    else if r.now - t.tLast <= 0.0 then t
    else
      var dmj := r.mj.value - t.mjLast.value;
      if dmj < 0.0 then t.(mjLast := r.mj, tLast := r.now)
      else Trace(r.mj, r.now, t.deltas + [dmj], t.watts + [Watts(dmj, r.now - t.tLast)])
  }

  /** Mean power over an interval that used this many millijoules. */
  function Watts(mj: real, seconds: real): real
    requires seconds > 0.0
  {
    mj / 1000.0 / seconds
  }

  function Run(t: Trace, readings: seq<Reading>): Trace {
    if readings == [] then t else Step(Run(t, readings[..|readings| - 1]), readings[|readings| - 1])
  }

  function Sum(s: seq<real>): real {
    if s == [] then 0.0 else Sum(s[..|s| - 1]) + s[|s| - 1]
  }

  class Sampler {
    var mj0: Option<real>
    var mjLast: Option<real>
    var tLast: real
    var deltas: seq<real>
    var watts: seq<real>
    var windowJoules: Option<real>

    constructor ()
      ensures mj0 == None && mjLast == None && deltas == [] && watts == [] && windowJoules == None
    {
      mj0, mjLast, tLast, deltas, watts, windowJoules := None, None, 0.0, [], [], None;
    }

    ghost function Current(): Trace
      reads this
    {
      Trace(mjLast, tLast, deltas, watts)
    }

    method Enter(r: Reading)
      modifies this
      ensures mj0 == r.mj && Current() == Trace(r.mj, r.now, old(deltas), old(watts))
              && windowJoules == old(windowJoules)
    {
      mj0 := r.mj;
      mjLast := mj0;
      tLast := r.now;
    }

    method Loop(readings: seq<Reading>)
      modifies this
      ensures Current() == Run(old(Current()), readings)
      ensures mj0 == old(mj0) && windowJoules == old(windowJoules)
    {
      for i := 0 to |readings|
        invariant Current() == Run(old(Current()), readings[..i])
        invariant mj0 == old(mj0) && windowJoules == old(windowJoules)
      {
        assert readings[..i + 1][..i] == readings[..i];
        var r := readings[i];
        if r.mj.None? || mjLast.None? {
          continue;
        }
        var dt := r.now - tLast;
        if dt <= 0.0 {
          continue;
        }
        var dmj := r.mj.value - mjLast.value;
        if dmj < 0.0 {
          mjLast := r.mj;
          tLast := r.now;
          continue;
        }
        deltas := deltas + [dmj];
        watts := watts + [Watts(dmj, dt)];
        mjLast := r.mj;
        tLast := r.now;
      }
      assert readings[..|readings|] == readings;
    }

    method Exit(mj1: Option<real>)
      modifies this
      ensures windowJoules == if mj0.Some? && mj1.Some? && mj1.value >= mj0.value
                              then Some((mj1.value - mj0.value) / 1000.0) else old(windowJoules)
      ensures Current() == old(Current()) && mj0 == old(mj0)
    {
      if mj0.Some? {
        if mj1.Some? && mj1.value >= mj0.value {
          windowJoules := Some((mj1.value - mj0.value) / 1000.0);
        }
      }
    }
  }

  // ---------------------------------------------------------------- conservation

  /** What the counter fell by at a wake-up that re-anchored after a reset. */
  function Drop(t: Trace, r: Reading): real {
    if r.mj.Some? && t.mjLast.Some? && r.now > t.tLast && r.mj.value < t.mjLast.value
    then t.mjLast.value - r.mj.value else 0.0
  }

  function Dropped(t: Trace, readings: seq<Reading>): real {
    if readings == [] then 0.0 else
    Dropped(t, readings[..|readings| - 1]) + Drop(Run(t, readings[..|readings| - 1]), readings[|readings| - 1])
  }

  lemma SumSnoc(s: seq<real>, x: real)
    ensures Sum(s + [x]) == Sum(s) + x
  {
    assert (s + [x])[..|s|] == s;
  }

  predicate NonNegative(s: seq<real>) {
    forall i | 0 <= i < |s| :: s[i] >= 0.0
  }

  lemma PowerIsNonNegative(mj: real, seconds: real)
    requires mj >= 0.0 && seconds > 0.0
    ensures Watts(mj, seconds) >= 0.0
  {
  }

  /** One wake-up adds at most one delta with its power, and neither is negative. */
  lemma StepKeepsSamples(t: Trace, r: Reading)
    requires NonNegative(t.deltas) && NonNegative(t.watts) && |t.deltas| == |t.watts| && t.mjLast.Some?
    ensures var n := Step(t, r);
            NonNegative(n.deltas) && NonNegative(n.watts) && |n.deltas| == |n.watts| && n.mjLast.Some?
              && t.tLast <= n.tLast
  {
    if r.mj.Some? && r.now > t.tLast && r.mj.value >= t.mjLast.value {
      PowerIsNonNegative(r.mj.value - t.mjLast.value, r.now - t.tLast);
    }
  }

  /** One wake-up moves the sum of deltas as far as the anchor, plus what it dropped. */
  lemma StepConserves(t: Trace, r: Reading)
    requires t.mjLast.Some?
    ensures Step(t, r).mjLast.Some? && Drop(t, r) >= 0.0
    ensures Sum(Step(t, r).deltas) == Sum(t.deltas) + (Step(t, r).mjLast.value - t.mjLast.value) + Drop(t, r)
  {
    if r.mj.Some? && r.now > t.tLast && r.mj.value >= t.mjLast.value {
      SumSnoc(t.deltas, r.mj.value - t.mjLast.value);
    }
  }

  /** For every stream of readings the recorded deltas are non-negative, one per power sample, and sum to the
      movement of the anchor plus all that resets dropped. */
  lemma {:induction false} DeltasConserve(t: Trace, readings: seq<Reading>)
    requires NonNegative(t.deltas) && NonNegative(t.watts) && |t.deltas| == |t.watts| && t.mjLast.Some?
    ensures var r := Run(t, readings);
            && NonNegative(r.deltas) && NonNegative(r.watts) && |r.deltas| == |r.watts| && r.mjLast.Some?
            && t.tLast <= r.tLast
            && Sum(r.deltas) == Sum(t.deltas) + (r.mjLast.value - t.mjLast.value) + Dropped(t, readings)
            && Dropped(t, readings) >= 0.0
  {
    if readings != [] {
      var before, last := readings[..|readings| - 1], readings[|readings| - 1];
      DeltasConserve(t, before);
      StepKeepsSamples(Run(t, before), last);
      StepConserves(Run(t, before), last);
    }
  }

  /** Every power sample times the interval it stands for, in joules. */
  function Integral(t: Trace, readings: seq<Reading>): real {
    if readings == [] then 0.0 else
    var last := readings[|readings| - 1];
    var before := Run(t, readings[..|readings| - 1]);
    var after := Step(before, last);
    Integral(t, readings[..|readings| - 1]) +
    if |after.watts| > |before.watts| then Energy(after.watts[|after.watts| - 1], after.tLast - before.tLast) else 0.0
  }

  function Energy(watts: real, seconds: real): real {
    watts * seconds
  }

  lemma EnergyOfPower(mj: real, seconds: real)
    requires seconds > 0.0
    ensures Energy(Watts(mj, seconds), seconds) == mj / 1000.0
  {
  }

  /** Power integrated over the sampled intervals is exactly the energy of the recorded deltas. */
  lemma {:induction false} PowerIntegratesToEnergy(t: Trace, readings: seq<Reading>)
    requires t.mjLast.Some?
    ensures Run(t, readings).mjLast.Some?
    ensures Integral(t, readings) * 1000.0 == Sum(Run(t, readings).deltas) - Sum(t.deltas)
  {
    if readings != [] {
      var before, last := readings[..|readings| - 1], readings[|readings| - 1];
      PowerIntegratesToEnergy(t, before);
      var r := Run(t, before);
      if last.mj.Some? && last.now > r.tLast && last.mj.value >= r.mjLast.value {
        var dmj := last.mj.value - r.mjLast.value;
        SumSnoc(r.deltas, dmj);
        EnergyOfPower(dmj, last.now - r.tLast);
      }
    }
  }

  /** The counter never falls below the anchor it started from, nor below any earlier reading. */
  predicate NoReset(from: real, readings: seq<Reading>) {
    && (forall i | 0 <= i < |readings| && readings[i].mj.Some? :: from <= readings[i].mj.value)
    && (forall i, j | 0 <= i < j < |readings| && readings[i].mj.Some? && readings[j].mj.Some? ::
          readings[i].mj.value <= readings[j].mj.value)
  }

  lemma {:induction false} AnchorIsAReading(t: Trace, readings: seq<Reading>)
    requires t.mjLast.Some?
    ensures var r := Run(t, readings);
            r.mjLast == t.mjLast || exists i | 0 <= i < |readings| :: readings[i].mj == r.mjLast && r.mjLast.Some?
  {
    if readings != [] {
      var before := readings[..|readings| - 1];
      AnchorIsAReading(t, before);
      var r := Run(t, before);
      if r.mjLast != t.mjLast {
        var i :| 0 <= i < |before| && before[i].mj == r.mjLast;
        assert readings[i].mj == r.mjLast;
      }
      assert readings[|readings| - 1].mj == Run(t, readings).mjLast || Run(t, readings).mjLast == r.mjLast;
    }
  }

  lemma {:induction false} NoResetDropsNothing(t: Trace, readings: seq<Reading>)
    requires t.mjLast.Some? && NoReset(t.mjLast.value, readings)
    ensures Dropped(t, readings) == 0.0
  {
    if readings != [] {
      var before := readings[..|readings| - 1];
      assert NoReset(t.mjLast.value, before);
      NoResetDropsNothing(t, before);
      AnchorIsAReading(t, before);
      var r := Run(t, before);
      if r.mjLast != t.mjLast {
        var i :| 0 <= i < |before| && before[i].mj == r.mjLast;
        assert readings[i].mj == r.mjLast;
      }
    }
  }

  /** Without a reset the deltas are exactly the counter's movement up to the last anchor, and never exceed
      the energy of the whole window. */
  lemma WindowCoversDeltas(start: Reading, readings: seq<Reading>, mj1: real)
    requires start.mj.Some? && NoReset(start.mj.value, readings + [Reading(Some(mj1), 0.0)])
    ensures var r := Run(Trace(start.mj, start.now, [], []), readings);
            && r.mjLast.Some? && Sum(r.deltas) == r.mjLast.value - start.mj.value
            && 0.0 <= Sum(r.deltas) <= mj1 - start.mj.value
  {
    var t := Trace(start.mj, start.now, [], []);
    var all := readings + [Reading(Some(mj1), 0.0)];
    assert forall i | 0 <= i < |readings| :: all[i] == readings[i];
    assert all[|readings|].mj == Some(mj1);
    assert NoReset(start.mj.value, readings);
    DeltasConserve(t, readings);
    NoResetDropsNothing(t, readings);
    AnchorIsAReading(t, readings);
    var r := Run(t, readings);
    if r.mjLast != t.mjLast {
      var i :| 0 <= i < |readings| && readings[i].mj == r.mjLast;
      assert all[i].mj == r.mjLast;
    }
  }

  // ---------------------------------------------------------------- nothing is missed

  /** The clock moves on at every wake-up. */
  predicate Ticks(from: real, readings: seq<Reading>) {
    && (forall i | 0 <= i < |readings| :: from < readings[i].now)
    && (forall i, j | 0 <= i < j < |readings| :: readings[i].now < readings[j].now)
  }

  /** The successful readings, in order. */
  function Read(readings: seq<Reading>): seq<Reading> {
    if readings == [] then [] else
    var rest, last := Read(readings[..|readings| - 1]), readings[|readings| - 1];
    if last.mj.Some? then rest + [last] else rest
  }

  function Last(t: Trace, good: seq<Reading>): Reading {
    if good == [] then Reading(t.mjLast, t.tLast) else good[|good| - 1]
  }

  lemma LastIsEarlier(t: Trace, readings: seq<Reading>)
    requires readings != [] && Ticks(t.tLast, readings)
    ensures var before := readings[..|readings| - 1];
            Ticks(t.tLast, before) && Last(t, Read(before)).now < readings[|readings| - 1].now
  {
    var before := readings[..|readings| - 1];
    ReadIsAReading(before);
    if Read(before) != [] {
      assert Last(t, Read(before)) in Read(before);
      var i :| 0 <= i < |before| && before[i] == Last(t, Read(before));
      assert readings[i] == before[i];
    }
  }

  /** With a clock that moves on, the anchor is always the last successful reading. */
  lemma {:induction false} AnchorIsLastRead(t: Trace, readings: seq<Reading>)
    requires t.mjLast.Some? && Ticks(t.tLast, readings)
    ensures var r := Run(t, readings); Reading(r.mjLast, r.tLast) == Last(t, Read(readings)) && r.mjLast.Some?
  {
    if readings != [] {
      LastIsEarlier(t, readings);
      AnchorIsLastRead(t, readings[..|readings| - 1]);
    }
  }

  /** One more successful reading, later and not lower than the anchor, gives one more delta: the movement since. */
  lemma StepRecords(t: Trace, r: Reading)
    requires t.mjLast.Some? && t.tLast < r.now && (r.mj.Some? ==> t.mjLast.value <= r.mj.value)
    ensures Step(t, r).deltas == if r.mj.Some? then t.deltas + [r.mj.value - t.mjLast.value] else t.deltas
  {
  }

  lemma AnchorIsNotAbove(t: Trace, readings: seq<Reading>)
    requires t.mjLast.Some? && readings != [] && NoReset(t.mjLast.value, readings)
    ensures var r, last := Run(t, readings[..|readings| - 1]), readings[|readings| - 1];
            r.mjLast.Some? && (last.mj.Some? ==> r.mjLast.value <= last.mj.value)
  {
    var before := readings[..|readings| - 1];
    AnchorIsAReading(t, before);
    var r := Run(t, before);
    if r.mjLast != t.mjLast {
      var i :| 0 <= i < |before| && before[i].mj == r.mjLast;
      assert readings[i].mj == r.mjLast;
    }
  }

  /** With such a clock and no reset, every successful reading gives one delta. */
  lemma {:induction false} NothingIsMissed(t: Trace, readings: seq<Reading>)
    requires t.mjLast.Some? && Ticks(t.tLast, readings) && NoReset(t.mjLast.value, readings)
    ensures |Run(t, readings).deltas| == |t.deltas| + |Read(readings)|
  {
    if readings != [] {
      var before := readings[..|readings| - 1];
      LastIsEarlier(t, readings);
      NoResetPrefix(t.mjLast.value, readings);
      NothingIsMissed(t, before);
      AnchorIsLastRead(t, before);
      AnchorIsNotAbove(t, readings);
      StepRecords(Run(t, before), readings[|readings| - 1]);
    }
  }

  lemma NoResetPrefix(from: real, readings: seq<Reading>)
    requires readings != []
    ensures NoReset(from, readings) ==> NoReset(from, readings[..|readings| - 1])
  {
  }

  lemma {:induction false} ReadIsAReading(readings: seq<Reading>)
    ensures forall x | x in Read(readings) :: x in readings && x.mj.Some?
  {
    if readings != [] {
      ReadIsAReading(readings[..|readings| - 1]);
      assert readings == readings[..|readings| - 1] + [readings[|readings| - 1]];
    }
  }
}
