/** The capacity integrator of _update_capacity: a trapezoid over the
    (smoothed) currents handed to it, counted only while discharging. */
module Capacity {
  import opened Wrappers
  import opened Stats

  /** calculated_capacity_ah, last_current_ma and last_sample_time. */
  datatype Integrator = Integrator(capacityAh: real, lastCurrentMa: real, lastSampleTime: Option<real>)

  /** The state of a fresh session. */
  const FRESH := Integrator(0.0, 0.0, None)

  /** Amp-hours of the trapezoid between two readings dt seconds apart,
      counted only when the newer reading is a discharge current. */
  function Increment(lastCurrentMa: real, currentMa: real, dt: real): real {
    if currentMa < 0.0 then (Abs(lastCurrentMa) + Abs(currentMa)) / 2.0 / 1000.0 * (dt / 3600.0) else 0.0
  }

  /** One call of _update_capacity at time `now`: it always remembers the
      reading and its time, and changes the capacity only for a discharge
      current after an earlier reading. */
  function Step(s: Integrator, currentMa: real, now: real): (r: Integrator)
    ensures r.lastCurrentMa == currentMa && r.lastSampleTime == Some(now)
    ensures s.lastSampleTime.None? || currentMa >= 0.0 ==> r.capacityAh == s.capacityAh
  {
    var capacity :=
      if s.lastSampleTime.Some? then s.capacityAh + Increment(s.lastCurrentMa, currentMa, now - s.lastSampleTime.value)
      else s.capacityAh;
    Integrator(capacity, currentMa, Some(now))
  }

  /** The first call only records the reading and its time. */
  lemma FirstStepRecords(s: Integrator, currentMa: real, now: real)
    requires s.lastSampleTime.None?
    ensures Step(s, currentMa, now) == s.(lastCurrentMa := currentMa, lastSampleTime := Some(now))
  {
  }

  /** A later call remembers the new reading and adds the trapezoid area
      (the mean magnitude of the two readings, in amps, times the elapsed
      hours) exactly when the new reading is negative; a charging or idle
      reading adds nothing. */
  lemma StepAccumulates(s: Integrator, currentMa: real, now: real)
    requires s.lastSampleTime.Some?
    ensures var r := Step(s, currentMa, now);
      var hours := (now - s.lastSampleTime.value) / 3600.0;
      && r.lastCurrentMa == currentMa && r.lastSampleTime == Some(now)
      && (currentMa < 0.0 ==> r.capacityAh == s.capacityAh + (Abs(s.lastCurrentMa) + Abs(currentMa)) / 2000.0 * hours)
      && (currentMa >= 0.0 ==> r.capacityAh == s.capacityAh)
  {
  }

  /** Going forward in time, a call never lowers the capacity. */
  lemma StepMonotone(s: Integrator, currentMa: real, now: real)
    requires s.lastSampleTime.Some? ==> s.lastSampleTime.value <= now
    ensures Step(s, currentMa, now).capacityAh >= s.capacityAh
  {
    if s.lastSampleTime.Some? && currentMa < 0.0 {
      var a := (Abs(s.lastCurrentMa) + Abs(currentMa)) / 2.0 / 1000.0;
      var h := (now - s.lastSampleTime.value) / 3600.0;
      assert a >= 0.0 && h >= 0.0;
      assert a * h >= 0.0;
    }
  }

  /** A constant discharge of i mA for dt seconds adds i * dt / 3,600,000
      amp-hours: the trapezoid is exact on a flat current. */
  lemma SteadyDischargeStep(s: Integrator, i: real, now: real)
    requires i > 0.0 && s.lastSampleTime.Some? && s.lastCurrentMa == -i
    ensures Step(s, -i, now).capacityAh == s.capacityAh + i * (now - s.lastSampleTime.value) / 3600000.0
  {
  }

  /** A reading handed to the integrator: (current in mA, clock time). */
  datatype Reading = Reading(currentMa: real, time: real)

  /** A sequence of calls, oldest first. */
  function Integrate(s: Integrator, readings: seq<Reading>): Integrator
    decreases |readings|
  {
    if readings == [] then s
    else Integrate(Step(s, readings[0].currentMa, readings[0].time), readings[1..])
  }

  /** The clock never runs backwards, from the last recorded time on. */
  predicate Chronological(s: Integrator, readings: seq<Reading>) {
    && (forall k :: 0 <= k < |readings| - 1 ==> readings[k].time <= readings[k + 1].time)
    && (s.lastSampleTime.Some? && readings != [] ==> s.lastSampleTime.value <= readings[0].time)
  }

  /** calculated_capacity_ah never decreases while the clock runs forward. */
  lemma {:induction false} IntegrateMonotone(s: Integrator, readings: seq<Reading>)
    requires Chronological(s, readings)
    ensures Integrate(s, readings).capacityAh >= s.capacityAh
    decreases |readings|
  {
    if readings != [] {
      var next := Step(s, readings[0].currentMa, readings[0].time);
      StepMonotone(s, readings[0].currentMa, readings[0].time);
      assert Chronological(next, readings[1..]);
      IntegrateMonotone(next, readings[1..]);
    }
  }

  /** A steady discharge of i mA, continuing one already under way at time
      t0, integrates to i * (t - t0) / 3,600,000 amp-hours up to the last
      reading's time t. */
  lemma {:induction false} SteadyDischarge(s: Integrator, i: real, readings: seq<Reading>)
    requires i > 0.0 && s.lastSampleTime.Some? && s.lastCurrentMa == -i
    requires forall k :: 0 <= k < |readings| ==> readings[k].currentMa == -i
    ensures var r := Integrate(s, readings);
      var t := if readings == [] then s.lastSampleTime.value else readings[|readings| - 1].time;
      r.capacityAh == s.capacityAh + i * (t - s.lastSampleTime.value) / 3600000.0
    decreases |readings|
  {
    if readings != [] {
      var next := Step(s, -i, readings[0].time);
      SteadyDischargeStep(s, i, readings[0].time);
      SteadyDischarge(next, i, readings[1..]);
      if |readings| > 1 {
        assert readings[1..][|readings[1..]| - 1] == readings[|readings| - 1];
      }
    }
  }

  /** The raw-reading example: idle at t = 0 s, then -1000 mA at
      t = 3600 s, integrates to 0.5 Ah. */
  lemma RawReadingsExample()
    ensures Integrate(FRESH, [Reading(0.0, 0.0), Reading(-1000.0, 3600.0)]).capacityAh == 0.5
  {
    var s1 := Step(FRESH, 0.0, 0.0);
    assert s1 == Integrator(0.0, 0.0, Some(0.0));
    var s2 := Step(s1, -1000.0, 3600.0);
    assert s2.capacityAh == 0.5;
    assert [Reading(0.0, 0.0), Reading(-1000.0, 3600.0)][1..] == [Reading(-1000.0, 3600.0)];
    assert [Reading(-1000.0, 3600.0)][1..] == [];
  }
}
