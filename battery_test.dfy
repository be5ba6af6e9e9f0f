/** The test engine: a single TestSession held by a BatteryTestEngine, its
    lifecycle, the smoothed recording of samples, the capacity integrator
    and the health-event log, and the session's derived accessors. Every
    read of the clock is an explicit `now` parameter. */
module BatteryTest {
  import opened Wrappers
  import opened Config
  import opened Stats
  import opened Cells
  import PC = PreCheck
  import opened Health
  import opened Smoothing
  import opened Capacity
  import Format
  import BmsProtocol

  datatype TestStatus = Idle | PreCheckPhase | Testing | Complete | Aborted

  datatype TestResult = Pending | Pass | Fail | Override

  /** One smoothed data point. */
  datatype CellSample = CellSample(timestamp: real, voltages: seq<real>, currentMa: real)

  class TestSession {
    var serialNumber: string
    var chemistry: string
    var ratedCapacityAh: real
    var passThresholdPct: real
    var techInitials: string
    var mfgDate: string
    var batteryAge: string

    var status: TestStatus
    var result: TestResult
    var overrideReason: string
    var stopReason: string
    var startTime: Option<real>
    var endTime: Option<real>

    var samples: seq<CellSample>
    var voltageBuffer: seq<seq<real>>
    var currentBuffer: seq<real>

    var calculatedCapacityAh: real
    var lastCurrentMa: real
    var lastSampleTime: Option<real>

    var bmsInitialSoc: int
    var bmsCycleCount: int
    var bmsTemperatures: seq<real>

    var healthEvents: seq<HealthEvent>

    /** What the engine keeps true of its session: the two smoothing
        buffers are filled together and hold at most SMOOTHING_WINDOW
        entries, and a running test has a start time. */
    predicate Valid()
      reads this
    {
      && |voltageBuffer| <= SMOOTHING_WINDOW
      && |currentBuffer| == |voltageBuffer|
      && (status == Testing ==> startTime.Some?)
    }

    /** The session new_session creates: the given identification, IDLE and
        PENDING, and every other field at its dataclass default. */
    predicate Initial(serial: string, chem: string, rated: real, threshold: real,
                      tech: string, mfg: string, age: string)
      reads this
    {
      && serialNumber == serial && chemistry == chem && ratedCapacityAh == rated
      && passThresholdPct == threshold && techInitials == tech && mfgDate == mfg && batteryAge == age
      && status == Idle && result == Pending && overrideReason == "" && stopReason == ""
      && startTime == None && endTime == None
      && samples == [] && voltageBuffer == [] && currentBuffer == []
      && calculatedCapacityAh == 0.0 && lastCurrentMa == 0.0 && lastSampleTime == None
      && bmsInitialSoc == 0 && bmsCycleCount == 0 && bmsTemperatures == [] && healthEvents == []
    }

    constructor(serial: string, chem: string, rated: real, threshold: real,
                tech: string, mfg: string, age: string)
      ensures Initial(serial, chem, rated, threshold, tech, mfg, age)
      ensures Valid()
    {
      serialNumber, chemistry, ratedCapacityAh, passThresholdPct := serial, chem, rated, threshold;
      techInitials, mfgDate, batteryAge := tech, mfg, age;
      status, result, overrideReason, stopReason := Idle, Pending, "", "";
      startTime, endTime := None, None;
      samples, voltageBuffer, currentBuffer := [], [], [];
      calculatedCapacityAh, lastCurrentMa, lastSampleTime := 0.0, 0.0, None;
      bmsInitialSoc, bmsCycleCount, bmsTemperatures := 0, 0, [];
      healthEvents := [];
    }

    /** The integrator part of the session. */
    function State(): Integrator
      reads this
    {
      Integrator(calculatedCapacityAh, lastCurrentMa, lastSampleTime)
    }

    /** What one successful record_voltage_sample leaves behind, given the
        sample list, integrator and event log before it: one more sample,
        one integrator step with its current, and its health events
        appended. */
    predicate RecordedFrom(samples0: seq<CellSample>, state0: Integrator, events0: seq<HealthEvent>,
                           avg: seq<real>, current: real, timestamp: real, now: real)
      reads this
    {
      && samples == samples0 + [CellSample(timestamp, avg, current)]
      && State() == Step(state0, current, now)
      && healthEvents == events0 + HealthEventsFor(avg, ChemistryConfig().cellFailVoltage, timestamp)
    }

    /** chemistry_config, with the NMC fallback for unknown keys. */
    function ChemistryConfig(): Chemistry
      reads this
    {
      ChemistryFor(chemistry)
    }

    /** storage_voltage: 3.80 V for LiPo, 3.60 V for NMC and every unknown
        key. */
    function StorageVoltage(): (v: real)
      reads this
      ensures v == (if chemistry == "LiPo" then 3.80 else 3.60)
    {
      ChemistryConfig().storageVoltage
    }

    /** discharge_end_voltage: every row, and the .get default, say 3.00 V. */
    function DischargeEndVoltage(): (v: real)
      reads this
      ensures v == 3.00
    {
      ChemistryConfig().dischargeEndVoltage
    }

    /** runtime_seconds: 0 before the start; otherwise the time from the
        start to the end, where an unset end, and also an end of exactly
        0.0 (falsy in `end_time or time.time()`), reads the clock. */
    function RuntimeSeconds(now: real): (r: real)
      reads this
      ensures startTime.None? ==> r == 0.0
      ensures startTime.Some? && endTime.Some? && endTime.value != 0.0 ==> r == endTime.value - startTime.value
      ensures startTime.Some? && (endTime.None? || endTime.value == 0.0) ==> r == now - startTime.value
    {
      if startTime.None? then 0.0
      else
        var end := if endTime.Some? && endTime.value != 0.0 then endTime.value else now;
        end - startTime.value
    }

    /** runtime_str: the runtime truncated to whole seconds and rendered by
        Format.RuntimeStr; "0m 00s" before the start, and the same text
        for every clock reading once the test has ended. */
    function RuntimeStr(now: real): (text: string)
      reads this
      ensures startTime.None? ==> text == "0m 00s"
      ensures startTime.Some? && endTime.Some? && endTime.value != 0.0 ==>
        text == Format.RuntimeStr(Format.Trunc(endTime.value - startTime.value))
    {
      Format.RuntimeStrZero();
      Format.RuntimeStr(Format.Trunc(RuntimeSeconds(now)))
    }

    /** capacity_percent: the measured capacity as a percentage of the
        rated one, and 0 for a non-positive rating. */
    function CapacityPercent(): (p: real)
      reads this
      ensures ratedCapacityAh <= 0.0 ==> p == 0.0
      ensures ratedCapacityAh > 0.0 ==> p * ratedCapacityAh == 100.0 * calculatedCapacityAh
    {
      if ratedCapacityAh <= 0.0 then 0.0 else (calculatedCapacityAh / ratedCapacityAh) * 100.0
    }

    /** time_data: the sample timestamps, in recording order. */
    function TimeData(): (ts: seq<real>)
      reads this
      ensures |ts| == |samples| && forall k :: 0 <= k < |samples| ==> ts[k] == samples[k].timestamp
    {
      seq(|samples|, k requires 0 <= k < |samples| reads this => samples[k].timestamp)
    }

    /** cell_count: the width of the first sample, 0 without samples. */
    function CellCount(): (n: nat)
      reads this
      ensures samples == [] ==> n == 0
      ensures samples != [] ==> n == |samples[0].voltages|
    {
      if samples == [] then 0 else |samples[0].voltages|
    }

    /** Every sample is at least as wide as the first one. */
    predicate SamplesCover()
      reads this
    {
      samples != [] ==> forall k :: 0 <= k < |samples| ==> |samples[0].voltages| <= |samples[k].voltages|
    }

    /** cell_data: the samples transposed into one series per cell of the
        first sample; None where a narrower later sample makes the source
        raise IndexError. */
    function CellData(): (cd: Option<seq<seq<real>>>)
      reads this
      ensures cd.Some? <==> SamplesCover()
      ensures cd.Some? ==> |cd.value| == CellCount()
      ensures cd.Some? ==> forall i :: 0 <= i < |cd.value| ==>
        |cd.value[i]| == |samples| && forall k :: 0 <= k < |samples| ==> cd.value[i][k] == samples[k].voltages[i]
    {
      if samples == [] then Some([])
      else if !SamplesCover() then None
      else
        var n := |samples[0].voltages|;
        Some(seq(n, i requires 0 <= i < n reads this =>
          seq(|samples|, k requires 0 <= k < |samples| reads this =>
            if i < |samples[k].voltages| then samples[k].voltages[i] else 0.0)))
    }

    /** latest_voltages: the newest sample's voltages, [] without samples. */
    function LatestVoltages(): (vs: seq<real>)
      reads this
      ensures samples == [] ==> vs == []
      ensures samples != [] ==> vs == samples[|samples| - 1].voltages
    {
      if samples == [] then [] else samples[|samples| - 1].voltages
    }

    /** latest_current_ma: the newest sample's current, 0 without samples. */
    function LatestCurrentMa(): (i: real)
      reads this
      ensures samples == [] ==> i == 0.0
      ensures samples != [] ==> i == samples[|samples| - 1].currentMa
    {
      if samples == [] then 0.0 else samples[|samples| - 1].currentMa
    }
  }

  class BatteryTestEngine {
    var session: TestSession?

    constructor()
      ensures session == null
      ensures Valid()
    {
      session := null;
    }

    /** The session as a set, for field frames. */
    function Live(): set<TestSession>
      reads this
    {
      if session == null then {} else {session}
    }

    predicate Valid()
      reads this, Live()
    {
      session != null ==> session.Valid()
    }

    /** The chemistry the evaluators use: the session's, with the NMC
        fallback, and NMC when there is no session. */
    function ActiveChemistry(): (c: Chemistry)
      reads this, Live()
      ensures session == null ==> c == NMC
      ensures session != null ==> c == ChemistryFor(session.chemistry)
      ensures c == NMC || c == LIPO
    {
      if session == null then ChemistryFor(DEFAULT_CHEMISTRY) else session.ChemistryConfig()
    }

    method NewSession(serialNumber: string, chemistry: string, ratedCapacityAh: real, passThresholdPct: real,
                      techInitials: string := "", mfgDate: string := "", batteryAge: string := "")
      returns (s: TestSession)
      modifies this
      ensures fresh(s) && session == s
      ensures s.Initial(serialNumber, chemistry, ratedCapacityAh, passThresholdPct, techInitials, mfgDate, batteryAge)
      ensures Valid()
    {
      s := new TestSession(serialNumber, chemistry, ratedCapacityAh, passThresholdPct, techInitials, mfgDate, batteryAge);
      session := s;
    }

    /** start_test: TESTING, started now, result back to PENDING. */
    method StartTest(now: real)
      requires Valid()
      modifies Live()`status, Live()`startTime, Live()`result
      ensures Valid()
      ensures session != null ==>
        session.status == Testing && session.startTime == Some(now) && session.result == Pending
      ensures session != null && session.endTime.None? ==> forall n :: session.RuntimeSeconds(n) == n - now
      ensures session != null && session.endTime.Some? && session.endTime.value != 0.0 ==>
        forall n :: session.RuntimeSeconds(n) == session.endTime.value - now
    {
      if session != null {
        session.status := Testing;
        session.startTime := Some(now);
        session.result := Pending;
      }
    }

    /** stop_test: COMPLETE, ended now, with the reason; a PENDING result
        becomes PASS exactly when the capacity reaches the threshold (the
        boundary passes) and FAIL otherwise; any other result is kept. */
    method StopTest(now: real, reason: string := "Completed")
      requires Valid()
      modifies Live()`endTime, Live()`status, Live()`stopReason, Live()`result
      ensures Valid()
      ensures session != null ==>
        && session.endTime == Some(now) && session.status == Complete && session.stopReason == reason
        && (old(session.result) == Pending && session.CapacityPercent() >= session.passThresholdPct ==> session.result == Pass)
        && (old(session.result) == Pending && session.CapacityPercent() < session.passThresholdPct ==> session.result == Fail)
        && (old(session.result) != Pending ==> session.result == old(session.result))
      ensures session != null && session.startTime.Some? && now != 0.0 ==>
        forall n :: session.RuntimeSeconds(n) == now - session.startTime.value
    {
      if session == null {
        return;
      }
      session.endTime := Some(now);
      session.status := Complete;
      session.stopReason := reason;
      if session.result == Pending {
        if session.CapacityPercent() >= session.passThresholdPct {
          session.result := Pass;
        } else {
          session.result := Fail;
        }
      }
    }

    /** abort_test: ABORTED, ended now, with the reason; the result is
        untouched. */
    method AbortTest(now: real, reason: string := "Error / Disconnected")
      requires Valid()
      modifies Live()`endTime, Live()`status, Live()`stopReason
      ensures Valid()
      ensures session != null ==>
        session.endTime == Some(now) && session.status == Aborted && session.stopReason == reason
      ensures session != null && session.startTime.Some? && now != 0.0 ==>
        forall n :: session.RuntimeSeconds(n) == now - session.startTime.value
    {
      if session != null {
        session.endTime := Some(now);
        session.status := Aborted;
        session.stopReason := reason;
      }
    }

    /** override_result: the result and its reason, nothing else. */
    method OverrideResult(newResult: TestResult, reason: string)
      requires Valid()
      modifies Live()`result, Live()`overrideReason
      ensures Valid()
      ensures session != null ==> session.result == newResult && session.overrideReason == reason
    {
      if session != null {
        session.result := newResult;
        session.overrideReason := reason;
      }
    }

    /** run_pre_check with the active chemistry: the charge check passes
        exactly when some cell is live and every live cell reaches the
        session chemistry's start voltage (NMC's without a session). */
    function RunPreCheck(voltages: seq<real>): (r: PC.PreCheckResult)
      reads this, Live()
      ensures r.cellsCharged <==>
        && LiveCells(voltages) != []
        && forall i :: 0 <= i < |voltages| && voltages[i] >= DEAD_CELL_V ==> voltages[i] >= ActiveChemistry().minStartVoltage
      ensures session == null ==> r == PC.RunPreCheck(NMC, voltages)
    {
      var chem := ActiveChemistry();
      LiveCellsEmpty(voltages);
      if voltages == [] then PC.RunPreCheck(chem, voltages)
      else
        PC.PreCheckCharged(chem, voltages);
        PC.RunPreCheck(chem, voltages)
    }

    /** get_current_health_status with the active chemistry: with a live
        cell the verdict is ABNORMAL exactly when a cell is dead, a live
        cell is at least 0.50 V from the reported average, or a live cell
        is below the session chemistry's fail voltage (NMC's without a
        session). */
    function GetCurrentHealthStatus(voltages: seq<real>): (h: HealthStatus)
      reads this, Live()
      ensures h.stats.Some? <==> LiveCells(voltages) != []
      ensures h.stats.Some? ==>
        (h.overall == Abnormal <==> AbnormalReadings(voltages, h.stats.value.avgVoltage, ActiveChemistry().cellFailVoltage))
    {
      var chem := ActiveChemistry();
      if LiveCells(voltages) == [] then CurrentHealthStatus(chem, voltages)
      else
        OverallClassification(chem, voltages);
        CurrentHealthStatus(chem, voltages)
    }

    /** record_voltage_sample. Without a running test nothing changes.
        Otherwise both readings are pushed onto their windows; if an older
        buffered row is narrower than the new sample the source raises
        IndexError (`raised`) with only the buffers changed; if not, one
        sample is appended, stamped `now - start_time`, carrying the per-cell
        means of the buffered rows and the mean buffered current, and that
        mean current and the smoothed voltages go on to the integrator and
        the health check. */
    method RecordVoltageSample(voltages: seq<real>, now: real, currentMa: real := 0.0) returns (raised: bool)
      requires Valid()
      modifies Live()`voltageBuffer, Live()`currentBuffer, Live()`samples,
               Live()`calculatedCapacityAh, Live()`lastCurrentMa, Live()`lastSampleTime, Live()`healthEvents
      ensures Valid()
      ensures session == null || old(session.status) != Testing ==> !raised && unchanged(Live())
      ensures session != null && session.status == Testing ==>
        && session.voltageBuffer == Push(old(session.voltageBuffer), voltages)
        && session.currentBuffer == Push(old(session.currentBuffer), currentMa)
        && (raised <==> !RowsCover(session.voltageBuffer, |voltages|))
      ensures session != null && session.status == Testing && raised ==>
        && session.samples == old(session.samples)
        && session.State() == old(session.State())
        && session.healthEvents == old(session.healthEvents)
      ensures session != null && session.status == Testing && !raised ==>
        session.RecordedFrom(old(session.samples), old(session.State()), old(session.healthEvents),
                             Smoothed(session.voltageBuffer, |voltages|).value, Mean(session.currentBuffer),
                             now - session.startTime.value, now)
      ensures session != null && session.status == Testing && !raised ==>
        && session.TimeData() == old(session.TimeData()) + [now - session.startTime.value]
        && session.LatestVoltages() == Smoothed(session.voltageBuffer, |voltages|).value
        && session.LatestCurrentMa() == Mean(session.currentBuffer)
        && (old(session.samples) != [] ==> session.CellCount() == old(session.CellCount()))
      ensures (&& session != null && session.status == Testing && !raised && session.ratedCapacityAh > 0.0
               && (old(session.lastSampleTime).Some? ==> old(session.lastSampleTime).value <= now)) ==>
        session.CapacityPercent() >= old(session.CapacityPercent())
    {
      if session == null || session.status != Testing {
        return false;
      }
      raised := RecordWhileTesting(voltages, now, currentMa);
      if !raised {
        var s := session;
        ghost var samples0, state0, events0 := old(s.samples), old(s.State()), old(s.healthEvents);
        ghost var avg, current, timestamp := Smoothed(s.voltageBuffer, |voltages|).value, Mean(s.currentBuffer), now - s.startTime.value;
        RecordedAccessors(s, samples0, state0, events0, avg, current, timestamp, now);
        assert s.TimeData() == old(s.TimeData()) + [timestamp];
        if s.ratedCapacityAh > 0.0 && (state0.lastSampleTime.Some? ==> state0.lastSampleTime.value <= now) {
          RecordedCapacityPercent(s, samples0, state0, events0, avg, current, timestamp, now);
        }
      }
    }

    /** record_voltage_sample once a test is running. */
    method RecordWhileTesting(voltages: seq<real>, now: real, currentMa: real) returns (raised: bool)
      requires Valid() && session != null && session.status == Testing
      modifies Live()`voltageBuffer, Live()`currentBuffer, Live()`samples,
               Live()`calculatedCapacityAh, Live()`lastCurrentMa, Live()`lastSampleTime, Live()`healthEvents
      ensures Valid()
      ensures session.voltageBuffer == Push(old(session.voltageBuffer), voltages)
      ensures session.currentBuffer == Push(old(session.currentBuffer), currentMa)
      ensures raised <==> !RowsCover(session.voltageBuffer, |voltages|)
      ensures raised ==>
        && session.samples == old(session.samples)
        && session.State() == old(session.State())
        && session.healthEvents == old(session.healthEvents)
      ensures !raised ==>
        session.RecordedFrom(old(session.samples), old(session.State()), old(session.healthEvents),
                             Smoothed(session.voltageBuffer, |voltages|).value, Mean(session.currentBuffer),
                             now - session.startTime.value, now)
    {
      var s := session;
      PushReadings(voltages, currentMa);
      var smoothed := AverageRows(s.voltageBuffer, |voltages|);
      if smoothed.None? {
        return true;
      }
      AppendSample(smoothed.value, Mean(s.currentBuffer), now - s.startTime.value, now);
      raised := false;
    }

    /** The two buffer updates of record_voltage_sample. */
    method PushReadings(voltages: seq<real>, currentMa: real)
      requires Valid()
      modifies Live()`voltageBuffer, Live()`currentBuffer
      ensures Valid()
      ensures session != null ==>
        && session.voltageBuffer == Push(old(session.voltageBuffer), voltages)
        && session.currentBuffer == Push(old(session.currentBuffer), currentMa)
        && session.voltageBuffer != [] && session.currentBuffer != []
    {
      if session != null {
        session.voltageBuffer := Push(session.voltageBuffer, voltages);
        session.currentBuffer := Push(session.currentBuffer, currentMa);
      }
    }

    /** The tail of record_voltage_sample once the smoothing succeeded: the
        sample is stored, then the integrator and the health check see it. */
    method AppendSample(avgVoltages: seq<real>, avgCurrent: real, timestamp: real, now: real)
      requires Valid()
      modifies Live()`samples, Live()`calculatedCapacityAh, Live()`lastCurrentMa, Live()`lastSampleTime,
               Live()`healthEvents
      ensures Valid()
      ensures session != null ==>
        session.RecordedFrom(old(session.samples), old(session.State()), old(session.healthEvents),
                             avgVoltages, avgCurrent, timestamp, now)
    {
      if session == null {
        return;
      }
      session.samples := session.samples + [CellSample(timestamp, avgVoltages, avgCurrent)];
      UpdateCapacity(avgCurrent, now);
      CheckHealth(avgVoltages, timestamp);
    }

    /** _update_capacity: one integrator step at time `now`. */
    method UpdateCapacity(currentMa: real, now: real)
      requires Valid()
      modifies Live()`calculatedCapacityAh, Live()`lastCurrentMa, Live()`lastSampleTime
      ensures Valid()
      ensures session != null ==> session.State() == Step(old(session.State()), currentMa, now)
    {
      if session == null {
        return;
      }
      var s := session;
      if s.lastSampleTime.Some? {
        var deltaHours := (now - s.lastSampleTime.value) / 3600.0;
        var avgCurrentA := (Abs(s.lastCurrentMa) + Abs(currentMa)) / 2.0 / 1000.0;
        if currentMa < 0.0 {
          s.calculatedCapacityAh := s.calculatedCapacityAh + avgCurrentA * deltaHours;
        }
      }
      s.lastSampleTime := Some(now);
      s.lastCurrentMa := currentMa;
    }

    /** _check_health: appends, for each live cell in order, an IMBALANCE
        event when it is at least 0.50 V from the live average and a
        CRITICAL event when it is below the chemistry's fail voltage. */
    method CheckHealth(voltages: seq<real>, timestamp: real)
      requires Valid()
      modifies Live()`healthEvents
      ensures Valid()
      ensures session != null ==>
        session.healthEvents == old(session.healthEvents)
          + HealthEventsFor(voltages, session.ChemistryConfig().cellFailVoltage, timestamp)
    {
      if session == null {
        return;
      }
      var s := session;
      var live := LiveCells(voltages);
      if live == [] {
        return;
      }
      var avg := Sum(live) / |live| as real;
      var failVoltage := s.ChemistryConfig().cellFailVoltage;
      var i := 0;
      while i < |voltages|
        invariant 0 <= i <= |voltages|
        invariant s.healthEvents == old(s.healthEvents) + EventsUpTo(voltages, i, avg, failVoltage, timestamp)
      {
        var v := voltages[i];
        if v >= DEAD_CELL_V {
          if Abs(v - avg) >= CELL_IMBALANCE_ALERT_V {
            s.healthEvents := s.healthEvents + [HealthEvent(timestamp, Imbalance, i + 1, v, Some(avg))];
          }
          if v < failVoltage {
            s.healthEvents := s.healthEvents + [HealthEvent(timestamp, Critical, i + 1, v, None)];
          }
        }
        i := i + 1;
      }
    }

    /** update_bms_info: the initial state of charge is latched from the
        first report while it is still 0; the cycle count and temperatures
        always follow the latest report. */
    method UpdateBmsInfo(info: BmsProtocol.BasicInfo)
      requires Valid()
      modifies Live()`bmsInitialSoc, Live()`bmsCycleCount, Live()`bmsTemperatures
      ensures Valid()
      ensures session != null ==>
        && session.bmsInitialSoc == (if old(session.bmsInitialSoc) == 0 then info.rsocPercent else old(session.bmsInitialSoc))
        && session.bmsCycleCount == info.cycleLife
        && session.bmsTemperatures == BmsProtocol.TemperaturesCelsius(info)
    {
      if session == null {
        return;
      }
      if session.bmsInitialSoc == 0 {
        session.bmsInitialSoc := info.rsocPercent;
      }
      session.bmsCycleCount := info.cycleLife;
      session.bmsTemperatures := BmsProtocol.TemperaturesCelsius(info);
    }
  }

  /** runtime_seconds against the clock: it never runs backwards, it
      follows the clock second for second while no end is recorded, and it
      is frozen once a (non-zero) end time is. */
  lemma RuntimeClock(s: TestSession, n1: real, n2: real)
    ensures n1 <= n2 ==> s.RuntimeSeconds(n1) <= s.RuntimeSeconds(n2)
    ensures s.startTime.Some? && s.endTime.None? ==> s.RuntimeSeconds(n2) - s.RuntimeSeconds(n1) == n2 - n1
    ensures s.endTime.Some? && s.endTime.value != 0.0 ==> s.RuntimeSeconds(n1) == s.RuntimeSeconds(n2)
  {
  }

  /** A test started at 100 s and ended at 3825.9 s reads "1h 02m 05s",
      whatever the clock says: 3725.9 s truncated to 3725 s. */
  lemma RuntimeStrExample(s: TestSession, now: real)
    requires s.startTime == Some(100.0) && s.endTime == Some(3825.9)
    ensures s.RuntimeStr(now) == "1h 02m 05s"
  {
    assert s.RuntimeSeconds(now) == 3725.9;
    assert Format.Trunc(3725.9) == 3725;
    Format.RuntimeStrHours();
  }

  /** start_test keeps end_time: a test stopped at 3600 s and restarted at
      3605 s reports the old end minus the new start, -5 s, which the
      flooring divmod renders as "59m 55s" at every clock reading. */
  lemma RestartAfterStopExample(s: TestSession, now: real)
    requires s.startTime == Some(3605.0) && s.endTime == Some(3600.0)
    ensures s.RuntimeSeconds(now) == -5.0
    ensures s.RuntimeStr(now) == "59m 55s"
  {
    assert Format.Trunc(-5.0) == -5;
    Format.RuntimeStrFields(-1, 59, 55);
    assert Format.NatToString(59) == Format.NatToString(5) + [Format.Digit(9)];
    assert Format.NatToString(59) == "59" && Format.Pad2(55) == "55";
  }

  /** The accessors after one successful record (TestSession.RecordedFrom):
      time_data gains the new timestamp at its end, latest_voltages and
      latest_current_ma report the new sample, and cell_count is the width
      of the first sample ever recorded, which a later record does not
      change. */
  lemma RecordedAccessors(s: TestSession, samples0: seq<CellSample>, state0: Integrator, events0: seq<HealthEvent>,
                          avg: seq<real>, current: real, timestamp: real, now: real)
    requires s.RecordedFrom(samples0, state0, events0, avg, current, timestamp, now)
    ensures |s.TimeData()| == |samples0| + 1 && s.TimeData()[|samples0|] == timestamp
    ensures forall k :: 0 <= k < |samples0| ==> s.TimeData()[k] == samples0[k].timestamp
    ensures s.LatestVoltages() == avg && s.LatestCurrentMa() == current
    ensures s.CellCount() == if samples0 == [] then |avg| else |samples0[0].voltages|
  {
  }

  /** The integrator after one successful record: it remembers the
      recorded current and the recording time, and the measured capacity
      grows by the trapezoid of the previous and the recorded current over
      the elapsed hours when there was a previous sample and the recorded
      current is a discharge; otherwise it is unchanged. */
  lemma RecordedState(s: TestSession, samples0: seq<CellSample>, state0: Integrator, events0: seq<HealthEvent>,
                      avg: seq<real>, current: real, timestamp: real, now: real)
    requires s.RecordedFrom(samples0, state0, events0, avg, current, timestamp, now)
    ensures s.lastCurrentMa == current && s.lastSampleTime == Some(now)
    ensures state0.lastSampleTime.Some? && current < 0.0 ==>
      s.calculatedCapacityAh ==
        state0.capacityAh + (Abs(state0.lastCurrentMa) + Abs(current)) / 2000.0 * ((now - state0.lastSampleTime.value) / 3600.0)
    ensures state0.lastSampleTime.None? || current >= 0.0 ==> s.calculatedCapacityAh == state0.capacityAh
  {
    if state0.lastSampleTime.Some? {
      StepAccumulates(state0, current, now);
    }
  }

  /** capacity_percent across one successful record: with a positive
      rating and a clock that has not gone back since the last recorded
      sample, the percentage never decreases. */
  lemma RecordedCapacityPercent(s: TestSession, samples0: seq<CellSample>, state0: Integrator, events0: seq<HealthEvent>,
                                avg: seq<real>, current: real, timestamp: real, now: real)
    requires s.RecordedFrom(samples0, state0, events0, avg, current, timestamp, now)
    requires state0.lastSampleTime.Some? ==> state0.lastSampleTime.value <= now
    requires s.ratedCapacityAh > 0.0
    ensures s.CapacityPercent() >= (state0.capacityAh / s.ratedCapacityAh) * 100.0
  {
    StepMonotone(state0, current, now);
    var r := s.ratedCapacityAh;
    assert s.calculatedCapacityAh >= state0.capacityAh;
    assert s.calculatedCapacityAh / r >= state0.capacityAh / r;
  }

  /** The raw-reading capacity example as the engine records it: one cell at
      4.0 V sampled from a fresh session started at t = 0 s, idle at t = 0 s
      and then at -1000 mA at t = 3600 s. After the first record the
      integrator holds Step(FRESH, mean of [0 mA], 0 s); the second record
      (RecordVoltageSample ensures RecordedFrom and the current window) steps
      it with the mean of the window, -500 mA, so the session measures
      0.25 Ah, not the 0.5 Ah of Capacity.RawReadingsExample. */
  lemma SmoothedDischargeExample(s: TestSession, samples1: seq<CellSample>, events1: seq<HealthEvent>,
                                 avg: seq<real>, timestamp: real)
    requires s.currentBuffer == Push(Push([], 0.0), -1000.0)
    requires s.RecordedFrom(samples1, Step(FRESH, Mean(Push([], 0.0)), 0.0), events1,
                            avg, Mean(s.currentBuffer), timestamp, 3600.0)
    ensures s.calculatedCapacityAh == 0.25
  {
    assert Push([], 0.0) == [0.0];
    assert Mean([0.0]) == 0.0 by {
      assert [0.0][..0] == [];
    }
    assert s.currentBuffer == [0.0, -1000.0];
    assert Mean([0.0, -1000.0]) == -500.0 by {
      assert [0.0, -1000.0][..1] == [0.0];
      assert [0.0][..0] == [];
    }
    var state1 := Step(FRESH, 0.0, 0.0);
    assert state1 == Integrator(0.0, 0.0, Some(0.0));
    RecordedState(s, samples1, state1, events1, avg, -500.0, timestamp, 3600.0);
    assert s.calculatedCapacityAh == 0.0 + (0.0 + 500.0) / 2000.0 * ((3600.0 - 0.0) / 3600.0);
  }
}
