# BatteryTestSystem core in Dafny

A model of the BatteryTestSystem battery-pack test engine and of the
A-Warrior BMS protocol codec it reads its data through, with the
properties the code promises proved about the model.

- `bms_protocol.dfy` (module `BmsProtocol`) models class `AWarriorBMS`.
  It builds request frames with their two-byte checksum, runs the
  structural check of response frames, and decodes the cell-voltage
  response (command 0x04) and the basic-info response (command 0x03).
  The two parse loops are methods proved equal to specification
  functions. Those functions are proved against an encoder: decoding an
  encoded payload gives the words or the record back.
- `config.dfy` (module `Config`) holds the chemistry table, the pack and
  threshold constants, and the `.get(key, NMC)` lookup.
- `stats.dfy` and `cells.dfy` (modules `Stats` and `Cells`) hold the list
  arithmetic: sum, mean, minimum and maximum. They also hold the live/dead
  partition at the hard-coded 2.0 V cutoff, and the 1-based position lists.
- `pre_check.dfy` (module `PreCheck`) models `run_pre_check` as a function
  from a chemistry and a voltage vector to a `PreCheckResult`.
- `health.dfy` (module `Health`) covers cell health:
  - the events `_check_health` appends for one sample;
  - the summary `get_current_health_status` returns: its issues, the
    overall verdict and the live statistics.
- `smoothing.dfy` (module `Smoothing`) holds the two five-entry
  moving-average windows of `record_voltage_sample` and the per-cell
  averaging loop.
- `capacity.dfy` (module `Capacity`) holds the trapezoidal amp-hour
  integrator of `_update_capacity`, as one step and as a fold over a run.
- `format.dfy` (module `Format`) holds `runtime_str`'s rendering of whole
  seconds.
- `battery_test.dfy` (module `BatteryTest`) holds the test engine itself:
  - the `TestStatus` and `TestResult` enumerations and the `CellSample`
    record;
  - class `TestSession`, with the dataclass fields and the derived
    properties as `reads` functions;
  - class `BatteryTestEngine`, holding a nullable `session`, whose methods
    update the session's fields in place under field-level `modifies`
    frames.

Every call to `time.time()` becomes an explicit `now: real` parameter.
Python's unbounded integers are Dafny `int`. A byte is `int` restricted to
0..255. Python floats are Dafny `real`.

Three behaviours of the code are easy to misread, and the model follows
the code in all of them:

- With no live cell, `run_pre_check` reports the spread as 0, so
  `cells_balanced` is true even though nothing was measured. See
  `PreCheck.PreCheckBalanced`.
- A run of 0 mA at t = 0 s and -1000 mA at t = 3600 s integrates to
  0.5 Ah only when the integrator sees the raw readings
  (`Capacity.RawReadingsExample`). The engine passes the mean of the
  buffered currents instead. The second step therefore sees -500 mA, and
  the session measures 0.25 Ah. `BatteryTest.SmoothedDischargeExample`
  proves this over the state that `RecordVoltageSample` is proved to
  leave behind.
- `start_test` does not clear `end_time`. A restarted session whose
  earlier run was stopped therefore reports the old end time minus the
  new start time. That value is frozen, and it is negative when the
  restart follows the stop. For example, a stop at 3600 s and a restart
  at 3605 s give -5 s, shown as "59m 55s" (`StartTest`,
  `BatteryTest.RestartAfterStopExample`).

## Model

| member | source | states |
|---|---|---|
| Config.ChemistryLookup | core/config.py:6-32 | "NMC" and "LiPo" select their rows and every other key falls back to NMC. In every row the dead-cell cutoff < fail voltage <= start voltage. |
| BmsProtocol.CalculateChecksum | core/bms_protocol.py:24-28 | Adding the returned 16-bit word (high byte first) to the byte sum gives 0 modulo 65536. |
| BmsProtocol.ChecksumUnique | core/bms_protocol.py:24-28 | The checksum pair is the only byte pair that brings the sum to 0 modulo 65536. |
| BmsProtocol.BuildRequestFrame | core/bms_protocol.py:30-48 | A frame is produced exactly when the command, the payload bytes and the payload length fit in a byte (otherwise `bytes()` raises). The frame is START, READ, command, length, payload, checksum over command+length+payload, STOP. |
| BmsProtocol.EmptyRequestFrame | core/bms_protocol.py:30-48 | For a non-zero command, a request without payload has checksum bytes 0xFF and 256 - command. (Command 0 gives checksum 00 00.) |
| BmsProtocol.GetBasicInfoRequest | core/bms_protocol.py:145-147 | The basic-info request is DD A5 03 00 FF FD 77. |
| BmsProtocol.GetCellVoltagesRequest | core/bms_protocol.py:149-151 | The cell-voltage request is DD A5 04 00 FF FC 77. |
| BmsProtocol.GetVersionRequest | core/bms_protocol.py:153-155 | The version request is DD A5 05 00 FF FB 77. |
| BmsProtocol.BuiltFrameValidates | core/bms_protocol.py:52-70 | Every frame the builder produces passes validation, carries its payload at 4..len-3, and satisfies the checksum relation. |
| BmsProtocol.ValidateResponse | core/bms_protocol.py:52-70 | An accepted frame has at least 7 bytes, and its payload is exactly as long as the length byte says. |
| BmsProtocol.ValidationIgnoresUninspectedBytes | core/bms_protocol.py:52-70 | Validation depends only on the length, byte 0, byte 3 and the last byte. |
| BmsProtocol.CorruptedChecksumAccepted | core/bms_protocol.py:52-70 | A frame with a wrong checksum is still accepted: the checksum is never recomputed. |
| BmsProtocol.CellVoltagesOf | core/bms_protocol.py:74-88 | A frame decodes iff it validates, and then to length/2 voltages (an odd trailing byte is dropped). |
| BmsProtocol.ParseCellVoltages | core/bms_protocol.py:74-88 | The parse loop returns exactly the specification function's result. |
| BmsProtocol.CellVoltagesShape | core/bms_protocol.py:74-88 | The result is None exactly when validation fails. Otherwise there are length/2 values, value i being the big-endian word at payload offset 2i, read as millivolts and given in volts. |
| BmsProtocol.CellVoltagesIgnoreTrailingByte | core/bms_protocol.py:83-87 | An odd trailing payload byte does not affect the result. |
| BmsProtocol.CellVoltagesRoundTrip | core/bms_protocol.py:74-88 | A valid frame whose payload encodes a list of words decodes to those words read as volts. |
| BmsProtocol.CellVoltageFrameRoundTrip | core/bms_protocol.py:30-48 | The same round trip, through a frame built by the builder, for up to 127 words. |
| BmsProtocol.DecodedTemperatures | core/bms_protocol.py:116-122 | A decoded frame yields min(ntc_count, complete words after offset 23) temperatures, never more than ntc_count. Each is the big-endian word at its payload offset, in tenths of a kelvin, minus 273.15, so it lies between -273.15 and 6280.35 °C. |
| BmsProtocol.BasicInfoOf | core/bms_protocol.py:91-137 | A frame decodes iff it validates and its payload has at least 23 bytes. The NTC count is payload byte 22, and no more temperatures than that are read. |
| BmsProtocol.ParseBasicInfo | core/bms_protocol.py:91-140 | The parse loop, including its offset guard, returns exactly the specification function's result. |
| BmsProtocol.BasicInfoShape | core/bms_protocol.py:96-137 | The result is None exactly when validation fails or the payload is shorter than 23 bytes. Otherwise the scaled fields are multiples of ten in the 16-bit ranges, with the current signed, and the protection word and NTC count come from their offsets. There are min(ntc_count, complete words after offset 23) temperature words, read in order. |
| BmsProtocol.BasicInfoFieldsIgnoreTemperatures | core/bms_protocol.py:104-114 | The fixed fields depend only on the first 23 payload bytes. |
| BmsProtocol.EncodeBasicInfoLayout | core/bms_protocol.py:104-122 | The encoded payload has 23 + 2 * ntc_count bytes, the temperature words after offset 23, and each field at the offset and scale the decoder reads. |
| BmsProtocol.BasicInfoRoundTrip | core/bms_protocol.py:91-137 | A valid frame carrying an encoded record decodes to exactly that record. |
| Stats.MinOf | core/battery_test.py:269 | The minimum of a non-empty list is an element of it and at most every element. |
| Stats.MaxOf | core/battery_test.py:270 | The maximum of a non-empty list is an element of it and at least every element. |
| Stats.MeanBounds | core/battery_test.py:354 | The mean of a non-empty list lies between its minimum and its maximum. |
| Stats.SumConstant | core/battery_test.py:305-307 | n copies of c sum to n * c, the step by which a constant cell reading is left unchanged by the smoothing. |
| Cells.LiveCellsMembers | core/battery_test.py:257 | The live list holds exactly the readings at or above 2.0 V. It is the reading at each live position, in cell order, one entry per live cell, so it also has the right count and order. |
| Cells.LiveCellsEmpty | core/battery_test.py:257 | The live list is empty exactly when every reading is below 2.0 V. |
| Cells.PositionsMembers | core/battery_test.py:258 | A position list holds exactly the 1-based positions whose reading satisfies the filter, none beyond the input, in strictly increasing order. |
| Cells.PositionsEmpty | core/battery_test.py:258 | A position list is empty exactly when no reading satisfies the filter. |
| PreCheck.RunPreCheck | core/battery_test.py:241-287 | The reported cell count is the vector length. There is one message for an empty vector and three otherwise. Passing requires exactly 14 positions. |
| PreCheck.PreCheckEmptyInput | core/battery_test.py:247-249 | With no voltages every check fails and the only message is "no voltage data". |
| PreCheck.PreCheckCellCount | core/battery_test.py:257-267 | The reported cell count is the vector length, and the count check passes exactly at 14 positions. A full pack with dead cells passes with the dead-position message. |
| PreCheck.PreCheckCharged | core/battery_test.py:269-277 | Charged iff every live cell is at or above the chemistry's start voltage. With no live cell, the minimum reads as 0 V. |
| PreCheck.PreCheckBalanced | core/battery_test.py:279-285 | Balanced iff no two live cells differ by more than 0.30 V, which includes the case of no live cell. |
| PreCheck.PreCheckPassed | core/battery_test.py:36-49 | `passed` holds iff the vector is non-empty, has 14 positions, and is charged and balanced. |
| Health.HealthEventsFor | core/battery_test.py:346-378 | No live cell gives no events. Every event is stamped with the sample time and names a 1-based live cell with that cell's voltage. |
| Health.HasEventAppend | core/battery_test.py:361-378 | An event is in an appended log iff it is in one of the two parts. |
| Health.CellEventsFacts | core/battery_test.py:361-378 | One live cell raises at most two events, carrying its time, its position and its voltage. IMBALANCE is raised iff the cell is at least 0.50 V from the average; CRITICAL iff it is below the fail voltage. |
| Health.EventsUpToBound | core/battery_test.py:357-378 | The first n positions raise at most two events per live cell. |
| Health.EventsUpToCells | core/battery_test.py:357-378 | Every event is stamped with the sample time and names a live cell among the first n, with that cell's voltage. |
| Health.EventsUpToKinds | core/battery_test.py:357-378 | Position c has an event of a kind iff c is among the first n, the cell is live, and it meets that kind's condition. |
| Health.EventsUpToCount | core/battery_test.py:357-378 | The first n positions raise exactly one event per imbalanced cell plus one per critical cell among them. |
| Health.HealthEventsSpec | core/battery_test.py:346-378 | A sample appends nothing when no cell is live. Otherwise IMBALANCE events go to exactly the live cells at least 0.50 V from the live mean, and CRITICAL events to exactly the live cells below the fail voltage. The number of events is exactly the number of imbalanced plus critical cells, so no cell and kind is repeated. |
| Health.IssuesAppend | core/battery_test.py:401-417 | Concatenating issue lists preserves which kinds and severities occur. |
| Health.DeadPositionsNonEmpty | core/battery_test.py:385 | The dead list is non-empty iff some reading is below 2.0 V. |
| Health.ImbalancedPositionsNonEmpty | core/battery_test.py:405 | The imbalanced list is non-empty iff some live cell is at least 0.50 V from the average. |
| Health.CriticalPositionsNonEmpty | core/battery_test.py:412 | The critical list is non-empty iff some live cell is below the fail voltage. |
| Health.IssueIfFacts | core/battery_test.py:401-416 | A conditional issue is present iff its condition holds. |
| Health.LiveIssuesNumbers | core/battery_test.py:396-417 | Every issue carries the numbers its message prints, with cells in increasing order. DEAD_CELL carries every dead cell and its reading. IMBALANCE carries exactly the imbalanced live cells. SPREAD_WARNING carries the spread. CRITICAL_VOLTAGE carries the fail voltage and every live cell below it, with its reading. |
| Health.IssuesOfSummary | core/battery_test.py:401-417 | A high-severity issue is present iff there are dead, imbalanced or critical cells. The spread warning is present iff 0.30 < spread < 0.50. The verdict is ABNORMAL, WARNING or NORMAL accordingly. |
| Health.CurrentHealthStatus | core/battery_test.py:380-426 | UNKNOWN iff no cell is live, which is also exactly when no statistics are reported. With a live cell, NORMAL iff the issue list is empty. |
| Health.HealthStatusUnknown | core/battery_test.py:380-394 | No data, or no live cell, gives UNKNOWN with no statistics. Any live cell gives a verdict other than UNKNOWN. |
| Health.LiveStatsOf | core/battery_test.py:390-393 | The reported minimum and maximum are live readings bounding every live reading. The spread is their non-negative difference, and the average lies between them. |
| Health.LiveStatusStats | core/battery_test.py:390-426 | An identity for the live branch: with a live cell, the reported statistics are LiveStatsOf of the live readings, and the average is their mean. It lets callers apply LiveStatsOf's bounds to the status. |
| Health.LiveStatusIssues | core/battery_test.py:396-423 | An identity for the live branch: with a live cell, the issues are LiveIssues of the live mean and spread with the selected chemistry's fail voltage, and the verdict is computed from them. It lets callers apply LiveIssuesNumbers and LiveIssuesVerdict to the status. |
| Health.LiveIssuesVerdict | core/battery_test.py:401-423 | ABNORMAL iff some cell is dead, imbalanced or critical. WARNING iff none is, but the spread is strictly between 0.30 and 0.50 V. NORMAL iff neither, which is iff the issue list is empty. |
| Health.SpreadWarningIff | core/battery_test.py:408-410 | A spread warning is reported iff the reported spread is strictly between 0.30 and 0.50 V. |
| Health.OverallClassification | core/battery_test.py:380-426 | The three verdicts are stated in terms of the voltages and the reported average and spread, in both directions. |
| Smoothing.Push | core/battery_test.py:295-301 | The new reading ends the buffer, which is a suffix of the old buffer plus the reading. A buffer holding at most five entries still does after the push. |
| Smoothing.PushWindow | core/battery_test.py:295-301 | Pushing onto the window of a history gives the window of the longer history, so the buffers always hold the newest five readings. |
| Smoothing.PushBounded | core/battery_test.py:295-301 | One push keeps at most five entries, grows by one until full, and ends with the new reading. |
| Smoothing.Smoothed | core/battery_test.py:303-307 | Averaging succeeds iff every buffered row covers the new sample's cells, and then yields one value per cell. |
| Smoothing.AverageRows | core/battery_test.py:303-307 | The averaging loop returns exactly the specification function's result, including the IndexError case. |
| Smoothing.SmoothedSpec | core/battery_test.py:303-307 | Averaging fails iff a buffered row is shorter than the new sample. Otherwise each per-cell mean lies between that cell's smallest and largest buffered reading. |
| Smoothing.SmoothedSteady | core/battery_test.py:303-307 | Identical buffered rows, such as the first sample of a test, are returned unchanged. |
| Capacity.Step | core/battery_test.py:328-342 | A step always records the current and its time. The capacity is unchanged on the first step and whenever the current is not negative. |
| Capacity.FirstStepRecords | core/battery_test.py:328-342 | The first step only records the reading and its time. |
| Capacity.StepAccumulates | core/battery_test.py:333-340 | A later step adds the trapezoid of the two absolute currents over the elapsed hours, but only when the new current is negative (discharging). |
| Capacity.StepMonotone | core/battery_test.py:333-340 | With time not going backwards, a step never decreases the measured capacity. |
| Capacity.SteadyDischargeStep | core/battery_test.py:333-340 | A constant discharge of I mA for dt seconds adds I/1000 * dt/3600 Ah. |
| Capacity.IntegrateMonotone | core/battery_test.py:328-342 | Over a chronological run, the capacity only grows. |
| Capacity.SteadyDischarge | core/battery_test.py:328-342 | A run of equally spaced readings at a constant discharge current accumulates current times elapsed time. |
| Capacity.RawReadingsExample | core/battery_test.py:328-342 | 0 mA at 0 s and then -1000 mA at 3600 s give 0.5 Ah. |
| Format.NatToStringRoundTrip | core/battery_test.py:124-131 | The decimal rendering is non-empty, all digits, has value n, and has a leading zero only for 0. |
| Format.Pad2Spec | core/battery_test.py:131 | `:02d` of a value below 100 is two digits with that value. |
| Format.TruncSpec | core/battery_test.py:126 | `int()` truncates toward zero: for x >= 0 the result is the largest integer <= x, and for x < 0 the smallest integer >= x. |
| Format.RuntimeStrSeconds | core/battery_test.py:124-131 | The text always ends in " SSs", whose two digits denote s mod 60. |
| Format.RuntimeStrFields | core/battery_test.py:124-131 | For h hours, m < 60 minutes and s < 60 seconds, the text is "Hh MMm SSs" when h > 0 and "Mm SSs" otherwise. |
| Format.RuntimeStrHours | core/battery_test.py:124-131 | 3725 s renders as "1h 02m 05s". |
| Format.RuntimeStrMinutes | core/battery_test.py:124-131 | 59 s renders as "0m 59s". |
| Format.RuntimeStrZero | core/battery_test.py:124-131 | 0 s renders as "0m 00s". |
| Format.RuntimeStrNegative | core/battery_test.py:124-131 | -1 s renders as "59m 59s": the floor division gives -1 h, which is not printed. |
| BatteryTest.TestSession.constructor | core/battery_test.py:60-99 | A new session holds the given identification, is IDLE and PENDING, and has every other field at its default. |
| BatteryTest.TestSession.StorageVoltage | core/battery_test.py:107-110 | 3.80 V for LiPo; 3.60 V for NMC and every unknown chemistry. |
| BatteryTest.TestSession.DischargeEndVoltage | core/battery_test.py:112-115 | 3.00 V for every chemistry. |
| BatteryTest.TestSession.RuntimeStr | core/battery_test.py:124-131 | "0m 00s" before the start. Once a non-zero end is recorded, the text of the whole seconds from start to end, the same for every clock reading. |
| BatteryTest.TestSession.CellData | core/battery_test.py:143-148 | Present iff no later sample is narrower than the first. It is then the transpose: one series per cell, series i holding every sample's i-th voltage. |
| BatteryTest.BatteryTestEngine.constructor | core/battery_test.py:177-178 | The engine starts without a session. |
| BatteryTest.BatteryTestEngine.ActiveChemistry | core/battery_test.py:253-254 | The session's chemistry with the NMC fallback, or NMC when there is no session. It is always one of the two table rows. |
| BatteryTest.BatteryTestEngine.RunPreCheck | core/battery_test.py:241-287 | Charged iff some cell is live and every live cell reaches the active chemistry's start voltage. Without a session the whole result is NMC's pre-check result. |
| BatteryTest.BatteryTestEngine.GetCurrentHealthStatus | core/battery_test.py:380-426 | Statistics are present iff some cell is live. Then the verdict is ABNORMAL iff a cell is dead, or a live cell is at least 0.50 V from the reported average, or below the active chemistry's fail voltage. |
| BatteryTest.BatteryTestEngine.NewSession | core/battery_test.py:182-202 | Installs a fresh session in its initial state. |
| BatteryTest.BatteryTestEngine.StartTest | core/battery_test.py:204-209 | TESTING, started now, result reset to PENDING, and nothing else changed. Without a recorded end, the runtime then follows the clock from now on. With a non-zero end kept from an earlier stop, the runtime is frozen at that end minus now. |
| BatteryTest.BatteryTestEngine.StopTest | core/battery_test.py:211-224 | COMPLETE, ended now, with the reason. A PENDING result becomes PASS iff the capacity percentage is >= the threshold (the boundary passes), and FAIL otherwise. Any other result is kept. With a start and a non-zero stop time, the runtime is then frozen at now - start for every clock reading. |
| BatteryTest.BatteryTestEngine.AbortTest | core/battery_test.py:226-231 | ABORTED, ended now, with the reason; the result is untouched. As for StopTest, the runtime is then frozen. |
| BatteryTest.BatteryTestEngine.OverrideResult | core/battery_test.py:233-237 | Replaces the result and its reason and nothing else, in any state. |
| BatteryTest.BatteryTestEngine.RecordVoltageSample | core/battery_test.py:291-316 | See the note below this table. |
| BatteryTest.BatteryTestEngine.UpdateCapacity | core/battery_test.py:328-342 | The session's integrator takes exactly one capacity step. |
| BatteryTest.BatteryTestEngine.CheckHealth | core/battery_test.py:346-378 | The loop appends exactly the sample's health events to the session log; earlier entries are kept and nothing is deduplicated. |
| BatteryTest.BatteryTestEngine.UpdateBmsInfo | core/battery_test.py:318-324 | The initial SoC is latched from the first report while it is still 0. The cycle count and the Celsius temperatures follow the latest report. |
| BatteryTest.RuntimeClock | core/battery_test.py:117-122 | The runtime never runs backwards as the clock advances. While no end is recorded it follows the clock second for second. Once a non-zero end is recorded it no longer depends on the clock. |
| BatteryTest.RestartAfterStopExample | core/battery_test.py:117-131 | A session stopped at 3600 s and restarted at 3605 s reports -5 s, rendered as "59m 55s", at every clock reading. |
| BatteryTest.RuntimeStrExample | core/battery_test.py:117-131 | A test from 100 s to 3825.9 s reads "1h 02m 05s" at every clock reading. |
| BatteryTest.RecordedAccessors | core/battery_test.py:139-166 | After a successful record, time_data gains the new timestamp at its end and keeps the earlier ones. latest_voltages and latest_current_ma report the new sample. cell_count stays the width of the first sample ever recorded. |
| BatteryTest.RecordedState | core/battery_test.py:312-342 | After a successful record, the session remembers the recorded current and the time. With a previous sample and a negative current, the capacity grows by the trapezoid of the previous and the recorded current over the elapsed hours. Without a previous sample, or with a current >= 0, the capacity is unchanged. |
| BatteryTest.RecordedCapacityPercent | core/battery_test.py:133-137 | With a positive rating and a clock that has not gone back, a successful record never lowers capacity_percent. |
| BatteryTest.SmoothedDischargeExample | core/battery_test.py:295-342 | Two records from a fresh session, idle at 0 s and at -1000 mA at 3600 s, leave 0.25 Ah: the second step integrates the window mean of -500 mA. |

`BatteryTest.BatteryTestEngine.RecordVoltageSample`:

- Without a running test, nothing changes.
- Otherwise both windows are pushed. The method raises exactly when a buffered row is shorter than the new sample, and then changes only the buffers.
- If it does not raise, it appends one sample: stamped `now − start`, carrying the smoothed voltages and the mean buffered current. The integrator then takes one step with that current, and the sample's health events are appended.
- In that case `time_data` gains the timestamp and `latest_voltages`, `latest_current_ma` report the new sample. `cell_count` does not change once a sample exists. With a positive rating and a clock that has not gone back, `capacity_percent` does not decrease.

## Left out

- Serial-port I/O, the desktop and web front ends, report generation and persistence: outside the core. The model's inputs are the byte frames and the voltage vectors they yield.
- The `print` of a parse error at core/bms_protocol.py:138-140: the guarded payload length makes every slice in the `try` block succeed, so the handler is unreachable and is not modelled.
- `round(..., 3)` on cell voltages and `round(..., 1)` on temperatures: floating-point rounding is not modelled. Readings are exact rationals, millivolts / 1000 and deci-kelvin / 10 - 273.15.
- Floating point in general: Python floats are modelled as exact reals.
- The wording of the pre-check messages and of the health issues, and the `:.3f` / `:.2f` formatting of the numbers in them. A pre-check message is a tagged value carrying the counts, positions and voltages its text prints. A health issue carries its cell positions, its readings, and the spread or the fail voltage (`Health.LiveIssuesNumbers`).
- The "No live cells detected" text of the no-live-cell issue: it is modelled as a DEAD_CELL issue with no cells.
- BatteryTest.BatteryTestEngine.RecordVoltageSample: the source reads the clock twice, for the timestamp and inside `_update_capacity`. The model uses one `now` for both.
- BatteryTest.BatteryTestEngine.RecordVoltageSample: the IndexError is returned as the flag `raised` rather than propagated as an exception.
- BatteryTest.TestSession.CellData: the IndexError for a later sample narrower than the first is returned as `None`.
- The MIN_START_VOLTAGE fallback of core/config.py:41: every table row carries its own start voltage, so the fallback is never read. It remains a constant in `Config`.
- The `TestStatus.PRE_CHECK` value exists (`PreCheckPhase`), but no engine operation sets it, as in the source.
- Constructing a `TestSession` with its dataclass defaults outside `new_session`: the engine always passes the identification, so only that constructor is modelled.
- The serial-communication and UI settings of core/config.py after line 42: they are not read by the core.
