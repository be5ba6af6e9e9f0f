/** The pre-test check (BatteryTestEngine.run_pre_check): a fresh result
    built from one voltage vector and the active chemistry. */
module PreCheck {
  import opened Config
  import opened Stats
  import opened Cells

  /** The diagnostic lines of the result, without their wording. */
  datatype Message =
    | NoVoltageData
    | WrongCellCount(expected: nat, got: nat)
    | DeadCellsAllowed(positions: seq<nat>)
    | AllCellsDetected(count: nat)
    | LiveCellsCharged(minVoltage: real, minStart: real)
    | BelowStartThreshold(minVoltage: real, minStart: real)
    | LiveCellsBalanced(spread: real)
    | LiveCellsUnbalanced(spread: real, limit: real)

  datatype PreCheckResult = PreCheckResult(
    allCellsFound: bool,
    cellsCharged: bool,
    cellsBalanced: bool,
    cellCount: nat,
    minVoltage: real,
    maxVoltage: real,
    spread: real,
    messages: seq<Message>)
  {
    /** PreCheckResult.passed */
    predicate Passed() {
      allCellsFound && cellsCharged && cellsBalanced
    }
  }

  /** The dataclass defaults. */
  const DEFAULT_RESULT := PreCheckResult(false, false, false, 0, 0.0, 0.0, 0.0, [])

  /** run_pre_check: one message without data, otherwise three (count,
      charge, balance); the count is the number of positions reported, and
      a passing check saw the configured number of cells. */
  function RunPreCheck(chem: Chemistry, voltages: seq<real>): (r: PreCheckResult)
    ensures r.cellCount == |voltages|
    ensures |r.messages| == (if voltages == [] then 1 else 3)
    ensures r.Passed() ==> |voltages| == NUMBER_OF_CELLS
  {
    if voltages == [] then
      DEFAULT_RESULT.(messages := [NoVoltageData])
    else
      var live := LiveCells(voltages);
      var dead := DeadPositions(voltages);
      var found := |voltages| == NUMBER_OF_CELLS;
      var countMessage :=
        if !found then WrongCellCount(NUMBER_OF_CELLS, |voltages|)
        else if dead != [] then DeadCellsAllowed(dead)
        else AllCellsDetected(NUMBER_OF_CELLS);
      var minV := if live != [] then MinOf(live) else 0.0;
      var maxV := if live != [] then MaxOf(live) else 0.0;
      var charged := minV >= chem.minStartVoltage;
      var chargeMessage :=
        if charged then LiveCellsCharged(minV, chem.minStartVoltage)
        else BelowStartThreshold(minV, chem.minStartVoltage);
      var spread := if live != [] then maxV - minV else 0.0;
      var balanced := spread <= CELL_IMBALANCE_WARNING_V;
      var balanceMessage :=
        if balanced then LiveCellsBalanced(spread)
        else LiveCellsUnbalanced(spread, CELL_IMBALANCE_WARNING_V);
      PreCheckResult(found, charged, balanced, |voltages|, minV, maxV, spread,
                     [countMessage, chargeMessage, balanceMessage])
  }

  /** No voltages: every check fails and the only message says so. */
  lemma PreCheckEmptyInput(chem: Chemistry)
    ensures var r := RunPreCheck(chem, []);
      !r.allCellsFound && !r.cellsCharged && !r.cellsBalanced && !r.Passed()
      && r.messages == [NoVoltageData]
  {
  }

  /** The count check compares the number of positions reported with the
      configured pack size, and dead cells do not make it fail: a full
      pack with dead cells passes it with a warning listing them. */
  lemma PreCheckCellCount(chem: Chemistry, voltages: seq<real>)
    requires voltages != []
    ensures var r := RunPreCheck(chem, voltages);
      && r.cellCount == |voltages|
      && (r.allCellsFound <==> |voltages| == NUMBER_OF_CELLS)
      && (r.allCellsFound && (exists i :: 0 <= i < |voltages| && voltages[i] < DEAD_CELL_V) ==>
            r.messages[0] == DeadCellsAllowed(DeadPositions(voltages)))
  {
    var r := RunPreCheck(chem, voltages);
    if exists i :: 0 <= i < |voltages| && voltages[i] < DEAD_CELL_V {
      PositionsEmpty(voltages, v => v < DEAD_CELL_V);
    }
  }

  /** The charge check: every live cell is at or above the chemistry's
      start voltage; with no live cell the minimum reads as 0 V. */
  lemma PreCheckCharged(chem: Chemistry, voltages: seq<real>)
    requires voltages != []
    ensures RunPreCheck(chem, voltages).cellsCharged <==>
      if forall i :: 0 <= i < |voltages| ==> voltages[i] < DEAD_CELL_V then 0.0 >= chem.minStartVoltage
      else forall i :: 0 <= i < |voltages| && voltages[i] >= DEAD_CELL_V ==> voltages[i] >= chem.minStartVoltage
  {
    var live := LiveCells(voltages);
    LiveCellsEmpty(voltages);
    LiveCellsMembers(voltages);
    if live != [] {
      var m := MinOf(live);
      if m >= chem.minStartVoltage {
        forall i | 0 <= i < |voltages| && voltages[i] >= DEAD_CELL_V
          ensures voltages[i] >= chem.minStartVoltage
        {
          assert voltages[i] in voltages;
          assert voltages[i] in live;
        }
      } else {
        assert m in voltages && m >= DEAD_CELL_V;
      }
    }
  }

  /** The balance check: no two live cells differ by more than 0.30 V.
      With no live cell the spread is 0 and the check passes. */
  lemma PreCheckBalanced(chem: Chemistry, voltages: seq<real>)
    requires voltages != []
    ensures RunPreCheck(chem, voltages).cellsBalanced <==>
      forall i, j :: 0 <= i < |voltages| && 0 <= j < |voltages|
        && voltages[i] >= DEAD_CELL_V && voltages[j] >= DEAD_CELL_V
        ==> voltages[i] - voltages[j] <= CELL_IMBALANCE_WARNING_V
  {
    var live := LiveCells(voltages);
    LiveCellsEmpty(voltages);
    LiveCellsMembers(voltages);
    if live != [] {
      var lo, hi := MinOf(live), MaxOf(live);
      if hi - lo <= CELL_IMBALANCE_WARNING_V {
        forall i, j | 0 <= i < |voltages| && 0 <= j < |voltages|
            && voltages[i] >= DEAD_CELL_V && voltages[j] >= DEAD_CELL_V
          ensures voltages[i] - voltages[j] <= CELL_IMBALANCE_WARNING_V
        {
          assert voltages[i] in voltages && voltages[j] in voltages;
          assert voltages[i] in live && voltages[j] in live;
        }
      } else {
        assert lo in voltages && hi in voltages;
      }
    }
  }

  /** The whole check passes exactly when all three parts do. */
  lemma PreCheckPassed(chem: Chemistry, voltages: seq<real>)
    ensures var r := RunPreCheck(chem, voltages);
      r.Passed() <==> voltages != [] && |voltages| == NUMBER_OF_CELLS && r.cellsCharged && r.cellsBalanced
  {
  }
}
