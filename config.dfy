/** The configuration the test engine reads: the chemistry table and the
    pack and threshold constants of core/config.py, as immutable values. */
module Config {

  /** One row of BATTERY_CHEMISTRIES (volts and amp-hours). */
  datatype Chemistry = Chemistry(
    name: string,
    storageVoltage: real,
    dischargeEndVoltage: real,
    minCellVoltage: real,
    maxCellVoltage: real,
    fullChargeVoltage: real,
    cellFailVoltage: real,
    minStartVoltage: real,
    ratedCapacityAh: real)

  const NMC := Chemistry("NMC Prismatic", 3.60, 3.00, 2.50, 4.20, 4.15, 3.00, 3.60, 62.0)
  const LIPO := Chemistry("LiPo", 3.80, 3.00, 2.50, 4.20, 4.15, 3.00, 3.00, 46.0)

  const BATTERY_CHEMISTRIES: map<string, Chemistry> := map["NMC" := NMC, "LiPo" := LIPO]

  const DEFAULT_CHEMISTRY := "NMC"
  const DEFAULT_RATED_CAPACITY_AH := 62.0
  const NUMBER_OF_CELLS := 14
  const DEFAULT_PASS_THRESHOLD_PCT := 95.0
  const CELL_IMBALANCE_WARNING_V := 0.30
  const CELL_IMBALANCE_ALERT_V := 0.50
  /** Fallback start voltage; every table row carries its own, so the
      engine never falls back to it. */
  const MIN_START_VOLTAGE := 3.50
  /** The dead-cell cutoff hard-coded in the engine's live/dead partition. */
  const DEAD_CELL_V := 2.0
  /** Size of the moving-average windows in record_voltage_sample. */
  const SMOOTHING_WINDOW := 5

  /** BATTERY_CHEMISTRIES.get(key, BATTERY_CHEMISTRIES[DEFAULT_CHEMISTRY]) */
  function ChemistryFor(key: string): Chemistry {
    if key in BATTERY_CHEMISTRIES then BATTERY_CHEMISTRIES[key] else BATTERY_CHEMISTRIES[DEFAULT_CHEMISTRY]
  }

  /** The lookup: the two known keys select their rows, every other key
      falls back to NMC; in every row the start threshold is above the
      dead-cell cutoff and the fail voltage lies between the two. */
  lemma ChemistryLookup(key: string)
    ensures key == "NMC" ==> ChemistryFor(key) == NMC
    ensures key == "LiPo" ==> ChemistryFor(key) == LIPO
    ensures key != "NMC" && key != "LiPo" ==> ChemistryFor(key) == NMC
    ensures DEAD_CELL_V < ChemistryFor(key).cellFailVoltage <= ChemistryFor(key).minStartVoltage
  {
  }
}
