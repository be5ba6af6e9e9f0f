/** Cell-health monitoring: the events `_check_health` appends for each
    recorded sample, and the point-in-time summary
    `get_current_health_status`. */
module Health {
  import opened Wrappers
  import opened Config
  import opened Stats
  import opened Cells

  // ── Event log ────────────────────────────────────────────────────────────

  datatype EventKind = Imbalance | Critical

  /** One entry of health_events; `avg` is present on IMBALANCE entries. */
  datatype HealthEvent = HealthEvent(time: real, kind: EventKind, cell: nat, voltage: real, avg: Option<real>)

  /** The events one live cell raises: IMBALANCE when it is at least the
      alert threshold away from the live average, CRITICAL when it is below
      the chemistry's fail voltage, independently. */
  function CellEvents(time: real, cell: nat, v: real, avg: real, failVoltage: real): seq<HealthEvent> {
    (if Abs(v - avg) >= CELL_IMBALANCE_ALERT_V then [HealthEvent(time, Imbalance, cell, v, Some(avg))] else [])
    + (if v < failVoltage then [HealthEvent(time, Critical, cell, v, None)] else [])
  }

  /** The events of the first n cells, dead cells skipped. */
  function EventsUpTo(vs: seq<real>, n: nat, avg: real, failVoltage: real, time: real): seq<HealthEvent>
    requires n <= |vs|
  {
    if n == 0 then []
    else
      EventsUpTo(vs, n - 1, avg, failVoltage, time)
      + (if vs[n - 1] < DEAD_CELL_V then [] else CellEvents(time, n, vs[n - 1], avg, failVoltage))
  }

  /** Everything `_check_health` appends for one sample: nothing without a
      live cell, and otherwise events stamped with the sample's time, each
      naming a live cell by its 1-based position and carrying its voltage. */
  function HealthEventsFor(vs: seq<real>, failVoltage: real, time: real): (es: seq<HealthEvent>)
    ensures LiveCells(vs) == [] ==> es == []
    ensures forall k :: 0 <= k < |es| ==>
      && es[k].time == time && 1 <= es[k].cell <= |vs|
      && es[k].voltage == vs[es[k].cell - 1] && es[k].voltage >= DEAD_CELL_V
  {
    var live := LiveCells(vs);
    if live == [] then []
    else
      EventsUpToCells(vs, |vs|, Mean(live), failVoltage, time);
      EventsUpTo(vs, |vs|, Mean(live), failVoltage, time)
  }

  predicate HasEvent(es: seq<HealthEvent>, kind: EventKind, cell: int) {
    exists k :: 0 <= k < |es| && es[k].kind == kind && es[k].cell == cell
  }

  lemma HasEventAppend(xs: seq<HealthEvent>, ys: seq<HealthEvent>, kind: EventKind, cell: int)
    ensures HasEvent(xs + ys, kind, cell) <==> HasEvent(xs, kind, cell) || HasEvent(ys, kind, cell)
  {
    if HasEvent(xs + ys, kind, cell) {
      var k :| 0 <= k < |xs + ys| && (xs + ys)[k].kind == kind && (xs + ys)[k].cell == cell;
      if k >= |xs| { assert ys[k - |xs|] == (xs + ys)[k]; }
    }
    if HasEvent(ys, kind, cell) {
      var k :| 0 <= k < |ys| && ys[k].kind == kind && ys[k].cell == cell;
      assert (xs + ys)[|xs| + k] == ys[k];
    }
    if HasEvent(xs, kind, cell) {
      var k :| 0 <= k < |xs| && xs[k].kind == kind && xs[k].cell == cell;
      assert (xs + ys)[k] == xs[k];
    }
  }

  lemma CellEventsFacts(time: real, cell: nat, v: real, avg: real, failVoltage: real, c: int)
    ensures var es := CellEvents(time, cell, v, avg, failVoltage);
      && |es| <= 2
      && (forall k :: 0 <= k < |es| ==> es[k].time == time && es[k].cell == cell && es[k].voltage == v)
      && (HasEvent(es, Imbalance, c) <==> c == cell && Abs(v - avg) >= CELL_IMBALANCE_ALERT_V)
      && (HasEvent(es, Critical, c) <==> c == cell && v < failVoltage)
  {
    var imb := if Abs(v - avg) >= CELL_IMBALANCE_ALERT_V then [HealthEvent(time, Imbalance, cell, v, Some(avg))] else [];
    var crit := if v < failVoltage then [HealthEvent(time, Critical, cell, v, None)] else [];
    HasEventAppend(imb, crit, Imbalance, c);
    HasEventAppend(imb, crit, Critical, c);
    if imb != [] { assert imb[0].kind == Imbalance; }
    if crit != [] { assert crit[0].kind == Critical; }
  }

  lemma {:induction false} EventsUpToBound(vs: seq<real>, n: nat, avg: real, failVoltage: real, time: real)
    requires n <= |vs|
    ensures |EventsUpTo(vs, n, avg, failVoltage, time)| <= 2 * |LiveCells(vs[..n])|
  {
    if n > 0 {
      EventsUpToBound(vs, n - 1, avg, failVoltage, time);
      assert vs[..n][..n - 1] == vs[..n - 1];
    }
  }

  /** Every event carries the sample's time and names one of the first n
      cells, a live one, with its voltage. */
  predicate Stamped(es: seq<HealthEvent>, vs: seq<real>, n: nat, time: real)
    requires n <= |vs|
  {
    forall k :: 0 <= k < |es| ==>
      && 1 <= es[k].cell <= n && es[k].time == time
      && es[k].voltage == vs[es[k].cell - 1] && vs[es[k].cell - 1] >= DEAD_CELL_V
  }

  lemma {:induction false} EventsUpToCells(vs: seq<real>, n: nat, avg: real, failVoltage: real, time: real)
    requires n <= |vs|
    ensures Stamped(EventsUpTo(vs, n, avg, failVoltage, time), vs, n, time)
  {
    if n > 0 {
      EventsUpToCells(vs, n - 1, avg, failVoltage, time);
      var prev := EventsUpTo(vs, n - 1, avg, failVoltage, time);
      var here := if vs[n - 1] < DEAD_CELL_V then [] else CellEvents(time, n, vs[n - 1], avg, failVoltage);
      var es := prev + here;
      assert es == EventsUpTo(vs, n, avg, failVoltage, time);
      forall k | 0 <= k < |es|
        ensures 1 <= es[k].cell <= n && es[k].time == time
        ensures es[k].voltage == vs[es[k].cell - 1] && vs[es[k].cell - 1] >= DEAD_CELL_V
      {
        if k < |prev| {
          assert prev[k] == es[k];
        } else {
          assert here != [];
          var own := CellEvents(time, n, vs[n - 1], avg, failVoltage);
          assert here == own;
          CellEventsFacts(time, n, vs[n - 1], avg, failVoltage, 0);
          assert own[k - |prev|] == es[k];
        }
      }
    }
  }

  lemma {:induction false} EventsUpToKinds(vs: seq<real>, n: nat, avg: real, failVoltage: real, time: real, c: int)
    requires n <= |vs|
    ensures var es := EventsUpTo(vs, n, avg, failVoltage, time);
      && (HasEvent(es, Imbalance, c) <==>
            1 <= c <= n && vs[c - 1] >= DEAD_CELL_V && Abs(vs[c - 1] - avg) >= CELL_IMBALANCE_ALERT_V)
      && (HasEvent(es, Critical, c) <==>
            1 <= c <= n && vs[c - 1] >= DEAD_CELL_V && vs[c - 1] < failVoltage)
  {
    if n > 0 {
      EventsUpToKinds(vs, n - 1, avg, failVoltage, time, c);
      var prev := EventsUpTo(vs, n - 1, avg, failVoltage, time);
      var here := if vs[n - 1] < DEAD_CELL_V then [] else CellEvents(time, n, vs[n - 1], avg, failVoltage);
      assert prev + here == EventsUpTo(vs, n, avg, failVoltage, time);
      HasEventAppend(prev, here, Imbalance, c);
      HasEventAppend(prev, here, Critical, c);
      CellEventsFacts(time, n, vs[n - 1], avg, failVoltage, c);
    }
  }

  /** The first n cells raise one event per imbalanced cell and one per
      critical cell among them, and no other. */
  lemma {:induction false} EventsUpToCount(vs: seq<real>, n: nat, avg: real, failVoltage: real, time: real)
    requires n <= |vs|
    ensures |EventsUpTo(vs, n, avg, failVoltage, time)| ==
      |ImbalancedPositions(vs[..n], avg)| + |CriticalPositions(vs[..n], failVoltage)|
  {
    if n > 0 {
      EventsUpToCount(vs, n - 1, avg, failVoltage, time);
      assert vs[..n][..n - 1] == vs[..n - 1];
      assert vs[..n][n - 1] == vs[n - 1];
    }
  }

  /** What one sample adds to the log: nothing when no cell is live;
      otherwise at most two events per live cell, every one stamped with
      the sample's time and a 1-based live cell; an IMBALANCE event for
      cell c exactly when c is live and at least 0.50 V from the live
      average, a CRITICAL event exactly when c is live and below the fail
      voltage; and exactly one event per such cell and condition, so the
      log holds no repeats. */
  lemma HealthEventsSpec(vs: seq<real>, failVoltage: real, time: real)
    ensures var es := HealthEventsFor(vs, failVoltage, time);
      && (LiveCells(vs) == [] ==> es == [])
      && |es| <= 2 * |LiveCells(vs)|
      && (LiveCells(vs) != [] ==>
            |es| == |ImbalancedPositions(vs, Mean(LiveCells(vs)))| + |CriticalPositions(vs, failVoltage)|)
      && (forall k :: 0 <= k < |es| ==>
            1 <= es[k].cell <= |vs| && es[k].time == time && vs[es[k].cell - 1] >= DEAD_CELL_V)
      && (LiveCells(vs) != [] ==> forall c: int :: HasEvent(es, Imbalance, c) <==>
            1 <= c <= |vs| && vs[c - 1] >= DEAD_CELL_V && Abs(vs[c - 1] - Mean(LiveCells(vs))) >= CELL_IMBALANCE_ALERT_V)
      && (forall c: int :: HasEvent(es, Critical, c) <==>
            1 <= c <= |vs| && DEAD_CELL_V <= vs[c - 1] < failVoltage)
  {
    var live := LiveCells(vs);
    var es := HealthEventsFor(vs, failVoltage, time);
    if live != [] {
      var avg := Mean(live);
      assert vs[..|vs|] == vs;
      EventsUpToBound(vs, |vs|, avg, failVoltage, time);
      EventsUpToCells(vs, |vs|, avg, failVoltage, time);
      EventsUpToCount(vs, |vs|, avg, failVoltage, time);
      forall c: int
        ensures HasEvent(es, Imbalance, c) <==>
          1 <= c <= |vs| && vs[c - 1] >= DEAD_CELL_V && Abs(vs[c - 1] - avg) >= CELL_IMBALANCE_ALERT_V
        ensures HasEvent(es, Critical, c) <==> 1 <= c <= |vs| && DEAD_CELL_V <= vs[c - 1] < failVoltage
      {
        EventsUpToKinds(vs, |vs|, avg, failVoltage, time, c);
      }
    } else {
      LiveCellsEmpty(vs);
    }
  }

  // ── Point-in-time summary ────────────────────────────────────────────────

  datatype Severity = High | Medium
  datatype IssueKind = DeadCell | ImbalanceIssue | SpreadWarning | CriticalVoltage

  /** One issue: `cells` lists the 1-based cells its message names,
      `readings` the voltages it prints beside them (dead and critical
      cells), and `value` the one other number it prints (the spread, or
      the fail voltage). */
  datatype Issue = Issue(kind: IssueKind, severity: Severity, cells: seq<nat>, readings: seq<real>, value: Option<real>)

  datatype Overall = Unknown | Normal | Warning | Abnormal

  datatype LiveStats = LiveStats(avgVoltage: real, spread: real, minVoltage: real, maxVoltage: real)

  datatype HealthStatus = HealthStatus(overall: Overall, issues: seq<Issue>, stats: Option<LiveStats>)

  predicate HasHigh(issues: seq<Issue>) {
    exists k :: 0 <= k < |issues| && issues[k].severity == High
  }

  predicate HasIssue(issues: seq<Issue>, kind: IssueKind) {
    exists k :: 0 <= k < |issues| && issues[k].kind == kind
  }

  lemma IssuesAppend(xs: seq<Issue>, ys: seq<Issue>, kind: IssueKind)
    ensures HasHigh(xs + ys) <==> HasHigh(xs) || HasHigh(ys)
    ensures HasIssue(xs + ys, kind) <==> HasIssue(xs, kind) || HasIssue(ys, kind)
  {
    if HasHigh(xs + ys) {
      var k :| 0 <= k < |xs + ys| && (xs + ys)[k].severity == High;
      if k >= |xs| { assert ys[k - |xs|] == (xs + ys)[k]; }
    }
    if HasHigh(ys) {
      var k :| 0 <= k < |ys| && ys[k].severity == High;
      assert (xs + ys)[|xs| + k] == ys[k];
    }
    if HasHigh(xs) {
      var k :| 0 <= k < |xs| && xs[k].severity == High;
      assert (xs + ys)[k] == xs[k];
    }
    if HasIssue(xs + ys, kind) {
      var k :| 0 <= k < |xs + ys| && (xs + ys)[k].kind == kind;
      if k >= |xs| { assert ys[k - |xs|] == (xs + ys)[k]; }
    }
    if HasIssue(ys, kind) {
      var k :| 0 <= k < |ys| && ys[k].kind == kind;
      assert (xs + ys)[|xs| + k] == ys[k];
    }
    if HasIssue(xs, kind) {
      var k :| 0 <= k < |xs| && xs[k].kind == kind;
      assert (xs + ys)[k] == xs[k];
    }
  }

  function OverallOf(issues: seq<Issue>): Overall {
    if issues == [] then Normal else if HasHigh(issues) then Abnormal else Warning
  }

  /** [i + 1 for i, v in enumerate(voltages) if v >= 2.0 and abs(v - avg) >= 0.50] */
  function ImbalancedPositions(vs: seq<real>, avg: real): seq<nat> {
    Positions(vs, v => v >= DEAD_CELL_V && Abs(v - avg) >= CELL_IMBALANCE_ALERT_V)
  }

  /** [i + 1 for i, v in enumerate(voltages) if 2.0 <= v < cell_fail_voltage] */
  function CriticalPositions(vs: seq<real>, failVoltage: real): seq<nat> {
    Positions(vs, v => DEAD_CELL_V <= v < failVoltage)
  }

  /** Some position reads below the dead-cell threshold. */
  predicate AnyDead(vs: seq<real>) {
    exists i :: 0 <= i < |vs| && vs[i] < DEAD_CELL_V
  }

  /** Some live cell is at least the alert threshold from `avg`. */
  predicate AnyImbalanced(vs: seq<real>, avg: real) {
    exists i :: 0 <= i < |vs| && vs[i] >= DEAD_CELL_V && Abs(vs[i] - avg) >= CELL_IMBALANCE_ALERT_V
  }

  /** Some live cell is below the fail voltage. */
  predicate AnyCritical(vs: seq<real>, failVoltage: real) {
    exists i :: 0 <= i < |vs| && DEAD_CELL_V <= vs[i] < failVoltage
  }

  /** A reading that makes the summary ABNORMAL. */
  predicate AbnormalReadings(vs: seq<real>, avg: real, failVoltage: real) {
    AnyDead(vs) || AnyImbalanced(vs, avg) || AnyCritical(vs, failVoltage)
  }

  lemma DeadPositionsNonEmpty(vs: seq<real>)
    ensures DeadPositions(vs) != [] <==> AnyDead(vs)
  {
    PositionsEmpty(vs, v => v < DEAD_CELL_V);
  }

  lemma ImbalancedPositionsNonEmpty(vs: seq<real>, avg: real)
    ensures ImbalancedPositions(vs, avg) != [] <==> AnyImbalanced(vs, avg)
  {
    PositionsEmpty(vs, v => v >= DEAD_CELL_V && Abs(v - avg) >= CELL_IMBALANCE_ALERT_V);
  }

  lemma CriticalPositionsNonEmpty(vs: seq<real>, failVoltage: real)
    ensures CriticalPositions(vs, failVoltage) != [] <==> AnyCritical(vs, failVoltage)
  {
    PositionsEmpty(vs, v => DEAD_CELL_V <= v < failVoltage);
  }

  function IssueIf(cond: bool, issue: Issue): seq<Issue> {
    if cond then [issue] else []
  }

  predicate SpreadWarned(spread: real) {
    CELL_IMBALANCE_WARNING_V < spread < CELL_IMBALANCE_ALERT_V
  }

  /** The issue list for a vector with at least one live cell, in the
      source's order: dead cells, imbalance, spread warning, critical. */
  function IssuesOf(dead: seq<nat>, deadReadings: seq<real>, imbalanced: seq<nat>, spread: real,
                    critical: seq<nat>, criticalReadings: seq<real>, failVoltage: real): seq<Issue> {
    IssueIf(dead != [], Issue(DeadCell, High, dead, deadReadings, None))
    + IssueIf(imbalanced != [], Issue(ImbalanceIssue, High, imbalanced, [], None))
    + IssueIf(SpreadWarned(spread), Issue(SpreadWarning, Medium, [], [], Some(spread)))
    + IssueIf(critical != [], Issue(CriticalVoltage, High, critical, criticalReadings, Some(failVoltage)))
  }

  lemma IssueIfFacts(cond: bool, issue: Issue, kind: IssueKind)
    ensures HasHigh(IssueIf(cond, issue)) <==> cond && issue.severity == High
    ensures HasIssue(IssueIf(cond, issue), kind) <==> cond && issue.kind == kind
  {
    if cond { assert IssueIf(cond, issue)[0] == issue; }
  }

  /** Which verdict the issue list leads to: high severity exactly when a
      dead, imbalanced or critical cell is listed; a spread warning
      exactly when the spread lies strictly between the two thresholds;
      an empty list exactly when neither. */
  lemma IssuesOfSummary(dead: seq<nat>, deadReadings: seq<real>, imbalanced: seq<nat>, spread: real,
                        critical: seq<nat>, criticalReadings: seq<real>, failVoltage: real)
    ensures var issues := IssuesOf(dead, deadReadings, imbalanced, spread, critical, criticalReadings, failVoltage);
      && (HasHigh(issues) <==> dead != [] || imbalanced != [] || critical != [])
      && (HasIssue(issues, SpreadWarning) <==> SpreadWarned(spread))
      && (issues == [] <==> dead == [] && imbalanced == [] && critical == [] && !SpreadWarned(spread))
  {
    var a := IssueIf(dead != [], Issue(DeadCell, High, dead, deadReadings, None));
    var b := IssueIf(imbalanced != [], Issue(ImbalanceIssue, High, imbalanced, [], None));
    var c := IssueIf(SpreadWarned(spread), Issue(SpreadWarning, Medium, [], [], Some(spread)));
    var d := IssueIf(critical != [], Issue(CriticalVoltage, High, critical, criticalReadings, Some(failVoltage)));
    IssueIfFacts(dead != [], Issue(DeadCell, High, dead, deadReadings, None), SpreadWarning);
    IssueIfFacts(imbalanced != [], Issue(ImbalanceIssue, High, imbalanced, [], None), SpreadWarning);
    IssueIfFacts(SpreadWarned(spread), Issue(SpreadWarning, Medium, [], [], Some(spread)), SpreadWarning);
    IssueIfFacts(critical != [], Issue(CriticalVoltage, High, critical, criticalReadings, Some(failVoltage)), SpreadWarning);
    IssuesAppend(a, b, SpreadWarning);
    IssuesAppend(a + b, c, SpreadWarning);
    IssuesAppend(a + b + c, d, SpreadWarning);
  }

  /** The issues of a vector with at least one live cell, given the live
      average and spread. */
  function LiveIssues(vs: seq<real>, avg: real, spread: real, failVoltage: real): seq<Issue> {
    var dead, critical := DeadPositions(vs), CriticalPositions(vs, failVoltage);
    IssuesOf(dead, ReadingsAt(vs, dead), ImbalancedPositions(vs, avg), spread,
             critical, ReadingsAt(vs, critical), failVoltage)
  }

  /** The numbers an issue of a live vector prints: a dead-cell issue
      carries every dead cell with its reading; an imbalance issue the live
      cells at least 0.50 V from the average; a spread warning the spread;
      a critical issue the fail voltage and every live cell below it with
      its reading. Cells are listed in increasing order. */
  predicate IssueNumbers(issue: Issue, vs: seq<real>, avg: real, spread: real, failVoltage: real) {
    && (forall a, b :: 0 <= a < b < |issue.cells| ==> issue.cells[a] < issue.cells[b])
    && (forall j :: 0 <= j < |issue.cells| ==> 1 <= issue.cells[j] <= |vs|)
    && match issue.kind
       case DeadCell =>
         && issue.value == None && |issue.readings| == |issue.cells|
         && (forall j :: 0 <= j < |issue.cells| ==> issue.readings[j] == vs[issue.cells[j] - 1] < DEAD_CELL_V)
         && (forall i :: 0 <= i < |vs| && vs[i] < DEAD_CELL_V ==> i + 1 in issue.cells)
       case ImbalanceIssue =>
         && issue.value == None && issue.readings == []
         && (forall j :: 0 <= j < |issue.cells| ==>
               vs[issue.cells[j] - 1] >= DEAD_CELL_V && Abs(vs[issue.cells[j] - 1] - avg) >= CELL_IMBALANCE_ALERT_V)
         && (forall i :: 0 <= i < |vs| && vs[i] >= DEAD_CELL_V && Abs(vs[i] - avg) >= CELL_IMBALANCE_ALERT_V ==>
               i + 1 in issue.cells)
       case SpreadWarning =>
         issue.value == Some(spread) && issue.cells == [] && issue.readings == []
       case CriticalVoltage =>
         && issue.value == Some(failVoltage) && |issue.readings| == |issue.cells|
         && (forall j :: 0 <= j < |issue.cells| ==>
               issue.readings[j] == vs[issue.cells[j] - 1] && DEAD_CELL_V <= issue.readings[j] < failVoltage)
         && (forall i :: 0 <= i < |vs| && DEAD_CELL_V <= vs[i] < failVoltage ==> i + 1 in issue.cells)
  }

  lemma DeadIssueNumbers(vs: seq<real>, avg: real, spread: real, failVoltage: real)
    ensures var dead := DeadPositions(vs);
      IssueNumbers(Issue(DeadCell, High, dead, ReadingsAt(vs, dead), None), vs, avg, spread, failVoltage)
  {
    var dead := DeadPositions(vs);
    PositionsMembers(vs, v => v < DEAD_CELL_V);
    forall j | 0 <= j < |dead| ensures vs[dead[j] - 1] < DEAD_CELL_V {
      assert dead[j] in dead;
    }
  }

  lemma ImbalanceIssueNumbers(vs: seq<real>, avg: real, spread: real, failVoltage: real)
    ensures IssueNumbers(Issue(ImbalanceIssue, High, ImbalancedPositions(vs, avg), [], None), vs, avg, spread, failVoltage)
  {
    var imbalanced := ImbalancedPositions(vs, avg);
    PositionsMembers(vs, v => v >= DEAD_CELL_V && Abs(v - avg) >= CELL_IMBALANCE_ALERT_V);
    forall j | 0 <= j < |imbalanced|
      ensures vs[imbalanced[j] - 1] >= DEAD_CELL_V && Abs(vs[imbalanced[j] - 1] - avg) >= CELL_IMBALANCE_ALERT_V
    {
      assert imbalanced[j] in imbalanced;
    }
  }

  lemma CriticalIssueNumbers(vs: seq<real>, avg: real, spread: real, failVoltage: real)
    ensures var critical := CriticalPositions(vs, failVoltage);
      IssueNumbers(Issue(CriticalVoltage, High, critical, ReadingsAt(vs, critical), Some(failVoltage)),
                   vs, avg, spread, failVoltage)
  {
    var critical := CriticalPositions(vs, failVoltage);
    PositionsMembers(vs, v => DEAD_CELL_V <= v < failVoltage);
    forall j | 0 <= j < |critical| ensures DEAD_CELL_V <= vs[critical[j] - 1] < failVoltage {
      assert critical[j] in critical;
    }
  }

  /** Every issue of a vector with a live cell prints the numbers the
      source's message does (IssueNumbers). */
  lemma LiveIssuesNumbers(vs: seq<real>, avg: real, spread: real, failVoltage: real)
    ensures forall k :: 0 <= k < |LiveIssues(vs, avg, spread, failVoltage)| ==>
      IssueNumbers(LiveIssues(vs, avg, spread, failVoltage)[k], vs, avg, spread, failVoltage)
  {
    var dead, imbalanced, critical := DeadPositions(vs), ImbalancedPositions(vs, avg), CriticalPositions(vs, failVoltage);
    var d := Issue(DeadCell, High, dead, ReadingsAt(vs, dead), None);
    var m := Issue(ImbalanceIssue, High, imbalanced, [], None);
    var w := Issue(SpreadWarning, Medium, [], [], Some(spread));
    var c := Issue(CriticalVoltage, High, critical, ReadingsAt(vs, critical), Some(failVoltage));
    DeadIssueNumbers(vs, avg, spread, failVoltage);
    ImbalanceIssueNumbers(vs, avg, spread, failVoltage);
    CriticalIssueNumbers(vs, avg, spread, failVoltage);
    assert IssueNumbers(w, vs, avg, spread, failVoltage);
    var issues := LiveIssues(vs, avg, spread, failVoltage);
    forall k | 0 <= k < |issues|
      ensures IssueNumbers(issues[k], vs, avg, spread, failVoltage)
    {
      IssuesOfMembers(issues[k], d, m, w, c, dead != [], imbalanced != [], SpreadWarned(spread), critical != []);
    }
  }

  lemma IssuesOfMembers(x: Issue, d: Issue, m: Issue, w: Issue, c: Issue, hasD: bool, hasM: bool, hasW: bool, hasC: bool)
    requires x in IssueIf(hasD, d) + IssueIf(hasM, m) + IssueIf(hasW, w) + IssueIf(hasC, c)
    ensures x == d || x == m || x == w || x == c
  {
  }

  /** avg_v, spread, min_v and max_v of the live readings: the extremes
      are live readings bounding all the others, the spread is their
      distance and the average lies between them. */
  function LiveStatsOf(live: seq<real>): (st: LiveStats)
    requires live != []
    ensures st.minVoltage in live && st.maxVoltage in live
    ensures forall k :: 0 <= k < |live| ==> st.minVoltage <= live[k] <= st.maxVoltage
    ensures st.spread == st.maxVoltage - st.minVoltage && st.spread >= 0.0
    ensures st.minVoltage <= st.avgVoltage <= st.maxVoltage
  {
    MeanBounds(live);
    LiveStats(Mean(live), MaxOf(live) - MinOf(live), MinOf(live), MaxOf(live))
  }

  /** get_current_health_status: UNKNOWN, without statistics, exactly when
      no cell is live; otherwise a verdict with the live statistics, NORMAL
      exactly when nothing is reported. */
  function CurrentHealthStatus(chem: Chemistry, vs: seq<real>): (h: HealthStatus)
    ensures h.overall == Unknown <==> LiveCells(vs) == []
    ensures h.stats.Some? <==> LiveCells(vs) != []
    ensures LiveCells(vs) != [] ==> (h.overall == Normal <==> h.issues == [])
  {
    if vs == [] then HealthStatus(Unknown, [], None)
    else
      var live := LiveCells(vs);
      if live == [] then HealthStatus(Unknown, [Issue(DeadCell, High, [], [], None)], None)
      else
        var st := LiveStatsOf(live);
        var issues := LiveIssues(vs, st.avgVoltage, st.spread, chem.cellFailVoltage);
        HealthStatus(OverallOf(issues), issues, Some(st))
  }

  /** The two UNKNOWN answers: no data at all, and no live cell (with a
      single high-severity dead-cell issue). */
  lemma HealthStatusUnknown(chem: Chemistry, vs: seq<real>)
    ensures vs == [] ==> CurrentHealthStatus(chem, vs) == HealthStatus(Unknown, [], None)
    ensures vs != [] && (forall i :: 0 <= i < |vs| ==> vs[i] < DEAD_CELL_V) ==>
      CurrentHealthStatus(chem, vs) == HealthStatus(Unknown, [Issue(DeadCell, High, [], [], None)], None)
    ensures (exists i :: 0 <= i < |vs| && vs[i] >= DEAD_CELL_V) ==> CurrentHealthStatus(chem, vs).overall != Unknown
  {
    LiveCellsEmpty(vs);
  }

  /** With a live cell the status carries the live statistics... */
  lemma LiveStatusStats(chem: Chemistry, vs: seq<real>)
    requires LiveCells(vs) != []
    ensures CurrentHealthStatus(chem, vs).stats == Some(LiveStatsOf(LiveCells(vs)))
    ensures Mean(LiveCells(vs)) == LiveStatsOf(LiveCells(vs)).avgVoltage
  {
    assert vs != [];
  }

  /** ...and the verdict of the issue list built from the live average and
      spread. */
  lemma LiveStatusIssues(chem: Chemistry, vs: seq<real>)
    requires LiveCells(vs) != []
    ensures CurrentHealthStatus(chem, vs).stats.Some?
    ensures CurrentHealthStatus(chem, vs).issues ==
      LiveIssues(vs, CurrentHealthStatus(chem, vs).stats.value.avgVoltage, CurrentHealthStatus(chem, vs).stats.value.spread,
                 chem.cellFailVoltage)
    ensures CurrentHealthStatus(chem, vs).overall == OverallOf(CurrentHealthStatus(chem, vs).issues)
  {
  }

  /** The verdict of an issue list from the voltages alone. */
  lemma LiveIssuesVerdict(vs: seq<real>, avg: real, spread: real, failVoltage: real)
    ensures OverallOf(LiveIssues(vs, avg, spread, failVoltage)) == Abnormal <==> AbnormalReadings(vs, avg, failVoltage)
    ensures OverallOf(LiveIssues(vs, avg, spread, failVoltage)) == Warning <==>
      !AbnormalReadings(vs, avg, failVoltage) && SpreadWarned(spread)
    ensures OverallOf(LiveIssues(vs, avg, spread, failVoltage)) == Normal <==>
      !AbnormalReadings(vs, avg, failVoltage) && !SpreadWarned(spread)
    ensures OverallOf(LiveIssues(vs, avg, spread, failVoltage)) == Normal <==> LiveIssues(vs, avg, spread, failVoltage) == []
    ensures HasIssue(LiveIssues(vs, avg, spread, failVoltage), SpreadWarning) <==> SpreadWarned(spread)
  {
    var dead, critical := DeadPositions(vs), CriticalPositions(vs, failVoltage);
    IssuesOfSummary(dead, ReadingsAt(vs, dead), ImbalancedPositions(vs, avg), spread,
                    critical, ReadingsAt(vs, critical), failVoltage);
    DeadPositionsNonEmpty(vs);
    ImbalancedPositionsNonEmpty(vs, avg);
    CriticalPositionsNonEmpty(vs, failVoltage);
  }

  /** With a live cell: a spread warning is raised exactly when the
      reported live spread (MaxOf - MinOf of the live cells, by
      LiveStatusStats) lies strictly between 0.30 V and 0.50 V. */
  lemma SpreadWarningIff(chem: Chemistry, vs: seq<real>)
    requires LiveCells(vs) != []
    ensures CurrentHealthStatus(chem, vs).stats.Some?
    ensures HasIssue(CurrentHealthStatus(chem, vs).issues, SpreadWarning) <==>
      SpreadWarned(CurrentHealthStatus(chem, vs).stats.value.spread)
  {
    LiveStatusIssues(chem, vs);
    var stats := CurrentHealthStatus(chem, vs).stats.value;
    LiveIssuesVerdict(vs, stats.avgVoltage, stats.spread, chem.cellFailVoltage);
  }

  /** The overall verdict, read straight off the voltages and the reported
      live average and spread: ABNORMAL exactly when some cell is dead,
      some live cell is at least 0.50 V from the live average, or some live
      cell is below the fail voltage; WARNING when none of these holds but
      the spread lies strictly between 0.30 V and 0.50 V; NORMAL otherwise,
      and then the issue list is empty. */
  lemma OverallClassification(chem: Chemistry, vs: seq<real>)
    requires LiveCells(vs) != []
    ensures CurrentHealthStatus(chem, vs).stats.Some?
    ensures var status := CurrentHealthStatus(chem, vs);
      var abnormal := AbnormalReadings(vs, status.stats.value.avgVoltage, chem.cellFailVoltage);
      var warned := SpreadWarned(status.stats.value.spread);
      && (status.overall == Abnormal <==> abnormal)
      && (status.overall == Warning <==> !abnormal && warned)
      && (status.overall == Normal <==> !abnormal && !warned)
      && (status.overall == Normal <==> status.issues == [])
  {
    LiveStatusIssues(chem, vs);
    var stats := CurrentHealthStatus(chem, vs).stats.value;
    LiveIssuesVerdict(vs, stats.avgVoltage, stats.spread, chem.cellFailVoltage);
  }
}
