/** The live/dead partition of a voltage vector that the pre-check, the
    event log and the health summary share: a cell is live at or above the
    hard-coded 2.0 V cutoff, and positions are reported 1-based. */
module Cells {
  import opened Config

  /** [v for v in voltages if v >= 2.0] */
  function LiveCells(vs: seq<real>): seq<real> {
    if vs == [] then []
    else LiveCells(vs[..|vs| - 1]) + (if vs[|vs| - 1] >= DEAD_CELL_V then [vs[|vs| - 1]] else [])
  }

  /** [i + 1 for i, v in enumerate(voltages) if keep(v)]: every entry is a
      1-based position of the vector. */
  function Positions(vs: seq<real>, keep: real -> bool): (ps: seq<nat>)
    ensures |ps| <= |vs|
    ensures forall k :: 0 <= k < |ps| ==> 1 <= ps[k] <= |vs|
  {
    if vs == [] then []
    else Positions(vs[..|vs| - 1], keep) + (if keep(vs[|vs| - 1]) then [|vs|] else [])
  }

  /** The positions of the live cells. */
  function LivePositions(vs: seq<real>): seq<nat> {
    Positions(vs, v => v >= DEAD_CELL_V)
  }

  /** [voltages[p - 1] for p in ps]: the readings at 1-based positions, in
      the order of `ps`. */
  function ReadingsAt(vs: seq<real>, ps: seq<nat>): seq<real>
    requires forall k :: 0 <= k < |ps| ==> 1 <= ps[k] <= |vs|
  {
    seq(|ps|, k requires 0 <= k < |ps| => vs[ps[k] - 1])
  }

  function DeadPositions(vs: seq<real>): seq<nat> {
    Positions(vs, v => v < DEAD_CELL_V)
  }

  /** The live list holds exactly the voltages at or above the cutoff: it
      is the reading of every live position, one entry per live cell, in
      the order of the cells. */
  lemma {:induction false} LiveCellsMembers(vs: seq<real>)
    ensures |LiveCells(vs)| <= |vs|
    ensures forall x :: x in LiveCells(vs) <==> x in vs && x >= DEAD_CELL_V
    ensures LiveCells(vs) == ReadingsAt(vs, LivePositions(vs))
  {
    if vs != [] {
      var init := vs[..|vs| - 1];
      var x := vs[|vs| - 1];
      LiveCellsMembers(init);
      assert vs == init + [x];
      var p, q := LivePositions(vs), LivePositions(init);
      assert p == q + (if x >= DEAD_CELL_V then [|vs|] else []);
      var r, rs := LiveCells(vs), ReadingsAt(vs, p);
      assert |r| == |rs|;
      forall k | 0 <= k < |r|
        ensures r[k] == rs[k]
      {
        if k < |q| {
          assert r[k] == LiveCells(init)[k] == init[q[k] - 1];
        }
      }
    }
  }

  /** LiveCells is empty exactly when every cell is below the cutoff. */
  lemma LiveCellsEmpty(vs: seq<real>)
    ensures LiveCells(vs) == [] <==> forall i :: 0 <= i < |vs| ==> vs[i] < DEAD_CELL_V
  {
    LiveCellsMembers(vs);
    if LiveCells(vs) != [] {
      assert LiveCells(vs)[0] in LiveCells(vs);
    } else {
      forall i | 0 <= i < |vs| ensures vs[i] < DEAD_CELL_V {
        assert vs[i] in vs;
      }
    }
  }

  /** Positions lists, in increasing order, the 1-based position of every
      voltage that `keep` accepts, and no other. */
  lemma {:induction false} PositionsMembers(vs: seq<real>, keep: real -> bool)
    ensures forall p :: p in Positions(vs, keep) <==> 1 <= p <= |vs| && keep(vs[p - 1])
    ensures forall k :: 0 <= k < |Positions(vs, keep)| ==> Positions(vs, keep)[k] <= |vs|
    ensures forall a, b :: 0 <= a < b < |Positions(vs, keep)| ==> Positions(vs, keep)[a] < Positions(vs, keep)[b]
  {
    if vs != [] {
      var init := vs[..|vs| - 1];
      PositionsMembers(init, keep);
      assert forall i :: 0 <= i < |init| ==> init[i] == vs[i];
    }
  }

  lemma PositionsEmpty(vs: seq<real>, keep: real -> bool)
    ensures Positions(vs, keep) == [] <==> forall i :: 0 <= i < |vs| ==> !keep(vs[i])
  {
    PositionsMembers(vs, keep);
    if Positions(vs, keep) != [] {
      assert Positions(vs, keep)[0] in Positions(vs, keep);
    } else {
      forall i | 0 <= i < |vs| ensures !keep(vs[i]) {
        assert i + 1 !in Positions(vs, keep);
      }
    }
  }
}
