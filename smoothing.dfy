/** The moving-average smoothing of record_voltage_sample: two windows of
    the newest readings (voltage rows and currents), and the per-cell mean
    over the buffered voltage rows. */
module Smoothing {
  import opened Wrappers
  import opened Config
  import opened Stats

  /** buffer.append(x), then one pop(0) once the buffer holds more than
      SMOOTHING_WINDOW entries. */
  function Push<T>(buf: seq<T>, x: T): (r: seq<T>)
    ensures |r| >= 1 && r[|r| - 1] == x
    ensures |r| <= |buf| + 1 && r == (buf + [x])[|buf| + 1 - |r|..]
    ensures |buf| <= SMOOTHING_WINDOW ==> |r| <= SMOOTHING_WINDOW
  {
    var grown := buf + [x];
    if |grown| > SMOOTHING_WINDOW then grown[1..] else grown
  }

  /** The newest min(|history|, SMOOTHING_WINDOW) entries of a history. */
  function Window<T>(history: seq<T>): seq<T> {
    if |history| <= SMOOTHING_WINDOW then history else history[|history| - SMOOTHING_WINDOW..]
  }

  /** Pushing onto the window of a history gives the window of the longer
      history: a buffer that started empty always holds exactly the newest
      five readings (or all of them, while there are fewer). */
  lemma PushWindow<T>(history: seq<T>, x: T)
    ensures Push(Window(history), x) == Window(history + [x])
  {
    var h := history + [x];
    if |history| > SMOOTHING_WINDOW {
      assert Window(history) + [x] == history[|history| - SMOOTHING_WINDOW..] + [x];
      assert (history[|history| - SMOOTHING_WINDOW..] + [x])[1..] == h[|h| - SMOOTHING_WINDOW..];
    }
  }

  /** One push onto a buffer of at most five entries: the buffer stays
      within five, grows by one until it is full, ends with the new
      reading and is a suffix of the old buffer followed by it. */
  lemma PushBounded<T>(buf: seq<T>, x: T)
    requires |buf| <= SMOOTHING_WINDOW
    ensures var r := Push(buf, x);
      && |r| == (if |buf| < SMOOTHING_WINDOW then |buf| + 1 else SMOOTHING_WINDOW)
      && r[|r| - 1] == x
      && r == (buf + [x])[|buf| + 1 - |r|..]
  {
  }

  /** Every buffered row has at least n entries. */
  predicate RowsCover(rows: seq<seq<real>>, n: nat) {
    forall k :: 0 <= k < |rows| ==> n <= |rows[k]|
  }

  /** [buf[i] for buf in rows] */
  function Column(rows: seq<seq<real>>, i: nat): (col: seq<real>)
    requires RowsCover(rows, i + 1)
    ensures |col| == |rows| && forall k :: 0 <= k < |rows| ==> col[k] == rows[k][i]
  {
    seq(|rows|, k requires 0 <= k < |rows| => rows[k][i])
  }

  /** The per-cell means of the first n cells over the buffered rows, or
      None where the source raises IndexError (a buffered row shorter than
      n). */
  function Smoothed(rows: seq<seq<real>>, n: nat): (r: Option<seq<real>>)
    requires rows != []
    ensures r.Some? <==> RowsCover(rows, n)
    ensures r.Some? ==> |r.value| == n
  {
    if RowsCover(rows, n) then Some(seq(n, i requires 0 <= i < n && RowsCover(rows, n) => Mean(Column(rows, i))))
    else None
  }

  /** The averaging loop of record_voltage_sample: one mean per cell, the
      first short row aborting it. */
  method AverageRows(rows: seq<seq<real>>, n: nat) returns (avg: Option<seq<real>>)
    requires rows != []
    ensures avg == Smoothed(rows, n)
  {
    var acc: seq<real> := [];
    var i := 0;
    while i < n
      invariant 0 <= i <= n
      invariant RowsCover(rows, i)
      invariant |acc| == i
      invariant forall j :: 0 <= j < i ==> acc[j] == Mean(Column(rows, j))
    {
      if exists k :: 0 <= k < |rows| && |rows[k]| <= i {
        var k :| 0 <= k < |rows| && |rows[k]| <= i;
        assert !(n <= |rows[k]|);
        return None;
      }
      var cellValues := Column(rows, i);
      acc := acc + [Mean(cellValues)];
      i := i + 1;
    }
    avg := Some(acc);
    assert acc == seq(n, i requires 0 <= i < n && RowsCover(rows, n) => Mean(Column(rows, i)));
  }

  /** The smoothing fails exactly when some buffered row is shorter than
      the new sample; otherwise it yields one value per cell, each between
      the smallest and the largest buffered reading of that cell. */
  lemma SmoothedSpec(rows: seq<seq<real>>, n: nat)
    requires rows != []
    ensures Smoothed(rows, n).None? <==> exists k :: 0 <= k < |rows| && |rows[k]| < n
    ensures Smoothed(rows, n).Some? ==>
      var avg := Smoothed(rows, n).value;
      && |avg| == n
      && forall i :: 0 <= i < n ==> MinOf(Column(rows, i)) <= avg[i] <= MaxOf(Column(rows, i))
  {
    if Smoothed(rows, n).Some? {
      var avg := Smoothed(rows, n).value;
      forall i | 0 <= i < n
        ensures MinOf(Column(rows, i)) <= avg[i] <= MaxOf(Column(rows, i))
      {
        MeanBounds(Column(rows, i));
      }
    }
  }

  /** Buffered rows that all agree are returned unchanged; in particular
      the first sample of a test, with a single buffered row, is not
      altered by the smoothing. */
  lemma SmoothedSteady(rows: seq<seq<real>>, row: seq<real>)
    requires rows != []
    requires forall k :: 0 <= k < |rows| ==> rows[k] == row
    ensures Smoothed(rows, |row|) == Some(row)
  {
    assert RowsCover(rows, |row|);
    var avg := Smoothed(rows, |row|).value;
    forall i | 0 <= i < |row|
      ensures avg[i] == row[i]
    {
      var col := Column(rows, i);
      SumConstant(col, row[i]);
    }
    assert avg == row;
  }
}
