/**
 The Count-Min Sketch as one flat table shared by both directions. The row hash is an arbitrary
 function, so every statement holds for any hash.
 */
module Sketch {
  import opened Words
  import opened Decay
  import opened Flow
  import opened SharedCell

  const CMS_WIDTH := 32768
  const CMS_DEPTH := 4
  const DIR_MAX := 2
  const HALF: nat := CMS_WIDTH * CMS_DEPTH

  type Hash = (FlowKey, nat) -> u32

  function Index(dir: nat, row: nat, col: nat): nat {
    dir * HALF + row * CMS_WIDTH + col
  }

  function Slot(hash: Hash, dir: nat, k: FlowKey, row: nat): nat {
    Index(dir, row, hash(k, row) % CMS_WIDTH)
  }

  /** Keys stay inside the map, and no two (direction, row, column) triples share a cell. */
  lemma {:induction false} IndexInjective(d: nat, r: nat, c: nat, d': nat, r': nat, c': nat)
    requires d < DIR_MAX && d' < DIR_MAX && r < CMS_DEPTH && r' < CMS_DEPTH && c < CMS_WIDTH && c' < CMS_WIDTH
    ensures Index(d, r, c) < DIR_MAX * HALF
    ensures Index(d, r, c) == Index(d', r', c') <==> d == d' && r == r' && c == c'
  {
  }

  /** Cell i belongs to the flow in one of its first n rows. */
  ghost predicate TouchesRows(hash: Hash, dir: nat, k: FlowKey, i: nat, n: nat) {
    exists row :: 0 <= row < n && Slot(hash, dir, k, row) == i
  }

  ghost predicate Touches(hash: Hash, dir: nat, k: FlowKey, i: nat) {
    TouchesRows(hash, dir, k, i, CMS_DEPTH)
  }

  lemma {:induction false} NotYetTouched(hash: Hash, dir: nat, k: FlowKey, row: nat)
    requires row < CMS_DEPTH && dir < DIR_MAX
    ensures !TouchesRows(hash, dir, k, Slot(hash, dir, k, row), row)
    ensures Slot(hash, dir, k, row) < DIR_MAX * HALF
  {
    forall r | 0 <= r <= row ensures Slot(hash, dir, k, r) == Slot(hash, dir, k, row) <==> r == row {
      IndexInjective(dir, r, hash(k, r) % CMS_WIDTH, dir, row, hash(k, row) % CMS_WIDTH);
    }
    IndexInjective(dir, row, hash(k, row) % CMS_WIDTH, dir, row, hash(k, row) % CMS_WIDTH);
  }

  lemma {:induction false} MoreRows(hash: Hash, dir: nat, k: FlowKey, i: nat, row: nat)
    ensures TouchesRows(hash, dir, k, i, row + 1) <==>
            TouchesRows(hash, dir, k, i, row) || Slot(hash, dir, k, row) == i
  {
  }

  /** One packet's effect on the table: its cell in every row is touched once, nothing else moves. */
  ghost function CmsAfter(hash: Hash, dir: nat, k: FlowKey, t: Touch, table: seq<Cell>): (r: seq<Cell>)
    ensures |r| == |table|
  {
    seq(|table|, i requires 0 <= i < |table| => if Touches(hash, dir, k, i) then Hit(table[i], t) else table[i])
  }

  /** The least counter of the flow over the first n rows. */
  function RowMin(hash: Hash, dir: nat, k: FlowKey, table: seq<Cell>, n: nat): u64
    requires n <= CMS_DEPTH && dir < DIR_MAX && (dir + 1) * HALF <= |table|
  {
    if n == 0 then TWO64 - 1 else
      var m, b := RowMin(hash, dir, k, table, n - 1), table[Slot(hash, dir, k, n - 1)].bytes;
      if b < m then b else m
  }

  lemma {:induction false} RowMinFrame(hash: Hash, dir: nat, k: FlowKey, table: seq<Cell>, i: nat, c: Cell, n: nat)
    requires n <= CMS_DEPTH && dir < DIR_MAX && (dir + 1) * HALF <= |table| && i < |table|
    requires !TouchesRows(hash, dir, k, i, n)
    ensures RowMin(hash, dir, k, table[i := c], n) == RowMin(hash, dir, k, table, n)
  {
    if n > 0 {
      assert Slot(hash, dir, k, n - 1) != i;
      RowMinFrame(hash, dir, k, table, i, c, n - 1);
    }
  }

  /** The row minimum is the least of the flow's counters. */
  lemma {:induction false} RowMinIsLeast(hash: Hash, dir: nat, k: FlowKey, table: seq<Cell>, n: nat)
    requires n <= CMS_DEPTH && dir < DIR_MAX && (dir + 1) * HALF <= |table|
    ensures forall row :: 0 <= row < n ==> RowMin(hash, dir, k, table, n) <= table[Slot(hash, dir, k, row)].bytes
    ensures n > 0 ==> exists row :: 0 <= row < n && RowMin(hash, dir, k, table, n) == table[Slot(hash, dir, k, row)].bytes
  {
    if n > 0 {
      RowMinIsLeast(hash, dir, k, table, n - 1);
      var b := table[Slot(hash, dir, k, n - 1)].bytes;
      if n > 1 && RowMin(hash, dir, k, table, n - 1) <= b {
        var row :| 0 <= row < n - 1 && RowMin(hash, dir, k, table, n - 1) == table[Slot(hash, dir, k, row)].bytes;
        assert RowMin(hash, dir, k, table, n) == table[Slot(hash, dir, k, row)].bytes;
      } else {
        assert RowMin(hash, dir, k, table, n) == b;
      }
    }
  }

  /** The first n rows of a packet are done. */
  ghost predicate RowsTouched(hash: Hash, dir: nat, k: FlowKey, t: Touch, before: seq<Cell>, table: seq<Cell>, n: nat) {
    && |table| == |before|
    && forall i :: 0 <= i < |table| ==>
         table[i] == if TouchesRows(hash, dir, k, i, n) then Hit(before[i], t) else before[i]
  }

  lemma {:induction false} RowsTouchedStep(hash: Hash, dir: nat, k: FlowKey, t: Touch, before: seq<Cell>, table: seq<Cell>, n: nat)
    requires n < CMS_DEPTH && dir < DIR_MAX && |table| == DIR_MAX * HALF && RowsTouched(hash, dir, k, t, before, table, n)
    ensures var i := Slot(hash, dir, k, n);
            i < |table| && RowsTouched(hash, dir, k, t, before, table[i := Hit(table[i], t)], n + 1)
  {
    var at := Slot(hash, dir, k, n);
    NotYetTouched(hash, dir, k, n);
    var table' := table[at := Hit(table[at], t)];
    forall i | 0 <= i < |table|
      ensures table'[i] == if TouchesRows(hash, dir, k, i, n + 1) then Hit(before[i], t) else before[i]
    {
      MoreRows(hash, dir, k, i, n);
    }
  }

  function Estimate(hash: Hash, dir: nat, k: FlowKey, table: seq<Cell>): u64
    requires dir < DIR_MAX && (dir + 1) * HALF <= |table|
  {
    RowMin(hash, dir, k, table, CMS_DEPTH)
  }

  // ---------------------------------------------------------------- the two halves are independent

  function Half(dir: nat, table: seq<Cell>): (h: seq<Cell>)
    requires dir < DIR_MAX && |table| == DIR_MAX * HALF
    ensures |h| == HALF
  {
    table[dir * HALF..(dir + 1) * HALF]
  }

  lemma {:induction false} TouchesHalf(hash: Hash, dir: nat, k: FlowKey, d: nat, j: nat)
    requires dir < DIR_MAX && d < DIR_MAX && j < HALF
    ensures Touches(hash, dir, k, d * HALF + j) <==> d == dir && Touches(hash, 0, k, j)
  {
    if d == dir && Touches(hash, 0, k, j) {
      var row :| 0 <= row < CMS_DEPTH && Slot(hash, 0, k, row) == j;
      assert Slot(hash, dir, k, row) == d * HALF + j;
    }
    if Touches(hash, dir, k, d * HALF + j) {
      var row :| 0 <= row < CMS_DEPTH && Slot(hash, dir, k, row) == d * HALF + j;
      assert Slot(hash, 0, k, row) == j;
    }
  }

  /** A packet of one direction updates its half as a stand-alone sketch and leaves the other alone. */
  lemma {:induction false} HalvesIndependent(hash: Hash, dir: nat, k: FlowKey, t: Touch, table: seq<Cell>, d: nat)
    requires dir < DIR_MAX && d < DIR_MAX && |table| == DIR_MAX * HALF
    ensures Half(d, CmsAfter(hash, dir, k, t, table)) ==
            if d == dir then CmsAfter(hash, 0, k, t, Half(d, table)) else Half(d, table)
  {
    forall j | 0 <= j < HALF
      ensures Half(d, CmsAfter(hash, dir, k, t, table))[j] ==
              (if d == dir then CmsAfter(hash, 0, k, t, Half(d, table)) else Half(d, table))[j]
    {
      TouchesHalf(hash, dir, k, d, j);
    }
  }

  lemma {:induction false} EstimateOfHalf(hash: Hash, dir: nat, k: FlowKey, table: seq<Cell>, n: nat)
    requires dir < DIR_MAX && n <= CMS_DEPTH && |table| == DIR_MAX * HALF
    ensures RowMin(hash, dir, k, table, n) == RowMin(hash, 0, k, Half(dir, table), n)
  {
    if n > 0 {
      var m := RowMin(hash, dir, k, table, n - 1);
      assert m == RowMin(hash, 0, k, Half(dir, table), n - 1) by { EstimateOfHalf(hash, dir, k, table, n - 1); }
      SlotOfHalf(hash, dir, k, table, n - 1);
    }
  }

  lemma {:induction false} SlotOfHalf(hash: Hash, dir: nat, k: FlowKey, table: seq<Cell>, row: nat)
    requires dir < DIR_MAX && row < CMS_DEPTH && |table| == DIR_MAX * HALF
    ensures Slot(hash, 0, k, row) < HALF && Slot(hash, dir, k, row) < |table|
    ensures table[Slot(hash, dir, k, row)] == Half(dir, table)[Slot(hash, 0, k, row)]
  {
    assert Slot(hash, dir, k, row) == dir * HALF + Slot(hash, 0, k, row);
  }

  // ---------------------------------------------------------------- runs of a sketch

  datatype Sample = Sample(key: FlowKey, touch: Touch)

  /** A run in one direction, seen as a stand-alone sketch. */
  ghost function SketchRun(hash: Hash, table: seq<Cell>, ps: seq<Sample>): (r: seq<Cell>)
    ensures |r| == |table|
  {
    if ps == [] then table else
      var p := ps[|ps| - 1];
      CmsAfter(hash, 0, p.key, p.touch, SketchRun(hash, table, ps[..|ps| - 1]))
  }

  /** The touches of cell i in a run, marking those of flow k. */
  ghost function HistoryOf(hash: Hash, ps: seq<Sample>, i: nat, k: FlowKey): seq<Tagged> {
    if ps == [] then [] else
      var p, rest := ps[|ps| - 1], HistoryOf(hash, ps[..|ps| - 1], i, k);
      if Touches(hash, 0, p.key, i) then rest + [Tagged(p.key == k, p.touch)] else rest
  }

  /** The touches a private counter of flow k would receive. */
  function TouchesOf(ps: seq<Sample>, k: FlowKey): seq<Touch> {
    if ps == [] then [] else
      var p, rest := ps[|ps| - 1], TouchesOf(ps[..|ps| - 1], k);
      if p.key == k then rest + [p.touch] else rest
  }

  lemma {:induction false} CellIsItsHistory(hash: Hash, table: seq<Cell>, ps: seq<Sample>, i: nat, k: FlowKey)
    requires i < |table|
    ensures SketchRun(hash, table, ps)[i] == Run(table[i], All(HistoryOf(hash, ps, i, k)))
  {
    if ps != [] {
      var front := ps[..|ps| - 1];
      CellIsItsHistory(hash, table, front, i, k);
      if Touches(hash, 0, ps[|ps| - 1].key, i) {
        SnocAll(HistoryOf(hash, ps, i, k));
        assert HistoryOf(hash, ps, i, k)[..|HistoryOf(hash, ps, i, k)| - 1] == HistoryOf(hash, front, i, k);
      }
    }
  }

  lemma {:induction false} OwnHistory(hash: Hash, ps: seq<Sample>, k: FlowKey, row: nat)
    requires row < CMS_DEPTH
    ensures Own(HistoryOf(hash, ps, Slot(hash, 0, k, row), k)) == TouchesOf(ps, k)
  {
    if ps != [] {
      var i, front, p := Slot(hash, 0, k, row), ps[..|ps| - 1], ps[|ps| - 1];
      OwnHistory(hash, front, k, row);
      var h := HistoryOf(hash, ps, i, k);
      if Touches(hash, 0, p.key, i) {
        assert h[..|h| - 1] == HistoryOf(hash, front, i, k);
      }
    }
  }

  ghost predicate NoCellWraps(hash: Hash, ps: seq<Sample>, k: FlowKey) {
    forall row :: 0 <= row < CMS_DEPTH ==> IdealFits(All(HistoryOf(hash, ps, Slot(hash, 0, k, row), k)))
  }

  /** No byte of flow k has aged faster in one of its cells than on the flow's own clock. */
  ghost predicate FairlyAged(hash: Hash, ps: seq<Sample>, k: FlowKey) {
    forall row :: 0 <= row < CMS_DEPTH ==> AgesFairly(HistoryOf(hash, ps, Slot(hash, 0, k, row), k))
  }

  /** The counter the flow would have if it shared none of its cells. */
  function OwnCell(ps: seq<Sample>, k: FlowKey): Cell {
    Run(ZERO_CELL, TouchesOf(ps, k))
  }

  /** The latest clock of the flow's cells over the first n rows. */
  function RowClock(hash: Hash, k: FlowKey, table: seq<Cell>, n: nat): u32
    requires n <= CMS_DEPTH && |table| == HALF
  {
    if n == 0 then 0 else Max(RowClock(hash, k, table, n - 1), table[Slot(hash, 0, k, n - 1)].last)
  }

  lemma {:induction false} RowClockIsLatest(hash: Hash, k: FlowKey, table: seq<Cell>, n: nat)
    requires n <= CMS_DEPTH && |table| == HALF
    ensures forall row :: 0 <= row < n ==> table[Slot(hash, 0, k, row)].last <= RowClock(hash, k, table, n)
    ensures RowClock(hash, k, table, n) > 0 ==>
              exists row :: 0 <= row < n && table[Slot(hash, 0, k, row)].last == RowClock(hash, k, table, n)
  {
    if n > 0 {
      RowClockIsLatest(hash, k, table, n - 1);
    }
  }

  /** Intervals by which decay index idx is behind the latest of the flow's four cells. */
  function Behind(hash: Hash, k: FlowKey, table: seq<Cell>, idx: u32): nat
    requires |table| == HALF
  {
    Gap(idx, RowClock(hash, k, table, CMS_DEPTH))
  }

  function EmptySketch(): seq<Cell> {
    seq(HALF, i => ZERO_CELL)
  }

  /** Within every one of its cells, the flow's bytes aged at most `lag` intervals longer than on its own clock. */
  ghost predicate AgedWithin(hash: Hash, ps: seq<Sample>, k: FlowKey, lag: nat) {
    forall row :: 0 <= row < CMS_DEPTH ==> AgesWithin(HistoryOf(hash, ps, Slot(hash, 0, k, row), k), lag)
  }

  lemma {:induction false} CoversAged(hash: Hash, ps: seq<Sample>, k: FlowKey, lag: nat)
    requires AgedWithin(hash, ps, k, lag) && NoCellWraps(hash, ps, k)
    ensures ShiftRight(OwnCell(ps, k).bytes, lag) <= Estimate(hash, 0, k, SketchRun(hash, EmptySketch(), ps))
  {
    var table := SketchRun(hash, EmptySketch(), ps);
    RowMinIsLeast(hash, 0, k, table, CMS_DEPTH);
    forall row | 0 <= row < CMS_DEPTH
      ensures ShiftRight(OwnCell(ps, k).bytes, lag) <= table[Slot(hash, 0, k, row)].bytes
    {
      var i := Slot(hash, 0, k, row);
      CellIsItsHistory(hash, EmptySketch(), ps, i, k);
      OwnHistory(hash, ps, k, row);
      SharedCoversAged(HistoryOf(hash, ps, i, k), lag);
    }
  }

  /**
   What the estimate guarantees on every run, for any mix of flows, any hash and any order of decay
   indices: it is never below the flow's own lazily decayed byte count, aged by as many intervals as
   the clocks of the flow's cells are ahead of the flow's own. When no byte of the flow aged faster in
   a cell than on the flow's own clock, it is never below that count itself.
   */
  lemma {:induction false} NeverUnderestimates(hash: Hash, ps: seq<Sample>, k: FlowKey)
    requires NoCellWraps(hash, ps, k)
    ensures var table, own := SketchRun(hash, EmptySketch(), ps), OwnCell(ps, k);
            && ShiftRight(own.bytes, Behind(hash, k, table, own.last)) <= Estimate(hash, 0, k, table)
            && (FairlyAged(hash, ps, k) ==> own.bytes <= Estimate(hash, 0, k, table))
  {
    var lag := Behind(hash, k, SketchRun(hash, EmptySketch(), ps), OwnCell(ps, k).last);
    assert AgedWithin(hash, ps, k, lag) by {
      forall row | 0 <= row < CMS_DEPTH ensures AgesWithin(HistoryOf(hash, ps, Slot(hash, 0, k, row), k), lag) {
        CellClocks(hash, ps, k, row);
        RowClockIsLatest(hash, k, SketchRun(hash, EmptySketch(), ps), CMS_DEPTH);
        ClocksBoundAges(HistoryOf(hash, ps, Slot(hash, 0, k, row), k), lag);
      }
    }
    CoversAged(hash, ps, k, lag);
    if FairlyAged(hash, ps, k) {
      CoversAged(hash, ps, k, 0);
    }
  }

  lemma {:induction false} CellClocks(hash: Hash, ps: seq<Sample>, k: FlowKey, row: nat)
    requires row < CMS_DEPTH
    ensures var i := Slot(hash, 0, k, row);
            && i < HALF
            && SketchRun(hash, EmptySketch(), ps)[i].last == Clock(All(HistoryOf(hash, ps, i, k)))
            && OwnCell(ps, k).last == Clock(Own(HistoryOf(hash, ps, i, k)))
  {
    var i := Slot(hash, 0, k, row);
    CellIsItsHistory(hash, EmptySketch(), ps, i, k);
    LastIsClock(All(HistoryOf(hash, ps, i, k)));
    OwnHistory(hash, ps, k, row);
    LastIsClock(TouchesOf(ps, k));
  }

  lemma {:induction false} HistorySnoc(hash: Hash, ps: seq<Sample>, k: FlowKey, row: nat)
    requires ps != [] && ps[|ps| - 1].key == k && row < CMS_DEPTH
    ensures var i := Slot(hash, 0, k, row);
            HistoryOf(hash, ps, i, k) == HistoryOf(hash, ps[..|ps| - 1], i, k) + [Tagged(true, ps[|ps| - 1].touch)]
  {
    assert Touches(hash, 0, k, Slot(hash, 0, k, row));
  }

  /**
   The same for the packet just counted: the estimate is at least the flow's own decayed count, its
   own bytes included, aged by as many intervals as the packet was behind its cells. That lateness
   can be read off the cells before the call; a packet on time costs nothing.
   */
  lemma {:induction false} LatePacketCovered(hash: Hash, ps: seq<Sample>, k: FlowKey)
    requires ps != [] && ps[|ps| - 1].key == k && NoCellWraps(hash, ps, k)
    ensures var before := SketchRun(hash, EmptySketch(), ps[..|ps| - 1]);
            ShiftRight(OwnCell(ps, k).bytes, Behind(hash, k, before, ps[|ps| - 1].touch.idx)) <=
            Estimate(hash, 0, k, SketchRun(hash, EmptySketch(), ps))
  {
    var front, idx := ps[..|ps| - 1], ps[|ps| - 1].touch.idx;
    var before := SketchRun(hash, EmptySketch(), front);
    var late := Behind(hash, k, before, idx);
    assert AgedWithin(hash, ps, k, late) by {
      forall row | 0 <= row < CMS_DEPTH ensures AgesWithin(HistoryOf(hash, ps, Slot(hash, 0, k, row), k), late) {
        var h := HistoryOf(hash, ps, Slot(hash, 0, k, row), k);
        HistorySnoc(hash, ps, k, row);
        assert h[..|h| - 1] == HistoryOf(hash, front, Slot(hash, 0, k, row), k);
        CellClocks(hash, front, k, row);
        RowClockIsLatest(hash, k, before, CMS_DEPTH);
        LateTouchLag(h);
        ClocksBoundAges(h, late);
      }
    }
    CoversAged(hash, ps, k, late);
  }

  /** The check a caller can make before the call: the packet's index is not behind any of its cells. */
  lemma {:induction false} OnTimePacketFairlyAged(hash: Hash, ps: seq<Sample>, k: FlowKey)
    requires ps != [] && ps[|ps| - 1].key == k
    requires forall row :: 0 <= row < CMS_DEPTH ==>
               SketchRun(hash, EmptySketch(), ps[..|ps| - 1])[Slot(hash, 0, k, row)].last <= ps[|ps| - 1].touch.idx
    ensures FairlyAged(hash, ps, k)
  {
    var front := ps[..|ps| - 1];
    forall row | 0 <= row < CMS_DEPTH ensures AgesFairly(HistoryOf(hash, ps, Slot(hash, 0, k, row), k)) {
      var i := Slot(hash, 0, k, row);
      CellIsItsHistory(hash, EmptySketch(), front, i, k);
      assert Touches(hash, 0, k, i);
      var h := HistoryOf(hash, ps, i, k);
      assert h[..|h| - 1] == HistoryOf(hash, front, i, k);
      OnTimeAgesFairly(h);
    }
  }

  function BytesSent(ps: seq<Sample>): nat {
    if ps == [] then 0 else BytesSent(ps[..|ps| - 1]) + ps[|ps| - 1].touch.bytes
  }

  lemma {:induction false} HistoryBytes(hash: Hash, ps: seq<Sample>, i: nat, k: FlowKey)
    ensures Bytes(All(HistoryOf(hash, ps, i, k))) <= BytesSent(ps)
  {
    if ps != [] {
      HistoryBytes(hash, ps[..|ps| - 1], i, k);
      if Touches(hash, 0, ps[|ps| - 1].key, i) {
        var h := HistoryOf(hash, ps, i, k);
        SnocAll(h);
        assert h[..|h| - 1] == HistoryOf(hash, ps[..|ps| - 1], i, k);
      }
    }
  }

  /** Below 2^64 bytes of traffic no cell wraps. */
  lemma {:induction false} SmallRunNeverWraps(hash: Hash, ps: seq<Sample>, k: FlowKey)
    requires BytesSent(ps) < TWO64
    ensures NoCellWraps(hash, ps, k)
  {
    forall row | 0 <= row < CMS_DEPTH
      ensures IdealFits(All(HistoryOf(hash, ps, Slot(hash, 0, k, row), k)))
    {
      HistoryBytes(hash, ps, Slot(hash, 0, k, row), k);
      SmallTrafficFits(All(HistoryOf(hash, ps, Slot(hash, 0, k, row), k)));
    }
  }
}
