/**
 Exactly when the sketch can be trusted: for runs of packets as the program can receive them, with the
 keys its dissector returns, no packet shorter than its headers, and decay indices a 64-bit clock gives.
 */
module Trust {
  import opened Words
  import opened Decay
  import opened Flow
  import opened SharedCell
  import opened Sketch

  /** Decay indices of 64-bit nanosecond clocks stay below this. */
  const IDX_LIMIT: nat := 0x1000_0000

  ghost predicate Receivable(x: Sample) {
    IsFlow(x.key) && HeaderLen(x.key) <= x.touch.bytes < TWO32 && x.touch.idx < IDX_LIMIT
  }

  ghost predicate RealRun(ps: seq<Sample>) {
    forall i :: 0 <= i < |ps| ==> Receivable(ps[i])
  }

  /** No counter wraps: neither the flow's cells nor the private counter it is compared with. */
  ghost predicate NothingWraps(hash: Hash, ps: seq<Sample>, k: FlowKey) {
    NoCellWraps(hash, ps, k) && IdealFits(TouchesOf(ps, k))
  }

  ghost function EstimateAfter(hash: Hash, ps: seq<Sample>, k: FlowKey): u64 {
    Estimate(hash, 0, k, SketchRun(hash, EmptySketch(), ps))
  }

  /** Flow k' shares the flow's cell of that row. */
  ghost predicate Shares(hash: Hash, k: FlowKey, k': FlowKey, row: nat) {
    IsFlow(k') && k' != k && row < CMS_DEPTH && Slot(hash, 0, k', row) == Slot(hash, 0, k, row)
  }

  /** Some other flow shares a cell with flow k. */
  ghost predicate Collides(hash: Hash, k: FlowKey) {
    exists k', row :: Shares(hash, k, k', row)
  }

  /** The run ends with a packet of flow k at index i, counted by cells whose latest clock was c. */
  ghost predicate EndsWith(hash: Hash, ps: seq<Sample>, k: FlowKey, c: u32, i: u32) {
    && ps != [] && ps[|ps| - 1].key == k && ps[|ps| - 1].touch.idx == i
    && RowClock(hash, k, SketchRun(hash, EmptySketch(), ps[..|ps| - 1]), CMS_DEPTH) == c
  }

  // ---------------------------------------------------------------- runs, one packet at a time

  /** The flow's cell of a row after a run. */
  ghost function CellAfter(hash: Hash, ps: seq<Sample>, k: FlowKey, row: nat): Cell
    requires row < CMS_DEPTH
  {
    NotYetTouched(hash, 0, k, row);
    assert Slot(hash, 0, k, row) < HALF;
    SketchRun(hash, EmptySketch(), ps)[Slot(hash, 0, k, row)]
  }

  ghost predicate HitsRow(hash: Hash, k: FlowKey, q: FlowKey, row: nat) {
    Slot(hash, 0, q, row) == Slot(hash, 0, k, row)
  }

  lemma {:induction false} TouchesOwnRowOnly(hash: Hash, k: FlowKey, q: FlowKey, row: nat)
    requires row < CMS_DEPTH
    ensures Touches(hash, 0, q, Slot(hash, 0, k, row)) <==> HitsRow(hash, k, q, row)
  {
    if Touches(hash, 0, q, Slot(hash, 0, k, row)) {
      var r :| 0 <= r < CMS_DEPTH && Slot(hash, 0, q, r) == Slot(hash, 0, k, row);
      IndexInjective(0, r, hash(q, r) % CMS_WIDTH, 0, row, hash(k, row) % CMS_WIDTH);
    }
  }

  lemma {:induction false} CellSnoc(hash: Hash, ps: seq<Sample>, x: Sample, k: FlowKey, row: nat)
    requires row < CMS_DEPTH
    ensures CellAfter(hash, ps + [x], k, row) ==
            if HitsRow(hash, k, x.key, row) then Hit(CellAfter(hash, ps, k, row), x.touch) else CellAfter(hash, ps, k, row)
  {
    assert (ps + [x])[..|ps|] == ps;
    TouchesOwnRowOnly(hash, k, x.key, row);
  }

  lemma {:induction false} OwnSnoc(ps: seq<Sample>, x: Sample, k: FlowKey)
    ensures OwnCell(ps + [x], k) == if x.key == k then Hit(OwnCell(ps, k), x.touch) else OwnCell(ps, k)
    ensures BytesSent(ps + [x]) == BytesSent(ps) + x.touch.bytes
  {
    assert (ps + [x])[..|ps|] == ps;
    if x.key == k {
      assert TouchesOf(ps + [x], k) == TouchesOf(ps, k) + [x.touch];
      RunCat(ZERO_CELL, TouchesOf(ps, k), [x.touch]);
      RunOne(OwnCell(ps, k), x.touch);
    }
  }

  lemma {:induction false} SmallRunFits(hash: Hash, ps: seq<Sample>, k: FlowKey)
    requires BytesSent(ps) < TWO64
    ensures NothingWraps(hash, ps, k)
  {
    SmallRunNeverWraps(hash, ps, k);
    OwnBytesSent(ps, k);
    SmallTrafficFits(TouchesOf(ps, k));
  }

  lemma {:induction false} OwnBytesSent(ps: seq<Sample>, k: FlowKey)
    ensures Bytes(TouchesOf(ps, k)) <= BytesSent(ps)
  {
    if ps != [] {
      var front, ts := ps[..|ps| - 1], TouchesOf(ps, k);
      OwnBytesSent(front, k);
      if ps[|ps| - 1].key == k {
        assert ts[..|ts| - 1] == TouchesOf(front, k);
      }
    }
  }

  // ---------------------------------------------------------------- a run with a late packet

  /** x bytes of the flow in one interval, as packets of less than 2000 bytes. */
  function Burst(k: FlowKey, j: u32, x: nat): seq<Sample> {
    if x < 2000 then [Sample(k, Touch(j, x))] else Burst(k, j, x - 1000) + [Sample(k, Touch(j, 1000))]
  }

  /** After a burst of one flow, the flow's own counter and each of its cells. */
  ghost predicate Holds(hash: Hash, ps: seq<Sample>, k: FlowKey, x: nat, j: u32) {
    && x < TWO64 && RealRun(ps) && BytesSent(ps) == x && OwnCell(ps, k) == Cell(x, j)
    && forall row :: 0 <= row < CMS_DEPTH ==> CellAfter(hash, ps, k, row) == Cell(x, j)
  }

  lemma {:induction false} BurstHolds(hash: Hash, k: FlowKey, j: u32, x: nat)
    requires IsFlow(k) && HeaderLen(k) <= x < TWO64 && j < IDX_LIMIT
    ensures Holds(hash, Burst(k, j, x), k, x, j)
  {
    if x < 2000 {
      FirstPacket(hash, Sample(k, Touch(j, x)));
    } else {
      var front, t := Burst(k, j, x - 1000), Touch(j, 1000);
      BurstHolds(hash, k, j, x - 1000);
      OwnSnoc(front, Sample(k, t), k);
      forall row | 0 <= row < CMS_DEPTH ensures CellAfter(hash, front + [Sample(k, t)], k, row) == Cell(x, j) {
        CellSnoc(hash, front, Sample(k, t), k, row);
      }
    }
  }

  lemma {:induction false} NothingSent(hash: Hash, k: FlowKey, row: nat)
    requires row < CMS_DEPTH
    ensures OwnCell([], k) == ZERO_CELL && CellAfter(hash, [], k, row) == ZERO_CELL && BytesSent([]) == 0
  {
  }

  lemma {:induction false} FirstCells(hash: Hash, x: Sample, row: nat)
    requires row < CMS_DEPTH
    ensures OwnCell([x], x.key) == CellAfter(hash, [x], x.key, row) == Cell(x.touch.bytes, x.touch.idx)
    ensures BytesSent([x]) == x.touch.bytes
  {
    assert [] + [x] == [x];
    NothingSent(hash, x.key, row);
    FirstTouch(x.touch);
    OwnSnoc([], x, x.key);
    CellSnoc(hash, [], x, x.key, row);
  }

  lemma {:induction false} FirstPacket(hash: Hash, x: Sample)
    requires Receivable(x)
    ensures Holds(hash, [x], x.key, x.touch.bytes, x.touch.idx)
  {
    FirstCells(hash, x, 0);
    forall row | 0 <= row < CMS_DEPTH ensures CellAfter(hash, [x], x.key, row) == Cell(x.touch.bytes, x.touch.idx) {
      FirstCells(hash, x, row);
    }
  }

  /** The cells of flow k once the other flow has moved the clock of one of them. */
  lemma {:induction false} ClockMoved(hash: Hash, ps: seq<Sample>, k: FlowKey, k': FlowKey, row: nat, x: nat, j: u32, t: Touch)
    requires Holds(hash, ps, k, x, j) && Shares(hash, k, k', row) && j < t.idx && x + t.bytes < TWO64
    ensures var front := ps + [Sample(k', t)];
            && CellAfter(hash, front, k, row) == Cell(ShiftRight(x, t.idx - j) + t.bytes, t.idx)
            && RowClock(hash, k, SketchRun(hash, EmptySketch(), front), CMS_DEPTH) == t.idx
  {
    var front := ps + [Sample(k', t)];
    var table := SketchRun(hash, EmptySketch(), front);
    forall r | 0 <= r < CMS_DEPTH
      ensures table[Slot(hash, 0, k, r)].last <= t.idx
      ensures r == row ==> CellAfter(hash, front, k, r) == Cell(ShiftRight(x, t.idx - j) + t.bytes, t.idx)
    {
      CellSnoc(hash, ps, Sample(k', t), k, r);
      assert table[Slot(hash, 0, k, r)] == CellAfter(hash, front, k, r);
    }
    RowClockIsLatest(hash, k, table, CMS_DEPTH);
    assert table[Slot(hash, 0, k, row)] == CellAfter(hash, front, k, row);
  }

  lemma {:induction false} RealSnoc(ps: seq<Sample>, x: Sample)
    ensures RealRun(ps + [x]) <==> RealRun(ps) && Receivable(x)
  {
    if RealRun(ps + [x]) {
      forall i | 0 <= i < |ps| ensures Receivable(ps[i]) {
        assert (ps + [x])[i] == ps[i];
      }
      assert (ps + [x])[|ps|] == x;
    }
  }

  /** The late packet itself: its flow's counters before and after. */
  lemma {:induction false} LateTouch(hash: Hash, front: seq<Sample>, k: FlowKey, row: nat, x: nat, j: u32, cell: Cell, t: Touch)
    requires row < CMS_DEPTH && x < TWO64
    requires OwnCell(front, k) == Cell(x, j) && CellAfter(hash, front, k, row) == cell
    requires j <= t.idx < cell.last && cell.bytes + t.bytes < TWO64 && x + t.bytes < TWO64
    ensures var ps := front + [Sample(k, t)];
            && EstimateAfter(hash, ps, k) <= cell.bytes + t.bytes
            && OwnCell(ps, k).bytes == ShiftRight(x, t.idx - j) + t.bytes
  {
    CellSnoc(hash, front, Sample(k, t), k, row);
    OwnSnoc(front, Sample(k, t), k);
    EstimateBelowRow(hash, front + [Sample(k, t)], k, row);
  }

  /** The run up to the late packet: k sends x bytes at j, k' sends z bytes at c. */
  lemma {:induction false} BeforeLate(hash: Hash, k: FlowKey, k': FlowKey, row: nat, j: u32, c: u32, x: nat, z: u32)
    returns (front: seq<Sample>)
    requires IsFlow(k) && Shares(hash, k, k', row) && j < c < IDX_LIMIT
    requires HeaderLen(k) <= x && HeaderLen(k') <= z && x + z < TWO64
    ensures RealRun(front) && BytesSent(front) == x + z && OwnCell(front, k) == Cell(x, j)
    ensures CellAfter(hash, front, k, row) == Cell(ShiftRight(x, c - j) + z, c)
    ensures RowClock(hash, k, SketchRun(hash, EmptySketch(), front), CMS_DEPTH) == c
  {
    var burst, other := Burst(k, j, x), Sample(k', Touch(c, z));
    BurstHolds(hash, k, j, x);
    RealSnoc(burst, other);
    OwnSnoc(burst, other, k);
    ClockMoved(hash, burst, k, k', row, x, j, other.touch);
    front := burst + [other];
  }

  lemma {:induction false} EndsSnoc(hash: Hash, front: seq<Sample>, k: FlowKey, c: u32, t: Touch)
    requires RowClock(hash, k, SketchRun(hash, EmptySketch(), front), CMS_DEPTH) == c
    ensures EndsWith(hash, front + [Sample(k, t)], k, c, t.idx)
  {
    var ps := front + [Sample(k, t)];
    assert ps[..|ps| - 1] == front && ps[|ps| - 1] == Sample(k, t);
  }

  lemma {:induction false} LateIsReal(hash: Hash, front: seq<Sample>, k: FlowKey, c: u32, t: Touch)
    requires RealRun(front) && Receivable(Sample(k, t)) && BytesSent(front) + t.bytes < TWO64
    requires RowClock(hash, k, SketchRun(hash, EmptySketch(), front), CMS_DEPTH) == c
    ensures var ps := front + [Sample(k, t)];
            RealRun(ps) && NothingWraps(hash, ps, k) && EndsWith(hash, ps, k, c, t.idx)
  {
    var late := Sample(k, t);
    RealSnoc(front, late);
    OwnSnoc(front, late, k);
    SmallRunFits(hash, front + [late], k);
    EndsSnoc(hash, front, k, c, t);
  }

  /**
   A late packet can be estimated too low. For any two flows that share a cell there is a real run of x bytes
   of the first in interval j, one packet of the other with z bytes in c, and a packet of the first with y
   bytes stamped i: in the cell the x bytes fade by c - j intervals, while the flow's own counter, whose
   clock only reaches i, lets them fade by i - j.
   */
  lemma {:induction false} LateRunUnderestimates(hash: Hash, k: FlowKey, k': FlowKey, row: nat, j: u32, c: u32, i: u32,
                                                 x: nat, z: u32, y: u32) returns (ps: seq<Sample>)
    requires IsFlow(k) && Shares(hash, k, k', row) && j <= i < c < IDX_LIMIT
    requires HeaderLen(k) <= x && HeaderLen(k') <= z && HeaderLen(k) <= y && x + z + y < TWO64
    ensures RealRun(ps) && NothingWraps(hash, ps, k) && EndsWith(hash, ps, k, c, i)
    ensures EstimateAfter(hash, ps, k) <= ShiftRight(x, c - j) + z + y
    ensures OwnCell(ps, k).bytes == ShiftRight(x, i - j) + y
    ensures BytesSent(ps) == x + z + y
  {
    var t := Touch(i, y);
    var front := BeforeLate(hash, k, k', row, j, c, x, z);
    LateIsReal(hash, front, k, c, t);
    LateTouch(hash, front, k, row, x, j, CellAfter(hash, front, k, row), t);
    OwnSnoc(front, Sample(k, t), k);
    ps := front + [Sample(k, t)];
  }

  lemma {:induction false} EstimateBelowRow(hash: Hash, ps: seq<Sample>, k: FlowKey, row: nat)
    requires row < CMS_DEPTH
    ensures EstimateAfter(hash, ps, k) <= CellAfter(hash, ps, k, row).bytes
  {
    RowMinIsLeast(hash, 0, k, SketchRun(hash, EmptySketch(), ps), CMS_DEPTH);
  }

  // ---------------------------------------------------------------- flows that share no cell

  lemma {:induction false} AllOwn(hash: Hash, ps: seq<Sample>, k: FlowKey, row: nat)
    requires !Collides(hash, k) && row < CMS_DEPTH && RealRun(ps)
    ensures var h := HistoryOf(hash, ps, Slot(hash, 0, k, row), k); Own(h) == All(h)
  {
    var at := Slot(hash, 0, k, row);
    var h := HistoryOf(hash, ps, at, k);
    if ps != [] {
      var front, p := ps[..|ps| - 1], ps[|ps| - 1];
      AllOwn(hash, front, k, row);
      TouchesOwnRowOnly(hash, k, p.key, row);
      if Touches(hash, 0, p.key, at) {
        assert Receivable(p);
        assert p.key == k by { assert !Shares(hash, k, p.key, row); }
        assert h[..|h| - 1] == HistoryOf(hash, front, at, k);
        SnocAll(h);
      }
    }
  }

  /** A flow that shares no cell is counted alone. */
  lemma {:induction false} AloneAgesFairly(hash: Hash, ps: seq<Sample>, k: FlowKey)
    requires !Collides(hash, k) && RealRun(ps)
    ensures FairlyAged(hash, ps, k)
  {
    forall row | 0 <= row < CMS_DEPTH ensures AgesFairly(HistoryOf(hash, ps, Slot(hash, 0, k, row), k)) {
      var h := HistoryOf(hash, ps, Slot(hash, 0, k, row), k);
      AllOwn(hash, ps, k, row);
      ClocksBoundAges(h, 0);
    }
  }

  // ---------------------------------------------------------------- the estimate against the flow's own count

  ghost predicate Trusted(hash: Hash, k: FlowKey, c: u32, i: u32) {
    forall ps :: RealRun(ps) && EndsWith(hash, ps, k, c, i) && NothingWraps(hash, ps, k) ==>
      OwnCell(ps, k).bytes <= EstimateAfter(hash, ps, k)
  }

  lemma {:induction false} OnTimeOrAlone(hash: Hash, ps: seq<Sample>, k: FlowKey, c: u32, i: u32)
    requires RealRun(ps) && EndsWith(hash, ps, k, c, i) && NoCellWraps(hash, ps, k)
    requires c <= i || !Collides(hash, k)
    ensures OwnCell(ps, k).bytes <= EstimateAfter(hash, ps, k)
  {
    if c <= i {
      LatePacketCovered(hash, ps, k);
    } else {
      AloneAgesFairly(hash, ps, k);
      NeverUnderestimates(hash, ps, k);
    }
  }

  /**
   Exactly when an estimate can be trusted, by what can be checked before the call: over all real runs
   that bring the flow's cells to clock c, a packet at index i gets an estimate no lower than the flow's
   own decayed count if and only if it is not behind its cells, or no other flow shares a cell.
   */
  lemma {:induction false} TrustedExactlyWhenOnTime(hash: Hash, k: FlowKey, c: u32, i: u32)
    requires IsFlow(k) && c < IDX_LIMIT
    ensures Trusted(hash, k, c, i) <==> c <= i || !Collides(hash, k)
  {
    if c <= i || !Collides(hash, k) {
      forall ps | RealRun(ps) && EndsWith(hash, ps, k, c, i) && NothingWraps(hash, ps, k)
        ensures OwnCell(ps, k).bytes <= EstimateAfter(hash, ps, k)
      {
        OnTimeOrAlone(hash, ps, k, c, i);
      }
    } else {
      var k', row :| Shares(hash, k, k', row);
      var _ := LateRunUnderestimates(hash, k, k', row, i, c, i, LONG, HeaderLen(k'), HeaderLen(k));
      AtMostHalf(LONG, c - i);
    }
  }

  // ---------------------------------------------------------------- the estimate against a threshold

  /** Twice the longest headers, and two bytes: half of it still outweighs any headers. */
  const LONG: nat := 110

  /**
   o bytes of the flow can be hidden from a threshold by one packet of the other flow: what is left of
   them in the cell, the other's headers and the late packet's own headers do not reach it, and the other's
   headers do not make up for the loss. At index 0 the o bytes are at least one whole packet.
   */
  predicate Hides(o: nat, mine: nat, other: nat, late: nat, atStart: bool, hh: nat) {
    && (atStart ==> mine <= o)
    && ShiftRight(o, late) + other < o
    && ShiftRight(o, late) + other + mine <= hh
  }

  /** Whether a packet late by so many intervals can be missed, from header lengths and threshold alone. */
  predicate CanHide(mine: nat, other: nat, late: nat, atStart: bool, hh: nat) {
    exists o: nat :: o <= LONG && Hides(o, mine, other, late, atStart, hh)
  }

  /** Some flow sharing a cell can hide bytes of flow k. */
  ghost predicate Hidden(hash: Hash, k: FlowKey, c: u32, i: u32, hh: nat) {
    exists k', row :: Shares(hash, k, k', row) && i < c && CanHide(HeaderLen(k), HeaderLen(k'), c - i, i == 0, hh)
  }

  /** Every packet of flow k at index i, counted by cells at clock c, gets an estimate above the threshold when its flow is. */
  ghost predicate AboveWhenDue(hash: Hash, k: FlowKey, c: u32, i: u32, hh: nat) {
    forall ps :: Due(hash, ps, k, c, i, hh) ==> EstimateAfter(hash, ps, k) > hh
  }

  ghost predicate Due(hash: Hash, ps: seq<Sample>, k: FlowKey, c: u32, i: u32, hh: nat) {
    RealRun(ps) && EndsWith(hash, ps, k, c, i) && NothingWraps(hash, ps, k) && OwnCell(ps, k).bytes > hh
  }

  /** Hiding any number of bytes is no easier than hiding a few. */
  lemma {:induction false} FewAreEnough(o: nat, mine: nat, other: nat, late: nat, atStart: bool, hh: nat)
    requires Hides(o, mine, other, late, atStart, hh) && 0 < late && mine <= 54 && other <= 54
    ensures CanHide(mine, other, late, atStart, hh)
  {
    if o > LONG {
      AtMostHalf(LONG, late);
      ShiftRightMonotone(LONG, o, late);
      assert Hides(LONG, mine, other, late, atStart, hh);
    }
  }

  lemma {:induction false} LateRunMissed(hash: Hash, k: FlowKey, k': FlowKey, row: nat, j: u32, c: u32, i: u32,
                                         x: nat, z: u32, y: u32, hh: nat) returns (ps: seq<Sample>)
    requires IsFlow(k) && Shares(hash, k, k', row) && j <= i < c < IDX_LIMIT
    requires HeaderLen(k) <= x && HeaderLen(k') <= z && HeaderLen(k) <= y && x + z + y < TWO64
    requires ShiftRight(x, c - j) + z + y <= hh < ShiftRight(x, i - j) + y
    ensures Due(hash, ps, k, c, i, hh) && EstimateAfter(hash, ps, k) <= hh
  {
    ps := LateRunUnderestimates(hash, k, k', row, j, c, i, x, z, y);
  }

  /** How to hide o bytes: sent at once, or as twice as many one interval earlier; the late packet fills up. */
  lemma {:induction false} HidingSizes(o: nat, mine: nat, other: nat, c: nat, i: nat, hh: nat) returns (j: nat, x: nat, y: nat)
    requires i < c && hh < TWO64 / 2 && o <= LONG && 34 <= mine <= 54 && 34 <= other <= 54
    requires Hides(o, mine, other, c - i, i == 0, hh)
    ensures j <= i && mine <= x && mine <= y < TWO32 && x + other + y < TWO64
    ensures ShiftRight(x, c - j) + other + y <= hh < ShiftRight(x, i - j) + y
  {
    if hh >= TWO32 {
      j, x, y := i, hh, mine;
      AtMostHalf(hh, c - i);
    } else {
      y := hh - other - ShiftRight(o, c - i);
      if mine <= o {
        j, x := i, o;
      } else {
        j, x := i - 1, 2 * o;
        ShiftRightTwice(x, 1, c - i);
        assert ShiftRight(x, 1) == o;
      }
    }
  }

  /** The run that hides o bytes. */
  lemma {:induction false} HidingRun(hash: Hash, k: FlowKey, k': FlowKey, row: nat, c: u32, i: u32, hh: nat, o: nat)
    returns (ps: seq<Sample>)
    requires IsFlow(k) && Shares(hash, k, k', row) && i < c < IDX_LIMIT && hh < TWO64 / 2
    requires o <= LONG && Hides(o, HeaderLen(k), HeaderLen(k'), c - i, i == 0, hh)
    ensures Due(hash, ps, k, c, i, hh) && EstimateAfter(hash, ps, k) <= hh
  {
    var j, x, y := HidingSizes(o, HeaderLen(k), HeaderLen(k'), c, i, hh);
    ps := LateRunMissed(hash, k, k', row, j, c, i, x, HeaderLen(k'), y, hh);
  }

  // ---------------------------------------------------------------- nothing else hides

  /** The private counter, aged to the cell's clock, and l more bytes are in the cell. */
  ghost predicate Covers(own: Cell, cell: Cell, l: nat) {
    own.last <= cell.last && ShiftRight(own.bytes, cell.last - own.last) + l <= cell.bytes
  }

  lemma {:induction false} ShiftedSum(x: nat, b: nat, e: nat)
    ensures ShiftRight(x + b, e) <= ShiftRight(x, e) + b
  {
    ShiftRightPlus(x, b, e);
    assert b <= ShiftLeft(b, e);
    ShiftRightMonotone(x + b, x + ShiftLeft(b, e), e);
  }

  /** A touch of the flow: a late one keeps what the cell holds besides, and none breaks the cover. */
  lemma {:induction false} OwnTouchCovers(own: Cell, cell: Cell, t: Touch, l: nat)
    requires Covers(own, cell, l) && Fits(cell, t)
    ensures Covers(Hit(own, t), Hit(cell, t), if t.idx < cell.last then l else 0)
  {
    var gap, e := cell.last - own.last, Gap(own.last, t.idx);
    if t.idx < cell.last {
      ShiftRightTwice(own.bytes, e, gap - e);
      ShiftedSum(ShiftRight(own.bytes, e), t.bytes, gap - e);
      ShiftRightMonotone(Hit(own, t).bytes, ShiftRight(own.bytes, e) + t.bytes, gap - e);
    } else {
      ShiftRightTwice(own.bytes, gap, e - gap);
      ShiftRightMonotone(ShiftRight(own.bytes, gap), cell.bytes, e - gap);
    }
  }

  /** A touch of another flow that moves the clock leaves its own bytes in the cell besides. */
  lemma {:induction false} OtherTouchCovers(own: Cell, cell: Cell, t: Touch, l: nat)
    requires Covers(own, cell, l) && Fits(cell, t)
    ensures Covers(own, Hit(cell, t), if t.idx > cell.last then t.bytes else l)
  {
    var gap, e := cell.last - own.last, Gap(cell.last, t.idx);
    ShiftRightTwice(own.bytes, gap, e);
    ShiftRightMonotone(ShiftRight(own.bytes, gap), cell.bytes, e);
  }

  /** When a cell's clock is ahead of the flow's, another flow's headers are in the cell besides. */
  ghost predicate Foreign(hash: Hash, k: FlowKey, row: nat, own: Cell, cell: Cell) {
    && Covers(own, cell, 0)
    && (cell.last > own.last ==> exists k' :: Shares(hash, k, k', row) && Covers(own, cell, HeaderLen(k')))
  }

  lemma {:induction false} FitsAtEnd(ts: seq<Touch>)
    requires ts != [] && IdealFits(ts)
    ensures IdealFits(ts[..|ts| - 1]) && Fits(Run(ZERO_CELL, ts[..|ts| - 1]), ts[|ts| - 1])
  {
    var front := ts[..|ts| - 1];
    forall n | 0 <= n <= |front| ensures Ideal(front[..n]) < TWO64 {
      assert front[..n] == ts[..n];
    }
    ExactWhenFits(front);
    LastIsClock(front);
    IdealStep(ts);
    assert ts[..|ts|] == ts;
  }

  /** Without wrap-around the last touch of a cell fits, and so did those before. */
  lemma {:induction false} CellFits(hash: Hash, ps: seq<Sample>, x: Sample, k: FlowKey, row: nat)
    requires row < CMS_DEPTH && IdealFits(All(HistoryOf(hash, ps + [x], Slot(hash, 0, k, row), k)))
    ensures IdealFits(All(HistoryOf(hash, ps, Slot(hash, 0, k, row), k)))
    ensures HitsRow(hash, k, x.key, row) ==> Fits(CellAfter(hash, ps, k, row), x.touch)
  {
    var at := Slot(hash, 0, k, row);
    var h := HistoryOf(hash, ps + [x], at, k);
    assert (ps + [x])[..|ps|] == ps;
    TouchesOwnRowOnly(hash, k, x.key, row);
    if HitsRow(hash, k, x.key, row) {
      assert h[..|h| - 1] == HistoryOf(hash, ps, at, k);
      SnocAll(h);
      FitsAtEnd(All(h));
      CellIsItsHistory(hash, EmptySketch(), ps, at, k);
    }
  }

  lemma {:induction false} ForeignStep(hash: Hash, k: FlowKey, row: nat, own: Cell, cell: Cell, x: Sample)
    requires row < CMS_DEPTH && Foreign(hash, k, row, own, cell) && Receivable(x)
    requires HitsRow(hash, k, x.key, row) && Fits(cell, x.touch)
    ensures Foreign(hash, k, row, if x.key == k then Hit(own, x.touch) else own, Hit(cell, x.touch))
  {
    var t := x.touch;
    if x.key == k {
      OwnTouchCovers(own, cell, t, 0);
      if t.idx < cell.last && own.last < cell.last {
        var k' :| Shares(hash, k, k', row) && Covers(own, cell, HeaderLen(k'));
        OwnTouchCovers(own, cell, t, HeaderLen(k'));
      }
    } else {
      OtherTouchCovers(own, cell, t, 0);
      if t.idx > cell.last {
        assert Shares(hash, k, x.key, row);
        assert Covers(own, Hit(cell, t), HeaderLen(x.key));
      } else if cell.last > own.last {
        var k' :| Shares(hash, k, k', row) && Covers(own, cell, HeaderLen(k'));
        OtherTouchCovers(own, cell, t, HeaderLen(k'));
      }
    }
  }

  lemma {:induction false} ForeignRun(hash: Hash, ps: seq<Sample>, k: FlowKey, row: nat)
    requires row < CMS_DEPTH && RealRun(ps) && IdealFits(All(HistoryOf(hash, ps, Slot(hash, 0, k, row), k)))
    ensures Foreign(hash, k, row, OwnCell(ps, k), CellAfter(hash, ps, k, row))
  {
    if ps == [] {
      assert OwnCell(ps, k) == ZERO_CELL && CellAfter(hash, ps, k, row) == ZERO_CELL;
    } else {
      var front, x := ps[..|ps| - 1], ps[|ps| - 1];
      assert ps == front + [x];
      CellFits(hash, front, x, k, row);
      ForeignRun(hash, front, k, row);
      CellSnoc(hash, front, x, k, row);
      OwnSnoc(front, x, k);
      if HitsRow(hash, k, x.key, row) {
        ForeignStep(hash, k, row, OwnCell(front, k), CellAfter(hash, front, k, row), x);
      }
    }
  }

  /** A private counter that is not empty holds at least its flow's last packet. */
  lemma {:induction false} OwnHoldsPacket(ps: seq<Sample>, k: FlowKey)
    requires RealRun(ps) && IdealFits(TouchesOf(ps, k)) && OwnCell(ps, k).bytes > 0
    ensures HeaderLen(k) <= OwnCell(ps, k).bytes
  {
    if ps != [] {
      var front, x, ts := ps[..|ps| - 1], ps[|ps| - 1], TouchesOf(ps, k);
      if x.key == k {
        assert Receivable(x);
        assert ts[..|ts| - 1] == TouchesOf(front, k) && ts[|ts| - 1] == x.touch;
        FitsAtEnd(ts);
      } else {
        OwnHoldsPacket(front, k);
      }
    }
  }

  /** What the last packet of a missed run shows: numbers only. */
  lemma {:induction false} MissedShows(own: Cell, cell: Cell, t: Touch, c: u32, mine: nat, other: nat, hh: nat)
    requires Covers(own, cell, other) && Fits(cell, t) && mine <= t.bytes
    requires Max(own.last, t.idx) < cell.last <= c
    requires Hit(cell, t).bytes <= hh < Hit(own, t).bytes
    requires own.bytes > 0 ==> mine <= own.bytes
    ensures Hides(ShiftRight(own.bytes, Gap(own.last, t.idx)), mine, other, c - t.idx, t.idx == 0, hh)
  {
    var e, gap := Gap(own.last, t.idx), cell.last - own.last;
    var o := ShiftRight(own.bytes, e);
    ShiftRightTwice(own.bytes, e, gap - e);
    ShiftRightTwice(o, gap - e, c - t.idx - (gap - e));
  }

  /** A cell that reports less than the private counter is ahead of it, before and after the last packet. */
  lemma {:induction false} MissedIsAhead(own: Cell, cell: Cell, t: Touch)
    requires Covers(own, cell, 0) && Fits(cell, t)
    requires Hit(cell, t).bytes < Hit(own, t).bytes
    ensures Max(own.last, t.idx) < cell.last
  {
    OwnTouchCovers(own, cell, t, 0);
  }

  lemma {:induction false} MissedInRow(hash: Hash, k: FlowKey, row: nat, own: Cell, cell: Cell, t: Touch, c: u32, hh: nat)
    requires Foreign(hash, k, row, own, cell) && Fits(cell, t) && cell.last <= c && HeaderLen(k) <= t.bytes
    requires Hit(cell, t).bytes <= hh < Hit(own, t).bytes
    requires own.bytes > 0 ==> HeaderLen(k) <= own.bytes
    ensures Hidden(hash, k, c, t.idx, hh)
  {
    MissedIsAhead(own, cell, t);
    var k' :| Shares(hash, k, k', row) && Covers(own, cell, HeaderLen(k'));
    MissedShows(own, cell, t, c, HeaderLen(k), HeaderLen(k'), hh);
    FewAreEnough(ShiftRight(own.bytes, Gap(own.last, t.idx)), HeaderLen(k), HeaderLen(k'), c - t.idx, t.idx == 0, hh);
  }

  lemma {:induction false} MissedHides(hash: Hash, ps: seq<Sample>, k: FlowKey, c: u32, i: u32, hh: nat)
    requires Due(hash, ps, k, c, i, hh) && EstimateAfter(hash, ps, k) <= hh
    ensures Hidden(hash, k, c, i, hh)
  {
    var front, x := ps[..|ps| - 1], ps[|ps| - 1];
    assert ps == front + [x];
    RealSnoc(front, x);
    var row := LeastRow(hash, ps, k);
    LastTouch(hash, front, x, k, c, row);
    MissedInRow(hash, k, row, OwnCell(front, k), CellAfter(hash, front, k, row), x.touch, c, hh);
  }

  /** A row whose cell is the estimate. */
  lemma {:induction false} LeastRow(hash: Hash, ps: seq<Sample>, k: FlowKey) returns (row: nat)
    ensures row < CMS_DEPTH && CellAfter(hash, ps, k, row).bytes == EstimateAfter(hash, ps, k)
  {
    var table := SketchRun(hash, EmptySketch(), ps);
    RowMinIsLeast(hash, 0, k, table, CMS_DEPTH);
    row :| 0 <= row < CMS_DEPTH && RowMin(hash, 0, k, table, CMS_DEPTH) == table[Slot(hash, 0, k, row)].bytes;
  }

  /** The state a run's last packet finds and leaves, in one of the flow's rows. */
  lemma {:induction false} LastTouch(hash: Hash, front: seq<Sample>, x: Sample, k: FlowKey, c: u32, row: nat)
    requires row < CMS_DEPTH && RealRun(front + [x]) && x.key == k
    requires NothingWraps(hash, front + [x], k) && EndsWith(hash, front + [x], k, c, x.touch.idx)
    ensures var own, cell := OwnCell(front, k), CellAfter(hash, front, k, row);
            && OwnCell(front + [x], k) == Hit(own, x.touch) && CellAfter(hash, front + [x], k, row) == Hit(cell, x.touch)
            && Foreign(hash, k, row, own, cell) && Fits(cell, x.touch) && cell.last <= c
            && (own.bytes > 0 ==> HeaderLen(k) <= own.bytes)
  {
    var ps := front + [x];
    assert ps[..|ps| - 1] == front && ps[|ps| - 1] == x;
    RealSnoc(front, x);
    OwnSnoc(front, x, k);
    CellSnoc(hash, front, x, k, row);
    CellFits(hash, front, x, k, row);
    ForeignRun(hash, front, k, row);
    RowClockIsLatest(hash, k, SketchRun(hash, EmptySketch(), front), CMS_DEPTH);
    var ts := TouchesOf(ps, k);
    assert ts[..|ts| - 1] == TouchesOf(front, k);
    FitsAtEnd(ts);
    if OwnCell(front, k).bytes > 0 {
      OwnHoldsPacket(front, k);
    }
  }

  /**
   For every threshold, exactly when a packet whose flow is above it also gets an estimate above it: it is
   not behind its cells, or no flow sharing a cell can hide enough bytes.
   */
  lemma {:induction false} AboveExactly(hash: Hash, k: FlowKey, c: u32, i: u32, hh: nat)
    requires IsFlow(k) && c < IDX_LIMIT && hh < TWO64 / 2
    ensures AboveWhenDue(hash, k, c, i, hh) <==> !Hidden(hash, k, c, i, hh)
  {
    if Hidden(hash, k, c, i, hh) {
      var k', row :| Shares(hash, k, k', row) && i < c && CanHide(HeaderLen(k), HeaderLen(k'), c - i, i == 0, hh);
      var o: nat :| o <= LONG && Hides(o, HeaderLen(k), HeaderLen(k'), c - i, i == 0, hh);
      var ps := HidingRun(hash, k, k', row, c, i, hh, o);
      assert Due(hash, ps, k, c, i, hh);
    } else {
      forall ps | Due(hash, ps, k, c, i, hh) ensures EstimateAfter(hash, ps, k) > hh {
        if EstimateAfter(hash, ps, k) <= hh {
          MissedHides(hash, ps, k, c, i, hh);
        }
      }
    }
  }

  /** From 163 bytes on, twice the longest headers and what half of LONG leaves, any shared cell is enough. */
  lemma {:induction false} HiddenAboveHeaders(hash: Hash, k: FlowKey, c: u32, i: u32, hh: nat)
    requires 163 <= hh
    ensures Hidden(hash, k, c, i, hh) <==> i < c && Collides(hash, k)
  {
    if i < c && Collides(hash, k) {
      var k', row :| Shares(hash, k, k', row);
      AtMostHalf(LONG, c - i);
      assert Hides(LONG, HeaderLen(k), HeaderLen(k'), c - i, i == 0, hh);
    }
  }

  // ---------------------------------------------------------------- the estimate in terms of the hash

  /** Two flows collide in a row: one column of 32768 under that row's own hash. */
  predicate SameColumn(hash: Hash, k: FlowKey, q: FlowKey, row: nat) {
    hash(q, row) % 32768 == hash(k, row) % 32768
  }

  /** The touches of a run by flows that collide with k in a row, k's own included. */
  function Colliding(hash: Hash, ps: seq<Sample>, k: FlowKey, row: nat): seq<Touch> {
    if ps == [] then [] else
      var rest, p := Colliding(hash, ps[..|ps| - 1], k, row), ps[|ps| - 1];
      if SameColumn(hash, k, p.key, row) then rest + [p.touch] else rest
  }

  lemma {:induction false} CellIsColliding(hash: Hash, ps: seq<Sample>, k: FlowKey, row: nat)
    requires row < 4
    ensures CellAfter(hash, ps, k, row) == Run(ZERO_CELL, Colliding(hash, ps, k, row))
  {
    if ps == [] {
      NothingSent(hash, k, row);
    } else {
      var front, p := ps[..|ps| - 1], ps[|ps| - 1];
      assert ps == front + [p];
      CellIsColliding(hash, front, k, row);
      CellSnoc(hash, front, p, k, row);
      if SameColumn(hash, k, p.key, row) {
        RunCat(ZERO_CELL, Colliding(hash, front, k, row), [p.touch]);
        RunOne(CellAfter(hash, front, k, row), p.touch);
      }
    }
  }

  /**
   The estimate is the least of four counters, wrap-around included: for each of the four rows, the counter
   of exactly the packets whose flows have the same column under that row's hash.
   */
  lemma {:induction false} EstimateIsLeastOfFour(hash: Hash, ps: seq<Sample>, k: FlowKey)
    ensures forall row :: 0 <= row < 4 ==> EstimateAfter(hash, ps, k) <= Run(ZERO_CELL, Colliding(hash, ps, k, row)).bytes
    ensures exists row :: 0 <= row < 4 && EstimateAfter(hash, ps, k) == Run(ZERO_CELL, Colliding(hash, ps, k, row)).bytes
  {
    forall row | 0 <= row < 4 ensures EstimateAfter(hash, ps, k) <= Run(ZERO_CELL, Colliding(hash, ps, k, row)).bytes {
      CellIsColliding(hash, ps, k, row);
      EstimateBelowRow(hash, ps, k, row);
    }
    var row := LeastRow(hash, ps, k);
    CellIsColliding(hash, ps, k, row);
  }

  /** No other flow of the run has the flow's column in this row. */
  ghost predicate AloneInRow(hash: Hash, ps: seq<Sample>, k: FlowKey, row: nat) {
    forall i :: 0 <= i < |ps| && ps[i].key != k ==> !SameColumn(hash, k, ps[i].key, row)
  }

  lemma {:induction false} AloneCollidesWithItself(hash: Hash, ps: seq<Sample>, k: FlowKey, row: nat)
    requires AloneInRow(hash, ps, k, row)
    ensures Colliding(hash, ps, k, row) == TouchesOf(ps, k)
  {
    if ps != [] {
      AloneCollidesWithItself(hash, ps[..|ps| - 1], k, row);
    }
  }

  /** One row without a collision is enough for the estimate not to exceed the flow's own count. */
  lemma {:induction false} OneFreeRowIsEnough(hash: Hash, ps: seq<Sample>, k: FlowKey, row: nat)
    requires row < 4 && AloneInRow(hash, ps, k, row)
    ensures EstimateAfter(hash, ps, k) <= OwnCell(ps, k).bytes
  {
    EstimateIsLeastOfFour(hash, ps, k);
    AloneCollidesWithItself(hash, ps, k, row);
  }
}
