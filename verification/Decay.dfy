/**
 One Count-Min Sketch cell: a byte counter that fades by a right shift, computed lazily when the
 cell is touched. The lazy counter is compared with an exponentially weighted sum, with eager
 per-tick halving, and with the private counter of a single flow.
 */
module Decay {
  import opened Words

  datatype Cell = Cell(bytes: u64, last: u32)

  datatype Touch = Touch(idx: u32, bytes: u64)

  const ZERO_CELL: Cell := Cell(0, 0)

  /** The shift as the program performs it: 64 intervals or more empty the counter. */
  function Fade(x: u64, elapsed: nat): (r: u64)
    ensures r == ShiftRight(x, elapsed)
  {
    if elapsed >= 64 then ShiftedOut(x, elapsed); 0 else ShiftRight(x, elapsed)
  }

  /** A touch ages the cell by the intervals since its last one; a late touch by none. */
  function Hit(c: Cell, t: Touch): Cell {
    var elapsed := Gap(c.last, t.idx);
    Cell(Wrap(Fade(c.bytes, elapsed) + t.bytes), if elapsed > 0 then t.idx else c.last)
  }

  /** The touch does not push the 64-bit counter past its width. */
  predicate Fits(c: Cell, t: Touch) {
    Fade(c.bytes, Gap(c.last, t.idx)) + t.bytes < TWO64
  }

  function Run(c: Cell, ts: seq<Touch>): Cell {
    if ts == [] then c else Hit(Run(c, ts[..|ts| - 1]), ts[|ts| - 1])
  }

  // ---------------------------------------------------------------- the exact weighted sum

  /** The latest decay index seen so far: the clock of the cell. */
  function Clock(ts: seq<Touch>): (m: nat)
    ensures forall i :: 0 <= i < |ts| ==> ts[i].idx <= m
    ensures m == 0 || exists i :: 0 <= i < |ts| && ts[i].idx == m
  {
    if ts == [] then 0 else
      var front := ts[..|ts| - 1];
      var m := Max(Clock(front), ts[|ts| - 1].idx);
      assert forall i :: 0 <= i < |front| ==> front[i] == ts[i];
      m
  }

  /** Sum of bytes_i * 2^(clock when i arrived): recent bytes weigh more. */
  function Weight(ts: seq<Touch>): nat {
    if ts == [] then 0 else Weight(ts[..|ts| - 1]) + ShiftLeft(ts[|ts| - 1].bytes, Clock(ts))
  }

  /** What an unbounded counter that fades exactly would hold now. */
  function Ideal(ts: seq<Touch>): nat {
    ShiftRight(Weight(ts), Clock(ts))
  }

  lemma {:induction false} LastIsClock(ts: seq<Touch>)
    ensures Run(ZERO_CELL, ts).last == Clock(ts)
  {
    if ts != [] {
      LastIsClock(ts[..|ts| - 1]);
    }
  }

  /** One touch moves the ideal counter exactly as it moves a cell, before wrap-around. */
  lemma {:induction false} IdealStep(ts: seq<Touch>)
    requires ts != []
    ensures var front, t := ts[..|ts| - 1], ts[|ts| - 1];
            Ideal(ts) == ShiftRight(Ideal(front), Clock(ts) - Clock(front)) + t.bytes
  {
    var front, t := ts[..|ts| - 1], ts[|ts| - 1];
    var e := Clock(ts) - Clock(front);
    ShiftRightPlus(Weight(front), t.bytes, Clock(ts));
    ShiftRightTwice(Weight(front), Clock(front), e);
  }

  /** Wrap-around can only lose bytes: a cell never holds more than the exact counter. */
  lemma {:induction false} NeverAboveIdeal(ts: seq<Touch>)
    ensures Run(ZERO_CELL, ts).bytes <= Ideal(ts)
  {
    if ts != [] {
      var front := ts[..|ts| - 1];
      NeverAboveIdeal(front);
      LastIsClock(front);
      IdealStep(ts);
      ShiftRightMonotone(Run(ZERO_CELL, front).bytes, Ideal(front), Clock(ts) - Clock(front));
    }
  }

  ghost predicate ExactThroughout(ts: seq<Touch>) {
    forall n :: 0 <= n <= |ts| ==> Run(ZERO_CELL, ts[..n]).bytes == Ideal(ts[..n])
  }

  ghost predicate IdealFits(ts: seq<Touch>) {
    forall n :: 0 <= n <= |ts| ==> Ideal(ts[..n]) < TWO64
  }

  lemma {:induction false} ExactWhenFits(ts: seq<Touch>)
    requires IdealFits(ts)
    ensures Run(ZERO_CELL, ts).bytes == Ideal(ts)
  {
    if ts != [] {
      var front := ts[..|ts| - 1];
      assert IdealFits(front) by {
        forall n | 0 <= n <= |front| ensures Ideal(front[..n]) < TWO64 {
          assert front[..n] == ts[..n];
        }
      }
      ExactWhenFits(front);
      LastIsClock(front);
      IdealStep(ts);
      assert ts[..|ts|] == ts;
    }
  }

  /**
   Lazy decay is the exact exponentially weighted sum, rounded down once, for every sequence of
   touches in any order, precisely when that sum never outgrows 64 bits.
   */
  lemma {:induction false} LazyDecayIsExactSum(ts: seq<Touch>)
    ensures ExactThroughout(ts) <==> IdealFits(ts)
    ensures Run(ZERO_CELL, ts).last == Clock(ts)
  {
    LastIsClock(ts);
    if IdealFits(ts) {
      forall n | 0 <= n <= |ts| ensures Run(ZERO_CELL, ts[..n]).bytes == Ideal(ts[..n]) {
        var p := ts[..n];
        forall m | 0 <= m <= |p| ensures Ideal(p[..m]) < TWO64 {
          assert p[..m] == ts[..m];
        }
        ExactWhenFits(p);
      }
    }
  }

  function Bytes(ts: seq<Touch>): nat {
    if ts == [] then 0 else Bytes(ts[..|ts| - 1]) + ts[|ts| - 1].bytes
  }

  lemma {:induction false} IdealBelowBytes(ts: seq<Touch>)
    ensures Ideal(ts) <= Bytes(ts)
  {
    if ts != [] {
      IdealBelowBytes(ts[..|ts| - 1]);
      IdealStep(ts);
    }
  }

  lemma {:induction false} BytesOfPrefix(ts: seq<Touch>, n: nat)
    requires n <= |ts|
    ensures Bytes(ts[..n]) <= Bytes(ts)
  {
    if n == |ts| {
      assert ts[..n] == ts;
    } else {
      assert ts[..|ts| - 1][..n] == ts[..n];
      BytesOfPrefix(ts[..|ts| - 1], n);
    }
  }

  /** A check on the traffic alone: below 2^64 bytes in total, no cell wraps. */
  lemma {:induction false} SmallTrafficFits(ts: seq<Touch>)
    requires Bytes(ts) < TWO64
    ensures IdealFits(ts)
  {
    forall n | 0 <= n <= |ts| ensures Ideal(ts[..n]) < TWO64 {
      IdealBelowBytes(ts[..n]);
      BytesOfPrefix(ts, n);
    }
  }

  /** An empty touch at i is invisible after the next touch exactly unless it runs ahead of both clocks. */
  lemma {:induction false} EmptyTouchInvisible(c: Cell, i: u32, t: Touch)
    ensures Hit(Hit(c, Touch(i, 0)), t) == Hit(c, t) <==> i <= t.idx || i <= c.last
  {
    var e1 := Gap(c.last, i);
    var c1 := Hit(c, Touch(i, 0));
    var e2 := Gap(c1.last, t.idx);
    ShiftRightTwice(c.bytes, e1, e2);
  }

  lemma {:induction false} RunCat(c: Cell, p: seq<Touch>, q: seq<Touch>)
    ensures Run(c, p + q) == Run(Run(c, p), q)
  {
    if q == [] {
      assert p + q == p;
    } else {
      assert (p + q)[..|p + q| - 1] == p + q[..|q| - 1];
      RunCat(c, p, q[..|q| - 1]);
    }
  }

  lemma {:induction false} RunOne(c: Cell, t: Touch)
    ensures Run(c, [t]) == Hit(c, t)
  {
    assert [t][..0] == [];
  }

  /**
   How often a cell is looked at does not matter: an empty touch anywhere in a run leaves no trace in
   the later cells, unless it runs ahead of every touch before it and of the next one.
   */
  lemma {:induction false} LooksLeaveNoTrace(c: Cell, p: seq<Touch>, i: u32, t: Touch, q: seq<Touch>)
    requires i <= t.idx || i <= Run(c, p).last
    ensures Run(c, p + [Touch(i, 0)] + [t] + q) == Run(c, p + [t] + q)
  {
    var look := Touch(i, 0);
    assert Run(c, p + [look] + [t]) == Run(c, p + [t]) by {
      RunCat(c, p, [look]);
      RunOne(Run(c, p), look);
      RunCat(c, p + [look], [t]);
      RunOne(Hit(Run(c, p), look), t);
      RunCat(c, p, [t]);
      RunOne(Run(c, p), t);
      EmptyTouchInvisible(Run(c, p), i, t);
    }
    RunCat(c, p + [look] + [t], q);
    RunCat(c, p + [t], q);
  }

  // ---------------------------------------------------------------- eager halving

  datatype Event = Tick | Add(bytes: u64)

  /** A counter that is halved on every tick of its clock. */
  function Eager(x: u64, es: seq<Event>): u64 {
    if es == [] then x else
      var y := Eager(x, es[..|es| - 1]);
      match es[|es| - 1]
      case Tick => y / 2
      case Add(b) => Wrap(y + b)
  }

  function Ticks(n: nat): seq<Event> {
    seq(n, i => Tick)
  }

  /** The ticks and additions an eager counter sees when the touches arrive. */
  function Timeline(c: Cell, ts: seq<Touch>): seq<Event> {
    if ts == [] then [] else
      var front, t := ts[..|ts| - 1], ts[|ts| - 1];
      Timeline(c, front) + Ticks(Gap(Run(c, front).last, t.idx)) + [Add(t.bytes)]
  }

  lemma {:induction false} EagerTicks(x: u64, es: seq<Event>, n: nat)
    ensures Eager(x, es + Ticks(n)) == ShiftRight(Eager(x, es), n)
  {
    if n == 0 {
      assert es + Ticks(0) == es;
    } else {
      var all := es + Ticks(n);
      assert all[..|all| - 1] == es + Ticks(n - 1);
      assert all[|all| - 1] == Tick;
      EagerTicks(x, es, n - 1);
    }
  }

  /** Deferring the decay to the next touch gives the counter that halves on every tick. */
  lemma {:induction false} LazyEqualsEager(c: Cell, ts: seq<Touch>)
    ensures Run(c, ts).bytes == Eager(c.bytes, Timeline(c, ts))
  {
    if ts != [] {
      var front, t := ts[..|ts| - 1], ts[|ts| - 1];
      LazyEqualsEager(c, front);
      var e := Gap(Run(c, front).last, t.idx);
      var before := Timeline(c, front);
      EagerTicks(c.bytes, before, e);
      var all := Timeline(c, ts);
      assert all[..|all| - 1] == before + Ticks(e);
      assert all[|all| - 1] == Add(t.bytes);
    }
  }
}
