/** Weights grouped by key. */
module Tally {
  import opened Words

  datatype Item<K> = Item(key: K, weight: nat)

  function Sum<K>(items: seq<Item<K>>): nat {
    if items == [] then 0 else Sum(items[..|items| - 1]) + items[|items| - 1].weight
  }

  function SumOf<K(==)>(items: seq<Item<K>>, k: K): nat {
    if items == [] then 0 else
      SumOf(items[..|items| - 1], k) + if items[|items| - 1].key == k then items[|items| - 1].weight else 0
  }

  function Keys<K(==)>(items: seq<Item<K>>): set<K> {
    set i | 0 <= i < |items| :: items[i].key
  }

  function Without<K(==)>(items: seq<Item<K>>, k: K): seq<Item<K>> {
    if items == [] then [] else
      var rest, last := Without(items[..|items| - 1], k), items[|items| - 1];
      if last.key == k then rest else rest + [last]
  }

  lemma {:induction false} Extract<K>(items: seq<Item<K>>, k: K, j: K)
    ensures Sum(items) == SumOf(items, k) + Sum(Without(items, k))
    ensures j != k ==> SumOf(Without(items, k), j) == SumOf(items, j)
  {
    if items != [] {
      Extract(items[..|items| - 1], k, j);
    }
  }

  lemma {:induction false} KeysWithout<K>(items: seq<Item<K>>, k: K)
    ensures Keys(Without(items, k)) == Keys(items) - {k}
  {
    if items != [] {
      var front, last := items[..|items| - 1], items[|items| - 1];
      KeysWithout(front, k);
      KeysSnoc(front, last);
      KeysSnoc(Without(front, k), last);
      assert items == front + [last];
    }
  }

  lemma {:induction false} KeysSnoc<K>(items: seq<Item<K>>, x: Item<K>)
    ensures Keys(items + [x]) == Keys(items) + {x.key}
  {
    var all := items + [x];
    assert forall i :: 0 <= i < |items| ==> all[i] == items[i];
    assert all[|items|] == x;
    forall k | k in Keys(items) ensures k in Keys(all) {
      var i :| 0 <= i < |items| && items[i].key == k;
      assert all[i].key == k;
    }
  }

  /** If no key weighs more than the bound, the whole weighs at most the bound per key. */
  lemma {:induction false} SumBounded<K>(items: seq<Item<K>>, bound: nat)
    requires forall k :: k in Keys(items) ==> SumOf(items, k) <= bound
    ensures Sum(items) <= Times(bound, |Keys(items)|)
    decreases |Keys(items)|
  {
    if items == [] {
    } else {
      var k := items[0].key;
      assert k in Keys(items);
      var rest := Without(items, k);
      KeysWithout(items, k);
      forall j | j in Keys(rest) ensures SumOf(rest, j) <= bound {
        Extract(items, k, j);
      }
      SumBounded(rest, bound);
      Extract(items, k, k);
    }
  }

  lemma {:induction false} PairsBounded<A, B>(pairs: set<(A, B)>, xs: set<A>, ys: set<B>)
    requires forall p :: p in pairs ==> p.0 in xs && p.1 in ys
    ensures |pairs| <= Times(|ys|, |xs|)
    decreases |xs|
  {
    if xs == {} {
      assert pairs == {};
    } else {
      var x :| x in xs;
      var here := set p | p in pairs && p.0 == x;
      var there := pairs - here;
      PairsBounded(there, xs - {x}, ys);
      RowBounded(here, x, ys);
      assert |pairs| == |here| + |there| by { assert here <= pairs; }
    }
  }

  lemma {:induction false} RowBounded<A, B>(pairs: set<(A, B)>, x: A, ys: set<B>)
    requires forall p :: p in pairs ==> p.0 == x && p.1 in ys
    ensures |pairs| <= |ys|
    decreases |ys|
  {
    if pairs != {} {
      var p :| p in pairs;
      RowBounded(pairs - {p}, x, ys - {p.1});
    }
  }
}

/** What gets through in one direction: mice up to the threshold, heavy packets up to the rate. */
module Throughput {
  import opened Words
  import opened Flow
  import opened Decay
  import opened Sketch
  import opened Dataplane
  import opened Detection
  import opened Refinement
  import Tally
  import TB = TokenBucket

  /** Bytes counted as passed. */
  function PassedBytes(ps: seq<Packet>, os: seq<Outcome>): nat
    requires |ps| == |os|
  {
    if ps == [] then 0 else
      PassedBytes(ps[..|ps| - 1], os[..|os| - 1]) + if Passed(os[|os| - 1]) then ps[|ps| - 1].len else 0
  }

  type FlowTick = (FlowKey, nat)

  ghost predicate Parseable(ps: seq<Packet>) {
    forall i :: 0 <= i < |ps| ==> ps[i].flow.Some?
  }

  ghost predicate Ordered(ps: seq<Packet>) {
    forall i, j :: 0 <= i <= j < |ps| ==> ps[i].now <= ps[j].now
  }

  /** No cell of a packet's flow outgrows 64 bits when the packet is added. */
  ghost predicate CellsFit(hash: Hash, s: Lane, p: Packet)
    requires ValidLane(s) && p.flow.Some?
  {
    forall row :: 0 <= row < CMS_DEPTH ==> Fits(s.cms[Slot(hash, 0, p.flow.value, row)], TouchOf(p))
  }

  ghost predicate NoWrap(hash: Hash, dir: nat, s: Lane, ps: seq<Packet>)
    requires ValidLane(s) && Parseable(ps)
  {
    if ps == [] then true else
      var front := ps[..|ps| - 1];
      NoWrap(hash, dir, s, front) && CellsFit(hash, LaneRun(hash, dir, s, front), ps[|ps| - 1])
  }

  // ---------------------------------------------------------------- one flow within one interval

  /** Bytes flow k has sent so far in decay interval j. */
  function TickBytes(ps: seq<Packet>, k: FlowKey, j: nat): nat {
    if ps == [] then 0 else
      var p := ps[|ps| - 1];
      TickBytes(ps[..|ps| - 1], k, j) + if p.flow == Some(k) && DecayIdx(p.now) == j then p.len else 0
  }

  ghost predicate Holds(c: Cell, bytes: nat, j: nat) {
    bytes <= c.bytes && (bytes > 0 ==> j <= c.last)
  }

  lemma {:induction false} HitHolds(c: Cell, t: Touch, bytes: nat, j: nat, own: bool)
    requires Holds(c, bytes, j) && t.idx <= j && Fits(c, t)
    requires own ==> t.idx == j
    ensures Holds(Hit(c, t), bytes + if own then t.bytes else 0, j)
  {
    if bytes > 0 {
      assert Gap(c.last, t.idx) == 0;
    }
  }

  /** Each of the flow's cells holds at least what the flow sent in the latest interval. */
  lemma {:induction false} CellHoldsTick(hash: Hash, dir: nat, s: Lane, ps: seq<Packet>, k: FlowKey, row: nat, j: nat)
    requires ValidLane(s) && s.cfg.rate != 0 && Parseable(ps) && NoWrap(hash, dir, s, ps) && row < CMS_DEPTH
    requires forall i :: 0 <= i < |ps| ==> DecayIdx(ps[i].now) <= j
    ensures Holds(LaneRun(hash, dir, s, ps).cms[Slot(hash, 0, k, row)], TickBytes(ps, k, j), j)
  {
    if ps != [] {
      var front, p := ps[..|ps| - 1], ps[|ps| - 1];
      CellHoldsTick(hash, dir, s, front, k, row, j);
      CellStep(hash, LaneRun(hash, dir, s, front), p, k, row, TickBytes(front, k, j), j);
    }
  }

  lemma {:induction false} CellStep(hash: Hash, s: Lane, p: Packet, k: FlowKey, row: nat, bytes: nat, j: nat)
    requires ValidLane(s) && row < CMS_DEPTH && Sampled(s.cfg, p) && CellsFit(hash, s, p)
    requires DecayIdx(p.now) <= j
    requires Holds(s.cms[Slot(hash, 0, k, row)], bytes, j)
    ensures Holds(LaneCms(hash, s, p)[Slot(hash, 0, k, row)],
                  bytes + (if p.flow == Some(k) && DecayIdx(p.now) == j then p.len else 0), j)
  {
    var i := Slot(hash, 0, k, row);
    var own := p.flow == Some(k) && DecayIdx(p.now) == j;
    if p.flow == Some(k) {
      assert Touches(hash, 0, p.flow.value, i);
    }
    if Touches(hash, 0, p.flow.value, i) {
      var r :| 0 <= r < CMS_DEPTH && Slot(hash, 0, p.flow.value, r) == i;
      assert Fits(s.cms[Slot(hash, 0, p.flow.value, r)], TouchOf(p));
      HitHolds(s.cms[i], TouchOf(p), bytes, j, own);
    }
  }

  // ---------------------------------------------------------------- mice

  ghost function MouseItems(ps: seq<Packet>, os: seq<Outcome>): (items: seq<Tally.Item<FlowTick>>)
    requires |ps| == |os| && Parseable(ps)
    ensures |items| == |ps|
  {
    seq(|ps|, i requires 0 <= i < |ps| =>
      Tally.Item((ps[i].flow.value, DecayIdx(ps[i].now)), if os[i].Mouse? then ps[i].len else 0))
  }

  ghost predicate MiceWithin(ps: seq<Packet>, os: seq<Outcome>, bound: nat)
    requires |ps| == |os| && Parseable(ps)
  {
    forall key :: Tally.SumOf(MouseItems(ps, os), key) <= bound
  }

  lemma {:induction false} MouseBelowTick(ps: seq<Packet>, os: seq<Outcome>, key: FlowTick)
    requires |ps| == |os| && Parseable(ps)
    ensures Tally.SumOf(MouseItems(ps, os), key) <= TickBytes(ps, key.0, key.1)
  {
    if ps != [] {
      var items := MouseItems(ps, os);
      MouseBelowTick(ps[..|ps| - 1], os[..|os| - 1], key);
      assert items[..|items| - 1] == MouseItems(ps[..|ps| - 1], os[..|os| - 1]);
    }
  }

  lemma {:induction false} MouseEstimate(hash: Hash, dir: nat, s: Lane, p: Packet)
    requires ValidLane(s) && Sampled(s.cfg, p) && LaneOutcome(hash, dir, s, p).Mouse?
    ensures exists row :: 0 <= row < CMS_DEPTH &&
              LaneCms(hash, s, p)[Slot(hash, 0, p.flow.value, row)].bytes <= s.cfg.hh
  {
    LeastRow(hash, p.flow.value, LaneCms(hash, s, p));
  }

  lemma {:induction false} LeastRow(hash: Hash, k: FlowKey, table: seq<Cell>)
    requires |table| == HALF
    ensures exists row :: 0 <= row < CMS_DEPTH && table[Slot(hash, 0, k, row)].bytes == Estimate(hash, 0, k, table)
  {
    RowMinIsLeast(hash, 0, k, table, CMS_DEPTH);
    var row :| 0 <= row < CMS_DEPTH && RowMin(hash, 0, k, table, CMS_DEPTH) == table[Slot(hash, 0, k, row)].bytes;
  }

  lemma {:induction false} TicksOrdered(ps: seq<Packet>)
    requires Ordered(ps) && ps != []
    ensures forall i :: 0 <= i < |ps| ==> DecayIdx(ps[i].now) <= DecayIdx(ps[|ps| - 1].now)
  {
    forall i | 0 <= i < |ps| ensures DecayIdx(ps[i].now) <= DecayIdx(ps[|ps| - 1].now) {
      assert ps[i].now <= ps[|ps| - 1].now;
    }
  }

  /** A packet passed as a mouse leaves its flow within the threshold for the interval. */
  lemma {:induction false} MouseKeepsTick(hash: Hash, dir: nat, s: Lane, ps: seq<Packet>)
    requires ValidLane(s) && s.cfg.rate != 0 && Parseable(ps) && NoWrap(hash, dir, s, ps) && Ordered(ps) && ps != []
    requires LaneOutcome(hash, dir, LaneRun(hash, dir, s, ps[..|ps| - 1]), ps[|ps| - 1]).Mouse?
    ensures var p := ps[|ps| - 1]; TickBytes(ps, p.flow.value, DecayIdx(p.now)) <= s.cfg.hh
  {
    var p, before := ps[|ps| - 1], LaneRun(hash, dir, s, ps[..|ps| - 1]);
    TicksOrdered(ps);
    MouseEstimate(hash, dir, before, p);
    var row :| 0 <= row < CMS_DEPTH &&
      LaneCms(hash, before, p)[Slot(hash, 0, p.flow.value, row)].bytes <= s.cfg.hh;
    CellHoldsTick(hash, dir, s, ps, p.flow.value, row, DecayIdx(p.now));
  }

  lemma {:induction false} MiceLast(ps: seq<Packet>, os: seq<Outcome>, bound: nat)
    requires |ps| == |os| && Parseable(ps) && ps != [] && MiceWithin(ps[..|ps| - 1], os[..|os| - 1], bound)
    requires var p := ps[|ps| - 1]; os[|os| - 1].Mouse? ==> TickBytes(ps, p.flow.value, DecayIdx(p.now)) <= bound
    ensures MiceWithin(ps, os, bound)
  {
    var items := MouseItems(ps, os);
    assert items[..|items| - 1] == MouseItems(ps[..|ps| - 1], os[..|os| - 1]);
    forall key ensures Tally.SumOf(items, key) <= bound {
      assert Tally.SumOf(MouseItems(ps[..|ps| - 1], os[..|os| - 1]), key) <= bound;
      if os[|os| - 1].Mouse? && key == items[|items| - 1].key {
        MouseBelowTick(ps, os, key);
      }
    }
  }

  ghost predicate Admissible(hash: Hash, dir: nat, s: Lane, ps: seq<Packet>)
    requires ValidLane(s)
  {
    s.cfg.rate != 0 && Parseable(ps) && Ordered(ps) && NoWrap(hash, dir, s, ps)
  }

  ghost predicate MiceHeld(hash: Hash, dir: nat, s: Lane, ps: seq<Packet>)
    requires ValidLane(s) && Parseable(ps)
  {
    MiceWithin(ps, LaneOutcomes(hash, dir, s, ps), s.cfg.hh)
  }

  lemma {:induction false} AdmissiblePrefix(hash: Hash, dir: nat, s: Lane, ps: seq<Packet>)
    requires ValidLane(s) && ps != [] && Admissible(hash, dir, s, ps)
    ensures Admissible(hash, dir, s, ps[..|ps| - 1])
  {
  }

  lemma {:induction false} OutcomesLast(hash: Hash, dir: nat, s: Lane, ps: seq<Packet>)
    requires ValidLane(s) && ps != []
    ensures var front := ps[..|ps| - 1];
            LaneOutcomes(hash, dir, s, ps) ==
            LaneOutcomes(hash, dir, s, front) + [LaneOutcome(hash, dir, LaneRun(hash, dir, s, front), ps[|ps| - 1])]
  {
  }

  lemma {:induction false} MiceHeldStep(hash: Hash, dir: nat, s: Lane, ps: seq<Packet>)
    requires ValidLane(s) && ps != [] && Admissible(hash, dir, s, ps) && Parseable(ps[..|ps| - 1])
    requires MiceHeld(hash, dir, s, ps[..|ps| - 1])
    ensures MiceHeld(hash, dir, s, ps)
  {
    var os := LaneOutcomes(hash, dir, s, ps);
    OutcomesLast(hash, dir, s, ps);
    assert os[..|os| - 1] == LaneOutcomes(hash, dir, s, ps[..|ps| - 1]);
    if os[|os| - 1].Mouse? {
      MouseKeepsTick(hash, dir, s, ps);
    }
    MiceLast(ps, os, s.cfg.hh);
  }

  lemma {:induction false} MiceBounded(hash: Hash, dir: nat, s: Lane, ps: seq<Packet>)
    requires ValidLane(s) && Admissible(hash, dir, s, ps)
    ensures MiceHeld(hash, dir, s, ps)
  {
    if ps == [] {
      assert MouseItems(ps, LaneOutcomes(hash, dir, s, ps)) == [];
    } else {
      AdmissiblePrefix(hash, dir, s, ps);
      MiceBounded(hash, dir, s, ps[..|ps| - 1]);
      MiceHeldStep(hash, dir, s, ps);
    }
  }

  // ---------------------------------------------------------------- heavy packets

  lemma {:induction false} PassedSnoc(ps: seq<Packet>, os: seq<Outcome>, p: Packet, o: Outcome)
    requires |ps| == |os| && Parseable(ps) && p.flow.Some?
    ensures PassedBytes(ps + [p], os + [o]) == PassedBytes(ps, os) + if Passed(o) then p.len else 0
    ensures Tally.Sum(MouseItems(ps + [p], os + [o])) ==
            Tally.Sum(MouseItems(ps, os)) + if o.Mouse? then p.len else 0
  {
    var ps', os' := ps + [p], os + [o];
    assert ps'[..|ps|] == ps && os'[..|os|] == os;
    var items := MouseItems(ps', os');
    assert items[..|items| - 1] == MouseItems(ps, os);
  }

  lemma {:induction false} AdmittedStep(hash: Hash, dir: nat, s: Lane, front: seq<Packet>, p: Packet)
    requires ValidLane(s)
    ensures var o := LaneOutcome(hash, dir, LaneRun(hash, dir, s, front), p);
            TB.Admitted(s.entry.bucket, LimitOf(s.cfg), Calls(HeavyPackets(hash, dir, s, front + [p]))) ==
            TB.Admitted(s.entry.bucket, LimitOf(s.cfg), Calls(HeavyPackets(hash, dir, s, front)))
            + if o.Admitted? then p.len else 0
  {
    var before := LaneRun(hash, dir, s, front);
    assert (front + [p])[..|front|] == front;
    if Heavy(LaneOutcome(hash, dir, before, p)) {
      LaneBucketRun(hash, dir, s, front);
      HeavyIsDecided(hash, dir, before, p);
      AdmittedSnoc(s.entry.bucket, LimitOf(s.cfg), HeavyPackets(hash, dir, s, front), p);
    }
  }

  lemma {:induction false} LimitedOutcome(hash: Hash, dir: nat, s: Lane, p: Packet)
    requires ValidLane(s) && Sampled(s.cfg, p)
    ensures Passed(LaneOutcome(hash, dir, s, p)) <==>
            LaneOutcome(hash, dir, s, p).Mouse? || LaneOutcome(hash, dir, s, p).Admitted?
  {
  }

  ghost function PassedTotal(hash: Hash, dir: nat, s: Lane, ps: seq<Packet>): nat
    requires ValidLane(s)
  {
    PassedBytes(ps, LaneOutcomes(hash, dir, s, ps))
  }

  ghost function MiceTotal(hash: Hash, dir: nat, s: Lane, ps: seq<Packet>): nat
    requires ValidLane(s) && Parseable(ps)
  {
    Tally.Sum(MouseItems(ps, LaneOutcomes(hash, dir, s, ps)))
  }

  ghost function HeavyTotal(hash: Hash, dir: nat, s: Lane, ps: seq<Packet>): nat
    requires ValidLane(s)
  {
    TB.Admitted(s.entry.bucket, LimitOf(s.cfg), Calls(HeavyPackets(hash, dir, s, ps)))
  }

  lemma {:induction false} OutcomesSnoc(hash: Hash, dir: nat, s: Lane, front: seq<Packet>, p: Packet)
    requires ValidLane(s)
    ensures LaneOutcomes(hash, dir, s, front + [p]) ==
            LaneOutcomes(hash, dir, s, front) + [LaneOutcome(hash, dir, LaneRun(hash, dir, s, front), p)]
  {
    assert (front + [p])[..|front|] == front;
  }

  /** Each packet adds its bytes once on each side: as a mouse, as an admitted heavy packet, or not at all. */
  lemma {:induction false} PassedStep(hash: Hash, dir: nat, s: Lane, front: seq<Packet>, p: Packet)
    returns (passed: nat, mice: nat, heavy: nat)
    requires ValidLane(s) && Sampled(s.cfg, p) && Parseable(front) && Parseable(front + [p])
    ensures PassedTotal(hash, dir, s, front + [p]) == PassedTotal(hash, dir, s, front) + passed
    ensures MiceTotal(hash, dir, s, front + [p]) == MiceTotal(hash, dir, s, front) + mice
    ensures HeavyTotal(hash, dir, s, front + [p]) == HeavyTotal(hash, dir, s, front) + heavy
    ensures passed == mice + heavy
  {
    var before := LaneRun(hash, dir, s, front);
    var o := LaneOutcome(hash, dir, before, p);
    passed, mice, heavy := if Passed(o) then p.len else 0, if o.Mouse? then p.len else 0, if o.Admitted? then p.len else 0;
    LimitedOutcome(hash, dir, before, p);
    OutcomesSnoc(hash, dir, s, front, p);
    PassedSnoc(front, LaneOutcomes(hash, dir, s, front), p, o);
    AdmittedStep(hash, dir, s, front, p);
  }

  ghost predicate Splits(hash: Hash, dir: nat, s: Lane, ps: seq<Packet>)
    requires ValidLane(s) && Parseable(ps)
  {
    PassedTotal(hash, dir, s, ps) == MiceTotal(hash, dir, s, ps) + HeavyTotal(hash, dir, s, ps)
  }

  lemma {:induction false} SplitsStep(hash: Hash, dir: nat, s: Lane, ps: seq<Packet>)
    requires ValidLane(s) && s.cfg.rate != 0 && Parseable(ps) && ps != []
    requires Splits(hash, dir, s, ps[..|ps| - 1])
    ensures Splits(hash, dir, s, ps)
  {
    var front, p := ps[..|ps| - 1], ps[|ps| - 1];
    var passed0, mice0, heavy0 := PassedTotal(hash, dir, s, front), MiceTotal(hash, dir, s, front), HeavyTotal(hash, dir, s, front);
    assert passed0 == mice0 + heavy0;
    var passed1, mice1, heavy1 := TotalsStep(hash, dir, s, ps);
    SumsSplit(passed0, mice0, heavy0, passed1, mice1, heavy1);
  }

  lemma {:induction false} TotalsStep(hash: Hash, dir: nat, s: Lane, ps: seq<Packet>)
    returns (passed: nat, mice: nat, heavy: nat)
    requires ValidLane(s) && s.cfg.rate != 0 && Parseable(ps) && ps != []
    ensures PassedTotal(hash, dir, s, ps) == PassedTotal(hash, dir, s, ps[..|ps| - 1]) + passed
    ensures MiceTotal(hash, dir, s, ps) == MiceTotal(hash, dir, s, ps[..|ps| - 1]) + mice
    ensures HeavyTotal(hash, dir, s, ps) == HeavyTotal(hash, dir, s, ps[..|ps| - 1]) + heavy
    ensures passed == mice + heavy
  {
    assert ps[..|ps| - 1] + [ps[|ps| - 1]] == ps;
    passed, mice, heavy := PassedStep(hash, dir, s, ps[..|ps| - 1], ps[|ps| - 1]);
  }

  lemma {:induction false} SumsSplit(passed: nat, mice: nat, heavy: nat, p: nat, m: nat, h: nat)
    requires passed == mice + heavy && p == m + h
    ensures passed + p == (mice + m) + (heavy + h)
  {
  }

  lemma {:induction false} SplitsEmpty(hash: Hash, dir: nat, s: Lane)
    requires ValidLane(s)
    ensures Splits(hash, dir, s, [])
  {
  }

  lemma {:induction false} PassedSplits(hash: Hash, dir: nat, s: Lane, ps: seq<Packet>)
    requires ValidLane(s) && s.cfg.rate != 0 && Parseable(ps)
    ensures Splits(hash, dir, s, ps)
  {
    if ps == [] {
      SplitsEmpty(hash, dir, s);
    } else {
      PassedSplits(hash, dir, s, ps[..|ps| - 1]);
      SplitsStep(hash, dir, s, ps);
    }
  }

  lemma {:induction false} AdmittedSnoc(b: TB.Bucket, lim: TB.Limit, hs: seq<Packet>, p: Packet)
    ensures TB.Admitted(b, lim, Calls(hs + [p])) ==
            TB.Admitted(b, lim, Calls(hs)) + TB.Taken(TB.After(b, lim, Calls(hs)), lim, CallOf(p))
  {
    SnocCalls(hs, p);
    var cs := Calls(hs + [p]);
    assert cs[..|cs| - 1] == Calls(hs);
  }

  lemma {:induction false} HeavyWithin(hash: Hash, dir: nat, s: Lane, ps: seq<Packet>, lo: nat, hi: nat)
    requires ValidLane(s)
    requires forall i :: 0 <= i < |ps| ==> lo <= ps[i].now <= hi
    ensures forall i :: 0 <= i < |HeavyPackets(hash, dir, s, ps)| ==>
              lo <= HeavyPackets(hash, dir, s, ps)[i].now <= hi
  {
    if ps != [] {
      HeavyWithin(hash, dir, s, ps[..|ps| - 1], lo, hi);
    }
  }

  lemma {:induction false} AdvanceWithin(b: TB.Bucket, lim: TB.Limit, cs: seq<TB.Call>, lo: nat, hi: nat)
    requires cs != []
    requires forall i :: 0 <= i < |cs| ==> lo <= cs[i].now <= hi
    ensures TB.Advance(b, lim, cs) <= hi - lo
  {
    TB.ClockIsRunningMax(b, lim, cs);
    TB.ClockIsRunningMax(b, lim, cs[..1]);
    assert cs[..1][0] == cs[0];
  }

  function Span(ps: seq<Packet>): nat
    requires Ordered(ps) && ps != []
  {
    ps[|ps| - 1].now - ps[0].now
  }

  lemma {:induction false} HeavyBounded(hash: Hash, dir: nat, s: Lane, ps: seq<Packet>)
    requires ValidLane(s) && Ordered(ps) && ps != []
    ensures TB.NS_PER_S * HeavyTotal(hash, dir, s, ps) <= TB.NS_PER_S * s.cfg.burst + Times(s.cfg.rate, Span(ps))
  {
    HeavyWithin(hash, dir, s, ps, ps[0].now, ps[|ps| - 1].now);
    CallsBounded(s.entry.bucket, LimitOf(s.cfg), Calls(HeavyPackets(hash, dir, s, ps)), ps[0].now, ps[|ps| - 1].now);
  }

  lemma {:induction false} CallsBounded(b: TB.Bucket, lim: TB.Limit, cs: seq<TB.Call>, lo: nat, hi: nat)
    requires lo <= hi
    requires forall i :: 0 <= i < |cs| ==> lo <= cs[i].now <= hi
    ensures TB.NS_PER_S * TB.Admitted(b, lim, cs) <= TB.NS_PER_S * lim.burst + Times(lim.rate, hi - lo)
  {
    if cs != [] {
      AdvanceWithin(b, lim, cs, lo, hi);
      TB.RateCapSum(b, lim, cs);
      var adv := TB.Advance(b, lim, cs);
      TimesAdd(lim.rate, adv, hi - lo - adv);
    }
  }

  // ---------------------------------------------------------------- the bound

  function Flows(ps: seq<Packet>): set<Option<FlowKey>> {
    set i | 0 <= i < |ps| :: ps[i].flow
  }

  function Intervals(ps: seq<Packet>): set<nat> {
    set i | 0 <= i < |ps| :: DecayIdx(ps[i].now) as nat
  }

  lemma {:induction false} KeysBounded(ps: seq<Packet>, os: seq<Outcome>)
    requires |ps| == |os| && Parseable(ps)
    ensures |Tally.Keys(MouseItems(ps, os))| <= Times(|Intervals(ps)|, |Flows(ps)|)
  {
    var keys := Tally.Keys(MouseItems(ps, os));
    var tagged := set key | key in keys :: (Some(key.0), key.1);
    TaggedSameSize(keys);
    forall p | p in tagged ensures p.0 in Flows(ps) && p.1 in Intervals(ps) {
      var key :| key in keys && p == (Some(key.0), key.1);
      var i :| 0 <= i < |ps| && MouseItems(ps, os)[i].key == key;
      assert ps[i].flow == p.0;
    }
    Tally.PairsBounded(tagged, Flows(ps), Intervals(ps));
  }

  lemma {:induction false} TaggedSameSize(keys: set<FlowTick>)
    ensures |set key | key in keys :: (Some(key.0), key.1)| == |keys|
    decreases |keys|
  {
    if keys != {} {
      var k :| k in keys;
      TaggedSameSize(keys - {k});
      assert (set key | key in keys :: (Some(key.0), key.1)) ==
             (set key | key in keys - {k} :: (Some(key.0), key.1)) + {(Some(k.0), k.1)};
    }
  }

  lemma {:induction false} TotalWithin(ps: seq<Packet>, os: seq<Outcome>, bound: nat)
    requires |ps| == |os| && Parseable(ps) && MiceWithin(ps, os, bound)
    ensures Tally.Sum(MouseItems(ps, os)) <= Times(bound, Times(|Intervals(ps)|, |Flows(ps)|))
  {
    var items := MouseItems(ps, os);
    var n, m := |Tally.Keys(items)|, Times(|Intervals(ps)|, |Flows(ps)|);
    Tally.SumBounded(items, bound);
    KeysBounded(ps, os);
    TimesAdd(bound, n, m - n);
  }

  lemma {:induction false} MiceTotalBounded(hash: Hash, dir: nat, s: Lane, ps: seq<Packet>)
    requires ValidLane(s) && s.cfg.rate != 0 && Parseable(ps) && Ordered(ps) && NoWrap(hash, dir, s, ps)
    ensures MiceTotal(hash, dir, s, ps) <= Times(s.cfg.hh, Times(|Intervals(ps)|, |Flows(ps)|))
  {
    MiceBounded(hash, dir, s, ps);
    TotalWithin(ps, LaneOutcomes(hash, dir, s, ps), s.cfg.hh);
  }

  lemma {:induction false} Combine(passed: nat, mice: nat, heavy: nat, miceBound: nat, burst: nat, credit: nat)
    requires passed == mice + heavy
    requires mice <= miceBound
    requires TB.NS_PER_S * heavy <= TB.NS_PER_S * burst + credit
    ensures TB.NS_PER_S * passed <= TB.NS_PER_S * (miceBound + burst) + credit
  {
  }

  lemma {:induction false} TwoStageSum(hash: Hash, dir: nat, s: Lane, ps: seq<Packet>)
    requires ValidLane(s) && s.cfg.rate != 0 && Parseable(ps) && Ordered(ps) && ps != []
    requires NoWrap(hash, dir, s, ps)
    ensures TB.NS_PER_S * PassedTotal(hash, dir, s, ps) <=
            TB.NS_PER_S * (Times(s.cfg.hh, Times(|Intervals(ps)|, |Flows(ps)|)) + s.cfg.burst)
            + Times(s.cfg.rate, Span(ps))
  {
    var passed, mice, heavy := PassedTotal(hash, dir, s, ps), MiceTotal(hash, dir, s, ps), HeavyTotal(hash, dir, s, ps);
    var bound, credit := Times(s.cfg.hh, Times(|Intervals(ps)|, |Flows(ps)|)), Times(s.cfg.rate, Span(ps));
    assert passed == mice + heavy by { PassedSplits(hash, dir, s, ps); }
    assert mice <= bound by { MiceTotalBounded(hash, dir, s, ps); }
    assert TB.NS_PER_S * heavy <= TB.NS_PER_S * s.cfg.burst + credit by { HeavyBounded(hash, dir, s, ps); }
    Combine(passed, mice, heavy, bound, s.cfg.burst, credit);
  }

  lemma {:induction false} MiceProduct(hh: nat, flows: nat, intervals: nat)
    ensures Times(hh, Times(intervals, flows)) == flows * intervals * hh
  {
    TimesIsProduct(intervals, flows);
    TimesIsProduct(hh, Times(intervals, flows));
    assert hh * (intervals * flows) == flows * intervals * hh;
  }

  /**
   Two-stage throughput bound. Over a run in one direction with ordered clocks, a nonzero rate,
   parseable packets and no cell wrap, from any state: bytes counted as passed are at most
   flows * intervals * threshold + burst + rate * duration. Stated over the denominator 10^9.
   */
  lemma {:induction false} TwoStageBound(hash: Hash, dir: nat, s: Lane, ps: seq<Packet>)
    requires ValidLane(s) && s.cfg.rate != 0 && Parseable(ps) && Ordered(ps) && ps != []
    requires NoWrap(hash, dir, s, ps)
    ensures TB.NS_PER_S * PassedBytes(ps, LaneOutcomes(hash, dir, s, ps)) <=
            TB.NS_PER_S * (|Flows(ps)| * |Intervals(ps)| * s.cfg.hh + s.cfg.burst) + s.cfg.rate * Span(ps)
  {
    TwoStageSum(hash, dir, s, ps);
    MiceProduct(s.cfg.hh, |Flows(ps)|, |Intervals(ps)|);
    TimesIsProduct(s.cfg.rate, Span(ps));
  }

  // ---------------------------------------------------------------- when no cell wraps

  lemma {:induction false} CellsGrowSlowly(hash: Hash, dir: nat, s: Lane, ps: seq<Packet>, i: nat)
    requires ValidLane(s) && i < HALF
    ensures LaneRun(hash, dir, s, ps).cms[i].bytes <= s.cms[i].bytes + BytesSent(SamplesOf(ps))
  {
    if ps != [] {
      CellsGrowSlowly(hash, dir, s, ps[..|ps| - 1], i);
      CellGrows(hash, LaneRun(hash, dir, s, ps[..|ps| - 1]), ps[|ps| - 1], i);
    }
  }

  lemma {:induction false} CellGrows(hash: Hash, s: Lane, p: Packet, i: nat)
    requires ValidLane(s) && i < HALF
    ensures LaneCms(hash, s, p)[i].bytes <= s.cms[i].bytes + p.len
  {
  }

  lemma {:induction false} SentSnoc(ps: seq<Packet>)
    requires ps != [] && ps[|ps| - 1].flow.Some?
    ensures BytesSent(SamplesOf(ps)) == BytesSent(SamplesOf(ps[..|ps| - 1])) + ps[|ps| - 1].len
  {
    var xs := SamplesOf(ps);
    assert xs[..|xs| - 1] == SamplesOf(ps[..|ps| - 1]);
  }

  /** Every cell can take this many bytes more. */
  ghost predicate RoomFor(table: seq<Cell>, bytes: nat) {
    forall i :: 0 <= i < |table| ==> table[i].bytes + bytes < TWO64
  }

  lemma {:induction false} RoomFits(hash: Hash, dir: nat, s: Lane, front: seq<Packet>, p: Packet)
    requires ValidLane(s) && p.flow.Some? && RoomFor(s.cms, BytesSent(SamplesOf(front)) + p.len)
    ensures CellsFit(hash, LaneRun(hash, dir, s, front), p)
  {
    var before := LaneRun(hash, dir, s, front);
    forall row | 0 <= row < CMS_DEPTH ensures Fits(before.cms[Slot(hash, 0, p.flow.value, row)], TouchOf(p)) {
      CellsGrowSlowly(hash, dir, s, front, Slot(hash, 0, p.flow.value, row));
    }
  }

  /** A check on the traffic and the starting table: with room for the whole run, no cell wraps. */
  lemma {:induction false} RoomNeverWraps(hash: Hash, dir: nat, s: Lane, ps: seq<Packet>)
    requires ValidLane(s) && Parseable(ps) && RoomFor(s.cms, BytesSent(SamplesOf(ps)))
    ensures NoWrap(hash, dir, s, ps)
  {
    if ps != [] {
      var front, p := ps[..|ps| - 1], ps[|ps| - 1];
      SentSnoc(ps);
      assert RoomFor(s.cms, BytesSent(SamplesOf(front)));
      assert NoWrap(hash, dir, s, front) by { RoomNeverWraps(hash, dir, s, front); }
      assert CellsFit(hash, LaneRun(hash, dir, s, front), p) by { RoomFits(hash, dir, s, front, p); }
    }
  }
}
