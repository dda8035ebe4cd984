/** Heavy hitters are caught: the sketch theorem carried to the classifier. */
module Detection {
  import opened Words
  import opened Flow
  import opened Decay
  import opened Sketch
  import opened Trust
  import opened Dataplane

  function SamplesOf(ps: seq<Packet>): seq<Sample> {
    if ps == [] then [] else
      var rest, p := SamplesOf(ps[..|ps| - 1]), ps[|ps| - 1];
      if p.flow.Some? then rest + [Sample(p.flow.value, TouchOf(p))] else rest
  }

  lemma {:induction false} SketchSnoc(hash: Hash, table: seq<Cell>, xs: seq<Sample>, x: Sample)
    ensures SketchRun(hash, table, xs + [x]) == CmsAfter(hash, 0, x.key, x.touch, SketchRun(hash, table, xs))
  {
    assert (xs + [x])[..|xs|] == xs;
  }

  /** The lane's sketch half is the sketch run on the parseable packets. */
  lemma {:induction false} LaneSketchRun(hash: Hash, dir: nat, s: Lane, ps: seq<Packet>)
    requires ValidLane(s) && s.cfg.rate != 0
    ensures LaneRun(hash, dir, s, ps).cms == SketchRun(hash, s.cms, SamplesOf(ps))
  {
    if ps != [] {
      var front, p := ps[..|ps| - 1], ps[|ps| - 1];
      LaneSketchRun(hash, dir, s, front);
      if p.flow.Some? {
        SketchSnoc(hash, s.cms, SamplesOf(front), Sample(p.flow.value, TouchOf(p)));
      }
    }
  }

  /** Decay intervals by which the packet is behind the latest of the cells it touches. */
  function Lateness(hash: Hash, s: Lane, p: Packet): nat
    requires ValidLane(s) && p.flow.Some?
  {
    Behind(hash, p.flow.value, s.cms, DecayIdx(p.now))
  }

  lemma {:induction false} HeavyWhenAbove(hash: Hash, dir: nat, s: Lane, p: Packet, own: nat)
    requires ValidLane(s) && Sampled(s.cfg, p)
    requires s.cfg.hh < own <= Estimate(hash, 0, p.flow.value, LaneCms(hash, s, p))
    ensures Heavy(LaneOutcome(hash, dir, s, p))
  {
  }

  /**
   From an empty sketch, after any history of any flows on unordered clocks: a packet whose flow's
   decayed byte count, aged by as many intervals as the packet is late, exceeds the threshold is sent
   to the bucket. A packet that is not late needs only the count itself to exceed the threshold.
   */
  lemma {:induction false} HeavyFlowsAreCaught(hash: Hash, dir: nat, s: Lane, ps: seq<Packet>, p: Packet)
    requires ValidLane(s) && s.cfg.rate != 0 && s.cms == EmptySketch() && p.flow.Some?
    requires NoCellWraps(hash, SamplesOf(ps + [p]), p.flow.value)
    requires ShiftRight(OwnCell(SamplesOf(ps + [p]), p.flow.value).bytes, Lateness(hash, LaneRun(hash, dir, s, ps), p)) > s.cfg.hh
    ensures Heavy(LaneOutcome(hash, dir, LaneRun(hash, dir, s, ps), p))
  {
    var before, k := LaneRun(hash, dir, s, ps), p.flow.value;
    assert (ps + [p])[..|ps|] == ps;
    var x, xs := Sample(k, TouchOf(p)), SamplesOf(ps);
    assert SamplesOf(ps + [p]) == xs + [x];
    assert (xs + [x])[..|xs + [x]| - 1] == xs;
    LaneSketchRun(hash, dir, s, ps);
    SketchSnoc(hash, s.cms, xs, x);
    LatePacketCovered(hash, xs + [x], k);
    HeavyWhenAbove(hash, dir, before, p, ShiftRight(OwnCell(xs + [x], k).bytes, Lateness(hash, before, p)));
  }

  // ---------------------------------------------------------------- exactly when heavy flows are caught

  /** A packet as the program can receive it: a flow the dissector returns, and at least its headers. */
  ghost predicate RealPacket(p: Packet) {
    p.flow.Some? ==> IsFlow(p.flow.value) && HeaderLen(p.flow.value) <= p.len
  }

  ghost predicate RealPackets(ps: seq<Packet>) {
    forall i :: 0 <= i < |ps| ==> RealPacket(ps[i])
  }

  /**
   After the run, a packet of flow k arrives at decay index i, the flow's cells are at clock c, and the
   flow's own decayed byte count, the packet included, is above the threshold.
   */
  ghost predicate DueAt(hash: Hash, dir: nat, s: Lane, ps: seq<Packet>, p: Packet, k: FlowKey, c: u32, i: u32)
    requires ValidLane(s)
  {
    && RealPackets(ps) && RealPacket(p) && p.flow == Some(k) && DecayIdx(p.now) == i
    && RowClock(hash, k, LaneRun(hash, dir, s, ps).cms, CMS_DEPTH) == c
    && NothingWraps(hash, SamplesOf(ps + [p]), k)
    && OwnCell(SamplesOf(ps + [p]), k).bytes > s.cfg.hh
  }

  /** Every such packet goes to the bucket. */
  ghost predicate Caught(hash: Hash, dir: nat, s: Lane, k: FlowKey, c: u32, i: u32)
    requires ValidLane(s)
  {
    forall ps, p :: DueAt(hash, dir, s, ps, p, k, c, i) ==> Heavy(LaneOutcome(hash, dir, LaneRun(hash, dir, s, ps), p))
  }

  lemma {:induction false} SamplesSnoc(ps: seq<Packet>, p: Packet)
    requires p.flow.Some?
    ensures SamplesOf(ps + [p]) == SamplesOf(ps) + [Sample(p.flow.value, TouchOf(p))]
  {
    assert (ps + [p])[..|ps|] == ps;
  }

  lemma {:induction false} RealSamples(ps: seq<Packet>)
    requires RealPackets(ps)
    ensures RealRun(SamplesOf(ps))
  {
    if ps != [] {
      var front, p := ps[..|ps| - 1], ps[|ps| - 1];
      RealSamples(front);
      assert RealPacket(p);
      if p.flow.Some? {
        RealSnoc(SamplesOf(front), Sample(p.flow.value, TouchOf(p)));
      }
    }
  }

  /** The packets of a run of samples, stamped at the start of their intervals. */
  function PacketsOf(xs: seq<Sample>): (ps: seq<Packet>)
    requires RealRun(xs)
    ensures |ps| == |xs|
  {
    seq(|xs|, i requires 0 <= i < |xs| => PacketOf(xs[i]))
  }

  function PacketOf(x: Sample): Packet
    requires Receivable(x)
  {
    Packet(Some(x.key), x.touch.bytes, x.touch.idx * CMS_DECAY_INTERVAL_NS, false, 0)
  }

  lemma {:induction false} SampleOfPacket(x: Sample)
    requires Receivable(x)
    ensures TouchOf(PacketOf(x)) == x.touch && RealPacket(PacketOf(x))
  {
    QuotientIs(x.touch.idx * CMS_DECAY_INTERVAL_NS, CMS_DECAY_INTERVAL_NS, x.touch.idx);
  }

  lemma {:induction false} SamplesOfPackets(xs: seq<Sample>)
    requires RealRun(xs)
    ensures SamplesOf(PacketsOf(xs)) == xs && RealPackets(PacketsOf(xs))
  {
    if xs != [] {
      var front, x := xs[..|xs| - 1], xs[|xs| - 1];
      SamplesOfPackets(front);
      assert PacketsOf(xs) == PacketsOf(front) + [PacketOf(x)];
      SampleOfPacket(x);
      SamplesSnoc(PacketsOf(front), PacketOf(x));
    }
  }

  /** A parseable packet goes to the bucket exactly when its estimate, as a sample, is above the threshold. */
  lemma {:induction false} HeavyIffAbove(hash: Hash, dir: nat, s: Lane, ps: seq<Packet>, p: Packet)
    requires ValidLane(s) && s.cfg.rate != 0 && s.cms == EmptySketch() && p.flow.Some?
    ensures Heavy(LaneOutcome(hash, dir, LaneRun(hash, dir, s, ps), p)) <==>
            EstimateAfter(hash, SamplesOf(ps + [p]), p.flow.value) > s.cfg.hh
    ensures LaneOutcome(hash, dir, LaneRun(hash, dir, s, ps), p).Mouse? <==>
            EstimateAfter(hash, SamplesOf(ps + [p]), p.flow.value) <= s.cfg.hh
  {
    SamplesSnoc(ps, p);
    LaneSketchRun(hash, dir, s, ps);
    SketchSnoc(hash, s.cms, SamplesOf(ps), Sample(p.flow.value, TouchOf(p)));
  }

  lemma {:induction false} DueIsDue(hash: Hash, dir: nat, s: Lane, ps: seq<Packet>, p: Packet, k: FlowKey, c: u32, i: u32)
    requires ValidLane(s) && s.cfg.rate != 0 && s.cms == EmptySketch() && DueAt(hash, dir, s, ps, p, k, c, i)
    ensures Due(hash, SamplesOf(ps + [p]), k, c, i, s.cfg.hh)
  {
    var xs, x := SamplesOf(ps), Sample(k, TouchOf(p));
    assert SamplesOf(ps + [p]) == xs + [x] by { SamplesSnoc(ps, p); }
    assert RealRun(xs + [x]) by {
      RealSamples(ps);
      RealSnoc(xs, x);
    }
    assert EndsWith(hash, xs + [x], k, c, i) by {
      LaneSketchRun(hash, dir, s, ps);
      EndsSnoc(hash, xs, k, c, TouchOf(p));
    }
  }

  /** A run of samples as a run of the classifier. */
  lemma {:induction false} DueAsPackets(hash: Hash, dir: nat, s: Lane, xs: seq<Sample>, k: FlowKey, c: u32, i: u32)
    returns (ps: seq<Packet>, p: Packet)
    requires ValidLane(s) && s.cfg.rate != 0 && s.cms == EmptySketch() && Due(hash, xs, k, c, i, s.cfg.hh)
    ensures DueAt(hash, dir, s, ps, p, k, c, i) && SamplesOf(ps + [p]) == xs
  {
    var front, x := xs[..|xs| - 1], xs[|xs| - 1];
    assert xs == front + [x];
    RealSnoc(front, x);
    ps, p := PacketsOf(front), PacketOf(x);
    SamplesOfPackets(front);
    SampleOfPacket(x);
    SamplesSnoc(ps, p);
    LaneSketchRun(hash, dir, s, ps);
  }

  /**
   "A flow above the threshold always reaches the bucket", exactly. From an empty sketch, with the flow's
   cells at clock c: every packet of a flow above the threshold that arrives at index i is caught if and
   only if it is not behind its cells, or no flow that shares a cell can hide bytes from this threshold.
   From a threshold of 163 bytes on, every flow that shares a cell can.
   */
  lemma {:induction false} CaughtExactly(hash: Hash, dir: nat, s: Lane, k: FlowKey, c: u32, i: u32)
    requires ValidLane(s) && s.cfg.rate != 0 && s.cms == EmptySketch()
    requires IsFlow(k) && c < IDX_LIMIT && s.cfg.hh < TWO64 / 2
    ensures Caught(hash, dir, s, k, c, i) <==> !Hidden(hash, k, c, i, s.cfg.hh)
    ensures 163 <= s.cfg.hh ==> (Caught(hash, dir, s, k, c, i) <==> c <= i || !Collides(hash, k))
  {
    var hh := s.cfg.hh;
    AboveExactly(hash, k, c, i, hh);
    if Hidden(hash, k, c, i, hh) {
      var xs :| Due(hash, xs, k, c, i, hh) && EstimateAfter(hash, xs, k) <= hh;
      var ps, p := DueAsPackets(hash, dir, s, xs, k, c, i);
      HeavyIffAbove(hash, dir, s, ps, p);
    } else {
      forall ps, p | DueAt(hash, dir, s, ps, p, k, c, i)
        ensures Heavy(LaneOutcome(hash, dir, LaneRun(hash, dir, s, ps), p))
      {
        DueIsDue(hash, dir, s, ps, p, k, c, i);
        HeavyIffAbove(hash, dir, s, ps, p);
      }
    }
    if 163 <= hh {
      HiddenAboveHeaders(hash, k, c, i, hh);
    }
  }

  /**
   The failing input: for any two flows that share a cell, any threshold from 163 bytes and any lateness,
   real packets after which a flow above the threshold is passed as a mouse.
   */
  lemma {:induction false} LateHeavyFlowMissed(hash: Hash, dir: nat, s: Lane, k: FlowKey, k': FlowKey, row: nat, c: u32, i: u32)
    returns (ps: seq<Packet>, p: Packet)
    requires ValidLane(s) && s.cfg.rate != 0 && s.cms == EmptySketch()
    requires IsFlow(k) && Shares(hash, k, k', row) && i < c < IDX_LIMIT && 163 <= s.cfg.hh < TWO64 / 2
    ensures DueAt(hash, dir, s, ps, p, k, c, i)
    ensures LaneOutcome(hash, dir, LaneRun(hash, dir, s, ps), p) == Mouse
  {
    var hh := s.cfg.hh;
    HiddenAboveHeaders(hash, k, c, i, hh);
    AboveExactly(hash, k, c, i, hh);
    var xs :| Due(hash, xs, k, c, i, hh) && EstimateAfter(hash, xs, k) <= hh;
    ps, p := DueAsPackets(hash, dir, s, xs, k, c, i);
    HeavyIffAbove(hash, dir, s, ps, p);
  }

  /**
   Light flows pass: a packet whose flow's own decayed byte count is within the threshold is a mouse, as long
   as the flow is alone in its column in one of the four rows, whatever the other three hold.
   */
  lemma {:induction false} LightFlowsPass(hash: Hash, dir: nat, s: Lane, ps: seq<Packet>, p: Packet, row: nat)
    requires ValidLane(s) && s.cfg.rate != 0 && s.cms == EmptySketch() && p.flow.Some? && row < 4
    requires AloneInRow(hash, SamplesOf(ps + [p]), p.flow.value, row)
    requires OwnCell(SamplesOf(ps + [p]), p.flow.value).bytes <= s.cfg.hh
    ensures LaneOutcome(hash, dir, LaneRun(hash, dir, s, ps), p) == Mouse
  {
    OneFreeRowIsEnough(hash, SamplesOf(ps + [p]), p.flow.value, row);
    HeavyIffAbove(hash, dir, s, ps, p);
  }

  /** What is not limited or not parsed passes unstamped and moves neither bucket, cursor nor sketch. */
  lemma {:induction false} UnaccountedPasses(hash: Hash, dir: nat, s: Lane, p: Packet)
    requires ValidLane(s) && (s.cfg.rate == 0 || p.flow.None?)
    ensures var o, after := LaneOutcome(hash, dir, s, p), LaneStep(hash, dir, s, p);
            && Verdict(o) == TC_ACT_OK && Tstamp(o) == None
            && after.entry == s.entry && after.cms == s.cms
            && after.stats == Bump(s.stats, 0, p.cpu)
  {
    var o := LaneOutcome(hash, dir, s, p);
    assert StatSlots(o)[..|StatSlots(o)| - 1] == [];
    assert BumpAll(s.stats, 0, [], p.cpu) == s.stats;
  }

  /** What the bucket refuses is dropped only if it cannot be marked, and marked unless it is paced. */
  lemma {:induction false} RefusedAndMarkable(hash: Hash, dir: nat, s: Lane, p: Packet)
    requires ValidLane(s) && Throttled(LaneOutcome(hash, dir, s, p))
    ensures var o := LaneOutcome(hash, dir, s, p);
            && (p.canMark ==> Verdict(o) == TC_ACT_OK)
            && (!(dir == 1 && s.cfg.edt != 0) ==> o == (if p.canMark then EcnMarked else Dropped))
  {
  }
}

/** Pacing over runs of the classifier: the cursor and the stamps follow the over-rate packets. */
module EgressPacing {
  import opened Words
  import opened Flow
  import opened Sketch
  import opened Dataplane
  import Pacing

  /** The over-rate packets of a run, as jobs on the wire, however they were disposed of. */
  ghost function OverRateJobs(hash: Hash, dir: nat, s: Lane, ps: seq<Packet>): seq<Pacing.Job>
    requires ValidLane(s) && s.cfg.rate > 0
  {
    if ps == [] then [] else
      var front, p := ps[..|ps| - 1], ps[|ps| - 1];
      var rest := OverRateJobs(hash, dir, s, front);
      if Throttled(LaneOutcome(hash, dir, LaneRun(hash, dir, s, front), p)) then rest + [JobOf(s.cfg, p)] else rest
  }

  /** The departure times written by a run. */
  ghost function Releases(hash: Hash, dir: nat, s: Lane, ps: seq<Packet>): seq<u64>
    requires ValidLane(s)
  {
    if ps == [] then [] else
      var front, rest := ps[..|ps| - 1], Releases(hash, dir, s, ps[..|ps| - 1]);
      match Tstamp(LaneOutcome(hash, dir, LaneRun(hash, dir, s, front), ps[|ps| - 1]))
      case Some(t) => rest + [t]
      case None => rest
  }

  function ReleaseTimes(ss: seq<Pacing.Stamp>): (rs: seq<u64>)
    ensures |rs| == |ss|
  {
    seq(|ss|, i requires 0 <= i < |ss| => ss[i].release)
  }

  lemma {:induction false} PacedOutcome(hash: Hash, dir: nat, s: Lane, p: Packet)
    requires ValidLane(s) && Paces(dir, s.cfg)
    ensures var o, j := LaneOutcome(hash, dir, s, p), JobOf(s.cfg, p);
            && LaneStep(hash, dir, s, p).entry.next ==
               (if Throttled(o) then Pacing.Release(s.entry.next, j) else s.entry.next)
            && Tstamp(o) ==
               (if Throttled(o) && Pacing.IsStamped(s.entry.next, j) then Some(Pacing.Release(s.entry.next, j)) else None)
  {
  }

  lemma {:induction false} CursorSnoc(start: u64, js: seq<Pacing.Job>, j: Pacing.Job)
    ensures Pacing.Cursor(start, js + [j]) == Pacing.Release(Pacing.Cursor(start, js), j)
    ensures ReleaseTimes(Pacing.Stamps(start, js + [j])) ==
            ReleaseTimes(Pacing.Stamps(start, js)) +
            if Pacing.IsStamped(Pacing.Cursor(start, js), j) then [Pacing.Release(Pacing.Cursor(start, js), j)] else []
  {
    assert (js + [j])[..|js|] == js;
  }

  /**
   On a paced lane the cursor is the debt cursor run over every over-rate packet, marked and dropped
   ones included, and the time stamps written are exactly the stamps of that run.
   */
  lemma {:induction false} LaneCursorRun(hash: Hash, dir: nat, s: Lane, ps: seq<Packet>)
    requires ValidLane(s) && Paces(dir, s.cfg)
    ensures LaneRun(hash, dir, s, ps).entry.next == Pacing.Cursor(s.entry.next, OverRateJobs(hash, dir, s, ps))
    ensures Releases(hash, dir, s, ps) ==
            ReleaseTimes(Pacing.Stamps(s.entry.next, OverRateJobs(hash, dir, s, ps)))
  {
    if ps != [] {
      var front, p := ps[..|ps| - 1], ps[|ps| - 1];
      LaneCursorRun(hash, dir, s, front);
      var before := LaneRun(hash, dir, s, front);
      PacedOutcome(hash, dir, before, p);
      if Throttled(LaneOutcome(hash, dir, before, p)) {
        CursorSnoc(s.entry.next, OverRateJobs(hash, dir, s, front), JobOf(s.cfg, p));
      }
    }
  }

  /** The packets a run stamps, with their spacings. */
  ghost function LaneStamps(hash: Hash, dir: nat, s: Lane, ps: seq<Packet>): seq<Pacing.Stamp>
    requires ValidLane(s) && s.cfg.rate > 0
  {
    if ps == [] then [] else
      var front, p := ps[..|ps| - 1], ps[|ps| - 1];
      var rest := LaneStamps(hash, dir, s, front);
      match Tstamp(LaneOutcome(hash, dir, LaneRun(hash, dir, s, front), p))
      case Some(t) => rest + [Pacing.Stamp(p.now, Pacing.AddNs(p.len, s.cfg.rate), t)]
      case None => rest
  }

  lemma {:induction false} StampsSnoc(start: u64, js: seq<Pacing.Job>, j: Pacing.Job)
    ensures Pacing.Stamps(start, js + [j]) ==
            Pacing.Stamps(start, js) +
            if Pacing.IsStamped(Pacing.Cursor(start, js), j)
            then [Pacing.Stamp(j.now, j.add, Pacing.Release(Pacing.Cursor(start, js), j))] else []
  {
    assert (js + [j])[..|js|] == js;
  }

  /** They are the stamps of the cursor run over the over-rate packets. */
  lemma {:induction false} LaneStampsRun(hash: Hash, dir: nat, s: Lane, ps: seq<Packet>)
    requires ValidLane(s) && Paces(dir, s.cfg)
    ensures LaneStamps(hash, dir, s, ps) == Pacing.Stamps(s.entry.next, OverRateJobs(hash, dir, s, ps))
  {
    if ps != [] {
      var front, p := ps[..|ps| - 1], ps[|ps| - 1];
      var before := LaneRun(hash, dir, s, front);
      LaneStampsRun(hash, dir, s, front);
      LaneCursorRun(hash, dir, s, front);
      PacedOutcome(hash, dir, before, p);
      if Throttled(LaneOutcome(hash, dir, before, p)) {
        StampsSnoc(s.entry.next, OverRateJobs(hash, dir, s, front), JobOf(s.cfg, p));
      }
    }
  }

  /**
   The fq backlog of the classifier: over any run of a paced direction whose cursor fits in 64 bits, at
   any time at or after the clock of every stamped packet, the spacings of the packets fq still holds,
   without the earliest, add up to less than 50 ms.
   */
  lemma {:induction false} LaneBacklogBounded(hash: Hash, dir: nat, s: Lane, ps: seq<Packet>, t: nat)
    requires ValidLane(s) && Paces(dir, s.cfg)
    requires Pacing.Exact(s.entry.next, OverRateJobs(hash, dir, s, ps)) < TWO64
    requires forall i :: 0 <= i < |LaneStamps(hash, dir, s, ps)| ==> LaneStamps(hash, dir, s, ps)[i].now <= t
    ensures var held := Pacing.Held(LaneStamps(hash, dir, s, ps), t);
            held != [] ==> Pacing.SumAdds(held[1..]) < Pacing.MAX_EDT_DELAY_NS
  {
    LaneStampsRun(hash, dir, s, ps);
    Pacing.BacklogBounded(s.entry.next, OverRateJobs(hash, dir, s, ps), t);
  }

  /** Nothing is stamped on a lane that does not pace. */
  lemma {:induction false} UnpacedNeverStamps(hash: Hash, dir: nat, s: Lane, ps: seq<Packet>)
    requires ValidLane(s) && !Paces(dir, s.cfg)
    ensures Releases(hash, dir, s, ps) == []
  {
    if ps != [] {
      UnpacedNeverStamps(hash, dir, s, ps[..|ps| - 1]);
      UnpacedOutcome(hash, dir, LaneRun(hash, dir, s, ps[..|ps| - 1]), ps[|ps| - 1]);
    }
  }

  lemma {:induction false} UnpacedOutcome(hash: Hash, dir: nat, s: Lane, p: Packet)
    requires ValidLane(s) && !Paces(dir, s.cfg)
    ensures Tstamp(LaneOutcome(hash, dir, s, p)).None?
  {
  }

  // ---------------------------------------------------------------- pacing in bytes and rate

  lemma {:induction false} SpacingQuotient(bytes: u64, rate: u64)
    requires 0 < rate && bytes <= 2_305_843_009
    ensures Pacing.AddNs(bytes, rate) == 8_000_000_000 * bytes / rate
  {
    Pacing.SpacingIs(bytes, rate);
    var add := Pacing.AddNs(bytes, rate);
    assert (add + 1) * rate == add * rate + rate;
    QuotientIs(8_000_000_000 * bytes, rate, add);
  }

  /** Where an over-rate packet on paced egress falls due, and what happens to it. */
  ghost predicate FallsDue(hash: Hash, s: Lane, p: Packet, due: nat)
    requires ValidLane(s)
  {
    && LaneStep(hash, 1, s, p).entry.next == due
    && LaneOutcome(hash, 1, s, p) ==
       if due <= p.now + 50_000_000 then EdtDelayed(due) else if p.canMark then EcnMarked else Dropped
  }

  lemma {:induction false} FallsDueAfter(hash: Hash, s: Lane, p: Packet, add: nat)
    requires ValidLane(s) && Paces(1, s.cfg) && Pacing.AddNs(p.len, s.cfg.rate) == add
    requires Throttled(LaneOutcome(hash, 1, s, p))
    requires Max(s.entry.next, p.now) + add < TWO64
    ensures FallsDue(hash, s, p, Max(s.entry.next, p.now) + add)
  {
    PacedOutcome(hash, 1, s, p);
  }

  /**
   An over-rate packet on paced egress, in numbers: it falls due 8e9 * bytes / rate nanoseconds after the
   later of its own clock and the cursor, the cursor moves there in any case, and it is stamped with that
   time if it is at most 50 ms away, else marked or dropped.
   */
  lemma {:induction false} OverRateEgress(hash: Hash, s: Lane, p: Packet)
    requires ValidLane(s) && s.cfg.rate != 0 && s.cfg.edt != 0 && p.len <= 2_305_843_009
    requires Throttled(LaneOutcome(hash, 1, s, p))
    requires Max(s.entry.next, p.now) + 8_000_000_000 * p.len / s.cfg.rate < TWO64
    ensures FallsDue(hash, s, p, Max(s.entry.next, p.now) + 8_000_000_000 * p.len / s.cfg.rate)
  {
    SpacingQuotient(p.len, s.cfg.rate);
    FallsDueAfter(hash, s, p, Pacing.AddNs(p.len, s.cfg.rate));
  }

  /** The time stamp a run's last packet gets comes last in the stamps. */
  lemma {:induction false} LastStamp(hash: Hash, dir: nat, s: Lane, ps: seq<Packet>, p: Packet, t: u64)
    requires ValidLane(s) && s.cfg.rate > 0
    requires Tstamp(LaneOutcome(hash, dir, LaneRun(hash, dir, s, ps), p)) == Some(t)
    ensures LaneStamps(hash, dir, s, ps + [p]) ==
            LaneStamps(hash, dir, s, ps) + [Pacing.Stamp(p.now, Pacing.AddNs(p.len, s.cfg.rate), t)]
  {
    assert (ps + [p])[..|ps|] == ps;
  }

  lemma {:induction false} ReleasesAreStamps(hash: Hash, dir: nat, s: Lane, ps: seq<Packet>)
    requires ValidLane(s) && s.cfg.rate > 0
    ensures Releases(hash, dir, s, ps) == ReleaseTimes(LaneStamps(hash, dir, s, ps))
  {
    if ps != [] {
      ReleasesAreStamps(hash, dir, s, ps[..|ps| - 1]);
    }
  }

  /** The later departure keeps its distance at this rate, to the nanosecond. */
  predicate KeepsRate(before: nat, t: nat, rate: nat, bytes: nat) {
    before * rate + 8_000_000_000 * bytes < t * rate + rate
  }

  lemma {:induction false} SpacingKeepsRate(before: nat, t: nat, bytes: u64, rate: u64)
    requires 0 < rate && bytes <= 2_305_843_009 && before + Pacing.AddNs(bytes, rate) <= t
    ensures KeepsRate(before, t, rate, bytes)
  {
    var add := Pacing.AddNs(bytes, rate);
    Pacing.SpacingIs(bytes, rate);
    MulLe(before + add, t, rate);
    assert (before + add) * rate == before * rate + add * rate;
    assert (add + 1) * rate == add * rate + rate;
  }

  lemma {:induction false} LastIsApart(ss: seq<Pacing.Stamp>, x: Pacing.Stamp)
    requires Pacing.Separated(ss + [x]) && Pacing.Bounded(ss + [x])
    ensures x.now <= x.release <= x.now + 50_000_000
    ensures forall i :: 0 <= i < |ss| ==> ss[i].release + x.add <= x.release
  {
    var all := ss + [x];
    assert all[|ss|] == x;
    forall i | 0 <= i < |ss| ensures ss[i].release + x.add <= x.release {
      assert all[i] == ss[i];
    }
  }

  /** A stamp lies within 50 ms of its packet, and after every earlier release by the packet's spacing. */
  lemma {:induction false} StampsKeepSpacing(hash: Hash, s: Lane, ps: seq<Packet>, p: Packet, t: u64)
    requires ValidLane(s) && Paces(1, s.cfg)
    requires Pacing.Exact(s.entry.next, OverRateJobs(hash, 1, s, ps + [p])) < TWO64
    requires Tstamp(LaneOutcome(hash, 1, LaneRun(hash, 1, s, ps), p)) == Some(t)
    ensures p.now <= t <= p.now + 50_000_000
    ensures forall i :: 0 <= i < |Releases(hash, 1, s, ps)| ==>
              Releases(hash, 1, s, ps)[i] + Pacing.AddNs(p.len, s.cfg.rate) <= t
  {
    var before, x := LaneStamps(hash, 1, s, ps), Pacing.Stamp(p.now, Pacing.AddNs(p.len, s.cfg.rate), t);
    assert Pacing.Separated(before + [x]) && Pacing.Bounded(before + [x]) by {
      LastStamp(hash, 1, s, ps, p, t);
      LaneStampsRun(hash, 1, s, ps + [p]);
      Pacing.StampsSeparated(s.entry.next, OverRateJobs(hash, 1, s, ps + [p]));
    }
    LastIsApart(before, x);
    assert Releases(hash, 1, s, ps) == ReleaseTimes(before) by { ReleasesAreStamps(hash, 1, s, ps); }
  }

  /**
   Stamped departures keep the rate: a release comes after every earlier release of the run by at least the
   packet's 8e9 * bytes, divided by the rate, less one nanosecond.
   */
  lemma {:induction false} ReleasesKeepRate(hash: Hash, s: Lane, ps: seq<Packet>, p: Packet, t: u64, i: nat)
    requires ValidLane(s) && s.cfg.rate > 0 && s.cfg.edt != 0 && p.len <= 2_305_843_009
    requires Pacing.Exact(s.entry.next, OverRateJobs(hash, 1, s, ps + [p])) < TWO64
    requires Tstamp(LaneOutcome(hash, 1, LaneRun(hash, 1, s, ps), p)) == Some(t)
    requires i < |Releases(hash, 1, s, ps)|
    ensures KeepsRate(Releases(hash, 1, s, ps)[i], t, s.cfg.rate, p.len)
  {
    StampsKeepSpacing(hash, s, ps, p, t);
    SpacingKeepsRate(Releases(hash, 1, s, ps)[i], t, p.len, s.cfg.rate);
  }
}
