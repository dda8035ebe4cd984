/** The per-CPU counters account for every packet exactly once. */
module Stats {
  import opened Words
  import opened Sketch
  import opened Dataplane

  function Total(percpu: seq<u64>): nat {
    if percpu == [] then 0 else Total(percpu[..|percpu| - 1]) + percpu[|percpu| - 1]
  }

  /** Packets of a run whose outcome bumps the slot. */
  function Count(os: seq<Outcome>, slot: nat): nat {
    if os == [] then 0 else
      Count(os[..|os| - 1], slot) + if slot in StatSlots(os[|os| - 1]) then 1 else 0
  }

  function Shots(os: seq<Outcome>): nat {
    if os == [] then 0 else Shots(os[..|os| - 1]) + if Verdict(os[|os| - 1]) == TC_ACT_SHOT then 1 else 0
  }

  /** Every counter can still count n packets, and has an entry for each of the CPUs. */
  ghost predicate Room(stats: seq<seq<u64>>, cpus: nat, n: nat) {
    && |stats| == STAT_PER_DIR
    && forall i :: 0 <= i < |stats| ==> |stats[i]| == cpus && forall j :: 0 <= j < cpus ==> stats[i][j] + n < TWO64
  }

  ghost predicate OnCpus(ps: seq<Packet>, cpus: nat) {
    forall i :: 0 <= i < |ps| ==> ps[i].cpu < cpus
  }

  lemma {:induction false} TotalUpdate(percpu: seq<u64>, cpu: nat, v: u64)
    requires cpu < |percpu|
    ensures Total(percpu[cpu := v]) == Total(percpu) - percpu[cpu] + v
  {
    var last := |percpu| - 1;
    if cpu == last {
      assert percpu[cpu := v][..last] == percpu[..last];
    } else {
      TotalUpdate(percpu[..last], cpu, v);
      assert percpu[cpu := v][..last] == percpu[..last][cpu := v];
    }
  }

  /** The slots of one outcome are distinct, so each is bumped once, on the packet's CPU. */
  lemma {:induction false} BumpAllRow(stats: seq<seq<u64>>, slots: seq<nat>, cpu: nat, i: nat)
    requires i < |stats| && cpu < |stats[i]|
    requires forall a, b :: 0 <= a < b < |slots| ==> slots[a] != slots[b]
    ensures BumpAll(stats, 0, slots, cpu)[i] ==
            if i in slots then Bump(stats, i, cpu)[i] else stats[i]
  {
    if slots != [] {
      var front, last := slots[..|slots| - 1], slots[|slots| - 1];
      BumpAllRow(stats, front, cpu, i);
      assert slots == front + [last];
    }
  }

  lemma {:induction false} BumpTotals(stats: seq<seq<u64>>, o: Outcome, cpu: nat, cpus: nat, n: nat)
    requires Room(stats, cpus, n + 1) && cpu < cpus
    ensures var after := BumpAll(stats, 0, StatSlots(o), cpu);
            && Room(after, cpus, n)
            && forall slot :: 0 <= slot < STAT_PER_DIR ==>
                 Total(after[slot]) == Total(stats[slot]) + if slot in StatSlots(o) then 1 else 0
  {
    var after := BumpAll(stats, 0, StatSlots(o), cpu);
    forall slot | 0 <= slot < STAT_PER_DIR
      ensures Total(after[slot]) == Total(stats[slot]) + if slot in StatSlots(o) then 1 else 0
      ensures forall j :: 0 <= j < cpus ==> after[slot][j] + n < TWO64
    {
      BumpAllRow(stats, StatSlots(o), cpu, slot);
      if slot in StatSlots(o) {
        TotalUpdate(stats[slot], cpu, Wrap(stats[slot][cpu] + 1));
      }
    }
  }

  /** Summed over CPUs, each counter grows by the number of packets with a matching outcome. */
  lemma {:induction false} CountersCount(hash: Hash, dir: nat, s: Lane, ps: seq<Packet>, cpus: nat, n: nat)
    requires ValidLane(s) && OnCpus(ps, cpus) && Room(s.stats, cpus, |ps| + n)
    ensures Room(LaneRun(hash, dir, s, ps).stats, cpus, n)
    ensures forall slot :: 0 <= slot < STAT_PER_DIR ==>
              Total(LaneRun(hash, dir, s, ps).stats[slot]) ==
              Total(s.stats[slot]) + Count(LaneOutcomes(hash, dir, s, ps), slot)
  {
    if ps != [] {
      var front, p := ps[..|ps| - 1], ps[|ps| - 1];
      CountersCount(hash, dir, s, front, cpus, n + 1);
      var before := LaneRun(hash, dir, s, front);
      var os := LaneOutcomes(hash, dir, s, ps);
      assert os[..|os| - 1] == LaneOutcomes(hash, dir, s, front);
      BumpTotals(before.stats, LaneOutcome(hash, dir, before, p), p.cpu, cpus, n);
    }
  }

  /** Which outcomes bump which counter, by the slot numbers userspace reads. */
  lemma {:induction false} SlotsByOutcome(o: Outcome)
    ensures 0 in StatSlots(o) <==> Passed(o)
    ensures 1 in StatSlots(o) <==> Throttled(o)
    ensures 2 in StatSlots(o) <==> Heavy(o)
    ensures 3 in StatSlots(o) <==> o.EcnMarked?
    ensures 4 in StatSlots(o) <==> o.EdtDelayed?
    ensures 5 in StatSlots(o) <==> o.Dropped?
  {
  }

  /** How the outcomes of any run partition. */
  lemma {:induction false} OutcomesPartition(os: seq<Outcome>)
    ensures Count(os, STAT_PASSED) + Count(os, STAT_THROTTLED) == |os|
    ensures Count(os, STAT_THROTTLED) ==
            Count(os, STAT_ECN_MARKED) + Count(os, STAT_EDT_DELAYED) + Count(os, STAT_DROPPED)
    ensures Count(os, STAT_THROTTLED) <= Count(os, STAT_HH_HITS) <= |os|
    ensures Shots(os) == Count(os, STAT_DROPPED)
  {
    if os != [] {
      OutcomesPartition(os[..|os| - 1]);
      SlotsByOutcome(os[|os| - 1]);
    }
  }

  /** What userspace reads for a direction's counter: the entry's sum over CPUs. */
  function Reading(s: Sys, d: nat, slot: nat): nat
    requires ValidSys(s) && d < DIR_MAX && slot < STAT_PER_DIR
  {
    Total(s.stats[StatKey(d, slot)])
  }

  ghost predicate ZeroCounters(s: Sys, cpus: nat) {
    forall i :: 0 <= i < |s.stats| ==> s.stats[i] == seq(cpus, j => 0)
  }

  lemma {:induction false} ReadingsCount(hash: Hash, s: Sys, es: seq<Arrival>, cpus: nat, d: nat)
    requires ValidSys(s) && Directed(es) && d < DIR_MAX && ZeroCounters(s, cpus)
    requires |es| < TWO64
    requires forall i :: 0 <= i < |es| ==> es[i].packet.cpu < cpus
    ensures forall slot :: 0 <= slot < STAT_PER_DIR ==>
              Reading(SysRun(hash, s, es), d, slot) == Count(SysOutcomes(hash, s, es, d), slot)
    ensures |SysOutcomes(hash, s, es, d)| == |Only(d, es)|
  {
    var lane, ps, after := View(d, s), Only(d, es), SysRun(hash, s, es);
    DirectionsIndependent(hash, s, es, d);
    OnlyProperties(es, d, cpus);
    ZeroRoom(s, cpus, d);
    CountersCount(hash, d, lane, ps, cpus, 0);
    forall slot | 0 <= slot < STAT_PER_DIR
      ensures Reading(after, d, slot) == Count(SysOutcomes(hash, s, es, d), slot)
    {
      ReadingInView(after, d, slot);
    }
  }

  lemma {:induction false} ReadingInView(s: Sys, d: nat, slot: nat)
    requires ValidSys(s) && d < DIR_MAX && slot < STAT_PER_DIR
    ensures Reading(s, d, slot) == Total(View(d, s).stats[slot])
  {
    assert s.stats[d * STAT_PER_DIR + slot] == View(d, s).stats[slot];
  }

  lemma {:induction false} ZeroRoom(s: Sys, cpus: nat, d: nat)
    requires ValidSys(s) && d < DIR_MAX && ZeroCounters(s, cpus)
    ensures Room(View(d, s).stats, cpus, TWO64 - 1)
    ensures forall slot :: 0 <= slot < STAT_PER_DIR ==> Total(View(d, s).stats[slot]) == 0
  {
    ZeroTotal(cpus);
    forall slot | 0 <= slot < STAT_PER_DIR ensures View(d, s).stats[slot] == seq(cpus, j => 0) {
      assert View(d, s).stats[slot] == s.stats[d * STAT_PER_DIR + slot];
    }
  }

  /**
   Conservation for the shared maps: over any interleaving of both directions on any assignment to
   CPUs, the counters of a direction, starting from zero and summed over CPUs, account for its packets.
   */
  lemma {:induction false} CountersConserve(hash: Hash, s: Sys, es: seq<Arrival>, cpus: nat, d: nat)
    requires ValidSys(s) && Directed(es) && d < DIR_MAX && ZeroCounters(s, cpus)
    requires |es| < TWO64
    requires forall i :: 0 <= i < |es| ==> es[i].packet.cpu < cpus
    ensures var t := SysRun(hash, s, es);
            && Reading(t, d, STAT_PASSED) + Reading(t, d, STAT_THROTTLED) == |Only(d, es)|
            && Reading(t, d, STAT_THROTTLED) ==
               Reading(t, d, STAT_ECN_MARKED) + Reading(t, d, STAT_EDT_DELAYED) + Reading(t, d, STAT_DROPPED)
            && Reading(t, d, STAT_THROTTLED) <= Reading(t, d, STAT_HH_HITS) <= |Only(d, es)|
            && Reading(t, d, STAT_DROPPED) == Shots(SysOutcomes(hash, s, es, d))
  {
    ReadingsCount(hash, s, es, cpus, d);
    OutcomesPartition(SysOutcomes(hash, s, es, d));
  }

  lemma {:induction false} OnlyProperties(es: seq<Arrival>, d: nat, cpus: nat)
    requires forall i :: 0 <= i < |es| ==> es[i].packet.cpu < cpus
    ensures |Only(d, es)| <= |es| && OnCpus(Only(d, es), cpus)
  {
    if es != [] {
      OnlyProperties(es[..|es| - 1], d, cpus);
    }
  }

  lemma {:induction false} ZeroTotal(cpus: nat)
    ensures Total(seq(cpus, j => 0)) == 0
  {
    if cpus > 0 {
      ZeroTotal(cpus - 1);
      assert seq(cpus, j => 0)[..cpus - 1] == seq(cpus - 1, j => 0);
    }
  }
}
