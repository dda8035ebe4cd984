/**
 What the classifier does to one packet, twice over: on the flat maps both directions share, and on
 the private state one direction would have alone. The two agree under every interleaving.
 */
module Dataplane {
  import opened Words
  import opened Flow
  import opened Decay
  import opened Sketch
  import TB = TokenBucket
  import Pacing

  const DIR_INGRESS: nat := 0
  const DIR_EGRESS: nat := 1

  const STAT_PASSED: nat := 0
  const STAT_THROTTLED: nat := 1
  const STAT_HH_HITS: nat := 2
  const STAT_ECN_MARKED: nat := 3
  const STAT_EDT_DELAYED: nat := 4
  const STAT_DROPPED: nat := 5
  const STAT_PER_DIR: nat := 6

  const CMS_DECAY_INTERVAL_NS: nat := 0x10_0000_0000

  datatype Config = Config(rate: u64, burst: u64, hh: u64, edt: u64)

  /** An element of the bucket map: the bucket proper and the debt cursor. */
  datatype Entry = Entry(bucket: TB.Bucket, next: u64)

  /** What the program observes of a packet; `canMark` is the answer of the ECN helper. */
  datatype Packet = Packet(flow: Option<FlowKey>, len: u32, now: u64, canMark: bool, cpu: nat)

  datatype Outcome =
    | Unlimited | NotParsed | Mouse | Admitted
    | EdtDelayed(release: u64) | EcnMarked | Dropped

  datatype TcAct = TC_ACT_OK | TC_ACT_SHOT

  function Verdict(o: Outcome): TcAct {
    if o.Dropped? then TC_ACT_SHOT else TC_ACT_OK
  }

  /** The departure time written into the packet, if any. */
  function Tstamp(o: Outcome): Option<u64> {
    if o.EdtDelayed? then Some(o.release) else None
  }

  predicate Passed(o: Outcome) {
    o.Unlimited? || o.NotParsed? || o.Mouse? || o.Admitted?
  }

  predicate Throttled(o: Outcome) {
    o.EdtDelayed? || o.EcnMarked? || o.Dropped?
  }

  predicate Heavy(o: Outcome) {
    o.Admitted? || Throttled(o)
  }

  /** The 32-bit cast of the decay index loses nothing. */
  function DecayIdx(now: u64): (i: u32)
    ensures i == now / 68_719_476_736 && i < 0x1000_0000
  {
    (now / CMS_DECAY_INTERVAL_NS) % TWO32
  }

  // ---------------------------------------------------------------- per-CPU counters

  /** Increment the slot of one CPU; a key outside the map is ignored. */
  function Bump(stats: seq<seq<u64>>, key: nat, cpu: nat): (r: seq<seq<u64>>)
    ensures |r| == |stats|
    ensures forall i :: 0 <= i < |stats| ==> |r[i]| == |stats[i]|
  {
    if key < |stats| && cpu < |stats[key]| then
      var count: int := stats[key][cpu];
      var v: u64 := Wrap(count + 1);
      var percpu: seq<u64> := stats[key][cpu := v];
      stats[key := percpu]
    else stats
  }

  /** The counters a packet bumps, given its outcome. */
  function StatSlots(o: Outcome): (ks: seq<nat>)
    ensures |ks| <= 3 && forall i :: 0 <= i < |ks| ==> ks[i] < STAT_PER_DIR
  {
    match o
    case Unlimited => [STAT_PASSED]
    case NotParsed => [STAT_PASSED]
    case Mouse => [STAT_PASSED]
    case Admitted => [STAT_HH_HITS, STAT_PASSED]
    case EdtDelayed(_) => [STAT_HH_HITS, STAT_THROTTLED, STAT_EDT_DELAYED]
    case EcnMarked => [STAT_HH_HITS, STAT_THROTTLED, STAT_ECN_MARKED]
    case Dropped => [STAT_HH_HITS, STAT_THROTTLED, STAT_DROPPED]
  }

  function BumpAll(stats: seq<seq<u64>>, base: nat, slots: seq<nat>, cpu: nat): (r: seq<seq<u64>>)
    ensures |r| == |stats|
    ensures forall i :: 0 <= i < |stats| ==> |r[i]| == |stats[i]|
  {
    if slots == [] then stats
    else Bump(BumpAll(stats, base, slots[..|slots| - 1], cpu), base + slots[|slots| - 1], cpu)
  }

  // ---------------------------------------------------------------- the over-rate disposition

  predicate Paces(dir: nat, cfg: Config) {
    dir == DIR_EGRESS && cfg.edt != 0 && cfg.rate > 0
  }

  function JobOf(cfg: Config, p: Packet): Pacing.Job
    requires cfg.rate > 0
  {
    Pacing.Job(p.now, Pacing.AddNs(p.len, cfg.rate))
  }

  function Disposition(dir: nat, cfg: Config, next: u64, p: Packet): Outcome {
    if Paces(dir, cfg) && Pacing.IsStamped(next, JobOf(cfg, p))
    then EdtDelayed(Pacing.Release(next, JobOf(cfg, p)))
    else if p.canMark then EcnMarked else Dropped
  }

  function NextCursor(dir: nat, cfg: Config, next: u64, p: Packet): u64 {
    if Paces(dir, cfg) then Pacing.Release(next, JobOf(cfg, p)) else next
  }

  // ---------------------------------------------------------------- one direction on its own

  datatype Lane = Lane(cfg: Config, entry: Entry, cms: seq<Cell>, stats: seq<seq<u64>>)

  ghost predicate ValidLane(s: Lane) {
    |s.cms| == HALF && |s.stats| == STAT_PER_DIR
  }

  function TouchOf(p: Packet): Touch {
    Touch(DecayIdx(p.now), p.len)
  }

  function CallOf(p: Packet): TB.Call {
    TB.Call(p.len, p.now)
  }

  function LimitOf(cfg: Config): TB.Limit {
    TB.Limit(cfg.rate, cfg.burst)
  }

  /** The packet reaches the sketch. */
  predicate Sampled(cfg: Config, p: Packet) {
    cfg.rate != 0 && p.flow.Some?
  }

  ghost function LaneCms(hash: Hash, s: Lane, p: Packet): (r: seq<Cell>)
    ensures |r| == |s.cms|
  {
    if Sampled(s.cfg, p) then CmsAfter(hash, 0, p.flow.value, TouchOf(p), s.cms) else s.cms
  }

  ghost function LaneOutcome(hash: Hash, dir: nat, s: Lane, p: Packet): Outcome
    requires ValidLane(s)
  {
    if s.cfg.rate == 0 then Unlimited
    else if p.flow.None? then NotParsed
    else if Estimate(hash, 0, p.flow.value, LaneCms(hash, s, p)) <= s.cfg.hh then Mouse
    else if TB.Allows(s.entry.bucket, LimitOf(s.cfg), CallOf(p)) then Admitted
    else Disposition(dir, s.cfg, s.entry.next, p)
  }

  function EntryAfter(dir: nat, cfg: Config, e: Entry, p: Packet, o: Outcome): Entry {
    if !Heavy(o) then e
    else Entry(TB.Consume(e.bucket, LimitOf(cfg), CallOf(p)),
               if Throttled(o) then NextCursor(dir, cfg, e.next, p) else e.next)
  }

  ghost function LaneStep(hash: Hash, dir: nat, s: Lane, p: Packet): (r: Lane)
    requires ValidLane(s)
    ensures ValidLane(r) && r.cfg == s.cfg
  {
    var o := LaneOutcome(hash, dir, s, p);
    Lane(s.cfg, EntryAfter(dir, s.cfg, s.entry, p, o), LaneCms(hash, s, p),
         BumpAll(s.stats, 0, StatSlots(o), p.cpu))
  }

  ghost function LaneRun(hash: Hash, dir: nat, s: Lane, ps: seq<Packet>): (r: Lane)
    requires ValidLane(s)
    ensures ValidLane(r) && r.cfg == s.cfg
  {
    if ps == [] then s else LaneStep(hash, dir, LaneRun(hash, dir, s, ps[..|ps| - 1]), ps[|ps| - 1])
  }

  ghost function LaneOutcomes(hash: Hash, dir: nat, s: Lane, ps: seq<Packet>): (os: seq<Outcome>)
    requires ValidLane(s)
    ensures |os| == |ps|
  {
    if ps == [] then [] else
      var front := ps[..|ps| - 1];
      LaneOutcomes(hash, dir, s, front) + [LaneOutcome(hash, dir, LaneRun(hash, dir, s, front), ps[|ps| - 1])]
  }

  // ---------------------------------------------------------------- both directions on shared maps

  datatype Sys = Sys(config: seq<Config>, buckets: seq<Entry>, cms: seq<Cell>, stats: seq<seq<u64>>)

  ghost predicate ValidSys(s: Sys) {
    && |s.config| == DIR_MAX && |s.buckets| == DIR_MAX
    && |s.cms| == DIR_MAX * HALF && |s.stats| == DIR_MAX * STAT_PER_DIR
  }

  ghost function SysCms(hash: Hash, dir: nat, s: Sys, p: Packet): (r: seq<Cell>)
    requires ValidSys(s) && dir < DIR_MAX
    ensures |r| == |s.cms|
  {
    if Sampled(s.config[dir], p) then CmsAfter(hash, dir, p.flow.value, TouchOf(p), s.cms) else s.cms
  }

  ghost function SysOutcome(hash: Hash, dir: nat, s: Sys, p: Packet): Outcome
    requires ValidSys(s) && dir < DIR_MAX
  {
    var cfg := s.config[dir];
    if cfg.rate == 0 then Unlimited
    else if p.flow.None? then NotParsed
    else if Estimate(hash, dir, p.flow.value, SysCms(hash, dir, s, p)) <= cfg.hh then Mouse
    else if TB.Allows(s.buckets[dir].bucket, LimitOf(cfg), CallOf(p)) then Admitted
    else Disposition(dir, cfg, s.buckets[dir].next, p)
  }

  ghost function SysStep(hash: Hash, dir: nat, s: Sys, p: Packet): (r: Sys)
    requires ValidSys(s) && dir < DIR_MAX
    ensures ValidSys(r) && r.config == s.config
  {
    var o := SysOutcome(hash, dir, s, p);
    Sys(s.config, s.buckets[dir := EntryAfter(dir, s.config[dir], s.buckets[dir], p, o)],
        SysCms(hash, dir, s, p), BumpAll(s.stats, dir * STAT_PER_DIR, StatSlots(o), p.cpu))
  }

  /** A packet and the hook it arrived on. */
  datatype Arrival = Arrival(dir: nat, packet: Packet)

  ghost predicate Directed(es: seq<Arrival>) {
    forall i :: 0 <= i < |es| ==> es[i].dir < DIR_MAX
  }

  ghost function SysRun(hash: Hash, s: Sys, es: seq<Arrival>): (r: Sys)
    requires ValidSys(s) && Directed(es)
    ensures ValidSys(r) && r.config == s.config
  {
    if es == [] then s else
      var e := es[|es| - 1];
      SysStep(hash, e.dir, SysRun(hash, s, es[..|es| - 1]), e.packet)
  }

  /** The outcomes of the packets of direction d, in order. */
  ghost function SysOutcomes(hash: Hash, s: Sys, es: seq<Arrival>, d: nat): seq<Outcome>
    requires ValidSys(s) && Directed(es)
  {
    if es == [] then [] else
      var front, e := es[..|es| - 1], es[|es| - 1];
      var rest := SysOutcomes(hash, s, front, d);
      if e.dir == d then rest + [SysOutcome(hash, e.dir, SysRun(hash, s, front), e.packet)] else rest
  }

  function Only(d: nat, es: seq<Arrival>): seq<Packet> {
    if es == [] then [] else
      var rest := Only(d, es[..|es| - 1]);
      if es[|es| - 1].dir == d then rest + [es[|es| - 1].packet] else rest
  }

  /** The part of the shared maps that belongs to direction d. */
  function View(d: nat, s: Sys): (v: Lane)
    requires ValidSys(s) && d < DIR_MAX
    ensures ValidLane(v)
  {
    Lane(s.config[d], s.buckets[d], Half(d, s.cms), s.stats[d * STAT_PER_DIR..(d + 1) * STAT_PER_DIR])
  }

  // ---------------------------------------------------------------- non-interference

  function StatKey(dir: nat, slot: nat): nat {
    dir * STAT_PER_DIR + slot
  }

  /** Stat keys of distinct (direction, slot) pairs are distinct and inside the map. */
  lemma {:induction false} StatKeyInjective(d: nat, slot: nat, d': nat, slot': nat)
    requires d < DIR_MAX && d' < DIR_MAX && slot < STAT_PER_DIR && slot' < STAT_PER_DIR
    ensures StatKey(d, slot) == 6 * d + slot < DIR_MAX * STAT_PER_DIR
    ensures StatKey(d, slot) == StatKey(d', slot') <==> d == d' && slot == slot'
  {
  }

  lemma {:induction false} BumpInLane(stats: seq<seq<u64>>, dir: nat, slot: nat, cpu: nat, d: nat)
    requires |stats| == DIR_MAX * STAT_PER_DIR && dir < DIR_MAX && d < DIR_MAX && slot < STAT_PER_DIR
    ensures var lo, hi := d * STAT_PER_DIR, (d + 1) * STAT_PER_DIR;
            Bump(stats, StatKey(dir, slot), cpu)[lo..hi] ==
            if d == dir then Bump(stats[lo..hi], slot, cpu) else stats[lo..hi]
  {
    StatKeyInjective(dir, slot, dir, slot);
    forall j | 0 <= j < STAT_PER_DIR ensures StatKey(d, j) == StatKey(dir, slot) <==> d == dir && j == slot {
      StatKeyInjective(d, j, dir, slot);
    }
  }

  lemma {:induction false} BumpsInLane(stats: seq<seq<u64>>, dir: nat, slots: seq<nat>, cpu: nat, d: nat)
    requires |stats| == DIR_MAX * STAT_PER_DIR && dir < DIR_MAX && d < DIR_MAX
    requires forall i :: 0 <= i < |slots| ==> slots[i] < STAT_PER_DIR
    ensures var lo, hi := d * STAT_PER_DIR, (d + 1) * STAT_PER_DIR;
            BumpAll(stats, dir * STAT_PER_DIR, slots, cpu)[lo..hi] ==
            if d == dir then BumpAll(stats[lo..hi], 0, slots, cpu) else stats[lo..hi]
  {
    if slots != [] {
      var front := slots[..|slots| - 1];
      BumpsInLane(stats, dir, front, cpu, d);
      BumpInLane(BumpAll(stats, dir * STAT_PER_DIR, front, cpu), dir, slots[|slots| - 1], cpu, d);
    }
  }

  lemma {:induction false} CmsInLane(hash: Hash, dir: nat, s: Sys, p: Packet, d: nat)
    requires ValidSys(s) && dir < DIR_MAX && d < DIR_MAX
    ensures Half(d, SysCms(hash, dir, s, p)) ==
            if d == dir then LaneCms(hash, View(d, s), p) else Half(d, s.cms)
  {
    if Sampled(s.config[dir], p) {
      HalvesIndependent(hash, dir, p.flow.value, TouchOf(p), s.cms, d);
    }
  }

  lemma {:induction false} EstimateInLane(hash: Hash, dir: nat, s: Sys, p: Packet)
    requires ValidSys(s) && dir < DIR_MAX && Sampled(s.config[dir], p)
    ensures Estimate(hash, dir, p.flow.value, SysCms(hash, dir, s, p)) ==
            Estimate(hash, 0, p.flow.value, LaneCms(hash, View(dir, s), p))
  {
    CmsInLane(hash, dir, s, p, dir);
    EstimateOfHalf(hash, dir, p.flow.value, SysCms(hash, dir, s, p), CMS_DEPTH);
  }

  lemma {:induction false} OutcomeInLane(hash: Hash, dir: nat, s: Sys, p: Packet)
    requires ValidSys(s) && dir < DIR_MAX
    ensures SysOutcome(hash, dir, s, p) == LaneOutcome(hash, dir, View(dir, s), p)
  {
    if Sampled(s.config[dir], p) {
      EstimateInLane(hash, dir, s, p);
    }
  }

  /** A packet moves the view of its own direction as if alone, and no other view. */
  lemma {:induction false} StepInLane(hash: Hash, dir: nat, s: Sys, p: Packet, d: nat)
    requires ValidSys(s) && dir < DIR_MAX && d < DIR_MAX
    ensures View(d, SysStep(hash, dir, s, p)) ==
            if d == dir then LaneStep(hash, dir, View(d, s), p) else View(d, s)
  {
    var o := SysOutcome(hash, dir, s, p);
    OutcomeInLane(hash, dir, s, p);
    CmsInLane(hash, dir, s, p, d);
    BumpsInLane(s.stats, dir, StatSlots(o), p.cpu, d);
  }

  /**
   Directions do not interfere: after any interleaving of arrivals, the configuration, bucket, cursor,
   sketch half, counters and outcomes of a direction are those of running its packets alone.
   */
  lemma {:induction false} DirectionsIndependent(hash: Hash, s: Sys, es: seq<Arrival>, d: nat)
    requires ValidSys(s) && Directed(es) && d < DIR_MAX
    ensures View(d, SysRun(hash, s, es)) == LaneRun(hash, d, View(d, s), Only(d, es))
    ensures SysOutcomes(hash, s, es, d) == LaneOutcomes(hash, d, View(d, s), Only(d, es))
  {
    if es != [] {
      var front, e := es[..|es| - 1], es[|es| - 1];
      DirectionsIndependent(hash, s, front, d);
      var before := SysRun(hash, s, front);
      StepInLane(hash, e.dir, before, e.packet, d);
      if e.dir == d {
        OutcomeInLane(hash, d, before, e.packet);
        var qs := Only(d, es);
        assert qs[..|qs| - 1] == Only(d, front);
      }
    }
  }
}
