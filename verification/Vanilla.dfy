/** The plain limiter: one token bucket per direction charged by every packet. */
module Vanilla {
  import opened Words
  import opened Dataplane

  const VAN_STAT_PASSED: nat := 0
  const VAN_STAT_THROTTLED: nat := 1
  const VAN_STAT_PER_DIR: nat := 2
  const VAN_DIR_MAX: nat := 2

  datatype VanConfig = VanConfig(rate: u64, burst: u64)

  datatype VanBucket = VanBucket(tokens: u64, last: u64)

  datatype VanPacket = VanPacket(len: u32, now: u64)

  /** Tokens a packet finds, and what the bucket becomes. */
  function Found(cfg: VanConfig, b: VanBucket, now: u64): u64 {
    var elapsed := if now > b.last then now - b.last else 0;
    var added := Wrap(Times(cfg.rate, elapsed / 1000)) / 1_000_000;
    var tokens := Wrap(b.tokens + added);
    if tokens > cfg.burst then cfg.burst else tokens
  }

  predicate VanAllows(cfg: VanConfig, b: VanBucket, p: VanPacket) {
    cfg.rate == 0 || Found(cfg, b, p.now) >= p.len
  }

  function VanStep(cfg: VanConfig, b: VanBucket, p: VanPacket): VanBucket {
    if cfg.rate == 0 then b else
      var tokens := Found(cfg, b, p.now);
      VanBucket(if tokens >= p.len then tokens - p.len else tokens, if p.now > b.last then p.now else b.last)
  }

  function VanRun(cfg: VanConfig, b: VanBucket, ps: seq<VanPacket>): VanBucket {
    if ps == [] then b else VanStep(cfg, VanRun(cfg, b, ps[..|ps| - 1]), ps[|ps| - 1])
  }

  function VanVerdicts(cfg: VanConfig, b: VanBucket, ps: seq<VanPacket>): (vs: seq<TcAct>)
    ensures |vs| == |ps|
  {
    if ps == [] then [] else
      var front := ps[..|ps| - 1];
      VanVerdicts(cfg, b, front) +
      [if VanAllows(cfg, VanRun(cfg, b, front), ps[|ps| - 1]) then TC_ACT_OK else TC_ACT_SHOT]
  }

  /** Without a rate everything passes and nothing is charged. */
  lemma {:induction false} VanUnlimited(cfg: VanConfig, b: VanBucket, ps: seq<VanPacket>)
    requires cfg.rate == 0
    ensures VanRun(cfg, b, ps) == b
    ensures forall i :: 0 <= i < |ps| ==> VanVerdicts(cfg, b, ps)[i] == TC_ACT_OK
  {
    if ps != [] {
      VanUnlimited(cfg, b, ps[..|ps| - 1]);
    }
  }

  class VanillaMaps {
    const configMap: array<VanConfig>
    const bucketMap: array<VanBucket>
    const statsMap: array<seq<u64>>

    ghost predicate Valid() {
      && configMap.Length == VAN_DIR_MAX && bucketMap.Length == VAN_DIR_MAX
      && statsMap.Length == VAN_DIR_MAX * VAN_STAT_PER_DIR
      && configMap as object != bucketMap && configMap as object != statsMap && bucketMap as object != statsMap
    }

    constructor (cfgs: seq<VanConfig>, cpus: nat)
      requires |cfgs| == VAN_DIR_MAX
      ensures Valid() && fresh(configMap) && fresh(bucketMap) && fresh(statsMap)
      ensures configMap[..] == cfgs
      ensures bucketMap[..] == seq(VAN_DIR_MAX, i requires 0 <= i < VAN_DIR_MAX => VanBucket(cfgs[i].burst, 0))
    {
      configMap := new VanConfig[VAN_DIR_MAX](i requires 0 <= i < VAN_DIR_MAX => cfgs[i]);
      bucketMap := new VanBucket[VAN_DIR_MAX](i requires 0 <= i < VAN_DIR_MAX => VanBucket(cfgs[i].burst, 0));
      statsMap := new seq<u64>[VAN_DIR_MAX * VAN_STAT_PER_DIR](i => seq(cpus, j => 0));
    }

    method VanBump(dir: nat, slot: nat, cpu: nat)
      requires Valid() && dir < VAN_DIR_MAX && slot < VAN_STAT_PER_DIR
      modifies statsMap
      ensures statsMap[..] == Bump(old(statsMap[..]), dir * VAN_STAT_PER_DIR + slot, cpu)
    {
      var idx := dir * VAN_STAT_PER_DIR + slot;
      if cpu < |statsMap[idx]| {
        var count: int := statsMap[idx][cpu];
        var v: u64 := Wrap(count + 1);
        var percpu: seq<u64> := statsMap[idx][cpu := v];
        statsMap[idx] := percpu;
      }
    }

    /** The charge under the lock. */
    method Charge(dir: nat, p: VanPacket) returns (allowed: bool)
      requires Valid() && dir < VAN_DIR_MAX && configMap[dir].rate != 0
      modifies bucketMap
      ensures allowed == VanAllows(configMap[dir], old(bucketMap[dir]), p)
      ensures bucketMap[..] == old(bucketMap[..])[dir := VanStep(configMap[dir], old(bucketMap[dir]), p)]
    {
      var cfg, tb := configMap[dir], bucketMap[dir];
      allowed := false;
      var elapsedNs := 0;
      if p.now > tb.last {
        elapsedNs := p.now - tb.last;
      }
      TimesIsProduct(cfg.rate, elapsedNs / 1000);
      var added := Wrap((elapsedNs / 1000) * cfg.rate) / 1_000_000;
      var tokens: int := Wrap(tb.tokens + added);
      if tokens > cfg.burst {
        tokens := cfg.burst;
      }
      if tokens >= p.len {
        tokens := tokens - p.len;
        allowed := true;
      }
      tb := tb.(tokens := tokens);
      if p.now > tb.last {
        tb := tb.(last := p.now);
      }
      bucketMap[dir] := tb;
    }

    method Classify(dir: nat, p: VanPacket, cpu: nat) returns (act: TcAct)
      requires Valid() && dir < VAN_DIR_MAX
      modifies bucketMap, statsMap
      ensures act == if VanAllows(configMap[dir], old(bucketMap[dir]), p) then TC_ACT_OK else TC_ACT_SHOT
      ensures bucketMap[..] == old(bucketMap[..])[dir := VanStep(configMap[dir], old(bucketMap[dir]), p)]
      ensures statsMap[..] == Bump(old(statsMap[..]), 2 * dir + (if act == TC_ACT_OK then 0 else 1), cpu)
    {
      if configMap[dir].rate == 0 {
        VanBump(dir, VAN_STAT_PASSED, cpu);
        return TC_ACT_OK;
      }
      var allowed := Charge(dir, p);
      if allowed {
        VanBump(dir, VAN_STAT_PASSED, cpu);
        return TC_ACT_OK;
      }
      VanBump(dir, VAN_STAT_THROTTLED, cpu);
      return TC_ACT_SHOT;
    }
  }
}

/** The heavy path is the plain limiter run on the packets the sketch lets through to it. */
module Refinement {
  import opened Words
  import opened Flow
  import opened Sketch
  import opened Dataplane
  import opened Vanilla
  import TB = TokenBucket

  /** The packets of a run that reach the bucket: neither unlimited, unparsed nor mice. */
  ghost function HeavyPackets(hash: Hash, dir: nat, s: Lane, ps: seq<Packet>): seq<Packet>
    requires ValidLane(s)
  {
    if ps == [] then [] else
      var front, p := ps[..|ps| - 1], ps[|ps| - 1];
      var rest := HeavyPackets(hash, dir, s, front);
      if Heavy(LaneOutcome(hash, dir, LaneRun(hash, dir, s, front), p)) then rest + [p] else rest
  }

  ghost function HeavyOutcomes(hash: Hash, dir: nat, s: Lane, ps: seq<Packet>): seq<Outcome>
    requires ValidLane(s)
  {
    if ps == [] then [] else
      var front := ps[..|ps| - 1];
      var rest, o := HeavyOutcomes(hash, dir, s, front), LaneOutcome(hash, dir, LaneRun(hash, dir, s, front), ps[|ps| - 1]);
      if Heavy(o) then rest + [o] else rest
  }

  function Calls(ps: seq<Packet>): (cs: seq<TB.Call>)
    ensures |cs| == |ps|
  {
    seq(|ps|, i requires 0 <= i < |ps| => CallOf(ps[i]))
  }

  function VanPackets(ps: seq<Packet>): (vs: seq<VanPacket>)
    ensures |vs| == |ps|
  {
    seq(|ps|, i requires 0 <= i < |ps| => VanPacket(ps[i].len, ps[i].now))
  }

  function VanConfigOf(cfg: Config): VanConfig {
    VanConfig(cfg.rate, cfg.burst)
  }

  function VanBucketOf(b: TB.Bucket): VanBucket {
    VanBucket(b.tokens, b.last)
  }

  lemma {:induction false} SnocCalls(ps: seq<Packet>, p: Packet)
    ensures Calls(ps + [p]) == Calls(ps) + [CallOf(p)]
    ensures VanPackets(ps + [p]) == VanPackets(ps) + [VanPacket(p.len, p.now)]
  {
  }

  /** The lane's bucket is the bucket run on the heavy packets alone. */
  lemma {:induction false} LaneBucketRun(hash: Hash, dir: nat, s: Lane, ps: seq<Packet>)
    requires ValidLane(s)
    ensures LaneRun(hash, dir, s, ps).entry.bucket ==
            TB.After(s.entry.bucket, LimitOf(s.cfg), Calls(HeavyPackets(hash, dir, s, ps)))
  {
    if ps != [] {
      var front, p := ps[..|ps| - 1], ps[|ps| - 1];
      LaneBucketRun(hash, dir, s, front);
      if Heavy(LaneOutcome(hash, dir, LaneRun(hash, dir, s, front), p)) {
        var hs := HeavyPackets(hash, dir, s, front);
        SnocCalls(hs, p);
        var cs := Calls(hs + [p]);
        assert cs[..|cs| - 1] == Calls(hs);
      }
    }
  }

  /** With no rate configured nothing is heavy. */
  lemma {:induction false} UnlimitedHasNoHeavy(hash: Hash, dir: nat, s: Lane, ps: seq<Packet>)
    requires ValidLane(s) && s.cfg.rate == 0
    ensures HeavyPackets(hash, dir, s, ps) == []
  {
    if ps != [] {
      UnlimitedHasNoHeavy(hash, dir, s, ps[..|ps| - 1]);
    }
  }

  /** The decisions of the bucket on a run of calls. */
  function Decisions(b: TB.Bucket, lim: TB.Limit, cs: seq<TB.Call>): (ds: seq<bool>)
    ensures |ds| == |cs|
  {
    if cs == [] then [] else
      var front := cs[..|cs| - 1];
      Decisions(b, lim, front) + [TB.Allows(TB.After(b, lim, front), lim, cs[|cs| - 1])]
  }

  lemma {:induction false} VanillaIsTheBucket(cfg: Config, b: TB.Bucket, ps: seq<Packet>)
    requires cfg.rate != 0
    ensures VanRun(VanConfigOf(cfg), VanBucketOf(b), VanPackets(ps)) ==
            VanBucketOf(TB.After(b, LimitOf(cfg), Calls(ps)))
  {
    if ps != [] {
      var front := ps[..|ps| - 1];
      VanillaIsTheBucket(cfg, b, front);
      assert VanPackets(ps)[..|ps| - 1] == VanPackets(front);
      assert Calls(ps)[..|ps| - 1] == Calls(front);
      SameStep(cfg, TB.After(b, LimitOf(cfg), Calls(front)), ps[|ps| - 1]);
    }
  }

  lemma {:induction false} SameStep(cfg: Config, b: TB.Bucket, p: Packet)
    requires cfg.rate != 0
    ensures VanStep(VanConfigOf(cfg), VanBucketOf(b), VanPacket(p.len, p.now)) ==
            VanBucketOf(TB.Consume(b, LimitOf(cfg), CallOf(p)))
    ensures VanAllows(VanConfigOf(cfg), VanBucketOf(b), VanPacket(p.len, p.now)) ==
            TB.Allows(b, LimitOf(cfg), CallOf(p))
  {
  }

  lemma {:induction false} VanillaDecides(cfg: Config, b: TB.Bucket, ps: seq<Packet>)
    requires cfg.rate != 0
    ensures forall i :: 0 <= i < |ps| ==>
              (VanVerdicts(VanConfigOf(cfg), VanBucketOf(b), VanPackets(ps))[i] == TC_ACT_OK <==>
               Decisions(b, LimitOf(cfg), Calls(ps))[i])
  {
    if ps != [] {
      var front := ps[..|ps| - 1];
      VanillaDecides(cfg, b, front);
      VanillaIsTheBucket(cfg, b, front);
      assert VanPackets(ps)[..|ps| - 1] == VanPackets(front);
      assert Calls(ps)[..|ps| - 1] == Calls(front);
      SameStep(cfg, TB.After(b, LimitOf(cfg), Calls(front)), ps[|ps| - 1]);
    }
  }

  ghost predicate Agree(os: seq<Outcome>, ds: seq<bool>) {
    |os| == |ds| && forall i :: 0 <= i < |os| ==> (os[i].Admitted? <==> ds[i])
  }

  lemma {:induction false} HeavyIsDecided(hash: Hash, dir: nat, s: Lane, p: Packet)
    requires ValidLane(s)
    ensures var o := LaneOutcome(hash, dir, s, p);
            Heavy(o) ==> (o.Admitted? <==> TB.Allows(s.entry.bucket, LimitOf(s.cfg), CallOf(p)))
  {
  }

  lemma {:induction false} SnocDecision(b: TB.Bucket, lim: TB.Limit, cs: seq<TB.Call>, c: TB.Call)
    ensures Decisions(b, lim, cs + [c]) == Decisions(b, lim, cs) + [TB.Allows(TB.After(b, lim, cs), lim, c)]
  {
    assert (cs + [c])[..|cs|] == cs;
  }

  lemma {:induction false} AgreeSnoc(b: TB.Bucket, lim: TB.Limit, os: seq<Outcome>, hs: seq<Packet>, o: Outcome, p: Packet)
    requires Agree(os, Decisions(b, lim, Calls(hs)))
    requires o.Admitted? <==> TB.Allows(TB.After(b, lim, Calls(hs)), lim, CallOf(p))
    ensures Agree(os + [o], Decisions(b, lim, Calls(hs + [p])))
  {
    SnocCalls(hs, p);
    SnocDecision(b, lim, Calls(hs), CallOf(p));
  }

  lemma {:induction false} OutcomesAreDecisions(hash: Hash, dir: nat, s: Lane, ps: seq<Packet>)
    requires ValidLane(s)
    ensures Agree(HeavyOutcomes(hash, dir, s, ps),
                  Decisions(s.entry.bucket, LimitOf(s.cfg), Calls(HeavyPackets(hash, dir, s, ps))))
  {
    if ps != [] {
      var front, p := ps[..|ps| - 1], ps[|ps| - 1];
      OutcomesAreDecisions(hash, dir, s, front);
      LaneBucketRun(hash, dir, s, front);
      var before := LaneRun(hash, dir, s, front);
      var o := LaneOutcome(hash, dir, before, p);
      HeavyIsDecided(hash, dir, before, p);
      if Heavy(o) {
        AgreeSnoc(s.entry.bucket, LimitOf(s.cfg), HeavyOutcomes(hash, dir, s, front),
                  HeavyPackets(hash, dir, s, front), o, p);
      }
    }
  }

  /**
   Refinement: for every run, the plain limiter started from the same bucket and fed the heavy packets
   takes the same decision on each and ends with the same tokens and clock.
   */
  lemma {:induction false} HeavyPathRefinesVanilla(hash: Hash, dir: nat, s: Lane, ps: seq<Packet>)
    requires ValidLane(s)
    ensures var os, hs := HeavyOutcomes(hash, dir, s, ps), VanPackets(HeavyPackets(hash, dir, s, ps));
            var cfg, b := VanConfigOf(s.cfg), VanBucketOf(s.entry.bucket);
            && VanRun(cfg, b, hs) == VanBucketOf(LaneRun(hash, dir, s, ps).entry.bucket)
            && |os| == |hs|
            && forall i :: 0 <= i < |hs| ==> (VanVerdicts(cfg, b, hs)[i] == TC_ACT_OK <==> os[i].Admitted?)
  {
    LaneBucketRun(hash, dir, s, ps);
    OutcomesAreDecisions(hash, dir, s, ps);
    if s.cfg.rate == 0 {
      UnlimitedHasNoHeavy(hash, dir, s, ps);
    } else {
      VanillaIsTheBucket(s.cfg, s.entry.bucket, HeavyPackets(hash, dir, s, ps));
      VanillaDecides(s.cfg, s.entry.bucket, HeavyPackets(hash, dir, s, ps));
    }
  }

  /** Without pacing and without ECN, the verdicts on heavy packets are the plain limiter's. */
  lemma {:induction false} VerdictsCoincide(hash: Hash, dir: nat, s: Lane, ps: seq<Packet>)
    requires ValidLane(s) && !Paces(dir, s.cfg)
    requires forall i :: 0 <= i < |ps| ==> !ps[i].canMark
    ensures var os, hs := HeavyOutcomes(hash, dir, s, ps), VanPackets(HeavyPackets(hash, dir, s, ps));
            var vs := VanVerdicts(VanConfigOf(s.cfg), VanBucketOf(s.entry.bucket), hs);
            |os| == |vs| && forall i :: 0 <= i < |vs| ==> Verdict(os[i]) == vs[i]
  {
    HeavyPathRefinesVanilla(hash, dir, s, ps);
    HeavyNeverMarked(hash, dir, s, ps);
  }

  lemma {:induction false} HeavyNeverMarked(hash: Hash, dir: nat, s: Lane, ps: seq<Packet>)
    requires ValidLane(s) && !Paces(dir, s.cfg)
    requires forall i :: 0 <= i < |ps| ==> !ps[i].canMark
    ensures forall i :: 0 <= i < |HeavyOutcomes(hash, dir, s, ps)| ==>
              HeavyOutcomes(hash, dir, s, ps)[i].Admitted? || HeavyOutcomes(hash, dir, s, ps)[i].Dropped?
  {
    if ps != [] {
      var front, p := ps[..|ps| - 1], ps[|ps| - 1];
      HeavyNeverMarked(hash, dir, s, front);
      UnmarkedOutcome(hash, dir, LaneRun(hash, dir, s, front), p);
    }
  }

  lemma {:induction false} UnmarkedOutcome(hash: Hash, dir: nat, s: Lane, p: Packet)
    requires ValidLane(s) && !Paces(dir, s.cfg) && !p.canMark
    ensures var o := LaneOutcome(hash, dir, s, p); Heavy(o) ==> o.Admitted? || o.Dropped?
  {
  }
}
