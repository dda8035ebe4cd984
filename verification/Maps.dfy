/**
 The classifier over its maps: four arrays updated in place. Every method is tied to the value
 semantics of module Dataplane, about which the runs are proved.
 */
module Maps {
  import opened Words
  import opened Flow
  import opened Decay
  import opened Sketch
  import opened Dataplane
  import opened Detection
  import TB = TokenBucket
  import Pacing

  /** A packet as the hook hands it over, with what the helpers answer for it. */
  datatype Skb = Skb(frame: seq<byte>, len: u32, ktime: u64, canMark: bool, cpu: nat)

  function Observe(skb: Skb): Packet {
    Packet(FlowOf(skb.frame), skb.len, skb.ktime, skb.canMark, skb.cpu)
  }

  /** Whatever the hook hands over in full is a packet of real length and flow. */
  lemma {:induction false} ObservedIsReal(skb: Skb)
    requires |skb.frame| <= skb.len
    ensures RealPacket(Observe(skb))
  {
    if FlowOf(skb.frame).Some? {
      ParsedFlows(skb.frame);
    }
  }

  /** And every parseable packet of real length and flow is one the hook can hand over. */
  lemma {:induction false} RealIsObserved(p: Packet) returns (skb: Skb)
    requires RealPacket(p) && p.flow.Some?
    ensures Observe(skb) == p && |skb.frame| <= skb.len
  {
    FlowsHaveFrames(p.flow.value);
    skb := Skb(Encode(Shortest(p.flow.value)), p.len, p.now, p.canMark, p.cpu);
  }

  class NatraMaps {
    const hash: Hash
    const configMap: array<Config>
    const bucketMap: array<Entry>
    const cmsMap: array<Cell>
    const statsMap: array<seq<u64>>

    ghost predicate Valid() {
      && configMap.Length == DIR_MAX && bucketMap.Length == DIR_MAX
      && cmsMap.Length == DIR_MAX * HALF && statsMap.Length == DIR_MAX * STAT_PER_DIR
      && configMap as object != bucketMap && configMap as object != cmsMap && configMap as object != statsMap
      && bucketMap as object != cmsMap && bucketMap as object != statsMap && cmsMap as object != statsMap
    }

    ghost function Contents(): (s: Sys)
      requires Valid()
      reads configMap, bucketMap, cmsMap, statsMap
      ensures ValidSys(s)
    {
      Sys(configMap[..], bucketMap[..], cmsMap[..], statsMap[..])
    }

    /** Freshly loaded maps are zero; one counter per slot and CPU. */
    constructor (hash: Hash, cpus: nat)
      ensures Valid() && this.hash == hash
      ensures fresh(configMap) && fresh(bucketMap) && fresh(cmsMap) && fresh(statsMap)
      ensures Contents() == Sys(seq(DIR_MAX, i => Config(0, 0, 0, 0)),
                                seq(DIR_MAX, i => Entry(TB.Bucket(0, 0), 0)),
                                seq(DIR_MAX * HALF, i => ZERO_CELL),
                                seq(DIR_MAX * STAT_PER_DIR, i => seq(cpus, j => 0)))
    {
      this.hash := hash;
      configMap := new Config[DIR_MAX](i => Config(0, 0, 0, 0));
      bucketMap := new Entry[DIR_MAX](i => Entry(TB.Bucket(0, 0), 0));
      cmsMap := new Cell[DIR_MAX * HALF](i => ZERO_CELL);
      statsMap := new seq<u64>[DIR_MAX * STAT_PER_DIR](i => seq(cpus, j => 0));
    }

    /** Userspace configures a direction: the bucket starts full, its clocks at zero. */
    method Configure(dir: nat, cfg: Config)
      requires Valid() && dir < DIR_MAX
      modifies configMap, bucketMap
      ensures Contents() == old(Contents()).(
                config := old(configMap[..])[dir := cfg],
                buckets := old(bucketMap[..])[dir := Entry(TB.Bucket(cfg.burst, 0), 0)])
    {
      configMap[dir] := cfg;
      bucketMap[dir] := Entry(TB.Bucket(cfg.burst, 0), 0);
    }

    method BumpStat(dir: nat, slot: nat, cpu: nat)
      requires Valid() && dir < DIR_MAX && slot < STAT_PER_DIR
      modifies statsMap
      ensures statsMap[..] == Bump(old(statsMap[..]), StatKey(dir, slot), cpu)
    {
      var idx := dir * STAT_PER_DIR + slot;
      StatKeyInjective(dir, slot, dir, slot);
      if cpu < |statsMap[idx]| {
        var count: int := statsMap[idx][cpu];
        var v: u64 := Wrap(count + 1);
        var percpu: seq<u64> := statsMap[idx][cpu := v];
        statsMap[idx] := percpu;
      }
    }

    /** One row of the sketch: fade the cell, add the packet, stamp the cell if it faded. */
    method TouchRow(dir: nat, k: FlowKey, row: nat, nowIdx: u32, bytes: u32) returns (next: u64)
      requires Valid() && dir < DIR_MAX && row < CMS_DEPTH
      modifies cmsMap
      ensures Slot(hash, dir, k, row) < cmsMap.Length
      ensures var i := Slot(hash, dir, k, row);
              && cmsMap[..] == old(cmsMap[..])[i := Hit(old(cmsMap[i]), Touch(nowIdx, bytes))]
              && next == cmsMap[i].bytes
    {
      var base := dir * (CMS_WIDTH * CMS_DEPTH);
      var col := hash(k, row) % CMS_WIDTH;
      var idx := base + row * CMS_WIDTH + col;
      assert idx == Slot(hash, dir, k, row);
      var cell := cmsMap[idx];
      var elapsed := 0;
      if nowIdx > cell.last {
        elapsed := nowIdx - cell.last;
      }
      next := cell.bytes;
      if elapsed >= 64 {
        next := 0;
      } else if elapsed > 0 {
        next := ShiftRight(next, elapsed);
      }
      next := Wrap(next + bytes);
      cmsMap[idx] := cmsMap[idx].(bytes := next);
      if elapsed > 0 {
        cmsMap[idx] := cmsMap[idx].(last := nowIdx);
      }
    }

    method CmsUpdateAndMin(dir: nat, k: FlowKey, nowIdx: u32, bytes: u32) returns (mn: u64)
      requires Valid() && dir < DIR_MAX
      modifies cmsMap
      ensures cmsMap[..] == CmsAfter(hash, dir, k, Touch(nowIdx, bytes), old(cmsMap[..]))
      ensures mn == Estimate(hash, dir, k, cmsMap[..])
    {
      mn := 0xffff_ffff_ffff_ffff;
      var row := 0;
      ghost var t, before := Touch(nowIdx, bytes), cmsMap[..];
      while row < CMS_DEPTH
        invariant 0 <= row <= CMS_DEPTH
        invariant RowsTouched(hash, dir, k, t, before, cmsMap[..], row)
        invariant mn == RowMin(hash, dir, k, cmsMap[..], row)
      {
        NextRow(hash, dir, k, t, before, cmsMap[..], row);
        var next := TouchRow(dir, k, row, nowIdx, bytes);
        if next < mn {
          mn := next;
        }
        row := row + 1;
      }
    }

    method ConsumeTokens(dir: nat, bytes: u32, rate: u64, burst: u64, now: u64) returns (allowed: bool)
      requires Valid() && dir < DIR_MAX
      modifies bucketMap
      ensures var lim, c := TB.Limit(rate, burst), TB.Call(bytes, now);
              && bucketMap[..] == old(bucketMap[..])[dir :=
                   Entry(TB.Consume(old(bucketMap[dir].bucket), lim, c), old(bucketMap[dir].next))]
              && allowed == TB.Allows(old(bucketMap[dir].bucket), lim, c)
    {
      var tb := bucketMap[dir].bucket;
      allowed := false;
      var elapsedNs := 0;
      if now > tb.last {
        elapsedNs := now - tb.last;
      }
      TimesIsProduct(rate, elapsedNs / 1000);
      var added := Wrap((elapsedNs / 1000) * rate) / 1_000_000;
      var tokens: int := Wrap(tb.tokens + added);
      if tokens > burst {
        tokens := burst;
      }
      if tokens >= bytes {
        tokens := tokens - bytes;
        allowed := true;
      }
      tb := tb.(tokens := tokens);
      if now > tb.last {
        tb := tb.(last := now);
      }
      bucketMap[dir] := bucketMap[dir].(bucket := tb);
    }

    method ThrottleDisposition(dir: nat, p: Packet, rate: u64, edt: u64) returns (o: Outcome)
      requires Valid() && dir < DIR_MAX
      requires rate == configMap[dir].rate && edt == configMap[dir].edt
      modifies bucketMap, statsMap
      ensures o == Disposition(dir, configMap[dir], old(bucketMap[dir].next), p)
      ensures bucketMap[..] == old(bucketMap[..])[dir := old(bucketMap[dir]).(
                next := NextCursor(dir, configMap[dir], old(bucketMap[dir].next), p))]
      ensures Throttled(o)
      ensures statsMap[..] == Bump(old(statsMap[..]), dir * STAT_PER_DIR + StatSlots(o)[2], p.cpu)
    {
      if dir == DIR_EGRESS && edt != 0 {
        if rate > 0 {
          var addNs := Pacing.AddNs(p.len, rate);
          var base := bucketMap[dir].next;
          if base < p.now {
            base := p.now;
          }
          var releaseAt := Wrap(base + addNs);
          assert releaseAt == Pacing.Release(bucketMap[dir].next, JobOf(configMap[dir], p));
          assert releaseAt == NextCursor(dir, configMap[dir], bucketMap[dir].next, p);
          bucketMap[dir] := bucketMap[dir].(next := releaseAt);
          var delayNs := Wrap(releaseAt - p.now);
          if delayNs <= Pacing.MAX_EDT_DELAY_NS {
            BumpStat(dir, STAT_EDT_DELAYED, p.cpu);
            return EdtDelayed(releaseAt);
          }
        }
      }
      if p.canMark {
        BumpStat(dir, STAT_ECN_MARKED, p.cpu);
        return EcnMarked;
      }
      BumpStat(dir, STAT_DROPPED, p.cpu);
      return Dropped;
    }

    /** Count a packet that is let through untouched. */
    method CountPassed(dir: nat, cpu: nat)
      requires Valid() && dir < DIR_MAX
      modifies statsMap
      ensures statsMap[..] == BumpAll(old(statsMap[..]), dir * STAT_PER_DIR, [STAT_PASSED], cpu)
    {
      BumpStat(dir, STAT_PASSED, cpu);
      BumpOne(old(statsMap[..]), dir * STAT_PER_DIR, STAT_PASSED, cpu);
    }

    /** A packet above the rate: counted as throttled, then paced, marked or dropped. */
    method OverRate(dir: nat, p: Packet) returns (o: Outcome)
      requires Valid() && dir < DIR_MAX
      modifies bucketMap, statsMap
      ensures Throttled(o) && o == Disposition(dir, configMap[dir], old(bucketMap[dir].next), p)
      ensures bucketMap[..] == old(bucketMap[..])[dir := old(bucketMap[dir]).(
                next := NextCursor(dir, configMap[dir], old(bucketMap[dir].next), p))]
      ensures statsMap[..] == BumpAll(old(statsMap[..]), dir * STAT_PER_DIR, [STAT_THROTTLED, StatSlots(o)[2]], p.cpu)
    {
      BumpStat(dir, STAT_THROTTLED, p.cpu);
      o := ThrottleDisposition(dir, p, configMap[dir].rate, configMap[dir].edt);
      BumpTwo(old(statsMap[..]), dir * STAT_PER_DIR, STAT_THROTTLED, StatSlots(o)[2], p.cpu);
    }

    /** A heavy packet is counted and charged. */
    method ChargeHeavy(dir: nat, p: Packet) returns (allowed: bool)
      requires Valid() && dir < DIR_MAX
      modifies bucketMap, statsMap
      ensures allowed == TB.Allows(old(bucketMap[dir].bucket), LimitOf(configMap[dir]), CallOf(p))
      ensures bucketMap[..] == old(bucketMap[..])[dir := old(bucketMap[dir]).(
                bucket := TB.Consume(old(bucketMap[dir].bucket), LimitOf(configMap[dir]), CallOf(p)))]
      ensures statsMap[..] == Bump(old(statsMap[..]), dir * STAT_PER_DIR + STAT_HH_HITS, p.cpu)
    {
      BumpStat(dir, STAT_HH_HITS, p.cpu);
      allowed := ConsumeTokens(dir, p.len, configMap[dir].rate, configMap[dir].burst, p.now);
    }

    /** A heavy packet: the bucket gate, then the over-rate disposition. */
    method HeavyPath(dir: nat, p: Packet) returns (o: Outcome)
      requires Valid() && dir < DIR_MAX && configMap[dir].rate != 0
      modifies bucketMap, statsMap
      ensures o == if TB.Allows(old(bucketMap[dir].bucket), LimitOf(configMap[dir]), CallOf(p)) then Admitted
                   else Disposition(dir, configMap[dir], old(bucketMap[dir].next), p)
      ensures bucketMap[..] ==
              old(bucketMap[..])[dir := EntryAfter(dir, configMap[dir], old(bucketMap[dir]), p, o)]
      ensures statsMap[..] == BumpAll(old(statsMap[..]), dir * STAT_PER_DIR, StatSlots(o), p.cpu)
    {
      ghost var stats0 := statsMap[..];
      var allowed := ChargeHeavy(dir, p);
      if allowed {
        CountPassed(dir, p.cpu);
        o := Admitted;
      } else {
        o := OverRate(dir, p);
      }
      HeavyBumps(stats0, dir * STAT_PER_DIR, o, p.cpu);
    }

    /** The classifier: the maps move as SysStep says, and the verdict and time stamp follow the outcome. */
    method Classify(dir: nat, skb: Skb) returns (act: TcAct, tstamp: Option<u64>)
      requires Valid() && dir < DIR_MAX
      modifies bucketMap, cmsMap, statsMap
      ensures Contents() == SysStep(hash, dir, old(Contents()), Observe(skb))
      ensures var o := SysOutcome(hash, dir, old(Contents()), Observe(skb));
              act == Verdict(o) && tstamp == Tstamp(o)
    {
      assert bucketMap[..] == bucketMap[..][dir := bucketMap[dir]];
      var cfg := configMap[dir];
      if cfg.rate == 0 {
        CountPassed(dir, skb.cpu);
        return TC_ACT_OK, None;
      }
      var flow := ParseFlow(skb.frame);
      if flow.None? {
        CountPassed(dir, skb.cpu);
        return TC_ACT_OK, None;
      }
      var est := CmsUpdateAndMin(dir, flow.value, DecayIdx(skb.ktime), skb.len);
      if est <= cfg.hh {
        CountPassed(dir, skb.cpu);
        return TC_ACT_OK, None;
      }
      var o := HeavyPath(dir, Packet(flow, skb.len, skb.ktime, skb.canMark, skb.cpu));
      return Verdict(o), Tstamp(o);
    }
  }

  /** One more row: the rows done so far, and their minimum. */
  lemma {:induction false} NextRow(hash: Hash, dir: nat, k: FlowKey, t: Touch, before: seq<Cell>, table: seq<Cell>, row: nat)
    requires row < CMS_DEPTH && dir < DIR_MAX && |table| == DIR_MAX * HALF && RowsTouched(hash, dir, k, t, before, table, row)
    ensures var i := Slot(hash, dir, k, row);
            && i < |table|
            && RowsTouched(hash, dir, k, t, before, table[i := Hit(table[i], t)], row + 1)
            && var m, b := RowMin(hash, dir, k, table, row), Hit(table[i], t).bytes;
               RowMin(hash, dir, k, table[i := Hit(table[i], t)], row + 1) == if b < m then b else m
  {
    var i := Slot(hash, dir, k, row);
    NotYetTouched(hash, dir, k, row);
    RowsTouchedStep(hash, dir, k, t, before, table, row);
    RowMinFrame(hash, dir, k, table, i, Hit(table[i], t), row);
  }

  lemma {:induction false} HeavySlots(o: Outcome)
    requires Heavy(o)
    ensures StatSlots(o) == [STAT_HH_HITS] + StatSlots(o)[1..]
    ensures StatSlots(o)[1..] == if o.Admitted? then [STAT_PASSED] else [STAT_THROTTLED, StatSlots(o)[2]]
  {
  }

  // The bumps of each path, one at a time.

  /** A heavy packet's first counter, then those of its disposition. */
  lemma {:induction false} HeavyBumps(stats: seq<seq<u64>>, base: nat, o: Outcome, cpu: nat)
    requires Heavy(o)
    ensures BumpAll(stats, base, StatSlots(o), cpu) ==
            BumpAll(Bump(stats, base + STAT_HH_HITS, cpu), base,
                    if o.Admitted? then [STAT_PASSED] else [STAT_THROTTLED, StatSlots(o)[2]], cpu)
  {
    HeavySlots(o);
    BumpAfter(stats, base, STAT_HH_HITS, StatSlots(o)[1..], cpu);
  }

  lemma {:induction false} BumpOne(stats: seq<seq<u64>>, base: nat, a: nat, cpu: nat)
    ensures BumpAll(stats, base, [a], cpu) == Bump(stats, base + a, cpu)
  {
    assert [a][..0] == [];
  }

  lemma {:induction false} BumpTwo(stats: seq<seq<u64>>, base: nat, a: nat, b: nat, cpu: nat)
    ensures BumpAll(stats, base, [a, b], cpu) == Bump(Bump(stats, base + a, cpu), base + b, cpu)
  {
    assert [a, b][..1] == [a];
    BumpOne(stats, base, a, cpu);
  }

  lemma {:induction false} BumpAfter(stats: seq<seq<u64>>, base: nat, a: nat, slots: seq<nat>, cpu: nat)
    ensures BumpAll(Bump(stats, base + a, cpu), base, slots, cpu) == BumpAll(stats, base, [a] + slots, cpu)
  {
    if slots == [] {
      assert [a] + slots == [a];
      BumpOne(stats, base, a, cpu);
    } else {
      assert ([a] + slots)[..|slots|] == [a] + slots[..|slots| - 1];
      BumpAfter(stats, base, a, slots[..|slots| - 1], cpu);
    }
  }
}
