/**
 The token bucket of the heavy path. Clocks are read outside the lock and arrive in any order; the
 refill truncates twice and wraps at 64 bits.
 */
module TokenBucket {
  import opened Words

  const NS_PER_S: nat := 1_000_000_000

  datatype Limit = Limit(rate: u64, burst: u64)

  datatype Bucket = Bucket(tokens: u64, last: u64)

  datatype Call = Call(len: u64, now: u64)

  /** Whole microseconds times bytes per second, before the division that yields bytes. */
  function MicroBytes(lim: Limit, elapsed: u64): nat {
    Times(lim.rate, elapsed / 1000)
  }

  function Added(lim: Limit, elapsed: u64): u64 {
    Wrap(MicroBytes(lim, elapsed)) / 1_000_000
  }

  /** Tokens available to a call, after refill and cap. */
  function Refilled(b: Bucket, lim: Limit, now: u64): (t: u64)
    ensures t <= lim.burst
  {
    var tokens := Wrap(b.tokens + Added(lim, Gap(b.last, now)));
    if tokens > lim.burst then lim.burst else tokens
  }

  predicate Allows(b: Bucket, lim: Limit, c: Call) {
    Refilled(b, lim, c.now) >= c.len
  }

  function Consume(b: Bucket, lim: Limit, c: Call): Bucket {
    var tokens := Refilled(b, lim, c.now);
    Bucket(if tokens >= c.len then tokens - c.len else tokens, if c.now > b.last then c.now else b.last)
  }

  function After(b: Bucket, lim: Limit, cs: seq<Call>): Bucket {
    if cs == [] then b else Consume(After(b, lim, cs[..|cs| - 1]), lim, cs[|cs| - 1])
  }

  /** Bytes a call takes out of the bucket. */
  function Taken(b: Bucket, lim: Limit, c: Call): nat {
    if Allows(b, lim, c) then c.len else 0
  }

  function Admitted(b: Bucket, lim: Limit, cs: seq<Call>): nat {
    if cs == [] then 0 else
      var front := cs[..|cs| - 1];
      Admitted(b, lim, front) + Taken(After(b, lim, front), lim, cs[|cs| - 1])
  }

  // ---------------------------------------------------------------- the clock of the bucket

  function LatestClock(start: u64, cs: seq<Call>): (m: u64)
    ensures start <= m
    ensures forall i :: 0 <= i < |cs| ==> cs[i].now <= m
    ensures m == start || exists i :: 0 <= i < |cs| && cs[i].now == m
  {
    if cs == [] then start else
      var front := cs[..|cs| - 1];
      assert forall i :: 0 <= i < |front| ==> front[i] == cs[i];
      Max(LatestClock(start, front), cs[|cs| - 1].now)
  }

  lemma {:induction false} ClockIsRunningMax(b: Bucket, lim: Limit, cs: seq<Call>)
    ensures After(b, lim, cs).last == LatestClock(b.last, cs)
  {
    if cs != [] {
      ClockIsRunningMax(b, lim, cs[..|cs| - 1]);
    }
  }

  /** The same calls, each stamped with the latest clock read so far. */
  function InOrder(start: u64, cs: seq<Call>): (os: seq<Call>)
    ensures |os| == |cs|
    ensures forall i :: 0 <= i < |cs| ==> os[i].len == cs[i].len && os[i].now >= start
  {
    if cs == [] then [] else
      InOrder(start, cs[..|cs| - 1]) + [Call(cs[|cs| - 1].len, LatestClock(start, cs))]
  }

  /** Unordered clocks cannot be told from their running maximum: same bucket, same decisions. */
  lemma {:induction false} OrderDoesNotMatter(b: Bucket, lim: Limit, cs: seq<Call>)
    ensures After(b, lim, InOrder(b.last, cs)) == After(b, lim, cs)
    ensures Admitted(b, lim, InOrder(b.last, cs)) == Admitted(b, lim, cs)
    ensures cs != [] ==>
              Allows(After(b, lim, InOrder(b.last, cs[..|cs| - 1])), lim, InOrder(b.last, cs)[|cs| - 1]) ==
              Allows(After(b, lim, cs[..|cs| - 1]), lim, cs[|cs| - 1])
  {
    if cs != [] {
      var front := cs[..|cs| - 1];
      OrderDoesNotMatter(b, lim, front);
      ClockIsRunningMax(b, lim, front);
      var os := InOrder(b.last, cs);
      assert os[..|os| - 1] == InOrder(b.last, front);
    }
  }

  // ---------------------------------------------------------------- never too much

  lemma {:induction false} AddedAtMost(lim: Limit, e: u64)
    ensures Added(lim, e) * NS_PER_S <= Times(lim.rate, e)
  {
    Thousand(lim.rate, e / 1000);
    TimesAdd(lim.rate, (e / 1000) * 1000, e % 1000);
  }

  lemma {:induction false} Thousand(r: nat, n: nat)
    ensures Times(r, n * 1000) == Times(r, n) * 1000
  {
    TimesIsProduct(r, n);
    TimesIsProduct(r, n * 1000);
    assert r * (n * 1000) == (r * n) * 1000;
  }

  lemma {:induction false} CallConserves(b: Bucket, lim: Limit, c: Call)
    ensures Consume(b, lim, c).tokens + Taken(b, lim, c) == Refilled(b, lim, c.now)
    ensures Refilled(b, lim, c.now) <= b.tokens + Added(lim, Gap(b.last, c.now))
  {
  }

  /** Clock readings of a run never go back. */
  lemma {:induction false} ClockAdvances(b: Bucket, lim: Limit, cs: seq<Call>)
    ensures b.last <= After(b, lim, cs).last
    ensures cs != [] ==> After(b, lim, cs[..1]).last <= After(b, lim, cs).last
  {
    if cs != [] {
      var front := cs[..|cs| - 1];
      ClockAdvances(b, lim, front);
      if |cs| == 1 {
        assert cs[..1] == cs;
      } else {
        assert front[..1] == cs[..1];
      }
    }
  }

  /** Nanoseconds the clock of the bucket advanced after its first call. */
  function Advance(b: Bucket, lim: Limit, cs: seq<Call>): nat
    requires cs != []
  {
    ClockAdvances(b, lim, cs);
    After(b, lim, cs).last - After(b, lim, cs[..1]).last
  }

  lemma {:induction false} RateCapSum(b: Bucket, lim: Limit, cs: seq<Call>)
    requires cs != []
    ensures NS_PER_S * (After(b, lim, cs).tokens + Admitted(b, lim, cs)) <=
            NS_PER_S * lim.burst + Times(lim.rate, Advance(b, lim, cs))
  {
    var front, c := cs[..|cs| - 1], cs[|cs| - 1];
    var s := After(b, lim, front);
    CallConserves(s, lim, c);
    if |cs| == 1 {
      assert cs[..1] == cs;
    } else {
      RateCapSum(b, lim, front);
      assert front[..1] == cs[..1];
      var e := Gap(s.last, c.now);
      AddedAtMost(lim, e);
      TimesAdd(lim.rate, Advance(b, lim, front), e);
    }
  }

  /**
   The rate cap: over any non-empty run of calls from any bucket state, with clocks in any order and
   all arithmetic wrapping, what is admitted stays under burst plus rate times the advance of the
   latest clock. Stated over the denominator 10^9.
   */
  lemma {:induction false} RateCap(b: Bucket, lim: Limit, cs: seq<Call>)
    requires cs != []
    ensures NS_PER_S * (After(b, lim, cs).tokens + Admitted(b, lim, cs)) <=
            NS_PER_S * lim.burst + lim.rate * Advance(b, lim, cs)
  {
    RateCapSum(b, lim, cs);
    TimesIsProduct(lim.rate, Advance(b, lim, cs));
  }

  lemma {:induction false} RunsCompose(b: Bucket, lim: Limit, p: seq<Call>, w: seq<Call>)
    ensures After(b, lim, p + w) == After(After(b, lim, p), lim, w)
    ensures Admitted(b, lim, p + w) == Admitted(b, lim, p) + Admitted(After(b, lim, p), lim, w)
  {
    if w == [] {
      assert p + w == p;
    } else {
      assert (p + w)[..|p + w| - 1] == p + w[..|w| - 1];
      RunsCompose(b, lim, p, w[..|w| - 1]);
    }
  }

  /** Nanoseconds the latest clock advanced during window w, after the window's first call. */
  function WindowAdvance(start: u64, p: seq<Call>, w: seq<Call>): int {
    LatestClock(start, p + w) - LatestClock(start, p + w[..if w == [] then 0 else 1])
  }

  lemma {:induction false} WindowAdvanceIs(b: Bucket, lim: Limit, p: seq<Call>, w: seq<Call>)
    requires w != []
    ensures WindowAdvance(b.last, p, w) == Advance(After(b, lim, p), lim, w)
  {
    RunsCompose(b, lim, p, w);
    RunsCompose(b, lim, p, w[..1]);
    ClockIsRunningMax(b, lim, p + w);
    ClockIsRunningMax(b, lim, p + w[..1]);
  }

  /** The cap holds on every window of every run. */
  lemma {:induction false} WindowCap(b: Bucket, lim: Limit, p: seq<Call>, w: seq<Call>)
    requires w != []
    ensures NS_PER_S * (Admitted(b, lim, p + w) - Admitted(b, lim, p)) <=
            NS_PER_S * lim.burst + lim.rate * WindowAdvance(b.last, p, w)
  {
    RunsCompose(b, lim, p, w);
    WindowAdvanceIs(b, lim, p, w);
    RateCap(After(b, lim, p), lim, w);
  }

  // ---------------------------------------------------------------- never too little

  /** Neither the multiplication nor the addition leaves 64 bits. */
  ghost predicate NoOverflow(b: Bucket, lim: Limit, now: u64) {
    && MicroBytes(lim, Gap(b.last, now)) < TWO64
    && b.tokens + Added(lim, Gap(b.last, now)) < TWO64
  }

  /** The refill leaves the bucket full. */
  ghost predicate Full(b: Bucket, lim: Limit, now: u64) {
    Refilled(b, lim, now) == lim.burst
  }

  /** Most that the two truncations of n refills can lose, times 10^9: n * (rate/10^6 + 1) bytes. */
  function Rounding(lim: Limit, n: nat): nat {
    Times(PerRefill(lim), n)
  }

  function PerRefill(lim: Limit): nat {
    1000 * lim.rate + NS_PER_S
  }

  /** The call neither overflows nor hits the cap. */
  ghost predicate UncappedAt(b: Bucket, lim: Limit, now: u64) {
    NoOverflow(b, lim, now) && b.tokens + Added(lim, Gap(b.last, now)) <= lim.burst
  }

  /** No call of the run overflows or hits the cap. */
  ghost predicate Uncapped(b: Bucket, lim: Limit, cs: seq<Call>) {
    cs == [] ||
    (Uncapped(b, lim, cs[..|cs| - 1]) && UncappedAt(After(b, lim, cs[..|cs| - 1]), lim, cs[|cs| - 1].now))
  }

  /** The refill falls short of rate * elapsed by less than rate/10^6 + 1 bytes. */
  ghost predicate RoundedOnly(lim: Limit, e: u64) {
    Added(lim, e) * NS_PER_S > Times(lim.rate, e) - PerRefill(lim)
  }

  /** One refill loses less than rate/10^6 + 1 bytes exactly when its product fits in 64 bits. */
  lemma {:induction false} AddedAtLeast(lim: Limit, e: u64)
    ensures MicroBytes(lim, e) < TWO64 ==> RoundedOnly(lim, e)
    ensures lim.rate <= TWO64 - 1_000_000 ==> (RoundedOnly(lim, e) <==> MicroBytes(lim, e) < TWO64)
  {
    Thousand(lim.rate, e / 1000);
    TimesAdd(lim.rate, (e / 1000) * 1000, e % 1000);
    TimesIsProduct(lim.rate, e % 1000);
    MulLe(e % 1000, 1000, lim.rate);
    if MicroBytes(lim, e) >= TWO64 {
      WrapLoses(MicroBytes(lim, e));
    }
  }

  lemma {:induction false} WrapLoses(x: nat)
    requires x >= TWO64
    ensures Wrap(x) <= x - TWO64
  {
  }

  /** Tokens in the bucket plus bytes admitted so far. */
  function HeldOrSpent(b: Bucket, lim: Limit, cs: seq<Call>): nat {
    After(b, lim, cs).tokens + Admitted(b, lim, cs)
  }

  /** One uncapped call: what it adds, and how far the clock moves. */
  lemma {:induction false} UncappedCall(b: Bucket, lim: Limit, cs: seq<Call>) returns (add: nat, e: nat)
    requires cs != [] && Uncapped(b, lim, cs)
    ensures var front := cs[..|cs| - 1];
            && Uncapped(b, lim, front)
            && HeldOrSpent(b, lim, cs) == HeldOrSpent(b, lim, front) + add
            && After(b, lim, cs).last == After(b, lim, front).last + e
    ensures add * NS_PER_S > Times(lim.rate, e) - PerRefill(lim)
  {
    var s := After(b, lim, cs[..|cs| - 1]);
    e := Gap(s.last, cs[|cs| - 1].now);
    add := Added(lim, e);
    CallConserves(s, lim, cs[|cs| - 1]);
    AddedAtLeast(lim, e);
  }

  ghost predicate Conserved(lim: Limit, held: nat, start: nat, span: nat, calls: nat) {
    NS_PER_S * held >= NS_PER_S * start + Times(lim.rate, span) - Rounding(lim, calls)
  }

  lemma {:induction false} ConservedStep(lim: Limit, held: nat, start: nat, span: nat, calls: nat, add: nat, e: nat)
    requires Conserved(lim, held, start, span, calls)
    requires add * NS_PER_S > Times(lim.rate, e) - PerRefill(lim)
    ensures Conserved(lim, held + add, start, span + e, calls + 1)
  {
    TimesAdd(lim.rate, span, e);
  }

  /** While the cap does not bite, tokens are conserved up to the rounding of each refill. */
  lemma {:induction false} UncappedConserves(b: Bucket, lim: Limit, cs: seq<Call>)
    requires Uncapped(b, lim, cs)
    ensures b.last <= After(b, lim, cs).last
    ensures Conserved(lim, HeldOrSpent(b, lim, cs), b.tokens, After(b, lim, cs).last - b.last, |cs|)
  {
    if cs != [] {
      var front := cs[..|cs| - 1];
      var add, e := UncappedCall(b, lim, cs);
      UncappedConserves(b, lim, front);
      var held, span := HeldOrSpent(b, lim, front), After(b, lim, front).last - b.last;
      assert Conserved(lim, held + add, b.tokens, span + e, |front| + 1) by {
        ConservedStep(lim, held, b.tokens, span, |front|, add, e);
      }
    }
  }

  /**
   No throttling beyond rounding: if the bucket was full at the first call, the cap never bit after
   it, and the last call is denied, then what was admitted plus the denied packet exceeds the whole
   allowance less rate/10^6 + 1 bytes for each later refill. Stated over the denominator 10^9.
   */
  lemma {:induction false} DeniedOnlyAboveRate(b: Bucket, lim: Limit, first: Call, cs: seq<Call>)
    requires Full(b, lim, first.now)
    requires cs != [] && Uncapped(Consume(b, lim, first), lim, cs)
    requires !Allows(After(Consume(b, lim, first), lim, cs[..|cs| - 1]), lim, cs[|cs| - 1])
    ensures var s := Consume(b, lim, first);
            NS_PER_S * (Taken(b, lim, first) + Admitted(s, lim, cs) + cs[|cs| - 1].len) >
            NS_PER_S * lim.burst + lim.rate * (After(s, lim, cs).last - s.last)
            - |cs| * PerRefill(lim)
  {
    var s := Consume(b, lim, first);
    DeniedSum(b, lim, first, cs);
    var span := After(s, lim, cs).last - s.last;
    assert Times(lim.rate, span) == lim.rate * span by { TimesIsProduct(lim.rate, span); }
    assert Rounding(lim, |cs|) == |cs| * PerRefill(lim) by { TimesIsProduct(PerRefill(lim), |cs|); }
  }

  lemma {:induction false} DeniedSum(b: Bucket, lim: Limit, first: Call, cs: seq<Call>)
    requires Full(b, lim, first.now)
    requires cs != [] && Uncapped(Consume(b, lim, first), lim, cs)
    requires !Allows(After(Consume(b, lim, first), lim, cs[..|cs| - 1]), lim, cs[|cs| - 1])
    ensures var s := Consume(b, lim, first);
            && s.last <= After(s, lim, cs).last
            && NS_PER_S * (Taken(b, lim, first) + Admitted(s, lim, cs) + cs[|cs| - 1].len) >
               NS_PER_S * lim.burst + Times(lim.rate, After(s, lim, cs).last - s.last) - Rounding(lim, |cs|)
  {
    var s := Consume(b, lim, first);
    CallConserves(b, lim, first);
    UncappedConserves(s, lim, cs);
    CallConserves(After(s, lim, cs[..|cs| - 1]), lim, cs[|cs| - 1]);
  }

  /**
   A bucket that has just been configured is full at its first call exactly when the addition fits in
   64 bits; a refill whose product overflows still leaves it full.
   */
  lemma {:induction false} FreshBucketIsCapped(lim: Limit, now: u64)
    ensures Full(Bucket(lim.burst, 0), lim, now) <==>
            lim.burst + Added(lim, Gap(0, now)) < TWO64
  {
  }

  /**
   The overflow condition is needed: at 2^32 bytes/s with the smallest burst, a configured bucket that one
   64 KiB packet drained gains nothing in an idle gap of 2^32 microseconds (71 minutes), because the product
   is exactly 2^64, and a minimal packet is denied after it.
   */
  lemma {:induction false} OverflowLosesRefill(t: u64)
    requires 0 < t && t + TWO32 * 1000 < TWO64
    ensures var lim, first := Limit(TWO32, 0x1_0000), Call(0x1_0000, t);
            var drained := Consume(Bucket(lim.burst, 0), lim, first);
            && Allows(Bucket(lim.burst, 0), lim, first)
            && drained == Bucket(0, t)
            && !NoOverflow(drained, lim, t + TWO32 * 1000)
            && !Allows(drained, lim, Call(34, t + TWO32 * 1000))
  {
    TimesIsProduct(TWO32, TWO32);
  }
}
