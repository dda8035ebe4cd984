/**
 A cell shared by several flows, compared with the private counter one flow would have had.
 Unordered clocks matter here: another flow can push the shared clock ahead.
 */
module SharedCell {
  import opened Words
  import opened Decay

  /** A touch of a shared cell, and whether the flow under study made it. */
  datatype Tagged = Tagged(own: bool, touch: Touch)

  function All(h: seq<Tagged>): (ts: seq<Touch>)
    ensures |ts| == |h|
  {
    seq(|h|, i requires 0 <= i < |h| => h[i].touch)
  }

  function Own(h: seq<Tagged>): seq<Touch> {
    if h == [] then [] else
      var rest := Own(h[..|h| - 1]);
      if h[|h| - 1].own then rest + [h[|h| - 1].touch] else rest
  }

  /** Decay intervals the shared clock, respectively the private clock, has run since touch i. */
  function SharedAge(h: seq<Tagged>, i: nat): int
    requires i < |h|
  {
    Clock(All(h)) - Clock(All(h[..i + 1]))
  }

  function OwnAge(h: seq<Tagged>, i: nat): int
    requires i < |h|
  {
    Clock(Own(h)) - Clock(Own(h[..i + 1]))
  }

  /** No byte of the flow has aged more than `lag` intervals longer on the shared clock than on its own. */
  ghost predicate AgesWithin(h: seq<Tagged>, lag: nat) {
    forall i :: 0 <= i < |h| && h[i].own ==> SharedAge(h, i) <= OwnAge(h, i) + lag
  }

  /** No byte of the flow has aged more on the shared clock than on its own. */
  ghost predicate AgesFairly(h: seq<Tagged>) {
    AgesWithin(h, 0)
  }

  lemma {:induction false} SnocAll(h: seq<Tagged>)
    requires h != []
    ensures All(h) == All(h[..|h| - 1]) + [h[|h| - 1].touch]
    ensures All(h)[..|h| - 1] == All(h[..|h| - 1])
  {
  }

  lemma {:induction false} OwnClockBehind(h: seq<Tagged>)
    ensures Clock(Own(h)) <= Clock(All(h))
  {
    if h != [] {
      OwnClockBehind(h[..|h| - 1]);
      SnocAll(h);
      if h[|h| - 1].own {
        SnocOwn(h);
      }
    }
  }

  lemma {:induction false} SnocOwn(h: seq<Tagged>)
    requires h != [] && h[|h| - 1].own
    ensures Own(h)[..|Own(h)| - 1] == Own(h[..|h| - 1])
    ensures Own(h)[|Own(h)| - 1] == h[|h| - 1].touch
  {
  }

  /** Every own touch's two clocks, put on one scale. */
  ghost predicate OnScale(h: seq<Tagged>, shared: nat, own: nat) {
    forall n :: 0 < n <= |h| && h[n - 1].own ==> Clock(Own(h[..n])) + shared <= Clock(All(h[..n])) + own
  }

  lemma {:induction false} OnScalePrefix(h: seq<Tagged>, shared: nat, own: nat)
    requires h != [] && OnScale(h, shared, own)
    ensures OnScale(h[..|h| - 1], shared, own)
    ensures h[|h| - 1].own ==> Clock(Own(h)) + shared <= Clock(All(h)) + own
  {
    var front := h[..|h| - 1];
    forall n | 0 < n <= |front| && front[n - 1].own
      ensures Clock(Own(front[..n])) + shared <= Clock(All(front[..n])) + own
    {
      assert front[..n] == h[..n];
    }
    assert h[..|h|] == h;
  }

  lemma {:induction false} WeightsCompare(h: seq<Tagged>, shared: nat, own: nat)
    requires OnScale(h, shared, own)
    ensures ShiftLeft(Weight(Own(h)), shared) <= ShiftLeft(Weight(All(h)), own)
  {
    if h == [] {
      ZeroShift(shared);
    } else {
      OnScalePrefix(h, shared, own);
      WeightsCompare(h[..|h| - 1], shared, own);
      WeightsStep(h, shared, own);
    }
  }

  lemma {:induction false} WeightsStep(h: seq<Tagged>, shared: nat, own: nat)
    requires h != []
    requires var front := h[..|h| - 1]; ShiftLeft(Weight(Own(front)), shared) <= ShiftLeft(Weight(All(front)), own)
    requires h[|h| - 1].own ==> Clock(Own(h)) + shared <= Clock(All(h)) + own
    ensures ShiftLeft(Weight(Own(h)), shared) <= ShiftLeft(Weight(All(h)), own)
  {
    var front, b := h[..|h| - 1], h[|h| - 1].touch.bytes;
    var wo, wa, co, ca := Weight(Own(front)), Weight(All(front)), Clock(Own(h)), Clock(All(h));
    var wo', wa' := Weight(Own(h)), Weight(All(h));
    assert wa' == wa + ShiftLeft(b, ca) by { WeightOfAll(h); }
    assert wo' == if h[|h| - 1].own then wo + ShiftLeft(b, co) else wo by { WeightOfOwn(h); }
    CompareStep(wo, wa, b, h[|h| - 1].own, co, shared, ca, own, wo', wa');
  }

  lemma {:induction false} CompareStep(wo: nat, wa: nat, b: nat, mine: bool, co: nat, shared: nat,
                                       ca: nat, own: nat, wo': nat, wa': nat)
    requires ShiftLeft(wo, shared) <= ShiftLeft(wa, own)
    requires mine ==> co + shared <= ca + own
    requires wo' == if mine then wo + ShiftLeft(b, co) else wo
    requires wa' == wa + ShiftLeft(b, ca)
    ensures ShiftLeft(wo', shared) <= ShiftLeft(wa', own)
  {
    ShiftLeftAdd(wa, ShiftLeft(b, ca), own);
    if mine {
      ShiftLeftAdd(wo, ShiftLeft(b, co), shared);
      ShiftLeftTwice(b, co, shared);
      ShiftLeftTwice(b, ca, own);
      ShiftLeftWider(b, co + shared, ca + own);
    }
  }

  lemma {:induction false} WeightOfAll(h: seq<Tagged>)
    requires h != []
    ensures var front, t := h[..|h| - 1], h[|h| - 1].touch;
            Weight(All(h)) == Weight(All(front)) + ShiftLeft(t.bytes, Clock(All(h)))
  {
    SnocAll(h);
  }

  lemma {:induction false} WeightOfOwn(h: seq<Tagged>)
    requires h != []
    ensures var front, t := h[..|h| - 1], h[|h| - 1].touch;
            if h[|h| - 1].own
            then Weight(Own(h)) == Weight(Own(front)) + ShiftLeft(t.bytes, Clock(Own(h)))
            else Own(h) == Own(front)
  {
    if h[|h| - 1].own {
      SnocOwn(h);
    }
  }

  /** The flow's weighted sum, aged `lag` intervals more, is within the cell's. */
  lemma {:induction false} IdealsCompare(h: seq<Tagged>, lag: nat)
    requires AgesWithin(h, lag)
    ensures ShiftRight(Ideal(Own(h)), lag) <= Ideal(All(h))
  {
    WeightsWithin(h, lag);
    ShiftedCompare(Weight(Own(h)), Clock(Own(h)), lag, Weight(All(h)), Clock(All(h)));
  }

  lemma {:induction false} WeightsWithin(h: seq<Tagged>, lag: nat)
    requires AgesWithin(h, lag)
    ensures ShiftLeft(Weight(Own(h)), Clock(All(h))) <= ShiftLeft(Weight(All(h)), Clock(Own(h)) + lag)
  {
    AgesOnScale(h, lag);
    WeightsCompare(h, Clock(All(h)), Clock(Own(h)) + lag);
  }

  lemma {:induction false} ShiftedCompare(wo: nat, own: nat, lag: nat, wa: nat, shared: nat)
    requires ShiftLeft(wo, shared) <= ShiftLeft(wa, own + lag)
    ensures ShiftRight(ShiftRight(wo, own), lag) <= ShiftRight(wa, shared)
  {
    ShiftRightCross(wo, own + lag, wa, shared);
    ShiftRightTwice(wo, own, lag);
  }

  lemma {:induction false} AgesOnScale(h: seq<Tagged>, lag: nat)
    requires AgesWithin(h, lag)
    ensures OnScale(h, Clock(All(h)), Clock(Own(h)) + lag)
  {
    forall n | 0 < n <= |h| && h[n - 1].own
      ensures Clock(Own(h[..n])) + Clock(All(h)) <= Clock(All(h[..n])) + (Clock(Own(h)) + lag)
    {
      assert SharedAge(h, n - 1) <= OwnAge(h, n - 1) + lag;
    }
  }

  /**
   However unordered the clocks, a shared cell that does not wrap holds at least what the flow's own
   lazily decayed counter would hold after `lag` more intervals, when no byte of the flow aged more
   than that longer on the shared clock.
   */
  lemma {:induction false} SharedCoversAged(h: seq<Tagged>, lag: nat)
    requires AgesWithin(h, lag)
    requires IdealFits(All(h))
    ensures ShiftRight(Run(ZERO_CELL, Own(h)).bytes, lag) <= Run(ZERO_CELL, All(h)).bytes
  {
    var own := Run(ZERO_CELL, Own(h)).bytes;
    assert own <= Ideal(Own(h)) by { NeverAboveIdeal(Own(h)); }
    ShiftRightMonotone(own, Ideal(Own(h)), lag);
    IdealsCompare(h, lag);
    assert Run(ZERO_CELL, All(h)).bytes == Ideal(All(h)) by { ExactWhenFits(All(h)); }
  }

  /** Without any age difference the cell holds at least what the flow's own counter holds. */
  lemma {:induction false} SharedCoversOwn(h: seq<Tagged>)
    requires AgesFairly(h)
    requires IdealFits(All(h))
    ensures Run(ZERO_CELL, Own(h)).bytes <= Run(ZERO_CELL, All(h)).bytes
  {
    SharedCoversAged(h, 0);
  }

  /** Ages never differ by more than the two clocks do now, whatever the history. */
  lemma {:induction false} ClocksBoundAges(h: seq<Tagged>, lag: nat)
    requires Clock(All(h)) <= Clock(Own(h)) + lag
    ensures AgesWithin(h, lag)
  {
    forall i | 0 <= i < |h| && h[i].own ensures SharedAge(h, i) <= OwnAge(h, i) + lag {
      OwnClockBehind(h[..i + 1]);
    }
  }

  /** The clocks after a touch of the flow are at most as far apart as the touch was late. */
  lemma {:induction false} LateTouchLag(h: seq<Tagged>)
    requires h != [] && h[|h| - 1].own
    ensures Clock(All(h)) <= Clock(Own(h)) + Gap(h[|h| - 1].touch.idx, Clock(All(h[..|h| - 1])))
  {
    SnocAll(h);
    SnocOwn(h);
  }

  /** What a caller can check: the flow's newest touch is not behind the cell's clock. */
  lemma {:induction false} OnTimeAgesFairly(h: seq<Tagged>)
    requires h != [] && h[|h| - 1].own
    requires Run(ZERO_CELL, All(h[..|h| - 1])).last <= h[|h| - 1].touch.idx
    ensures AgesFairly(h)
  {
    LastIsClock(All(h[..|h| - 1]));
    LateTouchLag(h);
    ClocksBoundAges(h, 0);
  }

  // ---------------------------------------------------------------- the age bound is needed

  /** Same flows at the same decay indices; only packet sizes may differ. */
  ghost predicate SamePattern(h: seq<Tagged>, g: seq<Tagged>) {
    && |h| == |g|
    && forall i :: 0 <= i < |h| ==> h[i].own == g[i].own && h[i].touch.idx == g[i].touch.idx
  }

  function OnlyAt(h: seq<Tagged>, i: nat, b: u64): (g: seq<Tagged>)
    ensures SamePattern(h, g)
  {
    seq(|h|, j requires 0 <= j < |h| =>
      Tagged(h[j].own, Touch(h[j].touch.idx, if j == i then b else 0)))
  }

  lemma {:induction false} PatternClocks(h: seq<Tagged>, g: seq<Tagged>)
    requires SamePattern(h, g)
    ensures Clock(All(h)) == Clock(All(g))
    ensures Clock(Own(h)) == Clock(Own(g))
    ensures |Own(h)| == |Own(g)|
  {
    if h != [] {
      PatternClocks(h[..|h| - 1], g[..|g| - 1]);
      SnocAll(h);
      SnocAll(g);
      if h[|h| - 1].own {
        SnocOwn(h);
        SnocOwn(g);
      }
    }
  }

  lemma {:induction false} SingleWeightAll(g: seq<Tagged>, i: nat, b: u64)
    requires i < |g| ==> g[i].touch.bytes == b
    requires forall j :: 0 <= j < |g| && j != i ==> g[j].touch.bytes == 0
    ensures Weight(All(g)) == if i < |g| then ShiftLeft(b, Clock(All(g[..i + 1]))) else 0
  {
    if g != [] {
      var front := g[..|g| - 1];
      SingleWeightAll(front, i, b);
      WeightOfAll(g);
      ZeroShift(Clock(All(g)));
      if i == |g| - 1 {
        assert g[..i + 1] == g;
      } else if i < |front| {
        assert front[..i + 1] == g[..i + 1];
      }
    }
  }

  lemma {:induction false} SingleWeightOwn(g: seq<Tagged>, i: nat, b: u64)
    requires i < |g| ==> g[i].own && g[i].touch.bytes == b
    requires forall j :: 0 <= j < |g| && j != i ==> g[j].touch.bytes == 0
    ensures Weight(Own(g)) == if i < |g| then ShiftLeft(b, Clock(Own(g[..i + 1]))) else 0
  {
    if g != [] {
      var front := g[..|g| - 1];
      SingleWeightOwn(front, i, b);
      WeightOfOwn(g);
      ZeroShift(Clock(Own(g)));
      if i == |g| - 1 {
        assert g[..i + 1] == g;
      } else if i < |front| {
        assert front[..i + 1] == g[..i + 1];
      }
    }
  }

  /**
   The age bound cannot be dropped: whenever one own touch, still visible in the private counter,
   aged more on the shared clock, some packet sizes make the shared cell underestimate the flow.
   */
  lemma {:induction false} UnfairAgeUnderestimates(h: seq<Tagged>, i: nat)
    requires i < |h| && h[i].own
    requires 0 <= OwnAge(h, i) < 64 && OwnAge(h, i) < SharedAge(h, i)
    ensures exists g :: SamePattern(h, g) && IdealFits(All(g)) &&
              Run(ZERO_CELL, All(g)).bytes < Run(ZERO_CELL, Own(g)).bytes
  {
    var age := OwnAge(h, i);
    Pow2At64();
    ShiftLeftWider(1, age, 63);
    var b: u64 := Pow2(age);
    var g := OnlyAt(h, i, b);
    PatternClocks(h, g);
    PatternClocks(h[..i + 1], g[..i + 1]);
    SingleWeightAll(g, i, b);
    SingleWeightOwn(g, i, b);
    SingleIdeals(g, i, age);
    SingleFits(All(g), i, b);
    SmallTrafficFits(All(g));
    OwnBytes(g);
    SmallTrafficFits(Own(g));
    ExactWhenFits(All(g));
    ExactWhenFits(Own(g));
  }

  lemma {:induction false} SingleIdeals(g: seq<Tagged>, i: nat, age: nat)
    requires i < |g|
    requires age == OwnAge(g, i) < SharedAge(g, i)
    requires Weight(All(g)) == ShiftLeft(Pow2(age), Clock(All(g[..i + 1])))
    requires Weight(Own(g)) == ShiftLeft(Pow2(age), Clock(Own(g[..i + 1])))
    ensures Ideal(All(g)) == 0 && Ideal(Own(g)) == 1
  {
    AgedByte(age, Clock(All(g[..i + 1])), Clock(All(g)));
    AgedByte(age, Clock(Own(g[..i + 1])), Clock(Own(g)));
  }

  lemma {:induction false} AgedByte(age: nat, born: nat, now: nat)
    requires born + age <= now
    ensures ShiftRight(ShiftLeft(Pow2(age), born), now) == if born + age == now then 1 else 0
  {
    ShiftLeftTwice(1, age, born);
    ZeroShift(now);
    if born + age == now {
      ShiftLeftAdd(1, 1, now);
      ShiftRightIs(Pow2(now), now, 1);
    } else {
      ShiftLeftWider(1, age + born + 1, now);
      ShiftRightIs(Pow2(age + born), now, 0);
    }
  }

  lemma {:induction false} SingleFits(ts: seq<Touch>, i: nat, b: u64)
    requires forall j :: 0 <= j < |ts| ==> ts[j].bytes == if j == i then b else 0
    ensures Bytes(ts) == if i < |ts| then b else 0
  {
    if ts != [] {
      SingleFits(ts[..|ts| - 1], i, b);
    }
  }

  lemma {:induction false} OwnBytes(h: seq<Tagged>)
    ensures Bytes(Own(h)) <= Bytes(All(h))
  {
    if h != [] {
      OwnBytes(h[..|h| - 1]);
      SnocAll(h);
      if h[|h| - 1].own {
        SnocOwn(h);
      }
    }
  }

  /** Whether the ages are fair depends on the pattern only. */
  lemma {:induction false} FairnessOfPattern(h: seq<Tagged>, g: seq<Tagged>)
    requires SamePattern(h, g) && AgesFairly(h)
    ensures AgesFairly(g)
  {
    forall i | 0 <= i < |g| && g[i].own ensures SharedAge(g, i) <= OwnAge(g, i) {
      assert SharedAge(h, i) <= OwnAge(h, i);
      PatternClocks(h, g);
      PatternClocks(h[..i + 1], g[..i + 1]);
    }
  }

  /** The shared cell covers the flow whatever the packet sizes. */
  ghost predicate CoversAllSizes(h: seq<Tagged>) {
    forall g :: SamePattern(h, g) && IdealFits(All(g)) ==> Run(ZERO_CELL, Own(g)).bytes <= Run(ZERO_CELL, All(g)).bytes
  }

  /**
   Exactly when a shared cell can be trusted: as long as every touch of the flow is still visible in
   its private counter (less than 64 intervals old), the cell never underestimates the flow for any
   packet sizes if and only if no touch of the flow aged more on the shared clock.
   */
  lemma {:induction false} CoversExactlyWhenFair(h: seq<Tagged>)
    requires forall i :: 0 <= i < |h| && h[i].own ==> 0 <= OwnAge(h, i) < 64
    ensures CoversAllSizes(h) <==> AgesFairly(h)
  {
    if AgesFairly(h) {
      forall g | SamePattern(h, g) && IdealFits(All(g))
        ensures Run(ZERO_CELL, Own(g)).bytes <= Run(ZERO_CELL, All(g)).bytes
      {
        FairnessOfPattern(h, g);
        SharedCoversOwn(g);
      }
    } else {
      var i :| 0 <= i < |h| && h[i].own && SharedAge(h, i) > OwnAge(h, i);
      UnfairAgeUnderestimates(h, i);
    }
  }

  // ---------------------------------------------------------------- the same with packets of real length

  /** Every packet has at least the length of its headers. */
  ghost predicate AtLeast(h: seq<Tagged>, least: u32) {
    forall i :: 0 <= i < |h| ==> least <= h[i].touch.bytes
  }

  function LongAt(h: seq<Tagged>, i: nat, b: u64, least: u32): (g: seq<Tagged>)
    ensures SamePattern(h, g)
  {
    seq(|h|, j requires 0 <= j < |h| =>
      Tagged(h[j].own, Touch(h[j].touch.idx, if j == i then b else least)))
  }

  /** Weight of the long packet, once it has arrived. */
  function LongPart(g: seq<Tagged>, i: nat, b: u64): nat {
    if i < |g| then ShiftLeft(b, Clock(All(g[..i + 1]))) else 0
  }

  lemma {:induction false} LongPartSnoc(g: seq<Tagged>, i: nat, b: u64)
    requires g != []
    ensures LongPart(g, i, b) == if i == |g| - 1 then ShiftLeft(b, Clock(All(g))) else LongPart(g[..|g| - 1], i, b)
  {
    if i == |g| - 1 {
      assert g[..i + 1] == g;
    } else if i < |g| - 1 {
      assert g[..|g| - 1][..i + 1] == g[..i + 1];
    }
  }

  /** One long packet among short ones: each of the others weighs at most its bytes on the latest clock. */
  lemma {:induction false} LongWeightAll(g: seq<Tagged>, i: nat, b: u64, least: u32)
    requires forall j :: 0 <= j < |g| ==> g[j].touch.bytes == if j == i then b else least
    ensures Weight(All(g)) <= LongPart(g, i, b) + ShiftLeft(Times(least, |g|), Clock(All(g)))
  {
    if g == [] {
      assert All(g) == [];
    } else {
      var front := g[..|g| - 1];
      LongWeightAll(front, i, b, least);
      var w, before, now := Weight(All(front)), Clock(All(front)), Clock(All(g));
      assert before <= now by { SnocAll(g); }
      assert Weight(All(g)) == w + ShiftLeft(g[|g| - 1].touch.bytes, now) by { WeightOfAll(g); }
      LongPartSnoc(g, i, b);
      LongStep(w, LongPart(front, i, b), Times(least, |front|), least, before, now);
    }
  }

  lemma {:induction false} LongStep(w: nat, long: nat, rest: nat, least: nat, before: nat, now: nat)
    requires before <= now && w <= long + ShiftLeft(rest, before)
    ensures w + ShiftLeft(least, now) <= long + ShiftLeft(rest + least, now)
    ensures w <= long + ShiftLeft(rest + least, now)
  {
    ShiftLeftWider(rest, before, now);
    ShiftLeftAdd(rest, least, now);
  }

  lemma {:induction false} LongBytes(ts: seq<Touch>, i: nat, b: u64, least: u32)
    requires forall j :: 0 <= j < |ts| ==> ts[j].bytes == if j == i then b else least
    ensures Bytes(ts) <= (if i < |ts| then b else 0) + Times(least, |ts|)
  {
    if ts != [] {
      LongBytes(ts[..|ts| - 1], i, b, least);
    }
  }

  lemma {:induction false} OwnWeightGrows(h: seq<Tagged>)
    requires h != []
    ensures Weight(Own(h[..|h| - 1])) <= Weight(Own(h))
    ensures h[|h| - 1].own ==> ShiftLeft(h[|h| - 1].touch.bytes, Clock(Own(h))) <= Weight(Own(h))
  {
    WeightOfOwn(h);
  }

  lemma {:induction false} LongWeightOwn(g: seq<Tagged>, i: nat, b: u64, clock: nat)
    requires i < |g| && g[i].own && g[i].touch.bytes == b && clock == Clock(Own(g[..i + 1]))
    ensures ShiftLeft(b, clock) <= Weight(Own(g))
  {
    if i == |g| - 1 {
      assert g[..i + 1] == g;
    } else {
      var front := g[..|g| - 1];
      assert front[..i + 1] == g[..i + 1];
      LongWeightOwn(front, i, b, clock);
    }
    OwnWeightGrows(g);
  }

  /** A packet this long outweighs n short ones after `age` intervals, yet not after one more. */
  function Outweighs(age: nat, n: nat, least: u32): nat {
    ShiftLeft(Times(least, n) + 1, age + 1)
  }

  /** One own touch that aged more on the shared clock is enough, whatever the least packet length. */
  lemma {:induction false} UnfairPacketUnderestimates(h: seq<Tagged>, i: nat, least: u32)
    requires i < |h| && h[i].own
    requires 0 <= OwnAge(h, i) < SharedAge(h, i)
    requires least <= Outweighs(OwnAge(h, i), |h|, least)
    requires Outweighs(OwnAge(h, i), |h|, least) + Times(least, |h|) < TWO64
    ensures exists g :: SamePattern(h, g) && AtLeast(g, least) && IdealFits(All(g)) &&
              Run(ZERO_CELL, All(g)).bytes < Run(ZERO_CELL, Own(g)).bytes
  {
    var age := OwnAge(h, i);
    var b: u64 := Outweighs(age, |h|, least);
    var g := LongAt(h, i, b, least);
    assert OwnAge(g, i) == age < SharedAge(g, i) by {
      PatternClocks(h, g);
      PatternClocks(h[..i + 1], g[..i + 1]);
    }
    LongBytes(All(g), i, b, least);
    OwnBytes(g);
    SmallTrafficFits(All(g));
    SmallTrafficFits(Own(g));
    LongIdeals(g, i, b, least);
    assert Run(ZERO_CELL, Own(g)).bytes == Ideal(Own(g)) by { ExactWhenFits(Own(g)); }
    assert Run(ZERO_CELL, All(g)).bytes <= Ideal(All(g)) by { NeverAboveIdeal(All(g)); }
    assert AtLeast(g, least);
  }

  lemma {:induction false} LongIdeals(g: seq<Tagged>, i: nat, b: u64, least: u32)
    requires i < |g| && g[i].own
    requires forall j :: 0 <= j < |g| ==> g[j].touch.bytes == if j == i then b else least
    requires 0 <= OwnAge(g, i) < SharedAge(g, i) && b == Outweighs(OwnAge(g, i), |g|, least)
    ensures Ideal(All(g)) < Ideal(Own(g))
  {
    var rest, age := Times(least, |g|), OwnAge(g, i);
    assert 2 * (rest + 1) <= Ideal(Own(g)) by {
      LongWeightOwn(g, i, b, Clock(Own(g[..i + 1])));
      OutweighsOwn(rest, age, Weight(Own(g)), Clock(Own(g[..i + 1])), Clock(Own(g)));
    }
    assert Ideal(All(g)) <= 2 * rest + 1 by {
      LongWeightAll(g, i, b, least);
      OutweighsShared(rest, age, Weight(All(g)), Clock(All(g[..i + 1])), Clock(All(g)));
    }
  }

  lemma {:induction false} OutweighsOwn(rest: nat, age: nat, w: nat, born: nat, now: nat)
    requires now == born + age
    requires ShiftLeft(ShiftLeft(rest + 1, age + 1), born) <= w
    ensures 2 * (rest + 1) <= ShiftRight(w, now)
  {
    ShiftLeftTwice(rest + 1, age + 1, born);
    Doubled(rest + 1, now);
    ShiftRightPlus(0, 2 * (rest + 1), now);
    ZeroShift(now);
    ShiftRightMonotone(ShiftLeft(2 * (rest + 1), now), w, now);
  }

  lemma {:induction false} OutweighsShared(rest: nat, age: nat, w: nat, born: nat, now: nat)
    requires born + age + 1 <= now
    requires w <= ShiftLeft(ShiftLeft(rest + 1, age + 1), born) + ShiftLeft(rest, now)
    ensures ShiftRight(w, now) <= 2 * rest + 1
  {
    ShiftLeftTwice(rest + 1, age + 1, born);
    ShiftLeftWider(rest + 1, age + 1 + born, now);
    ShiftLeftAdd(rest + 1, rest, now);
    ShiftRightPlus(0, 2 * rest + 1, now);
    ZeroShift(now);
    ShiftRightMonotone(w, ShiftLeft(2 * rest + 1, now), now);
  }

  /** The shared cell covers the flow whatever the packet lengths, none below the least. */
  ghost predicate CoversPackets(h: seq<Tagged>, least: u32) {
    forall g :: SamePattern(h, g) && AtLeast(g, least) && IdealFits(All(g)) ==>
      Run(ZERO_CELL, Own(g)).bytes <= Run(ZERO_CELL, All(g)).bytes
  }

  /**
   On a fixed pattern of packets, each at least as long as its headers: as long as one packet can still
   outweigh the others on the flow's own clock, the cell covers the flow for all lengths if and only if
   no touch of the flow aged more on the shared clock.
   */
  lemma {:induction false} CoversPacketsExactlyWhenFair(h: seq<Tagged>, least: u32)
    requires forall i :: 0 <= i < |h| && h[i].own ==>
               && 0 <= OwnAge(h, i)
               && Outweighs(OwnAge(h, i), |h|, least) + Times(least, |h|) < TWO64
    ensures CoversPackets(h, least) <==> AgesFairly(h)
  {
    if AgesFairly(h) {
      forall g | SamePattern(h, g) && AtLeast(g, least) && IdealFits(All(g))
        ensures Run(ZERO_CELL, Own(g)).bytes <= Run(ZERO_CELL, All(g)).bytes
      {
        FairnessOfPattern(h, g);
        SharedCoversOwn(g);
      }
    } else {
      var i :| 0 <= i < |h| && h[i].own && SharedAge(h, i) > OwnAge(h, i);
      assert least <= Times(least, |h|);
      UnfairPacketUnderestimates(h, i, least);
    }
  }

  // ---------------------------------------------------------------- late touches

  /** The flow sends x bytes at i, another flow z bytes at c, the flow y bytes at i. */
  function LateHistory(i: u32, c: u32, x: u64, z: u64, y: u64): seq<Tagged> {
    [Tagged(true, Touch(i, x)), Tagged(false, Touch(c, z)), Tagged(true, Touch(i, y))]
  }

  lemma {:induction false} TwoTouches(a: Touch, b: Touch)
    ensures Run(ZERO_CELL, [a, b]) == Hit(Hit(ZERO_CELL, a), b)
  {
    assert [a, b][..1] == [a];
    RunOne(ZERO_CELL, a);
  }

  lemma {:induction false} ThreeTouches(a: Touch, b: Touch, t: Touch)
    ensures Run(ZERO_CELL, [a, b, t]) == Hit(Hit(Hit(ZERO_CELL, a), b), t)
  {
    assert [a, b, t][..2] == [a, b];
    TwoTouches(a, b);
  }

  lemma {:induction false} FirstTouch(t: Touch)
    ensures Hit(ZERO_CELL, t) == Cell(t.bytes, t.idx)
  {
    ZeroShift(t.idx);
  }

  lemma {:induction false} LateHistoryTouches(i: u32, c: u32, x: u64, z: u64, y: u64)
    ensures var h := LateHistory(i, c, x, z, y);
            && All(h) == [Touch(i, x), Touch(c, z), Touch(i, y)]
            && Own(h) == [Touch(i, x), Touch(i, y)]
            && All(h[..2]) == [Touch(i, x), Touch(c, z)]
  {
    var h := LateHistory(i, c, x, z, y);
    assert h[..2][..1] == [h[0]] && h[..2] == [h[0], h[1]] && [h[0]][..0] == [];
    assert Own([h[0]]) == [Touch(i, x)];
  }

  /**
   What a late packet costs: everything the flow sent before fades by the c - i intervals its new packet
   is late, while the flow's own counter keeps it all. The other flow's bytes make up for that only if
   they are as many.
   */
  lemma {:induction false} LatePacketUnderestimates(i: u32, c: u32, x: u64, z: u64, y: u64)
    requires i < c && x + z + y < TWO64
    ensures var h := LateHistory(i, c, x, z, y);
            && Run(ZERO_CELL, All(h)) == Cell(ShiftRight(x, c - i) + z + y, c)
            && Run(ZERO_CELL, Own(h)) == Cell(x + y, i)
            && Run(ZERO_CELL, All(h[..2])).last == c
            && IdealFits(All(h))
  {
    LateHistoryTouches(i, c, x, z, y);
    FirstTouch(Touch(i, x));
    ThreeTouches(Touch(i, x), Touch(c, z), Touch(i, y));
    TwoTouches(Touch(i, x), Touch(i, y));
    TwoTouches(Touch(i, x), Touch(c, z));
    LateHistoryFits(i, c, x, z, y);
  }

  lemma {:induction false} LateHistoryFits(i: u32, c: u32, x: u64, z: u64, y: u64)
    requires x + z + y < TWO64
    ensures IdealFits(All(LateHistory(i, c, x, z, y)))
  {
    LateHistoryTouches(i, c, x, z, y);
    var ts := [Touch(i, x), Touch(c, z), Touch(i, y)];
    assert ts[..2] == [Touch(i, x), Touch(c, z)] && ts[..2][..1] == [Touch(i, x)];
    assert Bytes([Touch(i, x)]) == x;
    assert Bytes(ts) == x + z + y;
    SmallTrafficFits(ts);
  }

  /** Whatever packets came before, a cell with clock c that the flow touches at index i covers the flow. */
  ghost predicate CoversAllHistories(c: nat, i: u32, least: u32) {
    forall h :: EndsAt(h, c, i) && AtLeast(h, least) && IdealFits(All(h)) ==>
      Run(ZERO_CELL, Own(h)).bytes <= Run(ZERO_CELL, All(h)).bytes
  }

  ghost predicate EndsAt(h: seq<Tagged>, c: nat, i: u32) {
    h != [] && h[|h| - 1].own && h[|h| - 1].touch.idx == i && Run(ZERO_CELL, All(h[..|h| - 1])).last == c
  }

  /**
   For packets of any least length, a cell can be trusted whatever its history exactly when the newest
   touch is not behind its clock.
   */
  lemma {:induction false} TrustedExactlyOnTime(c: u32, i: u32, least: u32)
    ensures CoversAllHistories(c, i, least) <==> c <= i
  {
    if c <= i {
      forall h | EndsAt(h, c, i) && AtLeast(h, least) && IdealFits(All(h))
        ensures Run(ZERO_CELL, Own(h)).bytes <= Run(ZERO_CELL, All(h)).bytes
      {
        OnTimeAgesFairly(h);
        SharedCoversOwn(h);
      }
    } else {
      var x: u64 := 2 * (least + 1);
      var h := LateHistory(i, c, x, least, least);
      LatePacketUnderestimates(i, c, x, least, least);
      AtMostHalf(x, c - i);
      assert h[..|h| - 1] == h[..2];
      assert EndsAt(h, c, i) && AtLeast(h, least);
    }
  }

  lemma {:induction false} AtMostHalf(x: nat, e: nat)
    requires 0 < e
    ensures ShiftRight(x, e) <= x / 2
  {
    ShiftRightTwice(x, 1, e - 1);
    assert ShiftRight(x, 1) == x / 2;
  }
}
