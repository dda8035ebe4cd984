/**
 EDT pacing: a debt cursor that every over-rate egress packet advances, and the bounded release
 times stamped from it.
 */
module Pacing {
  import opened Words

  const MAX_EDT_DELAY_NS: nat := 50_000_000

  /** What the split multiplication of the spacing leaves in 64 bits before it is divided by the rate. */
  function SpacingDividend(bytes: u64): u64 {
    Wrap(Wrap(bytes * 8000) * 1_000_000)
  }

  function AddNs(bytes: u64, rate: u64): (r: u64)
    requires 0 < rate
  {
    DivLe(SpacingDividend(bytes), rate);
    SpacingDividend(bytes) / rate
  }

  /** The spacing is bytes * 8e9 / rate exactly for packets up to 2305843009 bytes. */
  lemma {:induction false} SpacingExact(bytes: u64)
    ensures SpacingDividend(bytes) == bytes * 8_000_000_000 <==> bytes <= 2_305_843_009
  {
    var p := Wrap(bytes * 8000);
    if bytes <= 2_305_843_009 {
      assert bytes * 8000 < TWO64;
    }
  }

  /** In 64 bits the spacing is the transmission time of eight times the bytes, rounded down. */
  lemma {:induction false} SpacingIs(bytes: u64, rate: u64)
    requires 0 < rate && bytes <= 2_305_843_009
    ensures AddNs(bytes, rate) * rate <= 8_000_000_000 * bytes < (AddNs(bytes, rate) + 1) * rate
  {
    SpacingExact(bytes);
    QuotientBound(SpacingDividend(bytes), rate);
  }

  /** An over-rate egress packet: when it was seen and how long it occupies the wire. */
  datatype Job = Job(now: u64, add: u64)

  function Release(cursor: u64, j: Job): u64 {
    Wrap(Max(cursor, j.now) + j.add)
  }

  predicate IsStamped(cursor: u64, j: Job) {
    Wrap(Release(cursor, j) - j.now) <= MAX_EDT_DELAY_NS
  }

  /** Every job moves the cursor, whether it is stamped, marked or dropped in the end. */
  function Cursor(start: u64, js: seq<Job>): u64 {
    if js == [] then start else Release(Cursor(start, js[..|js| - 1]), js[|js| - 1])
  }

  // ---------------------------------------------------------------- the max-plus closed form

  function Sum(js: seq<Job>): nat {
    if js == [] then 0 else Sum(js[..|js| - 1]) + js[|js| - 1].add
  }

  /** The cursor had it unbounded range. */
  function Exact(start: nat, js: seq<Job>): nat {
    if js == [] then start else Max(Exact(start, js[..|js| - 1]), js[|js| - 1].now) + js[|js| - 1].add
  }

  /** The work queued since an origin: the start (k = 0), or the arrival of job k - 1. */
  function Since(start: nat, js: seq<Job>, k: nat): nat
    requires k <= |js|
  {
    if k == 0 then start + Sum(js) else js[k - 1].now + Sum(js[k - 1..])
  }

  lemma {:induction false} SinceSnoc(start: nat, js: seq<Job>, k: nat)
    requires js != [] && k <= |js|
    ensures var front, j := js[..|js| - 1], js[|js| - 1];
            Since(start, js, k) == (if k < |js| then Since(start, front, k) else j.now) + j.add
  {
    if k > 0 {
      var front, j, tail := js[..|js| - 1], js[|js| - 1], js[k - 1..];
      assert tail[..|tail| - 1] == front[k - 1..] && tail[|tail| - 1] == j;
      assert Sum(tail) == Sum(front[k - 1..]) + j.add;
      if k < |js| {
        assert front[k - 1] == js[k - 1];
      }
    }
  }

  /** The cursor is the maximum over all origins of the work queued since that origin. */
  lemma {:induction false} MaxPlus(start: nat, js: seq<Job>)
    ensures forall k :: 0 <= k <= |js| ==> Since(start, js, k) <= Exact(start, js)
    ensures exists k :: 0 <= k <= |js| && Since(start, js, k) == Exact(start, js)
  {
    if js == [] {
      assert Since(start, js, 0) == Exact(start, js);
    } else {
      var front, j := js[..|js| - 1], js[|js| - 1];
      MaxPlus(start, front);
      forall k | 0 <= k <= |js| ensures Since(start, js, k) <= Exact(start, js) {
        SinceSnoc(start, js, k);
      }
      var w :| 0 <= w <= |front| && Since(start, front, w) == Exact(start, front);
      var k := if Exact(start, front) < j.now then |js| else w;
      SinceSnoc(start, js, k);
      assert Since(start, js, k) == Exact(start, js);
    }
  }

  ghost predicate Faithful(start: u64, js: seq<Job>) {
    forall n :: 0 <= n <= |js| ==> Cursor(start, js[..n]) == Exact(start, js[..n])
  }

  lemma {:induction false} ExactGrows(start: nat, js: seq<Job>, n: nat)
    requires n <= |js|
    ensures Exact(start, js[..n]) <= Exact(start, js)
  {
    if n == |js| {
      assert js[..n] == js;
    } else {
      assert js[..|js| - 1][..n] == js[..n];
      ExactGrows(start, js[..|js| - 1], n);
    }
  }

  lemma {:induction false} CursorExact(start: u64, js: seq<Job>)
    requires Exact(start, js) < TWO64
    ensures Cursor(start, js) == Exact(start, js)
  {
    if js != [] {
      CursorExact(start, js[..|js| - 1]);
    }
  }

  /** The 64-bit cursor follows the closed form throughout exactly when the final value fits. */
  lemma {:induction false} FaithfulIffFits(start: u64, js: seq<Job>)
    ensures Faithful(start, js) <==> Exact(start, js) < TWO64
  {
    assert js[..|js|] == js;
    if Exact(start, js) < TWO64 {
      forall n | 0 <= n <= |js| ensures Cursor(start, js[..n]) == Exact(start, js[..n]) {
        ExactGrows(start, js, n);
        CursorExact(start, js[..n]);
      }
    }
  }

  /**
   The debt cursor after any run of over-rate packets on any clocks is the max-plus closed form, and
   a packet is stamped exactly when that value is at most 50 ms past its own clock.
   */
  lemma {:induction false} CursorIsLindley(start: u64, js: seq<Job>)
    requires Exact(start, js) < TWO64
    ensures forall k :: 0 <= k <= |js| ==> Since(start, js, k) <= Cursor(start, js)
    ensures exists k :: 0 <= k <= |js| && Since(start, js, k) == Cursor(start, js)
    ensures js != [] ==>
              (IsStamped(Cursor(start, js[..|js| - 1]), js[|js| - 1]) <==>
               Cursor(start, js) - js[|js| - 1].now <= MAX_EDT_DELAY_NS)
  {
    MaxPlus(start, js);
    CursorExact(start, js);
    if js != [] {
      CursorExact(start, js[..|js| - 1]);
    }
  }

  // ---------------------------------------------------------------- stamped packets

  datatype Stamp = Stamp(now: u64, add: u64, release: u64)

  /** The stamped packets of a run, in order. */
  function Stamps(start: u64, js: seq<Job>): seq<Stamp> {
    if js == [] then [] else
      var front, j := js[..|js| - 1], js[|js| - 1];
      var c := Cursor(start, front);
      if IsStamped(c, j) then Stamps(start, front) + [Stamp(j.now, j.add, Release(c, j))]
      else Stamps(start, front)
  }

  /** Each release comes at least its own transmission time after every earlier one. */
  ghost predicate Separated(ss: seq<Stamp>) {
    forall i, j :: 0 <= i < j < |ss| ==> ss[i].release + ss[j].add <= ss[j].release
  }

  ghost predicate Bounded(ss: seq<Stamp>) {
    forall i :: 0 <= i < |ss| ==> ss[i].now <= ss[i].release <= ss[i].now + MAX_EDT_DELAY_NS
  }

  lemma {:induction false} StampsSeparated(start: u64, js: seq<Job>)
    requires Exact(start, js) < TWO64
    ensures Separated(Stamps(start, js)) && Bounded(Stamps(start, js))
    ensures forall i :: 0 <= i < |Stamps(start, js)| ==> Stamps(start, js)[i].release <= Cursor(start, js)
  {
    if js != [] {
      var front, j := js[..|js| - 1], js[|js| - 1];
      var c := Cursor(start, front);
      StampsSeparated(start, front);
      assert c <= Max(c, j.now) + j.add == Cursor(start, js) by {
        CursorExact(start, front);
        CursorExact(start, js);
      }
      if IsStamped(c, j) {
        StampAppended(Stamps(start, front), Stamp(j.now, j.add, Release(c, j)), c);
      }
    }
  }

  lemma {:induction false} StampAppended(ss: seq<Stamp>, x: Stamp, top: nat)
    requires Separated(ss) && Bounded(ss)
    requires forall i :: 0 <= i < |ss| ==> ss[i].release <= top
    requires top + x.add <= x.release && x.now <= x.release <= x.now + MAX_EDT_DELAY_NS
    ensures Separated(ss + [x]) && Bounded(ss + [x])
    ensures forall i :: 0 <= i < |ss + [x]| ==> (ss + [x])[i].release <= x.release
  {
  }

  /** The packets the fq qdisc still holds at time t. */
  function Held(ss: seq<Stamp>, t: nat): seq<Stamp> {
    if ss == [] then [] else
      var rest, s := Held(ss[..|ss| - 1], t), ss[|ss| - 1];
      if s.release > t then rest + [s] else rest
  }

  function SumAdds(ss: seq<Stamp>): nat {
    if ss == [] then 0 else SumAdds(ss[..|ss| - 1]) + ss[|ss| - 1].add
  }

  lemma {:induction false} HeldIsSubset(ss: seq<Stamp>, t: nat, i: nat)
    requires i < |Held(ss, t)|
    ensures Held(ss, t)[i].release > t
    ensures exists n :: 0 <= n < |ss| && ss[n] == Held(ss, t)[i]
  {
    var front, s := ss[..|ss| - 1], ss[|ss| - 1];
    if i < |Held(front, t)| {
      HeldIsSubset(front, t, i);
      var n :| 0 <= n < |front| && front[n] == Held(front, t)[i];
      assert ss[n] == Held(ss, t)[i];
    }
  }

  lemma {:induction false} HeldSeparated(ss: seq<Stamp>, t: nat)
    requires Separated(ss)
    ensures Separated(Held(ss, t))
  {
    if ss != [] {
      var front, s := ss[..|ss| - 1], ss[|ss| - 1];
      HeldSeparated(front, t);
      var rest := Held(front, t);
      forall i | 0 <= i < |rest| ensures rest[i].release + s.add <= s.release {
        HeldIsSubset(front, t, i);
        var n :| 0 <= n < |front| && front[n] == rest[i];
        assert ss[n].release + ss[|ss| - 1].add <= ss[|ss| - 1].release;
      }
    }
  }

  lemma {:induction false} SeparatedSum(ss: seq<Stamp>)
    requires ss != [] && Separated(ss)
    ensures ss[0].release + SumAdds(ss[1..]) <= ss[|ss| - 1].release
  {
    if |ss| > 1 {
      var front := ss[..|ss| - 1];
      SeparatedSum(front);
      assert ss[1..][..|ss| - 2] == front[1..];
      assert ss[|ss| - 2].release + ss[|ss| - 1].add <= ss[|ss| - 1].release;
    }
  }

  /**
   The fq backlog is bounded: at any time at or after every stamp, the transmission times of the
   packets still held, leaving out the earliest, add up to less than 50 ms.
   */
  lemma {:induction false} BacklogBounded(start: u64, js: seq<Job>, t: nat)
    requires Exact(start, js) < TWO64
    requires forall i :: 0 <= i < |Stamps(start, js)| ==> Stamps(start, js)[i].now <= t
    ensures var h := Held(Stamps(start, js), t);
            h != [] ==> SumAdds(h[1..]) < MAX_EDT_DELAY_NS
  {
    var ss := Stamps(start, js);
    var h := Held(ss, t);
    StampsSeparated(start, js);
    HeldSeparated(ss, t);
    if h != [] {
      SeparatedSum(h);
      HeldIsSubset(ss, t, 0);
      HeldIsSubset(ss, t, |h| - 1);
    }
  }
}
