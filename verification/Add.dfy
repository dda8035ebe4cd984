/**
 What an ADD comes to: which attempt wins, where its programs sit, and which numbers it writes for them.
 Stated in the terms of an operator, names and numbers spelled out.
 */
module AddOutcome {
  import opened Words
  import opened Flow
  import opened Limits
  import opened Attach
  import DP = Dataplane

  // ---------------------------------------------------------------- names and places

  function SidePart(side: Side): string {
    if side == HostSide then "-hostside-" else "-podside-"
  }

  function DirPart(dir: Direction): string {
    if dir == Ingress then "ingress-link" else "egress-link"
  }

  lemma {:induction false} SidePartIs(side: Side)
    ensures "-" + SideName(side) + "-" == SidePart(side)
  {
  }

  lemma {:induction false} DirPartIs(dir: Direction)
    ensures DirName(dir) + "-link" == DirPart(dir)
  {
  }

  lemma {:induction false} Regroup(id: string, a: string, b: string, c: string, d: string, e: string)
    ensures id + a + b + c + d + e == id + (a + b + c) + (d + e)
  {
  }

  /** The four names of a container's links. */
  lemma {:induction false} LinkNamesAre(id: string, side: Side, dir: Direction)
    ensures LinkName(id, side, dir) == id + SidePart(side) + DirPart(dir)
  {
    Regroup(id, "-", SideName(side), "-", DirName(dir), "-link");
    SidePartIs(side);
    DirPartIs(dir);
  }

  /** No two of them are the same. */
  lemma {:induction false} LinkNamesDiffer(id: string, side: Side, dir: Direction, side': Side, dir': Direction)
    ensures LinkName(id, side, dir) == LinkName(id, side', dir') <==> side == side' && dir == dir'
  {
    LinkNamesAre(id, side, dir);
    LinkNamesAre(id, side', dir');
    var l, m := LinkName(id, side, dir), LinkName(id, side', dir');
    assert l[|id| + 1] == (if side == HostSide then 'h' else 'p') && m[|id| + 1] == if side' == HostSide then 'h' else 'p';
    assert side == side' && dir != dir' ==> |l| != |m|;
  }

  /** The limits of a configuration slot, in numbers. */
  ghost predicate Writes(slot: DP.Config, c: Config) {
    slot.rate == c.rate && slot.burst == c.burst && slot.hh == c.hh
  }

  /**
   A program enforces the limits of the direction it serves, never paces ingress, and sits on the hook
   that direction passes: seen from the host side, what enters the pod leaves the veth.
   */
  ghost predicate WellPlaced(live: Live, side: Side, hook: Direction, ingress: Option<Config>, egress: Option<Config>) {
    match live.dir
    case Ingress =>
      && ingress.Some? && Writes(live.cfg, ingress.value) && live.cfg.edt == 0
      && side == live.side && hook == (if side == HostSide then Egress else Ingress)
    case Egress =>
      && egress.Some? && Writes(live.cfg, egress.value)
      && side == live.side && hook == (if side == HostSide then Ingress else Egress)
  }

  ghost predicate AllValidate(ingress: Option<Config>, egress: Option<Config>) {
    (ingress.Some? ==> Validate(ingress.value)) && (egress.Some? ==> Validate(egress.value))
  }

  lemma {:induction false} StepWellPlaced(a: Attempt, ingress: Option<Config>, egress: Option<Config>, j: nat, pacing: u64)
    requires AllValidate(ingress, egress) && j < |StepsOf(ingress, egress)|
    ensures StepOk(a, StepsOf(ingress, egress)[j], pacing, (l, s, d) => WellPlaced(l, s, d, ingress, egress))
  {
  }

  lemma {:induction false} ChainWellPlaced(h0: Host, h: Host, stuck: set<string>, id: string, ingress: Option<Config>,
                                           egress: Option<Config>, strategy: seq<Attempt>, edt: EdtMode, scripts: nat -> Script, i: nat)
    requires AllValidate(ingress, egress) && i <= |strategy|
    requires NewPrograms(h0, h, (l, s, d) => WellPlaced(l, s, d, ingress, egress))
    ensures NewPrograms(h0, TryAll(h, stuck, id, StepsOf(ingress, egress), strategy, edt, scripts, i).host,
                        (l, s, d) => WellPlaced(l, s, d, ingress, egress))
    decreases |strategy| - i
  {
    if i < |strategy| {
      var steps, a, sc := StepsOf(ingress, egress), strategy[i], scripts(i);
      var ok := (l, s, d) => WellPlaced(l, s, d, ingress, egress);
      var paced := Probes(a, edt) && sc.installFq;
      var pacing: u64 := if paced then 1 else 0;
      var h1 := if paced then h.(fq := true) else h;
      forall j | 0 <= j < |steps| ensures StepOk(a, steps[j], pacing, ok) {
        StepWellPlaced(a, ingress, egress, j, pacing);
      }
      AttachFromPrograms(h0, h1, stuck, id, a, steps, pacing, sc, 0, map[], ok);
      ChainWellPlaced(h0, TryOne(h, stuck, id, steps, a, edt, sc).host, stuck, id, ingress, egress, strategy, edt, scripts, i + 1);
    }
  }

  /** Every program an ADD leaves live, failed attempts' filters included, has the limits and hook of its direction. */
  lemma {:induction false} ProgramsCarryLimits(h: Host, stuck: set<string>, id: string, ingress: Option<Config>, egress: Option<Config>,
                                               strategy: seq<Attempt>, edt: EdtMode, mkdir: bool, scripts: nat -> Script)
    requires AllValidate(ingress, egress)
    ensures NewPrograms(h, AttachBPF(h, stuck, id, StepsOf(ingress, egress), strategy, edt, mkdir, scripts).host,
                        (l, s, d) => WellPlaced(l, s, d, ingress, egress))
  {
    ChainWellPlaced(h, h, stuck, id, ingress, egress, strategy, edt, scripts, 0);
  }

  // ---------------------------------------------------------------- which attempt wins

  /** Every call an attempt needs succeeds; fq is needed on the pod side when pacing is required. */
  ghost predicate Works(a: Attempt, edt: EdtMode, steps: seq<Step>, sc: Script) {
    && sc.ifIndex && sc.load
    && (edt == EdtOn && a.side == PodSide ==> sc.installFq)
    && forall j :: 0 <= j < |steps| ==> sc.configure(j) && sc.attach(j)
  }

  /** A container may have no link of a side pinned yet. */
  ghost predicate SideFree(pins: set<string>, id: string, side: Side) {
    LinkName(id, side, Ingress) !in pins && LinkName(id, side, Egress) !in pins
  }

  /** Whether the steps from i on go through: every call succeeds, and no link's name is taken. */
  ghost predicate StepsGoThrough(pins: set<string>, id: string, a: Attempt, steps: seq<Step>, sc: Script, i: nat) {
    forall j :: i <= j < |steps| ==>
      sc.configure(j) && sc.attach(j) && (a.hook == Tcx ==> LinkName(id, a.side, steps[j].dir) !in pins)
  }

  lemma {:induction false} AttachFromSucceeds(h: Host, stuck: set<string>, id: string, a: Attempt, steps: seq<Step>,
                                              pacing: u64, sc: Script, i: nat, slots: map<Direction, DP.Config>)
    requires i <= |steps| && DistinctDirs(steps)
    ensures var r := AttachFrom(h, stuck, id, a, steps, pacing, sc, i, slots);
            && (r.program.Some? <==> StepsGoThrough(h.pins.Keys, id, a, steps, sc, i))
            && (r.program.Some? ==> r.program.value.attempt == a && r.program.value.slots.Keys <= slots.Keys + DirsOf(steps))
            && h.filters.Keys <= r.host.filters.Keys
    decreases |steps| - i
  {
    if i < |steps| {
      var step := steps[i];
      var slot := SlotOf(step, pacing);
      if sc.configure(i) && CanAttach(h, id, a, step.dir, sc.attach(i)) {
        var h1 := Attached(h, id, a, Live(step.dir, a.side, slot));
        forall j | i < j < |steps| ensures LinkName(id, a.side, steps[j].dir) != LinkName(id, a.side, step.dir) {
          LinkNamesDiffer(id, a.side, steps[j].dir, a.side, step.dir);
        }
        assert StepsGoThrough(h.pins.Keys, id, a, steps, sc, i) <==> StepsGoThrough(h1.pins.Keys, id, a, steps, sc, i + 1);
        AttachFromSucceeds(h1, stuck, id, a, steps, pacing, sc, i + 1, slots[step.dir := slot]);
      }
    }
  }

  ghost function DirsOf(steps: seq<Step>): set<Direction> {
    set j | 0 <= j < |steps| :: steps[j].dir
  }

  /** A failed attempt pins no name but its own side's links, and those on tcx only. */
  lemma {:induction false} FailureKeepsOtherSide(h: Host, stuck: set<string>, id: string, a: Attempt, steps: seq<Step>, pacing: u64,
                                                 sc: Script, i: nat, slots: map<Direction, DP.Config>, side: Side)
    requires i <= |steps| && SideFree(h.pins.Keys, id, side) && (a.hook.Tcx? ==> a.side != side)
    ensures var r := AttachFrom(h, stuck, id, a, steps, pacing, sc, i, slots);
            r.program.None? ==> SideFree(r.host.pins.Keys, id, side)
    decreases |steps| - i
  {
    if i < |steps| {
      var step := steps[i];
      var slot := SlotOf(step, pacing);
      if sc.configure(i) && CanAttach(h, id, a, step.dir, sc.attach(i)) {
        LinkNamesDiffer(id, a.side, step.dir, side, Ingress);
        LinkNamesDiffer(id, a.side, step.dir, side, Egress);
        FailureKeepsOtherSide(Attached(h, id, a, Live(step.dir, a.side, slot)), stuck, id, a, steps, pacing, sc, i + 1,
                              slots[step.dir := slot], side);
      } else {
        RollbackRemoves(h.pins, stuck, id, a.side, steps, i);
      }
    }
  }

  /** The slots a winning attempt has written: each requested direction's limits, and pacing on egress over fq only. */
  ghost predicate ProgramIs(p: Program, a: Attempt, edt: EdtMode, sc: Script, ingress: Option<Config>, egress: Option<Config>) {
    && p.attempt == a
    && (Ingress in p.slots <==> ingress.Some?)
    && (Egress in p.slots <==> egress.Some?)
    && (ingress.Some? ==> Writes(p.slots[Ingress], ingress.value) && p.slots[Ingress].edt == 0)
    && (egress.Some? ==> Writes(p.slots[Egress], egress.value)
                         && p.slots[Egress].edt == (if a.side == PodSide && edt != EdtOff && sc.installFq then 1 else 0))
  }

  /** One attempt, with its links' names free: it succeeds exactly when its calls do. */
  lemma {:induction false} AttemptIs(h: Host, stuck: set<string>, id: string, ingress: Option<Config>, egress: Option<Config>,
                                     a: Attempt, edt: EdtMode, sc: Script)
    requires AllValidate(ingress, egress) && (a.hook.Tcx? ==> SideFree(h.pins.Keys, id, a.side))
    ensures var r := TryOne(h, stuck, id, StepsOf(ingress, egress), a, edt, sc);
            && (r.program.Some? <==> Works(a, edt, StepsOf(ingress, egress), sc))
            && (r.program.Some? ==> ProgramIs(r.program.value, a, edt, sc, ingress, egress))
  {
    var steps := StepsOf(ingress, egress);
    var paced := Probes(a, edt) && sc.installFq;
    var pacing: u64 := if paced then 1 else 0;
    var h1 := if paced then h.(fq := true) else h;
    AttachFromSucceeds(h1, stuck, id, a, steps, pacing, sc, 0, map[]);
    AttachFromSlots(h1, stuck, id, a, steps, pacing, sc, 0, map[]);
    var r := AttachFrom(h1, stuck, id, a, steps, pacing, sc, 0, map[]);
    if r.program.Some? {
      SlotsAre(r.program.value, a, edt, sc, ingress, egress, pacing);
    }
  }

  lemma {:induction false} SlotsAre(p: Program, a: Attempt, edt: EdtMode, sc: Script, ingress: Option<Config>, egress: Option<Config>,
                                    pacing: u64)
    requires AllValidate(ingress, egress) && p.attempt == a
    requires pacing == if Probes(a, edt) && sc.installFq then 1 else 0
    requires SlotsSet(p.slots, StepsOf(ingress, egress), pacing, |StepsOf(ingress, egress)|)
    requires p.slots.Keys <= DirsOf(StepsOf(ingress, egress))
    ensures ProgramIs(p, a, edt, sc, ingress, egress)
  {
    var steps := StepsOf(ingress, egress);
    if ingress.Some? {
      assert steps[0] == Step(Ingress, ingress.value);
    }
    if egress.Some? {
      assert steps[|steps| - 1] == Step(Egress, egress.value);
    }
  }

  /** No two tcx attempts on the same side. */
  ghost predicate TcxOncePerSide(strategy: seq<Attempt>) {
    forall n, m :: 0 <= n < m < |strategy| && strategy[n].hook.Tcx? && strategy[m].hook.Tcx? ==>
      strategy[n].side != strategy[m].side
  }

  /** Attempt n is the first whose calls all succeed. */
  ghost predicate FirstToWork(strategy: seq<Attempt>, edt: EdtMode, steps: seq<Step>, scripts: nat -> Script, i: nat, n: nat) {
    && i <= n < |strategy| && Works(strategy[n], edt, steps, scripts(n))
    && forall m :: i <= m < n ==> !Works(strategy[m], edt, steps, scripts(m))
  }

  ghost predicate WonBy(p: Program, n: nat, strategy: seq<Attempt>, edt: EdtMode, scripts: nat -> Script,
                        ingress: Option<Config>, egress: Option<Config>, i: nat) {
    && FirstToWork(strategy, edt, StepsOf(ingress, egress), scripts, i, n)
    && ProgramIs(p, strategy[n], edt, scripts(n), ingress, egress)
  }

  ghost predicate ChainIs(r: Result, strategy: seq<Attempt>, edt: EdtMode, scripts: nat -> Script,
                          ingress: Option<Config>, egress: Option<Config>, i: nat) {
    if r.program.None? then forall n :: i <= n < |strategy| ==> !Works(strategy[n], edt, StepsOf(ingress, egress), scripts(n))
    else exists n :: WonBy(r.program.value, n, strategy, edt, scripts, ingress, egress, i)
  }

  lemma {:induction false} ChainStops(h: Host, stuck: set<string>, id: string, ingress: Option<Config>, egress: Option<Config>,
                                      strategy: seq<Attempt>, edt: EdtMode, scripts: nat -> Script, i: nat)
    requires AllValidate(ingress, egress) && i <= |strategy| && TcxOncePerSide(strategy)
    requires forall n :: i <= n < |strategy| && strategy[n].hook.Tcx? ==> SideFree(h.pins.Keys, id, strategy[n].side)
    ensures ChainIs(TryAll(h, stuck, id, StepsOf(ingress, egress), strategy, edt, scripts, i), strategy, edt, scripts, ingress, egress, i)
    decreases |strategy| - i
  {
    if i < |strategy| {
      var steps, a, sc := StepsOf(ingress, egress), strategy[i], scripts(i);
      var one := TryOne(h, stuck, id, steps, a, edt, sc);
      AttemptIs(h, stuck, id, ingress, egress, a, edt, sc);
      if one.program.Some? {
        assert WonBy(one.program.value, i, strategy, edt, scripts, ingress, egress, i);
      } else {
        forall n | i < n < |strategy| && strategy[n].hook.Tcx? ensures SideFree(one.host.pins.Keys, id, strategy[n].side) {
          FailedAttemptKeeps(h, stuck, id, steps, a, edt, sc, strategy[n].side);
        }
        ChainStops(one.host, stuck, id, ingress, egress, strategy, edt, scripts, i + 1);
        var r := TryAll(one.host, stuck, id, steps, strategy, edt, scripts, i + 1);
        if r.program.Some? {
          var n :| WonBy(r.program.value, n, strategy, edt, scripts, ingress, egress, i + 1);
          assert WonBy(r.program.value, n, strategy, edt, scripts, ingress, egress, i);
        }
      }
    }
  }

  lemma {:induction false} FailedAttemptKeeps(h: Host, stuck: set<string>, id: string, steps: seq<Step>, a: Attempt, edt: EdtMode,
                                              sc: Script, side: Side)
    requires SideFree(h.pins.Keys, id, side) && (a.hook.Tcx? ==> a.side != side)
    ensures var r := TryOne(h, stuck, id, steps, a, edt, sc);
            r.program.None? ==> SideFree(r.host.pins.Keys, id, side)
  {
    var paced := Probes(a, edt) && sc.installFq;
    var h1 := if paced then h.(fq := true) else h;
    FailureKeepsOtherSide(h1, stuck, id, a, steps, if paced then 1 else 0, sc, 0, map[], side);
  }

  lemma {:induction false} UnusedIsFree(pins: set<string>, id: string, side: Side)
    requires Unused(pins, id)
    ensures SideFree(pins, id, side)
  {
    NamesHavePrefix(id, side, Ingress, "");
    NamesHavePrefix(id, side, Egress, "");
  }

  /**
   An ADD in full, for every pattern of failures, names that cannot be removed included: it succeeds
   exactly when the pin directory can be made, required pacing is not asked of the host side, and the
   calls of some attempt all succeed; the first such attempt wins, and its slots carry exactly the
   requested limits, with pacing on pod-side egress over an installed fq and nowhere else.
   */
  lemma {:induction false} AddIs(h: Host, stuck: set<string>, id: string, ingress: Option<Config>, egress: Option<Config>,
                                 strategy: seq<Attempt>, edt: EdtMode, mkdir: bool, scripts: nat -> Script)
    requires Unused(h.pins.Keys, id) && AllValidate(ingress, egress) && TcxOncePerSide(strategy)
    ensures var r := AttachBPF(h, stuck, id, StepsOf(ingress, egress), strategy, edt, mkdir, scripts);
            if mkdir && (edt == EdtOn ==> forall n :: 0 <= n < |strategy| ==> strategy[n].side == PodSide)
            then ChainIs(r, strategy, edt, scripts, ingress, egress, 0)
            else r == Result(h, None)
  {
    forall n | 0 <= n < |strategy| && strategy[n].hook.Tcx? ensures SideFree(h.pins.Keys, id, strategy[n].side) {
      UnusedIsFree(h.pins.Keys, id, strategy[n].side);
    }
    ChainStops(h, stuck, id, ingress, egress, strategy, edt, scripts, 0);
  }

  // ---------------------------------------------------------------- map pins

  /** The first n kinds have their maps pinned, and nothing else is new. */
  ghost predicate MapsPinned(before: map<string, Pin>, after: map<string, Pin>, id: string, kinds: seq<string>, n: nat) {
    n <= |kinds| && after.Keys == before.Keys + MapNames(id, kinds[..n])
  }

  /** Map pinning stops where a pin fails, and only there. */
  ghost predicate StopsAt(pins: map<string, Pin>, id: string, kinds: seq<string>, ok: string -> bool, n: nat) {
    && n <= |kinds| && (forall j :: 0 <= j < n ==> ok(kinds[j]) && MapName(id, kinds[j]) !in pins)
    && (n < |kinds| ==> !ok(kinds[n]) || MapName(id, kinds[n]) in pins)
  }

  lemma {:induction false} MapNamesCons(id: string, kinds: seq<string>, n: nat)
    requires 0 < n <= |kinds|
    ensures MapNames(id, kinds[..n]) == {MapName(id, kinds[0])} + MapNames(id, kinds[1..][..n - 1])
  {
    var all, rest := kinds[..n], kinds[1..][..n - 1];
    forall name | name in MapNames(id, all) ensures name in {MapName(id, kinds[0])} + MapNames(id, rest) {
      var i :| 0 <= i < |all| && MapName(id, all[i]) == name;
      if i > 0 {
        assert rest[i - 1] == all[i];
      }
    }
    forall name | name in MapNames(id, rest) ensures name in MapNames(id, all) {
      var i :| 0 <= i < |rest| && MapName(id, rest[i]) == name;
      assert all[i + 1] == rest[i];
    }
    assert all[0] == kinds[0];
  }

  lemma {:induction false} MapNamesDiffer(id: string, a: string, b: string)
    ensures MapName(id, a) == MapName(id, b) <==> a == b
  {
    var m, n := MapName(id, a), MapName(id, b);
    if m == n {
      assert |a| == |b|;
      assert m[|id| + 1..|id| + 1 + |a|] == a && n[|id| + 1..|id| + 1 + |b|] == b;
    }
  }

  lemma {:induction false} StopsLater(pins: map<string, Pin>, id: string, kinds: seq<string>, ok: string -> bool, m: nat)
    requires kinds != [] && (forall i, j :: 0 <= i < j < |kinds| ==> kinds[i] != kinds[j])
    requires ok(kinds[0]) && MapName(id, kinds[0]) !in pins
    requires StopsAt(pins[MapName(id, kinds[0]) := MapPin], id, kinds[1..], ok, m)
    ensures StopsAt(pins, id, kinds, ok, m + 1)
  {
    var rest := kinds[1..];
    forall j | 0 < j < |kinds| ensures MapName(id, kinds[j]) != MapName(id, kinds[0]) && rest[j - 1] == kinds[j] {
      MapNamesDiffer(id, kinds[j], kinds[0]);
    }
    forall j | 0 <= j < m + 1 ensures ok(kinds[j]) && MapName(id, kinds[j]) !in pins {
      if j > 0 {
        assert rest[j - 1] == kinds[j];
      }
    }
    if m + 1 < |kinds| {
      assert rest[m] == kinds[m + 1];
    }
  }

  lemma {:induction false} PinnedLater(before: map<string, Pin>, after: map<string, Pin>, id: string, kinds: seq<string>, m: nat)
    requires kinds != [] && MapsPinned(before[MapName(id, kinds[0]) := MapPin], after, id, kinds[1..], m)
    ensures MapsPinned(before, after, id, kinds, m + 1)
  {
    MapNamesCons(id, kinds, m + 1);
  }

  /** Exactly the maps up to the first that cannot be pinned are pinned. */
  lemma {:induction false} PinMapsExactly(pins: map<string, Pin>, id: string, kinds: seq<string>, ok: string -> bool) returns (n: nat)
    requires id != "" && forall i, j :: 0 <= i < j < |kinds| ==> kinds[i] != kinds[j]
    ensures MapsPinned(pins, PinMaps(pins, id, kinds, ok), id, kinds, n) && StopsAt(pins, id, kinds, ok, n)
    decreases |kinds|
  {
    n := 0;
    if kinds == [] || !ok(kinds[0]) || MapName(id, kinds[0]) in pins {
      assert MapNames(id, kinds[..0]) == {};
    } else {
      var more := pins[MapName(id, kinds[0]) := MapPin];
      var m := PinMapsExactly(more, id, kinds[1..], ok);
      PinnedLater(pins, PinMaps(more, id, kinds[1..], ok), id, kinds, m);
      StopsLater(pins, id, kinds, ok, m);
      n := m + 1;
    }
  }
}

/** From an operator's texts and a pod's limits to the program that is live. */
module AddFromSettings {
  import opened Words
  import opened Flow
  import opened Limits
  import opened Attach
  import opened Settings
  import opened AddOutcome
  import DP = Dataplane

  /** Every mode's list of attempts tries tcx at most once per side. */
  lemma {:induction false} StrategiesTryTcxOnce(mode: string, edt: EdtMode)
    ensures var st := ResolveAttachStrategy(mode, edt); st.Some? ==> TcxOncePerSide(st.value)
  {
  }

  /**
   The order of fallback in the automatic modes. Unless pacing is off, the pod side is tried before the host
   side, which is left out when pacing is required; with pacing off, the host side comes first and clsact
   is the last resort on either side. Each list is the first of its attempts to work.
   */
  ghost function AutoWinner(edt: EdtMode, steps: seq<Step>, scripts: nat -> Script): Option<(nat, Attempt)> {
    var tcxPod, clsactPod := Attempt(Tcx, PodSide), Attempt(Clsact, PodSide);
    var tcxHost, clsactHost := Attempt(Tcx, HostSide), Attempt(Clsact, HostSide);
    if edt == EdtOff then
      if Works(tcxHost, edt, steps, scripts(0)) then Some((0, tcxHost))
      else if Works(tcxPod, edt, steps, scripts(1)) then Some((1, tcxPod))
      else if Works(clsactHost, edt, steps, scripts(2)) then Some((2, clsactHost))
      else if Works(clsactPod, edt, steps, scripts(3)) then Some((3, clsactPod))
      else None
    else
      if Works(tcxPod, edt, steps, scripts(0)) then Some((0, tcxPod))
      else if Works(clsactPod, edt, steps, scripts(1)) then Some((1, clsactPod))
      else if edt == EdtAuto && Works(tcxHost, edt, steps, scripts(2)) then Some((2, tcxHost))
      else if edt == EdtAuto && Works(clsactHost, edt, steps, scripts(3)) then Some((3, clsactHost))
      else None
  }

  /** The one attempt an explicit mode names. */
  ghost predicate Names(mode: string, a: Attempt) {
    || (mode == "tcx-hostside" && a == Attempt(Tcx, HostSide))
    || (mode == "tcx-podside" && a == Attempt(Tcx, PodSide))
    || (mode == "clsact-hostside" && a == Attempt(Clsact, HostSide))
    || (mode == "clsact-podside" && a == Attempt(Clsact, PodSide))
  }

  /** The winner of an automatic mode, for every pattern of failures. */
  lemma {:induction false} AutoFallsBack(h: Host, stuck: set<string>, id: string, ingress: Option<Config>, egress: Option<Config>,
                                         mode: string, edt: EdtMode, scripts: nat -> Script)
    requires Unused(h.pins.Keys, id) && AllValidate(ingress, egress) && mode in AUTO_TEXTS
    ensures var steps := StepsOf(ingress, egress);
            var r := AttachBPF(h, stuck, id, steps, ResolveAttachStrategy(mode, edt).value, edt, true, scripts);
            var winner := AutoWinner(edt, steps, scripts);
            && (r.program.Some? <==> winner.Some?)
            && (winner.Some? ==> ProgramIs(r.program.value, winner.value.1, edt, scripts(winner.value.0), ingress, egress))
  {
    var steps, strategy := StepsOf(ingress, egress), ResolveAttachStrategy(mode, edt).value;
    StrategiesTryTcxOnce(mode, edt);
    AddIs(h, stuck, id, ingress, egress, strategy, edt, true, scripts);
    var r := AttachBPF(h, stuck, id, steps, strategy, edt, true, scripts);
    if r.program.Some? {
      var n :| WonBy(r.program.value, n, strategy, edt, scripts, ingress, egress, 0);
      FirstIsWinner(mode, edt, steps, scripts, n);
    } else {
      NoneIsNoWinner(mode, edt, steps, scripts);
    }
  }

  lemma {:induction false} FirstIsWinner(mode: string, edt: EdtMode, steps: seq<Step>, scripts: nat -> Script, n: nat)
    requires mode in AUTO_TEXTS
    requires FirstToWork(ResolveAttachStrategy(mode, edt).value, edt, steps, scripts, 0, n)
    ensures AutoWinner(edt, steps, scripts) == Some((n, ResolveAttachStrategy(mode, edt).value[n]))
  {
    var strategy := ResolveAttachStrategy(mode, edt).value;
    assert forall m :: 0 <= m < n ==> !Works(strategy[m], edt, steps, scripts(m));
    assert n > 0 ==> !Works(strategy[0], edt, steps, scripts(0));
    assert n > 1 ==> !Works(strategy[1], edt, steps, scripts(1));
    assert n > 2 ==> !Works(strategy[2], edt, steps, scripts(2));
  }

  lemma {:induction false} NoneIsNoWinner(mode: string, edt: EdtMode, steps: seq<Step>, scripts: nat -> Script)
    requires mode in AUTO_TEXTS
    requires var st := ResolveAttachStrategy(mode, edt).value;
             forall n :: 0 <= n < |st| ==> !Works(st[n], edt, steps, scripts(n))
    ensures AutoWinner(edt, steps, scripts) == None
  {
    var st := ResolveAttachStrategy(mode, edt).value;
    assert !Works(st[0], edt, steps, scripts(0)) && !Works(st[1], edt, steps, scripts(1));
    assert |st| > 2 ==> !Works(st[2], edt, steps, scripts(2)) && !Works(st[3], edt, steps, scripts(3));
  }

  /** A pod's limits on the node, from kubelet's numbers and annotations to the live programs. */
  ghost function CmdAddFor(h: Host, stuck: set<string>, id: string, scale: Scale, decode: Decode, conf: NetConf,
                           edtPacing: string, attachMode: string, mkdir: bool, scripts: nat -> Script): Option<Result> {
    CmdAdd(h, stuck, id, DirectionConfig(scale, decode, conf, Ingress), DirectionConfig(scale, decode, conf, Egress),
           edtPacing, attachMode, mkdir, scripts)
  }

  /**
   From settings to slots: for every configuration of the network, every setting and every failure, each
   program an ADD leaves live has the limits its direction resolves to and sits on the hook its direction
   passes; and a successful ADD has a slot for exactly the limited directions, with exactly those limits.
   */
  lemma {:induction false} LimitsReachThePrograms(h: Host, stuck: set<string>, id: string, scale: Scale, decode: Decode, conf: NetConf,
                                                  edtPacing: string, attachMode: string, mkdir: bool, scripts: nat -> Script)
    requires Unused(h.pins.Keys, id)
    ensures var ingress, egress := DirectionConfig(scale, decode, conf, Ingress), DirectionConfig(scale, decode, conf, Egress);
            var r := CmdAddFor(h, stuck, id, scale, decode, conf, edtPacing, attachMode, mkdir, scripts);
            r.Some? ==>
              && NewPrograms(h, r.value.host, (l, s, d) => WellPlaced(l, s, d, ingress, egress))
              && (r.value.program.Some? ==> SlotsCarry(r.value.program.value, ingress, egress))
  {
    var ingress, egress := DirectionConfig(scale, decode, conf, Ingress), DirectionConfig(scale, decode, conf, Egress);
    ResolvedLimitsValidate(scale, decode, conf, Ingress);
    ResolvedLimitsValidate(scale, decode, conf, Egress);
    var edt := ParseEDTMode(edtPacing);
    if edt.Some? && ResolveAttachStrategy(attachMode, edt.value).Some? {
      var strategy := ResolveAttachStrategy(attachMode, edt.value).value;
      ProgramsCarryLimits(h, stuck, id, ingress, egress, strategy, edt.value, mkdir, scripts);
      StrategiesTryTcxOnce(attachMode, edt.value);
      AddIs(h, stuck, id, ingress, egress, strategy, edt.value, mkdir, scripts);
    }
  }

  /** A pod without limits is left alone. */
  lemma {:induction false} NoLimitsNoChange(h: Host, stuck: set<string>, id: string, scale: Scale, decode: Decode, conf: NetConf,
                                            edtPacing: string, attachMode: string, mkdir: bool, scripts: nat -> Script)
    requires forall dir :: DirectionConfig(scale, decode, conf, dir) == None
    ensures var r := CmdAddFor(h, stuck, id, scale, decode, conf, edtPacing, attachMode, mkdir, scripts);
            r.Some? ==> r.value == Result(h, None)
  {
  }

  /** A slot for exactly the limited directions, with their limits. */
  ghost predicate SlotsCarry(p: Program, ingress: Option<Config>, egress: Option<Config>) {
    && (Ingress in p.slots <==> ingress.Some?)
    && (Egress in p.slots <==> egress.Some?)
    && (ingress.Some? ==> Writes(p.slots[Ingress], ingress.value) && p.slots[Ingress].edt == 0)
    && (egress.Some? ==> Writes(p.slots[Egress], egress.value))
  }

  /** An explicit mode tries the attempt it names and no other. */
  lemma {:induction false} ExplicitModeIsObeyed(h: Host, stuck: set<string>, id: string, ingress: Option<Config>, egress: Option<Config>,
                                                mode: string, a: Attempt, edt: EdtMode, scripts: nat -> Script)
    requires Unused(h.pins.Keys, id) && AllValidate(ingress, egress) && Names(mode, a)
    requires edt == EdtOn ==> a.side == PodSide
    ensures var st := ResolveAttachStrategy(mode, edt);
            && st.Some?
            && var r := AttachBPF(h, stuck, id, StepsOf(ingress, egress), st.value, edt, true, scripts);
               && (r.program.Some? <==> Works(a, edt, StepsOf(ingress, egress), scripts(0)))
               && (r.program.Some? ==> ProgramIs(r.program.value, a, edt, scripts(0), ingress, egress))
  {
    var strategy := ResolveAttachStrategy(mode, edt).value;
    assert strategy == [a];
    AddIs(h, stuck, id, ingress, egress, strategy, edt, true, scripts);
    var r := AttachBPF(h, stuck, id, StepsOf(ingress, egress), strategy, edt, true, scripts);
    if r.program.None? {
      assert !Works(strategy[0], edt, StepsOf(ingress, egress), scripts(0));
    }
  }
}
