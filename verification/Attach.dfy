/**
 Attaching the program: the strategy, one attempt with its rollback, the fallback chain and DEL. Every
 kernel call is a success or failure chosen by a script; names whose removal fails are `stuck`.
 */
module Attach {
  import opened Words
  import opened Flow
  import opened Limits
  import DP = Dataplane

  datatype Hook = Tcx | Clsact

  datatype Side = HostSide | PodSide

  datatype EdtMode = EdtAuto | EdtOn | EdtOff

  datatype Attempt = Attempt(hook: Hook, side: Side)

  // ---------------------------------------------------------------- modes and strategies

  function ResolveAttachStrategy(s: string, edt: EdtMode): Option<seq<Attempt>> {
    if s == "" || s == "auto" then
      match edt
      case EdtOn => Some([Attempt(Tcx, PodSide), Attempt(Clsact, PodSide)])
      case EdtAuto => Some([Attempt(Tcx, PodSide), Attempt(Clsact, PodSide), Attempt(Tcx, HostSide), Attempt(Clsact, HostSide)])
      case EdtOff => Some([Attempt(Tcx, HostSide), Attempt(Tcx, PodSide), Attempt(Clsact, HostSide), Attempt(Clsact, PodSide)])
    else if s == "tcx-hostside" then Some([Attempt(Tcx, HostSide)])
    else if s == "tcx-podside" then Some([Attempt(Tcx, PodSide)])
    else if s == "clsact-hostside" then Some([Attempt(Clsact, HostSide)])
    else if s == "clsact-podside" then Some([Attempt(Clsact, PodSide)])
    else None
  }

  // ---------------------------------------------------------------- names

  function SideName(side: Side): string {
    if side.HostSide? then "hostside" else "podside"
  }

  function DirName(dir: Direction): string {
    if dir.Ingress? then "ingress" else "egress"
  }

  function LinkName(id: string, side: Side, dir: Direction): string {
    id + "-" + SideName(side) + "-" + DirName(dir) + "-link"
  }

  function MapName(id: string, kind: string): string {
    id + "-" + kind + "-map"
  }

  predicate HasPrefix(name: string, prefix: string) {
    |prefix| <= |name| && name[..|prefix|] == prefix
  }

  /** No pin of this container is present. */
  ghost predicate Unused(pins: set<string>, id: string) {
    forall name :: name in pins ==> !HasPrefix(name, id + "-")
  }

  // ---------------------------------------------------------------- the host

  /** A live program: the direction it serves, where it sits, and its configuration slot. */
  datatype Live = Live(dir: Direction, side: Side, cfg: DP.Config)

  datatype Pin = Link(live: Live, hook: Direction) | MapPin

  /** Pins by name (a tcx link with the hook it is attached to), clsact filters by (side, parent), and whether fq is the pod's root qdisc. */
  datatype Host = Host(pins: map<string, Pin>, filters: map<(Side, Direction), Live>, fq: bool)

  /** Kernel hook direction: seen from the host side a pod's ingress is the veth's egress. */
  function HookDir(side: Side, dir: Direction): Direction {
    if side.PodSide? then dir else if dir.Ingress? then Egress else Ingress
  }

  /** Success or failure of each kernel call of one attempt, and the order the maps are pinned in. */
  datatype Script = Script(ifIndex: bool, installFq: bool, load: bool,
                           configure: nat -> bool, attach: nat -> bool, maps: seq<string>, mapOk: string -> bool)

  datatype Step = Step(dir: Direction, cfg: Config)

  function StepsOf(ingress: Option<Config>, egress: Option<Config>): (steps: seq<Step>)
    ensures forall i :: 0 <= i < |steps| ==>
              (steps[i].dir.Ingress? ==> ingress == Some(steps[i].cfg)) && (steps[i].dir.Egress? ==> egress == Some(steps[i].cfg))
    ensures forall i, j :: 0 <= i < j < |steps| ==> steps[i].dir != steps[j].dir
  {
    (if ingress.Some? then [Step(Ingress, ingress.value)] else []) +
    (if egress.Some? then [Step(Egress, egress.value)] else [])
  }

  /** What a step writes into its configuration slot; the ingress slot never paces. */
  function SlotOf(step: Step, pacing: u64): DP.Config {
    DP.Config(Wrap(step.cfg.rate), Wrap(step.cfg.burst), Wrap(step.cfg.hh), if step.dir.Ingress? then 0 else pacing)
  }

  datatype Program = Program(attempt: Attempt, slots: map<Direction, DP.Config>)

  datatype Result = Result(host: Host, program: Option<Program>)

  // ---------------------------------------------------------------- one attempt

  function Remove(pins: map<string, Pin>, stuck: set<string>, name: string): map<string, Pin> {
    if name in stuck then pins else pins - {name}
  }

  /** Remove the link pins of the first n steps. */
  function Rollback(pins: map<string, Pin>, stuck: set<string>, id: string, side: Side, steps: seq<Step>, n: nat): map<string, Pin>
    requires n <= |steps|
  {
    if n == 0 then pins
    else Remove(Rollback(pins, stuck, id, side, steps, n - 1), stuck, LinkName(id, side, steps[n - 1].dir))
  }

  function PinMaps(pins: map<string, Pin>, id: string, kinds: seq<string>, ok: string -> bool): map<string, Pin>
    decreases |kinds|
  {
    if id == "" || kinds == [] || !ok(kinds[0]) || MapName(id, kinds[0]) in pins then pins
    else PinMaps(pins[MapName(id, kinds[0]) := MapPin], id, kinds[1..], ok)
  }

  predicate CanAttach(h: Host, id: string, a: Attempt, dir: Direction, ok: bool) {
    ok && (a.hook.Tcx? ==> LinkName(id, a.side, dir) !in h.pins)
  }

  function Attached(h: Host, id: string, a: Attempt, live: Live): Host {
    if a.hook.Tcx? then h.(pins := h.pins[LinkName(id, a.side, live.dir) := Link(live, HookDir(a.side, live.dir))])
    else h.(filters := h.filters[(a.side, HookDir(a.side, live.dir)) := live])
  }

  function AttachFrom(h: Host, stuck: set<string>, id: string, a: Attempt, steps: seq<Step>, pacing: u64, sc: Script,
                      i: nat, slots: map<Direction, DP.Config>): Result
    requires i <= |steps|
    decreases |steps| - i
  {
    if i == |steps| then Result(h.(pins := PinMaps(h.pins, id, sc.maps, sc.mapOk)), Some(Program(a, slots)))
    else
      var step := steps[i];
      var slot := SlotOf(step, pacing);
      if sc.configure(i) && CanAttach(h, id, a, step.dir, sc.attach(i))
      then AttachFrom(Attached(h, id, a, Live(step.dir, a.side, slot)), stuck, id, a, steps, pacing, sc, i + 1, slots[step.dir := slot])
      else Result(h.(pins := Rollback(h.pins, stuck, id, a.side, steps, i)), None)
  }

  predicate Probes(a: Attempt, edt: EdtMode) {
    !edt.EdtOff? && a.side.PodSide?
  }

  function TryOne(h: Host, stuck: set<string>, id: string, steps: seq<Step>, a: Attempt, edt: EdtMode, sc: Script): Result {
    if !sc.ifIndex then Result(h, None)
    else if Probes(a, edt) && !sc.installFq && edt.EdtOn? then Result(h, None)
    else
      var paced := Probes(a, edt) && sc.installFq;
      var h1 := if paced then h.(fq := true) else h;
      if !sc.load then Result(h1, None)
      else AttachFrom(h1, stuck, id, a, steps, if paced then 1 else 0, sc, 0, map[])
  }

  function TryAll(h: Host, stuck: set<string>, id: string, steps: seq<Step>, strategy: seq<Attempt>, edt: EdtMode,
                  scripts: nat -> Script, i: nat): Result
    requires i <= |strategy|
    decreases |strategy| - i
  {
    if i == |strategy| then Result(h, None) else
      var r := TryOne(h, stuck, id, steps, strategy[i], edt, scripts(i));
      if r.program.Some? then r else TryAll(r.host, stuck, id, steps, strategy, edt, scripts, i + 1)
  }

  predicate AllPodSide(strategy: seq<Attempt>) {
    forall i :: 0 <= i < |strategy| ==> strategy[i].side.PodSide?
  }

  /** The whole ADD: pin directory, pre-flight check for required EDT, then the fallback chain. */
  function AttachBPF(h: Host, stuck: set<string>, id: string, steps: seq<Step>, strategy: seq<Attempt>, edt: EdtMode,
                     mkdir: bool, scripts: nat -> Script): Result {
    if !mkdir || (edt.EdtOn? && !AllPodSide(strategy)) then Result(h, None)
    else TryAll(h, stuck, id, steps, strategy, edt, scripts, 0)
  }

  function Delete(pins: map<string, Pin>, stuck: set<string>, id: string): map<string, Pin> {
    map name | name in pins && (!HasPrefix(name, id + "-") || name in stuck) :: pins[name]
  }

  // ---------------------------------------------------------------- what each step of an attempt keeps

  lemma {:induction false} NamesHavePrefix(id: string, side: Side, dir: Direction, kind: string)
    ensures HasPrefix(LinkName(id, side, dir), id + "-") && HasPrefix(MapName(id, kind), id + "-")
  {
    assert LinkName(id, side, dir) == (id + "-") + (SideName(side) + "-" + DirName(dir) + "-link");
    assert MapName(id, kind) == (id + "-") + (kind + "-map");
  }

  /** Names of the links the first n steps pin. */
  ghost function LinkNames(id: string, side: Side, steps: seq<Step>, n: nat): set<string>
    requires n <= |steps|
  {
    set i | 0 <= i < n :: LinkName(id, side, steps[i].dir)
  }

  ghost function MapNames(id: string, kinds: seq<string>): set<string> {
    set i | 0 <= i < |kinds| :: MapName(id, kinds[i])
  }

  lemma {:induction false} LinkNamesSnoc(id: string, side: Side, steps: seq<Step>, n: nat)
    requires n < |steps|
    ensures LinkNames(id, side, steps, n + 1) == LinkNames(id, side, steps, n) + {LinkName(id, side, steps[n].dir)}
  {
  }

  lemma {:induction false} RemoveOneMore(pins: map<string, Pin>, gone: set<string>, stuck: set<string>, name: string)
    ensures Remove(pins - (gone - stuck), stuck, name) == pins - (gone + {name} - stuck)
  {
  }

  lemma {:induction false} RollbackRemoves(pins: map<string, Pin>, stuck: set<string>, id: string, side: Side, steps: seq<Step>, n: nat)
    requires n <= |steps|
    ensures Rollback(pins, stuck, id, side, steps, n) == pins - (LinkNames(id, side, steps, n) - stuck)
  {
    if n > 0 {
      RollbackRemoves(pins, stuck, id, side, steps, n - 1);
      LinkNamesSnoc(id, side, steps, n - 1);
      RemoveOneMore(pins, LinkNames(id, side, steps, n - 1), stuck, LinkName(id, side, steps[n - 1].dir));
    }
  }

  lemma {:induction false} PinMapsAdds(pins: map<string, Pin>, id: string, kinds: seq<string>, ok: string -> bool)
    ensures var r := PinMaps(pins, id, kinds, ok);
            && pins.Keys <= r.Keys <= pins.Keys + MapNames(id, kinds)
            && (forall name :: name in pins ==> r[name] == pins[name])
            && (forall name :: name in r && name !in pins ==> r[name] == MapPin)
    decreases |kinds|
  {
    if !(id == "" || kinds == [] || !ok(kinds[0]) || MapName(id, kinds[0]) in pins) {
      PinMapsAdds(pins[MapName(id, kinds[0]) := MapPin], id, kinds[1..], ok);
      forall name | name in MapNames(id, kinds[1..]) ensures name in MapNames(id, kinds) {
        var i :| 0 <= i < |kinds[1..]| && MapName(id, kinds[1..][i]) == name;
        assert kinds[i + 1] == kinds[1..][i];
      }
      assert kinds[0] == kinds[0] && MapName(id, kinds[0]) in MapNames(id, kinds);
    }
  }

  // ---------------------------------------------------------------- pins over an attempt

  /** The link pins an attempt has made after n steps; only tcx links are pinned. */
  ghost function Made(id: string, a: Attempt, steps: seq<Step>, n: nat): set<string>
    requires n <= |steps|
  {
    if a.hook.Tcx? then LinkNames(id, a.side, steps, n) else {}
  }

  /** Up to stuck names, the pins are the base plus the given ones. */
  ghost predicate PinsAre(pins: map<string, Pin>, base: set<string>, made: set<string>, stuck: set<string>) {
    forall name :: name !in stuck ==> (name in pins <==> name in base || name in made)
  }

  lemma {:induction false} BaseHasNoLinks(base: set<string>, id: string, side: Side, steps: seq<Step>, n: nat)
    requires Unused(base, id) && n <= |steps|
    ensures LinkNames(id, side, steps, n) !! base
  {
    forall name | name in LinkNames(id, side, steps, n) ensures name !in base {
      var i :| 0 <= i < n && LinkName(id, side, steps[i].dir) == name;
      NamesHavePrefix(id, side, steps[i].dir, "");
    }
  }

  lemma {:induction false} RollbackRestores(h: Host, base: set<string>, stuck: set<string>, id: string, a: Attempt, steps: seq<Step>, n: nat)
    requires n <= |steps| && Unused(base, id)
    requires PinsAre(h.pins, base, Made(id, a, steps, n), stuck)
    ensures PinsAre(Rollback(h.pins, stuck, id, a.side, steps, n), base, {}, stuck)
  {
    RollbackRemoves(h.pins, stuck, id, a.side, steps, n);
    BaseHasNoLinks(base, id, a.side, steps, n);
  }

  lemma {:induction false} AttachedPins(h: Host, base: set<string>, stuck: set<string>, id: string, a: Attempt, steps: seq<Step>,
                                        n: nat, live: Live)
    requires n < |steps| && live.dir == steps[n].dir
    requires PinsAre(h.pins, base, Made(id, a, steps, n), stuck)
    ensures PinsAre(Attached(h, id, a, live).pins, base, Made(id, a, steps, n + 1), stuck)
  {
    LinkNamesSnoc(id, a.side, steps, n);
  }

  /** Exactly the base and the links, and possibly some of the maps. */
  ghost predicate Leaves(pins: map<string, Pin>, base: set<string>, links: set<string>, maps: set<string>, stuck: set<string>) {
    && (forall name :: name !in stuck && (name in base || name in links) ==> name in pins)
    && (forall name :: name !in stuck && name in pins ==> name in base || name in links || name in maps)
  }

  /** What an attempt leaves in the pin directory. */
  ghost predicate PinOutcome(r: Result, base: set<string>, stuck: set<string>, id: string, a: Attempt, steps: seq<Step>, sc: Script) {
    if r.program.None? then PinsAre(r.host.pins, base, {}, stuck)
    else
      && r.program.value.attempt == a
      && Leaves(r.host.pins, base, Made(id, a, steps, |steps|), MapNames(id, sc.maps), stuck)
  }

  lemma {:induction false} AttachFromPins(h: Host, base: set<string>, stuck: set<string>, id: string, a: Attempt, steps: seq<Step>,
                                          pacing: u64, sc: Script, i: nat, slots: map<Direction, DP.Config>)
    requires i <= |steps| && Unused(base, id)
    requires PinsAre(h.pins, base, Made(id, a, steps, i), stuck)
    ensures PinOutcome(AttachFrom(h, stuck, id, a, steps, pacing, sc, i, slots), base, stuck, id, a, steps, sc)
    decreases |steps| - i
  {
    if i == |steps| {
      PinMapsAdds(h.pins, id, sc.maps, sc.mapOk);
    } else {
      var step := steps[i];
      var slot := SlotOf(step, pacing);
      var live := Live(step.dir, a.side, slot);
      if sc.configure(i) && CanAttach(h, id, a, step.dir, sc.attach(i)) {
        AttachedPins(h, base, stuck, id, a, steps, i, live);
        AttachFromPins(Attached(h, id, a, live), base, stuck, id, a, steps, pacing, sc, i + 1, slots[step.dir := slot]);
      } else {
        RollbackRestores(h, base, stuck, id, a, steps, i);
      }
    }
  }

  lemma {:induction false} TryOnePins(h: Host, base: set<string>, stuck: set<string>, id: string, steps: seq<Step>, a: Attempt,
                                      edt: EdtMode, sc: Script)
    requires Unused(base, id) && PinsAre(h.pins, base, {}, stuck)
    ensures PinOutcome(TryOne(h, stuck, id, steps, a, edt, sc), base, stuck, id, a, steps, sc)
  {
    assert Made(id, a, steps, 0) == {};
    var paced := Probes(a, edt) && sc.installFq;
    var h1 := if paced then h.(fq := true) else h;
    AttachFromPins(h1, base, stuck, id, a, steps, if paced then 1 else 0, sc, 0, map[]);
  }

  lemma {:induction false} TryAllPins(h: Host, base: set<string>, stuck: set<string>, id: string, steps: seq<Step>,
                                      strategy: seq<Attempt>, edt: EdtMode, scripts: nat -> Script, i: nat)
    requires i <= |strategy| && Unused(base, id) && PinsAre(h.pins, base, {}, stuck)
    ensures var r := TryAll(h, stuck, id, steps, strategy, edt, scripts, i);
            if r.program.None? then PinsAre(r.host.pins, base, {}, stuck)
            else exists n :: i <= n < |strategy| && PinOutcome(r, base, stuck, id, strategy[n], steps, scripts(n))
    decreases |strategy| - i
  {
    if i < |strategy| {
      TryOnePins(h, base, stuck, id, steps, strategy[i], edt, scripts(i));
      var r := TryOne(h, stuck, id, steps, strategy[i], edt, scripts(i));
      if r.program.None? {
        TryAllPins(r.host, base, stuck, id, steps, strategy, edt, scripts, i + 1);
      }
    }
  }

  /**
   The pin directory after ADD, for every strategy and every pattern of failures, starting without pins
   of the container. Total failure leaves the directory as it was. Success over tcx leaves exactly the
   links of the requested directions on the winning side, success over clsact none; besides, map pins
   only. Names whose removal fails are disregarded throughout.
   */
  lemma {:induction false} AddPins(h: Host, stuck: set<string>, id: string, steps: seq<Step>, strategy: seq<Attempt>,
                                   edt: EdtMode, mkdir: bool, scripts: nat -> Script)
    requires Unused(h.pins.Keys, id)
    ensures var r := AttachBPF(h, stuck, id, steps, strategy, edt, mkdir, scripts);
            && (r.program.None? ==> PinsAre(r.host.pins, h.pins.Keys, {}, stuck))
            && (r.program.Some? ==> exists n :: 0 <= n < |strategy| && AddedBy(r, h, stuck, id, steps, strategy[n], scripts(n)))
  {
    TryAllPins(h, h.pins.Keys, stuck, id, steps, strategy, edt, scripts, 0);
    var r := AttachBPF(h, stuck, id, steps, strategy, edt, mkdir, scripts);
    if r.program.Some? {
      var n :| 0 <= n < |strategy| && PinOutcome(r, h.pins.Keys, stuck, id, strategy[n], steps, scripts(n));
      assert AddedBy(r, h, stuck, id, steps, strategy[n], scripts(n));
    }
  }

  /** The winning attempt's links on tcx, none on clsact, and possibly some of its map pins. */
  ghost predicate AddedBy(r: Result, h: Host, stuck: set<string>, id: string, steps: seq<Step>, a: Attempt, sc: Script) {
    && r.program.Some? && r.program.value.attempt == a
    && Leaves(r.host.pins, h.pins.Keys, if a.hook.Tcx? then LinkNames(id, a.side, steps, |steps|) else {},
              MapNames(id, sc.maps), stuck)
  }

  lemma {:induction false} LinksAreNotMaps(id: string, side: Side, dir: Direction, kind: string)
    ensures LinkName(id, side, dir) != MapName(id, kind)
  {
    var l, m := LinkName(id, side, dir), MapName(id, kind);
    assert l[|l| - 1] == 'k' && m[|m| - 1] == 'p';
  }

  lemma {:induction false} NewNamesHavePrefix(r: Result, h: Host, stuck: set<string>, id: string, steps: seq<Step>, a: Attempt,
                                              sc: Script, name: string)
    requires AddedBy(r, h, stuck, id, steps, a, sc)
    requires name !in stuck && name !in h.pins && name in r.host.pins
    ensures HasPrefix(name, id + "-")
  {
    if name in LinkNames(id, a.side, steps, |steps|) {
      var i :| 0 <= i < |steps| && LinkName(id, a.side, steps[i].dir) == name;
      NamesHavePrefix(id, a.side, steps[i].dir, "");
    } else {
      var i :| 0 <= i < |sc.maps| && MapName(id, sc.maps[i]) == name;
      NamesHavePrefix(id, a.side, Ingress, sc.maps[i]);
    }
  }

  /** ADD then DEL, with any outcome of ADD, restores the set of names up to those that cannot be removed. */
  lemma {:induction false} AddThenDelRestores(h: Host, stuck: set<string>, id: string, steps: seq<Step>, strategy: seq<Attempt>,
                                              edt: EdtMode, mkdir: bool, scripts: nat -> Script)
    requires Unused(h.pins.Keys, id)
    ensures var r := AttachBPF(h, stuck, id, steps, strategy, edt, mkdir, scripts);
            Delete(r.host.pins, stuck, id).Keys - stuck == h.pins.Keys - stuck
  {
    AddPins(h, stuck, id, steps, strategy, edt, mkdir, scripts);
    var r := AttachBPF(h, stuck, id, steps, strategy, edt, mkdir, scripts);
    forall name | name !in stuck && name in r.host.pins && name !in h.pins ensures HasPrefix(name, id + "-") {
      var n :| 0 <= n < |strategy| && AddedBy(r, h, stuck, id, steps, strategy[n], scripts(n));
      NewNamesHavePrefix(r, h, stuck, id, steps, strategy[n], scripts(n), name);
    }
    var after := Delete(r.host.pins, stuck, id);
    forall name | name !in stuck ensures name in after <==> name in h.pins {
      if name in h.pins {
        assert name in h.pins.Keys && name in r.host.pins;
      }
    }
  }

  // ---------------------------------------------------------------- EDT only over fq

  /** A pacing slot belongs to an egress program on the pod side. */
  ghost predicate PacesOnlyPodEgress(live: Live, fq: bool) {
    live.cfg.edt != 0 ==> live.dir.Egress? && live.side.PodSide? && fq
  }

  /** Every live program was there before, or satisfies `ok`, given its side and the hook it is attached to. */
  ghost predicate NewPrograms(before: Host, after: Host, ok: (Live, Side, Direction) -> bool) {
    && (forall name :: name in after.pins && after.pins[name].Link? ==>
          || (name in before.pins && before.pins[name] == after.pins[name])
          || ok(after.pins[name].live, after.pins[name].live.side, after.pins[name].hook))
    && (forall point :: point in after.filters ==>
          || (point in before.filters && before.filters[point] == after.filters[point])
          || ok(after.filters[point], point.0, point.1))
  }

  lemma {:induction false} AttachedPrograms(h0: Host, h: Host, id: string, a: Attempt, live: Live, ok: (Live, Side, Direction) -> bool)
    requires NewPrograms(h0, h, ok) && live.side == a.side && ok(live, a.side, HookDir(a.side, live.dir))
    ensures NewPrograms(h0, Attached(h, id, a, live), ok) && Attached(h, id, a, live).fq == h.fq
  {
  }

  lemma {:induction false} RolledBackPrograms(h0: Host, h: Host, stuck: set<string>, id: string, side: Side, steps: seq<Step>, n: nat,
                                              ok: (Live, Side, Direction) -> bool)
    requires n <= |steps| && NewPrograms(h0, h, ok)
    ensures NewPrograms(h0, h.(pins := Rollback(h.pins, stuck, id, side, steps, n)), ok)
  {
    RollbackRemoves(h.pins, stuck, id, side, steps, n);
  }

  lemma {:induction false} MapsPrograms(h0: Host, h: Host, id: string, kinds: seq<string>, mapOk: string -> bool,
                                        ok: (Live, Side, Direction) -> bool)
    requires NewPrograms(h0, h, ok)
    ensures NewPrograms(h0, h.(pins := PinMaps(h.pins, id, kinds, mapOk)), ok)
  {
    PinMapsAdds(h.pins, id, kinds, mapOk);
  }

  /** The program step j of an attempt attaches. */
  ghost predicate StepOk(a: Attempt, step: Step, pacing: u64, ok: (Live, Side, Direction) -> bool) {
    ok(Live(step.dir, a.side, SlotOf(step, pacing)), a.side, HookDir(a.side, step.dir))
  }

  /** Whatever holds of the programs its steps attach holds of all programs an attempt leaves behind. */
  lemma {:induction false} AttachFromPrograms(h0: Host, h: Host, stuck: set<string>, id: string, a: Attempt, steps: seq<Step>,
                                              pacing: u64, sc: Script, i: nat, slots: map<Direction, DP.Config>,
                                              ok: (Live, Side, Direction) -> bool)
    requires i <= |steps| && NewPrograms(h0, h, ok)
    requires forall j :: i <= j < |steps| ==> StepOk(a, steps[j], pacing, ok)
    ensures var r := AttachFrom(h, stuck, id, a, steps, pacing, sc, i, slots);
            NewPrograms(h0, r.host, ok) && r.host.fq == h.fq
    decreases |steps| - i
  {
    if i == |steps| {
      MapsPrograms(h0, h, id, sc.maps, sc.mapOk, ok);
    } else {
      var step := steps[i];
      var slot := SlotOf(step, pacing);
      if sc.configure(i) && CanAttach(h, id, a, step.dir, sc.attach(i)) {
        assert StepOk(a, step, pacing, ok);
        AttachedPrograms(h0, h, id, a, Live(step.dir, a.side, slot), ok);
        AttachFromPrograms(h0, Attached(h, id, a, Live(step.dir, a.side, slot)), stuck, id, a, steps, pacing, sc, i + 1,
                           slots[step.dir := slot], ok);
      } else {
        RolledBackPrograms(h0, h, stuck, id, a.side, steps, i, ok);
      }
    }
  }

  /** Every live program either was there before, or paces only where fq is installed. */
  ghost predicate NewProgramsSound(before: Host, after: Host, fq: bool) {
    (before.fq ==> after.fq) && NewPrograms(before, after, (live, side, hook) => PacesOnlyPodEgress(live, fq))
  }

  lemma {:induction false} AttachFromSound(h0: Host, h: Host, stuck: set<string>, id: string, a: Attempt, steps: seq<Step>,
                                           pacing: u64, sc: Script, fq: bool)
    requires pacing != 0 ==> a.side.PodSide? && fq
    requires NewProgramsSound(h0, h, fq)
    ensures var r := AttachFrom(h, stuck, id, a, steps, pacing, sc, 0, map[]);
            NewProgramsSound(h0, r.host, fq) && r.host.fq == h.fq
  {
    AttachFromPrograms(h0, h, stuck, id, a, steps, pacing, sc, 0, map[], (live, side, hook) => PacesOnlyPodEgress(live, fq));
  }

  /** Within one attempt a pacing slot implies egress, pod side and a successful fq install in that attempt. */
  lemma {:induction false} AttemptPacesOverFq(h: Host, stuck: set<string>, id: string, steps: seq<Step>, a: Attempt,
                                              edt: EdtMode, sc: Script)
    ensures var r := TryOne(h, stuck, id, steps, a, edt, sc);
            && NewProgramsSound(h, r.host, sc.installFq && !edt.EdtOff?)
            && (r.host.fq <==> h.fq || (sc.ifIndex && edt != EdtOff && a.side == PodSide && sc.installFq))
  {
    var paced := Probes(a, edt) && sc.installFq;
    var h1 := if paced then h.(fq := true) else h;
    AttachFromSound(h, h1, stuck, id, a, steps, if paced then 1 else 0, sc, sc.installFq && !edt.EdtOff?);
  }

  lemma {:induction false} AttemptSound(h: Host, stuck: set<string>, id: string, steps: seq<Step>, a: Attempt, edt: EdtMode, sc: Script)
    ensures var r := TryOne(h, stuck, id, steps, a, edt, sc); NewProgramsSound(h, r.host, r.host.fq)
  {
    var paced := Probes(a, edt) && sc.installFq;
    var h1 := if paced then h.(fq := true) else h;
    AttachFromSound(h, h1, stuck, id, a, steps, if paced then 1 else 0, sc, h1.fq);
  }

  lemma {:induction false} SoundChains(h0: Host, h1: Host, h2: Host, fq1: bool, fq2: bool)
    requires NewProgramsSound(h0, h1, fq1) && NewProgramsSound(h1, h2, fq2) && (fq1 ==> fq2)
    ensures NewProgramsSound(h0, h2, fq2)
  {
  }

  lemma {:induction false} TryAllSound(h: Host, stuck: set<string>, id: string, steps: seq<Step>, strategy: seq<Attempt>,
                                       edt: EdtMode, scripts: nat -> Script, i: nat)
    requires i <= |strategy|
    ensures var r := TryAll(h, stuck, id, steps, strategy, edt, scripts, i); NewProgramsSound(h, r.host, r.host.fq)
    decreases |strategy| - i
  {
    if i < |strategy| {
      AttemptSound(h, stuck, id, steps, strategy[i], edt, scripts(i));
      var h1 := TryOne(h, stuck, id, steps, strategy[i], edt, scripts(i)).host;
      TryAllSound(h1, stuck, id, steps, strategy, edt, scripts, i + 1);
      var h2 := TryAll(h1, stuck, id, steps, strategy, edt, scripts, i + 1).host;
      SoundChains(h, h1, h2, h1.fq, h2.fq);
    }
  }

  /**
   Across all modes, strategies and failures, every program an ADD leaves live, including clsact filters
   that failed attempts do not undo, paces only on pod-side egress with fq installed on the pod.
   */
  lemma {:induction false} AddPacesOverFq(h: Host, stuck: set<string>, id: string, steps: seq<Step>, strategy: seq<Attempt>,
                                          edt: EdtMode, mkdir: bool, scripts: nat -> Script)
    ensures var r := AttachBPF(h, stuck, id, steps, strategy, edt, mkdir, scripts); NewProgramsSound(h, r.host, r.host.fq)
  {
    TryAllSound(h, stuck, id, steps, strategy, edt, scripts, 0);
  }

  /** The steps configured so far. */
  ghost predicate SlotsSet(slots: map<Direction, DP.Config>, steps: seq<Step>, pacing: u64, n: nat)
    requires n <= |steps|
  {
    forall j :: 0 <= j < n ==> steps[j].dir in slots && slots[steps[j].dir] == SlotOf(steps[j], pacing)
  }

  ghost predicate DistinctDirs(steps: seq<Step>) {
    forall i, j :: 0 <= i < j < |steps| ==> steps[i].dir != steps[j].dir
  }

  lemma {:induction false} AttachFromSlots(h: Host, stuck: set<string>, id: string, a: Attempt, steps: seq<Step>,
                                           pacing: u64, sc: Script, i: nat, slots: map<Direction, DP.Config>)
    requires i <= |steps| && DistinctDirs(steps) && SlotsSet(slots, steps, pacing, i)
    ensures var r := AttachFrom(h, stuck, id, a, steps, pacing, sc, i, slots);
            r.program.Some? ==> SlotsSet(r.program.value.slots, steps, pacing, |steps|)
    decreases |steps| - i
  {
    if i < |steps| {
      var step := steps[i];
      var slot := SlotOf(step, pacing);
      if sc.configure(i) && CanAttach(h, id, a, step.dir, sc.attach(i)) {
        var slots' := slots[step.dir := slot];
        assert SlotsSet(slots', steps, pacing, i + 1);
        AttachFromSlots(Attached(h, id, a, Live(step.dir, a.side, slot)), stuck, id, a, steps, pacing, sc, i + 1, slots');
      }
    }
  }

  lemma {:induction false} RequiredEdtAttempt(h: Host, stuck: set<string>, id: string, steps: seq<Step>, a: Attempt, sc: Script)
    requires DistinctDirs(steps) && a.side.PodSide?
    ensures var r := TryOne(h, stuck, id, steps, a, EdtOn, sc);
            r.program.Some? ==> SlotsSet(r.program.value.slots, steps, 1, |steps|)
  {
    AttachFromSlots(h.(fq := true), stuck, id, a, steps, 1, sc, 0, map[]);
  }

  lemma {:induction false} RequiredEdtChain(h: Host, stuck: set<string>, id: string, steps: seq<Step>, strategy: seq<Attempt>,
                                            scripts: nat -> Script, i: nat)
    requires DistinctDirs(steps) && AllPodSide(strategy) && i <= |strategy|
    ensures var r := TryAll(h, stuck, id, steps, strategy, EdtOn, scripts, i);
            r.program.Some? ==> SlotsSet(r.program.value.slots, steps, 1, |steps|)
    decreases |strategy| - i
  {
    if i < |strategy| {
      RequiredEdtAttempt(h, stuck, id, steps, strategy[i], scripts(i));
      RequiredEdtChain(TryOne(h, stuck, id, steps, strategy[i], EdtOn, scripts(i)).host, stuck, id, steps, strategy, scripts, i + 1);
    }
  }

  /** With edt=on, success means the requested egress direction paces. */
  lemma {:induction false} RequiredEdtIsOn(h: Host, stuck: set<string>, id: string, ingress: Option<Config>, egress: Option<Config>,
                                           strategy: seq<Attempt>, mkdir: bool, scripts: nat -> Script)
    requires egress.Some?
    ensures var r := AttachBPF(h, stuck, id, StepsOf(ingress, egress), strategy, EdtOn, mkdir, scripts);
            r.program.Some? ==> Egress in r.program.value.slots && r.program.value.slots[Egress].edt != 0
  {
    var steps := StepsOf(ingress, egress);
    if mkdir && AllPodSide(strategy) {
      RequiredEdtChain(h, stuck, id, steps, strategy, scripts, 0);
      assert steps[|steps| - 1].dir == Egress;
    }
  }

  /** Required EDT passes the pre-flight check exactly when the mode does not name the host side. */
  lemma {:induction false} RequiredEdtRefusesHostSide(s: string)
    ensures var st := ResolveAttachStrategy(s, EdtOn);
            st.Some? ==> (AllPodSide(st.value) <==> s != "tcx-hostside" && s != "clsact-hostside")
  {
    var st := ResolveAttachStrategy(s, EdtOn);
    if st.Some? {
      assert st.value[0].side.HostSide? <==> s == "tcx-hostside" || s == "clsact-hostside";
    }
  }
}

/** The operator's two settings, from their text to what an ADD does with them. */
module Settings {
  import opened Words
  import opened Flow
  import opened Limits
  import opened Attach
  import DP = Dataplane

  const AUTO_TEXTS: set<string> := {"", "auto"}
  const ON_TEXTS: set<string> := {"1", "true", "yes", "on"}
  const OFF_TEXTS: set<string> := {"0", "false", "no", "off"}
  const HOST_MODES: set<string> := {"tcx-hostside", "clsact-hostside"}
  const POD_MODES: set<string> := {"tcx-podside", "clsact-podside"}

  function ParseEDTMode(s: string): Option<EdtMode> {
    if s == "" || s == "auto" then Some(EdtAuto)
    else if s == "1" || s == "true" || s == "yes" || s == "on" then Some(EdtOn)
    else if s == "0" || s == "false" || s == "no" || s == "off" then Some(EdtOff)
    else None
  }

  /** An ADD from its settings: nothing when a setting is not recognised, else the host it leaves. */
  function CmdAdd(h: Host, stuck: set<string>, id: string, ingress: Option<Config>, egress: Option<Config>,
                  edtPacing: string, attachMode: string, mkdir: bool, scripts: nat -> Script): Option<Result>
  {
    match ParseEDTMode(edtPacing)
    case None => None
    case Some(edt) =>
      match ResolveAttachStrategy(attachMode, edt)
      case None => None
      case Some(strategy) =>
        if ingress.None? && egress.None? then Some(Result(h, None))
        else Some(AttachBPF(h, stuck, id, StepsOf(ingress, egress), strategy, edt, mkdir, scripts))
  }

  /** Every program live afterwards was live before, or does not pace. */
  ghost predicate NothingNewPaces(before: Host, after: Host) {
    && (forall name :: name in after.pins && after.pins[name].Link? ==>
          (name in before.pins && before.pins[name] == after.pins[name]) || after.pins[name].live.cfg.edt == 0)
    && (forall point :: point in after.filters ==>
          (point in before.filters && before.filters[point] == after.filters[point]) || after.filters[point].cfg.edt == 0)
  }

  lemma {:induction false} OffChain(h: Host, stuck: set<string>, id: string, steps: seq<Step>, strategy: seq<Attempt>,
                                    scripts: nat -> Script, i: nat)
    requires i <= |strategy|
    ensures NewProgramsSound(h, TryAll(h, stuck, id, steps, strategy, EdtOff, scripts, i).host, false)
    decreases |strategy| - i
  {
    if i < |strategy| {
      AttemptPacesOverFq(h, stuck, id, steps, strategy[i], EdtOff, scripts(i));
      var h1 := TryOne(h, stuck, id, steps, strategy[i], EdtOff, scripts(i)).host;
      OffChain(h1, stuck, id, steps, strategy, scripts, i + 1);
      SoundChains(h, h1, TryAll(h1, stuck, id, steps, strategy, EdtOff, scripts, i + 1).host, false, false);
    }
  }

  lemma {:induction false} EdtTexts(s: string)
    ensures ParseEDTMode(s) == Some(EdtAuto) <==> s in AUTO_TEXTS
    ensures ParseEDTMode(s) == Some(EdtOn) <==> s in ON_TEXTS
    ensures ParseEDTMode(s) == Some(EdtOff) <==> s in OFF_TEXTS
  {
  }

  lemma {:induction false} ModeTexts(s: string, edt: EdtMode)
    ensures ResolveAttachStrategy(s, edt).Some? <==> s in AUTO_TEXTS + HOST_MODES + POD_MODES
  {
  }

  /** Exactly the listed texts are accepted. */
  lemma {:induction false} AcceptedSettings(h: Host, stuck: set<string>, id: string, ingress: Option<Config>, egress: Option<Config>,
                                            edtPacing: string, attachMode: string, mkdir: bool, scripts: nat -> Script)
    ensures CmdAdd(h, stuck, id, ingress, egress, edtPacing, attachMode, mkdir, scripts).Some? <==>
            edtPacing in AUTO_TEXTS + ON_TEXTS + OFF_TEXTS && attachMode in AUTO_TEXTS + HOST_MODES + POD_MODES
  {
    EdtTexts(edtPacing);
    if ParseEDTMode(edtPacing).Some? {
      ModeTexts(attachMode, ParseEDTMode(edtPacing).value);
    }
  }

  /**
   With pacing off no ADD leaves a new program that paces, whatever fails and including what failed
   attempts leave behind.
   */
  lemma {:induction false} OffNeverPaces(h: Host, stuck: set<string>, id: string, ingress: Option<Config>, egress: Option<Config>,
                                         edtPacing: string, attachMode: string, mkdir: bool, scripts: nat -> Script)
    requires edtPacing in OFF_TEXTS
    ensures var r := CmdAdd(h, stuck, id, ingress, egress, edtPacing, attachMode, mkdir, scripts);
            r.Some? ==> NothingNewPaces(h, r.value.host)
  {
    assert ParseEDTMode(edtPacing) == Some(EdtOff) by { EdtTexts(edtPacing); }
    var strategy := ResolveAttachStrategy(attachMode, EdtOff);
    if strategy.Some? {
      OffChain(h, stuck, id, StepsOf(ingress, egress), strategy.value, scripts, 0);
    }
  }

  /** With pacing on, an ADD that succeeds paces the requested egress direction. */
  lemma {:induction false} OnAlwaysPaces(h: Host, stuck: set<string>, id: string, ingress: Option<Config>, egress: Option<Config>,
                                         edtPacing: string, attachMode: string, mkdir: bool, scripts: nat -> Script)
    requires edtPacing in ON_TEXTS && egress.Some?
    ensures var r := CmdAdd(h, stuck, id, ingress, egress, edtPacing, attachMode, mkdir, scripts);
            r.Some? && r.value.program.Some? ==>
              Egress in r.value.program.value.slots && r.value.program.value.slots[Egress].edt != 0
  {
    assert ParseEDTMode(edtPacing) == Some(EdtOn) by { EdtTexts(edtPacing); }
    var strategy := ResolveAttachStrategy(attachMode, EdtOn);
    if strategy.Some? {
      RequiredEdtIsOn(h, stuck, id, ingress, egress, strategy.value, mkdir, scripts);
    }
  }

  /** With pacing on, an ADD told to attach on the host side changes no pin, filter or qdisc. */
  lemma {:induction false} OnRefusesHostSide(h: Host, stuck: set<string>, id: string, ingress: Option<Config>, egress: Option<Config>,
                                             edtPacing: string, attachMode: string, mkdir: bool, scripts: nat -> Script)
    requires edtPacing in ON_TEXTS && attachMode in HOST_MODES
    ensures CmdAdd(h, stuck, id, ingress, egress, edtPacing, attachMode, mkdir, scripts) == Some(Result(h, None))
  {
    assert ParseEDTMode(edtPacing) == Some(EdtOn) by { EdtTexts(edtPacing); }
    assert ResolveAttachStrategy(attachMode, EdtOn).Some? by { ModeTexts(attachMode, EdtOn); }
    RequiredEdtRefusesHostSide(attachMode);
  }
}

/** The CNI plugin's effects on the node, step by step. */
module Plugin {
  import opened Words
  import opened Flow
  import opened Limits
  import opened Attach
  import DP = Dataplane

  class Node {
    var pins: map<string, Pin>
    var filters: map<(Side, Direction), Live>
    var fq: bool
    const stuck: set<string>

    ghost function State(): Host
      reads this
    {
      Host(pins, filters, fq)
    }

    constructor (pins: map<string, Pin>, filters: map<(Side, Direction), Live>, fq: bool, stuck: set<string>)
      ensures State() == Host(pins, filters, fq) && this.stuck == stuck
    {
      this.pins, this.filters, this.fq, this.stuck := pins, filters, fq, stuck;
    }

    method RollbackPins(id: string, side: Side, steps: seq<Step>, upto: nat)
      requires upto <= |steps|
      modifies this`pins
      ensures pins == Rollback(old(pins), stuck, id, side, steps, upto)
    {
      var j := 0;
      while j < upto
        invariant 0 <= j <= upto
        invariant pins == Rollback(old(pins), stuck, id, side, steps, j)
      {
        var path := LinkName(id, side, steps[j].dir);
        if path !in stuck {
          pins := pins - {path};
        }
        j := j + 1;
      }
    }

    /** Pin the maps in some order; the first failure ends it. */
    method PinAllMaps(id: string, kinds: seq<string>, ok: string -> bool)
      modifies this`pins
      ensures pins == PinMaps(old(pins), id, kinds, ok)
    {
      if id == "" {
        return;
      }
      var n := 0;
      while n < |kinds|
        invariant 0 <= n <= |kinds|
        invariant PinMaps(pins, id, kinds[n..], ok) == PinMaps(old(pins), id, kinds, ok)
      {
        var path := MapName(id, kinds[n]);
        assert kinds[n..][1..] == kinds[n + 1..];
        if !ok(kinds[n]) || path in pins {
          return;
        }
        pins := pins[path := MapPin];
        n := n + 1;
      }
    }

    /** Attach one direction: a pinned link on tcx, a replaced filter on clsact. */
    method AttachDirection(id: string, a: Attempt, live: Live, ok: bool) returns (attached: bool)
      requires live.side == a.side
      modifies this`pins, this`filters
      ensures attached == CanAttach(old(State()), id, a, live.dir, ok)
      ensures State() == if attached then Attached(old(State()), id, a, live) else old(State())
    {
      if !ok {
        return false;
      }
      var hookDir := live.dir;
      if a.side == HostSide {
        hookDir := if hookDir == Ingress then Egress else Ingress;
      }
      match a.hook
      case Tcx =>
        var path := LinkName(id, a.side, live.dir);
        if path in pins {
          return false;
        }
        pins := pins[path := Link(live, hookDir)];
        return true;
      case Clsact =>
        filters := filters[(a.side, hookDir) := live];
        return true;
    }

    /** Configure and attach the requested directions in turn; a failure rolls the earlier ones back. */
    method AttachSteps(id: string, steps: seq<Step>, a: Attempt, pacing: u64, sc: Script) returns (p: Option<Program>)
      modifies this`pins, this`filters
      ensures Result(State(), p) == AttachFrom(old(State()), stuck, id, a, steps, pacing, sc, 0, map[])
    {
      var slots: map<Direction, DP.Config> := map[];
      var i := 0;
      while i < |steps|
        invariant 0 <= i <= |steps|
        invariant AttachFrom(State(), stuck, id, a, steps, pacing, sc, i, slots) ==
                  AttachFrom(old(State()), stuck, id, a, steps, pacing, sc, 0, map[])
      {
        var step := steps[i];
        var slot := SlotOf(step, pacing);
        if !sc.configure(i) {
          RollbackPins(id, a.side, steps, i);
          return None;
        }
        var attached := AttachDirection(id, a, Live(step.dir, a.side, slot), sc.attach(i));
        if !attached {
          RollbackPins(id, a.side, steps, i);
          return None;
        }
        slots := slots[step.dir := slot];
        i := i + 1;
      }
      PinAllMaps(id, sc.maps, sc.mapOk);
      return Some(Program(a, slots));
    }

    method TryAttachOne(id: string, steps: seq<Step>, a: Attempt, edt: EdtMode, sc: Script) returns (p: Option<Program>)
      modifies this
      ensures Result(State(), p) == TryOne(old(State()), stuck, id, steps, a, edt, sc)
    {
      if !sc.ifIndex {
        return None;
      }
      var pacing: u64 := 0;
      if edt != EdtOff && a.side == PodSide {
        if sc.installFq {
          fq := true;
          pacing := 1;
        } else if edt == EdtOn {
          return None;
        }
      }
      if !sc.load {
        return None;
      }
      p := AttachSteps(id, steps, a, pacing, sc);
    }

    method AttachAll(id: string, ingress: Option<Config>, egress: Option<Config>, strategy: seq<Attempt>, edt: EdtMode,
                     mkdir: bool, scripts: nat -> Script)
      returns (p: Option<Program>)
      modifies this
      ensures Result(State(), p) ==
              AttachBPF(old(State()), stuck, id, StepsOf(ingress, egress), strategy, edt, mkdir, scripts)
    {
      if !mkdir {
        return None;
      }
      var n := 0;
      if edt == EdtOn {
        while n < |strategy|
          invariant 0 <= n <= |strategy|
          invariant forall j :: 0 <= j < n ==> strategy[j].side.PodSide?
        {
          if strategy[n].side != PodSide {
            return None;
          }
          n := n + 1;
        }
      }
      var steps := StepsOf(ingress, egress);
      ghost var target := TryAll(State(), stuck, id, steps, strategy, edt, scripts, 0);
      n := 0;
      while n < |strategy|
        invariant 0 <= n <= |strategy|
        invariant TryAll(State(), stuck, id, steps, strategy, edt, scripts, n) == target
      {
        p := TryAttachOne(id, steps, strategy[n], edt, scripts(n));
        if p.Some? {
          return p;
        }
        n := n + 1;
      }
      return None;
    }

    /** DEL: one walk over the directory, removing every name of the container. */
    method CmdDel(id: string, readable: bool)
      modifies this`pins
      ensures pins == if readable then Delete(old(pins), stuck, id) else old(pins)
    {
      if !readable {
        return;
      }
      var entries := pins.Keys;
      while entries != {}
        invariant entries <= old(pins).Keys
        invariant forall name :: name in pins <==>
                    name in old(pins) && (name in entries || !HasPrefix(name, id + "-") || name in stuck)
        invariant forall name :: name in pins ==> pins[name] == old(pins)[name]
        decreases |entries|
      {
        var name :| name in entries;
        entries := entries - {name};
        if HasPrefix(name, id + "-") && name !in stuck {
          pins := pins - {name};
        }
      }
    }
  }
}

/** The attach chain and the dataplane together: no live program stamps packets without fq below it. */
module EdtGuard {
  import opened Words
  import opened Flow
  import opened Limits
  import opened Attach
  import opened Sketch
  import opened EgressPacing
  import DP = Dataplane

  function DirNumber(dir: Direction): nat {
    if dir.Ingress? then DP.DIR_INGRESS else DP.DIR_EGRESS
  }

  /** The program is live after the ADD and was not before. */
  ghost predicate NewlyLive(before: Host, after: Host, live: Live) {
    || (exists name :: name in after.pins && after.pins[name].Link? && after.pins[name].live == live &&
          !(name in before.pins && before.pins[name] == after.pins[name]))
    || (exists point :: point in after.filters && after.filters[point] == live &&
          !(point in before.filters && before.filters[point] == live))
  }

  /**
   For every mode, strategy and failure pattern of an ADD, every program it leaves live, and every run
   of that program from any state: if any packet is given a departure time, the program serves egress on
   the pod side and fq is installed there.
   */
  lemma {:induction false} StampsOnlyOverFq(h: Host, stuck: set<string>, id: string, steps: seq<Step>, strategy: seq<Attempt>,
                                            edt: EdtMode, mkdir: bool, scripts: nat -> Script, live: Live,
                                            hash: Hash, lane: DP.Lane, ps: seq<DP.Packet>)
    requires var after := AttachBPF(h, stuck, id, steps, strategy, edt, mkdir, scripts).host; NewlyLive(h, after, live)
    requires DP.ValidLane(lane) && lane.cfg == live.cfg
    requires Releases(hash, DirNumber(live.dir), lane, ps) != []
    ensures live.dir == Egress && live.side == PodSide
    ensures AttachBPF(h, stuck, id, steps, strategy, edt, mkdir, scripts).host.fq
  {
    var after := AttachBPF(h, stuck, id, steps, strategy, edt, mkdir, scripts).host;
    AddPacesOverFq(h, stuck, id, steps, strategy, edt, mkdir, scripts);
    assert PacesOnlyPodEgress(live, after.fq);
    if live.cfg.edt == 0 {
      UnpacedNeverStamps(hash, DirNumber(live.dir), lane, ps);
    }
  }
}
