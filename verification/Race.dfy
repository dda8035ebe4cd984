/**
 Sketch updates as the CPUs really perform them: separate, unsynchronised reads and writes of the
 two fields of a cell, interleaved in any way.
 */
module Race {
  import opened Words
  import opened Flow
  import opened Decay
  import opened Sketch

  /** How far a CPU has got in the current row. */
  datatype Phase =
    | Start                              // about to compare its index with the cell's
    | Ahead                              // its index was later: about to read the cell's again
    | Aged(elapsed: u32)                 // about to read the byte counter
    | Loaded(elapsed: u32, next: u64)    // about to write the byte counter
    | Stored(elapsed: u32, next: u64)    // about to write the decay index

  datatype Update = Update(slots: seq<nat>, idx: u32, bytes: u32)

  datatype Cpu = Idle | Busy(u: Update, row: nat, phase: Phase, mn: u64) | Done(u: Update, mn: u64)

  /** The shared table, the bytes of all updates written so far to each cell, and the CPUs. */
  datatype State = State(cells: seq<Cell>, committed: seq<nat>, cpus: seq<Cpu>)

  datatype Event = Begin(cpu: nat, u: Update) | Step(cpu: nat)

  predicate ValidUpdate(u: Update, n: nat) {
    |u.slots| == CMS_DEPTH && forall r :: 0 <= r < CMS_DEPTH ==> u.slots[r] < n
  }

  predicate ValidCpu(c: Cpu, n: nat) {
    match c
    case Idle => true
    case Busy(u, row, _, _) => ValidUpdate(u, n) && row < CMS_DEPTH
    case Done(u, _) => ValidUpdate(u, n)
  }

  predicate ValidState(s: State) {
    |s.committed| == |s.cells| && forall c :: 0 <= c < |s.cpus| ==> ValidCpu(s.cpus[c], |s.cells|)
  }

  /** One read or write of a busy CPU. */
  function Advance(c: Cpu, cell: Cell): Cpu
    requires c.Busy?
  {
    match c.phase
    case Start => c.(phase := if c.u.idx > cell.last then Ahead else Aged(0))
    case Ahead => var gap: u32 := (c.u.idx - cell.last) % TWO32; c.(phase := Aged(gap))
    case Aged(e) => c.(phase := Loaded(e, Wrap(Fade(cell.bytes, e) + c.u.bytes)))
    case Loaded(e, next) => c.(phase := Stored(e, next))
    case Stored(_, next) =>
      var mn := if next < c.mn then next else c.mn;
      if c.row + 1 < CMS_DEPTH then Busy(c.u, c.row + 1, Start, mn) else Done(c.u, mn)
  }

  /** What that read or write does to the cell. */
  function Write(c: Cpu, cell: Cell): Cell
    requires c.Busy?
  {
    match c.phase
    case Loaded(_, next) => cell.(bytes := next)
    case Stored(e, _) => if e > 0 then cell.(last := c.u.idx) else cell
    case _ => cell
  }

  function Next(s: State, e: Event): (r: State)
    requires ValidState(s)
    ensures ValidState(r) && |r.cells| == |s.cells| && |r.cpus| == |s.cpus|
  {
    if e.cpu >= |s.cpus| then s else
      match e
      case Begin(c, u) =>
        if s.cpus[c].Busy? || !ValidUpdate(u, |s.cells|) then s
        else s.(cpus := s.cpus[c := Busy(u, 0, Start, TWO64 - 1)])
      case Step(c) =>
        var me := s.cpus[c];
        if !me.Busy? then s else
          var i := me.u.slots[me.row];
          State(s.cells[i := Write(me, s.cells[i])],
                if me.phase.Loaded? then s.committed[i := s.committed[i] + me.u.bytes] else s.committed,
                s.cpus[c := Advance(me, s.cells[i])])
  }

  function Run(s: State, es: seq<Event>): (r: State)
    requires ValidState(s)
    ensures ValidState(r) && |r.cells| == |s.cells| && |r.cpus| == |s.cpus|
  {
    if es == [] then s else Next(Run(s, es[..|es| - 1]), es[|es| - 1])
  }

  // ---------------------------------------------------------------- safety under every interleaving

  /** What one CPU holds is covered by what has been committed. */
  ghost predicate CpuCovered(c: Cpu, committed: seq<nat>)
    requires ValidCpu(c, |committed|)
  {
    match c
    case Idle => true
    case Done(u, mn) => forall r :: 0 <= r < CMS_DEPTH ==> mn <= committed[u.slots[r]]
    case Busy(u, row, phase, mn) =>
      && (forall r :: 0 <= r < row ==> mn <= committed[u.slots[r]])
      && (phase.Loaded? ==> phase.next <= committed[u.slots[row]] + u.bytes)
      && (phase.Stored? ==> phase.next <= committed[u.slots[row]])
  }

  ghost predicate Covered(s: State)
    requires ValidState(s)
  {
    && (forall i :: 0 <= i < |s.cells| ==> s.cells[i].bytes <= s.committed[i])
    && (forall c :: 0 <= c < |s.cpus| ==> CpuCovered(s.cpus[c], s.committed))
  }

  lemma {:induction false} CommittedGrows(c: Cpu, before: seq<nat>, after: seq<nat>)
    requires |before| == |after| && ValidCpu(c, |before|) && CpuCovered(c, before)
    requires forall i :: 0 <= i < |before| ==> before[i] <= after[i]
    ensures CpuCovered(c, after)
  {
    match c
    case Idle =>
    case Done(u, mn) =>
      forall r | 0 <= r < CMS_DEPTH ensures mn <= after[u.slots[r]] {
        assert mn <= before[u.slots[r]];
      }
    case Busy(u, row, phase, mn) =>
      forall r | 0 <= r < row ensures mn <= after[u.slots[r]] {
        assert mn <= before[u.slots[r]];
      }
  }

  lemma {:induction false} OwnStepCovered(s: State, c: nat)
    requires ValidState(s) && Covered(s) && c < |s.cpus| && s.cpus[c].Busy?
    ensures var t := Next(s, Step(c)); CpuCovered(t.cpus[c], t.committed)
  {
    var me, t := s.cpus[c], Next(s, Step(c));
    assert CpuCovered(me, s.committed);
    var i := me.u.slots[me.row];
    assert forall r :: 0 <= r < me.row ==> me.mn <= s.committed[me.u.slots[r]];
    assert s.cells[i].bytes <= s.committed[i];
  }

  lemma {:induction false} StepCovered(s: State, e: Event)
    requires ValidState(s) && Covered(s)
    ensures Covered(Next(s, e))
  {
    var t := Next(s, e);
    if e.Step? && e.cpu < |s.cpus| && s.cpus[e.cpu].Busy? {
      var me := s.cpus[e.cpu];
      assert CpuCovered(me, s.committed);
      OwnStepCovered(s, e.cpu);
      forall c | 0 <= c < |t.cpus| ensures CpuCovered(t.cpus[c], t.committed) {
        if c != e.cpu {
          CommittedGrows(s.cpus[c], s.committed, t.committed);
        }
      }
    }
  }

  lemma {:induction false} RunCovered(s: State, es: seq<Event>)
    requires ValidState(s) && Covered(s)
    ensures Covered(Run(s, es))
  {
    if es != [] {
      RunCovered(s, es[..|es| - 1]);
      StepCovered(Run(s, es[..|es| - 1]), es[|es| - 1]);
    }
  }

  function Boot(n: nat, cpus: nat): (s: State)
    ensures ValidState(s)
  {
    State(seq(n, i => ZERO_CELL), seq(n, i => 0), seq(cpus, c => Idle))
  }

  /**
   Races only lose bytes: under every interleaving no cell exceeds the bytes committed to it, and a
   finished packet whose minimum exceeds the threshold has, in each of its four cells, more than the
   threshold committed, its own bytes included.
   */
  lemma {:induction false} RacesOnlyUndercount(n: nat, cpus: nat, es: seq<Event>, hh: nat)
    ensures var s := Run(Boot(n, cpus), es);
            && (forall i :: 0 <= i < n ==> s.cells[i].bytes <= s.committed[i])
            && (forall c :: 0 <= c < cpus && s.cpus[c].Done? && s.cpus[c].mn > hh ==>
                  forall r :: 0 <= r < CMS_DEPTH ==> s.committed[s.cpus[c].u.slots[r]] > hh)
  {
    assert Covered(Boot(n, cpus));
    RunCovered(Boot(n, cpus), es);
    var s := Run(Boot(n, cpus), es);
    forall c | 0 <= c < cpus && s.cpus[c].Done? && s.cpus[c].mn > hh
      ensures forall r :: 0 <= r < CMS_DEPTH ==> s.committed[s.cpus[c].u.slots[r]] > hh
    {
      assert CpuCovered(s.cpus[c], s.committed);
    }
  }

  // ---------------------------------------------------------------- without interference

  lemma {:induction false} RunCat(s: State, p: seq<Event>, q: seq<Event>)
    requires ValidState(s)
    ensures Run(s, p + q) == Run(Run(s, p), q)
  {
    if q == [] {
      assert p + q == p;
    } else {
      assert (p + q)[..|p + q| - 1] == p + q[..|q| - 1];
      RunCat(s, p, q[..|q| - 1]);
    }
  }

  lemma {:induction false} RunOne(s: State, e: Event)
    requires ValidState(s)
    ensures Run(s, [e]) == Next(s, e)
  {
    assert [e][..0] == [];
  }

  /** The cell after an undisturbed row. */
  function Touched(s: State, me: Cpu): Cell
    requires ValidState(s) && me.Busy? && ValidCpu(me, |s.cells|)
  {
    Hit(s.cells[me.u.slots[me.row]], Touch(me.u.idx, me.u.bytes))
  }

  function AfterRow(s: State, c: nat): State
    requires ValidState(s) && c < |s.cpus| && s.cpus[c].Busy?
  {
    var me := s.cpus[c];
    var i, hit := me.u.slots[me.row], Touched(s, me);
    var mn := if hit.bytes < me.mn then hit.bytes else me.mn;
    State(s.cells[i := hit], s.committed[i := s.committed[i] + me.u.bytes],
          s.cpus[c := if me.row + 1 < CMS_DEPTH then Busy(me.u, me.row + 1, Start, mn) else Done(me.u, mn)])
  }

  /** From the moment its age is known, an undisturbed CPU completes the row in three steps. */
  lemma {:induction false} FinishRow(s: State, c: nat)
    requires ValidState(s) && c < |s.cpus| && s.cpus[c].Busy?
    requires var me := s.cpus[c]; me.phase == Aged(Gap(s.cells[me.u.slots[me.row]].last, me.u.idx))
    ensures Next(Next(Next(s, Step(c)), Step(c)), Step(c)) == AfterRow(s, c)
  {
    var me := s.cpus[c];
    var i, e := me.u.slots[me.row], me.phase.elapsed;
    var cell := s.cells[i];
    var next := Wrap(Fade(cell.bytes, e) + me.u.bytes);
    var s1, s2 := Next(s, Step(c)), Next(Next(s, Step(c)), Step(c));
    assert s1.cells == s.cells && s1.cpus == s.cpus[c := me.(phase := Loaded(e, next))];
    assert s2.cells == s.cells[i := cell.(bytes := next)];
    assert s2.cpus == s.cpus[c := me.(phase := Stored(e, next))];
    var s3 := Next(s2, Step(c));
    assert s3.cells == s.cells[i := Touched(s, me)];
    assert s3.cpus == AfterRow(s, c).cpus;
  }

  /** Comparing indices, once or twice, settles the age of the cell. */
  lemma {:induction false} ReadAge(s: State, c: nat) returns (es: seq<Event>)
    requires ValidState(s) && c < |s.cpus| && s.cpus[c].Busy? && s.cpus[c].phase == Start
    ensures forall i :: 0 <= i < |es| ==> es[i] == Step(c)
    ensures var me := s.cpus[c];
            Run(s, es) == s.(cpus := s.cpus[c := me.(phase := Aged(Gap(s.cells[me.u.slots[me.row]].last, me.u.idx)))])
  {
    var me, go := s.cpus[c], Step(c);
    var cell := s.cells[me.u.slots[me.row]];
    var s1 := Next(s, go);
    RunOne(s, go);
    es := [go];
    if me.u.idx > cell.last {
      RunOne(s1, go);
      RunCat(s, es, [go]);
      es := es + [go];
    }
  }

  /** A row executed without interference is one atomic touch of the cell. */
  lemma {:induction false} RowAlone(s: State, c: nat) returns (es: seq<Event>)
    requires ValidState(s) && c < |s.cpus| && s.cpus[c].Busy? && s.cpus[c].phase == Start
    ensures forall i :: 0 <= i < |es| ==> es[i] == Step(c)
    ensures Run(s, es) == AfterRow(s, c)
  {
    es := ReadAge(s, c);
    var aged := Run(s, es);
    FinishRow(aged, c);
    assert AfterRow(aged, c) == AfterRow(s, c);
    ThreeMore(s, es, Step(c));
    es := es + [Step(c), Step(c), Step(c)];
  }

  lemma {:induction false} ThreeMore(s: State, es: seq<Event>, e: Event)
    requires ValidState(s)
    ensures Run(s, es + [e, e, e]) == Next(Next(Next(Run(s, es), e), e), e)
  {
    RunCat(s, es, [e, e, e]);
    assert [e, e, e] == [e] + [e] + [e];
    var t := Run(s, es);
    RunOne(t, e);
    RunCat(t, [e], [e]);
    RunOne(Next(t, e), e);
    RunCat(t, [e] + [e], [e]);
    RunOne(Next(Next(t, e), e), e);
  }

  // ---------------------------------------------------------------- a whole packet

  function UpdateOf(hash: Hash, k: FlowKey, t: Touch): Update
    requires t.bytes < TWO32
  {
    Update(seq(CMS_DEPTH, (r: nat) => Slot(hash, 0, k, r)), t.idx, t.bytes)
  }

  /** The table and the commit counts once the first `row` rows of a packet are done. */
  ghost predicate RowsDone(hash: Hash, k: FlowKey, t: Touch, s: State, s': State, row: nat)
    requires ValidState(s) && ValidState(s') && |s.cells| == |s'.cells|
  {
    forall i :: 0 <= i < |s.cells| ==>
      && s'.cells[i] == (if TouchesRows(hash, 0, k, i, row) then Hit(s.cells[i], t) else s.cells[i])
      && s'.committed[i] == s.committed[i] + if TouchesRows(hash, 0, k, i, row) then t.bytes else 0
  }

  /** The packet is at the start of a row, having seen the minimum of the rows before. */
  ghost predicate AtRow(hash: Hash, k: FlowKey, t: Touch, s: State, c: nat, row: nat)
    requires ValidState(s) && |s.cells| == HALF && c < |s.cpus| && row <= CMS_DEPTH && t.bytes < TWO32
  {
    var mn := RowMin(hash, 0, k, s.cells, row);
    s.cpus[c] == if row < CMS_DEPTH then Busy(UpdateOf(hash, k, t), row, Start, mn)
                 else Done(UpdateOf(hash, k, t), mn)
  }

  lemma {:induction false} RowDone(hash: Hash, k: FlowKey, t: Touch, s: State, s1: State, c: nat, row: nat)
    requires ValidState(s) && ValidState(s1) && |s.cells| == |s1.cells| == HALF && c < |s1.cpus|
    requires row < CMS_DEPTH && t.bytes < TWO32
    requires RowsDone(hash, k, t, s, s1, row) && AtRow(hash, k, t, s1, c, row)
    ensures RowsDone(hash, k, t, s, AfterRow(s1, c), row + 1)
  {
    var s2 := AfterRow(s1, c);
    NotYetTouched(hash, 0, k, row);
    forall i | 0 <= i < |s.cells|
      ensures s2.cells[i] == if TouchesRows(hash, 0, k, i, row + 1) then Hit(s.cells[i], t) else s.cells[i]
      ensures s2.committed[i] == s.committed[i] + if TouchesRows(hash, 0, k, i, row + 1) then t.bytes else 0
    {
      MoreRows(hash, 0, k, i, row);
    }
  }

  lemma {:induction false} NextRow(hash: Hash, k: FlowKey, t: Touch, s: State, c: nat, row: nat)
    requires ValidState(s) && |s.cells| == HALF && c < |s.cpus| && row < CMS_DEPTH && t.bytes < TWO32
    requires AtRow(hash, k, t, s, c, row)
    ensures AtRow(hash, k, t, AfterRow(s, c), c, row + 1)
  {
    NotYetTouched(hash, 0, k, row);
    RowMinFrame(hash, 0, k, s.cells, Slot(hash, 0, k, row), Touched(s, s.cpus[c]), row);
  }

  ghost predicate Progress(hash: Hash, k: FlowKey, t: Touch, s: State, s': State, c: nat, row: nat)
    requires ValidState(s) && |s.cells| == HALF && c < |s.cpus| && row <= CMS_DEPTH && t.bytes < TWO32
  {
    && ValidState(s') && |s'.cells| == HALF && |s'.cpus| == |s.cpus|
    && RowsDone(hash, k, t, s, s', row) && AtRow(hash, k, t, s', c, row)
    && (forall d :: 0 <= d < |s.cpus| && d != c ==> s'.cpus[d] == s.cpus[d])
  }

  lemma {:induction false} ProgressStep(hash: Hash, k: FlowKey, t: Touch, s: State, s1: State, c: nat, row: nat)
    requires ValidState(s) && |s.cells| == HALF && c < |s.cpus| && row < CMS_DEPTH && t.bytes < TWO32
    requires Progress(hash, k, t, s, s1, c, row)
    ensures ValidState(AfterRow(s1, c)) && Progress(hash, k, t, s, AfterRow(s1, c), c, row + 1)
  {
    RowDone(hash, k, t, s, s1, c, row);
    NextRow(hash, k, t, s1, c, row);
  }

  lemma {:induction false} RowsAlone(hash: Hash, k: FlowKey, t: Touch, s: State, c: nat, row: nat) returns (es: seq<Event>)
    requires ValidState(s) && |s.cells| == HALF && c < |s.cpus| && row <= CMS_DEPTH && t.bytes < TWO32
    requires AtRow(hash, k, t, s, c, 0)
    ensures Progress(hash, k, t, s, Run(s, es), c, row)
  {
    if row == 0 {
      es := [];
    } else {
      var done := RowsAlone(hash, k, t, s, c, row - 1);
      var s1 := Run(s, done);
      var more := RowAlone(s1, c);
      RunCat(s, done, more);
      es := done + more;
      ProgressStep(hash, k, t, s, s1, c, row - 1);
    }
  }

  /** A packet processed without interference performs exactly the sequential sketch update. */
  lemma {:induction false} PacketAlone(hash: Hash, k: FlowKey, t: Touch, s: State, c: nat) returns (es: seq<Event>)
    requires ValidState(s) && |s.cells| == HALF && c < |s.cpus| && !s.cpus[c].Busy? && t.bytes < TWO32
    ensures var s' := Run(s, es);
            && s'.cells == CmsAfter(hash, 0, k, t, s.cells)
            && s'.cpus == s.cpus[c := Done(UpdateOf(hash, k, t), Estimate(hash, 0, k, s'.cells))]
            && forall i :: 0 <= i < |s.cells| ==>
                 s'.committed[i] == s.committed[i] + if Touches(hash, 0, k, i) then t.bytes else 0
  {
    var begin := Begin(c, UpdateOf(hash, k, t));
    var s1 := Next(s, begin);
    RunOne(s, begin);
    var rest := RowsAlone(hash, k, t, s1, c, CMS_DEPTH);
    RunCat(s, [begin], rest);
    es := [begin] + rest;
  }

  // ---------------------------------------------------------------- how much a race can lose

  /** Bytes committed to a cell that it does not show. */
  function Lost(s: State, i: nat): int
    requires ValidState(s) && i < |s.cells|
  {
    s.committed[i] - s.cells[i].bytes
  }

  lemma {:induction false} OthersLeaveCpu(s: State, c: nat, es: seq<Event>)
    requires ValidState(s) && c < |s.cpus|
    requires forall j :: 0 <= j < |es| ==> es[j].cpu != c
    ensures Run(s, es).cpus[c] == s.cpus[c]
  {
    if es != [] {
      OthersLeaveCpu(s, c, es[..|es| - 1]);
      var before, e := Run(s, es[..|es| - 1]), es[|es| - 1];
      assert e.cpu != c;
      NextLeavesCpu(before, c, e);
    }
  }

  lemma {:induction false} NextLeavesCpu(s: State, c: nat, e: Event)
    requires ValidState(s) && c < |s.cpus| && e.cpu != c
    ensures Next(s, e).cpus[c] == s.cpus[c]
  {
  }

  /**
   What a race costs, exactly. A CPU reads a counter it found e intervals old, others do anything at all,
   and the CPU writes: the cell then shows the faded bytes read plus the CPU's own. Unless that sum wraps,
   what the cell has lost is what it had lost at the read, plus what the fade took, plus everything the
   others committed to it between the read and the write.
   */
  lemma {:induction false} WriteLosesOverlap(s: State, c: nat, es: seq<Event>)
    requires ValidState(s) && c < |s.cpus| && s.cpus[c].Busy? && s.cpus[c].phase.Aged?
    requires forall j :: 0 <= j < |es| ==> es[j].cpu != c
    ensures var me := s.cpus[c];
            var i := me.u.slots[me.row];
            var kept := Fade(s.cells[i].bytes, me.phase.elapsed);
            var meanwhile := Run(Next(s, Step(c)), es);
            var written := Next(meanwhile, Step(c));
            && written.cells[i].bytes == Wrap(kept + me.u.bytes)
            && (kept + me.u.bytes < TWO64 ==>
                  Lost(written, i) + s.committed[i] == Lost(s, i) + (s.cells[i].bytes - kept) + meanwhile.committed[i])
  {
    var me, loaded := s.cpus[c], Next(s, Step(c));
    var i, e := me.u.slots[me.row], me.phase.elapsed;
    var next := Wrap(Fade(s.cells[i].bytes, e) + me.u.bytes);
    assert loaded.cpus[c] == me.(phase := Loaded(e, next));
    OthersLeaveCpu(loaded, c, es);
    assert Run(loaded, es).cpus[c] == me.(phase := Loaded(e, next));
  }

  lemma {:induction false} OnlyWritesLose(s: State, e: Event, i: nat)
    requires ValidState(s) && i < |s.cells|
    requires e.Step? && e.cpu < |s.cpus| && s.cpus[e.cpu].Busy? && s.cpus[e.cpu].phase.Loaded? ==>
               s.cpus[e.cpu].u.slots[s.cpus[e.cpu].row] != i
    ensures Lost(Next(s, e), i) == Lost(s, i)
  {
  }

  /** CPU 1 processes n packets of the flow while the other CPUs stand still. */
  lemma {:induction false} ManyPackets(hash: Hash, k: FlowKey, t: Touch, s: State, n: nat) returns (es: seq<Event>)
    requires ValidState(s) && |s.cells| == HALF && |s.cpus| == 2 && !s.cpus[1].Busy? && t.bytes < TWO32
    ensures var s' := Run(s, es);
            && s'.cpus[0] == s.cpus[0] && !s'.cpus[1].Busy?
            && s'.committed[Slot(hash, 0, k, 0)] == s.committed[Slot(hash, 0, k, 0)] + Times(t.bytes, n)
  {
    if n == 0 {
      es := [];
    } else {
      var before := ManyPackets(hash, k, t, s, n - 1);
      var last := PacketAlone(hash, k, t, Run(s, before), 1);
      RunCat(s, before, last);
      es := before + last;
      assert Touches(hash, 0, k, Slot(hash, 0, k, 0));
    }
  }

  /** CPU 0 has read its first cell but not yet written it. */
  lemma {:induction false} PausedBeforeWrite(hash: Hash, k: FlowKey, b: u32)
    ensures var u := UpdateOf(hash, k, Touch(0, b));
            var s := Run(Boot(HALF, 2), [Begin(0, u), Step(0), Step(0)]);
            && s.cpus == [Busy(u, 0, Loaded(0, b), TWO64 - 1), Idle]
            && s.cells == Boot(HALF, 2).cells && s.committed == Boot(HALF, 2).committed
  {
    var u, s0 := UpdateOf(hash, k, Touch(0, b)), Boot(HALF, 2);
    var begin, go := Begin(0, u), Step(0);
    var s1 := Next(s0, begin);
    assert s1.cpus == [Busy(u, 0, Start, TWO64 - 1), Idle];
    var s2 := Next(s1, go);
    assert s2 == s1.(cpus := [Busy(u, 0, Aged(0), TWO64 - 1), Idle]);
    var s3 := Next(s2, go);
    assert s3 == s2.(cpus := [Busy(u, 0, Loaded(0, b), TWO64 - 1), Idle]);
    RunOne(s0, begin);
    RunCat(s0, [begin], [go]);
    RunOne(s1, go);
    RunCat(s0, [begin] + [go], [go]);
    RunOne(s2, go);
    assert [begin, go, go] == [begin] + [go] + [go];
  }

  /**
   "One extra packet" is not a bound: for every n some interleaving commits n + 1 packets to a cell
   and leaves it showing a single one.
   */
  lemma {:induction false} LostUpdatesUnbounded(hash: Hash, k: FlowKey, b: u32, n: nat) returns (es: seq<Event>)
    ensures var s, i := Run(Boot(HALF, 2), es), Slot(hash, 0, k, 0);
            s.cells[i].bytes == b && s.committed[i] == Times(b, n + 1)
  {
    var t := Touch(0, b);
    var pause := [Begin(0, UpdateOf(hash, k, t)), Step(0), Step(0)];
    var s0 := Boot(HALF, 2);
    PausedBeforeWrite(hash, k, b);
    var paused := Run(s0, pause);
    var others := ManyPackets(hash, k, t, paused, n);
    RunCat(s0, pause, others);
    var s1 := Run(paused, others);
    RunOne(s1, Step(0));
    RunCat(s0, pause + others, [Step(0)]);
    es := pause + others + [Step(0)];
  }
}
