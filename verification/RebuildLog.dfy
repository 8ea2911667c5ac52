/**
 The background rebuild with Rebuild_Logger as it is: a ring of fixed length without an overflow check.
 While it is not overrun, the protocol is the one with an unbounded log; once it is, edits can be lost.
 */
module RebuildLogs {
  import opened Verdicts
  import opened Geometry
  import opened PointSeqs
  import opened KdModel
  import opened KdBuild
  import opened KdEdit
  import opened RebuildThread
  import opened OpQueues

  datatype Machine = Machine(current: Tree, phase: Phase, ring: Buffer<LogOp>)

  /** The machine with `log` in place of its ring. */
  function View(s: Machine, log: seq<LogOp>): State { State(s.current, s.phase, log) }

  // ---------- Steps ----------

  ghost predicate Edits(c: Config, s: Machine, t: Machine, op: LogOp) {
    && InBounds(s.ring)
    && MainEdits(c, View(s, []), View(t, if Logging(s.phase) then [op] else []), op)
    && t.ring == if Logging(s.phase) then Pushed(s.ring, op) else s.ring
  }

  /** A step that does not touch the log. */
  ghost predicate Quiet(c: Config, s: State, t: State) {
    MainSearches(s, t) || TakesSnapshot(s, t) || Builds(c, s, t) || Applies(c, s, t)
  }

  /** front and pop. */
  ghost predicate PopsFront(s: Machine, t: Machine) {
    && InBounds(s.ring) && s.phase.Replaying? && !s.ring.isEmpty
    && t == Machine(s.current, Applying(s.phase.rebuilt, s.ring.q[s.ring.head]), Popped(s.ring))
  }

  ghost predicate SwapsIn(s: Machine, t: Machine) {
    s.phase.Replaying? && s.ring.isEmpty && t == s.(phase := RebuildThread.Swapped(s.phase.rebuilt))
  }

  ghost predicate MachineStep(c: Config, s: Machine, t: Machine) {
    Move(c, s, t).Sound?
  }

  ghost function Move(c: Config, s: Machine, t: Machine): Verdict {
    if (exists op :: Edits(c, s, t, op))
      || (t.ring == s.ring && Quiet(c, View(s, []), View(t, [])))
      || PopsFront(s, t)
      || SwapsIn(s, t)
    then Sound else Broken
  }

  /** It starts with an empty ring of `len` places. */
  ghost predicate MachineInit(c: Config, len: nat, s: Machine) {
    Init(c, View(s, [])) && Intact(s.ring) && s.ring.counter == 0 && |s.ring.q| == len
  }

  ghost predicate IsMachineRun(c: Config, len: nat, run: seq<Machine>) {
    run != [] && Course(c, len, run).Sound?
  }

  ghost function Course(c: Config, len: nat, run: seq<Machine>): Verdict
    requires run != []
  {
    if MachineInit(c, len, run[0]) && forall i :: 0 <= i < |run| - 1 ==> MachineStep(c, run[i], run[i + 1])
    then Sound else Broken
  }

  // ---------- Within its length the ring is the log ----------

  ghost predicate NeverOverrun(len: nat, run: seq<Machine>) {
    forall i :: 0 <= i < |run| ==> run[i].ring.counter <= len
  }

  /** The machine with what its ring holds as the log. */
  ghost function Abstract(s: Machine): State {
    View(s, if InBounds(s.ring) then Queued(s.ring) else [])
  }

  lemma EditRefines(c: Config, s: Machine, t: Machine, op: LogOp)
    requires Intact(s.ring) && Edits(c, s, t, op) && t.ring.counter <= |s.ring.q|
    ensures Intact(t.ring) && |t.ring.q| == |s.ring.q| && MainEdits(c, Abstract(s), Abstract(t), op)
  {
    if Logging(s.phase) { PushExactly(s.ring, op); }
  }

  lemma PopRefines(c: Config, s: Machine, t: Machine)
    requires Intact(s.ring) && PopsFront(s, t)
    ensures Intact(t.ring) && |t.ring.q| == |s.ring.q| && Pops(Abstract(s), Abstract(t))
  {
    var ring := s.ring;
    PopIntact(ring);
    PopExactly(ring);
    FrontIsOldest(ring);
  }

  lemma QuietRefines(c: Config, s: Machine, t: Machine)
    requires Intact(s.ring) && t.ring == s.ring && Quiet(c, View(s, []), View(t, []))
    ensures Next(c, Abstract(s), Abstract(t))
  {
    var log := Queued(s.ring);
    assert Quiet(c, View(s, log), View(t, log));
  }

  lemma StepRefines(c: Config, s: Machine, t: Machine)
    requires Intact(s.ring) && MachineStep(c, s, t) && t.ring.counter <= |s.ring.q|
    ensures Intact(t.ring) && |t.ring.q| == |s.ring.q| && Next(c, Abstract(s), Abstract(t))
  {
    if op :| Edits(c, s, t, op) {
      EditRefines(c, s, t, op);
    } else if PopsFront(s, t) {
      PopRefines(c, s, t);
    } else if SwapsIn(s, t) {
      assert Queued(s.ring) == [];
      assert Swaps(Abstract(s), Abstract(t));
    } else {
      QuietRefines(c, s, t);
    }
  }

  lemma {:induction false} StaysIntact(c: Config, len: nat, run: seq<Machine>, i: nat)
    requires IsMachineRun(c, len, run) && NeverOverrun(len, run) && i < |run|
    ensures Intact(run[i].ring) && |run[i].ring.q| == len
  {
    if i > 0 {
      StaysIntact(c, len, run, i - 1);
      assert MachineStep(c, run[i - 1], run[i - 1 + 1]) && run[i].ring.counter <= len;
      StepRefines(c, run[i - 1], run[i]);
    }
  }

  ghost function Abstracts(run: seq<Machine>): (r: seq<State>)
    ensures |r| == |run| && forall i :: 0 <= i < |r| ==> r[i] == Abstract(run[i])
  {
    seq(|run|, i requires 0 <= i < |run| => Abstract(run[i]))
  }

  /** A run that never overruns the ring is a run of the protocol with an unbounded log. */
  lemma BoundedRunRefines(c: Config, len: nat, run: seq<Machine>)
    requires IsMachineRun(c, len, run) && NeverOverrun(len, run)
    ensures IsRun(c, Abstracts(run))
  {
    var r := Abstracts(run);
    assert Queued(run[0].ring) == [];
    forall i | 0 <= i < |r| - 1
      ensures Next(c, r[i], r[i + 1])
    {
      StaysIntact(c, len, run, i);
      assert MachineStep(c, run[i], run[i + 1]) && run[i + 1].ring.counter <= len;
      StepRefines(c, run[i], run[i + 1]);
    }
  }

  /** With the ring as the log: what is swapped in is exact as long as the ring was never overrun. */
  lemma BoundedSwapIsExact(c: Config, len: nat, run: seq<Machine>, i: nat)
    requires IsMachineRun(c, len, run) && NeverOverrun(len, run) && i < |run| && run[i].phase.Swapped?
    ensures WF(run[i].phase.rebuilt)
    ensures multiset(Live(run[i].phase.rebuilt)) == multiset(Live(run[i].current))
  {
    BoundedRunRefines(c, len, run);
    SwapIsExact(c, Abstracts(run), i);
  }

  // ---------- One entry too many ----------

  lemma Longer(c: Config, len: nat, run: seq<Machine>, t: Machine)
    requires IsMachineRun(c, len, run) && MachineStep(c, run[|run| - 1], t)
    ensures IsMachineRun(c, len, run + [t])
  {
    var more := run + [t];
    forall i | 0 <= i < |more| - 1
      ensures MachineStep(c, more[i], more[i + 1])
    {
      if i < |run| - 1 { assert MachineStep(c, run[i], run[i + 1]); }
    }
  }

  /** How often `p` is live. */
  ghost function Times(t: Tree, p: Point): nat { multiset(Live(t))[p] }

  lemma AddedOnce(c: Config, t: Tree, x: Point, p: Point)
    requires t.Node? && WF(t)
    ensures var u := RunOperation(c, t, AddOp(x));
      u.Node? && WF(u) && Times(u, p) == Times(t, p) + if x == p then 1 else 0
  {
    RunOperationKeeps(c, t, AddOp(x), RunOperation(c, t, AddOp(x)));
  }

  /** Behind the first entry there are `j` additions of `r`; the last one of a full round replaces the first. */
  ghost predicate Filled(ring: Buffer<LogOp>, len: nat, r: Point, j: nat) {
    && |ring.q| == len > 0 && j <= len
    && ring.head == 0 && ring.counter == 1 + j && !ring.isEmpty
    && ring.tail == (1 + j) % len
    && (forall i :: 1 <= i <= j && i < len ==> ring.q[i] == AddOp(r))
    && (j == len ==> ring.q[0] == AddOp(r))
  }

  lemma FilledNext(ring: Buffer<LogOp>, len: nat, r: Point, j: nat)
    requires Filled(ring, len, r, j) && j < len
    ensures InBounds(ring) && Filled(Pushed(ring, AddOp(r)), len, r, j + 1)
  {
    ModOnce(1 + j, len);
    NextTail(0, 1 + j, len);
  }

  /** The main thread adds a point after the snapshot. */
  lemma LogAddition(c: Config, len: nat, run: seq<Machine>, x: Point, p: Point) returns (t: Machine)
    requires IsMachineRun(c, len, run) && run[|run| - 1].phase.Snapped? && InBounds(run[|run| - 1].ring)
    requires run[|run| - 1].current.Node? && WF(run[|run| - 1].current)
    ensures IsMachineRun(c, len, run + [t]) && t.phase == run[|run| - 1].phase && t.current.Node? && WF(t.current)
    ensures Times(t.current, p) == Times(run[|run| - 1].current, p) + if x == p then 1 else 0
    ensures t.ring == Pushed(run[|run| - 1].ring, AddOp(x))
  {
    var s, op := run[|run| - 1], AddOp(x);
    AddedOnce(c, s.current, x, p);
    t := Machine(RunOperation(c, s.current, op), s.phase, Pushed(s.ring, op));
    assert Edits(c, s, t, op);
    Longer(c, len, run, t);
  }

  /** The main thread has logged the addition of `p` and then `j` additions of `r`. */
  ghost predicate Filling(s: Machine, len: nat, p: Point, r: Point, cloud: seq<Point>, j: nat) {
    && s.phase == Snapped(cloud) && s.current.Node? && WF(s.current)
    && Times(s.current, p) == multiset(cloud)[p] + 1 && Filled(s.ring, len, r, j)
  }

  lemma {:induction false} FillUp(c: Config, len: nat, run: seq<Machine>, p: Point, r: Point, cloud: seq<Point>, j: nat)
      returns (more: seq<Machine>)
    requires p != r && j <= len && IsMachineRun(c, len, run) && Filling(run[|run| - 1], len, p, r, cloud, j)
    ensures IsMachineRun(c, len, more) && Filling(more[|more| - 1], len, p, r, cloud, len)
    decreases len - j
  {
    more := run;
    if j < len {
      FilledNext(run[|run| - 1].ring, len, r, j);
      var t := LogAddition(c, len, run, r, p);
      more := FillUp(c, len, run + [t], p, r, cloud, j + 1);
    }
  }

  /** The rebuild thread replays from a ring in which every entry adds `r`. */
  ghost predicate Draining(s: Machine, p: Point, r: Point) {
    && s.phase.Replaying? && s.phase.rebuilt.Node? && WF(s.phase.rebuilt)
    && Times(s.current, p) == Times(s.phase.rebuilt, p) + 1
    && InBounds(s.ring) && (s.ring.isEmpty <==> s.ring.counter == 0)
    && forall i :: 0 <= i < |s.ring.q| ==> s.ring.q[i] == AddOp(r)
  }

  /** It has swapped in a subtree in which `p` is missing once. */
  ghost predicate Lost(s: Machine, p: Point) {
    s.phase.Swapped? && Times(s.current, p) == Times(s.phase.rebuilt, p) + 1
  }

  lemma DrainOne(c: Config, len: nat, run: seq<Machine>, p: Point, r: Point) returns (t: Machine, u: Machine)
    requires p != r && IsMachineRun(c, len, run) && Draining(run[|run| - 1], p, r) && run[|run| - 1].ring.counter > 0
    ensures IsMachineRun(c, len, run + [t] + [u]) && Draining(u, p, r)
    ensures u.ring.counter == run[|run| - 1].ring.counter - 1
  {
    var s := run[|run| - 1];
    t := Machine(s.current, Applying(s.phase.rebuilt, AddOp(r)), Popped(s.ring));
    assert PopsFront(s, t);
    Longer(c, len, run, t);
    AddedOnce(c, s.phase.rebuilt, r, p);
    u := t.(phase := Replaying(RunOperation(c, s.phase.rebuilt, AddOp(r))));
    assert Applies(c, View(t, []), View(u, []));
    Longer(c, len, run + [t], u);
  }

  lemma {:induction false} DrainAll(c: Config, len: nat, run: seq<Machine>, p: Point, r: Point)
      returns (more: seq<Machine>)
    requires p != r && IsMachineRun(c, len, run) && Draining(run[|run| - 1], p, r)
    ensures IsMachineRun(c, len, more) && Lost(more[|more| - 1], p)
    decreases run[|run| - 1].ring.counter
  {
    var s := run[|run| - 1];
    if s.ring.counter == 0 {
      var z := s.(phase := RebuildThread.Swapped(s.phase.rebuilt));
      assert SwapsIn(s, z);
      Longer(c, len, run, z);
      more := run + [z];
    } else {
      var t, u := DrainOne(c, len, run, p, r);
      more := DrainAll(c, len, run + [t] + [u], p, r);
    }
  }

  lemma Starts(c: Config, len: nat, s: Machine)
    requires MachineInit(c, len, s)
    ensures IsMachineRun(c, len, [s])
  {
  }

  lemma SnapshotStep(c: Config, s: Machine, t: Machine)
    requires TakesSnapshot(View(s, []), View(t, [])) && t.ring == s.ring
    ensures MachineStep(c, s, t)
  {
    assert Quiet(c, View(s, []), View(t, []));
  }

  function EmptyRing(len: nat, r: Point): (ring: Buffer<LogOp>)
    requires len > 0
    ensures Intact(ring) && ring.counter == 0 && |ring.q| == len
  {
    Buffer(seq(len, _ => AddOp(r)), 0, 0, 0, true)
  }

  /** A subtree of the size that is handed over, and what flatten leaves of it. */
  lemma Flattened(c: Config, p: Point, r: Point) returns (large: Tree, flat: Tree)
    requires p != r
    ensures Init(c, State(large, Requested, [])) && flat == PushAll(large) && flat.Node? && WF(flat)
    ensures Live(large) != [] && Times(large, p) == 0 && Times(flat, p) == 0
  {
    large := LargeSubtree(c, r);
    flat := PushAll(large);
    PushAllKeeps(large);
    assert p !in Live(large);
  }

  /** The handover and the snapshot. */
  lemma Handover(c: Config, len: nat, p: Point, r: Point) returns (s: Machine, t: Machine)
    requires p != r && len > 0
    ensures IsMachineRun(c, len, [s] + [t]) && t.phase.Snapped? && t.phase.cloud != []
    ensures t.current.Node? && WF(t.current) && Times(t.current, p) == multiset(t.phase.cloud)[p]
    ensures t.ring == EmptyRing(len, r)
  {
    var large, flat := Flattened(c, p, r);
    var ring := EmptyRing(len, r);
    s := Machine(large, Requested, ring);
    t := Machine(flat, Snapped(Live(large)), ring);
    Starts(c, len, s);
    SnapshotStep(c, s, t);
    Longer(c, len, [s], t);
  }

  lemma FirstEntry(len: nat, p: Point, r: Point)
    requires len > 0
    ensures Filled(Pushed(EmptyRing(len, r), AddOp(p)), len, r, 0)
  {
    ModOnce(1, len);
  }

  lemma FullRing(ring: Buffer<LogOp>, len: nat, r: Point)
    requires Filled(ring, len, r, len)
    ensures InBounds(ring) && ring.counter > 0 && !ring.isEmpty
    ensures forall i :: 0 <= i < |ring.q| ==> ring.q[i] == AddOp(r)
  {
  }

  lemma Built(c: Config, cloud: seq<Point>, p: Point) returns (rebuilt: Tree)
    requires cloud != []
    ensures rebuilt == Build(c.nth, cloud) && rebuilt.Node? && WF(rebuilt) && Times(rebuilt, p) == multiset(cloud)[p]
  {
    rebuilt := Build(c.nth, cloud);
    BuildIsWellFormed(c.nth, cloud);
    BuildStoresInput(c.nth, cloud);
  }

  /** BuildTree on the snapshot, with the overrun ring still to be replayed. */
  lemma BuildOnSnapshot(c: Config, len: nat, run: seq<Machine>, p: Point, r: Point, cloud: seq<Point>)
      returns (v: Machine)
    requires IsMachineRun(c, len, run) && Filling(run[|run| - 1], len, p, r, cloud, len) && cloud != []
    ensures IsMachineRun(c, len, run + [v]) && Draining(v, p, r)
  {
    var u := run[|run| - 1];
    var rebuilt := Built(c, cloud, p);
    FullRing(u.ring, len, r);
    v := u.(phase := Replaying(rebuilt));
    assert Builds(c, View(u, []), View(v, []));
    Longer(c, len, run, v);
  }

  /**
   One entry more than the ring holds, and an edit is lost: of `len + 1` additions logged after the
   snapshot the first is never replayed, and the subtree swapped in lacks its point.
   */
  lemma OverrunLosesEdit(c: Config, len: nat, p: Point, r: Point) returns (run: seq<Machine>)
    requires p != r && len > 0
    ensures IsMachineRun(c, len, run) && Lost(run[|run| - 1], p)
  {
    var s, u := Handover(c, len, p, r);
    run := [s] + [u];
    var t := LogAddition(c, len, run, p, p);
    FirstEntry(len, p, r);
    run := FillUp(c, len, run + [t], p, r, u.phase.cloud, 0);
    var v := BuildOnSnapshot(c, len, run, p, r, u.phase.cloud);
    run := DrainAll(c, len, run + [v], p, r);
  }
}
