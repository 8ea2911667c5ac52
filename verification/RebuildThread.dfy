/**
 The background rebuild of one large subtree as a step relation. The main thread keeps editing the
 old subtree and, once the snapshot is taken, logs every edit; the rebuild thread builds a new
 subtree from the snapshot, replays the log on it and swaps it in. Each step is one critical
 section of the source.
 */
module RebuildThread {
  import opened Verdicts
  import opened Geometry
  import opened PointSeqs
  import opened KdModel
  import opened KdBuild
  import opened KdEdit

  /** Operation_Logger_Type, for the operations the mapping node uses. */
  datatype LogOp =
    | AddOp(p: Point)
    | DeleteOp(b: Box, ds: bool)
    | PushOp(tdel: bool, tdds: bool)

  /** run_operation; the main thread's edit of the old subtree is the same function. */
  function RunOperation(c: Config, t: Tree, op: LogOp): Tree
    requires t.Node?
  {
    match op
    case AddOp(p) => AddPoint(c, t, p, false, t.d.axis)
    case DeleteOp(b, ds) => DeleteRange(c, t, b, false, ds).tree
    case PushOp(tdel, tdds) => Receive(t, tdel, tdds)
  }

  datatype Phase =
    | Requested                        // Rebuild_Ptr is set, nothing is logged yet
    | Snapped(cloud: seq<Point>)       // Rebuild_PCL_Storage is filled, rebuild_flag is set
    | Replaying(rebuilt: Tree)           // the new subtree is built, between two log entries
    | Applying(rebuilt: Tree, op: LogOp) // an entry is popped, its operation not yet run
    | Swapped(rebuilt: Tree)             // the father points at the new subtree
    | Crashed                          // the empty snapshot: the null new root is dereferenced

  datatype State = State(current: Tree, phase: Phase, log: seq<LogOp>)

  /** rebuild_flag. */
  predicate Logging(ph: Phase) {
    ph.Snapped? || ph.Replaying? || ph.Applying?
  }

  // ---------- Steps ----------

  /** Push_Down of the father passes its flags on to the held subtree. */
  ghost predicate PushedBy(father: Tree, current: Tree, op: LogOp) {
    && father.Node? && WF(father) && op == PushOp(father.d.tdel, father.d.tdds)
    && ((father.left == current && father.d.pushL) || (father.right == current && father.d.pushR))
  }

  /** An Add_by_point or Delete_by_range that reaches the held subtree, or a push into it. */
  ghost predicate MainEdits(c: Config, s: State, t: State, op: LogOp) {
    && !s.phase.Swapped? && !s.phase.Crashed? && s.current.Node?
    && (op.PushOp? ==> exists father :: PushedBy(father, s.current, op))
    && t == State(RunOperation(c, s.current, op), s.phase, if Logging(s.phase) then s.log + [op] else s.log)
  }

  /** A search pushes flags around inside the old subtree. */
  ghost predicate MainSearches(s: State, t: State) {
    !s.phase.Swapped? && !s.phase.Crashed? && SameButFlags(s.current, t.current) && t == s.(current := t.current)
  }

  /** flatten under working_flag_mutex. */
  ghost predicate TakesSnapshot(s: State, t: State) {
    s.phase.Requested? && t == State(PushAll(s.current), Snapped(Live(s.current)), s.log)
  }

  /** BuildTree on the snapshot; an empty snapshot leaves new_root_node null. */
  ghost predicate Builds(c: Config, s: State, t: State) {
    && s.phase.Snapped?
    && t == s.(phase := if s.phase.cloud == [] then Crashed else Replaying(Build(c.nth, s.phase.cloud)))
  }

  ghost predicate Pops(s: State, t: State) {
    && s.phase.Replaying? && s.log != []
    && t == State(s.current, Applying(s.phase.rebuilt, s.log[0]), s.log[1..])
  }

  ghost predicate Applies(c: Config, s: State, t: State) {
    && s.phase.Applying? && s.phase.rebuilt.Node?
    && t == s.(phase := Replaying(RunOperation(c, s.phase.rebuilt, s.phase.op)))
  }

  /** The pointer swap, taken with the log found empty under the same lock. */
  ghost predicate Swaps(s: State, t: State) {
    s.phase.Replaying? && s.log == [] && t == s.(phase := Swapped(s.phase.rebuilt))
  }

  ghost predicate Next(c: Config, s: State, t: State) {
    || (exists op :: MainEdits(c, s, t, op))
    || MainSearches(s, t)
    || TakesSnapshot(s, t)
    || Builds(c, s, t)
    || Pops(s, t)
    || Applies(c, s, t)
    || Swaps(s, t)
  }

  /** Rebuild asks for a subtree of at least Multi_Thread_Rebuild_Point_Num points, which is more than one. */
  ghost predicate Init(c: Config, s: State) {
    && s.current.Node? && WF(s.current) && s.phase.Requested? && s.log == []
    && Size(s.current) >= c.lim && Size(s.current) > 1
  }

  /** Any interleaving. */
  ghost predicate IsRun(c: Config, run: seq<State>) {
    && run != [] && Init(c, run[0])
    && forall i :: 0 <= i < |run| - 1 ==> Next(c, run[i], run[i + 1])
  }

  // ---------- What an operation means ----------

  function Effect(s: seq<Point>, op: LogOp): seq<Point> {
    match op
    case AddOp(p) => s + [p]
    case DeleteOp(b, _) => Filter(s, Not(In(b)))
    case PushOp(tdel, _) => if tdel then [] else s
  }

  /** First in, first out. */
  function Replay(s: seq<Point>, log: seq<LogOp>): seq<Point> {
    if log == [] then s else Effect(Replay(s, log[..|log| - 1]), log[|log| - 1])
  }

  lemma EffectPermutation(s: seq<Point>, t: seq<Point>, op: LogOp)
    requires multiset(s) == multiset(t)
    ensures multiset(Effect(s, op)) == multiset(Effect(t, op))
  {
    if op.DeleteOp? { FilterPermutation(s, t, Not(In(op.b))); }
  }

  lemma {:induction false} ReplayPermutation(s: seq<Point>, t: seq<Point>, log: seq<LogOp>)
    requires multiset(s) == multiset(t)
    ensures multiset(Replay(s, log)) == multiset(Replay(t, log))
  {
    if log != [] {
      ReplayPermutation(s, t, log[..|log| - 1]);
      EffectPermutation(Replay(s, log[..|log| - 1]), Replay(t, log[..|log| - 1]), log[|log| - 1]);
    }
  }

  lemma ReplayLast(s: seq<Point>, log: seq<LogOp>, op: LogOp)
    ensures Replay(s, log + [op]) == Effect(Replay(s, log), op)
  {
    assert (log + [op])[..|log|] == log;
  }

  lemma {:induction false} ReplayFirst(s: seq<Point>, op: LogOp, log: seq<LogOp>)
    ensures Replay(s, [op] + log) == Replay(Effect(s, op), log)
  {
    if log == [] {
      ReplayLast(s, [], op);
      assert [op] + log == [] + [op];
    } else {
      ReplayFirst(s, op, log[..|log| - 1]);
      assert ([op] + log)[..|log|] == [op] + log[..|log| - 1];
    }
  }

  /** On a real tree an operation does to the live points what it means, and leaves a tree. */
  lemma RunOperationKeeps(c: Config, t: Tree, op: LogOp, u: Tree)
    requires t.Node? && WF(t) && (op.PushOp? ==> op.tdel)
    requires u == RunOperation(c, t, op)
    ensures u.Node? && WF(u) && multiset(Live(u)) == multiset(Effect(Live(t), op))
  {
    match op
    case AddOp(p) =>
      AddKeeps(c, t, p, false, t.d.axis, u);
    case DeleteOp(b, ds) =>
      DeleteKeeps(c, t, b, false, ds, DeleteRange(c, t, b, false, ds));
    case PushOp(tdel, tdds) =>
      ReceiveKeeps(t, t.d.(tdel := true, tdds := tdds));
  }

  /** Only deletions are pushed into a subtree of more than one point. */
  lemma PushIntoLargeSonDeletes(father: Tree, current: Tree, op: LogOp)
    requires PushedBy(father, current, op) && Size(current) > 1
    ensures op.tdel
  {
  }

  /** Without rebuilding, Add_by_point makes a subtree one point larger. */
  lemma {:induction false} AddGrows(c: Config, t: Tree, p: Point, fatherAxis: Axis, v: Tree)
    requires WF(t) && v == AddPoint(c, t, p, false, fatherAxis)
    ensures Size(v) == Size(t) + 1
    decreases Count(t)
  {
    if t.Node? {
      var u := PushDown(t);
      PushedSonsSound(t);
      var son := if GoesLeft(p, u.d) then u.left else u.right;
      AddGrows(c, son, p, u.d.axis, AddPoint(c, son, p, false, u.d.axis));
    }
  }

  /** Without rebuilding, Delete_by_range leaves the size alone. */
  lemma {:induction false} DeleteKeepsSize(c: Config, t: Tree, b: Box, ds: bool, v: Tree)
    requires WF(t) && v == DeleteRange(c, t, b, false, ds).tree
    ensures Size(v) == Size(t)
    decreases Count(t)
  {
    if !Dead(t) {
      var u := PushDown(t);
      PushedSonsSound(t);
      if !Misses(b, u.d.range) && !Covers(b, u.d.range) {
        DeleteKeepsSize(c, u.left, b, ds, DeleteRange(c, u.left, b, false, ds).tree);
        DeleteKeepsSize(c, u.right, b, ds, DeleteRange(c, u.right, b, false, ds).tree);
      }
    }
  }

  lemma OperationKeepsSize(c: Config, t: Tree, op: LogOp, u: Tree)
    requires t.Node? && WF(t) && u == RunOperation(c, t, op)
    ensures Size(u) >= Size(t)
  {
    match op
    case AddOp(p) => AddGrows(c, t, p, t.d.axis, u);
    case DeleteOp(b, ds) => DeleteKeepsSize(c, t, b, ds, u);
    case PushOp(_, _) =>
  }

  // ---------- The invariant ----------

  /** `rebuilt` with the still unplayed operations stands for what the old subtree stands for. */
  ghost function Debt(s: seq<Point>, pending: seq<LogOp>, current: Tree): Verdict {
    if multiset(Replay(s, pending)) == multiset(Live(current)) then Sound else Broken
  }

  ghost predicate Owed(s: seq<Point>, pending: seq<LogOp>, current: Tree) {
    Debt(s, pending, current).Sound?
  }

  ghost predicate PushesDelete(log: seq<LogOp>) {
    forall op :: op in log && op.PushOp? ==> op.tdel
  }

  ghost function Progress(phase: Phase, log: seq<LogOp>, current: Tree): Verdict {
    if (match phase
        case Requested => log == []
        case Snapped(cloud) => Owed(cloud, log, current)
        case Replaying(rebuilt) => rebuilt.Node? && WF(rebuilt) && Owed(Live(rebuilt), log, current)
        case Applying(rebuilt, op) =>
          rebuilt.Node? && WF(rebuilt) && (op.PushOp? ==> op.tdel) && Owed(Live(rebuilt), [op] + log, current)
        case Swapped(rebuilt) => rebuilt.Node? && WF(rebuilt) && multiset(Live(rebuilt)) == multiset(Live(current))
        case Crashed => true)
    then Sound else Broken
  }

  ghost function Judge(s: State): Verdict {
    if s.current.Node? && WF(s.current) && Size(s.current) > 1
      && PushesDelete(s.log) && Progress(s.phase, s.log, s.current).Sound?
    then Sound else Broken
  }

  ghost predicate Inv(s: State) {
    Judge(s).Sound?
  }

  lemma EditOwed(s: seq<Point>, pending: seq<LogOp>, current: Tree, op: LogOp, edited: Tree)
    requires Owed(s, pending, current)
    requires multiset(Live(edited)) == multiset(Effect(Live(current), op))
    ensures Owed(s, pending + [op], edited)
  {
    ReplayLast(s, pending, op);
    EffectPermutation(Replay(s, pending), Live(current), op);
  }

  lemma LoggedPushes(log: seq<LogOp>, op: LogOp)
    requires PushesDelete(log) && (op.PushOp? ==> op.tdel)
    ensures PushesDelete(log + [op])
  {
  }

  lemma FirstStaysFirst(first: LogOp, log: seq<LogOp>, op: LogOp)
    ensures [first] + log + [op] == [first] + (log + [op])
  {
  }

  /** Logging while an entry is being applied. */
  lemma EditOwedApplying(s: seq<Point>, first: LogOp, log: seq<LogOp>, current: Tree, op: LogOp, edited: Tree)
    requires Owed(s, [first] + log, current)
    requires multiset(Live(edited)) == multiset(Effect(Live(current), op))
    ensures Owed(s, [first] + (log + [op]), edited)
  {
    EditOwed(s, [first] + log, current, op, edited);
    FirstStaysFirst(first, log, op);
  }

  /** The old subtree has been edited, and the operation is logged if logging is on. */
  lemma EditedKeepsInv(s: State, t: State, op: LogOp)
    requires Inv(s) && !s.phase.Swapped? && !s.phase.Crashed? && (op.PushOp? ==> op.tdel)
    requires t == State(t.current, s.phase, if Logging(s.phase) then s.log + [op] else s.log)
    requires t.current.Node? && WF(t.current) && Size(t.current) >= Size(s.current)
    requires multiset(Live(t.current)) == multiset(Effect(Live(s.current), op))
    ensures Inv(t)
  {
    LoggedPushes(s.log, op);
    if s.phase.Snapped? {
      EditOwed(s.phase.cloud, s.log, s.current, op, t.current);
    } else if s.phase.Replaying? {
      EditOwed(Live(s.phase.rebuilt), s.log, s.current, op, t.current);
    } else if s.phase.Applying? {
      EditOwedApplying(Live(s.phase.rebuilt), s.phase.op, s.log, s.current, op, t.current);
    }
  }

  lemma EditKeepsInv(c: Config, s: State, t: State, op: LogOp)
    requires Inv(s) && MainEdits(c, s, t, op)
    ensures Inv(t)
  {
    if op.PushOp? {
      var father :| PushedBy(father, s.current, op);
      PushIntoLargeSonDeletes(father, s.current, op);
    }
    RunOperationKeeps(c, s.current, op, t.current);
    OperationKeepsSize(c, s.current, op, t.current);
    EditedKeepsInv(s, t, op);
  }

  lemma SnapshotKeepsInv(s: State, t: State)
    requires Inv(s) && TakesSnapshot(s, t)
    ensures Inv(t)
  {
    PushAllKeeps(s.current);
  }

  lemma BuiltKeepsInv(s: State, t: State, rebuilt: Tree)
    requires Inv(s) && s.phase.Snapped? && t == s.(phase := Replaying(rebuilt))
    requires rebuilt.Node? && WF(rebuilt) && multiset(Live(rebuilt)) == multiset(s.phase.cloud)
    ensures Inv(t)
  {
    ReplayPermutation(s.phase.cloud, Live(rebuilt), s.log);
  }

  lemma BuildKeepsInv(c: Config, s: State, t: State)
    requires Inv(s) && Builds(c, s, t)
    ensures Inv(t)
  {
    var cloud := s.phase.cloud;
    if cloud != [] {
      BuildIsWellFormed(c.nth, cloud);
      BuildStoresInput(c.nth, cloud);
      BuiltKeepsInv(s, t, t.phase.rebuilt);
    }
  }

  lemma FirstAndRest(s: seq<Point>, log: seq<LogOp>, current: Tree)
    requires log != [] && Owed(s, log, current) && PushesDelete(log)
    ensures Owed(s, [log[0]] + log[1..], current) && PushesDelete(log[1..])
    ensures log[0].PushOp? ==> log[0].tdel
  {
    assert [log[0]] + log[1..] == log;
  }

  lemma PopKeepsInv(s: State, t: State)
    requires Inv(s) && Pops(s, t)
    ensures Inv(t)
  {
    FirstAndRest(Live(s.phase.rebuilt), s.log, s.current);
  }

  lemma AppliedOwed(s: seq<Point>, op: LogOp, log: seq<LogOp>, applied: seq<Point>, current: Tree)
    requires Owed(s, [op] + log, current) && multiset(applied) == multiset(Effect(s, op))
    ensures Owed(applied, log, current)
  {
    ReplayFirst(s, op, log);
    ReplayPermutation(Effect(s, op), applied, log);
  }

  lemma AppliedKeepsInv(s: State, t: State, rebuilt: Tree)
    requires Inv(s) && s.phase.Applying? && t == s.(phase := Replaying(rebuilt))
    requires rebuilt.Node? && WF(rebuilt)
    requires multiset(Live(rebuilt)) == multiset(Effect(Live(s.phase.rebuilt), s.phase.op))
    ensures Inv(t)
  {
    AppliedOwed(Live(s.phase.rebuilt), s.phase.op, s.log, Live(rebuilt), s.current);
    assert Progress(Replaying(rebuilt), s.log, s.current).Sound?;
  }

  lemma ApplyKeepsInv(c: Config, s: State, t: State)
    requires Inv(s) && Applies(c, s, t)
    ensures Inv(t)
  {
    RunOperationKeeps(c, s.phase.rebuilt, s.phase.op, t.phase.rebuilt);
    AppliedKeepsInv(s, t, t.phase.rebuilt);
  }

  lemma SwapKeepsInv(s: State, t: State)
    requires Inv(s) && Swaps(s, t)
    ensures Inv(t)
  {
  }

  lemma StepKeepsInv(c: Config, s: State, t: State)
    requires Inv(s) && Next(c, s, t)
    ensures Inv(t)
  {
    if op :| MainEdits(c, s, t, op) {
      EditKeepsInv(c, s, t, op);
    } else if MainSearches(s, t) {
      SameMeaning(s.current, t.current);
    } else if TakesSnapshot(s, t) {
      SnapshotKeepsInv(s, t);
    } else if Builds(c, s, t) {
      BuildKeepsInv(c, s, t);
    } else if Pops(s, t) {
      PopKeepsInv(s, t);
    } else if Applies(c, s, t) {
      ApplyKeepsInv(c, s, t);
    } else {
      SwapKeepsInv(s, t);
    }
  }

  lemma {:induction false} RunKeepsInv(c: Config, run: seq<State>, i: nat)
    requires IsRun(c, run) && i < |run|
    ensures Inv(run[i])
  {
    if i > 0 {
      RunKeepsInv(c, run, i - 1);
      assert Next(c, run[i - 1], run[i - 1 + 1]);
      StepKeepsInv(c, run[i - 1], run[i]);
    }
  }

  /** In every interleaving, the subtree that is swapped in stands for what the old one stands for. */
  lemma SwapIsExact(c: Config, run: seq<State>, i: nat)
    requires IsRun(c, run) && i < |run| && run[i].phase.Swapped?
    ensures WF(run[i].phase.rebuilt)
    ensures multiset(Live(run[i].phase.rebuilt)) == multiset(Live(run[i].current))
  {
    RunKeepsInv(c, run, i);
  }

  // ---------- The one way it goes wrong ----------

  /** Some snapshot before `run[i]` found nothing live. */
  ghost predicate FoundDead(run: seq<State>, i: nat)
    requires i < |run|
  {
    exists j :: 0 <= j < i && TakesSnapshot(run[j], run[j + 1]) && Dead(run[j].current)
  }

  /** What the phase tells about the snapshot. */
  ghost predicate Story(phase: Phase, found: bool) {
    match phase
    case Requested => !found
    case Snapped(cloud) => found <==> cloud == []
    case Crashed => found
    case _ => !found
  }

  lemma StoryStep(c: Config, s: State, t: State, found: bool)
    requires Inv(s) && Next(c, s, t) && Story(s.phase, found)
    ensures Story(t.phase, found || (TakesSnapshot(s, t) && Dead(s.current)))
  {
    PhaseMoves(c, s, t);
    if TakesSnapshot(s, t) { DeadIffEmpty(s.current); }
  }

  predicate PastBuild(phase: Phase) {
    phase.Replaying? || phase.Applying? || phase.Swapped?
  }

  /** How a step other than the snapshot moves the phase. */
  lemma PhaseMoves(c: Config, s: State, t: State)
    requires Next(c, s, t)
    ensures TakesSnapshot(s, t) ==> s.phase.Requested? && t.phase == Snapped(Live(s.current))
    ensures !TakesSnapshot(s, t) ==>
      || t.phase == s.phase
      || (s.phase.Snapped? && if s.phase.cloud == [] then t.phase.Crashed? else t.phase.Replaying?)
      || (PastBuild(s.phase) && PastBuild(t.phase))
  {
    if op :| MainEdits(c, s, t, op) {
      assert t.phase == s.phase;
    }
  }

  lemma {:induction false} StoryHolds(c: Config, run: seq<State>, i: nat)
    requires IsRun(c, run) && i < |run|
    ensures Story(run[i].phase, FoundDead(run, i))
  {
    if i > 0 {
      StoryHolds(c, run, i - 1);
      RunKeepsInv(c, run, i - 1);
      assert Next(c, run[i - 1], run[i - 1 + 1]);
      StoryStep(c, run[i - 1], run[i], FoundDead(run, i - 1));
      FoundDeadStep(run, i - 1);
    }
  }

  lemma FoundDeadStep(run: seq<State>, i: nat)
    requires i + 1 < |run|
    ensures FoundDead(run, i + 1) <==> FoundDead(run, i) || (TakesSnapshot(run[i], run[i + 1]) && Dead(run[i].current))
  {
  }

  /**
   In every run, once the rebuild thread is past BuildTree it has crashed if and only if its snapshot
   found nothing live.
   */
  lemma CrashesExactlyOnEmptySnapshot(c: Config, run: seq<State>, i: nat)
    requires IsRun(c, run) && i < |run|
    ensures run[i].phase.Crashed? ==> FoundDead(run, i)
    ensures !run[i].phase.Requested? && !run[i].phase.Snapped? ==> (run[i].phase.Crashed? <==> FoundDead(run, i))
  {
    StoryHolds(c, run, i);
  }

  /** A subtree large enough to be handed over, with the same point over and over. */
  lemma LargeSubtree(c: Config, p: Point) returns (large: Tree)
    ensures large.Node? && WF(large) && Size(large) >= c.lim && Size(large) > 1
    ensures Live(large) != [] && forall q :: q in Live(large) ==> q == p
  {
    var cloud := seq(c.lim + 2, _ => p);
    large := Build(c.nth, cloud);
    BuildIsWellFormed(c.nth, cloud);
    BuildStoresInput(c.nth, cloud);
    SameMembers(Live(large), cloud);
  }

  /** And a box delete that empties it. */
  lemma EmptiedSubtree(c: Config, p: Point) returns (large: Tree, op: LogOp)
    ensures large.Node? && WF(large) && Size(large) >= c.lim && Size(large) > 1 && op.DeleteOp?
    ensures var dead := RunOperation(c, large, op); dead.Node? && Live(dead) == []
  {
    large := LargeSubtree(c, p);
    var b := Box(p.pos, Vec(p.pos.x + 1, p.pos.y + 1, p.pos.z + 1));
    op := DeleteOp(b, false);
    FilterNone(Live(large), Not(In(b)));
    RunOperationKeeps(c, large, op, RunOperation(c, large, op));
    assert |multiset(Live(RunOperation(c, large, op)))| == 0;
  }

  /** And that can happen: a requested subtree is covered by a deletion box before the snapshot. */
  lemma EmptySnapshotHappens(c: Config, p: Point) returns (run: seq<State>)
    ensures IsRun(c, run) && run[|run| - 1].phase.Crashed?
  {
    var large, op := EmptiedSubtree(c, p);
    var dead := RunOperation(c, large, op);
    var s0 := State(large, Requested, []);
    var s1 := State(dead, Requested, []);
    var s2 := State(PushAll(dead), Snapped([]), []);
    var s3 := s2.(phase := Crashed);
    assert MainEdits(c, s0, s1, op);
    assert TakesSnapshot(s1, s2);
    assert Builds(c, s2, s3);
    run := [s0, s1, s2, s3];
    assert Next(c, run[0], run[1]) && Next(c, run[1], run[2]) && Next(c, run[2], run[3]);
  }
}
