/**
 search_mutex_counter as a reader/writer gate around the rebuild thread's two sections, over any
 number of rebuilds. Every stretch between locking and unlocking search_flag_mutex is one step.

 A k-nearest search of the held subtree passes through the gate. A box or radius search does not: it
 keeps search_flag_mutex itself while it is below a held son, and keeps nothing when the root is held.
 Edits and box searches come from one thread, which does not edit while a search runs.
 */
module SearchGate {

  /** Identifies one passage of a k-nearest search through the gate. */
  type Ticket = nat

  /** Where *Rebuild_Ptr points: nowhere, at a son of some node, or at Root_Node. */
  datatype Held = Nothing | Son | Root

  /** How far the rebuild thread is. */
  datatype Stage =
    | Idle           // not rebuilding
    | Waiting        // it has taken rebuild_ptr_mutex_lock and waits for the gate
    | Snapshotting   // first section: flatten
    | Building       // BuildTree and replay
    | Swapping       // second section: the new subtree is put in place
    | Done           // the gate is open again, Rebuild_Ptr not yet cleared

  /** The box or radius search: none, one that keeps search_flag_mutex, or one that keeps nothing. */
  datatype BoxSearch = Away | Locked | Bare

  datatype Gate = Gate(
    counter: int,            // search_mutex_counter
    inside: set<Ticket>,     // k-nearest searches between their increment and their decrement
    held: Held,
    stage: Stage,
    box: BoxSearch)

  const START := Gate(0, {}, Nothing, Idle, Away)

  /** The rebuild thread is in its snapshot or swap section. */
  predicate Rebuilding(s: Gate) { s.stage.Snapshotting? || s.stage.Swapping? }

  /** A box search runs during one of the sections. */
  predicate Overlap(s: Gate) { Rebuilding(s) && !s.box.Away? }

  // A thread that finds the counter in its way unlocks, sleeps and tries again: no step.

  ghost predicate SearchEnters(s: Gate, t: Gate, id: Ticket) {
    && !s.box.Locked? && s.counter != -1 && id !in s.inside
    && t == s.(counter := s.counter + 1, inside := s.inside + {id})
  }

  ghost predicate SearchLeaves(s: Gate, t: Gate, id: Ticket) {
    && !s.box.Locked? && id in s.inside
    && t == s.(counter := s.counter - 1, inside := s.inside - {id})
  }

  /** Rebuild, called by an edit: possible until the rebuild thread has taken the request. */
  ghost predicate Requests(s: Gate, t: Gate) {
    && s.stage.Idle? && s.inside == {} && s.box.Away?
    && (t == s.(held := Son) || t == s.(held := Root))
  }

  ghost predicate RebuilderTakes(s: Gate, t: Gate) {
    s.stage.Idle? && !s.held.Nothing? && t == s.(stage := Waiting)
  }

  ghost predicate RebuilderEnters(s: Gate, t: Gate) {
    && !s.box.Locked? && s.counter == 0
    && ((s.stage.Waiting? && t == s.(counter := -1, stage := Snapshotting))
        || (s.stage.Building? && t == s.(counter := -1, stage := Swapping)))
  }

  ghost predicate RebuilderLeaves(s: Gate, t: Gate) {
    && !s.box.Locked?
    && ((s.stage.Snapshotting? && t == s.(counter := 0, stage := Building))
        || (s.stage.Swapping? && t == s.(counter := 0, stage := Done)))
  }

  ghost predicate RebuilderReleases(s: Gate, t: Gate) {
    s.stage.Done? && t == s.(stage := Idle, held := Nothing)
  }

  /**
   A box search sets out. It keeps the mutex below a held son, which may have been released while it
   waited for the mutex; otherwise it goes ahead without asking anyone.
   */
  ghost predicate BoxSearchStarts(s: Gate, t: Gate) {
    && s.box.Away?
    && match s.held
       case Nothing => t == s.(box := Bare) || t == s.(box := Locked)
       case Son => t == s.(box := Locked)
       case Root => t == s.(box := Bare)
  }

  ghost predicate BoxSearchEnds(s: Gate, t: Gate) {
    !s.box.Away? && t == s.(box := Away)
  }

  /** Whoever is inside goes on working; none of that touches the gate. */
  ghost predicate Works(s: Gate, t: Gate) {
    (!s.stage.Idle? || s.inside != {} || !s.box.Away?) && t == s
  }

  /** A step in which no gated search enters or leaves. */
  ghost predicate OtherStep(s: Gate, t: Gate) {
    || Requests(s, t)
    || RebuilderTakes(s, t)
    || RebuilderEnters(s, t)
    || RebuilderLeaves(s, t)
    || RebuilderReleases(s, t)
    || BoxSearchStarts(s, t)
    || BoxSearchEnds(s, t)
    || Works(s, t)
  }

  ghost predicate Next(s: Gate, t: Gate) {
    || (exists id :: SearchEnters(s, t, id))
    || (exists id :: SearchLeaves(s, t, id))
    || OtherStep(s, t)
  }

  ghost predicate Steps(run: seq<Gate>) {
    forall i :: 0 <= i < |run| - 1 ==> Next(run[i], run[i + 1])
  }

  ghost predicate IsRun(run: seq<Gate>) {
    run != [] && run[0] == START && Steps(run)
  }

  ghost predicate Reachable(s: Gate) {
    exists run :: IsRun(run) && run[|run| - 1] == s
  }

  // ---------- The gate ----------

  /** The counter is -1 exactly while the rebuilder is inside, and otherwise counts the searches. */
  ghost predicate Inv(s: Gate) {
    && (s.counter == -1 <==> Rebuilding(s))
    && (Rebuilding(s) ==> s.inside == {})
    && (!Rebuilding(s) ==> s.counter == |s.inside|)
    && (s.held.Nothing? ==> s.stage.Idle?)
    && (s.held.Root? ==> !s.box.Locked?)
  }

  lemma PassageKeepsInv(s: Gate, t: Gate, id: Ticket)
    requires Inv(s) && (SearchEnters(s, t, id) || SearchLeaves(s, t, id))
    ensures Inv(t)
  {
    if SearchLeaves(s, t, id) {
      assert |s.inside - {id}| == |s.inside| - 1;
    }
  }

  lemma OtherStepKeepsInv(s: Gate, t: Gate)
    requires Inv(s) && OtherStep(s, t)
    ensures Inv(t)
  {
  }

  lemma StepKeepsInv(s: Gate, t: Gate)
    requires Inv(s) && Next(s, t)
    ensures Inv(t)
  {
    if id :| SearchEnters(s, t, id) || SearchLeaves(s, t, id) {
      PassageKeepsInv(s, t, id);
    } else {
      OtherStepKeepsInv(s, t);
    }
  }

  /** In every interleaving no gated search overlaps the snapshot or the swap. */
  lemma {:induction false} GateExcludes(run: seq<Gate>, i: nat)
    requires IsRun(run) && i < |run|
    ensures Inv(run[i])
    ensures !(Rebuilding(run[i]) && run[i].inside != {})
  {
    if i > 0 {
      GateExcludes(run, i - 1);
      assert Next(run[i - 1], run[i - 1 + 1]);
      StepKeepsInv(run[i - 1], run[i]);
    }
  }

  lemma ReachableInv(s: Gate)
    requires Reachable(s)
    ensures Inv(s)
  {
    var run :| IsRun(run) && run[|run| - 1] == s;
    GateExcludes(run, |run| - 1);
  }

  // ---------- What box and radius searches can run into ----------

  /** Below a held son: the rebuilder does not keep the mutex in its section, so the search can start there. */
  lemma BoxSearchCanOverlap() returns (run: seq<Gate>)
    ensures IsRun(run) && run[|run| - 1].box.Locked? && Overlap(run[|run| - 1])
  {
    var s1 := START.(held := Son);
    var s2 := s1.(stage := Waiting);
    var s3 := s2.(counter := -1, stage := Snapshotting);
    run := [START, s1, s2, s3, s3.(box := Locked)];
    assert Requests(START, s1) && RebuilderTakes(s1, s2) && RebuilderEnters(s2, s3);
    assert BoxSearchStarts(s3, s3.(box := Locked));
  }

  /** With the root held: the search starts with the gate open, and the rebuilder enters while it runs. */
  lemma RootSearchCanBeOverlapped() returns (run: seq<Gate>)
    ensures IsRun(run) && |run| == 5 && run[2].counter == 0 && BoxSearchStarts(run[2], run[3])
    ensures Overlap(run[4])
  {
    var s1 := START.(held := Root);
    var s2 := s1.(stage := Waiting);
    var s3 := s2.(box := Bare);
    var s4 := s3.(counter := -1, stage := Snapshotting);
    run := [START, s1, s2, s3, s4];
    assert Requests(START, s1) && RebuilderTakes(s1, s2) && BoxSearchStarts(s2, s3) && RebuilderEnters(s3, s4);
  }

  /** The course of one box search: it starts in `s`, and `run` goes on from there until at most its end. */
  ghost predicate Course(s: Gate, run: seq<Gate>) {
    && run != [] && BoxSearchStarts(s, run[0]) && Steps(run)
    && forall k :: 0 <= k < |run| ==> !run[k].box.Away?
  }

  /** A section is under way, or one may still begin that the search does not hold up. */
  predicate Exposed(s: Gate) {
    s.counter == -1 || (s.held.Root? && !s.stage.Done?)
  }

  /** What keeps a search clear of the sections. */
  ghost predicate Sheltered(s: Gate) {
    && Inv(s) && !Rebuilding(s) && !s.box.Away?
    && (s.box.Locked? || s.held.Nothing? || s.stage.Done?)
  }

  lemma ShelterLasts(s: Gate, t: Gate)
    requires Sheltered(s) && Next(s, t) && !t.box.Away?
    ensures Sheltered(t)
  {
    StepKeepsInv(s, t);
  }

  lemma {:induction false} ShelteredCourse(s: Gate, run: seq<Gate>, k: nat)
    requires Inv(s) && !Exposed(s) && Course(s, run) && k < |run|
    ensures Sheltered(run[k])
  {
    if k == 0 {
      assert Next(s, run[0]);
      StepKeepsInv(s, run[0]);
    } else {
      ShelteredCourse(s, run, k - 1);
      assert Next(run[k - 1], run[k - 1 + 1]);
      ShelterLasts(run[k - 1], run[k]);
    }
  }

  /** `run` followed by one more step. */
  lemma Longer(s: Gate, run: seq<Gate>, t: Gate)
    requires Course(s, run) && Next(run[|run| - 1], t) && !t.box.Away?
    ensures Course(s, run + [t])
  {
    var more := run + [t];
    forall i | 0 <= i < |more| - 1
      ensures Next(more[i], more[i + 1])
    {
      if i < |run| - 1 { assert Next(run[i], run[i + 1]); }
    }
  }

  /** The gated searches leave one by one. */
  lemma {:induction false} AllLeave(s: Gate, run: seq<Gate>) returns (more: seq<Gate>)
    requires Course(s, run) && Inv(run[|run| - 1]) && run[|run| - 1].box.Bare? && !Rebuilding(run[|run| - 1])
    ensures Course(s, more) && more[|more| - 1] == run[|run| - 1].(counter := 0, inside := {})
    decreases |run[|run| - 1].inside|
  {
    var u := run[|run| - 1];
    more := run;
    if id :| id in u.inside {
      var t := u.(counter := u.counter - 1, inside := u.inside - {id});
      assert SearchLeaves(u, t, id);
      StepKeepsInv(u, t);
      Longer(s, run, t);
      more := AllLeave(s, run + [t]);
    }
  }

  /** A search of a held root does not stop the rebuilder from reaching its next section. */
  lemma RebuilderArrives(s: Gate) returns (run: seq<Gate>)
    requires Inv(s) && s.box.Away? && s.held.Root? && !s.stage.Done? && !Rebuilding(s)
    ensures Course(s, run) && Overlap(run[|run| - 1])
  {
    var t := s.(box := Bare);
    run := [t];
    assert BoxSearchStarts(s, t);
    run := AllLeave(s, run);
    var u := run[|run| - 1];
    if u.stage.Idle? {
      var v := u.(stage := Waiting);
      assert RebuilderTakes(u, v);
      Longer(s, run, v);
      run, u := run + [v], v;
    }
    var w := u.(counter := -1, stage := if u.stage.Waiting? then Snapshotting else Swapping);
    assert RebuilderEnters(u, w);
    Longer(s, run, w);
    run := run + [w];
  }

  /**
   When a box or radius search can run during one of the rebuilder's sections: exactly if it starts
   while the counter is -1, or while the root is held and its swap is still to be done.
   */
  lemma BoxSearchOverlapsExactly(s: Gate)
    requires Reachable(s) && s.box.Away?
    ensures (exists run :: Course(s, run) && Overlap(run[|run| - 1])) <==> Exposed(s)
  {
    ReachableInv(s);
    if s.counter == -1 {
      var t := s.(box := if s.held.Root? then Bare else Locked);
      assert Course(s, [t]) && Overlap([t][|[t]| - 1]);
    } else if Exposed(s) {
      var run := RebuilderArrives(s);
    } else if run :| Course(s, run) && Overlap(run[|run| - 1]) {
      ShelteredCourse(s, run, |run| - 1);
    }
  }

  // ---------- Searches that keep the mutex ----------

  /** The mutex keeps the rebuilder from entering or leaving under a locked box search. */
  lemma BoxSearchPinsRebuilder(s: Gate, t: Gate)
    requires Next(s, t) && s.box.Locked?
    ensures Rebuilding(t) == Rebuilding(s) && t.counter == s.counter && t.inside == s.inside
  {
  }

  /** The step at which the box search that keeps the mutex in `run[j]` took it. */
  ghost predicate LockedAt(run: seq<Gate>, i: nat, j: nat) {
    && i < j < |run| && BoxSearchStarts(run[i], run[i + 1])
    && forall k :: i < k <= j ==> run[k].box.Locked?
  }

  lemma {:induction false} HeldSince(run: seq<Gate>, j: nat) returns (i: nat)
    requires IsRun(run) && j < |run| && run[j].box.Locked?
    ensures LockedAt(run, i, j)
    ensures run[j].counter == run[i].counter && Rebuilding(run[j]) == Rebuilding(run[i])
  {
    assert j > 0 && Next(run[j - 1], run[j - 1 + 1]);
    if run[j - 1].box.Locked? {
      i := HeldSince(run, j - 1);
      BoxSearchPinsRebuilder(run[j - 1], run[j]);
    } else {
      i := j - 1;
      assert BoxSearchStarts(run[i], run[i + 1]);
    }
  }

  /**
   In every run and at every moment of a box search below a held son: it overlaps the rebuilder's
   section if and only if the counter was -1 when it took the mutex.
   */
  lemma LockedSearchOverlapsExactly(run: seq<Gate>, j: nat) returns (i: nat)
    requires IsRun(run) && j < |run| && run[j].box.Locked?
    ensures LockedAt(run, i, j) && (Overlap(run[j]) <==> run[i].counter == -1)
  {
    i := HeldSince(run, j);
    GateExcludes(run, i);
  }

  // ---------- Progress ----------

  /** The gate is not a deadlock: whoever is inside can leave, and an empty gate admits the rebuilder. */
  lemma GateOpens(s: Gate)
    requires Inv(s) && !s.box.Locked?
    ensures Rebuilding(s) ==> exists t :: RebuilderLeaves(s, t)
    ensures (s.stage.Waiting? || s.stage.Building?) && s.inside == {} ==> exists t :: RebuilderEnters(s, t)
    ensures forall id :: id in s.inside ==> exists t :: SearchLeaves(s, t, id)
  {
    if Rebuilding(s) {
      assert RebuilderLeaves(s, s.(counter := 0, stage := if s.stage.Snapshotting? then Building else Done));
    }
    if (s.stage.Waiting? || s.stage.Building?) && s.inside == {} {
      assert RebuilderEnters(s, s.(counter := -1, stage := if s.stage.Waiting? then Snapshotting else Swapping));
    }
    forall id | id in s.inside
      ensures exists t :: SearchLeaves(s, t, id)
    {
      assert SearchLeaves(s, s.(counter := s.counter - 1, inside := s.inside - {id}), id);
    }
  }
}
