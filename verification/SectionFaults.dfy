/** Which sections of a test still run when exceptions escape (lib/catch.hpp): a leaf section that is never
    entered lies at or below a section whose own code threw. */
module SectionFaults {
  import opened Wrappers
  import opened SectionTracker

  // ----- Whose code throws -----

  /** The section whose own code throws while the code of s runs from its i-th SECTION on. */
  function Thrower(t: Tracker, s: Section, i: nat, done: bool, fuse: Fuse, at: Path): Option<Path>
    requires i <= |s.body| && i <= |t.children|
    decreases s, |s.body| - i
  {
    if fuse == Some(0) then Some(at)
    else if i == |s.body| then None
    else
      var r := Registered(t, i, s.body[i].name);
      if done || r.children[i].IsComplete() then Thrower(r, s, i + 1, done, Burn(fuse), at)
      else
        var o := RunSection(r.children[i], s.body[i], Burn(fuse), at + [i]);
        if o.thrown then ThrowerIn(r.children[i], s.body[i], Burn(fuse), at + [i])
        else Thrower(AfterSection(r, i, o.tracker), s, i + 1, true, o.fuse, at)
  }

  function ThrowerIn(t: Tracker, s: Section, fuse: Fuse, at: Path): Option<Path>
    decreases s, |s.body| + 1
  {
    Thrower(t.(state := Executing), s, 0, false, fuse, at)
  }

  /** Someone throws exactly when an exception escapes, and it is s itself exactly when no section below it has
      failed already. */
  lemma {:induction false} ThrowerMeans(t: Tracker, s: Section, i: nat, done: bool, fuse: Fuse, at: Path)
    requires i <= |s.body| && i <= |t.children|
    ensures var o, c := RunBody(t, s, i, done, fuse, at), Thrower(t, s, i, done, fuse, at);
            && (c.Some? <==> o.thrown)
            && (o.thrown && !o.failed ==> c == Some(at))
            && (o.failed ==> o.thrown && at < c.value)
    decreases s, |s.body| - i
  {
    if fuse != Some(0) && i < |s.body| {
      var r := Registered(t, i, s.body[i].name);
      if done || r.children[i].IsComplete() {
        ThrowerMeans(r, s, i + 1, done, Burn(fuse), at);
      } else {
        var o := RunSection(r.children[i], s.body[i], Burn(fuse), at + [i]);
        ThrowerInMeans(r.children[i], s.body[i], Burn(fuse), at + [i]);
        if o.thrown {
          var c := ThrowerIn(r.children[i], s.body[i], Burn(fuse), at + [i]);
          BelowChild(at, i, c.value);
        } else {
          ThrowerMeans(AfterSection(r, i, o.tracker), s, i + 1, true, o.fuse, at);
        }
      }
    }
  }

  lemma {:induction false} ThrowerInMeans(t: Tracker, s: Section, fuse: Fuse, at: Path)
    ensures var o, c := RunSection(t, s, fuse, at), ThrowerIn(t, s, fuse, at);
            && (c.Some? <==> o.thrown) && (c.Some? ==> at <= c.value)
            && (c == Some(at) ==> o.tracker.state == Failed)
    decreases s, |s.body| + 1
  {
    ThrowerMeans(t.(state := Executing), s, 0, false, fuse, at);
  }

  lemma BelowChild(at: Path, i: nat, p: Path)
    requires at + [i] <= p
    ensures at < p
  {
    assert p[..|at|] == (at + [i])[..|at|];
  }

  predicate Blames(thrower: Option<Path>, leaf: Path) {
    thrower.Some? && thrower.value <= leaf
  }

  /** A leaf that was to come is still to come, or was entered, or is blamed on the thrower. */
  ghost predicate Accounted(before: seq<Path>, after: seq<Path>, entered: seq<Path>, thrower: Option<Path>) {
    forall p :: p in before ==> p in after || p in entered || Blames(thrower, p)
  }

  lemma AccountedMore(before: seq<Path>, after: seq<Path>, entered: seq<Path>, thrower: Option<Path>,
                      behind: seq<Path>, entered': seq<Path>, thrower': Option<Path>)
    requires Accounted(before, after, entered, thrower)
    requires (thrower.Some? ==> thrower' == thrower) && forall p :: p in entered ==> p in entered'
    ensures Accounted(before + behind, after + behind, entered', thrower')
  {
  }

  // ----- A tracker that an exception went through -----

  /** Closing such a tracker changes nothing, and it is opened again in the next cycle. */
  predicate StaysOpen(t: Tracker) {
    || t.state == NeedsAnotherRun
    || (t.state == ExecutingChildren && t.children != [] && !t.children[|t.children| - 1].IsComplete())
  }

  lemma ClosingStaysOpen(t: Tracker)
    requires StaysOpen(t)
    ensures Closed(t) == t && !t.IsComplete()
  {
  }

  lemma FailedStaysOpen(r: Tracker, s: Section, i: nat, child: Tracker)
    requires Midway(r, s, i, false) && i < |r.children| && !r.children[i].IsComplete()
    requires child.state == Failed || !child.IsComplete()
    ensures StaysOpen(AfterSection(r, i, child))
  {
    var u := AfterSection(r, i, child);
    assert forall j :: i < j < |r.children| ==> u.children[j] == r.children[j];
    hide Consistent;
  }

  lemma {:induction false} PendingIsBelow(t: Tracker, s: Section, at: Path, p: Path)
    requires p in Pending(t, s, at)
    ensures at <= p
    decreases s, |s.body| + 1
  {
    if s.body != [] {
      PendingFromIsBelow(t.children, s, 0, at, p);
    }
  }

  lemma {:induction false} PendingFromIsBelow(ts: seq<Tracker>, s: Section, i: nat, at: Path, p: Path)
    requires i <= |s.body| && p in PendingFrom(ts, s, i, at)
    ensures at < p
    decreases s, |s.body| - i
  {
    if p in PendingFrom(ts, s, i + 1, at) {
      PendingFromIsBelow(ts, s, i + 1, at, p);
    } else {
      if i < |ts| {
        PendingIsBelow(ts[i], s.body[i], at + [i], p);
      } else {
        LeavesAreLeaves(s.body[i], at + [i], []);
      }
      BelowChild(at, i, p);
    }
  }

  // ----- One cycle -----

  lemma {:induction false} BodyAccounts(t: Tracker, s: Section, i: nat, fuse: Fuse, at: Path)
    requires Midway(t, s, i, false)
    ensures var o := RunBody(t, s, i, false, fuse, at);
            && Accounted(PendingFrom(t.children, s, 0, at), PendingFrom(o.tracker.children, s, 0, at), o.entered,
                         Thrower(t, s, i, false, fuse, at))
            && (o.failed ==> StaysOpen(o.tracker))
            && (!o.thrown && !o.done ==> forall j :: 0 <= j < |o.tracker.children| ==>
                o.tracker.children[j].IsComplete())
    decreases s, |s.body| - i
  {
    if fuse != Some(0) && i < |s.body| {
      RegisteredMidway(t, s, i, false);
      var r := Registered(t, i, s.body[i].name);
      SkipsSection(t, s, i, false, fuse, at);
      hide PendingFrom, Pending, RunBody, Accounted, StaysOpen;
      PendingDepends(t.children, r.children, s, 0, at);
      if r.children[i].IsComplete() {
        BodyAccounts(r, s, i + 1, Burn(fuse), at);
      } else {
        StepAccounts(r, s, i, fuse, at);
        assert Thrower(t, s, i, false, fuse, at) == Thrower(r, s, i, false, fuse, at);
      }
    }
  }

  lemma {:induction false} StepAccounts(r: Tracker, s: Section, i: nat, fuse: Fuse, at: Path)
    requires Midway(r, s, i, false) && i < |r.children| && !r.children[i].IsComplete() && fuse != Some(0)
    ensures var o := RunBody(r, s, i, false, fuse, at);
            && Accounted(PendingFrom(r.children, s, 0, at), PendingFrom(o.tracker.children, s, 0, at), o.entered,
                         Thrower(r, s, i, false, fuse, at))
            && (o.failed ==> StaysOpen(o.tracker)) && o.done
    decreases s, |s.body| - i, 0
  {
    OpensSection(r, s, i, fuse, at);
    ThrowerOfStep(r, s, i, fuse, at);
    OpenedAccounts(r, s, i, fuse, at);
    var o := RunSection(r.children[i], s.body[i], Burn(fuse), at + [i]);
    var u, inner := AfterSection(r, i, o.tracker), ThrowerIn(r.children[i], s.body[i], Burn(fuse), at + [i]);
    hide *;
    if !o.thrown {
      RestConsumesNothing(u, s, i + 1, o.fuse, at);
      BodyIsConsistent(u, s, i + 1, true, o.fuse, at);
      RestFailsNothing(u, s, i + 1, o.fuse, at);
    }
    AccountedMore(PendingFrom(r.children, s, 0, at), PendingFrom(u.children, s, 0, at), o.entered, inner, [],
                  RunBody(r, s, i, false, fuse, at).entered, Thrower(r, s, i, false, fuse, at));
    assert PendingFrom(r.children, s, 0, at) + [] == PendingFrom(r.children, s, 0, at);
    assert PendingFrom(u.children, s, 0, at) + [] == PendingFrom(u.children, s, 0, at);
  }

  /** The section that is opened, among its siblings. */
  lemma {:induction false} OpenedAccounts(r: Tracker, s: Section, i: nat, fuse: Fuse, at: Path)
    requires Midway(r, s, i, false) && i < |r.children| && !r.children[i].IsComplete() && fuse != Some(0)
    ensures var o := RunSection(r.children[i], s.body[i], Burn(fuse), at + [i]);
            var u := AfterSection(r, i, o.tracker);
            && Accounted(PendingFrom(r.children, s, 0, at), PendingFrom(u.children, s, 0, at), o.entered,
                         ThrowerIn(r.children[i], s.body[i], Burn(fuse), at + [i]))
            && (if o.thrown then StaysOpen(u) else Midway(u, s, i + 1, true))
    decreases s, |s.body| - i, 0, 0
  {
    var c, o := r.children[i], RunSection(r.children[i], s.body[i], Burn(fuse), at + [i]);
    var inner := ThrowerIn(c, s.body[i], Burn(fuse), at + [i]);
    hide RunSection, Accounted, Pending, PendingFrom, ThrowerIn, StaysOpen;
    SectionIsConsistent(c, s.body[i], Burn(fuse), at + [i]);
    SectionAccounts(c, s.body[i], Burn(fuse), at + [i]);
    AfterSectionMidway(r, s, i, o.tracker);
    PendingAfterSection(r, s, i, o.tracker, at);
    FailedIfThrown(r, s, i, o);
    AccountedMore(Pending(c, s.body[i], at + [i]), Pending(o.tracker, s.body[i], at + [i]), o.entered, inner,
                  PendingFrom(r.children, s, i + 1, at), o.entered, inner);
    hide AfterSection, Midway;
  }

  lemma FailedIfThrown(r: Tracker, s: Section, i: nat, o: Outcome)
    requires Midway(r, s, i, false) && i < |r.children| && !r.children[i].IsComplete()
    requires o.thrown ==> o.tracker.state == Failed || !o.tracker.IsComplete()
    ensures o.thrown ==> StaysOpen(AfterSection(r, i, o.tracker))
  {
    if o.thrown {
      FailedStaysOpen(r, s, i, o.tracker);
    }
    hide StaysOpen, AfterSection, Midway;
  }

  lemma RestFailsNothing(u: Tracker, s: Section, i: nat, fuse: Fuse, at: Path)
    requires Midway(u, s, i, true)
    ensures !RunBody(u, s, i, true, fuse, at).failed
  {
    DoneEntersNothing(u, s, i, fuse, at);
  }

  lemma ThrowerOfStep(r: Tracker, s: Section, i: nat, fuse: Fuse, at: Path)
    requires i < |s.body| && i < |r.children| && !r.children[i].IsComplete() && fuse != Some(0)
    ensures var o := RunSection(r.children[i], s.body[i], Burn(fuse), at + [i]);
            var inner := ThrowerIn(r.children[i], s.body[i], Burn(fuse), at + [i]);
            && (inner.Some? <==> o.thrown)
            && (o.thrown ==> Thrower(r, s, i, false, fuse, at) == inner)
  {
    ThrowerInMeans(r.children[i], s.body[i], Burn(fuse), at + [i]);
    hide RunSection, ThrowerIn;
  }

  /** Closing after a body that nothing escaped from completes a section only when no leaf is left below it. */
  lemma ClosingLosesNothing(b: Tracker, s: Section, at: Path)
    requires ConsistentChildren(b, s) && |b.children| == |s.body| > 0
    requires b.state == ExecutingChildren ||
             (b.state == Executing && forall j :: 0 <= j < |b.children| ==> b.children[j].IsComplete())
    ensures if Closed(b).IsComplete() then PendingFrom(b.children, s, 0, at) == [] else Closed(b) == b
  {
    if Closed(b).IsComplete() {
      hide Consistent;
      AllComplete(b.children, s, 0, at);
    }
  }

  /** From the body to the section: what is still to come below it is still to come. */
  lemma EndAccounts(t: Tracker, s: Section, b: Outcome, u: Tracker, at: Path, entered: seq<Path>, thrower: Option<Path>)
    requires !t.IsComplete() && (s.body == [] ==> at in entered)
    requires Accounted(PendingFrom(t.children, s, 0, at), PendingFrom(b.tracker.children, s, 0, at), b.entered, thrower)
    requires forall p :: p in b.entered ==> p in entered
    requires || thrower == Some(at)
             || s.body == []
             || Pending(u, s, at) == PendingFrom(b.tracker.children, s, 0, at)
    ensures Accounted(Pending(t, s, at), Pending(u, s, at), entered, thrower)
  {
    forall p | p in Pending(t, s, at) ensures p in Pending(u, s, at) || p in entered || Blames(thrower, p) {
      PendingIsBelow(t, s, at, p);
      if s.body != [] {
        assert p in PendingFrom(t.children, s, 0, at);
      }
    }
  }

  lemma ClosedPending(b: Outcome, s: Section, at: Path)
    requires ConsistentChildren(b.tracker, s) && s.body != []
    requires b.failed ==> StaysOpen(b.tracker)
    requires b.thrown ==> b.failed
    requires !b.thrown ==>
               && |b.tracker.children| == |s.body|
               && (b.tracker.state == ExecutingChildren || b.tracker.state == Executing)
               && (b.tracker.state == Executing ==> forall j :: 0 <= j < |s.body| ==>
                   b.tracker.children[j].IsComplete())
    ensures Pending(Closed(b.tracker), s, at) == PendingFrom(b.tracker.children, s, 0, at)
    ensures b.thrown ==> !Closed(b.tracker).IsComplete()
  {
    if b.thrown {
      ClosingStaysOpen(b.tracker);
    } else {
      ClosingLosesNothing(b.tracker, s, at);
    }
    hide Consistent, ConsistentChildren, PendingFrom;
  }

  lemma {:induction false} SectionAccounts(t: Tracker, s: Section, fuse: Fuse, at: Path)
    requires Consistent(t, s) && !t.IsComplete()
    ensures var o := RunSection(t, s, fuse, at);
            && Accounted(Pending(t, s, at), Pending(o.tracker, s, at), o.entered, ThrowerIn(t, s, fuse, at))
            && (o.thrown ==> o.tracker.state == Failed || !o.tracker.IsComplete())
    decreases s, |s.body| + 1
  {
    var t', o := t.(state := Executing), RunSection(t, s, fuse, at);
    var b := RunBody(t', s, 0, false, fuse, at);
    BodyIsConsistent(t', s, 0, false, fuse, at);
    BodyAccounts(t', s, 0, fuse, at);
    ThrowerMeans(t', s, 0, false, fuse, at);
    hide RunBody, Accounted, Pending, PendingFrom, Thrower, StaysOpen, ConsistentChildren;
    if s.body != [] && (b.thrown ==> b.failed) {
      ClosedPending(b, s, at);
    }
    EndAccounts(t, s, b, o.tracker, at, o.entered, ThrowerIn(t, s, fuse, at));
  }

  lemma CycleAccounts(t: Tracker, s: Section, fuse: Fuse)
    requires Consistent(t, s) && !t.IsComplete()
    ensures var o := RunCycle(t, s, fuse);
            Accounted(Pending(t, s, []), Pending(o.tracker, s, []), o.entered, ThrowerIn(t, s, fuse, []))
  {
    var t', o := t.(state := Executing), RunCycle(t, s, fuse);
    var b := RunBody(t', s, 0, false, fuse, []);
    BodyIsConsistent(t', s, 0, false, fuse, []);
    BodyAccounts(t', s, 0, fuse, []);
    ThrowerMeans(t', s, 0, false, fuse, []);
    hide RunBody, Accounted, Pending, PendingFrom, Thrower, StaysOpen, ConsistentChildren;
    if s.body != [] && (b.thrown ==> b.failed) {
      ClosedPending(b, s, []);
    }
    EndAccounts(t, s, b, o.tracker, [], o.entered, ThrowerIn(t, s, fuse, []));
  }

  // ----- Whole runs -----

  /** Whose code throws m cycles later. */
  function LaterThrower(t: Tracker, s: Section, faults: nat -> Fuse, n: nat, m: nat): Option<Path> {
    ThrowerIn(CyclesFrom(t, s, faults, n, m), s, faults(n + m), [])
  }

  /** Whose code throws in cycle m of a run. */
  function CycleThrower(s: Section, faults: nat -> Fuse, m: nat): Option<Path> {
    ThrowerIn(AfterCycles(s, faults, m), s, faults(m), [])
  }

  ghost predicate BlamedLater(t: Tracker, s: Section, faults: nat -> Fuse, n: nat, cycles: nat, p: Path) {
    exists m: nat :: m < cycles && Blames(LaterThrower(t, s, faults, n, m), p)
  }

  lemma {:induction false} RunAccounts(t: Tracker, s: Section, faults: nat -> Fuse, n: nat, p: Path)
    requires Consistent(t, s) && !t.IsComplete() && p in Pending(t, s, [])
    ensures var r := RunFrom(t, s, faults, n); p in r.entered || BlamedLater(t, s, faults, n, r.cycles, p)
    decreases Work(t, s)
  {
    var o, r := RunCycle(t, s, faults(n)), RunFrom(t, s, faults, n);
    CycleIsConsistent(t, s, faults(n));
    CycleWorks(t, s, faults(n));
    CycleAccounts(t, s, faults(n));
    assert LaterThrower(t, s, faults, n, 0) == ThrowerIn(t, s, faults(n), []);
    PendingOfCompleted(o.tracker, s);
    hide RunCycle, Consistent, Work, Pending, ThrowerIn;
    if o.tracker.state != CompletedSuccessfully && p in Pending(o.tracker, s, []) {
      var u, k := o.tracker, n + 1;
      RunAccounts(u, s, faults, k, p);
      var rest := RunFrom(u, s, faults, k);
      if m: nat :| m < rest.cycles && Blames(LaterThrower(u, s, faults, k, m), p) {
        assert k + m == n + (m + 1);
        assert LaterThrower(t, s, faults, n, m + 1) == LaterThrower(u, s, faults, k, m);
      }
    }
  }

  lemma PendingOfCompleted(t: Tracker, s: Section)
    ensures t.IsComplete() ==> Pending(t, s, []) == []
  {
  }

  /** A leaf section that a run never enters lies at or below a section, or the test case, whose own code threw
      in some cycle. */
  lemma UnenteredIsBlamed(s: Section, faults: nat -> Fuse, p: Path)
    requires IsLeaf(s, p)
    ensures || p in WholeRun(s, faults).entered
            || exists m: nat :: m < WholeRun(s, faults).cycles && Blames(CycleThrower(s, faults, m), p)
  {
    var t := Fresh(s.name);
    assert Consistent(t, s);
    NothingStarted(s, []);
    LeavesAreLeaves(s, [], p);
    assert [] + p == p;
    hide Pending, RunFrom, Leaves, IsLeaf;
    RunAccounts(t, s, faults, 0, p);
    var c := WholeRun(s, faults).cycles;
    if BlamedLater(t, s, faults, 0, c, p) {
      var m: nat :| m < c && Blames(LaterThrower(t, s, faults, 0, m), p);
      assert LaterThrower(t, s, faults, 0, m) == CycleThrower(s, faults, m);
    }
  }

  // ----- Exceptions in leaf sections -----

  lemma {:induction false} LeafThrowerIsEntered(t: Tracker, s: Section, i: nat, done: bool, fuse: Fuse, at: Path,
                                                p: Path)
    requires i <= |s.body| && i <= |t.children| && p != []
    requires IsLeaf(s, p) && Thrower(t, s, i, done, fuse, at) == Some(at + p)
    ensures at + p in RunBody(t, s, i, done, fuse, at).entered
    decreases s, |s.body| - i
  {
    assert |at + p| > |at|;
    if fuse != Some(0) {
      var r := Registered(t, i, s.body[i].name);
      if done || r.children[i].IsComplete() {
        LeafThrowerIsEntered(r, s, i + 1, done, Burn(fuse), at, p);
      } else {
        var o := RunSection(r.children[i], s.body[i], Burn(fuse), at + [i]);
        if o.thrown {
          ThrowerInMeans(r.children[i], s.body[i], Burn(fuse), at + [i]);
          assert at + [i] <= at + p;
          assert (at + p)[|at|] == (at + [i])[|at|] == i == p[0];
          assert at + [i] + p[1..] == at + p;
          LeafInIsEntered(r.children[i], s.body[i], Burn(fuse), at + [i], p[1..]);
        } else {
          LeafThrowerIsEntered(AfterSection(r, i, o.tracker), s, i + 1, true, o.fuse, at, p);
        }
      }
    }
  }

  lemma {:induction false} LeafInIsEntered(t: Tracker, s: Section, fuse: Fuse, at: Path, p: Path)
    requires IsLeaf(s, p) && ThrowerIn(t, s, fuse, at) == Some(at + p)
    ensures at + p in RunSection(t, s, fuse, at).entered
    decreases s, |s.body| + 1
  {
    if p == [] {
      assert at + p == at;
    } else {
      LeafThrowerIsEntered(t.(state := Executing), s, 0, false, fuse, at, p);
    }
  }

  lemma LeafThrowerOfCycle(t: Tracker, s: Section, fuse: Fuse, p: Path)
    requires IsLeaf(s, p) && ThrowerIn(t, s, fuse, []) == Some(p)
    ensures p in RunCycle(t, s, fuse).entered
  {
    assert [] + p == p;
    if p != [] {
      LeafThrowerIsEntered(t.(state := Executing), s, 0, false, fuse, [], p);
    }
  }

  lemma {:induction false} LeafThrowerOfRun(t: Tracker, s: Section, faults: nat -> Fuse, n: nat, m: nat, p: Path)
    requires Consistent(t, s) && !t.IsComplete() && m < RunFrom(t, s, faults, n).cycles
    requires IsLeaf(s, p) && LaterThrower(t, s, faults, n, m) == Some(p)
    ensures p in RunFrom(t, s, faults, n).entered
    decreases m
  {
    var o := RunCycle(t, s, faults(n));
    CycleIsConsistent(t, s, faults(n));
    CycleWorks(t, s, faults(n));
    if m == 0 {
      LeafThrowerOfCycle(t, s, faults(n), p);
    } else {
      hide RunCycle, Consistent, Work, ThrowerIn, IsLeaf;
      assert n + m == n + 1 + (m - 1);
      assert LaterThrower(t, s, faults, n, m) == LaterThrower(o.tracker, s, faults, n + 1, m - 1);
      LeafThrowerOfRun(o.tracker, s, faults, n + 1, m - 1, p);
    }
  }

  lemma {:induction false} LeavesAreNotNested(s: Section, p: Path, q: Path)
    requires IsLeaf(s, p) && IsLeaf(s, q) && p <= q
    ensures p == q
    decreases |p|
  {
    if p != [] {
      assert p[0] == q[0] && p[1..] <= q[1..];
      LeavesAreNotNested(s.body[p[0]], p[1..], q[1..]);
      assert p == [p[0]] + p[1..] && q == [q[0]] + q[1..];
    }
  }

  lemma {:induction false} SubsequenceOfAll(a: seq<Path>, b: seq<Path>)
    requires Subsequence(a, b) && NoRepeats(b) && forall p :: p in b ==> p in a
    ensures a == b
    decreases |b|
  {
    if b == [] {
      assert a == [];
    } else {
      assert b[0] in a && b[0] !in b[1..] && NoRepeats(b[1..]);
      if a[0] == b[0] && Subsequence(a[1..], b[1..]) {
        forall p | p in b[1..] ensures p in a[1..] {
          assert p in b && p != a[0];
        }
        SubsequenceOfAll(a[1..], b[1..]);
        assert a == [a[0]] + a[1..] && b == [b[0]] + b[1..];
      } else {
        SubsequenceOfDistinct(a, b[1..]);
        assert false;
      }
    }
  }

  /** If exceptions escape from the code of leaf sections only, every leaf section is entered, exactly once and in
      document order. */
  lemma LeafFaultsCoverAll(s: Section, faults: nat -> Fuse)
    requires forall m: nat :: m < WholeRun(s, faults).cycles && CycleThrower(s, faults, m).Some? ==>
                                IsLeaf(s, CycleThrower(s, faults, m).value)
    ensures WholeRun(s, faults).entered == Leaves(s, [])
  {
    var entered := WholeRun(s, faults).entered;
    forall p | p in Leaves(s, []) ensures p in entered {
      LeavesAreLeaves(s, [], p);
      assert [] + p == p;
      LeafFaultEnters(s, faults, p);
    }
    AnyRunEntersInOrder(s, faults);
    LeavesDiffer(s, []);
    hide WholeRun, Leaves;
    SubsequenceOfAll(entered, Leaves(s, []));
  }

  lemma LeafFaultEnters(s: Section, faults: nat -> Fuse, p: Path)
    requires IsLeaf(s, p)
    requires forall m: nat :: m < WholeRun(s, faults).cycles && CycleThrower(s, faults, m).Some? ==>
                                IsLeaf(s, CycleThrower(s, faults, m).value)
    ensures p in WholeRun(s, faults).entered
  {
    UnenteredIsBlamed(s, faults, p);
    if p !in WholeRun(s, faults).entered {
      var m: nat :| m < WholeRun(s, faults).cycles && Blames(CycleThrower(s, faults, m), p);
      LeavesAreNotNested(s, CycleThrower(s, faults, m).value, p);
      assert Consistent(Fresh(s.name), s);
      assert LaterThrower(Fresh(s.name), s, faults, 0, m) == CycleThrower(s, faults, m);
      LeafThrowerOfRun(Fresh(s.name), s, faults, 0, m, p);
    }
  }
}
