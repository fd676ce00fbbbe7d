/** The section tracker of lib/catch.hpp: a test case is run again and again, each cycle following one
    more path of its tree of sections, until every section has been completed.

    This file describes what a cycle does to the tree of trackers and proves what whole runs do,
    with exceptions escaping anywhere; SectionRunner.dfy shows that the source's objects do that. */
module SectionTracker {
  import opened Wrappers

  datatype NameAndLocation = NameAndLocation(name: string, file: string, line: nat)

  /** The program under test: a section and the sections its code reaches, in order. */
  datatype Section = Section(name: NameAndLocation, body: seq<Section>)

  datatype CycleState = NotStarted | Executing | ExecutingChildren | NeedsAnotherRun | CompletedSuccessfully | Failed

  datatype Tracker = Tracker(name: NameAndLocation, state: CycleState, children: seq<Tracker>)
  {
    predicate IsComplete() {
      state == CompletedSuccessfully || state == Failed
    }

    predicate IsOpen() {
      state != NotStarted && !IsComplete()
    }
  }

  /** A tracker is known by the way to it: child indices from the root. Children are only ever
      appended, so that the way names the same tracker for the whole run. */
  type Path = seq<nat>

  function Fresh(name: NameAndLocation): Tracker {
    Tracker(name, NotStarted, [])
  }

  // ----- One cycle -----

  /** Where an exception escapes: after how many program points, or nowhere. There is a point before
      every SECTION and one at the end of every body. */
  type Fuse = Option<nat>

  function Burn(fuse: Fuse): Fuse
    requires fuse != Some(0)
  {
    if fuse.None? then None else Some(fuse.value - 1)
  }

  /** What running code leaves behind: the tracker it ran under, whether the cycle has been completed,
      whether an exception is on its way up and has already failed a section, and the leaf sections
      that were entered. */
  datatype Outcome = Outcome(tracker: Tracker, done: bool, fuse: Fuse, thrown: bool, failed: bool, entered: seq<Path>)

  /** TrackerBase::close on a tracker that is open. */
  function Closed(t: Tracker): Tracker {
    match t.state
    case Executing => t.(state := CompletedSuccessfully)
    case ExecutingChildren =>
      if t.children == [] || t.children[|t.children| - 1].IsComplete() then t.(state := CompletedSuccessfully) else t
    case _ => t
  }

  function Registered(t: Tracker, i: nat, name: NameAndLocation): (r: Tracker)
    requires i <= |t.children|
    ensures i < |r.children|
  {
    if i < |t.children| then t else t.(children := t.children + [Fresh(name)])
  }

  /** The code of s from its i-th SECTION on, under the open tracker t. */
  function RunBody(t: Tracker, s: Section, i: nat, done: bool, fuse: Fuse, at: Path): (o: Outcome)
    requires i <= |s.body| && i <= |t.children|
    decreases s, |s.body| - i
  {
    if fuse == Some(0) then Outcome(t, done, fuse, true, false, [])
    else if i == |s.body| then Outcome(t, done, Burn(fuse), false, false, [])
    else
      var r := Registered(t, i, s.body[i].name);
      if done || r.children[i].IsComplete() then RunBody(r, s, i + 1, done, Burn(fuse), at)
      else
        var o := RunSection(r.children[i], s.body[i], Burn(fuse), at + [i]);
        var u := AfterSection(r, i, o.tracker);
        if o.thrown then Outcome(u, true, o.fuse, true, true, o.entered)
        else
          var rest := RunBody(u, s, i + 1, true, o.fuse, at);
          rest.(entered := o.entered + rest.entered)
  }

  /** A section that fails makes its parent run again; otherwise the parent is executing children. */
  function AfterSection(t: Tracker, i: nat, child: Tracker): (r: Tracker)
    requires i < |t.children|
    ensures |r.children| == |t.children|
  {
    Tracker(t.name, if child.state == Failed then NeedsAnotherRun else ExecutingChildren, t.children[i := child])
  }

  /** Opening the tracker t of section s, running its code and ending it, early or not. */
  function RunSection(t: Tracker, s: Section, fuse: Fuse, at: Path): (o: Outcome)
    ensures o.done
    decreases s, |s.body| + 1
  {
    var b := RunBody(t.(state := Executing), s, 0, false, fuse, at);
    var entered := (if s.body == [] then [at] else []) + b.entered;
    if b.thrown && !b.failed then Outcome(b.tracker.(state := Failed), true, b.fuse, true, true, entered)
    else Outcome(Closed(b.tracker), true, b.fuse, b.thrown, b.failed, entered)
  }

  /** A whole cycle: the test case's own tracker is closed whether or not an exception escaped. */
  function RunCycle(t: Tracker, s: Section, fuse: Fuse): Outcome {
    var b := RunBody(t.(state := Executing), s, 0, false, fuse, []);
    b.(tracker := Closed(b.tracker), done := true, entered := (if s.body == [] then [[]] else []) + b.entered)
  }

  // ----- What holds between cycles -----

  /** Of two siblings the later one is untouched unless the earlier one is complete. */
  ghost predicate InOrder(ts: seq<Tracker>) {
    forall j, k :: 0 <= j < k < |ts| ==> ts[j].IsComplete() || ts[k].state == NotStarted
  }

  /** t is a tracker of s, between cycles. */
  ghost predicate Consistent(t: Tracker, s: Section)
    decreases s, 1
  {
    && t.name == s.name
    && ConsistentChildren(t, s)
    && t.state != Executing
    && (t.state == NotStarted ==> t.children == [])
    && (t.state == ExecutingChildren ==> t.children != [] && !t.children[|t.children| - 1].IsComplete())
  }

  ghost predicate ConsistentChildren(t: Tracker, s: Section)
    decreases s, 0
  {
    && |t.children| <= |s.body|
    && InOrder(t.children)
    && (forall i :: 0 <= i < |t.children| ==> Consistent(t.children[i], s.body[i]))
  }

  /** t is open and its code is about to reach its i-th SECTION. */
  ghost predicate Midway(t: Tracker, s: Section, i: nat, done: bool) {
    && i <= |t.children|
    && t.name == s.name
    && ConsistentChildren(t, s)
    && (if done then
          t.state == ExecutingChildren && forall j :: i <= j < |t.children| ==> t.children[j].state == NotStarted
        else t.state == Executing && forall j :: 0 <= j < i ==> t.children[j].IsComplete())
  }

  lemma RegisteredMidway(t: Tracker, s: Section, i: nat, done: bool)
    requires Midway(t, s, i, done) && i < |s.body|
    ensures Midway(Registered(t, i, s.body[i].name), s, i, done)
  {
    var r := Registered(t, i, s.body[i].name);
    assert Consistent(Fresh(s.body[i].name), s.body[i]);
    forall k | 0 <= k < |r.children| ensures Consistent(r.children[k], s.body[k]) {
      if k == |t.children| {
        assert r.children[k] == Fresh(s.body[i].name);
      }
    }
  }

  /** The code of an open tracker leaves consistent trackers behind; without an exception all
      sections of the body have been registered. */
  lemma {:induction false} BodyIsConsistent(t: Tracker, s: Section, i: nat, done: bool, fuse: Fuse, at: Path)
    requires Midway(t, s, i, done)
    ensures var o := RunBody(t, s, i, done, fuse, at);
            && o.tracker.name == s.name
            && ConsistentChildren(o.tracker, s)
            && (o.tracker.state == Executing || o.tracker.state == ExecutingChildren ||
                (o.tracker.state == NeedsAnotherRun && o.thrown))
            && (!o.thrown ==> |o.tracker.children| == |s.body|)
            && (o.tracker.state == Executing <==> !o.done)
            && (o.failed ==> o.thrown && o.done)
            && (done ==> o.done)
    decreases s, |s.body| - i
  {
    if fuse != Some(0) && i < |s.body| {
      RegisteredMidway(t, s, i, done);
      var r := Registered(t, i, s.body[i].name);
      if done || r.children[i].IsComplete() {
        BodyIsConsistent(r, s, i + 1, done, Burn(fuse), at);
      } else {
        var o := RunSection(r.children[i], s.body[i], Burn(fuse), at + [i]);
        SectionIsConsistent(r.children[i], s.body[i], Burn(fuse), at + [i]);
        AfterSectionMidway(r, s, i, o.tracker);
        if !o.thrown {
          BodyIsConsistent(AfterSection(r, i, o.tracker), s, i + 1, true, o.fuse, at);
        }
      }
    }
  }

  lemma AfterSectionMidway(r: Tracker, s: Section, i: nat, child: Tracker)
    requires Midway(r, s, i, false) && i < |r.children| && !r.children[i].IsComplete()
    requires i < |s.body| && Consistent(child, s.body[i]) && child.state != NotStarted
    ensures ConsistentChildren(AfterSection(r, i, child), s)
    ensures child.state != Failed ==> Midway(AfterSection(r, i, child), s, i + 1, true)
  {
  }

  lemma {:induction false} SectionIsConsistent(t: Tracker, s: Section, fuse: Fuse, at: Path)
    requires Consistent(t, s)
    ensures var o := RunSection(t, s, fuse, at);
            && Consistent(o.tracker, s) && o.tracker.state != NotStarted
            && (o.tracker.state == Failed ==> o.thrown)
            && (o.thrown <==> o.failed)
    decreases s, |s.body| + 1
  {
    BodyIsConsistent(t.(state := Executing), s, 0, false, fuse, at);
  }

  lemma CycleIsConsistent(t: Tracker, s: Section, fuse: Fuse)
    requires Consistent(t, s)
    ensures var o := RunCycle(t, s, fuse);
            Consistent(o.tracker, s) && o.tracker.state != NotStarted && o.tracker.state != Failed
  {
    BodyIsConsistent(t.(state := Executing), s, 0, false, fuse, []);
  }

  // ----- Which leaf sections are still to come -----

  /** The leaf sections below s, in document order. A test case without sections is its own leaf. */
  function Leaves(s: Section, at: Path): seq<Path>
    decreases s, |s.body| + 1
  {
    if s.body == [] then [at] else LeavesFrom(s, 0, at)
  }

  function LeavesFrom(s: Section, i: nat, at: Path): seq<Path>
    requires i <= |s.body|
    decreases s, |s.body| - i
  {
    if i == |s.body| then [] else Leaves(s.body[i], at + [i]) + LeavesFrom(s, i + 1, at)
  }

  /** The leaf sections that can still be entered under t. */
  function Pending(t: Tracker, s: Section, at: Path): seq<Path>
    decreases s, |s.body| + 1
  {
    if t.IsComplete() then [] else if s.body == [] then [at] else PendingFrom(t.children, s, 0, at)
  }

  function PendingFrom(ts: seq<Tracker>, s: Section, i: nat, at: Path): seq<Path>
    requires i <= |s.body|
    decreases s, |s.body| - i
  {
    if i == |s.body| then []
    else
      (if i < |ts| then Pending(ts[i], s.body[i], at + [i]) else Leaves(s.body[i], at + [i])) +
        PendingFrom(ts, s, i + 1, at)
  }

  lemma {:induction false} NothingStarted(s: Section, at: Path)
    ensures Pending(Fresh(s.name), s, at) == Leaves(s, at)
  {
    NothingStartedFrom(s, 0, at);
  }

  lemma {:induction false} NothingStartedFrom(s: Section, i: nat, at: Path)
    requires i <= |s.body|
    ensures PendingFrom([], s, i, at) == LeavesFrom(s, i, at)
    decreases |s.body| - i
  {
    if i < |s.body| {
      NothingStartedFrom(s, i + 1, at);
    }
  }

  /** PendingFrom looks only at the trackers it covers; a tracker that has only been registered makes no difference. */
  lemma {:induction false} PendingDepends(ts: seq<Tracker>, us: seq<Tracker>, s: Section, i: nat, at: Path)
    requires i <= |s.body|
    requires forall j :: i <= j < |s.body| ==>
               (j < |ts| && j < |us| && ts[j] == us[j]) || (j >= |ts| && j >= |us|) ||
               (j >= |ts| && j < |us| && us[j] == Fresh(s.body[j].name))
    ensures PendingFrom(ts, s, i, at) == PendingFrom(us, s, i, at)
    decreases |s.body| - i
  {
    if i < |s.body| {
      PendingDepends(ts, us, s, i + 1, at);
      NothingStarted(s.body[i], at + [i]);
    }
  }

  /** The trackers before i are complete. */
  lemma {:induction false} PendingSkips(ts: seq<Tracker>, s: Section, i: nat, at: Path)
    requires i <= |s.body| && i <= |ts| && forall j :: 0 <= j < i ==> ts[j].IsComplete()
    ensures PendingFrom(ts, s, 0, at) == PendingFrom(ts, s, i, at)
    decreases i
  {
    if i > 0 {
      PendingSkips(ts, s, i - 1, at);
    }
  }

  lemma PendingAt(ts: seq<Tracker>, s: Section, i: nat, at: Path)
    requires i < |s.body| && i < |ts| && forall j :: 0 <= j < i ==> ts[j].IsComplete()
    ensures PendingFrom(ts, s, 0, at) == Pending(ts[i], s.body[i], at + [i]) + PendingFrom(ts, s, i + 1, at)
  {
    PendingSkips(ts, s, i, at);
  }

  /** `entered` is the first leaf of `before`, or nothing, and `after` is what is left: a suffix of
      `before`, without the leaf that was entered. */
  ghost predicate Consumes(before: seq<Path>, entered: seq<Path>, after: seq<Path>) {
    && |after| + |entered| <= |before|
    && after == before[|before| - |after|..]
    && |entered| <= 1 && (entered != [] ==> entered[0] == before[0])
  }

  lemma ConsumesMore(before: seq<Path>, entered: seq<Path>, after: seq<Path>, behind: seq<Path>)
    requires Consumes(before, entered, after)
    ensures Consumes(before + behind, entered, after + behind)
  {
  }

  lemma ConsumesAll(before: seq<Path>, entered: seq<Path>, after: seq<Path>)
    requires Consumes(before, entered, after)
    ensures Consumes(before, entered, [])
  {
  }

  lemma {:induction false} DoneEntersNothing(t: Tracker, s: Section, i: nat, fuse: Fuse, at: Path)
    requires Midway(t, s, i, true)
    ensures var o := RunBody(t, s, i, true, fuse, at);
            && o.entered == [] && !o.failed && o.done && o.tracker.state == ExecutingChildren
            && |o.tracker.children| >= |t.children| && o.tracker.children[..|t.children|] == t.children
            && forall j :: |t.children| <= j < |o.tracker.children| && j < |s.body| ==>
               o.tracker.children[j] == Fresh(s.body[j].name)
    decreases |s.body| - i
  {
    if fuse != Some(0) && i < |s.body| {
      RegisteredMidway(t, s, i, true);
      DoneEntersNothing(Registered(t, i, s.body[i].name), s, i + 1, Burn(fuse), at);
    }
  }

  lemma {:induction false} BodyConsumes(t: Tracker, s: Section, i: nat, fuse: Fuse, at: Path)
    requires Midway(t, s, i, false)
    ensures var o := RunBody(t, s, i, false, fuse, at);
            Consumes(PendingFrom(t.children, s, 0, at), o.entered, PendingFrom(o.tracker.children, s, 0, at))
    decreases s, |s.body| - i
  {
    if fuse != Some(0) && i < |s.body| {
      RegisteredMidway(t, s, i, false);
      var r := Registered(t, i, s.body[i].name);
      PendingDepends(t.children, r.children, s, 0, at);
      if r.children[i].IsComplete() {
        BodyConsumes(r, s, i + 1, Burn(fuse), at);
      } else {
        SectionStepConsumes(r, s, i, fuse, at);
      }
    }
  }

  /** RunBody where it skips a section, and at the end of the body. */
  lemma SkipsSection(t: Tracker, s: Section, i: nat, done: bool, fuse: Fuse, at: Path)
    requires i <= |s.body| && i <= |t.children| && fuse != Some(0)
    ensures i == |s.body| ==> RunBody(t, s, i, done, fuse, at) == Outcome(t, done, Burn(fuse), false, false, [])
    ensures i < |s.body| ==>
              var r := Registered(t, i, s.body[i].name);
              && (done || r.children[i].IsComplete() ==>
                    RunBody(t, s, i, done, fuse, at) == RunBody(r, s, i + 1, done, Burn(fuse), at))
              && RunBody(t, s, i, done, fuse, at) == RunBody(r, s, i, done, fuse, at)
  {
    hide RunSection;
  }

  /** RunBody where it opens a section. */
  lemma OpensSection(r: Tracker, s: Section, i: nat, fuse: Fuse, at: Path)
    requires i < |s.body| && i < |r.children| && !r.children[i].IsComplete() && fuse != Some(0)
    ensures var o := RunSection(r.children[i], s.body[i], Burn(fuse), at + [i]);
            var u := AfterSection(r, i, o.tracker);
            var b := RunBody(r, s, i, false, fuse, at);
            if o.thrown then b == Outcome(u, true, o.fuse, true, true, o.entered)
            else
              var rest := RunBody(u, s, i + 1, true, o.fuse, at);
              b == rest.(entered := o.entered + rest.entered)
  {
    hide RunSection;
  }

  lemma {:induction false} SectionStepConsumes(r: Tracker, s: Section, i: nat, fuse: Fuse, at: Path)
    requires Midway(r, s, i, false) && i < |r.children| && !r.children[i].IsComplete() && fuse != Some(0)
    ensures var o := RunBody(r, s, i, false, fuse, at);
            Consumes(PendingFrom(r.children, s, 0, at), o.entered, PendingFrom(o.tracker.children, s, 0, at))
    decreases s, |s.body| - i, 0
  {
    OpensSection(r, s, i, fuse, at);
    hide RunBody, RunSection, Consumes, Pending, PendingFrom;
    var c, o := r.children[i], RunSection(r.children[i], s.body[i], Burn(fuse), at + [i]);
    SectionIsConsistent(c, s.body[i], Burn(fuse), at + [i]);
    SectionConsumes(c, s.body[i], Burn(fuse), at + [i]);
    var u := AfterSection(r, i, o.tracker);
    AfterSectionMidway(r, s, i, o.tracker);
    PendingAfterSection(r, s, i, o.tracker, at);
    ConsumesMore(Pending(c, s.body[i], at + [i]), o.entered, Pending(o.tracker, s.body[i], at + [i]),
                 PendingFrom(r.children, s, i + 1, at));
    hide AfterSection, Midway;
    if !o.thrown {
      RestConsumesNothing(u, s, i + 1, o.fuse, at);
      assert o.entered + [] == o.entered;
    }
  }

  /** Once a section has been run, the rest of the body only registers trackers. */
  lemma RestConsumesNothing(u: Tracker, s: Section, i: nat, fuse: Fuse, at: Path)
    requires Midway(u, s, i, true)
    ensures var o := RunBody(u, s, i, true, fuse, at);
            o.entered == [] && PendingFrom(o.tracker.children, s, 0, at) == PendingFrom(u.children, s, 0, at)
  {
    DoneEntersNothing(u, s, i, fuse, at);
    BodyIsConsistent(u, s, i, true, fuse, at);
    hide RunBody, PendingFrom;
    PendingDepends(u.children, RunBody(u, s, i, true, fuse, at).tracker.children, s, 0, at);
  }

  lemma LeafConsumes(t: Tracker, s: Section, entered: seq<Path>, u: Tracker, at: Path)
    requires !t.IsComplete() && s.body == [] && u.IsComplete()
    requires Consumes(PendingFrom(t.children, s, 0, at), entered, PendingFrom(u.children, s, 0, at))
    ensures Consumes(Pending(t, s, at), [at] + entered, Pending(u, s, at))
  {
    PendingOfLeaf(t, s, t.children, at);
    PendingOfComplete(u, s, at);
    hide Pending, PendingFrom;
    assert entered == [];
    assert Consumes([at], [at] + entered, []);
  }

  lemma PendingOfLeaf(t: Tracker, s: Section, ts: seq<Tracker>, at: Path)
    requires s.body == [] && !t.IsComplete()
    ensures PendingFrom(ts, s, 0, at) == [] && Pending(t, s, at) == [at]
  {
  }

  lemma PendingOfComplete(t: Tracker, s: Section, at: Path)
    requires t.IsComplete()
    ensures Pending(t, s, at) == []
  {
  }

  /** From the children to the section itself, however it ends. */
  lemma EndConsumes(t: Tracker, s: Section, entered: seq<Path>, u: Tracker, at: Path)
    requires !t.IsComplete() && (s.body == [] ==> u.IsComplete())
    requires Consumes(PendingFrom(t.children, s, 0, at), entered, PendingFrom(u.children, s, 0, at))
    ensures Consumes(Pending(t, s, at), (if s.body == [] then [at] else []) + entered, Pending(u, s, at))
  {
    hide Consumes, PendingFrom;
    if s.body == [] {
      LeafConsumes(t, s, entered, u, at);
    } else {
      assert [] + entered == entered;
      ConsumesAll(PendingFrom(t.children, s, 0, at), entered, PendingFrom(u.children, s, 0, at));
    }
  }

  /** A leaf is always complete when its section ends. */
  lemma LeafCompletes(b: Tracker, s: Section)
    requires ConsistentChildren(b, s) && (b.state == Executing || b.state == ExecutingChildren) && s.body == []
    ensures Closed(b).IsComplete()
  {
  }

  lemma LeafBody(t: Tracker, s: Section, fuse: Fuse, at: Path)
    requires s.body == []
    ensures RunBody(t, s, 0, false, fuse, at).tracker == t
  {
  }

  lemma {:induction false} SectionConsumes(t: Tracker, s: Section, fuse: Fuse, at: Path)
    requires Consistent(t, s) && !t.IsComplete()
    ensures var o := RunSection(t, s, fuse, at);
            Consumes(Pending(t, s, at), o.entered, Pending(o.tracker, s, at))
    decreases s, |s.body| + 1
  {
    var t' := t.(state := Executing);
    var b := RunBody(t', s, 0, false, fuse, at);
    BodyIsConsistent(t', s, 0, false, fuse, at);
    BodyConsumes(t', s, 0, fuse, at);
    if s.body == [] {
      LeafBody(t', s, fuse, at);
      LeafCompletes(b.tracker, s);
    }
    hide RunBody, ConsistentChildren, Consumes, PendingFrom, Pending;
    EndConsumes(t, s, b.entered, RunSection(t, s, fuse, at).tracker, at);
  }

  lemma CycleConsumes(t: Tracker, s: Section, fuse: Fuse)
    requires Consistent(t, s) && !t.IsComplete()
    ensures var o := RunCycle(t, s, fuse); Consumes(Pending(t, s, []), o.entered, Pending(o.tracker, s, []))
  {
    var t' := t.(state := Executing);
    var b := RunBody(t', s, 0, false, fuse, []);
    BodyIsConsistent(t', s, 0, false, fuse, []);
    BodyConsumes(t', s, 0, fuse, []);
    if s.body == [] {
      LeafBody(t', s, fuse, []);
      LeafCompletes(b.tracker, s);
    }
    hide RunBody, ConsistentChildren, Consumes, PendingFrom, Pending;
    EndConsumes(t, s, b.entered, Closed(b.tracker), []);
  }

  // ----- Why a run ends -----

  /** The sections below and including s that are not complete. */
  function Work(t: Tracker, s: Section): (w: nat)
    decreases s, |s.body| + 1
  {
    if t.IsComplete() then 0 else 1 + WorkFrom(t.children, s, 0)
  }

  function WorkFrom(ts: seq<Tracker>, s: Section, i: nat): (w: nat)
    requires i <= |s.body|
    decreases s, |s.body| - i
  {
    if i == |s.body| then 0
    else Work(if i < |ts| then ts[i] else Fresh(s.body[i].name), s.body[i]) + WorkFrom(ts, s, i + 1)
  }

  lemma {:induction false} WorkDepends(ts: seq<Tracker>, us: seq<Tracker>, s: Section, i: nat)
    requires i <= |s.body|
    requires forall j :: i <= j < |s.body| ==>
               (j < |ts| && j < |us| && ts[j] == us[j]) || (j >= |ts| && j >= |us|) ||
               (j >= |ts| && j < |us| && us[j] == Fresh(s.body[j].name))
    ensures WorkFrom(ts, s, i) == WorkFrom(us, s, i)
    decreases |s.body| - i
  {
    if i < |s.body| {
      WorkDepends(ts, us, s, i + 1);
    }
  }

  lemma {:induction false} WorkOfOne(ts: seq<Tracker>, us: seq<Tracker>, s: Section, i: nat, k: nat)
    requires i <= k < |s.body| && k < |ts| == |us| && us == ts[k := us[k]]
    ensures WorkFrom(us, s, i) - Work(us[k], s.body[k]) == WorkFrom(ts, s, i) - Work(ts[k], s.body[k])
    decreases |s.body| - i
  {
    if i < k {
      WorkOfOne(ts, us, s, i + 1, k);
    } else {
      WorkDepends(ts, us, s, i + 1);
    }
  }

  lemma WorkAfterSection(r: Tracker, s: Section, i: nat, child: Tracker)
    requires i < |s.body| && i < |r.children|
    ensures WorkFrom(AfterSection(r, i, child).children, s, 0) - Work(child, s.body[i]) ==
            WorkFrom(r.children, s, 0) - Work(r.children[i], s.body[i])
  {
    hide Work, WorkFrom;
    WorkOfOne(r.children, AfterSection(r, i, child).children, s, 0, i);
  }

  /** A body that opens a section leaves less work. */
  lemma {:induction false} BodyWorks(t: Tracker, s: Section, i: nat, done: bool, fuse: Fuse, at: Path)
    requires Midway(t, s, i, done)
    ensures var o := RunBody(t, s, i, done, fuse, at);
            && WorkFrom(o.tracker.children, s, 0) <= WorkFrom(t.children, s, 0)
            && (o.done && !done ==> WorkFrom(o.tracker.children, s, 0) < WorkFrom(t.children, s, 0))
    decreases s, |s.body| - i
  {
    if fuse != Some(0) && i < |s.body| {
      RegisteredMidway(t, s, i, done);
      var r := Registered(t, i, s.body[i].name);
      SkipsSection(t, s, i, done, fuse, at);
      hide RunBody, Work, WorkFrom;
      WorkDepends(t.children, r.children, s, 0);
      hide Midway;
      if done || r.children[i].IsComplete() {
        BodyWorks(r, s, i + 1, done, Burn(fuse), at);
      } else {
        StepWorks(r, s, i, fuse, at);
      }
    }
  }

  lemma {:induction false} StepWorks(r: Tracker, s: Section, i: nat, fuse: Fuse, at: Path)
    requires Midway(r, s, i, false) && i < |r.children| && !r.children[i].IsComplete() && fuse != Some(0)
    ensures WorkFrom(RunBody(r, s, i, false, fuse, at).tracker.children, s, 0) < WorkFrom(r.children, s, 0)
    decreases s, |s.body| - i, 0
  {
    OpensSection(r, s, i, fuse, at);
    hide RunBody, RunSection, Work, WorkFrom;
    var c, o := r.children[i], RunSection(r.children[i], s.body[i], Burn(fuse), at + [i]);
    SectionIsConsistent(c, s.body[i], Burn(fuse), at + [i]);
    SectionWorks(c, s.body[i], Burn(fuse), at + [i]);
    AfterSectionMidway(r, s, i, o.tracker);
    WorkAfterSection(r, s, i, o.tracker);
    hide AfterSection, Midway;
    if !o.thrown {
      BodyWorks(AfterSection(r, i, o.tracker), s, i + 1, true, o.fuse, at);
    }
  }

  lemma {:induction false} SectionWorks(t: Tracker, s: Section, fuse: Fuse, at: Path)
    requires Consistent(t, s) && !t.IsComplete()
    ensures Work(RunSection(t, s, fuse, at).tracker, s) < Work(t, s)
    decreases s, |s.body| + 1
  {
    BodyIsConsistent(t.(state := Executing), s, 0, false, fuse, at);
    BodyWorks(t.(state := Executing), s, 0, false, fuse, at);
  }

  /** Every cycle completes at least one tracker. */
  lemma CycleWorks(t: Tracker, s: Section, fuse: Fuse)
    requires Consistent(t, s) && !t.IsComplete()
    ensures Work(RunCycle(t, s, fuse).tracker, s) < Work(t, s)
  {
    BodyIsConsistent(t.(state := Executing), s, 0, false, fuse, []);
    BodyWorks(t.(state := Executing), s, 0, false, fuse, []);
  }

  // ----- Whole runs -----

  datatype Run = Run(entered: seq<Path>, cycles: nat)

  /** Cycle after cycle until the test case is complete; `faults` says where the n-th cycle throws. */
  function RunFrom(t: Tracker, s: Section, faults: nat -> Fuse, n: nat): (r: Run)
    requires Consistent(t, s) && !t.IsComplete()
    decreases Work(t, s)
  {
    var o := RunCycle(t, s, faults(n));
    CycleIsConsistent(t, s, faults(n));
    CycleWorks(t, s, faults(n));
    if o.tracker.state == CompletedSuccessfully then Run(o.entered, 1)
    else
      var r := RunFrom(o.tracker, s, faults, n + 1);
      Run(o.entered + r.entered, 1 + r.cycles)
  }

  function WholeRun(s: Section, faults: nat -> Fuse): Run {
    assert Consistent(Fresh(s.name), s);
    RunFrom(Fresh(s.name), s, faults, 0)
  }

  // ----- The trackers between the cycles of a run -----

  /** The test case's tracker m cycles later, the next cycle being the n-th. */
  function CyclesFrom(t: Tracker, s: Section, faults: nat -> Fuse, n: nat, m: nat): Tracker
    decreases m
  {
    if m == 0 then t else CyclesFrom(RunCycle(t, s, faults(n)).tracker, s, faults, n + 1, m - 1)
  }

  function AfterCycles(s: Section, faults: nat -> Fuse, m: nat): Tracker {
    CyclesFrom(Fresh(s.name), s, faults, 0, m)
  }

  lemma {:induction false} CyclesAreConsistent(t: Tracker, s: Section, faults: nat -> Fuse, n: nat, m: nat)
    requires Consistent(t, s)
    ensures Consistent(CyclesFrom(t, s, faults, n, m), s)
    decreases m
  {
    if m > 0 {
      CycleIsConsistent(t, s, faults(n));
      hide Consistent, RunCycle;
      CyclesAreConsistent(RunCycle(t, s, faults(n)).tracker, s, faults, n + 1, m - 1);
    }
  }

  lemma {:induction false} RunFromIsCycles(t: Tracker, s: Section, faults: nat -> Fuse, n: nat)
    requires Consistent(t, s) && !t.IsComplete()
    ensures var c := RunFrom(t, s, faults, n).cycles;
            && CyclesFrom(t, s, faults, n, c).IsComplete()
            && forall m :: 0 <= m < c ==> !CyclesFrom(t, s, faults, n, m).IsComplete()
    decreases Work(t, s)
  {
    var o := RunCycle(t, s, faults(n));
    CycleIsConsistent(t, s, faults(n));
    CycleWorks(t, s, faults(n));
    hide RunCycle, Consistent, Work;
    if o.tracker.state == CompletedSuccessfully {
      assert CyclesFrom(t, s, faults, n, 1) == CyclesFrom(o.tracker, s, faults, n + 1, 0);
    } else {
      RunFromIsCycles(o.tracker, s, faults, n + 1);
      forall m | 0 <= m < RunFrom(t, s, faults, n).cycles ensures !CyclesFrom(t, s, faults, n, m).IsComplete() {
        assert m > 0 ==> CyclesFrom(t, s, faults, n, m) == CyclesFrom(o.tracker, s, faults, n + 1, m - 1);
      }
    }
  }

  /** A run stops at the first cycle that completes the test case's tracker. */
  lemma RunStopsWhenComplete(s: Section, faults: nat -> Fuse, m: nat)
    ensures var c := WholeRun(s, faults).cycles;
            AfterCycles(s, faults, c).IsComplete() && (m < c ==> !AfterCycles(s, faults, m).IsComplete())
  {
    assert Consistent(Fresh(s.name), s);
    RunFromIsCycles(Fresh(s.name), s, faults, 0);
  }

  /** The tracker at the end of a way, if there is one. */
  function TrackerAt(t: Tracker, way: Path): Option<Tracker>
    decreases |way|
  {
    if way == [] then Some(t)
    else if way[0] < |t.children| then TrackerAt(t.children[way[0]], way[1..])
    else None
  }

  lemma {:induction false} InOrderAt(t: Tracker, s: Section, way: Path)
    requires Consistent(t, s) && TrackerAt(t, way).Some?
    ensures InOrder(TrackerAt(t, way).value.children)
    decreases |way|
  {
    if way != [] {
      InOrderAt(t.children[way[0]], s.body[way[0]], way[1..]);
    }
  }

  /** Wherever exceptions escaped, after any number of cycles and at every tracker, the completed children are
      a prefix, and behind them at most one has been started. */
  lemma CompletePrefix(s: Section, faults: nat -> Fuse, m: nat, way: Path, j: nat, k: nat)
    requires var t := TrackerAt(AfterCycles(s, faults, m), way); t.Some? && j < k < |t.value.children|
    ensures var ts := TrackerAt(AfterCycles(s, faults, m), way).value.children;
            && (ts[k].IsComplete() ==> ts[j].IsComplete())
            && (ts[k].state != NotStarted ==> ts[j].IsComplete())
  {
    assert Consistent(Fresh(s.name), s);
    CyclesAreConsistent(Fresh(s.name), s, faults, 0, m);
    hide Consistent, CyclesFrom;
    InOrderAt(AfterCycles(s, faults, m), s, way);
  }

  ghost predicate Subsequence(a: seq<Path>, b: seq<Path>)
    decreases |b|
  {
    a == [] || (b != [] && ((a[0] == b[0] && Subsequence(a[1..], b[1..])) || Subsequence(a, b[1..])))
  }

  lemma {:induction false} SubsequenceOfSuffix(a: seq<Path>, b: seq<Path>, k: nat)
    requires k <= |b| && Subsequence(a, b[k..])
    ensures Subsequence(a, b)
    decreases k
  {
    if k > 0 {
      assert b[1..][k - 1..] == b[k..];
      SubsequenceOfSuffix(a, b[1..], k - 1);
    } else {
      assert b[0..] == b;
    }
  }

  lemma ConsumedSubsequence(before: seq<Path>, entered: seq<Path>, after: seq<Path>, rest: seq<Path>)
    requires Consumes(before, entered, after) && Subsequence(rest, after)
    ensures Subsequence(entered + rest, before)
  {
    var k := |before| - |after|;
    if entered == [] {
      assert entered + rest == rest;
      SubsequenceOfSuffix(rest, before, k);
    } else {
      assert before[1..][k - 1..] == after;
      SubsequenceOfSuffix(rest, before[1..], k - 1);
      assert (entered + rest)[1..] == rest;
    }
  }

  lemma {:induction false} RunEntersPending(t: Tracker, s: Section, faults: nat -> Fuse, n: nat)
    requires Consistent(t, s) && !t.IsComplete()
    ensures Subsequence(RunFrom(t, s, faults, n).entered, Pending(t, s, []))
    decreases Work(t, s)
  {
    var o := RunCycle(t, s, faults(n));
    CycleIsConsistent(t, s, faults(n));
    CycleWorks(t, s, faults(n));
    CycleConsumes(t, s, faults(n));
    var before, after := Pending(t, s, []), Pending(o.tracker, s, []);
    if o.tracker.state == CompletedSuccessfully {
      ConsumedSubsequence(before, o.entered, after, []);
      assert o.entered + [] == o.entered;
    } else {
      RunEntersPending(o.tracker, s, faults, n + 1);
      ConsumedSubsequence(before, o.entered, after, RunFrom(o.tracker, s, faults, n + 1).entered);
    }
  }

  /** Wherever exceptions escape, the leaf sections that are entered are entered in document order,
      and none twice. */
  lemma AnyRunEntersInOrder(s: Section, faults: nat -> Fuse)
    ensures Subsequence(WholeRun(s, faults).entered, Leaves(s, []))
  {
    assert Consistent(Fresh(s.name), s);
    NothingStarted(s, []);
    RunEntersPending(Fresh(s.name), s, faults, 0);
  }

  // ----- Runs without exceptions -----

  /** Without exceptions an unfinished section knows all sections of its body. */
  ghost predicate Full(t: Tracker, s: Section) {
    t.IsComplete() || t.state == NotStarted ||
    (t.state == ExecutingChildren && |t.children| == |s.body| && FullChildren(t.children, s))
  }

  ghost predicate FullChildren(ts: seq<Tracker>, s: Section) {
    |ts| <= |s.body| && forall i :: 0 <= i < |ts| ==> Full(ts[i], s.body[i])
  }

  lemma {:induction false} LeavesExist(s: Section, at: Path)
    ensures Leaves(s, at) != []
  {
    if s.body != [] {
      LeavesExist(s.body[0], at + [0]);
    }
  }

  /** An unfinished section has a leaf to come. */
  lemma {:induction false} FullHasPending(t: Tracker, s: Section, at: Path)
    requires Consistent(t, s) && Full(t, s) && !t.IsComplete()
    ensures Pending(t, s, at) != []
    decreases s
  {
    if t.state == NotStarted {
      NothingStarted(s, at);
      LeavesExist(s, at);
    } else {
      var last := |s.body| - 1;
      FullHasPending(t.children[last], s.body[last], at + [last]);
      PendingReaches(t.children, s, 0, last, at);
    }
  }

  lemma {:induction false} PendingReaches(ts: seq<Tracker>, s: Section, i: nat, k: nat, at: Path)
    requires i <= k < |s.body| && k < |ts| && Pending(ts[k], s.body[k], at + [k]) != []
    ensures PendingFrom(ts, s, i, at) != []
    decreases k - i
  {
    if i < k {
      PendingReaches(ts, s, i + 1, k, at);
    }
  }

  lemma {:induction false} AllComplete(ts: seq<Tracker>, s: Section, i: nat, at: Path)
    requires |ts| == |s.body| && i <= |s.body| && forall j :: i <= j < |ts| ==> ts[j].IsComplete()
    ensures PendingFrom(ts, s, i, at) == []
    decreases |s.body| - i
  {
    if i < |s.body| {
      AllComplete(ts, s, i + 1, at);
    }
  }

  /** Exactly the first leaf to come is entered. */
  ghost predicate TakesOne(before: seq<Path>, entered: seq<Path>, after: seq<Path>) {
    before != [] && entered == [before[0]] && after == before[1..]
  }

  lemma {:induction false} FaultFreeBody(t: Tracker, s: Section, i: nat, done: bool, at: Path)
    requires Midway(t, s, i, done) && FullChildren(t.children, s)
    ensures var o := RunBody(t, s, i, done, None, at);
            var before, after := PendingFrom(t.children, s, 0, at), PendingFrom(o.tracker.children, s, 0, at);
            && !o.thrown && o.fuse == None && FullChildren(o.tracker.children, s)
            && (if !done && o.done then TakesOne(before, o.entered, after) else o.entered == [] && after == before)
            && (!done && !o.done ==>
                  forall j :: 0 <= j < |s.body| && j < |o.tracker.children| ==> o.tracker.children[j].IsComplete())
    decreases s, |s.body| - i
  {
    BodyIsConsistent(t, s, i, done, None, at);
    SkipsSection(t, s, i, done, None, at);
    hide RunBody, TakesOne, Pending, PendingFrom;
    if i < |s.body| {
      RegisteredMidway(t, s, i, done);
      var r := Registered(t, i, s.body[i].name);
      PendingDepends(t.children, r.children, s, 0, at);
      if done || r.children[i].IsComplete() {
        FaultFreeBody(r, s, i + 1, done, at);
      } else {
        FaultFreeStep(r, s, i, at);
      }
    }
  }

  lemma PendingAfterSection(r: Tracker, s: Section, i: nat, child: Tracker, at: Path)
    requires i < |s.body| && i < |r.children| && forall j :: 0 <= j < i ==> r.children[j].IsComplete()
    ensures var behind := PendingFrom(r.children, s, i + 1, at);
            && PendingFrom(r.children, s, 0, at) == Pending(r.children[i], s.body[i], at + [i]) + behind
            && PendingFrom(AfterSection(r, i, child).children, s, 0, at) == Pending(child, s.body[i], at + [i]) + behind
  {
    hide Pending, PendingFrom;
    var u := AfterSection(r, i, child);
    PendingAt(r.children, s, i, at);
    PendingAt(u.children, s, i, at);
    PendingDepends(r.children, u.children, s, i + 1, at);
  }

  lemma {:induction false} FaultFreeStep(r: Tracker, s: Section, i: nat, at: Path)
    requires Midway(r, s, i, false) && FullChildren(r.children, s) && i < |r.children| && !r.children[i].IsComplete()
    ensures var o := RunBody(r, s, i, false, None, at);
            && !o.thrown && o.fuse == None && FullChildren(o.tracker.children, s) && o.done
            && TakesOne(PendingFrom(r.children, s, 0, at), o.entered, PendingFrom(o.tracker.children, s, 0, at))
    decreases s, |s.body| - i, 0
  {
    OpensSection(r, s, i, None, at);
    FaultFreeOpen(r, s, i, at);
    hide RunBody, RunSection, TakesOne, FullChildren, PendingFrom, AfterSection, Midway;
    var o := RunSection(r.children[i], s.body[i], None, at + [i]);
    var u := AfterSection(r, i, o.tracker);
    FaultFreeBody(u, s, i + 1, true, at);
    BodyIsConsistent(u, s, i + 1, true, None, at);
    assert o.entered + [] == o.entered;
  }

  /** The section that is opened takes its first leaf. */
  lemma {:induction false} FaultFreeOpen(r: Tracker, s: Section, i: nat, at: Path)
    requires Midway(r, s, i, false) && FullChildren(r.children, s) && i < |r.children| && !r.children[i].IsComplete()
    ensures var o := RunSection(r.children[i], s.body[i], None, at + [i]);
            var u := AfterSection(r, i, o.tracker);
            && !o.thrown && o.fuse == None && Midway(u, s, i + 1, true) && FullChildren(u.children, s)
            && TakesOne(PendingFrom(r.children, s, 0, at), o.entered, PendingFrom(u.children, s, 0, at))
    decreases s, |s.body| - i, 0, 0
  {
    var c, o := r.children[i], RunSection(r.children[i], s.body[i], None, at + [i]);
    assert Full(c, s.body[i]);
    hide RunSection, TakesOne, Full, FullChildren, Consistent, Pending, PendingFrom;
    SectionIsConsistent(c, s.body[i], None, at + [i]);
    FaultFreeSection(c, s.body[i], at + [i]);
    AfterSectionFull(r, s, i, o.tracker);
    AfterSectionMidway(r, s, i, o.tracker);
    PendingAfterSection(r, s, i, o.tracker, at);
    TakesOneMore(Pending(c, s.body[i], at + [i]), o.entered, Pending(o.tracker, s.body[i], at + [i]),
                 PendingFrom(r.children, s, i + 1, at));
  }

  lemma AfterSectionFull(r: Tracker, s: Section, i: nat, child: Tracker)
    requires FullChildren(r.children, s) && i < |r.children| && Full(child, s.body[i])
    ensures FullChildren(AfterSection(r, i, child).children, s)
  {
  }

  lemma TakesOneMore(before: seq<Path>, entered: seq<Path>, after: seq<Path>, behind: seq<Path>)
    requires TakesOne(before, entered, after)
    ensures TakesOne(before + behind, entered, after + behind)
  {
  }

  lemma {:induction false} FaultFreeSection(t: Tracker, s: Section, at: Path)
    requires Consistent(t, s) && Full(t, s) && !t.IsComplete()
    ensures var o := RunSection(t, s, None, at);
            && !o.thrown && o.fuse == None && Full(o.tracker, s)
            && TakesOne(Pending(t, s, at), o.entered, Pending(o.tracker, s, at))
    decreases s, |s.body| + 1
  {
    var t' := t.(state := Executing);
    FaultFreeBody(t', s, 0, false, at);
    BodyIsConsistent(t', s, 0, false, None, at);
    FaultFreeClose(t, s, RunBody(t', s, 0, false, None, at), at);
  }

  /** b is what a body leaves that no exception has escaped from. */
  ghost predicate FaultFree(t: Tracker, s: Section, b: Outcome, at: Path) {
    var before, after := PendingFrom(t.children, s, 0, at), PendingFrom(b.tracker.children, s, 0, at);
    && |b.tracker.children| == |s.body| && FullChildren(b.tracker.children, s) && InOrder(b.tracker.children)
    && (b.tracker.state == Executing || b.tracker.state == ExecutingChildren)
    && (b.tracker.state == Executing <==> !b.done)
    && (if b.done then TakesOne(before, b.entered, after) else b.entered == [] && after == before)
    && (!b.done ==> forall j :: 0 <= j < |s.body| ==> b.tracker.children[j].IsComplete())
  }

  lemma CloseLeaf(t: Tracker, s: Section, b: Outcome, at: Path)
    requires !t.IsComplete() && FaultFree(t, s, b, at) && s.body == []
    ensures TakesOne(Pending(t, s, at), [at] + b.entered, Pending(Closed(b.tracker), s, at))
  {
    PendingOfLeaf(t, s, t.children, at);
    PendingOfComplete(Closed(b.tracker), s, at);
    hide Pending, PendingFrom, FullChildren;
    assert [at] + b.entered == [at];
  }

  lemma CloseParent(t: Tracker, s: Section, b: Outcome, at: Path)
    requires !t.IsComplete() && FaultFree(t, s, b, at) && s.body != [] && Pending(t, s, at) != []
    ensures TakesOne(Pending(t, s, at), b.entered, Pending(Closed(b.tracker), s, at))
  {
    var ts, u := b.tracker.children, Closed(b.tracker);
    assert Pending(t, s, at) == PendingFrom(t.children, s, 0, at);
    if !b.done || ts[|ts| - 1].IsComplete() {
      AllComplete(ts, s, 0, at);
      PendingOfComplete(u, s, at);
    } else {
      assert u == b.tracker && Pending(u, s, at) == PendingFrom(ts, s, 0, at);
    }
    hide Pending, PendingFrom, FullChildren;
  }

  /** Closing completes the section exactly when no leaf is left below it. */
  lemma FaultFreeClose(t: Tracker, s: Section, b: Outcome, at: Path)
    requires Consistent(t, s) && Full(t, s) && !t.IsComplete() && FaultFree(t, s, b, at)
    ensures var entered := (if s.body == [] then [at] else []) + b.entered;
            && Full(Closed(b.tracker), s) && Closed(b.tracker).state != Failed
            && TakesOne(Pending(t, s, at), entered, Pending(Closed(b.tracker), s, at))
  {
    assert [] + b.entered == b.entered;
    FullHasPending(t, s, at);
    if s.body == [] {
      CloseLeaf(t, s, b, at);
    } else {
      CloseParent(t, s, b, at);
    }
    hide Pending, PendingFrom, Consistent, TakesOne;
  }

  lemma FaultFreeCycle(t: Tracker, s: Section)
    requires Consistent(t, s) && Full(t, s) && !t.IsComplete()
    ensures var o := RunCycle(t, s, None);
            Full(o.tracker, s) && TakesOne(Pending(t, s, []), o.entered, Pending(o.tracker, s, []))
  {
    var t' := t.(state := Executing);
    FaultFreeBody(t', s, 0, false, []);
    BodyIsConsistent(t', s, 0, false, None, []);
    FaultFreeClose(t, s, RunBody(t', s, 0, false, None, []), []);
  }

  lemma {:induction false} FaultFreeRun(t: Tracker, s: Section, faults: nat -> Fuse, n: nat)
    requires Consistent(t, s) && Full(t, s) && !t.IsComplete() && forall k :: faults(k) == None
    ensures RunFrom(t, s, faults, n) == Run(Pending(t, s, []), |Pending(t, s, [])|)
    decreases Work(t, s)
  {
    var o := RunCycle(t, s, faults(n));
    CycleIsConsistent(t, s, None);
    CycleWorks(t, s, None);
    FaultFreeCycle(t, s);
    var before := Pending(t, s, []);
    assert before == [before[0]] + before[1..];
    if o.tracker.state != CompletedSuccessfully {
      FaultFreeRun(o.tracker, s, faults, n + 1);
    }
  }

  /** Without exceptions every leaf section is entered exactly once, in document order, one per cycle. */
  lemma FaultFreeRunCoversAll(s: Section, faults: nat -> Fuse)
    requires forall k :: faults(k) == None
    ensures WholeRun(s, faults) == Run(Leaves(s, []), |Leaves(s, [])|)
  {
    assert Consistent(Fresh(s.name), s);
    NothingStarted(s, []);
    FaultFreeRun(Fresh(s.name), s, faults, 0);
  }

  // ----- What the leaves are -----

  /** The way `p` leads from s to a section without sections. */
  ghost predicate IsLeaf(s: Section, p: Path)
    decreases s
  {
    if p == [] then s.body == [] else p[0] < |s.body| && IsLeaf(s.body[p[0]], p[1..])
  }

  lemma {:induction false} LeavesAreLeaves(s: Section, at: Path, p: Path)
    ensures at + p in Leaves(s, at) <==> IsLeaf(s, p)
    ensures forall q :: q in Leaves(s, at) ==> at <= q
    decreases s, |s.body| + 1
  {
    if s.body != [] {
      LeavesFromAreLeaves(s, 0, at, p);
    } else {
      assert at + p == at <==> p == [];
    }
  }

  lemma {:induction false} LeavesFromAreLeaves(s: Section, i: nat, at: Path, p: Path)
    requires i <= |s.body|
    ensures at + p in LeavesFrom(s, i, at) <==> p != [] && i <= p[0] < |s.body| && IsLeaf(s.body[p[0]], p[1..])
    ensures forall q :: q in LeavesFrom(s, i, at) ==> at <= q && |q| > |at| && i <= q[|at|]
    decreases s, |s.body| - i
  {
    if i < |s.body| {
      LeavesFromAreLeaves(s, i + 1, at, p);
      var p' := if p == [] then [] else p[1..];
      LeavesAreLeaves(s.body[i], at + [i], p');
      if p != [] && p[0] == i {
        assert at + p == at + [i] + p';
      }
      forall q | q in Leaves(s.body[i], at + [i]) ensures at <= q && |q| > |at| && q[|at|] == i {
        assert at + [i] <= q;
        assert q[..|at|] == (at + [i])[..|at|];
      }
    }
  }

  ghost predicate NoRepeats(ps: seq<Path>) {
    forall j, k :: 0 <= j < k < |ps| ==> ps[j] != ps[k]
  }

  lemma {:induction false} LeavesDiffer(s: Section, at: Path)
    ensures NoRepeats(Leaves(s, at))
    decreases s, |s.body| + 1
  {
    if s.body != [] {
      LeavesFromDiffer(s, 0, at);
    }
  }

  lemma {:induction false} LeavesFromDiffer(s: Section, i: nat, at: Path)
    requires i <= |s.body|
    ensures NoRepeats(LeavesFrom(s, i, at))
    decreases s, |s.body| - i
  {
    if i < |s.body| {
      LeavesDiffer(s.body[i], at + [i]);
      LeavesFromDiffer(s, i + 1, at);
      var a, b := Leaves(s.body[i], at + [i]), LeavesFrom(s, i + 1, at);
      LeavesAreLeaves(s.body[i], at + [i], []);
      LeavesFromAreLeaves(s, i + 1, at, []);
      forall q | q in a ensures q !in b {
        assert q[|at|] == (at + [i])[|at|] == i;
      }
      assert forall j :: 0 <= j < |a| ==> a[j] in a;
      assert forall j :: 0 <= j < |b| ==> b[j] in b;
    }
  }

  lemma {:induction false} SubsequenceOfDistinct(a: seq<Path>, b: seq<Path>)
    requires Subsequence(a, b) && NoRepeats(b)
    ensures NoRepeats(a) && forall p :: p in a ==> p in b
    decreases |b|
  {
    if a != [] {
      assert NoRepeats(b[1..]);
      assert forall p :: p in b[1..] ==> p in b;
      if a[0] == b[0] && Subsequence(a[1..], b[1..]) {
        SubsequenceOfDistinct(a[1..], b[1..]);
        assert a == [a[0]] + a[1..];
        assert b[0] !in b[1..];
        assert forall k :: 1 <= k < |a| ==> a[k] == a[1..][k - 1] && a[k] in a[1..];
      } else {
        SubsequenceOfDistinct(a, b[1..]);
      }
    }
  }

  /** Wherever exceptions escape, no leaf section is entered twice. */
  lemma AnyRunEntersAtMostOnce(s: Section, faults: nat -> Fuse)
    ensures NoRepeats(WholeRun(s, faults).entered)
    ensures forall p :: p in WholeRun(s, faults).entered ==> IsLeaf(s, p)
  {
    hide WholeRun;
    AnyRunEntersInOrder(s, faults);
    LeavesDiffer(s, []);
    SubsequenceOfDistinct(WholeRun(s, faults).entered, Leaves(s, []));
    forall p | p in WholeRun(s, faults).entered ensures IsLeaf(s, p) {
      LeavesAreLeaves(s, [], p);
      assert [] + p == p;
    }
  }
}
