/** The objects of lib/catch.hpp that run a test case: TrackerContext and its trackers, and the part of
    RunContext that starts and ends sections. Each step is proved to do what SectionTracker.dfy says. */
module SectionRunner {
  import opened Wrappers
  import opened SectionTracker

  // ----- The tree of trackers -----

  predicate Has(t: Tracker, p: Path)
    decreases |p|
  {
    p == [] || (p[0] < |t.children| && Has(t.children[p[0]], p[1..]))
  }

  function Get(t: Tracker, p: Path): Tracker
    requires Has(t, p)
    decreases |p|
  {
    if p == [] then t else Get(t.children[p[0]], p[1..])
  }

  function Put(t: Tracker, p: Path, u: Tracker): Tracker
    requires Has(t, p)
    decreases |p|
  {
    if p == [] then u else t.(children := t.children[p[0] := Put(t.children[p[0]], p[1..], u)])
  }

  function Parent(p: Path): Path
    requires p != []
  {
    p[..|p| - 1]
  }

  lemma {:induction false} GetPut(t: Tracker, p: Path, u: Tracker, v: Tracker)
    requires Has(t, p)
    ensures Has(Put(t, p, u), p) && Get(Put(t, p, u), p) == u && Put(Put(t, p, u), p, v) == Put(t, p, v)
    ensures Put(t, p, Get(t, p)) == t
    decreases |p|
  {
    if p != [] {
      GetPut(t.children[p[0]], p[1..], u, v);
    }
  }

  /** A child is reached through its parent. */
  lemma {:induction false} ChildOf(t: Tracker, p: Path, i: nat, u: Tracker)
    requires Has(t, p)
    ensures Parent(p + [i]) == p
    ensures Has(t, p + [i]) <==> i < |Get(t, p).children|
    ensures Has(t, p + [i]) ==>
              var c := Get(t, p);
              Get(t, p + [i]) == c.children[i] && Put(t, p + [i], u) == Put(t, p, c.(children := c.children[i := u]))
    decreases |p|
  {
    if p != [] {
      assert (p + [i])[1..] == p[1..] + [i];
      ChildOf(t.children[p[0]], p[1..], i, u);
    } else {
      assert ([] + [i])[1..] == [];
    }
  }

  /** Changing a tracker leaves the state of its parent alone. */
  lemma ParentKeepsState(t: Tracker, p: Path, u: Tracker)
    requires Has(t, p) && p != []
    ensures Has(t, Parent(p)) && Has(Put(t, p, u), Parent(p)) &&
            Get(Put(t, p, u), Parent(p)).state == Get(t, Parent(p)).state
  {
    var q, i := Parent(p), p[|p| - 1];
    assert p == q + [i];
    HasPrefix(t, q, [i]);
    ChildOf(t, q, i, u);
    GetPut(t, q, Get(t, q).(children := Get(t, q).children[i := u]), u);
  }

  lemma {:induction false} HasPrefix(t: Tracker, p: Path, q: Path)
    requires Has(t, p + q)
    ensures Has(t, p)
    decreases |p|
  {
    if p != [] {
      assert (p + q)[1..] == p[1..] + q;
      HasPrefix(t.children[p[0]], p[1..], q);
    }
  }

  /** findChild: the first child of that name, or the number of children. */
  function Find(ts: seq<Tracker>, name: NameAndLocation): (k: nat)
    ensures k <= |ts| && (k < |ts| ==> ts[k].name == name) && forall i :: 0 <= i < k ==> ts[i].name != name
  {
    if ts == [] then 0 else if ts[0].name == name then 0 else 1 + Find(ts[1..], name)
  }

  /** No two SECTIONs of one body share name and location. */
  ghost predicate Distinct(s: Section) {
    && (forall i, j :: 0 <= i < j < |s.body| ==> s.body[i].name != s.body[j].name)
    && (forall i :: 0 <= i < |s.body| ==> Distinct(s.body[i]))
  }

  lemma FindsSection(t: Tracker, s: Section, i: nat)
    requires Distinct(s) && ConsistentChildren(t, s) && i <= |t.children| && i < |s.body|
    ensures Find(t.children, s.body[i].name) == i
  {
    var k := Find(t.children, s.body[i].name);
    assert forall j :: 0 <= j < |t.children| ==> Consistent(t.children[j], s.body[j]);
  }

  /** A tracker that has just opened its i-th child. */
  function Opened(t: Tracker, i: nat): Tracker
    requires i < |t.children|
  {
    Tracker(t.name, ExecutingChildren, t.children[i := t.children[i].(state := Executing)])
  }

  /** Into a section that has just been opened ... */
  lemma EnterSection(root: Tracker, p: Path, s: Section, i: nat, r: Tracker)
    requires p != [] && Has(root, p) && Distinct(s) && i < |s.body|
    requires Midway(r, s, i, false) && i < |r.children|
    ensures var root' := Put(root, p, Opened(r, i));
            && Has(root', p) && Get(root', p) == Opened(r, i)
            && Has(root', p + [i]) && Get(root', p + [i]) == r.children[i].(state := Executing)
            && Parent(p + [i]) == p && (p + [i])[1..] == p[1..] + [i]
            && Midway(r.children[i].(state := Executing), s.body[i], 0, false) && Distinct(s.body[i])
  {
    GetPut(root, p, Opened(r, i), r);
    ChildOf(Put(root, p, Opened(r, i)), p, i, r);
    assert Consistent(r.children[i], s.body[i]);
    SameChildren(r.children[i], s.body[i]);
  }

  lemma SameChildren(t: Tracker, s: Section)
    requires Consistent(t, s)
    ensures Midway(t.(state := Executing), s, 0, false)
  {
  }

  /** ... and out of it again, with the tracker its code left behind. */
  lemma LeaveSection(root: Tracker, p: Path, i: nat, r: Tracker, b: Tracker, u: Tracker)
    requires Has(root, p) && i < |r.children|
    ensures var root' := Put(root, p, Opened(r, i));
            && Has(root', p + [i])
            && Put(root', p + [i], b) == Put(root, p, Opened(r, i).(children := r.children[i := b]))
    ensures var root'' := Put(root, p, Opened(r, i).(children := r.children[i := b]));
            Has(root'', p) && Get(root'', p) == Opened(r, i).(children := r.children[i := b]) &&
              Put(root'', p, u) == Put(root, p, u)
  {
    GetPut(root, p, Opened(r, i), Opened(r, i).(children := r.children[i := b]));
    ChildOf(Put(root, p, Opened(r, i)), p, i, b);
    assert Opened(r, i).children[i := b] == r.children[i := b];
    GetPut(root, p, Opened(r, i).(children := r.children[i := b]), u);
  }

  /** What is left under the parent when the section's code, and then the section, has ended. */
  lemma EndsSection(r: Tracker, s: Section, i: nat, fuse: Fuse, at: Path)
    requires i < |r.children| && Consistent(r.children[i], s)
    ensures var b := RunBody(r.children[i].(state := Executing), s, 0, false, fuse, at);
            var o := RunSection(r.children[i], s, fuse, at);
            var v := Opened(r, i).(children := r.children[i := b.tracker]);
            && b.tracker.IsOpen() && o.thrown == b.thrown && o.fuse == b.fuse && (b.failed ==> b.thrown)
            && o.entered == (if s.body == [] then [at] else []) + b.entered
            && AfterSection(r, i, o.tracker) ==
               if b.thrown && !b.failed
               then v.(state := NeedsAnotherRun, children := v.children[i := b.tracker.(state := Failed)])
               else v.(children := v.children[i := Closed(b.tracker)])
  {
    SameChildren(r.children[i], s);
    BodyIsConsistent(r.children[i].(state := Executing), s, 0, false, fuse, at);
    hide RunBody, Consistent, ConsistentChildren, Midway;
    var b := RunBody(r.children[i].(state := Executing), s, 0, false, fuse, at);
    assert r.children[i := b.tracker][i := b.tracker.(state := Failed)] == r.children[i := b.tracker.(state := Failed)];
    assert r.children[i := b.tracker][i := Closed(b.tracker)] == r.children[i := Closed(b.tracker)];
  }

  /** One SECTION further, if nothing is thrown. */
  lemma NextSection(t: Tracker, s: Section, i: nat, done: bool, fuse: Fuse, at: Path, log: seq<Path>)
    returns (u: Tracker, o: Outcome)
    requires Midway(t, s, i, done) && i < |s.body| && fuse != Some(0)
    ensures var r := Registered(t, i, s.body[i].name);
            var b := Logged(log, RunBody(t, s, i, done, fuse, at));
            && o == RunSection(r.children[i], s.body[i], Burn(fuse), at + [i])
            && (if done || r.children[i].IsComplete()
                then u == r && Midway(u, s, i + 1, done) && b == Logged(log, RunBody(u, s, i + 1, done, Burn(fuse), at))
                else
                  && u == AfterSection(r, i, o.tracker)
                  && (if o.thrown then b == Outcome(u, true, o.fuse, true, true, log + o.entered)
                      else
                        && Midway(u, s, i + 1, true)
                        && b == Logged(log + o.entered, RunBody(u, s, i + 1, true, o.fuse, at))))
  {
    var r := Registered(t, i, s.body[i].name);
    RegisteredMidway(t, s, i, done);
    SkipsSection(t, s, i, done, fuse, at);
    o := RunSection(r.children[i], s.body[i], Burn(fuse), at + [i]);
    if done || r.children[i].IsComplete() {
      u := r;
    } else {
      OpensSection(r, s, i, fuse, at);
      u := AfterSection(r, i, o.tracker);
      SectionIsConsistent(r.children[i], s.body[i], Burn(fuse), at + [i]);
      AfterSectionMidway(r, s, i, o.tracker);
      if !o.thrown {
        hide RunBody, RunSection;
        var rest := RunBody(u, s, i + 1, true, o.fuse, at);
        assert log + (o.entered + rest.entered) == (log + o.entered) + rest.entered;
      }
    }
  }

  lemma InRange(t: Tracker, s: Section, i: nat, done: bool)
    requires Midway(t, s, i, done)
    ensures i <= |t.children|
  {
  }

  lemma ThrowsHere(t: Tracker, s: Section, i: nat, done: bool, at: Path)
    requires i <= |s.body| && i <= |t.children|
    ensures RunBody(t, s, i, done, Some(0), at) == Outcome(t, done, Some(0), true, false, [])
  {
  }

  function Logged(log: seq<Path>, o: Outcome): Outcome {
    o.(entered := log + o.entered)
  }

  class RunContext {
    var root: Tracker
    var current: Path
    var completedCycle: bool
    var activeSections: seq<Path>
    var unfinishedSections: nat

    // The program under test: when it throws, and the leaf sections it has been in.
    var fuse: Fuse
    var entered: seq<Path>

    constructor ()
      ensures activeSections == [] && unfinishedSections == 0 && entered == []
    {
      root, current, completedCycle := Fresh(NameAndLocation("{root}", "", 0)), [], false;
      activeSections, unfinishedSections, fuse, entered := [], 0, None, [];
    }

    // ----- TrackerContext and TrackerBase -----

    method SetState(p: Path, state: CycleState)
      requires Has(root, p)
      modifies this`root
      ensures root == Put(old(root), p, Get(old(root), p).(state := state))
    {
      root := Put(root, p, Get(root, p).(state := state));
    }

    method OpenChild(p: Path)
      requires Has(root, p)
      requires p == [] || Get(root, p).state == ExecutingChildren ||
               (Has(root, Parent(p)) && Get(root, Parent(p)).state == ExecutingChildren)
      modifies this`root
      ensures root == Put(old(root), p, Get(old(root), p).(state := ExecutingChildren))
      decreases |p|
    {
      var t := Get(root, p);
      if t.state != ExecutingChildren {
        SetState(p, ExecutingChildren);
        if p != [] {
          ParentKeepsState(old(root), p, t.(state := ExecutingChildren));
          GetPut(root, Parent(p), t, t);
          OpenChild(Parent(p));
        }
      } else {
        GetPut(root, p, t, t);
      }
    }

    /** open() on the i-th child of q. */
    method Open(q: Path, i: nat)
      requires Has(root, q) && i < |Get(root, q).children|
      requires q == [] || Get(root, q).state == ExecutingChildren ||
               (Has(root, Parent(q)) && Get(root, Parent(q)).state == ExecutingChildren)
      modifies this`root, this`current
      ensures root == Put(old(root), q, Opened(Get(old(root), q), i)) && current == q + [i]
    {
      var t := Get(root, q);
      var u := t.(children := t.children[i := t.children[i].(state := Executing)]);
      ChildOf(root, q, i, t.children[i].(state := Executing));
      SetState(q + [i], Executing);
      GetPut(old(root), q, u, Opened(t, i));
      if q != [] {
        ParentKeepsState(old(root), q, u);
      }
      current := q + [i];
      OpenChild(q);
    }

    /** SectionTracker::acquire on the current tracker. */
    method Acquire(name: NameAndLocation) returns (p: Path)
      requires Has(root, current)
      requires current == [] || Get(root, current).state == ExecutingChildren ||
               (Has(root, Parent(current)) && Get(root, Parent(current)).state == ExecutingChildren)
      modifies this`root, this`current
      ensures var t := Get(old(root), old(current));
              var i := Find(t.children, name);
              var r := Registered(t, i, name);
              && p == old(current) + [i]
              && (if completedCycle || r.children[i].IsComplete()
                  then root == Put(old(root), old(current), r) && current == old(current)
                  else root == Put(old(root), old(current), Opened(r, i)) && current == p)
    {
      var q, t := current, Get(root, current);
      var i := Find(t.children, name);
      var r := Registered(t, i, name);
      GetPut(root, q, r, t);
      if i == |t.children| {
        root := Put(root, q, t.(children := t.children + [Fresh(name)]));
      }
      p := q + [i];
      assert root == Put(old(root), q, r);
      if q != [] {
        ParentKeepsState(old(root), q, r);
      }
      if !completedCycle && !Get(root, q).children[i].IsComplete() {
        Open(q, i);
        GetPut(old(root), q, r, Opened(r, i));
      }
    }

    /** close() on the current tracker; false stands for the internal error "Illogical state". Only
        sections are tracked here, so that no tracker below p is still open. */
    method Close(q: Path, i: nat) returns (ok: bool)
      requires Has(root, q) && i < |Get(root, q).children| && current == q + [i]
      modifies this`root, this`current, this`completedCycle
      ensures var t := Get(old(root), q);
              ok == t.children[i].IsOpen() &&
              (ok ==> root == Put(old(root), q, t.(children := t.children[i := Closed(t.children[i])])) &&
                      current == q && completedCycle)
    {
      var t := Get(root, q).children[i];
      ChildOf(root, q, i, Closed(t));
      match t.state {
        case NeedsAnotherRun =>
          GetPut(root, q + [i], t, t);
        case Executing =>
          SetState(q + [i], CompletedSuccessfully);
        case ExecutingChildren =>
          GetPut(root, q + [i], t, t);
          if t.children == [] || t.children[|t.children| - 1].IsComplete() {
            SetState(q + [i], CompletedSuccessfully);
          }
        case NotStarted => return false;
        case CompletedSuccessfully => return false;
        case Failed => return false;
      }
      current := q;
      completedCycle := true;
      ok := true;
    }

    /** fail() on the i-th child of q. */
    method Fail(q: Path, i: nat)
      requires Has(root, q) && i < |Get(root, q).children|
      modifies this`root, this`current, this`completedCycle
      ensures var t := Get(old(root), q);
              root == Put(old(root), q,
                          t.(state := NeedsAnotherRun, children := t.children[i := t.children[i].(state := Failed)]))
      ensures current == q && completedCycle
    {
      var t := Get(root, q);
      var c := t.children[i].(state := Failed);
      var u := t.(children := t.children[i := c]);
      ChildOf(root, q, i, c);
      SetState(q + [i], Failed);
      GetPut(old(root), q, u, u.(state := NeedsAnotherRun));
      SetState(q, NeedsAnotherRun);
      current := q;
      completedCycle := true;
    }

    // ----- RunContext -----

    method SectionStarted(name: NameAndLocation) returns (included: bool)
      requires Has(root, current)
      requires current == [] || Get(root, current).state == ExecutingChildren ||
               (Has(root, Parent(current)) && Get(root, Parent(current)).state == ExecutingChildren)
      modifies this`root, this`current, this`activeSections
      ensures var t := Get(old(root), old(current));
              var i := Find(t.children, name);
              var r := Registered(t, i, name);
              var opens := !completedCycle && !r.children[i].IsComplete();
              && included == (opens || r.children[i].IsOpen())
              && activeSections == old(activeSections) + (if included then [old(current) + [i]] else [])
              && (if opens then root == Put(old(root), old(current), Opened(r, i)) && current == old(current) + [i]
                  else root == Put(old(root), old(current), r) && current == old(current))
    {
      hide Get, Put, Has;
      ghost var q := current;
      ghost var t := Get(root, q);
      ghost var i := Find(t.children, name);
      ghost var r := Registered(t, i, name);
      var p := Acquire(name);
      GetPut(old(root), q, r, r);
      GetPut(old(root), q, Opened(r, i), r);
      ChildOf(root, q, i, r);
      if !Get(root, p).IsOpen() {
        return false;
      }
      activeSections := activeSections + [p];
      included := true;
    }

    method SectionEnded(ghost q: Path, ghost i: nat) returns (ok: bool)
      requires activeSections != [] ==>
                 activeSections[|activeSections| - 1] == q + [i] &&
                 Has(root, q) && i < |Get(root, q).children| && current == q + [i]
      modifies this`root, this`current, this`completedCycle, this`activeSections
      ensures old(activeSections) == [] ==>
                ok && root == old(root) && current == old(current) && completedCycle == old(completedCycle) &&
                  activeSections == []
      ensures old(activeSections) != [] ==>
                var t := Get(old(root), q);
                ok == t.children[i].IsOpen() &&
                (ok ==> root == Put(old(root), q, t.(children := t.children[i := Closed(t.children[i])])) &&
                        current == q && completedCycle &&
                          activeSections == old(activeSections)[..|old(activeSections)| - 1])
    {
      ok := true;
      if activeSections != [] {
        var p := activeSections[|activeSections| - 1];
        assert p[..|p| - 1] == q && p[|p| - 1] == i;
        ok := Close(p[..|p| - 1], p[|p| - 1]);
        if ok {
          activeSections := activeSections[..|activeSections| - 1];
        }
      }
    }

    method SectionEndedEarly(ghost q: Path, ghost i: nat) returns (ok: bool)
      requires activeSections != [] && activeSections[|activeSections| - 1] == q + [i]
      requires Has(root, q) && i < |Get(root, q).children| && current == q + [i]
      modifies this`root, this`current, this`completedCycle, this`activeSections, this`unfinishedSections
      ensures var t := Get(old(root), q);
              && ok == (old(unfinishedSections) == 0 || t.children[i].IsOpen())
              && (ok ==>
                    && current == q && completedCycle && unfinishedSections == old(unfinishedSections) + 1
                    && activeSections == old(activeSections)[..|old(activeSections)| - 1]
                    && root == Put(old(root), q,
                                   if old(unfinishedSections) == 0
                                   then t.(state := NeedsAnotherRun,
                                           children := t.children[i := t.children[i].(state := Failed)])
                                   else t.(children := t.children[i := Closed(t.children[i])])))
    {
      var p := activeSections[|activeSections| - 1];
      assert p[..|p| - 1] == q && p[|p| - 1] == i;
      ok := true;
      if unfinishedSections == 0 {
        Fail(p[..|p| - 1], p[|p| - 1]);
      } else {
        ok := Close(p[..|p| - 1], p[|p| - 1]);
      }
      if ok {
        activeSections := activeSections[..|activeSections| - 1];
        unfinishedSections := unfinishedSections + 1;
      }
    }

    // ----- The program under test -----

    /** The code of section s is about to reach its i-th SECTION, under the tracker at p. */
    ghost predicate InBody(s: Section, p: Path, i: nat)
      reads this
    {
      && p != [] && Has(root, p) && current == p
      && Has(root, Parent(p)) && Get(root, Parent(p)).state == ExecutingChildren
      && Midway(Get(root, p), s, i, completedCycle)
      && Distinct(s) && unfinishedSections == 0
    }

    /** The i-th SECTION of s: an object that starts the section, the code in its scope, and the
        destructor that ends it. */
    method ExecuteSection(s: Section, p: Path, i: nat) returns (thrown: bool, ok: bool)
      requires InBody(s, p, i) && i < |s.body|
      modifies this
      ensures var r := Registered(old(Get(root, p)), i, s.body[i].name);
              var o := RunSection(r.children[i], s.body[i], old(fuse), p[1..] + [i]);
              && ok && current == p && activeSections == old(activeSections)
              && (if old(completedCycle) || r.children[i].IsComplete()
                  then
                    && !thrown && root == Put(old(root), p, r) && completedCycle == old(completedCycle)
                    && fuse == old(fuse) && entered == old(entered) && unfinishedSections == 0
                  else
                    && thrown == o.thrown && root == Put(old(root), p, AfterSection(r, i, o.tracker)) && completedCycle
                    && fuse == o.fuse && entered == old(entered) + o.entered && (unfinishedSections > 0 <==> thrown))
      decreases s, 0, 1
    {
      hide Get, Put, Has, RunSection;
      ghost var t, active := Get(root, p), activeSections;
      ghost var r := Registered(t, i, s.body[i].name);
      RegisteredMidway(t, s, i, completedCycle);
      FindsSection(t, s, i);
      var included := SectionStarted(s.body[i].name);
      thrown, ok := false, true;
      if included {
        assert Consistent(r.children[i], s.body[i]);
        EnterSection(old(root), p, s, i, r);
        hide Midway, Consistent, ConsistentChildren, Distinct;
        thrown, ok := ExecuteOpened(s.body[i], p, i, old(root), r);
      }
      assert activeSections == active;
    }

    /** The scope of a section that has been opened. */
    method ExecuteOpened(s: Section, p: Path, i: nat, ghost was: Tracker, ghost r: Tracker)
      returns (thrown: bool, ok: bool)
      requires p != [] && Has(was, p) && i < |r.children| && Consistent(r.children[i], s)
      requires root == Put(was, p, Opened(r, i)) && (p + [i])[1..] == p[1..] + [i]
      requires InBody(s, p + [i], 0) && Get(root, p + [i]) == r.children[i].(state := Executing) && !completedCycle
      requires activeSections != [] && activeSections[|activeSections| - 1] == p + [i]
      modifies this
      ensures var o := RunSection(r.children[i], s, old(fuse), p[1..] + [i]);
              && ok && current == p && activeSections == old(activeSections)[..|old(activeSections)| - 1]
              && thrown == o.thrown && root == Put(was, p, AfterSection(r, i, o.tracker)) && completedCycle
              && fuse == o.fuse && entered == old(entered) + o.entered && (unfinishedSections > 0 <==> thrown)
      decreases s, 2
    {
      hide RunBody, RunSection, Midway, Consistent, ConsistentChildren, Distinct, Get, Put, Has;
      ghost var c, at, log := r.children[i], p[1..] + [i], entered;
      EndsSection(r, s, i, fuse, at);
      ghost var b := RunBody(c.(state := Executing), s, 0, false, fuse, at);
      ghost var o := RunSection(c, s, fuse, at);
      LeaveSection(was, p, i, r, b.tracker, AfterSection(r, i, o.tracker));
      if s.body == [] {
        entered := entered + [p[1..] + [i]];
      }
      assert entered == log + if s.body == [] then [at] else [];
      thrown, ok := ExecuteBody(s, p + [i]);
      assert entered == log + o.entered;
      if thrown {
        ok := SectionEndedEarly(p, i);
      } else {
        ok := SectionEnded(p, i);
      }
    }

    method ExecuteBody(s: Section, p: Path) returns (thrown: bool, ok: bool)
      requires InBody(s, p, 0) && !completedCycle
      modifies this
      ensures var o := RunBody(old(Get(root, p)), s, 0, false, old(fuse), p[1..]);
              && ok && thrown == o.thrown && root == Put(old(root), p, o.tracker) && current == p
              && completedCycle == o.done && fuse == o.fuse && activeSections == old(activeSections)
              && (unfinishedSections > 0 <==> o.failed) && entered == old(entered) + o.entered
      decreases s, 1
    {
      hide Get, Put, Has, RunBody, RunSection, Midway, Distinct;
      ghost var t0, at, active, before := Get(root, p), p[1..], activeSections, entered;
      ghost var total := RunBody(t0, s, 0, false, fuse, at);
      GetPut(root, p, t0, t0);
      ghost var log: seq<Path> := [];
      assert [] + total.entered == total.entered;
      for i := 0 to |s.body|
        invariant InBody(s, p, i)
        invariant root == Put(old(root), p, Get(root, p))
        invariant activeSections == active && entered == before + log
        invariant i <= |Get(root, p).children|
        invariant total == Logged(log, RunBody(Get(root, p), s, i, completedCycle, fuse, at))
      {
        InRange(Get(root, p), s, i, completedCycle);
        if fuse == Some(0) {
          ThrowsHere(Get(root, p), s, i, completedCycle, at);
          return true, true;
        }
        ghost var root1, t, done := root, Get(root, p), completedCycle;
        ghost var u, o := NextSection(t, s, i, done, fuse, at, log);
        fuse := Burn(fuse);
        thrown, ok := ExecuteSection(s, p, i);
        GetPut(old(root), p, t, u);
        if !done && !Registered(t, i, s.body[i].name).children[i].IsComplete() {
          log := log + o.entered;
        }
        if thrown {
          return;
        }
        GetPut(root1, p, u, u);
        ParentKeepsState(root1, p, u);
      }
      InRange(Get(root, p), s, |s.body|, completedCycle);
      ThrowsHere(Get(root, p), s, |s.body|, completedCycle, at);
      thrown, ok := fuse == Some(0), true;
      if !thrown {
        SkipsSection(Get(root, p), s, |s.body|, completedCycle, fuse, at);
        fuse := Burn(fuse);
      }
    }

    // ----- Cycles -----

    /** handleUnfinishedSections: all sections have been ended on the way up, so that nothing is closed. */
    method HandleUnfinishedSections() returns (ok: bool)
      requires activeSections == []
      modifies this
      ensures ok && unfinishedSections == 0 && root == old(root) && current == old(current) &&
              completedCycle == old(completedCycle)
      ensures activeSections == [] && fuse == old(fuse) && entered == old(entered)
    {
      ok := true;
      for k := 0 to unfinishedSections
        invariant ok && root == old(root) && current == old(current) && completedCycle == old(completedCycle)
        invariant activeSections == [] && fuse == old(fuse) && entered == old(entered)
      {
        ok := SectionEnded([], 0);
      }
      unfinishedSections := 0;
    }

    /** Between cycles: at most one test case under the root, and nothing open. */
    ghost predicate Idle(s: Section)
      reads this
    {
      && |root.children| <= 1 && activeSections == [] && unfinishedSections == 0
      && Consistent(TestCase(s), s) && Distinct(s)
    }

    ghost function TestCase(s: Section): Tracker
      reads this
    {
      if root.children == [] then Fresh(s.name) else root.children[0]
    }

    /** startCycle, and acquiring the test case's tracker. */
    method StartCycle(s: Section)
      requires Idle(s) && !TestCase(s).IsComplete()
      modifies this`root, this`current, this`completedCycle
      ensures root == Opened(Registered(old(root), 0, s.name), 0) && current == [0] && !completedCycle
    {
      ghost var r := Registered(root, 0, s.name);
      StartsCycle(root, s, TestCase(s), None);
      hide Consistent, Distinct, Get, Put, Has, Registered;
      AtRoot(root, Opened(r, 0));
      current := [];
      completedCycle := false;
      var _ := Acquire(s.name);
    }

    /** invokeActiveTestCase: the code of the test case, up to an exception or its end. */
    method InvokeTest(s: Section, ghost t: Tracker)
      requires InBody(s, [0], 0) && !completedCycle && activeSections == [] && root.children == [t]
      modifies this
      ensures var b := RunBody(t, s, 0, false, old(fuse), []);
              && root.children == [b.tracker] && current == [0] && activeSections == []
              && entered == old(entered) + ((if s.body == [] then [[]] else []) + b.entered)
    {
      ghost var log, b := entered, RunBody(t, s, 0, false, fuse, []);
      OnlyChild(root, t, b.tracker);
      hide RunBody, Midway, Distinct, Get, Put, Has;
      if s.body == [] {
        entered := entered + [[]];
      }
      ghost var first: seq<Path> := if s.body == [] then [[]] else [];
      assert entered == log + first;
      var _, _ := ExecuteBody(s, [0]);
      assert (log + first) + b.entered == log + (first + b.entered);
    }

    /** The test case's tracker is closed however its code ended. */
    method CloseTest(ghost t: Tracker) returns (ok: bool)
      requires root.children == [t] && current == [0] && t.IsOpen() && activeSections == []
      modifies this
      ensures ok && root.children == [Closed(t)] && activeSections == [] && unfinishedSections == 0 &&
              entered == old(entered)
    {
      hide Closed;
      AtRoot(root, root.(children := [Closed(t)]));
      hide Get, Put, Has;
      assert [t][0 := Closed(t)] == [Closed(t)] && [] + [0] == [0];
      ok := Close([], 0);
      ok := HandleUnfinishedSections();
    }

    /** One cycle. */
    method RunCurrentTest(s: Section, fault: Fuse) returns (ok: bool)
      requires Idle(s) && !TestCase(s).IsComplete()
      modifies this
      ensures var o := RunCycle(old(TestCase(s)), s, fault);
              ok && Idle(s) && |root.children| == 1 && TestCase(s) == o.tracker && entered == old(entered) + o.entered
    {
      hide RunBody, Consistent, Distinct, Midway, Closed;
      ghost var t := TestCase(s);
      StartsCycle(root, s, t, fault);
      CycleIsConsistent(t, s, fault);
      StartCycle(s);
      fuse := fault;
      InvokeTest(s, t.(state := Executing));
      ok := CloseTest(RunBody(t.(state := Executing), s, 0, false, fault, []).tracker);
    }

    /** runTest, for any faults in any cycles. */
    method RunTest(s: Section, faults: nat -> Fuse) returns (cycles: nat, ok: bool)
      requires Distinct(s) && activeSections == [] && unfinishedSections == 0 && entered == []
      modifies this
      ensures ok && Run(entered, cycles) == WholeRun(s, faults)
    {
      assert Consistent(Fresh(s.name), s);
      hide RunCycle, RunFrom, Distinct, Consistent;
      root, current, completedCycle := Fresh(NameAndLocation("{root}", "", 0)), [], false;
      cycles := 0;
      ghost var total := WholeRun(s, faults);
      assert [] + total.entered == total.entered;
      while true
        invariant Idle(s) && !TestCase(s).IsComplete()
        invariant total == Continued(entered, cycles, RunFrom(TestCase(s), s, faults, cycles))
        decreases Work(TestCase(s), s)
      {
        ghost var t, log := TestCase(s), entered;
        CycleIsConsistent(t, s, faults(cycles));
        CycleWorks(t, s, faults(cycles));
        NextCycle(t, s, faults, cycles, log);
        ok := RunCurrentTest(s, faults(cycles));
        cycles := cycles + 1;
        if root.children[0].state == CompletedSuccessfully {
          break;
        }
      }
    }
  }

  function Continued(log: seq<Path>, cycles: nat, r: Run): Run {
    Run(log + r.entered, cycles + r.cycles)
  }

  lemma NextCycle(t: Tracker, s: Section, faults: nat -> Fuse, n: nat, log: seq<Path>)
    requires Consistent(t, s) && !t.IsComplete()
    ensures var o := RunCycle(t, s, faults(n));
            && Consistent(o.tracker, s)
            && (o.tracker.state == CompletedSuccessfully ==>
                  Continued(log, n, RunFrom(t, s, faults, n)) == Run(log + o.entered, n + 1))
            && (o.tracker.state != CompletedSuccessfully ==>
                  !o.tracker.IsComplete() &&
                  Continued(log, n, RunFrom(t, s, faults, n)) ==
                  Continued(log + o.entered, n + 1, RunFrom(o.tracker, s, faults, n + 1)))
  {
    var o := RunCycle(t, s, faults(n));
    CycleIsConsistent(t, s, faults(n));
    hide RunCycle, Consistent;
    if o.tracker.state != CompletedSuccessfully {
      var r := RunFrom(o.tracker, s, faults, n + 1);
      assert log + (o.entered + r.entered) == (log + o.entered) + r.entered;
    }
  }

  lemma OnlyChild(root: Tracker, t: Tracker, u: Tracker)
    requires root.children == [t]
    ensures Has(root, [0]) && Get(root, [0]) == t && Put(root, [0], u) == root.(children := [u])
  {
  }

  lemma AtRoot(root: Tracker, u: Tracker)
    ensures Has(root, []) && Get(root, []) == root && Put(root, [], u) == u
  {
  }

  /** The test case's tracker, acquired and opened under the root. */
  lemma StartsCycle(root: Tracker, s: Section, t: Tracker, fault: Fuse)
    requires |root.children| <= 1 && t == (if root.children == [] then Fresh(s.name) else root.children[0])
    requires Consistent(t, s)
    ensures Find(root.children, s.name) == 0 && Registered(root, 0, s.name).children == [t]
    ensures var root' := Opened(Registered(root, 0, s.name), 0);
            && root'.children == [t.(state := Executing)] && root'.state == ExecutingChildren
            && Has(root', [0]) && Get(root', [0]) == t.(state := Executing) && Get(root', Parent([0])) == root'
            && Midway(t.(state := Executing), s, 0, false)
            && var b := RunBody(t.(state := Executing), s, 0, false, fault, []);
               b.tracker.IsOpen() && Put(root', [0], b.tracker) == root'.(children := [b.tracker])
  {
    SameChildren(t, s);
    BodyIsConsistent(t.(state := Executing), s, 0, false, fault, []);
    hide RunBody, Consistent, Midway;
  }
}
