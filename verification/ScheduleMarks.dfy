/** What a schedule's last run says of the occurrences it has completed, and when
    one step of a tick starts the same occurrence again. */
module ScheduleMarks {
  import opened Wrappers
  import opened ScheduleModel
  import opened ScheduleSafety

  // ---------- marks ----------

  /** The last run of a schedule whose time never changed is the run of a
      completed occurrence. */
  predicate MarkOk(s: State, c: Schedule) {
    c.lastRun.Some? && c.id in s.born && c.id !in s.retimed ==>
      TimeOk(s.born[c.id].time)
      && Completion(c.id, Occurrence(s.born[c.id].time, c.lastRun.value)) in s.completed
  }

  /** No run came after the tick that is going on. */
  predicate MarkedByTick(s: State, c: Schedule) {
    s.scan.Some? && c.lastRun.Some? ==> c.lastRun.value <= s.scan.value.now
  }

  ghost predicate Marks(s: State) {
    && (forall c | c in s.list :: MarkOk(s, c) && MarkedByTick(s, c))
    && (forall q | q in s.edits :: MarkOk(s, s.edits[q]) && MarkedByTick(s, s.edits[q]))
    && (s.scan.Some? ==> forall r | r in s.active :: r.now <= s.scan.value.now)
  }

  lemma CreateKeepsMarks(s: State, sch: Schedule)
    requires Shape(s) && Marks(s) && Admissible(s, Create(sch))
    ensures Marks(Step(s, Create(sch)))
  {
    var s' := Step(s, Create(sch));
    forall c | c in s'.list ensures MarkOk(s', c) && MarkedByTick(s', c) {
      if c in s.list {
        assert CopyOk(s, c);
      }
    }
    forall q | q in s'.edits ensures MarkOk(s', s'.edits[q]) && MarkedByTick(s', s'.edits[q]) {
      assert CopyOk(s, s.edits[q]);
    }
  }

  lemma WriteKeepsMarks(s: State, request: nat, change: Change)
    requires Shape(s) && Marks(s) && request in s.edits
    ensures Marks(Step(s, UpdateWrites(request, change)))
  {
    var s' := Step(s, UpdateWrites(request, change));
    var sch := Apply(s.edits[request], change);
    ReplaceReplaces(s.list, sch);
    assert MarkOk(s', sch) && MarkedByTick(s', sch);
    forall c | c in s'.list ensures MarkOk(s', c) && MarkedByTick(s', c) {
      var i :| 0 <= i < |s'.list| && s'.list[i] == c;
      assert s.list[i] in s.list;
    }
  }

  /** The mark that a run leaves on its schedule. */
  lemma NewMarkIsOk(s: State, k: nat, cur: Schedule)
    requires Shape(s) && Marks(s) && k < |s.active|
    requires Find(s.list, s.active[k].sch.id) == Some(cur)
    ensures var marked := cur.(lastRun := Some(s.active[k].now));
            MarkOk(EndRun(s, k, true), marked) && MarkedByTick(EndRun(s, k, true), marked)
  {
    var r := s.active[k];
    assert r in s.active && RunOk(s, r);
    FindFinds(s.list, r.sch.id);
  }

  lemma OldMarksStay(s: State, k: nat, targetsFound: bool, c: Schedule)
    requires k < |s.active| && MarkOk(s, c) && MarkedByTick(s, c)
    ensures MarkOk(EndRun(s, k, targetsFound), c) && MarkedByTick(EndRun(s, k, targetsFound), c)
  {
  }

  lemma EndKeepsMarks(s: State, k: nat, targetsFound: bool)
    requires Shape(s) && Marks(s) && k < |s.active|
    ensures Marks(EndRun(s, k, targetsFound))
  {
    var s' := EndRun(s, k, targetsFound);
    var found := Find(s.list, s.active[k].sch.id);
    forall c | c in s'.list ensures MarkOk(s', c) && MarkedByTick(s', c) {
      if found.Some? && targetsFound && c == found.value.(lastRun := Some(s.active[k].now)) {
        NewMarkIsOk(s, k, found.value);
      } else {
        EndReplaces(s, k, targetsFound, c);
        OldMarksStay(s, k, targetsFound, c);
      }
    }
    forall q | q in s'.edits ensures MarkOk(s', s'.edits[q]) && MarkedByTick(s', s'.edits[q]) {
      OldMarksStay(s, k, targetsFound, s.edits[q]);
    }
  }

  lemma EndReplaces(s: State, k: nat, targetsFound: bool, c: Schedule)
    requires Shape(s) && k < |s.active| && c in EndRun(s, k, targetsFound).list
    requires var found := Find(s.list, s.active[k].sch.id);
             found.Some? && targetsFound ==> c != found.value.(lastRun := Some(s.active[k].now))
    ensures c in s.list
  {
    var found := Find(s.list, s.active[k].sch.id);
    if found.Some? && targetsFound {
      FindFinds(s.list, s.active[k].sch.id);
      ReplaceReplaces(s.list, found.value.(lastRun := Some(s.active[k].now)));
      var list := EndRun(s, k, targetsFound).list;
      var i :| 0 <= i < |list| && list[i] == c;
      assert s.list[i] in s.list;
    }
  }

  lemma TickKeepsMarks(s: State, now: nat)
    requires Shape(s) && Marks(s) && s.clock <= now
    ensures Marks(Step(s, TickBegins(now)))
  {
    var s' := Step(s, TickBegins(now));
    forall c | c in s'.list ensures MarkOk(s', c) && MarkedByTick(s', c) {
      assert CopyOk(s, c);
    }
    forall q | q in s'.edits ensures MarkOk(s', s'.edits[q]) && MarkedByTick(s', s'.edits[q]) {
      assert CopyOk(s, s.edits[q]);
    }
    forall r | r in s'.active ensures r.now <= now {
      assert RunOk(s, r);
    }
  }

  lemma ReadKeepsMarks(s: State, request: nat, id: nat)
    requires Marks(s)
    ensures Marks(Step(s, UpdateReads(request, id)))
  {
    FindFinds(s.list, id);
  }

  lemma RemoveKeepsMarks(s: State, id: nat)
    requires Shape(s) && Marks(s)
    ensures Marks(Step(s, Remove(id)))
  {
    WithoutRemoves(s.list, id);
  }

  lemma TestKeepsMarks(s: State)
    requires Marks(s)
    ensures Marks(Step(s, TickNext))
  {
  }

  lemma MarksStep(s: State, ev: Event)
    requires Shape(s) && Marks(s) && Admissible(s, ev)
    ensures Marks(Step(s, ev))
  {
    match ev
    case Create(sch) => CreateKeepsMarks(s, sch);
    case UpdateReads(request, id) => ReadKeepsMarks(s, request, id);
    case UpdateWrites(request, change) =>
      if request in s.edits {
        WriteKeepsMarks(s, request, change);
      }
    case Remove(id) => RemoveKeepsMarks(s, id);
    case TickBegins(now) => TickKeepsMarks(s, now);
    case TickNext => TestKeepsMarks(s);
    case RunEnds(k, targetsFound) =>
      if k < |s.active| {
        EndKeepsMarks(s, k, targetsFound);
      }
  }

  lemma {:induction false} MarksRun(s: State, evs: seq<Event>)
    requires Shape(s) && Marks(s) && AdmissibleRun(s, evs)
    ensures Marks(Exec(s, evs))
    decreases |evs|
  {
    if evs != [] {
      ShapeStep(s, evs[0]);
      MarksStep(s, evs[0]);
      MarksRun(Step(s, evs[0]), evs[1..]);
    }
  }
}
