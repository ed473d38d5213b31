/** Over every run of ScheduleModel: one backup run at a time, and no run on the
    day a schedule was created too late. */
module ScheduleSafety {
  import opened Wrappers
  import opened ScheduleModel

  // ---------- the store ----------

  ghost predicate DistinctIds(list: seq<Schedule>) {
    forall i, j | 0 <= i < j < |list| :: list[i].id != list[j].id
  }

  lemma {:induction false} FindFinds(list: seq<Schedule>, id: nat)
    ensures Find(list, id).Some? ==> Find(list, id).value in list && Find(list, id).value.id == id
    ensures Find(list, id).None? <==> forall s | s in list :: s.id != id
  {
    if list != [] {
      FindFinds(list[1..], id);
      assert list == [list[0]] + list[1..];
    }
  }

  lemma {:induction false} FindIsUnique(list: seq<Schedule>, s: Schedule)
    requires DistinctIds(list) && s in list
    ensures Find(list, s.id) == Some(s)
  {
    if list[0] != s {
      var i :| 0 <= i < |list| && list[i] == s;
      assert s in list[1..];
      FindIsUnique(list[1..], s);
    }
  }

  lemma {:induction false} ReplaceReplaces(list: seq<Schedule>, sch: Schedule)
    requires DistinctIds(list)
    ensures DistinctIds(Replace(list, sch)) && |Replace(list, sch)| == |list|
    ensures forall i | 0 <= i < |list| :: Replace(list, sch)[i] == if list[i].id == sch.id then sch else list[i]
  {
    if list != [] {
      ReplaceReplaces(list[1..], sch);
    }
  }

  lemma {:induction false} WithoutHas(list: seq<Schedule>, id: nat, s: Schedule)
    requires DistinctIds(list)
    ensures s in Without(list, id) <==> s in list && s.id != id
  {
    if list != [] {
      var rest := list[1..];
      assert list == [list[0]] + rest;
      WithoutHas(rest, id, s);
      assert s in rest ==> s.id != list[0].id;
    }
  }

  lemma {:induction false} WithoutRemoves(list: seq<Schedule>, id: nat)
    requires DistinctIds(list)
    ensures DistinctIds(Without(list, id))
    ensures forall s :: s in Without(list, id) <==> s in list && s.id != id
  {
    forall s ensures s in Without(list, id) <==> s in list && s.id != id {
      WithoutHas(list, id, s);
    }
    if list != [] {
      WithoutRemoves(list[1..], id);
      var rest := Without(list[1..], id);
      forall i | 0 <= i < |rest| ensures rest[i].id != list[0].id {
        WithoutHas(list[1..], id, rest[i]);
      }
    }
  }

  // ---------- every run ----------

  /** Created after its run time of that day. */
  predicate Late(b: Schedule) {
    TimeOk(b.time) && Occurrence(b.time, b.createdAt) < b.createdAt
  }

  predicate NotRunOnFirstDay(s: State, id: nat, at: nat) {
    id in s.born && id !in s.retimed && Late(s.born[id]) ==> DayOf(s.born[id].createdAt) < DayOf(at)
  }

  /** What any copy of a schedule agrees on with the schedule as created. */
  predicate CopyOk(s: State, c: Schedule) {
    && c.id in s.born && c.createdAt == s.born[c.id].createdAt <= s.clock
    && TimeOk(c.time) && TimeOk(s.born[c.id].time)
    && (c.lastRun.Some? ==> c.lastRun.value <= s.clock && NotRunOnFirstDay(s, c.id, c.lastRun.value))
    && (c.id !in s.retimed ==> c.time == s.born[c.id].time)
  }

  predicate RunOk(s: State, r: Run) {
    && CopyOk(s, r.sch) && r.sch.createdAt <= r.now <= s.clock
    && Occurrence(r.sch.time, r.now) <= r.now
    && NotRunOnFirstDay(s, r.sch.id, r.now)
  }

  ghost predicate Shape(s: State) {
    && |s.active| <= 1 && (s.locked <==> |s.active| == 1)
    && DistinctIds(s.list)
    && (forall c | c in s.list :: CopyOk(s, c))
    && (forall q | q in s.edits :: CopyOk(s, s.edits[q]))
    && (s.scan.Some? ==> s.scan.value.now <= s.clock
                         && forall c | c in s.scan.value.todo :: CopyOk(s, c) && c.createdAt <= s.scan.value.now)
    && (forall r | r in s.active :: RunOk(s, r))
    && (forall r | r in s.started :: r.sch.id in s.born && NotRunOnFirstDay(s, r.sch.id, r.now))
  }

  lemma DayIsMonotone(a: nat, b: nat)
    requires a <= b
    ensures DayOf(a) <= DayOf(b)
  {
  }

  /** A due schedule that was created too late is due on a later day. */
  lemma DueOnLaterDay(s: State, c: Schedule, now: nat)
    requires CopyOk(s, c) && c.createdAt <= now && Due(c, now)
    ensures NotRunOnFirstDay(s, c.id, now)
  {
    DayIsMonotone(c.createdAt, now);
    if c.lastRun.Some? {
      DayIsMonotone(c.lastRun.value, now);
    }
  }

  /** Copies stay good as the clock goes on and more is remembered. */
  lemma CopiesCarry(s: State, t: State)
    requires Shape(s) && s.clock <= t.clock && s.retimed <= t.retimed
    requires forall id | id in s.born :: id in t.born && t.born[id] == s.born[id]
    ensures forall c | CopyOk(s, c) :: CopyOk(t, c)
    ensures forall r | RunOk(s, r) :: RunOk(t, r)
    ensures forall r | r in s.started :: r.sch.id in t.born && NotRunOnFirstDay(t, r.sch.id, r.now)
  {
  }

  lemma CreateKeepsShape(s: State, sch: Schedule)
    requires Shape(s) && Admissible(s, Create(sch))
    ensures Shape(Step(s, Create(sch)))
  {
    CopiesCarry(s, Step(s, Create(sch)));
    forall c | c in s.list
      ensures c.id != sch.id
    {
      assert CopyOk(s, c);
    }
  }

  lemma WriteKeepsShape(s: State, request: nat, change: Change)
    requires Shape(s) && Admissible(s, UpdateWrites(request, change)) && request in s.edits
    ensures Shape(Step(s, UpdateWrites(request, change)))
  {
    var s' := Step(s, UpdateWrites(request, change));
    var sch := Apply(s.edits[request], change);
    assert CopyOk(s, s.edits[request]);
    CopiesCarry(s, s');
    assert CopyOk(s', sch);
    ReplaceReplaces(s.list, sch);
    forall c | c in s'.list
      ensures CopyOk(s', c)
    {
      var i :| 0 <= i < |s'.list| && s'.list[i] == c;
      assert s.list[i] in s.list;
    }
  }

  lemma TestKeepsShape(s: State)
    requires Shape(s) && s.scan.Some? && s.scan.value.todo != []
    ensures Shape(Step(s, TickNext))
  {
    var s' := Step(s, TickNext);
    var c := s.scan.value.todo[0];
    var now := s.scan.value.now;
    assert c in s.scan.value.todo && CopyOk(s, c);
    CopiesCarry(s, s');
    if c.enabled && Due(c, now) && !s.locked {
      DueOnLaterDay(s, c, now);
      assert RunOk(s, Run(c, now));
      assert s'.active == [Run(c, now)];
    }
  }

  lemma EndKeepsShape(s: State, k: nat, targetsFound: bool)
    requires Shape(s) && k < |s.active|
    ensures Shape(EndRun(s, k, targetsFound))
  {
    var s' := EndRun(s, k, targetsFound);
    var r := s.active[k];
    assert r in s.active && RunOk(s, r);
    assert s'.active == [];
    CopiesCarry(s, s');
    FindFinds(s.list, r.sch.id);
    if Find(s.list, r.sch.id).Some? && targetsFound {
      var marked := Find(s.list, r.sch.id).value.(lastRun := Some(r.now));
      assert CopyOk(s, Find(s.list, r.sch.id).value) && CopyOk(s', marked);
      ReplaceReplaces(s.list, marked);
      forall c | c in s'.list
        ensures CopyOk(s', c)
      {
        var i :| 0 <= i < |s'.list| && s'.list[i] == c;
        assert s.list[i] in s.list;
      }
    }
  }

  lemma ReadKeepsShape(s: State, request: nat, id: nat)
    requires Shape(s)
    ensures Shape(Step(s, UpdateReads(request, id)))
  {
    FindFinds(s.list, id);
    CopiesCarry(s, Step(s, UpdateReads(request, id)));
  }

  lemma RemoveKeepsShape(s: State, id: nat)
    requires Shape(s)
    ensures Shape(Step(s, Remove(id)))
  {
    WithoutRemoves(s.list, id);
    CopiesCarry(s, Step(s, Remove(id)));
  }

  lemma TickKeepsShape(s: State, now: nat)
    requires Shape(s) && s.clock <= now
    ensures Shape(Step(s, TickBegins(now)))
  {
    CopiesCarry(s, Step(s, TickBegins(now)));
    forall c | c in s.list
      ensures c.createdAt <= now
    {
      assert CopyOk(s, c);
    }
  }

  lemma NoStepKeepsShape(s: State, ev: Event)
    requires Shape(s)
    requires match ev
             case UpdateWrites(request, _) => request !in s.edits
             case TickNext => s.scan.None? || s.scan.value.todo == []
             case RunEnds(k, _) => k >= |s.active|
             case _ => false
    ensures Shape(Step(s, ev))
  {
    CopiesCarry(s, Step(s, ev));
  }

  lemma ShapeStep(s: State, ev: Event)
    requires Shape(s) && Admissible(s, ev)
    ensures Shape(Step(s, ev))
  {
    match ev
    case Create(sch) => CreateKeepsShape(s, sch);
    case UpdateReads(request, id) => ReadKeepsShape(s, request, id);
    case UpdateWrites(request, change) =>
      if request in s.edits {
        WriteKeepsShape(s, request, change);
      } else {
        NoStepKeepsShape(s, ev);
      }
    case Remove(id) => RemoveKeepsShape(s, id);
    case TickBegins(now) => TickKeepsShape(s, now);
    case TickNext =>
      if s.scan.Some? && s.scan.value.todo != [] {
        TestKeepsShape(s);
      } else {
        NoStepKeepsShape(s, ev);
      }
    case RunEnds(k, targetsFound) =>
      if k < |s.active| {
        EndKeepsShape(s, k, targetsFound);
        assert Step(s, ev) == EndRun(s, k, targetsFound);
      } else {
        NoStepKeepsShape(s, ev);
      }
  }

  lemma {:induction false} ShapeRun(s: State, evs: seq<Event>)
    requires Shape(s) && AdmissibleRun(s, evs)
    ensures Shape(Exec(s, evs))
    decreases |evs|
  {
    if evs != [] {
      ShapeStep(s, evs[0]);
      ShapeRun(Step(s, evs[0]), evs[1..]);
    }
  }

  /** Over every run, at most one backup run is in progress, exactly while the
      run lock is held; and a schedule created after its time of that day does
      not run that day unless its time is changed. */
  lemma OneRunAtATime(evs: seq<Event>)
    requires AdmissibleRun(EMPTY, evs)
    ensures var s := Exec(EMPTY, evs);
            && |s.active| <= 1 && (s.locked <==> s.active != [])
            && forall r | r in s.started ::
                 r.sch.id in s.born
                 && (r.sch.id !in s.retimed && Late(s.born[r.sch.id]) ==> DayOf(r.now) != DayOf(s.born[r.sch.id].createdAt))
  {
    ShapeRun(EMPTY, evs);
  }
}
