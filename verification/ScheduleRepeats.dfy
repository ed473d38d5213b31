/** When a schedule completes a second run for the same date and run time: over
    whole runs, for one step of a tick, and for an update that writes an older
    copy back. */
module ScheduleRepeats {
  import opened Wrappers
  import opened ScheduleModel
  import opened ScheduleSafety
  import opened ScheduleMarks

  ghost predicate RunsOnce(cs: seq<Completion>, id: nat) {
    forall i, j | 0 <= i < j < |cs| && cs[i].id == id :: cs[i] != cs[j]
  }

  ghost predicate NoRepeats(cs: seq<Completion>) {
    forall i, j | 0 <= i < j < |cs| :: cs[i] != cs[j]
  }

  lemma RunsOnceForEach(cs: seq<Completion>)
    requires forall id: nat :: RunsOnce(cs, id)
    ensures NoRepeats(cs)
  {
    forall i, j | 0 <= i < j < |cs| ensures cs[i] != cs[j] {
      assert RunsOnce(cs, cs[i].id);
    }
  }

  // ---------- the latest mark ----------

  /** The latest mark of a schedule is that of its latest completed occurrence. */
  predicate LatestOk(s: State, id: nat)
    requires id in s.marks
  {
    && id in s.born && s.marks[id] <= s.clock
    && (s.scan.Some? ==> s.marks[id] <= s.scan.value.now)
    && (id !in s.retimed ==>
          TimeOk(s.born[id].time) && Completion(id, Occurrence(s.born[id].time, s.marks[id])) in s.completed)
  }

  predicate NotAhead(s: State, c: Schedule) {
    c.lastRun.Some? ==> c.id in s.marks && c.lastRun.value <= s.marks[c.id]
  }

  ghost predicate Recorded(s: State) {
    && (forall id | id in s.marks :: LatestOk(s, id))
    && (forall id, r | id in s.marks && r in s.active :: s.marks[id] <= r.now)
    && (forall c | c in s.completed :: c.id in s.marks && c.occ <= s.marks[c.id])
    && (forall c | c in s.list :: NotAhead(s, c))
    && (forall q | q in s.edits :: NotAhead(s, s.edits[q]))
  }

  lemma WriteKeepsRecorded(s: State, request: nat, change: Change)
    requires Shape(s) && Recorded(s) && request in s.edits
    ensures Recorded(Step(s, UpdateWrites(request, change)))
  {
    var (w, list) := (Apply(s.edits[request], change), Step(s, UpdateWrites(request, change)).list);
    ReplaceReplaces(s.list, w);
    assert NotAhead(s, s.edits[request]) && NotAhead(s, w);
    forall c | c in list ensures NotAhead(s, c) {
      var i :| 0 <= i < |list| && list[i] == c;
      assert s.list[i] in s.list;
    }
    WrittenIsRecorded(s, request, change);
  }

  lemma WrittenIsRecorded(s: State, request: nat, change: Change)
    requires Recorded(s) && request in s.edits
    requires forall c | c in Step(s, UpdateWrites(request, change)).list :: NotAhead(s, c)
    ensures Recorded(Step(s, UpdateWrites(request, change)))
  {
  }

  lemma CreateKeepsRecorded(s: State, sch: Schedule)
    requires Shape(s) && Recorded(s) && Admissible(s, Create(sch))
    ensures Recorded(Step(s, Create(sch)))
  {
  }

  lemma ReadKeepsRecorded(s: State, request: nat, id: nat)
    requires Recorded(s)
    ensures Recorded(Step(s, UpdateReads(request, id)))
  {
    FindFinds(s.list, id);
  }

  lemma RemoveKeepsRecorded(s: State, id: nat)
    requires Shape(s) && Recorded(s)
    ensures Recorded(Step(s, Remove(id)))
  {
    WithoutRemoves(s.list, id);
  }

  lemma TickKeepsRecorded(s: State, now: nat)
    requires Shape(s) && Recorded(s) && s.clock <= now
    ensures Recorded(Step(s, TickBegins(now)))
  {
  }

  /** A tick that moves on, with perhaps one more run in progress. */
  lemma MoveKeepsRecorded(s: State, s': State)
    requires Recorded(s) && s.scan.Some?
    requires s' == s.(scan := s'.scan, locked := s'.locked, active := s'.active, started := s'.started)
    requires s'.scan.Some? ==> s'.scan.value.now == s.scan.value.now
    requires forall r | r in s'.active :: r in s.active || r.now == s.scan.value.now
    ensures Recorded(s')
  {
    assert forall id | id in s.marks :: LatestOk(s, id);
  }

  lemma TestKeepsRecorded(s: State)
    requires Shape(s) && Recorded(s)
    ensures Recorded(Step(s, TickNext))
  {
    if s.scan.Some? {
      MoveKeepsRecorded(s, Step(s, TickNext));
    }
  }

  /** The mark a run leaves is the latest. */
  lemma NewLatestIsOk(s: State, k: nat)
    requires Shape(s) && Marks(s) && Recorded(s) && k < |s.active|
    ensures var s' := EndRun(s, k, true);
            && s'.active == []
            && (forall id | id in s'.marks :: LatestOk(s', id))
            && (forall c | c in s'.completed :: c.id in s'.marks && c.occ <= s'.marks[c.id])
            && (forall c | NotAhead(s, c) :: NotAhead(s', c))
  {
    var r := s.active[k];
    assert r in s.active && RunOk(s, r);
  }

  lemma EndKeepsRecorded(s: State, k: nat, targetsFound: bool)
    requires Shape(s) && Marks(s) && Recorded(s) && k < |s.active|
    ensures Recorded(EndRun(s, k, targetsFound))
  {
    var s' := EndRun(s, k, targetsFound);
    if targetsFound {
      NewLatestIsOk(s, k);
      var found := Find(s.list, s.active[k].sch.id);
      FindFinds(s.list, s.active[k].sch.id);
      forall c | c in s'.list ensures NotAhead(s', c) {
        if found.None? || c != found.value.(lastRun := Some(s.active[k].now)) {
          EndReplaces(s, k, targetsFound, c);
        }
      }
    }
  }

  lemma RecordedStep(s: State, ev: Event)
    requires Shape(s) && Marks(s) && Recorded(s) && Admissible(s, ev)
    ensures Recorded(Step(s, ev))
  {
    match ev
    case Create(sch) => CreateKeepsRecorded(s, sch);
    case UpdateReads(request, id) => ReadKeepsRecorded(s, request, id);
    case UpdateWrites(request, change) =>
      if request in s.edits {
        WriteKeepsRecorded(s, request, change);
      }
    case Remove(id) => RemoveKeepsRecorded(s, id);
    case TickBegins(now) => TickKeepsRecorded(s, now);
    case TickNext => TestKeepsRecorded(s);
    case RunEnds(k, targetsFound) =>
      if k < |s.active| {
        EndKeepsRecorded(s, k, targetsFound);
      }
  }

  /** The completed occurrences of a schedule whose time never changed are at that
      time. */
  ghost predicate OnTime(s: State) {
    forall c | c in s.completed && c.id in s.born && c.id !in s.retimed ::
      TimeOk(s.born[c.id].time) && c.occ == Occurrence(s.born[c.id].time, c.occ)
  }

  lemma OccurrenceIsOnTime(t: string, now: nat)
    requires TimeOk(t)
    ensures Occurrence(t, Occurrence(t, now)) == Occurrence(t, now)
  {
    assert Minutes(t) * 60 < DAY;
    assert DayOf(DayOf(now) * DAY + Minutes(t) * 60) == DayOf(now);
  }

  lemma EndKeepsOnTime(s: State, k: nat, targetsFound: bool)
    requires Shape(s) && OnTime(s) && k < |s.active|
    ensures OnTime(EndRun(s, k, targetsFound))
  {
    var r := s.active[k];
    assert r in s.active && RunOk(s, r);
    OccurrenceIsOnTime(r.sch.time, r.now);
  }

  lemma OnTimeStep(s: State, ev: Event)
    requires Shape(s) && Recorded(s) && OnTime(s) && Admissible(s, ev)
    ensures OnTime(Step(s, ev))
  {
    if ev.RunEnds? && ev.k < |s.active| {
      EndKeepsOnTime(s, ev.k, ev.targetsFound);
    } else {
      assert forall c | c in s.completed :: c.id in s.marks && LatestOk(s, c.id);
    }
  }

  /** What every run keeps. */
  ghost predicate Kept(s: State) {
    Shape(s) && Marks(s) && Recorded(s) && OnTime(s)
  }

  lemma KeptStep(s: State, ev: Event)
    requires Kept(s) && Admissible(s, ev)
    ensures Kept(Step(s, ev))
  {
    ShapeStep(s, ev);
    MarksStep(s, ev);
    RecordedStep(s, ev);
    OnTimeStep(s, ev);
  }

  lemma {:induction false} KeptRun(s: State, evs: seq<Event>)
    requires Kept(s) && AdmissibleRun(s, evs)
    ensures Kept(Exec(s, evs))
    decreases |evs|
  {
    if evs != [] {
      KeptStep(s, evs[0]);
      KeptRun(Step(s, evs[0]), evs[1..]);
    }
  }

  // ---------- repeats over whole runs ----------

  lemma SameDay(t: string, a: nat, now: nat)
    requires TimeOk(t) && Occurrence(t, now) <= a <= now
    ensures Occurrence(t, a) == Occurrence(t, now)
  {
    assert DayOf(now) * DAY <= a;
    assert DayOf(a) == DayOf(now) by {
      assert a / DAY <= now / DAY;
    }
  }

  /** An occurrence behind the latest mark is one completed before, if the time of
      the schedule never changed; any other is new. */
  lemma BehindIffCompleted(s: State, c: Schedule, now: nat)
    requires Kept(s) && CopyOk(s, c) && forall id | id in s.marks :: s.marks[id] <= now
    ensures Completion(c.id, Occurrence(c.time, now)) in s.completed ==> Behind(s, c, now)
    ensures c.id !in s.retimed && Behind(s, c, now) ==> Completion(c.id, Occurrence(c.time, now)) in s.completed
  {
    if c.id !in s.retimed && Behind(s, c, now) {
      assert LatestOk(s, c.id);
      SameDay(c.time, s.marks[c.id], now);
    }
  }

  lemma OneMore(cs: seq<Completion>, c: Completion)
    ensures forall id | id != c.id :: RunsOnce(cs + [c], id) <==> RunsOnce(cs, id)
    ensures RunsOnce(cs + [c], c.id) <==> RunsOnce(cs, c.id) && c !in cs
  {
    var more := cs + [c];
    forall id: nat ensures RunsOnce(more, id) ==> RunsOnce(cs, id) {
      if RunsOnce(more, id) {
        forall i, j | 0 <= i < j < |cs| && cs[i].id == id ensures cs[i] != cs[j] {
          assert more[i] != more[j];
        }
      }
    }
    if c in cs {
      var i :| 0 <= i < |cs| && cs[i] == c;
      assert more[i] == more[|cs|];
    }
  }

  lemma OnceStep(s: State, ev: Event, id: nat)
    requires Kept(s) && Admissible(s, ev)
    ensures RunsOnce(Step(s, ev).completed, id) ==> RunsOnce(s.completed, id)
    ensures RunsOnce(s.completed, id) && Advances(s, ev, id) ==> RunsOnce(Step(s, ev).completed, id)
    ensures id !in s.retimed && RunsOnce(Step(s, ev).completed, id) ==> Advances(s, ev, id)
    ensures s.retimed <= Step(s, ev).retimed
  {
    if ev.RunEnds? && ev.k < |s.active| && ev.targetsFound {
      var r := s.active[ev.k];
      assert r in s.active && RunOk(s, r);
      OneMore(s.completed, Completion(r.sch.id, Occurrence(r.sch.time, r.now)));
      BehindIffCompleted(s, r.sch, r.now);
    }
  }

  lemma {:induction false} OnceRun(s: State, evs: seq<Event>, id: nat)
    requires Kept(s) && AdmissibleRun(s, evs)
    ensures RunsOnce(Exec(s, evs).completed, id) ==> RunsOnce(s.completed, id)
    ensures RunsOnce(s.completed, id) && AdvancingRun(s, evs, id) ==> RunsOnce(Exec(s, evs).completed, id)
    ensures id !in Exec(s, evs).retimed && RunsOnce(Exec(s, evs).completed, id) ==> AdvancingRun(s, evs, id)
    ensures s.retimed <= Exec(s, evs).retimed
    decreases |evs|
  {
    if evs != [] {
      KeptStep(s, evs[0]);
      OnceStep(s, evs[0], id);
      OnceRun(Step(s, evs[0]), evs[1..], id);
    }
  }

  /** Over every run, a schedule completes at most one run for each date and run
      time if each of its completed runs was for an occurrence after the latest
      mark; and only if, unless its time was changed. */
  lemma AtMostOncePerOccurrence(evs: seq<Event>, id: nat)
    requires AdmissibleRun(EMPTY, evs)
    ensures AdvancingRun(EMPTY, evs, id) ==> RunsOnce(Exec(EMPTY, evs).completed, id)
    ensures id !in Exec(EMPTY, evs).retimed ==>
              (RunsOnce(Exec(EMPTY, evs).completed, id) <==> AdvancingRun(EMPTY, evs, id))
  {
    OnceRun(EMPTY, evs, id);
  }

  // ---------- runs in which the list keeps every mark ----------

  function Latest(s: State, id: nat): Option<nat> {
    if id in s.marks then Some(s.marks[id]) else None
  }

  /** The listed schedules carry their latest marks. */
  ghost predicate MarksListed(s: State) {
    forall c | c in s.list :: c.lastRun == Latest(s, c.id)
  }

  lemma WrittenIsLatest(s: State, copy: Schedule)
    requires DistinctIds(s.list) && MarksListed(s) && NotAhead(s, copy) && !LosesMark(s, copy)
    ensures Find(s.list, copy.id).Some? ==> copy.lastRun == Latest(s, copy.id)
  {
    FindFinds(s.list, copy.id);
  }

  lemma WriteKeepsListed(s: State, request: nat, change: Change)
    requires Kept(s) && MarksListed(s) && request in s.edits && !LosesMark(s, s.edits[request])
    ensures MarksListed(Step(s, UpdateWrites(request, change)))
  {
    var copy := s.edits[request];
    var (w, list) := (Apply(copy, change), Step(s, UpdateWrites(request, change)).list);
    assert NotAhead(s, copy);
    WrittenIsLatest(s, copy);
    ReplaceReplaces(s.list, w);
    forall i | 0 <= i < |list| ensures list[i].lastRun == Latest(s, list[i].id) {
      if s.list[i].id == copy.id {
        FindIsUnique(s.list, s.list[i]);
      } else {
        assert s.list[i] in s.list;
      }
    }
  }

  lemma MarkIsListed(list: seq<Schedule>, cur: Schedule, now: nat)
    requires DistinctIds(list) && cur in list
    ensures forall c | c in Replace(list, cur.(lastRun := Some(now))) ::
              if c.id == cur.id then c.lastRun == Some(now) else c in list
  {
    var list' := Replace(list, cur.(lastRun := Some(now)));
    ReplaceReplaces(list, cur.(lastRun := Some(now)));
    forall c | c in list' ensures if c.id == cur.id then c.lastRun == Some(now) else c in list {
      var i :| 0 <= i < |list'| && list'[i] == c;
      assert list[i] in list;
    }
  }

  lemma EndKeepsListed(s: State, k: nat, targetsFound: bool)
    requires Kept(s) && MarksListed(s) && k < |s.active|
    ensures MarksListed(EndRun(s, k, targetsFound))
  {
    if targetsFound {
      var r := s.active[k];
      var found := Find(s.list, r.sch.id);
      FindFinds(s.list, r.sch.id);
      if found.Some? {
        MarkIsListed(s.list, found.value, r.now);
      }
    }
  }

  lemma SameList(s: State, s': State)
    requires MarksListed(s) && s'.list == s.list && s'.marks == s.marks
    ensures MarksListed(s')
  {
  }

  lemma CreateKeepsListed(s: State, sch: Schedule)
    requires Recorded(s) && MarksListed(s) && Admissible(s, Create(sch))
    ensures MarksListed(Step(s, Create(sch)))
  {
  }

  lemma RemoveKeepsListed(s: State, id: nat)
    requires Shape(s) && MarksListed(s)
    ensures MarksListed(Step(s, Remove(id)))
  {
    WithoutRemoves(s.list, id);
  }

  lemma ListedStep(s: State, ev: Event)
    requires Kept(s) && MarksListed(s) && Admissible(s, ev) && KeepsMark(s, ev)
    ensures MarksListed(Step(s, ev))
  {
    match ev
    case Create(sch) => CreateKeepsListed(s, sch);
    case UpdateWrites(request, change) =>
      if request in s.edits {
        WriteKeepsListed(s, request, change);
      }
    case Remove(id) => RemoveKeepsListed(s, id);
    case RunEnds(k, targetsFound) =>
      if k < |s.active| {
        EndKeepsListed(s, k, targetsFound);
      }
    case _ => SameList(s, Step(s, ev));
  }

  lemma {:induction false} ListedRun(s: State, evs: seq<Event>)
    requires Kept(s) && MarksListed(s) && AdmissibleRun(s, evs) && KeepsMarksRun(s, evs)
    ensures MarksListed(Exec(s, evs))
    decreases |evs|
  {
    if evs != [] {
      KeptStep(s, evs[0]);
      ListedStep(s, evs[0]);
      ListedRun(Step(s, evs[0]), evs[1..]);
    }
  }

  /** With every mark in the list, the list tells which copies are behind. */
  lemma StaleIffBehind(s: State, c: Schedule, now: nat)
    requires Shape(s) && MarksListed(s) && Due(c, now)
    ensures Behind(s, c, now) ==> Stale(s, c, now)
    ensures Find(s.list, c.id).Some? ==> (Stale(s, c, now) <==> Behind(s, c, now))
  {
    FindFinds(s.list, c.id);
  }

  /** The list carries every mark, and the run in progress is not behind. */
  ghost predicate UpToDate(s: State) {
    MarksListed(s) && forall r | r in s.active :: !Behind(s, r.sch, r.now)
  }

  lemma FreshStep(s: State, ev: Event)
    requires Kept(s) && UpToDate(s) && Admissible(s, ev) && Fresh(s, ev)
    ensures UpToDate(Step(s, ev)) && forall id :: Advances(s, ev, id)
  {
    ListedStep(s, ev);
    if ev.TickNext? && s.scan.Some? && s.scan.value.todo != [] {
      var (c, now) := (s.scan.value.todo[0], s.scan.value.now);
      if Due(c, now) {
        StaleIffBehind(s, c, now);
      }
    }
  }

  /** No run completes an occurrence that is behind as long as no tick acts on a
      stale copy and no update loses a mark. */
  lemma {:induction false} FreshRunAdvances(s: State, evs: seq<Event>, id: nat)
    requires Kept(s) && UpToDate(s) && AdmissibleRun(s, evs) && FreshRun(s, evs)
    ensures UpToDate(Exec(s, evs)) && AdvancingRun(s, evs, id)
    decreases |evs|
  {
    if evs != [] {
      KeptStep(s, evs[0]);
      FreshStep(s, evs[0]);
      FreshRunAdvances(Step(s, evs[0]), evs[1..], id);
    }
  }

  // ---------- one step of a tick ----------

  /** The tick starts a run by the copy it looks at. */
  predicate Starts(s: State) {
    && s.scan.Some? && s.scan.value.todo != []
    && s.scan.value.todo[0].enabled && Due(s.scan.value.todo[0], s.scan.value.now) && !s.locked
  }

  /** What has been completed if the run then finds its targets. */
  function CompletedNext(s: State): seq<Completion> {
    Step(Step(s, TickNext), RunEnds(0, true)).completed
  }

  lemma RunsTwice(s: State, c: Schedule, now: nat)
    requires Kept(s) && Starts(s) && s.scan == Some(Scan(now, s.scan.value.todo)) && c == s.scan.value.todo[0]
    requires RunsOnce(s.completed, c.id)
    ensures Step(s, TickNext).active == [Run(c, now)]
    ensures !RunsOnce(CompletedNext(s), c.id) ==> Behind(s, c, now)
    ensures c.id !in s.retimed ==> (!RunsOnce(CompletedNext(s), c.id) <==> Behind(s, c, now))
  {
    assert c in s.scan.value.todo && CopyOk(s, c);
    BehindIffCompleted(s, c, now);
    OneMore(s.completed, Completion(c.id, Occurrence(c.time, now)));
  }

  /** Over every run without repeats so far, marks lost and schedules deleted
      included: the step of a tick that starts a schedule leads to a second
      completion of the same occurrence if and only if that is behind the latest
      mark; if the time of the schedule was changed, only if. */
  lemma RepeatsIffBehind(evs: seq<Event>)
    requires AdmissibleRun(EMPTY, evs) && Starts(Exec(EMPTY, evs))
    requires RunsOnce(Exec(EMPTY, evs).completed, Exec(EMPTY, evs).scan.value.todo[0].id)
    ensures var s := Exec(EMPTY, evs);
            var (c, now) := (s.scan.value.todo[0], s.scan.value.now);
            && Step(s, TickNext).active == [Run(c, now)]
            && (!RunsOnce(CompletedNext(s), c.id) ==> Behind(s, c, now))
            && (c.id !in s.retimed ==> (!RunsOnce(CompletedNext(s), c.id) <==> Behind(s, c, now)))
  {
    var s := Exec(EMPTY, evs);
    KeptRun(EMPTY, evs);
    RunsTwice(s, s.scan.value.todo[0], s.scan.value.now);
  }

  /** As long as no update has lost a mark, the list tells: the step leads to a
      repeat only if its copy is stale, and for a listed schedule whose time was
      never changed, whenever it is. */
  lemma RepeatsIffStale(evs: seq<Event>)
    requires AdmissibleRun(EMPTY, evs) && KeepsMarksRun(EMPTY, evs) && Starts(Exec(EMPTY, evs))
    requires RunsOnce(Exec(EMPTY, evs).completed, Exec(EMPTY, evs).scan.value.todo[0].id)
    ensures var s := Exec(EMPTY, evs);
            var (c, now) := (s.scan.value.todo[0], s.scan.value.now);
            && (!RunsOnce(CompletedNext(s), c.id) ==> Stale(s, c, now))
            && (Find(s.list, c.id).Some? && c.id !in s.retimed ==>
                  (!RunsOnce(CompletedNext(s), c.id) <==> Stale(s, c, now)))
  {
    var s := Exec(EMPTY, evs);
    KeptRun(EMPTY, evs);
    ListedRun(EMPTY, evs);
    RepeatsIffBehind(evs);
    StaleIffBehind(s, s.scan.value.todo[0], s.scan.value.now);
  }

  // ---------- an update that writes a copy back ----------

  function Nexts(n: nat): seq<Event> {
    if n == 0 then [] else [TickNext] + Nexts(n - 1)
  }

  predicate Passed(c: Schedule, now: nat) {
    !c.enabled || !Due(c, now)
  }

  /** A tick passes over schedules that are disabled or not due. */
  lemma {:induction false} NextsPass(s: State, n: nat)
    requires s.scan.Some? && n <= |s.scan.value.todo|
    requires forall i | 0 <= i < n :: Passed(s.scan.value.todo[i], s.scan.value.now)
    ensures AdmissibleRun(s, Nexts(n))
    ensures Exec(s, Nexts(n)) == s.(scan := Some(Scan(s.scan.value.now, s.scan.value.todo[n..])))
    decreases n
  {
    if n > 0 {
      assert Nexts(n)[0] == TickNext && Nexts(n)[1..] == Nexts(n - 1);
      assert Passed(s.scan.value.todo[0], s.scan.value.now);
      NextsPass(Step(s, TickNext), n - 1);
    }
  }

  /** The next tick after an update, up to the updated schedule at position k. */
  ghost predicate TickReaches(s: State, request: nat, change: Change, now: nat, k: nat, s': State) {
    && request in s.edits && s.scan.None? && k < |s.list| && s.list[k].id == s.edits[request].id
    && s' == Exec(Step(Step(s, UpdateWrites(request, change)), TickBegins(now)), Nexts(k))
  }

  lemma TickReachesIt(s: State, request: nat, change: Change, now: nat, k: nat, s': State)
    requires Shape(s) && TickReaches(s, request, change, now, k, s')
    requires forall i | 0 <= i < k :: Passed(s.list[i], now)
    ensures s'.scan.Some? && s'.scan.value.now == now && s'.scan.value.todo != []
    ensures s'.scan.value.todo[0] == Apply(s.edits[request], change)
    ensures s'.locked == s.locked && s'.active == s.active && s'.completed == s.completed
    ensures AdmissibleRun(Step(Step(s, UpdateWrites(request, change)), TickBegins(now)), Nexts(k))
  {
    var w := Apply(s.edits[request], change);
    ReplaceReplaces(s.list, w);
    var s1 := Step(s, UpdateWrites(request, change));
    assert s1.list[k] == w;
    NextsPass(Step(s1, TickBegins(now)), k);
  }

  /** What the updated schedule would run has been completed if and only if it is
      at the time it had before and behind the latest mark. */
  lemma RewrittenIffCompleted(s: State, copy: Schedule, w: Schedule, now: nat)
    requires Kept(s) && CopyOk(s, copy) && s.clock <= now && w.id == copy.id && TimeOk(w.time)
    ensures Completion(w.id, Occurrence(w.time, now)) in s.completed ==> Behind(s, w, now)
    ensures w.id !in s.retimed ==>
              (Completion(w.id, Occurrence(w.time, now)) in s.completed <==>
               Behind(s, w, now) && Minutes(w.time) == Minutes(copy.time))
  {
    assert forall id | id in s.marks :: LatestOk(s, id);
    BehindIffCompleted(s, copy, now);
    OccurrenceIsOnTime(w.time, now);
  }

  lemma RunCompletes(s: State, c: Schedule, now: nat)
    requires Starts(s) && s.active == [] && s.scan.value.now == now && s.scan.value.todo[0] == c
    ensures Step(s, TickNext).active == [Run(c, now)]
    ensures CompletedNext(s) == s.completed + [Completion(c.id, Occurrence(c.time, now))]
  {
  }

  lemma StartsByUpdate(s: State, request: nat, change: Change, now: nat, k: nat, s': State)
    requires Shape(s) && TickReaches(s, request, change, now, k, s') && !s.locked
    requires forall i | 0 <= i < k :: Passed(s.list[i], now)
    requires var w := Apply(s.edits[request], change); w.enabled && Due(w, now)
    ensures var w := Apply(s.edits[request], change);
            && Step(s', TickNext).active == [Run(w, now)]
            && CompletedNext(s') == s.completed + [Completion(w.id, Occurrence(w.time, now))]
  {
    TickReachesIt(s, request, change, now, k, s');
    RunCompletes(s', Apply(s.edits[request], change), now);
  }

  lemma RepeatsIffRewritten(s: State, copy: Schedule, w: Schedule, now: nat)
    requires Kept(s) && CopyOk(s, copy) && s.clock <= now && w.id == copy.id && TimeOk(w.time)
    requires RunsOnce(s.completed, w.id)
    ensures var later := s.completed + [Completion(w.id, Occurrence(w.time, now))];
            && (!RunsOnce(later, w.id) ==> Behind(s, w, now))
            && (w.id !in s.retimed ==>
                  (!RunsOnce(later, w.id) <==> Behind(s, w, now) && Minutes(w.time) == Minutes(copy.time)))
  {
    RewrittenIffCompleted(s, copy, w, now);
    OneMore(s.completed, Completion(w.id, Occurrence(w.time, now)));
  }

  /** A schedule is updated while no run is in progress, and the next tick finds it
      enabled and due, and none before it in the list. The tick runs it for an
      occurrence it has completed if and only if, before the update, the listed
      schedule carried a mark at or after that occurrence, and the update leaves
      the time as it was. (If its time was ever changed before, only if.) */
  lemma LostMarkRepeatsIff(evs: seq<Event>, request: nat, change: Change, now: nat, k: nat, s: State, s': State)
    requires AdmissibleRun(EMPTY, evs) && KeepsMarksRun(EMPTY, evs) && s == Exec(EMPTY, evs)
    requires TickReaches(s, request, change, now, k, s') && !s.locked && s.clock <= now
    requires Admissible(s, UpdateWrites(request, change)) && RunsOnce(s.completed, s.edits[request].id)
    requires forall i | 0 <= i < k :: Passed(s.list[i], now)
    requires var w := Apply(s.edits[request], change); w.enabled && Due(w, now)
    ensures var w := Apply(s.edits[request], change);
            var lost := s.list[k].lastRun.Some? && Occurrence(w.time, now) <= s.list[k].lastRun.value;
            && Step(s', TickNext).active == [Run(w, now)]
            && (!RunsOnce(CompletedNext(s'), w.id) ==> lost)
            && (w.id !in s.retimed ==>
                  TimeOk(s.edits[request].time)
                  && (!RunsOnce(CompletedNext(s'), w.id) <==> lost && Minutes(w.time) == Minutes(s.edits[request].time)))
  {
    var (copy, w) := (s.edits[request], Apply(s.edits[request], change));
    KeptRun(EMPTY, evs);
    ListedRun(EMPTY, evs);
    assert CopyOk(s, copy) && s.list[k] in s.list;
    StartsByUpdate(s, request, change, now, k, s');
    RepeatsIffRewritten(s, copy, w, now);
  }
}
