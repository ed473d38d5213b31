/** Runs in which every tick and every update is one step. */
module ScheduleActs {
  import opened Wrappers
  import opened ScheduleModel
  import opened ScheduleSafety
  import opened ScheduleRepeats

  /** What the API, the clock and a finished run do, each without interruption:
      a tick copies, tests and locks in one go, an update reads and writes in
      one go. */
  datatype Act =
    | Creates(sch: Schedule)
    | Updates(id: nat, change: Change)
    | Removes(id: nat)
    | Ticks(now: nat)
    | Ends(k: nat, targetsFound: bool)

  function Steps(s: State, a: Act): seq<Event> {
    match a
    case Creates(sch) => [Create(sch)]
    case Updates(id, change) => [UpdateReads(0, id), UpdateWrites(0, change)]
    case Removes(id) => [Remove(id)]
    case Ticks(now) => [TickBegins(now)] + Nexts(|s.list| + 1)
    case Ends(k, targetsFound) => [RunEnds(k, targetsFound)]
  }

  predicate ActAdmissible(s: State, a: Act) {
    match a
    case Creates(sch) => Admissible(s, Create(sch))
    case Updates(_, change) => change.time.Some? ==> TimeOk(change.time.value)
    case Ticks(now) => s.clock <= now
    case _ => true
  }

  function ExecActs(s: State, acts: seq<Act>): State
    decreases |acts|
  {
    if acts == [] then s else ExecActs(Exec(s, Steps(s, acts[0])), acts[1..])
  }

  predicate ActsAdmissible(s: State, acts: seq<Act>)
    decreases |acts|
  {
    acts == [] || (ActAdmissible(s, acts[0]) && ActsAdmissible(Exec(s, Steps(s, acts[0])), acts[1..]))
  }

  /** Between acts nobody holds a copy. */
  predicate Quiet(s: State) {
    s.scan.None? && s.edits == map[]
  }

  predicate CopiesListed(s: State) {
    s.scan.Some? && forall c | c in s.scan.value.todo :: c in s.list
  }

  lemma ListedIsNotStale(s: State, c: Schedule)
    requires DistinctIds(s.list) && c in s.list
    ensures forall now :: !Stale(s, c, now)
    ensures !LosesMark(s, c)
  {
    FindIsUnique(s.list, c);
  }

  lemma {:induction false} NextsAreFresh(s: State, n: nat)
    requires DistinctIds(s.list) && (s.scan.None? || CopiesListed(s)) && s.edits == map[]
    ensures AdmissibleRun(s, Nexts(n)) && FreshRun(s, Nexts(n))
    ensures Exec(s, Nexts(n)).edits == map[]
    ensures s.scan.None? || |s.scan.value.todo| < n ==> Exec(s, Nexts(n)).scan.None?
    decreases n
  {
    if n > 0 {
      if s.scan.Some? && s.scan.value.todo != [] {
        ListedIsNotStale(s, s.scan.value.todo[0]);
      }
      assert Fresh(s, TickNext);
      assert Nexts(n)[0] == TickNext && Nexts(n)[1..] == Nexts(n - 1);
      NextsAreFresh(Step(s, TickNext), n - 1);
    }
  }

  lemma TickIsFresh(s: State, now: nat)
    requires DistinctIds(s.list) && Quiet(s) && s.clock <= now
    ensures var evs := Steps(s, Ticks(now)); AdmissibleRun(s, evs) && FreshRun(s, evs) && Quiet(Exec(s, evs))
  {
    var evs := Steps(s, Ticks(now));
    assert evs[0] == TickBegins(now) && evs[1..] == Nexts(|s.list| + 1);
    NextsAreFresh(Step(s, TickBegins(now)), |s.list| + 1);
  }

  lemma UpdateIsFresh(s: State, id: nat, change: Change)
    requires DistinctIds(s.list) && Quiet(s) && (change.time.Some? ==> TimeOk(change.time.value))
    ensures var evs := Steps(s, Updates(id, change)); AdmissibleRun(s, evs) && FreshRun(s, evs) && Quiet(Exec(s, evs))
  {
    var evs := Steps(s, Updates(id, change));
    var s1 := Step(s, evs[0]);
    FindFinds(s.list, id);
    assert evs[1..] == [UpdateWrites(0, change)] && evs[1..][1..] == [];
    if Find(s.list, id).Some? {
      ListedIsNotStale(s, Find(s.list, id).value);
    }
    assert Fresh(s1, evs[1]);
    assert Exec(s, evs) == Exec(Step(s1, evs[1]), []) == Step(s1, evs[1]);
  }

  lemma ActIsFresh(s: State, a: Act)
    requires DistinctIds(s.list) && Quiet(s) && ActAdmissible(s, a)
    ensures AdmissibleRun(s, Steps(s, a)) && FreshRun(s, Steps(s, a)) && Quiet(Exec(s, Steps(s, a)))
  {
    match a
    case Ticks(now) => TickIsFresh(s, now);
    case Updates(id, change) => UpdateIsFresh(s, id, change);
    case _ =>
      var ev := Steps(s, a)[0];
      assert Steps(s, a) == [ev] && [ev][1..] == [];
      assert Exec(s, [ev]) == Exec(Step(s, ev), []) == Step(s, ev);
  }

  lemma {:induction false} ActsKeep(s: State, acts: seq<Act>, id: nat)
    requires Kept(s) && UpToDate(s) && Quiet(s) && ActsAdmissible(s, acts) && RunsOnce(s.completed, id)
    ensures Kept(ExecActs(s, acts)) && RunsOnce(ExecActs(s, acts).completed, id)
    decreases |acts|
  {
    if acts != [] {
      ActIsFresh(s, acts[0]);
      KeptRun(s, Steps(s, acts[0]));
      FreshRunAdvances(s, Steps(s, acts[0]), id);
      OnceRun(s, Steps(s, acts[0]), id);
      ActsKeep(Exec(s, Steps(s, acts[0])), acts[1..], id);
    }
  }

  /** When every tick and every update is one step, each schedule completes at
      most one run for each date and run time, over every run; at most one run
      is in progress; and a schedule created after its time of that day does not
      run that day unless its time is changed. */
  lemma UninterruptedIsSafe(acts: seq<Act>)
    requires ActsAdmissible(EMPTY, acts)
    ensures var s := ExecActs(EMPTY, acts);
            && NoRepeats(s.completed)
            && |s.active| <= 1 && (s.locked <==> s.active != [])
            && forall r | r in s.started ::
                 r.sch.id in s.born
                 && (r.sch.id !in s.retimed && Late(s.born[r.sch.id]) ==> DayOf(r.now) != DayOf(s.born[r.sch.id].createdAt))
  {
    ActsKeep(EMPTY, acts, 0);
    forall id: nat ensures RunsOnce(ExecActs(EMPTY, acts).completed, id) {
      ActsKeep(EMPTY, acts, id);
    }
    RunsOnceForEach(ExecActs(EMPTY, acts).completed);
  }
}
