/** Recurring backup schedules as a state machine. A tick first copies the list
    of schedules and then tests and locks them one by one; an update first reads
    a schedule and later writes it back; other steps may come in between. */
module ScheduleModel {
  import opened Wrappers

  const DAY := 86400

  /** `lastRun` and `createdAt` are in seconds of local time, from some midnight
      on; days are taken to last 24 hours. */
  datatype Schedule = Schedule(id: nat, name: string, time: string, vms: seq<string>, kind: string, keepLast: nat,
                               enabled: bool, lastRun: Option<nat>, createdAt: nat)

  /** The fields an update request sets. */
  datatype Change = Change(time: Option<string>, vms: Option<seq<string>>, kind: Option<string>,
                           keepLast: Option<nat>, enabled: Option<bool>)

  datatype Run = Run(sch: Schedule, now: nat)

  datatype Scan = Scan(now: nat, todo: seq<Schedule>)

  /** A completed run of schedule `id` for the occurrence at instant `occ`. */
  datatype Completion = Completion(id: nat, occ: nat)

  /** `completed`, `started`, `born`, `retimed` and `marks` are what the proofs
      remember: the runs completed and started, each schedule as created, the ids
      of those whose time was ever changed, and the instant each schedule was last
      marked with, whatever became of that mark. */
  datatype State = State(list: seq<Schedule>, locked: bool, active: seq<Run>, scan: Option<Scan>,
                         edits: map<nat, Schedule>, clock: nat,
                         completed: seq<Completion>, started: seq<Run>, born: map<nat, Schedule>, retimed: set<nat>,
                         marks: map<nat, nat>)

  datatype Event =
    | Create(sch: Schedule)
    | UpdateReads(request: nat, id: nat)
    | UpdateWrites(request: nat, change: Change)
    | Remove(id: nat)
    | TickBegins(now: nat)
    | TickNext
    | RunEnds(k: nat, targetsFound: bool)

  const EMPTY := State([], false, [], None, map[], 0, [], [], map[], {}, map[])

  // ---------- due ----------

  predicate Digit(c: char) {
    '0' <= c <= '9'
  }

  /** HH:MM from 00:00 to 23:59. */
  predicate TimeOk(t: string) {
    && |t| == 5 && Digit(t[0]) && Digit(t[1]) && t[2] == ':' && Digit(t[3]) && Digit(t[4])
    && (t[0] in "01" || (t[0] == '2' && t[1] in "0123")) && t[3] in "012345"
  }

  function Value(c: char): nat
    requires Digit(c)
  {
    c as nat - '0' as nat
  }

  function Minutes(t: string): nat
    requires TimeOk(t)
  {
    (10 * Value(t[0]) + Value(t[1])) * 60 + 10 * Value(t[3]) + Value(t[4])
  }

  function DayOf(at: nat): nat {
    at / DAY
  }

  /** The run time on the day of `now`. */
  function Occurrence(t: string, now: nat): nat
    requires TimeOk(t)
  {
    DayOf(now) * DAY + Minutes(t) * 60
  }

  predicate Due(sch: Schedule, now: nat) {
    TimeOk(sch.time) && Occurrence(sch.time, now) <= now &&
    match sch.lastRun
    case Some(last) => last < Occurrence(sch.time, now)
    case None => sch.createdAt <= Occurrence(sch.time, now)
  }

  // ---------- the store ----------

  function Find(list: seq<Schedule>, id: nat): Option<Schedule> {
    if list == [] then None
    else if list[0].id == id then Some(list[0])
    else Find(list[1..], id)
  }

  function Replace(list: seq<Schedule>, sch: Schedule): seq<Schedule> {
    if list == [] then []
    else if list[0].id == sch.id then [sch] + list[1..]
    else [list[0]] + Replace(list[1..], sch)
  }

  function Without(list: seq<Schedule>, id: nat): seq<Schedule> {
    if list == [] then []
    else if list[0].id == id then list[1..]
    else [list[0]] + Without(list[1..], id)
  }

  function Or<T>(o: Option<T>, fallback: T): T {
    match o
    case Some(v) => v
    case None => fallback
  }

  function Apply(sch: Schedule, c: Change): Schedule {
    sch.(time := Or(c.time, sch.time), vms := Or(c.vms, sch.vms), kind := Or(c.kind, sch.kind),
         keepLast := Or(c.keepLast, sch.keepLast), enabled := Or(c.enabled, sch.enabled))
  }

  // ---------- steps ----------

  function TestOne(s: State, sch: Schedule, now: nat): State {
    if !sch.enabled || !Due(sch, now) || s.locked then s
    else s.(locked := true, active := s.active + [Run(sch, now)], started := s.started + [Run(sch, now)])
  }

  /** markRun and the release of the run lock. Without its targets a run ends
      before either backing up or being marked. */
  function EndRun(s: State, k: nat, targetsFound: bool): State
    requires k < |s.active|
  {
    var r := s.active[k];
    var over := s.(locked := false, active := s.active[..k] + s.active[k + 1..]);
    if !targetsFound then over
    else
      over.(completed := s.completed + (if TimeOk(r.sch.time) then [Completion(r.sch.id, Occurrence(r.sch.time, r.now))] else []),
            marks := s.marks[r.sch.id := r.now],
            list := match Find(s.list, r.sch.id)
                    case None => s.list
                    case Some(cur) => Replace(s.list, cur.(lastRun := Some(r.now))))
  }

  function Step(s: State, ev: Event): State {
    match ev
    case Create(sch) =>
      s.(list := s.list + [sch], clock := sch.createdAt, born := s.born[sch.id := sch])
    case UpdateReads(request, id) =>
      (match Find(s.list, id)
       case None => s
       case Some(sch) => s.(edits := s.edits[request := sch]))
    case UpdateWrites(request, change) =>
      if request !in s.edits then s
      else
        var sch := s.edits[request];
        s.(list := Replace(s.list, Apply(sch, change)), edits := s.edits - {request},
           retimed := if change.time.Some? then s.retimed + {sch.id} else s.retimed)
    case Remove(id) => s.(list := Without(s.list, id))
    case TickBegins(now) => s.(scan := Some(Scan(now, s.list)), clock := now)
    case TickNext =>
      if s.scan.None? then s
      else
        var sc := s.scan.value;
        if sc.todo == [] then s.(scan := None)
        else TestOne(s, sc.todo[0], sc.now).(scan := Some(Scan(sc.now, sc.todo[1..])))
    case RunEnds(k, targetsFound) =>
      if k >= |s.active| then s else EndRun(s, k, targetsFound)
  }

  /** Requests are validated, ids and request numbers are fresh, the clock does
      not go back, and ticks come one after the other. */
  predicate Admissible(s: State, ev: Event) {
    match ev
    case Create(sch) => sch.id !in s.born && sch.lastRun.None? && TimeOk(sch.time) && s.clock <= sch.createdAt
    case UpdateReads(request, _) => request !in s.edits
    case UpdateWrites(_, change) => change.time.Some? ==> TimeOk(change.time.value)
    case TickBegins(now) => s.clock <= now && s.scan.None?
    case _ => true
  }

  /** The occurrence at `now` is not after the latest run of the schedule to have
      been marked. */
  predicate Behind(s: State, copy: Schedule, now: nat) {
    TimeOk(copy.time) && copy.id in s.marks && Occurrence(copy.time, now) <= s.marks[copy.id]
  }

  /** If the step completes a run of schedule `id`, that run is not behind. */
  predicate Advances(s: State, ev: Event, id: nat) {
    ev.RunEnds? && ev.targetsFound && ev.k < |s.active| && s.active[ev.k].sch.id == id ==>
      !Behind(s, s.active[ev.k].sch, s.active[ev.k].now)
  }

  /** By the copy an occurrence is still due which the listed schedule has run
      already, or the schedule is listed no more. */
  predicate Stale(s: State, copy: Schedule, now: nat) {
    Due(copy, now) &&
    match Find(s.list, copy.id)
    case None => true
    case Some(cur) => cur.lastRun.Some? && Occurrence(copy.time, now) <= cur.lastRun.value
  }

  /** Writing the copy back takes the last run out of the listed schedule. */
  predicate LosesMark(s: State, copy: Schedule) {
    match Find(s.list, copy.id)
    case None => false
    case Some(cur) => cur.lastRun.Some? && (copy.lastRun.Some? ==> copy.lastRun.value < cur.lastRun.value)
  }

  predicate KeepsMark(s: State, ev: Event) {
    ev.UpdateWrites? && ev.request in s.edits ==> !LosesMark(s, s.edits[ev.request])
  }

  /** The step neither starts a run by a stale copy nor loses a mark. */
  predicate Fresh(s: State, ev: Event) {
    && KeepsMark(s, ev)
    && (ev.TickNext? && s.scan.Some? && s.scan.value.todo != [] ==>
          var sch := s.scan.value.todo[0];
          sch.enabled && !s.locked ==> !Stale(s, sch, s.scan.value.now))
  }

  function Exec(s: State, evs: seq<Event>): State
    decreases |evs|
  {
    if evs == [] then s else Exec(Step(s, evs[0]), evs[1..])
  }

  predicate AdmissibleRun(s: State, evs: seq<Event>)
    decreases |evs|
  {
    evs == [] || (Admissible(s, evs[0]) && AdmissibleRun(Step(s, evs[0]), evs[1..]))
  }

  predicate FreshRun(s: State, evs: seq<Event>)
    decreases |evs|
  {
    evs == [] || (Fresh(s, evs[0]) && FreshRun(Step(s, evs[0]), evs[1..]))
  }

  predicate KeepsMarksRun(s: State, evs: seq<Event>)
    decreases |evs|
  {
    evs == [] || (KeepsMark(s, evs[0]) && KeepsMarksRun(Step(s, evs[0]), evs[1..]))
  }

  predicate AdvancingRun(s: State, evs: seq<Event>, id: nat)
    decreases |evs|
  {
    evs == [] || (Advances(s, evs[0], id) && AdvancingRun(Step(s, evs[0]), evs[1..], id))
  }
}
