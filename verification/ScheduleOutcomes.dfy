/** When a schedule is due on the clock, and what creating, updating and removing
    schedules leave in the list. */
module ScheduleOutcomes {
  import opened Wrappers
  import opened ScheduleModel
  import opened ScheduleSafety

  // ---------- the clock ----------

  /** Two digits. */
  function Two(n: nat): string
    requires n < 100
  {
    ["0123456789"[n / 10], "0123456789"[n % 10]]
  }

  /** HH:MM. */
  function Clock(h: nat, m: nat): string
    requires h < 24 && m < 60
  {
    Two(h) + ":" + Two(m)
  }

  lemma TwoDigits(n: nat)
    requires n < 100
    ensures Digit(Two(n)[0]) && Digit(Two(n)[1]) && 10 * Value(Two(n)[0]) + Value(Two(n)[1]) == n
    ensures Value(Two(n)[0]) == n / 10
  {
  }

  lemma ClockIsTime(h: nat, m: nat)
    requires h < 24 && m < 60
    ensures TimeOk(Clock(h, m)) && Minutes(Clock(h, m)) == 60 * h + m
  {
    TwoDigits(h);
    TwoDigits(m);
    var t := Clock(h, m);
    assert t[0] == Two(h)[0] && t[1] == Two(h)[1] && t[2] == ':' && t[3] == Two(m)[0] && t[4] == Two(m)[1];
  }

  lemma DigitsAreTwo(a: char, b: char)
    requires Digit(a) && Digit(b)
    ensures Two(10 * Value(a) + Value(b)) == [a, b]
  {
    assert "0123456789"[Value(a)] == a && "0123456789"[Value(b)] == b;
  }

  lemma ReadClock(t: string) returns (h: nat, m: nat)
    requires TimeOk(t)
    ensures h < 24 && m < 60 && t == Clock(h, m)
  {
    h, m := 10 * Value(t[0]) + Value(t[1]), 10 * Value(t[3]) + Value(t[4]);
    DigitsAreTwo(t[0], t[1]);
    DigitsAreTwo(t[3], t[4]);
  }

  /** The accepted times are exactly those a clock shows. */
  lemma TimesAreClocks(t: string)
    ensures TimeOk(t) <==> exists h: nat, m: nat | h < 24 && m < 60 :: t == Clock(h, m)
  {
    if TimeOk(t) {
      var h, m := ReadClock(t);
    }
    forall h: nat, m: nat | h < 24 && m < 60 && t == Clock(h, m) ensures TimeOk(t) {
      ClockIsTime(h, m);
    }
  }

  predicate OnDay(day: nat, now: nat) {
    day * 86400 <= now < (day + 1) * 86400
  }

  /** A schedule for h:m is due once that time has come, for the rest of the day:
      unless it has run since then, and, if it never ran, was created after it. A
      schedule without a valid time is never due. */
  lemma DueIff(sch: Schedule, now: nat, day: nat, h: nat, m: nat)
    requires OnDay(day, now) && h < 24 && m < 60
    ensures !TimeOk(sch.time) ==> !Due(sch, now)
    ensures sch.time == Clock(h, m) ==>
              var run := day * 86400 + h * 3600 + m * 60;
              (Due(sch, now) <==>
               && run <= now && (sch.lastRun.Some? ==> sch.lastRun.value < run)
               && (sch.lastRun.None? ==> sch.createdAt <= run))
  {
    ClockIsTime(h, m);
    assert DayOf(now) == day;
  }

  // ---------- the list ----------

  predicate Sets<T(==)>(asked: Option<T>, was: T, now: T) {
    now == if asked.Some? then asked.value else was
  }

  /** An update replaces the schedule by the copy it holds, with exactly the fields
      that were asked for set, where it stands; no other schedule changes. */
  lemma UpdateSets(s: State, request: nat, change: Change, i: nat)
    requires DistinctIds(s.list) && request in s.edits && i < |s.list|
    ensures |Step(s, UpdateWrites(request, change)).list| == |s.list|
    ensures var s' := Step(s, UpdateWrites(request, change));
            var (held, c) := (s.edits[request], s'.list[i]);
            && s'.edits == s.edits - {request}
            && (s.list[i].id != held.id ==> c == s.list[i])
            && (s.list[i].id == held.id ==>
                  && c.id == held.id && c.name == held.name && c.lastRun == held.lastRun && c.createdAt == held.createdAt
                  && Sets(change.time, held.time, c.time) && Sets(change.vms, held.vms, c.vms)
                  && Sets(change.kind, held.kind, c.kind) && Sets(change.keepLast, held.keepLast, c.keepLast)
                  && Sets(change.enabled, held.enabled, c.enabled))
  {
    ReplaceReplaces(s.list, Apply(s.edits[request], change));
  }

  /** Schedules keep their order: a new one comes last, a removed one leaves the
      others as they are. */
  lemma {:induction false} ListKeepsOrder(list: seq<Schedule>, id: nat, k: nat)
    requires DistinctIds(list) && k < |list| && list[k].id == id
    ensures Without(list, id) == list[..k] + list[k + 1..]
  {
    if k > 0 {
      var rest := list[1..];
      assert list[0].id != list[k].id && rest[k - 1] == list[k];
      ListKeepsOrder(rest, id, k - 1);
      assert rest[..k - 1] == list[1..k] && rest[k..] == list[k + 1..];
      assert [list[0]] + (list[1..k] + list[k + 1..]) == list[..k] + list[k + 1..];
    }
  }

  lemma CreatedIsLast(s: State, sch: Schedule)
    ensures var list := Step(s, Create(sch)).list;
            |list| == |s.list| + 1 && list[|s.list|] == sch && forall i | 0 <= i < |s.list| :: list[i] == s.list[i]
  {
  }

  /** The end of a run that found its targets marks the schedule, as it is listed by
      then, with the instant the run started; any end frees the lock. */
  lemma RunEndMarks(s: State, k: nat, targetsFound: bool, i: nat)
    requires DistinctIds(s.list) && k < |s.active| && i < |s.list|
    ensures |Step(s, RunEnds(k, targetsFound)).list| == |s.list|
    ensures var (s', r) := (Step(s, RunEnds(k, targetsFound)), s.active[k]);
            && !s'.locked && s'.active == s.active[..k] + s.active[k + 1..]
            && s'.list[i] == if targetsFound && s.list[i].id == r.sch.id then s.list[i].(lastRun := Some(r.now)) else s.list[i]
  {
    var id := s.active[k].sch.id;
    FindFinds(s.list, id);
    if Find(s.list, id).Some? {
      ReplaceReplaces(s.list, Find(s.list, id).value.(lastRun := Some(s.active[k].now)));
      if s.list[i].id == id {
        FindIsUnique(s.list, s.list[i]);
      }
    }
  }

  /** Reading keeps a copy of the listed schedule under the request's number. */
  lemma ReadHolds(s: State, request: nat, k: nat)
    requires DistinctIds(s.list) && k < |s.list|
    ensures Step(s, UpdateReads(request, s.list[k].id)) == s.(edits := s.edits[request := s.list[k]])
  {
    FindIsUnique(s.list, s.list[k]);
  }
}
