/** Admissible runs from the empty service in which a schedule runs twice for one
    occurrence, or loses a mark without doing so. */
module ScheduleExamples {
  import opened Wrappers
  import opened ScheduleModel
  import opened ScheduleSafety
  import opened ScheduleRepeats

  // ---------- the first run of a nightly schedule ----------

  const NIGHTLY := Schedule(1, "nightly", "03:00", ["*"], "auto", 0, true, None, 0)
  const MARKED := NIGHTLY.(lastRun := Some(10800))
  const THREE := Run(NIGHTLY, 10800)
  const NO_CHANGE := Change(None, None, None, None, None)
  const AGAIN := [Completion(1, 10800), Completion(1, 10800)]

  lemma NightlyIsDue()
    ensures TimeOk("03:00") && Occurrence("03:00", 10800) == Occurrence("03:00", 10830) == 10800
    ensures Due(NIGHTLY, 10800) && Due(NIGHTLY, 10830) && !Due(MARKED, 10830)
  {
  }

  ghost predicate Follows(evs: seq<Event>, s: State) {
    AdmissibleRun(EMPTY, evs) && Exec(EMPTY, evs) == s
  }

  lemma {:induction false} ThenFrom(s0: State, evs: seq<Event>, ev: Event)
    requires AdmissibleRun(s0, evs) && Admissible(Exec(s0, evs), ev)
    ensures AdmissibleRun(s0, evs + [ev]) && Exec(s0, evs + [ev]) == Step(Exec(s0, evs), ev)
    ensures KeepsMarksRun(s0, evs + [ev]) <==> KeepsMarksRun(s0, evs) && KeepsMark(Exec(s0, evs), ev)
    ensures FreshRun(s0, evs + [ev]) ==> Fresh(Exec(s0, evs), ev) && FreshRun(s0, evs)
    decreases |evs|
  {
    var more := evs + [ev];
    if evs == [] {
      assert more[1..] == [];
    } else {
      assert more[1..] == evs[1..] + [ev];
      ThenFrom(Step(s0, evs[0]), evs[1..], ev);
    }
  }

  lemma Then(evs: seq<Event>, s: State, ev: Event, s': State)
    requires Follows(evs, s) && Admissible(s, ev) && s' == Step(s, ev)
    ensures Follows(evs + [ev], s')
    ensures KeepsMarksRun(EMPTY, evs + [ev]) <==> KeepsMarksRun(EMPTY, evs) && KeepsMark(s, ev)
    ensures FreshRun(EMPTY, evs + [ev]) ==> Fresh(s, ev) && FreshRun(EMPTY, evs)
  {
    ThenFrom(EMPTY, evs, ev);
  }

  /** The state while the first run of the night is going on. */
  predicate Running(s: State) {
    && s.list == [NIGHTLY] && s.locked && s.active == [THREE] && s.scan.None? && s.edits == map[]
    && s.clock == 10800 && s.completed == [] && s.retimed == {}
  }

  const FIRST_RUN := [Create(NIGHTLY)] + [TickBegins(10800)] + [TickNext] + [TickNext]

  lemma AfterFirstTick() returns (s: State)
    ensures Follows(FIRST_RUN, s) && Running(s) && KeepsMarksRun(EMPTY, FIRST_RUN)
  {
    NightlyIsDue();
    var s1 := Step(EMPTY, Create(NIGHTLY));
    assert s1.list == [NIGHTLY];
    var s2 := Step(s1, TickBegins(10800));
    var s3 := Step(s2, TickNext);
    assert [NIGHTLY][1..] == [];
    assert s3.active == [THREE] && s3.scan == Some(Scan(10800, []));
    s := Step(s3, TickNext);
    Then([], EMPTY, Create(NIGHTLY), s1);
    assert [] + [Create(NIGHTLY)] == [Create(NIGHTLY)];
    Then([Create(NIGHTLY)], s1, TickBegins(10800), s2);
    Then([Create(NIGHTLY)] + [TickBegins(10800)], s2, TickNext, s3);
    Then([Create(NIGHTLY)] + [TickBegins(10800)] + [TickNext], s3, TickNext, s);
  }

  const STALE_TICK := FIRST_RUN + [TickBegins(10830)] + [RunEnds(0, true)] + [TickNext] + [RunEnds(0, true)]

  /** While the first run is going on, a second tick copies the list; the run
      then ends and is marked before that tick tests its copy. The schedule
      runs again for the same occurrence. */
  lemma StaleTickRunsTwice()
    ensures AdmissibleRun(EMPTY, STALE_TICK) && KeepsMarksRun(EMPTY, STALE_TICK) && !FreshRun(EMPTY, STALE_TICK)
    ensures Exec(EMPTY, STALE_TICK).completed == AGAIN
  {
    var s := AfterFirstTick();
    NightlyIsDue();
    var s1 := Step(s, TickBegins(10830));
    assert Replace([NIGHTLY], MARKED) == [MARKED];
    var s2 := Step(s1, RunEnds(0, true));
    assert s2.list == [MARKED] && s2.active == [] && !s2.locked && s2.completed == [Completion(1, 10800)];
    assert s2.scan == Some(Scan(10830, [NIGHTLY])) && Stale(s2, NIGHTLY, 10830);
    var s3 := Step(s2, TickNext);
    assert s3.active == [Run(NIGHTLY, 10830)];
    var s4 := Step(s3, RunEnds(0, true));
    Then(FIRST_RUN, s, TickBegins(10830), s1);
    Then(FIRST_RUN + [TickBegins(10830)], s1, RunEnds(0, true), s2);
    Then(FIRST_RUN + [TickBegins(10830)] + [RunEnds(0, true)], s2, TickNext, s3);
    Then(FIRST_RUN + [TickBegins(10830)] + [RunEnds(0, true)] + [TickNext], s3, RunEnds(0, true), s4);
    assert s4.completed == AGAIN;
  }

  // ---------- a lost mark ----------

  const BEFORE_WRITE := FIRST_RUN + [UpdateReads(7, 1)] + [RunEnds(0, true)]
  const LOST_MARK := BEFORE_WRITE + [UpdateWrites(7, NO_CHANGE)]
  const LOST_MARK_RUN := LOST_MARK + [TickBegins(10830)] + [TickNext] + [RunEnds(0, true)]

  /** The run is marked, and an update still holds the unmarked copy. */
  predicate HeldUnmarked(s: State) {
    && s.list == [MARKED] && s.active == [] && !s.locked && s.scan.None? && s.edits == map[7 := NIGHTLY]
    && s.clock == 10800 && s.completed == [Completion(1, 10800)] && s.retimed == {}
  }

  lemma AfterMark() returns (s: State)
    ensures Follows(BEFORE_WRITE, s) && HeldUnmarked(s) && KeepsMarksRun(EMPTY, BEFORE_WRITE)
  {
    var s0 := AfterFirstTick();
    NightlyIsDue();
    var s1 := Step(s0, UpdateReads(7, 1));
    assert s1 == s0.(edits := map[7 := NIGHTLY]);
    assert Replace([NIGHTLY], MARKED) == [MARKED];
    s := Step(s1, RunEnds(0, true));
    Then(FIRST_RUN, s0, UpdateReads(7, 1), s1);
    Then(FIRST_RUN + [UpdateReads(7, 1)], s1, RunEnds(0, true), s);
  }

  lemma AfterLostMark() returns (s: State)
    ensures Follows(LOST_MARK, s) && !KeepsMarksRun(EMPTY, LOST_MARK)
    ensures s.list == [NIGHTLY] && s.active == [] && !s.locked && s.scan.None? && s.clock == 10800
    ensures s.completed == [Completion(1, 10800)]
  {
    var s0 := AfterMark();
    assert Replace([MARKED], NIGHTLY) == [NIGHTLY];
    assert LosesMark(s0, NIGHTLY);
    s := Step(s0, UpdateWrites(7, NO_CHANGE));
    Then(BEFORE_WRITE, s0, UpdateWrites(7, NO_CHANGE), s);
  }

  /** An update that read the schedule before its run was marked writes the
      unmarked copy back. The next tick runs it again for the same occurrence. */
  lemma LostMarkRunsTwice()
    ensures AdmissibleRun(EMPTY, LOST_MARK_RUN) && !KeepsMarksRun(EMPTY, LOST_MARK_RUN)
    ensures Exec(EMPTY, LOST_MARK_RUN).completed == AGAIN
  {
    var s := AfterLostMark();
    NightlyIsDue();
    var s1 := Step(s, TickBegins(10830));
    var s2 := Step(s1, TickNext);
    assert s2.active == [Run(NIGHTLY, 10830)];
    var s3 := Step(s2, RunEnds(0, true));
    Then(LOST_MARK, s, TickBegins(10830), s1);
    Then(LOST_MARK + [TickBegins(10830)], s1, TickNext, s2);
    Then(LOST_MARK + [TickBegins(10830)] + [TickNext], s2, RunEnds(0, true), s3);
    assert s3.completed == AGAIN;
  }

  /** The same loss is harmless once the day is over: the first tick after it, at
      whatever time it comes after 03:00, repeats the run if and only if it comes
      on the first day. */
  lemma LossRepeatsIffSameDay(now: nat) returns (s: State, ticked: State)
    requires Occurrence("03:00", now) <= now
    ensures Follows(BEFORE_WRITE, s)
    ensures ticked == Step(Step(s, UpdateWrites(7, NO_CHANGE)), TickBegins(now))
    ensures Starts(ticked) && (!RunsOnce(CompletedNext(ticked), 1) <==> now < DAY)
  {
    s := AfterMark();
    NightlyIsDue();
    ticked := Step(Step(s, UpdateWrites(7, NO_CHANGE)), TickBegins(now));
    assert Nexts(0) == [] && ticked == Exec(ticked, Nexts(0));
    assert Apply(NIGHTLY, NO_CHANGE) == NIGHTLY && Replace([MARKED], NIGHTLY) == [NIGHTLY];
    assert Due(NIGHTLY, now) && TickReaches(s, 7, NO_CHANGE, now, 0, ticked);
    LostMarkRepeatsIff(BEFORE_WRITE, 7, NO_CHANGE, now, 0, s, ticked);
    assert Occurrence("03:00", now) <= 10800 <==> now < DAY;
  }
}
