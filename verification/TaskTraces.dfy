/** What a run's events say of each task: how it ended, what it reports, and when
    a cancel is pending. */
module TaskTraces {
  import opened Wrappers
  import opened TaskModel

  predicate Live(s: State, id: nat) {
    id in s.tasks && !s.tasks[id].phase.Over?
  }

  /** During the run the worker of `id` ended, its function having failed or not. */
  ghost predicate EverEnded(s: State, evs: seq<Event>, id: nat, failed: bool)
    decreases |evs|
  {
    evs != [] && ((evs[0] == WorkerEnds(id, failed) && id in s.tasks && s.tasks[id].phase.Working?)
                  || EverEnded(Step(s, evs[0]), evs[1..], id, failed))
  }

  /** During the run the worker of `id` began. */
  ghost predicate EverBegun(s: State, evs: seq<Event>, id: nat)
    decreases |evs|
  {
    evs != [] && ((evs[0] == WorkerBegins(id) && id in s.tasks && s.tasks[id].phase.Waiting?)
                  || EverBegun(Step(s, evs[0]), evs[1..], id))
  }

  /** During the run a cancel of `id` was accepted, and its worker did not begin
      after that. */
  ghost predicate CancelPending(s: State, evs: seq<Event>, id: nat)
    decreases |evs|
  {
    evs != [] && ((evs[0] == CancelRequest(id) && CancelAccepted(s, id) && !EverBegun(Step(s, evs[0]), evs[1..], id))
                  || CancelPending(Step(s, evs[0]), evs[1..], id))
  }

  /** What the worker of `id` last reported during the run, or else what had been
      reported before. */
  ghost function LastReport(s: State, evs: seq<Event>, id: nat, before: Option<int>): Option<int>
    decreases |evs|
  {
    if evs == [] then before
    else
      var now := if evs[0].Reports? && evs[0].id == id && id in s.tasks && s.tasks[id].phase.Working?
                 then Some(evs[0].progress) else before;
      LastReport(Step(s, evs[0]), evs[1..], id, now)
  }

  // ---------- how a task ends ----------

  lemma EndStep(s: State, ev: Event, id: nat)
    requires Inv(s) && id in Step(s, ev).tasks
    ensures id in s.tasks && s.tasks[id].phase.Over? ==> Step(s, ev).tasks[id] == s.tasks[id]
    ensures var r := Step(s, ev).tasks[id];
            !(id in s.tasks && s.tasks[id].phase.Over?) ==>
              var failed := ev == WorkerEnds(id, true) && id in s.tasks && s.tasks[id].phase.Working?;
              var succeeded := ev == WorkerEnds(id, false) && id in s.tasks && s.tasks[id].phase.Working?;
              && (r.phase.Over? <==> failed || succeeded)
              && (r.status == Failed <==> failed && !r.ctxDone)
              && (r.status == Succeeded <==> succeeded && !r.ctxDone)
  {
    if id in s.tasks {
      assert RecOk(s.tasks[id]);
    }
  }

  lemma {:induction false} OverStays(s: State, evs: seq<Event>, id: nat)
    requires Inv(s) && id in s.tasks && s.tasks[id].phase.Over?
    ensures id in Exec(s, evs).tasks && Exec(s, evs).tasks[id] == s.tasks[id]
    ensures !EverEnded(s, evs, id, true) && !EverEnded(s, evs, id, false)
    decreases |evs|
  {
    if evs != [] {
      StepKeeps(s, evs[0]);
      EndStep(s, evs[0], id);
      OverStays(Step(s, evs[0]), evs[1..], id);
    }
  }

  lemma {:induction false} EndsAsReturned(s: State, evs: seq<Event>, id: nat)
    requires Inv(s) && id in Exec(s, evs).tasks && !(id in s.tasks && s.tasks[id].phase.Over?)
    ensures var r := Exec(s, evs).tasks[id];
            && (r.phase.Over? <==> EverEnded(s, evs, id, true) || EverEnded(s, evs, id, false))
            && (r.status == Failed <==> EverEnded(s, evs, id, true) && !r.ctxDone)
            && (r.status == Succeeded <==> EverEnded(s, evs, id, false) && !r.ctxDone)
    decreases |evs|
  {
    if evs == [] {
      assert RecOk(s.tasks[id]);
    } else {
      var s1 := Step(s, evs[0]);
      StepKeeps(s, evs[0]);
      if id in s1.tasks {
        EndStep(s, evs[0], id);
      }
      if id in s1.tasks && s1.tasks[id].phase.Over? {
        OverStays(s1, evs[1..], id);
      } else {
        EndsAsReturned(s1, evs[1..], id);
      }
    }
  }

  /** Over every run: a task has failed if and only if its function returned an
      error and no cancel on it was accepted, and has succeeded if and only if its
      function returned none and no cancel was accepted; it has ended exactly when
      its function returned. */
  lemma OutcomeIsReturned(evs: seq<Event>, id: nat)
    requires id in Exec(EMPTY, evs).tasks
    ensures var r := Exec(EMPTY, evs).tasks[id];
            && (r.status == Failed <==> EverEnded(EMPTY, evs, id, true) && !EverAccepted(EMPTY, evs, id))
            && (r.status == Succeeded <==> EverEnded(EMPTY, evs, id, false) && !EverAccepted(EMPTY, evs, id))
            && (Live(Exec(EMPTY, evs), id) <==> !EverEnded(EMPTY, evs, id, true) && !EverEnded(EMPTY, evs, id, false))
  {
    RunKeeps(EMPTY, evs);
    EndsAsReturned(EMPTY, evs, id);
    ContextTracksAcceptance(EMPTY, evs, id);
  }

  // ---------- pending cancels ----------

  lemma PendingStep(s: State, ev: Event, id: nat)
    requires Inv(s) && Live(Step(s, ev), id)
    ensures var was := id in s.tasks && s.tasks[id].status == Cancelling;
            var begins := ev == WorkerBegins(id) && id in s.tasks && s.tasks[id].phase.Waiting?;
            var cancels := ev == CancelRequest(id) && CancelAccepted(s, id);
            Step(s, ev).tasks[id].status == Cancelling <==> (was && !begins) || cancels
    ensures id in s.tasks ==> Live(s, id)
  {
    if id in s.tasks {
      assert RecOk(s.tasks[id]);
    }
  }

  lemma {:induction false} CancellingIffPending(s: State, evs: seq<Event>, id: nat)
    requires Inv(s) && Live(Exec(s, evs), id)
    ensures Exec(s, evs).tasks[id].status == Cancelling <==>
            CancelPending(s, evs, id) || (id in s.tasks && s.tasks[id].status == Cancelling && !EverBegun(s, evs, id))
    decreases |evs|
  {
    if evs != [] {
      var s1 := Step(s, evs[0]);
      StepKeeps(s, evs[0]);
      CancellingIffPending(s1, evs[1..], id);
      if id in s1.tasks {
        if s1.tasks[id].phase.Over? {
          OverStays(s1, evs[1..], id);
          assert false;
        }
        PendingStep(s, evs[0], id);
      }
    }
  }

  /** Over every run: a cancel is accepted if and only if its task has started, has
      not ended, and has no accepted cancel pending. Running overwrites a pending
      cancel's mark, so that a second cancel is then accepted too. */
  lemma AcceptedIff(evs: seq<Event>, id: nat)
    ensures CancelAccepted(Exec(EMPTY, evs), id) <==>
            Live(Exec(EMPTY, evs), id) && !CancelPending(EMPTY, evs, id)
    ensures Live(Exec(EMPTY, evs), id) ==>
              Exec(EMPTY, evs).tasks[id].status ==
              if CancelPending(EMPTY, evs, id) then Cancelling
              else if EverBegun(EMPTY, evs, id) then Running else Queued
  {
    var s := Exec(EMPTY, evs);
    RunKeeps(EMPTY, evs);
    if id in s.tasks {
      assert RecOk(s.tasks[id]);
    }
    if Live(s, id) {
      CancellingIffPending(EMPTY, evs, id);
      WorkingIffBegun(EMPTY, evs, id);
    }
  }

  lemma {:induction false} WorkingIffBegun(s: State, evs: seq<Event>, id: nat)
    requires Inv(s) && Live(Exec(s, evs), id) && (id in s.tasks ==> Live(s, id))
    ensures Exec(s, evs).tasks[id].phase == Working <==>
            EverBegun(s, evs, id) || (id in s.tasks && s.tasks[id].phase == Working)
    decreases |evs|
  {
    if evs != [] {
      var s1 := Step(s, evs[0]);
      StepKeeps(s, evs[0]);
      if id in s1.tasks && s1.tasks[id].phase.Over? {
        OverStays(s1, evs[1..], id);
        assert false;
      }
      WorkingIffBegun(s1, evs[1..], id);
      if evs[0] == StartTask && id in s.tasks {
        assert id <= s.last;
      }
    }
  }

  // ---------- progress ----------

  /** The nearest value from 0 to 100. */
  predicate Nearest(p: int, report: int) {
    0 <= p <= 100 && (report <= 0 ==> p == 0) && (report >= 100 ==> p == 100) && (0 < report < 100 ==> p == report)
  }

  predicate Reported(p: int, report: Option<int>) {
    match report
    case None => p == 0
    case Some(q) => Nearest(p, q)
  }

  lemma ReportStep(s: State, ev: Event, id: nat, before: Option<int>)
    requires Inv(s) && Live(Step(s, ev), id)
    requires if id in s.tasks then Reported(s.tasks[id].progress, before) else before == None
    ensures var now := if ev.Reports? && ev.id == id && id in s.tasks && s.tasks[id].phase.Working?
                       then Some(ev.progress) else before;
            Reported(Step(s, ev).tasks[id].progress, now)
  {
    if ev == StartTask && id in s.tasks {
      assert id <= s.last;
    }
  }

  lemma EndedReport(s: State, ev: Event, id: nat, before: Option<int>)
    requires Inv(s) && Live(s, id) && id in Step(s, ev).tasks && Step(s, ev).tasks[id].phase.Over?
    requires Reported(s.tasks[id].progress, before)
    ensures var r := Step(s, ev).tasks[id];
            !ev.Reports? && if r.status == Succeeded then r.progress == 100 else Reported(r.progress, before)
  {
    assert RecOk(s.tasks[id]);
  }

  lemma {:induction false} OverReportsNothing(s: State, evs: seq<Event>, id: nat, before: Option<int>)
    requires Inv(s) && id in s.tasks && s.tasks[id].phase.Over?
    ensures LastReport(s, evs, id, before) == before
    decreases |evs|
  {
    if evs != [] {
      StepKeeps(s, evs[0]);
      EndStep(s, evs[0], id);
      OverReportsNothing(Step(s, evs[0]), evs[1..], id, before);
    }
  }

  lemma {:induction false} ProgressIsReported(s: State, evs: seq<Event>, id: nat, before: Option<int>)
    requires Inv(s) && id in Exec(s, evs).tasks && !(id in s.tasks && s.tasks[id].phase.Over?)
    requires if id in s.tasks then Reported(s.tasks[id].progress, before) else before == None
    ensures var r := Exec(s, evs).tasks[id];
            if r.status == Succeeded then r.progress == 100 else Reported(r.progress, LastReport(s, evs, id, before))
    decreases |evs|
  {
    if evs == [] {
      assert RecOk(s.tasks[id]);
    } else {
      var s1 := Step(s, evs[0]);
      StepKeeps(s, evs[0]);
      if id in s1.tasks && s1.tasks[id].phase.Over? {
        EndedReport(s, evs[0], id, before);
        OverStays(s1, evs[1..], id);
        OverReportsNothing(s1, evs[1..], id, before);
      } else {
        var now := if evs[0].Reports? && evs[0].id == id && id in s.tasks && s.tasks[id].phase.Working?
                   then Some(evs[0].progress) else before;
        if id in s1.tasks {
          ReportStep(s, evs[0], id, before);
        }
        ProgressIsReported(s1, evs[1..], id, now);
      }
    }
  }

  /** Over every run: a task that has not succeeded shows what its worker reported
      last, as the nearest value from 0 to 100, and 0 before the first report; one
      that has succeeded shows 100. */
  lemma ProgressIsLastReport(evs: seq<Event>, id: nat)
    requires id in Exec(EMPTY, evs).tasks
    ensures var r := Exec(EMPTY, evs).tasks[id];
            if r.status == Succeeded then r.progress == 100 else Reported(r.progress, LastReport(EMPTY, evs, id, None))
  {
    ProgressIsReported(EMPTY, evs, id, None);
  }
}
