/** The in-memory job system as a state machine: one step for each critical
    section of the manager, in any interleaving of workers and API calls. */
module TaskModel {

  const MAX_HISTORY := 500

  datatype Status = Queued | Running | Cancelling | Succeeded | Failed | Cancelled

  /** How far the worker goroutine of a task has come. */
  datatype Phase = Waiting | Working | Over

  /** `ctxDone` is whether the task's context was cancelled. */
  datatype Rec = Rec(status: Status, progress: int, ctxDone: bool, phase: Phase)

  /** Every task ever started by number, the history in order, the numbers in
      the id index, and the number of the last task. */
  datatype State = State(tasks: map<nat, Rec>, order: seq<nat>, index: set<nat>, last: nat)

  datatype Event =
    | StartTask
    | WorkerBegins(id: nat)
    | Reports(id: nat, progress: int)
    | WorkerEnds(id: nat, failed: bool)
    | CancelRequest(id: nat)

  const EMPTY := State(map[], [], {}, 0)

  predicate Terminal(s: Status) {
    s.Succeeded? || s.Failed? || s.Cancelled?
  }

  predicate Cancellable(s: Status) {
    s.Queued? || s.Running?
  }

  ghost function Finished(tasks: map<nat, Rec>): set<nat> {
    set id | id in tasks && Terminal(tasks[id].status)
  }

  // ---------- trimming the history ----------

  /** What is left after dropping up to `excess` finished tasks from the front,
      when the element after each dropped one is passed over unseen. */
  function Trimmed(order: seq<nat>, finished: set<nat>, excess: nat): seq<nat>
    decreases |order|
  {
    if order == [] || excess == 0 then order
    else if order[0] !in finished then [order[0]] + Trimmed(order[1..], finished, excess)
    else if |order| == 1 then []
    else [order[1]] + Trimmed(order[2..], finished, excess - 1)
  }

  /** The tasks such a pass drops. */
  function Dropped(order: seq<nat>, finished: set<nat>, excess: nat): set<nat>
    decreases |order|
  {
    if order == [] || excess == 0 then {}
    else if order[0] !in finished then Dropped(order[1..], finished, excess)
    else {order[0]} + if |order| == 1 then {} else Dropped(order[2..], finished, excess - 1)
  }

  function Count(order: seq<nat>, finished: set<nat>): nat {
    if order == [] then 0 else (if order[0] in finished then 1 else 0) + Count(order[1..], finished)
  }

  /** How many tasks one pass can drop: half of each run of finished ones. */
  function Droppable(order: seq<nat>, finished: set<nat>): nat
    decreases |order|
  {
    if order == [] then 0
    else if order[0] !in finished then Droppable(order[1..], finished)
    else if |order| == 1 then 1
    else 1 + Droppable(order[2..], finished)
  }

  function Min(a: nat, b: nat): nat {
    if a < b then a else b
  }

  ghost predicate NoRepeats(s: seq<nat>) {
    forall i, j | 0 <= i < j < |s| :: s[i] != s[j]
  }

  lemma {:induction false} TrimDropsExactly(order: seq<nat>, finished: set<nat>, excess: nat)
    ensures |Trimmed(order, finished, excess)| == |order| - Min(excess, Droppable(order, finished))
    decreases |order|
  {
    if order != [] && excess != 0 {
      if order[0] !in finished {
        TrimDropsExactly(order[1..], finished, excess);
      } else if |order| > 1 {
        TrimDropsExactly(order[2..], finished, excess - 1);
      }
    }
  }

  lemma {:induction false} DroppableIsAtLeastHalf(order: seq<nat>, finished: set<nat>)
    ensures Droppable(order, finished) <= Count(order, finished) <= 2 * Droppable(order, finished)
    decreases |order|
  {
    if order != [] {
      if order[0] !in finished {
        DroppableIsAtLeastHalf(order[1..], finished);
      } else if |order| > 1 {
        assert order[1..][1..] == order[2..];
        assert Count(order, finished) == 1 + Count(order[1..], finished);
        DroppableIsAtLeastHalf(order[2..], finished);
      } else {
        assert order[1..] == [];
      }
    }
  }

  /** Trimming drops finished tasks only, repeats none and keeps the order. */
  lemma {:induction false} TrimDropsOnlyFinished(order: seq<nat>, finished: set<nat>, excess: nat)
    requires NoRepeats(order)
    ensures NoRepeats(Trimmed(order, finished, excess))
    ensures forall x | x in Trimmed(order, finished, excess) :: x in order
    ensures forall x | x in order && x !in finished :: x in Trimmed(order, finished, excess)
    ensures Dropped(order, finished, excess) == (set x | x in order && x !in Trimmed(order, finished, excess))
    decreases |order|
  {
    if order != [] && excess != 0 {
      assert order == [order[0]] + order[1..];
      if order[0] !in finished {
        TrimDropsOnlyFinished(order[1..], finished, excess);
      } else if |order| > 1 {
        assert order == [order[0], order[1]] + order[2..];
        assert order[1] !in order[2..];
        TrimDropsOnlyFinished(order[2..], finished, excess - 1);
      }
    }
  }

  /** With one task too many, the oldest finished one goes, if there is one. */
  lemma {:induction false} TrimOfOneDropsOldest(order: seq<nat>, finished: set<nat>, i: nat)
    requires i < |order| && order[i] in finished && forall k | 0 <= k < i :: order[k] !in finished
    ensures Trimmed(order, finished, 1) == order[..i] + order[i + 1..]
  {
    if i > 0 {
      var rest := order[1..];
      TrimOfOneDropsOldest(rest, finished, i - 1);
      assert [order[0]] + rest[..i - 1] == order[..i] && rest[i..] == order[i + 1..];
    } else if |order| > 1 {
      assert Trimmed(order[2..], finished, 0) == order[2..];
      assert [order[1]] + order[2..] == order[1..];
    }
  }

  lemma {:induction false} TrimWithoutFinished(order: seq<nat>, finished: set<nat>, excess: nat)
    requires forall x | x in order :: x !in finished
    ensures Trimmed(order, finished, excess) == order
  {
    if order != [] && excess != 0 {
      assert order[0] in order;
      TrimWithoutFinished(order[1..], finished, excess);
      assert [order[0]] + order[1..] == order;
    }
  }

  // ---------- steps ----------

  function Clamp(p: int): int {
    if p < 0 then 0 else if p > 100 then 100 else p
  }

  function Excess(order: seq<nat>): nat {
    if |order| > MAX_HISTORY then |order| - MAX_HISTORY else 0
  }

  ghost function StartStep(s: State): State {
    var id := s.last + 1;
    var tasks := s.tasks[id := Rec(Queued, 0, false, Waiting)];
    var order := s.order + [id];
    State(tasks, Trimmed(order, Finished(tasks), Excess(order)),
          s.index + {id} - Dropped(order, Finished(tasks), Excess(order)), id)
  }

  function Ended(r: Rec, failed: bool): Rec {
    if r.ctxDone then r.(phase := Over, status := Cancelled)
    else if failed then r.(phase := Over, status := Failed)
    else r.(phase := Over, status := Succeeded, progress := if r.progress < 100 then 100 else r.progress)
  }

  predicate CancelAccepted(s: State, id: nat) {
    id in s.index && id in s.tasks && Cancellable(s.tasks[id].status)
  }

  /** Worker steps of a task come in the order of its goroutine; a step out of
      order cannot happen and changes nothing here. */
  ghost function Step(s: State, ev: Event): State {
    match ev
    case StartTask => StartStep(s)
    case WorkerBegins(id) =>
      if id !in s.tasks || !s.tasks[id].phase.Waiting? then s
      else s.(tasks := s.tasks[id := s.tasks[id].(status := Running, phase := Working)])
    case Reports(id, p) =>
      if id !in s.tasks || !s.tasks[id].phase.Working? then s
      else s.(tasks := s.tasks[id := s.tasks[id].(progress := Clamp(p))])
    case WorkerEnds(id, failed) =>
      if id !in s.tasks || !s.tasks[id].phase.Working? then s
      else s.(tasks := s.tasks[id := Ended(s.tasks[id], failed)])
    case CancelRequest(id) =>
      if !CancelAccepted(s, id) then s
      else s.(tasks := s.tasks[id := s.tasks[id].(status := Cancelling, ctxDone := true)])
  }

  ghost function Exec(s: State, evs: seq<Event>): State
    decreases |evs|
  {
    if evs == [] then s else Exec(Step(s, evs[0]), evs[1..])
  }

  /** Some cancel request for `id` was accepted during the run. */
  ghost predicate EverAccepted(s: State, evs: seq<Event>, id: nat)
    decreases |evs|
  {
    evs != [] && ((evs[0] == CancelRequest(id) && CancelAccepted(s, id)) || EverAccepted(Step(s, evs[0]), evs[1..], id))
  }

  // ---------- the invariant ----------

  predicate RecOk(r: Rec) {
    && 0 <= r.progress <= 100
    && match r.phase
       case Waiting => r.status == if r.ctxDone then Cancelling else Queued
       case Working => r.status.Running? || (r.status.Cancelling? && r.ctxDone)
       case Over => Terminal(r.status) && (r.status.Cancelled? <==> r.ctxDone) && (r.status.Succeeded? ==> r.progress == 100)
  }

  /** The index and the order hold the same tasks, without repeats, and every
      task they miss is finished. */
  ghost predicate Inv(s: State) {
    && (forall id | id in s.tasks :: id <= s.last && RecOk(s.tasks[id]))
    && NoRepeats(s.order)
    && s.index == (set id | id in s.order)
    && (forall id | id in s.order :: id in s.tasks)
    && (forall id | id in s.tasks && id !in s.index :: s.tasks[id].phase.Over?)
  }

  lemma StartKeeps(s: State)
    requires Inv(s)
    ensures Inv(StartStep(s))
    ensures s.last + 1 in StartStep(s).index
    ensures forall id | id in s.tasks && !s.tasks[id].phase.Over? :: id in StartStep(s).index
    ensures |StartStep(s).order| == |s.order| + 1 -
              Min(Excess(s.order + [s.last + 1]), Droppable(s.order + [s.last + 1], Finished(s.tasks)))
  {
    var id := s.last + 1;
    var s' := StartStep(s);
    var order := s.order + [id];
    assert id !in s.tasks && id !in s.order;
    assert NoRepeats(order);
    assert Finished(s'.tasks) == Finished(s.tasks);
    TrimDropsOnlyFinished(order, Finished(s.tasks), Excess(order));
    TrimDropsExactly(order, Finished(s.tasks), Excess(order));
    assert s'.index == (set x | x in s'.order);
    forall x | x in s'.tasks && x !in s'.index
      ensures s'.tasks[x].phase.Over?
    {
      assert id in order;
      if x in s.order {
        assert x in order && x in Finished(s.tasks) && RecOk(s.tasks[x]);
      }
    }
  }

  lemma StepKeeps(s: State, ev: Event)
    requires Inv(s)
    ensures Inv(Step(s, ev))
  {
    if ev.StartTask? {
      StartKeeps(s);
    }
  }

  /** A finished task keeps its record for good. */
  lemma StepAbsorbs(s: State, ev: Event, id: nat)
    requires Inv(s) && id in s.tasks && s.tasks[id].phase.Over?
    ensures id in Step(s, ev).tasks && Step(s, ev).tasks[id] == s.tasks[id]
  {
  }

  lemma {:induction false} RunKeeps(s: State, evs: seq<Event>)
    requires Inv(s)
    ensures Inv(Exec(s, evs))
    decreases |evs|
  {
    if evs != [] {
      StepKeeps(s, evs[0]);
      RunKeeps(Step(s, evs[0]), evs[1..]);
    }
  }

  /** Terminal states absorb, over every run. */
  lemma {:induction false} TerminalAbsorbs(s: State, evs: seq<Event>, id: nat)
    requires Inv(s) && id in s.tasks && Terminal(s.tasks[id].status)
    ensures id in Exec(s, evs).tasks && Exec(s, evs).tasks[id] == s.tasks[id]
    decreases |evs|
  {
    if evs != [] {
      assert RecOk(s.tasks[id]);
      StepKeeps(s, evs[0]);
      StepAbsorbs(s, evs[0], id);
      TerminalAbsorbs(Step(s, evs[0]), evs[1..], id);
    }
  }

  lemma {:induction false} ContextTracksAcceptance(s: State, evs: seq<Event>, id: nat)
    requires Inv(s)
    ensures var s' := Exec(s, evs);
            id in s'.tasks ==>
              (s'.tasks[id].ctxDone <==> (id in s.tasks && s.tasks[id].ctxDone) || EverAccepted(s, evs, id))
    decreases |evs|
  {
    if evs != [] {
      StepKeeps(s, evs[0]);
      ContextTracksAcceptance(Step(s, evs[0]), evs[1..], id);
      if evs[0].StartTask? && id in s.tasks {
        assert id <= s.last;
      }
    }
  }

  /** Over every run: progress stays within 0..100; once a task has ended it is
      cancelled if and only if some cancel request on it was accepted, succeeded
      only with progress 100, and cancellable no more; before that it is in the
      history and never terminal. */
  lemma CancelIsHonoured(evs: seq<Event>, id: nat)
    requires id in Exec(EMPTY, evs).tasks
    ensures var s := Exec(EMPTY, evs);
            var r := s.tasks[id];
            && 0 <= r.progress <= 100
            && (Terminal(r.status) <==> r.phase.Over?)
            && (Terminal(r.status) ==> (r.status.Cancelled? <==> EverAccepted(EMPTY, evs, id)))
            && (r.status.Succeeded? ==> r.progress == 100)
            && (!Terminal(r.status) ==> id in s.index && (EverAccepted(EMPTY, evs, id) <==> r.ctxDone))
            && (Cancellable(r.status) <==> !Terminal(r.status) && !r.status.Cancelling?)
  {
    RunKeeps(EMPTY, evs);
    ContextTracksAcceptance(EMPTY, evs, id);
    assert RecOk(Exec(EMPTY, evs).tasks[id]);
  }

  /** The history is back within its bound after a start exactly when enough
      finished tasks can be dropped; with at most MAX_HISTORY tasks before, that
      means one finished task, and the oldest such one goes. */
  lemma BoundHoldsIff(s: State)
    requires Inv(s)
    ensures var order := s.order + [s.last + 1];
            && (|StartStep(s).order| <= MAX_HISTORY <==> Excess(order) <= Droppable(order, Finished(s.tasks)))
            && (|s.order| <= MAX_HISTORY ==>
                  (|StartStep(s).order| <= MAX_HISTORY <==> |s.order| < MAX_HISTORY || exists x :: x in s.order && x in Finished(s.tasks)))
            && Count(order, Finished(s.tasks)) <= 2 * Droppable(order, Finished(s.tasks))
  {
    StartKeeps(s);
    var order := s.order + [s.last + 1];
    var finished := Finished(s.tasks);
    DroppableIsAtLeastHalf(order, finished);
    CountIsPositive(order, finished);
    assert s.last + 1 !in s.tasks;
    assert forall x :: x in order <==> x in s.order || x == s.last + 1;
  }

  /** From a full history, a start drops exactly the oldest finished task. */
  lemma FullHistoryDropsOldest(s: State, i: nat)
    requires Inv(s) && |s.order| == 500 && i < |s.order|
    requires s.order[i] in Finished(s.tasks) && forall k | 0 <= k < i :: s.order[k] !in Finished(s.tasks)
    ensures StartStep(s).order == s.order[..i] + s.order[i + 1..] + [s.last + 1]
  {
    var order := s.order + [s.last + 1];
    assert Finished(StartStep(s).tasks) == Finished(s.tasks);
    TrimOfOneDropsOldest(order, Finished(s.tasks), i);
    assert order[..i] + order[i + 1..] == s.order[..i] + s.order[i + 1..] + [s.last + 1];
  }

  lemma {:induction false} CountIsPositive(order: seq<nat>, finished: set<nat>)
    ensures Count(order, finished) > 0 <==> exists x :: x in order && x in finished
  {
    if order != [] {
      CountIsPositive(order[1..], finished);
      assert order[0] in order;
      assert forall x :: x in order <==> x == order[0] || x in order[1..];
    }
  }

  // ---------- a history of unfinished tasks ----------

  function Starts(n: nat): seq<Event> {
    if n == 0 then [] else [StartTask] + Starts(n - 1)
  }

  ghost predicate AllQueued(s: State) {
    forall id | id in s.tasks :: s.tasks[id].status.Queued?
  }

  lemma StartGrows(s: State)
    requires Inv(s) && AllQueued(s)
    ensures AllQueued(StartStep(s)) && |StartStep(s).order| == |s.order| + 1
  {
    var order := s.order + [s.last + 1];
    var tasks := s.tasks[s.last + 1 := Rec(Queued, 0, false, Waiting)];
    assert Finished(tasks) == {};
    TrimWithoutFinished(order, {}, Excess(order));
  }

  lemma {:induction false} StartsGrow(s: State, n: nat)
    requires Inv(s) && AllQueued(s)
    ensures AllQueued(Exec(s, Starts(n))) && |Exec(s, Starts(n)).order| == |s.order| + n
    decreases n
  {
    if n > 0 {
      assert Starts(n)[0] == StartTask && Starts(n)[1..] == Starts(n - 1);
      StartKeeps(s);
      StartGrows(s);
      StartsGrow(StartStep(s), n - 1);
    }
  }

  /** Tasks started while none has finished all stay, one above the bound of 500
      and any number more. */
  lemma UnfinishedOutgrowBound(n: nat)
    requires n > 500
    ensures |Exec(EMPTY, Starts(n)).order| == n > MAX_HISTORY
  {
    StartsGrow(EMPTY, n);
  }
}
