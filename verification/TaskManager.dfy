/** The job manager: tasks are objects shared by the history, the id index and
    the workers, and the history is a slice of an array that dropping a task
    shifts in place while Start's trim loop is still ranging over it. */
module TaskManager {
  import opened TaskModel

  class Task {
    const id: nat
    var status: Status
    var progress: int
    var ctxDone: bool
    var phase: Phase

    constructor (id: nat)
      ensures this.id == id && Record() == Rec(Queued, 0, false, Waiting)
    {
      this.id := id;
      status, progress, ctxDone, phase := Queued, 0, false, Waiting;
    }

    function Record(): Rec
      reads this
    {
      Rec(status, progress, ctxDone, phase)
    }

    /** The terminal state its worker records. */
    method Finish(failed: bool)
      modifies this
      ensures Record() == Ended(old(Record()), failed)
      ensures phase == Over && ctxDone == old(ctxDone)
      ensures status == if ctxDone then Cancelled else if failed then Failed else Succeeded
    {
      phase := Over;
      if ctxDone {
        status := Cancelled;
      } else if failed {
        status := Failed;
      } else {
        status := Succeeded;
        if progress < 100 {
          progress := 100;
        }
      }
    }
  }

  /** The finished tasks among the known ones are those numbered in `finished`. */
  ghost predicate Classified(known: set<Task>, finished: set<nat>)
    reads known
  {
    forall t | t in known :: Terminal(t.status) <==> t.id in finished
  }

  ghost function Records(all: map<nat, Task>): map<nat, Rec>
    reads all.Values
  {
    map id | id in all :: all[id].Record()
  }

  lemma FinishedClassifies(all: map<nat, Task>)
    requires forall id | id in all :: all[id].id == id
    ensures Classified(all.Values, Finished(Records(all)))
    ensures forall t | t in all.Values :: t.id in all && all[t.id] == t
  {
    forall t | t in all.Values
      ensures Terminal(t.status) <==> t.id in Finished(Records(all))
    {
      assert t.id in all && Records(all)[t.id] == all[t.id].Record();
    }
  }

  /** The two halves of StartStep. */
  ghost function Entered(s: State): State {
    var id := s.last + 1;
    State(s.tasks[id := Rec(Queued, 0, false, Waiting)], s.order + [id], s.index + {id}, id)
  }

  ghost function HistoryTrimmed(s: State): State {
    s.(order := Trimmed(s.order, Finished(s.tasks), Excess(s.order)),
       index := s.index - Dropped(s.order, Finished(s.tasks), Excess(s.order)))
  }

  lemma StartIsBoth(s: State)
    ensures HistoryTrimmed(Entered(s)) == StartStep(s)
  {
  }

  class Manager {
    var cells: array<Task>
    var len: nat
    var byId: map<nat, Task>
    var last: nat
    ghost var all: map<nat, Task>  // every task ever started, dropped ones included
    ghost var ids: seq<nat>        // the numbers of the history's tasks, in order

    /** `order` holds the numbers of the tasks in the live part of the array. */
    ghost predicate Lists(order: seq<nat>)
      reads this, cells
    {
      && |order| == len <= cells.Length
      && forall i | 0 <= i < len :: cells[i].id == order[i]
    }

    ghost predicate Valid()
      reads this, cells, all.Values
    {
      && Lists(ids) && NoRepeats(ids)
      && (forall id | id in all :: all[id].id == id <= last)
      && (forall i | 0 <= i < len :: cells[i].id in all && all[cells[i].id] == cells[i])
      && (forall id | id in byId :: id in all && byId[id] == all[id])
    }

    ghost function View(): State
      reads this, all.Values
    {
      State(Records(all), ids, byId.Keys, last)
    }

    constructor ()
      ensures Valid() && View() == EMPTY
    {
      cells := new Task[0];
      len, byId, last, all, ids := 0, map[], 0, map[], [];
      new;
      assert View().tasks == map[];
    }

    /** append(m.order, t): a new array when the old one is full. */
    method Append(t: Task)
      requires len <= cells.Length
      modifies this`cells, this`len, cells
      ensures len == old(len) + 1 <= cells.Length
      ensures forall i | 0 <= i < old(len) :: cells[i] == old(cells[i])
      ensures cells[old(len)] == t
      ensures cells == old(cells) || fresh(cells)
    {
      if len == cells.Length {
        var bigger := new Task[2 * len + 1](_ => t);
        for i := 0 to cells.Length
          modifies bigger
          invariant forall k | 0 <= k < i :: bigger[k] == cells[k]
        {
          bigger[i] := cells[i];
        }
        cells := bigger;
      }
      cells[len] := t;
      len := len + 1;
    }

    /** dropLocked: closes the gap by shifting the later cells down in place;
        the cell past the new end keeps its old value. */
    method Drop(t: Task, ghost at: nat)
      requires at < len <= cells.Length && cells[at] == t && forall k | 0 <= k < at :: cells[k] != t
      modifies this`len, this`byId, cells
      ensures byId == old(byId) - {t.id} && len == old(len) - 1
      ensures forall k | 0 <= k < at :: cells[k] == old(cells[k])
      ensures forall k | at <= k < len :: cells[k] == old(cells[k + 1])
      ensures forall k | len <= k < cells.Length :: cells[k] == old(cells[k])
    {
      byId := byId - {t.id};
      var i := 0;
      while cells[i] != t
        invariant i <= at
        decreases at - i
      {
        i := i + 1;
      }
      ghost var before := cells[..];
      while i < len - 1
        modifies cells
        invariant at <= i <= len - 1
        invariant forall k | 0 <= k < at :: cells[k] == before[k]
        invariant forall k | at <= k < i :: cells[k] == before[k + 1]
        invariant forall k | i <= k < cells.Length :: cells[k] == before[k]
      {
        cells[i] := cells[i + 1];
        i := i + 1;
      }
      len := len - 1;
    }

    /** What the trim loop knows while it ranges over n cells: those up to the
        last live one are the history, the rest are copies of the newest task. */
    ghost predicate Trimming(order: seq<nat>, newest: Task, n: nat, known: set<Task>)
      reads this, cells
    {
      && Lists(order) && NoRepeats(order) && 0 < len <= n <= cells.Length
      && (forall k | len - 1 <= k < n :: cells[k] == newest)
      && (forall k | 0 <= k < n :: cells[k] in known)
    }

    /** Dropping a task that is not the newest keeps that knowledge. */
    method DropWithin(newest: Task, i: nat, n: nat, ghost order: seq<nat>, ghost known: set<Task>)
      requires Trimming(order, newest, n, known) && i < len - 1
      modifies this`len, this`byId, cells
      ensures len == old(len) - 1 && byId == old(byId) - {order[i]}
      ensures Trimming(order[..i] + order[i + 1..], newest, n, known)
    {
      Drop(cells[i], i);
    }

    /** The drop of a finished task in the trim loop's body. */
    method DropFinished(newest: Task, i: nat, n: nat, ghost order: seq<nat>, ghost known: set<Task>, ghost finished: set<nat>)
      returns (ghost after: seq<nat>)
      requires Trimming(order, newest, n, known) && i < len - 1 && len > MAX_HISTORY && order[i] in finished
      modifies this`len, this`byId, cells
      ensures Trimming(after, newest, n, known) && len == old(len) - 1
      ensures FromHere(after, i + 1, finished, len - MAX_HISTORY) == FromHere(order, i, finished, old(len) - MAX_HISTORY)
      ensures byId - DroppedFrom(after, i + 1, finished, len - MAX_HISTORY)
              == old(byId) - DroppedFrom(order, i, finished, old(len) - MAX_HISTORY)
    {
      DropSkipsNext(order, i, finished, len - MAX_HISTORY);
      DropWithin(newest, i, n, order, known);
      after := order[..i] + order[i + 1..];
    }

    /** One pass of the trim loop's body. */
    method TrimOne(newest: Task, i: nat, n: nat, ghost order: seq<nat>, ghost known: set<Task>, ghost finished: set<nat>)
      returns (ghost after: seq<nat>)
      requires Trimming(order, newest, n, known) && i < n && len > MAX_HISTORY
      requires Classified(known, finished) && newest.id !in finished
      modifies this`len, this`byId, cells
      ensures Trimming(after, newest, n, known) && len >= MAX_HISTORY
      ensures FromHere(after, i + 1, finished, len - MAX_HISTORY) == FromHere(order, i, finished, old(len) - MAX_HISTORY)
      ensures byId - DroppedFrom(after, i + 1, finished, len - MAX_HISTORY)
              == old(byId) - DroppedFrom(order, i, finished, old(len) - MAX_HISTORY)
    {
      var task := cells[i];
      if Terminal(task.status) {
        after := DropFinished(newest, i, n, order, known, finished);
      } else {
        after := order;
        PassesOver(order, i, finished, len - MAX_HISTORY);
      }
    }

    /** The trim loop of Start. It ranges over the slice as it was at the start,
        reading cells that Drop has shifted in the meantime. */
    method TrimLoop(newest: Task, ghost order: seq<nat>, ghost known: set<Task>, ghost finished: set<nat>)
      returns (ghost after: seq<nat>)
      requires Trimming(order, newest, len, known) && len > MAX_HISTORY
      requires Classified(known, finished) && newest.id !in finished
      modifies this`len, this`byId, cells
      ensures Trimming(after, newest, old(len), known)
      ensures after == FromHere(order, 0, finished, old(len) - MAX_HISTORY)
      ensures byId == old(byId) - DroppedFrom(order, 0, finished, old(len) - MAX_HISTORY)
    {
      ghost var left := FromHere(order, 0, finished, len - MAX_HISTORY);
      ghost var kept := byId - DroppedFrom(order, 0, finished, len - MAX_HISTORY);
      after := order;
      var n := len;
      var i := 0;
      while i < n && len > MAX_HISTORY
        modifies this`len, this`byId, cells
        invariant i <= n && len >= MAX_HISTORY && Trimming(after, newest, n, known)
        invariant FromHere(after, i, finished, len - MAX_HISTORY) == left
        invariant byId - DroppedFrom(after, i, finished, len - MAX_HISTORY) == kept
      {
        after := TrimOne(newest, i, n, after, known, finished);
        i := i + 1;
      }
      NothingLeft(after, i, finished, len - MAX_HISTORY);
      assert byId - {} == byId;
    }

    method TrimHistory(newest: Task, ghost order: seq<nat>, ghost known: set<Task>, ghost finished: set<nat>)
      returns (ghost after: seq<nat>)
      requires Trimming(order, newest, len, known) && Classified(known, finished) && newest.id !in finished
      modifies this`len, this`byId, cells
      ensures Trimming(after, newest, old(len), known)
      ensures after == Trimmed(order, finished, Excess(order))
      ensures byId == old(byId) - Dropped(order, finished, Excess(order))
    {
      FromStart(order, finished, Excess(order));
      if len <= MAX_HISTORY {
        assert byId - {} == byId;
        return order;
      }
      after := TrimLoop(newest, order, known, finished);
    }

    /** The first half of Start: a new task enters the history and the index. */
    method Register(t: Task)
      requires Valid() && t.id == last + 1
      modifies this, cells
      ensures cells == old(cells) || fresh(cells)
      ensures Valid() && last == t.id && ids == old(ids) + [t.id]
      ensures all == old(all)[t.id := t] && byId == old(byId)[t.id := t]
      ensures len > 0 && cells[len - 1] == t
    {
      last := t.id;
      Append(t);
      byId := byId[last := t];
      all := all[last := t];
      ids := ids + [last];
    }

    /** The second half of Start: the history is trimmed. */
    method Trim(newest: Task)
      requires Valid() && len > 0 && cells[len - 1] == newest && !Terminal(newest.status)
      modifies this`len, this`byId, this`ids, cells
      ensures Valid() && View() == HistoryTrimmed(old(View()))
    {
      FinishedClassifies(all);
      ids := TrimHistory(newest, ids, all.Values, Finished(Records(all)));
    }

    /** A task of its own for each new number. */
    method NewTask() returns (t: Task)
      requires Valid()
      modifies this, cells
      ensures fresh(t) && Valid() && (cells == old(cells) || fresh(cells))
      ensures t.Record() == Rec(Queued, 0, false, Waiting)
      ensures len > 0 && cells[len - 1] == t
      ensures t.id == last
      ensures View() == Entered(old(View()))
      ensures fresh(all.Values - old(all.Values))
    {
      t := new Task(last + 1);
      Register(t);
      assert Records(all) == old(Records(all))[t.id := t.Record()];
    }

    /** Start, up to releasing the mutex. */
    method Start() returns (id: nat)
      requires Valid()
      modifies this, cells
      ensures Valid() && View() == StartStep(old(View())) && id == last
      ensures fresh(all.Values - old(all.Values)) && (cells == old(cells) || fresh(cells))
    {
      ghost var s := View();
      var t := NewTask();
      id := t.id;
      StartIsBoth(s);
      Trim(t);
    }

    /** The first critical section of a task's worker. */
    method WorkerBegins(t: Task)
      requires Valid() && t.id in all && all[t.id] == t && t.phase.Waiting?
      modifies t
      ensures Valid() && View() == Step(old(View()), Event.WorkerBegins(t.id))
    {
      t.status := Running;
      t.phase := Working;
    }

    /** Reporter.SetProgress, called by the worker. */
    method SetProgress(t: Task, p: int)
      requires Valid() && t.id in all && all[t.id] == t && t.phase.Working?
      modifies t
      ensures Valid() && View() == Step(old(View()), Reports(t.id, p))
    {
      var clamped := p;
      if clamped < 0 {
        clamped := 0;
      }
      if clamped > 100 {
        clamped := 100;
      }
      t.progress := clamped;
    }

    /** The last critical section of a task's worker. */
    method WorkerEnds(t: Task, failed: bool)
      requires Valid() && t.id in all && all[t.id] == t && t.phase.Working?
      modifies t
      ensures Valid() && View() == Step(old(View()), Event.WorkerEnds(t.id, failed))
    {
      t.Finish(failed);
      assert Records(all) == old(Records(all))[t.id := t.Record()];
    }

    /** Cancel. */
    method Cancel(id: nat) returns (accepted: bool)
      requires Valid()
      modifies all.Values
      ensures accepted == CancelAccepted(old(View()), id)
      ensures accepted <==> id in byId && old(byId[id].status) in {Queued, Running}
      ensures accepted ==> byId[id].status == Cancelling && byId[id].ctxDone
      ensures Valid() && View() == Step(old(View()), CancelRequest(id))
    {
      if id !in byId {
        return false;
      }
      var t := byId[id];
      if t.status.Queued? || t.status.Running? {
        t.status := Cancelling;
        t.ctxDone := true;
        return true;
      }
      return false;
    }
  }

  /** What the rest of the trim loop makes of the history, from cell i on. */
  function FromHere(ids: seq<nat>, i: nat, finished: set<nat>, excess: nat): seq<nat> {
    if i < |ids| then ids[..i] + Trimmed(ids[i..], finished, excess) else ids
  }

  function DroppedFrom(ids: seq<nat>, i: nat, finished: set<nat>, excess: nat): set<nat> {
    if i < |ids| then Dropped(ids[i..], finished, excess) else {}
  }

  lemma DropSkipsNext(ids: seq<nat>, i: nat, finished: set<nat>, excess: nat)
    requires i + 1 < |ids| && ids[i] in finished && excess > 0
    ensures FromHere(ids, i, finished, excess) == FromHere(ids[..i] + ids[i + 1..], i + 1, finished, excess - 1)
    ensures DroppedFrom(ids, i, finished, excess) == {ids[i]} + DroppedFrom(ids[..i] + ids[i + 1..], i + 1, finished, excess - 1)
  {
    var after := ids[..i] + ids[i + 1..];
    assert ids[i..][2..] == ids[i + 2..] && after[i + 1..] == ids[i + 2..] && after[..i + 1] == ids[..i] + [ids[i + 1]];
    assert Trimmed(ids[i..], finished, excess) == [ids[i + 1]] + Trimmed(ids[i + 2..], finished, excess - 1);
    assert Dropped(ids[i..], finished, excess) == {ids[i]} + Dropped(ids[i + 2..], finished, excess - 1);
    if i + 1 == |after| {
      assert after == after[..i + 1];
    }
  }

  lemma PassesOver(ids: seq<nat>, i: nat, finished: set<nat>, excess: nat)
    requires i < |ids| ==> ids[i] !in finished
    ensures FromHere(ids, i, finished, excess) == FromHere(ids, i + 1, finished, excess)
    ensures DroppedFrom(ids, i, finished, excess) == DroppedFrom(ids, i + 1, finished, excess)
  {
    if i < |ids| {
      assert ids[i..][1..] == ids[i + 1..] && ids[..i + 1] == ids[..i] + [ids[i]];
      if excess == 0 {
        assert ids[..i] + ids[i..] == ids;
      }
    }
  }

  lemma FromStart(ids: seq<nat>, finished: set<nat>, excess: nat)
    ensures FromHere(ids, 0, finished, excess) == Trimmed(ids, finished, excess)
    ensures DroppedFrom(ids, 0, finished, excess) == Dropped(ids, finished, excess)
    ensures Trimmed(ids, finished, 0) == ids && Dropped(ids, finished, 0) == {}
  {
    assert ids[0..] == ids;
  }

  lemma NothingLeft(ids: seq<nat>, i: nat, finished: set<nat>, excess: nat)
    requires excess == 0 || |ids| <= i
    ensures FromHere(ids, i, finished, excess) == ids && DroppedFrom(ids, i, finished, excess) == {}
  {
    if i < |ids| {
      assert ids[..i] + ids[i..] == ids;
    }
  }
}
