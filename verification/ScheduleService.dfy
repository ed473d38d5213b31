/** The schedule store and the scheduler service as objects, each method proved
    to do what its step in ScheduleModel says. */
module ScheduleService {
  import opened Wrappers
  import opened ScheduleModel
  import opened ScheduleSafety

  class Store {
    var list: seq<Schedule>

    constructor ()
      ensures list == []
    {
      list := [];
    }

    method Get(id: nat) returns (r: Option<Schedule>)
      ensures r == Find(list, id)
    {
      var i := 0;
      while i < |list|
        invariant i <= |list| && Find(list, id) == Find(list[i..], id)
      {
        if list[i].id == id {
          return Some(list[i]);
        }
        assert list[i..][1..] == list[i + 1..];
        i := i + 1;
      }
      return None;
    }

    method Append(sch: Schedule)
      modifies this
      ensures list == old(list) + [sch]
    {
      list := list + [sch];
    }

    /** Replaces the schedule with the same id; false when there is none. */
    method Put(sch: Schedule) returns (found: bool)
      modifies this
      ensures list == Replace(old(list), sch)
      ensures found <==> Find(old(list), sch.id).Some?
    {
      var i := 0;
      while i < |list|
        invariant i <= |list| && list == old(list)
        invariant Replace(list, sch) == list[..i] + Replace(list[i..], sch)
        invariant Find(list, sch.id) == Find(list[i..], sch.id)
      {
        assert list[i..][1..] == list[i + 1..];
        if list[i].id == sch.id {
          assert Replace(list[i..], sch) == [sch] + list[i + 1..];
          list := list[i := sch];
          assert list == old(list)[..i] + ([sch] + old(list)[i + 1..]);
          return true;
        }
        ghost var rest := Replace(list[i + 1..], sch);
        assert Replace(list[i..], sch) == [list[i]] + rest;
        assert list[..i] + ([list[i]] + rest) == list[..i + 1] + rest;
        i := i + 1;
      }
      return false;
    }

    /** Deletes a schedule; false when there is none. */
    method Remove(id: nat) returns (found: bool)
      modifies this
      ensures list == Without(old(list), id)
      ensures found <==> Find(old(list), id).Some?
    {
      var i := 0;
      while i < |list|
        invariant i <= |list| && list == old(list)
        invariant Without(list, id) == list[..i] + Without(list[i..], id)
        invariant Find(list, id) == Find(list[i..], id)
      {
        assert list[i..][1..] == list[i + 1..];
        if list[i].id == id {
          list := list[..i] + list[i + 1..];
          return true;
        }
        assert list[..i + 1] == list[..i] + [list[i]];
        i := i + 1;
      }
      return false;
    }
  }

  class Service {
    const store: Store
    var locked: bool
    var active: seq<Run>
    var scan: Option<Scan>
    var edits: map<nat, Schedule>
    var clock: nat
    ghost var completed: seq<Completion>
    ghost var started: seq<Run>
    ghost var born: map<nat, Schedule>
    ghost var retimed: set<nat>
    ghost var marks: map<nat, nat>

    ghost function View(): State
      reads this, store
    {
      State(store.list, locked, active, scan, edits, clock, completed, started, born, retimed, marks)
    }

    constructor ()
      ensures View() == EMPTY && fresh(store)
    {
      store := new Store();
      locked, active, scan, edits, clock := false, [], None, map[], 0;
      completed, started, born, retimed, marks := [], [], map[], {}, map[];
    }

    method Create(sch: Schedule)
      modifies this, store
      ensures View() == Step(old(View()), Event.Create(sch))
    {
      clock := sch.createdAt;
      born := born[sch.id := sch];
      store.Append(sch);
    }

    /** Update, up to reading the schedule. */
    method UpdateReads(request: nat, id: nat) returns (found: bool)
      modifies this
      ensures View() == Step(old(View()), Event.UpdateReads(request, id))
      ensures found <==> Find(store.list, id).Some?
    {
      var sch := store.Get(id);
      if sch.None? {
        return false;
      }
      edits := edits[request := sch.value];
      return true;
    }

    /** Update, from merging the request on. */
    method UpdateWrites(request: nat, change: Change) returns (found: bool)
      requires request in edits
      modifies this, store
      ensures View() == Step(old(View()), Event.UpdateWrites(request, change))
      ensures found <==> Find(old(store.list), old(edits)[request].id).Some?
    {
      var sch := edits[request];
      if change.time.Some? {
        sch := sch.(time := change.time.value);
        retimed := retimed + {sch.id};
      }
      if change.vms.Some? {
        sch := sch.(vms := change.vms.value);
      }
      if change.kind.Some? {
        sch := sch.(kind := change.kind.value);
      }
      if change.keepLast.Some? {
        sch := sch.(keepLast := change.keepLast.value);
      }
      if change.enabled.Some? {
        sch := sch.(enabled := change.enabled.value);
      }
      edits := edits - {request};
      found := store.Put(sch);
    }

    method Delete(id: nat) returns (found: bool)
      modifies store
      ensures View() == Step(old(View()), Event.Remove(id))
      ensures found <==> Find(old(store.list), id).Some?
    {
      found := store.Remove(id);
    }

    /** tick, up to the copy of the list. */
    method TickBegins(now: nat)
      modifies this
      ensures View() == Step(old(View()), Event.TickBegins(now))
    {
      clock := now;
      scan := Some(Scan(now, store.list));
    }

    /** One pass of tick's loop: test the copy, try the lock, start the run. */
    method TickNext()
      requires scan.Some?
      modifies this
      ensures View() == Step(old(View()), Event.TickNext)
    {
      var sc := scan.value;
      if |sc.todo| == 0 {
        scan := None;
        return;
      }
      var sch := sc.todo[0];
      scan := Some(Scan(sc.now, sc.todo[1..]));
      if !sch.enabled || !Due(sch, sc.now) {
        return;
      }
      if locked {
        return;
      }
      locked := true;
      active := active + [Run(sch, sc.now)];
      started := started + [Run(sch, sc.now)];
    }

    /** The end of runSchedule: markRun, unless the targets could not be
        resolved, and the release of the lock. */
    method RunEnds(k: nat, targetsFound: bool)
      requires k < |active|
      modifies this, store
      ensures View() == Step(old(View()), Event.RunEnds(k, targetsFound))
    {
      var r := active[k];
      if targetsFound {
        var cur := store.Get(r.sch.id);
        if cur.Some? {
          FindFinds(store.list, r.sch.id);
          var found := store.Put(cur.value.(lastRun := Some(r.now)));
        }
        marks := marks[r.sch.id := r.now];
        completed := completed + (if TimeOk(r.sch.time) then [Completion(r.sch.id, Occurrence(r.sch.time, r.now))] else []);
      }
      active := active[..k] + active[k + 1..];
      locked := false;
    }

    /** A whole tick with nothing in between: of the schedules that are enabled
        and due, the first starts if the lock is free, and no other. */
    method Tick(now: nat)
      requires scan.None? && (locked <==> active != [])
      modifies this
      ensures scan.None? && clock == now && (locked <==> active != [])
      ensures old(locked) ==> active == old(active)
      ensures !old(locked) ==>
                (active == [] && forall sch | sch in store.list :: !sch.enabled || !Due(sch, now)) ||
                exists i :: 0 <= i < |store.list| && active == [Run(store.list[i], now)]
                            && store.list[i].enabled && Due(store.list[i], now)
                            && forall k | 0 <= k < i :: !store.list[k].enabled || !Due(store.list[k], now)
    {
      TickBegins(now);
      var i := 0;
      while scan.value.todo != []
        invariant i <= |store.list| && scan == Some(Scan(now, store.list[i..])) && clock == now
        invariant locked <==> active != []
        invariant old(locked) ==> active == old(active)
        invariant !old(locked) ==>
                    (active == [] && forall k | 0 <= k < i :: !store.list[k].enabled || !Due(store.list[k], now)) ||
                    exists j :: 0 <= j < i && active == [Run(store.list[j], now)]
                                && store.list[j].enabled && Due(store.list[j], now)
                                && forall k | 0 <= k < j :: !store.list[k].enabled || !Due(store.list[k], now)
        decreases |store.list| - i
      {
        TickNext();
        i := i + 1;
      }
      TickNext();
    }
  }
}
