/** What the chain invariant means for the choice of the next backup's parent, and
    which new points can be restored. */
module ChainConsequences {
  import opened Wrappers
  import opened ChainModel
  import opened ChainInvariant
  import opened RestoreCorrectness

  /** Over every run, a listed point is incremental exactly when it names a
      parent; the parent is older, with no listed point and no completed restore
      in between, even when it is listed no more. */
  lemma ParentsOverRuns(w0: World, evs: seq<Event>, p: Point)
    requires Init(w0) && AdmissibleRun(w0, evs) && p in Exec(w0, evs).lib
    ensures var w := Exec(w0, evs);
            && (p.kind.Incremental? <==> p.parent != "")
            && (p.parent != "" ==>
                  && p.parent in w.log.taken
                  && var q := w.log.taken[p.parent];
                     && q.createdAt < p.createdAt
                     && (forall r | r in w.lib :: !(q.createdAt < r.createdAt < p.createdAt))
                     && (forall t | t in w.log.restores :: !(q.createdAt <= t < p.createdAt)))
  {
    InitEstablishes(w0);
    RunKeeps(w0, evs);
    var w := Exec(w0, evs);
    assert Taken(w.log, p) && CaptureOk(w.dom, w.log, w.clock, p.id);
    assert NoRestoreWithin(w.log, p) && NothingBetween(w.lib, w.log, p);
  }

  /** Incremental coverage: whenever a parent is chosen, every cell that differs
      from the parent's snapshot is in the dirty set the backup will copy,
      whatever checkpoints were deleted or orphaned before. */
  lemma ChosenParentIsCovered(w0: World, evs: seq<Event>, req: Request)
    requires Init(w0) && AdmissibleRun(w0, evs)
    ensures var w := Exec(w0, evs);
            var r := ChainParent(w, req);
            r.Ok? && r.value.parent != "" && r.value.parent !in w.log.suspect ==>
              && w.lib != [] && r.value.parent == w.lib[0].id && r.value.parent in w.log.snaps
              && Covers(w.log.snaps[r.value.parent], w.dom.disks, DirtySince(w.dom.checkpoints, r.value.checkpoint))
  {
    InitEstablishes(w0);
    RunKeeps(w0, evs);
    var w := Exec(w0, evs);
    AnchorIsAuto(w, req);
    if ChainParent(w, req).Ok? && ChainParent(w, req).value.parent != "" {
      AnchorIsTrusted(w, ChainParent(w, req).value);
    }
  }

  // ---------- after a restore ----------

  ghost predicate NoUltravCheckpoint(w: World) {
    forall n | HasCheckpoint(w.dom.checkpoints, n) :: !IsUltravCheckpoint(n)
  }

  lemma NoneAppears(w: World, ev: Event)
    requires Inv(w) && NoUltravCheckpoint(w) && !ev.Backup?
    ensures NoUltravCheckpoint(Step(w, ev))
  {
    match ev
    case Write(t, b, v) => RecordMarks(w.dom.checkpoints, Cell(t, b));
    case Delete(id) =>
      if Find(w.lib, id).Some? {
        RemovalKeepsOthers(w.dom.checkpoints, Find(w.lib, id).value.checkpoint);
      }
    case DropCheckpoint(name) => RemovalKeepsOthers(w.dom.checkpoints, name);
    case AddForeignCheckpoint(name) =>
      if !HasCheckpoint(w.dom.checkpoints, name) {
        AppendCheckpoint(w.dom.checkpoints, name);
      }
    case Restore(id, failAt) => NoneAppearsInRestore(w, id, failAt);
    case _ =>
  }

  lemma NoneAppearsInRestore(w: World, id: string, failAt: nat)
    requires Inv(w) && NoUltravCheckpoint(w)
    ensures NoUltravCheckpoint(Step(w, Restore(id, failAt)))
  {
    InvOrdersParents(w);
    RestoreUnfolds(w, id, failAt);
    DropUltravKeepsForeign(w.dom.checkpoints, w.dom.checkpoints);
  }

  lemma {:induction false} NoneAppearsInRun(w: World, evs: seq<Event>)
    requires Inv(w) && NoUltravCheckpoint(w) && AdmissibleRun(w, evs)
    requires forall ev | ev in evs :: !ev.Backup?
    ensures NoUltravCheckpoint(Exec(w, evs)) && Inv(Exec(w, evs))
    decreases |evs|
  {
    if evs != [] {
      NoneAppears(w, evs[0]);
      StepKeeps(w, evs[0]);
      assert forall ev | ev in evs[1..] :: ev in evs;
      NoneAppearsInRun(Step(w, evs[0]), evs[1..]);
    }
  }

  lemma RestoreLeavesNone(w: World, id: string, failAt: nat)
    requires Inv(w) && ParentsOlder(w.lib) && RestoreStep(w, id, failAt).1.Done?
    ensures NoUltravCheckpoint(RestoreStep(w, id, failAt).0)
  {
    RestoreUnfolds(w, id, failAt);
    DropUltravKeepsForeign(w.dom.checkpoints, w.dom.checkpoints);
  }

  lemma NoneMeansFull(w: World)
    requires Inv(w) && NoUltravCheckpoint(w)
    ensures ChainParent(w, Auto) == Ok(Anchor("", "")) && ChainParent(w, ForceIncremental) == Err(InvalidState)
  {
    if w.lib != [] {
      assert w.lib[0] in w.lib && Taken(w.log, w.lib[0]);
      assert CaptureOk(w.dom, w.log, w.clock, w.lib[0].id);
    }
  }

  /** The first automatic backup after a restore is a full, whatever happens in
      between; a forced incremental is refused. */
  lemma RestoreStartsNewChain(w: World, id: string, failAt: nat, evs: seq<Event>)
    requires Inv(w) && ParentsOlder(w.lib) && RestoreStep(w, id, failAt).1.Done?
    requires AdmissibleRun(RestoreStep(w, id, failAt).0, evs) && forall ev | ev in evs :: !ev.Backup?
    ensures var w' := Exec(RestoreStep(w, id, failAt).0, evs);
            ChainParent(w', Auto) == Ok(Anchor("", "")) && ChainParent(w', ForceIncremental) == Err(InvalidState)
  {
    var w1 := RestoreStep(w, id, failAt).0;
    assert w1 == Step(w, Restore(id, failAt));
    RestoreKeeps(w, id, failAt);
    RestoreLeavesNone(w, id, failAt);
    NoneAppearsInRun(w1, evs);
    NoneMeansFull(Exec(w1, evs));
  }

  // ---------- a new point on a broken chain ----------

  lemma {:induction false} LineageIsOlder(log: Log, id: string)
    requires Ordered(log) && id in log.taken
    ensures forall a | a in Lineage(log, id) :: a in log.taken && log.taken[a].createdAt <= log.taken[id].createdAt
    decreases log.taken[id].createdAt
  {
    if log.taken[id].parent != "" {
      LineageIsOlder(log, log.taken[id].parent);
    }
  }

  /** Lineages depend on the parents alone. */
  lemma {:induction false} LineageCarries(log: Log, later: Log, id: string)
    requires Ordered(log) && Ordered(later) && id in log.taken
    requires forall i | i in log.taken :: i in later.taken && later.taken[i].parent == log.taken[i].parent
    ensures Lineage(later, id) == Lineage(log, id)
    decreases log.taken[id].createdAt
  {
    if log.taken[id].parent != "" {
      LineageCarries(log, later, log.taken[id].parent);
    }
  }

  lemma JobIsTaken(w: World)
    requires Inv(w) && w.job.Some?
    ensures Taken(w.log, w.job.value) && CaptureOk(w.dom, w.log, w.clock, w.job.value.id)
  {
  }

  /** What publishing a job's images does to the library and the history. */
  lemma PublishedWorld(w: World, produced: Disks)
    requires w.job.Some? && AllProduced(w.job.value.targets, produced) && Taken(w.log, w.job.value)
    ensures var p := w.job.value;
            var w' := JobStep(w, Ended(produced, true)).0;
            && w'.lib == [p.(images := Images(p.targets, produced))] + w.lib
            && w'.dom == w.dom && w'.log.snaps == w.log.snaps && w'.job.None? && w'.clock == w.clock
            && w'.log.bad <= w.log.bad + {p.id}
            && w'.log.taken == w.log.taken[p.id := w'.lib[0]]
  {
  }

  lemma ListedBehind(p: Point, lib: seq<Point>, a: string)
    ensures Listed([p] + lib, a) <==> a == p.id || Listed(lib, a)
  {
    assert ([p] + lib)[1..] == lib;
  }

  /** The lineage of a point just put before its library is whole if and only if
      its parent's was. */
  lemma UnbrokenBehind(w: World, w': World, p: Point)
    requires Ordered(w.log) && Ordered(w'.log) && w'.lib == [p] + w.lib
    requires w'.log.taken == w.log.taken[p.id := p] && p.id in w.log.taken && w.log.taken[p.id].parent == p.parent
    requires p.parent != "" ==> p.parent in w.log.taken && w.log.taken[p.parent].createdAt < w.log.taken[p.id].createdAt
    ensures Unbroken(w', p.id) <==> p.parent == "" || Unbroken(w, p.parent)
  {
    forall a ensures Listed(w'.lib, a) <==> a == p.id || Listed(w.lib, a) {
      ListedBehind(p, w.lib, a);
    }
    if p.parent != "" {
      LineageIsOlder(w.log, p.parent);
      LineageCarries(w.log, w'.log, p.parent);
      var above := Lineage(w.log, p.parent);
      assert Lineage(w'.log, p.id) == above + [p.id];
      assert forall a | a in above :: a != p.id;
      assert forall a :: a in above + [p.id] <==> a in above || a == p.id;
    } else {
      assert Lineage(w'.log, p.id) == [p.id];
    }
  }

  /** A point just published is restorable exactly when it is a full or its
      parent still was: nothing stops an automatic incremental from building on
      a chain whose older points are gone. */
  lemma NewPointRestorable(w: World, produced: Disks)
    requires Inv(w) && Ordered(w.log) && w.job.Some? && AllProduced(w.job.value.targets, produced)
    ensures var w' := JobStep(w, Ended(produced, true)).0;
            && Inv(w') && Ordered(w'.log)
            && (Unbroken(w', w.job.value.id) <==> w.job.value.parent == "" || Unbroken(w, w.job.value.parent))
  {
    var w' := JobStep(w, Ended(produced, true)).0;
    EndedKeeps(w, produced);
    HistoryIsOrdered(w');
    JobIsTaken(w);
    PublishedWorld(w, produced);
    UnbrokenBehind(w, w', w'.lib[0]);
  }
}
