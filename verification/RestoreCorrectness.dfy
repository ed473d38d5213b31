/** Restoring gives back what was backed up: over every run of ChainModel, when a
    restore succeeds, what it leaves on the disks, and what it leaves alone. */
module RestoreCorrectness {
  import opened Wrappers
  import opened ChainModel
  import opened ChainInvariant

  // ---------- the ancestor chain ----------

  /** The part of the invariant that chains rest on. */
  ghost predicate ChainReady(w: World) {
    && ParentsOlder(w.lib)
    && forall p | p in w.lib :: Taken(w.log, p) && CaptureOk(w.dom, w.log, w.clock, p.id)
  }

  lemma InvMakesReady(w: World)
    requires Inv(w)
    ensures ChainReady(w)
  {
    InvOrdersParents(w);
    forall p | p in w.lib
      ensures Taken(w.log, p) && CaptureOk(w.dom, w.log, w.clock, p.id)
    {
      assert Taken(w.log, p);
    }
  }

  ghost predicate WellShaped(lib: seq<Point>, p: Point, c: seq<Point>) {
    && c != [] && c[|c| - 1] == p
    && c[0].kind.Full? && c[0].parent == ""
    && (forall i | 0 <= i < |c| :: c[i] in lib)
    && forall i | 0 < i < |c| ::
         c[i].kind.Incremental? && c[i].parent == c[i - 1].id && c[i - 1].createdAt < c[i].createdAt
  }

  lemma WellShapedGrows(lib: seq<Point>, q: Point, c: seq<Point>, p: Point)
    requires WellShaped(lib, q, c) && p in lib
    requires p.kind.Incremental? && p.parent == q.id && q.createdAt < p.createdAt
    ensures WellShaped(lib, p, c + [p])
  {
    var d := c + [p];
    forall i | 0 < i < |d|
      ensures d[i].kind.Incremental? && d[i].parent == d[i - 1].id && d[i - 1].createdAt < d[i].createdAt
    {
      if i < |c| {
        assert d[i] == c[i] && d[i - 1] == c[i - 1];
      }
    }
  }

  /** The chain starts at a full, ends at the requested point, links each point
      to the next by parent id, and grows in time. */
  lemma {:induction false} ChainShape(w: World, p: Point)
    requires ChainReady(w) && p in w.lib && Chain(w.lib, p).Some?
    ensures WellShaped(w.lib, p, Chain(w.lib, p).value)
    decreases p.createdAt
  {
    assert Taken(w.log, p) && CaptureOk(w.dom, w.log, w.clock, p.id);
    if p.parent == "" {
      assert Chain(w.lib, p) == Some([p]);
    } else {
      FindIsMember(w.lib, p.parent);
      var q := Find(w.lib, p.parent).value;
      ChainShape(w, q);
      var c := Chain(w.lib, q).value;
      assert Chain(w.lib, p).value == c + [p];
      assert q.createdAt < p.createdAt;
      WellShapedGrows(w.lib, q, c, p);
    }
  }

  ghost predicate Sound(log: Log, chain: seq<Point>) {
    forall m | m in chain :: m.id !in log.bad
  }

  lemma ReplayAppend(c: seq<Point>, p: Point, t: string)
    requires HasImages(c, t) && t in p.targets && t in p.images
    ensures HasImages(c + [p], t)
    ensures Replay(c + [p], t) == Replay(c, t) + p.images[t]
  {
    assert (c + [p])[..|c|] == c;
  }

  /** Replaying a sound chain rebuilds the captured disks. */
  lemma {:induction false} ReplayGivesSnapshot(w: World, p: Point, t: string)
    requires ChainReady(w) && p in w.lib && Chain(w.lib, p).Some?
    requires t in FileDisks(w.dom.devices) && t in w.dom.disks
    ensures p.id in w.log.snaps && t in w.log.snaps[p.id]
    ensures HasImages(Chain(w.lib, p).value, t)
    ensures Sound(w.log, Chain(w.lib, p).value) ==> Replay(Chain(w.lib, p).value, t) == w.log.snaps[p.id][t]
    decreases p.createdAt
  {
    assert Taken(w.log, p) && CaptureOk(w.dom, w.log, w.clock, p.id);
    if p.parent == "" {
      assert [] + [p] == [p] == Chain(w.lib, p).value;
      ReplayAppend([], p, t);
      assert p in [p];
    } else {
      FindIsMember(w.lib, p.parent);
      var q := Find(w.lib, p.parent).value;
      var c := Chain(w.lib, q).value;
      ReplayGivesSnapshot(w, q, t);
      ReplayAppend(c, p, t);
      assert Chain(w.lib, p).value == c + [p];
      if Sound(w.log, c + [p]) {
        assert forall m | m in c :: m in c + [p];
        assert p in c + [p];
      }
    }
  }

  /** Ids of a point's ancestors and the point, oldest first, whether or not
      they are still listed. */
  ghost function Lineage(log: Log, id: string): seq<string>
    requires Ordered(log) && id in log.taken
    decreases log.taken[id].createdAt
  {
    var p := log.taken[id];
    if p.parent == "" then [id] else Lineage(log, p.parent) + [id]
  }

  ghost predicate Listed(lib: seq<Point>, id: string) {
    Find(lib, id).Some?
  }

  ghost predicate Ordered(log: Log) {
    forall i | i in log.taken && log.taken[i].parent != "" ::
      log.taken[i].parent in log.taken && log.taken[log.taken[i].parent].createdAt < log.taken[i].createdAt
  }

  lemma HistoryIsOrdered(w: World)
    requires Inv(w)
    ensures Ordered(w.log)
  {
    forall i | i in w.log.taken && w.log.taken[i].parent != ""
      ensures w.log.taken[i].parent in w.log.taken && w.log.taken[w.log.taken[i].parent].createdAt < w.log.taken[i].createdAt
    {
      assert CaptureOk(w.dom, w.log, w.clock, i);
    }
  }

  /** The chain exists exactly when every ancestor is still listed. */
  lemma {:induction false} ChainIffAncestorsListed(w: World, p: Point)
    requires ChainReady(w) && Ordered(w.log) && p in w.lib && Taken(w.log, p)
    ensures Chain(w.lib, p).Some? <==> forall a | a in Lineage(w.log, p.id) :: Listed(w.lib, a)
    decreases p.createdAt
  {
    MemberIsListed(w.lib, p);
    var ids := Lineage(w.log, p.id);
    if p.parent != "" {
      var above := Lineage(w.log, p.parent);
      assert forall a :: a in ids <==> a in above || a == p.id;
      LineageEnds(w.log, p.parent);
      FindIsMember(w.lib, p.parent);
      if Listed(w.lib, p.parent) {
        var q := Find(w.lib, p.parent).value;
        assert Taken(w.log, q);
        ChainIffAncestorsListed(w, q);
      }
    }
  }

  lemma LineageEnds(log: Log, id: string)
    requires Ordered(log) && id in log.taken
    ensures id in Lineage(log, id)
  {
  }

  lemma {:induction false} MemberIsListed(lib: seq<Point>, p: Point)
    requires p in lib
    ensures Listed(lib, p.id)
  {
    if lib[0].id != p.id {
      MemberIsListed(lib[1..], p);
    }
  }

  // ---------- one restore ----------

  lemma {:induction false} RestoreWritesAll(chain: seq<Point>, targets: seq<string>, sources: seq<string>, disks: Disks, failAt: nat)
    requires Distinct(targets) && forall t | t in targets :: t in sources && t in disks && HasImages(chain, t)
    ensures var r := RestoreDisks(chain, targets, sources, disks, failAt);
            && r.replaced == (if failAt < |targets| then failAt else |targets|)
            && (r.ok <==> |targets| <= failAt)
            && (r.ok ==> forall t | t in targets :: t in r.disks && r.disks[t] == Replay(chain, t))
    decreases targets
  {
    if targets != [] && failAt != 0 {
      var t0 := targets[0];
      assert forall t | t in targets[1..] :: t in targets;
      var disks1 := disks[t0 := Replay(chain, t0)];
      RestoreWritesAll(chain, targets[1..], sources, disks1, failAt - 1);
      RestoreKeepsOthers(chain, targets[1..], sources, disks1, failAt - 1, t0);
    }
  }

  lemma {:induction false} RestoreKeepsOthers(chain: seq<Point>, targets: seq<string>, sources: seq<string>, disks: Disks, failAt: nat, t: string)
    requires t !in targets && t in disks
    ensures var r := RestoreDisks(chain, targets, sources, disks, failAt); t in r.disks && r.disks[t] == disks[t]
    decreases targets
  {
    if targets != [] && targets[0] in sources && failAt != 0 && HasImages(chain, targets[0]) {
      RestoreKeepsOthers(chain, targets[1..], sources, disks[targets[0] := Replay(chain, targets[0])], failAt - 1, t);
    }
  }

  ghost predicate Unbroken(w: World, id: string)
    requires Ordered(w.log)
  {
    id in w.log.taken && forall a | a in Lineage(w.log, id) :: Listed(w.lib, a)
  }

  ghost predicate SoundChain(w: World, id: string)
    requires ParentsOlder(w.lib)
  {
    FindIsMember(w.lib, id);
    Listed(w.lib, id) && Chain(w.lib, Find(w.lib, id).value).Some?
    && Sound(w.log, Chain(w.lib, Find(w.lib, id).value).value)
  }

  /** A restore succeeds exactly when the VM is stopped, every ancestor is listed
      and no copy fails; then a sound chain leaves exactly the captured disks.
      Otherwise, unless copying fails part way, nothing at all changes. */
  lemma RestoreIsExact(w: World, id: string, failAt: nat)
    requires Inv(w) && ParentsOlder(w.lib) && Ordered(w.log)
    ensures var out := RestoreStep(w, id, failAt).1;
            && (out.Done? <==> Listed(w.lib, id) && !w.dom.running && Unbroken(w, id)
                               && |FileDisks(w.dom.devices)| <= failAt)
            && (out.NotFound? <==> !Listed(w.lib, id))
            && (out.InvalidState? <==> Listed(w.lib, id) && (w.dom.running || !Unbroken(w, id)))
    ensures RestoreStep(w, id, failAt).1.Done? && SoundChain(w, id) ==>
              id in w.log.snaps && RestoreStep(w, id, failAt).0.dom.disks == w.log.snaps[id]
    ensures !RestoreStep(w, id, failAt).1.Done? && (failAt == 0 || !RestoreStep(w, id, failAt).1.Failed?) ==>
              RestoreStep(w, id, failAt).0 == w
    ensures RestoreStep(w, id, failAt).0.lib == w.lib
  {
    InvMakesReady(w);
    RestoreUnfolds(w, id, failAt);
    if Listed(w.lib, id) {
      FindIsMember(w.lib, id);
      var p := Find(w.lib, id).value;
      assert Taken(w.log, p);
      ChainIffAncestorsListed(w, p);
      if !w.dom.running && Unbroken(w, id) {
        var c := Chain(w.lib, p).value;
        RestoredDisks(w, p, failAt, c, RestoreDisks(c, p.targets, FileDisks(w.dom.devices), w.dom.disks, failAt));
      }
    }
  }

  lemma RestoredDisks(w: World, p: Point, failAt: nat, c: seq<Point>, r: Restored)
    requires ChainReady(w) && DomainOk(w.dom) && p in w.lib && Chain(w.lib, p) == Some(c)
    requires r == RestoreDisks(c, p.targets, FileDisks(w.dom.devices), w.dom.disks, failAt)
    ensures p.id in w.log.snaps && p.targets == FileDisks(w.dom.devices)
    ensures r.ok <==> |p.targets| <= failAt
    ensures failAt == 0 && !r.ok ==> r.replaced == 0 && r.disks == w.dom.disks
    ensures !r.ok ==> r.replaced == failAt
    ensures r.ok && Sound(w.log, c) ==> r.disks == w.log.snaps[p.id]
  {
    assert Taken(w.log, p) && CaptureOk(w.dom, w.log, w.clock, p.id);
    forall t | t in p.targets
      ensures t in w.dom.disks && HasImages(c, t)
      ensures Sound(w.log, c) ==> Replay(c, t) == w.log.snaps[p.id][t]
    {
      assert t in w.dom.disks;
      ReplayGivesSnapshot(w, p, t);
    }
    RestoreWritesAll(c, p.targets, p.targets, w.dom.disks, failAt);
    RestoreTouchesTargets(c, p.targets, p.targets, w.dom.disks, failAt);
  }

  // ---------- whole runs ----------

  /** No restore fails after replacing a disk, and a job that ended without an
      error had finished its images. */
  ghost predicate Clean(w: World, ev: Event) {
    && (ev.Restore? ==> ev.failAt == 0 || |FileDisks(w.dom.devices)| <= ev.failAt)
    && (ev.JobEnds? && ev.end.Ended? && w.job.Some? ==>
          forall t | t in w.job.value.images && t in ev.end.produced :: ev.end.produced[t] == w.job.value.images[t])
  }

  ghost predicate CleanRun(w: World, evs: seq<Event>)
    decreases |evs|
  {
    evs == [] || (Admissible(w, evs[0]) && Clean(w, evs[0]) && CleanRun(Step(w, evs[0]), evs[1..]))
  }

  ghost predicate Untainted(w: World) {
    Inv(w) && w.log.suspect == {} && w.log.bad == {}
  }

  lemma CleanJobPublishesItsImages(w: World, end: JobEnd)
    requires Clean(w, JobEnds(end))
    requires w.job.Some? ==> w.job.value.images.Keys == (set t | t in w.job.value.targets)
    ensures JobStep(w, end).0.log == w.log && JobStep(w, end).0.dom == w.dom
  {
    if w.job.Some? && end.Ended? && AllProduced(w.job.value.targets, end.produced) {
      var p := w.job.value;
      var images := Images(p.targets, end.produced);
      assert images == p.images;
      assert p.(images := images) == p;
    }
  }

  lemma CleanRestoreKeeps(w: World, id: string, failAt: nat)
    requires Inv(w) && Clean(w, Restore(id, failAt))
    ensures Step(w, Restore(id, failAt)).log.suspect == w.log.suspect
    ensures Step(w, Restore(id, failAt)).log.bad == w.log.bad
    ensures Step(w, Restore(id, failAt)).log.snaps == w.log.snaps
    ensures Step(w, Restore(id, failAt)).dom.devices == w.dom.devices
  {
    InvMakesReady(w);
    RestoreUnfolds(w, id, failAt);
    if Find(w.lib, id).Some? && Chain(w.lib, Find(w.lib, id).value).Some? {
      var p := Find(w.lib, id).value;
      var c := Chain(w.lib, p).value;
      RestoredDisks(w, p, failAt, c, RestoreDisks(c, p.targets, FileDisks(w.dom.devices), w.dom.disks, failAt));
    }
  }

  /** The snapshots of `log` are also in `later`. */
  ghost predicate Remembers(later: Log, log: Log) {
    forall id | id in log.snaps :: id in later.snaps && later.snaps[id] == log.snaps[id]
  }

  lemma OthersKeepLog(w: World, ev: Event)
    requires !ev.Restore? && !ev.JobEnds? && !ev.Backup?
    ensures Step(w, ev).log == w.log && Step(w, ev).dom.devices == w.dom.devices
  {
  }

  lemma CleanJobKeeps(w: World, end: JobEnd)
    requires Inv(w) && Clean(w, JobEnds(end))
    ensures Step(w, JobEnds(end)).log == w.log && Step(w, JobEnds(end)).dom == w.dom
  {
    JobImagesMatchTargets(w);
    CleanJobPublishesItsImages(w, end);
  }

  lemma CleanBackupKeeps(w: World, req: Request, id: string, at: nat, begins: bool)
    requires Inv(w) && w.log.suspect == {} && id !in w.log.taken
    ensures var w' := Step(w, Backup(req, id, at, begins));
            w'.log.suspect == {} && w'.log.bad == w.log.bad && Remembers(w'.log, w.log)
            && w'.dom.devices == w.dom.devices
  {
    TaintNeedsSuspect(w, req, id, at, begins);
  }

  lemma CleanStepKeeps(w: World, ev: Event)
    requires Untainted(w) && Admissible(w, ev) && Clean(w, ev)
    ensures Untainted(Step(w, ev))
    ensures Remembers(Step(w, ev).log, w.log) && Step(w, ev).dom.devices == w.dom.devices
  {
    StepKeeps(w, ev);
    if ev.Restore? {
      CleanRestoreKeeps(w, ev.id, ev.failAt);
    } else if ev.JobEnds? {
      CleanJobKeeps(w, ev.end);
    } else if ev.Backup? {
      CleanBackupKeeps(w, ev.req, ev.id, ev.at, ev.begins);
    } else {
      OthersKeepLog(w, ev);
    }
  }

  lemma JobImagesMatchTargets(w: World)
    requires Inv(w)
    ensures w.job.Some? ==> w.job.value.images.Keys == (set t | t in w.job.value.targets)
  {
    if w.job.Some? {
      assert CaptureOk(w.dom, w.log, w.clock, w.job.value.id);
    }
  }

  lemma TaintNeedsSuspect(w: World, req: Request, id: string, at: nat, begins: bool)
    requires w.log.suspect == {} && id !in w.log.snaps
    ensures var w' := BackupStep(w, req, id, at, begins).0;
            w'.log.suspect == {} && w'.log.bad == w.log.bad && Remembers(w'.log, w.log)
            && w'.dom.devices == w.dom.devices
  {
  }

  lemma {:induction false} CleanRunKeeps(w: World, evs: seq<Event>)
    requires Untainted(w) && CleanRun(w, evs)
    ensures Untainted(Exec(w, evs))
    ensures Remembers(Exec(w, evs).log, w.log) && Exec(w, evs).dom.devices == w.dom.devices
    decreases |evs|
  {
    if evs != [] {
      CleanStepKeeps(w, evs[0]);
      CleanRunKeeps(Step(w, evs[0]), evs[1..]);
    }
  }

  /** A successful restore of an untainted world gives the captured disks; it
      succeeds unless an ancestor is gone, the VM runs or copying fails, and
      without its ancestors it changes nothing. */
  lemma UntaintedRestore(w: World, id: string, failAt: nat)
    requires Untainted(w)
    ensures ParentsOlder(w.lib) && Ordered(w.log)
    ensures RestoreStep(w, id, failAt).1.Done? ==>
              id in w.log.snaps && RestoreStep(w, id, failAt).0.dom.disks == w.log.snaps[id]
    ensures Listed(w.lib, id) && Unbroken(w, id) && !w.dom.running && |FileDisks(w.dom.devices)| <= failAt ==>
              RestoreStep(w, id, failAt).1.Done?
    ensures !Listed(w.lib, id) || !Unbroken(w, id) ==>
              RestoreStep(w, id, failAt).0 == w && !RestoreStep(w, id, failAt).1.Done?
  {
    InvOrdersParents(w);
    HistoryIsOrdered(w);
    RestoreIsExact(w, id, failAt);
    if Listed(w.lib, id) {
      RestoreUnfolds(w, id, failAt);
    }
  }

  lemma CaptureRecordsDisks(w: World, req: Request, id: string, at: nat, begins: bool)
    ensures BackupStep(w, req, id, at, begins).1.Done? ==>
              var log := BackupStep(w, req, id, at, begins).0.log;
              id in log.snaps && log.snaps[id] == w.dom.disks
  {
  }

  /** From a domain before its first backup to the moment a backup is taken. */
  lemma CleanUpToBackup(w0: World, before: seq<Event>, w1: World, backup: Event, w2: World)
    requires Init(w0) && CleanRun(w0, before) && w1 == Exec(w0, before)
    requires backup.Backup? && Admissible(w1, backup) && w2 == Step(w1, backup)
    requires BackupStep(w1, backup.req, backup.id, backup.at, backup.begins).1.Done?
    ensures Untainted(w2) && backup.id in w2.log.snaps && w2.log.snaps[backup.id] == w1.dom.disks
    ensures w2.dom.devices == w0.dom.devices
  {
    InitEstablishes(w0);
    CleanRunKeeps(w0, before);
    CaptureRecordsDisks(w1, backup.req, backup.id, backup.at, backup.begins);
    CleanStepKeeps(w1, backup);
  }

  /** From there on, whatever clean events follow. */
  lemma CleanAfterBackup(w2: World, after: seq<Event>, w: World, id: string)
    requires Untainted(w2) && id in w2.log.snaps && CleanRun(w2, after) && w == Exec(w2, after)
    ensures Untainted(w) && id in w.log.snaps && w.log.snaps[id] == w2.log.snaps[id]
    ensures w.dom.devices == w2.dom.devices
  {
    CleanRunKeeps(w2, after);
  }

  /** End to end: back up after any clean run, do anything clean afterwards, and
      a restore of that backup that succeeds leaves the disks as they were when
      it was taken; it succeeds whenever the VM is stopped, the point and all
      its ancestors are listed, and copying works. With an ancestor gone it
      changes nothing. */
  lemma BackupThenRestore(w0: World, before: seq<Event>, w1: World, backup: Event, w2: World,
                          after: seq<Event>, w: World, failAt: nat)
    requires Init(w0) && CleanRun(w0, before) && w1 == Exec(w0, before)
    requires backup.Backup? && Admissible(w1, backup) && w2 == Step(w1, backup)
    requires BackupStep(w1, backup.req, backup.id, backup.at, backup.begins).1.Done?
    requires CleanRun(w2, after) && w == Exec(w2, after)
    ensures ParentsOlder(w.lib) && Ordered(w.log)
    ensures RestoreStep(w, backup.id, failAt).1.Done? ==> RestoreStep(w, backup.id, failAt).0.dom.disks == w1.dom.disks
    ensures Listed(w.lib, backup.id) && Unbroken(w, backup.id) && !w.dom.running &&
            |FileDisks(w0.dom.devices)| <= failAt ==>
              RestoreStep(w, backup.id, failAt).1.Done?
    ensures !Unbroken(w, backup.id) ==>
              RestoreStep(w, backup.id, failAt).0 == w && !RestoreStep(w, backup.id, failAt).1.Done?
  {
    CleanUpToBackup(w0, before, w1, backup, w2);
    CleanAfterBackup(w2, after, w, backup.id);
    UntaintedRestore(w, backup.id, failAt);
  }
}
