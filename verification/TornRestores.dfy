/** What a restore that failed part way does to the next incremental: the
    checkpoints it leaves in place no longer describe the disks it replaced. */
module TornRestores {
  import opened Wrappers
  import opened ChainModel
  import opened ChainInvariant
  import opened RestoreCorrectness
  import opened ChainConsequences
  import opened Exactness

  // ---------- cells out of step ----------

  /** An incremental on `snap` that copies the dirty cells gets this cell of the
      disk wrong. */
  ghost predicate Stale(snap: Image, disk: Image, dirty: set<Cell>, c: Cell) {
    if c.block in disk then (c.block !in snap || disk[c.block] != snap[c.block]) && c !in dirty
    else c.block in snap
  }

  ghost predicate StaleAt(snaps: Disks, disks: Disks, dirty: set<Cell>, c: Cell) {
    c.target in snaps && c.target in disks && Stale(snaps[c.target], disks[c.target], dirty, c)
  }

  ghost predicate NoneStale(snaps: Disks, disks: Disks, dirty: set<Cell>) {
    forall c :: !StaleAt(snaps, disks, dirty, c)
  }

  /** The copied cells rebuild the disk if and only if no cell is stale. */
  lemma DeltaExactIff(t: string, snap: Image, disk: Image, dirty: set<Cell>)
    ensures snap + DirtyPart(t, disk, dirty) == disk <==> forall b :: !Stale(snap, disk, dirty, Cell(t, b))
  {
    var laid := snap + DirtyPart(t, disk, dirty);
    if forall b :: !Stale(snap, disk, dirty, Cell(t, b)) {
      forall b ensures b in laid <==> b in disk {
        assert !Stale(snap, disk, dirty, Cell(t, b));
      }
      forall b | b in disk ensures laid[b] == disk[b] {
        assert !Stale(snap, disk, dirty, Cell(t, b));
      }
    }
    if laid == disk {
      forall b ensures !Stale(snap, disk, dirty, Cell(t, b)) {
        assert b in laid <==> b in snap || b in DirtyPart(t, disk, dirty);
      }
    }
  }

  lemma CoveredIffNoneStale(snaps: Disks, disks: Disks, dirty: set<Cell>)
    requires snaps.Keys == disks.Keys
    ensures Covers(snaps, disks, dirty) <==> NoneStale(snaps, disks, dirty)
  {
    if NoneStale(snaps, disks, dirty) {
      forall t | t in disks ensures CoversDisk(t, snaps[t], disks[t], dirty) {
        forall b | b in snaps[t] ensures b in disks[t] {
          assert !StaleAt(snaps, disks, dirty, Cell(t, b));
        }
        forall b | b in disks[t] && (b !in snaps[t] || disks[t][b] != snaps[t][b]) ensures Cell(t, b) in dirty {
          assert !StaleAt(snaps, disks, dirty, Cell(t, b));
        }
      }
    }
  }

  // ---------- between the restore and the next backup ----------

  /** Guest writes, power changes, deletions, the operator's checkpoints, and
      backups that fail before they begin. */
  predicate CalmEvent(ev: Event) {
    || ev.Write? || ev.Start? || ev.Stop? || ev.Delete? || ev.AddForeignCheckpoint? || ev.DropCheckpoint?
    || (ev.Backup? && !ev.begins)
  }

  predicate Calm(evs: seq<Event>) {
    forall i :: 0 <= i < |evs| ==> CalmEvent(evs[i])
  }

  /** The cells a run writes. */
  ghost function Written(w: World, evs: seq<Event>): set<Cell>
    decreases |evs|
  {
    if evs == [] then {} else WrittenBy(w, evs[0]) + Written(Step(w, evs[0]), evs[1..])
  }

  function WrittenBy(w: World, ev: Event): set<Cell> {
    if ev.Write? && w.dom.running && ev.target in w.dom.disks then {Cell(ev.target, ev.block)} else {}
  }

  /** Nothing was captured or restored. */
  ghost predicate Aside(w: World, w': World) {
    && w'.job == w.job && w'.log == w.log && w.clock <= w'.clock
    && w'.dom.devices == w.dom.devices && w'.dom.disks.Keys == w.dom.disks.Keys
  }

  ghost predicate SameStaleBut(snaps: Disks, since: string, w: World, w': World, cells: set<Cell>) {
    forall c :: StaleAt(snaps, w'.dom.disks, DirtySince(w'.dom.checkpoints, since), c) <==>
                StaleAt(snaps, w.dom.disks, DirtySince(w.dom.checkpoints, since), c) && c !in cells
  }

  lemma WriteStales(w: World, t: string, b: nat, v: int, snaps: Disks, since: string)
    requires HasCheckpoint(WriteStep(w, t, b, v).dom.checkpoints, since)
    ensures HasCheckpoint(w.dom.checkpoints, since)
    ensures SameStaleBut(snaps, since, w, WriteStep(w, t, b, v), WrittenBy(w, Write(t, b, v)))
  {
    RecordMarks(w.dom.checkpoints, Cell(t, b));
  }

  ghost predicate SameDirty(w: World, w': World, since: string) {
    && HasCheckpoint(w.dom.checkpoints, since) && w'.dom.disks == w.dom.disks
    && DirtySince(w'.dom.checkpoints, since) == DirtySince(w.dom.checkpoints, since)
  }

  lemma RemovalKeepsDirty(w: World, w': World, name: string, since: string)
    requires DistinctNames(w.dom.checkpoints) && w'.dom == w.dom.(checkpoints := RemoveCheckpoint(w.dom.checkpoints, name))
    requires HasCheckpoint(w'.dom.checkpoints, since)
    ensures SameDirty(w, w', since)
  {
    RemovalKeepsOthers(w.dom.checkpoints, name);
  }

  lemma DeleteKeepsDirty(w: World, id: string, since: string)
    requires DistinctNames(w.dom.checkpoints) && HasCheckpoint(DeleteStep(w, id).0.dom.checkpoints, since)
    ensures SameDirty(w, DeleteStep(w, id).0, since)
  {
    if Find(w.lib, id).Some? && Find(w.lib, id).value.checkpoint != "" {
      RemovalKeepsDirty(w, DeleteStep(w, id).0, Find(w.lib, id).value.checkpoint, since);
    }
  }

  lemma AddKeepsDirty(w: World, name: string, since: string)
    requires DistinctNames(w.dom.checkpoints) && IsUltravCheckpoint(since)
    requires HasCheckpoint(Step(w, AddForeignCheckpoint(name)).dom.checkpoints, since)
    ensures SameDirty(w, Step(w, AddForeignCheckpoint(name)), since)
  {
    if !HasCheckpoint(w.dom.checkpoints, name) {
      AppendCheckpoint(w.dom.checkpoints, name);
    }
  }

  /** A checkpoint that is kept keeps its dirty set. */
  lemma CheckpointStays(w: World, ev: Event, since: string)
    requires DistinctNames(w.dom.checkpoints) && CalmEvent(ev) && !ev.Write? && IsUltravCheckpoint(since)
    requires HasCheckpoint(Step(w, ev).dom.checkpoints, since)
    ensures SameDirty(w, Step(w, ev), since)
  {
    match ev
    case Delete(id) => DeleteKeepsDirty(w, id, since);
    case AddForeignCheckpoint(name) => AddKeepsDirty(w, name, since);
    case DropCheckpoint(name) => RemovalKeepsDirty(w, Step(w, ev), name, since);
    case _ =>
  }

  lemma CalmStep(w: World, ev: Event, snaps: Disks, since: string)
    requires DistinctNames(w.dom.checkpoints) && CalmEvent(ev) && IsUltravCheckpoint(since)
    requires HasCheckpoint(Step(w, ev).dom.checkpoints, since)
    ensures HasCheckpoint(w.dom.checkpoints, since)
    ensures SameStaleBut(snaps, since, w, Step(w, ev), WrittenBy(w, ev))
  {
    if ev.Write? {
      WriteStales(w, ev.target, ev.block, ev.value, snaps, since);
    } else {
      CheckpointStays(w, ev, since);
    }
  }

  lemma CalmStepAside(w: World, ev: Event)
    requires CalmEvent(ev) && Admissible(w, ev)
    ensures Aside(w, Step(w, ev))
  {
  }

  /** As long as a checkpoint is kept, the cells that an incremental from it gets
      wrong are those it got wrong before and the guest has not rewritten. */
  lemma {:induction false} CalmRun(w: World, evs: seq<Event>, snaps: Disks, since: string)
    requires Inv(w) && Calm(evs) && AdmissibleRun(w, evs) && IsUltravCheckpoint(since)
    requires HasCheckpoint(Exec(w, evs).dom.checkpoints, since)
    ensures Inv(Exec(w, evs)) && Aside(w, Exec(w, evs)) && HasCheckpoint(w.dom.checkpoints, since)
    ensures SameStaleBut(snaps, since, w, Exec(w, evs), Written(w, evs))
    decreases |evs|
  {
    if evs != [] {
      StepKeeps(w, evs[0]);
      CalmStepAside(w, evs[0]);
      CalmRun(Step(w, evs[0]), evs[1..], snaps, since);
      CalmStep(w, evs[0], snaps, since);
    }
  }

  // ---------- the restore ----------

  /** A restore that fails at the target with index failAt has replaced those
      before it. */
  lemma {:induction false} RestorePrefix(chain: seq<Point>, targets: seq<string>, sources: seq<string>, disks: Disks, failAt: nat)
    requires Distinct(targets) && forall t | t in targets :: t in sources && t in disks && HasImages(chain, t)
    requires failAt < |targets|
    ensures var r := RestoreDisks(chain, targets, sources, disks, failAt);
            && !r.ok && r.replaced == failAt && r.disks.Keys == disks.Keys
            && (forall t | t in targets[..failAt] :: t in disks && r.disks[t] == Replay(chain, t))
            && (forall t | t in disks && t !in targets[..failAt] :: r.disks[t] == disks[t])
    decreases targets
  {
    if failAt > 0 {
      var t0 := targets[0];
      var disks1 := disks[t0 := Replay(chain, t0)];
      RestorePrefix(chain, targets[1..], sources, disks1, failAt - 1);
      assert targets[..failAt] == [t0] + targets[1..][..failAt - 1];
      assert t0 !in targets[1..][..failAt - 1];
    }
  }

  /** Restoring `id` on a stopped domain, on a sound and unbroken lineage, fails
      at the disk with index failAt. */
  ghost predicate Tears(w: World, id: string, failAt: nat, torn: World)
    requires Ordered(w.log) && ParentsOlder(w.lib)
  {
    && Listed(w.lib, id) && Unbroken(w, id) && SoundLineage(w.log, id)
    && !w.dom.running && failAt < |FileDisks(w.dom.devices)|
    && torn == RestoreStep(w, id, failAt).0
  }

  lemma TornDisks(w: World, id: string, failAt: nat, torn: World)
    requires Ready(w) && Tears(w, id, failAt, torn)
    ensures RestoreStep(w, id, failAt).1.Failed?
    ensures torn.lib == w.lib && torn.job == w.job && torn.clock == w.clock
    ensures torn.dom == w.dom.(disks := torn.dom.disks) && torn.log == w.log.(suspect := torn.log.suspect)
    ensures torn.dom.disks.Keys == w.dom.disks.Keys
    ensures forall t | t in w.dom.disks && t !in FileDisks(w.dom.devices)[..failAt] :: torn.dom.disks[t] == w.dom.disks[t]
    ensures id in w.log.snaps
    ensures forall t | t in FileDisks(w.dom.devices)[..failAt] ::
              t in w.dom.disks && t in w.log.snaps[id] && torn.dom.disks[t] == w.log.snaps[id][t]
  {
    var targets := FileDisks(w.dom.devices);
    ListedReady(w, id);
    RestoreUnfolds(w, id, failAt);
    var p := Find(w.lib, id).value;
    var c := Chain(w.lib, p).value;
    forall t | t in targets
      ensures t in w.dom.disks && HasImages(c, t)
      ensures id in w.log.snaps && t in w.log.snaps[id] && Replay(c, t) == w.log.snaps[id][t]
    {
      SoundReplay(w, id, t);
    }
    assert p.targets == targets;
    RestorePrefix(c, targets, targets, w.dom.disks, failAt);
  }

  // ---------- what it leaves stale ----------

  /** The cells of replaced disks in which the restored point differs from the
      chosen parent without being dirty. Known before the restore. */
  ghost predicate TearStale(w: World, a: Anchor, id: string, failAt: nat, c: Cell)
    requires id in w.log.snaps && a.parent in w.log.snaps && failAt <= |FileDisks(w.dom.devices)|
  {
    && c.target in FileDisks(w.dom.devices)[..failAt]
    && StaleAt(w.log.snaps[a.parent], w.log.snaps[id], DirtySince(w.dom.checkpoints, a.checkpoint), c)
  }

  /** The parent that the next automatic incremental would have. */
  ghost predicate NextParent(w: World, a: Anchor) {
    ChainParent(w, Auto) == Ok(a) && a.parent != "" && a.parent !in w.log.suspect
  }

  lemma ParentCovers(w: World, a: Anchor)
    requires Inv(w) && NextParent(w, a)
    ensures a.parent in w.log.snaps && w.log.snaps[a.parent].Keys == w.dom.disks.Keys
    ensures HasCheckpoint(w.dom.checkpoints, a.checkpoint) && w.lib != [] && w.lib[0].id == a.parent
    ensures NoneStale(w.log.snaps[a.parent], w.dom.disks, DirtySince(w.dom.checkpoints, a.checkpoint))
  {
    AnchorIsTrusted(w, a);
    CoveredIffNoneStale(w.log.snaps[a.parent], w.dom.disks, DirtySince(w.dom.checkpoints, a.checkpoint));
  }

  lemma TornStale(w: World, a: Anchor, id: string, failAt: nat, torn: World)
    requires Ready(w) && Tears(w, id, failAt, torn) && id in w.log.snaps
    requires a.parent in w.log.snaps && w.log.snaps[a.parent].Keys == w.dom.disks.Keys
    requires NoneStale(w.log.snaps[a.parent], w.dom.disks, DirtySince(w.dom.checkpoints, a.checkpoint))
    ensures forall c :: StaleAt(w.log.snaps[a.parent], torn.dom.disks, DirtySince(torn.dom.checkpoints, a.checkpoint), c)
                        <==> TearStale(w, a, id, failAt, c)
  {
    TornDisks(w, id, failAt, torn);
    var dirty := DirtySince(w.dom.checkpoints, a.checkpoint);
    var snaps := w.log.snaps[a.parent];
    forall c ensures StaleAt(snaps, torn.dom.disks, dirty, c) <==> TearStale(w, a, id, failAt, c) {
      if c.target in w.dom.disks && c.target !in FileDisks(w.dom.devices)[..failAt] {
        assert !StaleAt(snaps, w.dom.disks, dirty, c);
      }
    }
  }

  /** After a torn restore the dirty set of the next backup's parent covers what
      differs from the parent's snapshot if and only if the restore left nothing
      stale. */
  lemma TornCoverageIff(w: World, a: Anchor, id: string, failAt: nat, torn: World)
    requires Inv(w) && Ready(w) && Tears(w, id, failAt, torn) && NextParent(w, a)
    ensures id in w.log.snaps && a.parent in w.log.snaps && ChainParent(torn, Auto) == Ok(a)
    ensures Covers(w.log.snaps[a.parent], torn.dom.disks, DirtySince(torn.dom.checkpoints, a.checkpoint)) <==>
            forall c :: !TearStale(w, a, id, failAt, c)
  {
    ParentCovers(w, a);
    TornDisks(w, id, failAt, torn);
    TornStale(w, a, id, failAt, torn);
    SameParent(w, torn, a);
    CoveredIffNoneStale(w.log.snaps[a.parent], torn.dom.disks, DirtySince(torn.dom.checkpoints, a.checkpoint));
  }

  /** A torn restore of the chosen parent itself does no harm: whatever differs from
      its snapshot afterwards is dirty. */
  lemma TearOfParentIsHarmless(w: World, a: Anchor, failAt: nat, torn: World)
    requires Inv(w) && Ready(w) && Tears(w, a.parent, failAt, torn) && NextParent(w, a)
    ensures a.parent in w.log.snaps && ChainParent(torn, Auto) == Ok(a)
    ensures Covers(w.log.snaps[a.parent], torn.dom.disks, DirtySince(torn.dom.checkpoints, a.checkpoint))
  {
    TornCoverageIff(w, a, a.parent, failAt, torn);
  }

  lemma SameParent(w: World, w': World, a: Anchor)
    requires ChainParent(w, Auto) == Ok(a) && w'.lib == w.lib && w'.dom.checkpoints == w.dom.checkpoints
    ensures ChainParent(w', Auto) == Ok(a)
  {
  }

  // ---------- the next automatic point ----------

  /** w1 runs the job of an automatic backup of w, w2 has published its images,
      and w3 is stopped. */
  ghost predicate NextPoint(w: World, a: Anchor, id: string, at: nat, p: Point, w1: World, w2: World, w3: World) {
    && p == NewPoint(w.dom, a, id, at, CheckpointName(id))
    && w1 == BackupStep(w, Auto, id, at, true).0
    && w2 == JobStep(w1, Ended(p.images, true)).0
    && w3 == w2.(dom := w2.dom.(running := false))
  }

  lemma NextPointFields(w: World, a: Anchor, id: string, at: nat, p: Point, w1: World)
    requires w.dom.running && FileDisks(w.dom.devices) != [] && ChainParent(w, Auto) == Ok(a)
    requires p == NewPoint(w.dom, a, id, at, CheckpointName(id)) && w1 == BackupStep(w, Auto, id, at, true).0
    ensures w1.job == Some(p) && w1.lib == w.lib && w1.dom.disks == w.dom.disks && w1.dom.devices == w.dom.devices
    ensures w1.log == Capture(w.log, p, w.dom.disks)
  {
  }

  lemma CaptureKeepsWhole(w: World, p: Point, parent: string, w1: World)
    requires Ordered(w.log) && Ordered(w1.log) && SoundLineage(w.log, parent) && Unbroken(w, parent)
    requires p.id !in w.log.taken && w1.log == Capture(w.log, p, w.dom.disks) && w1.lib == w.lib
    ensures SoundLineage(w1.log, parent) && Unbroken(w1, parent)
  {
    LineageIsOlder(w.log, parent);
    LineageCarries(w.log, w1.log, parent);
  }

  lemma AllImages(targets: seq<string>, images: Disks)
    requires images.Keys == (set t | t in targets)
    ensures AllProduced(targets, images) && Images(targets, images) == images
  {
  }

  lemma NextPointBegins(w: World, a: Anchor, id: string, at: nat, p: Point, w1: World)
    requires Inv(w) && Ordered(w.log) && w.dom.running && FileDisks(w.dom.devices) != [] && w.job.None?
    requires ChainParent(w, Auto) == Ok(a) && a.parent != "" && SoundLineage(w.log, a.parent) && Unbroken(w, a.parent)
    requires IsPointId(id) && id !in w.log.taken && w.clock < at
    requires p == NewPoint(w.dom, a, id, at, CheckpointName(id)) && w1 == BackupStep(w, Auto, id, at, true).0
    ensures Inv(w1) && Ordered(w1.log) && ParentWhole(w1) && w1.job == Some(p)
    ensures p.images.Keys == (set t | t in p.targets) == w.dom.disks.Keys
  {
    NextPointFields(w, a, id, at, p, w1);
    BackupKeeps(w, Auto, id, at, true);
    HistoryIsOrdered(w1);
    CaptureKeepsWhole(w, p, a.parent, w1);
    JobImagesMatchTargets(w1);
    JobTargets(w1);
  }

  lemma NextPointIsReady(p: Point, w1: World, w2: World, w3: World)
    requires Inv(w1) && Ordered(w1.log) && ParentWhole(w1) && w1.job == Some(p)
    requires p.images.Keys == (set t | t in p.targets)
    requires w2 == JobStep(w1, Ended(p.images, true)).0 && w3 == w2.(dom := w2.dom.(running := false))
    ensures Ready(w3) && NewestWhole(w3) && w3.lib == [p] + w1.lib && w3.log.snaps == w1.log.snaps
    ensures w3.dom.disks == w1.dom.disks && w3.dom.devices == w1.dom.devices
  {
    AllImages(p.targets, p.images);
    EndedIsReady(w1, p.images, w2, w3);
    EndedIsWhole(w1, p.images, w2);
    StoppedIsWhole(w2, w3);
    JobIsTaken(w1);
    PublishedWorld(w1, p.images);
  }

  lemma OverlaysExactIff(disks: Disks, snaps: Disks, before: Disks, images: Disks, dirty: set<Cell>)
    requires disks.Keys == snaps.Keys == before.Keys == images.Keys
    requires forall t | t in before :: images[t] == DirtyPart(t, before[t], dirty) && disks[t] == snaps[t] + images[t]
    ensures disks == before <==> NoneStale(snaps, before, dirty)
  {
    forall t | t in before
      ensures disks[t] == before[t] <==> forall b :: !StaleAt(snaps, before, dirty, Cell(t, b))
    {
      DeltaExactIff(t, snaps[t], before[t], dirty);
    }
    if disks == before {
      forall c ensures !StaleAt(snaps, before, dirty, c) {
        assert c == Cell(c.target, c.block);
      }
    }
  }

  lemma CopiedIsDirtyPart(dom: Domain, since: string)
    requires since != "" && Copied(dom, since).Keys == dom.disks.Keys
    ensures forall t | t in dom.disks :: Copied(dom, since)[t] == DirtyPart(t, dom.disks[t], DirtySince(dom.checkpoints, since))
  {
  }

  /** Restoring the next automatic incremental gives the disks it was taken from
      if and only if no cell was stale. */
  lemma NextPointExactIff(w: World, a: Anchor, p: Point, w3: World, n: nat, after: World)
    requires Ready(w3) && NewestWhole(w3) && w3.lib[0] == p && !w3.dom.running
    requires |FileDisks(w3.dom.devices)| <= n && w3.dom.disks == w.dom.disks
    requires p.parent == a.parent != "" && p.images == Copied(w.dom, a.checkpoint) && a.checkpoint != ""
    requires p.images.Keys == w.dom.disks.Keys
    requires a.parent in w3.log.snaps && w3.log.snaps[a.parent].Keys == w.dom.disks.Keys
    requires after == Step(w3, Restore(p.id, n))
    ensures RestoreStep(w3, p.id, n).1.Done?
    ensures after.dom.disks == w.dom.disks <==>
            NoneStale(w3.log.snaps[a.parent], w.dom.disks, DirtySince(w.dom.checkpoints, a.checkpoint))
  {
    RestoreNewest(w3, n, after);
    CopiedIsDirtyPart(w.dom, a.checkpoint);
    OverlaysExactIff(after.dom.disks, w3.log.snaps[a.parent], w.dom.disks, p.images,
                     DirtySince(w.dom.checkpoints, a.checkpoint));
  }

  /** The chosen parent's checkpoint bears its name. */
  lemma AnchorName(w: World, a: Anchor)
    requires Inv(w) && ChainParent(w, Auto) == Ok(a) && a.parent != ""
    ensures IsUltravCheckpoint(a.checkpoint) && HasCheckpoint(w.dom.checkpoints, a.checkpoint)
  {
    assert w.lib[0] in w.lib && Taken(w.log, w.lib[0]);
    assert CaptureOk(w.dom, w.log, w.clock, w.lib[0].id);
  }

  /** What the parent rests on is the same after the torn restore and whatever was
      neither captured nor restored. */
  lemma ParentSurvives(w: World, a: Anchor, torn: World, later: World)
    requires Ordered(w.log) && SoundLineage(w.log, a.parent)
    requires forall x | x in Lineage(w.log, a.parent) :: Listed(later.lib, x)
    requires torn.log == w.log.(suspect := torn.log.suspect) && later.log == torn.log
    ensures Ordered(later.log) && SoundLineage(later.log, a.parent) && Unbroken(later, a.parent)
  {
    LineageCarries(w.log, later.log, a.parent);
  }

  /** The guest has rewritten every cell the tear left stale. */
  ghost predicate Rewritten(w: World, a: Anchor, id: string, failAt: nat, torn: World, evs: seq<Event>)
    requires id in w.log.snaps && a.parent in w.log.snaps && failAt <= |FileDisks(w.dom.devices)|
  {
    forall c | TearStale(w, a, id, failAt, c) :: c in Written(torn, evs)
  }

  lemma TornIsInv(w: World, id: string, failAt: nat, torn: World)
    requires Inv(w) && ParentsOlder(w.lib) && torn == RestoreStep(w, id, failAt).0
    ensures Inv(torn)
  {
    RestoreKeeps(w, id, failAt);
    assert torn == Step(w, Restore(id, failAt));
  }

  lemma NoneStaleIffRewritten(w: World, a: Anchor, id: string, failAt: nat, torn: World, evs: seq<Event>, later: World)
    requires id in w.log.snaps && a.parent in w.log.snaps && failAt <= |FileDisks(w.dom.devices)|
    requires forall c :: StaleAt(w.log.snaps[a.parent], torn.dom.disks, DirtySince(torn.dom.checkpoints, a.checkpoint), c)
                         <==> TearStale(w, a, id, failAt, c)
    requires SameStaleBut(w.log.snaps[a.parent], a.checkpoint, torn, later, Written(torn, evs))
    ensures NoneStale(w.log.snaps[a.parent], later.dom.disks, DirtySince(later.dom.checkpoints, a.checkpoint)) <==>
            Rewritten(w, a, id, failAt, torn, evs)
  {
  }

  lemma ChosenIsKept(w: World, a: Anchor)
    requires ChainParent(w, Auto) == Ok(a) && a.parent != ""
    ensures HasCheckpoint(w.dom.checkpoints, a.checkpoint)
  {
  }

  /** What is known right after the torn restore. */
  lemma TornFacts(w: World, a: Anchor, id: string, failAt: nat, torn: World)
    requires Inv(w) && Ready(w) && Tears(w, id, failAt, torn) && NextParent(w, a)
    ensures Inv(torn) && torn.job == w.job && torn.clock == w.clock && torn.dom.devices == w.dom.devices
    ensures torn.log == w.log.(suspect := torn.log.suspect)
    ensures a.parent in w.log.snaps && id in w.log.snaps && w.log.snaps[a.parent].Keys == torn.dom.disks.Keys
    ensures IsUltravCheckpoint(a.checkpoint)
    ensures forall c :: StaleAt(w.log.snaps[a.parent], torn.dom.disks, DirtySince(torn.dom.checkpoints, a.checkpoint), c)
                        <==> TearStale(w, a, id, failAt, c)
  {
    ParentCovers(w, a);
    TornDisks(w, id, failAt, torn);
    TornStale(w, a, id, failAt, torn);
    TornIsInv(w, id, failAt, torn);
    AnchorName(w, a);
  }

  /** What is known of the domain when the next backup is taken. */
  lemma StaleLater(w: World, a: Anchor, id: string, failAt: nat, torn: World, evs: seq<Event>, later: World)
    requires Inv(w) && Ready(w) && Tears(w, id, failAt, torn) && NextParent(w, a)
    requires Calm(evs) && AdmissibleRun(torn, evs) && later == Exec(torn, evs) && ChainParent(later, Auto) == Ok(a)
    ensures Inv(later) && Aside(torn, later) && torn.job == w.job && torn.clock == w.clock
    ensures torn.dom.devices == w.dom.devices && torn.log == w.log.(suspect := torn.log.suspect)
    ensures a.parent in w.log.snaps && id in w.log.snaps && w.log.snaps[a.parent].Keys == later.dom.disks.Keys
    ensures NoneStale(w.log.snaps[a.parent], later.dom.disks, DirtySince(later.dom.checkpoints, a.checkpoint)) <==>
            Rewritten(w, a, id, failAt, torn, evs)
  {
    TornFacts(w, a, id, failAt, torn);
    ChosenIsKept(later, a);
    CalmRun(torn, evs, w.log.snaps[a.parent], a.checkpoint);
    NoneStaleIffRewritten(w, a, id, failAt, torn, evs, later);
  }

  /** A restore tears at the disk with index failAt. After guest writes, power
      changes, deletions, failed backups and changes of checkpoints that leave the
      parent and its ancestors in place, the next automatic backup is taken and
      restored. The disks come back as they were at that backup if and only if
      the guest has rewritten every cell the tear left stale. */
  lemma NextPointAfterTearIff(w: World, a: Anchor, id: string, failAt: nat, torn: World, evs: seq<Event>,
                              w0: World, next: string, at: nat, p: Point, w1: World, w2: World, w3: World, n: nat)
    requires Inv(w) && Ready(w) && Tears(w, id, failAt, torn) && w.job.None?
    requires NextParent(w, a) && SoundLineage(w.log, a.parent)
    requires Calm(evs) && AdmissibleRun(torn, evs) && w0 == Exec(torn, evs) && w0.dom.running
    requires ChainParent(w0, Auto) == Ok(a) && forall x | x in Lineage(w.log, a.parent) :: Listed(w0.lib, x)
    requires IsPointId(next) && next !in w.log.taken && w0.clock < at && NextPoint(w0, a, next, at, p, w1, w2, w3)
    requires |FileDisks(w.dom.devices)| <= n
    ensures id in w.log.snaps && a.parent in w.log.snaps
    ensures ParentsOlder(w3.lib) && RestoreStep(w3, next, n).1.Done?
    ensures Step(w3, Restore(next, n)).dom.disks == w0.dom.disks <==> Rewritten(w, a, id, failAt, torn, evs)
  {
    StaleLater(w, a, id, failAt, torn, evs, w0);
    ParentSurvives(w, a, torn, w0);
    AfterTearCore(w0, a, next, at, p, w1, w2, w3, n);
  }

  lemma ChosenIsKnown(w: World, a: Anchor)
    requires Inv(w) && ChainParent(w, Auto) == Ok(a) && a.parent != ""
    ensures a.checkpoint != "" && a.parent in w.log.taken
  {
    AnchorIsTrusted(w, a);
  }

  lemma AfterTearCore(w: World, a: Anchor, id: string, at: nat, p: Point, w1: World, w2: World, w3: World, n: nat)
    requires Inv(w) && Ordered(w.log) && w.dom.running && w.job.None? && FileDisks(w.dom.devices) != []
    requires ChainParent(w, Auto) == Ok(a) && a.parent != "" && SoundLineage(w.log, a.parent) && Unbroken(w, a.parent)
    requires a.parent in w.log.snaps && w.log.snaps[a.parent].Keys == w.dom.disks.Keys
    requires IsPointId(id) && id !in w.log.taken && w.clock < at && NextPoint(w, a, id, at, p, w1, w2, w3)
    requires |FileDisks(w.dom.devices)| <= n
    ensures ParentsOlder(w3.lib) && RestoreStep(w3, id, n).1.Done?
    ensures Step(w3, Restore(id, n)).dom.disks == w.dom.disks <==>
            NoneStale(w.log.snaps[a.parent], w.dom.disks, DirtySince(w.dom.checkpoints, a.checkpoint))
  {
    ChosenIsKnown(w, a);
    NextPointBegins(w, a, id, at, p, w1);
    NextPointFields(w, a, id, at, p, w1);
    NextPointIsReady(p, w1, w2, w3);
    AfterTearFinal(w, a, id, at, p, w3, n);
  }

  lemma AfterTearFinal(w: World, a: Anchor, id: string, at: nat, p: Point, w3: World, n: nat)
    requires p == NewPoint(w.dom, a, id, at, CheckpointName(id)) && a.parent != "" && a.checkpoint != "" && a.parent != id
    requires a.parent in w.log.snaps && w.log.snaps[a.parent].Keys == w.dom.disks.Keys == p.images.Keys
    requires Ready(w3) && NewestWhole(w3) && w3.lib == [p] + w.lib && !w3.dom.running
    requires w3.dom.disks == w.dom.disks && w3.dom.devices == w.dom.devices && |FileDisks(w.dom.devices)| <= n
    requires w3.log.snaps == w.log.snaps[id := w.dom.disks]
    ensures RestoreStep(w3, id, n).1.Done?
    ensures Step(w3, Restore(id, n)).dom.disks == w.dom.disks <==>
            NoneStale(w.log.snaps[a.parent], w.dom.disks, DirtySince(w.dom.checkpoints, a.checkpoint))
  {
    NextPointExactIff(w, a, p, w3, n, Step(w3, Restore(id, n)));
  }
}
