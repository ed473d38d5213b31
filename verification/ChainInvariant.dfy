/** What every step of ChainModel keeps: the shape of the library, the contents
    of each captured point relative to its parent, and the coverage of every
    dirty bitmap an incremental backup may start from. */
module ChainInvariant {
  import opened Wrappers
  import opened ChainModel

  // ---------- checkpoints ----------

  predicate DistinctNames(cps: seq<Checkpoint>) {
    cps == [] || (!HasCheckpoint(cps[1..], cps[0].name) && DistinctNames(cps[1..]))
  }

  lemma {:induction false} AppendCheckpoint(cps: seq<Checkpoint>, name: string)
    requires DistinctNames(cps) && !HasCheckpoint(cps, name)
    ensures DistinctNames(cps + [Checkpoint(name, {})])
    ensures forall n :: HasCheckpoint(cps + [Checkpoint(name, {})], n) <==> HasCheckpoint(cps, n) || n == name
    ensures forall n | n != name :: DirtySince(cps + [Checkpoint(name, {})], n) == DirtySince(cps, n)
    ensures DirtySince(cps + [Checkpoint(name, {})], name) == {}
    ensures AllDirty(cps + [Checkpoint(name, {})]) == AllDirty(cps)
  {
    var c := Checkpoint(name, {});
    if cps == [] {
      assert cps + [c] == [c] && [c][1..] == [];
      assert AllDirty([c]) == {};
    } else {
      assert (cps + [c])[1..] == cps[1..] + [c];
      AppendCheckpoint(cps[1..], name);
    }
  }

  lemma {:induction false} RecordMarks(cps: seq<Checkpoint>, cell: Cell)
    ensures forall n :: HasCheckpoint(Record(cps, cell), n) <==> HasCheckpoint(cps, n)
    ensures DistinctNames(cps) ==> DistinctNames(Record(cps, cell))
    ensures cps != [] ==> AllDirty(Record(cps, cell)) == AllDirty(cps) + {cell}
    ensures forall n | HasCheckpoint(cps, n) :: DirtySince(Record(cps, cell), n) == DirtySince(cps, n) + {cell}
  {
    if |cps| > 1 {
      RecordMarks(cps[1..], cell);
    }
  }

  /** Deleting a checkpoint loses no cell of any other checkpoint's dirty set. */
  lemma {:induction false} RemovalKeepsOthers(cps: seq<Checkpoint>, name: string)
    requires DistinctNames(cps)
    ensures DistinctNames(RemoveCheckpoint(cps, name))
    ensures forall n :: HasCheckpoint(RemoveCheckpoint(cps, name), n) <==> HasCheckpoint(cps, n) && n != name
    ensures forall n | n != name :: DirtySince(RemoveCheckpoint(cps, name), n) == DirtySince(cps, n)
    ensures cps != [] && cps[0].name != name ==> AllDirty(RemoveCheckpoint(cps, name)) == AllDirty(cps)
  {
    if |cps| > 1 && cps[0].name != name {
      if cps[1].name == name {
        var merged := cps[0].(dirty := cps[0].dirty + cps[1].dirty);
        assert ([merged] + cps[2..])[1..] == cps[2..] == cps[1..][1..];
        assert AllDirty(cps) == cps[0].dirty + (cps[1].dirty + AllDirty(cps[2..]));
        assert AllDirty([merged] + cps[2..]) == AllDirty(cps);
        forall n | n != name ensures DirtySince(cps, n) == DirtySince([merged] + cps[2..], n) {
          assert DirtySince(cps[1..], n) == DirtySince(cps[2..], n);
        }
      } else {
        RemovalKeepsOthers(cps[1..], name);
      }
    }
  }

  lemma {:induction false} DropUltravKeepsForeign(cps: seq<Checkpoint>, listed: seq<Checkpoint>)
    requires DistinctNames(cps)
    ensures DistinctNames(DropUltrav(cps, listed))
    ensures forall n :: HasCheckpoint(DropUltrav(cps, listed), n) <==>
              HasCheckpoint(cps, n) && !(IsUltravCheckpoint(n) && HasCheckpoint(listed, n))
    decreases |listed|
  {
    if listed != [] {
      RemovalKeepsOthers(cps, listed[0].name);
      DropUltravKeepsForeign(if IsUltravCheckpoint(listed[0].name) then RemoveCheckpoint(cps, listed[0].name) else cps,
                             listed[1..]);
    }
  }

  // ---------- the invariant ----------

  ghost predicate DomainOk(dom: Domain) {
    && Distinct(FileDisks(dom.devices))
    && dom.disks.Keys == (set t | t in FileDisks(dom.devices))
    && DistinctNames(dom.checkpoints)
  }

  ghost predicate NewestFirst(lib: seq<Point>) {
    forall i, j | 0 <= i < j < |lib| :: lib[j].createdAt < lib[i].createdAt
  }

  /** A published or pending point is the one captured under its id. */
  ghost predicate Taken(log: Log, p: Point) {
    p.id in log.taken && log.taken[p.id] == p
  }

  ghost predicate LibraryOk(w: World) {
    && NewestFirst(w.lib)
    && (forall p | p in w.lib :: Taken(w.log, p))
    && (w.job.Some? ==> Taken(w.log, w.job.value) && w.job.value.checkpoint == CheckpointName(w.job.value.id)
                        && forall p | p in w.lib :: p.createdAt < w.job.value.createdAt)
  }

  /** Full image sets equal the captured disks; incremental ones turn the
      parent's captured disks into the point's. */
  ghost predicate ImagesOk(log: Log, p: Point)
    requires p.id in log.snaps && (p.parent != "" ==> p.parent in log.snaps)
    requires p.parent != "" ==> log.snaps[p.parent].Keys == log.snaps[p.id].Keys
    requires p.images.Keys == log.snaps[p.id].Keys
  {
    if p.parent == "" then p.images == log.snaps[p.id]
    else forall t | t in p.images :: log.snaps[p.parent][t] + p.images[t] == log.snaps[p.id][t]
  }

  ghost predicate CaptureOk(dom: Domain, log: Log, clock: nat, id: string)
    requires id in log.taken
  {
    var p := log.taken[id];
    && p.id == id && IsPointId(id) && p.createdAt <= clock
    && p.checkpoint in {"", CheckpointName(id)}
    && p.targets == FileDisks(dom.devices)
    && id in log.snaps && log.snaps[id].Keys == dom.disks.Keys == p.images.Keys
    && (p.kind.Incremental? <==> p.parent != "")
    && (p.parent != "" ==>
          && p.parent in log.taken && p.parent in log.snaps
          && log.snaps[p.parent].Keys == dom.disks.Keys
          && log.taken[p.parent].createdAt < p.createdAt)
    && (id !in log.bad ==> ImagesOk(log, p))
  }

  /** No restore completed between the parent's capture and the point's. */
  ghost predicate NoRestoreWithin(log: Log, p: Point) {
    p.parent != "" && p.parent in log.taken ==>
      forall r | r in log.restores :: r < log.taken[p.parent].createdAt || p.createdAt <= r
  }

  /** No listed point lies strictly between the point and its parent. */
  ghost predicate NothingBetween(lib: seq<Point>, log: Log, p: Point) {
    p.parent != "" && p.parent in log.taken ==>
      forall q | q in lib :: q.createdAt <= log.taken[p.parent].createdAt || p.createdAt <= q.createdAt
  }

  ghost predicate HistoryOk(w: World) {
    && w.log.taken.Keys == w.log.snaps.Keys
    && (forall r | r in w.log.restores :: r <= w.clock)
    && (forall id | id in w.log.taken :: CaptureOk(w.dom, w.log, w.clock, id) && NoRestoreWithin(w.log, w.log.taken[id]))
    && (forall p | p in w.lib :: NothingBetween(w.lib, w.log, p))
    && (w.job.Some? ==> NothingBetween(w.lib, w.log, w.job.value))
  }

  /** Every cluster of the disk that is new or has changed since the snapshot is
      dirty, and none has gone. */
  ghost predicate CoversDisk(t: string, snap: Image, disk: Image, dirty: set<Cell>) {
    && snap.Keys <= disk.Keys
    && forall b | b in disk && (b !in snap || disk[b] != snap[b]) :: Cell(t, b) in dirty
  }

  ghost predicate Covers(snap: Disks, disks: Disks, dirty: set<Cell>) {
    && snap.Keys == disks.Keys
    && forall t | t in disks :: CoversDisk(t, snap[t], disks[t], dirty)
  }

  /** Incremental coverage: the checkpoint of any captured point, if the domain
      still has it, covers what changed since, and no restore came after it. */
  ghost predicate CoverageOk(dom: Domain, log: Log, id: string)
    requires id in log.taken && id in log.snaps
  {
    var p := log.taken[id];
    p.checkpoint != "" && HasCheckpoint(dom.checkpoints, p.checkpoint) ==>
      && (id !in log.suspect ==> Covers(log.snaps[id], dom.disks, DirtySince(dom.checkpoints, p.checkpoint)))
      && forall r | r in log.restores :: r < p.createdAt
  }

  /** Every UltraV checkpoint was created with a captured point. */
  ghost predicate CheckpointsKnown(dom: Domain, log: Log) {
    forall n | HasCheckpoint(dom.checkpoints, n) && IsUltravCheckpoint(n) ::
      exists id :: id in log.taken && n == CheckpointName(id)
  }

  ghost predicate Inv(w: World) {
    && DomainOk(w.dom)
    && LibraryOk(w)
    && HistoryOk(w)
    && CheckpointsKnown(w.dom, w.log)
    && forall id | id in w.log.taken :: CoverageOk(w.dom, w.log, id)
  }

  // ---------- steps that only touch the domain ----------

  lemma NamesDiffer(a: string, b: string)
    requires IsPointId(a) && IsPointId(b) && CheckpointName(a) == CheckpointName(b)
    ensures a == b
  {
    assert a == a[..3] + a[3..] && b == b[..3] + b[3..];
    assert CheckpointName(a)[4..] == a[3..] && CheckpointName(b)[4..] == b[3..];
  }

  /** The facts about the past depend on the domain's disk list alone. */
  lemma HistoryCarries(w: World, dom: Domain)
    requires Inv(w) && dom.devices == w.dom.devices && dom.disks.Keys == w.dom.disks.Keys
    ensures LibraryOk(w.(dom := dom)) && HistoryOk(w.(dom := dom))
  {
    forall id | id in w.log.taken
      ensures CaptureOk(dom, w.log, w.clock, id)
    {
      assert CaptureOk(w.dom, w.log, w.clock, id);
    }
  }

  lemma CoversAfterWrite(snap: Disks, disks: Disks, dirty: set<Cell>, t: string, b: nat, v: int)
    requires Covers(snap, disks, dirty) && t in disks
    ensures Covers(snap, disks[t := Put(disks[t], b, v)], dirty + {Cell(t, b)})
  {
  }

  lemma WriteKeeps(w: World, t: string, b: nat, v: int)
    requires Inv(w)
    ensures Inv(WriteStep(w, t, b, v))
  {
    var w' := WriteStep(w, t, b, v);
    if w' != w {
      RecordMarks(w.dom.checkpoints, Cell(t, b));
      assert w'.dom.disks.Keys == w.dom.disks.Keys;
      HistoryCarries(w, w'.dom);
      forall id | id in w.log.taken
        ensures CoverageOk(w'.dom, w.log, id)
      {
        CoverageAfterWrite(w, t, b, v, id);
      }
    }
  }

  lemma CoverageAfterWrite(w: World, t: string, b: nat, v: int, id: string)
    requires Inv(w) && id in w.log.taken && t in w.dom.disks && w.dom.running
    ensures CoverageOk(WriteStep(w, t, b, v).dom, w.log, id)
  {
    var p := w.log.taken[id];
    assert CoverageOk(w.dom, w.log, id);
    RecordMarks(w.dom.checkpoints, Cell(t, b));
    if HasCheckpoint(w.dom.checkpoints, p.checkpoint) && id !in w.log.suspect && p.checkpoint != "" {
      CoversAfterWrite(w.log.snaps[id], w.dom.disks, DirtySince(w.dom.checkpoints, p.checkpoint), t, b, v);
    }
  }

  /** Any change of the checkpoints that keeps the dirty sets of those it keeps. */
  lemma CheckpointsKeep(w: World, cps: seq<Checkpoint>)
    requires Inv(w) && DistinctNames(cps)
    requires forall n | HasCheckpoint(cps, n) && IsUltravCheckpoint(n) ::
               HasCheckpoint(w.dom.checkpoints, n) && DirtySince(cps, n) == DirtySince(w.dom.checkpoints, n)
    ensures Inv(w.(dom := w.dom.(checkpoints := cps)))
  {
    var dom' := w.dom.(checkpoints := cps);
    HistoryCarries(w, dom');
    forall id | id in w.log.taken
      ensures CoverageOk(dom', w.log, id)
    {
      assert CoverageOk(w.dom, w.log, id) && CaptureOk(w.dom, w.log, w.clock, id);
    }
  }

  lemma RecreateKeeps(w: World, contents: Disks)
    requires Inv(w)
    ensures Inv(Step(w, Recreate(contents)))
  {
    if contents.Keys == w.dom.disks.Keys {
      var dom' := w.dom.(disks := contents, running := false, checkpoints := []);
      HistoryCarries(w, dom');
    }
  }

  // ---------- capture ----------

  /** Copying the dirty cells turns the base snapshot into the current disks. */
  lemma DeltaRebuilds(snap: Disks, dom: Domain, since: string)
    requires since != "" && Covers(snap, dom.disks, DirtySince(dom.checkpoints, since))
    requires dom.disks.Keys == (set t | t in FileDisks(dom.devices))
    ensures Copied(dom, since).Keys == dom.disks.Keys
    ensures forall t | t in dom.disks :: snap[t] + Copied(dom, since)[t] == dom.disks[t]
  {
    forall t | t in dom.disks
      ensures t in Copied(dom, since) && snap[t] + Copied(dom, since)[t] == dom.disks[t]
    {
      assert t in FileDisks(dom.devices);
    }
  }

  lemma CopiedCovers(dom: Domain, since: string)
    requires dom.disks.Keys == (set t | t in FileDisks(dom.devices))
    ensures Copied(dom, since).Keys == dom.disks.Keys
    ensures since == "" ==> Copied(dom, since) == dom.disks
  {
    forall t | t in dom.disks
      ensures t in Copied(dom, since)
    {
      assert t in FileDisks(dom.devices);
    }
  }

  lemma AnchorIsTrusted(w: World, a: Anchor)
    requires Inv(w) && a.parent != "" && ChainParent(w, Auto) == Ok(a)
    ensures a.checkpoint != "" && a.parent in w.log.taken && a.parent in w.log.snaps
    ensures w.log.snaps[a.parent].Keys == w.dom.disks.Keys
    ensures w.log.taken[a.parent] == w.lib[0] && w.lib[0].createdAt <= w.clock
    ensures forall r | r in w.log.restores :: r < w.lib[0].createdAt
    ensures forall q | q in w.lib :: q.createdAt <= w.lib[0].createdAt
    ensures a.parent !in w.log.suspect ==>
              Covers(w.log.snaps[a.parent], w.dom.disks, DirtySince(w.dom.checkpoints, a.checkpoint))
  {
    var q := w.lib[0];
    assert q in w.lib && Taken(w.log, q);
    assert CaptureOk(w.dom, w.log, w.clock, q.id) && CoverageOk(w.dom, w.log, q.id);
  }

  /** A point captured now is sound: its images are whole, or a delta against
      a parent whose checkpoint covers what changed. */
  lemma CaptureIsSound(w: World, a: Anchor, id: string, at: nat, checkpoint: string)
    requires Inv(w) && IsPointId(id) && id !in w.log.taken && w.clock < at
    requires checkpoint in {"", CheckpointName(id)}
    requires a == Anchor("", "") || (a.parent != "" && ChainParent(w, Auto) == Ok(a))
    ensures var p := NewPoint(w.dom, a, id, at, checkpoint);
            var log := Capture(w.log, p, w.dom.disks);
            CaptureOk(w.dom, log, at, id) && NoRestoreWithin(log, p) && NothingBetween(w.lib, log, p)
  {
    var p := NewPoint(w.dom, a, id, at, checkpoint);
    var log := Capture(w.log, p, w.dom.disks);
    CopiedCovers(w.dom, a.checkpoint);
    assert log.snaps[id] == w.dom.disks && log.taken[id] == p;
    if a.parent != "" {
      AnchorIsTrusted(w, a);
      assert log.snaps[a.parent] == w.log.snaps[a.parent] && log.taken[a.parent] == w.lib[0];
      if a.parent !in w.log.suspect {
        DeltaRebuilds(w.log.snaps[a.parent], w.dom, a.checkpoint);
        assert ImagesOk(log, p);
      }
    }
  }

  lemma OldPointsCarry(w: World, p: Point)
    requires Inv(w) && p.id !in w.log.taken && w.clock < p.createdAt
    ensures var log := Capture(w.log, p, w.dom.disks);
            && (forall i | i in w.log.taken :: CaptureOk(w.dom, log, p.createdAt, i) && NoRestoreWithin(log, log.taken[i]))
            && (forall q | q in w.lib :: Taken(log, q) && q.createdAt < p.createdAt && NothingBetween(w.lib, log, q))
  {
    var log := Capture(w.log, p, w.dom.disks);
    forall i | i in w.log.taken
      ensures CaptureOk(w.dom, log, p.createdAt, i) && NoRestoreWithin(log, log.taken[i])
    {
      assert CaptureOk(w.dom, w.log, w.clock, i) && NoRestoreWithin(w.log, w.log.taken[i]);
    }
    forall q | q in w.lib
      ensures Taken(log, q) && q.createdAt < p.createdAt && NothingBetween(w.lib, log, q)
    {
      assert Taken(w.log, q) && CaptureOk(w.dom, w.log, w.clock, q.id);
      assert NothingBetween(w.lib, w.log, q);
    }
  }

  lemma CoverageAfterCapture(w: World, p: Point, cps: seq<Checkpoint>)
    requires Inv(w) && IsPointId(p.id) && p.id !in w.log.taken && w.clock < p.createdAt
    requires p.checkpoint in {"", CheckpointName(p.id)}
    requires cps == if p.checkpoint == "" then w.dom.checkpoints else w.dom.checkpoints + [Checkpoint(p.checkpoint, {})]
    ensures var log := Capture(w.log, p, w.dom.disks);
            var dom := w.dom.(checkpoints := cps);
            && DistinctNames(cps) && CheckpointsKnown(dom, log)
            && forall id | id in log.taken :: id in log.snaps && CoverageOk(dom, log, id)
  {
    var log := Capture(w.log, p, w.dom.disks);
    var dom := w.dom.(checkpoints := cps);
    var name := CheckpointName(p.id);
    if HasCheckpoint(w.dom.checkpoints, name) {
      var id :| id in w.log.taken && name == CheckpointName(id);
      assert CaptureOk(w.dom, w.log, w.clock, id);
      NamesDiffer(id, p.id);
      assert false;
    }
    AppendCheckpoint(w.dom.checkpoints, name);
    assert p.id in log.taken;
    forall n | HasCheckpoint(cps, n) && IsUltravCheckpoint(n)
      ensures exists id :: id in log.taken && n == CheckpointName(id)
    {
      if n != name {
        var id :| id in w.log.taken && n == CheckpointName(id);
        assert id in log.taken;
      }
    }
    forall id | id in log.taken
      ensures CoverageOk(dom, log, id)
    {
      if id != p.id {
        assert CoverageOk(w.dom, w.log, id) && CaptureOk(w.dom, w.log, w.clock, id);
        if log.taken[id].checkpoint == name {
          NamesDiffer(id, p.id);
        }
      }
    }
  }

  lemma PublishKeepsOrder(lib: seq<Point>, p: Point)
    requires NewestFirst(lib) && forall q | q in lib :: q.createdAt < p.createdAt
    ensures NewestFirst([p] + lib)
  {
    var lib' := [p] + lib;
    forall i, j | 0 <= i < j < |lib'|
      ensures lib'[j].createdAt < lib'[i].createdAt
    {
      assert lib'[j] == lib[j - 1] && lib[j - 1] in lib;
      assert i > 0 ==> lib'[i] == lib[i - 1];
    }
  }

  lemma ClockCarries(w: World, at: nat)
    requires Inv(w) && w.clock <= at
    ensures Inv(w.(clock := at))
  {
    forall i | i in w.log.taken
      ensures CaptureOk(w.dom, w.log, at, i)
    {
      assert CaptureOk(w.dom, w.log, w.clock, i);
    }
  }

  /** The history facts once a point has been captured. */
  lemma HistoryAfterCapture(w: World, a: Anchor, id: string, at: nat, checkpoint: string)
    requires Inv(w) && IsPointId(id) && id !in w.log.taken && w.clock < at
    requires checkpoint in {"", CheckpointName(id)}
    requires a == Anchor("", "") || (a.parent != "" && ChainParent(w, Auto) == Ok(a))
    ensures var p := NewPoint(w.dom, a, id, at, checkpoint);
            var log := Capture(w.log, p, w.dom.disks);
            && log.taken.Keys == log.snaps.Keys
            && forall i | i in log.taken :: CaptureOk(w.dom, log, at, i) && NoRestoreWithin(log, log.taken[i])
  {
    var p := NewPoint(w.dom, a, id, at, checkpoint);
    CaptureIsSound(w, a, id, at, checkpoint);
    OldPointsCarry(w, p);
  }

  lemma OnlineKeeps(w: World, a: Anchor, id: string, at: nat, w': World)
    requires Inv(w) && IsPointId(id) && id !in w.log.taken && w.clock < at && w.job.None?
    requires a == Anchor("", "") || (a.parent != "" && ChainParent(w, Auto) == Ok(a))
    requires var p := NewPoint(w.dom, a, id, at, CheckpointName(id));
             w' == World(w.dom.(checkpoints := w.dom.checkpoints + [Checkpoint(p.checkpoint, {})]),
                         w.lib, Some(p), at, Capture(w.log, p, w.dom.disks))
    ensures Inv(w')
  {
    var p := w'.job.value;
    CoverageAfterCapture(w, p, w'.dom.checkpoints);
    HistoryAfterCapture(w, a, id, at, p.checkpoint);
    CaptureIsSound(w, a, id, at, p.checkpoint);
    OldPointsCarry(w, p);
    forall i | i in w'.log.taken
      ensures CaptureOk(w'.dom, w'.log, at, i) && NoRestoreWithin(w'.log, w'.log.taken[i])
    {
      assert CaptureOk(w.dom, w'.log, at, i);
    }
  }

  lemma OfflineKeeps(w: World, id: string, at: nat, w': World)
    requires Inv(w) && IsPointId(id) && id !in w.log.taken && w.clock < at && w.job.None?
    requires var p := NewPoint(w.dom, Anchor("", ""), id, at, "");
             w' == World(w.dom, [p] + w.lib, None, at, Capture(w.log, p, w.dom.disks))
    ensures Inv(w')
  {
    var p := w'.lib[0];
    assert w'.lib[1..] == w.lib;
    CoverageAfterCapture(w, p, w.dom.checkpoints);
    assert w.dom.(checkpoints := w.dom.checkpoints) == w.dom;
    HistoryAfterCapture(w, Anchor("", ""), id, at, "");
    OldPointsCarry(w, p);
    PublishKeeps(w.lib, w'.log, p);
  }

  /** Publishing the newest captured point puts it between no others. */
  lemma PublishKeeps(lib: seq<Point>, log: Log, p: Point)
    requires NewestFirst(lib) && Taken(log, p) && NothingBetween(lib, log, p)
    requires forall q | q in lib :: Taken(log, q) && q.createdAt < p.createdAt && NothingBetween(lib, log, q)
    requires p.parent != "" && p.parent in log.taken ==> log.taken[p.parent].createdAt < p.createdAt
    ensures NewestFirst([p] + lib)
    ensures forall q | q in [p] + lib :: Taken(log, q) && NothingBetween([p] + lib, log, q)
  {
    PublishKeepsOrder(lib, p);
  }

  lemma BackupKeeps(w: World, req: Request, id: string, at: nat, begins: bool)
    requires Inv(w) && Admissible(w, Backup(req, id, at, begins))
    ensures Inv(BackupStep(w, req, id, at, begins).0)
  {
    var w' := BackupStep(w, req, id, at, begins).0;
    AnchorIsAuto(w, req);
    if w' == w.(clock := at) {
      ClockCarries(w, at);
    } else if w' != w {
      if w.dom.running {
        OnlineKeeps(w, ChainParent(w, req).value, id, at, w');
      } else {
        OfflineKeeps(w, id, at, w');
      }
    }
  }

  lemma AnchorIsAuto(w: World, req: Request)
    requires Inv(w)
    ensures var r := ChainParent(w, req);
            r.Ok? && r.value != Anchor("", "") ==> r.value.parent != "" && ChainParent(w, Auto) == r
  {
    if w.lib != [] {
      assert w.lib[0] in w.lib && Taken(w.log, w.lib[0]);
      assert CaptureOk(w.dom, w.log, w.clock, w.lib[0].id);
    }
  }

  // ---------- the end of a job ----------

  lemma PublishJobKeeps(w: World)
    requires Inv(w) && w.job.Some?
    ensures Inv(w.(job := None, lib := [w.job.value] + w.lib))
  {
    var p := w.job.value;
    assert CaptureOk(w.dom, w.log, w.clock, p.id);
    PublishKeeps(w.lib, w.log, p);
  }

  lemma ReplacedImagesOk(w: World, q: Point, i: string)
    requires Inv(w) && w.job.Some? && q == w.job.value.(images := q.images)
    requires q.images.Keys == w.dom.disks.Keys && i in w.log.taken
    ensures var log := w.log.(taken := w.log.taken[q.id := q], bad := w.log.bad + {q.id});
            CaptureOk(w.dom, log, w.clock, i) && NoRestoreWithin(log, log.taken[i]) && CoverageOk(w.dom, log, i)
  {
    assert CaptureOk(w.dom, w.log, w.clock, q.id);
    assert CaptureOk(w.dom, w.log, w.clock, i) && NoRestoreWithin(w.log, w.log.taken[i]) && CoverageOk(w.dom, w.log, i);
  }

  lemma ReplacedHistory(w: World, q: Point, log: Log)
    requires Inv(w) && w.job.Some? && q == w.job.value.(images := q.images) && q.images.Keys == w.dom.disks.Keys
    requires log == w.log.(taken := w.log.taken[q.id := q], bad := w.log.bad + {q.id})
    ensures log.taken.Keys == log.snaps.Keys == w.log.taken.Keys && CheckpointsKnown(w.dom, log)
    ensures forall i | i in log.taken ::
              CaptureOk(w.dom, log, w.clock, i) && NoRestoreWithin(log, log.taken[i]) && CoverageOk(w.dom, log, i)
  {
    assert CaptureOk(w.dom, w.log, w.clock, q.id);
    forall i | i in log.taken
      ensures CaptureOk(w.dom, log, w.clock, i) && NoRestoreWithin(log, log.taken[i]) && CoverageOk(w.dom, log, i)
    {
      ReplacedImagesOk(w, q, i);
    }
  }

  lemma ReplacedLibrary(w: World, q: Point, log: Log)
    requires Inv(w) && w.job.Some? && q == w.job.value.(images := q.images)
    requires log == w.log.(taken := w.log.taken[q.id := q], bad := w.log.bad + {q.id})
    ensures NewestFirst([q] + w.lib)
    ensures forall o | o in [q] + w.lib :: Taken(log, o) && NothingBetween([q] + w.lib, log, o)
  {
    assert CaptureOk(w.dom, w.log, w.clock, q.id);
    forall o | o in w.lib
      ensures Taken(log, o) && NothingBetween(w.lib, log, o)
    {
      assert Taken(w.log, o) && NothingBetween(w.lib, w.log, o);
    }
    assert NothingBetween(w.lib, w.log, w.job.value) && NothingBetween(w.lib, log, q);
    PublishKeeps(w.lib, log, q);
  }

  lemma PublishReplacedKeeps(w: World, q: Point)
    requires Inv(w) && w.job.Some? && q == w.job.value.(images := q.images)
    requires q.images.Keys == w.dom.disks.Keys
    ensures Inv(w.(job := None, lib := [q] + w.lib,
                   log := w.log.(taken := w.log.taken[q.id := q], bad := w.log.bad + {q.id})))
  {
    var log := w.log.(taken := w.log.taken[q.id := q], bad := w.log.bad + {q.id});
    ReplacedHistory(w, q, log);
    ReplacedLibrary(w, q, log);
    InvWithoutJob(w.(job := None, lib := [q] + w.lib, log := log));
  }

  lemma InvWithoutJob(w: World)
    requires w.job.None? && DomainOk(w.dom) && NewestFirst(w.lib) && CheckpointsKnown(w.dom, w.log)
    requires w.log.taken.Keys == w.log.snaps.Keys && forall r | r in w.log.restores :: r <= w.clock
    requires forall p | p in w.lib :: Taken(w.log, p) && NothingBetween(w.lib, w.log, p)
    requires forall i | i in w.log.taken ::
               CaptureOk(w.dom, w.log, w.clock, i) && NoRestoreWithin(w.log, w.log.taken[i]) && CoverageOk(w.dom, w.log, i)
    ensures Inv(w)
  {
  }

  lemma AbortKeeps(w: World)
    requires Inv(w)
    ensures Inv(w.(job := None))
  {
  }

  lemma PublishProducedKeeps(w: World, images: Disks)
    requires Inv(w) && w.job.Some? && images.Keys == w.dom.disks.Keys
    ensures Inv(PublishProduced(w.(job := None), w.job.value, images))
  {
    var p := w.job.value;
    if p.(images := images) == p {
      PublishJobKeeps(w);
    } else {
      PublishReplacedKeeps(w, p.(images := images));
    }
  }

  lemma JobTargets(w: World)
    requires Inv(w) && w.job.Some?
    ensures forall t :: t in w.job.value.targets <==> t in w.dom.disks
  {
    assert CaptureOk(w.dom, w.log, w.clock, w.job.value.id);
  }

  lemma ImagesOfAll(targets: seq<string>, produced: Disks, disks: Disks)
    requires AllProduced(targets, produced) && forall t :: t in targets <==> t in disks
    ensures Images(targets, produced).Keys == disks.Keys
  {
  }

  lemma EndedKeeps(w: World, produced: Disks)
    requires Inv(w) && w.job.Some? && AllProduced(w.job.value.targets, produced)
    ensures Inv(JobStep(w, Ended(produced, true)).0)
  {
    var p := w.job.value;
    var images := Images(p.targets, produced);
    assert images.Keys == w.dom.disks.Keys by {
      JobTargets(w);
      ImagesOfAll(p.targets, produced, w.dom.disks);
    }
    PublishProducedKeeps(w, images);
    assert JobStep(w, Ended(produced, true)).0 == PublishProduced(w.(job := None), p, images);
  }

  lemma JobKeeps(w: World, end: JobEnd)
    requires Inv(w)
    ensures Inv(JobStep(w, end).0)
  {
    if w.job.Some? {
      if end.Ended? && AllProduced(w.job.value.targets, end.produced) && end.written {
        assert end == Ended(end.produced, true);
        EndedKeeps(w, end.produced);
      } else {
        AbortKeeps(w);
        assert JobStep(w, end).0 == w.(job := None);
      }
    }
  }

  // ---------- delete ----------

  /** What is left of a list after deleting an id, in the same order. */
  lemma {:induction false} WithoutRemoves(lib: seq<Point>, id: string)
    requires NewestFirst(lib) && forall p, q | p in lib && q in lib && p.id == q.id :: p == q
    ensures NewestFirst(Without(lib, id))
    ensures forall p :: p in Without(lib, id) <==> p in lib && p.id != id
  {
    if lib != [] {
      var rest := lib[1..];
      assert lib == [lib[0]] + rest;
      forall p | p in rest
        ensures p in lib && p.createdAt < lib[0].createdAt && p.id != lib[0].id
      {
      }
      if lib[0].id != id {
        WithoutRemoves(rest, id);
        PublishKeepsOrder(Without(rest, id), lib[0]);
      }
    }
  }

  lemma IdsAreUnique(w: World)
    requires LibraryOk(w)
    ensures forall p, q | p in w.lib && q in w.lib && p.id == q.id :: p == q
  {
    forall p, q | p in w.lib && q in w.lib && p.id == q.id
      ensures p == q
    {
      assert Taken(w.log, p) && Taken(w.log, q);
    }
  }

  /** Dropping listed points keeps the facts about those that stay. */
  lemma FewerPointsKeep(w: World, lib: seq<Point>)
    requires Inv(w) && NewestFirst(lib) && forall p | p in lib :: p in w.lib
    ensures Inv(w.(lib := lib))
  {
    forall p | p in lib
      ensures Taken(w.log, p) && NothingBetween(lib, w.log, p)
    {
      assert Taken(w.log, p) && NothingBetween(w.lib, w.log, p);
    }
    forall i | i in w.log.taken
      ensures CaptureOk(w.dom, w.log, w.clock, i)
    {
    }
    if w.job.Some? {
      assert NothingBetween(w.lib, w.log, w.job.value);
    }
  }

  lemma DeleteKeeps(w: World, id: string)
    requires Inv(w)
    ensures Inv(DeleteStep(w, id).0)
  {
    if Find(w.lib, id).Some? {
      var p := Find(w.lib, id).value;
      IdsAreUnique(w);
      WithoutRemoves(w.lib, id);
      var w1 := w.(lib := Without(w.lib, id));
      FewerPointsKeep(w, w1.lib);
      RemovalKeepsOthers(w.dom.checkpoints, p.checkpoint);
      if p.checkpoint != "" {
        CheckpointsKeep(w1, RemoveCheckpoint(w.dom.checkpoints, p.checkpoint));
      }
    }
  }

  // ---------- restore ----------

  lemma {:induction false} RestoreTouchesTargets(chain: seq<Point>, targets: seq<string>, sources: seq<string>, disks: Disks, failAt: nat)
    requires forall t | t in sources :: t in disks
    ensures var r := RestoreDisks(chain, targets, sources, disks, failAt);
            && r.disks.Keys == disks.Keys
            && (r.replaced == 0 ==> r.disks == disks)
            && r.replaced <= |targets|
            && (r.ok <==> r.replaced == |targets|)
            && forall t | t in disks && t !in targets :: r.disks[t] == disks[t]
    decreases targets
  {
    if targets != [] && targets[0] in sources && failAt != 0 && HasImages(chain, targets[0]) {
      RestoreTouchesTargets(chain, targets[1..], sources, disks[targets[0] := Replay(chain, targets[0])], failAt - 1);
    }
  }

  lemma InvOrdersParents(w: World)
    requires Inv(w)
    ensures ParentsOlder(w.lib)
  {
    forall p, q | p in w.lib && q in w.lib && p.parent == q.id
      ensures q.createdAt < p.createdAt
    {
      assert Taken(w.log, p) && Taken(w.log, q);
      assert CaptureOk(w.dom, w.log, w.clock, p.id) && CaptureOk(w.dom, w.log, w.clock, q.id);
    }
  }

  /** Disks replaced, every capture so far marked suspect. */
  lemma TornKeeps(w: World, disks: Disks)
    requires Inv(w) && disks.Keys == w.dom.disks.Keys
    ensures Inv(w.(dom := w.dom.(disks := disks), log := w.log.(suspect := w.log.suspect + w.log.taken.Keys)))
  {
    var dom' := w.dom.(disks := disks);
    var log' := w.log.(suspect := w.log.suspect + w.log.taken.Keys);
    HistoryCarries(w, dom');
    forall i | i in w.log.taken
      ensures CaptureOk(dom', log', w.clock, i) && NoRestoreWithin(log', log'.taken[i]) && CoverageOk(dom', log', i)
    {
      assert CaptureOk(dom', w.log, w.clock, i) && NoRestoreWithin(w.log, w.log.taken[i]) && CoverageOk(w.dom, w.log, i);
    }
    forall p | p in w.lib
      ensures Taken(log', p) && NothingBetween(w.lib, log', p)
    {
      assert Taken(w.log, p) && NothingBetween(w.lib, w.log, p);
    }
  }

  /** Disks replaced, every UltraV checkpoint gone, the restore noted. */
  lemma RestoredKeeps(w: World, disks: Disks)
    requires Inv(w) && disks.Keys == w.dom.disks.Keys
    ensures Inv(w.(dom := w.dom.(disks := disks, checkpoints := DropUltrav(w.dom.checkpoints, w.dom.checkpoints)),
                   log := w.log.(restores := w.log.restores + {w.clock})))
  {
    var dom' := w.dom.(disks := disks, checkpoints := DropUltrav(w.dom.checkpoints, w.dom.checkpoints));
    var log' := w.log.(restores := w.log.restores + {w.clock});
    DropUltravKeepsForeign(w.dom.checkpoints, w.dom.checkpoints);
    HistoryCarries(w, dom');
    forall i | i in w.log.taken
      ensures CaptureOk(dom', log', w.clock, i) && NoRestoreWithin(log', log'.taken[i]) && CoverageOk(dom', log', i)
    {
      assert CaptureOk(dom', w.log, w.clock, i) && NoRestoreWithin(w.log, w.log.taken[i]);
      assert IsUltravCheckpoint(CheckpointName(i));
    }
    forall p | p in w.lib
      ensures Taken(log', p) && NothingBetween(w.lib, log', p)
    {
      assert Taken(w.log, p) && NothingBetween(w.lib, w.log, p);
    }
  }

  lemma ConcludeKeeps(w: World, r: Restored)
    requires Inv(w) && r.disks.Keys == w.dom.disks.Keys && (r.replaced == 0 ==> r.disks == w.dom.disks)
    ensures Inv(ConcludeRestore(w, r).0)
  {
    if r.ok {
      RestoredKeeps(w, r.disks);
    } else if r.replaced > 0 {
      TornKeeps(w, r.disks);
    } else {
      assert ConcludeRestore(w, r).0 == w;
    }
  }

  /** What a restore that finds its chain does, in one equation. */
  lemma RestoreUnfolds(w: World, id: string, failAt: nat)
    requires ParentsOlder(w.lib)
    ensures Find(w.lib, id).Some? ==> Find(w.lib, id).value in w.lib
    ensures RestoreStep(w, id, failAt) ==
            match Find(w.lib, id)
            case None => (w, NotFound)
            case Some(p) =>
              if w.dom.running || Chain(w.lib, p).None? then (w, InvalidState)
              else ConcludeRestore(w, RestoreDisks(Chain(w.lib, p).value, p.targets, FileDisks(w.dom.devices),
                                                   w.dom.disks, failAt))
  {
    FindIsMember(w.lib, id);
  }

  lemma RestoreKeeps(w: World, id: string, failAt: nat)
    requires Inv(w)
    ensures Inv(Step(w, Restore(id, failAt)))
  {
    InvOrdersParents(w);
    RestoreUnfolds(w, id, failAt);
    var w' := RestoreStep(w, id, failAt).0;
    assert Step(w, Restore(id, failAt)) == w';
    if w' != w {
      var p := Find(w.lib, id).value;
      var chain := Chain(w.lib, p).value;
      var r := RestoreDisks(chain, p.targets, FileDisks(w.dom.devices), w.dom.disks, failAt);
      RestoreTouchesTargets(chain, p.targets, FileDisks(w.dom.devices), w.dom.disks, failAt);
      ConcludeKeeps(w, r);
      assert w' == ConcludeRestore(w, r).0;
    }
  }

  // ---------- runs ----------

  lemma StepKeeps(w: World, ev: Event)
    requires Inv(w) && Admissible(w, ev)
    ensures Inv(Step(w, ev))
  {
    match ev
    case Write(t, b, v) => WriteKeeps(w, t, b, v);
    case Start => HistoryCarries(w, w.dom.(running := true)); CoverageIgnoresPower(w, true);
    case Stop => HistoryCarries(w, w.dom.(running := false)); CoverageIgnoresPower(w, false);
    case Backup(req, id, at, begins) => BackupKeeps(w, req, id, at, begins);
    case JobEnds(end) => JobKeeps(w, end);
    case Delete(id) => DeleteKeeps(w, id);
    case Restore(id, failAt) => RestoreKeeps(w, id, failAt);
    case AddForeignCheckpoint(name) =>
      if !IsUltravCheckpoint(name) && !HasCheckpoint(w.dom.checkpoints, name) {
        AppendCheckpoint(w.dom.checkpoints, name);
        CheckpointsKeep(w, w.dom.checkpoints + [Checkpoint(name, {})]);
      }
    case DropCheckpoint(name) =>
      RemovalKeepsOthers(w.dom.checkpoints, name);
      CheckpointsKeep(w, RemoveCheckpoint(w.dom.checkpoints, name));
    case Recreate(contents) => RecreateKeeps(w, contents);
  }

  lemma CoverageIgnoresPower(w: World, on: bool)
    requires Inv(w)
    ensures forall id | id in w.log.taken :: CoverageOk(w.dom.(running := on), w.log, id)
  {
    forall id | id in w.log.taken
      ensures CoverageOk(w.dom.(running := on), w.log, id)
    {
      assert CoverageOk(w.dom, w.log, id);
    }
  }

  /** The invariant holds after every run, torn restores and lost jobs included. */
  lemma {:induction false} RunKeeps(w: World, evs: seq<Event>)
    requires Inv(w) && AdmissibleRun(w, evs)
    ensures Inv(Exec(w, evs))
    decreases |evs|
  {
    if evs != [] {
      StepKeeps(w, evs[0]);
      RunKeeps(Step(w, evs[0]), evs[1..]);
    }
  }

  lemma InitEstablishes(w: World)
    requires Init(w)
    ensures Inv(w)
  {
  }
}
