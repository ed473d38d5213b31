/** What backups, deletions, prunes and restores answer and leave behind, said of
    the library's points and the names of the domain's checkpoints. */
module ChainOutcomes {
  import opened Wrappers
  import opened ChainModel
  import opened ChainInvariant
  import opened RestoreCorrectness
  import opened Retention

  predicate Named(cps: seq<Checkpoint>, n: string) {
    exists i :: 0 <= i < |cps| && cps[i].name == n
  }

  lemma {:induction false} NamedIffHas(cps: seq<Checkpoint>, n: string)
    ensures HasCheckpoint(cps, n) <==> Named(cps, n)
  {
    if cps != [] {
      NamedIffHas(cps[1..], n);
      if Named(cps[1..], n) {
        var i :| 0 <= i < |cps[1..]| && cps[1..][i].name == n;
        assert cps[i + 1].name == n;
      }
      if Named(cps, n) && cps[0].name != n {
        var i :| 0 <= i < |cps| && cps[i].name == n;
        assert cps[1..][i - 1].name == n;
      }
    }
  }

  lemma NamedIsHas(cps: seq<Checkpoint>)
    ensures forall n :: HasCheckpoint(cps, n) <==> Named(cps, n)
  {
    forall n ensures HasCheckpoint(cps, n) <==> Named(cps, n) {
      NamedIffHas(cps, n);
    }
  }

  /** A disk of the VM that is backed by a file. */
  predicate FileDisk(devices: seq<Device>, t: string) {
    exists i :: 0 <= i < |devices| && devices[i] == Device(t, "disk", devices[i].file) && devices[i].file != ""
  }

  lemma {:induction false} FileDisksIff(devices: seq<Device>, t: string)
    ensures t in FileDisks(devices) <==> FileDisk(devices, t)
  {
    if devices != [] {
      var rest := devices[1..];
      FileDisksIff(rest, t);
      if FileDisk(rest, t) {
        var i :| 0 <= i < |rest| && rest[i] == Device(t, "disk", rest[i].file) && rest[i].file != "";
        assert devices[i + 1] == Device(t, "disk", devices[i + 1].file);
      }
      if FileDisk(devices, t) {
        var i :| 0 <= i < |devices| && devices[i] == Device(t, "disk", devices[i].file) && devices[i].file != "";
        assert i > 0 ==> rest[i - 1] == devices[i];
      }
    }
  }

  lemma SomeFileDisk(devices: seq<Device>)
    ensures FileDisks(devices) != [] <==> exists t :: FileDisk(devices, t)
  {
    if FileDisks(devices) != [] {
      FileDisksIff(devices, FileDisks(devices)[0]);
    }
    forall t | FileDisk(devices, t) ensures t in FileDisks(devices) {
      FileDisksIff(devices, t);
    }
  }

  // ---------- backup ----------

  /** The newest listed point was taken with a checkpoint, and the domain still
      has it. */
  predicate Continues(dom: Domain, lib: seq<Point>) {
    lib != [] && lib[0].checkpoint != "" && Named(dom.checkpoints, lib[0].checkpoint)
  }

  predicate Refused(w: World, req: Request) {
    req.ForceIncremental? && !Continues(w.dom, w.lib)
  }

  lemma ChosenIff(w: World, req: Request)
    requires Inv(w)
    ensures Refused(w, req) <==> ChainParent(w, req).Err?
    ensures Refused(w, req) ==> ChainParent(w, req) == Err(InvalidState)
    ensures !Refused(w, req) ==>
              ChainParent(w, req) ==
              Ok(if !req.ForceFull? && Continues(w.dom, w.lib) then Anchor(w.lib[0].id, w.lib[0].checkpoint) else Anchor("", ""))
    ensures w.lib != [] ==> w.lib[0].id != ""
  {
    NamedIsHas(w.dom.checkpoints);
    if w.lib != [] {
      assert w.lib[0] in w.lib && Taken(w.log, w.lib[0]);
      assert CaptureOk(w.dom, w.log, w.clock, w.lib[0].id);
    }
  }

  /** A backup is refused, changing nothing, exactly when an incremental is forced
      and there is no checkpoint to continue from. Otherwise it is done unless
      some step fails or a running VM has no file-backed disk. */
  lemma BackupOutcome(w: World, req: Request, id: string, at: nat, begins: bool)
    requires Inv(w)
    ensures var (w', out) := BackupStep(w, req, id, at, begins);
            && (out == InvalidState <==> Refused(w, req))
            && (out == Done <==>
                !Refused(w, req) && begins && (w.dom.running ==> exists t :: FileDisk(w.dom.devices, t)))
            && (out == InvalidState ==> w' == w)
            && (out != Done && out != InvalidState ==> out == Failed && w' == w.(clock := at))
  {
    ChosenIff(w, req);
    SomeFileDisk(w.dom.devices);
  }

  /** The clusters of the image of `t` are those of the disk dirtied since the
      checkpoint. */
  ghost predicate IsDelta(image: Image, t: string, disk: Image, dirty: set<Cell>) {
    && (forall b :: b in image <==> b in disk && Cell(t, b) in dirty)
    && (forall b | b in image :: image[b] == disk[b])
  }

  /** The job of a backup that is done on a running VM: incremental on the newest
      point exactly when a full was not forced and that point's checkpoint is
      there, with a checkpoint of its own. */
  lemma StartedJob(w: World, req: Request, id: string, at: nat, begins: bool, w': World)
    requires Inv(w) && IsPointId(id) && w.dom.running && BackupStep(w, req, id, at, begins) == (w', Done)
    ensures var incremental := !req.ForceFull? && Continues(w.dom, w.lib);
            && w'.lib == w.lib && w'.clock == at && w'.dom == w.dom.(checkpoints := w'.dom.checkpoints)
            && w'.job.Some?
            && var p := w'.job.value;
               && p.id == id && p.createdAt == at && p.checkpoint == "chk-" + id[3..]
               && (p.kind == Incremental <==> incremental) && p.parent == (if incremental then w.lib[0].id else "")
               && (forall n :: Named(w'.dom.checkpoints, n) <==> Named(w.dom.checkpoints, n) || n == p.checkpoint)
               && (forall t :: t in p.targets <==> FileDisk(w.dom.devices, t))
  {
    ChosenIff(w, req);
    forall t ensures t in FileDisks(w.dom.devices) <==> FileDisk(w.dom.devices, t) {
      FileDisksIff(w.dom.devices, t);
    }
    var c := Checkpoint(CheckpointName(id), {});
    NamedAppend(w.dom.checkpoints, c);
  }

  lemma NamedAppend(cps: seq<Checkpoint>, c: Checkpoint)
    ensures forall n :: Named(cps + [c], n) <==> Named(cps, n) || n == c.name
  {
    forall n ensures Named(cps + [c], n) <==> Named(cps, n) || n == c.name {
      if Named(cps, n) {
        var i :| 0 <= i < |cps| && cps[i].name == n;
        assert (cps + [c])[i].name == n;
      }
      assert (cps + [c])[|cps|] == c;
    }
  }

  /** What that job copies: the whole disks for a full; for an incremental, of each
      disk exactly the clusters dirtied since the parent's checkpoint. */
  lemma StartedImages(w: World, req: Request, id: string, at: nat, begins: bool, w': World)
    requires Inv(w) && w.dom.running && BackupStep(w, req, id, at, begins) == (w', Done)
    ensures w'.job.Some? && w'.job.value.images.Keys == w.dom.disks.Keys
    ensures w'.job.value.kind == Full ==> w'.job.value.images == w.dom.disks
    ensures w'.job.value.kind == Incremental ==>
              w.lib != [] && forall t | t in w.dom.disks ::
                IsDelta(w'.job.value.images[t], t, w.dom.disks[t], DirtySince(w.dom.checkpoints, w.lib[0].checkpoint))
  {
    ChosenIff(w, req);
    CopiedCovers(w.dom, ChainParent(w, req).value.checkpoint);
  }

  /** A stopped VM gets a full of its whole disks, without a checkpoint, whatever
      else was asked for. */
  lemma OfflinePoint(w: World, req: Request, id: string, at: nat, begins: bool, w': World)
    requires Inv(w) && !w.dom.running && BackupStep(w, req, id, at, begins) == (w', Done)
    ensures w'.dom == w.dom && w'.job == w.job && w'.clock == at
    ensures w'.lib == [Point(id, at, Full, "", "", FileDisks(w.dom.devices), w.dom.disks)] + w.lib
  {
    CopiedCovers(w.dom, "");
  }

  // ---------- delete and prune ----------

  /** A deletion finds its point by id; the point and its checkpoint go, every
      other point and checkpoint stays, the order of the points too. */
  lemma DeleteOutcome(w: World, id: string)
    requires Inv(w)
    ensures var (w', out) := DeleteStep(w, id);
            && (out == Done <==> exists p :: p in w.lib && p.id == id)
            && (out != Done ==> out == NotFound && w' == w)
            && w'.dom == w.dom.(checkpoints := w'.dom.checkpoints) && w'.job == w.job && w'.clock == w.clock
            && NewestFirst(w'.lib) && (forall q :: q in w'.lib <==> q in w.lib && q.id != id)
            && (forall p | p in w.lib && p.id == id ::
                  forall n :: Named(w'.dom.checkpoints, n) <==>
                              Named(w.dom.checkpoints, n) && (n != p.checkpoint || n == ""))
  {
    var w' := DeleteStep(w, id).0;
    FindIsMember(w.lib, id);
    IdsAreUnique(w);
    WithoutRemoves(w.lib, id);
    NamedIsHas(w.dom.checkpoints);
    NamedIsHas(w'.dom.checkpoints);
    forall p | p in w.lib && p.id == id ensures Find(w.lib, id) == Some(p) {
      MemberIsListed(w.lib, p);
    }
    if Find(w.lib, id).Some? {
      RemovalKeepsOthers(w.dom.checkpoints, Find(w.lib, id).value.checkpoint);
    }
  }

  /** A point that has gone from the list was taken with the checkpoint. */
  ghost predicate GoneWith(lib: seq<Point>, fewer: seq<Point>, n: string) {
    n != "" && exists p :: p in lib && p !in fewer && p.checkpoint == n
  }

  ghost predicate TookTheirs(w: World, w': World) {
    forall n :: Named(w'.dom.checkpoints, n) <==> Named(w.dom.checkpoints, n) && !GoneWith(w.lib, w'.lib, n)
  }

  lemma DeleteTakesItsOwn(w: World, id: string)
    requires Inv(w)
    ensures TookTheirs(w, DeleteStep(w, id).0)
  {
    var w' := DeleteStep(w, id).0;
    DeleteOutcome(w, id);
    forall n ensures GoneWith(w.lib, w'.lib, n) <==> n != "" && exists p :: p in w.lib && p.id == id && p.checkpoint == n {
    }
    IdsAreUnique(w);
  }

  lemma TookBoth(w: World, w1: World, w2: World)
    requires TookTheirs(w, w1) && TookTheirs(w1, w2)
    requires (forall p | p in w2.lib :: p in w1.lib) && forall p | p in w1.lib :: p in w.lib
    ensures TookTheirs(w, w2)
  {
    forall n ensures GoneWith(w.lib, w2.lib, n) <==> GoneWith(w.lib, w1.lib, n) || GoneWith(w1.lib, w2.lib, n) {
    }
  }

  lemma {:induction false} LoopTakesTheirs(w: World, metas: seq<Point>, cutoff: nat, refused: set<string>)
    requires Inv(w)
    ensures TookTheirs(w, PruneLoop(w, metas, cutoff, refused))
    decreases |metas|
  {
    if metas != [] {
      var w1 := if Goes(metas[0], cutoff, refused) then DeleteStep(w, metas[0].id).0 else w;
      DeleteKeeps(w, metas[0].id);
      DeleteRemoves(w, metas[0].id);
      DeleteTakesItsOwn(w, metas[0].id);
      LoopTakesTheirs(w1, metas[1..], cutoff, refused);
      LoopRemoves(w1, metas[1..], cutoff, refused);
      TookBoth(w, w1, PruneLoop(w, metas, cutoff, refused));
    }
  }

  /** A prune, whichever deletions fail, takes out of the domain exactly the
      checkpoints of the points that go. */
  lemma PruneTakesTheirs(w: World, keep: nat, refused: set<string>)
    requires Inv(w)
    ensures TookTheirs(w, Prune(w, keep, refused))
  {
    if Cutoff(w.lib, 0, keep).Some? {
      LoopTakesTheirs(w, w.lib, Cutoff(w.lib, 0, keep).value, refused);
    }
  }

  // ---------- restore ----------

  /** A completed restore takes out of the domain exactly the checkpoints whose
      names begin with chk-, listed points or not; any other leaves them all. */
  lemma RestoreCheckpoints(w: World, id: string, failAt: nat)
    requires Inv(w) && ParentsOlder(w.lib)
    ensures var (w', out) := RestoreStep(w, id, failAt);
            && w'.lib == w.lib && w'.job == w.job
            && (out != Done ==> w'.dom.checkpoints == w.dom.checkpoints)
            && (out == Done ==>
                  forall n :: Named(w'.dom.checkpoints, n) <==>
                              Named(w.dom.checkpoints, n) && !(|n| >= 4 && n[..4] == "chk-"))
  {
    var (w', out) := RestoreStep(w, id, failAt);
    RestoreUnfolds(w, id, failAt);
    NamedIsHas(w.dom.checkpoints);
    NamedIsHas(w'.dom.checkpoints);
    if out == Done {
      DropUltravKeepsForeign(w.dom.checkpoints, w.dom.checkpoints);
      forall n: string ensures IsUltravCheckpoint(n) <==> |n| >= 4 && n[..4] == "chk-" {
      }
    }
  }
}
