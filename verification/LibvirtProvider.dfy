/** The libvirt provider's backup operations as methods that change their
    object. Each is proved to do exactly what its function in ChainModel says;
    the invariant, restore and retention results are about those functions. */
module LibvirtProvider {
  import opened Wrappers
  import opened ChainModel
  import opened ChainInvariant
  import opened RestoreCorrectness
  import opened Retention

  /** What one look at the running job shows. */
  datatype Poll = ContextDone | QueryFailed | StillRunning | JobCompleted | JobGone

  /** The first poll that ends the wait decides. */
  function EndOf(polls: seq<Poll>, produced: Disks, written: bool): JobEnd {
    if polls == [] then Canceled
    else
      match polls[0]
      case StillRunning => EndOf(polls[1..], produced, written)
      case JobCompleted => Ended(produced, written)
      case JobGone => Ended(produced, written)
      case _ => Canceled
  }

  /** The i-th look shows that the job is over, and every one before it showed it
      running. */
  ghost predicate Decides(polls: seq<Poll>, i: int) {
    0 <= i < |polls| && polls[i] in {JobCompleted, JobGone} && forall k :: 0 <= k < i ==> polls[k] == StillRunning
  }

  ghost predicate Decided(polls: seq<Poll>) {
    exists i :: Decides(polls, i)
  }

  lemma {:induction false} EndOfDecided(polls: seq<Poll>, produced: Disks, written: bool)
    ensures EndOf(polls, produced, written) == if Decided(polls) then Ended(produced, written) else Canceled
  {
    if polls != [] && polls[0].StillRunning? {
      var rest := polls[1..];
      EndOfDecided(rest, produced, written);
      if Decided(rest) {
        var i :| Decides(rest, i);
        assert Decides(polls, i + 1);
      }
      if Decided(polls) {
        var i :| Decides(polls, i);
        assert forall k :: 0 <= k < i - 1 ==> rest[k] == polls[k + 1];
        assert Decides(rest, i - 1);
      }
    } else if polls != [] && polls[0] in {JobCompleted, JobGone} {
      assert Decides(polls, 0);
    }
  }

  function Extend(above: Option<seq<Point>>, below: seq<Point>): Option<seq<Point>> {
    match above
    case None => None
    case Some(c) => Some(c + below)
  }

  lemma {:induction false} RemovesOne(lib: seq<Point>, id: string)
    requires Find(lib, id).Some?
    ensures |Without(lib, id)| == |lib| - 1
  {
    if lib[0].id != id {
      RemovesOne(lib[1..], id);
    }
  }

  /** One disk's image: all of it, or its dirty clusters. */
  function CopyOne(target: string, disk: Image, since: string, dirty: set<Cell>): Image {
    if since == "" then disk else DirtyPart(target, disk, dirty)
  }

  lemma FileDisksStep(devices: seq<Device>, i: nat)
    requires i < |devices|
    ensures var (d, rest) := (devices[i], FileDisks(devices[i + 1..]));
            FileDisks(devices[i..]) == if d.device == "disk" && d.file != "" then [d.target] + rest else rest
  {
    assert devices[i..][1..] == devices[i + 1..] && devices[i..][0] == devices[i];
  }

  function Later(r: Restored, before: nat): Restored {
    r.(replaced := before + r.replaced)
  }

  class Provider {
    const devices: seq<Device>
    var disks: Disks
    var running: bool
    var checkpoints: seq<Checkpoint>
    var library: seq<Point>
    var job: Option<Point>
    var clock: nat
    ghost var log: Log

    ghost function View(): World
      reads this
    {
      World(Domain(devices, disks, running, checkpoints), library, job, clock, log)
    }

    /** A domain without checkpoints and an empty library. */
    constructor (devices: seq<Device>, disks: Disks)
      requires Distinct(FileDisks(devices)) && disks.Keys == (set t | t in FileDisks(devices))
      ensures Init(View()) && View().dom == Domain(devices, disks, false, []) && this.devices == devices
      ensures Inv(View())
    {
      this.devices := devices;
      this.disks := disks;
      running, checkpoints, library, job, clock := false, [], [], None, 0;
      log := Log(map[], map[], {}, {}, {});
      new;
      InitEstablishes(View());
    }

    method FindPoint(id: string) returns (r: Option<Point>)
      ensures r == Find(library, id)
      ensures r.Some? ==> r.value in library
    {
      var i := 0;
      while i < |library|
        invariant i <= |library|
        invariant Find(library, id) == Find(library[i..], id)
      {
        if library[i].id == id {
          return Some(library[i]);
        }
        assert library[i..][1..] == library[i + 1..];
        i := i + 1;
      }
      return None;
    }

    method CheckpointExists(name: string) returns (found: bool)
      ensures found == HasCheckpoint(checkpoints, name)
    {
      var i := 0;
      while i < |checkpoints|
        invariant i <= |checkpoints|
        invariant HasCheckpoint(checkpoints, name) == HasCheckpoint(checkpoints[i..], name)
      {
        if checkpoints[i].name == name {
          return true;
        }
        assert checkpoints[i..][1..] == checkpoints[i + 1..];
        i := i + 1;
      }
      return false;
    }

    /** backupChainParent. */
    method BackupChainParent(req: Request) returns (r: Result<Anchor, Outcome>)
      ensures r == ChainParent(View(), req)
    {
      if req.ForceFull? {
        return Ok(Anchor("", ""));
      }
      var refusal: Result<Anchor, Outcome> := if req.ForceIncremental? then Err(InvalidState) else Ok(Anchor("", ""));
      if |library| == 0 || library[0].checkpoint == "" {
        return refusal;
      }
      var found := CheckpointExists(library[0].checkpoint);
      if !found {
        return refusal;
      }
      return Ok(Anchor(library[0].id, library[0].checkpoint));
    }

    /** The disk loop of a backup: one image per file-backed disk. */
    method CopyDisks(since: string) returns (targets: seq<string>, images: Disks)
      requires forall t | t in FileDisks(devices) :: t in disks
      ensures targets == FileDisks(devices)
      ensures images == Copied(View().dom, since)
    {
      targets, images := [], map[];
      var dirty := DirtySince(checkpoints, since);
      var i := 0;
      while i < |devices|
        invariant i <= |devices|
        invariant FileDisks(devices) == targets + FileDisks(devices[i..])
        invariant images.Keys == (set t | t in targets)
        invariant forall t | t in targets :: t in images && t in disks && images[t] == CopyOne(t, disks[t], since, dirty)
      {
        var d := devices[i];
        FileDisksStep(devices, i);
        if d.device == "disk" && d.file != "" {
          assert d.target in FileDisks(devices[i..]);
          assert targets + FileDisks(devices[i..]) == (targets + [d.target]) + FileDisks(devices[i + 1..]);
          images := images[d.target := CopyOne(d.target, disks[d.target], since, dirty)];
          targets := targets + [d.target];
        }
        i := i + 1;
      }
      assert images == Copied(View().dom, since);
    }

    /** BackupVirtualMachine up to the point where a job runs, or to the end for
        a stopped domain. */
    method BackupVirtualMachine(req: Request, id: string, at: nat, begins: bool) returns (out: Outcome)
      requires forall t | t in FileDisks(devices) :: t in disks
      modifies this
      ensures (View(), out) == BackupStep(old(View()), req, id, at, begins)
    {
      var r := BackupChainParent(req);
      if r.Err? {
        return r.error;
      }
      clock := at;
      if !begins {
        return Failed;
      }
      var anchor := if running then r.value else Anchor("", "");
      var targets, images := CopyDisks(anchor.checkpoint);
      if running && |targets| == 0 {
        return Failed;
      }
      var kind := if anchor.parent == "" then Full else Incremental;
      var p := Point(id, at, kind, anchor.parent, if running then CheckpointName(id) else "", targets, images);
      log := Capture(log, p, disks);
      if running {
        checkpoints := checkpoints + [Checkpoint(p.checkpoint, {})];
        job := Some(p);
      } else {
        library := [p] + library;
      }
      return Done;
    }

    /** The check that a job left an image of every disk. */
    method ImagesExist(targets: seq<string>, produced: Disks) returns (all: bool)
      ensures all == AllProduced(targets, produced)
    {
      var i := 0;
      while i < |targets|
        invariant i <= |targets| && forall k | 0 <= k < i :: targets[k] in produced
      {
        if targets[i] !in produced {
          return false;
        }
        i := i + 1;
      }
      return true;
    }

    /** The poll loop of backupOnline. */
    method AwaitJob(polls: seq<Poll>, produced: Disks, written: bool) returns (end: JobEnd)
      ensures end == EndOf(polls, produced, written)
      ensures end == Ended(produced, written) <==> Decided(polls)
      ensures end == Canceled <==> !Decided(polls)
    {
      EndOfDecided(polls, produced, written);
      var i := 0;
      while i < |polls| && polls[i].StillRunning?
        invariant i <= |polls|
        invariant EndOf(polls, produced, written) == EndOf(polls[i..], produced, written)
      {
        assert polls[i..][1..] == polls[i + 1..];
        i := i + 1;
      }
      if i == |polls| || polls[i].ContextDone? || polls[i].QueryFailed? {
        return Canceled;
      }
      return Ended(produced, written);
    }

    /** backupOnline from its poll loop on. */
    method FinishBackup(polls: seq<Poll>, produced: Disks, written: bool) returns (out: Outcome)
      modifies this
      ensures (View(), out) == JobStep(old(View()), EndOf(polls, produced, written))
      ensures out == Done <==> old(job).Some? && Decided(polls) && written && forall t | t in old(job).value.targets :: t in produced
      ensures job == None && disks == old(disks) && checkpoints == old(checkpoints)
      ensures out == Done ==> |library| == |old(library)| + 1 && library[1..] == old(library)
      ensures out == Done ==> library[0] == old(job).value.(images := library[0].images)
      ensures out == Done ==> forall t | t in old(job).value.targets :: t in library[0].images && library[0].images[t] == produced[t]
      ensures out != Done ==> library == old(library)
    {
      if job.None? {
        return Failed;
      }
      var p := job.value;
      var end := AwaitJob(polls, produced, written);
      job := None;
      if end.Canceled? {
        return Failed;
      }
      var all := ImagesExist(p.targets, end.produced);
      if !all {
        return Failed;
      }
      if !end.written {
        return Failed;
      }
      var q := p.(images := Images(p.targets, end.produced));
      log := if q == p then log else log.(taken := log.taken[p.id := q], bad := log.bad + {p.id});
      library := [q] + library;
      return Done;
    }

    /** DeleteBackup. */
    method DeleteBackup(id: string) returns (out: Outcome)
      modifies `library, `checkpoints
      ensures (View(), out) == DeleteStep(old(View()), id)
      ensures |library| == |old(library)| - if out.Done? then 1 else 0
    {
      var r := FindPoint(id);
      if r.None? {
        return NotFound;
      }
      RemovesOne(library, id);
      library := Without(library, id);
      if r.value.checkpoint != "" {
        checkpoints := RemoveCheckpoint(checkpoints, r.value.checkpoint);
      }
      return Done;
    }

    /** restoreChain: follows parent ids until a full. It ends because parents
        are older. */
    method RestoreChain(p: Point) returns (r: Option<seq<Point>>)
      requires ParentsOlder(library) && p in library
      ensures r == Chain(library, p)
    {
      var chain := [p];
      var cur := p;
      ghost var all := Chain(library, p);
      assert all.Some? ==> all.value + chain[1..] == all.value;
      while cur.parent != ""
        invariant cur in library && chain != [] && chain[0] == cur
        invariant Chain(library, p) == Extend(Chain(library, cur), chain[1..])
        decreases cur.createdAt
      {
        var parent := FindPoint(cur.parent);
        if parent.None? {
          return None;
        }
        FindIsMember(library, cur.parent);
        ghost var above := Chain(library, parent.value);
        assert above.Some? ==> (above.value + [cur]) + chain[1..] == above.value + chain;
        assert ([parent.value] + chain)[1..] == chain;
        chain := [parent.value] + chain;
        cur := parent.value;
      }
      assert chain == [cur] + chain[1..];
      return Some(chain);
    }

    /** restoreDiskChain: collects the chain's images of one disk, then replays
        them in order into a temporary image. */
    method RestoreDiskChain(chain: seq<Point>, target: string, copies: bool) returns (r: Option<Image>)
      ensures r.Some? <==> copies && HasImages(chain, target)
      ensures r.Some? ==> r.value == Replay(chain, target)
    {
      var sources: seq<Image> := [];
      while |sources| < |chain|
        invariant |sources| <= |chain|
        invariant forall k | 0 <= k < |sources| ::
                    target in chain[k].targets && target in chain[k].images && sources[k] == chain[k].images[target]
      {
        var m := chain[|sources|];
        if target !in m.targets || target !in m.images {
          return None;
        }
        sources := sources + [m.images[target]];
      }
      if !copies {
        return None;
      }
      var tmp: Image := map[];
      var i := 0;
      while i < |sources|
        invariant i <= |sources| == |chain|
        invariant tmp == Replay(chain[..i], target)
      {
        assert chain[..i + 1] == chain[..i] + [chain[i]];
        ReplayAppend(chain[..i], chain[i], target);
        tmp := tmp + sources[i];
        i := i + 1;
      }
      assert chain[..i] == chain;
      return Some(tmp);
    }

    /** deleteUltravCheckpoints. */
    method DeleteUltravCheckpoints()
      modifies `checkpoints
      ensures checkpoints == DropUltrav(old(checkpoints), old(checkpoints))
    {
      var listed := checkpoints;
      var i := 0;
      while i < |listed|
        invariant i <= |listed|
        invariant DropUltrav(old(checkpoints), listed) == DropUltrav(checkpoints, listed[i..])
      {
        assert listed[i..][1..] == listed[i + 1..];
        if IsUltravCheckpoint(listed[i].name) {
          checkpoints := RemoveCheckpoint(checkpoints, listed[i].name);
        }
        i := i + 1;
      }
    }

    /** RestoreBackup: replaces the disks one after the other, and drops the
        checkpoints only when all were replaced. */
    method RestoreBackup(id: string, failAt: nat) returns (out: Outcome)
      requires ParentsOlder(library)
      modifies `disks, `checkpoints, `log
      ensures (View(), out) == RestoreStep(old(View()), id, failAt)
    {
      RestoreUnfolds(View(), id, failAt);
      var r := FindPoint(id);
      if r.None? {
        return NotFound;
      }
      if running {
        return InvalidState;
      }
      var p := r.value;
      var chain := RestoreChain(p);
      if chain.None? {
        return InvalidState;
      }
      var ok, replaced := ReplaceDisks(chain.value, p.targets, failAt);
      if !ok {
        log := if replaced == 0 then log else log.(suspect := log.suspect + log.taken.Keys);
        return Failed;
      }
      DeleteUltravCheckpoints();
      log := log.(restores := log.restores + {clock});
      return Done;
    }

    /** The disk loop of RestoreBackup; copying fails at the disk with index
        `failAt`, if there is one. */
    method ReplaceDisks(chain: seq<Point>, targets: seq<string>, failAt: nat) returns (ok: bool, replaced: nat)
      modifies `disks
      ensures Restored(disks, ok, replaced) == RestoreDisks(chain, targets, FileDisks(devices), old(disks), failAt)
    {
      var sources := FileDisks(devices);
      replaced := 0;
      while replaced < |targets|
        invariant replaced <= |targets| && replaced <= failAt
        invariant RestoreDisks(chain, targets, sources, old(disks), failAt)
                  == Later(RestoreDisks(chain, targets[replaced..], sources, disks, failAt - replaced), replaced)
      {
        var t := targets[replaced];
        var image: Option<Image> := None;
        if t in sources {
          image := RestoreDiskChain(chain, t, replaced != failAt);
        }
        if image.None? {
          return false, replaced;
        }
        assert targets[replaced..][1..] == targets[replaced + 1..];
        disks := disks[t := image.value];
        replaced := replaced + 1;
      }
      return true, replaced;
    }

    /** Retention after a scheduled backup; deleting the points in `refused`
        fails. Returns how many points went. */
    method PruneBackups(keep: nat, refused: set<string>) returns (pruned: nat)
      modifies `library, `checkpoints
      ensures View() == Prune(old(View()), keep, refused)
      ensures pruned == |old(library)| - |library|
    {
      var metas := library;
      var fulls, i := 0, 0;
      var cutoff: Option<nat> := None;
      while i < |metas| && cutoff.None?
        invariant i <= |metas|
        invariant Cutoff(metas, 0, keep) == if cutoff.Some? then cutoff else Cutoff(metas[i..], fulls, keep)
      {
        assert metas[i..][1..] == metas[i + 1..];
        if metas[i].kind.Full? {
          fulls := fulls + 1;
          if fulls == keep {
            cutoff := Some(metas[i].createdAt);
          }
        }
        i := i + 1;
      }
      pruned := 0;
      if cutoff.None? {
        return;
      }
      i := 0;
      while i < |metas|
        invariant i <= |metas|
        invariant Prune(old(View()), keep, refused) == PruneLoop(View(), metas[i..], cutoff.value, refused)
        invariant pruned == |old(library)| - |library|
      {
        var m := metas[i];
        assert metas[i..][1..] == metas[i + 1..];
        if m.createdAt < cutoff.value && m.id !in refused {
          var out := DeleteBackup(m.id);
          pruned := if out.Done? then pruned + 1 else pruned;
        }
        i := i + 1;
      }
    }
  }
}
