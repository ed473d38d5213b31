/** Backup chains of one virtual machine, as values: the domain with its disks
    and dirty-bitmap checkpoints, the library of backup points, and one function
    per provider operation. LibvirtProvider.dfy holds the same operations as
    methods that change their object, each proved equal to its function here. */
module ChainModel {
  import opened Wrappers

  /** The allocated clusters of a disk or of a backup image. */
  type Image = map<nat, int>

  /** Images by disk target (vda, sda, ...). */
  type Disks = map<string, Image>

  datatype Cell = Cell(target: string, block: nat)

  /** A libvirt checkpoint. Its bitmap holds the cells written while it was the
      newest one. */
  datatype Checkpoint = Checkpoint(name: string, dirty: set<Cell>)

  datatype Device = Device(target: string, device: string, file: string)

  datatype Domain = Domain(devices: seq<Device>, disks: Disks, running: bool, checkpoints: seq<Checkpoint>)

  datatype Kind = Full | Incremental

  datatype Point = Point(id: string, createdAt: nat, kind: Kind, parent: string, checkpoint: string,
                         targets: seq<string>, images: Disks)

  datatype Request = Auto | ForceFull | ForceIncremental

  /** The point and checkpoint the next backup continues from, both "" for a full. */
  datatype Anchor = Anchor(parent: string, checkpoint: string)

  /** How the push-mode job ended: reported completed or its record gone, with
      the images then on disk; or canceled. `written` is whether domain.xml and
      metadata.json could be written afterwards. */
  datatype JobEnd = Ended(produced: Disks, written: bool) | Canceled

  datatype Outcome = Done | NotFound | InvalidState | Failed

  /** What the proofs remember about the past; no operation reads it.
      taken and snaps: every point whose disks were captured, and those disks.
      restores: when a restore completed. suspect: points captured before a
      restore that failed after replacing a disk. bad: points captured on a
      suspect base, or published from images their job left unfinished. */
  datatype Log = Log(taken: map<string, Point>, snaps: map<string, Disks>, restores: set<nat>,
                     suspect: set<string>, bad: set<string>)

  /** `lib` lists the complete points newest first, as the store does. */
  datatype World = World(dom: Domain, lib: seq<Point>, job: Option<Point>, clock: nat, log: Log)

  datatype Event =
    | Write(target: string, block: nat, value: int)
    | Start
    | Stop
    | Backup(req: Request, id: string, at: nat, begins: bool)
    | JobEnds(end: JobEnd)
    | Delete(id: string)
    | Restore(id: string, failAt: nat)
    | AddForeignCheckpoint(name: string)
    | DropCheckpoint(name: string)
    | Recreate(contents: Disks)

  // ---------- names ----------

  function CheckpointName(id: string): string {
    "chk-" + TrimPrefix(id, "bk-")
  }

  predicate IsPointId(id: string) {
    "bk-" < id
  }

  predicate IsUltravCheckpoint(name: string) {
    "chk-" <= name
  }

  /** Targets of the file-backed disks, in document order. */
  function FileDisks(devices: seq<Device>): seq<string> {
    if devices == [] then []
    else (if devices[0].device == "disk" && devices[0].file != "" then [devices[0].target] else [])
         + FileDisks(devices[1..])
  }

  // ---------- checkpoints ----------

  predicate HasCheckpoint(cps: seq<Checkpoint>, name: string) {
    cps != [] && (cps[0].name == name || HasCheckpoint(cps[1..], name))
  }

  function AllDirty(cps: seq<Checkpoint>): set<Cell> {
    if cps == [] then {} else cps[0].dirty + AllDirty(cps[1..])
  }

  /** The cells an incremental backup from checkpoint `name` copies: its own
      bitmap together with those of all later checkpoints. */
  function DirtySince(cps: seq<Checkpoint>, name: string): set<Cell> {
    if cps == [] then {}
    else if cps[0].name == name then AllDirty(cps)
    else DirtySince(cps[1..], name)
  }

  /** A guest write marks its cell in the newest checkpoint's bitmap. */
  function Record(cps: seq<Checkpoint>, cell: Cell): seq<Checkpoint> {
    if cps == [] then []
    else if |cps| == 1 then [cps[0].(dirty := cps[0].dirty + {cell})]
    else [cps[0]] + Record(cps[1..], cell)
  }

  /** Deleting a checkpoint merges its bitmap into the one before it. */
  function RemoveCheckpoint(cps: seq<Checkpoint>, name: string): seq<Checkpoint> {
    if cps == [] then []
    else if cps[0].name == name then cps[1..]
    else if |cps| > 1 && cps[1].name == name then [cps[0].(dirty := cps[0].dirty + cps[1].dirty)] + cps[2..]
    else [cps[0]] + RemoveCheckpoint(cps[1..], name)
  }

  /** Removes the UltraV checkpoints among `listed`, one after the other. */
  function DropUltrav(cps: seq<Checkpoint>, listed: seq<Checkpoint>): seq<Checkpoint>
    decreases |listed|
  {
    if listed == [] then cps
    else DropUltrav(if IsUltravCheckpoint(listed[0].name) then RemoveCheckpoint(cps, listed[0].name) else cps,
                    listed[1..])
  }

  // ---------- library ----------

  function Find(lib: seq<Point>, id: string): Option<Point> {
    if lib == [] then None
    else if lib[0].id == id then Some(lib[0])
    else Find(lib[1..], id)
  }

  function Without(lib: seq<Point>, id: string): seq<Point> {
    if lib == [] then []
    else if lib[0].id == id then lib[1..]
    else [lib[0]] + Without(lib[1..], id)
  }

  ghost predicate ParentsOlder(lib: seq<Point>) {
    forall p, q | p in lib && q in lib && p.parent == q.id :: q.createdAt < p.createdAt
  }

  lemma FindIsMember(lib: seq<Point>, id: string)
    ensures Find(lib, id).Some? ==> Find(lib, id).value in lib && Find(lib, id).value.id == id
  {
  }

  /** The ancestor chain of a point, oldest first. */
  ghost function Chain(lib: seq<Point>, p: Point): Option<seq<Point>>
    requires ParentsOlder(lib) && p in lib
    decreases p.createdAt
  {
    if p.parent == "" then Some([p])
    else
      match Find(lib, p.parent)
      case None => None
      case Some(q) =>
        FindIsMember(lib, p.parent);
        match Chain(lib, q)
        case None => None
        case Some(c) => Some(c + [p])
  }

  // ---------- backup ----------

  function ChainParent(w: World, req: Request): Result<Anchor, Outcome> {
    if req.ForceFull? then Ok(Anchor("", ""))
    else if w.lib == [] || w.lib[0].checkpoint == "" || !HasCheckpoint(w.dom.checkpoints, w.lib[0].checkpoint) then
      if req.ForceIncremental? then Err(InvalidState) else Ok(Anchor("", ""))
    else Ok(Anchor(w.lib[0].id, w.lib[0].checkpoint))
  }

  function DirtyPart(target: string, image: Image, dirty: set<Cell>): Image {
    map b | b in image && Cell(target, b) in dirty :: image[b]
  }

  /** The images a job started now produces: whole disks, or the cells dirtied
      since checkpoint `since`. */
  function Copied(dom: Domain, since: string): Disks {
    map t | t in FileDisks(dom.devices) && t in dom.disks ::
      if since == "" then dom.disks[t] else DirtyPart(t, dom.disks[t], DirtySince(dom.checkpoints, since))
  }

  function NewPoint(dom: Domain, a: Anchor, id: string, at: nat, checkpoint: string): Point {
    Point(id, at, if a.parent == "" then Full else Incremental, a.parent, checkpoint,
          FileDisks(dom.devices), Copied(dom, a.checkpoint))
  }

  function Capture(log: Log, p: Point, disks: Disks): Log {
    log.(taken := log.taken[p.id := p], snaps := log.snaps[p.id := disks],
         bad := if p.parent != "" && p.parent in log.suspect then log.bad + {p.id} else log.bad)
  }

  /** backupOffline, or backupOnline up to and including BackupBegin. With
      `begins` false some step before that fails. */
  function BackupStep(w: World, req: Request, id: string, at: nat, begins: bool): (World, Outcome) {
    var w0 := w.(clock := at);
    match ChainParent(w, req)
    case Err(e) => (w, e)
    case Ok(a) =>
      if !w.dom.running then
        if !begins then (w0, Failed)
        else
          var p := NewPoint(w.dom, Anchor("", ""), id, at, "");
          (w0.(lib := [p] + w.lib, log := Capture(w.log, p, w.dom.disks)), Done)
      else if !begins || FileDisks(w.dom.devices) == [] then (w0, Failed)
      else
        var p := NewPoint(w.dom, a, id, at, CheckpointName(id));
        (w0.(job := Some(p),
             dom := w.dom.(checkpoints := w.dom.checkpoints + [Checkpoint(p.checkpoint, {})]),
             log := Capture(w.log, p, w.dom.disks)),
         Done)
  }

  predicate AllProduced(targets: seq<string>, produced: Disks) {
    forall t | t in targets :: t in produced
  }

  /** The images found on disk. */
  function Images(targets: seq<string>, produced: Disks): Disks {
    map t | t in targets && t in produced :: produced[t]
  }

  /** backupOnline from the poll loop on: a job that ended counts as done if each
      disk has an image. A failure removes the point's directory and leaves its
      checkpoint in the domain. */
  function JobStep(w: World, end: JobEnd): (World, Outcome) {
    if w.job.None? then (w, Failed)
    else
      var p := w.job.value;
      var over := w.(job := None);
      match end
      case Canceled => (over, Failed)
      case Ended(produced, written) =>
        if !AllProduced(p.targets, produced) || !written then (over, Failed)
        else (PublishProduced(over, p, Images(p.targets, produced)), Done)
  }

  /** Publishes the point with the images found on disk. */
  function PublishProduced(w: World, p: Point, images: Disks): World {
    var q := p.(images := images);
    if q == p then w.(lib := [p] + w.lib)
    else w.(lib := [q] + w.lib, log := w.log.(taken := w.log.taken[p.id := q], bad := w.log.bad + {p.id}))
  }

  // ---------- delete and restore ----------

  function DeleteStep(w: World, id: string): (World, Outcome) {
    match Find(w.lib, id)
    case None => (w, NotFound)
    case Some(p) =>
      var cps := w.dom.checkpoints;
      (w.(lib := Without(w.lib, id),
          dom := w.dom.(checkpoints := if p.checkpoint == "" then cps else RemoveCheckpoint(cps, p.checkpoint))),
       Done)
  }

  predicate HasImages(chain: seq<Point>, t: string) {
    forall m | m in chain :: t in m.targets && t in m.images
  }

  /** The full image, then each incremental's clusters on top of it. */
  function Replay(chain: seq<Point>, t: string): Image
    requires HasImages(chain, t)
  {
    if chain == [] then map[]
    else Replay(chain[..|chain| - 1], t) + chain[|chain| - 1].images[t]
  }

  datatype Restored = Restored(disks: Disks, ok: bool, replaced: nat)

  /** Materializes the targets one after the other; copying fails at the one
      with index `failAt`, if there is one. */
  function RestoreDisks(chain: seq<Point>, targets: seq<string>, sources: seq<string>, disks: Disks, failAt: nat): Restored {
    if targets == [] then Restored(disks, true, 0)
    else if targets[0] !in sources || failAt == 0 || !HasImages(chain, targets[0]) then Restored(disks, false, 0)
    else
      var r := RestoreDisks(chain, targets[1..], sources, disks[targets[0] := Replay(chain, targets[0])], failAt - 1);
      r.(replaced := r.replaced + 1)
  }

  function ConcludeRestore(w: World, r: Restored): (World, Outcome) {
    if !r.ok then
      (w.(dom := w.dom.(disks := r.disks),
          log := if r.replaced == 0 then w.log else w.log.(suspect := w.log.suspect + w.log.taken.Keys)),
       Failed)
    else
      (w.(dom := w.dom.(disks := r.disks, checkpoints := DropUltrav(w.dom.checkpoints, w.dom.checkpoints)),
          log := w.log.(restores := w.log.restores + {w.clock})),
       Done)
  }

  ghost function RestoreStep(w: World, id: string, failAt: nat): (World, Outcome)
    requires ParentsOlder(w.lib)
  {
    match Find(w.lib, id)
    case None => (w, NotFound)
    case Some(p) =>
      FindIsMember(w.lib, id);
      if w.dom.running then (w, InvalidState)
      else
        match Chain(w.lib, p)
        case None => (w, InvalidState)
        case Some(chain) =>
          ConcludeRestore(w, RestoreDisks(chain, p.targets, FileDisks(w.dom.devices), w.dom.disks, failAt))
  }

  // ---------- runs ----------

  function Put(image: Image, b: nat, v: int): Image {
    image + map[b := v]
  }

  /** A guest write, to an allocated cluster or to a new one. */
  function WriteStep(w: World, t: string, b: nat, v: int): World {
    if !w.dom.running || t !in w.dom.disks then w
    else
      w.(dom := w.dom.(disks := w.dom.disks[t := Put(w.dom.disks[t], b, v)],
                       checkpoints := Record(w.dom.checkpoints, Cell(t, b))))
  }

  /** One step of the system. The operator's steps are checkpoints created and
      deleted with virsh, and the VM deleted and created again by the same name. */
  ghost function Step(w: World, ev: Event): World {
    match ev
    case Write(t, b, v) => WriteStep(w, t, b, v)
    case Start => w.(dom := w.dom.(running := true))
    case Stop => w.(dom := w.dom.(running := false))
    case Backup(req, id, at, begins) => BackupStep(w, req, id, at, begins).0
    case JobEnds(end) => JobStep(w, end).0
    case Delete(id) => DeleteStep(w, id).0
    case Restore(id, failAt) => if ParentsOlder(w.lib) then RestoreStep(w, id, failAt).0 else w
    case AddForeignCheckpoint(name) =>
      if IsUltravCheckpoint(name) || HasCheckpoint(w.dom.checkpoints, name) then w
      else w.(dom := w.dom.(checkpoints := w.dom.checkpoints + [Checkpoint(name, {})]))
    case DropCheckpoint(name) =>
      w.(dom := w.dom.(checkpoints := RemoveCheckpoint(w.dom.checkpoints, name)))
    case Recreate(contents) =>
      if contents.Keys != w.dom.disks.Keys then w
      else w.(dom := w.dom.(disks := contents, running := false, checkpoints := []))
  }

  /** What the model takes for granted of each event: backups of the VM do not
      overlap, ids are fresh, and creation times increase. */
  ghost predicate Admissible(w: World, ev: Event) {
    ev.Backup? ==> w.job.None? && IsPointId(ev.id) && ev.id !in w.log.taken && w.clock < ev.at
  }

  ghost function Exec(w: World, evs: seq<Event>): World
    decreases |evs|
  {
    if evs == [] then w else Exec(Step(w, evs[0]), evs[1..])
  }

  ghost predicate AdmissibleRun(w: World, evs: seq<Event>)
    decreases |evs|
  {
    evs == [] || (Admissible(w, evs[0]) && AdmissibleRun(Step(w, evs[0]), evs[1..]))
  }

  ghost predicate Distinct<T>(s: seq<T>) {
    forall i, j | 0 <= i < j < |s| :: s[i] != s[j]
  }

  /** A domain before its first backup. */
  ghost predicate Init(w: World) {
    && Distinct(FileDisks(w.dom.devices))
    && w.dom.disks.Keys == (set t | t in FileDisks(w.dom.devices))
    && w.dom.checkpoints == []
    && w.lib == [] && w.job.None?
    && w.log == Log(map[], map[], {}, {}, {})
  }
}
