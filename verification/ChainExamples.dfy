/** Concrete admissible runs, from a domain before its first backup, on which a
    backup does not come back as it was taken, or not at all. */
module ChainExamples {
  import opened Wrappers
  import opened ChainModel
  import opened ChainInvariant
  import opened RestoreCorrectness
  import opened ChainConsequences
  import opened Retention

  // ---------- runs ----------

  ghost predicate Follows(w: World, evs: seq<Event>, w': World) {
    AdmissibleRun(w, evs) && Exec(w, evs) == w'
  }

  lemma {:induction false} Then(w: World, evs: seq<Event>, w1: World, ev: Event, w2: World)
    requires Follows(w, evs, w1) && Admissible(w1, ev) && w2 == Step(w1, ev)
    ensures Follows(w, evs + [ev], w2)
    decreases |evs|
  {
    var more := evs + [ev];
    if evs == [] {
      assert more[1..] == [];
    } else {
      assert more[1..] == evs[1..] + [ev];
      Then(Step(w, evs[0]), evs[1..], w1, ev, w2);
    }
  }

  // ---------- two disks, a full, and an incremental that saw vda change ----------

  const TWO_DISKS := [Device("vda", "disk", "/a"), Device("vdb", "disk", "/b")]
  const TARGETS := ["vda", "vdb"]
  const P1 := Point("bk-1", 1, Full, "", "chk-1", TARGETS, Two(0, 0))
  const P2 := Point("bk-2", 2, Incremental, "bk-1", "chk-2", TARGETS, map["vda" := map[0 := 1], "vdb" := map[]])
  const P3 := Point("bk-3", 3, Incremental, "bk-2", "chk-3", TARGETS, map["vda" := map[], "vdb" := map[]])
  const ONE_CHECKPOINT := [Checkpoint("chk-1", {})]
  const DIRTY_CHECKPOINT := [Checkpoint("chk-1", {Cell("vda", 0)})]
  const CHECKPOINTS := [Checkpoint("chk-1", {Cell("vda", 0)}), Checkpoint("chk-2", {})]

  const FIRST := Backup(Auto, "bk-1", 1, true)
  const SECOND := Backup(Auto, "bk-2", 2, true)
  const THIRD := Backup(Auto, "bk-3", 3, true)

  function Two(a: int, b: int): Disks {
    map["vda" := map[0 := a], "vdb" := map[0 := b]]
  }

  lemma AreTwo(disks: Disks, a: int, b: int)
    requires disks.Keys == {"vda", "vdb"} && disks["vda"] == map[0 := a] && disks["vdb"] == map[0 := b]
    ensures disks == Two(a, b)
  {
  }

  function Finishes(p: Point): Event {
    JobEnds(Ended(p.images, true))
  }

  ghost predicate Fresh(w: World) {
    Init(w) && w.dom == Domain(TWO_DISKS, Two(0, 0), false, []) && w.clock == 0
  }

  ghost predicate At(w: World, disks: Disks, running: bool, cps: seq<Checkpoint>, lib: seq<Point>, ids: set<string>, clock: nat) {
    && w.dom == Domain(TWO_DISKS, disks, running, cps) && w.lib == lib && w.job.None?
    && w.log.taken.Keys == ids && w.clock == clock
  }

  /** No restore tore and no job left an image unfinished. */
  predicate Spotless(w: World) {
    w.log.suspect == {} && w.log.bad == {}
  }

  lemma TwoTargets()
    ensures FileDisks(TWO_DISKS) == TARGETS
  {
    assert TWO_DISKS[1..] == [TWO_DISKS[1]] && TWO_DISKS[1..][1..] == [];
    assert FileDisks(TWO_DISKS[1..]) == ["vdb"];
  }

  lemma Names()
    ensures CheckpointName("bk-1") == "chk-1" && CheckpointName("bk-2") == "chk-2" && CheckpointName("bk-3") == "chk-3"
    ensures IsPointId("bk-1") && IsPointId("bk-2") && IsPointId("bk-3")
  {
  }

  /** An online backup whose job finishes its images. */
  lemma BackedUp(w: World, req: Request, a: Anchor, p: Point, w1: World, w2: World)
    requires w.dom.running && w.job.None? && ChainParent(w, req) == Ok(a) && FileDisks(w.dom.devices) == TARGETS
    requires p == NewPoint(w.dom, a, p.id, p.createdAt, CheckpointName(p.id))
    requires p.images.Keys == {"vda", "vdb"}
    requires w1 == Step(w, Backup(req, p.id, p.createdAt, true)) && w2 == Step(w1, Finishes(p))
    ensures w2.lib == [p] + w.lib && w2.job.None? && w2.clock == p.createdAt
    ensures w2.dom == w.dom.(checkpoints := w.dom.checkpoints + [Checkpoint(p.checkpoint, {})])
    ensures w2.log == Capture(w.log, p, w.dom.disks)
  {
    assert w1 == BackupStep(w, req, p.id, p.createdAt, true).0;
    assert w1.job == Some(p);
    assert AllProduced(TARGETS, p.images) && Images(TARGETS, p.images) == p.images;
  }

  lemma FirstPoint(w: World)
    requires At(w, Two(0, 0), true, [], [], {}, 0)
    ensures NewPoint(w.dom, Anchor("", ""), "bk-1", 1, "chk-1") == P1
  {
    TwoTargets();
    assert Copied(w.dom, "") == Two(0, 0);
  }

  lemma SecondPoint(w: World)
    requires At(w, Two(1, 0), true, DIRTY_CHECKPOINT, [P1], {"bk-1"}, 1)
    ensures ChainParent(w, Auto) == Ok(Anchor("bk-1", "chk-1"))
    ensures NewPoint(w.dom, Anchor("bk-1", "chk-1"), "bk-2", 2, "chk-2") == P2
  {
    TwoTargets();
    assert DIRTY_CHECKPOINT[1..] == [] && AllDirty(DIRTY_CHECKPOINT) == {Cell("vda", 0)};
    var copied := Copied(w.dom, "chk-1");
    assert copied.Keys == {"vda", "vdb"};
    assert copied["vda"] == map[0 := 1] && copied["vdb"] == map[];
    assert copied == P2.images;
  }

  lemma NothingDirtySinceSecond()
    ensures HasCheckpoint(CHECKPOINTS, "chk-2") && DirtySince(CHECKPOINTS, "chk-2") == {}
  {
    var rest := CHECKPOINTS[1..];
    assert rest == [CHECKPOINTS[1]] && rest[1..] == [];
    assert AllDirty(rest) == {} + AllDirty(rest[1..]);
    assert DirtySince(rest, "chk-2") == {};
  }

  /** The next automatic backup continues from bk-2, whose bitmap is empty. */
  lemma ThirdPoint(w: World, a: int)
    requires w.dom == Domain(TWO_DISKS, Two(a, 0), true, CHECKPOINTS) && w.lib != [] && w.lib[0] == P2
    ensures ChainParent(w, Auto) == Ok(Anchor("bk-2", "chk-2"))
    ensures NewPoint(w.dom, Anchor("bk-2", "chk-2"), "bk-3", 3, "chk-3") == P3
  {
    TwoTargets();
    NothingDirtySinceSecond();
    var copied := Copied(w.dom, "chk-2");
    assert copied.Keys == {"vda", "vdb"};
    assert copied["vda"] == map[] && copied["vdb"] == map[];
    assert copied == P3.images;
  }

  const ONE_BACKUP := [Start, FIRST, Finishes(P1)]

  lemma AfterOneBackup(w0: World) returns (w: World)
    requires Fresh(w0)
    ensures Follows(w0, ONE_BACKUP, w) && At(w, Two(0, 0), true, ONE_CHECKPOINT, [P1], {"bk-1"}, 1)
    ensures w.log.snaps == map["bk-1" := Two(0, 0)] && Spotless(w)
  {
    Names();
    var w1 := Step(w0, Start);
    FirstPoint(w1);
    var w2 := Step(w1, FIRST);
    w := Step(w2, Finishes(P1));
    TwoTargets();
    BackedUp(w1, Auto, Anchor("", ""), P1, w2, w);
    Then(w0, [], w0, Start, w1);
    Then(w0, [Start], w1, FIRST, w2);
    Then(w0, [Start, FIRST], w2, Finishes(P1), w);
    assert [] + [Start] == [Start] && [Start] + [FIRST] == [Start, FIRST];
    assert [Start, FIRST] + [Finishes(P1)] == ONE_BACKUP;
  }

  const TWO_BACKUPS := ONE_BACKUP + [Write("vda", 0, 1)] + [SECOND] + [Finishes(P2)]

  lemma FirstWrite(w: World)
    requires At(w, Two(0, 0), true, ONE_CHECKPOINT, [P1], {"bk-1"}, 1)
    ensures At(Step(w, Write("vda", 0, 1)), Two(1, 0), true, DIRTY_CHECKPOINT, [P1], {"bk-1"}, 1)
  {
    var disks := w.dom.disks["vda" := Put(map[0 := 0], 0, 1)];
    assert Put(map[0 := 0], 0, 1) == map[0 := 1];
    AreTwo(disks, 1, 0);
    var none: set<Cell> := {};
    assert none + {Cell("vda", 0)} == {Cell("vda", 0)};
    assert Record(ONE_CHECKPOINT, Cell("vda", 0)) == DIRTY_CHECKPOINT;
    assert Step(w, Write("vda", 0, 1)) == WriteStep(w, "vda", 0, 1);
  }

  lemma SecondBackup(w: World, w1: World, w2: World)
    requires At(w, Two(1, 0), true, DIRTY_CHECKPOINT, [P1], {"bk-1"}, 1)
    requires w1 == Step(w, SECOND) && w2 == Step(w1, Finishes(P2))
    ensures At(w2, Two(1, 0), true, CHECKPOINTS, [P2, P1], {"bk-1", "bk-2"}, 2)
    ensures w2.log == Capture(w.log, P2, Two(1, 0))
  {
    Names();
    TwoTargets();
    SecondPoint(w);
    BackedUp(w, Auto, Anchor("bk-1", "chk-1"), P2, w1, w2);
    assert [P2] + [P1] == [P2, P1];
    assert DIRTY_CHECKPOINT + [Checkpoint("chk-2", {})] == CHECKPOINTS;
  }

  lemma AfterTwoBackups(w0: World) returns (w: World)
    requires Fresh(w0)
    ensures w.log.snaps == map["bk-1" := Two(0, 0), "bk-2" := Two(1, 0)] && Spotless(w)
    ensures Follows(w0, TWO_BACKUPS, w) && At(w, Two(1, 0), true, CHECKPOINTS, [P2, P1], {"bk-1", "bk-2"}, 2)
  {
    Names();
    var w1 := AfterOneBackup(w0);
    var w2 := Step(w1, Write("vda", 0, 1));
    FirstWrite(w1);
    var w3 := Step(w2, SECOND);
    w := Step(w3, Finishes(P2));
    SecondBackup(w2, w3, w);
    Then(w0, ONE_BACKUP, w1, Write("vda", 0, 1), w2);
    Then(w0, ONE_BACKUP + [Write("vda", 0, 1)], w2, SECOND, w3);
    Then(w0, ONE_BACKUP + [Write("vda", 0, 1)] + [SECOND], w3, Finishes(P2), w);
  }

  // ---------- chains ----------

  lemma FullChain(lib: seq<Point>)
    requires ParentsOlder(lib) && P1 in lib
    ensures Chain(lib, P1) == Some([P1])
    ensures forall t | t in TARGETS :: HasImages([P1], t) && t in P1.images && Replay([P1], t) == P1.images[t]
  {
    assert [] + [P1] == [P1];
    forall t | t in TARGETS ensures HasImages([P1], t) && t in P1.images && Replay([P1], t) == P1.images[t] {
      ReplayAppend([], P1, t);
    }
  }

  lemma OldestFirst(lib: seq<Point>)
    requires lib == [P2, P1] || lib == [P3, P2, P1]
    ensures ParentsOlder(lib)
  {
  }

  lemma LongFind(lib: seq<Point>)
    requires lib == [P3, P2, P1]
    ensures Find(lib, "bk-1") == Some(P1) && Find(lib, "bk-2") == Some(P2) && Find(lib, "bk-3") == Some(P3)
  {
    assert lib[1..] == [P2, P1] && lib[1..][1..] == [P1];
    assert Find(lib[1..][1..], "bk-1") == Some(P1);
    assert Find(lib[1..], "bk-1") == Some(P1) && Find(lib[1..], "bk-2") == Some(P2);
  }

  lemma LongReplay(t: string)
    requires t in TARGETS
    ensures HasImages([P1, P2, P3], t) && t in P1.images && t in P2.images && t in P3.images
    ensures Replay([P1, P2, P3], t) == P1.images[t] + P2.images[t] + P3.images[t]
  {
    assert [P1, P2] + [P3] == [P1, P2, P3];
    EachTarget(t);
    ShortReplay(t);
    ReplayAppend([P1, P2], P3, t);
  }

  lemma ShortReplay(t: string)
    requires t in TARGETS
    ensures HasImages([P1, P2], t) && t in P1.images && t in P2.images
    ensures Replay([P1, P2], t) == P1.images[t] + P2.images[t]
  {
    EachTarget(t);
    assert [] + [P1] == [P1] && [P1] + [P2] == [P1, P2];
    assert HasImages([], t) && HasImages([P1], t) && Replay([], t) == map[];
    ReplayAppend([], P1, t);
    ReplayAppend([P1], P2, t);
  }

  lemma EachTarget(t: string)
    requires t in TARGETS
    ensures forall p | p in {P1, P2, P3} :: t in p.targets && t in p.images
  {
    assert t == TARGETS[0] || t == TARGETS[1];
  }

  lemma LongChain(lib: seq<Point>)
    requires lib == [P3, P2, P1] && ParentsOlder(lib)
    ensures Find(lib, "bk-3") == Some(P3) && Chain(lib, P3) == Some([P1, P2, P3])
    ensures forall t | t in TARGETS :: HasImages([P1, P2, P3], t)
    ensures Replay([P1, P2, P3], "vda") == map[0 := 1] && Replay([P1, P2, P3], "vdb") == map[0 := 0]
  {
    FullChain(lib);
    LongFind(lib);
    assert Chain(lib, P2) == Some([P1] + [P2]);
    assert [P1] + [P2] == [P1, P2] && [P1, P2] + [P3] == [P1, P2, P3];
    forall t | t in TARGETS
      ensures HasImages([P1, P2, P3], t)
    {
      LongReplay(t);
    }
    assert "vda" in TARGETS && "vdb" in TARGETS;
    LongReplay("vda");
    LongReplay("vdb");
  }

  // ---------- a torn restore ----------

  /** The restore of bk-1 that fails at its second disk puts vda back to 0 and
      leaves both checkpoints as they were. */
  lemma FirstDiskOnly(disks: Disks)
    requires disks == Two(1, 0)
    ensures RestoreDisks([P1], TARGETS, TARGETS, disks, 1) == Restored(Two(0, 0), false, 1)
  {
    OldestFirst([P2, P1]);
    FullChain([P2, P1]);
    var disks1 := disks["vda" := map[0 := 0]];
    assert TARGETS[1..] == ["vdb"];
    assert "vda" in TARGETS && "vdb" in TARGETS;
    assert RestoreDisks([P1], TARGETS[1..], TARGETS, disks1, 0) == Restored(disks1, false, 0);
    AreTwo(disks1, 0, 0);
  }

  lemma Tear(w: World)
    requires At(w, Two(1, 0), false, CHECKPOINTS, [P2, P1], {"bk-1", "bk-2"}, 2)
    ensures At(Step(w, Restore("bk-1", 1)), Two(0, 0), false, CHECKPOINTS, [P2, P1], {"bk-1", "bk-2"}, 2)
  {
    OldestFirst(w.lib);
    TwoTargets();
    FullChain(w.lib);
    RestoreUnfolds(w, "bk-1", 1);
    assert w.lib[1..][0] == P1 && Find(w.lib, "bk-1") == Some(P1);
    FirstDiskOnly(w.dom.disks);
    var r := Restored(Two(0, 0), false, 1);
    assert RestoreStep(w, "bk-1", 1) == ConcludeRestore(w, r);
    assert ConcludeRestore(w, r).0.dom == w.dom.(disks := Two(0, 0));
  }

  /** A restore of both disks along a chain that holds them. */
  lemma RestoresBoth(w: World, p: Point, c: seq<Point>)
    requires w.dom.devices == TWO_DISKS && w.dom.disks.Keys == {"vda", "vdb"} && !w.dom.running
    requires ParentsOlder(w.lib) && p in w.lib && Find(w.lib, p.id) == Some(p) && Chain(w.lib, p) == Some(c)
    requires p.targets == TARGETS && forall t | t in TARGETS :: HasImages(c, t)
    ensures HasImages(c, "vda") && HasImages(c, "vdb")
    ensures RestoreStep(w, p.id, 2).1.Done?
    ensures var disks := RestoreStep(w, p.id, 2).0.dom.disks;
            && disks.Keys == {"vda", "vdb"} && disks["vda"] == Replay(c, "vda") && disks["vdb"] == Replay(c, "vdb")
  {
    TwoTargets();
    RestoreUnfolds(w, p.id, 2);
    RestoreWritesAll(c, TARGETS, TARGETS, w.dom.disks, 2);
    RestoreTouchesTargets(c, TARGETS, TARGETS, w.dom.disks, 2);
    assert RestoreStep(w, p.id, 2) == ConcludeRestore(w, RestoreDisks(c, TARGETS, TARGETS, w.dom.disks, 2));
    assert "vda" in TARGETS && "vdb" in TARGETS;
  }

  lemma LongRestore(w: World)
    requires At(w, Two(0, 0), false, w.dom.checkpoints, [P3, P2, P1], w.log.taken.Keys, w.clock) && ParentsOlder(w.lib)
    ensures RestoreStep(w, "bk-3", 2).1.Done?
    ensures RestoreStep(w, "bk-3", 2).0.dom.disks == Two(1, 0)
  {
    LongChain(w.lib);
    RestoresBoth(w, P3, [P1, P2, P3]);
    AreTwo(RestoreStep(w, "bk-3", 2).0.dom.disks, 1, 0);
  }

  const TEARING_RUN := TWO_BACKUPS + [Stop] + [Restore("bk-1", 1)]
  const TORN_RUN := TEARING_RUN + [Start] + [THIRD] + [Finishes(P3)] + [Stop]

  lemma AfterTear(w0: World) returns (w: World)
    requires Fresh(w0)
    ensures Follows(w0, TEARING_RUN, w) && At(w, Two(0, 0), false, CHECKPOINTS, [P2, P1], {"bk-1", "bk-2"}, 2)
  {
    var w1 := AfterTwoBackups(w0);
    var w2 := Step(w1, Stop);
    w := Step(w2, Restore("bk-1", 1));
    Tear(w2);
    Then(w0, TWO_BACKUPS, w1, Stop, w2);
    Then(w0, TWO_BACKUPS + [Stop], w2, Restore("bk-1", 1), w);
  }

  lemma AfterNextBackup(w0: World) returns (w: World)
    requires Fresh(w0)
    ensures Follows(w0, TORN_RUN, w)
    ensures At(w, Two(0, 0), false, w.dom.checkpoints, [P3, P2, P1], {"bk-1", "bk-2", "bk-3"}, 3)
    ensures "bk-3" in w.log.snaps && w.log.snaps["bk-3"] == Two(0, 0)
  {
    Names();
    TwoTargets();
    var w3 := AfterTear(w0);
    var w4 := Step(w3, Start);
    ThirdPoint(w4, 0);
    var w5 := Step(w4, THIRD);
    var w6 := Step(w5, Finishes(P3));
    BackedUp(w4, Auto, Anchor("bk-2", "chk-2"), P3, w5, w6);
    w := Step(w6, Stop);
    Then(w0, TEARING_RUN, w3, Start, w4);
    Then(w0, TEARING_RUN + [Start], w4, THIRD, w5);
    Then(w0, TEARING_RUN + [Start] + [THIRD], w5, Finishes(P3), w6);
    Then(w0, TEARING_RUN + [Start] + [THIRD] + [Finishes(P3)], w6, Stop, w);
    assert [P3] + [P2, P1] == [P3, P2, P1];
  }

  /** Back up twice, let a restore fail at its second disk, back up automatically
      and restore that backup: it succeeds and leaves vda at 1, though vda held 0
      when bk-3 was taken. */
  lemma TornRestoreMisleads(w0: World)
    requires Fresh(w0)
    ensures AdmissibleRun(w0, TORN_RUN)
    ensures var w := Exec(w0, TORN_RUN);
            && ParentsOlder(w.lib) && "bk-3" in w.log.snaps && w.log.snaps["bk-3"] == Two(0, 0)
            && RestoreStep(w, "bk-3", 2).1.Done? && RestoreStep(w, "bk-3", 2).0.dom.disks == Two(1, 0)
  {
    var w := AfterNextBackup(w0);
    OldestFirst(w.lib);
    LongRestore(w);
  }

  // ---------- a job that left an image unfinished ----------

  const UNFINISHED: Disks := map["vda" := map[], "vdb" := map[0 := 0]]
  const Q1 := P1.(images := UNFINISHED)
  const UNFINISHED_RUN := [Start] + [FIRST] + [JobEnds(Ended(UNFINISHED, true))] + [Stop]

  /** The job of bk-1 ends with nothing in the image of vda. The point is
      published, and restoring it succeeds and empties vda. */
  lemma UnfinishedImageMisleads(w0: World)
    requires Fresh(w0)
    ensures AdmissibleRun(w0, UNFINISHED_RUN)
    ensures var w := Exec(w0, UNFINISHED_RUN);
            && ParentsOlder(w.lib) && "bk-1" in w.log.snaps && w.log.snaps["bk-1"] == Two(0, 0)
            && RestoreStep(w, "bk-1", 2).1.Done? && RestoreStep(w, "bk-1", 2).0.dom.disks == UNFINISHED
  {
    Names();
    TwoTargets();
    var w1 := Step(w0, Start);
    FirstPoint(w1);
    var w2 := Step(w1, FIRST);
    assert w2.job == Some(P1);
    var w3 := Step(w2, JobEnds(Ended(UNFINISHED, true)));
    assert AllProduced(TARGETS, UNFINISHED) && Images(TARGETS, UNFINISHED) == UNFINISHED;
    assert w3.lib == [Q1];
    var w := Step(w3, Stop);
    Then(w0, [], w0, Start, w1);
    assert [] + [Start] == [Start];
    Then(w0, [Start], w1, FIRST, w2);
    Then(w0, [Start] + [FIRST], w2, JobEnds(Ended(UNFINISHED, true)), w3);
    Then(w0, [Start] + [FIRST] + [JobEnds(Ended(UNFINISHED, true))], w3, Stop, w);
    UnfinishedRestore(w);
  }

  lemma UnfinishedChain(lib: seq<Point>)
    requires lib == [Q1]
    ensures ParentsOlder(lib) && Find(lib, "bk-1") == Some(Q1) && Chain(lib, Q1) == Some([Q1])
    ensures forall t | t in TARGETS :: HasImages([Q1], t) && t in Q1.images && Replay([Q1], t) == Q1.images[t]
  {
    assert [] + [Q1] == [Q1];
    forall t | t in TARGETS ensures HasImages([Q1], t) && t in Q1.images && Replay([Q1], t) == Q1.images[t] {
      ReplayAppend([], Q1, t);
    }
  }

  lemma UnfinishedRestore(w: World)
    requires At(w, Two(0, 0), false, w.dom.checkpoints, [Q1], w.log.taken.Keys, w.clock)
    ensures ParentsOlder(w.lib) && RestoreStep(w, "bk-1", 2).1.Done?
    ensures RestoreStep(w, "bk-1", 2).0.dom.disks == UNFINISHED
  {
    UnfinishedChain(w.lib);
    RestoresBoth(w, Q1, [Q1]);
    assert "vda" in TARGETS && "vdb" in TARGETS;
  }

  // ---------- a chain without its full ----------

  const BROKEN_RUN := TWO_BACKUPS + [Delete("bk-1")] + [THIRD] + [Finishes(P3)] + [Stop]

  lemma AfterDeletion(w0: World) returns (w: World)
    requires Fresh(w0)
    ensures Follows(w0, TWO_BACKUPS + [Delete("bk-1")], w)
    ensures w.dom == Domain(TWO_DISKS, Two(1, 0), true, [Checkpoint("chk-2", {})]) && w.lib == [P2]
    ensures w.job.None? && w.log.taken.Keys == {"bk-1", "bk-2"} && w.clock == 2
  {
    var w1 := AfterTwoBackups(w0);
    FullIsDeleted(w1);
    w := Step(w1, Delete("bk-1"));
    Then(w0, TWO_BACKUPS, w1, Delete("bk-1"), w);
  }

  /** With the full deleted, an automatic backup still continues the chain; the
      point it publishes can never be restored. */
  lemma BrokenChainGrows(w0: World)
    requires Fresh(w0)
    ensures AdmissibleRun(w0, BROKEN_RUN)
    ensures var w := Exec(w0, BROKEN_RUN);
            && w.lib == [P3, P2] && ParentsOlder(w.lib) && RestoreStep(w, "bk-3", 2) == (w, InvalidState)
  {
    Names();
    TwoTargets();
    var w2 := AfterDeletion(w0);
    var w3 := Step(w2, THIRD);
    ThirdOnSecond(w2);
    var w4 := Step(w3, Finishes(P3));
    BackedUp(w2, Auto, Anchor("bk-2", "chk-2"), P3, w3, w4);
    var w := Step(w4, Stop);
    Then(w0, TWO_BACKUPS + [Delete("bk-1")], w2, THIRD, w3);
    Then(w0, TWO_BACKUPS + [Delete("bk-1")] + [THIRD], w3, Finishes(P3), w4);
    Then(w0, TWO_BACKUPS + [Delete("bk-1")] + [THIRD] + [Finishes(P3)], w4, Stop, w);
    assert w.lib == [P3, P2];
    BrokenRestore(w);
  }

  lemma FullIsDeleted(w: World)
    requires w.lib == [P2, P1] && w.dom.checkpoints == CHECKPOINTS
    ensures Step(w, Delete("bk-1")).lib == [P2]
    ensures Step(w, Delete("bk-1")).dom == w.dom.(checkpoints := [Checkpoint("chk-2", {})])
    ensures Step(w, Delete("bk-1")).log == w.log && Step(w, Delete("bk-1")).job == w.job
    ensures Step(w, Delete("bk-1")).clock == w.clock
  {
    assert w.lib[1..] == [P1] && [P1][1..] == [];
    assert Find(w.lib, "bk-1") == Find(w.lib[1..], "bk-1") == Some(P1);
    assert Without(w.lib, "bk-1") == [P2] + Without([P1], "bk-1") == [P2];
    assert CHECKPOINTS[1..] == [Checkpoint("chk-2", {})];
  }

  lemma ThirdOnSecond(w: World)
    requires w.dom == Domain(TWO_DISKS, Two(1, 0), true, [Checkpoint("chk-2", {})]) && w.lib == [P2]
    ensures ChainParent(w, Auto) == Ok(Anchor("bk-2", "chk-2"))
    ensures NewPoint(w.dom, Anchor("bk-2", "chk-2"), "bk-3", 3, "chk-3") == P3
  {
    TwoTargets();
    var cps := [Checkpoint("chk-2", {})];
    assert cps[1..] == [] && AllDirty(cps) == {} && DirtySince(cps, "chk-2") == {};
    var copied := Copied(w.dom, "chk-2");
    assert copied.Keys == {"vda", "vdb"};
    assert copied["vda"] == map[] && copied["vdb"] == map[];
    assert copied == P3.images;
  }

  lemma BrokenRestore(w: World)
    requires w.lib == [P3, P2] && !w.dom.running
    ensures ParentsOlder(w.lib) && RestoreStep(w, "bk-3", 2) == (w, InvalidState)
  {
    assert w.lib[1..] == [P2] && [P2][1..] == [];
    assert "bk-3"[3] != "bk-1"[3] && "bk-2"[3] != "bk-1"[3];
    assert Find([P2], "bk-1") == None && Find(w.lib, "bk-1") == Find(w.lib[1..], "bk-1");
    assert Find(w.lib, "bk-2") == Find([P2], "bk-2") == Some(P2);
    assert ParentsOlder(w.lib);
    assert Chain(w.lib, P2) == None;
    assert Chain(w.lib, P3) == None;
    RestoreUnfolds(w, "bk-3", 2);
  }

  // ---------- a prune with a deletion that fails ----------

  const F3 := Point("bk-3", 3, Full, "", "chk-3", TARGETS, Two(1, 0))
  const FULL_THIRD := Backup(ForceFull, "bk-3", 3, true)
  const PRUNED_RUN := TWO_BACKUPS + [FULL_THIRD] + [Finishes(F3)]

  /** Keeping one full, with the deletion of bk-2 failing: bk-1 goes, and bk-2,
      restorable before, stays without it. */
  lemma RefusedDeletionBreaks(w0: World)
    requires Fresh(w0)
    ensures AdmissibleRun(w0, PRUNED_RUN)
    ensures var w := Exec(w0, PRUNED_RUN);
            && w.lib == [F3, P2, P1] && ParentsOlder(w.lib) && Chain(w.lib, P2).Some?
            && var pruned := Prune(w, 1, {"bk-2"});
               pruned.lib == [F3, P2] && ParentsOlder(pruned.lib) && Chain(pruned.lib, P2).None?
  {
    Names();
    TwoTargets();
    var w1 := AfterTwoBackups(w0);
    var w2 := Step(w1, FULL_THIRD);
    var w := Step(w2, Finishes(F3));
    assert Copied(w1.dom, "") == Two(1, 0);
    BackedUp(w1, ForceFull, Anchor("", ""), F3, w2, w);
    Then(w0, TWO_BACKUPS, w1, FULL_THIRD, w2);
    Then(w0, TWO_BACKUPS + [FULL_THIRD], w2, Finishes(F3), w);
    assert w.lib == [F3, P2, P1];
    ChainOfSecond(w.lib);
    PrunedLibrary(w);
  }

  lemma ChainOfSecond(lib: seq<Point>)
    requires lib == [F3, P2, P1]
    ensures ParentsOlder(lib) && Chain(lib, P2).Some?
  {
    assert lib[1..] == [P2, P1] && lib[1..][1..] == [P1];
    assert Find(lib[1..][1..], "bk-1") == Some(P1);
    assert Find(lib, "bk-1") == Find(lib[1..], "bk-1") == Some(P1);
    FullChain(lib);
  }

  lemma PrunedLibrary(w: World)
    requires w.lib == [F3, P2, P1]
    ensures var pruned := Prune(w, 1, {"bk-2"});
            pruned.lib == [F3, P2] && ParentsOlder(pruned.lib) && Chain(pruned.lib, P2).None?
  {
    assert w.lib[1..] == [P2, P1] && w.lib[1..][1..] == [P1] && [P1][1..] == [];
    assert Cutoff(w.lib, 0, 1) == Some(3);
    var w1 := DeleteStep(w, "bk-1").0;
    assert Without([P1], "bk-1") == [] && Without(w.lib[1..], "bk-1") == [P2] + [];
    assert Without(w.lib, "bk-1") == [F3] + [P2];
    assert Find(w.lib[1..][1..], "bk-1") == Some(P1) && Find(w.lib[1..], "bk-1") == Some(P1);
    assert Find(w.lib, "bk-1") == Some(P1) && w1.lib == [F3, P2];
    assert PruneLoop(w1, [], 3, {"bk-2"}) == w1;
    assert PruneLoop(w, [P1], 3, {"bk-2"}) == w1;
    assert PruneLoop(w, [P2, P1], 3, {"bk-2"}) == w1;
    assert PruneLoop(w, w.lib, 3, {"bk-2"}) == w1;
    assert [F3, P2][1..] == [P2] && [P2][1..] == [];
    assert "bk-3"[3] != "bk-1"[3] && "bk-2"[3] != "bk-1"[3];
    assert Find([P2], "bk-1") == None && Find([F3, P2], "bk-1") == Find([F3, P2][1..], "bk-1");
  }
}
