/** When a restore gives back what was captured, for points published from
    unfinished images and for points taken after a restore that failed part way. */
module Exactness {
  import opened Wrappers
  import opened ChainModel
  import opened ChainInvariant
  import opened RestoreCorrectness
  import opened ChainConsequences

  /** The part of the invariant that restores rest on. */
  ghost predicate Ready(w: World) {
    ChainReady(w) && DomainOk(w.dom) && Ordered(w.log)
  }

  lemma InvIsReady(w: World)
    requires Inv(w)
    ensures Ready(w)
  {
    InvMakesReady(w);
    HistoryIsOrdered(w);
  }

  /** Neither the point nor any of its ancestors is unsound. */
  ghost predicate SoundLineage(log: Log, id: string)
    requires Ordered(log)
  {
    id in log.taken && forall a | a in Lineage(log, id) :: a !in log.bad
  }

  // ---------- replaying one chain ----------

  lemma {:induction false} ChainIsLineage(w: World, p: Point)
    requires ChainReady(w) && Ordered(w.log) && p in w.lib && Chain(w.lib, p).Some?
    ensures p.id in w.log.taken
    ensures forall m | m in Chain(w.lib, p).value :: m.id in Lineage(w.log, p.id)
    decreases p.createdAt
  {
    assert Taken(w.log, p);
    if p.parent != "" {
      FindIsMember(w.lib, p.parent);
      var q := Find(w.lib, p.parent).value;
      ChainIsLineage(w, q);
      var c := Chain(w.lib, q).value;
      assert Chain(w.lib, p).value == c + [p];
      assert Lineage(w.log, p.id) == Lineage(w.log, p.parent) + [p.id];
    }
  }

  lemma ListedReady(w: World, id: string)
    requires Ready(w) && Unbroken(w, id) && Listed(w.lib, id)
    ensures ChainReady(w) && DomainOk(w.dom)
    ensures Find(w.lib, id).value in w.lib && Find(w.lib, id).value.id == id
    ensures Taken(w.log, Find(w.lib, id).value) && CaptureOk(w.dom, w.log, w.clock, id)
    ensures Chain(w.lib, Find(w.lib, id).value).Some?
  {
    FindIsMember(w.lib, id);
    ChainIffAncestorsListed(w, Find(w.lib, id).value);
  }

  /** An unbroken sound lineage replays to what was captured. */
  lemma SoundReplay(w: World, id: string, t: string)
    requires Ready(w) && Unbroken(w, id) && Listed(w.lib, id) && SoundLineage(w.log, id)
    requires t in FileDisks(w.dom.devices)
    ensures Find(w.lib, id).value in w.lib && Chain(w.lib, Find(w.lib, id).value).Some?
    ensures var c := Chain(w.lib, Find(w.lib, id).value).value;
            HasImages(c, t) && id in w.log.snaps && t in w.log.snaps[id] && Replay(c, t) == w.log.snaps[id][t]
  {
    ListedReady(w, id);
    var p := Find(w.lib, id).value;
    ChainIsLineage(w, p);
    ReplayGivesSnapshot(w, p, t);
  }

  /** What an image of the point is laid on: nothing, or the parent's disk. */
  ghost function Base(log: Log, p: Point, t: string): Image
    requires p.parent != "" ==> p.parent in log.snaps && t in log.snaps[p.parent]
  {
    if p.parent == "" then map[] else log.snaps[p.parent][t]
  }

  /** The newest point, with every ancestor listed and each of those sound. */
  ghost predicate NewestWhole(w: World)
    requires Ordered(w.log)
  {
    w.lib != [] && Unbroken(w, w.lib[0].id) && (w.lib[0].parent != "" ==> SoundLineage(w.log, w.lib[0].parent))
  }

  lemma ParentUnbroken(w: World, id: string)
    requires Ordered(w.log) && Unbroken(w, id) && w.log.taken[id].parent != ""
    ensures Unbroken(w, w.log.taken[id].parent) && Listed(w.lib, w.log.taken[id].parent)
  {
    var parent := w.log.taken[id].parent;
    assert Lineage(w.log, id) == Lineage(w.log, parent) + [id];
    LineageEnds(w.log, parent);
  }

  lemma NewestReplay(w: World, t: string)
    requires Ready(w) && NewestWhole(w) && t in FileDisks(w.dom.devices)
    ensures w.lib[0] in w.lib && Find(w.lib, w.lib[0].id) == Some(w.lib[0]) && Chain(w.lib, w.lib[0]).Some?
    ensures var (p, c) := (w.lib[0], Chain(w.lib, w.lib[0]).value);
            && (p.parent != "" ==> p.parent in w.log.snaps && t in w.log.snaps[p.parent])
            && HasImages(c, t) && t in p.images && Replay(c, t) == Base(w.log, p, t) + p.images[t]
  {
    var p := w.lib[0];
    assert Find(w.lib, p.id) == Some(p);
    ListedReady(w, p.id);
    if p.parent == "" {
      assert Chain(w.lib, p).value == [] + [p];
      ReplayAppend([], p, t);
    } else {
      ParentUnbroken(w, p.id);
      SoundReplay(w, p.parent, t);
      var q := Find(w.lib, p.parent).value;
      assert Chain(w.lib, p).value == Chain(w.lib, q).value + [p];
      ReplayAppend(Chain(w.lib, q).value, p, t);
    }
  }

  /** Restoring the newest point lays its images on their base. */
  lemma RestoreNewest(w: World, n: nat, after: World)
    requires Ready(w) && NewestWhole(w) && !w.dom.running && |FileDisks(w.dom.devices)| <= n
    requires after == Step(w, Restore(w.lib[0].id, n))
    ensures RestoreStep(w, w.lib[0].id, n).1.Done?
    ensures after.dom.disks.Keys == w.dom.disks.Keys
    ensures forall t | t in w.dom.disks ::
              && (w.lib[0].parent != "" ==> w.lib[0].parent in w.log.snaps && t in w.log.snaps[w.lib[0].parent])
              && t in w.lib[0].images
              && after.dom.disks[t] == Base(w.log, w.lib[0], t) + w.lib[0].images[t]
  {
    var p, targets := w.lib[0], FileDisks(w.dom.devices);
    assert Find(w.lib, p.id) == Some(p);
    ListedReady(w, p.id);
    var c := Chain(w.lib, p).value;
    forall t | t in targets
      ensures t in w.dom.disks && HasImages(c, t)
      ensures (p.parent != "" ==> p.parent in w.log.snaps && t in w.log.snaps[p.parent])
      ensures t in p.images && Replay(c, t) == Base(w.log, p, t) + p.images[t]
    {
      NewestReplay(w, t);
    }
    assert p.targets == targets;
    RestoreOf(w, p, c, n, after);
  }

  lemma RestoreOf(w: World, p: Point, c: seq<Point>, n: nat, after: World)
    requires ParentsOlder(w.lib) && Find(w.lib, p.id) == Some(p) && p in w.lib && Chain(w.lib, p) == Some(c)
    requires DomainOk(w.dom) && p.targets == FileDisks(w.dom.devices) && !w.dom.running && |p.targets| <= n
    requires forall t | t in p.targets :: HasImages(c, t)
    requires after == Step(w, Restore(p.id, n))
    ensures RestoreStep(w, p.id, n).1.Done? && after.dom.disks.Keys == w.dom.disks.Keys
    ensures forall t | t in p.targets :: t in after.dom.disks && after.dom.disks[t] == Replay(c, t)
  {
    RestoreUnfolds(w, p.id, n);
    ReplaysAll(w, c, p.targets, n, after);
  }

  /** A restore that finds its chain and fails nowhere replays it for each disk. */
  lemma ReplaysAll(w: World, c: seq<Point>, targets: seq<string>, n: nat, after: World)
    requires Distinct(targets) && |targets| <= n && w.dom.disks.Keys == (set t | t in targets)
    requires forall t | t in targets :: HasImages(c, t)
    requires after == ConcludeRestore(w, RestoreDisks(c, targets, targets, w.dom.disks, n)).0
    ensures ConcludeRestore(w, RestoreDisks(c, targets, targets, w.dom.disks, n)).1.Done?
    ensures after.dom.disks.Keys == w.dom.disks.Keys
    ensures forall t | t in targets :: t in after.dom.disks && after.dom.disks[t] == Replay(c, t)
  {
    RestoreWritesAll(c, targets, targets, w.dom.disks, n);
    RestoreTouchesTargets(c, targets, targets, w.dom.disks, n);
  }

  // ---------- points published from unfinished images ----------

  /** The image holds captured clusters only, and every cluster in which the
      captured disk differs from the base. */
  ghost predicate FinishedImage(base: Image, image: Image, disk: Image) {
    && (forall b | b in image :: b in disk && image[b] == disk[b])
    && (forall b | b in disk && (b !in base || base[b] != disk[b]) :: b in image)
  }

  lemma OverlayExact(base: Image, image: Image, disk: Image)
    requires base.Keys <= disk.Keys
    ensures base + image == disk <==> FinishedImage(base, image, disk)
  {
    if FinishedImage(base, image, disk) {
      assert (base + image).Keys == disk.Keys;
    }
    if base + image == disk {
      assert forall b | b in image :: (base + image)[b] == image[b];
      assert forall b | b in base && b !in image :: (base + image)[b] == base[b];
    }
  }

  lemma SoundnessCarries(w: World, w': World, id: string, newest: string)
    requires Ordered(w.log) && Ordered(w'.log) && SoundLineage(w.log, id)
    requires forall i | i in w.log.taken :: i in w'.log.taken && w'.log.taken[i].parent == w.log.taken[i].parent
    requires w'.log.bad <= w.log.bad + {newest} && newest !in Lineage(w.log, id)
    ensures SoundLineage(w'.log, id)
  {
    LineageCarries(w.log, w'.log, id);
  }

  /** The pending job's parent, if any, can be restored and is sound. */
  ghost predicate ParentWhole(w: World)
    requires Ordered(w.log)
  {
    && w.job.Some?
    && (w.job.value.parent != "" ==> SoundLineage(w.log, w.job.value.parent) && Unbroken(w, w.job.value.parent))
  }

  ghost predicate JobOnSoundChain(w: World)
    requires Ordered(w.log)
  {
    ParentWhole(w) && w.job.value.id !in w.log.bad
  }

  lemma EndedIsReady(w: World, produced: Disks, w1: World, w': World)
    requires Inv(w) && w.job.Some? && AllProduced(w.job.value.targets, produced)
    requires w1 == JobStep(w, Ended(produced, true)).0 && w' == w1.(dom := w1.dom.(running := false))
    ensures Ordered(w1.log) && Ready(w')
  {
    EndedKeeps(w, produced);
    assert w' == Step(w1, Stop);
    StepKeeps(w1, Stop);
    HistoryIsOrdered(w1);
    InvIsReady(w');
  }

  lemma EndedIsWhole(w: World, produced: Disks, w1: World)
    requires Inv(w) && Ordered(w.log) && ParentWhole(w) && AllProduced(w.job.value.targets, produced)
    requires w1 == JobStep(w, Ended(produced, true)).0 && Ordered(w1.log)
    ensures NewestWhole(w1)
  {
    var p := w.job.value;
    NewPointRestorable(w, produced);
    JobIsTaken(w);
    PublishedWorld(w, produced);
    if p.parent != "" {
      ParentStaysSound(w, w1, p, w1.lib[0]);
    }
  }

  lemma ParentStaysSound(w: World, w1: World, p: Point, q: Point)
    requires Ordered(w.log) && Ordered(w1.log) && Taken(w.log, p) && p.parent != "" && SoundLineage(w.log, p.parent)
    requires w1.log.taken == w.log.taken[p.id := q] && q.parent == p.parent && w1.log.bad <= w.log.bad + {p.id}
    ensures SoundLineage(w1.log, p.parent)
  {
    LineageIsOlder(w.log, p.parent);
    assert w.log.taken[p.id].parent in w.log.taken;
    SoundnessCarries(w, w1, p.parent, p.id);
  }

  lemma StoppedIsWhole(w: World, w': World)
    requires Ordered(w.log) && NewestWhole(w) && w'.lib == w.lib && w'.log == w.log
    ensures NewestWhole(w')
  {
  }

  lemma SameDisks(a: Disks, b: Disks, targets: seq<string>)
    requires a.Keys == b.Keys && forall t :: t in targets <==> t in a
    ensures a == b <==> forall t | t in targets :: a[t] == b[t]
  {
  }

  /** The newest point's base and the disks captured for it. */
  ghost predicate Captured(w: World, p: Point) {
    && p.id in w.log.snaps && w.log.snaps[p.id].Keys == w.dom.disks.Keys
    && (forall t :: t in p.targets <==> t in w.dom.disks)
    && (p.parent != "" ==> p.parent in w.log.snaps && w.log.snaps[p.parent].Keys == w.dom.disks.Keys)
    && forall t | t in w.dom.disks :: Base(w.log, p, t).Keys <= w.log.snaps[p.id][t].Keys
  }

  lemma RestoreNewestExactIff(w: World, n: nat, after: World)
    requires Ready(w) && NewestWhole(w) && !w.dom.running && |FileDisks(w.dom.devices)| <= n
    requires Captured(w, w.lib[0]) && w.lib[0].images.Keys == w.dom.disks.Keys
    requires after == Step(w, Restore(w.lib[0].id, n))
    ensures RestoreStep(w, w.lib[0].id, n).1.Done?
    ensures after.dom.disks == w.log.snaps[w.lib[0].id] <==>
            forall t | t in w.lib[0].targets ::
              FinishedImage(Base(w.log, w.lib[0], t), w.lib[0].images[t], w.log.snaps[w.lib[0].id][t])
  {
    var p := w.lib[0];
    RestoreNewest(w, n, after);
    var disks, snap := after.dom.disks, w.log.snaps[p.id];
    forall t | t in p.targets
      ensures disks[t] == snap[t] <==> FinishedImage(Base(w.log, p, t), p.images[t], snap[t])
    {
      OverlayExact(Base(w.log, p, t), p.images[t], snap[t]);
    }
    SameDisks(disks, snap, p.targets);
  }

  lemma CaptureIsCaptured(w: World, p: Point)
    requires Taken(w.log, p) && CaptureOk(w.dom, w.log, w.clock, p.id) && p.id !in w.log.bad
    requires w.dom.disks.Keys == (set t | t in FileDisks(w.dom.devices))
    ensures Captured(w, p)
  {
    assert ImagesOk(w.log, p);
    forall t | t in w.dom.disks ensures Base(w.log, p, t).Keys <= w.log.snaps[p.id][t].Keys {
      if p.parent != "" {
        assert (Base(w.log, p, t) + p.images[t]).Keys == Base(w.log, p, t).Keys + p.images[t].Keys;
      }
    }
  }

  lemma JobIsCaptured(w: World)
    requires Inv(w) && w.job.Some? && w.job.value.id !in w.log.bad
    ensures Captured(w, w.job.value)
  {
    JobIsTaken(w);
    CaptureIsCaptured(w, w.job.value);
  }

  lemma CapturedCarries(w: World, w': World, p: Point, q: Point)
    requires Captured(w, p) && w'.log.snaps == w.log.snaps && w'.dom.disks == w.dom.disks
    requires q == p.(images := q.images)
    ensures Captured(w', q)
  {
    forall t | t in w'.dom.disks ensures Base(w'.log, q, t).Keys <= w'.log.snaps[q.id][t].Keys {
      assert Base(w'.log, q, t) == Base(w.log, p, t);
    }
  }

  lemma EndedCore(w: World, w': World, p: Point, produced: Disks, n: nat)
    requires Ready(w') && NewestWhole(w') && !w'.dom.running && |FileDisks(w'.dom.devices)| <= n
    requires Captured(w, p) && w'.log.snaps == w.log.snaps && w'.dom.disks == w.dom.disks
    requires AllProduced(p.targets, produced) && w'.lib[0] == p.(images := Images(p.targets, produced))
    ensures RestoreStep(w', p.id, n).1.Done?
    ensures Step(w', Restore(p.id, n)).dom.disks == w.log.snaps[p.id] <==>
            forall t | t in p.targets :: FinishedImage(Base(w.log, p, t), produced[t], w.log.snaps[p.id][t])
  {
    var q := w'.lib[0];
    ImagesOfAll(p.targets, produced, w.dom.disks);
    CapturedCarries(w, w', p, q);
    RestoreNewestExactIff(w', n, Step(w', Restore(p.id, n)));
    forall t | t in p.targets ensures Base(w'.log, q, t) == Base(w.log, p, t) && q.images[t] == produced[t] {
    }
  }

  /** A job that ended counts as done if each disk has an image. Restoring the
      point it publishes, full or incremental, on a sound and unbroken chain
      gives the captured disks if and only if each image was finished. */
  lemma EndedExactIff(w: World, produced: Disks, w1: World, w': World, n: nat)
    requires Inv(w) && Ordered(w.log) && JobOnSoundChain(w) && AllProduced(w.job.value.targets, produced)
    requires w1 == JobStep(w, Ended(produced, true)).0 && w' == w1.(dom := w1.dom.(running := false))
    requires |FileDisks(w.dom.devices)| <= n
    ensures ParentsOlder(w'.lib) && RestoreStep(w', w.job.value.id, n).1.Done? && Captured(w, w.job.value)
    ensures Step(w', Restore(w.job.value.id, n)).dom.disks == w.log.snaps[w.job.value.id] <==>
            forall t | t in w.job.value.targets ::
              FinishedImage(Base(w.log, w.job.value, t), produced[t], w.log.snaps[w.job.value.id][t])
  {
    EndedIsReady(w, produced, w1, w');
    EndedIsWhole(w, produced, w1);
    StoppedIsWhole(w1, w');
    JobIsCaptured(w);
    JobIsTaken(w);
    PublishedWorld(w, produced);
    EndedCore(w, w', w.job.value, produced, n);
  }
}
