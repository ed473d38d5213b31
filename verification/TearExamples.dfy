/** One torn restore of ChainExamples seen through the condition for all of them:
    what the guest writes before the next backup decides whether that is right. */
module TearExamples {
  import opened Wrappers
  import opened ChainModel
  import opened ChainInvariant
  import opened RestoreCorrectness
  import opened Exactness
  import opened TornRestores
  import opened ChainExamples

  /** The state in which the tear comes: the next backup continues from bk-2. */
  ghost predicate BeforeTear(w: World) {
    && Inv(w) && Ready(w) && Spotless(w)
    && At(w, Two(1, 0), false, CHECKPOINTS, [P2, P1], {"bk-1", "bk-2"}, 2)
    && w.log.snaps == map["bk-1" := Two(0, 0), "bk-2" := Two(1, 0)]
  }

  lemma ReachTear(w0: World) returns (w: World)
    requires Fresh(w0)
    ensures Follows(w0, TWO_BACKUPS + [Stop], w) && BeforeTear(w)
  {
    var w1 := AfterTwoBackups(w0);
    w := Step(w1, Stop);
    Then(w0, TWO_BACKUPS, w1, Stop, w);
    InitEstablishes(w0);
    RunKeeps(w0, TWO_BACKUPS + [Stop]);
    InvIsReady(w);
  }

  lemma TwoInLine(w: World)
    requires Inv(w) && Ordered(w.log) && w.lib == [P2, P1]
    ensures "bk-1" in w.log.taken && "bk-2" in w.log.taken
    ensures Lineage(w.log, "bk-1") == ["bk-1"] && Lineage(w.log, "bk-2") == ["bk-1", "bk-2"]
    ensures Listed(w.lib, "bk-1") && Listed(w.lib, "bk-2")
  {
    assert w.lib[0] == P2 && w.lib[1] == P1;
    assert Taken(w.log, P1) && Taken(w.log, P2);
    MemberIsListed(w.lib, P1);
    MemberIsListed(w.lib, P2);
  }

  const SECOND_ANCHOR := Anchor("bk-2", "chk-2")

  lemma SecondIsChosen(w: World)
    requires w.dom.checkpoints == CHECKPOINTS && w.lib == [P2, P1]
    ensures ChainParent(w, Auto) == Ok(SECOND_ANCHOR)
  {
    NothingDirtySinceSecond();
  }

  lemma LineOfTwo(w: World)
    requires Inv(w) && Ready(w) && w.log.bad == {} && w.lib == [P2, P1]
    ensures Unbroken(w, "bk-1") && SoundLineage(w.log, "bk-1") && SoundLineage(w.log, "bk-2")
  {
    TwoInLine(w);
  }

  lemma RestoresByStep(w: World, id: string, failAt: nat)
    requires ParentsOlder(w.lib)
    ensures Step(w, Restore(id, failAt)) == RestoreStep(w, id, failAt).0
  {
  }

  lemma TornState(w: World, torn: World)
    requires BeforeTear(w) && torn == RestoreStep(w, "bk-1", 1).0
    ensures At(torn, Two(0, 0), false, CHECKPOINTS, [P2, P1], {"bk-1", "bk-2"}, 2)
  {
    Tear(w);
    RestoresByStep(w, "bk-1", 1);
  }

  lemma TearMeetsRequires(w: World, torn: World)
    requires BeforeTear(w) && torn == RestoreStep(w, "bk-1", 1).0
    ensures TornWell(w, torn)
  {
    TwoTargets();
    TwoInLine(w);
    LineOfTwo(w);
    SecondIsChosen(w);
  }

  lemma StaleByValue(c: Cell)
    ensures StaleAt(Two(1, 0), Two(0, 0), {}, c) && c.target == "vda" <==> c == Cell("vda", 0)
  {
  }

  /** Of the cells on the replaced disk, the first was 1 in bk-2 and is 0 in bk-1,
      without being dirty; no other cell is stale. */
  lemma StaleCell(w: World, c: Cell)
    requires w.log.snaps == map["bk-1" := Two(0, 0), "bk-2" := Two(1, 0)]
    requires w.dom.checkpoints == CHECKPOINTS && FileDisks(w.dom.devices) == TARGETS
    ensures TearStale(w, SECOND_ANCHOR, "bk-1", 1, c) <==> c == Cell("vda", 0)
  {
    NothingDirtySinceSecond();
    assert TARGETS[..1] == ["vda"];
    StaleByValue(c);
    assert "bk-1"[3] != "bk-2"[3];
    assert w.log.snaps["bk-1"] == Two(0, 0) && w.log.snaps["bk-2"] == Two(1, 0);
  }

  /** What the guest does before the next backup. */
  function Meanwhile(rewrite: bool, v: int): seq<Event> {
    if rewrite then [Start, Write("vda", 0, v)] else [Start]
  }

  lemma AfterMeanwhile(torn: World, rewrite: bool, v: int, later: World)
    requires At(torn, Two(0, 0), false, CHECKPOINTS, [P2, P1], {"bk-1", "bk-2"}, 2)
    requires later == Exec(torn, Meanwhile(rewrite, v))
    ensures Calm(Meanwhile(rewrite, v)) && AdmissibleRun(torn, Meanwhile(rewrite, v))
    ensures later.dom.running && later.dom.devices == TWO_DISKS && later.lib == [P2, P1] && later.clock == 2
    ensures later.log == torn.log && ChainParent(later, Auto) == Ok(SECOND_ANCHOR)
    ensures Written(torn, Meanwhile(rewrite, v)) == if rewrite then {Cell("vda", 0)} else {}
  {
    var started := Step(torn, Start);
    var evs := Meanwhile(rewrite, v);
    assert evs[0] == Start;
    NothingDirtySinceSecond();
    if rewrite {
      assert evs[1..] == [Write("vda", 0, v)] && evs[1..][0] == Write("vda", 0, v) && evs[1..][1..] == [];
      RecordMarks(CHECKPOINTS, Cell("vda", 0));
      assert later == Exec(started, evs[1..]) == Exec(Step(started, Write("vda", 0, v)), []);
      assert Written(Step(started, Write("vda", 0, v)), []) == {};
      assert Written(started, evs[1..]) == {Cell("vda", 0)} + {};
      assert Written(torn, evs) == {} + Written(started, evs[1..]);
    } else {
      assert evs[1..] == [] && later == started;
    }
  }

  lemma RewrittenByRun(w: World, torn: World, rewrite: bool, v: int)
    requires w.log.snaps == map["bk-1" := Two(0, 0), "bk-2" := Two(1, 0)]
    requires w.dom.checkpoints == CHECKPOINTS && FileDisks(w.dom.devices) == TARGETS
    requires Written(torn, Meanwhile(rewrite, v)) == if rewrite then {Cell("vda", 0)} else {}
    ensures Rewritten(w, SECOND_ANCHOR, "bk-1", 1, torn, Meanwhile(rewrite, v)) <==> rewrite
  {
    StaleCell(w, Cell("vda", 0));
    forall c | TearStale(w, SECOND_ANCHOR, "bk-1", 1, c) ensures c == Cell("vda", 0) {
      StaleCell(w, c);
    }
  }

  lemma NextBySteps(later: World, p: Point, w1: World, w2: World, after: World)
    requires p == NewPoint(later.dom, SECOND_ANCHOR, "bk-3", 3, "chk-3")
    requires w1 == Step(later, THIRD) && w2 == Step(w1, Finishes(p)) && after == Step(w2, Stop)
    ensures NextPoint(later, SECOND_ANCHOR, "bk-3", 3, p, w1, w2, after)
  {
    Names();
    assert w1 == BackupStep(later, Auto, "bk-3", 3, true).0;
    assert w2 == JobStep(w1, Ended(p.images, true)).0;
  }

  /** What the condition for every tear asks of the tear and of what follows. */
  ghost predicate TornWell(w: World, torn: World) {
    && Inv(w) && Ready(w) && w.job.None? && Tears(w, "bk-1", 1, torn)
    && NextParent(w, SECOND_ANCHOR) && SoundLineage(w.log, "bk-2") && "bk-3" !in w.log.taken
    && FileDisks(w.dom.devices) == TARGETS
  }

  ghost predicate NextIsCalm(w: World, torn: World, evs: seq<Event>, later: World)
    requires Ordered(w.log) && "bk-2" in w.log.taken
  {
    && Calm(evs) && AdmissibleRun(torn, evs) && later == Exec(torn, evs) && later.dom.running && later.clock == 2
    && ChainParent(later, Auto) == Ok(SECOND_ANCHOR)
    && forall x | x in Lineage(w.log, "bk-2") :: Listed(later.lib, x)
  }

  lemma MeanwhileMeets(w: World, torn: World, rewrite: bool, v: int, later: World)
    requires Inv(w) && Ready(w) && w.lib == [P2, P1] && later == Exec(torn, Meanwhile(rewrite, v))
    requires At(torn, Two(0, 0), false, CHECKPOINTS, [P2, P1], {"bk-1", "bk-2"}, 2)
    ensures "bk-2" in w.log.taken && NextIsCalm(w, torn, Meanwhile(rewrite, v), later)
  {
    AfterMeanwhile(torn, rewrite, v, later);
    TwoInLine(w);
  }

  lemma NextAfterTear(w: World, torn: World, evs: seq<Event>, later: World, p: Point, w1: World, w2: World, after: World)
    requires TornWell(w, torn) && NextIsCalm(w, torn, evs, later) && NextPoint(later, SECOND_ANCHOR, "bk-3", 3, p, w1, w2, after)
    ensures "bk-1" in w.log.snaps && "bk-2" in w.log.snaps
    ensures ParentsOlder(after.lib) && RestoreStep(after, "bk-3", 2).1.Done?
    ensures Step(after, Restore("bk-3", 2)).dom.disks == later.dom.disks <==> Rewritten(w, SECOND_ANCHOR, "bk-1", 1, torn, evs)
  {
    NextPointAfterTearIff(w, SECOND_ANCHOR, "bk-1", 1, torn, evs, later, "bk-3", 3, p, w1, w2, after, 2);
  }

  /** The run of TornRestoreMisleads, by the condition for every tear: the next
      backup comes back as it was taken if and only if the guest rewrites the
      first cell of vda before it. */
  lemma RewritingDecides(w0: World, rewrite: bool, v: int) returns (w: World, later: World, p: Point, after: World)
    requires Fresh(w0)
    ensures Follows(w0, TWO_BACKUPS + [Stop], w) && ParentsOlder(w.lib)
    ensures later == Exec(RestoreStep(w, "bk-1", 1).0, Meanwhile(rewrite, v))
    ensures p == NewPoint(later.dom, SECOND_ANCHOR, "bk-3", 3, "chk-3")
    ensures after == Step(Step(Step(later, THIRD), Finishes(p)), Stop)
    ensures ParentsOlder(after.lib) && RestoreStep(after, "bk-3", 2).1.Done?
    ensures Step(after, Restore("bk-3", 2)).dom.disks == later.dom.disks <==> rewrite
  {
    w := ReachTear(w0);
    var torn := RestoreStep(w, "bk-1", 1).0;
    later := Exec(torn, Meanwhile(rewrite, v));
    p := NewPoint(later.dom, SECOND_ANCHOR, "bk-3", 3, "chk-3");
    var w1 := Step(later, THIRD);
    var w2 := Step(w1, Finishes(p));
    after := Step(w2, Stop);
    TornState(w, torn);
    TearMeetsRequires(w, torn);
    MeanwhileMeets(w, torn, rewrite, v, later);
    NextBySteps(later, p, w1, w2, after);
    NextAfterTear(w, torn, Meanwhile(rewrite, v), later, p, w1, w2, after);
    WrittenMeanwhile(w, torn, rewrite, v);
    RewrittenByRun(w, torn, rewrite, v);
  }

  lemma WrittenMeanwhile(w: World, torn: World, rewrite: bool, v: int)
    requires BeforeTear(w) && torn == RestoreStep(w, "bk-1", 1).0
    ensures Written(torn, Meanwhile(rewrite, v)) == if rewrite then {Cell("vda", 0)} else {}
  {
    TornState(w, torn);
    AfterMeanwhile(torn, rewrite, v, Exec(torn, Meanwhile(rewrite, v)));
  }
}
