/** Retention after a scheduled run: which points go, which stay, and whether
    the chains of those that stay are still whole. */
module Retention {
  import opened Wrappers
  import opened ChainModel
  import opened ChainInvariant
  import opened RestoreCorrectness

  function Fulls(metas: seq<Point>): nat {
    if metas == [] then 0 else (if metas[0].kind.Full? then 1 else 0) + Fulls(metas[1..])
  }

  /** The creation time of the keep-th newest full, `seen` fulls having passed. */
  function Cutoff(metas: seq<Point>, seen: nat, keep: nat): Option<nat> {
    if metas == [] then None
    else if metas[0].kind.Full? && seen + 1 == keep then Some(metas[0].createdAt)
    else Cutoff(metas[1..], if metas[0].kind.Full? then seen + 1 else seen, keep)
  }

  predicate Goes(m: Point, cutoff: nat, refused: set<string>) {
    m.createdAt < cutoff && m.id !in refused
  }

  /** The delete loop; deleting the points in `refused` fails and is skipped. */
  function PruneLoop(w: World, metas: seq<Point>, cutoff: nat, refused: set<string>): World
    decreases |metas|
  {
    if metas == [] then w
    else PruneLoop(if Goes(metas[0], cutoff, refused) then DeleteStep(w, metas[0].id).0 else w,
                   metas[1..], cutoff, refused)
  }

  function Prune(w: World, keep: nat, refused: set<string>): World {
    match Cutoff(w.lib, 0, keep)
    case None => w
    case Some(cutoff) => PruneLoop(w, w.lib, cutoff, refused)
  }

  // ---------- what one pass removes ----------

  lemma {:induction false} CutoffSplits(metas: seq<Point>, seen: nat, keep: nat)
    requires seen < keep && NewestFirst(metas)
    ensures Cutoff(metas, seen, keep).Some? <==> keep <= seen + Fulls(metas)
    ensures Cutoff(metas, seen, keep).Some? ==>
              && (exists m :: m in metas && m.kind.Full? && m.createdAt == Cutoff(metas, seen, keep).value)
              && seen + Fulls(Kept(metas, Cutoff(metas, seen, keep).value)) == keep
  {
    if metas != [] {
      var rest := metas[1..];
      if metas[0].kind.Full? && seen + 1 == keep {
        NoneKept(rest, metas[0].createdAt);
        assert metas[0] in metas;
        assert Kept(metas, metas[0].createdAt) == [metas[0]] && [metas[0]][1..] == [];
      } else {
        var seen' := if metas[0].kind.Full? then seen + 1 else seen;
        CutoffSplits(rest, seen', keep);
        if Cutoff(rest, seen', keep).Some? {
          var cutoff := Cutoff(rest, seen', keep).value;
          var m :| m in rest && m.kind.Full? && m.createdAt == cutoff;
          assert m in metas && metas[0].createdAt > cutoff;
          assert ([metas[0]] + Kept(rest, cutoff))[1..] == Kept(rest, cutoff);
        }
      }
    }
  }

  /** The points not older than the cutoff, in order. */
  function Kept(metas: seq<Point>, cutoff: nat): seq<Point> {
    if metas == [] then []
    else (if metas[0].createdAt < cutoff then [] else [metas[0]]) + Kept(metas[1..], cutoff)
  }

  lemma NoneKept(metas: seq<Point>, cutoff: nat)
    requires forall m | m in metas :: m.createdAt < cutoff
    ensures Kept(metas, cutoff) == []
  {
  }

  lemma {:induction false} KeptMembers(metas: seq<Point>, cutoff: nat)
    requires NewestFirst(metas)
    ensures NewestFirst(Kept(metas, cutoff))
    ensures forall m :: m in Kept(metas, cutoff) <==> m in metas && cutoff <= m.createdAt
  {
    if metas != [] {
      KeptMembers(metas[1..], cutoff);
      if cutoff <= metas[0].createdAt {
        PublishKeepsOrder(Kept(metas[1..], cutoff), metas[0]);
      }
    }
  }

  lemma HasMember(b: seq<Point>)
    requires b != []
    ensures exists m :: m in b
  {
    assert b[0] in b;
  }

  /** Two newest-first lists with the same members are the same list. */
  lemma {:induction false} SameMembersSameList(a: seq<Point>, b: seq<Point>)
    requires NewestFirst(a) && NewestFirst(b) && forall m :: m in a <==> m in b
    ensures a == b
  {
    if a == [] {
      if b != [] {
        HasMember(b);
      }
    } else {
      assert a[0] in a && b[0] in b;
      var i :| 0 <= i < |b| && b[i] == a[0];
      var j :| 0 <= j < |a| && a[j] == b[0];
      assert a[0] == b[0];
      forall m
        ensures m in a[1..] <==> m in b[1..]
      {
        assert a == [a[0]] + a[1..] && b == [b[0]] + b[1..];
        assert m in a <==> m in b;
      }
      SameMembersSameList(a[1..], b[1..]);
    }
  }

  lemma {:induction false} LoopRemoves(w: World, metas: seq<Point>, cutoff: nat, refused: set<string>)
    requires Inv(w)
    ensures var w' := PruneLoop(w, metas, cutoff, refused);
            && Inv(w') && w'.log == w.log && w'.job == w.job && w'.clock == w.clock
            && w'.dom.disks == w.dom.disks && w'.dom.devices == w.dom.devices && w'.dom.running == w.dom.running
            && (forall p :: p in w'.lib <==> p in w.lib && !exists m :: m in metas && m.id == p.id && Goes(m, cutoff, refused))
    decreases |metas|
  {
    if metas != [] {
      var m0 := metas[0];
      assert metas == [m0] + metas[1..];
      var w1 := w;
      if Goes(m0, cutoff, refused) {
        w1 := DeleteStep(w, m0.id).0;
        DeleteKeeps(w, m0.id);
        DeleteRemoves(w, m0.id);
      }
      LoopRemoves(w1, metas[1..], cutoff, refused);
      var w' := PruneLoop(w, metas, cutoff, refused);
      forall p
        ensures p in w'.lib <==> p in w.lib && !exists m :: m in metas && m.id == p.id && Goes(m, cutoff, refused)
      {
        assert (exists m :: m in metas && m.id == p.id && Goes(m, cutoff, refused)) <==>
               (m0.id == p.id && Goes(m0, cutoff, refused))
               || exists m :: m in metas[1..] && m.id == p.id && Goes(m, cutoff, refused);
      }
    }
  }

  lemma DeleteRemoves(w: World, id: string)
    requires Inv(w)
    ensures var w' := DeleteStep(w, id).0;
            && w'.log == w.log && w'.job == w.job && w'.clock == w.clock
            && w'.dom.disks == w.dom.disks && w'.dom.devices == w.dom.devices && w'.dom.running == w.dom.running
            && forall p :: p in w'.lib <==> p in w.lib && p.id != id
  {
    IdsAreUnique(w);
    WithoutRemoves(w.lib, id);
    if !Listed(w.lib, id) {
      forall p | p in w.lib
        ensures p.id != id
      {
        MemberIsListed(w.lib, p);
      }
    }
  }

  /** The listed points after a prune: those not older than the cutoff, and
      those whose deletion failed. */
  lemma PruneRemoves(w: World, keep: nat, refused: set<string>)
    requires Inv(w) && Cutoff(w.lib, 0, keep).Some?
    ensures var w' := Prune(w, keep, refused);
            && Inv(w') && w'.log == w.log && w'.job == w.job && w'.clock == w.clock
            && w'.dom.disks == w.dom.disks && w'.dom.devices == w.dom.devices && w'.dom.running == w.dom.running
            && forall p :: p in w'.lib <==> p in w.lib && !Goes(p, Cutoff(w.lib, 0, keep).value, refused)
  {
    var cutoff := Cutoff(w.lib, 0, keep).value;
    LoopRemoves(w, w.lib, cutoff, refused);
    IdsAreUnique(w);
    forall p | p in w.lib
      ensures Goes(p, cutoff, refused) <==> exists m :: m in w.lib && m.id == p.id && Goes(m, cutoff, refused)
    {
    }
  }

  /** With keep >= 1: fewer fulls than that, and nothing changes; otherwise
      exactly the points not older than the keep-th newest full stay, in order,
      with exactly keep fulls, and a second prune changes nothing. */
  lemma PruneIsExact(w: World, keep: nat)
    requires Inv(w) && 1 <= keep
    ensures Fulls(w.lib) < keep ==> Prune(w, keep, {}) == w
    ensures keep <= Fulls(w.lib) ==>
              var w' := Prune(w, keep, {});
              && (exists m :: m in w.lib && m.kind.Full? && w'.lib == Kept(w.lib, m.createdAt))
              && Fulls(w'.lib) == keep
    ensures Prune(Prune(w, keep, {}), keep, {}) == Prune(w, keep, {})
  {
    CutoffSplits(w.lib, 0, keep);
    if keep <= Fulls(w.lib) {
      var w' := Prune(w, keep, {});
      var cutoff := Cutoff(w.lib, 0, keep).value;
      PruneRemoves(w, keep, {});
      KeptMembers(w.lib, cutoff);
      SameMembersSameList(w'.lib, Kept(w.lib, cutoff));
      CutoffOfKept(w.lib, 0, keep);
      NothingGoes(w', w'.lib, cutoff);
    }
  }

  lemma {:induction false} CutoffOfKept(metas: seq<Point>, seen: nat, keep: nat)
    requires seen < keep && NewestFirst(metas) && Cutoff(metas, seen, keep).Some?
    ensures var cutoff := Cutoff(metas, seen, keep).value; Cutoff(Kept(metas, cutoff), seen, keep) == Some(cutoff)
  {
    if !(metas[0].kind.Full? && seen + 1 == keep) {
      var rest := metas[1..];
      var seen' := if metas[0].kind.Full? then seen + 1 else seen;
      CutoffOfKept(rest, seen', keep);
      CutoffSplits(rest, seen', keep);
      var cutoff := Cutoff(rest, seen', keep).value;
      var m :| m in rest && m.kind.Full? && m.createdAt == cutoff;
      assert ([metas[0]] + Kept(rest, cutoff))[1..] == Kept(rest, cutoff);
    }
  }

  lemma {:induction false} NothingGoes(w: World, metas: seq<Point>, cutoff: nat)
    requires forall m | m in metas :: cutoff <= m.createdAt
    ensures PruneLoop(w, metas, cutoff, {}) == w
  {
    if metas != [] {
      assert metas[0] in metas && forall m | m in metas[1..] :: m in metas;
      NothingGoes(w, metas[1..], cutoff);
    }
  }

  // ---------- what the prune leaves restorable ----------

  /** Removing points breaks exactly the chains they are on. */
  lemma {:induction false} ChainOnFewer(lib: seq<Point>, fewer: seq<Point>, p: Point)
    requires ParentsOlder(lib) && ParentsOlder(fewer) && p in fewer
    requires forall m | m in fewer :: m in lib
    requires forall a, b | a in lib && b in lib && a.id == b.id :: a == b
    ensures p in lib
    ensures Chain(lib, p).None? ==> Chain(fewer, p).None?
    ensures Chain(lib, p).Some? ==>
              (Chain(fewer, p).Some? <==> forall m | m in Chain(lib, p).value :: m in fewer)
              && (Chain(fewer, p).Some? ==> Chain(fewer, p) == Chain(lib, p))
    decreases p.createdAt
  {
    if p.parent != "" {
      FindIsMember(lib, p.parent);
      FindIsMember(fewer, p.parent);
      if Find(fewer, p.parent).Some? {
        var q := Find(fewer, p.parent).value;
        MemberIsListed(lib, q);
        assert Find(lib, p.parent).value == q;
        ChainOnFewer(lib, fewer, q);
        if Chain(lib, q).Some? {
          var c := Chain(lib, q).value;
          assert forall m :: m in c + [p] <==> m in c || m == p;
        }
      } else if Find(lib, p.parent).Some? && Chain(lib, p).Some? {
        var q := Find(lib, p.parent).value;
        if q in fewer {
          MemberIsListed(fewer, q);
        }
        ChainEndsAt(lib, q);
        assert q in Chain(lib, p).value;
      }
    }
  }

  lemma ChainEndsAt(lib: seq<Point>, p: Point)
    requires ParentsOlder(lib) && p in lib && Chain(lib, p).Some?
    ensures p in Chain(lib, p).value
  {
  }

  /** No chain of a point not older than the cutoff reaches below it. */
  lemma {:induction false} YoungChainsStayYoung(w: World, cutoff: nat, p: Point)
    requires Inv(w) && ParentsOlder(w.lib) && p in w.lib && cutoff <= p.createdAt && Chain(w.lib, p).Some?
    requires exists f :: f in w.lib && f.kind.Full? && f.createdAt == cutoff
    ensures forall m | m in Chain(w.lib, p).value :: cutoff <= m.createdAt
    decreases p.createdAt
  {
    if p.parent != "" {
      FindIsMember(w.lib, p.parent);
      var q := Find(w.lib, p.parent).value;
      var f :| f in w.lib && f.kind.Full? && f.createdAt == cutoff;
      assert Taken(w.log, p) && Taken(w.log, q) && NothingBetween(w.lib, w.log, p);
      assert CaptureOk(w.dom, w.log, w.clock, p.id);
      if p.createdAt == cutoff {
        SameTimeSamePoint(w.lib, p, f);
        assert false;
      }
      YoungChainsStayYoung(w, cutoff, q);
    }
  }

  lemma SameTimeSamePoint(lib: seq<Point>, a: Point, b: Point)
    requires NewestFirst(lib) && a in lib && b in lib && a.createdAt == b.createdAt
    ensures a == b
  {
    var i :| 0 <= i < |lib| && lib[i] == a;
    var j :| 0 <= j < |lib| && lib[j] == b;
  }

  /** No chain of a point reaches above the point. */
  lemma {:induction false} ChainIsNotNewer(lib: seq<Point>, p: Point)
    requires ParentsOlder(lib) && p in lib && Chain(lib, p).Some?
    ensures forall m | m in Chain(lib, p).value :: m.createdAt <= p.createdAt && m in lib
    decreases p.createdAt
  {
    if p.parent != "" {
      FindIsMember(lib, p.parent);
      ChainIsNotNewer(lib, Find(lib, p.parent).value);
    }
  }

  /** As long as no deletion has failed, the points still listed after any
      number of deletions keep the chains they had. */
  lemma EveryDeletionKeepsChains(w: World, keep: nat, i: nat, p: Point)
    requires Inv(w) && 1 <= keep && Cutoff(w.lib, 0, keep).Some? && i <= |w.lib|
    requires p in PruneLoop(w, w.lib[..i], Cutoff(w.lib, 0, keep).value, {}).lib
    ensures var w' := PruneLoop(w, w.lib[..i], Cutoff(w.lib, 0, keep).value, {});
            && ParentsOlder(w.lib) && ParentsOlder(w'.lib) && p in w.lib
            && (Chain(w.lib, p).Some? ==> Chain(w'.lib, p) == Chain(w.lib, p))
  {
    var cutoff := Cutoff(w.lib, 0, keep).value;
    var gone := w.lib[..i];
    var w' := PruneLoop(w, gone, cutoff, {});
    LoopRemoves(w, gone, cutoff, {});
    InvOrdersParents(w);
    InvOrdersParents(w');
    IdsAreUnique(w);
    ChainOnFewer(w.lib, w'.lib, p);
    if Chain(w.lib, p).Some? {
      CutoffSplits(w.lib, 0, keep);
      ChainIsNotNewer(w.lib, p);
      if cutoff <= p.createdAt {
        YoungChainsStayYoung(w, cutoff, p);
      }
      forall m | m in Chain(w.lib, p).value
        ensures m in w'.lib
      {
        if d :| d in gone && d.id == m.id && Goes(d, cutoff, {}) {
          assert d == m;
          NewerThanTheRest(w.lib, i, p, m);
          assert p in gone && Goes(p, cutoff, {});
        }
      }
    }
  }

  /** In a newest-first list whatever is newer than one of the first i is one of
      the first i. */
  lemma NewerThanTheRest(lib: seq<Point>, i: nat, p: Point, m: Point)
    requires NewestFirst(lib) && i <= |lib| && p in lib && m in lib[..i] && m.createdAt <= p.createdAt
    ensures p in lib[..i]
  {
    var a :| 0 <= a < |lib| && lib[a] == p;
    var b :| 0 <= b < i && lib[..i][b] == m;
    assert lib[b] == m;
    if a < i {
      assert lib[..i][a] == p;
    }
  }

  ghost predicate KeepsChains(lib: seq<Point>, fewer: seq<Point>)
    requires ParentsOlder(lib) && ParentsOlder(fewer) && forall p | p in fewer :: p in lib
  {
    forall p | p in fewer && Chain(lib, p).Some? :: Chain(fewer, p) == Chain(lib, p)
  }

  /** The parent of every old restorable incremental whose deletion failed could
      not be deleted either. */
  ghost predicate RefusalsReachFulls(lib: seq<Point>, cutoff: nat, refused: set<string>)
    requires ParentsOlder(lib)
  {
    forall p | p in lib && p.createdAt < cutoff && p.id in refused && p.parent != "" && Chain(lib, p).Some? ::
      p.parent in refused
  }

  /** With some deletions failing, the surviving points keep their chains if and
      only if the failures reach down to the fulls. */
  lemma PruneKeepsChainsIff(w: World, keep: nat, refused: set<string>)
    requires Inv(w) && 1 <= keep && Cutoff(w.lib, 0, keep).Some?
    ensures var w' := Prune(w, keep, refused);
            && ParentsOlder(w.lib) && ParentsOlder(w'.lib) && (forall p | p in w'.lib :: p in w.lib)
            && (KeepsChains(w.lib, w'.lib) <==> RefusalsReachFulls(w.lib, Cutoff(w.lib, 0, keep).value, refused))
  {
    var w' := Prune(w, keep, refused);
    var cutoff := Cutoff(w.lib, 0, keep).value;
    PruneRemoves(w, keep, refused);
    InvOrdersParents(w);
    InvOrdersParents(w');
    CutoffSplits(w.lib, 0, keep);
    IdsAreUnique(w);
    if KeepsChains(w.lib, w'.lib) {
      ChainsForceRefusals(w.lib, w'.lib, cutoff, refused);
    }
    if RefusalsReachFulls(w.lib, cutoff, refused) {
      forall p | p in w'.lib && Chain(w.lib, p).Some?
        ensures Chain(w'.lib, p) == Chain(w.lib, p)
      {
        ChainOnFewer(w.lib, w'.lib, p);
        ChainIsNotNewer(w.lib, p);
        if cutoff <= p.createdAt {
          YoungChainsStayYoung(w, cutoff, p);
        } else {
          RefusedChainsStay(w.lib, cutoff, refused, p);
        }
      }
    }
  }

  lemma ChainsForceRefusals(lib: seq<Point>, fewer: seq<Point>, cutoff: nat, refused: set<string>)
    requires ParentsOlder(lib) && ParentsOlder(fewer) && forall p :: p in fewer <==> p in lib && !Goes(p, cutoff, refused)
    requires KeepsChains(lib, fewer)
    ensures RefusalsReachFulls(lib, cutoff, refused)
  {
    forall p | p in lib && p.createdAt < cutoff && p.id in refused && p.parent != "" && Chain(lib, p).Some?
      ensures p.parent in refused
    {
      assert p in fewer && Chain(fewer, p).Some?;
      FindIsMember(fewer, p.parent);
      assert Find(fewer, p.parent).value.createdAt < p.createdAt;
    }
  }

  lemma {:induction false} RefusedChainsStay(lib: seq<Point>, cutoff: nat, refused: set<string>, p: Point)
    requires ParentsOlder(lib) && p in lib && p.createdAt < cutoff && p.id in refused && Chain(lib, p).Some?
    requires RefusalsReachFulls(lib, cutoff, refused)
    ensures forall m | m in Chain(lib, p).value :: m in lib && !Goes(m, cutoff, refused)
    decreases p.createdAt
  {
    if p.parent != "" {
      FindIsMember(lib, p.parent);
      RefusedChainsStay(lib, cutoff, refused, Find(lib, p.parent).value);
    }
  }

  // ---------- the next backup ----------

  lemma {:induction false} LoopKeepsNewest(w: World, metas: seq<Point>, cutoff: nat, refused: set<string>)
    requires Inv(w) && w.lib != [] && cutoff <= w.lib[0].createdAt
    requires forall m | m in metas :: m.createdAt < cutoff ==> m.id != w.lib[0].id
    ensures var w' := PruneLoop(w, metas, cutoff, refused);
            && w'.lib != [] && w'.lib[0] == w.lib[0]
            && (w.lib[0].checkpoint != "" ==>
                  (HasCheckpoint(w'.dom.checkpoints, w.lib[0].checkpoint) <==> HasCheckpoint(w.dom.checkpoints, w.lib[0].checkpoint)))
    decreases |metas|
  {
    if metas != [] {
      var m := metas[0];
      assert m in metas && forall n | n in metas[1..] :: n in metas;
      if Goes(m, cutoff, refused) {
        DeleteKeeps(w, m.id);
        OtherDeletionKeepsNewest(w, m.id);
        LoopKeepsNewest(DeleteStep(w, m.id).0, metas[1..], cutoff, refused);
      } else {
        LoopKeepsNewest(w, metas[1..], cutoff, refused);
      }
    }
  }

  lemma OtherDeletionKeepsNewest(w: World, id: string)
    requires Inv(w) && w.lib != [] && id != w.lib[0].id
    ensures var w' := DeleteStep(w, id).0;
            && w'.lib != [] && w'.lib[0] == w.lib[0]
            && (w.lib[0].checkpoint != "" ==>
                  (HasCheckpoint(w'.dom.checkpoints, w.lib[0].checkpoint) <==> HasCheckpoint(w.dom.checkpoints, w.lib[0].checkpoint)))
  {
    FindIsMember(w.lib, id);
    if Find(w.lib, id).Some? {
      var p := Find(w.lib, id).value;
      var newest := w.lib[0];
      assert newest in w.lib && Taken(w.log, p) && Taken(w.log, newest);
      assert CaptureOk(w.dom, w.log, w.clock, p.id) && CaptureOk(w.dom, w.log, w.clock, newest.id);
      RemovalKeepsOthers(w.dom.checkpoints, p.checkpoint);
      if p.checkpoint == newest.checkpoint && p.checkpoint != "" {
        NamesDiffer(p.id, newest.id);
      }
    }
  }

  /** A prune, even one with failing deletions, leaves the choice of the next
      backup's parent as it was. */
  lemma PruneKeepsAnchor(w: World, keep: nat, refused: set<string>, req: Request)
    requires Inv(w) && 1 <= keep
    ensures ChainParent(Prune(w, keep, refused), req) == ChainParent(w, req)
  {
    CutoffSplits(w.lib, 0, keep);
    if Cutoff(w.lib, 0, keep).Some? {
      var cutoff := Cutoff(w.lib, 0, keep).value;
      var f :| f in w.lib && f.kind.Full? && f.createdAt == cutoff;
      IdsAreUnique(w);
      assert w.lib[0] in w.lib;
      LoopKeepsNewest(w, w.lib, cutoff, refused);
    }
  }
}
