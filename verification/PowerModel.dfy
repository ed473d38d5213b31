/** The simulated host's power machine as a state machine over API calls and the
    delayed timers that finish graceful shutdowns. A timer holds on to the VM
    object it was started for, not to the VM's name. */
module PowerModel {

  import opened Wrappers

  /** How long a graceful shutdown takes, in seconds. */
  const GRACE: nat := 3

  datatype PowerState = Stopped | Starting | Running | Paused | ShuttingDown

  /** `address` is the last byte of the address the VM has while it runs. */
  datatype Vm = Vm(state: PowerState, boot: Option<int>, ip: Option<nat>, address: nat)

  /** A pending timer: the number of its VM object and when it is due. */
  datatype Timer = Timer(vm: nat, due: int)

  /** Every VM object ever made, the object each name stands for now, and the
      timers still pending. */
  datatype World = World(heap: seq<Vm>, vms: map<string, nat>, timers: seq<Timer>, clock: int)

  datatype Failure = NotFound | AlreadyExists | InvalidState

  datatype Call =
    | Create(id: string, start: bool)
    | Start(id: string)
    | Shutdown(id: string)
    | Reboot(id: string)
    | ForceStop(id: string)
    | Delete(id: string)
    | Fire(k: nat)

  datatype Event = Event(at: int, call: Call)

  // ---------- steps ----------

  function PoweredOn(v: Vm, now: int): Vm {
    v.(state := Running, boot := Some(now), ip := Some(v.address))
  }

  function PoweredOff(v: Vm): Vm {
    v.(state := Stopped, boot := None, ip := None)
  }

  predicate WellFormed(w: World) {
    && (forall id :: id in w.vms ==> w.vms[id] < |w.heap|)
    && (forall k :: 0 <= k < |w.timers| ==> w.timers[k].vm < |w.heap|)
  }

  function Created(w: World, id: string, start: bool, now: int): Vm {
    var v := Vm(Stopped, None, None, 20 + |w.vms| + 1);
    if start then PoweredOn(v, now) else v
  }

  /** What a call makes of the VM it addresses. */
  function Called(v: Vm, call: Call, now: int): Result<Vm, Failure> {
    match call
    case Start(_) =>
      if v.state in {Running, Starting, ShuttingDown} then Err(InvalidState)
      else if v.state == Paused then Ok(v.(state := Running))
      else Ok(PoweredOn(v, now))
    case Shutdown(_) => if v.state != Running then Err(InvalidState) else Ok(v.(state := ShuttingDown))
    case Reboot(_) => if v.state != Running then Err(InvalidState) else Ok(v.(boot := Some(now)))
    case ForceStop(_) => if v.state == Stopped then Err(InvalidState) else Ok(PoweredOff(v))
    case Delete(_) => if v.state != Stopped then Err(InvalidState) else Ok(v)
    case _ => Err(InvalidState)
  }

  function Fired(v: Vm): Vm {
    if v.state == ShuttingDown then PoweredOff(v) else v
  }

  function Step(w: World, call: Call, now: int): (World, Result<Vm, Failure>)
    requires WellFormed(w)
    requires call.Fire? ==> call.k < |w.timers|
  {
    if call.Fire? then
      var o := w.timers[call.k].vm;
      var v := Fired(w.heap[o]);
      (World(w.heap[o := v], w.vms, w.timers[..call.k] + w.timers[call.k + 1..], now), Ok(v))
    else if call.Create? then
      if call.id in w.vms then (w.(clock := now), Err(AlreadyExists))
      else
        var v := Created(w, call.id, call.start, now);
        (World(w.heap + [v], w.vms[call.id := |w.heap|], w.timers, now), Ok(v))
    else if call.id !in w.vms then (w.(clock := now), Err(NotFound))
    else
      var o := w.vms[call.id];
      match Called(w.heap[o], call, now)
      case Err(e) => (w.(clock := now), Err(e))
      case Ok(v) =>
        var vms := if call.Delete? then w.vms - {call.id} else w.vms;
        var timers := if call.Shutdown? then w.timers + [Timer(o, now + GRACE)] else w.timers;
        (World(w.heap[o := v], vms, timers, now), Ok(v))
  }

  lemma CreateUnfolds(w: World, id: string, start: bool, now: int, v: Vm)
    requires WellFormed(w) && id !in w.vms && v == Created(w, id, start, now)
    ensures Step(w, Create(id, start), now) ==
            (World(w.heap + [v], w.vms[id := |w.heap|], w.timers, now), Ok(v))
  {
  }

  /** Time does not go back, and a timer fires no earlier than it is due. */
  predicate Admissible(w: World, e: Event) {
    && w.clock <= e.at
    && (e.call.Fire? ==> e.call.k < |w.timers| && w.timers[e.call.k].due <= e.at)
  }

  /** Where a run ends: nothing if some event was not admissible. */
  function Exec(w: World, run: seq<Event>): Option<World>
    requires WellFormed(w)
    ensures Exec(w, run).Some? ==> WellFormed(Exec(w, run).value)
  {
    if run == [] then Some(w)
    else
      var (init, e) := (Exec(w, run[..|run| - 1]), run[|run| - 1]);
      if init.None? || !Admissible(init.value, e) then None
      else Some(Step(init.value, e.call, e.at).0)
  }

  // ---------- what every run keeps ----------

  /** Stopped means no boot time and no address; running or shutting down means
      both; a VM is never in another state. */
  predicate Coherent(v: Vm) {
    match v.state
    case Stopped => v.boot.None? && v.ip.None?
    case Running => v.boot.Some? && v.ip == Some(v.address)
    case ShuttingDown => v.boot.Some? && v.ip == Some(v.address)
    case Starting => false
    case Paused => false
  }

  predicate HasTimer(timers: seq<Timer>, o: nat) {
    exists k :: 0 <= k < |timers| && timers[k].vm == o
  }

  predicate Live(w: World, o: nat) {
    o in w.vms.Values
  }

  predicate Inv(w: World) {
    && WellFormed(w)
    && (forall o :: 0 <= o < |w.heap| ==> Coherent(w.heap[o]))
    && (forall o :: 0 <= o < |w.heap| && w.heap[o].state == ShuttingDown ==> HasTimer(w.timers, o))
    && (forall o :: 0 <= o < |w.heap| && !Live(w, o) ==> w.heap[o].state == Stopped)
    && (forall a, b :: a in w.vms && b in w.vms && w.vms[a] == w.vms[b] ==> a == b)
  }

  lemma OthersKeepTimers(w: World, k: nat)
    requires Inv(w) && k < |w.timers|
    ensures forall o | 0 <= o < |w.heap| && o != w.timers[k].vm && w.heap[o].state == ShuttingDown ::
              HasTimer(w.timers[..k] + w.timers[k + 1..], o)
  {
    var rest := w.timers[..k] + w.timers[k + 1..];
    forall o | 0 <= o < |w.heap| && o != w.timers[k].vm && w.heap[o].state == ShuttingDown
      ensures HasTimer(rest, o)
    {
      var j :| 0 <= j < |w.timers| && w.timers[j].vm == o;
      assert rest[if j < k then j else j - 1].vm == o;
    }
  }

  lemma FireKeeps(w: World, k: nat, now: int)
    requires Inv(w) && k < |w.timers|
    ensures Inv(Step(w, Fire(k), now).0)
  {
    OthersKeepTimers(w, k);
  }

  lemma CreateKeeps(w: World, id: string, start: bool, now: int)
    requires Inv(w)
    ensures Inv(Step(w, Create(id, start), now).0)
  {
    if id !in w.vms {
      var after := Step(w, Create(id, start), now).0;
      assert after.vms[id] == |w.heap|;
      LiveStays(w, after, id);
    }
  }

  /** Names other than one keep their objects live. */
  lemma LiveStays(w: World, after: World, except: string)
    requires forall a | a in w.vms && a != except :: a in after.vms && after.vms[a] == w.vms[a]
    ensures forall o | Live(w, o) && (except in w.vms ==> o != w.vms[except]) :: Live(after, o)
  {
    forall o | Live(w, o) && (except in w.vms ==> o != w.vms[except])
      ensures Live(after, o)
    {
      var a :| a in w.vms && w.vms[a] == o;
      assert after.vms[a] == o;
    }
  }

  lemma TimersGrow(timers: seq<Timer>, t: Timer)
    ensures forall o | HasTimer(timers, o) :: HasTimer(timers + [t], o)
    ensures HasTimer(timers + [t], t.vm)
  {
    var more := timers + [t];
    assert more[|timers|] == t;
    forall o | HasTimer(timers, o) ensures HasTimer(more, o) {
      var k :| 0 <= k < |timers| && timers[k].vm == o;
      assert more[k].vm == o;
    }
  }

  lemma DeleteKeeps(w: World, id: string, now: int)
    requires Inv(w)
    ensures Inv(Step(w, Delete(id), now).0)
  {
    if id in w.vms && w.heap[w.vms[id]].state == Stopped {
      LiveStays(w, Step(w, Delete(id), now).0, id);
    }
  }

  /** A change to a live VM, with a timer if it is now shutting down. */
  lemma ChangeKeeps(w: World, id: string, v: Vm, timers: seq<Timer>, now: int)
    requires Inv(w) && id in w.vms && Coherent(v)
    requires forall k :: 0 <= k < |timers| ==> timers[k].vm < |w.heap|
    requires forall o | HasTimer(w.timers, o) :: HasTimer(timers, o)
    requires v.state == ShuttingDown ==> HasTimer(timers, w.vms[id])
    ensures Inv(World(w.heap[w.vms[id] := v], w.vms, timers, now))
  {
    var o := w.vms[id];
    var after := World(w.heap[o := v], w.vms, timers, now);
    assert Live(w, o);
    assert forall p | 0 <= p < |w.heap| && p != o :: after.heap[p] == w.heap[p];
  }

  lemma CallKeeps(w: World, call: Call, now: int)
    requires Inv(w) && !call.Fire? && !call.Create? && !call.Delete?
    ensures Inv(Step(w, call, now).0)
  {
    if call.id in w.vms && Called(w.heap[w.vms[call.id]], call, now).Ok? {
      var o := w.vms[call.id];
      var v := Called(w.heap[o], call, now).value;
      TimersGrow(w.timers, Timer(o, now + GRACE));
      ChangeKeeps(w, call.id, v, Step(w, call, now).0.timers, now);
    }
  }

  lemma StepKeeps(w: World, call: Call, now: int)
    requires Inv(w)
    requires call.Fire? ==> call.k < |w.timers|
    ensures Inv(Step(w, call, now).0)
  {
    if call.Fire? {
      FireKeeps(w, call.k, now);
    } else if call.Create? {
      CreateKeeps(w, call.id, call.start, now);
    } else if call.Delete? {
      DeleteKeeps(w, call.id, now);
    } else {
      CallKeeps(w, call, now);
    }
  }

  /** The simulated fleet at a given time: three VMs running, one stopped. */
  function Initial(now: int): World {
    World([ Vm(Running, Some(now - 96 * 3600), Some(11), 11),
            Vm(Running, Some(now - 240 * 3600), Some(12), 12),
            Vm(Running, Some(now - 720 * 3600), Some(13), 13),
            Vm(Stopped, None, None, 14) ],
          map["erp01" := 0, "web01" := 1, "database01" := 2, "monitoring01" := 3],
          [], now)
  }

  lemma InitialInv(now: int)
    ensures Inv(Initial(now))
  {
    var w := Initial(now);
    assert |"erp01"| == |"web01"| == 5 && "erp01"[0] != "web01"[0];
    assert w.vms["erp01"] == 0 && w.vms["web01"] == 1 && w.vms["database01"] == 2 && w.vms["monitoring01"] == 3;
  }

  lemma {:induction false} RunKeepsFrom(w: World, run: seq<Event>)
    requires Inv(w)
    ensures Exec(w, run).Some? ==> Inv(Exec(w, run).value)
  {
    if run != [] && Exec(w, run).Some? {
      RunKeepsFrom(w, run[..|run| - 1]);
      StepKeeps(Exec(w, run[..|run| - 1]).value, run[|run| - 1].call, run[|run| - 1].at);
    }
  }

  /** In every interleaving of calls and timers, the rules of Inv hold. */
  lemma RunKeeps(start: int, run: seq<Event>)
    ensures WellFormed(Initial(start))
    ensures Exec(Initial(start), run).Some? ==> Inv(Exec(Initial(start), run).value)
  {
    InitialInv(start);
    RunKeepsFrom(Initial(start), run);
  }

  // ---------- timers of deleted VMs ----------

  lemma DeadStaysDead(w: World, call: Call, now: int, o: nat)
    requires Inv(w) && o < |w.heap| && !Live(w, o)
    requires call.Fire? ==> call.k < |w.timers|
    ensures var after := Step(w, call, now).0;
            |w.heap| <= |after.heap| && after.heap[o] == w.heap[o] && !Live(after, o)
  {
  }

  lemma {:induction false} DeadOverRun(w: World, run: seq<Event>, o: nat)
    requires Inv(w) && o < |w.heap| && !Live(w, o) && Exec(w, run).Some?
    ensures var after := Exec(w, run).value;
            o < |after.heap| && after.heap[o] == w.heap[o] && !Live(after, o)
  {
    if run != [] {
      var (init, e) := (run[..|run| - 1], run[|run| - 1]);
      DeadOverRun(w, init, o);
      RunKeepsFrom(w, init);
      DeadStaysDead(Exec(w, init).value, e.call, e.at, o);
    }
  }

  /** Once a VM is deleted, whatever happens next, and even if a VM of the same
      name is created again, the timers of its old object change no VM at all. */
  lemma DeletedTimersNeverAct(w: World, id: string, now: int, run: seq<Event>, k: nat)
    requires Inv(w) && id in w.vms && Step(w, Delete(id), now).1.Ok?
    requires var gone := Step(w, Delete(id), now).0;
             WellFormed(gone) && Exec(gone, run).Some?
    requires var later := Exec(Step(w, Delete(id), now).0, run).value;
             k < |later.timers| && later.timers[k].vm == w.vms[id]
    ensures var later := Exec(Step(w, Delete(id), now).0, run).value;
            var after := Step(later, Fire(k), now).0;
            after.heap == later.heap && after.vms == later.vms &&
            (id in later.vms ==> later.vms[id] != w.vms[id])
  {
    var gone := Step(w, Delete(id), now).0;
    var o := w.vms[id];
    StepKeeps(w, Delete(id), now);
    assert !Live(gone, o);
    DeadOverRun(gone, run, o);
  }

  // ---------- the grace period ----------

  /** Events before a deadline that do not power the VM off by force. */
  predicate Gentle(run: seq<Event>, id: string, deadline: int) {
    forall i :: 0 <= i < |run| ==> run[i].at < deadline && run[i].call != ForceStop(id)
  }

  /** No pending timer of the object is due before the deadline. */
  predicate NoneDueBefore(timers: seq<Timer>, o: nat, deadline: int) {
    forall k :: 0 <= k < |timers| && timers[k].vm == o ==> timers[k].due >= deadline
  }

  predicate Closing(w: World, id: string, deadline: int) {
    && id in w.vms && w.vms[id] < |w.heap|
    && w.heap[w.vms[id]].state == ShuttingDown
    && NoneDueBefore(w.timers, w.vms[id], deadline)
  }

  lemma ClosingStep(w: World, e: Event, id: string, deadline: int)
    requires Inv(w) && Closing(w, id, deadline) && Admissible(w, e)
    requires e.at < deadline && e.call != ForceStop(id)
    ensures Closing(Step(w, e.call, e.at).0, id, deadline)
    ensures Step(w, e.call, e.at).0.vms[id] == w.vms[id]
  {
    var after := Step(w, e.call, e.at).0;
    var o := w.vms[id];
    if e.call.Fire? {
      assert w.timers[e.call.k].vm != o;
      forall k | 0 <= k < |after.timers| && after.timers[k].vm == o
        ensures after.timers[k].due >= deadline
      {
        assert after.timers[k] == w.timers[if k < e.call.k then k else k + 1];
      }
    } else if !e.call.Create? && e.call.id in w.vms {
      assert e.call.id != id ==> w.vms[e.call.id] != o;
    }
  }

  lemma {:induction false} ClosingRun(w: World, run: seq<Event>, id: string, deadline: int)
    requires Inv(w) && Closing(w, id, deadline)
    requires Exec(w, run).Some? && Gentle(run, id, deadline)
    ensures Closing(Exec(w, run).value, id, deadline)
  {
    if run != [] {
      var (init, e) := (run[..|run| - 1], run[|run| - 1]);
      ClosingRun(w, init, id, deadline);
      RunKeepsFrom(w, init);
      ClosingStep(Exec(w, init).value, e, id, deadline);
    }
  }

  /** Whether every gentle run within the grace period of a shutdown leaves the
      VM shutting down. */
  ghost predicate GraceHonoured(w: World, id: string, deadline: int)
    requires WellFormed(w)
  {
    forall run | Exec(w, run).Some? && Gentle(run, id, deadline) ::
      var v := Exec(w, run).value;
      id in v.vms && v.heap[v.vms[id]].state == ShuttingDown
  }

  lemma EarlyTimerCloses(w: World, id: string, k: nat, deadline: int)
    requires Inv(w) && id in w.vms && k < |w.timers| && w.timers[k].vm == w.vms[id]
    requires w.heap[w.vms[id]].state == ShuttingDown
    requires w.timers[k].due < deadline && w.clock < deadline
    ensures !GraceHonoured(w, id, deadline)
  {
    var e := Event(if w.timers[k].due < w.clock then w.clock else w.timers[k].due, Fire(k));
    var run := [e];
    assert run[..|run| - 1] == [] && Exec(w, []) == Some(w);
    assert Exec(w, run) == Some(Step(w, e.call, e.at).0);
    assert Gentle(run, id, deadline);
  }

  /** A graceful shutdown accepted at time t gets its whole grace period if and
      only if the VM had no timer of an earlier shutdown due within it: a
      shutdown, a forced stop and a start in quick succession leave one behind. */
  lemma GraceHonouredIff(w: World, id: string, t: int)
    requires Inv(w) && w.clock <= t && Step(w, Shutdown(id), t).1.Ok?
    ensures WellFormed(Step(w, Shutdown(id), t).0)
    ensures GraceHonoured(Step(w, Shutdown(id), t).0, id, t + GRACE) <==>
            NoneDueBefore(w.timers, w.vms[id], t + GRACE)
  {
    var o, after := w.vms[id], Step(w, Shutdown(id), t).0;
    StepKeeps(w, Shutdown(id), t);
    if NoneDueBefore(w.timers, o, t + GRACE) {
      forall run | Exec(after, run).Some? && Gentle(run, id, t + GRACE)
        ensures Closing(Exec(after, run).value, id, t + GRACE)
      {
        ClosingRun(after, run, id, t + GRACE);
      }
    } else {
      var k :| 0 <= k < |w.timers| && w.timers[k].vm == o && w.timers[k].due < t + GRACE;
      assert after.timers[k] == w.timers[k];
      EarlyTimerCloses(after, id, k, t + GRACE);
    }
  }

  lemma Then(w0: World, run: seq<Event>, w: World, e: Event)
    requires WellFormed(w0) && WellFormed(w) && Exec(w0, run) == Some(w) && Admissible(w, e)
    ensures Exec(w0, run + [e]) == Some(Step(w, e.call, e.at).0)
  {
    var more := run + [e];
    assert more[..|more| - 1] == run && more[|more| - 1] == e;
  }

  const VM := "erp01"

  function Hasty(now: int): seq<Event> {
    [Event(now, Shutdown(VM))] + [Event(now, ForceStop(VM))] + [Event(now, Start(VM))]
  }

  /** Of the initial fleet, a VM is shut down, powered off by force, started and,
      a second later, shut down again: the first shutdown's timer can end the
      second one's grace period early. */
  lemma LeftoverTimerEndsGrace(now: int)
    ensures WellFormed(Initial(now)) && Exec(Initial(now), Hasty(now)).Some?
    ensures var w := Exec(Initial(now), Hasty(now)).value;
            && Step(w, Shutdown(VM), now + 1).1.Ok?
            && WellFormed(Step(w, Shutdown(VM), now + 1).0)
            && !GraceHonoured(Step(w, Shutdown(VM), now + 1).0, VM, now + 1 + GRACE)
  {
    InitialInv(now);
    var w0 := Initial(now);
    var e1, e2, e3 := Event(now, Shutdown(VM)), Event(now, ForceStop(VM)), Event(now, Start(VM));
    FirstVmIsRunning(now);
    var w1 := Step(w0, e1.call, now).0;
    assert w1.vms == w0.vms && w1.heap[0].state == ShuttingDown && w1.timers == [Timer(0, now + GRACE)];
    StepKeeps(w0, e1.call, now);
    var w2 := Step(w1, e2.call, now).0;
    assert w2.vms == w0.vms && w2.heap[0].state == Stopped && w2.timers == w1.timers;
    StepKeeps(w1, e2.call, now);
    var w3 := Step(w2, e3.call, now).0;
    assert w3.vms == w0.vms && w3.heap[0].state == Running && w3.timers[0] == Timer(0, now + GRACE);
    StepKeeps(w2, e3.call, now);
    Then(w0, [], w0, e1);
    assert [] + [e1] == [e1];
    Then(w0, [e1], w1, e2);
    Then(w0, [e1] + [e2], w2, e3);
    GraceHonouredIff(w3, VM, now + 1);
  }

  lemma FirstVmIsRunning(now: int)
    ensures VM in Initial(now).vms && Initial(now).vms[VM] == 0 && Initial(now).heap[0].state == Running
  {
    assert |"erp01"| == |"web01"| == 5 && "erp01"[0] != "web01"[0];
  }
}
