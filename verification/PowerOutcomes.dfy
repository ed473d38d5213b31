/** What each call on the simulated fleet answers and changes, and since when a
    running VM counts as booted. */
module PowerOutcomes {
  import opened Wrappers
  import opened PowerModel

  // ---------- calls ----------

  /** The calls that address an existing VM. */
  predicate Addresses(call: Call, id: string) {
    call in {Start(id), Shutdown(id), Reboot(id), ForceStop(id), Delete(id)}
  }

  /** The states in which a call is accepted. */
  predicate Accepts(call: Call, state: PowerState) {
    match call
    case Start(_) => state in {Stopped, Paused}
    case Shutdown(_) => state == Running
    case Reboot(_) => state == Running
    case ForceStop(_) => state != Stopped
    case Delete(_) => state == Stopped
    case _ => false
  }

  lemma CallAnswers(w: World, call: Call, id: string, now: int)
    requires WellFormed(w) && Addresses(call, id)
    ensures var (w', r) := Step(w, call, now);
            && (r == Err(NotFound) <==> id !in w.vms)
            && (r.Ok? <==> id in w.vms && Accepts(call, w.heap[w.vms[id]].state))
            && (r.Err? ==> r.error in {NotFound, InvalidState} && w' == w.(clock := now))
  {
  }

  /** Only the addressed VM changes, and only a shutdown leaves a timer; deleting
      takes the name and leaves the object. */
  lemma CallChanges(w: World, call: Call, id: string, now: int)
    requires WellFormed(w) && Addresses(call, id) && Step(w, call, now).1.Ok?
    ensures id in w.vms && |Step(w, call, now).0.heap| == |w.heap|
    ensures var (w', o) := (Step(w, call, now).0, w.vms[id]);
            var (was, v) := (w.heap[o], w'.heap[o]);
            && (forall p | 0 <= p < |w.heap| && p != o :: w'.heap[p] == w.heap[p])
            && w'.clock == now
            && w'.vms == (if call.Delete? then w.vms - {id} else w.vms)
            && w'.timers == (if call.Shutdown? then w.timers + [Timer(o, now + 3)] else w.timers)
            && v.address == was.address
            && (call.Start? && was.state == Stopped ==> v.state == Running && v.boot == Some(now) && v.ip == Some(v.address))
            && (call.Start? && was.state == Paused ==> v == was.(state := Running))
            && (call.Shutdown? ==> v == was.(state := ShuttingDown))
            && (call.Reboot? ==> v == was.(boot := Some(now)))
            && (call.ForceStop? ==> v.state == Stopped && v.boot == None && v.ip == None)
            && (call.Delete? ==> v == was)
  {
  }

  /** A timer powers off its own VM, if that is shutting down, and is spent. */
  lemma FireChanges(w: World, k: nat, now: int)
    requires WellFormed(w) && k < |w.timers|
    ensures var (w', o) := (Step(w, Fire(k), now).0, w.timers[k].vm);
            && |w'.heap| == |w.heap| && (forall p | 0 <= p < |w.heap| && p != o :: w'.heap[p] == w.heap[p])
            && w'.vms == w.vms && w'.clock == now && w'.timers == w.timers[..k] + w.timers[k + 1..]
            && w'.heap[o] == if w.heap[o].state == ShuttingDown
                             then Vm(Stopped, None, None, w.heap[o].address) else w.heap[o]
  {
  }

  /** A new VM gets an object of its own, under a name that is free, with the
      address of the fleet's size. */
  lemma CreateChanges(w: World, id: string, start: bool, now: int)
    requires WellFormed(w)
    ensures var (w', r) := Step(w, Create(id, start), now);
            && (r.Ok? <==> id !in w.vms)
            && (r.Err? ==> r == Err(AlreadyExists) && w' == w.(clock := now))
            && (r.Ok? ==>
                  && w' == World(w.heap + [r.value], w.vms[id := |w.heap|], w.timers, now)
                  && r.value.address == 21 + |w.vms|
                  && r.value.state == (if start then Running else Stopped)
                  && r.value.boot == (if start then Some(now) else None)
                  && r.value.ip == (if start then Some(21 + |w.vms|) else None))
  {
  }

  // ---------- since when a VM runs ----------

  /** The event powers the object on, or restarts it. */
  predicate Boots(w: World, e: Event, o: nat)
    requires WellFormed(w)
  {
    match e.call
    case Create(id, start) => start && id !in w.vms && o == |w.heap|
    case Start(id) => id in w.vms && w.vms[id] == o && w.heap[o].state == Stopped
    case Reboot(id) => id in w.vms && w.vms[id] == o && w.heap[o].state == Running
    case _ => false
  }

  /** When the object last booted during a run, or else before it. */
  function LastBoot(w: World, run: seq<Event>, o: nat): Option<int>
    requires WellFormed(w)
  {
    if run == [] then (if o < |w.heap| then w.heap[o].boot else None)
    else
      var (init, e) := (run[..|run| - 1], run[|run| - 1]);
      if Exec(w, init).Some? && Boots(Exec(w, init).value, e, o) then Some(e.at) else LastBoot(w, init, o)
  }

  predicate On(v: Vm) {
    v.state == Running || v.state == ShuttingDown
  }

  lemma BootStep(w: World, e: Event, o: nat)
    requires Inv(w) && Admissible(w, e)
    requires o < |Step(w, e.call, e.at).0.heap| && On(Step(w, e.call, e.at).0.heap[o])
    ensures Boots(w, e, o) ==> Step(w, e.call, e.at).0.heap[o].boot == Some(e.at)
    ensures !Boots(w, e, o) ==> o < |w.heap| && On(w.heap[o]) && Step(w, e.call, e.at).0.heap[o].boot == w.heap[o].boot
  {
    if o < |w.heap| {
      assert Coherent(w.heap[o]);
    }
  }

  /** Over every run, the boot time of a VM that is on is when it was last created
      running, started or rebooted. */
  lemma {:induction false} BootIsLatest(w: World, run: seq<Event>, o: nat)
    requires Inv(w) && Exec(w, run).Some? && o < |Exec(w, run).value.heap| && On(Exec(w, run).value.heap[o])
    ensures Exec(w, run).value.heap[o].boot == LastBoot(w, run, o)
  {
    if run != [] {
      var (init, e) := (run[..|run| - 1], run[|run| - 1]);
      var before := Exec(w, init).value;
      RunKeepsFrom(w, init);
      BootStep(before, e, o);
      if !Boots(before, e, o) {
        BootIsLatest(w, init, o);
      }
    }
  }

  // ---------- addresses ----------

  function Replacement(now: int): seq<Event> {
    [Event(now, Create("a", false))] + [Event(now, Create("b", true))] + [Event(now, Delete("a"))] + [Event(now, Create("c", true))]
  }

  /** A fleet of four, none of them called a, b or c. */
  ghost predicate Four(w: World, now: int) {
    Inv(w) && w.clock == now && |w.vms| == |w.heap| == 4 && "a" !in w.vms && "b" !in w.vms && "c" !in w.vms
  }

  /** Addresses follow the size of the fleet and not what is in use: after one of
      two new VMs is deleted, a third gets the address of the other. */
  lemma AddressesCollide(now: int)
    ensures WellFormed(Initial(now)) && Exec(Initial(now), Replacement(now)).Some?
    ensures var w := Exec(Initial(now), Replacement(now)).value;
            && "b" in w.vms && "c" in w.vms && w.vms["b"] != w.vms["c"]
            && w.heap[w.vms["b"]].ip == w.heap[w.vms["c"]].ip == Some(26)
  {
    InitialInv(now);
    FourNames(now);
    CollideFrom(Initial(now), now);
  }

  lemma CollideFrom(w0: World, now: int)
    requires Four(w0, now)
    ensures Exec(w0, Replacement(now)).Some?
    ensures var w := Exec(w0, Replacement(now)).value;
            && "b" in w.vms && "c" in w.vms && w.vms["b"] != w.vms["c"]
            && w.heap[w.vms["b"]].ip == w.heap[w.vms["c"]].ip == Some(26)
  {
    var e1, e2, e3 := Event(now, Create("a", false)), Event(now, Create("b", true)), Event(now, Delete("a"));
    var e4 := Event(now, Create("c", true));
    var w2 := TwoCreated(w0, now);
    var w3 := Step(w2, e3.call, now).0;
    OneDeleted(w2, w3, now);
    CreateChanges(w3, "c", true, now);
    Then(w0, [e1] + [e2], w2, e3);
    Then(w0, [e1] + [e2] + [e3], w3, e4);
  }

  lemma OneDeleted(w2: World, w3: World, now: int)
    requires Inv(w2) && w2.clock == now && |w2.vms| == 6 && "a" in w2.vms && "b" in w2.vms && "c" !in w2.vms
    requires w2.vms["b"] == 5 < |w2.heap| && w2.heap[w2.vms["a"]].state == Stopped
    requires w3 == Step(w2, Delete("a"), now).0
    ensures Inv(w3) && w3.clock == now && |w3.vms| == 5 && "b" in w3.vms && "c" !in w3.vms
    ensures w3.vms["b"] == 5 && w3.heap == w2.heap
  {
    CallChanges(w2, Delete("a"), "a", now);
    StepKeeps(w2, Delete("a"), now);
    WithoutOne(w2.vms, "a");
    assert "a"[0] != "b"[0];
  }

  lemma OneCreated(w: World, id: string, start: bool, now: int, w': World)
    requires Inv(w) && id !in w.vms && w' == Step(w, Create(id, start), now).0
    ensures Inv(w') && w'.clock == now && w'.vms == w.vms[id := |w.heap|] && |w'.vms| == |w.vms| + 1
    ensures |w'.heap| == |w.heap| + 1 && forall o | 0 <= o < |w.heap| :: w'.heap[o] == w.heap[o]
    ensures var v := w'.heap[|w.heap|]; if start then v.ip == Some(21 + |w.vms|) else v.state == Stopped
  {
    CreateChanges(w, id, start, now);
    StepKeeps(w, Create(id, start), now);
  }

  lemma TwoCreated(w0: World, now: int) returns (w: World)
    requires Four(w0, now)
    ensures Inv(w) && w.clock == now && Exec(w0, [Event(now, Create("a", false))] + [Event(now, Create("b", true))]) == Some(w)
    ensures |w.vms| == |w.heap| == 6 && "c" !in w.vms && "a" in w.vms && "b" in w.vms
    ensures w.vms["a"] == 4 && w.vms["b"] == 5 && w.heap[4].state == Stopped && w.heap[5].ip == Some(26)
  {
    var e1, e2 := Event(now, Create("a", false)), Event(now, Create("b", true));
    assert "a"[0] != "b"[0] && "a"[0] != "c"[0] && "b"[0] != "c"[0];
    var w1 := Step(w0, e1.call, now).0;
    OneCreated(w0, "a", false, now, w1);
    w := Step(w1, e2.call, now).0;
    OneCreated(w1, "b", true, now, w);
    assert [] + [e1] == [e1];
    Then(w0, [], w0, e1);
    Then(w0, [e1], w1, e2);
  }

  lemma WithoutOne<T>(m: map<string, T>, k: string)
    requires k in m
    ensures |m - {k}| == |m| - 1
  {
    assert (m - {k}).Keys == m.Keys - {k};
  }

  lemma FourNames(now: int)
    ensures |Initial(now).vms| == 4 && "a" !in Initial(now).vms && "b" !in Initial(now).vms && "c" !in Initial(now).vms
  {
    var w := Initial(now);
    assert |"a"| == |"b"| == |"c"| == 1 && |"erp01"| == |"web01"| == 5 && |"database01"| == 10 && |"monitoring01"| == 12;
    assert "erp01"[0] != "web01"[0];
    assert w.vms.Keys == {"erp01", "web01", "database01", "monitoring01"};
  }
}
