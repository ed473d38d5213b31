/** The simulated provider: VM objects shared between the name index and the
    goroutines that finish graceful shutdowns. */
module PowerProvider {

  import opened Wrappers
  import M = PowerModel

  class VmState {
    ghost const number: nat
    const address: nat
    var state: M.PowerState
    var bootTime: Option<int>
    var ipAddress: Option<nat>

    constructor (ghost number: nat, address: nat)
      ensures this.number == number && this.address == address
      ensures Snapshot() == M.Vm(M.Stopped, None, None, address)
    {
      this.number := number;
      this.address := address;
      state, bootTime, ipAddress := M.Stopped, None, None;
    }

    function Snapshot(): M.Vm
      reads this
    {
      M.Vm(state, bootTime, ipAddress, address)
    }

    method PowerOn(now: int)
      modifies this
      ensures Snapshot() == M.PoweredOn(old(Snapshot()), now)
    {
      state := M.Running;
      bootTime := Some(now);
      ipAddress := Some(address);
    }

    /** The states from which a VM can be started. */
    method Start(now: int) returns (started: bool)
      modifies this
      ensures started <==> old(state) in {M.Paused, M.Stopped}
      ensures M.Called(old(Snapshot()), M.Start(""), now) == if started then Ok(Snapshot()) else Err(M.InvalidState)
      ensures !started ==> Snapshot() == old(Snapshot())
    {
      match state {
        case Running => return false;
        case Starting => return false;
        case ShuttingDown => return false;
        case Paused => state := M.Running;
        case Stopped => PowerOn(now);
      }
      started := true;
    }

    method PowerOff()
      modifies this
      ensures Snapshot() == M.PoweredOff(old(Snapshot()))
    {
      state := M.Stopped;
      bootTime := None;
      ipAddress := None;
    }
  }

  /** A goroutine sleeping until `due`, holding on to its VM object. */
  datatype Sleeper = Sleeper(vm: VmState, due: int)

  class Provider {
    var vms: map<string, VmState>
    var sleepers: seq<Sleeper>
    ghost var objects: seq<VmState>
    ghost var clock: int

    ghost predicate Known(vm: VmState)
      reads this
    {
      vm.number < |objects| && objects[vm.number] == vm
    }

    ghost predicate Valid()
      reads this, objects
    {
      && (forall i :: 0 <= i < |objects| ==> objects[i].number == i)
      && (forall id :: id in vms ==> Known(vms[id]))
      && (forall k :: 0 <= k < |sleepers| ==> Known(sleepers[k].vm))
    }

    ghost function Heap(): (heap: seq<M.Vm>)
      reads this, objects
      ensures |heap| == |objects|
      ensures forall i :: 0 <= i < |heap| ==> heap[i] == objects[i].Snapshot()
    {
      seq(|objects|, i requires 0 <= i < |objects| reads this, objects => objects[i].Snapshot())
    }

    ghost function Names(): map<string, nat>
      reads this
    {
      map id | id in vms :: vms[id].number
    }

    ghost function Timers(): (timers: seq<M.Timer>)
      reads this
      ensures |timers| == |sleepers|
      ensures forall k :: 0 <= k < |timers| ==> timers[k] == M.Timer(sleepers[k].vm.number, sleepers[k].due)
    {
      seq(|sleepers|, k requires 0 <= k < |sleepers| reads this => M.Timer(sleepers[k].vm.number, sleepers[k].due))
    }

    ghost function View(): (w: M.World)
      requires Valid()
      reads this, objects
      ensures M.WellFormed(w)
    {
      M.World(Heap(), Names(), Timers(), clock)
    }

    constructor ()
      ensures Valid() && View() == M.World([], map[], [], 0)
    {
      vms, sleepers, objects, clock := map[], [], [], 0;
      new;
      assert Names() == map[];
    }

    ghost method Tick(now: int)
      requires Valid()
      modifies this`clock
      ensures Valid() && View() == old(View()).(clock := now)
    {
      clock := now;
      assert Heap() == old(Heap()) && Timers() == old(Timers());
    }

    lemma NamesCount()
      ensures |Names()| == |vms|
    {
      assert Names().Keys == vms.Keys;
    }

    method Register(id: string, vm: VmState)
      requires Valid() && vm.number == |objects| && id !in vms
      modifies this`vms, this`objects
      ensures Valid()
      ensures View() == old(var w := View(); w.(heap := w.heap + [vm.Snapshot()], vms := w.vms[id := |w.heap|]))
    {
      vms := vms[id := vm];
      objects := objects + [vm];
      assert Heap() == old(Heap()) + [vm.Snapshot()];
      assert Names() == old(Names())[id := vm.number];
      assert Timers() == old(Timers());
    }

    method Forget(id: string)
      requires Valid()
      modifies this`vms
      ensures Valid() && View() == old(var w := View(); w.(vms := w.vms - {id}))
    {
      vms := vms - {id};
      assert Names() == old(Names()) - {id};
      assert Heap() == old(Heap()) && Timers() == old(Timers());
    }

    method NewVm(ghost number: nat, address: nat, start: bool, now: int) returns (vm: VmState)
      ensures fresh(vm) && vm.number == number
      ensures var v := M.Vm(M.Stopped, None, None, address);
              vm.Snapshot() == if start then M.PoweredOn(v, now) else v
    {
      vm := new VmState(number, address);
      if start {
        vm.PowerOn(now);
      }
    }

    method CreateVirtualMachine(id: string, start: bool, now: int) returns (r: Result<M.Vm, M.Failure>)
      requires Valid()
      modifies this
      ensures Valid() && (View(), r) == M.Step(old(View()), M.Create(id, start), now)
    {
      Tick(now);
      if id in vms {
        return Err(M.AlreadyExists);
      }
      ghost var w := old(View());
      NamesCount();
      var n := |vms| + 1;
      var vm := NewVm(|objects|, 20 + n, start, now);
      assert View() == w.(clock := now);
      r := Ok(vm.Snapshot());
      M.CreateUnfolds(w, id, start, now, r.value);
      Register(id, vm);
      assert View() == M.World(w.heap + [r.value], w.vms[id := |w.heap|], w.timers, now);
    }

    method StartVirtualMachine(id: string, now: int) returns (r: Result<M.Vm, M.Failure>)
      requires Valid()
      modifies this`clock, vms.Values
      ensures Valid() && (View(), r) == M.Step(old(View()), M.Start(id), now)
    {
      Tick(now);
      if id !in vms {
        return Err(M.NotFound);
      }
      var vm := vms[id];
      var started := vm.Start(now);
      assert Heap() == old(Heap())[vm.number := vm.Snapshot()];
      if !started {
        assert View() == old(View()).(clock := now);
        return Err(M.InvalidState);
      }
      r := Ok(vm.Snapshot());
      assert Heap() == old(Heap())[vm.number := vm.Snapshot()];
    }

    method ShutdownVirtualMachine(id: string, now: int) returns (r: Result<M.Vm, M.Failure>)
      requires Valid()
      modifies this`clock, this`sleepers, vms.Values
      ensures Valid() && (View(), r) == M.Step(old(View()), M.Shutdown(id), now)
    {
      Tick(now);
      if id !in vms {
        return Err(M.NotFound);
      }
      var vm := vms[id];
      if vm.state != M.Running {
        return Err(M.InvalidState);
      }
      vm.state := M.ShuttingDown;
      sleepers := sleepers + [Sleeper(vm, now + M.GRACE)];
      r := Ok(vm.Snapshot());
      assert Heap() == old(Heap())[vm.number := vm.Snapshot()];
      assert Timers() == old(Timers()) + [M.Timer(vm.number, now + M.GRACE)];
    }

    /** A shutdown's goroutine wakes up. */
    method SleeperWakes(k: nat, now: int) returns (r: Result<M.Vm, M.Failure>)
      requires Valid() && k < |sleepers|
      modifies this`clock, this`sleepers, sleepers[k].vm
      ensures Valid() && (View(), r) == M.Step(old(View()), M.Fire(k), now)
    {
      Tick(now);
      var vm := sleepers[k].vm;
      sleepers := sleepers[..k] + sleepers[k + 1..];
      if vm.state == M.ShuttingDown {
        vm.PowerOff();
      }
      r := Ok(vm.Snapshot());
      assert Heap() == old(Heap())[vm.number := vm.Snapshot()];
      assert Timers() == old(Timers())[..k] + old(Timers())[k + 1..];
    }

    method RebootVirtualMachine(id: string, now: int) returns (r: Result<M.Vm, M.Failure>)
      requires Valid()
      modifies this`clock, vms.Values
      ensures Valid() && (View(), r) == M.Step(old(View()), M.Reboot(id), now)
    {
      Tick(now);
      if id !in vms {
        return Err(M.NotFound);
      }
      var vm := vms[id];
      if vm.state != M.Running {
        return Err(M.InvalidState);
      }
      vm.bootTime := Some(now);
      r := Ok(vm.Snapshot());
      assert Heap() == old(Heap())[vm.number := vm.Snapshot()];
    }

    method ForceStopVirtualMachine(id: string, now: int) returns (r: Result<M.Vm, M.Failure>)
      requires Valid()
      modifies this`clock, vms.Values
      ensures Valid() && (View(), r) == M.Step(old(View()), M.ForceStop(id), now)
    {
      Tick(now);
      if id !in vms {
        return Err(M.NotFound);
      }
      var vm := vms[id];
      if vm.state == M.Stopped {
        return Err(M.InvalidState);
      }
      vm.PowerOff();
      r := Ok(vm.Snapshot());
      assert Heap() == old(Heap())[vm.number := vm.Snapshot()];
    }

    method DeleteVirtualMachine(id: string, now: int) returns (r: Result<M.Vm, M.Failure>)
      requires Valid()
      modifies this`clock, this`vms
      ensures Valid() && (View(), r) == M.Step(old(View()), M.Delete(id), now)
    {
      Tick(now);
      if id !in vms {
        return Err(M.NotFound);
      }
      var vm := vms[id];
      if vm.state != M.Stopped {
        return Err(M.InvalidState);
      }
      r := Ok(vm.Snapshot());
      assert Heap() == Heap()[vm.number := vm.Snapshot()];
      Forget(id);
    }
  }
}
