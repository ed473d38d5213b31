/** The simulated host's virtual networks: creation, partial updates, and what
    happens to a network's gateway when it is updated without a new subnet. */
module MockNetworks {

  import opened Wrappers
  import opened IpArithmetic

  type Address = x: int | 0 <= x < 0x1_0000_0000
  type Prefix = x: int | 0 <= x <= 32

  datatype Mode = Bridge | Nat | Isolated

  datatype Network = Network(
    id: string,
    active: bool,
    autostart: bool,
    bridge: string,
    ip: Option<Address>,
    prefix: Prefix,
    dhcp: bool,
    mode: Mode)

  /** A subnet as the caller wrote it. */
  datatype Cidr = Blank | Malformed | V6 | V4(address: Address, prefix: Prefix)

  datatype Creation = Creation(
    name: string,
    mode: Mode,
    bridge: Option<string>,
    cidr: Option<Cidr>,
    dhcp: Option<bool>,
    autostart: Option<bool>)

  datatype Change = Change(
    mode: Option<Mode>,
    bridge: Option<string>,
    cidr: Option<Cidr>,
    dhcp: Option<bool>,
    autostart: Option<bool>)
  {
    predicate Structural() {
      mode.Some? || bridge.Some? || cidr.Some? || dhcp.Some?
    }
  }

  /** Crash stands for the index panic on an IPv6 subnet. */
  datatype Failure = NotFound | AlreadyExists | InvalidState | Crash

  // ---------- gateways ----------

  /** The network address of the subnet that an address belongs to. */
  function Net(a: Address, p: Prefix): Address {
    Truncated(a, Size(4, p));
    a - a % Size(4, p)
  }

  /** Increasing the last byte, wrapping at 256. */
  function BumpLastByte(a: Address): Address {
    a - a % 256 + (a % 256 + 1) % 256
  }

  function Gateway(a: Address, p: Prefix): Address {
    BumpLastByte(Net(a, p))
  }

  lemma EvenHasNoWrap(a: Address)
    requires a % 2 == 0
    ensures BumpLastByte(a) == a + 1
  {
  }

  lemma EvenMultiple(a: nat, h: nat)
    requires h > 0
    ensures 2 * h > 0 && (a - a % (2 * h)) % 2 == 0
  {
    var q := a / (2 * h);
    assert a - a % (2 * h) == 2 * h * q;
    ModUnique(2 * h * q, 2, h * q, 0);
  }

  lemma EvenNetwork(a: Address, p: Prefix)
    requires p <= 31
    ensures Net(a, p) % 2 == 0 && Size(4, p) >= 2
  {
    EvenMultiple(a, Pow2(31 - p));
  }

  lemma GatewayIsNext(a: Address, p: Prefix)
    requires p <= 31
    ensures Gateway(a, p) == Net(a, p) + 1
  {
    EvenNetwork(a, p);
    EvenHasNoWrap(Net(a, p));
  }

  lemma SameBlock(a: nat, m: nat)
    requires m >= 2
    ensures var b := a - a % m; b + 1 - (b + 1) % m == b
  {
    var q := a / m;
    ModUnique(m * q + 1, m, q, 1);
  }

  lemma SameSubnet(a: Address, p: Prefix)
    requires p <= 31
    ensures Net(Gateway(a, p), p) == Net(a, p)
  {
    EvenNetwork(a, p);
    GatewayIsNext(a, p);
    SameBlock(a, Size(4, p));
  }

  /** Taking the gateway of the gateway's own subnet changes nothing if and only
      if the subnet has more than one address. */
  lemma GatewayIsFixedIff(a: Address, p: Prefix)
    ensures Gateway(Gateway(a, p), p) == Gateway(a, p) <==> p <= 31
  {
    if p <= 31 {
      SameSubnet(a, p);
      GatewayIsNext(a, p);
      GatewayIsNext(Gateway(a, p), p);
    } else {
      assert Pow2(0) == 1;
    }
  }

  // ---------- operations ----------

  function Index(ns: seq<Network>, id: string): (i: Option<nat>)
    ensures i.Some? ==> i.value < |ns| && ns[i.value].id == id
  {
    if ns == [] then None
    else if ns[0].id == id then Some(0)
    else match Index(ns[1..], id)
      case Some(i) => Some(i + 1)
      case None => None
  }

  function Default<T>(o: Option<T>, otherwise: T): T {
    if o.Some? then o.value else otherwise
  }

  function Created(req: Creation): Result<Network, Failure> {
    var n := Network(req.name, true, Default(req.autostart, true), "", None, 0, false, req.mode);
    if req.mode.Bridge? then
      if Default(req.bridge, "") == "" then Err(InvalidState)
      else Ok(n.(bridge := req.bridge.value))
    else
      match Default(req.cidr, Blank)
      case Blank => Err(InvalidState)
      case Malformed => Err(InvalidState)
      case V6 => Err(Crash)
      case V4(a, p) => Ok(n.(ip := Some(Gateway(a, p)), prefix := p, dhcp := Default(req.dhcp, true)))
  }

  /** The structural half of an update. */
  function Restructured(n: Network, req: Change): Result<Network, Failure> {
    var mode := Default(req.mode, n.mode);
    if mode.Bridge? then
      var bridge := Default(req.bridge, n.bridge);
      if bridge == "" then Err(InvalidState)
      else Ok(n.(bridge := bridge, ip := None, prefix := 0, dhcp := false, mode := mode))
    else
      var own := if n.ip.Some? then V4(n.ip.value, n.prefix) else Blank;
      match Default(req.cidr, own)
      case Blank => Err(InvalidState)
      case Malformed => Err(InvalidState)
      case V6 => Err(Crash)
      case V4(a, p) =>
        Ok(n.(ip := Some(Gateway(a, p)), prefix := p, dhcp := Default(req.dhcp, true), mode := mode))
  }

  datatype Event =
    | Create(req: Creation)
    | Update(id: string, change: Change)
    | Start(id: string)
    | Stop(id: string)
    | Delete(id: string)

  function Step(ns: seq<Network>, e: Event): (seq<Network>, Result<Network, Failure>) {
    match e
    case Create(req) =>
      if Index(ns, req.name).Some? then (ns, Err(AlreadyExists))
      else
        var r := Created(req);
        (if r.Ok? then ns + [r.value] else ns, r)
    case Update(id, change) =>
      var i := Index(ns, id);
      if i.None? then (ns, Err(NotFound)) else
      var n := ns[i.value];
      if n.active && change.Structural() then (ns, Err(InvalidState))
      else
        var kept := n.(autostart := Default(change.autostart, n.autostart));
        var r := if change.Structural() then Restructured(kept, change) else Ok(kept);
        (ns[i.value := if r.Ok? then r.value else kept], r)
    case Start(id) =>
      var i := Index(ns, id);
      if i.None? then (ns, Err(NotFound))
      else if ns[i.value].active then (ns, Err(InvalidState))
      else
        var n := ns[i.value].(active := true);
        (ns[i.value := n], Ok(n))
    case Stop(id) =>
      var i := Index(ns, id);
      if i.None? then (ns, Err(NotFound))
      else if !ns[i.value].active then (ns, Err(InvalidState))
      else
        var n := ns[i.value].(active := false);
        (ns[i.value := n], Ok(n))
    case Delete(id) =>
      var i := Index(ns, id);
      if i.None? then (ns, Err(NotFound))
      else if ns[i.value].active then (ns, Err(InvalidState))
      else (ns[..i.value] + ns[i.value + 1..], Ok(ns[i.value]))
  }

  function Exec(ns: seq<Network>, run: seq<Event>): seq<Network> {
    if run == [] then ns else Step(Exec(ns, run[..|run| - 1]), run[|run| - 1]).0
  }

  // ---------- what every run keeps ----------

  /** A bridge network has a bridge and no addressing of its own; any other has
      the gateway of its own subnet, except that a one-address subnet does not
      contain it. */
  predicate Sound(n: Network) {
    if n.mode.Bridge? then n.bridge != "" && n.ip.None? && n.prefix == 0 && !n.dhcp
    else n.ip.Some? && (n.prefix <= 31 ==> Gateway(n.ip.value, n.prefix) == n.ip.value)
  }

  predicate Inv(ns: seq<Network>) {
    && (forall i :: 0 <= i < |ns| ==> Sound(ns[i]))
    && (forall i, j :: 0 <= i < j < |ns| ==> ns[i].id != ns[j].id)
  }

  lemma {:induction false} IndexMisses(ns: seq<Network>, id: string)
    requires Index(ns, id).None?
    ensures forall i :: 0 <= i < |ns| ==> ns[i].id != id
  {
    if ns != [] {
      IndexMisses(ns[1..], id);
      forall i | 0 <= i < |ns| ensures ns[i].id != id {
        if i > 0 {
          assert ns[i] == ns[1..][i - 1];
        }
      }
    }
  }

  lemma CreatedIsSound(req: Creation)
    ensures Created(req).Ok? ==> Sound(Created(req).value) && Created(req).value.id == req.name
  {
    var cidr := Default(req.cidr, Blank);
    if cidr.V4? {
      GatewayIsFixedIff(cidr.address, cidr.prefix);
    }
  }

  lemma RestructuredIsSound(n: Network, change: Change)
    requires Sound(n)
    ensures var r := Restructured(n, change); r.Ok? ==> Sound(r.value) && r.value.id == n.id
  {
    var cidr := Default(change.cidr, if n.ip.Some? then V4(n.ip.value, n.prefix) else Blank);
    if cidr.V4? {
      GatewayIsFixedIff(cidr.address, cidr.prefix);
    }
  }

  lemma ReplaceKeeps(ns: seq<Network>, i: nat, n: Network)
    requires Inv(ns) && i < |ns| && Sound(n) && n.id == ns[i].id
    ensures Inv(ns[i := n])
  {
  }

  lemma StepKeeps(ns: seq<Network>, e: Event)
    requires Inv(ns)
    ensures Inv(Step(ns, e).0)
  {
    match e
    case Create(req) =>
      CreatedIsSound(req);
      if Index(ns, req.name).None? {
        IndexMisses(ns, req.name);
      }
    case Update(id, change) =>
      var i := Index(ns, id);
      if i.Some? {
        var kept := ns[i.value].(autostart := Default(change.autostart, ns[i.value].autostart));
        RestructuredIsSound(kept, change);
        var after := if change.Structural() then Restructured(kept, change) else Ok(kept);
        ReplaceKeeps(ns, i.value, if after.Ok? then after.value else kept);
      }
    case Start(id) =>
      var i := Index(ns, id);
      if i.Some? {
        ReplaceKeeps(ns, i.value, ns[i.value].(active := true));
      }
    case Stop(id) =>
      var i := Index(ns, id);
      if i.Some? {
        ReplaceKeeps(ns, i.value, ns[i.value].(active := false));
      }
    case Delete(_) =>
  }

  /** The two networks the simulated host starts with. */
  function Initial(): seq<Network> {
    [ Network("default", true, true, "virbr0", Some(0x0a00_0001), 24, true, Nat),
      Network("mgmt", false, false, "virbr1", Some(0x0a63_0001), 24, false, Isolated) ]
  }

  lemma InitialIsSound()
    ensures Inv(Initial())
  {
    assert Size(4, 24) == 256 by { Pow2OfEight(); }
    assert "default"[0] != "mgmt"[0];
  }

  /** Over every run the mode rules hold and names stay distinct. */
  lemma {:induction false} RunKeeps(run: seq<Event>)
    ensures Inv(Exec(Initial(), run))
  {
    if run == [] {
      InitialIsSound();
    } else {
      RunKeeps(run[..|run| - 1]);
      StepKeeps(Exec(Initial(), run[..|run| - 1]), run[|run| - 1]);
    }
  }

  // ---------- partial updates ----------

  lemma RestructuringKeepsIff(n: Network, change: Change)
    requires Sound(n) && n.mode != Bridge && change.cidr.None? && change.mode != Some(Bridge)
    ensures var r := Restructured(n, change);
            r.Ok? && r.value.prefix == n.prefix && (r.value.ip == n.ip <==> n.prefix <= 31)
  {
    assert Pow2(0) == 1;
    if n.prefix == 32 {
      assert Gateway(n.ip.value, 32) != n.ip.value;
    }
  }

  /** After any run, a structural update of a routed network that names no
      subnet keeps its gateway and prefix if and only if the prefix is at most
      31: a /32 network moves to the next address at each such update. */
  lemma UpdateKeepsGatewayIff(run: seq<Event>, id: string, change: Change)
    requires var ns := Exec(Initial(), run);
             && Index(ns, id).Some?
             && !ns[Index(ns, id).value].active
             && ns[Index(ns, id).value].mode != Bridge
             && change.Structural() && change.cidr.None? && change.mode != Some(Bridge)
    ensures var ns := Exec(Initial(), run);
            var (n, r) := (ns[Index(ns, id).value], Step(ns, Update(id, change)).1);
            r.Ok? && r.value.prefix == n.prefix && (r.value.ip == n.ip <==> n.prefix <= 31)
  {
    var ns := Exec(Initial(), run);
    RunKeeps(run);
    var n := ns[Index(ns, id).value];
    RestructuringKeepsIff(n.(autostart := Default(change.autostart, n.autostart)), change);
  }

  const ONE_ADDRESS := Creation("edge", Nat, None, Some(V4(0x0a00_0005, 32)), None, None)
  const DHCP_ON := Change(None, None, None, Some(true), None)
  const EDGE := Network("edge", false, true, "", Some(0x0a00_0006), 32, true, Nat)

  lemma EdgeIsThird(n: Network)
    requires n.id == "edge"
    ensures Index(Initial(), "edge") == None && Index(Initial() + [n], "edge") == Some(2)
  {
    var (ns, more) := (Initial(), Initial() + [n]);
    assert "default"[0] != "edge"[0] && "mgmt"[0] != "edge"[0];
    assert ns[1..] == [ns[1]] && ns[1..][1..] == [];
    assert more[1..] == [ns[1], n] && more[1..][1..] == [n];
    assert Index(more[1..][1..], "edge") == Some(0) && Index(more[1..], "edge") == Some(1);
  }

  lemma EdgeIsCreated()
    ensures Created(ONE_ADDRESS) == Ok(EDGE.(active := true))
  {
    assert Size(4, 32) == 1 by { assert Pow2(0) == 1; }
    assert Gateway(0x0a00_0005, 32) == 0x0a00_0006;
  }

  lemma EdgeStops(ns: seq<Network>)
    requires ns == Initial() + [EDGE.(active := true)]
    ensures Step(ns, Stop("edge")).0 == Initial() + [EDGE]
  {
    EdgeIsThird(EDGE.(active := true));
    assert ns[2] == EDGE.(active := true) && ns[2 := EDGE] == Initial() + [EDGE];
  }

  lemma EdgeRun()
    ensures Exec(Initial(), [Create(ONE_ADDRESS)] + [Stop("edge")]) == Initial() + [EDGE]
  {
    var ns := Initial();
    var run := [Create(ONE_ADDRESS)] + [Stop("edge")];
    assert run[..1] == [Create(ONE_ADDRESS)] && [Create(ONE_ADDRESS)][..0] == [];
    EdgeIsThird(EDGE);
    EdgeIsCreated();
    var more := ns + [EDGE.(active := true)];
    assert Exec(ns, run[..1]) == Step(Exec(ns, []), run[0]).0 == more;
    EdgeStops(more);
  }

  /** A network for 10.0.0.5/32 gets 10.0.0.6 as its gateway; turning DHCP on, as
      it is already, moves it to 10.0.0.7. */
  lemma OneAddressNetworkMoves()
    ensures var ns := Exec(Initial(), [Create(ONE_ADDRESS)] + [Stop("edge")]);
            && ns == Initial() + [EDGE]
            && Step(ns, Update("edge", DHCP_ON)).1 == Ok(EDGE.(ip := Some(0x0a00_0007)))
  {
    EdgeRun();
    EdgeIsThird(EDGE);
    EdgeMoves();
    var ns := Initial() + [EDGE];
    assert ns[2] == EDGE && EDGE.(autostart := Default(DHCP_ON.autostart, true)) == EDGE;
  }

  lemma EdgeMoves()
    ensures Restructured(EDGE, DHCP_ON) == Ok(EDGE.(ip := Some(0x0a00_0007)))
  {
    assert Size(4, 32) == 1 by { assert Pow2(0) == 1; }
    assert Gateway(0x0a00_0006, 32) == 0x0a00_0007;
  }

  /** A network that became a bridge has lost its subnet: going back to routing
      without naming one fails. */
  lemma BridgeForgetsSubnet(run: seq<Event>, id: string, change: Change)
    requires var ns := Exec(Initial(), run);
             && Index(ns, id).Some?
             && ns[Index(ns, id).value].mode == Bridge
             && change.mode.Some? && change.mode.value != Bridge && change.cidr.None?
    ensures Step(Exec(Initial(), run), Update(id, change)).1 == Err(InvalidState)
  {
    RunKeeps(run);
  }

  /** A failed update leaves the networks as they were if and only if it was
      refused before its autostart flag was applied, or the flag was no change. */
  lemma FailedUpdateKeepsIff(ns: seq<Network>, id: string, change: Change)
    requires Step(ns, Update(id, change)).1.Err?
    ensures Step(ns, Update(id, change)).0 == ns <==>
              var i := Index(ns, id);
              i.None? || ns[i.value].active || change.autostart in {None, Some(ns[i.value].autostart)}
  {
    var i := Index(ns, id);
    if i.Some? {
      var after := Step(ns, Update(id, change)).0;
      assert after == ns <==> after[i.value] == ns[i.value];
    }
  }
}

/** The provider's in-place operations on its list of networks. */
module MockNetworkProvider {

  import opened Wrappers
  import opened IpArithmetic
  import opened MockNetworks

  class Provider {
    var networks: seq<Network>

    constructor ()
      ensures networks == Initial()
    {
      networks := Initial();
    }

    method NetworkLocked(id: string) returns (found: Option<nat>)
      ensures found == Index(networks, id)
    {
      var i := 0;
      while i < |networks|
        invariant 0 <= i <= |networks|
        invariant Index(networks, id) ==
                  match Index(networks[i..], id) case Some(k) => Some(k + i) case None => None
      {
        assert networks[i..][1..] == networks[i + 1..];
        if networks[i].id == id {
          return Some(i);
        }
        i := i + 1;
      }
      found := None;
    }

    method CreateNetwork(req: Creation) returns (r: Result<Network, Failure>)
      modifies this
      ensures (networks, r) == Step(old(networks), Create(req))
    {
      var same := NetworkLocked(req.name);
      if same.Some? {
        return Err(AlreadyExists);
      }
      var dhcp := Default(req.dhcp, true);
      var bridge, ip, prefix := "", None, 0;
      if req.mode == Bridge {
        if req.bridge.None? || req.bridge.value == "" {
          return Err(InvalidState);
        }
        bridge := req.bridge.value;
        dhcp := false;
      } else {
        if req.cidr.None? || req.cidr.value == Blank {
          return Err(InvalidState);
        }
        match req.cidr.value {
          case Blank =>
          case Malformed => return Err(InvalidState);
          case V6 => return Err(Crash);
          case V4(a, p) =>
            ip := Some(Gateway(a, p));
            prefix := p;
        }
      }
      var n := Network(req.name, true, Default(req.autostart, true), bridge, ip, prefix, dhcp, req.mode);
      networks := networks + [n];
      r := Ok(n);
    }

    method UpdateNetwork(id: string, change: Change) returns (r: Result<Network, Failure>)
      modifies this
      ensures (networks, r) == Step(old(networks), Update(id, change))
    {
      var at := NetworkLocked(id);
      if at.None? {
        return Err(NotFound);
      }
      var i := at.value;
      if networks[i].active && change.Structural() {
        return Err(InvalidState);
      }
      if change.autostart.Some? {
        networks := networks[i := networks[i].(autostart := change.autostart.value)];
      }
      assert networks == old(networks)[i := networks[i]];
      if change.Structural() {
        var n := networks[i];
        var mode := Default(change.mode, n.mode);
        if mode == Bridge {
          var bridge := Default(change.bridge, n.bridge);
          if bridge == "" {
            return Err(InvalidState);
          }
          n := n.(bridge := bridge);
          n := n.(ip := None, prefix := 0, dhcp := false);
        } else {
          var cidr := Blank;
          if change.cidr.Some? {
            cidr := change.cidr.value;
          } else if n.ip.Some? {
            cidr := V4(n.ip.value, n.prefix);
          }
          match cidr {
            case Blank => return Err(InvalidState);
            case Malformed => return Err(InvalidState);
            case V6 => return Err(Crash);
            case V4(a, p) =>
              n := n.(ip := Some(Gateway(a, p)), prefix := p);
              n := n.(dhcp := Default(change.dhcp, true));
          }
        }
        networks := networks[i := n.(mode := mode)];
      }
      r := Ok(networks[i]);
      assert networks == old(networks)[i := networks[i]];
    }

    method StartNetwork(id: string) returns (r: Result<Network, Failure>)
      modifies this
      ensures (networks, r) == Step(old(networks), Start(id))
    {
      var at := NetworkLocked(id);
      if at.None? {
        return Err(NotFound);
      }
      if networks[at.value].active {
        return Err(InvalidState);
      }
      networks := networks[at.value := networks[at.value].(active := true)];
      r := Ok(networks[at.value]);
    }

    method StopNetwork(id: string) returns (r: Result<Network, Failure>)
      modifies this
      ensures (networks, r) == Step(old(networks), Stop(id))
    {
      var at := NetworkLocked(id);
      if at.None? {
        return Err(NotFound);
      }
      if !networks[at.value].active {
        return Err(InvalidState);
      }
      networks := networks[at.value := networks[at.value].(active := false)];
      r := Ok(networks[at.value]);
    }

    method DeleteNetwork(id: string) returns (r: Result<Network, Failure>)
      modifies this
      ensures (networks, r) == Step(old(networks), Delete(id))
    {
      var at := NetworkLocked(id);
      if at.None? {
        return Err(NotFound);
      }
      if networks[at.value].active {
        return Err(InvalidState);
      }
      r := Ok(networks[at.value]);
      networks := networks[..at.value] + networks[at.value + 1..];
    }
  }
}
