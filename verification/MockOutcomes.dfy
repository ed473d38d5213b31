/** What each operation on the simulated networks answers and leaves, field by
    field of the request. */
module MockOutcomes {
  import opened Wrappers
  import opened MockNetworks

  /** The k-th network is the first with the name. */
  predicate At(ns: seq<Network>, id: string, k: nat) {
    k < |ns| && ns[k].id == id && forall j :: 0 <= j < k ==> ns[j].id != id
  }

  lemma {:induction false} IndexIs(ns: seq<Network>, id: string, k: nat)
    requires At(ns, id, k)
    ensures Index(ns, id) == Some(k)
  {
    if k > 0 {
      assert ns[0].id != id;
      assert forall j :: 0 <= j < k - 1 ==> ns[1..][j] == ns[j + 1];
      IndexIs(ns[1..], id, k - 1);
    }
  }

  lemma {:induction false} NoIndex(ns: seq<Network>, id: string)
    requires forall k :: 0 <= k < |ns| ==> ns[k].id != id
    ensures Index(ns, id) == None
  {
    if ns != [] {
      assert forall j :: 0 <= j < |ns| - 1 ==> ns[1..][j] == ns[j + 1];
      NoIndex(ns[1..], id);
    }
  }

  /** Yes unless told no. */
  predicate Wanted(o: Option<bool>) {
    o != Some(false)
  }

  /** What a network that routes takes from its subnet. */
  predicate Routes(n: Network, cidr: Cidr) {
    cidr.V4? && n.ip == Some(Gateway(cidr.address, cidr.prefix)) && n.prefix == cidr.prefix
  }

  predicate Bridges(n: Network, bridge: string) {
    bridge != "" && n.bridge == bridge && n.ip == None && n.prefix == 0 && !n.dhcp
  }

  // ---------- create and delete ----------

  /** A name is refused if it is taken. A bridge network needs the name of a bridge,
      any other an IPv4 subnet; an IPv6 one panics. The new network is active and
      comes last; it starts by itself, and answers DHCP unless it is a bridge, both
      unless the request says no. */
  lemma CreateOutcome(ns: seq<Network>, req: Creation)
    ensures var (ns', r) := Step(ns, Create(req));
            var taken := exists k :: 0 <= k < |ns| && ns[k].id == req.name;
            var bridged := req.bridge.Some? && req.bridge.value != "";
            var routed := req.cidr.Some? && req.cidr.value.V4?;
            && (r == Err(AlreadyExists) <==> taken)
            && (r == Err(Crash) <==> !taken && req.mode != Bridge && req.cidr == Some(V6))
            && (r.Ok? <==> !taken && if req.mode == Bridge then bridged else routed)
            && (r.Err? ==> ns' == ns && r.error in {AlreadyExists, Crash, InvalidState})
            && (r.Ok? ==>
                  var n := r.value;
                  && ns' == ns + [n] && n.id == req.name && n.active && n.mode == req.mode
                  && (n.autostart <==> Wanted(req.autostart))
                  && if req.mode == Bridge then Bridges(n, req.bridge.value)
                     else n.bridge == "" && Routes(n, req.cidr.value) && (n.dhcp <==> Wanted(req.dhcp)))
  {
    if forall k :: 0 <= k < |ns| ==> ns[k].id != req.name {
      NoIndex(ns, req.name);
    } else {
      assert Index(ns, req.name).Some? by {
        if Index(ns, req.name).None? {
          IndexMisses(ns, req.name);
        }
      }
    }
  }

  /** An operation on a name that no network has is refused. */
  lemma UnknownName(ns: seq<Network>, id: string, e: Event)
    requires forall k :: 0 <= k < |ns| ==> ns[k].id != id
    requires match e
             case Create(_) => false
             case Update(i, _) => i == id
             case Start(i) => i == id
             case Stop(i) => i == id
             case Delete(i) => i == id
    ensures Step(ns, e) == (ns, Err(NotFound))
  {
    NoIndex(ns, id);
  }

  /** Only an inactive network can be deleted, and started; only an active one
      stopped. Nothing else changes, and the others keep their order. */
  lemma PowerOutcome(ns: seq<Network>, id: string, k: nat)
    requires At(ns, id, k)
    ensures Step(ns, Delete(id)) ==
            if ns[k].active then (ns, Err(InvalidState)) else (ns[..k] + ns[k + 1..], Ok(ns[k]))
    ensures Step(ns, Start(id)) ==
            if ns[k].active then (ns, Err(InvalidState))
            else (ns[k := ns[k].(active := true)], Ok(ns[k].(active := true)))
    ensures Step(ns, Stop(id)) ==
            if ns[k].active then (ns[k := ns[k].(active := false)], Ok(ns[k].(active := false)))
            else (ns, Err(InvalidState))
  {
    IndexIs(ns, id, k);
  }

  // ---------- update ----------

  /** Only the addressed network changes, and neither its name nor whether it is
      active; its autostart flag is set if the request names one, even when the
      rest then fails, unless the network is active and the rest is structural. */
  lemma UpdateOutcome(ns: seq<Network>, id: string, change: Change, k: nat)
    requires At(ns, id, k)
    ensures var (ns', r) := Step(ns, Update(id, change));
            && |ns'| == |ns| && (forall j | 0 <= j < |ns| && j != k :: ns'[j] == ns[j])
            && ns'[k].id == id && ns'[k].active == ns[k].active
            && (ns[k].active && change.Structural() ==> r == Err(InvalidState) && ns' == ns)
            && (!(ns[k].active && change.Structural()) ==>
                  ns'[k].autostart == if change.autostart.Some? then change.autostart.value else ns[k].autostart)
            && (r.Ok? ==> r.value == ns'[k])
            && (r.Err? || !change.Structural() ==> ns'[k] == ns[k].(autostart := ns'[k].autostart))
            && (!change.Structural() ==> r.Ok?)
  {
    IndexIs(ns, id, k);
  }

  /** What a structural update asks for: the named subnet, or the network's own. */
  function Asked(n: Network, change: Change): Cidr {
    if change.cidr.Some? then change.cidr.value else if n.ip.Some? then V4(n.ip.value, n.prefix) else Blank
  }

  /** A structural update of an inactive network: to be a bridge it needs the name
      of one, its own or a new one; otherwise an IPv4 subnet, its own or a new one.
      DHCP is then on unless the request says no, whatever it was before. */
  lemma StructuralOutcome(ns: seq<Network>, id: string, change: Change, k: nat)
    requires At(ns, id, k) && !ns[k].active && change.Structural()
    ensures var (n, r) := (ns[k], Step(ns, Update(id, change)).1);
            var mode := if change.mode.Some? then change.mode.value else n.mode;
            var bridge := if change.bridge.Some? then change.bridge.value else n.bridge;
            && (r.Ok? <==> if mode == Bridge then bridge != "" else Asked(n, change).V4?)
            && (r == Err(Crash) <==> mode != Bridge && Asked(n, change) == V6)
            && (r.Err? ==> r.error in {Crash, InvalidState})
            && (r.Ok? ==> r.value.mode == mode)
            && (r.Ok? && mode == Bridge ==> Bridges(r.value, bridge))
            && (r.Ok? && mode != Bridge ==>
                  Routes(r.value, Asked(n, change)) && r.value.bridge == n.bridge && (r.value.dhcp <==> Wanted(change.dhcp)))
  {
    IndexIs(ns, id, k);
  }
}
