/** Disks and their target names, from provisioning through any number of CD-ROM
    changes, and the performance profile read back from the domain. */
module GuestDevices {

  import opened Wrappers

  datatype Disk = Disk(device: string, dev: string, bus: string, cache: string, source: string)

  datatype OsType = Linux | Windows | Other

  /** What provisioning is asked for; "" is no ISO, and no choice of NIC. */
  datatype Spec = Spec(os: OsType, iso: string, virtioIso: string, disk: string, nicModel: string)

  datatype Profile = Profile(cpuMode: string, diskBus: string, cache: string, nicModel: string, ioThreads: nat)

  /** The parts of a domain definition that matter here. */
  datatype Domain = Domain(hyperv: bool, cpuMode: string, ioThreads: Option<nat>, disks: seq<Disk>, nicModel: string)

  // ---------- names ----------

  /** sda, sdb, ... sdz. */
  function Name(k: nat): string
    requires k < 26
  {
    "sd" + ["abcdefghijklmnopqrstuvwxyz"[k]]
  }

  predicate Used(disks: seq<Disk>, dev: string) {
    exists i :: 0 <= i < |disks| && disks[i].dev == dev
  }

  predicate DistinctNames(disks: seq<Disk>) {
    forall i, j :: 0 <= i < j < |disks| ==> disks[i].dev != disks[j].dev
  }

  lemma NamesDiffer(a: nat, b: nat)
    requires a < b < 26
    ensures Name(a) != Name(b)
  {
    var letters := "abcdefghijklmnopqrstuvwxyz";
    assert letters[a] != letters[b];
    assert Name(a)[2] == letters[a] && Name(b)[2] == letters[b];
  }

  // ---------- provisioning ----------

  const NICS := ["virtio", "e1000e", "rtl8139"]

  function ProfileOf(os: OsType): Profile {
    match os
    case Linux => Profile("host-passthrough", "scsi", "none", "virtio", 1)
    case Windows => Profile("host-passthrough", "scsi", "none", "virtio", 1)
    case Other => Profile("host-model", "sata", "", "e1000e", 0)
  }

  function Media(source: string, k: nat): seq<Disk>
    requires k < 26
  {
    if source == "" then [] else [Disk("cdrom", Name(k), "sata", "", source)]
  }

  /** The definition and the profile applied; nothing for an unknown NIC model. */
  function Build(spec: Spec): Option<(Domain, Profile)> {
    if spec.nicModel != "" && spec.nicModel !in NICS then None
    else
      var base := ProfileOf(spec.os);
      var profile := if spec.nicModel != "" then base.(nicModel := spec.nicModel) else base;
      var install := Media(spec.iso, 0);
      var drivers := Media(spec.virtioIso, |install|);
      var media := install + drivers;
      var system := Disk("disk", Name(|media|), profile.diskBus, profile.cache, spec.disk);
      var threads := if spec.os.Other? then None else Some(profile.ioThreads);
      Some((Domain(spec.os.Windows?, profile.cpuMode, threads, media + [system], profile.nicModel), profile))
  }

  // ---------- reading the profile back ----------

  /** The last disk wins where several say different things. */
  function DiskBus(disks: seq<Disk>): string {
    if disks == [] then "scsi"
    else
      var (last, rest) := (disks[|disks| - 1], DiskBus(disks[..|disks| - 1]));
      if last.device == "disk" && last.bus == "sata" then "sata" else rest
  }

  function DiskCache(disks: seq<Disk>): string {
    if disks == [] then ""
    else
      var (last, rest) := (disks[|disks| - 1], DiskCache(disks[..|disks| - 1]));
      if last.device == "disk" && last.cache != "" then last.cache else rest
  }

  method Detect(d: Domain) returns (found: Option<Profile>)
    ensures found == Detected(d)
  {
    if !d.hyperv {
      return None;
    }
    var bus, cache := "scsi", "";
    for i := 0 to |d.disks|
      invariant bus == DiskBus(d.disks[..i]) && cache == DiskCache(d.disks[..i])
    {
      assert d.disks[..i + 1][..i] == d.disks[..i];
      if d.disks[i].device != "disk" {
        continue;
      }
      if d.disks[i].bus == "sata" {
        bus := "sata";
      }
      if d.disks[i].cache != "" {
        cache := d.disks[i].cache;
      }
    }
    assert d.disks[..|d.disks|] == d.disks;
    var threads := 0;
    if d.ioThreads.Some? {
      threads := d.ioThreads.value;
    }
    var nic := "";
    if d.nicModel in NICS {
      nic := d.nicModel;
    }
    found := Some(Profile(d.cpuMode, bus, cache, nic, threads));
  }

  function Detected(d: Domain): Option<Profile> {
    if !d.hyperv then None
    else Some(Profile(d.cpuMode, DiskBus(d.disks), DiskCache(d.disks),
                      if d.nicModel in NICS then d.nicModel else "",
                      if d.ioThreads.Some? then d.ioThreads.value else 0))
  }

  // ---------- CD-ROM changes ----------

  /** The first CD-ROM. */
  function Current(disks: seq<Disk>): (i: Option<nat>)
    ensures i.Some? ==> i.value < |disks| && disks[i.value].device == "cdrom"
  {
    if disks == [] then None
    else if disks[0].device == "cdrom" then Some(0)
    else match Current(disks[1..]) case Some(i) => Some(i + 1) case None => None
  }

  /** The bus of the first disk that is not a CD-ROM and has one. */
  function SystemBus(disks: seq<Disk>): string {
    if disks == [] then ""
    else
      var before := SystemBus(disks[..|disks| - 1]);
      var last := disks[|disks| - 1];
      if before == "" && last.device != "cdrom" then last.bus else before
  }

  function CdromBus(disks: seq<Disk>): string {
    if SystemBus(disks) in ["ide", "sata"] then SystemBus(disks) else "sata"
  }

  datatype Outcome = Changed | NoFreeName | AttachFailed

  /** The first free name from the k-th on. */
  function FreeFrom(disks: seq<Disk>, k: nat): (free: Option<nat>)
    requires k <= 26
    ensures free.Some? ==> k <= free.value < 26 && !Used(disks, Name(free.value))
    ensures forall j :: k <= j < (if free.Some? then free.value else 26) ==> Used(disks, Name(j))
    decreases 26 - k
  {
    if k == 26 then None else if Used(disks, Name(k)) then FreeFrom(disks, k + 1) else Some(k)
  }

  lemma UsedStep(disks: seq<Disk>, i: nat)
    requires i < |disks|
    ensures forall dev :: Used(disks[..i + 1], dev) <==> Used(disks[..i], dev) || dev == disks[i].dev
  {
    var (now, before) := (disks[..i + 1], disks[..i]);
    forall dev ensures Used(now, dev) <==> Used(before, dev) || dev == disks[i].dev {
      if Used(before, dev) {
        var k :| 0 <= k < |before| && before[k].dev == dev;
        assert now[k].dev == dev;
      }
      if dev == disks[i].dev {
        assert now[i].dev == dev;
      }
    }
  }

  /** The first free name, and the bus: nothing if all 26 names are taken. */
  method NextCdromTarget(disks: seq<Disk>) returns (target: Option<(string, string)>)
    ensures target == match FreeFrom(disks, 0)
                      case Some(k) => Some((Name(k), CdromBus(disks)))
                      case None => None
  {
    var used: map<string, bool> := map[];
    var bus := "sata";
    var systemBus := "";
    for i := 0 to |disks|
      invariant forall dev :: dev in used && dev != "" <==> dev != "" && Used(disks[..i], dev)
      invariant systemBus == SystemBus(disks[..i])
    {
      assert disks[..i + 1][..i] == disks[..i];
      UsedStep(disks, i);
      if disks[i].dev != "" {
        used := used[disks[i].dev := true];
      }
      if disks[i].device != "cdrom" && systemBus == "" {
        systemBus := disks[i].bus;
      }
    }
    assert disks[..|disks|] == disks;
    if systemBus == "ide" || systemBus == "sata" {
      bus := systemBus;
    }
    for c := 0 to 26
      invariant FreeFrom(disks, 0) == FreeFrom(disks, c)
    {
      if Name(c) !in used {
        return Some((Name(c), bus));
      }
    }
    target := None;
  }

  /** One change: the ISO wanted ("" for none), whether a detach of the current
      CD-ROM takes effect, and whether libvirt accepts the new one. */
  datatype Change = Change(iso: string, detached: bool, attached: bool)

  function Without(disks: seq<Disk>, i: nat): seq<Disk>
    requires i < |disks|
  {
    disks[..i] + disks[i + 1..]
  }

  function Detached(disks: seq<Disk>, works: bool): seq<Disk> {
    var current := Current(disks);
    if current.Some? && works then Without(disks, current.value) else disks
  }

  function SetCdrom(disks: seq<Disk>, c: Change): (seq<Disk>, Outcome) {
    var left := Detached(disks, c.detached);
    if c.iso == "" then (left, Changed)
    else
      match FreeFrom(left, 0)
      case None => (left, NoFreeName)
      case Some(k) =>
        if !c.attached then (left, AttachFailed)
        else (left + [Disk("cdrom", Name(k), CdromBus(left), "", c.iso)], Changed)
  }

  function Exec(disks: seq<Disk>, run: seq<Change>): seq<Disk> {
    if run == [] then disks else SetCdrom(Exec(disks, run[..|run| - 1]), run[|run| - 1]).0
  }

  /** A domain's persistent disk list, changed by setCDROM. */
  class PersistentConfig {
    var disks: seq<Disk>

    constructor (disks: seq<Disk>)
      ensures this.disks == disks
    {
      this.disks := disks;
    }

    method CurrentCdrom() returns (dev: Option<string>)
      ensures dev == match Current(disks) case Some(i) => Some(disks[i].dev) case None => None
    {
      for i := 0 to |disks|
        invariant Current(disks) == match Current(disks[i..]) case Some(k) => Some(k + i) case None => None
      {
        assert disks[i..][1..] == disks[i + 1..];
        if disks[i].device == "cdrom" {
          return Some(disks[i].dev);
        }
      }
      dev := None;
    }

    /** What libvirt does with a detach that it honours: the disk with the given
        name goes. */
    method Detach(dev: string)
      requires DistinctNames(disks)
      modifies this
      ensures forall i :: 0 <= i < |old(disks)| && old(disks)[i].dev == dev ==> disks == Without(old(disks), i)
      ensures !Used(old(disks), dev) ==> disks == old(disks)
    {
      for i := 0 to |disks|
        invariant disks == old(disks)
        invariant forall k :: 0 <= k < i ==> disks[k].dev != dev
      {
        if disks[i].dev == dev {
          disks := disks[..i] + disks[i + 1..];
          return;
        }
      }
    }

    /** Attaches, swaps or detaches the CD-ROM. */
    method SetCDROM(c: Change) returns (outcome: Outcome)
      requires DistinctNames(disks)
      modifies this
      ensures (disks, outcome) == SetCdrom(old(disks), c)
    {
      var current := CurrentCdrom();
      if current.Some? && c.detached {
        Detach(current.value);
      }
      if c.iso == "" {
        return Changed;
      }
      var target := NextCdromTarget(disks);
      if target.None? {
        return NoFreeName;
      }
      if !c.attached {
        return AttachFailed;
      }
      disks := disks + [Disk("cdrom", target.value.0, target.value.1, "", c.iso)];
      outcome := Changed;
    }
  }

  // ---------- what every run keeps ----------

  /** The disks that are not CD-ROMs. */
  function Solid(disks: seq<Disk>): seq<Disk> {
    if disks == [] then []
    else
      var rest := Solid(disks[..|disks| - 1]);
      if disks[|disks| - 1].device == "cdrom" then rest else rest + [disks[|disks| - 1]]
  }

  lemma {:induction false} SolidConcat(a: seq<Disk>, b: seq<Disk>)
    ensures Solid(a + b) == Solid(a) + Solid(b)
  {
    if b == [] {
      assert a + b == a;
    } else {
      SolidConcat(a, b[..|b| - 1]);
      assert (a + b)[..|a + b| - 1] == a + b[..|b| - 1];
    }
  }

  /** Buses and cache are those of the disks that are not CD-ROMs. */
  lemma {:induction false} SolidDecides(disks: seq<Disk>)
    ensures SystemBus(disks) == SystemBus(Solid(disks))
    ensures DiskBus(disks) == DiskBus(Solid(disks))
    ensures DiskCache(disks) == DiskCache(Solid(disks))
  {
    if disks != [] {
      var rest := Solid(disks[..|disks| - 1]);
      SolidDecides(disks[..|disks| - 1]);
      if disks[|disks| - 1].device != "cdrom" {
        assert Solid(disks)[..|rest|] == rest;
      }
    }
  }

  lemma WithoutKeepsSolid(a: seq<Disk>, d: Disk, b: seq<Disk>)
    requires d.device == "cdrom"
    ensures Solid(a + b) == Solid((a + [d]) + b)
  {
    SolidConcat(a, b);
    SolidConcat(a, [d]);
    SolidConcat(a + [d], b);
    assert Solid([d]) == [];
  }

  lemma WithoutKeepsNames(disks: seq<Disk>, i: nat)
    requires DistinctNames(disks) && i < |disks|
    ensures DistinctNames(Without(disks, i))
  {
    var less := Without(disks, i);
    forall j, k | 0 <= j < k < |less| ensures less[j].dev != less[k].dev {
      assert less[j] == disks[if j < i then j else j + 1];
      assert less[k] == disks[if k < i then k else k + 1];
    }
  }

  lemma WithoutKeeps(disks: seq<Disk>, i: nat)
    requires DistinctNames(disks) && i < |disks| && disks[i].device == "cdrom"
    ensures DistinctNames(Without(disks, i)) && Solid(Without(disks, i)) == Solid(disks)
  {
    WithoutKeepsNames(disks, i);
    var (a, d, b) := (disks[..i], disks[i], disks[i + 1..]);
    assert disks == (a + [d]) + b;
    WithoutKeepsSolid(a, d, b);
  }

  lemma AppendKeeps(disks: seq<Disk>, d: Disk)
    requires DistinctNames(disks) && !Used(disks, d.dev) && d.device == "cdrom"
    ensures DistinctNames(disks + [d]) && Solid(disks + [d]) == Solid(disks)
  {
    SolidConcat(disks, [d]);
    assert Solid([d]) == [];
  }

  lemma DetachedKeeps(disks: seq<Disk>, works: bool)
    requires DistinctNames(disks)
    ensures DistinctNames(Detached(disks, works)) && Solid(Detached(disks, works)) == Solid(disks)
  {
    var current := Current(disks);
    if current.Some? && works {
      WithoutKeeps(disks, current.value);
    }
  }

  lemma ChangeKeeps(disks: seq<Disk>, c: Change)
    requires DistinctNames(disks)
    ensures DistinctNames(SetCdrom(disks, c).0) && Solid(SetCdrom(disks, c).0) == Solid(disks)
  {
    var left := Detached(disks, c.detached);
    DetachedKeeps(disks, c.detached);
    var free := FreeFrom(left, 0);
    if c.iso != "" && free.Some? && c.attached {
      AppendKeeps(left, Disk("cdrom", Name(free.value), CdromBus(left), "", c.iso));
    }
  }

  /** A change finds no name exactly when all of sda..sdz are taken after its
      detach, and only when it asks for an ISO. */
  lemma NoNameIff(disks: seq<Disk>, c: Change)
    ensures SetCdrom(disks, c).1 == NoFreeName <==>
              c.iso != "" && forall k :: 0 <= k < 26 ==> Used(Detached(disks, c.detached), Name(k))
  {
    var free := FreeFrom(Detached(disks, c.detached), 0);
    if free.Some? {
      assert !Used(Detached(disks, c.detached), Name(free.value));
    }
  }

  /** After provisioning and any CD-ROM changes, whether or not their detaches
      and attaches took effect, names are distinct and every disk other than the
      CD-ROMs is as it was provisioned. */
  lemma {:induction false} RunKeeps(spec: Spec, run: seq<Change>)
    requires Build(spec).Some?
    ensures var disks := Build(spec).value.0.disks;
            DistinctNames(Exec(disks, run)) && Solid(Exec(disks, run)) == [disks[|disks| - 1]]
  {
    var disks := Build(spec).value.0.disks;
    if run == [] {
      ProvisionedNames(spec);
      ProvisionedSolid(spec);
    } else {
      RunKeeps(spec, run[..|run| - 1]);
      ChangeKeeps(Exec(disks, run[..|run| - 1]), run[|run| - 1]);
    }
  }

  /** Provisioning hands out sda, sdb, sdc in order. */
  lemma ProvisionedNames(spec: Spec)
    requires Build(spec).Some?
    ensures var disks := Build(spec).value.0.disks;
            |disks| <= 3 && (forall i :: 0 <= i < |disks| ==> disks[i].dev == Name(i)) && DistinctNames(disks)
  {
    var disks := Build(spec).value.0.disks;
    assert forall i :: 0 <= i < |disks| ==> disks[i].dev == Name(i);
    forall i, j | 0 <= i < j < |disks| ensures disks[i].dev != disks[j].dev {
      NamesDiffer(i, j);
    }
  }

  lemma ProvisionedSolid(spec: Spec)
    requires Build(spec).Some?
    ensures var disks := Build(spec).value.0.disks;
            |disks| <= 3 && Solid(disks) == [disks[|disks| - 1]]
  {
    var disks := Build(spec).value.0.disks;
    var install := Media(spec.iso, 0);
    var drivers := Media(spec.virtioIso, |install|);
    var system := disks[|disks| - 1];
    assert disks == (install + drivers) + [system];
    SolidConcat(install, drivers);
    SolidConcat(install + drivers, [system]);
    assert Solid(install) == [] && Solid(drivers) == [];
    assert Solid([system]) == [system];
  }

  /** Reading the profile back from a Windows guest gives exactly the one that
      was applied, after any CD-ROM changes; other guests give none. */
  lemma ProfileSurvives(spec: Spec, run: seq<Change>)
    requires Build(spec).Some?
    ensures var (domain, applied) := Build(spec).value;
            Detected(domain.(disks := Exec(domain.disks, run))) ==
            if spec.os.Windows? then Some(applied) else None
  {
    var (domain, applied) := Build(spec).value;
    var disks := Exec(domain.disks, run);
    RunKeeps(spec, run);
    SolidDecides(disks);
    var system := domain.disks[|domain.disks| - 1];
    assert Solid(disks) == [system] && [system][..0] == [];
    assert NICS[0] == "virtio" && NICS[1] == "e1000e" && NICS[2] == "rtl8139";
  }

  // ---------- names do not run out ----------

  predicate AllDetached(run: seq<Change>) {
    forall i :: 0 <= i < |run| ==> run[i].detached
  }

  lemma {:induction false} NoCurrentIsSolid(disks: seq<Disk>)
    requires Current(disks).None?
    ensures forall i :: 0 <= i < |disks| ==> disks[i].device != "cdrom"
  {
    if disks != [] {
      NoCurrentIsSolid(disks[1..]);
      forall i | 0 <= i < |disks| ensures disks[i].device != "cdrom" {
        if i > 0 {
          assert disks[i] == disks[1..][i - 1];
        }
      }
    }
  }

  lemma {:induction false} SolidIsAll(disks: seq<Disk>)
    requires forall i :: 0 <= i < |disks| ==> disks[i].device != "cdrom"
    ensures Solid(disks) == disks
  {
    if disks != [] {
      SolidIsAll(disks[..|disks| - 1]);
    }
  }

  /** Where detaches work a domain has at most three disks, so never a third
      CD-ROM. */
  lemma {:induction false} AtMostThree(spec: Spec, run: seq<Change>)
    requires Build(spec).Some? && AllDetached(run)
    ensures |Exec(Build(spec).value.0.disks, run)| <= 3
  {
    var disks := Build(spec).value.0.disks;
    if run == [] {
      ProvisionedSolid(spec);
    } else {
      var before := Exec(disks, run[..|run| - 1]);
      AtMostThree(spec, run[..|run| - 1]);
      if Current(before).None? {
        RunKeeps(spec, run[..|run| - 1]);
        NoCurrentIsSolid(before);
        SolidIsAll(before);
      }
    }
  }

  /** The disk that has a name. */
  function Holder(disks: seq<Disk>, dev: string): (i: nat)
    requires Used(disks, dev)
    ensures i < |disks| && disks[i].dev == dev
  {
    if disks[0].dev == dev then 0
    else
      assert exists i :: 0 <= i < |disks[1..]| && disks[1..][i].dev == dev by {
        var i :| 0 <= i < |disks| && disks[i].dev == dev;
        assert disks[1..][i - 1].dev == dev;
      }
      Holder(disks[1..], dev) + 1
  }

  /** Fewer than four disks cannot take the first four names. */
  lemma FourNames(disks: seq<Disk>)
    requires |disks| <= 3
    ensures exists k :: 0 <= k < 26 && !Used(disks, Name(k))
  {
    if Used(disks, Name(0)) && Used(disks, Name(1)) && Used(disks, Name(2)) && Used(disks, Name(3)) {
      var (a, b, c, d) := (Holder(disks, Name(0)), Holder(disks, Name(1)), Holder(disks, Name(2)), Holder(disks, Name(3)));
      NamesDiffer(0, 1); NamesDiffer(0, 2); NamesDiffer(0, 3);
      NamesDiffer(1, 2); NamesDiffer(1, 3); NamesDiffer(2, 3);
      assert false;
    }
  }

  /** The search for a name never fails as long as detaches take effect. */
  lemma NamesNeverRunOut(spec: Spec, run: seq<Change>, c: Change)
    requires Build(spec).Some? && AllDetached(run) && c.detached
    ensures SetCdrom(Exec(Build(spec).value.0.disks, run), c).1 != NoFreeName
  {
    var disks := Exec(Build(spec).value.0.disks, run);
    AtMostThree(spec, run);
    FourNames(Detached(disks, true));
    NoNameIff(disks, c);
  }
}
