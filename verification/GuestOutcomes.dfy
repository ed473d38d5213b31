/** What provisioning hands out for each operating system, what a CD-ROM change
    attaches and detaches, and what is read back from any domain. */
module GuestOutcomes {
  import opened Wrappers
  import opened GuestDevices

  // ---------- provisioning ----------

  predicate IsCdrom(d: Disk, source: string) {
    d.device == "cdrom" && d.bus == "sata" && d.source == source && d.cache == ""
  }

  /** Provisioning fails for an unknown NIC model alone. The install ISO comes
      before the drivers and both before the system disk, on SATA; what is asked
      for as NIC wins over the profile. */
  lemma Provisioned(spec: Spec)
    ensures Build(spec).Some? <==> spec.nicModel in {"", "virtio", "e1000e", "rtl8139"}
    ensures Build(spec).Some? ==>
              var (d, p) := Build(spec).value;
              var n := (if spec.iso == "" then 0 else 1) + if spec.virtioIso == "" then 0 else 1;
              && |d.disks| == n + 1
              && (spec.iso != "" ==> IsCdrom(d.disks[0], spec.iso))
              && (spec.virtioIso != "" ==> IsCdrom(d.disks[n - 1], spec.virtioIso))
              && d.disks[n] == Disk("disk", d.disks[n].dev, p.diskBus, p.cache, spec.disk)
              && d.nicModel == p.nicModel && d.cpuMode == p.cpuMode
              && (spec.nicModel != "" ==> p.nicModel == spec.nicModel)
  {
    assert NICS[0] == "virtio" && NICS[1] == "e1000e" && NICS[2] == "rtl8139";
  }

  /** Linux and Windows get virtio-scsi without cache, an I/O thread and the host's
      CPU; other systems what anything can drive. Hyper-V is for Windows alone. */
  lemma ProfilesByOs(spec: Spec)
    requires Build(spec).Some?
    ensures var (d, p) := Build(spec).value;
            && (d.hyperv <==> spec.os == Windows)
            && (if spec.os == Other
                then p.cpuMode == "host-model" && p.diskBus == "sata" && p.cache == "" && d.ioThreads == None && p.ioThreads == 0
                else p.cpuMode == "host-passthrough" && p.diskBus == "scsi" && p.cache == "none"
                     && d.ioThreads == Some(1) && p.ioThreads == 1)
            && (spec.nicModel == "" ==> p.nicModel == if spec.os == Other then "e1000e" else "virtio")
  {
  }

  // ---------- the bus of a CD-ROM ----------

  /** The first disk that is not a CD-ROM and names a bus. */
  predicate IsSystem(disks: seq<Disk>, i: nat) {
    && i < |disks| && disks[i].device != "cdrom" && disks[i].bus != ""
    && forall j :: 0 <= j < i ==> disks[j].device == "cdrom" || disks[j].bus == ""
  }

  lemma {:induction false} SystemBusIs(disks: seq<Disk>)
    ensures forall i :: 0 <= i < |disks| && IsSystem(disks, i) ==> SystemBus(disks) == disks[i].bus
    ensures SystemBus(disks) == "" <==> forall j :: 0 <= j < |disks| ==> disks[j].device == "cdrom" || disks[j].bus == ""
  {
    if disks != [] {
      var (init, n) := (disks[..|disks| - 1], |disks| - 1);
      SystemBusIs(init);
      forall i | 0 <= i < |disks| && IsSystem(disks, i) ensures SystemBus(disks) == disks[i].bus {
        if i < n {
          assert init[i] == disks[i] && IsSystem(init, i);
        }
      }
      assert forall j :: 0 <= j < n ==> init[j] == disks[j];
    }
  }

  /** A new CD-ROM goes on the system disk's bus where that is IDE or SATA, which
      may be all such a guest can see, and on SATA otherwise. */
  lemma CdromBusFollows(disks: seq<Disk>, i: nat)
    requires IsSystem(disks, i)
    ensures disks[i].bus == "ide" ==> CdromBus(disks) == "ide"
    ensures disks[i].bus != "ide" ==> CdromBus(disks) == "sata"
  {
    SystemBusIs(disks);
  }

  lemma CdromBusAlone(disks: seq<Disk>)
    requires forall i :: !IsSystem(disks, i)
    ensures CdromBus(disks) == "sata"
  {
    SystemBusIs(disks);
    NoneSystem(disks, |disks|);
  }

  lemma {:induction false} NoneSystem(disks: seq<Disk>, n: nat)
    requires n <= |disks| && forall i :: !IsSystem(disks, i)
    ensures forall j :: 0 <= j < n ==> disks[j].device == "cdrom" || disks[j].bus == ""
  {
    if n > 0 {
      NoneSystem(disks, n - 1);
      assert !IsSystem(disks, n - 1);
    }
  }

  // ---------- CD-ROM changes ----------

  function Cdroms(disks: seq<Disk>): seq<Disk> {
    if disks == [] then []
    else OneCdrom(disks[0]) + Cdroms(disks[1..])
  }

  function OneCdrom(d: Disk): seq<Disk> {
    if d.device == "cdrom" then [d] else []
  }

  lemma {:induction false} CdromsConcat(a: seq<Disk>, b: seq<Disk>)
    ensures Cdroms(a + b) == Cdroms(a) + Cdroms(b)
  {
    if a == [] {
      assert a + b == b;
    } else {
      CdromsConcat(a[1..], b);
      assert (a + b)[1..] == a[1..] + b;
      Regroup(OneCdrom(a[0]), Cdroms(a[1..]), Cdroms(b));
    }
  }

  lemma Regroup(a: seq<Disk>, b: seq<Disk>, c: seq<Disk>)
    ensures a + (b + c) == (a + b) + c
  {
  }

  lemma {:induction false} CurrentIsFirst(disks: seq<Disk>)
    ensures Current(disks).None? <==> Cdroms(disks) == []
    ensures Current(disks).Some? ==> Cdroms(Without(disks, Current(disks).value)) == Cdroms(disks)[1..]
  {
    if disks != [] && disks[0].device != "cdrom" {
      CurrentIsFirst(disks[1..]);
      if Current(disks).Some? {
        var i := Current(disks).value;
        assert Without(disks, i) == [disks[0]] + Without(disks[1..], i - 1);
      }
    } else if disks != [] {
      assert Without(disks, 0) == disks[1..];
    }
  }

  /** What is left of the CD-ROMs once the first is detached, if that works. */
  function Left(disks: seq<Disk>, works: bool): seq<Disk> {
    if works && Cdroms(disks) != [] then Cdroms(disks)[1..] else Cdroms(disks)
  }

  lemma DetachesFirst(disks: seq<Disk>, works: bool)
    ensures Cdroms(Detached(disks, works)) == Left(disks, works)
  {
    CurrentIsFirst(disks);
  }

  /** The first CD-ROM goes if its detach takes effect. If an ISO is wanted and its
      attach works, a CD-ROM with it is added, under the first name of sda..sdz
      that no disk has by then; otherwise nothing is added. */
  lemma ChangeOutcome(disks: seq<Disk>, c: Change)
    ensures var (after, outcome) := SetCdrom(disks, c);
            var left := Left(disks, c.detached);
            && (outcome == Changed && c.iso != "" ==>
                  && |Cdroms(after)| == |left| + 1 && Cdroms(after)[..|left|] == left
                  && var d := Cdroms(after)[|left|];
                     && d.source == c.iso && d.bus == CdromBus(Detached(disks, c.detached))
                     && exists k: nat | k < 26 :: d.dev == Name(k) && !Used(Detached(disks, c.detached), d.dev)
                                           && forall j :: 0 <= j < k ==> Used(Detached(disks, c.detached), Name(j)))
            && (outcome != Changed || c.iso == "" ==> Cdroms(after) == left)
            && (c.iso == "" ==> outcome == Changed)
            && (outcome == AttachFailed ==> !c.attached) && (outcome == Changed && c.iso != "" ==> c.attached)
  {
    var left := Detached(disks, c.detached);
    DetachesFirst(disks, c.detached);
    var free := FreeFrom(left, 0);
    if c.iso != "" && free.Some? && c.attached {
      var d := Disk("cdrom", Name(free.value), CdromBus(left), "", c.iso);
      CdromsConcat(left, [d]);
      assert [d][1..] == [] && Cdroms([d]) == [d] + Cdroms([]) == [d];
      assert SetCdrom(disks, c).0 == left + [d];
      assert (Cdroms(left) + [d])[..|Cdroms(left)|] == Cdroms(left);
      assert d.dev == Name(free.value) && !Used(left, d.dev);
    }
  }

  // ---------- reading back ----------

  /** The last hard disk that says how it is cached. */
  predicate SaysCache(disks: seq<Disk>, i: nat) {
    && i < |disks| && disks[i].device == "disk" && disks[i].cache != ""
    && forall j :: i < j < |disks| ==> disks[j].device != "disk" || disks[j].cache == ""
  }

  lemma {:induction false} BusAndCache(disks: seq<Disk>)
    ensures DiskBus(disks) == "sata" <==> exists i :: 0 <= i < |disks| && disks[i].device == "disk" && disks[i].bus == "sata"
    ensures DiskBus(disks) in {"sata", "scsi"}
    ensures forall i :: 0 <= i < |disks| && SaysCache(disks, i) ==> DiskCache(disks) == disks[i].cache
    ensures DiskCache(disks) == "" <==> forall i :: 0 <= i < |disks| ==> disks[i].device != "disk" || disks[i].cache == ""
  {
    if disks != [] {
      var (init, n) := (disks[..|disks| - 1], |disks| - 1);
      BusAndCache(init);
      assert forall j :: 0 <= j < n ==> init[j] == disks[j];
      if i :| 0 <= i < n && init[i].device == "disk" && init[i].bus == "sata" {
        assert disks[i].bus == "sata";
      }
      forall i | 0 <= i < |disks| && SaysCache(disks, i) ensures DiskCache(disks) == disks[i].cache {
        if i < n {
          assert disks[n].device != "disk" || disks[n].cache == "";
          assert SaysCache(init, i);
        }
      }
    }
  }

  /** Of any domain with Hyper-V features, provisioned here or not: SATA if any hard
      disk is on it, the last cache mode that a hard disk names, the NIC model if it
      is one of the three known, and no I/O threads unless the domain says. */
  lemma DetectedIff(d: Domain)
    ensures Detected(d).Some? <==> d.hyperv
    ensures d.hyperv ==>
              var p := Detected(d).value;
              && p.cpuMode == d.cpuMode && p.ioThreads == (match d.ioThreads case Some(n) => n case None => 0)
              && (p.diskBus == "sata" <==> exists i :: 0 <= i < |d.disks| && d.disks[i].device == "disk" && d.disks[i].bus == "sata")
              && p.diskBus in {"sata", "scsi"}
              && (forall i :: 0 <= i < |d.disks| && SaysCache(d.disks, i) ==> p.cache == d.disks[i].cache)
              && ((forall i :: 0 <= i < |d.disks| ==> d.disks[i].device != "disk" || d.disks[i].cache == "") ==> p.cache == "")
              && p.nicModel == (if d.nicModel in {"virtio", "e1000e", "rtl8139"} then d.nicModel else "")
  {
    BusAndCache(d.disks);
    assert NICS[0] == "virtio" && NICS[1] == "e1000e" && NICS[2] == "rtl8139";
  }
}
