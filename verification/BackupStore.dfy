/** The store and its points as objects: setters fill in a point's descriptor,
    writes change the library's folders in place, and List, Get and Delete read
    them back. */
module BackupStore {

  import opened Wrappers
  import opened MetadataText
  import opened BackupLibrary

  class Store {
    const codec: Codec
    var folders: seq<Folder>

    constructor (codec: Codec)
      ensures this.codec == codec && folders == []
    {
      this.codec := codec;
      folders := [];
    }

    /** Finds a point's folder by its name, under any VM. */
    method Find(id: string) returns (i: Option<nat>)
      ensures i == Position(folders, id)
    {
      var k := 0;
      while k < |folders|
        invariant k <= |folders|
        invariant Position(folders, id) ==
                  match Position(folders[k..], id) case Some(j) => Some(j + k) case None => None
      {
        assert folders[k..][1..] == folders[k + 1..];
        if folders[k].name == id {
          return Some(k);
        }
        k := k + 1;
      }
      i := None;
    }

    /** Starts a point; `id` and `now` are the generated identifier and the time. */
    method Create(vmId: string, id: string, now: int) returns (r: Result<Point, Failure>)
      requires IsId(id) && Position(folders, id).None?
      modifies this
      ensures r.Ok? <==> IdSafe(vmId)
      ensures r.Err? ==> r.error == InvalidId && folders == old(folders)
      ensures r.Ok? ==> fresh(r.value) && r.value.Valid() && r.value.store == this && r.value.vm == vmId
      ensures r.Ok? ==> r.value.meta == Metadata(id, vmId, Full, Unfinished, now, [], false, "", "")
      ensures r.Ok? ==> folders == Apply(old(folders), vmId, id, Mkdir)
    {
      if !IdSafe(vmId) {
        return Err(InvalidId);
      }
      folders := folders + [Folder(vmId, id, map[])];
      var pt := new Point(this, vmId, id, now);
      r := Ok(pt);
    }

    /** The completed points of a VM, newest first. */
    method List(vmId: string) returns (r: Result<seq<Metadata>, Failure>)
      ensures r.Ok? <==> IdSafe(vmId)
      ensures r.Err? ==> r.error == InvalidId
      ensures r.Ok? ==> NewestFirst(r.value) && multiset(r.value) == multiset(Visible(codec, folders, vmId))
    {
      if !IdSafe(vmId) {
        return Err(InvalidId);
      }
      var out := [];
      for i := 0 to |folders|
        invariant out == Visible(codec, folders[..i], vmId)
      {
        assert folders[..i + 1][..i] == folders[..i];
        var e := folders[i];
        if e.vm != vmId || !IsId(e.name) {
          continue;
        }
        var m := Loaded(codec, e);
        if m.None? || m.value.state != Complete {
          continue;
        }
        out := out + [m.value];
      }
      assert folders[..|folders|] == folders;
      var sorted := SortNewestFirst(out);
      r := Ok(sorted);
    }

    static method SortNewestFirst(ms: seq<Metadata>) returns (sorted: seq<Metadata>)
      ensures NewestFirst(sorted) && multiset(sorted) == multiset(ms)
    {
      sorted := [];
      for i := 0 to |ms|
        invariant NewestFirst(sorted) && multiset(sorted) == multiset(ms[..i])
      {
        InsertKeepsOrder(sorted, ms[i]);
        InsertAdds(sorted, ms[i]);
        sorted := Insert(sorted, ms[i]);
        assert ms[..i + 1] == ms[..i] + [ms[i]];
      }
      assert ms[..|ms|] == ms;
    }

    method Get(id: string) returns (r: Result<Metadata, Failure>)
      ensures r == BackupLibrary.Get(codec, folders, id)
    {
      if !IsId(id) {
        return Err(InvalidId);
      }
      var i := Find(id);
      if i.None? {
        return Err(NotFound);
      }
      var m := Loaded(codec, folders[i.value]);
      if m.None? || m.value.state != Complete {
        return Err(NotFound);
      }
      r := Ok(m.value);
    }

    /** Removes a point whose descriptor can be read, complete or not. */
    method Delete(id: string) returns (r: Result<(), Failure>)
      modifies this
      ensures r == if !IsId(id) then Err(InvalidId)
                   else if Position(old(folders), id).None? ||
                           Loaded(codec, old(folders)[Position(old(folders), id).value]).None? then Err(NotFound)
                   else Ok(())
      ensures folders == if r.Ok? then Removed(old(folders), id) else old(folders)
    {
      if !IsId(id) {
        return Err(InvalidId);
      }
      var i := Find(id);
      if i.None? || Loaded(codec, folders[i.value]).None? {
        return Err(NotFound);
      }
      folders := folders[..i.value] + folders[i.value + 1..];
      r := Ok(());
    }
  }

  /** A handle to a point while it is written. */
  class Point {
    const store: Store
    const vm: string
    var meta: Metadata

    /** Incremental exactly when it names a parent; every image is named after
        its disk and format. */
    predicate Valid()
      reads this
    {
      && (meta.kind.Incremental? <==> meta.parentId != "")
      && forall i :: 0 <= i < |meta.disks| ==>
           meta.disks[i].file == meta.disks[i].name + "." + FormatText(meta.disks[i].format)
    }

    constructor (store: Store, vmId: string, id: string, now: int)
      ensures Valid() && this.store == store && vm == vmId
      ensures meta == Metadata(id, vmId, Full, Unfinished, now, [], false, "", "")
    {
      this.store := store;
      vm := vmId;
      meta := Metadata(id, vmId, Full, Unfinished, now, [], false, "", "");
    }

    /** Records an image and gives the file it must be written to. */
    method DiskPath(name: string, format: Format) returns (file: string)
      requires Valid()
      modifies this
      ensures Valid() && file == name + "." + FormatText(format) && file != METADATA && file != DOMAIN_XML
      ensures meta == old(meta).(disks := old(meta).disks + [Disk(name, file, format, 0)])
    {
      file := name + "." + FormatText(format);
      assert file[|file| - 1] == FormatText(format)[|FormatText(format)| - 1];
      meta := meta.(disks := meta.disks + [Disk(name, file, format, 0)]);
    }

    method SetDiskSize(name: string, size: nat)
      requires Valid()
      modifies this
      ensures Valid() && meta == old(meta).(disks := meta.disks) && |meta.disks| == |old(meta).disks|
      ensures forall i :: 0 <= i < |meta.disks| ==>
                meta.disks[i] == (var d := old(meta).disks[i]; if d.name == name then d.(sizeBytes := size) else d)
    {
      for i := 0 to |meta.disks|
        invariant meta == old(meta).(disks := meta.disks) && |meta.disks| == |old(meta).disks|
        invariant forall k :: 0 <= k < i ==>
                    meta.disks[k] == (var d := old(meta).disks[k]; if d.name == name then d.(sizeBytes := size) else d)
        invariant forall k :: i <= k < |meta.disks| ==> meta.disks[k] == old(meta).disks[k]
      {
        if meta.disks[i].name == name {
          meta := meta.(disks := meta.disks[i := meta.disks[i].(sizeBytes := size)]);
        }
      }
    }

    method SetDomainXML(has: bool)
      requires Valid()
      modifies this
      ensures Valid() && meta == old(meta).(hasDomainXml := has)
    {
      meta := meta.(hasDomainXml := has);
    }

    /** The callers name a parent; an empty name would break the rule. */
    method SetParent(id: string)
      modifies this
      ensures meta == old(meta).(parentId := id, kind := Incremental)
      ensures old(Valid()) && id != "" ==> Valid()
    {
      meta := meta.(parentId := id);
      meta := meta.(kind := Incremental);
    }

    method SetCheckpoint(name: string)
      requires Valid()
      modifies this
      ensures Valid() && meta == old(meta).(checkpoint := name)
    {
      meta := meta.(checkpoint := name);
    }

    /** Writes a file of the point's folder, which exists; the write may fail. */
    method Write(file: string, text: string, end: WriteEnd) returns (ok: bool)
      requires Position(store.folders, meta.id).Some?
      modifies store
      ensures ok <==> end.Whole?
      ensures store.folders == Attempted(old(store.folders), vm, meta.id, file, text, end)
    {
      if end.Torn? && (end.at.None? || end.at.value > |text|) {
        return false;
      }
      var written := if end.Whole? then text else text[..end.at.value];
      var i := store.Find(meta.id);
      var f := store.folders[i.value];
      store.folders := store.folders[i.value := f.(files := f.files[file := written])];
      ok := end.Whole?;
    }

    method Complete(end: WriteEnd) returns (ok: bool)
      requires Valid() && Position(store.folders, meta.id).Some?
      modifies this, store
      ensures Valid() && meta == old(meta).(state := MetadataText.Complete)
      ensures ok <==> end.Whole?
      ensures store.folders ==
              Attempted(old(store.folders), vm, meta.id, METADATA, Encoded(store.codec, meta), end)
    {
      meta := meta.(state := MetadataText.Complete);
      ok := Write(METADATA, Encoded(store.codec, meta), end);
    }

    method Abort()
      modifies store
      ensures store.folders == Removed(old(store.folders), meta.id)
    {
      var i := store.Find(meta.id);
      if i.Some? {
        store.folders := store.folders[..i.value] + store.folders[i.value + 1..];
      }
    }
  }

  // ---------- images ----------

  /** A file-backed disk, and what its image file holds, if there is one. */
  datatype Source = Source(target: string, image: Option<string>)

  function ImageFile(target: string): (file: string)
    ensures file != METADATA
  {
    var file := target + ".qcow2";
    assert file[|file| - 1] == '2';
    file
  }

  /** The image writes of the first n sources. */
  function Copies(sources: seq<Source>, n: nat): (work: seq<Op>)
    requires n <= |sources|
    ensures IsWork(work)
  {
    if n == 0 then []
    else
      var (before, s) := (Copies(sources, n - 1), sources[n - 1]);
      if s.image.Some? then before + [Put(ImageFile(s.target), s.image.value)] else before
  }

  predicate AllCopied(sources: seq<Source>) {
    forall i :: 0 <= i < |sources| ==> sources[i].image.Some?
  }

  /** Every image exists and is not empty. */
  predicate AllThere(sources: seq<Source>) {
    forall i :: 0 <= i < |sources| ==> sources[i].image.Some? && sources[i].image.value != ""
  }

  /** All the writes of a backup before its descriptor. */
  function Work(sources: seq<Source>, domXml: string): (work: seq<Op>)
    ensures IsWork(work)
  {
    Copies(sources, |sources|) + [Put(DOMAIN_XML, domXml)]
  }

  lemma SameImageFile(a: string, b: string)
    ensures a + ".qcow2" == b + ".qcow2" <==> a == b
  {
    assert a == (a + ".qcow2")[..|a|] && b == (b + ".qcow2")[..|b|];
  }

  /** Every source's image is in the file named after it; of several sources with
      one name the last one's. */
  lemma {:induction false} CopiesHold(sources: seq<Source>, n: nat, k: nat)
    requires k < n <= |sources| && LastFor(sources, n, sources[k].target, k)
    ensures var (files, name) := (Written(Copies(sources, n)), sources[k].target + ".qcow2");
            name in files && files[name] == sources[k].image.value
    decreases n
  {
    var (work, s) := (Copies(sources, n), sources[n - 1]);
    SameImageFile(sources[k].target, s.target);
    if s.image.Some? {
      assert work[..|work| - 1] == Copies(sources, n - 1) && work[|work| - 1] == Put(ImageFile(s.target), s.image.value);
    }
    if k < n - 1 {
      CopiesHold(sources, n - 1, k);
    }
  }

  /** A backup's folder holds the images and the domain's XML. */
  lemma WorkHolds(sources: seq<Source>, domXml: string, k: nat)
    requires k < |sources| && LastFor(sources, |sources|, sources[k].target, k)
    ensures var (files, name) := (Written(Work(sources, domXml)), sources[k].target + ".qcow2");
            && name in files && files[name] == sources[k].image.value
            && "domain.xml" in files && files["domain.xml"] == domXml
  {
    var work := Work(sources, domXml);
    assert work[..|work| - 1] == Copies(sources, |sources|);
    CopiesHold(sources, |sources|, k);
    var name := sources[k].target + ".qcow2";
    assert name[|name| - 1] == '2';
  }

  /** The disks recorded for the first n sources. */
  predicate ImagesOf(disks: seq<Disk>, sources: seq<Source>, n: nat)
    requires n <= |sources|
  {
    && |disks| == n
    && forall i :: 0 <= i < n ==> disks[i].name == sources[i].target && disks[i].file == sources[i].target + ".qcow2"
  }

  lemma ImagesOfNext(disks: seq<Disk>, sources: seq<Source>, n: nat, d: Disk)
    requires n < |sources| && ImagesOf(disks, sources, n)
    requires d.name == sources[n].target && d.file == sources[n].target + ".qcow2"
    ensures ImagesOf(disks + [d], sources, n + 1)
  {
  }

  /** Disks that differ at most in their recorded sizes. */
  predicate SameImages(a: seq<Disk>, b: seq<Disk>) {
    |a| == |b| && forall i :: 0 <= i < |a| ==> a[i].(sizeBytes := b[i].sizeBytes) == b[i]
  }

  /** Of the first n sources, the k-th is the last of its name with an image. */
  predicate LastFor(sources: seq<Source>, n: nat, name: string, k: nat)
    requires n <= |sources|
  {
    && k < n && sources[k].target == name && sources[k].image.Some?
    && forall j :: k < j < n ==> sources[j].target != name || sources[j].image.None?
  }

  predicate Absent(sources: seq<Source>, n: nat, name: string)
    requires n <= |sources|
  {
    forall k :: 0 <= k < n ==> sources[k].target != name || sources[k].image.None?
  }

  /** Every disk with an image among the first n sources has that image's size,
      and every other the size it had. */
  predicate Sized(disks: seq<Disk>, before: seq<Disk>, sources: seq<Source>, n: nat)
    requires n <= |sources| && |disks| == |before|
  {
    forall i :: 0 <= i < |disks| ==>
      && (forall k :: 0 <= k < n && LastFor(sources, n, disks[i].name, k) ==> disks[i].sizeBytes == |sources[k].image.value|)
      && (Absent(sources, n, disks[i].name) ==> disks[i].sizeBytes == before[i].sizeBytes)
  }

  /** The recorded sizes are those of the images. */
  predicate SizesOf(disks: seq<Disk>, sources: seq<Source>) {
    forall i, k :: 0 <= i < |disks| && 0 <= k < |sources| && LastFor(sources, |sources|, disks[i].name, k) ==>
      disks[i].sizeBytes == |sources[k].image.value|
  }

  lemma SizedStep(was: seq<Disk>, now: seq<Disk>, before: seq<Disk>, sources: seq<Source>, n: nat)
    requires n < |sources| && |was| == |now| == |before| && Sized(was, before, sources, n)
    requires forall i :: 0 <= i < |now| ==>
               now[i] == if sources[n].image.Some? && was[i].name == sources[n].target
                         then was[i].(sizeBytes := |sources[n].image.value|) else was[i]
    ensures Sized(now, before, sources, n + 1)
  {
    forall i | 0 <= i < |now|
      ensures forall k :: 0 <= k < n + 1 && LastFor(sources, n + 1, now[i].name, k) ==> now[i].sizeBytes == |sources[k].image.value|
      ensures Absent(sources, n + 1, now[i].name) ==> now[i].sizeBytes == before[i].sizeBytes
    {
      forall k | 0 <= k < n + 1 && LastFor(sources, n + 1, now[i].name, k)
        ensures now[i].sizeBytes == |sources[k].image.value|
      {
        if k < n {
          assert LastFor(sources, n, was[i].name, k);
        }
      }
      if Absent(sources, n + 1, now[i].name) {
        assert Absent(sources, n, was[i].name);
      }
    }
  }

  lemma SizesKeepImages(a: seq<Disk>, b: seq<Disk>, sources: seq<Source>, n: nat)
    requires n <= |sources| && SameImages(a, b) && ImagesOf(a, sources, n)
    ensures ImagesOf(b, sources, n)
  {
    forall i | 0 <= i < n ensures b[i].name == sources[i].target && b[i].file == sources[i].target + ".qcow2" {
      assert a[i].(sizeBytes := b[i].sizeBytes) == b[i];
    }
  }

  /** The point's folder once the images of the first n sources are written. */
  function PartFolder(vm: string, id: string, sources: seq<Source>, n: nat): Folder
    requires n <= |sources|
  {
    Folder(vm, id, Written(Copies(sources, n)))
  }

  lemma PartFolderStep(vm: string, id: string, sources: seq<Source>, n: nat)
    requires n < |sources|
    ensures var (f, s) := (PartFolder(vm, id, sources, n), sources[n]);
            PartFolder(vm, id, sources, n + 1) ==
            if s.image.Some? then f.(files := f.files[ImageFile(s.target) := s.image.value]) else f
  {
    var work := Copies(sources, n + 1);
    if sources[n].image.Some? {
      assert work[..|work| - 1] == Copies(sources, n);
    }
  }

  /** Records the disks of a point. */
  method RecordDisks(pt: Point, sources: seq<Source>)
    requires pt.Valid() && pt.meta.disks == []
    modifies pt
    ensures pt.Valid() && pt.meta == old(pt.meta).(disks := pt.meta.disks)
    ensures ImagesOf(pt.meta.disks, sources, |sources|)
  {
    for i := 0 to |sources|
      invariant pt.Valid() && pt.meta == old(pt.meta).(disks := pt.meta.disks)
      invariant ImagesOf(pt.meta.disks, sources, i)
    {
      ghost var before := pt.meta.disks;
      var file := pt.DiskPath(sources[i].target, Qcow2);
      ImagesOfNext(before, sources, i, Disk(sources[i].target, file, Qcow2, 0));
    }
  }

  /** One image file, if there is one; `lib` is the library without the point's
      folder. */
  method WriteImage(pt: Point, sources: seq<Source>, n: nat, ghost lib: seq<Folder>)
    requires n < |sources| && Position(lib, pt.meta.id).None?
    requires pt.store.folders == lib + [PartFolder(pt.vm, pt.meta.id, sources, n)]
    modifies pt.store
    ensures pt.store.folders == lib + [PartFolder(pt.vm, pt.meta.id, sources, n + 1)]
  {
    PartFolderStep(pt.vm, pt.meta.id, sources, n);
    if sources[n].image.Some? {
      ghost var f := PartFolder(pt.vm, pt.meta.id, sources, n);
      PositionAppend(lib, f);
      PutInLast(lib, f, pt.vm, ImageFile(sources[n].target), sources[n].image.value);
      var ok := pt.Write(ImageFile(sources[n].target), sources[n].image.value, Whole);
    }
  }

  /** The image files that a job writes. */
  method WriteImages(pt: Point, sources: seq<Source>, ghost lib: seq<Folder>)
    requires Position(lib, pt.meta.id).None?
    requires pt.store.folders == lib + [Folder(pt.vm, pt.meta.id, map[])]
    modifies pt.store
    ensures pt.store.folders == lib + [PartFolder(pt.vm, pt.meta.id, sources, |sources|)]
  {
    for i := 0 to |sources|
      invariant pt.store.folders == lib + [PartFolder(pt.vm, pt.meta.id, sources, i)]
    {
      WriteImage(pt, sources, i, lib);
    }
  }

  /** Records disk n and copies its image, unless that fails. */
  method CopyImage(pt: Point, sources: seq<Source>, n: nat, ghost lib: seq<Folder>) returns (ok: bool)
    requires n < |sources| && pt.Valid() && ImagesOf(pt.meta.disks, sources, n) && Position(lib, pt.meta.id).None?
    requires pt.store.folders == lib + [PartFolder(pt.vm, pt.meta.id, sources, n)]
    modifies pt, pt.store
    ensures pt.Valid() && pt.meta == old(pt.meta).(disks := pt.meta.disks)
    ensures ImagesOf(pt.meta.disks, sources, n + 1) && (ok <==> sources[n].image.Some?)
    ensures pt.store.folders == lib + [PartFolder(pt.vm, pt.meta.id, sources, if ok then n + 1 else n)]
  {
    var file := pt.DiskPath(sources[n].target, Qcow2);
    ImagesOfNext(old(pt.meta).disks, sources, n, Disk(sources[n].target, file, Qcow2, 0));
    if sources[n].image.None? {
      return false;
    }
    WriteImage(pt, sources, n, lib);
    ok := true;
  }

  /** Copies the images up to the first that fails, recording each disk first. */
  method CopyImages(pt: Point, sources: seq<Source>, ghost lib: seq<Folder>)
    returns (ok: bool, ghost n: nat)
    requires pt.Valid() && pt.meta.disks == [] && Position(lib, pt.meta.id).None?
    requires pt.store.folders == lib + [Folder(pt.vm, pt.meta.id, map[])]
    modifies pt, pt.store
    ensures pt.Valid() && pt.meta == old(pt.meta).(disks := pt.meta.disks)
    ensures ok <==> AllCopied(sources)
    ensures ok ==> n == |sources| && ImagesOf(pt.meta.disks, sources, n)
    ensures n <= |sources| && pt.store.folders == lib + [PartFolder(pt.vm, pt.meta.id, sources, n)]
  {
    n := 0;
    for i := 0 to |sources|
      invariant pt.Valid() && pt.meta == old(pt.meta).(disks := pt.meta.disks)
      invariant n == i && ImagesOf(pt.meta.disks, sources, i)
      invariant forall k :: 0 <= k < i ==> sources[k].image.Some?
      invariant pt.store.folders == lib + [PartFolder(pt.vm, pt.meta.id, sources, i)]
    {
      ok := CopyImage(pt, sources, i, lib);
      if !ok {
        return;
      }
      n := i + 1;
    }
    ok := true;
  }

  /** The sizes of the images, as stat reports them. */
  method RecordSizes(pt: Point, sources: seq<Source>)
    requires pt.Valid()
    modifies pt
    ensures pt.Valid() && pt.meta == old(pt.meta).(disks := pt.meta.disks)
    ensures SameImages(old(pt.meta).disks, pt.meta.disks)
    ensures Sized(pt.meta.disks, old(pt.meta).disks, sources, |sources|)
  {
    for i := 0 to |sources|
      invariant pt.Valid() && pt.meta == old(pt.meta).(disks := pt.meta.disks)
      invariant SameImages(old(pt.meta).disks, pt.meta.disks)
      invariant Sized(pt.meta.disks, old(pt.meta).disks, sources, i)
    {
      ghost var was := pt.meta.disks;
      if sources[i].image.Some? {
        pt.SetDiskSize(sources[i].target, |sources[i].image.value|);
      }
      SizedStep(was, pt.meta.disks, old(pt.meta).disks, sources, i);
    }
  }

  // ---------- publishing ----------

  /** How the last two writes of a backup end. */
  datatype Ends = Ends(xml: WriteEnd, descriptor: WriteEnd)

  /** What is left when a backup's images are there: everything, nothing, or, if
      only the descriptor's write fails, a folder with a beginning of it. */
  ghost function Outcome(lib: seq<Folder>, vm: string, id: string, work: seq<Op>, text: string, ends: Ends): seq<Folder> {
    if ends.xml.Torn? then lib
    else if ends.descriptor.Whole? then ApplyAll(lib, vm, id, Script(work, text))
    else Crash(lib, vm, id, Script(work, text), |work| + 1, ends.descriptor.at)
  }

  /** However the last two writes end, the point is shown if and only if its
      descriptor was written to the end, after the XML; every other point is
      shown as before. */
  lemma OutcomeShowsOnlyFinished(c: Codec, lib: seq<Folder>, vm: string, id: string, work: seq<Op>, m: Metadata, ends: Ends)
    requires OnlyClosed(c) && ReadsBack(c, m) && m.state.Complete?
    requires IsId(id) && Position(lib, id).None? && IsWork(work)
    ensures var after := Outcome(lib, vm, id, work, Encoded(c, m), ends);
            var finished := ends.xml.Whole? && (ends.descriptor.Whole? || ends.descriptor.at == Some(|Encoded(c, m)|));
            && BackupLibrary.Get(c, after, id) == (if finished then Ok(m) else Err(NotFound))
            && (forall v :: Visible(c, after, v) == Visible(c, lib, v) + if finished && v == vm then [m] else [])
  {
    var ops := Script(work, Encoded(c, m));
    if ends.xml.Torn? {
    } else if ends.descriptor.Whole? {
      assert ops[..|work| + 2] == ops;
      CrashShowsOnlyFinished(c, lib, vm, id, work, m, |work| + 2, None);
    } else {
      CrashShowsOnlyFinished(c, lib, vm, id, work, m, |work| + 1, ends.descriptor.at);
    }
  }

  /** Saves the domain XML in the point's folder f, the last of the library, or
      removes the folder. */
  method SaveDomainXml(pt: Point, domXml: string, end: WriteEnd, ghost lib: seq<Folder>, ghost f: Folder)
    returns (ok: bool)
    requires pt.Valid() && f.vm == pt.vm && f.name == pt.meta.id
    requires Position(lib, pt.meta.id).None? && pt.store.folders == lib + [f]
    modifies pt, pt.store
    ensures pt.Valid() && (ok <==> end.Whole?)
    ensures pt.meta == if ok then old(pt.meta).(hasDomainXml := true) else old(pt.meta)
    ensures pt.store.folders == if ok then lib + [f.(files := f.files[DOMAIN_XML := domXml])] else lib
  {
    PositionAppend(lib, f);
    ghost var g := AttemptInLast(lib, f, pt.vm, DOMAIN_XML, domXml, end);
    ok := pt.Write(DOMAIN_XML, domXml, end);
    if !ok {
      PositionAppend(lib, g);
      pt.Abort();
      return;
    }
    pt.SetDomainXML(true);
  }

  /** Writes the descriptor; a failure leaves what was written of it. */
  method Finish(pt: Point, end: WriteEnd, ghost work: seq<Op>, ghost lib: seq<Folder>) returns (ok: bool)
    requires pt.Valid() && IsWork(work) && Position(lib, pt.meta.id).None?
    requires pt.store.folders == lib + [Folder(pt.vm, pt.meta.id, Written(work))]
    modifies pt, pt.store
    ensures pt.Valid() && pt.meta == old(pt.meta).(state := Complete) && (ok <==> end.Whole?)
    ensures pt.store.folders ==
            Outcome(lib, pt.vm, pt.meta.id, work, Encoded(pt.store.codec, pt.meta), Ends(Whole, end))
  {
    ghost var g := Folder(pt.vm, pt.meta.id, Written(work));
    PositionAppend(lib, g);
    ok := pt.Complete(end);
    AttemptIsCrash(lib, pt.vm, pt.meta.id, work, Encoded(pt.store.codec, pt.meta), end);
  }

  /** From the images on: the XML, the sizes and the descriptor. */
  method Publish(pt: Point, sources: seq<Source>, domXml: string, ends: Ends, ghost lib: seq<Folder>)
    returns (ok: bool)
    requires pt.Valid() && ImagesOf(pt.meta.disks, sources, |sources|) && Position(lib, pt.meta.id).None?
    requires pt.store.folders == lib + [PartFolder(pt.vm, pt.meta.id, sources, |sources|)]
    modifies pt, pt.store
    ensures ok <==> ends.xml.Whole? && ends.descriptor.Whole?
    ensures pt.Valid() && pt.meta.id == old(pt.meta.id)
    ensures ends.xml.Whole? ==> ImagesOf(pt.meta.disks, sources, |sources|) && SizesOf(pt.meta.disks, sources) &&
                                pt.meta == old(pt.meta).(disks := pt.meta.disks, hasDomainXml := true, state := Complete)
    ensures pt.store.folders ==
            Outcome(lib, pt.vm, pt.meta.id, Work(sources, domXml), Encoded(pt.store.codec, pt.meta), ends)
  {
    ghost var f := PartFolder(pt.vm, pt.meta.id, sources, |sources|);
    ok := SaveDomainXml(pt, domXml, ends.xml, lib, f);
    if !ok {
      return;
    }
    ghost var images := pt.meta.disks;
    RecordSizes(pt, sources);
    SizesKeepImages(images, pt.meta.disks, sources, |sources|);
    ghost var work := Work(sources, domXml);
    assert work[..|work| - 1] == Copies(sources, |sources|);
    ok := Finish(pt, ends.descriptor, work, lib);
  }

  /** An offline backup: copies the images, saves the domain XML and publishes;
      removes what it wrote if a copy or the XML fails. */
  method BackupOffline(store: Store, vmId: string, id: string, now: int, sources: seq<Source>, domXml: string, ends: Ends)
    returns (r: Result<Metadata, Failure>, ghost meta: Metadata)
    requires IsId(id) && Position(store.folders, id).None?
    modifies store
    ensures r.Ok? <==> IdSafe(vmId) && AllCopied(sources) && ends == Ends(Whole, Whole)
    ensures r.Err? ==> r.error == if !IdSafe(vmId) then InvalidId else if !AllCopied(sources) then CopyFailed else WriteFailed
    ensures r.Ok? ==> r.value == meta
    ensures !(IdSafe(vmId) && AllCopied(sources)) ==> store.folders == old(store.folders)
    ensures IdSafe(vmId) && AllCopied(sources) ==>
              store.folders ==
              Outcome(old(store.folders), vmId, id, Work(sources, domXml), Encoded(store.codec, meta), ends)
    ensures IdSafe(vmId) && AllCopied(sources) && ends.xml.Whole? ==>
              ImagesOf(meta.disks, sources, |sources|) && SizesOf(meta.disks, sources) &&
              meta == Metadata(id, vmId, Full, Complete, now, meta.disks, true, "", "")
  {
    ghost var lib := store.folders;
    var created := store.Create(vmId, id, now);
    if created.Err? {
      return Err(created.error), Metadata(id, vmId, Full, Unfinished, now, [], false, "", "");
    }
    var pt := created.value;
    var ok, n := CopyImages(pt, sources, lib);
    if !ok {
      PositionAppend(lib, PartFolder(vmId, id, sources, n));
      pt.Abort();
      return Err(CopyFailed), pt.meta;
    }
    ok := Publish(pt, sources, domXml, ends, lib);
    meta := pt.meta;
    r := if ok then Ok(pt.meta) else Err(WriteFailed);
  }

  /** An online backup on a given parent: records the disks, lets the job write
      the images, and publishes if the job was not canceled and left every image;
      otherwise removes what is there. */
  method BackupOnline(store: Store, vmId: string, id: string, now: int, parent: string, checkpoint: string,
                      sources: seq<Source>, canceled: bool, domXml: string, ends: Ends)
    returns (r: Result<Metadata, Failure>, ghost meta: Metadata)
    requires IsId(id) && Position(store.folders, id).None?
    modifies store
    ensures var ran := IdSafe(vmId) && sources != [] && !canceled && AllThere(sources);
            && (r.Ok? <==> ran && ends == Ends(Whole, Whole))
            && (r.Err? ==> r.error == if !IdSafe(vmId) then InvalidId else if !ran then CopyFailed else WriteFailed)
            && (r.Ok? ==> r.value == meta)
            && (!ran ==> store.folders == old(store.folders))
            && (ran ==> store.folders ==
                        Outcome(old(store.folders), vmId, id, Work(sources, domXml), Encoded(store.codec, meta), ends))
            && (ran && ends.xml.Whole? ==>
                  ImagesOf(meta.disks, sources, |sources|) && SizesOf(meta.disks, sources) &&
                  meta == Metadata(id, vmId, if parent == "" then Full else Incremental, Complete, now, meta.disks,
                                   true, parent, checkpoint))
  {
    ghost var lib := store.folders;
    var created := store.Create(vmId, id, now);
    if created.Err? {
      return Err(created.error), Metadata(id, vmId, Full, Unfinished, now, [], false, "", "");
    }
    var pt := created.value;
    if parent != "" {
      pt.SetParent(parent);
    }
    pt.SetCheckpoint(checkpoint);
    RecordDisks(pt, sources);
    meta := pt.meta;
    if |sources| == 0 {
      PositionAppend(lib, Folder(vmId, id, map[]));
      pt.Abort();
      return Err(CopyFailed), meta;
    }
    WriteImages(pt, sources, lib);
    var there := !canceled;
    if there {
      there := ImagesThere(sources);
    }
    if !there {
      PositionAppend(lib, PartFolder(vmId, id, sources, |sources|));
      pt.Abort();
      return Err(CopyFailed), meta;
    }
    var ok := Publish(pt, sources, domXml, ends, lib);
    meta := pt.meta;
    r := if ok then Ok(pt.meta) else Err(WriteFailed);
  }

  /** The check of the image files after the job. */
  method ImagesThere(sources: seq<Source>) returns (all: bool)
    ensures all <==> AllThere(sources)
  {
    for i := 0 to |sources|
      invariant forall k :: 0 <= k < i ==> sources[k].image.Some? && sources[k].image.value != ""
    {
      if sources[i].image.None? || sources[i].image.value == "" {
        return false;
      }
    }
    all := true;
  }
}
