/** The backup library on disk: which points it shows, and what a crash between
    or inside the writes that publish a point leaves visible. */
module BackupLibrary {

  import opened Wrappers
  import opened MetadataText

  // ---------- names ----------

  predicate IsIdChar(c: char) {
    'a' <= c <= 'z' || 'A' <= c <= 'Z' || '0' <= c <= '9' || c in "._-"
  }

  /** bk- followed by 1 to 80 characters of the allowed kind. */
  predicate IsId(s: string) {
    4 <= |s| <= 83 && s[..3] == "bk-" && forall i :: 3 <= i < |s| ==> IsIdChar(s[i])
  }

  function StripSlashes(s: string): string {
    if s != "" && s[|s| - 1] == '/' then StripSlashes(s[..|s| - 1]) else s
  }

  function AfterSlash(s: string): string {
    if s == "" || s[|s| - 1] == '/' then "" else AfterSlash(s[..|s| - 1]) + [s[|s| - 1]]
  }

  /** The last element of a path, as filepath.Base gives it. */
  function BaseName(path: string): string {
    if path == "" then "."
    else if StripSlashes(path) == "" then "/"
    else AfterSlash(StripSlashes(path))
  }

  predicate IdSafe(name: string) {
    name == BaseName(name) && name != "." && name != ".." && name != ""
  }

  lemma {:induction false} NoSlash(s: string)
    requires '/' !in s
    ensures StripSlashes(s) == s && AfterSlash(s) == s
  {
    if s != "" {
      NoSlash(s[..|s| - 1]);
    }
  }

  lemma {:induction false} AfterSlashHasNone(s: string)
    ensures '/' !in AfterSlash(s)
  {
    if s != "" {
      AfterSlashHasNone(s[..|s| - 1]);
    }
  }

  /** The names accepted for a VM's directory are those of a single path element,
      and also the root. */
  lemma IdSafeIff(name: string)
    ensures IdSafe(name) <==>
              name == "/" || (name != "" && '/' !in name && name != "." && name != "..")
  {
    if '/' !in name {
      NoSlash(name);
    } else {
      AfterSlashHasNone(StripSlashes(name));
      if name == "/" {
        assert name[..0] == "" && StripSlashes(name) == StripSlashes(name[..0]);
      }
    }
  }

  // ---------- what is shown ----------

  /** The formatter of time stamps and the JSON reader. */
  datatype Codec = Codec(stamp: int -> string, parse: string -> Option<Metadata>)

  function Encoded(c: Codec, m: Metadata): string {
    Text(m, c.stamp(m.createdAt))
  }

  /** A JSON reader takes only texts whose brackets close. */
  ghost predicate OnlyClosed(c: Codec) {
    forall t :: c.parse(t).Some? ==> Closed(t)
  }

  predicate ReadsBack(c: Codec, m: Metadata) {
    c.parse(Encoded(c, m)) == Some(m)
  }

  datatype Folder = Folder(vm: string, name: string, files: map<string, string>)

  datatype Failure = NotFound | InvalidId | CopyFailed | WriteFailed

  const METADATA := "metadata.json"
  const DOMAIN_XML := "domain.xml"

  /** The first folder with the name, under any VM. */
  function Position(lib: seq<Folder>, id: string): (i: Option<nat>)
    ensures i.Some? ==> i.value < |lib| && lib[i.value].name == id
  {
    if lib == [] then None
    else if lib[0].name == id then Some(0)
    else match Position(lib[1..], id)
      case Some(i) => Some(i + 1)
      case None => None
  }

  function Loaded(c: Codec, f: Folder): Option<Metadata> {
    if METADATA in f.files then c.parse(f.files[METADATA]) else None
  }

  function Shown(c: Codec, f: Folder): Option<Metadata> {
    var m := Loaded(c, f);
    if m.Some? && m.value.state.Complete? then m else None
  }

  function Get(c: Codec, lib: seq<Folder>, id: string): Result<Metadata, Failure> {
    if !IsId(id) then Err(InvalidId)
    else
      var i := Position(lib, id);
      if i.None? || Shown(c, lib[i.value]).None? then Err(NotFound)
      else Ok(Shown(c, lib[i.value]).value)
  }

  /** The points List collects for a VM, before it sorts them. */
  function Visible(c: Codec, lib: seq<Folder>, vm: string): seq<Metadata> {
    if lib == [] then []
    else
      var (rest, f) := (Visible(c, lib[..|lib| - 1], vm), lib[|lib| - 1]);
      if f.vm == vm && IsId(f.name) && Shown(c, f).Some? then rest + [Shown(c, f).value] else rest
  }

  // ---------- writing ----------

  /** One change to a point's folder. */
  datatype Op = Mkdir | Put(file: string, text: string)

  function Apply(lib: seq<Folder>, vm: string, id: string, op: Op): seq<Folder> {
    match op
    case Mkdir => lib + [Folder(vm, id, map[])]
    case Put(file, text) =>
      var i := Position(lib, id);
      if i.None? then lib
      else lib[i.value := lib[i.value].(files := lib[i.value].files[file := text])]
  }

  function ApplyAll(lib: seq<Folder>, vm: string, id: string, ops: seq<Op>): seq<Folder> {
    if ops == [] then lib
    else Apply(ApplyAll(lib, vm, id, ops[..|ops| - 1]), vm, id, ops[|ops| - 1])
  }

  /** How a write ends: with the whole text, or failing with nothing or a beginning
      of it in the file. */
  datatype WriteEnd = Whole | Torn(at: Option<nat>)

  function Attempted(lib: seq<Folder>, vm: string, id: string, file: string, text: string, end: WriteEnd): seq<Folder> {
    if end.Whole? then Apply(lib, vm, id, Put(file, text))
    else if end.at.Some? && end.at.value <= |text| then Apply(lib, vm, id, Put(file, text[..end.at.value]))
    else lib
  }

  /** Removing a point's folder. */
  function Removed(lib: seq<Folder>, id: string): seq<Folder> {
    var i := Position(lib, id);
    if i.None? then lib else lib[..i.value] + lib[i.value + 1..]
  }

  /** Publishing a point: its folder, then any writes of images and domain.xml,
      whole or piece by piece, then the descriptor. */
  function Script(work: seq<Op>, text: string): seq<Op> {
    [Mkdir] + work + [Put(METADATA, text)]
  }

  predicate IsWork(work: seq<Op>) {
    forall i :: 0 <= i < |work| ==> work[i].Put? && work[i].file != METADATA
  }

  /** The files that a sequence of writes leaves. */
  function Written(work: seq<Op>): map<string, string> {
    if work == [] then map[]
    else
      var last := work[|work| - 1];
      if last.Put? then Written(work[..|work| - 1])[last.file := last.text]
      else Written(work[..|work| - 1])
  }

  /** The library after a crash: k operations are done; a write that follows may
      have opened its file and left a beginning of its text there. */
  function Crash(lib: seq<Folder>, vm: string, id: string, ops: seq<Op>, k: nat, torn: Option<nat>): seq<Folder>
    requires k <= |ops|
  {
    var done := ApplyAll(lib, vm, id, ops[..k]);
    if k < |ops| && ops[k].Put? && torn.Some? && torn.value <= |ops[k].text| then
      Apply(done, vm, id, Put(ops[k].file, ops[k].text[..torn.value]))
    else done
  }

  // ---------- proofs ----------

  lemma {:induction false} PositionAppend(lib: seq<Folder>, f: Folder)
    requires Position(lib, f.name).None?
    ensures Position(lib + [f], f.name) == Some(|lib|)
  {
    if lib != [] {
      PositionAppend(lib[1..], f);
      assert (lib + [f])[1..] == lib[1..] + [f];
    }
  }

  lemma {:induction false} PositionOther(lib: seq<Folder>, f: Folder, other: string)
    requires other != f.name
    ensures Position(lib + [f], other) == Position(lib, other)
  {
    if lib != [] {
      PositionOther(lib[1..], f, other);
      assert (lib + [f])[1..] == lib[1..] + [f];
    } else {
      assert (lib + [f])[1..] == [];
    }
  }

  lemma PutInLast(lib: seq<Folder>, f: Folder, vm: string, file: string, text: string)
    requires Position(lib, f.name).None?
    ensures Apply(lib + [f], vm, f.name, Put(file, text)) == lib + [f.(files := f.files[file := text])]
  {
    PositionAppend(lib, f);
  }

  /** After its folder is made, a point's writes change nothing but that folder. */
  lemma {:induction false} WorkInFolder(lib: seq<Folder>, vm: string, id: string, work: seq<Op>)
    requires Position(lib, id).None? && IsWork(work)
    ensures ApplyAll(lib, vm, id, [Mkdir] + work) == lib + [Folder(vm, id, Written(work))]
  {
    var ops := [Mkdir] + work;
    if work == [] {
      assert ops[..0] == [];
    } else {
      var init := work[..|work| - 1];
      WorkInFolder(lib, vm, id, init);
      assert ops[..|ops| - 1] == [Mkdir] + init;
      PutInLast(lib, Folder(vm, id, Written(init)), vm, work[|work| - 1].file, work[|work| - 1].text);
    }
  }

  lemma {:induction false} WrittenHasNoMetadata(work: seq<Op>)
    requires IsWork(work)
    ensures METADATA !in Written(work)
  {
    if work != [] {
      WrittenHasNoMetadata(work[..|work| - 1]);
    }
  }

  lemma WholeScript(lib: seq<Folder>, vm: string, id: string, work: seq<Op>, text: string)
    requires Position(lib, id).None? && IsWork(work)
    ensures ApplyAll(lib, vm, id, Script(work, text)) ==
            lib + [Folder(vm, id, Written(work)[METADATA := text])]
  {
    var ops := Script(work, text);
    assert ops[..|ops| - 1] == [Mkdir] + work;
    WorkInFolder(lib, vm, id, work);
    PutInLast(lib, Folder(vm, id, Written(work)), vm, METADATA, text);
  }

  /** A crash before the descriptor is opened leaves no descriptor. */
  lemma CrashBeforeMetadata(lib: seq<Folder>, vm: string, id: string, work: seq<Op>, text: string,
                            k: nat, torn: Option<nat>)
    returns (files: map<string, string>)
    requires Position(lib, id).None? && IsWork(work)
    requires 1 <= k <= |work| || (k == |work| + 1 && torn.None?)
    ensures Crash(lib, vm, id, Script(work, text), k, torn) == lib + [Folder(vm, id, files)]
    ensures METADATA !in files
  {
    var ops := Script(work, text);
    var done := work[..k - 1];
    assert ops[..k] == [Mkdir] + done;
    WorkInFolder(lib, vm, id, done);
    WrittenHasNoMetadata(done);
    files := Written(done);
    if k <= |work| && torn.Some? && torn.value <= |ops[k].text| {
      assert ops[k] == work[k - 1];
      PutInLast(lib, Folder(vm, id, files), vm, ops[k].file, ops[k].text[..torn.value]);
      files := files[ops[k].file := ops[k].text[..torn.value]];
    }
  }

  /** A crash while the descriptor is written leaves a beginning of it. */
  lemma CrashInMetadata(lib: seq<Folder>, vm: string, id: string, work: seq<Op>, text: string, cut: nat)
    requires Position(lib, id).None? && IsWork(work) && cut <= |text|
    ensures Crash(lib, vm, id, Script(work, text), |work| + 1, Some(cut)) ==
            lib + [Folder(vm, id, Written(work)[METADATA := text[..cut]])]
  {
    var ops := Script(work, text);
    assert ops[..|work| + 1] == [Mkdir] + work && ops[|work| + 1] == Put(METADATA, text);
    WorkInFolder(lib, vm, id, work);
    PutInLast(lib, Folder(vm, id, Written(work)), vm, METADATA, text[..cut]);
  }

  /** An attempt to write a file of the last folder changes that folder alone. */
  lemma AttemptInLast(lib: seq<Folder>, f: Folder, vm: string, file: string, text: string, end: WriteEnd)
    returns (g: Folder)
    requires Position(lib, f.name).None?
    ensures g.name == f.name && Attempted(lib + [f], vm, f.name, file, text, end) == lib + [g]
    ensures end.Whole? ==> g == f.(files := f.files[file := text])
  {
    PutInLast(lib, f, vm, file, text);
    g := f;
    if end.Torn? && end.at.Some? && end.at.value <= |text| {
      PutInLast(lib, f, vm, file, text[..end.at.value]);
      g := f.(files := f.files[file := text[..end.at.value]]);
    } else if end.Whole? {
      g := f.(files := f.files[file := text]);
    }
  }

  /** A failing write of the descriptor leaves what a crash inside it leaves. */
  lemma AttemptIsCrash(lib: seq<Folder>, vm: string, id: string, work: seq<Op>, text: string, end: WriteEnd)
    requires Position(lib, id).None? && IsWork(work)
    ensures Attempted(lib + [Folder(vm, id, Written(work))], vm, id, METADATA, text, end) ==
            if end.Whole? then ApplyAll(lib, vm, id, Script(work, text))
            else Crash(lib, vm, id, Script(work, text), |work| + 1, end.at)
  {
    var ops := Script(work, text);
    assert ops[..|work| + 1] == [Mkdir] + work && ops[|work| + 1] == Put(METADATA, text);
    assert ops[..|ops| - 1] == [Mkdir] + work && ops[|ops| - 1] == Put(METADATA, text);
    WorkInFolder(lib, vm, id, work);
  }

  /** What one more folder adds to what is shown. */
  lemma FolderShown(c: Codec, lib: seq<Folder>, f: Folder)
    requires Position(lib, f.name).None? && IsId(f.name)
    ensures Get(c, lib + [f], f.name) == if Shown(c, f).Some? then Ok(Shown(c, f).value) else Err(NotFound)
    ensures forall other | other != f.name :: Get(c, lib + [f], other) == Get(c, lib, other)
    ensures forall v :: Visible(c, lib + [f], v) ==
              Visible(c, lib, v) + if Shown(c, f).Some? && v == f.vm then [Shown(c, f).value] else []
  {
    PositionAppend(lib, f);
    forall other | other != f.name ensures Get(c, lib + [f], other) == Get(c, lib, other) {
      PositionOther(lib, f, other);
    }
    assert (lib + [f])[..|lib|] == lib;
  }

  /** Whether the script ran to its end. */
  predicate Finished(work: seq<Op>, text: string, k: nat, torn: Option<nat>) {
    k == |work| + 2 || (k == |work| + 1 && torn == Some(|text|))
  }

  lemma TornDescriptor(c: Codec, m: Metadata, f: Folder, cut: nat)
    requires OnlyClosed(c) && ReadsBack(c, m) && m.state.Complete?
    requires cut <= |Encoded(c, m)|
    requires METADATA in f.files && f.files[METADATA] == Encoded(c, m)[..cut]
    ensures Shown(c, f) == if cut == |Encoded(c, m)| then Some(m) else None
  {
    TornIsNeverClosed(m, c.stamp(m.createdAt), cut);
    if cut == |Encoded(c, m)| {
      assert Encoded(c, m)[..cut] == Encoded(c, m);
    }
  }

  /** The library after a crash is the old one, perhaps with the point's folder. */
  lemma CrashShape(c: Codec, lib: seq<Folder>, vm: string, id: string, work: seq<Op>, m: Metadata,
                   k: nat, torn: Option<nat>)
    returns (f: Folder)
    requires OnlyClosed(c) && ReadsBack(c, m) && m.state.Complete?
    requires Position(lib, id).None? && IsWork(work) && 1 <= k <= |work| + 2
    ensures Crash(lib, vm, id, Script(work, Encoded(c, m)), k, torn) == lib + [f]
    ensures f.vm == vm && f.name == id
    ensures Shown(c, f) == if Finished(work, Encoded(c, m), k, torn) then Some(m) else None
    ensures Shown(c, f).Some? ==> f.files == Written(work)[METADATA := Encoded(c, m)]
  {
    var text := Encoded(c, m);
    var ops := Script(work, text);
    if k == |work| + 2 {
      assert ops[..k] == ops;
      WholeScript(lib, vm, id, work, text);
      f := Folder(vm, id, Written(work)[METADATA := text]);
    } else if k == |work| + 1 && torn.Some? && torn.value <= |text| {
      CrashInMetadata(lib, vm, id, work, text, torn.value);
      f := Folder(vm, id, Written(work)[METADATA := text[..torn.value]]);
      TornDescriptor(c, m, f, torn.value);
      if torn.value == |text| {
        assert text[..torn.value] == text;
      }
    } else {
      var files := CrashBeforeMetadata(lib, vm, id, work, text, k, if k <= |work| then torn else None);
      f := Folder(vm, id, files);
      assert Crash(lib, vm, id, ops, k, torn) == lib + [f];
    }
  }

  /** Stopping after any number of the writes that publish a point, even inside
      one: the point is shown if and only if all of them finished, with every
      image and the domain XML as written last; every other point is shown as
      before. */
  lemma CrashShowsOnlyFinished(c: Codec, lib: seq<Folder>, vm: string, id: string, work: seq<Op>, m: Metadata,
                               k: nat, torn: Option<nat>)
    requires OnlyClosed(c) && ReadsBack(c, m) && m.state.Complete?
    requires IsId(id) && Position(lib, id).None? && IsWork(work) && k <= |work| + 2
    ensures var after := Crash(lib, vm, id, Script(work, Encoded(c, m)), k, torn);
            var finished := Finished(work, Encoded(c, m), k, torn);
            && Get(c, after, id) == (if finished then Ok(m) else Err(NotFound))
            && (forall other | other != id :: Get(c, after, other) == Get(c, lib, other))
            && (forall v :: Visible(c, after, v) == Visible(c, lib, v) + if finished && v == vm then [m] else [])
            && (finished ==> after == lib + [Folder(vm, id, Written(work)[METADATA := Encoded(c, m)])])
  {
    if k == 0 {
      assert Script(work, Encoded(c, m))[..0] == [];
    } else {
      var f := CrashShape(c, lib, vm, id, work, m, k, torn);
      FolderShown(c, lib, f);
    }
  }

  /** Aborting after any number of writes leaves the library as it was. */
  lemma AbortUndoes(lib: seq<Folder>, vm: string, id: string, work: seq<Op>)
    requires Position(lib, id).None? && IsWork(work)
    ensures Removed(ApplyAll(lib, vm, id, [Mkdir] + work), id) == lib
  {
    var f := Folder(vm, id, Written(work));
    WorkInFolder(lib, vm, id, work);
    PositionAppend(lib, f);
    assert (lib + [f])[..|lib|] + (lib + [f])[|lib| + 1..] == lib;
  }

  // ---------- newest first ----------

  predicate NewestFirst(ms: seq<Metadata>) {
    forall i, j :: 0 <= i < j < |ms| ==> ms[i].createdAt >= ms[j].createdAt
  }

  /** The place of a point among points listed newest first. */
  function Insert(ms: seq<Metadata>, m: Metadata): seq<Metadata> {
    if ms == [] || ms[0].createdAt < m.createdAt then [m] + ms else [ms[0]] + Insert(ms[1..], m)
  }

  lemma {:induction false} InsertAdds(ms: seq<Metadata>, m: Metadata)
    ensures multiset(Insert(ms, m)) == multiset(ms) + multiset{m}
  {
    if ms != [] && ms[0].createdAt >= m.createdAt {
      InsertAdds(ms[1..], m);
      assert ms == [ms[0]] + ms[1..];
    }
  }

  predicate NoneNewer(ms: seq<Metadata>, time: int) {
    forall i :: 0 <= i < |ms| ==> ms[i].createdAt <= time
  }

  lemma {:induction false} InsertKeepsOrder(ms: seq<Metadata>, m: Metadata)
    requires NewestFirst(ms)
    ensures NewestFirst(Insert(ms, m))
    ensures forall t :: NoneNewer(ms, t) && m.createdAt <= t ==> NoneNewer(Insert(ms, m), t)
  {
    if ms != [] && ms[0].createdAt >= m.createdAt {
      InsertKeepsOrder(ms[1..], m);
      assert NoneNewer(ms[1..], ms[0].createdAt);
      assert NoneNewer(Insert(ms[1..], m), ms[0].createdAt);
      forall t | NoneNewer(ms, t) && m.createdAt <= t ensures NoneNewer(Insert(ms, m), t) {
        assert NoneNewer(ms[1..], t) && ms[0].createdAt <= t;
      }
    }
  }

  predicate DistinctTimes(ms: seq<Metadata>) {
    forall i, j :: 0 <= i < j < |ms| ==> ms[i].createdAt != ms[j].createdAt
  }

  lemma NewestIsFirst(a: seq<Metadata>, b: seq<Metadata>)
    requires NewestFirst(a) && NewestFirst(b) && DistinctTimes(a) && a != [] && b != []
    requires a[0] in b && b[0] in a
    ensures a[0] == b[0]
  {
    var i :| 0 <= i < |a| && a[i] == b[0];
    var j :| 0 <= j < |b| && b[j] == a[0];
    assert a[i].createdAt == a[0].createdAt;
  }

  lemma TailMultiset(a: seq<Metadata>)
    requires a != []
    ensures multiset(a[1..]) == multiset(a) - multiset{a[0]}
  {
    assert a == [a[0]] + a[1..];
  }

  /** Points of different times have only one newest-first order. */
  lemma {:induction false} OrderIsUnique(a: seq<Metadata>, b: seq<Metadata>)
    requires NewestFirst(a) && NewestFirst(b) && DistinctTimes(a)
    requires multiset(a) == multiset(b)
    ensures a == b
  {
    if a == [] {
      assert |multiset(b)| == 0;
    } else {
      assert a[0] in multiset(b);
      assert b[0] in multiset(a);
      NewestIsFirst(a, b);
      TailMultiset(a);
      TailMultiset(b);
      OrderIsUnique(a[1..], b[1..]);
    }
  }
}
