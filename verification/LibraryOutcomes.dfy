/** Which names the library accepts for points, and which folders it shows, said of
    the folders and their descriptors. */
module LibraryOutcomes {
  import opened Wrappers
  import opened MetadataText
  import opened BackupLibrary

  // ---------- names ----------

  predicate IsBody(body: string) {
    1 <= |body| <= 80 && forall i :: 0 <= i < |body| ==> IsIdChar(body[i])
  }

  lemma IdOfBody(body: string)
    ensures IsId("bk-" + body) <==> IsBody(body)
  {
    var s := "bk-" + body;
    assert s[..3] == "bk-" && s[3..] == body;
    assert forall i :: 3 <= i < |s| ==> s[i] == body[i - 3];
    assert forall i :: 0 <= i < |body| ==> body[i] == s[i + 3];
  }

  /** A point's id is bk- and one to eighty letters, digits, dots, underscores or
      dashes; so it is a single path element, and never . or .. */
  lemma IdsAreNames(s: string)
    ensures IsId(s) <==> exists body :: s == "bk-" + body && IsBody(body)
    ensures IsId(s) ==> IdSafe(s) && s != "/"
  {
    forall body | s == "bk-" + body ensures IsId(s) <==> IsBody(body) {
      IdOfBody(body);
    }
    if IsId(s) {
      assert s == "bk-" + s[3..];
      assert '/' !in s;
      IdSafeIff(s);
    }
  }

  predicate AllDigits(s: string) {
    forall i :: 0 <= i < |s| ==> '0' <= s[i] <= '9'
  }

  predicate AllHex(s: string) {
    forall i :: 0 <= i < |s| ==> '0' <= s[i] <= '9' || 'a' <= s[i] <= 'f'
  }

  /** The ids that are generated, of a date, a time and four random hex digits, are
      accepted. */
  lemma GeneratedIdsAreIds(date: string, time: string, random: string)
    requires |date| == 8 && |time| == 6 && |random| == 4 && AllDigits(date) && AllDigits(time) && AllHex(random)
    ensures IsId("bk-" + date + "-" + time + "-" + random)
  {
    var body := date + "-" + time + "-" + random;
    assert "bk-" + date + "-" + time + "-" + random == "bk-" + body;
    forall i | 0 <= i < |body| ensures IsIdChar(body[i]) {
    }
    IdOfBody(body);
  }

  const LOWER := "abcdefghijklmnopqrstuvwxyz"
  const UPPER := "ABCDEFGHIJKLMNOPQRSTUVWXYZ"

  lemma LowerAre(c: char)
    ensures c in LOWER <==> 'a' <= c <= 'z'
  {
    if 'a' <= c <= 'z' {
      assert LOWER[c as int - 'a' as int] == c;
    }
  }

  lemma UpperAre(c: char)
    ensures c in UPPER <==> 'A' <= c <= 'Z'
  {
    if 'A' <= c <= 'Z' {
      assert UPPER[c as int - 'A' as int] == c;
    }
  }

  /** The characters of an id, one by one. */
  lemma IdCharIff(c: char)
    ensures IsIdChar(c) <==> c in LOWER || c in UPPER || c in "0123456789._-"
  {
    LowerAre(c);
    UpperAre(c);
  }

  // ---------- what is shown ----------

  /** A folder with a complete descriptor that the reader reads as m. */
  predicate Holds(c: Codec, f: Folder, m: Metadata) {
    "metadata.json" in f.files && c.parse(f.files["metadata.json"]) == Some(m) && m.state == Complete
  }

  lemma ShownIff(c: Codec, f: Folder)
    ensures forall m :: Shown(c, f) == Some(m) <==> Holds(c, f, m)
  {
  }

  /** Of the VM's folders with an accepted name, a point is shown for each complete
      descriptor and for nothing else. */
  lemma {:induction false} VisibleIff(c: Codec, lib: seq<Folder>, vm: string, m: Metadata)
    ensures m in Visible(c, lib, vm) <==>
            exists i :: 0 <= i < |lib| && lib[i].vm == vm && IsId(lib[i].name) && Holds(c, lib[i], m)
  {
    if lib != [] {
      var (init, n) := (lib[..|lib| - 1], |lib| - 1);
      VisibleIff(c, init, vm, m);
      ShownIff(c, lib[n]);
      assert forall i :: 0 <= i < n ==> init[i] == lib[i];
      if i :| 0 <= i < n && init[i].vm == vm && IsId(init[i].name) && Holds(c, init[i], m) {
        assert lib[i].vm == vm && IsId(lib[i].name) && Holds(c, lib[i], m);
      }
      if i :| 0 <= i < |lib| && lib[i].vm == vm && IsId(lib[i].name) && Holds(c, lib[i], m) {
        assert i < n ==> init[i].vm == vm && IsId(init[i].name) && Holds(c, init[i], m);
      }
    }
  }

  /** The first folder with the name. */
  predicate First(lib: seq<Folder>, id: string, i: nat) {
    i < |lib| && lib[i].name == id && forall j :: 0 <= j < i ==> lib[j].name != id
  }

  lemma {:induction false} PositionIff(lib: seq<Folder>, id: string)
    ensures forall i: nat :: First(lib, id, i) <==> Position(lib, id) == Some(i)
    ensures Position(lib, id) == None <==> forall j :: 0 <= j < |lib| ==> lib[j].name != id
  {
    if lib != [] {
      var rest := lib[1..];
      PositionIff(rest, id);
      assert forall j :: 0 <= j < |rest| ==> rest[j] == lib[j + 1];
      forall i: nat ensures First(lib, id, i) <==> Position(lib, id) == Some(i) {
        if i > 0 && lib[0].name != id {
          assert First(rest, id, i - 1) <==> First(lib, id, i);
        }
      }
    }
  }

  /** Looking a point up by id, under whatever VM: a malformed id is refused before
      anything is looked for, and a point is found exactly when the first folder of
      that name holds a complete descriptor. */
  lemma GetIff(c: Codec, lib: seq<Folder>, id: string)
    ensures Get(c, lib, id) == Err(InvalidId) <==> !IsId(id)
    ensures forall m :: Get(c, lib, id) == Ok(m) <==>
              IsId(id) && exists i: nat | i < |lib| :: First(lib, id, i) && Holds(c, lib[i], m)
    ensures Get(c, lib, id).Err? ==> Get(c, lib, id).error in {InvalidId, NotFound}
  {
    PositionIff(lib, id);
    forall m
      ensures Get(c, lib, id) == Ok(m) <==>
              IsId(id) && exists i: nat | i < |lib| :: First(lib, id, i) && Holds(c, lib[i], m)
    {
      if Position(lib, id).Some? {
        var i := Position(lib, id).value;
        assert First(lib, id, i);
        ShownIff(c, lib[i]);
      }
    }
  }

  /** Removing takes the first folder of that name and no other. */
  lemma RemovedIff(lib: seq<Folder>, id: string, i: nat)
    ensures First(lib, id, i) ==> Removed(lib, id) == lib[..i] + lib[i + 1..]
    ensures (forall j :: 0 <= j < |lib| ==> lib[j].name != id) ==> Removed(lib, id) == lib
  {
    PositionIff(lib, id);
  }
}
