/** For which spellings of a path the reported place on the host is right. The
    mount is searched with the cleaned path, but its prefix is trimmed from the
    path as it was given. */
module MountTranslation {
  import opened Wrappers
  import opened MountTable
  import opened MountLookup

  // ---------- what a text adds to the names before it ----------

  /** How far the parts climb above their start, and the names they end with. */
  function Net(parts: seq<string>, own: seq<string>, climbed: nat): (nat, seq<string>)
    decreases |parts|
  {
    if parts == [] then (climbed, own)
    else if parts[0] == "" || parts[0] == "." then Net(parts[1..], own, climbed)
    else if parts[0] != ".." then Net(parts[1..], own + [parts[0]], climbed)
    else if own != [] then Net(parts[1..], own[..|own| - 1], climbed)
    else Net(parts[1..], [], climbed + 1)
  }

  function Climb(text: string): nat {
    Net(Parts(text, ""), [], 0).0
  }

  function Ends(text: string): seq<string> {
    Net(Parts(text, ""), [], 0).1
  }

  /** The names left after climbing, and those climbed over. */
  function Kept(base: seq<string>, climbed: nat): seq<string> {
    if climbed >= |base| then [] else base[..|base| - climbed]
  }

  function Left(base: seq<string>, climbed: nat): seq<string> {
    base[|Kept(base, climbed)|..]
  }

  predicate NoSlashes(parts: seq<string>) {
    forall i :: 0 <= i < |parts| ==> '/' !in parts[i]
  }

  lemma {:induction false} PartsHaveNoSlash(s: string, part: string)
    requires '/' !in part
    ensures NoSlashes(Parts(s, part))
    decreases |s|
  {
    if s != "" {
      PartsHaveNoSlash(s[1..], if s[0] == '/' then "" else part + [s[0]]);
    }
  }

  /** Resolving on top of any names keeps them except for those climbed over. */
  lemma {:induction false} ResolveIsNet(parts: seq<string>, base: seq<string>, own: seq<string>, climbed: nat)
    requires NoSlashes(parts) && AreNames(base) && AreNames(own)
    ensures var (k, ends) := Net(parts, own, climbed);
            AreNames(ends) && Resolve(parts, true, Kept(base, climbed) + own) == Kept(base, k) + ends
    decreases |parts|
  {
    if parts == [] {
    } else {
      var (p, rest, stack) := (parts[0], parts[1..], Kept(base, climbed) + own);
      if p == "" || p == "." {
        ResolveIsNet(rest, base, own, climbed);
      } else if p != ".." {
        assert stack + [p] == Kept(base, climbed) + (own + [p]);
        ResolveIsNet(rest, base, own + [p], climbed);
      } else if own != [] {
        assert stack[|stack| - 1] == own[|own| - 1] && own[|own| - 1] in own;
        assert stack[..|stack| - 1] == Kept(base, climbed) + own[..|own| - 1];
        ResolveIsNet(rest, base, own[..|own| - 1], climbed);
      } else {
        assert stack == Kept(base, climbed);
        assert Kept(base, climbed + 1) + [] == Kept(base, climbed + 1);
        if stack != [] {
          assert stack[|stack| - 1] in base;
          assert stack[..|stack| - 1] == Kept(base, climbed + 1);
        }
        ResolveIsNet(rest, base, [], climbed + 1);
      }
    }
  }

  lemma TextIsNet(text: string, base: seq<string>)
    requires AreNames(base)
    ensures AreNames(Ends(text)) && ResolveText(text, "", base) == Kept(base, Climb(text)) + Ends(text)
  {
    PartsHaveNoSlash(text, "");
    ResolveIsNet(Parts(text, ""), base, [], 0);
    assert Kept(base, 0) + [] == base;
  }

  // ---------- the reported place ----------

  predicate OnHost(m: MountEntry) {
    m.fsType != "overlay" && m.fsType != "tmpfs" && m.fsType != "ramfs"
  }

  /** The mount shows `root` of the host at `at`. */
  ghost predicate Shows(m: MountEntry, root: seq<string>, at: seq<string>) {
    AreNames(root) && AreNames(at) && m.root == Absolute(root) && m.mountPoint == Absolute(at) && OnHost(m)
  }

  lemma JoinIsNet(root: seq<string>, rest: string)
    requires AreNames(root)
    ensures AreNames(Kept(root, Climb(rest)) + Ends(rest))
    ensures JoinPaths(Absolute(root), rest) == Absolute(Kept(root, Climb(rest)) + Ends(rest))
  {
    TextIsNet(rest, root);
    if rest == "" {
      CleanOfJoin(root, []);
      assert Parts("", "") == [""] && Net([""], [], 0) == Net([""][1..], [], 0) == (0, []);
      assert Kept(root, 0) + [] == root;
    } else {
      WalkInto(root, rest);
    }
  }

  lemma KeptAndLeft(root: seq<string>, k: nat, ends: seq<string>, below: seq<string>)
    ensures Kept(root, k) + ends == root + below <==> ends == Left(root, k) + below
  {
    var (kept, left) := (Kept(root, k), Left(root, k));
    assert root == kept + left;
    if kept + ends == root + below {
      assert ends == (kept + ends)[|kept|..] == (kept + left + below)[|kept|..] == left + below;
    }
    if ends == left + below {
      assert kept + (left + below) == (kept + left) + below;
    }
  }

  /** Any spelling of an absolute path is reported like the clean path if and only
      if the text left after trimming ends with the names that it climbs over in
      the mount's root, followed by those below the mount point. */
  lemma ReportedRightIff(raw: string, m: MountEntry, root: seq<string>, at: seq<string>, below: seq<string>)
    requires raw != "" && raw[0] == '/' && Shows(m, root, at) && AreNames(below)
    requires Clean(raw) == Absolute(at + below)
    ensures var rest := TrimPrefix(raw, m.mountPoint);
            InspectFound(raw, m) == InspectFound(Clean(raw), m) <==> Ends(rest) == Left(root, Climb(rest)) + below
  {
    var rest := TrimPrefix(raw, m.mountPoint);
    var names := Kept(root, Climb(rest)) + Ends(rest);
    JoinIsNet(root, rest);
    assert AreNames(at + below) && AreNames(root + below);
    CleanPathsTranslate(m, root, at, below);
    AbsoluteIsInjective(names, root + below);
    AbsoluteIsInjective(names, at + below);
    AbsoluteIsInjective(root + below, at + below);
    if root + below == at + below {
      assert root == (root + below)[..|root|] && at == (at + below)[..|root|];
    }
    assert InspectFound(raw, m) == if names == at + below then Same else Elsewhere(Absolute(names));
    KeptAndLeft(root, Climb(rest), Ends(rest), below);
  }

  // ---------- paths without ".." ----------

  predicate NoDots(text: string) {
    ".." !in Parts(text, "")
  }

  lemma {:induction false} NetWithoutDots(parts: seq<string>, own: seq<string>, climbed: nat)
    requires ".." !in parts
    ensures Net(parts, own, climbed) == (climbed, own + Net(parts, [], 0).1)
    decreases |parts|
  {
    if parts != [] {
      var rest := parts[1..];
      assert ".." !in rest && parts[0] in parts;
      if parts[0] == "" || parts[0] == "." {
        NetWithoutDots(rest, own, climbed);
      } else {
        NetWithoutDots(rest, own + [parts[0]], climbed);
        NetWithoutDots(rest, [parts[0]], 0);
        assert [] + [parts[0]] == [parts[0]];
        assert own + [parts[0]] + Net(rest, [], 0).1 == own + ([parts[0]] + Net(rest, [], 0).1);
      }
    } else {
      assert own + [] == own;
    }
  }

  lemma {:induction false} PartsSplit(a: string, b: string, part: string)
    ensures Parts(a + "/" + b, part) == Parts(a, part) + Parts(b, "")
    decreases |a|
  {
    var s := a + "/" + b;
    if a == "" {
      assert s[1..] == b;
    } else {
      assert s[1..] == a[1..] + "/" + b;
      PartsSplit(a[1..], b, if a[0] == '/' then "" else part + [a[0]]);
      if a[0] == '/' {
        assert [part] + (Parts(a[1..], "") + Parts(b, "")) == Parts(a, part) + Parts(b, "");
      }
    }
  }

  lemma {:induction false} FirstPart(s: string, part: string)
    ensures Parts(s, part) != [] && Parts(s, part)[0] == part + UpToSlash(s)
    decreases |s|
  {
    if s != "" && s[0] != '/' {
      FirstPart(s[1..], part + [s[0]]);
      assert part + [s[0]] + UpToSlash(s[1..]) == part + UpToSlash(s);
    } else {
      assert part + "" == part;
    }
  }

  /** A name that goes on beyond `last` ends up in the resolved path as another
      name. */
  lemma LongerName(last: string, rest: string)
    requires IsName(last) && rest != "" && rest[0] != '/' && NoDots(last + rest)
    ensures Ends(last + rest) != [] && Ends(last + rest)[0] != last
  {
    var parts := Parts(last + rest, "");
    PartsTakesWord(last, rest, "");
    assert "" + last == last;
    FirstPart(rest, last);
    var x := parts[0];
    assert x == last + UpToSlash(rest) && |x| > |last|;
    assert x in parts && x != ".." && x != "." && x != "";
    NetWithoutDots(parts[1..], [x], 0);
    assert [] + [x] == [x];
  }

  lemma NamesOf(raw: string, names: seq<string>)
    requires raw != "" && raw[0] == '/' && NoDots(raw) && AreNames(names) && Clean(raw) == Absolute(names)
    ensures Climb(raw) == 0 && Ends(raw) == names
  {
    TextIsNet(raw, []);
    NetWithoutDots(Parts(raw, ""), [], 0);
    CleanRooted(raw);
    assert Kept([], Climb(raw)) + Ends(raw) == Ends(raw);
    AbsoluteIsInjective(Ends(raw), names);
  }

  lemma InsideResolves(raw: string, init: seq<string>, tail: string)
    requires AreNames(init) && NoDots(raw) && raw == Slashed(init) + ("/" + tail)
    ensures NoDots(tail) && AreNames(Ends(tail)) && ResolveText(raw, "", []) == init + Ends(tail)
  {
    Assoc(Slashed(init), "/", tail);
    PartsSplit(Slashed(init), tail, "");
    assert forall p | p in Parts(tail, "") :: p in Parts(raw, "");
    NetWithoutDots(Parts(tail, ""), [], 0);
    Walk(init, "/" + tail, []);
    SkipSlash(tail, init);
    TextIsNet(tail, init);
    assert [] + init == init && Kept(init, 0) == init;
  }

  lemma SlashedLast(at: seq<string>)
    requires AreNames(at) && at != []
    ensures var (init, last) := (at[..|at| - 1], at[|at| - 1]);
            AreNames(init) && IsName(last) && Slashed(at) == Slashed(init) + ("/" + last)
  {
    var (init, last) := (at[..|at| - 1], at[|at| - 1]);
    assert last in at;
    assert Slashed(at) == Slashed(init) + Slashed([last]) by {
      assert at == init + [last];
      SlashedConcat(init, [last]);
    }
    SlashedOne(last);
  }

  lemma SlashedOne(n: string)
    ensures Slashed([n]) == "/" + n
  {
    SlashedCons([n]);
    assert [n][1..] == [] && n + "" == n;
  }

  lemma OtherNames(init: seq<string>, ends: seq<string>, last: string, below: seq<string>)
    requires ends != [] && ends[0] != last
    ensures init + ends != init + [last] + below
  {
    assert (init + ends)[|init|] == ends[0] && (init + [last] + below)[|init|] == last;
  }

  /** The mount point's text cannot end inside a name of the path. */
  lemma RestInsideName(raw: string, at: seq<string>, below: seq<string>, rest: string)
    requires AreNames(at) && AreNames(below) && at != [] && NoDots(raw) && raw == Slashed(at) + rest
    requires rest != "" && rest[0] != '/'
    ensures Clean(raw) != Absolute(at + below)
  {
    var (init, last) := (at[..|at| - 1], at[|at| - 1]);
    SlashedLast(at);
    Assoc(Slashed(init), "/" + last, rest);
    Assoc("/", last, rest);
    InsideResolves(raw, init, last + rest);
    LongerName(last, rest);
    var ends := Ends(last + rest);
    assert Clean(raw) == Absolute(init + ends) by {
      SlashedIsRooted(at);
      CleanRooted(raw);
    }
    assert at == init + [last];
    OtherNames(init, ends, last, below);
    AbsoluteIsInjective(init + ends, at + below);
  }

  /** What follows the mount point in a path without "..". */
  lemma RestBelow(raw: string, at: seq<string>, below: seq<string>, rest: string)
    requires AreNames(at) && AreNames(below) && NoDots(raw) && raw == Absolute(at) + rest
    requires Clean(raw) == Absolute(at + below)
    ensures Climb(rest) == 0 && Ends(rest) == below
  {
    if at == [] {
      assert raw == "" + "/" + rest && [] + below == below;
      PartsSplit("", rest, "");
      assert Parts("", "") == [""];
      assert forall p | p in Parts(rest, "") :: p in Parts(raw, "");
      NamesOf(raw, below);
      assert Parts(raw, "")[1..] == Parts(rest, "");
      NetWithoutDots(Parts(rest, ""), [], 0);
    } else if rest == "" || rest[0] == '/' {
      RestAfterSlash(raw, at, below, rest);
    } else {
      RestInsideName(raw, at, below, rest);
      assert false;
    }
  }

  lemma RestHasNoDots(before: string, rest: string)
    requires NoDots(before + rest) && (rest == "" || rest[0] == '/')
    ensures NoDots(rest)
  {
    if rest != "" {
      var b := rest[1..];
      assert rest == "" + "/" + b && rest == "/" + b;
      Assoc(before, "/", b);
      PartsSplit(before, b, "");
      PartsSplit("", b, "");
      assert Parts("", "") == [""];
      assert forall p | p in Parts(b, "") :: p in Parts(before + rest, "");
    }
  }

  lemma NamesAfter(at: seq<string>, rest: string)
    requires AreNames(at) && NoDots(rest)
    ensures Climb(rest) == 0 && AreNames(Ends(rest)) && ResolveText(rest, "", at) == at + Ends(rest)
  {
    NetWithoutDots(Parts(rest, ""), [], 0);
    TextIsNet(rest, at);
    assert Kept(at, 0) == at;
  }

  lemma RestAfterSlash(raw: string, at: seq<string>, below: seq<string>, rest: string)
    requires AreNames(at) && AreNames(below) && at != [] && NoDots(raw) && raw == Slashed(at) + rest
    requires Clean(raw) == Absolute(at + below) && (rest == "" || rest[0] == '/')
    ensures Climb(rest) == 0 && Ends(rest) == below
  {
    RestHasNoDots(Slashed(at), rest);
    NamesAfter(at, rest);
    assert Clean(raw) == Absolute(at + Ends(rest)) by {
      SlashedIsRooted(at);
      Walk(at, rest, []);
      assert [] + at == at;
      CleanRooted(raw);
    }
    assert AreNames(at + below) && AreNames(at + Ends(rest));
    AbsoluteIsInjective(at + Ends(rest), at + below);
    assert Ends(rest) == (at + Ends(rest))[|at|..] && below == (at + below)[|at|..];
  }

  /** A path without ".." is reported like the clean path if and only if it starts
      with the text of the mount point. */
  lemma WithoutDotsRightIff(raw: string, m: MountEntry, root: seq<string>, at: seq<string>, below: seq<string>)
    requires raw != "" && raw[0] == '/' && NoDots(raw) && Shows(m, root, at) && AreNames(below)
    requires Clean(raw) == Absolute(at + below)
    ensures InspectFound(raw, m) == InspectFound(Clean(raw), m) <==> m.mountPoint <= raw
  {
    ReportedRightIff(raw, m, root, at, below);
    assert Left(root, 0) + below == below;
    if m.mountPoint <= raw {
      var rest := TrimPrefix(raw, m.mountPoint);
      assert raw == m.mountPoint + rest;
      RestBelow(raw, at, below, rest);
    } else {
      assert AreNames(at + below);
      NamesOf(raw, at + below);
      assert at != [] by {
        assert raw == "/" + raw[1..];
      }
    }
  }

  // ---------- paths with ".." ----------

  /** A path that leaves its mount point by ".." and comes back can be reported as
      the same path although the host has the file elsewhere. */
  lemma DotsHideElsewhere(n: string, r: string, below: seq<string>)
    requires IsName(n) && IsName(r) && n != r && AreNames(below)
    ensures var raw := "/" + n + ("/.." + Slashed([n] + below));
            var m := MountEntry("/" + r, "/" + n, "ext4");
            && Clean(raw) == Slashed([n] + below) && Holds(m.mountPoint, Clean(raw))
            && InspectFound(raw, m) == Same
            && InspectFound(Clean(raw), m) == Elsewhere(Slashed([r] + below))
  {
    var (back, at, root) := ("/.." + Slashed([n] + below), [n], [r]);
    var raw := "/" + n + back;
    var m := MountEntry("/" + r, "/" + n, "ext4");
    assert Slashed([]) == "" && [n][1..] == [] && [r][1..] == [];
    assert Slashed(at) == "/" + n && Slashed(root) == "/" + r;
    assert AreNames(at + below) && AreNames(at) && AreNames(root);
    UpAndBack(at, [n] + below);
    UpAndBack(root, [n] + below);
    CleanRooted(raw);
    assert raw == Slashed(at) + back && [] + at == at;
    Walk(at, back, []);
    CleanPathsTranslate(m, root, at, below);
    HoldsIsNamePrefix(at, at + below);
    assert TrimPrefix(raw, m.mountPoint) == back;
    WalkInto(root, back);
    AbsoluteIsInjective([r] + below, [n] + below);
    assert ([r] + below)[0] == r && ([n] + below)[0] == n;
  }

  lemma UpAndBack(one: seq<string>, names: seq<string>)
    requires |one| == 1 && AreNames(one) && AreNames(names) && names != []
    ensures ResolveText("/.." + Slashed(names), "", one) == names
  {
    var text := ".." + Slashed(names);
    SlashedIsRooted(names);
    assert "/.." + Slashed(names) == "/" + text;
    SkipSlash(text, one);
    PartsTakesWord("..", Slashed(names), "");
    assert "" + ".." == "..";
    var later := Parts(Slashed(names)[1..], "");
    assert Parts(Slashed(names), "..") == [".."] + later && Parts(Slashed(names), "") == [""] + later;
    assert one[0] in one && one[..0] == [];
    assert Resolve([".."] + later, true, one) == Resolve(later, true, []) by {
      assert ([".."] + later)[1..] == later;
    }
    assert Resolve([""] + later, true, []) == Resolve(later, true, []) by {
      assert ([""] + later)[1..] == later;
    }
    WalkAll(names, []);
    assert [] + names == names;
  }
}
