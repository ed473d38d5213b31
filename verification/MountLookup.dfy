/** Which mount holds a path, and where the host sees it. */
module MountLookup {
  import opened Wrappers
  import opened MountTable

  // ---------- filepath.Clean ----------

  /** The parts of part + s between slashes, `part` being the one begun so far. */
  function Parts(s: string, part: string): seq<string>
    decreases |s|
  {
    if s == "" then [part]
    else if s[0] == '/' then [part] + Parts(s[1..], "")
    else Parts(s[1..], part + [s[0]])
  }

  /** Resolves "", "." and ".." lexically on top of `stack`. */
  function Resolve(parts: seq<string>, rooted: bool, stack: seq<string>): seq<string>
    decreases |parts|
  {
    if parts == [] then stack
    else if parts[0] == "" || parts[0] == "." then Resolve(parts[1..], rooted, stack)
    else if parts[0] != ".." then Resolve(parts[1..], rooted, stack + [parts[0]])
    else if stack != [] && stack[|stack| - 1] != ".." then Resolve(parts[1..], rooted, stack[..|stack| - 1])
    else Resolve(parts[1..], rooted, if rooted then stack else stack + [".."])
  }

  /** A slash before every name. */
  function Slashed(names: seq<string>): string {
    if names == [] then "" else "/" + names[0] + Slashed(names[1..])
  }

  function Absolute(names: seq<string>): string {
    if names == [] then "/" else Slashed(names)
  }

  function Clean(path: string): string {
    if path != "" && path[0] == '/' then Absolute(Resolve(Parts(path, ""), true, []))
    else
      var names := Resolve(Parts(path, ""), false, []);
      if names == [] then "." else Slashed(names)[1..]
  }

  predicate IsName(n: string) {
    n != "" && n != "." && n != ".." && '/' !in n
  }

  ghost predicate AreNames(ns: seq<string>) {
    forall n | n in ns :: IsName(n)
  }

  /** What a rooted path's text resolves to, `part` and `stack` coming before. */
  function ResolveText(text: string, part: string, stack: seq<string>): seq<string> {
    Resolve(Parts(text, part), true, stack)
  }

  // ---------- texts put together ----------

  lemma Assoc(a: string, b: string, c: string)
    ensures (a + b) + c == a + (b + c)
  {
  }

  lemma SlashedCons(names: seq<string>)
    requires names != []
    ensures Slashed(names) == "/" + (names[0] + Slashed(names[1..]))
  {
    Assoc("/", names[0], Slashed(names[1..]));
  }

  lemma SlashedConsThen(names: seq<string>, tail: string)
    requires names != []
    ensures Slashed(names) + tail == "/" + (names[0] + (Slashed(names[1..]) + tail))
  {
    SlashedCons(names);
    Assoc("/", names[0] + Slashed(names[1..]), tail);
    Assoc(names[0], Slashed(names[1..]), tail);
  }

  lemma PrefixAndRest(a: string, b: string)
    requires a <= b
    ensures b == a + b[|a|..]
  {
  }

  // ---------- walking a path ----------

  lemma {:induction false} PartsTakesWord(w: string, rest: string, part: string)
    requires '/' !in w
    ensures Parts(w + rest, part) == Parts(rest, part + w)
  {
    if w == "" {
      assert w + rest == rest && part + w == part;
    } else {
      assert (w + rest)[1..] == w[1..] + rest && w[0] in w;
      PartsTakesWord(w[1..], rest, part + [w[0]]);
      assert part + [w[0]] + w[1..] == part + w;
    }
  }

  lemma SkipSlash(rest: string, stack: seq<string>)
    ensures ResolveText("/" + rest, "", stack) == ResolveText(rest, "", stack)
  {
    assert ("/" + rest)[1..] == rest;
    assert Parts("/" + rest, "") == [""] + Parts(rest, "");
  }

  lemma NameDone(name: string, rest: string, stack: seq<string>)
    requires IsName(name) && (rest == "" || rest[0] == '/')
    ensures ResolveText(rest, name, stack) == ResolveText(rest, "", stack + [name])
  {
    var later := if rest == "" then [] else Parts(rest[1..], "");
    assert Parts(rest, name) == [name] + later && Parts(rest, "") == [""] + later;
  }

  lemma OneName(n: string, after: string, stack: seq<string>)
    requires IsName(n) && (after == "" || after[0] == '/')
    ensures ResolveText("/" + (n + after), "", stack) == ResolveText(after, "", stack + [n])
  {
    SkipSlash(n + after, stack);
    PartsTakesWord(n, after, "");
    assert "" + n == n;
    NameDone(n, after, stack);
  }

  /** Slashed names are resolved one after the other. */
  lemma {:induction false} Walk(names: seq<string>, tail: string, stack: seq<string>)
    requires AreNames(names) && (tail == "" || tail[0] == '/')
    ensures ResolveText(Slashed(names) + tail, "", stack) == ResolveText(tail, "", stack + names)
    decreases |names|
  {
    if names == [] {
      assert Slashed(names) + tail == tail && stack + names == stack;
    } else {
      var n := names[0];
      assert n in names && AreNames(names[1..]);
      var after := Slashed(names[1..]) + tail;
      SlashedConsThen(names, tail);
      OneName(n, after, stack);
      Walk(names[1..], tail, stack + [n]);
      assert stack + [n] + names[1..] == stack + names;
    }
  }

  lemma WalkAll(names: seq<string>, stack: seq<string>)
    requires AreNames(names)
    ensures ResolveText(Slashed(names), "", stack) == stack + names
  {
    Walk(names, "", stack);
    assert Slashed(names) + "" == Slashed(names);
    assert Resolve([""], true, stack + names) == Resolve([""][1..], true, stack + names) == stack + names;
  }

  lemma CleanRooted(text: string)
    requires text != "" && text[0] == '/'
    ensures Clean(text) == Absolute(ResolveText(text, "", []))
  {
  }

  /** Absolute names, a slash, and what follows it. */
  lemma WalkInto(a: seq<string>, rest: string)
    requires AreNames(a)
    ensures Clean(Absolute(a) + "/" + rest) == Absolute(ResolveText(rest, "", a))
  {
    Assoc(Absolute(a), "/", rest);
    CleanRooted(Absolute(a) + ("/" + rest));
    if a == [] {
      SkipSlash("/" + rest, []);
      SkipSlash(rest, []);
    } else {
      assert [] + a == a;
      Walk(a, "/" + rest, []);
      SkipSlash(rest, a);
    }
  }

  /** Joining an absolute path and slashed names cleans to the names of both. */
  lemma CleanOfJoin(a: seq<string>, b: seq<string>)
    requires AreNames(a) && AreNames(b)
    ensures Clean(Absolute(a) + "/" + Slashed(b)) == Absolute(a + b)
    ensures Clean(Absolute(a)) == Absolute(a)
  {
    WalkInto(a, Slashed(b));
    WalkAll(b, a);
    CleanRooted(Absolute(a));
    if a == [] {
      SkipSlash("", []);
      assert "/" + "" == "/" && Slashed([]) == "";
      WalkAll([], []);
    } else {
      WalkAll(a, []);
      assert [] + a == a;
    }
  }

  // ---------- the mount of a path ----------

  /** The mount point is the path or one of the directories above it. */
  predicate Holds(mountPoint: string, path: string) {
    mountPoint == "/" || mountPoint == path || mountPoint + "/" <= path
  }

  /** The first of the longest mount points that hold the path. */
  ghost predicate IsBest(mounts: seq<MountEntry>, path: string, i: int) {
    && 0 <= i < |mounts| && Holds(mounts[i].mountPoint, path)
    && forall j | 0 <= j < |mounts| && Holds(mounts[j].mountPoint, path) ::
         && |mounts[j].mountPoint| <= |mounts[i].mountPoint|
         && (j < i ==> |mounts[j].mountPoint| < |mounts[i].mountPoint|)
  }

  method MountFor(rawPath: string, mounts: seq<MountEntry>) returns (best: Option<MountEntry>)
    ensures best.None? <==> forall m | m in mounts :: !Holds(m.mountPoint, Clean(rawPath))
    ensures best.Some? ==> exists i :: IsBest(mounts, Clean(rawPath), i) && mounts[i] == best.value
  {
    var path := Clean(rawPath);
    best := None;
    ghost var at := -1;
    var n := 0;
    while n < |mounts|
      invariant n <= |mounts|
      invariant best.None? <==> forall m | m in mounts[..n] :: !Holds(m.mountPoint, path)
      invariant best.Some? ==> IsBest(mounts[..n], path, at) && mounts[at] == best.value
    {
      var m := mounts[n];
      assert mounts[..n + 1] == mounts[..n] + [m];
      if Holds(m.mountPoint, path) && (best.None? || |m.mountPoint| > |best.value.mountPoint|) {
        if best.None? {
          assert forall j | 0 <= j < n :: mounts[..n][j] in mounts[..n];
        }
        best := Some(m);
        at := n;
      }
      assert best.Some? ==> IsBest(mounts[..n + 1], path, at);
      n := n + 1;
    }
    assert mounts[..n] == mounts;
  }

  lemma {:induction false} SlashedIsRooted(names: seq<string>)
    requires AreNames(names) && names != []
    ensures |Slashed(names)| > 1 && Slashed(names)[0] == '/'
  {
    assert names[0] in names;
  }

  /** The text before the first slash. */
  function UpToSlash(s: string): string {
    if s == "" || s[0] == '/' then "" else [s[0]] + UpToSlash(s[1..])
  }

  lemma {:induction false} UpToSlashIsName(n: string, rest: string)
    requires '/' !in n && (rest == "" || rest[0] == '/')
    ensures UpToSlash(n + rest) == n
  {
    if n == "" {
      assert n + rest == rest;
    } else {
      assert (n + rest)[1..] == n[1..] + rest && n[0] in n;
      UpToSlashIsName(n[1..], rest);
    }
  }

  /** One name of each, and what follows. */
  lemma PrefixStep(m: string, mt: string, p: string, pt: string)
    requires '/' !in m && '/' !in p && (mt == "" || mt[0] == '/') && (pt == "" || pt[0] == '/')
    ensures "/" + (m + (mt + "/")) <= "/" + (p + pt) <==> m == p && mt + "/" <= pt
    ensures "/" + (m + mt) == "/" + (p + pt) <==> m == p && mt == pt
  {
    FirstStepPrefix(m, mt, p, pt);
    FirstStepEqual(m, mt, p, pt);
    AfterSlash(m + (mt + "/"), p + pt);
    AfterSlash(m + mt, p + pt);
  }

  lemma NamesPrefix(ms: seq<string>, ps: seq<string>)
    requires ms != [] && ps != []
    ensures ms < ps <==> ms[0] == ps[0] && ms[1..] < ps[1..]
    ensures ms == ps <==> ms[0] == ps[0] && ms[1..] == ps[1..]
  {
    assert ms == [ms[0]] + ms[1..] && ps == [ps[0]] + ps[1..];
  }

  lemma {:induction false} SlashedPrefix(ms: seq<string>, ps: seq<string>)
    requires AreNames(ms) && AreNames(ps)
    ensures Slashed(ms) + "/" <= Slashed(ps) <==> ms < ps
    ensures Slashed(ms) == Slashed(ps) <==> ms == ps
    decreases |ms|
  {
    if ms == [] {
      if ps != [] {
        SlashedIsRooted(ps);
      }
    } else if ps == [] {
      SlashedIsRooted(ms);
    } else {
      assert ms[0] in ms && ps[0] in ps;
      SlashedPrefix(ms[1..], ps[1..]);
      TailIsSlashed(ms[1..]);
      TailIsSlashed(ps[1..]);
      PrefixStep(ms[0], Slashed(ms[1..]), ps[0], Slashed(ps[1..]));
      SlashedCons(ms);
      SlashedCons(ps);
      SlashedConsThen(ms, "/");
      NamesPrefix(ms, ps);
    }
  }

  lemma TailIsSlashed(names: seq<string>)
    ensures Slashed(names) == "" || Slashed(names)[0] == '/'
  {
  }

  lemma FirstStepPrefix(m: string, mt: string, p: string, pt: string)
    requires '/' !in m && '/' !in p && (mt == "" || mt[0] == '/') && (pt == "" || pt[0] == '/')
    ensures m + (mt + "/") <= p + pt <==> m == p && mt + "/" <= pt
  {
    UpToSlashIsName(p, pt);
    if m + (mt + "/") <= p + pt {
      var z := (p + pt)[|m + (mt + "/")|..];
      PrefixAndRest(m + (mt + "/"), p + pt);
      Assoc(m, mt + "/", z);
      UpToSlashIsName(m, mt + "/" + z);
      assert pt == (p + pt)[|m|..] == mt + "/" + z;
    }
    if m == p && mt + "/" <= pt {
      PrefixAndRest(mt + "/", pt);
      Assoc(m, mt + "/", pt[|mt| + 1..]);
    }
  }

  lemma FirstStepEqual(m: string, mt: string, p: string, pt: string)
    requires '/' !in m && '/' !in p && (mt == "" || mt[0] == '/') && (pt == "" || pt[0] == '/')
    ensures m + mt == p + pt <==> m == p && mt == pt
  {
    UpToSlashIsName(p, pt);
    UpToSlashIsName(m, mt);
    if m + mt == p + pt {
      assert mt == (m + mt)[|m|..] && pt == (p + pt)[|p|..];
    }
  }

  lemma AfterSlash(a: string, b: string)
    ensures "/" + a <= "/" + b <==> a <= b
    ensures "/" + a == "/" + b <==> a == b
  {
    assert ("/" + a)[1..] == a && ("/" + b)[1..] == b;
    if a <= b {
      PrefixAndRest(a, b);
      Assoc("/", a, b[|a|..]);
    }
    if "/" + a <= "/" + b {
      PrefixAndRest("/" + a, "/" + b);
      Assoc("/", a, ("/" + b)[|a| + 1..]);
    }
  }

  /** For clean absolute paths, a mount point holds a path exactly when its names
      are a prefix of the path's names, so a sibling never matches. */
  lemma HoldsIsNamePrefix(ms: seq<string>, ps: seq<string>)
    requires AreNames(ms) && AreNames(ps)
    ensures Holds(Absolute(ms), Absolute(ps)) <==> ms <= ps
  {
    SlashedPrefix(ms, ps);
    if ms != [] {
      SlashedIsRooted(ms);
      if ps == [] {
        assert "/" < Slashed(ms) + "/";
      }
    }
  }

  // ---------- where the host sees it ----------

  datatype Visibility = Unknown | Same | Elsewhere(hostPath: string) | Private

  /** filepath.Join of two paths. */
  function JoinPaths(a: string, b: string): string {
    if a == "" && b == "" then "" else if a == "" then Clean(b) else if b == "" then Clean(a) else Clean(a + "/" + b)
  }

  function InspectFound(path: string, m: MountEntry): Visibility {
    if m.fsType == "overlay" || m.fsType == "tmpfs" || m.fsType == "ramfs" then Private
    else
      var hostPath := JoinPaths(m.root, TrimPrefix(path, m.mountPoint));
      if hostPath == Clean(path) then Same else Elsewhere(hostPath)
  }

  /** File systems that exist inside the container alone. */
  const CONTAINER_ONLY := {"overlay", "tmpfs", "ramfs"}

  /** Every path on a container's own file system is private, and none on any other
      is. */
  lemma PrivateIff(path: string, m: MountEntry)
    ensures InspectFound(path, m) == Private <==> m.fsType in CONTAINER_ONLY
    ensures InspectFound(path, m) != Unknown
  {
  }

  lemma BestIsUnique(mounts: seq<MountEntry>, path: string, i: int, j: int)
    requires IsBest(mounts, path, i) && IsBest(mounts, path, j)
    ensures i == j
  {
  }

  method InspectPath(path: string, mounts: seq<MountEntry>) returns (v: Visibility)
    ensures v.Unknown? <==> forall m | m in mounts :: !Holds(m.mountPoint, Clean(path))
    ensures !v.Unknown? ==> exists i :: IsBest(mounts, Clean(path), i) && v == InspectFound(path, mounts[i])
    ensures v.Private? <==> exists i :: IsBest(mounts, Clean(path), i) && mounts[i].fsType in CONTAINER_ONLY
  {
    var m := MountFor(path, mounts);
    if m.None? {
      return Unknown;
    }
    ghost var at :| IsBest(mounts, Clean(path), at) && mounts[at] == m.value;
    forall i | IsBest(mounts, Clean(path), i) ensures i == at {
      BestIsUnique(mounts, Clean(path), i, at);
    }
    PrivateIff(path, m.value);
    return InspectFound(path, m.value);
  }

  /** A clean path below a host mount is at the mount's root on the host: under
      the same path exactly when root and mount point are the same. */
  lemma CleanPathsTranslate(m: MountEntry, root: seq<string>, at: seq<string>, below: seq<string>)
    requires AreNames(root) && AreNames(at) && AreNames(below)
    requires m.root == Absolute(root) && m.mountPoint == Absolute(at)
    requires m.fsType != "overlay" && m.fsType != "tmpfs" && m.fsType != "ramfs"
    ensures Clean(Absolute(at + below)) == Absolute(at + below)
    ensures InspectFound(Absolute(at + below), m) ==
            if root == at then Same else Elsewhere(Absolute(root + below))
  {
    var path := Absolute(at + below);
    assert AreNames(at + below) && AreNames(root + below);
    CleanOfJoin(at + below, []);
    JoinIs(root, at, below);
    AbsoluteIsInjective(root + below, at + below);
    if root + below == at + below {
      assert |root| == |at|;
      assert root == (root + below)[..|root|] && at == (at + below)[..|at|];
    }
  }

  lemma {:induction false} SlashedConcat(a: seq<string>, b: seq<string>)
    ensures Slashed(a + b) == Slashed(a) + Slashed(b)
    decreases |a|
  {
    if a == [] {
      assert a + b == b;
    } else {
      assert (a + b)[1..] == a[1..] + b;
      SlashedConcat(a[1..], b);
    }
  }

  /** What is left of a path after trimming its mount point. */
  lemma RestOfPath(at: seq<string>, below: seq<string>)
    requires AreNames(at) && AreNames(below)
    ensures TrimPrefix(Absolute(at + below), Absolute(at)) ==
            if at == [] && below != [] then Slashed(below)[1..] else Slashed(below)
  {
    SlashedConcat(at, below);
    if at == [] {
      assert at + below == below;
      if below != [] {
        SlashedIsRooted(below);
      }
    } else {
      assert Absolute(at + below) == Slashed(at) + Slashed(below);
    }
  }

  lemma AbsoluteIsInjective(a: seq<string>, b: seq<string>)
    requires AreNames(a) && AreNames(b)
    ensures Absolute(a) == Absolute(b) <==> a == b
  {
    SlashedPrefix(a, b);
    if a != [] {
      SlashedIsRooted(a);
    }
    if b != [] {
      SlashedIsRooted(b);
    }
  }

  lemma JoinIs(root: seq<string>, at: seq<string>, below: seq<string>)
    requires AreNames(root) && AreNames(at) && AreNames(below)
    ensures JoinPaths(Absolute(root), TrimPrefix(Absolute(at + below), Absolute(at))) == Absolute(root + below)
  {
    RestOfPath(at, below);
    CleanOfJoin(root, below);
    if below == [] {
      assert root + below == root;
    } else {
      SlashedIsRooted(below);
      if at == [] {
        var rest := Slashed(below)[1..];
        assert "/" + rest == Slashed(below);
        WalkInto(root, rest);
        SkipSlash(rest, root);
        WalkAll(below, root);
      }
    }
  }

  /** A path that is not clean can be reported elsewhere although the host sees
      it under the same path: the mount is found for the cleaned path, but its
      prefix is trimmed from the raw one. */
  lemma UncleanPathMisreported(names: seq<string>, m: MountEntry)
    requires AreNames(names) && |names| > 1 && m == MountEntry(Slashed(names[..1]), Slashed(names[..1]), "ext4")
    ensures var raw := "/" + Slashed(names);
            && Holds(m.mountPoint, Clean(raw)) && Clean(raw) == Slashed(names)
            && InspectFound(raw, m) == Elsewhere(Slashed(names[..1] + names))
            && InspectFound(Slashed(names), m) == Same
  {
    var raw := "/" + Slashed(names);
    var at, below := names[..1], names[1..];
    assert at + below == names && AreNames(at) && AreNames(below) && names[0] in names;
    CleanDouble(names);
    assert InspectFound(Slashed(names), m) == Same && Clean(Slashed(names)) == Slashed(names) by {
      CleanPathsTranslate(m, at, at, below);
    }
    assert Holds(m.mountPoint, Slashed(names)) by {
      HoldsIsNamePrefix(at, names);
    }
    TrimsNothing(names, at);
  }

  lemma CleanDouble(names: seq<string>)
    requires AreNames(names) && names != []
    ensures Clean("/" + Slashed(names)) == Slashed(names)
  {
    CleanRooted("/" + Slashed(names));
    SkipSlash(Slashed(names), []);
    WalkAll(names, []);
    assert [] + names == names;
  }

  lemma TrimsNothing(names: seq<string>, at: seq<string>)
    requires AreNames(names) && names != [] && at == names[..1]
    ensures InspectFound("/" + Slashed(names), MountEntry(Slashed(at), Slashed(at), "ext4")) == Elsewhere(Slashed(at + names))
  {
    var raw := "/" + Slashed(names);
    DoubleSlash(names);
    assert AreNames(at) && AreNames(at + names);
    WalkInto(at, raw);
    SkipSlash(Slashed(names), at);
    WalkAll(names, at);
    CleanDouble(names);
    AbsoluteIsInjective(at + names, names);
  }

  lemma DoubleSlash(names: seq<string>)
    requires AreNames(names) && names != []
    ensures !(Slashed(names[..1]) <= "/" + Slashed(names))
  {
    var at := names[..1];
    assert names[0] in names && at[0] == names[0];
    SlashedIsRooted(names);
    SlashedCons(at);
    assert Slashed(at)[1] == names[0][0] && names[0][0] in names[0];
    assert ("/" + Slashed(names))[1] == '/';
  }
}
