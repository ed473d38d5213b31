/** Reading /proc/self/mountinfo: what the kernel wrote comes back, unless it
    holds white space that the kernel leaves as it is. */
module MountTable {
  import opened Wrappers

  datatype MountEntry = MountEntry(root: string, mountPoint: string, fsType: string)

  // ---------- splitting text ----------

  /** The characters that separate fields (unicode.IsSpace). */
  predicate IsSpace(c: char) {
    var u := c as int;
    9 <= u <= 13 || u == 0x20 || u == 0x85 || u == 0xA0 || u == 0x1680 || 0x2000 <= u <= 0x200A
    || u == 0x2028 || u == 0x2029 || u == 0x202F || u == 0x205F || u == 0x3000
  }

  function WordIfAny(word: string): seq<string> {
    if word == "" then [] else [word]
  }

  /** strings.Fields of word + s, `word` being the field begun so far. */
  function Fields(s: string, word: string): seq<string>
    decreases |s|
  {
    if s == "" then WordIfAny(word)
    else if IsSpace(s[0]) then WordIfAny(word) + Fields(s[1..], "")
    else Fields(s[1..], word + [s[0]])
  }

  function DropReturn(line: string): string {
    if line != "" && line[|line| - 1] == '\r' then line[..|line| - 1] else line
  }

  /** The lines a bufio.Scanner yields, `line` being the one begun so far. */
  function Lines(s: string, line: string): seq<string>
    decreases |s|
  {
    if s == "" then (if line == "" then [] else [DropReturn(line)])
    else if s[0] == '\n' then [DropReturn(line)] + Lines(s[1..], "")
    else Lines(s[1..], line + [s[0]])
  }

  // ---------- octal escapes ----------

  predicate IsEscaped(c: char) {
    c == ' ' || c == '\t' || c == '\n' || c == '\\'
  }

  function EscapeChar(c: char): string {
    if c == ' ' then "\\040"
    else if c == '\t' then "\\011"
    else if c == '\n' then "\\012"
    else if c == '\\' then "\\134"
    else [c]
  }

  /** What the kernel writes for a path. */
  function Escape(s: string): string {
    if s == "" then "" else EscapeChar(s[0]) + Escape(s[1..])
  }

  /** The single-pass replacement of the four escapes. */
  function Unescape(s: string): string {
    if s == "" then ""
    else if "\\040" <= s then " " + Unescape(s[4..])
    else if "\\011" <= s then "\t" + Unescape(s[4..])
    else if "\\012" <= s then "\n" + Unescape(s[4..])
    else if "\\134" <= s then "\\" + Unescape(s[4..])
    else [s[0]] + Unescape(s[1..])
  }

  /** A text starts with exactly one escape at most. */
  lemma StartsWith(t: string, e: string)
    requires |t| >= 4 && t[..4] == e
    ensures forall x: string | |x| == 4 :: x <= t <==> x == e
  {
    assert t == e + t[4..];
    forall x: string | |x| == 4 && x <= t
      ensures x == e
    {
      assert t[..4] == x;
    }
  }

  lemma UnescapeOne(c: char, rest: string)
    ensures Unescape(EscapeChar(c) + rest) == [c] + Unescape(rest)
  {
    var e := EscapeChar(c);
    var t := e + rest;
    if IsEscaped(c) {
      assert t[..4] == e && t[4..] == rest;
      StartsWith(t, e);
    } else {
      assert t[0] == c && t[1..] == rest;
    }
  }

  lemma {:induction false} UnescapeEscape(s: string)
    ensures Unescape(Escape(s)) == s
  {
    if s != "" {
      UnescapeEscape(s[1..]);
      UnescapeOne(s[0], Escape(s[1..]));
    }
  }

  /** None of the four escapes begins at i. */
  predicate NoEscapeAt(s: string, i: nat)
    requires i <= |s|
  {
    var t := s[i..];
    !("\\040" <= t) && !("\\011" <= t) && !("\\012" <= t) && !("\\134" <= t)
  }

  /** Any other text is left as it is, other octal numbers after a backslash
      included. */
  lemma {:induction false} UnescapeLeaves(s: string)
    requires forall i :: 0 <= i <= |s| ==> NoEscapeAt(s, i)
    ensures Unescape(s) == s
    decreases |s|
  {
    if s != "" {
      assert NoEscapeAt(s, 0) && s[0..] == s;
      forall i | 0 <= i <= |s| - 1 ensures NoEscapeAt(s[1..], i) {
        assert NoEscapeAt(s, i + 1) && s[1..][i..] == s[i + 1..];
      }
      UnescapeLeaves(s[1..]);
    }
  }

  // ---------- parsing ----------

  /** The index of the first "-" at or after i. */
  function FindDash(fields: seq<string>, i: nat): Option<nat>
    decreases |fields| - i
  {
    if i >= |fields| then None
    else if fields[i] == "-" then Some(i)
    else FindDash(fields, i + 1)
  }

  lemma FindDashBounds(fields: seq<string>, i: nat)
    ensures FindDash(fields, i).Some? ==> i <= FindDash(fields, i).value < |fields|
    decreases |fields| - i
  {
  }

  function ParseFields(fields: seq<string>): Option<MountEntry> {
    if |fields| < 7 then None
    else
      FindDashBounds(fields, 5);
      match FindDash(fields, 5)
      case None => None
      case Some(sep) =>
        if sep + 1 >= |fields| then None
        else Some(MountEntry(Unescape(fields[3]), Unescape(fields[4]), fields[sep + 1]))
  }

  /** A line's entry, if it has one. */
  function LineEntries(line: string): seq<MountEntry> {
    match ParseFields(Fields(line, ""))
    case None => []
    case Some(e) => [e]
  }

  function ParseLines(lines: seq<string>): seq<MountEntry> {
    if lines == [] then [] else LineEntries(lines[0]) + ParseLines(lines[1..])
  }

  function Parse(text: string): seq<MountEntry> {
    ParseLines(Lines(text, ""))
  }

  lemma ParseNext(lines: seq<string>, n: nat, out: seq<MountEntry>)
    requires n < |lines|
    ensures out + ParseLines(lines[n..]) == (out + LineEntries(lines[n])) + ParseLines(lines[n + 1..])
  {
    var rest := ParseLines(lines[n + 1..]);
    assert lines[n..][1..] == lines[n + 1..];
    assert out + (LineEntries(lines[n]) + rest) == (out + LineEntries(lines[n])) + rest;
  }

  /** The separator: the first "-" after the six fields that every line has. */
  predicate Separator(fields: seq<string>, sep: nat) {
    && 5 <= sep < |fields| && fields[sep] == "-" && forall i :: 5 <= i < sep ==> fields[i] != "-"
  }

  lemma FindDashIs(fields: seq<string>, i: nat, sep: nat)
    requires i <= sep < |fields| && fields[sep] == "-" && forall j :: i <= j < sep ==> fields[j] != "-"
    ensures FindDash(fields, i) == Some(sep)
    decreases sep - i
  {
  }

  lemma FindDashMisses(fields: seq<string>, i: nat)
    requires forall j :: i <= j < |fields| ==> fields[j] != "-"
    ensures FindDash(fields, i) == None
    decreases |fields| - i
  {
  }

  /** Lines with fewer than seven fields, without a separator, or with nothing after
      it are passed over; any other gives the fourth and fifth field, unescaped, and
      the one after the separator. */
  lemma LineIff(line: string, sep: nat)
    ensures var f := Fields(line, "");
            && (|f| < 7 ==> LineEntries(line) == [])
            && ((forall i :: 5 <= i < |f| ==> f[i] != "-") ==> LineEntries(line) == [])
            && (|f| >= 7 && Separator(f, sep) ==>
                  LineEntries(line) ==
                  if sep + 1 < |f| then [MountEntry(Unescape(f[3]), Unescape(f[4]), f[sep + 1])] else [])
  {
    var f := Fields(line, "");
    if Separator(f, sep) {
      FindDashIs(f, 5, sep);
    }
    if forall i :: 5 <= i < |f| ==> f[i] != "-" {
      FindDashMisses(f, 5);
    }
  }

  /** The characters that separate fields, one by one. */
  lemma SpacesAre(c: char)
    ensures IsSpace(c) <==>
            c in "\t\n\U{000B}\U{000C}\r \U{0085}\U{00A0}\U{1680}\U{2000}\U{2001}\U{2002}\U{2003}\U{2004}\U{2005}\U{2006}"
                 + "\U{2007}\U{2008}\U{2009}\U{200A}\U{2028}\U{2029}\U{202F}\U{205F}\U{3000}"
  {
  }

  /** The loop that looks for the separator. */
  method FindSeparator(fields: seq<string>) returns (sep: int)
    requires |fields| >= 5
    ensures sep == match FindDash(fields, 5) case Some(i) => i case None => -1
  {
    sep := -1;
    var i := 5;
    while i < |fields|
      invariant 5 <= i <= |fields| && sep == -1
      invariant FindDash(fields, 5) == FindDash(fields, i)
    {
      if fields[i] == "-" {
        sep := i;
        break;
      }
      i := i + 1;
    }
  }

  method ParseLine(line: string) returns (entries: seq<MountEntry>)
    ensures entries == LineEntries(line)
  {
    var fields := Fields(line, "");
    if |fields| < 7 {
      return [];
    }
    var sep := FindSeparator(fields);
    FindDashBounds(fields, 5);
    if sep == -1 || sep + 1 >= |fields| {
      return [];
    }
    entries := [MountEntry(Unescape(fields[3]), Unescape(fields[4]), fields[sep + 1])];
  }

  method ParseMountinfo(text: string) returns (out: seq<MountEntry>)
    ensures out == Parse(text)
  {
    var lines := Lines(text, "");
    out := [];
    var n := 0;
    while n < |lines|
      invariant n <= |lines| && Parse(text) == out + ParseLines(lines[n..])
    {
      ParseNext(lines, n, out);
      var entries := ParseLine(lines[n]);
      out := out + entries;
      n := n + 1;
    }
  }

  // ---------- the round trip ----------

  /** The other fields of a line; any number of them is optional. */
  datatype Rest = Rest(id: string, parent: string, device: string, options: string, optional: seq<string>,
                       source: string, superOptions: string)

  predicate IsField(s: string) {
    s != "" && forall c | c in s :: !IsSpace(c)
  }

  predicate RestOk(r: Rest) {
    && IsField(r.id) && IsField(r.parent) && IsField(r.device) && IsField(r.options) && r.options != "-"
    && IsField(r.source) && IsField(r.superOptions)
    && forall o | o in r.optional :: IsField(o) && o != "-"
  }

  function LineFields(e: MountEntry, r: Rest): seq<string> {
    [r.id, r.parent, r.device, Escape(e.root), Escape(e.mountPoint), r.options]
    + r.optional + ["-", e.fsType, r.source, r.superOptions]
  }

  function Join(fields: seq<string>): string {
    if fields == [] then "" else if |fields| == 1 then fields[0] else fields[0] + " " + Join(fields[1..])
  }

  datatype Line = Line(entry: MountEntry, rest: Rest)

  function Render(lines: seq<Line>): string {
    if lines == [] then ""
    else Join(LineFields(lines[0].entry, lines[0].rest)) + "\n" + Render(lines[1..])
  }

  function Entries(lines: seq<Line>): seq<MountEntry> {
    if lines == [] then [] else [lines[0].entry] + Entries(lines[1..])
  }

  /** Of the white space only what the kernel escapes. */
  predicate PathOk(s: string) {
    s != "" && forall c | c in s :: IsSpace(c) ==> IsEscaped(c)
  }

  predicate Representable(e: MountEntry) {
    PathOk(e.root) && PathOk(e.mountPoint) && IsField(e.fsType)
  }

  lemma {:induction false} FieldsTakesWord(w: string, rest: string, acc: string)
    requires forall c | c in w :: !IsSpace(c)
    ensures Fields(w + rest, acc) == Fields(rest, acc + w)
  {
    if w == "" {
      assert w + rest == rest && acc + w == acc;
    } else {
      assert (w + rest)[1..] == w[1..] + rest && w[0] in w;
      FieldsTakesWord(w[1..], rest, acc + [w[0]]);
      assert acc + [w[0]] + w[1..] == acc + w;
    }
  }

  lemma {:induction false} FieldsOfJoin(fields: seq<string>)
    requires forall f | f in fields :: IsField(f)
    ensures Fields(Join(fields), "") == fields
  {
    if fields != [] {
      var f := fields[0];
      assert f in fields;
      if |fields| == 1 {
        FieldsTakesWord(f, "", "");
        assert f + "" == f && "" + f == f;
      } else {
        var tail := " " + Join(fields[1..]);
        FieldsTakesWord(f, tail, "");
        assert f + " " + Join(fields[1..]) == f + tail && "" + f == f;
        assert tail[1..] == Join(fields[1..]);
        FieldsOfJoin(fields[1..]);
      }
    }
  }

  lemma {:induction false} JoinHasNoNewline(fields: seq<string>)
    requires fields != [] && forall f | f in fields :: IsField(f)
    ensures Join(fields) != "" && '\n' !in Join(fields) && Join(fields)[|Join(fields)| - 1] != '\r'
  {
    assert fields[0] in fields;
    if |fields| > 1 {
      JoinHasNoNewline(fields[1..]);
    } else {
      var f := fields[0];
      assert f[|f| - 1] in f;
    }
  }

  lemma {:induction false} LinesTakesLine(w: string, rest: string, acc: string)
    requires '\n' !in w
    ensures Lines(w + rest, acc) == Lines(rest, acc + w)
  {
    if w == "" {
      assert w + rest == rest && acc + w == acc;
    } else {
      assert (w + rest)[1..] == w[1..] + rest && w[0] in w;
      LinesTakesLine(w[1..], rest, acc + [w[0]]);
      assert acc + [w[0]] + w[1..] == acc + w;
    }
  }

  lemma {:induction false} EscapeIsField(s: string)
    requires PathOk(s)
    ensures IsField(Escape(s))
  {
    EscapeHasNoSpace(s);
  }

  lemma {:induction false} EscapeHasNoSpace(s: string)
    requires forall c | c in s :: IsSpace(c) ==> IsEscaped(c)
    ensures forall c | c in Escape(s) :: !IsSpace(c)
    ensures s != "" ==> Escape(s) != ""
  {
    if s != "" {
      assert s[0] in s;
      EscapeHasNoSpace(s[1..]);
    }
  }

  lemma {:induction false} FindDashSkips(fields: seq<string>, i: nat, j: nat)
    requires i <= j < |fields| && fields[j] == "-" && forall k | i <= k < j :: fields[k] != "-"
    ensures FindDash(fields, i) == Some(j)
    decreases j - i
  {
    if i < j {
      FindDashSkips(fields, i + 1, j);
    }
  }

  lemma LineParses(e: MountEntry, r: Rest)
    requires Representable(e) && RestOk(r)
    ensures ParseFields(Fields(Join(LineFields(e, r)), "")) == Some(e)
    ensures forall f | f in LineFields(e, r) :: IsField(f)
  {
    EscapeIsField(e.root);
    EscapeIsField(e.mountPoint);
    var fs := LineFields(e, r);
    var dash := 6 + |r.optional|;
    FieldsOfJoin(fs);
    assert fs[dash] == "-" && fs[dash + 1] == e.fsType;
    forall k | 5 <= k < dash
      ensures fs[k] != "-"
    {
      assert k > 5 ==> fs[k] == r.optional[k - 6] && r.optional[k - 6] in r.optional;
    }
    FindDashSkips(fs, 5, dash);
    UnescapeEscape(e.root);
    UnescapeEscape(e.mountPoint);
  }

  lemma {:induction false} RoundTrip(lines: seq<Line>)
    requires forall l | l in lines :: Representable(l.entry) && RestOk(l.rest)
    ensures Parse(Render(lines)) == Entries(lines)
  {
    if lines != [] {
      var l := lines[0];
      assert l in lines;
      var text := Join(LineFields(l.entry, l.rest));
      LineParses(l.entry, l.rest);
      JoinHasNoNewline(LineFields(l.entry, l.rest));
      var tail := "\n" + Render(lines[1..]);
      LinesTakesLine(text, tail, "");
      assert text + "\n" + Render(lines[1..]) == text + tail && "" + text == text && tail[1..] == Render(lines[1..]);
      assert Lines(Render(lines), "") == [text] + Lines(Render(lines[1..]), "");
      RoundTrip(lines[1..]);
    }
  }

  // Whatever is parsed is representable, so nothing else survives the trip.

  lemma {:induction false} FieldsAreFields(s: string, word: string)
    requires forall c | c in word :: !IsSpace(c)
    ensures forall f | f in Fields(s, word) :: IsField(f)
    decreases |s|
  {
    if s != "" {
      FieldsAreFields(s[1..], if IsSpace(s[0]) then "" else word + [s[0]]);
    }
  }

  lemma {:induction false} UnescapedIsPath(s: string)
    requires forall c | c in s :: !IsSpace(c)
    ensures forall c | c in Unescape(s) :: IsSpace(c) ==> IsEscaped(c)
    ensures s != "" ==> Unescape(s) != ""
  {
    if s != "" {
      var n := if "\\040" <= s || "\\011" <= s || "\\012" <= s || "\\134" <= s then 4 else 1;
      assert forall c | c in s[n..] :: c in s;
      assert s[0] in s;
      UnescapedIsPath(s[n..]);
    }
  }

  lemma {:induction false} ParsedIsRepresentable(lines: seq<string>)
    ensures forall e | e in ParseLines(lines) :: Representable(e)
  {
    if lines != [] {
      ParsedIsRepresentable(lines[1..]);
      var fields := Fields(lines[0], "");
      FieldsAreFields(lines[0], "");
      if ParseFields(fields).Some? {
        FindDashBounds(fields, 5);
        assert fields[3] in fields && fields[4] in fields && fields[FindDash(fields, 5).value + 1] in fields;
        UnescapedIsPath(fields[3]);
        UnescapedIsPath(fields[4]);
      }
    }
  }

  lemma {:induction false} EntriesMembers(lines: seq<Line>)
    ensures forall l | l in lines :: l.entry in Entries(lines)
  {
    if lines != [] {
      EntriesMembers(lines[1..]);
      assert forall l | l in lines :: l == lines[0] || l in lines[1..];
    }
  }

  /** Lines with any number of optional fields, their paths escaped the kernel's
      way, parse back to the same entries in order, if and only if no path is
      empty or holds white space the kernel does not escape, and no file system
      type is empty or holds white space. */
  lemma RoundTripIff(lines: seq<Line>)
    requires forall l | l in lines :: RestOk(l.rest)
    ensures Parse(Render(lines)) == Entries(lines) <==> forall l | l in lines :: Representable(l.entry)
  {
    if Parse(Render(lines)) == Entries(lines) {
      ParsedIsRepresentable(Lines(Render(lines), ""));
      EntriesMembers(lines);
    }
    if forall l | l in lines :: Representable(l.entry) {
      RoundTrip(lines);
    }
  }
}
