/** metadata.json says everything about its point: no two descriptors have the same
    text. So there are readers that give back every descriptor. */
module MetadataReading {
  import opened Wrappers
  import opened MetadataText
  import opened BackupLibrary

  // ---------- where an item ends ----------

  /** Scanning from s, no comma or line end comes at depth d outside a string. */
  predicate Shy(s: Scan, t: string, d: int)
    decreases t
  {
    t == "" || ((s == Outside(d) ==> t[0] != ',' && t[0] != '\n') && Shy(Next(s, t[0]), t[1..], d))
  }

  lemma {:induction false} ShyConcat(s: Scan, a: string, b: string, d: int)
    requires Shy(s, a, d) && Shy(Run(s, a), b, d)
    ensures Shy(s, a + b, d)
    decreases a
  {
    if a == "" {
      assert a + b == b;
    } else {
      ShyConcat(Next(s, a[0]), a[1..], b, d);
      assert (a + b)[0] == a[0] && (a + b)[1..] == a[1..] + b;
    }
  }

  lemma {:induction false} ShyAt(s: Scan, t: string, d: int, k: nat)
    requires Shy(s, t, d) && k < |t| && Run(s, t[..k]) == Outside(d)
    ensures t[k] != ',' && t[k] != '\n'
    decreases t
  {
    if k > 0 {
      assert t[..k][0] == t[0] && t[..k][1..] == t[1..][..k - 1];
      ShyAt(Next(s, t[0]), t[1..], d, k - 1);
    }
  }

  /** Deeper than d, anything is shy of it. */
  lemma {:induction false} AboveIsShy(s: Scan, t: string, floor: int, d: int)
    requires Above(s, t, floor) && d < floor
    ensures Shy(s, t, d)
    decreases t
  {
    if t != "" {
      AboveIsShy(Next(s, t[0]), t[1..], floor, d);
    }
  }

  lemma {:induction false} PlainIsShy(d: int, t: string)
    requires Plain(t) && ',' !in t && '\n' !in t
    ensures Shy(Outside(d), t, d)
    decreases t
  {
    if t != "" {
      assert t[0] !in "\"{}[]" && t[0] in t;
      assert Next(Outside(d), t[0]) == Outside(d);
      assert forall c | c in t[1..] :: c in t;
      PlainIsShy(d, t[1..]);
    }
  }

  lemma {:induction false} InsideIsShy(d: int, t: string)
    requires forall i :: 0 <= i < |t| ==> t[i] != '\"' && t[i] != '\\'
    ensures Shy(Inside(d), t, d)
    decreases t
  {
    if t != "" {
      InsideIsShy(d, t[1..]);
    }
  }

  lemma EscapeIsShy(d: int, c: char)
    ensures Shy(Inside(d), EscapeChar(c), d)
  {
    var t := EscapeChar(c);
    if t[0] == '\\' {
      assert Next(Inside(d), t[0]) == Scan(d, true, true) && Next(Scan(d, true, true), t[1]) == Inside(d);
      InsideIsShy(d, t[1..][1..]);
      assert Shy(Scan(d, true, true), t[1..], d);
    } else {
      assert t[1..] == "";
    }
  }

  lemma {:induction false} EscapesAreShy(d: int, s: string)
    ensures Shy(Inside(d), EscapeAll(s), d)
    decreases s
  {
    if s != "" {
      EscapeIsShy(d, s[0]);
      EscapeIsNeutral(d, s[0]);
      EscapesAreShy(d, s[1..]);
      ShyConcat(Inside(d), EscapeChar(s[0]), EscapeAll(s[1..]), d);
    }
  }

  lemma QuoteIsShy(d: int, s: string)
    ensures Shy(Outside(d), Quote(s), d)
  {
    var e := EscapeAll(s);
    EscapesAreShy(d, s);
    EscapesAreNeutral(d, s);
    assert "\""[1..] == "" && Shy(Inside(d), "\"", d);
    ShyConcat(Inside(d), e, "\"", d);
    assert Quote(s)[0] == '\"' && Quote(s)[1..] == e + "\"";
  }

  /** Brackets, members and scalars that can stand in a list at depth d. */
  predicate Item(d: int, t: string) {
    t != "" && Neutral(Outside(d), t) && Shy(Outside(d), t, d)
  }

  predicate Ends(t: string) {
    t != "" && (t[0] == ',' || t[0] == '\n')
  }

  /** An item is over where a comma or a line end follows. */
  lemma ItemReads(d: int, a: string, x: string, b: string, y: string)
    requires Item(d, a) && Item(d, b) && Ends(x) && Ends(y) && a + x == b + y
    ensures a == b && x == y
  {
    if |a| < |b| {
      ItemIsLonger(d, a, x, b, y);
    } else if |b| < |a| {
      ItemIsLonger(d, b, y, a, x);
    }
    assert a == (a + x)[..|a|] && b == (b + y)[..|b|];
    assert x == (a + x)[|a|..] && y == (b + y)[|b|..];
  }

  lemma ItemIsLonger(d: int, a: string, x: string, b: string, y: string)
    requires Item(d, a) && Item(d, b) && Ends(x) && a + x == b + y
    ensures |a| >= |b|
  {
    if |a| < |b| {
      assert b[..|a|] == (b + y)[..|a|] == (a + x)[..|a|] == a;
      assert b[|a|] == (b + y)[|a|] == (a + x)[|a|] == x[0];
      ShyAt(Outside(d), b, d, |a|);
    }
  }

  // ---------- lists of items ----------

  lemma NewLineStarts(level: nat)
    ensures NewLine(level) != "" && NewLine(level)[0] == '\n'
  {
  }

  lemma SameRest(p: string, x: string, y: string)
    requires p + x == p + y
    ensures x == y
  {
    assert x == (p + x)[|p|..] && y == (p + y)[|p|..];
  }

  predicate AllItems(d: int, items: seq<string>) {
    forall i :: 0 <= i < |items| ==> Item(d, items[i])
  }

  /** What follows the first item. */
  function Rest(items: seq<string>, separator: string, x: string): string
    requires items != []
  {
    if |items| == 1 then x else separator + (Join(items[1..], separator) + x)
  }

  lemma JoinSplits(items: seq<string>, separator: string, x: string)
    requires items != []
    ensures Join(items, separator) + x == items[0] + Rest(items, separator, x)
  {
    if |items| > 1 {
      var more := Join(items[1..], separator);
      assert items[0] + separator + more + x == items[0] + (separator + (more + x));
    }
  }

  lemma {:induction false} JoinReads(d: int, a: seq<string>, b: seq<string>, separator: string, x: string)
    requires AllItems(d, a) && AllItems(d, b) && a != [] && b != []
    requires separator != "" && separator[0] == ',' && x != "" && x[0] == '\n'
    requires Join(a, separator) + x == Join(b, separator) + x
    ensures a == b
    decreases |a|
  {
    JoinSplits(a, separator, x);
    JoinSplits(b, separator, x);
    ItemReads(d, a[0], Rest(a, separator, x), b[0], Rest(b, separator, x));
    if |a| > 1 && |b| > 1 {
      SameRest(separator, Join(a[1..], separator) + x, Join(b[1..], separator) + x);
      JoinReads(d, a[1..], b[1..], separator, x);
      assert a == [a[0]] + a[1..] && b == [b[0]] + b[1..];
    } else {
      assert |a| == 1 && |b| == 1;
    }
  }

  lemma BlockReads(d: int, open: char, a: seq<string>, b: seq<string>, close: char, level: nat)
    requires AllItems(d, a) && AllItems(d, b) && a != [] && b != []
    requires Block([open], a, [close], level) == Block([open], b, [close], level)
    ensures a == b
  {
    var (ta, tb) := (Block([open], a, [close], level), Block([open], b, [close], level));
    assert Body(a, level) == ta[1..|ta| - 1] && Body(b, level) == tb[1..|tb| - 1];
    var separator := "," + NewLine(level + 1);
    SameRest(NewLine(level + 1), Join(a, separator) + NewLine(level), Join(b, separator) + NewLine(level));
    NewLineStarts(level);
    JoinReads(d, a, b, separator, NewLine(level));
  }

  // ---------- scalars and members ----------

  lemma HexInjective(a: nat, b: nat)
    requires a < 16 && b < 16 && HEX[a] == HEX[b]
    ensures a == b
  {
  }

  predicate InHex(c: char) {
    c != '\"' && c != '\\' && c != '\n' && c != '\r' && c != '\t' && c != 8 as char && c != 12 as char
    && (c < ' ' || c == '<' || c == '>' || c == '&')
  }

  lemma EscapeLengths(c: char)
    ensures var e := EscapeChar(c);
            |e| == if e[0] != '\\' then 1 else if e[1] != 'u' then 2 else 6
    ensures InHex(c) <==> |EscapeChar(c)| == 6 && EscapeChar(c)[2] == '0'
  {
  }

  lemma EscapeCharInjective(c: char, d: char)
    requires EscapeChar(c) == EscapeChar(d)
    ensures c == d
  {
    EscapeLengths(c);
    EscapeLengths(d);
    if InHex(c) {
      var (e, f) := (EscapeChar(c), EscapeChar(d));
      assert e[4] == HEX[(c as int) / 16 % 16] && e[5] == HEX[(c as int) % 16];
      assert f[4] == HEX[(d as int) / 16 % 16] && f[5] == HEX[(d as int) % 16];
      HexInjective((c as int) / 16 % 16, (d as int) / 16 % 16);
      HexInjective((c as int) % 16, (d as int) % 16);
    }
  }

  lemma EscapeReads(c: char, x: string, d: char, y: string)
    requires EscapeChar(c) + x == EscapeChar(d) + y
    ensures c == d && x == y
  {
    EscapeLengths(c);
    EscapeLengths(d);
    var (e, f) := (EscapeChar(c), EscapeChar(d));
    assert e[0] == (e + x)[0] && f[0] == (f + y)[0];
    assert |e| > 1 ==> e[1] == (e + x)[1];
    assert |f| > 1 ==> f[1] == (f + y)[1];
    assert e == (e + x)[..|e|] && f == (f + y)[..|f|];
    EscapeCharInjective(c, d);
    SameRest(e, x, y);
  }

  lemma EscapeAllStarts(s: string)
    ensures s == "" <==> EscapeAll(s) == ""
    ensures s != "" ==> EscapeAll(s) == EscapeChar(s[0]) + EscapeAll(s[1..])
  {
    if s != "" {
      EscapeLengths(s[0]);
    }
  }

  lemma {:induction false} EscapeAllInjective(a: string, b: string)
    requires EscapeAll(a) == EscapeAll(b)
    ensures a == b
    decreases a
  {
    EscapeAllStarts(a);
    EscapeAllStarts(b);
    if a != "" && b != "" {
      EscapeReads(a[0], EscapeAll(a[1..]), b[0], EscapeAll(b[1..]));
      EscapeAllInjective(a[1..], b[1..]);
      assert a == [a[0]] + a[1..] && b == [b[0]] + b[1..];
    }
  }

  lemma QuoteInjective(a: string, b: string)
    requires Quote(a) == Quote(b)
    ensures a == b
  {
    assert EscapeAll(a) == Quote(a)[1..|Quote(a)| - 1] && EscapeAll(b) == Quote(b)[1..|Quote(b)| - 1];
    EscapeAllInjective(a, b);
  }

  lemma {:induction false} DigitsInjective(a: nat, b: nat)
    requires Digits(a) == Digits(b)
    ensures a == b
    decreases a
  {
    var (da, db) := (Digits(a), Digits(b));
    assert a >= 10 ==> |da| > 1 by {
      DigitsNotEmpty(a / 10);
    }
    assert b >= 10 ==> |db| > 1 by {
      DigitsNotEmpty(b / 10);
    }
    assert da[|da| - 1] == HEX[a % 10] && db[|db| - 1] == HEX[b % 10];
    HexInjective(a % 10, b % 10);
    if a >= 10 {
      assert da[..|da| - 1] == Digits(a / 10) && db[..|db| - 1] == Digits(b / 10);
      DigitsInjective(a / 10, b / 10);
    }
  }

  lemma DigitsNotEmpty(n: nat)
    ensures Digits(n) != ""
  {
  }

  lemma {:induction false} DigitsHaveNoComma(n: nat)
    ensures ',' !in Digits(n) && '\n' !in Digits(n)
    decreases n
  {
    if n >= 10 {
      DigitsHaveNoComma(n / 10);
    }
  }

  lemma ScalarIsItem(d: int, v: Scalar)
    ensures Item(d, ScalarText(v))
  {
    ScalarIsNeutral(d, v);
    match v
    case Str(text) => QuoteIsShy(d, text);
    case Number(n) =>
      DigitsArePlain(n);
      DigitsHaveNoComma(n);
      DigitsNotEmpty(n);
      PlainIsShy(d, Digits(n));
    case Bool(b) => PlainIsShy(d, ScalarText(v));
  }

  lemma ScalarInjective(a: Scalar, b: Scalar)
    requires ScalarText(a) == ScalarText(b)
    requires (a.Str? && b.Str?) || (a.Number? && b.Number?) || (a.Bool? && b.Bool?)
    ensures a == b
  {
    match a
    case Str(text) => QuoteInjective(text, b.text);
    case Number(n) => DigitsInjective(n, b.n);
    case Bool(_) =>
  }

  lemma MemberIsItem(d: int, name: string, text: string)
    requires Item(d, text)
    ensures Item(d, Member(name, text))
  {
    MemberIsNeutral(d, name, text);
    QuoteIsShy(d, name);
    QuoteIsNeutral(d, name);
    PlainIsShy(d, ": ");
    PlainIsNeutral(d, ": ");
    ShyConcat(Outside(d), ": ", text, d);
    ShyConcat(Outside(d), Quote(name), ": " + text, d);
  }

  lemma MemberInjective(name: string, a: string, b: string)
    requires Member(name, a) == Member(name, b)
    ensures a == b
  {
    SameRest(Quote(name), ": " + a, ": " + b);
    SameRest(": ", a, b);
  }

  lemma FieldsAreItems(d: int, fields: seq<Field>)
    ensures AllItems(d, FieldTexts(fields))
  {
    forall i | 0 <= i < |fields| ensures Item(d, FieldTexts(fields)[i]) {
      ScalarIsItem(d, fields[i].value);
      MemberIsItem(d, fields[i].name, ScalarText(fields[i].value));
    }
  }

  lemma ItemsAreNeutral(d: int, items: seq<string>)
    requires AllItems(d, items)
    ensures AllNeutral(d, items)
  {
    forall i | 0 <= i < |items| ensures Neutral(Outside(d), items[i]) {
      assert Item(d, items[i]);
    }
  }

  lemma BlockIsItem(d: int, open: char, items: seq<string>, close: char, level: nat)
    requires AllItems(d + 1, items) && open in "{[" && close in "}]"
    ensures Item(d, Block([open], items, [close], level))
  {
    ItemsAreNeutral(d + 1, items);
    BlockIsNeutral(d, open, items, close, level);
    BodyIsNeutral(d + 1, items, level);
    var (t, body) := (Block([open], items, [close], level), Body(items, level));
    AboveIsShy(Outside(d + 1), body, d + 1, d);
    assert [close][1..] == "" && Shy(Outside(d + 1), [close], d);
    ShyConcat(Outside(d + 1), body, [close], d);
    assert t[0] == open && t[1..] == body + [close] && Next(Outside(d), open) == Outside(d + 1);
  }

  predicate SameShape(a: Field, b: Field) {
    a.name == b.name && ((a.value.Str? && b.value.Str?) || (a.value.Number? && b.value.Number?) || (a.value.Bool? && b.value.Bool?))
  }

  /** Equal texts of fields under the same names have equal values. */
  lemma FieldReads(a: seq<Field>, b: seq<Field>, i: nat)
    requires FieldTexts(a) == FieldTexts(b) && i < |a| && (i < |b| ==> SameShape(a[i], b[i]))
    ensures i < |b| && a[i] == b[i]
  {
    assert |FieldTexts(a)| == |a| && |FieldTexts(b)| == |b|;
    assert FieldTexts(a)[i] == FieldTexts(b)[i];
    MemberInjective(a[i].name, ScalarText(a[i].value), ScalarText(b[i].value));
    ScalarInjective(a[i].value, b[i].value);
  }

  // ---------- disks ----------

  function DiskFields(disk: Disk): seq<Field> {
    [ Field("name", Str(disk.name)), Field("file", Str(disk.file)),
      Field("format", Str(FormatText(disk.format))), Field("sizeBytes", Number(disk.sizeBytes)) ]
  }

  lemma DiskTextIs(disk: Disk)
    ensures DiskText(disk) == Block("{", FieldTexts(DiskFields(disk)), "}", 2)
  {
  }

  lemma FormatInjective(f: Format, g: Format)
    requires FormatText(f) == FormatText(g)
    ensures f == g
  {
    assert "qcow2"[0] != "raw"[0];
  }

  lemma DiskFieldsRead(a: Disk, b: Disk)
    requires FieldTexts(DiskFields(a)) == FieldTexts(DiskFields(b))
    ensures a == b
  {
    FieldReads(DiskFields(a), DiskFields(b), 0);
    FieldReads(DiskFields(a), DiskFields(b), 1);
    FieldReads(DiskFields(a), DiskFields(b), 2);
    FieldReads(DiskFields(a), DiskFields(b), 3);
    assert FormatText(a.format) == FormatText(b.format);
    FormatInjective(a.format, b.format);
  }

  lemma DiskInjective(a: Disk, b: Disk)
    requires DiskText(a) == DiskText(b)
    ensures a == b
  {
    DiskTextIs(a);
    DiskTextIs(b);
    FieldsAreItems(2, DiskFields(a));
    FieldsAreItems(2, DiskFields(b));
    BlockReads(2, '{', FieldTexts(DiskFields(a)), FieldTexts(DiskFields(b)), '}', 2);
    DiskFieldsRead(a, b);
  }

  function DiskTexts(disks: seq<Disk>): seq<string> {
    seq(|disks|, i requires 0 <= i < |disks| => DiskText(disks[i]))
  }

  lemma DisksAreItems(d: int, disks: seq<Disk>)
    ensures AllItems(d, DiskTexts(disks))
  {
    forall i | 0 <= i < |disks| ensures Item(d, DiskTexts(disks)[i]) {
      FieldsAreItems(d + 1, DiskFields(disks[i]));
      BlockIsItem(d, '{', FieldTexts(DiskFields(disks[i])), '}', 2);
    }
  }

  lemma DiskListIsItem(d: int, disks: seq<Disk>)
    ensures Item(d, DiskListText(disks))
  {
    if disks == [] {
      PlainIsNeutral(d, "null");
      PlainIsShy(d, "null");
    } else {
      DisksAreItems(d + 1, disks);
      BlockIsItem(d, '[', DiskTexts(disks), ']', 1);
    }
  }

  lemma DiskListStarts(disks: seq<Disk>)
    ensures DiskListText(disks) != "" && (DiskListText(disks)[0] == '[' <==> disks != [])
  {
  }

  lemma DiskListInjective(a: seq<Disk>, b: seq<Disk>)
    requires DiskListText(a) == DiskListText(b)
    ensures a == b
  {
    DiskListStarts(a);
    DiskListStarts(b);
    if a != [] && b != [] {
      DisksAreItems(1, a);
      DisksAreItems(1, b);
      BlockReads(1, '[', DiskTexts(a), DiskTexts(b), ']', 1);
      assert |DiskTexts(a)| == |DiskTexts(b)|;
      forall i | 0 <= i < |a| ensures a[i] == b[i] {
        assert DiskTexts(a)[i] == DiskTexts(b)[i];
        DiskInjective(a[i], b[i]);
      }
    }
  }

  // ---------- the whole descriptor ----------

  function Head(m: Metadata, stamp: string): seq<Field> {
    [ Field("id", Str(m.id)), Field("vmId", Str(m.vmId)), Field("vmName", Str(m.vmId)),
      Field("type", Str(if m.kind.Full? then "full" else "incremental")),
      Field("state", Str(if m.state.Complete? then "complete" else "")), Field("createdAt", Str(stamp)) ]
  }

  function Tail(m: Metadata): seq<Field> {
    [Field("hasDomainXml", Bool(m.hasDomainXml))] + OmitEmpty("parentId", m.parentId) + OmitEmpty("checkpoint", m.checkpoint)
  }

  lemma MembersAre(m: Metadata, stamp: string)
    ensures Members(m, stamp) == FieldTexts(Head(m, stamp)) + [Member("disks", DiskListText(m.disks))] + FieldTexts(Tail(m))
    ensures AllItems(1, Members(m, stamp))
  {
    FieldsAreItems(1, Head(m, stamp));
    FieldsAreItems(1, Tail(m));
    DiskListIsItem(1, m.disks);
    MemberIsItem(1, "disks", DiskListText(m.disks));
    var (h, t) := (FieldTexts(Head(m, stamp)), FieldTexts(Tail(m)));
    assert Members(m, stamp) == h + [Member("disks", DiskListText(m.disks))] + t;
  }

  lemma HeadReads(a: Metadata, s: string, b: Metadata, t: string)
    requires FieldTexts(Head(a, s)) == FieldTexts(Head(b, t))
    ensures a.id == b.id && a.vmId == b.vmId && a.kind == b.kind && a.state == b.state && s == t
  {
    var (fa, fb) := (Head(a, s), Head(b, t));
    FieldReads(fa, fb, 0);
    FieldReads(fa, fb, 1);
    FieldReads(fa, fb, 3);
    FieldReads(fa, fb, 4);
    FieldReads(fa, fb, 5);
    assert "full"[0] != "incremental"[0];
  }

  lemma MemberStarts(name: string, text: string)
    requires name != "" && EscapeChar(name[0]) == [name[0]]
    ensures |Member(name, text)| > 1 && Member(name, text)[1] == name[0]
  {
    EscapeAllStarts(name);
    assert EscapeAll(name)[0] == name[0] && Quote(name)[1] == EscapeAll(name)[0];
    assert Member(name, text)[1] == Quote(name)[1];
  }

  lemma NamesTell(a: string, b: string)
    ensures Member("parentId", a) != Member("checkpoint", b)
  {
    MemberStarts("parentId", a);
    MemberStarts("checkpoint", b);
  }

  /** The optional fields of a descriptor. */
  function Options(m: Metadata): seq<Field> {
    OmitEmpty("parentId", m.parentId) + OmitEmpty("checkpoint", m.checkpoint)
  }

  lemma OptionsAre(m: Metadata)
    ensures m.parentId == "" && m.checkpoint == "" ==> Options(m) == []
    ensures m.parentId != "" && m.checkpoint == "" ==> Options(m) == [Field("parentId", Str(m.parentId))]
    ensures m.parentId == "" && m.checkpoint != "" ==> Options(m) == [Field("checkpoint", Str(m.checkpoint))]
    ensures m.parentId != "" && m.checkpoint != "" ==>
              Options(m) == [Field("parentId", Str(m.parentId)), Field("checkpoint", Str(m.checkpoint))]
  {
  }

  /** Equally many options start with the same one. */
  lemma FirstOption(a: Metadata, b: Metadata)
    requires FieldTexts(Options(a)) == FieldTexts(Options(b))
    ensures |Options(a)| == |Options(b)| && (a.parentId == "" <==> b.parentId == "")
  {
    OptionsAre(a);
    OptionsAre(b);
    assert |FieldTexts(Options(a))| == |Options(a)| && |FieldTexts(Options(b))| == |Options(b)|;
    if |Options(a)| == 1 {
      assert FieldTexts(Options(a))[0] == FieldTexts(Options(b))[0];
      NamesTell(Quote(a.parentId), Quote(b.checkpoint));
      NamesTell(Quote(b.parentId), Quote(a.checkpoint));
    }
  }

  lemma OptionsRead(a: Metadata, b: Metadata)
    requires FieldTexts(Options(a)) == FieldTexts(Options(b))
    ensures a.parentId == b.parentId && a.checkpoint == b.checkpoint
  {
    FirstOption(a, b);
    OptionsAre(a);
    OptionsAre(b);
    if |Options(a)| > 0 {
      FieldReads(Options(a), Options(b), 0);
    }
    if |Options(a)| > 1 {
      FieldReads(Options(a), Options(b), 1);
    }
  }

  lemma TailReads(a: Metadata, b: Metadata)
    requires FieldTexts(Tail(a)) == FieldTexts(Tail(b))
    ensures a.hasDomainXml == b.hasDomainXml && a.parentId == b.parentId && a.checkpoint == b.checkpoint
  {
    FieldReads(Tail(a), Tail(b), 0);
    TailOptions(a);
    TailOptions(b);
    OptionsRead(a, b);
  }

  lemma TailOptions(m: Metadata)
    ensures FieldTexts(Tail(m))[1..] == FieldTexts(Options(m))
  {
    assert Tail(m)[1..] == Options(m);
  }

  /** Two descriptors with the same text are the same, up to the instant, of which
      the text holds the stamp: whatever quotes, brackets, commas or control
      characters their names contain. */
  lemma TextIsInjective(a: Metadata, s: string, b: Metadata, t: string)
    requires Text(a, s) == Text(b, t)
    ensures a.(createdAt := b.createdAt) == b && s == t
  {
    MembersAre(a, s);
    MembersAre(b, t);
    var (ma, mb) := (Members(a, s), Members(b, t));
    BlockReads(1, '{', ma, mb, '}', 0);
    assert ma[..6] == FieldTexts(Head(a, s)) && mb[..6] == FieldTexts(Head(b, t));
    assert ma[6] == Member("disks", DiskListText(a.disks)) && mb[6] == Member("disks", DiskListText(b.disks));
    assert ma[7..] == FieldTexts(Tail(a)) && mb[7..] == FieldTexts(Tail(b));
    HeadReads(a, s, b, t);
    MemberInjective("disks", DiskListText(a.disks), DiskListText(b.disks));
    DiskListInjective(a.disks, b.disks);
    TailReads(a, b);
  }

  // ---------- readers ----------

  /** What a text is the descriptor of, if of anything. */
  ghost function Read(stamp: int -> string, t: string): Option<Metadata> {
    if m: Metadata :| Text(m, stamp(m.createdAt)) == t then Some(m) else None
  }

  ghost predicate Distinguishes(stamp: int -> string) {
    forall a, b | stamp(a) == stamp(b) :: a == b
  }

  /** With stamps that tell instants apart there is a reader as the other results
      ask for: it reads every descriptor back and takes only texts whose brackets
      close. */
  lemma ReadersExist(stamp: int -> string) returns (c: Codec)
    requires Distinguishes(stamp)
    ensures c.stamp == stamp && OnlyClosed(c) && forall m: Metadata :: ReadsBack(c, m)
  {
    c := Codec(stamp, t => Read(stamp, t));
    forall t | c.parse(t).Some? ensures Closed(t) {
      var m := c.parse(t).value;
      TornIsNeverClosed(m, stamp(m.createdAt), |t|);
      assert t[..|t|] == t;
    }
    forall m: Metadata ensures ReadsBack(c, m) {
      var t := Encoded(c, m);
      assert Text(m, stamp(m.createdAt)) == t;
      var n := Read(stamp, t).value;
      TextIsInjective(m, stamp(m.createdAt), n, stamp(n.createdAt));
    }
  }
}
