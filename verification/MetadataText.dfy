/** The text of metadata.json, and why a torn copy of it is never mistaken for a
    whole one: no strict prefix of a JSON object closes its first bracket. */
module MetadataText {

  // ---------- the descriptor of a backup point ----------

  datatype Kind = Full | Incremental
  datatype State = Unfinished | Complete
  datatype Format = Qcow2 | Raw
  datatype Disk = Disk(name: string, file: string, format: Format, sizeBytes: nat)

  datatype Metadata = Metadata(
    id: string,
    vmId: string,
    kind: Kind,
    state: State,
    createdAt: int,
    disks: seq<Disk>,
    hasDomainXml: bool,
    parentId: string,
    checkpoint: string)

  function FormatText(f: Format): string {
    match f case Qcow2 => "qcow2" case Raw => "raw"
  }

  // ---------- its JSON text ----------

  const HEX := "0123456789abcdef"

  /** One character inside a JSON string. */
  function EscapeChar(c: char): string {
    if c == '\"' then "\\\""
    else if c == '\\' then "\\\\"
    else if c == 8 as char then "\\b"
    else if c == 12 as char then "\\f"
    else if c == '\n' then "\\n"
    else if c == '\r' then "\\r"
    else if c == '\t' then "\\t"
    else if c < ' ' || c == '<' || c == '>' || c == '&' then
      ['\\', 'u', '0', '0', HEX[(c as int) / 16 % 16], HEX[(c as int) % 16]]
    else if c == 0x2028 as char then "\\u2028"
    else if c == 0x2029 as char then "\\u2029"
    else [c]
  }

  function EscapeAll(s: string): string {
    if s == "" then "" else EscapeChar(s[0]) + EscapeAll(s[1..])
  }

  function Quote(s: string): string {
    "\"" + EscapeAll(s) + "\""
  }

  function Digits(n: nat): string {
    if n < 10 then [HEX[n]] else Digits(n / 10) + [HEX[n % 10]]
  }

  function NewLine(level: nat): string {
    if level == 0 then "\n" else NewLine(level - 1) + "  "
  }

  function Join(items: seq<string>, separator: string): string {
    if items == [] then ""
    else if |items| == 1 then items[0]
    else items[0] + separator + Join(items[1..], separator)
  }

  /** An object or array with its items one a line. */
  function Block(open: string, items: seq<string>, close: string, level: nat): string {
    open + (NewLine(level + 1) + (Join(items, "," + NewLine(level + 1)) + NewLine(level))) + close
  }

  function Member(name: string, text: string): string {
    Quote(name) + (": " + text)
  }

  datatype Scalar = Str(text: string) | Number(n: nat) | Bool(b: bool)
  datatype Field = Field(name: string, value: Scalar)

  function ScalarText(v: Scalar): string {
    match v
    case Str(text) => Quote(text)
    case Number(n) => Digits(n)
    case Bool(b) => if b then "true" else "false"
  }

  function FieldTexts(fields: seq<Field>): seq<string> {
    seq(|fields|, i requires 0 <= i < |fields| => Member(fields[i].name, ScalarText(fields[i].value)))
  }

  function DiskText(d: Disk): string {
    Block("{", FieldTexts([ Field("name", Str(d.name)),
                            Field("file", Str(d.file)),
                            Field("format", Str(FormatText(d.format))),
                            Field("sizeBytes", Number(d.sizeBytes)) ]), "}", 2)
  }

  function DiskListText(disks: seq<Disk>): string {
    if disks == [] then "null"
    else Block("[", seq(|disks|, i requires 0 <= i < |disks| => DiskText(disks[i])), "]", 1)
  }

  /** A field that is left out when it is empty. */
  function OmitEmpty(name: string, text: string): seq<Field> {
    if text == "" then [] else [Field(name, Str(text))]
  }

  function Members(m: Metadata, stamp: string): seq<string> {
    FieldTexts([ Field("id", Str(m.id)),
                 Field("vmId", Str(m.vmId)),
                 Field("vmName", Str(m.vmId)),
                 Field("type", Str(if m.kind.Full? then "full" else "incremental")),
                 Field("state", Str(if m.state.Complete? then "complete" else "")),
                 Field("createdAt", Str(stamp)) ])
    + [Member("disks", DiskListText(m.disks))]
    + FieldTexts([Field("hasDomainXml", Bool(m.hasDomainXml))]
                 + OmitEmpty("parentId", m.parentId) + OmitEmpty("checkpoint", m.checkpoint))
  }

  /** The file's text, given the text of its time stamp. */
  function Text(m: Metadata, stamp: string): string {
    Block("{", Members(m, stamp), "}", 0)
  }

  // ---------- scanning ----------

  /** How many brackets are open, and whether inside a string. */
  datatype Scan = Scan(depth: int, quoted: bool, escaped: bool)

  function Next(s: Scan, c: char): Scan {
    if s.escaped then s.(escaped := false)
    else if s.quoted then
      if c == '\\' then s.(escaped := true) else if c == '\"' then s.(quoted := false) else s
    else if c == '\"' then s.(quoted := true)
    else if c in "{[" then s.(depth := s.depth + 1)
    else if c in "}]" then s.(depth := s.depth - 1)
    else s
  }

  function Run(s: Scan, t: string): Scan
    decreases t
  {
    if t == "" then s else Run(Next(s, t[0]), t[1..])
  }

  /** A text whose brackets all close, outside any string. */
  predicate Closed(t: string) {
    t != "" && Run(Outside(0), t) == Outside(0)
  }

  function Outside(depth: int): Scan {
    Scan(depth, false, false)
  }

  function Inside(depth: int): Scan {
    Scan(depth, true, false)
  }

  /** Scanning the text never goes below a depth. */
  predicate Above(s: Scan, t: string, floor: int)
    decreases t
  {
    s.depth >= floor && (t != "" ==> Above(Next(s, t[0]), t[1..], floor))
  }

  /** Scanning the text comes back to where it started, without leaving it. */
  predicate Neutral(s: Scan, t: string) {
    Run(s, t) == s && Above(s, t, s.depth)
  }

  lemma {:induction false} RunConcat(s: Scan, a: string, b: string, floor: int)
    ensures Run(s, a + b) == Run(Run(s, a), b)
    ensures Above(s, a, floor) && Above(Run(s, a), b, floor) ==> Above(s, a + b, floor)
    decreases a
  {
    if a == "" {
      assert a + b == b;
    } else {
      RunConcat(Next(s, a[0]), a[1..], b, floor);
      assert (a + b)[0] == a[0] && (a + b)[1..] == a[1..] + b;
    }
  }

  lemma {:induction false} AbovePrefix(s: Scan, t: string, k: nat, floor: int)
    requires Above(s, t, floor) && k <= |t|
    ensures Run(s, t[..k]).depth >= floor
    decreases t
  {
    if k > 0 {
      AbovePrefix(Next(s, t[0]), t[1..], k - 1, floor);
      assert t[..k][1..] == t[1..][..k - 1];
    }
  }

  lemma NeutralConcat(s: Scan, a: string, b: string)
    requires Neutral(s, a) && Neutral(s, b)
    ensures Neutral(s, a + b)
  {
    RunConcat(s, a, b, s.depth);
  }

  /** Text without quotes or brackets. */
  predicate Plain(t: string) {
    forall i :: 0 <= i < |t| ==> t[i] !in "\"{}[]"
  }

  lemma {:induction false} PlainIsNeutral(d: int, t: string)
    requires Plain(t)
    ensures Neutral(Outside(d), t)
  {
    if t != "" {
      assert t[0] !in "\"{}[]";
      assert Next(Outside(d), t[0]) == Outside(d);
      PlainIsNeutral(d, t[1..]);
    }
  }

  lemma EscapeIsNeutral(d: int, c: char)
    ensures Neutral(Inside(d), EscapeChar(c))
  {
    var t := EscapeChar(c);
    if |t| == 1 {
      assert t[1..] == "";
    } else {
      assert t[0] == '\\';
      EscapedTail(d, t[1..]);
    }
  }

  /** After a backslash any character is taken, and then plain ones. */
  lemma EscapedTail(d: int, t: string)
    requires t != "" && forall i :: 1 <= i < |t| ==> t[i] != '\"' && t[i] != '\\'
    ensures Run(Scan(d, true, true), t) == Inside(d) && Above(Scan(d, true, true), t, d)
  {
    InsideIsNeutral(d, t[1..]);
  }

  lemma {:induction false} InsideIsNeutral(d: int, t: string)
    requires forall i :: 0 <= i < |t| ==> t[i] != '\"' && t[i] != '\\'
    ensures Neutral(Inside(d), t)
  {
    if t != "" {
      InsideIsNeutral(d, t[1..]);
    }
  }

  lemma {:induction false} EscapesAreNeutral(d: int, s: string)
    ensures Neutral(Inside(d), EscapeAll(s))
  {
    if s != "" {
      EscapeIsNeutral(d, s[0]);
      EscapesAreNeutral(d, s[1..]);
      NeutralConcat(Inside(d), EscapeChar(s[0]), EscapeAll(s[1..]));
    }
  }

  /** A quoted string is neutral whatever it holds. */
  lemma QuoteIsNeutral(d: int, s: string)
    ensures Neutral(Outside(d), Quote(s))
  {
    var e := EscapeAll(s);
    EscapesAreNeutral(d, s);
    assert "\""[1..] == "";
    assert Next(Inside(d), '\"') == Outside(d) && Next(Outside(d), '\"') == Inside(d);
    assert Run(Inside(d), "\"") == Outside(d) && Above(Inside(d), "\"", d);
    RunConcat(Inside(d), e, "\"", d);
    assert Quote(s)[1..] == e + "\"";
    assert Quote(s)[0] == '\"';
  }

  lemma {:induction false} DigitsArePlain(n: nat)
    ensures Plain(Digits(n))
  {
    if n >= 10 {
      DigitsArePlain(n / 10);
    }
  }

  lemma {:induction false} NewLineIsPlain(level: nat)
    ensures Plain(NewLine(level))
  {
    if level > 0 {
      NewLineIsPlain(level - 1);
    }
  }

  predicate AllNeutral(d: int, items: seq<string>) {
    forall i :: 0 <= i < |items| ==> Neutral(Outside(d), items[i])
  }

  lemma {:induction false} JoinIsNeutral(d: int, items: seq<string>, separator: string)
    requires AllNeutral(d, items) && Neutral(Outside(d), separator)
    ensures Neutral(Outside(d), Join(items, separator))
  {
    if |items| > 1 {
      assert Neutral(Outside(d), items[0]);
      JoinIsNeutral(d, items[1..], separator);
      NeutralConcat(Outside(d), items[0], separator);
      NeutralConcat(Outside(d), items[0] + separator, Join(items[1..], separator));
    }
  }

  /** The inside of a block, between its brackets. */
  function Body(items: seq<string>, level: nat): string {
    NewLine(level + 1) + (Join(items, "," + NewLine(level + 1)) + NewLine(level))
  }

  lemma BodyIsNeutral(d: int, items: seq<string>, level: nat)
    requires AllNeutral(d, items)
    ensures Neutral(Outside(d), Body(items, level))
  {
    NewLineIsPlain(level);
    NewLineIsPlain(level + 1);
    PlainIsNeutral(d, NewLine(level));
    PlainIsNeutral(d, NewLine(level + 1));
    var separator := "," + NewLine(level + 1);
    PlainIsNeutral(d, separator);
    JoinIsNeutral(d, items, separator);
    NeutralConcat(Outside(d), Join(items, separator), NewLine(level));
    NeutralConcat(Outside(d), NewLine(level + 1), Join(items, separator) + NewLine(level));
  }

  lemma BlockIsNeutral(d: int, open: char, items: seq<string>, close: char, level: nat)
    requires AllNeutral(d + 1, items) && open in "{[" && close in "}]"
    ensures Neutral(Outside(d), Block([open], items, [close], level))
  {
    var body := Body(items, level);
    BodyIsNeutral(d + 1, items, level);
    AboveLower(Outside(d + 1), body, d + 1, d);
    assert [close][1..] == "";
    assert Next(Outside(d + 1), close) == Outside(d) && Next(Outside(d), open) == Outside(d + 1);
    assert Run(Outside(d + 1), [close]) == Outside(d) && Above(Outside(d + 1), [close], d);
    RunConcat(Outside(d + 1), body, [close], d);
    var t := Block([open], items, [close], level);
    assert t[0] == open && t[1..] == body + [close];
  }

  lemma {:induction false} AboveLower(s: Scan, t: string, high: int, low: int)
    requires Above(s, t, high) && low <= high
    ensures Above(s, t, low)
    decreases t
  {
    if t != "" {
      AboveLower(Next(s, t[0]), t[1..], high, low);
    }
  }

  lemma MemberIsNeutral(d: int, name: string, text: string)
    requires Neutral(Outside(d), text)
    ensures Neutral(Outside(d), Member(name, text))
  {
    QuoteIsNeutral(d, name);
    PlainIsNeutral(d, ": ");
    NeutralConcat(Outside(d), ": ", text);
    NeutralConcat(Outside(d), Quote(name), ": " + text);
  }

  lemma ScalarIsNeutral(d: int, v: Scalar)
    ensures Neutral(Outside(d), ScalarText(v))
  {
    match v
    case Str(text) => QuoteIsNeutral(d, text);
    case Number(n) =>
      DigitsArePlain(n);
      PlainIsNeutral(d, Digits(n));
    case Bool(b) => PlainIsNeutral(d, ScalarText(v));
  }

  lemma FieldsAreNeutral(d: int, fields: seq<Field>)
    ensures AllNeutral(d, FieldTexts(fields))
  {
    forall i | 0 <= i < |fields| ensures Neutral(Outside(d), FieldTexts(fields)[i]) {
      ScalarIsNeutral(d, fields[i].value);
      MemberIsNeutral(d, fields[i].name, ScalarText(fields[i].value));
    }
  }

  lemma DiskIsNeutral(d: int, disk: Disk)
    ensures Neutral(Outside(d), DiskText(disk))
  {
    var fields := [ Field("name", Str(disk.name)),
                    Field("file", Str(disk.file)),
                    Field("format", Str(FormatText(disk.format))),
                    Field("sizeBytes", Number(disk.sizeBytes)) ];
    FieldsAreNeutral(d + 1, fields);
    BlockIsNeutral(d, '{', FieldTexts(fields), '}', 2);
  }

  lemma DisksAreNeutral(d: int, disks: seq<Disk>)
    ensures Neutral(Outside(d), DiskListText(disks))
  {
    if disks == [] {
      PlainIsNeutral(d, "null");
    } else {
      var texts := seq(|disks|, i requires 0 <= i < |disks| => DiskText(disks[i]));
      forall i | 0 <= i < |disks| ensures Neutral(Outside(d + 1), texts[i]) {
        DiskIsNeutral(d + 1, disks[i]);
      }
      BlockIsNeutral(d, '[', texts, ']', 1);
    }
  }

  lemma NeutralAppend(d: int, a: seq<string>, b: seq<string>)
    requires AllNeutral(d, a) && AllNeutral(d, b)
    ensures AllNeutral(d, a + b)
  {
  }

  lemma MembersAreNeutral(d: int, m: Metadata, stamp: string)
    ensures AllNeutral(d, Members(m, stamp))
  {
    var head := [ Field("id", Str(m.id)),
                  Field("vmId", Str(m.vmId)),
                  Field("vmName", Str(m.vmId)),
                  Field("type", Str(if m.kind.Full? then "full" else "incremental")),
                  Field("state", Str(if m.state.Complete? then "complete" else "")),
                  Field("createdAt", Str(stamp)) ];
    var tail := [Field("hasDomainXml", Bool(m.hasDomainXml))]
                + OmitEmpty("parentId", m.parentId) + OmitEmpty("checkpoint", m.checkpoint);
    var disks := [Member("disks", DiskListText(m.disks))];
    FieldsAreNeutral(d, head);
    FieldsAreNeutral(d, tail);
    DisksAreNeutral(d, m.disks);
    MemberIsNeutral(d, "disks", DiskListText(m.disks));
    NeutralAppend(d, FieldTexts(head), disks);
    NeutralAppend(d, FieldTexts(head) + disks, FieldTexts(tail));
    assert Members(m, stamp) == FieldTexts(head) + disks + FieldTexts(tail);
  }

  /** Strictly inside a block a prefix has at least one open bracket. */
  lemma PrefixStaysOpen(items: seq<string>, level: nat, k: nat)
    requires AllNeutral(1, items) && 0 < k < |Block("{", items, "}", level)|
    ensures !Closed(Block("{", items, "}", level)[..k])
  {
    var body, t := Body(items, level), Block("{", items, "}", level);
    BodyIsNeutral(1, items, level);
    assert t == "{" + (body + "}");
    assert t[..k][0] == '{' && t[..k][1..] == body[..k - 1];
    assert Next(Outside(0), '{') == Outside(1);
    AbovePrefix(Outside(1), body, k - 1, 1);
  }

  lemma TornBlock(items: seq<string>, k: nat)
    requires AllNeutral(1, items) && k <= |Block("{", items, "}", 0)|
    ensures Closed(Block("{", items, "}", 0)[..k]) <==> k == |Block("{", items, "}", 0)|
  {
    var t := Block("{", items, "}", 0);
    if k == |t| {
      BlockIsNeutral(0, '{', items, '}', 0);
      assert t[..k] == t;
    } else if k > 0 {
      PrefixStaysOpen(items, 0, k);
    }
  }

  /** A prefix of the file, torn anywhere, is closed if and only if it is the
      whole file: whatever the ids, names and disks in it contain. */
  lemma TornIsNeverClosed(m: Metadata, stamp: string, k: nat)
    requires k <= |Text(m, stamp)|
    ensures Closed(Text(m, stamp)[..k]) <==> k == |Text(m, stamp)|
  {
    var items := Members(m, stamp);
    MembersAreNeutral(1, m, stamp);
    TornBlock(items, k);
  }
}
