/** How long the text of a Tombstone is, and which Tombstones fit. */
module TombstoneSizes {
  import opened Basics
  import opened Statements
  import opened Tombstones
  import Governance
  import ChainTheorems
  import GD = GovernanceDocument

  // ---------------------------------------------------------------- compact JSON

  function Digits(n: nat): (r: string)
    ensures 0 < |r|
  {
    if n < 10 then ['0' + n as char] else Digits(n / 10) + ['0' + (n % 10) as char]
  }

  predicate NeedsEscape(c: char) {
    c == '"' || c == '\\'
  }

  /** Printable text inside a JSON string. */
  function Escaped(s: string): string {
    if s == "" then ""
    else (if NeedsEscape(s[0]) then ['\\', s[0]] else [s[0]]) + Escaped(s[1..])
  }

  function Quoted(s: string): string {
    "\"" + Escaped(s) + "\""
  }

  function Field(name: string, value: string): (r: string)
    ensures |r| == 4 + |name| + |value|
  {
    ",\"" + name + "\":" + value
  }

  /** An absent field is left out. */
  function OptionalField(name: string, value: Option<string>): string {
    if value.None? then "" else Field(name, value.value)
  }

  function MaybeQuoted(s: Option<string>): Option<string> {
    if s.None? then None else Some(Quoted(s.value))
  }

  function Opening(doc: Document): string {
    "{" + Field("format", Quoted(doc.format))[1..]
    + Field("version", Digits(doc.version))
    + Field("kind", Quoted(doc.kind))
  }

  function ChainFields(doc: Document): string {
    OptionalField("network_id", MaybeQuoted(doc.networkId))
    + OptionalField("terminal_sequence", if doc.sequence.None? then None else Some(Digits(doc.sequence.value)))
    + OptionalField("terminal_hash", MaybeQuoted(doc.hash))
    + OptionalField("death_statement", MaybeQuoted(doc.statement))
  }

  function Closing(doc: Document): string {
    Field("destruction", Quoted(doc.destruction)) + Field("software", Quoted(doc.software)) + "}"
  }

  /** The fields in their fixed order, without whitespace. */
  function JsonText(doc: Document): string {
    Opening(doc) + ChainFields(doc) + Closing(doc)
  }

  predicate Printable(s: string) {
    forall i :: 0 <= i < |s| ==> 0x20 <= s[i] as int <= 0x7E
  }

  /** Text that stands in JSON as it is. */
  predicate Plain(s: string) {
    forall i :: 0 <= i < |s| ==> !NeedsEscape(s[i])
  }

  ghost predicate PrintableDocument(doc: Document) {
    && Printable(doc.format) && Printable(doc.kind) && Printable(doc.destruction) && Printable(doc.software)
    && (doc.networkId.Some? ==> Printable(doc.networkId.value))
    && (doc.hash.Some? ==> Printable(doc.hash.value))
    && (doc.statement.Some? ==> Printable(doc.statement.value))
  }

  /** The text formats as they are: padded base64, and JSON without whitespace. */
  ghost predicate Compact(f: Formats) {
    && (forall b :: |f.encode64(b)| == (|b| + 2) / 3 * 4 && Plain(f.encode64(b)) && Printable(f.encode64(b)))
    && (forall doc :: PrintableDocument(doc) ==> f.json.write(doc) == Ascii(JsonText(doc)))
  }

  // ---------------------------------------------------------------- lengths

  lemma {:induction false} PlainEscaped(s: string)
    requires Plain(s)
    ensures |Escaped(s)| == |s|
  {
    if s != "" {
      PlainEscaped(s[1..]);
    }
  }

  lemma {:induction false} EscapedAtMostDouble(s: string)
    ensures |Escaped(s)| <= 2 * |s|
  {
    if s != "" {
      EscapedAtMostDouble(s[1..]);
    }
  }

  lemma {:induction false} DigitsAtMost(n: nat, k: nat, bound: nat)
    requires 0 < k && n < bound && bound == Power10(k)
    ensures |Digits(n)| <= k
    decreases k
  {
    if n >= 10 {
      assert k > 1;
      DigitsAtMost(n / 10, k - 1, Power10(k - 1));
    }
  }

  function Power10(k: nat): nat {
    if k == 0 then 1 else 10 * Power10(k - 1)
  }

  lemma {:induction false} SequenceDigits(n: U64)
    ensures |Digits(n)| <= 20
  {
    assert Power10(4) == 10000;
    assert Power10(8) == 1_0000_0000;
    assert Power10(12) == 1_0000_0000_0000;
    assert Power10(16) == 1_0000_0000_0000_0000;
    assert Power10(20) == 1_0000_0000_0000_0000_0000;
    DigitsAtMost(n, 20, Power10(20));
  }

  lemma {:induction false} HexPlain(bytes: seq<Byte>)
    ensures Plain(GD.Hex(bytes)) && Printable(GD.Hex(bytes))
  {
    if bytes != [] {
      HexPlain(bytes[1..]);
    }
  }

  lemma {:induction false} FormatPlain()
    ensures Plain(FORMAT) && Printable(FORMAT) && |FORMAT| == 18
  {
  }

  lemma {:induction false} KindsPlain()
    ensures Plain("death") && Printable("death") && |"death"| == 5
    ensures Plain("retirement") && Printable("retirement") && |"retirement"| == 10
  {
  }

  lemma {:induction false} WordPlain(d: Destruction)
    ensures Plain(DestructionText(d)) && Printable(DestructionText(d))
    ensures |DestructionText(d)| == if d == Complete then 8 else 10
  {
  }

  lemma {:induction false} OpeningLength(doc: Document)
    requires Plain(doc.format) && Plain(doc.kind) && doc.version == 1
    ensures |Opening(doc)| == 34 + |doc.format| + |doc.kind|
  {
    assert Digits(1) == "1";
    hide Digits;
    PlainEscaped(doc.format);
    PlainEscaped(doc.kind);
    hide Escaped;
    assert |"format"| == 6 && |"version"| == 7 && |"kind"| == 4;
    hide Field;
  }

  lemma {:induction false} ClosingLength(doc: Document)
    requires Plain(doc.destruction)
    ensures |Closing(doc)| == 32 + |doc.destruction| + |Escaped(doc.software)|
  {
    PlainEscaped(doc.destruction);
    hide Escaped;
    assert |"destruction"| == 11 && |"software"| == 8;
    hide Field;
  }

  lemma {:induction false} NoChainFields(doc: Document)
    requires doc.networkId.None? && doc.sequence.None? && doc.hash.None? && doc.statement.None?
    ensures ChainFields(doc) == ""
  {
  }

  lemma {:induction false} ChainFieldsLength(doc: Document)
    requires doc.networkId.Some? && doc.sequence.Some? && doc.hash.Some? && doc.statement.Some?
    requires Plain(doc.networkId.value) && Plain(doc.hash.value) && Plain(doc.statement.value)
    ensures |ChainFields(doc)| ==
      77 + |doc.networkId.value| + |Digits(doc.sequence.value)| + |doc.hash.value| + |doc.statement.value|
  {
    PlainEscaped(doc.networkId.value);
    PlainEscaped(doc.hash.value);
    PlainEscaped(doc.statement.value);
    hide Escaped;
    hide Digits;
    assert |"network_id"| == 10 && |"terminal_sequence"| == 17;
    assert |"terminal_hash"| == 13 && |"death_statement"| == 15;
    hide Field;
  }

  lemma {:induction false} WrittenLength(f: Formats, doc: Document)
    requires Compact(f) && PrintableDocument(doc)
    ensures |f.json.write(doc)| == |JsonText(doc)|
  {
    hide JsonText;
  }

  lemma {:induction false} Encoded64(f: Formats, b: seq<Byte>)
    requires Compact(f)
    ensures |f.encode64(b)| == (|b| + 2) / 3 * 4 && Plain(f.encode64(b)) && Printable(f.encode64(b))
  {
  }

  lemma {:induction false} DeathLength(f: Formats, st: Statement, d: Destruction, software: string)
    requires Compact(f) && ValidSoftware(software)
    ensures |f.json.write(DocumentOf(f, Tombstone(Some(st), d, software)))| == 294 + |Digits(st.core.sequence)|
      + (|EncodeStatement(st)| + 2) / 3 * 4 + |DestructionText(d)| + |Escaped(software)|
  {
    var doc := DocumentOf(f, Tombstone(Some(st), d, software));
    hide EncodeStatement;
    hide DestructionText;
    hide Digits;
    hide Escaped;
    FormatPlain();
    KindsPlain();
    WordPlain(d);
    HexPlain(st.core.networkId);
    HexPlain(f.hash(st.core));
    Encoded64(f, EncodeStatement(st));
    hide GD.Hex;
    hide Plain;
    assert Printable(software);
    hide Printable;
    hide ValidSoftware;
    OpeningLength(doc);
    ChainFieldsLength(doc);
    ClosingLength(doc);
    assert |JsonText(doc)| == |Opening(doc)| + |ChainFields(doc)| + |Closing(doc)|;
    hide Opening;
    hide ChainFields;
    hide Closing;
    WrittenLength(f, doc);
    hide Compact;
    hide JsonText;
  }

  lemma {:induction false} RetirementLength(f: Formats, d: Destruction, software: string)
    requires Compact(f) && ValidSoftware(software)
    ensures |f.json.write(DocumentOf(f, Tombstone(None, d, software)))| ==
      94 + |DestructionText(d)| + |Escaped(software)|
  {
    var doc := DocumentOf(f, Tombstone(None, d, software));
    hide DestructionText;
    hide Escaped;
    FormatPlain();
    KindsPlain();
    WordPlain(d);
    hide Plain;
    assert Printable(software);
    hide Printable;
    hide ValidSoftware;
    OpeningLength(doc);
    NoChainFields(doc);
    ClosingLength(doc);
    assert |JsonText(doc)| == |Opening(doc)| + |ChainFields(doc)| + |Closing(doc)|;
    hide Opening;
    hide ChainFields;
    hide Closing;
    WrittenLength(f, doc);
    hide Compact;
    hide JsonText;
  }

  // ---------------------------------------------------------------- what fits

  /** A retirement, or a death whose statement is of the size `apply` lets through. */
  predicate Small(t: Tombstone) {
    t.death.Some? ==> |EncodeStatement(t.death.value)| <= 2777
  }

  /** Every retirement and every death that was applied fits, finished or not. */
  lemma {:induction false} SmallTombstonesFit(f: Formats, t: Tombstone)
    requires Compact(f) && ValidSoftware(t.software) && Small(t)
    ensures Encode(f, t).Some?
  {
    hide DocumentOf;
    hide JsonText;
    hide EncodeStatement;
    hide Digits;
    hide Escaped;
    hide Compact;
    hide DestructionText;
    EscapedAtMostDouble(t.software);
    WordPlain(t.destruction);
    if t.death.Some? {
      DeathLength(f, t.death.value, t.destruction, t.software);
      SequenceDigits(t.death.value.core.sequence);
    } else {
      RetirementLength(f, t.destruction, t.software);
    }
    hide Plain;
    hide Printable;
    assert t == Tombstone(t.death, t.destruction, t.software);
  }

  /** A Tombstone can be made for every death that `apply` applies. */
  lemma {:induction false} AppliedDeathsFit(
      f: Formats, c: Governance.Crypto, head: Option<Governance.Head>, st: Statement, pinned: Option<Hash>,
      d: Destruction, software: string)
    requires Compact(f) && ValidSoftware(software) && st.core.body.Death?
    requires head.Some? ==> Governance.Check(head.value)
    requires var r := Governance.Apply(c, head, st, pinned); r.Success? && r.value.Applied?
    ensures MakeDeath(f, st, d, software) == Some(Tombstone(Some(st), d, software))
  {
    hide Governance.Apply;
    hide Governance.Check;
    hide Compact;
    hide Encode;
    hide EncodeStatement;
    ChainTheorems.AppliedStatementsEncode(c, head, st, pinned);
    SmallTombstonesFit(f, Tombstone(Some(st), d, software));
  }

  /** A death with more signatures than any applied one. */
  ghost function Crowded(d: Destruction): Tombstone {
    Tombstone(
      Some(Statement(Core(Zeros(32), 1_0000_0000, Zeros(32), Death), seq(89, i => (0, Zeros(64))))),
      d,
      seq(64, i => 'a'))
  }

  lemma {:induction false} CrowdedDigits()
    ensures |Digits(1_0000_0000)| == 9
  {
    assert |Digits(1)| == 1;
    assert |Digits(10)| == 2;
    assert |Digits(100)| == 3;
    assert |Digits(1000)| == 4;
    assert |Digits(1_0000)| == 5;
    assert |Digits(10_0000)| == 6;
    assert |Digits(100_0000)| == 7;
    assert |Digits(1000_0000)| == 8;
  }

  lemma {:induction false} CrowdedSizes(d: Destruction)
    ensures var t := Crowded(d);
      Sound(t) && |EncodeStatement(t.death.value)| == 5862 && |Escaped(t.software)| == 64
  {
    var t := Crowded(d);
    hide EncodeStatement;
    hide Escaped;
    StatementLength(t.death.value);
    BodyLengths(Death);
    hide EncodeBody;
    PlainEscaped(t.software);
  }

  /** Under the real formats a Tombstone can fit finished and not fit unfinished. */
  lemma {:induction false} SizesMayStraddle(f: Formats)
    requires Compact(f)
    ensures Sound(Crowded(Complete)) && Encode(f, Crowded(Complete)).Some? && Encode(f, Crowded(Incomplete)).None?
    ensures Crowded(Incomplete) == Crowded(Complete).(destruction := Incomplete)
  {
    var t := Crowded(Complete);
    hide DocumentOf;
    hide EncodeStatement;
    hide Digits;
    hide Escaped;
    hide DestructionText;
    hide Compact;
    CrowdedSizes(Complete);
    CrowdedDigits();
    WordPlain(Complete);
    WordPlain(Incomplete);
    assert t.death.value.core.sequence == 1_0000_0000;
    assert Crowded(Incomplete) == Tombstone(t.death, Incomplete, t.software);
    assert ValidSoftware(t.software);
    hide Crowded;
    hide ValidSoftware;
    hide Sound;
    DeathLength(f, t.death.value, Complete, t.software);
    DeathLength(f, t.death.value, Incomplete, t.software);
    hide Plain;
    hide Printable;
  }
}
