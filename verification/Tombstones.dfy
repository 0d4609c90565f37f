/** The one file left in a destroyed Den. */
module Tombstones {
  import opened Basics
  import opened Statements
  import GD = GovernanceDocument

  const MAX_LEN := 8 * 1024
  const MAX_SOFTWARE_LEN := 64
  const FORMAT := "werewolf-tombstone"

  datatype Destruction = Incomplete | Complete

  /** A death carries its statement; a retirement carries nothing. */
  datatype Tombstone = Tombstone(death: Option<Statement>, destruction: Destruction, software: string)

  datatype Document = Document(
    format: string,
    version: nat,
    kind: string,
    networkId: Option<string>,
    sequence: Option<nat>,
    hash: Option<string>,
    statement: Option<string>,
    destruction: string,
    software: string)

  /** JSON, base64 and the hash of a core. */
  datatype Formats = Formats(
    json: Codec<Document>,
    encode64: seq<Byte> -> string,
    decode64: string -> Option<seq<Byte>>,
    hash: Core -> Hash)
  {
    ghost predicate Faithful() {
      && json.Faithful()
      && (forall b :: decode64(encode64(b)) == Some(b))
    }
  }

  predicate ValidSoftware(software: string) {
    && 0 < |software| <= MAX_SOFTWARE_LEN
    && forall i :: 0 <= i < |software| ==> 0x20 <= software[i] as int <= 0x7E
  }

  function DestructionText(d: Destruction): string {
    if d == Complete then "complete" else "incomplete"
  }

  function DocumentOf(f: Formats, t: Tombstone): Document {
    match t.death
    case None => Document(FORMAT, 1, "retirement", None, None, None, None, DestructionText(t.destruction), t.software)
    case Some(st) =>
      Document(FORMAT, 1, "death", Some(GD.Hex(st.core.networkId)), Some(st.core.sequence),
               Some(GD.Hex(f.hash(st.core))), Some(f.encode64(EncodeStatement(st))),
               DestructionText(t.destruction), t.software)
  }

  function Encode(f: Formats, t: Tombstone): Option<seq<Byte>> {
    var bytes := f.json.write(DocumentOf(f, t));
    if |bytes| > MAX_LEN then None else Some(bytes)
  }

  function MakeDeath(f: Formats, st: Statement, d: Destruction, software: string): Option<Tombstone> {
    var t := Tombstone(Some(st), d, software);
    if !st.core.body.Death? || !ValidSoftware(software) || Encode(f, t).None? then None else Some(t)
  }

  function MakeRetirement(d: Destruction, software: string): Option<Tombstone> {
    if ValidSoftware(software) then Some(Tombstone(None, d, software)) else None
  }

  function ReadDestruction(text: string): Option<Destruction> {
    if text == "incomplete" then Some(Incomplete) else if text == "complete" then Some(Complete) else None
  }

  function ReadStatement(f: Formats, text: Option<string>): Option<Statement> {
    var encoded :- text;
    var bytes :- f.decode64(encoded);
    match Decode(bytes)
    case Success(st) => Some(st)
    case Failure(_) => None
  }

  function ReadDeath(f: Formats, doc: Document, d: Destruction): Option<Tombstone> {
    var st :- ReadStatement(f, doc.statement);
    var t :- MakeDeath(f, st, d, doc.software);
    var rebuilt := DocumentOf(f, t);
    if doc.networkId != rebuilt.networkId || doc.sequence != rebuilt.sequence || doc.hash != rebuilt.hash then None
    else Some(t)
  }

  function ReadRetirement(doc: Document, d: Destruction): Option<Tombstone> {
    if doc.networkId.Some? || doc.sequence.Some? || doc.hash.Some? || doc.statement.Some? then None
    else MakeRetirement(d, doc.software)
  }

  /** Strict: only the canonical bytes of a consistent Tombstone. */
  function Parse(f: Formats, bytes: seq<Byte>): Option<Tombstone> {
    if |bytes| > MAX_LEN then None
    else
      var doc :- f.json.read(bytes);
      if doc.format != FORMAT || doc.version != 1 then None
      else
        var d :- ReadDestruction(doc.destruction);
        var t :-
          if doc.kind == "death" then ReadDeath(f, doc, d)
          else if doc.kind == "retirement" then ReadRetirement(doc, d)
          else None;
        if Encode(f, t) == Some(bytes) then Some(t) else None
  }

  /** Tombstones the node can hold: printable software name, and a death statement that encodes. */
  predicate Sound(t: Tombstone) {
    && ValidSoftware(t.software)
    && (t.death.Some? ==> t.death.value.core.body.Death? && Encodable(t.death.value))
  }

  lemma {:induction false} DestructionReads(d: Destruction)
    ensures ReadDestruction(DestructionText(d)) == Some(d)
  {
    assert "incomplete"[0] != "complete"[0];
  }

  lemma {:induction false} KindsDiffer()
    ensures "retirement" != "death"
  {
    assert "retirement"[0] != "death"[0];
  }

  lemma {:induction false} DeathReads(f: Formats, t: Tombstone)
    requires f.Faithful() && Sound(t) && t.death.Some? && Encode(f, t).Some?
    ensures ReadDeath(f, DocumentOf(f, t), t.destruction) == Some(t)
  {
    hide Encode;
    hide Decode;
    hide EncodeStatement;
    hide Encodable;
    hide ValidSoftware;
    var st := t.death.value;
    RoundTripIff(st);
    assert f.decode64(f.encode64(EncodeStatement(st))) == Some(EncodeStatement(st));
    assert ReadStatement(f, DocumentOf(f, t).statement) == Some(st);
  }

  lemma {:induction false} ReadStatementSound(f: Formats, text: Option<string>)
    requires ReadStatement(f, text).Some?
    ensures Encodable(ReadStatement(f, text).value)
  {
    hide Decode;
    hide EncodeStatement;
    hide Encodable;
    DecodeExact(f.decode64(text.value).value);
  }

  /** A Tombstone has exactly one text: parsing accepts the canonical bytes and nothing else. */
  lemma {:induction false} ParseExact(f: Formats, bytes: seq<Byte>, t: Tombstone)
    requires f.Faithful()
    ensures Parse(f, bytes) == Some(t) <==> Sound(t) && Encode(f, t) == Some(bytes)
  {
    hide Decode;
    hide EncodeStatement;
    hide Encodable;
    hide ValidSoftware;
    if Sound(t) && Encode(f, t) == Some(bytes) {
      var doc := DocumentOf(f, t);
      assert f.json.read(f.json.write(doc)) == Some(doc);
      DestructionReads(t.destruction);
      KindsDiffer();
      hide ReadDestruction;
      hide DestructionText;
      if t.death.Some? {
        DeathReads(f, t);
      }
    }
    if Parse(f, bytes) == Some(t) {
      hide ReadDestruction;
      hide Encode;
      var doc := f.json.read(bytes).value;
      if doc.kind == "death" {
        ReadStatementSound(f, doc.statement);
      }
    }
  }

  /** The finished form is no longer than the unfinished one in the text format. */
  ghost predicate CompleteIsShorter(f: Formats) {
    forall doc: Document ::
      |f.json.write(doc.(destruction := "complete"))| <= |f.json.write(doc.(destruction := "incomplete"))|
  }

  lemma {:induction false} CompleteEncodes(f: Formats, t: Tombstone)
    requires CompleteIsShorter(f) && Encode(f, t.(destruction := Incomplete)).Some?
    ensures Encode(f, t.(destruction := Complete)).Some?
  {
    hide EncodeStatement;
    hide GD.Hex;
    var doc := DocumentOf(f, t);
    assert DocumentOf(f, t.(destruction := Complete)) == doc.(destruction := "complete");
    assert DocumentOf(f, t.(destruction := Incomplete)) == doc.(destruction := "incomplete");
  }

  /** What the file tells a reader: the kind, and for a death the network, sequence and hash of the very
      statement it carries. */
  lemma {:induction false} TombstoneTells(f: Formats, bytes: seq<Byte>, t: Tombstone)
    requires f.Faithful() && Parse(f, bytes) == Some(t)
    ensures f.json.read(bytes).Some?
    ensures var doc := f.json.read(bytes).value;
      && (t.death.None? <==> doc.kind == "retirement") && (t.death.Some? <==> doc.kind == "death")
      && (t.destruction == Complete <==> doc.destruction == "complete") && doc.software == t.software
      && (t.death.Some? ==>
            var st := t.death.value;
            && doc.sequence == Some(st.core.sequence)
            && doc.networkId.Some? && GD.Unhex(doc.networkId.value, 32) == Some(st.core.networkId)
            && doc.hash.Some? && GD.Unhex(doc.hash.value, 32) == Some(f.hash(st.core))
            && ReadStatement(f, doc.statement) == Some(st))
  {
    ParseExact(f, bytes, t);
    hide Parse;
    var doc := DocumentOf(f, t);
    assert f.json.read(f.json.write(doc)) == Some(doc);
    KindsDiffer();
    DestructionReads(t.destruction);
    if t.death.Some? {
      var st := t.death.value;
      GD.UnhexHex(st.core.networkId);
      GD.UnhexHex(f.hash(st.core));
      RoundTripIff(st);
      hide Decode;
      hide EncodeStatement;
      hide Encodable;
      assert f.decode64(f.encode64(EncodeStatement(st))) == Some(EncodeStatement(st));
    }
    hide GD.Hex;
    hide GD.Unhex;
  }
}
