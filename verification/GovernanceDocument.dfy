/** The stored form of the chain head. */
module GovernanceDocument {
  import opened Basics
  import opened Statements
  import opened Governance
  import opened ChainTheorems

  // ---------------------------------------------------------------- hexadecimal text

  function HexDigit(n: int): char
    requires 0 <= n < 16
  {
    if n < 10 then '0' + n as char else 'a' + (n - 10) as char
  }

  function DigitValue(d: char): Option<int> {
    if '0' <= d <= '9' then Some(d as int - '0' as int)
    else if 'a' <= d <= 'f' then Some(d as int - 'a' as int + 10)
    else if 'A' <= d <= 'F' then Some(d as int - 'A' as int + 10)
    else None
  }

  /** `u8::from_str_radix(pair, 16)`, which also takes a leading plus sign. */
  function PairValue(a: char, b: char): (r: Option<int>)
    ensures r.Some? ==> 0 <= r.value < 256
  {
    if a == '+' then DigitValue(b)
    else
      var high :- DigitValue(a);
      var low :- DigitValue(b);
      Some(16 * high + low)
  }

  function Hex(bytes: seq<Byte>): (t: string)
    ensures |t| == 2 * |bytes|
  {
    if bytes == [] then ""
    else [HexDigit(bytes[0] / 16), HexDigit(bytes[0] % 16)] + Hex(bytes[1..])
  }

  function UnhexPairs(text: string): (r: Option<seq<Byte>>)
    ensures r.Some? ==> 2 * |r.value| == |text|
  {
    if text == "" then Some([])
    else if |text| == 1 then None
    else
      var first :- PairValue(text[0], text[1]);
      var rest :- UnhexPairs(text[2..]);
      Some([first] + rest)
  }

  function Unhex(text: string, n: nat): (r: Option<seq<Byte>>)
    ensures r.Some? ==> |r.value| == n
  {
    if |text| != 2 * n || exists i :: 0 <= i < |text| && text[i] as int >= 128 then None
    else UnhexPairs(text)
  }

  lemma {:induction false} UnhexHex(bytes: seq<Byte>)
    ensures UnhexPairs(Hex(bytes)) == Some(bytes)
    ensures forall i :: 0 <= i < 2 * |bytes| ==> Hex(bytes)[i] as int < 128
  {
    if bytes != [] {
      UnhexHex(bytes[1..]);
      var t := Hex(bytes);
      PairOfByte(bytes[0]);
      assert t[2..] == Hex(bytes[1..]);
      assert bytes == [bytes[0]] + bytes[1..];
      forall i | 0 <= i < |t| ensures t[i] as int < 128 {
        if i >= 2 {
          assert t[i] == Hex(bytes[1..])[i - 2];
        }
      }
    }
  }

  lemma {:induction false} PairOfByte(b: Byte)
    ensures PairValue(HexDigit(b / 16), HexDigit(b % 16)) == Some(b)
    ensures HexDigit(b / 16) as int < 128 && HexDigit(b % 16) as int < 128
  {
    DigitOf(b / 16);
    DigitOf(b % 16);
  }

  lemma {:induction false} DigitOf(n: int)
    requires 0 <= n < 16
    ensures DigitValue(HexDigit(n)) == Some(n) && HexDigit(n) != '+' && HexDigit(n) as int < 128
  {
  }

  function HexAll(ks: seq<Bytes32>): (ts: seq<string>)
    ensures |ts| == |ks|
  {
    if ks == [] then [] else [Hex(ks[0])] + HexAll(ks[1..])
  }

  function UnhexAll(ts: seq<string>): Option<seq<Bytes32>> {
    if ts == [] then Some([])
    else
      var first :- Unhex(ts[0], 32);
      var rest :- UnhexAll(ts[1..]);
      Some([first] + rest)
  }

  lemma {:induction false} UnhexAllHexAll(ks: seq<Bytes32>)
    ensures UnhexAll(HexAll(ks)) == Some(ks)
  {
    if ks != [] {
      UnhexHex(ks[0]);
      UnhexAllHexAll(ks[1..]);
      assert HexAll(ks)[1..] == HexAll(ks[1..]);
      assert ks == [ks[0]] + ks[1..];
    }
  }

  // ---------------------------------------------------------------- the document

  datatype KeyEpoch = KeyEpoch(setAt: nat, keys: seq<string>)

  datatype Document = Document(
    version: int,
    networkId: string,
    sequence: nat,
    hash: string,
    threshold: Byte,
    keyEpochs: seq<KeyEpoch>,
    revoked: seq<string>,
    applied: seq<string>,
    forked: bool,
    roster: seq<string>,
    activatedAt: Option<nat>,
    deadAt: Option<nat>)

  function EpochDocuments(epochs: seq<(nat, seq<Key>)>): seq<KeyEpoch> {
    if epochs == [] then []
    else [KeyEpoch(epochs[0].0, HexAll(epochs[0].1))] + EpochDocuments(epochs[1..])
  }

  function EpochsOf(docs: seq<KeyEpoch>): Option<seq<(nat, seq<Key>)>> {
    if docs == [] then Some([])
    else
      var keys :- UnhexAll(docs[0].keys);
      var rest :- EpochsOf(docs[1..]);
      Some([(docs[0].setAt, keys)] + rest)
  }

  lemma {:induction false} EpochsRoundTrip(epochs: seq<(nat, seq<Key>)>)
    ensures EpochsOf(EpochDocuments(epochs)) == Some(epochs)
  {
    if epochs != [] {
      UnhexAllHexAll(epochs[0].1);
      EpochsRoundTrip(epochs[1..]);
      assert EpochDocuments(epochs)[1..] == EpochDocuments(epochs[1..]);
      assert epochs == [epochs[0]] + epochs[1..];
    }
  }

  function DocumentOf(h: Head): Document {
    Document(1, Hex(h.networkId), h.sequence, Hex(h.hash), h.threshold, EpochDocuments(h.keyEpochs),
             HexAll(h.revoked), HexAll(h.applied), h.forked, HexAll(h.roster), h.activatedAt, h.deadAt)
  }

  function HeadOf(doc: Document): Option<Head> {
    if doc.version != 1 then None
    else
      var networkId :- Unhex(doc.networkId, 32);
      var hash :- Unhex(doc.hash, 32);
      var keyEpochs :- EpochsOf(doc.keyEpochs);
      var revoked :- UnhexAll(doc.revoked);
      var applied :- UnhexAll(doc.applied);
      var roster :- UnhexAll(doc.roster);
      Some(Head(networkId, doc.sequence, hash, doc.threshold, keyEpochs, revoked, applied, doc.forked,
                roster, doc.activatedAt, doc.deadAt))
  }

  lemma {:induction false} DocumentRoundTrip(h: Head)
    ensures HeadOf(DocumentOf(h)) == Some(h)
  {
    UnhexHex(h.networkId);
    UnhexHex(h.hash);
    EpochsRoundTrip(h.keyEpochs);
    UnhexAllHexAll(h.revoked);
    UnhexAllHexAll(h.applied);
    UnhexAllHexAll(h.roster);
  }

  /** The canonical bytes of a head that passes the structural check. */
  function Canonical(json: Codec<Document>, h: Head): Option<seq<Byte>> {
    if Check(h) then Some(json.write(DocumentOf(h))) else None
  }

  function Parse(json: Codec<Document>, bytes: seq<Byte>): Option<Head> {
    var doc :- json.read(bytes);
    var h :- HeadOf(doc);
    if Canonical(json, h) == Some(bytes) then Some(h) else None
  }

  /** Parsing accepts exactly the canonical bytes of well-formed heads, and returns that head. */
  lemma {:induction false} ParseExact(json: Codec<Document>, bytes: seq<Byte>, h: Head)
    requires json.Faithful()
    ensures Parse(json, bytes) == Some(h) <==> Canonical(json, h) == Some(bytes)
  {
    DocumentRoundTrip(h);
    assert json.read(json.write(DocumentOf(h))) == Some(DocumentOf(h));
  }

  /** Every head a node can reach, forked ones included, can be stored and is read back unchanged. */
  lemma {:induction false} ReachableHeadsPersist(json: Codec<Document>, c: Crypto, inputs: seq<Input>)
    requires json.Faithful() && Run(c, inputs).Some?
    ensures Canonical(json, Run(c, inputs).value).Some?
    ensures Parse(json, Canonical(json, Run(c, inputs).value).value) == Run(c, inputs)
  {
    var h := Run(c, inputs).value;
    ReachableHeads(c, inputs);
    ParseExact(json, Canonical(json, h).value, h);
  }
}
