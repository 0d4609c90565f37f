/** The cursor-based decoder and the buffer-appending encoder, proved against the codec functions. */
module StatementReader {
  import opened Basics
  import opened Statements

  /** A cursor over the bytes not read yet. */
  class Reader {
    var rest: seq<Byte>

    constructor (bytes: seq<Byte>)
      ensures rest == bytes
    {
      rest := bytes;
    }

    method TakeBytes(len: nat) returns (r: Result<seq<Byte>, GovError>)
      modifies this
      ensures match Take(old(rest), len)
        case Success(p) => r == Success(p.0) && rest == p.1
        case Failure(e) => r == Failure(e) && rest == old(rest)
    {
      if |rest| < len {
        return Failure(Malformed);
      }
      r := Success(rest[..len]);
      rest := rest[len..];
    }

    method U8() returns (r: Result<Byte, GovError>)
      modifies this
      ensures match TakeByte(old(rest))
        case Success(p) => r == Success(p.0) && rest == p.1
        case Failure(e) => r == Failure(e) && rest == old(rest)
    {
      var b :- TakeBytes(1);
      r := Success(b[0]);
    }

    /** `u16` and `u64`, by their width in bytes. */
    method UInt(w: nat) returns (r: Result<nat, GovError>)
      modifies this
      ensures match TakeInt(old(rest), w)
        case Success(p) => r == Success(p.0) && rest == p.1
        case Failure(e) => r == Failure(e) && rest == old(rest)
    {
      var b :- TakeBytes(w);
      r := Success(FromBigEndian(b));
    }

    method Array32() returns (r: Result<Key, GovError>)
      modifies this
      ensures match TakeKey(old(rest))
        case Success(p) => r == Success(p.0) && rest == p.1
        case Failure(e) => r == Failure(e) && rest == old(rest)
    {
      var b :- TakeBytes(32);
      r := Success(b);
    }

    method Keys(count: nat) returns (r: Result<seq<Key>, GovError>)
      modifies this
      ensures match TakeAll(TakeKey, old(rest), count)
        case Success(p) => r == Success(p.0) && rest == p.1
        case Failure(e) => r == Failure(e)
    {
      var out: seq<Key> := [];
      PrependedStart(TakeAll(TakeKey, rest, count));
      for i := 0 to count
        invariant |out| == i
        invariant Prepended(out, TakeAll(TakeKey, rest, count - i)) == TakeAll(TakeKey, old(rest), count)
      {
        PrependedStep(TakeKey, out, rest, count - i);
        var key :- Array32();
        out := out + [key];
      }
      assert out + [] == out;
      r := Success(out);
    }

    method Entries(count: nat) returns (r: Result<seq<(Byte, Key)>, GovError>)
      modifies this
      ensures match TakeAll(TakeEntry, old(rest), count)
        case Success(p) => r == Success(p.0) && rest == p.1
        case Failure(e) => r == Failure(e)
    {
      var out: seq<(Byte, Key)> := [];
      PrependedStart(TakeAll(TakeEntry, rest, count));
      for i := 0 to count
        invariant |out| == i
        invariant Prepended(out, TakeAll(TakeEntry, rest, count - i)) == TakeAll(TakeEntry, old(rest), count)
      {
        PrependedStep(TakeEntry, out, rest, count - i);
        var index :- U8();
        var key :- Array32();
        out := out + [(index, key)];
      }
      assert out + [] == out;
      r := Success(out);
    }

    method SignatureList(count: nat) returns (r: Result<seq<(Byte, Signature)>, GovError>)
      modifies this
      ensures match TakeAll(TakeSignature, old(rest), count)
        case Success(p) => r == Success(p.0) && rest == p.1
        case Failure(e) => r == Failure(e)
    {
      var out: seq<(Byte, Signature)> := [];
      PrependedStart(TakeAll(TakeSignature, rest, count));
      for i := 0 to count
        invariant |out| == i
        invariant Prepended(out, TakeAll(TakeSignature, rest, count - i))
                  == TakeAll(TakeSignature, old(rest), count)
      {
        PrependedStep(TakeSignature, out, rest, count - i);
        var index :- U8();
        var b :- TakeBytes(64);
        out := out + [(index, b)];
      }
      assert out + [] == out;
      r := Success(out);
    }
  }

  /** What a partly filled list and the parse of the remainder amount to together. */
  function Prepended<T>(out: seq<T>, p: Parsed<seq<T>>): Parsed<seq<T>> {
    match p
    case Success(v) => Success((out + v.0, v.1))
    case Failure(e) => Failure(e)
  }

  lemma {:induction false} PrependedStart<T>(p: Parsed<seq<T>>)
    ensures Prepended([], p) == p
  {
    if p.Success? {
      assert [] + p.value.0 == p.value.0;
    }
  }

  /** Reading one element moves it from the remainder to the list. */
  lemma {:induction false} PrependedStep<T>(read: seq<Byte> -> Parsed<T>, out: seq<T>, r: seq<Byte>, n: nat)
    requires n > 0
    ensures match read(r)
      case Success(v) =>
        Prepended(out, TakeAll(read, r, n)) == Prepended(out + [v.0], TakeAll(read, v.1, n - 1))
      case Failure(e) => Prepended(out, TakeAll(read, r, n)) == Failure(e)
  {
    if read(r).Success? {
      var (x, r1) := read(r).value;
      if TakeAll(read, r1, n - 1).Success? {
        var xs := TakeAll(read, r1, n - 1).value.0;
        assert out + ([x] + xs) == out + [x] + xs;
      }
    }
  }

  method ReadBody(kind: Byte, bytes: seq<Byte>) returns (r: Result<Body, GovError>)
    ensures r == DecodeBody(kind, bytes)
  {
    var reader := new Reader(bytes);
    var body;
    if kind == 0 {
      var threshold :- reader.U8();
      var count :- reader.U8();
      var keys :- reader.Keys(count);
      body := Genesis(threshold, keys);
    } else if kind == 1 {
      var count :- reader.U8();
      var entries :- reader.Entries(count);
      body := Rotation(entries);
    } else if kind == 2 || kind == 3 {
      var count :- reader.UInt(2);
      var keys :- reader.Keys(count);
      body := if kind == 2 then Revocation(keys) else Admission(keys);
    } else if kind == 4 {
      body := Activation;
    } else if kind == 5 {
      body := Death;
    } else {
      return Failure(UnknownKind);
    }
    r := if reader.rest == [] then Success(body) else Failure(Malformed);
  }

  method ReadStatement(bytes: seq<Byte>) returns (r: Result<Statement, GovError>)
    ensures r == Decode(bytes)
  {
    if |bytes| > MAX_STATEMENT_LEN {
      return Failure(TooLarge);
    }
    var reader := new Reader(bytes);
    var version :- reader.U8();
    if version != VERSION {
      return Failure(UnknownVersion);
    }
    var networkId :- reader.Array32();
    var sequence :- reader.UInt(8);
    Pow256Values();
    var previous :- reader.Array32();
    var kind :- reader.U8();
    var len :- reader.UInt(2);
    var bodyBytes :- reader.TakeBytes(len);
    var body :- ReadBody(kind, bodyBytes);
    var core := Core(networkId, sequence, previous, body);
    assert DecodeCore(bytes) == Success((core, reader.rest));
    var count :- reader.U8();
    var signatures :- reader.SignatureList(count);
    r := if reader.rest == [] then Success(Statement(core, signatures)) else Failure(Malformed);
  }

  method WriteKeys(keys: seq<Key>) returns (out: seq<Byte>)
    ensures out == EncodeAll(EncodeKey, keys)
  {
    out := [];
    for i := 0 to |keys|
      invariant out + EncodeAll(EncodeKey, keys[i..]) == EncodeAll(EncodeKey, keys)
    {
      assert keys[i..][1..] == keys[i + 1..];
      out := out + keys[i];
    }
  }

  method WriteEntries(entries: seq<(Byte, Key)>) returns (out: seq<Byte>)
    ensures out == EncodeAll(EncodeEntry, entries)
  {
    out := [];
    for i := 0 to |entries|
      invariant out + EncodeAll(EncodeEntry, entries[i..]) == EncodeAll(EncodeEntry, entries)
    {
      assert entries[i..][1..] == entries[i + 1..];
      out := out + [entries[i].0] + entries[i].1;
    }
  }

  method WriteSignatures(signatures: seq<(Byte, Signature)>) returns (out: seq<Byte>)
    ensures out == EncodeAll(EncodeSignature, signatures)
  {
    out := [];
    for i := 0 to |signatures|
      invariant out + EncodeAll(EncodeSignature, signatures[i..]) == EncodeAll(EncodeSignature, signatures)
    {
      assert signatures[i..][1..] == signatures[i + 1..];
      out := out + [signatures[i].0] + signatures[i].1;
    }
  }

  method WriteStatement(s: Statement) returns (out: seq<Byte>)
    ensures out == EncodeStatement(s)
  {
    var body;
    match s.core.body {
      case Genesis(threshold, keys) =>
        body := WriteKeys(keys);
        body := [threshold, |keys| % 256] + body;
      case Rotation(entries) =>
        body := WriteEntries(entries);
        body := [|entries| % 256] + body;
      case Revocation(members) =>
        body := WriteKeys(members);
        body := BigEndian(|members|, 2) + body;
      case Admission(members) =>
        body := WriteKeys(members);
        body := BigEndian(|members|, 2) + body;
      case Activation => body := [];
      case Death => body := [];
    }
    out := [VERSION] + s.core.networkId + BigEndian(s.core.sequence, 8) + s.core.previous
           + [Kind(s.core.body)] + BigEndian(|body|, 2) + body;
    var signatures := WriteSignatures(s.signatures);
    out := out + [|s.signatures| % 256] + signatures;
  }
}
