/** Governance statements and their binary encoding. */
module Statements {
  import opened Basics

  const VERSION: Byte := 1
  const MAX_STATEMENT_LEN := 16 * 1024

  type Key = Bytes32
  type Hash = Bytes32
  type Signature = Bytes64

  datatype Body =
    | Genesis(threshold: Byte, keys: seq<Key>)
    | Rotation(entries: seq<(Byte, Key)>)
    | Revocation(members: seq<Key>)
    | Admission(members: seq<Key>)
    | Activation
    | Death

  datatype Core = Core(networkId: Bytes32, sequence: U64, previous: Hash, body: Body)

  datatype Statement = Statement(core: Core, signatures: seq<(Byte, Signature)>)

  datatype GovError =
    | TooLarge | Malformed | UnknownVersion | UnknownKind | BodyRule | Signatures | WrongNetwork
    | NoGenesis | GenesisMismatch | OutOfOrder | PreviousMismatch | Forked | Terminal

  type Parsed<T> = Result<(T, seq<Byte>), GovError>

  // ---------------------------------------------------------------- integers

  function Pow256(w: nat): (p: nat)
    ensures p > 0
  {
    if w == 0 then 1 else 256 * Pow256(w - 1)
  }

  /** The low `w` bytes of `n`, most significant first: `(n as uN).to_be_bytes()`, truncating. */
  function BigEndian(n: nat, w: nat): (b: seq<Byte>)
    ensures |b| == w
  {
    if w == 0 then [] else BigEndian(n / 256, w - 1) + [n % 256]
  }

  function FromBigEndian(b: seq<Byte>): (n: nat)
    ensures n < Pow256(|b|)
  {
    if b == [] then 0 else 256 * FromBigEndian(b[..|b| - 1]) + b[|b| - 1]
  }

  lemma {:induction false} BigEndianRoundTrip(n: nat, w: nat)
    requires n < Pow256(w)
    ensures FromBigEndian(BigEndian(n, w)) == n
  {
    if w > 0 {
      BigEndianRoundTrip(n / 256, w - 1);
      assert BigEndian(n, w)[..w - 1] == BigEndian(n / 256, w - 1);
    }
  }

  lemma {:induction false} FromBigEndianRoundTrip(b: seq<Byte>)
    ensures BigEndian(FromBigEndian(b), |b|) == b
  {
    if b != [] {
      var init := b[..|b| - 1];
      FromBigEndianRoundTrip(init);
      assert FromBigEndian(b) / 256 == FromBigEndian(init);
      assert b == init + [b[|b| - 1]];
    }
  }

  lemma {:induction false} Pow256Values()
    ensures Pow256(2) == 0x1_0000 && Pow256(8) == 0x1_0000_0000_0000_0000
  {
    assert Pow256(4) == 0x1_0000_0000;
    assert Pow256(6) == 0x1_0000_0000_0000;
  }

  // ---------------------------------------------------------------- encoding

  function EncodeKey(k: Key): seq<Byte> {
    k
  }

  function EncodeEntry(e: (Byte, Key)): seq<Byte> {
    [e.0] + e.1
  }

  function EncodeSignature(s: (Byte, Signature)): seq<Byte> {
    [s.0] + s.1
  }

  function EncodeAll<T>(write: T -> seq<Byte>, xs: seq<T>): seq<Byte> {
    if xs == [] then [] else write(xs[0]) + EncodeAll(write, xs[1..])
  }

  function Kind(body: Body): Byte {
    match body
    case Genesis(_, _) => 0
    case Rotation(_) => 1
    case Revocation(_) => 2
    case Admission(_) => 3
    case Activation => 4
    case Death => 5
  }

  function EncodeBody(body: Body): seq<Byte> {
    match body
    case Genesis(threshold, keys) => [threshold, |keys| % 256] + EncodeAll(EncodeKey, keys)
    case Rotation(entries) => [|entries| % 256] + EncodeAll(EncodeEntry, entries)
    case Revocation(members) => BigEndian(|members|, 2) + EncodeAll(EncodeKey, members)
    case Admission(members) => BigEndian(|members|, 2) + EncodeAll(EncodeKey, members)
    case Activation => []
    case Death => []
  }

  function EncodeCore(core: Core): seq<Byte> {
    var body := EncodeBody(core.body);
    [VERSION] + core.networkId + BigEndian(core.sequence, 8) + core.previous
    + [Kind(core.body)] + BigEndian(|body|, 2) + body
  }

  function EncodeStatement(s: Statement): seq<Byte> {
    EncodeCore(s.core) + [|s.signatures| % 256] + EncodeAll(EncodeSignature, s.signatures)
  }

  // ---------------------------------------------------------------- decoding

  function Take(r: seq<Byte>, n: nat): (p: Parsed<seq<Byte>>)
    ensures p.Success? ==> |p.value.0| == n && r == p.value.0 + p.value.1
  {
    if |r| < n then Failure(Malformed) else Success((r[..n], r[n..]))
  }

  function TakeByte(r: seq<Byte>): Parsed<Byte> {
    var (b, rest) :- Take(r, 1);
    Success((b[0], rest))
  }

  function TakeInt(r: seq<Byte>, w: nat): Parsed<nat> {
    var (b, rest) :- Take(r, w);
    Success((FromBigEndian(b), rest))
  }

  function TakeKey(r: seq<Byte>): Parsed<Key> {
    var (b, rest) :- Take(r, 32);
    Success((b, rest))
  }

  function TakeEntry(r: seq<Byte>): Parsed<(Byte, Key)> {
    var (index, r1) :- TakeByte(r);
    var (key, r2) :- TakeKey(r1);
    Success(((index, key), r2))
  }

  function TakeSignature(r: seq<Byte>): Parsed<(Byte, Signature)> {
    var (index, r1) :- TakeByte(r);
    var (b, r2) :- Take(r1, 64);
    Success(((index, b), r2))
  }

  function TakeAll<T>(read: seq<Byte> -> Parsed<T>, r: seq<Byte>, count: nat): Parsed<seq<T>>
    decreases count
  {
    if count == 0 then Success(([], r))
    else
      var (x, r1) :- read(r);
      var (xs, r2) :- TakeAll(read, r1, count - 1);
      Success(([x] + xs, r2))
  }

  function End<T>(p: (T, seq<Byte>)): Result<T, GovError> {
    if p.1 == [] then Success(p.0) else Failure(Malformed)
  }

  function DecodeBody(kind: Byte, bytes: seq<Byte>): Result<Body, GovError> {
    match kind
    case 0 =>
      var (threshold, r1) :- TakeByte(bytes);
      var (count, r2) :- TakeByte(r1);
      var (keys, r3) :- TakeAll(TakeKey, r2, count);
      End((Genesis(threshold, keys), r3))
    case 1 =>
      var (count, r1) :- TakeByte(bytes);
      var (entries, r2) :- TakeAll(TakeEntry, r1, count);
      End((Rotation(entries), r2))
    case 2 =>
      var (count, r1) :- TakeInt(bytes, 2);
      var (keys, r2) :- TakeAll(TakeKey, r1, count);
      End((Revocation(keys), r2))
    case 3 =>
      var (count, r1) :- TakeInt(bytes, 2);
      var (keys, r2) :- TakeAll(TakeKey, r1, count);
      End((Admission(keys), r2))
    case 4 => End((Activation, bytes))
    case 5 => End((Death, bytes))
    case _ => Failure(UnknownKind)
  }

  function DecodeCore(bytes: seq<Byte>): Parsed<Core> {
    var (version, r1) :- TakeByte(bytes);
    if version != VERSION then Failure(UnknownVersion)
    else
      var (networkId, r2) :- TakeKey(r1);
      var (sequence, r3) :- TakeInt(r2, 8);
      var (previous, r4) :- TakeKey(r3);
      var (kind, r5) :- TakeByte(r4);
      var (len, r6) :- TakeInt(r5, 2);
      var (b, r7) :- Take(r6, len);
      var body :- DecodeBody(kind, b);
      Pow256Values();
      assert TakeInt(r2, 8).value.0 < Pow256(8);
      Success((Core(networkId, sequence, previous, body), r7))
  }

  function DecodeSignatures(core: Core, bytes: seq<Byte>): Result<Statement, GovError> {
    var (count, r1) :- TakeByte(bytes);
    var (signatures, r2) :- TakeAll(TakeSignature, r1, count);
    End((Statement(core, signatures), r2))
  }

  function Decode(bytes: seq<Byte>): Result<Statement, GovError> {
    if |bytes| > MAX_STATEMENT_LEN then Failure(TooLarge)
    else
      var (core, r1) :- DecodeCore(bytes);
      DecodeSignatures(core, r1)
  }

  // ---------------------------------------------------------------- exactness

  /** `read` accepts exactly what `write` produces, whatever follows it. */
  ghost predicate Inverse<T(!new)>(read: seq<Byte> -> Parsed<T>, write: T -> seq<Byte>) {
    && (forall b :: read(b).Success? ==> b == write(read(b).value.0) + read(b).value.1)
    && (forall x, rest :: read(write(x) + rest) == Success((x, rest)))
  }

  lemma {:induction false} ItemInverses()
    ensures Inverse(TakeKey, EncodeKey)
    ensures Inverse(TakeEntry, EncodeEntry)
    ensures Inverse(TakeSignature, EncodeSignature)
  {
    forall x: (Byte, Key), rest: seq<Byte> ensures TakeEntry(EncodeEntry(x) + rest) == Success((x, rest)) {
      var b := EncodeEntry(x) + rest;
      assert b[1..] == x.1 + rest;
    }
    forall x: (Byte, Signature), rest: seq<Byte>
      ensures TakeSignature(EncodeSignature(x) + rest) == Success((x, rest))
    {
      var b := EncodeSignature(x) + rest;
      assert b[1..] == x.1 + rest;
    }
    forall x: Key, rest: seq<Byte> ensures TakeKey(EncodeKey(x) + rest) == Success((x, rest)) {
      var b := EncodeKey(x) + rest;
      assert b[..32] == x && b[32..] == rest;
    }
  }

  lemma {:induction false} TakeAllExact<T(!new)>(
      read: seq<Byte> -> Parsed<T>, write: T -> seq<Byte>, r: seq<Byte>, count: nat)
    requires Inverse(read, write)
    ensures var p := TakeAll(read, r, count);
      p.Success? ==> |p.value.0| == count && r == EncodeAll(write, p.value.0) + p.value.1
    decreases count
  {
    if count > 0 && TakeAll(read, r, count).Success? {
      var (x, r1) := read(r).value;
      TakeAllExact(read, write, r1, count - 1);
      var (xs, r2) := TakeAll(read, r1, count - 1).value;
      assert ([x] + xs)[1..] == xs;
    }
  }

  lemma {:induction false} TakeAllInverse<T(!new)>(
      read: seq<Byte> -> Parsed<T>, write: T -> seq<Byte>, xs: seq<T>, rest: seq<Byte>)
    requires Inverse(read, write)
    ensures TakeAll(read, EncodeAll(write, xs) + rest, |xs|) == Success((xs, rest))
  {
    if xs != [] {
      var tail := EncodeAll(write, xs[1..]) + rest;
      assert EncodeAll(write, xs) + rest == write(xs[0]) + tail;
      TakeAllInverse(read, write, xs[1..], rest);
      assert read(write(xs[0]) + tail) == Success((xs[0], tail));
      assert xs == [xs[0]] + xs[1..];
    } else {
      assert EncodeAll(write, xs) + rest == rest;
    }
  }

  lemma {:induction false} KeysExact(r: seq<Byte>, count: nat)
    ensures var p := TakeAll(TakeKey, r, count);
      p.Success? ==> |p.value.0| == count && r == EncodeAll(EncodeKey, p.value.0) + p.value.1
  {
    ItemInverses();
    TakeAllExact(TakeKey, EncodeKey, r, count);
  }

  lemma {:induction false} EntriesExact(r: seq<Byte>, count: nat)
    ensures var p := TakeAll(TakeEntry, r, count);
      p.Success? ==> |p.value.0| == count && r == EncodeAll(EncodeEntry, p.value.0) + p.value.1
  {
    ItemInverses();
    TakeAllExact(TakeEntry, EncodeEntry, r, count);
  }

  lemma {:induction false} SignaturesExact(r: seq<Byte>, count: nat)
    ensures var p := TakeAll(TakeSignature, r, count);
      p.Success? ==> |p.value.0| == count && r == EncodeAll(EncodeSignature, p.value.0) + p.value.1
  {
    ItemInverses();
    TakeAllExact(TakeSignature, EncodeSignature, r, count);
  }

  lemma {:induction false} KeysInverse(xs: seq<Key>)
    ensures TakeAll(TakeKey, EncodeAll(EncodeKey, xs), |xs|) == Success((xs, []))
  {
    ItemInverses();
    TakeAllInverse(TakeKey, EncodeKey, xs, []);
    assert EncodeAll(EncodeKey, xs) + [] == EncodeAll(EncodeKey, xs);
  }

  lemma {:induction false} EntriesInverse(xs: seq<(Byte, Key)>)
    ensures TakeAll(TakeEntry, EncodeAll(EncodeEntry, xs), |xs|) == Success((xs, []))
  {
    ItemInverses();
    TakeAllInverse(TakeEntry, EncodeEntry, xs, []);
    assert EncodeAll(EncodeEntry, xs) + [] == EncodeAll(EncodeEntry, xs);
  }

  lemma {:induction false} SignaturesInverse(xs: seq<(Byte, Signature)>)
    ensures TakeAll(TakeSignature, EncodeAll(EncodeSignature, xs), |xs|) == Success((xs, []))
  {
    ItemInverses();
    TakeAllInverse(TakeSignature, EncodeSignature, xs, []);
    assert EncodeAll(EncodeSignature, xs) + [] == EncodeAll(EncodeSignature, xs);
  }

  lemma {:induction false} EncodeAllLength<T>(write: T -> seq<Byte>, xs: seq<T>, size: nat)
    requires forall x :: x in xs ==> |write(x)| == size
    ensures |EncodeAll(write, xs)| == |xs| * size
  {
    if xs != [] {
      EncodeAllLength(write, xs[1..], size);
      assert |xs| * size == (|xs| - 1) * size + size;
    }
  }

  lemma {:induction false} BodyLengths(body: Body)
    ensures |EncodeBody(body)| == match body
      case Genesis(_, keys) => 2 + 32 * |keys|
      case Rotation(entries) => 1 + 33 * |entries|
      case Revocation(members) => 2 + 32 * |members|
      case Admission(members) => 2 + 32 * |members|
      case Activation => 0
      case Death => 0
  {
    match body
    case Genesis(_, keys) => EncodeAllLength(EncodeKey, keys, 32);
    case Rotation(entries) => EncodeAllLength(EncodeEntry, entries, 33);
    case Revocation(members) => EncodeAllLength(EncodeKey, members, 32);
    case Admission(members) => EncodeAllLength(EncodeKey, members, 32);
    case Activation =>
    case Death =>
  }

  lemma {:induction false} TakeIntExact(r: seq<Byte>, w: nat)
    ensures var p := TakeInt(r, w);
      p.Success? ==> p.value.0 < Pow256(w) && r == BigEndian(p.value.0, w) + p.value.1
  {
    if |r| >= w {
      FromBigEndianRoundTrip(r[..w]);
    }
  }

  lemma {:induction false} TakeIntInverse(n: nat, w: nat, rest: seq<Byte>)
    requires n < Pow256(w)
    ensures TakeInt(BigEndian(n, w) + rest, w) == Success((n, rest))
  {
    BigEndianRoundTrip(n, w);
    var b := BigEndian(n, w) + rest;
    assert b[..w] == BigEndian(n, w) && b[w..] == rest;
  }

  lemma {:induction false} DecodeBodyExact(kind: Byte, bytes: seq<Byte>)
    ensures var p := DecodeBody(kind, bytes);
      p.Success? ==> Kind(p.value) == kind && EncodeBody(p.value) == bytes && CountsFit(p.value)
  {
    Pow256Values();
    if kind == 0 && DecodeBody(kind, bytes).Success? {
      var r2 := bytes[1..][1..];
      assert bytes == [bytes[0], bytes[1]] + r2;
      KeysExact(r2, bytes[1..][0]);
    } else if kind == 1 && DecodeBody(kind, bytes).Success? {
      EntriesExact(bytes[1..], bytes[0]);
    } else if (kind == 2 || kind == 3) && DecodeBody(kind, bytes).Success? {
      TakeIntExact(bytes, 2);
      KeysExact(bytes[2..], FromBigEndian(bytes[..2]));
    }
  }

  /** Every list length survives the cast to its count field. */
  predicate CountsFit(body: Body) {
    match body
    case Genesis(_, keys) => |keys| < 256
    case Rotation(entries) => |entries| < 256
    case Revocation(members) => |members| < 0x1_0000
    case Admission(members) => |members| < 0x1_0000
    case Activation => true
    case Death => true
  }

  lemma {:induction false} DecodeBodyInverse(body: Body)
    requires CountsFit(body)
    ensures DecodeBody(Kind(body), EncodeBody(body)) == Success(body)
  {
    Pow256Values();
    var b := EncodeBody(body);
    match body
    case Genesis(threshold, keys) =>
      KeysInverse(keys);
      assert b[1..][1..] == EncodeAll(EncodeKey, keys);
    case Rotation(entries) =>
      EntriesInverse(entries);
      assert b[1..] == EncodeAll(EncodeEntry, entries);
    case Revocation(members) =>
      KeysInverse(members);
      assert b == BigEndian(|members|, 2) + EncodeAll(EncodeKey, members);
      TakeIntInverse(|members|, 2, EncodeAll(EncodeKey, members));
    case Admission(members) =>
      KeysInverse(members);
      assert b == BigEndian(|members|, 2) + EncodeAll(EncodeKey, members);
      TakeIntInverse(|members|, 2, EncodeAll(EncodeKey, members));
    case Activation =>
    case Death =>
  }

  lemma {:induction false} DecodeCoreExact(bytes: seq<Byte>)
    ensures var p := DecodeCore(bytes);
      p.Success? ==>
        && bytes == EncodeCore(p.value.0) + p.value.1
        && CountsFit(p.value.0.body) && |EncodeBody(p.value.0.body)| < 0x1_0000
  {
    hide DecodeBody;
    hide EncodeBody;
    if DecodeCore(bytes).Success? {
      Pow256Values();
      var r1 := bytes[1..];
      var r2 := r1[32..];
      TakeIntExact(r2, 8);
      var r3 := r2[8..];
      var r4 := r3[32..];
      var r5 := r4[1..];
      TakeIntExact(r5, 2);
      var r6 := r5[2..];
      var len := FromBigEndian(r5[..2]);
      DecodeBodyExact(r4[0], r6[..len]);
      assert bytes == [bytes[0]] + r1[..32] + BigEndian(FromBigEndian(r2[..8]), 8) + r3[..32]
                      + [r4[0]] + BigEndian(len, 2) + r6[..len] + r6[len..];
    }
  }

  lemma {:induction false} DecodeCoreInverse(core: Core, rest: seq<Byte>)
    requires CountsFit(core.body) && |EncodeBody(core.body)| < 0x1_0000
    ensures DecodeCore(EncodeCore(core) + rest) == Success((core, rest))
  {
    hide DecodeBody;
    hide EncodeBody;
    Pow256Values();
    var body := EncodeBody(core.body);
    var r6 := body + rest;
    var r5 := BigEndian(|body|, 2) + r6;
    var r4 := [Kind(core.body)] + r5;
    var r3 := core.previous + r4;
    var r2 := BigEndian(core.sequence, 8) + r3;
    var r1 := core.networkId + r2;
    var bytes := EncodeCore(core) + rest;
    assert bytes == [VERSION] + r1;
    assert bytes[1..] == r1;
    assert r1[..32] == core.networkId && r1[32..] == r2;
    TakeIntInverse(core.sequence, 8, r3);
    assert r3[..32] == core.previous && r3[32..] == r4;
    assert r4[1..] == r5;
    TakeIntInverse(|body|, 2, r6);
    assert r6[..|body|] == body && r6[|body|..] == rest;
    DecodeBodyInverse(core.body);
  }

  lemma {:induction false} DecodeSignaturesExact(core: Core, bytes: seq<Byte>)
    ensures var p := DecodeSignatures(core, bytes);
      p.Success? ==>
        && p.value.core == core && |p.value.signatures| < 256
        && bytes == [|p.value.signatures|] + EncodeAll(EncodeSignature, p.value.signatures)
  {
    if DecodeSignatures(core, bytes).Success? {
      SignaturesExact(bytes[1..], bytes[0]);
      assert bytes == [bytes[0]] + bytes[1..];
    }
  }

  lemma {:induction false} JoinParts(s: Statement, bytes: seq<Byte>, tail: seq<Byte>)
    requires bytes == EncodeCore(s.core) + tail && |bytes| <= MAX_STATEMENT_LEN
    requires CountsFit(s.core.body) && |s.signatures| < 256
    requires tail == [|s.signatures|] + EncodeAll(EncodeSignature, s.signatures)
    ensures EncodeStatement(s) == bytes && Encodable(s)
  {
  }

  /** Any bytes `decode` accepts are exactly the encoding of what it returns. */
  lemma {:induction false} DecodeExact(bytes: seq<Byte>)
    ensures var p := Decode(bytes);
      p.Success? ==> EncodeStatement(p.value) == bytes && Encodable(p.value)
  {
    var p := DecodeCore(bytes);
    if p.Success? {
      DecodeCoreExact(bytes);
      DecodeSignaturesExact(p.value.0, p.value.1);
      var q := Decode(bytes);
      if q.Success? {
        JoinParts(q.value, bytes, p.value.1);
      }
    }
  }

  /** What a statement must satisfy for its encoding to be readable. */
  predicate Encodable(s: Statement) {
    && CountsFit(s.core.body)
    && |s.signatures| < 256
    && |EncodeStatement(s)| <= MAX_STATEMENT_LEN
  }

  lemma {:induction false} DecodeSignaturesInverse(s: Statement)
    requires |s.signatures| < 256
    ensures DecodeSignatures(s.core, [|s.signatures|] + EncodeAll(EncodeSignature, s.signatures)) == Success(s)
  {
    var r1 := EncodeAll(EncodeSignature, s.signatures);
    var bytes := [|s.signatures|] + r1;
    assert bytes[1..] == r1;
    SignaturesInverse(s.signatures);
  }

  lemma {:induction false} Associates(a: seq<Byte>, b: seq<Byte>, c: seq<Byte>)
    ensures a + b + c == a + (b + c)
  {
  }

  lemma {:induction false} DecodeJoined(bytes: seq<Byte>, s: Statement, tail: seq<Byte>)
    requires |bytes| <= MAX_STATEMENT_LEN
    requires DecodeCore(bytes) == Success((s.core, tail)) && DecodeSignatures(s.core, tail) == Success(s)
    ensures Decode(bytes) == Success(s)
  {
  }

  lemma {:induction false} DecodeInverse(s: Statement)
    requires Encodable(s)
    ensures Decode(EncodeStatement(s)) == Success(s)
  {
    hide DecodeCore;
    hide DecodeSignatures;
    hide EncodeCore;
    var tail := [|s.signatures|] + EncodeAll(EncodeSignature, s.signatures);
    Associates(EncodeCore(s.core), [|s.signatures|], EncodeAll(EncodeSignature, s.signatures));
    StatementLength(s);
    DecodeCoreInverse(s.core, tail);
    DecodeSignaturesInverse(s);
    DecodeJoined(EncodeStatement(s), s, tail);
  }

  /** A statement survives encoding and decoding exactly when it fits the count fields and the limit. */
  lemma {:induction false} RoundTripIff(s: Statement)
    ensures Decode(EncodeStatement(s)) == Success(s) <==> Encodable(s)
  {
    if Encodable(s) {
      DecodeInverse(s);
    } else if Decode(EncodeStatement(s)) == Success(s) {
      DecodeExact(EncodeStatement(s));
    }
  }

  // ---------------------------------------------------------------- injectivity of cores

  lemma {:induction false} BodyInjective(a: Body, b: Body)
    requires Kind(a) == Kind(b) && EncodeBody(a) == EncodeBody(b)
    ensures a == b
  {
    BodyLengths(a);
    BodyLengths(b);
    var ea, eb := EncodeBody(a), EncodeBody(b);
    match a
    case Genesis(_, keys) =>
      assert ea[2..] == EncodeAll(EncodeKey, keys) && eb[2..] == EncodeAll(EncodeKey, b.keys);
      assert ea[0] == a.threshold && eb[0] == b.threshold;
      KeysInverse(keys);
      KeysInverse(b.keys);
    case Rotation(entries) =>
      assert ea[1..] == EncodeAll(EncodeEntry, entries) && eb[1..] == EncodeAll(EncodeEntry, b.entries);
      EntriesInverse(entries);
      EntriesInverse(b.entries);
    case Revocation(members) =>
      assert ea[2..] == EncodeAll(EncodeKey, members) && eb[2..] == EncodeAll(EncodeKey, b.members);
      KeysInverse(members);
      KeysInverse(b.members);
    case Admission(members) =>
      assert ea[2..] == EncodeAll(EncodeKey, members) && eb[2..] == EncodeAll(EncodeKey, b.members);
      KeysInverse(members);
      KeysInverse(b.members);
    case Activation =>
    case Death =>
  }

  /** Distinct cores always have distinct encodings, truncated count fields included: a hash or a
      signature over the encoding therefore speaks about one core only. */
  lemma {:induction false} CoreInjective(a: Core, b: Core)
    requires EncodeCore(a) == EncodeCore(b)
    ensures a == b
  {
    var e := EncodeCore(a);
    CoreFields(a);
    CoreFields(b);
    Pow256Values();
    BigEndianRoundTrip(a.sequence, 8);
    BigEndianRoundTrip(b.sequence, 8);
    BodyInjective(a.body, b.body);
  }

  lemma {:induction false} CoreFields(a: Core)
    ensures var e := EncodeCore(a);
      && |e| == 76 + |EncodeBody(a.body)|
      && e[1..33] == a.networkId && e[33..41] == BigEndian(a.sequence, 8) && e[41..73] == a.previous
      && e[73] == Kind(a.body) && e[76..] == EncodeBody(a.body)
  {
  }

  lemma {:induction false} StatementLength(s: Statement)
    ensures |EncodeStatement(s)| == 77 + |EncodeBody(s.core.body)| + 65 * |s.signatures|
  {
    CoreFields(s.core);
    EncodeAllLength(EncodeSignature, s.signatures, 65);
  }

  /** The list lengths the body rules allow. */
  predicate SmallBody(body: Body) {
    match body
    case Genesis(_, keys) => |keys| <= 10
    case Rotation(entries) => |entries| <= 10
    case Revocation(members) => |members| <= 64
    case Admission(members) => |members| <= 64
    case Activation => true
    case Death => true
  }

  lemma {:induction false} SmallStatementsEncode(s: Statement)
    requires SmallBody(s.core.body) && |s.signatures| <= 10
    ensures |EncodeStatement(s)| <= 2777
    ensures Decode(EncodeStatement(s)) == Success(s)
  {
    BodyLengths(s.core.body);
    StatementLength(s);
    RoundTripIff(s);
  }

  // ---------------------------------------------------------------- the layout

  /** Item `i` of a list of items of one size stands at `i` times that size. */
  lemma {:induction false} EncodeAllAt<T>(write: T -> seq<Byte>, xs: seq<T>, size: nat, i: nat)
    requires i < |xs| && forall x :: x in xs ==> |write(x)| == size
    ensures |EncodeAll(write, xs)| == |xs| * size && (i + 1) * size <= |xs| * size
    ensures EncodeAll(write, xs)[i * size..(i + 1) * size] == write(xs[i])
  {
    EncodeAllLength(write, xs, size);
    var rest := EncodeAll(write, xs[1..]);
    assert EncodeAll(write, xs) == write(xs[0]) + rest;
    if i > 0 {
      EncodeAllAt(write, xs[1..], size, i - 1);
      assert (write(xs[0]) + rest)[i * size..(i + 1) * size] == rest[(i - 1) * size..i * size] by {
        assert i * size == (i - 1) * size + size && (i + 1) * size == i * size + size;
      }
    } else {
      assert 1 * size == size;
    }
  }

  /** Where everything stands in an encoded statement: version 1, network, sequence, previous hash, the number
      of the kind, the length of the body, the body, the number of signatures, and the signatures with their
      slots. */
  lemma {:induction false} Layout(s: Statement)
    ensures var e, n := EncodeStatement(s), |EncodeBody(s.core.body)|;
      && |e| == 77 + n + 65 * |s.signatures|
      && e[0] == 1 && e[1..33] == s.core.networkId && e[41..73] == s.core.previous
      && FromBigEndian(e[33..41]) == s.core.sequence
      && e[73] == (match s.core.body
           case Genesis(_, _) => 0 case Rotation(_) => 1 case Revocation(_) => 2
           case Admission(_) => 3 case Activation => 4 case Death => 5)
      && FromBigEndian(e[74..76]) == n % 0x1_0000
      && e[76..76 + n] == EncodeBody(s.core.body) && e[76 + n] == |s.signatures| % 256
      && forall i :: 0 <= i < |s.signatures| ==> SignatureAt(e, 77 + n + 65 * i, s.signatures[i])
  {
    var e, core, n := EncodeStatement(s), EncodeCore(s.core), |EncodeBody(s.core.body)|;
    StatementLength(s);
    CoreFields(s.core);
    Pow256Values();
    BigEndianRoundTrip(s.core.sequence, 8);
    LengthField(s.core);
    var sigs := EncodeAll(EncodeSignature, s.signatures);
    assert e == core + [|s.signatures| % 256] + sigs;
    hide EncodeCore;
    hide EncodeBody;
    assert forall i, j :: 0 <= i <= j <= |core| ==> e[i..j] == core[i..j];
    assert core[76..] == core[76..76 + n];
    forall i | 0 <= i < |s.signatures| ensures SignatureAt(e, 77 + n + 65 * i, s.signatures[i]) {
      SignatureStands(s, i);
    }
  }

  predicate SignatureAt(e: seq<Byte>, at: nat, sig: (Byte, Signature)) {
    at + 65 <= |e| && e[at] == sig.0 && e[at + 1..at + 65] == sig.1
  }

  lemma {:induction false} SignatureStands(s: Statement, i: nat)
    requires i < |s.signatures|
    ensures SignatureAt(EncodeStatement(s), 77 + |EncodeBody(s.core.body)| + 65 * i, s.signatures[i])
  {
    CoreFields(s.core);
    hide EncodeCore;
    hide EncodeBody;
    var e, core, sigs := EncodeStatement(s), EncodeCore(s.core), EncodeAll(EncodeSignature, s.signatures);
    EncodeAllAt(EncodeSignature, s.signatures, 65, i);
    var at := |core| + 1 + 65 * i;
    assert e[at..at + 65] == sigs[i * 65..(i + 1) * 65];
    assert e[at..at + 65][0] == s.signatures[i].0;
    assert e[at..at + 65][1..] == s.signatures[i].1;
  }

  lemma {:induction false} LengthField(core: Core)
    ensures |EncodeCore(core)| >= 76 && EncodeCore(core)[0] == 1
    ensures FromBigEndian(EncodeCore(core)[74..76]) == |EncodeBody(core.body)| % 0x1_0000
  {
    var n := |EncodeBody(core.body)|;
    assert EncodeCore(core)[74..76] == BigEndian(n, 2);
    TwoBytes(n);
  }

  lemma {:induction false} TwoBytes(n: nat)
    ensures FromBigEndian(BigEndian(n, 2)) == n % 0x1_0000
  {
    var high, low := n / 256 % 256, n % 256;
    assert BigEndian(n / 256 / 256, 0) == [];
    assert BigEndian(n / 256, 1) == [high];
    assert BigEndian(n, 2) == [high] + [low];
    assert FromBigEndian([]) == 0 && [high][..0] == [];
    assert FromBigEndian([high]) == high;
    assert ([high] + [low])[..1] == [high];
  }
}
