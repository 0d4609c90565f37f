/** Cores as bytes: what is hashed and what is signed. */
module CoreBytes {
  import opened Basics
  import opened Statements
  import opened Governance

  function SignDomain(): seq<Byte> {
    Ascii("werewolfproxy/governance/v1/sign\0")
  }

  function HashDomain(): seq<Byte> {
    Ascii("werewolfproxy/governance/v1/hash\0")
  }

  function SigningInput(core: Core): seq<Byte> {
    SignDomain() + EncodeCore(core)
  }

  function HashInput(core: Core): seq<Byte> {
    HashDomain() + EncodeCore(core)
  }

  /** Ed25519 and BLAKE3 over byte strings. */
  datatype Primitives = Primitives(
    point: Key -> bool,
    weak: Key -> bool,
    verify: (Key, seq<Byte>, Signature) -> bool,
    hash: seq<Byte> -> Hash)

  /** The cryptography a node uses: both domains prefix the canonical encoding of the core. */
  function OverBytes(p: Primitives): Crypto {
    Crypto(
      p.point,
      p.weak,
      (key: Key, core: Core, signature: Signature) => p.verify(key, SigningInput(core), signature),
      (core: Core) => p.hash(HashInput(core)))
  }

  /** Two cores with one hash are two byte strings with one hash. */
  lemma {:induction false} CoreCollisionIsHashCollision(p: Primitives, a: Core, b: Core)
    requires a != b && OverBytes(p).hash(a) == OverBytes(p).hash(b)
    ensures HashInput(a) != HashInput(b) && p.hash(HashInput(a)) == p.hash(HashInput(b))
  {
    if HashInput(a) == HashInput(b) {
      DropPrefix(HashDomain(), EncodeCore(a), EncodeCore(b));
      CoreInjective(a, b);
    }
  }

  /** A signature on one core and a signature on another are over different messages, and no
      signing input is also a hash input. */
  lemma {:induction false} SigningInputsDiffer(a: Core, b: Core)
    requires a != b
    ensures SigningInput(a) != SigningInput(b)
    ensures SigningInput(a) != HashInput(b)
  {
    if SigningInput(a) == SigningInput(b) {
      DropPrefix(SignDomain(), EncodeCore(a), EncodeCore(b));
      CoreInjective(a, b);
    }
    assert SigningInput(a)[28] == 's' as int && HashInput(b)[28] == 'h' as int;
  }

  lemma {:induction false} DropPrefix(d: seq<Byte>, a: seq<Byte>, b: seq<Byte>)
    requires d + a == d + b
    ensures a == b
  {
    assert (d + a)[|d|..] == a && (d + b)[|d|..] == b;
  }
}
