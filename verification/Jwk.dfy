/** The published key: integers as big-endian octets in base64url (sections 2, 6.3.1.1 and 6.3.1.2 of RFC 7518). */
module Jwk {
  import opened Prelude
  import Base64

  datatype PublicKey = PublicKey(n: nat, e: nat)

  datatype JsonWebKey = JsonWebKey(kty: string, use: string, alg: string, kid: string, n: string, e: string)

  /** `big.Int.Bytes`: the shortest big-endian octet string; empty for zero. */
  function Bytes(x: nat): seq<Octet> {
    if x == 0 then [] else Bytes(x / 256) + [x % 256]
  }

  /** The unsigned big-endian reading of an octet string. */
  function BigEndian(b: seq<Octet>): nat {
    if b == [] then 0 else BigEndian(b[..|b| - 1]) * 256 + b[|b| - 1]
  }

  function Base64UrlUInt(x: nat): string {
    Base64.Encode(Base64.Url, Bytes(x))
  }

  /** What a relying party reads back from a key member. */
  function ReadUInt(s: string): Option<nat> {
    match Base64.Decode(Base64.Url, s)
    case None => None
    case Some(b) => Some(BigEndian(b))
  }

  function BuildJwk(key: PublicKey, kid: string): JsonWebKey {
    JsonWebKey("RSA", "sig", "RS256", kid, Base64UrlUInt(key.n), Base64UrlUInt(key.e))
  }

  lemma {:induction false} BytesValue(x: nat)
    ensures BigEndian(Bytes(x)) == x
    ensures x > 0 ==> Bytes(x) != [] && Bytes(x)[0] != 0
  {
    if x > 0 {
      BytesValue(x / 256);
      assert Bytes(x)[..|Bytes(x)| - 1] == Bytes(x / 256);
    }
  }

  lemma {:induction false} BigEndianPositive(b: seq<Octet>)
    requires b != [] && b[0] != 0
    ensures BigEndian(b) > 0
  {
    if |b| > 1 { BigEndianPositive(b[..|b| - 1]); }
    else { assert b[..0] == []; }
  }

  /** `Bytes` is the only octet string for its value without a leading zero octet. */
  lemma {:induction false} BytesUnique(b: seq<Octet>)
    requires b == [] || b[0] != 0
    ensures Bytes(BigEndian(b)) == b
  {
    if b != [] {
      BigEndianPositive(b);
      BytesUnique(b[..|b| - 1]);
      assert b == b[..|b| - 1] + [b[|b| - 1]];
    }
  }

  /**
   The text of every positive integer reads back as that integer, and its octets are the ones section 2 of
   RFC 7518 asks for: any octet string with that value and no leading zero octet is the same one.
   */
  lemma UIntRoundTrip(x: nat)
    requires x > 0
    ensures ReadUInt(Base64UrlUInt(x)) == Some(x)
    ensures Bytes(x) != [] && Bytes(x)[0] != 0
    ensures forall b: seq<Octet> :: b != [] && b[0] != 0 && BigEndian(b) == x ==> b == Bytes(x)
  {
    Base64.RoundTrip(Base64.Url, Bytes(x));
    BytesValue(x);
    forall b: seq<Octet> | b != [] && b[0] != 0 && BigEndian(b) == x ensures b == Bytes(x) {
      BytesUnique(b);
    }
  }

  /** The published members determine the key, so distinct keys publish distinct (n, e). */
  lemma KeyRoundTrip(key: PublicKey, other: PublicKey, kid: string)
    requires key.n > 0 && key.e > 0 && other.n > 0 && other.e > 0
    ensures BuildJwk(key, kid).kty == "RSA" && BuildJwk(key, kid).alg == "RS256" && BuildJwk(key, kid).use == "sig"
    ensures BuildJwk(key, kid).kid == kid
    ensures ReadUInt(BuildJwk(key, kid).n) == Some(key.n)
    ensures ReadUInt(BuildJwk(key, kid).e) == Some(key.e)
    ensures BuildJwk(key, kid).n == BuildJwk(other, kid).n && BuildJwk(key, kid).e == BuildJwk(other, kid).e
            ==> key == other
  {
    UIntRoundTrip(key.n);
    UIntRoundTrip(key.e);
    UIntRoundTrip(other.n);
    UIntRoundTrip(other.e);
  }

  /** Zero is outside the promise: it publishes an empty member where RFC 7518 wants "AA". */
  lemma ZeroIsEmpty()
    ensures Base64UrlUInt(0) == "" && Base64.Encode(Base64.Url, [0]) == "AA"
  {
    assert Base64.Encode(Base64.Url, [0]) == "AA" by {
      var s := Base64.Encode(Base64.Url, [0]);
      assert Base64.Sextets([0]) == [0, 0];
      assert s[0] == 'A' && s[1] == 'A';
    }
  }
}
