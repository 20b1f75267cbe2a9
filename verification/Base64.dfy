/**
 Go's unpadded `base64.RawStdEncoding` and `base64.RawURLEncoding` (sections 3.2, 4 and 5 of RFC 4648).
 Decoding drops CR and LF anywhere, and does not insist that unused trailing bits are zero.
 */
module Base64 {
  import opened Prelude

  datatype Variant = Std | Url

  type Sextet = n: nat | n < 64

  function Symbol(v: Variant, n: Sextet): char {
    if n < 26 then ('A' as int + n) as char
    else if n < 52 then ('a' as int + n - 26) as char
    else if n < 62 then ('0' as int + n - 52) as char
    else if n == 62 then (if v.Std? then '+' else '-')
    else (if v.Std? then '/' else '_')
  }

  function Digit(v: Variant, c: char): Option<Sextet> {
    if 'A' <= c <= 'Z' then Some(c as int - 'A' as int)
    else if 'a' <= c <= 'z' then Some(c as int - 'a' as int + 26)
    else if '0' <= c <= '9' then Some(c as int - '0' as int + 52)
    else if c == (if v.Std? then '+' else '-') then Some(62)
    else if c == (if v.Std? then '/' else '_') then Some(63)
    else None
  }

  lemma SymbolDigit(v: Variant, n: Sextet)
    ensures Digit(v, Symbol(v, n)) == Some(n)
  {
  }

  /** The alphabets of sections 4 and 5 of RFC 4648: their runs of consecutive characters, and where each starts. */
  lemma Alphabets(v: Variant, n: Sextet)
    ensures Symbol(v, 0) == 'A' && Symbol(v, 25) == 'Z' && Symbol(v, 26) == 'a' && Symbol(v, 51) == 'z'
    ensures Symbol(v, 52) == '0' && Symbol(v, 61) == '9'
    ensures Symbol(Std, 62) == '+' && Symbol(Std, 63) == '/' && Symbol(Url, 62) == '-' && Symbol(Url, 63) == '_'
    ensures n < 61 && n != 25 && n != 51 ==> Symbol(v, n + 1) as int == Symbol(v, n) as int + 1
  {
  }

  /** Three octets become four sextets; a last group of one or two octets becomes two or three. */
  function Sextets(b: seq<Octet>): seq<Sextet> {
    if |b| == 0 then []
    else if |b| == 1 then [b[0] / 4, (b[0] % 4) * 16]
    else if |b| == 2 then [b[0] / 4, (b[0] % 4) * 16 + b[1] / 16, (b[1] % 16) * 4]
    else [b[0] / 4, (b[0] % 4) * 16 + b[1] / 16, (b[1] % 16) * 4 + b[2] / 64, b[2] % 64] + Sextets(b[3..])
  }

  /**
   The sextets are the bits of the octets in order: each full group is one 24-bit number, and a last group of one or
   two octets is filled up with zero bits.
   */
  lemma SextetsValue(b: seq<Octet>)
    ensures |b| == 1 ==>
              var d := Sextets(b); |d| == 2 && Group([0, 0, d[0], d[1]], 64) == Group([0, 0, 0, b[0]], 256) * 16
    ensures |b| == 2 ==>
              var d := Sextets(b); |d| == 3 && Group([0, d[0], d[1], d[2]], 64) == Group([0, 0, b[0], b[1]], 256) * 4
    ensures |b| >= 3 ==>
              var d := Sextets(b);
              |d| >= 4 && d[4..] == Sextets(b[3..])
              && Group([d[0], d[1], d[2], d[3]], 64) == Group([0, b[0], b[1], b[2]], 256)
  {
  }

  /** Four digits read as one number. */
  function Group(d: seq<int>, base: int): int
    requires |d| == 4
  {
    ((d[0] * base + d[1]) * base + d[2]) * base + d[3]
  }

  function Octet1(a: Sextet, b: Sextet): Octet { a * 4 + b / 16 }

  function Octet2(b: Sextet, c: Sextet): Octet { (b % 16) * 16 + c / 4 }

  function Octet3(c: Sextet, d: Sextet): Octet { (c % 4) * 64 + d }

  function Octets(d: seq<Sextet>): Option<seq<Octet>> {
    if |d| == 0 then Some([])
    else if |d| == 1 then None
    else if |d| == 2 then Some([Octet1(d[0], d[1])])
    else if |d| == 3 then Some([Octet1(d[0], d[1]), Octet2(d[1], d[2])])
    else match Octets(d[4..])
      case None => None
      case Some(rest) => Some([Octet1(d[0], d[1]), Octet2(d[1], d[2]), Octet3(d[2], d[3])] + rest)
  }

  function Spell(v: Variant, d: seq<Sextet>): (s: string)
    ensures |s| == |d| && forall i :: 0 <= i < |d| ==> s[i] == Symbol(v, d[i])
  {
    seq(|d|, i requires 0 <= i < |d| => Symbol(v, d[i]))
  }

  function Read(v: Variant, s: string): Option<seq<Sextet>> {
    if s == "" then Some([])
    else match (Digit(v, s[0]), Read(v, s[1..]))
      case (Some(n), Some(rest)) => Some([n] + rest)
      case _ => None
  }

  function DropNewlines(s: string): string {
    if s == "" then ""
    else if s[0] == '\r' || s[0] == '\n' then DropNewlines(s[1..])
    else [s[0]] + DropNewlines(s[1..])
  }

  function Encode(v: Variant, b: seq<Octet>): string {
    Spell(v, Sextets(b))
  }

  function Decode(v: Variant, s: string): Option<seq<Octet>> {
    match Read(v, DropNewlines(s))
    case None => None
    case Some(d) => Octets(d)
  }

  lemma OneLeft(x: Octet)
    ensures Octets(Sextets([x])) == Some([x])
  {
  }

  lemma TwoLeft(x: Octet, y: Octet)
    ensures Octets(Sextets([x, y])) == Some([x, y])
  {
  }

  lemma FullGroup(x: Octet, y: Octet, z: Octet, b: seq<Octet>)
    requires Octets(Sextets(b)) == Some(b)
    ensures Octets(Sextets([x, y, z] + b)) == Some([x, y, z] + b)
  {
  }

  lemma {:induction false} OctetsSextets(b: seq<Octet>)
    ensures Octets(Sextets(b)) == Some(b)
  {
    if |b| == 1 {
      OneLeft(b[0]);
      assert b == [b[0]];
    } else if |b| == 2 {
      TwoLeft(b[0], b[1]);
      assert b == [b[0], b[1]];
    } else if |b| > 2 {
      OctetsSextets(b[3..]);
      FullGroup(b[0], b[1], b[2], b[3..]);
      assert b == [b[0], b[1], b[2]] + b[3..];
    }
  }

  lemma {:induction false} ReadSpell(v: Variant, d: seq<Sextet>)
    ensures Read(v, DropNewlines(Spell(v, d))) == Some(d)
  {
    if d == [] {
      assert Spell(v, d) == "";
    } else {
      ReadSpell(v, d[1..]);
      SymbolDigit(v, d[0]);
      assert Spell(v, d)[1..] == Spell(v, d[1..]);
      var s := Spell(v, d);
      assert DropNewlines(s) == [s[0]] + DropNewlines(s[1..]);
      assert DropNewlines(s)[1..] == DropNewlines(s[1..]);
      assert d == [d[0]] + d[1..];
    }
  }

  /** Decoding recovers exactly the encoded octets, in both alphabets. */
  lemma RoundTrip(v: Variant, b: seq<Octet>)
    ensures Decode(v, Encode(v, b)) == Some(b)
  {
    ReadSpell(v, Sextets(b));
    OctetsSextets(b);
  }

  /** Only alphabet characters are produced, so `$`, `,` and `:` never are. */
  lemma EncodeAlphabet(v: Variant, b: seq<Octet>)
    ensures forall i :: 0 <= i < |Encode(v, b)| ==> Digit(v, Encode(v, b)[i]).Some?
  {
  }

  /** The text of n octets has ceil(4n/3) characters: 43 for the 32 octets of a refresh token. */
  lemma {:induction false} EncodedLength(v: Variant, b: seq<Octet>)
    ensures |Encode(v, b)| == (4 * |b| + 2) / 3
  {
    if |b| >= 3 {
      EncodedLength(v, b[3..]);
    }
  }
}
