/** UUIDs and their canonical 36-character text, as `uuid.UUID.String` prints and `uuid.Parse` reads it. */
module Uuid {
  import opened Prelude

  type Uuid = s: seq<Octet> | |s| == 16 witness [0, 0, 0, 0, 0, 0, 0, 0, 0, 0, 0, 0, 0, 0, 0, 0]

  const TEXT_LENGTH := 36

  type Nibble = n: nat | n < 16

  function HexDigit(n: Nibble): char {
    if n < 10 then ('0' as int + n) as char else ('a' as int + n - 10) as char
  }

  lemma HexAlphabet(n: Nibble)
    ensures HexDigit(n) == "0123456789abcdef"[n]
  {
  }

  function HexValue(c: char): Option<Nibble> {
    if '0' <= c <= '9' then Some(c as int - '0' as int)
    else if 'a' <= c <= 'f' then Some(c as int - 'a' as int + 10)
    else if 'A' <= c <= 'F' then Some(c as int - 'A' as int + 10)
    else None
  }

  function Hex(b: seq<Octet>): (s: string)
    ensures |s| == 2 * |b|
  {
    if b == [] then "" else [HexDigit(b[0] / 16), HexDigit(b[0] % 16)] + Hex(b[1..])
  }

  function Combine(hi: Nibble, lo: Nibble): Octet { hi * 16 + lo }

  function UnHex(s: string): (r: Option<seq<Octet>>)
    ensures r.Some? ==> |s| == 2 * |r.value|
  {
    if s == "" then Some([])
    else if |s| == 1 then None
    else match (HexValue(s[0]), HexValue(s[1]), UnHex(s[2..]))
      case (Some(hi), Some(lo), Some(rest)) => Some([Combine(hi, lo)] + rest)
      case _ => None
  }

  /** Groups of 8, 4, 4, 4 and 12 hexadecimal digits. */
  function Text(u: Uuid): (s: string)
    ensures |s| == TEXT_LENGTH
  {
    Hex(u[..4]) + "-" + Hex(u[4..6]) + "-" + Hex(u[6..8]) + "-" + Hex(u[8..10]) + "-" + Hex(u[10..])
  }

  function Parse(s: string): Option<Uuid> {
    if |s| != TEXT_LENGTH || s[8] != '-' || s[13] != '-' || s[18] != '-' || s[23] != '-' then None
    else match (UnHex(s[..8]), UnHex(s[9..13]), UnHex(s[14..18]), UnHex(s[19..23]), UnHex(s[24..]))
      case (Some(a), Some(b), Some(c), Some(d), Some(e)) => Some(a + b + c + d + e)
      case _ => None
  }

  lemma {:induction false} HexRoundTrip(b: seq<Octet>)
    ensures UnHex(Hex(b)) == Some(b)
  {
    if b != [] {
      HexRoundTrip(b[1..]);
      var s := Hex(b);
      assert s[2..] == Hex(b[1..]);
      assert HexValue(s[0]) == Some(b[0] / 16) && HexValue(s[1]) == Some(b[0] % 16);
      assert Combine(b[0] / 16, b[0] % 16) == b[0];
      assert b == [b[0]] + b[1..];
    }
  }

  lemma TextGroups(u: Uuid)
    ensures Text(u)[..8] == Hex(u[..4]) && Text(u)[9..13] == Hex(u[4..6]) && Text(u)[14..18] == Hex(u[6..8])
    ensures Text(u)[19..23] == Hex(u[8..10]) && Text(u)[24..] == Hex(u[10..])
    ensures Text(u)[8] == Text(u)[13] == Text(u)[18] == Text(u)[23] == '-'
  {
  }

  /** Two lower-case hexadecimal digits an octet, the high one first, in the usual five groups. */
  lemma TextDigits(u: Uuid, i: nat)
    requires i < 16
    ensures var at := if i < 4 then 2 * i else if i < 6 then 2 * i + 1 else if i < 8 then 2 * i + 2
                      else if i < 10 then 2 * i + 3 else 2 * i + 4;
            Text(u)[at] == "0123456789abcdef"[u[i] / 16] && Text(u)[at + 1] == "0123456789abcdef"[u[i] % 16]
  {
    HexAlphabet(u[i] / 16);
    HexAlphabet(u[i] % 16);
    TextGroups(u);
    if i < 4 {
      HexDigits(u[..4], i);
    } else if i < 6 {
      HexDigits(u[4..6], i - 4);
    } else if i < 8 {
      HexDigits(u[6..8], i - 6);
    } else if i < 10 {
      HexDigits(u[8..10], i - 8);
    } else {
      HexDigits(u[10..], i - 10);
    }
  }

  lemma {:induction false} HexDigits(b: seq<Octet>, i: nat)
    requires i < |b|
    ensures Hex(b)[2 * i] == HexDigit(b[i] / 16) && Hex(b)[2 * i + 1] == HexDigit(b[i] % 16)
  {
    if i > 0 {
      HexDigits(b[1..], i - 1);
      assert Hex(b)[2..] == Hex(b[1..]);
    }
  }

  /** Parsing undoes printing, so the text determines the UUID. */
  lemma TextRoundTrip(u: Uuid)
    ensures Parse(Text(u)) == Some(u)
  {
    TextGroups(u);
    HexRoundTrip(u[..4]);
    HexRoundTrip(u[4..6]);
    HexRoundTrip(u[6..8]);
    HexRoundTrip(u[8..10]);
    HexRoundTrip(u[10..]);
    assert u[..4] + u[4..6] + u[6..8] + u[8..10] + u[10..] == u;
  }

  lemma TextInjective(u: Uuid, v: Uuid)
    ensures Text(u) == Text(v) ==> u == v
  {
    TextRoundTrip(u);
    TextRoundTrip(v);
  }
}
