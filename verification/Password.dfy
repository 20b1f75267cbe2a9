/** `internal/password`: the argon2id hash string as a printer and a parser, and the password policy. */
module Password {
  import opened Prelude
  import opened Strings
  import Base64

  /** argon2.IDKey: plaintext, salt, time, memory, threads, key length. */
  type Kdf = (string, seq<Octet>, nat, nat, nat, nat) -> seq<Octet>

  const VERSION := 19
  const TIME := 2
  const MEMORY := 64 * 1024
  const THREADS := 4
  const KEY_LEN := 32
  const SALT_LEN := 16

  datatype VerifyError = InvalidFormat | BadVersion | BadParams | BadSalt | BadDigest

  // ---- fmt.Sscanf, for the three formats used ----

  /** The white space `%d` skips; a newline is not skipped but fails the scan. */
  predicate IsBlank(c: char) {
    var u := c as int;
    (9 <= u <= 13 && u != 10) || u == 0x20 || u == 0x85 || u == 0xA0 || u == 0x1680 || 0x2000 <= u <= 0x200A
    || u == 0x2028 || u == 0x2029 || u == 0x202F || u == 0x205F || u == 0x3000
  }

  function SkipBlanks(s: string): string {
    if s != "" && IsBlank(s[0]) then SkipBlanks(s[1..]) else s
  }

  function DigitRun(s: string): (n: nat)
    ensures n <= |s| && forall i :: 0 <= i < n ==> IsDigit(s[i])
  {
    if s != "" && IsDigit(s[0]) then 1 + DigitRun(s[1..]) else 0
  }

  /** Matches a literal of the format; the result is what is left of the input. */
  function ScanLiteral(s: string, literal: string): Option<string> {
    if |literal| <= |s| && s[..|literal|] == literal then Some(s[|literal|..]) else None
  }

  /** `%d` into an unsigned integer below `limit`. */
  function ScanUnsigned(s: string, limit: nat): Option<(nat, string)> {
    var t := SkipBlanks(s);
    var n := DigitRun(t);
    if n == 0 || NumeralValue(t[..n]) >= limit then None
    else Some((NumeralValue(t[..n]), t[n..]))
  }

  /** `%d` into a 64-bit signed integer. */
  function ScanSigned(s: string): Option<(int, string)> {
    var t := SkipBlanks(s);
    var negative := t != "" && t[0] == '-';
    var u := if t != "" && (t[0] == '-' || t[0] == '+') then t[1..] else t;
    var n := DigitRun(u);
    if n == 0 then None
    else
      var m: int := NumeralValue(u[..n]);
      if m >= 0x8000_0000_0000_0000 + (if negative then 1 else 0) then None
      else Some((if negative then 0 - m else m, u[n..]))
  }

  /** `fmt.Sscanf(s, "v=%d", &version)`: input left over after the last verb is ignored. */
  function ScanVersion(s: string): Option<int> {
    match ScanLiteral(s, "v=")
    case None => None
    case Some(a) =>
      match ScanSigned(a)
      case None => None
      case Some((v, _)) => Some(v)
  }

  /** `fmt.Sscanf(s, "m=%d,t=%d,p=%d", &mem, &t, &threads)` with 32, 32 and 8 bit targets. */
  function ScanParams(s: string): Option<(nat, nat, nat)> {
    match ScanLiteral(s, "m=")
    case None => None
    case Some(a) =>
      match ScanUnsigned(a, 0x1_0000_0000)
      case None => None
      case Some((m, b)) =>
        match ScanLiteral(b, ",t=")
        case None => None
        case Some(c) =>
          match ScanUnsigned(c, 0x1_0000_0000)
          case None => None
          case Some((t, d)) =>
            match ScanLiteral(d, ",p=")
            case None => None
            case Some(e) =>
              match ScanUnsigned(e, 256)
              case None => None
              case Some((p, _)) => Some((m, t, p))
  }

  // ---- printer and parser ----

  function VersionPart(version: nat): string { "v=" + Decimal(version) }

  function ParamsPart(memory: nat, time: nat, threads: nat): string {
    "m=" + (Decimal(memory) + (",t=" + (Decimal(time) + (",p=" + Decimal(threads)))))
  }

  function SaltPart(salt: seq<Octet>, digest: seq<Octet>): string {
    Base64.Encode(Base64.Std, salt) + "$" + Base64.Encode(Base64.Std, digest)
  }

  /** The `Sprintf` of `Hash`: "$argon2id$v=%d$m=%d,t=%d,p=%d$%s$%s". */
  function Print(version: nat, memory: nat, time: nat, threads: nat, salt: seq<Octet>, digest: seq<Octet>): string {
    "$argon2id$" + (VersionPart(version) + "$" + (ParamsPart(memory, time, threads) + "$" + SaltPart(salt, digest)))
  }

  /** `Hash`, with the drawn salt as an argument. */
  function Hash(kdf: Kdf, plain: string, salt: seq<Octet>): string {
    Print(VERSION, MEMORY, TIME, THREADS, salt, kdf(plain, salt, TIME, MEMORY, THREADS, KEY_LEN))
  }

  function Verify(kdf: Kdf, plain: string, encoded: string): Result<bool, VerifyError> {
    VerifyParts(kdf, plain, Split(encoded, '$'))
  }

  function VerifyParts(kdf: Kdf, plain: string, parts: seq<string>): Result<bool, VerifyError> {
    if |parts| != 6 || parts[1] != "argon2id" then Err(InvalidFormat)
    else if ScanVersion(parts[2]).None? then Err(BadVersion)
    else match ScanParams(parts[3])
      case None => Err(BadParams)
      case Some((m, t, p)) =>
        match Base64.Decode(Base64.Std, parts[4])
        case None => Err(BadSalt)
        case Some(salt) =>
          match Base64.Decode(Base64.Std, parts[5])
          case None => Err(BadDigest)
          case Some(expected) => Ok(kdf(plain, salt, t, m, p, |expected|) == expected)
  }

  lemma {:induction false} DigitRunStops(s: string, rest: string)
    requires forall i :: 0 <= i < |s| ==> IsDigit(s[i])
    requires rest == "" || !IsDigit(rest[0])
    ensures DigitRun(s + rest) == |s|
  {
    if s == "" {
      assert s + rest == rest;
    } else {
      DigitRunStops(s[1..], rest);
      assert (s + rest)[1..] == s[1..] + rest;
    }
  }

  /** `%d` reads back what `%d` printed, up to the first character that is no digit. */
  lemma ScanDecimal(n: nat, rest: string, limit: nat)
    requires n < limit
    requires rest == "" || !IsDigit(rest[0])
    ensures ScanUnsigned(Decimal(n) + rest, limit) == Some((n, rest))
    ensures n < 0x8000_0000_0000_0000 ==> ScanSigned(Decimal(n) + rest) == Some((n, rest))
  {
    var s := Decimal(n) + rest;
    assert IsDigit(s[0]);
    assert SkipBlanks(s) == s;
    DigitRunStops(Decimal(n), rest);
    assert s[..|Decimal(n)|] == Decimal(n) && s[|Decimal(n)|..] == rest;
    DecimalValue(n);
  }

  lemma LiteralMatches(literal: string, rest: string)
    ensures ScanLiteral(literal + rest, literal) == Some(rest)
  {
  }

  lemma ParamsRoundTrip(m: nat, t: nat, p: nat)
    requires m < 0x1_0000_0000 && t < 0x1_0000_0000 && p < 256
    ensures ScanParams("m=" + (Decimal(m) + (",t=" + (Decimal(t) + (",p=" + Decimal(p)))))) == Some((m, t, p))
  {
    var e := Decimal(p);
    var d := ",p=" + e;
    var c := Decimal(t) + d;
    var b := ",t=" + c;
    var a := Decimal(m) + b;
    assert ScanLiteral("m=" + a, "m=") == Some(a) by { LiteralMatches("m=", a); }
    assert ScanUnsigned(a, 0x1_0000_0000) == Some((m, b)) by { ScanDecimal(m, b, 0x1_0000_0000); }
    assert ScanLiteral(b, ",t=") == Some(c) by { LiteralMatches(",t=", c); }
    assert ScanUnsigned(c, 0x1_0000_0000) == Some((t, d)) by { ScanDecimal(t, d, 0x1_0000_0000); }
    assert ScanLiteral(d, ",p=") == Some(e) by { LiteralMatches(",p=", e); }
    assert ScanUnsigned(e, 256) == Some((p, "")) by { assert e + "" == e; ScanDecimal(p, "", 256); }
  }

  lemma VersionRoundTrip(v: nat)
    requires v < 0x8000_0000_0000_0000
    ensures ScanVersion("v=" + Decimal(v)) == Some(v)
  {
    LiteralMatches("v=", Decimal(v));
    assert Decimal(v) + "" == Decimal(v);
    ScanDecimal(v, "", v + 1);
  }

  lemma EncodingFree(b: seq<Octet>)
    ensures Free(Base64.Encode(Base64.Std, b), '$')
  {
  }

  lemma DecimalFree(n: nat)
    ensures Free(Decimal(n), '$')
  {
  }

  lemma FreeConcat(a: string, b: string)
    requires Free(a, '$') && Free(b, '$')
    ensures Free(a + b, '$')
  {
  }

  lemma ParamsPartFree(memory: nat, time: nat, threads: nat)
    ensures Free(ParamsPart(memory, time, threads), '$')
  {
  }

  function Parts(version: nat, memory: nat, time: nat, threads: nat, salt: seq<Octet>,
                 digest: seq<Octet>): seq<string> {
    ["", "argon2id", VersionPart(version), ParamsPart(memory, time, threads),
     Base64.Encode(Base64.Std, salt), Base64.Encode(Base64.Std, digest)]
  }

  lemma JoinStep(p: string, rest: seq<string>)
    requires rest != []
    ensures Join([p] + rest, '$') == p + "$" + Join(rest, '$')
  {
  }

  /** The printed hash is its six parts joined by `$`. */
  lemma PrintIsJoin(version: nat, memory: nat, time: nat, threads: nat, salt: seq<Octet>, digest: seq<Octet>)
    ensures Print(version, memory, time, threads, salt, digest)
         == Join(Parts(version, memory, time, threads, salt, digest), '$')
  {
    var p := Parts(version, memory, time, threads, salt, digest);
    JoinStep(p[4], [p[5]]);
    JoinStep(p[3], [p[4], p[5]]);
    assert [p[3]] + [p[4], p[5]] == [p[3], p[4], p[5]];
    JoinStep(p[2], [p[3], p[4], p[5]]);
    assert [p[2]] + [p[3], p[4], p[5]] == [p[2], p[3], p[4], p[5]];
    HeaderJoin([p[2], p[3], p[4], p[5]]);
    assert ["", "argon2id"] + [p[2], p[3], p[4], p[5]] == p;
  }

  lemma HeaderJoin(rest: seq<string>)
    requires rest != []
    ensures Join(["", "argon2id"] + rest, '$') == "$argon2id$" + Join(rest, '$')
  {
  }

  /** Splitting a printed hash on `$` gives its six parts. */
  lemma PrintedParts(version: nat, memory: nat, time: nat, threads: nat, salt: seq<Octet>, digest: seq<Octet>)
    ensures Split(Print(version, memory, time, threads, salt, digest), '$')
         == Parts(version, memory, time, threads, salt, digest)
  {
    EncodingFree(salt);
    EncodingFree(digest);
    DecimalFree(version);
    FreeConcat("v=", Decimal(version));
    ParamsPartFree(memory, time, threads);
    SplitJoin(Parts(version, memory, time, threads, salt, digest), '$');
    PrintIsJoin(version, memory, time, threads, salt, digest);
  }

  /** Every printed hash parses back to the version, parameters, salt and digest it was printed from. */
  lemma PrintVerify(kdf: Kdf, plain: string, version: nat, memory: nat, time: nat, threads: nat,
                    salt: seq<Octet>, digest: seq<Octet>)
    requires version < 0x8000_0000_0000_0000 && memory < 0x1_0000_0000 && time < 0x1_0000_0000 && threads < 256
    ensures Verify(kdf, plain, Print(version, memory, time, threads, salt, digest))
         == Ok(kdf(plain, salt, time, memory, threads, |digest|) == digest)
  {
    PrintedParts(version, memory, time, threads, salt, digest);
    PartsVerify(kdf, plain, version, memory, time, threads, salt, digest);
  }

  lemma PartsVerify(kdf: Kdf, plain: string, version: nat, memory: nat, time: nat, threads: nat,
                    salt: seq<Octet>, digest: seq<Octet>)
    requires version < 0x8000_0000_0000_0000 && memory < 0x1_0000_0000 && time < 0x1_0000_0000 && threads < 256
    ensures VerifyParts(kdf, plain, Parts(version, memory, time, threads, salt, digest))
         == Ok(kdf(plain, salt, time, memory, threads, |digest|) == digest)
  {
    var parts := Parts(version, memory, time, threads, salt, digest);
    assert ScanVersion(parts[2]).Some? by { VersionRoundTrip(version); }
    assert ScanParams(parts[3]) == Some((memory, time, threads)) by { ParamsRoundTrip(memory, time, threads); }
    assert Base64.Decode(Base64.Std, parts[4]) == Some(salt) by { Base64.RoundTrip(Base64.Std, salt); }
    assert Base64.Decode(Base64.Std, parts[5]) == Some(digest) by { Base64.RoundTrip(Base64.Std, digest); }
    ScannedVerify(kdf, plain, parts, memory, time, threads, salt, digest);
  }

  lemma ScannedVerify(kdf: Kdf, plain: string, parts: seq<string>, memory: nat, time: nat, threads: nat,
                      salt: seq<Octet>, digest: seq<Octet>)
    requires |parts| == 6 && parts[1] == "argon2id" && ScanVersion(parts[2]).Some?
    requires ScanParams(parts[3]) == Some((memory, time, threads))
    requires Base64.Decode(Base64.Std, parts[4]) == Some(salt) && Base64.Decode(Base64.Std, parts[5]) == Some(digest)
    ensures VerifyParts(kdf, plain, parts) == Ok(kdf(plain, salt, time, memory, threads, |digest|) == digest)
  {
  }

  /** `Verify(q, Hash(p))` never errs, and is true exactly when the two plaintexts have one argon2 digest. */
  lemma HashVerify(kdf: Kdf, p: string, q: string, salt: seq<Octet>)
    requires |kdf(p, salt, 2, 65536, 4, 32)| == 32
    ensures Verify(kdf, q, Hash(kdf, p, salt)) == Ok(kdf(q, salt, 2, 65536, 4, 32) == kdf(p, salt, 2, 65536, 4, 32))
  {
    PrintVerify(kdf, q, VERSION, MEMORY, TIME, THREADS, salt, kdf(p, salt, TIME, MEMORY, THREADS, KEY_LEN));
  }

  /** The parameters stand in the hash in clear: version 19, 64 MB, two passes, four threads. */
  lemma HashPrefix(kdf: Kdf, p: string, salt: seq<Octet>)
    ensures var prefix := "$argon2id$v=19$m=65536,t=2,p=4$";
            |prefix| <= |Hash(kdf, p, salt)| && Hash(kdf, p, salt)[..|prefix|] == prefix
  {
    ClearText();
    var rest := SaltPart(salt, kdf(p, salt, TIME, MEMORY, THREADS, KEY_LEN));
    Joined(rest);
  }

  lemma Joined(rest: string)
    ensures "$argon2id$" + ("v=19" + "$" + ("m=65536,t=2,p=4" + "$" + rest)) == "$argon2id$v=19$m=65536,t=2,p=4$" + rest
  {
  }

  lemma MemoryText()
    ensures Decimal(65536) == "65536"
  {
    assert Decimal(6) == "6" && Decimal(65) == Decimal(6) + "5";
    assert Decimal(655) == Decimal(65) + "5" && Decimal(6553) == Decimal(655) + "3";
    assert Decimal(65536) == Decimal(6553) + "6";
  }

  lemma ClearText()
    ensures VersionPart(VERSION) == "v=19" && ParamsPart(MEMORY, TIME, THREADS) == "m=65536,t=2,p=4"
  {
    MemoryText();
    assert Decimal(1) == "1" && Decimal(VERSION) == Decimal(1) + "9";
    assert Decimal(TIME) == "2" && Decimal(THREADS) == "4";
  }

  /** A string without exactly five `$`, or with another algorithm between the first two, is no hash at all. */
  lemma NotAHash(kdf: Kdf, q: string, encoded: string)
    ensures Count(encoded, '$') != 5 ==> Verify(kdf, q, encoded) == Err(InvalidFormat)
    ensures |Split(encoded, '$')| == 6 && Split(encoded, '$')[1] != "argon2id" ==>
              Verify(kdf, q, encoded) == Err(InvalidFormat)
  {
    SplitLength(encoded, '$');
  }

  // ---- policy ----

  /** The Unicode category of a character, as far as the policy tells characters apart. */
  datatype Category = Upper | Number | Special | Other

  datatype PolicyError = TooShort | NoUpper | NoDigit | NoSpecial

  /** The length in octets of a string in UTF-8, which is what Go's `len` counts. */
  function Utf8Length(s: string): nat {
    if s == "" then 0 else Utf8Width(s[0]) + Utf8Length(s[1..])
  }

  function Utf8Width(c: char): nat {
    if c as int < 0x80 then 1 else if c as int < 0x800 then 2 else if c as int < 0x1_0000 then 3 else 4
  }

  predicate Has(plain: string, category: char -> Category, k: Category) {
    exists i :: 0 <= i < |plain| && category(plain[i]) == k
  }

  /** Eight octets or more, and all three kinds. */
  predicate Accepts(plain: string, category: char -> Category) {
    && Utf8Length(plain) >= 8
    && Has(plain, category, Upper) && Has(plain, category, Number) && Has(plain, category, Special)
  }

  /** Accepts exactly the strings of eight octets or more with all three kinds; else names the first rule broken. */
  method Validate(plain: string, category: char -> Category) returns (r: Option<PolicyError>)
    ensures r.None? <==> Accepts(plain, category)
    ensures r == Some(TooShort) <==> Utf8Length(plain) < 8
    ensures r == Some(NoUpper) <==> Utf8Length(plain) >= 8 && !Has(plain, category, Upper)
    ensures r == Some(NoDigit) ==> Has(plain, category, Upper) && !Has(plain, category, Number)
    ensures r == Some(NoSpecial) ==> Has(plain, category, Upper) && Has(plain, category, Number)
                                     && !Has(plain, category, Special)
  {
    if Utf8Length(plain) < 8 {
      return Some(TooShort);
    }
    var hasUpper, hasDigit, hasSpecial := false, false, false;
    for i := 0 to |plain|
      invariant hasUpper <==> exists j :: 0 <= j < i && category(plain[j]) == Upper
      invariant hasDigit <==> exists j :: 0 <= j < i && category(plain[j]) == Number
      invariant hasSpecial <==> exists j :: 0 <= j < i && category(plain[j]) == Special
    {
      match category(plain[i])
      case Upper => hasUpper := true;
      case Number => hasDigit := true;
      case Special => hasSpecial := true;
      case Other =>
    }
    if !hasUpper {
      return Some(NoUpper);
    }
    if !hasDigit {
      return Some(NoDigit);
    }
    if !hasSpecial {
      return Some(NoSpecial);
    }
    return None;
  }

  // ---- octets and characters ----

  predicate Ascii(s: string) {
    forall i :: 0 <= i < |s| ==> s[i] as int < 0x80
  }

  /** The octets that the non-ASCII characters take beyond one each (section 3 of RFC 3629). */
  function ExtraOctets(s: string): nat {
    if s == "" then 0
    else
      var u := s[0] as int;
      (if u < 0x80 then 0 else if u < 0x800 then 1 else if u < 0x1_0000 then 2 else 3) + ExtraOctets(s[1..])
  }

  lemma {:induction false} LengthRules(s: string)
    ensures Utf8Length(s) == |s| + ExtraOctets(s)
    ensures ExtraOctets(s) <= 3 * |s|
    ensures ExtraOctets(s) == 0 <==> Ascii(s)
  {
    if s != "" {
      LengthRules(s[1..]);
      assert Ascii(s) ==> Ascii(s[1..]);
      if s[0] as int < 0x80 && Ascii(s[1..]) {
        forall i | 0 <= i < |s| ensures s[i] as int < 0x80 {
          assert i > 0 ==> s[i] == s[1..][i - 1];
        }
      }
    }
  }

  /** The policy as documented: the minimum is eight characters. */
  predicate Documented(plain: string, category: char -> Category) {
    && |plain| >= 8
    && Has(plain, category, Upper) && Has(plain, category, Number) && Has(plain, category, Special)
  }

  /**
   The code never refuses what the documentation admits, and never differs on ASCII.  It admits more exactly for
   strings of n < 8 characters with all three kinds whose non-ASCII characters add at least 8 - n octets.
   */
  lemma PoliciesDiffer(s: string, category: char -> Category)
    ensures Documented(s, category) ==> Accepts(s, category)
    ensures Accepts(s, category) && !Documented(s, category) <==>
              && |s| < 8 && ExtraOctets(s) >= 8 - |s|
              && Has(s, category, Upper) && Has(s, category, Number) && Has(s, category, Special)
    ensures Ascii(s) ==> (Accepts(s, category) <==> Documented(s, category))
  {
    LengthRules(s);
  }

  /** Three characters is the true minimum: one of each kind. */
  lemma ThreeAtLeast(s: string, category: char -> Category)
    requires Accepts(s, category)
    ensures |s| >= 3
  {
    var i :| 0 <= i < |s| && category(s[i]) == Upper;
    var j :| 0 <= j < |s| && category(s[j]) == Number;
    var k :| 0 <= k < |s| && category(s[k]) == Special;
    assert i != j && j != k && i != k;
  }

  lemma LengthOfThree(a: char, b: char, d: char)
    ensures Utf8Length([a, b, d]) == Utf8Width(a) + Utf8Width(b) + Utf8Width(d)
  {
    assert [a, b, d][1..] == [b, d] && [b, d][1..] == [d] && [d][1..] == "";
    assert Utf8Length([d]) == Utf8Width(d) + Utf8Length("");
    assert Utf8Length([b, d]) == Utf8Width(b) + Utf8Length([d]);
  }

  /** Mathematical bold A and zero take four octets each, so three characters can be enough. */
  lemma ThreeAccepted(category: char -> Category)
    requires category('\U{1D400}') == Upper && category('\U{1D7CE}') == Number && category('!') == Special
    ensures Accepts("\U{1D400}\U{1D7CE}!", category)
  {
    var s := "\U{1D400}\U{1D7CE}!";
    LengthOfThree(s[0], s[1], s[2]);
    assert s == [s[0], s[1], s[2]];
    assert category(s[0]) == Upper && category(s[1]) == Number && category(s[2]) == Special;
  }

  lemma {:induction false} LengthConcat(a: string, b: string)
    ensures Utf8Length(a + b) == Utf8Length(a) + Utf8Length(b)
  {
    if a == "" {
      assert a + b == b;
    } else {
      LengthConcat(a[1..], b);
      assert (a + b)[1..] == a[1..] + b;
    }
  }

  /** An accepted password of six everyday characters, two of them accented. */
  lemma ShortPasswordAccepted(category: char -> Category)
    requires category('\U{00C9}') == Upper && category('1') == Number && category('!') == Special
    ensures var s := "\U{00C9}\U{00E9}1!xy"; |s| == 6 && Accepts(s, category) && !Documented(s, category)
  {
    var s := "\U{00C9}\U{00E9}1!xy";
    LengthConcat(s[..3], s[3..]);
    LengthOfThree(s[0], s[1], s[2]);
    LengthOfThree(s[3], s[4], s[5]);
    assert s[..3] == [s[0], s[1], s[2]] && s[3..] == [s[3], s[4], s[5]] && s == s[..3] + s[3..];
    assert category(s[0]) == Upper && category(s[2]) == Number && category(s[3]) == Special;
  }

  /** With the service's salt and key lengths the printed hash has 97 characters. */
  lemma HashLength(kdf: Kdf, p: string, salt: seq<Octet>)
    requires |salt| == SALT_LEN && |kdf(p, salt, TIME, MEMORY, THREADS, KEY_LEN)| == KEY_LEN
    ensures |Hash(kdf, p, salt)| == 97
  {
    Base64.EncodedLength(Base64.Std, salt);
    Base64.EncodedLength(Base64.Std, kdf(p, salt, TIME, MEMORY, THREADS, KEY_LEN));
    assert |Decimal(VERSION)| == 2 && |Decimal(TIME)| == 1 && |Decimal(THREADS)| == 1;
    assert Decimal(65) == Decimal(6) + [DigitChar(5)];
    assert |Decimal(655)| == 3 && |Decimal(6553)| == 4 && |Decimal(MEMORY)| == 5;
  }
}
