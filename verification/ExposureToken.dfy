/** The exposure token `nx1.<id>.<position>.<verifier>` (`src/niadra/exposure.py`), over unpadded base64url
  * (sections 5 and 3.5 of RFC 4648). The digest is a parameter: any function to at least three bytes. */
module ExposureToken {
  import opened Basics
  import opened Text

  type Byte = n: int | 0 <= n < 256

  datatype Refusal = Malformed | UnsupportedVersion | BadPosition | BadVerifier
  datatype Parsed = Accepted(id: seq<Byte>, position: nat) | Refused(code: Refusal)

  // ---- base64url ----

  predicate IsSymbol(c: char) {
    'A' <= c <= 'Z' || 'a' <= c <= 'z' || '0' <= c <= '9' || c == '-' || c == '_'
  }

  predicate AllSymbols(s: string) { forall i :: 0 <= i < |s| ==> IsSymbol(s[i]) }

  function Symbol(n: int): (c: char)
    requires 0 <= n < 64
    ensures IsSymbol(c)
  {
    if n < 26 then ('A' as int + n) as char
    else if n < 52 then ('a' as int + n - 26) as char
    else if n < 62 then ('0' as int + n - 52) as char
    else if n == 62 then '-'
    else '_'
  }

  function Value(c: char): (n: int)
    requires IsSymbol(c)
    ensures 0 <= n < 64
  {
    if 'A' <= c <= 'Z' then c as int - 'A' as int
    else if 'a' <= c <= 'z' then c as int - 'a' as int + 26
    else if '0' <= c <= '9' then c as int - '0' as int + 52
    else if c == '-' then 62
    else 63
  }

  lemma ValueOfSymbol(n: int)
    requires 0 <= n < 64
    ensures Value(Symbol(n)) == n
  {
  }

  function Encode(d: seq<Byte>): (s: string)
    ensures AllSymbols(s)
    ensures |d| >= 3 ==> |s| >= 4
  {
    if d == [] then ""
    else if |d| == 1 then [Symbol(d[0] / 4), Symbol(d[0] % 4 * 16)]
    else if |d| == 2 then [Symbol(d[0] / 4), Symbol(d[0] % 4 * 16 + d[1] / 16), Symbol(d[1] % 16 * 4)]
    else
      [Symbol(d[0] / 4), Symbol(d[0] % 4 * 16 + d[1] / 16), Symbol(d[1] % 16 * 4 + d[2] / 64), Symbol(d[2] % 64)]
      + Encode(d[3..])
  }

  type Sextet = n: int | 0 <= n < 64

  /** The three bytes of four groups of six bits. */
  function OfSextets(a: Sextet, b: Sextet, c: Sextet, e: Sextet): (r: seq<Byte>)
    ensures |r| == 3
  {
    [a * 4 + b / 16, b % 16 * 16 + c / 4, c % 4 * 64 + e]
  }

  /** The lenient decoder: bits left over at the end are dropped, whatever they are. */
  function Decode(s: string): seq<Byte>
    requires AllSymbols(s)
  {
    if |s| < 2 then []
    else
      var a, b := Value(s[0]), Value(s[1]);
      if |s| == 2 then [a * 4 + b / 16]
      else
        var c := Value(s[2]);
        if |s| == 3 then [a * 4 + b / 16, b % 16 * 16 + c / 4]
        else OfSextets(a, b, c, Value(s[3])) + Decode(s[4..])
  }

  /** A group of four symbols, and what follows it. */
  lemma DecodeGroup(s: string)
    requires |s| >= 4 && AllSymbols(s)
    ensures Decode(s) == OfSextets(Value(s[0]), Value(s[1]), Value(s[2]), Value(s[3])) + Decode(s[4..])
  {
  }

  /** The bits of three bytes, split into four and joined. */
  lemma ThreeBytes(x: Byte, y: Byte, z: Byte)
    ensures OfSextets(x / 4, x % 4 * 16 + y / 16, y % 16 * 4 + z / 64, z % 64) == [x, y, z]
  {
  }

  predicate GroupOf(d: seq<Byte>, s: string) {
    && |d| >= 3 && |s| >= 4 && AllSymbols(s)
    && Value(s[0]) == d[0] / 4 && Value(s[1]) == d[0] % 4 * 16 + d[1] / 16
    && Value(s[2]) == d[1] % 16 * 4 + d[2] / 64 && Value(s[3]) == d[2] % 64
  }

  lemma EncodeGroup(d: seq<Byte>)
    requires |d| >= 3
    ensures GroupOf(d, Encode(d)) && Encode(d)[4..] == Encode(d[3..])
  {
    ValueOfSymbol(d[0] / 4);
    ValueOfSymbol(d[0] % 4 * 16 + d[1] / 16);
    ValueOfSymbol(d[1] % 16 * 4 + d[2] / 64);
    ValueOfSymbol(d[2] % 64);
  }

  lemma DecodeGroupOf(d: seq<Byte>, s: string)
    requires GroupOf(d, s) && Decode(s[4..]) == d[3..]
    ensures Decode(s) == d
  {
    DecodeGroup(s);
    ThreeBytes(d[0], d[1], d[2]);
    assert [d[0], d[1], d[2]] + d[3..] == d;
  }

  lemma DecodeEncodeOne(x: Byte)
    ensures Decode(Encode([x])) == [x]
  {
    ValueOfSymbol(x / 4);
    ValueOfSymbol(x % 4 * 16);
    ThreeBytes(x, 0, 0);
  }

  lemma DecodeTwo(x: Byte, y: Byte, s: string)
    requires |s| == 3 && AllSymbols(s)
    requires Value(s[0]) == x / 4 && Value(s[1]) == x % 4 * 16 + y / 16 && Value(s[2]) == y % 16 * 4
    ensures Decode(s) == [x, y]
  {
  }

  lemma DecodeEncodeTwo(x: Byte, y: Byte)
    ensures Decode(Encode([x, y])) == [x, y]
  {
    ValueOfSymbol(x / 4);
    ValueOfSymbol(x % 4 * 16 + y / 16);
    ValueOfSymbol(y % 16 * 4);
    DecodeTwo(x, y, Encode([x, y]));
  }

  lemma {:induction false} DecodeEncode(d: seq<Byte>)
    ensures Decode(Encode(d)) == d
  {
    if |d| == 1 {
      DecodeEncodeOne(d[0]);
      assert d == [d[0]];
    } else if |d| == 2 {
      DecodeEncodeTwo(d[0], d[1]);
      assert d == [d[0], d[1]];
    } else if |d| >= 3 {
      DecodeEncode(d[3..]);
      EncodeGroup(d);
      DecodeGroupOf(d, Encode(d));
    }
  }

  lemma {:induction false} EncodeLength(d: seq<Byte>)
    ensures |Encode(d)| == |d| / 3 * 4 + (if |d| % 3 == 0 then 0 else |d| % 3 + 1)
  {
    if |d| >= 3 {
      EncodeLength(d[3..]);
    }
  }

  lemma {:induction false} DecodeLength(s: string)
    requires AllSymbols(s)
    ensures |Decode(s)| == |s| / 4 * 3 + (if |s| % 4 < 2 then 0 else |s| % 4 - 1)
  {
    if |s| >= 4 {
      DecodeLength(s[4..]);
    }
  }

  /** The symbols stand in the order of Table 2 of RFC 4648: the upper-case letters, the lower-case ones, the digits,
    * the minus sign and the underline. */
  lemma SymbolsInOrder(c: char)
    ensures Value('A') == 0 && Value('Z') == 25 && Value('a') == 26 && Value('z') == 51
    ensures Value('0') == 52 && Value('9') == 61 && Value('-') == 62 && Value('_') == 63
    ensures 'A' <= c < 'Z' || 'a' <= c < 'z' || '0' <= c < '9' ==> Value((c as int + 1) as char) == Value(c) + 1
  {
  }

  function OfBytes(x: int, y: int, z: int): int { (x * 256 + y) * 256 + z }

  function OfFour(a: int, b: int, c: int, e: int): int { ((a * 64 + b) * 64 + c) * 64 + e }

  /** Three bytes and their four symbols are the same 24 bits. */
  lemma SameBits(d: seq<Byte>)
    requires |d| >= 3
    ensures var s := Encode(d);
            && |s| >= 4 && s[4..] == Encode(d[3..])
            && OfFour(Value(s[0]), Value(s[1]), Value(s[2]), Value(s[3])) == OfBytes(d[0], d[1], d[2])
  {
    EncodeGroup(d);
    SextetsOf(d[0], d[1], d[2]);
  }

  /** One or two bytes are padded with zero bits, and the symbols that would stand for those alone left out. */
  lemma LastBits(x: Byte, y: Byte)
    ensures var s := Encode([x]);
            |s| == 2 && OfFour(Value(s[0]), Value(s[1]), 0, 0) == OfBytes(x, 0, 0)
    ensures var s := Encode([x, y]);
            |s| == 3 && OfFour(Value(s[0]), Value(s[1]), Value(s[2]), 0) == OfBytes(x, y, 0)
  {
    ValueOfSymbol(x / 4);
    ValueOfSymbol(x % 4 * 16);
    ValueOfSymbol(x % 4 * 16 + y / 16);
    ValueOfSymbol(y % 16 * 4);
    SextetsOf(x, 0, 0);
    SextetsOf(x, y, 0);
  }

  lemma SextetsOf(x: int, y: int, z: int)
    requires 0 <= x < 256 && 0 <= y < 256 && 0 <= z < 256
    ensures OfFour(x / 4, x % 4 * 16 + y / 16, y % 16 * 4 + z / 64, z % 64) == OfBytes(x, y, z)
  {
  }

  // ---- The token ----

  const VERSION := "nx1"
  const DOT := '.'

  ghost predicate IsDigest(digest: string -> seq<Byte>) { forall s :: |digest(s)| >= 3 }

  function Verifier(digest: string -> seq<Byte>, head: string): (s: string)
    requires |digest(head)| >= 3
    ensures |s| == 4 && AllSymbols(s)
  {
    Encode(digest(head))[..4]
  }

  function Head(version: string, ident: string, position: string): string {
    version + [DOT] + (ident + [DOT] + position)
  }

  function WithVerifier(version: string, ident: string, position: string, verifier: string): string {
    version + [DOT] + (ident + [DOT] + (position + [DOT] + verifier))
  }

  predicate ValidPair(id: seq<Byte>, position: int) { |id| == 16 && 1 <= position <= 9999 }

  /** What is printed for the exposure `id` and one of its positions, or None for a position out of range. */
  function Token(digest: string -> seq<Byte>, id: seq<Byte>, position: int): Option<string>
    requires IsDigest(digest) && |id| == 16
  {
    if !(1 <= position <= 9999) then None
    else
      var ident, place := Encode(id), Decimal(position);
      Some(WithVerifier(VERSION, ident, place, Verifier(digest, Head(VERSION, ident, place))))
  }

  predicate IsPosition(s: string) { 1 <= |s| <= 4 && AllDigits(s) && s[0] != '0' }

  /** The first check that fails gives the code. */
  function Parse(digest: string -> seq<Byte>, token: string): Parsed
    requires IsDigest(digest)
  {
    ParseSegments(digest, Split(token, DOT))
  }

  function ParseSegments(digest: string -> seq<Byte>, segments: seq<string>): Parsed
    requires IsDigest(digest)
  {
    if |segments| != 4 then Refused(Malformed)
    else
      var version, ident, position, verifier := segments[0], segments[1], segments[2], segments[3];
      if version != VERSION then Refused(UnsupportedVersion)
      else if |ident| != 22 || !AllSymbols(ident) then Refused(Malformed)
      else
        var raw := Decode(ident);
        if Encode(raw) != ident then Refused(Malformed)
        else if |verifier| != 4 || !AllSymbols(verifier) then Refused(Malformed)
        else if !IsPosition(position) then Refused(BadPosition)
        else if Verifier(digest, Head(version, ident, position)) != verifier then Refused(BadVerifier)
        else Accepted(raw, Number(position))
  }

  lemma NoDot(s: string)
    requires AllSymbols(s) || AllDigits(s)
    ensures DOT !in s
  {
  }

  lemma FourSegments(a: string, b: string, c: string, d: string)
    requires DOT !in a && DOT !in b && DOT !in c && DOT !in d
    ensures Split(WithVerifier(a, b, c, d), DOT) == [a, b, c, d]
  {
    SplitFirst(a, b + [DOT] + (c + [DOT] + d), DOT);
    SplitFirst(b, c + [DOT] + d, DOT);
    SplitFirst(c, d, DOT);
    SplitWhole(d, DOT);
  }

  lemma FromSegments(token: string)
    requires |Split(token, DOT)| == 4
    ensures var s := Split(token, DOT); WithVerifier(s[0], s[1], s[2], s[3]) == token
  {
    var s := Split(token, DOT);
    JoinedSplit(token, DOT);
    assert s[1..][1..] == s[2..] && s[2..][1..] == s[3..];
    assert s[3..] == [s[3]];
    assert Joined(s[2..], DOT) == s[2] + [DOT] + s[3];
    assert Joined(s[1..], DOT) == s[1] + [DOT] + (s[2] + [DOT] + s[3]);
  }

  lemma PositionText(n: nat)
    requires 1 <= n <= 9999
    ensures IsPosition(Decimal(n)) && Number(Decimal(n)) == n
  {
    NumberOfDecimal(n);
    DecimalLength(n, 4);
    assert Pow10(4) == 10000;
  }

  lemma PositionValue(s: string)
    requires IsPosition(s)
    ensures 1 <= Number(s) <= 9999 && Decimal(Number(s)) == s
  {
    DecimalOfNumber(s);
    DecimalLength(Number(s), 4);
    assert Pow10(4) == 10000;
  }

  lemma PrintedSegments(digest: string -> seq<Byte>, id: seq<Byte>, position: nat, verifier: string)
    requires IsDigest(digest) && ValidPair(id, position)
    requires verifier == Verifier(digest, Head(VERSION, Encode(id), Decimal(position)))
    ensures |Encode(id)| == 22
    ensures ParseSegments(digest, [VERSION, Encode(id), Decimal(position), verifier]) == Accepted(id, position)
  {
    EncodeLength(id);
    DecodeEncode(id);
    PositionText(position);
  }

  /** Printing then parsing gives back both, and a token has 33 to 36 characters. */
  lemma PrintedIsAccepted(digest: string -> seq<Byte>, id: seq<Byte>, position: int)
    requires IsDigest(digest) && ValidPair(id, position)
    ensures var token := Token(digest, id, position);
            && token.Some? && Parse(digest, token.value) == Accepted(id, position)
            && |token.value| == 32 + |Decimal(position)| && 33 <= |token.value| <= 36
  {
    var ident, place := Encode(id), Decimal(position);
    var verifier := Verifier(digest, Head(VERSION, ident, place));
    PrintedSegments(digest, id, position, verifier);
    PositionText(position);
    NoDot(ident);
    NoDot(place);
    NoDot(verifier);
    FourSegments(VERSION, ident, place, verifier);
  }

  /** What is accepted is the printed token of what it names, so no second string names the same pair. */
  lemma AcceptedIsPrinted(digest: string -> seq<Byte>, token: string)
    requires IsDigest(digest) && Parse(digest, token).Accepted?
    ensures var p := Parse(digest, token);
            ValidPair(p.id, p.position) && Token(digest, p.id, p.position) == Some(token)
  {
    var s := Split(token, DOT);
    FromSegments(token);
    DecodeLength(s[1]);
    PositionValue(s[2]);
  }

  /** A token is accepted exactly when it is the printed token of the id and position returned. */
  lemma AcceptedExactlyWhenPrinted(digest: string -> seq<Byte>, token: string, id: seq<Byte>, position: nat)
    requires IsDigest(digest)
    ensures Parse(digest, token) == Accepted(id, position) <==>
            |id| == 16 && Token(digest, id, position) == Some(token)
  {
    if Parse(digest, token) == Accepted(id, position) {
      AcceptedIsPrinted(digest, token);
    }
    if ValidPair(id, position) {
      PrintedIsAccepted(digest, id, position);
    }
  }

  // ---- What is printed, and why a token is refused ----

  lemma PrefixOfEncoding(d: seq<Byte>)
    requires |d| >= 3
    ensures |Encode(d)| >= 4 && Decode(Encode(d)[..4]) == d[..3]
  {
    EncodeGroup(d);
    var s := Encode(d)[..4];
    assert s[0] == Encode(d)[0] && s[1] == Encode(d)[1] && s[2] == Encode(d)[2] && s[3] == Encode(d)[3];
    assert GroupOf(d[..3], s) && s[4..] == "" && d[..3][3..] == [];
    DecodeGroupOf(d[..3], s);
  }

  /** The verifier is the first three bytes of the digest of what it verifies. */
  lemma VerifierIsOfTheDigest(digest: string -> seq<Byte>, head: string)
    requires |digest(head)| >= 3
    ensures Decode(Verifier(digest, head)) == digest(head)[..3]
  {
    PrefixOfEncoding(digest(head));
  }

  ghost predicate ArePrinted(digest: string -> seq<Byte>, parts: seq<string>, id: seq<Byte>, position: int)
    requires IsDigest(digest)
  {
    && |parts| == 4 && parts[0] == "nx1"
    && AllSymbols(parts[1]) && |parts[1]| == 22 && Decode(parts[1]) == id
    && AllDigits(parts[2]) && Number(parts[2]) == position
    && AllSymbols(parts[3]) && |parts[3]| == 4
    && Decode(parts[3]) == digest(parts[0] + "." + (parts[1] + "." + parts[2]))[..3]
  }

  /** Four parts between points: the version, the id's 22 symbols, the position as it is written, and the verifier of
    * the other three. */
  lemma PrintedText(digest: string -> seq<Byte>, id: seq<Byte>, position: int)
    requires IsDigest(digest) && |id| == 16
    ensures Token(digest, id, position).None? <==> position < 1 || position > 9999
    ensures Token(digest, id, position).Some? ==>
              ArePrinted(digest, Split(Token(digest, id, position).value, '.'), id, position)
  {
    if 1 <= position <= 9999 {
      var ident, place := Encode(id), Decimal(position);
      var verifier := Verifier(digest, Head(VERSION, ident, place));
      PrintedSegments(digest, id, position, verifier);
      PositionText(position);
      DecodeEncode(id);
      NoDot(ident);
      NoDot(place);
      NoDot(verifier);
      FourSegments(VERSION, ident, place, verifier);
      VerifierIsOfTheDigest(digest, Head(VERSION, ident, place));
    }
  }

  predicate WellShaped(parts: seq<string>) {
    && |parts| == 4 && |parts[1]| == 22 && AllSymbols(parts[1]) && Encode(Decode(parts[1])) == parts[1]
    && |parts[3]| == 4 && AllSymbols(parts[3])
  }

  /** Which refusal a token meets: another version only in four parts, a bad position only in a well-shaped token of
    * this version, a bad verifier only with a good position; anything else not accepted is malformed. */
  lemma RefusedExactly(digest: string -> seq<Byte>, token: string)
    requires IsDigest(digest)
    ensures var parts, parsed := Split(token, '.'), Parse(digest, token);
            && (parsed == Refused(UnsupportedVersion) <==> |parts| == 4 && parts[0] != "nx1")
            && (parsed == Refused(Malformed) <==> |parts| != 4 || (parts[0] == "nx1" && !WellShaped(parts)))
            && (parsed == Refused(BadPosition) <==>
                  && WellShaped(parts) && parts[0] == "nx1"
                  && !(1 <= |parts[2]| <= 4 && AllDigits(parts[2]) && parts[2][0] != '0'))
            && (parsed == Refused(BadVerifier) ==> WellShaped(parts) && parts[0] == "nx1")
  {
  }
}
