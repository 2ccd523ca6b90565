/** Base64 with the URL-safe alphabet and no padding (section 5 of RFC 4648). */
module Base64Url {
  type Byte = b: int | 0 <= b < 256
  type Sextet = x: int | 0 <= x < 64

  /** Bytes regrouped into six-bit units; one or two bytes left over are filled up with zero bits. */
  function Sextets(b: seq<Byte>): seq<Sextet> {
    if |b| == 0 then []
    else if |b| == 1 then [b[0] / 4, b[0] % 4 * 16]
    else if |b| == 2 then [b[0] / 4, b[0] % 4 * 16 + b[1] / 16, b[1] % 16 * 4]
    else [b[0] / 4, b[0] % 4 * 16 + b[1] / 16, b[1] % 16 * 4 + b[2] / 64, b[2] % 64] + Sextets(b[3..])
  }

  /** Six-bit units regrouped into bytes; bits that do not fill a byte are dropped. */
  function Octets(x: seq<Sextet>): seq<Byte> {
    if |x| < 2 then []
    else if |x| == 2 then [First(x[0], x[1])]
    else if |x| == 3 then [First(x[0], x[1]), Second(x[1], x[2])]
    else [First(x[0], x[1]), Second(x[1], x[2]), Third(x[2], x[3])] + Octets(x[4..])
  }

  function First(x: int, y: int): Byte
    requires 0 <= x < 64 && 0 <= y < 64
  {
    x * 4 + y / 16
  }

  function Second(x: int, y: int): Byte
    requires 0 <= x < 64 && 0 <= y < 64
  {
    x % 16 * 16 + y / 4
  }

  function Third(x: int, y: int): Byte
    requires 0 <= x < 64 && 0 <= y < 64
  {
    x % 4 * 64 + y
  }

  /** The standard alphabet. */
  function CharOf(x: Sextet): char {
    if x < 26 then 'A' + x as char
    else if x < 52 then 'a' + (x - 26) as char
    else if x < 62 then '0' + (x - 52) as char
    else if x == 62 then '+' else '/'
  }

  predicate InAlphabet(c: char) {
    'A' <= c <= 'Z' || 'a' <= c <= 'z' || '0' <= c <= '9' || c == '+' || c == '/'
  }

  function SextetOf(c: char): Sextet
    requires InAlphabet(c)
  {
    if 'A' <= c <= 'Z' then (c - 'A') as int
    else if 'a' <= c <= 'z' then (c - 'a') as int + 26
    else if '0' <= c <= '9' then (c - '0') as int + 52
    else if c == '+' then 62 else 63
  }

  /** `toString("base64")`: four characters for every three bytes, padded with `=`. */
  function ToBase64(b: seq<Byte>): string {
    var x := Sextets(b);
    seq(|x|, i requires 0 <= i < |x| => CharOf(x[i])) + if |b| % 3 == 1 then "==" else if |b| % 3 == 2 then "=" else ""
  }

  /** `Buffer.from(s, "base64")`: characters outside the alphabet are skipped. */
  function FromBase64(s: string): seq<Byte> { Octets(Units(s)) }

  function Units(s: string): seq<Sextet> {
    if s == [] then []
    else (if InAlphabet(s[0]) then [SextetOf(s[0])] else []) + Units(s[1..])
  }

  function ReplaceChar(s: string, from: char, to: char): string {
    seq(|s|, i requires 0 <= i < |s| => if s[i] == from then to else s[i])
  }

  /** `replace(/=+$/, "")`. */
  function StripPadding(s: string): string {
    if s != [] && s[|s| - 1] == '=' then StripPadding(s[..|s| - 1]) else s
  }

  function Encode(b: seq<Byte>): string {
    StripPadding(ReplaceChar(ReplaceChar(ToBase64(b), '+', '-'), '/', '_'))
  }

  function Decode(s: string): seq<Byte> {
    FromBase64(ReplaceChar(ReplaceChar(s, '-', '+'), '_', '/'))
  }

  // ---- round trip -----------------------------------------------------------

  lemma ThreeBytes(a: Byte, b: Byte, c: Byte)
    ensures First(a / 4, a % 4 * 16 + b / 16) == a
    ensures Second(a % 4 * 16 + b / 16, b % 16 * 4 + c / 64) == b
    ensures Third(b % 16 * 4 + c / 64, c % 64) == c
  {
  }

  lemma {:induction false} RegroupingIsInverse(b: seq<Byte>)
    ensures Octets(Sextets(b)) == b
  {
    hide First, Second, Third;
    if |b| == 1 {
      ThreeBytes(b[0], 0, 0);
    } else if |b| == 2 {
      ThreeBytes(b[0], b[1], 0);
    } else if |b| >= 3 {
      ThreeBytes(b[0], b[1], b[2]);
      RegroupingIsInverse(b[3..]);
      var x := Sextets(b);
      assert x[4..] == Sextets(b[3..]);
      assert b == [b[0], b[1], b[2]] + b[3..];
    }
  }

  /** The URL-safe alphabet. */
  function UrlCharOf(x: Sextet): char {
    if x == 62 then '-' else if x == 63 then '_' else CharOf(x)
  }

  predicate UrlSafe(c: char) {
    'A' <= c <= 'Z' || 'a' <= c <= 'z' || '0' <= c <= '9' || c == '-' || c == '_'
  }

  lemma AlphabetsAgree(x: Sextet)
    ensures InAlphabet(CharOf(x)) && SextetOf(CharOf(x)) == x
    ensures CharOf(x) != '='
    ensures UrlSafe(UrlCharOf(x))
    ensures UrlCharOf(x) == if CharOf(x) == '+' then '-' else if CharOf(x) == '/' then '_' else CharOf(x)
  {
  }

  function UrlText(x: seq<Sextet>): string { seq(|x|, i requires 0 <= i < |x| => UrlCharOf(x[i])) }

  lemma {:induction false} StripsAllPadding(s: string, n: nat)
    requires s == [] || s[|s| - 1] != '='
    ensures StripPadding(s + seq(n, _ => '=')) == s
    decreases n
  {
    var all := s + seq(n, _ => '=');
    if n > 0 {
      assert all[..|all| - 1] == s + seq(n - 1, _ => '=');
      StripsAllPadding(s, n - 1);
    } else {
      assert all == s;
    }
  }

  /** The three text replacements leave exactly the six-bit units in the URL-safe alphabet. */
  lemma EncodeIsUrlText(b: seq<Byte>)
    ensures Encode(b) == UrlText(Sextets(b))
  {
    hide Sextets;
    var x := Sextets(b);
    forall i | 0 <= i < |x| ensures UrlText(x)[i] != '=' && CharOf(x[i]) != '=' {
      AlphabetsAgree(x[i]);
    }
    var n := if |b| % 3 == 1 then 2 else if |b| % 3 == 2 then 1 else 0;
    var replaced := ReplaceChar(ReplaceChar(ToBase64(b), '+', '-'), '/', '_');
    assert replaced == UrlText(x) + seq(n, _ => '=');
    StripsAllPadding(UrlText(x), n);
  }

  lemma {:induction false} UnitsOfText(x: seq<Sextet>)
    ensures Units(seq(|x|, i requires 0 <= i < |x| => CharOf(x[i]))) == x
  {
    var s := seq(|x|, i requires 0 <= i < |x| => CharOf(x[i]));
    if x != [] {
      AlphabetsAgree(x[0]);
      UnitsOfText(x[1..]);
      assert s[1..] == seq(|x[1..]|, i requires 0 <= i < |x[1..]| => CharOf(x[1..][i]));
    }
  }

  /** Decoding undoes encoding, for every byte sequence. */
  lemma DecodeOfEncode(b: seq<Byte>)
    ensures Decode(Encode(b)) == b
  {
    hide Sextets, Octets, Encode;
    var x := Sextets(b);
    EncodeIsUrlText(b);
    var plain := seq(|x|, i requires 0 <= i < |x| => CharOf(x[i]));
    forall i | 0 <= i < |x| ensures ReplaceChar(ReplaceChar(UrlText(x), '-', '+'), '_', '/')[i] == plain[i] {
      AlphabetsAgree(x[i]);
    }
    assert ReplaceChar(ReplaceChar(UrlText(x), '-', '+'), '_', '/') == plain;
    UnitsOfText(x);
    RegroupingIsInverse(b);
  }

  lemma {:induction false} SextetCount(b: seq<Byte>)
    ensures |Sextets(b)| == (4 * |b| + 2) / 3
  {
    if |b| >= 3 {
      SextetCount(b[3..]);
    }
  }

  /** Encoded text is URL-safe throughout: no '.', no '='; four characters for three bytes, rounded up. */
  lemma EncodedTextIsUrlSafe(b: seq<Byte>)
    ensures |Encode(b)| == (4 * |b| + 2) / 3
    ensures forall i :: 0 <= i < |Encode(b)| ==> UrlSafe(Encode(b)[i])
  {
    hide Sextets, Encode;
    EncodeIsUrlText(b);
    SextetCount(b);
    forall i | 0 <= i < |Encode(b)| ensures UrlSafe(Encode(b)[i]) {
      AlphabetsAgree(Sextets(b)[i]);
    }
  }

  // ---- what the characters stand for ----------------------------------------

  /** The place of a character in table 2 of RFC 4648: A to Z, a to z, 0 to 9, minus, underline, by their codes. */
  function Place(code: int): int {
    if 65 <= code <= 90 then code - 65
    else if 97 <= code <= 122 then code - 97 + 26
    else if 48 <= code <= 57 then code - 48 + 52
    else if code == 45 then 62 else if code == 95 then 63 else -1
  }

  lemma PlaceOfChar(x: Sextet)
    ensures Place(UrlCharOf(x) as int) == x
  {
  }

  /** Byte `i` and character `k` as numbers; zero beyond the end. */
  function ByteAt(b: seq<Byte>, i: nat): int { if i < |b| then b[i] else 0 }

  function PlaceAt(s: string, k: nat): int { if k < |s| then Place(s[k] as int) else 0 }

  /** Three bytes, and four six-bit units, as one number of 24 bits. */
  function ThreeBytesAt(b: seq<Byte>, i: nat): int {
    65536 * ByteAt(b, i) + 256 * ByteAt(b, i + 1) + ByteAt(b, i + 2)
  }

  function FourPlacesAt(s: string, k: nat): int {
    262144 * PlaceAt(s, k) + 4096 * PlaceAt(s, k + 1) + 64 * PlaceAt(s, k + 2) + PlaceAt(s, k + 3)
  }

  lemma RegroupedNumber(a: int, b: int, c: int)
    requires 0 <= a < 256 && 0 <= b < 256 && 0 <= c < 256
    ensures 262144 * (a / 4) + 4096 * (a % 4 * 16 + b / 16) + 64 * (b % 16 * 4 + c / 64) + c % 64
            == 65536 * a + 256 * b + c
  {
  }

  lemma PlacesOfText(x: seq<Sextet>, k: nat)
    ensures PlaceAt(UrlText(x), k) == if k < |x| then x[k] else 0
  {
    if k < |x| {
      PlaceOfChar(x[k]);
    }
  }

  /** A group of its own, or the first of several. */
  lemma FirstGroup(b: seq<Byte>)
    requires b != []
    ensures FourPlacesAt(UrlText(Sextets(b)), 0) == ThreeBytesAt(b, 0)
  {
    hide UrlText, PlaceAt;
    var x := Sextets(b);
    PlacesOfText(x, 0);
    PlacesOfText(x, 1);
    PlacesOfText(x, 2);
    PlacesOfText(x, 3);
    RegroupedNumber(ByteAt(b, 0), ByteAt(b, 1), ByteAt(b, 2));
  }

  lemma PlacesShift(s: string, k: nat)
    requires |s| >= 4
    ensures FourPlacesAt(s, k + 4) == FourPlacesAt(s[4..], k)
  {
    hide Place;
  }

  lemma BytesShift(b: seq<Byte>, i: nat)
    requires |b| >= 3
    ensures ThreeBytesAt(b, i + 3) == ThreeBytesAt(b[3..], i)
  {
  }

  lemma TextOfTheRest(b: seq<Byte>)
    requires |b| >= 3
    ensures |UrlText(Sextets(b))| >= 4 && UrlText(Sextets(b))[4..] == UrlText(Sextets(b[3..]))
  {
    assert Sextets(b)[4..] == Sextets(b[3..]);
  }

  lemma {:induction false} EachGroup(b: seq<Byte>, g: nat)
    requires 3 * g < |b|
    ensures FourPlacesAt(UrlText(Sextets(b)), 4 * g) == ThreeBytesAt(b, 3 * g)
  {
    hide Sextets, UrlText, FourPlacesAt, ThreeBytesAt;
    if g == 0 {
      FirstGroup(b);
    } else {
      EachGroup(b[3..], g - 1);
      TextOfTheRest(b);
      PlacesShift(UrlText(Sextets(b)), 4 * (g - 1));
      BytesShift(b, 3 * (g - 1));
    }
  }

  /**
   * The four characters of group `g` of an encoded text are, by their places in the table, the
   * digits in base 64 of its three bytes read as one number; missing ones count as zero.
   */
  lemma EncodedDigits(b: seq<Byte>, g: nat)
    requires 3 * g < |b|
    ensures FourPlacesAt(Encode(b), 4 * g) == ThreeBytesAt(b, 3 * g)
    ensures forall k :: 0 <= k < |Encode(b)| ==> 0 <= Place(Encode(b)[k] as int) < 64
  {
    hide Sextets, Encode, FourPlacesAt, ThreeBytesAt;
    EncodeIsUrlText(b);
    EachGroup(b, g);
    forall k | 0 <= k < |Encode(b)| ensures 0 <= Place(Encode(b)[k] as int) < 64 {
      PlaceOfChar(Sextets(b)[k]);
    }
  }

  /** "foobar" (section 10 of RFC 4648), and two bytes that need both characters that differ from plain Base64. */
  lemma KnownTexts()
    ensures Encode([0x66, 0x6F, 0x6F, 0x62, 0x61, 0x72]) == "Zm9vYmFy"
    ensures Encode([0xFB, 0xFF]) == "-_8"
  {
    hide Encode;
    var foobar: seq<Byte>, both: seq<Byte> := [0x66, 0x6F, 0x6F, 0x62, 0x61, 0x72], [0xFB, 0xFF];
    EncodeIsUrlText(foobar);
    EncodeIsUrlText(both);
    assert foobar[3..] == [0x62, 0x61, 0x72] && foobar[3..][3..] == [];
    assert Sextets(foobar[3..]) == [24, 38, 5, 50];
    assert Sextets(foobar) == [25, 38, 61, 47, 24, 38, 5, 50];
    assert Sextets(both) == [62, 63, 60];
  }
}
