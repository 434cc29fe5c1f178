/** Base64 with the URL-safe alphabet of section 5 of RFC 4648, padding stripped and restored as in
    app/core/session_tokens.py. Decoding follows the lenient decoder of the Python standard library:
    characters outside the alphabet are skipped, and both alphabets are read. */
module Base64Url {
  import opened Prelude

  type Byte = x: int | 0 <= x < 256
  type Sextet = x: int | 0 <= x < 64

  function Letter(v: Sextet): char {
    if v < 26 then 'A' + v as char
    else if v < 52 then 'a' + (v - 26) as char
    else if v < 62 then '0' + (v - 52) as char
    else if v == 62 then '-' else '_'
  }

  /** The value of a character; None if it is in neither alphabet. */
  function Value(c: char): Option<Sextet> {
    if 'A' <= c <= 'Z' then Some(c as int - 65)
    else if 'a' <= c <= 'z' then Some(c as int - 97 + 26)
    else if '0' <= c <= '9' then Some(c as int - 48 + 52)
    else if c == '-' || c == '+' then Some(62)
    else if c == '_' || c == '/' then Some(63)
    else None
  }

  lemma LetterHasValue(v: Sextet)
    ensures Value(Letter(v)) == Some(v) && CleanChar(Letter(v))
  {
  }

  function Quad(a: Byte, b: Byte, c: Byte): seq<char> {
    [Letter(a / 4), Letter(a % 4 * 16 + b / 16), Letter(b % 16 * 4 + c / 64), Letter(c % 64)]
  }

  /** urlsafe_b64encode: the padded form. */
  function PaddedEncode(raw: seq<Byte>): seq<char> {
    if raw == [] then []
    else if |raw| == 1 then Quad(raw[0], 0, 0)[..2] + ['=', '=']
    else if |raw| == 2 then Quad(raw[0], raw[1], 0)[..3] + ['=']
    else Quad(raw[0], raw[1], raw[2]) + PaddedEncode(raw[3..])
  }

  /** Python's rstrip(b"="). */
  function StripPadding(s: seq<char>): seq<char> {
    if s != [] && s[|s| - 1] == '=' then StripPadding(s[..|s| - 1]) else s
  }

  function Encode(raw: seq<Byte>): seq<char> {
    StripPadding(PaddedEncode(raw))
  }

  function Padding(n: nat): seq<char> {
    match n % 4
    case 0 => []
    case 1 => ['=', '=', '=']
    case 2 => ['=', '=']
    case _ => ['=']
  }

  predicate IsAscii(s: seq<char>) {
    forall c | c in s :: c < 128 as char
  }

  /** None stands for the ValueError of the library. */
  function Decode(s: seq<char>): Option<seq<Byte>> {
    if !IsAscii(s) then None else Scan(s + Padding(|s|), 0, 0, 0, [])
  }

  /** The bits of a started group that have not become a byte yet. */
  predicate LeftoverFits(quad: nat, left: nat) {
    match quad
    case 0 => left == 0
    case 1 => left < 64
    case 2 => left < 16
    case 3 => left < 4
    case _ => false
  }

  function Scan(s: seq<char>, quad: nat, left: nat, pads: nat, out: seq<Byte>): Option<seq<Byte>>
    requires LeftoverFits(quad, left)
  {
    if s == [] then (if quad == 0 then Some(out) else None)
    else if s[0] == '=' then
      if quad >= 2 && quad + pads + 1 >= 4 then Some(out)
      else Scan(s[1..], quad, left, if quad >= 2 then pads + 1 else pads, out)
    else if Value(s[0]).None? then Scan(s[1..], quad, left, pads, out)
    else
      var v := Value(s[0]).value;
      match quad
      case 0 => Scan(s[1..], 1, v, 0, out)
      case 1 => Scan(s[1..], 2, v % 16, 0, out + [left * 4 + v / 16])
      case 2 => Scan(s[1..], 3, v % 4, 0, out + [left * 16 + v / 4])
      case _ => Scan(s[1..], 0, 0, 0, out + [left * 64 + v])
  }

  // ---------------------------------------------------------------- round trip

  /** The encoding without padding, by groups of three bytes. */
  function Bare(raw: seq<Byte>): seq<char> {
    if raw == [] then []
    else if |raw| == 1 then Quad(raw[0], 0, 0)[..2]
    else if |raw| == 2 then Quad(raw[0], raw[1], 0)[..3]
    else Quad(raw[0], raw[1], raw[2]) + Bare(raw[3..])
  }

  predicate CleanChar(c: char) {
    Value(c).Some? && c != '+' && c != '/' && c != '=' && c != '.' && c < 128 as char
  }

  lemma QuadIsClean(a: Byte, b: Byte, c: Byte)
    ensures forall i | 0 <= i < 4 :: CleanChar(Quad(a, b, c)[i])
  {
    LetterHasValue(a / 4);
    LetterHasValue(a % 4 * 16 + b / 16);
    LetterHasValue(b % 16 * 4 + c / 64);
    LetterHasValue(c % 64);
  }

  lemma {:induction false} BareIsClean(raw: seq<Byte>)
    ensures forall i | 0 <= i < |Bare(raw)| :: CleanChar(Bare(raw)[i])
    ensures |raw| == 0 <==> Bare(raw) == []
  {
    if |raw| == 1 {
      QuadIsClean(raw[0], 0, 0);
    } else if |raw| == 2 {
      QuadIsClean(raw[0], raw[1], 0);
    } else if |raw| >= 3 {
      QuadIsClean(raw[0], raw[1], raw[2]);
      BareIsClean(raw[3..]);
    }
  }

  lemma Regroup(q: seq<char>, tail: seq<char>)
    requires |q| == 4
    ensures (q + tail) + Padding(|q + tail|) == q + (tail + Padding(|tail|))
  {
  }

  lemma BareMore(raw: seq<Byte>)
    requires |raw| >= 3
    ensures Bare(raw) == Quad(raw[0], raw[1], raw[2]) + Bare(raw[3..])
  {
  }

  lemma {:induction false} PaddedIsBare(raw: seq<Byte>)
    ensures PaddedEncode(raw) == Bare(raw) + Padding(|Bare(raw)|)
  {
    if |raw| >= 3 {
      PaddedIsBare(raw[3..]);
      BareMore(raw);
      Regroup(Quad(raw[0], raw[1], raw[2]), Bare(raw[3..]));
    }
  }

  lemma {:induction false} StripUndoesPadding(s: seq<char>, pad: seq<char>)
    requires forall i | 0 <= i < |s| :: s[i] != '='
    requires forall i | 0 <= i < |pad| :: pad[i] == '='
    ensures StripPadding(s + pad) == s
  {
    if pad == [] {
      assert s + pad == s;
    } else {
      var all := s + pad;
      assert all[|all| - 1] == pad[|pad| - 1];
      assert all[..|all| - 1] == s + pad[..|pad| - 1];
      StripUndoesPadding(s, pad[..|pad| - 1]);
    }
  }

  lemma EncodeIsBare(raw: seq<Byte>)
    ensures Encode(raw) == Bare(raw)
  {
    BareIsClean(raw);
    PaddedIsBare(raw);
    StripUndoesPadding(Bare(raw), Padding(|Bare(raw)|));
  }

  /** An encoded text consists of letters, digits, '-' and '_'; neither '+' nor '/' occurs. */
  lemma EncodedIsUrlSafe(raw: seq<Byte>)
    ensures forall c | c in Encode(raw) ::
              'A' <= c <= 'Z' || 'a' <= c <= 'z' || '0' <= c <= '9' || c == '-' || c == '_'
  {
    EncodeIsBare(raw);
    BareIsClean(raw);
  }

  /** It holds neither padding nor a dot. */
  lemma EncodedIsClean(raw: seq<Byte>)
    ensures IsAscii(Encode(raw)) && '=' !in Encode(raw) && '.' !in Encode(raw)
    ensures Encode(raw) == [] <==> raw == []
  {
    EncodeIsBare(raw);
    BareIsClean(raw);
  }

  lemma ScanQuad(a: Byte, b: Byte, c: Byte, rest: seq<char>, out: seq<Byte>)
    ensures Scan(Quad(a, b, c) + rest, 0, 0, 0, out) == Scan(rest, 0, 0, 0, out + [a, b, c])
  {
    var q := Quad(a, b, c);
    LetterHasValue(a / 4);
    LetterHasValue(a % 4 * 16 + b / 16);
    LetterHasValue(b % 16 * 4 + c / 64);
    LetterHasValue(c % 64);
    assert (q + rest)[1..] == q[1..] + rest;
    assert (q[1..] + rest)[1..] == q[2..] + rest;
    assert (q[2..] + rest)[1..] == q[3..] + rest;
    assert (q[3..] + rest)[1..] == rest;
    ScanFrom1(q[1..] + rest, a, b, c, rest, out);
  }

  lemma ScanFrom1(s: seq<char>, a: Byte, b: Byte, c: Byte, rest: seq<char>, out: seq<Byte>)
    requires s == Quad(a, b, c)[1..] + rest
    ensures Scan(s, 1, a / 4, 0, out) == Scan(rest, 0, 0, 0, out + [a, b, c])
  {
    LetterHasValue(a % 4 * 16 + b / 16);
    assert s[1..] == Quad(a, b, c)[2..] + rest;
    ScanFrom2(s[1..], b, c, a, rest, out + [a]);
    assert out + [a] + [b] + [c] == out + [a, b, c];
  }

  lemma ScanFrom2(s: seq<char>, b: Byte, c: Byte, a: Byte, rest: seq<char>, out: seq<Byte>)
    requires s == Quad(a, b, c)[2..] + rest
    ensures Scan(s, 2, b / 16, 0, out) == Scan(rest, 0, 0, 0, out + [b] + [c])
  {
    LetterHasValue(b % 16 * 4 + c / 64);
    assert s[1..] == [Letter(c % 64)] + rest;
    ScanFrom3(s[1..], c, rest, out + [b]);
  }

  lemma ScanFrom3(s: seq<char>, c: Byte, rest: seq<char>, out: seq<Byte>)
    requires s == [Letter(c % 64)] + rest
    ensures Scan(s, 3, c / 64, 0, out) == Scan(rest, 0, 0, 0, out + [c])
  {
    LetterHasValue(c % 64);
    assert s[1..] == rest;
  }

  lemma ScanOneByte(a: Byte, out: seq<Byte>)
    ensures Scan(Quad(a, 0, 0)[..2] + ['=', '='], 0, 0, 0, out) == Some(out + [a])
  {
    var s := Quad(a, 0, 0)[..2] + ['=', '='];
    LetterHasValue(a / 4);
    LetterHasValue(a % 4 * 16);
    assert s[1..] == [Letter(a % 4 * 16), '=', '='];
    assert s[1..][1..] == ['=', '='];
    assert Scan(['=', '='], 2, 0, 0, out + [a]) == Scan(['='], 2, 0, 1, out + [a]) by {
      assert ['=', '='][1..] == ['='];
    }
    assert Scan(s[1..], 1, a / 4, 0, out) == Scan(['=', '='], 2, 0, 0, out + [a]);
  }

  lemma ScanTwoBytes(a: Byte, b: Byte, out: seq<Byte>)
    ensures Scan(Quad(a, b, 0)[..3] + ['='], 0, 0, 0, out) == Some(out + [a, b])
  {
    var s := Quad(a, b, 0)[..3] + ['='];
    LetterHasValue(a / 4);
    ScanSecondOfTwo(s[1..], a, b, out);
  }

  lemma ScanSecondOfTwo(s: seq<char>, a: Byte, b: Byte, out: seq<Byte>)
    requires s == [Letter(a % 4 * 16 + b / 16), Letter(b % 16 * 4), '=']
    ensures Scan(s, 1, a / 4, 0, out) == Some(out + [a, b])
  {
    LetterHasValue(a % 4 * 16 + b / 16);
    ScanLastOfTwo(s[1..], b, out + [a]);
    assert out + [a] + [b] == out + [a, b];
  }

  lemma ScanLastOfTwo(s: seq<char>, b: Byte, out: seq<Byte>)
    requires s == [Letter(b % 16 * 4), '=']
    ensures Scan(s, 2, b / 16, 0, out) == Some(out + [b])
  {
    LetterHasValue(b % 16 * 4);
    assert s[1..] == ['='];
  }

  lemma {:induction false} ScanBare(raw: seq<Byte>, out: seq<Byte>)
    ensures Scan(Bare(raw) + Padding(|Bare(raw)|), 0, 0, 0, out) == Some(out + raw)
  {
    if raw == [] {
      assert out + raw == out;
    } else if |raw| == 1 {
      ScanOneByte(raw[0], out);
      assert raw == [raw[0]];
    } else if |raw| == 2 {
      ScanTwoBytes(raw[0], raw[1], out);
      assert raw == [raw[0], raw[1]];
    } else {
      ScanBare(raw[3..], out + [raw[0], raw[1], raw[2]]);
      ScanMore(raw, raw[3..], out);
    }
  }

  lemma ScanMore(raw: seq<Byte>, tail: seq<Byte>, out: seq<Byte>)
    requires |raw| >= 3 && tail == raw[3..]
    requires var head := [raw[0], raw[1], raw[2]];
             Scan(Bare(tail) + Padding(|Bare(tail)|), 0, 0, 0, out + head) == Some(out + head + tail)
    ensures Scan(Bare(raw) + Padding(|Bare(raw)|), 0, 0, 0, out) == Some(out + raw)
  {
    var q := Quad(raw[0], raw[1], raw[2]);
    ScanQuad(raw[0], raw[1], raw[2], Bare(tail) + Padding(|Bare(tail)|), out);
    Regroup(q, Bare(tail));
    assert Bare(raw) == q + Bare(tail);
    assert out + [raw[0], raw[1], raw[2]] + tail == out + raw;
  }

  // ---------------------------------------------------------------- the code of RFC 4648

  /** Table 2 of section 5 of RFC 4648: the letters, the digits, '-' and '_', in this order. */
  lemma AlphabetOrder(v: Sextet)
    ensures Letter(0) == 'A' && Letter(26) == 'a' && Letter(52) == '0' && Letter(62) == '-' && Letter(63) == '_'
    ensures v !in {0, 26, 52, 62, 63} ==> Letter(v) as int == Letter(v - 1) as int + 1
  {
  }

  /** The number that these bytes write after the digits of `high`. */
  function BytesNumber(high: nat, raw: seq<Byte>): nat
    decreases raw
  {
    if raw == [] then high else BytesNumber(high * 256 + raw[0], raw[1..])
  }

  /** The number that these letters write; each stands for its place in the alphabet. */
  function LettersNumber(high: nat, s: seq<char>): nat
    decreases s
  {
    if s == [] then high else LettersNumber(high * 64 + (if Value(s[0]).Some? then Value(s[0]).value else 0), s[1..])
  }

  lemma OneLetter(high: nat, v: Sextet, rest: seq<char>)
    ensures LettersNumber(high, [Letter(v)] + rest) == LettersNumber(high * 64 + v, rest)
  {
    LetterHasValue(v);
    assert ([Letter(v)] + rest)[1..] == rest;
  }

  lemma ThreeBytesFourLetters(high: nat, a: Byte, b: Byte, c: Byte)
    ensures (((high * 64 + a / 4) * 64 + (a % 4 * 16 + b / 16)) * 64 + (b % 16 * 4 + c / 64)) * 64 + c % 64
         == ((high * 256 + a) * 256 + b) * 256 + c
  {
  }

  lemma QuadNumber(high: nat, a: Byte, b: Byte, c: Byte, rest: seq<char>)
    ensures LettersNumber(high, Quad(a, b, c) + rest)
         == LettersNumber(((high * 256 + a) * 256 + b) * 256 + c, rest)
  {
    var v0, v1, v2, v3 := a / 4, a % 4 * 16 + b / 16, b % 16 * 4 + c / 64, c % 64;
    var after3 := [Letter(v3)] + rest;
    var after2 := [Letter(v2)] + after3;
    var after1 := [Letter(v1)] + after2;
    OneLetter(high, v0, after1);
    OneLetter(high * 64 + v0, v1, after2);
    OneLetter((high * 64 + v0) * 64 + v1, v2, after3);
    OneLetter(((high * 64 + v0) * 64 + v1) * 64 + v2, v3, rest);
    ThreeBytesFourLetters(high, a, b, c);
    assert Quad(a, b, c) + rest == [Letter(v0)] + after1;
  }

  lemma LettersOfOne(high: nat, a: Byte)
    ensures LettersNumber(high, Quad(a, 0, 0)[..2]) == (high * 256 + a) * 16
  {
    var v0, v1 := a / 4, a % 4 * 16;
    OneLetter(high, v0, [Letter(v1)]);
    OneLetter(high * 64 + v0, v1, []);
    assert Quad(a, 0, 0)[..2] == [Letter(v0)] + [Letter(v1)] && [Letter(v1)] == [Letter(v1)] + [];
  }

  lemma LettersOfTwo(high: nat, a: Byte, b: Byte)
    ensures LettersNumber(high, Quad(a, b, 0)[..3]) == ((high * 256 + a) * 256 + b) * 4
  {
    var v0, v1, v2 := a / 4, a % 4 * 16 + b / 16, b % 16 * 4;
    OneLetter(high, v0, [Letter(v1), Letter(v2)]);
    OneLetter(high * 64 + v0, v1, [Letter(v2)]);
    OneLetter((high * 64 + v0) * 64 + v1, v2, []);
    assert Quad(a, b, 0)[..3] == [Letter(v0)] + [Letter(v1), Letter(v2)];
    assert [Letter(v1), Letter(v2)] == [Letter(v1)] + [Letter(v2)] && [Letter(v2)] == [Letter(v2)] + [];
  }

  lemma OneByte(high: nat, a: Byte, rest: seq<Byte>)
    ensures BytesNumber(high, [a] + rest) == BytesNumber(high * 256 + a, rest)
  {
    assert ([a] + rest)[1..] == rest;
  }

  lemma BytesOfThree(high: nat, a: Byte, b: Byte, c: Byte, rest: seq<Byte>)
    ensures BytesNumber(high, [a, b, c] + rest) == BytesNumber(((high * 256 + a) * 256 + b) * 256 + c, rest)
  {
    OneByte(high, a, [b, c] + rest);
    OneByte(high * 256 + a, b, [c] + rest);
    OneByte((high * 256 + a) * 256 + b, c, rest);
    assert [a, b, c] + rest == [a] + ([b, c] + rest) && [b, c] + rest == [b] + ([c] + rest);
  }

  lemma BytesOfTwo(high: nat, a: Byte, b: Byte)
    ensures BytesNumber(high, [a, b]) == (high * 256 + a) * 256 + b
  {
    OneByte(high, a, [b]);
    OneByte(high * 256 + a, b, []);
    assert [a, b] == [a] + [b] && [b] == [b] + [];
  }

  /** The zero bits that fill up the last letter, as a factor. */
  function Filler(bytes: nat): nat {
    match bytes % 3
    case 0 => 1
    case 1 => 16
    case _ => 4
  }

  ghost predicate Writes(high: nat, raw: seq<Byte>) {
    LettersNumber(high, Bare(raw)) == BytesNumber(high, raw) * Filler(|raw|)
  }

  lemma WritesMore(high: nat, raw: seq<Byte>)
    requires |raw| >= 3 && Writes(((high * 256 + raw[0]) * 256 + raw[1]) * 256 + raw[2], raw[3..])
    ensures Writes(high, raw)
  {
    QuadNumber(high, raw[0], raw[1], raw[2], Bare(raw[3..]));
    BytesOfThree(high, raw[0], raw[1], raw[2], raw[3..]);
    assert raw == [raw[0], raw[1], raw[2]] + raw[3..];
    BareMore(raw);
    FillerRepeats(|raw[3..]|);
  }

  lemma FillerRepeats(n: nat)
    ensures Filler(n + 3) == Filler(n)
  {
  }

  lemma WritesShort(high: nat, raw: seq<Byte>)
    requires |raw| <= 2
    ensures Writes(high, raw)
  {
    if |raw| == 1 {
      LettersOfOne(high, raw[0]);
      OneByte(high, raw[0], []);
      assert raw == [raw[0]] + [];
    } else if |raw| == 2 {
      LettersOfTwo(high, raw[0], raw[1]);
      BytesOfTwo(high, raw[0], raw[1]);
      assert raw == [raw[0], raw[1]];
    }
  }

  lemma {:induction false} BareNumber(high: nat, raw: seq<Byte>)
    ensures Writes(high, raw)
    decreases raw
  {
    if |raw| <= 2 {
      WritesShort(high, raw);
    } else {
      BareNumber(((high * 256 + raw[0]) * 256 + raw[1]) * 256 + raw[2], raw[3..]);
      WritesMore(high, raw);
    }
  }

  lemma {:induction false} BareLength(raw: seq<Byte>)
    ensures |Bare(raw)| == (8 * |raw| + 5) / 6
  {
    if |raw| >= 3 {
      BareLength(raw[3..]);
    }
  }

  /** An encoded text is the same number as the bytes, in another base and filled up with zero bits to a whole
      letter, and its length is the least that holds them. */
  lemma SameNumber(raw: seq<Byte>)
    ensures LettersNumber(0, Encode(raw))
         == BytesNumber(0, raw) * (if |raw| % 3 == 0 then 1 else if |raw| % 3 == 1 then 16 else 4)
    ensures |Encode(raw)| == (8 * |raw| + 5) / 6
  {
    EncodeIsBare(raw);
    BareNumber(0, raw);
    BareLength(raw);
  }

  /** Decoding an encoded byte string gives it back. */
  lemma RoundTrip(raw: seq<Byte>)
    ensures Decode(Encode(raw)) == Some(raw)
  {
    EncodedIsClean(raw);
    EncodeIsBare(raw);
    ScanBare(raw, []);
    assert [] + raw == raw;
  }

  /** Different byte strings have different encodings. */
  lemma EncodeInjective(a: seq<Byte>, b: seq<Byte>)
    requires Encode(a) == Encode(b)
    ensures a == b
  {
    RoundTrip(a);
    RoundTrip(b);
  }
}
