/** The opaque pagination token: lower-case hex of the parts joined by U+001F. */
module CursorCodec {
  import opened Common
  import opened Decimal
  import S = Separated

  const SEPARATOR: byte := 0x1F

  // ------------------------------------------------------------------ hexadecimal

  function HexDigit(n: int): byte
    requires 0 <= n < 16
  {
    if n < 10 then ZERO + n else 87 + n
  }

  /** `to_digit(16)`: either case is accepted. */
  function DigitValue(c: byte): (v: Option<int>)
    ensures v.Some? ==> 0 <= v.value < 16
  {
    if IsDigit(c) then Some(c - ZERO)
    else if 97 <= c <= 102 then Some(c - 87)
    else if 65 <= c <= 70 then Some(c - 55)
    else None
  }

  function HexPair(b: byte): (t: Text)
    ensures |t| == 2
  {
    [HexDigit(b / 16), HexDigit(b % 16)]
  }

  function PairValue(c: byte, d: byte): Option<byte> {
    match (DigitValue(c), DigitValue(d))
    case (Some(hi), Some(lo)) => Some(16 * hi + lo)
    case _ => None
  }

  lemma PairOfByte(b: byte)
    ensures PairValue(HexPair(b)[0], HexPair(b)[1]) == Some(b)
  {
  }

  lemma ByteOfPair(c: byte, d: byte)
    requires PairValue(c, d).Some?
    ensures HexPair(PairValue(c, d).value) == [LowerCase(c), LowerCase(d)]
  {
  }

  function LowerCase(c: byte): byte {
    if 65 <= c <= 90 then c + 32 else c
  }

  function Lower(s: Text): (r: Text)
    ensures |r| == |s|
  {
    seq(|s|, i requires 0 <= i < |s| => LowerCase(s[i]))
  }

  function HexEncode(bytes: seq<byte>): (t: Text)
    ensures |t| == 2 * |bytes|
  {
    if bytes == [] then [] else HexEncode(bytes[..|bytes| - 1]) + HexPair(bytes[|bytes| - 1])
  }

  function HexDecode(token: Text): Option<seq<byte>> {
    if token == [] then Some([])
    else if |token| == 1 then None
    else
      var n := |token| - 2;
      match (HexDecode(token[..n]), PairValue(token[n], token[n + 1]))
      case (Some(front), Some(b)) => Some(front + [b])
      case _ => None
  }

  /** A hexadecimal digit of either case. */
  predicate IsHex(c: byte) {
    48 <= c <= 57 || 97 <= c <= 102 || 65 <= c <= 70
  }

  /** What is accepted as hex: an even number of digits, of either case. */
  lemma {:induction false} HexDecodeIff(token: Text)
    ensures HexDecode(token).Some? <==> |token| % 2 == 0 && forall c <- token :: IsHex(c)
  {
    if |token| > 1 {
      var n := |token| - 2;
      HexDecodeIff(token[..n]);
      forall c ensures c in token <==> c in token[..n] || c == token[n] || c == token[n + 1] {
        assert token == token[..n] + [token[n], token[n + 1]];
      }
      assert PairValue(token[n], token[n + 1]).Some? <==> IsHex(token[n]) && IsHex(token[n + 1]);
      hide PairValue, IsHex;
    } else if |token| == 1 {
      assert token[0] in token;
    }
  }

  lemma {:induction false} DecodeEncode(bytes: seq<byte>)
    ensures HexDecode(HexEncode(bytes)) == Some(bytes)
  {
    if bytes != [] {
      var m := |bytes| - 1;
      DecodeEncode(bytes[..m]);
      PairOfByte(bytes[m]);
      hide HexPair, PairValue;
      var token := HexEncode(bytes);
      assert token[..2 * m] == HexEncode(bytes[..m]);
      assert token[2 * m] == HexPair(bytes[m])[0] && token[2 * m + 1] == HexPair(bytes[m])[1];
      assert bytes == bytes[..m] + [bytes[m]];
    }
  }

  lemma {:induction false} EncodeDecode(token: Text)
    requires HexDecode(token).Some?
    ensures HexEncode(HexDecode(token).value) == Lower(token)
  {
    if token != [] {
      hide HexPair, PairValue, LowerCase;
      var n := |token| - 2;
      EncodeDecode(token[..n]);
      ByteOfPair(token[n], token[n + 1]);
      var bytes := HexDecode(token).value;
      assert bytes[..|bytes| - 1] == HexDecode(token[..n]).value;
      assert Lower(token) == Lower(token[..n]) + [LowerCase(token[n]), LowerCase(token[n + 1])];
    }
  }

  /** The encoder's loop. */
  method EncodeBytes(bytes: seq<byte>) returns (s: Text)
    ensures s == HexEncode(bytes)
  {
    s := [];
    for i := 0 to |bytes|
      invariant s == HexEncode(bytes[..i])
    {
      assert bytes[..i + 1][..i] == bytes[..i];
      s := s + [HexDigit(bytes[i] / 16)];
      s := s + [HexDigit(bytes[i] % 16)];
      assert s == HexEncode(bytes[..i]) + HexPair(bytes[i]);
    }
    assert bytes[..|bytes|] == bytes;
  }

  // ------------------------------------------------------------------ UTF-8

  predicate IsTail(b: byte) {
    0x80 <= b <= 0xBF
  }

  /** Length of the well-formed character at the start of `s`, 0 if there is none. */
  function CharLength(s: seq<byte>): (n: nat)
    ensures n <= |s|
  {
    if s == [] then 0
    else if s[0] <= 0x7F then 1
    else if |s| >= 2 && 0xC2 <= s[0] <= 0xDF && IsTail(s[1]) then 2
    else if |s| >= 3 && IsTail(s[1]) && IsTail(s[2])
         && (if s[0] == 0xE0 then s[1] >= 0xA0 else if s[0] == 0xED then s[1] <= 0x9F else 0xE1 <= s[0] <= 0xEF) then 3
    else if |s| >= 4 && IsTail(s[1]) && IsTail(s[2]) && IsTail(s[3])
         && (if s[0] == 0xF0 then s[1] >= 0x90 else if s[0] == 0xF4 then s[1] <= 0x8F else 0xF1 <= s[0] <= 0xF3) then 4
    else 0
  }

  /** `String::from_utf8` succeeds. */
  predicate ValidUtf8(s: seq<byte>)
    decreases |s|
  {
    s == [] || (CharLength(s) > 0 && ValidUtf8(s[CharLength(s)..]))
  }

  /** A Unicode scalar value: a code point that is no surrogate. */
  predicate IsScalar(c: int) {
    0 <= c < 0xD800 || 0xE000 <= c <= 0x10FFFF
  }

  /** The bytes of one scalar value, six bits in each but the first. */
  function Utf8(c: int): (s: seq<byte>)
    requires IsScalar(c)
    ensures 0 < |s| <= 4
  {
    if c < 0x80 then [c]
    else if c < 0x800 then [0xC0 + c / 0x40, 0x80 + c % 0x40]
    else if c < 0x1_0000 then [0xE0 + c / 0x1000, 0x80 + c / 0x40 % 0x40, 0x80 + c % 0x40]
    else [0xF0 + c / 0x4_0000, 0x80 + c / 0x1000 % 0x40, 0x80 + c / 0x40 % 0x40, 0x80 + c % 0x40]
  }

  function Utf8Text(cs: seq<int>): seq<byte>
    requires forall c <- cs :: IsScalar(c)
  {
    if cs == [] then [] else Utf8(cs[0]) + Utf8Text(cs[1..])
  }

  lemma ScalarIsChar(c: int, rest: seq<byte>)
    requires IsScalar(c)
    ensures CharLength(Utf8(c) + rest) == |Utf8(c)|
  {
    var s := Utf8(c);
    assert forall i :: 0 <= i < |s| ==> (s + rest)[i] == s[i];
  }

  lemma TwoBytes(a: int, b: int)
    requires 0xC2 <= a <= 0xDF && 0x80 <= b <= 0xBF
    ensures var c := 0x40 * (a - 0xC0) + (b - 0x80); IsScalar(c) && Utf8(c) == [a, b]
  {
  }

  lemma ThreeBytes(a: int, b: int, c: int)
    requires (a == 0xE0 && 0xA0 <= b <= 0xBF) || (a == 0xED && 0x80 <= b <= 0x9F)
             || (0xE1 <= a <= 0xEF && a != 0xED && 0x80 <= b <= 0xBF)
    requires 0x80 <= c <= 0xBF
    ensures var x := 0x1000 * (a - 0xE0) + 0x40 * (b - 0x80) + (c - 0x80); IsScalar(x) && Utf8(x) == [a, b, c]
  {
    var x := 0x1000 * (a - 0xE0) + 0x40 * (b - 0x80) + (c - 0x80);
    assert x / 0x40 == 0x40 * (a - 0xE0) + (b - 0x80) && x % 0x40 == c - 0x80;
    assert x / 0x1000 == a - 0xE0;
  }

  lemma FourBytes(a: int, b: int, c: int, d: int)
    requires (a == 0xF0 && 0x90 <= b <= 0xBF) || (a == 0xF4 && 0x80 <= b <= 0x8F)
             || (0xF1 <= a <= 0xF3 && 0x80 <= b <= 0xBF)
    requires 0x80 <= c <= 0xBF && 0x80 <= d <= 0xBF
    ensures var x := 0x4_0000 * (a - 0xF0) + 0x1000 * (b - 0x80) + 0x40 * (c - 0x80) + (d - 0x80);
            IsScalar(x) && Utf8(x) == [a, b, c, d]
  {
    var x := 0x4_0000 * (a - 0xF0) + 0x1000 * (b - 0x80) + 0x40 * (c - 0x80) + (d - 0x80);
    assert x / 0x40 == 0x1000 * (a - 0xF0) + 0x40 * (b - 0x80) + (c - 0x80) && x % 0x40 == d - 0x80;
    assert x / 0x1000 == 0x40 * (a - 0xF0) + (b - 0x80) && x / 0x4_0000 == a - 0xF0;
  }

  lemma CharIsScalar(s: seq<byte>) returns (c: int)
    requires CharLength(s) > 0
    ensures IsScalar(c) && s[..CharLength(s)] == Utf8(c)
  {
    hide Utf8, IsScalar;
    var n := CharLength(s);
    if n == 1 {
      c := s[0];
      OneByte(c);
    } else if n == 2 {
      c := 0x40 * (s[0] as int - 0xC0) + (s[1] as int - 0x80);
      TwoBytes(s[0], s[1]);
    } else if n == 3 {
      c := 0x1000 * (s[0] as int - 0xE0) + 0x40 * (s[1] as int - 0x80) + (s[2] as int - 0x80);
      ThreeBytes(s[0], s[1], s[2]);
    } else {
      c := 0x4_0000 * (s[0] as int - 0xF0) + 0x1000 * (s[1] as int - 0x80) + 0x40 * (s[2] as int - 0x80)
           + (s[3] as int - 0x80);
      FourBytes(s[0], s[1], s[2], s[3]);
    }
  }

  lemma OneByte(c: int)
    requires 0 <= c <= 0x7F
    ensures IsScalar(c) && Utf8(c) == [c]
  {
  }

  /** The accepted byte strings are exactly the encodings of sequences of scalar values. */
  lemma {:induction false} ValidUtf8Iff(s: seq<byte>)
    ensures ValidUtf8(s) <==> exists cs: seq<int> :: (forall c <- cs :: IsScalar(c)) && s == Utf8Text(cs)
    decreases |s|
  {
    hide CharLength, Utf8;
    if ValidUtf8(s) {
      if s == [] {
        assert s == Utf8Text([]);
      } else {
        var n := CharLength(s);
        ValidUtf8Iff(s[n..]);
        var c := CharIsScalar(s);
        var cs: seq<int> :| (forall x <- cs :: IsScalar(x)) && s[n..] == Utf8Text(cs);
        assert ([c] + cs)[1..] == cs && s == s[..n] + s[n..];
        assert s == Utf8Text([c] + cs);
      }
    }
    if cs: seq<int> :| (forall c <- cs :: IsScalar(c)) && s == Utf8Text(cs) {
      ScalarsAreValid(cs);
    }
  }

  lemma {:induction false} ScalarsAreValid(cs: seq<int>)
    requires forall c <- cs :: IsScalar(c)
    ensures ValidUtf8(Utf8Text(cs))
  {
    hide CharLength, Utf8;
    if cs != [] {
      ScalarIsChar(cs[0], Utf8Text(cs[1..]));
      ScalarsAreValid(cs[1..]);
      var s := Utf8Text(cs);
      assert s[|Utf8(cs[0])|..] == Utf8Text(cs[1..]);
    }
  }

  lemma CharOfConcat(a: seq<byte>, b: seq<byte>)
    requires CharLength(a) > 0
    ensures CharLength(a + b) == CharLength(a)
  {
    assert forall i :: 0 <= i < |a| ==> (a + b)[i] == a[i];
  }

  lemma {:induction false} ValidConcat(a: seq<byte>, b: seq<byte>)
    requires ValidUtf8(a) && ValidUtf8(b)
    ensures ValidUtf8(a + b)
    decreases |a|
  {
    hide CharLength;
    if a == [] {
      assert a + b == b;
    } else {
      var n := CharLength(a);
      CharOfConcat(a, b);
      assert (a + b)[n..] == a[n..] + b;
      ValidConcat(a[n..], b);
    }
  }

  /** A separator byte is never inside a character, so cutting there keeps both halves well-formed. */
  lemma {:induction false} ValidCut(a: seq<byte>, b: seq<byte>)
    requires ValidUtf8(a + [SEPARATOR] + b)
    ensures ValidUtf8(a) && ValidUtf8(b)
    decreases |a|
  {
    var s := a + [SEPARATOR] + b;
    var n := CharLength(s);
    if a == [] {
      assert n == 1 && s[1..] == b;
    } else {
      CharStopsAtSeparator(a, b);
      assert s[n..] == a[n..] + [SEPARATOR] + b;
      ValidCut(a[n..], b);
    }
  }

  lemma CharStopsAtSeparator(a: seq<byte>, b: seq<byte>)
    requires a != [] && CharLength(a + [SEPARATOR] + b) > 0
    ensures CharLength(a) == CharLength(a + [SEPARATOR] + b)
  {
    var s := a + [SEPARATOR] + b;
    assert s[|a|] == SEPARATOR && forall i :: 0 <= i < |a| ==> s[i] == a[i];
  }

  lemma {:induction false} ValidJoin(parts: seq<Text>)
    ensures (forall p <- parts :: ValidUtf8(p)) ==> ValidUtf8(S.Join(SEPARATOR, parts))
  {
    if |parts| > 1 && forall p <- parts :: ValidUtf8(p) {
      var n := |parts| - 1;
      ValidJoin(parts[..n]);
      assert parts[n] in parts;
      ValidConcat(S.Join(SEPARATOR, parts[..n]), [SEPARATOR]);
      ValidConcat(S.Join(SEPARATOR, parts[..n]) + [SEPARATOR], parts[n]);
    }
  }

  lemma {:induction false} ValidParts(parts: seq<Text>)
    requires ValidUtf8(S.Join(SEPARATOR, parts))
    ensures forall p <- parts :: ValidUtf8(p)
  {
    if |parts| > 1 {
      var n := |parts| - 1;
      ValidCut(S.Join(SEPARATOR, parts[..n]), parts[n]);
      ValidParts(parts[..n]);
    }
  }

  // ------------------------------------------------------------------ the token

  function EncodeCursor(parts: seq<Text>): Text {
    HexEncode(S.Join(SEPARATOR, parts))
  }

  /** A token holds its parts with U+001F between them. */
  lemma TokenBytes(a: Text, b: Text)
    ensures HexDecode(EncodeCursor([a])) == Some(a)
    ensures HexDecode(EncodeCursor([a, b])) == Some(a + [0x1F] + b)
  {
    DecodeEncode(a);
    DecodeEncode(a + [0x1F] + b);
    assert [a, b][..1] == [a];
  }

  function DecodeCursor(token: Text): Option<seq<Text>> {
    match HexDecode(token)
    case None => None
    case Some(bytes) => if ValidUtf8(bytes) then Some(S.Split(SEPARATOR, bytes)) else None
  }

  /** The decoder's loop: two digits a step, stopping at the first that is not one. */
  method DecodeToken(token: Text) returns (r: Option<seq<Text>>)
    ensures r == DecodeCursor(token)
  {
    if |token| % 2 != 0 {
      OddIsMalformed(token);
      return None;
    }
    var bytes: seq<byte> := [];
    var i := 0;
    while i < |token|
      invariant 0 <= i <= |token| && i % 2 == 0
      invariant HexDecode(token[..i]) == Some(bytes)
    {
      assert token[..i + 2][..i] == token[..i];
      var hi, lo := DigitValue(token[i]), DigitValue(token[i + 1]);
      if hi.None? || lo.None? {
        BadPrefixIsMalformed(token, i + 2);
        return None;
      }
      bytes := bytes + [16 * hi.value + lo.value];
      i := i + 2;
    }
    assert token[..i] == token;
    r := if ValidUtf8(bytes) then Some(S.Split(SEPARATOR, bytes)) else None;
  }

  lemma {:induction false} OddIsMalformed(token: Text)
    requires |token| % 2 != 0
    ensures HexDecode(token).None?
  {
    if |token| > 1 { OddIsMalformed(token[..|token| - 2]); }
  }

  lemma {:induction false} BadPrefixIsMalformed(token: Text, i: nat)
    requires i <= |token| && i % 2 == |token| % 2 && HexDecode(token[..i]).None?
    ensures HexDecode(token).None?
  {
    if i == |token| {
      assert token[..i] == token;
    } else {
      var n := |token| - 2;
      assert token[..n][..i] == token[..i];
      BadPrefixIsMalformed(token[..n], i);
    }
  }

  /** A token round-trips exactly when there is something to encode and no part holds the separator. */
  lemma CursorRoundTrip(parts: seq<Text>)
    requires forall p <- parts :: ValidUtf8(p)
    ensures DecodeCursor(EncodeCursor(parts)) == Some(parts) <==> parts != [] && forall p <- parts :: SEPARATOR !in p
  {
    DecodeEncode(S.Join(SEPARATOR, parts));
    ValidJoin(parts);
    S.PartsAreFree(SEPARATOR, S.Join(SEPARATOR, parts));
    if parts != [] && forall p <- parts :: SEPARATOR !in p { S.SplitJoin(SEPARATOR, parts); }
  }

  /** Every accepted token decodes to well-formed strings and re-encodes to its lower-case form. */
  lemma AcceptedTokens(token: Text)
    requires DecodeCursor(token).Some?
    ensures EncodeCursor(DecodeCursor(token).value) == Lower(token)
    ensures forall p <- DecodeCursor(token).value :: ValidUtf8(p) && SEPARATOR !in p
  {
    EncodeDecode(token);
    var bytes := HexDecode(token).value;
    S.JoinSplit(SEPARATOR, bytes);
    S.PartsAreFree(SEPARATOR, bytes);
    ValidParts(S.Split(SEPARATOR, bytes));
  }

  // ------------------------------------------------------------------ typed cursors

  function ParseI64(s: Text): Option<int> {
    Parse(s, I64_MIN, I64_MAX)
  }

  function DecodeCursorII(token: Text): Option<(int, int)> {
    match DecodeCursor(token)
    case None => None
    case Some(parts) =>
      if |parts| != 2 then None
      else
        match (ParseI64(parts[0]), ParseI64(parts[1]))
        case (Some(a), Some(b)) => Some((a, b))
        case _ => None
  }

  function DecodeCursorIS(token: Text): Option<(int, Text)> {
    match DecodeCursor(token)
    case None => None
    case Some(parts) =>
      if |parts| != 2 then None
      else
        match ParseI64(parts[0])
        case Some(a) => Some((a, parts[1]))
        case None => None
  }

  function DecodeCursorISI(token: Text): Option<(int, Text, int)> {
    match DecodeCursor(token)
    case None => None
    case Some(parts) =>
      if |parts| != 3 then None
      else
        match (ParseI64(parts[0]), ParseI64(parts[2]))
        case (Some(a), Some(c)) => Some((a, parts[1], c))
        case _ => None
  }

  lemma {:induction false} AsciiIsValid(s: Text)
    requires forall b <- s :: b <= 0x7F
    ensures ValidUtf8(s)
    decreases |s|
  {
    if s != [] {
      assert s[0] in s;
      forall b | b in s[1..] ensures b <= 0x7F { assert b in s; }
      AsciiIsValid(s[1..]);
    }
  }

  lemma PrintedPart(n: int)
    requires I64_MIN <= n <= I64_MAX
    ensures ParseI64(Print(n)) == Some(n) && ValidUtf8(Print(n)) && SEPARATOR !in Print(n)
  {
    ParsePrint(n, I64_MIN, I64_MAX);
    AsciiIsValid(Print(n));
  }

  lemma RoundTripII(a: int, b: int)
    requires I64_MIN <= a <= I64_MAX && I64_MIN <= b <= I64_MAX
    ensures DecodeCursorII(EncodeCursor([Print(a), Print(b)])) == Some((a, b))
  {
    hide EncodeCursor, DecodeCursor, ParseI64, ValidUtf8, Print;
    var parts := [Print(a), Print(b)];
    PrintedPart(a);
    PrintedPart(b);
    assert parts[0] == Print(a) && parts[1] == Print(b);
    CursorRoundTrip(parts);
  }

  /** With an id in the key the token round-trips if and only if the id is free of the separator. */
  lemma RoundTripIS(a: int, id: Text)
    requires I64_MIN <= a <= I64_MAX && ValidUtf8(id)
    ensures DecodeCursorIS(EncodeCursor([Print(a), id])) == Some((a, id)) <==> SEPARATOR !in id
  {
    hide EncodeCursor, DecodeCursor, ParseI64, ValidUtf8, Print;
    var parts := [Print(a), id];
    PrintedPart(a);
    assert parts[0] == Print(a) && parts[1] == id;
    CursorRoundTrip(parts);
    if DecodeCursorIS(EncodeCursor(parts)) == Some((a, id)) { AcceptedTokens(EncodeCursor(parts)); }
  }

  lemma RoundTripISI(a: int, id: Text, c: int)
    requires I64_MIN <= a <= I64_MAX && I64_MIN <= c <= I64_MAX && ValidUtf8(id)
    ensures DecodeCursorISI(EncodeCursor([Print(a), id, Print(c)])) == Some((a, id, c)) <==> SEPARATOR !in id
  {
    hide EncodeCursor, DecodeCursor, ParseI64, ValidUtf8, Print;
    var parts := [Print(a), id, Print(c)];
    PrintedPart(a);
    PrintedPart(c);
    assert parts[0] == Print(a) && parts[1] == id && parts[2] == Print(c);
    CursorRoundTrip(parts);
    if DecodeCursorISI(EncodeCursor(parts)) == Some((a, id, c)) { AcceptedTokens(EncodeCursor(parts)); }
  }
}
