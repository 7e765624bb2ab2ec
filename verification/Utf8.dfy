/** UTF-8 text as bytes: SanitizeUTF8String and TruncateString of backend/common/util.go, over
    the encoding of RFC 3629. */
module Utf8 {

  type Byte = b: int | 0 <= b < 256

  // ---------------------------------------------------------------- RFC 3629

  /** The code points that UTF-8 encodes (section 3 of RFC 3629). */
  predicate IsScalar(r: int) { 0 <= r < 0xD800 || 0xE000 <= r < 0x110000 }

  /** Section 3 of RFC 3629. */
  function Encode(r: int): (s: seq<Byte>)
    requires IsScalar(r)
    ensures 1 <= |s| <= 4
  {
    if r < 0x80 then [r]
    else if r < 0x800 then [0xC0 + r / 64, 0x80 + r % 64]
    else if r < 0x10000 then [0xE0 + r / 64 / 64, 0x80 + r / 64 % 64, 0x80 + r % 64]
    else [0xF0 + r / 64 / 64 / 64, 0x80 + r / 64 / 64 % 64, 0x80 + r / 64 % 64, 0x80 + r % 64]
  }

  /** Lengths, first bytes and bits, as the table in section 3 of RFC 3629 lays them out. */
  lemma {:induction false} EncodeIs(r: int)
    requires IsScalar(r)
    ensures var s := Encode(r);
            && |s| == (if r <= 0x7F then 1 else if r <= 0x7FF then 2 else if r <= 0xFFFF then 3 else 4)
            && (forall i :: 1 <= i < |s| ==> 0x80 <= s[i] <= 0xBF)
            && (|s| == 1 ==> s[0] == r)
            && (|s| == 2 ==> 0xC0 <= s[0] <= 0xDF && r == 64 * (s[0] as int - 0xC0) + (s[1] as int - 0x80))
            && (|s| == 3 ==> 0xE0 <= s[0] <= 0xEF && r == 4096 * (s[0] as int - 0xE0) + 64 * (s[1] as int - 0x80) + (s[2] as int - 0x80))
            && (|s| == 4 ==> 0xF0 <= s[0] <= 0xF7 && r == 262144 * (s[0] as int - 0xF0) + 4096 * (s[1] as int - 0x80) + 64 * (s[2] as int - 0x80) + (s[3] as int - 0x80))
  {
  }

  function EncodeAll(runes: seq<int>): seq<Byte>
    requires forall r :: r in runes ==> IsScalar(r)
  {
    if runes == [] then [] else Encode(runes[0]) + EncodeAll(runes[1..])
  }

  /** Well-formed UTF-8: the encoding of some code points. */
  ghost predicate Valid(s: seq<Byte>) {
    exists runes: seq<int> :: (forall r :: r in runes ==> IsScalar(r)) && s == EncodeAll(runes)
  }

  // ---------------------------------------------------------------- DecodeRuneInString

  datatype Rune = Rune(value: int, width: nat)

  const RUNE_ERROR := Rune(0xFFFD, 1)

  predicate Tail(b: Byte) { 0x80 <= b < 0xC0 }

  /** The range of the second byte after a first byte of three or four (section 4 of RFC 3629). */
  predicate Second(b0: Byte, b1: Byte) {
    (if b0 == 0xE0 then 0xA0 else if b0 == 0xF0 then 0x90 else 0x80) <= b1
    < (if b0 == 0xED then 0xA0 else if b0 == 0xF4 then 0x90 else 0xC0)
  }

  /** Six more bits, from a following byte. */
  function Sextet(high: int, b: Byte): int { high * 64 + (b as int - 0x80) }

  /** The first code point and its width, by the syntax in section 4 of RFC 3629; U+FFFD of width
      one when no code point is encoded there. */
  function Decode(s: seq<Byte>): (r: Rune)
    requires s != []
    ensures 1 <= r.width <= |s|
  {
    if s[0] < 0x80 then Rune(s[0], 1)
    else if 0xC2 <= s[0] < 0xE0 then
      if |s| >= 2 && Tail(s[1]) then Rune(Sextet(s[0] - 0xC0, s[1]), 2) else RUNE_ERROR
    else if 0xE0 <= s[0] < 0xF0 then
      if |s| >= 3 && Second(s[0], s[1]) && Tail(s[2])
      then Rune(Sextet(Sextet(s[0] - 0xE0, s[1]), s[2]), 3) else RUNE_ERROR
    else if 0xF0 <= s[0] < 0xF5 then
      if |s| >= 4 && Second(s[0], s[1]) && Tail(s[2]) && Tail(s[3])
      then Rune(Sextet(Sextet(Sextet(s[0] - 0xF0, s[1]), s[2]), s[3]), 4) else RUNE_ERROR
    else RUNE_ERROR
  }

  lemma {:induction false} SextetSplits(high: int, b: Byte)
    requires Tail(b)
    ensures Sextet(high, b) / 64 == high && Sextet(high, b) % 64 == b - 0x80
  {
  }

  lemma {:induction false} SextetJoins(r: int)
    requires r >= 0
    ensures Sextet(r / 64, 0x80 + r % 64) == r
  {
  }

  /** Decoding what is encoded gives it back, whatever follows. */
  lemma {:induction false} DecodeEncode(r: int, rest: seq<Byte>)
    requires IsScalar(r)
    ensures Decode(Encode(r) + rest) == Rune(r, |Encode(r)|)
  {
    SextetJoins(r);
    SextetJoins(r / 64);
    SextetJoins(r / 64 / 64);
    var s := Encode(r) + rest;
    assert s[..|Encode(r)|] == Encode(r);
  }

  /** Whatever decodes without error is the encoding of what it decodes to. */
  lemma {:induction false} EncodeDecode(s: seq<Byte>)
    requires s != [] && Decode(s) != RUNE_ERROR
    ensures IsScalar(Decode(s).value) && s[..Decode(s).width] == Encode(Decode(s).value)
  {
    var w := Decode(s).width;
    if w == 2 {
      SextetSplits(s[0] - 0xC0, s[1]);
    } else if w == 3 {
      Decoded3(s);
    } else if w == 4 {
      Decoded4(s);
    }
  }

  lemma {:induction false} Decoded3(s: seq<Byte>)
    requires s != [] && Decode(s).width == 3
    ensures var r := Decode(s).value; IsScalar(r) && r >= 0x800 && r < 0x10000 && s[..3] == Encode(r)
  {
    var high := Sextet(s[0] - 0xE0, s[1]);
    SextetSplits(s[0] - 0xE0, s[1]);
    SextetSplits(high, s[2]);
  }

  lemma {:induction false} Decoded4(s: seq<Byte>)
    requires s != [] && Decode(s).width == 4
    ensures var r := Decode(s).value; IsScalar(r) && r >= 0x10000 && s[..4] == Encode(r)
  {
    var high := Sextet(s[0] - 0xF0, s[1]);
    SextetSplits(s[0] - 0xF0, s[1]);
    SextetSplits(high, s[2]);
    SextetSplits(Sextet(high, s[2]), s[3]);
  }

  /** A decoding depends only on the bytes it covers; an error stays one in a shorter text. */
  lemma {:induction false} DecodePrefix(s: seq<Byte>, n: nat)
    requires s != [] && Decode(s).width <= n <= |s|
    ensures Decode(s[..n]) == Decode(s)
  {
  }

  // ---------------------------------------------------------------- well-formed prefixes

  /** Where the walk over the code points meets the first error, or the end. */
  function ValidUpTo(s: seq<Byte>): (i: nat)
    ensures i <= |s|
  {
    if s == [] || Decode(s) == RUNE_ERROR then 0 else Decode(s).width + ValidUpTo(s[Decode(s).width..])
  }

  lemma {:induction false} EncodeAllFirst(r: int, runes: seq<int>)
    requires IsScalar(r) && forall x :: x in runes ==> IsScalar(x)
    ensures forall x :: x in [r] + runes ==> IsScalar(x)
    ensures EncodeAll([r] + runes) == Encode(r) + EncodeAll(runes)
  {
    assert ([r] + runes)[1..] == runes;
  }

  lemma {:induction false} NotAnError(r: int)
    requires IsScalar(r)
    ensures Rune(r, |Encode(r)|) != RUNE_ERROR
  {
  }

  lemma {:induction false} EncodedWalks(runes: seq<int>)
    requires forall r :: r in runes ==> IsScalar(r)
    ensures ValidUpTo(EncodeAll(runes)) == |EncodeAll(runes)|
  {
    if runes != [] {
      EncodedWalks(runes[1..]);
      var s, head := EncodeAll(runes), Encode(runes[0]);
      DecodeEncode(runes[0], EncodeAll(runes[1..]));
      assert s[|head|..] == EncodeAll(runes[1..]);
      NotAnError(runes[0]);
    }
  }

  lemma {:induction false} WalkedIsValid(s: seq<Byte>)
    ensures Valid(s[..ValidUpTo(s)])
  {
    var i := ValidUpTo(s);
    if i == 0 {
      assert EncodeAll([]) == s[..0];
    } else {
      var w := Decode(s).width;
      WalkedIsValid(s[w..]);
      EncodeDecode(s);
      RuneThenValid(s, Decode(s).value, w, i - w);
    }
  }

  lemma {:induction false} RuneThenValid(s: seq<Byte>, r: int, w: nat, n: nat)
    requires w + n <= |s| && IsScalar(r) && s[..w] == Encode(r) && Valid(s[w..][..n])
    ensures Valid(s[..w + n])
  {
    PrependRune(r, s[w..][..n]);
    assert s[..w + n] == s[..w] + s[w..][..n];
  }

  lemma {:induction false} PrependRune(r: int, t: seq<Byte>)
    requires IsScalar(r) && Valid(t)
    ensures Valid(Encode(r) + t)
  {
    var runes: seq<int> :| (forall x :: x in runes ==> IsScalar(x)) && t == EncodeAll(runes);
    EncodeAllFirst(r, runes);
  }

  /** The walk gets through exactly when the text is well-formed. */
  lemma {:induction false} ValidIffWalked(s: seq<Byte>)
    ensures Valid(s) <==> ValidUpTo(s) == |s|
  {
    if Valid(s) {
      var runes: seq<int> :| (forall r :: r in runes ==> IsScalar(r)) && s == EncodeAll(runes);
      EncodedWalks(runes);
    }
    WalkedIsValid(s);
    assert s[..|s|] == s;
  }

  /** The walk stops where the longest well-formed prefix ends. */
  lemma {:induction false} LongestValidPrefix(s: seq<Byte>, n: nat)
    requires n <= |s|
    ensures Valid(s[..ValidUpTo(s)]) && (Valid(s[..n]) ==> n <= ValidUpTo(s))
    decreases |s|
  {
    WalkedIsValid(s);
    ValidIffWalked(s[..n]);
    if n > 0 && Valid(s[..n]) {
      var p := s[..n];
      var w := Decode(p).width;
      DecodeLonger(s, n);
      assert p[w..] == s[w..][..n-w];
      ValidIffWalked(p[w..]);
      LongestValidPrefix(s[w..], n - w);
    }
  }

  lemma {:induction false} DecodeLonger(s: seq<Byte>, n: nat)
    requires 0 < n <= |s| && Decode(s[..n]) != RUNE_ERROR
    ensures Decode(s) == Decode(s[..n])
  {
  }

  lemma {:induction false} ValidAppend(a: seq<Byte>, b: seq<Byte>)
    requires Valid(a) && Valid(b)
    ensures Valid(a + b)
  {
    ValidIffWalked(a);
    ValidIffWalked(b);
    WalkAppend(a, b);
    ValidIffWalked(a + b);
  }

  lemma {:induction false} WalkAppend(a: seq<Byte>, b: seq<Byte>)
    requires ValidUpTo(a) == |a|
    ensures ValidUpTo(a + b) == |a| + ValidUpTo(b)
    decreases |a|
  {
    if a == [] {
      assert a + b == b;
    } else {
      var w := Decode(a).width;
      EncodeDecode(a);
      DecodeEncode(Decode(a).value, a[w..] + b);
      assert a + b == Encode(Decode(a).value) + (a[w..] + b);
      assert (a + b)[w..] == a[w..] + b;
      WalkAppend(a[w..], b);
    }
  }

  // ---------------------------------------------------------------- SanitizeUTF8String

  function HexDigit(n: int): Byte
    requires 0 <= n < 16
  {
    if n < 10 then 0x30 + n else 0x61 + n - 10
  }

  /** A backslash, x, and two hexadecimal digits. */
  function HexEscape(b: Byte): (s: seq<Byte>) { [0x5C, 0x78, HexDigit(b / 16), HexDigit(b % 16)] }

  /** What the first byte or code point becomes, and its width. All but the bytes from 0x20 to
      0x7F and the code points of more than one byte is escaped, control characters too. */
  function Piece(s: seq<Byte>): ((seq<Byte>, nat))
    requires s != []
  {
    var w := Decode(s).width;
    if 0x20 <= s[0] < 0x80 then ([s[0]], 1)
    else if w == 1 then (HexEscape(s[0]), 1)
    else (s[..w], w)
  }

  function Escape(s: seq<Byte>): seq<Byte>
    decreases |s|
  {
    if s == [] then []
    else
      var (piece, n) := Piece(s);
      piece + Escape(s[n..])
  }

  function Sanitized(s: seq<Byte>): seq<Byte> {
    var i := ValidUpTo(s);
    if i == |s| then s else s[..i] + Escape(s[i..])
  }

  method SanitizeUTF8String(s: seq<Byte>) returns (r: seq<Byte>)
    ensures r == Sanitized(s)
  {
    var i := FindInvalid(s);
    if i == |s| { return s; }
    var rest := WriteEscaped(s[i..]);
    return s[..i] + rest;
  }

  /** Its first loop: the first byte that starts no code point. */
  method FindInvalid(s: seq<Byte>) returns (i: nat)
    ensures i == ValidUpTo(s)
  {
    i := 0;
    while i < |s|
      invariant i <= |s| && ValidUpTo(s) == i + ValidUpTo(s[i..])
      decreases |s| - i
    {
      var c := Decode(s[i..]);
      if c == RUNE_ERROR { return; }
      assert s[i..][c.width..] == s[i + c.width..];
      i := i + c.width;
    }
  }

  /** Its second loop. */
  method WriteEscaped(s: seq<Byte>) returns (r: seq<Byte>)
    ensures r == Escape(s)
  {
    r := [];
    var i := 0;
    while i < |s|
      invariant i <= |s| && Escape(s) == r + Escape(s[i..])
      decreases |s| - i
    {
      var piece, n := EscapeOne(s, i);
      EscapeStep(r, s, i);
      r, i := r + piece, i + n;
    }
  }

  /** One turn of it: what is written, and how many bytes that stands for. */
  method EscapeOne(s: seq<Byte>, i: nat) returns (piece: seq<Byte>, n: nat)
    requires i < |s|
    ensures (piece, n) == Piece(s[i..])
  {
    if 0x20 <= s[i] < 0x80 { return [s[i]], 1; }
    var w := Decode(s[i..]).width;
    if w == 1 { return HexEscape(s[i]), 1; }
    assert s[i..][..w] == s[i..i+w];
    return s[i..i+w], w;
  }

  lemma {:induction false} EscapeStep(r: seq<Byte>, s: seq<Byte>, i: nat)
    requires i < |s|
    ensures var (piece, n) := Piece(s[i..]);
            1 <= n <= |s| - i && r + Escape(s[i..]) == r + piece + Escape(s[i+n..])
  {
    var (piece, n) := Piece(s[i..]);
    assert s[i..][n..] == s[i+n..];
    SeqAssociates(r, piece, Escape(s[i+n..]));
  }

  lemma {:induction false} SeqAssociates(a: seq<Byte>, b: seq<Byte>, c: seq<Byte>)
    ensures a + (b + c) == a + b + c
  {
  }

  lemma {:induction false} AsciiValid(b: Byte)
    requires b < 0x80
    ensures Valid([b])
  {
    ValidIffWalked([b]);
    assert [b][1..] == [];
  }

  lemma {:induction false} HexEscapeValid(b: Byte)
    ensures Valid(HexEscape(b))
  {
    AsciiValid(0x5C);
    AsciiValid(0x78);
    AsciiValid(HexDigit(b / 16));
    AsciiValid(HexDigit(b % 16));
    ValidAppend([0x5C], [0x78]);
    ValidAppend([0x5C] + [0x78], [HexDigit(b / 16)]);
    ValidAppend([0x5C] + [0x78] + [HexDigit(b / 16)], [HexDigit(b % 16)]);
    assert [0x5C] + [0x78] + [HexDigit(b / 16)] + [HexDigit(b % 16)] == HexEscape(b);
  }

  lemma {:induction false} FirstRuneValid(s: seq<Byte>)
    requires s != [] && Decode(s) != RUNE_ERROR
    ensures Valid(s[..Decode(s).width])
  {
    EncodeDecode(s);
    var runes := [Decode(s).value];
    EncodeAllFirst(runes[0], []);
    assert [runes[0]] + [] == runes && Encode(runes[0]) + [] == Encode(runes[0]);
  }

  lemma {:induction false} PieceIs(s: seq<Byte>)
    requires s != []
    ensures var (piece, n) := Piece(s);
            1 <= n <= |s| && |piece| <= 4 * n && Valid(piece) && forall b :: b in piece ==> b >= 0x20
  {
    var w := Decode(s).width;
    if 0x20 <= s[0] < 0x80 {
      AsciiValid(s[0]);
    } else if w == 1 {
      HexEscapeValid(s[0]);
    } else {
      FirstRuneValid(s);
      NoControls(s);
    }
  }

  lemma {:induction false} NoControls(s: seq<Byte>)
    requires s != [] && Decode(s).width > 1
    ensures forall b :: b in s[..Decode(s).width] ==> b >= 0x80
  {
  }

  // ---------------------------------------------------------------- what escaping is

  /** A code point of several bytes starts the text. */
  ghost predicate StartsWith(s: seq<Byte>, r: int) { IsScalar(r) && |Encode(r)| >= 2 && Encode(r) <= s }

  predicate IsLowerHex(d: Byte) { 0x30 <= d <= 0x39 || 0x61 <= d <= 0x66 }

  function HexValue(d: Byte): int
    requires IsLowerHex(d)
  {
    if d <= 0x39 then d - 0x30 else d - 0x61 + 10
  }

  /** The text is a backslash, x and the two lower-case hexadecimal digits of the byte, and more. */
  predicate Spells(t: seq<Byte>, b: Byte) {
    |t| >= 4 && t[0] == 0x5C && t[1] == 0x78 && IsLowerHex(t[2]) && IsLowerHex(t[3]) && 16 * HexValue(t[2]) + HexValue(t[3]) == b
  }

  /** `t` is `s` with each byte from 0x20 to 0x7F and each code point of several bytes as it is, and
      every other byte spelled out, in order. */
  ghost predicate Escaped(s: seq<Byte>, t: seq<Byte>)
    decreases |s|
  {
    if s == [] then t == []
    else if 0x20 <= s[0] < 0x80 then t != [] && t[0] == s[0] && Escaped(s[1..], t[1..])
    else if exists r :: StartsWith(s, r) then
      exists r :: StartsWith(s, r) && Encode(r) <= t && Escaped(s[|Encode(r)|..], t[|Encode(r)|..])
    else Spells(t, s[0]) && Escaped(s[1..], t[4..])
  }

  /** A text starts with a code point of several bytes exactly when decoding its first one takes
      several. */
  lemma {:induction false} SeveralBytes(s: seq<Byte>)
    requires s != []
    ensures forall r :: StartsWith(s, r) ==> Decode(s) == Rune(r, |Encode(r)|)
    ensures Decode(s).width > 1 ==> StartsWith(s, Decode(s).value) && Encode(Decode(s).value) == s[..Decode(s).width]
  {
    forall r | StartsWith(s, r) ensures Decode(s) == Rune(r, |Encode(r)|) {
      DecodeEncode(r, s[|Encode(r)|..]);
      assert s == Encode(r) + s[|Encode(r)|..];
    }
    if Decode(s).width > 1 { EncodeDecode(s); }
  }

  lemma {:induction false} HexEscapeSpells(b: Byte, rest: seq<Byte>)
    ensures Spells(HexEscape(b) + rest, b)
  {
  }

  lemma {:induction false} EscapeEscapes(s: seq<Byte>)
    ensures Escaped(s, Escape(s))
    decreases |s|
  {
    if s != [] {
      var (piece, n) := Piece(s);
      PieceIs(s);
      EscapeEscapes(s[n..]);
      var t := piece + Escape(s[n..]);
      assert t[|piece|..] == Escape(s[n..]);
      SeveralBytes(s);
      if !(0x20 <= s[0] < 0x80) {
        if n > 1 {
          assert Encode(Decode(s).value) == piece;
        } else {
          HexEscapeSpells(s[0], Escape(s[1..]));
        }
      }
    }
  }

  /** Sanitizing keeps the longest well-formed prefix, and escapes what comes after it. */
  lemma {:induction false} SanitizedIs(s: seq<Byte>) returns (i: nat, t: seq<Byte>)
    ensures i <= |s| && Valid(s[..i]) && forall n :: i < n <= |s| ==> !Valid(s[..n])
    ensures Sanitized(s) == s[..i] + t && Escaped(s[i..], t)
  {
    i := ValidUpTo(s);
    LongestValidPrefix(s, i);
    forall n | i < n <= |s| ensures !Valid(s[..n]) { LongestValidPrefix(s, n); }
    t := Escape(s[i..]);
    EscapeEscapes(s[i..]);
  }

  /** What the second loop writes is well-formed, has no control character and is at most four
      times as long. */
  lemma {:induction false} EscapeIs(s: seq<Byte>)
    ensures Valid(Escape(s)) && |Escape(s)| <= 4 * |s| && forall b :: b in Escape(s) ==> b >= 0x20
    decreases |s|
  {
    if s == [] {
      ValidIffWalked([]);
    } else {
      PieceIs(s);
      var (piece, n) := Piece(s);
      EscapeIs(s[n..]);
      ValidAppend(piece, Escape(s[n..]));
    }
  }

  /** The result is always well-formed. */
  lemma {:induction false} SanitizedIsValid(s: seq<Byte>)
    ensures Valid(Sanitized(s))
  {
    var i := ValidUpTo(s);
    WalkedIsValid(s);
    if i == |s| {
      assert s[..i] == s;
    } else {
      EscapeIs(s[i..]);
      ValidAppend(s[..i], Escape(s[i..]));
    }
  }

  /** Well-formed text, and no other, is left unchanged; so sanitizing twice is sanitizing once. */
  lemma {:induction false} UnchangedIffValid(s: seq<Byte>)
    ensures Sanitized(s) == s <==> Valid(s)
    ensures Sanitized(Sanitized(s)) == Sanitized(s)
  {
    ValidIffWalked(s);
    SanitizedIsValid(s);
    ValidIffWalked(Sanitized(s));
  }

  /** Every well-formed prefix is kept, no text grows more than fourfold, and past the first error
      no control character is left, whether or not it was well-formed. */
  lemma {:induction false} KeepsValidPrefix(s: seq<Byte>, n: nat)
    requires n <= |s| && Valid(s[..n])
    ensures s[..n] <= Sanitized(s) && |Sanitized(s)| <= 4 * |s|
    ensures !Valid(s) ==> forall b :: b in Sanitized(s)[ValidUpTo(s)..] ==> b >= 0x20
  {
    LongestValidPrefix(s, n);
    EscapeIs(s[ValidUpTo(s)..]);
    ValidIffWalked(s);
  }

  // ---------------------------------------------------------------- TruncateString

  /** The width of the first code point, an ill-formed byte being one of its own. */
  type Widths = seq<Byte> -> nat

  ghost predicate IsWidth(width: Widths) { forall s :: s != [] ==> 1 <= width(s) <= |s| }

  function DecodedWidth(): Widths { (s: seq<Byte>) => if s == [] then 0 else Decode(s).width }

  /** How many code points there are. */
  ghost function CountBy(width: Widths, s: seq<Byte>): nat
    requires IsWidth(width)
    decreases |s|
  {
    if s == [] then 0 else 1 + CountBy(width, s[width(s)..])
  }

  /** Where the first `n` code points end. */
  ghost function BoundaryBy(width: Widths, s: seq<Byte>, n: nat): (i: nat)
    requires IsWidth(width)
    ensures i <= |s|
    decreases |s|
  {
    if s == [] || n == 0 then 0 else width(s) + BoundaryBy(width, s[width(s)..], n - 1)
  }

  ghost function RuneCount(s: seq<Byte>): nat { CountBy(DecodedWidth(), s) }

  ghost function Boundary(s: seq<Byte>, n: nat): (i: nat)
    ensures i <= |s|
  {
    BoundaryBy(DecodedWidth(), s, n)
  }

  lemma {:induction false} WalkOne(width: Widths, s: seq<Byte>, i: nat, n: nat)
    requires IsWidth(width) && i < |s|
    ensures var w := width(s[i..]);
            && CountBy(width, s[i..]) == 1 + CountBy(width, s[i+w..])
            && BoundaryBy(width, s[i..], n) == if n == 0 then 0 else w + BoundaryBy(width, s[i+w..], n - 1)
  {
    var w := width(s[i..]);
    assert s[i..][w..] == s[i+w..];
  }

  /** The text up to `limit` code points, and whether any was left out. */
  method TruncateString(s: seq<Byte>, limit: int) returns (r: seq<Byte>, truncated: bool)
    ensures r == s[..Boundary(s, if limit < 0 then 0 else limit)]
    ensures truncated <==> RuneCount(s) > if limit < 0 then 0 else limit
  {
    r, truncated := CutAfter(s, limit, DecodedWidth());
  }

  /** Its loop. */
  method CutAfter(s: seq<Byte>, limit: int, width: Widths) returns (r: seq<Byte>, truncated: bool)
    requires IsWidth(width)
    ensures r == s[..BoundaryBy(width, s, if limit < 0 then 0 else limit)]
    ensures truncated <==> CountBy(width, s) > if limit < 0 then 0 else limit
  {
    var chars: nat, i := 0, 0;
    ghost var most: nat := if limit < 0 then 0 else limit;
    assert s[0..] == s;
    while i < |s|
      invariant i <= |s| && chars <= most && Walked(width, s, most, i, chars)
      decreases |s| - i
    {
      WalkStep(width, s, most, i, chars);
      if chars >= limit { return s[..i], true; }
      i, chars := i + width(s[i..]), chars + 1;
    }
    assert s[..|s|] == s;
    return s, false;
  }

  /** The walk has passed `chars` code points, and is at `i`. */
  ghost predicate Walked(width: Widths, s: seq<Byte>, most: nat, i: nat, chars: nat)
    requires IsWidth(width) && i <= |s| && chars <= most
  {
    && BoundaryBy(width, s, most) == i + BoundaryBy(width, s[i..], most - chars)
    && CountBy(width, s) == chars + CountBy(width, s[i..])
  }

  lemma {:induction false} WalkStep(width: Widths, s: seq<Byte>, most: nat, i: nat, chars: nat)
    requires IsWidth(width) && i < |s| && chars <= most && Walked(width, s, most, i, chars)
    ensures if chars == most then BoundaryBy(width, s, most) == i && CountBy(width, s) > most
            else i + width(s[i..]) <= |s| && Walked(width, s, most, i + width(s[i..]), chars + 1)
  {
    WalkOne(width, s, i, most - chars);
  }

  /** Truncating leaves exactly the first code points, and well-formed text well-formed. */
  lemma {:induction false} TruncatedCounts(s: seq<Byte>, n: nat)
    ensures var r := s[..Boundary(s, n)];
            RuneCount(r) == (if RuneCount(s) < n then RuneCount(s) else n) && (Valid(s) ==> Valid(r))
  {
    CutCounts(s, n);
    ValidIffWalked(s);
    ValidIffWalked(s[..Boundary(s, n)]);
  }

  lemma {:induction false} CutCounts(s: seq<Byte>, n: nat)
    ensures var i := Boundary(s, n);
            && RuneCount(s[..i]) == (if RuneCount(s) < n then RuneCount(s) else n)
            && (ValidUpTo(s) == |s| ==> ValidUpTo(s[..i]) == i)
    decreases |s|
  {
    var i := Boundary(s, n);
    var r := s[..i];
    if s != [] && n > 0 {
      var w := Decode(s).width;
      CutCounts(s[w..], n - 1);
      DecodePrefix(s, i);
      assert r[w..] == s[w..][..i-w];
    }
  }
}
