/** Obfuscate and Unobfuscate of backend/common/util.go: a cyclic exclusive or, in base64 (section 4
    of RFC 4648). */
module Obfuscation {
  import opened Results

  type Byte = b: int | 0 <= b < 256

  // ---------------------------------------------------------------- exclusive or

  function TwoTo(bits: nat): (n: nat)
    ensures n >= 1
  {
    if bits == 0 then 1 else 2 * TwoTo(bits - 1)
  }

  /** Bit by bit, of numbers with that many bits. */
  function XorBits(a: nat, b: nat, bits: nat): (r: nat)
    ensures r < TwoTo(bits)
  {
    if bits == 0 then 0 else 2 * XorBits(a / 2, b / 2, bits - 1) + (a + b) % 2
  }

  lemma {:induction false} ByteBits()
    ensures TwoTo(8) == 256
  {
    assert TwoTo(4) == 16;
  }

  function Xor(a: Byte, b: Byte): Byte {
    ByteBits();
    XorBits(a, b, 8)
  }

  lemma {:induction false} XorBitsTwice(a: nat, b: nat, bits: nat)
    requires a < TwoTo(bits)
    ensures XorBits(XorBits(a, b, bits), b, bits) == a
  {
    if bits > 0 {
      var high := XorBits(a / 2, b / 2, bits - 1);
      XorBitsTwice(a / 2, b / 2, bits - 1);
      BitTwice(a, b, high);
      LowBit(a, b, bits);
      LowBit(2 * high + (a + b) % 2, b, bits);
    }
  }

  lemma {:induction false} LowBit(a: nat, b: nat, bits: nat)
    requires bits > 0
    ensures XorBits(a, b, bits) == 2 * XorBits(a / 2, b / 2, bits - 1) + (a + b) % 2
  {
  }

  lemma {:induction false} BitTwice(a: nat, b: nat, high: nat)
    ensures var r := 2 * high + (a + b) % 2; r / 2 == high && 2 * (a / 2) + (r + b) % 2 == a
  {
  }

  lemma {:induction false} XorTwice(a: Byte, b: Byte)
    ensures Xor(Xor(a, b), b) == a
  {
    ByteBits();
    XorBitsTwice(a, b, 8);
  }

  /** The bit of weight 2^k. */
  predicate Bit(n: nat, k: nat)
    decreases k
  {
    if k == 0 then n % 2 == 1 else Bit(n / 2, k - 1)
  }

  /** A bit of the result is set exactly when that of one of the two bytes is, and not the other's. */
  lemma {:induction false} XorIs(a: Byte, b: Byte, k: nat)
    ensures k < 8 ==> (Bit(Xor(a, b), k) <==> Bit(a, k) != Bit(b, k))
  {
    if k < 8 { BitOfXor(a, b, 8, k); }
  }

  lemma {:induction false} BitOfXor(a: nat, b: nat, bits: nat, k: nat)
    requires k < bits
    ensures Bit(XorBits(a, b, bits), k) <==> Bit(a, k) != Bit(b, k)
    decreases k
  {
    LowBit(a, b, bits);
    HighBits(XorBits(a / 2, b / 2, bits - 1), (a + b) % 2);
    if k == 0 {
      OddSum(a, b);
    } else {
      BitOfXor(a / 2, b / 2, bits - 1, k - 1);
    }
  }

  lemma {:induction false} HighBits(high: nat, low: nat)
    requires low < 2
    ensures (2 * high + low) / 2 == high && (2 * high + low) % 2 == low
  {
  }

  lemma {:induction false} OddSum(a: nat, b: nat)
    ensures (a + b) % 2 == 1 <==> (a % 2 == 1) != (b % 2 == 1)
  {
  }

  /** Each byte with the seed's byte in its place, the seed repeated. */
  function Masked(s: seq<Byte>, seed: seq<Byte>): (r: seq<Byte>)
    requires seed != []
    ensures |r| == |s| && forall i :: 0 <= i < |s| ==> r[i] == Xor(s[i], seed[i % |seed|])
  {
    seq(|s|, i requires 0 <= i < |s| => Xor(s[i], seed[i % |seed|]))
  }

  lemma {:induction false} MaskedTwice(s: seq<Byte>, seed: seq<Byte>)
    requires seed != []
    ensures Masked(Masked(s, seed), seed) == s
  {
    forall i | 0 <= i < |s| ensures Masked(Masked(s, seed), seed)[i] == s[i] {
      XorTwice(s[i], seed[i % |seed|]);
    }
  }

  // ---------------------------------------------------------------- base64

  type Sextet = v: int | 0 <= v < 64

  /** The alphabet of section 4 of RFC 4648. */
  function Letter(v: Sextet): char {
    if v < 26 then (v + 'A' as int) as char
    else if v < 52 then (v - 26 + 'a' as int) as char
    else if v < 62 then (v - 52 + '0' as int) as char
    else if v == 62 then '+' else '/'
  }

  function Value(c: char): Result<Sextet> {
    if 'A' <= c <= 'Z' then Ok(c as int - 'A' as int)
    else if 'a' <= c <= 'z' then Ok(c as int - 'a' as int + 26)
    else if '0' <= c <= '9' then Ok(c as int - '0' as int + 52)
    else if c == '+' then Ok(62)
    else if c == '/' then Ok(63)
    else Error
  }

  /** The alphabet, in order: upper case, lower case, digits, `+` and `/`. */
  lemma {:induction false} LettersAre(v: Sextet)
    ensures Letter(0) == 'A' && Letter(26) == 'a' && Letter(52) == '0' && Letter(62) == '+' && Letter(63) == '/'
    ensures v < 25 || 26 <= v < 51 || 52 <= v < 61 ==> Letter(v + 1) as int == Letter(v) as int + 1
  {
  }

  lemma {:induction false} LetterValue(v: Sextet)
    ensures Value(Letter(v)) == Ok(v) && Letter(v) != '=' && Letter(v) != '\r' && Letter(v) != '\n'
  {
  }

  lemma {:induction false} ValueLetter(c: char)
    ensures Value(c).Ok? ==> Letter(Value(c).value) == c
  {
  }

  /** Groups of three bytes as four letters; one or two bytes at the end are padded. */
  function Encode(s: seq<Byte>): string {
    if s == [] then ""
    else if |s| == 1 then [Letter(s[0] / 4), Letter(s[0] % 4 * 16), '=', '=']
    else if |s| == 2 then [Letter(s[0] / 4), Letter(s[0] % 4 * 16 + s[1] / 16), Letter(s[1] % 16 * 4), '=']
    else Quad(s[0], s[1], s[2]) + Encode(s[3..])
  }

  /** The letters of a whole group stand for its 24 bits, six by six; those of one or two bytes at the
      end for their bits with zeros behind. */
  lemma {:induction false} EncodeIs(s: seq<Byte>) returns (a: Sextet, b: Sextet, c: Sextet, d: Sextet)
    requires s != []
    ensures |s| == 1 ==> Encode(s) == [Letter(a), Letter(b), '=', '='] && a * 64 + b == s[0] as int * 16
    ensures |s| == 2 ==> Encode(s) == [Letter(a), Letter(b), Letter(c), '='] && a * 4096 + b * 64 + c == (s[0] as int * 256 + s[1]) * 4
    ensures |s| >= 3 ==> Encode(s) == [Letter(a), Letter(b), Letter(c), Letter(d)] + Encode(s[3..])
                         && a * 262144 + b * 4096 + c * 64 + d == s[0] as int * 65536 + s[1] as int * 256 + s[2]
  {
    var x: int, y: int, z: int := s[0], if |s| >= 2 then s[1] else 0, if |s| >= 3 then s[2] else 0;
    a, b, c, d := x / 4, x % 4 * 16 + y / 16, y % 16 * 4 + z / 64, z % 64;
    SextetsOfBytes(x, y, z);
  }

  lemma {:induction false} SextetsOfBytes(x: int, y: int, z: int)
    requires 0 <= x < 256 && 0 <= y < 256 && 0 <= z < 256
    ensures x / 4 * 262144 + (x % 4 * 16 + y / 16) * 4096 + (y % 16 * 4 + z / 64) * 64 + z % 64 == x * 65536 + y * 256 + z
    ensures x / 4 * 4096 + (x % 4 * 16 + y / 16) * 64 + y % 16 * 4 == (x * 256 + y) * 4
    ensures x / 4 * 64 + x % 4 * 16 == x * 16
  {
  }

  /** The four letters of three bytes. */
  function Quad(x: Byte, y: Byte, z: Byte): (t: string)
    ensures |t| == 4
  {
    [Letter(x / 4), Letter(x % 4 * 16 + y / 16), Letter(y % 16 * 4 + z / 64), Letter(z % 64)]
  }

  /** The three bytes of four sextets. */
  function Triple(a: Sextet, b: Sextet, c: Sextet, d: Sextet): (s: seq<Byte>)
    ensures |s| == 3
  {
    var x: int, y: int, z: int := a * 4 + b / 16, b % 16 * 16 + c / 4, c % 4 * 64 + d;
    [x, y, z]
  }

  /** Line breaks do not matter. */
  function Strip(t: string): string {
    if t == "" then ""
    else (if t[0] == '\r' || t[0] == '\n' then "" else [t[0]]) + Strip(t[1..])
  }

  /** A last group, with padding. */
  function DecodePadded(a: Sextet, b: Sextet, c: char, d: char): Result<seq<Byte>> {
    if d != '=' then Error
    else if c == '=' then Ok(Triple(a, b, 0, 0)[..1])
    else
      match Value(c)
      case Error => Error
      case Ok(v) => Ok(Triple(a, b, v, 0)[..2])
  }

  /** Groups of four; padding only in the last one; unused bits of a padded group are ignored. */
  function DecodeGroups(t: string): Result<seq<Byte>> {
    if t == "" then Ok([])
    else if |t| < 4 then Error
    else
      match (Value(t[0]), Value(t[1]))
      case (Ok(a), Ok(b)) =>
        if |t| == 4 && t[3] == '=' then DecodePadded(a, b, t[2], t[3])
        else
          (match (Value(t[2]), Value(t[3]))
           case (Ok(c), Ok(d)) =>
             (match DecodeGroups(t[4..])
              case Ok(rest) => Ok(Triple(a, b, c, d) + rest)
              case Error => Error)
           case _ => Error)
      case _ => Error
  }

  function Decode(t: string): Result<seq<Byte>> { DecodeGroups(Strip(t)) }

  predicate IsLetter(c: char) { 'A' <= c <= 'Z' || 'a' <= c <= 'z' || '0' <= c <= '9' || c == '+' || c == '/' }

  /** Letters, and at most two padding characters at the end. */
  ghost predicate Padded(t: string, p: nat) {
    p <= 2 && p <= |t| && (forall i :: 0 <= i < |t| - p ==> IsLetter(t[i])) && forall i :: |t| - p <= i < |t| ==> t[i] == '='
  }

  lemma {:induction false} LetterIff(c: char)
    ensures Value(c).Ok? <==> IsLetter(c)
  {
  }

  /** What decodes, line breaks aside: whole groups of four, of letters but for padding at the end. */
  lemma {:induction false} DecodesIff(t: string)
    ensures Decode(t).Ok? <==> |Strip(t)| % 4 == 0 && exists p :: Padded(Strip(t), p)
  {
    GroupsDecodeIff(Strip(t));
  }

  lemma {:induction false} GroupsDecodeIff(t: string)
    ensures DecodeGroups(t).Ok? <==> |t| % 4 == 0 && exists p :: Padded(t, p)
  {
    if t == "" {
      assert Padded(t, 0);
    } else if |t| > 4 {
      GroupsDecodeIff(t[4..]);
      LetterIff(t[0]);
      LetterIff(t[1]);
      LetterIff(t[2]);
      LetterIff(t[3]);
      MoreGroups(t);
    } else if |t| == 4 {
      assert t[4..] == "" && DecodeGroups("") == Ok([]);
      LastGroupDecodes(t);
    }
  }

  lemma {:induction false} MoreGroups(t: string)
    requires |t| > 4
    ensures |t| % 4 == 0 ==>
              ((exists p :: Padded(t, p)) <==>
               IsLetter(t[0]) && IsLetter(t[1]) && IsLetter(t[2]) && IsLetter(t[3]) && exists p :: Padded(t[4..], p))
    ensures |t| % 4 == |t[4..]| % 4
  {
    var rest := t[4..];
    if |t| % 4 == 0 {
      forall p | Padded(t, p) ensures Padded(rest, p) && IsLetter(t[0]) && IsLetter(t[1]) && IsLetter(t[2]) && IsLetter(t[3]) {
        assert forall i :: 0 <= i < |rest| ==> rest[i] == t[i+4];
      }
      if IsLetter(t[0]) && IsLetter(t[1]) && IsLetter(t[2]) && IsLetter(t[3]) {
        forall p | Padded(rest, p) ensures Padded(t, p) {
          assert forall i :: 4 <= i < |t| ==> t[i] == rest[i-4];
        }
      }
    }
  }

  lemma {:induction false} LastGroupDecodes(t: string)
    requires |t| == 4
    ensures (exists p :: Padded(t, p)) <==>
            IsLetter(t[0]) && IsLetter(t[1]) && (if t[3] == '=' then t[2] == '=' || IsLetter(t[2]) else IsLetter(t[2]) && IsLetter(t[3]))
    ensures DecodeGroups(t).Ok? <==>
            IsLetter(t[0]) && IsLetter(t[1]) && (if t[3] == '=' then t[2] == '=' || IsLetter(t[2]) else IsLetter(t[2]) && IsLetter(t[3]))
  {
    LetterIff(t[0]);
    LetterIff(t[1]);
    LetterIff(t[2]);
    LetterIff(t[3]);
    assert t[4..] == "";
    if IsLetter(t[0]) && IsLetter(t[1]) {
      if t[3] != '=' && IsLetter(t[2]) && IsLetter(t[3]) { assert Padded(t, 0); }
      if t[3] == '=' && IsLetter(t[2]) { assert Padded(t, 1); }
      if t[3] == '=' && t[2] == '=' { assert Padded(t, 2); }
    }
  }

  lemma {:induction false} EncodedHasNoBreaks(s: seq<Byte>)
    ensures Strip(Encode(s)) == Encode(s)
  {
    if |s| >= 3 {
      EncodedHasNoBreaks(s[3..]);
      StripFour(Letter(s[0] / 4), Letter(s[0] % 4 * 16 + s[1] / 16), Letter(s[1] % 16 * 4 + s[2] / 64), Letter(s[2] % 64), Encode(s[3..]));
    } else if |s| == 2 {
      StripFour(Letter(s[0] / 4), Letter(s[0] % 4 * 16 + s[1] / 16), Letter(s[1] % 16 * 4), '=', "");
    } else if |s| == 1 {
      StripFour(Letter(s[0] / 4), Letter(s[0] % 4 * 16), '=', '=', "");
    }
  }

  predicate NoBreak(c: char) { c != '\r' && c != '\n' }

  lemma {:induction false} StripFour(a: char, b: char, c: char, d: char, rest: string)
    requires NoBreak(a) && NoBreak(b) && NoBreak(c) && NoBreak(d)
    ensures Strip([a, b, c, d] + rest) == [a, b, c, d] + Strip(rest)
    ensures [a, b, c, d] + "" == [a, b, c, d]
  {
    assert ([a, b, c, d] + rest)[1..] == [b, c, d] + rest;
    assert ([b, c, d] + rest)[1..] == [c, d] + rest;
    assert ([c, d] + rest)[1..] == [d] + rest;
    assert ([d] + rest)[1..] == rest;
    assert Strip([d] + rest) == [d] + Strip(rest);
    assert Strip([c, d] + rest) == [c] + Strip([d] + rest);
    assert Strip([b, c, d] + rest) == [b] + Strip([c, d] + rest);
  }

  lemma {:induction false} QuadDecodes(x: Byte, y: Byte, z: Byte, rest: string, r: seq<Byte>)
    requires DecodeGroups(rest) == Ok(r)
    ensures DecodeGroups(Quad(x, y, z) + rest) == Ok([x, y, z] + r)
  {
    var t := Quad(x, y, z) + rest;
    assert t[4..] == rest;
    var a: int, b: int, c: int, d: int := x / 4, x % 4 * 16 + y / 16, y % 16 * 4 + z / 64, z % 64;
    FourLetters(a, b, c, d);
    QuadTriple(x, y, z);
    assert t[0] == Letter(a) && t[1] == Letter(b) && t[2] == Letter(c) && t[3] == Letter(d);
  }

  lemma {:induction false} QuadTriple(x: Byte, y: Byte, z: Byte)
    ensures Triple(x / 4, x % 4 * 16 + y / 16, y % 16 * 4 + z / 64, z % 64) == [x, y, z]
  {
  }

  lemma {:induction false} DecodeEncodedGroups(s: seq<Byte>)
    ensures DecodeGroups(Encode(s)) == Ok(s)
  {
    if |s| >= 3 {
      DecodeEncodedGroups(s[3..]);
      QuadDecodes(s[0], s[1], s[2], Encode(s[3..]), s[3..]);
      assert s == [s[0], s[1], s[2]] + s[3..];
    } else if s != [] {
      DecodeEncodedShort(s);
    }
  }

  lemma {:induction false} DecodeEncodedShort(s: seq<Byte>)
    requires 1 <= |s| <= 2
    ensures DecodeGroups(Encode(s)) == Ok(s)
  {
    var x, y: Byte := s[0], if |s| == 2 then s[1] else 0;
    var a: int, b: int, c: int := x / 4, x % 4 * 16 + y / 16, y % 16 * 4;
    FourLetters(a, b, c, 0);
    QuadTriple(x, y, 0);
    assert s == if |s| == 2 then [x, y] else [x];
    assert [x, y, 0][..1] == [x] && [x, y, 0][..2] == [x, y];
    assert Encode(s) == [Letter(a), Letter(b), if |s| == 2 then Letter(c) else '=', '='];
    DecodeLast(Letter(a), Letter(b), if |s| == 2 then Letter(c) else '=', a, b);
  }

  lemma {:induction false} DecodeLast(p: char, q: char, c: char, a: Sextet, b: Sextet)
    requires Value(p) == Ok(a) && Value(q) == Ok(b)
    ensures DecodeGroups([p, q, c, '=']) == DecodePadded(a, b, c, '=')
  {
  }

  lemma {:induction false} FourLetters(a: Sextet, b: Sextet, c: Sextet, d: Sextet)
    ensures Value(Letter(a)) == Ok(a) && Value(Letter(b)) == Ok(b) && Value(Letter(c)) == Ok(c) && Value(Letter(d)) == Ok(d)
    ensures Letter(c) != '=' && Letter(d) != '='
  {
    LetterValue(a);
    LetterValue(b);
    LetterValue(c);
    LetterValue(d);
  }

  /** Decoding gives back what was encoded, whatever the length. */
  lemma {:induction false} DecodeEncode(s: seq<Byte>)
    ensures Decode(Encode(s)) == Ok(s)
  {
    EncodedHasNoBreaks(s);
    DecodeEncodedGroups(s);
  }

  /** Nothing else decodes to the same bytes, but for line breaks and the unused bits of padding. */
  ghost predicate Canonical(t: string) {
    |t| >= 4 && t[|t|-1] == '=' ==>
      if t[|t|-2] == '=' then Value(t[|t|-3]).Ok? ==> Value(t[|t|-3]).value % 16 == 0
      else Value(t[|t|-2]).Ok? ==> Value(t[|t|-2]).value % 4 == 0
  }

  lemma {:induction false} EncodeDecodedGroups(t: string)
    requires DecodeGroups(t).Ok?
    ensures Encode(DecodeGroups(t).value) == t <==> Canonical(t)
  {
    if t != "" {
      if |t| == 4 && t[3] == '=' {
        LastGroup(t, Value(t[0]).value, Value(t[1]).value);
      } else {
        EncodeDecodedGroups(t[4..]);
        FirstGroup(t);
        CanonicalTail(t);
        var head := t[..4];
        assert t == head + t[4..] && (head + Encode(DecodeGroups(t[4..]).value))[4..] == Encode(DecodeGroups(t[4..]).value);
      }
    }
  }

  /** Four letters that decode are the encoding of their three bytes. */
  lemma {:induction false} FirstGroup(t: string)
    requires DecodeGroups(t).Ok? && |t| >= 4 && !(|t| == 4 && t[3] == '=')
    ensures DecodeGroups(t[4..]).Ok? && t[3] != '='
    ensures Encode(DecodeGroups(t).value) == t[..4] + Encode(DecodeGroups(t[4..]).value)
  {
    var a, b, c, d := Value(t[0]).value, Value(t[1]).value, Value(t[2]).value, Value(t[3]).value;
    assert DecodeGroups(t).value == Triple(a, b, c, d) + DecodeGroups(t[4..]).value;
    ValueLetter(t[0]);
    ValueLetter(t[1]);
    ValueLetter(t[2]);
    ValueLetter(t[3]);
    EncodeTriple(a, b, c, d, DecodeGroups(t[4..]).value);
    assert t[..4] == [t[0], t[1], t[2], t[3]];
  }

  lemma {:induction false} EncodeTriple(a: Sextet, b: Sextet, c: Sextet, d: Sextet, rest: seq<Byte>)
    ensures Encode(Triple(a, b, c, d) + rest) == [Letter(a), Letter(b), Letter(c), Letter(d)] + Encode(rest)
  {
    TripleQuad(a, b, c, d);
    assert (Triple(a, b, c, d) + rest)[3..] == rest;
  }

  lemma {:induction false} TripleQuad(a: Sextet, b: Sextet, c: Sextet, d: Sextet)
    ensures var s := Triple(a, b, c, d); Quad(s[0], s[1], s[2]) == [Letter(a), Letter(b), Letter(c), Letter(d)]
  {
    FourSextets(a, b, c, d);
  }

  lemma {:induction false} FourSextets(a: Sextet, b: Sextet, c: Sextet, d: Sextet)
    ensures var s := Triple(a, b, c, d);
            s[0] / 4 == a && s[0] % 4 * 16 + s[1] / 16 == b && s[1] % 16 * 4 + s[2] / 64 == c && s[2] % 64 == d
  {
  }

  lemma {:induction false} CanonicalTail(t: string)
    requires DecodeGroups(t).Ok? && |t| >= 4 && t[3] != '='
    ensures Canonical(t) <==> Canonical(t[4..])
  {
    TailLength(t);
    var u := t[4..];
    if u != "" {
      assert u[|u|-1] == t[|t|-1] && u[|u|-2] == t[|t|-2] && u[|u|-3] == t[|t|-3];
    }
  }

  lemma {:induction false} TailLength(t: string)
    requires DecodeGroups(t).Ok? && |t| >= 4 && t[3] != '='
    ensures t[4..] == "" || |t| >= 8
  {
    assert DecodeGroups(t[4..]).Ok?;
  }

  lemma {:induction false} LetterInjective(v: Sextet, w: Sextet)
    ensures Letter(v) == Letter(w) <==> v == w
  {
    LetterValue(v);
    LetterValue(w);
  }

  lemma {:induction false} LastGroup(t: string, a: Sextet, b: Sextet)
    requires |t| == 4 && t[3] == '=' && Value(t[0]) == Ok(a) && Value(t[1]) == Ok(b) && DecodePadded(a, b, t[2], t[3]).Ok?
    ensures Encode(DecodePadded(a, b, t[2], t[3]).value) == t <==> Canonical(t)
  {
    var s := DecodePadded(a, b, t[2], t[3]).value;
    ValueLetter(t[0]);
    ValueLetter(t[1]);
    ValueLetter(t[2]);
    FourSextets(a, b, 0, 0);
    if t[2] == '=' {
      LetterInjective(b, s[0] % 4 * 16);
      assert t == [t[0], t[1], t[2], t[3]];
    } else {
      var v := Value(t[2]).value;
      FourSextets(a, b, v, 0);
      LetterInjective(v, s[1] % 16 * 4);
      assert t == [t[0], t[1], t[2], t[3]];
    }
  }

  /** A text that decodes is, line breaks aside, the encoding of what it decodes to exactly when
      the unused bits of its padded group are zero. */
  lemma {:induction false} EncodeDecodeIff(t: string)
    requires Decode(t).Ok?
    ensures Encode(Decode(t).value) == Strip(t) <==> Canonical(Strip(t))
  {
    EncodeDecodedGroups(Strip(t));
  }

  // ---------------------------------------------------------------- the two operations

  datatype Outcome<+T> = Returned(value: T) | Failed | Panicked

  /** An empty seed is a division by zero, unless there is nothing to do. */
  function Obfuscated(src: seq<Byte>, seed: seq<Byte>): Outcome<string> {
    if seed != [] then Returned(Encode(Masked(src, seed))) else if src == [] then Returned("") else Panicked
  }

  function Unobfuscated(dst: string, seed: seq<Byte>): Outcome<seq<Byte>> {
    match Decode(dst)
    case Error => Failed
    case Ok(s) => if seed != [] then Returned(Masked(s, seed)) else if s == [] then Returned([]) else Panicked
  }

  method Obfuscate(src: seq<Byte>, seed: seq<Byte>) returns (r: Outcome<string>)
    ensures r == Obfuscated(src, seed)
  {
    var obfuscated, ok := MaskBytes(src, seed);
    if !ok { return Panicked; }
    return Returned(Encode(obfuscated[..]));
  }

  method Unobfuscate(dst: string, seed: seq<Byte>) returns (r: Outcome<seq<Byte>>)
    ensures r == Unobfuscated(dst, seed)
  {
    match Decode(dst)
    case Error => return Failed;
    case Ok(obfuscated) =>
      var unobfuscated, ok := MaskBytes(obfuscated, seed);
      if !ok { return Panicked; }
      return Returned(unobfuscated[..]);
  }

  /** The loop in both. */
  method MaskBytes(s: seq<Byte>, seed: seq<Byte>) returns (a: array<Byte>, ok: bool)
    ensures fresh(a) && (ok <==> seed != [] || s == [])
    ensures seed != [] ==> a[..] == Masked(s, seed)
    ensures s == [] ==> a[..] == []
  {
    a, ok := new Byte[|s|](_ => 0), true;
    for i := 0 to |s|
      invariant ok && (seed == [] ==> i == 0)
      invariant forall j :: 0 <= j < i ==> seed != [] && a[j] == Xor(s[j], seed[j % |seed|])
    {
      if |seed| == 0 { return a, false; }
      a[i] := Xor(s[i], seed[i % |seed|]);
    }
  }

  /** Unobfuscating with the same seed gives the source back: for every source and every seed,
      unless obfuscating panics, which it does exactly for an empty seed and a non-empty source. */
  lemma {:induction false} RoundTrip(src: seq<Byte>, seed: seq<Byte>)
    ensures Obfuscated(src, seed).Panicked? <==> seed == [] && src != []
    ensures !Obfuscated(src, seed).Panicked? ==> Unobfuscated(Obfuscated(src, seed).value, seed) == Returned(src)
  {
    if seed != [] {
      DecodeEncode(Masked(src, seed));
      MaskedTwice(src, seed);
    }
  }
}
